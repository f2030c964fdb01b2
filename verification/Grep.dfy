/**
 The regular expression matcher of src/grep.c, decided against the language of the pattern: a pattern is
 parsed into a list of items, every item denotes a set of words, and a list denotes the concatenations.
 */
module Grep {

  /** A C string without its terminator. */
  type CString = s: string | '\0' !in s

  /** The character at index i of the terminated string. */
  function At(s: CString, i: nat): (c: char)
    requires i <= |s|
    ensures c == '\0' <==> i == |s|
  {
    if i < |s| then s[i] else '\0'
  }

  // ------------------------------------------------------------ patterns and their meaning

  datatype Base = Any | Literal(c: char)
  datatype Item = Once(b: Base) | Star(b: Base)

  /** `start` for a leading ^, `end` for a final $. */
  datatype Pattern = Pattern(start: bool, items: seq<Item>, end: bool)

  predicate Fits(b: Base, c: char) {
    b.Any? || b.c == c
  }

  /** The words of one item. */
  predicate ItemWord(a: Item, w: string) {
    && (a.Once? ==> |w| == 1)
    && forall i | 0 <= i < |w| :: Fits(a.b, w[i])
  }

  function Join(ws: seq<string>): string {
    if ws == [] then "" else ws[0] + Join(ws[1..])
  }

  /** w splits into one word per item. */
  ghost predicate Word(items: seq<Item>, w: string) {
    exists ws: seq<string> :: |ws| == |items| && Join(ws) == w && forall i | 0 <= i < |ws| :: ItemWord(items[i], ws[i])
  }

  /** The pattern occurs in the text: some stretch of it is a word, at the ends the anchors ask for. */
  ghost predicate Occurs(p: Pattern, text: string) {
    exists i, j | 0 <= i <= j <= |text| :: Word(p.items, text[i..j]) && (p.start ==> i == 0) && (p.end ==> j == |text|)
  }

  function BaseOf(c: char): Base {
    if c == '.' then Any else Literal(c)
  }

  /** What follows an optional ^. A star binds the character before it, whichever that is. */
  function ParseItems(re: CString): (r: (seq<Item>, bool)) {
    if re == "" then ([], false)
    else if |re| >= 2 && re[1] == '*' then
      var rest := ParseItems(re[2..]); ([Star(BaseOf(re[0]))] + rest.0, rest.1)
    else if re == "$" then ([], true)
    else
      var rest := ParseItems(re[1..]); ([Once(BaseOf(re[0]))] + rest.0, rest.1)
  }

  function Parse(re: CString): Pattern {
    if re != "" && re[0] == '^' then
      var p := ParseItems(re[1..]); Pattern(true, p.0, p.1)
    else
      var p := ParseItems(re); Pattern(false, p.0, p.1)
  }

  /** Writing a pattern down again. */
  function CharOf(b: Base): char {
    if b.Any? then '.' else b.c
  }

  function ShowItems(items: seq<Item>, end: bool): string {
    if items == [] then (if end then "$" else "")
    else [CharOf(items[0].b)] + (if items[0].Star? then "*" else "") + ShowItems(items[1..], end)
  }

  function Show(p: Pattern): string {
    (if p.start then "^" else "") + ShowItems(p.items, p.end)
  }

  lemma {:induction false} ShowParsedItems(re: CString)
    ensures ShowItems(ParseItems(re).0, ParseItems(re).1) == re
    decreases |re|
  {
    if re != "" && re != "$" {
      var n := if |re| >= 2 && re[1] == '*' then 2 else 1;
      var items, rest := ParseItems(re).0, ParseItems(re[n..]);
      ShowParsedItems(re[n..]);
      assert items[1..] == rest.0;
      assert re == re[..n] + re[n..];
    }
  }

  /** Parsing loses nothing: no two expressions mean the same pattern. */
  lemma {:induction false} ShowParsed(re: CString)
    ensures Show(Parse(re)) == re
  {
    ShowParsedItems(if re != "" && re[0] == '^' then re[1..] else re);
  }

  /** What can be written at place i: `.` means any character, and `*` behind a single character binds it. */
  predicate Writable(items: seq<Item>, i: nat)
    requires i < |items|
  {
    && items[i].b != Literal('.') && items[i].b != Literal('\0')
    && (items[i].b == Literal('*') && i > 0 ==> items[i - 1].Star?)
  }

  predicate PlainItems(items: seq<Item>, end: bool) {
    && (forall i | 0 <= i < |items| :: Writable(items, i))
    && (!end && items != [] ==> items[|items| - 1] != Once(Literal('$')))
  }

  /** No literal is written like one of the special characters where that would count as special. */
  predicate Plain(p: Pattern) {
    PlainItems(p.items, p.end) && (!p.start && p.items != [] ==> p.items[0].b != Literal('^'))
  }

  lemma {:induction false} PlainTail(items: seq<Item>, end: bool)
    requires PlainItems(items, end) && items != []
    ensures PlainItems(items[1..], end)
  {
    forall i | 0 <= i < |items[1..]| ensures Writable(items[1..], i) { assert Writable(items, i + 1); }
  }

  /** Reading back what was written. */
  lemma {:induction false} ParseShownItems(items: seq<Item>, end: bool)
    requires PlainItems(items, end)
    ensures '\0' !in ShowItems(items, end) && ParseItems(ShowItems(items, end)) == (items, end)
    decreases |items|
  {
    if items != [] {
      var a, rest, re := items[0], ShowItems(items[1..], end), ShowItems(items, end);
      assert Writable(items, 0);
      PlainTail(items, end);
      ParseShownItems(items[1..], end);
      assert BaseOf(CharOf(a.b)) == a.b && items == [a] + items[1..];
      if a.Star? {
        assert re[0] == CharOf(a.b) && re[1] == '*' && re[2..] == rest;
      } else {
        assert re[0] == CharOf(a.b) && re[1..] == rest;
        if |items| > 1 {
          assert Writable(items, 1);
          assert rest[0] == CharOf(items[1].b) != '*';
        }
      }
    }
  }

  /** What parsing yields can be written. */
  lemma {:induction false} ParsedPlainItems(re: CString)
    ensures PlainItems(ParseItems(re).0, ParseItems(re).1)
    ensures ParseItems(re).0 != [] ==> re != "" && ParseItems(re).0[0].b == BaseOf(re[0])
    decreases |re|
  {
    if re != "" && re != "$" {
      var n := if |re| >= 2 && re[1] == '*' then 2 else 1;
      var items, rest := ParseItems(re).0, ParseItems(re[n..]);
      ParsedPlainItems(re[n..]);
      assert items[1..] == rest.0;
      assert forall i | 0 <= i < |re| :: re[i] in re;
      forall i | 0 <= i < |items| ensures Writable(items, i) {
        if i > 0 { assert Writable(rest.0, i - 1); }
      }
    }
  }

  /**
   Exactly the patterns whose printing is unambiguous come back from it; so `.`, `*`, a leading ^ and a
   final $ are special, and nothing else is.
   */
  lemma {:induction false} ParseShown(p: Pattern)
    ensures '\0' !in Show(p) && Parse(Show(p)) == p <==> Plain(p)
  {
    if Plain(p) {
      ParseShownItems(p.items, p.end);
      var re := ShowItems(p.items, p.end);
      if p.items != [] { assert re[0] == CharOf(p.items[0].b); }
      assert Show(p) == if p.start then "^" + re else re;
      assert ("^" + re)[1..] == re && (!p.start ==> re == "" || re[0] != '^');
    }
    if '\0' !in Show(p) && Parse(Show(p)) == p {
      ParsedPlainItems(if p.start then Show(p)[1..] else Show(p));
    }
  }

  /** The text starts with a word of the items, and ends with it if `end`. */
  ghost predicate Starts(items: seq<Item>, end: bool, text: string) {
    exists j | 0 <= j <= |text| :: Word(items, text[..j]) && (end ==> j == |text|)
  }

  // ------------------------------------------------------------ the language, item by item

  lemma {:induction false} WordNone(w: string)
    ensures Word([], w) <==> w == ""
  {
    if w == "" {
      assert Join([]) == w;
    }
  }

  /** A word of a list is a word of its head followed by a word of its tail. */
  lemma {:induction false} WordSplit(items: seq<Item>, w: string) returns (k: nat)
    requires items != [] && Word(items, w)
    ensures k <= |w| && ItemWord(items[0], w[..k]) && Word(items[1..], w[k..])
  {
    var ws: seq<string> :| |ws| == |items| && Join(ws) == w && forall i | 0 <= i < |ws| :: ItemWord(items[i], ws[i]);
    k := |ws[0]|;
    assert w == ws[0] + Join(ws[1..]);
    assert w[..k] == ws[0] && w[k..] == Join(ws[1..]);
    assert forall i | 0 <= i < |ws[1..]| :: ItemWord(items[1..][i], ws[1..][i]);
  }

  lemma {:induction false} WordJoin(items: seq<Item>, w: string, k: nat)
    requires items != [] && k <= |w| && ItemWord(items[0], w[..k]) && Word(items[1..], w[k..])
    ensures Word(items, w)
  {
    var ts: seq<string> :| |ts| == |items[1..]| && Join(ts) == w[k..] &&
      forall i | 0 <= i < |ts| :: ItemWord(items[1..][i], ts[i]);
    var ws := [w[..k]] + ts;
    assert ws[1..] == ts;
    assert Join(ws) == w[..k] + w[k..] == w;
    forall i | 0 <= i < |ws|
      ensures ItemWord(items[i], ws[i])
    {
      if i > 0 { assert ItemWord(items[1..][i - 1], ts[i - 1]); }
    }
  }

  lemma {:induction false} StartsSplit(items: seq<Item>, end: bool, text: string) returns (k: nat)
    requires items != [] && Starts(items, end, text)
    ensures k <= |text| && ItemWord(items[0], text[..k]) && Starts(items[1..], end, text[k..])
  {
    hide Word;
    var j: nat :| j <= |text| && Word(items, text[..j]) && (end ==> j == |text|);
    k := WordSplit(items, text[..j]);
    assert text[..j][..k] == text[..k];
    assert text[..j][k..] == text[k..][..j - k];
  }

  lemma {:induction false} StartsJoin(items: seq<Item>, end: bool, text: string, k: nat)
    requires items != [] && k <= |text| && ItemWord(items[0], text[..k]) && Starts(items[1..], end, text[k..])
    ensures Starts(items, end, text)
  {
    hide Word;
    var j: nat :| j <= |text[k..]| && Word(items[1..], text[k..][..j]) && (end ==> j == |text[k..]|);
    assert text[..k + j][..k] == text[..k];
    assert text[..k + j][k..] == text[k..][..j];
    WordJoin(items, text[..k + j], k);
  }

  /** A text starts with a list exactly when, after some word of the head, it starts with the tail. */
  lemma {:induction false} StartsCons(a: Item, items: seq<Item>, end: bool, text: string)
    ensures Starts([a] + items, end, text) <==>
            exists k: nat | k <= |text| :: ItemWord(a, text[..k]) && Starts(items, end, text[k..])
  {
    hide Starts, ItemWord;
    var all := [a] + items;
    assert all[0] == a && all[1..] == items;
    if Starts(all, end, text) {
      var k := StartsSplit(all, end, text);
    }
    if k: nat :| k <= |text| && ItemWord(a, text[..k]) && Starts(items, end, text[k..]) {
      StartsJoin(all, end, text, k);
    }
  }

  lemma {:induction false} StartsNone(end: bool, text: string)
    ensures Starts([], end, text) <==> !end || text == ""
  {
    WordNone(text[..0]);
    if j :| 0 <= j <= |text| && Word([], text[..j]) && (end ==> j == |text|) {
      WordNone(text[..j]);
    }
  }

  lemma {:induction false} StartsOnce(b: Base, items: seq<Item>, end: bool, text: string)
    ensures Starts([Once(b)] + items, end, text) <==> text != "" && Fits(b, text[0]) && Starts(items, end, text[1..])
  {
    StartsCons(Once(b), items, end, text);
    if text != "" {
      assert ItemWord(Once(b), text[..1]) <==> Fits(b, text[0]);
    }
  }

  /** A star stands for any number of characters, none included. */
  lemma {:induction false} StartsStar(b: Base, items: seq<Item>, end: bool, text: string)
    ensures Starts([Star(b)] + items, end, text) <==>
              || Starts(items, end, text)
              || (text != "" && Fits(b, text[0]) && Starts([Star(b)] + items, end, text[1..]))
  {
    hide Starts;
    StartsCons(Star(b), items, end, text);
    if text != "" { StartsCons(Star(b), items, end, text[1..]); }
    if Starts([Star(b)] + items, end, text) {
      var k: nat :| k <= |text| && ItemWord(Star(b), text[..k]) && Starts(items, end, text[k..]);
      if k == 0 {
        assert text[0..] == text;
      } else {
        assert text[..k][0] == text[0] && text[1..][..k - 1] == text[..k][1..] && text[1..][k - 1..] == text[k..];
      }
    }
    if Starts(items, end, text) {
      assert ItemWord(Star(b), text[..0]) && text[0..] == text;
    }
    if text != "" && Fits(b, text[0]) && Starts([Star(b)] + items, end, text[1..]) {
      var k: nat :| k <= |text[1..]| && ItemWord(Star(b), text[1..][..k]) && Starts(items, end, text[1..][k..]);
      assert text[..k + 1] == [text[0]] + text[1..][..k] && text[k + 1..] == text[1..][k..];
    }
  }

  // ------------------------------------------------------------ plain text

  predicate Ordinary(c: char) {
    c != '.' && c != '*' && c != '^' && c != '$' && c != '\0'
  }

  function Anchored(start: bool, w: string, end: bool): string {
    (if start then "^" else "") + w + (if end then "$" else "")
  }

  lemma {:induction false} StartsText(w: string, end: bool, text: string)
    requires forall i | 0 <= i < |w| :: Ordinary(w[i])
    ensures '\0' !in Anchored(false, w, end)
    ensures var p := ParseItems(Anchored(false, w, end));
            Starts(p.0, p.1, text) <==> w <= text && (end ==> text == w)
    decreases |w|
  {
    hide Starts;
    var re := Anchored(false, w, end);
    if w == "" {
      StartsNone(end, text);
    } else {
      StartsText(w[1..], end, if text == "" then "" else text[1..]);
      assert re[0] == w[0] && re[1..] == Anchored(false, w[1..], end);
      assert |re| >= 2 ==> re[1] != '*' by { if |w| >= 2 { assert re[1] == w[1]; } }
      var p := ParseItems(re[1..]);
      StartsOnce(Literal(w[0]), p.0, p.1, text);
      assert w == [w[0]] + w[1..] && (text != "" ==> text == [text[0]] + text[1..]);
    }
  }

  /** Text without special characters is found exactly where it stands, at the ends the anchors ask for. */
  lemma {:induction false} FindsText(start: bool, w: string, end: bool, text: string)
    requires forall i | 0 <= i < |w| :: Ordinary(w[i])
    ensures '\0' !in Anchored(start, w, end)
    ensures Occurs(Parse(Anchored(start, w, end)), text) <==>
            exists i | 0 <= i <= |text| :: w <= text[i..] && (start ==> i == 0) && (end ==> text[i..] == w)
  {
    StartsText(w, end, text);
    var re := Anchored(start, w, end);
    assert start ==> re[1..] == Anchored(false, w, end);
    assert !start && re != "" ==> re[0] == (if w == "" then '$' else w[0]);
    OccursSuffix(Parse(re), text);
    forall i | 0 <= i <= |text|
      ensures Starts(Parse(re).items, Parse(re).end, text[i..]) <==> w <= text[i..] && (end ==> text[i..] == w)
    {
      StartsText(w, end, text[i..]);
    }
  }

  /** `.` is found wherever there is a character. */
  lemma {:induction false} FindsAny(text: string)
    ensures Occurs(Parse("."), text) <==> text != ""
  {
    var re: CString := ".";
    assert re[1..] == "" && [Once(Any)] + [] == [Once(Any)];
    assert Parse(re) == Pattern(false, [Once(Any)], false);
    hide Parse, ParseItems;
    OccursSuffix(Parse(re), text);
    forall i | 0 <= i <= |text| ensures Starts([Once(Any)], false, text[i..]) <==> i < |text| {
      StartsOnce(Any, [], false, text[i..]);
      if i < |text| { StartsNone(false, text[i..][1..]); }
    }
    hide Starts, Occurs;
    assert text != "" ==> Starts([Once(Any)], false, text[0..]);
  }

  /** ^.*$ is every text. */
  lemma {:induction false} FindsAll(text: string)
    ensures Occurs(Parse("^.*$"), text)
  {
    var re: CString := "^.*$";
    assert re[1..][2..] == "$" && [Star(Any)] + [] == [Star(Any)];
    assert Parse(re) == Pattern(true, [Star(Any)], true);
    hide Parse, ParseItems;
    OccursSuffix(Parse(re), text);
    StartsCons(Star(Any), [], true, text);
    assert ItemWord(Star(Any), text[..|text|]);
    StartsNone(true, text[|text|..]);
    assert text[0..] == text;
  }

  /** The anchored and the floating case in terms of suffixes. */
  lemma {:induction false} OccursSuffix(p: Pattern, text: string)
    ensures Occurs(p, text) <==>
            exists i | 0 <= i <= |text| :: (p.start ==> i == 0) && Starts(p.items, p.end, text[i..])
  {
    if i, j :| 0 <= i <= j <= |text| && Word(p.items, text[i..j]) && (p.start ==> i == 0) && (p.end ==> j == |text|) {
      assert text[i..][..j - i] == text[i..j];
      assert Starts(p.items, p.end, text[i..]);
    }
    if i :| 0 <= i <= |text| && (p.start ==> i == 0) && Starts(p.items, p.end, text[i..]) {
      var j :| 0 <= j <= |text[i..]| && Word(p.items, text[i..][..j]) && (p.end ==> j == |text[i..]|);
      assert text[i..][..j] == text[i..i + j];
    }
  }

  // ------------------------------------------------------------ the matcher

  /** `matchhere`: does the text start with the pattern? */
  method Matchhere(re: CString, text: CString) returns (r: bool)
    ensures r <==> Starts(ParseItems(re).0, ParseItems(re).1, text)
    decreases |re|, 0
  {
    if At(re, 0) == '\0' {
      StartsNone(false, text);
      return true;
    }
    if At(re, 1) == '*' {
      r := Matchstar(re[0], re[2..], text);
      return;
    }
    if re[0] == '$' && At(re, 1) == '\0' {
      assert re == "$";
      StartsNone(true, text);
      return At(text, 0) == '\0';
    }
    var rest := ParseItems(re[1..]);
    StartsOnce(BaseOf(re[0]), rest.0, rest.1, text);
    if At(text, 0) != '\0' && (re[0] == '.' || re[0] == text[0]) {
      r := Matchhere(re[1..], text[1..]);
      return;
    }
    return false;
  }

  /** The words of a star reach no further than the first character that does not fit. */
  lemma {:induction false} StarReach(b: Base, text: string, i: nat, k: nat)
    requires i <= |text| && (i < |text| ==> !Fits(b, text[i])) && k <= |text| && ItemWord(Star(b), text[..k])
    ensures k <= i
  {
    assert forall x | 0 <= x < k :: text[..k][x] == text[x];
  }

  lemma {:induction false} StarGrows(b: Base, text: string, i: nat)
    requires i < |text| && ItemWord(Star(b), text[..i]) && Fits(b, text[i])
    ensures ItemWord(Star(b), text[..i + 1])
  {
    assert text[..i + 1] == text[..i] + [text[i]];
  }

  /** `matchstar`: does the text start with c*re? */
  method Matchstar(c: char, re: CString, text: CString) returns (r: bool)
    ensures r <==> Starts([Star(BaseOf(c))] + ParseItems(re).0, ParseItems(re).1, text)
    decreases |re|, 1
  {
    var i: nat := 0;
    ghost var p := ParseItems(re);
    StartsCons(Star(BaseOf(c)), p.0, p.1, text);
    assert ItemWord(Star(BaseOf(c)), text[..0]);
    hide ItemWord, Starts;
    while true
      invariant i <= |text|
      invariant ItemWord(Star(BaseOf(c)), text[..i])
      invariant forall k: nat | k < i :: !Starts(p.0, p.1, text[k..])
      decreases |text| - i
    {
      r := Matchhere(re, text[i..]);
      if r { return; }
      if !(At(text, i) != '\0' && (text[i] == c || c == '.')) {
        break;
      }
      StarGrows(BaseOf(c), text, i);
      i := i + 1;
    }
    forall k: nat | k <= |text| && ItemWord(Star(BaseOf(c)), text[..k])
      ensures k <= i
    {
      StarReach(BaseOf(c), text, i, k);
    }
  }

  /** `match`: does the pattern occur in the text? */
  method Match(re: CString, text: CString) returns (r: bool)
    ensures r <==> Occurs(Parse(re), text)
  {
    OccursSuffix(Parse(re), text);
    if At(re, 0) == '^' {
      r := Matchhere(re[1..], text);
      assert text[0..] == text;
      return;
    }
    var i: nat := 0;
    while true
      invariant i <= |text|
      invariant forall k: nat | k < i :: !Starts(Parse(re).items, Parse(re).end, text[k..])
      decreases |text| - i
    {
      r := Matchhere(re, text[i..]);
      if r { return; }
      if At(text, i) == '\0' { break; }
      i := i + 1;
    }
  }
}
