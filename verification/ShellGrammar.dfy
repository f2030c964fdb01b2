/**
 The shell's language (src/sh.c): words and operators, the grammar its parser accepts, and a printing of
 command trees that parses back to the same tree.
 */
module ShellGrammar {

  const MAXARGS := 10

  // ------------------------------------------------------------ tokens

  /** A word, an operator of one character, or >>. */
  datatype Token = Word(w: string) | Sym(c: char) | Append

  predicate White(c: char) {
    c == ' ' || c == '\t' || c == '\r' || c == '\n' || c == '\U{b}'
  }

  predicate Symbol(c: char) {
    c == '<' || c == '|' || c == '>' || c == '&' || c == ';' || c == '(' || c == ')'
  }

  predicate WordChar(c: char) {
    !White(c) && !Symbol(c) && c != '\0'
  }

  /** Length of the leading word of a text. */
  function WordLen(s: string): (n: nat)
    ensures n <= |s| && (forall i | 0 <= i < n :: WordChar(s[i])) && (n < |s| ==> !WordChar(s[n]))
  {
    if s == "" || !WordChar(s[0]) then 0 else 1 + WordLen(s[1..])
  }

  /** The tokens of a text. */
  function Lex(s: string): seq<Token>
    decreases |s|
  {
    if s == "" then []
    else if WordChar(s[0]) then [Word(s[..WordLen(s)])] + Lex(s[WordLen(s)..])
    else if |s| >= 2 && s[0] == '>' && s[1] == '>' then [Append] + Lex(s[2..])
    else if Symbol(s[0]) then [Sym(s[0])] + Lex(s[1..])
    else Lex(s[1..])
  }

  predicate LegalWord(w: string) {
    w != "" && forall i | 0 <= i < |w| :: WordChar(w[i])
  }

  predicate LegalToken(t: Token) {
    (t.Word? ==> LegalWord(t.w)) && (t.Sym? ==> Symbol(t.c))
  }

  function Spelling(t: Token): string {
    match t
    case Word(w) => w
    case Sym(c) => [c]
    case Append => ">>"
  }

  /** Tokens written out, each followed by a space. */
  function Spell(ts: seq<Token>): string {
    if ts == [] then "" else Spelling(ts[0]) + " " + Spell(ts[1..])
  }

  lemma {:induction false} WordLenOf(w: string, rest: string)
    requires (forall i | 0 <= i < |w| :: WordChar(w[i])) && (rest != "" ==> !WordChar(rest[0]))
    ensures WordLen(w + rest) == |w|
    decreases |w|
  {
    var n := WordLen(w + rest);
    assert forall i | 0 <= i < |w| :: (w + rest)[i] == w[i];
    assert n >= |w|;
    assert rest != "" ==> (w + rest)[|w|] == rest[0];
  }

  /** Reading what was written. */
  lemma {:induction false} LexSpelled(ts: seq<Token>)
    requires forall i | 0 <= i < |ts| :: LegalToken(ts[i])
    ensures Lex(Spell(ts)) == ts
    decreases |ts|
  {
    if ts != [] {
      var t, rest := ts[0], " " + Spell(ts[1..]);
      LexSpelled(ts[1..]);
      assert rest[1..] == Spell(ts[1..]);
      assert Lex(rest) == ts[1..];
      var s := Spelling(t) + rest;
      assert Spell(ts) == s;
      match t
      case Word(w) => {
        WordLenOf(w, rest);
        assert s[0] == w[0] && s[..|w|] == w && s[|w|..] == rest;
      }
      case Sym(c) => { assert s[0] == c && s[1] == ' ' && s[1..] == rest; }
      case Append => { assert s[0] == '>' && s[1] == '>' && s[2..] == rest; }
      assert ts == [t] + ts[1..];
    }
  }

  // ------------------------------------------------------------ commands

  /** A command; `out` tells > from <. */
  datatype Cmd<W> =
    | Exec(args: seq<W>)
    | Redir(cmd: Cmd<W>, file: W, out: bool)
    | Pipe(left: Cmd<W>, right: Cmd<W>)
    | List(left: Cmd<W>, right: Cmd<W>)
    | Back(cmd: Cmd<W>)

  datatype Parsed<T> = Parsed(value: T, rest: seq<Token>) | Syntax

  /** The character peek sees. */
  function Head(ts: seq<Token>): char {
    if ts == [] then '\0'
    else match ts[0]
      case Word(_) => 'a'
      case Sym(c) => c
      case Append => '>'
  }

  function Wrap<W>(cmd: Cmd<W>, reds: seq<(W, bool)>): Cmd<W>
    decreases |reds|
  {
    if reds == [] then cmd else Redir(Wrap(cmd, reds[..|reds| - 1]), reds[|reds| - 1].0, reds[|reds| - 1].1)
  }

  /** Redirections, added to those read before. */
  function Redirs(reds: seq<(string, bool)>, ts: seq<Token>): (r: Parsed<seq<(string, bool)>>)
    ensures r.Parsed? ==> |r.rest| <= |ts| && Head(r.rest) != '<' && Head(r.rest) != '>'
    decreases |ts|
  {
    if Head(ts) != '<' && Head(ts) != '>' then Parsed(reds, ts)
    else if |ts| < 2 || !ts[1].Word? then Syntax
    else Redirs(reds + [(ts[1].w, Head(ts) == '>')], ts[2..])
  }

  predicate Closing(c: char) { c == '|' || c == ')' || c == '&' || c == ';' }

  /** The words of a simple command, with redirections in between. */
  function Args(args: seq<string>, reds: seq<(string, bool)>, ts: seq<Token>): (r: Parsed<Cmd<string>>)
    ensures r.Parsed? ==> |r.rest| <= |ts|
    decreases |ts|
  {
    if ts == [] || Closing(Head(ts)) then Parsed(Wrap(Exec(args), reds), ts)
    else if !ts[0].Word? || |args| + 1 >= MAXARGS then Syntax
    else
      var more := Redirs(reds, ts[1..]);
      if more.Syntax? then Syntax else Args(args + [ts[0].w], more.value, more.rest)
  }

  function Block(ts: seq<Token>): (r: Parsed<Cmd<string>>)
    ensures r.Parsed? ==> |r.rest| <= |ts|
    decreases |ts|, 0
  {
    if Head(ts) != '(' then Syntax
    else
      var body := Line(ts[1..]);
      if body.Syntax? || Head(body.rest) != ')' then Syntax
      else
        var more := Redirs([], body.rest[1..]);
        if more.Syntax? then Syntax else Parsed(Wrap(body.value, more.value), more.rest)
  }

  function Simple(ts: seq<Token>): (r: Parsed<Cmd<string>>)
    ensures r.Parsed? ==> |r.rest| <= |ts|
    decreases |ts|, 1
  {
    if Head(ts) == '(' then Block(ts)
    else
      var more := Redirs([], ts);
      if more.Syntax? then Syntax else Args([], more.value, more.rest)
  }

  function Pipeline(ts: seq<Token>): (r: Parsed<Cmd<string>>)
    ensures r.Parsed? ==> |r.rest| <= |ts|
    decreases |ts|, 2
  {
    var left := Simple(ts);
    if left.Syntax? || Head(left.rest) != '|' then left
    else
      var right := Pipeline(left.rest[1..]);
      if right.Syntax? then Syntax else Parsed(Pipe(left.value, right.value), right.rest)
  }

  function Backs(cmd: Cmd<string>, ts: seq<Token>): (r: Parsed<Cmd<string>>)
    ensures r.Parsed? && |r.rest| <= |ts|
    decreases |ts|
  {
    if Head(ts) == '&' then Backs(Back(cmd), ts[1..]) else Parsed(cmd, ts)
  }

  function Line(ts: seq<Token>): (r: Parsed<Cmd<string>>)
    ensures r.Parsed? ==> |r.rest| <= |ts|
    decreases |ts|, 3
  {
    var first := Pipeline(ts);
    if first.Syntax? then Syntax
    else
      var cmd := Backs(first.value, first.rest);
      if Head(cmd.rest) != ';' then cmd
      else
        var next := Line(cmd.rest[1..]);
        if next.Syntax? then Syntax else Parsed(List(cmd.value, next.value), next.rest)
  }

  /** The whole text is one line. */
  function Command(s: string): Parsed<Cmd<string>> {
    var r := Line(Lex(s));
    if r.Parsed? && r.rest != [] then Syntax else r
  }

  // ------------------------------------------------------------ printing

  predicate Legal(c: Cmd<string>) {
    match c
    case Exec(args) => |args| < MAXARGS && forall i | 0 <= i < |args| :: LegalWord(args[i])
    case Redir(cmd, file, _) => Legal(cmd) && LegalWord(file)
    case Pipe(left, right) => Legal(left) && Legal(right)
    case List(left, right) => Legal(left) && Legal(right)
    case Back(cmd) => Legal(cmd)
  }

  function Words(args: seq<string>): seq<Token> {
    seq(|args|, i requires 0 <= i < |args| => Word(args[i]))
  }

  function Paren(c: Cmd<string>): seq<Token>
    decreases c, 1
  {
    [Sym('(')] + Tokens(c) + [Sym(')')]
  }

  function Tokens(c: Cmd<string>): seq<Token>
    decreases c, 0
  {
    match c
    case Exec(args) => Words(args)
    case Redir(cmd, file, out) => Paren(cmd) + [Sym(if out then '>' else '<'), Word(file)]
    case Pipe(left, right) => Paren(left) + [Sym('|')] + Paren(right)
    case List(left, right) => Paren(left) + [Sym(';')] + Paren(right)
    case Back(cmd) => Paren(cmd) + [Sym('&')]
  }

  function Print(c: Cmd<string>): string {
    Spell(Tokens(c))
  }

  // ------------------------------------------------------------ round trip

  /** What can follow a line: nothing, or the parenthesis that closes it. */
  predicate Ends(rest: seq<Token>) { rest == [] || rest[0] == Sym(')') }

  lemma {:induction false} ArgsWords(done: seq<string>, todo: seq<string>, rest: seq<Token>)
    requires |done| + |todo| < MAXARGS && Ends(rest)
    ensures Args(done, [], Words(todo) + rest) == Parsed(Exec(done + todo), rest)
    decreases |todo|
  {
    var ts := Words(todo) + rest;
    if todo == [] {
      assert ts == rest && done + todo == done;
    } else {
      assert ts[0] == Word(todo[0]);
      assert ts[1..] == Words(todo[1..]) + rest;
      ArgsWords(done + [todo[0]], todo[1..], rest);
      assert done + [todo[0]] + todo[1..] == done + todo;
    }
  }

  /** A parenthesised command and its redirections. */
  lemma {:induction false} BlockParsed(c: Cmd<string>, rest: seq<Token>, reds: seq<(string, bool)>, after: seq<Token>)
    requires Line(Tokens(c) + ([Sym(')')] + rest)) == Parsed(c, [Sym(')')] + rest)
    requires Redirs([], rest) == Parsed(reds, after)
    ensures Simple(Paren(c) + rest) == Parsed(Wrap(c, reds), after)
  {
    var ts := Paren(c) + rest;
    assert ts[0] == Sym('(');
    assert ts[1..] == Tokens(c) + ([Sym(')')] + rest);
    assert ([Sym(')')] + rest)[1..] == rest;
    hide Line, Tokens, Redirs;
  }

  lemma {:induction false} PlainBlock(c: Cmd<string>, rest: seq<Token>)
    requires Line(Tokens(c) + ([Sym(')')] + rest)) == Parsed(c, [Sym(')')] + rest)
    requires Head(rest) != '<' && Head(rest) != '>'
    ensures Simple(Paren(c) + rest) == Parsed(c, rest)
  {
    hide Line, Tokens;
    BlockParsed(c, rest, [], rest);
  }

  /** A pipeline, or a line, of one parenthesised command. */
  lemma {:induction false} AloneParsed(c: Cmd<string>, rest: seq<Token>)
    requires Line(Tokens(c) + ([Sym(')')] + rest)) == Parsed(c, [Sym(')')] + rest) && Ends(rest)
    ensures Pipeline(Paren(c) + rest) == Parsed(c, rest) && Line(Paren(c) + rest) == Parsed(c, rest)
  {
    hide Tokens, Simple, Paren;
    PlainBlock(c, rest);
    PipelineEnds(Paren(c) + rest, c, rest);
    LineEnds(Paren(c) + rest, c, rest);
  }

  lemma {:induction false} PipelineEnds(ts: seq<Token>, c: Cmd<string>, rest: seq<Token>)
    requires Simple(ts) == Parsed(c, rest) && Head(rest) != '|'
    ensures Pipeline(ts) == Parsed(c, rest)
  {
    hide Simple;
  }

  lemma {:induction false} LineEnds(ts: seq<Token>, c: Cmd<string>, rest: seq<Token>)
    requires Pipeline(ts) == Parsed(c, rest) && Ends(rest)
    ensures Line(ts) == Parsed(c, rest)
  {
    hide Pipeline;
  }

  lemma {:induction false} LineExec(args: seq<string>, rest: seq<Token>)
    requires |args| < MAXARGS && Ends(rest)
    ensures Line(Words(args) + rest) == Parsed(Exec(args), rest)
  {
    var ts := Words(args) + rest;
    ArgsWords([], args, rest);
    assert [] + args == args;
    assert Head(ts) != '(' && Head(ts) != '<' && Head(ts) != '>' by {
      if args == [] { assert ts == rest; } else { assert ts[0] == Word(args[0]); }
    }
    assert Simple(ts) == Parsed(Exec(args), rest) by { hide Args; }
    hide Simple, Args;
    PipelineEnds(ts, Exec(args), rest);
    LineEnds(ts, Exec(args), rest);
  }

  /** A parenthesised command reads back, whatever follows the parenthesis. */
  predicate Reads(c: Cmd<string>, rest: seq<Token>) {
    Line(Tokens(c) + ([Sym(')')] + rest)) == Parsed(c, [Sym(')')] + rest)
  }

  lemma {:induction false} RedirReads(cmd: Cmd<string>, file: string, out: bool, rest: seq<Token>)
    requires Reads(cmd, [Sym(if out then '>' else '<'), Word(file)] + rest) && Ends(rest)
    ensures Line(Paren(cmd) + ([Sym(if out then '>' else '<'), Word(file)] + rest))
              == Parsed(Redir(cmd, file, out), rest)
  {
    hide Line, Simple, Tokens, Paren, Redirs;
    var more := [Sym(if out then '>' else '<'), Word(file)] + rest;
    RedirOne(file, out, rest);
    BlockParsed(cmd, more, [(file, out)], rest);
    assert Wrap(cmd, [(file, out)]) == Redir(cmd, file, out) by { assert [(file, out)][..0] == []; }
    PipelineEnds(Paren(cmd) + more, Redir(cmd, file, out), rest);
    LineEnds(Paren(cmd) + more, Redir(cmd, file, out), rest);
  }

  lemma {:induction false} PipeReads(left: Cmd<string>, right: Cmd<string>, rest: seq<Token>)
    requires Reads(left, [Sym('|')] + (Paren(right) + rest)) && Reads(right, rest) && Ends(rest)
    ensures Line(Paren(left) + ([Sym('|')] + (Paren(right) + rest))) == Parsed(Pipe(left, right), rest)
  {
    hide Line, Simple, Tokens, Paren;
    var more := [Sym('|')] + (Paren(right) + rest);
    PlainBlock(left, more);
    AloneParsed(right, rest);
    assert more[1..] == Paren(right) + rest;
    assert Pipeline(Paren(left) + more) == Parsed(Pipe(left, right), rest);
    LineEnds(Paren(left) + more, Pipe(left, right), rest);
  }

  lemma {:induction false} ListReads(left: Cmd<string>, right: Cmd<string>, rest: seq<Token>)
    requires Reads(left, [Sym(';')] + (Paren(right) + rest)) && Reads(right, rest) && Ends(rest)
    ensures Line(Paren(left) + ([Sym(';')] + (Paren(right) + rest))) == Parsed(List(left, right), rest)
  {
    hide Line, Simple, Tokens, Paren, Pipeline;
    var more := [Sym(';')] + (Paren(right) + rest);
    PlainBlock(left, more);
    AloneParsed(right, rest);
    PipelineEnds(Paren(left) + more, left, more);
    assert more[1..] == Paren(right) + rest;
    ListParsed(Paren(left) + more, left, more, right, rest);
  }

  lemma {:induction false} BackReads(cmd: Cmd<string>, rest: seq<Token>)
    requires Reads(cmd, [Sym('&')] + rest) && Ends(rest)
    ensures Line(Paren(cmd) + ([Sym('&')] + rest)) == Parsed(Back(cmd), rest)
  {
    hide Line, Simple, Tokens, Paren, Pipeline;
    var more := [Sym('&')] + rest;
    PlainBlock(cmd, more);
    PipelineEnds(Paren(cmd) + more, cmd, more);
    assert more[1..] == rest;
    BackParsed(Paren(cmd) + more, cmd, more, rest);
  }

  /** The tokens of a compound command, split after its first parenthesis closes. */
  lemma {:induction false} TokensSplit(c: Cmd<string>, rest: seq<Token>)
    requires !c.Exec?
    ensures Tokens(c) + rest ==
            match c
            case Redir(cmd, file, out) => Paren(cmd) + ([Sym(if out then '>' else '<'), Word(file)] + rest)
            case Pipe(left, right) => Paren(left) + ([Sym('|')] + (Paren(right) + rest))
            case List(left, right) => Paren(left) + ([Sym(';')] + (Paren(right) + rest))
            case Back(cmd) => Paren(cmd) + ([Sym('&')] + rest)
  {
    hide Paren;
  }

  /** A printed tree, read as a line, is that tree again and leaves what follows. */
  lemma {:induction false} LineParsed(c: Cmd<string>, rest: seq<Token>)
    requires Legal(c) && Ends(rest)
    ensures Line(Tokens(c) + rest) == Parsed(c, rest)
    decreases c
  {
    if c.Exec? {
      LineExec(c.args, rest);
    } else {
      TokensSplit(c, rest);
      hide Line, Tokens, Paren;
      match c
      case Redir(cmd, file, out) => {
        LineParsed(cmd, [Sym(')')] + ([Sym(if out then '>' else '<'), Word(file)] + rest));
        RedirReads(cmd, file, out, rest);
      }
      case Pipe(left, right) => {
        LineParsed(left, [Sym(')')] + ([Sym('|')] + (Paren(right) + rest)));
        LineParsed(right, [Sym(')')] + rest);
        PipeReads(left, right, rest);
      }
      case List(left, right) => {
        LineParsed(left, [Sym(')')] + ([Sym(';')] + (Paren(right) + rest)));
        LineParsed(right, [Sym(')')] + rest);
        ListReads(left, right, rest);
      }
      case Back(cmd) => {
        LineParsed(cmd, [Sym(')')] + ([Sym('&')] + rest));
        BackReads(cmd, rest);
      }
    }
  }

  lemma {:induction false} RedirOne(file: string, out: bool, rest: seq<Token>)
    requires Ends(rest)
    ensures Redirs([], [Sym(if out then '>' else '<'), Word(file)] + rest) == Parsed([(file, out)], rest)
  {
    var ts := [Sym(if out then '>' else '<'), Word(file)] + rest;
    assert ts[2..] == rest && [] + [(file, out)] == [(file, out)];
  }

  lemma {:induction false} ListParsed(ts: seq<Token>, left: Cmd<string>, more: seq<Token>, right: Cmd<string>,
                                      rest: seq<Token>)
    requires Pipeline(ts) == Parsed(left, more) && Head(more) == ';' && Line(more[1..]) == Parsed(right, rest)
    ensures Line(ts) == Parsed(List(left, right), rest)
  {
    hide Pipeline;
  }

  lemma {:induction false} BackParsed(ts: seq<Token>, cmd: Cmd<string>, more: seq<Token>, rest: seq<Token>)
    requires Pipeline(ts) == Parsed(cmd, more) && Head(more) == '&' && more[1..] == rest && Ends(rest)
    ensures Line(ts) == Parsed(Back(cmd), rest)
  {
    hide Pipeline;
    assert Backs(cmd, more) == Backs(Back(cmd), rest) == Parsed(Back(cmd), rest);
  }

  predicate AllLegal(ts: seq<Token>) { forall i | 0 <= i < |ts| :: LegalToken(ts[i]) }

  lemma JoinLegal(a: seq<Token>, b: seq<Token>)
    requires AllLegal(a) && AllLegal(b)
    ensures AllLegal(a + b)
  {
  }

  lemma {:induction false} ParenLegal(c: Cmd<string>)
    requires AllLegal(Tokens(c))
    ensures AllLegal(Paren(c))
  {
    hide Tokens;
    JoinLegal([Sym('(')], Tokens(c));
    JoinLegal([Sym('(')] + Tokens(c), [Sym(')')]);
  }

  lemma {:induction false} TokensLegal(c: Cmd<string>)
    requires Legal(c)
    ensures AllLegal(Tokens(c))
    decreases c
  {
    hide AllLegal;
    match c
    case Exec(args) => { WordsLegal(args); }
    case Redir(cmd, file, out) => {
      TokensLegal(cmd);
      ParenLegal(cmd);
      OpLegal(file, out);
      JoinLegal(Paren(cmd), [Sym(if out then '>' else '<'), Word(file)]);
    }
    case Pipe(left, right) => {
      TokensLegal(left);
      TokensLegal(right);
      BothLegal(left, right, '|');
    }
    case List(left, right) => {
      TokensLegal(left);
      TokensLegal(right);
      BothLegal(left, right, ';');
    }
    case Back(cmd) => {
      TokensLegal(cmd);
      ParenLegal(cmd);
      SymLegal('&');
      JoinLegal(Paren(cmd), [Sym('&')]);
    }
  }

  lemma {:induction false} BothLegal(left: Cmd<string>, right: Cmd<string>, c: char)
    requires AllLegal(Tokens(left)) && AllLegal(Tokens(right)) && Symbol(c)
    ensures AllLegal(Paren(left) + [Sym(c)] + Paren(right))
  {
    hide AllLegal, Tokens, Paren;
    ParenLegal(left);
    ParenLegal(right);
    SymLegal(c);
    JoinLegal(Paren(left), [Sym(c)]);
    JoinLegal(Paren(left) + [Sym(c)], Paren(right));
  }

  lemma WordsLegal(args: seq<string>)
    requires forall i | 0 <= i < |args| :: LegalWord(args[i])
    ensures AllLegal(Words(args))
  {
  }

  lemma SymLegal(c: char)
    requires Symbol(c)
    ensures AllLegal([Sym(c)])
  {
  }

  lemma OpLegal(file: string, out: bool)
    requires LegalWord(file)
    ensures AllLegal([Sym(if out then '>' else '<'), Word(file)])
  {
  }

  /** Every command tree comes back from its printing. */
  lemma {:induction false} RoundTrip(c: Cmd<string>)
    requires Legal(c)
    ensures Command(Print(c)) == Parsed(c, [])
  {
    TokensLegal(c);
    LexSpelled(Tokens(c));
    LineParsed(c, []);
    assert Tokens(c) + [] == Tokens(c);
  }

  // ------------------------------------------------------------ what the grammar accepts

  /** The tokens of a text have legal words and operators. */
  lemma {:induction false} LexLegal(s: string)
    ensures AllLegal(Lex(s))
    decreases |s|
  {
    hide AllLegal;
    if s == "" {
      JoinNone();
    } else if WordChar(s[0]) {
      var n := WordLen(s);
      LexLegal(s[n..]);
      WordLegal(s[..n]);
      JoinLegal([Word(s[..n])], Lex(s[n..]));
    } else if |s| >= 2 && s[0] == '>' && s[1] == '>' {
      LexLegal(s[2..]);
      AppendLegal();
      JoinLegal([Append], Lex(s[2..]));
    } else {
      LexLegal(s[1..]);
      if Symbol(s[0]) {
        SymLegal(s[0]);
        JoinLegal([Sym(s[0])], Lex(s[1..]));
      }
    }
  }

  lemma JoinNone()
    ensures AllLegal([])
  {
  }

  lemma AppendLegal()
    ensures AllLegal([Append])
  {
  }

  lemma WordLegal(w: string)
    requires LegalWord(w)
    ensures AllLegal([Word(w)])
  {
  }

  lemma TailLegal(ts: seq<Token>, k: nat)
    requires AllLegal(ts) && k <= |ts|
    ensures AllLegal(ts[k..])
  {
  }

  predicate LegalReds(reds: seq<(string, bool)>) { forall i | 0 <= i < |reds| :: LegalWord(reds[i].0) }

  lemma {:induction false} RedirsLegal(reds: seq<(string, bool)>, ts: seq<Token>)
    requires LegalReds(reds) && AllLegal(ts)
    ensures var r := Redirs(reds, ts); r.Parsed? ==> LegalReds(r.value) && AllLegal(r.rest)
    decreases |ts|
  {
    if (Head(ts) == '<' || Head(ts) == '>') && |ts| >= 2 && ts[1].Word? {
      assert LegalToken(ts[1]);
      TailLegal(ts, 2);
      RedirsLegal(reds + [(ts[1].w, Head(ts) == '>')], ts[2..]);
    }
  }

  lemma {:induction false} WrapLegal(c: Cmd<string>, reds: seq<(string, bool)>)
    requires Legal(c) && LegalReds(reds)
    ensures Legal(Wrap(c, reds))
    decreases |reds|
  {
    if reds != [] { WrapLegal(c, reds[..|reds| - 1]); }
  }

  lemma {:induction false} ArgsLegal(args: seq<string>, reds: seq<(string, bool)>, ts: seq<Token>)
    requires Legal(Exec(args)) && LegalReds(reds) && AllLegal(ts)
    ensures Fine(Args(args, reds, ts))
    decreases |ts|
  {
    if ts == [] || Closing(Head(ts)) {
      WrapLegal(Exec(args), reds);
    } else if ts[0].Word? && |args| + 1 < MAXARGS {
      assert LegalToken(ts[0]);
      TailLegal(ts, 1);
      RedirsLegal(reds, ts[1..]);
      var more := Redirs(reds, ts[1..]);
      if more.Parsed? { ArgsLegal(args + [ts[0].w], more.value, more.rest); }
    }
  }

  /** If it parses, the tree is legal and so is what follows. */
  predicate Fine(r: Parsed<Cmd<string>>) { r.Parsed? ==> Legal(r.value) && AllLegal(r.rest) }

  lemma {:induction false} BlockLegal(ts: seq<Token>)
    requires AllLegal(ts)
    ensures Fine(Block(ts))
    decreases |ts|, 0
  {
    hide AllLegal;
    if Head(ts) == '(' {
      TailLegal(ts, 1);
      LineLegal(ts[1..]);
      var body := Line(ts[1..]);
      if body.Parsed? && Head(body.rest) == ')' {
        TailLegal(body.rest, 1);
        NoReds();
        RedirsLegal([], body.rest[1..]);
        var more := Redirs([], body.rest[1..]);
        if more.Parsed? { WrapLegal(body.value, more.value); }
      }
    }
  }

  lemma NoReds()
    ensures LegalReds([])
  {
  }

  lemma {:induction false} SimpleLegal(ts: seq<Token>)
    requires AllLegal(ts)
    ensures Fine(Simple(ts))
    decreases |ts|, 1
  {
    hide AllLegal;
    if Head(ts) == '(' {
      BlockLegal(ts);
    } else {
      NoReds();
      RedirsLegal([], ts);
      var more := Redirs([], ts);
      if more.Parsed? { ArgsLegal([], more.value, more.rest); }
    }
  }

  lemma {:induction false} PipelineLegal(ts: seq<Token>)
    requires AllLegal(ts)
    ensures Fine(Pipeline(ts))
    decreases |ts|, 2
  {
    hide AllLegal;
    SimpleLegal(ts);
    var left := Simple(ts);
    if left.Parsed? && Head(left.rest) == '|' {
      TailLegal(left.rest, 1);
      PipelineLegal(left.rest[1..]);
    }
  }

  lemma {:induction false} BacksLegal(cmd: Cmd<string>, ts: seq<Token>)
    requires Legal(cmd) && AllLegal(ts)
    ensures Fine(Backs(cmd, ts))
    decreases |ts|
  {
    hide AllLegal;
    if Head(ts) == '&' {
      TailLegal(ts, 1);
      BacksLegal(Back(cmd), ts[1..]);
    }
  }

  lemma {:induction false} LineLegal(ts: seq<Token>)
    requires AllLegal(ts)
    ensures Fine(Line(ts))
    decreases |ts|, 3
  {
    hide AllLegal;
    PipelineLegal(ts);
    var first := Pipeline(ts);
    if first.Parsed? {
      BacksLegal(first.value, first.rest);
      var cmd := Backs(first.value, first.rest);
      if Head(cmd.rest) == ';' {
        TailLegal(cmd.rest, 1);
        LineLegal(cmd.rest[1..]);
      }
    }
  }

  /**
   Whatever the parser accepts is a tree of legal words, so it is also what its own printing parses to:
   the accepted trees are exactly the legal ones.
   */
  lemma {:induction false} CommandLegal(s: string)
    requires Command(s).Parsed?
    ensures Legal(Command(s).value) && Command(Print(Command(s).value)) == Command(s)
  {
    LexLegal(s);
    LineLegal(Lex(s));
    RoundTrip(Command(s).value);
  }
}
