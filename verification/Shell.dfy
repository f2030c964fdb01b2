/**
 The recursive descent parser of src/sh.c. It moves a cursor over the input line and builds commands whose
 words are spans of that line; nulterminate then ends every word in place.
 */
module Shell {
  import opened ShellGrammar

  /** A word from its first character up to, not including, `eq`. */
  datatype Span = Span(q: nat, eq: nat)

  /** A token read by gettoken. */
  datatype Read = EndOfText | WordAt(span: Span) | Op(t: Token)

  datatype Out<T> = Ok(value: T) | Panic

  /** A span is a whole word: word characters only, and none right behind it. */
  ghost predicate Whole(text: string, s: Span) {
    && s.q < s.eq <= |text| && (forall i | s.q <= i < s.eq :: WordChar(text[i]))
    && (s.eq < |text| ==> !WordChar(text[s.eq]))
  }

  ghost predicate WholeCmd(text: string, c: Cmd<Span>) {
    match c
    case Exec(args) => forall i | 0 <= i < |args| :: Whole(text, args[i])
    case Redir(cmd, file, _) => WholeCmd(text, cmd) && Whole(text, file)
    case Pipe(left, right) => WholeCmd(text, left) && WholeCmd(text, right)
    case List(left, right) => WholeCmd(text, left) && WholeCmd(text, right)
    case Back(cmd) => WholeCmd(text, cmd)
  }

  ghost function Slice(text: string, s: Span): string
    requires Whole(text, s)
  {
    text[s.q..s.eq]
  }

  /** The command with its words spelled out. */
  ghost function TextOf(text: string, c: Cmd<Span>): Cmd<string>
    requires WholeCmd(text, c)
  {
    match c
    case Exec(args) => Exec(SlicesOf(text, args))
    case Redir(cmd, file, out) => Redir(TextOf(text, cmd), Slice(text, file), out)
    case Pipe(left, right) => Pipe(TextOf(text, left), TextOf(text, right))
    case List(left, right) => List(TextOf(text, left), TextOf(text, right))
    case Back(cmd) => Back(TextOf(text, cmd))
  }

  /** A command without its words: the number of arguments, and the modes of redirections. */
  function Bare<W>(c: Cmd<W>): Cmd<nat> {
    match c
    case Exec(args) => Exec([|args|])
    case Redir(cmd, file, out) => Redir(Bare(cmd), 0, out)
    case Pipe(left, right) => Pipe(Bare(left), Bare(right))
    case List(left, right) => List(Bare(left), Bare(right))
    case Back(cmd) => Back(Bare(cmd))
  }

  /** Spelling words out changes nothing else. */
  lemma {:induction false} TextOfBare(text: string, c: Cmd<Span>)
    requires WholeCmd(text, c)
    ensures Bare(TextOf(text, c)) == Bare(c)
  {
    match c
    case Exec(args) =>
    case Redir(cmd, file, out) => TextOfBare(text, cmd);
    case Pipe(left, right) => TextOfBare(text, left); TextOfBare(text, right);
    case List(left, right) => TextOfBare(text, left); TextOfBare(text, right);
    case Back(cmd) => TextOfBare(text, cmd);
  }

  ghost predicate WholeAll(text: string, args: seq<Span>) {
    forall i | 0 <= i < |args| :: Whole(text, args[i])
  }

  ghost function SlicesOf(text: string, args: seq<Span>): seq<string>
    requires WholeAll(text, args)
  {
    seq(|args|, i requires 0 <= i < |args| => Slice(text, args[i]))
  }

  ghost predicate WholeReds(text: string, reds: seq<(Span, bool)>) {
    forall i | 0 <= i < |reds| :: Whole(text, reds[i].0)
  }

  ghost function RedsOf(text: string, reds: seq<(Span, bool)>): seq<(string, bool)>
    requires WholeReds(text, reds)
  {
    seq(|reds|, i requires 0 <= i < |reds| => (Slice(text, reds[i].0), reds[i].1))
  }

  // ------------------------------------------------------------ the lexer's cursor

  lemma {:induction false} SkipWhite(text: string, i: nat, j: nat)
    requires i <= j <= |text| && forall k | i <= k < j :: White(text[k])
    ensures Lex(text[i..]) == Lex(text[j..])
    decreases j - i
  {
    if i < j {
      assert text[i..][0] == text[i] && text[i..][1..] == text[i + 1..];
      SkipWhite(text, i + 1, j);
    }
  }

  lemma {:induction false} LexWord(text: string, s: Span)
    requires Whole(text, s)
    ensures Lex(text[s.q..]) == [Word(Slice(text, s))] + Lex(text[s.eq..])
  {
    var t := text[s.q..];
    var n := WordLen(t);
    assert forall i | 0 <= i < s.eq - s.q :: t[i] == text[s.q + i];
    assert s.eq < |text| ==> t[s.eq - s.q] == text[s.eq];
    assert n == s.eq - s.q;
    assert t[..n] == text[s.q..s.eq] && t[n..] == text[s.eq..];
  }

  lemma {:induction false} LexOp(text: string, i: nat, n: nat)
    requires i < |text| && Symbol(text[i])
    requires n == if text[i] == '>' && i + 1 < |text| && text[i + 1] == '>' then 2 else 1
    ensures i + n <= |text| && Lex(text[i..]) == [if n == 2 then Append else Sym(text[i])] + Lex(text[i + n..])
  {
    var t := text[i..];
    assert t[0] == text[i] && (|t| > 1 ==> t[1] == text[i + 1]) && t[n..] == text[i + n..];
  }

  /** What peek sees from the cursor, once white space is skipped. */
  lemma {:induction false} LexHead(text: string, i: nat)
    requires '\0' !in text && i <= |text| && (i < |text| ==> !White(text[i]))
    ensures i == |text| ==> Lex(text[i..]) == []
    ensures i < |text| ==> Lex(text[i..]) != []
    ensures i < |text| ==> Head(Lex(text[i..])) == if Symbol(text[i]) then text[i] else 'a'
    ensures i < |text| ==> (Lex(text[i..])[0].Word? <==> !Symbol(text[i]))
  {
    if i < |text| {
      assert text[i..][0] == text[i] && text[i] in text;
    }
  }

  class Scanner {
    const text: string
    var ps: nat

    ghost predicate Valid()
      reads `ps
    {
      '\0' !in text && ps <= |text|
    }

    /** The tokens still to come. */
    ghost function Rest(): seq<Token>
      reads `ps
      requires Valid()
    {
      Lex(text[ps..])
    }

    constructor (s: string)
      requires '\0' !in s
      ensures Valid() && text == s && ps == 0
    {
      text, ps := s, 0;
    }

    method Skip()
      requires Valid()
      modifies `ps
      ensures Valid() && ps >= old(ps) && Rest() == old(Rest()) && (ps < |text| ==> !White(text[ps]))
    {
      ghost var i := ps;
      while ps < |text| && White(text[ps])
        invariant i <= ps <= |text| && forall k | i <= k < ps :: White(text[k])
      {
        ps := ps + 1;
      }
      SkipWhite(text, i, ps);
    }

    /** `peek`: is the next character, white space aside, one of these operators? */
    method Peek(toks: string) returns (r: bool)
      requires Valid() && forall c | c in toks :: Symbol(c)
      modifies `ps
      ensures Valid() && ps >= old(ps) && Rest() == old(Rest()) && (ps < |text| ==> !White(text[ps]))
      ensures r <==> Rest() != [] && Head(Rest()) in toks
    {
      Skip();
      LexHead(text, ps);
      r := ps < |text| && text[ps] in toks;
      assert !Symbol('a');
    }

    /** `gettoken`: the next token and the cursor behind it. */
    method Gettoken() returns (r: Read)
      requires Valid()
      modifies `ps
      ensures Valid() && (r.EndOfText? <==> old(Rest()) == []) && (r.EndOfText? ==> Rest() == []) && ps >= old(ps)
      ensures !r.EndOfText? ==> ps > old(ps)
      ensures r.WordAt? ==> Whole(text, r.span) && old(Rest()) == [Word(Slice(text, r.span))] + Rest()
      ensures r.Op? ==> !r.t.Word? && old(Rest()) == [r.t] + Rest()
    {
      hide Lex;
      Skip();
      LexHead(text, ps);
      var q := ps;
      if ps == |text| {
        return EndOfText;
      }
      assert text[ps] in text;
      if Symbol(text[ps]) {
        var n := if text[ps] == '>' && ps + 1 < |text| && text[ps + 1] == '>' then 2 else 1;
        r := Op(if n == 2 then Append else Sym(text[ps]));
        LexOp(text, ps, n);
        ps := ps + n;
      } else {
        while ps < |text| && !White(text[ps]) && !Symbol(text[ps])
          invariant q <= ps <= |text| && (ps == q ==> !White(text[q]) && !Symbol(text[q]))
          invariant forall k | q <= k < ps :: WordChar(text[k])
        {
          assert text[ps] in text;
          ps := ps + 1;
        }
        r := WordAt(Span(q, ps));
        LexWord(text, r.span);
      }
      Skip();
    }

    /** `parseredirs`: reads redirections and adds them to those the command has. */
    method Parseredirs(had: seq<(Span, bool)>) returns (r: Out<seq<(Span, bool)>>)
      requires Valid() && WholeReds(text, had)
      modifies `ps
      ensures Valid() && ps >= old(ps)
      ensures r.Ok? ==> WholeReds(text, r.value)
                        && Redirs(RedsOf(text, had), old(Rest())) == Parsed(RedsOf(text, r.value), Rest())
      ensures r.Panic? ==> Redirs(RedsOf(text, had), old(Rest())) == Syntax
    {
      var reds := had;
      ghost var goal := Redirs(RedsOf(text, had), Rest());
      hide Whole, Lex;
      var more := Peek("<>");
      while more
        invariant Valid() && ps >= old(ps) && WholeReds(text, reds) && goal == Redirs(RedsOf(text, reds), Rest())
        invariant more <==> Rest() != [] && Head(Rest()) in "<>"
        decreases |text| - ps
      {
        ghost var ts := Rest();
        var tok := Gettoken();
        var word := Gettoken();
        if !word.WordAt? {
          return Panic;
        }
        ghost var before := RedsOf(text, reds);
        reds := reds + [(word.span, tok.Op? && tok.t != Sym('<'))];
        assert RedsOf(text, reds) == before + [(Slice(text, word.span), Head(ts) == '>')];
        assert ts[1] == Word(Slice(text, word.span)) && ts[2..] == Rest();
        more := Peek("<>");
      }
      r := Ok(reds);
    }

    /** `parseexec`. */
    method Parseexec() returns (r: Out<Cmd<Span>>)
      requires Valid()
      modifies `ps
      ensures Valid() && ps >= old(ps) && Says(text, Simple(old(Rest())), r, Rest())
      decreases |text| - ps, 1
    {
      hide Lex, Says, Redirs, Block, Args;
      ghost var goal := Simple(Rest());
      var open := Peek("(");
      if open {
        r := Parseblock();
        return;
      }
      var first := Parseredirs([]);
      assert RedsOf(text, []) == [];
      if first == Panic {
        SaysPanic(text, Rest());
        return Panic;
      }
      assert SlicesOf(text, []) == [];
      r := Parseargs(first.value);
    }

    /** The loop of `parseexec` over words and further redirections. */
    method Parseargs(had: seq<(Span, bool)>) returns (r: Out<Cmd<Span>>)
      requires Valid() && WholeReds(text, had)
      modifies `ps
      ensures Valid() && ps >= old(ps) && Says(text, Args([], RedsOf(text, had), old(Rest())), r, Rest())
    {
      hide Whole, Lex, Says, Redirs, RedsOf;
      var args: seq<Span>, reds := [], had;
      ghost var goal := Args([], RedsOf(text, had), Rest());
      assert SlicesOf(text, args) == [];
      var closing := Peek("|)&;");
      while !closing
        invariant Valid() && ps >= old(ps) && WholeAll(text, args) && WholeReds(text, reds)
        invariant goal == Args(SlicesOf(text, args), RedsOf(text, reds), Rest())
        invariant closing <==> Rest() != [] && Closing(Head(Rest()))
        decreases |text| - ps
      {
        ghost var ts, before := Rest(), SlicesOf(text, args);
        var tok := Gettoken();
        if tok.EndOfText? { break; }
        if !tok.WordAt? {
          SaysPanic(text, Rest());
          return Panic;
        }
        args := args + [tok.span];
        assert SlicesOf(text, args) == before + [Slice(text, tok.span)];
        assert ts[0] == Word(Slice(text, tok.span)) && ts[1..] == Rest();
        if |args| >= MAXARGS {
          SaysPanic(text, Rest());
          return Panic;
        }
        var more := Parseredirs(reds);
        if more == Panic {
          SaysPanic(text, Rest());
          return Panic;
        }
        reds := more.value;
        closing := Peek("|)&;");
      }
      WrapText(text, Exec(args), reds) by { assert WholeCmd(text, Exec(args)); }
      r := Ok(Wrap(Exec(args), reds));
      SaysOk(text, r.value, Rest());
    }

    /** `parseblock`. */
    method Parseblock() returns (r: Out<Cmd<Span>>)
      requires Valid()
      modifies `ps
      ensures Valid() && ps >= old(ps) && Says(text, Block(old(Rest())), r, Rest())
      decreases |text| - ps, 0
    {
      hide Lex, Says, Redirs, Line;
      ghost var ts := Rest();
      var open := Peek("(");
      if !open {
        SaysPanic(text, Rest());
        return Panic;
      }
      var tok := Gettoken();
      assert ts[1..] == Rest();
      r := Parseline();
      SaysMeans(text, Line(ts[1..]), r, Rest());
      if r == Panic {
        SaysPanic(text, Rest());
        return;
      }
      var close := Peek(")");
      if !close {
        SaysPanic(text, Rest());
        return Panic;
      }
      ghost var after := Rest();
      tok := Gettoken();
      assert after[1..] == Rest();
      var more := Parseredirs([]);
      assert RedsOf(text, []) == [];
      if more == Panic {
        SaysPanic(text, Rest());
        return Panic;
      }
      WrapText(text, r.value, more.value);
      r := Ok(Wrap(r.value, more.value));
      SaysOk(text, r.value, Rest());
    }

    /** `parsepipe`. */
    method Parsepipe() returns (r: Out<Cmd<Span>>)
      requires Valid()
      modifies `ps
      ensures Valid() && ps >= old(ps) && Says(text, Pipeline(old(Rest())), r, Rest())
      decreases |text| - ps, 2
    {
      hide Lex, Says, Simple;
      ghost var ts := Rest();
      r := Parseexec();
      SaysMeans(text, Simple(ts), r, Rest());
      if r == Panic { return; }
      var bar := Peek("|");
      if !bar { return; }
      ghost var after := Rest();
      var tok := Gettoken();
      assert after[1..] == Rest();
      var right := Parsepipe();
      SaysMeans(text, Pipeline(after[1..]), right, Rest());
      if right == Panic {
        SaysPanic(text, Rest());
        return Panic;
      }
      r := Ok(Pipe(r.value, right.value));
      SaysOk(text, r.value, Rest());
    }

    /** `parseline`. */
    method Parseline() returns (r: Out<Cmd<Span>>)
      requires Valid()
      modifies `ps
      ensures Valid() && ps >= old(ps) && Says(text, Line(old(Rest())), r, Rest())
      decreases |text| - ps, 3
    {
      hide Lex, Says, Pipeline;
      ghost var ts := Rest();
      r := Parsepipe();
      SaysMeans(text, Pipeline(ts), r, Rest());
      if r == Panic {
        SaysPanic(text, Rest());
        return;
      }
      var cmd := r.value;
      ghost var goal := Backs(TextOf(text, cmd), Rest());
      var back := Peek("&");
      while back
        invariant Valid() && ps >= old(ps) && WholeCmd(text, cmd) && goal == Backs(TextOf(text, cmd), Rest())
        invariant back <==> Rest() != [] && Head(Rest()) == '&'
        decreases |text| - ps
      {
        ghost var now := Rest();
        var tok := Gettoken();
        assert now[1..] == Rest();
        cmd := Back(cmd);
        back := Peek("&");
      }
      var semi := Peek(";");
      if !semi {
        r := Ok(cmd);
        SaysOk(text, cmd, Rest());
        return;
      }
      ghost var after := Rest();
      var tok := Gettoken();
      assert after[1..] == Rest();
      var next := Parseline();
      SaysMeans(text, Line(after[1..]), next, Rest());
      if next == Panic {
        SaysPanic(text, Rest());
        return Panic;
      }
      r := Ok(List(cmd, next.value));
      SaysOk(text, r.value, Rest());
    }
  }

  /** The parser's answer is the grammar's, with spans for words. */
  ghost predicate Says(text: string, p: Parsed<Cmd<string>>, r: Out<Cmd<Span>>, rest: seq<Token>) {
    match r
    case Ok(c) => WholeCmd(text, c) && p == Parsed(TextOf(text, c), rest)
    case Panic => p == Syntax
  }

  lemma SaysPanic(text: string, rest: seq<Token>)
    ensures Says(text, Syntax, Panic, rest)
  {
  }

  lemma SaysOk(text: string, c: Cmd<Span>, rest: seq<Token>)
    requires WholeCmd(text, c)
    ensures Says(text, Parsed(TextOf(text, c), rest), Ok(c), rest)
  {
  }

  lemma SaysMeans(text: string, p: Parsed<Cmd<string>>, r: Out<Cmd<Span>>, rest: seq<Token>)
    requires Says(text, p, r, rest)
    ensures r.Ok? ==> WholeCmd(text, r.value) && p == Parsed(TextOf(text, r.value), rest)
    ensures r.Panic? ==> p == Syntax
  {
  }

  lemma {:induction false} WrapText(text: string, cmd: Cmd<Span>, reds: seq<(Span, bool)>)
    requires WholeCmd(text, cmd) && WholeReds(text, reds)
    ensures WholeCmd(text, Wrap(cmd, reds))
    ensures TextOf(text, Wrap(cmd, reds)) == Wrap(TextOf(text, cmd), RedsOf(text, reds))
    decreases |reds|
  {
    if reds != [] {
      var n := |reds| - 1;
      WrapText(text, cmd, reds[..n]);
      assert RedsOf(text, reds)[..n] == RedsOf(text, reds[..n]);
      assert RedsOf(text, reds)[n] == (Slice(text, reds[n].0), reds[n].1);
    } else {
      assert RedsOf(text, reds) == [];
    }
  }

  // ------------------------------------------------------------ ending the words

  /** Some word of the command ends at i. */
  ghost predicate Ended(c: Cmd<Span>, i: nat) {
    match c
    case Exec(args) => exists k | 0 <= k < |args| :: args[k].eq == i
    case Redir(cmd, file, _) => Ended(cmd, i) || file.eq == i
    case Pipe(left, right) => Ended(left, i) || Ended(right, i)
    case List(left, right) => Ended(left, i) || Ended(right, i)
    case Back(cmd) => Ended(cmd, i)
  }

  ghost predicate HasSpan(c: Cmd<Span>, s: Span) {
    match c
    case Exec(args) => s in args
    case Redir(cmd, file, _) => HasSpan(cmd, s) || file == s
    case Pipe(left, right) => HasSpan(left, s) || HasSpan(right, s)
    case List(left, right) => HasSpan(left, s) || HasSpan(right, s)
    case Back(cmd) => HasSpan(cmd, s)
  }

  /** `nulterminate` writes a terminator right behind every word of the command, and nothing else. */
  method Nulterminate(c: Cmd<Span>, buf: array<char>, ghost text: string)
    requires WholeCmd(text, c) && |text| < buf.Length
    modifies buf
    ensures forall i: nat | i < buf.Length :: buf[i] == if Ended(c, i) then '\0' else old(buf[i])
    decreases c
  {
    match c
    case Exec(args) => {
      var k := 0;
      while k < |args|
        invariant 0 <= k <= |args|
        invariant forall i: nat | i < buf.Length ::
                    buf[i] == if exists j | 0 <= j < k :: args[j].eq == i then '\0' else old(buf[i])
      {
        assert Whole(text, args[k]);
        buf[args[k].eq] := '\0';
        k := k + 1;
      }
    }
    case Redir(cmd, file, _) => {
      Nulterminate(cmd, buf, text);
      buf[file.eq] := '\0';
    }
    case Pipe(left, right) => {
      Nulterminate(left, buf, text);
      Nulterminate(right, buf, text);
    }
    case List(left, right) => {
      Nulterminate(left, buf, text);
      Nulterminate(right, buf, text);
    }
    case Back(cmd) => {
      Nulterminate(cmd, buf, text);
    }
  }

  /** Every word is a whole word, and no end lies inside one. */
  lemma {:induction false} SpanWhole(text: string, c: Cmd<Span>, s: Span)
    requires WholeCmd(text, c) && HasSpan(c, s)
    ensures Whole(text, s) && Ended(c, s.eq)
    decreases c
  {
    match c
    case Exec(args) => {}
    case Redir(cmd, file, _) => { if s != file { SpanWhole(text, cmd, s); } }
    case Pipe(left, right) => { if HasSpan(left, s) { SpanWhole(text, left, s); } else { SpanWhole(text, right, s); } }
    case List(left, right) => { if HasSpan(left, s) { SpanWhole(text, left, s); } else { SpanWhole(text, right, s); } }
    case Back(cmd) => { SpanWhole(text, cmd, s); }
  }

  lemma {:induction false} EndOutside(text: string, c: Cmd<Span>, i: nat)
    requires WholeCmd(text, c) && Ended(c, i)
    ensures i <= |text| && (i < |text| ==> !WordChar(text[i]))
    decreases c
  {
    match c
    case Exec(args) => {}
    case Redir(cmd, file, _) => { if i != file.eq { EndOutside(text, cmd, i); } }
    case Pipe(left, right) => { if Ended(left, i) { EndOutside(text, left, i); } else { EndOutside(text, right, i); } }
    case List(left, right) => { if Ended(left, i) { EndOutside(text, left, i); } else { EndOutside(text, right, i); } }
    case Back(cmd) => { EndOutside(text, cmd, i); }
  }

  /** The terminated string that starts at s.q is exactly the word. */
  ghost predicate Terminated(buf: seq<char>, text: string, s: Span) {
    && Whole(text, s) && s.eq < |buf| && buf[s.q..s.eq] == Slice(text, s) && '\0' !in buf[s.q..s.eq]
    && buf[s.eq] == '\0'
  }

  lemma {:induction false} WordKept(text: string, c: Cmd<Span>, s: Span, was: seq<char>, buf: seq<char>)
    requires WholeCmd(text, c) && HasSpan(c, s) && |text| < |buf| == |was| && text == was[..|text|]
    requires forall i: nat | i < |buf| :: buf[i] == if Ended(c, i) then '\0' else was[i]
    ensures Terminated(buf, text, s)
  {
    SpanWhole(text, c, s);
    forall i: nat | s.q <= i < s.eq
      ensures buf[i] == text[i] && text[i] != '\0'
    {
      if Ended(c, i) { EndOutside(text, c, i); }
    }
  }

  /**
   `parsecmd` on the line in the buffer: it accepts exactly the grammar's commands, and afterwards each
   argument and file name of the command is its own terminated string in the buffer.
   */
  method Parsecmd(buf: array<char>, n: nat) returns (r: Out<Cmd<Span>>)
    requires n < buf.Length && buf[n] == '\0' && '\0' !in buf[..n]
    modifies buf
    ensures r == Panic <==> Command(old(buf[..n])) == Syntax
    ensures r == Panic ==> buf[..] == old(buf[..])
    ensures r.Ok? ==> WholeCmd(old(buf[..n]), r.value)
    ensures r.Ok? ==> Command(old(buf[..n])) == Parsed(TextOf(old(buf[..n]), r.value), [])
    ensures r.Ok? ==> forall s | HasSpan(r.value, s) :: Terminated(buf[..], old(buf[..n]), s)
  {
    var text := buf[..n];
    ghost var was := buf[..];
    var scanner := new Scanner(text);
    assert text[0..] == text;
    r := scanner.Parseline();
    var leftover := scanner.Peek("");
    LexHead(text, scanner.ps);
    if r == Panic || scanner.ps != |text| {
      return Panic;
    }
    Nulterminate(r.value, buf, text);
    forall s | HasSpan(r.value, s)
      ensures Terminated(buf[..], text, s)
    {
      WordKept(text, r.value, s, was, buf[..]);
    }
    hide Lex, Line;
  }
}
