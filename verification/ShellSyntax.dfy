/**
 The language of src/sh.c as a grammar on its own: syntax trees with the tokens they stand for and the
 command they mean. The parser accepts exactly the lines that are the tokens of such a tree, and gives what
 it means; so no word or operator is lost, and parentheses are needed nowhere but for grouping.
 */
module ShellSyntax {
  import opened ShellGrammar

  datatype Op = In | Out | OutMore      // < > >>

  /** An argument, or a redirection and its file. */
  datatype Piece = Arg(w: string) | To(op: Op, file: string)

  /** A simple command, with arguments and redirections in any order, or a group with redirections behind. */
  datatype Unit = Plain(ps: seq<Piece>) | Group(body: Script, reds: seq<Piece>)

  datatype Chain = One(u: Unit) | Piped(u: Unit, more: Chain)

  /** A pipeline with any number of & behind, and after ; perhaps another script. */
  datatype Script = Script(chain: Chain, backs: nat, next: Next)
  datatype Next = Stop | Semi(s: Script)

  // ------------------------------------------------------------ what is written

  function OpToken(op: Op): Token {
    match op
    case In => Sym('<')
    case Out => Sym('>')
    case OutMore => Append
  }

  function PieceTokens(ps: seq<Piece>): seq<Token> {
    if ps == [] then []
    else (if ps[0].Arg? then [Word(ps[0].w)] else [OpToken(ps[0].op), Word(ps[0].file)]) + PieceTokens(ps[1..])
  }

  function UnitTokens(u: Unit): seq<Token> {
    match u
    case Plain(ps) => PieceTokens(ps)
    case Group(body, reds) => [Sym('(')] + (ScriptTokens(body) + ([Sym(')')] + PieceTokens(reds)))
  }

  function ChainTokens(p: Chain): seq<Token> {
    match p
    case One(u) => UnitTokens(u)
    case Piped(u, more) => UnitTokens(u) + ([Sym('|')] + ChainTokens(more))
  }

  function Ampersands(n: nat): seq<Token> { seq(n, _ => Sym('&')) }

  function NextTokens(n: Next): seq<Token> {
    match n
    case Stop => []
    case Semi(s) => [Sym(';')] + ScriptTokens(s)
  }

  function ScriptTokens(s: Script): seq<Token> {
    ChainTokens(s.chain) + (Ampersands(s.backs) + NextTokens(s.next))
  }

  // ------------------------------------------------------------ what it means

  function ArgsOf(ps: seq<Piece>): seq<string> {
    if ps == [] then [] else (if ps[0].Arg? then [ps[0].w] else []) + ArgsOf(ps[1..])
  }

  /** The redirections in the order they are written: the last one is outermost. */
  function Redirected(c: Cmd<string>, ps: seq<Piece>): Cmd<string>
    decreases |ps|
  {
    if ps == [] then c
    else Redirected(if ps[0].To? then Redir(c, ps[0].file, ps[0].op != In) else c, ps[1..])
  }

  function UnitMeans(u: Unit): Cmd<string> {
    match u
    case Plain(ps) => Redirected(Exec(ArgsOf(ps)), ps)
    case Group(body, reds) => Redirected(ScriptMeans(body), reds)
  }

  function ChainMeans(p: Chain): Cmd<string> {
    match p
    case One(u) => UnitMeans(u)
    case Piped(u, more) => Pipe(UnitMeans(u), ChainMeans(more))
  }

  function Backed(c: Cmd<string>, n: nat): Cmd<string>
    decreases n
  {
    if n == 0 then c else Backed(Back(c), n - 1)
  }

  function ScriptMeans(s: Script): Cmd<string> {
    var c := Backed(ChainMeans(s.chain), s.backs);
    match s.next
    case Stop => c
    case Semi(more) => List(c, ScriptMeans(more))
  }

  // ------------------------------------------------------------ what is allowed

  predicate OnlyReds(ps: seq<Piece>) { forall i | 0 <= i < |ps| :: ps[i].To? }

  /** At most nine arguments; behind a group nothing but redirections. */
  predicate UnitOk(u: Unit) {
    match u
    case Plain(ps) => |ArgsOf(ps)| < MAXARGS
    case Group(body, reds) => ScriptOk(body) && OnlyReds(reds)
  }

  predicate ChainOk(p: Chain) {
    match p
    case One(u) => UnitOk(u)
    case Piped(u, more) => UnitOk(u) && ChainOk(more)
  }

  predicate ScriptOk(s: Script) {
    ChainOk(s.chain) && (s.next.Semi? ==> ScriptOk(s.next.s))
  }

  // ------------------------------------------------------------ redirections

  /** The redirections among the pieces, as the parser collects them. */
  function RedsOf(ps: seq<Piece>): seq<(string, bool)> {
    if ps == [] then [] else (if ps[0].To? then [(ps[0].file, ps[0].op != In)] else []) + RedsOf(ps[1..])
  }

  lemma {:induction false} WrapFirst(c: Cmd<string>, r: (string, bool), rs: seq<(string, bool)>)
    ensures Wrap(c, [r] + rs) == Wrap(Redir(c, r.0, r.1), rs)
    decreases |rs|
  {
    var all := [r] + rs;
    if rs == [] {
      assert all[..0] == [];
    } else {
      assert all[..|all| - 1] == [r] + rs[..|rs| - 1];
      WrapFirst(c, r, rs[..|rs| - 1]);
    }
  }

  lemma {:induction false} WrapIs(c: Cmd<string>, ps: seq<Piece>)
    ensures Wrap(c, RedsOf(ps)) == Redirected(c, ps)
    decreases |ps|
  {
    hide Wrap, RedsOf;
    if ps == [] {
      NoPieces();
      WrapNone(c);
    } else {
      assert ps == [ps[0]] + ps[1..];
      if ps[0].To? {
        ToFirst(ps[0], ps[1..]);
        WrapFirst(c, (ps[0].file, ps[0].op != In), RedsOf(ps[1..]));
        WrapIs(Redir(c, ps[0].file, ps[0].op != In), ps[1..]);
      } else {
        ArgFirst(ps[0].w, ps[1..]);
        WrapIs(c, ps[1..]);
      }
    }
  }

  lemma WrapNone(c: Cmd<string>)
    ensures Wrap(c, []) == c
  {
  }

  lemma {:induction false} PiecesConcat(a: seq<Piece>, b: seq<Piece>)
    ensures PieceTokens(a + b) == PieceTokens(a) + PieceTokens(b)
    ensures ArgsOf(a + b) == ArgsOf(a) + ArgsOf(b) && RedsOf(a + b) == RedsOf(a) + RedsOf(b)
    decreases |a|
  {
    hide PieceTokens, ArgsOf, RedsOf;
    if a == [] {
      NoPieces();
      assert a + b == b;
    } else {
      PiecesConcat(a[1..], b);
      assert a == [a[0]] + a[1..] && a + b == [a[0]] + (a[1..] + b);
      if a[0].Arg? {
        ArgFirst(a[0].w, a[1..]);
        ArgFirst(a[0].w, a[1..] + b);
      } else {
        ToFirst(a[0], a[1..]);
        ToFirst(a[0], a[1..] + b);
      }
    }
  }

  lemma {:induction false} NoArgs(ps: seq<Piece>)
    requires OnlyReds(ps)
    ensures ArgsOf(ps) == []
  {
    if ps != [] { NoArgs(ps[1..]); }
  }

  predicate NoRed(rest: seq<Token>) { Head(rest) != '<' && Head(rest) != '>' }

  lemma {:induction false} RedirsOne(reds: seq<(string, bool)>, p: Piece, rest: seq<Token>)
    requires p.To?
    ensures Redirs(reds, [OpToken(p.op), Word(p.file)] + rest) == Redirs(reds + [(p.file, p.op != In)], rest)
  {
    var ts := [OpToken(p.op), Word(p.file)] + rest;
    assert ts[0] == OpToken(p.op) && ts[1] == Word(p.file) && ts[2..] == rest;
  }

  lemma {:induction false} RedirsRead(reds: seq<(string, bool)>, ps: seq<Piece>, rest: seq<Token>)
    requires OnlyReds(ps) && NoRed(rest)
    ensures Redirs(reds, PieceTokens(ps) + rest) == Parsed(reds + RedsOf(ps), rest)
    decreases |ps|
  {
    if ps == [] {
      assert PieceTokens(ps) + rest == rest && reds + RedsOf(ps) == reds;
    } else {
      var one := [(ps[0].file, ps[0].op != In)];
      assert PieceTokens(ps) + rest == [OpToken(ps[0].op), Word(ps[0].file)] + (PieceTokens(ps[1..]) + rest);
      RedirsOne(reds, ps[0], PieceTokens(ps[1..]) + rest);
      RedirsRead(reds + one, ps[1..], rest);
      assert reds + one + RedsOf(ps[1..]) == reds + RedsOf(ps);
    }
  }

  /** Redirections read are redirections written. */
  lemma {:induction false} RedirsWritten(reds: seq<(string, bool)>, ts: seq<Token>) returns (ps: seq<Piece>)
    requires Redirs(reds, ts).Parsed?
    ensures OnlyReds(ps) && ts == PieceTokens(ps) + Redirs(reds, ts).rest
    ensures Redirs(reds, ts).value == reds + RedsOf(ps) && NoRed(Redirs(reds, ts).rest)
    decreases |ts|
  {
    hide PieceTokens, RedsOf, OnlyReds;
    if NoRed(ts) {
      ps := [];
      NoPieces();
      assert reds + [] == reds && [] + ts == ts;
    } else {
      var op := if ts[0] == Sym('<') then In else if ts[0] == Sym('>') then Out else OutMore;
      var p := To(op, ts[1].w);
      OpFirst(ts, op);
      RedirsOne(reds, p, ts[2..]);
      var more := RedirsWritten(reds + [(p.file, op != In)], ts[2..]);
      ps := [p] + more;
      ToFirst(p, more);
      Chained([OpToken(op), Word(p.file)], PieceTokens(more), Redirs(reds, ts).rest, []);
      Chained(reds, [(p.file, op != In)], RedsOf(more), []);
    }
  }

  lemma OpFirst(ts: seq<Token>, op: Op)
    requires |ts| >= 2 && ts[1].Word? && ts[0] == OpToken(op)
    ensures ts == [OpToken(op), Word(ts[1].w)] + ts[2..]
  {
  }

  lemma ToFirst(p: Piece, ps: seq<Piece>)
    requires p.To?
    ensures PieceTokens([p] + ps) == [OpToken(p.op), Word(p.file)] + PieceTokens(ps)
    ensures RedsOf([p] + ps) == [(p.file, p.op != In)] + RedsOf(ps) && ArgsOf([p] + ps) == ArgsOf(ps)
    ensures OnlyReds(ps) ==> OnlyReds([p] + ps)
  {
    assert ([p] + ps)[1..] == ps;
  }

  // ------------------------------------------------------------ simple commands

  /** What can follow a simple command. */
  predicate Follows(rest: seq<Token>) { rest == [] || Closing(Head(rest)) }

  /** parseexec from a point between two words. */
  function Between(args: seq<string>, reds: seq<(string, bool)>, ts: seq<Token>): Parsed<Cmd<string>> {
    var more := Redirs(reds, ts);
    if more.Syntax? then Syntax else Args(args, more.value, more.rest)
  }

  /** The word at the front is an argument. */
  lemma {:induction false} BetweenWord(args: seq<string>, reds: seq<(string, bool)>, w: string, rest: seq<Token>)
    requires |args| + 1 < MAXARGS
    ensures Between(args, reds, [Word(w)] + rest) == Between(args + [w], reds, rest)
    ensures Args(args, reds, [Word(w)] + rest) == Between(args + [w], reds, rest)
  {
    var ts := [Word(w)] + rest;
    assert ts[0] == Word(w) && ts[1..] == rest;
  }

  lemma {:induction false} PiecesRead(args: seq<string>, reds: seq<(string, bool)>, ps: seq<Piece>, rest: seq<Token>)
    requires |args| + |ArgsOf(ps)| < MAXARGS && Follows(rest)
    ensures Between(args, reds, PieceTokens(ps) + rest)
            == Parsed(Wrap(Exec(args + ArgsOf(ps)), reds + RedsOf(ps)), rest)
    decreases |ps|
  {
    hide Args, Redirs, Wrap;
    var ts := PieceTokens(ps) + rest;
    if ps == [] {
      assert ts == rest && args + ArgsOf(ps) == args && reds + RedsOf(ps) == reds;
      NothingLeft(args, reds, rest);
    } else if ps[0].Arg? {
      assert ts == [Word(ps[0].w)] + (PieceTokens(ps[1..]) + rest);
      BetweenWord(args, reds, ps[0].w, PieceTokens(ps[1..]) + rest);
      PiecesRead(args + [ps[0].w], reds, ps[1..], rest);
      assert args + [ps[0].w] + ArgsOf(ps[1..]) == args + ArgsOf(ps) && RedsOf(ps) == RedsOf(ps[1..]);
    } else {
      var one := [(ps[0].file, ps[0].op != In)];
      assert ts == [OpToken(ps[0].op), Word(ps[0].file)] + (PieceTokens(ps[1..]) + rest);
      RedirsOne(reds, ps[0], PieceTokens(ps[1..]) + rest);
      PiecesRead(args, reds + one, ps[1..], rest);
      assert reds + one + RedsOf(ps[1..]) == reds + RedsOf(ps) && ArgsOf(ps) == ArgsOf(ps[1..]);
    }
  }

  lemma {:induction false} NothingLeft(args: seq<string>, reds: seq<(string, bool)>, rest: seq<Token>)
    requires Follows(rest)
    ensures Between(args, reds, rest) == Parsed(Wrap(Exec(args), reds), rest)
  {
  }

  lemma {:induction false} ArgsWritten(args: seq<string>, reds: seq<(string, bool)>, ts: seq<Token>)
    returns (ps: seq<Piece>)
    requires |args| < MAXARGS && Args(args, reds, ts).Parsed?
    ensures var r := Args(args, reds, ts);
            && ts == PieceTokens(ps) + r.rest && Follows(r.rest) && |args| + |ArgsOf(ps)| < MAXARGS
            && r.value == Wrap(Exec(args + ArgsOf(ps)), reds + RedsOf(ps))
    decreases |ts|
  {
    hide Wrap, Redirs, NoRed, PieceTokens, ArgsOf, RedsOf, OnlyReds;
    if Follows(ts) {
      NoPieces();
      ps := [];
      assert args + ArgsOf(ps) == args && reds + RedsOf(ps) == reds && PieceTokens(ps) + ts == ts;
    } else {
      var w := ts[0].w;
      assert ts == [Word(w)] + ts[1..];
      BetweenWord(args, reds, w, ts[1..]);
      var more := Redirs(reds, ts[1..]);
      var tos := RedirsWritten(reds, ts[1..]);
      var tail := ArgsWritten(args + [w], more.value, more.rest);
      ps := [Arg(w)] + (tos + tail);
      ArgFirst(w, tos + tail);
      PiecesConcat(tos, tail);
      NoArgs(tos);
      Chained([Word(w)], PieceTokens(tos), PieceTokens(tail), Args(args, reds, ts).rest);
      assert [] + ArgsOf(tail) == ArgsOf(tail);
      Chained(args, [w], ArgsOf(tail), []);
      Chained(reds, RedsOf(tos), RedsOf(tail), []);
    }
  }

  lemma Chained<T>(a: seq<T>, b: seq<T>, c: seq<T>, d: seq<T>)
    ensures a + (b + (c + d)) == a + (b + c) + d && a + b + c == a + (b + c)
  {
  }

  lemma NoPieces()
    ensures PieceTokens([]) == [] && ArgsOf([]) == [] && RedsOf([]) == [] && OnlyReds([])
  {
  }

  lemma ArgFirst(w: string, ps: seq<Piece>)
    ensures PieceTokens([Arg(w)] + ps) == [Word(w)] + PieceTokens(ps)
    ensures ArgsOf([Arg(w)] + ps) == [w] + ArgsOf(ps) && RedsOf([Arg(w)] + ps) == RedsOf(ps)
  {
    assert ([Arg(w)] + ps)[1..] == ps;
  }

  // ------------------------------------------------------------ what is written is read

  /** What can follow a pipeline. */
  predicate FollowsChain(rest: seq<Token>) { Follows(rest) && Head(rest) != '|' }

  lemma {:induction false} PlainRead(ps: seq<Piece>, rest: seq<Token>)
    requires |ArgsOf(ps)| < MAXARGS && Follows(rest)
    ensures Simple(PieceTokens(ps) + rest) == Parsed(UnitMeans(Plain(ps)), rest)
  {
    PiecesRead([], [], ps, rest);
    assert [] + ArgsOf(ps) == ArgsOf(ps) && [] + RedsOf(ps) == RedsOf(ps);
    WrapIs(Exec(ArgsOf(ps)), ps);
    assert Head(PieceTokens(ps) + rest) != '(' by {
      if ps == [] { assert PieceTokens(ps) + rest == rest; }
    }
    hide Redirs, Args, Wrap;
  }

  /** Reading inside the parentheses, then the redirections behind. */
  lemma {:induction false} GroupRead(body: Script, reds: seq<Piece>, rest: seq<Token>)
    requires OnlyReds(reds) && Follows(rest)
    requires var inner := [Sym(')')] + (PieceTokens(reds) + rest);
             Line(ScriptTokens(body) + inner) == Parsed(ScriptMeans(body), inner)
    ensures Simple(UnitTokens(Group(body, reds)) + rest) == Parsed(UnitMeans(Group(body, reds)), rest)
  {
    hide Redirs, Wrap, Line, ScriptTokens, ScriptMeans, PieceTokens, RedsOf, Redirected, OnlyReds;
    var inner := [Sym(')')] + (PieceTokens(reds) + rest);
    var ts := UnitTokens(Group(body, reds)) + rest;
    GroupSplit(body, reds, rest);
    RedirsRead([], reds, rest);
    assert [] + RedsOf(reds) == RedsOf(reds);
    WrapIs(ScriptMeans(body), reds);
    BlockRead(ts, body, inner, reds, rest);
  }

  lemma GroupSplit(body: Script, reds: seq<Piece>, rest: seq<Token>)
    ensures var ts, inner := UnitTokens(Group(body, reds)) + rest, [Sym(')')] + (PieceTokens(reds) + rest);
            Head(ts) == '(' && ts[1..] == ScriptTokens(body) + inner
            && Head(inner) == ')' && inner[1..] == PieceTokens(reds) + rest
  {
    hide ScriptTokens, PieceTokens;
  }

  lemma BlockRead(ts: seq<Token>, body: Script, inner: seq<Token>, reds: seq<Piece>, rest: seq<Token>)
    requires Head(ts) == '(' && Line(ts[1..]) == Parsed(ScriptMeans(body), inner)
    requires Head(inner) == ')' && Redirs([], inner[1..]) == Parsed(RedsOf(reds), rest)
    ensures Simple(ts) == Parsed(Wrap(ScriptMeans(body), RedsOf(reds)), rest)
  {
    hide Line, Redirs, Wrap, ScriptMeans, RedsOf;
  }

  lemma {:induction false} UnitRead(u: Unit, rest: seq<Token>)
    requires UnitOk(u) && Follows(rest)
    ensures Simple(UnitTokens(u) + rest) == Parsed(UnitMeans(u), rest)
    decreases u, 0
  {
    hide Simple, Line;
    match u
    case Plain(ps) => PlainRead(ps, rest);
    case Group(body, reds) =>
      ScriptRead(body, [Sym(')')] + (PieceTokens(reds) + rest));
      GroupRead(body, reds, rest);
  }

  lemma {:induction false} ChainRead(p: Chain, rest: seq<Token>)
    requires ChainOk(p) && FollowsChain(rest)
    ensures Pipeline(ChainTokens(p) + rest) == Parsed(ChainMeans(p), rest)
    decreases p, 1
  {
    hide Simple, Line, UnitTokens, UnitMeans, UnitOk;
    match p
    case One(u) =>
      UnitRead(u, rest);
      PipelineEnds(UnitTokens(u) + rest, UnitMeans(u), rest);
    case Piped(u, more) =>
      var after := [Sym('|')] + (ChainTokens(more) + rest);
      UnitRead(u, after);
      ChainRead(more, rest);
      assert ChainTokens(p) + rest == UnitTokens(u) + after && after[1..] == ChainTokens(more) + rest;
  }

  lemma {:induction false} BacksRead(c: Cmd<string>, n: nat, rest: seq<Token>)
    requires Head(rest) != '&'
    ensures Backs(c, Ampersands(n) + rest) == Parsed(Backed(c, n), rest)
    decreases n
  {
    var ts := Ampersands(n) + rest;
    if n == 0 {
      assert ts == rest;
    } else {
      assert ts[0] == Sym('&') && ts[1..] == Ampersands(n - 1) + rest;
      BacksRead(Back(c), n - 1, rest);
    }
  }

  lemma {:induction false} ScriptRead(s: Script, rest: seq<Token>)
    requires ScriptOk(s) && Ends(rest)
    ensures Line(ScriptTokens(s) + rest) == Parsed(ScriptMeans(s), rest)
    decreases s, 2
  {
    hide Pipeline, ChainTokens, ChainMeans, ChainOk, Backs, Backed, Ampersands;
    var end := NextTokens(s.next) + rest;
    var after := Ampersands(s.backs) + end;
    assert s.next == Stop ==> end == rest;
    assert s.next.Semi? ==> end[0] == Sym(';') && end[1..] == ScriptTokens(s.next.s) + rest;
    AfterChain(s.backs, end);
    ChainRead(s.chain, after);
    assert ScriptTokens(s) + rest == ChainTokens(s.chain) + after;
    BacksRead(ChainMeans(s.chain), s.backs, end);
    if s.next.Semi? { ScriptRead(s.next.s, rest); }
  }

  lemma AfterChain(n: nat, end: seq<Token>)
    requires end == [] || Head(end) == ';' || Head(end) == ')'
    ensures FollowsChain(Ampersands(n) + end)
  {
    if n == 0 { assert Ampersands(n) + end == end; }
  }

  // ------------------------------------------------------------ what is read was written

  lemma {:induction false} PlainWritten(ts: seq<Token>) returns (ps: seq<Piece>)
    requires Between([], [], ts).Parsed?
    ensures var r := Between([], [], ts);
            |ArgsOf(ps)| < MAXARGS && ts == PieceTokens(ps) + r.rest && r.value == UnitMeans(Plain(ps))
  {
    hide Redirs, Args, Wrap, PieceTokens, ArgsOf, RedsOf, Redirected;
    var more := Redirs([], ts);
    var tos := RedirsWritten([], ts);
    var tail := ArgsWritten([], more.value, more.rest);
    ps := tos + tail;
    PiecesConcat(tos, tail);
    NoArgs(tos);
    assert [] + RedsOf(tos) + RedsOf(tail) == RedsOf(ps) && [] + ArgsOf(tail) == ArgsOf(ps);
    WrapIs(Exec(ArgsOf(ps)), ps);
  }

  lemma {:induction false} SimpleWritten(ts: seq<Token>) returns (u: Unit)
    requires Simple(ts).Parsed?
    ensures UnitOk(u) && ts == UnitTokens(u) + Simple(ts).rest && Simple(ts).value == UnitMeans(u)
    decreases |ts|, 1
  {
    hide Redirs, Args, Block, PieceTokens, ArgsOf, Redirected, UnitMeans;
    if Head(ts) == '(' {
      u := BlockWritten(ts);
    } else {
      var ps := PlainWritten(ts);
      u := Plain(ps);
    }
  }

  lemma {:induction false} BlockWritten(ts: seq<Token>) returns (u: Unit)
    requires Block(ts).Parsed?
    ensures UnitOk(u) && ts == UnitTokens(u) + Block(ts).rest && Block(ts).value == UnitMeans(u)
    decreases |ts|, 0
  {
    hide Line, Redirs, Wrap, ScriptTokens, ScriptMeans, ScriptOk, PieceTokens, RedsOf, Redirected, NoRed;
    var body := Line(ts[1..]);
    var s := LineWritten(ts[1..]);
    var reds := RedirsWritten([], body.rest[1..]);
    WrapIs(body.value, reds);
    assert [] + RedsOf(reds) == RedsOf(reds);
    u := Group(s, reds);
    BlockTokens(ts, s, body.rest, reds, Block(ts).rest);
  }

  lemma BlockTokens(ts: seq<Token>, s: Script, more: seq<Token>, reds: seq<Piece>, rest: seq<Token>)
    requires Head(ts) == '(' && ts[1..] == ScriptTokens(s) + more
    requires Head(more) == ')' && more[1..] == PieceTokens(reds) + rest
    ensures ts == UnitTokens(Group(s, reds)) + rest
  {
    hide ScriptTokens, PieceTokens;
    assert ts == [Sym('(')] + ts[1..] && more == [Sym(')')] + more[1..];
  }

  lemma {:induction false} PipelineWritten(ts: seq<Token>) returns (p: Chain)
    requires Pipeline(ts).Parsed?
    ensures ChainOk(p) && ts == ChainTokens(p) + Pipeline(ts).rest && Pipeline(ts).value == ChainMeans(p)
    decreases |ts|, 2
  {
    hide Simple, UnitTokens, UnitMeans, UnitOk;
    var left := Simple(ts);
    var u := SimpleWritten(ts);
    if Head(left.rest) != '|' {
      p := One(u);
    } else {
      var more := PipelineWritten(left.rest[1..]);
      p := Piped(u, more);
      assert left.rest == [Sym('|')] + left.rest[1..];
    }
  }

  lemma {:induction false} BacksWritten(c: Cmd<string>, ts: seq<Token>) returns (n: nat)
    ensures ts == Ampersands(n) + Backs(c, ts).rest && Backs(c, ts).value == Backed(c, n)
    decreases |ts|
  {
    if Head(ts) == '&' {
      var k := BacksWritten(Back(c), ts[1..]);
      n := k + 1;
      assert ts == [Sym('&')] + ts[1..] && Ampersands(n) == [Sym('&')] + Ampersands(k);
    } else {
      n := 0;
    }
  }

  lemma {:induction false} LineWritten(ts: seq<Token>) returns (s: Script)
    requires Line(ts).Parsed?
    ensures ScriptOk(s) && ts == ScriptTokens(s) + Line(ts).rest && Line(ts).value == ScriptMeans(s)
    decreases |ts|, 3
  {
    hide Pipeline, ChainTokens, ChainMeans, ChainOk, Backs, Backed, Ampersands;
    var first := Pipeline(ts);
    var p := PipelineWritten(ts);
    var cmd := Backs(first.value, first.rest);
    var n := BacksWritten(first.value, first.rest);
    if Head(cmd.rest) != ';' {
      s := Script(p, n, Stop);
      assert NextTokens(s.next) == [];
    } else {
      var more := LineWritten(cmd.rest[1..]);
      s := Script(p, n, Semi(more));
      assert cmd.rest == [Sym(';')] + cmd.rest[1..];
    }
  }

  /** The parser accepts exactly the lines whose tokens a syntax tree stands for, and gives what it means. */
  lemma {:induction false} Accepts(text: string, c: Cmd<string>)
    ensures Command(text) == Parsed(c, []) <==>
            exists s :: ScriptOk(s) && Lex(text) == ScriptTokens(s) && ScriptMeans(s) == c
  {
    hide Line, ScriptTokens, ScriptMeans, ScriptOk;
    if Command(text) == Parsed(c, []) {
      var s := LineWritten(Lex(text));
      assert ScriptTokens(s) + [] == ScriptTokens(s);
    }
    if s :| ScriptOk(s) && Lex(text) == ScriptTokens(s) && ScriptMeans(s) == c {
      ScriptRead(s, []);
      assert ScriptTokens(s) + [] == ScriptTokens(s);
    }
  }

  // ------------------------------------------------------------ texts

  /** White space as the shell knows it. */
  predicate Gap(g: string) { forall i | 0 <= i < |g| :: g[i] in " \t\r\n\U{b}" }

  /** The tokens written out with a gap before, between and after them. */
  function Laid(gaps: seq<string>, ts: seq<Token>): string
    requires |gaps| == |ts| + 1
    decreases |ts|
  {
    gaps[0] + if ts == [] then "" else Spelling(ts[0]) + Laid(gaps[1..], ts[1..])
  }

  /** Tokens that would run together: two words, or a > and another. */
  predicate Merges(a: Token, b: Token) {
    (a.Word? && b.Word?) || (a == Sym('>') && (b == Sym('>') || b == Append))
  }

  ghost predicate Apart(gaps: seq<string>, ts: seq<Token>) {
    && |gaps| == |ts| + 1 && (forall i | 0 <= i < |gaps| :: Gap(gaps[i]))
    && forall i | 0 <= i < |ts| - 1 && Merges(ts[i], ts[i + 1]) :: gaps[i + 1] != ""
  }

  lemma {:induction false} LexGap(g: string, s: string)
    requires Gap(g)
    ensures Lex(g + s) == Lex(s)
    decreases |g|
  {
    if g == "" {
      assert g + s == s;
    } else {
      assert g[0] in " \t\r\n\U{b}" && (g + s)[0] == g[0] && (g + s)[1..] == g[1..] + s;
      LexGap(g[1..], s);
    }
  }

  lemma {:induction false} ApartTail(gaps: seq<string>, ts: seq<Token>)
    requires Apart(gaps, ts) && ts != []
    ensures Apart(gaps[1..], ts[1..]) && Gap(gaps[0])
    ensures |ts| >= 2 && Merges(ts[0], ts[1]) ==> gaps[1..][0] != ""
  {
    hide Gap, Merges;
    var hs, us := gaps[1..], ts[1..];
    forall i | 0 <= i < |hs| ensures Gap(hs[i]) { assert Gap(gaps[i + 1]); }
    forall i | 0 <= i < |us| - 1 && Merges(us[i], us[i + 1]) ensures hs[i + 1] != "" {
      assert us[i] == ts[i + 1] && us[i + 1] == ts[i + 2] && hs[i + 1] == gaps[i + 2];
    }
  }

  /** The first character of what is laid out: of the gap, or of the token behind an empty one. */
  lemma {:induction false} LaidHead(gaps: seq<string>, ts: seq<Token>)
    requires Apart(gaps, ts) && AllLegal(ts)
    ensures var s := Laid(gaps, ts);
            && (s == "" <==> gaps[0] == "" && ts == [])
            && (gaps[0] != "" ==> s[0] == gaps[0][0] && White(s[0]))
            && (gaps[0] == "" && ts != [] ==> s[0] == Spelling(ts[0])[0])
  {
    assert Gap(gaps[0]);
    if gaps[0] != "" { assert gaps[0][0] in " \t\r\n\U{b}"; }
    if ts != [] { assert LegalToken(ts[0]); }
  }

  /** One token in front of a text it does not run into. */
  lemma {:induction false} LexFront(t: Token, rest: string)
    requires LegalToken(t) && (t.Word? && rest != "" ==> !WordChar(rest[0]))
    requires t == Sym('>') && rest != "" ==> rest[0] != '>'
    ensures Lex(Spelling(t) + rest) == [t] + Lex(rest)
  {
    var s := Spelling(t) + rest;
    match t
    case Word(w) => {
      WordLenOf(w, rest);
      assert s[0] == w[0] && s[..|w|] == w && s[|w|..] == rest;
    }
    case Sym(c) => { assert s[0] == c && s[1..] == rest; }
    case Append => { assert s[0] == '>' && s[1] == '>' && s[2..] == rest; }
  }

  /** However tokens are laid out, they are read back, unless some run together. */
  lemma {:induction false} LexLaid(gaps: seq<string>, ts: seq<Token>)
    requires Apart(gaps, ts) && AllLegal(ts)
    ensures Lex(Laid(gaps, ts)) == ts
    decreases |ts|
  {
    hide Gap;
    if ts == [] {
      assert Gap(gaps[0]);
      LexGap(gaps[0], "");
    } else {
      ApartTail(gaps, ts);
      TailLegal(ts, 1);
      LexLaid(gaps[1..], ts[1..]);
      LaidHead(gaps[1..], ts[1..]);
      var rest := Laid(gaps[1..], ts[1..]);
      assert LegalToken(ts[0]) && (|ts| >= 2 ==> LegalToken(ts[1]));
      NoMerge(ts[0], ts[1..], gaps[1..]);
      LexGap(gaps[0], Spelling(ts[0]) + rest);
      LexFront(ts[0], rest);
      assert ts == [ts[0]] + ts[1..];
    }
  }

  /** What stands behind a token does not continue it. */
  lemma {:induction false} NoMerge(t: Token, ts: seq<Token>, gaps: seq<string>)
    requires Apart(gaps, ts) && AllLegal(ts) && LegalToken(t) && (ts != [] && Merges(t, ts[0]) ==> gaps[0] != "")
    ensures var rest := Laid(gaps, ts);
            && (t.Word? && rest != "" ==> !WordChar(rest[0])) && (t == Sym('>') && rest != "" ==> rest[0] != '>')
  {
    LaidHead(gaps, ts);
    hide Laid;
    if ts != [] { assert LegalToken(ts[0]); }
  }

  /** Every text is a layout of its tokens: nothing but white space is left out. */
  lemma {:induction false} LexLayout(s: string) returns (gaps: seq<string>)
    requires '\0' !in s
    ensures Apart(gaps, Lex(s)) && s == Laid(gaps, Lex(s))
    decreases |s|
  {
    hide Laid, Gap;
    if s == "" {
      gaps := [""];
      NoTokens();
    } else if White(s[0]) {
      var more := LexLayout(s[1..]);
      gaps := [[s[0]] + more[0]] + more[1..];
      WiderGap(s[0], more, Lex(s[1..]));
      assert s == [s[0]] + s[1..] && Lex(s) == Lex(s[1..]);
    } else {
      assert s[0] in s;
      var t := Lex(s)[0];
      var n := |Spelling(t)|;
      FrontOf(s);
      var more := LexLayout(s[n..]);
      gaps := [""] + more;
      LexLegal(s);
      LexLegal(s[n..]);
      Fronted(t, more, Lex(s[n..]), s[n..]);
      assert s == Spelling(t) + s[n..];
    }
  }

  lemma NoTokens()
    ensures Apart([""], []) && Laid([""], []) == ""
  {
  }

  lemma {:induction false} FrontOf(s: string)
    requires s != "" && (WordChar(s[0]) || Symbol(s[0]))
    ensures Lex(s) != []
    ensures var t := Lex(s)[0]; var n := |Spelling(t)|;
            && LegalToken(t) && 1 <= n <= |s| && s[..n] == Spelling(t) && Lex(s) == [t] + Lex(s[n..])
            && (t.Word? && n < |s| ==> !WordChar(s[n])) && (t == Sym('>') && n < |s| ==> s[n] != '>')
  {
    if WordChar(s[0]) {
      assert s[..WordLen(s)] != "";
    }
  }

  lemma {:induction false} WiderGap(c: char, gaps: seq<string>, ts: seq<Token>)
    requires Apart(gaps, ts) && White(c)
    ensures var hs := [[c] + gaps[0]] + gaps[1..]; Apart(hs, ts) && Laid(hs, ts) == [c] + Laid(gaps, ts)
  {
    var hs := [[c] + gaps[0]] + gaps[1..];
    assert Gap(gaps[0]) && c in " \t\r\n\U{b}";
    assert Gap(hs[0]);
    assert hs[1..] == gaps[1..];
  }

  lemma {:induction false} Fronted(t: Token, gaps: seq<string>, ts: seq<Token>, rest: string)
    requires Apart(gaps, ts) && AllLegal(ts) && rest == Laid(gaps, ts)
    requires (t.Word? && rest != "" ==> !WordChar(rest[0])) && (t == Sym('>') && rest != "" ==> rest[0] != '>')
    ensures Apart([""] + gaps, [t] + ts) && Laid([""] + gaps, [t] + ts) == Spelling(t) + rest
  {
    LaidHead(gaps, ts);
    assert ([""] + gaps)[1..] == gaps && ([t] + ts)[1..] == ts;
    hide Laid;
    if ts != [] { assert LegalToken(ts[0]); }
    var hs, us := [""] + gaps, [t] + ts;
    forall i | 0 <= i < |us| - 1 && Merges(us[i], us[i + 1]) ensures hs[i + 1] != "" {
      if i > 0 { assert us[i] == ts[i - 1] && us[i + 1] == ts[i] && hs[i + 1] == gaps[i]; }
    }
    forall i | 0 <= i < |hs| ensures Gap(hs[i]) { if i > 0 { assert Gap(gaps[i - 1]); } }
  }

  /** In whatever layout, a line written from a syntax tree parses to what the tree means. */
  lemma {:induction false} LineRead(s: Script, gaps: seq<string>)
    requires ScriptOk(s) && AllLegal(ScriptTokens(s)) && Apart(gaps, ScriptTokens(s))
    ensures Command(Laid(gaps, ScriptTokens(s))) == Parsed(ScriptMeans(s), [])
  {
    hide Command, ScriptOk, ScriptTokens, ScriptMeans, AllLegal, Laid, Lex;
    LexLaid(gaps, ScriptTokens(s));
    Accepts(Laid(gaps, ScriptTokens(s)), ScriptMeans(s));
  }
}
