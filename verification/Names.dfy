/**
 Directory names and paths: the bounded string functions of src/string.c as directories use them, and
 the splitting of a path into elements of src/fs.c.
 */
module Names {
  import opened Common

  const DIRSIZ := 14

  /** The character at i of a string that is terminated, or of which no more than that many are read. */
  function At(s: string, i: nat): char {
    if i < |s| then s[i] else '\0'
  }

  /** What a name means to a directory: at most n characters, up to the terminator. */
  function Bounded(s: string, n: nat): (r: string)
    ensures |r| <= n && '\0' !in r
  {
    if n == 0 || At(s, 0) == '\0' then "" else [s[0]] + Bounded(s[1..], n - 1)
  }

  function Key(s: string): string {
    Bounded(s, DIRSIZ)
  }

  /** The bounded name from character j on, of which the characters up to k are none of them terminators. */
  lemma {:induction false} BoundedFrom(s: string, n: nat, j: nat, k: nat)
    requires j <= k <= |s| && k <= n && forall i: nat | j <= i < k :: s[i] != '\0'
    ensures Bounded(s[j..], n - j) == s[j..k] + Bounded(s[k..], n - k)
    decreases k - j
  {
    if j == k {
      assert s[j..k] == "";
    } else {
      BoundedFrom(s, n, j + 1, k);
      assert s[j..][0] == s[j] && s[j..][1..] == s[j + 1..];
      assert [s[j]] + (s[j + 1..k] + Bounded(s[k..], n - k)) == s[j..k] + Bounded(s[k..], n - k);
    }
  }

  lemma {:induction false} BoundedAt(s: string, n: nat, k: nat)
    requires k <= |s| && k <= n && forall i: nat | i < k :: s[i] != '\0'
    ensures Bounded(s, n) == s[..k] + Bounded(s[k..], n - k)
  {
    hide Bounded;
    BoundedFrom(s, n, 0, k);
    assert s[0..] == s && s[0..k] == s[..k];
  }

  /** Up to the first terminator of p, the two strings have the same character at i. */
  predicate SameAt(p: string, q: string, i: nat) {
    (forall j: nat | j < i :: At(p, j) != '\0') ==> At(p, i) == At(q, i)
  }

  /** Two bounded strings are the same exactly when they agree at each of the first n places. */
  lemma {:induction false} BoundedAgree(p: string, q: string, n: nat)
    ensures Bounded(p, n) == Bounded(q, n) <==> forall i: nat | i < n :: SameAt(p, q, i)
    decreases n
  {
    if n > 0 && At(p, 0) == At(q, 0) != '\0' {
      BoundedAgree(p[1..], q[1..], n - 1);
      var b, c := Bounded(p, n), Bounded(q, n);
      assert b == [p[0]] + Bounded(p[1..], n - 1) && b[1..] == Bounded(p[1..], n - 1);
      assert c == [q[0]] + Bounded(q[1..], n - 1) && c[1..] == Bounded(q[1..], n - 1);
      forall i: nat | i < n ensures i == 0 || (SameAt(p, q, i) <==> SameAt(p[1..], q[1..], i - 1)) {
        if i > 0 { SameShift(p, q, i - 1); }
      }
      assert SameAt(p, q, 0);
      hide Bounded, SameAt;
      if forall i: nat | i < n :: SameAt(p, q, i) {
        forall i: nat | i < n - 1 ensures SameAt(p[1..], q[1..], i) { assert SameAt(p, q, i + 1); }
      }
    } else if n > 0 {
      First(p, n);
      First(q, n);
      assert SameAt(p, q, 0) <==> At(p, 0) == At(q, 0);
      hide Bounded;
    }
  }

  lemma SameShift(p: string, q: string, i: nat)
    requires At(p, 0) == At(q, 0) != '\0'
    ensures SameAt(p, q, i + 1) <==> SameAt(p[1..], q[1..], i)
  {
    assert forall j: nat :: At(p[1..], j) == At(p, j + 1) && At(q[1..], j) == At(q, j + 1);
    if forall j: nat | j < i + 1 :: At(p, j) != '\0' {
      forall j: nat | j < i ensures At(p[1..], j) != '\0' { assert At(p, j + 1) != '\0'; }
    }
    if forall j: nat | j < i :: At(p[1..], j) != '\0' {
      forall j: nat | j < i + 1 ensures At(p, j) != '\0' { if j > 0 { assert At(p[1..], j - 1) != '\0'; } }
    }
  }

  /** `strncmp`: zero exactly when the two bounded strings are the same. */
  method Strncmp(p: string, q: string, n: nat) returns (r: int)
    ensures r == 0 <==> Bounded(p, n) == Bounded(q, n)
    ensures r == 0 <==> forall i: nat | i < n :: SameAt(p, q, i)
  {
    BoundedAgree(p, q, n);
    var i: nat := 0;
    while i < n && At(p, i) != '\0' && At(p, i) == At(q, i)
      invariant i <= n && i <= |p| && i <= |q| && p[..i] == q[..i]
      invariant forall j: nat | j < i :: p[j] != '\0'
      decreases n - i
    {
      i := i + 1;
    }
    BoundedAt(p, n, i);
    BoundedAt(q, n, i) by { assert forall j: nat | j < i :: q[j] == q[..i][j] && p[j] == p[..i][j]; }
    SameTail(p[..i], Bounded(p[i..], n - i), Bounded(q[i..], n - i));
    if i == n { return 0; }
    First(p[i..], n - i);
    First(q[i..], n - i);
    r := At(p, i) as int - At(q, i) as int;
    assert At(p[i..], 0) == At(p, i) && At(q[i..], 0) == At(q, i);
  }

  lemma {:induction false} First(s: string, n: nat)
    requires n > 0
    ensures Bounded(s, n) == "" <==> At(s, 0) == '\0'
    ensures Bounded(s, n) != "" ==> Bounded(s, n)[0] == At(s, 0)
  {
  }

  lemma SameTail(a: string, b: string, c: string)
    ensures a + b == a + c <==> b == c
  {
    if a + b == a + c {
      assert b == (a + b)[|a|..] && c == (a + c)[|a|..];
    }
  }

  /** `strncpy` into a buffer of n characters: the copy has the same meaning as the original. */
  method Strncpy(t: string, n: nat) returns (s: string)
    ensures |s| == n && s == Padded(t, n) && Bounded(s, n) == Bounded(t, n)
  {
    s := "";
    var i: nat := 0;
    while i < n && At(t, i) != '\0'
      invariant i <= n && i <= |t| && s == t[..i]
      invariant forall j: nat | j < i :: t[j] != '\0'
      decreases n - i
    {
      s := s + [At(t, i)];
      i := i + 1;
    }
    BoundedAt(t, n, i);
    assert Bounded(t[i..], n - i) == "";
    while |s| < n
      invariant i <= |s| <= n && s == t[..i] + Zeros(|s| - i)
    {
      s := s + ['\0'];
    }
    PaddedIs(t, n);
  }

  function Zeros(k: nat): (z: string)
    ensures |z| == k && forall i | 0 <= i < k :: z[i] == '\0'
  {
    seq(k, i => '\0')
  }

  /** The name as it is stored: bounded, then filled up. */
  function Padded(t: string, n: nat): (r: string)
    ensures |r| == n
  {
    Bounded(t, n) + Zeros(n - |Bounded(t, n)|)
  }

  lemma {:induction false} PaddedIs(t: string, n: nat)
    ensures Bounded(Padded(t, n), n) == Bounded(t, n)
  {
    var b := Bounded(t, n);
    var s := Padded(t, n);
    forall i: nat | i < |b| ensures s[i] != '\0' { assert b[i] in b; }
    BoundedAt(s, n, |b|);
    assert s[..|b|] == b && s[|b|..] == Zeros(n - |b|);
  }

  // ------------------------------------------------------------ paths

  /** The nonempty stretches between slashes; `cur` is the stretch read so far. */
  function Split(path: string, cur: string): seq<string>
    decreases |path|
  {
    if path == "" then Flush(cur)
    else if path[0] == '/' then Flush(cur) + Split(path[1..], "")
    else Split(path[1..], cur + [path[0]])
  }

  function Flush(cur: string): seq<string> {
    if cur == "" then [] else [cur]
  }

  function Elements(path: string): seq<string> {
    Split(path, "")
  }

  /** Slashes in front make no difference. */
  lemma {:induction false} SkipFrom(path: string, j: nat, k: nat)
    requires j <= k <= |path| && forall i: nat | j <= i < k :: path[i] == '/'
    ensures Elements(path[j..]) == Elements(path[k..])
    decreases k - j
  {
    if j < k {
      SkipFrom(path, j + 1, k);
      assert path[j..][0] == path[j] && path[j..][1..] == path[j + 1..];
      assert Flush("") + Split(path[j + 1..], "") == Split(path[j + 1..], "");
    }
  }

  lemma {:induction false} SkipSlashes(path: string, k: nat)
    requires k <= |path| && forall i: nat | i < k :: path[i] == '/'
    ensures Elements(path) == Elements(path[k..])
  {
    hide Elements;
    SkipFrom(path, 0, k);
    assert path[0..] == path;
  }

  /** A stretch without slashes is read into the current element. */
  lemma {:induction false} ReadFrom(path: string, cur: string, j: nat, k: nat)
    requires j <= k <= |path| && forall i: nat | j <= i < k :: path[i] != '/'
    ensures Split(path[j..], cur) == Split(path[k..], cur + path[j..k])
    decreases k - j
  {
    if j == k {
      assert cur + path[j..k] == cur;
    } else {
      ReadFrom(path, cur + [path[j]], j + 1, k);
      assert path[j..][0] == path[j] && path[j..][1..] == path[j + 1..];
      assert cur + [path[j]] + path[j + 1..k] == cur + path[j..k];
    }
  }

  /** Elements, each behind at least one slash, come back as they were. */
  ghost predicate Legal(e: string) {
    e != "" && '/' !in e
  }

  /** A slash ends an element, whatever surrounds it. */
  lemma {:induction false} SplitConcat(a: string, b: string, cur: string)
    ensures Split(a + "/" + b, cur) == Split(a, cur) + Elements(b)
    decreases |a|
  {
    var path := a + "/" + b;
    if a == "" {
      assert path[0] == '/' && path[1..] == b;
    } else {
      assert path[0] == a[0] && path[1..] == a[1..] + "/" + b;
      SplitConcat(a[1..], b, if a[0] == '/' then "" else cur + [a[0]]);
    }
  }

  lemma {:induction false} ElementsConcat(a: string, b: string)
    ensures Elements(a + "/" + b) == Elements(a) + Elements(b)
  {
    SplitConcat(a, b, "");
  }

  /** A name alone is a path of one element. */
  lemma {:induction false} ElementsOne(e: string)
    requires Legal(e)
    ensures Elements(e) == [e]
  {
    assert forall i: nat | i < |e| :: e[i] in e;
    SkipOne(e, 0, |e|);
    assert e[0..] == e && e[0..|e|] == e && e[|e|..] == "";
  }

  /** Elements are never empty and have no slash in them. */
  lemma {:induction false} ElementsLegal(path: string)
    requires '\0' !in path
    ensures forall i | 0 <= i < |Elements(path)| :: Legal(Elements(path)[i]) && '\0' !in Elements(path)[i]
  {
    SplitLegal(path, "");
  }

  lemma {:induction false} SplitLegal(path: string, cur: string)
    requires '\0' !in path && '\0' !in cur && '/' !in cur
    ensures forall i | 0 <= i < |Split(path, cur)| :: Legal(Split(path, cur)[i]) && '\0' !in Split(path, cur)[i]
    decreases |path|
  {
    if path != "" {
      assert path[0] in path;
      SplitLegal(path[1..], if path[0] == '/' then "" else cur + [path[0]]);
    }
  }

  function Joined(es: seq<string>): string {
    if es == [] then "" else "/" + es[0] + Joined(es[1..])
  }

  lemma {:induction false} ElementsJoined(es: seq<string>)
    requires forall i | 0 <= i < |es| :: Legal(es[i])
    ensures Elements(Joined(es)) == es
  {
    if es != [] {
      ElementsJoined(es[1..]);
      JoinedStart(es[1..]);
      assert Legal(es[0]);
      hide Elements, Joined, Legal;
      FirstElement(es[0], Joined(es[1..]));
      JoinedFirst(es);
      assert [es[0]] + es[1..] == es;
    }
  }

  lemma JoinedStart(es: seq<string>)
    ensures Joined(es) == "" || Joined(es)[0] == '/'
  {
  }

  lemma JoinedFirst(es: seq<string>)
    requires es != []
    ensures Joined(es) == "/" + (es[0] + Joined(es[1..]))
  {
  }

  lemma {:induction false} FirstElement(e: string, rest: string)
    requires Legal(e) && (rest == "" || rest[0] == '/')
    ensures Elements("/" + (e + rest)) == [e] + Elements(rest)
  {
    var path := "/" + (e + rest);
    forall i: nat | 1 <= i < 1 + |e| ensures path[i] != '/' { assert path[i] == e[i - 1] && e[i - 1] in e; }
    assert path[1..1 + |e|] == e && path[1 + |e|..] == rest;
    hide Elements;
    SkipSlashes(path, 1);
    SkipOne(path, 1, 1 + |e|);
  }

  lemma {:induction false} SplitAtSlash(rest: string, cur: string)
    requires rest == "" || rest[0] == '/'
    ensures Split(rest, cur) == Flush(cur) + Elements(rest)
  {
  }

  /**
   `skipelem`: the next element, cut to DIRSIZ characters, and the path behind it without leading
   slashes; nothing when the path has no element left.
   */
  method Skipelem(path: string) returns (r: Option<(string, string)>)
    requires '\0' !in path
    ensures r == None <==> Elements(path) == []
    ensures r.Some? ==> Elements(path) != [] && Key(r.value.0) == Key(Elements(path)[0])
    ensures r.Some? ==> Elements(r.value.1) == Elements(path)[1..] && |r.value.1| < |path| && '\0' !in r.value.1
    ensures r.Some? ==> (r.value.1 == "" <==> |Elements(path)| == 1)
  {
    hide Elements, Key;
    var i: nat := 0;
    while At(path, i) == '/'
      invariant i <= |path| && forall j: nat | j < i :: path[j] == '/'
      decreases |path| - i
    {
      i := i + 1;
    }
    SkipSlashes(path, i);
    if At(path, i) == '\0' {
      assert path[i..] == "";
      NoneLeft("");
      return None;
    }
    var s := i;
    while At(path, i) != '/' && At(path, i) != '\0'
      invariant s <= i <= |path| && (i == s ==> At(path, s) != '/' && At(path, s) != '\0')
      invariant forall j: nat | s <= j < i :: path[j] != '/'
      decreases |path| - i
    {
      i := i + 1;
    }
    var len := i - s;
    var name := if len >= DIRSIZ then path[s..s + DIRSIZ] else path[s..i] + ['\0'];
    ghost var e := path[s..i];
    KeyCut(e, name);
    SkipOne(path, s, i);
    ghost var after := i;
    while At(path, i) == '/'
      invariant after <= i <= |path| && forall j: nat | after <= j < i :: path[j] == '/'
      decreases |path| - i
    {
      i := i + 1;
    }
    SkipFrom(path, after, i);
    assert path[i..] != "" ==> path[i..][0] != '/';
    NoneLeft(path[i..]);
    r := Some((name, path[i..]));
  }

  lemma {:induction false} KeyCut(e: string, name: string)
    requires '\0' !in e && name == if |e| >= DIRSIZ then e[..DIRSIZ] else e + ['\0']
    ensures Key(name) == Key(e)
  {
    var k := if |e| >= DIRSIZ then DIRSIZ else |e|;
    BoundedAt(e, DIRSIZ, k);
    forall i: nat | i < k ensures name[i] == e[i] != '\0' { assert e[i] in e; }
    BoundedAt(name, DIRSIZ, k);
    assert name[..k] == e[..k];
  }

  lemma {:induction false} SkipOne(path: string, s: nat, i: nat)
    requires s < i <= |path| && (forall j: nat | s <= j < i :: path[j] != '/') && (i < |path| ==> path[i] == '/')
    ensures Elements(path[s..]) == [path[s..i]] + Elements(path[i..])
  {
    ReadFrom(path, "", s, i);
    assert "" + path[s..i] == path[s..i];
    SplitAtSlash(path[i..], path[s..i]);
  }

  /** A path that does not start with a slash has an element unless it is empty. */
  lemma {:induction false} NoneLeft(path: string)
    requires path != "" ==> path[0] != '/'
    ensures Elements(path) == [] <==> path == ""
  {
    if path != "" {
      assert "" + [path[0]] == [path[0]];
      SplitGrows(path[1..], [path[0]]);
    }
  }

  lemma {:induction false} SplitGrows(path: string, cur: string)
    requires cur != ""
    ensures Split(path, cur) != []
    decreases |path|
  {
    if path != "" && path[0] != '/' {
      SplitGrows(path[1..], cur + [path[0]]);
    }
  }
}
