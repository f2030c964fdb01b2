/**
 How many blocks a write needs: one for each block of the range the file does not have, and one for the
 indirect block if the range reaches it and it is missing.
 */
module FsCount {
  import opened FsFormat

  /** Which blocks a file has, and whether it has its indirect block. */
  datatype Names = Names(has: seq<bool>, indirect: bool)

  /** Blocks b0 .. b1 - 1 the file does not have. */
  function Absent(has: seq<bool>, b0: nat, b1: nat): nat
    requires b1 <= |has|
    decreases b1 - b0
  {
    if b0 >= b1 then 0 else (if has[b0] then 0 else 1) + Absent(has, b0 + 1, b1)
  }

  /** The block behind the last one that bytes off .. off + n - 1 touch. */
  function BlocksEnd(off: nat, n: nat): nat {
    if n == 0 then off / BSIZE else (off + n - 1) / BSIZE + 1
  }

  lemma BlocksEndFits(off: nat, n: nat)
    requires off + n <= MAXFILE * BSIZE
    ensures off / BSIZE <= BlocksEnd(off, n) <= MAXFILE
  {
  }

  /** Blocks that writing n bytes at off has to allocate. */
  function Lack(ns: Names, off: nat, n: nat): nat {
    if off + n <= MAXFILE * BSIZE && |ns.has| == MAXFILE then
      BlocksEndFits(off, n);
      Absent(ns.has, off / BSIZE, BlocksEnd(off, n))
      + (if n > 0 && BlocksEnd(off, n) > NDIRECT && !ns.indirect then 1 else 0)
    else 0
  }

  /** Blocks b0 .. b1 - 1 are there now, and the indirect block if they reach it; the rest is as before. */
  ghost predicate Filled(ns: Names, ns': Names, b0: nat, b1: nat) {
    && |ns'.has| == |ns.has| == MAXFILE
    && (forall k | 0 <= k < MAXFILE :: ns'.has[k] <==> ns.has[k] || b0 <= k < b1)
    && (ns'.indirect <==> ns.indirect || (b0 < b1 && NDIRECT < b1))
  }

  lemma {:induction false} AbsentSplit(has: seq<bool>, i: nat, k: nat, j: nat)
    requires i <= k <= j <= |has|
    ensures Absent(has, i, j) == Absent(has, i, k) + Absent(has, k, j)
    decreases k - i
  {
    if i < k { AbsentSplit(has, i + 1, k, j); }
  }

  lemma {:induction false} AbsentSame(has: seq<bool>, has': seq<bool>, i: nat, j: nat)
    requires |has'| == |has| && j <= |has| && forall k | i <= k < j :: has'[k] == has[k]
    ensures Absent(has', i, j) == Absent(has, i, j)
    decreases j - i
  {
    if i < j { AbsentSame(has, has', i + 1, j); }
  }

  lemma {:induction false} AbsentNone(has: seq<bool>, i: nat, j: nat)
    requires j <= |has| && forall k | i <= k < j :: has[k]
    ensures Absent(has, i, j) == 0
    decreases j - i
  {
    if i < j { AbsentNone(has, i + 1, j); }
  }

  lemma {:induction false} AbsentBound(has: seq<bool>, i: nat, j: nat)
    requires i <= j <= |has|
    ensures Absent(has, i, j) <= j - i
    decreases j - i
  {
    if i < j { AbsentBound(has, i + 1, j); }
  }

  lemma EndsMeet(off: nat, a: nat, b: nat)
    ensures BlocksEnd(off + a, b) == if b == 0 then (off + a) / BSIZE else BlocksEnd(off, a + b)
    ensures var s := (off + a) / BSIZE;
            && off / BSIZE <= s && s <= BlocksEnd(off + a, b)
            && BlocksEnd(off, a) <= s + 1 && s <= BlocksEnd(off, a)
  {
  }

  /** Two writes in a row need what one write of both needs. */
  lemma {:induction false} LackSplit(ns: Names, ns1: Names, off: nat, a: nat, b: nat)
    requires off + a + b <= MAXFILE * BSIZE && Filled(ns, ns1, off / BSIZE, BlocksEnd(off, a))
    ensures Lack(ns, off, a + b) == Lack(ns, off, a) + Lack(ns1, off + a, b)
  {
    BlocksEndFits(off, a + b);
    BlocksEndFits(off, a);
    BlocksEndFits(off + a, b);
    EndsMeet(off, a, b);
    if b > 0 && a > 0 {
      var s, m, e := (off + a) / BSIZE, BlocksEnd(off, a), BlocksEnd(off, a + b);
      assert m == s || m == s + 1;
      AbsentSplit(ns.has, off / BSIZE, m, e);
      AbsentSame(ns.has, ns1.has, m, e);
      AbsentSplit(ns1.has, s, m, e);
      AbsentNone(ns1.has, s, m);
    } else if b > 0 {
      assert BlocksEnd(off, a) == off / BSIZE;
      AbsentSame(ns.has, ns1.has, off / BSIZE, BlocksEnd(off, b));
    }
    hide Absent;
  }

  lemma {:induction false} FilledJoin(ns: Names, ns1: Names, ns2: Names, off: nat, a: nat, b: nat)
    requires off + a + b <= MAXFILE * BSIZE
    requires Filled(ns, ns1, off / BSIZE, BlocksEnd(off, a))
             && Filled(ns1, ns2, (off + a) / BSIZE, BlocksEnd(off + a, b))
    ensures Filled(ns, ns2, off / BSIZE, BlocksEnd(off, a + b))
  {
    EndsMeet(off, a, b);
  }

  lemma {:induction false} LackGrows(ns: Names, off: nat, a: nat, n: nat)
    requires a <= n && off + n <= MAXFILE * BSIZE
    ensures Lack(ns, off, a) <= Lack(ns, off, n)
  {
    BlocksEndFits(off, n);
    BlocksEndFits(off, a);
    if a > 0 && |ns.has| == MAXFILE { AbsentSplit(ns.has, off / BSIZE, BlocksEnd(off, a), BlocksEnd(off, n)); }
    hide Absent;
  }

  /** A write inside one block needs that block, and the indirect block for it. */
  lemma {:induction false} LackOne(ns: Names, off: nat, m: nat)
    requires |ns.has| == MAXFILE && off + m <= MAXFILE * BSIZE && 1 <= m && off % BSIZE + m <= BSIZE
    ensures BlocksEnd(off, m) == off / BSIZE + 1 <= MAXFILE
    ensures Lack(ns, off, m) == (if ns.has[off / BSIZE] then 0 else 1)
                                + (if off / BSIZE >= NDIRECT && !ns.indirect then 1 else 0)
  {
    assert off == BSIZE * (off / BSIZE) + off % BSIZE;
    assert BlocksEnd(off, m) == off / BSIZE + 1;
    BlocksEndFits(off, m);
    assert Absent(ns.has, off / BSIZE + 1, off / BSIZE + 1) == 0;
  }

  /** How many blocks the bytes off .. off + n - 1 touch. */
  function Touched(off: nat, n: nat): nat { BlocksEnd(off, n) - off / BSIZE }

  /** A write never needs more than a block for each it touches and an indirect block. */
  lemma {:induction false} LackBound(ns: Names, off: nat, n: nat)
    requires off + n <= MAXFILE * BSIZE
    ensures off / BSIZE <= BlocksEnd(off, n) && Lack(ns, off, n) <= Touched(off, n) + 1
  {
    BlocksEndFits(off, n);
    if |ns.has| == MAXFILE { AbsentBound(ns.has, off / BSIZE, BlocksEnd(off, n)); }
  }
}
