/**
 The K&R free list as a value: an address-ordered list of blocks that never touch. Addresses and
 lengths are in units of sizeof(Header). Such a list is the one canonical form of a set of free
 units, so "free" and "malloc" are determined by what they do to that set.
 */
module FreeLists {

  datatype Blk = Blk(at: nat, len: nat) {
    function End(): nat { at + len }
    predicate Has(u: nat) { at <= u < End() }
  }

  /** Address order with a gap between any two blocks, and no empty block. */
  predicate Ordered(bs: seq<Blk>) {
    && (forall i | 0 <= i < |bs| :: bs[i].len >= 1)
    && (forall i, j | 0 <= i < j < |bs| :: bs[i].End() < bs[j].at)
  }

  predicate Covers(bs: seq<Blk>, u: nat) {
    exists i | 0 <= i < |bs| :: bs[i].Has(u)
  }

  /** How many blocks start below address a. */
  function Below(bs: seq<Blk>, a: nat): (k: nat)
    ensures k <= |bs|
  {
    if bs == [] || a <= bs[0].at then 0 else 1 + Below(bs[1..], a)
  }

  lemma {:induction false} BelowSplits(bs: seq<Blk>, a: nat)
    requires Ordered(bs)
    ensures forall i | 0 <= i < Below(bs, a) :: bs[i].at < a
    ensures forall i | Below(bs, a) <= i < |bs| :: a <= bs[i].at
  {
    if bs != [] && bs[0].at < a {
      BelowSplits(bs[1..], a);
      assert forall i | 1 <= i < |bs| :: bs[i] == bs[1..][i - 1];
    }
  }

  /** Block b fits between block k - 1 and block k of the list. */
  predicate Fits(bs: seq<Blk>, k: nat, b: Blk) {
    && k <= |bs| && b.len >= 1
    && (forall i | 0 <= i < k :: bs[i].End() <= b.at)
    && (forall i | k <= i < |bs| :: b.End() <= bs[i].at)
  }

  predicate JoinsUp(bs: seq<Blk>, k: nat, b: Blk) { k < |bs| && b.End() == bs[k].at }

  predicate JoinsDown(bs: seq<Blk>, k: nat, b: Blk) { 0 < k <= |bs| && bs[k - 1].End() == b.at }

  /** The blocks below and above the merged block, when b is put at position k. */
  function Under(bs: seq<Blk>, k: nat, b: Blk): seq<Blk>
    requires k <= |bs|
  {
    if JoinsDown(bs, k, b) then bs[..k - 1] else bs[..k]
  }

  function Over(bs: seq<Blk>, k: nat, b: Blk): seq<Blk>
    requires k <= |bs|
  {
    if JoinsUp(bs, k, b) then bs[k + 1..] else bs[k..]
  }

  /** b merged with each neighbour it touches. */
  function Merged(bs: seq<Blk>, k: nat, b: Blk): Blk
    requires k <= |bs|
  {
    var up, down := JoinsUp(bs, k, b), JoinsDown(bs, k, b);
    Blk(if down then bs[k - 1].at else b.at,
        (if down then bs[k - 1].len else 0) + b.len + (if up then bs[k].len else 0))
  }

  function Joined(bs: seq<Blk>, k: nat, b: Blk): seq<Blk>
    requires k <= |bs|
  {
    Under(bs, k, b) + [Merged(bs, k, b)] + Over(bs, k, b)
  }

  lemma OrderedParts(lo: seq<Blk>, c: Blk, hi: seq<Blk>)
    requires Ordered(lo) && Ordered(hi) && c.len >= 1
    requires forall i | 0 <= i < |lo| :: lo[i].End() < c.at
    requires forall i | 0 <= i < |hi| :: c.End() < hi[i].at
    ensures Ordered(lo + [c] + hi)
  {
  }

  lemma CoversConcat(a: seq<Blk>, b: seq<Blk>, u: nat)
    ensures Covers(a + b, u) <==> Covers(a, u) || Covers(b, u)
  {
    if i :| 0 <= i < |a| && a[i].Has(u) { assert (a + b)[i].Has(u); }
    if i :| 0 <= i < |b| && b[i].Has(u) { assert (a + b)[|a| + i].Has(u); }
    if i :| 0 <= i < |a + b| && (a + b)[i].Has(u) {
      if i < |a| { assert a[i].Has(u); } else { assert b[i - |a|].Has(u); }
    }
  }

  lemma CoversOne(b: Blk, u: nat)
    ensures Covers([b], u) <==> b.Has(u)
  {
    if b.Has(u) { assert [b][0].Has(u); }
  }

  /** Putting a block back keeps the list canonical. */
  lemma {:induction false} JoinedOrdered(bs: seq<Blk>, k: nat, b: Blk)
    requires Ordered(bs) && Fits(bs, k, b)
    ensures Ordered(Joined(bs, k, b))
  {
    OrderedParts(Under(bs, k, b), Merged(bs, k, b), Over(bs, k, b));
  }

  lemma UnderCovers(bs: seq<Blk>, k: nat, b: Blk, u: nat)
    requires k <= |bs|
    ensures Covers(bs[..k], u) <==> Covers(Under(bs, k, b), u) || (JoinsDown(bs, k, b) && bs[k - 1].Has(u))
  {
    if JoinsDown(bs, k, b) {
      assert bs[..k] == bs[..k - 1] + [bs[k - 1]];
      CoversConcat(bs[..k - 1], [bs[k - 1]], u);
      CoversOne(bs[k - 1], u);
    }
  }

  lemma OverCovers(bs: seq<Blk>, k: nat, b: Blk, u: nat)
    requires k <= |bs|
    ensures Covers(bs[k..], u) <==> Covers(Over(bs, k, b), u) || (JoinsUp(bs, k, b) && bs[k].Has(u))
  {
    if JoinsUp(bs, k, b) {
      assert bs[k..] == [bs[k]] + bs[k + 1..];
      CoversConcat([bs[k]], bs[k + 1..], u);
      CoversOne(bs[k], u);
    }
  }

  /** Putting a block back adds exactly its units. */
  lemma {:induction false} JoinedCovers(bs: seq<Blk>, k: nat, b: Blk, u: nat)
    requires k <= |bs|
    ensures Covers(Joined(bs, k, b), u) <==> Covers(bs, u) || b.Has(u)
  {
    var lo, c, hi := Under(bs, k, b), Merged(bs, k, b), Over(bs, k, b);
    CoversConcat(lo + [c], hi, u);
    CoversConcat(lo, [c], u);
    CoversOne(c, u);
    assert bs == bs[..k] + bs[k..];
    CoversConcat(bs[..k], bs[k..], u);
    UnderCovers(bs, k, b, u);
    OverCovers(bs, k, b, u);
  }

  /** The n units malloc hands out come from the tail of block k. */
  function Carved(bs: seq<Blk>, k: nat, n: nat): seq<Blk>
    requires k < |bs| && n <= bs[k].len
  {
    bs[..k] + (if bs[k].len == n then [] else [Blk(bs[k].at, bs[k].len - n)]) + bs[k + 1..]
  }

  function Tail(bs: seq<Blk>, k: nat, n: nat): Blk
    requires k < |bs| && n <= bs[k].len
  {
    Blk(bs[k].End() - n, n)
  }

  lemma CarvedOrdered(bs: seq<Blk>, k: nat, n: nat)
    requires Ordered(bs) && k < |bs| && 1 <= n <= bs[k].len
    ensures Ordered(Carved(bs, k, n))
  {
    if bs[k].len > n {
      OrderedParts(bs[..k], Blk(bs[k].at, bs[k].len - n), bs[k + 1..]);
    }
  }

  /** Handing out units removes exactly those from the free set. */
  lemma {:induction false} CarvedCovers(bs: seq<Blk>, k: nat, n: nat, u: nat)
    requires Ordered(bs) && k < |bs| && 1 <= n <= bs[k].len
    ensures Covers(Carved(bs, k, n), u) <==> Covers(bs, u) && !Tail(bs, k, n).Has(u)
  {
    var rest := if bs[k].len == n then [] else [Blk(bs[k].at, bs[k].len - n)];
    assert bs == bs[..k] + [bs[k]] + bs[k + 1..];
    CoversConcat(bs[..k] + [bs[k]], bs[k + 1..], u);
    CoversConcat(bs[..k], [bs[k]], u);
    CoversOne(bs[k], u);
    CoversConcat(bs[..k] + rest, bs[k + 1..], u);
    CoversConcat(bs[..k], rest, u);
    if rest != [] { CoversOne(rest[0], u); }
    assert forall i | 0 <= i < k :: bs[..k][i] == bs[i];
  }

  /** Canonical form: two ordered lists over the same units are the same list. */
  lemma {:induction false} Canonical(bs: seq<Blk>, cs: seq<Blk>)
    requires Ordered(bs) && Ordered(cs)
    requires forall u: nat :: Covers(bs, u) <==> Covers(cs, u)
    ensures bs == cs
    decreases |bs|
  {
    if bs != [] { FirstBlock(bs, cs); }
    if cs != [] { FirstBlock(cs, bs); }
    if bs != [] && cs != [] {
      var bt, ct := bs[1..], cs[1..];
      forall u: nat ensures Covers(bt, u) <==> Covers(ct, u) {
        TailCovers(bs, u);
        TailCovers(cs, u);
      }
      Canonical(bt, ct);
      assert bs == [bs[0]] + bt && cs == [cs[0]] + ct;
    }
  }

  lemma TailCovers(bs: seq<Blk>, u: nat)
    requires Ordered(bs) && bs != []
    ensures Covers(bs[1..], u) <==> Covers(bs, u) && !bs[0].Has(u)
  {
    var bt := bs[1..];
    if i :| 0 <= i < |bt| && bt[i].Has(u) { assert bs[i + 1].Has(u); }
    if i :| 0 < i < |bs| && bs[i].Has(u) { assert bt[i - 1].Has(u); }
  }

  /** The first block of one list lies inside the first block of the other. */
  lemma {:induction false} FirstBlock(bs: seq<Blk>, cs: seq<Blk>)
    requires Ordered(bs) && Ordered(cs) && bs != []
    requires forall u: nat :: Covers(bs, u) <==> Covers(cs, u)
    ensures cs != [] && cs[0].at <= bs[0].at && bs[0].End() <= cs[0].End()
  {
    var a, z := bs[0].at, bs[0].End();
    assert bs[0].Has(a) && Covers(bs, a) && Covers(cs, a);
    var i :| 0 <= i < |cs| && cs[i].Has(a);
    assert cs[0].Has(cs[0].at) && Covers(cs, cs[0].at) && Covers(bs, cs[0].at);
    var e := cs[0].End();
    assert e < z ==> bs[0].Has(e) && Covers(bs, e) && Covers(cs, e);
  }
}
