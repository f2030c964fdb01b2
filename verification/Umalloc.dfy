/**
 src/umalloc.c: `free`, `morecore` and `malloc` over headers in memory. An address counts headers
 (the unit of the C pointer arithmetic); 0 is the null pointer. The circular list through `ptr`
 represents an ordered free list, and free and live blocks partition what sbrk has granted.
 */
module Umalloc {
  import opened Common
  import opened FreeLists

  const HEADER: nat := 8         // sizeof(Header)
  const CHUNK: nat := 4096       // least number of units morecore asks for

  /** `nunits`, computed in 32-bit unsigned arithmetic. */
  function UnitsFor(nbytes: nat): (n: nat)
    requires nbytes < U32
    ensures n >= 1
  {
    ((nbytes + HEADER - 1) % U32) / HEADER + 1
  }

  /** The least number of units with room for nbytes after the header, exactly below the wrap-around. */
  lemma UnitsSuffice(nbytes: nat)
    requires nbytes < U32
    ensures (UnitsFor(nbytes) - 1) * HEADER >= nbytes <==> nbytes <= U32 - HEADER
    ensures UnitsFor(nbytes) >= 2 ==> (UnitsFor(nbytes) - 2) * HEADER < nbytes
  {
  }

  function CoreUnits(nunits: nat): (n: nat)
    ensures nunits <= n && CHUNK <= n && (n == nunits || n == CHUNK)
  {
    if nunits < CHUNK then CHUNK else nunits
  }

  /** The units sbrk grants for the byte count it is passed, a 32-bit product. */
  function CoreGranted(nunits: nat): nat { (CoreUnits(nunits) * HEADER) % U32 / HEADER }

  /** The byte count passed to sbrk names the units asked for exactly when it does not wrap. */
  lemma CoreRequestExact(nbytes: nat)
    requires nbytes < U32
    ensures (CoreUnits(UnitsFor(nbytes)) * HEADER) % U32 == CoreUnits(UnitsFor(nbytes)) * HEADER
            <==> UnitsFor(nbytes) < U32 / HEADER
    ensures UnitsFor(nbytes) < U32 / HEADER <==> !(U32 - 2 * HEADER < nbytes <= U32 - HEADER)
    ensures UnitsFor(nbytes) < U32 / HEADER ==> CoreGranted(UnitsFor(nbytes)) == CoreUnits(UnitsFor(nbytes))
    ensures UnitsFor(nbytes) >= U32 / HEADER ==> CoreGranted(UnitsFor(nbytes)) == 0
  {
  }

  /** What malloc needs of both: the sizes it can serve and the request it makes for them. */
  lemma Sizes(nbytes: nat)
    requires nbytes < U32
    ensures nbytes <= U32 - HEADER ==> (UnitsFor(nbytes) - 1) * HEADER >= nbytes
    ensures UnitsFor(nbytes) < U32 / HEADER <==> !(U32 - 2 * HEADER < nbytes <= U32 - HEADER)
    ensures UnitsFor(nbytes) < U32 / HEADER ==> CoreGranted(UnitsFor(nbytes)) == CoreUnits(UnitsFor(nbytes))
  {
    hide UnitsFor, CoreGranted, CoreUnits;
    UnitsSuffice(nbytes);
    CoreRequestExact(nbytes);
  }

  // ------------------------------------------------------------ free and live blocks

  predicate Held(live: map<nat, nat>, u: nat) {
    exists a | a in live :: Blk(a, live[a]).Has(u)
  }

  /** Every granted unit is in exactly one block, free or live. */
  ghost predicate Partition(bs: seq<Blk>, live: map<nat, nat>, granted: set<nat>) {
    && (forall u: nat :: u in granted <==> Covers(bs, u) || Held(live, u))
    && (forall u: nat :: Covers(bs, u) ==> !Held(live, u))
    && (forall a, b | a in live && b in live && a < b :: a + live[a] <= b)
    && (forall a | a in live :: live[a] >= 1)
  }

  function Units(b: Blk): set<nat> { set u | b.at <= u < b.End() && b.Has(u) }

  /** A live block fits in the free list: it overlaps no free block. */
  lemma {:induction false} LiveFits(bs: seq<Blk>, live: map<nat, nat>, granted: set<nat>, a: nat)
    requires Ordered(bs) && Partition(bs, live, granted) && a in live
    ensures Fits(bs, Below(bs, a), Blk(a, live[a]))
  {
    var k, b := Below(bs, a), Blk(a, live[a]);
    BelowSplits(bs, a);
    assert forall u: nat | b.Has(u) :: Held(live, u);
    assert b.Has(a);
    assert !Covers(bs, a) && forall i | 0 <= i < k :: !bs[i].Has(a);
    forall i | k <= i < |bs| ensures b.End() <= bs[i].at {
      var u := bs[i].at;
      assert bs[i].Has(u);
      assert Covers(bs, u);
      assert !b.Has(u);
    }
  }

  lemma {:induction false} FreedPartition(bs: seq<Blk>, live: map<nat, nat>, granted: set<nat>, a: nat)
    requires Ordered(bs) && Partition(bs, live, granted) && a in live
    ensures Below(bs, a) <= |bs|
    ensures Partition(Joined(bs, Below(bs, a), Blk(a, live[a])), live - {a}, granted)
  {
    var k, b := Below(bs, a), Blk(a, live[a]);
    var js, live' := Joined(bs, k, b), live - {a};
    forall u: nat ensures Held(live', u) <==> Held(live, u) && !b.Has(u) {
      if Held(live, u) && !b.Has(u) {
        var c :| c in live && Blk(c, live[c]).Has(u);
        assert c in live' && Blk(c, live'[c]).Has(u);
      }
      if Held(live', u) {
        var c :| c in live' && Blk(c, live'[c]).Has(u);
        assert c in live && Blk(c, live[c]).Has(u);
      }
    }
    forall u: nat ensures Covers(js, u) <==> Covers(bs, u) || b.Has(u) {
      JoinedCovers(bs, k, b, u);
    }
    assert forall u: nat | b.Has(u) :: Held(live, u);
  }

  lemma {:induction false} AddedHeld(live: map<nat, nat>, b: Blk, u: nat)
    requires b.at !in live
    ensures Held(live[b.at := b.len], u) <==> Held(live, u) || b.Has(u)
  {
    var live' := live[b.at := b.len];
    if Held(live, u) {
      var c :| c in live && Blk(c, live[c]).Has(u);
      assert c in live' && Blk(c, live'[c]).Has(u);
    }
    if b.Has(u) { assert b.at in live' && Blk(b.at, live'[b.at]).Has(u); }
    if Held(live', u) {
      var c :| c in live' && Blk(c, live'[c]).Has(u);
      assert c != b.at ==> c in live && Blk(c, live[c]).Has(u);
    }
  }

  /** A block none of whose units is held can join the live blocks. */
  lemma {:induction false} ApartFromLive(live: map<nat, nat>, b: Blk)
    requires b.len >= 1 && forall u: nat | b.Has(u) :: !Held(live, u)
    requires forall a | a in live :: live[a] >= 1
    ensures b.at !in live
    ensures forall a | a in live :: a + live[a] <= b.at || b.End() <= a
  {
    assert b.Has(b.at);
    forall a | a in live ensures a + live[a] <= b.at || b.End() <= a {
      assert Blk(a, live[a]).Has(a);
      assert !b.Has(a) && !Blk(a, live[a]).Has(b.at);
    }
  }

  lemma {:induction false} TakenPartition(bs: seq<Blk>, live: map<nat, nat>, granted: set<nat>, k: nat, n: nat)
    requires Ordered(bs) && Partition(bs, live, granted) && k < |bs| && 1 <= n <= bs[k].len
    ensures var t := Tail(bs, k, n);
            t.at !in live && Partition(Carved(bs, k, n), live[t.at := n], granted)
  {
    var t := Tail(bs, k, n);
    assert forall u: nat | t.Has(u) :: Covers(bs, u) by {
      assert forall u: nat | t.Has(u) :: bs[k].Has(u);
    }
    ApartFromLive(live, t);
    forall u: nat ensures Covers(Carved(bs, k, n), u) <==> Covers(bs, u) && !t.Has(u) {
      CarvedCovers(bs, k, n, u);
    }
    forall u: nat ensures Held(live[t.at := n], u) <==> Held(live, u) || t.Has(u) {
      AddedHeld(live, t, u);
    }
  }

  /** sbrk's region counts as a live block until morecore frees it. */
  lemma {:induction false} GrownPartition(bs: seq<Blk>, live: map<nat, nat>, granted: set<nat>, b: Blk)
    requires Partition(bs, live, granted) && b.len >= 1
    requires forall u: nat | b.Has(u) :: u !in granted
    ensures b.at !in live && Partition(bs, live[b.at := b.len], granted + Units(b))
  {
    ApartFromLive(live, b);
    forall u: nat ensures Held(live[b.at := b.len], u) <==> Held(live, u) || b.Has(u) {
      AddedHeld(live, b, u);
    }
  }

  // ------------------------------------------------------------ the ring in memory

  /** Headers on the ring in address order: `base` first, then the free blocks. */
  function Node(base: nat, bs: seq<Blk>, i: int): nat {
    if 0 < i <= |bs| then bs[i - 1].at else base
  }

  /** Header i of the ring points to header i + 1, and the last one back to `base`. */
  predicate Link(ptr: map<nat, nat>, base: nat, bs: seq<Blk>, i: int) {
    Node(base, bs, i) in ptr && ptr[Node(base, bs, i)] == Node(base, bs, i + 1)
  }

  /** The `ptr` and `size` fields represent the free list `bs`. */
  predicate Rep(ptr: map<nat, nat>, size: map<nat, nat>, base: nat, bs: seq<Blk>) {
    && Ordered(bs)
    && base in size && size[base] == 0
    && (forall i | 0 <= i < |bs| :: base < bs[i].at && bs[i].at in size && size[bs[i].at] == bs[i].len)
    && (forall i | 0 <= i <= |bs| :: Link(ptr, base, bs, i))
  }

  /** The pointer and size updates of `free`, with p the ring header below bp. */
  function FreedPtr(ptr: map<nat, nat>, size: map<nat, nat>, p: nat, bp: nat): map<nat, nat>
    requires p in ptr && p in size && bp in size && ptr[p] in ptr
  {
    var next := ptr[p];
    var above := if bp + size[bp] == next then ptr[next] else next;
    if p + size[p] == bp then ptr[bp := above][p := above] else ptr[bp := above][p := bp]
  }

  function FreedSize(ptr: map<nat, nat>, size: map<nat, nat>, p: nat, bp: nat): map<nat, nat>
    requires p in ptr && p in size && bp in size && ptr[p] in size
  {
    var next := ptr[p];
    var size1 := if bp + size[bp] == next then size[bp := size[bp] + size[next]] else size;
    if p + size[p] == bp then size1[p := size1[p] + size1[bp]] else size1
  }

  /** Ring headers of the merged list: up to position m they stay, past m + 1 they shift. */
  function JoinPoint(bs: seq<Blk>, k: nat, b: Blk): (m: nat) {
    if JoinsDown(bs, k, b) then k - 1 else k
  }

  function JoinShift(bs: seq<Blk>, k: nat, b: Blk): int {
    (if JoinsUp(bs, k, b) then k + 1 else k) - JoinPoint(bs, k, b) - 1
  }

  lemma JoinedNode(base: nat, bs: seq<Blk>, k: nat, b: Blk, i: nat)
    requires k <= |bs| && i <= |Joined(bs, k, b)| + 1
    ensures |Joined(bs, k, b)| + JoinShift(bs, k, b) == |bs|
    ensures Node(base, Joined(bs, k, b), i)
            == if i <= JoinPoint(bs, k, b) then Node(base, bs, i)
               else if i == JoinPoint(bs, k, b) + 1 then (if JoinsDown(bs, k, b) then Node(base, bs, k) else b.at)
               else Node(base, bs, i + JoinShift(bs, k, b))
  {
    var lo, c, hi := Under(bs, k, b), Merged(bs, k, b), Over(bs, k, b);
    var js, m := lo + [c] + hi, JoinPoint(bs, k, b);
    assert |lo| == m && |hi| == |bs| - m - 1 - JoinShift(bs, k, b);
    if 0 < i <= m {
      assert js[i - 1] == bs[i - 1];
    } else if i == m + 1 {
      assert js[m] == c;
    } else if m + 1 < i <= |js| {
      assert js[i - 1] == hi[i - m - 2] == bs[i + JoinShift(bs, k, b) - 1];
    }
  }

  /** On a ring in address order, a header other than the k-th is neither p nor bp. */
  lemma NodeApart(base: nat, bs: seq<Blk>, k: nat, b: Blk, i: nat)
    requires Ordered(bs) && (forall m | 0 <= m < |bs| :: base < bs[m].at)
    requires Fits(bs, k, b) && base < b.at && i <= |bs|
    ensures Node(base, bs, i) != b.at
    ensures i != k ==> Node(base, bs, i) != Node(base, bs, k)
  {
  }

  /** What the tests of `free` find out, and so what it stores. */
  lemma {:induction false} FreedStores(ptr: map<nat, nat>, size: map<nat, nat>, base: nat, bs: seq<Blk>, k: nat, b: Blk)
    requires Rep(ptr, size, base, bs) && Fits(bs, k, b) && base < b.at && b.at in size && size[b.at] == b.len
    ensures var p := Node(base, bs, k);
            var above := Node(base, bs, if JoinsUp(bs, k, b) then k + 2 else k + 1);
            && p in ptr && p in size && ptr[p] in ptr && ptr[p] in size
            && FreedPtr(ptr, size, p, b.at)
               == ptr[b.at := above][p := if JoinsDown(bs, k, b) then above else b.at]
            && (FreedSize(ptr, size, p, b.at)[Merged(bs, k, b).at] == Merged(bs, k, b).len)
            && (forall a | a in size && a != p && a != b.at ::
                  a in FreedSize(ptr, size, p, b.at) && FreedSize(ptr, size, p, b.at)[a] == size[a])
            && (!JoinsDown(bs, k, b) ==> FreedSize(ptr, size, p, b.at)[p] == size[p])
  {
    assert Link(ptr, base, bs, k);
    assert Link(ptr, base, bs, if k < |bs| then k + 1 else 0);
    assert JoinsUp(bs, k, b) <==> b.End() == Node(base, bs, k + 1);
    assert JoinsDown(bs, k, b) <==> Node(base, bs, k) + size[Node(base, bs, k)] == b.at;
  }

  /** The ring pointers `free` leaves, given those it found. */
  predicate Relinked(ptr: map<nat, nat>, ptr': map<nat, nat>, base: nat, bs: seq<Blk>, k: nat, b: Blk) {
    var above := Node(base, bs, if JoinsUp(bs, k, b) then k + 2 else k + 1);
    ptr' == ptr[b.at := above][Node(base, bs, k) := if JoinsDown(bs, k, b) then above else b.at]
  }

  /** Ring header i of the merged list was header j before; free relinked it correctly. */
  lemma {:induction false} FreedLink(ptr: map<nat, nat>, ptr': map<nat, nat>, base: nat, bs: seq<Blk>, k: nat,
                                     b: Blk, i: nat, j: nat)
    requires k <= |bs| && i <= |Joined(bs, k, b)| && Relinked(ptr, ptr', base, bs, k, b)
    requires j == if i <= JoinPoint(bs, k, b) then i else i + JoinShift(bs, k, b)
    requires Link(ptr, base, bs, j)
    requires Node(base, bs, j) != b.at && Node(base, bs, k) != b.at
    requires j != k ==> Node(base, bs, j) != Node(base, bs, k)
    ensures Link(ptr', base, Joined(bs, k, b), i)
  {
    var js := Joined(bs, k, b);
    JoinedNode(base, bs, k, b, i);
    JoinedNode(base, bs, k, b, i + 1);
    var x, y := Node(base, js, i), Node(base, js, i + 1);
    assert x in ptr' && ptr'[x] == y;
  }

  lemma {:induction false} FreedSizes(size: map<nat, nat>, size': map<nat, nat>, base: nat, bs: seq<Blk>, k: nat,
                                      b: Blk, i: nat)
    requires Ordered(bs) && Fits(bs, k, b) && base < b.at && i < |Joined(bs, k, b)|
    requires forall j | 0 <= j < |bs| :: base < bs[j].at && bs[j].at in size && size[bs[j].at] == bs[j].len
    requires Merged(bs, k, b).at in size' && size'[Merged(bs, k, b).at] == Merged(bs, k, b).len
    requires forall a | a in size && a != Node(base, bs, k) && a != b.at :: a in size' && size'[a] == size[a]
    requires !JoinsDown(bs, k, b) && Node(base, bs, k) in size ==>
               Node(base, bs, k) in size' && size'[Node(base, bs, k)] == size[Node(base, bs, k)]
    ensures var c := Joined(bs, k, b)[i]; base < c.at && c.at in size' && size'[c.at] == c.len
  {
    JoinedAt(bs, k, b, i);
    hide Joined, Ordered, Merged;
    if i < JoinPoint(bs, k, b) {
      NodeApart(base, bs, k, b, i + 1);
    } else if i > JoinPoint(bs, k, b) {
      NodeApart(base, bs, k, b, i + JoinShift(bs, k, b) + 1);
    }
  }

  /** Block i of the merged list. */
  lemma JoinedAt(bs: seq<Blk>, k: nat, b: Blk, i: nat)
    requires k <= |bs| && i < |Joined(bs, k, b)|
    ensures |Joined(bs, k, b)| + JoinShift(bs, k, b) == |bs|
    ensures Joined(bs, k, b)[i]
            == if i < JoinPoint(bs, k, b) then bs[i]
               else if i == JoinPoint(bs, k, b) then Merged(bs, k, b) else bs[i + JoinShift(bs, k, b)]
  {
  }

  /** Those updates turn the representation of bs into that of bs with b put back. */
  lemma {:induction false} FreedRep(ptr: map<nat, nat>, size: map<nat, nat>, base: nat, bs: seq<Blk>, k: nat, b: Blk)
    requires Rep(ptr, size, base, bs) && Fits(bs, k, b) && base < b.at && b.at in size && size[b.at] == b.len
    ensures var p := Node(base, bs, k);
            && p in ptr && p in size && ptr[p] in ptr && ptr[p] in size
            && Rep(FreedPtr(ptr, size, p, b.at), FreedSize(ptr, size, p, b.at), base, Joined(bs, k, b))
  {
    var p, js := Node(base, bs, k), Joined(bs, k, b);
    FreedStores(ptr, size, base, bs, k, b);
    var ptr', size' := FreedPtr(ptr, size, p, b.at), FreedSize(ptr, size, p, b.at);
    JoinedOrdered(bs, k, b);
    forall i | 0 <= i <= |js| ensures Link(ptr', base, js, i) {
      JoinedNode(base, bs, k, b, i);
      var j := if i <= JoinPoint(bs, k, b) then i else i + JoinShift(bs, k, b);
      assert Link(ptr, base, bs, j);
      NodeApart(base, bs, k, b, j);
      NodeApart(base, bs, k, b, k);
      FreedLink(ptr, ptr', base, bs, k, b, i, j);
    }
    forall i | 0 <= i < |js| ensures base < js[i].at && js[i].at in size' && size'[js[i].at] == js[i].len {
      FreedSizes(size, size', base, bs, k, b, i);
    }
  }

  /** Unlinking block k takes it off the list. */
  lemma {:induction false} UnlinkedRep(ptr: map<nat, nat>, size: map<nat, nat>, base: nat, bs: seq<Blk>, k: nat)
    requires Rep(ptr, size, base, bs) && k < |bs| && bs[k].len >= 1
    ensures var at := bs[k].at; var prev := Node(base, bs, k);
            && prev in ptr && at in ptr && at in size && Rep(ptr[prev := ptr[at]], size, base, Carved(bs, k, bs[k].len))
  {
    var cs, at := Carved(bs, k, bs[k].len), bs[k].at;
    CarvedOrdered(bs, k, bs[k].len);
    assert Link(ptr, base, bs, k) && Link(ptr, base, bs, k + 1);
    var ptr' := ptr[Node(base, bs, k) := ptr[at]];
    forall i | 0 <= i <= |cs| ensures Link(ptr', base, cs, i) {
      assert Link(ptr, base, bs, if i <= k then i else i + 1);
    }
  }

  /** Shrinking block k in place leaves its header where it was. */
  lemma {:induction false} ShrunkRep(ptr: map<nat, nat>, size: map<nat, nat>, base: nat, bs: seq<Blk>, k: nat, n: nat)
    requires Rep(ptr, size, base, bs) && k < |bs| && 1 <= n < bs[k].len
    ensures var at := bs[k].at; var prev := Node(base, bs, k);
            && prev in ptr && at in ptr && at in size
            && Rep(ptr, size[at := bs[k].len - n][Tail(bs, k, n).at := n], base, Carved(bs, k, n))
  {
    var cs, at := Carved(bs, k, n), bs[k].at;
    CarvedOrdered(bs, k, n);
    assert Link(ptr, base, bs, k) && Link(ptr, base, bs, k + 1);
    assert cs == bs[k := Blk(at, bs[k].len - n)];
    forall i | 0 <= i <= |cs| ensures Link(ptr, base, cs, i) {
      assert Link(ptr, base, bs, i);
    }
  }

  /** Unlinking block k, or shrinking it in place, represents the carved list. */
  lemma {:induction false} CarvedRep(ptr: map<nat, nat>, size: map<nat, nat>, base: nat, bs: seq<Blk>, k: nat, n: nat)
    requires Rep(ptr, size, base, bs) && k < |bs| && 1 <= n <= bs[k].len
    ensures var at := bs[k].at; var prev := Node(base, bs, k);
            && prev in ptr && at in ptr && at in size
            && (if bs[k].len == n then Rep(ptr[prev := ptr[at]], size, base, Carved(bs, k, n))
                else Rep(ptr, size[at := bs[k].len - n][Tail(bs, k, n).at := n], base, Carved(bs, k, n)))
  {
    hide Rep;
    if bs[k].len == n {
      UnlinkedRep(ptr, size, base, bs, k);
    } else {
      ShrunkRep(ptr, size, base, bs, k, n);
    }
  }

  // ------------------------------------------------------------ what holds between calls

  /** All there is to the allocator: its memory, and the blocks the memory stands for. */
  datatype View = View(ptr: map<nat, nat>, size: map<nat, nat>, freep: nat,
                       bs: seq<Blk>, live: map<nat, nat>, granted: set<nat>)

  ghost predicate OnRing(base: nat, bs: seq<Blk>, a: nat) {
    exists i | 0 <= i <= |bs| :: a == Node(base, bs, i)
  }

  ghost predicate Sound(base: nat, v: View) {
    && base > 0
    && Partition(v.bs, v.live, v.granted)
    && (forall u | u in v.granted :: base < u)
    && (forall a | a in v.live :: a in v.size && v.size[a] == v.live[a])
    && (if v.freep == 0 then v.bs == [] && v.live == map[]
        else Rep(v.ptr, v.size, base, v.bs) && OnRing(base, v.bs, v.freep))
  }

  lemma LiveAbove(base: nat, v: View, a: nat)
    requires Sound(base, v) && a in v.live
    ensures 0 < base < a
  {
    assert Blk(a, v.live[a]).Has(a);
    assert Held(v.live, a);
  }

  /** Ring headers are never live blocks. */
  lemma RingNotLive(base: nat, v: View, a: nat, i: nat)
    requires Sound(base, v) && v.freep != 0 && a in v.live && i <= |v.bs|
    ensures Node(base, v.bs, i) != a
  {
    LiveAbove(base, v, a);
    assert Blk(a, v.live[a]).Has(a);
    assert Held(v.live, a) && !Covers(v.bs, a);
    assert forall j | 0 <= j < |v.bs| :: v.bs[j].Has(v.bs[j].at);
  }

  /** `free` of live block bp, with p the header the search loop stops at. */
  function Freed(v: View, p: nat, bp: nat): View
    requires bp in v.live && p in v.ptr && p in v.size && bp in v.size && v.ptr[p] in v.ptr && v.ptr[p] in v.size
  {
    View(FreedPtr(v.ptr, v.size, p, bp), FreedSize(v.ptr, v.size, p, bp), p,
         Joined(v.bs, Below(v.bs, bp), Blk(bp, v.live[bp])), v.live - {bp}, v.granted)
  }

  lemma {:induction false} FreedSound(base: nat, v: View, bp: nat)
    requires Sound(base, v) && v.freep != 0 && bp in v.live
    ensures var p := Node(base, v.bs, Below(v.bs, bp));
            && p in v.ptr && p in v.size && bp in v.size && v.ptr[p] in v.ptr && v.ptr[p] in v.size
            && Sound(base, Freed(v, p, bp)) && p != 0
  {
    var k, b := Below(v.bs, bp), Blk(bp, v.live[bp]);
    var p := Node(base, v.bs, k);
    LiveAbove(base, v, bp);
    LiveFits(v.bs, v.live, v.granted, bp);
    FreedRep(v.ptr, v.size, base, v.bs, k, b);
    FreedPartition(v.bs, v.live, v.granted, bp);
    FreedStores(v.ptr, v.size, base, v.bs, k, b);
    var w := Freed(v, p, bp);
    forall a | a in w.live ensures a in w.size && w.size[a] == w.live[a] {
      RingNotLive(base, v, a, k);
    }
    JoinedNode(base, v.bs, k, b, k);
    assert p == Node(base, w.bs, k);
  }

  /** Free block k and the header before it are where the memory says. */
  lemma TakenAt(base: nat, v: View, k: nat)
    requires Sound(base, v) && v.freep != 0 && k < |v.bs|
    ensures v.bs[k].at in v.ptr && v.bs[k].at in v.size && v.size[v.bs[k].at] == v.bs[k].len
    ensures Partition(v.bs, v.live, v.granted) && Ordered(v.bs)
  {
    assert Link(v.ptr, base, v.bs, k + 1);
  }

  /** `malloc` taking n units from free block k, with `prev` the header before it. */
  function Taken(v: View, prev: nat, k: nat, n: nat): View
    requires k < |v.bs| && n <= v.bs[k].len && v.bs[k].at in v.ptr
  {
    var b := v.bs[k];
    View(if b.len == n then v.ptr[prev := v.ptr[b.at]] else v.ptr,
         if b.len == n then v.size else v.size[b.at := b.len - n][Tail(v.bs, k, n).at := n],
         prev, Carved(v.bs, k, n), v.live[Tail(v.bs, k, n).at := n], v.granted)
  }

  lemma {:induction false} TakenSound(base: nat, v: View, k: nat, n: nat)
    requires Sound(base, v) && v.freep != 0 && k < |v.bs| && 1 <= n <= v.bs[k].len
    ensures v.bs[k].at in v.ptr && Sound(base, Taken(v, Node(base, v.bs, k), k, n))
  {
    var prev, t := Node(base, v.bs, k), Tail(v.bs, k, n);
    CarvedRep(v.ptr, v.size, base, v.bs, k, n);
    TakenPartition(v.bs, v.live, v.granted, k, n);
    var w := Taken(v, prev, k, n);
    forall a | a in w.live ensures a in w.size && w.size[a] == w.live[a] {
      if a != t.at { RingNotLive(base, v, a, k + 1); }
    }
    assert prev == Node(base, w.bs, k);
  }

  /** morecore's new region, its size stored, about to be freed. */
  function Grown(v: View, b: Blk): View {
    v.(size := v.size[b.at := b.len], live := v.live[b.at := b.len], granted := v.granted + Units(b))
  }

  lemma {:induction false} GrownSound(base: nat, v: View, b: Blk)
    requires Sound(base, v) && v.freep != 0 && base < b.at && b.len >= 1
    requires forall u: nat | b.Has(u) :: u !in v.granted
    ensures b.at !in v.live && Sound(base, Grown(v, b))
  {
    GrownPartition(v.bs, v.live, v.granted, b);
    var w := Grown(v, b);
    forall i | 0 <= i < |v.bs| ensures v.bs[i].at != b.at {
      assert v.bs[i].Has(v.bs[i].at);
      assert Covers(v.bs, v.bs[i].at);
      assert b.Has(b.at);
    }
  }

  /** A block joined to the free list is inside one of its blocks, and no longer live. */
  lemma JoinedHolds(v: View, b: Blk, n: nat)
    requires b.at !in v.live && b.len >= n && Below(v.bs, b.at) <= |v.bs|
    ensures var bs := Joined(v.bs, Below(v.bs, b.at), b); exists i | 0 <= i < |bs| :: bs[i].len >= n
    ensures v.live[b.at := b.len] - {b.at} == v.live
  {
    var k := Below(v.bs, b.at);
    assert Joined(v.bs, k, b)[|Under(v.bs, k, b)|] == Merged(v.bs, k, b);
  }

  /** The ring position m steps after position f, on a ring of n + 1 headers. */
  function Turn(n: nat, f: nat, m: nat): (i: nat)
    requires f <= n && m <= n + 1
    ensures i <= n
  {
    if f + m <= n then f + m else f + m - (n + 1)
  }

  /** The m headers after position f are all too small. */
  predicate TooSmall(size: map<nat, nat>, base: nat, bs: seq<Blk>, f: nat, m: nat, n: nat)
    requires f <= |bs| && m <= |bs| + 1
  {
    forall j {:trigger Turn(|bs|, f, j)} | 1 <= j <= m ::
      Node(base, bs, Turn(|bs|, f, j)) in size && size[Node(base, bs, Turn(|bs|, f, j))] < n
  }

  /** Following `ptr` once from position m after f; what `size` says there. */
  lemma RingStep(ptr: map<nat, nat>, size: map<nat, nat>, base: nat, bs: seq<Blk>, f: nat, m: nat)
    requires Rep(ptr, size, base, bs) && f <= |bs| && m <= |bs|
    ensures var here, i := Node(base, bs, Turn(|bs|, f, m)), Turn(|bs|, f, m + 1);
            && here in ptr && ptr[here] == Node(base, bs, i)
            && Node(base, bs, i) in size
            && size[Node(base, bs, i)] == (if i == 0 then 0 else bs[i - 1].len)
            && (i != 0 ==> Node(base, bs, i) == bs[i - 1].at && here == Node(base, bs, i - 1))
            && (Node(base, bs, i) == Node(base, bs, f) <==> m == |bs|)
  {
    assert Link(ptr, base, bs, Turn(|bs|, f, m));
  }

  /** The malloc loop has passed `seen` headers since freep, all too small, and looks at p next. */
  ghost predicate Scanning(ptr: map<nat, nat>, size: map<nat, nat>, base: nat, bs: seq<Blk>,
                           f: nat, seen: nat, n: nat, prevp: nat, p: nat) {
    && Rep(ptr, size, base, bs) && f <= |bs| && seen <= |bs| && TooSmall(size, base, bs, f, seen, n)
    && var i := Turn(|bs|, f, seen + 1);
       && prevp == Node(base, bs, Turn(|bs|, f, seen)) && p == Node(base, bs, i)
       && p in ptr && p in size && size[p] == (if i == 0 then 0 else bs[i - 1].len)
       && (i != 0 ==> p == bs[i - 1].at && prevp == Node(base, bs, i - 1))
       && (p == Node(base, bs, f) <==> seen == |bs|)
  }

  lemma ScanStart(ptr: map<nat, nat>, size: map<nat, nat>, base: nat, bs: seq<Blk>, f: nat, n: nat)
    requires Rep(ptr, size, base, bs) && f <= |bs|
    ensures Node(base, bs, f) in ptr
    ensures Scanning(ptr, size, base, bs, f, 0, n, Node(base, bs, f), ptr[Node(base, bs, f)])
  {
    RingStep(ptr, size, base, bs, f, 0);
    assert Link(ptr, base, bs, Turn(|bs|, f, 1));
  }

  /** A header too small: either the scan goes on with the next one, or the ring is exhausted. */
  lemma {:induction false} ScanNext(ptr: map<nat, nat>, size: map<nat, nat>, base: nat, bs: seq<Blk>,
                                    f: nat, seen: nat, n: nat, prevp: nat, p: nat)
    requires Scanning(ptr, size, base, bs, f, seen, n, prevp, p) && size[p] < n
    ensures if seen == |bs| then forall i | 0 <= i < |bs| :: bs[i].len < n
            else Scanning(ptr, size, base, bs, f, seen + 1, n, p, ptr[p])
  {
    assert TooSmall(size, base, bs, f, seen + 1, n);
    if seen == |bs| {
      WholeRing(ptr, size, base, bs, f, n);
    } else {
      RingStep(ptr, size, base, bs, f, seen + 1);
      assert Link(ptr, base, bs, Turn(|bs|, f, seen + 2));
    }
  }

  /** A header large enough is a free block, and prevp is the header before it. */
  lemma ScanFound(ptr: map<nat, nat>, size: map<nat, nat>, base: nat, bs: seq<Blk>,
                  f: nat, seen: nat, n: nat, prevp: nat, p: nat) returns (k: nat)
    requires Scanning(ptr, size, base, bs, f, seen, n, prevp, p) && size[p] >= n >= 1
    ensures k < |bs| && bs[k].len >= n && p == bs[k].at && prevp == Node(base, bs, k)
    ensures NextFit(base, bs, Node(base, bs, f), k, n)
  {
    k := Turn(|bs|, f, seen + 1) - 1;
    FoundNext(ptr, size, base, bs, f, seen, n, prevp, p, k);
  }

  /** Starting behind ring position f, block j is looked at before block k. */
  predicate Sooner(f: nat, j: nat, k: nat) {
    if f <= k then f <= j < k else f <= j || j < k
  }

  /** Block k is the first behind the header `from` that has n units. */
  ghost predicate NextFit(base: nat, bs: seq<Blk>, from: nat, k: int, n: nat) {
    && 0 <= k < |bs| && bs[k].len >= n
    && exists f | 0 <= f <= |bs| && from == Node(base, bs, f) ::
         forall j: nat | j < |bs| && Sooner(f, j, k) :: bs[j].len < n
  }

  lemma {:induction false} FoundNext(ptr: map<nat, nat>, size: map<nat, nat>, base: nat, bs: seq<Blk>,
                                     f: nat, seen: nat, n: nat, prevp: nat, p: nat, k: nat)
    requires Scanning(ptr, size, base, bs, f, seen, n, prevp, p) && k == Turn(|bs|, f, seen + 1) - 1 && k < |bs|
    requires bs[k].len >= n
    ensures NextFit(base, bs, Node(base, bs, f), k, n)
  {
    forall j: nat | j < |bs| && Sooner(f, j, k) ensures bs[j].len < n {
      var m := if j + 1 > f then j + 1 - f else j + 1 - f + |bs| + 1;
      assert Turn(|bs|, f, m) == j + 1;
      hide Sooner;
    }
    hide Scanning, Turn;
  }

  /** Once around the ring means every free block was looked at. */
  lemma WholeRing(ptr: map<nat, nat>, size: map<nat, nat>, base: nat, bs: seq<Blk>, f: nat, n: nat)
    requires Rep(ptr, size, base, bs) && f <= |bs| && TooSmall(size, base, bs, f, |bs| + 1, n)
    ensures forall i | 0 <= i < |bs| :: bs[i].len < n
  {
    forall i | 0 <= i < |bs| ensures bs[i].len < n {
      var j := if i + 1 > f then i + 1 - f else i + 1 - f + |bs| + 1;
      assert Turn(|bs|, f, j) == i + 1;
    }
  }

  // ------------------------------------------------------------ the allocator

  class Heap {
    const base: nat                  // address of the static header `base`
    var ptr: map<nat, nat>           // s.ptr of the headers in memory
    var size: map<nat, nat>          // s.size of the headers in memory
    var freep: nat
    ghost var bs: seq<Blk>           // the free list the ring represents
    ghost var live: map<nat, nat>    // blocks handed out and not yet freed
    ghost var granted: set<nat>      // units obtained from sbrk

    ghost function Now(): View
      reads this
    {
      View(ptr, size, freep, bs, live, granted)
    }

    ghost predicate Valid()
      reads this
    {
      Sound(base, Now())
    }

    constructor (base: nat)
      requires base > 0
      ensures Valid() && this.base == base && freep == 0 && bs == [] && live == map[] && granted == {}
    {
      this.base := base;
      ptr, size, freep := map[], map[], 0;
      bs, live, granted := [], map[], {};
    }

    /** The search loop of `free`: the ring header after which bp belongs. */
    method FindSlot(bp: nat) returns (p: nat)
      requires Valid() && freep != 0 && bp in live
      ensures p == Node(base, bs, Below(bs, bp))
    {
      ghost var k := Below(bs, bp);
      LiveAbove(base, Now(), bp);
      BelowSplits(bs, bp);
      LiveFits(bs, live, granted, bp);
      p := freep;
      ghost var i :| 0 <= i <= |bs| && p == Node(base, bs, i);
      assert Link(ptr, base, bs, i);
      while !(bp > p && bp < ptr[p])
        invariant 0 <= i <= |bs| && p == Node(base, bs, i) && Link(ptr, base, bs, i)
        decreases if i <= k then k - i else k + |bs| + 1 - i
      {
        if p >= ptr[p] && (bp > p || bp < ptr[p]) {
          break;
        }
        p := ptr[p];
        i := if i == |bs| then 0 else i + 1;
        assert Link(ptr, base, bs, i);
      }
    }

    /** The rest of `free`: coalesce with the upper and the lower neighbour, or link in between. */
    method Coalesce(p: nat, bp: nat)
      requires p in ptr && p in size && bp in size && ptr[p] in ptr && ptr[p] in size && p != bp
      modifies `ptr, `size
      ensures ptr == FreedPtr(old(ptr), old(size), p, bp) && size == FreedSize(old(ptr), old(size), p, bp)
    {
      if bp + size[bp] == ptr[p] {
        size := size[bp := size[bp] + size[ptr[p]]];
        ptr := ptr[bp := ptr[ptr[p]]];
      } else {
        ptr := ptr[bp := ptr[p]];
      }
      if p + size[p] == bp {
        size := size[p := size[p] + size[bp]];
        ptr := ptr[p := ptr[bp]];
      } else {
        ptr := ptr[p := bp];
      }
    }

    /** `free`: the block's units, and no others, become free; the ring stays canonical. */
    method Free(ap: nat)
      requires Valid() && ap >= 1 && (ap - 1) in live
      modifies this
      ensures Valid() && freep != 0
      ensures live == old(live) - {ap - 1} && granted == old(granted)
      ensures bs == Joined(old(bs), Below(old(bs), ap - 1), Blk(ap - 1, old(live)[ap - 1]))
      ensures forall u: nat :: Covers(bs, u) <==> Covers(old(bs), u) || Blk(ap - 1, old(live)[ap - 1]).Has(u)
      ensures freep == Node(base, old(bs), Below(old(bs), ap - 1))
    {
      var bp := ap - 1;
      var p := FindSlot(bp);
      ghost var v := Now();
      FreedSound(base, v, bp);
      RingNotLive(base, v, bp, Below(bs, bp));
      forall u: nat ensures Covers(Freed(v, p, bp).bs, u) <==> Covers(v.bs, u) || Blk(bp, v.live[bp]).Has(u) {
        JoinedCovers(v.bs, Below(v.bs, bp), Blk(bp, v.live[bp]), u);
      }
      Coalesce(p, bp);
      freep := p;
      bs, live := Joined(bs, Below(bs, bp), Blk(bp, live[bp])), live - {bp};
      assert Now() == Freed(v, p, bp);
    }

    /** `morecore`: sbrk's answer is `core`, the address of a fresh region or None. */
    method Morecore(nu: nat, core: Option<nat>) returns (ok: bool)
      requires Valid() && freep != 0 && nu >= 1
      requires core.Some? ==> base < core.value
      requires core.Some? ==> forall u | core.value <= u < core.value + CoreUnits(nu) :: u !in granted
      modifies this
      ensures Valid() && freep != 0 && live == old(live)
      ensures ok <==> core.Some?
      ensures !ok ==> Now() == old(Now())
      ensures ok ==> granted == old(granted) + Units(Blk(core.value, CoreUnits(nu)))
      ensures ok ==> exists i | 0 <= i < |bs| :: bs[i].len >= nu
    {
      hide Sound, Joined, Below, Units;
      var n := if nu < CHUNK then CHUNK else nu;
      if core == None {
        return false;
      }
      var hp := core.value;
      ghost var v, b := Now(), Blk(hp, n);
      GrownSound(base, v, b);
      size := size[hp := n];
      live, granted := live[hp := n], granted + Units(b);
      assert Now() == Grown(v, b);
      Free(hp + 1);
      JoinedHolds(v, b, nu);
      ok := true;
    }

    /** The first statement of `malloc`: an empty ring through `base`. */
    method Start()
      requires Valid()
      modifies this
      ensures Valid() && freep != 0 && bs == old(bs) && live == old(live) && granted == old(granted)
      ensures if old(freep) == 0 then bs == [] else freep == old(freep)
    {
      if freep == 0 {
        ptr, size, freep := ptr[base := base], size[base := 0], base;
        assert Link(ptr, base, bs, 0);
        assert base == Node(base, bs, 0);
      }
    }

    /** Unlink or split the block of header p, which follows header `prevp`. */
    method Take(prevp: nat, p: nat, nunits: nat, ghost k: nat) returns (r: nat)
      requires Valid() && freep != 0 && k < |bs| && 1 <= nunits <= bs[k].len
      requires p == bs[k].at && prevp == Node(base, bs, k)
      modifies this
      ensures Valid() && r == Tail(old(bs), k, nunits).at + 1
      ensures r - 1 !in old(live) && live == old(live)[r - 1 := nunits] && granted == old(granted)
      ensures bs == Carved(old(bs), k, nunits)
      ensures freep == prevp && r - 1 + nunits == old(bs)[k].End()
    {
      hide Sound, Partition, Rep, Ordered, OnRing;
      ghost var v := Now();
      TakenAt(base, v, k);
      TakenSound(base, v, k, nunits);
      TakenPartition(bs, live, granted, k, nunits);
      var q := p;
      if size[p] == nunits {
        ptr := ptr[prevp := ptr[p]];
      } else {
        size := size[p := size[p] - nunits];
        q := q + size[p];
        size := size[q := nunits];
      }
      freep := prevp;
      bs, live := Carved(bs, k, nunits), live[q := nunits];
      assert Now() == Taken(v, prevp, k, nunits);
      r := q + 1;
    }

    /** The `for` loop of `malloc`: the first block behind freep that fits, unless p comes to freep again. */
    method Scan(nunits: nat) returns (found: bool, prevp: nat, p: nat, ghost k: int)
      requires Rep(ptr, size, base, bs) && OnRing(base, bs, freep) && nunits >= 1
      ensures found ==> 0 <= k < |bs| && bs[k].len >= nunits && p == bs[k].at && prevp == Node(base, bs, k)
      ensures !found ==> forall i | 0 <= i < |bs| :: bs[i].len < nunits
      ensures found ==> NextFit(base, bs, freep, k, nunits)
    {
      hide Rep, TooSmall, Turn, Ordered, Node, NextFit;
      ghost var f :| 0 <= f <= |bs| && freep == Node(base, bs, f);
      ghost var seen := 0;
      ScanStart(ptr, size, base, bs, f, nunits);
      prevp := freep;
      p := ptr[prevp];
      while size[p] < nunits
        invariant Scanning(ptr, size, base, bs, f, seen, nunits, prevp, p)
        decreases |bs| - seen
      {
        ScanNext(ptr, size, base, bs, f, seen, nunits, prevp, p);
        if p == freep {
          return false, prevp, p, -1;
        }
        seen := seen + 1;
        prevp := p;
        p := ptr[p];
      }
      found := true;
      k := ScanFound(ptr, size, base, bs, f, seen, nunits, prevp, p);
    }

    /**
     `malloc`: fails only if no free block is large enough and sbrk fails; otherwise the result is a
     fresh live block with room for nbytes. sbrk is asked at most once, only when nothing fits, and the
     loop that goes on after morecore always finds a block. For sizes whose byte count wraps to 0, sbrk
     grants nothing and the code goes on to write a header where it was granted nothing: that outcome,
     in which the model stops, is `wild`.
     */
    method Malloc(nbytes: nat, core: Option<nat>) returns (r: nat, calls: nat, wild: bool)
      requires Valid() && nbytes < U32
      requires core.Some? ==> base < core.value
      requires core.Some? ==> forall u | core.value <= u < core.value + CoreGranted(UnitsFor(nbytes)) :: u !in granted
      modifies this
      ensures Valid() && calls <= 1
      ensures calls == 1 <==> forall i | 0 <= i < |old(bs)| :: old(bs)[i].len < UnitsFor(nbytes)
      ensures wild <==> calls == 1 && core.Some? && U32 - 2 * HEADER < nbytes <= U32 - HEADER
      ensures r == 0 <==> calls == 1 && (core == None || wild)
      ensures r == 0 ==> live == old(live) && granted == old(granted) && bs == old(bs)
      ensures r != 0 ==> r - 1 !in old(live) && live == old(live)[r - 1 := UnitsFor(nbytes)]
      ensures r != 0 ==> granted == if calls == 0 then old(granted)
                                    else old(granted) + Units(Blk(core.value, CoreUnits(UnitsFor(nbytes))))
      ensures r != 0 && nbytes <= U32 - HEADER ==> (live[r - 1] - 1) * HEADER >= nbytes
      ensures calls == 0 ==>
                exists k | NextFit(base, old(bs), old(freep), k, UnitsFor(nbytes)) ::
                  && r - 1 + UnitsFor(nbytes) == old(bs)[k].End() && bs == Carved(old(bs), k, UnitsFor(nbytes))
                  && freep == Node(base, old(bs), k)
    {
      hide Sound, UnitsFor, CoreGranted, CoreUnits, Units, Tail, Carved, Node, NextFit;
      var nunits := UnitsFor(nbytes);
      Sizes(nbytes);
      Start();
      var found, prevp, p;
      ghost var k;
      found, prevp, p, k, calls, wild := Search(nunits, core);
      if !found {
        return 0, calls, wild;
      }
      r := Take(prevp, p, nunits, k);
    }

    /** The loop of `malloc` with its call of morecore: a block that fits and the header before it. */
    method Search(nunits: nat, core: Option<nat>)
      returns (found: bool, prevp: nat, p: nat, ghost k: int, calls: nat, wild: bool)
      requires Valid() && freep != 0 && nunits >= 1
      requires core.Some? ==> base < core.value
      requires core.Some? && nunits < U32 / HEADER ==>
                 forall u | core.value <= u < core.value + CoreUnits(nunits) :: u !in granted
      modifies this
      ensures Valid() && freep != 0 && live == old(live) && calls <= 1
      ensures calls == 1 <==> forall i | 0 <= i < |old(bs)| :: old(bs)[i].len < nunits
      ensures wild <==> calls == 1 && core.Some? && nunits >= U32 / HEADER
      ensures found <==> !(calls == 1 && (core == None || wild))
      ensures found ==> 0 <= k < |bs| && bs[k].len >= nunits && p == bs[k].at && prevp == Node(base, bs, k)
      ensures !found || calls == 0 ==> granted == old(granted) && bs == old(bs)
      ensures found && calls == 1 ==> granted == old(granted) + Units(Blk(core.value, CoreUnits(nunits)))
      ensures calls == 0 ==> freep == old(freep) && NextFit(base, bs, freep, k, nunits)
    {
      hide Sound, CoreUnits, Units, Node, NextFit;
      calls, wild := 0, false;
      found, prevp, p, k := ScanAll(nunits);
      if !found {
        calls := 1;
        wild := core.Some? && nunits >= U32 / HEADER;
        if wild {
          return;
        }
        var ok := Morecore(nunits, core);
        if ok {
          found, prevp, p, k := ScanAll(nunits);
        }
      }
    }

    /** Scan in a heap that is in order. */
    method ScanAll(nunits: nat) returns (found: bool, prevp: nat, p: nat, ghost k: int)
      requires Valid() && freep != 0 && nunits >= 1
      ensures found ==> 0 <= k < |bs| && bs[k].len >= nunits && p == bs[k].at && prevp == Node(base, bs, k)
      ensures !found ==> forall i | 0 <= i < |bs| :: bs[i].len < nunits
      ensures found ==> NextFit(base, bs, freep, k, nunits)
    {
      found, prevp, p, k := Scan(nunits);
    }
  }
}
