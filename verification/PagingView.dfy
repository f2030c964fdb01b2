/**
 User memory as the process reads it, word by word: growing adds zeros, shrinking takes words away, a copy
 reads like the original, and in all of it every other word stays what it was.
 */
module PagingView {
  import opened Common
  import opened Paging
  import opened PagingCopy

  /** Word o of user page v, if the page is mapped. */
  function Load(m: Memory, pd: nat, v: nat, o: nat): Option<nat>
    requires Tabled(m, pd) && v < KERNPAGE && o < ENTRIES
  {
    var w := Lookup(m, pd, v);
    if Present(w) && Frame(m, Addr(w)) then Some(m[Addr(w)][o]) else None
  }

  /** The frame of a mapped user page is the process's own: no page table operation may change it. */
  lemma {:induction false} OwnFrame(m: Memory, free: seq<nat>, pd: nat, owner: Owner, v: nat)
    requires Space(m, free, pd, owner) && Tabled(m, pd) && v < KERNPAGE && Present(Lookup(m, pd, v))
    ensures var f := Addr(Lookup(m, pd, v));
            Frame(m, f) && f in owner && owner[f] == User(v) && f !in Mine(free, owner)
  {
    var f := Addr(Lookup(m, pd, v));
    assert f in owner && owner[f] == User(v);
    forall i | 0 <= i < |free| ensures free[i] != f { assert free[i] !in owner; }
  }

  /** A page whose entry stays and whose frame is left alone reads as before. */
  lemma {:induction false} SameLoad(m: Memory, free: seq<nat>, owner: Owner, m': Memory, pd: nat, v: nat, o: nat)
    requires Space(m, free, pd, owner) && Tabled(m, pd) && Tabled(m', pd) && v < KERNPAGE && o < ENTRIES
    requires Lookup(m', pd, v) == Lookup(m, pd, v) && Elsewhere(m, m', Mine(free, owner))
    ensures Load(m', pd, v, o) == Load(m, pd, v, o)
  {
    hide Space, Lookup, Mine, Tabled;
    if Present(Lookup(m, pd, v)) { OwnFrame(m, free, pd, owner, v); }
  }

  /** allocuvm: the pages it adds read zero, all others as before. */
  lemma {:induction false} GrownLoads(m: Memory, free: seq<nat>, owner: Owner, m': Memory, free': seq<nat>,
                                      owner': Owner, hand: set<nat>, pd: nat, lo: nat, hi: nat, v: nat, o: nat)
    requires Space(m, free, pd, owner) && Grown(m, free, owner, m', free', owner', hand, pd, lo, hi)
    requires v < KERNPAGE && o < ENTRIES
    ensures Tabled(m, pd) && Tabled(m', pd)
    ensures Load(m', pd, v, o) == if lo <= v < hi then Some(0) else Load(m, pd, v, o)
  {
    GrownTabled(m, free, owner, m', free', owner', hand, pd, lo, hi);
    hide Space, Lookup, Mine, Tabled, Load;
    if lo <= v < hi {
      assert NewPage(m', free, pd, v);
      ZeroLoad(m', free, pd, v, o);
    } else {
      SameLoad(m, free, owner, m', pd, v, o);
    }
  }

  lemma GrownTabled(m: Memory, free: seq<nat>, owner: Owner, m': Memory, free': seq<nat>, owner': Owner,
                    hand: set<nat>, pd: nat, lo: nat, hi: nat)
    requires Space(m, free, pd, owner) && Grown(m, free, owner, m', free', owner', hand, pd, lo, hi)
    ensures Tabled(m, pd) && Tabled(m', pd)
  {
    hide Struct, Users, Lookup, FreeOk;
    StructTabled(m, pd, owner);
    StructTabled(m', pd, owner');
  }

  lemma ZeroLoad(m': Memory, free: seq<nat>, pd: nat, v: nat, o: nat)
    requires Tabled(m', pd) && v < KERNPAGE && o < ENTRIES && NewPage(m', free, pd, v)
    ensures Load(m', pd, v, o) == Some(0)
  {
    hide Lookup, Tabled;
  }

  /** deallocuvm: the pages it takes away are gone, all others read as before. */
  lemma {:induction false} ShrunkLoads(m: Memory, free: seq<nat>, owner: Owner, m': Memory, free': seq<nat>,
                                       owner': Owner, pd: nat, lo: nat, hi: nat, v: nat, o: nat)
    requires Space(m, free, pd, owner) && Shrunk(m, free, owner, m', free', owner', pd, lo, hi)
    requires v < KERNPAGE && o < ENTRIES
    ensures Tabled(m, pd) && Tabled(m', pd)
    ensures Load(m', pd, v, o) == if lo <= v < hi then None else Load(m, pd, v, o)
  {
    ShrunkPage(m, free, owner, m', free', owner', pd, lo, hi, v);
    hide Space, Shrunk, Lookup, Tabled;
    if !(lo <= v < hi) && Present(Lookup(m, pd, v)) { OwnFrame(m, free, pd, owner, v); }
  }

  /** What deallocuvm does to one page and its frame. */
  lemma {:induction false} ShrunkPage(m: Memory, free: seq<nat>, owner: Owner, m': Memory, free': seq<nat>,
                                      owner': Owner, pd: nat, lo: nat, hi: nat, v: nat)
    requires Space(m, free, pd, owner) && Shrunk(m, free, owner, m', free', owner', pd, lo, hi) && v < KERNPAGE
    ensures Tabled(m, pd) && Tabled(m', pd)
    ensures lo <= v < hi ==> !Present(Lookup(m', pd, v))
    ensures !(lo <= v < hi) ==> Lookup(m', pd, v) == Lookup(m, pd, v)
    ensures !(lo <= v < hi) && Present(Lookup(m, pd, v)) ==>
              var f := Addr(Lookup(m, pd, v)); f in m && f in m' && m'[f] == m[f]
  {
  }

  /** fork's copy: the child reads what the parent reads, page by page, and the parent what it read before. */
  lemma {:induction false} CopyLoads(m0: Memory, free0: seq<nat>, pd: nat, owner0: Owner,
                                     m: Memory, free: seq<nat>, d: nat, owner: Owner, n: nat, v: nat, o: nat)
    requires Copying(m0, free0, pd, owner0, m, free, d, owner, n) && v < KERNPAGE && o < ENTRIES
    ensures Tabled(m0, pd) && Tabled(m, pd) && Tabled(m, d)
    ensures Load(m, pd, v, o) == Load(m0, pd, v, o)
    ensures Load(m, d, v, o) == if v < n then Load(m0, pd, v, o) else None
  {
    CopyTabled(m0, free0, pd, owner0, m, free, d, owner, n);
    hide Space, Lookup, Tabled, Pool, Elems;
    if Present(Lookup(m0, pd, v)) { OwnFrame(m0, free0, pd, owner0, v); }
    if Present(Lookup(m, d, v)) { OwnFrame(m, free, d, owner, v); }
    if v < n { assert PageCopy(m0, pd, m, d, v); }
  }

  lemma {:induction false} CopyTabled(m0: Memory, free0: seq<nat>, pd: nat, owner0: Owner,
                                      m: Memory, free: seq<nat>, d: nat, owner: Owner, n: nat)
    requires Copying(m0, free0, pd, owner0, m, free, d, owner, n)
    ensures Tabled(m0, pd) && Tabled(m, d) && SameLookups(m0, m, pd)
    ensures forall f | f in owner0 :: f in m && m[f] == m0[f]
  {
    assert Elems(free) <= Pool(free, owner);
    ParentKept(m0, free0, pd, owner0, m, free, owner);
    hide Struct, Users, FreeOk, Lookup;
    StructTabled(m0, pd, owner0);
    StructTabled(m, d, owner);
  }
}
