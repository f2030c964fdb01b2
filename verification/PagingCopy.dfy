/** Copying the user part of one page table into another, for `copyuvm` of src/fmt/vm.c. */
module PagingCopy {
  import opened Paging

  /** Page u of table d holds its own frame with the flags and contents page u of table pd had in m0. */
  ghost predicate PageCopy(m0: Memory, pd: nat, m: Memory, d: nat, u: nat)
    requires Tabled(m0, pd) && Tabled(m, d) && u < KERNPAGE
  {
    var w0, w := Lookup(m0, pd, u), Lookup(m, d, u);
    && Present(w0) && Present(w) && Flags(w) == Flags(w0)
    && Addr(w0) in m0 && Addr(w) in m && m[Addr(w)] == m0[Addr(w0)]
  }

  /** Pages 0 .. v - 1 are copied; the parent's table and all frames outside free0 are as in m0. */
  ghost predicate Copying(m0: Memory, free0: seq<nat>, pd: nat, owner0: Owner,
                          m: Memory, free: seq<nat>, d: nat, owner: Owner, v: nat) {
    && Space(m0, free0, pd, owner0) && Space(m, free, d, owner) && v <= KERNPAGE
    && Pool(free, owner) == Elems(free0) && Elsewhere(m0, m, Elems(free0))
    && (forall u | 0 <= u < v :: PageCopy(m0, pd, m, d, u))
    && (forall u | v <= u < KERNPAGE :: !Present(Lookup(m, d, u)))
  }

  /** Nothing the child does shows in the parent. */
  lemma {:induction false} ParentKept(m0: Memory, free0: seq<nat>, pd: nat, owner0: Owner, m: Memory, free: seq<nat>,
                                      owner: Owner)
    requires Space(m0, free0, pd, owner0) && Elsewhere(m0, m, Elems(free0))
    requires FreeOk(m, free, owner) && Elems(free) <= Elems(free0)
    ensures Space(m, free, pd, owner0) && SameLookups(m0, m, pd)
    ensures forall f | f in owner0 :: f in m && m[f] == m0[f]
  {
    forall f | f in owner0 ensures f in m && m[f] == m0[f] {
      assert f !in Elems(free0);
    }
    assert Struct(m, pd, owner0);
    forall u | 0 <= u < ENTRIES * ENTRIES ensures Lookup(m, pd, u) == Lookup(m0, pd, u) {
      if Present(m0[pd][u / ENTRIES]) {
        assert Addr(m0[pd][u / ENTRIES]) in owner0;
      }
    }
    forall i | 0 <= i < |free| ensures free[i] !in owner0 {
      assert free[i] in Elems(free);
    }
  }

  /** The frames of the copy are disjoint from the parent's. */
  lemma {:induction false} CopyDisjoint(m0: Memory, free0: seq<nat>, pd: nat, owner0: Owner,
                                        m: Memory, free: seq<nat>, d: nat, owner: Owner, v: nat)
    requires Copying(m0, free0, pd, owner0, m, free, d, owner, v)
    ensures owner.Keys !! owner0.Keys
  {
    forall f | f in owner ensures f !in owner0 {
      assert f in Elems(free0);
    }
  }

  /** kalloc and memmove: the first free frame holds the contents c. */
  lemma {:induction false} CopyHand(m0: Memory, free0: seq<nat>, pd: nat, owner0: Owner,
                                    m: Memory, free: seq<nat>, d: nat, owner: Owner, v: nat, c: seq<nat>)
    requires Copying(m0, free0, pd, owner0, m, free, d, owner, v) && free != [] && |c| == ENTRIES
    ensures Space(m[free[0] := c], free[1..], d, owner) && SameLookups(m, m[free[0] := c], d)
    ensures free[0] !in Pool(free[1..], owner) && free[0] in Elems(free0) && free[0] % PGSIZE == 0 && free[0] != 0
    ensures Pool(free[1..], owner) + {free[0]} == Elems(free0)
  {
    FillSpace(m, free, d, owner, free[0], c);
    FreeTail(m[free[0] := c], free, owner);
  }

  /** mappages of that frame at page v completes the copy of the page. */
  lemma {:induction false} CopyPage(m0: Memory, free0: seq<nat>, pd: nat, owner0: Owner,
                                    m: Memory, free: seq<nat>, d: nat, owner: Owner, v: nat,
                                    m2: Memory, free2: seq<nat>, owner2: Owner)
    requires Copying(m0, free0, pd, owner0, m, free, d, owner, v) && free != [] && v < KERNPAGE
    requires Present(Lookup(m0, pd, v)) && Addr(Lookup(m0, pd, v)) in m0 && |m0[Addr(Lookup(m0, pd, v))]| == ENTRIES
    requires free[0] % PGSIZE == 0
    requires var m1 := m[free[0] := m0[Addr(Lookup(m0, pd, v))]];
             && Good(m2, free2, d, owner2) && Grew(m1, free[1..], owner, m2, free2, owner2)
             && OneEntry(m1, m2, d, v, Entry(free[0], Flags(Lookup(m0, pd, v))))
    ensures Copying(m0, free0, pd, owner0, m2, free2, d, owner2[free[0] := User(v)], v + 1)
  {
    var w0 := Lookup(m0, pd, v);
    OddFlags(w0);
    CopyWith(m0, free0, pd, owner0, m, free, d, owner, v, m2, free2, owner2, Entry(free[0], Flags(w0)), m0[Addr(w0)]);
  }

  /** Entry w has the flags of page v in m0, and c is what that page contains. */
  ghost predicate Source(m0: Memory, pd: nat, v: nat, w: nat, c: seq<nat>) {
    && Tabled(m0, pd) && v < KERNPAGE && Present(w) && |c| == ENTRIES
    && var w0 := Lookup(m0, pd, v);
       Present(w0) && Flags(w) == Flags(w0) && Addr(w0) in m0 && m0[Addr(w0)] == c
  }

  /** Mapping a frame with the page's contents by any entry with the page's flags. */
  lemma {:induction false} CopyWith(m0: Memory, free0: seq<nat>, pd: nat, owner0: Owner,
                                    m: Memory, free: seq<nat>, d: nat, owner: Owner, v: nat,
                                    m2: Memory, free2: seq<nat>, owner2: Owner, w: nat, c: seq<nat>)
    requires Copying(m0, free0, pd, owner0, m, free, d, owner, v) && free != [] && Addr(w) == free[0]
    requires Source(m0, pd, v, w, c)
    requires Good(m2, free2, d, owner2) && Grew(m[free[0] := c], free[1..], owner, m2, free2, owner2)
    requires OneEntry(m[free[0] := c], m2, d, v, w)
    ensures Copying(m0, free0, pd, owner0, m2, free2, d, owner2[free[0] := User(v)], v + 1)
  {
    hide Struct, Users, Lookup, Present, Addr, Flags, FreeOk, Pool, Mine, Elems, Elsewhere, PageCopy;
    var f, m1, free1 := free[0], m[free[0] := c], free[1..];
    CopyHand(m0, free0, pd, owner0, m, free, d, owner, v, c);
    HandKept(m1, free1, owner, m2, free2, owner2, f);
    AddUser(m1, m2, free2, d, owner, owner2, v, w);
    CopyAccount(m0, free0, m, m1, free1, owner, m2, free2, owner2, f, User(v));
    assert PageCopy(m0, pd, m2, d, v) by { SourceCopied(m0, pd, m1, m2, d, v, w, c); }
    KeepCopies(m0, pd, m, m1, free1, owner, m2, d, v, f, w);
  }

  lemma SourceCopied(m0: Memory, pd: nat, m1: Memory, m2: Memory, d: nat, v: nat, w: nat, c: seq<nat>)
    requires Source(m0, pd, v, w, c) && OneEntry(m1, m2, d, v, w) && Addr(w) in m2 && m2[Addr(w)] == c
    ensures PageCopy(m0, pd, m2, d, v)
  {
    hide Lookup, Present, Addr, Flags;
  }

  /** Growing leaves a frame that is in nobody's hands as it is. */
  lemma {:induction false} HandKept(m1: Memory, free1: seq<nat>, owner: Owner, m2: Memory, free2: seq<nat>,
                                    owner2: Owner, f: nat)
    requires Grew(m1, free1, owner, m2, free2, owner2) && f in m1 && f !in Pool(free1, owner)
    ensures f !in owner && f !in owner2 && f !in free2 && f in m2 && m2[f] == m1[f]
  {
    assert f !in Pool(free2, owner2) && f !in Mine(free1, owner);
    assert f in free2 ==> f in Elems(free2);
  }

  /** The pages copied before stay copies, and those after page v stay absent. */
  lemma {:induction false} KeepCopies(m0: Memory, pd: nat, m: Memory, m1: Memory, free1: seq<nat>, owner: Owner,
                                      m2: Memory, d: nat, v: nat, f: nat, w: nat)
    requires Tabled(m0, pd) && Tabled(m, d) && v < KERNPAGE && SameLookups(m, m1, d) && OneEntry(m1, m2, d, v, w)
    requires forall u | 0 <= u < v :: PageCopy(m0, pd, m, d, u)
    requires forall u | v <= u < KERNPAGE :: !Present(Lookup(m, d, u))
    requires Space(m1, free1, d, owner) && f in m1 && m1 == m[f := m1[f]] && f !in owner
    requires Elsewhere(m1, m2, Mine(free1, owner))
    ensures forall u | 0 <= u < v :: PageCopy(m0, pd, m2, d, u)
    ensures forall u | v < u < KERNPAGE :: !Present(Lookup(m2, d, u))
  {
    hide Space, Lookup, PageCopy, Mine;
    forall u | 0 <= u < v ensures PageCopy(m0, pd, m2, d, u) {
      KeepCopy(m0, pd, m, m1, free1, owner, m2, d, u, f);
    }
  }

  /** Only frames that were free before the copy began are used or changed. */
  lemma {:induction false} CopyAccount(m0: Memory, free0: seq<nat>, m: Memory, m1: Memory, free1: seq<nat>,
                                       owner: Owner, m2: Memory, free2: seq<nat>, owner2: Owner, f: nat, role: Role)
    requires Elsewhere(m0, m, Elems(free0)) && f in m1 && m1 == m[f := m1[f]]
    requires Pool(free1, owner) + {f} == Elems(free0) && Pool(free2, owner2) == Pool(free1, owner)
    requires Elsewhere(m1, m2, Mine(free1, owner))
    ensures Pool(free2, owner2[f := role]) == Elems(free0) && Elsewhere(m0, m2, Elems(free0))
  {
    assert Pool(free2, owner2[f := role]) == Pool(free2, owner2) + {f};
    assert Mine(free1, owner) <= Elems(free0) && f in Elems(free0);
  }

  lemma OddFlags(w: nat)
    requires Present(w)
    ensures Flags(w) % 2 == 1 && Flags(w) + 1 - Flags(w) % 2 == Flags(w)
  {
    var h, q := w / 2, w / PGSIZE;
    assert Flags(w) == 2 * (h - 2048 * q) + 1;
  }

  lemma KeepCopy(m0: Memory, pd: nat, m: Memory, m1: Memory, free1: seq<nat>, owner: Owner, m2: Memory, d: nat,
                 u: nat, f: nat)
    requires Tabled(m0, pd) && Tabled(m, d) && Tabled(m2, d) && u < KERNPAGE && PageCopy(m0, pd, m, d, u)
    requires Space(m1, free1, d, owner) && Lookup(m1, d, u) == Lookup(m, d, u) == Lookup(m2, d, u)
    requires f in m1 && m1 == m[f := m1[f]] && f !in owner
    requires Elsewhere(m1, m2, Mine(free1, owner))
    ensures PageCopy(m0, pd, m2, d, u)
  {
    var g := Addr(Lookup(m, d, u));
    assert owner[g] == User(u);
  }

  lemma CopyFailed(m0: Memory, free0: seq<nat>, m: Memory, m1: Memory, m2: Memory, mine: set<nat>, f: nat)
    requires Elsewhere(m0, m, Elems(free0)) && f in m1 && m1 == m[f := m1[f]] && f in Elems(free0)
    requires Elsewhere(m1, m2, mine) && mine <= Elems(free0)
    ensures Elsewhere(m0, m2, Elems(free0))
  {
  }

  /** A new page table without user pages is the start of a copy. */
  lemma {:induction false} StartCopy(m0: Memory, free0: seq<nat>, pd: nat, owner0: Owner, m: Memory, free: seq<nat>,
                                     d: nat, owner: Owner, data: nat)
    requires Space(m0, free0, pd, owner0) && Space(m, free, d, owner)
    requires Pool(free, owner) == Elems(free0) && Elsewhere(m0, m, Elems(free0))
    requires forall f | f in owner :: !owner[f].User?
    ensures Copying(m0, free0, pd, owner0, m, free, d, owner, 0)
  {
  }
}
