/**
 32-bit two-level page tables (section 4.3 of the Intel SDM, Volume 3A) as src/fmt/vm.c lays them
 out: frames of 1024 words, a directory frame whose present entries name table frames. A page table
 is read as a partial map from virtual page numbers to entries.
 */
module Paging {

  const PGSIZE: nat := 4096
  const ENTRIES: nat := 1024
  const KERNPAGE: nat := 0x80000        // KERNBASE / PGSIZE: the first kernel page
  const PTE_W: nat := 2
  const PTE_U: nat := 4
  const TABLEFLAGS: nat := 7            // of a directory entry: present, writable, user

  type Memory = map<nat, seq<nat>>      // physical frame address to its 1024 words

  predicate Present(w: nat) { w % 2 == 1 }

  function Addr(w: nat): (a: nat)
    ensures a % PGSIZE == 0
  {
    w - w % PGSIZE
  }

  function Flags(w: nat): (perm: nat)
    ensures perm < PGSIZE
  {
    w % PGSIZE
  }

  /** `pa | perm | PTE_P` for a page-aligned pa and perm below PGSIZE: the bits do not overlap. */
  function Entry(pa: nat, perm: nat): (w: nat)
    requires pa % PGSIZE == 0 && perm < PGSIZE
    ensures Present(w) && Addr(w) == pa && Flags(w) == perm + 1 - perm % 2
  {
    pa + perm + 1 - perm % 2
  }

  function RoundUp(a: nat): nat { (a + PGSIZE - 1) / PGSIZE }   // PGROUNDUP(a) / PGSIZE

  predicate Frame(m: Memory, f: nat) { f in m && |m[f]| == ENTRIES }

  /** Every present directory entry names a frame. */
  predicate Tabled(m: Memory, pd: nat) {
    && Frame(m, pd)
    && forall i | 0 <= i < ENTRIES :: Present(m[pd][i]) ==> Frame(m, Addr(m[pd][i]))
  }

  /** The entry for virtual page v, 0 if its table is absent. */
  function Lookup(m: Memory, pd: nat, v: nat): nat
    requires Tabled(m, pd) && v < ENTRIES * ENTRIES
  {
    var e := m[pd][v / ENTRIES];
    if Present(e) then m[Addr(e)][v % ENTRIES] else 0
  }

  /** What a frame serves as within one page table. */
  datatype Role = Dir | Table(i: nat) | User(v: nat)

  type Owner = map<nat, Role>

  /** The directory and table frames are exactly those `owner` gives those roles, each used once. */
  ghost predicate Struct(m: Memory, pd: nat, owner: Owner) {
    && Frame(m, pd) && pd in owner && owner[pd] == Dir
    && (forall f | f in owner :: Frame(m, f))
    && (forall f | f in owner && owner[f].Dir? :: f == pd)
    && (forall f | f in owner && owner[f].Table? ::
          owner[f].i < ENTRIES && Present(m[pd][owner[f].i]) && Addr(m[pd][owner[f].i]) == f)
    && (forall i | 0 <= i < ENTRIES && Present(m[pd][i]) ::
          Addr(m[pd][i]) in owner && owner[Addr(m[pd][i])] == Table(i) && Flags(m[pd][i]) == TABLEFLAGS)
  }

  /** The user frames are exactly those of the present user pages, each mapped once. */
  ghost predicate Users(m: Memory, pd: nat, owner: Owner)
    requires Tabled(m, pd)
  {
    && (forall f | f in owner && owner[f].User? ::
          owner[f].v < KERNPAGE && Present(Lookup(m, pd, owner[f].v)) && Addr(Lookup(m, pd, owner[f].v)) == f)
    && (forall v | 0 <= v < KERNPAGE && Present(Lookup(m, pd, v)) ::
          Addr(Lookup(m, pd, v)) in owner && owner[Addr(Lookup(m, pd, v))] == User(v))
  }

  /** The free list: frames, each once, none of them in use; frame 0 is never handed out. */
  ghost predicate FreeOk(m: Memory, free: seq<nat>, owner: Owner) {
    && 0 !in free && 0 !in owner
    && (forall i | 0 <= i < |free| :: Frame(m, free[i]) && free[i] % PGSIZE == 0 && free[i] !in owner)
    && (forall i, j | 0 <= i < j < |free| :: free[i] != free[j])
  }

  function Elems(s: seq<nat>): set<nat> { set f | f in s }

  function Zeros(): (z: seq<nat>)
    ensures |z| == ENTRIES && forall i | 0 <= i < ENTRIES :: z[i] == 0
  {
    seq(ENTRIES, _ => 0)
  }

  /** walkpgdir with alloc: frame t, zeroed, becomes the table of directory slot i. */
  function AddTable(m: Memory, pd: nat, i: nat, t: nat): Memory
    requires Frame(m, pd) && i < ENTRIES
  {
    m[t := Zeros()][pd := m[pd][i := t + 7]]
  }

  /** `V2P(pgtab) | PTE_P | PTE_W | PTE_U` names the frame. */
  lemma TableWord(t: nat)
    requires t % PGSIZE == 0
    ensures Present(t + 7) && Addr(t + 7) == t && Flags(t + 7) == TABLEFLAGS
  {
    assert Entry(t, PTE_W + PTE_U) == t + 7;
  }

  lemma {:induction false} AddTableStruct(m: Memory, pd: nat, owner: Owner, i: nat, t: nat)
    requires Struct(m, pd, owner) && i < ENTRIES && !Present(m[pd][i])
    requires t !in owner && Frame(m, t) && t % PGSIZE == 0
    ensures Struct(AddTable(m, pd, i, t), pd, owner[t := Table(i)])
  {
    TableWord(t);
    hide Present, Addr;
    var m', owner' := AddTable(m, pd, i, t), owner[t := Table(i)];
    assert m'[pd] == m[pd][i := t + 7] && m'[t] == Zeros();
    forall f | f in owner' ensures Frame(m', f) { assert f in owner || f == t; }
    forall f | f in owner' && owner'[f].Table?
      ensures owner'[f].i < ENTRIES && Present(m'[pd][owner'[f].i]) && Addr(m'[pd][owner'[f].i]) == f
    {
      if f != t { assert owner[f].i != i; }
    }
    forall k | 0 <= k < ENTRIES && Present(m'[pd][k])
      ensures Addr(m'[pd][k]) in owner' && owner'[Addr(m'[pd][k])] == Table(k)
    {
      if k != i { assert m'[pd][k] == m[pd][k]; }
    }
  }

  /** A fresh zeroed table maps nothing: no translation changes. */
  lemma {:induction false} AddTableLookup(m: Memory, pd: nat, owner: Owner, i: nat, t: nat, v: nat)
    requires Struct(m, pd, owner) && i < ENTRIES && !Present(m[pd][i]) && v < ENTRIES * ENTRIES
    requires t !in owner && Frame(m, t) && t % PGSIZE == 0
    ensures Tabled(m, pd) && Tabled(AddTable(m, pd, i, t), pd)
    ensures Lookup(AddTable(m, pd, i, t), pd, v) == Lookup(m, pd, v)
  {
    AddTableStruct(m, pd, owner, i, t);
    TableWord(t);
    StructTabled(m, pd, owner);
    StructTabled(AddTable(m, pd, i, t), pd, owner[t := Table(i)]);
    NoPage(0);
    var m', j := AddTable(m, pd, i, t), v / ENTRIES;
    assert m'[pd] == m[pd][i := t + 7] && m'[t] == Zeros();
    if j != i && Present(m[pd][j]) {
      assert owner[Addr(m[pd][j])] == Table(j);
      hide Struct, Present, Addr, AddTable;
      assert m'[Addr(m[pd][j])] == m[Addr(m[pd][j])];
    } else {
      hide Struct, Addr;
    }
  }

  lemma NoPage(w: nat)
    requires w == 0
    ensures !Present(w)
  {
  }

  lemma StructTabled(m: Memory, pd: nat, owner: Owner)
    requires Struct(m, pd, owner)
    ensures Tabled(m, pd)
  {
    hide Present, Addr;
  }

  /** Storing entry w for page v, whose table is present. */
  function SetEntry(m: Memory, pd: nat, v: nat, w: nat): Memory
    requires Tabled(m, pd) && v < ENTRIES * ENTRIES && Present(m[pd][v / ENTRIES])
  {
    var t := Addr(m[pd][v / ENTRIES]);
    var page: seq<nat> := m[t][v % ENTRIES := w];
    m[t := page]
  }

  lemma {:induction false} SetEntryStruct(m: Memory, pd: nat, owner: Owner, v: nat, w: nat)
    requires Struct(m, pd, owner) && v < ENTRIES * ENTRIES && Present(m[pd][v / ENTRIES])
    ensures Struct(SetEntry(m, pd, v, w), pd, owner)
    ensures SetEntry(m, pd, v, w)[pd] == m[pd]
  {
    var t := Addr(m[pd][v / ENTRIES]);
    assert owner[t] == Table(v / ENTRIES);
  }

  /** Exactly the translation of page v changes. */
  lemma {:induction false} SetEntryLookup(m: Memory, pd: nat, owner: Owner, v: nat, w: nat, u: nat)
    requires Struct(m, pd, owner) && v < ENTRIES * ENTRIES && Present(m[pd][v / ENTRIES])
    requires u < ENTRIES * ENTRIES
    ensures Tabled(SetEntry(m, pd, v, w), pd)
    ensures Lookup(SetEntry(m, pd, v, w), pd, u) == if u == v then w else Lookup(m, pd, u)
  {
    SetEntryStruct(m, pd, owner, v, w);
    var t, s := Addr(m[pd][v / ENTRIES]), Addr(m[pd][u / ENTRIES]);
    assert owner[t] == Table(v / ENTRIES);
    if Present(m[pd][u / ENTRIES]) {
      assert owner[s] == Table(u / ENTRIES);
    }
  }

  // ------------------------------------------------------------ page table plus free list

  /** One page table beside the frames kalloc has left: no frame serves twice. */
  ghost predicate Space(m: Memory, free: seq<nat>, pd: nat, owner: Owner) {
    Struct(m, pd, owner) && Users(m, pd, owner) && FreeOk(m, free, owner)
  }

  /** Every frame that is free or serves the page table. */
  function Pool(free: seq<nat>, owner: Owner): set<nat> { Elems(free) + owner.Keys }

  /** The frames whose contents page table operations may change: all but the mapped user frames. */
  function Mine(free: seq<nat>, owner: Owner): set<nat> {
    Elems(free) + set f | f in owner && !owner[f].User?
  }

  /** Roles are only added, and only to new table frames. */
  ghost predicate Extends(owner: Owner, owner': Owner) {
    && (forall f | f in owner :: f in owner' && owner'[f] == owner[f])
    && (forall f | f in owner' && f !in owner :: owner'[f].Table?)
  }

  /** No frame outside `mine` changed. */
  ghost predicate Elsewhere(m: Memory, m': Memory, mine: set<nat>) {
    forall f | f in m && f !in mine :: f in m' && m'[f] == m[f]
  }

  /** The directory, the tables and the free list are in order. */
  ghost predicate Good(m: Memory, free: seq<nat>, pd: nat, owner: Owner) {
    Struct(m, pd, owner) && FreeOk(m, free, owner)
  }

  /** Only table frames were added, all taken from the free list, and nothing else was touched. */
  ghost predicate Grew(m: Memory, free: seq<nat>, owner: Owner, m': Memory, free': seq<nat>, owner': Owner) {
    && Extends(owner, owner')
    && Pool(free', owner') == Pool(free, owner)
    && Elsewhere(m, m', Mine(free, owner))
  }

  lemma GrewTrans(m: Memory, free: seq<nat>, owner: Owner, m1: Memory, free1: seq<nat>, owner1: Owner,
                  m2: Memory, free2: seq<nat>, owner2: Owner)
    requires Grew(m, free, owner, m1, free1, owner1) && Grew(m1, free1, owner1, m2, free2, owner2)
    requires FreeOk(m1, free1, owner1)
    ensures Grew(m, free, owner, m2, free2, owner2)
  {
    forall f | f in Mine(free1, owner1) ensures f in Mine(free, owner) {
      assert f in Pool(free1, owner1);
      assert f in Elems(free1) ==> f !in owner1;
    }
    forall f | f in owner2 && f !in owner ensures owner2[f].Table? {
      assert f in owner1 ==> owner2[f] == owner1[f];
    }
  }

  ghost predicate SameLookups(m: Memory, m': Memory, pd: nat) {
    && Tabled(m, pd) && Tabled(m', pd)
    && forall v | 0 <= v < ENTRIES * ENTRIES :: Lookup(m', pd, v) == Lookup(m, pd, v)
  }

  lemma {:induction false} AddTableGood(m: Memory, free: seq<nat>, pd: nat, owner: Owner, i: nat)
    requires Good(m, free, pd, owner) && free != [] && i < ENTRIES && !Present(m[pd][i])
    ensures var m', owner' := AddTable(m, pd, i, free[0]), owner[free[0] := Table(i)];
            && Good(m', free[1..], pd, owner') && Grew(m, free, owner, m', free[1..], owner')
            && SameLookups(m, m', pd)
  {
    var t := free[0];
    AddTableStruct(m, pd, owner, i, t);
    forall v | 0 <= v < ENTRIES * ENTRIES ensures Lookup(AddTable(m, pd, i, t), pd, v) == Lookup(m, pd, v) {
      AddTableLookup(m, pd, owner, i, t, v);
    }
    assert free == [t] + free[1..];
  }

  /** m' differs from m in the entry of page v only, which is now w. */
  ghost predicate OneEntry(m: Memory, m': Memory, pd: nat, v: nat, w: nat) {
    && Tabled(m, pd) && Tabled(m', pd)
    && forall u | 0 <= u < ENTRIES * ENTRIES :: Lookup(m', pd, u) == if u == v then w else Lookup(m, pd, u)
  }

  lemma {:induction false} SetEntryGood(m: Memory, free: seq<nat>, pd: nat, owner: Owner, v: nat, w: nat)
    requires Good(m, free, pd, owner) && v < ENTRIES * ENTRIES && Present(m[pd][v / ENTRIES])
    ensures var m' := SetEntry(m, pd, v, w);
            && Good(m', free, pd, owner) && Grew(m, free, owner, m', free, owner) && OneEntry(m, m', pd, v, w)
  {
    SetEntryStruct(m, pd, owner, v, w);
    forall u | 0 <= u < ENTRIES * ENTRIES
      ensures Lookup(SetEntry(m, pd, v, w), pd, u) == if u == v then w else Lookup(m, pd, u)
    {
      SetEntryLookup(m, pd, owner, v, w, u);
    }
  }

  /** More tables and other kernel pages leave the account of user frames as it was. */
  lemma {:induction false} KeepUsers(m: Memory, m': Memory, pd: nat, owner: Owner, owner': Owner)
    requires Struct(m, pd, owner) && Users(m, pd, owner) && Struct(m', pd, owner') && Extends(owner, owner')
    requires forall v | 0 <= v < KERNPAGE :: Lookup(m', pd, v) == Lookup(m, pd, v)
    ensures Users(m', pd, owner')
  {
  }

  /** Mapping frame f, which is in nobody's hands, at the absent user page v. */
  lemma {:induction false} AddUser(m: Memory, m': Memory, free: seq<nat>, pd: nat, owner: Owner, owner': Owner,
                                   v: nat, w: nat)
    requires Struct(m, pd, owner) && Users(m, pd, owner) && Extends(owner, owner')
    requires Struct(m', pd, owner') && FreeOk(m', free, owner')
    requires v < KERNPAGE && !Present(Lookup(m, pd, v)) && Present(w)
    requires forall u | 0 <= u < KERNPAGE :: Lookup(m', pd, u) == if u == v then w else Lookup(m, pd, u)
    requires Addr(w) !in owner' && Addr(w) !in free && Frame(m', Addr(w)) && Addr(w) != 0
    ensures Space(m', free, pd, owner'[Addr(w) := User(v)])
  {
    hide Struct, Users, Lookup, Present, Addr;
    UserStruct(m', pd, owner', Addr(w), v);
    StructTabled(m, pd, owner);
    StructTabled(m', pd, owner');
    UserUsers(m, m', pd, owner, owner', v, w);
  }

  lemma {:induction false} UserUsers(m: Memory, m': Memory, pd: nat, owner: Owner, owner': Owner, v: nat, w: nat)
    requires Tabled(m, pd) && Users(m, pd, owner) && Extends(owner, owner') && Tabled(m', pd)
    requires v < KERNPAGE && !Present(Lookup(m, pd, v)) && Present(w) && Addr(w) !in owner'
    requires forall u | 0 <= u < KERNPAGE :: Lookup(m', pd, u) == if u == v then w else Lookup(m, pd, u)
    ensures Users(m', pd, owner'[Addr(w) := User(v)])
  {
    hide Lookup, Present, Addr, Tabled;
    var f, owner'' := Addr(w), owner'[Addr(w) := User(v)];
    forall g | g in owner'' && owner''[g].User?
      ensures owner''[g].v < KERNPAGE && Present(Lookup(m', pd, owner''[g].v))
              && Addr(Lookup(m', pd, owner''[g].v)) == g
    {
      if g != f { assert g in owner && owner[g] == owner''[g]; }
    }
    forall u | 0 <= u < KERNPAGE && Present(Lookup(m', pd, u))
      ensures Addr(Lookup(m', pd, u)) in owner'' && owner''[Addr(Lookup(m', pd, u))] == User(u)
    {
      if u != v { assert owner[Addr(Lookup(m, pd, u))] == User(u); }
    }
  }

  /** A user frame is no part of the directory and its tables. */
  lemma {:induction false} UserStruct(m: Memory, pd: nat, owner: Owner, f: nat, v: nat)
    requires Struct(m, pd, owner) && f !in owner && Frame(m, f)
    ensures Struct(m, pd, owner[f := User(v)])
  {
    hide Present, Addr;
  }

  /** Changing the contents of a frame that is not a directory or table frame. */
  lemma {:induction false} FillSpace(m: Memory, free: seq<nat>, pd: nat, owner: Owner, f: nat, c: seq<nat>)
    requires Space(m, free, pd, owner) && |c| == ENTRIES
    requires f in owner ==> owner[f].User?
    ensures Space(m[f := c], free, pd, owner)
    ensures forall v | 0 <= v < ENTRIES * ENTRIES :: Lookup(m[f := c], pd, v) == Lookup(m, pd, v)
  {
    var m' := m[f := c];
    assert m'[pd] == m[pd];
    assert forall i | 0 <= i < ENTRIES && Present(m[pd][i]) :: m'[Addr(m[pd][i])] == m[Addr(m[pd][i])];
    assert Struct(m', pd, owner);
    forall v | 0 <= v < ENTRIES * ENTRIES ensures Lookup(m', pd, v) == Lookup(m, pd, v) {
      assert 0 <= v / ENTRIES < ENTRIES;
    }
  }

  /** `owner` without the frames of user pages lo .. hi - 1. */
  function Without(owner: Owner, lo: nat, hi: nat): Owner {
    map f | f in owner && !(owner[f].User? && lo <= owner[f].v < hi) :: owner[f]
  }

  /** User pages lo .. hi - 1 are no longer present in m'; every other entry is as in m. */
  ghost predicate Unmapped(m: Memory, m': Memory, pd: nat, lo: nat, hi: nat) {
    && Tabled(m, pd) && Tabled(m', pd)
    && forall u | 0 <= u < ENTRIES * ENTRIES ::
         Lookup(m', pd, u) == if lo <= u < hi && Present(Lookup(m, pd, u)) then 0 else Lookup(m, pd, u)
  }

  /** kfree of the frame of user page v, then a zero entry: the state after both. */
  function Dropped(m: Memory, pd: nat, v: nat, junk: seq<nat>): Memory
    requires Tabled(m, pd) && v < ENTRIES * ENTRIES && Present(m[pd][v / ENTRIES])
    requires Tabled(m[Addr(Lookup(m, pd, v)) := junk], pd)
    requires m[Addr(Lookup(m, pd, v)) := junk][pd] == m[pd]
  {
    SetEntry(m[Addr(Lookup(m, pd, v)) := junk], pd, v, 0)
  }

  /** Giving back the frame of user page v: it joins the free list once, and only that page goes. */
  lemma {:induction false} DropUser(m: Memory, free: seq<nat>, pd: nat, owner: Owner, v: nat, junk: seq<nat>)
    requires Space(m, free, pd, owner) && v < KERNPAGE && Present(Lookup(m, pd, v)) && |junk| == ENTRIES
    ensures Present(m[pd][v / ENTRIES]) && Tabled(m, pd)
    ensures var f := Addr(Lookup(m, pd, v));
            && Tabled(m[f := junk], pd) && m[f := junk][pd] == m[pd]
            && f in owner && owner[f] == User(v)
            && Space(Dropped(m, pd, v, junk), [f] + free, pd, owner - {f})
            && OneEntry(m, Dropped(m, pd, v, junk), pd, v, 0)
            && Pool([f] + free, owner - {f}) == Pool(free, owner)
            && Elsewhere(m, Dropped(m, pd, v, junk), Mine([f] + free, owner - {f}))
  {
    var f := Addr(Lookup(m, pd, v));
    assert owner[f] == User(v);
    FillSpace(m, free, pd, owner, f, junk);
    var m1 := m[f := junk];
    assert m1[pd] == m[pd];
    SetEntryGood(m1, free, pd, owner, v, 0);
    var m2, owner' := SetEntry(m1, pd, v, 0), owner - {f};
    DropStruct(m1, m2, free, pd, owner, v);
  }

  lemma {:induction false} DropStruct(m1: Memory, m2: Memory, free: seq<nat>, pd: nat, owner: Owner, v: nat)
    requires Space(m1, free, pd, owner) && v < KERNPAGE && Present(Lookup(m1, pd, v))
    requires Good(m2, free, pd, owner) && OneEntry(m1, m2, pd, v, 0)
    ensures var f := Addr(Lookup(m1, pd, v));
            f in owner && Space(m2, [f] + free, pd, owner - {f})
  {
    var f := Addr(Lookup(m1, pd, v));
    assert owner[f] == User(v);
    assert Struct(m2, pd, owner - {f});
    forall u | 0 <= u < KERNPAGE && Present(Lookup(m2, pd, u))
      ensures Addr(Lookup(m2, pd, u)) in owner - {f} && owner[Addr(Lookup(m2, pd, u))] == User(u)
    {
    }
  }

  /** User pages lo .. hi - 1 have been given back, each frame once, and nothing else was touched. */
  ghost predicate Shrunk(m: Memory, free: seq<nat>, owner: Owner, m': Memory, free': seq<nat>, owner': Owner,
                         pd: nat, lo: nat, hi: nat) {
    && Space(m', free', pd, owner') && Unmapped(m, m', pd, lo, hi)
    && owner' == Without(owner, lo, hi) && Pool(free', owner') == Pool(free, owner)
    && Elsewhere(m, m', Mine(free', owner'))
  }

  lemma {:induction false} ShrunkDrop(m: Memory, free: seq<nat>, owner: Owner, m1: Memory, free1: seq<nat>,
                                      owner1: Owner, pd: nat, lo: nat, v: nat, junk: seq<nat>)
    requires Shrunk(m, free, owner, m1, free1, owner1, pd, lo, v)
    requires lo <= v < KERNPAGE && Present(Lookup(m1, pd, v)) && |junk| == ENTRIES
    ensures Present(m1[pd][v / ENTRIES])
    ensures var f := Addr(Lookup(m1, pd, v));
            && Tabled(m1[f := junk], pd) && m1[f := junk][pd] == m1[pd]
            && Shrunk(m, free, owner, Dropped(m1, pd, v, junk), [f] + free1, owner1 - {f}, pd, lo, v + 1)
  {
    hide Struct, Present, Addr, Lookup, Users, FreeOk;
    DropUser(m1, free1, pd, owner1, v, junk);
    var f := Addr(Lookup(m1, pd, v));
    var m2 := Dropped(m1, pd, v, junk);
    hide Dropped;
    UnmappedMore(m, m1, m2, pd, lo, v);
    WithoutMore(m1, free1, pd, owner, owner1, lo, v);
    ElsewhereMore(m, m1, m2, free1, owner1, f);
  }

  lemma {:induction false} UnmappedMore(m: Memory, m1: Memory, m2: Memory, pd: nat, lo: nat, v: nat)
    requires Unmapped(m, m1, pd, lo, v) && OneEntry(m1, m2, pd, v, 0) && lo <= v < KERNPAGE
             && Present(Lookup(m1, pd, v))
    ensures Unmapped(m, m2, pd, lo, v + 1)
  {
    hide Lookup;
  }

  lemma {:induction false} WithoutMore(m1: Memory, free1: seq<nat>, pd: nat, owner: Owner, owner1: Owner, lo: nat,
                                       v: nat)
    requires Space(m1, free1, pd, owner1) && owner1 == Without(owner, lo, v) && lo <= v < KERNPAGE
    requires Present(Lookup(m1, pd, v))
    ensures Addr(Lookup(m1, pd, v)) in owner1 && owner1 - {Addr(Lookup(m1, pd, v))} == Without(owner, lo, v + 1)
  {
    var f := Addr(Lookup(m1, pd, v));
    assert owner1[f] == User(v);
    forall g | g in owner1 && owner1[g] == User(v) ensures g == f { }
    hide Lookup, Struct, Users, FreeOk;
  }

  lemma {:induction false} ElsewhereMore(m: Memory, m1: Memory, m2: Memory, free1: seq<nat>, owner1: Owner, f: nat)
    requires f in owner1 && owner1[f].User? && Elsewhere(m, m1, Mine(free1, owner1))
    requires Elsewhere(m1, m2, Mine([f] + free1, owner1 - {f}))
    ensures Elsewhere(m, m2, Mine([f] + free1, owner1 - {f}))
  {
    forall g | g in Mine(free1, owner1) ensures g in Mine([f] + free1, owner1 - {f}) { }
  }

  lemma {:induction false} ShrunkSkip(m: Memory, free: seq<nat>, owner: Owner, m1: Memory, free1: seq<nat>,
                                      owner1: Owner, pd: nat, lo: nat, v: nat, v': nat)
    requires Shrunk(m, free, owner, m1, free1, owner1, pd, lo, v) && lo <= v <= v' <= KERNPAGE
    requires forall u | v <= u < v' :: !Present(Lookup(m1, pd, u))
    ensures Shrunk(m, free, owner, m1, free1, owner1, pd, lo, v')
  {
    assert Unmapped(m, m1, pd, lo, v');
    assert owner1 == Without(owner, lo, v');
  }

  lemma {:induction false} ShrunkPass(m: Memory, free: seq<nat>, owner: Owner, m1: Memory, free1: seq<nat>,
                                      owner1: Owner, pd: nat, lo: nat, v: nat)
    requires Shrunk(m, free, owner, m1, free1, owner1, pd, lo, v) && lo <= v < KERNPAGE
    requires !Present(Lookup(m1, pd, v))
    ensures Shrunk(m, free, owner, m1, free1, owner1, pd, lo, v + 1)
  {
    forall u | v <= u < v + 1 ensures !Present(Lookup(m1, pd, u)) {
      assert u == v;
    }
    ShrunkSkip(m, free, owner, m1, free1, owner1, pd, lo, v, v + 1);
  }

  // ------------------------------------------------------------ growing the user part

  /** User page u was given a zeroed frame from `free`, writable by the user. */
  ghost predicate NewPage(m': Memory, free: seq<nat>, pd: nat, u: nat)
    requires Tabled(m', pd) && u < ENTRIES * ENTRIES
  {
    var w := Lookup(m', pd, u);
    Present(w) && Flags(w) == PTE_U + PTE_W + 1 && Addr(w) in free && Addr(w) in m' && m'[Addr(w)] == Zeros()
  }

  /** Pages lo .. hi - 1 have been added. `hand` holds frames taken and not yet put anywhere. */
  ghost predicate Grown(m: Memory, free: seq<nat>, owner: Owner, m': Memory, free': seq<nat>, owner': Owner,
                        hand: set<nat>, pd: nat, lo: nat, hi: nat) {
    && Tabled(m, pd) && Space(m', free', pd, owner') && hi <= KERNPAGE
    && Pool(free', owner') !! hand && Pool(free', owner') + hand == Pool(free, owner)
    && hand <= Elems(free)
    && Elsewhere(m, m', Mine(free, owner))
    && (forall u | 0 <= u < ENTRIES * ENTRIES && !(lo <= u < hi) :: Lookup(m', pd, u) == Lookup(m, pd, u))
    && (forall u | lo <= u < hi :: NewPage(m', free, pd, u))
    && NewRoles(owner, owner', lo, hi)
  }

  /** New roles are tables, or the user pages lo .. hi - 1. */
  ghost predicate NewRoles(owner: Owner, owner': Owner, lo: nat, hi: nat) {
    && (forall f | f in owner :: f in owner' && owner'[f] == owner[f])
    && (forall f | f in owner' && f !in owner :: owner'[f].Table? || (owner'[f].User? && lo <= owner'[f].v < hi))
  }

  /** Taking the first frame off the free list. */
  lemma FreeTail(m: Memory, free: seq<nat>, owner: Owner)
    requires FreeOk(m, free, owner) && free != []
    ensures FreeOk(m, free[1..], owner) && free[0] !in Elems(free[1..]) && free[0] !in owner
    ensures Elems(free) == Elems(free[1..]) + {free[0]} && Pool(free, owner) == Pool(free[1..], owner) + {free[0]}
  {
    assert free == [free[0]] + free[1..];
  }

  /** kalloc and memset: the first free frame, zeroed, is in hand. */
  lemma {:induction false} TakeHand(m: Memory, free: seq<nat>, owner: Owner, m1: Memory, free1: seq<nat>, owner1: Owner,
                                    pd: nat, lo: nat, v: nat)
    requires Grown(m, free, owner, m1, free1, owner1, {}, pd, lo, v) && free1 != []
    requires FreeOk(m, free, owner)
    ensures Grown(m, free, owner, m1[free1[0] := Zeros()], free1[1..], owner1, {free1[0]}, pd, lo, v)
    ensures Frame(m1[free1[0] := Zeros()], free1[0]) && free1[0] % PGSIZE == 0
  {
    var f, rest := free1[0], free1[1..];
    FillSpace(m1, free1, pd, owner1, f, Zeros());
    var mz := m1[f := Zeros()];
    FreeTail(mz, free1, owner1);
    HandFromFree(free, owner, free1, owner1, lo, v, f);
    forall u | lo <= u < v ensures NewPage(mz, free, pd, u) {
      assert NewPage(m1, free, pd, u);
    }
  }

  lemma HandFromFree(free: seq<nat>, owner: Owner, free1: seq<nat>, owner1: Owner, lo: nat, v: nat, f: nat)
    requires NewRoles(owner, owner1, lo, v) && Pool(free1, owner1) == Pool(free, owner)
    requires f in free1 && f !in owner1
    ensures f in free && f in Mine(free, owner)
  {
    assert f in Pool(free1, owner1);
  }

  /** mappages that only added tables. */
  lemma {:induction false} GrowTables(m: Memory, free: seq<nat>, owner: Owner, m1: Memory, free1: seq<nat>,
                                      owner1: Owner, m2: Memory, free2: seq<nat>, owner2: Owner,
                                       f: nat, pd: nat, lo: nat, v: nat)
    requires Grown(m, free, owner, m1, free1, owner1, {f}, pd, lo, v) && FreeOk(m, free, owner)
    requires Good(m2, free2, pd, owner2) && Grew(m1, free1, owner1, m2, free2, owner2) && SameLookups(m1, m2, pd)
    ensures Grown(m, free, owner, m2, free2, owner2, {f}, pd, lo, v)
  {
    KeepUsers(m1, m2, pd, owner1, owner2);
    MineShrinks(free, owner, free1, owner1, lo, v, {f});
    forall u | lo <= u < v ensures NewPage(m2, free, pd, u) {
      KeepPage(m1, free1, owner1, m2, free, pd, u);
    }
  }

  /** Operations that grow the tables leave the pages already added alone. */
  lemma KeepPage(m1: Memory, free1: seq<nat>, owner1: Owner, m2: Memory, free: seq<nat>, pd: nat, u: nat)
    requires Tabled(m1, pd) && Tabled(m2, pd) && u < KERNPAGE && NewPage(m1, free, pd, u)
    requires var f := Addr(Lookup(m1, pd, u)); f in owner1 && owner1[f] == User(u) && f !in free1
    requires Elsewhere(m1, m2, Mine(free1, owner1)) && Lookup(m2, pd, u) == Lookup(m1, pd, u)
    ensures NewPage(m2, free, pd, u)
  {
  }

  lemma MineShrinks(free: seq<nat>, owner: Owner, free1: seq<nat>, owner1: Owner, lo: nat, v: nat, hand: set<nat>)
    requires NewRoles(owner, owner1, lo, v) && Pool(free1, owner1) + hand == Pool(free, owner)
    requires forall f | f in free1 :: f !in owner1
    ensures Mine(free1, owner1) <= Mine(free, owner)
  {
    forall f | f in Mine(free1, owner1) ensures f in Mine(free, owner) {
      assert f in Pool(free1, owner1);
    }
  }

  lemma FreshPage(m: Memory, free: seq<nat>, pd: nat, v: nat, f: nat)
    requires Tabled(m, pd) && v < ENTRIES * ENTRIES && f % PGSIZE == 0 && f in free && f in m && m[f] == Zeros()
    requires Lookup(m, pd, v) == Entry(f, PTE_W + PTE_U)
    ensures NewPage(m, free, pd, v)
  {
  }

  /** mappages that mapped the frame in hand at page v. */
  lemma {:induction false} GrowPage(m: Memory, free: seq<nat>, owner: Owner, m1: Memory, free1: seq<nat>, owner1: Owner,
                                    m2: Memory, free2: seq<nat>, owner2: Owner, f: nat, pd: nat, lo: nat, v: nat)
    requires Grown(m, free, owner, m1, free1, owner1, {f}, pd, lo, v) && FreeOk(m, free, owner)
    requires Good(m2, free2, pd, owner2) && Grew(m1, free1, owner1, m2, free2, owner2)
    requires lo <= v < KERNPAGE && f % PGSIZE == 0 && f in m1 && m1[f] == Zeros()
    requires OneEntry(m1, m2, pd, v, Entry(f, PTE_W + PTE_U)) && !Present(Lookup(m1, pd, v))
    ensures Grown(m, free, owner, m2, free2, owner2[f := User(v)], {}, pd, lo, v + 1)
  {
    hide Struct, Lookup, Entry, NewRoles;
    var w, owner3 := Entry(f, PTE_W + PTE_U), owner2[f := User(v)];
    assert f !in Pool(free1, owner1) && f !in Pool(free2, owner2);
    assert m2[f] == m1[f];
    AddUser(m1, m2, free2, pd, owner1, owner2, v, w);
    assert f in Elems(free);
    FreshPage(m2, free, pd, v, f);
    forall u | lo <= u < v + 1 ensures NewPage(m2, free, pd, u) {
      if u != v { KeepPage(m1, free1, owner1, m2, free, pd, u); }
    }
    GrowAccount(m, free, owner, m1, free1, owner1, m2, free2, owner2, f, lo, v);
  }

  /** The frame in hand becomes a user frame: nothing is lost and nothing else is touched. */
  lemma {:induction false} GrowAccount(m: Memory, free: seq<nat>, owner: Owner, m1: Memory, free1: seq<nat>,
                                       owner1: Owner, m2: Memory, free2: seq<nat>, owner2: Owner,
                                        f: nat, lo: nat, v: nat)
    requires Pool(free1, owner1) !! {f} && Pool(free1, owner1) + {f} == Pool(free, owner) && lo <= v
    requires NewRoles(owner, owner1, lo, v) && Elsewhere(m, m1, Mine(free, owner))
    requires Grew(m1, free1, owner1, m2, free2, owner2) && forall g | g in free1 :: g !in owner1
    ensures Pool(free2, owner2[f := User(v)]) == Pool(free, owner)
    ensures NewRoles(owner, owner2[f := User(v)], lo, v + 1) && Elsewhere(m, m2, Mine(free, owner))
  {
    MineShrinks(free, owner, free1, owner1, lo, v, {f});
    assert f !in owner2 by { assert f !in Pool(free2, owner2); }
    assert Pool(free2, owner2[f := User(v)]) == Pool(free2, owner2) + {f};
  }

  /** Every present translation of m is in m' and conversely. */
  ghost predicate SameTranslations(m: Memory, m': Memory, pd: nat) {
    && Tabled(m, pd) && Tabled(m', pd)
    && forall u | 0 <= u < ENTRIES * ENTRIES ::
         Present(Lookup(m, pd, u)) || Present(Lookup(m', pd, u)) ==> Lookup(m', pd, u) == Lookup(m, pd, u)
  }

  /** Giving the added pages back restores every translation; only tables stay behind. */
  lemma {:induction false} RolledBack(m: Memory, free: seq<nat>, owner: Owner, m1: Memory, free1: seq<nat>,
                                      owner1: Owner, m2: Memory, free2: seq<nat>, owner2: Owner,
                                       hand: set<nat>, pd: nat, lo: nat,
                                      v: nat, hi: nat)
    requires Space(m, free, pd, owner) && Grown(m, free, owner, m1, free1, owner1, hand, pd, lo, v)
             && lo <= v <= hi <= KERNPAGE
    requires forall u | lo <= u < hi :: !Present(Lookup(m, pd, u))
    requires Shrunk(m1, free1, owner1, m2, free2, owner2, pd, lo, hi)
    ensures SameTranslations(m, m2, pd) && Extends(owner, owner2)
    ensures Pool(free2, owner2) !! hand && Pool(free2, owner2) + hand == Pool(free, owner)
  {
    forall f | f in owner ensures f in owner2 && owner2[f] == owner[f] {
      assert owner1[f] == owner[f];
    }
  }

  /** kfree of a frame in hand that came from the free list. */
  lemma {:induction false} PutBack(m: Memory, free: seq<nat>, pd: nat, owner: Owner, f: nat, free0: seq<nat>,
                                   junk: seq<nat>)
    requires Space(m, free, pd, owner) && f !in Pool(free, owner) && f % PGSIZE == 0 && f != 0 && |junk| == ENTRIES
    ensures Space(m[f := junk], [f] + free, pd, owner)
    ensures forall v | 0 <= v < ENTRIES * ENTRIES :: Lookup(m[f := junk], pd, v) == Lookup(m, pd, v)
    ensures Pool([f] + free, owner) == Pool(free, owner) + {f}
  {
    FillSpace(m, free, pd, owner, f, junk);
  }

  // ------------------------------------------------------------ taking a page table down

  /** Tables 0 .. i - 1 and all user frames are gone; the rest of the frames are accounted for. */
  ghost predicate TornDown(m: Memory, free: seq<nat>, owner: Owner, m0: Memory, pd: nat, owner0: Owner,
                           pool: set<nat>, i: nat) {
    && Struct(m0, pd, owner0)
    && pd in m && m[pd] == m0[pd] && |m[pd]| == ENTRIES
    && (forall f | f in owner :: f in owner0 && owner[f] == owner0[f] && !owner[f].User?)
    && (forall f | f in owner0 && !owner0[f].User? :: f in owner <==> (owner0[f].Table? ==> i <= owner0[f].i))
    && FreeOk(m, free, owner) && Pool(free, owner) == pool
    && Elsewhere(m0, m, pool)
  }

  /** Freeing the table of directory slot i. */
  lemma {:induction false} TearTable(m: Memory, free: seq<nat>, owner: Owner, m0: Memory, pd: nat, owner0: Owner,
                                     pool: set<nat>, i: nat, junk: seq<nat>)
    requires TornDown(m, free, owner, m0, pd, owner0, pool, i) && i < ENTRIES && |junk| == ENTRIES
    ensures if Present(m[pd][i]) then
              var f := Addr(m[pd][i]);
              TornDown(m[f := junk], [f] + free, owner - {f}, m0, pd, owner0, pool, i + 1)
            else TornDown(m, free, owner, m0, pd, owner0, pool, i + 1)
  {
    hide Present, Addr, Flags;
    if Present(m[pd][i]) {
      var f := Addr(m[pd][i]);
      assert owner0[f] == Table(i) && f in owner;
      assert f in pool;
      TornFree(m, free, owner, f, junk);
    }
  }

  /** A frame in use joins the free list. */
  lemma TornFree(m: Memory, free: seq<nat>, owner: Owner, f: nat, junk: seq<nat>)
    requires FreeOk(m, free, owner) && f in owner && f % PGSIZE == 0 && |junk| == ENTRIES
    ensures FreeOk(m[f := junk], [f] + free, owner - {f}) && Pool([f] + free, owner - {f}) == Pool(free, owner)
  {
  }

  /** With every table gone, freeing the directory returns the last frame. */
  lemma {:induction false} TearDir(m: Memory, free: seq<nat>, owner: Owner, m0: Memory, pd: nat, owner0: Owner,
                                   pool: set<nat>, junk: seq<nat>)
    requires TornDown(m, free, owner, m0, pd, owner0, pool, ENTRIES) && |junk| == ENTRIES && pd % PGSIZE == 0
    ensures Elems([pd] + free) == pool && FreeOk(m[pd := junk], [pd] + free, map[])
            && Elsewhere(m0, m[pd := junk], pool)
  {
    assert pd in owner && pd in pool;
    forall f | f in owner ensures f == pd {
      assert owner0[f].Dir?;
    }
  }

  lemma {:induction false} StartTearing(m: Memory, free: seq<nat>, owner: Owner, pd: nat)
    requires Space(m, free, pd, owner) && forall f | f in owner :: !owner[f].User?
    ensures TornDown(m, free, owner, m, pd, owner, Pool(free, owner), 0)
  {
  }

  lemma ElsewhereTrans(m: Memory, m1: Memory, m2: Memory, small: set<nat>, mine: set<nat>)
    requires Elsewhere(m, m1, small) && Elsewhere(m1, m2, mine) && small <= mine
    ensures Elsewhere(m, m2, mine)
  {
  }
}
