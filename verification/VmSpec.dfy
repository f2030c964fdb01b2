/**
 What src/fmt/vm.c does to a page table, as values: runs of mappings and what they cost, the kernel's
 mappings, process sizes, and copies.
 */
module VmSpec {
  import opened Common
  import opened Paging
  import opened PagingCopy
  import opened PagingCount

  datatype MapResult = Mapped | NoMemory | Remap

  const EXTMEM: nat := 0x10_0000
  const PHYSTOP: nat := 0xE00_0000
  const DEVSPACE: nat := 0xFE00_0000
  const KERNBASE: nat := 0x8000_0000

  function PDX(va: nat): nat { (va / 0x40_0000) % ENTRIES }

  function PTX(va: nat): nat { (va / PGSIZE) % ENTRIES }

  /** kfree fills the page with ones in every byte. */
  function Junk(): (j: seq<nat>)
    ensures |j| == ENTRIES
  {
    seq(ENTRIES, _ => 0x0101_0101)
  }

  /** How many pages the bytes va .. va + size - 1 touch. */
  function PageCount(va: nat, size: nat): int {
    (va + size - 1) / PGSIZE - va / PGSIZE + 1
  }

  /** Pages v0 .. v0 + k - 1 map consecutive frames from pa in m'; nothing else changed. */
  ghost predicate RunMapped(m: Memory, m': Memory, pd: nat, v0: nat, k: nat, pa: nat, perm: nat)
    requires perm < PGSIZE && pa % PGSIZE == 0
  {
    && Tabled(m, pd) && Tabled(m', pd) && v0 + k <= ENTRIES * ENTRIES
    && (forall v | 0 <= v < ENTRIES * ENTRIES ::
          Lookup(m', pd, v) == if v0 <= v < v0 + k then Entry(FrameOf(pa, v - v0), perm) else Lookup(m, pd, v))
  }

  ghost predicate Absent(m: Memory, pd: nat, v0: nat, v1: nat) {
    Tabled(m, pd) && v1 <= ENTRIES * ENTRIES && forall v | v0 <= v < v1 :: !Present(Lookup(m, pd, v))
  }

  /** After growth to newsz the pages above it are still absent; after shrinking those between are too. */
  lemma AbsentAbove(m: Memory, m': Memory, pd: nat, oldsz: nat, newsz: nat)
    requires Absent(m, pd, RoundUp(oldsz), KERNPAGE) && oldsz <= newsz < KERNBASE && Tabled(m', pd)
    requires forall u | RoundUp(newsz) <= u < KERNPAGE :: Lookup(m', pd, u) == Lookup(m, pd, u)
    ensures Absent(m', pd, RoundUp(newsz), KERNPAGE)
  {
  }

  lemma AbsentBelow(m: Memory, m': Memory, pd: nat, oldsz: nat, newsz: nat)
    requires Absent(m, pd, RoundUp(oldsz), KERNPAGE) && newsz < oldsz < KERNBASE
    requires Unmapped(m, m', pd, RoundUp(newsz), RoundUp(oldsz))
    ensures Absent(m', pd, RoundUp(newsz), KERNPAGE)
  {
  }

  function FrameOf(pa: nat, k: nat): (f: nat)
    ensures pa % PGSIZE == 0 ==> f % PGSIZE == 0
  {
    pa + k * PGSIZE
  }

  lemma RunStep(m: Memory, m1: Memory, m2: Memory, pd: nat, v0: nat, k: nat, pa: nat, perm: nat)
    requires perm < PGSIZE && pa % PGSIZE == 0 && RunMapped(m, m1, pd, v0, k, pa, perm)
    requires v0 + k < ENTRIES * ENTRIES && OneEntry(m1, m2, pd, v0 + k, Entry(FrameOf(pa, k), perm))
    ensures RunMapped(m, m2, pd, v0, k + 1, pa, perm)
  {
  }

  /** A run of page mappings: the state it began in, its first page, the first frame. */
  datatype Run = Run(m: Memory, free: seq<nat>, owner: Owner, v0: nat, pa: nat) {
    /** The run has mapped k pages, all absent before, and is now in the given state. */
    ghost predicate Reached(m': Memory, free': seq<nat>, owner': Owner, pd: nat, k: nat, perm: nat) {
      && perm < PGSIZE && pa % PGSIZE == 0 && v0 + k <= ENTRIES * ENTRIES && Absent(m, pd, v0, v0 + k)
      && Good(m', free', pd, owner') && Grew(m, free, owner, m', free', owner')
      && RunMapped(m, m', pd, v0, k, pa, perm)
      && Paid(m[pd], |free|, m'[pd], |free'|, v0 / ENTRIES, TablesEnd(v0, k))
    }
  }

  /** walkpgdir found table i, frame t, or made it from the free list; no translation changed. */
  ghost predicate TableAt(m: Memory, free: seq<nat>, owner: Owner, m': Memory, free': seq<nat>, owner': Owner,
                          pd: nat, i: nat, t: nat) {
    && Frame(m, pd) && Frame(m', pd) && i < ENTRIES
    && Good(m', free', pd, owner') && Grew(m, free, owner, m', free', owner') && SameLookups(m, m', pd)
    && Present(m'[pd][i]) && t == Addr(m'[pd][i]) && Paid(m[pd], |free|, m'[pd], |free'|, i, i + 1)
  }

  lemma {:induction false} FoundTable(m: Memory, free: seq<nat>, owner: Owner, pd: nat, i: nat)
    requires Good(m, free, pd, owner) && i < ENTRIES && Present(m[pd][i])
    ensures TableAt(m, free, owner, m, free, owner, pd, i, Addr(m[pd][i]))
  {
    GoodTabled(m, free, pd, owner);
    NothingPaid(m[pd], |free|, i);
    hide Good, Grew, Paid;
  }

  lemma {:induction false} MadeTable(m: Memory, free: seq<nat>, owner: Owner, pd: nat, i: nat)
    requires Good(m, free, pd, owner) && i < ENTRIES && !Present(m[pd][i]) && free != []
    ensures TableAt(m, free, owner, AddTable(m, pd, i, free[0]), free[1..], owner[free[0] := Table(i)], pd, i, free[0])
  {
    GoodTabled(m, free, pd, owner);
    AddTableGood(m, free, pd, owner, i);
    OnePaid(m[pd], |free|, i, free[0]);
    hide Good, Grew, Paid;
  }

  lemma TableCost(m: Memory, free: seq<nat>, owner: Owner, m': Memory, free': seq<nat>, owner': Owner, pd: nat,
                  i: nat, t: nat)
    requires TableAt(m, free, owner, m', free', owner', pd, i, t)
    ensures Missing(m[pd], i, i + 1) <= |free|
  {
  }

  /** There is no table i, and none may or can be made. */
  ghost predicate NoTable(m: Memory, free: seq<nat>, pd: nat, i: nat, alloc: bool) {
    Frame(m, pd) && i < ENTRIES && !Present(m[pd][i]) && (!alloc || free == [])
  }

  lemma GoodTabled(m: Memory, free: seq<nat>, pd: nat, owner: Owner)
    requires Good(m, free, pd, owner)
    ensures Tabled(m, pd) && Grew(m, free, owner, m, free, owner) && SameLookups(m, m, pd)
    ensures free != [] ==> Frame(m, free[0]) && free[0] != pd && free[0] % PGSIZE == 0
  {
  }

  lemma GoodFree(m: Memory, free: seq<nat>, pd: nat, owner: Owner)
    requires Good(m, free, pd, owner)
    ensures FreeOk(m, free, owner)
  {
  }

  lemma SetEntryDir(m: Memory, free: seq<nat>, pd: nat, owner: Owner, v: nat, w: nat)
    requires Good(m, free, pd, owner) && v < ENTRIES * ENTRIES && Present(m[pd][v / ENTRIES])
    ensures Tabled(m, pd) && SetEntry(m, pd, v, w)[pd] == m[pd]
  {
    SetEntryStruct(m, pd, owner, v, w);
  }

  lemma OneMissing(dir: seq<nat>, i: nat)
    requires i < |dir|
    ensures Missing(dir, i, i + 1) == if Present(dir[i]) then 0 else 1
  {
    assert Missing(dir, i + 1, i + 1) == 0;
  }

  /** A table that is there costs nothing. */
  lemma NothingPaid(dir: seq<nat>, free: nat, i: nat)
    requires i < |dir| && Present(dir[i])
    ensures Paid(dir, free, dir, free, i, i + 1)
  {
    OneMissing(dir, i);
  }

  /** A missing one costs a frame. */
  lemma OnePaid(dir: seq<nat>, free: nat, i: nat, t: nat)
    requires i < |dir| && !Present(dir[i]) && free >= 1 && t % PGSIZE == 0
    ensures Paid(dir, free, dir[i := t + 7], free - 1, i, i + 1)
  {
    OneMissing(dir, i);
    assert Present(t + 7);
  }

  /** Page v was mapped, and its table made if it was missing. */
  ghost predicate MappedOne(m: Memory, free: seq<nat>, owner: Owner, m': Memory, free': seq<nat>, owner': Owner,
                            pd: nat, v: nat, w: nat) {
    && Frame(m, pd) && Frame(m', pd) && Good(m', free', pd, owner') && Grew(m, free, owner, m', free', owner')
    && OneEntry(m, m', pd, v, w) && Paid(m[pd], |free|, m'[pd], |free'|, v / ENTRIES, v / ENTRIES + 1)
  }

  /** The table is there; the entry is stored. */
  lemma {:induction false} Stored(m0: Memory, free0: seq<nat>, owner0: Owner, m: Memory, free: seq<nat>, owner: Owner,
                                  pd: nat, v: nat, w: nat)
    requires Good(m, free, pd, owner) && Grew(m0, free0, owner0, m, free, owner) && SameLookups(m0, m, pd)
    requires v < ENTRIES * ENTRIES && Present(m[pd][v / ENTRIES])
    requires Paid(m0[pd], |free0|, m[pd], |free|, v / ENTRIES, v / ENTRIES + 1)
    ensures MappedOne(m0, free0, owner0, SetEntry(m, pd, v, w), free, owner, pd, v, w)
  {
    SetEntryGood(m, free, pd, owner, v, w);
    SetEntryDir(m, free, pd, owner, v, w);
    GoodFree(m, free, pd, owner);
    var m' := SetEntry(m, pd, v, w);
    hide Good, Grew, Paid, Lookup, SetEntry;
    GrewTrans(m0, free0, owner0, m, free, owner, m', free, owner);
  }

  lemma RunStart(run: Run, pd: nat, perm: nat)
    requires Good(run.m, run.free, pd, run.owner) && perm < PGSIZE && run.pa % PGSIZE == 0
             && run.v0 <= ENTRIES * ENTRIES
    ensures run.Reached(run.m, run.free, run.owner, pd, 0, perm)
  {
  }

  lemma {:induction false} ReachedParts(run: Run, m: Memory, free: seq<nat>, owner: Owner, pd: nat, k: nat, perm: nat)
    requires run.Reached(m, free, owner, pd, k, perm)
    ensures perm < PGSIZE && run.pa % PGSIZE == 0 && Good(m, free, pd, owner) && Tabled(m, pd) && Tabled(run.m, pd)
    ensures run.v0 + k < ENTRIES * ENTRIES ==> Lookup(m, pd, run.v0 + k) == Lookup(run.m, pd, run.v0 + k)
  {
    hide Good, Grew, Paid;
  }

  lemma {:induction false} ReachedNext(run: Run, m: Memory, free: seq<nat>, owner: Owner,
                                       m': Memory, free': seq<nat>, owner': Owner, pd: nat, k: nat, perm: nat)
    requires run.Reached(m, free, owner, pd, k, perm) && run.v0 + k < ENTRIES * ENTRIES && perm < PGSIZE
             && run.pa % PGSIZE == 0
    requires Tabled(run.m, pd) && !Present(Lookup(run.m, pd, run.v0 + k))
    requires MappedOne(m, free, owner, m', free', owner', pd, run.v0 + k, Entry(FrameOf(run.pa, k), perm))
    ensures run.Reached(m', free', owner', pd, k + 1, perm)
  {
    hide Good, Grew, Paid, Lookup, TablesEnd;
    GoodFree(m, free, pd, owner);
    GrewTrans(run.m, run.free, run.owner, m, free, owner, m', free', owner');
    RunStep(run.m, m, m', pd, run.v0, k, run.pa, perm);
    PaidNext(run.m[pd], |run.free|, m[pd], |free|, m'[pd], |free'|, run.v0, k);
  }

  /** Page k of the run is present already, or its table is missing and there is no frame. */
  ghost predicate Stuck(run: Run, m: Memory, free: seq<nat>, pd: nat, k: nat, r: MapResult) {
    && Tabled(run.m, pd) && Frame(m, pd) && run.v0 + k < ENTRIES * ENTRIES && (r == NoMemory || r == Remap)
    && (r == Remap <==> Present(Lookup(run.m, pd, run.v0 + k)))
    && (r == NoMemory ==> var i := (run.v0 + k) / ENTRIES; |free| < Missing(m[pd], i, i + 1))
  }

  /** What mappages owes for a run of n pages: `done` of them are mapped, and why not more. */
  ghost predicate Outcome(run: Run, m: Memory, free: seq<nat>, owner: Owner, pd: nat, done: nat, perm: nat, n: int,
                          r: MapResult) {
    && run.Reached(m, free, owner, pd, done, perm) && done <= n && run.v0 + n <= ENTRIES * ENTRIES
    && TablesEnd(run.v0, n) <= |run.m[pd]|
    && (r == Mapped <==> done == n)
    && (r == Remap <==> done < n && Present(Lookup(run.m, pd, run.v0 + done)))
    && (r == Mapped <==>
          && Absent(run.m, pd, run.v0, run.v0 + n)
          && Missing(run.m[pd], run.v0 / ENTRIES, TablesEnd(run.v0, n)) <= |run.free|)
  }

  lemma {:induction false} RunDone(run: Run, m: Memory, free: seq<nat>, owner: Owner, pd: nat, n: nat, perm: nat)
    requires run.Reached(m, free, owner, pd, n, perm)
    ensures Outcome(run, m, free, owner, pd, n, perm, n, Mapped)
  {
    NeedFits(run.v0, run.v0 + n);
    hide Good, Grew, Missing;
  }

  /** A run that stopped early met a present page, or needs more tables than there are frames. */
  lemma {:induction false} RunStopped(run: Run, m: Memory, free: seq<nat>, owner: Owner, pd: nat, k: nat, perm: nat,
                                      n: nat, r: MapResult)
    requires run.Reached(m, free, owner, pd, k, perm) && k < n && run.v0 + n <= ENTRIES * ENTRIES
    requires Stuck(run, m, free, pd, k, r)
    ensures Outcome(run, m, free, owner, pd, k, perm, n, r)
  {
    hide Good, Grew, Missing;
    NeedFits(run.v0, run.v0 + n);
    if r == NoMemory {
      PaidMore(run.m[pd], m[pd], run.v0, k);
      TablesEndGrows(run.v0, k + 1, n);
      MissingGrows(run.m[pd], run.v0 / ENTRIES, TablesEnd(run.v0, k + 1), TablesEnd(run.v0, n));
    }
  }

  /** A run of one absent page. */
  lemma {:induction false} OnePage(run: Run, m: Memory, free: seq<nat>, owner: Owner, pd: nat, done: nat, perm: nat,
                                   r: MapResult)
    requires Outcome(run, m, free, owner, pd, done, perm, 1, r) && perm < PGSIZE && run.pa % PGSIZE == 0
    requires run.v0 < ENTRIES * ENTRIES && Tabled(run.m, pd) && !Present(Lookup(run.m, pd, run.v0))
    ensures var i := run.v0 / ENTRIES; r == Mapped <==> Missing(run.m[pd], i, i + 1) <= |run.free|
    ensures r == Mapped ==> MappedOne(run.m, run.free, run.owner, m, free, owner, pd, run.v0, Entry(run.pa, perm))
    ensures r != Mapped ==> Good(m, free, pd, owner) && Grew(run.m, run.free, run.owner, m, free, owner)
                            && SameLookups(run.m, m, pd)
  {
    hide Good, Grew, Missing, Lookup;
    assert FrameOf(run.pa, 0) == run.pa;
    assert TablesEnd(run.v0, 1) == run.v0 / ENTRIES + 1;
  }

  /** The first page after those the table of page v serves. */
  function TableEnd(v: nat): (e: nat)
    ensures v < e
  {
    (v / ENTRIES + 1) * ENTRIES
  }

  /** Where deallocuvm jumps when page v has no table: to the next table, over absent pages only. */
  lemma NextTable(m: Memory, pd: nat, a: nat, v: nat)
    requires Tabled(m, pd) && a == v * PGSIZE && v < ENTRIES * ENTRIES && !Present(m[pd][v / ENTRIES])
    ensures (PDX(a) + 1) * 0x40_0000 == TableEnd(v) * PGSIZE && TableEnd(v) <= ENTRIES * ENTRIES
    ensures forall u | v <= u < TableEnd(v) :: !Present(Lookup(m, pd, u))
  {
    assert a / PGSIZE == v && PDX(a) == v / ENTRIES;
    assert forall u | v <= u < TableEnd(v) :: u / ENTRIES == v / ENTRIES;
  }

  // ------------------------------------------------------------ the kernel part

  /** struct kmap */
  datatype KernelRange = KernelRange(virt: nat, start: nat, end: nat, perm: nat)

  function Kmap(data: nat): seq<KernelRange>
    requires data >= KERNBASE
  {
    [KernelRange(KERNBASE, 0, EXTMEM, PTE_W),
     KernelRange(KERNBASE + EXTMEM, EXTMEM, data - KERNBASE, 0),
     KernelRange(data, data - KERNBASE, PHYSTOP, PTE_W),
     KernelRange(DEVSPACE, DEVSPACE, 0, PTE_W)]
  }

  /** The first page of kernel range k; past the last one, the end of the address space. */
  function KmapBound(data: nat, k: nat): nat {
    if k == 0 then KERNPAGE else if k == 1 then (KERNBASE + EXTMEM) / PGSIZE else if k == 2 then data / PGSIZE
    else if k == 3 then DEVSPACE / PGSIZE else ENTRIES * ENTRIES
  }

  /** The mapping every process shares: physical memory above KERNBASE, devices mapped direct. */
  function KernelEntry(data: nat, v: nat): nat {
    if KERNPAGE <= v < KERNPAGE + PHYSTOP / PGSIZE then
      Entry((v - KERNPAGE) * PGSIZE, if (KERNBASE + EXTMEM) / PGSIZE <= v < data / PGSIZE then 0 else PTE_W)
    else if DEVSPACE / PGSIZE <= v then Entry(v * PGSIZE, PTE_W)
    else 0
  }

  ghost predicate KernelUpTo(m: Memory, pd: nat, data: nat, bound: nat) {
    && Tabled(m, pd)
    && forall v | 0 <= v < ENTRIES * ENTRIES :: Lookup(m, pd, v) == if v < bound then KernelEntry(data, v) else 0
  }

  /** A page table with the kernel mappings and no user page. */
  ghost predicate KernelOnly(m: Memory, free: seq<nat>, pd: nat, owner: Owner, data: nat) {
    && Space(m, free, pd, owner) && KernelUpTo(m, pd, data, ENTRIES * ENTRIES)
    && forall f | f in owner :: !owner[f].User?
  }

  lemma EmptyDir(m: Memory, free: seq<nat>, pd: nat, data: nat)
    requires pd in m && m[pd] == Zeros() && FreeOk(m, free, map[]) && pd !in free && pd != 0
    ensures Good(m, free, pd, map[pd := Dir])
    ensures KernelUpTo(m, pd, data, KERNPAGE) && KernelDir(m[pd], data, 0)
  {
  }

  lemma NothingChanged(m: Memory, mine: set<nat>)
    ensures Elsewhere(m, m, mine)
  {
  }

  /** The first free frame, zeroed, is a directory without tables. */
  lemma {:induction false} KernelStart(m: Memory, free: seq<nat>, data: nat)
    requires FreeOk(m, free, map[]) && free != []
    ensures var pd := free[0]; var m' := m[pd := Zeros()];
            && Good(m', free[1..], pd, map[pd := Dir]) && pd % PGSIZE == 0
            && KernelUpTo(m', pd, data, KERNPAGE) && KernelDir(m'[pd], data, 0)
            && Pool(free[1..], map[pd := Dir]) == Elems(free) && Elsewhere(m, m', Elems(free))
  {
    var pd := free[0];
    assert free == [pd] + free[1..];
    EmptyDir(m[pd := Zeros()], free[1..], pd, data);
    hide KernelUpTo, KernelDir;
  }

  /** Growing from frames of the free list uses, and changes, only those. */
  lemma {:induction false} KernelReached(m: Memory, fr: seq<nat>, m0: Memory, free0: seq<nat>, owner0: Owner,
                                         m': Memory, free': seq<nat>, owner': Owner)
    requires Elsewhere(m, m0, Elems(fr)) && Pool(free0, owner0) == Elems(fr)
    requires Grew(m0, free0, owner0, m', free', owner')
    ensures Elsewhere(m, m', Elems(fr)) && Pool(free', owner') == Elems(fr) && Extends(owner0, owner')
  {
    assert Mine(free0, owner0) <= Elems(fr);
  }

  /** Kernel range k covers exactly the pages from its bound; the sizes are 32-bit differences. */
  lemma KmapPages(data: nat, k: nat)
    requires k < 4 && data % PGSIZE == 0 && KERNBASE + EXTMEM < data < KERNBASE + PHYSTOP
    ensures var e := Kmap(data)[k]; var size := (e.end + U32 - e.start) % U32;
            && size >= 1 && e.virt + size <= U32 && e.start % PGSIZE == 0 && e.perm < PGSIZE
            && e.virt / PGSIZE == KmapBound(data, k)
            && e.virt / PGSIZE + PageCount(e.virt, size)
               == if k == 2 then KERNPAGE + PHYSTOP / PGSIZE else KmapBound(data, k + 1)
  {
  }

  lemma KernelAbsent(m: Memory, pd: nat, data: nat, k: nat)
    requires k < 4 && data % PGSIZE == 0 && KERNBASE + EXTMEM < data < KERNBASE + PHYSTOP
    requires KernelUpTo(m, pd, data, KmapBound(data, k))
    ensures var e := Kmap(data)[k]; var size := (e.end + U32 - e.start) % U32;
            PageCount(e.virt, size) >= 0 && Absent(m, pd, e.virt / PGSIZE, e.virt / PGSIZE + PageCount(e.virt, size))
  {
    KmapPages(data, k);
  }

  lemma KernelDone(m: Memory, free: seq<nat>, pd: nat, owner: Owner, owner0: Owner, data: nat)
    requires Good(m, free, pd, owner) && Extends(owner0, owner) && owner0 == map[pd := Dir]
    requires KernelUpTo(m, pd, data, ENTRIES * ENTRIES)
    ensures KernelOnly(m, free, pd, owner, data) && Absent(m, pd, 0, KERNPAGE)
  {
    assert forall f | f in owner :: !owner[f].User?;
    forall v | 0 <= v < KERNPAGE ensures !Present(Lookup(m, pd, v)) {
      assert KernelEntry(data, v) == 0;
    }
  }

  /** Kernel range k maps each of its pages to the frame and with the rights every process sees there. */
  lemma {:induction false} KernelPage(data: nat, k: nat, v: nat)
    requires k < 4 && data % PGSIZE == 0 && KERNBASE + EXTMEM < data < KERNBASE + PHYSTOP
    requires KmapBound(data, k) <= v < KmapBound(data, k + 1)
    ensures var e := Kmap(data)[k]; var v0 := e.virt / PGSIZE; var size := (e.end + U32 - e.start) % U32;
            && e.start % PGSIZE == 0 && e.perm < PGSIZE && v0 <= v
            && KernelEntry(data, v)
               == if v < v0 + PageCount(e.virt, size) then Entry(FrameOf(e.start, v - v0), e.perm) else 0
  {
    KmapPages(data, k);
    hide PageCount, Entry;
  }

  lemma KernelStep(m: Memory, m': Memory, pd: nat, data: nat, k: nat)
    requires k < 4 && data % PGSIZE == 0 && KERNBASE + EXTMEM < data < KERNBASE + PHYSTOP
    requires KernelUpTo(m, pd, data, KmapBound(data, k))
    requires var e := Kmap(data)[k]; var size := (e.end + U32 - e.start) % U32;
             e.start % PGSIZE == 0 && e.perm < PGSIZE && PageCount(e.virt, size) >= 0 &&
             RunMapped(m, m', pd, e.virt / PGSIZE, PageCount(e.virt, size), e.start, e.perm)
    ensures KernelUpTo(m', pd, data, KmapBound(data, k + 1))
  {
    KmapPages(data, k);
    hide Lookup, KernelEntry, PageCount, Entry, FrameOf;
    forall v | 0 <= v < ENTRIES * ENTRIES
      ensures Lookup(m', pd, v) == if v < KmapBound(data, k + 1) then KernelEntry(data, v) else 0
    {
      if KmapBound(data, k) <= v < KmapBound(data, k + 1) { KernelPage(data, k, v); }
    }
  }

  lemma {:induction false} SameSpace(m: Memory, free: seq<nat>, pd: nat, owner: Owner)
    requires Space(m, free, pd, owner)
    ensures SameTranslations(m, m, pd) && Extends(owner, owner) && pd in m
  {
  }

  lemma {:induction false} StartGrown(m: Memory, free: seq<nat>, owner: Owner, pd: nat, lo: nat)
    requires Space(m, free, pd, owner) && lo <= KERNPAGE
    ensures Grown(m, free, owner, m, free, owner, {}, pd, lo, lo) && pd in m
  {
  }

  /** What the loop of allocuvm knows before page v. */
  lemma {:induction false} GrownAt(m: Memory, free: seq<nat>, owner: Owner, m': Memory, free': seq<nat>, owner': Owner,
                                   pd: nat, lo: nat, v: nat, hi: nat)
    requires Grown(m, free, owner, m', free', owner', {}, pd, lo, v) && Absent(m, pd, lo, hi) && lo <= v < hi
    ensures Frame(m', pd) && Tabled(m, pd) && v < ENTRIES * ENTRIES && !Present(Lookup(m, pd, v))
  {
  }

  lemma {:induction false} GrownEnd(m: Memory, free: seq<nat>, owner: Owner, m': Memory, free': seq<nat>, owner': Owner,
                                    pd: nat, lo: nat, v: nat, hi: nat)
    requires Grown(m, free, owner, m', free', owner', {}, pd, lo, v) && lo <= v && (v == hi || (hi <= lo && v == lo))
    ensures Grown(m, free, owner, m', free', owner', {}, pd, lo, hi)
  {
  }

  /** Need for page numbers in range. */
  function NeedPages(dir: seq<nat>, lo: nat, hi: nat): nat {
    if |dir| == ENTRIES && lo <= KERNPAGE && hi <= KERNPAGE then (NeedFits(lo, hi); Need(dir, lo, hi)) else 0
  }

  lemma {:induction false} NeedPagesNext(dir: seq<nat>, dir': seq<nat>, n: nat, n': nat, v: nat, hi: nat, ok: bool)
    requires |dir| == ENTRIES && v < hi <= KERNPAGE
    requires ok <==> 1 + Missing(dir, v / ENTRIES, v / ENTRIES + 1) <= n
    requires ok ==> Paid(dir, n - 1, dir', n', v / ENTRIES, v / ENTRIES + 1)
    ensures ok ==> n - NeedPages(dir, v, hi) == n' - NeedPages(dir', v + 1, hi)
    ensures !ok ==> n < NeedPages(dir, v, hi)
  {
    if ok {
      NeedNext(dir, dir', v, hi);
    } else {
      var all := seq(ENTRIES, k requires 0 <= k < ENTRIES => if k == v / ENTRIES then 1 else dir[k]);
      NeedNext(dir, all, v, hi);
    }
    hide Missing, Need;
  }

  lemma NeedPagesNone(dir: seq<nat>, v: nat, hi: nat)
    requires hi <= v
    ensures NeedPages(dir, v, hi) == 0
  {
  }

  // ------------------------------------------------------------ the tables of the kernel part

  const KERNTABLES: nat := 64           // page tables of the kernel part

  /** The page behind the last one that rows 0 .. k - 1 of kmap map below the devices. */
  function KmapEnd(data: nat, k: nat): nat {
    if k < 3 then KmapBound(data, k) else KERNPAGE + PHYSTOP / PGSIZE
  }

  function CeilTable(v: nat): nat { (v + ENTRIES - 1) / ENTRIES }

  /** The tables present once rows 0 .. k - 1 are mapped. */
  ghost predicate KernelDir(dir: seq<nat>, data: nat, k: nat) {
    && |dir| == ENTRIES
    && forall j | 0 <= j < ENTRIES ::
         Present(dir[j]) <==>
           KERNPAGE / ENTRIES <= j < CeilTable(KmapEnd(data, k)) || (k == 4 && DEVSPACE / PGSIZE / ENTRIES <= j)
  }

  function KernelCost(data: nat, k: nat): int {
    CeilTable(KmapEnd(data, k)) - KERNPAGE / ENTRIES + if k == 4 then ENTRIES - DEVSPACE / PGSIZE / ENTRIES else 0
  }

  lemma KernelCosts(data: nat, k: nat)
    requires k < 4 && data % PGSIZE == 0 && KERNBASE + EXTMEM < data < KERNBASE + PHYSTOP
    ensures KernelCost(data, 0) == 0 && KernelCost(data, 4) == KERNTABLES
    ensures KernelCost(data, k) <= KernelCost(data, k + 1) <= KERNTABLES
  {
  }

  /** Row k spans tables i .. j - 1; those below c are there when its turn comes. */
  lemma {:induction false} RowTables(data: nat, k: nat)
    requires k < 4 && data % PGSIZE == 0 && KERNBASE + EXTMEM < data < KERNBASE + PHYSTOP
    ensures var e := Kmap(data)[k]; var n := PageCount(e.virt, (e.end + U32 - e.start) % U32);
            n >= 0 && RowAt(data, k, e.virt / PGSIZE / ENTRIES, TablesEnd(e.virt / PGSIZE, n))
  {
    KmapPages(data, k);
    hide PageCount;
    if k == 3 { assert TablesEnd(DEVSPACE / PGSIZE, ENTRIES * ENTRIES - DEVSPACE / PGSIZE) == ENTRIES; }
  }

  ghost predicate RowAt(data: nat, k: nat, i: nat, j: nat) {
    var had := CeilTable(KmapEnd(data, k));
    && KERNPAGE / ENTRIES <= i < j <= ENTRIES && KERNPAGE / ENTRIES <= had
    && CeilTable(KmapEnd(data, k + 1)) == (if k == 3 then had else j)
    && (if k == 3 then had <= i == DEVSPACE / PGSIZE / ENTRIES && j == ENTRIES else i <= had <= j)
  }

  /** Row k needs exactly the tables that the rows before it have not made. */
  lemma {:induction false} KernelMissing(dir: seq<nat>, dir': seq<nat>, data: nat, k: nat)
    requires k < 4 && data % PGSIZE == 0 && KERNBASE + EXTMEM < data < KERNBASE + PHYSTOP && KernelDir(dir, data, k)
    ensures var e := Kmap(data)[k]; var size := (e.end + U32 - e.start) % U32; var v0 := e.virt / PGSIZE;
            && PageCount(e.virt, size) >= 0 && TablesEnd(v0, PageCount(e.virt, size)) <= ENTRIES
            && Missing(dir, v0 / ENTRIES, TablesEnd(v0, PageCount(e.virt, size)))
               == KernelCost(data, k + 1) - KernelCost(data, k)
            && (Opened(dir, dir', v0 / ENTRIES, TablesEnd(v0, PageCount(e.virt, size))) ==>
                 KernelDir(dir', data, k + 1))
  {
    RowTables(data, k);
    hide Missing, PageCount, TablesEnd, CeilTable, KmapEnd;
    var e := Kmap(data)[k];
    var v0, n := e.virt / PGSIZE, PageCount(e.virt, (e.end + U32 - e.start) % U32);
    var i, c, j := v0 / ENTRIES, (if k == 3 then v0 / ENTRIES else CeilTable(KmapEnd(data, k))), TablesEnd(v0, n);
    MissingSplit(dir, i, c, j);
    MissingNone(dir, i, c);
    MissingAll(dir, c, j);
  }

  /** What mappages leaves for row k of kmap. */
  lemma {:induction false} KernelRow(run: Run, m: Memory, free: seq<nat>, owner: Owner, pd: nat, done: nat,
                                     data: nat, k: nat, r: MapResult)
    requires k < 4 && data % PGSIZE == 0 && KERNBASE + EXTMEM < data < KERNBASE + PHYSTOP
    requires KernelUpTo(run.m, pd, data, KmapBound(data, k)) && KernelDir(run.m[pd], data, k)
    requires var e := Kmap(data)[k];
             && run.v0 == e.virt / PGSIZE && run.pa == e.start
             && Outcome(run, m, free, owner, pd, done, e.perm, PageCount(e.virt, (e.end + U32 - e.start) % U32), r)
    ensures Good(m, free, pd, owner) && Grew(run.m, run.free, run.owner, m, free, owner)
    ensures r == Mapped <==> KernelCost(data, k + 1) - KernelCost(data, k) <= |run.free|
    ensures r == Mapped ==> Frame(m, pd) && KernelUpTo(m, pd, data, KmapBound(data, k + 1))
                            && KernelDir(m[pd], data, k + 1)
    ensures r == Mapped ==> |free| + KernelCost(data, k + 1) - KernelCost(data, k) == |run.free|
  {
    KmapPages(data, k);
    KernelAbsent(run.m, pd, data, k);
    KernelMissing(run.m[pd], if pd in m then m[pd] else [], data, k);
    hide Good, Grew, Missing, KernelDir, KernelCost, KmapBound, PageCount, Kmap, KernelUpTo, TablesEnd;
    if r == Mapped {
      KernelStep(run.m, m, pd, data, k);
    }
  }

  // ------------------------------------------------------------ sizes of processes

  /** The pages below RoundUp are those that hold a byte below the size. */
  lemma RoundUpExact(sz: nat, v: nat)
    ensures v < RoundUp(sz) <==> v * PGSIZE < sz
  {
  }

  /** Every page below the size is mapped. */
  ghost predicate Full(m: Memory, pd: nat, sz: nat) {
    Tabled(m, pd) && RoundUp(sz) <= ENTRIES * ENTRIES && forall v | 0 <= v < RoundUp(sz) :: Present(Lookup(m, pd, v))
  }

  lemma RoundUps(a: nat, b: nat)
    requires a <= b <= KERNBASE
    ensures RoundUp(a) <= RoundUp(b) <= KERNPAGE
  {
  }

  lemma AbsentPart(m: Memory, pd: nat, sz: nat, want: nat)
    requires Absent(m, pd, RoundUp(sz), KERNPAGE) && sz <= want < KERNBASE
    ensures Absent(m, pd, RoundUp(sz), RoundUp(want))
  {
    RoundUps(sz, want);
  }

  /** Growing keeps every page below the size mapped, up to the new size. */
  lemma {:induction false} GrownFull(m: Memory, free: seq<nat>, owner: Owner, m': Memory, free': seq<nat>,
                                     owner': Owner, pd: nat, sz: nat, want: nat)
    requires Grown(m, free, owner, m', free', owner', {}, pd, RoundUp(sz), RoundUp(want)) && sz <= want < KERNBASE
    requires Absent(m, pd, RoundUp(sz), KERNPAGE)
    ensures Absent(m', pd, RoundUp(want), KERNPAGE) && Space(m', free', pd, owner')
            && Pool(free', owner') == Pool(free, owner)
    ensures Full(m, pd, sz) ==> Full(m', pd, want)
  {
    RoundUps(sz, want);
    AbsentAbove(m, m', pd, sz, want);
    if Full(m, pd, sz) {
      forall v | 0 <= v < RoundUp(want) ensures Present(Lookup(m', pd, v)) {
        if v >= RoundUp(sz) { assert NewPage(m', free, pd, v); }
      }
    }
  }

  lemma {:induction false} SameFull(m: Memory, m': Memory, pd: nat, sz: nat)
    requires SameTranslations(m, m', pd) && Absent(m, pd, RoundUp(sz), KERNPAGE)
    ensures Absent(m', pd, RoundUp(sz), KERNPAGE) && (Full(m, pd, sz) ==> Full(m', pd, sz))
  {
    hide Lookup;
  }

  /** Shrinking keeps the pages below the new size, and those below the old one only if it drops none. */
  lemma {:induction false} ShrunkParts(m: Memory, free: seq<nat>, owner: Owner, m': Memory, free': seq<nat>,
                                       owner': Owner, pd: nat, want: nat, sz: nat)
    requires Shrunk(m, free, owner, m', free', owner', pd, RoundUp(want), RoundUp(sz)) && want < sz < KERNBASE
    requires Absent(m, pd, RoundUp(sz), KERNPAGE)
    ensures Space(m', free', pd, owner') && Pool(free', owner') == Pool(free, owner)
    ensures Unmapped(m, m', pd, RoundUp(want), RoundUp(sz))
    ensures Absent(m', pd, RoundUp(sz), KERNPAGE) && Absent(m', pd, RoundUp(want), KERNPAGE)
    ensures Full(m, pd, sz) ==> Full(m', pd, want) && (Full(m', pd, sz) <==> RoundUp(want) == RoundUp(sz))
  {
    hide Lookup, Space;
    RoundUps(want, sz);
    AbsentBelow(m, m', pd, sz, want);
    if Full(m, pd, sz) && RoundUp(want) < RoundUp(sz) {
      assert !Present(Lookup(m', pd, RoundUp(want)));
    }
  }

  // ------------------------------------------------------------ copies

  ghost predicate KernelHalf(m: Memory, pd: nat, data: nat) {
    Tabled(m, pd) && forall v | KERNPAGE <= v < ENTRIES * ENTRIES :: Lookup(m, pd, v) == KernelEntry(data, v)
  }

  ghost predicate SameKernel(m: Memory, m': Memory, pd: nat) {
    && Tabled(m, pd) && Tabled(m', pd)
    && forall v | KERNPAGE <= v < ENTRIES * ENTRIES :: Lookup(m', pd, v) == Lookup(m, pd, v)
  }

  lemma {:induction false} KernelSame(m: Memory, m1: Memory, m2: Memory, pd: nat, v: nat, w: nat)
    requires SameLookups(m, m1, pd) && OneEntry(m1, m2, pd, v, w) && v < KERNPAGE
    ensures SameKernel(m, m2, pd)
  {
    hide Lookup;
  }

  lemma {:induction false} KernelStays(m: Memory, m': Memory, pd: nat, data: nat)
    requires KernelHalf(m, pd, data) && SameKernel(m, m', pd)
    ensures KernelHalf(m', pd, data)
  {
    hide Lookup, KernelEntry;
  }

  lemma {:induction false} KernelWhole(m: Memory, pd: nat, data: nat)
    requires KernelUpTo(m, pd, data, ENTRIES * ENTRIES)
    ensures KernelHalf(m, pd, data)
  {
    hide Lookup, KernelEntry;
  }

  /** The user half of a new directory has no tables, so n pages need a table for every 1024 of them. */
  lemma {:induction false} UserNeed(dir: seq<nat>, data: nat, n: nat)
    requires KernelDir(dir, data, 4) && n <= KERNPAGE
    ensures NeedPages(dir, 0, n) == n + CeilTable(n)
  {
    if n > 0 {
      NeedFits(0, n);
      assert TablesEnd(0, n) == CeilTable(n) <= KERNPAGE / ENTRIES;
      MissingAll(dir, 0, CeilTable(n));
    }
    hide Missing;
  }

  lemma SpaceFree(m: Memory, free: seq<nat>, pd: nat, owner: Owner)
    requires Space(m, free, pd, owner)
    ensures FreeOk(m, free, map[])
  {
  }

  lemma {:induction false} CopyingAt(m0: Memory, free0: seq<nat>, pd: nat, owner0: Owner,
                                     m: Memory, free: seq<nat>, d: nat, owner: Owner, v: nat, sz: nat)
    requires Copying(m0, free0, pd, owner0, m, free, d, owner, v) && Full(m0, pd, sz) && v < RoundUp(sz) <= KERNPAGE
    ensures Frame(m, d) && Tabled(m0, pd) && Present(Lookup(m0, pd, v))
  {
  }

  lemma {:induction false} StartChild(m0: Memory, free0: seq<nat>, pd: nat, owner0: Owner,
                                      m: Memory, free: seq<nat>, d: nat, owner: Owner, data: nat)
    requires Space(m0, free0, pd, owner0) && KernelOnly(m, free, d, owner, data)
    requires Pool(free, owner) == Elems(free0) && Elsewhere(m0, m, Elems(free0))
    ensures Copying(m0, free0, pd, owner0, m, free, d, owner, 0) && KernelHalf(m, d, data) && d in m
  {
    StartCopy(m0, free0, pd, owner0, m, free, d, owner, data);
    KernelWhole(m, d, data);
  }

  lemma {:induction false} Copied(m0: Memory, free0: seq<nat>, pd: nat, owner0: Owner,
                                  m: Memory, free: seq<nat>, d: nat, owner: Owner, v: nat)
    requires Copying(m0, free0, pd, owner0, m, free, d, owner, v)
    ensures owner.Keys !! owner0.Keys && Space(m, free, pd, owner0) && Elsewhere(m0, m, Elems(free0))
  {
    CopyDisjoint(m0, free0, pd, owner0, m, free, d, owner, v);
    assert Elems(free) <= Pool(free, owner);
    ParentKept(m0, free0, pd, owner0, m, free, owner);
    hide Space;
  }

  /** The state a loop started from. */
  datatype Snapshot = Snapshot(m: Memory, free: seq<nat>, owner: Owner)

  ghost function HandSet(hand: Option<nat>): set<nat> {
    if hand == None then {} else {hand.value}
  }
}
