/**
 What the processor lets a process do with a page (section 4.6 of the Intel SDM, Volume 3A): a right has
 to be granted by the directory entry and by the table entry. Together with src/fmt/vm.c: user pages can
 be read and written by the process, kernel pages cannot be touched, and kernel text cannot be written.
 */
module PagingRights {
  import opened Common
  import opened Paging
  import opened PagingCopy
  import opened VmSpec

  /** Bit 1 of an entry allows writing, bit 2 allows user mode. */
  predicate BitW(w: nat) { (w / 2) % 2 == 1 }
  predicate BitU(w: nat) { (w / 4) % 2 == 1 }

  predicate Mapped(m: Memory, pd: nat, v: nat)
    requires Tabled(m, pd) && v < ENTRIES * ENTRIES
  {
    Present(m[pd][v / ENTRIES]) && Present(Lookup(m, pd, v))
  }

  /** The process, in user mode, may access page v. */
  predicate UserMay(m: Memory, pd: nat, v: nat)
    requires Tabled(m, pd) && v < ENTRIES * ENTRIES
  {
    Mapped(m, pd, v) && BitU(m[pd][v / ENTRIES]) && BitU(Lookup(m, pd, v))
  }

  /** Page v may be written, by the process if it may access the page at all. */
  predicate MayWrite(m: Memory, pd: nat, v: nat)
    requires Tabled(m, pd) && v < ENTRIES * ENTRIES
  {
    Mapped(m, pd, v) && BitW(m[pd][v / ENTRIES]) && BitW(Lookup(m, pd, v))
  }

  lemma WriteBit(q: nat, r: nat)
    ensures BitW(PGSIZE * q + r) <==> BitW(r)
  {
    var a, b, c := r / 4, (r / 2) % 2, r % 2;
    assert r == 4 * a + 2 * b + c;
    assert (PGSIZE * q + r) / 2 == 2 * (1024 * q + a) + b;
  }

  lemma UserBit(q: nat, r: nat)
    ensures BitU(PGSIZE * q + r) <==> BitU(r)
  {
    var a, b, c := r / 8, (r / 4) % 2, r % 4;
    assert r == 8 * a + 4 * b + c;
    assert (PGSIZE * q + r) / 4 == 2 * (512 * q + a) + b;
  }

  /** The bits are those of the flags. */
  lemma FlagBits(w: nat)
    ensures BitW(w) <==> BitW(Flags(w))
    ensures BitU(w) <==> BitU(Flags(w))
  {
    hide BitW, BitU;
    WriteBit(w / PGSIZE, w % PGSIZE);
    UserBit(w / PGSIZE, w % PGSIZE);
    assert w == PGSIZE * (w / PGSIZE) + w % PGSIZE;
  }

  /** The flags in use. */
  lemma Bits()
    ensures BitW(TABLEFLAGS) && BitU(TABLEFLAGS) && BitW(PTE_U + PTE_W + 1) && BitU(PTE_U + PTE_W + 1)
    ensures BitW(PTE_W + 1) && !BitU(PTE_W + 1) && !BitW(1) && !BitU(1)
  {
  }

  /** Directory entries withhold nothing: the table entry decides. */
  lemma {:induction false} TableDecides(m: Memory, pd: nat, owner: Owner, v: nat)
    requires Struct(m, pd, owner) && v < ENTRIES * ENTRIES
    ensures Tabled(m, pd)
    ensures UserMay(m, pd, v) <==> Present(Lookup(m, pd, v)) && BitU(Lookup(m, pd, v))
    ensures MayWrite(m, pd, v) <==> Present(Lookup(m, pd, v)) && BitW(Lookup(m, pd, v))
  {
    StructTabled(m, pd, owner);
    NoPage(0);
    var e := m[pd][v / ENTRIES];
    FlagBits(e);
    Bits();
    assert Present(e) ==> Flags(e) == TABLEFLAGS by { hide Addr; }
    hide Struct, Present, BitU, BitW;
  }

  /** Every page allocuvm adds can be read and written by the process. */
  lemma {:induction false} GrownRights(m: Memory, free: seq<nat>, owner: Owner, m': Memory, free': seq<nat>,
                                       owner': Owner, hand: set<nat>, pd: nat, lo: nat, v: nat, u: nat)
    requires Grown(m, free, owner, m', free', owner', hand, pd, lo, v) && lo <= u < v
    ensures Tabled(m', pd) && u < ENTRIES * ENTRIES && UserMay(m', pd, u) && MayWrite(m', pd, u)
  {
    hide Lookup, Struct, BitU, BitW, UserMay, MayWrite, Present, Flags;
    GrownPage(m, free, owner, m', free', owner', hand, pd, lo, v, u);
    FlagBits(Lookup(m', pd, u));
    Bits();
    TableDecides(m', pd, owner', u);
  }

  lemma GrownPage(m: Memory, free: seq<nat>, owner: Owner, m': Memory, free': seq<nat>, owner': Owner,
                  hand: set<nat>, pd: nat, lo: nat, v: nat, u: nat)
    requires Grown(m, free, owner, m', free', owner', hand, pd, lo, v) && lo <= u < v
    ensures Struct(m', pd, owner') && Tabled(m', pd) && u < ENTRIES * ENTRIES
    ensures Present(Lookup(m', pd, u)) && Flags(Lookup(m', pd, u)) == PTE_U + PTE_W + 1
  {
    StructTabled(m', pd, owner');
    hide Struct, Users, Lookup, FreeOk, Flags, Present, Addr;
    assert NewPage(m', free, pd, u);
  }

  /** The process may touch no kernel page; all of them can be written by the kernel but its text. */
  lemma {:induction false} KernelRights(m: Memory, pd: nat, owner: Owner, data: nat, v: nat)
    requires Struct(m, pd, owner) && KernelHalf(m, pd, data) && KERNPAGE <= v < ENTRIES * ENTRIES
    ensures !UserMay(m, pd, v)
    ensures Present(Lookup(m, pd, v)) ==>
              (MayWrite(m, pd, v) <==> !((KERNBASE + EXTMEM) / PGSIZE <= v < data / PGSIZE)
                                       || v >= KERNPAGE + PHYSTOP / PGSIZE)
  {
    hide Struct, BitU, BitW, UserMay, MayWrite, Lookup, KernelEntry;
    TableDecides(m, pd, owner, v);
    FlagBits(Lookup(m, pd, v));
    Bits();
    EntryFlags(data, v);
  }

  lemma EntryFlags(data: nat, v: nat)
    requires KERNPAGE <= v
    ensures var text := (KERNBASE + EXTMEM) / PGSIZE <= v < data / PGSIZE && v < KERNPAGE + PHYSTOP / PGSIZE;
            Present(KernelEntry(data, v)) ==> Flags(KernelEntry(data, v)) == if text then 1 else PTE_W + 1
  {
    hide Entry, Addr;
  }

  /** A forked process has the rights of its parent on each of its pages. */
  lemma {:induction false} CopyRights(m0: Memory, pd: nat, owner0: Owner, m: Memory, d: nat, owner: Owner, v: nat)
    requires Struct(m0, pd, owner0) && Struct(m, d, owner) && Tabled(m0, pd) && Tabled(m, d) && v < KERNPAGE
    requires PageCopy(m0, pd, m, d, v)
    ensures UserMay(m, d, v) <==> UserMay(m0, pd, v)
    ensures MayWrite(m, d, v) <==> MayWrite(m0, pd, v)
  {
    hide Struct, BitU, BitW, UserMay, MayWrite, Lookup, Present, Flags, Addr;
    TableDecides(m0, pd, owner0, v);
    TableDecides(m, d, owner, v);
    FlagBits(Lookup(m0, pd, v));
    FlagBits(Lookup(m, d, v));
  }
}
