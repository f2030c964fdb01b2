/**
 src/fmt/vm.c over physical memory and the free frame list of src/kalloc.c, both changed in place.
 Addresses are physical for frames and 32-bit virtual for pages; `owner` tracks which frame serves
 the page table as what.
 */
module Vm {
  import opened Common
  import opened Paging
  import opened PagingCopy
  import opened PagingCount
  import opened VmSpec

  class Machine {
    var mem: Memory
    var free: seq<nat>        // kmem.freelist

    method Kalloc() returns (r: Option<nat>)
      modifies `free
      ensures r == if old(free) == [] then None else Some(old(free)[0])
      ensures free == if old(free) == [] then [] else old(free)[1..]
    {
      if free == [] { return None; }
      r := Some(free[0]);
      free := free[1..];
    }

    method Kfree(f: nat)
      modifies this
      ensures free == [f] + old(free) && mem == old(mem)[f := Junk()]
    {
      mem := mem[f := Junk()];
      free := [f] + free;
    }

    /** The table frame holding the entry for va; with `alloc`, an absent table is created. */
    method Walkpgdir(pd: nat, va: nat, alloc: bool, ghost owner: Owner)
      returns (r: Option<nat>, ghost owner': Owner)
      requires Good(mem, free, pd, owner) && va < U32
      modifies this
      ensures var i := va / PGSIZE / ENTRIES;
              if r.Some? then TableAt(old(mem), old(free), owner, mem, free, owner', pd, i, r.value)
              else NoTable(old(mem), old(free), pd, i, alloc)
      ensures r == None || !alloc || Present(old(mem)[pd][va / PGSIZE / ENTRIES]) ==>
                mem == old(mem) && free == old(free) && owner' == owner
    {
      hide Good, TableAt, Struct;
      owner' := owner;
      ghost var i, m := va / PGSIZE / ENTRIES, mem;
      assert PDX(va) == i;
      GoodTabled(m, free, pd, owner);
      if Present(mem[pd][PDX(va)]) {
        FoundTable(m, free, owner, pd, i);
        return Some(Addr(mem[pd][PDX(va)])), owner';
      }
      if !alloc {
        return None, owner';
      }
      var pgtab := Kalloc();
      if pgtab == None {
        return None, owner';
      }
      var t := pgtab.value;
      MadeTable(m, old(free), owner, pd, i);
      mem := mem[t := Zeros()];
      mem := mem[pd := mem[pd][PDX(va) := t + 7]];     // V2P(pgtab) | PTE_P | PTE_W | PTE_U
      owner' := owner[t := Table(i)];
      r := Some(t);
    }

    /** One turn of the `mappages` loop: the entry for page v becomes w. */
    method MapOne(pd: nat, v: nat, w: nat, ghost owner: Owner) returns (r: MapResult, ghost owner': Owner)
      requires Good(mem, free, pd, owner) && v < ENTRIES * ENTRIES
      modifies this
      ensures r == Mapped ==> MappedOne(old(mem), old(free), owner, mem, free, owner', pd, v, w)
      ensures r != Mapped ==> mem == old(mem) && free == old(free) && owner' == owner
      ensures r == NoMemory <==> |old(free)| < Missing(old(mem)[pd], v / ENTRIES, v / ENTRIES + 1)
      ensures r == Remap <==> Present(Lookup(old(mem), pd, v))
    {
      hide Good, Struct, FreeOk, Grew, Paid, Missing, MappedOne;
      var a := v * PGSIZE;
      assert a / PGSIZE == v && PTX(a) == v % ENTRIES;
      GoodTabled(mem, free, pd, owner);
      OneMissing(mem[pd], v / ENTRIES);
      var pte;
      pte, owner' := Walkpgdir(pd, a, true, owner);
      if pte == None {
        return NoMemory, owner';
      }
      var t := pte.value;
      TableCost(old(mem), old(free), owner, mem, free, owner', pd, v / ENTRIES, t);
      assert mem[t][PTX(a)] == Lookup(mem, pd, v);
      if Present(mem[t][PTX(a)]) {
        assert Present(Lookup(old(mem), pd, v));
        return Remap, owner';
      }
      ghost var m := mem;
      Stored(old(mem), old(free), owner, m, free, owner', pd, v, w);
      var page: seq<nat> := mem[t][PTX(a) := w];
      mem := mem[t := page];
      assert mem == SetEntry(m, pd, v, w);
      r := Mapped;
    }

    /** One turn of the loop, seen from where the loop began: page v is the next one. */
    method MapNext(pd: nat, v: nat, p: nat, perm: nat, ghost run: Run, ghost owner: Owner, ghost done: nat)
      returns (r: MapResult, ghost owner': Owner)
      requires run.Reached(mem, free, owner, pd, done, perm)
      requires v == run.v0 + done && v < ENTRIES * ENTRIES && p == FrameOf(run.pa, done)
      modifies this
      ensures run.Reached(mem, free, owner', pd, if r == Mapped then done + 1 else done, perm)
      ensures r != Mapped ==> Stuck(run, mem, free, pd, done, r)
    {
      hide Run.Reached, Good, Grew, Paid, Missing, Struct, FreeOk, Entry, FrameOf, Lookup, MappedOne, Present;
      ReachedParts(run, mem, free, owner, pd, done, perm);
      ghost var m, fr := mem, free;
      r, owner' := MapOne(pd, v, Entry(p, perm), owner);
      if r == Mapped {
        ReachedNext(run, m, fr, owner, mem, free, owner', pd, done, perm);
      }
    }

    /**
     `mappages`: pages va .. va + size - 1 get consecutive frames from pa. All of them do exactly when
     they were absent and there is a free frame for each table missing. The loop stops before that at a
     present page, in the panic, or at a table without a frame, with the pages in front mapped.
     */
    method Mappages(pd: nat, va: nat, size: nat, pa: nat, perm: nat, ghost owner: Owner)
      returns (r: MapResult, ghost done: nat, ghost owner': Owner)
      requires Good(mem, free, pd, owner)
      requires size >= 1 && va + size <= U32 && perm < PGSIZE && pa % PGSIZE == 0
      modifies this
      ensures Outcome(Run(old(mem), old(free), owner, va / PGSIZE, pa), mem, free, owner', pd, done, perm,
                      PageCount(va, size), r)
    {
      hide Run.Reached, Outcome, Good, Stuck;
      var a := va - va % PGSIZE;
      var last := (va + size - 1) - (va + size - 1) % PGSIZE;
      var p := pa;
      ghost var run, n := Run(mem, free, owner, va / PGSIZE, pa), PageCount(va, size);
      RunStart(run, pd, perm);
      done, owner' := 0, owner;
      while true
        invariant 0 <= done < n && run.Reached(mem, free, owner', pd, done, perm)
        invariant a == (run.v0 + done) * PGSIZE && last == (run.v0 + n - 1) * PGSIZE && p == FrameOf(pa, done)
        decreases last - a
      {
        assert a / PGSIZE == run.v0 + done;
        r, owner' := MapNext(pd, a / PGSIZE, p, perm, run, owner', done);
        if r != Mapped {
          RunStopped(run, mem, free, owner', pd, done, perm, n, r);
          return;
        }
        done := done + 1;
        if a == last {
          break;
        }
        a := a + PGSIZE;
        p := p + PGSIZE;
      }
      RunDone(run, mem, free, owner', pd, n, perm);
    }

    /** The body of the deallocuvm loop for a page whose table is t. */
    method DropPage(pd: nat, t: nat, v: nat, ghost s: Snapshot, ghost owner: Owner, ghost lo: nat)
      returns (ghost owner': Owner)
      requires Shrunk(s.m, s.free, s.owner, mem, free, owner, pd, lo, v) && lo <= v < KERNPAGE
      requires Present(mem[pd][v / ENTRIES]) && t == Addr(mem[pd][v / ENTRIES])
      modifies this
      ensures Shrunk(s.m, s.free, s.owner, mem, free, owner', pd, lo, v + 1)
    {
      var pte := mem[t][v % ENTRIES];
      assert pte == Lookup(mem, pd, v);
      owner' := owner;
      if Present(pte) {
        ghost var m := mem;
        ShrunkDrop(s.m, s.free, s.owner, mem, free, owner, pd, lo, v, Junk());
        var pa := Addr(pte);
        assert pa != 0;                  // the panic of deallocuvm
        Kfree(pa);
        var page: seq<nat> := mem[t][v % ENTRIES := 0];
        mem := mem[t := page];
        assert mem == Dropped(m, pd, v, Junk());
        owner' := owner - {pa};
      } else {
        ShrunkPass(s.m, s.free, s.owner, mem, free, owner, pd, lo, v);
      }
    }

    /** One turn of the deallocuvm loop at page v of lo .. hi - 1; returns where it goes on. */
    method DropStep(pd: nat, a: nat, ghost v: nat, ghost hi: nat, ghost s: Snapshot, ghost owner: Owner, ghost lo: nat)
      returns (a': nat, ghost v': nat, ghost owner': Owner)
      requires a == v * PGSIZE && lo <= v < hi <= KERNPAGE
      requires Shrunk(s.m, s.free, s.owner, mem, free, owner, pd, lo, v)
      modifies this
      ensures v < v' && a' == v' * PGSIZE
      ensures Shrunk(s.m, s.free, s.owner, mem, free, owner', pd, lo, if v' < hi then v' else hi)
    {
      assert a / PGSIZE == v;
      var pte;
      pte, owner' := Walkpgdir(pd, a, false, owner);
      if pte == None {
        NextTable(mem, pd, a, v);
        a' := (PDX(a) + 1) * 0x40_0000 - PGSIZE;
        v' := TableEnd(v);
        ShrunkSkip(s.m, s.free, s.owner, mem, free, owner', pd, lo, v, if v' < hi then v' else hi);
      } else {
        owner' := DropPage(pd, pte.value, a / PGSIZE, s, owner', lo);
        a' := a;
        v' := v + 1;
      }
      a' := a' + PGSIZE;
    }

    /**
     `deallocuvm`: exactly the pages from PGROUNDUP(newsz) up to oldsz go, and their frames are freed
     once each; jumping over an absent directory entry skips no mapped page.
     */
    method Deallocuvm(pd: nat, oldsz: nat, newsz: nat, ghost owner: Owner) returns (sz: nat, ghost owner': Owner)
      requires Space(mem, free, pd, owner) && oldsz <= KERNBASE
      modifies this
      ensures sz == if newsz >= oldsz then oldsz else newsz
      ensures newsz >= oldsz ==> mem == old(mem) && free == old(free) && owner' == owner
      ensures newsz < oldsz ==>
                Shrunk(old(mem), old(free), owner, mem, free, owner', pd, RoundUp(newsz), RoundUp(oldsz))
    {
      owner' := owner;
      if newsz >= oldsz {
        return oldsz, owner';
      }
      ghost var s := Snapshot(mem, free, owner);
      ghost var lo, hi := RoundUp(newsz), RoundUp(oldsz);
      var a := (newsz + PGSIZE - 1) / PGSIZE * PGSIZE;
      ghost var v := lo;
      assert owner' == Without(owner, lo, lo);
      while a < oldsz
        invariant a == v * PGSIZE && lo <= v
        invariant Shrunk(s.m, s.free, s.owner, mem, free, owner', pd, lo, if v < hi then v else hi)
        decreases oldsz - a
      {
        a, v, owner' := DropStep(pd, a, v, hi, s, owner', lo);
      }
      sz := newsz;
    }

    /** `mappages` for one absent page: only a missing table without a frame stops it. */
    method MapPage(pd: nat, a: nat, f: nat, perm: nat, ghost v: nat, ghost owner: Owner)
      returns (ok: bool, ghost owner': Owner)
      requires Good(mem, free, pd, owner) && perm < PGSIZE && f % PGSIZE == 0
      requires a == v * PGSIZE && v < ENTRIES * ENTRIES && !Present(Lookup(mem, pd, v))
      modifies this
      ensures ok <==> Missing(old(mem)[pd], v / ENTRIES, v / ENTRIES + 1) <= |old(free)|
      ensures ok ==> MappedOne(old(mem), old(free), owner, mem, free, owner', pd, v, Entry(f, perm))
      ensures !ok ==> Good(mem, free, pd, owner') && Grew(old(mem), old(free), owner, mem, free, owner')
                      && SameLookups(old(mem), mem, pd)
    {
      assert a / PGSIZE == v && PageCount(a, PGSIZE) == 1;
      hide Outcome, MappedOne, Missing, Good, Grew, Struct, FreeOk;
      ghost var done, run := 0, Run(mem, free, owner, v, f);
      var r;
      r, done, owner' := Mappages(pd, a, PGSIZE, f, perm, owner);
      OnePage(run, mem, free, owner', pd, done, perm, r);
      ok := r == Mapped;
    }

    /** One turn of the allocuvm loop: a zeroed frame for page v, or no memory for it or for its table. */
    method GrowStep(pd: nat, a: nat, ghost v: nat, ghost s: Snapshot, ghost owner: Owner, ghost lo: nat)
      returns (hand: Option<nat>, ok: bool, ghost owner': Owner)
      requires Space(s.m, s.free, pd, s.owner) && Grown(s.m, s.free, s.owner, mem, free, owner, {}, pd, lo, v)
      requires a == v * PGSIZE && lo <= v < KERNPAGE && !Present(Lookup(s.m, pd, v))
      modifies this
      ensures ok <==> 1 + Missing(old(mem)[pd], v / ENTRIES, v / ENTRIES + 1) <= |old(free)|
      ensures ok ==> hand == None && Grown(s.m, s.free, s.owner, mem, free, owner', {}, pd, lo, v + 1)
      ensures pd in mem
      ensures ok ==> Paid(old(mem)[pd], |old(free)| - 1, mem[pd], |free|, v / ENTRIES, v / ENTRIES + 1)
      ensures !ok ==> Grown(s.m, s.free, s.owner, mem, free, owner', HandSet(hand), pd, lo, v)
    {
      owner' := owner;
      ghost var free0 := free;
      hand := Kalloc();
      if hand == None {
        return None, false, owner';
      }
      TakeHand(s.m, s.free, s.owner, mem, free0, owner, pd, lo, v);
      var f := hand.value;
      assert mem[f := Zeros()][pd] == mem[pd];
      mem := mem[f := Zeros()];
      ghost var m1, free1 := mem, free;
      assert Lookup(m1, pd, v) == Lookup(s.m, pd, v);
      assert Good(mem, free, pd, owner);
      hide Missing, Paid, Struct, Users, FreeOk;
      ok, owner' := MapPage(pd, a, f, PTE_W + PTE_U, v, owner);
      if ok {
        GrowPage(s.m, s.free, s.owner, m1, free1, owner, mem, free, owner', f, pd, lo, v);
        owner' := owner'[f := User(v)];
        hand := None;
      } else {
        GrowTables(s.m, s.free, s.owner, m1, free1, owner, mem, free, owner', f, pd, lo, v);
      }
    }

    /**
     `allocuvm`. On success exactly the pages from PGROUNDUP(oldsz) up to newsz gain zeroed frames from
     the free list and no other translation changes. That is so exactly when the sizes are in order and
     there are enough frames for the pages and the tables missing. Out of memory, every translation is as
     before and all user frames taken are free again; only table frames may stay behind.
     */
    method Allocuvm(pd: nat, oldsz: nat, newsz: nat, ghost owner: Owner)
      returns (sz: nat, ok: bool, ghost owner': Owner)
      requires Space(mem, free, pd, owner)
      requires oldsz <= newsz < KERNBASE ==> Absent(mem, pd, RoundUp(oldsz), RoundUp(newsz))
      modifies this
      ensures ok <==> oldsz <= newsz < KERNBASE
                      && NeedPages(old(mem)[pd], RoundUp(oldsz), RoundUp(newsz)) <= |old(free)|
      ensures sz == if ok then newsz else if newsz < KERNBASE && newsz < oldsz then oldsz else 0
      ensures newsz >= KERNBASE || newsz < oldsz ==> mem == old(mem) && free == old(free) && owner' == owner
      ensures ok ==> Grown(old(mem), old(free), owner, mem, free, owner', {}, pd, RoundUp(oldsz), RoundUp(newsz))
      ensures !ok ==> Space(mem, free, pd, owner') && SameTranslations(old(mem), mem, pd)
                      && Extends(owner, owner') && Pool(free, owner') == Pool(old(free), owner)
    {
      hide NeedPages, Missing, Paid, Grown, Space, Absent, Pool, Extends, SameTranslations;
      SameSpace(mem, free, pd, owner);
      owner' := owner;
      if newsz >= KERNBASE {
        return 0, false, owner';
      }
      if newsz < oldsz {
        return oldsz, false, owner';
      }
      ghost var s := Snapshot(mem, free, owner);
      ghost var lo, hi := RoundUp(oldsz), RoundUp(newsz);
      var a := (oldsz + PGSIZE - 1) / PGSIZE * PGSIZE;
      ghost var v := lo;
      StartGrown(mem, free, owner, pd, lo);
      while a < newsz
        invariant a == v * PGSIZE && lo <= v && (lo < v ==> v <= hi)
        invariant Grown(s.m, s.free, s.owner, mem, free, owner', {}, pd, lo, v) && pd in mem
        invariant |s.free| - NeedPages(s.m[pd], lo, hi) == |free| - NeedPages(mem[pd], v, hi)
      {
        var hand;
        GrownAt(s.m, s.free, s.owner, mem, free, owner', pd, lo, v, hi);
        ghost var dir, n := mem[pd], |free|;
        hand, ok, owner' := GrowStep(pd, a, v, s, owner', lo);
        NeedPagesNext(dir, mem[pd], n, |free|, v, hi, ok);
        if !ok {
          owner' := Rollback(pd, oldsz, newsz, hand, s, owner', v);
          return 0, false, owner';
        }
        a := a + PGSIZE;
        v := v + 1;
      }
      NeedPagesNone(mem[pd], v, hi);
      GrownEnd(s.m, s.free, s.owner, mem, free, owner', pd, lo, v, hi);
      sz, ok := newsz, true;
    }

    /** The error path of allocuvm: deallocuvm, then kfree of a frame that could not be mapped. */
    method Rollback(pd: nat, oldsz: nat, newsz: nat, hand: Option<nat>, ghost s: Snapshot, ghost owner: Owner,
                    ghost v: nat)
      returns (ghost owner': Owner)
      requires oldsz < newsz < KERNBASE && RoundUp(oldsz) <= v <= RoundUp(newsz)
      requires Space(s.m, s.free, pd, s.owner) && Absent(s.m, pd, RoundUp(oldsz), RoundUp(newsz))
      requires Grown(s.m, s.free, s.owner, mem, free, owner, HandSet(hand), pd, RoundUp(oldsz), v)
      modifies this
      ensures Space(mem, free, pd, owner') && SameTranslations(s.m, mem, pd)
      ensures Extends(s.owner, owner') && Pool(free, owner') == Pool(s.free, s.owner)
    {
      ghost var m1, free1 := mem, free;
      var sz;
      sz, owner' := Deallocuvm(pd, newsz, oldsz, owner);
      RolledBack(s.m, s.free, s.owner, m1, free1, owner, mem, free, owner', HandSet(hand), pd, RoundUp(oldsz), v,
                 RoundUp(newsz));
      if hand.Some? {
        PutBack(mem, free, pd, owner', hand.value, s.free, Junk());
        Kfree(hand.value);
      }
    }

    /** The loop of freevm over the directory. */
    method FreeTables(pd: nat, ghost owner: Owner) returns (ghost owner': Owner)
      requires Space(mem, free, pd, owner) && forall f | f in owner :: !owner[f].User?
      modifies this
      ensures TornDown(mem, free, owner', old(mem), pd, owner, Pool(old(free), owner), ENTRIES)
    {
      owner' := owner;
      ghost var m0, pool := mem, Pool(free, owner);
      StartTearing(mem, free, owner, pd);
      var i := 0;
      while i < ENTRIES
        invariant 0 <= i <= ENTRIES
        invariant TornDown(mem, free, owner', m0, pd, owner, pool, i)
      {
        TearTable(mem, free, owner', m0, pd, owner, pool, i, Junk());
        if Present(mem[pd][i]) {
          var t := Addr(mem[pd][i]);
          Kfree(t);
          owner' := owner' - {t};
        }
        i := i + 1;
      }
    }

    /** `freevm`: every frame of the page table, and no other, joins the free list, none of them twice. */
    method Freevm(pd: nat, ghost owner: Owner)
      requires Space(mem, free, pd, owner) && pd % PGSIZE == 0
      modifies this
      ensures FreeOk(mem, free, map[]) && Elems(free) == Pool(old(free), owner)
      ensures Elsewhere(old(mem), mem, Pool(old(free), owner))
    {
      var sz;
      ghost var o;
      sz, o := Deallocuvm(pd, KERNBASE, 0, owner);
      assert RoundUp(0) == 0 && RoundUp(KERNBASE) == KERNPAGE;
      ghost var m0, owner0, free0, pool := mem, o, free, Pool(old(free), owner);
      assert Mine(free0, owner0) <= pool;
      o := FreeTables(pd, o);
      TearDir(mem, free, o, m0, pd, owner0, pool, Junk());
      Kfree(pd);
      ElsewhereTrans(old(mem), m0, mem, Mine(free0, owner0), pool);
    }

    /** One row of the kernel map, mapped exactly if there are frames for its tables. */
    method MapRange(pd: nat, data: nat, k: nat, ghost owner: Owner) returns (ok: bool, ghost owner': Owner)
      requires Good(mem, free, pd, owner) && KernelUpTo(mem, pd, data, KmapBound(data, k))
               && KernelDir(mem[pd], data, k)
      requires k < 4 && data % PGSIZE == 0 && KERNBASE + EXTMEM < data < KERNBASE + PHYSTOP
      modifies this
      ensures Good(mem, free, pd, owner') && Grew(old(mem), old(free), owner, mem, free, owner')
      ensures ok <==> KernelCost(data, k + 1) - KernelCost(data, k) <= |old(free)|
      ensures ok ==> KernelUpTo(mem, pd, data, KmapBound(data, k + 1)) && KernelDir(mem[pd], data, k + 1)
      ensures ok ==> |free| + KernelCost(data, k + 1) - KernelCost(data, k) == |old(free)|
    {
      hide KernelDir, KernelCost, KernelUpTo, KmapBound, Missing, Outcome, Good, Grew, PageCount, Struct, FreeOk;
      var e := Kmap(data)[k];
      var size := (e.end + U32 - e.start) % U32;       // k->phys_end - k->phys_start
      KmapPages(data, k);
      ghost var run, done := Run(mem, free, owner, e.virt / PGSIZE, e.start), 0;
      var r;
      r, done, owner' := Mappages(pd, e.virt, size, e.start, e.perm, owner);
      KernelRow(run, mem, free, owner', pd, done, data, k, r);
      ok := r == Mapped;
    }

    /** The loop of `setupkvm` over the kernel's four mappings: all are made exactly with a frame for each table. */
    method MapKernel(pd: nat, data: nat, ghost owner0: Owner) returns (ok: bool, ghost owner: Owner)
      requires Good(mem, free, pd, owner0) && KernelUpTo(mem, pd, data, KERNPAGE) && KernelDir(mem[pd], data, 0)
      requires data % PGSIZE == 0 && KERNBASE + EXTMEM < data < KERNBASE + PHYSTOP
      modifies this
      ensures Good(mem, free, pd, owner) && Grew(old(mem), old(free), owner0, mem, free, owner)
      ensures ok <==> KERNTABLES <= |old(free)|
      ensures ok ==> KernelUpTo(mem, pd, data, ENTRIES * ENTRIES) && KernelDir(mem[pd], data, 4)
      ensures ok ==> |free| + KERNTABLES == |old(free)|
    {
      owner := owner0;
      assert Grew(mem, free, owner, mem, free, owner);
      hide Struct, FreeOk, KernelUpTo, Grew, KernelDir, KernelCost;
      KernelCosts(data, 0);
      var k := 0;
      while k < 4
        invariant 0 <= k <= 4
        invariant Good(mem, free, pd, owner) && Grew(old(mem), old(free), owner0, mem, free, owner)
        invariant KernelUpTo(mem, pd, data, KmapBound(data, k)) && KernelDir(mem[pd], data, k)
        invariant |free| + KernelCost(data, k) == |old(free)|
      {
        ghost var m, fr, o := mem, free, owner;
        KernelCosts(data, k);
        ok, owner := MapRange(pd, data, k, owner);
        GrewTrans(old(mem), old(free), owner0, m, fr, o, mem, free, owner);
        if !ok {
          return;
        }
        k := k + 1;
      }
      ok := true;
    }

    /**
     `setupkvm`; `data` is the page-aligned address of the kernel's data section. It succeeds exactly if
     there are frames for the directory and the kernel's tables.
     */
    method Setupkvm(data: nat) returns (r: Option<nat>, ghost owner: Owner)
      requires FreeOk(mem, free, map[])
      requires data % PGSIZE == 0 && KERNBASE + EXTMEM < data < KERNBASE + PHYSTOP
      modifies this
      ensures r.Some? <==> 1 + KERNTABLES <= |old(free)|
      ensures r.Some? ==> KernelOnly(mem, free, r.value, owner, data) && Absent(mem, r.value, 0, KERNPAGE)
      ensures r.Some? ==> Pool(free, owner) == Elems(old(free)) && r.value % PGSIZE == 0
      ensures r.Some? ==> KernelDir(mem[r.value], data, 4) && |free| + 1 + KERNTABLES == |old(free)|
      ensures Elsewhere(old(mem), mem, Elems(old(free)))
    {
      hide Struct, FreeOk, KernelUpTo, KernelDir, Pool, Elems, Elsewhere, Good, Absent;
      ghost var m, fr := mem, free;
      owner := map[];
      var d := Kalloc();
      if d == None {
        NothingChanged(mem, Elems(free));
        return None, owner;
      }
      var pd := d.value;
      mem := mem[pd := Zeros()];
      owner := map[pd := Dir];
      KernelStart(m, fr, data);
      ghost var m0, free0, owner0 := mem, free, owner;
      var ok;
      ok, owner := MapKernel(pd, data, owner);
      KernelReached(m, fr, m0, free0, owner0, mem, free, owner);
      if !ok {
        return None, owner;
      }
      KernelDone(mem, free, pd, owner, owner0, data);
      r := Some(pd);
    }

    /** The entry of a present user page, by walkpgdir without alloc. */
    method UserEntry(pd: nat, i: nat, ghost v: nat, ghost owner: Owner) returns (w: nat)
      requires Space(mem, free, pd, owner) && i == v * PGSIZE && v < KERNPAGE && Present(Lookup(mem, pd, v))
      modifies this
      ensures mem == old(mem) && free == old(free)
      ensures w == Lookup(mem, pd, v) && Addr(w) in owner && owner[Addr(w)] == User(v)
    {
      assert i / PGSIZE == v;
      ghost var o;
      var pte;
      pte, o := Walkpgdir(pd, i, false, owner);
      w := mem[pte.value][PTX(i)];
    }

    /** One turn of the copyuvm loop. If it fails, the frame it took may be lost. */
    method CopyStep(pd: nat, d: nat, i: nat, ghost v: nat, ghost s: Snapshot, ghost owner: Owner)
      returns (ok: bool, ghost owner': Owner)
      requires Copying(s.m, s.free, pd, s.owner, mem, free, d, owner, v)
      requires i == v * PGSIZE && v < KERNPAGE && Present(Lookup(s.m, pd, v))
      modifies this
      ensures d in mem && (ok <==> 1 + Missing(old(mem)[d], v / ENTRIES, v / ENTRIES + 1) <= |old(free)|)
      ensures ok ==> Copying(s.m, s.free, pd, s.owner, mem, free, d, owner', v + 1)
      ensures ok ==> Paid(old(mem)[d], |old(free)| - 1, mem[d], |free|, v / ENTRIES, v / ENTRIES + 1)
      ensures ok ==> SameKernel(old(mem), mem, d)
      ensures !ok ==> Space(mem, free, d, owner') && Pool(free, owner') <= Elems(s.free)
                      && Elsewhere(s.m, mem, Elems(s.free))
    {
      hide Missing, Paid, SameKernel;
      owner' := owner;
      assert Elems(free) <= Pool(free, owner);
      ParentKept(s.m, s.free, pd, s.owner, mem, free, owner);
      var w := UserEntry(pd, i, v, s.owner);
      var pa := Addr(w);
      assert w == Lookup(s.m, pd, v) && Frame(mem, pa) && mem[pa] == s.m[pa];
      ghost var m, free0 := mem, free;
      var hand := Kalloc();
      if hand == None {
        return false, owner';
      }
      var f := hand.value;
      CopyHand(s.m, s.free, pd, s.owner, mem, free0, d, owner, v, mem[pa]);
      mem := mem[f := mem[pa]];
      ghost var m1 := mem;
      assert m1[d] == m[d];
      ok, owner' := MapPage(d, i, f, Flags(w), v, owner);
      if ok {
        CopyPage(s.m, s.free, pd, s.owner, m, free0, d, owner, v, mem, free, owner');
        KernelSame(m, m1, mem, d, v, Entry(f, Flags(w)));
        owner' := owner'[f := User(v)];
      } else {
        KeepUsers(m1, mem, d, owner, owner');
        CopyFailed(s.m, s.free, m, m1, mem, Mine(free0[1..], owner), f);
      }
    }

    /**
     `copyuvm`: on success the child has the parent's user pages with equal flags and contents on frames
     disjoint from the parent's, and the kernel's mappings; the parent is untouched either way. It
     succeeds exactly if there is a frame for the directory, each table and each page.
     */
    method Copyuvm(pd: nat, sz: nat, data: nat, ghost owner: Owner) returns (r: Option<nat>, ghost owner': Owner)
      requires Space(mem, free, pd, owner) && sz <= KERNBASE && Full(mem, pd, sz)
      requires data % PGSIZE == 0 && KERNBASE + EXTMEM < data < KERNBASE + PHYSTOP
      modifies this
      ensures r.Some? <==> 1 + KERNTABLES + RoundUp(sz) + CeilTable(RoundUp(sz)) <= |old(free)|
      ensures r.Some? ==>
                && Copying(old(mem), old(free), pd, owner, mem, free, r.value, owner', RoundUp(sz))
                && owner'.Keys !! owner.Keys && Space(mem, free, pd, owner) && KernelHalf(mem, r.value, data)
      ensures Elsewhere(old(mem), mem, Elems(old(free)))
    {
      hide Space, KernelDir, KernelOnly, Copying, KernelHalf, FreeOk, Full, NeedPages, Elsewhere, KernelUpTo, Absent;
      ghost var s, n := Snapshot(mem, free, owner), RoundUp(sz);
      RoundUps(sz, sz);
      SpaceFree(mem, free, pd, owner);
      var d0;
      d0, owner' := Setupkvm(data);
      if d0 == None {
        return None, owner';
      }
      var d := d0.value;
      StartChild(s.m, s.free, pd, owner, mem, free, d, owner', data);
      UserNeed(mem[d], data, n);
      r, owner' := CopyPages(pd, d, sz, data, s, owner');
    }

    /** The loop of copyuvm. */
    method CopyPages(pd: nat, d: nat, sz: nat, data: nat, ghost s: Snapshot, ghost owner: Owner)
      returns (r: Option<nat>, ghost owner': Owner)
      requires sz <= KERNBASE && Full(s.m, pd, sz) && d in mem && d % PGSIZE == 0
      requires Copying(s.m, s.free, pd, s.owner, mem, free, d, owner, 0) && KernelHalf(mem, d, data)
      modifies this
      ensures r == (if NeedPages(old(mem)[d], 0, RoundUp(sz)) <= |old(free)| then Some(d) else None)
      ensures r.Some? ==>
                && Copying(s.m, s.free, pd, s.owner, mem, free, d, owner', RoundUp(sz))
                && owner'.Keys !! s.owner.Keys && Space(mem, free, pd, s.owner) && KernelHalf(mem, d, data)
      ensures Elsewhere(s.m, mem, Elems(s.free))
    {
      hide Missing, Paid, NeedPages, Copying, KernelHalf, Full, Space, Elsewhere, Pool, SameKernel;
      ghost var n, m0, left := RoundUp(sz), mem, |free|;
      RoundUps(sz, sz);
      owner' := owner;
      var i := 0;
      ghost var v: nat := 0;
      while i < sz
        invariant i == v * PGSIZE && v <= n && d in mem
        invariant Copying(s.m, s.free, pd, s.owner, mem, free, d, owner', v) && KernelHalf(mem, d, data)
        invariant left - NeedPages(m0[d], 0, n) == |free| - NeedPages(mem[d], v, n)
      {
        var ok;
        ghost var m1, before := mem, |free|;
        CopyingAt(s.m, s.free, pd, s.owner, mem, free, d, owner', v, sz);
        ok, owner' := CopyStep(pd, d, i, v, s, owner');
        NeedPagesNext(m1[d], mem[d], before, |free|, v, n, ok);
        if !ok {
          Discard(d, s, owner');
          return None, owner';
        }
        KernelStays(m1, mem, d, data);
        i := i + PGSIZE;
        v := v + 1;
      }
      NeedPagesNone(mem[d], v, n);
      Copied(s.m, s.free, pd, s.owner, mem, free, d, owner', v);
      r := Some(d);
    }

    /** The error path of copyuvm. */
    method Discard(d: nat, ghost s: Snapshot, ghost owner: Owner)
      requires Space(mem, free, d, owner) && Pool(free, owner) <= Elems(s.free) && d % PGSIZE == 0
      requires Elsewhere(s.m, mem, Elems(s.free))
      modifies this
      ensures Elsewhere(s.m, mem, Elems(s.free))
    {
      ghost var m2 := mem;
      Freevm(d, owner);
      assert Elsewhere(m2, mem, Elems(s.free));
      ElsewhereTrans(s.m, m2, mem, Elems(s.free), Elems(s.free));
    }

    /**
     `growproc` of a process of size sz by n bytes. It keeps every frame accounted for and nothing mapped
     above the size it records. A failure leaves the size alone, and so does shrinking to nothing, which
     the code takes for a failure after it has dropped the pages: if every page below the size was mapped
     before, that is so afterwards except in that one case.
     */
    method Growproc(pd: nat, sz: nat, n: int, ghost owner: Owner) returns (ok: bool, sz': nat, ghost owner': Owner)
      requires Space(mem, free, pd, owner) && sz < KERNBASE && Absent(mem, pd, RoundUp(sz), KERNPAGE)
      requires -0x8000_0000 <= n < 0x8000_0000
      modifies this
      ensures Space(mem, free, pd, owner') && Pool(free, owner') == Pool(old(free), owner)
      ensures sz' < KERNBASE && Absent(mem, pd, RoundUp(sz'), KERNPAGE)
      ensures !ok ==> sz' == sz
      ensures ok ==> sz' == if sz + n < 0 then sz else sz + n
      ensures n < 0 ==> (ok <==> sz != 0 && sz + n != 0)
      ensures n > 0 ==>
                (ok <==> sz + n < KERNBASE && NeedPages(old(mem)[pd], RoundUp(sz), RoundUp(sz + n)) <= |old(free)|)
      ensures n == 0 ==> ok
      ensures n > 0 && ok ==> Grown(old(mem), old(free), owner, mem, free, owner', {}, pd, RoundUp(sz), RoundUp(sz + n))
      ensures n < 0 && 0 <= sz + n ==> Unmapped(old(mem), mem, pd, RoundUp(sz + n), RoundUp(sz))
      ensures (n > 0 && !ok) || n == 0 || sz + n < 0 ==> SameTranslations(old(mem), mem, pd)
      ensures Full(old(mem), pd, sz) ==> (Full(mem, pd, sz') <==> !(n < 0 && 0 < sz && sz + n == 0))
    {
      hide Space, Pool, Absent, Full, Grown, Unmapped, SameTranslations, NeedPages;
      SameSpace(mem, free, pd, owner);
      sz', owner' := sz, owner;
      var want: nat := (sz + n) % U32;
      var got: nat;
      if n > 0 {
        got, owner' := Grow(pd, sz, want, owner);
        if got == 0 {
          return false, sz, owner';
        }
        sz' := got;
      } else if n < 0 {
        got, owner' := Shrink(pd, sz, want, owner);
        if got == 0 {
          return false, sz, owner';
        }
        sz' := got;
      }
      ok := true;
    }

    /** The growing half of `growproc`. */
    method Grow(pd: nat, sz: nat, want: nat, ghost owner: Owner) returns (got: nat, ghost owner': Owner)
      requires Space(mem, free, pd, owner) && sz < KERNBASE && Absent(mem, pd, RoundUp(sz), KERNPAGE) && sz < want
      modifies this
      ensures Space(mem, free, pd, owner') && Pool(free, owner') == Pool(old(free), owner)
      ensures var fits := want < KERNBASE && NeedPages(old(mem)[pd], RoundUp(sz), RoundUp(want)) <= |old(free)|;
              got == if fits then want else 0
      ensures Absent(mem, pd, RoundUp(if got == 0 then sz else got), KERNPAGE)
      ensures if got == 0 then SameTranslations(old(mem), mem, pd)
              else Grown(old(mem), old(free), owner, mem, free, owner', {}, pd, RoundUp(sz), RoundUp(want))
      ensures Full(old(mem), pd, sz) ==> Full(mem, pd, if got == 0 then sz else got)
    {
      hide Space, Pool, Absent, Full, Grown, SameTranslations, NeedPages;
      if want < KERNBASE { AbsentPart(mem, pd, sz, want); }
      var ok;
      got, ok, owner' := Allocuvm(pd, sz, want, owner);
      if ok {
        GrownFull(old(mem), old(free), owner, mem, free, owner', pd, sz, want);
      } else {
        SameFull(old(mem), mem, pd, sz);
      }
    }

    /** The shrinking half: the pages go, and with them all that was mapped if want is 0. */
    method Shrink(pd: nat, sz: nat, want: nat, ghost owner: Owner) returns (got: nat, ghost owner': Owner)
      requires Space(mem, free, pd, owner) && sz < KERNBASE && Absent(mem, pd, RoundUp(sz), KERNPAGE)
      modifies this
      ensures Space(mem, free, pd, owner') && Pool(free, owner') == Pool(old(free), owner)
      ensures got == if want < sz then want else sz
      ensures Absent(mem, pd, RoundUp(sz), KERNPAGE) && Absent(mem, pd, RoundUp(got), KERNPAGE)
      ensures if want < sz then Unmapped(old(mem), mem, pd, RoundUp(want), RoundUp(sz))
              else SameTranslations(old(mem), mem, pd)
      ensures Full(old(mem), pd, sz) ==> Full(mem, pd, got) && (Full(mem, pd, sz) <==> RoundUp(got) == RoundUp(sz))
    {
      hide Space, Pool, Absent, Full, SameTranslations, Shrunk;
      SameSpace(mem, free, pd, owner);
      got, owner' := Deallocuvm(pd, sz, want, owner);
      if want < sz {
        ShrunkParts(old(mem), old(free), owner, mem, free, owner', pd, want, sz);
      }
    }

    /**
     A process's address space from setupkvm, which needs its 65 frames, through any requests to grow or
     shrink, in any order, to freevm: the free list ends with exactly the frames it began with, each once.
     */
    method Lifecycle(data: nat, requests: seq<int>) returns (ran: bool)
      requires FreeOk(mem, free, map[])
      requires data % PGSIZE == 0 && KERNBASE + EXTMEM < data < KERNBASE + PHYSTOP
      requires forall i | 0 <= i < |requests| :: -0x8000_0000 <= requests[i] < 0x8000_0000
      modifies this
      ensures ran <==> 1 + KERNTABLES <= |old(free)|
      ensures ran ==> FreeOk(mem, free, map[]) && Elems(free) == Elems(old(free))
    {
      ghost var owner;
      var d;
      d, owner := Setupkvm(data);
      if d == None {
        return false;
      }
      var pd, i := d.value, 0;
      var sz: nat := 0;
      assert RoundUp(0) == 0;
      while i < |requests|
        invariant 0 <= i <= |requests| && sz < KERNBASE
        invariant Space(mem, free, pd, owner) && Pool(free, owner) == Elems(old(free))
        invariant Absent(mem, pd, RoundUp(sz), KERNPAGE)
      {
        var ok;
        ok, sz, owner := Growproc(pd, sz, requests[i], owner);
        i := i + 1;
      }
      Freevm(pd, owner);
      ran := true;
    }
  }
}
