/**
 How many frames an operation on a page table needs: one for each page it adds and one for each page
 table that is missing, counted over the directory.
 */
module PagingCount {
  import opened Paging

  /** Absent entries among entries i .. j - 1 of a directory. */
  function Missing(dir: seq<nat>, i: nat, j: nat): nat
    requires j <= |dir|
    decreases j - i
  {
    if i >= j then 0 else (if Present(dir[i]) then 0 else 1) + Missing(dir, i + 1, j)
  }

  /** Entries i .. j - 1 are present in dir'; the others are as present as in dir. */
  ghost predicate Opened(dir: seq<nat>, dir': seq<nat>, i: nat, j: nat) {
    |dir'| == |dir| && forall k | 0 <= k < |dir| :: Present(dir'[k]) <==> Present(dir[k]) || i <= k < j
  }

  /** Tables i .. j - 1 were made present, each missing one with a frame of the free list. */
  ghost predicate Paid(dir: seq<nat>, free: nat, dir': seq<nat>, free': nat, i: nat, j: nat) {
    j <= |dir| && Opened(dir, dir', i, j) && free' + Missing(dir, i, j) == free
  }

  lemma {:induction false} MissingSplit(dir: seq<nat>, i: nat, k: nat, j: nat)
    requires i <= k <= j <= |dir|
    ensures Missing(dir, i, j) == Missing(dir, i, k) + Missing(dir, k, j)
    decreases k - i
  {
    if i < k { MissingSplit(dir, i + 1, k, j); }
  }

  /** Equally present directories miss equally many. */
  lemma {:induction false} MissingSame(dir: seq<nat>, dir': seq<nat>, i: nat, j: nat)
    requires |dir'| == |dir| && j <= |dir| && forall k | i <= k < j :: Present(dir'[k]) <==> Present(dir[k])
    ensures Missing(dir', i, j) == Missing(dir, i, j)
    decreases j - i
  {
    if i < j { MissingSame(dir, dir', i + 1, j); }
  }

  lemma {:induction false} MissingNone(dir: seq<nat>, i: nat, j: nat)
    requires j <= |dir| && forall k | i <= k < j :: Present(dir[k])
    ensures Missing(dir, i, j) == 0
    decreases j - i
  {
    if i < j { MissingNone(dir, i + 1, j); }
  }

  lemma {:induction false} MissingAll(dir: seq<nat>, i: nat, j: nat)
    requires i <= j <= |dir| && forall k | i <= k < j :: !Present(dir[k])
    ensures Missing(dir, i, j) == j - i
    decreases j - i
  {
    if i < j { MissingAll(dir, i + 1, j); }
  }

  /** The first table after those of pages v0 .. v0 + k - 1. */
  function TablesEnd(v0: nat, k: nat): nat {
    if k == 0 then v0 / ENTRIES else (v0 + k - 1) / ENTRIES + 1
  }

  /** One more page of a run that began at v0. */
  lemma {:induction false} PaidNext(dir: seq<nat>, free: nat, dir1: seq<nat>, free1: nat, dir2: seq<nat>, free2: nat,
                                    v0: nat, k: nat)
    requires v0 + k < ENTRIES * ENTRIES && |dir| == ENTRIES
    requires Paid(dir, free, dir1, free1, v0 / ENTRIES, TablesEnd(v0, k))
    requires var i := (v0 + k) / ENTRIES; Paid(dir1, free1, dir2, free2, i, i + 1)
    ensures Paid(dir, free, dir2, free2, v0 / ENTRIES, TablesEnd(v0, k + 1))
  {
    PaidMore(dir, dir1, v0, k);
  }

  /** What the table of the next page costs, before and after the pages in front of it. */
  lemma {:induction false} PaidMore(dir: seq<nat>, dir1: seq<nat>, v0: nat, k: nat)
    requires v0 + k < ENTRIES * ENTRIES && |dir| == ENTRIES
    requires TablesEnd(v0, k) <= |dir| && Opened(dir, dir1, v0 / ENTRIES, TablesEnd(v0, k))
    ensures var i := (v0 + k) / ENTRIES;
            && v0 / ENTRIES <= TablesEnd(v0, k) <= i + 1 == TablesEnd(v0, k + 1) <= ENTRIES
            && (TablesEnd(v0, k) == i || TablesEnd(v0, k) == i + 1)
            && Missing(dir, v0 / ENTRIES, i + 1)
              == Missing(dir, v0 / ENTRIES, TablesEnd(v0, k)) + Missing(dir1, i, i + 1)
  {
    var i, e := (v0 + k) / ENTRIES, TablesEnd(v0, k);
    TablesEndNext(v0, k);
    if e == i {
      MissingSplit(dir, v0 / ENTRIES, i, i + 1);
      MissingSame(dir, dir1, i, i + 1);
    } else {
      MissingNone(dir1, i, i + 1);
    }
  }

  lemma TablesEndNext(v0: nat, k: nat)
    requires v0 + k < ENTRIES * ENTRIES
    ensures var i := (v0 + k) / ENTRIES;
            && v0 / ENTRIES <= TablesEnd(v0, k) && i + 1 == TablesEnd(v0, k + 1) <= ENTRIES
            && (TablesEnd(v0, k) == i || TablesEnd(v0, k) == i + 1)
  {
  }

  lemma TablesEndGrows(v0: nat, k: nat, n: nat)
    requires k <= n
    ensures v0 / ENTRIES <= TablesEnd(v0, k) <= TablesEnd(v0, n)
  {
  }

  lemma {:induction false} MissingGrows(dir: seq<nat>, i: nat, k: nat, j: nat)
    requires i <= k <= j <= |dir|
    ensures Missing(dir, i, k) <= Missing(dir, i, j)
  {
    MissingSplit(dir, i, k, j);
  }

  // ------------------------------------------------------------ adding user pages

  /** Frames needed to add pages lo .. hi - 1: the pages and the tables missing for them. */
  function Need(dir: seq<nat>, lo: nat, hi: nat): nat
    requires TablesEnd(lo, if lo < hi then hi - lo else 0) <= |dir|
  {
    if lo >= hi then 0 else hi - lo + Missing(dir, lo / ENTRIES, TablesEnd(lo, hi - lo))
  }

  lemma {:induction false} NeedFits(lo: nat, hi: nat)
    requires hi <= ENTRIES * ENTRIES && lo <= ENTRIES * ENTRIES
    ensures TablesEnd(lo, if lo < hi then hi - lo else 0) <= ENTRIES
  {
  }

  /** Adding page v leaves the need of the pages behind it. */
  lemma {:induction false} NeedNext(dir: seq<nat>, dir1: seq<nat>, v: nat, hi: nat)
    requires |dir| == ENTRIES && v < hi <= ENTRIES * ENTRIES && Opened(dir, dir1, v / ENTRIES, v / ENTRIES + 1)
    ensures TablesEnd(v, hi - v) <= ENTRIES && TablesEnd(v + 1, hi - (v + 1)) <= ENTRIES
    ensures Need(dir, v, hi) == 1 + Missing(dir, v / ENTRIES, v / ENTRIES + 1) + Need(dir1, v + 1, hi)
  {
    NeedFits(v, hi);
    NeedFits(v + 1, hi);
    var i, e := v / ENTRIES, TablesEnd(v, hi - v);
    MissingSplit(dir, i, i + 1, e);
    if v + 1 < hi {
      var j := (v + 1) / ENTRIES;
      assert j == i || j == i + 1;
      assert TablesEnd(v + 1, hi - (v + 1)) == e;
      MissingSame(dir, dir1, i + 1, e);
      if j == i {
        MissingNone(dir1, i, i + 1);
        MissingSplit(dir1, i, i + 1, e);
      }
    } else {
      assert e == i + 1;
    }
  }
}
