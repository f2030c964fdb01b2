/**
 The buffer cache of src/bio.c over the disk of src/memide.c. Each section under bcache.lock, and each
 action of the process that holds a buffer's sleep lock, is one method; the processes of a run call them
 in any order.
 */
module BufferCache {
  import opened Common
  import opened BufferRing

  type Block = seq<int>

  datatype Buf = Buf(dev: nat, blockno: nat, valid: bool, dirty: bool, refcnt: nat, locked: bool, data: Block)

  /**
   What the proof records of a buffer: has bget ever returned it; did its holder change the data without
   writing it yet; how many processes wait for its sleep lock after bget, and how many have released the
   lock but not yet dropped their reference; when it was last released by its last user.
   */
  datatype Note = Note(handed: bool, editing: bool, waiting: nat, leaving: nat, stamp: nat)

  /** `order` is the ring from most to least recently used; `latest` the last value written to each block. */
  datatype Ghost = Ghost(order: seq<nat>, notes: seq<Note>, clock: nat, latest: seq<Block>)

  predicate HasKey(b: Buf, dev: nat, blockno: nat) {
    b.dev == dev && b.blockno == blockno
  }

  /** May bget recycle the buffer? */
  predicate Idle(b: Buf) {
    b.refcnt == 0 && !b.dirty
  }

  // ------------------------------------------------------------ invariant

  /** The ring lists every buffer, most recently released first. */
  ghost predicate Ordered(n: nat, g: Ghost) {
    && |g.notes| == n
    && (forall i: nat | i < n :: i in g.order)
    && (forall k | 0 <= k < |g.order| :: g.order[k] < n && g.notes[g.order[k]].stamp < g.clock)
    && (forall k, l | 0 <= k < l < |g.order| && g.order[k] < n && g.order[l] < n ::
          g.notes[g.order[k]].stamp > g.notes[g.order[l]].stamp)
  }

  /** A buffer nobody was ever given is as binit left it. */
  predicate Blank(b: Buf) {
    b.dev == 0 && b.blockno == 0 && !b.valid && !b.dirty && b.refcnt == 0 && !b.locked
  }

  ghost predicate Keys(bufs: seq<Buf>, notes: seq<Note>) {
    && |notes| == |bufs|
    && (forall i | 0 <= i < |bufs| && !notes[i].handed :: Blank(bufs[i]))
    && (forall i, j | 0 <= i < j < |bufs| && notes[i].handed && notes[j].handed ::
         !HasKey(bufs[i], bufs[j].dev, bufs[j].blockno))
    && (forall i, j | 0 <= i < |bufs| && 0 <= j < |bufs| && notes[i].handed && !notes[j].handed
        && HasKey(bufs[i], 0, 0) ::
          notes[i].stamp > notes[j].stamp)
  }

  /** References are exactly the holder, the waiting and the leaving. */
  predicate Counted(b: Buf, n: Note) {
    && b.refcnt == n.waiting + n.leaving + (if b.locked then 1 else 0)
    && (n.editing ==> b.locked && b.valid) && (b.dirty ==> b.valid) && (b.valid ==> n.handed && b.dev == 1)
  }

  ghost predicate Counts(bufs: seq<Buf>, notes: seq<Note>) {
    |notes| == |bufs| && forall i | 0 <= i < |bufs| :: Counted(bufs[i], notes[i])
  }

  /** Unless its holder is changing it, a valid buffer has the last value; unless it is dirty, so has the disk. */
  ghost predicate Coherent(bufs: seq<Buf>, notes: seq<Note>, disk: seq<Block>, latest: seq<Block>) {
    && |notes| == |bufs| && |latest| == |disk|
    && (forall i | 0 <= i < |bufs| && bufs[i].valid ::
          bufs[i].blockno < |disk| && (notes[i].editing || bufs[i].data == latest[bufs[i].blockno]))
    && (forall n | 0 <= n < |disk| && disk[n] != latest[n] :: CachedDirty(bufs, n))
  }

  predicate CachedDirty(bufs: seq<Buf>, n: nat) {
    exists i | 0 <= i < |bufs| :: bufs[i].dirty && bufs[i].blockno == n
  }

  /** Replacing one entry keeps the others' agreement. */
  lemma {:induction false} CoherentAt(bufs: seq<Buf>, notes: seq<Note>, disk: seq<Block>, latest: seq<Block>, i: nat,
                                      b: Buf, n: Note)
    requires Coherent(bufs, notes, disk, latest) && i < |bufs|
    requires b.valid ==> b.blockno < |disk| && (n.editing || b.data == latest[b.blockno])
    requires bufs[i].dirty ==> b.dirty && b.blockno == bufs[i].blockno
    ensures Coherent(bufs[i := b], notes[i := n], disk, latest)
  {
    forall m | 0 <= m < |disk| && disk[m] != latest[m]
      ensures CachedDirty(bufs[i := b], m)
    {
      var k :| 0 <= k < |bufs| && bufs[k].dirty && bufs[k].blockno == m;
      assert bufs[i := b][k].dirty && bufs[i := b][k].blockno == m;
    }
  }

  /** The holder makes its data the last value of its block, in the cache only or on disk as well. */
  lemma {:induction false} CoherentWrite(bufs: seq<Buf>, notes: seq<Note>, disk: seq<Block>, latest: seq<Block>,
                                         i: nat, b: Buf, n: Note, through: bool)
    requires Coherent(bufs, notes, disk, latest) && Keys(bufs, notes) && Counts(bufs, notes)
    requires i < |bufs| && bufs[i].valid
    requires b == bufs[i].(dirty := !through) && n == notes[i].(editing := false)
    ensures bufs[i].blockno < |disk| == |latest|
    ensures Coherent(bufs[i := b], notes[i := n],
                     if through then disk[b.blockno := b.data] else disk, latest[b.blockno := b.data])
  {
    var bs, ns, l := bufs[i := b], notes[i := n], latest[b.blockno := b.data];
    var d := if through then disk[b.blockno := b.data] else disk;
    forall k | 0 <= k < |bs| && bs[k].valid
      ensures bs[k].blockno < |d| && (ns[k].editing || bs[k].data == l[bs[k].blockno])
    {
      if k != i { OneBuffer(bufs, notes, i, k); }
    }
    forall m | 0 <= m < |d| && d[m] != l[m]
      ensures CachedDirty(bs, m)
    {
      if m == b.blockno {
        assert bs[i].dirty && bs[i].blockno == m;
      } else {
        var k :| 0 <= k < |bufs| && bufs[k].dirty && bufs[k].blockno == m;
        assert bs[k].dirty && bs[k].blockno == m;
      }
    }
  }

  /** A block has one valid buffer at most. */
  lemma {:induction false} OneBuffer(bufs: seq<Buf>, notes: seq<Note>, i: nat, j: nat)
    requires Keys(bufs, notes) && Counts(bufs, notes) && i < |bufs| && j < |bufs| && i != j && bufs[i].valid
             && bufs[j].valid
    ensures bufs[i].blockno != bufs[j].blockno
  {
    assert Counted(bufs[i], notes[i]) && Counted(bufs[j], notes[j]);
    assert i < j || j < i;
  }

  /** Keys survive changes that keep the key, the history and the stamp. */
  lemma {:induction false} KeysAt(bufs: seq<Buf>, notes: seq<Note>, i: nat, b: Buf, n: Note)
    requires Keys(bufs, notes) && i < |bufs| && notes[i].handed && n.handed && n.stamp >= notes[i].stamp
    requires HasKey(b, bufs[i].dev, bufs[i].blockno)
    ensures Keys(bufs[i := b], notes[i := n])
  {
  }

  /** A buffer is handed out under a key: the first in the ring that has it, or one recycled for it. */
  lemma {:induction false} KeysHanded(bufs: seq<Buf>, notes: seq<Note>, i: nat, b: Buf, n: Note)
    requires Keys(bufs, notes) && i < |bufs| && n.handed && n.stamp == notes[i].stamp
    requires forall j | 0 <= j < |bufs| && j != i && HasKey(bufs[j], b.dev, b.blockno) ::
               !notes[j].handed && notes[j].stamp < n.stamp
    ensures Keys(bufs[i := b], notes[i := n])
  {
    var bs, ns := bufs[i := b], notes[i := n];
    forall j, k | 0 <= j < k < |bs| && ns[j].handed && ns[k].handed
      ensures !HasKey(bs[j], bs[k].dev, bs[k].blockno)
    {
      if j != i && k != i {
        assert notes[j].handed && notes[k].handed;
      }
    }
    forall j, k | 0 <= j < |bs| && 0 <= k < |bs| && ns[j].handed && !ns[k].handed && HasKey(bs[j], 0, 0)
      ensures ns[j].stamp > ns[k].stamp
    {
      assert k != i && Blank(bufs[k]);
      if j == i { assert HasKey(bufs[k], b.dev, b.blockno); }
    }
  }

  lemma {:induction false} CountsAt(bufs: seq<Buf>, notes: seq<Note>, i: nat, b: Buf, n: Note)
    requires Counts(bufs, notes) && i < |bufs| && Counted(b, n)
    ensures Counts(bufs[i := b], notes[i := n])
  {
  }

  lemma {:induction false} OrderedAt(m: nat, g: Ghost, i: nat, n: Note)
    requires Ordered(m, g) && i < m && n.stamp == g.notes[i].stamp
    ensures Ordered(m, g.(notes := g.notes[i := n]))
  {
  }

  /** The last user's release moves the buffer to the front with the latest stamp. */
  lemma {:induction false} OrderedMoved(m: nat, g: Ghost, p: nat, n: Note)
    requires Ordered(m, g) && Listed(m, g.order, m + 1) && p < |g.order| && n.stamp == g.clock
    ensures Ordered(m, g.(order := [g.order[p]] + Without(g.order, p), notes := g.notes[g.order[p] := n],
                          clock := g.clock + 1))
  {
    var b, o := g.order[p], Without(g.order, p);
    var order, notes := [b] + o, g.notes[b := n];
    assert |g.notes| == m && b < m;
    forall i: nat | i < m
      ensures i in order
    {
      var k := Place(m, g, i);
      StillIn(g.order, p, k);
    }
    forall k | 0 <= k < |order|
      ensures order[k] < m && notes[order[k]].stamp < g.clock + 1
    {
      MovedAt(m, g, p, k);
    }
    forall k, l | 0 <= k < l < |order|
      ensures notes[order[k]].stamp > notes[order[l]].stamp
    {
      MovedAt(m, g, p, k);
      MovedAt(m, g, p, l);
      if k > 0 { Older(m, g, if k <= p then k - 1 else k, if l <= p then l - 1 else l); }
    }
    hide Ordered;
  }

  lemma {:induction false} StillIn(order: seq<nat>, p: nat, k: nat)
    requires p < |order| && k < |order|
    ensures order[k] in [order[p]] + Without(order, p)
  {
    var l: nat := if k < p then k + 1 else if k == p then 0 else k;
    assert ([order[p]] + Without(order, p))[l] == order[k];
  }

  lemma {:induction false} Older(n: nat, g: Ghost, k: nat, l: nat)
    requires Ordered(n, g) && k < l < |g.order|
    ensures |g.notes| == n && g.order[k] < n && g.order[l] < n
    ensures g.notes[g.order[l]].stamp < g.notes[g.order[k]].stamp
  {
  }

  /** The buffer at place k after the move, and its stamp. */
  lemma {:induction false} MovedAt(m: nat, g: Ghost, p: nat, k: nat)
    requires Ordered(m, g) && Listed(m, g.order, m + 1) && p < |g.order| && k < |g.order|
    ensures var order := [g.order[p]] + Without(g.order, p);
            && |order| == |g.order| && order[k] < m
            && (k == 0 ==> order[k] == g.order[p])
            && (k > 0 ==> order[k] == g.order[if k <= p then k - 1 else k] && order[k] != g.order[p]
                          && g.notes[order[k]].stamp < g.clock)
  {
    var q: nat := if k == 0 then p else if k <= p then k - 1 else k;
    assert ([g.order[p]] + Without(g.order, p))[k] == g.order[q];
    assert g.order[q] < m;
    assert k > 0 ==> q < p || p < q;
  }

  ghost predicate Inv(bufs: seq<Buf>, next: seq<nat>, prev: seq<nat>, disk: seq<Block>, g: Ghost) {
    && |next| == |bufs| + 1 && Ring(next, prev, |bufs|, g.order) && Ordered(|bufs|, g)
    && Keys(bufs, g.notes) && Counts(bufs, g.notes) && Coherent(bufs, g.notes, disk, g.latest)
  }

  lemma {:induction false} Parts(bufs: seq<Buf>, next: seq<nat>, prev: seq<nat>, disk: seq<Block>, g: Ghost)
    requires Inv(bufs, next, prev, disk, g)
    ensures |prev| == |next| == |bufs| + 1 && |g.notes| == |bufs|
    ensures Ring(next, prev, |bufs|, g.order) && Ordered(|bufs|, g)
  {
  }

  /** One buffer changes without moving in the ring. */
  ghost predicate Changed(bufs: seq<Buf>, g: Ghost, bufs': seq<Buf>, g': Ghost, i: nat) {
    && i < |bufs| == |bufs'| && |g.notes| == |bufs|
    && bufs' == bufs[i := bufs'[i]] && g'.order == g.order && g'.clock == g.clock
    && |g'.notes| == |bufs| && g'.notes == g.notes[i := g'.notes[i]] && g'.notes[i].stamp == g.notes[i].stamp
  }

  lemma {:induction false} ChangedInv(bufs: seq<Buf>, next: seq<nat>, prev: seq<nat>, disk: seq<Block>, g: Ghost,
                                      bufs': seq<Buf>, disk': seq<Block>, g': Ghost, i: nat)
    requires Inv(bufs, next, prev, disk, g) && Changed(bufs, g, bufs', g', i)
    requires Keys(bufs', g'.notes) && Counted(bufs'[i], g'.notes[i]) && Coherent(bufs', g'.notes, disk', g'.latest)
    ensures Inv(bufs', next, prev, disk', g')
  {
    hide Ring, Keys, Coherent;
    OrderedAt(|bufs|, g, i, g'.notes[i]);
    CountsAt(bufs, g.notes, i, bufs'[i], g'.notes[i]);
    OrderedSame(|bufs|, g.(notes := g'.notes), g');
    hide Ordered, Counts;
  }

  lemma OrderedSame(m: nat, g: Ghost, g': Ghost)
    requires Ordered(m, g) && g'.order == g.order && g'.notes == g.notes && g'.clock == g.clock
    ensures Ordered(m, g')
  {
  }

  /** Buffer i already cached the block, and now has one more process waiting for it. */
  ghost predicate Hit(bufs: seq<Buf>, g: Ghost, bufs': seq<Buf>, g': Ghost, i: nat, dev: nat, blockno: nat) {
    && Changed(bufs, g, bufs', g', i) && HasKey(bufs[i], dev, blockno)
    && bufs'[i] == bufs[i].(refcnt := bufs[i].refcnt + 1)
    && g'.notes[i] == g.notes[i].(handed := true, waiting := g.notes[i].waiting + 1)
  }

  /**
   No buffer cached the block; buffer i, which was unreferenced and clean and of those the one released
   longest ago, now stands for it.
   */
  ghost predicate Recycled(bufs: seq<Buf>, g: Ghost, bufs': seq<Buf>, g': Ghost, i: nat, dev: nat, blockno: nat) {
    && Changed(bufs, g, bufs', g', i) && HasKey(bufs'[i], dev, blockno) && Idle(bufs[i])
    && (forall j | 0 <= j < |bufs| :: !HasKey(bufs[j], dev, blockno))
    && (forall j | 0 <= j < |bufs| && Idle(bufs[j]) :: g.notes[i].stamp <= g.notes[j].stamp)
    && bufs'[i] == bufs[i].(dev := dev, blockno := blockno, valid := false, dirty := false, refcnt := 1)
    && g'.notes[i] == g.notes[i].(handed := true, waiting := g.notes[i].waiting + 1)
  }

  class Bcache {
    var bufs: seq<Buf>
    var next: seq<nat>
    var prev: seq<nat>
    var disk: seq<Block>
    ghost var g: Ghost

    ghost predicate Valid()
      reads this
    {
      Inv(bufs, next, prev, disk, g)
    }

    /** `bget` under bcache.lock: the buffer that caches the block, or the least recently released one that is free. */
    method Bget(dev: nat, blockno: nat) returns (r: Option<nat>)
      requires Valid()
      modifies `bufs, `g
      ensures Valid() && g.latest == old(g.latest)
      ensures r == None ==> bufs == old(bufs) && g == old(g)
                            && forall j | 0 <= j < |bufs| :: !Idle(bufs[j]) && !HasKey(bufs[j], dev, blockno)
      ensures r.Some? ==> Hit(old(bufs), old(g), bufs, g, r.value, dev, blockno)
                          || Recycled(old(bufs), old(g), bufs, g, r.value, dev, blockno)
    {
      hide Inv, Hit, Recycled;
      r := Find(dev, blockno);
      if r.Some? {
        Refer(r.value, dev, blockno);
        return;
      }
      r := Victim();
      if r.Some? {
        Recycle(r.value, dev, blockno);
      }
    }

    method Refer(i: nat, dev: nat, blockno: nat)
      requires Valid() && i < |bufs| == |g.notes| && HasKey(bufs[i], dev, blockno)
      requires forall j | 0 <= j < |bufs| && HasKey(bufs[j], dev, blockno) :: g.notes[j].stamp <= g.notes[i].stamp
      modifies `bufs, `g
      ensures Valid() && g.latest == old(g.latest) && Hit(old(bufs), old(g), bufs, g, i, dev, blockno)
    {
      hide Inv;
      HitInv(bufs, next, prev, disk, g, i, dev, blockno);
      bufs := bufs[i := bufs[i].(refcnt := bufs[i].refcnt + 1)];
      g := g.(notes := g.notes[i := g.notes[i].(handed := true, waiting := g.notes[i].waiting + 1)]);
    }

    method Recycle(i: nat, dev: nat, blockno: nat)
      requires Valid() && i < |bufs| == |g.notes| && Idle(bufs[i])
      requires forall j | 0 <= j < |bufs| :: !HasKey(bufs[j], dev, blockno)
      requires forall j | 0 <= j < |bufs| && Idle(bufs[j]) :: g.notes[i].stamp <= g.notes[j].stamp
      modifies `bufs, `g
      ensures Valid() && g.latest == old(g.latest) && Recycled(old(bufs), old(g), bufs, g, i, dev, blockno)
    {
      hide Inv;
      RecycledInv(bufs, next, prev, disk, g, i, dev, blockno);
      bufs := bufs[i := bufs[i].(dev := dev, blockno := blockno, valid := false, dirty := false, refcnt := 1)];
      g := g.(notes := g.notes[i := g.notes[i].(handed := true, waiting := g.notes[i].waiting + 1)]);
    }

    /** The first loop of bget: from the front, the first buffer with the key. */
    method Find(dev: nat, blockno: nat) returns (r: Option<nat>)
      requires Valid()
      ensures r == None ==> forall j | 0 <= j < |bufs| :: !HasKey(bufs[j], dev, blockno)
      ensures r.Some? ==> r.value < |bufs| && |g.notes| == |bufs| && HasKey(bufs[r.value], dev, blockno)
      ensures r.Some? ==> forall j | 0 <= j < |bufs| && HasKey(bufs[j], dev, blockno) ::
                g.notes[j].stamp <= g.notes[r.value].stamp
    {
      hide Inv, Ordered, Ring;
      Parts(bufs, next, prev, disk, g);
      ghost var k: nat := 0;
      var h := |bufs|;
      LinksAt(next, prev, h, g.order, 0);
      var b := next[h];
      while b != h
        invariant 0 <= k <= |g.order| && b == Node(h, g.order, k + 1)
        invariant forall l: nat | l < k && g.order[l] < h :: !HasKey(bufs[g.order[l]], dev, blockno)
        decreases |g.order| - k
      {
        LinksAt(next, prev, h, g.order, k + 1);
        assert k < |g.order| && b == g.order[k] && b < h;
        if bufs[b].dev == dev && bufs[b].blockno == blockno {
          forall j: nat | j < |bufs| && HasKey(bufs[j], dev, blockno)
            ensures g.notes[j].stamp <= g.notes[b].stamp
          {
            var l := Place(|bufs|, g, j);
            Later(|bufs|, g, k, l);
          }
          return Some(b);
        }
        b := next[b];
        k := k + 1;
      }
      Rounded(next, prev, h, g.order, k);
      forall j: nat | j < |bufs|
        ensures !HasKey(bufs[j], dev, blockno)
      {
        var l := Place(|bufs|, g, j);
      }
      r := None;
    }

    /** The second loop of bget: from the back, the first buffer that may be recycled. */
    method Victim() returns (r: Option<nat>)
      requires Valid()
      ensures r == None ==> forall j | 0 <= j < |bufs| :: !Idle(bufs[j])
      ensures r.Some? ==> r.value < |bufs| && |g.notes| == |bufs| && Idle(bufs[r.value])
      ensures r.Some? ==> forall j | 0 <= j < |bufs| && Idle(bufs[j]) :: g.notes[r.value].stamp <= g.notes[j].stamp
    {
      hide Inv, Ordered, Ring;
      Parts(bufs, next, prev, disk, g);
      var h := |bufs|;
      ghost var k: nat := |g.order|;
      LinksAt(next, prev, h, g.order, |g.order|);
      var b := prev[h];
      while b != h
        invariant k <= |g.order| && b == Node(h, g.order, k)
        invariant forall l: nat | k <= l < |g.order| && g.order[l] < h :: !Idle(bufs[g.order[l]])
        decreases k
      {
        assert k >= 1 && b == g.order[k - 1];
        LinksAt(next, prev, h, g.order, k - 1);
        assert b < h;
        if bufs[b].refcnt == 0 && !bufs[b].dirty {
          forall j: nat | j < |bufs| && Idle(bufs[j])
            ensures g.notes[b].stamp <= g.notes[j].stamp
          {
            var l := Place(|bufs|, g, j);
            Later(|bufs|, g, l, k - 1);
          }
          return Some(b);
        }
        b := prev[b];
        k := k - 1;
      }
      RoundedBack(next, prev, h, g.order, k);
      forall j: nat | j < |bufs|
        ensures !Idle(bufs[j])
      {
        var l := Place(|bufs|, g, j);
      }
      r := None;
    }

    /** `binit`: every buffer is linked in at the front, one after the other. */
    constructor (n: nat, blocks: seq<Block>)
      ensures Valid() && |bufs| == n && disk == blocks && g.latest == blocks
      ensures forall i | 0 <= i < n :: Blank(bufs[i])
    {
      var nx: seq<nat> := seq(n + 1, i => n);
      var pv: seq<nat> := seq(n + 1, i => n);
      ghost var order: seq<nat> := [];
      var b: nat := 0;
      while b < n
        invariant b <= n && |nx| == |pv| == n + 1
        invariant Ring(nx, pv, n, order) && |order| == b
        invariant forall k | 0 <= k < b :: order[k] == b - 1 - k
      {
        Inserted(nx, pv, n, order, b);
        nx := nx[b := nx[n]];
        pv := pv[b := n];
        pv := pv[nx[n] := b];
        nx := nx[n := b];
        order := [b] + order;
        b := b + 1;
      }
      bufs := seq(n, i => Buf(0, 0, false, false, 0, false, []));
      next, prev, disk := nx, pv, blocks;
      g := Ghost(order, seq(n, i requires 0 <= i < n => Note(false, false, 0, 0, i)), n, blocks);
      forall i: nat | i < n
        ensures i in order
      {
        assert order[n - 1 - i] == i;
      }
      hide Ring;
    }

    /** `acquiresleep` of a process that came through bget. */
    method Lock(i: nat)
      requires Valid() && i < |bufs| == |g.notes| && g.notes[i].waiting > 0 && !bufs[i].locked
      modifies `bufs, `g
      ensures Valid() && g.latest == old(g.latest) && Changed(old(bufs), old(g), bufs, g, i)
      ensures bufs[i] == old(bufs)[i].(locked := true)
      ensures g.notes[i] == old(g).notes[i].(waiting := old(g).notes[i].waiting - 1)
    {
      hide Inv;
      var b := bufs[i].(locked := true);
      ghost var n := g.notes[i].(waiting := g.notes[i].waiting - 1);
      ValidBuffer(bufs, next, prev, disk, g, i);
      EntryInv(bufs, next, prev, disk, g, i, b, n);
      bufs := bufs[i := b];
      g := g.(notes := g.notes[i := n]);
    }

    /** The rest of `bread`, by the holder: afterwards the buffer has the last value written to its block. */
    method Fill(i: nat)
      requires Valid() && i < |bufs| == |g.notes| && bufs[i].locked && !g.notes[i].editing
      requires !bufs[i].valid ==> bufs[i].dev == 1 && bufs[i].blockno < |disk|
      modifies `bufs
      ensures Valid() && Changed(old(bufs), g, bufs, g, i)
      ensures bufs[i] == old(bufs)[i].(valid := true, data := bufs[i].data)
      ensures bufs[i].dev == 1 && bufs[i].blockno < |g.latest| && bufs[i].data == g.latest[bufs[i].blockno]
    {
      hide Inv;
      ValidBuffer(bufs, next, prev, disk, g, i);
      if !bufs[i].valid {
        var b := bufs[i].(data := disk[bufs[i].blockno], valid := true);
        OnDisk(bufs, next, prev, disk, g, i);
        EntryInv(bufs, next, prev, disk, g, i, b, g.notes[i]);
        assert g.notes[i := g.notes[i]] == g.notes && g.(notes := g.notes) == g;
        bufs := bufs[i := b];
      } else {
        assert bufs[i := bufs[i]] == bufs && g.notes[i := g.notes[i]] == g.notes;
      }
    }

    /** `bread` of a block nobody holds: it has the last value written, whether from the cache or from disk. */
    method Bread(blockno: nat) returns (r: Option<nat>)
      requires Valid() && blockno < |disk|
      requires forall j | 0 <= j < |bufs| && HasKey(bufs[j], 1, blockno) :: !bufs[j].locked
      modifies `bufs, `g
      ensures Valid() && g.latest == old(g.latest)
      ensures r == None ==> bufs == old(bufs) && g == old(g) && forall j | 0 <= j < |bufs| :: !Idle(bufs[j])
      ensures r.Some? ==> r.value < |bufs| && bufs[r.value].locked && bufs[r.value].valid
                          && HasKey(bufs[r.value], 1, blockno)
      ensures r.Some? ==> blockno < |g.latest| && bufs[r.value].data == g.latest[blockno]
    {
      hide Inv;
      Parts(bufs, next, prev, disk, g);
      forall j: nat | j < |bufs| ensures Counted(bufs[j], g.notes[j]) {
        ValidBuffer(bufs, next, prev, disk, g, j);
      }
      r := Bget(1, blockno);
      if r.Some? {
        Lock(r.value);
        Fill(r.value);
      }
    }

    /** The holder changes the data. */
    method Edit(i: nat, data: Block)
      requires Valid() && i < |bufs| == |g.notes| && bufs[i].locked && bufs[i].valid
      modifies `bufs, `g
      ensures Valid() && g.latest == old(g.latest) && Changed(old(bufs), old(g), bufs, g, i)
      ensures bufs[i] == old(bufs)[i].(data := data) && g.notes[i] == old(g).notes[i].(editing := true)
    {
      hide Inv;
      var b := bufs[i].(data := data);
      ghost var n := g.notes[i].(editing := true);
      ValidBuffer(bufs, next, prev, disk, g, i);
      EntryInv(bufs, next, prev, disk, g, i, b, n);
      bufs := bufs[i := b];
      g := g.(notes := g.notes[i := n]);
    }

    /** What `log_write` does to the buffer: it is pinned as dirty, and its data is the block's value from now on. */
    method Pin(i: nat)
      requires Valid() && i < |bufs| == |g.notes| && bufs[i].locked && bufs[i].valid
      modifies `bufs, `g
      ensures Valid() && Changed(old(bufs), old(g), bufs, g, i)
      ensures bufs[i] == old(bufs)[i].(dirty := true) && g.notes[i] == old(g).notes[i].(editing := false)
      ensures bufs[i].blockno < |old(g).latest| && g.latest == old(g).latest[bufs[i].blockno := bufs[i].data]
    {
      hide Inv;
      WriteInv(bufs, next, prev, disk, g, i, false);
      var b := bufs[i].(dirty := true);
      bufs := bufs[i := b];
      g := g.(notes := g.notes[i := g.notes[i].(editing := false)], latest := g.latest[b.blockno := b.data]);
    }

    /** `bwrite`: the data goes to disk and the buffer is clean. */
    method Bwrite(i: nat)
      requires Valid() && i < |bufs| == |g.notes| && bufs[i].locked && bufs[i].valid
      modifies `bufs, `g, `disk
      ensures Valid() && Changed(old(bufs), old(g), bufs, g, i)
      ensures bufs[i] == old(bufs)[i].(dirty := false) && g.notes[i] == old(g).notes[i].(editing := false)
      ensures bufs[i].blockno < |old(disk)| == |old(g).latest|
      ensures disk == old(disk)[bufs[i].blockno := bufs[i].data]
              && g.latest == old(g).latest[bufs[i].blockno := bufs[i].data]
    {
      hide Inv;
      WriteInv(bufs, next, prev, disk, g, i, true);
      ghost var before := bufs;
      bufs := bufs[i := bufs[i].(dirty := true)];
      var b := bufs[i].(dirty := false, valid := true);
      disk := disk[b.blockno := b.data];
      bufs := bufs[i := b];
      assert bufs == before[i := before[i].(dirty := false)];
      g := g.(notes := g.notes[i := g.notes[i].(editing := false)], latest := g.latest[b.blockno := b.data]);
    }

    /** The first half of `brelse`: releasesleep, after every change was written. */
    method Unlock(i: nat)
      requires Valid() && i < |bufs| == |g.notes| && bufs[i].locked && !g.notes[i].editing
      modifies `bufs, `g
      ensures Valid() && g.latest == old(g.latest) && Changed(old(bufs), old(g), bufs, g, i)
      ensures bufs[i] == old(bufs)[i].(locked := false)
      ensures g.notes[i] == old(g).notes[i].(leaving := old(g).notes[i].leaving + 1)
    {
      hide Inv;
      var b := bufs[i].(locked := false);
      ghost var n := g.notes[i].(leaving := g.notes[i].leaving + 1);
      ValidBuffer(bufs, next, prev, disk, g, i);
      EntryInv(bufs, next, prev, disk, g, i, b, n);
      bufs := bufs[i := b];
      g := g.(notes := g.notes[i := n]);
    }

    /** The second half of `brelse`, under bcache.lock: the last user's buffer goes to the front of the ring. */
    method Unref(i: nat)
      requires Valid() && i < |bufs| == |g.notes| && g.notes[i].leaving > 0
      modifies `bufs, `g, `next, `prev
      ensures Valid() && g.latest == old(g.latest) && |g.notes| == |bufs| == |old(bufs)|
      ensures bufs[i].refcnt == old(bufs)[i].refcnt - 1
      ensures bufs == old(bufs)[i := old(bufs)[i].(refcnt := bufs[i].refcnt)]
      ensures bufs[i].refcnt > 0 ==> Changed(old(bufs), old(g), bufs, g, i) && next == old(next) && prev == old(prev)
      ensures bufs[i].refcnt == 0 ==> g.notes[i].stamp == old(g).clock
      ensures forall j | 0 <= j < |bufs| && j != i :: g.notes[j] == old(g).notes[j]
    {
      hide Inv, Ring, Ordered;
      Parts(bufs, next, prev, disk, g);
      ValidBuffer(bufs, next, prev, disk, g, i);
      var b := bufs[i].(refcnt := bufs[i].refcnt - 1);
      ghost var n := g.notes[i].(leaving := g.notes[i].leaving - 1);
      EntryInv(bufs, next, prev, disk, g, i, b, n);
      bufs := bufs[i := b];
      g := g.(notes := g.notes[i := n]);
      if bufs[i].refcnt == 0 {
        ToFront(i);
      }
    }

    method ToFront(i: nat)
      requires Valid() && i < |bufs| == |g.notes| && g.notes[i].handed
      modifies `g, `next, `prev
      ensures Valid() && g.latest == old(g.latest) && |old(g).notes| == |bufs|
      ensures g.notes == old(g).notes[i := old(g).notes[i].(stamp := old(g).clock)]
    {
      hide Inv, Ring, Ordered;
      Parts(bufs, next, prev, disk, g);
      ghost var p := Place(|bufs|, g, i);
      var h := |bufs|;
      MovedInv(bufs, next, prev, disk, g, p);
      Unlinked(next, prev, h, g.order, p);
      ghost var n0, p0 := next, prev;
      prev := prev[next[i] := prev[i]];
      next := next[prev[i] := next[i]];
      assert next == n0[p0[i] := n0[i]] && prev == p0[n0[i] := p0[i]];
      next := next[i := next[h]];
      prev := prev[i := h];
      prev := prev[next[h] := i];
      next := next[h := i];
      g := g.(order := [i] + Without(g.order, p), notes := g.notes[i := g.notes[i].(stamp := g.clock)],
              clock := g.clock + 1);
    }
  }

  /** Every buffer has a place in the ring. */
  lemma {:induction false} Place(n: nat, g: Ghost, j: nat) returns (l: nat)
    requires Ordered(n, g) && j < n
    ensures l < |g.order| && g.order[l] == j && |g.notes| == n
  {
    assert j in g.order;
    l :| l < |g.order| && g.order[l] == j;
  }

  /** Further back is older. */
  lemma {:induction false} Later(n: nat, g: Ghost, k: nat, l: nat)
    requires Ordered(n, g) && k <= l < |g.order|
    ensures |g.notes| == n && g.order[k] < n && g.order[l] < n
    ensures g.notes[g.order[l]].stamp <= g.notes[g.order[k]].stamp
  {
  }

  /** The walk is back at the head only after the last node. */
  lemma {:induction false} Rounded(next: seq<nat>, prev: seq<nat>, h: nat, order: seq<nat>, k: nat)
    requires Ring(next, prev, h, order) && k <= |order| && Node(h, order, k + 1) == h
    ensures k == |order|
  {
  }

  lemma {:induction false} RoundedBack(next: seq<nat>, prev: seq<nat>, h: nat, order: seq<nat>, k: nat)
    requires Ring(next, prev, h, order) && k <= |order| && Node(h, order, k) == h
    ensures k == 0
  {
  }

  lemma {:induction false} HitInv(bufs: seq<Buf>, next: seq<nat>, prev: seq<nat>, disk: seq<Block>, g: Ghost, i: nat,
                                  dev: nat, blockno: nat)
    requires Inv(bufs, next, prev, disk, g) && i < |bufs| && HasKey(bufs[i], dev, blockno)
    requires |g.notes| == |bufs|
    requires forall j | 0 <= j < |bufs| && HasKey(bufs[j], dev, blockno) :: g.notes[j].stamp <= g.notes[i].stamp
    ensures Inv(bufs[i := bufs[i].(refcnt := bufs[i].refcnt + 1)], next, prev, disk,
                g.(notes := g.notes[i := g.notes[i].(handed := true, waiting := g.notes[i].waiting + 1)]))
  {
    var b, n := bufs[i].(refcnt := bufs[i].refcnt + 1), g.notes[i].(handed := true, waiting := g.notes[i].waiting + 1);
    assert Counted(bufs[i], g.notes[i]);
    forall j | 0 <= j < |bufs| && j != i && HasKey(bufs[j], dev, blockno)
      ensures !g.notes[j].handed && g.notes[j].stamp < n.stamp
    {
      FirstOfKey(bufs, next, prev, disk, g, i, j);
    }
    KeysHanded(bufs, g.notes, i, b, n);
    CoherentAt(bufs, g.notes, disk, g.latest, i, b, n);
    ChangedInv(bufs, next, prev, disk, g, bufs[i := b], disk, g.(notes := g.notes[i := n]), i);
    hide Inv;
  }

  /** Of two buffers with the same key only the one nearer to the front can have been handed out. */
  lemma {:induction false} FirstOfKey(bufs: seq<Buf>, next: seq<nat>, prev: seq<nat>, disk: seq<Block>, g: Ghost,
                                      i: nat, j: nat)
    requires Inv(bufs, next, prev, disk, g) && i < |bufs| && j < |bufs| && i != j && |g.notes| == |bufs|
    requires HasKey(bufs[j], bufs[i].dev, bufs[i].blockno) && g.notes[j].stamp <= g.notes[i].stamp
    ensures !g.notes[j].handed && g.notes[j].stamp < g.notes[i].stamp
  {
    assert i < j || j < i;
    assert !g.notes[i].handed ==> Blank(bufs[i]);
    hide Coherent, Counts;
    assert i in g.order && j in g.order;
    var k :| 0 <= k < |g.order| && g.order[k] == i;
    var l :| 0 <= l < |g.order| && g.order[l] == j;
    assert k < l || l < k;
    hide Ring, Keys;
  }

  lemma {:induction false} RecycledInv(bufs: seq<Buf>, next: seq<nat>, prev: seq<nat>, disk: seq<Block>, g: Ghost,
                                       i: nat, dev: nat, blockno: nat)
    requires Inv(bufs, next, prev, disk, g) && i < |bufs| && Idle(bufs[i]) && |g.notes| == |bufs|
    requires forall j | 0 <= j < |bufs| :: !HasKey(bufs[j], dev, blockno)
    ensures Inv(bufs[i := bufs[i].(dev := dev, blockno := blockno, valid := false, dirty := false, refcnt := 1)],
                next, prev, disk,
                g.(notes := g.notes[i := g.notes[i].(handed := true, waiting := g.notes[i].waiting + 1)]))
  {
    var b := bufs[i].(dev := dev, blockno := blockno, valid := false, dirty := false, refcnt := 1);
    var n := g.notes[i].(handed := true, waiting := g.notes[i].waiting + 1);
    assert Counted(bufs[i], g.notes[i]);
    KeysHanded(bufs, g.notes, i, b, n);
    CoherentAt(bufs, g.notes, disk, g.latest, i, b, n);
    ChangedInv(bufs, next, prev, disk, g, bufs[i := b], disk, g.(notes := g.notes[i := n]), i);
    hide Inv;
  }

  /** A buffer gets its new entry and note; its key, and whether it is dirty, stay. */
  lemma {:induction false} EntryInv(bufs: seq<Buf>, next: seq<nat>, prev: seq<nat>, disk: seq<Block>, g: Ghost,
                                    i: nat, b: Buf, n: Note)
    requires Inv(bufs, next, prev, disk, g) && i < |bufs| == |g.notes|
    requires g.notes[i].handed && n.handed && n.stamp == g.notes[i].stamp && HasKey(b, bufs[i].dev, bufs[i].blockno)
    requires b.dirty == bufs[i].dirty && Counted(b, n)
    requires b.valid ==> b.blockno < |disk| == |g.latest| && (n.editing || b.data == g.latest[b.blockno])
    ensures Inv(bufs[i := b], next, prev, disk, g.(notes := g.notes[i := n]))
  {
    KeysAt(bufs, g.notes, i, b, n);
    CoherentAt(bufs, g.notes, disk, g.latest, i, b, n);
    ChangedInv(bufs, next, prev, disk, g, bufs[i := b], disk, g.(notes := g.notes[i := n]), i);
    hide Inv;
  }

  /** What the invariant says of one buffer. */
  lemma {:induction false} ValidBuffer(bufs: seq<Buf>, next: seq<nat>, prev: seq<nat>, disk: seq<Block>, g: Ghost,
                                       i: nat)
    requires Inv(bufs, next, prev, disk, g) && i < |bufs| == |g.notes|
    ensures Counted(bufs[i], g.notes[i]) && |disk| == |g.latest|
    ensures bufs[i].refcnt > 0 ==> g.notes[i].handed
    ensures bufs[i].valid ==> bufs[i].blockno < |disk|
                              && (g.notes[i].editing || bufs[i].data == g.latest[bufs[i].blockno])
  {
    assert !g.notes[i].handed ==> Blank(bufs[i]);
  }

  /** The block of a buffer that is not valid has its last value on disk. */
  lemma {:induction false} OnDisk(bufs: seq<Buf>, next: seq<nat>, prev: seq<nat>, disk: seq<Block>, g: Ghost, i: nat)
    requires Inv(bufs, next, prev, disk, g) && i < |bufs| == |g.notes| && g.notes[i].handed
    requires !bufs[i].valid && bufs[i].dev == 1 && bufs[i].blockno < |disk|
    ensures |disk| == |g.latest| && disk[bufs[i].blockno] == g.latest[bufs[i].blockno]
  {
    var m := bufs[i].blockno;
    forall k: nat | k < |bufs| && bufs[k].dirty
      ensures bufs[k].blockno != m
    {
      assert Counted(bufs[k], g.notes[k]);
      OneKey(bufs, g.notes, i, k);
    }
    assert !CachedDirty(bufs, m);
  }

  /** A block has one handed out buffer at most. */
  lemma {:induction false} OneKey(bufs: seq<Buf>, notes: seq<Note>, i: nat, j: nat)
    requires Keys(bufs, notes) && i < |bufs| && j < |bufs| && i != j && notes[i].handed && notes[j].handed
    ensures !HasKey(bufs[i], bufs[j].dev, bufs[j].blockno)
  {
    assert i < j || j < i;
  }

  lemma {:induction false} WriteInv(bufs: seq<Buf>, next: seq<nat>, prev: seq<nat>, disk: seq<Block>, g: Ghost,
                                    i: nat, through: bool)
    requires Inv(bufs, next, prev, disk, g) && i < |bufs| == |g.notes| && bufs[i].valid
    ensures bufs[i].blockno < |disk| == |g.latest|
    ensures var n, b := bufs[i].blockno, bufs[i].(dirty := !through);
            Inv(bufs[i := b], next, prev, if through then disk[n := b.data] else disk,
                g.(notes := g.notes[i := g.notes[i].(editing := false)], latest := g.latest[n := b.data]))
  {
    ValidBuffer(bufs, next, prev, disk, g, i);
    var b, n := bufs[i].(dirty := !through), g.notes[i].(editing := false);
    KeysAt(bufs, g.notes, i, b, n);
    CoherentWrite(bufs, g.notes, disk, g.latest, i, b, n, through);
    hide Keys, Coherent, Counts, Ring, Ordered;
    ChangedInv(bufs, next, prev, disk, g, bufs[i := b], if through then disk[b.blockno := b.data] else disk,
               g.(notes := g.notes[i := n], latest := g.latest[b.blockno := b.data]), i);
    hide Inv;
  }

  /** The ring after the move to the front. */
  lemma {:induction false} MovedInv(bufs: seq<Buf>, next: seq<nat>, prev: seq<nat>, disk: seq<Block>, g: Ghost, p: nat)
    requires Inv(bufs, next, prev, disk, g) && p < |g.order| && |bufs| == |g.notes| && |next| == |prev| == |bufs| + 1
    requires g.order[p] < |bufs| && g.notes[g.order[p]].handed
    ensures var b, h := g.order[p], |bufs|;
            && prev[b] < |next| && next[b] < |next|
            && var n, r := next[prev[b] := next[b]], prev[next[b] := prev[b]];
            && n[h] < |next|
            && Inv(bufs, n[b := n[h]][h := b], r[b := h][n[h] := b], disk,
                   g.(order := [b] + Without(g.order, p), notes := g.notes[b := g.notes[b].(stamp := g.clock)],
                      clock := g.clock + 1))
  {
    var b, h := g.order[p], |bufs|;
    var note := g.notes[b].(stamp := g.clock);
    Unlinked(next, prev, h, g.order, p);
    ListedWithout(h, g.order, h + 1, p);
    Inserted(next[prev[b] := next[b]], prev[next[b] := prev[b]], h, Without(g.order, p), b);
    Later(h, g, p, p);
    StampBound(h, g, p);
    OrderedMoved(h, g, p, note);
    KeysAt(bufs, g.notes, b, bufs[b], note);
    CountsAt(bufs, g.notes, b, bufs[b], note) by { assert Counted(bufs[b], g.notes[b]); }
    CoherentAt(bufs, g.notes, disk, g.latest, b, bufs[b], note);
    assert bufs[b := bufs[b]] == bufs;
    hide Ring, Ordered, Keys, Counts, Coherent;
  }

  lemma StampBound(n: nat, g: Ghost, p: nat)
    requires Ordered(n, g) && p < |g.order|
    ensures g.order[p] < n == |g.notes| && g.notes[g.order[p]].stamp < g.clock
  {
  }
}
