/**
 src/log.c in its own form: the global `log` with its header array, updated in place by loops that
 write one block at a time. The ghost field `writes` records what the disk sees.
 */
module Logs {
  import opened Disks
  import opened LogFormat

  datatype Outcome = Done | TooBigTransaction | OutsideTransaction | PanicCommitting

  ghost function Overlay(disk: Disk, dirty: map<int, Block>): (v: Disk)
    ensures |v| == |disk|
  {
    seq(|disk|, b requires 0 <= b < |disk| => if b in dirty then dirty[b] else disk[b])
  }

  ghost function Contents(dirty: map<int, Block>, bs: seq<int>): (data: seq<Block>)
    requires forall i | 0 <= i < |bs| :: bs[i] in dirty
    ensures |data| == |bs|
  {
    seq(|bs|, i requires 0 <= i < |bs| => dirty[bs[i]])
  }

  class Log {
    const g: Geometry
    const block: array<int>          // log.lh.block[LOGSIZE]
    var n: nat                       // log.lh.n
    var outstanding: int
    var committing: bool
    var disk: Disk
    var dirty: map<int, Block>       // buffers with B_DIRTY set: newer than the disk, never recycled
    ghost var writes: seq<Write>

    /** What holds whenever no commit or recovery is under way. */
    ghost predicate Valid()
      reads `n, `disk, `dirty, block
    {
      && Listed()
      && GoodHeader(g, disk) && Header(disk[g.start]) == []
      && dirty.Keys == set b | b in block[..n]
    }

    /** The in-memory header lists distinct home blocks. */
    ghost predicate Listed()
      reads `n, `disk, block
    {
      && block.Length == LOGSIZE && n <= LOGSIZE
      && GoodList(g, |disk|, block[..n]) && Distinct(block[..n])
    }

    /** `bread`: the pinned buffer if there is one, the disk block otherwise. */
    function Bread(b: int): Block
      requires 0 <= b < |disk|
      reads `disk, `dirty
    {
      if b in dirty then dirty[b] else disk[b]
    }

    /** The disk as the rest of the kernel sees it. */
    ghost function View(): (v: Disk)
      reads `disk, `dirty
      ensures |v| == |disk|
    {
      Overlay(disk, dirty)
    }

    /** The contents the pinned buffers hold for the listed blocks. */
    ghost function Logged(): (data: seq<Block>)
      requires Valid()
      reads `n, `disk, `dirty, block
      ensures |data| == n
    {
      Contents(dirty, block[..n])
    }

    /** A machine started on a formatted or crashed disk. */
    constructor (start: nat, size: nat, image: Disk)
      requires GoodHeader(Geometry(start, size), image)
      ensures Valid() && fresh(block) && n == 0 && outstanding == 0 && !committing
      ensures g == Geometry(start, size) && dirty == map[]
      ensures disk == Recovered(g, image) && writes == RecoveryWrites(g, image)
    {
      g := Geometry(start, size);
      block := new int[LOGSIZE];
      n, outstanding, committing := 0, 0, false;
      disk, dirty, writes := image, map[], [];
      new;
      RecoverFromLog();
    }

    /** `bwrite`: the buffer goes to disk and B_DIRTY is cleared. */
    method Bwrite(b: int, data: Block)
      requires 0 <= b < |disk|
      modifies `disk, `dirty, `writes
      ensures disk == old(disk)[b := data] && dirty == old(dirty) - {b}
      ensures writes == old(writes) + [Write(b, data)]
    {
      disk := disk[b := data];
      dirty := dirty - {b};
      writes := writes + [Write(b, data)];
    }

    method InstallTrans()
      requires block.Length == LOGSIZE && n <= LOGSIZE && GoodList(g, |disk|, block[..n])
      modifies `disk, `dirty, `writes
      ensures writes == old(writes) + InstallWrites(g, old(disk), block[..n])
      ensures disk == Apply(old(disk), InstallWrites(g, old(disk), block[..n]))
      ensures dirty == old(dirty) - (set b | b in block[..n])
    {
      hide Apply;
      var tail := 0;
      ghost var bs := block[..n];
      ghost var ws := InstallWrites(g, disk, bs);
      PrefixStart(disk, writes, ws);
      while tail < n
        invariant 0 <= tail <= n && block[..n] == bs && |disk| == |old(disk)|
        invariant writes == old(writes) + ws[..tail]
        invariant disk == Apply(old(disk), ws[..tail])
        invariant forall b | g.start <= b < g.start + g.size :: disk[b] == old(disk)[b]
        invariant dirty == old(dirty) - (set b | b in bs[..tail])
      {
        var lbuf := disk[g.start + tail + 1];
        Bwrite(block[tail], lbuf);
        assert bs[tail] == block[tail] && ws[tail] == Write(bs[tail], lbuf);
        PrefixStep(old(disk), old(writes), ws, tail);
        assert bs[..tail + 1] == bs[..tail] + [bs[tail]];
        tail := tail + 1;
      }
      assert ws[..n] == ws && bs[..n] == bs;
    }

    method ReadHead()
      requires block.Length == LOGSIZE && GoodHeader(g, disk)
      modifies `n, block
      ensures n == disk[g.start][0] && block[..n] == Header(disk[g.start])
    {
      var buf := disk[g.start];
      n := buf[0];
      var i := 0;
      while i < n
        invariant 0 <= i <= n && n == buf[0]
        invariant block[..i] == buf[1..1 + i]
      {
        block[i] := buf[1 + i];
        assert block[..i + 1] == block[..i] + [block[i]];
        i := i + 1;
      }
    }

    method WriteHead()
      requires g.Fits(|disk|) && block.Length == LOGSIZE && n <= LOGSIZE
      requires g.start !in dirty
      modifies `disk, `dirty, `writes
      ensures writes == old(writes) + [HeadWrite(g, old(disk), block[..n])]
      ensures disk == Apply(old(disk), [HeadWrite(g, old(disk), block[..n])])
      ensures dirty == old(dirty)
    {
      var buf := disk[g.start];
      var hb := buf[0 := n];
      var i := 0;
      while i < n
        invariant 0 <= i <= n && |hb| == WORDS && hb[0] == n
        invariant forall j | 0 <= j < i :: hb[1 + j] == block[j]
        invariant forall j | 1 + i <= j < WORDS :: hb[j] == buf[j]
      {
        hb := hb[1 + i := block[i]];
        i := i + 1;
      }
      assert hb == [n] + block[..n] + buf[1 + n..];
      Bwrite(g.start, hb);
      ghost var w := HeadWrite(g, old(disk), block[..n]);
      assert Apply(old(disk), [w]) == Apply(old(disk), [])[w.bno := w.data];
    }

    method RecoverFromLog()
      requires block.Length == LOGSIZE && GoodHeader(g, disk) && dirty == map[]
      modifies `n, `disk, `dirty, `writes, block
      ensures Valid() && n == 0 && dirty == map[]
      ensures disk == Recovered(g, old(disk))
      ensures writes == old(writes) + RecoveryWrites(g, old(disk))
    {
      hide Apply;
      ReadHead();
      ghost var bs := Header(disk[g.start]);
      ghost var install := InstallWrites(g, disk, bs);
      InstallTrans();
      n := 0;
      WriteHead();
      ClearedIsRecovered(g, old(disk));
      assert HeadWrite(g, Apply(old(disk), install), []) == HeadWrite(g, old(disk), []) by {
        HomeWritesKeepLog(g, old(disk), install, g.start);
      }
      ApplyConcat(old(disk), install, [HeadWrite(g, old(disk), [])]);
      assert block[..n] == [];
    }

    /** `begin_op`, one pass of its loop: either the operation is admitted or the caller sleeps. */
    method TryBeginOp() returns (admitted: bool)
      modifies `outstanding
      ensures admitted <==> !committing && n + (old(outstanding) + 1) * MAXOPBLOCKS <= LOGSIZE
      ensures outstanding == if admitted then old(outstanding) + 1 else old(outstanding)
    {
      if committing {
        admitted := false;
      } else if n + (outstanding + 1) * MAXOPBLOCKS > LOGSIZE {
        admitted := false;
      } else {
        outstanding := outstanding + 1;
        admitted := true;
      }
    }

    /** `log_write` of a buffer for block b whose contents the caller has set to `data`. */
    method LogWrite(b: int, data: Block) returns (r: Outcome)
      requires Valid() && g.IsHome(|disk|, b)
      modifies `n, `dirty, block
      ensures Valid()
      ensures r == (if old(n) >= g.Capacity() then TooBigTransaction
                    else if outstanding < 1 then OutsideTransaction else Done)
      ensures r != Done ==> n == old(n) && block[..n] == old(block[..n]) && View() == old(View())
      ensures r == Done ==>
                && block[..n] == (if b in old(block[..n]) then old(block[..n]) else old(block[..n]) + [b])
                && dirty == old(dirty)[b := data] && View() == old(View())[b := data]
    {
      if n >= LOGSIZE || n >= g.size - 1 {
        return TooBigTransaction;
      }
      if outstanding < 1 {
        return OutsideTransaction;
      }
      ghost var bs := block[..n];
      var i := 0;
      while i < n && block[i] != b
        invariant 0 <= i <= n && block[..n] == bs && b !in block[..i]
      {
        assert block[..i + 1] == block[..i] + [block[i]];
        i := i + 1;
      }
      block[i] := b;
      if i == n {
        assert bs == block[..n];
        n := n + 1;
        assert block[..n] == bs + [b];
      } else {
        assert block[..n] == bs && bs[i] == b;
      }
      dirty := dirty[b := data];
      r := Done;
    }

    method WriteLog()
      requires Valid()
      modifies `disk, `dirty, `writes
      ensures writes == old(writes) + LogWrites(g, old(Logged()))
      ensures InRange(|old(disk)|, LogWrites(g, old(Logged())))
      ensures disk == Apply(old(disk), LogWrites(g, old(Logged())))
      ensures dirty == old(dirty)
    {
      hide Apply;
      ghost var ws := LogWrites(g, Logged());
      ghost var bs := block[..n];
      PrefixStart(disk, writes, ws);
      var tail := 0;
      while tail < n
        invariant 0 <= tail <= n && |disk| == |old(disk)|
        invariant writes == old(writes) + ws[..tail]
        invariant disk == Apply(old(disk), ws[..tail])
        invariant dirty == old(dirty)
      {
        assert bs[tail] == block[tail] && ws[tail] == Write(g.start + 1 + tail, dirty[bs[tail]]);
        var from := Bread(block[tail]);
        Bwrite(g.start + tail + 1, from);
        PrefixStep(old(disk), old(writes), ws, tail);
        tail := tail + 1;
      }
      assert ws[..n] == ws;
    }

    /**
     `commit`: the disk sees exactly CommitWrites, the pinned buffers are all written and clean, and
     the home blocks on disk are now what the kernel saw before the call.
     */
    method Commit()
      requires Valid()
      modifies `n, `disk, `dirty, `writes
      ensures Valid() && n == 0 && dirty == map[]
      ensures old(n) == 0 ==> disk == old(disk) && writes == old(writes)
      ensures old(n) > 0 ==>
                && writes == old(writes) + CommitWrites(g, old(disk), old(block[..n]), old(Logged()))
                && disk == Apply(old(disk), CommitWrites(g, old(disk), old(block[..n]), old(Logged())))
      ensures Home(g, disk) == Home(g, old(View())) && |disk| == |old(disk)|
    {
      ghost var bs, data, d, w := block[..n], Logged(), disk, writes;
      assert View() == Updated(d, bs, data) by { ViewIsUpdated(); }
      if n > 0 {
        WriteLog();
        assert block[..n] == bs;
        ghost var d1 := disk;
        WriteHead();
        assert block[..n] == bs;
        ghost var d2 := disk;
        InstallTrans();
        ghost var d3 := disk;
        assert dirty == map[];
        n := 0;
        assert block[..n] == [];
        WriteHead();
        CommitSteps(g, d, bs, data, d1, d2, d3);
        CommitFinal(g, d, bs, data);
        assert writes == w + CommitWrites(g, d, bs, data) by {
          Reassociate(w, LogWrites(g, data), [HeadWrite(g, d1, bs)], InstallWrites(g, d2, bs), [HeadWrite(g, d3, [])]);
        }
      }
    }

    static lemma Reassociate(w: seq<Write>, w1: seq<Write>, w2: seq<Write>, w3: seq<Write>, w4: seq<Write>)
      ensures w + w1 + w2 + w3 + w4 == w + (w1 + w2 + w3 + w4)
    {
    }

    /** What the kernel sees is the disk with the listed transaction applied. */
    lemma ViewIsUpdated()
      requires Valid()
      ensures View() == Updated(disk, block[..n], Logged())
    {
      var bs := block[..n];
      var v, u := View(), Updated(disk, bs, Logged());
      forall b | 0 <= b < |disk| ensures v[b] == u[b] {
        if b in bs {
          var i :| 0 <= i < |bs| && bs[i] == b;
          UpdatedAt(disk, bs, Logged(), i);
        }
      }
    }

    /** `end_op`: the last operation out commits. */
    method EndOp() returns (r: Outcome)
      requires Valid()
      modifies `n, `outstanding, `committing, `disk, `dirty, `writes
      ensures r == if old(committing) then PanicCommitting else Done
      ensures outstanding == old(outstanding) - 1 && committing == old(committing)
      ensures Valid()
      ensures r == Done && outstanding == 0 ==> n == 0 && dirty == map[] && Home(g, disk) == Home(g, old(View()))
      ensures r != Done || outstanding != 0 ==>
                n == old(n) && dirty == old(dirty) && disk == old(disk) && writes == old(writes)
    {
      outstanding := outstanding - 1;
      if committing {
        return PanicCommitting;
      }
      var doCommit := false;
      if outstanding == 0 {
        doCommit := true;
        committing := true;
      }
      if doCommit {
        Commit();
        committing := false;
      }
      r := Done;
    }
  }
}
