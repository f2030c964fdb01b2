/**
 The on-disk redo log of src/log.c: its layout, the single-block writes that commit and
 recovery issue, and the proof that every crash point leaves all or nothing of a transaction.
 */
module LogFormat {
  import opened Disks

  const MAXOPBLOCKS: nat := 10
  const LOGSIZE: nat := MAXOPBLOCKS * 3

  /** `sb.logstart` and `sb.nlog`: a header block followed by `size - 1` data blocks. */
  datatype Geometry = Geometry(start: nat, size: nat) {
    predicate InLog(b: int) { start <= b < start + size }

    /** A block outside the log area of a disk of `n` blocks. */
    predicate IsHome(n: nat, b: int) { 0 <= b < n && !InLog(b) }

    predicate Fits(n: nat) { 1 <= size && start + size <= n }

    /** The most blocks one transaction can hold. */
    function Capacity(): nat
      requires 1 <= size
    {
      if LOGSIZE < size - 1 then LOGSIZE else size - 1
    }
  }

  /** Block numbers that may form one transaction: home blocks, no more than the log holds. */
  predicate GoodList(g: Geometry, n: nat, bs: seq<int>) {
    g.Fits(n) && |bs| <= g.Capacity() && forall i | 0 <= i < |bs| :: g.IsHome(n, bs[i])
  }

  predicate Distinct(bs: seq<int>) {
    forall i, j | 0 <= i < j < |bs| :: bs[i] != bs[j]
  }

  /** `struct logheader` laid over a block: word 0 is n, words 1..n the home block numbers. */
  predicate HasHeader(b: Block) { 0 <= b[0] <= LOGSIZE }

  function Header(b: Block): seq<int>
    requires HasHeader(b)
  {
    b[1..1 + b[0]]
  }

  /** `write_head`: n and the first n numbers are stored, the other words stay. */
  function WithHeader(b: Block, bs: seq<int>): (r: Block)
    requires |bs| <= LOGSIZE
    ensures HasHeader(r) && Header(r) == bs
    ensures r[1 + |bs|..] == b[1 + |bs|..]
  {
    [|bs|] + bs + b[1 + |bs|..]
  }

  /** What read_head relies on: the header on disk lists a good transaction. */
  predicate GoodHeader(g: Geometry, d: Disk) {
    g.Fits(|d|) && HasHeader(d[g.start]) && GoodList(g, |d|, Header(d[g.start]))
  }

  function LogWrites(g: Geometry, data: seq<Block>): (ws: seq<Write>)
    ensures |ws| == |data|
  {
    seq(|data|, i requires 0 <= i < |data| => Write(g.start + 1 + i, data[i]))
  }

  function HeadWrite(g: Geometry, d: Disk, bs: seq<int>): Write
    requires g.Fits(|d|) && |bs| <= LOGSIZE
  {
    Write(g.start, WithHeader(d[g.start], bs))
  }

  /** `install_trans`: copy log block i to home block bs[i]. */
  function InstallWrites(g: Geometry, d: Disk, bs: seq<int>): (ws: seq<Write>)
    requires GoodList(g, |d|, bs)
    ensures |ws| == |bs| && InRange(|d|, ws)
  {
    seq(|bs|, i requires 0 <= i < |bs| => Write(bs[i], d[g.start + 1 + i]))
  }

  function RecoveryWrites(g: Geometry, d: Disk): (ws: seq<Write>)
    requires GoodHeader(g, d)
    ensures InRange(|d|, ws)
  {
    InstallWrites(g, d, Header(d[g.start])) + [HeadWrite(g, d, [])]
  }

  function Recovered(g: Geometry, d: Disk): Disk
    requires GoodHeader(g, d)
  {
    Apply(d, RecoveryWrites(g, d))
  }

  /** The home blocks alone: log blocks are blanked, so equality ignores them. */
  function Home(g: Geometry, d: Disk): (h: Disk)
    ensures |h| == |d|
    ensures forall b | 0 <= b < |d| && !g.InLog(b) :: h[b] == d[b]
  {
    var blank: Block := seq(WORDS, _ => 0);
    seq(|d|, b requires 0 <= b < |d| => if g.InLog(b) then blank else d[b])
  }

  lemma HomeEqual(g: Geometry, d: Disk, e: Disk)
    requires |d| == |e|
    requires forall b | 0 <= b < |d| && !g.InLog(b) :: d[b] == e[b]
    ensures Home(g, d) == Home(g, e)
  {
  }

  /** Writes confined to the log area do not show in the home blocks. */
  lemma {:induction false} LogWritesInvisible(g: Geometry, d: Disk, ws: seq<Write>)
    requires InRange(|d|, ws)
    requires forall i | 0 <= i < |ws| :: g.InLog(ws[i].bno)
    ensures Home(g, Apply(d, ws)) == Home(g, d)
  {
    forall b | 0 <= b < |d| && !g.InLog(b) ensures Apply(d, ws)[b] == d[b] {
      ApplyUntouched(d, ws, b);
    }
  }

  /** Writes to home blocks leave the header and the logged copies alone. */
  lemma {:induction false} HomeWritesKeepLog(g: Geometry, d: Disk, ws: seq<Write>, b: nat)
    requires InRange(|d|, ws) && b < |d| && g.InLog(b)
    requires forall i | 0 <= i < |ws| :: !g.InLog(ws[i].bno)
    ensures Apply(d, ws)[b] == d[b]
  {
    ApplyUntouched(d, ws, b);
  }

  /** Repeating an install after any part of it was already done gives the same disk. */
  lemma {:induction false} ReinstallSame(d: Disk, ws: seq<Write>, k: nat)
    requires InRange(|d|, ws) && k <= |ws|
    ensures InRange(|d|, ws[..k])
    ensures Apply(Apply(d, ws[..k]), ws) == Apply(d, ws)
  {
    var e := Apply(d, ws[..k]);
    forall b | 0 <= b < |d| ensures Apply(e, ws)[b] == Apply(d, ws)[b] {
      if !Touches(ws, b) {
        assert forall i | 0 <= i < k :: ws[..k][i] == ws[i];
        ApplyUntouched(d, ws[..k], b);
      }
      ApplyTouched(d, e, ws, b);
    }
  }

  /** Recovery that is cut short after k of its writes and started again ends in the same disk. */
  lemma {:induction false} RecoveryRestartable(g: Geometry, d: Disk, k: nat)
    requires GoodHeader(g, d) && k <= |RecoveryWrites(g, d)|
    ensures InRange(|d|, RecoveryWrites(g, d)[..k])
    ensures GoodHeader(g, Apply(d, RecoveryWrites(g, d)[..k]))
    ensures Recovered(g, Apply(d, RecoveryWrites(g, d)[..k])) == Recovered(g, d)
  {
    var bs := Header(d[g.start]);
    var install := InstallWrites(g, d, bs);
    var ws := RecoveryWrites(g, d);
    if k <= |bs| {
      assert ws[..k] == install[..k];
      var e := Apply(d, install[..k]);
      forall b: nat | b < |d| && g.InLog(b) ensures e[b] == d[b] {
        HomeWritesKeepLog(g, d, install[..k], b);
      }
      assert InstallWrites(g, e, bs) == install;
      assert RecoveryWrites(g, e) == ws;
      assert Recovered(g, e) == Recovered(g, d) by {
        ReinstallSame(d, ws, k);
      }
    } else {
      assert ws[..k] == ws;
      ClearedIsRecovered(g, d);
    }
  }

  /** A recovered disk lists no transaction, and recovering it again changes nothing. */
  lemma {:induction false} ClearedIsRecovered(g: Geometry, d: Disk)
    requires GoodHeader(g, d)
    ensures GoodHeader(g, Recovered(g, d))
    ensures Header(Recovered(g, d)[g.start]) == []
    ensures Recovered(g, Recovered(g, d)) == Recovered(g, d)
  {
    var e := Recovered(g, d);
    var ws := RecoveryWrites(g, d);
    assert ws[..|ws| - 1] == InstallWrites(g, d, Header(d[g.start]));
    assert e[g.start] == WithHeader(d[g.start], []);
    assert RecoveryWrites(g, e) == [HeadWrite(g, e, [])];
    assert HeadWrite(g, e, []).data == e[g.start];
    assert Apply(e, [HeadWrite(g, e, [])]) == Apply(e, [])[g.start := e[g.start]];
  }

  /** The disk after recovery has been cut short |cuts| times, the i-th time after cuts[i] writes. */
  ghost function Interrupted(g: Geometry, d: Disk, cuts: seq<nat>): (e: Disk)
    requires GoodHeader(g, d)
    ensures GoodHeader(g, e) && |e| == |d|
    decreases |cuts|
  {
    if cuts == [] then d
    else
      var ws := RecoveryWrites(g, d);
      var k := if cuts[0] <= |ws| then cuts[0] else |ws|;
      RecoveryRestartable(g, d, k);
      Interrupted(g, Apply(d, ws[..k]), cuts[1..])
  }

  /** However often recovery is interrupted, completing it once gives the same disk. */
  lemma {:induction false} RecoveryInterruptible(g: Geometry, d: Disk, cuts: seq<nat>)
    requires GoodHeader(g, d)
    ensures Recovered(g, Interrupted(g, d, cuts)) == Recovered(g, d)
    decreases |cuts|
  {
    if cuts != [] {
      var ws := RecoveryWrites(g, d);
      var k := if cuts[0] <= |ws| then cuts[0] else |ws|;
      RecoveryRestartable(g, d, k);
      RecoveryInterruptible(g, Apply(d, ws[..k]), cuts[1..]);
    }
  }

  /** Every single-block write of `commit`, in order. */
  function CommitWrites(g: Geometry, d: Disk, bs: seq<int>, data: seq<Block>): (ws: seq<Write>)
    requires GoodList(g, |d|, bs) && |data| == |bs|
    ensures |ws| == 2 * |bs| + 2
    ensures InRange(|d|, ws)
  {
    LogWrites(g, data) + [HeadWrite(g, d, bs)]
    + seq(|bs|, i requires 0 <= i < |bs| => Write(bs[i], data[i]))
    + [Write(g.start, WithHeader(WithHeader(d[g.start], bs), []))]
  }

  /** The transaction as one indivisible update of the home blocks. */
  ghost function Updated(d: Disk, bs: seq<int>, data: seq<Block>): (r: Disk)
    requires |data| == |bs| && forall i | 0 <= i < |bs| :: 0 <= bs[i] < |d|
    ensures |r| == |d|
  {
    seq(|d|, b requires 0 <= b < |d| =>
      if b in bs then var i :| 0 <= i < |bs| && bs[i] == b; data[i] else d[b])
  }

  lemma UpdatedAt(d: Disk, bs: seq<int>, data: seq<Block>, i: nat)
    requires |data| == |bs| && Distinct(bs) && i < |bs|
    requires forall j | 0 <= j < |bs| :: 0 <= bs[j] < |d|
    ensures Updated(d, bs, data)[bs[i]] == data[i]
  {
    var b := bs[i];
    assert b in bs;
    var j :| 0 <= j < |bs| && bs[j] == b && Updated(d, bs, data)[b] == data[j];
    assert j == i;
  }

  /** The disk right after the header write lists the transaction, with its data in the log. */
  ghost predicate Committed(g: Geometry, d: Disk, e: Disk, bs: seq<int>, data: seq<Block>)
    requires GoodList(g, |d|, bs) && |data| == |bs|
  {
    && |e| == |d|
    && HasHeader(e[g.start]) && Header(e[g.start]) == bs
    && (forall i | 0 <= i < |bs| :: e[g.start + 1 + i] == data[i])
    && (forall b | 0 <= b < |d| && !g.InLog(b) && b !in bs :: e[b] == d[b])
  }

  /** Recovery of a committed disk performs the whole transaction. */
  lemma {:induction false} CommittedRecovers(g: Geometry, d: Disk, e: Disk, bs: seq<int>, data: seq<Block>)
    requires GoodList(g, |d|, bs) && |data| == |bs| && Distinct(bs)
    requires Committed(g, d, e, bs, data)
    ensures GoodHeader(g, e)
    ensures Home(g, Recovered(g, e)) == Home(g, Updated(d, bs, data))
  {
    var ws := RecoveryWrites(g, e);
    forall b | 0 <= b < |d| && !g.InLog(b) ensures Recovered(g, e)[b] == Updated(d, bs, data)[b] {
      CommittedBlock(g, d, e, bs, data, b);
    }
  }

  lemma {:induction false} CommittedBlock(g: Geometry, d: Disk, e: Disk, bs: seq<int>, data: seq<Block>, b: nat)
    requires GoodList(g, |d|, bs) && |data| == |bs| && Distinct(bs)
    requires Committed(g, d, e, bs, data) && b < |d| && !g.InLog(b)
    ensures GoodHeader(g, e) && Recovered(g, e)[b] == Updated(d, bs, data)[b]
  {
    var ws := RecoveryWrites(g, e);
    if b in bs {
      var i :| 0 <= i < |bs| && bs[i] == b;
      assert ws[i] == Write(b, data[i]);
      ApplyDistinct(e, ws, i);
      UpdatedAt(d, bs, data, i);
    } else {
      assert !Touches(ws, b);
      ApplyUntouched(e, ws, b);
    }
  }

  /** The first n + 1 commit writes stay inside the log and leave the disk committed. */
  lemma {:induction false} LoggedState(g: Geometry, d: Disk, bs: seq<int>, data: seq<Block>)
    requires GoodList(g, |d|, bs) && |data| == |bs|
    ensures var logged := LogWrites(g, data) + [HeadWrite(g, d, bs)];
            InRange(|d|, logged) && Committed(g, d, Apply(d, logged), bs, data)
  {
    var logged := LogWrites(g, data) + [HeadWrite(g, d, bs)];
    forall b | 0 <= b < |d| && !g.InLog(b) ensures Apply(d, logged)[b] == d[b] {
      ApplyUntouched(d, logged, b);
    }
    forall i | 0 <= i < |bs| ensures Apply(d, logged)[g.start + 1 + i] == data[i] {
      assert logged[i] == Write(g.start + 1 + i, data[i]);
      ApplyDistinct(d, logged, i);
    }
  }

  /** The home writes of commit: block bs[i] gets data[i]. */
  ghost predicate HomeWrites(bs: seq<int>, data: seq<Block>, ws: seq<Write>)
    requires |data| == |bs|
  {
    |ws| <= |bs| && forall i | 0 <= i < |ws| :: 0 <= bs[i] && ws[i] == Write(bs[i], data[i])
  }

  /** Installing part of a logged transaction keeps the disk committed. */
  lemma {:induction false} PartialInstall(g: Geometry, d: Disk, l: Disk, bs: seq<int>, data: seq<Block>, ws: seq<Write>)
    requires GoodList(g, |d|, bs) && |data| == |bs| && HomeWrites(bs, data, ws)
    requires Committed(g, d, l, bs, data)
    ensures InRange(|d|, ws) && Committed(g, d, Apply(l, ws), bs, data)
  {
    forall b: nat | b < |d| && (g.InLog(b) || b !in bs) ensures Apply(l, ws)[b] == l[b] {
      ApplyUntouched(l, ws, b);
    }
  }

  /** Installing the whole of it makes the home blocks those of the finished transaction. */
  lemma {:induction false} FullInstall(g: Geometry, d: Disk, l: Disk, bs: seq<int>, data: seq<Block>, ws: seq<Write>)
    requires GoodList(g, |d|, bs) && |data| == |bs| && Distinct(bs) && HomeWrites(bs, data, ws) && |ws| == |bs|
    requires Committed(g, d, l, bs, data)
    ensures InRange(|d|, ws) && Home(g, Apply(l, ws)) == Home(g, Updated(d, bs, data))
  {
    var e, u := Apply(l, ws), Updated(d, bs, data);
    forall b | 0 <= b < |d| && !g.InLog(b) ensures e[b] == u[b] {
      if b in bs {
        var i :| 0 <= i < |bs| && bs[i] == b;
        ApplyDistinct(l, ws, i);
        UpdatedAt(d, bs, data, i);
      } else {
        ApplyUntouched(l, ws, b);
      }
    }
  }

  /** Commit is: the log and header writes, then home writes, then the empty header. */
  lemma CommitShape(g: Geometry, d: Disk, bs: seq<int>, data: seq<Block>, j: nat)
    requires GoodList(g, |d|, bs) && |data| == |bs| && j <= |bs|
    ensures var ws, n := CommitWrites(g, d, bs, data), |bs|;
            && ws[..n + 1 + j] == (LogWrites(g, data) + [HeadWrite(g, d, bs)]) + ws[n + 1..n + 1 + j]
            && HomeWrites(bs, data, ws[n + 1..n + 1 + j])
  {
  }

  /** The disk after the log is written, the header is written, and j home blocks are installed. */
  lemma {:induction false} AfterHeader(g: Geometry, d: Disk, bs: seq<int>, data: seq<Block>, j: nat)
    requires GoodList(g, |d|, bs) && |data| == |bs| && j <= |bs|
    ensures Committed(g, d, Apply(d, CommitWrites(g, d, bs, data)[..|bs| + 1 + j]), bs, data)
    ensures Distinct(bs) && j == |bs| ==>
              Home(g, Apply(d, CommitWrites(g, d, bs, data)[..|bs| + 1 + j])) == Home(g, Updated(d, bs, data))
  {
    var logged := LogWrites(g, data) + [HeadWrite(g, d, bs)];
    var install := CommitWrites(g, d, bs, data)[|bs| + 1..|bs| + 1 + j];
    CommitShape(g, d, bs, data, j);
    LoggedState(g, d, bs, data);
    PartialInstall(g, d, Apply(d, logged), bs, data, install);
    ApplyConcat(d, logged, install);
    if Distinct(bs) && j == |bs| {
      FullInstall(g, d, Apply(d, logged), bs, data, install);
    }
  }

  /**
   Crash atomicity. Cut commit after any k of its writes, then run recovery, itself cut short any
   number of times: the home blocks are those before the transaction if the header write is not
   among the k, and those after the whole transaction if it is.
   */
  lemma {:induction false} CrashAtomic(g: Geometry, d: Disk, bs: seq<int>, data: seq<Block>, k: nat, cuts: seq<nat>)
    requires GoodList(g, |d|, bs) && |data| == |bs| && Distinct(bs) && |bs| > 0
    requires GoodHeader(g, d) && Header(d[g.start]) == []
    requires k <= |CommitWrites(g, d, bs, data)|
    ensures InRange(|d|, CommitWrites(g, d, bs, data)[..k])
    ensures var e := Apply(d, CommitWrites(g, d, bs, data)[..k]);
            && GoodHeader(g, e)
            && Home(g, Recovered(g, Interrupted(g, e, cuts)))
               == Home(g, if k <= |bs| then d else Updated(d, bs, data))
  {
    var e := Apply(d, CommitWrites(g, d, bs, data)[..k]);
    if k <= |bs| {
      BeforeHeader(g, d, bs, data, k);
    } else if k <= 2 * |bs| + 1 {
      AfterHeader(g, d, bs, data, k - |bs| - 1);
      CommittedRecovers(g, d, e, bs, data);
    } else {
      assert CommitWrites(g, d, bs, data)[..k] == CommitWrites(g, d, bs, data);
      CommitFinal(g, d, bs, data);
      EmptyRecovers(g, e);
    }
    RecoveryInterruptible(g, e, cuts);
  }

  /** Until the header is written the log still lists nothing and the home blocks are untouched. */
  lemma {:induction false} BeforeHeader(g: Geometry, d: Disk, bs: seq<int>, data: seq<Block>, k: nat)
    requires GoodList(g, |d|, bs) && |data| == |bs| && k <= |bs|
    requires GoodHeader(g, d) && Header(d[g.start]) == []
    ensures var e := Apply(d, CommitWrites(g, d, bs, data)[..k]);
            GoodHeader(g, e) && Home(g, Recovered(g, e)) == Home(g, d)
  {
    var ws := CommitWrites(g, d, bs, data)[..k];
    assert forall i | 0 <= i < k :: ws[i] == LogWrites(g, data)[i];
    LogWritesInvisible(g, d, ws);
    ApplyUntouched(d, ws, g.start);
    EmptyRecovers(g, Apply(d, ws));
  }

  /** With an empty header, recovery does not change the home blocks. */
  lemma {:induction false} EmptyRecovers(g: Geometry, d: Disk)
    requires GoodHeader(g, d) && Header(d[g.start]) == []
    ensures Home(g, Recovered(g, d)) == Home(g, d)
  {
    assert RecoveryWrites(g, d) == [HeadWrite(g, d, [])];
    LogWritesInvisible(g, d, RecoveryWrites(g, d));
  }

  /** A commit that ran to the end has installed the transaction and emptied the log. */
  lemma {:induction false} CommitFinal(g: Geometry, d: Disk, bs: seq<int>, data: seq<Block>)
    requires GoodList(g, |d|, bs) && |data| == |bs| && Distinct(bs)
    ensures var e := Apply(d, CommitWrites(g, d, bs, data));
            && GoodHeader(g, e) && Header(e[g.start]) == []
            && Home(g, e) == Home(g, Updated(d, bs, data))
  {
    var ws := CommitWrites(g, d, bs, data);
    var most := ws[..2 * |bs| + 1];
    AfterHeader(g, d, bs, data, |bs|);
    var clear := WithHeader(WithHeader(d[g.start], bs), []);
    assert ws[2 * |bs| + 1] == Write(g.start, clear);
    assert ws[..|ws| - 1] == most;
    assert Apply(d, ws) == Apply(d, most)[g.start := clear];
    HomeEqual(g, Apply(d, ws), Apply(d, most));
  }

  lemma {:induction false} ApplyFour(d: Disk, w1: seq<Write>, w2: seq<Write>, w3: seq<Write>, w4: seq<Write>)
    requires InRange(|d|, w1) && InRange(|d|, w2) && InRange(|d|, w3) && InRange(|d|, w4)
    ensures InRange(|d|, w1 + w2 + w3 + w4)
    ensures Apply(Apply(Apply(Apply(d, w1), w2), w3), w4) == Apply(d, w1 + w2 + w3 + w4)
  {
    ApplyConcat(d, w1, w2);
    ApplyConcat(d, w1 + w2, w3);
    ApplyConcat(d, w1 + w2 + w3, w4);
  }

  /** The four phases of `commit`, each reading the disk the one before left, issue CommitWrites. */
  lemma {:induction false} CommitSteps(g: Geometry, d: Disk, bs: seq<int>, data: seq<Block>, d1: Disk, d2: Disk,
                                       d3: Disk)
    requires GoodList(g, |d|, bs) && |data| == |bs|
    requires InRange(|d|, LogWrites(g, data)) && d1 == Apply(d, LogWrites(g, data))
    requires d2 == Apply(d1, [HeadWrite(g, d1, bs)])
    requires d3 == Apply(d2, InstallWrites(g, d2, bs))
    ensures LogWrites(g, data) + [HeadWrite(g, d1, bs)] + InstallWrites(g, d2, bs) + [HeadWrite(g, d3, [])]
            == CommitWrites(g, d, bs, data)
    ensures Apply(d3, [HeadWrite(g, d3, [])]) == Apply(d, CommitWrites(g, d, bs, data))
  {
    hide Apply, CommitWrites, Committed;
    var logs, homes := LogWrites(g, data), InstallWrites(g, d2, bs);
    HeadersKept(g, d, bs, data, d1, d2, d3);
    InstallsLogged(g, d, bs, data, d2);
    CommitParts(g, d, bs, data);
    ApplyFour(d, logs, [HeadWrite(g, d, bs)], homes, [HeadWrite(g, d3, [])]);
  }

  /** The header block as each phase of commit finds it. */
  lemma {:induction false} HeadersKept(g: Geometry, d: Disk, bs: seq<int>, data: seq<Block>, d1: Disk, d2: Disk,
                                       d3: Disk)
    requires GoodList(g, |d|, bs) && |data| == |bs|
    requires InRange(|d|, LogWrites(g, data)) && d1 == Apply(d, LogWrites(g, data))
    requires d2 == Apply(d1, [HeadWrite(g, d1, bs)])
    requires d3 == Apply(d2, InstallWrites(g, d2, bs))
    ensures HeadWrite(g, d1, bs) == HeadWrite(g, d, bs) && Committed(g, d, d2, bs, data)
    ensures HeadWrite(g, d3, []) == Write(g.start, WithHeader(WithHeader(d[g.start], bs), []))
  {
    hide Apply, WithHeader, Committed;
    var logs, head := LogWrites(g, data), [HeadWrite(g, d, bs)];
    assert d1[g.start] == d[g.start] by { ApplyUntouched(d, logs, g.start); }
    ApplyConcat(d, logs, head);
    LoggedState(g, d, bs, data);
    PrefixStep(d1, [], head, 0);
    assert head[..1] == head && head[..0] == [];
    PrefixStart(d1, [], head);
    assert d2[g.start] == WithHeader(d[g.start], bs);
    HomeWritesKeepLog(g, d2, InstallWrites(g, d2, bs), g.start);
  }

  /** From a committed disk install_trans copies the data of the transaction. */
  lemma {:induction false} InstallsLogged(g: Geometry, d: Disk, bs: seq<int>, data: seq<Block>, d2: Disk)
    requires GoodList(g, |d|, bs) && |data| == |bs| && Committed(g, d, d2, bs, data)
    ensures |d2| == |d| && InstallWrites(g, d2, bs) == seq(|bs|, i requires 0 <= i < |bs| => Write(bs[i], data[i]))
  {
  }

  lemma {:induction false} CommitParts(g: Geometry, d: Disk, bs: seq<int>, data: seq<Block>)
    requires GoodList(g, |d|, bs) && |data| == |bs|
    ensures CommitWrites(g, d, bs, data)
            == LogWrites(g, data) + [HeadWrite(g, d, bs)]
               + seq(|bs|, i requires 0 <= i < |bs| => Write(bs[i], data[i]))
               + [Write(g.start, WithHeader(WithHeader(d[g.start], bs), []))]
  {
  }
}
