/**
 src/log.c as interleaved steps: any number of file system operations, the committing thread writing
 one block at a time, and a crash at any moment followed by recovery, itself one block at a time.
 The whole protocol refines a disk whose contents change only by whole transactions.
 */
module LogProtocol {
  import opened Disks
  import opened LogFormat

  /** Where the commit or recovery code stands between two disk writes. */
  datatype Phase =
    | Idle                     // log.committing == 0, operations run
    | WriteLog(tail: nat)      // commit: write_log
    | WriteHead
    | Install(tail: nat)       // commit: install_trans
    | ClearHead
    | Finish                   // commit returned, log.committing still set
    | Reinstall(tail: nat)     // recover_from_log: install_trans
    | Reclear

  /** ops[i] counts the log_write calls the i-th outstanding operation has made. */
  datatype State = State(disk: Disk, dirty: map<int, Block>, lh: seq<int>, ops: seq<nat>, phase: Phase) {
    predicate Recovering() { phase.Reinstall? || phase.Reclear? }
    predicate Committing() { !Recovering() && !phase.Idle? }
  }

  datatype Step =
    | Begin
    | Put(op: nat, b: int, data: Block)
    | End(op: nat)
    | Tick
    | Crash

  datatype Result = Blocked | Panic | Next(s: State)

  function Bread(s: State, b: int): Block
    requires 0 <= b < |s.disk|
  {
    if b in s.dirty then s.dirty[b] else s.disk[b]
  }

  /** log absorption: a block already listed is not listed again. */
  function Absorb(lh: seq<int>, b: int): seq<int> {
    if b in lh then lh else lh + [b]
  }

  function TakeBegin(s: State): Result {
    if s.Recovering() || s.Committing() then Blocked
    else if |s.lh| + (|s.ops| + 1) * MAXOPBLOCKS > LOGSIZE then Blocked
    else Next(s.(ops := s.ops + [0]))
  }

  /** Clients log home blocks, at most MAXOPBLOCKS times per operation; log_write checks the rest. */
  function TakePut(g: Geometry, s: State, op: nat, b: int, data: Block): Result
    requires 1 <= g.size
  {
    if op >= |s.ops| || s.ops[op] >= MAXOPBLOCKS || !g.IsHome(|s.disk|, b) then Blocked
    else if |s.lh| >= g.Capacity() then Panic
    else Next(s.(lh := Absorb(s.lh, b), dirty := s.dirty[b := data], ops := s.ops[op := s.ops[op] + 1]))
  }

  function TakeEnd(s: State, op: nat): Result {
    if op >= |s.ops| then Blocked
    else if s.Committing() then Panic
    else
      var ops := s.ops[..op] + s.ops[op + 1..];
      if ops != [] then Next(s.(ops := ops))
      else Next(s.(ops := ops, phase := if s.lh == [] then Finish else WriteLog(0)))
  }

  /** The next single-block write (or lock section) of commit or recovery. */
  function TakeTick(g: Geometry, s: State): Result
    requires g.Fits(|s.disk|) && GoodList(g, |s.disk|, s.lh)
  {
    match s.phase
    case Idle => Blocked
    case WriteLog(t) =>
      if t >= |s.lh| then Blocked
      else Next(s.(disk := s.disk[g.start + 1 + t := Bread(s, s.lh[t])],
                   phase := if t + 1 < |s.lh| then WriteLog(t + 1) else WriteHead))
    case WriteHead =>
      Next(s.(disk := s.disk[g.start := WithHeader(s.disk[g.start], s.lh)], phase := Install(0)))
    case Install(t) =>
      if t >= |s.lh| then Blocked
      else Next(s.(disk := s.disk[s.lh[t] := s.disk[g.start + 1 + t]], dirty := s.dirty - {s.lh[t]},
                   phase := if t + 1 < |s.lh| then Install(t + 1) else ClearHead))
    case ClearHead =>
      Next(s.(disk := s.disk[g.start := WithHeader(s.disk[g.start], [])], lh := [], phase := Finish))
    case Finish => Next(s.(phase := Idle))
    case Reinstall(t) =>
      if t >= |s.lh| then Blocked
      else Next(s.(disk := s.disk[s.lh[t] := s.disk[g.start + 1 + t]],
                   phase := if t + 1 < |s.lh| then Reinstall(t + 1) else Reclear))
    case Reclear =>
      Next(s.(disk := s.disk[g.start := WithHeader(s.disk[g.start], [])], lh := [], phase := Idle))
  }

  /** Memory is lost; the machine restarts and read_head reads the header on disk. */
  function Reboot(g: Geometry, d: Disk): State
    requires GoodHeader(g, d)
  {
    var lh := Header(d[g.start]);
    State(d, map[], lh, [], if lh == [] then Reclear else Reinstall(0))
  }

  function Take(g: Geometry, s: State, step: Step): Result
    requires GoodHeader(g, s.disk) && GoodList(g, |s.disk|, s.lh)
  {
    match step
    case Begin => TakeBegin(s)
    case Put(op, b, data) => TakePut(g, s, op, b, data)
    case End(op) => TakeEnd(s, op)
    case Tick => TakeTick(g, s)
    case Crash => Next(Reboot(g, s.disk))
  }

  // ---------------------------------------------------------------- invariant

  /** Log writes the outstanding operations may still make. */
  function Unused(ops: seq<nat>): int {
    if ops == [] then 0 else MAXOPBLOCKS - ops[0] + Unused(ops[1..])
  }

  /** Blocks lh[lo..hi) are on disk in their home place as the log has them. */
  predicate Installed(g: Geometry, s: State, hi: nat)
    requires GoodList(g, |s.disk|, s.lh) && hi <= |s.lh|
  {
    forall i {:trigger s.lh[i]} | 0 <= i < hi :: s.disk[s.lh[i]] == s.disk[g.start + 1 + i]
  }

  /** The log copies lo..hi hold what the pinned buffers hold. */
  predicate Copied(g: Geometry, s: State, lo: nat, hi: nat)
    requires GoodList(g, |s.disk|, s.lh) && lo <= hi <= |s.lh|
  {
    forall i {:trigger s.lh[i]} | lo <= i < hi ::
      s.lh[i] in s.dirty && s.disk[g.start + 1 + i] == s.dirty[s.lh[i]]
  }

  predicate Pinned(s: State, lo: nat)
    requires lo <= |s.lh|
  {
    s.dirty.Keys == set b | b in s.lh[lo..]
  }

  ghost predicate PhaseInv(g: Geometry, s: State)
    requires GoodHeader(g, s.disk) && GoodList(g, |s.disk|, s.lh)
  {
    var onDisk := Header(s.disk[g.start]);
    match s.phase
    case Idle => onDisk == [] && Pinned(s, 0) && (s.ops == [] ==> s.lh == [])
    case WriteLog(t) => onDisk == [] && Pinned(s, 0) && t < |s.lh| && Copied(g, s, 0, t)
    case WriteHead => onDisk == [] && Pinned(s, 0) && s.lh != [] && Copied(g, s, 0, |s.lh|)
    case Install(t) => onDisk == s.lh && t < |s.lh| && Pinned(s, t) && Copied(g, s, t, |s.lh|) && Installed(g, s, t)
    case ClearHead => onDisk == s.lh && s.dirty == map[] && Installed(g, s, |s.lh|)
    case Finish => onDisk == [] && s.lh == [] && s.dirty == map[]
    case Reinstall(t) => onDisk == s.lh && t < |s.lh| && s.dirty == map[] && Installed(g, s, t)
    case Reclear => onDisk == s.lh && s.dirty == map[] && Installed(g, s, |s.lh|)
  }

  /** Reservation: the log has room for every log write outstanding operations may still make. */
  ghost predicate Reserved(s: State) {
    && (forall i | 0 <= i < |s.ops| :: s.ops[i] <= MAXOPBLOCKS)
    && |s.lh| + Unused(s.ops) <= LOGSIZE
    && (s.ops != [] ==> s.phase == Idle)
  }

  ghost predicate Inv(g: Geometry, s: State) {
    && GoodHeader(g, s.disk) && GoodList(g, |s.disk|, s.lh) && Distinct(s.lh)
    && Reserved(s)
    && PhaseInv(g, s)
  }

  // ---------------------------------------------------------------- specification

  /** A disk that survives crashes, what the kernel sees of it now, and the operations in progress. */
  datatype Spec = Spec(durable: Disk, current: Disk, active: nat)

  ghost predicate SpecNext(a: Spec, a': Spec, step: Step) {
    match step
    case Begin => a' == a.(active := a.active + 1)
    case Put(op, b, data) => 0 <= b < |a.current| && a' == a.(current := a.current[b := data])
    case End(op) => a.active >= 1 && a' == a.(active := a.active - 1)
    case Tick => a' == a || (a.active == 0 && a' == a.(durable := a.current))
    case Crash => a' == Spec(a.durable, a.durable, 0)
  }

  /** `h` holds what a crash now would leave: listed blocks from the log, the others from home. */
  ghost predicate IsDurable(g: Geometry, d: Disk, h: Disk)
    requires GoodHeader(g, d)
  {
    var bs := Header(d[g.start]);
    && |h| == |d|
    && (forall i {:trigger bs[i]} | 0 <= i < |bs| :: h[bs[i]] == d[g.start + 1 + i])
    && (forall b {:trigger h[b]} | g.IsHome(|d|, b) && b !in bs :: h[b] == d[b])
  }

  /** `h` holds what the kernel reads now: pinned buffers, and the disk for the rest. */
  ghost predicate IsView(g: Geometry, s: State, h: Disk) {
    && |h| == |s.disk|
    && (forall b {:trigger h[b]} | g.IsHome(|s.disk|, b) :: h[b] == Bread(s, b))
  }

  /** The specification state that protocol state `s` stands for, home blocks only. */
  ghost predicate Stands(g: Geometry, s: State, a: Spec) {
    && GoodHeader(g, s.disk)
    && IsDurable(g, s.disk, a.durable)
    && (if s.Recovering() then a.current == a.durable else IsView(g, s, a.current))
    && a.active == |s.ops|
  }

  // ---------------------------------------------------------------- what recovery gives

  /** Running recovery to its end produces exactly the durable contents. */
  lemma {:induction false} RecoveredIsDurable(g: Geometry, d: Disk)
    requires GoodHeader(g, d) && Distinct(Header(d[g.start]))
    ensures IsDurable(g, d, Recovered(g, d))
  {
    var bs, ws := Header(d[g.start]), RecoveryWrites(g, d);
    assert forall j | 0 <= j < |bs| :: ws[j] == Write(bs[j], d[g.start + 1 + j]);
    forall i | 0 <= i < |bs| ensures Recovered(g, d)[bs[i]] == d[g.start + 1 + i] {
      ApplyDistinct(d, ws, i);
    }
    forall b | g.IsHome(|d|, b) && b !in bs ensures Recovered(g, d)[b] == d[b] {
      ApplyUntouched(d, ws, b);
    }
  }

  lemma DurableUnique(g: Geometry, d: Disk, h: Disk, h': Disk)
    requires GoodHeader(g, d) && IsDurable(g, d, h) && IsDurable(g, d, h')
    ensures Home(g, h) == Home(g, h')
  {
    var bs := Header(d[g.start]);
    forall b | 0 <= b < |d| && !g.InLog(b) ensures h[b] == h'[b] {
      if b in bs {
        var i :| 0 <= i < |bs| && bs[i] == b;
      }
    }
  }

  // ---------------------------------------------------------------- every step keeps the invariant

  lemma {:induction false} UnusedConcat(a: seq<nat>, b: seq<nat>)
    ensures Unused(a + b) == Unused(a) + Unused(b)
  {
    if a == [] {
      assert a + b == b;
    } else {
      assert (a + b)[1..] == a[1..] + b;
      UnusedConcat(a[1..], b);
    }
  }

  /** The budget of one operation within the total. */
  lemma {:induction false} UnusedSplit(ops: seq<nat>, i: nat)
    requires i < |ops|
    ensures Unused(ops) == Unused(ops[..i]) + (MAXOPBLOCKS - ops[i]) + Unused(ops[i + 1..])
  {
    assert ops == ops[..i] + ([ops[i]] + ops[i + 1..]);
    UnusedConcat(ops[..i], [ops[i]] + ops[i + 1..]);
  }

  lemma {:induction false} UnusedBounds(ops: seq<nat>)
    requires forall i | 0 <= i < |ops| :: ops[i] <= MAXOPBLOCKS
    ensures 0 <= Unused(ops) <= |ops| * MAXOPBLOCKS
  {
    if ops != [] { UnusedBounds(ops[1..]); }
  }

  lemma {:induction false} BeginStep(g: Geometry, s: State, a: Spec)
    requires Inv(g, s) && Stands(g, s, a) && TakeBegin(s).Next?
    ensures Inv(g, TakeBegin(s).s) && Stands(g, TakeBegin(s).s, a.(active := a.active + 1))
  {
    UnusedConcat(s.ops, [0]);
    UnusedBounds(s.ops);
  }

  /** log_write: only while operations run, so never during a commit. */
  lemma {:induction false} PutStep(g: Geometry, s: State, a: Spec, op: nat, b: int, data: Block)
    requires Inv(g, s) && Stands(g, s, a) && TakePut(g, s, op, b, data).Next?
    ensures s.phase == Idle
    ensures var s' := TakePut(g, s, op, b, data).s;
            Inv(g, s') && Stands(g, s', a.(current := a.current[b := data]))
  {
    var s' := TakePut(g, s, op, b, data).s;
    UnusedSplit(s.ops, op);
    UnusedSplit(s'.ops, op);
    assert s'.ops[..op] == s.ops[..op] && s'.ops[op + 1..] == s.ops[op + 1..];
    assert s.lh[0..] == s.lh && s'.lh[0..] == s'.lh;
  }

  lemma {:induction false} EndReserved(s: State, op: nat)
    requires Reserved(s) && op < |s.ops|
    ensures TakeEnd(s, op).Next? && Reserved(TakeEnd(s, op).s)
  {
    UnusedSplit(s.ops, op);
    UnusedConcat(s.ops[..op], s.ops[op + 1..]);
  }

  /** end_op never finds a commit under way; the last one out starts it with every budget returned. */
  lemma {:induction false} EndStep(g: Geometry, s: State, a: Spec, op: nat)
    requires Inv(g, s) && Stands(g, s, a) && op < |s.ops|
    ensures TakeEnd(s, op).Next?
    ensures Inv(g, TakeEnd(s, op).s) && Stands(g, TakeEnd(s, op).s, a.(active := a.active - 1))
  {
    EndReserved(s, op);
    if s.lh == [] { assert s.dirty == map[]; }
    assert PhaseInv(g, TakeEnd(s, op).s);
  }

  lemma {:induction false} WriteLogTick(g: Geometry, s: State, a: Spec)
    requires Inv(g, s) && Stands(g, s, a) && s.phase.WriteLog?
    ensures TakeTick(g, s).Next?
    ensures Inv(g, TakeTick(g, s).s) && Stands(g, TakeTick(g, s).s, a)
  {
    var t, s' := s.phase.tail, TakeTick(g, s).s;
    assert s.lh[0..] == s.lh;
    assert s'.lh == s.lh && s'.disk[g.start] == s.disk[g.start] && GoodHeader(g, s'.disk);
    hide GoodHeader, HasHeader, Header, WithHeader, Reserved, Distinct;
    assert Copied(g, s', 0, t + 1);
  }

  /** Writing the header lists the blocks on disk and leaves every other block alone. */
  lemma {:induction false} HeaderWritten(g: Geometry, d: Disk, bs: seq<int>)
    requires GoodHeader(g, d) && GoodList(g, |d|, bs)
    ensures var d' := d[g.start := WithHeader(d[g.start], bs)];
            && GoodHeader(g, d') && Header(d'[g.start]) == bs
            && (forall b {:trigger d'[b]} | 0 <= b < |d| && b != g.start :: d'[b] == d[b])
  {
  }

  lemma {:induction false} WriteHeadInv(g: Geometry, s: State)
    requires Inv(g, s) && s.phase.WriteHead?
    ensures s.ops == [] && TakeTick(g, s).Next? && Inv(g, TakeTick(g, s).s)
  {
    HeaderWritten(g, s.disk, s.lh);
    var s' := TakeTick(g, s).s;
    assert s.lh[0..] == s.lh;
    assert GoodHeader(g, s'.disk) && Header(s'.disk[g.start]) == s'.lh;
    hide GoodHeader, HasHeader, Header, WithHeader;
    assert Copied(g, s', 0, |s'.lh|);
  }

  /** The commit point: from here on a crash keeps the whole transaction. */
  lemma {:induction false} WriteHeadTick(g: Geometry, s: State, a: Spec)
    requires Inv(g, s) && Stands(g, s, a) && s.phase.WriteHead?
    ensures TakeTick(g, s).Next? && Inv(g, TakeTick(g, s).s)
    ensures s.ops == [] && Stands(g, TakeTick(g, s).s, a.(durable := a.current))
  {
    WriteHeadInv(g, s);
    HeaderWritten(g, s.disk, s.lh);
    var s' := TakeTick(g, s).s;
    assert s.lh[0..] == s.lh;
    assert GoodHeader(g, s'.disk) && Header(s'.disk[g.start]) == s'.lh;
    hide GoodHeader, HasHeader, Header, WithHeader, Reserved, Distinct;
  }

  /** Copying one log block home changes neither the log nor what a crash would leave. */
  lemma {:induction false} InstallOne(g: Geometry, d: Disk, bs: seq<int>, t: nat, h: Disk)
    requires GoodHeader(g, d) && Header(d[g.start]) == bs && Distinct(bs) && t < |bs|
    requires IsDurable(g, d, h)
    ensures var d' := d[bs[t] := d[g.start + 1 + t]];
            && GoodHeader(g, d') && Header(d'[g.start]) == bs && IsDurable(g, d', h)
            && (forall b {:trigger d'[b]} | g.start <= b <= g.start + |bs| :: d'[b] == d[b])
            && (forall i | 0 <= i < |bs| && i != t :: d'[bs[i]] == d[bs[i]])
            && d'[bs[t]] == d[g.start + 1 + t]
  {
    assert g.IsHome(|d|, bs[t]);
  }

  /** The phase conditions of install_trans move on by one block. */
  lemma {:induction false} InstallMoves(g: Geometry, s: State, s': State, t: nat)
    requires GoodList(g, |s.disk|, s.lh) && Distinct(s.lh) && t < |s.lh|
    requires Installed(g, s, t)
    requires |s'.disk| == |s.disk| && s'.lh == s.lh && s'.disk == s.disk[s.lh[t] := s.disk[g.start + 1 + t]]
    ensures Installed(g, s', t + 1)
    ensures Copied(g, s, t, |s.lh|) && s'.dirty == s.dirty - {s.lh[t]} ==> Copied(g, s', t + 1, |s.lh|)
  {
  }

  lemma PinnedRest(s: State, s': State, t: nat)
    requires t < |s.lh| && Distinct(s.lh) && Pinned(s, t)
    requires s'.lh == s.lh && s'.dirty == s.dirty - {s.lh[t]}
    ensures Pinned(s', t + 1) && (t + 1 == |s.lh| ==> s'.dirty == map[])
  {
    var b, rest := s.lh[t], s.lh[t + 1..];
    assert s.lh[t..] == [b] + rest;
    assert b !in rest;
    hide Distinct;
    assert s'.dirty.Keys == s.dirty.Keys - {b};
  }

  lemma {:induction false} HomeKeepsHeader(g: Geometry, d: Disk, b: int, data: Block)
    requires GoodHeader(g, d) && g.IsHome(|d|, b)
    ensures GoodHeader(g, d[b := data]) && d[b := data][g.start] == d[g.start]
  {
  }

  /** The state after install_trans has copied block t. */
  function InstallNext(g: Geometry, s: State, t: nat): State
    requires g.Fits(|s.disk|) && GoodList(g, |s.disk|, s.lh) && t < |s.lh|
  {
    s.(disk := s.disk[s.lh[t] := s.disk[g.start + 1 + t]], dirty := s.dirty - {s.lh[t]},
       phase := if t + 1 < |s.lh| then Install(t + 1) else ClearHead)
  }

  lemma {:induction false} InstallNextInv(g: Geometry, s: State, t: nat)
    requires Inv(g, s) && s.phase == Install(t)
    ensures t < |s.lh| && Inv(g, InstallNext(g, s, t))
  {
    hide Installed, Copied, Pinned, Distinct;
    var s' := InstallNext(g, s, t);
    assert g.IsHome(|s.disk|, s.lh[t]);
    HomeKeepsHeader(g, s.disk, s.lh[t], s.disk[g.start + 1 + t]);
    hide GoodHeader, HasHeader, Header;
    InstallMoves(g, s, s', t);
    PinnedRest(s, s', t);
  }

  lemma {:induction false} InstallTickInv(g: Geometry, s: State)
    requires Inv(g, s) && s.phase.Install?
    ensures TakeTick(g, s).Next? && Inv(g, TakeTick(g, s).s)
  {
    hide Installed, Copied, Pinned, Distinct;
    InstallNextInv(g, s, s.phase.tail);
    assert TakeTick(g, s) == Next(InstallNext(g, s, s.phase.tail));
    hide Inv;
  }

  /** Moving a pinned block to its home place does not change what the kernel reads. */
  lemma ViewAfterUnpin(g: Geometry, s: State, s': State, b: int, h: Disk)
    requires IsView(g, s, h) && g.IsHome(|s.disk|, b) && b in s.dirty
    requires s'.disk == s.disk[b := s.dirty[b]] && s'.dirty == s.dirty - {b}
    ensures IsView(g, s', h)
  {
  }

  lemma CopiedAt(g: Geometry, s: State, t: nat)
    requires GoodList(g, |s.disk|, s.lh) && t < |s.lh| && Copied(g, s, t, |s.lh|)
    ensures s.lh[t] in s.dirty && s.disk[g.start + 1 + t] == s.dirty[s.lh[t]]
  {
  }

  lemma {:induction false} InstallTick(g: Geometry, s: State, a: Spec)
    requires Inv(g, s) && Stands(g, s, a) && s.phase.Install?
    ensures TakeTick(g, s).Next? && Stands(g, TakeTick(g, s).s, a)
  {
    hide IsDurable, IsView, Installed, Pinned, Copied, Reserved;
    var t, s' := s.phase.tail, TakeTick(g, s).s;
    CopiedAt(g, s, t);
    InstallOne(g, s.disk, s.lh, t, a.durable);
    ViewAfterUnpin(g, s, s', s.lh[t], a.current);
  }

  lemma {:induction false} ClearHeadTick(g: Geometry, s: State, a: Spec)
    requires Inv(g, s) && Stands(g, s, a) && (s.phase.ClearHead? || s.phase.Reclear?)
    ensures TakeTick(g, s).Next?
    ensures Inv(g, TakeTick(g, s).s) && Stands(g, TakeTick(g, s).s, a)
  {
    UnusedBounds(s.ops);
    forall b | g.IsHome(|s.disk|, b) ensures a.durable[b] == s.disk[b] {
      if b in s.lh {
        var i :| 0 <= i < |s.lh| && s.lh[i] == b;
      }
    }
  }

  lemma {:induction false} ReinstallTick(g: Geometry, s: State, a: Spec)
    requires Inv(g, s) && Stands(g, s, a) && s.phase.Reinstall?
    ensures TakeTick(g, s).Next?
    ensures Inv(g, TakeTick(g, s).s) && Stands(g, TakeTick(g, s).s, a)
  {
    var t, s' := s.phase.tail, TakeTick(g, s).s;
    InstallMoves(g, s, s', t);
    InstallOne(g, s.disk, s.lh, t, a.durable);
    assert GoodHeader(g, s'.disk) && IsDurable(g, s'.disk, a.durable);
    assert PhaseInv(g, s');
  }

  lemma {:induction false} CrashStep(g: Geometry, s: State, a: Spec)
    requires Inv(g, s) && Stands(g, s, a)
    ensures Inv(g, Reboot(g, s.disk)) && Stands(g, Reboot(g, s.disk), Spec(a.durable, a.durable, 0))
  {
    assert Distinct(Header(s.disk[g.start]));
  }

  lemma {:induction false} TickStep(g: Geometry, s: State, a: Spec) returns (a': Spec)
    requires Inv(g, s) && Stands(g, s, a) && TakeTick(g, s).Next?
    ensures Inv(g, TakeTick(g, s).s) && Stands(g, TakeTick(g, s).s, a') && SpecNext(a, a', Tick)
  {
    a' := a;
    match s.phase
    case WriteLog(_) => WriteLogTick(g, s, a);
    case WriteHead => WriteHeadTick(g, s, a); a' := a.(durable := a.current);
    case Install(_) => InstallTickInv(g, s); InstallTick(g, s, a);
    case ClearHead => ClearHeadTick(g, s, a);
    case Finish =>
    case Reinstall(_) => ReinstallTick(g, s, a);
    case Reclear => ClearHeadTick(g, s, a);
  }

  /** One step of the protocol is one step of the specification. */
  lemma {:induction false} StepRefines(g: Geometry, s: State, a: Spec, step: Step) returns (a': Spec)
    requires Inv(g, s) && Stands(g, s, a) && Take(g, s, step).Next?
    ensures Inv(g, Take(g, s, step).s) && Stands(g, Take(g, s, step).s, a') && SpecNext(a, a', step)
  {
    match step
    case Begin => BeginStep(g, s, a); a' := a.(active := a.active + 1);
    case Put(op, b, data) => PutStep(g, s, a, op, b, data); a' := a.(current := a.current[b := data]);
    case End(op) => EndStep(g, s, a, op); a' := a.(active := a.active - 1);
    case Tick => a' := TickStep(g, s, a);
    case Crash => CrashStep(g, s, a); a' := Spec(a.durable, a.durable, 0);
  }

  // ---------------------------------------------------------------- whole runs

  /** Execute the steps in order, stopping at the first that panics or cannot be taken. */
  function Run(g: Geometry, s: State, steps: seq<Step>): Result
    decreases |steps|
  {
    if steps == [] then Next(s)
    else if !GoodHeader(g, s.disk) || !GoodList(g, |s.disk|, s.lh) then Blocked
    else
      match Take(g, s, steps[0])
      case Next(s') => Run(g, s', steps[1..])
      case r => r
  }

  ghost predicate SpecRun(a: Spec, steps: seq<Step>, a': Spec)
    decreases |steps|
  {
    if steps == [] then a' == a
    else exists m :: SpecNext(a, m, steps[0]) && SpecRun(m, steps[1..], a')
  }

  /** A disk the kernel may be started on, such as any disk a crash leaves. */
  ghost predicate Bootable(g: Geometry, d: Disk) {
    GoodHeader(g, d) && Distinct(Header(d[g.start]))
  }

  /**
   Every run, with crashes anywhere, is a run of the atomic-transaction specification: whatever was
   committed survives, whatever was not is gone as a whole, and recovering the disk of any
   intermediate state gives exactly the committed home blocks.
   */
  lemma {:induction false} RunRefines(g: Geometry, s: State, a: Spec, steps: seq<Step>) returns (a': Spec)
    requires Inv(g, s) && Stands(g, s, a) && Run(g, s, steps).Next?
    ensures SpecRun(a, steps, a') && Stands(g, Run(g, s, steps).s, a') && Inv(g, Run(g, s, steps).s)
    ensures Home(g, Recovered(g, Run(g, s, steps).s.disk)) == Home(g, a'.durable)
    decreases |steps|
  {
    if steps == [] {
      a' := a;
      RecoveredIsDurable(g, s.disk);
      DurableUnique(g, s.disk, Recovered(g, s.disk), a.durable);
    } else {
      var m := StepRefines(g, s, a, steps[0]);
      a' := RunRefines(g, Take(g, s, steps[0]).s, m, steps[1..]);
    }
  }

  /** Booting starts in the invariant, standing for the recovered disk. */
  lemma {:induction false} BootInv(g: Geometry, d: Disk)
    requires Bootable(g, d)
    ensures Inv(g, Reboot(g, d))
    ensures Stands(g, Reboot(g, d), Spec(Recovered(g, d), Recovered(g, d), 0))
  {
    RecoveredIsDurable(g, d);
  }

  /** With a log area larger than LOGSIZE nothing a step does can panic. */
  lemma {:induction false} NoPanicStep(g: Geometry, s: State, step: Step)
    requires Inv(g, s) && LOGSIZE < g.size
    ensures Take(g, s, step) != Panic
  {
    if step.Put? && step.op < |s.ops| && s.ops[step.op] < MAXOPBLOCKS {
      UnusedSplit(s.ops, step.op);
      UnusedBounds(s.ops[..step.op]);
      UnusedBounds(s.ops[step.op + 1..]);
    }
  }

  lemma {:induction false} NoPanicRun(g: Geometry, s: State, a: Spec, steps: seq<Step>)
    requires Inv(g, s) && Stands(g, s, a) && LOGSIZE < g.size
    ensures Run(g, s, steps) != Panic
    decreases |steps|
  {
    if steps != [] {
      NoPanicStep(g, s, steps[0]);
      if Take(g, s, steps[0]).Next? {
        var m := StepRefines(g, s, a, steps[0]);
        NoPanicRun(g, Take(g, s, steps[0]).s, m, steps[1..]);
      }
    }
  }

  // ---------------------------------------------------------------- when the log is too small

  /** Three operations in progress that have logged j distinct blocks above the log area. */
  function Filled(g: Geometry, d: Disk, j: nat): State
    requires |d| >= g.start + g.size + j
  {
    var top := g.start + g.size;
    var clamp := (x: int) => if x < 0 then 0 else if x < MAXOPBLOCKS then x as nat else MAXOPBLOCKS;
    State(d, map b: int | top <= b < top + j :: d[b], seq(j, i => top + i),
          [clamp(j), clamp(j - MAXOPBLOCKS), clamp(j - 2 * MAXOPBLOCKS)], Idle)
  }

  lemma FilledNext(g: Geometry, d: Disk, j: nat)
    requires g.Fits(|d|) && |d| >= g.start + g.size + LOGSIZE && g.size <= LOGSIZE && j < g.size
    ensures var put := TakePut(g, Filled(g, d, j), j / MAXOPBLOCKS, g.start + g.size + j, d[g.start + g.size + j]);
            put == if j == g.size - 1 then Panic else Next(Filled(g, d, j + 1))
  {
    var s, s', b := Filled(g, d, j), Filled(g, d, j + 1), g.start + g.size + j;
    assert s'.lh == s.lh + [b] && b !in s.lh;
    assert s'.dirty == s.dirty[b := d[b]];
    assert s'.ops == s.ops[j / MAXOPBLOCKS := s.ops[j / MAXOPBLOCKS] + 1];
  }

  function FillSteps(g: Geometry, d: Disk, j: nat): seq<Step>
    requires |d| >= g.start + g.size + LOGSIZE && j < g.size <= LOGSIZE
    decreases g.size - j
  {
    var put := Put(j / MAXOPBLOCKS, g.start + g.size + j, d[g.start + g.size + j]);
    [put] + if j == g.size - 1 then [] else FillSteps(g, d, j + 1)
  }

  lemma RunHead(g: Geometry, s: State, step: Step, rest: seq<Step>)
    requires GoodHeader(g, s.disk) && GoodList(g, |s.disk|, s.lh) && !Take(g, s, step).Blocked?
    ensures Run(g, s, [step] + rest)
            == if Take(g, s, step).Next? then Run(g, Take(g, s, step).s, rest) else Panic
  {
    assert ([step] + rest)[1..] == rest;
  }

  lemma FilledGood(g: Geometry, d: Disk, j: nat)
    requires GoodHeader(g, d) && |d| >= g.start + g.size + LOGSIZE && j < g.size <= LOGSIZE
    ensures Filled(g, d, j).disk == d && GoodList(g, |d|, Filled(g, d, j).lh)
  {
  }

  lemma {:induction false} FillPanics(g: Geometry, d: Disk, j: nat)
    requires GoodHeader(g, d) && |d| >= g.start + g.size + LOGSIZE && j < g.size <= LOGSIZE
    ensures Run(g, Filled(g, d, j), FillSteps(g, d, j)) == Panic
    decreases g.size - j
  {
    hide TakePut, Run, GoodHeader;
    var put := Put(j / MAXOPBLOCKS, g.start + g.size + j, d[g.start + g.size + j]);
    FilledGood(g, d, j);
    FilledNext(g, d, j);
    hide Filled;
    var s := Filled(g, d, j);
    assert Take(g, s, put) == TakePut(g, s, put.op, put.b, put.data);
    hide Take, GoodList;
    if j < g.size - 1 {
      FillPanics(g, d, j + 1);
      RunHead(g, s, put, FillSteps(g, d, j + 1));
    } else {
      RunHead(g, s, put, []);
    }
  }

  /** On an empty log, booting and starting three operations reaches Filled(0). */
  lemma ThreeBegins(g: Geometry, d: Disk, steps: seq<Step>)
    requires GoodHeader(g, d) && Header(d[g.start]) == [] && |d| >= g.start + g.size
    ensures var d1 := d[g.start := WithHeader(d[g.start], [])];
            Run(g, Reboot(g, d), [Tick, Begin, Begin, Begin] + steps) == Run(g, Filled(g, d1, 0), steps)
  {
    var d1 := d[g.start := WithHeader(d[g.start], [])];
    var s0, s1, s2, s3 := State(d1, map[], [], [], Idle), State(d1, map[], [], [0], Idle),
                          State(d1, map[], [], [0, 0], Idle), Filled(g, d1, 0);
    assert s3 == State(d1, map[], [], [0, 0, 0], Idle);
    assert TakeBegin(s0) == Next(s1) && TakeBegin(s1) == Next(s2) && TakeBegin(s2) == Next(s3);
    HeaderWritten(g, d, []);
    assert Take(g, Reboot(g, d), Tick) == Next(s0);
    assert s0.lh == s1.lh == s2.lh == [] && s0.disk == s1.disk == s2.disk == d1 && GoodList(g, |d1|, []);
    hide Run, Filled, GoodHeader, Header, WithHeader, Reboot, GoodList, TakeBegin, TakeTick;
    RunHead(g, s2, Begin, steps);
    RunHead(g, s1, Begin, [Begin] + steps);
    RunHead(g, s0, Begin, [Begin] + ([Begin] + steps));
    RunHead(g, Reboot(g, d), Tick, [Begin] + ([Begin] + ([Begin] + steps)));
    assert [Tick, Begin, Begin, Begin] + steps == [Tick] + ([Begin] + ([Begin] + ([Begin] + steps)));
  }

  /**
   The panics are unreachable from a boot exactly when the log area has more than LOGSIZE blocks.
   mkfs makes it LOGSIZE blocks, so on its image "too big a transaction" can be reached although no
   operation exceeds its budget.
   */
  lemma {:induction false} NoPanicExactly(g: Geometry, d: Disk)
    requires GoodHeader(g, d) && Header(d[g.start]) == [] && |d| >= g.start + g.size + LOGSIZE
    ensures (forall steps :: Run(g, Reboot(g, d), steps) != Panic) <==> LOGSIZE < g.size
  {
    hide Run, Reboot, FillSteps, GoodHeader, WithHeader;
    if LOGSIZE < g.size {
      forall steps ensures Run(g, Reboot(g, d), steps) != Panic { NoPanicBoot(g, d, steps); }
    } else {
      var steps := SmallLogPanics(g, d);
    }
  }

  lemma {:induction false} NoPanicBoot(g: Geometry, d: Disk, steps: seq<Step>)
    requires Bootable(g, d) && LOGSIZE < g.size
    ensures Run(g, Reboot(g, d), steps) != Panic
  {
    hide Inv, Stands, Run;
    BootInv(g, d);
    NoPanicRun(g, Reboot(g, d), Spec(Recovered(g, d), Recovered(g, d), 0), steps);
  }

  lemma {:induction false} SmallLogPanics(g: Geometry, d: Disk) returns (steps: seq<Step>)
    requires GoodHeader(g, d) && Header(d[g.start]) == [] && |d| >= g.start + g.size + LOGSIZE && g.size <= LOGSIZE
    ensures Run(g, Reboot(g, d), steps) == Panic
  {
    hide Run, Reboot, FillSteps;
    var d1 := d[g.start := WithHeader(d[g.start], [])];
    HeaderWritten(g, d, []);
    hide GoodHeader, WithHeader;
    var fill := FillSteps(g, d1, 0);
    FillPanics(g, d1, 0);
    ThreeBegins(g, d, fill);
    steps := [Tick, Begin, Begin, Begin] + fill;
  }
}
