/**
 What the log protocol is for: its commit issues exactly the writes of src/log.c's commit, and whatever
 every finished operation keeps true of the home blocks is true of them after any crash.
 */
module LogRuns {
  import opened Disks
  import opened LogFormat
  import opened LogProtocol

  // ------------------------------------------------------------ the ticks of a commit

  /** Where commit stands after k of its writes, for n listed blocks. */
  function PhaseAt(n: nat, k: nat): Phase {
    if k < n then WriteLog(k) else if k == n then WriteHead else if k <= 2 * n then Install(k - n - 1)
    else if k == 2 * n + 1 then ClearHead else Finish
  }

  /** k ticks one after the other. */
  function Ticks(g: Geometry, s: State, k: nat): Result
    decreases k
  {
    if k == 0 then Next(s)
    else
      var r := Ticks(g, s, k - 1);
      if !r.Next? || !g.Fits(|r.s.disk|) || !GoodList(g, |r.s.disk|, r.s.lh) then Blocked else TakeTick(g, r.s)
  }

  /** The state after k writes of the commit that began in s0 with the contents `data`. */
  ghost predicate Writes(g: Geometry, s0: State, data: seq<Block>, s: State, k: nat) {
    && GoodList(g, |s0.disk|, s0.lh) && |data| == |s0.lh| && k <= 2 * |s0.lh| + 2
    && s.disk == Apply(s0.disk, CommitWrites(g, s0.disk, s0.lh, data)[..k])
    && s.phase == PhaseAt(|s0.lh|, k)
  }

  /** What the writes still to come read: the header block, the log copies, and before them the buffers. */
  ghost predicate Reads(g: Geometry, s0: State, data: seq<Block>, s: State, k: nat)
    requires GoodList(g, |s0.disk|, s0.lh) && |data| == |s0.lh|
  {
    && s.lh == s0.lh && |s.disk| == |s0.disk| && (k <= |s0.lh| ==> s.dirty == s0.dirty)
    && s.disk[g.start] == (if k <= |s0.lh| then s0.disk[g.start] else WithHeader(s0.disk[g.start], s0.lh))
    && forall t {:trigger data[t]} | 0 <= t < k && t < |s0.lh| :: s.disk[g.start + 1 + t] == data[t]
  }

  /** The contents the listed buffers hold. */
  ghost predicate Pinning(s: State, data: seq<Block>) {
    |data| == |s.lh| && forall t | 0 <= t < |s.lh| :: s.lh[t] in s.dirty && s.dirty[s.lh[t]] == data[t]
  }

  lemma {:induction false} WriteAt(g: Geometry, d: Disk, bs: seq<int>, data: seq<Block>, k: nat)
    requires GoodList(g, |d|, bs) && |data| == |bs| && k < 2 * |bs| + 2
    ensures var ws, n := CommitWrites(g, d, bs, data), |bs|;
            ws[k] == if k < n then Write(g.start + 1 + k, data[k])
                     else if k == n then Write(g.start, WithHeader(d[g.start], bs))
                     else if k <= 2 * n then Write(bs[k - n - 1], data[k - n - 1])
                     else Write(g.start, WithHeader(WithHeader(d[g.start], bs), []))
  {
  }

  /** A log copy is one more that can be read back. */
  lemma {:induction false} LogReads(g: Geometry, s0: State, data: seq<Block>, s: State, s': State, k: nat)
    requires GoodList(g, |s0.disk|, s0.lh) && |data| == |s0.lh| && k < |s0.lh| && Reads(g, s0, data, s, k)
    requires s' == s.(disk := s.disk[g.start + 1 + k := data[k]], phase := s'.phase)
    ensures Reads(g, s0, data, s', k + 1)
  {
  }

  /** Home blocks are not read by what is left of a commit. */
  lemma {:induction false} HomeReads(g: Geometry, s0: State, data: seq<Block>, s: State, s': State, b: int, x: Block,
                                     k: nat)
    requires GoodList(g, |s0.disk|, s0.lh) && |data| == |s0.lh| && |s0.lh| < k && Reads(g, s0, data, s, k)
    requires g.IsHome(|s.disk|, b) && s' == s.(disk := s.disk[b := x], dirty := s'.dirty, phase := s'.phase)
    ensures Reads(g, s0, data, s', k + 1)
  {
    hide WithHeader;
  }

  /** What the listed buffer and the log copy hold. */
  lemma ReadsAt(g: Geometry, s0: State, data: seq<Block>, s: State, k: nat, t: nat)
    requires GoodList(g, |s0.disk|, s0.lh) && Pinning(s0, data) && t < |s0.lh| && Reads(g, s0, data, s, k)
    ensures s.lh == s0.lh && g.IsHome(|s.disk|, s.lh[t]) && |s.disk| == |s0.disk|
    ensures k <= |s0.lh| ==> Bread(s, s.lh[t]) == data[t]
    ensures t < k ==> s.disk[g.start + 1 + t] == data[t]
  {
  }

  /** One tick of write_log is one write. */
  lemma {:induction false} TickLog(g: Geometry, s0: State, data: seq<Block>, s: State, k: nat)
    requires GoodList(g, |s0.disk|, s0.lh) && s0.lh != [] && Pinning(s0, data) && k < |s0.lh|
    requires Writes(g, s0, data, s, k) && Reads(g, s0, data, s, k)
    ensures TakeTick(g, s).Next? && Writes(g, s0, data, TakeTick(g, s).s, k + 1)
    ensures Reads(g, s0, data, TakeTick(g, s).s, k + 1)
  {
    hide Apply, CommitWrites, WithHeader, Reads, Pinning;
    WriteAt(g, s0.disk, s0.lh, data, k);
    PrefixStep(s0.disk, [], CommitWrites(g, s0.disk, s0.lh, data), k);
    ReadsAt(g, s0, data, s, k, k);
    LogReads(g, s0, data, s, TakeTick(g, s).s, k);
  }

  lemma {:induction false} TickHead(g: Geometry, s0: State, data: seq<Block>, s: State, k: nat)
    requires GoodList(g, |s0.disk|, s0.lh) && s0.lh != [] && Pinning(s0, data) && k == |s0.lh|
    requires Writes(g, s0, data, s, k) && Reads(g, s0, data, s, k)
    ensures TakeTick(g, s).Next? && Writes(g, s0, data, TakeTick(g, s).s, k + 1)
    ensures Reads(g, s0, data, TakeTick(g, s).s, k + 1)
  {
    var d, n, ws := s0.disk, |s0.lh|, CommitWrites(g, s0.disk, s0.lh, data);
    WriteAt(g, d, s0.lh, data, k);
    PrefixStep(d, [], ws, k);
    hide Apply, CommitWrites, WithHeader;
    hide Pinning;
  }

  lemma {:induction false} TickInstall(g: Geometry, s0: State, data: seq<Block>, s: State, k: nat)
    requires GoodList(g, |s0.disk|, s0.lh) && s0.lh != [] && Pinning(s0, data) && |s0.lh| < k <= 2 * |s0.lh|
    requires Writes(g, s0, data, s, k) && Reads(g, s0, data, s, k)
    ensures TakeTick(g, s).Next? && Writes(g, s0, data, TakeTick(g, s).s, k + 1)
    ensures Reads(g, s0, data, TakeTick(g, s).s, k + 1)
  {
    hide Apply, CommitWrites, WithHeader, Reads, Pinning;
    var t := k - |s0.lh| - 1;
    WriteAt(g, s0.disk, s0.lh, data, k);
    PrefixStep(s0.disk, [], CommitWrites(g, s0.disk, s0.lh, data), k);
    ReadsAt(g, s0, data, s, k, t);
    HomeReads(g, s0, data, s, TakeTick(g, s).s, s.lh[t], data[t], k);
  }

  lemma {:induction false} TickClear(g: Geometry, s0: State, data: seq<Block>, s: State, k: nat)
    requires GoodList(g, |s0.disk|, s0.lh) && s0.lh != [] && Pinning(s0, data) && k == 2 * |s0.lh| + 1
    requires Writes(g, s0, data, s, k) && Reads(g, s0, data, s, k)
    ensures TakeTick(g, s).Next? && Writes(g, s0, data, TakeTick(g, s).s, k + 1)
  {
    var d, n, ws := s0.disk, |s0.lh|, CommitWrites(g, s0.disk, s0.lh, data);
    WriteAt(g, d, s0.lh, data, k);
    PrefixStep(d, [], ws, k);
    hide Apply, CommitWrites, WithHeader;
    hide Pinning;
  }

  lemma {:induction false} TickWrites(g: Geometry, s0: State, data: seq<Block>, s: State, k: nat)
    requires GoodList(g, |s0.disk|, s0.lh) && s0.lh != [] && Pinning(s0, data) && k < 2 * |s0.lh| + 2
    requires Writes(g, s0, data, s, k) && Reads(g, s0, data, s, k)
    ensures TakeTick(g, s).Next? && Writes(g, s0, data, TakeTick(g, s).s, k + 1)
    ensures k < 2 * |s0.lh| + 1 ==> Reads(g, s0, data, TakeTick(g, s).s, k + 1)
  {
    if k < |s0.lh| {
      TickLog(g, s0, data, s, k);
    } else if k == |s0.lh| {
      TickHead(g, s0, data, s, k);
    } else if k <= 2 * |s0.lh| {
      TickInstall(g, s0, data, s, k);
    } else {
      TickClear(g, s0, data, s, k);
    }
    hide TakeTick, Writes, Pinning;
  }

  lemma {:induction false} TicksStart(g: Geometry, s: State, data: seq<Block>)
    requires GoodList(g, |s.disk|, s.lh) && s.lh != [] && Pinning(s, data) && s.phase == WriteLog(0)
    ensures Writes(g, s, data, s, 0) && Reads(g, s, data, s, 0)
  {
    PrefixStart(s.disk, [], CommitWrites(g, s.disk, s.lh, data));
    hide Apply, CommitWrites;
  }

  lemma {:induction false} TicksWrite(g: Geometry, s: State, data: seq<Block>, k: nat)
    requires GoodList(g, |s.disk|, s.lh) && s.lh != [] && Pinning(s, data) && s.phase == WriteLog(0)
    requires k <= 2 * |s.lh| + 2
    ensures Ticks(g, s, k).Next? && Writes(g, s, data, Ticks(g, s, k).s, k)
    ensures k <= 2 * |s.lh| + 1 ==> Reads(g, s, data, Ticks(g, s, k).s, k)
    decreases k
  {
    hide TakeTick, Writes, Reads, Pinning;
    if k == 0 {
      TicksStart(g, s, data);
    } else {
      TicksWrite(g, s, data, k - 1);
      var s1 := Ticks(g, s, k - 1).s;
      ReadsAt(g, s, data, s1, k - 1, 0);
      TickWrites(g, s, data, s1, k - 1);
    }
  }

  /** The commit of the protocol makes, tick by tick, exactly the writes the crash theorem is about. */
  lemma {:induction false} CommitTicks(g: Geometry, s: State, data: seq<Block>)
    requires GoodList(g, |s.disk|, s.lh) && s.lh != [] && Pinning(s, data) && s.phase == WriteLog(0)
    ensures var ws := CommitWrites(g, s.disk, s.lh, data);
            && (forall k | 0 <= k <= |ws| :: Ticks(g, s, k).Next? && Ticks(g, s, k).s.disk == Apply(s.disk, ws[..k]))
            && Ticks(g, s, |ws|).Next? && Ticks(g, s, |ws|).s.phase == Finish
            && Ticks(g, s, |ws|).s.disk == Apply(s.disk, ws)
  {
    var ws := CommitWrites(g, s.disk, s.lh, data);
    forall k | 0 <= k <= |ws|
      ensures Ticks(g, s, k).Next? && Ticks(g, s, k).s.disk == Apply(s.disk, ws[..k])
    {
      TicksWrite(g, s, data, k);
    }
    TicksWrite(g, s, data, |ws|);
    assert ws[..|ws|] == ws;
    hide Ticks, Apply, CommitWrites;
  }

  /** When it is done, what is durable is what the kernel sees. */
  lemma {:induction false} FinishedIsDurable(g: Geometry, s: State, a: Spec)
    requires Inv(g, s) && Stands(g, s, a) && s.phase == Finish
    ensures Home(g, a.durable) == Home(g, a.current)
  {
    forall b | 0 <= b < |s.disk| && !g.InLog(b) ensures a.durable[b] == a.current[b] {
      assert g.IsHome(|s.disk|, b);
    }
    HomeEqual(g, a.durable, a.current);
  }

  // ------------------------------------------------------------ every operation that ends is committed

  /** Ticks until no commit and no recovery is under way. */
  function TicksLeft(s: State): int {
    match s.phase
    case Idle => 0
    case WriteLog(t) => 2 * |s.lh| + 3 - t
    case WriteHead => |s.lh| + 3
    case Install(t) => |s.lh| + 2 - t
    case ClearHead => 2
    case Finish => 1
    case Reinstall(t) => |s.lh| + 1 - t
    case Reclear => 1
  }

  function Repeat(step: Step, k: int): seq<Step>
    decreases k
  {
    if k <= 0 then [] else [step] + Repeat(step, k - 1)
  }

  /** Commit and recovery never stop halfway. */
  lemma {:induction false} TickOn(g: Geometry, s: State, a: Spec)
    requires Inv(g, s) && Stands(g, s, a) && !s.phase.Idle?
    ensures TakeTick(g, s).Next? && s.ops == [] && TakeTick(g, s).s.ops == []
    ensures TicksLeft(s) >= 1 && TicksLeft(TakeTick(g, s).s) == TicksLeft(s) - 1
  {
    hide Installed, Copied, Pinned, Distinct, WithHeader, Header, HasHeader, IsView, IsDurable;
  }

  /** No operation, no commit, an empty log: the home blocks on disk are those the kernel sees. */
  ghost predicate Settled(g: Geometry, s: State, current: Disk) {
    && s.phase == Idle && s.lh == [] && s.ops == [] && Inv(g, s)
    && Home(g, Recovered(g, s.disk)) == Home(g, current)
  }

  lemma {:induction false} IdleSettled(g: Geometry, s: State, a: Spec)
    requires Inv(g, s) && Stands(g, s, a) && s.phase == Idle && s.ops == []
    ensures Settled(g, s, a.current)
  {
    assert s.lh[0..] == s.lh;
    RecoveredIsDurable(g, s.disk);
    DurableUnique(g, s.disk, Recovered(g, s.disk), a.durable);
    forall b | 0 <= b < |s.disk| && !g.InLog(b) ensures a.durable[b] == a.current[b] {
      assert g.IsHome(|s.disk|, b);
    }
    HomeEqual(g, a.durable, a.current);
  }

  lemma {:induction false} Settles(g: Geometry, s: State, a: Spec)
    requires Inv(g, s) && Stands(g, s, a) && s.ops == []
    ensures var r := Run(g, s, Repeat(Tick, TicksLeft(s)));
            r.Next? && Settled(g, r.s, a.current) && TakeBegin(r.s).Next?
    decreases TicksLeft(s)
  {
    if s.phase.Idle? {
      IdleSettled(g, s, a);
    } else {
      TickOn(g, s, a);
      var a' := TickStep(g, s, a);
      var s' := TakeTick(g, s).s;
      Settles(g, s', a');
      hide Inv, Stands, Settled, TakeTick, TicksLeft, TakeBegin, Run;
      RunOn(g, s, Tick, Repeat(Tick, TicksLeft(s) - 1));
    }
  }

  lemma RunOn(g: Geometry, s: State, step: Step, rest: seq<Step>)
    requires Inv(g, s) && Take(g, s, step).Next?
    ensures Run(g, s, [step] + rest) == Run(g, Take(g, s, step).s, rest)
  {
    hide Take, Run;
    RunHead(g, s, step, rest);
  }

  /** The outstanding operations end, each picked from those that are left. */
  predicate EndOrder(order: seq<nat>, n: nat) {
    |order| == n && forall i | 0 <= i < n :: order[i] < n - i
  }

  function Ends(order: seq<nat>): seq<Step> {
    if order == [] then [] else [End(order[0])] + Ends(order[1..])
  }

  /** Ticks of the commit that the last end_op starts. */
  function TicksDue(s: State): int {
    if s.ops == [] then TicksLeft(s) else if s.lh == [] then 1 else 2 * |s.lh| + 3
  }

  lemma {:induction false} EndOn(g: Geometry, s: State, a: Spec, op: nat)
    requires Inv(g, s) && Stands(g, s, a) && op < |s.ops|
    ensures TakeEnd(s, op).Next? && |TakeEnd(s, op).s.ops| == |s.ops| - 1
    ensures TicksDue(TakeEnd(s, op).s) == TicksDue(s)
  {
    EndReserved(s, op);
    assert s.phase == Idle;
  }

  /**
   Durability: from any state of any run, once the outstanding operations have ended, in whatever order,
   their commit comes by itself and ends; then everything the kernel saw is what recovery gives from then
   on, and begin_op admits the next operation.
   */
  lemma {:induction false} EndedIsDurable(g: Geometry, s: State, a: Spec, order: seq<nat>)
    requires Inv(g, s) && Stands(g, s, a) && EndOrder(order, |s.ops|)
    ensures var r := Run(g, s, Ends(order) + Repeat(Tick, TicksDue(s)));
            r.Next? && Settled(g, r.s, a.current) && TakeBegin(r.s).Next?
    decreases |order|
  {
    hide Inv, Stands, Settled, Run, TakeBegin, TakeEnd, TicksLeft, Repeat;
    var ticks := Repeat(Tick, TicksDue(s));
    if order == [] {
      assert Ends(order) + ticks == ticks && TicksDue(s) == TicksLeft(s);
      Settles(g, s, a);
    } else {
      var op, rest := order[0], order[1..];
      EndOn(g, s, a, op);
      EndStep(g, s, a, op);
      RestOrder(order);
      EndedIsDurable(g, TakeEnd(s, op).s, a.(active := a.active - 1), rest);
      RunOn(g, s, End(op), Ends(rest) + ticks);
      assert Ends(order) + ticks == [End(op)] + (Ends(rest) + ticks);
    }
  }

  lemma RestOrder(order: seq<nat>)
    requires EndOrder(order, |order|) && order != []
    ensures EndOrder(order[1..], |order| - 1)
  {
    assert forall i | 0 <= i < |order| - 1 :: order[1..][i] == order[i + 1];
  }

  // ------------------------------------------------------------ what survives

  /** The home blocks as the kernel reads them. */
  ghost function Seen(g: Geometry, s: State): Disk {
    Home(g, seq(|s.disk|, b requires 0 <= b < |s.disk| => Bread(s, b)))
  }

  /** No operation is in progress, and recovery is over. */
  predicate Calm(s: State) { s.ops == [] && !s.Recovering() }

  /** Whenever no operation is in progress, the kernel sees home blocks with property P. */
  ghost predicate Keeping(g: Geometry, s: State, steps: seq<Step>, P: Disk -> bool)
    decreases |steps|
  {
    && (Calm(s) ==> P(Seen(g, s)))
    && (steps != [] && GoodHeader(g, s.disk) && GoodList(g, |s.disk|, s.lh) && Take(g, s, steps[0]).Next? ==>
          Keeping(g, Take(g, s, steps[0]).s, steps[1..], P))
  }

  lemma {:induction false} SeenIsCurrent(g: Geometry, s: State, a: Spec)
    requires Inv(g, s) && Stands(g, s, a) && !s.Recovering()
    ensures Seen(g, s) == Home(g, a.current)
  {
    var v: Disk := seq(|s.disk|, b requires 0 <= b < |s.disk| => Bread(s, b));
    forall b | 0 <= b < |s.disk| && !g.InLog(b) ensures v[b] == a.current[b] {
      assert g.IsHome(|s.disk|, b);
    }
    HomeEqual(g, v, a.current);
  }

  /** A step makes nothing durable but what the kernel saw while no operation was in progress. */
  lemma {:induction false} StepDurable(g: Geometry, s: State, a: Spec, step: Step, P: Disk -> bool) returns (a': Spec)
    requires Inv(g, s) && Stands(g, s, a) && Take(g, s, step).Next?
    requires P(Home(g, a.durable)) && (Calm(s) ==> P(Seen(g, s)))
    ensures Inv(g, Take(g, s, step).s) && Stands(g, Take(g, s, step).s, a') && P(Home(g, a'.durable))
  {
    a' := StepRefines(g, s, a, step);
    if a'.durable != a.durable && !s.Recovering() {
      SeenIsCurrent(g, s, a);
    }
    hide Inv, IsDurable, IsView, Take, Home, Seen;
  }

  /**
   The point of the log: if every operation, once it and all others are finished, leaves the home blocks
   with property P, then after a crash at any moment of any run recovery gives home blocks with P.
   */
  lemma {:induction false} CrashKeeps(g: Geometry, s: State, a: Spec, steps: seq<Step>, P: Disk -> bool)
    requires Inv(g, s) && Stands(g, s, a) && P(Home(g, a.durable)) && Keeping(g, s, steps, P)
    requires Run(g, s, steps).Next?
    ensures GoodHeader(g, Run(g, s, steps).s.disk)
    ensures P(Home(g, Recovered(g, Run(g, s, steps).s.disk)))
    decreases |steps|
  {
    if steps == [] {
      RecoveredIsDurable(g, s.disk);
      DurableUnique(g, s.disk, Recovered(g, s.disk), a.durable);
    } else {
      var m := StepDurable(g, s, a, steps[0], P);
      hide Inv, Stands, Take, Home;
      CrashKeeps(g, Take(g, s, steps[0]).s, m, steps[1..], P);
    }
  }
}
