/**
 Sleep locks (src/sleeplock.c) over sleep and wakeup of src/fmt/proc.c, one shared access at a time. Any
 number of processes use one sleep lock; `lk` is its spin lock and `pt` is ptable.lock, which sleep
 hands to the scheduler and the scheduler hands to the process it resumes.
 */
module Sleeplock {
  import opened Common

  /** Where a process is in acquiresleep, sleep, releasesleep or wakeup. */
  datatype Pc =
    | Idle          // outside, lock not owned
    | Want          // acquire(&lock->lock) in acquiresleep or at the end of sleep
    | Test          // while(lock->locked)
    | NeedPt        // sleep: acquire(&ptable.lock)
    | HavePt        // sleep: release(lk)
    | Mark          // sleep: chan = lock, state = SLEEPING, sched()
    | Asleep
    | Resume        // sleep: chan = 0, release(&ptable.lock)
    | Got           // locked and pid set, spin lock still held
    | Hold          // acquiresleep returned
    | RelWant       // releasesleep: acquire(&lock->lock)
    | RelHave       // locked = 0, pid = 0
    | RelWake       // wakeup: acquire(&ptable.lock)
    | Scan(k: nat)  // wakeup1 has come to entry k
    | RelDone       // release(&lock->lock)

  datatype St = Running | Runnable | Sleeping
  datatype Lock = Free | By(i: nat) | Sched

  /** `pid` is the process recorded in the sleep lock. */
  datatype State = State(pcs: seq<Pc>, sts: seq<St>, locked: bool, pid: Option<nat>, lk: Lock, pt: Lock)

  datatype Step =
    | Go(i: nat)          // the process's next access
    | Acquire(i: nat)     // acquiresleep is called
    | Release(i: nat)     // releasesleep is called, by the holder
    | Switch(i: nat)      // timer: the process is preempted, or resumed after that
    | Elsewhere(i: nat)   // it sleeps on, or is woken from, another channel
    | Kill(i: nat)
    | SchedIn
    | SchedOut
    | SchedRun(i: nat)

  predicate HoldsLk(pc: Pc) {
    pc == Test || pc == NeedPt || pc == HavePt || pc == Got || pc == RelHave || pc == RelWake || pc.Scan?
    || pc == RelDone
  }

  predicate HoldsPt(pc: Pc) {
    pc == HavePt || pc == Mark || pc == Resume || pc.Scan?
  }

  /** From the moment acquiresleep has set `locked` until releasesleep clears it. */
  predicate Owns(pc: Pc) {
    pc == Got || pc == Hold || pc == RelWant || pc == RelHave
  }

  predicate Sized(s: State) { |s.pcs| == |s.sts| }

  predicate Enabled(s: State, step: Step)
  {
    Sized(s) &&
    match step
    case Go(i) =>
      && i < |s.pcs| && s.sts[i] == Running
      && s.pcs[i] != Idle && s.pcs[i] != Hold && s.pcs[i] != Asleep
      && (s.pcs[i] == Want || s.pcs[i] == RelWant ==> s.lk == Free)
      && (s.pcs[i] == NeedPt || s.pcs[i] == RelWake ==> s.pt == Free)
    case Acquire(i) => i < |s.pcs| && s.sts[i] == Running && s.pcs[i] == Idle
    case Release(i) => i < |s.pcs| && s.sts[i] == Running && s.pcs[i] == Hold
    case Switch(i) => i < |s.pcs| && s.sts[i] != Sleeping && s.pt == Free && s.pcs[i] != Asleep
                      && !HoldsLk(s.pcs[i]) && !HoldsPt(s.pcs[i])
    case Elsewhere(i) => i < |s.pcs| && s.sts[i] != Runnable && s.pt == Free && (s.pcs[i] == Idle || s.pcs[i] == Hold)
    case Kill(i) => i < |s.pcs| && s.pt == Free
    case SchedIn => s.pt == Free
    case SchedOut => s.pt == Sched
    case SchedRun(i) => i < |s.pcs| && s.pt == Sched && s.sts[i] == Runnable && s.pcs[i] == Asleep
  }

  function At(s: State, i: nat, pc: Pc): State
    requires i < |s.pcs|
  {
    s.(pcs := s.pcs[i := pc])
  }

  /** The next access of process i. */
  function Next(s: State, i: nat): State
    requires Enabled(s, Go(i))
  {
    match s.pcs[i]
    case Want => At(s, i, Test).(lk := By(i))
    case Test => if s.locked then At(s, i, NeedPt) else At(s, i, Got).(locked := true, pid := Some(i))
    case NeedPt => At(s, i, HavePt).(pt := By(i))
    case HavePt => At(s, i, Mark).(lk := Free)
    case Mark => At(s, i, Asleep).(sts := s.sts[i := Sleeping], pt := Sched)
    case Resume => At(s, i, Want).(pt := Free)
    case Got => At(s, i, Hold).(lk := Free)
    case RelWant => At(s, i, RelHave).(lk := By(i))
    case RelHave => At(s, i, RelWake).(locked := false, pid := None)
    case RelWake => At(s, i, Scan(0)).(pt := By(i))
    case Scan(k) =>
      if k < |s.pcs| then
        var woken := if s.pcs[k] == Asleep && s.sts[k] == Sleeping then s.sts[k := Runnable] else s.sts;
        At(s, i, Scan(k + 1)).(sts := woken)
      else
        At(s, i, RelDone).(pt := Free)
    case RelDone => At(s, i, Idle).(lk := Free)
    case _ => s
  }

  function Take(s: State, step: Step): State
    requires Enabled(s, step)
  {
    match step
    case Go(i) => Next(s, i)
    case Acquire(i) => At(s, i, Want)
    case Release(i) => At(s, i, RelWant)
    case Switch(i) => s.(sts := s.sts[i := if s.sts[i] == Running then Runnable else Running])
    case Elsewhere(i) => s.(sts := s.sts[i := if s.sts[i] == Running then Sleeping else Runnable])
    case Kill(i) => s.(sts := s.sts[i := if s.sts[i] == Sleeping then Runnable else s.sts[i]])
    case SchedIn => s.(pt := Sched)
    case SchedOut => s.(pt := Free)
    case SchedRun(i) => At(s, i, Resume).(sts := s.sts[i := Running], pt := By(i))
  }

  // ------------------------------------------------------------ invariant

  /** The lock's spin lock is held by the process whose place in the code says so. */
  ghost predicate LkHeld(s: State) {
    && s.lk != Sched && (s.lk.By? ==> s.lk.i < |s.pcs|)
    && (forall i: nat | i < |s.pcs| :: HoldsLk(s.pcs[i]) <==> s.lk == By(i))
  }

  /** And so is ptable.lock, unless the scheduler has it. */
  ghost predicate PtHeld(s: State) {
    forall i: nat | i < |s.pcs| :: HoldsPt(s.pcs[i]) <==> s.pt == By(i)
  }

  /** The lock is taken exactly while one process owns it, and records that process. */
  ghost predicate Owner(s: State) {
    && (s.locked <==> s.pid.Some?)
    && (s.pid.Some? ==> s.pid.value < |s.pcs|)
    && (forall i: nat | i < |s.pcs| :: Owns(s.pcs[i]) <==> s.pid == Some(i))
  }

  /** Process i sleeps on the lock, or can no longer be kept from doing so. */
  predicate Sleeper(s: State, i: nat)
    requires Sized(s) && i < |s.pcs|
  {
    s.pcs[i] == NeedPt || s.pcs[i] == HavePt || s.pcs[i] == Mark || (s.pcs[i] == Asleep && s.sts[i] == Sleeping)
  }

  /** A releaser has cleared the lock and its wakeup has yet to come past entry i. */
  predicate Pending(s: State, i: nat) {
    s.lk.By? && s.lk.i < |s.pcs| && (s.pcs[s.lk.i] == RelWake || (s.pcs[s.lk.i].Scan? && s.pcs[s.lk.i].k <= i))
  }

  ghost predicate NoLostWakeup(s: State)
    requires Sized(s)
  {
    forall i: nat | i < |s.pcs| && Sleeper(s, i) :: s.locked || Pending(s, i)
  }

  ghost predicate Inv(s: State) {
    Sized(s) && LkHeld(s) && PtHeld(s) && Owner(s) && NoLostWakeup(s)
  }

  // ------------------------------------------------------------ every step keeps it

  /** What an access of process i does to the claims about process j. */
  lemma {:induction false} GoLkAt(s: State, i: nat, j: nat)
    requires Enabled(s, Go(i)) && j < |s.pcs|
    requires (HoldsLk(s.pcs[i]) <==> s.lk == By(i)) && (HoldsLk(s.pcs[j]) <==> s.lk == By(j))
    ensures var t := Next(s, i); |t.pcs| == |s.pcs| && (HoldsLk(t.pcs[j]) <==> t.lk == By(j))
  {
    if j != i { assert Next(s, i).pcs[j] == s.pcs[j]; }
  }

  lemma {:induction false} GoPtAt(s: State, i: nat, j: nat)
    requires Enabled(s, Go(i)) && j < |s.pcs|
    requires (HoldsPt(s.pcs[i]) <==> s.pt == By(i)) && (HoldsPt(s.pcs[j]) <==> s.pt == By(j))
    ensures var t := Next(s, i); |t.pcs| == |s.pcs| && (HoldsPt(t.pcs[j]) <==> t.pt == By(j))
  {
    if j != i { assert Next(s, i).pcs[j] == s.pcs[j]; }
  }

  lemma {:induction false} GoOwnerAt(s: State, i: nat, j: nat)
    requires Enabled(s, Go(i)) && j < |s.pcs| && (s.locked <==> s.pid.Some?)
    requires (Owns(s.pcs[i]) <==> s.pid == Some(i)) && (Owns(s.pcs[j]) <==> s.pid == Some(j))
    ensures var t := Next(s, i); |t.pcs| == |s.pcs| && (Owns(t.pcs[j]) <==> t.pid == Some(j))
  {
    if j != i { assert Next(s, i).pcs[j] == s.pcs[j]; }
  }

  lemma {:induction false} GoLk(s: State, i: nat)
    requires LkHeld(s) && Enabled(s, Go(i))
    ensures LkHeld(Next(s, i))
  {
    var t := Next(s, i);
    assert |t.pcs| == |s.pcs| && t.lk != Sched && (t.lk.By? ==> t.lk.i < |t.pcs|);
    forall j: nat | j < |s.pcs| ensures HoldsLk(t.pcs[j]) <==> t.lk == By(j) { GoLkAt(s, i, j); }
    hide Next, HoldsLk, Enabled;
  }

  lemma {:induction false} GoPt(s: State, i: nat)
    requires PtHeld(s) && Enabled(s, Go(i))
    ensures PtHeld(Next(s, i))
  {
    var t := Next(s, i);
    assert |t.pcs| == |s.pcs|;
    forall j: nat | j < |s.pcs| ensures HoldsPt(t.pcs[j]) <==> t.pt == By(j) { GoPtAt(s, i, j); }
    hide Next, HoldsPt, Enabled;
  }

  lemma {:induction false} GoOwner(s: State, i: nat)
    requires Owner(s) && Enabled(s, Go(i))
    ensures Owner(Next(s, i))
  {
    var t := Next(s, i);
    assert |t.pcs| == |s.pcs| && (t.locked <==> t.pid.Some?) && (t.pid.Some? ==> t.pid.value < |t.pcs|);
    forall j: nat | j < |s.pcs| ensures Owns(t.pcs[j]) <==> t.pid == Some(j) { GoOwnerAt(s, i, j); }
    hide Next, Owns, Enabled;
  }

  /** What the invariant says of one process. */
  lemma {:induction false} InvAt(s: State, i: nat)
    requires Inv(s) && i < |s.pcs|
    ensures Sized(s) && s.lk != Sched && (s.lk.By? ==> s.lk.i < |s.pcs|) && (s.locked <==> s.pid.Some?)
    ensures HoldsLk(s.pcs[i]) <==> s.lk == By(i)
    ensures HoldsPt(s.pcs[i]) <==> s.pt == By(i)
    ensures Owns(s.pcs[i]) <==> s.pid == Some(i)
    ensures Sleeper(s, i) ==> s.locked || Pending(s, i)
  {
  }

  /** One process at a time: what an access does to the sleep of process j. */
  lemma {:induction false} GoWakeup(s: State, i: nat, j: nat)
    requires Inv(s) && Enabled(s, Go(i)) && j < |s.pcs| && Sleeper(Next(s, i), j)
    ensures Next(s, i).locked || Pending(Next(s, i), j)
  {
    hide Inv;
    InvAt(s, i);
    InvAt(s, j);
    if s.lk.By? { InvAt(s, s.lk.i); }
  }

  /** The steps between accesses move no process in or out of a section that matters. */
  lemma {:induction false} OtherAt(s: State, step: Step, j: nat)
    requires Enabled(s, step) && !step.Go? && j < |s.pcs|
    ensures var t := Take(s, step);
            && |t.pcs| == |s.pcs| && t.lk == s.lk && t.locked == s.locked && t.pid == s.pid
            && HoldsLk(t.pcs[j]) == HoldsLk(s.pcs[j]) && Owns(t.pcs[j]) == Owns(s.pcs[j])
  {
  }

  lemma {:induction false} OtherLk(s: State, step: Step)
    requires LkHeld(s) && Owner(s) && Enabled(s, step) && !step.Go?
    ensures LkHeld(Take(s, step)) && Owner(Take(s, step))
  {
    var t := Take(s, step);
    assert |t.pcs| == |s.pcs| && t.lk == s.lk && t.locked == s.locked && t.pid == s.pid;
    forall j: nat | j < |s.pcs|
      ensures HoldsLk(t.pcs[j]) == HoldsLk(s.pcs[j]) && Owns(t.pcs[j]) == Owns(s.pcs[j])
    {
      OtherAt(s, step, j);
    }
    hide Take, HoldsLk, Owns;
  }

  lemma {:induction false} OtherPt(s: State, step: Step)
    requires PtHeld(s) && Enabled(s, step) && !step.Go?
    ensures PtHeld(Take(s, step))
  {
  }

  lemma {:induction false} OtherWakeup(s: State, step: Step, j: nat)
    requires Inv(s) && Enabled(s, step) && !step.Go? && j < |s.pcs| && Sleeper(Take(s, step), j)
    ensures Take(s, step).locked || Pending(Take(s, step), j)
  {
    hide Inv;
    InvAt(s, j);
    if s.lk.By? { InvAt(s, s.lk.i); }
  }

  lemma {:induction false} StepKeeps(s: State, step: Step)
    requires Inv(s) && Enabled(s, step)
    ensures Inv(Take(s, step))
  {
    hide LkHeld, PtHeld, Owner, NoLostWakeup;
    if step.Go? {
      GoLk(s, step.i);
      GoPt(s, step.i);
      GoOwner(s, step.i);
    } else {
      OtherLk(s, step);
      OtherPt(s, step);
    }
    StepWakeups(s, step);
  }

  lemma {:induction false} StepWakeups(s: State, step: Step)
    requires Inv(s) && Enabled(s, step)
    ensures Sized(Take(s, step)) && NoLostWakeup(Take(s, step))
  {
    var t := Take(s, step);
    assert Sized(t) && |t.pcs| == |s.pcs|;
    forall j: nat | j < |t.pcs| && Sleeper(t, j)
      ensures t.locked || Pending(t, j)
    {
      hide Inv, Sleeper, Pending;
      if step.Go? {
        GoWakeup(s, step.i, j);
      } else {
        OtherWakeup(s, step, j);
      }
    }
    hide Inv, Take, Sleeper, Pending;
  }

  // ------------------------------------------------------------ every run

  predicate Possible(s: State, steps: seq<Step>)
    decreases |steps|
  {
    steps == [] || (Enabled(s, steps[0]) && Possible(Take(s, steps[0]), steps[1..]))
  }

  function After(s: State, steps: seq<Step>): State
    requires Possible(s, steps)
    decreases |steps|
  {
    if steps == [] then s else After(Take(s, steps[0]), steps[1..])
  }

  /** initsleeplock: free, and nobody inside. */
  predicate Initial(s: State) {
    && Sized(s) && !s.locked && s.pid == None && s.lk == Free && (s.pt == Free || s.pt == Sched)
    && forall i: nat | i < |s.pcs| :: s.pcs[i] == Idle
  }

  lemma {:induction false} RunKeeps(s: State, steps: seq<Step>)
    requires Inv(s) && Possible(s, steps)
    ensures Inv(After(s, steps))
    decreases |steps|
  {
    if steps != [] {
      StepKeeps(s, steps[0]);
      hide Inv, Enabled, Take;
      RunKeeps(Take(s, steps[0]), steps[1..]);
    }
  }

  /**
   Every interleaving: one owner at most; a process asleep on the lock finds it held, or its wakeup is
   still to come; and once no release is half done, it is held by somebody else.
   */
  lemma {:induction false} EveryRun(s: State, steps: seq<Step>)
    requires Initial(s) && Possible(s, steps)
    ensures var e := After(s, steps);
            && Sized(e)
            && (forall i: nat, j: nat | i < |e.pcs| && j < |e.pcs| && Owns(e.pcs[i]) && Owns(e.pcs[j]) :: i == j)
            && (forall i: nat | i < |e.pcs| && e.pcs[i] == Asleep && e.sts[i] == Sleeping :: e.locked || Pending(e, i))
            && (forall i: nat | i < |e.pcs| && e.pcs[i] == Asleep && e.sts[i] == Sleeping && e.lk == Free ::
                  e.pid.Some? && e.pid.value != i && e.pid.value < |e.pcs| && Owns(e.pcs[e.pid.value]))
  {
    assert Inv(s);
    RunKeeps(s, steps);
    var e := After(s, steps);
    hide After, Possible;
    forall i: nat | i < |e.pcs| && e.pcs[i] == Asleep && e.sts[i] == Sleeping
      ensures e.locked || Pending(e, i)
    {
      assert Sleeper(e, i);
    }
  }

  // ------------------------------------------------------------ what callers see

  /** Inside acquiresleep. */
  predicate Acquiring(pc: Pc) {
    pc == Want || pc == Test || pc == NeedPt || pc == HavePt || pc == Mark || pc == Asleep || pc == Resume || pc == Got
  }

  /** acquiresleep goes on, or returns with the lock held by its caller. */
  lemma {:induction false} AcquireStep(s: State, step: Step, i: nat)
    requires Inv(s) && Enabled(s, step) && i < |s.pcs| && Acquiring(s.pcs[i])
    ensures var t := Take(s, step);
            |t.pcs| == |s.pcs| && (Acquiring(t.pcs[i]) || (t.pcs[i] == Hold && t.locked && t.pid == Some(i)))
  {
    InvAt(s, i);
    hide Inv;
    if step == Go(i) {
      OwnGo(s, i);
    } else {
      OthersKeep(s, step, i);
    }
  }

  lemma {:induction false} OwnGo(s: State, i: nat)
    requires Enabled(s, Go(i)) && Acquiring(s.pcs[i]) && (Owns(s.pcs[i]) <==> s.pid == Some(i))
    requires s.locked <==> s.pid.Some?
    ensures var t := Next(s, i);
            |t.pcs| == |s.pcs| && (Acquiring(t.pcs[i]) || (t.pcs[i] == Hold && t.locked && t.pid == Some(i)))
  {
  }

  lemma {:induction false} OthersKeep(s: State, step: Step, i: nat)
    requires Enabled(s, step) && i < |s.pcs| && Acquiring(s.pcs[i]) && step != Go(i)
    ensures |Take(s, step).pcs| == |s.pcs| && Acquiring(Take(s, step).pcs[i])
  {
    if step.Go? {
      GoElse(s, step.i, i);
    }
  }

  /** An access of another process moves nobody else. */
  lemma {:induction false} GoElse(s: State, j: nat, i: nat)
    requires Enabled(s, Go(j)) && i < |s.pcs| && i != j
    ensures |Next(s, j).pcs| == |s.pcs| && Next(s, j).pcs[i] == s.pcs[i]
  {
  }

  /** In every interleaving acquiresleep returns, if it does, as the owner of the lock. */
  lemma {:induction false} AcquireReturns(s: State, steps: seq<Step>, i: nat) returns (n: nat)
    requires Inv(s) && Possible(s, steps) && i < |s.pcs| && Acquiring(s.pcs[i])
    ensures |After(s, steps).pcs| == |s.pcs|
    ensures !Acquiring(After(s, steps).pcs[i]) ==>
              && n <= |steps| && Possible(s, steps[..n])
              && var e := After(s, steps[..n]); |e.pcs| == |s.pcs| && e.pcs[i] == Hold && e.locked && e.pid == Some(i)
    decreases |steps|
  {
    n := 0;
    if steps != [] {
      StepKeeps(s, steps[0]);
      AcquireStep(s, steps[0], i);
      var t, rest := Take(s, steps[0]), steps[1..];
      if Acquiring(t.pcs[i]) {
        var k := AcquireReturns(t, rest, i);
        n := k + 1;
        if k <= |rest| { assert steps[..n][1..] == rest[..k]; }
      } else {
        n := 1;
        assert steps[..1][1..] == [];
        StepsSize(t, rest);
      }
      hide Inv, Take, Enabled;
    }
  }

  lemma {:induction false} StepsSize(s: State, steps: seq<Step>)
    requires Possible(s, steps)
    ensures |After(s, steps).pcs| == |s.pcs|
    decreases |steps|
  {
    if steps != [] {
      assert |Take(s, steps[0]).pcs| == |s.pcs|;
      hide Take, Enabled;
      StepsSize(Take(s, steps[0]), steps[1..]);
    }
  }

  /** Nobody loses the lock but by its own releasesleep. */
  lemma {:induction false} OwnerReleases(s: State, step: Step, i: nat)
    requires Enabled(s, step) && i < |s.pcs| && Owns(s.pcs[i])
    ensures var t := Take(s, step); |t.pcs| == |s.pcs| && (Owns(t.pcs[i]) || (step == Go(i) && s.pcs[i] == RelHave))
  {
    if step.Go? && step.i != i {
      GoElse(s, step.i, i);
      hide Next;
    }
  }

  /** A free lock that nobody else is after is acquired in three accesses. */
  lemma {:induction false} Uncontended(s: State, i: nat)
    requires Sized(s) && i < |s.pcs| && s.pcs[i] == Idle && s.sts[i] == Running && !s.locked && s.lk == Free
    ensures var steps := [Acquire(i), Go(i), Go(i), Go(i)];
            && Possible(s, steps)
            && After(s, steps) == s.(pcs := s.pcs[i := Hold], locked := true, pid := Some(i))
  {
    var a, b := At(s, i, Want), At(s, i, Test).(lk := By(i));
    var c := At(s, i, Got).(lk := By(i), locked := true, pid := Some(i));
    var e := At(s, i, Hold).(locked := true, pid := Some(i));
    assert Take(s, Acquire(i)) == a && Take(a, Go(i)) == b && Take(b, Go(i)) == c;
    assert Take(c, Go(i)) == e;
    Chain(s, Acquire(i), [Go(i), Go(i), Go(i)], a);
    Chain(a, Go(i), [Go(i), Go(i)], b);
    Chain(b, Go(i), [Go(i)], c);
    Chain(c, Go(i), [], e);
    hide Take, Enabled;
    assert [Go(i)] + [] == [Go(i)] && [Go(i)] + [Go(i)] == [Go(i), Go(i)];
    assert [Go(i)] + [Go(i), Go(i)] == [Go(i), Go(i), Go(i)];
    assert [Acquire(i)] + [Go(i), Go(i), Go(i)] == [Acquire(i), Go(i), Go(i), Go(i)];
  }

  /** A held lock puts the caller to sleep, with every spin lock let go and the scheduler running. */
  lemma {:induction false} Contended(s: State, i: nat)
    requires Sized(s) && i < |s.pcs| && s.pcs[i] == Want && s.sts[i] == Running
    requires s.locked && s.lk == Free && s.pt == Free
    ensures var steps := Gos(i, 5);
            && Possible(s, steps)
            && After(s, steps) == s.(pcs := s.pcs[i := Asleep], sts := s.sts[i := Sleeping], pt := Sched)
  {
    hide Take, Enabled, Possible, After;
    var a, b := At(s, i, Test).(lk := By(i)), At(s, i, NeedPt).(lk := By(i));
    var c, d := At(s, i, HavePt).(lk := By(i), pt := By(i)), At(s, i, Mark).(pt := By(i));
    var e := At(s, i, Asleep).(sts := s.sts[i := Sleeping], pt := Sched);
    SleepStart(s, i);
    SleepEnd(s, i);
    Over(e);
    Chain(d, Go(i), Gos(i, 0), e);
    Chain(c, Go(i), Gos(i, 1), d);
    Chain(b, Go(i), Gos(i, 2), c);
    Chain(a, Go(i), Gos(i, 3), b);
    Chain(s, Go(i), Gos(i, 4), a);
    assert Gos(i, 0) == [] && forall k: nat | k < 5 :: Gos(i, k + 1) == [Go(i)] + Gos(i, k);
  }

  lemma SleepStart(s: State, i: nat)
    requires Sized(s) && i < |s.pcs| && s.pcs[i] == Want && s.sts[i] == Running
    requires s.locked && s.lk == Free && s.pt == Free
    ensures var a, b := At(s, i, Test).(lk := By(i)), At(s, i, NeedPt).(lk := By(i));
            && Enabled(s, Go(i)) && Take(s, Go(i)) == a && Enabled(a, Go(i)) && Take(a, Go(i)) == b
            && Enabled(b, Go(i)) && Take(b, Go(i)) == At(s, i, HavePt).(lk := By(i), pt := By(i))
  {
  }

  lemma SleepEnd(s: State, i: nat)
    requires Sized(s) && i < |s.pcs| && s.sts[i] == Running && s.lk == Free && s.pt == Free
    ensures var c, d := At(s, i, HavePt).(lk := By(i), pt := By(i)), At(s, i, Mark).(pt := By(i));
            && Enabled(c, Go(i)) && Take(c, Go(i)) == d && Enabled(d, Go(i))
            && Take(d, Go(i)) == At(s, i, Asleep).(sts := s.sts[i := Sleeping], pt := Sched)
  {
  }

  /** A process that was woken and is scheduled goes back to try for the lock again. */
  lemma {:induction false} Resumes(s: State, i: nat)
    requires Sized(s) && i < |s.pcs| && s.pcs[i] == Asleep && s.sts[i] == Runnable && s.pt == Sched
    ensures var steps := [SchedRun(i), Go(i)];
            && Possible(s, steps)
            && After(s, steps) == s.(pcs := s.pcs[i := Want], sts := s.sts[i := Running], pt := Free)
  {
    var a := At(s, i, Resume).(sts := s.sts[i := Running], pt := By(i));
    var b := At(s, i, Want).(sts := s.sts[i := Running], pt := Free);
    assert Take(s, SchedRun(i)) == a && Take(a, Go(i)) == b;
    Chain(a, Go(i), [], b);
    Chain(s, SchedRun(i), [Go(i)], a);
    hide Take, Enabled;
    assert [Go(i)] + [] == [Go(i)] && [SchedRun(i)] + [Go(i)] == [SchedRun(i), Go(i)];
  }

  function Gos(i: nat, k: nat): seq<Step> {
    if k == 0 then [] else [Go(i)] + Gos(i, k - 1)
  }

  /** Entry j after wakeup1 has come past the entries below k. */
  function WokenAt(s: State, k: nat, j: nat): St
    requires Sized(s) && j < |s.pcs|
  {
    if j < k && s.pcs[j] == Asleep && s.sts[j] == Sleeping then Runnable else s.sts[j]
  }

  function Woken(s: State, k: nat): (r: seq<St>)
    requires Sized(s)
    ensures |r| == |s.sts| && forall j | 0 <= j < |r| :: r[j] == WokenAt(s, k, j)
  {
    seq(|s.sts|, j requires 0 <= j < |s.sts| => WokenAt(s, k, j))
  }

  /** The releaser, from s, at entry k of wakeup1; behind it; and out of releasesleep. */
  function Scanning(s: State, i: nat, k: nat): State
    requires Sized(s) && i < |s.pcs|
  {
    State(s.pcs[i := Scan(k)], Woken(s, k), false, None, By(i), By(i))
  }

  function Scanned(s: State, i: nat): State
    requires Sized(s) && i < |s.pcs|
  {
    State(s.pcs[i := RelDone], Woken(s, |s.pcs|), false, None, By(i), Free)
  }

  function Released(s: State, i: nat): State
    requires Sized(s) && i < |s.pcs|
  {
    State(s.pcs[i := Idle], Woken(s, |s.pcs|), false, None, Free, Free)
  }

  /** One entry of wakeup1. */
  lemma {:induction false} ScanStep(s: State, i: nat, k: nat)
    requires Sized(s) && k < |s.pcs| && i < |s.pcs| && s.sts[i] == Running
    ensures Enabled(Scanning(s, i, k), Go(i)) && Take(Scanning(s, i, k), Go(i)) == Scanning(s, i, k + 1)
  {
    var a := Scanning(s, i, k);
    assert a.sts[i] == Running;
    ScanEntry(s, i, k);
    assert Take(a, Go(i)).pcs == s.pcs[i := Scan(k + 1)];
  }

  lemma {:induction false} ScanEntry(s: State, i: nat, k: nat)
    requires Sized(s) && k < |s.pcs| && i < |s.pcs| && s.sts[i] == Running
    ensures var a := Scanning(s, i, k);
            (if a.pcs[k] == Asleep && a.sts[k] == Sleeping then a.sts[k := Runnable] else a.sts) == Woken(s, k + 1)
  {
    var a := Scanning(s, i, k);
    var w := if a.pcs[k] == Asleep && a.sts[k] == Sleeping then a.sts[k := Runnable] else a.sts;
    assert k != i ==> a.pcs[k] == s.pcs[k];
    assert a.sts[k] == s.sts[k];
    forall j | 0 <= j < |w| ensures w[j] == Woken(s, k + 1)[j] {
      assert a.sts[j] == WokenAt(s, k, j);
    }
  }

  lemma ScanEnd(s: State, i: nat)
    requires Sized(s) && i < |s.pcs| && s.sts[i] == Running
    ensures Enabled(Scanning(s, i, |s.pcs|), Go(i)) && Take(Scanning(s, i, |s.pcs|), Go(i)) == Scanned(s, i)
    ensures Enabled(Scanned(s, i), Go(i)) && Take(Scanned(s, i), Go(i)) == Released(s, i)
  {
    assert Woken(s, |s.pcs|)[i] == Running;
  }

  lemma {:induction false} WakesAll(s: State, i: nat, k: nat)
    requires Sized(s) && k <= |s.pcs| && i < |s.pcs| && s.sts[i] == Running
    ensures Possible(Scanning(s, i, k), Gos(i, |s.pcs| - k + 2))
    ensures After(Scanning(s, i, k), Gos(i, |s.pcs| - k + 2)) == Released(s, i)
    decreases |s.pcs| - k
  {
    hide Take, Enabled, Scanning, Scanned, Released, Possible, After;
    var n := |s.pcs|;
    if k < n {
      ScanStep(s, i, k);
      WakesAll(s, i, k + 1);
      Chain(Scanning(s, i, k), Go(i), Gos(i, n - k + 1), Scanning(s, i, k + 1));
    } else {
      ScanEnd(s, i);
      Over(Released(s, i));
      Chain(Scanned(s, i), Go(i), [], Released(s, i));
      assert Gos(i, 1) == [Go(i)] + Gos(i, 0) && Gos(i, 0) == [];
      Chain(Scanning(s, i, k), Go(i), Gos(i, 1), Scanned(s, i));
    }
  }

  lemma Over(s: State)
    ensures Possible(s, []) && After(s, []) == s
  {
  }

  lemma ReleaseStart(s: State, i: nat)
    requires Sized(s) && i < |s.pcs| && s.pcs[i] == Hold && s.sts[i] == Running && s.lk == Free && s.pt == Free
    ensures var a, b := At(s, i, RelWant), At(s, i, RelHave).(lk := By(i));
            var c := At(s, i, RelWake).(lk := By(i), locked := false, pid := None);
            && Enabled(s, Release(i)) && Take(s, Release(i)) == a && Enabled(a, Go(i)) && Take(a, Go(i)) == b
            && Enabled(b, Go(i)) && Take(b, Go(i)) == c && Enabled(c, Go(i)) && Take(c, Go(i)) == Scanning(s, i, 0)
  {
    assert Woken(s, 0) == s.sts;
  }

  /** releasesleep, undisturbed, frees the lock and wakes every process asleep on it. */
  lemma {:induction false} Releases(s: State, i: nat)
    requires Sized(s) && i < |s.pcs| && s.pcs[i] == Hold && s.sts[i] == Running && s.lk == Free && s.pt == Free
    ensures var steps := [Release(i)] + Gos(i, |s.pcs| + 5);
            && Possible(s, steps)
            && After(s, steps) == State(s.pcs[i := Idle], Woken(s, |s.pcs|), false, None, Free, Free)
  {
    hide Take, Enabled, Scanning, Possible, After;
    var n := |s.pcs|;
    var a, b := At(s, i, RelWant), At(s, i, RelHave).(lk := By(i));
    var c := At(s, i, RelWake).(lk := By(i), locked := false, pid := None);
    ReleaseStart(s, i);
    WakesAll(s, i, 0);
    Chain(c, Go(i), Gos(i, n + 2), Scanning(s, i, 0));
    Chain(b, Go(i), Gos(i, n + 3), c);
    Chain(a, Go(i), Gos(i, n + 4), b);
    Chain(s, Release(i), Gos(i, n + 5), a);
  }

  lemma Chain(s: State, step: Step, rest: seq<Step>, t: State)
    requires Enabled(s, step) && Take(s, step) == t
    ensures Possible(s, [step] + rest) <==> Possible(t, rest)
    ensures Possible(t, rest) ==> After(s, [step] + rest) == After(t, rest)
  {
    hide Take, Enabled;
    assert ([step] + rest)[1..] == rest;
  }
}
