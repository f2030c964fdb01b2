/**
 What runs of src/fmt/proc.c do with killed processes and with those asleep in wait: kill reaches its
 process wherever it is, nothing but wait's reaping takes the mark away, and nobody sleeps in wait who
 is marked or has no child that could still end.
 */
module ProcRuns {
  import opened Common
  import opened ProcTable
  import opened ProcProtocol

  // ------------------------------------------------------------ the mark of a killed process

  /** kill marks the process and leaves it awake; it changes nothing else. */
  lemma KillMarks(s: Sys, i: nat)
    requires i < |s.procs|
    ensures Enabled(s, Kill(i))
    ensures var p, q := s.procs[i], Take(s, Kill(i)).procs[i];
            && q.killed && q.pid == p.pid && q.parent == p.parent && q.chan == p.chan
            && q.state == if p.state == SLEEPING then RUNNABLE else p.state
    ensures Take(s, Kill(i)) == s.(procs := s.procs[i := Take(s, Kill(i)).procs[i]])
  {
  }

  /** Does the step reap slot i? */
  predicate Reaps(step: Step, i: nat) { step.WaitReap? && step.c == i }

  /** A step marks exactly the slot it kills, and unmarks exactly the one it reaps. */
  lemma {:induction false} MarkStep(s: Sys, step: Step, i: nat)
    requires Enabled(s, step) && i < |s.procs|
    ensures var t := Take(s, step);
            |t.procs| == |s.procs|
            && (t.procs[i].killed <==> step == Kill(i) || (s.procs[i].killed && !Reaps(step, i)))
  {
    if step.Exit? { ExitedAt(s, step.me, i); }
  }

  /** Some step kills slot i and none after it reaps the slot. */
  ghost predicate Marked(steps: seq<Step>, i: nat) {
    exists n | 0 <= n < |steps| :: steps[n] == Kill(i) && Unreaped(steps[n + 1..], i)
  }

  ghost predicate Unreaped(steps: seq<Step>, i: nat) {
    forall k | 0 <= k < |steps| :: !Reaps(steps[k], i)
  }

  lemma {:induction false} UnreapedFirst(steps: seq<Step>, i: nat)
    requires steps != []
    ensures Unreaped(steps, i) <==> !Reaps(steps[0], i) && Unreaped(steps[1..], i)
  {
    if Unreaped(steps, i) {
      forall k | 0 <= k < |steps| - 1 ensures !Reaps(steps[1..][k], i) { assert steps[1..][k] == steps[k + 1]; }
    }
    if !Reaps(steps[0], i) && Unreaped(steps[1..], i) {
      forall k | 0 <= k < |steps| ensures !Reaps(steps[k], i) { if k > 0 { assert steps[1..][k - 1] == steps[k]; } }
    }
  }

  lemma {:induction false} MarkedFirst(steps: seq<Step>, i: nat)
    requires steps != []
    ensures Marked(steps, i) <==> (steps[0] == Kill(i) && Unreaped(steps[1..], i)) || Marked(steps[1..], i)
  {
    hide Unreaped;
    if n :| 0 <= n < |steps| && steps[n] == Kill(i) && Unreaped(steps[n + 1..], i) {
      if n > 0 { assert steps[1..][n - 1] == Kill(i) && steps[1..][n - 1 + 1..] == steps[n + 1..]; }
    }
    if n :| 0 <= n < |steps[1..]| && steps[1..][n] == Kill(i) && Unreaped(steps[1..][n + 1..], i) {
      assert steps[n + 1] == Kill(i) && steps[n + 1 + 1..] == steps[1..][n + 1..];
    }
  }

  /** Over every run: a slot is marked exactly if it was killed, or marked to begin with, and not reaped since. */
  lemma {:induction false} KilledExactly(s: Sys, steps: seq<Step>, i: nat)
    requires Possible(s, steps) && i < |s.procs|
    ensures var e := After(s, steps);
            |e.procs| == |s.procs|
            && (e.procs[i].killed <==> Marked(steps, i) || (s.procs[i].killed && Unreaped(steps, i)))
    decreases |steps|
  {
    if steps != [] {
      MarkStep(s, steps[0], i);
      MarkedFirst(steps, i);
      UnreapedFirst(steps, i);
      KilledExactly(Take(s, steps[0]), steps[1..], i);
      hide Take, Enabled;
    }
  }

  // ------------------------------------------------------------ the states of a process

  /** The step ends the sleep of process i. */
  predicate Rouses(s: Sys, step: Step, i: nat)
    requires Enabled(s, step) && i < |s.procs|
  {
    match step
    case Kill(k) => k == i
    case Wakeup(a) => s.procs[i].chan == Other(a)
    case Exit(me) => s.procs[i].chan == ParentChan(s.procs[me])
                     || (s.procs[i].chan == ProcChan(s.init) && HasZombie(s.procs, me, |s.procs|))
    case _ => false
  }

  /** The step ends the fork that made embryo i, for better or worse. */
  predicate Ends(s: Sys, step: Step, i: nat) {
    (step.ForkRun? || step.ForkFail?) && step.me in s.forking && s.forking[step.me] == i
  }

  predicate StopsRunning(step: Step, i: nat) {
    step == Yield(i) || step == Exit(i) || step == WaitSleep(i) || (step.Sleep? && step.me == i)
  }

  predicate FallsAsleep(step: Step, i: nat) { step == WaitSleep(i) || (step.Sleep? && step.me == i) }

  predicate Takes(step: Step, i: nat) { step.ForkAlloc? && step.c == i }

  /** The diagram of process states: which step brings a process into each state, and which out of it. */
  predicate Moves(s: Sys, step: Step, i: nat, p: ProcState, q: ProcState)
    requires Enabled(s, step) && i < |s.procs|
  {
    && (q == EMBRYO <==> Takes(step, i) || (p == EMBRYO && !Ends(s, step, i)))
    && (q == RUNNING <==> step == Run(i) || (p == RUNNING && !StopsRunning(step, i)))
    && (q == SLEEPING <==> FallsAsleep(step, i) || (p == SLEEPING && !Rouses(s, step, i)))
    && (q == ZOMBIE <==> step == Exit(i) || (p == ZOMBIE && !Reaps(step, i)))
    && (q == UNUSED <==>
          Reaps(step, i) || (step.ForkFail? && Ends(s, step, i)) || (p == UNUSED && !Takes(step, i)))
  }

  lemma {:induction false} ExitMoves(s: Sys, me: nat, i: nat)
    requires Enabled(s, Exit(me)) && i < |s.procs|
    ensures |Take(s, Exit(me)).procs| == |s.procs|
    ensures Moves(s, Exit(me), i, s.procs[i].state, Take(s, Exit(me)).procs[i].state)
  {
    ExitedAt(s, me, i);
    hide Exited, HasZombie, ParentChan;
  }

  lemma {:induction false} AllocMoves(s: Sys, me: nat, c: nat, i: nat)
    requires Embryos(s) && Enabled(s, ForkAlloc(me, c)) && i < |s.procs|
    ensures |Take(s, ForkAlloc(me, c)).procs| == |s.procs|
    ensures Moves(s, ForkAlloc(me, c), i, s.procs[i].state, Take(s, ForkAlloc(me, c)).procs[i].state)
  {
    hide Exited, HasZombie, ParentChan;
  }

  lemma {:induction false} FailMoves(s: Sys, me: nat, i: nat)
    requires Embryos(s) && Enabled(s, ForkFail(me)) && i < |s.procs|
    ensures |Take(s, ForkFail(me)).procs| == |s.procs|
    ensures Moves(s, ForkFail(me), i, s.procs[i].state, Take(s, ForkFail(me)).procs[i].state)
  {
    hide Exited, HasZombie, ParentChan;
  }

  lemma {:induction false} ParentMoves(s: Sys, me: nat, i: nat)
    requires Embryos(s) && Enabled(s, ForkParent(me)) && i < |s.procs|
    ensures |Take(s, ForkParent(me)).procs| == |s.procs|
    ensures Moves(s, ForkParent(me), i, s.procs[i].state, Take(s, ForkParent(me)).procs[i].state)
  {
    hide Exited, HasZombie, ParentChan;
  }

  lemma {:induction false} RunMoves(s: Sys, me: nat, i: nat)
    requires Embryos(s) && Enabled(s, ForkRun(me)) && i < |s.procs|
    ensures |Take(s, ForkRun(me)).procs| == |s.procs|
    ensures Moves(s, ForkRun(me), i, s.procs[i].state, Take(s, ForkRun(me)).procs[i].state)
  {
    hide Exited, HasZombie, ParentChan;
  }

  lemma {:induction false} OtherMoves(s: Sys, step: Step, i: nat)
    requires Enabled(s, step) && i < |s.procs| && !step.Exit?
    requires !step.ForkAlloc? && !step.ForkFail? && !step.ForkParent? && !step.ForkRun?
    ensures |Take(s, step).procs| == |s.procs| && Moves(s, step, i, s.procs[i].state, Take(s, step).procs[i].state)
  {
    hide Exited, HasZombie, ParentChan;
  }

  lemma {:induction false} Diagram(s: Sys, step: Step, i: nat)
    requires Inv(s) && Enabled(s, step) && i < |s.procs|
    ensures |Take(s, step).procs| == |s.procs| && Moves(s, step, i, s.procs[i].state, Take(s, step).procs[i].state)
  {
    hide Take, Enabled, Moves, NoLostWakeup, OwnChannel, Parented, Embryos, Pids, Accounted;
    match step
    case Exit(me) => ExitMoves(s, me, i);
    case ForkAlloc(me, c) => AllocMoves(s, me, c, i);
    case ForkFail(me) => FailMoves(s, me, i);
    case ForkParent(me) => ParentMoves(s, me, i);
    case ForkRun(me) => RunMoves(s, me, i);
    case _ => OtherMoves(s, step, i);
  }

  /** The books: pids enter `exited` by exit and `reaped` by wait, and a new process has a new pid. */
  lemma {:induction false} Recorded(s: Sys, step: Step)
    requires Enabled(s, step)
    ensures var t := Take(s, step);
            && t.exited == (if step.Exit? then s.exited + {s.procs[step.me].pid} else s.exited)
            && t.reaped == (if step.WaitReap? then s.reaped + [s.procs[step.c].pid] else s.reaped)
            && t.init == s.init && t.nextpid == s.nextpid + (if step.ForkAlloc? then 1 else 0)
    ensures step.ForkAlloc? ==> Take(s, step).procs[step.c].pid == s.nextpid
  {
  }

  // ------------------------------------------------------------ asleep in wait

  /** Process i is asleep in wait. */
  predicate InWait(s: Sys, i: nat)
    requires i < |s.procs|
  {
    s.procs[i].state == SLEEPING && s.procs[i].chan == ProcChan(i)
  }

  ghost predicate WaitingAt(s: Sys, i: nat)
    requires i < |s.procs|
  {
    InWait(s, i) ==> !s.procs[i].killed && HasChild(s.procs, i, |s.procs|)
  }

  /** Nobody sleeps in wait without a child, or marked. */
  ghost predicate Waiting(s: Sys) {
    forall i | 0 <= i < |s.procs| :: WaitingAt(s, i)
  }

  /** A child of a process asleep in wait stays its child. */
  lemma {:induction false} ChildStays(s: Sys, step: Step, i: nat, c: nat)
    requires Inv(s) && Enabled(s, step) && i < |s.procs| && c < |s.procs|
    requires InWait(s, i) && s.procs[c].parent == Some(i)
    ensures |Take(s, step).procs| == |s.procs| && Take(s, step).procs[c].parent == Some(i)
  {
    hide NoLostWakeup, OwnChannel, Pids, Accounted;
    if step.Exit? {
      ExitedAt(s, step.me, c);
      hide Exited;
    }
  }

  /** Only the step into wait puts a process to sleep there. */
  lemma {:induction false} SleptInWait(s: Sys, step: Step, i: nat)
    requires Inv(s) && Enabled(s, step) && i < |s.procs|
    requires |Take(s, step).procs| == |s.procs| && InWait(Take(s, step), i)
    ensures step != Kill(i) && (InWait(s, i) || step == WaitSleep(i))
  {
    hide NoLostWakeup, OwnChannel, Pids, Accounted, Parented;
    if step.Exit? {
      ExitedAt(s, step.me, i);
      hide Exited;
    }
  }

  lemma {:induction false} WaitingKeeps(s: Sys, step: Step)
    requires Inv(s) && Waiting(s) && Enabled(s, step)
    ensures Waiting(Take(s, step))
  {
    hide Inv, Take, Enabled;
    StepSize(s, step);
    var t := Take(s, step);
    forall i | 0 <= i < |t.procs| ensures WaitingAt(t, i) {
      MarkStep(s, step, i);
      assert WaitingAt(s, i);
      if InWait(t, i) {
        SleptInWait(s, step, i);
        if step == WaitSleep(i) {
          StartsWaiting(s, i);
        } else {
          var c :| 0 <= c < |s.procs| && s.procs[c].parent == Some(i);
          ChildStays(s, step, i, c);
        }
      }
    }
  }

  lemma StartsWaiting(s: Sys, i: nat)
    requires Enabled(s, WaitSleep(i)) && |Take(s, WaitSleep(i)).procs| == |s.procs|
    ensures WaitingAt(Take(s, WaitSleep(i)), i)
  {
    var c :| 0 <= c < |s.procs| && s.procs[c].parent == Some(i);
    assert Take(s, WaitSleep(i)).procs[c].parent == Some(i);
  }

  lemma StepSize(s: Sys, step: Step)
    requires Enabled(s, step)
    ensures |Take(s, step).procs| == |s.procs|
  {
  }

  lemma {:induction false} WaitingRun(s: Sys, steps: seq<Step>)
    requires Inv(s) && Waiting(s) && Possible(s, steps)
    ensures Waiting(After(s, steps)) && Inv(After(s, steps))
    decreases |steps|
  {
    hide Inv, Take, Enabled, Waiting;
    if steps != [] {
      StepKeeps(s, steps[0]);
      WaitingKeeps(s, steps[0]);
      WaitingRun(Take(s, steps[0]), steps[1..]);
    }
  }

  /** A child of a process asleep in wait is neither a zombie nor an embryo. */
  lemma {:induction false} ChildAble(s: Sys, i: nat, c: nat)
    requires Inv(s) && i < |s.procs| && c < |s.procs| && InWait(s, i) && s.procs[c].parent == Some(i)
    ensures Able(s.procs[c])
  {
    hide OwnChannel, Pids, Accounted;
  }

  /**
   After every run from boot, a process asleep in wait was not killed since its slot was last reaped, has
   a child, and each of its children can still act, and so still exit and wake it.
   */
  lemma {:induction false} WaitCanEnd(s: Sys, steps: seq<Step>, i: nat)
    requires Booted(s) && Possible(s, steps) && i < |s.procs|
    ensures |After(s, steps).procs| == |s.procs|
    ensures var e := After(s, steps);
            InWait(e, i) ==>
              && !Marked(steps, i) && HasChild(e.procs, i, |e.procs|)
              && forall c | 0 <= c < |e.procs| && e.procs[c].parent == Some(i) :: Able(e.procs[c])
  {
    hide Inv, After, Possible, Waiting, Marked, Unreaped;
    BootInv(s);
    BootWaiting(s);
    WaitingRun(s, steps);
    KilledExactly(s, steps, i);
    var e := After(s, steps);
    WaitingOne(e, i);
    if InWait(e, i) {
      forall c | 0 <= c < |e.procs| && e.procs[c].parent == Some(i) ensures Able(e.procs[c]) { ChildAble(e, i, c); }
    }
  }

  lemma BootWaiting(s: Sys)
    requires Booted(s)
    ensures Waiting(s)
  {
  }

  lemma WaitingOne(s: Sys, i: nat)
    requires Waiting(s) && i < |s.procs|
    ensures WaitingAt(s, i)
  {
  }

  // ------------------------------------------------------------ the life of a child

  /** Nobody is stuck: what runs may go on or give way, what can run may be run, and a fork may be finished. */
  lemma {:induction false} CanAct(s: Sys, i: nat)
    requires Inv(s) && i < |s.procs|
    ensures s.procs[i].state == RUNNABLE ==> Enabled(s, Run(i))
    ensures s.procs[i].state == RUNNING ==> Enabled(s, Yield(i))
    ensures Free(s, i) ==> (forall a :: Enabled(s, Sleep(i, a))) && (i != s.init ==> Enabled(s, Exit(i)))
    ensures Free(s, i) ==>
              forall c | 0 <= c < |s.procs| && s.procs[c].state == UNUSED :: Enabled(s, ForkAlloc(i, c))
    ensures s.procs[i].state == RUNNING && i in s.forking ==>
              Enabled(s, ForkParent(i)) && (Enabled(s, ForkFail(i)) || Enabled(s, ForkRun(i)))
    ensures forall a :: Enabled(s, Wakeup(a))
  {
    hide NoLostWakeup, OwnChannel, Parented, Pids, Accounted;
  }

  /** wait has exactly three ways on: a zombie child to reap, a child to sleep for, or nothing to wait for. */
  lemma {:induction false} WaitOutcomes(s: Sys, me: nat)
    requires Free(s, me)
    ensures (exists c :: Enabled(s, WaitReap(me, c))) <==> HasZombie(s.procs, me, |s.procs|)
    ensures Enabled(s, WaitSleep(me)) <==>
              !HasZombie(s.procs, me, |s.procs|) && HasChild(s.procs, me, |s.procs|) && !s.procs[me].killed
  {
    if HasZombie(s.procs, me, |s.procs|) {
      var c :| 0 <= c < |s.procs| && s.procs[c].parent == Some(me) && s.procs[c].state == ZOMBIE;
      assert Enabled(s, WaitReap(me, c));
    }
  }

  /** The steps can be taken one after the other and end in e. */
  ghost predicate Leads(s: Sys, steps: seq<Step>, e: Sys) {
    Possible(s, steps) && After(s, steps) == e
  }

  lemma LeadsNowhere(s: Sys)
    ensures Leads(s, [], s)
  {
  }

  lemma LeadsOn(s: Sys, step: Step, t: Sys, rest: seq<Step>, e: Sys)
    requires Enabled(s, step) && Take(s, step) == t && Leads(t, rest, e)
    ensures Leads(s, [step] + rest, e)
  {
    hide Take, Enabled;
    assert ([step] + rest)[1..] == rest;
  }

  /** The new process as fork leaves it. */
  function Child(s: Sys, me: nat, c: nat): Proc
    requires c < |s.procs|
  {
    s.procs[c].(state := RUNNABLE, pid := s.nextpid, parent := Some(me))
  }

  lemma ForkFirst(s: Sys, me: nat, c: nat)
    requires Free(s, me) && c < |s.procs| && s.procs[c].state == UNUSED && s.procs[c].parent == None && c != me
    ensures Enabled(s, ForkAlloc(me, c)) && Enabled(Alloc(s, me, c), ForkParent(me))
    ensures Take(s, ForkAlloc(me, c)) == Alloc(s, me, c)
    ensures var p := s.procs[c].(state := EMBRYO, pid := s.nextpid, parent := Some(me));
            Take(Alloc(s, me, c), ForkParent(me)) == Alloc(s, me, c).(procs := s.procs[c := p])
  {
    hide Exited;
    var a := Alloc(s, me, c);
    assert a.procs[c := a.procs[c].(parent := Some(me))]
           == s.procs[c := s.procs[c].(state := EMBRYO, pid := s.nextpid, parent := Some(me))];
  }

  lemma ForkLast(s: Sys, me: nat, c: nat)
    requires Free(s, me) && c < |s.procs| && s.procs[c].state == UNUSED && c != me
    ensures var p := s.procs[c].(state := EMBRYO, pid := s.nextpid, parent := Some(me));
            var b := Alloc(s, me, c).(procs := s.procs[c := p]);
            && Enabled(b, ForkRun(me))
            && Take(b, ForkRun(me)) == s.(procs := s.procs[c := Child(s, me, c)], nextpid := s.nextpid + 1)
  {
    hide Exited;
    var p := s.procs[c].(state := EMBRYO, pid := s.nextpid, parent := Some(me));
    assert s.forking[me := c] - {me} == s.forking;
    assert s.procs[c := p][c := p.(state := RUNNABLE)] == s.procs[c := Child(s, me, c)];
  }

  /** fork, when nothing fails, ends with a child of its own that can run, under a new pid. */
  lemma {:induction false} ForkDone(s: Sys, me: nat, c: nat)
    requires Inv(s) && Free(s, me) && c < |s.procs| && s.procs[c].state == UNUSED
    ensures Leads(s, [ForkAlloc(me, c), ForkParent(me), ForkRun(me)],
                  s.(procs := s.procs[c := Child(s, me, c)], nextpid := s.nextpid + 1))
  {
    Placed(s, c);
    hide Inv, Take, Enabled, Leads, Child, Alloc;
    var p := s.procs[c].(state := EMBRYO, pid := s.nextpid, parent := Some(me));
    var a, e := Alloc(s, me, c), s.(procs := s.procs[c := Child(s, me, c)], nextpid := s.nextpid + 1);
    var b := a.(procs := s.procs[c := p]);
    ForkFirst(s, me, c);
    ForkLast(s, me, c);
    LeadsNowhere(e);
    LeadsOn(b, ForkRun(me), e, [], e);
    LeadsOn(a, ForkParent(me), b, [ForkRun(me)] + [], e);
    LeadsOn(s, ForkAlloc(me, c), a, [ForkParent(me)] + ([ForkRun(me)] + []), e);
    assert [ForkAlloc(me, c)] + ([ForkParent(me)] + ([ForkRun(me)] + []))
           == [ForkAlloc(me, c), ForkParent(me), ForkRun(me)];
  }

  /** The parent falls asleep and the child gets the processor. */
  lemma FallAsleep(s: Sys, me: nat, c: nat)
    requires Enabled(s, WaitSleep(me)) && c < |s.procs| && s.procs[c].state == RUNNABLE
    ensures var a := Update(s, me, s.procs[me].(chan := ProcChan(me), state := SLEEPING));
            && Take(s, WaitSleep(me)) == a && Enabled(a, Run(c))
            && Take(a, Run(c)) == Update(a, c, a.procs[c].(state := RUNNING, chan := NoChan))
  {
    hide Exited;
  }

  /** The child exits, which wakes the parent. */
  lemma WakeUp(b: Sys, me: nat, c: nat)
    requires me < |b.procs| && c < |b.procs| && c != me && c != b.init && c !in b.forking
    requires b.procs[c].state == RUNNING && b.procs[c].parent == Some(me)
    requires b.procs[me].state == SLEEPING && b.procs[me].chan == ProcChan(me)
    ensures Enabled(b, Exit(c)) && Take(b, Exit(c)) == Quit(b, c) && |Quit(b, c).procs| == |b.procs|
    ensures var d := Quit(b, c);
            && d.procs[me].state == RUNNABLE && d.procs[c].state == ZOMBIE && d.procs[c].parent == Some(me)
            && d.procs[c].pid == b.procs[c].pid
  {
    ExitedAt(b, c, me);
    ExitedAt(b, c, c);
    hide Exited;
  }

  /** The parent reaps it. */
  lemma Reaped(d: Sys, me: nat, c: nat)
    requires me < |d.procs| && c < |d.procs| && me != c && me !in d.forking
    requires d.procs[me].state == RUNNABLE && d.procs[c].state == ZOMBIE && d.procs[c].parent == Some(me)
    ensures var a := Update(d, me, d.procs[me].(state := RUNNING, chan := NoChan));
            && Enabled(d, Run(me)) && Take(d, Run(me)) == a
            && Enabled(a, WaitReap(me, c)) && Take(a, WaitReap(me, c)) == Reap(a, c)
            && Reap(a, c).reaped == d.reaped + [d.procs[c].pid] && Reap(a, c).exited == d.exited
            && Reap(a, c).procs[me].state == RUNNING && Reap(a, c).procs[c].state == UNUSED
  {
    hide Exited;
  }

  /**
   A parent that waits for its only business, a child that is ready to run: the parent sleeps, the exit of
   the child wakes it, and wait returns the child's pid and frees its slot.
   */
  lemma {:induction false} WaitedFor(s: Sys, me: nat, c: nat) returns (e: Sys)
    requires Inv(s) && Free(s, me) && !s.procs[me].killed && !HasZombie(s.procs, me, |s.procs|)
    requires c < |s.procs| && s.procs[c].state == RUNNABLE && s.procs[c].parent == Some(me) && c !in s.forking
    ensures Leads(s, [WaitSleep(me), Run(c), Exit(c), Run(me), WaitReap(me, c)], e)
    ensures e.reaped == s.reaped + [s.procs[c].pid] && e.exited == s.exited + {s.procs[c].pid}
    ensures |e.procs| == |s.procs| && e.procs[me].state == RUNNING && e.procs[c].state == UNUSED
  {
    hide Inv, HasZombie, Enabled, Leads;
    Placed(s, c);
    InitAlone(s);
    WaitOutcomes(s, me);
    assert HasChild(s.procs, me, |s.procs|);
    e := WaitRun(s, me, c);
  }

  lemma {:induction false} WaitRun(s: Sys, me: nat, c: nat) returns (e: Sys)
    requires Enabled(s, WaitSleep(me)) && me < |s.procs| && c < |s.procs| && me != c && c != s.init
    requires s.procs[c].state == RUNNABLE && s.procs[c].parent == Some(me) && c !in s.forking && me !in s.forking
    ensures Leads(s, [WaitSleep(me), Run(c), Exit(c), Run(me), WaitReap(me, c)], e)
    ensures e.reaped == s.reaped + [s.procs[c].pid] && e.exited == s.exited + {s.procs[c].pid}
    ensures |e.procs| == |s.procs| && e.procs[me].state == RUNNING && e.procs[c].state == UNUSED
  {
    hide Take, Enabled, Leads, Exited;
    var a := Update(s, me, s.procs[me].(chan := ProcChan(me), state := SLEEPING));
    var b := Update(a, c, a.procs[c].(state := RUNNING, chan := NoChan));
    FallAsleep(s, me, c);
    WakeUp(b, me, c);
    var d := Quit(b, c);
    Reaped(d, me, c);
    var f := Update(d, me, d.procs[me].(state := RUNNING, chan := NoChan));
    e := Reap(f, c);
    LeadsNowhere(e);
    var last := [Run(me)] + ([WaitReap(me, c)] + []);
    LeadsOn(f, WaitReap(me, c), e, [], e);
    LeadsOn(d, Run(me), f, [WaitReap(me, c)] + [], e);
    LeadsOn(b, Exit(c), d, last, e);
    LeadsOn(a, Run(c), b, [Exit(c)] + last, e);
    LeadsOn(s, WaitSleep(me), a, [Run(c)] + ([Exit(c)] + last), e);
    assert [WaitSleep(me)] + ([Run(c)] + ([Exit(c)] + last))
           == [WaitSleep(me), Run(c), Exit(c), Run(me), WaitReap(me, c)];
  }

  lemma InitAlone(s: Sys)
    requires Inv(s)
    ensures s.init < |s.procs| && s.procs[s.init].parent == None
  {
  }
}
