/**
 Processes as interleaved steps: fork, exit, wait, kill, sleep, wakeup and the scheduler of
 src/fmt/proc.c on any number of processors. Each locked section is one step; fork is several, because
 it works on its embryo without the lock.
 */
module ProcProtocol {
  import opened Common
  import opened ProcTable

  /**
   `forking` maps a process inside fork to its embryo. `exited` and `reaped` record the pids that went
   through exit and those wait returned.
   */
  datatype Sys = Sys(procs: Table, init: nat, nextpid: int, forking: map<nat, nat>,
                     exited: set<int>, reaped: seq<int>)

  datatype Step =
    | ForkAlloc(me: nat, c: nat)       // allocproc found slot c
    | ForkFail(me: nat)                // no kernel stack or no page table: the embryo is dropped
    | ForkParent(me: nat)              // np->parent = proc, without the lock
    | ForkRun(me: nat)                 // np->state = RUNNABLE
    | Exit(me: nat)
    | WaitReap(me: nat, c: nat)
    | WaitSleep(me: nat)
    | Kill(i: nat)
    | Run(i: nat)                      // scheduler; a sleeper that resumes clears its channel
    | Yield(i: nat)
    | Sleep(me: nat, a: nat)
    | Wakeup(a: nat)

  /** The process runs kernel code of its own and is not inside fork. */
  predicate Free(s: Sys, me: nat) {
    me < |s.procs| && s.procs[me].state == RUNNING && me !in s.forking
  }

  predicate Enabled(s: Sys, step: Step) {
    match step
    case ForkAlloc(me, c) => Free(s, me) && c < |s.procs| && s.procs[c].state == UNUSED
    case ForkFail(me) => me in s.forking && me < |s.procs| && s.procs[me].state == RUNNING
                         && s.forking[me] < |s.procs| && s.procs[s.forking[me]].parent == None
    case ForkParent(me) => me in s.forking && me < |s.procs| && s.procs[me].state == RUNNING
                           && s.forking[me] < |s.procs|
    case ForkRun(me) => me in s.forking && me < |s.procs| && s.procs[me].state == RUNNING
                        && s.forking[me] < |s.procs| && s.procs[s.forking[me]].parent == Some(me)
    case Exit(me) => Free(s, me) && me != s.init
    case WaitReap(me, c) => Free(s, me) && c < |s.procs| && s.procs[c].parent == Some(me) && s.procs[c].state == ZOMBIE
    case WaitSleep(me) => Free(s, me) && !HasZombie(s.procs, me, |s.procs|) && HasChild(s.procs, me, |s.procs|)
                          && !s.procs[me].killed
    case Kill(i) => i < |s.procs|
    case Run(i) => i < |s.procs| && s.procs[i].state == RUNNABLE
    case Yield(i) => i < |s.procs| && s.procs[i].state == RUNNING
    case Sleep(me, a) => Free(s, me)
    case Wakeup(a) => true
  }

  function Update(s: Sys, i: nat, p: Proc): Sys
    requires i < |s.procs|
  {
    s.(procs := s.procs[i := p])
  }

  function Awake(ps: seq<Proc>, ch: Chan): (qs: seq<Proc>)
    ensures |qs| == |ps| && forall i | 0 <= i < |ps| :: qs[i] == Wake(ps[i], ch)
  {
    seq(|ps|, i requires 0 <= i < |ps| => Wake(ps[i], ch))
  }

  function Alloc(s: Sys, me: nat, c: nat): Sys
    requires c < |s.procs|
  {
    Update(s, c, s.procs[c].(state := EMBRYO, pid := s.nextpid))
    .(nextpid := s.nextpid + 1, forking := s.forking[me := c])
  }

  function Quit(s: Sys, me: nat): Sys
    requires me < |s.procs|
  {
    s.(procs := Exited(s.procs, s.init, me), exited := s.exited + {s.procs[me].pid})
  }

  function Reap(s: Sys, c: nat): Sys
    requires c < |s.procs|
  {
    Update(s, c, Freed(s.procs[c])).(reaped := s.reaped + [s.procs[c].pid])
  }

  function Take(s: Sys, step: Step): Sys
    requires Enabled(s, step)
  {
    match step
    case ForkAlloc(me, c) => Alloc(s, me, c)
    case ForkFail(me) =>
      Update(s, s.forking[me], s.procs[s.forking[me]].(state := UNUSED)).(forking := s.forking - {me})
    case ForkParent(me) => Update(s, s.forking[me], s.procs[s.forking[me]].(parent := Some(me)))
    case ForkRun(me) =>
      Update(s, s.forking[me], s.procs[s.forking[me]].(state := RUNNABLE)).(forking := s.forking - {me})
    case Exit(me) => Quit(s, me)
    case WaitReap(me, c) => Reap(s, c)
    case WaitSleep(me) => Update(s, me, s.procs[me].(chan := ProcChan(me), state := SLEEPING))
    case Kill(i) => Update(s, i, Killed(s.procs[i]))
    case Run(i) => Update(s, i, s.procs[i].(state := RUNNING, chan := NoChan))
    case Yield(i) => Update(s, i, s.procs[i].(state := RUNNABLE))
    case Sleep(me, a) => Update(s, me, s.procs[me].(chan := Other(a), state := SLEEPING))
    case Wakeup(a) => s.(procs := Awake(s.procs, Other(a)))
  }

  // ------------------------------------------------------------ invariant

  /** A process that can still act or be waited for. */
  predicate Live(p: Proc) { p.state != UNUSED && p.state != EMBRYO }

  predicate Able(p: Proc) { p.state == SLEEPING || p.state == RUNNABLE || p.state == RUNNING }

  /** No process sleeps in wait() while it has a zombie child. */
  ghost predicate NoLostWakeup(s: Sys) {
    forall i, c | 0 <= i < |s.procs| && 0 <= c < |s.procs| &&
                  s.procs[i].state == SLEEPING && s.procs[i].chan.ProcChan? &&
                  s.procs[c].parent == Some(s.procs[i].chan.i) :: s.procs[c].state != ZOMBIE
  }

  /** wait() sleeps on the process itself. */
  ghost predicate OwnChannel(s: Sys) {
    forall i | 0 <= i < |s.procs| && s.procs[i].chan.ProcChan? :: s.procs[i].chan.i == i
  }

  /** Every live process but init has a parent that is neither unused, nor an embryo, nor a zombie. */
  ghost predicate Parented(s: Sys) {
    && s.init < |s.procs| && Able(s.procs[s.init]) && s.procs[s.init].parent == None
    && (forall i | 0 <= i < |s.procs| && i != s.init && Live(s.procs[i]) :: s.procs[i].parent.Some?)
    && (forall i | 0 <= i < |s.procs| && s.procs[i].parent.Some? ::
          s.procs[i].parent.value < |s.procs| && s.procs[i].parent.value != i && Able(s.procs[s.procs[i].parent.value]))
    && (forall i | 0 <= i < |s.procs| && s.procs[i].state == UNUSED :: s.procs[i].parent == None)
  }

  /** Embryos and the forks they belong to match one to one; a process inside fork does not sleep. */
  ghost predicate Embryos(s: Sys) {
    && (forall me | me in s.forking ::
          && me < |s.procs| && s.forking[me] < |s.procs| && s.procs[s.forking[me]].state == EMBRYO
          && (s.procs[me].state == RUNNING || s.procs[me].state == RUNNABLE)
          && (s.procs[s.forking[me]].parent == None || s.procs[s.forking[me]].parent == Some(me)))
    && (forall c | 0 <= c < |s.procs| && s.procs[c].state == EMBRYO && s.procs[c].parent.Some? ::
          s.procs[c].parent.value in s.forking && s.forking[s.procs[c].parent.value] == c)
    && (forall me, you | me in s.forking && you in s.forking && me != you :: s.forking[me] != s.forking[you])
  }

  /** Slots in use have pairwise different pids, all handed out already. */
  ghost predicate Pids(s: Sys) {
    && (forall i | 0 <= i < |s.procs| && s.procs[i].state != UNUSED :: s.procs[i].pid < s.nextpid)
    && (forall i, j | 0 <= i < j < |s.procs| && s.procs[i].state != UNUSED && s.procs[j].state != UNUSED ::
          s.procs[i].pid != s.procs[j].pid)
  }

  /** Exited pids: each is still a zombie or was reaped, never both, and none was reaped twice. */
  ghost predicate Accounted(s: Sys) {
    && (forall i, j | 0 <= i < j < |s.reaped| :: s.reaped[i] != s.reaped[j])
    && (forall k | 0 <= k < |s.reaped| :: s.reaped[k] in s.exited)
    && (forall x | x in s.exited :: x < s.nextpid)
    && (forall i | 0 <= i < |s.procs| && s.procs[i].state == ZOMBIE ::
         s.procs[i].pid in s.exited && s.procs[i].pid !in s.reaped)
    && (forall i | 0 <= i < |s.procs| && s.procs[i].state != ZOMBIE && s.procs[i].state != UNUSED ::
         s.procs[i].pid !in s.exited)
    && (forall x | x in s.exited && x !in s.reaped ::
          exists i | 0 <= i < |s.procs| :: s.procs[i].state == ZOMBIE && s.procs[i].pid == x)
  }

  ghost predicate Inv(s: Sys) {
    NoLostWakeup(s) && OwnChannel(s) && Parented(s) && Embryos(s) && Pids(s) && Accounted(s)
  }

  // ------------------------------------------------------------ exit

  /** What exit does to each entry, spelled out. */
  lemma ExitedAt(s: Sys, me: nat, i: nat)
    requires me < |s.procs| && i < |s.procs|
    ensures var p, q := s.procs[i], Exited(s.procs, s.init, me)[i];
            && q.pid == p.pid && q.chan == p.chan && q.killed == p.killed
            && q.parent == (if p.parent == Some(me) then Some(s.init) else p.parent)
            && (i == me ==> q.state == ZOMBIE)
            && (i != me && p.state != SLEEPING ==> q.state == p.state)
            && (i != me && p.state == SLEEPING ==>
                  q.state == if p.chan == ParentChan(s.procs[me])
                                || (p.chan == ProcChan(s.init) && HasZombie(s.procs, me, |s.procs|))
                             then RUNNABLE else SLEEPING)
  {
  }

  lemma {:induction false} ExitKeepsWakeups(s: Sys, me: nat)
    requires NoLostWakeup(s) && OwnChannel(s) && me < |s.procs| && me != s.init
    requires s.procs[me].state == RUNNING && s.procs[me].parent != Some(me)
    ensures NoLostWakeup(s.(procs := Exited(s.procs, s.init, me)))
            && OwnChannel(s.(procs := Exited(s.procs, s.init, me)))
  {
    var ps, qs := s.procs, Exited(s.procs, s.init, me);
    forall i | 0 <= i < |ps| && qs[i].chan.ProcChan?
      ensures qs[i].chan.i == i
    {
      ExitedAt(s, me, i);
    }
    assert forall c | 0 <= c < |ps| && ps[c].parent == Some(me) && ps[c].state == ZOMBIE :: HasZombie(ps, me, |ps|);
    forall i, c | 0 <= i < |ps| && 0 <= c < |ps| && qs[i].state == SLEEPING && qs[i].chan.ProcChan? &&
                  qs[c].parent == Some(qs[i].chan.i)
      ensures qs[c].state != ZOMBIE
    {
      ExitedAt(s, me, i);
      ExitedAt(s, me, c);
      hide Exited;
    }
  }

  /** What exit keeps of each entry. */
  lemma {:induction false} ExitedRole(s: Sys, me: nat, i: nat)
    requires me < |s.procs| && i < |s.procs| && s.procs[me].state == RUNNING
    ensures |Exited(s.procs, s.init, me)| == |s.procs|
    ensures var p, q := s.procs[i], Exited(s.procs, s.init, me)[i];
            && q.parent == (if p.parent == Some(me) then Some(s.init) else p.parent)
            && (q.state == UNUSED <==> p.state == UNUSED)
            && (q.state == EMBRYO <==> p.state == EMBRYO)
            && (i != me && Able(p) ==> Able(q))
            && (i != me && (p.state == RUNNING || p.state == RUNNABLE) ==> q.state == p.state)
  {
    ExitedAt(s, me, i);
  }

  lemma {:induction false} ExitKeepsParents(s: Sys, me: nat)
    requires Parented(s) && Free(s, me) && me != s.init
    ensures Parented(s.(procs := Exited(s.procs, s.init, me)))
  {
    var ps, qs := s.procs, Exited(s.procs, s.init, me);
    ExitedRole(s, me, s.init);
    forall i | 0 <= i < |ps| && qs[i].parent.Some?
      ensures qs[i].parent.value < |ps| && qs[i].parent.value != i && Able(qs[qs[i].parent.value])
    {
      ExitedRole(s, me, i);
      if ps[i].parent != Some(me) {
        ExitedRole(s, me, ps[i].parent.value);
      }
      hide Exited;
    }
    forall i | 0 <= i < |ps|
      ensures i != s.init && Live(qs[i]) ==> qs[i].parent.Some?
      ensures qs[i].state == UNUSED ==> qs[i].parent == None
    {
      ExitedRole(s, me, i);
      hide Exited;
    }
    hide Exited;
  }

  lemma {:induction false} ExitKeepsEmbryos(s: Sys, me: nat)
    requires Embryos(s) && Free(s, me)
    ensures Embryos(s.(procs := Exited(s.procs, s.init, me)))
  {
    var ps, qs := s.procs, Exited(s.procs, s.init, me);
    forall e | e in s.forking
      ensures e < |ps| && s.forking[e] < |ps| && qs[s.forking[e]].state == EMBRYO
      ensures qs[e].state == RUNNING || qs[e].state == RUNNABLE
      ensures qs[s.forking[e]].parent == None || qs[s.forking[e]].parent == Some(e)
    {
      ExitedRole(s, me, e);
      ExitedRole(s, me, s.forking[e]);
      hide Exited;
    }
    forall c | 0 <= c < |ps| && qs[c].state == EMBRYO && qs[c].parent.Some?
      ensures qs[c].parent.value in s.forking && s.forking[qs[c].parent.value] == c
    {
      ExitedRole(s, me, c);
      hide Exited;
    }
    hide Exited;
  }

  lemma {:induction false} ExitKeepsAccount(s: Sys, me: nat)
    requires Pids(s) && Accounted(s) && Free(s, me)
    ensures Pids(Quit(s, me)) && Accounted(Quit(s, me))
  {
    var ps, qs := s.procs, Exited(s.procs, s.init, me);
    assert |qs| == |ps|;
    forall i | 0 <= i < |ps|
      ensures qs[i].pid == ps[i].pid
      ensures qs[i].state == UNUSED <==> ps[i].state == UNUSED
      ensures qs[i].state == ZOMBIE <==> i == me || ps[i].state == ZOMBIE
    {
      ExitedAt(s, me, i);
    }
    hide Exited;
    var s' := Quit(s, me);
    assert s'.procs == qs;
    forall i | 0 <= i < |qs| && qs[i].state == ZOMBIE
      ensures qs[i].pid in s'.exited && qs[i].pid !in s.reaped
    {
      assert ps[me].pid !in s.exited;
    }
    forall i | 0 <= i < |qs| && qs[i].state != ZOMBIE && qs[i].state != UNUSED
      ensures qs[i].pid !in s'.exited
    {
      assert ps[i].state != ZOMBIE && ps[i].state != UNUSED && i != me;
      assert ps[i].pid != ps[me].pid by { assert i < me || me < i; }
    }
    forall x | x in s'.exited && x !in s.reaped
      ensures exists i | 0 <= i < |qs| :: qs[i].state == ZOMBIE && qs[i].pid == x
    {
      if x == ps[me].pid {
        assert qs[me].state == ZOMBIE;
      } else {
        var i :| 0 <= i < |ps| && ps[i].state == ZOMBIE && ps[i].pid == x;
        assert qs[i].state == ZOMBIE;
      }
    }
    forall i, j | 0 <= i < j < |qs| && qs[i].state != UNUSED && qs[j].state != UNUSED
      ensures qs[i].pid != qs[j].pid
    {
      assert ps[i].pid == qs[i].pid && ps[j].pid == qs[j].pid;
    }
  }

  // ------------------------------------------------------------ steps that change one entry

  /** A new sleeper in wait() has no zombie child, and no process turns into a zombie. */
  lemma {:induction false} EntryWakeups(s: Sys, k: nat, q: Proc)
    requires NoLostWakeup(s) && OwnChannel(s) && k < |s.procs|
    requires q.chan.ProcChan? ==> q.chan.i == k
    requires q.state == SLEEPING && q.chan.ProcChan? ==>
               (q.state == s.procs[k].state && q.chan == s.procs[k].chan) || !HasZombie(s.procs, k, |s.procs|)
    requires q.state == ZOMBIE ==> s.procs[k].state == ZOMBIE && s.procs[k].parent == q.parent
    ensures NoLostWakeup(Update(s, k, q)) && OwnChannel(Update(s, k, q))
  {
    var ps, qs := s.procs, s.procs[k := q];
    forall i, c | 0 <= i < |ps| && 0 <= c < |ps| && qs[i].state == SLEEPING && qs[i].chan.ProcChan? &&
                  qs[c].parent == Some(qs[i].chan.i)
      ensures qs[c].state != ZOMBIE
    {
      assert c != k ==> qs[c] == ps[c];
    }
  }

  lemma {:induction false} EntryParents(s: Sys, k: nat, q: Proc)
    requires Parented(s) && k < |s.procs|
    requires Able(s.procs[k]) ==> Able(q)
    requires q.parent == s.procs[k].parent || q.parent == None ||
             (k != s.init && q.parent.value != k && q.parent.value < |s.procs| && Able(s.procs[q.parent.value]))
    requires Live(q) && k != s.init ==> q.parent.Some?
    requires q.state == UNUSED ==> q.parent == None
    ensures Parented(Update(s, k, q))
  {
    var ps, qs := s.procs, s.procs[k := q];
    forall i | 0 <= i < |ps| && qs[i].parent.Some?
      ensures qs[i].parent.value < |ps| && qs[i].parent.value != i && Able(qs[qs[i].parent.value])
    {
      if i != k || q.parent == ps[k].parent {
        assert ps[i].parent == qs[i].parent && Able(ps[ps[i].parent.value]);
      }
    }
  }

  /** No embryo is involved, and no process inside fork falls asleep. */
  lemma {:induction false} EntryEmbryos(s: Sys, k: nat, q: Proc)
    requires Embryos(s) && k < |s.procs|
    requires q.state == EMBRYO <==> s.procs[k].state == EMBRYO
    requires s.procs[k].state == EMBRYO ==> q.parent == s.procs[k].parent
    requires k in s.forking ==> q.state == RUNNING || q.state == RUNNABLE
    ensures Embryos(Update(s, k, q))
  {
    var qs := s.procs[k := q];
    forall c | 0 <= c < |qs| && qs[c].state == EMBRYO && qs[c].parent.Some?
      ensures qs[c].parent.value in s.forking && s.forking[qs[c].parent.value] == c
    {
      assert s.procs[c].parent == qs[c].parent;
    }
  }

  /** A change of entry k that neither gives nor takes a pid, nor makes or unmakes a zombie. */
  predicate KeepsPid(p: Proc, q: Proc) {
    && (q.state != UNUSED ==> q.pid == p.pid && p.state != UNUSED)
    && (q.state == ZOMBIE <==> p.state == ZOMBIE)
  }

  lemma {:induction false} EntryAccount(s: Sys, k: nat, q: Proc)
    requires Pids(s) && Accounted(s) && k < |s.procs| && KeepsPid(s.procs[k], q)
    ensures Pids(Update(s, k, q)) && Accounted(Update(s, k, q))
  {
    EntryPids(s, k, q);
    EntryZombies(s, k, q);
  }

  lemma {:induction false} EntryPids(s: Sys, k: nat, q: Proc)
    requires Pids(s) && k < |s.procs| && KeepsPid(s.procs[k], q)
    ensures Pids(Update(s, k, q))
  {
    var ps, qs := s.procs, s.procs[k := q];
    forall i | 0 <= i < |qs| && qs[i].state != UNUSED ensures ps[i].state != UNUSED && qs[i].pid == ps[i].pid {
      assert i == k || qs[i] == ps[i];
    }
  }

  lemma {:induction false} EntryZombies(s: Sys, k: nat, q: Proc)
    requires Accounted(s) && k < |s.procs| && KeepsPid(s.procs[k], q)
    ensures Accounted(Update(s, k, q))
  {
    var ps, qs := s.procs, s.procs[k := q];
    forall x | x in s.exited && x !in s.reaped
      ensures exists i | 0 <= i < |qs| :: qs[i].state == ZOMBIE && qs[i].pid == x
    {
      var i :| 0 <= i < |ps| && ps[i].state == ZOMBIE && ps[i].pid == x;
      assert qs[i].state == ZOMBIE;
    }
    forall i | 0 <= i < |qs| ensures KeepsPid(ps[i], qs[i]) {
      assert i == k || qs[i] == ps[i];
    }
  }

  // ------------------------------------------------------------ reaping

  lemma {:induction false} ReapKeepsAccount(s: Sys, c: nat)
    requires Pids(s) && Accounted(s) && c < |s.procs| && s.procs[c].state == ZOMBIE
    ensures Pids(Reap(s, c)) && Accounted(Reap(s, c))
  {
    var ps, s' := s.procs, Reap(s, c);
    var qs := s'.procs;
    var x0 := ps[c].pid;
    assert x0 in s'.reaped by { assert s'.reaped[|s.reaped|] == x0; }
    forall x | x in s'.exited && x !in s'.reaped
      ensures exists i | 0 <= i < |qs| :: qs[i].state == ZOMBIE && qs[i].pid == x
    {
      var i :| 0 <= i < |ps| && ps[i].state == ZOMBIE && ps[i].pid == x;
      assert qs[i].state == ZOMBIE;
    }
    forall i | 0 <= i < |qs| && qs[i].state == ZOMBIE
      ensures qs[i].pid in s'.exited && qs[i].pid !in s'.reaped
    {
      assert i != c && ps[i].state == ZOMBIE && ps[i].pid == qs[i].pid;
      assert ps[i].pid != x0 by { assert i < c || c < i; }
    }
    assert x0 !in s.reaped;
    hide Reap;
  }

  // ------------------------------------------------------------ fork

  lemma {:induction false} AllocKeepsEmbryos(s: Sys, me: nat, c: nat)
    requires Embryos(s) && Free(s, me) && c < |s.procs| && s.procs[c].state == UNUSED && s.procs[c].parent == None
    ensures Embryos(Alloc(s, me, c))
  {
    var s' := Alloc(s, me, c);
    forall e | e in s'.forking
      ensures e < |s.procs| && s'.forking[e] < |s.procs| && s'.procs[s'.forking[e]].state == EMBRYO
      ensures s'.procs[e].state == RUNNING || s'.procs[e].state == RUNNABLE
      ensures s'.procs[s'.forking[e]].parent == None || s'.procs[s'.forking[e]].parent == Some(e)
    {
      assert e == me || e in s.forking;
    }
    forall d | 0 <= d < |s'.procs| && s'.procs[d].state == EMBRYO && s'.procs[d].parent.Some?
      ensures s'.procs[d].parent.value in s'.forking && s'.forking[s'.procs[d].parent.value] == d
    {
      assert d != c && s'.procs[d] == s.procs[d];
    }
    forall e, f | e in s'.forking && f in s'.forking && e != f
      ensures s'.forking[e] != s'.forking[f]
    {
      assert e == me || s.procs[s.forking[e]].state == EMBRYO;
      assert f == me || s.procs[s.forking[f]].state == EMBRYO;
    }
  }

  lemma {:induction false} AllocKeepsAccount(s: Sys, me: nat, c: nat)
    requires Pids(s) && Accounted(s) && c < |s.procs| && s.procs[c].state == UNUSED
    ensures Pids(Alloc(s, me, c)) && Accounted(Alloc(s, me, c))
  {
    var ps, s' := s.procs, Alloc(s, me, c);
    var qs := s'.procs;
    forall x | x in s.exited && x !in s.reaped
      ensures exists i | 0 <= i < |qs| :: qs[i].state == ZOMBIE && qs[i].pid == x
    {
      var i :| 0 <= i < |ps| && ps[i].state == ZOMBIE && ps[i].pid == x;
      assert qs[i].state == ZOMBIE;
    }
    assert s.nextpid !in s.exited;
    forall i, j | 0 <= i < j < |qs| && qs[i].state != UNUSED && qs[j].state != UNUSED
      ensures qs[i].pid != qs[j].pid
    {
      if i == c {
        assert ps[j].pid < s.nextpid;
      } else {
        assert ps[i].pid < s.nextpid;
      }
    }
  }

  /** The end of fork, whichever way: the embryo and its entry in `forking` go together. */
  lemma {:induction false} ForkEndEmbryos(s: Sys, me: nat, q: Proc)
    requires Embryos(s) && me in s.forking && q.state != EMBRYO
    ensures Embryos(Update(s, s.forking[me], q).(forking := s.forking - {me}))
  {
    var k := s.forking[me];
    var qs, f := s.procs[k := q], s.forking - {me};
    forall e | e in f
      ensures e < |qs| && f[e] < |qs| && qs[f[e]].state == EMBRYO && (qs[e].state == RUNNING || qs[e].state == RUNNABLE)
      ensures qs[f[e]].parent == None || qs[f[e]].parent == Some(e)
    {
      assert e in s.forking && f[e] == s.forking[e] && f[e] != k;
      assert e != k;
    }
    forall d | 0 <= d < |qs| && qs[d].state == EMBRYO && qs[d].parent.Some?
      ensures qs[d].parent.value in f && f[qs[d].parent.value] == d
    {
      assert d != k && qs[d] == s.procs[d];
    }
  }

  lemma {:induction false} ForkParentEmbryos(s: Sys, me: nat)
    requires Embryos(s) && Enabled(s, ForkParent(me))
    ensures Embryos(Take(s, ForkParent(me)))
  {
    var k := s.forking[me];
    var s' := Take(s, ForkParent(me));
    forall e | e in s.forking
      ensures s'.procs[s.forking[e]].state == EMBRYO && (s'.procs[e].state == RUNNING || s'.procs[e].state == RUNNABLE)
      ensures s'.procs[s.forking[e]].parent == None || s'.procs[s.forking[e]].parent == Some(e)
    {
      if e != me { assert s.forking[e] != k; }
    }
    forall d | 0 <= d < |s'.procs| && s'.procs[d].state == EMBRYO && s'.procs[d].parent.Some?
      ensures s'.procs[d].parent.value in s.forking && s.forking[s'.procs[d].parent.value] == d
    {
      if d != k { assert s'.procs[d] == s.procs[d]; }
    }
  }

  /** The records of pids and of forks under way bear only on their own parts of the invariant. */
  lemma {:induction false} RestIrrelevant(s: Sys, t: Sys)
    requires t.procs == s.procs && t.init == s.init
    ensures NoLostWakeup(s) ==> NoLostWakeup(t)
    ensures OwnChannel(s) ==> OwnChannel(t)
    ensures Parented(s) ==> Parented(t)
    ensures t.forking == s.forking && Embryos(s) ==> Embryos(t)
    ensures t.nextpid == s.nextpid && Pids(s) ==> Pids(t)
    ensures t.nextpid == s.nextpid && t.exited == s.exited && t.reaped == s.reaped && Accounted(s) ==> Accounted(t)
  {
  }

  // ------------------------------------------------------------ every step

  lemma {:induction false} ForkKeeps(s: Sys, step: Step)
    requires Inv(s) && Enabled(s, step) && (step.ForkAlloc? || step.ForkFail? || step.ForkParent? || step.ForkRun?)
    ensures Inv(Take(s, step))
  {
    hide NoLostWakeup, OwnChannel, Parented, Pids, Accounted;
    var me, s' := step.me, Take(s, step);
    var k := if step.ForkAlloc? then step.c else s.forking[me];
    Placed(s, k);
    Placed(s, me);
    var q := s'.procs[k];
    var t := Update(s, k, q);
    assert t.procs == s'.procs;
    EntryWakeups(s, k, q);
    EntryParents(s, k, q);
    RestIrrelevant(t, s');
    if step.ForkAlloc? {
      AllocKeepsEmbryos(s, me, k);
      AllocKeepsAccount(s, me, k);
    } else {
      EntryAccount(s, k, q);
      if step.ForkParent? {
        ForkParentEmbryos(s, me);
      } else {
        ForkEndEmbryos(s, me, q);
      }
    }
  }

  lemma {:induction false} SwitchKeeps(s: Sys, step: Step)
    requires Inv(s) && Enabled(s, step)
    requires step.WaitSleep? || step.Kill? || step.Run? || step.Yield? || step.Sleep?
    ensures Inv(Take(s, step))
  {
    hide NoLostWakeup, OwnChannel, Parented, Embryos, Pids, Accounted;
    var k := if step.WaitSleep? || step.Sleep? then step.me else step.i;
    Placed(s, k);
    var q := Take(s, step).procs[k];
    assert Take(s, step) == Update(s, k, q);
    EntryWakeups(s, k, q);
    EntryParents(s, k, q);
    EntryEmbryos(s, k, q);
    EntryAccount(s, k, q);
  }

  /** What the invariant says of one entry. */
  lemma Placed(s: Sys, k: nat)
    requires Inv(s) && k < |s.procs|
    ensures s.procs[k].chan.ProcChan? ==> s.procs[k].chan.i == k
    ensures s.procs[k].parent != Some(k)
    ensures s.init < |s.procs| && Able(s.procs[s.init])
    ensures Live(s.procs[k]) && k != s.init ==> s.procs[k].parent.Some?
    ensures s.procs[k].state == UNUSED ==> s.procs[k].parent == None
    ensures k in s.forking ==> s.procs[k].state == RUNNING || s.procs[k].state == RUNNABLE
  {
  }

  lemma {:induction false} WakeupKeeps(s: Sys, a: nat)
    requires Inv(s)
    ensures Inv(Take(s, Wakeup(a)))
  {
    hide Inv, Woken, Awake, Take;
    WokenKeeps(s, a, |s.procs|);
    WokenAll(s, a);
  }

  lemma WokenAll(s: Sys, a: nat)
    ensures Woken(s, a, |s.procs|) == Take(s, Wakeup(a))
  {
    hide Woken, Awake, Wake;
    assert Woken(s, a, |s.procs|).procs == Awake(s.procs, Other(a));
  }

  /** A wakeup that has come past the first n entries. */
  function Woken(s: Sys, a: nat, n: nat): (r: Sys)
    requires n <= |s.procs|
    ensures |r.procs| == |s.procs| && r == s.(procs := r.procs)
    ensures forall i | 0 <= i < |s.procs| :: r.procs[i] == if i < n then Wake(s.procs[i], Other(a)) else s.procs[i]
  {
    if n == 0 then s else var t := Woken(s, a, n - 1); Update(t, n - 1, Wake(t.procs[n - 1], Other(a)))
  }

  lemma {:induction false} WokenKeeps(s: Sys, a: nat, n: nat)
    requires Inv(s) && n <= |s.procs|
    ensures Inv(Woken(s, a, n))
  {
    hide NoLostWakeup, OwnChannel, Parented, Embryos, Pids, Accounted;
    if n > 0 {
      var t, k := Woken(s, a, n - 1), n - 1;
      WokenKeeps(s, a, k);
      Placed(t, k);
      var q := Wake(t.procs[k], Other(a));
      EntryWakeups(t, k, q);
      EntryParents(t, k, q);
      EntryEmbryos(t, k, q);
      EntryAccount(t, k, q);
    }
  }

  lemma {:induction false} ExitKeeps(s: Sys, me: nat)
    requires Inv(s) && Enabled(s, Exit(me))
    ensures Inv(Take(s, Exit(me)))
  {
    hide NoLostWakeup, OwnChannel, Parented, Embryos, Pids, Accounted, Exited;
    Placed(s, me);
    ExitKeepsWakeups(s, me);
    ExitKeepsParents(s, me);
    ExitKeepsEmbryos(s, me);
    ExitKeepsAccount(s, me);
    RestIrrelevant(s.(procs := Exited(s.procs, s.init, me)), Quit(s, me));
  }

  lemma {:induction false} ReapKeeps(s: Sys, me: nat, c: nat)
    requires Inv(s) && Enabled(s, WaitReap(me, c))
    ensures Inv(Take(s, WaitReap(me, c)))
  {
    hide NoLostWakeup, OwnChannel, Parented, Embryos, Pids, Accounted;
    Placed(s, c);
    var q := Freed(s.procs[c]);
    EntryWakeups(s, c, q);
    EntryParents(s, c, q);
    EntryEmbryos(s, c, q);
    ReapKeepsAccount(s, c);
    RestIrrelevant(Update(s, c, q), Reap(s, c));
  }

  lemma {:induction false} StepKeeps(s: Sys, step: Step)
    requires Inv(s) && Enabled(s, step)
    ensures Inv(Take(s, step))
  {
    hide Inv;
    match step
    case Exit(me) => ExitKeeps(s, me);
    case WaitReap(me, c) => ReapKeeps(s, me, c);
    case Wakeup(a) => WakeupKeeps(s, a);
    case ForkAlloc(_, _) => ForkKeeps(s, step);
    case ForkFail(_) => ForkKeeps(s, step);
    case ForkParent(_) => ForkKeeps(s, step);
    case ForkRun(_) => ForkKeeps(s, step);
    case _ => SwitchKeeps(s, step);
  }

  // ------------------------------------------------------------ every run

  /** The steps are enabled one after the other. */
  predicate Possible(s: Sys, steps: seq<Step>)
    decreases |steps|
  {
    steps == [] || (Enabled(s, steps[0]) && Possible(Take(s, steps[0]), steps[1..]))
  }

  function After(s: Sys, steps: seq<Step>): Sys
    requires Possible(s, steps)
    decreases |steps|
  {
    if steps == [] then s else After(Take(s, steps[0]), steps[1..])
  }

  /** What userinit leaves: init is the only process. */
  predicate Booted(s: Sys) {
    && s.init < |s.procs| && s.forking == map[] && s.exited == {} && s.reaped == []
    && s.procs[s.init].pid < s.nextpid && s.procs[s.init].state == RUNNABLE
    && (forall i | 0 <= i < |s.procs| :: s.procs[i].chan == NoChan && s.procs[i].parent == None)
    && (forall i | 0 <= i < |s.procs| && i != s.init :: s.procs[i].state == UNUSED)
  }

  lemma BootInv(s: Sys)
    requires Booted(s)
    ensures Inv(s)
  {
  }

  /**
   In every run from boot: no process sleeps in wait() with a zombie child, every live process but init
   has an able parent, and each exited pid is either exactly one zombie or was returned by wait exactly
   once.
   */
  lemma {:induction false} RunKeeps(s: Sys, steps: seq<Step>)
    requires Inv(s) && Possible(s, steps)
    ensures Inv(After(s, steps))
    decreases |steps|
  {
    if steps != [] {
      StepKeeps(s, steps[0]);
      RunKeeps(Take(s, steps[0]), steps[1..]);
    }
  }

  /** In other words, at the end of every run. */
  lemma {:induction false} EveryRun(s: Sys, steps: seq<Step>)
    requires Booted(s) && Possible(s, steps)
    ensures var e := After(s, steps);
            && (forall i, c | 0 <= i < |e.procs| && 0 <= c < |e.procs| && e.procs[i].state == SLEEPING
                              && e.procs[i].chan == ProcChan(i) && e.procs[c].parent == Some(i) ::
                                   e.procs[c].state != ZOMBIE)
            && (forall i | 0 <= i < |e.procs| && i != e.init && Live(e.procs[i]) ::
                  && e.procs[i].parent.Some? && e.procs[i].parent.value < |e.procs|
                  && Able(e.procs[e.procs[i].parent.value]))
            && (forall x | x in e.exited :: x in e.reaped <==>
                  !exists i | 0 <= i < |e.procs| :: e.procs[i].state == ZOMBIE && e.procs[i].pid == x)
            && (forall i, j | 0 <= i < j < |e.reaped| :: e.reaped[i] != e.reaped[j])
  {
    BootInv(s);
    RunKeeps(s, steps);
    var e := After(s, steps);
    assert Inv(e);
    hide After, Possible;
    hide Embryos;
  }
}
