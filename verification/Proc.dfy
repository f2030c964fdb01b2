/**
 The process table of src/fmt/proc.c. Each section that runs under ptable.lock is one method that scans
 and updates the table; its effect is stated entry by entry.
 */
module ProcTable {
  import opened Common

  datatype ProcState = UNUSED | EMBRYO | SLEEPING | RUNNABLE | RUNNING | ZOMBIE

  /** What a process sleeps on: wait() sleeps on the process itself, everything else elsewhere. */
  datatype Chan = NoChan | ProcChan(i: nat) | Other(a: nat)

  datatype Proc = Proc(state: ProcState, pid: int, parent: Option<nat>, chan: Chan, killed: bool)

  type Table = seq<Proc>

  // ------------------------------------------------------------ what each locked section does

  function Wake(p: Proc, ch: Chan): Proc {
    if p.state == SLEEPING && p.chan == ch then p.(state := RUNNABLE) else p
  }

  function ParentChan(p: Proc): Chan {
    if p.parent == None then NoChan else ProcChan(p.parent.value)
  }

  /** Has process `me` a zombie child among the first k entries? */
  predicate HasZombie(ps: Table, me: nat, k: nat)
    requires k <= |ps|
  {
    exists c | 0 <= c < k :: ps[c].parent == Some(me) && ps[c].state == ZOMBIE
  }

  predicate HasChild(ps: Table, me: nat, k: nat)
    requires k <= |ps|
  {
    exists c | 0 <= c < k :: ps[c].parent == Some(me)
  }

  /** Entry i after the first k entries were handed to init by the exit of `me`. */
  function Handed(ps: Table, init: nat, me: nat, k: nat, i: nat): Proc
    requires i < |ps| && k <= |ps| && me < |ps|
  {
    var p := Wake(ps[i], ParentChan(ps[me]));
    var q := if HasZombie(ps, me, k) then Wake(p, ProcChan(init)) else p;
    if i < k && q.parent == Some(me) then q.(parent := Some(init)) else q
  }

  /** The table after `exit` of process `me`. */
  function Exited(ps: Table, init: nat, me: nat): (r: Table)
    requires me < |ps|
    ensures |r| == |ps|
  {
    seq(|ps|, i requires 0 <= i < |ps| =>
      var p := Handed(ps, init, me, |ps|, i); if i == me then p.(state := ZOMBIE) else p)
  }

  /** Slot c after `wait` has reaped it. */
  function Freed(p: Proc): Proc {
    p.(pid := 0, parent := None, killed := false, state := UNUSED)
  }

  datatype WaitResult = Reaped(c: nat, pid: int) | NoChildren | Slept

  class Ptable {
    var procs: Table
    var initproc: nat
    var nextpid: int

    /** `wakeup1`: every process sleeping on the channel becomes runnable, and no other changes. */
    method Wakeup1(ch: Chan)
      modifies `procs
      ensures |procs| == |old(procs)|
      ensures forall i | 0 <= i < |procs| :: procs[i] == Wake(old(procs)[i], ch)
    {
      var i := 0;
      while i < |procs|
        invariant 0 <= i <= |procs| == |old(procs)|
        invariant forall j | 0 <= j < |procs| :: procs[j] == if j < i then Wake(old(procs)[j], ch) else old(procs)[j]
      {
        if procs[i].state == SLEEPING && procs[i].chan == ch {
          procs := procs[i := procs[i].(state := RUNNABLE)];
        }
        i := i + 1;
      }
    }

    /** The locked section of `allocproc`: the first unused slot becomes an embryo with a new pid. */
    method Allocproc() returns (r: Option<nat>)
      modifies `procs, `nextpid
      ensures r == None ==> procs == old(procs) && nextpid == old(nextpid)
      ensures r == None <==> forall i | 0 <= i < |old(procs)| :: old(procs)[i].state != UNUSED
      ensures r.Some? ==> r.value < |old(procs)| && old(procs)[r.value].state == UNUSED
      ensures r.Some? ==> forall j | 0 <= j < r.value :: old(procs)[j].state != UNUSED
      ensures r.Some? ==> nextpid == old(nextpid) + 1
      ensures r.Some? ==> procs == old(procs)[r.value := old(procs)[r.value].(state := EMBRYO, pid := old(nextpid))]
    {
      var i := 0;
      while i < |procs|
        invariant 0 <= i <= |procs| && procs == old(procs) && nextpid == old(nextpid)
        invariant forall j | 0 <= j < i :: procs[j].state != UNUSED
      {
        if procs[i].state == UNUSED {
          procs := procs[i := procs[i].(state := EMBRYO, pid := nextpid)];
          nextpid := nextpid + 1;
          return Some(i);
        }
        i := i + 1;
      }
      r := None;
    }

    /** The locked section of `exit`. */
    method Exit(me: nat)
      requires me < |procs| && me != initproc
      modifies `procs
      ensures procs == Exited(old(procs), initproc, me)
    {
      ghost var ps := procs;
      Wakeup1(ParentChan(procs[me]));
      var i := 0;
      while i < |procs|
        invariant 0 <= i <= |procs| == |ps|
        invariant forall j | 0 <= j < |ps| :: procs[j] == Handed(ps, initproc, me, i, j)
      {
        ghost var before := procs;
        if procs[i].parent == Some(me) {
          procs := procs[i := procs[i].(parent := Some(initproc))];
          if procs[i].state == ZOMBIE {
            Wakeup1(ProcChan(initproc));
          }
        }
        HandedStep(ps, initproc, me, i, before, procs);
        i := i + 1;
      }
      procs := procs[me := procs[me].(state := ZOMBIE)];
    }

    /** One pass of `wait`: reap the first zombie child, give up without children, or sleep. */
    method Wait(me: nat) returns (r: WaitResult)
      requires me < |procs|
      modifies `procs
      ensures r.Reaped? <==> HasZombie(old(procs), me, |old(procs)|)
      ensures r.Reaped? ==>
                && r.c < |old(procs)| && old(procs)[r.c].parent == Some(me) && old(procs)[r.c].state == ZOMBIE
                && r.pid == old(procs)[r.c].pid && procs == old(procs)[r.c := Freed(old(procs)[r.c])]
      ensures r == NoChildren <==> !r.Reaped? && (!HasChild(old(procs), me, |old(procs)|) || old(procs)[me].killed)
      ensures r == NoChildren ==> procs == old(procs)
      ensures r == Slept ==> procs == old(procs)[me := old(procs)[me].(chan := ProcChan(me), state := SLEEPING)]
    {
      var havekids := false;
      var i := 0;
      while i < |procs|
        invariant 0 <= i <= |procs| && procs == old(procs)
        invariant havekids <==> HasChild(procs, me, i)
        invariant !HasZombie(procs, me, i)
      {
        if procs[i].parent == Some(me) {
          havekids := true;
          if procs[i].state == ZOMBIE {
            var pid := procs[i].pid;
            procs := procs[i := Freed(procs[i])];
            return Reaped(i, pid);
          }
        }
        i := i + 1;
      }
      if !havekids || procs[me].killed {
        return NoChildren;
      }
      procs := procs[me := procs[me].(chan := ProcChan(me), state := SLEEPING)];
      r := Slept;
    }

    /** `kill`: the first process with that pid is marked, and woken if it sleeps. */
    method Kill(pid: int) returns (r: Option<nat>)
      modifies `procs
      ensures r == None ==> procs == old(procs) && forall i | 0 <= i < |procs| :: procs[i].pid != pid
      ensures r.Some? ==> r.value < |old(procs)| && old(procs)[r.value].pid == pid
      ensures r.Some? ==> forall j | 0 <= j < r.value :: old(procs)[j].pid != pid
      ensures r.Some? ==> procs == old(procs)[r.value := Killed(old(procs)[r.value])]
      ensures r.Some? ==> procs[r.value].killed && procs[r.value].state != SLEEPING
    {
      var i := 0;
      while i < |procs|
        invariant 0 <= i <= |procs| && procs == old(procs)
        invariant forall j | 0 <= j < i :: procs[j].pid != pid
      {
        if procs[i].pid == pid {
          var p := procs[i].(killed := true);
          if p.state == SLEEPING {
            p := p.(state := RUNNABLE);
          }
          procs := procs[i := p];
          return Some(i);
        }
        i := i + 1;
      }
      r := None;
    }
  }

  function Killed(p: Proc): Proc {
    p.(killed := true, state := if p.state == SLEEPING then RUNNABLE else p.state)
  }

  /** One entry of the reparenting loop. */
  lemma HandedStep(ps: Table, init: nat, me: nat, i: nat, before: Table, after: Table)
    requires i < |ps| == |before| == |after| && me < |ps|
    requires forall j | 0 <= j < |ps| :: before[j] == Handed(ps, init, me, i, j)
    requires var mid := if before[i].parent == Some(me) then before[i := before[i].(parent := Some(init))] else before;
             if before[i].parent == Some(me) && before[i].state == ZOMBIE
             then forall j | 0 <= j < |ps| :: after[j] == Wake(mid[j], ProcChan(init)) else after == mid
    ensures forall j | 0 <= j < |ps| :: after[j] == Handed(ps, init, me, i + 1, j)
  {
    assert before[i].state == ZOMBIE <==> ps[i].state == ZOMBIE;
    assert HasZombie(ps, me, i + 1) <==> HasZombie(ps, me, i) || (ps[i].parent == Some(me) && ps[i].state == ZOMBIE);
  }
}
