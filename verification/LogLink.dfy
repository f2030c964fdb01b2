/**
 The calls of src/log.c in their own form and the steps of the protocol agree: what begin_op, log_write and
 end_op promise is what the steps Begin, Put and End with its commit do.
 */
module LogLink {
  import opened Disks
  import opened LogFormat
  import opened LogProtocol
  import opened LogRuns
  import opened Logs

  /** The counters and the list of the log in memory are those of the protocol's state. */
  predicate Matches(s: State, lh: seq<int>, outstanding: int, committing: bool) {
    s.lh == lh && |s.ops| == outstanding && s.Committing() == committing && !s.Recovering()
  }

  /** begin_op admits exactly when the protocol does, which is when all reservations fit in the log. */
  lemma {:induction false} BeginAgrees(s: State, lh: seq<int>, outstanding: int, committing: bool, admitted: bool)
    requires Matches(s, lh, outstanding, committing)
    requires admitted <==> !committing && |lh| + (outstanding + 1) * MAXOPBLOCKS <= LOGSIZE
    ensures admitted <==> TakeBegin(s).Next?
    ensures admitted ==>
              TakeBegin(s).s == s.(ops := s.ops + [0]) && Matches(TakeBegin(s).s, lh, outstanding + 1, committing)
  {
  }

  /** log_write panics, absorbs and pins as the protocol does. */
  lemma {:induction false} PutAgrees(g: Geometry, s: State, outstanding: int, op: nat, b: int, data: Block,
                                     r: Outcome, lh': seq<int>, dirty': map<int, Block>)
    requires 1 <= g.size && g.IsHome(|s.disk|, b) && Matches(s, s.lh, outstanding, s.Committing())
    requires op < |s.ops| && s.ops[op] < MAXOPBLOCKS
    requires r == (if |s.lh| >= g.Capacity() then TooBigTransaction
                   else if outstanding < 1 then OutsideTransaction else Done)
    requires r == Done ==> lh' == (if b in s.lh then s.lh else s.lh + [b]) && dirty' == s.dirty[b := data]
    ensures r == TooBigTransaction <==> TakePut(g, s, op, b, data) == Panic
    ensures r == Done <==> TakePut(g, s, op, b, data).Next?
    ensures r == Done ==>
              && TakePut(g, s, op, b, data).s.lh == lh' && TakePut(g, s, op, b, data).s.dirty == dirty'
              && TakePut(g, s, op, b, data).s.disk == s.disk && TakePut(g, s, op, b, data).s.phase == s.phase
  {
  }

  /** The disk as the kernel sees it, for the log and for the protocol. */
  lemma {:induction false} ViewAgrees(g: Geometry, s: State, a: Spec)
    requires Inv(g, s) && Stands(g, s, a) && !s.Recovering()
    ensures Home(g, Overlay(s.disk, s.dirty)) == Home(g, a.current)
  {
    forall b | 0 <= b < |s.disk| && !g.InLog(b) ensures Overlay(s.disk, s.dirty)[b] == a.current[b] {
      assert g.IsHome(|s.disk|, b);
    }
    HomeEqual(g, Overlay(s.disk, s.dirty), a.current);
  }

  /** The last end_op leaves on disk what the protocol's commit leaves there. */
  lemma {:induction false} EndAgrees(g: Geometry, s: State, a: Spec, disk': Disk)
    requires Inv(g, s) && Stands(g, s, a) && |s.ops| == 1 && |disk'| == |s.disk|
    requires Home(g, disk') == Home(g, Overlay(s.disk, s.dirty))
    ensures var r := Run(g, s, [End(0)] + Repeat(Tick, TicksDue(s)));
            r.Next? && Settled(g, r.s, disk')
  {
    hide Inv, Stands, Run, Repeat, TicksDue, Home, Overlay;
    assert !s.Recovering() by { assert Reserved(s) by { InvReserved(g, s); } }
    ViewAgrees(g, s, a);
    EndedIsDurable(g, s, a, [0]);
    OneEnd();
  }

  lemma InvReserved(g: Geometry, s: State)
    requires Inv(g, s)
    ensures Reserved(s)
  {
  }

  lemma OneEnd()
    ensures Ends([0]) == [End(0)]
  {
    assert Ends([0][1..]) == [] && [0][1..] == [];
  }
}
