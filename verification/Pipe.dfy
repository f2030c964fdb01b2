/**
 Pipes (src/pipe.c): a ring of PIPESIZE bytes addressed by two 32-bit counters that only ever count up
 and wrap around. Everything a call does between taking the pipe's lock and giving it up, to return or
 to sleep, is one method.
 */
module Pipes {
  import opened Common

  const PIPESIZE := 512

  /** The pipe page. */
  datatype Ring = Ring(data: seq<char>, nread: nat, nwrite: nat)

  /** Bytes in the ring, from the 32-bit difference of the counters. */
  function Length(r: Ring): nat {
    (r.nwrite - r.nread) % U32
  }

  predicate Sound(r: Ring) {
    |r.data| == PIPESIZE && r.nread < U32 && r.nwrite < U32 && Length(r) <= PIPESIZE
  }

  /** The bytes in the ring, oldest first. */
  function Queue(r: Ring): (q: seq<char>)
    requires Sound(r)
    ensures |q| == Length(r)
  {
    seq(Length(r), i requires 0 <= i < Length(r) => r.data[(r.nread + i) % PIPESIZE])
  }

  /** The two tests of the source, on wrapping counters. */
  predicate Full(r: Ring) { r.nwrite == (r.nread + PIPESIZE) % U32 }
  predicate Empty(r: Ring) { r.nread == r.nwrite }

  function Put(r: Ring, b: char): Ring
    requires |r.data| == PIPESIZE
  {
    Ring(r.data[r.nwrite % PIPESIZE := b], r.nread, (r.nwrite + 1) % U32)
  }

  function Get(r: Ring): (char, Ring)
    requires |r.data| == PIPESIZE
  {
    (r.data[r.nread % PIPESIZE], r.(nread := (r.nread + 1) % U32))
  }

  /** Wrapping the counter does not move its slot. */
  lemma SlotWraps(x: nat)
    ensures (x % U32) % PIPESIZE == x % PIPESIZE
  {
    assert x == U32 * (x / U32) + x % U32;
    assert U32 == PIPESIZE * 8388608;
  }

  /** The tests are exact: no confusion of full with empty, whatever the counters. */
  lemma TestsExact(r: Ring)
    requires Sound(r)
    ensures Full(r) <==> |Queue(r)| == PIPESIZE
    ensures Empty(r) <==> Queue(r) == []
  {
  }

  /** Queue slots of different ages are different. */
  lemma SlotsApart(x: nat, i: nat, j: nat)
    requires i < j < i + PIPESIZE
    ensures (x + i) % PIPESIZE != (x + j) % PIPESIZE
  {
  }

  lemma {:induction false} PutLength(r: Ring, b: char)
    requires Sound(r) && !Full(r)
    ensures Sound(Put(r, b)) && Length(Put(r, b)) == Length(r) + 1
    ensures (r.nread + Length(r)) % PIPESIZE == r.nwrite % PIPESIZE
  {
    LengthCases(r);
    LengthCases(Put(r, b));
    SlotWraps(r.nread + Length(r));
    hide Length;
  }

  lemma LengthCases(r: Ring)
    requires r.nread < U32 && r.nwrite < U32
    ensures Length(r) == if r.nread <= r.nwrite then r.nwrite - r.nread else r.nwrite + U32 - r.nread
  {
  }

  lemma {:induction false} PutQueue(r: Ring, b: char)
    requires Sound(r) && !Full(r)
    ensures Sound(Put(r, b)) && Queue(Put(r, b)) == Queue(r) + [b]
  {
    PutLength(r, b);
    var n, q := Length(r), Queue(Put(r, b));
    forall i | 0 <= i < n
      ensures q[i] == Queue(r)[i]
    {
      SlotsApart(r.nread, i, n);
    }
  }

  lemma {:induction false} GetQueue(r: Ring)
    requires Sound(r) && !Empty(r)
    ensures Sound(Get(r).1) && Queue(r) == [Get(r).0] + Queue(Get(r).1)
  {
    var t := Get(r).1;
    GetLength(r);
    var q, q' := Queue(r), Queue(t);
    hide Length;
    forall i | 0 <= i < |q'|
      ensures q[i + 1] == q'[i]
    {
      SlotShift(r.nread + 1, i);
    }
  }

  lemma {:induction false} GetLength(r: Ring)
    requires Sound(r) && !Empty(r)
    ensures Sound(Get(r).1) && Length(r) == Length(Get(r).1) + 1
  {
    LengthCases(r);
    LengthCases(Get(r).1);
    hide Length;
  }

  lemma {:induction false} SlotShift(x: nat, i: nat)
    ensures (x % U32 + i) % PIPESIZE == (x + i) % PIPESIZE
  {
    var q := x / U32;
    assert x + i == PIPESIZE * (8388608 * q) + (x % U32 + i);
  }

  lemma PutIs(r: Ring, r': Ring, b: char)
    requires |r.data| == PIPESIZE && r' == Ring(r.data[r.nwrite % PIPESIZE := b], r.nread, (r.nwrite + 1) % U32)
    ensures r' == Put(r, b)
  {
  }

  lemma GetIs(r: Ring)
    requires |r.data| == PIPESIZE
    ensures Get(r) == (r.data[r.nread % PIPESIZE], r.(nread := (r.nread + 1) % U32))
  {
  }

  lemma AppendOne(had: seq<char>, addr: seq<char>, i: nat, k: nat)
    requires i <= k < |addr|
    ensures had + addr[i..k] + [addr[k]] == had + addr[i..k + 1]
  {
  }

  lemma MoveOne(bytes: seq<char>, b: char, rest: seq<char>)
    ensures bytes + ([b] + rest) == bytes + [b] + rest
  {
  }

  datatype WriteResult = Wrote(n: nat) | Broken | WriterSleeps(i: nat)
  datatype ReadResult = Took(bytes: seq<char>) | Interrupted | ReaderSleeps

  class Pipe {
    var data: array<char>
    var nread: nat
    var nwrite: nat
    var readopen: bool
    var writeopen: bool

    function Now(): Ring
      reads this, data
    {
      Ring(data[..], nread, nwrite)
    }

    ghost predicate Valid()
      reads this, data
    {
      Sound(Now())
    }

    ghost function Contents(): seq<char>
      reads this, data
      requires Valid()
    {
      Queue(Now())
    }

    /** The pipe of `pipealloc`, on whatever the page holds. */
    constructor (page: array<char>)
      requires page.Length == PIPESIZE
      ensures Valid() && Contents() == [] && readopen && writeopen && data == page
    {
      data := page;
      nread, nwrite := 0, 0;
      readopen, writeopen := true, true;
    }

    /**
     `pipewrite` from byte i until it returns or sleeps. All bytes before the place where it stopped
     are appended in order, and it stops early only when the ring is full.
     */
    method WriteFrom(addr: seq<char>, i: nat, killed: bool) returns (r: WriteResult)
      requires Valid() && i <= |addr|
      modifies `nwrite, data
      ensures Valid() && nread == old(nread)
      ensures r == Wrote(|addr|) <==> |old(Contents())| + |addr| - i <= PIPESIZE
      ensures r.Wrote? ==> Contents() == old(Contents()) + addr[i..]
      ensures r.WriterSleeps? ==>
                && i <= r.i < |addr| && |Contents()| == PIPESIZE && readopen && !killed
                && Contents() == old(Contents()) + addr[i..r.i]
      ensures r == Broken ==> |Contents()| == PIPESIZE && (!readopen || killed)
                              && exists k | i <= k < |addr| :: Contents() == old(Contents()) + addr[i..k]
    {
      hide Queue, Length, Put;
      var k := i;
      while k < |addr|
        invariant i <= k <= |addr| && Valid()
        invariant Contents() == old(Contents()) + addr[i..k]
      {
        TestsExact(Now());
        if nwrite == (nread + PIPESIZE) % U32 {
          if !readopen || killed { return Broken; }
          return WriterSleeps(k);
        }
        ghost var before, had := Now(), Contents();
        PutQueue(before, addr[k]);
        data[nwrite % PIPESIZE] := addr[k];
        nwrite := (nwrite + 1) % U32;
        PutIs(before, Now(), addr[k]);
        AppendOne(old(Contents()), addr, i, k);
        k := k + 1;
      }
      assert addr[i..] == addr[i..k];
      r := Wrote(|addr|);
    }

    /**
     `piperead` until it returns or sleeps: it takes the oldest bytes, as many as asked for and present,
     and sleeps only on an empty pipe that can still be written.
     */
    method Read(n: int, killed: bool) returns (r: ReadResult)
      requires Valid()
      modifies `nread
      ensures Valid()
      ensures r.Took? <==> old(Contents()) != [] || !writeopen
      ensures r == Interrupted <==> !r.Took? && killed
      ensures r.Took? ==> |r.bytes| == (if n <= 0 then 0 else if n <= |old(Contents())| then n else |old(Contents())|)
      ensures r.Took? ==> old(Contents()) == r.bytes + Contents()
      ensures !r.Took? ==> Contents() == old(Contents())
    {
      hide Queue, Length, Get;
      TestsExact(Now());
      if nread == nwrite && writeopen {
        if killed { return Interrupted; }
        return ReaderSleeps;
      }
      var bytes := [];
      var i := 0;
      while i < n
        invariant Valid() && |bytes| == i && (i <= n || i == 0)
        invariant old(Contents()) == bytes + Contents()
      {
        TestsExact(Now());
        if nread == nwrite { break; }
        ghost var before, taken := Now(), bytes;
        GetQueue(before);
        GetIs(before);
        bytes := bytes + [data[nread % PIPESIZE]];
        nread := (nread + 1) % U32;
        assert Now() == Get(before).1;
        MoveOne(taken, Get(before).0, Contents());
        i := i + 1;
      }
      r := Took(bytes);
    }

    /** `pipeclose`: reports whether the page is freed, which is when the second end closes. */
    method Close(writable: bool) returns (freed: bool)
      modifies `readopen, `writeopen
      ensures writeopen == (old(writeopen) && !writable) && readopen == (old(readopen) && writable)
      ensures freed <==> !readopen && !writeopen
    {
      if writable {
        writeopen := false;
      } else {
        readopen := false;
      }
      freed := !readopen && !writeopen;
    }
  }

  // ------------------------------------------------------------ every run

  /**
   A pipe with its two open files, byte by byte: `refs` and `closing` are indexed by `writable`. A file
   whose count reached 0 is closed by a later step of its own. `sent` and `got` are the bytes pipewrite
   accepted and the bytes piperead handed out.
   */
  datatype State = State(ring: Ring, readopen: bool, writeopen: bool, refs: map<bool, nat>, closing: set<bool>,
                         freed: nat, sent: seq<char>, got: seq<char>)

  datatype Step =
    | Accept(b: char)            // one byte of a pipewrite
    | Hand                       // one byte of a piperead
    | Filedup(writable: bool)
    | Fileclose(writable: bool)  // the part under ftable.lock
    | Pipeclose(writable: bool)

  predicate Enabled(s: State, step: Step) {
    s.refs.Keys == {true, false} && |s.ring.data| == PIPESIZE &&
    match step
    case Accept(_) => s.refs[true] > 0 && !Full(s.ring)
    case Hand => s.refs[false] > 0 && !Empty(s.ring)
    case Filedup(w) => s.refs[w] > 0
    case Fileclose(w) => s.refs[w] > 0
    case Pipeclose(w) => w in s.closing
  }

  function Take(s: State, step: Step): State
    requires Enabled(s, step)
  {
    match step
    case Accept(b) => s.(ring := Put(s.ring, b), sent := s.sent + [b])
    case Hand => s.(ring := Get(s.ring).1, got := s.got + [Get(s.ring).0])
    case Filedup(w) => s.(refs := s.refs[w := s.refs[w] + 1])
    case Fileclose(w) =>
      s.(refs := s.refs[w := s.refs[w] - 1], closing := if s.refs[w] == 1 then s.closing + {w} else s.closing)
    case Pipeclose(w) =>
      var r, o := s.readopen && w, s.writeopen && !w;
      s.(readopen := r, writeopen := o, closing := s.closing - {w}, freed := if !r && !o then s.freed + 1 else s.freed)
  }

  predicate Open(s: State, w: bool) { if w then s.writeopen else s.readopen }

  /** An end is open exactly as long as it has references or its close is under way. */
  ghost predicate Inv(s: State) {
    && Sound(s.ring) && s.refs.Keys == {true, false}
    && s.sent == s.got + Queue(s.ring)
    && (forall w :: Open(s, w) <==> s.refs[w] > 0 || w in s.closing)
    && (forall w | w in s.closing :: s.refs[w] == 0)
    && s.freed == (if s.readopen || s.writeopen then 0 else 1)
  }

  lemma {:induction false} StepKeeps(s: State, step: Step)
    requires Inv(s) && Enabled(s, step)
    ensures Inv(Take(s, step))
  {
    match step
    case Accept(b) => {
      PutQueue(s.ring, b);
      assert s.sent + [b] == s.got + (Queue(s.ring) + [b]);
    }
    case Hand => {
      GetQueue(s.ring);
      assert s.got + ([Get(s.ring).0] + Queue(Get(s.ring).1)) == (s.got + [Get(s.ring).0]) + Queue(Get(s.ring).1);
    }
    case Filedup(w) => {}
    case Fileclose(w) => {}
    case Pipeclose(w) => {}
  }

  /** A byte can be written while there is a writer and room, and read while there is a reader and a byte. */
  lemma CanMove(s: State, b: char)
    requires Inv(s)
    ensures Enabled(s, Accept(b)) <==> s.refs[true] > 0 && |Queue(s.ring)| < PIPESIZE
    ensures Enabled(s, Hand) <==> s.refs[false] > 0 && Queue(s.ring) != []
  {
    TestsExact(s.ring);
  }

  /** No step that touches the page comes after it was freed. */
  lemma {:induction false} NoUseAfterFree(s: State, step: Step)
    requires Inv(s) && Enabled(s, step)
    ensures s.freed == 0
  {
    var w := if step.Accept? then true else if step.Hand? then false else step.writable;
    assert Open(s, w);
  }

  predicate Possible(s: State, steps: seq<Step>)
    decreases |steps|
  {
    steps == [] || (Enabled(s, steps[0]) && Possible(Take(s, steps[0]), steps[1..]))
  }

  function After(s: State, steps: seq<Step>): State
    requires Possible(s, steps)
    decreases |steps|
  {
    if steps == [] then s else After(Take(s, steps[0]), steps[1..])
  }

  lemma {:induction false} RunKeeps(s: State, steps: seq<Step>)
    requires Inv(s) && Possible(s, steps)
    ensures Inv(After(s, steps))
    decreases |steps|
  {
    if steps != [] {
      StepKeeps(s, steps[0]);
      RunKeeps(Take(s, steps[0]), steps[1..]);
    }
  }

  /** `pipealloc`: one reference to each end; the counters may have any common value. */
  predicate Fresh(s: State) {
    && |s.ring.data| == PIPESIZE && s.ring.nread == s.ring.nwrite < U32 && s.readopen && s.writeopen
    && s.refs == map[true := 1, false := 1] && s.closing == {} && s.freed == 0 && s.sent == [] && s.got == []
  }

  /** The bytes the steps write. */
  function Written(steps: seq<Step>): seq<char> {
    if steps == [] then [] else (if steps[0].Accept? then [steps[0].b] else []) + Written(steps[1..])
  }

  /** How many bytes the steps read. */
  function Reads(steps: seq<Step>): nat {
    if steps == [] then 0 else (if steps[0] == Hand then 1 else 0) + Reads(steps[1..])
  }

  /** No byte written is forgotten, and every read gets one. */
  lemma {:induction false} RunAccounts(s: State, steps: seq<Step>)
    requires Possible(s, steps)
    ensures After(s, steps).sent == s.sent + Written(steps) && |After(s, steps).got| == |s.got| + Reads(steps)
    decreases |steps|
  {
    if steps == [] {
      assert s.sent + Written(steps) == s.sent;
    } else {
      hide Enabled, Take, Written, Reads;
      var one := if steps[0].Accept? then [steps[0].b] else [];
      StepAccounts(s, steps[0], one);
      WrittenFirst(steps, one);
      RunAccounts(Take(s, steps[0]), steps[1..]);
      Onward(s.sent, one, Written(steps[1..]));
    }
  }

  lemma StepAccounts(s: State, step: Step, one: seq<char>)
    requires Enabled(s, step) && one == if step.Accept? then [step.b] else []
    ensures Take(s, step).sent == s.sent + one
    ensures |Take(s, step).got| == |s.got| + if step == Hand then 1 else 0
  {
    assert one == [] ==> s.sent + one == s.sent;
  }

  lemma WrittenFirst(steps: seq<Step>, one: seq<char>)
    requires steps != [] && one == if steps[0].Accept? then [steps[0].b] else []
    ensures Written(steps) == one + Written(steps[1..])
    ensures Reads(steps) == (if steps[0] == Hand then 1 else 0) + Reads(steps[1..])
  {
  }

  lemma Onward(a: seq<char>, b: seq<char>, c: seq<char>)
    ensures a + b + c == a + (b + c)
  {
  }

  /**
   Every run: what went in is what its steps wrote, what came out is as much of the front of that as they
   read, the rest is the ring and fits in it, and the page is freed once, exactly when both ends have no
   reference and no close under way.
   */
  lemma {:induction false} EveryRun(s: State, steps: seq<Step>)
    requires Fresh(s) && Possible(s, steps)
    ensures var e := After(s, steps);
            && Sound(e.ring) && e.got <= e.sent && e.sent[|e.got|..] == Queue(e.ring)
            && e.sent == Written(steps) && |e.got| == Reads(steps) && |e.sent| - |e.got| <= PIPESIZE
            && e.refs.Keys == {true, false} && e.freed <= 1
            && (e.freed == 1 <==> e.refs[true] == 0 && e.refs[false] == 0 && e.closing == {})
  {
    assert Inv(s);
    RunKeeps(s, steps);
    RunAccounts(s, steps);
    assert [] + Written(steps) == Written(steps);
    var e := After(s, steps);
    assert e.sent[|e.got|..] == Queue(e.ring);
    assert Open(e, true) == e.writeopen && Open(e, false) == e.readopen;
    if true !in e.closing && false !in e.closing {
      assert forall w | w in e.closing :: w == true || w == false;
      assert e.closing == {};
    }
  }
}
