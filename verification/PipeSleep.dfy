/**
 Who sleeps on a pipe (src/pipe.c): any number of readers and writers, each section under the pipe's lock
 one step. A writer never sleeps but on a full pipe with a reader's end; a reader never sleeps but on an
 empty one with a writer's end, until a writer that was killed breaks off a write in the middle, because
 that path of pipewrite wakes nobody.
 */
module PipeSleep {
  import opened Pipes

  /** Processes asleep on the two channels; `count` is the number of bytes in the ring. */
  datatype Hall = Hall(count: nat, readopen: bool, writeopen: bool, readers: set<nat>, writers: set<nat>)

  datatype Move =
    | Write(p: nat, n: nat, killed: bool)   // pipewrite with n bytes to go, until it returns or sleeps
    | Read(p: nat, n: nat, killed: bool)    // piperead, until it returns or sleeps
    | Shut(writable: bool)                  // pipeclose: nobody inside has that end
    | Rouse(p: nat)                         // kill, which wakes the process

  predicate Awake(h: Hall, p: nat) { p !in h.readers && p !in h.writers }

  predicate Can(h: Hall, mv: Move) {
    match mv
    case Write(p, n, _) => Awake(h, p) && h.writeopen
    case Read(p, n, _) => Awake(h, p) && h.readopen
    case Shut(w) => if w then h.writeopen && h.writers == {} else h.readopen && h.readers == {}
    case Rouse(p) => true
  }

  /** The rest of a write: does it return, sleep, or break off? */
  function WriteEnds(h: Hall, n: nat, killed: bool): WriteResult
    requires h.count <= PIPESIZE
  {
    if h.count + n <= PIPESIZE then Wrote(n)
    else if !h.readopen || killed then Broken else WriterSleeps(PIPESIZE - h.count)
  }

  function After(h: Hall, mv: Move): Hall
    requires Can(h, mv) && h.count <= PIPESIZE
  {
    match mv
    case Write(p, n, killed) =>
      (match WriteEnds(h, n, killed)
       case Wrote(_) => h.(count := h.count + n, readers := {})
       case Broken => h.(count := PIPESIZE)
       case WriterSleeps(_) => h.(count := PIPESIZE, readers := {}, writers := h.writers + {p}))
    case Read(p, n, killed) =>
      if h.count == 0 && h.writeopen then (if killed then h else h.(readers := h.readers + {p}))
      else h.(count := if n <= h.count then h.count - n else 0, writers := {})
    case Shut(w) =>
      if w then h.(writeopen := false, readers := {}) else h.(readopen := false, writers := {})
    case Rouse(p) => h.(readers := h.readers - {p}, writers := h.writers - {p})
  }

  /** The lengths and outcomes are those of the pipe itself. */
  lemma WriteAgrees(h: Hall, had: seq<char>, has: seq<char>, addr: seq<char>, i: nat, killed: bool, r: WriteResult)
    requires i <= |addr| && h.count == |had| <= PIPESIZE
    requires r == Wrote(|addr|) <==> |had| + |addr| - i <= PIPESIZE
    requires r.Wrote? ==> r == Wrote(|addr|) && has == had + addr[i..]
    requires r.WriterSleeps? ==>
               && i <= r.i < |addr| && |has| == PIPESIZE && h.readopen && !killed && has == had + addr[i..r.i]
    requires r == Broken ==> |has| == PIPESIZE && (!h.readopen || killed)
    ensures r.Wrote? <==> WriteEnds(h, |addr| - i, killed).Wrote?
    ensures r == Broken <==> WriteEnds(h, |addr| - i, killed) == Broken
    ensures |has| == if r.Wrote? then h.count + |addr| - i else PIPESIZE
  {
  }

  // ------------------------------------------------------------ who may sleep

  /** Writers sleep on a full pipe only, one that can be read. */
  predicate WritersRight(h: Hall) { h.writers != {} ==> h.count == PIPESIZE && h.readopen }

  /** Readers sleep on an empty pipe only, one that can be written. */
  predicate ReadersRight(h: Hall) { h.readers != {} ==> h.count == 0 && h.writeopen }

  predicate Sane(h: Hall) {
    h.count <= PIPESIZE && WritersRight(h) && (h.readers != {} ==> h.readopen) && (h.writers != {} ==> h.writeopen)
  }

  /** No writer's wakeup is ever lost. */
  lemma {:induction false} MoveSane(h: Hall, mv: Move)
    requires Sane(h) && Can(h, mv)
    ensures Sane(After(h, mv))
  {
    if mv.Rouse? {
      assert h.writers == {} ==> After(h, mv).writers == {};
      assert h.readers == {} ==> After(h, mv).readers == {};
    }
  }

  /** A killed writer breaks off with bytes written while a reader sleeps. */
  predicate Strands(h: Hall, mv: Move) {
    mv.Write? && mv.killed && h.count + mv.n > PIPESIZE && h.readers != {}
  }

  /** And a reader's is lost exactly by that. */
  lemma {:induction false} MoveReaders(h: Hall, mv: Move)
    requires Sane(h) && ReadersRight(h) && Can(h, mv)
    ensures ReadersRight(After(h, mv)) <==> !Strands(h, mv)
  {
    if mv.Rouse? { assert h.readers == {} ==> After(h, mv).readers == {}; }
  }

  // ------------------------------------------------------------ every run

  predicate Possible(h: Hall, moves: seq<Move>)
    decreases |moves|
  {
    h.count <= PIPESIZE &&
    (moves == [] || (Can(h, moves[0]) && Possible(After(h, moves[0]), moves[1..])))
  }

  function Final(h: Hall, moves: seq<Move>): Hall
    requires Possible(h, moves)
    decreases |moves|
  {
    if moves == [] then h else Final(After(h, moves[0]), moves[1..])
  }

  /** Some killed writer breaks off on a sleeping reader. */
  predicate Stranding(h: Hall, moves: seq<Move>)
    requires Possible(h, moves)
    decreases |moves|
  {
    moves != [] && (Strands(h, moves[0]) || Stranding(After(h, moves[0]), moves[1..]))
  }

  /**
   Every run of a pipe: writers sleep rightly; and so do readers, and the two never sleep at once, unless a
   killed writer broke off on a sleeping reader.
   */
  lemma {:induction false} EveryRun(h: Hall, moves: seq<Move>)
    requires Sane(h) && ReadersRight(h) && Possible(h, moves)
    ensures Sane(Final(h, moves))
    ensures !Stranding(h, moves) ==>
              ReadersRight(Final(h, moves)) && (Final(h, moves).readers == {} || Final(h, moves).writers == {})
    decreases |moves|
  {
    hide After, Can, Strands;
    if moves != [] {
      MoveSane(h, moves[0]);
      MoveReaders(h, moves[0]);
      if Strands(h, moves[0]) {
        SaneRun(After(h, moves[0]), moves[1..]);
      } else {
        EveryRun(After(h, moves[0]), moves[1..]);
      }
    }
  }

  lemma {:induction false} SaneRun(h: Hall, moves: seq<Move>)
    requires Sane(h) && Possible(h, moves)
    ensures Sane(Final(h, moves))
    decreases |moves|
  {
    hide After, Can;
    if moves != [] {
      MoveSane(h, moves[0]);
      SaneRun(After(h, moves[0]), moves[1..]);
    }
  }

  /** A run that strands a reader: it sleeps, and a killed writer breaks off after 512 of 513 bytes. */
  lemma {:induction false} Stranded()
    ensures var h := Hall(0, true, true, {}, {}); var moves := [Read(1, 1, false), Write(2, PIPESIZE + 1, true)];
            && Sane(h) && ReadersRight(h) && Possible(h, moves)
            && Final(h, moves).count == PIPESIZE && 1 in Final(h, moves).readers
  {
    var h := Hall(0, true, true, {}, {});
    var moves := [Read(1, 1, false), Write(2, PIPESIZE + 1, true)];
    var a := After(h, moves[0]);
    assert a == Hall(0, true, true, {1}, {}) && moves[1..][0] == moves[1] && moves[1..][1..] == [];
    var e := Hall(PIPESIZE, true, true, {1}, {});
    assert After(a, moves[1]) == e;
    assert Possible(e, []) && Final(e, []) == e;
    assert Possible(a, moves[1..]) && Final(a, moves[1..]) == e;
  }

  /** The next write that ends, or the close of the writer's end, wakes the stranded reader. */
  lemma {:induction false} Relieved(h: Hall, mv: Move)
    requires h.count <= PIPESIZE && Can(h, mv)
    requires mv == Shut(true) || (mv.Write? && WriteEnds(h, mv.n, mv.killed) != Broken)
    ensures After(h, mv).readers == {}
  {
  }
}
