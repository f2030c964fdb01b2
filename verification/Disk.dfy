/**
 The disk as `iderw` presents it: blocks are read and written whole, one at a time.
 A run of the file system code is seen by the disk as a sequence of single-block writes,
 and a crash keeps some prefix of that sequence.
 */
module Disks {

  /** BSIZE / sizeof(uint): a block seen as the array of words the kernel casts it to. */
  const WORDS: nat := 128

  type Block = b: seq<int> | |b| == WORDS witness seq(WORDS, _ => 0)

  type Disk = seq<Block>

  datatype Write = Write(bno: nat, data: Block)

  predicate InRange(n: nat, ws: seq<Write>) {
    forall i | 0 <= i < |ws| :: ws[i].bno < n
  }

  /** The disk after the writes `ws`, in order. */
  function Apply(d: Disk, ws: seq<Write>): (r: Disk)
    requires InRange(|d|, ws)
    ensures |r| == |d|
  {
    if ws == [] then d
    else
      var last := ws[|ws| - 1];
      Apply(d, ws[..|ws| - 1])[last.bno := last.data]
  }

  /** One more write of a sequence: how the trace and the disk advance. */
  lemma {:induction false} PrefixStep(d: Disk, before: seq<Write>, ws: seq<Write>, i: nat)
    requires InRange(|d|, ws) && i < |ws|
    ensures before + ws[..i] + [ws[i]] == before + ws[..i + 1]
    ensures Apply(d, ws[..i + 1]) == Apply(d, ws[..i])[ws[i].bno := ws[i].data]
  {
    assert ws[..i + 1][..i] == ws[..i];
    assert ws[..i + 1] == ws[..i] + [ws[i]];
  }

  lemma PrefixStart(d: Disk, before: seq<Write>, ws: seq<Write>)
    ensures before + ws[..0] == before && Apply(d, ws[..0]) == d
  {
  }

  predicate Touches(ws: seq<Write>, b: nat) {
    exists i | 0 <= i < |ws| :: ws[i].bno == b
  }

  lemma {:induction false} ApplyConcat(d: Disk, a: seq<Write>, b: seq<Write>)
    requires InRange(|d|, a) && InRange(|d|, b)
    ensures InRange(|d|, a + b)
    ensures Apply(d, a + b) == Apply(Apply(d, a), b)
  {
    if b == [] {
      assert a + b == a;
    } else {
      var b' := b[..|b| - 1];
      ApplyConcat(d, a, b');
      assert (a + b)[..|a + b| - 1] == a + b';
    }
  }

  /** A block no write names keeps its contents. */
  lemma {:induction false} ApplyUntouched(d: Disk, ws: seq<Write>, b: nat)
    requires InRange(|d|, ws) && b < |d|
    requires !Touches(ws, b)
    ensures Apply(d, ws)[b] == d[b]
  {
    if ws != [] {
      var ws' := ws[..|ws| - 1];
      assert ws[|ws| - 1].bno != b;
      assert forall i | 0 <= i < |ws'| :: ws'[i] == ws[i];
      ApplyUntouched(d, ws', b);
    }
  }

  /** What a named block ends up holding depends on the writes alone, not on the disk before. */
  lemma {:induction false} ApplyTouched(d: Disk, e: Disk, ws: seq<Write>, b: nat)
    requires |d| == |e| && InRange(|d|, ws) && b < |d|
    requires Touches(ws, b) || d[b] == e[b]
    ensures Apply(d, ws)[b] == Apply(e, ws)[b]
  {
    if ws != [] {
      var ws' := ws[..|ws| - 1];
      if ws[|ws| - 1].bno != b {
        if Touches(ws, b) {
          var i :| 0 <= i < |ws| && ws[i].bno == b;
          assert ws'[i].bno == b;
        }
        ApplyTouched(d, e, ws', b);
      }
    }
  }

  /** When the writes name distinct blocks, each named block ends up with its own data. */
  lemma {:induction false} ApplyDistinct(d: Disk, ws: seq<Write>, i: nat)
    requires InRange(|d|, ws) && i < |ws|
    requires forall j, k | 0 <= j < k < |ws| :: ws[j].bno != ws[k].bno
    ensures Apply(d, ws)[ws[i].bno] == ws[i].data
  {
    var ws' := ws[..|ws| - 1];
    if i < |ws| - 1 {
      ApplyDistinct(d, ws', i);
      assert ws[i].bno != ws[|ws| - 1].bno;
    }
  }
}
