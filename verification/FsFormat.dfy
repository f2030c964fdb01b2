/**
 The raw material of src/fs.c: the free-block bitmap bit by bit, and disk blocks as bytes that may be
 read as an array of little-endian words (the indirect block).
 */
module FsFormat {
  import opened Common

  const BSIZE: nat := 512
  const NDIRECT: nat := 12
  const NINDIRECT: nat := 128
  const MAXFILE: nat := NDIRECT + NINDIRECT

  type Byte = x: int | 0 <= x < 256
  type Block = b: seq<Byte> | |b| == BSIZE witness seq(BSIZE, _ => 0)

  // ------------------------------------------------------------ bitmap

  /** 1 << k */
  function Mask(k: nat): bv8
    requires k < 8
  {
    if k == 0 then 1 else if k == 1 then 2 else if k == 2 then 4 else if k == 3 then 8
    else if k == 4 then 16 else if k == 5 then 32 else if k == 6 then 64 else 128
  }

  predicate Bit(x: bv8, k: nat)
    requires k < 8
  {
    x & Mask(k) != 0
  }

  function SetBit(x: bv8, k: nat): bv8
    requires k < 8
  {
    x | Mask(k)
  }

  function ClearBit(x: bv8, k: nat): bv8
    requires k < 8
  {
    x & !Mask(k)
  }

  lemma BitOfSet(x: bv8, j: nat, k: nat)
    requires j < 8 && k < 8
    ensures Bit(SetBit(x, k), j) <==> j == k || Bit(x, j)
    ensures Bit(ClearBit(x, k), j) <==> j != k && Bit(x, j)
  {
  }

  type Bitmap = seq<bv8>

  /** Is block b marked in use? */
  predicate Used(bm: Bitmap, b: nat)
    requires b / 8 < |bm|
  {
    Bit(bm[b / 8], b % 8)
  }

  function Marked(bm: Bitmap, b: nat): (r: Bitmap)
    requires b / 8 < |bm|
    ensures |r| == |bm|
  {
    bm[b / 8 := SetBit(bm[b / 8], b % 8)]
  }

  function Cleared(bm: Bitmap, b: nat): (r: Bitmap)
    requires b / 8 < |bm|
    ensures |r| == |bm|
  {
    bm[b / 8 := ClearBit(bm[b / 8], b % 8)]
  }

  /** Marking or clearing block b changes the state of no other block. */
  lemma MarkedUsed(bm: Bitmap, b: nat, c: nat)
    requires b / 8 < |bm| && c / 8 < |bm|
    ensures Used(Marked(bm, b), c) <==> c == b || Used(bm, c)
    ensures Used(Cleared(bm, b), c) <==> c != b && Used(bm, c)
  {
    hide Bit, SetBit, ClearBit;
    if b / 8 == c / 8 {
      BitOfSet(bm[b / 8], c % 8, b % 8);
    }
  }

  // ------------------------------------------------------------ words in a block

  function Word(b: Block, j: nat): nat
    requires j < NINDIRECT
  {
    var b0: int, b1: int, b2: int, b3: int := b[4 * j], b[4 * j + 1], b[4 * j + 2], b[4 * j + 3];
    b0 + 0x100 * b1 + 0x1_0000 * b2 + 0x100_0000 * b3
  }

  function WithWord(b: Block, j: nat, w: nat): Block
    requires j < NINDIRECT && w < U32
  {
    b[4 * j := w % 0x100][4 * j + 1 := w / 0x100 % 0x100][4 * j + 2 := w / 0x1_0000 % 0x100]
     [4 * j + 3 := w / 0x100_0000]
  }

  lemma WordOfWithWord(b: Block, j: nat, w: nat, k: nat)
    requires j < NINDIRECT && k < NINDIRECT && w < U32
    ensures Word(WithWord(b, j, w), k) == if k == j then w else Word(b, k)
  {
    var c := WithWord(b, j, w);
    if k == j {
      BytesOfWord(w);
    } else {
      assert c[4 * k] == b[4 * k] && c[4 * k + 1] == b[4 * k + 1];
      assert c[4 * k + 2] == b[4 * k + 2] && c[4 * k + 3] == b[4 * k + 3];
    }
  }

  lemma BytesOfWord(w: nat)
    requires w < U32
    ensures w == w % 0x100 + 0x100 * (w / 0x100 % 0x100) + 0x1_0000 * (w / 0x1_0000 % 0x100)
              + 0x100_0000 * (w / 0x100_0000)
  {
    assert w / 0x1_0000 == (w / 0x100) / 0x100 && w / 0x100_0000 == (w / 0x1_0000) / 0x100;
  }

  function ZeroBlock(): (z: Block)
    ensures forall i | 0 <= i < BSIZE :: z[i] == 0
  {
    seq(BSIZE, _ => 0)
  }

  /** The bytes `src` copied into b at offset `at`. */
  function Patched(b: Block, at: nat, src: seq<Byte>): (r: Block)
    requires at + |src| <= BSIZE
    ensures forall i | 0 <= i < BSIZE :: r[i] == if at <= i < at + |src| then src[i - at] else b[i]
  {
    b[..at] + src + b[at + |src|..]
  }
}
