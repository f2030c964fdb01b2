/**
 What the chunks of filewrite (src/file.c) come to: which bytes are accepted, what is read back, and how
 many blocks one transaction touches beside the size of the log.
 */
module FsChunks {
  import LogFormat
  import opened FsFormat
  import opened FsCount
  import opened FsBlocks
  import opened FileSystems

  /** Reading back gives the bytes written, and around them what was there. */
  lemma {:induction false} ReadBack(content: seq<Byte>, off: nat, src: seq<Byte>)
    requires off <= |content|
    ensures var w := Overwritten(content, off, src);
            && |w| == (if off + |src| < |content| then |content| else off + |src|)
            && w[off..off + |src|] == src && w[..off] == content[..off]
            && (off + |src| < |content| ==> w[off + |src|..] == content[off + |src|..])
  {
    var tail := if off + |src| < |content| then content[off + |src|..] else [];
    assert Overwritten(content, off, src) == content[..off] + (src + tail);
  }

  /** All bytes are accepted if they fit below the largest file, else as many whole chunks as do. */
  lemma {:induction false} AcceptedIs(off: nat, n: nat)
    requires off <= MAXFILE * BSIZE
    ensures Accepted(off, n)
            == if off + n <= MAXFILE * BSIZE then n else (MAXFILE * BSIZE - off) - (MAXFILE * BSIZE - off) % CHUNKMAX
    decreases n
  {
    hide Accepted;
    if n == 0 {
      AcceptedNone(off);
    } else {
      var n1, room := Least(n, CHUNKMAX), MAXFILE * BSIZE - off;
      AcceptedStep(off, n);
      if n1 <= room {
        AcceptedIs(off + n1, n - n1);
        if n > room { OneLess(room); }
      } else {
        NoChunk(room);
      }
    }
  }

  lemma ChunkSize()
    ensures CHUNKMAX == 6656
  {
  }

  lemma OneLess(room: nat)
    requires room >= CHUNKMAX
    ensures (room - CHUNKMAX) % CHUNKMAX == room % CHUNKMAX
  {
    ChunkSize();
    hide CHUNKMAX;
    var q, r := room / 6656, room % 6656;
    assert room == 6656 * q + r;
    assert room - 6656 == 6656 * (q - 1) + r;
  }

  lemma NoChunk(room: nat)
    ensures room < CHUNKMAX ==> room % CHUNKMAX == room
  {
    ChunkSize();
    hide CHUNKMAX;
  }

  /** The blocks from a point inside the file on: the first is there unless the point is a block boundary. */
  lemma {:induction false} FirstThere(fs: Fs, i: nat, content: seq<Byte>, off: nat, n: nat)
    requires Basic(fs) && i in fs.inodes && HasBytes(fs, i, content) && off <= |content|
    requires off + n <= MAXFILE * BSIZE && n > 0
    ensures off / BSIZE < BlocksEnd(off, n) <= MAXFILE
    ensures Lack(NamesOf(fs, i), off, n)
            <= BlocksEnd(off, n) - off / BSIZE + 1 - (if off % BSIZE == 0 then 0 else 1)
  {
    BlocksEndFits(off, n);
    var ns, b := NamesOf(fs, i), off / BSIZE;
    AbsentBound(ns.has, b, BlocksEnd(off, n));
    if off % BSIZE != 0 {
      assert HasByte(fs, i, off - 1, content[off - 1]);
      assert (off - 1) / BSIZE == b && ns.has[b];
      AbsentBound(ns.has, b + 1, BlocksEnd(off, n));
    }
  }

  /**
   One chunk changes no more blocks than the log has room for: those it touches, the indirect block, the
   inode's block, and a bitmap block for each block it allocates, were all of them different.
   */
  lemma {:induction false} ChunkFitsLog(fs: Fs, i: nat, content: seq<Byte>, off: nat, n: nat)
    requires Basic(fs) && i in fs.inodes && HasBytes(fs, i, content) && off <= |content|
    requires n <= CHUNKMAX && off + n <= MAXFILE * BSIZE
    ensures off / BSIZE <= BlocksEnd(off, n)
    ensures Touched(off, n) + 1 + 1 + Lack(NamesOf(fs, i), off, n) <= LogFormat.LOGSIZE
  {
    if n > 0 {
      FirstThere(fs, i, content, off, n);
      ChunkTouches(off, n);
    } else {
      BlocksEndFits(off, n);
    }
    hide Lack, HasBytes;
  }

  lemma ChunkTouches(off: nat, n: nat)
    requires 0 < n <= CHUNKMAX
    ensures BlocksEnd(off, n) - off / BSIZE <= CHUNKMAX / BSIZE + if off % BSIZE == 0 then 0 else 1
  {
    var b, r := off / BSIZE, off % BSIZE;
    assert off == BSIZE * b + r;
    assert (off + n - 1) / BSIZE == b + (r + n - 1) / BSIZE;
  }

  /** But the data alone can be more than begin_op reserves for one operation: exactly these chunks are. */
  lemma OverBudget(off: nat, n: nat)
    requires n > 0
    ensures off / BSIZE <= BlocksEnd(off, n)
    ensures Touched(off, n) > LogFormat.MAXOPBLOCKS <==> off % BSIZE + n > LogFormat.MAXOPBLOCKS * BSIZE
    ensures Touched(0, CHUNKMAX) > LogFormat.MAXOPBLOCKS
  {
    var b, r := off / BSIZE, off % BSIZE;
    assert off == BSIZE * b + r;
    assert (off + n - 1) / BSIZE == b + (r + n - 1) / BSIZE;
  }
}
