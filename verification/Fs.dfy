/**
 src/fs.c as it works: scanning the bitmap, walking an inode's addrs and indirect block, and copying
 block by block, all in place. Inode and slot ownership of each block is tracked in `owner`.
 */
module FileSystems {
  import opened Common
  import opened FsFormat
  import opened FsCount
  import opened FsBlocks

  datatype BmapResult = Addr(b: nat) | OutOfBlocks | OutOfRange

  datatype WriteResult = Written | Refused | NoBlocks

  const BPB: nat := BSIZE * 8

  /** Blocks 0 .. n - 1 are in use. */
  ghost predicate AllUsed(bm: Bitmap, n: nat) {
    n <= 8 * |bm| && forall c | 0 <= c < n :: Used(bm, c)
  }

  /** Bit bi of the bitmap block for b, as a bit of the whole bitmap. */
  lemma BitPlace(b: nat, bi: nat)
    requires b % BPB == 0
    ensures (b + bi) / 8 == b / 8 + bi / 8 && (b + bi) % 8 == bi % 8
  {
    var k := 512 * (b / 4096);
    assert b == 8 * k;
    Shift(k, bi);
    Shift(k, 0);
  }

  lemma Shift(k: nat, x: nat)
    ensures (8 * k + x) / 8 == k + x / 8 && (8 * k + x) % 8 == x % 8
  {
  }

  class FileSystem {
    const nblocks: nat           // sb.size
    const first: nat             // first data block
    var bm: Bitmap               // the bitmap blocks, one after the other
    var blocks: seq<Block>
    var inodes: map<nat, Inode>
    ghost var owner: Owner

    ghost function Now(): Fs
      reads this
    {
      Fs(nblocks, first, bm, blocks, inodes)
    }

    ghost predicate Valid()
      reads this
    {
      Owned(Now(), owner)
    }

    /** The file system of an image in which every block is owned, such as one mkfs has finished. */
    constructor (image: Fs, ghost o: Owner)
      requires Owned(image, o)
      ensures Valid() && Now() == image && owner == o
    {
      nblocks, first := image.nblocks, image.first;
      bm, blocks, inodes, owner := image.bm, image.blocks, image.inodes, o;
    }

    /** The scan of `balloc`: the lowest block whose bit is clear. */
    method FindFree() returns (r: Option<nat>)
      requires nblocks <= 8 * |bm|
      ensures r.Some? ==> r.value < nblocks && !Used(bm, r.value) && forall b | 0 <= b < r.value :: Used(bm, b)
      ensures r == None ==> forall b | 0 <= b < nblocks :: Used(bm, b)
    {
      hide Bit;
      var b: nat := 0;
      while b < nblocks
        invariant b % BPB == 0 && AllUsed(bm, Least(b, nblocks))
      {
        var bi: nat := 0;
        while bi < BPB && b + bi < nblocks
          invariant bi <= BPB && AllUsed(bm, Least(b + bi, nblocks))
        {
          BitPlace(b, bi);
          if !Bit(bm[b / 8 + bi / 8], bi % 8) {
            return Some(b + bi);
          }
          bi := bi + 1;
        }
        b := b + BPB;
      }
      r := None;
    }

    /** `balloc`: the lowest free block, marked and zeroed; None stands for the out-of-blocks panic. */
    method Balloc() returns (r: Option<nat>)
      requires Valid()
      modifies `bm, `blocks
      ensures Valid()
      ensures r == None ==> Now() == old(Now()) && forall b | 0 <= b < nblocks :: Used(bm, b)
      ensures r.Some? ==> r.value < nblocks && !Used(old(bm), r.value) && Now() == Allocated(old(Now()), r.value)
      ensures r.Some? ==> forall b | 0 <= b < r.value :: Used(old(bm), b)
    {
      r := FindFree();
      if r == None {
        return;
      }
      var b := r.value;
      AllocatedOwned(Now(), owner, b);
      bm := bm[b / 8 := SetBit(bm[b / 8], b % 8)];
      blocks := blocks[b := ZeroBlock()];
      assert Now() == Allocated(old(Now()), b);
    }

    /** `bfree`: false stands for the "freeing free block" panic. */
    method Bfree(b: nat) returns (ok: bool)
      requires b / 8 < |bm|
      modifies `bm
      ensures ok <==> Used(old(bm), b)
      ensures bm == if ok then Cleared(old(bm), b) else old(bm)
    {
      hide Bit, SetBit, ClearBit;
      if !Bit(bm[b / 8], b % 8) {
        return false;
      }
      bm := bm[b / 8 := ClearBit(bm[b / 8], b % 8)];
      ok := true;
    }

    /** `ip->addrs[s] = balloc()` for an empty entry. */
    method NameBlock(i: nat, s: nat) returns (r: Option<nat>)
      requires Valid() && i in inodes && s <= NDIRECT && inodes[i].addrs[s] == 0
      modifies this
      ensures Valid() && i in inodes
      ensures r == None ==> Now() == old(Now()) && owner == old(owner) && FreeSet(Now()) == {}
      ensures r.Some? ==> Named(old(Now()), old(owner), Now(), owner, i, s, r.value)
    {
      ghost var fs := Now();
      r := Balloc();
      if r == None {
        return;
      }
      var addr := r.value;
      TakeAddr(fs, owner, i, s, addr);
      inodes := inodes[i := inodes[i].(addrs := inodes[i].addrs[s := addr])];
      owner := owner[addr := (i, s)];
      assert Now() == WithAddr(Allocated(fs, addr), i, s, addr);
    }

    /** The indirect half of `bmap`, once the indirect block exists. */
    method BmapIndirect(i: nat, j: nat) returns (r: Option<nat>)
      requires Valid() && i in inodes && j < NINDIRECT && inodes[i].addrs[NDIRECT] != 0
      modifies this
      ensures Valid()
      ensures r == None ==> Now() == old(Now()) && owner == old(owner) && FreeSet(Now()) == {}
                            && Ref(Now(), i, NDIRECT + 1 + j) == 0
      ensures r.Some? ==> Mapped(old(Now()), old(owner), Now(), owner, i, NDIRECT + j)
      ensures r.Some? ==> r.value == Ref(Now(), i, NDIRECT + 1 + j)
    {
      var a := inodes[i].addrs[NDIRECT];
      var addr := Word(blocks[a], j);
      if addr == 0 {
        ghost var fs := Now();
        var got := Balloc();
        if got == None {
          return None;
        }
        addr := got.value;
        TakeEntry(fs, owner, i, j, addr);
        blocks := blocks[a := WithWord(blocks[a], j, addr)];
        owner := owner[addr := (i, NDIRECT + 1 + j)];
        assert Now() == WithEntry(Allocated(fs, addr), i, j, addr);
      }
      r := Some(addr);
    }

    /** `bmap`: the block of a file block number, allocated (with the indirect block) if missing. */
    method Bmap(i: nat, bn: nat) returns (r: BmapResult)
      requires Valid() && i in inodes
      modifies this
      ensures Valid()
      ensures r == OutOfRange <==> bn >= MAXFILE
      ensures r == OutOfRange ==> Now() == old(Now()) && owner == old(owner)
      ensures r == OutOfBlocks ==> |FreeSet(old(Now()))| < Missing(old(Now()), i, bn)
      ensures r.Addr? ==> Mapped(old(Now()), old(owner), Now(), owner, i, bn) && r.b == Ref(Now(), i, SlotOf(bn))
    {
      ghost var fs, o := Now(), owner;
      if bn < NDIRECT {
        var addr := inodes[i].addrs[bn];
        if addr == 0 {
          var got := NameBlock(i, bn);
          if got == None {
            return OutOfBlocks;
          }
          addr := got.value;
          NamedMapped(fs, o, Now(), owner, i, bn, addr);
        }
        return Addr(addr);
      }
      var j := bn - NDIRECT;
      if j >= NINDIRECT {
        return OutOfRange;
      }
      if inodes[i].addrs[NDIRECT] == 0 {
        r := BmapNewIndirect(i, j);
      } else {
        var e := BmapIndirect(i, j);
        r := if e == None then OutOfBlocks else Addr(e.value);
      }
    }

    /** `bmap` beyond the direct blocks of an inode that has no indirect block yet. */
    method BmapNewIndirect(i: nat, j: nat) returns (r: BmapResult)
      requires Valid() && i in inodes && j < NINDIRECT && inodes[i].addrs[NDIRECT] == 0
      modifies this
      ensures Valid() && (r == OutOfBlocks || r.Addr?)
      ensures r == OutOfBlocks ==> |FreeSet(old(Now()))| < 2
      ensures r.Addr? ==> Mapped(old(Now()), old(owner), Now(), owner, i, NDIRECT + j)
      ensures r.Addr? ==> r.b == Ref(Now(), i, NDIRECT + 1 + j)
    {
      hide Owned, HasByte;
      ghost var fs, o := Now(), owner;
      var got := NameBlock(i, NDIRECT);
      if got == None {
        return OutOfBlocks;
      }
      ghost var fs1, o1 := Now(), owner;
      assert Ref(fs1, i, NDIRECT) == got.value;
      var e := BmapIndirect(i, j);
      if e == None {
        return OutOfBlocks;
      }
      NamedThenMapped(fs, o, fs1, o1, Now(), owner, i, NDIRECT + j, got.value);
      r := Addr(e.value);
    }

    /**
     `readi` on a file without holes: slicing of the contents, nothing allocated, nothing changed. The
     call is refused exactly when off is past the end or off + n wraps.
     */
    method Readi(i: nat, off: nat, n: nat, ghost content: seq<Byte>) returns (ok: bool, dst: seq<Byte>)
      requires Valid() && i in inodes && off < U32 && n < U32
      requires |content| == inodes[i].size && HasBytes(Now(), i, content)
      modifies this
      ensures Now() == old(Now()) && Valid()
      ensures ok <==> off <= |content| && off + n < U32
      ensures ok ==> dst == content[off..if off + n > |content| then |content| else off + n]
    {
      hide Owned, HasBytes;
      dst := [];
      if off > inodes[i].size || (off + n) % U32 < off {
        return false, dst;
      }
      var len := if off + n > inodes[i].size then inodes[i].size - off else n;
      var tot, o := 0, off;
      while tot < len
        invariant 0 <= tot <= len && o == off + tot && off + len <= |content|
        invariant Now() == old(Now()) && Valid()
        invariant dst == content[off..o]
      {
        var m := if len - tot < BSIZE - o % BSIZE then len - tot else BSIZE - o % BSIZE;
        var piece := ReadPiece(i, o, m, content);
        SliceJoin(content, off, o, o + m);
        dst := dst + piece;
        tot := tot + m;
        o := o + m;
      }
      ok := true;
    }

    /** One turn of the readi loop: a piece inside one block. */
    method ReadPiece(i: nat, o: nat, m: nat, ghost content: seq<Byte>) returns (piece: seq<Byte>)
      requires Valid() && i in inodes && HasBytes(Now(), i, content)
      requires o < |content| && o + m <= |content| && o % BSIZE + m <= BSIZE
      modifies this
      ensures Now() == old(Now()) && Valid() && piece == content[o..o + m]
    {
      PieceOf(Now(), i, content, o, m);
      NothingMissing(Now(), i, o, content[o]);
      var a := Bmap(i, o / BSIZE);
      piece := blocks[a.b][o % BSIZE..o % BSIZE + m];
    }

    /** One turn of the writei loop: the bytes `src` go to offset off, inside one block. */
    method WriteChunk(i: nat, off: nat, src: seq<Byte>) returns (ok: bool)
      requires Valid() && i in inodes && off + |src| <= MAXFILE * BSIZE && off % BSIZE + |src| <= BSIZE && |src| >= 1
      modifies this
      ensures Valid() && off / BSIZE < MAXFILE
      ensures ok <==> Missing(old(Now()), i, off / BSIZE) <= |FreeSet(old(Now()))|
      ensures ok ==> i in inodes && ChunkWritten(old(Now()), Now(), i, off, src)
    {
      hide HasByte, Spent, Lack;
      ghost var fs0, o0 := Now(), owner;
      var bn, at := off / BSIZE, off % BSIZE;
      var a := Bmap(i, bn);
      if !a.Addr? {
        return false;
      }
      ghost var fs := Now();
      MappedPatched(fs0, o0, fs, owner, i, off, src);
      blocks := blocks[a.b := Patched(blocks[a.b], at, src)];
      assert Now() == WithData(fs, a.b, Patched(fs.blocks[a.b], at, src));
      ok := true;
    }

    /** The loop of `writei`: it completes exactly if there is a block for each one the range lacks. */
    method WriteLoop(i: nat, off: nat, src: seq<Byte>) returns (ok: bool)
      requires Valid() && i in inodes && off + |src| <= MAXFILE * BSIZE
      modifies this
      ensures Valid()
      ensures ok <==> Lack(NamesOf(old(Now()), i), off, |src|) <= |FreeSet(old(Now()))|
      ensures ok ==> Progress(old(Now()), Now(), i, off, src)
    {
      hide Owned, HasByte, Progress, ChunkWritten, Lack, FreeSet, NamesOf;
      ghost var fs0 := Now();
      BasicNow(fs0, owner);
      StartWriting(fs0, owner, i, off, src);
      var tot := 0;
      while tot < |src|
        invariant Valid() && i in inodes && Writing(fs0, Now(), i, off, src, tot)
      {
        var m := ChunkLen(off + tot, |src| - tot);
        ghost var fs1 := Now();
        ok := WriteChunk(i, off + tot, src[tot..tot + m]);
        if !ok {
          WritingStuck(fs0, fs1, i, off, src, tot);
          return;
        }
        WritingMore(fs0, fs1, Now(), i, off, src, tot);
        tot := tot + m;
      }
      assert src[..tot] == src;
      Afforded(fs0, Now(), i, off, src);
      ok := true;
    }

    /**
     `writei` on a file without holes: overwrite or extend the contents, and touch no byte of any other
     file. It is refused exactly when it starts past the end or would exceed the largest file; it never
     asks bmap for a block out of range; and it runs out of blocks exactly when the range lacks more
     blocks than are free.
     */
    method Writei(i: nat, off: nat, src: seq<Byte>, ghost content: seq<Byte>) returns (r: WriteResult)
      requires Valid() && i in inodes && off < U32 && |src| < U32
      requires |content| == inodes[i].size && HasBytes(Now(), i, content)
      modifies this
      ensures Valid()
      ensures r == Refused <==> off > |content| || off + |src| > MAXFILE * BSIZE
      ensures r == Refused ==> Now() == old(Now())
      ensures r == NoBlocks <==> r != Refused && |FreeSet(old(Now()))| < Lack(NamesOf(old(Now()), i), off, |src|)
      ensures r == Written ==> FileWritten(old(Now()), Now(), i, content, off, src)
    {
      hide Owned, HasByte, Progress, Spent, Lack, FreeSet, NamesOf;
      var n := |src|;
      BasicNow(Now(), owner);
      if off > inodes[i].size || (off + n) % U32 < off {
        return Refused;
      }
      if off + n > MAXFILE * BSIZE {
        return Refused;
      }
      ghost var fs0 := Now();
      var ok := WriteLoop(i, off, src);
      if !ok {
        return NoBlocks;
      }
      WrittenFile(fs0, Now(), owner, i, content, off, src);
      SizeKept(fs0, Now(), i, off, src);
      if n > 0 && off + n > inodes[i].size {
        inodes := inodes[i := inodes[i].(size := off + n)];
      }
      r := Written;
    }

    /**
     `itrunc`: exactly the bits of the blocks inode i names are cleared, each once, so "freeing free
     block" is not reached; the inode is left empty and no other file changes.
     */
    method Itrunc(i: nat) returns (ok: bool)
      requires Valid() && i in inodes
      modifies this
      ensures ok && Valid() && owner == Disowned(old(owner), i)
      ensures inodes == old(inodes)[i := Inode(0, ZeroAddrs())] && blocks == old(blocks)
      ensures forall b | 0 <= b < nblocks ::
                Used(bm, b) <==> Used(old(bm), b) && !(b in old(owner) && old(owner)[b].0 == i)
      ensures forall j, k, x | HasByte(old(Now()), j, k, x) && j != i :: HasByte(Now(), j, k, x)
    {
      hide HasByte;
      ghost var fs, o := Now(), owner;
      var addrs := FreeDirect(i, fs, o);
      if addrs[NDIRECT] != 0 {
        FreeIndirect(i, addrs[NDIRECT], fs, o);
        addrs := addrs[NDIRECT := 0];
      } else {
        NoIndirect(fs, o, bm, i);
      }
      TruncatedOwned(fs, o, bm, i);
      assert addrs == ZeroAddrs();
      inodes := inodes[i := inodes[i].(size := 0, addrs := addrs)];
      owner := Disowned(owner, i);
      assert Now() == Truncated(fs, bm, i);
      ok := true;
    }

    /** The first half of itrunc: the direct blocks. */
    method FreeDirect(i: nat, ghost fs: Fs, ghost o: Owner) returns (addrs: seq<nat>)
      requires Owned(fs, o) && i in inodes && Now() == fs
      modifies `bm
      ensures Freeing(fs, o, bm, i, NDIRECT) && |addrs| == NDIRECT + 1
      ensures forall t | 0 <= t <= NDIRECT :: addrs[t] == if t < NDIRECT then 0 else fs.inodes[i].addrs[t]
    {
      addrs := inodes[i].addrs;
      var s := 0;
      while s < NDIRECT
        invariant 0 <= s <= NDIRECT && |addrs| == NDIRECT + 1 && Freeing(fs, o, bm, i, s)
        invariant forall t | 0 <= t <= NDIRECT :: addrs[t] == if t < s then 0 else fs.inodes[i].addrs[t]
      {
        FreeingSlot(fs, o, bm, i, s);
        if addrs[s] != 0 {
          var ok := Bfree(addrs[s]);
          assert ok;
          addrs := addrs[s := 0];
        }
        s := s + 1;
      }
    }

    /** The second half of itrunc: the entries of the indirect block, then the block itself. */
    method FreeIndirect(i: nat, a: nat, ghost fs: Fs, ghost o: Owner)
      requires Freeing(fs, o, bm, i, NDIRECT) && a == fs.inodes[i].addrs[NDIRECT] && a != 0
      requires blocks == fs.blocks && nblocks == fs.nblocks
      modifies `bm
      ensures Freeing(fs, o, bm, i, SLOTS)
    {
      var j := 0;
      while j < NINDIRECT
        invariant 0 <= j <= NINDIRECT && Freeing(fs, o, bm, i, NDIRECT + j)
      {
        FreeingSlot(fs, o, bm, i, NDIRECT + 1 + j);
        var b := Word(blocks[a], j);
        if b != 0 {
          var ok := Bfree(b);
          assert ok;
        }
        j := j + 1;
      }
      FreeingSlot(fs, o, bm, i, NDIRECT);
      var ok := Bfree(a);
      assert ok;
    }

    /**
     `filewrite` on an inode: the data goes out in transactions of at most (LOGSIZE-1-1-2)/2 blocks. The
     chunks that fit below the largest file are written and the offset advances past them; the call
     succeeds if that is all of them. It panics exactly when those chunks lack more blocks than are free.
     */
    method Filewrite(i: nat, off: nat, src: seq<Byte>, ghost content: seq<Byte>)
      returns (ok: bool, off': nat, panicked: bool)
      requires Valid() && i in inodes && off <= |content| && |src| < U32
      requires |content| == inodes[i].size && HasBytes(Now(), i, content)
      modifies this
      ensures Valid() && Accepted(off, |src|) <= |src|
      ensures panicked <==> |FreeSet(old(Now()))| < Lack(NamesOf(old(Now()), i), off, Accepted(off, |src|))
      ensures !panicked ==> off' == off + Accepted(off, |src|) && (ok <==> Accepted(off, |src|) == |src|)
      ensures !panicked ==> FileWritten(old(Now()), Now(), i, content, off, src[..Accepted(off, |src|)])
    {
      hide Owned, HasByte, HasBytes, Spent, Lack, FreeSet, NamesOf, FileWritten, Overwritten, Accepted;
      ghost var fs0, now, all := Now(), content, Accepted(off, |src|);
      BasicNow(fs0, owner);
      AcceptedFits(off, |src|);
      var k: nat := 0;
      panicked := false;
      off' := off;
      StartFile(fs0, i, content, off, src);
      while k < |src|
        invariant Valid() && i in inodes && 0 <= k <= |src| && off' == off + k && all == k + Accepted(off', |src| - k)
        invariant FileWritten(fs0, Now(), i, content, off, src[..k]) && now == Overwritten(content, off, src[..k])
      {
        var n1 := Least(|src| - k, CHUNKMAX);
        ghost var fs1 := Now();
        FileFits(fs0, fs1, i, content, off, src[..k]);
        AcceptedStep(off', |src| - k);
        var r := Writei(i, off', src[k..k + n1], now);
        if r == Refused {
          FileAfforded(fs0, Now(), i, content, off, src, k);
          return false, off', false;
        }
        if r == NoBlocks {
          ChunkUnaffordable(fs0, fs1, i, off, k, n1, all);
          return false, off', true;
        }
        FileMore(fs0, fs1, Now(), i, content, off, src, k, n1);
        now := Overwritten(now, off', src[k..k + n1]);
        FileFits(fs0, Now(), i, content, off, src[..k + n1]);
        k := k + n1;
        off' := off' + n1;
      }
      AcceptedNone(off');
      FileAfforded(fs0, Now(), i, content, off, src, k);
      ok := true;
    }

    /** `ialloc` and the blank inode it gives: a file without blocks or bytes. */
    method Ialloc(ninodes: nat) returns (r: Option<nat>)
      requires Valid()
      modifies `inodes
      ensures Valid()
      ensures r == None <==> forall j: nat | 1 <= j < ninodes :: j in old(inodes)
      ensures r == None ==> inodes == old(inodes)
      ensures r.Some? ==>
                && 1 <= r.value < ninodes && r.value !in old(inodes)
                && (forall j: nat | 1 <= j < r.value :: j in old(inodes))
                && inodes == old(inodes)[r.value := Inode(0, ZeroAddrs())] && Keeps(old(Now()), Now())
    {
      hide HasByte;
      var j: nat := 1;
      while j < ninodes
        invariant 1 <= j && inodes == old(inodes) && forall k: nat | 1 <= k < j && k < ninodes :: k in inodes
      {
        if j !in inodes {
          NewInode(Now(), owner, j);
          inodes := inodes[j := Inode(0, ZeroAddrs())];
          return Some(j);
        }
        j := j + 1;
      }
      r := None;
    }
  }

  /** A finished write was affordable. */
  lemma {:induction false} Afforded(fs0: Fs, fs1: Fs, i: nat, off: nat, src: seq<Byte>)
    requires Progress(fs0, fs1, i, off, src)
    ensures Lack(NamesOf(fs0, i), off, |src|) <= |FreeSet(fs0)|
  {
    hide Lack, FreeSet, HasByte;
  }

  /** How many of n bytes filewrite gets rid of before a chunk would exceed the largest file. */
  function Accepted(off: nat, n: nat): nat
    decreases n
  {
    if n == 0 then 0
    else
      var n1 := Least(n, CHUNKMAX);
      if off + n1 > MAXFILE * BSIZE then 0 else n1 + Accepted(off + n1, n - n1)
  }

  lemma {:induction false} AcceptedFits(off: nat, n: nat)
    ensures Accepted(off, n) <= n && (off <= MAXFILE * BSIZE ==> off + Accepted(off, n) <= MAXFILE * BSIZE)
    decreases n
  {
    if n > 0 { AcceptedFits(off + Least(n, CHUNKMAX), n - Least(n, CHUNKMAX)); }
  }

  lemma {:induction false} AcceptedStep(off: nat, n: nat)
    requires n > 0
    ensures var n1 := Least(n, CHUNKMAX);
            if off + n1 > MAXFILE * BSIZE then Accepted(off, n) == 0
            else n1 <= Accepted(off, n) == n1 + Accepted(off + n1, n - n1)
  {
  }

  lemma AcceptedNone(off: nat)
    ensures Accepted(off, 0) == 0
  {
  }

  lemma {:induction false} FileFits(fs: Fs, fs1: Fs, i: nat, content: seq<Byte>, off: nat, src: seq<Byte>)
    requires off <= |content| && FileWritten(fs, fs1, i, content, off, src)
    ensures off + |src| <= |Overwritten(content, off, src)| <= MAXFILE * BSIZE && Spent(fs, fs1, i, off, |src|)
    ensures i in fs1.inodes && fs1.inodes[i].size == |Overwritten(content, off, src)|
    ensures HasBytes(fs1, i, Overwritten(content, off, src))
  {
    hide HasByte, Spent;
  }

  lemma {:induction false} FileAfforded(fs: Fs, fs1: Fs, i: nat, content: seq<Byte>, off: nat, src: seq<Byte>, k: nat)
    requires off <= |content| && k <= |src| && FileWritten(fs, fs1, i, content, off, src[..k])
    ensures Basic(fs) && i in fs.inodes && Lack(NamesOf(fs, i), off, k) <= |FreeSet(fs)|
  {
    hide HasByte, Lack, FreeSet;
  }

  lemma {:induction false} ChunkUnaffordable(fs: Fs, fs1: Fs, i: nat, off: nat, k: nat, n1: nat, all: nat)
    requires Spent(fs, fs1, i, off, k) && k + n1 <= all && off + all <= MAXFILE * BSIZE
    requires |FreeSet(fs1)| < Lack(NamesOf(fs1, i), off + k, n1)
    ensures |FreeSet(fs)| < Lack(NamesOf(fs, i), off, all)
  {
    SpentRest(fs, fs1, i, off, k, all);
    LackGrows(NamesOf(fs1, i), off + k, n1, all - k);
    hide Lack, FreeSet;
  }
}
