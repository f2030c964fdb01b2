/**
 The image builder src/mkfs.c. It hands out blocks by counting up and writes the bitmap last; the image
 it leaves satisfies the ownership invariant the file system code relies on.
 */
module Mkfs {
  import opened Common
  import opened FsFormat
  import opened FsCount
  import opened FsBlocks

  // ------------------------------------------------------------ the bitmap

  /** A bitmap of `bytes` bytes whose first n bits are set. */
  function Prefix(bytes: nat, n: nat): (bm: Bitmap)
    requires n <= 8 * bytes
    ensures |bm| == bytes
  {
    if n == 0 then seq(bytes, _ => 0) else Marked(Prefix(bytes, n - 1), n - 1)
  }

  lemma {:induction false} PrefixUsed(bytes: nat, n: nat, b: nat)
    requires n <= 8 * bytes && b < 8 * bytes
    ensures Used(Prefix(bytes, n), b) <==> b < n
    decreases n
  {
    if n == 0 {
      assert Prefix(bytes, 0)[b / 8] == 0;
    } else {
      PrefixUsed(bytes, n - 1, b);
      MarkedUsed(Prefix(bytes, n - 1), n - 1, b);
      hide Used, Marked;
    }
  }

  /** `balloc`: the bitmap with the first `used` blocks marked. */
  method Balloc(bytes: nat, used: nat) returns (bm: Bitmap)
    requires used <= 8 * bytes
    ensures bm == Prefix(bytes, used)
    ensures forall b: nat | b < 8 * bytes :: Used(bm, b) <==> b < used
  {
    bm := seq(bytes, _ => 0);
    var i: nat := 0;
    while i < used
      invariant i <= used && bm == Prefix(bytes, i)
    {
      bm := bm[i / 8 := SetBit(bm[i / 8], i % 8)];
      i := i + 1;
    }
    forall b: nat | b < 8 * bytes ensures Used(bm, b) <==> b < used { PrefixUsed(bytes, used, b); }
  }

  /** The numbers from lo up to hi. */
  function Above(lo: nat, hi: nat): (r: set<nat>)
    ensures forall b :: b in r <==> lo <= b < hi
    ensures |r| == if lo <= hi then hi - lo else 0
    decreases hi - lo
  {
    if lo >= hi then {} else {lo} + Above(lo + 1, hi)
  }

  // ------------------------------------------------------------ images under construction

  /** The file system the image will be once the bitmap marks the blocks below `next`. */
  function Built(nblocks: nat, first: nat, bytes: nat, blocks: seq<Block>, inodes: map<nat, Inode>, next: nat): Fs
    requires next <= 8 * bytes
  {
    Fs(nblocks, first, Prefix(bytes, next), blocks, inodes)
  }

  /** Blocks not handed out yet are zero. */
  ghost predicate Blank(blocks: seq<Block>, next: nat) {
    forall b | next <= b < |blocks| :: blocks[b] == ZeroBlock()
  }

  lemma {:induction false} FreeAbove(nblocks: nat, first: nat, bytes: nat, blocks: seq<Block>,
                                     inodes: map<nat, Inode>, next: nat)
    requires next <= nblocks <= 8 * bytes
    ensures |FreeSet(Built(nblocks, first, bytes, blocks, inodes, next))| == nblocks - next
    ensures next < nblocks ==> !Used(Prefix(bytes, next), next)
  {
    var fs := Built(nblocks, first, bytes, blocks, inodes, next);
    forall b: nat | b < nblocks ensures Used(fs.bm, b) <==> b < next { PrefixUsed(bytes, next, b); }
    assert FreeSet(fs) == Above(next, nblocks);
  }

  /** `freeblock++` is an allocation: the next block is free, and zero already. */
  lemma {:induction false} CountedUp(nblocks: nat, first: nat, bytes: nat, blocks: seq<Block>,
                                     inodes: map<nat, Inode>, next: nat)
    requires next < nblocks == |blocks| <= 8 * bytes && Blank(blocks, next)
    ensures Built(nblocks, first, bytes, blocks, inodes, next + 1)
            == Allocated(Built(nblocks, first, bytes, blocks, inodes, next), next)
    ensures !Used(Prefix(bytes, next), next)
  {
    PrefixUsed(bytes, next, next);
    assert blocks[next := ZeroBlock()] == blocks;
    hide Used, Marked;
  }

  /** No block is named beyond the end of inode i. */
  ghost predicate Tight(fs: Fs, i: nat, size: nat) {
    && Basic(fs) && i in fs.inodes
    && forall bn: nat | bn < MAXFILE && size <= bn * BSIZE :: Ref(fs, i, SlotOf(bn)) == 0
  }

  lemma {:induction false} TightGrows(fs: Fs, fs': Fs, i: nat, off: nat, size: nat)
    requires off / BSIZE < MAXFILE && off < size && Tight(fs, i, off) && Grows(fs, fs', i, SlotOf(off / BSIZE))
    ensures Tight(fs', i, size)
  {
    forall bn: nat | bn < MAXFILE && size <= bn * BSIZE
      ensures Ref(fs', i, SlotOf(bn)) == 0
    {
      assert bn != off / BSIZE;
      assert Ref(fs, i, SlotOf(bn)) == 0;
    }
  }

  lemma {:induction false} TightSame(fs: Fs, fs': Fs, i: nat, size: nat)
    requires Tight(fs, i, size) && SameRefs(fs, fs')
    ensures Tight(fs', i, size)
  {
    forall bn: nat | bn < MAXFILE && size <= bn * BSIZE
      ensures Ref(fs', i, SlotOf(bn)) == 0
    {
      assert Ref(fs, i, SlotOf(bn)) == 0;
    }
  }

  /** The size mkfs gives the root directory in the end: the next multiple of BSIZE above. */
  function Rounded(size: nat): nat {
    (size / BSIZE + 1) * BSIZE
  }

  lemma RoundedNext(size: nat)
    ensures Rounded(size) % BSIZE == 0 && size < Rounded(size) <= size + BSIZE
  {
  }

  /** The rounding leaves no hole exactly when the size was not a multiple of BSIZE. */
  lemma {:induction false} RoundedHole(fs: Fs, owner: Owner, i: nat, content: seq<Byte>)
    requires Owned(fs, owner) && i in fs.inodes && HasBytes(fs, i, content) && Tight(fs, i, |content|)
    requires Rounded(|content|) <= MAXFILE * BSIZE
    ensures (forall k: nat | k < Rounded(|content|) :: BlockOf(fs, i, k) != 0) <==> |content| % BSIZE != 0
  {
    var size := |content|;
    var bn := size / BSIZE;
    if size % BSIZE == 0 {
      assert BlockOf(fs, i, size) == 0 by { assert Ref(fs, i, SlotOf(bn)) == 0; }
    } else {
      forall k: nat | k < Rounded(size)
        ensures BlockOf(fs, i, k) != 0
      {
        if k < size {
          assert HasByte(fs, i, k, content[k]);
        } else {
          assert HasByte(fs, i, size - 1, content[size - 1]);
          assert k / BSIZE == (size - 1) / BSIZE;
        }
      }
    }
  }

  class Image {
    const nblocks: nat
    const first: nat
    const bytes: nat
    var blocks: seq<Block>
    var inodes: map<nat, Inode>
    var freeblock: nat
    var freeinode: nat
    ghost var owner: Owner

    ghost predicate InBounds()
      reads this
    {
      first <= freeblock <= nblocks == |blocks| <= 8 * bytes
    }

    ghost function Now(): Fs
      reads this
      requires InBounds()
    {
      Built(nblocks, first, bytes, blocks, inodes, freeblock)
    }

    ghost predicate Valid()
      reads this
    {
      InBounds() && Owned(Now(), owner) && Blank(blocks, freeblock) && forall i | i in inodes :: i < freeinode
    }

    /** An empty image: all blocks zero, the metadata blocks taken. */
    constructor (size: nat, nmeta: nat, bitmapbytes: nat)
      requires 0 < nmeta <= size < U32 && size <= 8 * bitmapbytes
      ensures Valid() && inodes == map[] && freeblock == nmeta == first && nblocks == size && freeinode == 1
    {
      nblocks, first, bytes := size, nmeta, bitmapbytes;
      blocks := seq(size, _ => ZeroBlock());
      inodes, freeblock, freeinode, owner := map[], nmeta, 1, map[];
      forall b: nat | b < nmeta ensures Used(Prefix(bitmapbytes, nmeta), b) { PrefixUsed(bitmapbytes, nmeta, b); }
      hide Used, Prefix;
    }

    /** `ialloc`: the next inode number, with no blocks. */
    method Ialloc() returns (inum: nat)
      requires Valid()
      modifies `inodes, `freeinode
      ensures Valid() && inum == old(freeinode) && inum !in old(inodes) && freeinode == old(freeinode) + 1
      ensures inodes == old(inodes)[inum := Inode(0, ZeroAddrs())]
      ensures HasBytes(Now(), inum, []) && Tight(Now(), inum, 0) && Keeps(old(Now()), Now())
    {
      inum := freeinode;
      freeinode := freeinode + 1;
      ghost var fs := Now();
      inodes := inodes[inum := Inode(0, ZeroAddrs())];
      NewInode(fs, owner, inum);
      NewTight(fs, owner, inum);
    }

    /** `din.addrs[s] = freeblock++` for an empty entry. */
    method NameNext(i: nat, s: nat) returns (x: nat)
      requires Valid() && i in inodes && s <= NDIRECT && Ref(Now(), i, s) == 0 && freeblock < nblocks
      modifies this
      ensures Valid() && x == old(freeblock) && freeblock == x + 1 && freeinode == old(freeinode)
      ensures Named(old(Now()), old(owner), Now(), owner, i, s, x)
    {
      hide HasByte, Used, Marked, Prefix, Allocated;
      ghost var fs := Now();
      CountedUp(nblocks, first, bytes, blocks, inodes, freeblock);
      TakeAddr(fs, owner, i, s, freeblock);
      hide Owned;
      x := freeblock;
      freeblock := freeblock + 1;
      inodes := inodes[i := inodes[i].(addrs := inodes[i].addrs[s := x])];
      owner := owner[x := (i, s)];
      assert Now() == WithAddr(Allocated(fs, x), i, s, x);
    }

    /** `indirect[j] = freeblock++` for an empty entry. */
    method EntryNext(i: nat, j: nat) returns (x: nat)
      requires Valid() && i in inodes && j < NINDIRECT && Ref(Now(), i, NDIRECT) != 0
      requires Ref(Now(), i, NDIRECT + 1 + j) == 0 && freeblock < nblocks
      modifies this
      ensures Valid() && freeinode == old(freeinode) && Mapped(old(Now()), old(owner), Now(), owner, i, NDIRECT + j)
      ensures x == Ref(Now(), i, NDIRECT + 1 + j)
    {
      hide Mapped, HasByte, Used, Marked, Prefix, Allocated, Word, WithWord;
      ghost var fs := Now();
      var a := inodes[i].addrs[NDIRECT];
      CountedUp(nblocks, first, bytes, blocks, inodes, freeblock);
      IndirectBelow(fs, owner, freeblock, i);
      EntryMapped(fs, owner, i, j, freeblock);
      hide Owned, Ref;
      x := freeblock;
      freeblock := freeblock + 1;
      blocks := blocks[a := WithWord(blocks[a], j, x)];
      owner := owner[x := (i, NDIRECT + 1 + j)];
      assert Now() == WithEntry(Allocated(fs, x), i, j, x);
    }

    /** The indirect case, once the indirect block is there. */
    method MapEntry(i: nat, j: nat) returns (x: nat)
      requires Valid() && i in inodes && j < NINDIRECT && Ref(Now(), i, NDIRECT) != 0
      requires Ref(Now(), i, NDIRECT + 1 + j) == 0 ==> freeblock < nblocks
      modifies this
      ensures Valid() && freeinode == old(freeinode) && Mapped(old(Now()), old(owner), Now(), owner, i, NDIRECT + j)
      ensures x == Ref(Now(), i, NDIRECT + 1 + j)
    {
      hide HasByte, Used;
      x := Word(blocks[inodes[i].addrs[NDIRECT]], j);
      if x == 0 {
        x := EntryNext(i, j);
      }
    }

    /** The block for file block fbn, taken if missing. */
    method MapBlock(i: nat, fbn: nat) returns (x: nat)
      requires Valid() && i in inodes && fbn < MAXFILE && freeblock + Missing(Now(), i, fbn) <= nblocks
      modifies this
      ensures Valid() && freeinode == old(freeinode)
      ensures Mapped(old(Now()), old(owner), Now(), owner, i, fbn) && x == Ref(Now(), i, SlotOf(fbn))
    {
      hide HasByte, Used, Prefix;
      ghost var fs, o := Now(), owner;
      if fbn < NDIRECT {
        x := inodes[i].addrs[fbn];
        if x == 0 {
          x := NameNext(i, fbn);
          NamedMapped(fs, o, Now(), owner, i, fbn, x);
        }
        return;
      }
      if inodes[i].addrs[NDIRECT] == 0 {
        x := MapNewIndirect(i, fbn - NDIRECT);
      } else {
        x := MapEntry(i, fbn - NDIRECT);
      }
    }

    /** The indirect case for an inode that has no indirect block yet. */
    method MapNewIndirect(i: nat, j: nat) returns (x: nat)
      requires Valid() && i in inodes && j < NINDIRECT && Ref(Now(), i, NDIRECT) == 0 && freeblock + 2 <= nblocks
      modifies this
      ensures Valid() && freeinode == old(freeinode)
      ensures Mapped(old(Now()), old(owner), Now(), owner, i, NDIRECT + j) && x == Ref(Now(), i, NDIRECT + 1 + j)
    {
      hide Owned, HasByte, Keeps, Used, Prefix;
      ghost var fs, o := Now(), owner;
      x := NameNext(i, NDIRECT);
      ghost var fs1, o1, a := Now(), owner, x;
      assert Ref(fs1, i, NDIRECT) == a;
      x := MapEntry(i, j);
      NamedThenMapped(fs, o, fs1, o1, Now(), owner, i, NDIRECT + j, a);
    }

    /** One turn of `iappend`: the piece goes behind the end, inside one block. */
    method AppendChunk(i: nat, off: nat, src: seq<Byte>)
      requires Valid() && i in inodes && off + |src| <= MAXFILE * BSIZE && off % BSIZE + |src| <= BSIZE && |src| >= 1
      requires freeblock + Missing(Now(), i, off / BSIZE) <= nblocks && Tight(Now(), i, off)
      modifies this
      ensures Valid() && freeinode == old(freeinode) && ChunkWritten(old(Now()), Now(), i, off, src)
      ensures Tight(Now(), i, off + |src|)
    {
      hide Owned, HasByte, Used;
      ghost var fs0, o0 := Now(), owner;
      var x := MapBlock(i, off / BSIZE);
      ghost var fs := Now();
      TightGrows(fs0, fs, i, off, off + |src|);
      MappedPatched(fs0, o0, fs, owner, i, off, src);
      NamedBelow(fs, owner, freeblock, i, SlotOf(off / BSIZE));
      ghost var fs2 := WithData(fs, x, Patched(fs.blocks[x], off % BSIZE, src));
      TightPatched(fs, owner, i, off, src, off + |src|);
      blocks := blocks[x := Patched(blocks[x], off % BSIZE, src)];
      assert Now() == fs2;
    }

    /** `iappend`: the bytes are added at the end of the file, and no other file changes. */
    method Iappend(i: nat, src: seq<Byte>, ghost content: seq<Byte>)
      requires Valid() && i in inodes && |content| == inodes[i].size && HasBytes(Now(), i, content)
               && Tight(Now(), i, |content|)
      requires |content| + |src| <= MAXFILE * BSIZE
      requires freeblock + Lack(NamesOf(Now(), i), |content|, |src|) <= nblocks
      modifies this
      ensures Valid() && freeinode == old(freeinode)
      ensures FileWritten(old(Now()), Now(), i, content, |content|, src)
      ensures Tight(Now(), i, |content| + |src|)
    {
      hide Owned, Used, Prefix, HasByte, HasBytes, Keeps, Appending, Tight, Progress, FileWritten, Lack, FreeSet,
           NamesOf;
      ghost var fs0 := Now();
      var off := inodes[i].size;
      FreeAbove(nblocks, first, bytes, blocks, inodes, freeblock);
      BasicNow(fs0, owner);
      StartAppending(fs0, owner, i, off, src);
      var tot: nat := 0;
      while tot < |src|
        invariant Valid() && i in inodes && freeinode == old(freeinode)
        invariant tot <= |src| && Appending(fs0, Now(), i, off, src, tot)
      {
        var m := ChunkLen(off + tot, |src| - tot);
        AppendNext(fs0, i, off, src, tot);
        tot := tot + m;
      }
      assert src[..tot] == src;
      ghost var fs2 := Now();
      Appended(fs0, fs2, owner, i, content, off, src);
      inodes := inodes[i := inodes[i].(size := off + tot)];
      assert Now() == Resized(fs2, i, off + tot);
    }

    method AppendNext(ghost fs0: Fs, i: nat, off: nat, src: seq<Byte>, tot: nat)
      requires Valid() && i in inodes && tot < |src| && off + |src| <= MAXFILE * BSIZE
      requires Basic(fs0) && i in fs0.inodes
      requires Appending(fs0, Now(), i, off, src, tot) && Lack(NamesOf(fs0, i), off, |src|) <= |FreeSet(fs0)|
      modifies this
      ensures Valid() && i in inodes && freeinode == old(freeinode)
      ensures Appending(fs0, Now(), i, off, src, tot + ChunkLen(off + tot, |src| - tot))
    {
      hide Owned, Used, Prefix, HasByte, Keeps, Progress, Lack, NamesOf;
      var m := ChunkLen(off + tot, |src| - tot);
      ghost var fs1 := Now();
      FreeAbove(nblocks, first, bytes, blocks, inodes, freeblock);
      Enough(fs0, fs1, i, off, src, tot);
      AppendChunk(i, off + tot, src[tot..tot + m]);
      WritingMore(fs0, fs1, Now(), i, off, src, tot);
    }

    /** The end of mkfs: the root's size is rounded up and the bitmap written. The image is in order. */
    method Finish(root: nat) returns (bm: Bitmap)
      requires Valid() && root in inodes
      modifies `inodes
      ensures Owned(Fs(nblocks, first, bm, blocks, inodes), owner)
      ensures inodes == old(inodes)[root := old(inodes)[root].(size := Rounded(old(inodes)[root].size))]
      ensures forall b: nat | b < nblocks :: b / 8 < |bm| && (Used(bm, b) <==> b < freeblock)
    {
      hide Used, HasByte, Prefix;
      ResizedOwned(Now(), owner, root, Rounded(inodes[root].size));
      inodes := inodes[root := inodes[root].(size := (inodes[root].size / BSIZE + 1) * BSIZE)];
      bm := Balloc(bytes, freeblock);
    }
  }

  lemma {:induction false} NewTight(fs: Fs, owner: Owner, i: nat)
    requires Owned(fs, owner) && i !in fs.inodes
    ensures Tight(fs.(inodes := fs.inodes[i := Inode(0, ZeroAddrs())]), i, 0)
  {
    NewInode(fs, owner, i);
  }

  lemma {:induction false} NamedBelow(fs: Fs, owner: Owner, next: nat, i: nat, s: nat)
    requires Owned(fs, owner) && next <= 8 * |fs.bm| && fs.bm == Prefix(|fs.bm|, next) && i in fs.inodes && s < SLOTS
    requires Ref(fs, i, s) != 0
    ensures Ref(fs, i, s) < next
  {
    PrefixUsed(|fs.bm|, next, Ref(fs, i, s));
    hide Used, Prefix;
  }

  lemma {:induction false} IndirectBelow(fs: Fs, owner: Owner, next: nat, i: nat)
    requires Owned(fs, owner) && next <= 8 * |fs.bm| && fs.bm == Prefix(|fs.bm|, next) && i in fs.inodes
    requires fs.inodes[i].addrs[NDIRECT] != 0
    ensures fs.inodes[i].addrs[NDIRECT] < next
  {
    assert Ref(fs, i, NDIRECT) == fs.inodes[i].addrs[NDIRECT];
    NamedBelow(fs, owner, next, i, NDIRECT);
  }

  lemma {:induction false} EntryMapped(fs: Fs, owner: Owner, i: nat, j: nat, b: nat)
    requires Owned(fs, owner) && i in fs.inodes && j < NINDIRECT
    requires fs.inodes[i].addrs[NDIRECT] != 0 && Ref(fs, i, NDIRECT + 1 + j) == 0
    requires b < fs.nblocks && !Used(fs.bm, b)
    ensures var fs' := WithEntry(Allocated(fs, b), i, j, b);
            && Mapped(fs, owner, fs', owner[b := (i, NDIRECT + 1 + j)], i, NDIRECT + j)
            && Owned(fs', owner[b := (i, NDIRECT + 1 + j)]) && Ref(fs', i, NDIRECT + 1 + j) == b
  {
    hide HasByte;
    TakeEntry(fs, owner, i, j, b);
  }

  lemma {:induction false} TightPatched(fs: Fs, owner: Owner, i: nat, off: nat, src: seq<Byte>, size: nat)
    requires Owned(fs, owner) && i in fs.inodes && off < MAXFILE * BSIZE && off % BSIZE + |src| <= BSIZE
    requires BlockOf(fs, i, off) != 0 && Tight(fs, i, size)
    ensures var b := BlockOf(fs, i, off);
            b < fs.nblocks && Tight(WithData(fs, b, Patched(fs.blocks[b], off % BSIZE, src)), i, size)
  {
    PatchedBytes(fs, owner, i, off, src);
    var b := BlockOf(fs, i, off);
    TightSame(fs, WithData(fs, b, Patched(fs.blocks[b], off % BSIZE, src)), i, size);
  }

  lemma {:induction false} TightResized(fs: Fs, i: nat, size: nat)
    requires Tight(fs, i, size)
    ensures Tight(Resized(fs, i, size), i, size)
  {
    forall bn: nat | bn < MAXFILE && size <= bn * BSIZE
      ensures Ref(Resized(fs, i, size), i, SlotOf(bn)) == 0
    {
      assert Ref(fs, i, SlotOf(bn)) == 0;
    }
  }

  /** The loop of iappend: what is written so far, and nothing named beyond. */
  ghost predicate Appending(fs0: Fs, fs1: Fs, i: nat, off: nat, src: seq<Byte>, tot: nat) {
    Writing(fs0, fs1, i, off, src, tot) && Tight(fs1, i, off + tot)
  }

  lemma {:induction false} StartAppending(fs: Fs, owner: Owner, i: nat, off: nat, src: seq<Byte>)
    requires Owned(fs, owner) && i in fs.inodes && Tight(fs, i, off) && off <= MAXFILE * BSIZE
    ensures Appending(fs, fs, i, off, src, 0)
  {
    hide Tight;
    StartWriting(fs, owner, i, off, src);
  }

  /** There is still room for the next piece. */
  lemma {:induction false} Enough(fs0: Fs, fs1: Fs, i: nat, off: nat, src: seq<Byte>, tot: nat)
    requires Writing(fs0, fs1, i, off, src, tot) && tot < |src| && off + |src| <= MAXFILE * BSIZE && i in fs1.inodes
    requires Basic(fs0) && Basic(fs1) && i in fs0.inodes && Lack(NamesOf(fs0, i), off, |src|) <= |FreeSet(fs0)|
    ensures Missing(fs1, i, (off + tot) / BSIZE) <= |FreeSet(fs1)|
  {
    if |FreeSet(fs1)| < Missing(fs1, i, (off + tot) / BSIZE) {
      WritingStuck(fs0, fs1, i, off, src, tot);
    }
  }

  /** The finished append with its new size. */
  lemma {:induction false} Appended(fs: Fs, fs1: Fs, owner1: Owner, i: nat, content: seq<Byte>, off: nat,
                                    src: seq<Byte>)
    requires Appending(fs, fs1, i, off, src, |src|) && Owned(fs1, owner1)
    requires HasBytes(fs, i, content) && i in fs.inodes && off == |content| == fs.inodes[i].size
             && off + |src| <= MAXFILE * BSIZE
    ensures i in fs1.inodes && fs1.inodes[i].size == off
    ensures var fs2 := Resized(fs1, i, off + |src|);
            Owned(fs2, owner1) && FileWritten(fs, fs2, i, content, off, src) && Tight(fs2, i, off + |src|)
  {
    hide HasBytes, HasByte, Owned, FileWritten, Progress, Tight, Spent;
    assert src[..|src|] == src;
    SizeKept(fs, fs1, i, off, src);
    WrittenFile(fs, fs1, owner1, i, content, off, src);
    TightResized(fs1, i, off + |src|);
    assert src == [] ==> Resized(fs1, i, off) == fs1;
  }
}
