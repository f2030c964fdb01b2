/**
 Who owns which disk block: src/fs.c as values. Every block an inode names (directly, as its indirect
 block, or inside the indirect block) is a data block, marked in use, and named exactly once.
 */
module FsBlocks {
  import LogFormat
  import opened Common
  import opened FsFormat
  import opened FsCount

  /** The part of an inode that names blocks. addrs[NDIRECT] is the indirect block. */
  datatype Inode = Inode(size: nat, addrs: seq<nat>)

  /** sb.size blocks of which the first `first` hold boot, super, log, inode and bitmap blocks. */
  datatype Fs = Fs(nblocks: nat, first: nat, bm: Bitmap, blocks: seq<Block>, inodes: map<nat, Inode>)

  const SLOTS: nat := NDIRECT + 1 + NINDIRECT

  ghost predicate Basic(fs: Fs) {
    && 0 < fs.first <= fs.nblocks < U32 && |fs.blocks| == fs.nblocks <= 8 * |fs.bm|
    && forall i | i in fs.inodes :: |fs.inodes[i].addrs| == NDIRECT + 1 && fs.inodes[i].addrs[NDIRECT] < fs.nblocks
  }

  /** Block slots of an inode: 0..11 direct, 12 the indirect block, 13.. the words of the indirect block. */
  function Ref(fs: Fs, i: nat, s: nat): nat
    requires |fs.blocks| == fs.nblocks && i in fs.inodes && |fs.inodes[i].addrs| == NDIRECT + 1
    requires fs.inodes[i].addrs[NDIRECT] < fs.nblocks && s < SLOTS
  {
    var addrs := fs.inodes[i].addrs;
    if s <= NDIRECT then addrs[s]
    else if addrs[NDIRECT] == 0 then 0
    else Word(fs.blocks[addrs[NDIRECT]], s - NDIRECT - 1)
  }

  /** Slot of the bn-th block of a file. */
  function SlotOf(bn: nat): nat
    requires bn < MAXFILE
  {
    if bn < NDIRECT then bn else bn + 1
  }

  type Owner = map<nat, (nat, nat)>

  /** Each named block is a used data block named once; `owner` says by which inode and slot. */
  ghost predicate Owned(fs: Fs, owner: Owner) {
    && Basic(fs)
    && (forall b | 0 <= b < fs.first :: Used(fs.bm, b))
    && (forall b | b in owner ::
          && fs.first <= b < fs.nblocks && Used(fs.bm, b)
          && owner[b].0 in fs.inodes && owner[b].1 < SLOTS && Ref(fs, owner[b].0, owner[b].1) == b)
    && (forall i, s | i in fs.inodes && 0 <= s < SLOTS && Ref(fs, i, s) != 0 ::
          Ref(fs, i, s) in owner && owner[Ref(fs, i, s)] == (i, s))
  }

  lemma BasicNow(fs: Fs, owner: Owner)
    requires Owned(fs, owner)
    ensures Basic(fs)
  {
  }

  ghost predicate SameRefs(fs: Fs, fs': Fs) {
    && Basic(fs) && Basic(fs') && fs'.nblocks == fs.nblocks && fs'.first == fs.first
    && fs'.inodes.Keys == fs.inodes.Keys
    && forall i, s | i in fs.inodes && 0 <= s < SLOTS :: Ref(fs', i, s) == Ref(fs, i, s)
  }

  /** Slot s of inode i now names b; no other name changed. */
  ghost predicate OneRef(fs: Fs, fs': Fs, i: nat, s: nat, b: nat) {
    && Basic(fs) && Basic(fs') && fs'.nblocks == fs.nblocks && fs'.first == fs.first
    && fs'.inodes.Keys == fs.inodes.Keys
    && forall j, t | j in fs.inodes && 0 <= t < SLOTS ::
         Ref(fs', j, t) == if j == i && t == s then b else Ref(fs, j, t)
  }

  // ------------------------------------------------------------ balloc and bfree

  function Allocated(fs: Fs, b: nat): Fs
    requires b / 8 < |fs.bm| && b < |fs.blocks|
  {
    fs.(bm := Marked(fs.bm, b), blocks := fs.blocks[b := ZeroBlock()])
  }

  /** A free block is owned by nobody; taking and zeroing it disturbs no file. */
  lemma {:induction false} AllocatedOwned(fs: Fs, owner: Owner, b: nat)
    requires Owned(fs, owner) && b < fs.nblocks && !Used(fs.bm, b)
    ensures b !in owner && fs.first <= b
    ensures Owned(Allocated(fs, b), owner) && SameRefs(fs, Allocated(fs, b)) && Used(Allocated(fs, b).bm, b)
    ensures forall c | 0 <= c < fs.nblocks && c != b :: Allocated(fs, b).blocks[c] == fs.blocks[c]
  {
    var fs' := Allocated(fs, b);
    forall c | 0 <= c < fs.nblocks ensures Used(fs'.bm, c) <==> c == b || Used(fs.bm, c) {
      MarkedUsed(fs.bm, b, c);
    }
    forall i, s | i in fs.inodes && 0 <= s < SLOTS ensures Ref(fs', i, s) == Ref(fs, i, s) {
      IndirectOwned(fs, owner, i);
    }
  }

  /** An inode's indirect block, if any, is an owned block. */
  lemma IndirectOwned(fs: Fs, owner: Owner, i: nat)
    requires Owned(fs, owner) && i in fs.inodes
    ensures var a := fs.inodes[i].addrs[NDIRECT]; a != 0 ==> a in owner && owner[a] == (i, NDIRECT)
  {
    assert Ref(fs, i, NDIRECT) == fs.inodes[i].addrs[NDIRECT];
  }

  // ------------------------------------------------------------ naming a block

  function WithAddr(fs: Fs, i: nat, s: nat, b: nat): Fs
    requires i in fs.inodes && s < |fs.inodes[i].addrs|
  {
    fs.(inodes := fs.inodes[i := fs.inodes[i].(addrs := fs.inodes[i].addrs[s := b])])
  }

  /** Storing a fresh block in an empty addrs entry. The indirect block must be zero. */
  lemma {:induction false} WithAddrOwned(fs: Fs, owner: Owner, i: nat, s: nat, b: nat)
    requires Owned(fs, owner) && i in fs.inodes && s <= NDIRECT && Ref(fs, i, s) == 0
    requires fs.first <= b < fs.nblocks && Used(fs.bm, b) && b !in owner && fs.blocks[b] == ZeroBlock()
    ensures OneRef(fs, WithAddr(fs, i, s, b), i, s, b) && Owned(WithAddr(fs, i, s, b), owner[b := (i, s)])
  {
    var fs' := WithAddr(fs, i, s, b);
    forall j, t | j in fs.inodes && 0 <= t < SLOTS
      ensures Ref(fs', j, t) == if j == i && t == s then b else Ref(fs, j, t)
    {
      assert forall k | 0 <= k < NINDIRECT :: Word(ZeroBlock(), k) == 0;
    }
    OneRefOwned(fs, fs', owner, i, s, b);
  }

  /** What one new name needs for ownership to carry over. */
  lemma {:induction false} OneRefOwned(fs: Fs, fs': Fs, owner: Owner, i: nat, s: nat, b: nat)
    requires Owned(fs, owner) && OneRef(fs, fs', i, s, b) && fs'.bm == fs.bm
    requires i in fs.inodes && s < SLOTS && Ref(fs, i, s) == 0
    requires fs.first <= b < fs.nblocks && Used(fs.bm, b) && b !in owner
    ensures Owned(fs', owner[b := (i, s)])
  {
    var owner' := owner[b := (i, s)];
    forall c | c in owner' ensures Ref(fs', owner'[c].0, owner'[c].1) == c {
      if c != b { assert owner[c] != (i, s); }
    }
  }

  function WithEntry(fs: Fs, i: nat, j: nat, b: nat): Fs
    requires i in fs.inodes && |fs.inodes[i].addrs| == NDIRECT + 1 && fs.inodes[i].addrs[NDIRECT] < |fs.blocks|
    requires j < NINDIRECT && b < U32
  {
    var a := fs.inodes[i].addrs[NDIRECT];
    fs.(blocks := fs.blocks[a := WithWord(fs.blocks[a], j, b)])
  }

  /** Storing a fresh block in an empty word of the indirect block. */
  lemma {:induction false} WithEntryOwned(fs: Fs, owner: Owner, i: nat, j: nat, b: nat)
    requires Owned(fs, owner) && i in fs.inodes && j < NINDIRECT
    requires fs.inodes[i].addrs[NDIRECT] != 0 && Ref(fs, i, NDIRECT + 1 + j) == 0
    requires fs.first <= b < fs.nblocks && Used(fs.bm, b) && b !in owner
    ensures OneRef(fs, WithEntry(fs, i, j, b), i, NDIRECT + 1 + j, b)
    ensures Owned(WithEntry(fs, i, j, b), owner[b := (i, NDIRECT + 1 + j)])
  {
    var fs' := WithEntry(fs, i, j, b);
    forall k, t | k in fs.inodes && 0 <= t < SLOTS
      ensures Ref(fs', k, t) == if k == i && t == NDIRECT + 1 + j then b else Ref(fs, k, t)
    {
      WithEntryRef(fs, owner, i, j, b, k, t);
    }
    OneRefOwned(fs, fs', owner, i, NDIRECT + 1 + j, b);
  }

  lemma {:induction false} WithEntryRef(fs: Fs, owner: Owner, i: nat, j: nat, b: nat, k: nat, t: nat)
    requires Owned(fs, owner) && i in fs.inodes && j < NINDIRECT && fs.inodes[i].addrs[NDIRECT] != 0
    requires k in fs.inodes && t < SLOTS && b < U32
    ensures Ref(WithEntry(fs, i, j, b), k, t) == if k == i && t == NDIRECT + 1 + j then b else Ref(fs, k, t)
  {
    IndirectOwned(fs, owner, i);
    IndirectOwned(fs, owner, k);
    if k == i && t > NDIRECT {
      WordOfWithWord(fs.blocks[fs.inodes[i].addrs[NDIRECT]], j, b, t - NDIRECT - 1);
    }
  }

  // ------------------------------------------------------------ file data

  function WithData(fs: Fs, b: nat, c: Block): Fs
    requires b < |fs.blocks|
  {
    fs.(blocks := fs.blocks[b := c])
  }

  /** Writing a block that is not an indirect block changes no name. */
  lemma {:induction false} WithDataOwned(fs: Fs, owner: Owner, b: nat, c: Block)
    requires Owned(fs, owner) && b < fs.nblocks && (b in owner ==> owner[b].1 != NDIRECT)
    ensures SameRefs(fs, WithData(fs, b, c)) && Owned(WithData(fs, b, c), owner)
  {
    var fs' := WithData(fs, b, c);
    forall i, s | i in fs.inodes && 0 <= s < SLOTS ensures Ref(fs', i, s) == Ref(fs, i, s) {
      IndirectOwned(fs, owner, i);
    }
  }

  // ------------------------------------------------------------ file contents

  /** Block number of byte k of inode i, 0 if there is none. */
  function BlockOf(fs: Fs, i: nat, k: nat): nat
    requires |fs.blocks| == fs.nblocks && i in fs.inodes && |fs.inodes[i].addrs| == NDIRECT + 1
    requires fs.inodes[i].addrs[NDIRECT] < fs.nblocks && k < MAXFILE * BSIZE
  {
    Ref(fs, i, SlotOf(k / BSIZE))
  }

  /** Inode i has a block for byte k, and this is that byte. */
  ghost predicate HasByte(fs: Fs, i: nat, k: nat, x: Byte) {
    && Basic(fs) && i in fs.inodes && k < MAXFILE * BSIZE
    && 0 < BlockOf(fs, i, k) < fs.nblocks && fs.blocks[BlockOf(fs, i, k)][k % BSIZE] == x
  }

  /** The first n bytes of inode i are `bytes`; in particular there is no hole among them. */
  ghost predicate HasBytes(fs: Fs, i: nat, bytes: seq<Byte>) {
    |bytes| <= MAXFILE * BSIZE && forall k | 0 <= k < |bytes| :: HasByte(fs, i, k, bytes[k])
  }

  /** Every byte any inode had is still there. */
  ghost predicate Keeps(fs: Fs, fs': Fs) {
    forall i, k, x | HasByte(fs, i, k, x) :: HasByte(fs', i, k, x)
  }

  lemma KeepsBytes(fs: Fs, fs': Fs, i: nat, bytes: seq<Byte>)
    requires Keeps(fs, fs') && HasBytes(fs, i, bytes)
    ensures HasBytes(fs', i, bytes)
  {
  }

  /** A block that holds file data is owned through a data slot. */
  lemma DataOwned(fs: Fs, owner: Owner, i: nat, k: nat, x: Byte)
    requires Owned(fs, owner) && HasByte(fs, i, k, x)
    ensures var b := BlockOf(fs, i, k);
            b in owner && owner[b] == (i, SlotOf(k / BSIZE)) && SlotOf(k / BSIZE) != NDIRECT
  {
  }

  /** Taking a free block keeps every byte. */
  lemma {:induction false} AllocatedKeeps(fs: Fs, owner: Owner, b: nat)
    requires Owned(fs, owner) && b < fs.nblocks && !Used(fs.bm, b)
    ensures Keeps(fs, Allocated(fs, b))
  {
    AllocatedOwned(fs, owner, b);
    forall i, k, x | HasByte(fs, i, k, x) ensures HasByte(Allocated(fs, b), i, k, x) {
      DataOwned(fs, owner, i, k, x);
    }
  }

  /** Naming a block in an empty slot keeps every byte, if no data block changed. */
  lemma {:induction false} OneRefKeeps(fs: Fs, fs': Fs, owner: Owner, i: nat, s: nat, b: nat)
    requires Owned(fs, owner) && OneRef(fs, fs', i, s, b) && i in fs.inodes && s < SLOTS && Ref(fs, i, s) == 0
    requires forall c | c in owner && owner[c].1 != NDIRECT :: fs'.blocks[c] == fs.blocks[c]
    ensures Keeps(fs, fs')
  {
    forall j, k, x | HasByte(fs, j, k, x) ensures HasByte(fs', j, k, x) {
      DataOwned(fs, owner, j, k, x);
    }
  }

  // ------------------------------------------------------------ bmap

  function FreeSet(fs: Fs): set<nat>
    requires fs.nblocks <= 8 * |fs.bm|
  {
    set b: nat | b < fs.nblocks && !Used(fs.bm, b)
  }

  lemma AllocatedFree(fs: Fs, b: nat)
    requires Basic(fs) && b < fs.nblocks && !Used(fs.bm, b)
    ensures FreeSet(Allocated(fs, b)) == FreeSet(fs) - {b} && |FreeSet(Allocated(fs, b))| == |FreeSet(fs)| - 1
  {
    forall c: nat | c < fs.nblocks ensures Used(Allocated(fs, b).bm, c) <==> c == b || Used(fs.bm, c) {
      MarkedUsed(fs.bm, b, c);
    }
  }

  /** Blocks that bmap(i, bn) has to allocate. */
  function Missing(fs: Fs, i: nat, bn: nat): nat
    requires |fs.blocks| == fs.nblocks && i in fs.inodes && |fs.inodes[i].addrs| == NDIRECT + 1
    requires fs.inodes[i].addrs[NDIRECT] < fs.nblocks && bn < MAXFILE
  {
    (if Ref(fs, i, SlotOf(bn)) == 0 then 1 else 0)
    + (if bn >= NDIRECT && fs.inodes[i].addrs[NDIRECT] == 0 then 1 else 0)
  }

  /** Names are only added, and only in slot s or the indirect slot of inode i; sizes stay. */
  ghost predicate Grows(fs: Fs, fs': Fs, i: nat, s: nat) {
    && Basic(fs) && Basic(fs') && fs'.nblocks == fs.nblocks && fs'.first == fs.first
    && fs'.inodes.Keys == fs.inodes.Keys
    && (forall j | j in fs.inodes :: fs'.inodes[j].size == fs.inodes[j].size)
    && (forall j, t | j in fs.inodes && 0 <= t < SLOTS && (Ref(fs, j, t) != 0 || j != i || (t != s && t != NDIRECT)) ::
          Ref(fs', j, t) == Ref(fs, j, t))
  }

  /** fs' is fs after bmap took some blocks for block bn of inode i. */
  ghost predicate Mapped(fs: Fs, owner: Owner, fs': Fs, owner': Owner, i: nat, bn: nat) {
    && Owned(fs, owner) && Owned(fs', owner') && i in fs.inodes && bn < MAXFILE
    && Grows(fs, fs', i, SlotOf(bn)) && Keeps(fs, fs')
    && Ref(fs', i, SlotOf(bn)) != 0
    && |FreeSet(fs')| + Missing(fs, i, bn) == |FreeSet(fs)|
    && (Missing(fs, i, bn) == 0 ==> fs' == fs)
    && (bn < NDIRECT ==> Ref(fs', i, NDIRECT) == Ref(fs, i, NDIRECT))
  }

  /** balloc and a store into addrs, for a direct block or the indirect block. */
  lemma {:induction false} TakeAddr(fs: Fs, owner: Owner, i: nat, s: nat, b: nat)
    requires Owned(fs, owner) && i in fs.inodes && s <= NDIRECT && Ref(fs, i, s) == 0
    requires b < fs.nblocks && !Used(fs.bm, b)
    ensures var fs' := WithAddr(Allocated(fs, b), i, s, b);
            && Owned(fs', owner[b := (i, s)]) && Grows(fs, fs', i, s) && Keeps(fs, fs')
            && OneRef(fs, fs', i, s, b) && b != 0 && |FreeSet(fs')| == |FreeSet(fs)| - 1
  {
    hide HasByte;
    var fs1 := Allocated(fs, b);
    AllocatedOwned(fs, owner, b);
    AllocatedKeeps(fs, owner, b);
    AllocatedFree(fs, b);
    WithAddrOwned(fs1, owner, i, s, b);
    OneRefKeeps(fs1, WithAddr(fs1, i, s, b), owner, i, s, b);
  }

  /** A store into the indirect block touches no file data. */
  lemma {:induction false} EntryKeeps(fs: Fs, owner: Owner, i: nat, j: nat, b: nat)
    requires Owned(fs, owner) && i in fs.inodes && j < NINDIRECT
    requires fs.inodes[i].addrs[NDIRECT] != 0 && Ref(fs, i, NDIRECT + 1 + j) == 0
    requires fs.first <= b < fs.nblocks && Used(fs.bm, b) && b !in owner
    ensures Keeps(fs, WithEntry(fs, i, j, b))
  {
    hide HasByte;
    IndirectOwned(fs, owner, i);
    WithEntryOwned(fs, owner, i, j, b);
    OneRefKeeps(fs, WithEntry(fs, i, j, b), owner, i, NDIRECT + 1 + j, b);
  }

  /** balloc and a store into the indirect block. */
  lemma {:induction false} TakeEntry(fs: Fs, owner: Owner, i: nat, j: nat, b: nat)
    requires Owned(fs, owner) && i in fs.inodes && j < NINDIRECT
    requires fs.inodes[i].addrs[NDIRECT] != 0 && Ref(fs, i, NDIRECT + 1 + j) == 0
    requires b < fs.nblocks && !Used(fs.bm, b)
    ensures var fs' := WithEntry(Allocated(fs, b), i, j, b);
            && Owned(fs', owner[b := (i, NDIRECT + 1 + j)]) && Grows(fs, fs', i, NDIRECT + 1 + j) && Keeps(fs, fs')
            && OneRef(fs, fs', i, NDIRECT + 1 + j, b) && b != 0 && |FreeSet(fs')| == |FreeSet(fs)| - 1
  {
    hide HasByte;
    var fs1 := Allocated(fs, b);
    AllocatedOwned(fs, owner, b);
    AllocatedKeeps(fs, owner, b);
    AllocatedFree(fs, b);
    EntryKeeps(fs1, owner, i, j, b);
    WithEntryOwned(fs1, owner, i, j, b);
  }

  lemma GrowsTwice(fs: Fs, fs1: Fs, fs2: Fs, i: nat, s: nat)
    requires Grows(fs, fs1, i, NDIRECT) && Grows(fs1, fs2, i, s)
    ensures Grows(fs, fs2, i, s)
  {
    forall j, t | j in fs.inodes && 0 <= t < SLOTS && (Ref(fs, j, t) != 0 || j != i || (t != s && t != NDIRECT))
      ensures Ref(fs2, j, t) == Ref(fs, j, t)
    {
      assert Ref(fs1, j, t) == Ref(fs, j, t);
    }
  }

  /** fs' is fs after `ip->addrs[s] = balloc()`. */
  ghost predicate Named(fs: Fs, owner: Owner, fs': Fs, owner': Owner, i: nat, s: nat, b: nat) {
    && Owned(fs, owner) && Owned(fs', owner') && i in fs.inodes && s <= NDIRECT && b != 0
    && OneRef(fs, fs', i, s, b) && Grows(fs, fs', i, s) && Keeps(fs, fs')
    && Ref(fs, i, s) == 0 && |FreeSet(fs')| + 1 == |FreeSet(fs)|
  }

  lemma NamedMapped(fs: Fs, owner: Owner, fs': Fs, owner': Owner, i: nat, bn: nat, b: nat)
    requires Named(fs, owner, fs', owner', i, bn, b) && bn < NDIRECT
    ensures Mapped(fs, owner, fs', owner', i, bn) && Ref(fs', i, SlotOf(bn)) == b
  {
  }

  lemma {:induction false} NamedThenMapped(fs: Fs, owner: Owner, fs1: Fs, owner1: Owner, fs2: Fs, owner2: Owner,
                                           i: nat, bn: nat, a: nat)
    requires Named(fs, owner, fs1, owner1, i, NDIRECT, a) && NDIRECT <= bn < MAXFILE
    requires Mapped(fs1, owner1, fs2, owner2, i, bn)
    ensures Mapped(fs, owner, fs2, owner2, i, bn)
  {
    GrowsTwice(fs, fs1, fs2, i, SlotOf(bn));
    assert Ref(fs1, i, SlotOf(bn)) == Ref(fs, i, SlotOf(bn)) == 0;
    assert Ref(fs1, i, NDIRECT) == a;
  }

  // ------------------------------------------------------------ reading and writing bytes

  /** Every byte is kept, except bytes lo .. hi - 1 of inode i. */
  ghost predicate KeepsExcept(fs: Fs, fs': Fs, i: nat, lo: nat, hi: nat) {
    forall j: nat, k: nat, x: Byte | HasByte(fs, j, k, x) && !(j == i && lo <= k < hi) :: HasByte(fs', j, k, x)
  }

  ghost predicate SameSizes(fs: Fs, fs': Fs) {
    fs'.inodes.Keys == fs.inodes.Keys && forall j | j in fs.inodes :: fs'.inodes[j].size == fs.inodes[j].size
  }

  /** A byte of the file that lies in a block has no missing blocks. */
  lemma NothingMissing(fs: Fs, i: nat, k: nat, x: Byte)
    requires HasByte(fs, i, k, x)
    ensures Missing(fs, i, k / BSIZE) == 0
  {
  }

  /** memmove of `src` into the block that holds byte off of inode i. */
  lemma {:induction false} PatchedBytes(fs: Fs, owner: Owner, i: nat, off: nat, src: seq<Byte>)
    requires Owned(fs, owner) && i in fs.inodes && off < MAXFILE * BSIZE && off % BSIZE + |src| <= BSIZE
    requires BlockOf(fs, i, off) != 0
    ensures BlockOf(fs, i, off) < fs.nblocks
    ensures var b := BlockOf(fs, i, off);
            var fs' := WithData(fs, b, Patched(fs.blocks[b], off % BSIZE, src));
            && Owned(fs', owner) && SameRefs(fs, fs')
            && (forall k | 0 <= k < |src| :: HasByte(fs', i, off + k, src[k]))
            && KeepsExcept(fs, fs', i, off, off + |src|)
  {
    var b, bn, at := BlockOf(fs, i, off), off / BSIZE, off % BSIZE;
    assert owner[b] == (i, SlotOf(bn));
    var c := Patched(fs.blocks[b], at, src);
    var fs' := WithData(fs, b, c);
    WithDataOwned(fs, owner, b, c);
    forall k | 0 <= k < |src| ensures HasByte(fs', i, off + k, src[k]) {
      Divided(bn, at + k);
      assert off + k == bn * BSIZE + (at + k);
    }
    forall j: nat, k: nat, x: Byte | HasByte(fs, j, k, x) && !(j == i && off <= k < off + |src|)
      ensures HasByte(fs', j, k, x)
    {
      DataOwned(fs, owner, j, k, x);
      if BlockOf(fs, j, k) == b {
        assert j == i && k / BSIZE == bn;
      }
    }
  }

  lemma Divided(bn: nat, r: nat)
    requires r < BSIZE
    ensures (bn * BSIZE + r) / BSIZE == bn && (bn * BSIZE + r) % BSIZE == r
  {
  }

  /** A piece of a file inside one block is the same piece of its contents. */
  lemma {:induction false} PieceOf(fs: Fs, i: nat, content: seq<Byte>, o: nat, m: nat)
    requires HasBytes(fs, i, content) && o < |content| && o + m <= |content| && o % BSIZE + m <= BSIZE
    ensures HasByte(fs, i, o, content[o])
    ensures fs.blocks[BlockOf(fs, i, o)][o % BSIZE..o % BSIZE + m] == content[o..o + m]
  {
    assert HasByte(fs, i, o, content[o]);
    var piece := fs.blocks[BlockOf(fs, i, o)][o % BSIZE..o % BSIZE + m];
    forall k | 0 <= k < m ensures piece[k] == content[o + k] {
      assert HasByte(fs, i, o + k, content[o + k]);
      Divided(o / BSIZE, o % BSIZE + k);
    }
  }

  /** Written pieces add up. */
  lemma KeepsJoin(fs: Fs, fs1: Fs, fs2: Fs, i: nat, lo: nat, mid: nat, hi: nat)
    requires KeepsExcept(fs, fs1, i, lo, mid) && KeepsExcept(fs1, fs2, i, mid, hi) && lo <= mid <= hi
    ensures KeepsExcept(fs, fs2, i, lo, hi)
  {
  }

  /** Overwrite or extend: `content` with src at offset off. */
  function Overwritten(content: seq<Byte>, off: nat, src: seq<Byte>): seq<Byte>
    requires off <= |content|
  {
    content[..off] + src + if off + |src| < |content| then content[off + |src|..] else []
  }

  lemma OverwrittenBytes(fs: Fs, fs': Fs, i: nat, content: seq<Byte>, off: nat, src: seq<Byte>)
    requires HasBytes(fs, i, content) && off <= |content| && off + |src| <= MAXFILE * BSIZE
    requires KeepsExcept(fs, fs', i, off, off + |src|)
    requires forall k | 0 <= k < |src| :: HasByte(fs', i, off + k, src[k])
    ensures HasBytes(fs', i, Overwritten(content, off, src))
  {
    var w := Overwritten(content, off, src);
    forall k | 0 <= k < |w| ensures HasByte(fs', i, k, w[k]) {
      if off <= k < off + |src| {
        assert HasByte(fs', i, off + (k - off), src[k - off]);
      } else {
        assert w[k] == content[k];
      }
    }
  }

  /** The blocks inode i has. */
  ghost function NamesOf(fs: Fs, i: nat): Names
    requires Basic(fs) && i in fs.inodes
  {
    Names(seq(MAXFILE, bn requires 0 <= bn < MAXFILE => Ref(fs, i, SlotOf(bn)) != 0), Ref(fs, i, NDIRECT) != 0)
  }

  /** The blocks that bytes off .. off + n - 1 of inode i lacked were allocated, and no others. */
  ghost predicate Spent(fs: Fs, fs': Fs, i: nat, off: nat, n: nat) {
    && Basic(fs) && Basic(fs') && i in fs.inodes && i in fs'.inodes && off + n <= MAXFILE * BSIZE
    && Filled(NamesOf(fs, i), NamesOf(fs', i), off / BSIZE, BlocksEnd(off, n))
    && |FreeSet(fs')| + Lack(NamesOf(fs, i), off, n) == |FreeSet(fs)|
  }

  lemma {:induction false} SpentJoin(fs: Fs, fs1: Fs, fs2: Fs, i: nat, off: nat, a: nat, b: nat)
    requires Spent(fs, fs1, i, off, a) && Spent(fs1, fs2, i, off + a, b)
    ensures Spent(fs, fs2, i, off, a + b)
  {
    hide Lack, Filled, BlocksEnd, FreeSet;
    FilledJoin(NamesOf(fs, i), NamesOf(fs1, i), NamesOf(fs2, i), off, a, b);
    LackSplit(NamesOf(fs, i), NamesOf(fs1, i), off, a, b);
  }

  /** What is still needed after the first a bytes. */
  lemma {:induction false} SpentRest(fs: Fs, fs1: Fs, i: nat, off: nat, a: nat, n: nat)
    requires Spent(fs, fs1, i, off, a) && a <= n && off + n <= MAXFILE * BSIZE
    ensures |FreeSet(fs)| - Lack(NamesOf(fs, i), off, n) == |FreeSet(fs1)| - Lack(NamesOf(fs1, i), off + a, n - a)
  {
    LackSplit(NamesOf(fs, i), NamesOf(fs1, i), off, a, n - a);
    hide Lack;
  }

  lemma {:induction false} SpentNone(fs: Fs, i: nat, off: nat)
    requires Basic(fs) && i in fs.inodes && off <= MAXFILE * BSIZE
    ensures Spent(fs, fs, i, off, 0)
  {
  }

  /** A file that is changed elsewhere keeps its names. */
  lemma {:induction false} SameNames(fs: Fs, fs': Fs, i: nat)
    requires SameRefs(fs, fs') && i in fs.inodes
    ensures NamesOf(fs', i) == NamesOf(fs, i)
  {
  }

  /** What one block lacks is what bmap allocates for it. */
  lemma {:induction false} LackMissing(fs: Fs, i: nat, off: nat, m: nat)
    requires Basic(fs) && i in fs.inodes && off + m <= MAXFILE * BSIZE && 1 <= m && off % BSIZE + m <= BSIZE
    ensures off / BSIZE < MAXFILE && Lack(NamesOf(fs, i), off, m) == Missing(fs, i, off / BSIZE)
  {
    LackOne(NamesOf(fs, i), off, m);
  }

  lemma {:induction false} MappedSpent(fs: Fs, owner: Owner, fs1: Fs, owner1: Owner, fs2: Fs, i: nat, off: nat, m: nat)
    requires off + m <= MAXFILE * BSIZE && 1 <= m && off % BSIZE + m <= BSIZE
    requires off / BSIZE < MAXFILE && Mapped(fs, owner, fs1, owner1, i, off / BSIZE)
    requires SameRefs(fs1, fs2) && FreeSet(fs2) == FreeSet(fs1)
    ensures Spent(fs, fs2, i, off, m)
  {
    hide Lack, FreeSet, Keeps, Owned;
    var bn := off / BSIZE;
    LackMissing(fs, i, off, m);
    LackOne(NamesOf(fs, i), off, m);
    SameNames(fs1, fs2, i);
    forall k | 0 <= k < MAXFILE
      ensures NamesOf(fs1, i).has[k] <==> NamesOf(fs, i).has[k] || k == bn
    {
      if k != bn { assert Ref(fs1, i, SlotOf(k)) == Ref(fs, i, SlotOf(k)); }
    }
    assert NamesOf(fs1, i).indirect <==> NamesOf(fs, i).indirect || bn >= NDIRECT;
  }

  /** Bytes the file has need no block. */
  lemma {:induction false} LackInside(fs: Fs, i: nat, content: seq<Byte>, off: nat, n: nat)
    requires Basic(fs) && i in fs.inodes && HasBytes(fs, i, content) && off + n <= |content|
    ensures Lack(NamesOf(fs, i), off, n) == 0
  {
    if n > 0 {
      var ns := NamesOf(fs, i);
      BlocksEndFits(off, n);
      forall k | off / BSIZE <= k < BlocksEnd(off, n) ensures ns.has[k] && (k >= NDIRECT ==> ns.indirect) {
        var x := if k == off / BSIZE then off else k * BSIZE;
        assert x / BSIZE == k && x < |content|;
        assert HasByte(fs, i, x, content[x]);
      }
      AbsentNone(ns.has, off / BSIZE, BlocksEnd(off, n));
      assert BlocksEnd(off, n) > NDIRECT ==> ns.indirect by { assert ns.has[BlocksEnd(off, n) - 1]; }
    }
  }

  /** fs' is fs after writing src at offset off of inode i, inside one block. */
  ghost predicate ChunkWritten(fs: Fs, fs': Fs, i: nat, off: nat, src: seq<Byte>) {
    && Basic(fs) && Basic(fs') && SameSizes(fs, fs') && i in fs.inodes && off < MAXFILE * BSIZE
    && KeepsExcept(fs, fs', i, off, off + |src|)
    && (forall k | 0 <= k < |src| :: HasByte(fs', i, off + k, src[k]))
    && Spent(fs, fs', i, off, |src|)
  }

  lemma {:induction false} MappedPatched(fs: Fs, owner: Owner, fs1: Fs, owner1: Owner, i: nat, off: nat, src: seq<Byte>)
    requires off + |src| <= MAXFILE * BSIZE && off % BSIZE + |src| <= BSIZE && 1 <= |src|
    requires off / BSIZE < MAXFILE && Mapped(fs, owner, fs1, owner1, i, off / BSIZE)
    ensures Ref(fs1, i, SlotOf(off / BSIZE)) < fs1.nblocks
    ensures var b := Ref(fs1, i, SlotOf(off / BSIZE));
            var fs2 := WithData(fs1, b, Patched(fs1.blocks[b], off % BSIZE, src));
            Owned(fs2, owner1) && ChunkWritten(fs, fs2, i, off, src)
  {
    PatchedBytes(fs1, owner1, i, off, src);
    var b := BlockOf(fs1, i, off);
    var fs2 := WithData(fs1, b, Patched(fs1.blocks[b], off % BSIZE, src));
    SameFree(fs1, fs2);
    MappedSpent(fs, owner, fs1, owner1, fs2, i, off, |src|);
    assert SameSizes(fs, fs2);
    assert KeepsExcept(fs, fs1, i, off, off);
    hide Owned, HasByte, Spent, FreeSet;
    KeepsJoin(fs, fs1, fs2, i, off, off, off + |src|);
  }

  lemma SameFree(fs: Fs, fs': Fs)
    requires Basic(fs) && fs'.nblocks == fs.nblocks && fs'.bm == fs.bm
    ensures FreeSet(fs') == FreeSet(fs)
  {
  }

  lemma SliceJoin(s: seq<Byte>, a: nat, b: nat, c: nat)
    requires a <= b <= c <= |s|
    ensures s[a..b] + s[b..c] == s[a..c]
  {
  }

  /** fs1 is fs0 with the bytes `done` written at offset off of inode i. */
  ghost predicate Progress(fs0: Fs, fs1: Fs, i: nat, off: nat, done: seq<Byte>) {
    && Basic(fs0) && Basic(fs1) && SameSizes(fs0, fs1) && i in fs0.inodes
    && KeepsExcept(fs0, fs1, i, off, off + |done|)
    && (forall k | 0 <= k < |done| :: HasByte(fs1, i, off + k, done[k]))
    && Spent(fs0, fs1, i, off, |done|)
  }

  lemma {:induction false} SizeKept(fs0: Fs, fs1: Fs, i: nat, off: nat, src: seq<Byte>)
    requires Progress(fs0, fs1, i, off, src)
    ensures i in fs1.inodes && i in fs0.inodes && fs1.inodes[i].size == fs0.inodes[i].size
  {
    hide Lack, FreeSet, HasByte;
  }

  lemma {:induction false} ProgressMore(fs0: Fs, fs1: Fs, fs2: Fs, i: nat, off: nat, src: seq<Byte>, tot: nat, m: nat)
    requires tot + m <= |src| && Progress(fs0, fs1, i, off, src[..tot])
    requires ChunkWritten(fs1, fs2, i, off + tot, src[tot..tot + m])
    ensures Progress(fs0, fs2, i, off, src[..tot + m])
  {
    hide HasByte, Spent;
    var piece := src[tot..tot + m];
    KeepsJoin(fs0, fs1, fs2, i, off, off + tot, off + tot + m);
    SpentJoin(fs0, fs1, fs2, i, off, tot, m);
    forall k | 0 <= k < tot + m ensures HasByte(fs2, i, off + k, src[k]) {
      if k < tot {
        assert HasByte(fs1, i, off + k, src[..tot][k]);
      } else {
        assert HasByte(fs2, i, off + tot + (k - tot), piece[k - tot]);
      }
    }
  }

  /** `min(n - tot, BSIZE - off % BSIZE)`: how much of the rest goes into the current block. */
  function ChunkLen(o: nat, rest: nat): (m: nat)
    requires rest >= 1
    ensures 1 <= m <= rest && o % BSIZE + m <= BSIZE && (m < rest ==> (o + m) % BSIZE == 0)
  {
    if rest < BSIZE - o % BSIZE then rest else BSIZE - o % BSIZE
  }

  function Resized(fs: Fs, i: nat, size: nat): Fs
    requires i in fs.inodes
  {
    fs.(inodes := fs.inodes[i := fs.inodes[i].(size := size)])
  }

  lemma {:induction false} ResizedOwned(fs: Fs, owner: Owner, i: nat, size: nat)
    requires Owned(fs, owner) && i in fs.inodes
    ensures Owned(Resized(fs, i, size), owner) && Keeps(fs, Resized(fs, i, size))
  {
    var fs' := Resized(fs, i, size);
    assert forall j, s | j in fs.inodes && 0 <= s < SLOTS :: Ref(fs', j, s) == Ref(fs, j, s);
    forall j, k, x | HasByte(fs, j, k, x) ensures HasByte(fs', j, k, x) {
      assert BlockOf(fs', j, k) == BlockOf(fs, j, k);
    }
  }

  /** What writei leaves: the contents overwritten or extended, everything else kept. */
  ghost predicate FileWritten(fs: Fs, fs': Fs, i: nat, content: seq<Byte>, off: nat, src: seq<Byte>)
    requires off <= |content|
  {
    && HasBytes(fs', i, Overwritten(content, off, src))
    && fs'.inodes.Keys == fs.inodes.Keys && i in fs.inodes && fs'.inodes[i].size == |Overwritten(content, off, src)|
    && (forall j | j in fs.inodes && j != i :: fs'.inodes[j].size == fs.inodes[j].size)
    && KeepsExcept(fs, fs', i, off, off + |src|) && Spent(fs, fs', i, off, |src|)
  }

  lemma {:induction false} WrittenFile(fs: Fs, fs1: Fs, owner1: Owner, i: nat, content: seq<Byte>, off: nat,
                                       src: seq<Byte>)
    requires Progress(fs, fs1, i, off, src) && Owned(fs1, owner1)
    requires HasBytes(fs, i, content) && off <= |content| == fs.inodes[i].size && off + |src| <= MAXFILE * BSIZE
    ensures var fs2 := if off + |src| > |content| then Resized(fs1, i, off + |src|) else fs1;
            Owned(fs2, owner1) && FileWritten(fs, fs2, i, content, off, src)
  {
    hide Owned, HasByte, Spent;
    OverwrittenBytes(fs, fs1, i, content, off, src);
    if off + |src| > |content| {
      var fs2 := Resized(fs1, i, off + |src|);
      ResizedOwned(fs1, owner1, i, off + |src|);
      ResizedSpent(fs, fs1, owner1, i, off, |src|, off + |src|);
      KeepsBytes(fs1, fs2, i, Overwritten(content, off, src));
      assert KeepsExcept(fs, fs2, i, off, off + |src|);
    }
  }

  lemma {:induction false} ResizedSpent(fs: Fs, fs1: Fs, owner1: Owner, i: nat, off: nat, n: nat, size: nat)
    requires Spent(fs, fs1, i, off, n) && Owned(fs1, owner1)
    ensures Spent(fs, Resized(fs1, i, size), i, off, n)
  {
    var fs2 := Resized(fs1, i, size);
    SameFree(fs1, fs2);
    assert forall j, s | j in fs1.inodes && 0 <= s < SLOTS :: Ref(fs2, j, s) == Ref(fs1, j, s);
    SameNames(fs1, fs2, i);
  }

  /** The writei loop after tot bytes: what it wrote and what it used up. */
  ghost predicate Writing(fs0: Fs, fs1: Fs, i: nat, off: nat, src: seq<Byte>, tot: nat) {
    && tot <= |src| && Progress(fs0, fs1, i, off, src[..tot])
    && (tot == 0 || tot == |src| || (off + tot) % BSIZE == 0)
  }

  lemma {:induction false} WritingMore(fs0: Fs, fs1: Fs, fs2: Fs, i: nat, off: nat, src: seq<Byte>, tot: nat)
    requires Writing(fs0, fs1, i, off, src, tot) && tot < |src|
    requires var m := ChunkLen(off + tot, |src| - tot);
             ChunkWritten(fs1, fs2, i, off + tot, src[tot..tot + m])
    ensures Writing(fs0, fs2, i, off, src, tot + ChunkLen(off + tot, |src| - tot))
  {
    hide Progress, ChunkWritten;
    ProgressMore(fs0, fs1, fs2, i, off, src, tot, ChunkLen(off + tot, |src| - tot));
  }

  /** A piece for which there are no blocks means that there are not enough for the whole write. */
  lemma {:induction false} WritingStuck(fs0: Fs, fs1: Fs, i: nat, off: nat, src: seq<Byte>, tot: nat)
    requires Writing(fs0, fs1, i, off, src, tot) && tot < |src| && off + |src| <= MAXFILE * BSIZE && i in fs1.inodes
    requires (off + tot) / BSIZE < MAXFILE && |FreeSet(fs1)| < Missing(fs1, i, (off + tot) / BSIZE)
    ensures |FreeSet(fs0)| < Lack(NamesOf(fs0, i), off, |src|)
  {
    var m := ChunkLen(off + tot, |src| - tot);
    SpentRest(fs0, fs1, i, off, tot, |src|);
    LackMissing(fs1, i, off + tot, m);
    LackGrows(NamesOf(fs1, i), off + tot, m, |src| - tot);
    hide Lack, FreeSet;
  }

  lemma {:induction false} StartWriting(fs: Fs, owner: Owner, i: nat, off: nat, src: seq<Byte>)
    requires Owned(fs, owner) && i in fs.inodes && off <= MAXFILE * BSIZE
    ensures Writing(fs, fs, i, off, src, 0)
  {
    SpentNone(fs, i, off);
    hide Spent, HasByte;
  }

  // ------------------------------------------------------------ itrunc

  /** The order in which itrunc frees slots: direct blocks, indirect entries, the indirect block. */
  function Rank(s: nat): nat {
    if s < NDIRECT then s else if s == NDIRECT then SLOTS - 1 else s - 1
  }

  /** The bitmap after the first k slots of inode i are freed: exactly their bits are clear. */
  ghost predicate Freeing(fs: Fs, owner: Owner, bm: Bitmap, i: nat, k: nat) {
    && Owned(fs, owner) && |bm| == |fs.bm| && i in fs.inodes
    && forall b | 0 <= b < fs.nblocks ::
         Used(bm, b) <==> Used(fs.bm, b) && !(b in owner && owner[b].0 == i && Rank(owner[b].1) < k)
  }

  /** Freeing slot s, whose turn it is: the block is in use, so bfree does not panic. */
  lemma {:induction false} FreeingSlot(fs: Fs, owner: Owner, bm: Bitmap, i: nat, s: nat)
    requires Freeing(fs, owner, bm, i, Rank(s)) && s < SLOTS
    ensures var b := Ref(fs, i, s);
            if b == 0 then Freeing(fs, owner, bm, i, Rank(s) + 1)
            else b < fs.nblocks && b / 8 < |bm| && Used(bm, b) && Freeing(fs, owner, Cleared(bm, b), i, Rank(s) + 1)
  {
    var b := Ref(fs, i, s);
    if b != 0 {
      assert owner[b] == (i, s);
      forall c | 0 <= c < fs.nblocks ensures Used(Cleared(bm, b), c) <==> c != b && Used(bm, c) {
        MarkedUsed(bm, b, c);
      }
    }
    forall c | c in owner && owner[c].0 == i && Rank(owner[c].1) == Rank(s) ensures c == b {
      assert owner[c].1 == s;
    }
  }

  /** Without an indirect block there is nothing left after the direct blocks. */
  lemma {:induction false} NoIndirect(fs: Fs, owner: Owner, bm: Bitmap, i: nat)
    requires Freeing(fs, owner, bm, i, NDIRECT) && fs.inodes[i].addrs[NDIRECT] == 0
    ensures Freeing(fs, owner, bm, i, SLOTS)
  {
    forall c | c in owner && owner[c].0 == i ensures Rank(owner[c].1) < NDIRECT {
      assert Ref(fs, i, owner[c].1) == c;
    }
  }

  function ZeroAddrs(): (z: seq<nat>)
    ensures |z| == NDIRECT + 1 && forall s | 0 <= s <= NDIRECT :: z[s] == 0
  {
    seq(NDIRECT + 1, _ => 0)
  }

  /** An inode that names nothing changes nobody's blocks. */
  lemma {:induction false} NewInode(fs: Fs, owner: Owner, i: nat)
    requires Owned(fs, owner) && i !in fs.inodes
    ensures var fs' := fs.(inodes := fs.inodes[i := Inode(0, ZeroAddrs())]);
            Owned(fs', owner) && Keeps(fs, fs') && forall s | 0 <= s < SLOTS :: Ref(fs', i, s) == 0
  {
    var fs' := fs.(inodes := fs.inodes[i := Inode(0, ZeroAddrs())]);
    assert forall s | 0 <= s < SLOTS :: Ref(fs', i, s) == 0;
    assert forall j, s | j in fs.inodes && 0 <= s < SLOTS :: Ref(fs', j, s) == Ref(fs, j, s);
    forall j, k, x | HasByte(fs, j, k, x) ensures HasByte(fs', j, k, x) {
      assert BlockOf(fs', j, k) == BlockOf(fs, j, k);
    }
  }

  function Truncated(fs: Fs, bm: Bitmap, i: nat): Fs {
    fs.(bm := bm, inodes := fs.inodes[i := Inode(0, ZeroAddrs())])
  }

  function Disowned(owner: Owner, i: nat): Owner {
    map b | b in owner && owner[b].0 != i :: owner[b]
  }

  /** itrunc leaves the other inodes' names, bits and bytes as they were. */
  lemma {:induction false} TruncatedOwned(fs: Fs, owner: Owner, bm: Bitmap, i: nat)
    requires Freeing(fs, owner, bm, i, SLOTS)
    ensures Owned(Truncated(fs, bm, i), Disowned(owner, i)) && |bm| == |fs.bm| && fs.nblocks <= 8 * |bm|
    ensures forall b | 0 <= b < fs.nblocks :: Used(bm, b) <==> Used(fs.bm, b) && !(b in owner && owner[b].0 == i)
    ensures forall j, k, x | HasByte(fs, j, k, x) && j != i :: HasByte(Truncated(fs, bm, i), j, k, x)
  {
    var fs', owner' := Truncated(fs, bm, i), Disowned(owner, i);
    TruncatedBytes(fs, bm, i);
    hide HasByte;
    forall j, s | j in fs.inodes && 0 <= s < SLOTS
      ensures Ref(fs', j, s) == if j == i then 0 else Ref(fs, j, s)
    {
    }
    forall b | 0 <= b < fs.first ensures Used(bm, b) {
      assert b !in owner;
    }
    assert forall b | b in owner :: Rank(owner[b].1) < SLOTS;
  }

  lemma {:induction false} TruncatedBytes(fs: Fs, bm: Bitmap, i: nat)
    requires Basic(fs) && i in fs.inodes && |bm| == |fs.bm|
    ensures forall j, k, x | HasByte(fs, j, k, x) && j != i :: HasByte(Truncated(fs, bm, i), j, k, x)
  {
    var fs' := Truncated(fs, bm, i);
    forall j, k, x | HasByte(fs, j, k, x) && j != i ensures HasByte(fs', j, k, x) {
      assert BlockOf(fs', j, k) == BlockOf(fs, j, k);
    }
  }

  // ------------------------------------------------------------ filewrite

  /** max = ((LOGSIZE-1-1-2) / 2) * 512 */
  const CHUNKMAX: nat := ((LogFormat.LOGSIZE - 1 - 1 - 2) / 2) * 512

  function Least(a: nat, b: nat): nat { if a > b then b else a }

  lemma StartFile(fs: Fs, i: nat, content: seq<Byte>, off: nat, src: seq<Byte>)
    requires HasBytes(fs, i, content) && off <= |content| && i in fs.inodes && fs.inodes[i].size == |content|
             && Basic(fs)
    ensures FileWritten(fs, fs, i, content, off, src[..0]) && Overwritten(content, off, src[..0]) == content
  {
    SpentNone(fs, i, off);
    assert src[..0] == [];
    assert Overwritten(content, off, []) == content;
  }

  /** Writing one piece after the other is writing both at once. */
  lemma OverwrittenTwice(content: seq<Byte>, off: nat, src: seq<Byte>, k: nat, n: nat)
    requires off <= |content| && k + n <= |src|
    ensures off + k <= |Overwritten(content, off, src[..k])|
    ensures Overwritten(Overwritten(content, off, src[..k]), off + k, src[k..k + n])
            == Overwritten(content, off, src[..k + n])
  {
    assert src[..k + n] == src[..k] + src[k..k + n];
  }

  lemma {:induction false} FileMore(fs: Fs, fs1: Fs, fs2: Fs, i: nat, content: seq<Byte>, off: nat, src: seq<Byte>,
                                    k: nat, n: nat)
    requires off <= |content| && k + n <= |src|
    requires FileWritten(fs, fs1, i, content, off, src[..k])
    requires off + k <= |Overwritten(content, off, src[..k])|
    requires FileWritten(fs1, fs2, i, Overwritten(content, off, src[..k]), off + k, src[k..k + n])
    ensures FileWritten(fs, fs2, i, content, off, src[..k + n])
    ensures Overwritten(Overwritten(content, off, src[..k]), off + k, src[k..k + n])
            == Overwritten(content, off, src[..k + n])
  {
    hide HasByte, Spent;
    OverwrittenTwice(content, off, src, k, n);
    KeepsJoin(fs, fs1, fs2, i, off, off + k, off + k + n);
    SpentJoin(fs, fs1, fs2, i, off, k, n);
  }
}
