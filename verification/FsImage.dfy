/** What the blocks and inodes of a file system mean: which block belongs to which inode, which
    blocks the bitmap says are in use, and which bytes a file holds. */
module FsImage {
  import opened Bytes

  const NDIRECT := 12
  const MAXFILE := NDIRECT + NINDIRECT
  const IPB := 16

  const FSMAGIC := 0x10203040

  /** The superblock, and nmeta, the first block that is not metadata. */
  datatype Super = Super(size: nat, ninodes: nat, nlog: nat, logstart: nat, inodestart: nat, bmapstart: nat,
                         nmeta: nat) {
    /** boot, super, log, inode and bitmap blocks come before the data blocks, in that order */
    predicate Ok() {
      && 0 < nmeta <= size < 0x1_0000_0000 && ninodes < 0x1_0000_0000
      && 1 < logstart && logstart + nlog <= inodestart && inodestart + ninodes / IPB < bmapstart
      && bmapstart + size / BPB < nmeta
    }

    function IBlock(inum: nat): nat { inum / IPB + inodestart }

    function BBlock(b: nat): nat { b / BPB + bmapstart }
  }

  /** struct superblock, as mkfs lays it over a block of zeros; the data blocks are what is not metadata. */
  function SuperBlock(sb: Super): ByteBlock {
    PutWords(Zero(), 0, [FSMAGIC, sb.size, sb.size - sb.nmeta, sb.ninodes, sb.nlog, sb.logstart, sb.inodestart,
                         sb.bmapstart])
  }

  /** What readsb finds in a block. */
  function ReadSuper(b: ByteBlock): Super
    requires IsBlock(b)
  {
    var w := i requires 0 <= i < NINDIRECT => Word(b, i);
    Super(w(1), w(3), w(4), w(5), w(6), w(7), if w(2) <= w(1) then w(1) - w(2) else 0)
  }

  /** The superblock mkfs writes is the one the kernel reads. */
  lemma {:induction false} SuperRead(sb: Super)
    requires sb.Ok()
    ensures IsBlock(SuperBlock(sb)) && Word(SuperBlock(sb), 0) == FSMAGIC && ReadSuper(SuperBlock(sb)) == sb
  {
    hide Word, PutWords;
    PutWordsWords(Zero(), 0, [FSMAGIC, sb.size, sb.size - sb.nmeta, sb.ninodes, sb.nlog, sb.logstart, sb.inodestart,
                              sb.bmapstart]);
  }

  /** addrs[0..12) are the direct blocks, addrs[12] is the indirect block. */
  datatype Inode = Inode(addrs: seq<int>, size: int)

  // ----- inodes on disk

  /** struct dinode: two words of type, device numbers and link count, then the size and addrs. */
  const DINODE := 16

  function InodeAt(b: ByteBlock, slot: int): Inode
    requires |b| == BSIZE && 0 <= slot < IPB
  {
    Inode(seq(NDIRECT + 1, k requires 0 <= k <= NDIRECT => Word(b, slot * DINODE + 3 + k)), Word(b, slot * DINODE + 2))
  }

  /** The block with an inode's size and addrs in its place; the first two words stay. */
  function PutInode(b: ByteBlock, slot: int, n: Inode): (r: ByteBlock)
    requires |b| == BSIZE && 0 <= slot < IPB && |n.addrs| == NDIRECT + 1
    ensures |r| == BSIZE
  {
    PutWords(b, slot * DINODE + 2, [n.size] + n.addrs)
  }

  lemma {:induction false} InodePlaced(b: ByteBlock, slot: int, n: Inode)
    requires IsBlock(b) && 0 <= slot < IPB && |n.addrs| == NDIRECT + 1 && AreWords([n.size] + n.addrs)
    ensures IsBlock(PutInode(b, slot, n)) && InodeAt(PutInode(b, slot, n), slot) == n
    ensures forall s :: 0 <= s < IPB && s != slot ==> InodeAt(PutInode(b, slot, n), s) == InodeAt(b, s)
  {
    hide Word, PutWords;
    var ws, r := [n.size] + n.addrs, PutInode(b, slot, n);
    PutWordsWords(b, slot * DINODE + 2, ws);
    assert InodeAt(r, slot).addrs == n.addrs;
    forall s | 0 <= s < IPB && s != slot ensures InodeAt(r, s) == InodeAt(b, s) {
      assert InodeAt(r, s).addrs == InodeAt(b, s).addrs;
    }
  }

  lemma {:induction false} InodeRewritten(b: ByteBlock, slot: int)
    requires IsBlock(b) && 0 <= slot < IPB
    ensures PutInode(b, slot, InodeAt(b, slot)) == b
  {
    hide Word, PutWords;
    PutSame(b, slot * DINODE + 2, [InodeAt(b, slot).size] + InodeAt(b, slot).addrs);
  }

  /** The inode that ilock reads from the blocks. */
  function DiskInode(sb: Super, blocks: seq<ByteBlock>, inum: int): Inode
    requires Readable(sb, blocks) && 0 <= inum < sb.ninodes
  {
    InodeAt(blocks[sb.IBlock(inum)], inum % IPB)
  }

  predicate Readable(sb: Super, blocks: seq<ByteBlock>) {
    sb.Ok() && |blocks| == sb.size && forall b :: 0 <= b < |blocks| ==> IsBlock(blocks[b])
  }

  /** All of them, as they are when the file system is mounted. */
  function Dinodes(sb: Super, blocks: seq<ByteBlock>): seq<Inode>
    requires Readable(sb, blocks)
  {
    seq(sb.ninodes, i requires 0 <= i < sb.ninodes => DiskInode(sb, blocks, i))
  }

  /** Inode inum reads as n, the others as before. */
  ghost predicate InodePut(sb: Super, f: seq<ByteBlock>, g: seq<ByteBlock>, inum: int, n: Inode) {
    && Readable(sb, f) && Readable(sb, g) && 0 <= inum < sb.ninodes && DiskInode(sb, g, inum) == n
    && forall i :: 0 <= i < sb.ninodes && i != inum ==> DiskInode(sb, g, i) == DiskInode(sb, f, i)
  }

  lemma {:induction false} InodeStored(sb: Super, f: seq<ByteBlock>, inum: int, n: Inode, g: seq<ByteBlock>)
    requires Readable(sb, f) && 0 <= inum < sb.ninodes && |n.addrs| == NDIRECT + 1 && AreWords([n.size] + n.addrs)
    requires g == f[sb.IBlock(inum) := PutInode(f[sb.IBlock(inum)], inum % IPB, n)]
    ensures InodePut(sb, f, g, inum, n) && sb.inodestart <= sb.IBlock(inum) < sb.bmapstart
  {
    hide InodeAt, PutInode;
    InodePlaced(f[sb.IBlock(inum)], inum % IPB, n);
    forall i | 0 <= i < sb.ninodes && i != inum ensures DiskInode(sb, g, i) == DiskInode(sb, f, i) {
      if sb.IBlock(i) == sb.IBlock(inum) { assert i % IPB != inum % IPB; }
    }
  }

  /** Byte k of the disk. */
  ghost function DiskByte(blocks: seq<ByteBlock>, k: int): int
    requires 0 <= k < 1024 * |blocks| && |blocks[k / 1024]| == BSIZE
  {
    blocks[k / 1024][k % 1024]
  }

  /** The uint at byte k of the disk. */
  ghost function DiskUint(sb: Super, blocks: seq<ByteBlock>, k: int): int
    requires Readable(sb, blocks) && 0 <= k && k + 3 < 1024 * |blocks|
  {
    DiskByte(blocks, k) + 0x100 * DiskByte(blocks, k + 1) + 0x10000 * DiskByte(blocks, k + 2)
    + 0x1000000 * DiskByte(blocks, k + 3)
  }

  lemma {:induction false} DiskWord(sb: Super, blocks: seq<ByteBlock>, b: int, j: int)
    requires Readable(sb, blocks) && 0 <= b < |blocks| && 0 <= j < NINDIRECT
    ensures DiskUint(sb, blocks, 1024 * b + 4 * j) == Word(blocks[b], j)
  {
    hide DiskByte;
    ByteOf(blocks, b, 4 * j);
    ByteOf(blocks, b, 4 * j + 1);
    ByteOf(blocks, b, 4 * j + 2);
    ByteOf(blocks, b, 4 * j + 3);
  }

  lemma {:induction false} ByteOf(blocks: seq<ByteBlock>, b: int, t: int)
    requires 0 <= b < |blocks| && |blocks[b]| == BSIZE && 0 <= t < BSIZE
    ensures (1024 * b + t) / 1024 == b && DiskByte(blocks, 1024 * b + t) == blocks[b][t]
  {
  }

  /** Inode inum is the 64 bytes at 64 * inum of the inode area: size is its third uint, addrs are the next 13. */
  lemma {:induction false} DinodeBytes(sb: Super, blocks: seq<ByteBlock>, inum: int)
    requires Readable(sb, blocks) && 0 <= inum < sb.ninodes
    ensures 0 <= 1024 * sb.inodestart + 64 * inum && 1024 * sb.inodestart + 64 * inum + 64 <= 1024 * sb.bmapstart
    ensures DiskInode(sb, blocks, inum).size == DiskUint(sb, blocks, 1024 * sb.inodestart + 64 * inum + 8)
    ensures |DiskInode(sb, blocks, inum).addrs| == 13
    ensures forall k :: 0 <= k < 13 ==>
              DiskInode(sb, blocks, inum).addrs[k]
              == DiskUint(sb, blocks, 1024 * sb.inodestart + 64 * inum + 12 + 4 * k)
  {
    hide Word, DiskUint;
    var b, s := sb.IBlock(inum), inum % IPB;
    assert 1024 * b + 64 * s == 1024 * sb.inodestart + 64 * inum;
    DiskWord(sb, blocks, b, s * DINODE + 2);
    forall k | 0 <= k < 13
      ensures DiskInode(sb, blocks, inum).addrs[k]
              == DiskUint(sb, blocks, 1024 * sb.inodestart + 64 * inum + 12 + 4 * k)
    {
      DiskWord(sb, blocks, b, s * DINODE + 3 + k);
    }
  }

  /** The latest contents of every block, and of every inode. */
  datatype Image = Image(blocks: seq<ByteBlock>, inodes: seq<Inode>)

  ghost predicate WellFormed(sb: Super, g: Image) {
    && sb.Ok() && |g.blocks| == sb.size && |g.inodes| == sb.ninodes
    && (forall b :: 0 <= b < |g.blocks| ==> IsBlock(g.blocks[b]))
    && (forall i :: 0 <= i < |g.inodes| ==> |g.inodes[i].addrs| == NDIRECT + 1)
    && (forall i, k :: 0 <= i < |g.inodes| && 0 <= k <= NDIRECT ==> 0 <= g.inodes[i].addrs[k] < sb.size)
  }

  /** A place that can hold a block number: an entry of addrs, or a word of an indirect block. */
  datatype Slot = Direct(inum: int, i: int) | Via(inum: int, j: int)

  predicate IsSlot(g: Image, s: Slot) {
    && 0 <= s.inum < |g.inodes|
    && match s case Direct(_, i) => 0 <= i <= NDIRECT case Via(_, j) => 0 <= j < NINDIRECT
  }

  /** The block number in a slot, 0 if there is none. */
  ghost function Addr(sb: Super, g: Image, s: Slot): int
    requires WellFormed(sb, g) && IsSlot(g, s)
  {
    match s
    case Direct(inum, i) => g.inodes[inum].addrs[i]
    case Via(inum, j) =>
      var ind := g.inodes[inum].addrs[NDIRECT];
      if ind == 0 then 0 else Word(g.blocks[ind], j)
  }

  /** Every block number in use sits in exactly one slot, which owner names, and is a data block. */
  ghost predicate Structure(sb: Super, g: Image, owner: map<int, Slot>) {
    && WellFormed(sb, g)
    && (forall s :: IsSlot(g, s) && Addr(sb, g, s) != 0 ==> Addr(sb, g, s) in owner && owner[Addr(sb, g, s)] == s)
    && (forall b :: b in owner ==> sb.nmeta <= b < sb.size && IsSlot(g, owner[b]) && Addr(sb, g, owner[b]) == b)
  }

  /** The bitmap's bit for block b. */
  ghost predicate Used(sb: Super, g: Image, b: int)
    requires WellFormed(sb, g) && 0 <= b < sb.size
  {
    BlockBit(g.blocks[sb.BBlock(b)], b % BPB)
  }

  /** The bitmap marks the metadata blocks and the blocks of inUse, and no others. */
  ghost predicate Marked(sb: Super, g: Image, inUse: set<int>)
    requires WellFormed(sb, g)
  {
    forall b :: 0 <= b < sb.size ==> (Used(sb, g, b) <==> b < sb.nmeta || b in inUse)
  }

  /** The conservation law: the bitmap is exactly the metadata and the blocks the inodes own. */
  ghost predicate Conserved(sb: Super, g: Image, owner: map<int, Slot>) {
    Structure(sb, g, owner) && Marked(sb, g, owner.Keys)
  }

  /** Blocks that fsinit accepts, with inodes that obey the law. */
  ghost predicate Mountable(blocks: seq<ByteBlock>, owner: map<int, Slot>) {
    && |blocks| > 1 && IsBlock(blocks[1]) && Word(blocks[1], 0) == FSMAGIC && Readable(ReadSuper(blocks[1]), blocks)
    && Conserved(ReadSuper(blocks[1]), Image(blocks, Dinodes(ReadSuper(blocks[1]), blocks)), owner)
  }

  // ----- files

  function SlotOf(inum: int, bn: int): Slot {
    if bn < NDIRECT then Direct(inum, bn) else Via(inum, bn - NDIRECT)
  }

  ghost predicate Mapped(sb: Super, g: Image, inum: int, bn: int) {
    && WellFormed(sb, g) && 0 <= inum < |g.inodes| && 0 <= bn < MAXFILE
    && 0 < Addr(sb, g, SlotOf(inum, bn)) < sb.size
  }

  ghost function BlockOf(sb: Super, g: Image, inum: int, bn: int): (b: ByteBlock)
    requires Mapped(sb, g, inum, bn)
    ensures |b| == BSIZE
  {
    g.blocks[Addr(sb, g, SlotOf(inum, bn))]
  }

  /** Every block below the file's size is mapped. */
  ghost predicate HoleFree(sb: Super, g: Image, inum: int) {
    && WellFormed(sb, g) && 0 <= inum < |g.inodes| && 0 <= g.inodes[inum].size <= MAXFILE * BSIZE
    && forall bn :: 0 <= bn * BSIZE < g.inodes[inum].size ==> Mapped(sb, g, inum, bn)
  }

  ghost function ByteAt(sb: Super, g: Image, inum: int, k: int): int
    requires 0 <= k && Mapped(sb, g, inum, k / BSIZE)
  {
    BlockOf(sb, g, inum, k / BSIZE)[k % BSIZE]
  }

  /** The file as the byte sequence a user sees. */
  ghost function Content(sb: Super, g: Image, inum: int): (c: seq<int>)
    requires HoleFree(sb, g, inum)
    ensures |c| == g.inodes[inum].size
  {
    seq(g.inodes[inum].size, k requires 0 <= k < g.inodes[inum].size =>
      assert 0 <= k / BSIZE * BSIZE < g.inodes[inum].size; ByteAt(sb, g, inum, k))
  }

  /** Everything mapped in g is mapped in h to the same block with the same contents, and sizes agree. */
  ghost predicate Extends(sb: Super, g: Image, h: Image) {
    && WellFormed(sb, g) && WellFormed(sb, h)
    && (forall i :: 0 <= i < |g.inodes| ==> h.inodes[i].size == g.inodes[i].size)
    && (forall i, m :: Mapped(sb, g, i, m) ==>
          Mapped(sb, h, i, m) && Addr(sb, h, SlotOf(i, m)) == Addr(sb, g, SlotOf(i, m))
          && BlockOf(sb, h, i, m) == BlockOf(sb, g, i, m))
  }

  lemma {:induction false} ExtendsContent(sb: Super, g: Image, h: Image, inum: int)
    requires Extends(sb, g, h) && HoleFree(sb, g, inum)
    ensures HoleFree(sb, h, inum) && Content(sb, h, inum) == Content(sb, g, inum)
  {
    var c, d := Content(sb, g, inum), Content(sb, h, inum);
    forall k | 0 <= k < |c| ensures c[k] == d[k] {
      assert Mapped(sb, g, inum, k / BSIZE);
    }
  }

  /** Blocks and slots a data block cannot disturb: owned blocks that are not it. */
  lemma {:induction false} SlotsUnchanged(sb: Super, g: Image, h: Image, owner: map<int, Slot>)
    requires Structure(sb, g, owner) && WellFormed(sb, h)
    requires h.inodes == g.inodes
    requires forall i :: 0 <= i < |g.inodes| && g.inodes[i].addrs[NDIRECT] != 0 ==>
               h.blocks[g.inodes[i].addrs[NDIRECT]] == g.blocks[g.inodes[i].addrs[NDIRECT]]
    ensures Structure(sb, h, owner)
    ensures forall s :: IsSlot(g, s) ==> Addr(sb, h, s) == Addr(sb, g, s)
  {
    forall s | IsSlot(g, s) ensures Addr(sb, h, s) == Addr(sb, g, s) {
    }
    forall b | b in owner ensures IsSlot(h, owner[b]) && Addr(sb, h, owner[b]) == b {
      assert Addr(sb, g, owner[b]) == b;
    }
  }

  /** An indirect block is a data block. */
  lemma {:induction false} IndirectOwned(sb: Super, g: Image, owner: map<int, Slot>)
    requires Structure(sb, g, owner)
    ensures forall i :: 0 <= i < |g.inodes| && g.inodes[i].addrs[NDIRECT] != 0 ==>
              sb.nmeta <= g.inodes[i].addrs[NDIRECT] && g.inodes[i].addrs[NDIRECT] in owner
              && owner[g.inodes[i].addrs[NDIRECT]] == Direct(i, NDIRECT)
  {
    forall i | 0 <= i < |g.inodes| && g.inodes[i].addrs[NDIRECT] != 0
      ensures sb.nmeta <= g.inodes[i].addrs[NDIRECT] && g.inodes[i].addrs[NDIRECT] in owner
              && owner[g.inodes[i].addrs[NDIRECT]] == Direct(i, NDIRECT)
    {
      assert IsSlot(g, Direct(i, NDIRECT)) && Addr(sb, g, Direct(i, NDIRECT)) != 0;
    }
  }

  // ----- the steps that change an image

  function MarkUsed(sb: Super, g: Image, b: int): Image
    requires sb.Ok() && |g.blocks| == sb.size && 0 <= b < sb.size && |g.blocks[sb.BBlock(b)]| == BSIZE
  {
    g.(blocks := g.blocks[sb.BBlock(b) := SetBit(g.blocks[sb.BBlock(b)], b % BPB)])
  }

  function MarkFree(sb: Super, g: Image, b: int): Image
    requires sb.Ok() && |g.blocks| == sb.size && 0 <= b < sb.size && |g.blocks[sb.BBlock(b)]| == BSIZE
  {
    g.(blocks := g.blocks[sb.BBlock(b) := ClearBit(g.blocks[sb.BBlock(b)], b % BPB)])
  }

  function PutBlock(g: Image, b: int, data: ByteBlock): Image
    requires 0 <= b < |g.blocks|
  {
    g.(blocks := g.blocks[b := data])
  }

  function PutAddr(g: Image, inum: int, i: int, b: int): Image
    requires 0 <= inum < |g.inodes| && 0 <= i < |g.inodes[inum].addrs|
  {
    g.(inodes := g.inodes[inum := g.inodes[inum].(addrs := g.inodes[inum].addrs[i := b])])
  }

  /** Marking one more block used, or one fewer, touches only the bitmap. */
  lemma {:induction false} MarkUsedEffect(sb: Super, g: Image, owner: map<int, Slot>, inUse: set<int>, b: int)
    requires Structure(sb, g, owner) && Marked(sb, g, inUse) && 0 <= b < sb.size && !Used(sb, g, b)
    ensures sb.nmeta <= b
    ensures Structure(sb, MarkUsed(sb, g, b), owner) && Marked(sb, MarkUsed(sb, g, b), inUse + {b})
    ensures Extends(sb, g, MarkUsed(sb, g, b))
  {
    hide BlockBit, SetBit, Word;
    var h := MarkUsed(sb, g, b);
    SetBitBits(g.blocks[sb.BBlock(b)], b % BPB);
    IndirectOwned(sb, g, owner);
    SlotsUnchanged(sb, g, h, owner);
    forall x | 0 <= x < sb.size ensures Used(sb, h, x) <==> x < sb.nmeta || x in inUse + {b} {
      assert Used(sb, g, x) <==> x < sb.nmeta || x in inUse;
      if x / BPB == b / BPB && x % BPB == b % BPB { assert x == b; }
    }
  }

  lemma {:induction false} MarkFreeEffect(sb: Super, g: Image, owner: map<int, Slot>, inUse: set<int>, b: int)
    requires Structure(sb, g, owner) && Marked(sb, g, inUse) && sb.nmeta <= b < sb.size && b in inUse
    ensures Used(sb, g, b)
    ensures Structure(sb, MarkFree(sb, g, b), owner) && Marked(sb, MarkFree(sb, g, b), inUse - {b})
    ensures Extends(sb, g, MarkFree(sb, g, b))
  {
    hide BlockBit, ClearBit, Word;
    var h := MarkFree(sb, g, b);
    assert Used(sb, g, b);
    ClearBitBits(g.blocks[sb.BBlock(b)], b % BPB);
    IndirectOwned(sb, g, owner);
    SlotsUnchanged(sb, g, h, owner);
    forall x | 0 <= x < sb.size ensures Used(sb, h, x) <==> x < sb.nmeta || x in inUse - {b} {
      assert Used(sb, g, x) <==> x < sb.nmeta || x in inUse;
      if x / BPB == b / BPB && x % BPB == b % BPB { assert x == b; }
    }
  }

  /** Writing a data block leaves the bitmap alone. */
  lemma {:induction false} DataNotBitmap(sb: Super, g: Image, inUse: set<int>, b: int, data: ByteBlock)
    requires WellFormed(sb, g) && Marked(sb, g, inUse) && sb.nmeta <= b < sb.size && IsBlock(data)
    ensures WellFormed(sb, PutBlock(g, b, data)) && Marked(sb, PutBlock(g, b, data), inUse)
  {
    var h := PutBlock(g, b, data);
    forall x | 0 <= x < sb.size ensures Used(sb, h, x) <==> Used(sb, g, x) {
    }
  }

  /** Writing a block no inode owns changes no file. */
  lemma {:induction false} PutUnowned(sb: Super, g: Image, owner: map<int, Slot>, inUse: set<int>, b: int,
                                      data: ByteBlock)
    requires Structure(sb, g, owner) && Marked(sb, g, inUse) && sb.nmeta <= b < sb.size && b !in owner && IsBlock(data)
    ensures Structure(sb, PutBlock(g, b, data), owner) && Marked(sb, PutBlock(g, b, data), inUse)
    ensures Extends(sb, g, PutBlock(g, b, data))
  {
    DataNotBitmap(sb, g, inUse, b, data);
    IndirectOwned(sb, g, owner);
    SlotsUnchanged(sb, g, PutBlock(g, b, data), owner);
  }

  /** The same files, block by block, and the same free blocks. */
  ghost predicate SameView(sb: Super, g: Image, h: Image) {
    && Extends(sb, g, h) && Extends(sb, h, g) && h.inodes == g.inodes
    && forall x :: 0 <= x < sb.size ==> (Used(sb, h, x) <==> Used(sb, g, x))
  }

  /** Writing an inode block changes no file and no free block. */
  lemma {:induction false} PutMeta(sb: Super, g: Image, owner: map<int, Slot>, b: int, data: ByteBlock)
    requires Structure(sb, g, owner) && sb.inodestart <= b < sb.bmapstart && IsBlock(data)
    ensures Structure(sb, PutBlock(g, b, data), owner) && SameView(sb, g, PutBlock(g, b, data))
  {
    hide Word, BlockBit;
    var h := PutBlock(g, b, data);
    IndirectOwned(sb, g, owner);
    SlotsUnchanged(sb, g, h, owner);
    forall i, m | Mapped(sb, g, i, m) || Mapped(sb, h, i, m)
      ensures Mapped(sb, g, i, m) && Mapped(sb, h, i, m) && Addr(sb, h, SlotOf(i, m)) == Addr(sb, g, SlotOf(i, m))
              && BlockOf(sb, h, i, m) == BlockOf(sb, g, i, m)
    {
      assert IsSlot(g, SlotOf(i, m)) && Addr(sb, g, SlotOf(i, m)) == Addr(sb, h, SlotOf(i, m));
      assert Addr(sb, g, SlotOf(i, m)) in owner;
    }
  }

  /** Writing one mapped block of a file changes that block of that file, and nothing else. */
  lemma {:induction false} PutData(sb: Super, g: Image, owner: map<int, Slot>, inum: int, bn: int, data: ByteBlock,
                                   h: Image)
    requires Structure(sb, g, owner) && Mapped(sb, g, inum, bn) && IsBlock(data)
    requires h == PutBlock(g, Addr(sb, g, SlotOf(inum, bn)), data)
    ensures Structure(sb, h, owner) && sb.nmeta <= Addr(sb, g, SlotOf(inum, bn))
    ensures forall i, m :: Mapped(sb, g, i, m) <==> Mapped(sb, h, i, m)
    ensures forall s :: IsSlot(g, s) ==> Addr(sb, h, s) == Addr(sb, g, s)
    ensures forall i, m :: Mapped(sb, g, i, m) ==>
              BlockOf(sb, h, i, m) == if i == inum && m == bn then data else BlockOf(sb, g, i, m)
  {
    var b := Addr(sb, g, SlotOf(inum, bn));
    assert owner[b] == SlotOf(inum, bn);
    IndirectOwned(sb, g, owner);
    SlotsUnchanged(sb, g, h, owner);
    forall i, m | Mapped(sb, g, i, m)
      ensures Mapped(sb, h, i, m)
      ensures BlockOf(sb, h, i, m) == if i == inum && m == bn then data else BlockOf(sb, g, i, m)
    {
      assert Addr(sb, h, SlotOf(i, m)) == Addr(sb, g, SlotOf(i, m));
      assert owner[Addr(sb, g, SlotOf(i, m))] == SlotOf(i, m);
    }
  }

  /** A fresh block in one empty slot, every other slot as it was: the block has found its owner. */
  lemma {:induction false} NewOwner(sb: Super, g: Image, h: Image, owner: map<int, Slot>, s0: Slot, b: int)
    requires Structure(sb, g, owner) && WellFormed(sb, h) && |h.inodes| == |g.inodes|
    requires IsSlot(g, s0) && Addr(sb, g, s0) == 0 && sb.nmeta <= b < sb.size && b !in owner
    requires forall s :: IsSlot(g, s) ==> Addr(sb, h, s) == if s == s0 then b else Addr(sb, g, s)
    ensures Structure(sb, h, owner[b := s0])
  {
    hide Addr;
    var t := owner[b := s0];
    forall s | IsSlot(h, s) && Addr(sb, h, s) != 0
      ensures Addr(sb, h, s) in t && t[Addr(sb, h, s)] == s
    {
      if s != s0 { assert Addr(sb, g, s) in owner; }
    }
    forall x | x in t ensures IsSlot(h, t[x]) && Addr(sb, h, t[x]) == x {
      if x != b { assert Addr(sb, g, owner[x]) == x; }
    }
  }

  /** Putting a fresh block in an empty entry of addrs gives it an owner; a fresh indirect block is zero. */
  lemma {:induction false} AssignDirect(sb: Super, g: Image, owner: map<int, Slot>, inum: int, i: int, b: int, h: Image)
    requires Structure(sb, g, owner) && 0 <= inum < |g.inodes| && 0 <= i <= NDIRECT
    requires g.inodes[inum].addrs[i] == 0 && sb.nmeta <= b < sb.size && b !in owner
    requires i == NDIRECT ==> forall j :: 0 <= j < NINDIRECT ==> Word(g.blocks[b], j) == 0
    requires h == PutAddr(g, inum, i, b)
    ensures Structure(sb, h, owner[b := Direct(inum, i)]) && Extends(sb, g, h)
  {
    hide Word;
    forall s | IsSlot(g, s) ensures Addr(sb, h, s) == if s == Direct(inum, i) then b else Addr(sb, g, s) {
    }
    NewOwner(sb, g, h, owner, Direct(inum, i), b);
  }

  /** Putting a fresh block in an empty word of the indirect block gives it an owner. */
  lemma {:induction false} AssignVia(sb: Super, g: Image, owner: map<int, Slot>, inum: int, j: int, b: int, h: Image)
    requires Structure(sb, g, owner)
    requires 0 <= inum < |g.inodes| && 0 <= j < NINDIRECT && g.inodes[inum].addrs[NDIRECT] != 0
    requires Addr(sb, g, Via(inum, j)) == 0 && sb.nmeta <= b < sb.size && b !in owner
    requires h == PutBlock(g, g.inodes[inum].addrs[NDIRECT], PutWord(g.blocks[g.inodes[inum].addrs[NDIRECT]], j, b))
    ensures Structure(sb, h, owner[b := Via(inum, j)]) && Extends(sb, g, h)
    ensures Addr(sb, h, Via(inum, j)) == b
  {
    hide Word, PutWord, BlockBit;
    var ind := g.inodes[inum].addrs[NDIRECT];
    IndirectOwned(sb, g, owner);
    PutWordWords(g.blocks[ind], j, b);
    forall s | IsSlot(g, s) ensures Addr(sb, h, s) == if s == Via(inum, j) then b else Addr(sb, g, s) {
    }
    NewOwner(sb, g, h, owner, Via(inum, j), b);
    forall i, m | Mapped(sb, g, i, m)
      ensures Mapped(sb, h, i, m) && BlockOf(sb, h, i, m) == BlockOf(sb, g, i, m)
    {
      assert owner[Addr(sb, g, SlotOf(i, m))] == SlotOf(i, m);
    }
  }

  /** Emptying an entry of addrs drops its block, and with the indirect block everything it lists. */
  ghost function Dropped(owner: map<int, Slot>, inum: int, i: int): map<int, Slot> {
    map b | b in owner && owner[b] != Direct(inum, i) && !(i == NDIRECT && owner[b].Via? && owner[b].inum == inum)
      :: owner[b]
  }

  lemma {:induction false} DropEntry(sb: Super, g: Image, owner: map<int, Slot>, inum: int, i: int)
    requires Structure(sb, g, owner) && 0 <= inum < |g.inodes| && 0 <= i <= NDIRECT
    ensures Structure(sb, PutAddr(g, inum, i, 0), Dropped(owner, inum, i))
  {
    hide Word;
    var h := PutAddr(g, inum, i, 0);
    var t := Dropped(owner, inum, i);
    forall s | IsSlot(h, s) && Addr(sb, h, s) != 0
      ensures Addr(sb, h, s) in t && t[Addr(sb, h, s)] == s
    {
      assert Addr(sb, g, s) == Addr(sb, h, s);
    }
    forall x | x in t ensures IsSlot(h, t[x]) && Addr(sb, h, t[x]) == x {
      assert Addr(sb, g, owner[x]) == x;
    }
  }
}
