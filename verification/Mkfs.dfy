/** mkfs/mkfs.c: building the first image. Blocks are handed out in order by a counter, and the bitmap
    is written once at the end. */
module Mkfs {
  import opened Params
  import opened Common
  import opened Bytes
  import opened FsImage
  import opened FsSteps
  import opened FileBytes
  import opened Dirs

  const NINODES := 200

  /** The layout main() computes. */
  const NBITMAP := FSSIZE / BPB + 1
  const NINODEBLOCKS := NINODES / IPB + 1
  const NMETA := 2 + LOGSIZE + NINODEBLOCKS + NBITMAP

  function Layout(): Super {
    Super(FSSIZE, NINODES, LOGSIZE, 2, 2 + LOGSIZE, 2 + LOGSIZE + NINODEBLOCKS, NMETA)
  }

  /** main's superblock satisfies what the kernel's accesses rely on, and leaves one bitmap block. Boot block,
      superblock, log, inodes and bitmap follow each other without a gap, and the kernel reads this from the bytes. */
  lemma {:induction false} LayoutOk()
    ensures Layout() == Super(2000, 200, 30, 2, 32, 45, 46) && Layout().Ok() && Layout().size <= BPB
    ensures IsBlock(SuperBlock(Layout())) && Word(SuperBlock(Layout()), 0) == 0x10203040
    ensures ReadSuper(SuperBlock(Layout())) == Layout()
  {
    hide Word, SuperBlock, ReadSuper;
    SuperRead(Layout());
  }

  // ----- inodes on disk

  /** Every inode's bytes say what the inode is. */
  ghost predicate Synced(sb: Super, g: Image) {
    Readable(sb, g.blocks) && |g.inodes| == sb.ninodes
    && forall i :: 0 <= i < sb.ninodes ==> DiskInode(sb, g.blocks, i) == g.inodes[i]
  }

  lemma {:induction false} SyncedKept(sb: Super, f: Image, g: Image)
    requires Synced(sb, f) && MetaKept(sb, f.blocks, g.blocks) && Readable(sb, g.blocks) && g.inodes == f.inodes
    ensures Synced(sb, g)
  {
    hide InodeAt;
  }

  /** The inode that changed was written to its place. */
  lemma {:induction false} SyncedAfter(sb: Super, f: Image, h: Image, g: Image, inum: int)
    requires Synced(sb, f) && MetaKept(sb, f.blocks, h.blocks) && 0 <= inum < |f.inodes| == |g.inodes|
    requires InodePut(sb, h.blocks, g.blocks, inum, g.inodes[inum]) && g.inodes == f.inodes[inum := g.inodes[inum]]
    ensures Synced(sb, g)
  {
    hide InodeAt;
    forall i | 0 <= i < sb.ninodes ensures DiskInode(sb, g.blocks, i) == g.inodes[i] {
      assert DiskInode(sb, f.blocks, i) == f.inodes[i];
    }
  }

  lemma {:induction false} SyncedStart(sb: Super, g: Image)
    requires Readable(sb, g.blocks) && |g.inodes| == sb.ninodes
    requires forall b :: 1 < b < sb.bmapstart ==> g.blocks[b] == Zero()
    requires forall i :: 0 <= i < sb.ninodes ==> g.inodes[i] == Empty()
    ensures Synced(sb, g)
  {
    ZeroBlock();
    hide Word;
    forall i | 0 <= i < sb.ninodes ensures DiskInode(sb, g.blocks, i) == g.inodes[i] {
      assert DiskInode(sb, g.blocks, i).addrs == Empty().addrs;
    }
  }

  /** An image whose bytes say what it is can be mounted. */
  lemma {:induction false} MountsAs(sb: Super, g: Image, o: map<int, Slot>)
    requires Conserved(sb, g, o) && Synced(sb, g) && g.blocks[1] == SuperBlock(sb)
    ensures Mountable(g.blocks, o) && ReadSuper(g.blocks[1]) == sb && Dinodes(sb, g.blocks) == g.inodes
  {
    hide Word, SuperBlock, ReadSuper, DiskInode, Structure;
    SuperRead(sb);
    assert Dinodes(sb, g.blocks) == g.inodes;
    assert Image(g.blocks, g.inodes) == g;
  }

  lemma {:induction false} ViewTight(sb: Super, g: Image, h: Image, inum: int)
    requires SameView(sb, g, h) && Tight(sb, g, inum)
    ensures Tight(sb, h, inum) && HoleFree(sb, g, inum) && HoleFree(sb, h, inum)
    ensures Content(sb, h, inum) == Content(sb, g, inum)
  {
    hide Mapped, Used, Shown, Content, HoleFree;
    TightReads(sb, g, inum);
    ViewKept(sb, g, h, inum);
    VisibleContent(sb, g, inum);
    VisibleContent(sb, h, inum);
  }

  lemma {:induction false} ViewMaps(sb: Super, f: Image, g: Image, h: Image, inum: int)
    requires SameView(sb, g, h) && WellFormed(sb, g) && WellFormed(sb, h) && 0 <= inum < |g.inodes|
    requires OthersKept(sb, f, g, inum) && SameMaps(sb, f, g, inum)
    ensures OthersKept(sb, f, h, inum) && SameMaps(sb, f, h, inum)
  {
    hide Mapped, Used, HoleFree, SameView, OthersKept;
    ViewKept(sb, g, h, inum);
    OthersTrans(sb, f, g, h, inum);
  }

  /** Exactly the blocks below the file's size are mapped, and what follows the file's last byte is zero. */
  ghost predicate Tight(sb: Super, g: Image, inum: int) {
    && WellFormed(sb, g) && 0 <= inum < |g.inodes| && 0 <= g.inodes[inum].size <= MAXFILE * BSIZE
    && MappedUpTo(sb, g, inum, g.inodes[inum].size) && Clean(sb, g, inum, g.inodes[inum].size)
    && (g.inodes[inum].addrs[NDIRECT] != 0 <==> g.inodes[inum].size > NDIRECT * BSIZE)
  }

  /** The blocks of a file of that size: its data, and the indirect block if it needs one. */
  function Blocks(size: int): int { (size + BSIZE - 1) / BSIZE + if size > NDIRECT * BSIZE then 1 else 0 }

  lemma {:induction false} BlocksTurn(off: int, n: int)
    requires 0 <= off && 0 < n <= BSIZE - off % BSIZE
    ensures Blocks(off + n) ==
            Blocks(off) + (if off % BSIZE == 0 then 1 else 0) + if off == NDIRECT * BSIZE then 1 else 0
    ensures off + n > NDIRECT * BSIZE <==> off / BSIZE >= NDIRECT
  {
    var q := off / BSIZE;
    if off % BSIZE == 0 {
      assert (off + BSIZE - 1) / BSIZE == q && (off + n + BSIZE - 1) / BSIZE == q + 1;
    } else {
      assert (off + BSIZE - 1) / BSIZE == q + 1 && (off + n + BSIZE - 1) / BSIZE == q + 1;
    }
  }

  lemma {:induction false} BlocksMonotone(a: int, b: int)
    requires 0 <= a <= b
    ensures 0 <= Blocks(a) <= Blocks(b)
  {
  }

  /** Exactly the blocks that start below lim are mapped. */
  ghost predicate MappedUpTo(sb: Super, g: Image, inum: int, lim: int) {
    forall bn :: 0 <= bn < MAXFILE ==> (Mapped(sb, g, inum, bn) <==> bn * BSIZE < lim)
  }

  /** From lim on the file shows zeros. */
  ghost predicate Clean(sb: Super, g: Image, inum: int, lim: int)
    requires 0 <= lim
  {
    forall k :: lim <= k ==> Shown(sb, g, inum, k) == 0
  }

  /** The other files map exactly the blocks they mapped before. */
  ghost predicate SameMaps(sb: Super, f: Image, g: Image, inum: int) {
    forall i, m :: i != inum ==> (Mapped(sb, f, i, m) <==> Mapped(sb, g, i, m))
  }

  /** One turn of iappend's loop, seen from outside. */
  lemma {:induction false} Appended(sb: Super, f: Image, g: Image, o: map<int, Slot>, h: Image, p: map<int, Slot>,
                                    k: Image, inum: int, c: seq<int>, w: seq<int>, at: int, piece: seq<int>, x: int)
    requires Structure(sb, g, o) && Structure(sb, h, p) && 0 <= inum < sb.ninodes && 0 <= at / BSIZE < MAXFILE
    requires at == |c| + |w|
    requires Written(sb, f, g, inum, c, |c|, w) && MappedUpTo(sb, g, inum, at) && SameMaps(sb, f, g, inum)
    requires Clean(sb, g, inum, at)
    requires BlockMapped(sb, g, o, h, p, inum, at / BSIZE, x) && x != 0
    requires 0 < |piece| <= BSIZE - at % BSIZE && IsBytes(piece) && |h.blocks[x]| == BSIZE
    requires k == PutBlock(h, x, Overlay(h.blocks[x], at % BSIZE, piece))
    ensures Structure(sb, k, p) && Written(sb, f, k, inum, c, |c|, w + piece) && sb.nmeta <= x < sb.size && x in p
    ensures MappedUpTo(sb, k, inum, at + |piece|) && SameMaps(sb, f, k, inum) && Clean(sb, k, inum, at + |piece|)
  {
    hide Written, BlockMapped, OthersKept, Addr, Extends, Full, MappedUpTo, SameMaps, Clean, ShownKept;
    UseMapped(sb, g, o, h, p, inum, at / BSIZE, x);
    NewlyMapped(sb, g, o, h, p, inum, at / BSIZE, x);
    GrowthShown(sb, g, o, h, p, inum, at / BSIZE, x);
    WrittenExtends(sb, f, g, h, inum, c, |c|, w);
    MappedBelow(sb, h, inum, at / BSIZE);
    WrittenPiece(sb, f, h, p, inum, c, |c|, w, at, piece, k);
    OwnedMapped(sb, h, p, inum, at / BSIZE);
    BlockIsBytes(sb, h, x);
    PutData(sb, h, p, inum, at / BSIZE, Overlay(h.blocks[x], at % BSIZE, piece), k);
    ExtendsMapped(sb, g, h);
    MapsAfter(sb, f, g, h, k, inum, at, |piece|);
    FreshZero(sb, g, o, h, p, inum, at / BSIZE, x);
    StaysClean(sb, g, h, k, inum, at, piece);
  }

  lemma {:induction false} FreshZero(sb: Super, g: Image, o: map<int, Slot>, h: Image, p: map<int, Slot>, inum: int,
                                     bn: int, x: int)
    requires WellFormed(sb, g) && WellFormed(sb, h) && 0 <= inum < sb.ninodes && 0 <= bn < MAXFILE
    requires BlockMapped(sb, g, o, h, p, inum, bn, x) && x != 0
    ensures Mapped(sb, h, inum, bn) && (!Mapped(sb, g, inum, bn) ==> BlockOf(sb, h, inum, bn) == Zero())
  {
  }

  lemma {:induction false} StaysClean(sb: Super, g: Image, h: Image, k: Image, inum: int, at: int, piece: seq<int>)
    requires 0 <= at && at % BSIZE + |piece| <= BSIZE && Clean(sb, g, inum, at) && Extends(sb, g, h)
    requires Mapped(sb, h, inum, at / BSIZE)
    requires !Mapped(sb, g, inum, at / BSIZE) ==> BlockOf(sb, h, inum, at / BSIZE) == Zero()
    requires forall i, m :: Mapped(sb, h, i, m) && !(i == inum && m == at / BSIZE) ==> Mapped(sb, g, i, m)
    requires forall i, m :: Mapped(sb, h, i, m) <==> Mapped(sb, k, i, m)
    requires forall i, m :: Mapped(sb, h, i, m) ==>
               BlockOf(sb, k, i, m) == if i == inum && m == at / BSIZE
                                       then Overlay(BlockOf(sb, h, inum, at / BSIZE), at % BSIZE,
                                                    piece) else BlockOf(sb, h, i, m)
    ensures Clean(sb, k, inum, at + |piece|)
  {
    hide Addr, Mapped, BlockOf, WellFormed, Overlay;
    forall b | at + |piece| <= b ensures Shown(sb, k, inum, b) == 0 {
      if Mapped(sb, k, inum, b / BSIZE) {
        OverlaidByte(sb, h, k, inum, at, piece, b);
        assert Shown(sb, g, inum, b) == 0;
        if Mapped(sb, g, inum, b / BSIZE) { assert BlockOf(sb, h, inum, b / BSIZE) == BlockOf(sb, g, inum, b / BSIZE); }
      }
    }
  }

  lemma {:induction false} TightReads(sb: Super, g: Image, inum: int)
    requires Tight(sb, g, inum)
    ensures HoleFree(sb, g, inum) && |Content(sb, g, inum)| == g.inodes[inum].size && WellFormed(sb, g)
    ensures g.inodes[inum].addrs[NDIRECT] != 0 <==> g.inodes[inum].size > NDIRECT * BSIZE
    ensures Written(sb, g, g, inum, Content(sb, g, inum), g.inodes[inum].size, [])
    ensures MappedUpTo(sb, g, inum, g.inodes[inum].size) && SameMaps(sb, g, g, inum)
    ensures Clean(sb, g, inum, g.inodes[inum].size)
  {
    hide Mapped, Clean;
    assert forall bn :: 0 <= bn * BSIZE < g.inodes[inum].size ==> 0 <= bn < MAXFILE;
    WrittenNothing(sb, g, inum, g.inodes[inum].size);
    VisibleContent(sb, g, inum);
  }

  lemma {:induction false} AppendedSize(sb: Super, f: Image, g: Image, h: Image, o: map<int, Slot>, inum: int,
                                        c: seq<int>, p: seq<int>)
    requires Structure(sb, g, o) && 0 <= inum < sb.ninodes && SameMaps(sb, f, g, inum)
    requires h == g.(inodes := g.inodes[inum := g.inodes[inum].(size := |c| + |p|)])
    requires |c| + |p| <= MAXFILE * BSIZE && MappedUpTo(sb, g, inum, |c| + |p|) && Clean(sb, g, inum, |c| + |p|)
    requires g.inodes[inum].addrs[NDIRECT] != 0 <==> |c| + |p| > NDIRECT * BSIZE
    ensures Tight(sb, h, inum) && SameMaps(sb, f, h, inum) && Splice(c, |c|, p) == c + p
  {
    SizeOnly(sb, g, h, o, inum);
    SameSlots(sb, g, h);
    hide Addr, Structure, Mapped;
    forall k | |c| + |p| <= k ensures Shown(sb, h, inum, k) == 0 {
      assert Shown(sb, g, inum, k) == 0;
    }
  }

  /** While one file grows, another one shows the same bytes and stays tight. */
  lemma {:induction false} OtherTight(sb: Super, g: Image, h: Image, inum: int, i: int)
    requires OthersKept(sb, g, h, inum) && SameMaps(sb, g, h, inum) && i != inum && Tight(sb, g, i)
    requires 0 <= inum < |g.inodes| && h.inodes == g.inodes[inum := h.inodes[inum]]
    ensures Tight(sb, h, i) && forall k :: 0 <= k ==> Shown(sb, h, i, k) == Shown(sb, g, i, k)
  {
    hide Mapped, BlockOf, Addr;
    ShownSame(sb, g, h, i);
    forall k | h.inodes[i].size <= k ensures Shown(sb, h, i, k) == 0 {
      assert Shown(sb, g, i, k) == 0;
    }
  }

  lemma {:induction false} RoundedUp(sb: Super, g: Image, h: Image, inum: int)
    requires Tight(sb, g, inum) && WellFormed(sb, h)
    requires h == g.(inodes := g.inodes[inum := g.inodes[inum].(size := (g.inodes[inum].size / BSIZE + 1) * BSIZE)])
    requires forall s :: IsSlot(g, s) ==> Addr(sb, h, s) == Addr(sb, g, s)
    ensures HoleFree(sb, h, inum) <==> g.inodes[inum].size % BSIZE != 0
    ensures SameMaps(sb, g, h, inum) && forall m :: Mapped(sb, h, inum, m) <==> Mapped(sb, g, inum, m)
  {
    SameSlots(sb, g, h);
    hide Addr;
    var n := g.inodes[inum].size;
    if n % BSIZE == 0 {
      assert 0 <= n / BSIZE * BSIZE < h.inodes[inum].size;
      assert !Mapped(sb, h, inum, n / BSIZE);
    } else {
      forall bn | 0 <= bn * BSIZE < h.inodes[inum].size ensures Mapped(sb, h, inum, bn) {
        assert bn * BSIZE < n && 0 <= bn < MAXFILE;
      }
    }
  }

  lemma {:induction false} ZeroBits()
    ensures IsBlock(Zero()) && forall j :: 0 <= j < BPB ==> !BlockBit(Zero(), j)
  {
    forall j | 0 <= j < BPB ensures !BlockBit(Zero(), j) { ZeroBit(j % 8); }
  }

  lemma {:induction false} ZeroBit(k: nat)
    ensures !Bit(0, k)
  {
    if k > 0 { ZeroBit(k - 1); }
  }

  /** With the bits below freeblock set, the bitmap marks the metadata and the blocks handed out. */
  lemma {:induction false} BitmapWritten(sb: Super, g: Image, o: map<int, Slot>, freeblock: int, buf: ByteBlock)
    requires Structure(sb, g, o) && sb.nmeta <= freeblock <= sb.size && freeblock < BPB && IsBlock(buf)
    requires forall b :: b in o <==> sb.nmeta <= b < freeblock
    requires forall b :: sb.bmapstart <= b < sb.nmeta ==> g.blocks[b] == Zero()
    requires forall j :: 0 <= j < BPB ==> (BlockBit(buf, j) <==> j < freeblock)
    ensures Conserved(sb, PutBlock(g, sb.bmapstart, buf), o) && Extends(sb, g, PutBlock(g, sb.bmapstart, buf))
    ensures forall i, m :: Mapped(sb, PutBlock(g, sb.bmapstart, buf), i, m) <==> Mapped(sb, g, i, m)
  {
    hide BlockBit, Word;
    var h := PutBlock(g, sb.bmapstart, buf);
    IndirectOwned(sb, g, o);
    SlotsUnchanged(sb, g, h, o);
    SameSlots(sb, g, h);
    ZeroBits();
    forall b | 0 <= b < sb.size ensures Used(sb, h, b) <==> b < sb.nmeta || b in o.Keys {
      if b < BPB { assert sb.BBlock(b) == sb.bmapstart && b % BPB == b; }
    }
  }

  lemma {:induction false} ExtendsMapped(sb: Super, g: Image, h: Image)
    requires Extends(sb, g, h)
    ensures forall i, m :: Mapped(sb, g, i, m) ==> Mapped(sb, h, i, m)
  {
  }

  lemma {:induction false} MapsAfter(sb: Super, f: Image, g: Image, h: Image, k: Image, inum: int, at: int, len: int)
    requires 0 <= at && 0 < len <= BSIZE - at % BSIZE && MappedUpTo(sb, g, inum, at) && SameMaps(sb, f, g, inum)
    requires forall i, m :: Mapped(sb, g, i, m) ==> Mapped(sb, h, i, m)
    requires forall i, m :: Mapped(sb, h, i, m) && !(i == inum && m == at / BSIZE) ==> Mapped(sb, g, i, m)
    requires forall i, m :: Mapped(sb, h, i, m) <==> Mapped(sb, k, i, m)
    requires Mapped(sb, h, inum, at / BSIZE)
    ensures MappedUpTo(sb, k, inum, at + len) && SameMaps(sb, f, k, inum)
  {
    hide Mapped;
    forall m | 0 <= m < MAXFILE ensures Mapped(sb, k, inum, m) <==> m * BSIZE < at + len {
      assert Mapped(sb, g, inum, m) <==> m * BSIZE < at;
      assert m * BSIZE < at + len <==> m * BSIZE < at || m == at / BSIZE;
    }
    forall i, m | i != inum ensures Mapped(sb, f, i, m) <==> Mapped(sb, k, i, m) {
      assert Mapped(sb, h, i, m) <==> Mapped(sb, k, i, m);
    }
  }

  lemma {:induction false} StartsMapped(sb: Super, g: Image, inum: int, off: int)
    requires MappedUpTo(sb, g, inum, off) && 0 <= off && off / BSIZE < MAXFILE
    ensures Mapped(sb, g, inum, off / BSIZE) <==> off % BSIZE != 0
  {
    hide Mapped;
  }

  lemma {:induction false} OwnedMapped(sb: Super, g: Image, o: map<int, Slot>, inum: int, bn: int)
    requires Structure(sb, g, o) && Mapped(sb, g, inum, bn)
    ensures Addr(sb, g, SlotOf(inum, bn)) in o && sb.nmeta <= Addr(sb, g, SlotOf(inum, bn)) < sb.size
  {
    assert IsSlot(g, SlotOf(inum, bn));
  }

  lemma {:induction false} BlockIsBytes(sb: Super, g: Image, x: int)
    requires WellFormed(sb, g) && 0 <= x < sb.size
    ensures IsBlock(g.blocks[x])
  {
  }

  // ----- the whole image

  const ROOTINO := 1

  datatype File = File(name: seq<int>, data: seq<int>)

  function Empty(): Inode { Inode(seq(NDIRECT + 1, _ => 0), 0) }

  /** The root directory: itself twice, then the files, whose inodes follow the root's in order. */
  function RootDir(files: seq<File>): (d: seq<int>)
    ensures |d| == DIRENT * (|files| + 2)
  {
    if |files| == 0 then Dirent(ROOTINO, [46]) + Dirent(ROOTINO, [46, 46])
    else RootDir(files[..|files| - 1]) + Dirent(|files| + 1, files[|files| - 1].name)
  }

  /** The name of entry k: ".", "..", and then the files'. */
  function RootName(files: seq<File>, k: int): seq<int>
    requires 0 <= k < |files| + 2
  {
    if k == 0 then [46] else if k == 1 then [46, 46] else files[k - 2].name
  }

  /** Entry k of the root as a lookup reads it, in any bytes that start with the root directory: file j has number
      j + 2 and its name cut to fourteen bytes. */
  lemma {:induction false} RootEntry(files: seq<File>, c: seq<int>, k: int)
    requires RootDir(files) <= c && 0 <= k < |files| + 2 && |files| < 0xFFFF
    ensures EntryNumber(c, k) == (if k < 2 then 1 else k) && EntryName(c, k) == Text(RootName(files, k), 14)
  {
    RootSlice(files, k);
    assert c[16 * k..16 * k + 16] == RootDir(files)[16 * k..16 * k + 16];
    hide Text, Dirent;
    DirentRead(c, k, if k < 2 then 1 else k, RootName(files, k));
  }

  lemma {:induction false} RootSlice(files: seq<File>, k: int)
    requires 0 <= k < |files| + 2
    ensures RootDir(files)[16 * k..16 * k + 16] == Dirent(if k < 2 then 1 else k, RootName(files, k))
  {
    if |files| > 0 && k < |files| + 1 {
      RootSlice(files[..|files| - 1], k);
      assert RootDir(files)[16 * k..16 * k + 16] == RootDir(files[..|files| - 1])[16 * k..16 * k + 16];
    }
  }

  /** The blocks of all the files. */
  function Room(files: seq<File>): int {
    if |files| == 0 then 0 else Room(files[..|files| - 1]) + Blocks(|files[|files| - 1].data|)
  }

  ghost predicate AllBytes(files: seq<File>) {
    forall j :: 0 <= j < |files| ==>
      IsBytes(files[j].name) && IsBytes(files[j].data) && |files[j].data| <= MAXFILE * BSIZE
  }

  /** File inum holds exactly data, and zeros up to the end of its last block. */
  ghost predicate FileIs(sb: Super, g: Image, inum: int, data: seq<int>) {
    && Tight(sb, g, inum) && g.inodes[inum].size == |data|
    && forall k :: 0 <= k < |data| ==> Shown(sb, g, inum, k) == data[k]
  }

  /** The root lists the first n files, the first k of them are written, and the inodes after these are empty. */
  ghost predicate Made(sb: Super, g: Image, files: seq<File>, n: int, k: int)
    requires 0 <= k <= n <= |files|
  {
    && |g.inodes| == sb.ninodes && FileIs(sb, g, ROOTINO, RootDir(files[..n]))
    && (forall j :: 0 <= j < k ==> FileIs(sb, g, j + 2, files[j].data))
    && (forall i :: k + 2 <= i < sb.ninodes ==> g.inodes[i] == Empty())
  }

  /** A file without holes whose bytes are data. */
  ghost predicate Holds(sb: Super, g: Image, inum: int, data: seq<int>) {
    HoleFree(sb, g, inum) && Content(sb, g, inum) == data
  }

  lemma {:induction false} FileContent(sb: Super, g: Image, inum: int, data: seq<int>)
    requires FileIs(sb, g, inum, data)
    ensures HoleFree(sb, g, inum) && Content(sb, g, inum) == data
  {
    hide Mapped, MappedUpTo, Clean;
    TightReads(sb, g, inum);
    forall k | 0 <= k < |data| ensures Content(sb, g, inum)[k] == data[k] { ShownContent(sb, g, inum, k); }
  }

  lemma {:induction false} EmptyFile(sb: Super, g: Image, inum: int)
    requires WellFormed(sb, g) && 0 <= inum < |g.inodes| && g.inodes[inum] == Empty()
    ensures FileIs(sb, g, inum, [])
  {
    assert forall m :: !Mapped(sb, g, inum, m);
  }

  lemma {:induction false} FileGrew(sb: Super, g: Image, h: Image, inum: int, c: seq<int>, p: seq<int>)
    requires FileIs(sb, g, inum, c) && Tight(sb, h, inum) && HoleFree(sb, g, inum) && HoleFree(sb, h, inum)
    requires Content(sb, h, inum) == Content(sb, g, inum) + p
    ensures FileIs(sb, h, inum, c + p)
  {
    hide Tight, HoleFree, Content, Shown;
    HoleFreeSize(sb, h, inum);
    FileContent(sb, g, inum, c);
    forall k | 0 <= k < |c + p| ensures Shown(sb, h, inum, k) == (c + p)[k] { ShownContent(sb, h, inum, k); }
  }

  lemma {:induction false} OtherFile(sb: Super, g: Image, h: Image, inum: int, i: int, data: seq<int>)
    requires OthersKept(sb, g, h, inum) && SameMaps(sb, g, h, inum) && i != inum && FileIs(sb, g, i, data)
    requires 0 <= inum < |g.inodes| && h.inodes == g.inodes[inum := h.inodes[inum]]
    ensures FileIs(sb, h, i, data)
  {
    assert Tight(sb, g, i);
    hide Tight, OthersKept, SameMaps, Shown;
    OtherTight(sb, g, h, inum, i);
    TightInside(sb, g, i);
  }

  lemma {:induction false} TightInside(sb: Super, g: Image, inum: int)
    requires Tight(sb, g, inum)
    ensures 0 <= inum < |g.inodes|
  {
  }

  /** One more entry in the root directory. */
  lemma {:induction false} EntryMade(sb: Super, g: Image, h: Image, files: seq<File>, k: int)
    requires 0 <= k < |files| && Made(sb, g, files, k, k) && |h.inodes| == |g.inodes|
    requires OthersKept(sb, g, h, ROOTINO) && SameMaps(sb, g, h, ROOTINO)
    requires ROOTINO < sb.ninodes && h.inodes == g.inodes[ROOTINO := h.inodes[ROOTINO]]
    requires FileIs(sb, h, ROOTINO, RootDir(files[..k]) + Dirent(k + 2, files[k].name))
    ensures Made(sb, h, files, k + 1, k)
  {
    hide FileIs, OthersKept, SameMaps, Dirent;
    assert files[..k + 1][..k] == files[..k];
    forall j | 0 <= j < k ensures FileIs(sb, h, j + 2, files[j].data) {
      OtherFile(sb, g, h, ROOTINO, j + 2, files[j].data);
    }
  }

  /** One more file written. */
  lemma {:induction false} FileMade(sb: Super, g: Image, h: Image, files: seq<File>, k: int)
    requires 0 <= k < |files| && Made(sb, g, files, k + 1, k) && |h.inodes| == |g.inodes|
    requires OthersKept(sb, g, h, k + 2) && SameMaps(sb, g, h, k + 2)
    requires k + 2 < sb.ninodes && h.inodes == g.inodes[k + 2 := h.inodes[k + 2]] && FileIs(sb, h, k + 2, files[k].data)
    ensures Made(sb, h, files, k + 1, k + 1)
  {
    hide FileIs, OthersKept, SameMaps, RootDir;
    OtherFile(sb, g, h, k + 2, ROOTINO, RootDir(files[..k + 1]));
    forall j | 0 <= j < k ensures FileIs(sb, h, j + 2, files[j].data) {
      OtherFile(sb, g, h, k + 2, j + 2, files[j].data);
    }
  }

  lemma {:induction false} SameMapsTrans(sb: Super, f: Image, g: Image, h: Image, inum: int)
    requires SameMaps(sb, f, g, inum) && SameMaps(sb, g, h, inum)
    ensures SameMaps(sb, f, h, inum)
  {
    hide Mapped;
  }

  lemma {:induction false} RoomMonotone(files: seq<File>, k: int)
    requires 0 <= k <= |files|
    ensures 0 <= Room(files[..k]) <= Room(files)
    decreases |files| - k
  {
    if k == |files| {
      assert files[..k] == files;
      RoomNat(files);
    } else {
      RoomMonotone(files, k + 1);
      assert files[..k + 1][..k] == files[..k];
      RoomNat(files[..k]);
    }
  }

  lemma {:induction false} RoomNat(files: seq<File>)
    ensures 0 <= Room(files)
  {
    if |files| > 0 { RoomNat(files[..|files| - 1]); }
  }

  /** What is left for file k, its entry included, when the first k are in place. */
  lemma {:induction false} RoomFor(files: seq<File>, k: int)
    requires 0 <= k < |files|
    ensures Room(files[..k + 1]) == Room(files[..k]) + Blocks(|files[k].data|)
    ensures Blocks(DIRENT * (k + 3)) + Room(files[..k]) + Blocks(|files[k].data|)
            <= Blocks(DIRENT * (|files| + 2)) + Room(files)
    ensures 0 <= Blocks(DIRENT * (k + 2)) <= Blocks(DIRENT * (k + 3)) && 0 <= Blocks(|files[k].data|)
  {
    hide Blocks;
    assert files[..k + 1][..k] == files[..k];
    RoomMonotone(files, k + 1);
    BlocksMonotone(DIRENT * (k + 2), DIRENT * (k + 3));
    BlocksMonotone(DIRENT * (k + 3), DIRENT * (|files| + 2));
    BlocksMonotone(0, |files[k].data|);
  }

  lemma {:induction false} Finished(sb: Super, g: Image, h: Image, k: Image, files: seq<File>)
    requires Made(sb, g, files, |files|, |files|) && WellFormed(sb, g) && ROOTINO < sb.ninodes
    requires |files| <= sb.ninodes - 2
    requires OthersKept(sb, g, h, ROOTINO) && SameMaps(sb, g, h, ROOTINO)
    requires h.inodes == g.inodes[ROOTINO := h.inodes[ROOTINO]] && k.inodes == h.inodes
    requires forall x :: 0 <= x ==> Shown(sb, h, ROOTINO, x) == Shown(sb, g, ROOTINO, x)
    requires forall m :: Mapped(sb, h, ROOTINO, m) <==> Mapped(sb, g, ROOTINO, m)
    requires Extends(sb, h, k) && forall i, m :: Mapped(sb, k, i, m) <==> Mapped(sb, h, i, m)
    ensures forall j :: 0 <= j < |files| ==> Holds(sb, k, j + 2, files[j].data)
    ensures g.inodes[ROOTINO].size == DIRENT * (|files| + 2)
    ensures forall x :: 0 <= x ==>
              Shown(sb, k, ROOTINO, x) == if x < DIRENT * (|files| + 2) then RootDir(files)[x] else 0
    ensures HoleFree(sb, k, ROOTINO) <==> HoleFree(sb, h, ROOTINO)
    ensures forall m :: 0 <= m && m * BSIZE < DIRENT * (|files| + 2) ==> Mapped(sb, k, ROOTINO, m)
  {
    hide Addr, BlockOf, Mapped, OthersKept, SameMaps, RootDir, Content;
    assert files[..|files|] == files;
    forall j | 0 <= j < |files| ensures Holds(sb, k, j + 2, files[j].data) {
      OtherFile(sb, g, h, ROOTINO, j + 2, files[j].data);
      FileContent(sb, h, j + 2, files[j].data);
      ExtendsContent(sb, h, k, j + 2);
    }
    ShownSame(sb, h, k, ROOTINO);
  }

  class Mkfs {
    const sb: Super
    var g: Image
    var freeblock: int
    var freeinode: int
    ghost var owner: map<int, Slot>

    /** The blocks handed out so far are the ones the inodes own; the rest, and the bitmap, are zero. The superblock is
        in block 1. */
    ghost predicate Valid()
      reads this
    {
      && Structure(sb, g, owner) && sb.nmeta <= freeblock <= sb.size
      && (forall b :: b in owner <==> sb.nmeta <= b < freeblock)
      && (forall b :: freeblock <= b < sb.size || sb.bmapstart <= b < sb.nmeta ==> g.blocks[b] == Zero())
      && g.blocks[1] == SuperBlock(sb)
    }

    /** main, before any file: every sector zero but the superblock's, and so every inode empty. */
    constructor (sb: Super)
      requires sb.Ok()
      ensures this.sb == sb && Valid() && Synced(sb, g) && freeblock == sb.nmeta && freeinode == ROOTINO
      ensures forall i :: 0 <= i < sb.ninodes ==> g.inodes[i] == Empty()
    {
      hide SuperBlock, Word, InodeAt;
      this.sb := sb;
      g := Image(seq(sb.size, i => if i == 1 then SuperBlock(sb) else Zero()), seq(sb.ninodes, _ => Empty()));
      freeblock, freeinode := sb.nmeta, ROOTINO;
      owner := map[];
      new;
      SuperRead(sb);
      ZeroBlock();
      SyncedStart(sb, g);
    }

    /** winode: the inode's bytes in its block; no file changes, and no other inode. */
    method Winode(inum: int)
      requires Valid() && 0 <= inum < sb.ninodes && 0 <= g.inodes[inum].size < UINT
      modifies this`g
      ensures Valid() && SameView(sb, old(g), g) && InodePut(sb, old(g).blocks, g.blocks, inum, g.inodes[inum])
      ensures g.inodes == old(g.inodes) && |g.blocks| == |old(g).blocks| && WellFormed(sb, g)
      ensures DiskInode(sb, old(g).blocks, inum) == old(g.inodes[inum]) ==> g == old(g)
    {
      hide SuperBlock, SameView, InodeAt, PutInode, Addr;
      var bn := sb.IBlock(inum);
      WellFormedReadable(sb, g);
      InodeWords(sb, g, inum);
      InodeStored(sb, g.blocks, inum, g.inodes[inum],
                  g.blocks[bn := PutInode(g.blocks[bn], inum % IPB, g.inodes[inum])]);
      PutMeta(sb, g, owner, bn, PutInode(g.blocks[bn], inum % IPB, g.inodes[inum]));
      InodeRewritten(g.blocks[bn], inum % IPB);
      g := g.(blocks := g.blocks[bn := PutInode(g.blocks[bn], inum % IPB, g.inodes[inum])]);
    }

    /** din.addrs[i] = freeblock++ */
    method TakeEntry(inum: int, i: int) returns (b: int)
      requires Valid() && 0 <= inum < sb.ninodes && 0 <= i <= NDIRECT && g.inodes[inum].addrs[i] == 0
      requires freeblock < sb.size
      modifies this`g, this`freeblock, this`owner
      ensures Valid() && Grown(sb, old(g), old(owner), g, owner, Direct(inum, i), b) && b != 0
      ensures b == old(freeblock) && freeblock == b + 1 && MetaKept(sb, old(g).blocks, g.blocks)
      ensures g.inodes == old(g.inodes)[inum := old(g.inodes[inum]).(addrs := old(g.inodes[inum].addrs)[i := b])]
    {
      hide Word, Addr, Extends;
      b := freeblock;
      assert i == NDIRECT ==> forall j :: 0 <= j < NINDIRECT ==> Word(g.blocks[b], j) == 0 by { ZeroBlock(); }
      ghost var h := PutAddr(g, inum, i, b);
      AssignDirect(sb, g, owner, inum, i, b, h);
      EntryAddr(sb, h, inum, i);
      g := g.(inodes := g.inodes[inum := g.inodes[inum].(addrs := g.inodes[inum].addrs[i := b])]);
      owner := owner[b := Direct(inum, i)];
      freeblock := freeblock + 1;
    }

    /** indirect[j] = freeblock++ */
    method TakeWord(inum: int, j: int) returns (b: int)
      requires Valid() && 0 <= inum < sb.ninodes && 0 <= j < NINDIRECT && freeblock < sb.size
      requires g.inodes[inum].addrs[NDIRECT] != 0 && Addr(sb, g, Via(inum, j)) == 0
      modifies this`g, this`freeblock, this`owner
      ensures Valid() && Grown(sb, old(g), old(owner), g, owner, Via(inum, j), b) && b != 0
      ensures b == old(freeblock) && freeblock == b + 1 && g.inodes == old(g.inodes)
      ensures MetaKept(sb, old(g).blocks, g.blocks)
    {
      hide Word, Extends, PutWord;
      var ind := g.inodes[inum].addrs[NDIRECT];
      b := freeblock;
      ghost var h := PutBlock(g, ind, PutWord(g.blocks[ind], j, b));
      IndirectOwned(sb, g, owner);
      AssignVia(sb, g, owner, inum, j, b, h);
      g := g.(blocks := g.blocks[ind := PutWord(g.blocks[ind], j, b)]);
      owner := owner[b := Via(inum, j)];
      freeblock := freeblock + 1;
    }

    /** The block of iappend's loop that finds or takes the sector for file block bn. */
    method MapBlock(inum: int, bn: int) returns (x: int)
      requires Valid() && 0 <= inum < sb.ninodes && 0 <= bn < MAXFILE
      requires !Mapped(sb, g, inum, bn) ==>
        freeblock + 1 + (if bn < NDIRECT || g.inodes[inum].addrs[NDIRECT] != 0 then 0 else 1) <= sb.size
      modifies this`g, this`freeblock, this`owner
      ensures Valid() && BlockMapped(sb, old(g), old(owner), g, owner, inum, bn, x) && x != 0
      ensures MetaKept(sb, old(g).blocks, g.blocks)
      ensures freeblock == old(freeblock) + (if Mapped(sb, old(g), inum, bn) then 0 else 1)
                           + |Indirect(g, inum)| - |Indirect(old(g), inum)|
      ensures g.inodes == old(g.inodes)[inum := g.inodes[inum]]
      ensures g.inodes[inum].addrs[NDIRECT] != 0 <==> old(g.inodes[inum].addrs[NDIRECT]) != 0 || bn >= NDIRECT
    {
      ghost var g0, o0 := g, owner;
      if bn < NDIRECT {
        x := g.inodes[inum].addrs[bn];
        if x == 0 {
          x := TakeEntry(inum, bn);
          hide BlockMapped, Word;
          GrowthMaps(sb, g0, o0, g, owner, inum, bn, x);
        } else {
          hide BlockMapped, Word;
          LookupMaps(sb, g, owner, {}, inum, bn, x);
        }
      } else {
        x := MapIndirect(inum, bn);
      }
    }

    method MapIndirect(inum: int, bn: int) returns (x: int)
      requires Valid() && 0 <= inum < sb.ninodes && NDIRECT <= bn < MAXFILE
      requires !Mapped(sb, g, inum, bn) ==>
                 freeblock + 1 + (if g.inodes[inum].addrs[NDIRECT] != 0 then 0 else 1) <= sb.size
      modifies this`g, this`freeblock, this`owner
      ensures Valid() && BlockMapped(sb, old(g), old(owner), g, owner, inum, bn, x) && x != 0
      ensures MetaKept(sb, old(g).blocks, g.blocks)
      ensures freeblock == old(freeblock) + (if Mapped(sb, old(g), inum, bn) then 0 else 1)
                           + |Indirect(g, inum)| - |Indirect(old(g), inum)|
      ensures g.inodes == old(g.inodes)[inum := g.inodes[inum]]
      ensures g.inodes[inum].addrs[NDIRECT] != 0 <==> old(g.inodes[inum].addrs[NDIRECT]) != 0 || bn >= NDIRECT
    {
      if g.inodes[inum].addrs[NDIRECT] == 0 {
        ghost var g0, o0 := g, owner;
        var ind := TakeEntry(inum, NDIRECT);
        ghost var g1, o1 := g, owner;
        FreshIndirect(sb, g0, o0, g1, o1, inum, bn, ind);
        x := MapWord(inum, bn);
        hide BlockMapped, Word;
        AfterIndirect(sb, g0, o0, g1, o1, g, owner, inum, bn, ind, x);
      } else {
        x := MapWord(inum, bn);
      }
    }

    method MapWord(inum: int, bn: int) returns (x: int)
      requires Valid() && 0 <= inum < sb.ninodes && NDIRECT <= bn < MAXFILE && g.inodes[inum].addrs[NDIRECT] != 0
      requires !Mapped(sb, g, inum, bn) ==> freeblock + 1 <= sb.size
      modifies this`g, this`freeblock, this`owner
      ensures Valid() && BlockMapped(sb, old(g), old(owner), g, owner, inum, bn, x) && x != 0
      ensures MetaKept(sb, old(g).blocks, g.blocks)
      ensures freeblock == old(freeblock) + if Mapped(sb, old(g), inum, bn) then 0 else 1
      ensures g.inodes == old(g.inodes)
    {
      x := Word(g.blocks[g.inodes[inum].addrs[NDIRECT]], bn - NDIRECT);
      if x == 0 {
        ghost var g0, o0 := g, owner;
        x := TakeWord(inum, bn - NDIRECT);
        hide BlockMapped, Word;
        GrowthMaps(sb, g0, o0, g, owner, inum, bn, x);
      } else {
        hide BlockMapped, Word;
        LookupMaps(sb, g, owner, {}, inum, bn, x);
      }
    }

    /** One turn of iappend's loop. */
    method AppendPiece(inum: int, off: int, piece: seq<int>, ghost f: Image, ghost c: seq<int>, ghost w: seq<int>)
      requires Valid() && 0 <= inum < sb.ninodes && Written(sb, f, g, inum, c, |c|, w) && off == |c| + |w|
      requires off / BSIZE < MAXFILE && 0 < |piece| <= BSIZE - off % BSIZE && IsBytes(piece)
      requires MappedUpTo(sb, g, inum, off) && SameMaps(sb, f, g, inum) && Clean(sb, g, inum, off)
      requires g.inodes[inum].addrs[NDIRECT] != 0 <==> off > NDIRECT * BSIZE
      requires freeblock + Blocks(off + |piece|) - Blocks(off) <= sb.size
      modifies this`g, this`freeblock, this`owner
      ensures Valid() && Written(sb, f, g, inum, c, |c|, w + piece) && MetaKept(sb, old(g).blocks, g.blocks)
      ensures MappedUpTo(sb, g, inum, off + |piece|) && SameMaps(sb, f, g, inum) && Clean(sb, g, inum, off + |piece|)
      ensures freeblock == old(freeblock) + Blocks(off + |piece|) - Blocks(off)
      ensures g.inodes == old(g.inodes)[inum := g.inodes[inum]]
      ensures g.inodes[inum].addrs[NDIRECT] != 0 <==> off + |piece| > NDIRECT * BSIZE
    {
      hide Written, BlockMapped, MappedUpTo, SameMaps, Clean, Mapped, Addr, Extends, Full, Blocks, SuperBlock, Overlay;
      hide MetaKept, IsBytes;
      ghost var h, o := g, owner;
      BlocksTurn(off, |piece|);
      StartsMapped(sb, g, inum, off);
      var x := MapBlock(inum, off / BSIZE);
      UseMapped(sb, h, o, g, owner, inum, off / BSIZE, x);
      var data := Overlay(g.blocks[x], off % BSIZE, piece);
      Appended(sb, f, h, o, g, owner, PutBlock(g, x, data), inum, c, w, off, piece, x);
      MetaKeptPut(sb, h.blocks, g.blocks, x, data);
      g := g.(blocks := g.blocks[x := data]);
    }

    /** iappend: p goes to the end of the file; the other files, and the blocks they map, stay. Exactly the blocks
        the file needs are handed out, and they are there to be had. */
    method Iappend(inum: int, p: seq<int>)
      requires Valid() && 0 <= inum < sb.ninodes && Tight(sb, g, inum) && IsBytes(p) && Synced(sb, g)
      requires g.inodes[inum].size + |p| <= MAXFILE * BSIZE
      requires freeblock + Blocks(g.inodes[inum].size + |p|) - Blocks(g.inodes[inum].size) <= sb.size
      modifies this`g, this`freeblock, this`owner
      ensures Valid() && Tight(sb, g, inum) && OthersKept(sb, old(g), g, inum) && SameMaps(sb, old(g), g, inum)
      ensures HoleFree(sb, old(g), inum) && HoleFree(sb, g, inum) && Synced(sb, g)
      ensures Content(sb, g, inum) == Content(sb, old(g), inum) + p
      ensures freeblock == old(freeblock) + Blocks(g.inodes[inum].size) - Blocks(old(g.inodes[inum].size))
      ensures g.inodes == old(g.inodes)[inum := g.inodes[inum]]
    {
      hide Written, BlockMapped, Content, HoleFree, Splice, MappedUpTo, SameMaps, Clean, Mapped, Addr, Extends;
      hide OthersKept, Blocks, Tight, Visible, MapKept, SuperBlock, Synced, SameView, InodePut;
      TightReads(sb, g, inum);
      ghost var f, c := g, Content(sb, g, inum);
      var tot, off := 0, g.inodes[inum].size;
      while tot < |p|
        invariant 0 <= tot <= |p| && off == |c| + tot && Valid() && Written(sb, f, g, inum, c, |c|, p[..tot])
        invariant MappedUpTo(sb, g, inum, off) && SameMaps(sb, f, g, inum) && Clean(sb, g, inum, off)
        invariant WellFormed(sb, g) && MetaKept(sb, f.blocks, g.blocks)
        invariant freeblock == old(freeblock) + Blocks(off) - Blocks(|c|)
        invariant g.inodes == f.inodes[inum := g.inodes[inum]]
        invariant g.inodes[inum].addrs[NDIRECT] != 0 <==> off > NDIRECT * BSIZE
      {
        var n1 := if |p| - tot < BSIZE - off % BSIZE then |p| - tot else BSIZE - off % BSIZE;
        BlocksMonotone(off + n1, |c| + |p|);
        assert p[..tot] + p[tot..tot + n1] == p[..tot + n1];
        AppendPiece(inum, off, p[tot..tot + n1], f, c, p[..tot]);
        tot, off := tot + n1, off + n1;
      }
      assert p[..tot] == p;
      ghost var h := g;
      g := g.(inodes := g.inodes[inum := g.inodes[inum].(size := off)]);
      WrittenSize(sb, f, h, owner, inum, c, |c|, p, |p|, g);
      VisibleContent(sb, g, inum);
      AppendedSize(sb, f, h, g, owner, inum, c, p);
      h := g;
      Winode(inum);
      ViewTight(sb, h, g, inum);
      ViewMaps(sb, f, h, g, inum);
      SyncedAfter(sb, f, h, g, inum);
    }

    /** main's last change to the root directory: round its size up past the last block boundary. The file
        is without holes afterwards exactly when its size was not a multiple of the block size. */
    method FixRoot(inum: int)
      requires Valid() && 0 <= inum < sb.ninodes && Tight(sb, g, inum) && Synced(sb, g)
      modifies this`g
      ensures Valid() && OthersKept(sb, old(g), g, inum) && SameMaps(sb, old(g), g, inum) && Synced(sb, g)
      ensures var i := old(g.inodes[inum]);
              g.inodes == old(g.inodes)[inum := i.(size := (i.size / BSIZE + 1) * BSIZE)]
      ensures HoleFree(sb, g, inum) <==> old(g).inodes[inum].size % BSIZE != 0
      ensures forall k :: 0 <= k ==> Shown(sb, g, inum, k) == Shown(sb, old(g), inum, k)
      ensures forall m :: Mapped(sb, g, inum, m) <==> Mapped(sb, old(g), inum, m)
    {
      hide Addr, Word;
      ghost var h := g;
      var off := g.inodes[inum].size;
      g := g.(inodes := g.inodes[inum := g.inodes[inum].(size := (off / BSIZE + 1) * BSIZE)]);
      SizeOnly(sb, h, g, owner, inum);
      RoundedUp(sb, h, g, inum);
      ShownSame(sb, h, g, inum);
      ghost var k := g;
      Winode(inum);
      ViewKept(sb, k, g, inum);
      ViewMaps(sb, h, k, g, inum);
      SyncedAfter(sb, h, k, g, inum);
    }

    /** balloc: mark the first `used` blocks in the bitmap. The image then obeys the conservation law. */
    method Balloc(used: int)
      requires Valid() && used == freeblock < BPB && Synced(sb, g)
      modifies this`g
      ensures Conserved(sb, g, owner) && Extends(sb, old(g), g) && g.inodes == old(g.inodes) && Synced(sb, g)
      ensures g.blocks[1] == SuperBlock(sb)
      ensures forall i, m :: Mapped(sb, g, i, m) <==> Mapped(sb, old(g), i, m)
    {
      hide BlockBit, SetBit, Word, Addr;
      var buf := Zero();
      ZeroBits();
      var i := 0;
      while i < used
        invariant 0 <= i <= used && IsBlock(buf) && g == old(g)
        invariant forall j :: 0 <= j < BPB ==> (BlockBit(buf, j) <==> j < i)
      {
        SetBitBits(buf, i);
        buf := SetBit(buf, i);
        i := i + 1;
      }
      BitmapWritten(sb, g, owner, freeblock, buf);
      g := g.(blocks := g.blocks[sb.bmapstart := buf]);
      SyncedKept(sb, old(g), g);
    }

    /** ialloc: the next inode, which is still empty. */
    method Ialloc() returns (inum: int)
      requires Valid() && 0 <= freeinode < sb.ninodes && g.inodes[freeinode] == Empty() && Synced(sb, g)
      modifies this`g, this`freeinode
      ensures Valid() && inum == old(freeinode) && freeinode == inum + 1 && g == old(g)
    {
      inum, freeinode := freeinode, freeinode + 1;
      g := g.(inodes := g.inodes[inum := Empty()]);
      assert g.inodes == old(g.inodes);
      Winode(inum);
    }

    /** The root's inode, and its entries for itself. */
    method Start(files: seq<File>)
      requires Valid() && 2 < sb.ninodes && sb.nmeta < sb.size && freeblock == sb.nmeta && freeinode == ROOTINO
      requires Synced(sb, g) && forall i :: 0 <= i < sb.ninodes ==> g.inodes[i] == Empty()
      modifies this`g, this`freeblock, this`owner, this`freeinode
      ensures Valid() && Made(sb, g, files, 0, 0) && freeinode == 2 && Synced(sb, g)
      ensures freeblock == sb.nmeta + Blocks(DIRENT * 2) + Room(files[..0])
    {
      hide FileIs, OthersKept, SameMaps;
      var root := Ialloc();
      EmptyFile(sb, g, root);
      AppendEntry(root, [46], []);
      AppendEntry(root, [46, 46], [] + Dirent(ROOTINO, [46]));
      assert RootDir(files[..0]) == [] + Dirent(ROOTINO, [46]) + Dirent(ROOTINO, [46, 46]);
    }

    /** main's last two steps: the root's size, and the bitmap. */
    method Finish(files: seq<File>)
      requires Valid() && ROOTINO < sb.ninodes && |files| <= sb.ninodes - 2 && Made(sb, g, files, |files|, |files|)
      requires freeblock < BPB && Synced(sb, g)
      modifies this`g
      ensures Conserved(sb, g, owner) && Synced(sb, g) && g.blocks[1] == SuperBlock(sb)
      ensures forall j :: 0 <= j < |files| ==> Holds(sb, g, j + 2, files[j].data)
      ensures g.inodes[ROOTINO].size == (DIRENT * (|files| + 2) / BSIZE + 1) * BSIZE
      ensures forall k :: 0 <= k ==>
                Shown(sb, g, ROOTINO, k) == if k < DIRENT * (|files| + 2) then RootDir(files)[k] else 0
      ensures HoleFree(sb, g, ROOTINO) <==> DIRENT * (|files| + 2) % BSIZE != 0
      ensures forall m :: 0 <= m && m * BSIZE < DIRENT * (|files| + 2) ==> Mapped(sb, g, ROOTINO, m)
    {
      hide Conserved, Extends, OthersKept, SameMaps, HoleFree, Shown, Mapped, RootDir, Marked, Holds;
      ghost var h := g;
      FixRoot(ROOTINO);
      ghost var h1 := g;
      Balloc(freeblock);
      Finished(sb, h, h1, g, files);
    }

    /** main's loop over one input file: a buffer at a time. */
    method AppendFile(inum: int, data: seq<int>)
      requires Valid() && 0 <= inum < sb.ninodes && FileIs(sb, g, inum, []) && IsBytes(data) && Synced(sb, g)
      requires |data| <= MAXFILE * BSIZE && freeblock + Blocks(|data|) <= sb.size
      modifies this`g, this`freeblock, this`owner
      ensures Valid() && FileIs(sb, g, inum, data) && OthersKept(sb, old(g), g, inum) && SameMaps(sb, old(g), g, inum)
      ensures freeblock == old(freeblock) + Blocks(|data|) && g.inodes == old(g.inodes)[inum := g.inodes[inum]]
      ensures Synced(sb, g)
    {
      hide SuperBlock, Synced;
      ghost var f := g;
      OthersRefl(sb, g, inum);
      var at := 0;
      while at < |data|
        invariant 0 <= at <= |data| && Valid() && FileIs(sb, g, inum, data[..at]) && Synced(sb, g)
        invariant OthersKept(sb, f, g, inum) && SameMaps(sb, f, g, inum)
        invariant freeblock == old(freeblock) + Blocks(at) && g.inodes == f.inodes[inum := g.inodes[inum]]
      {
        hide Blocks, Tight, OthersKept, SameMaps, HoleFree, Content, Shown;
        var cc := if |data| - at < BSIZE then |data| - at else BSIZE;
        ghost var h := g;
        BlocksMonotone(at + cc, |data|);
        assert data[..at] + data[at..at + cc] == data[..at + cc];
        Iappend(inum, data[at..at + cc]);
        FileGrew(sb, h, g, inum, data[..at], data[at..at + cc]);
        OthersTrans(sb, f, h, g, inum);
        SameMapsTrans(sb, f, h, g, inum);
        at := at + cc;
      }
      assert data[..at] == data;
    }

    /** One more entry at the end of the root directory. */
    method AppendEntry(inum: int, name: seq<int>, ghost d: seq<int>)
      requires Valid() && ROOTINO < sb.ninodes && FileIs(sb, g, ROOTINO, d) && IsBytes(name) && Synced(sb, g)
      requires |d| + DIRENT <= MAXFILE * BSIZE && freeblock + Blocks(|d| + DIRENT) - Blocks(|d|) <= sb.size
      modifies this`g, this`freeblock, this`owner
      ensures Valid() && FileIs(sb, g, ROOTINO, d + Dirent(inum, name)) && Synced(sb, g)
      ensures OthersKept(sb, old(g), g, ROOTINO) && SameMaps(sb, old(g), g, ROOTINO)
      ensures freeblock == old(freeblock) + Blocks(|d| + DIRENT) - Blocks(|d|)
      ensures g.inodes == old(g.inodes)[ROOTINO := g.inodes[ROOTINO]]
    {
      hide Blocks, Tight, OthersKept, SameMaps, HoleFree, Content, Shown, SuperBlock, Synced;
      ghost var h := g;
      Iappend(ROOTINO, Dirent(inum, name));
      FileGrew(sb, h, g, ROOTINO, d, Dirent(inum, name));
    }

    /** main's loop over the arguments, for one file. */
    method AddFile(files: seq<File>, k: int)
      requires Valid() && 0 <= k < |files| <= sb.ninodes - 2 && Made(sb, g, files, k, k) && freeinode == k + 2
      requires Synced(sb, g)
      requires AllBytes(files) && DIRENT * (|files| + 2) <= MAXFILE * BSIZE
      requires sb.nmeta + Blocks(DIRENT * (|files| + 2)) + Room(files) <= sb.size
      requires freeblock == sb.nmeta + Blocks(DIRENT * (k + 2)) + Room(files[..k])
      modifies this`g, this`freeblock, this`owner, this`freeinode
      ensures Valid() && Made(sb, g, files, k + 1, k + 1) && freeinode == k + 3 && Synced(sb, g)
      ensures freeblock == sb.nmeta + Blocks(DIRENT * (k + 3)) + Room(files[..k + 1])
    {
      hide Blocks, Room, FileIs, OthersKept, SameMaps, SuperBlock, Synced;
      RoomFor(files, k);
      var inum := Ialloc();
      ghost var h := g;
      AppendEntry(inum, files[k].name, RootDir(files[..k]));
      EntryMade(sb, h, g, files, k);
      ghost var h1 := g;
      EmptyFile(sb, g, inum);
      AppendFile(inum, files[k].data);
      FileMade(sb, h1, g, files, k);
    }
  }

  /** main: the image of a list of files. The bitmap agrees with the inodes, every file holds its bytes, and the
      root lists them and shows zeros after its last entry. The root is left with a hole exactly when its entries fill
      their blocks. */
  method Build(files: seq<File>) returns (m: Mkfs)
    requires AllBytes(files) && |files| + 2 <= NINODES && NMETA + Blocks(DIRENT * (|files| + 2)) + Room(files) <= FSSIZE
    ensures fresh(m) && m.sb == Layout() && Conserved(m.sb, m.g, m.owner)
    ensures Mountable(m.g.blocks, m.owner) && ReadSuper(m.g.blocks[1]) == m.sb
    ensures Dinodes(m.sb, m.g.blocks) == m.g.inodes
    ensures forall j :: 0 <= j < |files| ==> Holds(m.sb, m.g, j + 2, files[j].data)
    ensures m.g.inodes[ROOTINO].size == (DIRENT * (|files| + 2) / BSIZE + 1) * BSIZE
    ensures forall k :: 0 <= k ==>
              Shown(m.sb, m.g, ROOTINO, k) == if k < DIRENT * (|files| + 2) then RootDir(files)[k] else 0
    ensures HoleFree(m.sb, m.g, ROOTINO) <==> DIRENT * (|files| + 2) % BSIZE != 0
    ensures forall k :: 0 <= k && k * BSIZE < DIRENT * (|files| + 2) ==> Mapped(m.sb, m.g, ROOTINO, k)
  {
    hide Blocks, Room, FileIs, Made, Conserved, RootDir, AllBytes, Shown, Holds, HoleFree, Mkfs.Valid, Synced;
    hide SuperBlock, Mountable, ReadSuper;
    LayoutOk();
    m := new Mkfs(Layout());
    m.Start(files);
    var k := 0;
    while k < |files|
      invariant 0 <= k <= |files| && fresh(m) && m.sb == Layout() && m.Valid() && m.freeinode == k + 2
      invariant Made(m.sb, m.g, files, k, k) && Synced(m.sb, m.g)
      invariant m.freeblock == NMETA + Blocks(DIRENT * (k + 2)) + Room(files[..k])
    {
      m.AddFile(files, k);
      k := k + 1;
    }
    assert files[..k] == files;
    m.Finish(files);
    MountsAs(m.sb, m.g, m.owner);
  }

  lemma {:induction false} NoData(files: seq<File>)
    requires forall j :: 0 <= j < |files| ==> files[j].data == []
    ensures Room(files) == 0
  {
    if |files| > 0 { NoData(files[..|files| - 1]); }
  }

  /** Sixty-two files fill the root's first block, and the root is left with a second block that is a hole. */
  method RootHole() returns (m: Mkfs)
    ensures m.sb == Layout() && Conserved(m.sb, m.g, m.owner)
    ensures m.g.inodes[ROOTINO].size == 2 * BSIZE && !HoleFree(m.sb, m.g, ROOTINO)
  {
    hide Conserved, HoleFree, Shown, RootDir, Holds, Room;
    var files := seq(62, _ => File([120], []));
    NoData(files);
    m := Build(files);
  }
}
