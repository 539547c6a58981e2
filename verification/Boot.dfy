/** The image mkfs builds, mounted: what its layout means for the log, and a write that fails half way. */
module Boot {
  import opened Params
  import opened Common
  import opened Bytes
  import opened FsImage
  import opened FsSteps
  import opened FileBytes
  import opened Dirs
  import opened LogRuns
  import Recovery
  import Mkfs
  import Fs

  /** The log that initlog takes from the superblock. */
  function LogOf(sb: Super): Recovery.Layout { Recovery.Layout(sb.logstart, sb.nlog) }

  const LOG := LogOf(Mkfs.Layout())

  /** What log_write demands of a block: on the disk, and not in the log itself. */
  ghost predicate Loggable(sb: Super, t: set<int>) {
    forall b :: b in t ==> 0 <= b < sb.size && !LogOf(sb).InLog(b)
  }

  /** Whatever writei, itrunc and filewrite give to log_write is loggable, on every layout that the kernel accepts,
      and so is what bmap, readi and dirlookup give it. */
  lemma {:induction false} HomesLoggable(sb: Super, l: set<int>, m: set<int>)
    requires sb.Ok() && HomeBlocks(sb, l, m)
    ensures Loggable(sb, m - l) && LogOf(sb).Fits(sb.size) == (0 < sb.nlog)
  {
  }

  lemma {:induction false} DataLoggable(sb: Super, f: seq<ByteBlock>, g: seq<ByteBlock>, l: set<int>, m: set<int>)
    requires sb.Ok() && DataOnly(sb, f, g, l, m)
    ensures Loggable(sb, m - l) && HomeBlocks(sb, l, m)
  {
  }

  /** filewrite on an image with mkfs's layout: the blocks that change and the blocks of the bytes written are in its
      transactions, none of which has more than seven blocks or a block of the log, and operations that log no
      more than any of them never meet "too big a transaction", in any run on mkfs's log. */
  method WriteFits(fs: Fs.Fs, inum: int, src: seq<int>, off: int, n: int) returns (ret: int)
    requires fs.Valid() && fs.sb == Mkfs.Layout() && 0 <= inum < fs.sb.ninodes
    requires 0 <= fs.g.inodes[inum].size <= MAXFILE * BSIZE
    requires 0 <= off < UINT && n < UINT / 2 && (|src| <= n || src == []) && IsBytes(src)
    modifies fs
    ensures fs.Valid() && (ret == n || ret == -1) && old(fs.txns) <= fs.txns && 0 <= fs.g.inodes[inum].size
    ensures ret == n && n > 0 ==>
      && |src| == n && off <= old(fs.g).inodes[inum].size
      && Visible(fs.sb, fs.g, inum) == Splice(Visible(fs.sb, old(fs.g), inum), off, src)
      && Recorded(fs.sb, old(fs.g), fs.g, inum, off, off + n, Union(fs.txns[|old(fs.txns)|..]), {})
    ensures ret == -1 && n >= 0 ==>
      |src| < n || off > old(fs.g).inodes[inum].size || off + n > MAXFILE * BSIZE || Full(fs.sb, fs.g)
    ensures ret == -1 ==> Covered(old(fs.g).blocks, fs.g.blocks, Union(fs.txns[|old(fs.txns)|..]) + fs.unlogged)
    ensures fs.g.inodes != old(fs.g).inodes ==> fs.sb.IBlock(inum) in Union(fs.txns[|old(fs.txns)|..])
    ensures forall i :: |old(fs.txns)| <= i < |fs.txns| ==> |fs.txns[i]| <= 7 < MAXOPBLOCKS && NeverPanics(|fs.txns[i]|)
    ensures forall i :: |old(fs.txns)| <= i < |fs.txns| ==> Loggable(fs.sb, fs.txns[i])
  {
    hide Conserved, NeverPanics, HoleFree, Visible, OthersKept, Full, Splice, Recorded, Covered, Union, Stored, Stopped;
    hide Loggable;
    Mkfs.LayoutOk();
    ConservedWellFormed(fs.sb, fs.g, fs.owner);
    var pos;
    ghost var w;
    ret, pos, w := fs.Filewrite(inum, src, off, n);
    forall i | |old(fs.txns)| <= i < |fs.txns|
      ensures |fs.txns[i]| <= 7 && NeverPanics(|fs.txns[i]|) && Loggable(fs.sb, fs.txns[i])
    {
      assert ChunkOk(fs.sb, HoleFree(fs.sb, old(fs.g), inum), fs.txns[|old(fs.txns)|..][i - |old(fs.txns)|]);
      Fits(|fs.txns[i]|);
      HomesLoggable(fs.sb, {}, fs.txns[i]);
      assert fs.txns[i] - {} == fs.txns[i];
    }
  }

  /** No run on mkfs's log in which operations add at most that many blocks each panics. */
  ghost predicate NeverPanics(budget: nat) {
    forall ss: seq<State>, es, i :: IsRun(LOG, budget, ss, es) && 0 <= i < |ss| ==> !ss[i].phase.Panicked?
  }

  lemma {:induction false} Fits(budget: nat)
    requires budget < MAXOPBLOCKS
    ensures NeverPanics(budget)
  {
    hide IsRun;
    forall ss: seq<State>, es, i | IsRun(LOG, budget, ss, es) && 0 <= i < |ss| ensures !ss[i].phase.Panicked? {
      NoPanic(LOG, budget, ss, es, i);
    }
  }

  /** A two-byte file, and a write of two bytes of which only the first can be read from the user: the call reports
      that nothing was written, the file has changed, and the block that changed is not in the log. */
  method FailedCopy() returns (fs: Fs.Fs, r: int)
    ensures fs.Valid() && r == 0
    ensures HoleFree(fs.sb, fs.g, 2) && Content(fs.sb, fs.g, 2) == [7, 2]
    ensures Mapped(fs.sb, fs.g, 2, 0) && Addr(fs.sb, fs.g, SlotOf(2, 0)) in fs.unlogged
  {
    hide Conserved, HoleFree, Content, Shown, Mapped, Addr, Mkfs.RootDir;
    hide OthersKept, Full, Mkfs.Room, Visible, Recorded, Mountable, InodePut;
    var files := [Mkfs.File([120], [1, 2])];
    OneFile(files[0]);
    var m := Mkfs.Build(files);
    assert Mkfs.Holds(m.sb, m.g, 0 + 2, files[0].data);
    fs := new Fs.Fs(m.g.blocks, m.owner);
    assert fs.g == m.g;
    HoleFreeSize(fs.sb, fs.g, 2);
    VisibleContent(fs.sb, fs.g, 2);
    ghost var w;
    r, w := fs.Writei(2, [7], 0, 2);
    VisibleContent(fs.sb, fs.g, 2);
    assert w == [7] && Splice([1, 2], 0, [7]) == [7, 2];
  }

  lemma {:induction false} OneFile(f: Mkfs.File)
    ensures Mkfs.Room([f]) == Mkfs.Blocks(|f.data|)
  {
    assert [f][..0] == [];
  }

  /** The image of a list of files, mounted, and the lookup of one of them in the root: the kernel finds the inode that
      mkfs gave the file, unless an earlier entry has the same first fourteen bytes. */
  method FindFile(files: seq<Mkfs.File>, j: int) returns (fs: Fs.Fs, l: Lookup)
    requires Mkfs.AllBytes(files) && |files| + 2 <= Mkfs.NINODES && 0 <= j < |files|
    requires Mkfs.NMETA + Mkfs.Blocks(DIRENT * (|files| + 2)) + Mkfs.Room(files) <= FSSIZE
    requires forall k :: 0 <= k < j + 2 ==> Text(Mkfs.RootName(files, k), 14) != Text(files[j].name, 14)
    ensures fs.Valid() && l == Found(j + 2, 16 * (j + 2))
    ensures HoleFree(fs.sb, fs.g, j + 2) && Content(fs.sb, fs.g, j + 2) == files[j].data
  {
    hide Conserved, HoleFree, Content, Shown, Mapped, Addr, Mkfs.RootDir, Mkfs.RootName, Text, Mkfs.Holds, Extends;
    hide Full, Mkfs.Room, Mkfs.Blocks, Visible, Mountable, Covered, DataOnly, ZeroGrowth, Names, EntryNumber, NoneNames;
    var m := Mkfs.Build(files);
    fs := new Fs.Fs(m.g.blocks, m.owner);
    assert fs.g == m.g;
    ghost var f := fs.g;
    ConservedWellFormed(fs.sb, fs.g, fs.owner);
    RootSmall(|files|);
    l := fs.Dirlookup(Mkfs.ROOTINO, files[j].name);
    ConservedWellFormed(fs.sb, fs.g, fs.owner);
    LookedUp(fs.sb, f, fs.g, files, j, l);
    assert Mkfs.Holds(fs.sb, f, j + 2, files[j].data);
    HeldOn(fs.sb, f, fs.g, j + 2, files[j].data);
  }

  lemma {:induction false} LookedUp(sb: Super, f: Image, g: Image, files: seq<Mkfs.File>, j: int, l: Lookup)
    requires RootMade(sb, f, files) && WellFormed(sb, g) && 0 <= j < |files| < 0xFFFF
    requires forall k :: 0 <= k < j + 2 ==> Text(Mkfs.RootName(files, k), 14) != Text(files[j].name, 14)
    requires Looked(sb, f, g, Mkfs.ROOTINO, files[j].name, l)
    ensures l == Found(j + 2, 16 * (j + 2))
  {
    hide WellFormed, Names, EntryNumber, Shown, Visible, Mapped, Full;
    RootSeen(sb, f, files, j);
  }

  lemma {:induction false} HeldOn(sb: Super, g: Image, h: Image, inum: int, data: seq<int>)
    requires Mkfs.Holds(sb, g, inum, data) && Extends(sb, g, h)
    ensures HoleFree(sb, h, inum) && Content(sb, h, inum) == data
  {
    hide Extends;
    ExtendsContent(sb, g, h, inum);
  }

  lemma {:induction false} RootSmall(n: int)
    requires 0 <= n <= 200
    ensures 0 <= (DIRENT * (n + 2) / BSIZE + 1) * BSIZE <= MAXFILE * BSIZE
  {
  }

  /** What mkfs leaves in the root. */
  ghost predicate RootMade(sb: Super, g: Image, files: seq<Mkfs.File>) {
    && WellFormed(sb, g) && Mkfs.ROOTINO < |g.inodes|
    && g.inodes[Mkfs.ROOTINO].size == (DIRENT * (|files| + 2) / BSIZE + 1) * BSIZE
    && (forall k :: 0 <= k ==>
          Shown(sb, g, Mkfs.ROOTINO, k) == if k < DIRENT * (|files| + 2) then Mkfs.RootDir(files)[k] else 0)
    && (forall k :: 0 <= k && k * BSIZE < DIRENT * (|files| + 2) ==> Mapped(sb, g, Mkfs.ROOTINO, k))
  }

  /** The entries of the root before file j's do not have its name, and its own has. */
  lemma {:induction false} RootSeen(sb: Super, g: Image, files: seq<Mkfs.File>, j: int)
    requires RootMade(sb, g, files) && 0 <= j < |files| < 0xFFFF
    requires forall k :: 0 <= k < j + 2 ==> Text(Mkfs.RootName(files, k), 14) != Text(files[j].name, 14)
    ensures var c := Visible(sb, g, Mkfs.ROOTINO);
            && DIRENT * (|files| + 2) <= |c| <= DIRENT * (|files| + 2) + BSIZE && NoneNames(c, j + 2, files[j].name)
            && Names(c, j + 2, files[j].name) && EntryNumber(c, j + 2) == j + 2
  {
    hide Shown, Mapped, Mkfs.RootDir, Text, EntryNumber, EntryName, WellFormed;
    var c := Visible(sb, g, Mkfs.ROOTINO);
    assert Mkfs.RootDir(files) <= c;
    forall k | 0 <= k < j + 2 ensures !Names(c, k, files[j].name) { Mkfs.RootEntry(files, c, k); }
    Mkfs.RootEntry(files, c, j + 2);
  }
}
