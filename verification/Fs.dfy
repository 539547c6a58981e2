/** kernel/fs.c: the block allocator, the block maps of inodes, and reading and writing file
    contents, as methods that change blocks and inodes in place. */
module Fs {
  import opened Common
  import opened Bytes
  import opened FsImage
  import opened FsSteps
  import opened FileBytes
  import opened Dirs

  class Fs {
    const sb: Super
    /** blocks as the buffer cache holds them, inodes as they are in memory */
    var g: Image
    /** which slot each allocated block sits in */
    ghost var owner: map<int, Slot>
    /** blocks given to log_write, and blocks stored into since they were last given to it */
    ghost var logged: set<int>
    ghost var unlogged: set<int>
    /** what each transaction so far gave to log_write */
    ghost var txns: seq<set<int>>

    ghost predicate Valid()
      reads this
    {
      Conserved(sb, g, owner)
    }

    /** fsinit, and the inodes as ilock will read them: nothing has been logged yet. The panic of fsinit is the
        precondition. */
    constructor (blocks: seq<ByteBlock>, ghost owner: map<int, Slot>)
      requires Mountable(blocks, owner)
      ensures Valid() && sb == ReadSuper(blocks[1]) && g == Image(blocks, Dinodes(sb, blocks)) && this.owner == owner
      ensures logged == {} && unlogged == {} && txns == []
    {
      var super := ReadSuper(blocks[1]);
      sb, g := super, Image(blocks, Dinodes(super, blocks));
      this.owner, logged, unlogged, txns := owner, {}, {}, [];
    }

    method Store(b: int, data: ByteBlock)
      requires 0 <= b < |g.blocks|
      modifies this`g, this`unlogged
      ensures g == PutBlock(old(g), b, data) && unlogged == old(unlogged) + {b}
    {
      g := g.(blocks := g.blocks[b := data]);
      unlogged := unlogged + {b};
    }

    method LogWrite(b: int)
      modifies this`logged, this`unlogged
      ensures logged == old(logged) + {b} && unlogged == old(unlogged) - {b}
    {
      logged := logged + {b};
      unlogged := unlogged - {b};
    }

    /** begin_op and end_op, as far as they concern the blocks of one transaction. */
    method BeginOp()
      modifies this`logged
      ensures logged == {}
    {
      logged := {};
    }

    method EndOp()
      modifies this`txns
      ensures txns == old(txns) + [logged]
    {
      txns := txns + [logged];
    }

    /** The body of balloc's loop for a free block: mark it and bzero it. */
    method TakeBlock(b: int)
      requires Valid() && 0 <= b < sb.size && !Used(sb, g, b)
      modifies this`g, this`logged, this`unlogged
      ensures unlogged <= old(unlogged) && sb.nmeta <= b && b !in owner
      ensures Structure(sb, g, owner) && Marked(sb, g, owner.Keys + {b})
      ensures Extends(sb, old(g), g) && g == PutBlock(MarkUsed(sb, old(g), b), b, Zero())
      ensures logged == old(logged) + {sb.BBlock(b), b} && Covered(old(g).blocks, g.blocks, logged)
      ensures DataOnly(sb, old(g).blocks, g.blocks, old(logged), logged)
    {
      hide BlockBit, Word, DataOnly, Addr;
      var bp, bi := sb.BBlock(b), b % BPB;
      ghost var h := MarkUsed(sb, g, b);
      MarkUsedEffect(sb, g, owner, owner.Keys, b);
      ZeroBlock();
      PutUnowned(sb, h, owner, owner.Keys + {b}, b, Zero());
      ExtendsTrans(sb, g, h, PutBlock(h, b, Zero()));
      PairTouched(sb, g.blocks, logged, bp, SetBit(g.blocks[bp], bi), b, Zero());
      Store(bp, SetBit(g.blocks[bp], bi));
      LogWrite(bp);
      Store(b, Zero());
      LogWrite(b);
    }

    /** The first free block, zeroed; 0 when the bitmap is full. */
    method Balloc() returns (b: int)
      requires Valid()
      modifies this`g, this`logged, this`unlogged
      ensures unlogged <= old(unlogged)
      ensures b == 0 ==> g == old(g) && logged == old(logged) && unlogged == old(unlogged)
      ensures b == 0 ==> Full(sb, g)
      ensures b != 0 ==> sb.nmeta <= b < sb.size && b !in owner && !Used(sb, old(g), b)
      ensures b != 0 ==> forall x :: 0 <= x < b ==> Used(sb, old(g), x)
      ensures b != 0 ==> Structure(sb, g, owner) && Marked(sb, g, owner.Keys + {b})
      ensures b != 0 ==> Extends(sb, old(g), g) && g == PutBlock(MarkUsed(sb, old(g), b), b, Zero())
      ensures b != 0 ==> logged == old(logged) + {sb.BBlock(b), b}
      ensures Covered(old(g).blocks, g.blocks, logged)
      ensures DataOnly(sb, old(g).blocks, g.blocks, old(logged), logged)
    {
      hide BlockBit, Word, DataOnly;
      NoneTouched(sb, g.blocks, logged);
      var base := 0;
      while base < sb.size
        invariant 0 <= base && base % BPB == 0
        invariant g == old(g) && logged == old(logged) && unlogged == old(unlogged)
        invariant forall x :: 0 <= x < base && x < sb.size ==> Used(sb, g, x)
        decreases sb.size - base
      {
        var bp := sb.BBlock(base);
        var bi := 0;
        while bi < BPB && base + bi < sb.size
          invariant 0 <= bi <= BPB && base + bi <= sb.size
          invariant g == old(g) && logged == old(logged) && unlogged == old(unlogged)
          invariant forall x :: 0 <= x < base + bi && x < sb.size ==> Used(sb, g, x)
        {
          b := base + bi;
          assert sb.BBlock(b) == bp && b % BPB == bi;
          if !BlockBit(g.blocks[bp], bi) {
            TakeBlock(b);
            return;
          }
          assert Used(sb, g, b);
          bi := bi + 1;
        }
        base := base + BPB;
      }
      b := 0;
    }

    /** bfree; its panic is the precondition, so every call shows it cannot happen. */
    method Bfree(b: int)
      requires WellFormed(sb, g) && 0 <= b < sb.size && Used(sb, g, b)
      modifies this`g, this`logged, this`unlogged
      ensures g == MarkFree(sb, old(g), b)
      ensures logged == old(logged) + {sb.BBlock(b)} && unlogged == old(unlogged) - {sb.BBlock(b)}
      ensures Covered(old(g).blocks, g.blocks, logged)
      ensures DataOnly(sb, old(g).blocks, g.blocks, old(logged), logged)
    {
      var bp := sb.BBlock(b);
      Store(bp, ClearBit(g.blocks[bp], b % BPB));
      LogWrite(bp);
    }

    /** A fresh block for an empty entry of addrs. */
    method AllocEntry(inum: int, i: int) returns (b: int)
      requires Valid() && 0 <= inum < sb.ninodes && 0 <= i <= NDIRECT && g.inodes[inum].addrs[i] == 0
      modifies this`g, this`owner, this`logged, this`unlogged
      ensures Valid() && Grown(sb, old(g), old(owner), g, owner, Direct(inum, i), b)
      ensures logged == old(logged) + (if b == 0 then {} else {sb.BBlock(b), b}) && unlogged <= old(unlogged)
      ensures b != 0 ==> g.inodes[inum].addrs == old(g.inodes[inum].addrs)[i := b]
      ensures Covered(old(g).blocks, g.blocks, logged) && g.inodes == old(g.inodes)[inum := g.inodes[inum]]
      ensures DataOnly(sb, old(g).blocks, g.blocks, old(logged), logged)
    {
      hide Word, Addr, Used;
      b := Balloc();
      if b == 0 {
        return;
      }
      assert i == NDIRECT ==> forall j :: 0 <= j < NINDIRECT ==> Word(g.blocks[b], j) == 0 by { ZeroBlock(); }
      ghost var h := PutAddr(g, inum, i, b);
      AssignDirect(sb, g, owner, inum, i, b, h);
      MarkedInodes(sb, g, h, owner.Keys + {b});
      ExtendsTrans(sb, old(g), g, h);
      assert (owner[b := Direct(inum, i)]).Keys == owner.Keys + {b};
      assert Addr(sb, h, Direct(inum, i)) == b by { EntryAddr(sb, h, inum, i); }
      g := g.(inodes := g.inodes[inum := g.inodes[inum].(addrs := g.inodes[inum].addrs[i := b])]);
      owner := owner[b := Direct(inum, i)];
    }

    /** A fresh block for an empty word of the indirect block. */
    method AllocWord(inum: int, j: int) returns (b: int)
      requires Valid() && 0 <= inum < sb.ninodes && 0 <= j < NINDIRECT
      requires g.inodes[inum].addrs[NDIRECT] != 0 && Addr(sb, g, Via(inum, j)) == 0
      modifies this`g, this`owner, this`logged, this`unlogged
      ensures Valid() && Grown(sb, old(g), old(owner), g, owner, Via(inum, j), b)
      ensures logged == old(logged) + (if b == 0 then {} else {sb.BBlock(b), b, g.inodes[inum].addrs[NDIRECT]})
      ensures unlogged <= old(unlogged) && g.inodes == old(g.inodes) && Covered(old(g).blocks, g.blocks, logged)
      ensures DataOnly(sb, old(g).blocks, g.blocks, old(logged), logged)
    {
      hide Word, Used, PutWord;
      var ind := g.inodes[inum].addrs[NDIRECT];
      b := Balloc();
      if b == 0 {
        return;
      }
      assert Addr(sb, g, Via(inum, j)) == 0 by { IndirectKept(sb, old(g), g, owner, inum, j, b); }
      ghost var h := PutBlock(g, ind, PutWord(g.blocks[ind], j, b));
      AssignVia(sb, g, owner, inum, j, b, h);
      ExtendsTrans(sb, old(g), g, h);
      assert (owner[b := Via(inum, j)]).Keys == owner.Keys + {b};
      IndirectOwned(sb, old(g), owner);
      PutWordWords(g.blocks[ind], j, b);
      DataNotBitmap(sb, g, owner.Keys + {b}, ind, PutWord(g.blocks[ind], j, b));
      Store(ind, PutWord(g.blocks[ind], j, b));
      LogWrite(ind);
      owner := owner[b := Via(inum, j)];
    }

    method BmapDirect(inum: int, bn: int) returns (addr: int, ghost marks: set<int>)
      requires Valid() && 0 <= inum < sb.ninodes && 0 <= bn < NDIRECT
      modifies this`g, this`owner, this`logged, this`unlogged
      ensures Valid() && BlockMapped(sb, old(g), old(owner), g, owner, inum, bn, addr)
      ensures Logs(sb, old(g), old(logged), g, logged, inum, bn, addr, marks) && unlogged <= old(unlogged)
      ensures Mapped(sb, old(g), inum, bn) ==> logged == old(logged) && unlogged == old(unlogged)
      ensures old(logged) <= logged && Covered(old(g).blocks, g.blocks, logged)
      ensures DataOnly(sb, old(g).blocks, g.blocks, old(logged), logged)
      ensures g.inodes == old(g.inodes)[inum := g.inodes[inum]]
    {
      marks := {};
      addr := g.inodes[inum].addrs[bn];
      if addr == 0 {
        ghost var g0, o0, l0 := g, owner, logged;
        addr := AllocEntry(inum, bn);
        marks := if addr == 0 then {} else {sb.BBlock(addr)};
        hide Conserved, BlockMapped, Logs;
        GrowthMaps(sb, g0, o0, g, owner, inum, bn, addr);
        GrowthLogs(sb, g0, o0, l0, g, owner, logged, inum, bn, addr, marks);
      } else {
        hide BlockMapped, Logs;
        LookupMaps(sb, g, owner, logged, inum, bn, addr);
      }
    }

    /** The indirect half of bmap once the indirect block exists. */
    method BmapWord(inum: int, bn: int) returns (addr: int, ghost marks: set<int>)
      requires Valid() && 0 <= inum < sb.ninodes && NDIRECT <= bn < MAXFILE && g.inodes[inum].addrs[NDIRECT] != 0
      modifies this`g, this`owner, this`logged, this`unlogged
      ensures Valid() && BlockMapped(sb, old(g), old(owner), g, owner, inum, bn, addr)
      ensures Logs(sb, old(g), old(logged), g, logged, inum, bn, addr, marks) && unlogged <= old(unlogged)
      ensures Mapped(sb, old(g), inum, bn) ==> logged == old(logged) && unlogged == old(unlogged)
      ensures old(logged) <= logged && Covered(old(g).blocks, g.blocks, logged)
      ensures DataOnly(sb, old(g).blocks, g.blocks, old(logged), logged)
      ensures g.inodes == old(g.inodes)[inum := g.inodes[inum]]
    {
      marks := {};
      addr := Word(g.blocks[g.inodes[inum].addrs[NDIRECT]], bn - NDIRECT);
      if addr == 0 {
        ghost var g0, o0, l0 := g, owner, logged;
        addr := AllocWord(inum, bn - NDIRECT);
        marks := if addr == 0 then {} else {sb.BBlock(addr)};
        hide Conserved, BlockMapped, Logs, Word;
        GrowthMaps(sb, g0, o0, g, owner, inum, bn, addr);
        GrowthLogs(sb, g0, o0, l0, g, owner, logged, inum, bn, addr, marks);
      } else {
        hide BlockMapped, Logs, Word;
        LookupMaps(sb, g, owner, logged, inum, bn, addr);
      }
    }

    method BmapIndirect(inum: int, bn: int) returns (addr: int, ghost marks: set<int>)
      requires Valid() && 0 <= inum < sb.ninodes && NDIRECT <= bn < MAXFILE
      modifies this`g, this`owner, this`logged, this`unlogged
      ensures Valid() && BlockMapped(sb, old(g), old(owner), g, owner, inum, bn, addr)
      ensures Logs(sb, old(g), old(logged), g, logged, inum, bn, addr, marks) && unlogged <= old(unlogged)
      ensures Mapped(sb, old(g), inum, bn) ==> logged == old(logged) && unlogged == old(unlogged)
      ensures old(logged) <= logged && Covered(old(g).blocks, g.blocks, logged)
      ensures DataOnly(sb, old(g).blocks, g.blocks, old(logged), logged)
      ensures g.inodes == old(g.inodes)[inum := g.inodes[inum]]
    {
      hide Covered, DataOnly, Extends, Word, Full, Marked, BlockMapped, Logs;
      NoneTouched(sb, g.blocks, logged);
      if g.inodes[inum].addrs[NDIRECT] == 0 {
        ghost var g0, o0, l0 := g, owner, logged;
        var ind := AllocEntry(inum, NDIRECT);
        if ind == 0 {
          addr, marks := 0, {};
          hide BlockMapped, Logs;
          NoIndirect(sb, g, owner, logged, inum, bn);
        } else {
          ghost var g1, o1, l1, more := g, owner, logged, {sb.BBlock(ind)};
          addr, marks := BmapWord(inum, bn);
          hide Conserved, BlockMapped, Logs, Covered, DataOnly;
          CoveredTrans(g0.blocks, g1.blocks, g.blocks, l1, logged);
          DataOnlyTrans(sb, g0.blocks, g1.blocks, g.blocks, l0, l1, logged);
          AfterIndirect(sb, g0, o0, g1, o1, g, owner, inum, bn, ind, addr);
          AfterIndirectLogs(sb, g0, o0, l0, g1, o1, l1, g, owner, logged, inum, bn, ind, addr, marks);
          marks := marks + more;
        }
      } else {
        hide Conserved, BlockMapped, Logs;
        addr, marks := BmapWord(inum, bn);
      }
    }

    /** The block number of block bn of the file, allocated if missing; 0 when the disk is full. The
        bitmap blocks it logged are marks. */
    method Bmap(inum: int, bn: int) returns (addr: int, ghost marks: set<int>)
      requires Valid() && 0 <= inum < sb.ninodes && 0 <= bn < MAXFILE
      modifies this`g, this`owner, this`logged, this`unlogged
      ensures Valid() && BlockMapped(sb, old(g), old(owner), g, owner, inum, bn, addr)
      ensures Logs(sb, old(g), old(logged), g, logged, inum, bn, addr, marks) && unlogged <= old(unlogged)
      ensures Mapped(sb, old(g), inum, bn) ==> logged == old(logged) && unlogged == old(unlogged)
      ensures old(logged) <= logged && Covered(old(g).blocks, g.blocks, logged)
      ensures DataOnly(sb, old(g).blocks, g.blocks, old(logged), logged)
      ensures g.inodes == old(g.inodes)[inum := g.inodes[inum]]
    {
      hide Conserved, BlockMapped, Logs;
      if bn < NDIRECT {
        addr, marks := BmapDirect(inum, bn);
      } else {
        addr, marks := BmapIndirect(inum, bn);
      }
    }

    /** One turn of writei's loop: map the block, copy in m bytes of which only piece could be read,
        and log the block if all could. */
    method WritePiece(inum: int, at: int, piece: seq<int>, m: int, ghost f: Image, ghost c: seq<int>, ghost off: int,
                      ghost w: seq<int>)
      returns (addr: int, ghost marks: set<int>)
      requires Valid() && 0 <= inum < sb.ninodes && Written(sb, f, g, inum, c, off, w) && at == off + |w|
      requires 0 <= off && at / BSIZE < MAXFILE && |piece| <= m <= BSIZE - at % BSIZE
      requires IsBytes(piece)
      modifies this`g, this`owner, this`logged, this`unlogged
      ensures Valid() && Written(sb, f, g, inum, c, off, if addr == 0 then w else w + piece)
      ensures addr == 0 ==> Full(sb, g) && !Mapped(sb, f, inum, at / BSIZE)
      ensures addr != 0 ==> Mapped(sb, g, inum, at / BSIZE) && BlockAt(sb, g, inum, at) == {addr}
      ensures Logs(sb, old(g), old(logged), g, logged, inum, at / BSIZE, addr, marks)
      ensures addr == 0 || |piece| == m || piece == [] ==> unlogged <= old(unlogged)
      ensures addr != 0 && |piece| < m && piece != [] ==> addr in unlogged && unlogged <= old(unlogged) + {addr}
      ensures addr != 0 && |piece| == m ==> BlockIn(sb, g, inum, at / BSIZE, logged)
      ensures Covered(old(g).blocks, g.blocks, logged + if addr == 0 || |piece| == m || piece == [] then {} else {addr})
      ensures old(logged) <= logged && MapKept(sb, old(g), g, inum) && g.inodes == old(g.inodes)[inum := g.inodes[inum]]
      ensures DataOnly(sb, old(g).blocks, g.blocks, old(logged), logged)
    {
      hide Conserved, WellFormed, Written, Mapped, Logs, BlockMapped, Extends, Addr, Full, MapKept, ShownKept;
      ConservedWellFormed(sb, g, owner);
      ghost var g0, o0 := g, owner;
      addr, marks := Bmap(inum, at / BSIZE);
      ConservedWellFormed(sb, g, owner);
      UseMapped(sb, g0, o0, g, owner, inum, at / BSIZE, addr);
      MappedShown(sb, g0, o0, g, owner, inum, at / BSIZE, addr);
      if addr == 0 {
        ExtendsMapKept(sb, g0, g, inum);
        WrittenExtends(sb, f, g0, g, inum, c, off, w);
        if Mapped(sb, f, inum, at / BSIZE) { WrittenMapped(sb, f, g0, inum, c, off, w, at / BSIZE); }
        return;
      }
      var data := Overlay(g.blocks[addr], at % BSIZE, piece);
      MappedData(sb, g, owner, inum, at / BSIZE);
      PieceStored(sb, f, g0, old(logged), g, logged, owner, inum, c, off, w, at, piece, addr, marks,
                  PutBlock(g, addr, data));
      if piece != [] {
        Store(addr, data);
      }
      ConservedWellFormed(sb, g, owner);
      if |piece| < m {
        return;
      }
      LogWrite(addr);
    }

    /** The same, with the account of what the write since f has logged. */
    method WriteTurn(inum: int, at: int, piece: seq<int>, m: int, ghost f: Image, ghost c: seq<int>, ghost off: int,
                     ghost w: seq<int>, ghost l0: set<int>, ghost data: set<int>, ghost marks: set<int>,
                     ghost turns: int, ghost first: bool)
      returns (addr: int, ghost data': set<int>, ghost marks': set<int>)
      requires Valid() && 0 <= inum < sb.ninodes && Written(sb, f, g, inum, c, off, w) && at == off + |w|
      requires 0 <= off && at < MAXFILE * BSIZE && |piece| <= m <= Rest(at) && 0 < m
      requires IsBytes(piece) && (off == at || Aligned(at)) && WellFormed(sb, f) && WellFormed(sb, g)
      requires Account(sb, f, g, inum, l0, logged, data, marks, turns, first)
      requires turns == 0 && first ==> Mapped(sb, g, inum, at / BSIZE)
      requires Recorded(sb, f, g, inum, off, at, logged, {})
      modifies this`g, this`owner, this`logged, this`unlogged
      ensures Valid() && WellFormed(sb, g) && Written(sb, f, g, inum, c, off, if addr == 0 then w else w + piece)
      ensures addr == 0 ==> Full(sb, g) && !Mapped(sb, f, inum, at / BSIZE)
      ensures addr == 0 || |piece| == m || piece == [] ==> unlogged <= old(unlogged)
      ensures addr != 0 && |piece| < m && piece != [] ==> BlockAt(sb, g, inum, at) == {addr} && addr in unlogged
      ensures Account(sb, f, g, inum, l0, logged, data', marks', if addr == 0 then turns else turns + 1, first)
      ensures Recorded(sb, f, g, inum, off, if addr != 0 && |piece| == m then at + m else at, logged,
                       if addr == 0 || |piece| == m || piece == [] then {} else {addr})
      ensures old(logged) <= logged && g.inodes == old(g.inodes)[inum := g.inodes[inum]]
      ensures DataOnly(sb, old(g).blocks, g.blocks, old(logged), logged)
    {
      hide Conserved, WellFormed, Written, Mapped, Account, Logs, Full, Addr, Covered, MapKept, Recorded;
      hide BlockAt, BlockIn, DataOnly;
      RestBounds(at);
      ghost var h, l := g, logged;
      ghost var more;
      addr, more := WritePiece(inum, at, piece, m, f, c, off, w);
      ConservedWellFormed(sb, g, owner);
      AccountTurn(sb, f, h, g, inum, l0, l, logged, data, marks, turns, first, at / BSIZE, addr, more);
      ghost var x := if addr == 0 || |piece| == m || piece == [] then {} else {addr};
      RecordedTurn(sb, f, h, g, inum, off, at, if addr != 0 && |piece| == m then m else 0, l, logged, x);
      data', marks' := if addr == 0 then data else data + {addr}, marks + more;
    }

    /** writei's loop: tot bytes are reported, w was copied. */
    method WriteLoop(inum: int, src: seq<int>, off: int, n: int, ghost c: seq<int>)
      returns (tot: int, ghost w: seq<int>, ghost data: set<int>, ghost marks: set<int>, ghost turns: int)
      requires Valid() && 0 <= inum < sb.ninodes && Written(sb, g, g, inum, c, off, [])
      requires 0 <= off && 0 <= n && off + n <= MAXFILE * BSIZE && |src| <= n
      requires IsBytes(src)
      modifies this`g, this`owner, this`logged, this`unlogged
      ensures Valid() && 0 <= tot <= |w| && w <= src && Written(sb, old(g), g, inum, c, off, w)
      ensures |w| < |src| ==> Full(sb, g) && tot == |w| && !Mapped(sb, old(g), inum, (off + |w|) / BSIZE)
      ensures |w| < |src| ==> w == [] || Aligned(off + |w|)
      ensures |w| == |src| ==> tot == Reported(off, |src|, n)
      ensures |w| > tot <==> |w| == |src| < n && 0 < |src| && (off + |src|) % BSIZE != 0
      ensures |w| == tot ==> unlogged <= old(unlogged)
      ensures |w| > tot ==> BlockAt(sb, g, inum, off + tot) != {} && BlockAt(sb, g, inum, off + tot) <= unlogged
      ensures Account(sb, old(g), g, inum, old(logged), logged, data, marks, turns,
                      Mapped(sb, old(g), inum, off / BSIZE))
      ensures turns <= Touched(off, n)
      ensures old(logged) <= logged && g.inodes == old(g.inodes)[inum := g.inodes[inum]]
      ensures DataOnly(sb, old(g).blocks, g.blocks, old(logged), logged)
      ensures Recorded(sb, old(g), g, inum, off, off + tot, logged,
                       if |w| > tot then BlockAt(sb, g, inum, off + tot) else {})
    {
      hide Conserved, WellFormed, Written, Mapped, Account, Logs, Full, Touched, Addr, Reported, SlotOf, IsBlock;
      hide Covered, MapKept, Recorded, BlockAt, BlockIn, Rest, Aligned, Piece, IsBytes, DataOnly;
      NoneTouched(sb, g.blocks, logged);
      ConservedWellFormed(sb, g, owner);
      ReportedAll(off, n);
      AccountStart(sb, g, inum, logged, off, n);
      RecordedNothing(sb, g, inum, off, logged);
      ghost var f, first := g, Mapped(sb, g, inum, off / BSIZE);
      tot, w, data, marks, turns := 0, [], {}, {}, 0;
      var at := off;
      while tot < n
        invariant 0 <= tot <= |src| && tot <= n && at == off + tot && w == src[..tot]
        invariant Valid() && Written(sb, f, g, inum, c, off, w) && (tot == 0 ==> g == f)
        invariant (tot == 0 || tot == n || Aligned(at)) && (tot > 0 ==> turns > 0)
        invariant turns == Touched(off, tot) && unlogged <= old(unlogged) && turns <= Touched(off, n)
        invariant WellFormed(sb, g) && Account(sb, f, g, inum, old(logged), logged, data, marks, turns, first)
        invariant old(logged) <= logged && |g.inodes| == |f.inodes| && g.inodes == f.inodes[inum := g.inodes[inum]]
        invariant Recorded(sb, f, g, inum, off, at, logged, {})
        invariant DataOnly(sb, f.blocks, g.blocks, old(logged), logged)
      {
        var m := if n - tot < Rest(at) then n - tot else Rest(at);
        TouchedTurn(off, tot, m, n);
        var piece := Piece(src, tot, m);
        PieceOf(src, tot, m);
        ghost var h, l := g, logged;
        var addr;
        addr, data, marks := WriteTurn(inum, at, piece, m, f, c, off, w, old(logged), data, marks, turns, first);
        DataOnlyTrans(sb, f.blocks, h.blocks, g.blocks, old(logged), l, logged);
        if |piece| < m {
          EndsInside(off, tot, |src|, m);
          ReportedAt(off, tot, |src|, m, n);
        }
        if addr == 0 {
          return;
        }
        turns, w := turns + 1, w + piece;
        if |piece| < m {
          return;
        }
        tot, at := tot + m, at + m;
      }
    }

    /** writei. src is the longest prefix of the n source bytes that can be read. The r bytes reported,
        and the rest of w that was copied before a failing copy gave up, are laid over what a reader saw;
        nothing past the old end or the reported end is visible. Every block that changes is logged, but for
        the one in which the copy failed. */
    method Writei(inum: int, src: seq<int>, off: int, n: int) returns (r: int, ghost w: seq<int>)
      requires Valid() && 0 <= inum < sb.ninodes && 0 <= g.inodes[inum].size <= MAXFILE * BSIZE
      requires 0 <= off < UINT && 0 <= n < UINT && |src| <= n
      requires IsBytes(src)
      modifies this`g, this`owner, this`logged, this`unlogged
      ensures Valid() && 0 <= g.inodes[inum].size <= MAXFILE * BSIZE && OthersKept(sb, old(g), g, inum)
      ensures HoleFree(sb, old(g), inum) ==> HoleFree(sb, g, inum)
      ensures r == -1 <==> off > old(g).inodes[inum].size || off + n >= UINT || off + n > MAXFILE * BSIZE
      ensures r == -1 ==> g == old(g) && owner == old(owner) && logged == old(logged)
      ensures r != -1 ==>
        && 0 <= r <= |w| && w <= src
        && Visible(sb, g, inum) == Splice(Visible(sb, old(g), inum), off, w)[..Max(old(g).inodes[inum].size, off + r)]
        && InodePut(sb, old(g).blocks, g.blocks, inum, g.inodes[inum])
      ensures r != -1 && |w| < |src| ==> Full(sb, g) && r == |w| && !Mapped(sb, old(g), inum, (off + |w|) / BSIZE)
      ensures r != -1 && |w| < |src| && HoleFree(sb, old(g), inum) ==> off + |w| >= old(g).inodes[inum].size
      ensures r != -1 && |w| < |src| ==> w == [] || Aligned(off + |w|)
      ensures r != -1 && |w| == |src| ==> r == Reported(off, |src|, n)
      ensures r != -1 && !Full(sb, g) ==> (|w| > r <==> |src| < n && 0 < |src| && (off + |src|) % BSIZE != 0)
      ensures r == -1 || |w| == r ==> unlogged <= old(unlogged)
      ensures r != -1 && |w| > r ==> BlockAt(sb, g, inum, off + r) != {} && BlockAt(sb, g, inum, off + r) <= unlogged
      ensures old(logged) <= logged && g.inodes == old(g.inodes)[inum := g.inodes[inum]]
      ensures r != -1 ==> sb.IBlock(inum) in logged
      ensures HomeBlocks(sb, old(logged), logged)
      ensures r != -1 ==>
        Recorded(sb, old(g), g, inum, off, off + r, logged, if |w| > r then BlockAt(sb, g, inum, off + r) else {})
      ensures |logged| <= |old(logged)| + 2 * Touched(off, n) + 3
                          - if n > 0 && Mapped(sb, old(g), inum, off / BSIZE) then 1 else 0
      ensures sb.size <= BPB ==> |logged| <= |old(logged)| + Touched(off, n) + 3
    {
      hide Conserved, WellFormed, Written, HoleFree, Visible, Account, OthersKept, Mapped, Full, Addr, Splice, Touched;
      hide Recorded, BlockAt, MapKept, Reported, DataOnly, InodePut, SameView, Covered, Aligned;
      ConservedWellFormed(sb, g, owner);
      TouchedBounds(off, n);
      w := [];
      if off > g.inodes[inum].size || off + n >= UINT {
        r := -1;
        OthersRefl(sb, g, inum);
        return;
      }
      if off + n > MAXFILE * BSIZE {
        r := -1;
        OthersRefl(sb, g, inum);
        return;
      }
      ghost var f, c := g, Visible(sb, g, inum);
      WrittenNothing(sb, g, inum, off);
      ghost var data, marks, turns;
      r, w, data, marks, turns := WriteLoop(inum, src, off, n, c);
      ConservedWellFormed(sb, g, owner);
      AccountTotal(sb, f, g, inum, old(logged), logged, data, marks, turns, Mapped(sb, f, inum, off / BSIZE));
      ghost var k, l := g, logged;
      ghost var h := g.(inodes := g.inodes[inum := g.inodes[inum].(size := Max(|c|, off + r))]);
      ConservedSize(sb, g, owner, inum, Max(|c|, off + r), h);
      WrittenSize(sb, f, g, owner, inum, c, off, w, r, h);
      ConservedWellFormed(sb, h, owner);
      FullInodes(sb, g, h);
      BlockAtNotInode(sb, h, owner, inum, off + r);
      if off + |w| < |c| { BelowSize(sb, f, inum, off + |w|); }
      if off + r > g.inodes[inum].size {
        g := g.(inodes := g.inodes[inum := g.inodes[inum].(size := off + r)]);
      }
      Iupdate(inum);
      ConservedWellFormed(sb, g, owner);
      ViewKept(sb, h, g, inum);
      OthersTrans(sb, f, h, g, inum);
      ViewMapKept(sb, h, g, inum);
      MapKeptTrans(sb, k, h, g, inum);
      if |w| > r { BlockAtKept(sb, k, g, inum, off + r); BlockAtKept(sb, k, h, inum, off + r); }
      RecordedSize(sb, f, k, g, inum, off, off + r, l, if |w| > r then BlockAt(sb, k, inum, off + r) else {},
                   sb.IBlock(inum));
      WellFormedReadable(sb, f);
      InodePutAfter(sb, f.blocks, h.blocks, g.blocks, old(logged), l, inum, g.inodes[inum]);
    }

    /** readi: the bytes of the file that exist, 0 in holes, as far as the destination can be written. A hole
        that is read gets a block, so it stops short if the disk is full; a file without holes is read
        whole, and nothing is allocated, changed or logged. */
    method Readi(inum: int, off: int, n: int, room: nat) returns (r: int, out: seq<int>)
      requires Valid() && 0 <= inum < sb.ninodes && 0 <= g.inodes[inum].size <= MAXFILE * BSIZE
      requires 0 <= off < UINT && 0 <= n < UINT
      modifies this`g, this`owner, this`logged, this`unlogged
      ensures Valid() && Extends(sb, old(g), g) && ZeroGrowth(sb, old(g), g, inum) && unlogged <= old(unlogged)
      ensures HoleFree(sb, old(g), inum) ==> g == old(g) && owner == old(owner) && logged == old(logged)
      ensures off > old(g).inodes[inum].size || off + n >= UINT ==> r == 0 && out == []
      ensures off <= old(g).inodes[inum].size && off + n < UINT ==>
        var m := if off + n > old(g).inodes[inum].size then old(g).inodes[inum].size - off else n;
        || (r == |out| == m <= room) || (r == -1 && |out| == room < m)
        || (r == |out| < m && |out| <= room && Full(sb, g) && !Mapped(sb, old(g), inum, (off + r) / BSIZE))
      ensures forall k :: 0 <= k < |out| ==> out[k] == Shown(sb, old(g), inum, off + k)
      ensures old(logged) <= logged && Covered(old(g).blocks, g.blocks, logged)
      ensures DataOnly(sb, old(g).blocks, g.blocks, old(logged), logged)
    {
      hide Conserved, WellFormed, HoleFree, Mapped, Logs, Addr, BlockOf, BlockMapped, Extends, Full, ZeroGrowth, Shown;
      hide Covered, DataOnly;
      ConservedWellFormed(sb, g, owner);
      NothingGrown(sb, g, inum);
      NothingCovered(g.blocks, logged);
      NoneTouched(sb, g.blocks, logged);
      out := [];
      if off > g.inodes[inum].size || off + n >= UINT {
        return 0, [];
      }
      ghost var f := g;
      var n := if off + n > g.inodes[inum].size then g.inodes[inum].size - off else n;
      var tot, at := 0, off;
      while tot < n
        invariant 0 <= tot <= n && tot <= room && at == off + tot && |out| == tot && Valid()
        invariant Extends(sb, f, g) && ZeroGrowth(sb, f, g, inum) && unlogged <= old(unlogged)
        invariant HoleFree(sb, f, inum) ==> g == f && owner == old(owner) && logged == old(logged)
        invariant old(logged) <= logged && Covered(f.blocks, g.blocks, logged)
        invariant DataOnly(sb, f.blocks, g.blocks, old(logged), logged)
        invariant forall k :: 0 <= k < tot ==> out[k] == Shown(sb, f, inum, off + k)
      {
        var m := if n - tot < BSIZE - at % BSIZE then n - tot else BSIZE - at % BSIZE;
        ghost var h, o, l := g, owner, logged;
        ConservedWellFormed(sb, g, owner);
        BelowSize(sb, f, inum, at);
        var addr;
        ghost var marks;
        addr, marks := Bmap(inum, at / BSIZE);
        ConservedWellFormed(sb, g, owner);
        UseMapped(sb, h, o, g, owner, inum, at / BSIZE, addr);
        ZeroGrowthMore(sb, f, h, o, g, owner, inum, at / BSIZE, addr);
        CoveredTrans(f.blocks, h.blocks, g.blocks, l, logged);
        DataOnlyTrans(sb, f.blocks, h.blocks, g.blocks, old(logged), l, logged);
        if addr == 0 {
          if Mapped(sb, f, inum, at / BSIZE) { ExtendsAt(sb, f, h, inum, at / BSIZE); }
          return tot, out;
        }
        MappedBelow(sb, g, inum, at / BSIZE);
        var part := g.blocks[addr][at % BSIZE..at % BSIZE + m];
        forall j | 0 <= j < m ensures part[j] == Shown(sb, f, inum, at + j) {
          ShownPart(sb, f, g, inum, at, j);
        }
        if room - tot < m {
          out := out + part[..room - tot];
          return -1, out;
        }
        out := out + part;
        tot, at := tot + m, at + m;
      }
      return tot, out;
    }

    /** dirlookup: the first entry in use that has the name, as far as both are read up to 14 bytes. It panics if the
        directory ends within an entry, or if an entry lies in a hole and the disk is full. */
    method Dirlookup(inum: int, name: seq<int>) returns (l: Lookup)
      requires Valid() && 0 <= inum < sb.ninodes && 0 <= g.inodes[inum].size <= MAXFILE * BSIZE
      modifies this`g, this`owner, this`logged, this`unlogged
      ensures Valid() && Extends(sb, old(g), g) && ZeroGrowth(sb, old(g), g, inum) && unlogged <= old(unlogged)
      ensures HoleFree(sb, old(g), inum) ==> g == old(g) && owner == old(owner) && logged == old(logged)
      ensures Looked(sb, old(g), g, inum, name, l)
      ensures old(logged) <= logged && Covered(old(g).blocks, g.blocks, logged)
      ensures DataOnly(sb, old(g).blocks, g.blocks, old(logged), logged)
    {
      hide Conserved, WellFormed, HoleFree, Mapped, Addr, Extends, Full, ZeroGrowth, Shown, Visible, Covered, DataOnly;
      hide Names, EntryNumber, EntryName, Text, NoneNames;
      ConservedWellFormed(sb, g, owner);
      NothingGrown(sb, g, inum);
      NothingCovered(g.blocks, logged);
      NoneTouched(sb, g.blocks, logged);
      ghost var f, c := g, Visible(sb, g, inum);
      var off := 0;
      ghost var k := 0;
      NoneYet(c, name);
      while off < g.inodes[inum].size
        invariant 0 <= k && off == 16 * k <= |c| && NoneNames(c, k, name)
        invariant Valid() && Extends(sb, f, g) && ZeroGrowth(sb, f, g, inum) && unlogged <= old(unlogged)
        invariant |g.inodes| == |f.inodes| == sb.ninodes && g.inodes[inum].size == f.inodes[inum].size
        invariant HoleFree(sb, f, inum) ==> g == f && owner == old(owner) && logged == old(logged)
        invariant old(logged) <= logged && Covered(f.blocks, g.blocks, logged)
        invariant DataOnly(sb, f.blocks, g.blocks, old(logged), logged)
        decreases |c| - off
      {
        ghost var h, m := g, logged;
        Sixteenth(off, k);
        var r, de := Readi(inum, off, 16, 16);
        ConservedWellFormed(sb, g, owner);
        EntryRead(sb, f, h, inum, off, de, r);
        ReadOn(sb, f, h, g, inum);
        CoveredTrans(f.blocks, h.blocks, g.blocks, m, logged);
        DataOnlyTrans(sb, f.blocks, h.blocks, g.blocks, old(logged), m, logged);
        if r != 16 {
          return ReadPanic(off);
        }
        EntryOf(c, k, de, name);
        if de[0] + 256 * de[1] != 0 {
          var diff := Strncmp(name, de[2..], 14);
          if diff == 0 {
            return Found(de[0] + 256 * de[1], off);
          }
        }
        off, k := off + 16, k + 1;
      }
      Sixteenth(off, k);
      l := Missing;
    }

    /** dirlink's loop: the first free entry of a directory of whole entries, or its end. */
    method FreeSlot(inum: int) returns (off: int, panics: bool)
      requires Valid() && 0 <= inum < sb.ninodes && 0 <= g.inodes[inum].size <= MAXFILE * BSIZE
      requires g.inodes[inum].size % 16 == 0
      modifies this`g, this`owner, this`logged, this`unlogged
      ensures Valid() && Extends(sb, old(g), g) && ZeroGrowth(sb, old(g), g, inum) && unlogged <= old(unlogged)
      ensures if panics then Full(sb, g) && !HoleFree(sb, old(g), inum) else Place(Visible(sb, old(g), inum), off)
      ensures old(logged) <= logged && Covered(old(g).blocks, g.blocks, logged)
      ensures DataOnly(sb, old(g).blocks, g.blocks, old(logged), logged)
    {
      hide Conserved, WellFormed, HoleFree, Mapped, Addr, Extends, Full, ZeroGrowth, Shown, Visible, Covered, DataOnly;
      hide EntryNumber, AllUsed;
      ConservedWellFormed(sb, g, owner);
      NothingGrown(sb, g, inum);
      NothingCovered(g.blocks, logged);
      NoneTouched(sb, g.blocks, logged);
      ghost var f, c := g, Visible(sb, g, inum);
      off, panics := 0, false;
      ghost var k := 0;
      NoneUsed(c);
      while off < g.inodes[inum].size
        invariant 0 <= k && off == 16 * k <= |c| && AllUsed(c, k)
        invariant Valid() && Extends(sb, f, g) && ZeroGrowth(sb, f, g, inum) && unlogged <= old(unlogged)
        invariant |g.inodes| == |f.inodes| == sb.ninodes && g.inodes[inum].size == f.inodes[inum].size
        invariant HoleFree(sb, f, inum) ==> g == f
        invariant old(logged) <= logged && Covered(f.blocks, g.blocks, logged)
        invariant DataOnly(sb, f.blocks, g.blocks, old(logged), logged)
        decreases |c| - off
      {
        ghost var h, m := g, logged;
        var r, de := Readi(inum, off, 16, 16);
        ConservedWellFormed(sb, g, owner);
        EntryRead(sb, f, h, inum, off, de, r);
        BelowSize(sb, f, inum, off);
        ReadOn(sb, f, h, g, inum);
        CoveredTrans(f.blocks, h.blocks, g.blocks, m, logged);
        DataOnlyTrans(sb, f.blocks, h.blocks, g.blocks, old(logged), m, logged);
        if r != 16 {
          SameBlock(off, k, r);
          panics := true;
          return;
        }
        UsedMore(c, k, de);
        if de[0] + 256 * de[1] == 0 {
          Sixteenth(off, k);
          return;
        }
        off, k := off + 16, k + 1;
      }
      Sixteenth(off, k);
    }

    /** dirlink: the entry goes to the first free place, if no entry has the name and there is room. Otherwise the
        directory reads as before. */
    method Dirlink(dp: int, name: seq<int>, inum: int) returns (r: Link)
      requires Valid() && 0 <= dp < sb.ninodes && 0 <= g.inodes[dp].size <= MAXFILE * BSIZE
      requires IsBytes(name) && 0 <= inum < 0x10000
      modifies this`g, this`owner, this`logged, this`unlogged
      ensures Valid() && OthersKept(sb, old(g), g, dp) && 0 <= g.inodes[dp].size && HomeBlocks(sb, old(logged), logged)
      ensures var c, d := Visible(sb, old(g), dp), Visible(sb, g, dp);
        match r
        case Linked(off) =>
          && Place(c, off) && NoneNames(c, |c| / 16, name) && d == WithEntry(c, off, inum, name)
          && DiskInode(sb, g.blocks, dp) == g.inodes[dp]
        case Refused =>
          && d == c
          && (|| Full(sb, g) || |c| + 16 > MAXFILE * BSIZE
              || exists k :: 0 <= k && 16 * k + 16 <= |c| && Names(c, k, name))
        case LinkPanic => d == c && (|c| % 16 != 0 || (Full(sb, g) && !HoleFree(sb, old(g), dp)))
    {
      hide Conserved, WellFormed, HoleFree, Mapped, Addr, Extends, Full, ZeroGrowth, Shown, Visible, Covered, DataOnly;
      hide Names, EntryNumber, EntryName, Text, NoneNames, OthersKept, Splice, InodePut, Recorded, Aligned, Place;
      hide Dirent, Touched, BlockAt, Reported, HomeBlocks, WithEntry;
      ConservedWellFormed(sb, g, owner);
      ghost var f, c := g, Visible(sb, g, dp);
      var l := Dirlookup(dp, name);
      ConservedWellFormed(sb, g, owner);
      GrownByZero(sb, f, g, dp);
      ghost var l1 := logged;
      NoHomes(sb, l1);
      HomesAfter(sb, f, g, old(logged), l1, l1);
      if l.Found? {
        assert Names(c, l.off / 16, name);
        return Refused;
      }
      if l.ReadPanic? {
        PanicAt(sb, f, g, dp, name, l);
        return LinkPanic;
      }
      ghost var h := g;
      var off, panics := FreeSlot(dp);
      ConservedWellFormed(sb, g, owner);
      GrownByZero(sb, h, g, dp);
      OthersTrans(sb, f, h, g, dp);
      DataOnlyTrans(sb, f.blocks, h.blocks, g.blocks, old(logged), l1, logged);
      ghost var l2 := logged;
      NoHomes(sb, l2);
      HomesAfter(sb, f, g, old(logged), l2, l2);
      if panics {
        NowFull(sb, f, h, dp);
        return LinkPanic;
      }
      ghost var k := g;
      PlaceBounds(c, off);
      DirentBytes(inum, name);
      var n;
      ghost var w;
      n, w := Writei(dp, Dirent(inum, name), off, 16);
      ConservedWellFormed(sb, g, owner);
      OthersTrans(sb, f, k, g, dp);
      HomesAfter(sb, f, k, old(logged), l2, logged);
      if n != 16 {
        NothingLinked(c, off, w, n, Dirent(inum, name), Visible(sb, g, dp));
        return Refused;
      }
      EntryWritten(c, off, inum, name, w, Visible(sb, g, dp));
      PutNow(sb, k, g, dp);
      r := Linked(off);
    }

    /** One chunk of filewrite, in a transaction of its own, after the transactions ts since f. */
    method WriteChunk(inum: int, part: seq<int>, pos: int, n: int, ghost f: Image, ghost off: int,
                      ghost ts: seq<set<int>>, ghost solid: bool, ghost t0: seq<set<int>>)
      returns (r: int, ghost w: seq<int>)
      requires Valid() && 0 <= inum < sb.ninodes && 0 <= g.inodes[inum].size <= MAXFILE * BSIZE
      requires 0 <= off <= pos < UINT && 0 < n <= 3 * BSIZE && |part| <= n && IsBytes(part)
      requires OthersKept(sb, f, g, inum) && (solid ==> HoleFree(sb, g, inum))
      requires Recorded(sb, f, g, inum, off, pos, Union(ts), {}) && txns == t0 + ts
      requires ChunksOk(sb, solid, ts) && Stored(sb, f, g, inum)
      modifies this`g, this`owner, this`logged, this`unlogged, this`txns
      ensures Valid() && 0 <= g.inodes[inum].size <= MAXFILE * BSIZE && OthersKept(sb, f, g, inum)
      ensures (solid ==> HoleFree(sb, g, inum)) && g.inodes == old(g.inodes)[inum := g.inodes[inum]]
      ensures txns == t0 + (ts + [logged]) && txns[|t0|..] == ts + [logged] && ChunksOk(sb, solid, ts + [logged])
      ensures Union(ts) <= Union(ts + [logged])
      ensures Stored(sb, f, g, inum)
      ensures r == -1 <==> pos > old(g).inodes[inum].size || pos + n >= UINT || pos + n > MAXFILE * BSIZE
      ensures r == -1 ==> g == old(g)
      ensures r != -1 ==>
        && 0 <= r <= |w| && w <= part
        && Visible(sb, g, inum) == Splice(Visible(sb, old(g), inum), pos, w)[..Max(old(g).inodes[inum].size, pos + r)]
      ensures 0 <= r < n ==> |part| < n || Full(sb, g)
      ensures r != -1 ==> if |w| < |part| then r == |w| else r == Reported(pos, |part|, n)
      ensures r != -1 ==> sb.IBlock(inum) in Union(ts + [logged])
      ensures r == n ==> w == part && Recorded(sb, f, g, inum, off, pos + n, Union(ts + [logged]), {})
      ensures Covered(f.blocks, g.blocks, Union(ts + [logged]) + unlogged)
    {
      hide Conserved, WellFormed, Visible, HoleFree, Mapped, Full, Addr, OthersKept, Splice, Touched, Recorded, Covered;
      hide BlockAt, Union, ChunkOk, ChunksOk, InodePut, Stored;
      ghost var h := g;
      ConservedWellFormed(sb, g, owner);
      BeginOp();
      r, w := Writei(inum, part, pos, n);
      ConservedWellFormed(sb, g, owner);
      OthersTrans(sb, f, h, g, inum);
      if solid && pos % BSIZE != 0 && pos <= h.inodes[inum].size { InsideMapped(sb, h, inum, pos); }
      ChunkLogged(sb, h, inum, pos, n, logged, r == -1, solid);
      EndOp();
      UnionMore(ts, logged);
      ChunksMore(sb, solid, ts, logged);
      if r != -1 {
        StoredNow(sb, h, g, inum);
        StoredTrans(sb, f, h, g, inum);
        ghost var x := if |w| > r then BlockAt(sb, g, inum, pos + r) else {};
        RecordedTwice(sb, f, h, g, inum, off, pos, pos + r, Union(ts), logged, x);
        RecordedCovers(sb, f, g, inum, off, pos + r, Union(ts + [logged]), x, unlogged);
      } else {
        RecordedCovers(sb, f, g, inum, off, pos, Union(ts), {}, logged + unlogged);
        assert Union(ts) + (logged + unlogged) == Union(ts + [logged]) + unlogged;
      }
    }

    /** One turn of filewrite's loop, after i of n bytes: n1 bytes more, or the end of it with w copied since off. */
    method FileTurn(inum: int, src: seq<int>, off: int, n: int, i: int, ghost f: Image, ghost c: seq<int>,
                    ghost ts: seq<set<int>>, ghost solid: bool, ghost t0: seq<set<int>>)
      returns (n1: int, r: int, ghost w: seq<int>)
      requires Valid() && 0 <= inum < sb.ninodes && 0 <= g.inodes[inum].size <= MAXFILE * BSIZE
      requires 0 <= off < UINT && 0 <= i < n < UINT / 2 && i <= |src| <= n && off + i < UINT && IsBytes(src)
      requires OthersKept(sb, f, g, inum) && (solid ==> HoleFree(sb, g, inum)) && (i == 0 ==> g == f)
      requires |f.inodes| == sb.ninodes && g.inodes == f.inodes[inum := g.inodes[inum]] && |c| == f.inodes[inum].size
      requires Progress(c, off, src, i, Visible(sb, g, inum)) && Stored(sb, f, g, inum)
      requires i > 0 ==> off <= |c| && off + i <= g.inodes[inum].size && sb.IBlock(inum) in Union(ts)
      requires txns == t0 + ts && ChunksOk(sb, solid, ts) && Chunked(i, n, |ts|)
      requires Recorded(sb, f, g, inum, off, off + i, Union(ts), {})
      modifies this`g, this`owner, this`logged, this`unlogged, this`txns
      ensures Valid() && 0 <= g.inodes[inum].size <= MAXFILE * BSIZE && OthersKept(sb, f, g, inum)
      ensures (solid ==> HoleFree(sb, g, inum)) && Stored(sb, f, g, inum) && -1 <= r <= n1
      ensures g.inodes == f.inodes[inum := g.inodes[inum]] && n1 == if n - i > 3 * BSIZE then 3 * BSIZE else n - i
      ensures txns == t0 + (ts + [logged]) && txns[|t0|..] == ts + [logged] && ChunksOk(sb, solid, ts + [logged])
      ensures r == n1 ==>
        && i + n1 <= |src| && Progress(c, off, src, i + n1, Visible(sb, g, inum)) && Chunked(i + n1, n, |ts| + 1)
        && off <= |c| && off + i + n1 <= g.inodes[inum].size && sb.IBlock(inum) in Union(ts + [logged])
        && Recorded(sb, f, g, inum, off, off + i + n1, Union(ts + [logged]), {})
      ensures r != n1 ==>
        && Stopped(c, off, src, w, off + i + (if r > 0 then r else 0), Visible(sb, g, inum))
        && (|src| < n || off > |c| || off + n > MAXFILE * BSIZE || Full(sb, g)) && (off > |c| ==> g == f)
        && Covered(f.blocks, g.blocks, Union(ts + [logged]) + unlogged)
        && (g.inodes != f.inodes ==> sb.IBlock(inum) in Union(ts + [logged]))
    {
      hide Conserved, WellFormed, Visible, HoleFree, Mapped, Full, Addr, OthersKept, Splice, Touched, Recorded, Covered;
      hide Union, ChunkOk, ChunksOk, Chunked, Stored, Reported, ChunkEnd, Stopped, IsBytes, Piece, Max, Progress;
      n1 := if n - i > 3 * BSIZE then 3 * BSIZE else n - i;
      ConservedWellFormed(sb, g, owner);
      PieceFrom(src, i, n1);
      ghost var before := Visible(sb, g, inum);
      r, w := WriteChunk(inum, Piece(src, i, n1), off + i, n1, f, off, ts, solid, t0);
      if r == n1 {
        NextChunk(c, off, src, i, n1, before, w, Visible(sb, g, inum));
        ChunkedMore(i, n, |ts|);
      } else {
        w := if r == -1 then [] else w;
        ChunkedEnd(i, n, |ts|);
        WriteStopped(c, off, src, i, n1, before, w, Visible(sb, g, inum), r, n);
        w := src[..i] + w;
      }
    }

    /** filewrite: the write in chunks of at most three blocks, each its own transaction. If it returns n
        the effect is that of one write of all n bytes, and every block that changed, every block of those bytes and
        the inode's block are in one of its transactions; otherwise only the block of a failed copy is not. */
    method Filewrite(inum: int, src: seq<int>, off: int, n: int) returns (ret: int, pos: int, ghost w: seq<int>)
      requires Valid() && 0 <= inum < sb.ninodes && 0 <= g.inodes[inum].size <= MAXFILE * BSIZE
      requires 0 <= off < UINT && n < UINT / 2 && (|src| <= n || src == [])
      requires IsBytes(src)
      modifies this`g, this`owner, this`logged, this`unlogged, this`txns
      ensures Valid() && 0 <= g.inodes[inum].size <= MAXFILE * BSIZE && OthersKept(sb, old(g), g, inum)
      ensures HoleFree(sb, old(g), inum) ==> HoleFree(sb, g, inum)
      ensures ret == n || ret == -1
      ensures ret == n && n >= 0 ==> |src| == n && pos == off + n
      ensures ret == n && n > 0 ==> off <= old(g).inodes[inum].size
      ensures ret == n && n > 0 ==> Visible(sb, g, inum) == Splice(Visible(sb, old(g), inum), off, src)
      ensures ret == n && n == 0 ==> g == old(g)
      ensures ret == -1 && n >= 0 ==>
        |src| < n || off > old(g).inodes[inum].size || off + n > MAXFILE * BSIZE || Full(sb, g)
      ensures n < 0 ==> ret == -1 && pos == off && g == old(g)
      ensures ret == -1 && n >= 0 ==> Stopped(Visible(sb, old(g), inum), off, src, w, pos, Visible(sb, g, inum))
      ensures ret == -1 && off > old(g).inodes[inum].size ==> g == old(g)
      ensures Stored(sb, old(g), g, inum)
      ensures old(txns) <= txns && g.inodes == old(g.inodes)[inum := g.inodes[inum]]
      ensures ChunksOk(sb, HoleFree(sb, old(g), inum), txns[|old(txns)|..])
      ensures ret == n && n > 0 ==> |txns| == |old(txns)| + (n + 3 * BSIZE - 1) / (3 * BSIZE)
      ensures ret == n && n > 0 ==> Recorded(sb, old(g), g, inum, off, off + n, Union(txns[|old(txns)|..]), {})
      ensures ret == -1 ==> Covered(old(g).blocks, g.blocks, Union(txns[|old(txns)|..]) + unlogged)
      ensures g.inodes != old(g.inodes) ==> sb.IBlock(inum) in Union(txns[|old(txns)|..])
    {
      hide Conserved, WellFormed, Visible, HoleFree, Mapped, Full, Addr, OthersKept, Splice, Touched, Recorded, Covered;
      hide Union, ChunkOk, ChunksOk, Chunked, Stored, Reported, ChunkEnd, Stopped, IsBytes, Piece, Max, Progress;
      ConservedWellFormed(sb, g, owner);
      OthersRefl(sb, g, inum);
      RecordedNothing(sb, g, inum, off, {});
      StoredSame(sb, g, inum);
      ghost var f, c, solid := g, Visible(sb, g, inum), HoleFree(sb, g, inum);
      NoProgress(c, off, src);
      ghost var ts: seq<set<int>> := [];
      NoUnion(ts);
      NoChunks(sb, solid, ts);
      NotChunked(n);
      pos, w := off, [];
      var i := 0;
      while i < n
        invariant 0 <= i && (i <= n || i == 0) && i <= |src| && pos == off + i
        invariant Valid() && OthersKept(sb, f, g, inum) && (solid ==> HoleFree(sb, g, inum)) && (i == 0 ==> g == f)
        invariant |g.inodes| == |f.inodes| == sb.ninodes && 0 <= g.inodes[inum].size <= MAXFILE * BSIZE
        invariant g.inodes == f.inodes[inum := g.inodes[inum]] && Stored(sb, f, g, inum)
        invariant Progress(c, off, src, i, Visible(sb, g, inum)) && (i > 0 ==> off <= |c|)
        invariant i > 0 ==> pos <= g.inodes[inum].size
        invariant txns == old(txns) + ts && ChunksOk(sb, solid, ts)
        invariant Chunked(i, n, |ts|)
        invariant Recorded(sb, f, g, inum, off, pos, Union(ts), {}) && (i > 0 ==> sb.IBlock(inum) in Union(ts))
      {
        var n1, r;
        n1, r, w := FileTurn(inum, src, off, n, i, f, c, ts, solid, old(txns));
        ts := ts + [logged];
        if r > 0 {
          pos := pos + r;
        }
        if r != n1 {
          ret := -1;
          return;
        }
        i := i + r;
      }
      AllChunked(i, n, |ts|);
      TailOf(old(txns), ts);
      RecordedCovers(sb, f, g, inum, off, pos, Union(ts), {}, unlogged);
      ret := if i == n then n else -1;
      if i == n && n > 0 { AllWritten(c, off, src, Visible(sb, g, inum)); }
    }

    /** Write the in-memory inode over its bytes in an inode block, and log that block. Every other inode reads as it
        did, and no file changes. */
    method Iupdate(inum: int)
      requires Valid() && 0 <= inum < sb.ninodes && 0 <= g.inodes[inum].size < UINT
      modifies this`g, this`logged, this`unlogged
      ensures Valid() && SameView(sb, old(g), g) && InodePut(sb, old(g).blocks, g.blocks, inum, g.inodes[inum])
      ensures Covered(old(g).blocks, g.blocks, {sb.IBlock(inum)}) && g.inodes == old(g.inodes)
      ensures logged == old(logged) + {sb.IBlock(inum)} && unlogged == old(unlogged) - {sb.IBlock(inum)}
    {
      hide Structure, SameView, InodeAt, PutInode;
      ConservedWellFormed(sb, g, owner);
      var b := sb.IBlock(inum);
      WellFormedReadable(sb, g);
      InodeWords(sb, g, inum);
      InodeStored(sb, g.blocks, inum, g.inodes[inum], g.blocks[b := PutInode(g.blocks[b], inum % IPB, g.inodes[inum])]);
      PutMeta(sb, g, owner, b, PutInode(g.blocks[b], inum % IPB, g.inodes[inum]));
      ViewMarked(sb, g, PutBlock(g, b, PutInode(g.blocks[b], inum % IPB, g.inodes[inum])), owner.Keys);
      Store(b, PutInode(g.blocks[b], inum % IPB, g.inodes[inum]));
      LogWrite(b);
    }

    /** Free the block in an entry of addrs and empty the entry. */
    method FreeEntry(inum: int, i: int)
      requires Valid() && 0 <= inum < sb.ninodes && 0 <= i < NDIRECT && g.inodes[inum].addrs[i] != 0
      modifies this`g, this`owner, this`logged, this`unlogged
      ensures Valid() && owner == Dropped(old(owner), inum, i) && OthersKept(sb, old(g), g, inum)
      ensures g.inodes == PutAddr(old(g), inum, i, 0).inodes && unlogged <= old(unlogged)
      ensures old(logged) <= logged && Covered(old(g).blocks, g.blocks, logged)
      ensures DataOnly(sb, old(g).blocks, g.blocks, old(logged), logged)
    {
      hide BlockBit, Word;
      ghost var g0, o0 := g, owner;
      var b := g.inodes[inum].addrs[i];
      EntryFreed(sb, g, owner, inum, i);
      Bfree(b);
      g := g.(inodes := g.inodes[inum := g.inodes[inum].(addrs := g.inodes[inum].addrs[i := 0])]);
      owner := Dropped(owner, inum, i);
    }

    /** Free every block the indirect block lists; the words themselves stay. */
    method FreeWords(inum: int)
      requires Valid() && 0 <= inum < sb.ninodes && g.inodes[inum].addrs[NDIRECT] != 0
      modifies this`g, this`logged, this`unlogged
      ensures Structure(sb, g, owner) && Marked(sb, g, owner.Keys - ViaBelow(owner, inum, NINDIRECT))
      ensures Extends(sb, old(g), g) && g.inodes == old(g.inodes) && unlogged <= old(unlogged)
      ensures old(logged) <= logged && Covered(old(g).blocks, g.blocks, logged)
      ensures DataOnly(sb, old(g).blocks, g.blocks, old(logged), logged)
    {
      NothingCovered(g.blocks, logged);
      NoneTouched(sb, g.blocks, logged);
      var ind := g.inodes[inum].addrs[NDIRECT];
      var a := g.blocks[ind];
      ExtendsRefl(sb, g);
      assert owner.Keys - ViaBelow(owner, inum, 0) == owner.Keys by {
        forall b | b in owner ensures b !in ViaBelow(owner, inum, 0) { assert IsSlot(g, owner[b]); }
      }
      hide BlockBit, Word, Extends, Marked, Used, MarkFree, Addr, Covered, DataOnly;
      var j := 0;
      while j < NINDIRECT
        invariant 0 <= j <= NINDIRECT
        invariant Structure(sb, g, owner) && Marked(sb, g, owner.Keys - ViaBelow(owner, inum, j))
        invariant Extends(sb, old(g), g) && g.inodes == old(g.inodes) && g.blocks[ind] == a && unlogged <= old(unlogged)
        invariant old(logged) <= logged && Covered(old(g).blocks, g.blocks, logged)
        invariant DataOnly(sb, old(g).blocks, g.blocks, old(logged), logged)
      {
        ghost var h, l := g, logged;
        WordFreed(sb, g, owner, inum, j);
        if Word(a, j) != 0 {
          Bfree(Word(a, j));
          ExtendsTrans(sb, old(g), h, g);
          CoveredTrans(old(g).blocks, h.blocks, g.blocks, l, logged);
          DataOnlyTrans(sb, old(g).blocks, h.blocks, g.blocks, old(logged), l, logged);
        }
        j := j + 1;
      }
    }

    /** The first loop of itrunc: the direct blocks. */
    method FreeDirect(inum: int)
      requires Valid() && 0 <= inum < sb.ninodes
      modifies this`g, this`owner, this`logged, this`unlogged
      ensures Valid() && owner == Disowned(old(owner), inum, NDIRECT) && OthersKept(sb, old(g), g, inum)
      ensures forall k :: 0 <= k < NDIRECT ==> g.inodes[inum].addrs[k] == 0
      ensures old(logged) <= logged && Covered(old(g).blocks, g.blocks, logged) && unlogged <= old(unlogged)
      ensures DataOnly(sb, old(g).blocks, g.blocks, old(logged), logged)
      ensures g.inodes == old(g.inodes)[inum := g.inodes[inum]]
    {
      hide BlockBit, Word, Marked, Addr, Covered, DataOnly, OthersKept;
      NothingCovered(g.blocks, logged);
      NoneTouched(sb, g.blocks, logged);
      OthersRefl(sb, g, inum);
      NoneDisowned(sb, g, owner, inum);
      var i := 0;
      while i < NDIRECT
        invariant 0 <= i <= NDIRECT && Valid()
        invariant owner == Disowned(old(owner), inum, i) && OthersKept(sb, old(g), g, inum)
        invariant forall k :: 0 <= k < i ==> g.inodes[inum].addrs[k] == 0
        invariant old(logged) <= logged && Covered(old(g).blocks, g.blocks, logged) && unlogged <= old(unlogged)
        invariant DataOnly(sb, old(g).blocks, g.blocks, old(logged), logged)
        invariant g.inodes == old(g.inodes)[inum := g.inodes[inum]]
      {
        ghost var h, o, l := g, owner, logged;
        if g.inodes[inum].addrs[i] != 0 {
          FreeEntry(inum, i);
          OthersTrans(sb, old(g), h, g, inum);
          CoveredTrans(old(g).blocks, h.blocks, g.blocks, l, logged);
          DataOnlyTrans(sb, old(g).blocks, h.blocks, g.blocks, old(logged), l, logged);
          DisownNext(old(owner), inum, i);
        } else {
          EmptyEntry(sb, g, owner, old(owner), inum, i);
        }
        i := i + 1;
      }
    }

    /** Its second half: the blocks the indirect block lists, and that block. */
    method FreeIndirect(inum: int)
      requires Valid() && 0 <= inum < sb.ninodes && g.inodes[inum].addrs[NDIRECT] != 0
      modifies this`g, this`owner, this`logged, this`unlogged
      ensures Valid() && owner == Dropped(old(owner), inum, NDIRECT) && OthersKept(sb, old(g), g, inum)
      ensures g.inodes == PutAddr(old(g), inum, NDIRECT, 0).inodes && unlogged <= old(unlogged)
      ensures old(logged) <= logged && Covered(old(g).blocks, g.blocks, logged)
      ensures DataOnly(sb, old(g).blocks, g.blocks, old(logged), logged)
    {
      hide BlockBit, Word, Marked, Addr, Covered, DataOnly, OthersKept, Extends;
      FreeWords(inum);
      var ind := g.inodes[inum].addrs[NDIRECT];
      ghost var k, l := g, logged;
      IndirectFreed(sb, old(g), g, owner, inum);
      Bfree(ind);
      CoveredTrans(old(g).blocks, k.blocks, g.blocks, l, logged);
      DataOnlyTrans(sb, old(g).blocks, k.blocks, g.blocks, old(logged), l, logged);
      g := g.(inodes := g.inodes[inum := g.inodes[inum].(addrs := g.inodes[inum].addrs[NDIRECT := 0])]);
      owner := Dropped(owner, inum, NDIRECT);
    }

    /** Discard the file's contents: exactly its own blocks become free, no other file changes, and
        none of the calls frees a block that is already free. */
    method Itrunc(inum: int)
      requires Valid() && 0 <= inum < sb.ninodes
      modifies this`g, this`owner, this`logged, this`unlogged
      ensures Valid() && owner.Keys == old(owner).Keys - OwnedBy(old(owner), inum) && OthersKept(sb, old(g), g, inum)
      ensures forall b :: b in owner ==> owner[b] == old(owner)[b]
      ensures g.inodes[inum].size == 0 && InodePut(sb, old(g).blocks, g.blocks, inum, g.inodes[inum])
      ensures forall k :: 0 <= k <= NDIRECT ==> g.inodes[inum].addrs[k] == 0
      ensures Covered(old(g).blocks, g.blocks, logged) && sb.IBlock(inum) in logged && unlogged <= old(unlogged)
      ensures HomeBlocks(sb, old(logged), logged) && g.inodes == old(g.inodes)[inum := g.inodes[inum]]
    {
      hide BlockBit, Word, Marked, Addr, Covered, DataOnly, InodePut, SameView, OthersKept;
      FreeDirect(inum);
      ghost var h, l := g, logged;
      if g.inodes[inum].addrs[NDIRECT] != 0 {
        FreeIndirect(inum);
        OthersTrans(sb, old(g), h, g, inum);
        CoveredTrans(old(g).blocks, h.blocks, g.blocks, l, logged);
        DataOnlyTrans(sb, old(g).blocks, h.blocks, g.blocks, old(logged), l, logged);
        DisownNext(old(owner), inum, NDIRECT);
      } else {
        EmptyEntry(sb, g, owner, old(owner), inum, NDIRECT);
      }
      AllDisowned(sb, old(g), old(owner), inum);
      h, l := g, logged;
      SizeCleared(sb, h, owner, inum, h.(inodes := h.inodes[inum := h.inodes[inum].(size := 0)]));
      g := g.(inodes := g.inodes[inum := g.inodes[inum].(size := 0)]);
      OthersTrans(sb, old(g), h, g, inum);
      h := g;
      Iupdate(inum);
      ViewKept(sb, h, g, inum);
      OthersTrans(sb, old(g), h, g, inum);
      CoveredWider(old(g).blocks, h.blocks, l, logged);
      CoveredWider(h.blocks, g.blocks, {sb.IBlock(inum)}, logged);
      CoveredTrans(old(g).blocks, h.blocks, g.blocks, logged, logged);
      WellFormedReadable(sb, old(g));
      InodePutAfter(sb, old(g).blocks, h.blocks, g.blocks, old(logged), l, inum, g.inodes[inum]);
    }
  }
}
