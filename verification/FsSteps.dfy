/** What one allocation, one lookup and one truncation do to an image, step by step. */
module FsSteps {
  import opened Bytes
  import opened FsImage
  import opened Dirs

  lemma {:induction false} ZeroBlock()
    ensures IsBlock(Zero()) && forall j :: 0 <= j < NINDIRECT ==> Word(Zero(), j) == 0
  {
  }

  /** What bmap promises: files keep their blocks and contents, the block asked for is mapped and
      zero if it is new, and 0 means that no block was free. */
  ghost predicate BlockMapped(sb: Super, g: Image, o: map<int, Slot>, h: Image, p: map<int, Slot>, inum: int, bn: int,
                              addr: int)
    requires WellFormed(sb, g) && WellFormed(sb, h) && 0 <= inum < sb.ninodes && 0 <= bn < MAXFILE
  {
    && Extends(sb, g, h) && OnlyGrew(o, p, inum, bn)
    && (Mapped(sb, g, inum, bn) ==> h == g && p == o && addr != 0)
    && (addr != 0 ==> Mapped(sb, h, inum, bn) && addr == Addr(sb, h, SlotOf(inum, bn)))
    && (addr == 0 ==> Full(sb, h) && Addr(sb, h, SlotOf(inum, bn)) == 0)
    && (!Mapped(sb, g, inum, bn) && addr != 0 ==> BlockOf(sb, h, inum, bn) == Zero())
  }

  lemma {:induction false} UseMapped(sb: Super, g: Image, o: map<int, Slot>, h: Image, p: map<int, Slot>, inum: int,
                                     bn: int, addr: int)
    requires WellFormed(sb, g) && WellFormed(sb, h) && 0 <= inum < sb.ninodes && 0 <= bn < MAXFILE
    requires BlockMapped(sb, g, o, h, p, inum, bn, addr)
    ensures Extends(sb, g, h)
    ensures Mapped(sb, g, inum, bn) ==> h == g && p == o && addr != 0
    ensures addr == 0 ==> Full(sb, h)
    ensures addr != 0 ==> Mapped(sb, h, inum, bn) && addr == Addr(sb, h, SlotOf(inum, bn))
    ensures addr != 0 ==> 0 <= addr < |h.blocks| && |h.blocks[addr]| == BSIZE
  {
  }

  /** What bmap gives to log_write: at most a bitmap block for the new block and one for a new
      indirect block, besides these blocks themselves. */
  ghost predicate Logs(sb: Super, g: Image, l: set<int>, h: Image, m: set<int>, inum: int, bn: int, addr: int,
                       marks: set<int>)
    requires WellFormed(sb, g) && WellFormed(sb, h) && 0 <= inum < sb.ninodes && 0 <= bn < MAXFILE
  {
    && m <= l + marks + NonZero(addr) + Indirect(h, inum)
    && |marks| <= (if Mapped(sb, g, inum, bn) || addr == 0 then 0 else 1) + |Indirect(h, inum)| - |Indirect(g, inum)|
    && (forall x :: x in marks ==> sb.bmapstart <= x <= sb.bmapstart + (sb.size - 1) / BPB)
    && Indirect(g, inum) <= Indirect(h, inum)
  }

  /** A block number already in the slot. */
  lemma {:induction false} LookupMaps(sb: Super, g: Image, o: map<int, Slot>, l: set<int>, inum: int, bn: int,
                                      addr: int)
    requires Structure(sb, g, o) && 0 <= inum < sb.ninodes && 0 <= bn < MAXFILE
    requires addr == Addr(sb, g, SlotOf(inum, bn)) && addr != 0
    ensures Mapped(sb, g, inum, bn) && BlockMapped(sb, g, o, g, o, inum, bn, addr)
    ensures Logs(sb, g, l, g, l, inum, bn, addr, {})
  {
    hide Addr;
    ExtendsRefl(sb, g);
    NonzeroMapped(sb, g, o, inum, bn);
  }

  /** A block number just allocated into the slot, or the failure to allocate one. */
  lemma {:induction false} GrowthMaps(sb: Super, g: Image, o: map<int, Slot>, h: Image, p: map<int, Slot>, inum: int,
                                      bn: int, b: int)
    requires Structure(sb, g, o) && Structure(sb, h, p) && 0 <= inum < sb.ninodes && 0 <= bn < MAXFILE
    requires Addr(sb, g, SlotOf(inum, bn)) == 0 && Grown(sb, g, o, h, p, SlotOf(inum, bn), b)
    ensures !Mapped(sb, g, inum, bn) && BlockMapped(sb, g, o, h, p, inum, bn, b)
  {
    hide Addr;
    NonzeroMapped(sb, g, o, inum, bn);
    NonzeroMapped(sb, h, p, inum, bn);
  }

  lemma {:induction false} GrowthLogs(sb: Super, g: Image, o: map<int, Slot>, l: set<int>, h: Image, p: map<int, Slot>,
                                      m: set<int>, inum: int, bn: int, b: int, marks: set<int>)
    requires Structure(sb, g, o) && Structure(sb, h, p) && 0 <= inum < sb.ninodes && 0 <= bn < MAXFILE
    requires Addr(sb, g, SlotOf(inum, bn)) == 0 && Grown(sb, g, o, h, p, SlotOf(inum, bn), b)
    requires Indirect(h, inum) == Indirect(g, inum)
    requires marks == if b == 0 then {} else {sb.BBlock(b)}
    requires m <= l + marks + NonZero(b) + Indirect(h, inum)
    ensures Logs(sb, g, l, h, m, inum, bn, b, marks)
  {
    hide Addr, Structure, Extends;
  }

  lemma {:induction false} NoIndirect(sb: Super, g: Image, o: map<int, Slot>, l: set<int>, inum: int, bn: int)
    requires Structure(sb, g, o) && 0 <= inum < sb.ninodes && NDIRECT <= bn < MAXFILE && Full(sb, g)
    requires g.inodes[inum].addrs[NDIRECT] == 0
    ensures BlockMapped(sb, g, o, g, o, inum, bn, 0) && Logs(sb, g, l, g, l, inum, bn, 0, {})
  {
    ExtendsRefl(sb, g);
    NonzeroMapped(sb, g, o, inum, bn);
  }

  /** A fresh indirect block lists nothing, so the block asked for is fresh too. */
  lemma {:induction false} FreshIndirect(sb: Super, g: Image, o: map<int, Slot>, h: Image, p: map<int, Slot>, inum: int,
                                         bn: int, ind: int)
    requires Structure(sb, g, o) && Structure(sb, h, p) && 0 <= inum < sb.ninodes && NDIRECT <= bn < MAXFILE
    requires g.inodes[inum].addrs[NDIRECT] == 0 && ind != 0
    requires Grown(sb, g, o, h, p, Direct(inum, NDIRECT), ind)
    ensures !Mapped(sb, g, inum, bn) && !Mapped(sb, h, inum, bn)
  {
    ZeroBlock();
  }

  lemma {:induction false} AfterIndirect(sb: Super, g: Image, o: map<int, Slot>, h: Image, p: map<int, Slot>, k: Image,
                                         q: map<int, Slot>, inum: int, bn: int, ind: int, addr: int)
    requires Structure(sb, g, o) && Structure(sb, h, p) && Structure(sb, k, q)
    requires 0 <= inum < sb.ninodes && NDIRECT <= bn < MAXFILE
    requires g.inodes[inum].addrs[NDIRECT] == 0 && ind != 0
    requires Grown(sb, g, o, h, p, Direct(inum, NDIRECT), ind)
    requires BlockMapped(sb, h, p, k, q, inum, bn, addr)
    ensures BlockMapped(sb, g, o, k, q, inum, bn, addr)
    ensures !Mapped(sb, g, inum, bn)
  {
    FreshIndirect(sb, g, o, h, p, inum, bn, ind);
    ExtendsTrans(sb, g, h, k);
    hide Addr, Structure, Extends, Mapped;
  }

  lemma {:induction false} AfterIndirectLogs(sb: Super, g: Image, o: map<int, Slot>, l: set<int>, h: Image,
                                             p: map<int, Slot>, m: set<int>, k: Image, q: map<int, Slot>, r: set<int>,
                                             inum: int, bn: int, ind: int, addr: int, marks: set<int>)
    requires Structure(sb, g, o) && Structure(sb, h, p) && Structure(sb, k, q)
    requires 0 <= inum < sb.ninodes && NDIRECT <= bn < MAXFILE
    requires g.inodes[inum].addrs[NDIRECT] == 0 && ind != 0 && h.inodes[inum].addrs[NDIRECT] == ind
    requires Grown(sb, g, o, h, p, Direct(inum, NDIRECT), ind) && m == l + {sb.BBlock(ind), ind}
    requires Logs(sb, h, m, k, r, inum, bn, addr, marks)
    ensures Logs(sb, g, l, k, r, inum, bn, addr, marks + {sb.BBlock(ind)})
  {
    FreshIndirect(sb, g, o, h, p, inum, bn, ind);
    hide Addr, Structure, Extends, Mapped;
  }

  /** Files other than inum keep their blocks, their contents and their sizes. */
  ghost predicate OthersKept(sb: Super, g: Image, h: Image, inum: int) {
    && WellFormed(sb, g) && WellFormed(sb, h)
    && (forall i :: 0 <= i < |g.inodes| && i != inum ==> h.inodes[i].size == g.inodes[i].size)
    && (forall i, m :: i != inum && Mapped(sb, g, i, m) ==>
          Mapped(sb, h, i, m) && Addr(sb, h, SlotOf(i, m)) == Addr(sb, g, SlotOf(i, m))
          && BlockOf(sb, h, i, m) == BlockOf(sb, g, i, m))
  }

  lemma {:induction false} EntryFreed(sb: Super, g: Image, o: map<int, Slot>, inum: int, i: int)
    requires Conserved(sb, g, o) && 0 <= inum < sb.ninodes && 0 <= i < NDIRECT && g.inodes[inum].addrs[i] != 0
    ensures Used(sb, g, g.inodes[inum].addrs[i])
    ensures var h := PutAddr(MarkFree(sb, g, g.inodes[inum].addrs[i]), inum, i, 0);
            Conserved(sb, h, Dropped(o, inum, i)) && OthersKept(sb, g, h, inum)
  {
    hide Word, BlockBit, Used;
    var b := g.inodes[inum].addrs[i];
    assert Addr(sb, g, Direct(inum, i)) == b && o[b] == Direct(inum, i);
    MarkFreeEffect(sb, g, o, o.Keys, b);
    var k := MarkFree(sb, g, b);
    var h := PutAddr(k, inum, i, 0);
    DropEntry(sb, k, o, inum, i);
    MarkedInodes(sb, k, h, o.Keys - {b});
    assert Dropped(o, inum, i).Keys == o.Keys - {b} by {
      forall x | x in o && o[x] == Direct(inum, i) ensures x == b { assert Addr(sb, g, o[x]) == x; }
    }
  }

  /** The blocks that words 0..j of the file's indirect block list. */
  ghost function ViaBelow(o: map<int, Slot>, inum: int, j: int): set<int> {
    set b | b in o && o[b].Via? && o[b].inum == inum && o[b].j < j
  }

  lemma {:induction false} WordFreed(sb: Super, g: Image, o: map<int, Slot>, inum: int, j: int)
    requires Structure(sb, g, o) && Marked(sb, g, o.Keys - ViaBelow(o, inum, j))
    requires 0 <= inum < sb.ninodes && 0 <= j < NINDIRECT && g.inodes[inum].addrs[NDIRECT] != 0
    ensures var ind := g.inodes[inum].addrs[NDIRECT];
            var b := Word(g.blocks[ind], j);
            if b == 0 then ViaBelow(o, inum, j + 1) == ViaBelow(o, inum, j)
            else
              && 0 <= b < sb.size && Used(sb, g, b) && Structure(sb, MarkFree(sb, g, b), o)
              && Marked(sb, MarkFree(sb, g, b), o.Keys - ViaBelow(o, inum, j + 1))
              && Extends(sb, g, MarkFree(sb, g, b)) && MarkFree(sb, g, b).blocks[ind] == g.blocks[ind]
  {
    hide Word, BlockBit;
    var ind := g.inodes[inum].addrs[NDIRECT];
    IndirectOwned(sb, g, o);
    var b := Word(g.blocks[ind], j);
    assert b == Addr(sb, g, Via(inum, j));
    forall x | x in o && o[x] == Via(inum, j) ensures x == b { assert Addr(sb, g, o[x]) == x; }
    if b != 0 {
      assert ViaBelow(o, inum, j + 1) == ViaBelow(o, inum, j) + {b};
      MarkFreeEffect(sb, g, o, o.Keys - ViaBelow(o, inum, j), b);
      assert o.Keys - ViaBelow(o, inum, j) - {b} == o.Keys - ViaBelow(o, inum, j + 1);
    } else {
      forall x | x in ViaBelow(o, inum, j + 1) ensures x in ViaBelow(o, inum, j) {
        assert sb.nmeta <= x;
      }
    }
  }

  /** Everything but the file's own blocks in entries below i; the indirect entry takes its words along. */
  ghost function Disowned(o: map<int, Slot>, inum: int, i: int): map<int, Slot> {
    map b | b in o && !(o[b].inum == inum && (if o[b].Direct? then o[b].i < i else NDIRECT < i)) :: o[b]
  }

  lemma {:induction false} DisownNext(o: map<int, Slot>, inum: int, i: int)
    requires 0 <= i <= NDIRECT
    ensures Dropped(Disowned(o, inum, i), inum, i) == Disowned(o, inum, i + 1)
  {
  }

  lemma {:induction false} NoneDisowned(sb: Super, g: Image, o: map<int, Slot>, inum: int)
    requires Structure(sb, g, o)
    ensures Disowned(o, inum, 0) == o
  {
    forall b | b in o ensures b in Disowned(o, inum, 0) { assert IsSlot(g, o[b]); }
  }

  /** The blocks of a file. */
  ghost function OwnedBy(o: map<int, Slot>, inum: int): set<int> {
    set b | b in o && o[b].inum == inum
  }

  lemma {:induction false} AllDisowned(sb: Super, g: Image, o: map<int, Slot>, inum: int)
    requires Structure(sb, g, o)
    ensures Disowned(o, inum, NDIRECT + 1).Keys == o.Keys - OwnedBy(o, inum)
  {
    forall b | b in o ensures b in Disowned(o, inum, NDIRECT + 1) <==> o[b].inum != inum { assert IsSlot(g, o[b]); }
  }

  /** An empty entry owns nothing. */
  lemma {:induction false} EmptyEntry(sb: Super, g: Image, o: map<int, Slot>, o0: map<int, Slot>, inum: int, i: int)
    requires Structure(sb, g, o) && 0 <= inum < sb.ninodes && 0 <= i <= NDIRECT
    requires g.inodes[inum].addrs[i] == 0 && o == Disowned(o0, inum, i)
    ensures o == Disowned(o0, inum, i + 1)
  {
    forall b | b in o ensures b in Disowned(o0, inum, i + 1) {
      assert Addr(sb, g, o[b]) == b && sb.nmeta <= b;
    }
  }

  lemma {:induction false} OthersRefl(sb: Super, g: Image, inum: int)
    requires WellFormed(sb, g)
    ensures OthersKept(sb, g, g, inum)
  {
  }

  lemma {:induction false} OthersTrans(sb: Super, f: Image, g: Image, h: Image, inum: int)
    requires OthersKept(sb, f, g, inum) && OthersKept(sb, g, h, inum)
    ensures OthersKept(sb, f, h, inum)
  {
    hide Addr;
    forall i, m | i != inum && Mapped(sb, f, i, m)
      ensures Mapped(sb, h, i, m) && Addr(sb, h, SlotOf(i, m)) == Addr(sb, f, SlotOf(i, m))
              && BlockOf(sb, h, i, m) == BlockOf(sb, f, i, m)
    {
      assert Mapped(sb, g, i, m);
    }
  }

  /** Freeing the emptied indirect block and clearing its entry. */
  lemma {:induction false} IndirectFreed(sb: Super, f: Image, g: Image, o: map<int, Slot>, inum: int)
    requires Extends(sb, f, g) && g.inodes == f.inodes && 0 <= inum < sb.ninodes
    requires Structure(sb, g, o) && Marked(sb, g, o.Keys - ViaBelow(o, inum, NINDIRECT))
    requires g.inodes[inum].addrs[NDIRECT] != 0
    ensures Used(sb, g, g.inodes[inum].addrs[NDIRECT])
    ensures var h := PutAddr(MarkFree(sb, g, g.inodes[inum].addrs[NDIRECT]), inum, NDIRECT, 0);
            Conserved(sb, h, Dropped(o, inum, NDIRECT)) && OthersKept(sb, f, h, inum)
  {
    hide Word, BlockBit;
    var ind := g.inodes[inum].addrs[NDIRECT];
    IndirectOwned(sb, g, o);
    var inUse := o.Keys - ViaBelow(o, inum, NINDIRECT);
    MarkFreeEffect(sb, g, o, inUse, ind);
    var k := MarkFree(sb, g, ind);
    var h := PutAddr(k, inum, NDIRECT, 0);
    DropEntry(sb, k, o, inum, NDIRECT);
    MarkedInodes(sb, k, h, inUse - {ind});
    assert Dropped(o, inum, NDIRECT).Keys == inUse - {ind} by {
      forall x | x in o ensures o[x] == Direct(inum, NDIRECT) ==> x == ind { assert Addr(sb, g, o[x]) == x; }
      forall x | x in o ensures IsSlot(g, o[x]) {}
    }
    ExtendsTrans(sb, f, g, k);
  }

  /** Changing a file's size changes no block. */
  lemma {:induction false} SizeOnly(sb: Super, g: Image, h: Image, o: map<int, Slot>, inum: int)
    requires Structure(sb, g, o) && 0 <= inum < sb.ninodes
    requires exists n :: h == g.(inodes := g.inodes[inum := g.inodes[inum].(size := n)])
    ensures Structure(sb, h, o) && OthersKept(sb, g, h, inum)
    ensures forall s :: IsSlot(g, s) ==> Addr(sb, h, s) == Addr(sb, g, s)
    ensures forall i, m :: Mapped(sb, g, i, m) ==> Mapped(sb, h, i, m) && BlockOf(sb, h, i, m) == BlockOf(sb, g, i, m)
  {
    hide Word, BlockBit;
    forall s | IsSlot(g, s) ensures Addr(sb, h, s) == Addr(sb, g, s) {
    }
    forall b | b in o ensures IsSlot(h, o[b]) && Addr(sb, h, o[b]) == b {
      assert Addr(sb, g, o[b]) == b;
    }
  }

  lemma {:induction false} SizeCleared(sb: Super, g: Image, o: map<int, Slot>, inum: int, h: Image)
    requires Conserved(sb, g, o) && 0 <= inum < sb.ninodes && |g.inodes| == sb.ninodes
    requires h == g.(inodes := g.inodes[inum := g.inodes[inum].(size := 0)])
    ensures Conserved(sb, h, o) && OthersKept(sb, g, h, inum)
  {
    SizeOnly(sb, g, h, o, inum);
    MarkedInodes(sb, g, h, o.Keys);
  }

  lemma {:induction false} ConservedSize(sb: Super, g: Image, o: map<int, Slot>, inum: int, n: int, h: Image)
    requires Conserved(sb, g, o) && 0 <= inum < sb.ninodes && |g.inodes| == sb.ninodes
    requires h == g.(inodes := g.inodes[inum := g.inodes[inum].(size := n)])
    ensures Conserved(sb, h, o) && Structure(sb, g, o)
  {
    SizeOnly(sb, g, h, o, inum);
    MarkedInodes(sb, g, h, o.Keys);
  }

  /** A block of a file is not an inode block. */
  lemma {:induction false} DataNotInode(sb: Super, g: Image, o: map<int, Slot>, inum: int)
    requires Conserved(sb, g, o) && 0 <= inum < sb.ninodes
    ensures forall i, m :: Mapped(sb, g, i, m) ==> Addr(sb, g, SlotOf(i, m)) != sb.IBlock(inum)
  {
    hide Addr;
    forall i, m | Mapped(sb, g, i, m) ensures sb.nmeta <= Addr(sb, g, SlotOf(i, m)) {
      assert IsSlot(g, SlotOf(i, m));
    }
  }

  lemma {:induction false} HoleFreeSize(sb: Super, g: Image, inum: int)
    requires HoleFree(sb, g, inum)
    ensures 0 <= inum < |g.inodes| && |Content(sb, g, inum)| == g.inodes[inum].size
    ensures 0 <= g.inodes[inum].size <= MAXFILE * BSIZE
  {
  }

  lemma {:induction false} MappedBelow(sb: Super, g: Image, inum: int, bn: int)
    requires Mapped(sb, g, inum, bn)
    ensures 0 <= bn < MAXFILE && BlockOf(sb, g, inum, bn) == g.blocks[Addr(sb, g, SlotOf(inum, bn))]
    ensures |BlockOf(sb, g, inum, bn)| == BSIZE
  {
  }

  lemma {:induction false} ConservedWellFormed(sb: Super, g: Image, o: map<int, Slot>)
    requires Conserved(sb, g, o)
    ensures WellFormed(sb, g) && |g.inodes| == sb.ninodes && |g.blocks| == sb.size
  {
  }

  lemma {:induction false} ExtendsRefl(sb: Super, g: Image)
    requires WellFormed(sb, g)
    ensures Extends(sb, g, g)
  {
  }

  /** A block number in a slot is that of a data block. */
  lemma {:induction false} NonzeroMapped(sb: Super, g: Image, owner: map<int, Slot>, inum: int, bn: int)
    requires Structure(sb, g, owner) && 0 <= inum < |g.inodes| && 0 <= bn < MAXFILE
    ensures Mapped(sb, g, inum, bn) <==> Addr(sb, g, SlotOf(inum, bn)) != 0
  {
    hide Addr;
    assert IsSlot(g, SlotOf(inum, bn));
  }

  /** Whether the disk is full does not depend on the inodes. */
  lemma {:induction false} FullInodes(sb: Super, g: Image, h: Image)
    requires WellFormed(sb, g) && WellFormed(sb, h) && g.blocks == h.blocks
    ensures Full(sb, g) <==> Full(sb, h)
  {
    hide BlockBit;
    assert forall x :: 0 <= x < sb.size ==> (Used(sb, g, x) <==> Used(sb, h, x));
  }

  /** No block is free. */
  ghost predicate Full(sb: Super, g: Image)
    requires WellFormed(sb, g)
  {
    forall x :: 0 <= x < sb.size ==> Used(sb, g, x)
  }

  /** What a successful or failed allocation into slot s does. */
  ghost predicate Grown(sb: Super, g: Image, o: map<int, Slot>, h: Image, p: map<int, Slot>, s: Slot, b: int) {
    && WellFormed(sb, h) && Extends(sb, g, h) && IsSlot(h, s)
    && (b == 0 ==> h == g && p == o && Full(sb, h))
    && (b != 0 ==> b !in o && p == o[b := s] && sb.nmeta <= b < sb.size && Addr(sb, h, s) == b && h.blocks[b] == Zero())
  }

  lemma {:induction false} EntryAddr(sb: Super, g: Image, inum: int, i: int)
    requires WellFormed(sb, g) && IsSlot(g, Direct(inum, i))
    ensures Addr(sb, g, Direct(inum, i)) == g.inodes[inum].addrs[i]
  {
  }

  lemma {:induction false} IndirectKept(sb: Super, g: Image, h: Image, o: map<int, Slot>, inum: int, j: int, b: int)
    requires Structure(sb, g, o) && WellFormed(sb, h) && IsSlot(g, Via(inum, j)) && sb.nmeta <= b < sb.size && b !in o
    requires h == PutBlock(MarkUsed(sb, g, b), b, Zero())
    ensures Addr(sb, h, Via(inum, j)) == Addr(sb, g, Via(inum, j))
  {
    IndirectOwned(sb, g, o);
  }

  ghost function NonZero(b: int): set<int> { if b == 0 then {} else {b} }

  ghost function Indirect(g: Image, inum: int): set<int>
    requires 0 <= inum < |g.inodes| && |g.inodes[inum].addrs| == NDIRECT + 1
  {
    NonZero(g.inodes[inum].addrs[NDIRECT])
  }

  /** No block changed owner, and the only new ones are the file's block bn and its indirect block. */
  ghost predicate OnlyGrew(o: map<int, Slot>, p: map<int, Slot>, inum: int, bn: int) {
    && (forall b :: b in o ==> b in p && p[b] == o[b])
    && (forall b :: b in p && b !in o ==> p[b] == SlotOf(inum, bn) || p[b] == Direct(inum, NDIRECT))
  }

  lemma {:induction false} ExtendsTrans(sb: Super, f: Image, g: Image, h: Image)
    requires Extends(sb, f, g) && Extends(sb, g, h)
    ensures Extends(sb, f, h)
  {
    hide Addr;
    forall i, m | Mapped(sb, f, i, m)
      ensures Mapped(sb, h, i, m) && Addr(sb, h, SlotOf(i, m)) == Addr(sb, f, SlotOf(i, m))
              && BlockOf(sb, h, i, m) == BlockOf(sb, f, i, m)
    {
      assert Mapped(sb, g, i, m);
    }
  }

  /** The bitmap does not depend on the inodes. */
  lemma {:induction false} MarkedInodes(sb: Super, g: Image, h: Image, inUse: set<int>)
    requires WellFormed(sb, g) && WellFormed(sb, h) && g.blocks == h.blocks && Marked(sb, g, inUse)
    ensures Marked(sb, h, inUse)
  {
    forall x | 0 <= x < sb.size ensures Used(sb, h, x) <==> Used(sb, g, x) {
    }
  }

  /** What bmap newly maps is the block asked for, and nothing else. */
  lemma {:induction false} NewlyMapped(sb: Super, g: Image, o: map<int, Slot>, h: Image, p: map<int, Slot>, inum: int,
                                       bn: int, x: int)
    requires Structure(sb, g, o) && Structure(sb, h, p) && 0 <= inum < sb.ninodes && 0 <= bn < MAXFILE
    requires BlockMapped(sb, g, o, h, p, inum, bn, x)
    ensures forall i, m :: Mapped(sb, h, i, m) && !(i == inum && m == bn) ==> Mapped(sb, g, i, m)
  {
    hide Addr, Full, Extends;
    forall i, m | Mapped(sb, h, i, m) && !(i == inum && m == bn) ensures Mapped(sb, g, i, m) {
      var b := Addr(sb, h, SlotOf(i, m));
      assert IsSlot(h, SlotOf(i, m)) && p[b] == SlotOf(i, m);
      assert b in o && o[b] == SlotOf(i, m);
      assert Addr(sb, g, o[b]) == b;
    }
  }

  // ----- reading, holes included

  /** The byte a reader sees: 0 in a hole. */
  ghost function Shown(sb: Super, g: Image, inum: int, k: int): int
    requires 0 <= k
  {
    if Mapped(sb, g, inum, k / BSIZE) then ByteAt(sb, g, inum, k) else 0
  }

  /** What g maps for the file and f does not is zero. */
  ghost predicate ZeroGrowth(sb: Super, f: Image, g: Image, inum: int) {
    forall m :: Mapped(sb, g, inum, m) && !Mapped(sb, f, inum, m) ==> BlockOf(sb, g, inum, m) == Zero()
  }

  lemma {:induction false} ZeroGrowthMore(sb: Super, f: Image, g: Image, o: map<int, Slot>, h: Image, p: map<int, Slot>,
                                          inum: int, bn: int, addr: int)
    requires Conserved(sb, g, o) && Conserved(sb, h, p) && 0 <= inum < sb.ninodes && 0 <= bn < MAXFILE
    requires Extends(sb, f, g) && ZeroGrowth(sb, f, g, inum) && BlockMapped(sb, g, o, h, p, inum, bn, addr)
    ensures Extends(sb, f, h) && ZeroGrowth(sb, f, h, inum)
  {
    NewlyMapped(sb, g, o, h, p, inum, bn, addr);
    ExtendsTrans(sb, f, g, h);
    hide Addr, Marked;
    forall m | Mapped(sb, h, inum, m) && !Mapped(sb, f, inum, m) ensures BlockOf(sb, h, inum, m) == Zero() {
      if m != bn { assert Mapped(sb, g, inum, m); }
    }
  }

  /** The bytes of a block that bmap has found or made are the ones a reader saw before. */
  lemma {:induction false} ShownPart(sb: Super, f: Image, h: Image, inum: int, at: int, j: int)
    requires Extends(sb, f, h) && ZeroGrowth(sb, f, h, inum) && 0 <= at && 0 <= j < BSIZE - at % BSIZE
    requires Mapped(sb, h, inum, at / BSIZE)
    ensures BlockOf(sb, h, inum, at / BSIZE)[at % BSIZE + j] == Shown(sb, f, inum, at + j)
  {
    assert (at + j) / BSIZE == at / BSIZE && (at + j) % BSIZE == at % BSIZE + j;
    hide Addr;
  }

  lemma {:induction false} NothingGrown(sb: Super, g: Image, inum: int)
    requires WellFormed(sb, g)
    ensures Extends(sb, g, g) && ZeroGrowth(sb, g, g, inum)
  {
  }

  /** Reading on after the file grew by zeros. */
  lemma {:induction false} ReadOn(sb: Super, f: Image, g: Image, h: Image, inum: int)
    requires Extends(sb, f, g) && ZeroGrowth(sb, f, g, inum) && Extends(sb, g, h) && ZeroGrowth(sb, g, h, inum)
    ensures Extends(sb, f, h) && ZeroGrowth(sb, f, h, inum)
    ensures |h.inodes| == |f.inodes| && (0 <= inum < |f.inodes| ==> h.inodes[inum].size == f.inodes[inum].size)
    ensures forall m :: Mapped(sb, f, inum, m) ==> Mapped(sb, g, inum, m)
  {
    hide Addr;
    ExtendsTrans(sb, f, g, h);
  }

  /** The bytes of an entry read then are those of the file before. */
  lemma {:induction false} EntryRead(sb: Super, f: Image, g: Image, inum: int, off: int, out: seq<int>, r: int)
    requires Extends(sb, f, g) && ZeroGrowth(sb, f, g, inum) && 0 <= inum < |f.inodes| && 0 <= off
    requires 0 <= f.inodes[inum].size && forall k :: 0 <= k < |out| ==> out[k] == Shown(sb, g, inum, off + k)
    ensures off + |out| <= f.inodes[inum].size ==> out == Visible(sb, f, inum)[off..off + |out|]
  {
    hide Addr, Extends;
    if off + |out| <= f.inodes[inum].size {
      forall k | 0 <= k < |out| ensures out[k] == Visible(sb, f, inum)[off + k] {
        ShownGrown(sb, f, g, inum, off + k);
      }
    }
  }

  /** What a lookup may answer: the first entry in use with that name; that there is none, in a directory of whole
      entries; or a panic at an entry that is cut off, or in a hole of a full disk. */
  ghost predicate Looked(sb: Super, f: Image, g: Image, inum: int, name: seq<int>, l: Lookup)
    requires WellFormed(sb, g) && 0 <= inum < |f.inodes| && 0 <= f.inodes[inum].size
  {
    var c := Visible(sb, f, inum);
    match l
    case Found(i, off) =>
      && 0 <= off && off % 16 == 0 && off + 16 <= |c| && Names(c, off / 16, name)
      && i == EntryNumber(c, off / 16) && NoneNames(c, off / 16, name)
    case Missing => |c| % 16 == 0 && NoneNames(c, |c| / 16, name)
    case ReadPanic(off) =>
      && 0 <= off < |c| && off % 16 == 0 && NoneNames(c, off / 16, name)
      && (off + 16 > |c| || (Full(sb, g) && !Mapped(sb, f, inum, off / BSIZE)))
  }

  /** A file that grew by zeros reads as before. */
  lemma {:induction false} GrownByZero(sb: Super, f: Image, g: Image, inum: int)
    requires Extends(sb, f, g) && ZeroGrowth(sb, f, g, inum) && 0 <= inum < |f.inodes| && 0 <= f.inodes[inum].size
    ensures |g.inodes| == |f.inodes| && g.inodes[inum].size == f.inodes[inum].size && OthersKept(sb, f, g, inum)
    ensures Visible(sb, g, inum) == Visible(sb, f, inum)
  {
    forall k | 0 <= k < f.inodes[inum].size ensures Visible(sb, g, inum)[k] == Visible(sb, f, inum)[k] {
      ShownGrown(sb, f, g, inum, k);
    }
    hide Addr;
  }

  lemma {:induction false} PanicAt(sb: Super, f: Image, g: Image, inum: int, name: seq<int>, l: Lookup)
    requires WellFormed(sb, g) && 0 <= inum < |f.inodes| && 0 <= f.inodes[inum].size && l.ReadPanic?
    requires Looked(sb, f, g, inum, name, l)
    ensures f.inodes[inum].size % 16 != 0 || (Full(sb, g) && !HoleFree(sb, f, inum))
  {
    BelowSize(sb, f, inum, l.off);
    hide HoleFree, Full, NoneNames, WellFormed;
  }

  /** In a directory of whole entries without holes a lookup answers, and there is one answer. */
  lemma {:induction false} OneAnswer(sb: Super, f: Image, g: Image, inum: int, name: seq<int>, l: Lookup, k: int)
    requires WellFormed(sb, g) && HoleFree(sb, f, inum) && f.inodes[inum].size % 16 == 0
    requires Looked(sb, f, g, inum, name, l)
    requires var c := Visible(sb, f, inum);
             && 0 <= k && 16 * k <= |c| && NoneNames(c, k, name) && (16 * k < |c| ==> Names(c, k, name))
    ensures var c := Visible(sb, f, inum);
            l == if 16 * k < |c| then Found(EntryNumber(c, k), 16 * k) else Missing
  {
    hide Names, EntryNumber, Full, Mapped, Visible, WellFormed;
    if l.ReadPanic? { BelowHole(sb, f, inum, l.off); }
  }

  lemma {:induction false} BelowHole(sb: Super, f: Image, inum: int, off: int)
    requires HoleFree(sb, f, inum) && 0 <= off < f.inodes[inum].size
    ensures Mapped(sb, f, inum, off / BSIZE)
  {
    BelowSize(sb, f, inum, off);
  }

  /** dirlink, then dirlookup: the name is found where it was put, with its number. */
  lemma {:induction false} LinkedLookup(sb: Super, g: Image, h: Image, dp: int, c: seq<int>, off: int, inum: int,
                                        name: seq<int>, l: Lookup)
    requires WellFormed(sb, h) && HoleFree(sb, g, dp) && Looked(sb, g, h, dp, name, l)
    requires Place(c, off) && NoneNames(c, |c| / 16, name) && 0 < inum < 0x10000
    requires Visible(sb, g, dp) == WithEntry(c, off, inum, name)
    ensures l == Found(inum, off)
  {
    hide HoleFree, Visible, Looked, NoneNames, Place, WithEntry, Names, EntryNumber, WellFormed;
    HoleFreeSize(sb, g, dp);
    PlaceIn(c, off);
    LinkFound(c, off, inum, name, Visible(sb, g, dp), name);
    OneAnswer(sb, g, h, dp, name, l, off / 16);
  }

  /** And what any other name finds is what it found before. */
  lemma {:induction false} OtherLookup(sb: Super, f: Image, f': Image, g: Image, g': Image, dp: int, off: int,
                                       inum: int, name: seq<int>, other: seq<int>, l: Lookup, l': Lookup)
    requires WellFormed(sb, f') && HoleFree(sb, f, dp) && Looked(sb, f, f', dp, other, l)
    requires WellFormed(sb, g') && HoleFree(sb, g, dp) && Looked(sb, g, g', dp, other, l')
    requires var c := Visible(sb, f, dp);
             && Place(c, off) && NoneNames(c, |c| / 16, name) && Visible(sb, g, dp) == WithEntry(c, off, inum, name)
    requires 0 < inum < 0x10000 && Text(other, 14) != Text(name, 14)
    ensures l' == l
  {
    hide HoleFree, Mapped, Shown, Visible, Full, WellFormed, Text, WithEntry;
    HoleFreeSize(sb, f, dp);
    HoleFreeSize(sb, g, dp);
    var c, d := Visible(sb, f, dp), Visible(sb, g, dp);
    PlaceIn(c, off);
    var k := FirstNamed(c, |c| / 16, other);
    hide Names, EntryNumber, NoneNames, Place, Looked;
    SameFirst(c, off, inum, name, d, other, k);
    OneAnswer(sb, f, f', dp, other, l, k);
    OneAnswer(sb, g, g', dp, other, l', if k < |c| / 16 then k else |d| / 16);
  }

  lemma {:induction false} NowFull(sb: Super, f: Image, g: Image, inum: int)
    requires Extends(sb, f, g) && !HoleFree(sb, g, inum)
    ensures !HoleFree(sb, f, inum)
  {
    if HoleFree(sb, f, inum) { ExtendsContent(sb, f, g, inum); }
  }

  lemma {:induction false} PutNow(sb: Super, f: Image, g: Image, inum: int)
    requires 0 <= inum < |g.inodes| && InodePut(sb, f.blocks, g.blocks, inum, g.inodes[inum])
    ensures Readable(sb, g.blocks) && 0 <= inum < sb.ninodes && DiskInode(sb, g.blocks, inum) == g.inodes[inum]
  {
  }

  lemma {:induction false} ShownGrown(sb: Super, f: Image, g: Image, inum: int, k: int)
    requires Extends(sb, f, g) && ZeroGrowth(sb, f, g, inum) && 0 <= k
    ensures Shown(sb, g, inum, k) == Shown(sb, f, inum, k)
  {
    hide Addr;
  }

  lemma {:induction false} ExtendsAt(sb: Super, f: Image, g: Image, inum: int, bn: int)
    requires Extends(sb, f, g) && Mapped(sb, f, inum, bn)
    ensures Mapped(sb, g, inum, bn)
  {
  }

  /** A block below the size of a file without holes is mapped. */
  lemma {:induction false} BelowSize(sb: Super, g: Image, inum: int, at: int)
    requires 0 <= at && 0 <= inum < |g.inodes| && at < g.inodes[inum].size
    ensures HoleFree(sb, g, inum) ==> Mapped(sb, g, inum, at / BSIZE)
  {
    assert 0 <= at / BSIZE * BSIZE < g.inodes[inum].size;
  }

  /** A file without holes shows its contents. */
  lemma {:induction false} ShownContent(sb: Super, g: Image, inum: int, k: int)
    requires HoleFree(sb, g, inum) && 0 <= k < g.inodes[inum].size
    ensures Shown(sb, g, inum, k) == Content(sb, g, inum)[k]
  {
    BelowSize(sb, g, inum, k);
  }

  /** The file as a reader sees it, holes included. */
  ghost function Visible(sb: Super, g: Image, inum: int): (c: seq<int>)
    requires 0 <= inum < |g.inodes| && 0 <= g.inodes[inum].size
    ensures |c| == g.inodes[inum].size
  {
    seq(g.inodes[inum].size, k requires 0 <= k => Shown(sb, g, inum, k))
  }

  lemma {:induction false} VisibleContent(sb: Super, g: Image, inum: int)
    requires HoleFree(sb, g, inum)
    ensures 0 <= inum < |g.inodes| && 0 <= g.inodes[inum].size && Visible(sb, g, inum) == Content(sb, g, inum)
  {
    hide Shown, Content;
    forall k | 0 <= k < g.inodes[inum].size ensures Visible(sb, g, inum)[k] == Content(sb, g, inum)[k] {
      ShownContent(sb, g, inum, k);
    }
  }

  /** What bmap maps shows what the hole showed. */
  lemma {:induction false} GrowthShown(sb: Super, g: Image, o: map<int, Slot>, h: Image, p: map<int, Slot>, inum: int,
                                       bn: int, addr: int)
    requires Structure(sb, g, o) && Structure(sb, h, p) && 0 <= inum < sb.ninodes && 0 <= bn < MAXFILE
    requires BlockMapped(sb, g, o, h, p, inum, bn, addr)
    ensures ShownKept(sb, g, h, inum)
  {
    NewlyMapped(sb, g, o, h, p, inum, bn, addr);
    hide Addr, Structure;
    forall k | 0 <= k ensures Shown(sb, h, inum, k) == Shown(sb, g, inum, k) {
      if Mapped(sb, h, inum, k / BSIZE) && k / BSIZE != bn { assert Mapped(sb, g, inum, k / BSIZE); }
    }
  }

  ghost predicate ShownKept(sb: Super, g: Image, h: Image, inum: int) {
    forall k :: 0 <= k ==> Shown(sb, h, inum, k) == Shown(sb, g, inum, k)
  }

  /** Images with the same block numbers in the same slots map the same blocks. */
  lemma {:induction false} SameSlots(sb: Super, g: Image, h: Image)
    requires WellFormed(sb, g) && WellFormed(sb, h) && forall s :: IsSlot(g, s) ==> Addr(sb, h, s) == Addr(sb, g, s)
    ensures forall i, m :: Mapped(sb, h, i, m) <==> Mapped(sb, g, i, m)
  {
    hide Addr;
    forall i, m ensures Mapped(sb, h, i, m) <==> Mapped(sb, g, i, m) {
      if 0 <= i < |g.inodes| && 0 <= m < MAXFILE { assert IsSlot(g, SlotOf(i, m)); }
    }
  }

  /** A file whose blocks stayed shows what it showed. */
  lemma {:induction false} ShownSame(sb: Super, g: Image, h: Image, inum: int)
    requires forall m :: Mapped(sb, h, inum, m) <==> Mapped(sb, g, inum, m)
    requires forall m :: Mapped(sb, g, inum, m) ==> BlockOf(sb, h, inum, m) == BlockOf(sb, g, inum, m)
    ensures ShownKept(sb, g, h, inum)
  {
    hide Mapped, BlockOf;
  }

  // ----- which blocks change

  /** Every block that differs is in s. */
  ghost predicate Covered(f: seq<ByteBlock>, g: seq<ByteBlock>, s: set<int>) {
    |f| == |g| && forall b :: 0 <= b < |g| && g[b] != f[b] ==> b in s
  }

  lemma {:induction false} NothingCovered(g: seq<ByteBlock>, s: set<int>)
    ensures Covered(g, g, s)
  {
  }

  lemma {:induction false} CoveredWider(f: seq<ByteBlock>, g: seq<ByteBlock>, s: set<int>, t: set<int>)
    requires Covered(f, g, s) && s <= t
    ensures Covered(f, g, t)
  {
  }

  lemma {:induction false} CoveredTrans(f: seq<ByteBlock>, g: seq<ByteBlock>, h: seq<ByteBlock>, s: set<int>,
                                        t: set<int>)
    requires Covered(f, g, s) && Covered(g, h, t) && s <= t
    ensures Covered(f, h, t)
  {
    forall b | 0 <= b < |h| && h[b] != f[b] ensures b in t {
      assert h[b] != g[b] || g[b] != f[b];
    }
  }

  // ----- where they are

  /** Nothing before the bitmap changed. */
  ghost predicate MetaKept(sb: Super, f: seq<ByteBlock>, g: seq<ByteBlock>) {
    |f| == |g| && forall b :: 0 <= b < sb.bmapstart && b < |f| ==> g[b] == f[b]
  }

  lemma {:induction false} MetaKeptPut(sb: Super, f: seq<ByteBlock>, g: seq<ByteBlock>, b: int, data: ByteBlock)
    requires MetaKept(sb, f, g) && sb.bmapstart <= b < |g|
    ensures MetaKept(sb, f, g[b := data])
  {
  }

  /** Nothing before the bitmap changed, and what was newly given to log_write is a bitmap or data block. */
  ghost predicate DataOnly(sb: Super, f: seq<ByteBlock>, g: seq<ByteBlock>, l: set<int>, m: set<int>) {
    MetaKept(sb, f, g) && forall b :: b in m && b !in l ==> sb.bmapstart <= b < sb.size
  }

  lemma {:induction false} NoneTouched(sb: Super, g: seq<ByteBlock>, l: set<int>)
    ensures DataOnly(sb, g, g, l, l)
  {
  }

  /** A bitmap block and a data block, stored and logged. */
  lemma {:induction false} PairTouched(sb: Super, g: seq<ByteBlock>, l: set<int>, p: int, x: ByteBlock, q: int,
                                       y: ByteBlock)
    requires sb.bmapstart <= p < sb.size && sb.bmapstart <= q < sb.size && |g| == sb.size
    ensures DataOnly(sb, g, g[p := x][q := y], l, l + {p} + {q}) && l + {p} + {q} == l + {p, q}
  {
  }

  lemma {:induction false} DataOnlyTrans(sb: Super, f: seq<ByteBlock>, g: seq<ByteBlock>, h: seq<ByteBlock>,
                                         l: set<int>, m: set<int>, n: set<int>)
    requires DataOnly(sb, f, g, l, m) && DataOnly(sb, g, h, m, n)
    ensures DataOnly(sb, f, h, l, n)
  {
  }

  /** What was newly given to log_write is an inode, bitmap or data block. */
  ghost predicate HomeBlocks(sb: Super, l: set<int>, m: set<int>) {
    forall b :: b in m && b !in l ==> sb.inodestart <= b < sb.size
  }

  lemma {:induction false} NoHomes(sb: Super, l: set<int>)
    ensures HomeBlocks(sb, l, l)
  {
  }

  lemma {:induction false} HomesAfter(sb: Super, f: Image, g: Image, l: set<int>, m: set<int>, n: set<int>)
    requires WellFormed(sb, f) && DataOnly(sb, f.blocks, g.blocks, l, m) && HomeBlocks(sb, m, n)
    ensures HomeBlocks(sb, l, n) && HomeBlocks(sb, l, m)
  {
  }

  /** An inode written to disk after steps that left the inode blocks alone. */
  lemma {:induction false} InodePutAfter(sb: Super, f: seq<ByteBlock>, g: seq<ByteBlock>, h: seq<ByteBlock>,
                                         l: set<int>, m: set<int>, inum: int, n: Inode)
    requires Readable(sb, f) && DataOnly(sb, f, g, l, m) && InodePut(sb, g, h, inum, n)
    ensures InodePut(sb, f, h, inum, n) && HomeBlocks(sb, l, m + {sb.IBlock(inum)})
  {
    hide InodeAt;
  }

  /** The file's inode is on disk as it is in memory, unless nothing was done. */
  ghost predicate Stored(sb: Super, f: Image, g: Image, inum: int) {
    g == f || (0 <= inum < |g.inodes| && InodePut(sb, f.blocks, g.blocks, inum, g.inodes[inum]))
  }

  lemma {:induction false} StoredSame(sb: Super, g: Image, inum: int)
    ensures Stored(sb, g, g, inum)
  {
  }

  lemma {:induction false} WellFormedReadable(sb: Super, g: Image)
    requires WellFormed(sb, g)
    ensures Readable(sb, g.blocks)
  {
  }

  lemma {:induction false} InodeWords(sb: Super, g: Image, inum: int)
    requires WellFormed(sb, g) && 0 <= inum < |g.inodes| && 0 <= g.inodes[inum].size < 0x1_0000_0000
    ensures |g.inodes[inum].addrs| == NDIRECT + 1 && AreWords([g.inodes[inum].size] + g.inodes[inum].addrs)
  {
  }

  /** A file's block is a data block. */
  lemma {:induction false} MappedData(sb: Super, g: Image, o: map<int, Slot>, inum: int, bn: int)
    requires Conserved(sb, g, o) && Mapped(sb, g, inum, bn)
    ensures sb.bmapstart <= Addr(sb, g, SlotOf(inum, bn)) < sb.size
  {
    hide Addr;
    assert IsSlot(g, SlotOf(inum, bn));
  }

  lemma {:induction false} StoredNow(sb: Super, f: Image, g: Image, inum: int)
    requires 0 <= inum < |g.inodes| && InodePut(sb, f.blocks, g.blocks, inum, g.inodes[inum])
    ensures Stored(sb, f, g, inum)
  {
  }

  lemma {:induction false} StoredTrans(sb: Super, f: Image, g: Image, h: Image, inum: int)
    requires Stored(sb, f, g, inum) && Stored(sb, g, h, inum)
    ensures Stored(sb, f, h, inum)
  {
    hide DiskInode;
  }

  /** An image that differs only in its inode blocks. */
  lemma {:induction false} ViewKept(sb: Super, g: Image, h: Image, inum: int)
    requires SameView(sb, g, h) && WellFormed(sb, g) && WellFormed(sb, h) && 0 <= inum < |g.inodes|
    ensures OthersKept(sb, g, h, inum) && ShownKept(sb, g, h, inum) && (Full(sb, h) <==> Full(sb, g))
    ensures HoleFree(sb, g, inum) <==> HoleFree(sb, h, inum)
    ensures 0 <= g.inodes[inum].size ==> Visible(sb, h, inum) == Visible(sb, g, inum)
    ensures forall i, m :: Mapped(sb, g, i, m) <==> Mapped(sb, h, i, m)
  {
    hide Addr, Used, BlockOf;
    forall i, m ensures Mapped(sb, g, i, m) <==> Mapped(sb, h, i, m) {}
    assert ShownKept(sb, g, h, inum) by {
      forall m | Mapped(sb, g, inum, m) ensures BlockOf(sb, h, inum, m) == BlockOf(sb, g, inum, m) {}
      hide Mapped;
      ShownSame(sb, g, h, inum);
    }
  }

  lemma {:induction false} ViewMarked(sb: Super, g: Image, h: Image, inUse: set<int>)
    requires SameView(sb, g, h) && WellFormed(sb, g) && WellFormed(sb, h) && Marked(sb, g, inUse)
    ensures Marked(sb, h, inUse)
  {
    hide Used, Extends;
  }
}
