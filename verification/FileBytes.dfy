/** A file being written: its bytes so far, block by block. */
module FileBytes {
  import opened Bytes
  import opened FsImage
  import opened FsSteps
  import opened Common
  import opened Dirs

  /** c with s laid over it from off on. */
  function Splice(c: seq<int>, off: int, s: seq<int>): seq<int>
    requires 0 <= off <= |c|
  {
    c[..off] + s + if off + |s| < |c| then c[off + |s|..] else []
  }

  /** The block with piece laid over it from o on. */
  function Overlay(b: ByteBlock, o: int, piece: seq<int>): ByteBlock
    requires 0 <= o && o + |piece| <= |b|
  {
    b[..o] + piece + b[o + |piece|..]
  }

  /** In g, file inum shows c with w spliced in at off, as far as either reaches, every other file reads as in f,
      and w lies in mapped blocks. */
  ghost predicate Written(sb: Super, f: Image, g: Image, inum: int, c: seq<int>, off: int, w: seq<int>) {
    && OthersKept(sb, f, g, inum) && 0 <= inum < |g.inodes| == |f.inodes|
    && 0 <= off <= |c| == g.inodes[inum].size == f.inodes[inum].size
    && |c| <= MAXFILE * BSIZE && off + |w| <= MAXFILE * BSIZE
    && Reads(sb, g, inum, c, off, w) && Filled(sb, f, g, inum, off, off + |w|)
  }

  ghost predicate Reads(sb: Super, g: Image, inum: int, c: seq<int>, off: int, w: seq<int>)
    requires 0 <= off <= |c|
  {
    forall k :: 0 <= k < |c| || 0 <= k < off + |w| ==>
      Shown(sb, g, inum, k) == if off <= k < off + |w| then w[k - off] else c[k]
  }

  /** The file still maps what it mapped in f, and the blocks of bytes lo to hi. */
  ghost predicate Filled(sb: Super, f: Image, g: Image, inum: int, lo: int, hi: int) {
    && (forall m :: Mapped(sb, f, inum, m) ==> Mapped(sb, g, inum, m))
    && (lo < hi ==> forall m :: lo / BSIZE <= m && m * BSIZE < hi ==> Mapped(sb, g, inum, m))
  }

  lemma {:induction false} WrittenNothing(sb: Super, g: Image, inum: int, off: int)
    requires WellFormed(sb, g) && 0 <= inum < |g.inodes| && 0 <= off <= g.inodes[inum].size <= MAXFILE * BSIZE
    ensures Written(sb, g, g, inum, Visible(sb, g, inum), off, [])
  {
    OthersRefl(sb, g, inum);
    hide Shown;
  }

  /** What was mapped before the write still is. */
  lemma {:induction false} WrittenMapped(sb: Super, f: Image, g: Image, inum: int, c: seq<int>, off: int, w: seq<int>,
                                         m: int)
    requires Written(sb, f, g, inum, c, off, w) && Mapped(sb, f, inum, m)
    ensures Mapped(sb, g, inum, m)
  {
  }

  /** Mapping another block changes nothing that can be read. */
  lemma {:induction false} WrittenExtends(sb: Super, f: Image, g: Image, h: Image, inum: int, c: seq<int>, off: int,
                                          w: seq<int>)
    requires Written(sb, f, g, inum, c, off, w) && Extends(sb, g, h) && ShownKept(sb, g, h, inum)
    ensures Written(sb, f, h, inum, c, off, w)
  {
    hide Addr, Shown;
    assert OthersKept(sb, g, h, inum);
    OthersTrans(sb, f, g, h, inum);
  }

  /** A byte of the file after one block was overlaid. */
  lemma {:induction false} OverlaidByte(sb: Super, g: Image, h: Image, inum: int, at: int, piece: seq<int>, k: int)
    requires 0 <= at && at % BSIZE + |piece| <= BSIZE && 0 <= k
    requires Mapped(sb, g, inum, at / BSIZE) && Mapped(sb, g, inum, k / BSIZE) && Mapped(sb, h, inum, k / BSIZE)
    requires BlockOf(sb, h, inum, k / BSIZE) ==
             if k / BSIZE == at / BSIZE then Overlay(BlockOf(sb, g, inum, at / BSIZE), at % BSIZE, piece)
             else BlockOf(sb, g, inum, k / BSIZE)
    ensures ByteAt(sb, h, inum, k) == if at <= k < at + |piece| then piece[k - at] else ByteAt(sb, g, inum, k)
  {
    hide Mapped, BlockOf, Addr, WellFormed;
    assert at <= k < at + |piece| ==> k / BSIZE == at / BSIZE;
    assert k / BSIZE == at / BSIZE ==> k % BSIZE - at % BSIZE == k - at;
  }

  /** Overlaying one mapped block of a file. */
  lemma {:induction false} OverlayBlock(sb: Super, g: Image, o: map<int, Slot>, inum: int, bn: int, data: ByteBlock,
                                        h: Image)
    requires Structure(sb, g, o) && Mapped(sb, g, inum, bn) && IsBlock(data)
    requires h == PutBlock(g, Addr(sb, g, SlotOf(inum, bn)), data)
    ensures Structure(sb, h, o) && OthersKept(sb, g, h, inum)
    ensures forall m :: Mapped(sb, g, inum, m) <==> Mapped(sb, h, inum, m)
    ensures forall m :: Mapped(sb, g, inum, m) ==>
              BlockOf(sb, h, inum, m) == if m == bn then data else BlockOf(sb, g, inum, m)
    ensures MapKept(sb, g, h, inum)
  {
    PutData(sb, g, o, inum, bn, data, h);
    hide Word, BlockBit, Structure, Marked, WellFormed;
  }

  /** The file's blocks are where they were. */
  ghost predicate MapKept(sb: Super, g: Image, h: Image, inum: int) {
    && WellFormed(sb, g) && WellFormed(sb, h)
    && forall m :: Mapped(sb, g, inum, m) ==>
         Mapped(sb, h, inum, m) && Addr(sb, h, SlotOf(inum, m)) == Addr(sb, g, SlotOf(inum, m))
  }

  lemma {:induction false} MapKeptTrans(sb: Super, f: Image, g: Image, h: Image, inum: int)
    requires MapKept(sb, f, g, inum) && MapKept(sb, g, h, inum)
    ensures MapKept(sb, f, h, inum)
  {
    hide Addr;
    forall m | Mapped(sb, f, inum, m)
      ensures Mapped(sb, h, inum, m) && Addr(sb, h, SlotOf(inum, m)) == Addr(sb, f, SlotOf(inum, m))
    {
      assert Mapped(sb, g, inum, m);
    }
  }

  lemma {:induction false} OverlayNothing(g: Image, b: int, o: int)
    requires 0 <= b < |g.blocks| && 0 <= o <= |g.blocks[b]|
    ensures PutBlock(g, b, Overlay(g.blocks[b], o, [])) == g
  {
    assert Overlay(g.blocks[b], o, []) == g.blocks[b];
  }

  /** Storing into the block bmap returned, and logging it, stays within what bmap accounts for. */
  lemma {:induction false} LogsStored(sb: Super, g: Image, l: set<int>, h: Image, m: set<int>, k: Image, inum: int,
                                      bn: int, addr: int, marks: set<int>)
    requires WellFormed(sb, g) && WellFormed(sb, h) && WellFormed(sb, k) && 0 <= inum < sb.ninodes && 0 <= bn < MAXFILE
    requires Logs(sb, g, l, h, m, inum, bn, addr, marks) && k.inodes == h.inodes && addr != 0
    ensures Logs(sb, g, l, k, m, inum, bn, addr, marks) && Logs(sb, g, l, k, m + {addr}, inum, bn, addr, marks)
  {
    hide WellFormed, Mapped;
  }

  lemma {:induction false} MappedShown(sb: Super, g: Image, o: map<int, Slot>, h: Image, p: map<int, Slot>, inum: int,
                                       bn: int, addr: int)
    requires Conserved(sb, g, o) && Conserved(sb, h, p) && 0 <= inum < sb.ninodes && 0 <= bn < MAXFILE
    requires BlockMapped(sb, g, o, h, p, inum, bn, addr)
    ensures ShownKept(sb, g, h, inum)
  {
    hide BlockMapped, ShownKept;
    GrowthShown(sb, g, o, h, p, inum, bn, addr);
  }

  /** The block bmap returned, after storing into it and logging it. */
  lemma {:induction false} PieceStored(sb: Super, f: Image, g0: Image, l0: set<int>, g: Image, l: set<int>,
                                       o: map<int, Slot>, inum: int, c: seq<int>, off: int, w: seq<int>, at: int,
                                       piece: seq<int>, addr: int, marks: set<int>, k: Image)
    requires Conserved(sb, g, o) && WellFormed(sb, g0) && 0 <= inum < sb.ninodes && 0 <= at / BSIZE < MAXFILE
    requires Written(sb, f, g0, inum, c, off, w) && Extends(sb, g0, g) && ShownKept(sb, g0, g, inum) && at == off + |w|
    requires Mapped(sb, g, inum, at / BSIZE) && addr == Addr(sb, g, SlotOf(inum, at / BSIZE))
    requires at % BSIZE + |piece| <= BSIZE && IsBytes(piece)
    requires Logs(sb, g0, l0, g, l, inum, at / BSIZE, addr, marks)
    requires k == PutBlock(g, addr, Overlay(g.blocks[addr], at % BSIZE, piece))
    ensures Conserved(sb, k, o) && Written(sb, f, k, inum, c, off, w + piece)
    ensures Mapped(sb, k, inum, at / BSIZE) && addr == Addr(sb, k, SlotOf(inum, at / BSIZE))
    ensures piece == [] ==> k == g
    ensures MapKept(sb, g0, k, inum)
    ensures Logs(sb, g0, l0, k, l, inum, at / BSIZE, addr, marks)
    ensures Logs(sb, g0, l0, k, l + {addr}, inum, at / BSIZE, addr, marks)
  {
    ExtendsMapKept(sb, g0, g, inum);
    hide Written, Logs, Marked, Word, Extends, MapKept, ShownKept;
    WrittenExtends(sb, f, g0, g, inum, c, off, w);
    WrittenPiece(sb, f, g, o, inum, c, off, w, at, piece, k);
    LogsStored(sb, g0, l0, g, l, k, inum, at / BSIZE, addr, marks);
    OverlayBlock(sb, g, o, inum, at / BSIZE, Overlay(g.blocks[addr], at % BSIZE, piece), k);
    MapKeptTrans(sb, g0, g, k, inum);
    PutData(sb, g, o, inum, at / BSIZE, Overlay(g.blocks[addr], at % BSIZE, piece), k);
    DataNotBitmap(sb, g, o.Keys, addr, Overlay(g.blocks[addr], at % BSIZE, piece));
    if piece == [] { OverlayNothing(g, addr, at % BSIZE); }
  }

  lemma {:induction false} ExtendsMapKept(sb: Super, g: Image, h: Image, inum: int)
    requires Extends(sb, g, h)
    ensures MapKept(sb, g, h, inum)
  {
    hide Addr;
  }

  lemma {:induction false} ReadsPiece(sb: Super, g: Image, h: Image, inum: int, c: seq<int>, off: int, w: seq<int>,
                                      at: int, piece: seq<int>)
    requires 0 <= off <= |c| && at == off + |w| && at % BSIZE + |piece| <= BSIZE
    requires Reads(sb, g, inum, c, off, w) && Mapped(sb, g, inum, at / BSIZE)
    requires forall m :: Mapped(sb, g, inum, m) <==> Mapped(sb, h, inum, m)
    requires forall m :: Mapped(sb, g, inum, m) ==>
               BlockOf(sb, h, inum, m) ==
               if m == at / BSIZE then Overlay(BlockOf(sb, g, inum, at / BSIZE), at % BSIZE, piece)
               else BlockOf(sb, g, inum, m)
    ensures Reads(sb, h, inum, c, off, w + piece)
  {
    hide Mapped, BlockOf, ByteAt;
    forall k | 0 <= k < |c| || 0 <= k < at + |piece|
      ensures Shown(sb, h, inum, k) == if off <= k < at + |piece| then (w + piece)[k - off] else c[k]
    {
      if at <= k < at + |piece| { assert k / BSIZE == at / BSIZE; }
      if Mapped(sb, g, inum, k / BSIZE) { OverlaidByte(sb, g, h, inum, at, piece, k); }
      if k < |c| || k < at {
        assert Shown(sb, g, inum, k) == if off <= k < at then w[k - off] else c[k];
      }
    }
  }

  /** The piece's block is mapped too. */
  lemma {:induction false} FilledPiece(sb: Super, f: Image, g: Image, h: Image, inum: int, lo: int, at: int, n: int)
    requires Filled(sb, f, g, inum, lo, at) && 0 <= lo <= at && 0 <= n <= BSIZE - at % BSIZE
    requires Mapped(sb, g, inum, at / BSIZE) && forall m :: Mapped(sb, g, inum, m) ==> Mapped(sb, h, inum, m)
    ensures Filled(sb, f, h, inum, lo, at + n)
  {
    hide Mapped;
    if lo < at + n {
      forall m | lo / BSIZE <= m && m * BSIZE < at + n ensures Mapped(sb, h, inum, m) {
        if m != at / BSIZE { assert lo < at && m * BSIZE < at; }
      }
    }
  }

  /** Storing a piece where the last one ended lengthens what was written by that piece. */
  lemma {:induction false} WrittenPiece(sb: Super, f: Image, g: Image, o: map<int, Slot>, inum: int, c: seq<int>,
                                        off: int, w: seq<int>, at: int, piece: seq<int>, h: Image)
    requires Written(sb, f, g, inum, c, off, w) && Structure(sb, g, o) && at == off + |w|
    requires Mapped(sb, g, inum, at / BSIZE) && at % BSIZE + |piece| <= BSIZE
    requires IsBytes(piece)
    requires h == PutBlock(g, Addr(sb, g, SlotOf(inum, at / BSIZE)),
                           Overlay(BlockOf(sb, g, inum, at / BSIZE), at % BSIZE, piece))
    ensures Structure(sb, h, o) && Written(sb, f, h, inum, c, off, w + piece)
  {
    hide Reads, OthersKept, Filled, MapKept;
    OverlayBlock(sb, g, o, inum, at / BSIZE, Overlay(BlockOf(sb, g, inum, at / BSIZE), at % BSIZE, piece), h);
    OthersTrans(sb, f, g, h, inum);
    ReadsPiece(sb, g, h, inum, c, off, w, at, piece);
    FilledPiece(sb, f, g, h, inum, off, at, |piece|);
    MappedFits(sb, g, inum, at, piece);
  }

  lemma {:induction false} MappedFits(sb: Super, g: Image, inum: int, at: int, piece: seq<int>)
    requires Mapped(sb, g, inum, at / BSIZE) && at % BSIZE + |piece| <= BSIZE
    ensures at + |piece| <= MAXFILE * BSIZE
  {
  }

  /** What a reader sees once the size is set. */
  lemma {:induction false} ReadsVisible(sb: Super, h: Image, inum: int, c: seq<int>, off: int, w: seq<int>)
    requires 0 <= off <= |c| && 0 <= inum < |h.inodes| && Reads(sb, h, inum, c, off, w)
    requires 0 <= h.inodes[inum].size <= Max(|c|, off + |w|)
    ensures Visible(sb, h, inum) == Splice(c, off, w)[..h.inodes[inum].size]
  {
    hide Shown;
  }

  /** A write to a file without holes leaves none. */
  lemma {:induction false} FilledHoleFree(sb: Super, f: Image, h: Image, inum: int, off: int, hi: int)
    requires HoleFree(sb, f, inum) && WellFormed(sb, h) && |h.inodes| == |f.inodes|
    requires 0 <= off <= f.inodes[inum].size && Filled(sb, f, h, inum, off, hi)
    requires 0 <= h.inodes[inum].size <= Max(f.inodes[inum].size, hi) && h.inodes[inum].size <= MAXFILE * BSIZE
    ensures HoleFree(sb, h, inum)
  {
    hide Mapped;
    forall bn | 0 <= bn * BSIZE < h.inodes[inum].size ensures Mapped(sb, h, inum, bn) {
      if bn * BSIZE < f.inodes[inum].size { assert Mapped(sb, f, inum, bn); } else { assert off / BSIZE <= bn; }
    }
  }

  /** Setting the size at the end makes the bytes written so far visible. */
  lemma {:induction false} WrittenSize(sb: Super, f: Image, g: Image, o: map<int, Slot>, inum: int, c: seq<int>,
                                       off: int, w: seq<int>, r: int, h: Image)
    requires Written(sb, f, g, inum, c, off, w) && Structure(sb, g, o) && 0 <= r <= |w| && 0 <= inum < |g.inodes|
    requires h == g.(inodes := g.inodes[inum := g.inodes[inum].(size := Max(|c|, off + r))])
    ensures g.inodes[inum].size == |c| && Structure(sb, h, o) && OthersKept(sb, f, h, inum)
    ensures Visible(sb, h, inum) == Splice(c, off, w)[..Max(|c|, off + r)]
    ensures HoleFree(sb, f, inum) ==> HoleFree(sb, h, inum)
    ensures |c| >= off + r ==> h == g
    ensures MapKept(sb, g, h, inum)
  {
    hide Reads, OthersKept, HoleFree, Splice, Addr, BlockOf, Shown, Mapped, Filled;
    SizeOnly(sb, g, h, o, inum);
    SameSlots(sb, g, h);
    OthersTrans(sb, f, g, h, inum);
    ShownSame(sb, g, h, inum);
    ReadsSame(sb, g, h, inum, c, off, w);
    ReadsVisible(sb, h, inum, c, off, w);
    FilledSame(sb, f, g, h, inum, off, off + |w|);
    SizeMapKept(sb, g, h, inum);
    if HoleFree(sb, f, inum) { FilledHoleFree(sb, f, h, inum, off, off + |w|); }
  }

  lemma {:induction false} ReadsSame(sb: Super, g: Image, h: Image, inum: int, c: seq<int>, off: int, w: seq<int>)
    requires 0 <= off <= |c| && Reads(sb, g, inum, c, off, w) && ShownKept(sb, g, h, inum)
    ensures Reads(sb, h, inum, c, off, w)
  {
    hide Shown;
  }

  lemma {:induction false} FilledSame(sb: Super, f: Image, g: Image, h: Image, inum: int, lo: int, hi: int)
    requires Filled(sb, f, g, inum, lo, hi) && forall m :: Mapped(sb, g, inum, m) ==> Mapped(sb, h, inum, m)
    ensures Filled(sb, f, h, inum, lo, hi)
  {
    hide Mapped;
  }

  lemma {:induction false} SizeMapKept(sb: Super, g: Image, h: Image, inum: int)
    requires WellFormed(sb, g) && WellFormed(sb, h) && forall s :: IsSlot(g, s) ==> Addr(sb, h, s) == Addr(sb, g, s)
    requires forall i, m :: Mapped(sb, h, i, m) <==> Mapped(sb, g, i, m)
    ensures MapKept(sb, g, h, inum)
  {
    hide Addr;
    forall m | Mapped(sb, g, inum, m) ensures Addr(sb, h, SlotOf(inum, m)) == Addr(sb, g, SlotOf(inum, m)) {
      assert IsSlot(g, SlotOf(inum, m));
    }
  }

  /** Two writes, the second starting where the first ended, are one write. */
  lemma {:induction false} SpliceTwice(c: seq<int>, off: int, a: seq<int>, b: seq<int>)
    requires 0 <= off <= |c|
    ensures |Splice(c, off, a)| == Max(|c|, off + |a|)
    ensures Splice(Splice(c, off, a), off + |a|, b) == Splice(c, off, a + b)
  {
  }

  /** After i bytes of src the file reads as after one write of these bytes; the next ones leave no gap. */
  ghost predicate Progress(c: seq<int>, off: int, src: seq<int>, i: int, now: seq<int>)
    requires 0 <= off && 0 <= i <= |src|
  {
    if i == 0 then now == c else off <= |c| && now == Splice(c, off, src[..i]) && off + i <= |now|
  }

  lemma {:induction false} NoProgress(c: seq<int>, off: int, src: seq<int>)
    requires 0 <= off
    ensures Progress(c, off, src, 0, c)
  {
  }

  lemma {:induction false} AllWritten(c: seq<int>, off: int, src: seq<int>, now: seq<int>)
    requires 0 <= off && 0 < |src| && Progress(c, off, src, |src|, now)
    ensures off <= |c| && now == Splice(c, off, src)
  {
    assert src[..|src|] == src;
  }

  /** One more chunk of a chunked write. */
  lemma {:induction false} NextChunk(c: seq<int>, off: int, src: seq<int>, i: int, n: int, before: seq<int>,
                                     w: seq<int>, after: seq<int>)
    requires 0 <= off && 0 <= i && 0 < n && i + n <= |src| && w == src[i..i + n] && off + i <= |before|
    requires Progress(c, off, src, i, before)
    requires after == Splice(before, off + i, w)[..Max(|before|, off + i + n)]
    ensures off <= |c| && Progress(c, off, src, i + n, after) && off + i + n <= |after|
  {
    SpliceTwice(before, off + i, w, []);
    if i > 0 {
      SpliceTwice(c, off, src[..i], w);
      assert src[..i] + w == src[..i + n];
    } else {
      assert w == src[..n];
    }
  }

  // ----- which blocks a write logs

  /** Block m of the file is mapped, and in l. */
  ghost predicate BlockIn(sb: Super, g: Image, inum: int, m: int, l: set<int>) {
    Mapped(sb, g, inum, m) && Addr(sb, g, SlotOf(inum, m)) in l
  }

  /** So are the blocks of bytes lo to hi. */
  ghost predicate AllLogged(sb: Super, g: Image, inum: int, lo: int, hi: int, l: set<int>) {
    lo < hi ==> forall m :: lo / BSIZE <= m && m * BSIZE < hi ==> BlockIn(sb, g, inum, m, l)
  }

  lemma {:induction false} BlockInKept(sb: Super, g: Image, h: Image, inum: int, m: int, l: set<int>, l': set<int>)
    requires BlockIn(sb, g, inum, m, l) && MapKept(sb, g, h, inum) && l <= l'
    ensures BlockIn(sb, h, inum, m, l')
  {
    hide Addr;
  }

  /** Between f and g only blocks of l and x changed, and l has the blocks of bytes lo to hi. */
  ghost predicate Recorded(sb: Super, f: Image, g: Image, inum: int, lo: int, hi: int, l: set<int>, x: set<int>) {
    Covered(f.blocks, g.blocks, l + x) && AllLogged(sb, g, inum, lo, hi, l) && MapKept(sb, f, g, inum)
  }

  /** The block of byte k, if there is one. */
  ghost function BlockAt(sb: Super, g: Image, inum: int, k: int): set<int> {
    if Mapped(sb, g, inum, k / BSIZE) then {Addr(sb, g, SlotOf(inum, k / BSIZE))} else {}
  }

  lemma {:induction false} RecordedNothing(sb: Super, g: Image, inum: int, off: int, l: set<int>)
    requires WellFormed(sb, g)
    ensures Recorded(sb, g, g, inum, off, off, l, {})
  {
  }

  lemma {:induction false} AllLoggedMore(sb: Super, g: Image, h: Image, inum: int, lo: int, at: int, n: int,
                                         l: set<int>, l': set<int>)
    requires AllLogged(sb, g, inum, lo, at, l) && MapKept(sb, g, h, inum) && l <= l' && 0 <= lo <= at
    requires 0 < n <= BSIZE - at % BSIZE && (lo == at || at % BSIZE == 0)
    requires BlockIn(sb, h, inum, at / BSIZE, l')
    ensures AllLogged(sb, h, inum, lo, at + n, l')
  {
    hide BlockIn, MapKept;
    forall m | lo / BSIZE <= m && m * BSIZE < at + n ensures BlockIn(sb, h, inum, m, l') {
      if m != at / BSIZE {
        assert lo < at && m * BSIZE < at;
        BlockInKept(sb, g, h, inum, m, l, l');
      }
    }
  }

  lemma {:induction false} AllLoggedKept(sb: Super, g: Image, h: Image, inum: int, lo: int, hi: int, l: set<int>,
                                         l': set<int>)
    requires AllLogged(sb, g, inum, lo, hi, l) && MapKept(sb, g, h, inum) && l <= l'
    ensures AllLogged(sb, h, inum, lo, hi, l')
  {
    hide BlockIn, MapKept;
    forall m | lo < hi && lo / BSIZE <= m && m * BSIZE < hi ensures BlockIn(sb, h, inum, m, l') {
      BlockInKept(sb, g, h, inum, m, l, l');
    }
  }

  /** One turn of the write: n bytes more, or none and perhaps a block that is not logged. */
  lemma {:induction false} RecordedTurn(sb: Super, f: Image, g: Image, h: Image, inum: int, off: int, at: int, n: int,
                                        l: set<int>, l': set<int>, x: set<int>)
    requires Recorded(sb, f, g, inum, off, at, l, {}) && Covered(g.blocks, h.blocks, l' + x) && MapKept(sb, g, h, inum)
    requires l <= l'
    requires 0 <= off <= at && 0 <= n <= BSIZE - at % BSIZE && (off == at || at % BSIZE == 0)
    requires n > 0 ==> BlockIn(sb, h, inum, at / BSIZE, l')
    ensures Recorded(sb, f, h, inum, off, at + n, l', x)
  {
    hide BlockIn, Covered, AllLogged, MapKept;
    CoveredTrans(f.blocks, g.blocks, h.blocks, l + {}, l' + x);
    MapKeptTrans(sb, f, g, h, inum);
    if n > 0 {
      AllLoggedMore(sb, g, h, inum, off, at, n, l, l');
    } else {
      AllLoggedKept(sb, g, h, inum, off, at, l, l');
    }
  }

  /** Setting the size, writing the inode to its block and logging that block. */
  lemma {:induction false} RecordedSize(sb: Super, f: Image, g: Image, h: Image, inum: int, lo: int, hi: int,
                                        l: set<int>, x: set<int>, b: int)
    requires Recorded(sb, f, g, inum, lo, hi, l, x) && MapKept(sb, g, h, inum) && Covered(g.blocks, h.blocks, {b})
    ensures Recorded(sb, f, h, inum, lo, hi, l + {b}, x)
  {
    hide Mapped, Addr, AllLogged, MapKept, Covered;
    CoveredWider(f.blocks, g.blocks, l + x, l + {b} + x);
    CoveredWider(g.blocks, h.blocks, {b}, l + {b} + x);
    CoveredTrans(f.blocks, g.blocks, h.blocks, l + {b} + x, l + {b} + x);
    MapKeptTrans(sb, f, g, h, inum);
    AllLoggedKept(sb, g, h, inum, lo, hi, l, l + {b});
  }

  lemma {:induction false} ViewMapKept(sb: Super, g: Image, h: Image, inum: int)
    requires SameView(sb, g, h)
    ensures MapKept(sb, g, h, inum)
  {
    hide Addr;
  }

  lemma {:induction false} BlockAtKept(sb: Super, g: Image, h: Image, inum: int, k: int)
    requires MapKept(sb, g, h, inum) && BlockAt(sb, g, inum, k) != {}
    ensures BlockAt(sb, h, inum, k) == BlockAt(sb, g, inum, k)
  {
    hide Addr;
  }

  lemma {:induction false} BlockAtNotInode(sb: Super, g: Image, o: map<int, Slot>, inum: int, k: int)
    requires Conserved(sb, g, o) && 0 <= inum < sb.ninodes
    ensures sb.IBlock(inum) !in BlockAt(sb, g, inum, k)
  {
    DataNotInode(sb, g, o, inum);
    hide Addr, Conserved;
  }

  // ----- how many blocks a write logs

  /** The blocks that m bytes from off on lie in. */
  function Touched(off: int, m: int): int {
    if m == 0 then 0 else (off % BSIZE + m + BSIZE - 1) / BSIZE
  }

  /** The bytes from at on that lie in its block. */
  function Rest(at: int): int { BSIZE - at % BSIZE }

  predicate Aligned(at: int) { at % BSIZE == 0 }

  /** Each turn ends at a block boundary or at the end, and touches one block more. */
  lemma {:induction false} TouchedTurn(off: int, tot: int, m: int, n: int)
    requires 0 <= off && 0 <= tot < n && m == (if n - tot < Rest(off + tot) then n - tot else Rest(off + tot))
    requires tot == 0 || Aligned(off + tot)
    ensures 0 < m && tot + m <= n && (tot + m == n || Aligned(off + tot + m))
    ensures Touched(off, tot + m) == Touched(off, tot) + 1 <= Touched(off, n)
  {
  }

  /** A source that ends within the turn ends inside its block, unless it ends where the turn starts. */
  lemma {:induction false} EndsInside(off: int, tot: int, have: int, m: int)
    requires 0 <= off && 0 <= tot <= have < tot + m <= tot + Rest(off + tot) && (tot == 0 || Aligned(off + tot))
    ensures have > tot <==> have > 0 && (off + have) % BSIZE != 0
  {
  }

  /** What writei reports of n bytes when only `have` can be read: all, or the bytes below the block in which
      the copy failed. */
  function Reported(off: int, have: int, n: int): int {
    if have == n then n else Max(0, (off + have) / BSIZE * BSIZE - off)
  }

  lemma {:induction false} ReportedAll(off: int, n: int)
    ensures Reported(off, n, n) == n
  {
  }

  lemma {:induction false} ReportedAt(off: int, tot: int, have: int, m: int, n: int)
    requires 0 <= off && 0 <= tot <= have < tot + m <= tot + Rest(off + tot) && tot + m <= n
    requires tot == 0 || Aligned(off + tot)
    ensures Reported(off, have, n) == tot
  {
    if tot == 0 {
      assert (off + have) / BSIZE == off / BSIZE;
    } else {
      assert (off + have) / BSIZE == (off + tot) / BSIZE;
    }
  }

  lemma {:induction false} TouchedBounds(off: int, n: int)
    requires 0 <= off && 0 <= n
    ensures 0 <= Touched(off, n) && (n > 0 ==> 1 <= Touched(off, n))
  {
  }

  /** After `turns` turns of the loop: the blocks logged are those logged before, data blocks, bitmap
      blocks and the indirect block; each turn adds a data block and at most one bitmap block, the first
      turn none if its block was mapped, and a new indirect block costs one bitmap block more. */
  ghost predicate Account(sb: Super, f: Image, g: Image, inum: int, l0: set<int>, l: set<int>, data: set<int>,
                          marks: set<int>, turns: int, first: bool)
    requires WellFormed(sb, f) && WellFormed(sb, g) && 0 <= inum < sb.ninodes
  {
    && l <= l0 + data + marks + Indirect(g, inum) && 0 <= turns && |data| <= turns
    && |marks| <= turns - (if turns > 0 && first then 1 else 0) + |Indirect(g, inum)| - |Indirect(f, inum)|
    && forall x :: x in marks ==> sb.bmapstart <= x <= sb.bmapstart + (sb.size - 1) / BPB
  }

  lemma {:induction false} AccountStart(sb: Super, g: Image, inum: int, l: set<int>, off: int, n: int)
    requires WellFormed(sb, g) && 0 <= inum < sb.ninodes && 0 <= off && 0 <= n
    ensures forall first :: Account(sb, g, g, inum, l, l, {}, {}, 0, first)
    ensures Touched(off, 0) == 0 <= Touched(off, n)
  {
  }

  lemma {:induction false} AccountTurn(sb: Super, f: Image, g: Image, h: Image, inum: int, l0: set<int>, l: set<int>,
                                       m: set<int>, data: set<int>, marks: set<int>, turns: int, first: bool, bn: int,
                                       addr: int, more: set<int>)
    requires WellFormed(sb, f) && WellFormed(sb, g) && WellFormed(sb, h) && 0 <= inum < sb.ninodes && 0 <= bn < MAXFILE
    requires Account(sb, f, g, inum, l0, l, data, marks, turns, first) && Logs(sb, g, l, h, m, inum, bn, addr, more)
    requires turns == 0 && first ==> Mapped(sb, g, inum, bn)
    ensures addr == 0 ==> Account(sb, f, h, inum, l0, m, data, marks + more, turns, first)
    ensures addr != 0 ==> Account(sb, f, h, inum, l0, m, data + {addr}, marks + more, turns + 1, first)
  {
    hide Mapped, WellFormed;
  }

  /** The total once iupdate has logged the inode block. */
  lemma {:induction false} AccountTotal(sb: Super, f: Image, g: Image, inum: int, l0: set<int>, l: set<int>,
                                        data: set<int>, marks: set<int>, turns: int, first: bool)
    requires WellFormed(sb, f) && WellFormed(sb, g) && 0 <= inum < sb.ninodes
    requires Account(sb, f, g, inum, l0, l, data, marks, turns, first)
    ensures |l + {sb.IBlock(inum)}| <= |l0| + 2 * turns + 3 - if turns > 0 && first then 1 else 0
    ensures sb.size <= BPB ==> |l + {sb.IBlock(inum)}| <= |l0| + turns + 3
  {
    var ind := Indirect(g, inum);
    SubsetSize(l + {sb.IBlock(inum)}, l0 + data + marks + ind + {sb.IBlock(inum)});
    if sb.size <= BPB {
      assert (sb.size - 1) / BPB == 0;
      forall x | x in marks ensures x == sb.bmapstart {
      }
      SubsetSize(marks, {sb.bmapstart});
    }
  }

  /** The next m bytes of src after tot, or as many as there are. */
  function Piece(src: seq<int>, tot: nat, m: nat): seq<int>
    requires tot <= |src|
  {
    if |src| - tot < m then src[tot..] else src[tot..tot + m]
  }

  lemma {:induction false} PieceOf(src: seq<int>, tot: nat, m: nat)
    requires tot <= |src| && IsBytes(src)
    ensures IsBytes(Piece(src, tot, m)) && |Piece(src, tot, m)| <= m
    ensures |Piece(src, tot, m)| < m ==> src[..tot] + Piece(src, tot, m) == src
    ensures |Piece(src, tot, m)| == m ==> tot + m <= |src| && src[..tot] + Piece(src, tot, m) == src[..tot + m]
  {
  }

  lemma {:induction false} PieceFrom(src: seq<int>, i: nat, n: nat)
    requires i <= |src| && IsBytes(src)
    ensures IsBytes(Piece(src, i, n)) && Piece(src, i, n) <= src[i..]
    ensures |Piece(src, i, n)| == if |src| - i < n then |src| - i else n
    ensures i + n <= |src| ==> Piece(src, i, n) == src[i..i + n]
  {
  }

  lemma {:induction false} RestBounds(at: int)
    requires 0 <= at < MAXFILE * BSIZE
    ensures 0 < Rest(at) <= BSIZE && at / BSIZE < MAXFILE && Rest(at) == BSIZE - at % BSIZE
  {
  }

  /** The block a write to a file without holes starts inside is mapped. */
  lemma {:induction false} InsideMapped(sb: Super, g: Image, inum: int, off: int)
    requires HoleFree(sb, g, inum) && 0 <= off <= g.inodes[inum].size && off % BSIZE != 0
    ensures Mapped(sb, g, inum, off / BSIZE)
  {
    assert 0 <= off / BSIZE * BSIZE < g.inodes[inum].size;
  }

  /** What one chunk of filewrite logs: ten blocks at the worst offset, eleven if it starts inside a hole, and seven
      when the disk has one bitmap block; all of them inode, bitmap or data blocks. */
  ghost predicate ChunkOk(sb: Super, solid: bool, t: set<int>) {
    && |t| <= 11 && (solid ==> |t| <= 10) && (sb.size <= BPB ==> |t| <= 7)
    && HomeBlocks(sb, {}, t)
  }

  ghost predicate ChunksOk(sb: Super, solid: bool, ts: seq<set<int>>) {
    forall k :: 0 <= k < |ts| ==> ChunkOk(sb, solid, ts[k])
  }

  lemma {:induction false} NoChunks(sb: Super, solid: bool, ts: seq<set<int>>)
    requires ts == []
    ensures ChunksOk(sb, solid, ts)
  {
  }

  lemma {:induction false} ChunksMore(sb: Super, solid: bool, ts: seq<set<int>>, t: set<int>)
    requires ChunksOk(sb, solid, ts) && ChunkOk(sb, solid, t)
    ensures ChunksOk(sb, solid, ts + [t])
  {
    hide ChunkOk;
  }

  /** filewrite's chunk has at most three blocks' worth of bytes. */
  lemma {:induction false} ChunkFits(sb: Super, off: int, n: int, t: set<int>, first: bool, solid: bool)
    requires 0 <= off && 0 <= n <= 3 * BSIZE && (solid && n > 0 && off % BSIZE != 0 ==> first)
    requires |t| <= 2 * Touched(off, n) + 3 - if n > 0 && first then 1 else 0
    requires (sb.size <= BPB ==> |t| <= Touched(off, n) + 3) && HomeBlocks(sb, {}, t)
    ensures ChunkOk(sb, solid, t)
  {
  }

  /** After k chunks of a write of n bytes i bytes are written. */
  ghost predicate Chunked(i: int, n: int, k: int) {
    k * (3 * BSIZE) == i || (i == n && k == (n + 3 * BSIZE - 1) / (3 * BSIZE))
  }

  lemma {:induction false} NotChunked(n: int)
    ensures Chunked(0, n, 0)
  {
  }

  lemma {:induction false} ChunkedMore(i: int, n: int, k: int)
    requires Chunked(i, n, k) && 0 <= i < n
    ensures Chunked(i + if n - i > 3 * BSIZE then 3 * BSIZE else n - i, n, k + 1)
  {
  }

  lemma {:induction false} AllChunked(i: int, n: int, k: int)
    requires Chunked(i, n, k)
    ensures i == n ==> k == (n + 3 * BSIZE - 1) / (3 * BSIZE)
  {
  }

  ghost function Union(ts: seq<set<int>>): set<int> {
    if ts == [] then {} else Union(ts[..|ts| - 1]) + ts[|ts| - 1]
  }

  lemma {:induction false} UnionMore(ts: seq<set<int>>, t: set<int>)
    ensures Union(ts + [t]) == Union(ts) + t
  {
    assert (ts + [t])[..|ts|] == ts;
  }

  /** What two writes in a row record. */
  lemma {:induction false} RecordedTwice(sb: Super, f: Image, g: Image, h: Image, inum: int, off: int, at: int,
                                         end: int, u: set<int>, l: set<int>, x: set<int>)
    requires Recorded(sb, f, g, inum, off, at, u, {}) && Recorded(sb, g, h, inum, at, end, l, x)
    requires 0 <= off <= at <= end
    ensures Recorded(sb, f, h, inum, off, end, u + l, x)
  {
    hide Mapped, Addr, Covered, MapKept;
    assert Covered(f.blocks, g.blocks, u + {});
    CoveredWider(f.blocks, g.blocks, u + {}, u + l + x);
    CoveredWider(g.blocks, h.blocks, l + x, u + l + x);
    CoveredTrans(f.blocks, g.blocks, h.blocks, u + l + x, u + l + x);
    MapKeptTrans(sb, f, g, h, inum);
    hide AllLogged;
    AllLoggedKept(sb, g, h, inum, off, at, u, u + l);
    AllLoggedJoin(sb, h, inum, off, at, end, u + l, l);
  }

  lemma {:induction false} AllLoggedJoin(sb: Super, g: Image, inum: int, lo: int, at: int, hi: int, u: set<int>,
                                         l: set<int>)
    requires AllLogged(sb, g, inum, lo, at, u) && AllLogged(sb, g, inum, at, hi, l) && 0 <= lo <= at <= hi && l <= u
    ensures AllLogged(sb, g, inum, lo, hi, u)
  {
    hide BlockIn;
    forall m | lo < hi && lo / BSIZE <= m && m * BSIZE < hi ensures BlockIn(sb, g, inum, m, u) {
      if !(lo < at && m * BSIZE < at) {
        assert at / BSIZE <= m;
        BlockInMore(sb, g, inum, m, l, u);
      }
    }
  }

  lemma {:induction false} BlockInMore(sb: Super, g: Image, inum: int, m: int, l: set<int>, u: set<int>)
    requires BlockIn(sb, g, inum, m, l) && l <= u
    ensures BlockIn(sb, g, inum, m, u)
  {
  }

  /** A write that failed in the chunk after i bytes, of which it copied w and reported r. */
  lemma {:induction false} LastChunk(c: seq<int>, off: int, src: seq<int>, i: int, before: seq<int>, w: seq<int>,
                                     after: seq<int>, r: int)
    requires 0 <= off <= |c| && 0 <= i <= |src| && 0 <= r <= |w| && before == Splice(c, off, src[..i])
    requires off + i <= |before| && after == Splice(before, off + i, w)[..Max(|before|, off + i + r)]
    ensures off + i + |w| <= |Splice(c, off, src[..i] + w)|
    ensures after == Splice(c, off, src[..i] + w)[..Max(|c|, off + i + r)]
  {
    SpliceTwice(c, off, src[..i], w);
    SpliceTwice(c, off, src[..i] + w, []);
  }

  /** How far the offset moves when only `have` of n bytes can be read: past the chunks before the one in which the
      copy fails, and to the start of the block in which it does. */
  function Advanced(off: int, have: int): int {
    Max(off + have / (3 * BSIZE) * (3 * BSIZE), (off + have) / BSIZE * BSIZE)
  }

  lemma {:induction false} AdvancedIn(off: int, i: int, have: int, n1: int)
    requires 0 <= off && 0 <= i <= have < i + n1 && n1 <= 3 * BSIZE && i % (3 * BSIZE) == 0
    ensures Advanced(off, have) == off + i + Reported(off + i, have - i, n1)
  {
    assert have / (3 * BSIZE) * (3 * BSIZE) == i;
  }

  /** What a write that gave up leaves: w was copied from off on, the offset is past the bytes reported, and a
      reader sees w as far as the old end or the offset; a write that starts past the end changes nothing. */
  ghost predicate Stopped(c: seq<int>, off: int, src: seq<int>, w: seq<int>, pos: int, after: seq<int>)
    requires 0 <= off
  {
    && w <= src && pos == (if |w| < |src| then off + |w| else Advanced(off, |src|))
    && if off > |c| then w == [] && after == c
       else off <= pos <= off + |w| && after == Splice(c, off, w)[..Max(|c|, pos)]
  }

  lemma {:induction false} WriteStopped(c: seq<int>, off: int, src: seq<int>, i: int, n1: int, before: seq<int>,
                                        w: seq<int>, after: seq<int>, r: int, n: int)
    requires 0 <= off && 0 <= i <= |src| && 0 < n1 <= 3 * BSIZE && ChunkEnd(i, n) && i + n1 <= n
    requires Progress(c, off, src, i, before)
    requires r < n1 && -1 <= r && IsBytes(src)
    requires r == -1 ==> w == [] && after == before
    requires r != -1 ==>
               off + i <= |before| && r <= |w| && after == Splice(before, off + i, w)[..Max(|before|, off + i + r)]
    requires w <= Piece(src, i, n1)
    requires r != -1 ==>
      if |w| < |Piece(src, i, n1)| then r == |w| else r == Reported(off + i, |Piece(src, i, n1)|, n1)
    ensures Stopped(c, off, src, src[..i] + w, off + i + (if r > 0 then r else 0), after)
  {
    hide Splice, Reported, Piece, IsBytes, Advanced, ChunkEnd, Max;
    PieceFrom(src, i, n1);
    assert src[..i] + w == src[..i + |w|];
    StoppedAt(off, |src|, i, n1, n, |w|, |Piece(src, i, n1)|, r);
    if off <= |c| {
      if i == 0 { assert src[..i] == []; SpliceNothing(c, off); }
      if r == -1 { SpliceNothing(before, off + i); MaxSelf(before, off + i); }
      SpliceReaches(c, off, src[..i]);
      LastChunk(c, off, src, i, before, w, after, if r > 0 then r else 0);
    }
  }

  lemma {:induction false} MaxSelf(c: seq<int>, k: int)
    requires k <= |c|
    ensures c[..Max(|c|, k)] == c
  {
  }

  lemma {:induction false} SpliceReaches(c: seq<int>, off: int, a: seq<int>)
    requires 0 <= off <= |c|
    ensures off + |a| <= |Splice(c, off, a)|
  {
  }

  lemma {:induction false} StoppedAt(off: int, have: int, i: int, n1: int, n: int, got: int, part: int, r: int)
    requires 0 <= off && 0 <= i <= have && 0 < n1 <= 3 * BSIZE && ChunkEnd(i, n) && i + n1 <= n && -1 <= r < n1
    requires part == (if have - i < n1 then have - i else n1) && 0 <= got <= part && (r == -1 ==> got == 0)
    requires r != -1 ==> r <= got && if got < part then r == got else r == Reported(off + i, part, n1)
    ensures off + i + (if r > 0 then r else 0) == if i + got < have then off + i + got else Advanced(off, have)
  {
    hide Reported, Advanced;
    ReportedAll(off + i, n1);
    if i + got == have {
      if have - i < n1 { AdvancedIn(off, i, have, n1); }
      if r == -1 { ReportedNone(off + i, n1); }
    }
  }

  lemma {:induction false} ReportedNone(off: int, n: int)
    requires 0 <= off && 0 < n
    ensures Reported(off, 0, n) == 0
  {
  }

  lemma {:induction false} SpliceNothing(c: seq<int>, off: int)
    requires 0 <= off <= |c|
    ensures Splice(c, off, []) == c == c[..|c|]
  {
  }

  /** Chunks end at multiples of three blocks, the last one where the write ends. */
  ghost predicate ChunkEnd(i: int, n: int) { i % (3 * BSIZE) == 0 || i == n }

  lemma {:induction false} ChunkedEnd(i: int, n: int, k: int)
    requires Chunked(i, n, k)
    ensures ChunkEnd(i, n)
  {
    if i != n { Whole(k, 3 * BSIZE); }
  }

  lemma {:induction false} Whole(k: int, d: int)
    requires d == 3 * BSIZE
    ensures k * d % d == 0
  {
  }

  // ----- one directory entry

  lemma {:induction false} SameBlock(off: int, k: int, r: int)
    requires off == 16 * k && 0 <= r < 16
    ensures (off + r) / BSIZE == off / BSIZE
  {
  }

  lemma {:induction false} PlaceBounds(c: seq<int>, off: int)
    requires Place(c, off)
    ensures 0 <= off <= |c| && off % 16 == 0
  {
  }

  lemma {:induction false} DirentBytes(inum: int, name: seq<int>)
    requires IsBytes(name) && 0 <= inum
    ensures IsBytes(Dirent(inum, name)) && |Dirent(inum, name)| == 16
  {
  }

  lemma {:induction false} EntryWritten(c: seq<int>, off: int, inum: int, name: seq<int>, w: seq<int>, d: seq<int>)
    requires 0 <= off <= |c| && |Dirent(inum, name)| == 16 <= |w| && w <= Dirent(inum, name)
    requires d == Splice(c, off, w)[..Max(|c|, off + 16)]
    ensures d == WithEntry(c, off, inum, name)
  {
    hide Dirent;
    assert w == Dirent(inum, name);
  }

  /** An entry lies in one block, so it is written whole or not at all. */
  lemma {:induction false} NothingLinked(c: seq<int>, off: int, w: seq<int>, n: int, de: seq<int>, d: seq<int>)
    requires 0 <= off <= |c| && off % 16 == 0 && |de| == 16 && n != 16
    requires n == -1 ==> d == c
    requires n != -1 ==>
      && 0 <= n <= |w| && w <= de && d == Splice(c, off, w)[..Max(|c|, off + n)]
      && if |w| < |de| then n == |w| && (w == [] || Aligned(off + |w|)) else n == Reported(off, 16, 16)
    ensures d == c && (n == -1 || n == 0)
  {
    if n != -1 && w != [] { assert false; }
    if n != -1 && w == [] { SpliceNothing(c, off); }
  }

  lemma {:induction false} TailOf<T>(s: seq<T>, t: seq<T>)
    ensures (s + t)[|s|..] == t
  {
  }

  lemma {:induction false} NoUnion(ts: seq<set<int>>)
    requires ts == []
    ensures Union(ts) == {}
  {
  }

  lemma {:induction false} RecordedCovers(sb: Super, f: Image, g: Image, inum: int, lo: int, hi: int, l: set<int>,
                                          x: set<int>, y: set<int>)
    requires Recorded(sb, f, g, inum, lo, hi, l, x)
    ensures x <= y ==> Covered(f.blocks, g.blocks, l + y)
  {
    hide AllLogged, MapKept;
  }

  /** The blocks logged by a chunk, or by one that was refused. */
  lemma {:induction false} ChunkLogged(sb: Super, h: Image, inum: int, off: int, n: int, t: set<int>, refused: bool,
                                       solid: bool)
    requires 0 <= off && 0 <= n <= 3 * BSIZE && (refused ==> t == {})
    requires !refused && solid && off % BSIZE != 0 ==> Mapped(sb, h, inum, off / BSIZE)
    requires |t| <= 2 * Touched(off, n) + 3 - if n > 0 && Mapped(sb, h, inum, off / BSIZE) then 1 else 0
    requires (sb.size <= BPB ==> |t| <= Touched(off, n) + 3) && HomeBlocks(sb, {}, t)
    ensures ChunkOk(sb, solid, t)
  {
    hide Mapped;
    if !refused { ChunkFits(sb, off, n, t, Mapped(sb, h, inum, off / BSIZE), solid); }
  }
}
