/** Blocks as bytes, with the two ways kernel/fs.c reads them: as bitmap bits and as uint words. */
module Bytes {
  const BSIZE := 1024
  const BPB := 8192
  const NINDIRECT := 256

  type ByteBlock = seq<int>

  predicate IsBytes(s: seq<int>) {
    forall i :: 0 <= i < |s| ==> 0 <= s[i] < 256
  }

  predicate IsBlock(b: ByteBlock) {
    |b| == BSIZE && IsBytes(b)
  }

  function Zero(): (z: ByteBlock)
    ensures |z| == BSIZE && forall i :: 0 <= i < |z| ==> z[i] == 0
  {
    seq(BSIZE, _ => 0)
  }

  /** 1 << k */
  function Mask(k: nat): int {
    if k == 0 then 1 else 2 * Mask(k - 1)
  }

  /** x & (1 << k) */
  predicate Bit(x: int, k: nat)
    decreases k
  {
    if k == 0 then x % 2 == 1 else Bit(x / 2, k - 1)
  }

  /** Bit i of a bitmap block. */
  predicate BlockBit(b: ByteBlock, i: int)
    requires |b| == BSIZE && 0 <= i < BPB
  {
    Bit(b[i / 8], i % 8)
  }

  /** data[i/8] |= 1 << (i%8), done only where the bit is clear. */
  function SetBit(b: ByteBlock, i: int): ByteBlock
    requires |b| == BSIZE && 0 <= i < BPB
  {
    b[i / 8 := b[i / 8] + Mask(i % 8)]
  }

  /** data[i/8] &= ~(1 << (i%8)), done only where the bit is set. */
  function ClearBit(b: ByteBlock, i: int): ByteBlock
    requires |b| == BSIZE && 0 <= i < BPB
  {
    b[i / 8 := b[i / 8] - Mask(i % 8)]
  }

  lemma {:induction false} AddMask(x: int, k: nat, j: nat)
    requires !Bit(x, k)
    ensures Bit(x + Mask(k), j) <==> j == k || Bit(x, j)
    decreases k
  {
    if k > 0 && j > 0 {
      AddMask(x / 2, k - 1, j - 1);
      assert (x + Mask(k)) / 2 == x / 2 + Mask(k - 1);
    }
  }

  lemma {:induction false} SubMask(x: int, k: nat, j: nat)
    requires Bit(x, k)
    ensures Bit(x - Mask(k), j) <==> j != k && Bit(x, j)
    decreases k
  {
    if k > 0 && j > 0 {
      SubMask(x / 2, k - 1, j - 1);
      assert (x - Mask(k)) / 2 == x / 2 - Mask(k - 1);
    }
  }

  /** A clear bit below 2^n leaves room for its mask, a set one guarantees it. */
  lemma {:induction false} MaskFits(x: int, k: nat, n: nat)
    requires k < n && 0 <= x < Mask(n)
    ensures !Bit(x, k) ==> x + Mask(k) < Mask(n)
    ensures Bit(x, k) ==> 0 <= x - Mask(k)
  {
    if k > 0 { MaskFits(x / 2, k - 1, n - 1); }
  }

  lemma {:induction false} SetBitBits(b: ByteBlock, i: int)
    requires IsBlock(b) && 0 <= i < BPB && !BlockBit(b, i)
    ensures IsBlock(SetBit(b, i))
    ensures forall j :: 0 <= j < BPB ==> (BlockBit(SetBit(b, i), j) <==> j == i || BlockBit(b, j))
  {
    assert Mask(8) == 256 by { assert Mask(4) == 16; }
    MaskFits(b[i / 8], i % 8, 8);
    forall j | 0 <= j < BPB ensures BlockBit(SetBit(b, i), j) <==> j == i || BlockBit(b, j) {
      if j / 8 == i / 8 { AddMask(b[i / 8], i % 8, j % 8); }
    }
  }

  lemma {:induction false} ClearBitBits(b: ByteBlock, i: int)
    requires IsBlock(b) && 0 <= i < BPB && BlockBit(b, i)
    ensures IsBlock(ClearBit(b, i))
    ensures forall j :: 0 <= j < BPB ==> (BlockBit(ClearBit(b, i), j) <==> j != i && BlockBit(b, j))
  {
    assert Mask(8) == 256 by { assert Mask(4) == 16; }
    MaskFits(b[i / 8], i % 8, 8);
    forall j | 0 <= j < BPB ensures BlockBit(ClearBit(b, i), j) <==> j != i && BlockBit(b, j) {
      if j / 8 == i / 8 { SubMask(b[i / 8], i % 8, j % 8); }
    }
  }

  /** ((uint*)data)[j], little-endian. */
  function Word(b: ByteBlock, j: int): int
    requires |b| == BSIZE && 0 <= j < NINDIRECT
  {
    b[4 * j] + 256 * b[4 * j + 1] + 65536 * b[4 * j + 2] + 16777216 * b[4 * j + 3]
  }

  function PutWord(b: ByteBlock, j: int, v: int): ByteBlock
    requires |b| == BSIZE && 0 <= j < NINDIRECT
  {
    b[4 * j := v % 256][4 * j + 1 := v / 256 % 256][4 * j + 2 := v / 65536 % 256][4 * j + 3 := v / 16777216 % 256]
  }

  lemma {:induction false} FourBytes(v: int)
    requires 0 <= v < 0x1_0000_0000
    ensures v == v % 256 + 256 * (v / 256 % 256) + 65536 * (v / 65536 % 256) + 16777216 * (v / 16777216 % 256)
  {
    assert v / 65536 == v / 256 / 256 && v / 16777216 == v / 65536 / 256;
  }

  lemma {:induction false} PutWordWords(b: ByteBlock, j: int, v: int)
    requires IsBlock(b) && 0 <= j < NINDIRECT && 0 <= v < 0x1_0000_0000
    ensures IsBlock(PutWord(b, j, v))
    ensures forall k :: 0 <= k < NINDIRECT ==> Word(PutWord(b, j, v), k) == if k == j then v else Word(b, k)
  {
    FourBytes(v);
    var c := PutWord(b, j, v);
    assert Word(c, j) == v;
    forall k | 0 <= k < NINDIRECT && k != j ensures Word(c, k) == Word(b, k) {
      assert 4 * k + 3 < 4 * j || 4 * j + 3 < 4 * k;
    }
  }

  /** memmove of words into a block, from word j on. */
  function PutWords(b: ByteBlock, j: int, ws: seq<int>): (r: ByteBlock)
    requires |b| == BSIZE && 0 <= j && j + |ws| <= NINDIRECT
    ensures |r| == BSIZE
  {
    if ws == [] then b else PutWord(PutWords(b, j, ws[..|ws| - 1]), j + |ws| - 1, ws[|ws| - 1])
  }

  predicate AreWords(ws: seq<int>) { forall i :: 0 <= i < |ws| ==> 0 <= ws[i] < 0x1_0000_0000 }

  lemma {:induction false} PutWordsWords(b: ByteBlock, j: int, ws: seq<int>)
    requires IsBlock(b) && 0 <= j && j + |ws| <= NINDIRECT && AreWords(ws)
    ensures IsBlock(PutWords(b, j, ws))
    ensures forall k :: 0 <= k < NINDIRECT ==>
              Word(PutWords(b, j, ws), k) == if j <= k < j + |ws| then ws[k - j] else Word(b, k)
  {
    if ws != [] {
      hide Word, PutWord;
      var n := |ws| - 1;
      PutWordsWords(b, j, ws[..n]);
      PutWordWords(PutWords(b, j, ws[..n]), j + n, ws[n]);
    }
  }

  /** Writing the words that are there changes nothing. */
  lemma {:induction false} PutSame(b: ByteBlock, j: int, ws: seq<int>)
    requires IsBlock(b) && 0 <= j && j + |ws| <= NINDIRECT
    requires forall k :: 0 <= k < |ws| ==> ws[k] == Word(b, j + k)
    ensures PutWords(b, j, ws) == b
  {
    if ws != [] {
      PutSame(b, j, ws[..|ws| - 1]);
      PutSameWord(b, j + |ws| - 1);
    }
  }

  lemma {:induction false} PutSameWord(b: ByteBlock, j: int)
    requires IsBlock(b) && 0 <= j < NINDIRECT
    ensures PutWord(b, j, Word(b, j)) == b
  {
    var v := Word(b, j);
    assert v % 256 == b[4 * j] && v / 256 == b[4 * j + 1] + 256 * b[4 * j + 2] + 65536 * b[4 * j + 3];
    assert v / 65536 == v / 256 / 256 && v / 16777216 == v / 65536 / 256;
    assert v / 65536 == b[4 * j + 2] + 256 * b[4 * j + 3];
  }
}
