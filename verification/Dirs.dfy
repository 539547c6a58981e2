/** Directories as bytes: struct dirent, and comparing names. */
module Dirs {
  import opened Bytes

  const DIRSIZ := 14
  const DIRENT := 16

  /** The string in a char array of n bytes: what precedes the first NUL, or all n. */
  function Text(s: seq<int>, n: nat): (t: seq<int>)
    ensures |t| <= n && t <= s && 0 !in t
  {
    if n == 0 || s == [] || s[0] == 0 then [] else [s[0]] + Text(s[1..], n - 1)
  }

  /** The byte of a string that ends in NULs. */
  function CharAt(s: seq<int>, k: nat): int { if k < |s| then s[k] else 0 }

  lemma {:induction false} TextStep(p: seq<int>, q: seq<int>, k: nat, n: nat)
    requires k < n && k < |p| && k < |q| && p[k] == q[k] != 0
    ensures Text(p[k..], n - k) == Text(q[k..], n - k) <==> Text(p[k + 1..], n - k - 1) == Text(q[k + 1..], n - k - 1)
  {
    assert p[k..][1..] == p[k + 1..] && q[k..][1..] == q[k + 1..];
    var a, b := Text(p[k + 1..], n - k - 1), Text(q[k + 1..], n - k - 1);
    assert ([p[k]] + a)[1..] == a && ([q[k]] + b)[1..] == b;
  }

  lemma {:induction false} NoText(p: seq<int>, q: seq<int>)
    ensures Text(p, 0) == Text(q, 0)
  {
  }

  lemma {:induction false} TextEnd(p: seq<int>, q: seq<int>, k: nat, n: nat)
    requires k < n && k <= |p| && k <= |q| && (CharAt(p, k) == 0 || CharAt(p, k) != CharAt(q, k))
    ensures Text(p[k..], n - k) == Text(q[k..], n - k) <==> CharAt(p, k) == CharAt(q, k)
  {
    if CharAt(p, k) != 0 { assert Text(p[k..], n - k)[0] == p[k]; }
    if CharAt(q, k) != 0 { assert Text(q[k..], n - k)[0] == q[k]; }
  }

  /** strncmp says 0 exactly of arrays that hold the same string. */
  method Strncmp(p: seq<int>, q: seq<int>, n: nat) returns (r: int)
    ensures r == 0 <==> Text(p, n) == Text(q, n)
  {
    hide Text;
    var k := 0;
    assert p[0..] == p && q[0..] == q;
    while k < n && CharAt(p, k) != 0 && CharAt(p, k) == CharAt(q, k)
      invariant k <= n && k <= |p| && k <= |q|
      invariant Text(p, n) == Text(q, n) <==> Text(p[k..], n - k) == Text(q[k..], n - k)
    {
      TextStep(p, q, k, n);
      k := k + 1;
    }
    if k == n {
      NoText(p[k..], q[k..]);
      return 0;
    }
    TextEnd(p, q, k, n);
    r := CharAt(p, k) - CharAt(q, k);
  }

  /** A directory entry: the inode number, low byte first, and the name cut or filled up to DIRSIZ bytes. */
  function Dirent(inum: int, name: seq<int>): seq<int> {
    [inum % 256, inum / 256 % 256] + seq(DIRSIZ, k => if 0 <= k < |name| then name[k] else 0)
  }

  /** The ushort at entry k of a directory. */
  function EntryNumber(c: seq<int>, k: int): int
    requires 0 <= k && 16 * k + 16 <= |c|
  {
    c[16 * k] + 256 * c[16 * k + 1]
  }

  function EntryName(c: seq<int>, k: int): seq<int>
    requires 0 <= k && 16 * k + 16 <= |c|
  {
    Text(c[16 * k + 2..16 * k + 16], 14)
  }

  /** Entry k is in use and has that name. */
  ghost predicate Names(c: seq<int>, k: int, name: seq<int>)
    requires 0 <= k && 16 * k + 16 <= |c|
  {
    EntryNumber(c, k) != 0 && EntryName(c, k) == Text(name, 14)
  }

  /** None of the first n entries does. */
  ghost predicate NoneNames(c: seq<int>, n: int, name: seq<int>)
    requires 0 <= n && 16 * n <= |c|
  {
    forall k :: 0 <= k < n ==> !Names(c, k, name)
  }

  lemma {:induction false} NoneYet(c: seq<int>, name: seq<int>)
    ensures NoneNames(c, 0, name)
  {
  }

  /** The sixteen bytes read at off decide about that entry. */
  lemma {:induction false} EntryOf(c: seq<int>, k: int, de: seq<int>, name: seq<int>)
    requires 0 <= k && 16 * k + 16 <= |c| && de == c[16 * k..16 * k + 16] && NoneNames(c, k, name)
    ensures EntryNumber(c, k) == de[0] + 256 * de[1]
    ensures Names(c, k, name) <==> de[0] + 256 * de[1] != 0 && Text(name, 14) == Text(de[2..], 14)
    ensures !Names(c, k, name) ==> NoneNames(c, k + 1, name)
  {
    hide Text;
    assert c[16 * k + 2..16 * k + 16] == de[2..];
  }

  lemma {:induction false} Sixteenth(off: int, k: int)
    requires off == 16 * k
    ensures off / 16 == k && off % 16 == 0
  {
  }

  lemma {:induction false} TextPadded(name: seq<int>, n: nat)
    ensures Text(seq(n, k requires 0 <= k => CharAt(name, k)), n) == Text(name, n)
  {
    if n > 0 && name != [] && name[0] != 0 {
      var s := seq(n, k requires 0 <= k => CharAt(name, k));
      TextPadded(name[1..], n - 1);
      assert s[1..] == seq(n - 1, k requires 0 <= k => CharAt(name[1..], k));
    }
  }

  /** What a lookup finds in an entry that mkfs or dirlink wrote: the number, and the name cut to 14 bytes. */
  lemma {:induction false} DirentRead(c: seq<int>, k: int, inum: int, name: seq<int>)
    requires 0 <= k && 16 * k + 16 <= |c| && c[16 * k..16 * k + 16] == Dirent(inum, name) && 0 <= inum < 0x10000
    ensures EntryNumber(c, k) == inum && EntryName(c, k) == Text(name, 14)
  {
    hide Text;
    var d := Dirent(inum, name);
    assert d[0] == c[16 * k] && d[1] == c[16 * k + 1];
    assert c[16 * k + 2..16 * k + 16] == d[2..] == seq(14, k requires 0 <= k => CharAt(name, k));
    TextPadded(name, 14);
  }

  datatype Lookup = Found(inum: int, off: int) | Missing | ReadPanic(off: int)

  /** What dirlink does: put the entry at off, refuse, or panic. */
  datatype Link = Linked(off: int) | Refused | LinkPanic

  /** The first n entries are in use. */
  ghost predicate AllUsed(c: seq<int>, n: int)
    requires 0 <= n && 16 * n <= |c|
  {
    forall k :: 0 <= k < n ==> EntryNumber(c, k) != 0
  }

  lemma {:induction false} NoneUsed(c: seq<int>)
    ensures AllUsed(c, 0)
  {
  }

  lemma {:induction false} UsedMore(c: seq<int>, k: int, de: seq<int>)
    requires 0 <= k && 16 * k + 16 <= |c| && de == c[16 * k..16 * k + 16] && AllUsed(c, k)
    ensures EntryNumber(c, k) == de[0] + 256 * de[1]
    ensures de[0] + 256 * de[1] != 0 ==> AllUsed(c, k + 1)
  {
  }

  /** The place for a new entry: a free one with none before it, or the end. */
  ghost predicate Place(c: seq<int>, off: int) {
    && 0 <= off <= |c| && |c| % 16 == 0 && off % 16 == 0 && AllUsed(c, off / 16)
    && (off < |c| ==> EntryNumber(c, off / 16) == 0)
  }

  /** The directory with the entry put there. */
  function WithEntry(c: seq<int>, off: int, inum: int, name: seq<int>): seq<int>
    requires 0 <= off <= |c|
  {
    c[..off] + Dirent(inum, name) + if off + 16 < |c| then c[off + 16..] else []
  }

  lemma {:induction false} SameEntry(c: seq<int>, d: seq<int>, k: int)
    requires 0 <= k && 16 * k + 16 <= |c| && 16 * k + 16 <= |d| && c[16 * k..16 * k + 16] == d[16 * k..16 * k + 16]
    ensures EntryNumber(d, k) == EntryNumber(c, k) && EntryName(d, k) == EntryName(c, k)
  {
    hide Text;
    var x, y := c[16 * k..16 * k + 16], d[16 * k..16 * k + 16];
    assert c[16 * k] == x[0] && c[16 * k + 1] == x[1] && d[16 * k] == y[0] && d[16 * k + 1] == y[1];
    assert c[16 * k + 2..16 * k + 16] == x[2..] && d[16 * k + 2..16 * k + 16] == y[2..];
  }

  /** After dirlink a lookup of the name finds the new entry, and a lookup of any other name what it found before. */
  lemma {:induction false} LinkFound(c: seq<int>, off: int, inum: int, name: seq<int>, d: seq<int>, other: seq<int>)
    requires Place(c, off) && NoneNames(c, |c| / 16, name) && 0 < inum < 0x10000 && d == WithEntry(c, off, inum, name)
    ensures |d| % 16 == 0 && off + 16 <= |d| && Names(d, off / 16, name) && EntryNumber(d, off / 16) == inum
    ensures NoneNames(d, off / 16, name)
    ensures Text(other, 14) != Text(name, 14) ==> !Names(d, off / 16, other)
    ensures forall k :: 0 <= k < |c| / 16 && k != off / 16 ==>
              (Names(d, k, other) <==> Names(c, k, other)) && EntryNumber(d, k) == EntryNumber(c, k)
    ensures |c| <= |d| <= |c| + 16 && (|d| > |c| ==> off == |c|)
    ensures off < |c| ==> !Names(c, off / 16, other)
  {
    hide Text, Dirent;
    var n := off / 16;
    assert |Dirent(inum, name)| == 16 by { DirentSize(inum, name); }
    assert d[16 * n..16 * n + 16] == Dirent(inum, name);
    DirentRead(d, n, inum, name);
    forall k | 0 <= k < |c| / 16 && k != n
      ensures EntryNumber(d, k) == EntryNumber(c, k) && EntryName(d, k) == EntryName(c, k)
    {
      assert c[16 * k..16 * k + 16] == d[16 * k..16 * k + 16];
      SameEntry(c, d, k);
    }
    hide EntryNumber, EntryName;
    forall k | 0 <= k < n ensures !Names(d, k, name) {
      assert !Names(c, k, name);
    }
  }

  lemma {:induction false} PlaceIn(c: seq<int>, off: int)
    requires Place(c, off)
    ensures 0 <= off <= |c| && off % 16 == 0 && |c| % 16 == 0
  {
  }

  /** The first entry with that name, n if there is none. */
  lemma {:induction false} FirstNamed(c: seq<int>, n: int, name: seq<int>) returns (k: int)
    requires 0 <= n && 16 * n <= |c|
    ensures 0 <= k <= n && NoneNames(c, k, name) && (k < n ==> Names(c, k, name))
  {
    k := 0;
    while k < n && !Names(c, k, name)
      invariant 0 <= k <= n && NoneNames(c, k, name)
    {
      k := k + 1;
    }
  }

  /** A lookup of another name stops at the same entry. */
  lemma {:induction false} SameFirst(c: seq<int>, off: int, inum: int, name: seq<int>, d: seq<int>, other: seq<int>,
                                     k: int)
    requires Place(c, off) && NoneNames(c, |c| / 16, name) && 0 < inum < 0x10000 && d == WithEntry(c, off, inum, name)
    requires Text(other, 14) != Text(name, 14) && 0 <= k <= |c| / 16 && NoneNames(c, k, other)
    requires k < |c| / 16 ==> Names(c, k, other)
    ensures |d| % 16 == 0 && 16 * k <= |c| <= |d|
    ensures k == |c| / 16 ==> NoneNames(d, |d| / 16, other)
    ensures k < |c| / 16 ==>
      NoneNames(d, k, other) && Names(d, k, other) && EntryNumber(d, k) == EntryNumber(c, k)
  {
    LinkFound(c, off, inum, name, d, other);
    hide Text, WithEntry, Names, EntryNumber;
  }

  lemma {:induction false} DirentSize(inum: int, name: seq<int>)
    ensures |Dirent(inum, name)| == 16
  {
  }
}
