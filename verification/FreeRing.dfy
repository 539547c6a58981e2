/** The free list of user/umalloc.c: headers in memory, by byte address, and what they stand for. */
module FreeRing {
  /** sizeof(Header) */
  const UNIT := 16
  /** &base, in the data segment and so below the heap */
  const BASE := 8

  /** The ring of free blocks from base on: position -1, and again |free|, is base itself. */
  ghost function At(free: seq<int>, i: int): int { if 0 <= i < |free| then free[i] else BASE }

  ghost predicate Linked(ptr: map<int, int>, free: seq<int>, i: int) {
    At(free, i) in ptr && ptr[At(free, i)] == At(free, i + 1)
  }

  ghost predicate Links(ptr: map<int, int>, free: seq<int>) {
    forall i :: -1 <= i < |free| ==> Linked(ptr, free, i)
  }

  ghost predicate Ascending(free: seq<int>) {
    && (forall i, j :: 0 <= i < j < |free| ==> free[i] < free[j])
    && (forall i :: 0 <= i < |free| ==> BASE < free[i])
  }

  ghost function End(size: map<int, int>, b: int): int { if b in size then b + UNIT * size[b] else b }

  /** b heads a block, free or live. */
  ghost predicate Block(free: seq<int>, live: map<int, int>, b: int) { b in free || b in live }

  ghost predicate Sized(size: map<int, int>, free: seq<int>, live: map<int, int>) {
    && (forall b :: b in free ==> b !in live)
    && (forall b :: b in live ==> b in size && size[b] == live[b])
    && (forall b :: Block(free, live, b) ==> b in size && size[b] > 0 && BASE < b)
  }

  /** owner gives the one block each byte is in. */
  ghost predicate Cut(size: map<int, int>, free: seq<int>, live: map<int, int>, owner: map<int, int>) {
    && (forall x :: x in owner ==> Block(free, live, owner[x]) && owner[x] <= x < End(size, owner[x]))
    && (forall b, x :: Block(free, live, b) && b <= x < End(size, b) ==> x in owner && owner[x] == b)
  }

  /** The blocks, free and live, cut up the heap. */
  ghost predicate Partition(size: map<int, int>, free: seq<int>, live: map<int, int>, owner: map<int, int>) {
    Sized(size, free, live) && Cut(size, free, live, owner)
  }

  /** No two free blocks touch. */
  ghost predicate Coalesced(size: map<int, int>, free: seq<int>) {
    forall i, j :: 0 <= i < j < |free| ==> End(size, free[i]) < free[j]
  }

  /** bp belongs between positions i and i + 1. */
  ghost predicate Between(free: seq<int>, bp: int, i: int) {
    && -1 <= i < |free|
    && (forall k :: 0 <= k <= i ==> free[k] < bp)
    && (forall k :: i < k < |free| ==> bp < free[k])
  }

  lemma {:induction false} Place(free: seq<int>, bp: int) returns (i: int)
    requires Ascending(free) && bp !in free
    ensures Between(free, bp, i)
  {
    i := |free| - 1;
    while i >= 0 && bp < free[i]
      invariant -1 <= i < |free| && forall k :: i < k < |free| ==> bp < free[k]
    {
      i := i - 1;
    }
    assert i >= 0 ==> free[i] in free;
  }

  /** Distinct blocks do not overlap. */
  lemma {:induction false} Apart(size: map<int, int>, free: seq<int>, live: map<int, int>, owner: map<int, int>, a: int,
                                 b: int)
    requires Partition(size, free, live, owner) && Block(free, live, a) && Block(free, live, b) && a < b
    ensures End(size, a) <= b
  {
    assert b in owner && owner[b] == b;
  }

  /** A block moves from live into the free list, unmerged. */
  lemma {:induction false} Insert(size: map<int, int>, free: seq<int>, live: map<int, int>, owner: map<int, int>,
                                  bp: int, i: int)
    requires Partition(size, free, live, owner) && Ascending(free) && bp in live && Between(free, bp, i)
    ensures var free' := free[..i + 1] + [bp] + free[i + 1..];
      Partition(size, free', live - {bp}, owner) && Ascending(free')
  {
    var free', live' := free[..i + 1] + [bp] + free[i + 1..], live - {bp};
    InsertedMembers(free, bp, i);
    forall b ensures Block(free', live', b) <==> Block(free, live, b) {
    }
    assert Block(free, live, bp);
    hide Block;
  }

  lemma {:induction false} InsertedMembers(free: seq<int>, bp: int, i: int)
    requires -1 <= i < |free|
    ensures forall b :: b in free[..i + 1] + [bp] + free[i + 1..] <==> b in free || b == bp
  {
    assert free == free[..i + 1] + free[i + 1..];
  }

  /** Two free blocks that touch become one. */
  lemma {:induction false} Merge(size: map<int, int>, free: seq<int>, live: map<int, int>, owner: map<int, int>,
                                 i: int) returns (owner': map<int, int>)
    requires Partition(size, free, live, owner) && Ascending(free) && 0 <= i < |free| - 1
    requires free[i] in size && free[i + 1] in size && End(size, free[i]) == free[i + 1]
    ensures var free' := free[..i + 1] + free[i + 2..];
      Partition(size[free[i] := size[free[i]] + size[free[i + 1]]], free', live, owner') && Ascending(free')
    ensures owner'.Keys == owner.Keys
  {
    var a, b := free[i], free[i + 1];
    owner' := map x | x in owner :: if owner[x] == b then a else owner[x];
    MergedMembers(free, i);
    Merged(size, free, free[..i + 1] + free[i + 2..], live, owner, owner', a, b);
  }

  lemma {:induction false} MergedMembers(free: seq<int>, i: int)
    requires Ascending(free) && 0 <= i < |free| - 1
    ensures var free' := free[..i + 1] + free[i + 2..];
      Ascending(free') && forall b :: b in free' <==> b in free && b != free[i + 1]
    ensures free[i] in free && free[i + 1] in free
  {
    assert free == free[..i + 1] + [free[i + 1]] + free[i + 2..];
  }

  lemma {:induction false} Merged(size: map<int, int>, free: seq<int>, free': seq<int>, live: map<int, int>,
                                  owner: map<int, int>, owner': map<int, int>, a: int, b: int)
    requires Partition(size, free, live, owner) && a in free && b in free && a != b && a in size && b in size
    requires End(size, a) == b
    requires forall c :: c in free' <==> c in free && c != b
    requires owner' == map x | x in owner :: if owner[x] == b then a else owner[x]
    ensures Partition(size[a := size[a] + size[b]], free', live, owner')
  {
    forall c ensures Block(free', live, c) <==> Block(free, live, c) && c != b {
    }
    assert Block(free, live, a) && Block(free, live, b);
    var size' := size[a := size[a] + size[b]];
    assert End(size', a) == End(size, b) && forall c :: c != a ==> End(size', c) == End(size, c);
    Reowned(size, size', free, free', live, owner, owner', a, b);
    hide Block;
  }

  lemma {:induction false} Reowned(size: map<int, int>, size': map<int, int>, free: seq<int>, free': seq<int>,
                                   live: map<int, int>, owner: map<int, int>, owner': map<int, int>, a: int, b: int)
    requires Partition(size, free, live, owner) && Block(free, live, a) && Block(free, live, b) && a < b
    requires End(size, a) == b < End(size, b)
    requires forall c :: Block(free', live, c) <==> Block(free, live, c) && c != b
    requires End(size', a) == End(size, b) && forall c :: c != a ==> End(size', c) == End(size, c)
    requires owner' == map x | x in owner :: if owner[x] == b then a else owner[x]
    ensures forall x :: x in owner' ==> Block(free', live, owner'[x]) && owner'[x] <= x < End(size', owner'[x])
    ensures forall c, x :: Block(free', live, c) && c <= x < End(size', c) ==> x in owner' && owner'[x] == c
  {
    hide Block, End;
    Apart(size, free, live, owner, a, b);
    forall c, x | Block(free', live, c) && c <= x < End(size', c) ensures x in owner' && owner'[x] == c {
      assert Block(free, live, if c == a && x >= b then b else c);
    }
  }

  // ----- links

  lemma {:induction false} LinksInsert(ptr: map<int, int>, free: seq<int>, bp: int, t: int)
    requires Links(ptr, free) && Ascending(free) && Between(free, bp, t) && BASE < bp
    ensures Links(ptr[bp := At(free, t + 1)][At(free, t) := bp], free[..t + 1] + [bp] + free[t + 1..])
  {
    var free', ptr' := free[..t + 1] + [bp] + free[t + 1..], ptr[bp := At(free, t + 1)][At(free, t) := bp];
    forall i | -1 <= i < |free'| ensures Linked(ptr', free', i) {
      if i <= t {
        assert Linked(ptr, free, i);
      } else if i > t + 1 {
        assert Linked(ptr, free, i - 1);
      }
    }
  }

  lemma {:induction false} LinksRemove(ptr: map<int, int>, free: seq<int>, k: int)
    requires Links(ptr, free) && Ascending(free) && 0 <= k < |free|
    ensures At(free, k) in ptr && Links(ptr[At(free, k - 1) := ptr[free[k]]], free[..k] + free[k + 1..])
  {
    assert Linked(ptr, free, k);
    var free', ptr' := free[..k] + free[k + 1..], ptr[At(free, k - 1) := ptr[free[k]]];
    forall i | -1 <= i < |free'| ensures Linked(ptr', free', i) {
      assert Linked(ptr, free, if i < k then i else i + 1);
    }
  }

  // ----- free

  /** free's search stops exactly at the place where bp belongs. */
  lemma {:induction false} Stops(ptr: map<int, int>, free: seq<int>, bp: int, t: int, i: int)
    requires Links(ptr, free) && Ascending(free) && Between(free, bp, t) && BASE < bp && -1 <= i < |free|
    ensures At(free, i) in ptr && ptr[At(free, i)] == At(free, i + 1)
    ensures var p, n := At(free, i), At(free, i + 1);
      (bp > p && bp < n) || (p >= n && (bp > p || bp < n)) <==> i == t
  {
    assert Linked(ptr, free, i);
  }

  /** Free blocks do not touch, except perhaps those at t and t + 1. */
  ghost predicate Joined(size: map<int, int>, free: seq<int>, t: int) {
    forall i, j :: 0 <= i < j < |free| && !(i == t && j == t + 1) ==> End(size, free[i]) < free[j]
  }

  /** After the first half of free: bp, merged with the block after it if they touch, stands at t + 1. */
  ghost predicate Entered(ptr: map<int, int>, size: map<int, int>, free: seq<int>, live: map<int, int>,
                          owner: map<int, int>, bp: int, t: int) {
    && 0 <= t + 1 < |free| && free[t + 1] == bp && Links(ptr, free) && Ascending(free)
    && Partition(size, free, live, owner) && Joined(size, free, t)
  }

  lemma {:induction false} EnterAlone(ptr: map<int, int>, size: map<int, int>, free: seq<int>, live: map<int, int>,
                                      owner: map<int, int>, bp: int, t: int)
    requires Links(ptr, free) && Ascending(free) && Partition(size, free, live, owner) && Coalesced(size, free)
    requires bp in live && Between(free, bp, t) && End(size, bp) != At(free, t + 1)
    ensures Entered(ptr[bp := At(free, t + 1)][At(free, t) := bp], size, free[..t + 1] + [bp] + free[t + 1..],
                    live - {bp}, owner, bp, t)
  {
    assert Block(free, live, bp);
    LinksInsert(ptr, free, bp, t);
    Insert(size, free, live, owner, bp, t);
    if t + 1 < |free| {
      assert Block(free, live, free[t + 1]);
      Apart(size, free, live, owner, bp, free[t + 1]);
    }
    JoinedBetween(size, free, bp, t);
    hide Links, Partition;
  }

  lemma {:induction false} JoinedBetween(size: map<int, int>, free: seq<int>, bp: int, t: int)
    requires Coalesced(size, free) && Between(free, bp, t) && (t + 1 < |free| ==> End(size, bp) < free[t + 1])
    requires Ascending(free)
    ensures Joined(size, free[..t + 1] + [bp] + free[t + 1..], t)
  {
    hide End;
    var free' := free[..t + 1] + [bp] + free[t + 1..];
    forall i, j | 0 <= i < j < |free'| && !(i == t && j == t + 1) ensures End(size, free'[i]) < free'[j] {
      if i < t && j == t + 1 {
        assert End(size, free[i]) < free[t];
      } else if i == t + 1 {
        assert free[t + 1] <= free[j - 1];
      }
    }
  }

  lemma {:induction false} EnterMerged(ptr: map<int, int>, size: map<int, int>, free: seq<int>, live: map<int, int>,
                                       owner: map<int, int>, bp: int, t: int)
    returns (owner': map<int, int>)
    requires Links(ptr, free) && Ascending(free) && Partition(size, free, live, owner) && Coalesced(size, free)
    requires bp in live && Between(free, bp, t) && t + 1 < |free| && End(size, bp) == free[t + 1]
    ensures bp in size && free[t + 1] in size && free[t + 1] in ptr && owner'.Keys == owner.Keys
    ensures Entered(ptr[bp := ptr[free[t + 1]]][At(free, t) := bp], size[bp := size[bp] + size[free[t + 1]]],
                    free[..t + 1] + [bp] + free[t + 2..], live - {bp}, owner', bp, t)
  {
    assert Block(free, live, bp) && Block(free, live, free[t + 1]);
    assert bp !in free && End(size, free[t + 1]) == free[t + 1] + UNIT * size[free[t + 1]];
    JoinedAfter(size, size[bp := size[bp] + size[free[t + 1]]], free, bp, t);
    LinksAfter(ptr, free, bp, t);
    owner' := MergeAfter(size, free, live, owner, bp, t);
    hide Links, Partition, Coalesced, Between, Ascending, Joined;
  }

  lemma {:induction false} LinksAfter(ptr: map<int, int>, free: seq<int>, bp: int, t: int)
    requires Links(ptr, free) && Ascending(free) && Between(free, bp, t) && BASE < bp && t + 1 < |free|
    ensures free[t + 1] in ptr
    ensures Links(ptr[bp := ptr[free[t + 1]]][At(free, t) := bp], free[..t + 1] + [bp] + free[t + 2..])
  {
    var q, p := free[t + 1], At(free, t);
    assert Linked(ptr, free, t + 1);
    var free1, ptr1 := free[..t + 1] + [bp] + free[t + 1..], ptr[bp := q][p := bp];
    LinksInsert(ptr, free, bp, t);
    AscendingInsert(free, bp, t);
    LinksRemove(ptr1, free1, t + 2);
    hide Links, Ascending, Between, Linked;
    assert free1[..t + 2] + free1[t + 3..] == free[..t + 1] + [bp] + free[t + 2..];
    assert ptr1[bp := ptr1[q]] == ptr[bp := ptr[q]][p := bp];
  }

  lemma {:induction false} AscendingInsert(free: seq<int>, bp: int, t: int)
    requires Ascending(free) && Between(free, bp, t) && BASE < bp
    ensures Ascending(free[..t + 1] + [bp] + free[t + 1..]) && bp !in free
  {
  }

  lemma {:induction false} MergeAfter(size: map<int, int>, free: seq<int>, live: map<int, int>, owner: map<int, int>,
                                      bp: int, t: int)
    returns (owner': map<int, int>)
    requires Ascending(free) && Partition(size, free, live, owner) && bp in size
    requires bp in live && Between(free, bp, t) && -1 <= t < |free| - 1 && End(size, bp) == free[t + 1]
    requires free[t + 1] in size
    ensures var free' := free[..t + 1] + [bp] + free[t + 2..];
      Ascending(free') && Partition(size[bp := size[bp] + size[free[t + 1]]], free', live - {bp}, owner')
    ensures owner'.Keys == owner.Keys
  {
    hide Partition, Ascending, Between;
    Insert(size, free, live, owner, bp, t);
    var free1 := free[..t + 1] + [bp] + free[t + 1..];
    owner' := Merge(size, free1, live - {bp}, owner, t + 1);
    assert free1[..t + 2] + free1[t + 3..] == free[..t + 1] + [bp] + free[t + 2..];
  }

  lemma {:induction false} JoinedAfter(size: map<int, int>, size': map<int, int>, free: seq<int>, bp: int, t: int)
    requires Coalesced(size, free) && Between(free, bp, t) && t + 1 < |free| && Ascending(free) && bp !in free
    requires End(size', bp) == End(size, free[t + 1]) && forall b :: b != bp ==> End(size', b) == End(size, b)
    ensures Joined(size', free[..t + 1] + [bp] + free[t + 2..], t)
  {
    hide End;
    var free' := free[..t + 1] + [bp] + free[t + 2..];
    forall i, j | 0 <= i < j < |free'| && !(i == t && j == t + 1) ensures End(size', free'[i]) < free'[j] {
      if j == t + 1 {
        assert free'[i] == free[i] && free[i] in free && End(size, free[i]) < free[t];
      } else if i == t + 1 {
        assert free'[j] == free[j];
      } else {
        assert free'[i] == free[i] && free'[j] == free[j] && free[i] in free;
      }
    }
  }

  /** The second half of free when bp does not touch the block before it. */
  lemma {:induction false} StayApart(ptr: map<int, int>, size: map<int, int>, free: seq<int>, live: map<int, int>,
                                     owner: map<int, int>, bp: int, t: int)
    requires Entered(ptr, size, free, live, owner, bp, t) && -1 <= t
    requires t == -1 || End(size, free[t]) != bp
    ensures Coalesced(size, free)
  {
    if t >= 0 {
      assert Block(free, live, free[t]) && Block(free, live, bp);
      Apart(size, free, live, owner, free[t], bp);
    }
  }

  /** The second half of free when bp touches the block before it. */
  lemma {:induction false} MergeBack(ptr: map<int, int>, size: map<int, int>, free: seq<int>, live: map<int, int>,
                                     owner: map<int, int>, bp: int, t: int)
    returns (owner': map<int, int>)
    requires Entered(ptr, size, free, live, owner, bp, t) && 0 <= t && End(size, free[t]) == bp && bp in size
    requires free[t] in size
    ensures bp in ptr && owner'.Keys == owner.Keys
    ensures var free', size' := free[..t + 1] + free[t + 2..], size[free[t] := size[free[t]] + size[bp]];
      && Links(ptr[free[t] := ptr[bp]], free') && Ascending(free')
      && Partition(size', free', live, owner') && Coalesced(size', free')
  {
    hide Links, Partition, Joined, Ascending;
    var size' := size[free[t] := size[free[t]] + size[bp]];
    AscendingDistinct(free, t);
    owner' := Merge(size, free, live, owner, t);
    LinksRemove(ptr, free, t + 1);
    CoalescedBack(size, size', free, t);
  }

  lemma {:induction false} AscendingDistinct(free: seq<int>, t: int)
    requires Ascending(free) && 0 <= t < |free| - 1
    ensures free[t] != free[t + 1]
  {
  }

  lemma {:induction false} CoalescedBack(size: map<int, int>, size': map<int, int>, free: seq<int>, t: int)
    requires Joined(size, free, t) && Ascending(free) && 0 <= t < |free| - 1
    requires End(size', free[t]) == End(size, free[t + 1]) && forall b :: b != free[t] ==> End(size', b) == End(size, b)
    ensures Coalesced(size', free[..t + 1] + free[t + 2..])
  {
    hide End;
    var free' := free[..t + 1] + free[t + 2..];
    forall i, j | 0 <= i < j < |free'| ensures End(size', free'[i]) < free'[j] {
      var j' := if j <= t then j else j + 1;
      assert free'[j] == free[j'];
      if i == t {
        assert End(size, free[t + 1]) < free[j'];
      } else {
        var i' := if i <= t then i else i + 1;
        assert free'[i] == free[i'] && End(size, free[i']) < free[j'];
      }
    }
  }

  // ----- malloc

  /** A free block large enough to hold the bytes lo..hi, at or around them. */
  ghost predicate Holds(size: map<int, int>, free: seq<int>, lo: int, hi: int) {
    exists b :: b in free && b <= lo && hi <= End(size, b)
  }

  /** Taking a whole free block. */
  lemma {:induction false} TakeWhole(ptr: map<int, int>, size: map<int, int>, free: seq<int>, live: map<int, int>,
                                     owner: map<int, int>, k: int)
    requires Links(ptr, free) && Ascending(free) && Partition(size, free, live, owner) && Coalesced(size, free)
    requires 0 <= k < |free|
    ensures var p := free[k]; var free' := free[..k] + free[k + 1..];
      && p in size && p in ptr && p !in live && p != BASE
      && Links(ptr[At(free, k - 1) := ptr[p]], free') && Ascending(free')
      && Partition(size, free', live[p := size[p]], owner) && Coalesced(size, free')
      && At(free', k - 1) == At(free, k - 1)
  {
    hide Links, Partition, Coalesced;
    var p, free' := free[k], free[..k] + free[k + 1..];
    LinksRemove(ptr, free, k);
    assert free == free[..k] + [p] + free[k + 1..];
    TakenPartition(size, free, free', live, owner, p);
    TakenCoalesced(size, free, k);
  }

  lemma {:induction false} TakenPartition(size: map<int, int>, free: seq<int>, free': seq<int>, live: map<int, int>,
                                          owner: map<int, int>, p: int)
    requires Partition(size, free, live, owner) && p in free && forall b :: b in free' <==> b in free && b != p
    ensures p in size && p !in live && p != BASE && Partition(size, free', live[p := size[p]], owner)
  {
    hide Block, End, Cut;
    IsBlock(free, live, p);
    BlockMoved(free, free', live, p, size[p]);
    CutSame(size, free, free', live, live[p := size[p]], owner);
  }

  /** A partition is about which blocks there are, not about which are free. */
  lemma {:induction false} CutSame(size: map<int, int>, free: seq<int>, free': seq<int>, live: map<int, int>,
                                   live': map<int, int>, owner: map<int, int>)
    requires Cut(size, free, live, owner) && forall b :: Block(free', live', b) <==> Block(free, live, b)
    ensures Cut(size, free', live', owner)
  {
    hide Block, End;
    forall b, x | Block(free', live', b) && b <= x < End(size, b) ensures x in owner && owner[x] == b {
      assert Block(free, live, b);
    }
    forall x | x in owner ensures Block(free', live', owner[x]) {
      assert Block(free, live, owner[x]);
    }
  }

  lemma {:induction false} BlockMoved(free: seq<int>, free': seq<int>, live: map<int, int>, p: int, n: int)
    requires p in free && forall b :: b in free' <==> b in free && b != p
    ensures forall b :: Block(free', live[p := n], b) <==> Block(free, live, b)
  {
  }

  lemma {:induction false} TakenCoalesced(size: map<int, int>, free: seq<int>, k: int)
    requires Coalesced(size, free) && Ascending(free) && 0 <= k < |free|
    ensures Coalesced(size, free[..k] + free[k + 1..]) && Ascending(free[..k] + free[k + 1..])
  {
    hide End;
  }

  /** Cutting n units off the end of a free block. */
  lemma {:induction false} TakeTail(size: map<int, int>, free: seq<int>, live: map<int, int>, owner: map<int, int>,
                                    p: int, n: int)
    returns (owner': map<int, int>)
    requires Ascending(free) && Partition(size, free, live, owner) && Coalesced(size, free) && p in free && p in size
    requires 0 < n < size[p]
    ensures var q := p + UNIT * (size[p] - n); var size' := size[p := size[p] - n][q := n];
      && q !in live && q !in free && Partition(size', free, live[q := n], owner') && Coalesced(size', free) && BASE < q
    ensures owner'.Keys == owner.Keys
  {
    hide Partition, Coalesced, End;
    var q := p + UNIT * (size[p] - n);
    var size' := size[p := size[p] - n][q := n];
    owner' := map x | x in owner :: if owner[x] == p && q <= x then q else owner[x];
    InsideBlock(size, free, live, owner, p, q);
    CutEnds(size, size', p, q, n);
    Recut(size, size', free, live, owner, owner', p, q);
    CutCoalesced(size, size', free, p, q);
  }

  /** No block starts inside another. */
  lemma {:induction false} InsideBlock(size: map<int, int>, free: seq<int>, live: map<int, int>, owner: map<int, int>,
                                       p: int, q: int)
    requires Partition(size, free, live, owner) && Block(free, live, p) && p in size && p < q < p + UNIT * size[p]
    ensures !Block(free, live, q) && BASE < q && p < q < End(size, p)
  {
    assert q in owner && owner[q] == p;
  }

  lemma {:induction false} CutEnds(size: map<int, int>, size': map<int, int>, p: int, q: int, n: int)
    requires p in size && q == p + UNIT * (size[p] - n) && p != q && size' == size[p := size[p] - n][q := n]
    ensures End(size', p) == q && End(size', q) == End(size, p) && forall b :: b != p && b != q ==>
               End(size', b) == End(size, b)
  {
  }

  lemma {:induction false} Recut(size: map<int, int>, size': map<int, int>, free: seq<int>, live: map<int, int>,
                                 owner: map<int, int>, owner': map<int, int>, p: int, q: int)
    requires Partition(size, free, live, owner) && p in free && !Block(free, live, q) && BASE < q
    requires p < q < End(size, p)
    requires p in size' && size'[p] > 0 && q in size' && size'[q] > 0
    requires forall b :: b != p && b != q && b in size ==> b in size' && size'[b] == size[b]
    requires End(size', p) == q && End(size', q) == End(size, p) && forall b :: b != p && b != q ==>
               End(size', b) == End(size, b)
    requires owner' == map x | x in owner :: if owner[x] == p && q <= x then q else owner[x]
    ensures Partition(size', free, live[q := size'[q]], owner')
  {
    hide End, Block;
    var live' := live[q := size'[q]];
    BlockAdded(free, live, q, size'[q]);
    IsBlock(free, live, p);
    forall c, x | Block(free, live', c) && c <= x < End(size', c) ensures x in owner' && owner'[x] == c {
      assert Block(free, live, if c == q then p else c);
    }
  }

  lemma {:induction false} CutCoalesced(size: map<int, int>, size': map<int, int>, free: seq<int>, p: int, q: int)
    requires Coalesced(size, free) && q !in free && End(size', p) == q < End(size, p)
    requires forall b :: b != p && b != q ==> End(size', b) == End(size, b)
    ensures Coalesced(size', free)
  {
    hide End;
    forall i, j | 0 <= i < j < |free| ensures End(size', free[i]) < free[j] {
      assert free[i] in free && End(size, free[i]) < free[j];
    }
  }

  /** New memory above the heap as one live block. */
  lemma {:induction false} Grow(size: map<int, int>, free: seq<int>, live: map<int, int>, owner: map<int, int>, hp: int,
                                nu: int)
    returns (owner': map<int, int>)
    requires Partition(size, free, live, owner) && 0 < nu && BASE < hp && forall x :: x in owner ==> x < hp
    ensures hp !in live && hp !in free && Partition(size[hp := nu], free, live[hp := nu], owner')
    ensures owner'.Keys == owner.Keys + Span(hp, hp + UNIT * nu) && forall x :: x in owner' ==> x < hp + UNIT * nu
  {
    hide Partition;
    owner' := owner + Filled(hp, hp + UNIT * nu, hp);
    BelowTop(size, free, live, owner, hp);
    assert !Block(free, live, hp);
    Extended(size, size[hp := nu], free, live, owner, owner', hp, hp + UNIT * nu);
  }

  lemma {:induction false} BelowTop(size: map<int, int>, free: seq<int>, live: map<int, int>, owner: map<int, int>,
                                    top: int)
    requires Partition(size, free, live, owner) && forall x :: x in owner ==> x < top
    ensures forall b :: Block(free, live, b) ==> End(size, b) <= top && b < top
  {
    forall b | Block(free, live, b) ensures End(size, b) <= top && b < top {
      assert End(size, b) - 1 in owner;
    }
  }

  lemma {:induction false} Extended(size: map<int, int>, size': map<int, int>, free: seq<int>, live: map<int, int>,
                                    owner: map<int, int>, owner': map<int, int>, hp: int, end: int)
    requires Partition(size, free, live, owner) && forall b :: Block(free, live, b) ==> End(size, b) <= hp && b < hp
    requires BASE < hp && hp in size' && size'[hp] > 0 && !Block(free, live, hp)
    requires forall b :: b != hp && b in size ==> b in size' && size'[b] == size[b]
    requires End(size', hp) == end && forall b :: b != hp ==> End(size', b) == End(size, b)
    requires forall x :: x in owner' <==> x in owner || hp <= x < end
    requires forall x :: x in owner ==> x < hp && owner'[x] == owner[x]
    requires forall x :: hp <= x < end ==> x in owner' && owner'[x] == hp
    ensures Partition(size', free, live[hp := size'[hp]], owner')
  {
    hide End, Block, Cut;
    BlockAdded(free, live, hp, size'[hp]);
    ExtendedCut(size, size', free, live, live[hp := size'[hp]], owner, owner', hp, end);
  }

  lemma {:induction false} ExtendedCut(size: map<int, int>, size': map<int, int>, free: seq<int>, live: map<int, int>,
                                       live': map<int, int>, owner: map<int, int>, owner': map<int, int>, hp: int,
                                       end: int)
    requires Cut(size, free, live, owner) && forall b :: Block(free, live, b) ==> End(size, b) <= hp && b < hp
    requires forall b :: Block(free, live', b) <==> Block(free, live, b) || b == hp
    requires End(size', hp) == end && forall b :: b != hp ==> End(size', b) == End(size, b)
    requires forall x :: x in owner' <==> x in owner || hp <= x < end
    requires forall x :: x in owner ==> x < hp && owner'[x] == owner[x]
    requires forall x :: hp <= x < end ==> x in owner' && owner'[x] == hp
    ensures Cut(size', free, live', owner')
  {
    hide End, Block;
    forall x | x in owner' ensures Block(free, live', owner'[x]) && owner'[x] <= x < End(size', owner'[x]) {
      if x in owner {
        assert Block(free, live, owner[x]) && owner[x] != hp;
      }
    }
    forall c, x | Block(free, live', c) && c <= x < End(size', c) ensures x in owner' && owner'[x] == c {
      assert c != hp ==> Block(free, live, c);
    }
  }

  lemma {:induction false} BlockAdded(free: seq<int>, live: map<int, int>, q: int, n: int)
    ensures forall b :: Block(free, live[q := n], b) <==> Block(free, live, b) || b == q
    ensures !Block(free, live, q) ==> q !in free && q !in live
  {
  }

  lemma {:induction false} IsBlock(free: seq<int>, live: map<int, int>, b: int)
    requires b in free || b in live
    ensures Block(free, live, b)
  {
  }

  ghost function Filled(lo: int, hi: int, b: int): map<int, int> { map x | x in Span(lo, hi) :: b }

  ghost predicate InSpan(x: int, lo: int, hi: int) { lo <= x < hi }

  ghost function Span(lo: int, hi: int): set<int> { set x | lo <= x < hi && InSpan(x, lo, hi) }
}
