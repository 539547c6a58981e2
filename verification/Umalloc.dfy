/** user/umalloc.c: the allocator of Kernighan and Ritchie's section 8.7, over headers changed in place.
    Only the headers of blocks are constrained, so a program may write what it likes inside a live block. */
module Umalloc {
  import opened Common
  import opened FreeRing

  /** A process cannot outgrow the RAM: PHYSTOP - KERNBASE */
  const RAM := 0x800_0000

  /** Conversion to sbrk's int parameter. */
  function ToInt(n: int): int {
    if n % UINT < UINT / 2 then n % UINT else n % UINT - UINT
  }

  /** The argument of morecore's sbrk is the size meant exactly when it does not truncate; for the largest
      request it is 16 bytes. */
  lemma {:induction false} SbrkArgument(nu: nat)
    ensures ToInt(nu * UNIT) == nu * UNIT <==> nu < 0x800_0000
    ensures ToInt(Units(0xFFFF_FFFF) * UNIT) == 16
  {
    if nu * UNIT >= UINT / 2 {
      assert ToInt(nu * UNIT) < UINT / 2;
    }
  }

  /** malloc's number of units for nbytes, header included. */
  function Units(nbytes: int): int { (nbytes + UNIT - 1) / UNIT + 1 }

  lemma {:induction false} UnitsHold(nbytes: nat)
    ensures Units(nbytes) >= 1 && UNIT * (Units(nbytes) - 1) >= nbytes && UNIT * (Units(nbytes) - 2) < nbytes
  {
  }

  ghost predicate HeapOk(ptr: map<int, int>, size: map<int, int>, free: seq<int>, live: map<int, int>,
                         owner: map<int, int>) {
    && Links(ptr, free) && Ascending(free) && Partition(size, free, live, owner) && Coalesced(size, free)
    && BASE in size && size[BASE] == 0 && BASE !in live
    && forall x :: x in owner ==> x < RAM
  }

  class Heap {
    /** the ptr and size fields of the headers in memory */
    var ptr: map<int, int>
    var size: map<int, int>
    var freep: int
    /** the free blocks by address, and where freep stands among them */
    ghost var free: seq<int>
    ghost var f: int
    /** the blocks handed out, with their sizes in units */
    ghost var live: map<int, int>
    /** every byte got from sbrk, and the block it is in */
    ghost var owner: map<int, int>

    ghost predicate Valid()
      reads this
    {
      if freep == 0 then free == [] && live == map[] && owner == map[] else Ready()
    }

    ghost predicate Ready()
      reads this
    {
      HeapOk(ptr, size, free, live, owner) && -1 <= f < |free| && freep == At(free, f)
    }

    constructor ()
      ensures Valid() && owner == map[] && live == map[]
    {
      ptr, size, freep := map[], map[], 0;
      free, f, live, owner := [], -1, map[], map[];
    }

    /** free's search for the place of bp. */
    method Search(bp: int) returns (p: int, ghost t: int)
      requires Ready() && bp in live
      ensures Between(free, bp, t) && p == At(free, t) && p in ptr && ptr[p] == At(free, t + 1)
    {
      hide HeapOk, Links, Partition, Coalesced, Ascending, Between;
      HeapParts(ptr, size, free, live, owner);
      Freeing(size, free, live, owner, bp);
      t := Place(free, bp);
      p := freep;
      ghost var i := f;
      Stops(ptr, free, bp, t, i);
      BetweenBounds(free, bp, t);
      while !(bp > p && bp < ptr[p])
        invariant -1 <= i < |free| && p == At(free, i) && p in ptr && ptr[p] == At(free, i + 1)
        decreases if i <= t then t - i else t - i + |free| + 1
      {
        Stops(ptr, free, bp, t, i);
        if p >= ptr[p] && (bp > p || bp < ptr[p]) {
          break;
        }
        p := ptr[p];
        i := if i + 1 == |free| then -1 else i + 1;
        Stops(ptr, free, bp, t, i);
      }
      Stops(ptr, free, bp, t, i);
    }

    /** free's first if: bp takes over its successor q = ptr[p], or leads to it. */
    method JoinNext(bp: int, p: int, ghost t: int)
      requires Ready() && bp in live && Between(free, bp, t) && p == At(free, t) && p in ptr
      requires ptr[p] == At(free, t + 1)
      modifies this
      ensures Entered(ptr[p := bp], size, free, live, owner, bp, t) && p == At(free, t) && bp in size
      ensures BASE in size && size[BASE] == 0 && owner.Keys == old(owner).Keys && live == old(live) - {bp}
      ensures freep == old(freep) && bp in ptr && old(bp in size) && bp + UNIT * old(size)[bp] <= End(size, bp)
    {
      hide HeapOk, Links, Partition, Coalesced, Ascending, Between, Entered, Block;
      HeapParts(ptr, size, free, live, owner);
      BlockSize(size, free, live, owner, bp);
      BetweenBounds(free, bp, t);
      Freeing(size, free, live, owner, bp);
      if bp + UNIT * size[bp] == ptr[p] {
        BlockSize(size, free, live, owner, free[t + 1]);
        ghost var owner1 := EnterMerged(ptr, size, free, live, owner, bp, t);
        size := size[bp := (size[bp] + size[ptr[p]]) % UINT];
        ptr := ptr[bp := ptr[ptr[p]]];
        free, owner := free[..t + 1] + [bp] + free[t + 2..], owner1;
      } else {
        EnterAlone(ptr, size, free, live, owner, bp, t);
        ptr := ptr[bp := ptr[p]];
        free := free[..t + 1] + [bp] + free[t + 1..];
      }
      live := live - {bp};
    }

    /** free's second if: the block before bp takes it over, or leads to it. */
    method JoinPrev(bp: int, p: int, ghost t: int)
      requires Entered(ptr[p := bp], size, free, live, owner, bp, t) && p == At(free, t) && bp in size && bp in ptr
      requires BASE in size && size[BASE] == 0 && BASE !in live && -1 <= t && forall x :: x in owner ==> x < RAM
      modifies this
      ensures HeapOk(ptr, size, free, live, owner) && -1 <= t < |free| && p == At(free, t)
      ensures owner.Keys == old(owner).Keys && live == old(live) && Holds(size, free, bp, old(End(size, bp)))
    {
      hide HeapOk, Links, Partition, Coalesced, Ascending, Entered, Block;
      EnteredParts(ptr[p := bp], size, free, live, owner, bp, t);
      if t >= 0 { BlockSize(size, free, live, owner, free[t]); }
      BlockSize(size, free, live, owner, bp);
      if p + UNIT * size[p] == bp {
        ghost var owner1 := MergeBack(ptr[p := bp], size, free, live, owner, bp, t);
        size := size[p := (size[p] + size[bp]) % UINT];
        assert ptr[p := bp][p := ptr[bp]] == ptr[p := ptr[bp]];
        ptr := ptr[p := ptr[bp]];
        free, owner := free[..t + 1] + free[t + 2..], owner1;
        assert free[t] == p;
        assert p in free && p <= bp && old(End(size, bp)) <= End(size, p);
      } else {
        assert bp in free && bp <= bp && old(End(size, bp)) <= End(size, bp);
        ptr := ptr[p := bp];
        StayApart(ptr, size, free, live, owner, bp, t);
      }
      HeapWhole(ptr, size, free, live, owner);
    }

    /** free: the block is live no more, its bytes stay in the heap, and the free list is again fully
        coalesced. Sizes do not wrap around. */
    method Free(ap: int)
      requires Ready() && ap - UNIT in live
      modifies this
      ensures Ready() && live == old(live) - {ap - UNIT} && owner.Keys == old(owner).Keys
      ensures Holds(size, free, ap - UNIT, ap - UNIT + UNIT * old(live)[ap - UNIT])
    {
      hide HeapOk, Links, Partition, Coalesced, Ascending, Between, Entered, Block, End;
      HeapParts(ptr, size, free, live, owner);
      var bp := ap - UNIT;
      LiveSize(size, free, live, owner, bp);
      var p;
      ghost var t;
      p, t := Search(bp);
      BetweenBounds(free, bp, t);
      JoinNext(bp, p, t);
      JoinPrev(bp, p, t);
      freep, f := p, t;
    }

    /** morecore; more is what sbrk returns. The new memory joins the free list. */
    method Morecore(nunits: int, more: int) returns (p: int)
      requires Ready() && 0 < nunits < 0x800_0000 && SbrkOk(owner, more, ToInt(Max(nunits, 4096) * UNIT))
      modifies this
      ensures Ready() && live == old(live) && p == if more == -1 then 0 else freep
      ensures more == -1 ==> free == old(free) && f == old(f) && size == old(size) && owner == old(owner)
      ensures more != -1 ==> owner.Keys == old(owner).Keys + Span(more, more + UNIT * Max(nunits, 4096)) && p != 0
      ensures more != -1 ==> Fits(size, free, nunits)
    {
      hide HeapOk, Links, Partition, Coalesced, Ascending, Holds, Fits, Span, At;
      var nu := nunits;
      if nu < 4096 {
        nu := 4096;
      }
      SbrkArgument(nu);
      if more == -1 {
        return 0;
      }
      HeapParts(ptr, size, free, live, owner);
      ghost var owner1 := Grow(size, free, live, owner, more, nu);
      StillCoalesced(size, free, more, nu);
      size := size[more := nu];
      live, owner := live[more := nu], owner1;
      HeapWhole(ptr, size, free, live, owner);
      Free(more + UNIT);
      assert live == old(live);
      HeldFits(size, free, more, nu, nunits);
      HeapParts(ptr, size, free, live, owner);
      FreepNonzero(free, f);
      return freep;
    }

    /** malloc's cut: the block at position k, or its tail, is handed out. */
    method Take(prevp: int, first: int, nunits: int, ghost k: int) returns (p: int)
      requires Ready() && 0 <= k < |free| && first == free[k] && prevp == At(free, k - 1) && 0 < nunits
      requires first in size && size[first] >= nunits
      modifies this
      ensures Ready() && p !in old(live) && live == old(live)[p := nunits] && owner.Keys == old(owner).Keys && p > BASE
      ensures first in old(size) && p == first + UNIT * (old(size)[first] - nunits) && freep == prevp
    {
      hide HeapOk, Links, Partition, Coalesced, Block, Ascending;
      HeapParts(ptr, size, free, live, owner);
      p := first;
      if size[p] == nunits {
        TakeWhole(ptr, size, free, live, owner, k);
        ptr := ptr[prevp := ptr[p]];
        free, live := free[..k] + free[k + 1..], live[p := nunits];
      } else {
        ghost var owner1 := TakeTail(size, free, live, owner, p, nunits);
        size := size[p := size[p] - nunits];
        p := p + UNIT * size[p];
        size := size[p := nunits];
        live, owner := live[p := nunits], owner1;
      }
      HeapWhole(ptr, size, free, live, owner);
      freep, f := prevp, k - 1;
    }

    /** The turns of malloc's loop between two returns to freep: the first block after freep that is large
        enough, with its predecessor, or the news that there is none. */
    method Scan(nunits: int) returns (prevp: int, p: int, ghost k: int)
      requires Ready() && 0 < nunits
      ensures Fits(size, free, nunits) ==>
        && 0 <= k < |free| && p == free[k] && prevp == At(free, k - 1) && p in size && size[p] >= nunits
        && TooSmall(size, free, f, k - 1, k <= f, nunits)
      ensures p in size && (!Fits(size, free, nunits) ==> p == freep && size[p] < nunits)
    {
      hide HeapOk, Links, Partition, Coalesced;
      HeapParts(ptr, size, free, live, owner);
      Next(ptr, size, free, live, owner, f);
      prevp := freep;
      p := ptr[prevp];
      ghost var i, wrapped := f, false;
      while true
        invariant -1 <= i < |free| && prevp == At(free, i) && p == At(free, i + 1) && p in size && p in ptr
        invariant if wrapped then i < f else f <= i
        invariant TooSmall(size, free, f, i, wrapped, nunits)
        decreases if wrapped then f - i else f - i + |free| + 1
      {
        ghost var n := if i + 1 == |free| then -1 else i + 1;
        Next(ptr, size, free, live, owner, n);
        if size[p] >= nunits {
          k := i + 1;
          assert k < |free| && free[k] in size;
          return;
        }
        assert TooSmall(size, free, f, n, wrapped || n == -1, nunits) || n == f;
        if p == freep {
          SamePosition(free, n, f);
          NoneFits(size, free, f, i, wrapped, nunits);
          k := -1;
          return;
        }
        prevp, p := p, ptr[p];
        i, wrapped := n, wrapped || n == -1;
      }
    }

    /** malloc; more is what sbrk returns if it is called. A block handed out is fresh, holds nbytes after
        its header, and (by Partition) overlaps no other; sbrk is called at most once, and only if no free
        block is large enough; only its failure makes malloc fail, and then nothing has changed. The
        request is small enough for morecore's sbrk argument not to truncate. */
    method Malloc(nbytes: int, more: int) returns (ap: int, ghost grew: bool)
      requires Valid() && 0 <= nbytes && Units(nbytes) < 0x800_0000
      requires SbrkOk(owner, more, ToInt(Max(Units(nbytes), 4096) * UNIT))
      modifies this
      ensures Ready()
      ensures ap == 0 ==> live == old(live) && owner == old(owner) && free == old(free) && !grew
      ensures ap == 0 <==> more == -1 && !Fits(old(size), old(free), Units(nbytes))
      ensures ap != 0 ==> ap - UNIT !in old(live) && live == old(live)[ap - UNIT := Units(nbytes)]
      ensures grew ==> more != -1 && !Fits(old(size), old(free), Units(nbytes))
      ensures owner.Keys == old(owner).Keys + if grew then Span(more, more + UNIT * Max(Units(nbytes), 4096)) else {}
    {
      hide HeapOk, Fits, Span, At;
      var nunits := Units(nbytes);
      UnitsHold(nbytes);
      if freep == 0 {
        ptr, freep := ptr[BASE := BASE], BASE;
        size := size[BASE := 0];
        f := -1;
        FirstUse(ptr, size);
        NothingFits(old(size), size, nunits);
      }
      grew := false;
      while true
        invariant Ready() && live == old(live) && (grew ==> Fits(size, free, nunits))
        invariant !grew ==> free == old(free) && owner == old(owner)
        invariant Fits(size, free, nunits) == (grew || Fits(old(size), old(free), nunits))
        invariant grew ==> more != -1 && !Fits(old(size), old(free), nunits)
        invariant owner.Keys == old(owner).Keys + if grew then Span(more, more + UNIT * Max(nunits, 4096)) else {}
        decreases !grew
      {
        var prevp, p;
        ghost var k;
        prevp, p, k := Scan(nunits);
        if size[p] >= nunits {
          p := Take(prevp, p, nunits, k);
          return p + UNIT, grew;
        }
        p := Morecore(nunits, more);
        if p == 0 {
          return 0, grew;
        }
        grew := true;
      }
    }
  }

  /** Every free block is too small, where seen says so. */
  ghost predicate TooSmall(size: map<int, int>, free: seq<int>, f: int, i: int, wrapped: bool, n: int) {
    forall k :: 0 <= k < |free| && Seen(f, i, wrapped, k) ==> free[k] in size && size[free[k]] < n
  }

  /** malloc has looked at position k: it started after f and has come to i, past base if wrapped. */
  ghost predicate Seen(f: int, i: int, wrapped: bool, k: int) {
    if wrapped then k > f || k <= i else f < k <= i
  }

  lemma {:induction false} HeapParts(ptr: map<int, int>, size: map<int, int>, free: seq<int>, live: map<int, int>,
                                     owner: map<int, int>)
    requires HeapOk(ptr, size, free, live, owner)
    ensures Links(ptr, free) && Ascending(free) && Partition(size, free, live, owner) && Coalesced(size, free)
    ensures BASE in size && size[BASE] == 0 && BASE !in live && forall x :: x in owner ==> x < RAM
  {
  }

  lemma {:induction false} HeapWhole(ptr: map<int, int>, size: map<int, int>, free: seq<int>, live: map<int, int>,
                                     owner: map<int, int>)
    requires Links(ptr, free) && Ascending(free) && Partition(size, free, live, owner) && Coalesced(size, free)
    requires BASE in size && size[BASE] == 0 && BASE !in live && forall x :: x in owner ==> x < RAM
    ensures HeapOk(ptr, size, free, live, owner)
  {
  }

  lemma {:induction false} EnteredParts(ptr: map<int, int>, size: map<int, int>, free: seq<int>, live: map<int, int>,
                                        owner: map<int, int>, bp: int, t: int)
    requires Entered(ptr, size, free, live, owner, bp, t) && -1 <= t
    ensures t + 1 < |free| && free[t + 1] == bp && Links(ptr, free) && Ascending(free)
    ensures Partition(size, free, live, owner)
    ensures bp in free && (t >= 0 ==> free[t] in free && free[t] != bp)
  {
  }

  /** Blocks are nonempty, and small enough that sums of sizes fit. */
  lemma {:induction false} BlockSize(size: map<int, int>, free: seq<int>, live: map<int, int>, owner: map<int, int>,
                                     b: int)
    requires Partition(size, free, live, owner) && (b in free || b in live) && forall x :: x in owner ==> x < RAM
    ensures b in size && 0 < size[b] < 0x80_0000 && BASE < b && End(size, b) == b + UNIT * size[b]
  {
    assert Block(free, live, b);
    assert End(size, b) - 1 in owner;
  }

  lemma {:induction false} Freeing(size: map<int, int>, free: seq<int>, live: map<int, int>, owner: map<int, int>,
                                   bp: int)
    requires Partition(size, free, live, owner) && bp in live
    ensures bp !in free && BASE < bp && bp in size && size[bp] > 0
  {
    assert Block(free, live, bp);
  }

  lemma {:induction false} BetweenBounds(free: seq<int>, bp: int, t: int)
    requires Between(free, bp, t)
    ensures -1 <= t < |free|
  {
  }

  lemma {:induction false} LiveSize(size: map<int, int>, free: seq<int>, live: map<int, int>, owner: map<int, int>,
                                    b: int)
    requires Partition(size, free, live, owner) && b in live
    ensures b in size && size[b] == live[b]
  {
  }

  /** sbrk fails, or gives n bytes above all it gave before. */
  ghost predicate SbrkOk(owner: map<int, int>, more: int, n: int) {
    more == -1 || (BASE < more && more + n <= RAM && forall x :: x in owner ==> x < more)
  }

  ghost predicate Fits(size: map<int, int>, free: seq<int>, n: int) {
    exists k :: 0 <= k < |free| && free[k] in size && size[free[k]] >= n
  }

  lemma {:induction false} StillCoalesced(size: map<int, int>, free: seq<int>, hp: int, nu: int)
    requires Coalesced(size, free) && hp !in free
    ensures Coalesced(size[hp := nu], free)
  {
    var size' := size[hp := nu];
    forall i, j | 0 <= i < j < |free| ensures End(size', free[i]) < free[j] {
      assert free[i] in free && End(size, free[i]) < free[j];
    }
  }

  lemma {:induction false} HeldFits(size: map<int, int>, free: seq<int>, hp: int, nu: int, n: int)
    requires Holds(size, free, hp, hp + UNIT * nu) && nu >= n && nu > 0
    ensures Fits(size, free, n)
  {
    var b :| b in free && b <= hp && hp + UNIT * nu <= End(size, b);
    var k :| 0 <= k < |free| && free[k] == b;
    assert free[k] in size && size[free[k]] >= nu;
  }

  lemma {:induction false} FreepNonzero(free: seq<int>, f: int)
    requires Ascending(free)
    ensures At(free, f) != 0
  {
  }

  lemma {:induction false} Next(ptr: map<int, int>, size: map<int, int>, free: seq<int>, live: map<int, int>,
                                owner: map<int, int>, i: int)
    requires Links(ptr, free) && Partition(size, free, live, owner) && BASE in size && -1 <= i < |free|
    ensures At(free, i) in ptr && ptr[At(free, i)] == At(free, i + 1)
    ensures At(free, i) in size && At(free, i + 1) in size && At(free, i + 1) in ptr
  {
    assert Linked(ptr, free, i) && Linked(ptr, free, if i + 1 < |free| then i + 1 else -1);
    if i >= 0 { assert Block(free, live, free[i]); }
    if i + 1 < |free| { assert Block(free, live, free[i + 1]); }
  }

  lemma {:induction false} SamePosition(free: seq<int>, i: int, j: int)
    requires Ascending(free) && -1 <= i < |free| && -1 <= j < |free| && At(free, i) == At(free, j)
    ensures i == j
  {
  }

  /** Back at freep with nothing found, malloc has seen every block. */
  lemma {:induction false} NoneFits(size: map<int, int>, free: seq<int>, f: int, i: int, wrapped: bool, n: int)
    requires TooSmall(size, free, f, i, wrapped, n) && -1 <= i < |free| && -1 <= f < |free|
    requires (if wrapped then i < f else f <= i)
    requires f == if i + 1 == |free| then -1 else i + 1
    requires f >= 0 ==> free[f] in size && size[free[f]] < n
    ensures !Fits(size, free, n)
  {
    forall k | 0 <= k < |free| && free[k] in size ensures size[free[k]] < n {
      assert k == f || Seen(f, i, wrapped, k);
    }
  }

  lemma {:induction false} FirstUse(ptr: map<int, int>, size: map<int, int>)
    requires BASE in ptr && ptr[BASE] == BASE && BASE in size && size[BASE] == 0
    ensures HeapOk(ptr, size, [], map[], map[]) && At([], -1) == BASE
  {
    assert Linked(ptr, [], -1);
  }

  lemma {:induction false} NothingFits(size: map<int, int>, size': map<int, int>, n: int)
    ensures !Fits(size, [], n) && !Fits(size', [], n)
  {
  }
}
