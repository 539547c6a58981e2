/** kernel/vm.c and kernel/kalloc.c: page tables changed in place, over a list of free pages that is
    threaded through the pages themselves. */
module Vm {
  import opened Common
  import opened PageTable
  import opened PageTree

  const PTE_R := 2
  const PTE_U := 16

  /** perm | PTE_V */
  function WithV(perm: int): int { if V(perm) then perm else perm + 1 }

  function RoundUp(sz: int): int { (sz + PGSIZE - 1) / PGSIZE * PGSIZE }

  /** A page filled by memset. */
  function Fill(v: int): (page: seq<int>)
    ensures |page| == NPTE && forall i :: 0 <= i < NPTE ==> page[i] == v
  {
    seq(NPTE, _ => v)
  }

  const JUNK_FREE := 0x0101_0101_0101_0101
  const JUNK_NEW := 0x0505_0505_0505_0505

  /** free lists exactly the free pages, once each, and freelist heads the chain of their first words. */
  ghost predicate FreeList(mem: Mem, use: map<int, Use>, head: int, free: seq<int>)
    requires Pages(mem, use)
  {
    && (forall i :: 0 <= i < |free| ==> free[i] in mem && use[free[i]] == Free)
    && (forall p :: p in mem && use[p] == Free ==> p in free)
    && (forall i, j :: 0 <= i < j < |free| ==> free[i] != free[j])
    && head == Next(free, 0)
    && (forall i :: 0 <= i < |free| ==> mem[free[i]][0] == Next(free, i + 1))
  }

  ghost function Next(free: seq<int>, i: int): int
    requires 0 <= i <= |free|
  {
    if i < |free| then free[i] else 0
  }

  /** Only free pages have changed use, and they became tables of root. */
  ghost predicate OnlyTables(use: map<int, Use>, use': map<int, Use>, root: int) {
    && use.Keys == use'.Keys
    && forall p :: p in use && use'[p] != use[p] ==> use[p] == Free && use'[p].Table? && use'[p].root == root
  }

  /** Pages that are neither free nor tables keep their contents. */
  ghost predicate DataKept(mem: Mem, use: map<int, Use>, mem': Mem) {
    forall p :: p in use && (use[p].Leaf? || use[p].Other?) && p in mem ==> p in mem' && mem'[p] == mem[p]
  }

  lemma {:induction false} DataTrans(a: Mem, ua: map<int, Use>, b: Mem, ub: map<int, Use>, c: Mem)
    requires DataKept(a, ua, b) && DataKept(b, ub, c)
    requires forall p :: p in ua && (ua[p].Leaf? || ua[p].Other?) ==> p in ub && (ub[p].Leaf? || ub[p].Other?)
    ensures DataKept(a, ua, c)
  {
  }

  /** The same for pages whose use has not changed either. */
  ghost predicate DataStays(mem: Mem, use: map<int, Use>, mem': Mem, use': map<int, Use>) {
    forall p :: p in use && (use[p].Leaf? || use[p].Other?) && p in use' && use'[p] == use[p] && p in mem ==>
      p in mem' && mem'[p] == mem[p]
  }

  ghost predicate MemOk(mem: Mem, use: map<int, Use>, head: int, free: seq<int>) {
    Trees(mem, use) && Leaves(mem, use) && FreeList(mem, use, head, free)
  }

  class Vm {
    /** every page of RAM the allocator manages, as 512 words */
    var mem: Mem
    var freelist: int
    ghost var free: seq<int>
    /** what each page is for: one thing each, so free, table and leaf pages partition the RAM */
    ghost var use: map<int, Use>

    ghost predicate Valid()
      reads this
    {
      MemOk(mem, use, freelist, free)
    }

    /** Memory before kinit: nothing is free, nothing is in use. */
    constructor (ram: Mem)
      requires forall p :: p in ram ==> 0 < p && p % PGSIZE == 0 && |ram[p]| == NPTE
      ensures Valid() && mem == ram && free == [] && use.Keys == ram.Keys && forall p :: p in use ==> use[p] == Other
    {
      mem, freelist := ram, 0;
      free := [];
      use := map p | p in ram :: Other;
    }

    /** freerange: exactly the whole pages of [start, end) become free. */
    method Freerange(start: int, end: int)
      requires Valid() && 0 <= start
      requires forall p :: InRange(p, start, end) ==> p in mem && p in use && use[p] == Other
      modifies this
      ensures Valid() && use.Keys == old(use).Keys
      ensures forall p :: p in use ==> use[p] == if InRange(p, start, end) then Free else old(use)[p]
    {
      hide MemOk, SameMap;
      ghost var u0 := use;
      var p := RoundUp(start);
      while p + PGSIZE <= end
        invariant Valid() && p % PGSIZE == 0 && start <= p && use.Keys == u0.Keys && mem.Keys == old(mem).Keys
        invariant forall q :: q in use ==> use[q] == if InRange(q, start, end) && q < p then Free else u0[q]
        invariant forall q :: InRange(q, start, end) ==> q < p || p <= q
      {
        Kfree(p);
        p := p + PGSIZE;
      }
    }

    method Kalloc() returns (pa: int)
      requires Valid()
      modifies this
      ensures Valid() && (pa == 0 <==> old(free) == []) && SameMap(old(mem), mem, old(use))
      ensures pa == 0 ==> mem == old(mem) && use == old(use) && free == old(free)
      ensures pa != 0 ==> pa in old(use) && old(use)[pa] == Free && use == old(use)[pa := Other]
      ensures pa != 0 ==> free == old(free)[1..]
      ensures pa != 0 ==> pa in old(mem) && mem == old(mem)[pa := Fill(JUNK_NEW)]
    {
      hide MemOk, SameMap;
      ListHead(mem, use, freelist, free);
      SameMapRefl(mem, use);
      pa := freelist;
      if pa != 0 {
        PopFree(mem, use, pa, free, Fill(JUNK_NEW));
        freelist := mem[pa][0];
        mem := mem[pa := Fill(JUNK_NEW)];
        use, free := use[pa := Other], free[1..];
      }
    }

    /** kfree; its panic, a page outside the managed RAM, is part of the precondition. */
    method Kfree(pa: int)
      requires Valid() && pa in mem && pa in use && use[pa] == Other
      modifies this
      ensures Valid() && use == old(use)[pa := Free] && free == [pa] + old(free)
      ensures mem == old(mem)[pa := Fill(JUNK_FREE)[0 := old(freelist)]]
      ensures SameMap(old(mem), mem, old(use))
    {
      hide MemOk, SameMap;
      PushFree(mem, use, freelist, free, pa, Fill(JUNK_FREE)[0 := freelist]);
      mem := mem[pa := Fill(JUNK_FREE)];
      mem := mem[pa := mem[pa][0 := freelist]];
      assert mem == old(mem)[pa := Fill(JUNK_FREE)[0 := freelist]];
      freelist := pa;
      use, free := use[pa := Free], [pa] + free;
    }

    /** walk's allocating branch: a fresh zeroed table under the empty entry. */
    method AllocTable(root: int, vpn: int, level: int, pt: int) returns (q: int)
      requires Valid() && IsRoot(mem, use, root) && 0 <= vpn < VPNS && 1 <= level <= 2
      requires At(mem, use, root, vpn, level, pt) && mem[pt][PX(level, vpn)] == 0
      modifies this
      ensures Valid() && IsRoot(mem, use, root) && SameMap(old(mem), mem, old(use)) && OnlyTables(old(use), use, root)
      ensures DataKept(old(mem), old(use), mem)
      ensures q == 0 ==> free == []
      ensures q != 0 ==> At(mem, use, root, vpn, level - 1, q)
    {
      hide MemOk, SameMap, IsRoot, Entry, I0, I1, I2, Pa, MakePte, Trees;
      ghost var m0, u0 := mem, use;
      MemOkPages(mem, use, freelist, free);
      q := Kalloc();
      if q == 0 {
        return;
      }
      ghost var m1, u1 := mem, use;
      MemOkPages(mem, use, freelist, free);
      RootKept(m0, u0, m1, u1);
      ghost var m2 := mem[q := Fill(0)][pt := mem[pt][PX(level, vpn) := MakePte(q, 1)]];
      ghost var u2 := use[q := Table(root, NodeAt(vpn, level - 1))];
      WalkHang(mem, use, freelist, free, root, vpn, level, pt, q, m2, u2);
      SameMapTrans(m0, u0, m1, u1, m2);
      mem := mem[q := Fill(0)];
      mem := mem[pt := mem[pt][PX(level, vpn) := MakePte(q, 1)]];
      use := u2;
    }

    /** walk: the table page that holds the entry for vpn, 0 if there is none and none could be made.
        No translation changes, in this or any other page table. */
    method Walk(root: int, vpn: int, alloc: bool) returns (pt: int)
      requires Valid() && IsRoot(mem, use, root) && 0 <= vpn < VPNS
      modifies this
      ensures Valid() && IsRoot(mem, use, root) && SameMap(old(mem), mem, old(use)) && OnlyTables(old(use), use, root)
      ensures DataKept(old(mem), old(use), mem)
      ensures !alloc ==> mem == old(mem) && use == old(use) && free == old(free)
      ensures pt != 0 ==> At(mem, use, root, vpn, 0, pt) && Entry(mem, root, vpn) == mem[pt][I0(vpn)]
      ensures pt == 0 ==> if alloc then free == [] else Entry(mem, root, vpn) == 0
    {
      hide MemOk, SameMap, IsRoot, Entry, I0, I1, I2, Pa, MakePte, Trees, Leaves;
      ghost var mem0, use0 := mem, use;
      MemOkPages(mem, use, freelist, free);
      SameMapRefl(mem, use);
      OnlyTablesRefl(use, root);
      AtRoot(mem, use, freelist, free, root, vpn);
      pt := root;
      var level := 2;
      while level > 0
        invariant 0 <= level <= 2 && Valid() && IsRoot(mem, use, root) && At(mem, use, root, vpn, level, pt)
        invariant SameMap(mem0, mem, use0) && OnlyTables(use0, use, root) && Pages(mem0, use0)
        invariant DataKept(mem0, use0, mem)
        invariant !alloc ==> mem == old(mem) && use == old(use) && free == old(free)
      {
        WalkLevel(mem, use, freelist, free, root, vpn, level, pt);
        if V(mem[pt][PX(level, vpn)]) {
          pt := Pa(mem[pt][PX(level, vpn)]);
        } else {
          if !alloc {
            return 0;
          }
          ghost var mem1, use1 := mem, use;
          MemOkPages(mem, use, freelist, free);
          pt := AllocTable(root, vpn, level, pt);
          MemOkPages(mem, use, freelist, free);
          OnlyTablesTrans(use0, use1, use, root);
          DataTrans(mem0, use0, mem1, use1, mem);
          RootKept(mem0, use0, mem1, use1);
          SameMapTrans(mem0, use0, mem1, use1, mem);
          if pt == 0 {
            return;
          }
        }
        level := level - 1;
      }
      MemOkPages(mem, use, freelist, free);
      WalkEnd(mem, use, freelist, free, root, vpn, pt);
    }

    /** One turn of mappages' loop: find or make the entry for vpn, and set it. */
    method MapPage(root: int, vpn: int, pa: int, perm: int) returns (ok: bool)
      requires Valid() && IsRoot(mem, use, root) && 0 <= vpn < VPNS && !V(Entry(mem, root, vpn))
      requires 0 <= pa && 0 <= perm < 1024 && IsLeaf(perm)
      modifies this
      ensures Valid() && IsRoot(mem, use, root) && OnlyTables(old(use), use, root) && DataKept(old(mem), old(use), mem)
      ensures ok ==> forall r, x :: IsRoot(old(mem), old(use), r) && 0 <= x < VPNS ==>
                Entry(mem, r, x) == if r == root && x == vpn then MakePte(pa, WithV(perm)) else Entry(old(mem), r, x)
      ensures !ok ==> SameMap(old(mem), mem, old(use)) && free == []
    {
      hide MemOk, IsRoot, Entry, I0, I1, I2, Pa, MakePte, Trees, Leaves, PX, NodeAt, V, IsLeaf, WithV;
      ghost var m0, u0 := mem, use;
      MemOkPages(mem, use, freelist, free);
      var pt := Walk(root, vpn, true);
      if pt == 0 {
        return false;
      }
      MemOkPages(mem, use, freelist, free);
      RootKept(m0, u0, mem, use);
      NoOwner(mem, use, root, vpn);
      LeafPte(pa, perm);
      AtBounds(mem, use, root, vpn, pt);
      ghost var m1 := mem;
      ghost var m2 := mem[pt := mem[pt][I0(vpn) := MakePte(pa, WithV(perm))]];
      EntrySet(mem, use, freelist, free, root, vpn, pt, MakePte(pa, WithV(perm)), m2);
      mem := mem[pt := mem[pt][I0(vpn) := MakePte(pa, WithV(perm))]];
      ok := true;
    }

    /** mappages. Its panics, an empty range, a page above MAXVA and a page already mapped, are the
        precondition. On failure the pages before `done` have been mapped, and no page was free. */
    method Mappages(root: int, va: int, size: int, pa: int, perm: int) returns (r: int, ghost done: int)
      requires Valid() && IsRoot(mem, use, root) && 0 < size && 0 <= va && (va + size - 1) / PGSIZE < VPNS
      requires Unmapped(mem, root, va / PGSIZE, (va + size - 1) / PGSIZE + 1)
      requires 0 <= pa && 0 <= perm < 1024 && IsLeaf(perm)
      modifies this
      ensures Valid() && IsRoot(mem, use, root) && OnlyTables(old(use), use, root) && DataKept(old(mem), old(use), mem)
      ensures MapsTo(old(mem), mem, old(use), root, va / PGSIZE, done, pa, WithV(perm))
      ensures r == 0 ==> done == (va + size - 1) / PGSIZE + 1
      ensures r != 0 ==> r == -1 && free == [] && va / PGSIZE <= done <= (va + size - 1) / PGSIZE
    {
      hide MemOk, IsRoot, Entry, MakePte, Trees, Leaves, V, IsLeaf, WithV, MapsTo;
      ghost var m0, u0, lo := mem, use, va / PGSIZE;
      MemOkPages(mem, use, freelist, free);
      OnlyTablesRefl(use, root);
      MapsNothing(mem, use, root, va / PGSIZE, pa, WithV(perm));
      var a, last, p := va / PGSIZE, (va + size - 1) / PGSIZE, pa;
      while true
        invariant lo <= a <= last && p == pa + (a - lo) * PGSIZE
        invariant Valid() && IsRoot(mem, use, root) && OnlyTables(u0, use, root) && mem.Keys == m0.Keys
        invariant DataKept(m0, u0, mem)
        invariant MapsTo(m0, mem, u0, root, lo, a, pa, WithV(perm))
        decreases last - a
      {
        StillUnmapped(m0, u0, mem, root, lo, a, last + 1, pa, WithV(perm));
        ghost var m1, u1 := mem, use;
        MemOkPages(mem, use, freelist, free);
        RootKept(m0, u0, m1, u1);
        var ok := MapPage(root, a, p, perm);
        MemOkPages(mem, use, freelist, free);
        OnlyTablesTrans(u0, u1, use, root);
        DataTrans(m0, u0, m1, u1, mem);
        if !ok {
          MapsSame(m0, u0, m1, u1, mem, root, lo, a, pa, WithV(perm));
          return -1, a;
        }
        MapsOneMore(m0, u0, m1, u1, mem, root, lo, a, pa, WithV(perm));
        if a == last {
          return 0, last + 1;
        }
        a, p := a + 1, p + PGSIZE;
      }
    }

    /** One turn of uvmunmap's loop. */
    method UnmapPage(root: int, vpn: int, doFree: bool)
      requires Valid() && IsRoot(mem, use, root) && 0 <= vpn < VPNS && V(Entry(mem, root, vpn))
      requires doFree ==> Owns(mem, use, root, vpn)
      modifies this
      ensures Valid() && IsRoot(mem, use, root) && mem.Keys == old(mem).Keys
      ensures use == ReleaseTo(old(use), root, vpn, vpn + 1, if doFree then Free else Other)
      ensures Cleared(old(mem), mem, old(use), root, vpn, vpn + 1) && DataStays(old(mem), old(use), mem, use)
    {
      hide MemOk, IsRoot, Entry, Trees, Leaves, V, IsLeaf, Pa, I0, PX, NodeAt, SameMap, Cleared, ReleaseTo, Owns;
      ZeroNotValid();
      var pt := Walk(root, vpn, false);
      AtBounds(mem, use, root, vpn, pt);
      ghost var m0, u0 := mem, use;
      ghost var u1 := ReleaseTo(use, root, vpn, vpn + 1, Other);
      MemOkPages(mem, use, freelist, free);
      ReleaseKeys(use, root, vpn, vpn + 1);
      DropOwner(mem, use, freelist, free, root, vpn);
      MemOkPages(mem, u1, freelist, free);
      RootKept(mem, use, mem, u1);
      use := u1;
      SameMapRefl(mem, u1);
      if doFree {
        FreeOwned(m0, u0, freelist, free, root, vpn);
        var pa := Pa(mem[pt][I0(vpn)]);
        Kfree(pa);
      }
      MemOkPages(mem, use, freelist, free);
      RootKept(m0, u0, mem, use);
      AtKept(m0, u0, mem, use, root, vpn, pt);
      NoneLeft(u0, use, root, vpn);
      ghost var m1 := mem;
      EntrySet(mem, use, freelist, free, root, vpn, pt, 0, mem[pt := mem[pt][I0(vpn) := 0]]);
      mem := mem[pt := mem[pt][I0(vpn) := 0]];
      OneCleared(m0, u0, m1, u1, use, mem, root, vpn);
    }

    /** uvmunmap from the page numbered lo on. A page that is not mapped is its panic; freeing is asked for
        only of pages the table owns. */
    method Uvmunmap(root: int, lo: int, npages: int, doFree: bool)
      requires Valid() && IsRoot(mem, use, root) && 0 <= lo && 0 <= npages && lo + npages <= VPNS
      requires forall x :: lo <= x < lo + npages ==> V(Entry(mem, root, x))
      requires doFree ==> forall x :: lo <= x < lo + npages ==> Owns(mem, use, root, x)
      modifies this
      ensures Valid() && IsRoot(mem, use, root) && mem.Keys == old(mem).Keys
      ensures use == ReleaseTo(old(use), root, lo, lo + npages, if doFree then Free else Other)
      ensures Cleared(old(mem), mem, old(use), root, lo, lo + npages) && DataStays(old(mem), old(use), mem, use)
    {
      hide MemOk, IsRoot, Entry, Trees, Leaves, V, Cleared, ReleaseTo, Owns;
      ghost var m0, u0 := mem, use;
      ghost var t := if doFree then Free else Other;
      MemOkPages(mem, use, freelist, free);
      ClearedNothing(mem, use, root, lo, t);
      var a := lo;
      while a < lo + npages
        invariant lo <= a <= lo + npages && Valid() && IsRoot(mem, use, root) && mem.Keys == m0.Keys
        invariant use == ReleaseTo(u0, root, lo, a, t) && Cleared(m0, mem, u0, root, lo, a)
        invariant DataStays(m0, u0, mem, use)
      {
        ghost var m1, u1 := mem, use;
        MemOkPages(mem, use, freelist, free);
        StillMapped(m0, u0, m1, u1, root, lo, a, t);
        UnmapPage(root, a, doFree);
        ClearedOneMore(m0, u0, m1, u1, mem, use, root, lo, a, t);
        StaysMore(m0, u0, m1, u1, mem, use, root, lo, a, t);
        a := a + 1;
      }
    }

    /** What uvmalloc and uvmcopy do for each page: a fresh page with the given contents, mapped at vpn and
        owned by root; if either allocation fails, at most some fresh tables remain. */
    method AddPage(root: int, vpn: int, page: seq<int>, perm: int) returns (ok: bool)
      requires Valid() && IsRoot(mem, use, root) && 0 <= vpn < VPNS && !V(Entry(mem, root, vpn))
      requires |page| == NPTE && 0 <= perm < 1024 && IsLeaf(perm)
      modifies this
      ensures Valid() && IsRoot(mem, use, root) && DataKept(old(mem), old(use), mem)
      ensures ok ==> Added(old(mem), old(use), mem, use, root, vpn, page, WithV(perm))
      ensures !ok ==> SameMap(old(mem), mem, old(use)) && OnlyTables(old(use), use, root)
    {
      hide MemOk, IsRoot, Entry, MakePte, Trees, Leaves, V, IsLeaf, WithV, MapsTo, SameMap, Added, Pa;
      ghost var m0, u0 := mem, use;
      MemOkPages(mem, use, freelist, free);
      OnlyTablesRefl(use, root);
      var pa := Kalloc();
      if pa == 0 {
        return false;
      }
      ghost var m1, u1 := mem, use;
      MemOkPages(mem, use, freelist, free);
      FillPage(mem, use, freelist, free, pa, page);
      mem := mem[pa := page];
      ghost var m2 := mem;
      MemOkPages(mem, use, freelist, free);
      RootKept(m0, u0, m1, u1);
      RootKept(m1, u1, m2, u1);
      SameMapTrans(m0, u0, m1, u1, m2);
      UnmappedKept(m0, u0, m2, root, vpn);
      ghost var done;
      var r;
      r, done := Mappages(root, vpn * PGSIZE, PGSIZE, pa, perm);
      MemOkPages(mem, use, freelist, free);
      ghost var m3, u3 := mem, use;
      if r != 0 {
        MapsNone(m2, m3, u1, root, vpn, pa, WithV(perm));
        SameMapTrans(m0, u0, m2, u1, m3);
        RootKept(m2, u1, m3, u3);
        Kfree(pa);
        MemOkPages(mem, use, freelist, free);
        PutBack(m0, u0, m2, u1, m3, u3, mem, use, pa, root);
        return false;
      }
      AddOwner(m0, u0, m2, u1, m3, u3, freelist, free, root, vpn, pa, page, perm);
      use := use[pa := Leaf(root, vpn)];
      ok := true;
    }

    /** uvmdealloc: unmap and free the whole pages above newsz. */
    method Uvmdealloc(root: int, oldsz: int, newsz: int) returns (r: int)
      requires Valid() && IsRoot(mem, use, root) && 0 <= newsz && 0 <= oldsz && RoundUp(oldsz) <= VPNS * PGSIZE
      requires forall x :: Up(newsz) <= x < Up(oldsz) ==> V(Entry(mem, root, x)) && Owns(mem, use, root, x)
      modifies this
      ensures Valid() && IsRoot(mem, use, root) && mem.Keys == old(mem).Keys
      ensures r == if newsz >= oldsz then oldsz else newsz
      ensures var hi := if Up(newsz) < Up(oldsz) then Up(oldsz) else Up(newsz);
              && use == ReleaseTo(old(use), root, Up(newsz), hi, Free)
              && Cleared(old(mem), mem, old(use), root, Up(newsz), hi)
    {
      hide MemOk, IsRoot, Entry, Trees, Leaves, V, Cleared, ReleaseTo, Owns;
      ClearedNothing(mem, use, root, Up(newsz), Free);
      if newsz >= oldsz {
        return oldsz;
      }
      if RoundUp(newsz) < RoundUp(oldsz) {
        var npages := (RoundUp(oldsz) - RoundUp(newsz)) / PGSIZE;
        Uvmunmap(root, RoundUp(newsz) / PGSIZE, npages, true);
      }
      return newsz;
    }

    /** uvmalloc. On success the pages from oldsz up to newsz are fresh, zeroed, owned by root and mapped
        with the right flags. On failure every address translates as before and the only pages used up
        are tables hanging from root. */
    method Uvmalloc(root: int, oldsz: int, newsz: int, xperm: int) returns (r: int)
      requires Valid() && IsRoot(mem, use, root) && 0 <= oldsz && 0 <= newsz <= VPNS * PGSIZE
      requires 0 <= xperm < 16 && xperm % 4 == 0
      requires Unmapped(mem, root, Up(oldsz), Up(newsz))
      modifies this
      ensures Valid() && IsRoot(mem, use, root)
      ensures newsz < oldsz ==> r == oldsz && mem == old(mem) && use == old(use)
      ensures newsz >= oldsz ==> r == newsz || r == 0
      ensures newsz >= oldsz && r == newsz ==>
        && GrownBy(old(mem), old(use), mem, use, root, Up(oldsz), Max(Up(oldsz), Up(newsz)))
        && Zeroed(mem, root, Up(oldsz), Up(newsz), 1 + PTE_R + PTE_U + xperm)
      ensures newsz >= oldsz && r != newsz ==> SameMap(old(mem), mem, old(use)) && OnlyTables(old(use), use, root)
    {
      hide MemOk, IsRoot, Entry, Trees, Leaves, V, Pa, Owns, SameMap, GrownBy, Zeroed, Added, IsLeaf;
      hide ReleaseTo, Cleared, DataKept;
      if newsz < oldsz {
        return oldsz;
      }
      ghost var m0, u0, lo := mem, use, Up(oldsz);
      MemOkPages(mem, use, freelist, free);
      GrownNothing(mem, use, root, lo, 1 + PTE_R + PTE_U + xperm);
      PermLeaf(xperm);
      var a := RoundUp(oldsz);
      while a < newsz
        invariant a % PGSIZE == 0 && lo <= a / PGSIZE <= Max(lo, Up(newsz)) && Valid() && IsRoot(mem, use, root)
        invariant GrownBy(m0, u0, mem, use, root, lo, a / PGSIZE)
        invariant Zeroed(mem, root, lo, a / PGSIZE, 1 + PTE_R + PTE_U + xperm)
      {
        ghost var m1, u1 := mem, use;
        MemOkPages(mem, use, freelist, free);
        GrownUnmapped(m0, u0, m1, u1, root, lo, a / PGSIZE, Up(newsz));
        var ok := AddPage(root, a / PGSIZE, Fill(0), PTE_R + PTE_U + xperm);
        MemOkPages(mem, use, freelist, free);
        if !ok {
          GrownSame(m0, u0, m1, u1, mem, use, root, lo, a / PGSIZE);
          ghost var m2, u2 := mem, use;
          GrownOwned(m0, u0, mem, use, root, lo, a / PGSIZE);
          var d := Uvmdealloc(root, a, RoundUp(oldsz));
          MemOkPages(mem, use, freelist, free);
          RolledBack(m0, u0, m2, u2, mem, use, root, lo, a / PGSIZE);
          return 0;
        }
        GrownMore(m0, u0, m1, u1, mem, use, root, lo, a / PGSIZE, Fill(0), 1 + PTE_R + PTE_U + xperm);
        GrownOwned(m0, u0, m1, u1, root, lo, a / PGSIZE);
        ZeroedMore(m1, u1, mem, use, root, lo, a / PGSIZE, 1 + PTE_R + PTE_U + xperm);
        a := a + PGSIZE;
      }
      return newsz;
    }

    /** uvmcopy. On success the child has, at each page of the parent, a page of its own with the same
        contents and flags. On failure the child translates as before, nothing else changed, and the only
        pages used up are tables hanging from the child's root. */
    method Uvmcopy(parent: int, child: int, sz: int) returns (r: int)
      requires Valid() && IsRoot(mem, use, parent) && IsRoot(mem, use, child) && parent != child
      requires 0 <= sz <= VPNS * PGSIZE && Unmapped(mem, child, 0, Up(sz))
      requires forall x :: 0 <= x < Up(sz) ==> V(Entry(mem, parent, x)) && Owns(mem, use, parent, x)
      modifies this
      ensures Valid() && IsRoot(mem, use, parent) && IsRoot(mem, use, child) && DataKept(old(mem), old(use), mem)
      ensures r == 0 || r == -1
      ensures r == 0 ==> GrownBy(old(mem), old(use), mem, use, child, 0, Up(sz))
      ensures r == 0 ==> Copied(old(mem), mem, parent, child, Up(sz))
      ensures r == -1 ==> SameMap(old(mem), mem, old(use)) && OnlyTables(old(use), use, child)
    {
      hide MemOk, IsRoot, Entry, Trees, Leaves, V, Pa, Owns, SameMap, GrownBy, Copied, Added, IsLeaf;
      hide ReleaseTo, Cleared, DataKept, Flags, WithV, I0, PX, NodeAt;
      ghost var m0, u0 := mem, use;
      MemOkPages(mem, use, freelist, free);
      GrownNothing(mem, use, child, 0, 0);
      CopiedNothing(mem, use, parent, child);
      var i := 0;
      while i < sz
        invariant i % PGSIZE == 0 && 0 <= i / PGSIZE <= Up(sz) && Valid() && IsRoot(mem, use, parent)
        invariant IsRoot(mem, use, child)
        invariant GrownBy(m0, u0, mem, use, child, 0, i / PGSIZE) && Copied(m0, mem, parent, child, i / PGSIZE)
        invariant DataKept(m0, u0, mem) && m0.Keys == mem.Keys
      {
        ghost var x := i / PGSIZE;
        MemOkPages(mem, use, freelist, free);
        GrownUnmapped(m0, u0, mem, use, child, 0, x, Up(sz));
        ParentPage(m0, u0, mem, use, parent, child, x);
        ZeroNotValid();
        var pt := Walk(parent, i / PGSIZE, false);
        AtBounds(mem, use, parent, x, pt);
        var pte := mem[pt][I0(i / PGSIZE)];
        ghost var m1, u1 := mem, use;
        var ok := AddPage(child, i / PGSIZE, mem[Pa(pte)], Flags(pte));
        MemOkPages(mem, use, freelist, free);
        if !ok {
          OnlyTablesData(m0, u0, m1, u1, mem, use, child, 0, x);
          GrownSame(m0, u0, m1, u1, mem, use, child, 0, x);
          ghost var m2, u2 := mem, use;
          GrownOwned(m0, u0, mem, use, child, 0, x);
          Uvmunmap(child, 0, i / PGSIZE, true);
          MemOkPages(mem, use, freelist, free);
          RolledBack(m0, u0, m2, u2, mem, use, child, 0, x);
          StaysKept(m0, u0, m2, u2, mem, use, child, 0, x);
          RootKept(m0, u0, mem, use);
          return -1;
        }
        GrownMore(m0, u0, m1, u1, mem, use, child, 0, x, m1[Pa(pte)], Flags(pte));
        GrownOwned(m0, u0, m1, u1, child, 0, x);
        CopiedMore(m0, u0, m1, u1, mem, use, parent, child, x);
        OnlyTablesData(m0, u0, m1, u1, mem, use, child, 0, x);
        GrownRoots(m0, u0, mem, use, child, 0, x + 1);
        i := i + PGSIZE;
      }
      return 0;
    }

    /** freewalk: free every page of a tree of tables without leaf entries, children before their parent.
        Nothing outside the tree is freed, and no page is freed twice. */
    method Freewalk(p: int, ghost level: nat)
      requires Valid() && Pages(mem, use) && Tree(mem, use, p, level)
      modifies this
      ensures Valid() && Freed(old(mem), old(use), mem, use, Nodes(old(mem), p, level))
      ensures SameMap(old(mem), mem, old(use))
      decreases level
    {
      hide MemOk, SameMap, IsRoot, Entry, Trees, Leaves, V, IsLeaf, Pa, Tree, Nodes, Under, Walked, Freed;
      ghost var m0, u0 := mem, use;
      TreeTop(mem, use, p, level);
      SameMapRefl(mem, use);
      WalkedNothing(mem, use, p, level);
      var i := 0;
      while i < NPTE
        invariant 0 <= i <= NPTE && Valid() && Walked(m0, u0, mem, use, p, level, i) && SameMap(m0, mem, u0)
        invariant p in mem && p in use && use[p] == Other && mem.Keys == m0.Keys
        invariant forall q :: q in u0 && u0[q].Table? ==> q in use && use[q] == u0[q]
      {
        ghost var m1, u1 := mem, use;
        MemOkPages(mem, use, freelist, free);
        RootKept(m0, u0, m1, u1);
        NextTree(m0, u0, m1, u1, p, level, i);
        var pte := mem[p][i];
        if V(pte) && !IsLeaf(pte) {
          Freewalk(Pa(pte), level - 1);
          ghost var m2, u2 := mem, use;
          FreedFrame(m1, u1, m2, u2, Pa(pte), level - 1, p);
          WalkedMore(m0, u0, m1, u1, m2, u2, p, level, i);
          MemOkPages(mem, use, freelist, free);
          FillPage(mem, use, freelist, free, p, mem[p][i := 0]);
          RootKept(m1, u1, m2, u2);
          SameMapTrans(m0, u0, m1, u1, m2);
          SameMapTrans(m0, u0, m2, u2, m2[p := m2[p][i := 0]]);
          mem := mem[p := mem[p][i := 0]];
        } else if V(pte) {
          assert false; // the leaf panic
        } else {
          WalkedPast(m0, u0, m1, u1, p, level, i);
        }
        i := i + 1;
      }
      MemOkPages(mem, use, freelist, free);
      RootKept(m0, u0, mem, use);
      ghost var m3, u3 := mem, use;
      WalkedAll(m0, u0, m3, u3, p, level, Fill(JUNK_FREE)[0 := freelist]);
      Kfree(p);
      SameMapTrans(m0, u0, m3, u3, mem);
    }

    /** uvmcreate: an empty page table of its own. */
    method Uvmcreate() returns (root: int)
      requires Valid()
      modifies this
      ensures Valid() && (root == 0 <==> old(free) == []) && SameMap(old(mem), mem, old(use))
      ensures root == 0 ==> mem == old(mem) && use == old(use)
      ensures root != 0 ==> IsRoot(mem, use, root) && Unmapped(mem, root, 0, VPNS)
      ensures root != 0 ==> root in old(use) && old(use)[root] == Free && use == old(use)[root := Table(root, Top)]
    {
      hide MemOk, SameMap, Entry, V;
      MemOkPages(mem, use, freelist, free);
      root := Kalloc();
      if root == 0 {
        return;
      }
      ghost var m1, u1 := mem, use;
      MemOkPages(mem, use, freelist, free);
      FillPage(mem, use, freelist, free, root, Fill(0));
      NewRoot(mem[root := Fill(0)], use, freelist, free, root);
      RootKept(old(mem), old(use), m1, u1);
      SameMapTrans(old(mem), old(use), m1, u1, mem[root := Fill(0)]);
      mem := mem[root := Fill(0)];
      use := use[root := Table(root, Top)];
    }

    /** uvmfree: every page of the page table, translated pages and tables alike, is freed, once each, and
        nothing else is. The precondition is what keeps its two panics away: the pages below sz are mapped
        to pages root owns, and no other page is mapped. */
    method Uvmfree(root: int, sz: int)
      requires Valid() && IsRoot(mem, use, root) && 0 <= sz && Up(sz) <= VPNS && Unmapped(mem, root, Up(sz), VPNS)
      requires forall x :: 0 <= x < Up(sz) ==> V(Entry(mem, root, x)) && Owns(mem, use, root, x)
      modifies this
      ensures Valid() && use == Dissolved(old(use), root) && mem.Keys == old(mem).Keys
      ensures forall r, x :: IsRoot(old(mem), old(use), r) && r != root && 0 <= x < VPNS ==>
                 Entry(mem, r, x) == Entry(old(mem), r, x)
      ensures DataStays(old(mem), old(use), mem, use)
    {
      hide MemOk, SameMap, IsRoot, Entry, Trees, Leaves, V, Pa, Tree, Nodes, Owns, ReleaseTo, Cleared, DataStays;
      ghost var m0, u0 := mem, use;
      MemOkPages(mem, use, freelist, free);
      ClearedNothing(mem, use, root, 0, Free);
      StaysRefl(mem, use);
      if sz > 0 {
        Uvmunmap(root, 0, RoundUp(sz) / PGSIZE, true);
      }
      ghost var m1, u1 := mem, use;
      MemOkPages(mem, use, freelist, free);
      NothingMapped(m0, u0, m1, root, Up(sz));
      GiveUp(mem, use, freelist, free, root);
      RootIsTop(mem, use, root);
      TableTree(mem, use, root, root);
      use := Abandon(use, root);
      Freewalk(root, 2);
      FreedAll(m0, u0, m1, u1, mem, use, root, Up(sz));
    }
  }

  /** In mem' page table root maps the pages lo..hi to consecutive physical pages from pa on; every other
      page, and every other page table, translates as in mem. */
  ghost predicate MapsTo(mem: Mem, mem': Mem, use: map<int, Use>, root: int, lo: int, hi: int, pa: int, flags: int) {
    forall r, x :: IsRoot(mem, use, r) && 0 <= x < VPNS ==>
      Entry(mem', r, x) == if r == root && lo <= x < hi then MakePte(pa + (x - lo) * PGSIZE, flags) else Entry(mem, r,
            x)
  }

  ghost predicate Unmapped(mem: Mem, root: int, lo: int, hi: int) {
    forall x :: lo <= x < hi ==> !V(Entry(mem, root, x))
  }

  lemma {:induction false} MapsNothing(mem: Mem, use: map<int, Use>, root: int, lo: int, pa: int, flags: int)
    ensures MapsTo(mem, mem, use, root, lo, lo, pa, flags)
  {
  }

  /** A page that is not mapped has no owner waiting for it. */
  lemma {:induction false} NoOwner(mem: Mem, use: map<int, Use>, root: int, vpn: int)
    requires Pages(mem, use) && Leaves(mem, use) && !V(Entry(mem, root, vpn))
    ensures forall p :: p in use ==> use[p] != Leaf(root, vpn)
  {
  }

  lemma {:induction false} EntrySet(mem: Mem, use: map<int, Use>, head: int, free: seq<int>, root: int, vpn: int,
                                    pt: int, pte: int, mem': Mem)
    requires MemOk(mem, use, head, free) && IsRoot(mem, use, root) && 0 <= vpn < VPNS && At(mem, use, root, vpn, 0, pt)
    requires pte == 0 || (V(pte) && IsLeaf(pte))
    requires forall p :: p in use ==> use[p] != Leaf(root, vpn)
    requires mem' == mem[pt := mem[pt][I0(vpn) := pte]]
    ensures MemOk(mem', use, head, free) && IsRoot(mem', use, root)
    ensures forall r, x :: IsRoot(mem, use, r) && 0 <= x < VPNS ==>
              Entry(mem', r, x) == if r == root && x == vpn then pte else Entry(mem, r, x)
  {
    WriteEntry(mem, use, root, vpn, pt, pte, mem');
    hide Trees, Entry, I0, I1, I2, IsLeaf, Pa, V;
  }

  /** One page of mappages. */
  lemma {:induction false} MapsOneMore(m0: Mem, u0: map<int, Use>, m1: Mem, u1: map<int, Use>, m2: Mem, root: int,
                                       lo: int, a: int, pa: int, flags: int)
    requires MapsTo(m0, m1, u0, root, lo, a, pa, flags) && 0 <= lo <= a < VPNS
    requires forall r :: IsRoot(m0, u0, r) ==> IsRoot(m1, u1, r)
    requires forall r, x :: IsRoot(m1, u1, r) && 0 <= x < VPNS ==>
               Entry(m2, r, x) == if r == root && x == a then MakePte(pa + (a - lo) * PGSIZE, flags) else Entry(m1, r,
                     x)
    ensures MapsTo(m0, m2, u0, root, lo, a + 1, pa, flags)
  {
    hide IsRoot, Entry, MakePte;
    forall r, x | IsRoot(m0, u0, r) && 0 <= x < VPNS
      ensures Entry(m2, r, x) == if r == root && lo <= x < a + 1 then MakePte(pa + (x - lo) * PGSIZE,
            flags) else Entry(m0, r, x)
    {
    }
  }

  /** PX(level, va) */
  function PX(level: int, vpn: int): int {
    if level == 2 then I2(vpn) else if level == 1 then I1(vpn) else I0(vpn)
  }

  /** The table that walk stands at when it looks at a level. */
  function NodeAt(vpn: int, level: int): Node {
    if level == 2 then Top else if level == 1 then Mid(I2(vpn)) else Low(I2(vpn), I1(vpn))
  }

  ghost predicate At(mem: Mem, use: map<int, Use>, root: int, vpn: int, level: int, pt: int) {
    pt in mem && pt in use && use[pt] == Table(root, NodeAt(vpn, level)) && |mem[pt]| == NPTE && 0 <= PX(level,
          vpn) < NPTE
  }

  lemma {:induction false} AtRoot(mem: Mem, use: map<int, Use>, head: int, free: seq<int>, root: int, vpn: int)
    requires MemOk(mem, use, head, free) && IsRoot(mem, use, root) && 0 <= vpn < VPNS
    ensures At(mem, use, root, vpn, 2, root)
  {
    IndexBounds(vpn);
  }

  /** One level of walk: the entry is empty, or leads to the table for the next level. */
  lemma {:induction false} WalkLevel(mem: Mem, use: map<int, Use>, head: int, free: seq<int>, root: int, vpn: int,
                                     level: int, pt: int)
    requires MemOk(mem, use, head, free) && IsRoot(mem, use, root) && 0 <= vpn < VPNS && 1 <= level <= 2
    requires At(mem, use, root, vpn, level, pt)
    ensures V(mem[pt][PX(level, vpn)]) ==> At(mem, use, root, vpn, level - 1, Pa(mem[pt][PX(level, vpn)]))
    ensures !V(mem[pt][PX(level, vpn)]) ==> mem[pt][PX(level, vpn)] == 0 && Entry(mem, root, vpn) == 0
  {
    hide I2, I1, I0, Pa, Flags, IsLeaf;
    EntryPath(mem, use, root, vpn);
    assert TableOk(mem, use, pt);
  }

  /** walk's end: the entry it points at is the one that translates vpn. */
  lemma {:induction false} WalkEnd(mem: Mem, use: map<int, Use>, head: int, free: seq<int>, root: int, vpn: int,
                                   pt: int)
    requires MemOk(mem, use, head, free) && IsRoot(mem, use, root) && 0 <= vpn < VPNS && At(mem, use, root, vpn, 0, pt)
    ensures Entry(mem, root, vpn) == mem[pt][I0(vpn)]
  {
    hide I2, I1, I0, Pa, Flags, IsLeaf;
    EntryPath(mem, use, root, vpn);
    assert TableOk(mem, use, pt);
  }

  /** walk with alloc: a zeroed page becomes the missing table. */
  lemma {:induction false} WalkHang(mem: Mem, use: map<int, Use>, head: int, free: seq<int>, root: int, vpn: int,
                                    level: int, pt: int, q: int, mem': Mem, use': map<int, Use>)
    requires MemOk(mem, use, head, free) && IsRoot(mem, use, root) && 0 <= vpn < VPNS && 1 <= level <= 2
    requires At(mem, use, root, vpn, level, pt) && mem[pt][PX(level, vpn)] == 0
    requires q in mem && q in use && use[q] == Other
    requires mem' == mem[q := Fill(0)][pt := mem[pt][PX(level, vpn) := MakePte(q, 1)]]
    requires use' == use[q := Table(root, NodeAt(vpn, level - 1))]
    ensures MemOk(mem', use', head, free) && IsRoot(mem', use', root) && SameMap(mem, mem', use)
    ensures At(mem', use', root, vpn, level - 1, q)
  {
    IndexBounds(vpn);
    HangTable(mem, use, pt, PX(level, vpn), q, mem', use');
    hide Trees, Leaves, Entry, SameMap, MakePte;
  }

  lemma {:induction false} LeafPte(pa: int, perm: int)
    requires 0 <= pa && 0 <= perm < 1024 && IsLeaf(perm)
    ensures V(MakePte(pa, WithV(perm))) && IsLeaf(MakePte(pa, WithV(perm))) && 0 <= WithV(perm) < 1024
    ensures Flags(MakePte(pa, WithV(perm))) == WithV(perm) && (pa % PGSIZE == 0 ==> Pa(MakePte(pa, WithV(perm))) == pa)
  {
    var page := pa / PGSIZE * PGSIZE;
    assert MakePte(pa, WithV(perm)) == MakePte(page, WithV(perm));
    assert !V(perm) ==> (perm + 1) / 2 == perm / 2;
    PteRoundTrip(page, WithV(perm));
  }

  lemma {:induction false} AtBounds(mem: Mem, use: map<int, Use>, root: int, vpn: int, pt: int)
    requires At(mem, use, root, vpn, 0, pt)
    ensures pt in mem && |mem[pt]| == NPTE && 0 <= I0(vpn) < NPTE && use[pt].Table?
  {
  }

  lemma {:induction false} StillUnmapped(m0: Mem, u0: map<int, Use>, m1: Mem, root: int, lo: int, a: int, hi: int,
                                         pa: int, flags: int)
    requires MapsTo(m0, m1, u0, root, lo, a, pa, flags) && IsRoot(m0, u0, root) && 0 <= lo <= a < hi <= VPNS
    requires Unmapped(m0, root, lo, hi)
    ensures !V(Entry(m1, root, a))
  {
    hide Entry, IsRoot, V;
  }

  lemma {:induction false} MapsSame(m0: Mem, u0: map<int, Use>, m1: Mem, u1: map<int, Use>, m2: Mem, root: int, lo: int,
                                    a: int, pa: int, flags: int)
    requires MapsTo(m0, m1, u0, root, lo, a, pa, flags) && SameMap(m1, m2, u1)
    requires forall r :: IsRoot(m0, u0, r) ==> IsRoot(m1, u1, r)
    ensures MapsTo(m0, m2, u0, root, lo, a, pa, flags)
  {
    hide IsRoot, Entry, MakePte;
    forall r, x | IsRoot(m0, u0, r) && 0 <= x < VPNS
      ensures Entry(m2, r, x) == if r == root && lo <= x < a then MakePte(pa + (x - lo) * PGSIZE, flags) else Entry(m0,
            r, x)
    {
      assert Entry(m2, r, x) == Entry(m1, r, x);
    }
  }

  // ----- unmapping

  /** root's entry for vpn maps a page that root owns. */
  ghost predicate Owns(mem: Mem, use: map<int, Use>, root: int, vpn: int) {
    Pa(Entry(mem, root, vpn)) in use && use[Pa(Entry(mem, root, vpn))] == Leaf(root, vpn)
  }

  /** The pages root owned at lo..hi are put to use t. */
  ghost function ReleaseTo(use: map<int, Use>, root: int, lo: int, hi: int, t: Use): map<int, Use> {
    map p | p in use :: if use[p].Leaf? && use[p].root == root && lo <= use[p].vpn < hi then t else use[p]
  }

  /** In mem' page table root maps nothing at lo..hi; everything else translates as in mem. */
  ghost predicate Cleared(mem: Mem, mem': Mem, use: map<int, Use>, root: int, lo: int, hi: int) {
    forall r, x :: IsRoot(mem, use, r) && 0 <= x < VPNS ==>
      Entry(mem', r, x) == if r == root && lo <= x < hi then 0 else Entry(mem, r, x)
  }

  lemma {:induction false} ReleaseKeys(use: map<int, Use>, root: int, lo: int, hi: int)
    ensures forall t :: ReleaseTo(use, root, lo, hi, t).Keys == use.Keys
    ensures forall p, t :: p in use && use[p].Table? ==> ReleaseTo(use, root, lo, hi, t)[p] == use[p]
  {
  }

  lemma {:induction false} ZeroNotValid()
    ensures !V(0)
  {
  }

  lemma {:induction false} DropOwner(mem: Mem, use: map<int, Use>, head: int, free: seq<int>, root: int, vpn: int)
    requires MemOk(mem, use, head, free) && IsRoot(mem, use, root)
    ensures MemOk(mem, ReleaseTo(use, root, vpn, vpn + 1, Other), head, free)
    ensures IsRoot(mem, ReleaseTo(use, root, vpn, vpn + 1, Other), root)
  {
    hide Entry, IsLeaf, V, Pa, Flags;
    var use' := ReleaseTo(use, root, vpn, vpn + 1, Other);
    forall t | t in mem && use'[t].Table? ensures TableOk(mem, use', t) {
      assert TableOk(mem, use, t);
    }
  }

  /** The page root owns at vpn, once disowned, is the one the entry still names. */
  lemma {:induction false} FreeOwned(mem: Mem, use: map<int, Use>, head: int, free: seq<int>, root: int, vpn: int)
    requires MemOk(mem, use, head, free) && IsRoot(mem, use, root) && Owns(mem, use, root, vpn)
    ensures var pa := Pa(Entry(mem, root, vpn));
            && pa in mem && ReleaseTo(use, root, vpn, vpn + 1, Other)[pa] == Other
            && ReleaseTo(use, root, vpn, vpn + 1, Other)[pa := Free] == ReleaseTo(use, root, vpn, vpn + 1, Free)
  {
    hide Trees, Entry, V;
    var pa := Pa(Entry(mem, root, vpn));
    forall p | p in use && use[p] == Leaf(root, vpn) ensures p == pa {
    }
  }

  lemma {:induction false} AtKept(mem: Mem, use: map<int, Use>, mem': Mem, use': map<int, Use>, root: int, vpn: int,
                                  pt: int)
    requires At(mem, use, root, vpn, 0, pt) && Pages(mem', use')
    requires pt in use' && use'[pt] == use[pt]
    ensures At(mem', use', root, vpn, 0, pt)
  {
  }

  lemma {:induction false} NoneLeft(use: map<int, Use>, use': map<int, Use>, root: int, vpn: int)
    requires use' == ReleaseTo(use, root, vpn, vpn + 1, Free) || use' == ReleaseTo(use, root, vpn, vpn + 1, Other)
    ensures forall p :: p in use' ==> use'[p] != Leaf(root, vpn)
  {
  }

  lemma {:induction false} OneCleared(m0: Mem, u0: map<int, Use>, m1: Mem, u1: map<int, Use>, u2: map<int, Use>,
                                      m2: Mem, root: int, vpn: int)
    requires SameMap(m0, m1, u1)
    requires forall r, x :: IsRoot(m1, u2, r) && 0 <= x < VPNS ==>
               Entry(m2, r, x) == if r == root && x == vpn then 0 else Entry(m1, r, x)
    requires forall r :: IsRoot(m0, u0, r) ==> IsRoot(m0, u1, r) && IsRoot(m1, u2, r)
    ensures Cleared(m0, m2, u0, root, vpn, vpn + 1)
  {
    hide IsRoot, Entry;
    forall r, x | IsRoot(m0, u0, r) && 0 <= x < VPNS
      ensures Entry(m2, r, x) == if r == root && vpn <= x < vpn + 1 then 0 else Entry(m0, r, x)
    {
      assert IsRoot(m0, u1, r) && IsRoot(m1, u2, r);
    }
  }

  lemma {:induction false} ClearedNothing(mem: Mem, use: map<int, Use>, root: int, lo: int, t: Use)
    ensures Cleared(mem, mem, use, root, lo, lo) && ReleaseTo(use, root, lo, lo, t) == use
  {
  }

  /** The next page to unmap is as it was at the start. */
  lemma {:induction false} StillMapped(m0: Mem, u0: map<int, Use>, m1: Mem, u1: map<int, Use>, root: int, lo: int,
                                       a: int, t: Use)
    requires Cleared(m0, m1, u0, root, lo, a) && IsRoot(m0, u0, root) && 0 <= lo <= a < VPNS
    requires u1 == ReleaseTo(u0, root, lo, a, t)
    ensures Entry(m1, root, a) == Entry(m0, root, a)
    ensures Owns(m0, u0, root, a) ==> Owns(m1, u1, root, a)
  {
    hide Entry, IsRoot, Pa;
  }

  lemma {:induction false} StaysMore(m0: Mem, u0: map<int, Use>, m1: Mem, u1: map<int, Use>, m2: Mem, u2: map<int, Use>,
                                     root: int, lo: int, a: int, t: Use)
    requires u1 == ReleaseTo(u0, root, lo, a, t) && u2 == ReleaseTo(u1, root, a, a + 1, t) && !t.Leaf?
    requires DataStays(m0, u0, m1, u1) && DataStays(m1, u1, m2, u2)
    ensures DataStays(m0, u0, m2, u2)
  {
  }

  lemma {:induction false} ClearedOneMore(m0: Mem, u0: map<int, Use>, m1: Mem, u1: map<int, Use>, m2: Mem,
                                          u2: map<int, Use>, root: int, lo: int, a: int, t: Use)
    requires Pages(m0, u0) && Pages(m1, u1) && m0.Keys == m1.Keys && !t.Leaf? && 0 <= lo <= a
    requires Cleared(m0, m1, u0, root, lo, a) && u1 == ReleaseTo(u0, root, lo, a, t)
    requires Cleared(m1, m2, u1, root, a, a + 1) && u2 == ReleaseTo(u1, root, a, a + 1, t)
    ensures Cleared(m0, m2, u0, root, lo, a + 1) && u2 == ReleaseTo(u0, root, lo, a + 1, t)
  {
    RootKept(m0, u0, m1, u1);
    hide IsRoot, Entry;
    forall r, x | IsRoot(m0, u0, r) && 0 <= x < VPNS
      ensures Entry(m2, r, x) == if r == root && lo <= x < a + 1 then 0 else Entry(m0, r, x)
    {
      assert IsRoot(m1, u1, r);
    }
  }

  // ----- growing

  /** root gained a page of its own at vpn, with these contents and flags; nothing else translates
      differently, and otherwise only fresh tables were used up. */
  ghost predicate Added(m0: Mem, u0: map<int, Use>, m1: Mem, u1: map<int, Use>, root: int, vpn: int, page: seq<int>,
                        flags: int) {
    && (forall r, x :: IsRoot(m0, u0, r) && 0 <= x < VPNS && !(r == root && x == vpn) ==>
          Entry(m1, r, x) == Entry(m0, r, x))
    && V(Entry(m1, root, vpn)) && Owns(m1, u1, root, vpn) && Flags(Entry(m1, root, vpn)) == flags
    && Pa(Entry(m1, root, vpn)) in m1 && m1[Pa(Entry(m1, root, vpn))] == page
    && u0.Keys == u1.Keys
    && forall p :: p in u0 && u1[p] != u0[p] ==>
         u0[p] == Free && ((u1[p].Table? && u1[p].root == root) || u1[p] == Leaf(root, vpn))
  }

  lemma {:induction false} FillPage(mem: Mem, use: map<int, Use>, head: int, free: seq<int>, pa: int, page: seq<int>)
    requires MemOk(mem, use, head, free) && pa in mem && pa in use && use[pa] == Other && |page| == NPTE
    ensures MemOk(mem[pa := page], use, head, free) && SameMap(mem, mem[pa := page], use)
  {
    WritePage(mem, use, pa, page, Other);
    assert use[pa := Other] == use;
    hide Trees, Leaves, Entry, SameMap;
  }

  lemma {:induction false} UnmappedKept(m0: Mem, u0: map<int, Use>, m1: Mem, root: int, vpn: int)
    requires SameMap(m0, m1, u0) && IsRoot(m0, u0, root) && 0 <= vpn < VPNS && !V(Entry(m0, root, vpn))
    ensures Unmapped(m1, root, vpn, vpn + 1)
  {
    hide Entry, IsRoot, V;
  }

  lemma {:induction false} MapsNone(m0: Mem, m1: Mem, use: map<int, Use>, root: int, lo: int, pa: int, flags: int)
    requires MapsTo(m0, m1, use, root, lo, lo, pa, flags)
    ensures SameMap(m0, m1, use)
  {
    hide Entry, IsRoot, MakePte;
  }

  /** The page just mapped becomes root's. */
  lemma {:induction false} AddOwner(m0: Mem, u0: map<int, Use>, m2: Mem, u1: map<int, Use>, m3: Mem, u3: map<int, Use>,
                                    head: int, free: seq<int>, root: int, vpn: int, pa: int, page: seq<int>, perm: int)
    requires Pages(m0, u0) && IsRoot(m0, u0, root) && SameMap(m0, m2, u0) && pa in u0 && u0[pa] == Free
    requires u1 == u0[pa := Other]
    requires forall r :: IsRoot(m0, u0, r) ==> IsRoot(m2, u1, r)
    requires MapsTo(m2, m3, u1, root, vpn, vpn + 1, pa, WithV(perm)) && 0 <= vpn < VPNS && 0 <= perm < 1024
    requires IsLeaf(perm)
    requires MemOk(m3, u3, head, free) && IsRoot(m3, u3, root) && OnlyTables(u1, u3, root)
    requires pa in m3 && m3[pa] == page
    ensures MemOk(m3, u3[pa := Leaf(root, vpn)], head, free) && IsRoot(m3, u3[pa := Leaf(root, vpn)], root)
    ensures Added(m0, u0, m3, u3[pa := Leaf(root, vpn)], root, vpn, page, WithV(perm))
  {
    LeafPte(pa, perm);
    assert IsRoot(m2, u1, root);
    assert Entry(m3, root, vpn) == MakePte(pa + (vpn - vpn) * PGSIZE, WithV(perm));
    NewOwned(m3, u3, head, free, root, vpn, pa);
    hide Entry, MakePte, WithV, V, IsLeaf, Flags, Trees, Leaves, MemOk;
    forall r, x | IsRoot(m0, u0, r) && 0 <= x < VPNS && !(r == root && x == vpn) ensures Entry(m3, r, x) == Entry(m0, r,
          x) {
      assert IsRoot(m2, u1, r);
    }
  }

  /** A page taken and, after some fresh tables were hung, given back. */
  lemma {:induction false} PutBack(m0: Mem, u0: map<int, Use>, m2: Mem, u1: map<int, Use>, m3: Mem, u3: map<int, Use>,
                                   m4: Mem, u4: map<int, Use>, pa: int, root: int)
    requires Pages(m0, u0) && Pages(m3, u3) && Pages(m4, u4) && pa in u0 && u0[pa] == Free && u1 == u0[pa := Other]
    requires OnlyTables(u1, u3, root) && pa in m3 && u4 == u3[pa := Free] && m4 == m3[pa := m4[pa]]
    requires IsRoot(m3, u3, root)
    requires SameMap(m0, m3, u0) && SameMap(m3, m4, u3)
    requires pa in m2 && m2 == m0[pa := m2[pa]] && DataKept(m2, u1, m3)
    ensures SameMap(m0, m4, u0) && OnlyTables(u0, u4, root) && IsRoot(m4, u4, root) && DataKept(m0, u0, m4)
  {
    RootKept(m0, u0, m3, u3);
    hide SameMap;
    SameMapTrans(m0, u0, m3, u3, m4);
  }

  /** A page that was in no tree may become anything: the tables stay as they were. */
  lemma {:induction false} StillTable(mem: Mem, use: map<int, Use>, p: int, u: Use, t: int)
    requires Pages(mem, use) && Pages(mem, use[p := u]) && p in use && use[p] == Other
    requires t in mem && t != p && use[t].Table? && TableOk(mem, use, t)
    ensures TableOk(mem, use[p := u], t)
  {
    hide IsLeaf, V, Pa;
  }

  lemma {:induction false} NewOwned(mem: Mem, use: map<int, Use>, head: int, free: seq<int>, root: int, vpn: int,
                                    pa: int)
    requires MemOk(mem, use, head, free) && IsRoot(mem, use, root) && 0 <= vpn < VPNS && pa in use && use[pa] == Other
    requires V(Entry(mem, root, vpn)) && Pa(Entry(mem, root, vpn)) == pa
    ensures MemOk(mem, use[pa := Leaf(root, vpn)], head, free) && IsRoot(mem, use[pa := Leaf(root, vpn)], root)
  {
    hide Entry, IsLeaf, Flags, Pa, V, TableOk;
    var use' := use[pa := Leaf(root, vpn)];
    forall t | t in mem && use'[t].Table? ensures TableOk(mem, use', t) {
      StillTable(mem, use, pa, Leaf(root, vpn), t);
    }
  }

  /** The number of whole pages that cover sz bytes. */
  function Up(sz: int): int { RoundUp(sz) / PGSIZE }

  /** root gained pages of its own at lo..hi; nothing else translates differently, and otherwise only fresh
      tables of root were used up. */
  ghost predicate GrownBy(m0: Mem, u0: map<int, Use>, m1: Mem, u1: map<int, Use>, root: int, lo: int, hi: int) {
    && (forall r, x :: IsRoot(m0, u0, r) && 0 <= x < VPNS && !(r == root && lo <= x < hi) ==>
          Entry(m1, r, x) == Entry(m0, r, x))
    && (forall x :: lo <= x < hi ==> V(Entry(m1, root, x)) && Owns(m1, u1, root, x))
    && u0.Keys == u1.Keys && m0.Keys == m1.Keys
    && forall p :: p in u0 && u1[p] != u0[p] ==>
         u0[p] == Free && u1[p] != Other && u1[p].root == root && (u1[p].Leaf? ==> lo <= u1[p].vpn < hi)
  }

  /** The pages at lo..hi are zero and carry these flags. */
  ghost predicate Zeroed(mem: Mem, root: int, lo: int, hi: int, flags: int) {
    forall x :: lo <= x < hi ==>
      Flags(Entry(mem, root, x)) == flags && Pa(Entry(mem, root, x)) in mem && mem[Pa(Entry(mem, root, x))] == Fill(0)
  }

  lemma {:induction false} PermLeaf(xperm: int)
    requires 0 <= xperm < 16 && xperm % 4 == 0
    ensures IsLeaf(PTE_R + PTE_U + xperm) && WithV(PTE_R + PTE_U + xperm) == 1 + PTE_R + PTE_U + xperm
  {
  }

  lemma {:induction false} GrownNothing(mem: Mem, use: map<int, Use>, root: int, lo: int, flags: int)
    ensures GrownBy(mem, use, mem, use, root, lo, lo) && Zeroed(mem, root, lo, lo, flags)
  {
  }

  lemma {:induction false} GrownUnmapped(m0: Mem, u0: map<int, Use>, m1: Mem, u1: map<int, Use>, root: int, lo: int,
                                         a: int, hi: int)
    requires GrownBy(m0, u0, m1, u1, root, lo, a) && IsRoot(m0, u0, root) && 0 <= lo <= a < hi <= VPNS
    requires Unmapped(m0, root, lo, hi)
    ensures !V(Entry(m1, root, a))
  {
    hide Entry, IsRoot, V, Owns;
  }

  lemma {:induction false} GrownOwned(m0: Mem, u0: map<int, Use>, m1: Mem, u1: map<int, Use>, root: int, lo: int,
                                      a: int)
    requires GrownBy(m0, u0, m1, u1, root, lo, a)
    ensures forall x :: lo <= x < a ==> V(Entry(m1, root, x)) && Owns(m1, u1, root, x)
  {
  }

  /** Growing keeps every table. */
  lemma {:induction false} GrownRoots(m0: Mem, u0: map<int, Use>, m1: Mem, u1: map<int, Use>, root: int, lo: int,
                                      hi: int)
    requires GrownBy(m0, u0, m1, u1, root, lo, hi) && Pages(m0, u0) && Pages(m1, u1)
    ensures m0.Keys == m1.Keys
    ensures forall r :: IsRoot(m0, u0, r) ==> IsRoot(m1, u1, r)
  {
    hide Entry, Owns;
    RootKept(m0, u0, m1, u1);
  }

  /** A failed addition leaves what was grown so far. */
  lemma {:induction false} GrownSame(m0: Mem, u0: map<int, Use>, m1: Mem, u1: map<int, Use>, m2: Mem, u2: map<int, Use>,
                                     root: int, lo: int, a: int)
    requires GrownBy(m0, u0, m1, u1, root, lo, a) && Pages(m0, u0) && Pages(m1, u1) && Pages(m2, u2)
    requires 0 <= lo <= a <= VPNS
    requires IsRoot(m1, u1, root) && SameMap(m1, m2, u1) && OnlyTables(u1, u2, root)
    ensures GrownBy(m0, u0, m2, u2, root, lo, a)
  {
    GrownRoots(m0, u0, m1, u1, root, lo, a);
    hide Entry, IsRoot, V, Pa;
    forall r, x | IsRoot(m0, u0, r) && 0 <= x < VPNS && !(r == root && lo <= x < a) ensures Entry(m2, r, x) == Entry(m0,
          r, x) {
      assert Entry(m2, r, x) == Entry(m1, r, x);
    }
    forall x | lo <= x < a ensures V(Entry(m2, root, x)) && Owns(m2, u2, root, x) {
      assert Entry(m2, root, x) == Entry(m1, root, x) && Owns(m1, u1, root, x);
    }
  }

  lemma {:induction false} GrownMore(m0: Mem, u0: map<int, Use>, m1: Mem, u1: map<int, Use>, m2: Mem, u2: map<int, Use>,
                                     root: int, lo: int, a: int, page: seq<int>, flags: int)
    requires GrownBy(m0, u0, m1, u1, root, lo, a) && Pages(m0, u0) && Pages(m1, u1) && Pages(m2, u2)
    requires 0 <= lo <= a < VPNS
    requires IsRoot(m1, u1, root) && Added(m1, u1, m2, u2, root, a, page, flags)
    ensures GrownBy(m0, u0, m2, u2, root, lo, a + 1)
  {
    GrownRoots(m0, u0, m1, u1, root, lo, a);
    hide Entry, IsRoot, V, Pa, Flags;
    forall r, x | IsRoot(m0, u0, r) && 0 <= x < VPNS && !(r == root && lo <= x < a + 1)
      ensures Entry(m2, r, x) == Entry(m0, r, x)
    {
      assert Entry(m2, r, x) == Entry(m1, r, x);
    }
    forall x | lo <= x < a + 1 ensures V(Entry(m2, root, x)) && Owns(m2, u2, root, x) {
      if x < a { assert Entry(m2, root, x) == Entry(m1, root, x) && Owns(m1, u1, root, x); }
    }
  }

  lemma {:induction false} ZeroedMore(m1: Mem, u1: map<int, Use>, m2: Mem, u2: map<int, Use>, root: int, lo: int,
                                      a: int, flags: int)
    requires IsRoot(m1, u1, root) && Added(m1, u1, m2, u2, root, a, Fill(0), flags) && DataKept(m1, u1, m2)
    requires Zeroed(m1, root, lo, a, flags) && 0 <= lo <= a < VPNS
    requires forall x :: lo <= x < a ==> Owns(m1, u1, root, x)
    ensures Zeroed(m2, root, lo, a + 1, flags)
  {
    hide Entry, IsRoot, V, Pa, Flags;
    forall x | lo <= x < a + 1
      ensures Flags(Entry(m2, root, x)) == flags && Pa(Entry(m2, root, x)) in m2
      ensures m2[Pa(Entry(m2, root, x))] == Fill(0)
    {
      if x < a { assert Entry(m2, root, x) == Entry(m1, root, x) && Owns(m1, u1, root, x); }
    }
  }

  /** An entry that is not valid is zero. */
  lemma {:induction false} EntryZero(mem: Mem, use: map<int, Use>, root: int, x: int)
    requires Trees(mem, use) && IsRoot(mem, use, root) && 0 <= x < VPNS
    ensures V(Entry(mem, root, x)) || Entry(mem, root, x) == 0
  {
    hide I2, I1, I0, Pa, Flags, IsLeaf;
    EntryPath(mem, use, root, x);
    var m := Pa(mem[root][I2(x)]);
    if V(mem[root][I2(x)]) && V(mem[m][I1(x)]) {
      assert TableOk(mem, use, Pa(mem[m][I1(x)]));
    }
  }

  /** Growing and then unmapping what was grown restores every translation; only tables stay used. */
  lemma {:induction false} RolledBack(m0: Mem, u0: map<int, Use>, m1: Mem, u1: map<int, Use>, m2: Mem,
                                      u2: map<int, Use>, root: int, lo: int, a: int)
    requires Trees(m0, u0) && Leaves(m0, u0) && Pages(m1, u1) && IsRoot(m0, u0, root) && 0 <= lo <= a <= VPNS
    requires GrownBy(m0, u0, m1, u1, root, lo, a) && Unmapped(m0, root, lo, a)
    requires Cleared(m1, m2, u1, root, lo, a) && u2 == ReleaseTo(u1, root, lo, a, Free)
    ensures SameMap(m0, m2, u0) && OnlyTables(u0, u2, root)
  {
    GrownRoots(m0, u0, m1, u1, root, lo, a);
    forall x | lo <= x < a ensures Entry(m0, root, x) == 0 {
      EntryZero(m0, u0, root, x);
    }
    forall p | p in u0 && u0[p].Leaf? && u0[p].root == root ensures !(lo <= u0[p].vpn < a) {
    }
    hide Entry, IsRoot, V, Pa, Owns, Trees, Leaves;
    forall r, x | IsRoot(m0, u0, r) && 0 <= x < VPNS ensures Entry(m2, r, x) == Entry(m0, r, x) {
      assert IsRoot(m1, u1, r);
    }
  }

  // ----- copying

  /** The child's first n pages have the contents and flags of the parent's. */
  ghost predicate Copied(m0: Mem, m1: Mem, parent: int, child: int, n: int) {
    forall x :: 0 <= x < n ==>
      && Pa(Entry(m0, parent, x)) in m0 && Pa(Entry(m1, child, x)) in m1
      && m1[Pa(Entry(m1, child, x))] == m0[Pa(Entry(m0, parent, x))]
      && Flags(Entry(m1, child, x)) == Flags(Entry(m0, parent, x))
  }

  lemma {:induction false} CopiedNothing(mem: Mem, use: map<int, Use>, parent: int, child: int)
    ensures Copied(mem, mem, parent, child, 0) && DataKept(mem, use, mem)
  {
  }

  /** The parent's page x, unchanged since the start. */
  lemma {:induction false} ParentPage(m0: Mem, u0: map<int, Use>, m1: Mem, u1: map<int, Use>, parent: int, child: int,
                                      x: int)
    requires Trees(m0, u0) && Pages(m1, u1) && IsRoot(m0, u0, parent) && parent != child && 0 <= x < VPNS
    requires GrownBy(m0, u0, m1, u1, child, 0, x) && DataKept(m0, u0, m1)
    requires V(Entry(m0, parent, x)) && Owns(m0, u0, parent, x)
    ensures Entry(m1, parent, x) == Entry(m0, parent, x) && V(Entry(m1, parent, x))
    ensures var pte := Entry(m1, parent, x);
            && Pa(pte) in m0 && Pa(pte) in m1 && m1[Pa(pte)] == m0[Pa(pte)] && |m1[Pa(pte)]| == NPTE
            && 0 <= Flags(pte) < 1024 && IsLeaf(Flags(pte)) && WithV(Flags(pte)) == Flags(pte)
  {
    LeafEntry(m0, u0, parent, x);
    FlagsLeaf(Entry(m0, parent, x));
    hide Entry, V, IsLeaf, Flags, WithV, Pa, Trees;
  }

  lemma {:induction false} FlagsLeaf(pte: int)
    requires V(pte) && IsLeaf(pte)
    ensures 0 <= Flags(pte) < 1024 && IsLeaf(Flags(pte)) && WithV(Flags(pte)) == Flags(pte)
  {
    var q := pte / 1024;
    PteFlags(q, pte % 1024);
    assert pte == q * 1024 + pte % 1024;
  }

  /** A valid entry is a leaf entry. */
  lemma {:induction false} LeafEntry(mem: Mem, use: map<int, Use>, root: int, x: int)
    requires Trees(mem, use) && IsRoot(mem, use, root) && 0 <= x < VPNS && V(Entry(mem, root, x))
    ensures IsLeaf(Entry(mem, root, x))
  {
    hide I2, I1, I0, Pa, Flags, IsLeaf;
    EntryPath(mem, use, root, x);
    assert TableOk(mem, use, Pa(mem[Pa(mem[root][I2(x)])][I1(x)]));
  }

  lemma {:induction false} OnlyTablesData(m0: Mem, u0: map<int, Use>, m1: Mem, u1: map<int, Use>, m2: Mem,
                                          u2: map<int, Use>, root: int, lo: int, a: int)
    requires GrownBy(m0, u0, m1, u1, root, lo, a) && DataKept(m0, u0, m1) && DataKept(m1, u1, m2)
    ensures DataKept(m0, u0, m2)
  {
    hide Entry, Owns, V, IsRoot;
  }

  lemma {:induction false} CopiedMore(m0: Mem, u0: map<int, Use>, m1: Mem, u1: map<int, Use>, m2: Mem,
                                      u2: map<int, Use>, parent: int, child: int, x: int)
    requires Copied(m0, m1, parent, child, x) && IsRoot(m1, u1, child) && 0 <= x < VPNS && DataKept(m1, u1, m2)
    requires forall y :: 0 <= y < x ==> Owns(m1, u1, child, y)
    requires Pa(Entry(m0, parent, x)) in m0
    requires Added(m1, u1, m2, u2, child, x, m0[Pa(Entry(m0, parent, x))], Flags(Entry(m0, parent, x)))
    ensures Copied(m0, m2, parent, child, x + 1)
  {
    hide Entry, IsRoot, V, Pa, Flags;
    forall y | 0 <= y < x + 1
      ensures Pa(Entry(m0, parent, y)) in m0 && Pa(Entry(m2, child, y)) in m2
      ensures m2[Pa(Entry(m2, child, y))] == m0[Pa(Entry(m0, parent, y))]
      ensures Flags(Entry(m2, child, y)) == Flags(Entry(m0, parent, y))
    {
      if y < x { assert Entry(m2, child, y) == Entry(m1, child, y) && Owns(m1, u1, child, y); }
    }
  }

  lemma {:induction false} StaysKept(m0: Mem, u0: map<int, Use>, m1: Mem, u1: map<int, Use>, m2: Mem, u2: map<int, Use>,
                                     root: int, lo: int, a: int)
    requires Trees(m0, u0) && Leaves(m0, u0) && IsRoot(m0, u0, root) && Unmapped(m0, root, lo, a)
    requires GrownBy(m0, u0, m1, u1, root, lo, a) && u2 == ReleaseTo(u1, root, lo, a, Free)
    requires DataKept(m0, u0, m1) && DataStays(m1, u1, m2, u2)
    ensures DataKept(m0, u0, m2)
  {
    forall p | p in u0 && u0[p].Leaf? && u0[p].root == root ensures !(lo <= u0[p].vpn < a) {
    }
    hide Entry, Owns, V, IsRoot, Trees, Leaves;
  }

  // ----- making and freeing a whole page table

  /** A whole page inside [start, end). */
  ghost predicate InRange(p: int, start: int, end: int) {
    p % PGSIZE == 0 && start <= p && p + PGSIZE <= end
  }

  /** A zeroed page nobody uses can be the root of an empty page table. */
  lemma {:induction false} EmptyTop(mem: Mem, use: map<int, Use>, p: int)
    requires Pages(mem, use) && p in mem && use[p] == Table(p, Top) && forall i :: 0 <= i < NPTE ==> mem[p][i] == 0
    ensures TableOk(mem, use, p)
  {
    ZeroNotValid();
  }

  lemma {:induction false} NewRoot(mem: Mem, use: map<int, Use>, head: int, free: seq<int>, p: int)
    requires MemOk(mem, use, head, free) && p in mem && use[p] == Other && forall i :: 0 <= i < NPTE ==> mem[p][i] == 0
    ensures MemOk(mem, use[p := Table(p, Top)], head, free) && Unmapped(mem, p, 0, VPNS)
  {
    ZeroNotValid();
    forall x | 0 <= x < VPNS ensures !V(Entry(mem, p, x)) {
      IndexBounds(x);
    }
    hide Entry, IsLeaf, V, Pa, Flags, TableOk;
    var use' := use[p := Table(p, Top)];
    forall t | t in mem && use'[t].Table? ensures TableOk(mem, use', t) {
      if t != p { StillTable(mem, use, p, Table(p, Top), t); } else { EmptyTop(mem, use', p); }
    }
  }

  lemma {:induction false} TreeTop(mem: Mem, use: map<int, Use>, p: int, level: nat)
    requires Pages(mem, use) && Tree(mem, use, p, level)
    ensures p in mem && p in use && use[p] == Other && |mem[p]| == NPTE
  {
  }

  /** Freeing a tree leaves the pages outside it, and every table, in place. */
  lemma {:induction false} FreedFrame(m1: Mem, u1: map<int, Use>, m2: Mem, u2: map<int, Use>, c: int, level: nat,
                                      p: int)
    requires Pages(m1, u1) && Tree(m1, u1, c, level) && Freed(m1, u1, m2, u2, Nodes(m1, c, level))
    requires p in m1 && u1[p] == Other && p !in Nodes(m1, c, level)
    ensures p in m2 && p in u2 && u2[p] == Other && m2[p] == m1[p] && m2.Keys == m1.Keys && u2.Keys == u1.Keys
    ensures forall q :: q in u1 && u1[q].Table? ==> q in u2 && u2[q] == u1[q]
  {
    TreeOthers(m1, u1, c, level);
    hide Tree, Nodes;
  }

  lemma {:induction false} StaysRefl(mem: Mem, use: map<int, Use>)
    ensures DataStays(mem, use, mem, use)
  {
  }

  lemma {:induction false} NothingMapped(m0: Mem, u0: map<int, Use>, m1: Mem, root: int, n: int)
    requires IsRoot(m0, u0, root) && 0 <= n <= VPNS && Unmapped(m0, root, n, VPNS) && Cleared(m0, m1, u0, root, 0, n)
    ensures NoLeaves(m1, root)
  {
    ZeroNotValid();
    hide Entry, V, IsRoot;
  }

  lemma {:induction false} RootIsTop(mem: Mem, use: map<int, Use>, root: int)
    requires IsRoot(mem, use, root)
    ensures root in mem && root in use && use[root] == Table(root, Top)
  {
  }

  /** A page table that translates nothing can be given up: what is left is in order. */
  lemma {:induction false} GiveUp(mem: Mem, use: map<int, Use>, head: int, free: seq<int>, root: int)
    requires MemOk(mem, use, head, free) && IsRoot(mem, use, root) && NoLeaves(mem, root)
    ensures MemOk(mem, Abandon(use, root), head, free)
  {
    hide Entry, IsLeaf, V, Pa, Flags;
    var use' := Abandon(use, root);
    forall t | t in mem && use'[t].Table? ensures TableOk(mem, use', t) {
      assert TableOk(mem, use, t);
    }
    forall p | p in mem && use'[p].Leaf? ensures use'[p].root != root {
    }
  }

  lemma {:induction false} FreedAll(m0: Mem, u0: map<int, Use>, m1: Mem, u1: map<int, Use>, m2: Mem, u2: map<int, Use>,
                                    root: int, n: int)
    requires Pages(m0, u0) && Leaves(m0, u0) && Unmapped(m0, root, n, VPNS)
    requires Cleared(m0, m1, u0, root, 0, n) && u1 == ReleaseTo(u0, root, 0, n, Free) && DataStays(m0, u0, m1, u1)
    requires m1.Keys == m0.Keys && Pages(m1, u1) && Freed(m1, Abandon(u1, root), m2, u2, Tables(u1, root, Top))
    requires SameMap(m1, m2, Abandon(u1, root))
    ensures u2 == Dissolved(u0, root) && DataStays(m0, u0, m2, u2)
    ensures forall r, x :: IsRoot(m0, u0, r) && r != root && 0 <= x < VPNS ==> Entry(m2, r, x) == Entry(m0, r, x)
  {
    hide Entry, V, Pa;
    forall p | p in u0 && u0[p].Leaf? && u0[p].root == root ensures 0 <= u0[p].vpn < n {
    }
    forall p | p in u0 ensures u2[p] == Dissolved(u0, root)[p] {
      assert p in u1 && p in Abandon(u1, root);
    }
    forall r, x | IsRoot(m0, u0, r) && r != root && 0 <= x < VPNS ensures Entry(m2, r, x) == Entry(m0, r, x) {
      assert IsRoot(m1, Abandon(u1, root), r);
    }
  }

  lemma {:induction false} ListHead(mem: Mem, use: map<int, Use>, head: int, free: seq<int>)
    requires MemOk(mem, use, head, free)
    ensures head == 0 <==> free == []
    ensures head != 0 ==> head in mem && head in use && use[head] == Free && |mem[head]| == NPTE
  {
    if free != [] { assert free[0] in mem; }
  }

  lemma {:induction false} OnlyTablesRefl(use: map<int, Use>, root: int)
    ensures OnlyTables(use, use, root)
  {
  }

  lemma {:induction false} OnlyTablesTrans(a: map<int, Use>, b: map<int, Use>, c: map<int, Use>, root: int)
    requires OnlyTables(a, b, root) && OnlyTables(b, c, root)
    ensures OnlyTables(a, c, root)
  {
  }

  lemma {:induction false} MemOkPages(mem: Mem, use: map<int, Use>, head: int, free: seq<int>)
    requires MemOk(mem, use, head, free)
    ensures Pages(mem, use) && Trees(mem, use) && Leaves(mem, use)
  {
  }

  /** Roots stay roots while tables stay tables. */
  lemma {:induction false} RootKept(mem: Mem, use: map<int, Use>, mem': Mem, use': map<int, Use>)
    requires Pages(mem, use) && Pages(mem', use') && mem.Keys == mem'.Keys
    requires forall p :: p in use && use[p].Table? ==> use'[p] == use[p]
    ensures forall r :: IsRoot(mem, use, r) ==> IsRoot(mem', use', r)
  {
  }

  lemma {:induction false} SameMapTrans(a: Mem, ua: map<int, Use>, b: Mem, ub: map<int, Use>, c: Mem)
    requires SameMap(a, b, ua) && SameMap(b, c, ub)
    requires forall r :: IsRoot(a, ua, r) ==> IsRoot(b, ub, r)
    ensures SameMap(a, c, ua)
  {
    hide IsRoot, Entry;
  }

  lemma {:induction false} SameMapRefl(mem: Mem, use: map<int, Use>)
    ensures SameMap(mem, mem, use)
  {
  }

  lemma {:induction false} PopList(mem: Mem, use: map<int, Use>, head: int, free: seq<int>, page: seq<int>)
    requires Pages(mem, use) && FreeList(mem, use, head, free) && head != 0 && |page| == NPTE
    ensures free != [] && head in mem && use[head] == Free && Pages(mem[head := page], use[head := Other])
    ensures FreeList(mem[head := page], use[head := Other], mem[head][0], free[1..])
  {
    assert free != [] && free[0] == head;
    var mem', use', free' := mem[head := page], use[head := Other], free[1..];
    forall p | p in mem' && use'[p] == Free ensures p in free' {
      assert p in free;
    }
    forall i | 0 <= i < |free'|
      ensures free'[i] in mem' && use'[free'[i]] == Free && mem'[free'[i]][0] == Next(free', i + 1)
    {
      var p := free[i + 1];
      assert p == free'[i] && p != head && mem[p][0] == Next(free, i + 2);
    }
  }

  lemma {:induction false} PopFree(mem: Mem, use: map<int, Use>, head: int, free: seq<int>, page: seq<int>)
    requires MemOk(mem, use, head, free) && head != 0 && |page| == NPTE
    ensures free != [] && head in mem && use[head] == Free
    ensures MemOk(mem[head := page], use[head := Other], mem[head][0], free[1..])
    ensures SameMap(mem, mem[head := page], use)
  {
    hide Trees, Leaves, Entry, SameMap, FreeList;
    MemOkPages(mem, use, head, free);
    PopList(mem, use, head, free, page);
    WritePage(mem, use, head, page, Other);
  }

  lemma {:induction false} PushFree(mem: Mem, use: map<int, Use>, head: int, free: seq<int>, pa: int, page: seq<int>)
    requires MemOk(mem, use, head, free) && pa in mem && use[pa] == Other && |page| == NPTE && page[0] == head
    ensures MemOk(mem[pa := page], use[pa := Free], pa, [pa] + free)
    ensures SameMap(mem, mem[pa := page], use)
  {
    hide Trees, Leaves, Entry, SameMap;
    MemOkPages(mem, use, head, free);
    WritePage(mem, use, pa, page, Free);
  }
}
