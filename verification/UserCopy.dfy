/** copyout, copyin and copyinstr of kernel/vm.c: bytes between the kernel and a user address space, a page at a
    time. */
module UserCopy {
  import opened Common
  import opened PageTable
  import Vm

  const MAXVA := VPNS * PGSIZE

  // ----- bytes of a page

  /** Byte j of a word, the lowest first. */
  function GetByte(w: int, j: nat): int
    decreases j
  {
    if j == 0 then w % 256 else GetByte(w / 256, j - 1)
  }

  function SetByte(w: int, j: nat, b: int): int
    decreases j
  {
    if j == 0 then w / 256 * 256 + b else SetByte(w / 256, j - 1, b) * 256 + w % 256
  }

  lemma {:induction false} ByteSet(w: int, j: nat, b: int, i: nat)
    requires 0 <= b < 256
    ensures GetByte(SetByte(w, j, b), i) == if i == j then b else GetByte(w, i)
    decreases j
  {
    if j == 0 {
      assert (w / 256 * 256 + b) / 256 == w / 256;
    } else {
      var s := SetByte(w / 256, j - 1, b);
      assert (s * 256 + w % 256) % 256 == w % 256 && (s * 256 + w % 256) / 256 == s;
      if i > 0 { ByteSet(w / 256, j - 1, b, i - 1); }
    }
  }

  function ByteOf(page: seq<int>, k: int): int
    requires |page| == NPTE && 0 <= k < PGSIZE
  {
    GetByte(page[k / 8], k % 8)
  }

  predicate AreBytes(s: seq<int>) { forall i :: 0 <= i < |s| ==> 0 <= s[i] < 256 }

  /** memmove of data into a page, at o. */
  function PutBytes(page: seq<int>, o: nat, data: seq<int>): (r: seq<int>)
    requires |page| == NPTE && o + |data| <= PGSIZE
    ensures |r| == NPTE
  {
    if data == [] then page
    else
      var n := |data| - 1;
      var p := PutBytes(page, o, data[..n]);
      p[(o + n) / 8 := SetByte(p[(o + n) / 8], (o + n) % 8, data[n])]
  }

  lemma {:induction false} BytesPut(page: seq<int>, o: nat, data: seq<int>, k: int)
    requires |page| == NPTE && o + |data| <= PGSIZE && AreBytes(data) && 0 <= k < PGSIZE
    ensures ByteOf(PutBytes(page, o, data), k) == if o <= k < o + |data| then data[k - o] else ByteOf(page, k)
  {
    if data != [] {
      hide GetByte, SetByte;
      var n := |data| - 1;
      BytesPut(page, o, data[..n], k);
      var p := PutBytes(page, o, data[..n]);
      if k / 8 == (o + n) / 8 {
        ByteSet(p[k / 8], (o + n) % 8, data[n], k % 8);
        assert k % 8 == (o + n) % 8 <==> k == o + n;
      }
    }
  }

  // ----- addresses

  predicate U(pte: int) { pte / Vm.PTE_U % 2 == 1 }

  /** walkaddr translates user address a. */
  ghost predicate Accessible(mem: Mem, root: int, a: int) {
    0 <= a < MAXVA && V(Entry(mem, root, a / PGSIZE)) && U(Entry(mem, root, a / PGSIZE))
  }

  /** Every page that root lets the user use is root's own. */
  ghost predicate UserPages(mem: Mem, use: map<int, Use>, root: int) {
    forall x :: 0 <= x < VPNS && V(Entry(mem, root, x)) && U(Entry(mem, root, x)) ==> Vm.Owns(mem, use, root, x)
  }

  /** The byte the user finds at a. */
  ghost function UserByte(mem: Mem, root: int, a: int): int {
    var p := Pa(Entry(mem, root, a / PGSIZE));
    if p in mem && |mem[p]| == NPTE then ByteOf(mem[p], a % PGSIZE) else 0
  }

  /** The bytes from va on. */
  ghost function UserBytes(mem: Mem, root: int, va: int, n: nat): (s: seq<int>)
    ensures |s| == n
  {
    seq(n, k => UserByte(mem, root, va + k))
  }

  /** Only pages that root owns at lo..hi have changed. */
  ghost predicate OnlyPages(m0: Mem, m1: Mem, use: map<int, Use>, root: int, lo: int, hi: int) {
    && m1.Keys == m0.Keys
    && forall p :: p in m0 && m1[p] != m0[p] ==>
         p in use && use[p].Leaf? && use[p].root == root && lo <= use[p].vpn < hi
  }

  /** The user's bytes are those of m0 with data laid over them at va. */
  ghost predicate Laid(m0: Mem, m1: Mem, root: int, va: int, data: seq<int>) {
    forall a :: Accessible(m0, root, a) ==>
      UserByte(m1, root, a) == if va <= a < va + |data| then data[a - va] else UserByte(m0, root, a)
  }

  ghost predicate AllAccessible(mem: Mem, root: int, lo: int, hi: int) {
    forall a :: lo <= a < hi ==> Accessible(mem, root, a)
  }

  /** The first done bytes of n from va on can be reached, and the next one, if there is one, cannot. */
  ghost predicate Reached(mem: Mem, root: int, va: int, n: int, done: int) {
    0 <= done <= n && AllAccessible(mem, root, va, va + done) && (done < n ==> !Accessible(mem, root, va + done))
  }

  lemma {:induction false} PageInside(mem: Mem, root: int, va: int, k: int)
    requires Accessible(mem, root, va) && 0 <= k < PGSIZE - va % PGSIZE
    ensures Accessible(mem, root, va + k) && (va + k) / PGSIZE == va / PGSIZE && (va + k) % PGSIZE == va % PGSIZE + k
  {
    assert (va + k) / PGSIZE == va / PGSIZE && (va + k) % PGSIZE == va % PGSIZE + k;
    hide Entry;
  }

  lemma {:induction false} SameAccess(m0: Mem, use: map<int, Use>, m1: Mem, root: int, a: int)
    requires SameMap(m0, m1, use) && IsRoot(m0, use, root)
    ensures Accessible(m1, root, a) <==> Accessible(m0, root, a)
    ensures 0 <= a < MAXVA ==> Entry(m1, root, a / PGSIZE) == Entry(m0, root, a / PGSIZE)
  {
    hide Entry, IsRoot;
  }

  /** Two addresses in different pages of root have different pages. */
  lemma {:induction false} PagesApart(mem: Mem, use: map<int, Use>, root: int, a: int, b: int)
    requires UserPages(mem, use, root) && Accessible(mem, root, a) && Accessible(mem, root, b)
    ensures Pa(Entry(mem, root, a / PGSIZE)) == Pa(Entry(mem, root, b / PGSIZE)) <==> a / PGSIZE == b / PGSIZE
    ensures Pa(Entry(mem, root, a / PGSIZE)) in use
    ensures use[Pa(Entry(mem, root, a / PGSIZE))] == Leaf(root, a / PGSIZE)
  {
    hide Entry, Pa, V, U;
  }

  /** Writing a page that a page table owns. */
  lemma {:induction false} WriteOwned(mem: Mem, use: map<int, Use>, head: int, free: seq<int>, p: int, page: seq<int>)
    requires Vm.MemOk(mem, use, head, free) && p in mem && p in use && use[p].Leaf? && |page| == NPTE
    ensures Vm.MemOk(mem[p := page], use, head, free) && SameMap(mem, mem[p := page], use)
    ensures forall r :: IsRoot(mem, use, r) <==> IsRoot(mem[p := page], use, r)
  {
    hide Trees, Leaves, Entry, SameMap;
    Vm.MemOkPages(mem, use, head, free);
    WritePage(mem, use, p, page, use[p]);
    assert use[p := use[p]] == use;
  }

  /** One page's worth of copyout. */
  lemma {:induction false} LaidPage(m0: Mem, use: map<int, Use>, m1: Mem, m2: Mem, root: int, va: int, data: seq<int>,
                                    at: int, piece: seq<int>, p: int)
    requires Laid(m0, m1, root, va, data) && at == va + |data| && AreBytes(piece) && |piece| <= PGSIZE - at % PGSIZE
    requires UserPages(m0, use, root) && IsRoot(m0, use, root) && Accessible(m0, root, at)
    requires p == Pa(Entry(m0, root, at / PGSIZE)) && p in m1 && |m1[p]| == NPTE
    requires m2 == m1[p := PutBytes(m1[p], at % PGSIZE, piece)]
    requires SameMap(m0, m1, use) && SameMap(m0, m2, use)
    ensures Laid(m0, m2, root, va, data + piece)
  {
    hide Laid, SameMap, UserPages, PutBytes, ByteOf, Pa, Entry, IsRoot;
    forall a | Accessible(m0, root, a)
      ensures UserByte(m2, root, a) ==
              if va <= a < va + |data + piece| then (data + piece)[a - va] else UserByte(m0, root, a)
    {
      LaidAt(m0, m1, root, va, data, a);
      SameAccess(m0, use, m1, root, a);
      SameAccess(m0, use, m2, root, a);
      PagesApart(m0, use, root, a, at);
      if a / PGSIZE == at / PGSIZE {
        BytesPut(m1[p], at % PGSIZE, piece, a % PGSIZE);
      }
      assert at <= a < at + |piece| ==> a / PGSIZE == at / PGSIZE && a - at == a % PGSIZE - at % PGSIZE;
    }
    LaidAll(m0, m2, root, va, data + piece);
  }

  lemma {:induction false} LaidAt(m0: Mem, m1: Mem, root: int, va: int, data: seq<int>, a: int)
    requires Laid(m0, m1, root, va, data) && Accessible(m0, root, a)
    ensures UserByte(m1, root, a) == if va <= a < va + |data| then data[a - va] else UserByte(m0, root, a)
  {
  }

  lemma {:induction false} LaidAll(m0: Mem, m1: Mem, root: int, va: int, data: seq<int>)
    requires forall a :: Accessible(m0, root, a) ==>
               UserByte(m1, root, a) == if va <= a < va + |data| then data[a - va] else UserByte(m0, root, a)
    ensures Laid(m0, m1, root, va, data)
  {
  }

  lemma {:induction false} LaidNothing(mem: Mem, use: map<int, Use>, root: int, va: int, lo: int)
    ensures Laid(mem, mem, root, va, []) && AllAccessible(mem, root, va, va)
    ensures forall hi :: OnlyPages(mem, mem, use, root, lo, hi)
  {
  }

  /** If its first byte can be reached, so can the rest of a page. */
  lemma {:induction false} AccessMore(mem: Mem, root: int, va: int, at: int, n: int)
    requires AllAccessible(mem, root, va, at) && Accessible(mem, root, at) && 0 <= n <= PGSIZE - at % PGSIZE
    ensures AllAccessible(mem, root, va, at + n)
  {
    hide Accessible;
    forall a | va <= a < at + n ensures Accessible(mem, root, a) {
      if a >= at { PageInside(mem, root, at, a - at); }
    }
  }

  lemma {:induction false} SameUserPages(m0: Mem, use: map<int, Use>, m1: Mem, root: int)
    requires SameMap(m0, m1, use) && IsRoot(m0, use, root) && UserPages(m0, use, root)
    ensures UserPages(m1, use, root)
  {
    hide Entry, IsRoot, Pa, V, U;
  }

  lemma {:induction false} OneMorePage(m0: Mem, m1: Mem, m2: Mem, use: map<int, Use>, root: int, lo: int, hi: int,
                                       hi': int, p: int, page: seq<int>, x: int)
    requires OnlyPages(m0, m1, use, root, lo, hi) && p in m1 && m2 == m1[p := page] && hi <= hi'
    requires p in use && use[p] == Leaf(root, x) && lo <= x < hi'
    ensures OnlyPages(m0, m2, use, root, lo, hi')
  {
  }

  lemma {:induction false} PageRange(va: int, at: int, n: int)
    requires 0 <= va <= at && 0 < n
    ensures va / PGSIZE <= at / PGSIZE < (at + n + PGSIZE - 1) / PGSIZE
    ensures (at + PGSIZE - 1) / PGSIZE <= (at + n + PGSIZE - 1) / PGSIZE
  {
  }

  /** One turn of copyout's loop. */
  lemma {:induction false} CopyStep(m0: Mem, use: map<int, Use>, m1: Mem, m2: Mem, root: int, va: int, data: seq<int>,
                                    at: int, piece: seq<int>, p: int)
    requires Laid(m0, m1, root, va, data) && 0 <= va && at == va + |data| && AreBytes(piece)
    requires 0 < |piece| <= PGSIZE - at % PGSIZE
    requires UserPages(m1, use, root) && IsRoot(m0, use, root) && IsRoot(m1, use, root)
    requires (forall r :: IsRoot(m0, use, r) ==> IsRoot(m1, use, r))
    requires Accessible(m0, root, at) && SameMap(m0, m1, use) && SameMap(m1, m2, use)
    requires p == Pa(Entry(m1, root, at / PGSIZE)) && p in m1 && |m1[p]| == NPTE
    requires p in use && use[p] == Leaf(root, at / PGSIZE)
    requires m2 == m1[p := PutBytes(m1[p], at % PGSIZE, piece)]
    requires OnlyPages(m0, m1, use, root, va / PGSIZE, (at + PGSIZE - 1) / PGSIZE)
    ensures Laid(m0, m2, root, va, data + piece) && SameMap(m0, m2, use) && UserPages(m2, use, root)
    ensures OnlyPages(m0, m2, use, root, va / PGSIZE, (at + |piece| + PGSIZE - 1) / PGSIZE)
  {
    hide Laid, SameMap, UserPages, PutBytes, Pa, Entry, IsRoot, OnlyPages, Accessible;
    Vm.SameMapTrans(m0, use, m1, use, m2);
    SameUserPages(m1, use, m2, root);
    SameAccess(m0, use, m1, root, at);
    AccessBounds(m0, root, at);
    BackUserPages(m0, use, m1, root);
    LaidPage(m0, use, m1, m2, root, va, data, at, piece, p);
    PageRange(va, at, |piece|);
    OneMorePage(m0, m1, m2, use, root, va / PGSIZE, (at + PGSIZE - 1) / PGSIZE, (at + |piece| + PGSIZE - 1) / PGSIZE,
                p, PutBytes(m1[p], at % PGSIZE, piece), at / PGSIZE);
  }

  lemma {:induction false} AccessBounds(mem: Mem, root: int, a: int)
    requires Accessible(mem, root, a)
    ensures 0 <= a < MAXVA
  {
  }

  lemma {:induction false} BackUserPages(m0: Mem, use: map<int, Use>, m1: Mem, root: int)
    requires SameMap(m0, m1, use) && IsRoot(m0, use, root) && UserPages(m1, use, root)
    ensures UserPages(m0, use, root)
  {
    hide Entry, IsRoot, Pa, V, U;
  }

  /** walkaddr: the page of a user address, 0 if the user may not use it. */
  method WalkAddr(vm: Vm.Vm, root: int, va: int) returns (pa: int)
    requires vm.Valid() && IsRoot(vm.mem, vm.use, root) && UserPages(vm.mem, vm.use, root) && 0 <= va
    modifies vm
    ensures vm.Valid() && vm.mem == old(vm.mem) && vm.use == old(vm.use) && vm.free == old(vm.free)
    ensures pa != 0 <==> Accessible(vm.mem, root, va)
    ensures pa != 0 ==> pa == Pa(Entry(vm.mem, root, va / PGSIZE)) && pa in vm.mem && |vm.mem[pa]| == NPTE
    ensures pa != 0 ==> pa in vm.use && vm.use[pa] == Leaf(root, va / PGSIZE)
  {
    hide Vm.MemOk, SameMap, Entry, Trees, Leaves, I0, PutBytes;
    if va >= MAXVA {
      return 0;
    }
    Vm.MemOkPages(vm.mem, vm.use, vm.freelist, vm.free);
    var pt := vm.Walk(root, va / PGSIZE, false);
    if pt == 0 {
      return 0;
    }
    Vm.AtBounds(vm.mem, vm.use, root, va / PGSIZE, pt);
    var pte := vm.mem[pt][I0(va / PGSIZE)];
    if !V(pte) {
      return 0;
    }
    if !U(pte) {
      return 0;
    }
    pa := Pa(pte);
    PagesApart(vm.mem, vm.use, root, va, va);
  }

  /** copyout. It fails exactly when some page of the range is refused, and then the bytes before the first such
      page have been copied. Nothing is translated differently, and no other page changes. */
  method Copyout(vm: Vm.Vm, root: int, dstva: int, src: seq<int>) returns (r: int, ghost done: int)
    requires vm.Valid() && IsRoot(vm.mem, vm.use, root) && UserPages(vm.mem, vm.use, root)
    requires 0 <= dstva && AreBytes(src)
    modifies vm
    ensures vm.Valid() && IsRoot(vm.mem, vm.use, root) && vm.use == old(vm.use) && vm.free == old(vm.free)
    ensures SameMap(old(vm.mem), vm.mem, vm.use) && UserPages(vm.mem, vm.use, root)
    ensures Reached(old(vm.mem), root, dstva, |src|, done) && r == if done == |src| then 0 else -1
    ensures Laid(old(vm.mem), vm.mem, root, dstva, src[..done])
    ensures OnlyPages(old(vm.mem), vm.mem, vm.use, root, dstva / PGSIZE, (dstva + done + PGSIZE - 1) / PGSIZE)
  {
    hide Vm.MemOk, SameMap, Entry, IsRoot, Laid, UserPages, Accessible, AllAccessible, PutBytes, OnlyPages;
    ghost var m0, use := vm.mem, vm.use;
    Vm.SameMapRefl(vm.mem, vm.use);
    LaidNothing(m0, use, root, dstva, dstva / PGSIZE);
    done := 0;
    var at := dstva;
    while at - dstva < |src|
      invariant 0 <= done <= |src| && at == dstva + done && vm.use == use && vm.free == old(vm.free)
      invariant vm.Valid() && IsRoot(vm.mem, use, root) && UserPages(vm.mem, use, root) && IsRoot(m0, use, root)
      invariant forall r :: IsRoot(m0, use, r) ==> IsRoot(vm.mem, use, r)
      invariant SameMap(m0, vm.mem, use) && Laid(m0, vm.mem, root, dstva, src[..done])
      invariant AllAccessible(m0, root, dstva, at)
      invariant OnlyPages(m0, vm.mem, use, root, dstva / PGSIZE, (at + PGSIZE - 1) / PGSIZE)
      decreases |src| - done
    {
      var pa := WalkAddr(vm, root, at);
      SameAccess(m0, use, vm.mem, root, at);
      if pa == 0 {
        return -1, done;
      }
      var n := PGSIZE - at % PGSIZE;
      if n > |src| - (at - dstva) {
        n := |src| - (at - dstva);
      }
      ghost var m1 := vm.mem;
      var piece := src[at - dstva..at - dstva + n];
      var page := PutBytes(vm.mem[pa], at % PGSIZE, piece);
      WriteOwned(m1, use, vm.freelist, vm.free, pa, page);
      AccessMore(m0, root, dstva, at, n);
      CopyStep(m0, use, m1, m1[pa := page], root, dstva, src[..done], at, piece, pa);
      vm.mem := vm.mem[pa := page];
      assert src[..done] + piece == src[..done + n];
      done, at := done + n, at + n;
    }
    r := 0;
  }

  /** The bytes of a page that the user sees from at on. */
  function Part(page: seq<int>, o: nat, n: nat): (s: seq<int>)
    requires |page| == NPTE && o + n <= PGSIZE
    ensures |s| == n
  {
    seq(n, k requires 0 <= k < n => ByteOf(page, o + k))
  }

  lemma {:induction false} PartRead(mem: Mem, root: int, va: int, out: seq<int>, n: int, p: int)
    requires 0 <= va && out == UserBytes(mem, root, va, |out|) && 0 <= n <= PGSIZE - (va + |out|) % PGSIZE
    requires p == Pa(Entry(mem, root, (va + |out|) / PGSIZE)) && p in mem && |mem[p]| == NPTE
    ensures out + Part(mem[p], (va + |out|) % PGSIZE, n) == UserBytes(mem, root, va, |out| + n)
  {
    hide Entry, Pa, ByteOf;
    var at := va + |out|;
    var whole := UserBytes(mem, root, va, |out| + n);
    forall i | 0 <= i < |out| + n ensures (out + Part(mem[p], at % PGSIZE, n))[i] == whole[i] {
      if i < |out| {
        assert out[i] == UserBytes(mem, root, va, |out|)[i];
      } else {
        var k := i - |out|;
        assert (at + k) / PGSIZE == at / PGSIZE && (at + k) % PGSIZE == at % PGSIZE + k;
        assert va + i == at + k && whole[i] == UserByte(mem, root, at + k);
        assert (out + Part(mem[p], at % PGSIZE, n))[i] == Part(mem[p], at % PGSIZE, n)[k];
      }
    }
  }

  /** copyin. It fails exactly when some page of the range is refused; either way what it got are the user's bytes. */
  method Copyin(vm: Vm.Vm, root: int, srcva: int, len: nat) returns (r: int, out: seq<int>)
    requires vm.Valid() && IsRoot(vm.mem, vm.use, root) && UserPages(vm.mem, vm.use, root) && 0 <= srcva
    modifies vm
    ensures vm.Valid() && vm.mem == old(vm.mem) && vm.use == old(vm.use) && vm.free == old(vm.free)
    ensures Reached(vm.mem, root, srcva, len, |out|) && r == if |out| == len then 0 else -1
    ensures out == UserBytes(vm.mem, root, srcva, |out|)
  {
    hide Vm.MemOk, Entry, IsRoot, UserPages, Accessible, AllAccessible, ByteOf, UserBytes, Part;
    ghost var mem := vm.mem;
    NoBytes(mem, root, srcva);
    out := [];
    while |out| < len
      invariant |out| <= len && vm.mem == mem && vm.use == old(vm.use) && vm.free == old(vm.free) && vm.Valid()
      invariant AllAccessible(mem, root, srcva, srcva + |out|) && out == UserBytes(mem, root, srcva, |out|)
    {
      var at := srcva + |out|;
      var pa := WalkAddr(vm, root, at);
      if pa == 0 {
        return -1, out;
      }
      var n := PGSIZE - at % PGSIZE;
      if n > len - |out| {
        n := len - |out|;
      }
      AccessMore(mem, root, srcva, at, n);
      PartRead(mem, root, srcva, out, n, pa);
      out := out + Part(vm.mem[pa], at % PGSIZE, n);
    }
    r := 0;
  }

  lemma {:induction false} NoBytes(mem: Mem, root: int, va: int)
    ensures UserBytes(mem, root, va, 0) == [] && AllAccessible(mem, root, va, va)
  {
  }

  /** copyinstr: out is what it got before a NUL, a page that is refused, or the limit. */
  method Copyinstr(vm: Vm.Vm, root: int, srcva: int, max: nat) returns (r: int, out: seq<int>)
    requires vm.Valid() && IsRoot(vm.mem, vm.use, root) && UserPages(vm.mem, vm.use, root) && 0 <= srcva
    modifies vm
    ensures vm.Valid() && vm.mem == old(vm.mem) && vm.use == old(vm.use) && vm.free == old(vm.free)
    ensures |out| <= max && out == UserBytes(vm.mem, root, srcva, |out|) && 0 !in out
    ensures AllAccessible(vm.mem, root, srcva, srcva + |out|) && (r == 0 || r == -1)
    ensures r == 0 <==>
      |out| < max && Accessible(vm.mem, root, srcva + |out|) && UserByte(vm.mem, root, srcva + |out|) == 0
    ensures r == -1 && |out| < max ==> !Accessible(vm.mem, root, srcva + |out|)
  {
    hide Vm.MemOk, Entry, IsRoot, UserPages, Accessible, AllAccessible, UserBytes, UserByte, ByteOf, Pa;
    ghost var mem := vm.mem;
    NoBytes(mem, root, srcva);
    out := [];
    while |out| < max
      invariant |out| <= max && vm.mem == mem && vm.use == old(vm.use) && vm.free == old(vm.free) && vm.Valid()
      invariant AllAccessible(mem, root, srcva, srcva + |out|) && out == UserBytes(mem, root, srcva, |out|) && 0 !in out
      decreases max - |out|
    {
      var at := srcva + |out|;
      var pa := WalkAddr(vm, root, at);
      if pa == 0 {
        return -1, out;
      }
      var got;
      got, out := ScanPage(vm.mem, root, srcva, max, out, pa);
      if got {
        return 0, out;
      }
    }
    r := -1;
  }

  /** The inner loop of copyinstr: to the end of the page, the limit or a NUL. */
  method ScanPage(mem: Mem, ghost root: int, srcva: int, max: nat, out0: seq<int>, pa: int)
    returns (got: bool, out: seq<int>)
    requires 0 <= srcva && |out0| < max && pa in mem && |mem[pa]| == NPTE && Accessible(mem, root, srcva + |out0|)
    requires pa == Pa(Entry(mem, root, (srcva + |out0|) / PGSIZE)) && 0 !in out0
    requires AllAccessible(mem, root, srcva, srcva + |out0|) && out0 == UserBytes(mem, root, srcva, |out0|)
    ensures |out0| <= |out| <= max && out == UserBytes(mem, root, srcva, |out|) && 0 !in out
    ensures AllAccessible(mem, root, srcva, srcva + |out|)
    ensures got ==> |out| < max && Accessible(mem, root, srcva + |out|) && UserByte(mem, root, srcva + |out|) == 0
    ensures !got ==> |out0| < |out|
  {
    hide Entry, Accessible, AllAccessible, UserBytes, UserByte, ByteOf, Pa;
    var at := srcva + |out0|;
    var n := PGSIZE - at % PGSIZE;
    if n > max - |out0| {
      n := max - |out0|;
    }
    var i := 0;
    out := out0;
    while i < n
      invariant 0 <= i <= n && |out| == |out0| + i && out == UserBytes(mem, root, srcva, |out|) && 0 !in out
    {
      PageInside(mem, root, at, i);
      AccessMore(mem, root, srcva, at, i);
      OneByte(mem, root, srcva, out, pa);
      var c := ByteOf(mem[pa], at % PGSIZE + i);
      if c == 0 {
        return true, out;
      }
      out, i := out + [c], i + 1;
    }
    AccessMore(mem, root, srcva, at, n);
    got := false;
  }

  lemma {:induction false} OneByte(mem: Mem, root: int, va: int, out: seq<int>, p: int)
    requires 0 <= va && out == UserBytes(mem, root, va, |out|)
    requires p == Pa(Entry(mem, root, (va + |out|) / PGSIZE)) && p in mem && |mem[p]| == NPTE
    ensures UserByte(mem, root, va + |out|) == ByteOf(mem[p], (va + |out|) % PGSIZE)
    ensures out + [ByteOf(mem[p], (va + |out|) % PGSIZE)] == UserBytes(mem, root, va, |out| + 1)
  {
    PartRead(mem, root, va, out, 1, p);
    hide Entry, Pa, ByteOf;
    assert Part(mem[p], (va + |out|) % PGSIZE, 1) == [ByteOf(mem[p], (va + |out|) % PGSIZE)];
  }

  // ----- what the copies mean together

  /** The bytes copied out are the ones the user then has, and the others are the ones the user had. */
  lemma {:induction false} LaidBytes(m0: Mem, m1: Mem, root: int, va: int, data: seq<int>, b: int, n: nat)
    requires Laid(m0, m1, root, va, data) && AllAccessible(m0, root, va, va + |data|)
    requires AllAccessible(m0, root, b, b + n)
    ensures UserBytes(m1, root, va, |data|) == data
    ensures b + n <= va || va + |data| <= b ==> UserBytes(m1, root, b, n) == UserBytes(m0, root, b, n)
  {
    hide Accessible, UserByte;
    var s, t := UserBytes(m1, root, va, |data|), UserBytes(m1, root, b, n);
    forall k | 0 <= k < |data| ensures s[k] == data[k] { LaidAt(m0, m1, root, va, data, va + k); }
    if b + n <= va || va + |data| <= b {
      forall k | 0 <= k < n ensures t[k] == UserBytes(m0, root, b, n)[k] { LaidAt(m0, m1, root, va, data, b + k); }
    }
  }

  /** Other address spaces see nothing of it. */
  lemma {:induction false} OtherSpace(m0: Mem, use: map<int, Use>, m1: Mem, root: int, lo: int, hi: int, r: int, a: int)
    requires OnlyPages(m0, m1, use, root, lo, hi) && SameMap(m0, m1, use) && IsRoot(m0, use, r) && r != root
    requires UserPages(m0, use, r) && Accessible(m0, r, a)
    ensures Accessible(m1, r, a) && UserByte(m1, r, a) == UserByte(m0, r, a)
  {
    SameAccess(m0, use, m1, r, a);
    PagesApart(m0, use, r, a, a);
    hide Entry, IsRoot, SameMap, UserPages, Pa, ByteOf;
  }

  /** What copyout put there, copyin gets back. */
  method RoundTrip(vm: Vm.Vm, root: int, va: int, src: seq<int>) returns (r: int, back: seq<int>)
    requires vm.Valid() && IsRoot(vm.mem, vm.use, root) && UserPages(vm.mem, vm.use, root)
    requires 0 <= va && AreBytes(src)
    modifies vm
    ensures vm.Valid() && (r == 0 <==> AllAccessible(old(vm.mem), root, va, va + |src|))
    ensures r == 0 ==> back == src
  {
    hide Vm.MemOk, Entry, IsRoot, UserPages, Accessible, Laid, OnlyPages, SameMap, UserBytes;
    ghost var m0 := vm.mem;
    ghost var done;
    r, done := Copyout(vm, root, va, src);
    back := [];
    if r == 0 {
      assert src[..done] == src;
      LaidBytes(m0, vm.mem, root, va, src, va, 0);
      SameRange(m0, vm.use, vm.mem, root, va, va + |src|);
      r, back := Copyin(vm, root, va, |src|);
    }
  }

  lemma {:induction false} SameRange(m0: Mem, use: map<int, Use>, m1: Mem, root: int, lo: int, hi: int)
    requires SameMap(m0, m1, use) && IsRoot(m0, use, root) && AllAccessible(m0, root, lo, hi)
    ensures AllAccessible(m1, root, lo, hi)
  {
    hide Accessible, SameMap, IsRoot;
    forall a | lo <= a < hi ensures Accessible(m1, root, a) { SameAccess(m0, use, m1, root, a); }
  }

  // ----- and the address spaces that uvmalloc and uvmcopy make

  lemma {:induction false} FlagBits(p: int, q: int)
    requires Flags(p) == Flags(q)
    ensures (V(p) <==> V(q)) && (U(p) <==> U(q))
  {
    LowBits(p);
    LowBits(q);
  }

  lemma {:induction false} LowBits(p: int)
    ensures (V(p) <==> V(p % 1024)) && (U(p) <==> U(p % 1024))
  {
    var q, r := p / 1024, p % 1024;
    assert p == q * 1024 + r;
    PteFlags(q, r);
    assert p / 16 == q * 64 + r / 16;
    assert (q * 64 + r / 16) % 2 == r / 16 % 2;
  }

  /** Pages that uvmalloc or uvmcopy added are the user's own, in every page table. */
  lemma {:induction false} GrownUser(m0: Mem, u0: map<int, Use>, m1: Mem, u1: map<int, Use>, root: int, lo: int,
                                     hi: int, r: int)
    requires Vm.GrownBy(m0, u0, m1, u1, root, lo, hi) && IsRoot(m0, u0, r) && UserPages(m0, u0, r)
    ensures UserPages(m1, u1, r)
  {
    hide Entry, IsRoot, Pa, V, U;
    forall x | 0 <= x < VPNS && V(Entry(m1, r, x)) && U(Entry(m1, r, x)) ensures Vm.Owns(m1, u1, r, x) {
      if !(r == root && lo <= x < hi) { assert Vm.Owns(m0, u0, r, x); }
    }
  }

  /** Memory that uvmalloc added can be copied to and from, and is zero. */
  lemma {:induction false} GrownZero(mem: Mem, root: int, lo: int, hi: int, xperm: int, a: int)
    requires Vm.Zeroed(mem, root, lo, hi, 1 + Vm.PTE_R + Vm.PTE_U + xperm) && 0 <= xperm < 16 && xperm % 4 == 0
    requires 0 <= lo && hi <= VPNS && lo * PGSIZE <= a < hi * PGSIZE
    ensures Accessible(mem, root, a) && UserByte(mem, root, a) == 0
  {
    hide Entry;
    var x := a / PGSIZE;
    LowBits(Entry(mem, root, x));
    ZeroWord(a % PGSIZE % 8);
  }

  lemma {:induction false} ZeroWord(j: nat)
    ensures GetByte(0, j) == 0
  {
    if j > 0 { ZeroWord(j - 1); }
  }

  /** After uvmcopy the child finds in its memory what the parent found. */
  lemma {:induction false} ForkedByte(m0: Mem, m1: Mem, parent: int, child: int, n: int, a: int)
    requires Vm.Copied(m0, m1, parent, child, n) && 0 <= a < n * PGSIZE
    ensures Accessible(m1, child, a) <==> Accessible(m0, parent, a)
    ensures UserByte(m1, child, a) == UserByte(m0, parent, a)
  {
    hide Entry, Pa, ByteOf, V, U, Flags;
    assert 0 <= a / PGSIZE < n;
    FlagBits(Entry(m1, child, a / PGSIZE), Entry(m0, parent, a / PGSIZE));
  }
}
