/** Three-level Sv39 page tables in physical memory, and the finite map from virtual pages to entries
    that they stand for (section 4.4 of the RISC-V Privileged Architecture manual, version 20211203). */
module PageTable {
  const PGSIZE := 4096
  const NPTE := 512
  /** MAXVA / PGSIZE: one bit less than Sv39 allows */
  const VPNS := 0x400_0000
  /** so only this many entries of a root are ever used */
  const TOPS := 256

  // ----- entries (kernel/riscv.h)

  predicate V(pte: int) { pte % 2 == 1 }

  function Flags(pte: int): int { pte % 1024 }

  /** PTE2PA */
  function Pa(pte: int): int { pte / 1024 * 4096 }

  /** PA2PTE(pa) | flags */
  function MakePte(pa: int, flags: int): int { pa / 4096 * 1024 + flags }

  /** pte & (PTE_R|PTE_W|PTE_X) */
  predicate IsLeaf(pte: int) { pte / 2 % 8 != 0 }

  lemma {:induction false} PteRoundTrip(pa: int, flags: int)
    requires 0 <= pa && pa % PGSIZE == 0 && 0 <= flags < 1024
    ensures Pa(MakePte(pa, flags)) == pa && Flags(MakePte(pa, flags)) == flags
    ensures V(MakePte(pa, flags)) <==> V(flags)
    ensures IsLeaf(MakePte(pa, flags)) <==> IsLeaf(flags)
  {
    hide Pa, Flags, V, IsLeaf, MakePte;
    var q := pa / 4096;
    PteAddress(q, flags);
    PteFlags(q, flags);
  }

  lemma {:induction false} PteAddress(q: int, flags: int)
    requires 0 <= flags < 1024
    ensures MakePte(q * 4096, flags) == q * 1024 + flags
    ensures Pa(q * 1024 + flags) == q * 4096 && Flags(q * 1024 + flags) == flags
  {
    Divide1024(q * 1024 + flags, q, flags);
  }

  lemma {:induction false} Divide1024(x: int, q: int, r: int)
    requires x == q * 1024 + r && 0 <= r < 1024
    ensures x / 1024 == q && x % 1024 == r
  {
  }

  /** The low bits are the flags' own. */
  lemma {:induction false} PteFlags(q: int, flags: int)
    ensures V(q * 1024 + flags) <==> V(flags)
    ensures IsLeaf(q * 1024 + flags) <==> IsLeaf(flags)
  {
    var h, r := flags / 2, flags % 2;
    Halve(q * 1024 + flags, q * 512 + h, r);
    Eighth(q * 64, h);
  }

  lemma {:induction false} Halve(x: int, q: int, r: int)
    requires x == q * 2 + r && 0 <= r < 2
    ensures x / 2 == q && x % 2 == r
  {
  }

  lemma {:induction false} Eighth(q: int, h: int)
    ensures (q * 8 + h) % 8 == h % 8
  {
    var a, r := h / 8, h % 8;
    assert q * 8 + h == (q + a) * 8 + r;
    Divide8((q + a) * 8 + r, q + a, r);
  }

  lemma {:induction false} Divide8(x: int, q: int, r: int)
    requires x == q * 8 + r && 0 <= r < 8
    ensures x / 8 == q && x % 8 == r
  {
  }

  /** PX(2, va), PX(1, va) and PX(0, va) of the page with number vpn */
  function I2(vpn: int): int { vpn / 262144 }
  function I1(vpn: int): int { vpn / 512 % 512 }
  function I0(vpn: int): int { vpn % 512 }

  lemma {:induction false} IndicesInjective(x: int, y: int)
    requires 0 <= x < VPNS && 0 <= y < VPNS
    requires I2(x) == I2(y) && I1(x) == I1(y) && I0(x) == I0(y)
    ensures x == y
  {
    assert x == x / 512 / 512 * 262144 + x / 512 % 512 * 512 + x % 512;
    assert y == y / 512 / 512 * 262144 + y / 512 % 512 * 512 + y % 512;
  }

  // ----- memory

  /** Where in its tree a table sits. */
  datatype Node = Top | Mid(i: int) | Low(i: int, j: int)

  /** What a page of RAM is for. Other is a page that something holds but no page table does. */
  datatype Use = Free | Table(root: int, node: Node) | Leaf(root: int, vpn: int) | Other

  type Mem = map<int, seq<int>>

  ghost predicate Pages(mem: Mem, use: map<int, Use>) {
    && mem.Keys == use.Keys
    && forall p :: p in mem ==> 0 < p && p % PGSIZE == 0 && |mem[p]| == NPTE
  }

  /** Entry i of directory p is empty or points to the table whose use is u. */
  ghost predicate DirEntry(mem: Mem, use: map<int, Use>, p: int, i: int, u: Use)
    requires Pages(mem, use) && p in mem && 0 <= i < NPTE
  {
    mem[p][i] == 0 || (V(mem[p][i]) && Flags(mem[p][i]) == 1 && Pa(mem[p][i]) in mem && use[Pa(mem[p][i])] == u)
  }

  /** Directory p points at q from entry i. */
  ghost predicate Points(mem: Mem, p: int, i: int, q: int) {
    p in mem && 0 <= i < |mem[p]| && V(mem[p][i]) && Pa(mem[p][i]) == q
  }

  ghost predicate TableOk(mem: Mem, use: map<int, Use>, p: int)
    requires Pages(mem, use) && p in mem && use[p].Table?
  {
    var root := use[p].root;
    match use[p].node
    case Top =>
      && p == root && (forall i :: 0 <= i < NPTE ==> DirEntry(mem, use, p, i, Table(root, Mid(i))))
      && forall i :: TOPS <= i < NPTE ==> mem[p][i] == 0
    case Mid(i) =>
      && root in mem && use[root] == Table(root, Top) && 0 <= i < NPTE && Points(mem, root, i, p)
      && forall j :: 0 <= j < NPTE ==> DirEntry(mem, use, p, j, Table(root, Low(i, j)))
    case Low(i, j) =>
      && root in mem && use[root] == Table(root, Top) && 0 <= i < NPTE && V(mem[root][i])
      && var m := Pa(mem[root][i]);
      && m in mem && use[m] == Table(root, Mid(i)) && 0 <= j < NPTE && Points(mem, m, j, p)
      && forall k :: 0 <= k < NPTE ==> mem[p][k] == 0 || (V(mem[p][k]) && IsLeaf(mem[p][k]))
  }

  /** The tables in memory form trees: every table hangs from exactly one entry, or is a root. */
  ghost predicate Trees(mem: Mem, use: map<int, Use>) {
    Pages(mem, use) && forall p :: p in mem && use[p].Table? ==> TableOk(mem, use, p)
  }

  ghost predicate IsRoot(mem: Mem, use: map<int, Use>, root: int) {
    Pages(mem, use) && root in mem && use[root] == Table(root, Top)
  }

  /** The entry that walk(va, 0) reaches, 0 if it reaches none. */
  ghost function Entry(mem: Mem, root: int, vpn: int): int {
    if !(root in mem && 0 <= I2(vpn) < |mem[root]|) || !V(mem[root][I2(vpn)]) then 0
    else
      var m := Pa(mem[root][I2(vpn)]);
      if !(m in mem && 0 <= I1(vpn) < |mem[m]|) || !V(mem[m][I1(vpn)]) then 0
      else
        var l := Pa(mem[m][I1(vpn)]);
        if l in mem && 0 <= I0(vpn) < |mem[l]| then mem[l][I0(vpn)] else 0
  }

  /** Every page a page table owns is mapped by it where it should be. */
  ghost predicate Leaves(mem: Mem, use: map<int, Use>)
    requires Pages(mem, use)
  {
    forall p :: p in mem && use[p].Leaf? ==>
      && IsRoot(mem, use, use[p].root) && 0 <= use[p].vpn < VPNS
      && V(Entry(mem, use[p].root, use[p].vpn)) && Pa(Entry(mem, use[p].root, use[p].vpn)) == p
  }

  /** Two memories translate every address the same way, in every page table. */
  ghost predicate SameMap(mem: Mem, mem': Mem, use: map<int, Use>) {
    forall r, x :: IsRoot(mem, use, r) && 0 <= x < VPNS ==> Entry(mem', r, x) == Entry(mem, r, x)
  }

  // ----- changes that keep the trees

  lemma {:induction false} IndexBounds(vpn: int)
    requires 0 <= vpn < VPNS
    ensures 0 <= I2(vpn) < TOPS && 0 <= I1(vpn) < NPTE && 0 <= I0(vpn) < NPTE
  {
  }

  /** The tables on the way to an entry. */
  lemma {:induction false} EntryPath(mem: Mem, use: map<int, Use>, r: int, x: int)
    requires Trees(mem, use) && IsRoot(mem, use, r) && 0 <= x < VPNS
    ensures 0 <= I2(x) < NPTE && 0 <= I1(x) < NPTE && 0 <= I0(x) < NPTE
    ensures DirEntry(mem, use, r, I2(x), Table(r, Mid(I2(x))))
    ensures V(mem[r][I2(x)]) ==> DirEntry(mem, use, Pa(mem[r][I2(x)]), I1(x), Table(r, Low(I2(x), I1(x))))
    ensures !V(mem[r][I2(x)]) ==> Entry(mem, r, x) == 0
    ensures V(mem[r][I2(x)]) && !V(mem[Pa(mem[r][I2(x)])][I1(x)]) ==> Entry(mem, r, x) == 0
    ensures V(mem[r][I2(x)]) && V(mem[Pa(mem[r][I2(x)])][I1(x)]) ==>
              Entry(mem, r, x) == mem[Pa(mem[Pa(mem[r][I2(x)])][I1(x)])][I0(x)]
  {
    hide I2, I1, I0, Pa, Flags;
    IndexBounds(x);
    assert TableOk(mem, use, r);
    assert DirEntry(mem, use, r, I2(x), Table(r, Mid(I2(x))));
    if V(mem[r][I2(x)]) {
      assert TableOk(mem, use, Pa(mem[r][I2(x)]));
    }
  }

  /** Writing a page that is not a table. */
  lemma {:induction false} WritePage(mem: Mem, use: map<int, Use>, p: int, data: seq<int>, u: Use)
    requires Trees(mem, use) && Leaves(mem, use) && p in mem && !use[p].Table? && |data| == NPTE
    requires !u.Table? && (u.Leaf? ==> u == use[p])
    ensures Trees(mem[p := data], use[p := u]) && Leaves(mem[p := data], use[p := u])
    ensures SameMap(mem, mem[p := data], use)
  {
    hide I2, I1, I0, Pa, Flags, IsLeaf;
    var mem', use' := mem[p := data], use[p := u];
    forall t | t in mem' && use'[t].Table? ensures TableOk(mem', use', t) {
      assert TableOk(mem, use, t);
    }
    forall r, x | IsRoot(mem, use, r) && 0 <= x < VPNS ensures Entry(mem', r, x) == Entry(mem, r, x) {
      EntryPath(mem, use, r, x);
      EntryPath(mem', use', r, x);
    }
  }

  function ChildNode(node: Node, i: int): Node
    requires !node.Low?
  {
    if node.Top? then Mid(i) else Low(node.i, i)
  }

  /** Hanging a zeroed page from an empty directory entry: nothing is translated differently. */
  lemma {:induction false} HangTable(mem: Mem, use: map<int, Use>, p: int, i: int, q: int, mem': Mem,
                                     use': map<int, Use>)
    requires Trees(mem, use) && Leaves(mem, use) && p in mem && use[p].Table? && !use[p].node.Low? && 0 <= i < NPTE
    requires mem[p][i] == 0 && q in mem && use[q] == Other && (use[p].node.Top? ==> i < TOPS)
    requires mem'.Keys == mem.Keys && |mem'[q]| == NPTE && (forall k :: 0 <= k < NPTE ==> mem'[q][k] == 0)
    requires mem'[p] == mem[p][i := MakePte(q, 1)] && forall t :: t in mem && t != p && t != q ==> mem'[t] == mem[t]
    requires use' == use[q := Table(use[p].root, ChildNode(use[p].node, i))]
    ensures Trees(mem', use') && Leaves(mem', use') && SameMap(mem, mem', use)
  {
    PteRoundTrip(q, 1);
    HungTrees(mem, use, p, i, q, mem', use');
    hide I2, I1, I0, Pa, Flags, IsLeaf, MakePte, TableOk;
    forall r, x | IsRoot(mem, use, r) && 0 <= x < VPNS ensures Entry(mem', r, x) == Entry(mem, r, x) {
      EntryPath(mem, use, r, x);
      EntryPath(mem', use', r, x);
    }
  }

  lemma {:induction false} HungTrees(mem: Mem, use: map<int, Use>, p: int, i: int, q: int, mem': Mem,
                                     use': map<int, Use>)
    requires Trees(mem, use) && p in mem && use[p].Table? && !use[p].node.Low? && 0 <= i < NPTE
    requires mem[p][i] == 0 && q in mem && use[q] == Other && (use[p].node.Top? ==> i < TOPS)
    requires mem'.Keys == mem.Keys && |mem'[q]| == NPTE && (forall k :: 0 <= k < NPTE ==> mem'[q][k] == 0)
    requires mem'[p] == mem[p][i := MakePte(q, 1)] && forall t :: t in mem && t != p && t != q ==> mem'[t] == mem[t]
    requires use' == use[q := Table(use[p].root, ChildNode(use[p].node, i))]
    requires V(MakePte(q, 1)) && Flags(MakePte(q, 1)) == 1 && Pa(MakePte(q, 1)) == q
    ensures Trees(mem', use')
  {
    hide Pa, Flags, IsLeaf, MakePte;
    assert TableOk(mem, use, p);
    forall t | t in mem' && use'[t].Table? ensures TableOk(mem', use', t) {
      if t != q { assert TableOk(mem, use, t); }
    }
  }

  /** Writing an entry of a lowest-level table changes the translation of one page, and no other. */
  lemma {:induction false} WriteEntry(mem: Mem, use: map<int, Use>, root: int, vpn: int, l: int, pte: int, mem': Mem)
    requires Trees(mem, use) && IsRoot(mem, use, root) && 0 <= vpn < VPNS
    requires l in mem && use[l] == Table(root, Low(I2(vpn), I1(vpn))) && 0 <= I0(vpn) < NPTE
    requires pte == 0 || (V(pte) && IsLeaf(pte))
    requires mem' == mem[l := mem[l][I0(vpn) := pte]]
    ensures Trees(mem', use)
    ensures forall r, x :: IsRoot(mem, use, r) && 0 <= x < VPNS ==>
              Entry(mem', r, x) == if r == root && x == vpn then pte else Entry(mem, r, x)
  {
    hide I2, I1, I0, Pa, Flags, IsLeaf;
    assert TableOk(mem, use, l);
    forall t | t in mem' && use[t].Table? ensures TableOk(mem', use, t) {
      assert TableOk(mem, use, t);
    }
    forall r, x | IsRoot(mem, use, r) && 0 <= x < VPNS
      ensures Entry(mem', r, x) == if r == root && x == vpn then pte else Entry(mem, r, x)
    {
      EntryPath(mem, use, r, x);
      EntryPath(mem', use, r, x);
      if r == root && I2(x) == I2(vpn) && I1(x) == I1(vpn) && I0(x) == I0(vpn) { IndicesInjective(x, vpn); }
    }
  }
}
