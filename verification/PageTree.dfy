/** A page table being torn down: the pages below a table, seen from the memory alone. */
module PageTree {
  import opened PageTable

  /** The pages of the tree, `level` directories deep, under p. */
  ghost function Nodes(mem: Mem, p: int, level: nat): set<int>
    decreases level, 2
  {
    if level == 0 || p !in mem || |mem[p]| != NPTE then {p} else {p} + Below(mem, p, level, NPTE)
  }

  /** The pages under the first n entries of p. */
  ghost function Below(mem: Mem, p: int, level: nat, n: int): set<int>
    requires p in mem && |mem[p]| == NPTE && 0 <= n <= NPTE && level > 0
    decreases level, 1
  {
    set i, q | 0 <= i < n && q in Under(mem, p, level, i) :: q
  }

  /** The pages under entry i of p. */
  ghost function Under(mem: Mem, p: int, level: nat, i: int): set<int>
    requires p in mem && |mem[p]| == NPTE && 0 <= i < NPTE && level > 0
    decreases level, 0
  {
    if V(mem[p][i]) then Nodes(mem, Pa(mem[p][i]), level - 1) else {}
  }

  /** The pages under p form a tree without leaf entries, and belong to nobody. */
  ghost predicate Tree(mem: Mem, use: map<int, Use>, p: int, level: nat)
    requires Pages(mem, use)
    decreases level
  {
    && p in mem && use[p] == Other
    && (level == 0 ==> forall i :: 0 <= i < NPTE ==> !V(mem[p][i]))
    && (level > 0 ==>
          && (forall i :: 0 <= i < NPTE && V(mem[p][i]) ==>
                !IsLeaf(mem[p][i]) && Tree(mem, use, Pa(mem[p][i]), level - 1) && p !in Under(mem, p, level, i))
          && (forall i, j :: 0 <= i < j < NPTE ==> Under(mem, p, level, i) !! Under(mem, p, level, j)))
  }

  lemma {:induction false} UnderWhich(mem: Mem, p: int, level: nat, n: int, q: int) returns (i: int)
    requires p in mem && |mem[p]| == NPTE && 0 <= n <= NPTE && level > 0 && q in Below(mem, p, level, n)
    ensures 0 <= i < n && q in Under(mem, p, level, i)
  {
    i :| 0 <= i < n && q in Under(mem, p, level, i);
  }

  /** A tree is the same tree while its pages do not change. */
  lemma {:induction false} TreeFrame(mem: Mem, use: map<int, Use>, mem': Mem, use': map<int, Use>, p: int, level: nat)
    requires Pages(mem, use) && Pages(mem', use') && Tree(mem, use, p, level)
    requires forall q :: q in Nodes(mem, p, level) ==> q in mem' && q in mem && mem'[q] == mem[q] && use'[q] == Other
    ensures Tree(mem', use', p, level) && Nodes(mem', p, level) == Nodes(mem, p, level)
    decreases level
  {
    hide Pa, IsLeaf;
    assert p in Nodes(mem, p, level);
    if level > 0 {
      forall i | 0 <= i < NPTE
        ensures V(mem[p][i]) ==> Tree(mem', use', Pa(mem[p][i]), level - 1)
        ensures Under(mem', p, level, i) == Under(mem, p, level, i)
      {
        if V(mem[p][i]) {
          forall q | q in Under(mem, p, level, i) ensures q in Nodes(mem, p, level) {
            assert q in Below(mem, p, level, NPTE);
          }
          TreeFrame(mem, use, mem', use', Pa(mem[p][i]), level - 1);
        }
      }
      assert Below(mem', p, level, NPTE) == Below(mem, p, level, NPTE);
    }
  }

  /** The pages in s have been freed; nothing else has changed use, nor contents unless it was free. */
  ghost predicate Freed(mem: Mem, use: map<int, Use>, mem': Mem, use': map<int, Use>, s: set<int>) {
    && mem'.Keys == mem.Keys && use'.Keys == use.Keys
    && (forall q :: q in use ==> use'[q] == if q in s then Free else use[q])
    && (forall q :: q in mem && q in use && q !in s && use[q] != Free ==> mem'[q] == mem[q])
  }

  /** Part way through freewalk's loop over p: the pages under the first n entries are free, the rest of
      the tree is as it was in mem, and so is everything outside it. */
  ghost predicate Walked(mem: Mem, use: map<int, Use>, mem': Mem, use': map<int, Use>, p: int, level: nat, n: int)
    requires p in mem && |mem[p]| == NPTE && 0 <= n <= NPTE
  {
    if level == 0 then mem' == mem && use' == use else
    && mem'.Keys == mem.Keys && use'.Keys == use.Keys
    && (forall q :: q in use ==> use'[q] == if q in Below(mem, p, level, n) then Free else use[q])
    && (forall q :: q in mem && q in use && q != p && q !in Below(mem, p, level, n) && use[q] != Free ==>
          mem'[q] == mem[q])
    && |mem'[p]| == NPTE && forall i :: n <= i < NPTE ==> mem'[p][i] == mem[p][i]
  }

  lemma {:induction false} WalkedNothing(mem: Mem, use: map<int, Use>, p: int, level: nat)
    requires p in mem && |mem[p]| == NPTE
    ensures Walked(mem, use, mem, use, p, level, 0)
  {
  }

  /** The next entry is untouched, and so is the tree under it. */
  lemma {:induction false} NextTree(mem: Mem, use: map<int, Use>, mem': Mem, use': map<int, Use>, p: int, level: nat,
                                    i: int)
    requires Pages(mem, use) && Pages(mem', use') && Tree(mem, use, p, level) && 0 <= i < NPTE
    requires Walked(mem, use, mem', use', p, level, i)
    ensures p in mem' && use'[p] == Other && mem'[p][i] == mem[p][i]
    ensures V(mem[p][i]) ==>
      && level > 0 && !IsLeaf(mem[p][i]) && Tree(mem', use', Pa(mem[p][i]), level - 1)
      && Nodes(mem', Pa(mem[p][i]), level - 1) == Under(mem, p, level, i) && p !in Under(mem, p, level, i)
  {
    hide Pa, IsLeaf;
    if level > 0 {
      forall q | q in Below(mem, p, level, i) ensures q != p {
        var k := UnderWhich(mem, p, level, i, q);
        assert V(mem[p][k]);
      }
      if V(mem[p][i]) {
        TreeOthers(mem, use, Pa(mem[p][i]), level - 1);
        forall q | q in Under(mem, p, level, i) ensures q !in Below(mem, p, level, i) && q != p {
        }
        TreeFrame(mem, use, mem', use', Pa(mem[p][i]), level - 1);
      }
    }
  }

  /** The pages of a tree are all nobody's. */
  lemma {:induction false} TreeOthers(mem: Mem, use: map<int, Use>, p: int, level: nat)
    requires Pages(mem, use) && Tree(mem, use, p, level)
    ensures forall q :: q in Nodes(mem, p, level) ==> q in mem && use[q] == Other
    decreases level
  {
    hide Pa, IsLeaf;
    if level > 0 {
      forall i | 0 <= i < NPTE && V(mem[p][i])
        ensures forall q :: q in Under(mem, p, level, i) ==> q in mem && use[q] == Other
      {
        TreeOthers(mem, use, Pa(mem[p][i]), level - 1);
      }
      forall q | q in Below(mem, p, level, NPTE) ensures q in mem && use[q] == Other {
        var i := UnderWhich(mem, p, level, NPTE, q);
        assert V(mem[p][i]);
      }
    }
  }

  /** One more subtree freed, and its entry cleared. */
  lemma {:induction false} WalkedMore(mem: Mem, use: map<int, Use>, m1: Mem, u1: map<int, Use>, m2: Mem,
                                      u2: map<int, Use>, p: int, level: nat, i: int)
    requires Pages(mem, use) && Tree(mem, use, p, level) && level > 0 && 0 <= i < NPTE && V(mem[p][i])
    requires Walked(mem, use, m1, u1, p, level, i) && Freed(m1, u1, m2, u2, Under(mem, p, level, i))
    requires p in m2 && m2[p] == m1[p]
    ensures Walked(mem, use, m2[p := m2[p][i := 0]], u2, p, level, i + 1)
  {
    hide Pa, IsLeaf, V, Under;
    BelowMore(mem, p, level, i);
  }

  lemma {:induction false} WalkedPast(mem: Mem, use: map<int, Use>, m1: Mem, u1: map<int, Use>, p: int, level: nat,
                                      i: int)
    requires Pages(mem, use) && Tree(mem, use, p, level) && 0 <= i < NPTE && !V(mem[p][i])
    requires Walked(mem, use, m1, u1, p, level, i)
    ensures Walked(mem, use, m1, u1, p, level, i + 1)
  {
    if level > 0 {
      assert Under(mem, p, level, i) == {};
      BelowMore(mem, p, level, i);
      hide Pa, IsLeaf, V, Under;
    }
  }

  lemma {:induction false} BelowMore(mem: Mem, p: int, level: nat, i: int)
    requires p in mem && |mem[p]| == NPTE && 0 <= i < NPTE && level > 0
    ensures Below(mem, p, level, i + 1) == Below(mem, p, level, i) + Under(mem, p, level, i)
  {
    hide Under;
    forall q ensures q in Below(mem, p, level, i + 1) <==> q in Below(mem, p, level, i) || q in Under(mem, p, level,
          i) {
      if q in Below(mem, p, level, i + 1) && q !in Under(mem, p, level, i) {
        var k := UnderWhich(mem, p, level, i + 1, q);
      }
    }
  }

  /** The loop done and p itself freed: exactly the tree has been freed. */
  lemma {:induction false} WalkedAll(mem: Mem, use: map<int, Use>, m1: Mem, u1: map<int, Use>, p: int, level: nat,
                                     page: seq<int>)
    requires Pages(mem, use) && p in mem && use[p] == Other && Walked(mem, use, m1, u1, p, level, NPTE)
    ensures Freed(mem, use, m1[p := page], u1[p := Free], Nodes(mem, p, level))
  {
    hide Under, Below;
  }

  // ----- the tables of a root are such a tree

  ghost function Level(node: Node): nat { if node.Top? then 2 else if node.Mid? then 1 else 0 }

  /** n is node or hangs below it. */
  ghost predicate Within(n: Node, node: Node) {
    node == Top || n == node || (node.Mid? && n.Low? && n.i == node.i)
  }

  /** The tables of root from node down. */
  ghost function Tables(use: map<int, Use>, root: int, node: Node): set<int> {
    set p | p in use && use[p].Table? && use[p].root == root && Within(use[p].node, node)
  }

  /** root's tables given up. */
  ghost function Abandon(use: map<int, Use>, root: int): map<int, Use> {
    map p | p in use :: if use[p].Table? && use[p].root == root then Other else use[p]
  }

  /** The pages of page table root, translated pages included, freed. */
  ghost function Dissolved(use: map<int, Use>, root: int): map<int, Use> {
    map p | p in use :: if (use[p].Table? || use[p].Leaf?) && use[p].root == root then Free else use[p]
  }

  ghost predicate NoLeaves(mem: Mem, root: int) {
    forall x :: 0 <= x < VPNS ==> !V(Entry(mem, root, x))
  }

  /** Each table of root is mapped from its place only. */
  lemma {:induction false} UniqueTable(mem: Mem, use: map<int, Use>, p: int, q: int)
    requires Trees(mem, use) && p in mem && q in mem && use[p].Table? && use[q] == use[p]
    ensures p == q
  {
    hide Pa, Flags, IsLeaf;
    assert TableOk(mem, use, p) && TableOk(mem, use, q);
  }

  /** The child an entry of a directory points at. */
  lemma {:induction false} ChildTable(mem: Mem, use: map<int, Use>, p: int, i: int)
    requires Trees(mem, use) && p in mem && use[p].Table? && !use[p].node.Low? && 0 <= i < NPTE && V(mem[p][i])
    ensures Pa(mem[p][i]) in mem && use[Pa(mem[p][i])] == Table(use[p].root, ChildNode(use[p].node, i))
    ensures !IsLeaf(mem[p][i])
  {
    assert TableOk(mem, use, p);
    var u := Table(use[p].root, ChildNode(use[p].node, i));
    assert DirEntry(mem, use, p, i, u);
  }

  /** A lowest-level table of a root that translates nothing is empty. */
  lemma {:induction false} LowEmpty(mem: Mem, use: map<int, Use>, root: int, p: int, k: int)
    requires Trees(mem, use) && IsRoot(mem, use, root) && NoLeaves(mem, root) && 0 <= k < NPTE
    requires p in mem && use[p].Table? && use[p].root == root && use[p].node.Low?
    ensures !V(mem[p][k])
  {
    var i, j := use[p].node.i, use[p].node.j;
    assert TableOk(mem, use, p) && TableOk(mem, use, root);
    var x := i * 262144 + j * 512 + k;
    assert i < TOPS;
    JoinIndices(i, j, k);
    hide I2, I1, I0, Pa, Flags, IsLeaf;
    EntryPath(mem, use, root, x);
  }

  lemma {:induction false} JoinIndices(i: int, j: int, k: int)
    requires 0 <= i < TOPS && 0 <= j < NPTE && 0 <= k < NPTE
    ensures var x := i * 262144 + j * 512 + k; 0 <= x < VPNS && I2(x) == i && I1(x) == j && I0(x) == k
  {
    var x := i * 262144 + j * 512 + k;
    assert x / 512 == i * 512 + j && x / 262144 == i;
  }

  /** A table below p hangs under one of p's entries. */
  lemma {:induction false} HangsUnder(mem: Mem, use: map<int, Use>, root: int, p: int, q: int) returns (i: int)
    requires Trees(mem, use) && p in mem && q in mem && use[p].Table? && use[p].root == root && !use[p].node.Low?
    requires q in Tables(use, root, use[p].node) && q != p
    ensures 0 <= i < NPTE && V(mem[p][i]) && q in Tables(use, root, ChildNode(use[p].node, i))
  {
    hide Pa, Flags, IsLeaf, V;
    assert TableOk(mem, use, p) && TableOk(mem, use, q);
    if use[q] == use[p] { UniqueTable(mem, use, p, q); }
    i := if use[p].node.Top? then use[q].node.i else use[q].node.j;
    if use[p].node.Mid? { UniqueTable(mem, use, p, Pa(mem[root][use[p].node.i])); }
  }

  /** Tables under different entries of a directory are different tables. */
  lemma {:induction false} TablesApart(use: map<int, Use>, root: int, node: Node, i: int, j: int)
    requires !node.Low? && i != j
    ensures Tables(use, root, ChildNode(node, i)) !! Tables(use, root, ChildNode(node, j))
    ensures Tables(use, root, ChildNode(node, i)) <= Tables(use, root, node)
    ensures forall p :: p in use && use[p] == Table(root, node) ==> p !in Tables(use, root, ChildNode(node, i))
  {
    var ci, cj := ChildNode(node, i), ChildNode(node, j);
    forall p | p in Tables(use, root, ci) ensures p !in Tables(use, root, cj) && p in Tables(use, root, node) {
      assert Within(use[p].node, ci);
    }
  }

  /** The tables of root below p are exactly the pages of the tree under p. */
  lemma {:induction false} TableTree(mem: Mem, use: map<int, Use>, root: int, p: int)
    requires Trees(mem, use) && IsRoot(mem, use, root) && NoLeaves(mem, root)
    requires p in mem && use[p].Table? && use[p].root == root
    ensures Pages(mem, Abandon(use, root)) && Tree(mem, Abandon(use, root), p, Level(use[p].node))
    ensures Nodes(mem, p, Level(use[p].node)) == Tables(use, root, use[p].node)
    decreases Level(use[p].node)
  {
    hide Pa, Flags, IsLeaf, Entry, I0, I1, I2, TableOk;
    var node, level := use[p].node, Level(use[p].node);
    if node.Low? {
      forall k | 0 <= k < NPTE ensures !V(mem[p][k]) { LowEmpty(mem, use, root, p, k); }
      forall q | q in Tables(use, root, node) ensures q == p { UniqueTable(mem, use, p, q); }
    } else {
      forall i | 0 <= i < NPTE && V(mem[p][i])
        ensures !IsLeaf(mem[p][i]) && Tree(mem, Abandon(use, root), Pa(mem[p][i]), level - 1)
        ensures Under(mem, p, level, i) == Tables(use, root, ChildNode(node, i))
      {
        ChildTable(mem, use, p, i);
        TableTree(mem, use, root, Pa(mem[p][i]));
      }
      forall i, j | 0 <= i < j < NPTE ensures Under(mem, p, level, i) !! Under(mem, p, level, j) {
        TablesApart(use, root, node, i, j);
      }
      forall i | 0 <= i < NPTE ensures p !in Under(mem, p, level, i) && Under(mem, p, level, i) <= Tables(use, root,
            node) {
        TablesApart(use, root, node, i, i + 1);
      }
      forall q | q in Tables(use, root, node) && q != p ensures q in Below(mem, p, level, NPTE) {
        var i := HangsUnder(mem, use, root, p, q);
        assert q in Under(mem, p, level, i);
      }
      forall q | q in Below(mem, p, level, NPTE) ensures q in Tables(use, root, node) {
        var i := UnderWhich(mem, p, level, NPTE, q);
      }
    }
  }
}
