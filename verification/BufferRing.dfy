/** The buffers of kernel/bio.c as a doubly linked ring through an array. */
module BufferRing {
  import opened Disk

  const NBUF := 30
  /** the list head, in the slot after the buffers */
  const HEAD := 30

  datatype Id = Id(dev: int, blockno: int)

  /** holder is the ticket that has the sleep-lock, 0 if none has. */
  datatype Buf = Buf(id: Id, refcnt: int, valid: bool, data: Block, holder: int, prev: int, next: int)

  /** A buffer that has never been used. */
  predicate Blank(buf: Buf) { buf.id == Id(0, 0) && !buf.valid && buf.refcnt == 0 }

  ghost function At(order: seq<int>, i: int): int { if 0 <= i < |order| then order[i] else HEAD }

  /** The buffer at position i links to its neighbours. */
  ghost predicate Linked(bufs: seq<Buf>, order: seq<int>, i: int)
    requires |bufs| == NBUF + 1 && 0 <= i < |order|
  {
    0 <= order[i] < NBUF && bufs[order[i]].next == At(order, i + 1) && bufs[order[i]].prev == At(order, i - 1)
  }

  /** The links run through order, from head to head, both ways. */
  ghost predicate Ring(bufs: seq<Buf>, order: seq<int>) {
    && |bufs| == NBUF + 1
    && (forall i :: 0 <= i < |order| ==> Linked(bufs, order, i))
    && bufs[HEAD].next == At(order, 0) && bufs[HEAD].prev == At(order, |order| - 1)
    && (forall i, j :: 0 <= i < j < |order| ==> order[i] != order[j])
    && (forall i :: 0 <= i < |order| ==> 0 <= order[i] < NBUF)
  }

  ghost predicate Everyone(order: seq<int>) {
    |order| == NBUF && forall b :: 0 <= b < NBUF ==> b in order
  }

  /** order is by last release, latest first. */
  ghost predicate Aged(order: seq<int>, stamp: seq<int>, clock: int) {
    && |stamp| == NBUF && (forall i :: 0 <= i < |order| ==> 0 <= order[i] < NBUF && stamp[order[i]] < clock)
    && forall i, j :: 0 <= i < j < |order| ==> stamp[order[i]] > stamp[order[j]]
  }

  /** Of two buffers with one identity the one further back is blank. */
  ghost predicate Once(bufs: seq<Buf>, order: seq<int>) {
    && |bufs| == NBUF + 1 && (forall i :: 0 <= i < |order| ==> 0 <= order[i] < NBUF)
    && forall i, j :: 0 <= i < j < |order| && bufs[order[i]].id == bufs[order[j]].id ==> Blank(bufs[order[j]])
  }

  ghost function LinkFront(s: seq<Buf>, b: int): seq<Buf>
    requires |s| == NBUF + 1 && 0 <= b < NBUF && 0 <= s[HEAD].next <= NBUF
  {
    var f := s[HEAD].next;
    var s1 := s[b := s[b].(next := f, prev := HEAD)];
    var s2 := s1[f := s1[f].(prev := b)];
    s2[HEAD := s2[HEAD].(next := b)]
  }

  ghost function Unlink(s: seq<Buf>, b: int): seq<Buf>
    requires |s| == NBUF + 1 && 0 <= b < NBUF && 0 <= s[b].next <= NBUF && 0 <= s[b].prev <= NBUF
  {
    var n, p := s[b].next, s[b].prev;
    var s1 := s[n := s[n].(prev := p)];
    s1[p := s1[p].(next := n)]
  }

  /** Only links differ. */
  ghost predicate SameButLinks(s: seq<Buf>, s': seq<Buf>) {
    |s| == |s'| == NBUF + 1 && forall i :: 0 <= i < NBUF ==> s'[i] == s[i].(prev := s'[i].prev, next := s'[i].next)
  }

  lemma {:induction false} PushRing(s: seq<Buf>, order: seq<int>, b: int)
    requires Ring(s, order) && 0 <= b < NBUF && b !in order
    ensures Ring(LinkFront(s, b), [b] + order) && SameButLinks(s, LinkFront(s, b)) && s[HEAD].next != b
  {
    var s', o := LinkFront(s, b), [b] + order;
    forall i | 0 <= i < |o| ensures Linked(s', o, i) {
      if i > 0 {
        assert Linked(s, order, i - 1) && order[i - 1] in order;
      }
    }
    if order != [] { assert Linked(s, order, 0); }
  }

  lemma {:induction false} UnlinkRing(s: seq<Buf>, order: seq<int>, k: int)
    requires Ring(s, order) && 0 <= k < |order|
    requires Linked(s, order, k)
    ensures var o := order[..k] + order[k + 1..];
      Ring(Unlink(s, order[k]), o) && SameButLinks(s, Unlink(s, order[k])) && order[k] !in o
  {
    var s', o := Unlink(s, order[k]), order[..k] + order[k + 1..];
    forall i | 0 <= i < |o| ensures Linked(s', o, i) {
      assert Linked(s, order, if i < k then i else i + 1);
    }
  }
}
