/** kernel/bio.c: the cache of disk blocks. Each method is one step that the cache's spinlock or a buffer's
    sleep-lock makes atomic, so any interleaving of threads is a sequence of these calls. A thread's claim
    on a buffer, from bget until the end of brelse, is a ticket. */
module Bio {
  import opened Disk
  import opened BufferRing

  /** How far a ticket's owner has got: waiting for the sleep-lock, holding it, holding it after bread
      returned, or past releasesleep in brelse. */
  datatype Stage = Waiting | Held | Loaded | Released

  datatype Ref = Ref(b: int, id: Id, stage: Stage)

  ghost function Claims(refs: map<int, Ref>, b: int): set<int> {
    set t | t in refs && refs[t].b == b
  }

  ghost predicate Clean(buf: Buf, disk: map<Id, Block>) {
    buf.valid ==> buf.id in disk && buf.data == disk[buf.id]
  }

  /** Reference counts count tickets and pins; a ticket's buffer keeps the identity it was claimed for; the
      sleep-lock has at most one holder. */
  ghost predicate Counted(bufs: seq<Buf>, refs: map<int, Ref>, pins: seq<int>) {
    && |bufs| == NBUF + 1 && |pins| == NBUF
    && (forall b :: 0 <= b < NBUF ==> 0 <= pins[b] && bufs[b].refcnt == |Claims(refs, b)| + pins[b])
    && (forall t :: t in refs ==> 0 < t && 0 <= refs[t].b < NBUF && bufs[refs[t].b].id == refs[t].id)
    && (forall t :: t in refs && (refs[t].stage.Held? || refs[t].stage.Loaded?) ==> bufs[refs[t].b].holder == t)
    && (forall t :: t in refs && refs[t].stage.Loaded? ==> bufs[refs[t].b].valid)
    && (forall b :: 0 <= b < NBUF && bufs[b].holder != 0 ==>
          var t := bufs[b].holder; t in refs && refs[t].b == b && (refs[t].stage.Held? || refs[t].stage.Loaded?))
  }

  ghost predicate Cached(bufs: seq<Buf>, id: Id)
    requires |bufs| == NBUF + 1
  {
    exists b :: 0 <= b < NBUF && bufs[b].id == id && bufs[b].valid
  }

  /** store is what the blocks hold: a valid buffer has the block's contents, a block without one is on the
      disk, and a buffer that nobody has locked or pinned agrees with the disk. */
  ghost predicate Coherent(bufs: seq<Buf>, pins: seq<int>, disk: map<Id, Block>, store: map<Id, Block>) {
    && |bufs| == NBUF + 1 && |pins| == NBUF && store.Keys == disk.Keys
    && (forall b :: 0 <= b < NBUF && bufs[b].valid ==> bufs[b].id in store && store[bufs[b].id] == bufs[b].data)
    && (forall id :: id in disk && store[id] != disk[id] ==> Cached(bufs, id))
    && (forall b :: 0 <= b < NBUF && pins[b] == 0 && bufs[b].holder == 0 ==> Clean(bufs[b], disk))
  }

  /** Everything the cache keeps, as a value. */
  datatype View = View(bufs: seq<Buf>, order: seq<int>, stamp: seq<int>, clock: int, refs: map<int, Ref>,
                       pins: seq<int>, disk: map<Id, Block>, store: map<Id, Block>)

  ghost predicate CacheOk(v: View) {
    && Ring(v.bufs, v.order) && Everyone(v.order) && Aged(v.order, v.stamp, v.clock) && Once(v.bufs, v.order)
    && Counted(v.bufs, v.refs, v.pins) && Coherent(v.bufs, v.pins, v.disk, v.store)
  }

  class Cache {
    const bufs: array<Buf>
    /** the device */
    var disk: map<Id, Block>
    /** the blocks as the cache's clients see them */
    ghost var store: map<Id, Block>
    /** buffers from most to least recently released, and when each was last released */
    ghost var order: seq<int>
    ghost var stamp: seq<int>
    ghost var clock: int
    ghost var refs: map<int, Ref>
    ghost var pins: seq<int>

    ghost predicate Valid()
      reads this, bufs
    {
      bufs.Length == NBUF + 1 && CacheOk(Snapshot())
    }

    ghost function Snapshot(): View
      reads this, bufs
    {
      View(bufs[..], order, stamp, clock, refs, pins, disk, store)
    }

    /** binit, over buffers that are all zero. */
    constructor (disk: map<Id, Block>, zero: Block)
      ensures Valid() && fresh(bufs) && this.disk == disk && store == disk && refs == map[]
      ensures forall b :: 0 <= b < NBUF ==> Blank(bufs[b])
    {
      bufs := new Buf[NBUF + 1](_ => Buf(Id(0, 0), 0, false, zero, 0, 0, 0));
      this.disk, store, refs, pins, order := disk, disk, map[], seq(NBUF, _ => 0), [];
      stamp, clock := seq(NBUF, b => b), NBUF;
      new;
      hide CacheOk, Ring, Aged, Once, Counted, Coherent, Everyone, LinkFront;
      bufs[HEAD] := bufs[HEAD].(prev := HEAD, next := HEAD);
      RingEmpty(bufs[..]);
      var b := 0;
      while b < NBUF
        invariant 0 <= b <= NBUF && Ring(bufs[..], order) && Descending(order, b)
        invariant forall i :: 0 <= i < NBUF ==> Blank(bufs[i]) && bufs[i].holder == 0
        invariant this.disk == disk && store == disk && refs == map[] && pins == seq(NBUF, _ => 0)
        invariant stamp == seq(NBUF, b => b) && clock == NBUF
        modifies bufs, this
      {
        ghost var s := bufs[..];
        PushRing(s, order, b);
        RingHead(s, order);
        LinkAtFront(b);
        SameBlank(s, bufs[..]);
        order := [b] + order;
        b := b + 1;
      }
      RingHead(bufs[..], order);
      FreshOk(bufs[..], order, disk);
    }

    /** Link b, which is in no list, in after the head. */
    method LinkAtFront(b: int)
      requires bufs.Length == NBUF + 1 && 0 <= b < NBUF && 0 <= bufs[HEAD].next <= NBUF && bufs[HEAD].next != b
      modifies bufs
      ensures bufs[..] == LinkFront(old(bufs[..]), b)
    {
      bufs[b] := bufs[b].(next := bufs[HEAD].next);
      bufs[b] := bufs[b].(prev := HEAD);
      var f := bufs[HEAD].next;
      bufs[f] := bufs[f].(prev := b);
      bufs[HEAD] := bufs[HEAD].(next := b);
    }

    /** bget's first loop: the first buffer in the list that is for id, HEAD if none is. */
    method Find(id: Id) returns (b: int)
      requires Valid()
      ensures 0 <= b <= NBUF && (b < NBUF ==> bufs[b].id == id && First(bufs[..], order, b))
      ensures b == HEAD ==> forall c :: 0 <= c < NBUF ==> bufs[c].id != id
    {
      hide CacheOk, Aged, Once, Counted, Coherent, At, Linked;
      Parts(Snapshot());
      ghost var k := 0;
      b := bufs[HEAD].next;
      while b != HEAD
        invariant 0 <= k <= NBUF && b == At(order, k)
        invariant forall i :: 0 <= i < k ==> bufs[order[i]].id != id
        decreases NBUF - k
      {
        AtRing(bufs[..], order, k);
        if bufs[b].id == id {
          return;
        }
        b, k := bufs[b].next, k + 1;
      }
      AtRing(bufs[..], order, k);
      forall c | 0 <= c < NBUF ensures bufs[c].id != id {
        assert c in order;
      }
    }

    /** bget's second loop: the last buffer in the list that nobody uses, HEAD if all are in use. */
    method FindUnused() returns (b: int)
      requires Valid()
      ensures 0 <= b <= NBUF && (b < NBUF ==> bufs[b].refcnt == 0)
      ensures b < NBUF ==> forall c :: 0 <= c < NBUF && bufs[c].refcnt == 0 ==> stamp[b] <= stamp[c]
      ensures b == HEAD ==> forall c :: 0 <= c < NBUF ==> bufs[c].refcnt != 0
    {
      hide CacheOk, Once, Counted, Coherent, At, Linked;
      Parts(Snapshot());
      ghost var k := NBUF - 1;
      b := bufs[HEAD].prev;
      while b != HEAD
        invariant -1 <= k < NBUF && b == At(order, k)
        invariant forall i :: k < i < NBUF ==> bufs[order[i]].refcnt != 0
        decreases k
      {
        AtRing(bufs[..], order, k);
        if bufs[b].refcnt == 0 {
          forall c | 0 <= c < NBUF && bufs[c].refcnt == 0 ensures stamp[b] <= stamp[c] {
            assert c in order;
          }
          return;
        }
        b, k := bufs[b].prev, k - 1;
      }
      AtRing(bufs[..], order, k);
      forall c | 0 <= c < NBUF ensures bufs[c].refcnt != 0 {
        assert c in order;
      }
    }

    /** bget up to its acquiresleep; -1 is its panic. The buffer returned is for the block asked for. A
        cached block is not given a second buffer, and only an unused buffer is taken over: of those the
        one whose last release is longest ago. */
    method Bget(t: int, dev: int, blockno: int) returns (b: int)
      requires Valid() && 0 < t && t !in refs
      modifies this, bufs
      ensures Valid() && store == old(store) && disk == old(disk) && pins == old(pins) && order == old(order)
      ensures stamp == old(stamp)
      ensures b == -1 <==> forall c :: 0 <= c < NBUF ==> old(bufs[c].id) != Id(dev, blockno) && old(bufs[c].refcnt) != 0
      ensures b == -1 ==> bufs[..] == old(bufs[..]) && refs == old(refs)
      ensures b != -1 ==> 0 <= b < NBUF && refs == old(refs)[t := Ref(b, Id(dev, blockno), Waiting)]
      ensures b != -1 ==> forall c :: 0 <= c < NBUF && c != b ==> bufs[c] == old(bufs[c])
      ensures b != -1 && (exists c :: 0 <= c < NBUF && old(bufs[c].id) == Id(dev, blockno)) ==>
                bufs[b] == old(bufs[b]).(refcnt := old(bufs[b].refcnt) + 1)
      ensures b != -1 && (forall c :: 0 <= c < NBUF ==> old(bufs[c].id) != Id(dev, blockno)) ==>
        && old(bufs[b].refcnt) == 0 && bufs[b] == old(bufs[b]).(id := Id(dev, blockno), valid := false, refcnt := 1)
        && (forall c :: 0 <= c < NBUF && old(bufs[c].refcnt) == 0 ==> stamp[b] <= stamp[c])
    {
      hide CacheOk;
      var id := Id(dev, blockno);
      Sizes(Snapshot());
      ghost var v, s := Snapshot(), bufs[..];
      b := Find(id);
      if b != HEAD {
        Claim(v, b, t);
        bufs[b] := bufs[b].(refcnt := bufs[b].refcnt + 1);
        refs := refs[t := Ref(b, id, Waiting)];
        assert bufs[..] == s[b := s[b].(refcnt := s[b].refcnt + 1)];
        return;
      }
      b := FindUnused();
      if b != HEAD {
        Recycle(v, b, t, id);
        bufs[b] := bufs[b].(id := id, valid := false, refcnt := 1);
        refs := refs[t := Ref(b, id, Waiting)];
        assert bufs[..] == s[b := s[b].(id := id, valid := false, refcnt := 1)];
        return;
      }
      b := -1;
    }

    /** t is the ticket of b's user, who is at that stage. */
    ghost predicate Mine(b: int, t: int, stage: Stage)
      reads this
    {
      t in refs && refs[t].b == b && refs[t].stage == stage && 0 <= b < NBUF
    }

    /** The end of bget: one look at the lock by acquiresleep; false means it sleeps, and looks again when woken. */
    method Acquire(b: int, t: int) returns (got: bool)
      requires Valid() && Mine(b, t, Waiting)
      modifies this`refs, bufs
      ensures Valid() && (got <==> old(bufs[b].holder) == 0)
      ensures got ==> refs == old(refs)[t := Ref(b, old(refs)[t].id, Held)]
      ensures got ==> bufs[..] == old(bufs[..])[b := old(bufs[b]).(holder := t)]
      ensures !got ==> refs == old(refs) && bufs[..] == old(bufs[..])
    {
      hide CacheOk;
      if bufs[b].holder != 0 {
        return false;
      }
      ghost var v, s := Snapshot(), bufs[..];
      bufs[b] := bufs[b].(holder := t);
      assert bufs[..] == s[b := s[b].(holder := t)];
      Parts(v);
      CoherentKept(s, bufs[..], pins, pins, disk, store);
      Advance(v, t, bufs[b], Held, disk, store);
      refs := refs[t := Ref(b, refs[t].id, Held)];
      got := true;
    }

    /** The rest of bread: its caller now has the block's current contents. */
    method Load(b: int, t: int)
      requires Valid() && Mine(b, t, Held) && bufs[b].id in disk
      modifies this, bufs
      ensures Valid() && store == old(store) && disk == old(disk) && pins == old(pins)
      ensures refs == old(refs)[t := Ref(b, old(refs)[t].id, Loaded)]
      ensures old(bufs[b].id) == old(refs)[t].id && old(bufs[b].id) in store
      ensures bufs[..] == old(bufs[..])[b := old(bufs[b]).(valid := true, data := store[old(bufs[b].id)])]
    {
      hide CacheOk;
      ghost var v, s := Snapshot(), bufs[..];
      Parts(v);
      InUse(s, refs, pins, t);
      Filled(s, order, pins, disk, store, b);
      if !bufs[b].valid {
        bufs[b] := bufs[b].(data := disk[bufs[b].id]);
        bufs[b] := bufs[b].(valid := true);
      }
      assert bufs[..] == s[b := bufs[b]] && bufs[b] == s[b].(valid := true, data := store[s[b].id]);
      Advance(v, t, bufs[b], Loaded, disk, store);
      refs := refs[t := Ref(b, refs[t].id, Loaded)];
    }

    /** The client changes the data of a buffer it has from bread: the one way the store changes. */
    method Modify(b: int, t: int, data: Block)
      requires Valid() && Mine(b, t, Loaded)
      modifies this, bufs
      ensures Valid() && store == old(store)[old(refs)[t].id := data] && disk == old(disk) && pins == old(pins)
      ensures refs == old(refs)
      ensures bufs[..] == old(bufs[..])[b := old(bufs[b]).(data := data)]
    {
      hide CacheOk;
      ghost var v, s := Snapshot(), bufs[..];
      Parts(v);
      InUse(s, refs, pins, t);
      ghost var store' := store[s[b].id := data];
      Changed(s, order, refs, pins, disk, store, b, t, data);
      bufs[b] := bufs[b].(data := data);
      assert bufs[..] == s[b := s[b].(data := data)];
      Advance(v, t, bufs[b], Loaded, disk, store');
      store := store';
      assert refs == refs[t := Ref(b, refs[t].id, Loaded)];
    }

    /** bwrite. */
    method Bwrite(b: int, t: int)
      requires Valid() && Mine(b, t, Loaded)
      modifies this
      ensures Valid() && store == old(store) && disk == old(disk)[old(refs)[t].id := bufs[b].data]
      ensures pins == old(pins) && refs == old(refs) && Clean(bufs[b], disk)
    {
      hide CacheOk;
      ghost var v, s := Snapshot(), bufs[..];
      Parts(v);
      InUse(s, refs, pins, t);
      WrittenBack(s, order, refs, pins, disk, store, b, t);
      ghost var disk' := disk[s[b].id := s[b].data];
      assert s == s[b := s[b]];
      Advance(v, t, s[b], Loaded, disk', store);
      disk := disk[bufs[b].id := bufs[b].data];
      assert refs == refs[t := Ref(b, refs[t].id, Loaded)];
    }

    /** The first half of brelse. The cache stays coherent exactly when the client has written the block, or has
        pinned it for the log. */
    method ReleaseSleep(b: int, t: int)
      requires Valid() && Mine(b, t, Loaded) && |pins| == NBUF
      modifies this, bufs
      ensures Valid() <==> old(Clean(bufs[b], disk)) || old(pins)[b] > 0
      ensures store == old(store) && disk == old(disk) && pins == old(pins)
      ensures refs == old(refs)[t := Ref(b, old(refs)[t].id, Released)]
      ensures bufs[..] == old(bufs[..])[b := old(bufs[b]).(holder := 0)]
    {
      hide CacheOk;
      ghost var v, s := Snapshot(), bufs[..];
      bufs[b] := bufs[b].(holder := 0);
      assert bufs[..] == s[b := s[b].(holder := 0)];
      Parts(v);
      if Clean(s[b], disk) || pins[b] > 0 {
        CoherentKept(s, bufs[..], pins, pins, disk, store);
        Advance(v, t, bufs[b], Released, disk, store);
      }
      refs := refs[t := Ref(b, refs[t].id, Released)];
      if CacheOk(Snapshot()) {
        Forsaken(Snapshot(), b);
      }
    }

    /** The second half of brelse. A buffer whose last user leaves becomes the most recently used. */
    method Put(b: int, t: int)
      requires Valid() && Mine(b, t, Released)
      modifies this, bufs
      ensures Valid() && store == old(store) && disk == old(disk) && pins == old(pins) && refs == old(refs) - {t}
      ensures forall c :: 0 <= c < NBUF ==>
        bufs[c] == old(bufs[c]).(refcnt := bufs[c].refcnt, prev := bufs[c].prev, next := bufs[c].next)
      ensures |stamp| == |old(stamp)| == NBUF && bufs[b].refcnt == old(bufs[b].refcnt) - 1
      ensures stamp == if bufs[b].refcnt == 0 then old(stamp)[b := old(clock)] else old(stamp)
    {
      hide CacheOk, Ring, Everyone, Aged, Once, Counted, Coherent, LinkFront, Unlink;
      ghost var v, s := Snapshot(), bufs[..];
      Parts(v);
      Sizes(v);
      InUse(s, refs, pins, t);
      InUseFirst(s, order, b);
      Unclaim(v, t);
      bufs[b] := bufs[b].(refcnt := bufs[b].refcnt - 1);
      refs := refs - {t};
      ghost var s1 := s[b := s[b].(refcnt := s[b].refcnt - 1)];
      assert bufs[..] == s1;
      if bufs[b].refcnt == 0 {
        ghost var k := MoveFront(Snapshot(), b);
        Detach(b);
        LinkAtFront(b);
        order, stamp, clock := [b] + (order[..k] + order[k + 1..]), stamp[b := clock], clock + 1;
        assert SameButLinks(s1, bufs[..]);
      }
    }

    /** Take b out of the list. */
    method Detach(b: int)
      requires bufs.Length == NBUF + 1 && 0 <= b < NBUF && 0 <= bufs[b].next <= NBUF && 0 <= bufs[b].prev <= NBUF
      requires bufs[b].next != b && bufs[b].prev != b
      modifies bufs
      ensures bufs[..] == Unlink(old(bufs[..]), b)
    {
      var n := bufs[b].next;
      bufs[n] := bufs[n].(prev := bufs[b].prev);
      var p := bufs[b].prev;
      bufs[p] := bufs[p].(next := bufs[b].next);
    }

    /** bpin, of a buffer in use. */
    method Bpin(b: int)
      requires Valid() && 0 <= b < NBUF && bufs[b].refcnt > 0
      modifies this, bufs
      ensures Valid() && store == old(store) && disk == old(disk) && refs == old(refs)
      ensures |pins| == |old(pins)| == NBUF && pins == old(pins)[b := old(pins)[b] + 1]
      ensures bufs[..] == old(bufs[..])[b := old(bufs[b]).(refcnt := old(bufs[b].refcnt) + 1)]
    {
      hide CacheOk;
      ghost var v, s := Snapshot(), bufs[..];
      Sizes(v);
      Repin(v, b, 1);
      bufs[b] := bufs[b].(refcnt := bufs[b].refcnt + 1);
      pins := pins[b := pins[b] + 1];
      assert bufs[..] == s[b := s[b].(refcnt := s[b].refcnt + 1)];
    }

    /** bunpin, of a pinned buffer. The cache stays coherent exactly when the block has been written, is still
        held, or has another pin. */
    method Bunpin(b: int)
      requires Valid() && 0 <= b < NBUF && |pins| == NBUF && pins[b] > 0
      modifies this, bufs
      ensures Valid() <==> old(Clean(bufs[b], disk)) || old(bufs[b].holder) != 0 || old(pins)[b] > 1
      ensures store == old(store) && disk == old(disk) && refs == old(refs)
      ensures |pins| == |old(pins)| == NBUF && pins == old(pins)[b := old(pins)[b] - 1]
      ensures bufs[..] == old(bufs[..])[b := old(bufs[b]).(refcnt := old(bufs[b].refcnt) - 1)]
    {
      hide CacheOk;
      ghost var v, s := Snapshot(), bufs[..];
      Pinned(v, b);
      if Clean(s[b], disk) || s[b].holder != 0 || pins[b] > 1 {
        Repin(v, b, -1);
      }
      bufs[b] := bufs[b].(refcnt := bufs[b].refcnt - 1);
      pins := pins[b := pins[b] - 1];
      assert bufs[..] == s[b := s[b].(refcnt := s[b].refcnt - 1)];
      if CacheOk(Snapshot()) {
        Forsaken(Snapshot(), b);
      }
    }
  }

  // ----- what each step keeps, over values

  lemma {:induction false} RingEmpty(s: seq<Buf>)
    requires |s| == NBUF + 1 && s[HEAD].next == HEAD && s[HEAD].prev == HEAD
    ensures Ring(s, []) && Descending([], 0)
  {
  }

  /** order is b-1, ..., 0: the list binit has built after b turns. */
  ghost predicate Descending(order: seq<int>, b: int) {
    |order| == b && forall i :: 0 <= i < |order| ==> order[i] == b - 1 - i
  }

  lemma {:induction false} RingHead(s: seq<Buf>, order: seq<int>)
    requires Ring(s, order)
    ensures |s| == NBUF + 1 && 0 <= s[HEAD].next <= NBUF && 0 <= s[HEAD].prev <= NBUF
  {
  }

  lemma {:induction false} SameBlank(s: seq<Buf>, s': seq<Buf>)
    requires SameButLinks(s, s')
    ensures forall i :: 0 <= i < NBUF && Blank(s[i]) && s[i].holder == 0 ==> Blank(s'[i]) && s'[i].holder == 0
  {
  }

  lemma {:induction false} FreshOk(s: seq<Buf>, order: seq<int>, disk: map<Id, Block>)
    requires Ring(s, order) && Descending(order, NBUF) && |s| == NBUF + 1
    requires forall i :: 0 <= i < NBUF ==> Blank(s[i]) && s[i].holder == 0
    ensures CacheOk(View(s, order, seq(NBUF, b => b), NBUF, map[], seq(NBUF, _ => 0), disk, disk))
  {
    hide Ring;
    forall b | 0 <= b < NBUF ensures b in order {
      assert order[NBUF - 1 - b] == b;
    }
    assert forall b :: Claims(map[], b) == {};
  }

  lemma {:induction false} Parts(v: View)
    requires CacheOk(v)
    ensures Ring(v.bufs, v.order) && Everyone(v.order) && Aged(v.order, v.stamp, v.clock) && Once(v.bufs, v.order)
    ensures Counted(v.bufs, v.refs, v.pins) && Coherent(v.bufs, v.pins, v.disk, v.store)
  {
  }

  lemma {:induction false} Sizes(v: View)
    requires CacheOk(v)
    ensures |v.bufs| == NBUF + 1 && |v.stamp| == NBUF && |v.pins| == NBUF
    ensures forall b :: 0 <= b < NBUF ==> v.pins[b] >= 0
  {
  }

  lemma {:induction false} AtRing(s: seq<Buf>, order: seq<int>, k: int)
    requires Ring(s, order) && -1 <= k <= |order|
    ensures 0 <= k < |order| ==>
      && At(order, k) == order[k] && order[k] != HEAD && 0 <= order[k] < NBUF
      && s[order[k]].next == At(order, k + 1) && s[order[k]].prev == At(order, k - 1)
    ensures k == -1 || k == |order| ==> At(order, k) == HEAD
  {
    if 0 <= k < |order| { assert Linked(s, order, k); }
  }

  /** No buffer before b in the list is for the same block. */
  ghost predicate First(s: seq<Buf>, order: seq<int>, b: int)
    requires |s| == NBUF + 1 && 0 <= b < NBUF && forall i :: 0 <= i < |order| ==> 0 <= order[i] < NBUF
  {
    forall i, j :: 0 <= i < j < |order| && order[j] == b ==> s[order[i]].id != s[b].id
  }

  lemma {:induction false} InUseFirst(s: seq<Buf>, order: seq<int>, b: int)
    requires Once(s, order) && 0 <= b < NBUF && !Blank(s[b])
    ensures First(s, order, b)
  {
  }

  /** A first buffer may change, short of its identity and links. */
  lemma {:induction false} Touch(s: seq<Buf>, order: seq<int>, b: int, buf: Buf)
    requires Ring(s, order) && Everyone(order) && Once(s, order) && 0 <= b < NBUF && First(s, order, b)
    requires buf.id == s[b].id && buf.prev == s[b].prev && buf.next == s[b].next
    ensures Ring(s[b := buf], order) && Once(s[b := buf], order)
  {
    var s' := s[b := buf];
    forall i | 0 <= i < |order| ensures Linked(s', order, i) {
      assert Linked(s, order, i);
    }
  }

  /** Two buffers in use are for different blocks. */
  lemma {:induction false} OneBuffer(s: seq<Buf>, order: seq<int>, b: int, c: int)
    requires Once(s, order) && Everyone(order) && 0 <= b < NBUF && 0 <= c < NBUF && b != c && s[b].id == s[c].id
    ensures Blank(s[b]) || Blank(s[c])
  {
    assert b in order && c in order;
  }

  /** In every state: buffers that share an identity are for device 0, block 0, and all but one of them
      have never been used. */
  lemma {:induction false} SharedIdentity(v: View, b: int, c: int)
    requires CacheOk(v)
    requires 0 <= b < NBUF && 0 <= c < NBUF && b != c && v.bufs[b].id == v.bufs[c].id
    ensures v.bufs[b].id == Id(0, 0) && (Blank(v.bufs[b]) || Blank(v.bufs[c]))
  {
    OneBuffer(v.bufs, v.order, b, c);
  }

  /** In every state: whoever has a block from bread has its current contents, and is alone in having it;
      whoever waits for it will get that block; a buffer without users or pins agrees with the disk. */
  lemma {:induction false} CurrentContents(v: View, t: int, u: int)
    requires CacheOk(v) && t in v.refs && u in v.refs
    ensures 0 <= v.refs[t].b < NBUF && v.bufs[v.refs[t].b].id == v.refs[t].id && v.bufs[v.refs[t].b].refcnt > 0
    ensures v.refs[t].stage.Loaded? ==> v.refs[t].id in v.store && v.bufs[v.refs[t].b].data == v.store[v.refs[t].id]
    ensures v.refs[t].stage.Loaded? && v.refs[u].stage.Loaded? && v.refs[t].id == v.refs[u].id ==> t == u
    ensures forall b :: 0 <= b < NBUF && v.bufs[b].refcnt == 0 ==> Clean(v.bufs[b], v.disk)
  {
    InUse(v.bufs, v.refs, v.pins, t);
    InUse(v.bufs, v.refs, v.pins, u);
    if v.refs[t].b != v.refs[u].b && v.refs[t].id == v.refs[u].id {
      OneBuffer(v.bufs, v.order, v.refs[t].b, v.refs[u].b);
    }
    forall b | 0 <= b < NBUF && v.bufs[b].refcnt == 0 ensures Clean(v.bufs[b], v.disk) {
      Unclaimed(v.bufs, v.refs, v.pins, b);
    }
  }

  lemma {:induction false} NewClaim(refs: map<int, Ref>, t: int, r: Ref)
    requires t !in refs
    ensures forall c :: Claims(refs[t := r], c) == if c == r.b then Claims(refs, c) + {t} else Claims(refs, c)
    ensures forall c :: |Claims(refs[t := r], c)| == |Claims(refs, c)| + if c == r.b then 1 else 0
  {
    forall c ensures Claims(refs[t := r], c) == if c == r.b then Claims(refs, c) + {t} else Claims(refs, c) {
    }
  }

  lemma {:induction false} Claim(v: View, b: int, t: int)
    requires CacheOk(v)
    requires 0 < t && t !in v.refs && 0 <= b < NBUF && First(v.bufs, v.order, b)
    ensures CacheOk(v.(bufs := v.bufs[b := v.bufs[b].(refcnt := v.bufs[b].refcnt + 1)],
                       refs := v.refs[t := Ref(b, v.bufs[b].id, Waiting)]))
  {
    hide CacheOk, Ring, Once, Everyone, Aged, Coherent, Counted;
    Parts(v);
    Sizes(v);
    var s' := v.bufs[b := v.bufs[b].(refcnt := v.bufs[b].refcnt + 1)];
    Touch(v.bufs, v.order, b, s'[b]);
    CountedMore(v.bufs, v.refs, v.pins, t, b, s'[b]);
    CoherentKept(v.bufs, s', v.pins, v.pins, v.disk, v.store);
    Whole(v.(bufs := s', refs := v.refs[t := Ref(b, v.bufs[b].id, Waiting)]));
  }

  /** A new ticket for a buffer, which keeps its identity or is taken over from nobody. */
  lemma {:induction false} CountedMore(s: seq<Buf>, refs: map<int, Ref>, pins: seq<int>, t: int, b: int, buf: Buf)
    requires Counted(s, refs, pins) && 0 < t && t !in refs && 0 <= b < NBUF && buf.refcnt == s[b].refcnt + 1
    requires buf.holder == s[b].holder
    requires s[b].refcnt == 0 || (buf.id == s[b].id && buf.valid == s[b].valid)
    ensures Counted(s[b := buf], refs[t := Ref(b, buf.id, Waiting)], pins)
  {
    NewClaim(refs, t, Ref(b, buf.id, Waiting));
    if s[b].refcnt == 0 { Unclaimed(s, refs, pins, b); }
    hide Claims;
  }

  /** Coherence is about identity, contents and validity only, and about the buffers nobody holds. */
  lemma {:induction false} CoherentKept(s: seq<Buf>, s': seq<Buf>, pins: seq<int>, pins': seq<int>,
                                        disk: map<Id, Block>, store: map<Id, Block>)
    requires Coherent(s, pins, disk, store) && |s'| == NBUF + 1 && |pins'| == NBUF
    requires forall b :: 0 <= b < NBUF ==> s'[b].id == s[b].id && s'[b].valid == s[b].valid && s'[b].data == s[b].data
    requires forall b :: 0 <= b < NBUF && pins'[b] == 0 && s'[b].holder == 0 ==>
               (pins[b] == 0 && s[b].holder == 0) || Clean(s[b], disk)
    ensures Coherent(s', pins', disk, store)
  {
    forall id | Cached(s, id) ensures Cached(s', id) {
      var b :| 0 <= b < NBUF && s[b].id == id && s[b].valid;
      assert s'[b].id == id;
    }
    hide Cached;
  }

  lemma {:induction false} Recycle(v: View, b: int, t: int, id: Id)
    requires CacheOk(v)
    requires 0 < t && t !in v.refs && 0 <= b < NBUF && v.bufs[b].refcnt == 0
    requires forall c :: 0 <= c < NBUF ==> v.bufs[c].id != id
    ensures CacheOk(v.(bufs := v.bufs[b := v.bufs[b].(id := id, valid := false, refcnt := 1)],
                       refs := v.refs[t := Ref(b, id, Waiting)]))
  {
    hide CacheOk, Aged, Coherent, Counted;
    Parts(v);
    Sizes(v);
    var s' := v.bufs[b := v.bufs[b].(id := id, valid := false, refcnt := 1)];
    assert Ring(s', v.order) && Once(s', v.order) by {
      forall i | 0 <= i < |v.order| ensures Linked(s', v.order, i) {
        assert Linked(v.bufs, v.order, i);
      }
    }
    hide Ring, Once, Everyone;
    Unclaimed(v.bufs, v.refs, v.pins, b);
    CountedMore(v.bufs, v.refs, v.pins, t, b, s'[b]);
    Dropped(v.bufs, s', v.pins, v.disk, v.store, b);
    Whole(v.(bufs := s', refs := v.refs[t := Ref(b, id, Waiting)]));
  }

  /** Giving up a buffer that agrees with the disk loses nothing. */
  lemma {:induction false} Dropped(s: seq<Buf>, s': seq<Buf>, pins: seq<int>, disk: map<Id, Block>,
                                   store: map<Id, Block>, b: int)
    requires Coherent(s, pins, disk, store) && |s'| == NBUF + 1 && 0 <= b < NBUF
    requires pins[b] == 0 && s[b].holder == 0 && !s'[b].valid
    requires forall c :: 0 <= c < NBUF && c != b ==> s'[c] == s[c]
    ensures Coherent(s', pins, disk, store)
  {
    forall id | Cached(s, id) && id in disk && store[id] != disk[id] ensures Cached(s', id) {
      var c :| 0 <= c < NBUF && s[c].id == id && s[c].valid;
      assert s'[c].id == id;
    }
    hide Cached;
  }

  lemma {:induction false} Unclaimed(s: seq<Buf>, refs: map<int, Ref>, pins: seq<int>, b: int)
    requires Counted(s, refs, pins) && 0 <= b < NBUF && s[b].refcnt == 0
    ensures s[b].holder == 0 && pins[b] == 0 && forall t :: t in refs ==> refs[t].b != b
  {
    assert Claims(refs, b) == {};
    forall t | t in refs ensures refs[t].b != b {
      assert t !in Claims(refs, b);
    }
  }

  /** A ticket's buffer is in use. */
  lemma {:induction false} InUse(s: seq<Buf>, refs: map<int, Ref>, pins: seq<int>, t: int)
    requires Counted(s, refs, pins) && t in refs
    ensures 0 <= refs[t].b < NBUF && s[refs[t].b].refcnt > 0
  {
    assert t in Claims(refs, refs[t].b);
  }

  /** Ticket t moves on to another stage and changes its buffer, whose lock it has or takes. */
  lemma {:induction false} Advance(v: View, t: int, buf: Buf, stage: Stage, disk': map<Id, Block>,
                                   store': map<Id, Block>)
    requires CacheOk(v) && t in v.refs && 0 <= v.refs[t].b < NBUF
    requires |v.bufs| == NBUF + 1
    requires var was := v.bufs[v.refs[t].b];
      && buf == was.(valid := buf.valid, data := buf.data, holder := buf.holder) && (was.holder == 0 || was.holder == t)
    requires buf.holder == (if stage.Held? || stage.Loaded? then t else 0) && (stage.Loaded? ==> buf.valid)
    requires Coherent(v.bufs[v.refs[t].b := buf], v.pins, disk', store')
    ensures CacheOk(v.(bufs := v.bufs[v.refs[t].b := buf], refs := v.refs[t := Ref(v.refs[t].b, v.refs[t].id, stage)],
                       disk := disk', store := store'))
  {
    var b, refs' := v.refs[t].b, v.refs[t := Ref(v.refs[t].b, v.refs[t].id, stage)];
    InUse(v.bufs, v.refs, v.pins, t);
    InUseFirst(v.bufs, v.order, b);
    Touch(v.bufs, v.order, b, buf);
    forall c ensures Claims(refs', c) == Claims(v.refs, c) {
    }
    hide Claims, Ring, Once, Everyone, Aged, Coherent;
  }

  /** What bread reads is what the block holds. */
  lemma {:induction false} Filled(s: seq<Buf>, order: seq<int>, pins: seq<int>, disk: map<Id, Block>,
                                  store: map<Id, Block>, b: int)
    requires Coherent(s, pins, disk, store) && Once(s, order) && Everyone(order)
    requires 0 <= b < NBUF && s[b].refcnt > 0 && s[b].id in disk
    ensures Coherent(if s[b].valid then s else s[b := s[b].(data := disk[s[b].id], valid := true)], pins, disk, store)
    ensures store[s[b].id] == if s[b].valid then s[b].data else disk[s[b].id]
  {
    if !s[b].valid {
      var s' := s[b := s[b].(data := disk[s[b].id], valid := true)];
      if Cached(s, s[b].id) {
        var c :| 0 <= c < NBUF && s[c].id == s[b].id && s[c].valid;
        OneBuffer(s, order, b, c);
        assert false;
      }
      forall id | Cached(s, id) ensures Cached(s', id) {
        var c :| 0 <= c < NBUF && s[c].id == id && s[c].valid;
        assert s'[c].id == id;
      }
      hide Cached;
    }
  }

  /** New data in a held buffer is new data in the store. */
  lemma {:induction false} Changed(s: seq<Buf>, order: seq<int>, refs: map<int, Ref>, pins: seq<int>,
                                   disk: map<Id, Block>, store: map<Id, Block>, b: int, t: int, data: Block)
    requires Coherent(s, pins, disk, store) && Once(s, order) && Everyone(order) && Counted(s, refs, pins)
    requires 0 <= b < NBUF && s[b].refcnt > 0 && s[b].holder != 0 && s[b].valid
    ensures Coherent(s[b := s[b].(data := data)], pins, disk, store[s[b].id := data])
  {
    var s' := s[b := s[b].(data := data)];
    forall c | 0 <= c < NBUF && c != b && s[c].valid ensures s[c].id != s[b].id {
      if s[c].id == s[b].id { OneBuffer(s, order, b, c); }
    }
    forall id | Cached(s, id) ensures Cached(s', id) {
      var c :| 0 <= c < NBUF && s[c].id == id && s[c].valid;
      assert s'[c].id == id;
    }
    assert Cached(s', s[b].id) by { assert s'[b].valid; }
    hide Cached, Once, Everyone, Counted;
  }

  /** Writing a held buffer's data brings the disk up to the store. */
  lemma {:induction false} WrittenBack(s: seq<Buf>, order: seq<int>, refs: map<int, Ref>, pins: seq<int>,
                                       disk: map<Id, Block>, store: map<Id, Block>, b: int, t: int)
    requires Coherent(s, pins, disk, store) && Once(s, order) && Everyone(order) && Counted(s, refs, pins)
    requires 0 <= b < NBUF && s[b].refcnt > 0 && s[b].valid
    ensures Coherent(s, pins, disk[s[b].id := s[b].data], store)
  {
    forall c | 0 <= c < NBUF && c != b && s[c].valid ensures s[c].id != s[b].id {
      if s[c].id == s[b].id { OneBuffer(s, order, b, c); }
    }
    hide Cached, Once, Everyone, Counted;
  }

  /** A ticket given back. */
  lemma {:induction false} Unclaim(v: View, t: int)
    requires CacheOk(v) && t in v.refs && v.refs[t].stage.Released?
    requires 0 <= v.refs[t].b < NBUF && First(v.bufs, v.order, v.refs[t].b)
    ensures var b := v.refs[t].b; var s' := v.bufs[b := v.bufs[b].(refcnt := v.bufs[b].refcnt - 1)];
      CacheOk(v.(bufs := s', refs := v.refs - {t})) && First(s', v.order, b)
  {
    hide CacheOk, Claims, Ring, Once, Everyone, Aged, Coherent, Counted;
    Parts(v);
    var b := v.refs[t].b;
    var s' := v.bufs[b := v.bufs[b].(refcnt := v.bufs[b].refcnt - 1)];
    Touch(v.bufs, v.order, b, s'[b]);
    CoherentKept(v.bufs, s', v.pins, v.pins, v.disk, v.store);
    CountedLess(v.bufs, v.refs, v.pins, t);
    Whole(v.(bufs := s', refs := v.refs - {t}));
  }

  lemma {:induction false} CountedLess(s: seq<Buf>, refs: map<int, Ref>, pins: seq<int>, t: int)
    requires Counted(s, refs, pins) && t in refs && refs[t].stage.Released? && 0 <= refs[t].b < NBUF
    ensures var b := refs[t].b; Counted(s[b := s[b].(refcnt := s[b].refcnt - 1)], refs - {t}, pins)
  {
    var b := refs[t].b;
    forall c ensures |Claims(refs - {t}, c)| == |Claims(refs, c)| - if c == b then 1 else 0 {
      assert Claims(refs - {t}, c) == Claims(refs, c) - {t};
    }
    hide Claims;
  }

  lemma {:induction false} Whole(v: View)
    requires Ring(v.bufs, v.order) && Everyone(v.order) && Aged(v.order, v.stamp, v.clock) && Once(v.bufs, v.order)
    requires Counted(v.bufs, v.refs, v.pins) && Coherent(v.bufs, v.pins, v.disk, v.store)
    ensures CacheOk(v)
  {
  }

  /** A buffer that is first for its block becomes first of all. */
  lemma {:induction false} MoveFront(v: View, b: int)
    returns (k: int)
    requires CacheOk(v) && 0 <= b < NBUF && First(v.bufs, v.order, b)
    ensures 0 <= k < |v.order| && 0 <= v.bufs[b].next <= NBUF && 0 <= v.bufs[b].prev <= NBUF && v.bufs[b].next != b
    ensures v.bufs[b].prev != b
    ensures var u := Unlink(v.bufs, b);
      && |u| == NBUF + 1 && 0 <= u[HEAD].next <= NBUF && u[HEAD].next != b
      && var f := LinkFront(u, b);
      && SameButLinks(v.bufs, f)
      && CacheOk(v.(bufs := f, order := [b] + (v.order[..k] + v.order[k + 1..]), stamp := v.stamp[b := v.clock],
                    clock := v.clock + 1))
  {
    hide CacheOk, Claims, Ring, Once, Aged, Coherent, Counted, SameButLinks, LinkFront, Unlink;
    Parts(v);
    k := MoveRing(v.bufs, v.order, b);
    var f := LinkFront(Unlink(v.bufs, b), b);
    SameParts(v.bufs, f);
    MovedOrder(v.bufs, f, v.order, v.stamp, v.clock, k);
    CoherentKept(v.bufs, f, v.pins, v.pins, v.disk, v.store);
    CountedSame(v.bufs, f, v.refs, v.pins);
    Whole(v.(bufs := f, order := [b] + (v.order[..k] + v.order[k + 1..]), stamp := v.stamp[b := v.clock],
             clock := v.clock + 1));
  }

  lemma {:induction false} SameParts(s: seq<Buf>, f: seq<Buf>)
    requires SameButLinks(s, f)
    ensures |s| == NBUF + 1 && |f| == NBUF + 1
    ensures forall b :: 0 <= b < NBUF ==>
               f[b].id == s[b].id && f[b].valid == s[b].valid && f[b].data == s[b].data && f[b].holder == s[b].holder
  {
  }

  lemma {:induction false} CountedSame(s: seq<Buf>, f: seq<Buf>, refs: map<int, Ref>, pins: seq<int>)
    requires Counted(s, refs, pins) && SameButLinks(s, f)
    ensures Counted(f, refs, pins)
  {
    hide Claims;
  }

  lemma {:induction false} MoveRing(s: seq<Buf>, order: seq<int>, b: int) returns (k: int)
    requires Ring(s, order) && Everyone(order) && 0 <= b < NBUF
    ensures 0 <= k < |order| && order[k] == b && 0 <= s[b].next <= NBUF && 0 <= s[b].prev <= NBUF && s[b].next != b
    ensures s[b].prev != b
    ensures forall i, j :: 0 <= i < j < |order| ==> order[i] != order[j]
    ensures var u := Unlink(s, b);
      && |u| == NBUF + 1 && 0 <= u[HEAD].next <= NBUF && u[HEAD].next != b
      && SameButLinks(s, LinkFront(u, b)) && Ring(LinkFront(u, b), [b] + (order[..k] + order[k + 1..]))
  {
    assert b in order;
    k :| 0 <= k < |order| && order[k] == b;
    assert Linked(s, order, k);
    hide LinkFront;
    UnlinkRing(s, order, k);
    var rest := order[..k] + order[k + 1..];
    PushRing(Unlink(s, b), rest, b);
    RingHead(Unlink(s, b), rest);
  }

  lemma {:induction false} MovedOrder(s: seq<Buf>, f: seq<Buf>, order: seq<int>, stamp: seq<int>, clock: int, k: int)
    requires Everyone(order) && Aged(order, stamp, clock) && Once(s, order) && SameButLinks(s, f)
    requires 0 <= k < |order| && First(s, order, order[k]) && forall i, j :: 0 <= i < j < |order| ==>
               order[i] != order[j]
    ensures var o := [order[k]] + (order[..k] + order[k + 1..]);
      Everyone(o) && Aged(o, stamp[order[k] := clock], clock + 1) && Once(f, o)
  {
    MovedAge(order, stamp, clock, k);
    hide Everyone, Aged;
    var o := [order[k]] + (order[..k] + order[k + 1..]);
    forall i, j | 0 <= i < j < |o| && f[o[i]].id == f[o[j]].id ensures Blank(f[o[j]]) {
      assert o[i] == order[From(k, i)] && o[j] == order[From(k, j)];
      assert Blank(s[o[j]]);
    }
  }

  lemma {:induction false} MovedAge(order: seq<int>, stamp: seq<int>, clock: int, k: int)
    requires Everyone(order) && Aged(order, stamp, clock)
    requires 0 <= k < |order| && forall i, j :: 0 <= i < j < |order| ==> order[i] != order[j]
    ensures var o := [order[k]] + (order[..k] + order[k + 1..]);
      && |o| == NBUF && Everyone(o) && Aged(o, stamp[order[k] := clock], clock + 1)
      && forall i :: 0 <= i < NBUF ==> 0 <= o[i] < NBUF
  {
    var o := [order[k]] + (order[..k] + order[k + 1..]);
    assert forall i :: 0 <= i < |o| ==> o[i] == order[From(k, i)];
    forall c | 0 <= c < NBUF ensures c in o {
      assert c in order;
      var i :| 0 <= i < |order| && order[i] == c;
      assert o[if i == k then 0 else if i < k then i + 1 else i] == c;
    }
  }

  /** Where the buffer at position i was before the one at k moved to the front. */
  ghost function From(k: int, i: int): int { if i == 0 then k else if i <= k then i - 1 else i }

  lemma {:induction false} Pinned(v: View, b: int)
    requires CacheOk(v) && 0 <= b < NBUF && |v.pins| == NBUF && v.pins[b] > 0
    ensures |v.bufs| == NBUF + 1 && v.bufs[b].refcnt > 0
  {
  }

  /** A buffer that nobody has locked or pinned has nothing that the disk has not. */
  lemma {:induction false} Forsaken(v: View, b: int)
    requires CacheOk(v) && 0 <= b < NBUF
    ensures |v.bufs| == NBUF + 1 && |v.pins| == NBUF && 0 <= v.pins[b]
    ensures v.pins[b] > 0 || v.bufs[b].holder != 0 || Clean(v.bufs[b], v.disk)
  {
  }

  /** A pin set or taken away. */
  lemma {:induction false} Repin(v: View, b: int, d: int)
    requires CacheOk(v) && |v.bufs| == NBUF + 1 && |v.pins| == NBUF
    requires 0 <= b < NBUF && v.bufs[b].refcnt > 0 && v.pins[b] + d >= 0
    requires v.pins[b] + d == 0 ==> Clean(v.bufs[b], v.disk) || v.bufs[b].holder != 0
    ensures CacheOk(v.(bufs := v.bufs[b := v.bufs[b].(refcnt := v.bufs[b].refcnt + d)],
                       pins := v.pins[b := v.pins[b] + d]))
  {
    var s', pins' := v.bufs[b := v.bufs[b].(refcnt := v.bufs[b].refcnt + d)], v.pins[b := v.pins[b] + d];
    InUseFirst(v.bufs, v.order, b);
    Touch(v.bufs, v.order, b, s'[b]);
    CoherentKept(v.bufs, s', v.pins, pins', v.disk, v.store);
    hide Claims, Ring, Once, Everyone, Aged, Coherent;
  }
}
