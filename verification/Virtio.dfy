/** kernel/virtio_disk.c: the driver's side of the request protocol (sections 2.6 and 5.2 of VIRTIO 1.1),
    with the device as an environment that fetches and completes requests when and in what order it likes, and that
    knows of a request only what it finds in the shared memory.
    A method is what happens under vdisk_lock between two points where the lock is given up, one turn of the
    interrupt handler's loop, or one act of the device. */
module Virtio {
  import opened Common
  import opened VirtioRing

  /** Everything the driver and the device keep, as a value. */
  datatype Shared = Shared(free: seq<bool>, desc: seq<Desc>, info: seq<Info>, ops: seq<Op>,
                           availRing: seq<int>, availIdx: int, usedRing: seq<int>, usedIdx: int, seenIdx: int,
                           busy: set<int>, flight: map<int, Req>, owner: seq<int>,
                           fetched: nat, queue: seq<int>, seen: nat, pending: seq<int>, data: map<int, seq<int>>,
                           media: seq<int>, base: seq<int>, hist: seq<Act>)

  ghost predicate DiskOk(v: Shared) {
    && Chains(v.free, v.flight, v.owner) && Requests(v.desc, v.info, v.ops, v.flight, v.owner)
    && Buffers(v.flight, v.busy)
    && Ring(v.availRing, v.availIdx, v.fetched, v.queue) && Lists(v.queue, v.flight, Queued)
    && Ring(v.usedRing, v.usedIdx, v.seen, v.pending) && Lists(v.pending, v.flight, Done)
    && v.seenIdx == v.seen % UINT16 && Moves(v.data, v.media, v.base, v.hist, v.flight)
  }

  class Disk {
    const free: array<bool>
    const desc: array<Desc>
    const info: array<Info>
    const ops: array<Op>
    const availRing: array<int>
    var availIdx: int
    const usedRing: array<int>
    /** used->idx, which the device counts up */
    var usedIdx: int
    /** the driver's used_idx */
    var seenIdx: int
    /** the buffers with b->disk == 1 */
    var busy: set<int>
    /** b->data of each buffer, and the device's medium */
    var data: map<int, seq<int>>
    var media: seq<int>

    ghost var flight: map<int, Req>
    ghost var owner: seq<int>
    /** avail entries the device has fetched, and the heads of those it has not */
    ghost var fetched: nat
    ghost var queue: seq<int>
    /** used entries the driver has seen, and the heads of those it has not */
    ghost var seen: nat
    ghost var pending: seq<int>
    /** the medium at the start, and the requests served since */
    ghost var base: seq<int>
    ghost var hist: seq<Act>

    ghost predicate Valid()
      reads this, free, desc, info, ops, availRing, usedRing
    {
      && free.Length == desc.Length == info.Length == ops.Length == availRing.Length == usedRing.Length == NUM
      && availRing != usedRing && DiskOk(Snapshot())
    }

    ghost function Snapshot(): Shared
      reads this, free, desc, info, ops, availRing, usedRing
    {
      Shared(free[..], desc[..], info[..], ops[..], availRing[..], availIdx, usedRing[..], usedIdx, seenIdx, busy,
             flight, owner, fetched, queue, seen, pending, data, media, base, hist)
    }

    /** The memory virtio_disk_init sets up: zeroed pages, all descriptors free. */
    constructor (data: map<int, seq<int>>, media: seq<int>)
      ensures Valid() && flight == map[] && busy == {} && this.data == data && this.media == base == media && hist == []
      ensures fresh(free) && fresh(desc) && fresh(info) && fresh(ops) && fresh(availRing) && fresh(usedRing)
    {
      free := new bool[NUM](_ => true);
      desc := new Desc[NUM](_ => Desc(Null, 0, false, false, 0));
      info := new Info[NUM](_ => Info(0, 0));
      ops := new Op[NUM](_ => Op(false, 0));
      availRing := new int[NUM](_ => 0);
      usedRing := new int[NUM](_ => 0);
      availIdx, usedIdx, seenIdx, busy := 0, 0, 0, {};
      this.data, this.media, base, hist := data, media, media, [];
      flight, owner, fetched, queue, seen, pending := map[], seq(NUM, _ => -1), 0, [], 0, [];
      new;
      hide Requests, Moves;
      NothingYet(Snapshot());
    }

    /** alloc_desc: the first free descriptor, -1 if none is. */
    method AllocDesc() returns (i: int)
      requires free.Length == NUM
      modifies free
      ensures -1 <= i < NUM && (i == -1 <==> forall k :: 0 <= k < NUM ==> !old(free[k]))
      ensures i != -1 ==> old(free[i]) && forall k :: 0 <= k < i ==> !old(free[k])
      ensures forall k :: 0 <= k < NUM ==> free[k] == (old(free[k]) && k != i)
    {
      i := 0;
      while i < NUM
        invariant 0 <= i <= NUM && free[..] == old(free[..]) && forall k :: 0 <= k < i ==> !free[k]
      {
        if free[i] {
          free[i] := false;
          return;
        }
        i := i + 1;
      }
      i := -1;
    }

    /** free_desc; its two panics are the precondition. */
    method FreeDesc(i: int)
      requires free.Length == desc.Length == NUM && 0 <= i < NUM && !free[i]
      modifies free, desc
      ensures free[..] == old(free[..])[i := true]
      ensures desc[..] == old(desc[..])[i := Desc(Null, 0, false, false, 0)]
    {
      desc[i] := Desc(Null, 0, false, false, 0);
      free[i] := true;
    }

    /** alloc3_desc's way back: the descriptors it did get. */
    method GiveBack(idx: seq<int>)
      requires free.Length == desc.Length == NUM && |idx| <= 2
      requires forall k :: 0 <= k < |idx| ==> 0 <= idx[k] < NUM && !free[idx[k]]
      requires forall j, k :: 0 <= j < k < |idx| ==> idx[j] < idx[k]
      modifies free, desc
      ensures forall k :: 0 <= k < NUM ==> free[k] == (old(free[k]) || k in idx)
      ensures forall k :: 0 <= k < NUM && k !in idx ==> desc[k] == old(desc[k])
    {
      var j := 0;
      while j < |idx|
        invariant 0 <= j <= |idx|
        invariant forall k :: 0 <= k < NUM ==> free[k] == (old(free[k]) || k in idx[..j])
        invariant forall k :: 0 <= k < NUM && k !in idx[..j] ==> desc[k] == old(desc[k])
      {
        ghost var f, d := free[..], desc[..];
        assert idx[..j + 1] == idx[..j] + [idx[j]];
        FreeDesc(idx[j]);
        assert forall k :: 0 <= k < NUM ==> free[k] == free[..][k] && desc[k] == desc[..][k];
        j := j + 1;
      }
      assert idx[..j] == idx;
    }

    /** alloc3_desc: three free descriptors, or nothing changed but the contents of free descriptors. */
    method Alloc3() returns (ok: bool, idx: seq<int>)
      requires free.Length == desc.Length == NUM
      modifies free, desc
      ensures ok ==> |idx| == 3 && 0 <= idx[0] < idx[1] < idx[2] < NUM && desc[..] == old(desc[..])
      ensures ok ==> (forall k :: 0 <= k < 3 ==> old(free[idx[k]])) && forall k :: 0 <= k < NUM ==>
                 free[k] == (old(free[k]) && k !in idx)
      ensures !ok ==> free[..] == old(free[..]) && forall k :: 0 <= k < NUM && !free[k] ==> desc[k] == old(desc[k])
      ensures !ok ==> |FreeSet(free[..])| <= 2
    {
      idx := [];
      var i := 0;
      while i < 3
        invariant 0 <= i == |idx| <= 3 && desc[..] == old(desc[..])
        invariant forall k :: 0 <= k < i ==> 0 <= idx[k] < NUM && old(free[idx[k]])
        invariant forall j, k :: 0 <= j < k < i ==> idx[j] < idx[k]
        invariant forall k :: 0 <= k < NUM ==> free[k] == (old(free[k]) && k !in idx)
        invariant forall j, k :: 0 <= j < i && 0 <= k < idx[j] ==> !free[k]
      {
        var d := AllocDesc();
        if d < 0 {
          FewFree(old(free[..]), idx);
          GiveBack(idx);
          return false, idx;
        }
        idx := idx + [d];
        i := i + 1;
      }
      ok := true;
    }

    /** virtio_disk_rw's formatting of the three descriptors. */
    method Format(b: int, write: bool, sector: int, idx: seq<int>)
      requires desc.Length == info.Length == ops.Length == NUM && |idx| == 3 && 0 <= idx[0] < idx[1] < idx[2] < NUM
      modifies desc, info, ops
      ensures forall bytes, start, at :: Formatted(desc[..], info[..], ops[..], idx[0],
                                                   Req(b, write, sector, idx[1], idx[2], Queued, bytes, start, at))
      ensures forall k :: 0 <= k < NUM && k != idx[0] && k != idx[1] && k != idx[2] ==>
                desc[..][k] == old(desc[..])[k] && info[..][k] == old(info[..])[k] && ops[..][k] == old(ops[..])[k]
    {
      var h := idx[0];
      ops[h] := Op(write, sector);
      desc[h] := Desc(Header(h), 16, true, false, idx[1]);
      desc[idx[1]] := Desc(Data(b), 1024, true, !write, idx[2]);
      info[h] := info[h].(status := 0xff);
      desc[idx[2]] := Desc(Status(h), 1, false, true, 0);
      info[h] := info[h].(b := b);
    }

    /** virtio_disk_rw once it has its descriptors, which were free in free0. */
    method Publish(b: int, write: bool, sector: int, idx: seq<int>, ghost free0: seq<bool>)
      requires free.Length == desc.Length == info.Length == ops.Length == availRing.Length == usedRing.Length == NUM
      requires availRing != usedRing
      requires DiskOk(Snapshot().(free := free0))
      requires |idx| == 3 && 0 <= idx[0] < idx[1] < idx[2] < NUM && |free0| == NUM && free0[idx[0]] && free0[idx[1]]
      requires free0[idx[2]]
      requires forall k :: 0 <= k < NUM ==> free[..][k] == (free0[k] && k != idx[0] && k != idx[1] && k != idx[2])
      requires forall g :: g in flight ==> flight[g].b != b
      requires b in data && |data[b]| == 1024 && 0 <= sector && 512 * sector + 1024 <= |media|
      modifies this, desc, info, ops, availRing
      ensures Valid() && idx[0] !in old(flight) && busy == old(busy) + {b} && queue == old(queue) + [idx[0]]
      ensures flight == old(flight)[idx[0] := Req(b, write, sector, idx[1], idx[2], Queued, data[b], |hist|, 0)]
      ensures pending == old(pending) && fetched == old(fetched) && seen == old(seen)
      ensures data == old(data) && media == old(media) && hist == old(hist) && base == old(base)
    {
      hide DiskOk, Chains, Requests, Buffers, Ring, Lists, Formatted, InChain, FreeSet, Moves;
      ghost var v := Snapshot().(free := free0);
      var h := idx[0];
      ghost var r := Req(b, write, sector, idx[1], idx[2], Queued, data[b], |hist|, 0);
      IndexNat(v);
      Format(b, write, sector, idx);
      busy := busy + {b};
      availRing[availIdx % NUM] := h;
      availIdx := (availIdx + 1) % UINT16;
      assert availRing[..] == v.availRing[v.availIdx % NUM := h];
      flight, owner, queue := flight[h := r], owner[h := h][r.mid := h][r.tail := h], queue + [h];
      Published(v, Snapshot(), h, r);
    }

    /** virtio_disk_rw until it first gives the lock up, for a buffer its caller holds: with three free
        descriptors the request is published, without them the caller sleeps and nothing has changed. The device must
        have the sector; the driver counts sectors in 32 bits. */
    method Submit(b: int, blockno: int, write: bool) returns (ok: bool, h: int)
      requires Valid() && forall g :: g in flight ==> flight[g].b != b
      requires b in data && |data[b]| == 1024 && 0 <= blockno && 512 * (blockno * 2 % UINT) + 1024 <= |media|
      modifies this, free, desc, info, ops, availRing
      ensures Valid() && (ok <==> |old(flight)| <= 1)
      ensures !ok ==> flight == old(flight) && busy == old(busy) && queue == old(queue)
      ensures ok ==> h !in old(flight) && busy == old(busy) + {b} && queue == old(queue) + [h]
      ensures ok ==> h in flight
      ensures ok ==>
        flight[h] == Req(b, write, blockno * 2 % UINT, flight[h].mid, flight[h].tail, Queued, data[b], |hist|, 0)
      ensures ok ==> flight == old(flight)[h := flight[h]]
      ensures pending == old(pending) && fetched == old(fetched) && seen == old(seen)
      ensures data == old(data) && media == old(media) && hist == old(hist) && base == old(base)
    {
      hide DiskOk, Chains, Requests, Buffers, Ring, Lists, Formatted, InChain, FreeSet, Moves;
      ghost var free0, desc0 := free[..], desc[..];
      Parts(Snapshot());
      var idx;
      ok, idx := Alloc3();
      if !ok {
        h := -1;
        Crowded(free0, flight, owner);
        SameRequests(free0, desc0, desc[..], info[..], ops[..], flight, owner);
        Whole(Snapshot());
        return;
      }
      Roomy(free0, flight, owner, idx);
      h := idx[0];
      var sector := blockno * (1024 / 512) % UINT;
      Publish(b, write, sector, idx, free0);
    }

    /** Whoever holds a buffer that is in no request may write to it. */
    method Fill(b: int, bytes: seq<int>)
      requires Valid() && forall g :: g in flight ==> flight[g].b != b
      modifies this`data
      ensures Valid() && data == old(data)[b := bytes]
    {
      hide DiskOk, Chains, Requests, Buffers, Ring, Lists, Formatted, InChain, FreeSet, Moves;
      Parts(Snapshot());
      MovesStore(data, media, base, hist, flight, b, bytes);
      data := data[b := bytes];
      Whole(Snapshot());
    }

    /** The device fetches the next request: it finds it as it was made. */
    method DeviceFetch() returns (ghost h: int)
      requires Valid() && queue != []
      modifies this`flight, this`queue, this`fetched
      ensures Valid() && queue == old(queue)[1..] && fetched == old(fetched) + 1
      ensures h == old(queue)[0] && 0 <= old(fetched) % NUM < NUM && availRing[old(fetched) % NUM] == h
      ensures h in old(flight) && flight == old(flight)[h := old(flight)[h].(stage := Fetched)]
    {
      hide DiskOk, Chains, Requests, Buffers, Ring, Lists, Formatted, InChain, Moves;
      Parts(Snapshot());
      MovesStage(data, media, base, hist, flight, queue[0], Fetched);
      ShortList(free[..], flight, owner, queue, Queued);
      RingPop(availRing[..], availIdx, fetched, queue);
      h := queue[0];
      ListsPop(queue, flight, Queued, Fetched);
      StageOf(queue, flight, Queued, 0);
      InRange(desc[..], info[..], ops[..], flight, owner, h);
      ListsOther(pending, flight, Done, h, Fetched);
      ChainsStage(free[..], flight, owner, h, Fetched);
      RequestsStage(desc[..], info[..], info[..], ops[..], flight, owner, h, Fetched);
      BuffersStage(flight, busy, h, Fetched);
      flight := flight[h := flight[h].(stage := Fetched)];
      queue, fetched := queue[1..], fetched + 1;
      Whole(Snapshot());
    }

    /** The device carries out the request that a chain describes, and writes status 0. */
    method DeviceServe(h: int)
      requires desc.Length == info.Length == ops.Length == NUM && Follows(desc[..], h)
      modifies this`data, this`media, info
      ensures (data, media) == Served(desc[..], ops[..], old(data), old(media), h)
      ensures var i := desc[..][desc[..][desc[..][h].nxt].nxt].addr.i;
              info[..] == old(info[..])[i := old(info[..])[i].(status := 0)]
    {
      hide Served;
      var served := Served(desc[..], ops[..], data, media, h);
      data, media := served.0, served.1;
      var s := desc[desc[desc[h].nxt].nxt];
      info[s.addr.i] := info[s.addr.i].(status := 0);
    }

    /** The device puts the head in the used ring. */
    method DeviceUsed(h: int)
      requires usedRing.Length == NUM && 0 <= usedIdx
      modifies this`usedIdx, usedRing
      ensures usedRing[..] == old(usedRing[..])[old(usedIdx) % NUM := h] && usedIdx == (old(usedIdx) + 1) % UINT16
    {
      usedRing[usedIdx % NUM] := h;
      usedIdx := (usedIdx + 1) % UINT16;
    }

    /** Both: all that the device does about a request. */
    method DeviceCarryOut(h: int)
      requires free.Length == desc.Length == info.Length == ops.Length == availRing.Length == usedRing.Length == NUM
      requires availRing != usedRing && 0 <= usedIdx && Follows(desc[..], h)
      requires desc[..][desc[..][desc[..][h].nxt].nxt].addr == Status(h) && 0 <= h < NUM
      modifies this`data, this`media, this`usedIdx, info, usedRing
      ensures Snapshot() == old(Snapshot()).(info := old(info[..])[h := old(info[..])[h].(status := 0)],
                 usedRing := old(usedRing[..])[old(usedIdx) % NUM := h], usedIdx := (old(usedIdx) + 1) % UINT16,
                 data := data, media := media)
      ensures (data, media) == Served(desc[..], ops[..], old(data), old(media), h)
    {
      hide Served, Follows;
      DeviceServe(h);
      DeviceUsed(h);
    }

    /** The device completes some request it has fetched, by following the chain from its head. A read puts that block
        of the medium in the request's buffer, a write that buffer in the block; nothing else changes, in memory or on
        the medium. */
    method DeviceComplete(h: int)
      requires Valid() && h in flight && flight[h].stage.Fetched?
      modifies this`flight, this`pending, this`usedIdx, this`data, this`media, this`hist, usedRing, info
      ensures Valid() && pending == old(pending) + [h]
      ensures Transferred(old(flight)[h], old(data), old(media), data, media)
      ensures var r := old(flight)[h];
        && hist == old(hist) + [Act(r.b, r.write, r.sector, data[r.b])]
        && flight == old(flight)[h := r.(stage := Done, data := data[r.b], at := |old(hist)|)]
    {
      hide DiskOk, Chains, Requests, Buffers, Ring, Lists, Formatted, InChain, Moves, Follows, Served;
      hide Transferred, Over, Sectors;
      ghost var v, r := Snapshot(), flight[h];
      FoundAsMade(v, h);
      DeviceCarryOut(h);
      flight := flight[h := r.(stage := Done, data := data[r.b], at := |hist|)];
      pending, hist := pending + [h], hist + [Act(r.b, r.write, r.sector, data[r.b])];
      Completed(v, Snapshot(), h, r);
    }

    /** One turn of virtio_disk_intr's loop: the buffer of that request, and no other, is no longer busy.
        The status panic cannot happen. */
    method IntrOne()
      requires Valid() && seenIdx != usedIdx
      modifies this`flight, this`pending, this`seen, this`seenIdx, this`busy
      ensures Valid() && old(pending) != [] && pending == old(pending)[1..] && old(pending)[0] in old(flight)
      ensures var h := old(pending)[0];
        flight == old(flight)[h := old(flight)[h].(stage := Cleared)] && busy == old(busy) - {old(flight)[h].b}
    {
      hide DiskOk, Chains, Requests, Buffers, Ring, Lists, InChain, Moves, Formatted;
      ghost var v := Snapshot();
      NextSeen(v);
      var id := usedRing[seenIdx % NUM];
      if info[id].status != 0 {
        assert false; // the status panic
      }
      var b := info[id].b;
      busy := busy - {b};
      seenIdx := (seenIdx + 1) % UINT16;
      flight := flight[id := flight[id].(stage := Cleared)];
      pending, seen := pending[1..], seen + 1;
      Seen(v, Snapshot());
    }

    /** virtio_disk_intr, if the device adds nothing while it runs: every completed request is cleared. */
    method Intr()
      requires Valid()
      modifies this`flight, this`pending, this`seen, this`seenIdx, this`busy
      ensures Valid() && pending == [] && seenIdx == usedIdx && flight.Keys == old(flight).Keys
      ensures forall h :: h in flight ==>
                 flight[h] == if old(flight)[h].stage.Done? then old(flight)[h].(stage := Cleared) else old(flight)[h]
    {
      hide DiskOk, Chains, Requests, Buffers, Ring, Moves;
      Parts(Snapshot());
      while seenIdx != usedIdx
        invariant Valid() && flight.Keys == old(flight).Keys && Lists(pending, flight, Done)
        invariant forall h :: h in flight ==>
          if h in pending then flight[h] == old(flight)[h] && flight[h].stage.Done?
          else flight[h] == if old(flight)[h].stage.Done? then old(flight)[h].(stage := Cleared) else old(flight)[h]
        decreases |pending|
      {
        IntrOne();
        Parts(Snapshot());
      }
      Parts(Snapshot());
      ShortList(free[..], flight, owner, pending, Done);
      RingIndex(usedRing[..], usedIdx, seen, pending);
    }

    /** free_chain on the chain of a request: its three descriptors are freed, none of them twice. */
    method FreeChain(h: int, ghost r: Req)
      requires free.Length == desc.Length == info.Length == ops.Length == NUM
      requires 0 <= h < NUM && 0 <= r.mid < NUM && 0 <= r.tail < NUM && h != r.mid && h != r.tail && r.mid != r.tail
      requires desc[h].next && desc[h].nxt == r.mid && desc[r.mid].next && desc[r.mid].nxt == r.tail
      requires !desc[r.tail].next
      requires !free[h] && !free[r.mid] && !free[r.tail]
      modifies free, desc
      ensures forall k :: 0 <= k < NUM ==> free[..][k] == (old(free[..])[k] || k in Chain(h, r))
      ensures forall k :: 0 <= k < NUM && k !in Chain(h, r) ==> desc[..][k] == old(desc[..])[k]
    {
      var i := h;
      ghost var n := 0;
      while true
        invariant 0 <= n <= 2 && i == (if n == 0 then h else if n == 1 then r.mid else r.tail)
        invariant free[h] == (n > 0) && free[r.mid] == (n > 1) && !free[r.tail]
        invariant n < 1 ==> desc[h] == old(desc[h])
        invariant n < 2 ==> desc[r.mid] == old(desc[r.mid])
        invariant desc[r.tail] == old(desc[r.tail])
        invariant forall k :: 0 <= k < NUM && k !in Chain(h, r) ==> free[k] == old(free[k]) && desc[k] == old(desc[k])
        decreases 2 - n
      {
        var flag, nxt := desc[i].next, desc[i].nxt;
        FreeDesc(i);
        assert forall k :: 0 <= k < NUM ==> free[k] == free[..][k] && desc[k] == desc[..][k];
        if flag {
          i, n := nxt, n + 1;
        } else {
          break;
        }
      }
    }

    /** The end of virtio_disk_rw, once b->disk is 0. The request took effect at one moment since it was made: a read
        left in the buffer what was in the block at that moment, and a write put there what was in the buffer when it
        was made, and still is. The panics of free_desc cannot happen. */
    method Finish(h: int, b: int)
      requires Valid() && h in flight && flight[h].b == b && b !in busy
      modifies this`flight, this`owner, free, desc, info
      ensures Valid() && flight == old(flight) - {h}
      ensures var r := old(flight)[h];
        && r.start <= r.at < |hist| && hist[r.at] == Act(b, r.write, r.sector, r.data)
        && b in data && data[b] == r.data && AllFit(base, hist) && Fits(base, hist[r.at])
        && (!r.write ==> data[b] == Sectors(Replay(base, hist[..r.at]), r.sector))
        && (r.write ==> Sectors(Replay(base, hist[..r.at + 1]), r.sector) == data[b])
        && media == Replay(base, hist)
    {
      hide DiskOk, Chains, Requests, Buffers, Ring, Lists, InChain, Moves;
      ghost var free0, desc0, info0, r := free[..], desc[..], info[..], flight[h];
      Parts(Snapshot());
      InRange(desc[..], info[..], ops[..], flight, owner, h);
      NotFree(free[..], flight, owner, h);
      NotBusy(flight, busy, h);
      info[h] := info[h].(b := 0);
      FreeChain(h, r);
      DropChain(free0, flight, owner, h, free[..]);
      ghost var owner' := owner[h := -1][r.mid := -1][r.tail := -1];
      DropRequest(desc0, info0, ops[..], flight, owner, owner', desc[..], info[..], h);
      DropRest(flight, busy, queue, pending, h);
      MovesDrop(data, media, base, hist, flight, h);
      TookEffect(data, media, base, hist, flight, h);
      flight, owner := flight - {h}, owner';
      Whole(Snapshot());
    }
  }

  lemma {:induction false} StageOf(queue: seq<int>, flight: map<int, Req>, stage: Stage, k: int)
    requires Lists(queue, flight, stage) && 0 <= k < |queue|
    ensures queue[k] in flight && flight[queue[k]].stage == stage
  {
  }

  lemma {:induction false} InRange(desc: seq<Desc>, info: seq<Info>, ops: seq<Op>, flight: map<int, Req>,
                                   owner: seq<int>, h: int)
    requires Requests(desc, info, ops, flight, owner) && h in flight
    ensures |desc| == |info| == |ops| == |owner| == NUM
    ensures 0 <= h < NUM && 0 <= flight[h].mid < NUM && 0 <= flight[h].tail < NUM && InChain(owner, h, flight[h])
    ensures h != flight[h].mid && h != flight[h].tail && flight[h].mid != flight[h].tail
    ensures Formatted(desc, info, ops, h, flight[h])
  {
  }

  lemma {:induction false} NotFree(free: seq<bool>, flight: map<int, Req>, owner: seq<int>, h: int)
    requires Chains(free, flight, owner) && h in flight && |owner| == NUM && InChain(owner, h, flight[h])
    ensures |free| == NUM && !free[h] && !free[flight[h].mid] && !free[flight[h].tail]
  {
  }

  lemma {:induction false} NotBusy(flight: map<int, Req>, busy: set<int>, h: int)
    requires Buffers(flight, busy) && h in flight && flight[h].b !in busy
    ensures flight[h].stage.Cleared?
  {
  }

  lemma {:induction false} RingIndex(ring: seq<int>, idx: int, lo: nat, queue: seq<int>)
    requires Ring(ring, idx, lo, queue) && |queue| <= 2
    ensures lo % UINT16 == idx <==> queue == []
  {
    Compare16(lo, |queue|);
  }

  lemma {:induction false} FewFree(free: seq<bool>, idx: seq<int>)
    requires |idx| <= 2 && forall k :: 0 <= k < |free| && free[k] ==> k in idx
    ensures |FreeSet(free)| <= 2
  {
    var s := set k | k in idx;
    assert s == if idx == [] then {} else if |idx| == 1 then {idx[0]} else {idx[0], idx[1]};
    SubsetSize(FreeSet(free), s);
  }

  lemma {:induction false} Parts(v: Shared)
    requires DiskOk(v)
    ensures Chains(v.free, v.flight, v.owner) && Requests(v.desc, v.info, v.ops, v.flight, v.owner)
    ensures Buffers(v.flight, v.busy) && |v.owner| == NUM
    ensures Ring(v.availRing, v.availIdx, v.fetched, v.queue) && Lists(v.queue, v.flight, Queued)
    ensures Ring(v.usedRing, v.usedIdx, v.seen, v.pending) && Lists(v.pending, v.flight, Done)
    ensures v.seenIdx == v.seen % UINT16 && Moves(v.data, v.media, v.base, v.hist, v.flight)
  {
  }

  lemma {:induction false} Whole(v: Shared)
    requires Chains(v.free, v.flight, v.owner) && Requests(v.desc, v.info, v.ops, v.flight, v.owner)
    requires Buffers(v.flight, v.busy)
    requires Ring(v.availRing, v.availIdx, v.fetched, v.queue) && Lists(v.queue, v.flight, Queued)
    requires Ring(v.usedRing, v.usedIdx, v.seen, v.pending) && Lists(v.pending, v.flight, Done)
    requires v.seenIdx == v.seen % UINT16 && Moves(v.data, v.media, v.base, v.hist, v.flight)
    ensures DiskOk(v)
  {
  }

  lemma {:induction false} IndexNat(v: Shared)
    requires DiskOk(v)
    ensures 0 <= v.availIdx && |v.availRing| == NUM && |v.owner| == NUM
  {
  }

  /** One more request, formatted in three free descriptors and put in the avail ring. */
  lemma {:induction false} Published(v: Shared, v': Shared, h: int, r: Req)
    requires DiskOk(v) && 0 <= h < r.mid < r.tail < NUM && r.stage.Queued? && 0 <= v.availIdx
    requires |v.free| == |v'.free| == |v.owner| == |v.availRing| == NUM && v.free[h] && v.free[r.mid] && v.free[r.tail]
    requires forall k :: 0 <= k < NUM ==> v'.free[k] == (v.free[k] && k != h && k != r.mid && k != r.tail)
    requires |v.desc| == |v.info| == |v.ops| == |v'.desc| == |v'.info| == |v'.ops| == NUM
    requires Formatted(v'.desc, v'.info, v'.ops, h, r)
    requires forall k :: 0 <= k < NUM && k != h && k != r.mid && k != r.tail ==>
               v'.desc[k] == v.desc[k] && v'.info[k] == v.info[k] && v'.ops[k] == v.ops[k]
    requires forall g :: g in v.flight ==> v.flight[g].b != r.b
    requires Backed(r, v.data, v.media, v.hist)
    requires v' == v.(free := v'.free, desc := v'.desc, info := v'.info, ops := v'.ops,
                      availRing := v.availRing[v.availIdx % NUM := h], availIdx := (v.availIdx + 1) % UINT16,
                      busy := v.busy + {r.b}, flight := v.flight[h := r],
                      owner := v.owner[h := h][r.mid := h][r.tail := h], queue := v.queue + [h])
    ensures DiskOk(v') && h !in v.flight
  {
    hide DiskOk, Chains, Requests, Buffers, Ring, Lists, Formatted, InChain, FreeSet, Moves, Backed;
    Parts(v);
    MovesNew(v.data, v.media, v.base, v.hist, v.flight, h, r);
    NewChain(v.free, v.flight, v.owner, h, r, v'.free);
    ShortList(v.free, v.flight, v.owner, v.queue, Queued);
    RingPush(v.availRing, v.availIdx, v.fetched, v.queue, h);
    NewInChain(v.owner, h, r);
    NewRequest(v.desc, v.info, v.ops, v.flight, v.owner, v'.owner, v'.desc, v'.info, v'.ops, h, r);
    NewBuffer(v.flight, v.busy, h, r);
    NewQueued(v.queue, v.pending, v.flight, h, r);
    Whole(v');
  }

  lemma {:induction false} NothingYet(v: Shared)
    requires v.flight == map[] && |v.desc| == |v.info| == |v.ops| == |v.owner| == NUM
    requires v.media == v.base && v.hist == []
    ensures Requests(v.desc, v.info, v.ops, v.flight, v.owner) && Moves(v.data, v.media, v.base, v.hist, v.flight)
  {
  }

  /** A read puts the block in the buffer and changes nothing else; a write puts the buffer, which is as it was when the
      request was made, in the block and changes nothing else. */
  ghost predicate Transferred(r: Req, data: map<int, seq<int>>, media: seq<int>, data': map<int, seq<int>>,
                              media': seq<int>) {
    && r.b in data && |data[r.b]| == 1024 && 0 <= r.sector && 512 * r.sector + 1024 <= |media|
    && if r.write then data' == data && media' == Over(media, r.sector, data[r.b]) && data[r.b] == r.data
       else media' == media && data' == data[r.b := Sectors(media, r.sector)]
  }

  /** The device finds the request as it was made. */
  lemma {:induction false} FoundAsMade(v: Shared, h: int)
    requires DiskOk(v) && h in v.flight && v.flight[h].stage.Fetched?
    ensures |v.desc| == |v.info| == |v.ops| == |v.usedRing| == NUM && 0 <= h < NUM && 0 <= v.usedIdx
    ensures Follows(v.desc, h) && 0 <= v.desc[h].nxt < NUM && 0 <= v.desc[v.desc[h].nxt].nxt < NUM
    ensures v.desc[v.desc[v.desc[h].nxt].nxt].addr == Status(h)
    ensures var r := v.flight[h];
      var served := Served(v.desc, v.ops, v.data, v.media, h);
      Transferred(r, v.data, v.media, served.0, served.1) && r.b in served.0
  {
    hide Chains, Buffers, Lists, Moves, Follows, Served;
    IsBacked(v.data, v.media, v.base, v.hist, v.flight, h);
    InRange(v.desc, v.info, v.ops, v.flight, v.owner, h);
    ServedAsMade(v.desc, v.info, v.ops, h, v.flight[h], v.data, v.media);
    Chained(v.desc, h);
  }

  /** One more request served and put in the used ring. */
  lemma {:induction false} Completed(v: Shared, v': Shared, h: int, r: Req)
    requires DiskOk(v) && h in v.flight && r == v.flight[h] && r.stage.Fetched?
    requires |v.info| == |v.usedRing| == NUM && 0 <= h < NUM && 0 <= v.usedIdx
    requires Transferred(r, v.data, v.media, v'.data, v'.media) && r.b in v'.data
    requires v' == v.(info := v.info[h := v.info[h].(status := 0)], usedRing := v.usedRing[v.usedIdx % NUM := h],
                      usedIdx := (v.usedIdx + 1) % UINT16, pending := v.pending + [h], data := v'.data,
                      media := v'.media, hist := v.hist + [Act(r.b, r.write, r.sector, v'.data[r.b])],
                      flight := v.flight[h := r.(stage := Done, data := v'.data[r.b], at := |v.hist|)])
    ensures DiskOk(v')
  {
    hide DiskOk, Chains, Requests, Buffers, Ring, Lists, Formatted, InChain, Moves;
    Parts(v);
    OwnBuffer(v.flight, v.busy, h);
    MovesServed(v.data, v.media, v.base, v.hist, v.flight, h, r);
    assert v'.data == v.data[r.b := v'.data[r.b]];
    InRange(v.desc, v.info, v.ops, v.flight, v.owner, h);
    ShortList(v.free, v.flight, v.owner, v.pending, Done);
    RingPush(v.usedRing, v.usedIdx, v.seen, v.pending, h);
    ListsPush(v.pending, v.flight, h, Done);
    ListsOther(v.queue, v.flight, Queued, h, Done);
    ChainsStage(v.free, v.flight, v.owner, h, Done);
    BuffersStage(v.flight, v.busy, h, Done);
    RequestsStage(v.desc, v.info, v'.info, v.ops, v.flight, v.owner, h, Done);
    var flight := v.flight[h := r.(stage := Done)];
    Noted(v.free, v.desc, v'.info, v.ops, v.busy, flight, v.owner, v.queue, v'.pending, h, v'.flight[h]);
    assert flight[h := v'.flight[h]] == v'.flight;
    Whole(v');
  }

  /** The next used entry the driver has not seen. */
  lemma {:induction false} NextSeen(v: Shared)
    requires DiskOk(v) && v.seenIdx != v.usedIdx
    ensures v.pending != [] && |v.usedRing| == |v.info| == NUM && 0 <= v.seenIdx && v.pending[0] in v.flight
    ensures v.usedRing[v.seenIdx % NUM] == v.pending[0] && 0 <= v.pending[0] < NUM
    ensures v.info[v.pending[0]] == Info(v.flight[v.pending[0]].b, 0)
  {
    hide Chains, Buffers, Ring, Moves, InChain;
    ShortList(v.free, v.flight, v.owner, v.pending, Done);
    RingIndex(v.usedRing, v.usedIdx, v.seen, v.pending);
    RingPop(v.usedRing, v.usedIdx, v.seen, v.pending);
    Count16(v.seen);
    StageOf(v.pending, v.flight, Done, 0);
    InRange(v.desc, v.info, v.ops, v.flight, v.owner, v.pending[0]);
    RingLength(v.usedRing, v.usedIdx, v.seen, v.pending);
  }

  lemma {:induction false} RingLength(ring: seq<int>, idx: int, lo: nat, queue: seq<int>)
    requires Ring(ring, idx, lo, queue)
    ensures |ring| == NUM
  {
  }

  /** The driver has seen it. */
  lemma {:induction false} Seen(v: Shared, v': Shared)
    requires DiskOk(v) && v.seenIdx != v.usedIdx && v.pending != [] && v.pending[0] in v.flight
    requires var h := v.pending[0];
             v' == v.(busy := v.busy - {v.flight[h].b}, seenIdx := (v.seenIdx + 1) % UINT16, seen := v.seen + 1,
                      flight := v.flight[h := v.flight[h].(stage := Cleared)], pending := v.pending[1..])
    ensures DiskOk(v')
  {
    hide DiskOk, Chains, Requests, Buffers, Ring, Lists, InChain, Moves, Formatted;
    Parts(v);
    var h := v.pending[0];
    ShortList(v.free, v.flight, v.owner, v.pending, Done);
    RingPop(v.usedRing, v.usedIdx, v.seen, v.pending);
    Count16(v.seen);
    StageOf(v.pending, v.flight, Done, 0);
    InRange(v.desc, v.info, v.ops, v.flight, v.owner, h);
    DoneOk(v.desc, v.info, v.ops, h, v.flight[h]);
    ListsPop(v.pending, v.flight, Done, Cleared);
    ListsOther(v.queue, v.flight, Queued, h, Cleared);
    ChainsStage(v.free, v.flight, v.owner, h, Cleared);
    RequestsStage(v.desc, v.info, v.info, v.ops, v.flight, v.owner, h, Cleared);
    BuffersStage(v.flight, v.busy, h, Cleared);
    MovesStage(v.data, v.media, v.base, v.hist, v.flight, h, Cleared);
    Whole(v');
  }

  lemma {:induction false} DoneOk(desc: seq<Desc>, info: seq<Info>, ops: seq<Op>, h: int, r: Req)
    requires |desc| == |info| == |ops| == NUM && 0 <= h < NUM && 0 <= r.mid < NUM && 0 <= r.tail < NUM
    requires Formatted(desc, info, ops, h, r) && r.stage.Done?
    ensures info[h] == Info(r.b, 0)
  {
  }

  lemma {:induction false} OwnBuffer(flight: map<int, Req>, busy: set<int>, h: int)
    requires Buffers(flight, busy) && h in flight
    ensures forall g :: g in flight && g != h ==> flight[g].b != flight[h].b
  {
  }

  lemma {:induction false} IsBacked(data: map<int, seq<int>>, media: seq<int>, base: seq<int>, hist: seq<Act>,
                                    flight: map<int, Req>, h: int)
    requires Moves(data, media, base, hist, flight) && h in flight
    ensures Backed(flight[h], data, media, hist)
  {
  }

  lemma {:induction false} Chained(desc: seq<Desc>, h: int)
    requires Follows(desc, h)
    ensures 0 <= h < |desc| && 0 <= desc[h].nxt < |desc| && 0 <= desc[desc[h].nxt].nxt < |desc|
    ensures desc[desc[desc[h].nxt].nxt].addr.Status?
  {
  }

  /** A served request read or wrote at its place in the history. */
  lemma {:induction false} TookEffect(data: map<int, seq<int>>, media: seq<int>, base: seq<int>, hist: seq<Act>,
                                      flight: map<int, Req>, h: int)
    requires Moves(data, media, base, hist, flight) && h in flight && flight[h].stage.Cleared?
    ensures var r := flight[h];
      && r.start <= r.at < |hist| && hist[r.at] == Act(r.b, r.write, r.sector, r.data) && r.b in data
      && data[r.b] == r.data && AllFit(base, hist) && Fits(base, hist[r.at]) && media == Replay(base, hist)
      && (!r.write ==> data[r.b] == Sectors(Replay(base, hist[..r.at]), r.sector))
      && (r.write ==> Sectors(Replay(base, hist[..r.at + 1]), r.sector) == data[r.b])
  {
    var r := flight[h];
    assert Backed(r, data, media, hist) && Fits(base, hist[r.at]);
    assert hist[..r.at + 1][..r.at] == hist[..r.at];
  }

  /** A block number below 2^31 and its first sector; from there on the 32-bit product names another block. */
  lemma {:induction false} SectorOf(blockno: int)
    requires 0 <= blockno < UINT
    ensures 512 * (blockno * 2 % UINT) == 1024 * blockno <==> blockno < 0x8000_0000
  {
    if blockno < 0x8000_0000 { assert blockno * 2 % UINT == blockno * 2; }
  }

  /** Fewer than three free descriptors: two requests are in flight. */
  lemma {:induction false} Crowded(free: seq<bool>, flight: map<int, Req>, owner: seq<int>)
    requires Chains(free, flight, owner) && |FreeSet(free)| <= 2
    ensures |flight| > 1
  {
    if |flight| <= 1 { EnoughFree(free, flight, owner); }
  }

  /** Three free descriptors: at most one request is in flight. */
  lemma {:induction false} Roomy(free: seq<bool>, flight: map<int, Req>, owner: seq<int>, idx: seq<int>)
    requires Chains(free, flight, owner) && |idx| == 3 && 0 <= idx[0] < idx[1] < idx[2] < NUM
    requires forall k :: 0 <= k < 3 ==> free[idx[k]]
    ensures |flight| <= 1
  {
    hide Upto;
    if |flight| > 1 {
      assert forall h :: h in flight.Keys ==> InChain(owner, h, flight[h]);
      var f := Pick(flight.Keys);
      var g := Pick(flight.Keys - {f});
      ChainSize(owner, f, flight[f]);
      ChainSize(owner, g, flight[g]);
      Pigeonhole({idx[0], idx[1], idx[2]}, Chain(f, flight[f]), Chain(g, flight[g]));
    }
  }

  /** Requests do not look at free descriptors. */
  lemma {:induction false} SameRequests(free: seq<bool>, desc: seq<Desc>, desc': seq<Desc>, info: seq<Info>,
                                        ops: seq<Op>, flight: map<int, Req>, owner: seq<int>)
    requires Chains(free, flight, owner) && Requests(desc, info, ops, flight, owner) && |desc'| == NUM
    requires forall k :: 0 <= k < NUM && !free[k] ==> desc'[k] == desc[k]
    ensures Requests(desc', info, ops, flight, owner)
  {
    forall h | h in flight ensures Formatted(desc', info, ops, h, flight[h]) {
      assert InChain(owner, h, flight[h]) && Formatted(desc, info, ops, h, flight[h]);
    }
  }

  lemma {:induction false} NewInChain(owner: seq<int>, h: int, r: Req)
    requires |owner| == NUM && 0 <= h < r.mid < r.tail < NUM
    ensures InChain(owner[h := h][r.mid := h][r.tail := h], h, r)
  {
  }
}
