/** What the memory shared by the driver and the device of kernel/virtio_disk.c stands for. */
module VirtioRing {
  import opened Common

  const NUM := 8
  const UINT16 := 65536

  /** Where a descriptor points: a request header, a buffer's data, or a status byte. */
  datatype Addr = Null | Header(i: int) | Data(b: int) | Status(i: int)

  datatype Desc = Desc(addr: Addr, len: int, next: bool, write: bool, nxt: int)

  datatype Op = Op(write: bool, sector: int)

  datatype Info = Info(b: int, status: int)

  /** A request on its way: queued in the avail ring, fetched by the device, in the used ring, or known to
      be done but with its descriptors not yet given back. */
  datatype Stage = Queued | Fetched | Done | Cleared

  /** The request whose chain is headed by its key in the map of requests. data is what it writes, or what it has
      read; start is how many requests had been served when it was made, at its own place among them. */
  datatype Req = Req(b: int, write: bool, sector: int, mid: int, tail: int, stage: Stage, data: seq<int>, start: nat,
                     at: nat)

  ghost function Chain(h: int, r: Req): set<int> { {h, r.mid, r.tail} }

  /** owner says which chain a descriptor is in, -1 if it is free. */
  ghost predicate Chains(free: seq<bool>, flight: map<int, Req>, owner: seq<int>) {
    && |free| == |owner| == NUM
    && (forall i :: 0 <= i < NUM ==> (free[i] <==> owner[i] == -1))
    && (forall i :: 0 <= i < NUM && owner[i] != -1 ==> owner[i] in flight && i in Chain(owner[i], flight[owner[i]]))
    && (forall h :: h in flight ==> InChain(owner, h, flight[h]))
  }

  ghost predicate InChain(owner: seq<int>, h: int, r: Req)
    requires |owner| == NUM
  {
    && 0 <= h < NUM && 0 <= r.mid < NUM && 0 <= r.tail < NUM && h != r.mid && h != r.tail && r.mid != r.tail
    && owner[h] == h && owner[r.mid] == h && owner[r.tail] == h
  }

  /** A request's three descriptors and its header are as it was made. */
  ghost predicate Formatted(desc: seq<Desc>, info: seq<Info>, ops: seq<Op>, h: int, r: Req)
    requires |desc| == |info| == |ops| == NUM && 0 <= h < NUM && 0 <= r.mid < NUM && 0 <= r.tail < NUM
  {
    && ops[h] == Op(r.write, r.sector)
    && desc[h] == Desc(Header(h), 16, true, false, r.mid)
    && desc[r.mid] == Desc(Data(r.b), 1024, true, !r.write, r.tail)
    && desc[r.tail] == Desc(Status(h), 1, false, true, 0)
    && info[h].b == r.b && (r.stage.Done? || r.stage.Cleared? ==> info[h].status == 0)
  }

  ghost predicate Requests(desc: seq<Desc>, info: seq<Info>, ops: seq<Op>, flight: map<int, Req>, owner: seq<int>) {
    && |desc| == |info| == |ops| == |owner| == NUM
    && (forall h :: h in flight ==> InChain(owner, h, flight[h]) && Formatted(desc, info, ops, h, flight[h]))
  }

  /** Each request has its own buffer, marked busy until the request is known to be done. */
  ghost predicate Buffers(flight: map<int, Req>, busy: set<int>) {
    && (forall g, h :: g in flight && h in flight && g != h ==> flight[g].b != flight[h].b)
    && (forall h :: h in flight ==> (flight[h].b in busy <==> !flight[h].stage.Cleared?))
    && (forall b :: b in busy ==> exists h :: h in flight && flight[h].b == b)
  }

  /** ring holds the heads of queue, the first at position lo of all that went through it; idx is the
      16-bit count. */
  ghost predicate Ring(ring: seq<int>, idx: int, lo: nat, queue: seq<int>) {
    && |ring| == NUM && idx == (lo + |queue|) % UINT16
    && forall k :: 0 <= k < |queue| && k < NUM ==> ring[(lo + k) % NUM] == queue[k]
  }

  /** queue lists the requests at this stage, once each. */
  ghost predicate Lists(queue: seq<int>, flight: map<int, Req>, stage: Stage) {
    && (forall k :: 0 <= k < |queue| ==> queue[k] in flight && flight[queue[k]].stage == stage)
    && (forall h :: h in flight && flight[h].stage == stage ==> h in queue)
    && (forall j, k :: 0 <= j < k < |queue| ==> queue[j] != queue[k])
  }

  // ----- what the device does

  /** The chain that a device follows from its head: a header it may read, data, and a status byte it may write. */
  predicate Follows(desc: seq<Desc>, h: int) {
    && |desc| == NUM && 0 <= h < NUM && desc[h].addr.Header? && desc[h].len == 16 && desc[h].next && !desc[h].write
    && 0 <= desc[h].addr.i < NUM && 0 <= desc[h].nxt < NUM
    && var d := desc[desc[h].nxt];
       && d.addr.Data? && d.next && 0 <= d.nxt < NUM
       && var s := desc[d.nxt];
          s.addr.Status? && 0 <= s.addr.i < NUM && s.len == 1 && !s.next && s.write
  }

  /** The medium with data laid over it from a sector on; sectors have 512 bytes. */
  function Over(media: seq<int>, sector: int, data: seq<int>): seq<int>
    requires 0 <= sector && 512 * sector + |data| <= |media|
  {
    media[..512 * sector] + data + media[512 * sector + |data|..]
  }

  /** What the device does to memory and to the medium for a chain (section 5.2.6 of VIRTIO 1.1): the header says what
      and where, the second descriptor where in memory and how much. It reads only memory that is not marked for it
      to write, and writes only memory that is. */
  function Served(desc: seq<Desc>, ops: seq<Op>, data: map<int, seq<int>>, media: seq<int>, h: int)
    : (map<int, seq<int>>, seq<int>)
    requires |ops| == NUM
  {
    if !Follows(desc, h) then (data, media)
    else
      var op, d := ops[desc[h].addr.i], desc[desc[h].nxt];
      var b, n, at := d.addr.b, d.len, 512 * op.sector;
      if !(b in data && 0 <= n <= |data[b]| && 0 <= at && at + n <= |media|) then (data, media)
      else if op.write && !d.write then (data, Over(media, op.sector, data[b][..n]))
      else if !op.write && d.write then (data[b := media[at..at + n] + data[b][n..]], media)
      else (data, media)
  }

  /** The 1024 bytes from a sector on. */
  function Sectors(media: seq<int>, sector: int): seq<int>
    requires 0 <= sector && 512 * sector + 1024 <= |media|
  {
    media[512 * sector..512 * sector + 1024]
  }

  /** Writing one block changes that block and no other. */
  lemma {:induction false} OneBlock(media: seq<int>, blockno: int, data: seq<int>, other: int)
    requires |data| == 1024 && 0 <= blockno && 1024 * blockno + 1024 <= |media|
    requires 0 <= other && 1024 * other + 1024 <= |media|
    ensures |Over(media, 2 * blockno, data)| == |media|
    ensures Sectors(Over(media, 2 * blockno, data), 2 * other)
            == if other == blockno then data else media[1024 * other..1024 * other + 1024]
  {
    var m := Over(media, 2 * blockno, data);
    if other < blockno {
      assert m[..1024 * blockno] == media[..1024 * blockno];
      assert m[1024 * other..1024 * other + 1024] == m[..1024 * blockno][1024 * other..1024 * other + 1024];
    } else if other > blockno {
      var e := 1024 * blockno + 1024;
      assert m[e..] == media[e..];
      assert m[1024 * other..1024 * other + 1024] == m[e..][1024 * other - e..1024 * other + 1024 - e];
    }
  }

  /** A request as the driver formats it makes the device read that block into that buffer, or write that buffer to that
      block, and nothing else. */
  lemma {:induction false} ServedAsMade(desc: seq<Desc>, info: seq<Info>, ops: seq<Op>, h: int, r: Req,
                                        data: map<int, seq<int>>, media: seq<int>)
    requires |desc| == |info| == |ops| == NUM && 0 <= h < NUM && 0 <= r.mid < NUM && 0 <= r.tail < NUM
    requires Formatted(desc, info, ops, h, r) && 0 <= r.sector && 512 * r.sector + 1024 <= |media|
    requires r.b in data && |data[r.b]| == 1024
    ensures Follows(desc, h) && desc[desc[desc[h].nxt].nxt].addr.i == h
    ensures Served(desc, ops, data, media, h)
            == if r.write then (data, Over(media, r.sector, data[r.b]))
               else (data[r.b := Sectors(media, r.sector)], media)
  {
    assert data[r.b][..1024] == data[r.b] && Sectors(media, r.sector) + data[r.b][1024..] == Sectors(media, r.sector);
  }

  // ----- the order in which requests take effect

  /** A served request: what it wrote, or what it read. */
  datatype Act = Act(b: int, write: bool, sector: int, data: seq<int>)

  ghost predicate Fits(media: seq<int>, a: Act) {
    0 <= a.sector && 512 * a.sector + 1024 <= |media| && |a.data| == 1024
  }

  ghost predicate AllFit(media: seq<int>, hist: seq<Act>) { forall k :: 0 <= k < |hist| ==> Fits(media, hist[k]) }

  /** The medium after the writes of hist, in order. */
  ghost function Replay(media: seq<int>, hist: seq<Act>): (r: seq<int>)
    requires AllFit(media, hist)
    ensures |r| == |media|
  {
    if hist == [] then media
    else
      var a, before := hist[|hist| - 1], Replay(media, hist[..|hist| - 1]);
      if a.write then Over(before, a.sector, a.data) else before
  }

  /** Every read got what the writes before it had left there. */
  ghost predicate ReadsOk(media: seq<int>, hist: seq<Act>)
    requires AllFit(media, hist)
  {
    forall k :: 0 <= k < |hist| && !hist[k].write ==> hist[k].data == Sectors(Replay(media, hist[..k]), hist[k].sector)
  }

  ghost predicate IsServed(r: Req) { r.stage.Done? || r.stage.Cleared? }

  /** The buffer of a write holds what is to be written, that of a served read what was read; a served request is in
      hist, after what had been served when it was made. */
  ghost predicate Backed(r: Req, data: map<int, seq<int>>, media: seq<int>, hist: seq<Act>) {
    && r.b in data && |data[r.b]| == 1024 && 0 <= r.sector && 512 * r.sector + 1024 <= |media| && r.start <= |hist|
    && (r.write || IsServed(r) ==> data[r.b] == r.data)
    && (IsServed(r) ==> r.start <= r.at < |hist| && hist[r.at] == Act(r.b, r.write, r.sector, r.data))
  }

  /** The medium is what the served writes made of the one at the start, and reads were served from it. */
  ghost predicate Moves(data: map<int, seq<int>>, media: seq<int>, base: seq<int>, hist: seq<Act>,
                        flight: map<int, Req>) {
    && AllFit(base, hist) && media == Replay(base, hist) && ReadsOk(base, hist)
    && forall h :: h in flight ==> Backed(flight[h], data, media, hist)
  }

  lemma {:induction false} MovesNew(data: map<int, seq<int>>, media: seq<int>, base: seq<int>, hist: seq<Act>,
                                    flight: map<int, Req>, h: int, r: Req)
    requires Moves(data, media, base, hist, flight) && Backed(r, data, media, hist)
    ensures Moves(data, media, base, hist, flight[h := r])
  {
    hide Backed, ReadsOk, AllFit;
  }

  lemma {:induction false} MovesStage(data: map<int, seq<int>>, media: seq<int>, base: seq<int>, hist: seq<Act>,
                                      flight: map<int, Req>, h: int, stage: Stage)
    requires Moves(data, media, base, hist, flight) && h in flight
    requires if IsServed(flight[h]) then stage.Done? || stage.Cleared? else stage.Queued? || stage.Fetched?
    ensures Moves(data, media, base, hist, flight[h := flight[h].(stage := stage)])
  {
    hide ReadsOk, AllFit;
    var flight' := flight[h := flight[h].(stage := stage)];
    forall g | g in flight' ensures Backed(flight'[g], data, media, hist) {
      assert Backed(flight[g], data, media, hist);
    }
  }

  lemma {:induction false} MovesDrop(data: map<int, seq<int>>, media: seq<int>, base: seq<int>, hist: seq<Act>,
                                     flight: map<int, Req>, h: int)
    requires Moves(data, media, base, hist, flight) && h in flight
    ensures Moves(data, media, base, hist, flight - {h}) && Backed(flight[h], data, media, hist)
  {
    hide Backed, ReadsOk, AllFit;
  }

  /** A buffer that is in no request may change. */
  lemma {:induction false} MovesStore(data: map<int, seq<int>>, media: seq<int>, base: seq<int>, hist: seq<Act>,
                                      flight: map<int, Req>, b: int, bytes: seq<int>)
    requires Moves(data, media, base, hist, flight) && forall g :: g in flight ==> flight[g].b != b
    ensures Moves(data[b := bytes], media, base, hist, flight)
  {
    hide ReadsOk, AllFit;
    forall g | g in flight ensures Backed(flight[g], data[b := bytes], media, hist) {
      assert Backed(flight[g], data, media, hist);
    }
  }

  /** One more served request. */
  lemma {:induction false} HistoryMore(base: seq<int>, hist: seq<Act>, media: seq<int>, a: Act)
    requires AllFit(base, hist) && media == Replay(base, hist) && ReadsOk(base, hist) && Fits(base, a)
    requires !a.write ==> a.data == Sectors(media, a.sector)
    ensures AllFit(base, hist + [a]) && ReadsOk(base, hist + [a])
    ensures Replay(base, hist + [a]) == if a.write then Over(media, a.sector, a.data) else media
  {
    var hist' := hist + [a];
    assert hist'[..|hist|] == hist;
    forall k | 0 <= k < |hist'| && !hist'[k].write
      ensures hist'[k].data == Sectors(Replay(base, hist'[..k]), hist'[k].sector)
    {
      assert hist'[..k] == if k < |hist| then hist[..k] else hist;
    }
  }

  lemma {:induction false} BackedLater(r: Req, data: map<int, seq<int>>, media: seq<int>, hist: seq<Act>,
                                       data': map<int, seq<int>>, media': seq<int>, a: Act)
    requires Backed(r, data, media, hist) && |media'| == |media| && r.b in data' && data'[r.b] == data[r.b]
    ensures Backed(r, data', media', hist + [a])
  {
  }

  lemma {:induction false} MovesServed(data: map<int, seq<int>>, media: seq<int>, base: seq<int>, hist: seq<Act>,
                                       flight: map<int, Req>, h: int, r: Req)
    requires Moves(data, media, base, hist, flight) && h in flight && flight[h].stage.Fetched? && r == flight[h]
    requires forall g :: g in flight && g != h ==> flight[g].b != r.b
    ensures r.b in data && |data[r.b]| == 1024 && 0 <= r.sector && 512 * r.sector + 1024 <= |media|
    ensures var got := if r.write then data[r.b] else Sectors(media, r.sector);
            var data', media' := data[r.b := got], if r.write then Over(media, r.sector, got) else media;
            Moves(data', media', base, hist + [Act(r.b, r.write, r.sector, got)],
                  flight[h := r.(stage := Done, data := got, at := |hist|)])
  {
    assert Backed(r, data, media, hist);
    var got := if r.write then data[r.b] else Sectors(media, r.sector);
    var data', media' := data[r.b := got], if r.write then Over(media, r.sector, got) else media;
    var a, r' := Act(r.b, r.write, r.sector, got), r.(stage := Done, data := got, at := |hist|);
    HistoryMore(base, hist, media, a);
    hide AllFit, ReadsOk, Replay;
    var flight' := flight[h := r'];
    forall g | g in flight' ensures Backed(flight'[g], data', media', hist + [a]) {
      if g != h {
        assert Backed(flight[g], data, media, hist);
        BackedLater(flight[g], data, media, hist, data', media', a);
      }
    }
  }

  // ----- at most two requests

  ghost function Upto(n: nat): (s: set<int>)
    ensures |s| == n && forall i :: i in s <==> 0 <= i < n
  {
    if n == 0 then {} else Upto(n - 1) + {n - 1}
  }

  lemma {:induction false} ChainSize(owner: seq<int>, h: int, r: Req)
    requires |owner| == NUM && InChain(owner, h, r)
    ensures |Chain(h, r)| == 3 && Chain(h, r) <= Upto(NUM) && forall i :: i in Chain(h, r) ==>
               0 <= i < NUM && owner[i] == h
  {
    hide Upto;
    assert Chain(h, r) == {h} + {r.mid} + {r.tail};
  }

  /** Eight descriptors do not make three disjoint chains. */
  lemma {:induction false} Pigeonhole(a: set<int>, b: set<int>, c: set<int>)
    requires |a| == 3 && |b| == 3 && |c| == 3 && a !! b && a !! c
    requires a <= Upto(NUM) && b <= Upto(NUM) && c <= Upto(NUM)
    ensures !(b !! c)
  {
    hide Upto;
    if b !! c {
      assert |a + b| == 6 && |a + b + c| == 9;
      SubsetSize(a + b + c, Upto(NUM));
    }
  }

  lemma {:induction false} ThreeChains(free: seq<bool>, flight: map<int, Req>, owner: seq<int>, f: int, g: int, h: int)
    requires Chains(free, flight, owner) && f in flight && g in flight && h in flight
    ensures f == g || g == h || f == h
  {
    hide Chain;
    ChainSize(owner, f, flight[f]);
    ChainSize(owner, g, flight[g]);
    ChainSize(owner, h, flight[h]);
    if f != g && f != h {
      Pigeonhole(Chain(f, flight[f]), Chain(g, flight[g]), Chain(h, flight[h]));
    }
  }

  lemma {:induction false} Pick(s: set<int>) returns (x: int)
    requires |s| > 0 && forall y :: y in s ==> 0 <= y < NUM
    ensures x in s && |s - {x}| == |s| - 1
  {
    x := 0;
    while x < NUM && x !in s
      invariant 0 <= x <= NUM && forall y :: 0 <= y < x ==> y !in s
    {
      x := x + 1;
    }
  }

  /** At most two requests are in flight. */
  lemma {:induction false} TwoInFlight(free: seq<bool>, flight: map<int, Req>, owner: seq<int>)
    requires Chains(free, flight, owner)
    ensures |flight| <= 2
  {
    var keys := flight.Keys;
    assert forall h :: h in keys ==> InChain(owner, h, flight[h]);
    if |keys| > 2 {
      var f := Pick(keys);
      var g := Pick(keys - {f});
      var h := Pick(keys - {f} - {g});
      ThreeChains(free, flight, owner, f, g, h);
    }
  }

  /** So a ring's list is short. */
  lemma {:induction false} ShortList(free: seq<bool>, flight: map<int, Req>, owner: seq<int>, queue: seq<int>,
                                     stage: Stage)
    requires Chains(free, flight, owner) && Lists(queue, flight, stage)
    ensures |queue| <= 2
  {
    if |queue| > 2 {
      ThreeChains(free, flight, owner, queue[0], queue[1], queue[2]);
      assert false;
    }
  }

  ghost function FreeSet(free: seq<bool>): set<int> { set i | 0 <= i < |free| && free[i] }

  /** Three descriptors are free unless two requests are in flight. */
  lemma {:induction false} EnoughFree(free: seq<bool>, flight: map<int, Req>, owner: seq<int>)
    requires Chains(free, flight, owner) && |flight| <= 1
    ensures |FreeSet(free)| >= 5
  {
    hide Upto;
    var taken := Upto(NUM) - FreeSet(free);
    assert Upto(NUM) == FreeSet(free) + taken;
    if flight.Keys == {} {
      assert taken == {};
    } else {
      var h := Pick(flight.Keys);
      ChainSize(owner, h, flight[h]);
      assert flight.Keys - {h} == {};
      forall i | i in taken ensures i in Chain(h, flight[h]) {
        assert owner[i] in flight.Keys;
      }
      SubsetSize(taken, Chain(h, flight[h]));
    }
  }

  // ----- rings and their 16-bit indices

  lemma {:induction false} Count16(k: nat)
    ensures (k % UINT16 + 1) % UINT16 == (k + 1) % UINT16 && k % UINT16 % NUM == k % NUM
  {
    var q, r := k / UINT16, k % UINT16;
    if r + 1 == UINT16 {
      Split16(k + 1, q + 1, 0);
    } else {
      Split16(k + 1, q, r + 1);
    }
    assert k == q * 8192 * NUM + r;
    Slot(q * 8192, r);
  }

  lemma {:induction false} Split16(x: int, q: int, r: int)
    requires x == q * UINT16 + r && 0 <= r < UINT16
    ensures x % UINT16 == r
  {
  }

  lemma {:induction false} Slot(m: int, r: int)
    ensures (m * NUM + r) % NUM == r % NUM
  {
  }

  /** Indices that differ by at most two are equal when their 16-bit forms are. */
  lemma {:induction false} Compare16(a: nat, d: nat)
    requires d <= 2
    ensures a % UINT16 == (a + d) % UINT16 <==> d == 0
  {
    var q, r := a / UINT16, a % UINT16;
    if r + d < UINT16 {
      Split16(a + d, q, r + d);
    } else {
      Split16(a + d, q + 1, r + d - UINT16);
    }
  }

  /** Adding at the end of a short ring overwrites nothing that is still in it. */
  lemma {:induction false} RingPush(ring: seq<int>, idx: int, lo: nat, queue: seq<int>, h: int)
    requires Ring(ring, idx, lo, queue) && |queue| <= 2
    ensures 0 <= idx % NUM < NUM && Ring(ring[idx % NUM := h], (idx + 1) % UINT16, lo, queue + [h])
  {
    Count16(lo + |queue|);
    var ring', queue' := ring[idx % NUM := h], queue + [h];
    forall k | 0 <= k < |queue'| && k < NUM ensures ring'[(lo + k) % NUM] == queue'[k] {
      if k < |queue| { SlotsApart(lo + k, lo + |queue|); }
    }
  }

  lemma {:induction false} SlotsApart(j: int, k: int)
    requires 0 <= j < k < j + NUM
    ensures j % NUM != k % NUM
  {
  }

  lemma {:induction false} RingPop(ring: seq<int>, idx: int, lo: nat, queue: seq<int>)
    requires Ring(ring, idx, lo, queue) && 0 < |queue| <= 2
    ensures ring[lo % NUM] == queue[0] && Ring(ring, idx, lo + 1, queue[1..])
  {
    var rest := queue[1..];
    forall k | 0 <= k < |rest| && k < NUM ensures ring[(lo + 1 + k) % NUM] == rest[k] {
      assert ring[(lo + (k + 1)) % NUM] == queue[k + 1];
    }
    assert ring[(lo + 0) % NUM] == queue[0];
  }

  // ----- steps

  /** A new request: its chain, its buffer, its place in the avail ring. */
  lemma {:induction false} NewChain(free: seq<bool>, flight: map<int, Req>, owner: seq<int>, h: int, r: Req,
                                    free': seq<bool>)
    requires Chains(free, flight, owner) && 0 <= h < r.mid < r.tail < NUM && free[h] && free[r.mid] && free[r.tail]
    requires |free'| == NUM && forall k :: 0 <= k < NUM ==> free'[k] == (free[k] && k != h && k != r.mid && k != r.tail)
    ensures h !in flight && Chains(free', flight[h := r], owner[h := h][r.mid := h][r.tail := h])
    ensures forall g :: g in flight ==> InChain(owner[h := h][r.mid := h][r.tail := h], g, flight[g])
  {
    var owner', flight' := owner[h := h][r.mid := h][r.tail := h], flight[h := r];
    forall g | g in flight ensures g != h {
      assert InChain(owner, g, flight[g]);
    }
    forall g | g in flight' ensures InChain(owner', g, flight'[g]) {
      if g != h { assert InChain(owner, g, flight[g]); }
    }
  }

  lemma {:induction false} NewRequest(desc: seq<Desc>, info: seq<Info>, ops: seq<Op>, flight: map<int, Req>,
                                      owner: seq<int>, owner': seq<int>, desc': seq<Desc>, info': seq<Info>,
                                      ops': seq<Op>, h: int, r: Req)
    requires Requests(desc, info, ops, flight, owner) && |desc'| == |info'| == |ops'| == |owner'| == NUM && h !in flight
    requires InChain(owner', h, r) && forall g :: g in flight ==> InChain(owner', g, flight[g])
    requires Formatted(desc', info', ops', h, r)
    requires forall k :: 0 <= k < NUM && k != h && k != r.mid && k != r.tail ==>
               desc'[k] == desc[k] && info'[k] == info[k] && ops'[k] == ops[k]
    ensures Requests(desc', info', ops', flight[h := r], owner')
  {
    var flight' := flight[h := r];
    forall g | g in flight' ensures Formatted(desc', info', ops', g, flight'[g]) {
      if g != h {
        assert InChain(owner', g, flight[g]) && InChain(owner, g, flight[g]);
        assert Formatted(desc, info, ops, g, flight[g]);
      }
    }
  }

  lemma {:induction false} NewBuffer(flight: map<int, Req>, busy: set<int>, h: int, r: Req)
    requires Buffers(flight, busy) && h !in flight && !r.stage.Cleared? && forall g :: g in flight ==>
               flight[g].b != r.b
    ensures Buffers(flight[h := r], busy + {r.b})
  {
    var flight' := flight[h := r];
    forall b | b in busy + {r.b} ensures exists g :: g in flight' && flight'[g].b == b {
      if b == r.b {
        assert h in flight';
      } else {
        var g :| g in flight && flight[g].b == b;
        assert g in flight';
      }
    }
  }

  lemma {:induction false} NewQueued(queue: seq<int>, pending: seq<int>, flight: map<int, Req>, h: int, r: Req)
    requires Lists(queue, flight, Queued) && Lists(pending, flight, Done) && h !in flight && r.stage.Queued?
    ensures Lists(queue + [h], flight[h := r], Queued) && Lists(pending, flight[h := r], Done)
  {
    var queue', flight' := queue + [h], flight[h := r];
    forall g | g in flight' && flight'[g].stage == Queued ensures g in queue' {
      if g != h { assert g in queue; }
    }
  }

  /** A request moving to another stage keeps its chain. */
  lemma {:induction false} ChainsStage(free: seq<bool>, flight: map<int, Req>, owner: seq<int>, h: int, stage: Stage)
    requires Chains(free, flight, owner) && h in flight
    ensures Chains(free, flight[h := flight[h].(stage := stage)], owner)
  {
    var flight' := flight[h := flight[h].(stage := stage)];
    forall g | g in flight' ensures InChain(owner, g, flight'[g]) {
      assert InChain(owner, g, flight[g]);
    }
  }

  /** What a request has read concerns nobody else. */
  lemma {:induction false} Noted(free: seq<bool>, desc: seq<Desc>, info: seq<Info>, ops: seq<Op>, busy: set<int>,
                                 flight: map<int, Req>, owner: seq<int>, queue: seq<int>, pending: seq<int>, h: int,
                                 r: Req)
    requires Chains(free, flight, owner) && Requests(desc, info, ops, flight, owner) && Buffers(flight, busy)
    requires Lists(queue, flight, Queued) && Lists(pending, flight, Done)
    requires h in flight && r == flight[h].(data := r.data, at := r.at)
    ensures Chains(free, flight[h := r], owner) && Requests(desc, info, ops, flight[h := r], owner)
    ensures Buffers(flight[h := r], busy)
    ensures Lists(queue, flight[h := r], Queued) && Lists(pending, flight[h := r], Done)
  {
    var flight' := flight[h := r];
    forall g | g in flight'
      ensures |owner| == NUM && InChain(owner, g, flight'[g]) && Formatted(desc, info, ops, g, flight'[g])
    {
      assert InChain(owner, g, flight[g]) && Formatted(desc, info, ops, g, flight[g]);
    }
    assert Buffers(flight', busy) by {
      forall b | b in busy ensures exists g :: g in flight' && flight'[g].b == b {
        var g :| g in flight && flight[g].b == b;
        assert g in flight';
      }
    }
  }

  lemma {:induction false} RequestsStage(desc: seq<Desc>, info: seq<Info>, info': seq<Info>, ops: seq<Op>,
                                         flight: map<int, Req>, owner: seq<int>, h: int, stage: Stage)
    requires Requests(desc, info, ops, flight, owner) && h in flight && |info'| == NUM
    requires forall k :: 0 <= k < NUM && k != h ==> info'[k] == info[k]
    requires 0 <= h < NUM && info'[h].b == info[h].b && (stage.Done? || stage.Cleared? ==> info'[h].status == 0)
    ensures Requests(desc, info', ops, flight[h := flight[h].(stage := stage)], owner)
  {
    var flight' := flight[h := flight[h].(stage := stage)];
    forall g | g in flight' ensures InChain(owner, g, flight'[g]) && Formatted(desc, info', ops, g, flight'[g]) {
      assert InChain(owner, g, flight[g]) && Formatted(desc, info, ops, g, flight[g]);
    }
  }

  lemma {:induction false} BuffersStage(flight: map<int, Req>, busy: set<int>, h: int, stage: Stage)
    requires Buffers(flight, busy) && h in flight && !flight[h].stage.Cleared?
    ensures Buffers(flight[h := flight[h].(stage := stage)], if stage.Cleared? then busy - {flight[h].b} else busy)
  {
    var flight' := flight[h := flight[h].(stage := stage)];
    forall b | b in busy ensures exists g :: g in flight' && flight'[g].b == b {
      var g :| g in flight && flight[g].b == b;
      assert g in flight';
    }
  }

  /** The first of a list leaves it for another stage. */
  lemma {:induction false} ListsPop(queue: seq<int>, flight: map<int, Req>, from: Stage, to: Stage)
    requires Lists(queue, flight, from) && queue != [] && from != to
    ensures queue[0] in flight && Lists(queue[1..], flight[queue[0] := flight[queue[0]].(stage := to)], from)
  {
    var h := queue[0];
    var flight' := flight[h := flight[h].(stage := to)];
    var rest := queue[1..];
    forall g | g in flight' && flight'[g].stage == from ensures g in rest {
      assert g in queue;
    }
  }

  lemma {:induction false} ListsPush(queue: seq<int>, flight: map<int, Req>, h: int, to: Stage)
    requires Lists(queue, flight, to) && h in flight && flight[h].stage != to
    ensures Lists(queue + [h], flight[h := flight[h].(stage := to)], to)
  {
    var queue', flight' := queue + [h], flight[h := flight[h].(stage := to)];
    forall g | g in flight' && flight'[g].stage == to ensures g in queue' {
      if g != h { assert g in queue; }
    }
  }

  lemma {:induction false} ListsOther(queue: seq<int>, flight: map<int, Req>, stage: Stage, h: int, to: Stage)
    requires Lists(queue, flight, stage) && h in flight && flight[h].stage != stage && to != stage
    ensures Lists(queue, flight[h := flight[h].(stage := to)], stage)
  {
  }

  /** A finished request gives its chain back. */
  lemma {:induction false} DropChain(free: seq<bool>, flight: map<int, Req>, owner: seq<int>, h: int, free': seq<bool>)
    requires Chains(free, flight, owner) && h in flight && |free'| == NUM
    requires forall k :: 0 <= k < NUM ==> free'[k] == (free[k] || k in Chain(h, flight[h]))
    ensures InChain(owner, h, flight[h])
    ensures Chains(free', flight - {h}, owner[h := -1][flight[h].mid := -1][flight[h].tail := -1])
    ensures forall g :: g in flight - {h} ==>
               InChain(owner[h := -1][flight[h].mid := -1][flight[h].tail := -1], g, flight[g])
  {
    assert InChain(owner, h, flight[h]);
    var r := flight[h];
    var owner', flight' := owner[h := -1][r.mid := -1][r.tail := -1], flight - {h};
    forall g | g in flight' ensures InChain(owner', g, flight'[g]) {
      assert InChain(owner, g, flight[g]);
    }
  }

  lemma {:induction false} DropRequest(desc: seq<Desc>, info: seq<Info>, ops: seq<Op>, flight: map<int, Req>,
                                       owner: seq<int>, owner': seq<int>, desc': seq<Desc>, info': seq<Info>, h: int)
    requires Requests(desc, info, ops, flight, owner) && h in flight && |desc'| == |info'| == |owner'| == NUM
    requires forall g :: g in flight - {h} ==> InChain(owner', g, flight[g])
    requires forall k :: 0 <= k < NUM && k !in Chain(h, flight[h]) ==> desc'[k] == desc[k]
    requires forall k :: 0 <= k < NUM && k != h ==> info'[k] == info[k]
    ensures Requests(desc', info', ops, flight - {h}, owner')
  {
    forall g | g in flight - {h} ensures Formatted(desc', info', ops, g, flight[g]) {
      assert InChain(owner, g, flight[g]) && InChain(owner, h, flight[h]) && Formatted(desc, info, ops, g, flight[g]);
    }
  }

  lemma {:induction false} DropRest(flight: map<int, Req>, busy: set<int>, queue: seq<int>, pending: seq<int>, h: int)
    requires Buffers(flight, busy) && Lists(queue, flight, Queued) && Lists(pending, flight, Done)
    requires h in flight && flight[h].stage.Cleared?
    ensures Buffers(flight - {h}, busy) && Lists(queue, flight - {h}, Queued) && Lists(pending, flight - {h}, Done)
  {
    var flight' := flight - {h};
    forall b | b in busy ensures exists g :: g in flight' && flight'[g].b == b {
      var g :| g in flight && flight[g].b == b;
      assert g in flight';
    }
  }
}
