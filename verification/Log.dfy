/** kernel/log.c as it runs: the in-memory header, the pinned buffers and the disk, changed step by
    step. Every bwrite is recorded, so that the crash analysis of module Recovery applies to it, and
    every call is shown to be steps of the machine of module LogRuns. */
module Log {
  import opened Params
  import opened Disk
  import opened Recovery
  import opened LogRuns

  datatype Outcome = Ok | Panic(msg: string)

  /** The blocks of lh, and no others, have pinned buffers. */
  ghost predicate Pins(lh: seq<int>, cache: map<int, Block>) {
    && (forall i :: 0 <= i < |lh| ==> lh[i] in cache)
    && (forall b :: b in cache ==> b in lh)
  }

  class Log {
    const lay: Layout
    /** the disk, and the buffers log_write has pinned; every other buffer agrees with the disk */
    var disk: Image
    var cache: map<int, Block>
    var outstanding: int
    var committing: bool
    /** lh.n and lh.block */
    var n: nat
    var block: array<int>
    /** the writes issued so far */
    ghost var trace: seq<Write>
    /** the slots each outstanding operation has added */
    ghost var ops: seq<nat>
    /** the processes asleep in begin_op */
    ghost var sleepers: set<int>

    ghost predicate Sized()
      reads this
    {
      && block.Length == LOGSIZE && n <= LOGSIZE
      && lay.Fits(|disk|) && |disk[lay.start].w| == WORDS
      && 0 <= outstanding == |ops| && (committing ==> outstanding == 0)
    }

    ghost predicate Valid()
      reads this, block
    {
      Sized() && HomeOk(lay, |disk|, block[..n])
    }

    /** Nobody sleeps who would be let in. */
    ghost predicate Rested()
      reads this
    {
      sleepers != {} ==> committing || n + (outstanding + 1) * MAXOPBLOCKS > LOGSIZE
    }

    /** The log while system calls run, as a state of the machine of module LogRuns. */
    ghost function Running(): State
      reads this, block
      requires n <= block.Length
    {
      State(disk, Open(block[..n], cache, ops))
    }

    /** Between transactions and while one is being built: the log on disk is clear and the header
        names exactly the pinned blocks, each once. */
    ghost predicate Building()
      reads this, block
    {
      && Valid() && Rested() && LogClear(lay, disk) && Distinct(block[..n])
      && Pins(block[..n], cache)
    }

    /** bread: the pinned buffer if there is one, otherwise what is on disk. */
    function Bread(b: int): Block
      reads this
      requires 0 <= b < |disk|
    {
      if b in cache then cache[b] else disk[b]
    }

    method BWrite(b: nat, data: Block)
      requires b < |disk|
      modifies this`disk, this`trace
      ensures disk == old(disk)[b := data]
      ensures trace == old(trace) + [Write(b, data)]
    {
      disk := disk[b := data];
      trace := trace + [Write(b, data)];
    }

    method WriteLog()
      requires Valid() && forall b :: b in cache ==> !lay.InLog(b)
      modifies this`disk, this`trace
      ensures var ws := LogWrites(lay, Contents(cache, old(disk), block[..n]));
              && InRange(ws, |old(disk)|) && disk == Apply(old(disk), ws) && trace == old(trace) + ws
      ensures disk[lay.start] == old(disk)[lay.start]
      ensures Sized()
    {
      hide Apply, Next;
      ghost var home := block[..n];
      ghost var ws := LogWrites(lay, Contents(cache, disk, home));
      NoWrites(disk, ws[..0]);
      var tail := 0;
      while tail < n
        invariant 0 <= tail <= n && |disk| == |old(disk)|
        invariant disk == Apply(old(disk), ws[..tail]) && trace == old(trace) + ws[..tail]
        invariant forall a :: 0 <= a < |disk| && !(lay.start < a <= lay.start + tail) ==> disk[a] == old(disk)[a]
      {
        var from := Bread(block[tail]);
        OneMoreWrite(old(disk), ws, tail);
        assert ws[tail] == Write(lay.start + tail + 1, from);
        BWrite(lay.start + tail + 1, from);
        tail := tail + 1;
      }
      assert ws[..n] == ws;
    }

    method WriteHead()
      requires Sized()
      modifies this`disk, this`trace
      ensures disk == old(disk)[lay.start := HeaderBlock(old(disk)[lay.start], block[..n])]
      ensures trace == old(trace) + [Write(lay.start, HeaderBlock(old(disk)[lay.start], block[..n]))]
      ensures Sized()
    {
      var w := disk[lay.start].w;
      ghost var w0 := w;
      w := w[0 := n];
      var i := 0;
      while i < n
        invariant 0 <= i <= n && |w| == WORDS && w[0] == n
        invariant w[1..i + 1] == block[..i] && w[i + 1..] == w0[i + 1..]
      {
        w := w[i + 1 := block[i]];
        i := i + 1;
      }
      assert w == [n] + block[..n] + w0[n + 1..];
      BWrite(lay.start, Block(w));
    }

    method InstallBlock(b: nat, data: Block, recovering: bool)
      requires b < |disk|
      modifies this`disk, this`trace, this`cache
      ensures disk == old(disk)[b := data] && trace == old(trace) + [Write(b, data)]
      ensures cache == if recovering then old(cache) else old(cache) - {b}
    {
      BWrite(b, data);
      if !recovering {
        cache := cache - {b};
      }
    }

    method InstallTrans(recovering: bool)
      requires Valid()
      modifies this`disk, this`trace, this`cache
      ensures var ws := InstallWrites(block[..n], LogData(lay, old(disk), n));
              && InRange(ws, |old(disk)|) && disk == Apply(old(disk), ws) && trace == old(trace) + ws
      ensures disk[lay.start] == old(disk)[lay.start]
      ensures cache == if recovering then old(cache) else Unpin(old(cache), block[..n])
      ensures Sized()
    {
      hide Apply, Next;
      ghost var home := block[..n];
      ghost var d0, t0, c0 := disk, trace, cache;
      ghost var ws := InstallWrites(home, LogData(lay, d0, n));
      assert InRange(ws, |d0|);
      NoWrites(d0, ws[..0]);
      var tail := 0;
      while tail < n
        invariant 0 <= tail <= n && |disk| == |d0|
        invariant disk == Apply(d0, ws[..tail]) && trace == t0 + ws[..tail]
        invariant forall a :: lay.start <= a < lay.start + lay.size ==> disk[a] == d0[a]
        invariant cache == if recovering then c0 else Unpin(c0, home[..tail])
      {
        var lbuf := disk[lay.start + tail + 1];
        assert ws[tail] == Write(home[tail], lbuf) && !lay.InLog(home[tail]);
        OneMoreWrite(d0, ws, tail);
        Unpinned(c0, home, tail);
        InstallBlock(block[tail], lbuf, recovering);
        tail := tail + 1;
      }
      assert ws[..n] == ws && home[..n] == home;
    }

    method ReadHead()
      requires block.Length == LOGSIZE && DiskOk(lay, disk)
      modifies this`n, block
      ensures n <= LOGSIZE && block[..n] == Header(disk[lay.start])
    {
      var w := disk[lay.start].w;
      n := w[0];
      var i := 0;
      while i < n
        invariant 0 <= i <= n == w[0] <= LOGSIZE && block[..i] == w[1..i + 1]
      {
        block[i] := w[i + 1];
        i := i + 1;
      }
    }

    /** recover_from_log does the writes RecoveryWrites lists, so crashing in it any number of times
        still ends in the same disk. */
    method RecoverFromLog()
      requires block.Length == LOGSIZE && DiskOk(lay, disk) && outstanding == 0 && ops == [] && sleepers == {}
      modifies this`disk, this`trace, this`cache, this`n, block
      ensures disk == Recovered(lay, old(disk))
      ensures trace == old(trace) + RecoveryWrites(lay, old(disk))
      ensures n == 0 && Valid() && LogClear(lay, disk) && cache == old(cache)
      ensures cache == map[] && Distinct(Header(old(disk)[lay.start])) ==> Building() && forall budget: nat ::
                Leads(lay, budget, State(old(disk), Recovering(old(disk), 0)),
                      Repeat(RecoverBlock, |RecoveryWrites(lay, old(disk))|), Running())
    {
      ReadHead();
      InstallTrans(true);
      n := 0;
      ghost var d := disk;
      WriteHead();
      ghost var home := Header(old(disk)[lay.start]);
      ghost var ws := InstallWrites(home, LogData(lay, old(disk), |home|));
      assert block[..0] == [];
      ghost var w := HeadWrite(lay, old(disk), []);
      assert RecoveryWrites(lay, old(disk)) == ws + [w];
      assert (ws + [w])[..|ws|] == ws;
      if Distinct(home) {
        hide Leads, Repeat;
        RecoverLeads(lay, old(disk));
      }
    }

    /** commit does the writes CommitWrites lists: a crash between any two of them is covered by
        CrashAtomicity. */
    method Commit()
      requires Building() && committing
      modifies this`disk, this`trace, this`cache, this`n
      ensures old(n) > 0 ==>
        && disk == Apply(old(disk), CommitWrites(lay, old(disk), old(block[..n]),
                                                 Contents(old(cache), old(disk), old(block[..n]))))
        && trace == old(trace) + CommitWrites(lay, old(disk), old(block[..n]),
                                              Contents(old(cache), old(disk), old(block[..n])))
      ensures old(n) == 0 ==> disk == old(disk) && trace == old(trace)
      ensures n == 0 && cache == map[] && Building()
    {
      hide Apply;
      if n > 0 {
        ghost var d0, home, data := disk, block[..n], Contents(cache, disk, block[..n]);
        ghost var u, v := LogWrites(lay, data), InstallWrites(home, data);
        ghost var h := HeaderBlock(d0[lay.start], home);
        WriteLog();
        ghost var d1 := disk;
        WriteHead();
        ghost var d2 := disk;
        assert LogData(lay, d2, |home|) == data by { LogHolds(lay, d0, data, d2); }
        InstallTrans(false);
        ghost var d3 := disk;
        n := 0;
        WriteHead();
        assert disk == d3[lay.start := HeaderBlock(h, [])] && trace == old(trace) + u + [Write(lay.start, h)] + v
               + [Write(lay.start, HeaderBlock(h, []))] by {
          assert block[..0] == [];
        }
        assert trace == old(trace) + CommitWrites(lay, d0, home, data)
               && disk == Apply(d0, CommitWrites(lay, d0, home, data)) by {
          CommitSplit(lay, d0, home, data, d1, d2, d3);
          Regroup(old(trace), u, [Write(lay.start, h)], v, [Write(lay.start, HeaderBlock(h, []))]);
        }
        assert LogClear(lay, disk) by { CommitDone(lay, d0, home, data); }
        AllUnpinned(old(cache), home);
      } else {
        NoPins(cache, block[..n]);
      }
    }

    /** log_write by the outstanding operation op, which has put data in b's buffer. */
    method LogWrite(b: int, data: Block, ghost op: nat) returns (r: Outcome)
      requires Building() && 0 <= b < |disk| && !lay.InLog(b) && (outstanding > 0 ==> op < |ops|)
      modifies this`cache, this`n, this`ops, block
      ensures r.Panic? <==> old(n) >= LOGSIZE || old(n) >= lay.size - 1 || outstanding < 1
      ensures r.Panic? ==> n == old(n) && block[..n] == old(block[..n]) && cache == old(cache)
      ensures r.Ok? ==> cache == old(cache)[b := data]
      ensures Building()
      ensures r.Ok? ==> block[..n] == if b in old(block[..n]) then old(block[..n]) else old(block[..n]) + [b]
      ensures outstanding > 0 ==>
        AfterWrite(lay, old(Running()), op, b, data) == if r.Ok? then Running() else State(disk, Panicked)
    {
      hide LogClear, AfterWrite, HomeOk, Distinct, Pins;
      if outstanding > 0 { Wrote(lay, Running(), op, b, data); }
      OneMore(lay, |disk|, block[..n], cache, b, data);
      if n >= LOGSIZE || n >= lay.size - 1 {
        return Panic("too big a transaction");
      }
      if outstanding < 1 {
        return Panic("log_write outside of trans");
      }
      var i := 0;
      while i < n && block[i] != b
        invariant 0 <= i <= n && b !in block[..i]
      {
        i := i + 1;
      }
      cache := cache[b := data];
      block[i] := b;
      if i == n {
        n := n + 1;
        ops := ops[op := ops[op] + 1];
        assert block[..n] == old(block[..n]) + [b];
      } else {
        assert block[..n] == old(block[..n]) && block[i] in block[..n];
      }
      r := Ok;
    }

    /** One look at the log by process p in begin_op; false means it sleeps, and looks again when woken. */
    method BeginOp(p: int) returns (admitted: bool)
      requires Valid() && Rested()
      modifies this`outstanding, this`ops, this`sleepers
      ensures admitted <==> !committing && n + (old(outstanding) + 1) * MAXOPBLOCKS <= LOGSIZE
      ensures outstanding == old(outstanding) + if admitted then 1 else 0
      ensures sleepers == old(sleepers) + if admitted then {} else {p}
      ensures Valid() && Rested() && (old(Building()) ==> Building())
      ensures if admitted then BeginNext(old(Running()), Running()) else Running() == old(Running())
    {
      if committing {
        sleepers := sleepers + {p};
        return false;
      } else if n + (outstanding + 1) * MAXOPBLOCKS > LOGSIZE {
        sleepers := sleepers + {p};
        return false;
      }
      outstanding := outstanding + 1;
      ops := ops + [0];
      return true;
    }

    /** end_op by operation op: the last one out commits the group. Either way everyone asleep in begin_op
        looks again. */
    method EndOp(ghost op: nat)
      requires Building() && outstanding > 0 && op < |ops|
      modifies this`disk, this`trace, this`cache, this`n, this`outstanding, this`committing, this`ops, this`sleepers
      ensures outstanding == old(outstanding) - 1 && !committing && Building() && sleepers == {}
      ensures ops == old(ops[..op] + ops[op + 1..])
      ensures outstanding > 0 || old(n) == 0 ==> disk == old(disk) && n == old(n) && cache == old(cache)
      ensures outstanding > 0 || old(n) == 0 ==> EndNext(old(Running()), op, Running())
      ensures outstanding == 0 && old(n) > 0 ==>
        && n == 0 && cache == map[]
        && disk == Apply(old(disk), CommitWrites(lay, old(disk), old(block[..n]),
                                                 Contents(old(cache), old(disk), old(block[..n]))))
      ensures outstanding == 0 && old(n) > 0 ==>
        forall budget: nat :: Leads(lay, budget, old(Running()), LastEnd(op, old(n)), Running())
    {
      hide Apply, CommitWrites, Leads, LastEnd, LogClear, Contents, Next;
      ghost var s := Running();
      outstanding := outstanding - 1;
      ops := ops[..op] + ops[op + 1..];
      if outstanding == 0 {
        committing := true;
        if n == 0 { NoPins(cache, block[..n]); }
        Commit();
        committing := false;
        sleepers := {};
        if old(n) > 0 {
          forall budget: nat
            ensures Leads(lay, budget, s, LastEnd(op, old(n)), State(disk, Open([], map[], [])))
          {
            EndPath(lay, budget, s, op);
          }
        }
      } else {
        sleepers := {};
      }
    }
  }

  lemma {:induction false} OneMore(lay: Layout, size: nat, lh: seq<int>, cache: map<int, Block>, b: int, v: Block)
    requires HomeOk(lay, size, lh) && Distinct(lh) && Pins(lh, cache) && 0 <= b < size && !lay.InLog(b)
    ensures b in lh ==> Pins(lh, cache[b := v])
    ensures b !in lh ==> Distinct(lh + [b]) && Pins(lh + [b], cache[b := v])
    ensures |lh| < LOGSIZE && |lh| < lay.size - 1 ==> HomeOk(lay, size, lh + [b])
  {
  }

  lemma {:induction false} Wrote(lay: Layout, s: State, op: nat, b: int, v: Block)
    requires s.phase.Open? && op < |s.phase.ops|
    ensures var p, t := s.phase, AfterWrite(lay, s, op, b, v);
            if |p.lh| >= LOGSIZE || |p.lh| >= lay.size - 1 then t == State(s.disk, Panicked)
            else if b in p.lh then t == State(s.disk, Open(p.lh, p.cache[b := v], p.ops))
            else t == State(s.disk, Open(p.lh + [b], p.cache[b := v], p.ops[op := p.ops[op] + 1]))
  {
  }

  lemma {:induction false} RecoverLeads(lay: Layout, d: Image)
    requires DiskOk(lay, d) && Distinct(Header(d[lay.start]))
    ensures forall budget: nat ::
              Leads(lay, budget, State(d, Recovering(d, 0)), Repeat(RecoverBlock, |RecoveryWrites(lay, d)|),
                    State(Recovered(lay, d), Open([], map[], [])))
  {
    hide Leads, Repeat, RecoveryWrites;
    NoWrites(d, RecoveryWrites(lay, d)[..0]);
    forall budget: nat
      ensures Leads(lay, budget, State(d, Recovering(d, 0)), Repeat(RecoverBlock, |RecoveryWrites(lay, d)|),
                    State(Recovered(lay, d), Open([], map[], [])))
    {
      RecoverPath(lay, budget, State(d, Recovering(d, 0)));
    }
  }

  /** The last operation's end, and the commit it starts. */
  lemma {:induction false} EndPath(lay: Layout, budget: nat, s: State, op: nat)
    requires s.phase.Open? && |s.phase.ops| == 1 && op == 0 && |s.phase.lh| > 0
    requires LogClear(lay, s.disk) && HomeOk(lay, |s.disk|, s.phase.lh) && Distinct(s.phase.lh)
    ensures var ws := CommitWrites(lay, s.disk, s.phase.lh, Contents(s.phase.cache, s.disk, s.phase.lh));
            Leads(lay, budget, s, LastEnd(op, |s.phase.lh|),
                  State(Apply(s.disk, ws), Open([], map[], [])))
  {
    hide Leads, CommitWrites;
    var data := Contents(s.phase.cache, s.disk, s.phase.lh);
    var t := State(s.disk, Committing(s.disk, s.phase.lh, data, 0));
    var ws := CommitWrites(lay, s.disk, s.phase.lh, data);
    assert ws[..0] == [];
    CommitPath(lay, budget, t);
    FirstStep(lay, budget, s, End(op), t, Repeat(CommitBlock, |ws|), State(Apply(s.disk, ws), Open([], map[], [])));
  }

  /** The four groups of writes, one after the other, are the writes of the commit. */
  lemma {:induction false} CommitSplit(lay: Layout, d0: Image, home: seq<int>, data: seq<Block>, d1: Image, d2: Image,
                                       d3: Image)
    requires LogClear(lay, d0) && HomeOk(lay, |d0|, home) && |data| == |home|
    requires InRange(LogWrites(lay, data), |d0|) && d1 == Apply(d0, LogWrites(lay, data))
    requires d1[lay.start] == d0[lay.start]
    requires d2 == d1[lay.start := HeaderBlock(d0[lay.start], home)]
    requires InRange(InstallWrites(home, data), |d2|) && d3 == Apply(d2, InstallWrites(home, data))
    ensures var h := HeaderBlock(d0[lay.start], home);
            CommitWrites(lay, d0, home, data) == LogWrites(lay, data) + [Write(lay.start, h)]
              + InstallWrites(home, data) + [Write(lay.start, HeaderBlock(h, []))]
    ensures d3[lay.start := HeaderBlock(d2[lay.start], [])] == Apply(d0, CommitWrites(lay, d0, home, data))
  {
    var u, v := LogWrites(lay, data), InstallWrites(home, data);
    var h := HeaderBlock(d0[lay.start], home);
    var w, x := Write(lay.start, h), Write(lay.start, HeaderBlock(h, []));
    assert CommitWrites(lay, d0, home, data) == u + [w] + v + [x];
    OneWrite(d1, w);
    ApplyConcat(d0, u, [w]);
    ApplyConcat(d0, u + [w], v);
    ApplyConcat(d0, u + [w] + v, [x]);
    OneWrite(d3, x);
  }

  /** Once write_log is done the log blocks hold the transaction. */
  lemma {:induction false} LogHolds(lay: Layout, d0: Image, data: seq<Block>, d2: Image)
    requires lay.Fits(|d0|) && |data| < lay.size && |d2| == |d0|
    requires InRange(LogWrites(lay, data), |d0|)
    requires forall a :: lay.start < a < |d0| ==> d2[a] == Apply(d0, LogWrites(lay, data))[a]
    ensures LogData(lay, d2, |data|) == data
  {
    var held := LogData(lay, d2, |data|);
    forall i | 0 <= i < |data| ensures held[i] == data[i] {
      ApplyLast(d0, LogWrites(lay, data), i);
    }
  }

  lemma {:induction false} NoPins(cache: map<int, Block>, lh: seq<int>)
    requires lh == [] && forall b :: b in cache ==> b in lh
    ensures cache == map[]
  {
    assert forall b :: b !in cache;
  }

  ghost function Unpin(cache: map<int, Block>, home: seq<int>): map<int, Block> {
    map b | b in cache && b !in home :: cache[b]
  }

  lemma {:induction false} Unpinned(cache: map<int, Block>, home: seq<int>, i: nat)
    requires i < |home|
    ensures Unpin(cache, home[..i]) - {home[i]} == Unpin(cache, home[..i + 1])
  {
    assert home[..i + 1] == home[..i] + [home[i]];
  }

  lemma {:induction false} AllUnpinned(cache: map<int, Block>, home: seq<int>)
    requires forall b :: b in cache ==> b in home
    ensures Unpin(cache, home) == map[]
  {
    var u := Unpin(cache, home);
    assert forall b :: b !in u;
  }

  lemma {:induction false} Regroup(t: seq<Write>, u: seq<Write>, w: seq<Write>, v: seq<Write>, x: seq<Write>)
    ensures t + u + w + v + x == t + (u + w + v + x)
  {
  }

  lemma {:induction false} OneWrite(d: Image, w: Write)
    requires w.addr < |d|
    ensures Apply(d, [w]) == d[w.addr := w.data]
  {
    assert [w][..0] == [];
  }
}
