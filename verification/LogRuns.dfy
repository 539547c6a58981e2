/** Whole runs of the log: concurrent operations, group commit, crashes and recoveries, one disk
    write at a time, refined to a store whose durable contents change only all at once. */
module LogRuns {
  import opened Params
  import opened Disk
  import opened Recovery

  /** What the running kernel is doing; a crash loses all of it. */
  datatype Phase =
      /** system calls run: lh.block[0..lh.n), the pinned buffers, and the slots each outstanding
          operation has added so far */
    | Open(lh: seq<int>, cache: map<int, Block>, ops: seq<nat>)
      /** commit() started on disk from and has done so many of its writes */
    | Committing(from: Image, home: seq<int>, data: seq<Block>, done: nat)
    | Down
      /** recover_from_log() started on disk from and has done so many of its writes */
    | Recovering(from: Image, done: nat)
      /** panic("too big a transaction") */
    | Panicked

  datatype State = State(disk: Image, phase: Phase)

  datatype Event =
    | Begin
    | Update(op: nat, b: int, v: Block)
    | End(op: nat)
    | CommitBlock
    | Crash
    | Boot
    | RecoverBlock

  /** The state log_write leaves: it panics when the log looks full, absorbs a repeated block. */
  ghost function AfterWrite(lay: Layout, s: State, op: nat, b: int, v: Block): State
    requires s.phase.Open? && op < |s.phase.ops|
  {
    var p := s.phase;
    if |p.lh| >= LOGSIZE || |p.lh| >= lay.size - 1 then s.(phase := Panicked)
    else if b in p.lh then s.(phase := p.(cache := p.cache[b := v]))
    else s.(phase := Open(p.lh + [b], p.cache[b := v], p.ops[op := p.ops[op] + 1]))
  }

  ghost predicate BeginNext(s: State, t: State) {
    && s.phase.Open? && |s.phase.lh| + (|s.phase.ops| + 1) * MAXOPBLOCKS <= LOGSIZE
    && t == s.(phase := s.phase.(ops := s.phase.ops + [0]))
  }

  /** budget bounds the slots one operation may add. */
  ghost predicate WriteNext(lay: Layout, budget: nat, s: State, op: nat, b: int, v: Block, t: State) {
    && s.phase.Open? && op < |s.phase.ops|
    && 0 <= b < |s.disk| && !lay.InLog(b)
    && (b in s.phase.lh || s.phase.ops[op] < budget)
    && t == AfterWrite(lay, s, op, b, v)
  }

  /** end_op: the last outstanding operation commits, if anything was logged. */
  ghost predicate EndNext(s: State, op: nat, t: State) {
    && s.phase.Open? && op < |s.phase.ops|
    && var rest := s.phase.ops[..op] + s.phase.ops[op + 1..];
    if rest != [] || s.phase.lh == [] then
      t == s.(phase := s.phase.(ops := rest))
    else
      && (forall i :: 0 <= i < |s.phase.lh| ==> 0 <= s.phase.lh[i] < |s.disk|)
      && t == s.(phase := Committing(s.disk, s.phase.lh, Contents(s.phase.cache, s.disk, s.phase.lh), 0))
  }

  /** One of commit's disk writes; the last one lets operations in again. */
  ghost predicate CommitNext(lay: Layout, s: State, t: State) {
    && s.phase.Committing? && CommitReady(lay, s.phase)
    && var Committing(from, home, data, done) := s.phase;
    var ws := CommitWrites(lay, from, home, data);
    && done < |ws| && ws[done].addr < |s.disk|
    && t.disk == s.disk[ws[done].addr := ws[done].data]
    && t.phase == if done + 1 == |ws| then Open([], map[], []) else Committing(from, home, data, done + 1)
  }

  /** One of recovery's disk writes. */
  ghost predicate RecoverNext(lay: Layout, s: State, t: State) {
    && s.phase.Recovering? && DiskOk(lay, s.phase.from)
    && var Recovering(from, done) := s.phase;
    var ws := RecoveryWrites(lay, from);
    && done < |ws| && ws[done].addr < |s.disk|
    && t.disk == s.disk[ws[done].addr := ws[done].data]
    && t.phase == if done + 1 == |ws| then Open([], map[], []) else Recovering(from, done + 1)
  }

  /** One step at lock granularity. */
  ghost predicate Next(lay: Layout, budget: nat, s: State, e: Event, t: State) {
    match e
    case Begin => BeginNext(s, t)
    case Update(op, b, v) => WriteNext(lay, budget, s, op, b, v, t)
    case End(op) => EndNext(s, op, t)
    case CommitBlock => CommitNext(lay, s, t)
    case Crash => !s.phase.Panicked? && t == State(s.disk, Down)
    case Boot => s.phase.Down? && t == State(s.disk, Recovering(s.disk, 0))
    case RecoverBlock => RecoverNext(lay, s, t)
  }

  ghost predicate CommitReady(lay: Layout, p: Phase)
    requires p.Committing?
  {
    && LogClear(lay, p.from) && HomeOk(lay, |p.from|, p.home) && |p.data| == |p.home|
    && Distinct(p.home) && |p.home| > 0
  }

  ghost predicate OpenInv(lay: Layout, disk: Image, lh: seq<int>, cache: map<int, Block>, ops: seq<nat>) {
    && LogClear(lay, disk) && HomeOk(lay, |disk|, lh) && Distinct(lh)
    && (forall i :: 0 <= i < |lh| ==> lh[i] in cache) && (forall b :: b in cache ==> b in lh)
    && (ops == [] ==> lh == [])
  }

  ghost predicate CommitInv(lay: Layout, s: State)
    requires s.phase.Committing?
  {
    && CommitReady(lay, s.phase)
    && var ws := CommitWrites(lay, s.phase.from, s.phase.home, s.phase.data);
    s.phase.done < |ws| && s.disk == Apply(s.phase.from, ws[..s.phase.done])
  }

  ghost predicate RecoverInv(lay: Layout, from: Image, done: nat, disk: Image) {
    && DiskOk(lay, from) && Distinct(Header(from[lay.start]))
    && done < |RecoveryWrites(lay, from)|
    && disk == Apply(from, RecoveryWrites(lay, from)[..done])
  }

  /** What holds at every step of every run. */
  ghost predicate Inv(lay: Layout, s: State) {
    match s.phase
    case Open(lh, cache, ops) => OpenInv(lay, s.disk, lh, cache, ops)
    case Committing(_, _, _, _) => CommitInv(lay, s)
    case Down => DiskOk(lay, s.disk) && Distinct(Header(s.disk[lay.start]))
    case Recovering(from, done) => RecoverInv(lay, from, done, s.disk)
    case Panicked => LogClear(lay, s.disk)
  }

  /** Booting from a disk that mkfs wrote or that an earlier run left behind. */
  ghost predicate Init(lay: Layout, s: State) {
    s.phase.Down? && DiskOk(lay, s.disk) && Distinct(Header(s.disk[lay.start]))
  }

  // ----- the store the log implements

  /** Home blocks by number: what a crash leaves behind, and what system calls see. */
  datatype Store = Store(durable: map<int, Block>, pending: map<int, Block>)

  ghost function Homes(lay: Layout, d: Image): map<int, Block> {
    map a | 0 <= a < |d| && !lay.InLog(a) :: d[a]
  }

  ghost function Transaction(home: seq<int>, data: seq<Block>): map<int, Block>
    requires |home| == |data|
  {
    map a | a in home :: data[Index(home, a)]
  }

  ghost function Index(home: seq<int>, a: int): (i: nat)
    requires a in home
    ensures i < |home| && home[i] == a
  {
    var i :| 0 <= i < |home| && home[i] == a; i
  }

  ghost function Abs(lay: Layout, s: State): Store
    requires Inv(lay, s)
  {
    InvDiskOk(lay, s);
    var durable := Homes(lay, Recovered(lay, s.disk));
    match s.phase
    case Open(lh, cache, ops) => Store(durable, durable + cache)
    case Committing(_, home, data, done) => Store(durable, durable + Transaction(home, data))
    case _ => Store(durable, durable)
  }

  /** What each event does to the store: only the write of a non-empty header makes anything durable, and
      then everything pending; a crash drops what is pending. */
  ghost predicate StoreNext(s: State, e: Event, t: State, a: Store, b: Store) {
    match e
    case Update(_, blk, v) =>
      b == if t.phase.Panicked? then Store(a.durable, a.durable) else Store(a.durable, a.pending[blk := v])
    case CommitBlock =>
      b == if s.phase.Committing? && s.phase.done == |s.phase.home| then Store(a.pending, a.pending) else a
    case Crash => b == Store(a.durable, a.durable)
    case _ => b == a
  }

  // ----- every step keeps the invariant and refines the store

  /** At every step a crash would find a disk from which recovery can start. */
  lemma {:induction false} InvDiskOk(lay: Layout, s: State)
    requires Inv(lay, s)
    ensures DiskOk(lay, s.disk) && Distinct(Header(s.disk[lay.start]))
  {
    match s.phase
    case Committing(from, home, data, done) =>
      if done <= |home| {
        BeforeCommitPoint(lay, from, home, data, done);
        RecoverClear(lay, s.disk);
      } else {
        AfterCommitPoint(lay, from, home, data, done);
      }
    case Recovering(from, done) =>
      RecoveryMidway(lay, from, done);
    case _ =>
  }

  /** A recovery stopped before its last write leaves the header as it was. */
  lemma {:induction false} RecoveryMidway(lay: Layout, from: Image, done: nat)
    requires DiskOk(lay, from) && done < |RecoveryWrites(lay, from)|
    ensures var d := Apply(from, RecoveryWrites(lay, from)[..done]);
            DiskOk(lay, d) && d[lay.start] == from[lay.start]
  {
    var ws := RecoveryWrites(lay, from)[..done];
    ApplyUntouched(from, ws, lay.start);
  }

  /** What is committed is exactly what the pinned buffers hold. */
  lemma {:induction false} PinnedTransaction(cache: map<int, Block>, d: Image, lh: seq<int>)
    requires forall i :: 0 <= i < |lh| ==> lh[i] in cache && 0 <= lh[i] < |d|
    requires forall b :: b in cache ==> b in lh
    ensures Transaction(lh, Contents(cache, d, lh)) == cache
  {
    var t := Transaction(lh, Contents(cache, d, lh));
    forall a | a in cache ensures a in t && t[a] == cache[a] {
      assert Contents(cache, d, lh)[Index(lh, a)] == cache[lh[Index(lh, a)]];
    }
    assert t.Keys == cache.Keys;
  }

  lemma {:induction false} WriteInv(lay: Layout, budget: nat, s: State, op: nat, b: int, v: Block, t: State)
    requires Inv(lay, s) && WriteNext(lay, budget, s, op, b, v, t)
    ensures Inv(lay, t)
  {
    hide LogClear;
  }

  lemma {:induction false} PendingWrite(h: map<int, Block>, cache: map<int, Block>, b: int, v: Block)
    ensures h + cache[b := v] == (h + cache)[b := v]
  {
  }

  lemma {:induction false} WriteStep(lay: Layout, budget: nat, s: State, op: nat, b: int, v: Block, t: State)
    requires Inv(lay, s) && WriteNext(lay, budget, s, op, b, v, t)
    ensures Inv(lay, t) && StoreNext(s, Update(op, b, v), t, Abs(lay, s), Abs(lay, t))
  {
    WriteInv(lay, budget, s, op, b, v, t);
    InvDiskOk(lay, s);
    hide Inv, Homes, Recovered, DiskOk, Distinct;
    PendingWrite(Homes(lay, Recovered(lay, s.disk)), s.phase.cache, b, v);
  }

  lemma {:induction false} EndStep(lay: Layout, s: State, op: nat, t: State)
    requires Inv(lay, s) && EndNext(s, op, t)
    ensures Inv(lay, t) && StoreNext(s, End(op), t, Abs(lay, s), Abs(lay, t))
  {
    if t.phase.Committing? {
      var ws := CommitWrites(lay, s.disk, s.phase.lh, t.phase.data);
      assert ws[..0] == [];
      PinnedTransaction(s.phase.cache, s.disk, s.phase.lh);
    }
  }

  /** The store behind a disk whose recovery installs a transaction. */
  lemma {:induction false} InstalledHomes(lay: Layout, d: Image, home: seq<int>, data: seq<Block>, e: Image)
    requires |home| == |data| && Distinct(home) && Installed(lay, d, home, data, e)
    requires forall i :: 0 <= i < |home| ==> 0 <= home[i] < |d| && !lay.InLog(home[i])
    ensures Homes(lay, e) == Homes(lay, d) + Transaction(home, data)
  {
    var h, m := Homes(lay, e), Homes(lay, d) + Transaction(home, data);
    assert h.Keys == m.Keys;
    forall a | a in h ensures h[a] == m[a] {
      if a in home {
        assert e[home[Index(home, a)]] == data[Index(home, a)];
      }
    }
  }

  /** What is durable while a commit is under way: the old store before the header write, the old
      store with the whole transaction from then on. */
  lemma {:induction false} DurableInCommit(lay: Layout, d: Image, home: seq<int>, data: seq<Block>, k: nat)
    requires LogClear(lay, d) && HomeOk(lay, |d|, home) && |data| == |home| && Distinct(home)
    requires k <= |CommitWrites(lay, d, home, data)|
    ensures var crashed := Apply(d, CommitWrites(lay, d, home, data)[..k]);
            && DiskOk(lay, crashed)
            && Homes(lay, Recovered(lay, crashed)) ==
               if k <= |home| then Homes(lay, d) else Homes(lay, d) + Transaction(home, data)
  {
    CrashAtomicity(lay, d, home, data, k, []);
    var crashed := Apply(d, CommitWrites(lay, d, home, data)[..k]);
    if k > |home| {
      InstalledHomes(lay, d, home, data, Recovered(lay, crashed));
    }
  }

  /** The store while a commit is under way. */
  lemma {:induction false} AbsInCommit(lay: Layout, s: State)
    requires Inv(lay, s) && s.phase.Committing?
    ensures var was := Homes(lay, s.phase.from);
            var next := was + Transaction(s.phase.home, s.phase.data);
            Abs(lay, s) == Store(if s.phase.done <= |s.phase.home| then was else next, next)
  {
    DurableInCommit(lay, s.phase.from, s.phase.home, s.phase.data, s.phase.done);
  }

  /** The store once a commit has done its last write. */
  lemma {:induction false} AbsAfterCommit(lay: Layout, d: Image, home: seq<int>, data: seq<Block>)
    requires LogClear(lay, d) && HomeOk(lay, |d|, home) && |data| == |home| && Distinct(home)
    ensures var t := State(Apply(d, CommitWrites(lay, d, home, data)), Open([], map[], []));
            var next := Homes(lay, d) + Transaction(home, data);
            Inv(lay, t) && Abs(lay, t) == Store(next, next)
  {
    var ws := CommitWrites(lay, d, home, data);
    assert ws[..|ws|] == ws;
    CommitDone(lay, d, home, data);
    DurableInCommit(lay, d, home, data, |ws|);
  }

  lemma {:induction false} CommitStep(lay: Layout, s: State, t: State)
    requires Inv(lay, s) && CommitNext(lay, s, t)
    ensures Inv(lay, t) && StoreNext(s, CommitBlock, t, Abs(lay, s), Abs(lay, t))
  {
    CommitDisk(lay, s, t);
    AbsInCommit(lay, s);
    if t.phase.Open? {
      AbsAfterCommit(lay, s.phase.from, s.phase.home, s.phase.data);
    } else {
      AbsInCommit(lay, t);
    }
  }

  /** The disk one commit write later. */
  lemma {:induction false} CommitDisk(lay: Layout, s: State, t: State)
    requires Inv(lay, s) && CommitNext(lay, s, t)
    ensures t.phase.Committing? ==> Inv(lay, t)
    ensures t.phase.Open? ==>
      && t.phase == Open([], map[], []) && s.phase.done > |s.phase.home|
      && t.disk == Apply(s.phase.from, CommitWrites(lay, s.phase.from, s.phase.home, s.phase.data))
  {
    var ws := CommitWrites(lay, s.phase.from, s.phase.home, s.phase.data);
    OneMoreWrite(s.phase.from, ws, s.phase.done);
    if t.phase.Open? {
      assert ws[..s.phase.done + 1] == ws;
    }
  }

  /** The store while a recovery is under way, and when it is over: what it was at the crash. */
  lemma {:induction false} AbsInRecovery(lay: Layout, s: State)
    requires Inv(lay, s) && s.phase.Recovering?
    ensures var h := Homes(lay, Recovered(lay, s.phase.from)); Abs(lay, s) == Store(h, h)
  {
    RecoveryRestarts(lay, s.phase.from, s.phase.done);
  }

  lemma {:induction false} AbsAfterRecovery(lay: Layout, d: Image)
    requires DiskOk(lay, d) && Distinct(Header(d[lay.start]))
    ensures var t := State(Recovered(lay, d), Open([], map[], []));
            var h := Homes(lay, Recovered(lay, d));
            Inv(lay, t) && Abs(lay, t) == Store(h, h)
  {
    RecoveredHomes(lay, d);
    RecoverClear(lay, Recovered(lay, d));
  }

  lemma {:induction false} RecoverStep(lay: Layout, s: State, t: State)
    requires Inv(lay, s) && RecoverNext(lay, s, t)
    ensures Inv(lay, t) && StoreNext(s, RecoverBlock, t, Abs(lay, s), Abs(lay, t))
  {
    var Recovering(d, k) := s.phase;
    var ws := RecoveryWrites(lay, d);
    OneMoreWrite(d, ws, k);
    AbsInRecovery(lay, s);
    if k + 1 == |ws| {
      assert ws[..k + 1] == ws;
      AbsAfterRecovery(lay, d);
    } else {
      AbsInRecovery(lay, t);
    }
  }

  /** Crash safety of every step: the invariant is kept and the store changes as StoreNext says. */
  lemma {:induction false} StepRefines(lay: Layout, budget: nat, s: State, e: Event, t: State)
    requires Inv(lay, s) && Next(lay, budget, s, e, t)
    ensures Inv(lay, t) && StoreNext(s, e, t, Abs(lay, s), Abs(lay, t))
  {
    match e
    case Begin =>
    case Update(op, b, v) => WriteStep(lay, budget, s, op, b, v, t);
    case End(op) => EndStep(lay, s, op, t);
    case CommitBlock => CommitStep(lay, s, t);
    case Crash => InvDiskOk(lay, s);
    case Boot => assert RecoveryWrites(lay, s.disk)[..0] == [];
    case RecoverBlock => RecoverStep(lay, s, t);
  }

  // ----- whole runs

  /** ss[i] is the state before event es[i]. */
  ghost predicate Steps(lay: Layout, budget: nat, ss: seq<State>, es: seq<Event>) {
    && |ss| == |es| + 1
    && forall i :: 0 <= i < |es| ==> Next(lay, budget, ss[i], es[i], ss[i + 1])
  }

  ghost predicate IsRun(lay: Layout, budget: nat, ss: seq<State>, es: seq<Event>) {
    Steps(lay, budget, ss, es) && Init(lay, ss[0])
  }

  ghost predicate Leads(lay: Layout, budget: nat, s: State, es: seq<Event>, t: State) {
    exists ss :: Steps(lay, budget, ss, es) && ss[0] == s && ss[|es|] == t
  }

  lemma {:induction false} NoStep(lay: Layout, budget: nat, s: State)
    ensures Leads(lay, budget, s, [], s)
  {
    assert Steps(lay, budget, [s], []);
  }

  lemma {:induction false} FirstStep(lay: Layout, budget: nat, s: State, e: Event, t: State, es: seq<Event>, u: State)
    requires Next(lay, budget, s, e, t) && Leads(lay, budget, t, es, u)
    ensures Leads(lay, budget, s, [e] + es, u)
  {
    hide Next;
    var ss :| Steps(lay, budget, ss, es) && ss[0] == t && ss[|es|] == u;
    assert Steps(lay, budget, [s] + ss, [e] + es);
  }

  /** A run goes on. */
  lemma {:induction false} RunOn(lay: Layout, budget: nat, ss: seq<State>, es: seq<Event>, fs: seq<Event>, t: State)
    returns (ts: seq<State>)
    requires IsRun(lay, budget, ss, es) && Leads(lay, budget, ss[|es|], fs, t)
    ensures IsRun(lay, budget, ts, es + fs) && ts[|es + fs|] == t && ts[..|ss|] == ss
  {
    hide Next, Init;
    var us :| Steps(lay, budget, us, fs) && us[0] == ss[|es|] && us[|fs|] == t;
    ts := ss + us[1..];
    var ds := es + fs;
    forall i | 0 <= i < |ds| ensures Next(lay, budget, ts[i], ds[i], ts[i + 1]) {
      if i >= |es| { assert Next(lay, budget, us[i - |es|], fs[i - |es|], us[i - |es| + 1]); }
    }
  }

  ghost function Repeat(e: Event, k: nat): seq<Event> {
    seq(k, _ => e)
  }

  /** The last operation's end, and the writes of the commit it starts for k blocks. */
  ghost function LastEnd(op: nat, k: nat): seq<Event> {
    [End(op)] + Repeat(CommitBlock, 2 * k + 2)
  }

  /** The writes left of a commit, in order, let operations in again. */
  lemma {:induction false} CommitPath(lay: Layout, budget: nat, s: State)
    requires s.phase.Committing? && CommitInv(lay, s)
    ensures var ws := CommitWrites(lay, s.phase.from, s.phase.home, s.phase.data);
            Leads(lay, budget, s, Repeat(CommitBlock, |ws| - s.phase.done),
                  State(Apply(s.phase.from, ws), Open([], map[], [])))
    decreases |CommitWrites(lay, s.phase.from, s.phase.home, s.phase.data)| - s.phase.done
  {
    hide Apply, CommitWrites;
    var Committing(from, home, data, done) := s.phase;
    var ws := CommitWrites(lay, from, home, data);
    OneMoreWrite(from, ws, done);
    var d := s.disk[ws[done].addr := ws[done].data];
    var es := Repeat(CommitBlock, |ws| - done - 1);
    if done + 1 == |ws| {
      assert ws[..|ws|] == ws;
      NoStep(lay, budget, State(d, Open([], map[], [])));
      FirstStep(lay, budget, s, CommitBlock, State(d, Open([], map[], [])), es, State(d, Open([], map[], [])));
    } else {
      var t := State(d, Committing(from, home, data, done + 1));
      CommitPath(lay, budget, t);
      FirstStep(lay, budget, s, CommitBlock, t, es, State(Apply(from, ws), Open([], map[], [])));
    }
    assert [CommitBlock] + es == Repeat(CommitBlock, |ws| - done);
  }

  /** The writes left of a recovery, in order, let operations in. */
  lemma {:induction false} RecoverPath(lay: Layout, budget: nat, s: State)
    requires s.phase.Recovering? && RecoverInv(lay, s.phase.from, s.phase.done, s.disk)
    ensures var ws := RecoveryWrites(lay, s.phase.from);
            Leads(lay, budget, s, Repeat(RecoverBlock, |ws| - s.phase.done),
                  State(Apply(s.phase.from, ws), Open([], map[], [])))
    decreases |RecoveryWrites(lay, s.phase.from)| - s.phase.done
  {
    hide Apply, RecoveryWrites;
    var Recovering(from, done) := s.phase;
    var ws := RecoveryWrites(lay, from);
    OneMoreWrite(from, ws, done);
    var d := s.disk[ws[done].addr := ws[done].data];
    var es := Repeat(RecoverBlock, |ws| - done - 1);
    if done + 1 == |ws| {
      assert ws[..|ws|] == ws;
      NoStep(lay, budget, State(d, Open([], map[], [])));
      FirstStep(lay, budget, s, RecoverBlock, State(d, Open([], map[], [])), es, State(d, Open([], map[], [])));
    } else {
      var t := State(d, Recovering(from, done + 1));
      RecoverPath(lay, budget, t);
      FirstStep(lay, budget, s, RecoverBlock, t, es, State(Apply(from, ws), Open([], map[], [])));
    }
    assert [RecoverBlock] + es == Repeat(RecoverBlock, |ws| - done);
  }

  lemma {:induction false} RunInv(lay: Layout, budget: nat, ss: seq<State>, es: seq<Event>, i: nat)
    requires IsRun(lay, budget, ss, es) && i < |ss|
    ensures Inv(lay, ss[i])
  {
    if i > 0 {
      RunInv(lay, budget, ss, es, i - 1);
      StepRefines(lay, budget, ss[i - 1], es[i - 1], ss[i]);
    }
  }

  /** The write of the header that names a transaction. */
  ghost predicate CommitPoint(s: State, e: Event) {
    e.CommitBlock? && s.phase.Committing? && s.phase.done == |s.phase.home|
  }

  /** The last commit point before event n. */
  ghost function LastCommit(ss: seq<State>, es: seq<Event>, n: nat): (r: int)
    requires |ss| == |es| + 1 && n <= |es|
    ensures -1 <= r < n
    ensures r >= 0 ==> CommitPoint(ss[r], es[r])
    ensures forall i :: r < i < n ==> !CommitPoint(ss[i], es[i])
  {
    if n == 0 then -1
    else if CommitPoint(ss[n - 1], es[n - 1]) then n - 1
    else LastCommit(ss, es, n - 1)
  }

  lemma {:induction false} StepDurable(lay: Layout, budget: nat, s: State, e: Event, t: State)
    requires Inv(lay, s) && Next(lay, budget, s, e, t)
    ensures Inv(lay, t)
    ensures Abs(lay, t).durable == if CommitPoint(s, e) then Abs(lay, s).pending else Abs(lay, s).durable
  {
    StepRefines(lay, budget, s, e, t);
  }

  /** Crash safety over whole runs: what is durable after any number of steps, crashes and recoveries is
      exactly what was pending at the last commit point, or what the run began with if there was none. */
  lemma {:induction false} RunDurable(lay: Layout, budget: nat, ss: seq<State>, es: seq<Event>, n: nat)
    requires IsRun(lay, budget, ss, es) && n <= |es|
    ensures Inv(lay, ss[n])
    ensures var r := LastCommit(ss, es, n);
            var last := if r < 0 then ss[0] else ss[r];
            && Inv(lay, last)
            && Abs(lay, ss[n]).durable == if r < 0 then Abs(lay, last).durable else Abs(lay, last).pending
  {
    if n > 0 {
      RunDurable(lay, budget, ss, es, n - 1);
      StepDurable(lay, budget, ss[n - 1], es[n - 1], ss[n]);
    }
  }

  // ----- log space

  /** What the outstanding operations may still add, each having a share. */
  ghost function Unspent(ops: seq<nat>, share: int): int {
    if ops == [] then 0 else share - ops[0] + Unspent(ops[1..], share)
  }

  lemma {:induction false} UnspentSplit(a: seq<nat>, b: seq<nat>, share: int)
    ensures Unspent(a + b, share) == Unspent(a, share) + Unspent(b, share)
  {
    if a == [] {
      assert a + b == b;
    } else {
      UnspentSplit(a[1..], b, share);
      assert (a + b)[1..] == a[1..] + b;
    }
  }

  lemma {:induction false} UnspentAt(ops: seq<nat>, op: nat, share: int)
    requires op < |ops|
    ensures Unspent(ops, share) == Unspent(ops[..op] + ops[op + 1..], share) + share - ops[op]
    ensures Unspent(ops[op := ops[op] + 1], share) == Unspent(ops, share) - 1
  {
    assert ops == ops[..op] + ([ops[op]] + ops[op + 1..]);
    assert ops[op := ops[op] + 1] == ops[..op] + ([ops[op] + 1] + ops[op + 1..]);
    UnspentSplit(ops[..op], [ops[op]] + ops[op + 1..], share);
    UnspentSplit(ops[..op], [ops[op] + 1] + ops[op + 1..], share);
    UnspentSplit(ops[..op], ops[op + 1..], share);
  }

  lemma {:induction false} UnspentBounds(ops: seq<nat>, share: nat)
    requires forall i :: 0 <= i < |ops| ==> ops[i] <= share
    ensures 0 <= Unspent(ops, share) <= |ops| * share
  {
    if ops != [] { UnspentBounds(ops[1..], share); }
  }

  /** Nothing is overcommitted: the slots used and every outstanding operation's unspent share of
      MAXOPBLOCKS fit in the log; and operations that stop one short of it never fill 29 slots. */
  ghost predicate SpaceInv(budget: nat, s: State) {
    s.phase.Open? ==>
      && (s.phase.ops == [] ==> s.phase.lh == [])
      && (forall i :: 0 <= i < |s.phase.ops| ==> s.phase.ops[i] <= budget)
      && |s.phase.lh| + Unspent(s.phase.ops, MAXOPBLOCKS) <= LOGSIZE
      && (budget < MAXOPBLOCKS && s.phase.ops != [] ==>
            |s.phase.lh| + Unspent(s.phase.ops, MAXOPBLOCKS - 1) <= LOGSIZE - 2)
  }

  lemma {:induction false} SpaceBegin(budget: nat, s: State, t: State)
    requires budget <= MAXOPBLOCKS && SpaceInv(budget, s) && BeginNext(s, t)
    ensures SpaceInv(budget, t)
  {
    UnspentSplit(s.phase.ops, [0], MAXOPBLOCKS);
    UnspentSplit(s.phase.ops, [0], MAXOPBLOCKS - 1);
    UnspentBounds(s.phase.ops, MAXOPBLOCKS);
    if budget < MAXOPBLOCKS { UnspentBounds(s.phase.ops, MAXOPBLOCKS - 1); }
  }

  lemma {:induction false} SpaceUpdate(lay: Layout, budget: nat, s: State, op: nat, b: int, v: Block, t: State)
    requires budget <= MAXOPBLOCKS && SpaceInv(budget, s) && WriteNext(lay, budget, s, op, b, v, t)
    ensures SpaceInv(budget, t)
  {
    UnspentAt(s.phase.ops, op, MAXOPBLOCKS);
    UnspentAt(s.phase.ops, op, MAXOPBLOCKS - 1);
  }

  lemma {:induction false} SpaceEnd(budget: nat, s: State, op: nat, t: State)
    requires budget <= MAXOPBLOCKS && SpaceInv(budget, s) && EndNext(s, op, t)
    ensures SpaceInv(budget, t)
  {
    UnspentAt(s.phase.ops, op, MAXOPBLOCKS);
    UnspentAt(s.phase.ops, op, MAXOPBLOCKS - 1);
  }

  lemma {:induction false} SpaceStep(lay: Layout, budget: nat, s: State, e: Event, t: State)
    requires budget <= MAXOPBLOCKS && SpaceInv(budget, s) && Next(lay, budget, s, e, t)
    ensures SpaceInv(budget, t)
  {
    match e
    case Begin => SpaceBegin(budget, s, t);
    case Update(op, b, v) => SpaceUpdate(lay, budget, s, op, b, v, t);
    case End(op) => SpaceEnd(budget, s, op, t);
    case _ =>
  }

  lemma {:induction false} RunSpace(lay: Layout, budget: nat, ss: seq<State>, es: seq<Event>, i: nat)
    requires budget <= MAXOPBLOCKS && IsRun(lay, budget, ss, es) && i < |ss|
    ensures SpaceInv(budget, ss[i])
  {
    if i > 0 {
      RunSpace(lay, budget, ss, es, i - 1);
      SpaceStep(lay, budget, ss[i - 1], es[i - 1], ss[i]);
    }
  }

  /** With the 30-block log mkfs makes, operations that add at most MAXOPBLOCKS - 1 blocks never
      meet the panic, in any run. */
  lemma {:induction false} NoPanic(lay: Layout, budget: nat, ss: seq<State>, es: seq<Event>, i: nat)
    requires lay.size == LOGSIZE && budget < MAXOPBLOCKS && IsRun(lay, budget, ss, es) && i < |ss|
    ensures !ss[i].phase.Panicked?
  {
    if i > 0 {
      NoPanic(lay, budget, ss, es, i - 1);
      RunSpace(lay, budget, ss, es, i - 1);
      var s := ss[i - 1];
      if es[i - 1].Update? {
        UnspentBounds(s.phase.ops, MAXOPBLOCKS - 1);
      }
    }
  }

  // ----- and operations that use their whole share can meet it

  ghost function Blocks(first: int, k: nat): seq<int> {
    seq(k, i => first + i)
  }

  /** The slots three operations have added when the first fills up before the second, and so on. */
  ghost function Shares(k: nat): seq<nat> {
    [if k < 10 then k else 10, if k < 10 then 0 else if k < 20 then k - 10 else 10, if k < 20 then 0 else k - 20]
  }

  /** A run that boots and starts three operations. */
  lemma {:induction false} ThreeBegin(lay: Layout, budget: nat, d: Image)
    returns (ss: seq<State>, es: seq<Event>)
    requires LogClear(lay, d)
    ensures IsRun(lay, budget, ss, es)
    ensures ss[|es|] == State(d, Open([], map[], Shares(0)))
  {
    RecoverClear(lay, d);
    var ws := RecoveryWrites(lay, d);
    assert ws == [HeadWrite(lay, d, [])];
    assert HeaderBlock(d[lay.start], []) == d[lay.start];
    var s0 := State(d, Down);
    var s1 := State(d, Recovering(d, 0));
    var s2 := State(d, Open([], map[], []));
    var s3 := State(d, Open([], map[], [0]));
    var s4 := State(d, Open([], map[], [0, 0]));
    var s5 := State(d, Open([], map[], [0, 0, 0]));
    assert d[lay.start := d[lay.start]] == d;
    assert RecoverNext(lay, s1, s2);
    assert s3.phase.ops == s2.phase.ops + [0] && s4.phase.ops == s3.phase.ops + [0];
    assert s5.phase.ops == s4.phase.ops + [0];
    assert BeginNext(s2, s3) && BeginNext(s3, s4) && BeginNext(s4, s5);
    ss, es := [s0, s1, s2, s3, s4, s5], [Boot, RecoverBlock, Begin, Begin, Begin];
  }

  /** A run after which the three operations have added k distinct blocks between them. */
  lemma {:induction false} FillLog(lay: Layout, budget: nat, d: Image, v: Block, first: nat, k: nat)
    returns (ss: seq<State>, es: seq<Event>)
    requires LogClear(lay, d) && lay.size == LOGSIZE && budget >= MAXOPBLOCKS && k <= 29
    requires first >= lay.start + lay.size && first + k <= |d|
    ensures IsRun(lay, budget, ss, es)
    ensures var s := ss[|es|];
            s.disk == d && s.phase.Open? && s.phase.lh == Blocks(first, k) && s.phase.ops == Shares(k)
  {
    if k == 0 {
      ss, es := ThreeBegin(lay, budget, d);
    } else {
      ss, es := FillLog(lay, budget, d, v, first, k - 1);
      var s := ss[|es|];
      var op := (k - 1) / 10;
      var t := AfterWrite(lay, s, op, first + k - 1, v);
      assert Blocks(first, k) == Blocks(first, k - 1) + [first + k - 1];
      assert Shares(k) == Shares(k - 1)[op := Shares(k - 1)[op] + 1];
      assert Next(lay, budget, s, Update(op, first + k - 1, v), t);
      ss, es := ss + [t], es + [Update(op, first + k - 1, v)];
    }
  }

  /** The bound is exact: with a 30-block log, operations allowed MAXOPBLOCKS blocks each have a run
      that panics, the third operation being refused its tenth block. */
  lemma {:induction false} PanicReachable(lay: Layout, budget: nat, d: Image, v: Block)
    returns (ss: seq<State>, es: seq<Event>)
    requires LogClear(lay, d) && lay.size == LOGSIZE && budget >= MAXOPBLOCKS
    requires lay.start + lay.size + LOGSIZE <= |d|
    ensures IsRun(lay, budget, ss, es) && ss[|es|].phase.Panicked?
  {
    var first := lay.start + lay.size;
    ss, es := FillLog(lay, budget, d, v, first, 29);
    var s := ss[|es|];
    var t := AfterWrite(lay, s, 2, first + 29, v);
    assert Next(lay, budget, s, Update(2, first + 29, v), t);
    ss, es := ss + [t], es + [Update(2, first + 29, v)];
  }
}
