/** Crash recovery of the write-ahead log: what kernel/log.c writes to disk, and what survives a crash. */
module Recovery {
  import opened Params
  import opened Disk

  /** Where the log lives: the header in block start, the log blocks after it, size blocks in all. */
  datatype Layout = Layout(start: nat, size: nat) {
    predicate InLog(a: int) { start <= a < start + size }

    predicate Fits(diskSize: nat) { 0 < size && start + size <= diskSize }
  }

  /** struct logheader laid over a block: word 0 is n, the next n words are block[0..n). */
  function HeaderBlock(was: Block, home: seq<int>): Block
    requires |home| < WORDS == |was.w|
  {
    Block([|home|] + home + was.w[|home| + 1..])
  }

  predicate HasHeader(b: Block) { |b.w| == WORDS && 0 <= b.w[0] <= LOGSIZE }

  function Header(b: Block): seq<int>
    requires HasHeader(b)
  {
    b.w[1..b.w[0] + 1]
  }

  /** The home blocks a header may name: on the disk, outside the log, no more than the log can hold. */
  ghost predicate HomeOk(lay: Layout, diskSize: nat, home: seq<int>) {
    && |home| <= LOGSIZE && |home| < lay.size
    && forall i :: 0 <= i < |home| ==> 0 <= home[i] < diskSize && !lay.InLog(home[i])
  }

  ghost predicate Distinct(home: seq<int>) {
    forall i, j :: 0 <= i < j < |home| ==> home[i] != home[j]
  }

  /** A disk whose log header can be trusted. */
  ghost predicate DiskOk(lay: Layout, d: Image) {
    lay.Fits(|d|) && HasHeader(d[lay.start]) && HomeOk(lay, |d|, Header(d[lay.start]))
  }

  ghost predicate LogClear(lay: Layout, d: Image) {
    lay.Fits(|d|) && |d[lay.start].w| == WORDS && d[lay.start].w[0] == 0
  }

  /** write_log: the new contents go to the log blocks. */
  ghost function LogWrites(lay: Layout, data: seq<Block>): seq<Write> {
    seq(|data|, i requires 0 <= i < |data| => Write(lay.start + 1 + i, data[i]))
  }

  /** install_trans: each log block goes to its home. */
  ghost function InstallWrites(home: seq<int>, data: seq<Block>): seq<Write>
    requires |home| == |data|
    requires forall i :: 0 <= i < |home| ==> 0 <= home[i]
  {
    seq(|home|, i requires 0 <= i < |home| => Write(home[i], data[i]))
  }

  ghost function HeadWrite(lay: Layout, d: Image, home: seq<int>): Write
    requires lay.Fits(|d|) && |home| < WORDS == |d[lay.start].w|
  {
    Write(lay.start, HeaderBlock(d[lay.start], home))
  }

  /** Every disk write of one commit, in the order commit() issues them. */
  ghost function CommitWrites(lay: Layout, d: Image, home: seq<int>, data: seq<Block>): (ws: seq<Write>)
    requires lay.Fits(|d|) && |d[lay.start].w| == WORDS
    requires HomeOk(lay, |d|, home) && |data| == |home|
    ensures |ws| == 2 * |home| + 2 && InRange(ws, |d|)
    ensures forall i :: 0 <= i < |home| ==> ws[i] == Write(lay.start + 1 + i, data[i])
    ensures forall i :: |home| < i < |ws| - 1 ==> ws[i] == Write(home[i - |home| - 1], data[i - |home| - 1])
    ensures ws[|home|] == HeadWrite(lay, d, home)
    ensures ws[|ws| - 1].addr == lay.start && |ws[|ws| - 1].data.w| == WORDS && ws[|ws| - 1].data.w[0] == 0
  {
    var marked := HeaderBlock(d[lay.start], home);
    LogWrites(lay, data) + [Write(lay.start, marked)]
    + InstallWrites(home, data) + [Write(lay.start, HeaderBlock(marked, []))]
  }

  /** The contents to commit, in header order: the pinned buffer if there is one, else what is on disk. */
  ghost function Contents(cache: map<int, Block>, d: Image, home: seq<int>): (data: seq<Block>)
    requires forall i :: 0 <= i < |home| ==> 0 <= home[i] < |d|
    ensures |data| == |home|
  {
    seq(|home|, i requires 0 <= i < |home| => if home[i] in cache then cache[home[i]] else d[home[i]])
  }

  /** The contents of the first n log blocks. */
  ghost function LogData(lay: Layout, d: Image, n: nat): seq<Block>
    requires lay.Fits(|d|) && n < lay.size
  {
    seq(n, i requires 0 <= i < n => d[lay.start + 1 + i])
  }

  /** Every disk write of one complete recovery from d, in the order recover_from_log() issues them. */
  ghost function RecoveryWrites(lay: Layout, d: Image): (ws: seq<Write>)
    requires DiskOk(lay, d)
    ensures |ws| == d[lay.start].w[0] + 1 && InRange(ws, |d|)
    ensures var home := Header(d[lay.start]);
            forall i :: 0 <= i < |home| ==> ws[i] == Write(home[i], d[lay.start + 1 + i])
    ensures ws[|ws| - 1] == HeadWrite(lay, d, [])
  {
    var home := Header(d[lay.start]);
    InstallWrites(home, LogData(lay, d, |home|)) + [HeadWrite(lay, d, [])]
  }

  ghost function Recovered(lay: Layout, d: Image): (r: Image)
    requires DiskOk(lay, d)
    ensures |r| == |d|
  {
    Apply(d, RecoveryWrites(lay, d))
  }

  /** The disks agree everywhere but in the log. */
  ghost predicate SameHomes(lay: Layout, d: Image, e: Image) {
    |d| == |e| && forall a :: 0 <= a < |d| && !lay.InLog(a) ==> d[a] == e[a]
  }

  /** e is d with the whole transaction installed, and nothing else changed. */
  ghost predicate Installed(lay: Layout, d: Image, home: seq<int>, data: seq<Block>, e: Image)
    requires |home| == |data|
  {
    && |d| == |e|
    && (forall i :: 0 <= i < |home| && 0 <= home[i] < |e| ==> e[home[i]] == data[i])
    && (forall a :: 0 <= a < |d| && !lay.InLog(a) && a !in home ==> e[a] == d[a])
  }

  // ----- one interrupted recovery

  /** Stopping a recovery anywhere leaves a disk from which recovery reaches the very same disk. */
  lemma {:induction false} RecoveryRestarts(lay: Layout, d: Image, k: nat)
    requires DiskOk(lay, d) && k <= |RecoveryWrites(lay, d)|
    ensures InRange(RecoveryWrites(lay, d)[..k], |d|)
    ensures DiskOk(lay, Apply(d, RecoveryWrites(lay, d)[..k]))
    ensures Recovered(lay, Apply(d, RecoveryWrites(lay, d)[..k])) == Recovered(lay, d)
  {
    var ws := RecoveryWrites(lay, d);
    var d' := Apply(d, ws[..k]);
    var n := |ws| - 1;
    if k <= n {
      forall a | lay.InLog(a) ensures d'[a] == d[a] {
        ApplyUntouched(d, ws[..k], a);
      }
      assert LogData(lay, d', n) == LogData(lay, d, n);
      assert RecoveryWrites(lay, d') == ws;
      ApplyAfterPrefix(d, ws, k);
    } else {
      assert ws[..k] == ws;
      assert d'[lay.start] == HeaderBlock(d[lay.start], []);
      assert RecoveryWrites(lay, d') == [HeadWrite(lay, d', [])];
      assert Apply(d', []) == d';
      assert RecoveryWrites(lay, d')[..0] == [];
      assert HeaderBlock(d'[lay.start], []) == d'[lay.start];
    }
  }

  /** The disk after crashing in one recovery after another: the i-th recovery gets ks[i] writes done. */
  ghost function CrashedRecoveries(lay: Layout, d: Image, ks: seq<nat>): (r: Image)
    requires DiskOk(lay, d)
    ensures DiskOk(lay, r) && |r| == |d|
    decreases |ks|
  {
    if ks == [] then d
    else
      var ws := RecoveryWrites(lay, d);
      var k := if ks[0] <= |ws| then ks[0] else |ws|;
      RecoveryRestarts(lay, d, k);
      CrashedRecoveries(lay, Apply(d, ws[..k]), ks[1..])
  }

  /** However many recoveries crash, and wherever, the one that completes leaves the same disk. */
  lemma {:induction false} RecoveryIdempotent(lay: Layout, d: Image, ks: seq<nat>)
    requires DiskOk(lay, d)
    ensures Recovered(lay, CrashedRecoveries(lay, d, ks)) == Recovered(lay, d)
    decreases |ks|
  {
    if ks != [] {
      var ws := RecoveryWrites(lay, d);
      var k := if ks[0] <= |ws| then ks[0] else |ws|;
      RecoveryRestarts(lay, d, k);
      RecoveryIdempotent(lay, Apply(d, ws[..k]), ks[1..]);
    }
  }

  /** What a list of writes does when the writes off.. off+|home| carry the transaction home and
      every other write goes to the log. */
  lemma {:induction false} InstallEffect(lay: Layout, d: Image, ws: seq<Write>, off: nat, home: seq<int>,
                                         data: seq<Block>)
    requires InRange(ws, |d|) && |home| == |data| && off + |home| <= |ws| && Distinct(home)
    requires forall i :: 0 <= i < |home| ==> 0 <= home[i] && !lay.InLog(home[i])
    requires forall j :: off <= j < off + |home| ==> ws[j] == Write(home[j - off], data[j - off])
    requires forall j :: 0 <= j < |ws| && !(off <= j < off + |home|) ==> lay.InLog(ws[j].addr)
    ensures Installed(lay, d, home, data, Apply(d, ws))
  {
    forall i | 0 <= i < |home| ensures home[i] < |d| && Apply(d, ws)[home[i]] == data[i] {
      assert ws[off + i] == Write(home[i], data[i]);
      ApplyLast(d, ws, off + i);
    }
    forall a | 0 <= a < |d| && !lay.InLog(a) && a !in home ensures Apply(d, ws)[a] == d[a] {
      forall j | 0 <= j < |ws| ensures ws[j].addr != a {
        if off <= j < off + |home| {
          assert home[j - off] in home;
        }
      }
      ApplyUntouched(d, ws, a);
    }
  }

  lemma {:induction false} InstallThenClear(lay: Layout, d: Image, ws: seq<Write>, home: seq<int>, data: seq<Block>)
    requires lay.Fits(|d|) && InRange(ws, |d|) && |home| == |data| == |ws| - 1
    requires Distinct(home) && HomeOk(lay, |d|, home)
    requires forall j :: 0 <= j < |home| ==> ws[j] == Write(home[j], data[j])
    requires ws[|home|].addr == lay.start && |ws[|home|].data.w| == WORDS && ws[|home|].data.w[0] == 0
    ensures Installed(lay, d, home, data, Apply(d, ws)) && LogClear(lay, Apply(d, ws))
  {
    ApplyLast(d, ws, |home|);
    InstallEffect(lay, d, ws, 0, home, data);
  }

  /** Recovery clears the header and installs what the log holds, touching no other home block. */
  lemma {:induction false} RecoveredHomes(lay: Layout, d: Image)
    requires DiskOk(lay, d) && Distinct(Header(d[lay.start]))
    ensures LogClear(lay, Recovered(lay, d))
    ensures Installed(lay, d, Header(d[lay.start]), LogData(lay, d, d[lay.start].w[0]), Recovered(lay, d))
  {
    InstallThenClear(lay, d, RecoveryWrites(lay, d), Header(d[lay.start]), LogData(lay, d, d[lay.start].w[0]));
  }

  // ----- a crash during commit

  /** Before the header write: the log is still clear on disk and no home block has changed. */
  lemma {:induction false} BeforeCommitPoint(lay: Layout, d: Image, home: seq<int>, data: seq<Block>, k: nat)
    requires LogClear(lay, d) && HomeOk(lay, |d|, home) && |data| == |home| && k <= |home|
    ensures var d' := Apply(d, CommitWrites(lay, d, home, data)[..k]);
            LogClear(lay, d') && SameHomes(lay, d, d')
  {
    var ws := CommitWrites(lay, d, home, data);
    forall a | 0 <= a < |d| && (a == lay.start || !lay.InLog(a)) ensures Apply(d, ws[..k])[a] == d[a] {
      ApplyUntouched(d, ws[..k], a);
    }
  }

  /** From the header write until it is erased: the disk's log holds the whole transaction. */
  lemma {:induction false} AfterCommitPoint(lay: Layout, d: Image, home: seq<int>, data: seq<Block>, k: nat)
    requires LogClear(lay, d) && HomeOk(lay, |d|, home) && |data| == |home|
    requires |home| < k < 2 * |home| + 2
    ensures var d' := Apply(d, CommitWrites(lay, d, home, data)[..k]);
            && DiskOk(lay, d') && Header(d'[lay.start]) == home
            && LogData(lay, d', |home|) == data
            && (forall a :: 0 <= a < |d| && !lay.InLog(a) && a !in home ==> d'[a] == d[a])
  {
    var ws := CommitWrites(lay, d, home, data);
    LoggedEffect(lay, d, ws[..k], home, data);
  }

  /** The same for any list of writes that fills the log, writes the header, and goes on to home blocks. */
  lemma {:induction false} LoggedEffect(lay: Layout, d: Image, ws: seq<Write>, home: seq<int>, data: seq<Block>)
    requires lay.Fits(|d|) && |d[lay.start].w| == WORDS
    requires HomeOk(lay, |d|, home) && |data| == |home| < |ws| && InRange(ws, |d|)
    requires forall i :: 0 <= i < |home| ==> ws[i] == Write(lay.start + 1 + i, data[i])
    requires ws[|home|] == HeadWrite(lay, d, home)
    requires forall i :: |home| < i < |ws| ==> ws[i].addr as int in home
    ensures var d' := Apply(d, ws);
            && DiskOk(lay, d') && Header(d'[lay.start]) == home
            && LogData(lay, d', |home|) == data
            && (forall a :: 0 <= a < |d| && !lay.InLog(a) && a !in home ==> d'[a] == d[a])
  {
    var d' := Apply(d, ws);
    assert forall j :: |home| < j < |ws| ==> !lay.InLog(ws[j].addr);
    ApplyLast(d, ws, |home|);
    assert d'[lay.start] == HeaderBlock(d[lay.start], home);
    var held := LogData(lay, d', |home|);
    forall i | 0 <= i < |home| ensures held[i] == data[i] {
      ApplyLast(d, ws, i);
    }
    assert held == data;
    forall a | 0 <= a < |d| && !lay.InLog(a) && a !in home ensures d'[a] == d[a] {
      ApplyUntouched(d, ws, a);
    }
  }

  /** After the last write: the transaction is home and the log is clear. */
  lemma {:induction false} CommitDone(lay: Layout, d: Image, home: seq<int>, data: seq<Block>)
    requires LogClear(lay, d) && HomeOk(lay, |d|, home) && |data| == |home| && Distinct(home)
    ensures var d' := Apply(d, CommitWrites(lay, d, home, data));
            LogClear(lay, d') && Installed(lay, d, home, data, d')
  {
    var ws := CommitWrites(lay, d, home, data);
    ApplyLast(d, ws, |ws| - 1);
    InstallEffect(lay, d, ws, |home| + 1, home, data);
  }

  /** Recovering a disk with a clear log changes nothing: the header write puts back what is there. */
  lemma {:induction false} RecoverClear(lay: Layout, d: Image)
    requires LogClear(lay, d)
    ensures DiskOk(lay, d)
    ensures Recovered(lay, d) == d
  {
    assert RecoveryWrites(lay, d) == [HeadWrite(lay, d, [])];
    assert RecoveryWrites(lay, d)[..0] == [];
    assert Apply(d, []) == d;
    assert HeaderBlock(d[lay.start], []) == d[lay.start];
  }

  /** Crash atomicity. Crash after any k of commit's disk writes, then crash in any number of
      recoveries; the recovery that completes leaves the whole transaction installed if the header
      write was among the k, none of it otherwise, no other home block touched, and the log clear. */
  lemma {:induction false} CrashAtomicity(lay: Layout, d: Image, home: seq<int>, data: seq<Block>, k: nat, ks: seq<nat>)
    requires LogClear(lay, d) && HomeOk(lay, |d|, home) && |data| == |home| && Distinct(home)
    requires k <= |CommitWrites(lay, d, home, data)|
    ensures DiskOk(lay, Apply(d, CommitWrites(lay, d, home, data)[..k]))
    ensures var crashed := Apply(d, CommitWrites(lay, d, home, data)[..k]);
            var e := Recovered(lay, CrashedRecoveries(lay, crashed, ks));
            && LogClear(lay, e)
            && (if k <= |home| then SameHomes(lay, d, e) else Installed(lay, d, home, data, e))
  {
    var ws := CommitWrites(lay, d, home, data);
    var crashed := Apply(d, ws[..k]);
    if k <= |home| {
      BeforeCommitPoint(lay, d, home, data, k);
      RecoverClear(lay, crashed);
    } else if k < |ws| {
      AfterCommitPoint(lay, d, home, data, k);
      RecoveredHomes(lay, crashed);
    } else {
      assert ws[..k] == ws;
      CommitDone(lay, d, home, data);
      RecoverClear(lay, crashed);
    }
    RecoveryIdempotent(lay, crashed, ks);
  }
}
