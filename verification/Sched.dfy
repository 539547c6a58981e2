/** The three schedulers' bookkeeping: the policy 1 and 2 passes of scheduler, cfs_update and wakeup in
    kernel/proc.c, the timer ticks of kernel/trap.c and the system calls of kernel/sysproc.c. A method is
    what happens while one lock is held, or a pass that nobody disturbs. */
module Sched {
  import opened Params
  import opened Procs

  const INT_MAX := 0x7fff_ffff
  const LLONG_MAX := 0x7fff_ffff_ffff_ffff

  datatype Proc = Proc(state: ProcState, chan: int, accumulator: int, psPriority: int, cfsPriority: int,
                       rtime: int, stime: int, retime: int)

  /** The local variables of scheduler on one CPU; minProc is a slot, -1 for none. */
  datatype Cpu = Cpu(minAcc: int, minProc: int, counter: int)

  predicate Accumulated(n: int) { 0 <= n <= 19 || n == INT_MAX }

  predicate Eligible(p: Proc) { p.state.Runnable? || p.state.Running? }

  ghost predicate InBounds(p: Proc) {
    && Accumulated(p.accumulator) && 1 <= p.psPriority <= 10 && 0 <= p.cfsPriority <= 2
    && 0 <= p.rtime && 0 <= p.stime && 0 <= p.retime
  }

  function Decay(cfsPriority: int): int {
    if cfsPriority == 0 then 75 else if cfsPriority == 1 then 100 else 125
  }

  /** The division of the RISC-V M extension, for a dividend that is not negative: by zero it gives -1. */
  function Div(a: int, b: int): int
    requires 0 <= a && 0 <= b
  {
    if b == 0 then -1 else a / b
  }

  function Vruntime(p: Proc): int
    requires 0 <= p.rtime && 0 <= p.stime && 0 <= p.retime
  {
    Decay(p.cfsPriority) * Div(p.rtime, p.rtime + p.stime + p.retime)
  }

  class Sched {
    const procs: array<Proc>
    const cpus: array<Cpu>
    var minAccumulator: int
    var policy: int
    /** a policy 1 scan has set minAccumulator; a sleeper has been woken while it was INT_MAX */
    ghost var scanned: bool
    ghost var early: bool

    /** The counters stay in range in every reachable state, under any switching of policies. The range is
        0..19 for all of them unless a sleeper was woken before the first scan that found a process. */
    ghost predicate Valid()
      reads this, procs, cpus
    {
      && procs.Length == NPROC && cpus.Length == NCPU && Accumulated(minAccumulator) && 0 <= policy <= 2
      && (forall p :: 0 <= p < NPROC ==> InBounds(procs[p]))
      && (forall c :: 0 <= c < NCPU ==>
          && -1 <= cpus[c].minProc < NPROC && 0 <= cpus[c].counter
          && (Accumulated(cpus[c].minAcc) || cpus[c].minAcc == LLONG_MAX))
      && (!early ==> AllSmall()) && (!early && scanned ==> Small())
    }

    /** No accumulator is at INT_MAX. */
    ghost predicate AllSmall()
      reads this, procs
    {
      procs.Length == NPROC && forall p :: 0 <= p < NPROC ==> procs[p].accumulator <= 19
    }

    /** Nor is the least accumulator, which wakeup hands out. No step leaves these states. */
    ghost predicate Small()
      reads this, procs
    {
      AllSmall() && minAccumulator <= 19
    }

    /** procinit, and the start of scheduler on each CPU. */
    constructor ()
      ensures Valid() && fresh(procs) && fresh(cpus) && minAccumulator == INT_MAX && !scanned && !early
      ensures forall p :: 0 <= p < NPROC ==> procs[p] == Proc(Unused, 0, 0, 5, 0, 0, 0, 0)
    {
      procs := new Proc[NPROC](_ => Proc(Unused, 0, 0, 5, 0, 0, 0, 0));
      cpus := new Cpu[NCPU](_ => Cpu(LLONG_MAX, -1, 0));
      minAccumulator, policy := INT_MAX, 0;
      scanned, early := false, false;
    }

    method SetPolicy(n: int) returns (r: int)
      requires Valid()
      modifies this`policy
      ensures Valid() && (r == 0 <==> 0 <= n <= 2) && policy == (if r == 0 then n else old(policy))
      ensures (old(Small()) ==> Small()) && (old(AllSmall()) ==> AllSmall())
    {
      if n > 2 || n < 0 {
        return -1;
      }
      policy := n;
      return 0;
    }

    method SetPsPriority(p: int, n: int) returns (r: int)
      requires Valid() && 0 <= p < NPROC
      modifies procs
      ensures Valid() && (r == 0 <==> 1 <= n <= 10)
      ensures procs[..] == if r == 0 then old(procs[..])[p := old(procs[p]).(psPriority := n)] else old(procs[..])
      ensures (old(Small()) ==> Small()) && (old(AllSmall()) ==> AllSmall())
    {
      if n < 1 || n > 10 {
        return -1;
      }
      procs[p] := procs[p].(psPriority := n);
      return 0;
    }

    method SetCfsPriority(p: int, n: int) returns (r: int)
      requires Valid() && 0 <= p < NPROC
      modifies procs
      ensures Valid() && (r == 0 <==> 0 <= n <= 2)
      ensures procs[..] == if r == 0 then old(procs[..])[p := old(procs[p]).(cfsPriority := n)] else old(procs[..])
      ensures (old(Small()) ==> Small()) && (old(AllSmall()) ==> AllSmall())
    {
      if n > 2 || n < 0 {
        return -1;
      }
      procs[p] := procs[p].(cfsPriority := n);
      return 0;
    }

    /** A timer tick in process p: usertrap's and kerneltrap's charge. */
    method Tick(p: int)
      requires Valid() && 0 <= p < NPROC
      modifies procs
      ensures Valid() && procs[..] == old(procs[..])[p := procs[p]]
      ensures procs[p] == old(procs[p]).(accumulator := procs[p].accumulator)
      ensures procs[p].accumulator ==
              old(procs[p].accumulator) + if old(procs[p].accumulator) < 10 then procs[p].psPriority else 0
      ensures (old(Small()) ==> Small()) && (old(AllSmall()) ==> AllSmall())
    {
      if procs[p].accumulator < 10 {
        procs[p] := procs[p].(accumulator := procs[p].accumulator + procs[p].psPriority);
      }
    }

    /** One turn of cfs_update's loop: the process is charged a tick for the state it is in. */
    method ChargeOne(p: int)
      requires Valid() && 0 <= p < NPROC
      modifies procs
      ensures Valid() && procs[..] == old(procs[..])[p := Ticked(old(procs[p]))]
      ensures (old(Small()) ==> Small()) && (old(AllSmall()) ==> AllSmall())
    {
      if procs[p].state.Runnable? {
        procs[p] := procs[p].(retime := procs[p].retime + 1);
      } else if procs[p].state.Sleeping? {
        procs[p] := procs[p].(stime := procs[p].stime + 1);
      } else if procs[p].state.Running? {
        procs[p] := procs[p].(rtime := procs[p].rtime + 1);
      }
    }

    /** cfs_update, undisturbed: each process is charged a tick for the state it is in. */
    method CfsUpdate()
      requires Valid()
      modifies procs
      ensures Valid() && forall p :: 0 <= p < NPROC ==> procs[p] == Ticked(old(procs[p]))
      ensures (old(Small()) ==> Small()) && (old(AllSmall()) ==> AllSmall())
    {
      var p := 0;
      while p < NPROC
        invariant 0 <= p <= NPROC && Valid()
        invariant (old(Small()) ==> Small()) && (old(AllSmall()) ==> AllSmall())
        invariant forall q :: 0 <= q < p ==> procs[q] == Ticked(old(procs[q]))
        invariant forall q :: p <= q < NPROC ==> procs[q] == old(procs[q])
      {
        hide InBounds, Ticked;
        ChargeOne(p);
        assert forall q :: 0 <= q < NPROC ==> procs[q] == procs[..][q];
        p := p + 1;
      }
    }

    /** One turn of wakeup's loop, at whatever moment: a process that slept on chan is runnable with the least
        accumulator of that moment. Small accumulators stay small exactly when that one is, or p is not woken. */
    method WakeOne(p: int, me: int, chan: int)
      requires Valid() && 0 <= p < NPROC
      modifies procs, this`early
      ensures Valid() && procs[..] == old(procs[..])[p := Woken(old(procs[p]), p != me, chan, minAccumulator)]
      ensures old(Small()) ==> Small()
      ensures old(AllSmall()) ==> (AllSmall() <==> minAccumulator <= 19 || !Woke(old(procs[p]), p, me, chan))
      ensures early == (old(early) || (minAccumulator > 19 && Woke(old(procs[p]), p, me, chan)))
    {
      early := early || (minAccumulator > 19 && Woke(procs[p], p, me, chan));
      if p != me {
        if procs[p].state.Sleeping? && procs[p].chan == chan {
          procs[p] := procs[p].(state := Runnable);
          procs[p] := procs[p].(accumulator := minAccumulator);
        }
      }
    }

    /** wakeup by process me, undisturbed: who slept on chan is runnable with the current least accumulator. */
    method Wakeup(me: int, chan: int)
      requires Valid()
      modifies procs, this`early
      ensures Valid() && forall p :: 0 <= p < NPROC ==> procs[p] == Woken(old(procs[p]), p != me, chan, minAccumulator)
      ensures old(Small()) ==> Small()
      ensures old(AllSmall()) ==> (AllSmall() <==> minAccumulator <= 19 || !old(Wakes(procs[..], me, chan)))
      ensures early == (old(early) || (minAccumulator > 19 && old(Wakes(procs[..], me, chan))))
    {
      var p := 0;
      while p < NPROC
        invariant 0 <= p <= NPROC && Valid()
        invariant early ==
          (old(early) || (minAccumulator > 19 && exists q :: 0 <= q < p && Woke(old(procs[q]), q, me, chan)))
        invariant forall q :: 0 <= q < p ==> procs[q] == Woken(old(procs[q]), q != me, chan, minAccumulator)
        invariant forall q :: p <= q < NPROC ==> procs[q] == old(procs[q])
      {
        hide InBounds, Woken, Woke;
        WakeOne(p, me, chan);
        assert forall q :: 0 <= q < NPROC ==> procs[q] == procs[..][q];
        p := p + 1;
      }
    }

    /** Any change of a process's state and channel under its lock. */
    method SetState(p: int, state: ProcState, chan: int)
      requires Valid() && 0 <= p < NPROC
      modifies procs
      ensures Valid() && procs[..] == old(procs[..])[p := old(procs[p]).(state := state, chan := chan)]
      ensures (old(Small()) ==> Small()) && (old(AllSmall()) ==> AllSmall())
    {
      procs[p] := procs[p].(state := state, chan := chan);
    }

    // ----- policy 1

    method StartPass(c: int)
      requires Valid() && 0 <= c < NCPU
      modifies cpus
      ensures Valid() && cpus[..] == old(cpus[..])[c := Cpu(LLONG_MAX, -1, 0)]
      ensures (old(Small()) ==> Small()) && (old(AllSmall()) ==> AllSmall())
    {
      cpus[c] := cpus[c].(counter := 0);
      cpus[c] := cpus[c].(minProc := -1);
      cpus[c] := cpus[c].(minAcc := LLONG_MAX);
    }

    /** One turn of the policy 1 loop on CPU c, under the lock of slot p. */
    method ScanOne(c: int, p: int)
      requires Valid() && 0 <= c < NCPU && 0 <= p < NPROC
      modifies this`minAccumulator, this`scanned, cpus
      ensures Valid() && forall d :: 0 <= d < NCPU && d != c ==> cpus[d] == old(cpus[d])
      ensures !Eligible(procs[p]) ==> cpus[c] == old(cpus[c]) && minAccumulator == old(minAccumulator)
      ensures Eligible(procs[p]) && procs[p].accumulator < old(cpus[c].minAcc) ==>
        cpus[c] == Cpu(procs[p].accumulator, p, old(cpus[c].counter) + 1) && minAccumulator == procs[p].accumulator
      ensures Eligible(procs[p]) && procs[p].accumulator >= old(cpus[c].minAcc) ==>
        cpus[c] == old(cpus[c]).(counter := old(cpus[c].counter) + 1) && minAccumulator == old(minAccumulator)
      ensures old(Small()) ==> Small()
      ensures scanned == (old(scanned) || (Eligible(procs[p]) && procs[p].accumulator < old(cpus[c].minAcc)))
    {
      if procs[p].state.Runnable? || procs[p].state.Running? {
        cpus[c] := cpus[c].(counter := cpus[c].counter + 1);
        if procs[p].accumulator < cpus[c].minAcc || cpus[c].counter == 0 {
          cpus[c] := cpus[c].(minAcc := procs[p].accumulator);
          minAccumulator := cpus[c].minAcc;
          scanned := true;
          cpus[c] := cpus[c].(minProc := p);
        }
      }
    }

    /** A policy 1 pass that nobody disturbs picks the first process with the least accumulator among those
        that could run or do, and counts them. */
    method Pass1(c: int)
      requires Valid() && 0 <= c < NCPU
      modifies this`minAccumulator, this`scanned, cpus
      ensures Valid() && cpus[c].counter == Count(procs[..], NPROC)
      ensures cpus[c].minProc == -1 <==> forall p :: 0 <= p < NPROC ==> !Eligible(procs[p])
      ensures cpus[c].minProc == -1 ==> minAccumulator == old(minAccumulator)
      ensures var m := cpus[c].minProc; m != -1 ==>
        && Eligible(procs[m]) && minAccumulator == procs[m].accumulator
        && forall p :: 0 <= p < NPROC && Eligible(procs[p]) ==>
             procs[m].accumulator <= procs[p].accumulator && (procs[m].accumulator == procs[p].accumulator ==> m <= p)
      ensures (old(Small()) ==> Small()) && scanned == (old(scanned) || cpus[c].minProc != -1)
      ensures AllSmall() && cpus[c].minProc != -1 ==> Small()
    {
      StartPass(c);
      var p := 0;
      while p < NPROC
        invariant 0 <= p <= NPROC && Valid() && cpus[c].counter == Count(procs[..], p) && cpus[c].minProc < p
        invariant cpus[c].minProc == -1 <==> forall q :: 0 <= q < p ==> !Eligible(procs[q])
        invariant cpus[c].minProc == -1 ==> cpus[c].minAcc == LLONG_MAX && minAccumulator == old(minAccumulator)
        invariant scanned == (old(scanned) || cpus[c].minProc != -1)
        invariant var m := cpus[c].minProc; m != -1 ==>
          && Eligible(procs[m]) && cpus[c].minAcc == procs[m].accumulator && minAccumulator == cpus[c].minAcc
          && forall q :: 0 <= q < p && Eligible(procs[q]) ==>
               procs[m].accumulator <= procs[q].accumulator && (procs[m].accumulator == procs[q].accumulator ==> m <= q)
      {
        ScanOne(c, p);
        p := p + 1;
      }
    }

    /** What follows a policy 1 pass: alone, a process starts from 0 again; chosen, a runnable one runs. */
    method Choose1(c: int) returns (run: int)
      requires Valid() && 0 <= c < NCPU
      modifies this`minAccumulator, procs
      ensures Valid() && -1 <= run < NPROC
      ensures var m := cpus[c].minProc;
        && (run == if m != -1 && old(procs[..])[if m == -1 then 0 else m].state.Runnable? then m else -1)
        && (forall p :: 0 <= p < NPROC && p != m ==> procs[p] == old(procs[p]))
        && (m != -1 ==> procs[m] == old(procs[m]).(
              accumulator := if cpus[c].counter == 1 then 0 else old(procs[m].accumulator),
              state := if run == -1 then old(procs[m].state) else Running))
        && minAccumulator == if m != -1 && cpus[c].counter == 1 then 0 else old(minAccumulator)
      ensures (old(Small()) ==> Small()) && (old(AllSmall()) ==> AllSmall())
    {
      run := -1;
      var m := cpus[c].minProc;
      if m != -1 {
        if cpus[c].counter == 1 {
          procs[m] := procs[m].(accumulator := 0);
          minAccumulator := 0;
        }
        if procs[m].state.Runnable? {
          procs[m] := procs[m].(state := Running);
          run := m;
        }
      }
    }

    // ----- policy 2

    /** A policy 2 pass that nobody disturbs picks the first runnable process with the least vruntime: one without ticks
        if there is one, otherwise one that has waited, and otherwise one that has only run. */
    method Pass2() returns (m: int)
      requires Valid()
      ensures -1 <= m < NPROC && (m == -1 <==> forall p :: 0 <= p < NPROC ==> !procs[p].state.Runnable?)
      ensures m != -1 ==> Fairest(procs[..], m) && Picked(procs[..], m)
    {
      var minVruntime := INT_MAX;
      m := -1;
      var p := 0;
      while p < NPROC
        invariant 0 <= p <= NPROC && -1 <= m < p
        invariant m == -1 <==> forall q :: 0 <= q < p ==> !procs[q].state.Runnable?
        invariant m == -1 ==> minVruntime == INT_MAX
        invariant m != -1 ==> procs[m].state.Runnable? && minVruntime == Vruntime(procs[m])
        invariant m != -1 ==> forall q :: 0 <= q < p && procs[q].state.Runnable? ==>
          Vruntime(procs[m]) <= Vruntime(procs[q]) && (Vruntime(procs[m]) == Vruntime(procs[q]) ==> m <= q)
      {
        VruntimeValues(procs[p]);
        var vruntime := Decay(procs[p].cfsPriority) * Div(procs[p].rtime,
                                                          procs[p].rtime + procs[p].stime + procs[p].retime);
        if procs[p].state.Runnable? && vruntime < minVruntime {
          minVruntime := vruntime;
          m := p;
        }
        p := p + 1;
      }
      if m != -1 { FairestPicked(procs[..], m); }
    }
  }

  /** The bound 19 alone does not hold: whoever wakes before the first policy 1 pass gets INT_MAX, which no tick
      changes. */
  method WokenAtMax() returns (s: Sched)
    ensures s.Valid() && s.procs[3].accumulator == INT_MAX
  {
    s := new Sched();
    s.SetState(3, Sleeping, 7);
    s.Wakeup(0, 7);
    s.Tick(3);
  }

  /** Policy 2 can pass over a process that has waited: process 1 waits through a tick, process 2 becomes
      runnable without one, and the pass picks process 2. */
  method PassedOver() returns (s: Sched, m: int)
    ensures s.Valid() && m == 2 && s.procs[1].state.Runnable? && s.procs[1].retime > 0
    ensures s.procs[2].rtime + s.procs[2].stime + s.procs[2].retime == 0
  {
    hide Vruntime, Fairest;
    s := new Sched();
    s.SetState(1, Runnable, 0);
    s.CfsUpdate();
    s.SetState(2, Runnable, 0);
    m := s.Pass2();
    assert s.procs[..][2] == s.procs[2] && s.procs[..][1] == s.procs[1];
    assert forall p :: 0 <= p < NPROC && p != 1 && p != 2 ==> s.procs[..][p].state.Unused?;
    TicklessFirst(s.procs[..], m);
  }

  lemma {:induction false} TicklessFirst(procs: seq<Proc>, m: int)
    requires Fairest(procs, m) && |procs| == NPROC && procs[1].retime > 0
    requires procs[2].state.Runnable? && procs[2].rtime == procs[2].stime == procs[2].retime == 0
    requires forall p :: 0 <= p < NPROC && p != 1 && p != 2 ==> procs[p].state.Unused?
    ensures m == 2
  {
    VruntimeValues(procs[1]);
    VruntimeValues(procs[2]);
    hide Vruntime;
  }

  /** Somebody but me sleeps on chan. */
  ghost predicate Woke(q: Proc, p: int, me: int, chan: int) { p != me && q.state.Sleeping? && q.chan == chan }

  ghost predicate Wakes(procs: seq<Proc>, me: int, chan: int) {
    exists p :: 0 <= p < |procs| && Woke(procs[p], p, me, chan)
  }

  ghost function Ticked(p: Proc): Proc {
    match p.state
    case Runnable => p.(retime := p.retime + 1)
    case Sleeping => p.(stime := p.stime + 1)
    case Running => p.(rtime := p.rtime + 1)
    case _ => p
  }

  ghost function Woken(p: Proc, other: bool, chan: int, least: int): Proc {
    if other && p.state.Sleeping? && p.chan == chan then p.(state := Runnable, accumulator := least) else p
  }

  /** How many of the first n could run or do. */
  ghost function Count(procs: seq<Proc>, n: nat): (k: int)
    requires n <= |procs|
    ensures 0 <= k <= n
  {
    if n == 0 then 0 else Count(procs, n - 1) + if Eligible(procs[n - 1]) then 1 else 0
  }

  ghost predicate Counted(procs: seq<Proc>) {
    && |procs| == NPROC
    && forall p :: 0 <= p < NPROC ==> 0 <= procs[p].rtime && 0 <= procs[p].stime && 0 <= procs[p].retime
  }

  /** m is the first runnable process with the least vruntime. */
  ghost predicate Fairest(procs: seq<Proc>, m: int) {
    && Counted(procs) && 0 <= m < NPROC && procs[m].state.Runnable?
    && forall q :: 0 <= q < NPROC && procs[q].state.Runnable? ==>
         Vruntime(procs[m]) <= Vruntime(procs[q]) && (Vruntime(procs[m]) == Vruntime(procs[q]) ==> m <= q)
  }

  /** A process that has waited counts 0, one that has only run its decay factor, one without any ticks its
      negated decay factor. */
  lemma {:induction false} VruntimeValues(p: Proc)
    requires 0 <= p.rtime && 0 <= p.stime && 0 <= p.retime
    ensures p.stime + p.retime > 0 ==> Vruntime(p) == 0
    ensures p.stime + p.retime == 0 && p.rtime > 0 ==> Vruntime(p) == Decay(p.cfsPriority)
    ensures p.rtime + p.stime + p.retime == 0 ==> Vruntime(p) == -Decay(p.cfsPriority)
  {
    if p.stime + p.retime > 0 {
      Quotient(p.rtime, p.rtime + p.stime + p.retime);
    } else if p.rtime > 0 {
      assert p.rtime / p.rtime == 1;
    }
  }

  /** Why p in slot m goes before q in slot n, or is it. Without ticks, the highest cfs_priority number goes first; of
      those that have waited the first; of those that have only run the lowest cfs_priority number. */
  ghost predicate NotAfter(p: Proc, m: int, q: Proc, n: int) {
    if p.rtime == p.stime == p.retime == 0 then
      q.rtime == q.stime == q.retime == 0 ==>
        p.cfsPriority > q.cfsPriority || (p.cfsPriority == q.cfsPriority && m <= n)
    else if p.stime > 0 || p.retime > 0 then
      && (q.rtime > 0 || q.stime > 0 || q.retime > 0)
      && (q.stime > 0 || q.retime > 0 ==> m <= n)
    else
      && q.rtime > 0 && q.stime == q.retime == 0
      && (p.cfsPriority < q.cfsPriority || (p.cfsPriority == q.cfsPriority && m <= n))
  }

  ghost predicate Picked(procs: seq<Proc>, m: int) {
    && 0 <= m < |procs| && procs[m].state.Runnable?
    && forall q :: 0 <= q < |procs| && procs[q].state.Runnable? ==> NotAfter(procs[m], m, procs[q], q)
  }

  /** Least vruntime says that and no more. */
  lemma {:induction false} FairestPicked(procs: seq<Proc>, m: int)
    requires Counted(procs) && forall p :: 0 <= p < NPROC ==> 0 <= procs[p].cfsPriority <= 2
    ensures Fairest(procs, m) <==> Picked(procs, m)
  {
    if 0 <= m < NPROC {
      VruntimeValues(procs[m]);
      forall q | 0 <= q < NPROC
        ensures NotAfter(procs[m], m, procs[q], q) <==>
                Vruntime(procs[m]) <= Vruntime(procs[q]) && (Vruntime(procs[m]) == Vruntime(procs[q]) ==> m <= q)
      {
        VruntimeValues(procs[q]);
        hide Vruntime;
      }
      hide Vruntime, NotAfter;
    }
  }

  lemma {:induction false} Quotient(a: int, b: int)
    requires 0 <= a < b
    ensures a / b == 0
  {
  }

  /** Policy 2 picks a process that has waited, and then the first such, exactly when there is one and no
      runnable process is without ticks. */
  lemma {:induction false} FairestWaited(procs: seq<Proc>, m: int)
    requires Fairest(procs, m)
    ensures procs[m].stime + procs[m].retime > 0 <==>
      && (exists q :: 0 <= q < NPROC && procs[q].state.Runnable? && procs[q].stime + procs[q].retime > 0)
      && (forall q :: 0 <= q < NPROC && procs[q].state.Runnable? ==>
            procs[q].rtime + procs[q].stime + procs[q].retime > 0)
    ensures procs[m].stime + procs[m].retime > 0 ==>
      forall q :: 0 <= q < NPROC && procs[q].state.Runnable? && procs[q].stime + procs[q].retime > 0 ==> m <= q
  {
    forall q | 0 <= q < NPROC
      ensures procs[q].stime + procs[q].retime > 0 ==> Vruntime(procs[q]) == 0
      ensures procs[q].stime + procs[q].retime == 0 && procs[q].rtime > 0 ==> Vruntime(procs[q]) > 0
      ensures procs[q].rtime + procs[q].stime + procs[q].retime == 0 ==> Vruntime(procs[q]) < 0
    {
      VruntimeValues(procs[q]);
    }
    hide Vruntime;
  }
}
