/** Which CPU runs which process: scheduler, sched, yield and the other users of a process's lock in
    kernel/proc.c, one lock operation at a time. The three policies differ in which slot a CPU looks at
    next, not in these steps. */
module Dispatch {
  import opened Params
  import opened Procs

  /** Who has a process's lock: nobody, the scheduler of a CPU, the process itself, or some other code. */
  datatype Lock = Free | Sched(c: int) | Self | Other

  /** cur is each CPU's c->proc, -1 for none; on is its inverse. */
  datatype State = State(st: seq<ProcState>, lock: seq<Lock>, cur: seq<int>, on: seq<int>)

  datatype Event =
    /** scheduler takes p's lock */
    | Look(c: int, p: int)
    /** scheduler found p runnable: p goes on from where it called sched, still with its lock */
    | Run(c: int, p: int)
    /** scheduler lets p's lock go */
    | Pass(c: int, p: int)
    /** p lets its own lock go, or takes it */
    | Let(c: int, p: int)
    | Take(c: int, p: int)
    /** p, in yield, sleep or exit, changes its state */
    | Become(c: int, p: int, s: ProcState)
    /** p calls sched: CPU c goes on in scheduler, with p's lock */
    | Switch(c: int, p: int)
    /** scheduler clears c->proc */
    | Clear(c: int, p: int)
    /** fork, wait, wakeup, kill: somebody else takes p's lock, changes a state it may, lets the lock go */
    | Grab(c: int, p: int)
    | Change(c: int, p: int, s: ProcState)
    | Drop(c: int, p: int)

  /** The state changes that other code makes. */
  ghost predicate MayChange(a: ProcState, b: ProcState) {
    || (a.Unused? && b.Used?) || (a.Used? && (b.Unused? || b.Runnable?))
    || (a.Sleeping? && b.Runnable?) || (a.Zombie? && b.Unused?)
  }

  ghost predicate Sizes(s: State) { |s.st| == |s.lock| == |s.on| == NPROC && |s.cur| == NCPU }

  ghost predicate Step(s: State, e: Event, s': State)
    requires Sizes(s)
  {
    var c, p := e.c, e.p;
    && 0 <= c < NCPU && 0 <= p < NPROC
    && match e
       case Look(_, _) => s.cur[c] == -1 && s.lock[p].Free? && s' == s.(lock := s.lock[p := Sched(c)])
       case Run(_, _) =>
         && s.lock[p] == Sched(c) && s.cur[c] == -1 && s.st[p].Runnable?
         && s' == State(s.st[p := Running], s.lock[p := Self], s.cur[c := p], s.on[p := c])
       case Pass(_, _) => s.lock[p] == Sched(c) && s.cur[c] == -1 && s' == s.(lock := s.lock[p := Free])
       case Let(_, _) => s.cur[c] == p && s.lock[p].Self? && s.st[p].Running? && s' == s.(lock := s.lock[p := Free])
       case Take(_, _) => s.cur[c] == p && s.lock[p].Free? && s' == s.(lock := s.lock[p := Self])
       case Become(_, _, t) =>
         s.cur[c] == p && s.lock[p].Self? && (t.Runnable? || t.Sleeping? || t.Zombie?) && s' == s.(st := s.st[p := t])
       case Switch(_, _) =>
         s.cur[c] == p && s.lock[p].Self? && !s.st[p].Running? && s' == s.(lock := s.lock[p := Sched(c)])
       case Clear(_, _) => s.lock[p] == Sched(c) && s.cur[c] == p && s' == s.(cur := s.cur[c := -1],
             on := s.on[p := -1])
       case Grab(_, _) => s.lock[p].Free? && s' == s.(lock := s.lock[p := Other])
       case Change(_, _, t) => s.lock[p].Other? && MayChange(s.st[p], t) && s' == s.(st := s.st[p := t])
       case Drop(_, _) => s.lock[p].Other? && s' == s.(lock := s.lock[p := Free])
  }

  /** cur and on are inverse; a process whose lock is free or in other hands runs iff it is on a CPU, where a
      scheduler that has the lock does not count its own CPU; one that has its own lock is on a CPU. */
  ghost predicate Inv(s: State) {
    && Sizes(s)
    && (forall c :: 0 <= c < NCPU ==> s.cur[c] == -1 || (0 <= s.cur[c] < NPROC && s.on[s.cur[c]] == c))
    && (forall p :: 0 <= p < NPROC ==> Placed(s, p))
  }

  ghost predicate Placed(s: State, p: int)
    requires Sizes(s) && 0 <= p < NPROC
  {
    && (s.on[p] == -1 || (0 <= s.on[p] < NCPU && s.cur[s.on[p]] == p))
    && match s.lock[p]
       case Free => s.st[p].Running? <==> s.on[p] != -1
       case Other => s.st[p].Running? <==> s.on[p] != -1
       case Self => s.on[p] != -1
       case Sched(c) => s.st[p].Running? <==> s.on[p] != -1 && s.on[p] != c
  }

  ghost predicate Init(s: State) {
    && Sizes(s) && (forall p :: 0 <= p < NPROC ==> s.on[p] == -1 && s.lock[p].Free? && !s.st[p].Running?)
    && forall c :: 0 <= c < NCPU ==> s.cur[c] == -1
  }

  lemma {:induction false} StepInv(s: State, e: Event, s': State)
    requires Inv(s) && Step(s, e, s')
    ensures Inv(s')
  {
    assert Placed(s, e.p);
    forall p | 0 <= p < NPROC ensures Placed(s', p) {
      assert Placed(s, p);
    }
  }

  ghost predicate IsRun(run: seq<State>, events: seq<Event>) {
    && |run| == |events| + 1 && Init(run[0])
    && forall i :: 0 <= i < |events| ==> Sizes(run[i]) && Step(run[i], events[i], run[i + 1])
  }

  lemma {:induction false} RunInv(run: seq<State>, events: seq<Event>, n: nat)
    requires IsRun(run, events) && n < |run|
    ensures Inv(run[n])
  {
    if n == 0 {
      forall p | 0 <= p < NPROC ensures Placed(run[0], p) {
      }
    } else {
      RunInv(run, events, n - 1);
      StepInv(run[n - 1], events[n - 1], run[n]);
    }
  }

  /** In every state of every run: a process whose lock is free is RUNNING exactly when it is the current
      process of one CPU, and no process is ever the current one of two. */
  lemma {:induction false} RunningOnOneCpu(run: seq<State>, events: seq<Event>, n: nat, p: int)
    requires IsRun(run, events) && n < |run| && 0 <= p < NPROC
    ensures Sizes(run[n])
    ensures run[n].lock[p].Free? ==> (run[n].st[p].Running? <==> exists c :: 0 <= c < NCPU && run[n].cur[c] == p)
    ensures forall c, d :: 0 <= c < NCPU && 0 <= d < NCPU && run[n].cur[c] == p && run[n].cur[d] == p ==> c == d
  {
    RunInv(run, events, n);
    assert Placed(run[n], p);
  }

  /** What a CPU does for a process it finds runnable, until the process gives it up in state t. */
  ghost function Slice(c: int, p: int, t: ProcState): seq<Event> {
    [Look(c, p), Run(c, p), Let(c, p), Take(c, p), Become(c, p, t), Switch(c, p), Clear(c, p), Pass(c, p)]
  }

  /** An idle CPU can run any runnable process whose lock is free, and when the process yields, sleeps or exits the CPU
      is idle again and only the state of the process has changed. */
  lemma {:induction false} TimeSlice(s: State, c: int, p: int, t: ProcState) returns (run: seq<State>)
    requires Sizes(s) && 0 <= c < NCPU && 0 <= p < NPROC && s.cur[c] == -1 && s.on[p] == -1 && s.lock[p].Free?
    requires s.st[p].Runnable? && (t.Runnable? || t.Sleeping? || t.Zombie?)
    ensures |run| == 9 && run[0] == s && forall i :: 0 <= i < 8 ==>
              Sizes(run[i]) && Step(run[i], Slice(c, p, t)[i], run[i + 1])
    ensures run[3] == State(s.st[p := Running], s.lock, s.cur[c := p], s.on[p := c])
    ensures run[8] == s.(st := s.st[p := t])
  {
    var s1 := s.(lock := s.lock[p := Sched(c)]);
    var s2 := State(s.st[p := Running], s1.lock[p := Self], s.cur[c := p], s.on[p := c]);
    var s3 := s2.(lock := s2.lock[p := Free]);
    var s4 := s3.(lock := s3.lock[p := Self]);
    var s5 := s4.(st := s4.st[p := t]);
    var s6 := s5.(lock := s5.lock[p := Sched(c)]);
    var s7 := s6.(cur := s6.cur[c := -1], on := s6.on[p := -1]);
    var s8 := s7.(lock := s7.lock[p := Free]);
    assert s3.lock == s.lock && s8.lock == s.lock && s8.cur == s.cur && s8.on == s.on && s8.st == s.st[p := t];
    run := [s, s1, s2, s3, s4, s5, s6, s7, s8];
  }

  /** Other code can make a sleeping process runnable, and reap a zombie. */
  lemma {:induction false} Changed(s: State, c: int, p: int, t: ProcState) returns (run: seq<State>)
    requires Sizes(s) && 0 <= c < NCPU && 0 <= p < NPROC && s.lock[p].Free?
    requires (s.st[p].Sleeping? && t.Runnable?) || (s.st[p].Zombie? && t.Unused?)
    ensures |run| == 4 && run[0] == s && run[3] == s.(st := s.st[p := t])
    ensures forall i :: 0 <= i < 3 ==>
              Sizes(run[i]) && Step(run[i], [Grab(c, p), Change(c, p, t), Drop(c, p)][i], run[i + 1])
  {
    var s1 := s.(lock := s.lock[p := Other]);
    var s2 := s1.(st := s.st[p := t]);
    var s3 := s2.(lock := s2.lock[p := Free]);
    assert s3.lock == s.lock;
    run := [s, s1, s2, s3];
  }
}
