/** sleep and wakeup of kernel/proc.c, one lock operation at a time: processes share a condition lock lk,
    each has a lock of its own, and wakeup takes those in turn. */
module SleepWakeup {
  /** Where a process is. Inside it holds lk; falling asleep on c it holds lk and its own lock; dozing it
      holds only its own lock and is not yet marked SLEEPING; asleep it holds neither; waking c it holds lk
      and has visited the processes below next. */
  datatype Pc = Out | Inside | Falling(c: int) | Dozing(c: int) | Asleep(c: int) | Woken | Waking(c: int, next: int)

  /** reason says on which channels there is reason to sleep; owed, where it has gone since lk was taken and
      nobody has been woken yet. */
  datatype State = State(pc: seq<Pc>, reason: map<int, bool>, owed: set<int>)

  datatype Event =
    | Enter(t: int)
    | Change(t: int, reason: map<int, bool>)
    | Fall(t: int, c: int)
    | Release(t: int)
    | Mark(t: int)
    | StartWake(t: int, c: int)
    | WakeNext(t: int)
    | EndWake(t: int)
    | Leave(t: int)
    | Kill(t: int)

  ghost predicate HoldsLk(p: Pc) { p.Inside? || p.Falling? || p.Waking? }

  ghost predicate HoldsOwn(p: Pc) { p.Falling? || p.Dozing? }

  ghost predicate LkFree(s: State) { forall t :: 0 <= t < |s.pc| ==> !HoldsLk(s.pc[t]) }

  /** A process that is asleep on c or on the way there. */
  ghost predicate Sleeper(p: Pc, c: int) { p == Falling(c) || p == Dozing(c) || p == Asleep(c) }

  /** Channels on which reason to sleep goes away. */
  ghost function Lapsed(before: map<int, bool>, after: map<int, bool>): set<int> {
    set c | c in before && before[c] && !(c in after && after[c])
  }

  /** One step. A client sleeps only with reason, and before it gives lk up it has woken whoever lost theirs. */
  ghost predicate Step(s: State, e: Event, s': State) {
    && 0 <= e.t < |s.pc|
    && var p := s.pc[e.t];
    match e
    case Enter(t) => (p.Out? || p.Woken?) && LkFree(s) && s' == s.(pc := s.pc[t := Inside])
    case Change(t, r) => p.Inside? && s' == s.(reason := r, owed := s.owed + Lapsed(s.reason, r))
    case Fall(t, c) =>
      p.Inside? && c in s.reason && s.reason[c] && s.owed == {} && s' == s.(pc := s.pc[t := Falling(c)])
    case Release(t) => p.Falling? && s' == s.(pc := s.pc[t := Dozing(p.c)])
    case Mark(t) => p.Dozing? && s' == s.(pc := s.pc[t := Asleep(p.c)])
    case StartWake(t, c) => p.Inside? && s' == s.(pc := s.pc[t := Waking(c, 0)])
    case WakeNext(t) =>
      && p.Waking? && 0 <= p.next < |s.pc| && (p.next != t ==> !HoldsOwn(s.pc[p.next]))
      && var pc := if s.pc[p.next] == Asleep(p.c) then s.pc[p.next := Woken] else s.pc;
      s' == s.(pc := pc[t := Waking(p.c, p.next + 1)])
    case EndWake(t) => p.Waking? && p.next == |s.pc| && s' == s.(pc := s.pc[t := Inside], owed := s.owed - {p.c})
    case Leave(t) => p.Inside? && s.owed == {} && s' == s.(pc := s.pc[t := Out])
    case Kill(t) => p.Asleep? && s' == s.(pc := s.pc[t := Woken])
  }

  ghost predicate HasReason(s: State, c: int) { c in s.reason && s.reason[c] }

  /** A sleeper without reason is one that the holder of lk still owes a wakeup and has not passed by. */
  ghost predicate Inv(s: State) {
    && LkInv(s)
    && (forall t, c :: 0 <= t < |s.pc| && Sleeper(s.pc[t], c) && !HasReason(s, c) ==> Awaited(s, c, t))
  }

  ghost predicate Init(s: State) {
    s.owed == {} && forall t :: 0 <= t < |s.pc| ==> s.pc[t].Out?
  }

  /** One holder of lk, and no debts without one. */
  ghost predicate LkInv(s: State) {
    && (forall t, u :: 0 <= t < |s.pc| && 0 <= u < |s.pc| && HoldsLk(s.pc[t]) && HoldsLk(s.pc[u]) ==> t == u)
    && (LkFree(s) ==> s.owed == {})
    && (forall t :: 0 <= t < |s.pc| && s.pc[t].Falling? ==> s.owed == {})
  }

  lemma {:induction false} StepLk(s: State, e: Event, s': State)
    requires LkInv(s) && Step(s, e, s')
    ensures LkInv(s') && |s'.pc| == |s.pc|
  {
    assert HoldsLk(s.pc[e.t]) ==> HoldsLk(s'.pc[e.t]) || e.Release? || e.Leave?;
    assert forall u :: 0 <= u < |s.pc| && u != e.t && HoldsLk(s'.pc[u]) ==> HoldsLk(s.pc[u]) && s'.pc[u] == s.pc[u];
    if LkFree(s') && !HoldsLk(s.pc[e.t]) {
      forall u | 0 <= u < |s.pc| ensures !HoldsLk(s.pc[u]) {
        assert !HoldsLk(s'.pc[u]);
      }
    }
  }

  lemma {:induction false} StepInv(s: State, e: Event, s': State)
    requires Inv(s) && Step(s, e, s')
    ensures Inv(s') && |s'.pc| == |s.pc|
  {
    hide Step, LkInv, HasReason, Sleeper;
    StepLk(s, e, s');
    forall c, u | 0 <= u < |s'.pc| && Sleeper(s'.pc[u], c) && !HasReason(s', c) ensures Awaited(s', c, u) {
      SleeperAwaited(s, e, s', c, u);
    }
  }

  /** The holder of lk owes channel c a wakeup and has not passed u by. */
  ghost predicate Awaited(s: State, c: int, u: int) {
    && c in s.owed
    && forall w :: 0 <= w < |s.pc| && s.pc[w].Waking? && s.pc[w].c == c ==> u >= s.pc[w].next
  }

  lemma {:induction false} SleeperAwaited(s: State, e: Event, s': State, c: int, u: int)
    requires Inv(s) && Step(s, e, s') && 0 <= u < |s'.pc| && Sleeper(s'.pc[u], c) && !HasReason(s', c)
    ensures Awaited(s', c, u)
  {
    hide LkFree, Lapsed;
    LapsedOwed(s.reason, s'.reason);
    assert Sleeper(s.pc[u], c);
    assert HoldsLk(s.pc[e.t]) ==> forall w :: 0 <= w < |s.pc| && s.pc[w].Waking? ==> w == e.t;
    if !HasReason(s, c) {
      assert Awaited(s, c, u);
      if s.pc[e.t].Waking? && s.pc[e.t].c == c { assert u >= s.pc[e.t].next; }
    } else {
      assert e.Change? && c in Lapsed(s.reason, s'.reason);
    }
  }

  lemma {:induction false} LapsedOwed(before: map<int, bool>, after: map<int, bool>)
    ensures forall c :: c in before && before[c] && !(c in after && after[c]) ==> c in Lapsed(before, after)
  {
  }

  ghost predicate IsRun(run: seq<State>, events: seq<Event>) {
    && |run| == |events| + 1 && Init(run[0])
    && forall i :: 0 <= i < |events| ==> Step(run[i], events[i], run[i + 1])
  }

  lemma {:induction false} RunInv(run: seq<State>, events: seq<Event>, n: nat)
    requires IsRun(run, events) && n < |run|
    ensures Inv(run[n])
  {
    if n > 0 {
      RunInv(run, events, n - 1);
      StepInv(run[n - 1], events[n - 1], run[n]);
    }
  }

  /** No wakeup is lost: in every state of every run in which lk is free, whoever sleeps, or is past the
      point of no return in sleep, has reason to. */
  lemma {:induction false} NoLostWakeup(run: seq<State>, events: seq<Event>, n: nat, t: int, c: int)
    requires IsRun(run, events) && n < |run| && LkFree(run[n]) && 0 <= t < |run[n].pc|
    requires run[n].pc[t] == Asleep(c) || run[n].pc[t] == Dozing(c)
    ensures HasReason(run[n], c)
  {
    RunInv(run, events, n);
    assert Sleeper(run[n].pc[t], c);
  }

  // ----- whole calls

  ghost predicate Path(run: seq<State>, events: seq<Event>) {
    |run| == |events| + 1 && forall i :: 0 <= i < |events| ==> Step(run[i], events[i], run[i + 1])
  }

  ghost predicate Reaches(s: State, s': State) {
    exists run, events :: Path(run, events) && run[0] == s && run[|events|] == s'
  }

  lemma {:induction false} ReachesStep(s: State, e: Event, s': State, s'': State)
    requires Step(s, e, s') && Reaches(s', s'')
    ensures Reaches(s, s'')
  {
    hide Step;
    var run, events :| Path(run, events) && run[0] == s' && run[|events|] == s'';
    assert Path([s] + run, [e] + events);
    assert ([s] + run)[|[e] + events|] == s'';
  }

  lemma {:induction false} ReachesSelf(s: State)
    ensures Reaches(s, s)
  {
    var events: seq<Event> := [];
    assert Path([s], events) && [s][|events|] == s;
  }

  lemma {:induction false} ReachesInv(s: State, s': State)
    requires Inv(s) && Reaches(s, s')
    ensures Inv(s')
  {
    var run, events :| Path(run, events) && run[0] == s && run[|events|] == s';
    PathInv(run, events, |events|);
  }

  lemma {:induction false} PathInv(run: seq<State>, events: seq<Event>, n: nat)
    requires Path(run, events) && Inv(run[0]) && n < |run|
    ensures Inv(run[n])
  {
    if n > 0 {
      PathInv(run, events, n - 1);
      StepInv(run[n - 1], events[n - 1], run[n]);
    }
  }

  /** Nobody is between two steps of a call. */
  ghost predicate Quiet(s: State) {
    s.owed == {} && forall t :: 0 <= t < |s.pc| ==> s.pc[t].Out? || s.pc[t].Asleep? || s.pc[t].Woken?
  }

  /** In a quiet state the invariant is that every sleeper has reason to sleep. */
  lemma {:induction false} QuietInv(s: State)
    requires Quiet(s)
    ensures Inv(s) <==> forall t :: 0 <= t < |s.pc| && s.pc[t].Asleep? ==> HasReason(s, s.pc[t].c)
  {
    hide HasReason;
    assert forall t, c :: 0 <= t < |s.pc| && Sleeper(s.pc[t], c) ==> s.pc[t] == Asleep(c);
    if Inv(s) {
      forall t | 0 <= t < |s.pc| && s.pc[t].Asleep? ensures HasReason(s, s.pc[t].c) {
        assert Sleeper(s.pc[t], s.pc[t].c);
      }
    }
  }

  /** The processes from n on that are asleep on c, woken. */
  ghost function AwokenFrom(pc: seq<Pc>, c: int, n: int): seq<Pc> {
    seq(|pc|, i requires 0 <= i < |pc| => if i >= n && pc[i] == Asleep(c) then Woken else pc[i])
  }

  /** The rest of a wakeup. */
  lemma {:induction false} WakePath(s: State, t: int, c: int, n: int, s': State)
    requires 0 <= t < |s.pc| && s.pc[t] == Waking(c, n) && 0 <= n <= |s.pc|
    requires forall u :: 0 <= u < |s.pc| ==> !HoldsOwn(s.pc[u])
    requires Reaches(s.(pc := AwokenFrom(s.pc, c, n)[t := Inside], owed := s.owed - {c}), s')
    ensures Reaches(s, s')
    decreases |s.pc| - n
  {
    hide Reaches;
    if n == |s.pc| {
      assert AwokenFrom(s.pc, c, n) == s.pc;
      ReachesStep(s, EndWake(t), s.(pc := s.pc[t := Inside], owed := s.owed - {c}), s');
    } else {
      var pc := if s.pc[n] == Asleep(c) then s.pc[n := Woken] else s.pc;
      var s1 := s.(pc := pc[t := Waking(c, n + 1)]);
      assert AwokenFrom(s1.pc, c, n + 1)[t := Inside] == AwokenFrom(s.pc, c, n)[t := Inside];
      WakePath(s1, t, c, n + 1, s');
      ReachesStep(s, WakeNext(t), s1, s');
    }
  }

  /** A whole call by t: the reasons change to r, the sleepers on w are woken, and t returns or goes to sleep. */
  ghost function AfterCall(s: State, t: int, r: map<int, bool>, w: int, end: Pc): State
    requires 0 <= t < |s.pc|
  {
    s.(reason := r, pc := AwokenFrom(s.pc, w, 0)[t := end])
  }

  /** Such a call is a path of steps if no reason to sleep goes away but on w, and t sleeps only with reason. */
  lemma {:induction false} CallPath(s: State, t: int, r: map<int, bool>, w: int, end: Pc)
    requires Quiet(s) && 0 <= t < |s.pc| && !s.pc[t].Asleep?
    requires Lapsed(s.reason, r) <= {w} && (end.Out? || (end.Asleep? && end.c in r && r[end.c]))
    ensures Reaches(s, AfterCall(s, t, r, w, end)) && Quiet(AfterCall(s, t, r, w, end))
  {
    hide Reaches, Lapsed;
    var s' := AfterCall(s, t, r, w, end);
    var s1 := s.(pc := s.pc[t := Inside]);
    var s2 := s1.(reason := r, owed := s1.owed + Lapsed(s.reason, r));
    var s3 := s2.(pc := s2.pc[t := Waking(w, 0)]);
    var s4 := s3.(pc := AwokenFrom(s3.pc, w, 0)[t := Inside], owed := s3.owed - {w});
    assert s4.owed == {} && AwokenFrom(s3.pc, w, 0)[t := end] == s'.pc;
    EndPath(s4, t, end, s');
    WakePath(s3, t, w, 0, s');
    ReachesStep(s2, StartWake(t, w), s3, s');
    ReachesStep(s1, Change(t, r), s2, s');
    ReachesStep(s, Enter(t), s1, s');
  }

  lemma {:induction false} EndPath(s: State, t: int, end: Pc, s': State)
    requires 0 <= t < |s.pc| && s.pc[t] == Inside && s.owed == {} && s' == s.(pc := s.pc[t := end])
    requires end.Out? || (end.Asleep? && HasReason(s, end.c))
    ensures Reaches(s, s')
  {
    hide Reaches;
    ReachesSelf(s');
    if end.Out? {
      ReachesStep(s, Leave(t), s', s');
    } else {
      var s1 := s.(pc := s.pc[t := Falling(end.c)]);
      var s2 := s1.(pc := s1.pc[t := Dozing(end.c)]);
      assert s2.pc[t := end] == s'.pc;
      ReachesStep(s2, Mark(t), s', s');
      ReachesStep(s1, Release(t), s2, s');
      ReachesStep(s, Fall(t, end.c), s1, s');
    }
  }
}
