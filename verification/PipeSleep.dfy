/** The pipe as a client of sleep and wakeup: its calls are paths of the machine of module SleepWakeup, which
    therefore never loses a wakeup on a pipe, but for one way out of pipewrite. */
module PipeSleep {
  import opened Pipe
  import opened SleepWakeup

  /** &nread, &nwrite, and an address nobody sleeps on. */
  const READ := 0
  const WRITE := 1
  const NOBODY := 2

  /** Readers have reason to sleep while the pipe is empty and can be written, writers while it is full and can
      be read. */
  ghost function Reasons(p: Pipe): map<int, bool>
    reads p
  {
    map[READ := p.Empty() && p.writeopen, WRITE := p.Full() && p.readopen]
  }

  /** who are the processes asleep on c. */
  ghost predicate Seated(pc: seq<Pc>, who: set<int>, c: int) {
    forall t :: t in who <==> 0 <= t < |pc| && pc[t] == Asleep(c)
  }

  /** The pipe between two calls, as a state of the machine. */
  ghost predicate ShownBy(p: Pipe, s: State)
    reads p
  {
    && Quiet(s) && s.reason == Reasons(p) && Seated(s.pc, p.readers, READ) && Seated(s.pc, p.writers, WRITE)
    && forall t :: 0 <= t < |s.pc| && s.pc[t].Asleep? ==> s.pc[t].c == READ || s.pc[t].c == WRITE
  }

  ghost predicate MayCall(s: State, t: int) { 0 <= t < |s.pc| && !s.pc[t].Asleep? }

  lemma {:induction false} RestfulInv(p: Pipe, s: State)
    requires ShownBy(p, s)
    ensures Inv(s) <==> p.Restful()
  {
    QuietInv(s);
    hide Quiet, Inv;
    if p.readers != {} { var t := SomeSeat(s.pc, p.readers, READ); }
    if p.writers != {} { var t := SomeSeat(s.pc, p.writers, WRITE); }
  }

  lemma {:induction false} SomeSeat(pc: seq<Pc>, who: set<int>, c: int) returns (t: int)
    requires Seated(pc, who, c) && who != {}
    ensures t in who && 0 <= t < |pc| && pc[t] == Asleep(c)
  {
    hide Seated;
    if forall u :: u !in who { assert false; }
    t :| t in who;
    Seat(pc, who, c, t);
  }

  lemma {:induction false} Seat(pc: seq<Pc>, who: set<int>, c: int, t: int)
    requires Seated(pc, who, c) && t in who
    ensures 0 <= t < |pc| && pc[t] == Asleep(c)
  {
  }

  lemma {:induction false} Reseated(pc: seq<Pc>, t: int, w: int, end: Pc, who: set<int>, c: int)
    requires Seated(pc, who, c) && 0 <= t < |pc| && !pc[t].Asleep?
    ensures Seated(AwokenFrom(pc, w, 0)[t := end],
                   (if w == c then {} else who) + (if end == Asleep(c) then {t} else {}), c)
  {
  }

  /** What a call leaves, as a state of the machine. */
  lemma {:induction false} CallShown(p: Pipe, s: State, readers: set<int>, writers: set<int>, t: int, w: int, end: Pc,
                                     s': State)
    requires Quiet(s) && Seated(s.pc, readers, READ) && Seated(s.pc, writers, WRITE) && MayCall(s, t)
    requires forall u :: 0 <= u < |s.pc| && s.pc[u].Asleep? ==> s.pc[u].c == READ || s.pc[u].c == WRITE
    requires end.Out? || end == Asleep(READ) || end == Asleep(WRITE)
    requires p.readers == (if w == READ then {} else readers) + (if end == Asleep(READ) then {t} else {})
    requires p.writers == (if w == WRITE then {} else writers) + (if end == Asleep(WRITE) then {t} else {})
    requires s' == AfterCall(s, t, Reasons(p), w, end)
    ensures ShownBy(p, s')
  {
    Reseated(s.pc, t, w, end, readers, READ);
    Reseated(s.pc, t, w, end, writers, WRITE);
  }

  method Read(p: Pipe, t: int, n: int, fails: int, killed: bool, ghost s: State)
    returns (i: int, how: Exit, out: seq<char>, ghost s': State)
    requires p.Valid() && ShownBy(p, s) && MayCall(s, t)
    modifies p
    ensures p.Valid() && ShownBy(p, s') && Reaches(s, s')
  {
    hide Reaches, Fifo, Delivered;
    ghost var readers, writers := p.readers, p.writers;
    i, how, out := p.Read(t, n, fails, killed);
    ghost var w := if how.Returns? then WRITE else NOBODY;
    ghost var end := if how.Sleeps? then Asleep(READ) else Out;
    s' := AfterCall(s, t, Reasons(p), w, end);
    CallPath(s, t, Reasons(p), w, end);
    CallShown(p, s, readers, writers, t, w, end, s');
  }

  /** From a state in which nobody sleeps without reason, pipewrite leaves one that the machine reaches exactly
      when it is not killed after putting a byte before readers that are asleep. */
  method Write(p: Pipe, t: int, src: seq<Option<char>>, i0: int, killAt: int, ghost s: State)
    returns (i: int, how: Exit, ghost s': State)
    requires p.Valid() && ShownBy(p, s) && MayCall(s, t) && Inv(s) && 0 <= i0 <= |src|
    modifies p, p.data
    ensures p.Valid() && ShownBy(p, s')
    ensures Reaches(s, s') <==> !(old(p.readers) != {} && p.readopen && CutShort(src, i0, killAt))
  {
    hide Reaches, Fifo, Inv, CutShort;
    ghost var readers, writers := p.readers, p.writers;
    RestfulInv(p, s);
    i, how := p.Write(t, src, i0, killAt);
    FifoSize(p.data[..], p.nread, p.nwrite, p.accepted, |p.copied|);
    ghost var w := if how.Aborts? && readers != {} then NOBODY else READ;
    ghost var end := if how.Sleeps? then Asleep(WRITE) else Out;
    s' := AfterCall(s, t, Reasons(p), w, end);
    CallShown(p, s, readers, writers, t, w, end, s');
    RestfulInv(p, s');
    if p.Restful() {
      CallPath(s, t, Reasons(p), w, end);
    } else if Reaches(s, s') {
      ReachesInv(s, s');
    }
  }

  method Close(p: Pipe, t: int, writable: bool, ghost s: State) returns (gone: bool, ghost s': State)
    requires p.Valid() && ShownBy(p, s) && MayCall(s, t)
    modifies p
    ensures p.Valid() && ShownBy(p, s') && Reaches(s, s')
  {
    hide Reaches, Fifo;
    ghost var readers, writers := p.readers, p.writers;
    gone := p.Close(writable);
    ghost var w := if writable then READ else WRITE;
    s' := AfterCall(s, t, Reasons(p), w, Out);
    CallPath(s, t, Reasons(p), w, Out);
    CallShown(p, s, readers, writers, t, w, Out, s');
  }

  /** kill of process t, asleep or not. */
  method KillSleeper(p: Pipe, t: int, ghost s: State) returns (ghost s': State)
    requires p.Valid() && ShownBy(p, s) && 0 <= t < |s.pc|
    modifies p
    ensures p.Valid() && ShownBy(p, s') && Reaches(s, s')
  {
    hide Reaches, Fifo;
    p.Kill(t);
    s' := if s.pc[t].Asleep? then s.(pc := s.pc[t := Woken]) else s;
    ReachesSelf(s');
    if s.pc[t].Asleep? {
      ReachesStep(s, SleepWakeup.Kill(t), s', s');
    }
  }
}
