/** fork, exit, reparent and wait of kernel/proc.c. A method is what a process does between taking a lock,
    wait_lock or that of a table slot, and giving it up, so any interleaving of processes is a sequence of
    these calls. */
module ProcTree {
  import opened Params

  /** The states of Procs.ProcState as the tree sees them: Alive stands for SLEEPING, RUNNABLE and RUNNING, which it
      does not tell apart. */
  datatype Life = Unused | Used | Alive | Zombie

  /** A slot of the process table; parent is a slot, -1 for none. */
  datatype Proc = Proc(state: Life, pid: int, parent: int, xstate: int, killed: bool)

  /** A slot that freeproc has cleared. */
  function Cleared(): Proc { Proc(Unused, 0, -1, 0, false) }

  /** The tree: pids are unique; no process has a parent that is gone or a zombie; every process but init
      has a parent once it has run. */
  ghost predicate Tree(procs: seq<Proc>, init: int, nextpid: int) {
    && |procs| == NPROC && 0 <= init < NPROC && procs[init].state.Alive?
    && (forall q :: 0 <= q < NPROC && procs[q].state.Unused? ==> procs[q] == Cleared().(killed := procs[q].killed))
    && (forall q :: 0 <= q < NPROC && !procs[q].state.Unused? ==> 0 < procs[q].pid < nextpid)
    && (forall p, q :: 0 <= p < NPROC && 0 <= q < NPROC && p != q && !procs[p].state.Unused? ==>
          procs[p].pid != procs[q].pid)
    && (forall q :: 0 <= q < NPROC ==> ParentAlive(procs, q))
    && (forall q :: 0 <= q < NPROC && q != init && (procs[q].state.Alive? || procs[q].state.Zombie?) ==>
          procs[q].parent != -1)
  }

  ghost predicate ParentAlive(procs: seq<Proc>, q: int)
    requires 0 <= q < |procs|
  {
    procs[q].parent == -1 || (0 <= procs[q].parent < |procs| && procs[procs[q].parent].state.Alive?)
  }

  /** Every exit so far, by pid, has been collected by one wait or is a zombie that still has its status. */
  ghost predicate Accounts(procs: seq<Proc>, nextpid: int, exited: map<int, int>, reaped: set<int>) {
    && |procs| == NPROC && reaped <= exited.Keys && (forall d :: d in exited ==> 0 < d < nextpid)
    && (forall q :: 0 <= q < NPROC && procs[q].state.Zombie? ==>
          procs[q].pid in exited && procs[q].pid !in reaped && exited[procs[q].pid] == procs[q].xstate)
    && (forall q :: 0 <= q < NPROC && !procs[q].state.Zombie? && !procs[q].state.Unused? ==> procs[q].pid !in exited)
    && (forall d :: d in exited && d !in reaped ==> IsZombie(procs, d))
  }

  ghost predicate IsZombie(procs: seq<Proc>, pid: int) {
    exists q :: 0 <= q < |procs| && procs[q].state.Zombie? && procs[q].pid == pid
  }

  /** Who forks is alive and its child is not yet running; who sleeps in wait has no zombie to collect. */
  ghost predicate Calls(procs: seq<Proc>, forking: map<int, int>, waiting: set<int>) {
    && |procs| == NPROC
    && (forall p :: p in forking ==> 0 <= p < NPROC && procs[p].state.Alive? && InFork(procs, p, forking[p]))
    && (forall p, q :: p in forking && q in forking && p != q ==> forking[p] != forking[q])
    && (forall q :: 0 <= q < NPROC && procs[q].state.Zombie? ==> procs[q].parent !in waiting)
  }

  ghost predicate InFork(procs: seq<Proc>, p: int, np: int) {
    0 <= np < |procs| && procs[np].state.Used? && (procs[np].parent == -1 || procs[np].parent == p)
  }

  class Table {
    const procs: array<Proc>
    const init: int
    var nextpid: int
    /** forking processes, each with the slot of its child */
    ghost var forking: map<int, int>
    /** processes asleep in wait */
    ghost var waiting: set<int>
    /** the status each pid exited with, and the pids that some wait has returned */
    ghost var exited: map<int, int>
    ghost var reaped: set<int>

    ghost predicate Valid()
      reads this, procs
    {
      procs.Length == NPROC && Ok(procs[..], init, nextpid, exited, reaped, forking, waiting)
    }

    /** The table after procinit and userinit. */
    constructor ()
      ensures Valid() && fresh(procs) && exited == map[] && forking == map[] && waiting == {}
      ensures init == 0 && procs[0] == Proc(Alive, 1, -1, 0, false) && forall q :: 1 <= q < NPROC ==>
                 procs[q] == Cleared()
    {
      procs := new Proc[NPROC](i => if i == 0 then Proc(Alive, 1, -1, 0, false) else Cleared());
      init, nextpid := 0, 2;
      forking, waiting, exited, reaped := map[], {}, map[], {};
      new;
      InitOnly(procs[..]);
    }

    /** allocproc for fork by p, if memory suffices: the first unused slot, with a fresh pid. */
    method AllocProc(p: int, memory: bool) returns (np: int)
      requires Valid() && 0 <= p < NPROC && procs[p].state.Alive? && p !in forking
      modifies this, procs
      ensures Valid() && waiting == old(waiting) && exited == old(exited) && reaped == old(reaped)
      ensures np == -1 ==> forking == old(forking) && forall q :: 0 <= q < NPROC ==>
        procs[q] == old(procs[q]) || (old(procs[q]).state.Unused? && procs[q] == Cleared())
      ensures np == -1 <==> !memory || forall q :: 0 <= q < NPROC ==> !old(procs[q]).state.Unused?
      ensures np != -1 ==> 0 <= np < NPROC && old(procs[np]).state.Unused? && forking == old(forking)[p := np]
      ensures np != -1 ==> forall q :: 0 <= q < np ==> !old(procs[q]).state.Unused?
      ensures np != -1 ==> procs[..] == old(procs[..])[np := Proc(Used, old(nextpid), -1, 0, old(procs[np]).killed)]
    {
      hide Ok;
      np := 0;
      while np < NPROC
        invariant 0 <= np <= NPROC && forall q :: 0 <= q < np ==> !procs[q].state.Unused?
        modifies {}
      {
        if procs[np].state.Unused? {
          break;
        }
        np := np + 1;
      }
      if np == NPROC {
        return -1;
      }
      ghost var s := procs[..];
      Allocated(s, init, nextpid, exited, reaped, forking, waiting, p, np);
      procs[np] := procs[np].(pid := nextpid);
      nextpid := nextpid + 1;
      procs[np] := procs[np].(state := Used);
      if !memory {
        FreeProc(np);
        assert procs[..] == s[np := Cleared()];
        return -1;
      }
      assert procs[..] == s[np := Proc(Used, old(nextpid), -1, 0, s[np].killed)];
      forking := forking[p := np];
    }

    /** freeproc, as far as the tree is concerned. */
    method FreeProc(q: int)
      requires procs.Length == NPROC && 0 <= q < NPROC
      modifies procs
      ensures procs[..] == old(procs[..])[q := Cleared()]
    {
      procs[q] := procs[q].(pid := 0);
      procs[q] := procs[q].(parent := -1);
      procs[q] := procs[q].(killed := false);
      procs[q] := procs[q].(xstate := 0);
      procs[q] := procs[q].(state := Unused);
    }

    /** p is in fork, and np is the slot of its child. */
    ghost predicate Forking(p: int, np: int)
      reads this
    {
      p in forking && forking[p] == np && 0 <= np < NPROC
    }

    /** fork's way out when the address space cannot be copied, before the child has a parent. */
    method ForkFail(p: int, np: int)
      requires Valid() && Forking(p, np)
      modifies this, procs
      ensures Valid() && forking == old(forking) - {p} && procs[..] == old(procs[..])[np := Cleared()]
      ensures waiting == old(waiting) && exited == old(exited) && reaped == old(reaped)
    {
      hide Ok;
      Failed(procs[..], init, nextpid, exited, reaped, forking, waiting, p);
      FreeProc(np);
      forking := forking - {p};
    }

    /** fork's section under wait_lock. */
    method ForkLink(p: int, np: int)
      requires Valid() && Forking(p, np)
      modifies procs
      ensures Valid() && procs[..] == old(procs[..])[np := old(procs[np]).(parent := p)]
    {
      hide Ok;
      ghost var s := procs[..];
      LinkedChild(s, init, nextpid, exited, reaped, forking, waiting, p);
      procs[np] := procs[np].(parent := p);
      assert procs[..] == s[np := s[np].(parent := p)];
    }

    /** The end of fork: the child may run. */
    method ForkReady(p: int, np: int) returns (pid: int)
      requires Valid() && Forking(p, np) && procs[np].parent == p
      modifies this, procs
      ensures Valid() && forking == old(forking) - {p}
      ensures procs[..] == old(procs[..])[np := old(procs[np]).(state := Alive)]
      ensures pid == procs[np].pid && waiting == old(waiting) && exited == old(exited) && reaped == old(reaped)
    {
      hide Ok;
      ghost var s := procs[..];
      Readied(s, init, nextpid, exited, reaped, forking, waiting, p);
      procs[np] := procs[np].(state := Alive);
      assert procs[..] == s[np := s[np].(state := Alive)];
      forking := forking - {p};
      return procs[np].pid;
    }

    /** reparent: p's children are init's, and init is woken if there are any. */
    method Reparent(p: int)
      requires procs.Length == NPROC
      modifies procs, this`waiting
      ensures procs[..] == Reparented(old(procs[..]), p, init)
      ensures waiting == old(waiting) - if HasChild(old(procs[..]), p) then {init} else {}
    {
      var pp := 0;
      while pp < NPROC
        invariant 0 <= pp <= NPROC
        invariant forall q :: 0 <= q < pp ==> procs[q] == Adopted(old(procs[..])[q], p, init)
        invariant forall q :: pp <= q < NPROC ==> procs[q] == old(procs[..])[q]
        invariant waiting == old(waiting) - if HasChild(old(procs[..pp]), p) then {init} else {}
      {
        ghost var s := old(procs[..]);
        assert s[..pp + 1] == s[..pp] + [s[pp]] && old(procs[..pp]) == s[..pp] && old(procs[..pp + 1]) == s[..pp + 1];
        HasChildMore(s[..pp], s[pp], p);
        if procs[pp].parent == p {
          procs[pp] := procs[pp].(parent := init);
          waiting := waiting - {init};
        }
        pp := pp + 1;
      }
      assert old(procs[..NPROC]) == old(procs[..]);
    }

    /** exit's section under wait_lock, up to the scheduler; init exiting is its panic. */
    method Exit(p: int, status: int)
      requires Valid() && 0 <= p < NPROC && p != init && procs[p].state.Alive? && p !in forking && p !in waiting
      modifies this, procs
      ensures Valid() && exited == old(exited)[old(procs[p]).pid := status] && old(procs[p]).pid !in old(exited)
      ensures reaped == old(reaped) && forking == old(forking)
      ensures procs[..] == Reparented(old(procs[..]), p, init)[p := procs[p]]
      ensures procs[p] == Adopted(old(procs[p]), p, init).(state := Zombie, xstate := status)
      ensures waiting == old(waiting) - (if HasChild(old(procs[..]), p) then {init} else {}) - {procs[p].parent}
    {
      hide Ok;
      ghost var s := procs[..];
      Exited(s, init, nextpid, exited, reaped, forking, waiting, p, status);
      Reparent(p);
      waiting := waiting - {procs[p].parent};
      procs[p] := procs[p].(xstate := status);
      procs[p] := procs[p].(state := Zombie);
      ghost var s1 := Reparented(s, p, init);
      assert procs[..] == s1[p := s1[p].(xstate := status, state := Zombie)];
      exited := exited[s[p].pid := status];
    }

    /** One pass of wait under wait_lock: 0 if it goes to sleep. A zombie child, if there is one, is
        collected unless its status cannot be copied out; its pid and status are those it exited with, and
        no wait has returned them before. */
    method Wait(p: int, copies: bool) returns (r: int, status: int)
      requires Valid() && 0 <= p < NPROC && procs[p].state.Alive? && p !in waiting
      modifies this, procs
      ensures Valid() && exited == old(exited) && forking == old(forking)
      ensures r > 0 ==> r in exited && r !in old(reaped) && status == exited[r] && reaped == old(reaped) + {r}
      ensures r > 0 ==> waiting == old(waiting)
      ensures r > 0 ==> exists q ::
                && 0 <= q < NPROC && old(procs[q]).state.Zombie? && old(procs[q]).parent == p && old(procs[q]).pid == r
                && procs[..] == old(procs[..])[q := Cleared()]
      ensures r <= 0 ==> procs[..] == old(procs[..]) && reaped == old(reaped)
      ensures r == 0 ==> waiting == old(waiting) + {p} && HasChild(procs[..], p) && !procs[p].killed
      ensures r < 0 ==> r == -1 && waiting == old(waiting) && (procs[p].killed || !HasChild(procs[..], p) || !copies)
      ensures copies && (exists q :: 0 <= q < NPROC && old(procs[q]).state.Zombie? && old(procs[q]).parent == p) ==>
                 r > 0
    {
      hide Ok;
      ghost var s := procs[..];
      status := 0;
      var havekids := false;
      var pp := 0;
      while pp < NPROC
        invariant 0 <= pp <= NPROC && procs[..] == s && forking == old(forking) && exited == old(exited)
        invariant reaped == old(reaped) && waiting == old(waiting)
        invariant forall q :: 0 <= q < pp && s[q].parent == p ==> !s[q].state.Zombie?
        invariant havekids <==> exists q :: 0 <= q < pp && s[q].parent == p
        invariant Valid() && nextpid == old(nextpid)
      {
        if procs[pp].parent == p {
          havekids := true;
          if procs[pp].state.Zombie? {
            Collected(s, init, nextpid, exited, reaped, forking, waiting, pp);
            r, status := procs[pp].pid, procs[pp].xstate;
            if !copies {
              return -1, 0;
            }
            FreeProc(pp);
            reaped := reaped + {r};
            return;
          }
        }
        pp := pp + 1;
      }
      if !havekids || procs[p].killed {
        return -1, 0;
      }
      Drowsy(s, init, nextpid, exited, reaped, forking, waiting, p);
      waiting := waiting + {p};
      return 0, 0;
    }

    /** kill: the first slot with that pid is marked, and woken if it sleeps in wait. An unused slot has pid 0. */
    method Kill(pid: int) returns (r: int)
      requires Valid()
      modifies procs, this`waiting
      ensures Valid() && (r == 0 || r == -1)
      ensures r == -1 ==> procs[..] == old(procs[..]) && waiting == old(waiting)
      ensures r == -1 ==> forall q :: 0 <= q < NPROC ==> procs[q].pid != pid
      ensures r == 0 ==> exists q ::
                && 0 <= q < NPROC && old(procs[q]).pid == pid && (forall k :: 0 <= k < q ==> old(procs[k]).pid != pid)
                && procs[..] == old(procs[..])[q := old(procs[q]).(killed := true)] && waiting == old(waiting) - {q}
    {
      hide Ok;
      ghost var s := procs[..];
      var q := 0;
      while q < NPROC
        invariant 0 <= q <= NPROC && procs[..] == s && waiting == old(waiting) && forall k :: 0 <= k < q ==>
                   procs[k].pid != pid
        invariant Valid()
      {
        if procs[q].pid == pid {
          Marked(s, init, nextpid, exited, reaped, forking, waiting, q);
          procs[q] := procs[q].(killed := true);
          assert procs[..] == s[q := s[q].(killed := true)];
          waiting := waiting - {q};
          return 0;
        }
        q := q + 1;
      }
      return -1;
    }
  }

  /** kill(0) finds an unused slot; allocproc leaves the mark, so the next process there is born killed. */
  method BornKilled() returns (t: Table, np: int)
    ensures t.Valid() && 0 <= np < NPROC && t.procs[np].state.Used? && t.procs[np].killed
  {
    hide Ok;
    t := new Table();
    ghost var s := t.procs[..];
    var r := t.Kill(0);
    assert s[1].pid == 0 && s[0].pid == 1;
    assert t.procs[..] == s[1 := s[1].(killed := true)] && t.procs[0] == s[0];
    assert t.procs[1] == t.procs[..][1];
    np := t.AllocProc(0, true);
    assert np == 1 && t.procs[..][1].killed;
  }

  // ----- what each step keeps

  ghost predicate Ok(s: seq<Proc>, init: int, nextpid: int, exited: map<int, int>, reaped: set<int>,
                     forking: map<int, int>, waiting: set<int>) {
    Tree(s, init, nextpid) && Accounts(s, nextpid, exited, reaped) && Calls(s, forking, waiting)
  }

  /** In every state: a zombie's parent is alive and awake, so the zombie will be found by that parent's wait
      or passed on to init; nobody's parent is a zombie or gone. */
  lemma {:induction false} Reapable(s: seq<Proc>, init: int, nextpid: int, exited: map<int, int>, reaped: set<int>,
                                    forking: map<int, int>, waiting: set<int>, q: int)
    requires Ok(s, init, nextpid, exited, reaped, forking, waiting) && 0 <= q < NPROC
    ensures s[q].parent != -1 ==> 0 <= s[q].parent < NPROC && s[s[q].parent].state.Alive?
    ensures s[q].state.Zombie? ==> q != init && s[q].parent != -1 && s[q].parent !in waiting
    ensures s[q].state.Zombie? ==> s[q].pid in exited && s[q].pid !in reaped && s[q].xstate == exited[s[q].pid]
  {
    assert ParentAlive(s, q);
  }

  ghost function Adopted(q: Proc, p: int, init: int): Proc { if q.parent == p then q.(parent := init) else q }

  ghost function Reparented(s: seq<Proc>, p: int, init: int): (r: seq<Proc>)
    ensures |r| == |s| && forall q :: 0 <= q < |s| ==> r[q] == Adopted(s[q], p, init)
  {
    seq(|s|, q requires 0 <= q < |s| => Adopted(s[q], p, init))
  }

  ghost predicate HasChild(s: seq<Proc>, p: int) { exists q :: 0 <= q < |s| && s[q].parent == p }

  lemma {:induction false} HasChildMore(s: seq<Proc>, x: Proc, p: int)
    ensures HasChild(s + [x], p) <==> HasChild(s, p) || x.parent == p
  {
    if HasChild(s, p) {
      var q :| 0 <= q < |s| && s[q].parent == p;
      assert (s + [x])[q].parent == p;
    }
    if x.parent == p { assert (s + [x])[|s|].parent == p; }
  }

  lemma {:induction false} Allocated(s: seq<Proc>, init: int, nextpid: int, exited: map<int, int>, reaped: set<int>,
                                     forking: map<int, int>, waiting: set<int>, p: int, np: int)
    requires Ok(s, init, nextpid, exited, reaped, forking, waiting)
    requires 0 <= p < NPROC && s[p].state.Alive? && p !in forking && 0 <= np < NPROC && s[np].state.Unused?
    ensures s[np] == Cleared().(killed := s[np].killed)
    ensures Ok(s[np := Cleared()], init, nextpid + 1, exited, reaped, forking, waiting)
    ensures Ok(s[np := Proc(Used, nextpid, -1, 0, s[np].killed)], init, nextpid + 1, exited, reaped, forking[p := np],
               waiting)
  {
    hide Accounts, Calls;
    var s' := s[np := Proc(Used, nextpid, -1, 0, s[np].killed)];
    AllocatedAccounts(s, nextpid, exited, reaped, np);
    AllocatedCalls(s, forking, waiting, p, np, s');
    var t := s[np := Cleared()];
    ClearedCalls(s, forking, waiting, np);
    forall q | 0 <= q < NPROC ensures ParentAlive(t, q) {
      assert ParentAlive(s, q);
    }
    forall q | 0 <= q < NPROC ensures ParentAlive(s', q) {
      assert ParentAlive(s, q);
    }
  }

  lemma {:induction false} AllocatedAccounts(s: seq<Proc>, nextpid: int, exited: map<int, int>, reaped: set<int>,
                                             np: int)
    requires Accounts(s, nextpid, exited, reaped) && 0 <= np < NPROC && s[np].state.Unused?
    ensures Accounts(s[np := Cleared()], nextpid + 1, exited, reaped)
    ensures Accounts(s[np := Proc(Used, nextpid, -1, 0, s[np].killed)], nextpid + 1, exited, reaped)
  {
    SameZombies(s, s[np := Cleared()]);
    SameZombies(s, s[np := Proc(Used, nextpid, -1, 0, s[np].killed)]);
    hide IsZombie;
  }

  lemma {:induction false} AllocatedCalls(s: seq<Proc>, forking: map<int, int>, waiting: set<int>, p: int, np: int,
                                          s': seq<Proc>)
    requires Calls(s, forking, waiting) && 0 <= np < NPROC && s[np].state.Unused? && 0 <= p < NPROC && s[p].state.Alive?
    requires p !in forking
    requires |s'| == NPROC && s'[np].state.Used? && s'[np].parent == -1 && forall q :: 0 <= q < NPROC && q != np ==>
               s'[q] == s[q]
    ensures Calls(s', forking[p := np], waiting)
  {
    forall q | q in forking ensures InFork(s', q, forking[q]) && forking[q] != np {
      assert InFork(s, q, forking[q]);
    }
  }

  lemma {:induction false} ClearedCalls(s: seq<Proc>, forking: map<int, int>, waiting: set<int>, np: int)
    requires Calls(s, forking, waiting) && 0 <= np < NPROC && s[np].state.Unused?
    ensures Calls(s[np := Cleared()], forking, waiting)
  {
    var t := s[np := Cleared()];
    forall q | q in forking ensures InFork(t, q, forking[q]) {
      assert InFork(s, q, forking[q]);
    }
  }

  /** Zombies that stay are found where they were. */
  lemma {:induction false} SameZombies(s: seq<Proc>, s': seq<Proc>)
    requires |s'| == |s| && forall q :: 0 <= q < |s| && s[q].state.Zombie? ==>
               s'[q].state.Zombie? && s'[q].pid == s[q].pid
    ensures forall d :: IsZombie(s, d) ==> IsZombie(s', d)
  {
    forall d | IsZombie(s, d) ensures IsZombie(s', d) {
      var q :| 0 <= q < |s| && s[q].state.Zombie? && s[q].pid == d;
      assert s'[q].pid == d;
    }
  }

  lemma {:induction false} Failed(s: seq<Proc>, init: int, nextpid: int, exited: map<int, int>, reaped: set<int>,
                                  forking: map<int, int>, waiting: set<int>, p: int)
    requires Ok(s, init, nextpid, exited, reaped, forking, waiting) && p in forking && 0 <= forking[p] < NPROC
    ensures Ok(s[forking[p] := Cleared()], init, nextpid, exited, reaped, forking - {p}, waiting)
  {
    var s' := s[forking[p] := Cleared()];
    forall q | 0 <= q < NPROC ensures ParentAlive(s', q) {
      assert ParentAlive(s, q);
    }
    SameZombies(s, s');
    assert InFork(s, p, forking[p]);
    forall q | q in forking - {p} ensures InFork(s', q, forking[q]) {
      assert InFork(s, q, forking[q]);
    }
  }

  lemma {:induction false} LinkedChild(s: seq<Proc>, init: int, nextpid: int, exited: map<int, int>, reaped: set<int>,
                                       forking: map<int, int>, waiting: set<int>, p: int)
    requires Ok(s, init, nextpid, exited, reaped, forking, waiting) && p in forking && 0 <= forking[p] < NPROC
    ensures Ok(s[forking[p] := s[forking[p]].(parent := p)], init, nextpid, exited, reaped, forking, waiting)
  {
    var s' := s[forking[p] := s[forking[p]].(parent := p)];
    assert InFork(s, p, forking[p]);
    CallsKept(s, s', forking, waiting);
    forall q | 0 <= q < NPROC ensures ParentAlive(s', q) {
      assert ParentAlive(s, q);
    }
    SameZombies(s, s');
    hide Calls, IsZombie;
  }

  /** A change to the child of a fork that leaves it in use and with that parent. */
  lemma {:induction false} CallsKept(s: seq<Proc>, s': seq<Proc>, forking: map<int, int>, waiting: set<int>)
    requires Calls(s, forking, waiting) && |s'| == NPROC && forall q :: 0 <= q < NPROC ==> s'[q].state == s[q].state
    requires forall q :: 0 <= q < NPROC && s[q].state.Zombie? ==> s'[q].parent == s[q].parent
    requires forall p :: p in forking && 0 <= forking[p] < NPROC ==>
               s'[forking[p]].parent == s[forking[p]].parent || s'[forking[p]].parent == p
    ensures Calls(s', forking, waiting)
  {
    forall q | q in forking ensures InFork(s', q, forking[q]) {
      assert InFork(s, q, forking[q]);
    }
  }

  lemma {:induction false} Readied(s: seq<Proc>, init: int, nextpid: int, exited: map<int, int>, reaped: set<int>,
                                   forking: map<int, int>, waiting: set<int>, p: int)
    requires Ok(s, init, nextpid, exited, reaped, forking, waiting) && p in forking && 0 <= forking[p] < NPROC
    requires s[forking[p]].parent == p
    ensures Ok(s[forking[p] := s[forking[p]].(state := Alive)], init, nextpid, exited, reaped, forking - {p}, waiting)
  {
    var s' := s[forking[p] := s[forking[p]].(state := Alive)];
    forall q | 0 <= q < NPROC ensures ParentAlive(s', q) {
      assert ParentAlive(s, q);
    }
    SameZombies(s, s');
    assert InFork(s, p, forking[p]);
    forall q | q in forking - {p} ensures InFork(s', q, forking[q]) {
      assert InFork(s, q, forking[q]);
    }
  }

  /** exit keeps the tree: its children get init, its parent is told. */
  lemma {:induction false} Exited(s: seq<Proc>, init: int, nextpid: int, exited: map<int, int>, reaped: set<int>,
                                  forking: map<int, int>, waiting: set<int>, p: int, status: int)
    requires Ok(s, init, nextpid, exited, reaped, forking, waiting)
    requires 0 <= p < NPROC && p != init && s[p].state.Alive? && p !in forking && p !in waiting
    ensures s[p].pid !in exited
    ensures var s1 := Reparented(s, p, init);
      Ok(s1[p := s1[p].(xstate := status, state := Zombie)], init, nextpid, exited[s[p].pid := status], reaped, forking,
         waiting - (if HasChild(s, p) then {init} else {}) - {s1[p].parent})
  {
    hide Calls, Accounts;
    var s1 := Reparented(s, p, init);
    var s' := s1[p := s1[p].(xstate := status, state := Zombie)];
    ExitedTree(s, s', init, nextpid, p);
    ExitedAccounts(s, s', nextpid, exited, reaped, p, status);
    ExitedCalls(s, s', init, forking, waiting, p);
  }

  /** s' is s after p has exited. */
  ghost predicate Gone(s: seq<Proc>, s': seq<Proc>, init: int, p: int) {
    && |s| == |s'| == NPROC && 0 <= p < NPROC
    && (forall q :: 0 <= q < NPROC && q != p ==> s'[q] == Adopted(s[q], p, init))
    && s'[p].state.Zombie? && s'[p].pid == s[p].pid && s'[p].parent == Adopted(s[p], p, init).parent
  }

  lemma {:induction false} ExitedTree(s: seq<Proc>, s': seq<Proc>, init: int, nextpid: int, p: int)
    requires Tree(s, init, nextpid) && Gone(s, s', init, p) && p != init && s[p].state.Alive?
    ensures Tree(s', init, nextpid)
  {
    forall q | 0 <= q < NPROC ensures ParentAlive(s', q) {
      assert ParentAlive(s, q);
    }
  }

  lemma {:induction false} ExitedAccounts(s: seq<Proc>, s': seq<Proc>, nextpid: int, exited: map<int, int>,
                                          reaped: set<int>, p: int, status: int)
    requires Accounts(s, nextpid, exited, reaped) && |s'| == NPROC && 0 <= p < NPROC && s[p].state.Alive?
    requires 0 < s[p].pid < nextpid
    requires forall q :: 0 <= q < NPROC && q != p ==>
               s'[q].state == s[q].state && s'[q].pid == s[q].pid && s'[q].xstate == s[q].xstate
    requires s'[p].state.Zombie? && s'[p].pid == s[p].pid && s'[p].xstate == status
    requires forall q :: 0 <= q < NPROC && q != p ==> s[q].pid != s[p].pid
    ensures s[p].pid !in exited && Accounts(s', nextpid, exited[s[p].pid := status], reaped)
  {
    SameZombies(s, s');
    assert IsZombie(s', s[p].pid);
    hide IsZombie;
  }

  lemma {:induction false} ExitedCalls(s: seq<Proc>, s': seq<Proc>, init: int, forking: map<int, int>,
                                       waiting: set<int>, p: int)
    requires Calls(s, forking, waiting) && Gone(s, s', init, p) && p !in forking && s[p].state.Alive?
    ensures Calls(s', forking, waiting - (if HasChild(s, p) then {init} else {}) - {s'[p].parent})
  {
    forall q | q in forking ensures InFork(s', q, forking[q]) {
      assert InFork(s, q, forking[q]);
    }
    assert forall q :: 0 <= q < NPROC && s[q].parent == p ==> HasChild(s, p);
  }

  lemma {:induction false} Collected(s: seq<Proc>, init: int, nextpid: int, exited: map<int, int>, reaped: set<int>,
                                     forking: map<int, int>, waiting: set<int>, q: int)
    requires Ok(s, init, nextpid, exited, reaped, forking, waiting) && 0 <= q < NPROC && s[q].state.Zombie?
    ensures s[q].pid in exited && s[q].pid !in reaped && exited[s[q].pid] == s[q].xstate && s[q].pid > 0
    ensures Ok(s[q := Cleared()], init, nextpid, exited, reaped + {s[q].pid}, forking, waiting)
  {
    hide Accounts;
    var s' := s[q := Cleared()];
    CollectedAccounts(s, s', nextpid, exited, reaped, q);
    forall k | 0 <= k < NPROC ensures ParentAlive(s', k) {
      assert ParentAlive(s, k);
    }
    forall k | k in forking ensures InFork(s', k, forking[k]) {
      assert InFork(s, k, forking[k]);
    }
  }

  lemma {:induction false} CollectedAccounts(s: seq<Proc>, s': seq<Proc>, nextpid: int, exited: map<int, int>,
                                             reaped: set<int>, q: int)
    requires Accounts(s, nextpid, exited, reaped) && 0 <= q < NPROC && s[q].state.Zombie? && s' == s[q := Cleared()]
    requires forall k :: 0 <= k < NPROC && k != q ==> s[k].pid != s[q].pid
    ensures s[q].pid in exited && s[q].pid !in reaped && exited[s[q].pid] == s[q].xstate
    ensures Accounts(s', nextpid, exited, reaped + {s[q].pid})
  {
    forall d | d in exited && d !in reaped + {s[q].pid} ensures IsZombie(s', d) {
      assert IsZombie(s, d);
      var k :| 0 <= k < |s| && s[k].state.Zombie? && s[k].pid == d;
      assert s'[k].pid == d;
    }
    hide IsZombie;
  }

  lemma {:induction false} InitOnly(s: seq<Proc>)
    requires |s| == NPROC && s[0] == Proc(Alive, 1, -1, 0, false) && forall q :: 1 <= q < NPROC ==> s[q] == Cleared()
    ensures Ok(s, 0, 2, map[], {}, map[], {})
  {
    forall q | 0 <= q < NPROC ensures ParentAlive(s, q) {
    }
  }

  /** Marking a process killed, and taking it out of its sleep. */
  lemma {:induction false} Marked(s: seq<Proc>, init: int, nextpid: int, exited: map<int, int>, reaped: set<int>,
                                  forking: map<int, int>, waiting: set<int>, q: int)
    requires Ok(s, init, nextpid, exited, reaped, forking, waiting) && 0 <= q < NPROC
    ensures Ok(s[q := s[q].(killed := true)], init, nextpid, exited, reaped, forking, waiting - {q})
  {
    hide Accounts, Calls;
    var s' := s[q := s[q].(killed := true)];
    forall k | 0 <= k < NPROC ensures ParentAlive(s', k) {
      assert ParentAlive(s, k);
    }
    MarkedAccounts(s, nextpid, exited, reaped, q);
    MarkedCalls(s, forking, waiting, q);
  }

  lemma {:induction false} MarkedAccounts(s: seq<Proc>, nextpid: int, exited: map<int, int>, reaped: set<int>, q: int)
    requires Accounts(s, nextpid, exited, reaped) && 0 <= q < NPROC
    ensures Accounts(s[q := s[q].(killed := true)], nextpid, exited, reaped)
  {
    SameZombies(s, s[q := s[q].(killed := true)]);
    hide IsZombie;
  }

  lemma {:induction false} MarkedCalls(s: seq<Proc>, forking: map<int, int>, waiting: set<int>, q: int)
    requires Calls(s, forking, waiting) && 0 <= q < NPROC
    ensures Calls(s[q := s[q].(killed := true)], forking, waiting - {q})
  {
    var s' := s[q := s[q].(killed := true)];
    forall k | k in forking ensures InFork(s', k, forking[k]) {
      assert InFork(s, k, forking[k]);
    }
  }

  /** Who has no zombie child may sleep. */
  lemma {:induction false} Drowsy(s: seq<Proc>, init: int, nextpid: int, exited: map<int, int>, reaped: set<int>,
                                  forking: map<int, int>, waiting: set<int>, p: int)
    requires Ok(s, init, nextpid, exited, reaped, forking, waiting)
    requires forall q :: 0 <= q < NPROC && s[q].parent == p ==> !s[q].state.Zombie?
    ensures Ok(s, init, nextpid, exited, reaped, forking, waiting + {p})
  {
  }
}
