/** kernel/pipe.c: a ring buffer between processes. A method is what a process does from getting the pipe's
    lock until it gives the lock up, by returning or in sleep, so any interleaving of readers and writers is
    a sequence of these calls. */
module Pipe {
  import opened Common

  const PIPESIZE := 512

  // ----- 32-bit counters

  lemma {:induction false} Count(k: nat)
    ensures (k % UINT + 1) % UINT == (k + 1) % UINT && k % UINT % PIPESIZE == k % PIPESIZE
  {
    var q, r := k / UINT, k % UINT;
    assert k == q * UINT + r;
    if r + 1 == UINT {
      Split(k + 1, q + 1, 0);
    } else {
      Split(k + 1, q, r + 1);
    }
    Slot(q * 0x80_0000, r);
  }

  lemma {:induction false} Split(x: int, q: int, r: int)
    requires x == q * UINT + r && 0 <= r < UINT
    ensures x % UINT == r
  {
  }

  lemma {:induction false} Slot(m: int, r: int)
    ensures (m * PIPESIZE + r) % PIPESIZE == r % PIPESIZE
  {
    var a, b := r / PIPESIZE, r % PIPESIZE;
    assert m * PIPESIZE + r == (m + a) * PIPESIZE + b;
    Slot0((m + a) * PIPESIZE + b, m + a, b);
  }

  lemma {:induction false} Slot0(x: int, q: int, b: int)
    requires x == q * PIPESIZE + b && 0 <= b < PIPESIZE
    ensures x % PIPESIZE == b
  {
  }

  /** The comparisons of wrapped counters say what the true counts would. */
  lemma {:induction false} Compare(r: nat, w: nat)
    requires r <= w <= r + PIPESIZE
    ensures r % UINT == w % UINT <==> r == w
    ensures w % UINT == (r % UINT + PIPESIZE) % UINT <==> w == r + PIPESIZE
  {
    var q, a, d := r / UINT, r % UINT, w - r;
    assert r == q * UINT + a;
    Near(q, a, d);
    Near(q, a, PIPESIZE);
  }

  lemma {:induction false} Near(q: int, a: int, d: int)
    requires 0 <= a < UINT && 0 <= d <= PIPESIZE
    ensures (q * UINT + a + d) % UINT == (if a + d < UINT then a + d else a + d - UINT)
    ensures (a + d) % UINT == (if a + d < UINT then a + d else a + d - UINT)
  {
    if a + d < UINT {
      Split(q * UINT + a + d, q, a + d);
    } else {
      Split(q * UINT + a + d, q + 1, a + d - UINT);
    }
  }

  // ----- what the ring stands for

  /** Of the bytes ever accepted the first `taken` have been read; the rest are in the ring. */
  ghost predicate Fifo(data: seq<char>, nread: int, nwrite: int, accepted: seq<char>, taken: nat) {
    && |data| == PIPESIZE && taken <= |accepted| <= taken + PIPESIZE
    && nread == taken % UINT && nwrite == |accepted| % UINT
    && forall k :: taken <= k < |accepted| ==> data[k % PIPESIZE] == accepted[k]
  }

  lemma {:induction false} Put(data: seq<char>, nread: int, nwrite: int, accepted: seq<char>, taken: nat, ch: char)
    requires Fifo(data, nread, nwrite, accepted, taken) && |accepted| < taken + PIPESIZE
    ensures 0 <= nwrite % PIPESIZE < PIPESIZE
    ensures Fifo(data[nwrite % PIPESIZE := ch], nread, (nwrite + 1) % UINT, accepted + [ch], taken)
  {
    Count(|accepted|);
    var n, accepted' := |accepted|, accepted + [ch];
    forall k | taken <= k < n + 1 ensures data[n % PIPESIZE := ch][k % PIPESIZE] == accepted'[k] {
      if k < n { Apart(k, n); }
    }
  }

  lemma {:induction false} Apart(k: int, n: int)
    requires 0 <= k < n < k + PIPESIZE
    ensures k % PIPESIZE != n % PIPESIZE
  {
  }

  lemma {:induction false} Get(data: seq<char>, nread: int, nwrite: int, accepted: seq<char>, taken: nat)
    requires Fifo(data, nread, nwrite, accepted, taken) && taken < |accepted|
    ensures 0 <= nread % PIPESIZE < PIPESIZE && data[nread % PIPESIZE] == accepted[taken]
    ensures Fifo(data, (nread + 1) % UINT, nwrite, accepted, taken + 1)
  {
    Count(taken);
  }

  /** The bytes that reached a reader: those whose copyout succeeded. */
  ghost function Delivered(accepted: seq<char>, copied: seq<bool>): seq<char>
    requires |copied| <= |accepted|
  {
    if copied == [] then []
    else
      var n := |copied| - 1;
      Delivered(accepted, copied[..n]) + if copied[n] then [accepted[n]] else []
  }

  /** The bytes delivered are a prefix of those accepted while every copy succeeds; a failed copy loses its
      byte for good. */
  lemma {:induction false} DeliveredPrefix(accepted: seq<char>, copied: seq<bool>)
    requires |copied| <= |accepted|
    ensures |Delivered(accepted, copied)| <= |copied|
    ensures (forall k :: 0 <= k < |copied| ==> copied[k]) ==> Delivered(accepted, copied) == accepted[..|copied|]
    ensures (exists k :: 0 <= k < |copied| && !copied[k]) ==> |Delivered(accepted, copied)| < |copied|
  {
    if copied != [] {
      var n := |copied| - 1;
      DeliveredPrefix(accepted, copied[..n]);
      assert accepted[..n] + [accepted[n]] == accepted[..n + 1];
    }
  }

  lemma {:induction false} DeliveredGrows(accepted: seq<char>, more: seq<char>, copied: seq<bool>)
    requires |copied| <= |accepted|
    ensures Delivered(accepted + more, copied) == Delivered(accepted, copied)
  {
    if copied != [] {
      DeliveredGrows(accepted, more, copied[..|copied| - 1]);
    }
  }

  /** How a call gives the lock up. */
  datatype Exit = Sleeps | Returns | Aborts

  class Pipe {
    const data: array<char>
    var nread: int
    var nwrite: int
    var readopen: bool
    var writeopen: bool
    /** every byte accepted, and for each byte read whether its copyout succeeded */
    ghost var accepted: seq<char>
    ghost var copied: seq<bool>
    /** the processes asleep on &nread and on &nwrite */
    ghost var readers: set<int>
    ghost var writers: set<int>

    ghost predicate Valid()
      reads this, data
    {
      data.Length == PIPESIZE && Fifo(data[..], nread, nwrite, accepted, |copied|)
    }

    ghost predicate Empty()
      reads this
    {
      |accepted| == |copied|
    }

    ghost predicate Full()
      reads this
    {
      |accepted| == |copied| + PIPESIZE
    }

    /** Who sleeps has reason to. */
    ghost predicate Restful()
      reads this
    {
      (readers != {} ==> Empty() && writeopen) && (writers != {} ==> Full() && readopen)
    }

    /** The pipe pipealloc makes, in memory with whatever contents. */
    constructor (junk: char)
      ensures Valid() && fresh(data) && Restful() && accepted == [] && copied == [] && readopen && writeopen
      ensures readers == {} && writers == {}
    {
      data := new char[PIPESIZE](_ => junk);
      nread, nwrite, readopen, writeopen := 0, 0, true, true;
      accepted, copied, readers, writers := [], [], {}, {};
    }

    /** pipewrite from position i0 of the n bytes at src, where a byte that copyin cannot get is None; kill
        reaches the process after killAt turns of the loop. Bytes enter in order. What keeps sleeping
        readers from being passed over is a wakeup, and exactly one way out goes without: killed after
        having added bytes, which with readers asleep on an open, so empty, pipe means CutShort. */
    method Write(pid: int, src: seq<Option<char>>, i0: int, killAt: int) returns (i: int, how: Exit)
      requires Valid() && 0 <= i0 <= |src| && pid !in readers && pid !in writers
      modifies this, data
      ensures Valid() && i0 <= i <= |src| && (forall k :: i0 <= k < i ==> src[k].Some?)
      ensures accepted == old(accepted) + Bytes(src, i0, i) && copied == old(copied)
      ensures readopen == old(readopen) && writeopen == old(writeopen)
      ensures how.Sleeps? ==> i < |src| && Full() && readopen && readers == {} && writers == old(writers) + {pid}
      ensures how.Returns? ==> (i == |src| || src[i].None?) && readers == {} && writers == old(writers)
      ensures how.Aborts? ==> i < |src| && (!readopen || i - i0 >= killAt) && readers == old(readers)
      ensures how.Aborts? ==> writers == old(writers)
      ensures i - i0 <= Wanted(killAt, -1) && (!how.Aborts? ==> i == |src| || i - i0 < killAt)
      ensures i > i0 ==> readopen
      ensures old(Restful()) ==> (Restful() <==> !(old(readers) != {} && readopen && CutShort(src, i0, killAt)))
    {
      i := i0;
      while i < |src|
        invariant i0 <= i <= |src| && Valid() && (forall k :: i0 <= k < i ==> src[k].Some?)
        invariant accepted == old(accepted) + Bytes(src, i0, i) && copied == old(copied)
        invariant readopen == old(readopen) && writeopen == old(writeopen)
        invariant readers == old(readers) && writers == old(writers) && i - i0 <= Wanted(killAt, -1)
        invariant i > i0 ==> readopen
      {
        Compare(|copied|, |accepted|);
        if !readopen || i - i0 >= killAt {
          how := Aborts;
          return;
        }
        if nwrite == (nread + PIPESIZE) % UINT {
          readers := {};
          writers := writers + {pid};
          how := Sleeps;
          return;
        } else {
          match src[i] {
            case None => break;
            case Some(ch) =>
              Put(data[..], nread, nwrite, accepted, |copied|, ch);
              ghost var was := data[..];
              data[nwrite % PIPESIZE] := ch;
              assert data[..] == was[nwrite % PIPESIZE := ch];
              nwrite := (nwrite + 1) % UINT;
              accepted := accepted + [ch];
              i := i + 1;
          }
        }
      }
      readers := {};
      how := Returns;
    }

    /** piperead, where the copyout of byte number `fails` is the one that fails. The bytes handed over are
        the oldest unread ones, in order; a failed copy uses a byte up without handing it over. */
    method Read(pid: int, n: int, fails: int, killed: bool) returns (i: int, how: Exit, out: seq<char>)
      requires Valid() && pid !in readers && pid !in writers
      modifies this
      ensures Valid() && accepted == old(accepted) && readopen == old(readopen) && writeopen == old(writeopen)
      ensures how.Returns? <==> !old(Empty()) || !writeopen
      ensures how.Sleeps? ==> copied == old(copied) && readers == old(readers) + {pid} && writers == old(writers)
      ensures how.Aborts? <==> old(Empty()) && writeopen && killed
      ensures how.Aborts? ==> i == -1 && copied == old(copied) && readers == old(readers) && writers == old(writers)
      ensures how.Returns? ==> 0 <= i && readers == old(readers) && writers == {} && |old(copied)| + i <= |accepted|
      ensures how.Returns? ==> out == accepted[|old(copied)|..|old(copied)| + i]
      ensures how.Returns? ==> i == Least(Wanted(n, fails), |accepted| - |old(copied)|)
      ensures how.Returns? ==>
                 copied == old(copied) + Copies(i) + Lost(i == fails && i < n && i < |accepted| - |old(copied)|)
      ensures |old(copied)| <= |accepted| && |copied| <= |accepted|
      ensures how.Returns? ==> Delivered(accepted, copied) == Delivered(accepted, old(copied)) + out
      ensures old(Restful()) ==> Restful()
    {
      Compare(|copied|, |accepted|);
      out := [];
      if nread == nwrite && writeopen {
        if killed {
          return -1, Aborts, out;
        }
        readers := readers + {pid};
        return 0, Sleeps, out;
      }
      i, out := CopyOut(n, fails);
      DeliveredMore(accepted, old(copied), i, i == fails && i < n && i < |accepted| - |old(copied)|);
      writers := {};
      how := Returns;
    }

    /** piperead's copying loop. */
    method CopyOut(n: int, fails: int) returns (i: int, out: seq<char>)
      requires Valid()
      modifies this`nread, this`copied
      ensures Valid() && 0 <= i == Least(Wanted(n, fails), |accepted| - |old(copied)|)
      ensures out == accepted[|old(copied)|..|old(copied)| + i]
      ensures copied == old(copied) + Copies(i) + Lost(i == fails && i < n && i < |accepted| - |old(copied)|)
    {
      hide Fifo;
      ghost var taken := |copied|;
      FifoSize(data[..], nread, nwrite, accepted, taken);
      assert copied == copied + Copies(0);
      out, i := [], 0;
      while i < n
        invariant 0 <= i <= Wanted(n, fails) && Valid() && copied == old(copied) + Copies(i) && taken + i <= |accepted|
        invariant out == accepted[taken..taken + i]
      {
        ghost var was := copied;
        FifoSize(data[..], nread, nwrite, accepted, |copied|);
        Compare(|copied|, |accepted|);
        if nread == nwrite {
          break;
        }
        Get(data[..], nread, nwrite, accepted, |copied|);
        var ch := data[nread % PIPESIZE];
        nread := (nread + 1) % UINT;
        if i == fails {
          copied := copied + [false];
          return;
        }
        copied := copied + [true];
        assert was + [true] == old(copied) + Copies(i + 1);
        out := out + [ch];
        i := i + 1;
      }
      assert copied == copied + [];
    }

    /** pipeclose. The pipe goes when both ends have gone, and then nobody sleeps on it. */
    method Close(writable: bool) returns (gone: bool)
      requires Valid()
      modifies this
      ensures Valid() && accepted == old(accepted) && copied == old(copied)
      ensures readopen == (old(readopen) && writable) && writeopen == (old(writeopen) && !writable)
      ensures if writable then readers == {} && writers == old(writers) else writers == {} && readers == old(readers)
      ensures gone <==> !readopen && !writeopen
      ensures old(Restful()) ==> Restful() && (gone ==> readers == {} && writers == {})
    {
      if writable {
        writeopen := false;
        readers := {};
      } else {
        readopen := false;
        writers := {};
      }
      return !readopen && !writeopen;
    }

    /** kill makes a sleeping process runnable. */
    method Kill(pid: int)
      requires Valid()
      modifies this
      ensures Valid() && readers == old(readers) - {pid} && writers == old(writers) - {pid}
      ensures accepted == old(accepted) && copied == old(copied) && readopen == old(readopen)
      ensures writeopen == old(writeopen)
      ensures old(Restful()) ==> Restful()
    {
      readers, writers := readers - {pid}, writers - {pid};
    }
  }

  /** The bytes a reader gets if there are enough: up to n, up to a failing copy. */
  function Wanted(n: int, fails: int): int {
    if n < 0 then 0 else if 0 <= fails < n then fails else n
  }

  function Least(a: int, b: int): int { if a < b then a else b }

  ghost function Copies(i: int): seq<bool>
    requires 0 <= i
  {
    seq(i, _ => true)
  }

  ghost function Lost(failed: bool): seq<bool> { if failed then [false] else [] }

  lemma {:induction false} DeliveredMore(accepted: seq<char>, copied: seq<bool>, i: nat, failed: bool)
    requires |copied| + i + |Lost(failed)| <= |accepted|
    ensures Delivered(accepted, copied + Copies(i) + Lost(failed)) == Delivered(accepted,
          copied) + accepted[|copied|..|copied| + i]
  {
    DeliveredCopies(accepted, copied, i);
    var c := copied + Copies(i);
    if failed {
      assert (c + [false])[..|c|] == c;
    } else {
      assert c + [] == c;
    }
  }

  lemma {:induction false} DeliveredCopies(accepted: seq<char>, copied: seq<bool>, i: nat)
    requires |copied| + i <= |accepted|
    ensures Delivered(accepted, copied + Copies(i)) == Delivered(accepted, copied) + accepted[|copied|..|copied| + i]
    decreases i
  {
    if i == 0 {
      assert copied + Copies(0) == copied;
    } else {
      DeliveredCopies(accepted, copied, i - 1);
      var c := copied + Copies(i);
      assert c[..|c| - 1] == copied + Copies(i - 1);
    }
  }

  lemma {:induction false} FifoSize(data: seq<char>, nread: int, nwrite: int, accepted: seq<char>, taken: nat)
    requires Fifo(data, nread, nwrite, accepted, taken)
    ensures taken <= |accepted| <= taken + PIPESIZE && nread == taken % UINT && nwrite == |accepted| % UINT
    ensures |data| == PIPESIZE
  {
  }

  /** kill reaches a writer after it has added a byte to an empty pipe and before it has added its last, filled
      the pipe, or come to one it cannot copy. */
  ghost predicate CutShort(src: seq<Option<char>>, i0: int, killAt: int) {
    && 0 <= i0 && 0 < killAt < |src| - i0 && killAt <= PIPESIZE
    && forall k :: i0 <= k < i0 + killAt ==> src[k].Some?
  }

  /** The run that leaves a reader asleep beside a byte: the writer is killed right after adding it. */
  method KilledWriter(junk: char) returns (p: Pipe)
    ensures p.Valid() && p.readers == {1} && !p.Empty()
  {
    p := new Pipe(junk);
    var i, how, out := p.Read(1, 1, -1, false);
    i, how := p.Write(2, [Some('x'), Some('y')], 0, 1);
  }

  datatype Option<T> = None | Some(value: T)

  ghost function Bytes(src: seq<Option<char>>, lo: int, hi: int): (s: seq<char>)
    requires 0 <= lo <= hi <= |src| && forall k :: lo <= k < hi ==> src[k].Some?
    ensures |s| == hi - lo && forall k :: 0 <= k < hi - lo ==> s[k] == src[lo + k].value
  {
    seq(hi - lo, k requires 0 <= k < hi - lo => src[lo + k].value)
  }
}
