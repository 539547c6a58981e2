/** The disk as the file system sees it: numbered blocks, each written by one atomic step. */
module Disk {
  /** A block is BSIZE = 1024 bytes, that is 256 32-bit words, which struct logheader overlays. */
  const WORDS := 256

  datatype Block = Block(w: seq<int>)

  type Image = seq<Block>

  /** One bwrite. */
  datatype Write = Write(addr: nat, data: Block)

  ghost predicate InRange(ws: seq<Write>, size: nat) {
    forall i :: 0 <= i < |ws| ==> ws[i].addr < size
  }

  /** The disk once every write of ws has reached it, in order. */
  ghost function Apply(d: Image, ws: seq<Write>): (r: Image)
    requires InRange(ws, |d|)
    ensures |r| == |d|
  {
    if ws == [] then d
    else
      var last := ws[|ws| - 1];
      Apply(d, ws[..|ws| - 1])[last.addr := last.data]
  }

  lemma {:induction false} NoWrites(d: Image, ws: seq<Write>)
    requires ws == []
    ensures Apply(d, ws) == d
  {
  }

  ghost predicate Writes(ws: seq<Write>, a: nat) {
    exists i :: 0 <= i < |ws| && ws[i].addr == a
  }

  /** A block that is never written keeps its contents. */
  lemma {:induction false} ApplyUntouched(d: Image, ws: seq<Write>, a: nat)
    requires InRange(ws, |d|) && a < |d| && !Writes(ws, a)
    ensures Apply(d, ws)[a] == d[a]
  {
    if ws != [] {
      ApplyUntouched(d, ws[..|ws| - 1], a);
    }
  }

  /** A block whose last write is ws[i] ends with that write's data. */
  lemma {:induction false} ApplyLast(d: Image, ws: seq<Write>, i: nat)
    requires InRange(ws, |d|) && i < |ws|
    requires forall j :: i < j < |ws| ==> ws[j].addr != ws[i].addr
    ensures Apply(d, ws)[ws[i].addr] == ws[i].data
  {
    if i < |ws| - 1 {
      var front := ws[..|ws| - 1];
      assert front[i] == ws[i];
      ApplyLast(d, front, i);
    }
  }

  lemma {:induction false} ApplyConcat(d: Image, u: seq<Write>, v: seq<Write>)
    requires InRange(u, |d|) && InRange(v, |d|)
    ensures InRange(u + v, |d|)
    ensures Apply(d, u + v) == Apply(Apply(d, u), v)
  {
    if v == [] {
      assert u + v == u;
    } else {
      ApplyConcat(d, u, v[..|v| - 1]);
      assert (u + v)[..|u + v| - 1] == u + v[..|v| - 1];
    }
  }

  /** The last index at which ws writes a. */
  ghost function LastWrite(ws: seq<Write>, a: nat): (i: nat)
    requires Writes(ws, a)
    ensures i < |ws| && ws[i].addr == a
    ensures forall j :: i < j < |ws| ==> ws[j].addr != a
  {
    if ws[|ws| - 1].addr == a then |ws| - 1
    else
      var k :| 0 <= k < |ws| && ws[k].addr == a;
      assert ws[..|ws| - 1][k].addr == a;
      LastWrite(ws[..|ws| - 1], a)
  }

  /** Doing some of the writes first, and then all of them, is the same as doing all of them. */
  lemma ApplyAfterPrefix(d: Image, ws: seq<Write>, k: nat)
    requires InRange(ws, |d|) && k <= |ws|
    ensures Apply(Apply(d, ws[..k]), ws) == Apply(d, ws)
  {
    var d' := Apply(d, ws[..k]);
    forall a | 0 <= a < |d| ensures Apply(d', ws)[a] == Apply(d, ws)[a] {
      if Writes(ws, a) {
        var i := LastWrite(ws, a);
        ApplyLast(d, ws, i);
        ApplyLast(d', ws, i);
      } else {
        ApplyUntouched(d, ws, a);
        ApplyUntouched(d', ws, a);
        ApplyUntouched(d, ws[..k], a);
      }
    }
  }

  /** After one more write the disk is the one the writes so far describe. */
  lemma {:induction false} OneMoreWrite(d: Image, ws: seq<Write>, k: nat)
    requires InRange(ws, |d|) && k < |ws|
    ensures Apply(d, ws[..k + 1]) == Apply(d, ws[..k])[ws[k].addr := ws[k].data]
    ensures forall t: seq<Write> {:trigger t + ws[..k]} :: t + ws[..k] + [ws[k]] == t + ws[..k + 1]
  {
    assert ws[..k + 1][..k] == ws[..k];
    assert ws[..k] + [ws[k]] == ws[..k + 1];
    forall t: seq<Write> ensures t + ws[..k] + [ws[k]] == t + ws[..k + 1] {
      assert t + ws[..k] + [ws[k]] == t + (ws[..k] + [ws[k]]);
    }
  }
}
