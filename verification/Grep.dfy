/** grep of user/grep.c: a fixed buffer refilled by reads of whatever size, and the lines in it. */
module Grep {
  import opened Regex

  const BUFSIZE := 1024

  // ----- what grep should print

  /** Where the first line of s ends: at a newline, or at the end of s. */
  ghost function LineEnd(s: string): (k: nat)
    ensures k <= |s| && (forall i :: 0 <= i < k ==> s[i] != '\n') && (k < |s| ==> s[k] == '\n')
  {
    if s == "" || s[0] == '\n' then 0 else 1 + LineEnd(s[1..])
  }

  /** The lines of s that match, each with its newline. */
  ghost function Output(re: string, s: string): string
    decreases |s|
  {
    var k := LineEnd(s);
    if k == |s| then "" else (if Found(re, s[..k]) then s[..k + 1] else "") + Output(re, s[k + 1..])
  }

  /** What follows the last newline. */
  ghost function Tail(s: string): string
    decreases |s|
  {
    var k := LineEnd(s);
    if k == |s| then s else Tail(s[k + 1..])
  }

  lemma {:induction false} TailSuffix(s: string)
    ensures var t := Tail(s); |t| <= |s| && t == s[|s| - |t|..] && forall i :: 0 <= i < |t| ==> t[i] != '\n'
    decreases |s|
  {
    var k := LineEnd(s);
    if k < |s| {
      TailSuffix(s[k + 1..]);
    } else {
      assert s == s[0..];
    }
  }

  ghost predicate NoNul(s: string) { forall i :: 0 <= i < |s| ==> s[i] != '\0' }

  /** s[i..j] is within one line. */
  ghost predicate OneLine(s: string, i: nat, j: nat) { i <= j <= |s| && forall k :: i <= k < j ==> s[k] != '\n' }

  /** No line has 1023 bytes and more input after them. */
  ghost predicate ShortLines(s: string) { forall i: nat, j: nat :: OneLine(s, i, j) && j < |s| ==> j - i < 1023 }

  /** After this much input the unfinished line fills the buffer. */
  ghost predicate FullAt(input: string, pos: nat) { pos <= |input| && |Tail(input[..pos])| == BUFSIZE - 1 }

  /** Where grep stops reading, if it gets to pos: at the end, or where its buffer is full of one line. */
  ghost function Stop(input: string, pos: nat): (r: nat)
    requires pos <= |input|
    ensures pos <= r <= |input|
    decreases |input| - pos
  {
    if pos == |input| || FullAt(input, pos) then pos else Stop(input, pos + 1)
  }

  /** A line split off the front. */
  lemma {:induction false} LineOff(re: string, s: string, k: nat)
    requires k < |s| && s[k] == '\n' && forall i :: 0 <= i < k ==> s[i] != '\n'
    ensures Output(re, s) == (if Found(re, s[..k]) then s[..k + 1] else "") + Output(re, s[k + 1..])
    ensures Tail(s) == Tail(s[k + 1..])
  {
    assert LineEnd(s) == k;
    hide Found;
  }

  lemma {:induction false} NoLine(re: string, s: string)
    requires forall i :: 0 <= i < |s| ==> s[i] != '\n'
    ensures Output(re, s) == "" && Tail(s) == s
  {
    assert LineEnd(s) == |s|;
  }

  /** More input after s: what it adds depends on s only through the unfinished line. */
  lemma {:induction false} Append(re: string, s: string, t: string)
    ensures Output(re, s + t) == Output(re, s) + Output(re, Tail(s) + t) && Tail(s + t) == Tail(Tail(s) + t)
    decreases |s|
  {
    hide Found;
    var k := LineEnd(s);
    if k < |s| {
      var u := s + t;
      assert u[..k] == s[..k] && u[..k + 1] == s[..k + 1] && u[k + 1..] == s[k + 1..] + t;
      LineOff(re, u, k);
      LineOff(re, s, k);
      Append(re, s[k + 1..], t);
    } else {
      NoLine(re, s);
    }
  }

  lemma {:induction false} TailGrows(re: string, s: string, t: string)
    ensures |Tail(s + t)| <= |Tail(s)| + |t|
  {
    Append(re, s, t);
    TailSuffix(Tail(s) + t);
  }

  /** Reading n more bytes than the m unfinished ones, if they fit, passes no point where the buffer is full. */
  lemma {:induction false} NotFullYet(re: string, input: string, pos: nat, n: nat)
    requires pos + n <= |input| && |Tail(input[..pos])| + n <= BUFSIZE - 1 && n > 0
    ensures Stop(input, pos) == Stop(input, pos + n)
    decreases n
  {
    hide Tail;
    assert !FullAt(input, pos);
    if n > 1 {
      assert input[..pos] + input[pos..pos + 1] == input[..pos + 1];
      TailGrows(re, input[..pos], input[pos..pos + 1]);
      NotFullYet(re, input, pos + 1, n - 1);
    }
  }

  lemma {:induction false} StopAt(input: string, pos: nat, p: nat)
    requires pos <= p <= |input|
    ensures Stop(input, pos) >= p <==> forall k :: pos <= k < p ==> !FullAt(input, k)
    decreases p - pos
  {
    hide FullAt;
    if pos < p { StopAt(input, pos + 1, p); }
  }

  /** The unfinished line grows a byte at a time, so a long one has filled the buffer exactly. */
  lemma {:induction false} WasFull(re: string, input: string, j: nat) returns (p: nat)
    requires j <= |input| && |Tail(input[..j])| >= BUFSIZE - 1
    ensures p <= j && FullAt(input, p)
    decreases j
  {
    p := j;
    if !FullAt(input, j) {
      TailSuffix(input[..j]);
      assert input[..j - 1] + input[j - 1..j] == input[..j];
      TailGrows(re, input[..j - 1], input[j - 1..j]);
      p := WasFull(re, input, j - 1);
    }
  }

  lemma {:induction false} TailHolds(input: string, i: nat, j: nat)
    requires OneLine(input, i, j)
    ensures |Tail(input[..j])| >= j - i
    decreases i
  {
    var s := input[..j];
    var t := Tail(s);
    TailSuffix(s);
    if |t| < |s| {
      TailBefore(s);
      assert input[|s| - |t| - 1] == '\n';
    }
  }

  /** Before the unfinished line there is a newline. */
  lemma {:induction false} TailBefore(s: string)
    requires |Tail(s)| < |s|
    ensures s[|s| - |Tail(s)| - 1] == '\n'
    decreases |s|
  {
    hide LineEnd;
    var k := LineEnd(s);
    if k < |s| {
      var rest := s[k + 1..];
      TailSuffix(rest);
      assert Tail(s) == Tail(rest);
      if |Tail(rest)| < |rest| {
        TailBefore(rest);
        assert s[k + 1 + (|rest| - |Tail(rest)| - 1)] == rest[|rest| - |Tail(rest)| - 1];
      }
    }
  }

  /** grep reads all its input exactly when no line is too long. */
  lemma {:induction false} ReadsAll(input: string)
    ensures Stop(input, 0) == |input| <==> ShortLines(input)
  {
    StopAt(input, 0, |input|);
    if ShortLines(input) {
      forall k | 0 <= k < |input| ensures !FullAt(input, k) {
        TailLine(input, k);
      }
    } else {
      var i: nat, j: nat :| OneLine(input, i, j) && j < |input| && j - i >= BUFSIZE - 1;
      TailHolds(input, i, j);
      var p := WasFull("", input, j);
    }
  }

  /** A line that fills the buffer ends the reading: of 1023 bytes, a newline and another line, all of which match
      the empty pattern, grep prints nothing. */
  lemma {:induction false} LongLineLost(input: string)
    requires input == seq(BUFSIZE - 1, _ => 'a') + "\nb\n"
    ensures Stop(input, 0) == BUFSIZE - 1 && Output("", input[..Stop(input, 0)]) == "" && Output("", input) == input
  {
    hide Stop, Output, Tail;
    forall k | 0 <= k <= BUFSIZE - 1
      ensures |Tail(input[..k])| == k && (k == BUFSIZE - 1 ==> Output("", input[..k]) == "")
    {
      NoLine("", input[..k]);
    }
    StopAt(input, 0, BUFSIZE - 1);
    StopAt(input, 0, BUFSIZE);
    assert FullAt(input, BUFSIZE - 1);
    LineOff("", input, BUFSIZE - 1);
    EmptyPattern(input[..BUFSIZE - 1]);
    assert input[BUFSIZE..] == "b\n";
    LineOff("", "b\n", 1);
    EmptyPattern("b\n"[..1]);
    NoLine("", "b\n"[2..]);
    assert input[..BUFSIZE] + "b\n" == input;
  }

  lemma {:induction false} EmptyPattern(text: string)
    ensures Found("", text)
  {
    NoItems("");
    assert text[0..0] == "";
  }

  lemma {:induction false} TailLine(input: string, pos: nat)
    requires pos <= |input|
    ensures |Tail(input[..pos])| <= pos && OneLine(input, pos - |Tail(input[..pos])|, pos)
  {
    var s := input[..pos];
    var t := Tail(s);
    TailSuffix(s);
    forall k | pos - |t| <= k < pos ensures input[k] != '\n' {
      assert input[k] == s[k] == t[k - (pos - |t|)];
    }
  }

  // ----- grep

  /** read: n bytes of the input, at least one if there are any and there is room for one. */
  method Read(input: string, pos: nat, buf: array<char>, m: nat, max: nat, want: int) returns (n: nat)
    requires pos <= |input| && m + max <= buf.Length
    modifies buf
    ensures n <= max && pos + n <= |input| && (n == 0 <==> max == 0 || pos == |input|)
    ensures buf[m..m + n] == input[pos..pos + n] && (forall k :: 0 <= k < m ==> buf[k] == old(buf[k]))
  {
    n := if max < |input| - pos then max else |input| - pos;
    if 0 < want < n {
      n := want;
    }
    var i := 0;
    while i < n
      invariant 0 <= i <= n && buf[m..m + i] == input[pos..pos + i] && forall k :: 0 <= k < m ==> buf[k] == old(buf[k])
    {
      buf[m + i] := input[pos + i];
      assert buf[m..m + i + 1] == buf[m..m + i] + [buf[m + i]];
      i := i + 1;
    }
  }

  /** strchr(p, '\n') in a buffer whose string ends at m; -1 if there is none. */
  method FindNewline(buf: array<char>, p: nat, m: nat) returns (q: int)
    requires p <= m < buf.Length && buf[m] == '\0' && forall k :: p <= k < m ==> buf[k] != '\0'
    ensures q == -1 || p <= q < m
    ensures q == -1 ==> forall k :: p <= k < m ==> buf[k] != '\n'
    ensures q != -1 ==> buf[q] == '\n' && forall k :: p <= k < q ==> buf[k] != '\n'
  {
    q := p;
    while buf[q] != '\0'
      invariant p <= q <= m && forall k :: p <= k < q ==> buf[k] != '\n'
      decreases m - q
    {
      if buf[q] == '\n' {
        return;
      }
      q := q + 1;
    }
    q := -1;
  }

  /** grep's inner loop: print the matching lines among the m bytes; p is where the unfinished line starts. */
  method Lines(re: string, buf: array<char>, m: nat, printed: string) returns (p: nat, out: string)
    requires m < buf.Length && buf[m] == '\0' && forall k :: 0 <= k < m ==> buf[k] != '\0'
    modifies buf
    ensures p <= m && out == printed + Output(re, old(buf[..m])) && buf[p..m] == Tail(old(buf[..m]))
  {
    hide Found, Output, Tail;
    ghost var s := buf[..m];
    p, out := 0, printed;
    assert s[0..] == s;
    while true
      invariant p <= m && buf[p..m] == s[p..] && buf[m] == '\0'
      invariant (forall k :: p <= k < m ==> buf[k] == s[k] && s[k] != '\0')
      invariant out + Output(re, s[p..]) == printed + Output(re, s) && Tail(s[p..]) == Tail(s)
      decreases m - p
    {
      var q := FindNewline(buf, p, m);
      if q == -1 {
        NoLine(re, s[p..]);
        assert out + "" == out;
        return;
      }
      ghost var t := s[p..];
      assert t[..q - p] == buf[p..q] && t[..q - p + 1] == buf[p..q + 1] && t[q - p + 1..] == s[q + 1..];
      LineOff(re, t, q - p);
      buf[q] := '\0';
      var b := Match(re, buf[p..q]);
      if b {
        buf[q] := '\n';
        out := out + buf[p..q + 1];
      }
      assert buf[q + 1..m] == s[q + 1..];
      p := q + 1;
    }
  }

  /** memmove(buf, buf + p, m) */
  method MoveDown(buf: array<char>, p: nat, m: nat)
    requires p + m <= buf.Length
    modifies buf
    ensures buf[..m] == old(buf[p..p + m])
  {
    var i := 0;
    while i < m
      invariant 0 <= i <= m && (forall k :: 0 <= k < i ==> buf[k] == old(buf[p + k]))
      invariant forall k :: p + i <= k < p + m ==> buf[k] == old(buf[k])
    {
      buf[i] := buf[p + i];
      i := i + 1;
    }
  }

  /** One turn of grep's loop: more is the unfinished line and what has been read after it. */
  method Refilled(re: string, buf: array<char>, full: nat, printed: string, ghost more: string)
    returns (m: nat, out: string)
    requires full < buf.Length && buf[..full] == more && NoNul(more)
    modifies buf
    ensures m <= full && buf[..m] == Tail(more) && out == printed + Output(re, more)
  {
    hide Found, Output, Tail;
    m := full;
    buf[m] := '\0';
    assert buf[..m] == more;
    assert forall k :: 0 <= k < m ==> buf[k] == more[k];
    var p;
    p, out := Lines(re, buf, m, printed);
    assert buf[p..m] == buf[p..p + (m - p)];
    if m > 0 {
      m := m - p;
      MoveDown(buf, p, m);
    }
  }

  /** grep prints the matching lines of its input up to where it stops reading, however read splits the
      input; sizes says what the reads want to give. The input holds no NUL. */
  method Grep(re: string, input: string, sizes: int -> int, buf: array<char>) returns (out: string)
    requires buf.Length == BUFSIZE && NoNul(input)
    modifies buf
    ensures out == Output(re, input[..Stop(input, 0)])
    ensures ShortLines(input) ==> out == Output(re, input)
  {
    hide Found, Output, Tail, ShortLines, NoNul, Stop, FullAt;
    var m: nat, pos: nat, count := 0, 0, 0;
    out := "";
    NoLine(re, "");
    ReadsAll(input);
    assert input[..|input|] == input;
    while true
      invariant pos <= |input| && m <= BUFSIZE - 1 && buf[..m] == Tail(input[..pos]) && out == Output(re, input[..pos])
      invariant Stop(input, pos) == Stop(input, 0)
      decreases |input| - pos
    {
      ghost var seen := input[..pos];
      var n := Read(input, pos, buf, m, BUFSIZE - m - 1, sizes(count));
      if n <= 0 {
        StopHere(input, pos);
        return;
      }
      ghost var more := Tail(seen) + input[pos..pos + n];
      NextRead(re, input, pos, n, more);
      Joined(buf[..m + n], m, Tail(seen), input[pos..pos + n]);
      m, out := Refilled(re, buf, m + n, out, more);
      pos, count := pos + n, count + 1;
    }
  }

  lemma {:induction false} StopHere(input: string, pos: nat)
    requires pos <= |input| && (pos == |input| || |Tail(input[..pos])| == BUFSIZE - 1)
    ensures Stop(input, pos) == pos
  {
  }

  lemma {:induction false} Joined(s: string, m: nat, a: string, b: string)
    requires m <= |s| && s[..m] == a && s[m..] == b
    ensures s == a + b
  {
  }

  lemma {:induction false} NextRead(re: string, input: string, pos: nat, n: nat, more: string)
    requires NoNul(input) && pos + n <= |input| && more == Tail(input[..pos]) + input[pos..pos + n]
    requires n > 0 && |Tail(input[..pos])| + n <= BUFSIZE - 1
    ensures NoNul(more) && Output(re, input[..pos + n]) == Output(re, input[..pos]) + Output(re, more)
    ensures Tail(input[..pos + n]) == Tail(more) && Stop(input, pos + n) == Stop(input, pos)
  {
    hide Found, Output;
    assert input[..pos] + input[pos..pos + n] == input[..pos + n];
    Append(re, input[..pos], input[pos..pos + n]);
    TailNoNul(input, pos, n);
    NotFullYet(re, input, pos, n);
  }

  lemma {:induction false} TailNoNul(input: string, pos: nat, n: nat)
    requires NoNul(input) && pos + n <= |input|
    ensures NoNul(Tail(input[..pos]) + input[pos..pos + n])
  {
    var s := input[..pos];
    var t := Tail(s);
    TailSuffix(s);
    forall k | 0 <= k < |t| ensures t[k] != '\0' {
      assert t[k] == s[|s| - |t| + k];
    }
  }
}
