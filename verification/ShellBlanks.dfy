/** What separates the words of a shell line, character by character: blanks between tokens say nothing, and the
    characters that are neither blank nor symbols make words. */
module ShellBlanks {
  import opened ShellLex
  import opened Shell
  import opened ShellGrammar
  import opened ShellText

  /** whitespace[] and symbols[] of user/sh.c, spelled out. */
  lemma {:induction false} Spelled(c: char)
    ensures White(c) <==> c in " \t\r\n\U{0B}"
    ensures Symbol(c) <==> c in "<|>&;()"
    ensures WordChar(c) <==> c !in " \t\r\n\U{0B}<|>&;()" && c != '\0'
  {
    var w, s := " \t\r\n\U{0B}", "<|>&;()";
    assert w[0] == ' ' && w[1] == '\t' && w[2] == '\r' && w[3] == '\n' && w[4] == '\U{0B}';
    assert s[0] == '<' && s[1] == '|' && s[2] == '>' && s[3] == '&' && s[4] == ';' && s[5] == '(' && s[6] == ')';
    assert " \t\r\n\U{0B}<|>&;()" == w + s;
  }

  /** So the words that RoundTrip is about are those without these characters. */
  lemma {:induction false} LegalWords(w: string)
    ensures LegalWord(w) <==>
            w != "" && forall k :: 0 <= k < |w| ==> w[k] !in " \t\r\n\U{0B}<|>&;()" && w[k] != '\0'
  {
    forall k | 0 <= k < |w| ensures WordChar(w[k]) <==> w[k] !in " \t\r\n\U{0B}<|>&;()" && w[k] != '\0' {
      Spelled(w[k]);
    }
  }

  // ----- words

  /** The tokens after the first start where it ends. */
  lemma {:induction false} TokensEnd(line: string, i: nat)
    requires i <= |line| && NoNul(line)
    ensures var t := TokenAt(line, i);
      if t.kind == '\0' then Tokens(line, i) == []
      else i < t.hi && Tokens(line, i) == [Tok(t.kind, t.lo, t.hi)] + Tokens(line, t.hi)
  {
    Head(line, i);
    var t := TokenAt(line, i);
    Head(line, t.hi);
    assert t.kind != '\0' ==> t.next == SkipWhite(line, t.hi);
  }

  lemma {:induction false} WordFrom(line: string, i: nat, lo: nat, hi: nat)
    requires NoNul(line) && i <= lo < hi <= |line| && (forall k :: lo <= k < hi ==> WordChar(line[k]))
    requires (lo == 0 || !WordChar(line[lo - 1])) && !WordChar(At(line, hi))
    ensures Tok('a', lo, hi) in Tokens(line, i)
    decreases lo - i
  {
    TokensEnd(line, i);
    var t := TokenAt(line, i);
    hide Tokens;
    if t.lo == lo {
      EndsAt(line, lo, hi);
    } else {
      Earlier(line, i, lo);
      WordFrom(line, t.hi, lo, hi);
    }
  }

  lemma {:induction false} EndsAt(line: string, lo: nat, hi: nat)
    requires NoNul(line) && lo <= hi <= |line| && (forall k :: lo <= k < hi ==> WordChar(line[k]))
    requires !WordChar(At(line, hi))
    ensures WordEnd(line, lo) == hi
    decreases hi - lo
  {
    if lo < hi { EndsAt(line, lo + 1, hi); }
  }

  /** A token that starts before a word ends before it. */
  lemma {:induction false} Earlier(line: string, i: nat, lo: nat)
    requires NoNul(line) && i <= lo < |line| && WordChar(line[lo]) && (lo == 0 || !WordChar(line[lo - 1]))
    requires TokenAt(line, i).lo != lo
    ensures TokenAt(line, i).lo < lo && TokenAt(line, i).kind != '\0' && TokenAt(line, i).hi <= lo
  {
    var t := TokenAt(line, i);
    assert t.lo == SkipWhite(line, i);
    if t.lo > lo { assert false; }
    if t.kind == 'a' && t.hi > lo { assert false; }
  }

  /** A longest run of characters that are neither blank nor symbols is one word. */
  lemma {:induction false} OneWord(line: string, lo: nat, hi: nat)
    requires NoNul(line) && lo < hi <= |line|
    requires forall k :: lo <= k < hi ==> line[k] !in " \t\r\n\U{0B}<|>&;()"
    requires lo == 0 || line[lo - 1] in " \t\r\n\U{0B}<|>&;()"
    requires hi == |line| || line[hi] in " \t\r\n\U{0B}<|>&;()"
    ensures Tok('a', lo, hi) in Tokens(line, 0)
  {
    forall k | 0 <= k < |line|
      ensures WordChar(line[k]) <==> line[k] !in " \t\r\n\U{0B}<|>&;()"
    {
      Spelled(line[k]);
    }
    hide Tokens, WordChar;
    assert !WordChar(At(line, hi)) by { Spelled(At(line, hi)); }
    WordFrom(line, 0, lo, hi);
  }

  // ----- lines with the same tokens

  /** Token by token the same kinds and the same text. */
  ghost predicate Alike(line: string, ts: seq<Tok>, text: string, us: seq<Tok>) {
    && |ts| == |us|
    && forall k :: 0 <= k < |ts| ==>
         ts[k].kind == us[k].kind && Slice(line, Word(ts[k].lo, ts[k].hi)) == Slice(text, Word(us[k].lo, us[k].hi))
  }

  lemma {:induction false} AlikePart(line: string, ts: seq<Tok>, text: string, us: seq<Tok>, i: nat, j: nat)
    requires Alike(line, ts, text, us) && i <= j <= |ts|
    ensures Alike(line, ts[i..j], text, us[i..j]) && Alike(text, us, line, ts)
  {
    hide Slice;
  }

  lemma {:induction false} SimpleAlike(line: string, ts: seq<Tok>, text: string, us: seq<Tok>)
    requires Alike(line, ts, text, us) && SimpleToks(ts)
    ensures SimpleToks(us) && |ArgWords(us)| == |ArgWords(ts)|
    ensures forall k :: 0 <= k < |ArgWords(ts)| ==> Slice(line, ArgWords(ts)[k]) == Slice(text, ArgWords(us)[k])
    decreases |ts|
  {
    hide Slice;
    if ts != [] {
      var n := if IsWord(ts[0]) then 1 else 2;
      assert ts[n..] == ts[n..|ts|] && us[n..] == us[n..|ts|];
      AlikePart(line, ts, text, us, n, |ts|);
      SimpleAlike(line, ts[n..], text, us[n..]);
    }
  }

  lemma {:induction false} WrapAlike(line: string, c: Cmd<Word>, ts: seq<Tok>, text: string, d: Cmd<Word>, us: seq<Tok>)
    requires Alike(line, ts, text, us) && SimpleToks(ts) && SimpleToks(us) && Text(line, c) == Text(text, d)
    ensures Text(line, Wrap(c, ts)) == Text(text, Wrap(d, us))
    decreases |ts|
  {
    hide Slice;
    if ts != [] {
      var n := if IsWord(ts[0]) then 1 else 2;
      assert ts[n..] == ts[n..|ts|] && us[n..] == us[n..|ts|];
      AlikePart(line, ts, text, us, n, |ts|);
      if n == 1 {
        WrapAlike(line, c, ts[1..], text, d, us[1..]);
      } else {
        WrapAlike(line, Redir(c, Word(ts[1].lo, ts[1].hi), ModeOf(ts[0].kind)), ts[2..], text,
                  Redir(d, Word(us[1].lo, us[1].hi), ModeOf(us[0].kind)), us[2..]);
      }
    }
  }

  /** What the grammar makes of the one, it makes of the other. */
  lemma {:induction false} LineAlike(line: string, ts: seq<Tok>, c: Cmd<Word>, text: string, us: seq<Tok>)
    returns (d: Cmd<Word>)
    requires Alike(line, ts, text, us) && LineG(ts, c)
    ensures LineG(us, d) && Text(text, d) == Text(line, c)
    decreases |ts|, 4
  {
    hide Alike, PipeG, Slice;
    if BackG(ts, c) {
      d := BackAlike(line, ts, c, text, us);
    } else {
      var k := LineSplit(ts, c);
      AlikeAt(line, ts, text, us, k);
      var l := BackAlike(line, ts[..k], c.left, text, us[..k]);
      var r := LineAlike(line, ts[k + 1..], c.right, text, us[k + 1..]);
      d := List(l, r);
    }
  }

  lemma {:induction false} AlikeAt(line: string, ts: seq<Tok>, text: string, us: seq<Tok>, k: nat)
    requires Alike(line, ts, text, us) && k < |ts|
    ensures |us| == |ts| && us[k].kind == ts[k].kind
    ensures Alike(line, ts[..k], text, us[..k]) && Alike(line, ts[k + 1..], text, us[k + 1..])
  {
    hide Slice;
  }

  lemma {:induction false} BackAlike(line: string, ts: seq<Tok>, c: Cmd<Word>, text: string, us: seq<Tok>)
    returns (d: Cmd<Word>)
    requires Alike(line, ts, text, us) && BackG(ts, c)
    ensures BackG(us, d) && Text(text, d) == Text(line, c)
    decreases |ts|, 3
  {
    hide Alike, ExecG, Slice;
    if PipeG(ts, c) {
      d := PipeAlike(line, ts, c, text, us);
    } else {
      AlikeAt(line, ts, text, us, |ts| - 1);
      var e := BackAlike(line, ts[..|ts| - 1], c.cmd, text, us[..|ts| - 1]);
      d := Back(e);
    }
  }

  lemma {:induction false} PipeAlike(line: string, ts: seq<Tok>, c: Cmd<Word>, text: string, us: seq<Tok>)
    returns (d: Cmd<Word>)
    requires Alike(line, ts, text, us) && PipeG(ts, c)
    ensures PipeG(us, d) && Text(text, d) == Text(line, c)
    decreases |ts|, 2
  {
    hide Alike, SimpleG, BlockG, Slice;
    if ExecG(ts, c) {
      d := ExecAlike(line, ts, c, text, us);
    } else {
      var k := PipeSplit(ts, c);
      AlikeAt(line, ts, text, us, k);
      var l := ExecAlike(line, ts[..k], c.left, text, us[..k]);
      var r := PipeAlike(line, ts[k + 1..], c.right, text, us[k + 1..]);
      d := Pipe(l, r);
    }
  }

  lemma {:induction false} ExecAlike(line: string, ts: seq<Tok>, c: Cmd<Word>, text: string, us: seq<Tok>)
    returns (d: Cmd<Word>)
    requires Alike(line, ts, text, us) && ExecG(ts, c)
    ensures ExecG(us, d) && Text(text, d) == Text(line, c)
    decreases |ts|, 1
  {
    if SimpleG(ts, c) {
      hide Alike, Slice, BlockG;
      SimpleAlike(line, ts, text, us);
      d := Wrap(Exec(ArgWords(us)), us);
      assert Text(line, Exec(ArgWords(ts))) == Text(text, Exec(ArgWords(us)));
      WrapAlike(line, Exec(ArgWords(ts)), ts, text, Exec(ArgWords(us)), us);
    } else {
      hide SimpleG;
      d := BlockAlike(line, ts, c, text, us);
    }
  }

  lemma {:induction false} BlockAlike(line: string, ts: seq<Tok>, c: Cmd<Word>, text: string, us: seq<Tok>)
    returns (d: Cmd<Word>)
    requires Alike(line, ts, text, us) && BlockG(ts, c)
    ensures BlockG(us, d) && Text(text, d) == Text(line, c)
    decreases |ts|, 0
  {
    hide Slice, LineG;
    var k, e := BlockParts(ts, c);
    AlikePart(line, ts, text, us, 1, k);
    AlikePart(line, ts, text, us, k + 1, |ts|);
    assert ts[k + 1..] == ts[k + 1..|ts|] && us[k + 1..] == us[k + 1..|ts|];
    var f := LineAlike(line, ts[1..k], e, text, us[1..k]);
    hide Alike, Text;
    SimpleAlike(line, ts[k + 1..], text, us[k + 1..]);
    WrapAlike(line, e, ts[k + 1..], text, f, us[k + 1..]);
    d := Wrap(f, us[k + 1..]);
  }

  /** Lines with the same tokens are parsed alike: both are refused, or both give the same tree. */
  lemma {:induction false} SameTree(line: string, text: string)
    requires NoNul(line) && NoNul(text) && Alike(line, Tokens(line, 0), text, Tokens(text, 0))
    ensures CommandOf(line).Ok? <==> CommandOf(text).Ok?
    ensures CommandOf(line).Ok? ==> Text(text, CommandOf(text).cmd) == Text(line, CommandOf(line).cmd)
  {
    var ts, us := Tokens(line, 0), Tokens(text, 0);
    Ended(line);
    Ended(text);
    hide LineG, Tokens, CommandOf, Alike, Text;
    if CommandOf(line).Ok? {
      Accepted(line, CommandOf(line).cmd);
      var d := LineAlike(line, ts, CommandOf(line).cmd, text, us);
      Accepted(text, d);
    } else if CommandOf(text).Ok? {
      AlikePart(line, ts, text, us, 0, 0);
      Accepted(text, CommandOf(text).cmd);
      var c := LineAlike(text, us, CommandOf(text).cmd, line, ts);
      Accepted(line, c);
    }
  }

  lemma {:induction false} Ended(line: string)
    requires NoNul(line)
    ensures CommandOf(line).Ok? ==> CommandOf(line).next == |line|
  {
  }

  // ----- a blank more

  /** The line with c put in at p. */
  function Put(line: string, p: nat, c: char): string
    requires p <= |line|
  {
    line[..p] + [c] + line[p..]
  }

  /** No token has p inside. */
  ghost predicate Between(ts: seq<Tok>, p: nat) { forall k :: 0 <= k < |ts| ==> p <= ts[k].lo || ts[k].hi <= p }

  /** The tokens from p on are one place further. */
  ghost function Moved(ts: seq<Tok>, p: nat): (us: seq<Tok>)
    ensures |us| == |ts|
  {
    seq(|ts|, k requires 0 <= k < |ts| => if ts[k].lo < p then ts[k] else Tok(ts[k].kind, ts[k].lo + 1, ts[k].hi + 1))
  }

  lemma {:induction false} MovedCons(t: Tok, ts: seq<Tok>, p: nat)
    ensures Moved([t] + ts, p) == [if t.lo < p then t else Tok(t.kind, t.lo + 1, t.hi + 1)] + Moved(ts, p)
  {
  }

  lemma {:induction false} MovedNone(p: nat)
    ensures Moved([], p) == []
  {
  }

  lemma {:induction false} PutAt(line: string, p: nat, c: char)
    requires p <= |line| && NoNul(line) && c != '\0'
    ensures var l := Put(line, p, c);
      && |l| == |line| + 1 && NoNul(l) && l[p] == c && (forall k :: 0 <= k < p ==> l[k] == line[k])
      && (forall k :: p <= k <= |line| ==> At(l, k + 1) == At(line, k))
  {
  }

  lemma {:induction false} SkipAfter(line: string, p: nat, c: char, i: nat)
    requires p <= i <= |line| && NoNul(line) && c != '\0'
    ensures SkipWhite(Put(line, p, c), i + 1) == SkipWhite(line, i) + 1
    decreases |line| - i
  {
    PutAt(line, p, c);
    if i < |line| { assert At(line, i) == line[i]; SkipAfter(line, p, c, i + 1); }
  }

  lemma {:induction false} WordAfter(line: string, p: nat, c: char, i: nat)
    requires p <= i <= |line| && NoNul(line) && c != '\0'
    ensures NoNul(Put(line, p, c)) && WordEnd(Put(line, p, c), i + 1) == WordEnd(line, i) + 1
    decreases |line| - i
  {
    PutAt(line, p, c);
    if i < |line| { assert At(line, i) == line[i]; WordAfter(line, p, c, i + 1); }
  }

  lemma {:induction false} TokenAfter(line: string, p: nat, c: char, i: nat)
    requires p <= i <= |line| && NoNul(line) && c != '\0'
    ensures var l, t := Put(line, p, c), TokenAt(line, i);
      NoNul(l) && TokenAt(l, i + 1) == Token(t.kind, t.lo + 1, t.hi + 1, t.next + 1)
  {
    hide SkipWhite, WordEnd, Put;
    PutAt(line, p, c);
    SkipAfter(line, p, c, i);
    var lo, t := SkipWhite(line, i), TokenAt(line, i);
    WordAfter(line, p, c, lo);
    SkipAfter(line, p, c, t.hi);
    assert At(Put(line, p, c), lo + 1) == At(line, lo);
    if lo < |line| { assert At(Put(line, p, c), lo + 2) == At(line, lo + 1); }
  }

  lemma {:induction false} TokensAfter(line: string, p: nat, c: char, i: nat)
    requires p <= i <= |line| && NoNul(line) && c != '\0'
    ensures NoNul(Put(line, p, c)) && Tokens(Put(line, p, c), i + 1) == Moved(Tokens(line, i), p)
    decreases |line| - i
  {
    hide Put, TokenAt, SkipWhite, Tokens, Moved;
    PutAt(line, p, c);
    TokenAfter(line, p, c, i);
    var t := TokenAt(line, i);
    TokensEnd(line, i);
    TokensEnd(Put(line, p, c), i + 1);
    if t.kind != '\0' {
      TokensAfter(line, p, c, t.hi);
      MovedCons(Tok(t.kind, t.lo, t.hi), Tokens(line, t.hi), p);
    } else {
      MovedNone(p);
    }
  }

  lemma {:induction false} SkipBefore(line: string, p: nat, c: char, i: nat)
    requires i <= p <= |line| && NoNul(line) && c != '\0' && White(c)
    ensures SkipWhite(Put(line, p, c), i) == SkipWhite(line, i) + if SkipWhite(line, i) < p then 0 else 1
    decreases p - i
  {
    PutAt(line, p, c);
    if i == p {
      SkipAfter(line, p, c, p);
    } else if White(line[i]) {
      SkipBefore(line, p, c, i + 1);
    }
  }

  lemma {:induction false} WordBefore(line: string, p: nat, c: char, i: nat)
    requires i <= |line| && p <= |line| && NoNul(line) && c != '\0' && White(c) && WordEnd(line, i) <= p
    ensures NoNul(Put(line, p, c)) && WordEnd(Put(line, p, c), i) == WordEnd(line, i)
    decreases |line| - i
  {
    PutAt(line, p, c);
    if i < |line| && WordChar(line[i]) { WordBefore(line, p, c, i + 1); }
  }

  /** A token before p stays. */
  lemma {:induction false} TokenBefore(line: string, p: nat, c: char, i: nat)
    requires i <= p <= |line| && NoNul(line) && c != '\0' && White(c)
    requires TokenAt(line, i).lo < p && TokenAt(line, i).hi <= p
    ensures NoNul(Put(line, p, c)) && TokenAt(line, i).kind != '\0'
    ensures var t, u := TokenAt(line, i), TokenAt(Put(line, p, c), i); u.kind == t.kind && u.lo == t.lo && u.hi == t.hi
  {
    PutAt(line, p, c);
    SkipBefore(line, p, c, i);
    var lo, t := SkipWhite(line, i), TokenAt(line, i);
    if t.kind == 'a' { WordBefore(line, p, c, lo); }
    hide SkipWhite, Put;
  }

  lemma {:induction false} StartsAt(line: string, i: nat)
    requires i <= |line| && NoNul(line)
    ensures TokenAt(line, i).lo == SkipWhite(line, i)
    ensures SkipWhite(line, i) < |line| ==> TokenAt(line, i).kind != '\0'
  {
  }

  /** A blank between two tokens, or before the first or after the last, moves the tokens and changes nothing else. */
  lemma {:induction false} TokensBefore(line: string, p: nat, c: char, i: nat)
    requires i <= p <= |line| && NoNul(line) && c != '\0' && White(c) && Between(Tokens(line, i), p)
    ensures NoNul(Put(line, p, c)) && Tokens(Put(line, p, c), i) == Moved(Tokens(line, i), p)
    decreases p - i
  {
    StartsAt(line, i);
    hide Put, TokenAt, SkipWhite, Tokens, Moved, Between, NoNul;
    PutAt(line, p, c);
    if SkipWhite(line, i) >= p {
      BlankFirst(line, p, c, i);
    } else {
      var l, t := Put(line, p, c), TokenAt(line, i);
      TokensEnd(line, i);
      BetweenTail(Tok(t.kind, t.lo, t.hi), Tokens(line, t.hi), p);
      TokenBefore(line, p, c, i);
      TokensEnd(l, i);
      TokensBefore(line, p, c, t.hi);
      MovedCons(Tok(t.kind, t.lo, t.hi), Tokens(line, t.hi), p);
    }
  }

  lemma {:induction false} BetweenTail(t: Tok, ts: seq<Tok>, p: nat)
    requires Between([t] + ts, p)
    ensures (p <= t.lo || t.hi <= p) && Between(ts, p)
  {
    var us := [t] + ts;
    assert us[0] == t;
    forall k | 0 <= k < |ts| ensures p <= ts[k].lo || ts[k].hi <= p {
      assert us[k + 1] == ts[k];
    }
  }

  lemma {:induction false} BlankFirst(line: string, p: nat, c: char, i: nat)
    requires i <= p <= |line| && NoNul(line) && c != '\0' && White(c) && SkipWhite(line, i) >= p
    ensures NoNul(Put(line, p, c)) && Tokens(Put(line, p, c), i) == Moved(Tokens(line, i), p)
  {
    hide Put, TokenAt, SkipWhite, Tokens, Moved;
    PutAt(line, p, c);
    SkipBefore(line, p, c, i);
    Head(line, i);
    Head(Put(line, p, c), i);
    TokensAfter(line, p, c, SkipWhite(line, i));
  }

  /** The tokens of a line are pieces of it. */
  lemma {:induction false} TokensInside(line: string, i: nat)
    requires i <= |line| && NoNul(line)
    ensures forall k :: 0 <= k < |Tokens(line, i)| ==> Tokens(line, i)[k].lo <= Tokens(line, i)[k].hi <= |line|
    decreases |line| - i
  {
    var t := TokenAt(line, i);
    if t.kind != '\0' { TokensInside(line, t.next); }
  }

  lemma {:induction false} SliceBefore(line: string, p: nat, c: char, lo: nat, hi: nat)
    requires lo <= hi <= p <= |line|
    ensures hi <= |Put(line, p, c)| && Put(line, p, c)[lo..hi] == line[lo..hi]
  {
    assert Put(line, p, c)[..p] == line[..p];
    assert Put(line, p, c)[lo..hi] == Put(line, p, c)[..p][lo..hi];
  }

  lemma {:induction false} SliceAfter(line: string, p: nat, c: char, lo: nat, hi: nat)
    requires p <= lo <= hi <= |line|
    ensures hi + 1 <= |Put(line, p, c)| && Put(line, p, c)[lo + 1..hi + 1] == line[lo..hi]
  {
    assert Put(line, p, c)[p + 1..] == line[p..];
    assert Put(line, p, c)[lo + 1..hi + 1] == Put(line, p, c)[p + 1..][lo - p..hi - p];
  }

  lemma {:induction false} MovedAlike(line: string, ts: seq<Tok>, p: nat, c: char)
    requires p <= |line| && Between(ts, p) && forall k :: 0 <= k < |ts| ==> ts[k].lo <= ts[k].hi <= |line|
    ensures Alike(line, ts, Put(line, p, c), Moved(ts, p))
  {
    hide Put;
    var l, us := Put(line, p, c), Moved(ts, p);
    forall k | 0 <= k < |ts| ensures Slice(line, Word(ts[k].lo, ts[k].hi)) == Slice(l, Word(us[k].lo, us[k].hi)) {
      if ts[k].lo < p {
        SliceBefore(line, p, c, ts[k].lo, ts[k].hi);
      } else {
        SliceAfter(line, p, c, ts[k].lo, ts[k].hi);
      }
    }
  }

  /** A blank, a tab, a return, a newline or a vertical tab put where no token is means nothing: the line is refused or
      not as before, and has the same tree. */
  lemma {:induction false} BlankMeansNothing(line: string, p: nat, c: char)
    requires NoNul(line) && p <= |line| && c in " \t\r\n\U{0B}" && Between(Tokens(line, 0), p)
    ensures NoNul(Put(line, p, c)) && (CommandOf(Put(line, p, c)).Ok? <==> CommandOf(line).Ok?)
    ensures CommandOf(line).Ok? ==>
      Text(Put(line, p, c), CommandOf(Put(line, p, c)).cmd) == Text(line, CommandOf(line).cmd)
  {
    Spelled(c);
    PutAt(line, p, c);
    TokensBefore(line, p, c, 0);
    TokensInside(line, 0);
    MovedAlike(line, Tokens(line, 0), p, c);
    hide Tokens, CommandOf, Text, Put, Alike, Moved;
    SameTree(line, Put(line, p, c));
  }

  /** So does one after the line, such as the newline that getcmd leaves there. */
  lemma {:induction false} TrailingBlank(line: string, c: char)
    requires NoNul(line) && c in " \t\r\n\U{0B}"
    ensures NoNul(line + [c]) && (CommandOf(line + [c]).Ok? <==> CommandOf(line).Ok?)
    ensures CommandOf(line).Ok? ==> Text(line + [c], CommandOf(line + [c]).cmd) == Text(line, CommandOf(line).cmd)
  {
    TokensInside(line, 0);
    assert Put(line, |line|, c) == line + [c];
    BlankMeansNothing(line, |line|, c);
  }
}
