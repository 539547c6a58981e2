/** gettoken and peek of user/sh.c: a cursor over a line without NUL bytes. */
module ShellLex {
  /** whitespace[] and symbols[]; '\U{0B}' is a vertical tab */
  predicate White(c: char) { c == ' ' || c == '\t' || c == '\r' || c == '\n' || c == '\U{0B}' }

  predicate Symbol(c: char) { c == '<' || c == '|' || c == '>' || c == '&' || c == ';' || c == '(' || c == ')' }

  predicate WordChar(c: char) { !White(c) && !Symbol(c) && c != '\0' }

  /** The byte at the cursor: the line ends in a NUL. */
  function At(line: string, i: nat): char
    requires i <= |line|
  {
    if i < |line| then line[i] else '\0'
  }

  ghost predicate NoNul(line: string) { forall k :: 0 <= k < |line| ==> line[k] != '\0' }

  ghost function SkipWhite(line: string, i: nat): (j: nat)
    requires i <= |line|
    ensures i <= j <= |line| && (forall k :: i <= k < j ==> White(line[k])) && !White(At(line, j))
    decreases |line| - i
  {
    if i < |line| && White(line[i]) then SkipWhite(line, i + 1) else i
  }

  ghost function WordEnd(line: string, i: nat): (j: nat)
    requires i <= |line| && NoNul(line)
    ensures i <= j <= |line| && (forall k :: i <= k < j ==> WordChar(line[k])) && !WordChar(At(line, j))
    decreases |line| - i
  {
    if i < |line| && WordChar(line[i]) then WordEnd(line, i + 1) else i
  }

  /** What gettoken returns, its token's bounds, and where it leaves the cursor. */
  datatype Token = Token(kind: char, lo: nat, hi: nat, next: nat)

  ghost function TokenAt(line: string, i: nat): (t: Token)
    requires i <= |line| && NoNul(line)
    ensures i <= t.lo <= t.hi <= t.next <= |line| && (t.kind != '\0' ==> t.lo < t.hi)
    ensures (t.kind == '\0' ==> t.next == |line|)
    ensures t.kind == 'a' ==> (forall k :: t.lo <= k < t.hi ==> WordChar(line[k])) && !WordChar(At(line, t.hi))
  {
    var lo := SkipWhite(line, i);
    var c := At(line, lo);
    if c == '\0' then Token('\0', lo, lo, SkipWhite(line, lo))
    else if c == '>' && At(line, lo + 1) == '>' then Token('+', lo, lo + 2, SkipWhite(line, lo + 2))
    else if Symbol(c) then Token(c, lo, lo + 1, SkipWhite(line, lo + 1))
    else Token('a', lo, WordEnd(line, lo), SkipWhite(line, WordEnd(line, lo)))
  }

  method SkipBlanks(line: string, i: nat) returns (s: nat)
    requires i <= |line|
    ensures s == SkipWhite(line, i)
  {
    s := i;
    while s < |line| && White(line[s])
      invariant i <= s <= |line| && SkipWhite(line, s) == SkipWhite(line, i)
    {
      s := s + 1;
    }
  }

  method SkipWord(line: string, i: nat) returns (s: nat)
    requires i <= |line| && NoNul(line)
    ensures s == WordEnd(line, i)
  {
    s := i;
    while s < |line| && !White(line[s]) && !Symbol(line[s])
      invariant i <= s <= |line| && WordEnd(line, s) == WordEnd(line, i)
    {
      s := s + 1;
    }
  }

  /** gettoken. */
  method GetToken(line: string, i: nat) returns (t: Token)
    requires i <= |line| && NoNul(line)
    ensures t == TokenAt(line, i)
  {
    var s := SkipBlanks(line, i);
    var q, ret := s, At(line, s);
    if ret == '\0' {
    } else if ret == '|' || ret == '(' || ret == ')' || ret == ';' || ret == '&' || ret == '<' {
      s := s + 1;
    } else if ret == '>' {
      s := s + 1;
      if At(line, s) == '>' {
        ret := '+';
        s := s + 1;
      }
    } else {
      ret := 'a';
      s := SkipWord(line, s);
    }
    var eq := s;
    s := SkipBlanks(line, s);
    t := Token(ret, q, eq, s);
  }

  /** peek: the cursor moves to the next byte that is not blank, and that byte is one of toks. */
  method Peek(line: string, i: nat, toks: string) returns (s: nat, found: bool)
    requires i <= |line| && NoNul(line)
    ensures s == SkipWhite(line, i) && (found <==> Next(line, i) in toks && Next(line, i) != '\0')
  {
    s := SkipBlanks(line, i);
    found := At(line, s) != '\0' && At(line, s) in toks;
  }

  ghost function Next(line: string, i: nat): char
    requires i <= |line|
  {
    At(line, SkipWhite(line, i))
  }
}
