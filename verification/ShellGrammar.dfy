/** The language of user/sh.c as a grammar over the tokens of a line, and the parser as its recogniser. */
module ShellGrammar {
  import opened ShellLex
  import opened Shell

  /** A token: 'a' for a word, '+' for >>, otherwise the symbol itself. */
  datatype Tok = Tok(kind: char, lo: nat, hi: nat)

  ghost function Tokens(line: string, i: nat): seq<Tok>
    requires i <= |line| && NoNul(line)
    decreases |line| - i
  {
    var t := TokenAt(line, i);
    if t.kind == '\0' then [] else [Tok(t.kind, t.lo, t.hi)] + Tokens(line, t.next)
  }

  // ----- the grammar

  predicate IsOp(t: Tok) { t.kind == '<' || t.kind == '>' || t.kind == '+' }

  predicate IsWord(t: Tok) { t.kind == 'a' }

  /** Words, and redirections with their files, in any order. */
  ghost predicate SimpleToks(ts: seq<Tok>) {
    if ts == [] then true
    else if IsWord(ts[0]) then SimpleToks(ts[1..])
    else IsOp(ts[0]) && |ts| >= 2 && IsWord(ts[1]) && SimpleToks(ts[2..])
  }

  /** The words that are not files. */
  ghost function ArgWords(ts: seq<Tok>): seq<Word>
    requires SimpleToks(ts)
  {
    if ts == [] then []
    else if IsWord(ts[0]) then [Word(ts[0].lo, ts[0].hi)] + ArgWords(ts[1..])
    else ArgWords(ts[2..])
  }

  /** The redirections read left to right, the first innermost. */
  ghost function Wrap(cmd: Cmd<Word>, ts: seq<Tok>): Cmd<Word>
    requires SimpleToks(ts)
    decreases |ts|
  {
    if ts == [] then cmd
    else if IsWord(ts[0]) then Wrap(cmd, ts[1..])
    else Wrap(Redir(cmd, Word(ts[1].lo, ts[1].hi), ModeOf(ts[0].kind)), ts[2..])
  }

  /** line ::= back | back ; line */
  ghost predicate LineG(ts: seq<Tok>, c: Cmd<Word>)
    decreases |ts|, 4
  {
    || BackG(ts, c)
    || (c.List? && exists k ::
          && 0 <= k < |ts| && ts[k].kind == ';'
          && BackG(ts[..k], c.left) && LineG(ts[k + 1..], c.right))
  }

  /** back ::= pipe | back & */
  ghost predicate BackG(ts: seq<Tok>, c: Cmd<Word>)
    decreases |ts|, 3
  {
    || PipeG(ts, c)
    || (c.Back? && ts != [] && ts[|ts| - 1].kind == '&' && BackG(ts[..|ts| - 1], c.cmd))
  }

  /** pipe ::= exec | exec '|' pipe */
  ghost predicate PipeG(ts: seq<Tok>, c: Cmd<Word>)
    decreases |ts|, 2
  {
    || ExecG(ts, c)
    || (c.Pipe? && exists k ::
          && 0 <= k < |ts| && ts[k].kind == '|'
          && ExecG(ts[..k], c.left) && PipeG(ts[k + 1..], c.right))
  }

  /** exec ::= simple | ( line ) redirections */
  ghost predicate ExecG(ts: seq<Tok>, c: Cmd<Word>)
    decreases |ts|, 1
  {
    SimpleG(ts, c) || BlockG(ts, c)
  }

  /** Fewer than ten words, in order, under the redirections. */
  ghost predicate SimpleG(ts: seq<Tok>, c: Cmd<Word>) {
    SimpleToks(ts) && |ArgWords(ts)| < 10 && c == Wrap(Exec(ArgWords(ts)), ts)
  }

  ghost predicate BlockG(ts: seq<Tok>, c: Cmd<Word>)
    decreases |ts|, 0
  {
    ts != [] && ts[0].kind == '(' && exists k, d ::
      0 < k < |ts| && LineG(ts[1..k], d) && ts[k].kind == ')' && RedirsG(ts[k + 1..]) && c == Wrap(d, ts[k + 1..])
  }

  ghost predicate RedirsG(ts: seq<Tok>) { SimpleToks(ts) && ArgWords(ts) == [] }

  // ----- tokens and the cursor

  lemma {:induction false} SkipTwice(line: string, i: nat)
    requires i <= |line| && NoNul(line)
    ensures SkipWhite(line, SkipWhite(line, i)) == SkipWhite(line, i)
    ensures TokenAt(line, SkipWhite(line, i)) == TokenAt(line, i)
    ensures TokenAt(line, i).kind == '\0' <==> SkipWhite(line, i) == |line|
    ensures At(line, SkipWhite(line, i)) == '\0' <==> SkipWhite(line, i) == |line|
  {
  }

  /** The token at the cursor, if there is one, is the first. */
  lemma {:induction false} Head(line: string, i: nat)
    requires i <= |line| && NoNul(line)
    ensures Tokens(line, SkipWhite(line, i)) == Tokens(line, i) && TokenAt(line, SkipWhite(line, i)) == TokenAt(line, i)
    ensures Tokens(line, i) == [] <==> SkipWhite(line, i) == |line|
    ensures var t := TokenAt(line, i);
      if Tokens(line, i) == [] then t.kind == '\0' && t.next == |line| && Tokens(line, t.next) == []
      else Tokens(line, i) == [Tok(t.kind, t.lo, t.hi)] + Tokens(line, t.next) && i < t.next
  {
    SkipTwice(line, i);
    hide TokenAt, SkipWhite;
    assert Tokens(line, |line|) == [] by { SkipTwice(line, |line|); }
  }

  /** What peek sees is the kind of the first token. */
  lemma {:induction false} Sees(line: string, i: nat, c: char)
    requires i <= |line| && NoNul(line) && (Stop(c) || c == '(')
    ensures At(line, SkipWhite(line, i)) == c <==> Tokens(line, i) != [] && Tokens(line, i)[0].kind == c
  {
    SkipTwice(line, i);
    hide SkipWhite;
  }

  lemma {:induction false} SeesOp(line: string, i: nat)
    requires i <= |line| && NoNul(line)
    ensures At(line, SkipWhite(line, i)) == '<' || At(line, SkipWhite(line, i)) == '>' <==>
            Tokens(line, i) != [] && IsOp(Tokens(line, i)[0])
  {
    SkipTwice(line, i);
    hide SkipWhite;
  }

  // ----- simple commands

  /** The redirections and arguments from the cursor on, as parseexec reads them. */
  ghost function RestOf(line: string, i: nat, cmd: Cmd<Word>, argc: nat): (r: Result)
    requires i <= |line| && NoNul(line)
    ensures Within(r, i, line)
  {
    var r := RedirsOf(line, i, cmd);
    if r.Panic? then r else ArgsOf(line, r.next, r.cmd, argc)
  }

  /** Words added to cmd and redirections put around it, as they come. */
  ghost function Build(cmd: Cmd<Word>, ts: seq<Tok>): Cmd<Word>
    requires SimpleToks(ts)
    decreases |ts|
  {
    if ts == [] then cmd
    else if IsWord(ts[0]) then Build(AddArg(cmd, Word(ts[0].lo, ts[0].hi)), ts[1..])
    else Build(Redir(cmd, Word(ts[1].lo, ts[1].hi), ModeOf(ts[0].kind)), ts[2..])
  }

  /** The base of a command under its redirections. */
  ghost function Base(cmd: Cmd<Word>): Cmd<Word> { if cmd.Redir? then Base(cmd.cmd) else cmd }

  ghost function Rebase(cmd: Cmd<Word>, base: Cmd<Word>): Cmd<Word> {
    if cmd.Redir? then Redir(Rebase(cmd.cmd, base), cmd.file, cmd.mode) else base
  }

  /** Adding words among redirections comes to adding them first. */
  lemma {:induction false} BuildWrap(cmd: Cmd<Word>, ts: seq<Tok>)
    requires SimpleToks(ts) && Base(cmd).Exec?
    ensures Build(cmd, ts) == Wrap(Rebase(cmd, Exec(Base(cmd).args + ArgWords(ts))), ts)
    decreases |ts|
  {
    if ts == [] {
      assert Base(cmd).args + [] == Base(cmd).args;
      RebaseSame(cmd);
    } else if IsWord(ts[0]) {
      var w := Word(ts[0].lo, ts[0].hi);
      AddArgBase(cmd, w);
      BuildWrap(AddArg(cmd, w), ts[1..]);
      assert Base(cmd).args + [w] + ArgWords(ts[1..]) == Base(cmd).args + ArgWords(ts);
      RebaseTwice(cmd, Exec(Base(cmd).args + [w]), Exec(Base(cmd).args + ArgWords(ts)));
    } else {
      BuildWrap(Redir(cmd, Word(ts[1].lo, ts[1].hi), ModeOf(ts[0].kind)), ts[2..]);
    }
  }

  lemma {:induction false} RebaseSame(cmd: Cmd<Word>)
    ensures Rebase(cmd, Base(cmd)) == cmd
  {
    if cmd.Redir? { RebaseSame(cmd.cmd); }
  }

  lemma {:induction false} RebaseTwice(cmd: Cmd<Word>, a: Cmd<Word>, b: Cmd<Word>)
    requires !a.Redir?
    ensures Rebase(Rebase(cmd, a), b) == Rebase(cmd, b)
  {
    if cmd.Redir? { RebaseTwice(cmd.cmd, a, b); }
  }

  lemma {:induction false} AddArgBase(cmd: Cmd<Word>, w: Word)
    requires Base(cmd).Exec?
    ensures AddArg(cmd, w) == Rebase(cmd, Exec(Base(cmd).args + [w]))
    ensures Base(AddArg(cmd, w)) == Exec(Base(cmd).args + [w])
  {
    if cmd.Redir? { AddArgBase(cmd.cmd, w); }
  }

  /** The cursor at j is n tokens after the cursor at i. */
  ghost predicate Ahead(line: string, i: nat, n: nat, j: nat)
    requires i <= |line| && NoNul(line)
  {
    j <= |line| && n <= |Tokens(line, i)| && Tokens(line, j) == Tokens(line, i)[n..]
  }

  /** The n tokens from the cursor on. */
  ghost function Read(line: string, i: nat, n: nat): seq<Tok>
    requires i <= |line| && NoNul(line)
  {
    if n <= |Tokens(line, i)| then Tokens(line, i)[..n] else []
  }

  /** Reading on past one token, or two. */
  lemma {:induction false} ReadMore(line: string, i: nat, m: nat, k: nat, n: nat, j: nat)
    requires i <= |line| && NoNul(line) && Ahead(line, i, m, k) && Ahead(line, k, n, j)
    ensures Ahead(line, i, m + n, j) && Read(line, i, m + n) == Read(line, i, m) + Read(line, k, n)
  {
    hide Tokens;
    var t := Tokens(line, i);
    assert t[..m + n] == t[..m] + t[m..][..n] && t[m..][n..] == t[m + n..];
  }

  lemma {:induction false} ReadOne(line: string, i: nat)
    requires i <= |line| && NoNul(line) && Tokens(line, i) != []
    ensures Ahead(line, i, 1, TokenAt(line, i).next) && i < TokenAt(line, i).next
    ensures var t := TokenAt(line, i); Read(line, i, 1) == [Tok(t.kind, t.lo, t.hi)]
  {
    Head(line, i);
  }

  /** One turn of parseredirs. */
  lemma {:induction false} RedirTurn(line: string, i: nat, cmd: Cmd<Word>)
    requires i <= |line| && NoNul(line)
    ensures Tokens(line, i) == [] || !IsOp(Tokens(line, i)[0]) ==>
      RedirsOf(line, i, cmd) == Ok(cmd, SkipWhite(line, i)) && Ahead(line, i, 0, SkipWhite(line, i))
    ensures Tokens(line, i) != [] && IsOp(Tokens(line, i)[0]) ==>
      var t := TokenAt(line, i); var f := TokenAt(line, t.next);
      RedirsOf(line, i, cmd) == if f.kind != 'a' then Panic("missing file for redirection")
                                else RedirsOf(line, f.next, Redir(cmd, Word(f.lo, f.hi), ModeOf(t.kind)))
  {
    Head(line, i);
    SeesOp(line, i);
    hide Tokens, TokenAt, SkipWhite;
  }

  lemma {:induction false} PairFirst(op: Tok, f: Tok, rest: seq<Tok>, cmd: Cmd<Word>)
    requires IsOp(op) && IsWord(f)
    ensures SimpleToks([op, f] + rest) <==> SimpleToks(rest)
    ensures SimpleToks(rest) ==>
      var d := Redir(cmd, Word(f.lo, f.hi), ModeOf(op.kind));
      && ArgWords([op, f] + rest) == ArgWords(rest)
      && Wrap(cmd, [op, f] + rest) == Wrap(d, rest) && Build(cmd, [op, f] + rest) == Build(d, rest)
  {
    var ts := [op, f] + rest;
    assert ts[2..] == rest;
  }

  lemma {:induction false} WordFirst(w: Tok, rest: seq<Tok>, cmd: Cmd<Word>)
    requires IsWord(w)
    ensures SimpleToks([w] + rest) <==> SimpleToks(rest)
    ensures SimpleToks(rest) ==>
      && ArgWords([w] + rest) == [Word(w.lo, w.hi)] + ArgWords(rest)
      && Build(cmd, [w] + rest) == Build(AddArg(cmd, Word(w.lo, w.hi)), rest)
  {
    var ts := [w] + rest;
    assert ts[1..] == rest;
  }

  /** An operator and its file. */
  lemma {:induction false} ReadPair(line: string, i: nat, n: nat, j: nat)
    requires i <= |line| && NoNul(line) && Tokens(line, i) != [] && Tokens(line, TokenAt(line, i).next) != []
    requires Ahead(line, TokenAt(line, TokenAt(line, i).next).next, n, j)
    ensures var t := TokenAt(line, i); var f := TokenAt(line, t.next);
      && i < f.next && Ahead(line, i, n + 2, j)
      && Read(line, i, n + 2) == [Tok(t.kind, t.lo, t.hi), Tok(f.kind, f.lo, f.hi)] + Read(line, f.next, n)
  {
    hide Tokens, TokenAt, Ahead, Read;
    var t := TokenAt(line, i);
    var f := TokenAt(line, t.next);
    ReadOne(line, i);
    ReadOne(line, t.next);
    ReadMore(line, t.next, 1, f.next, n, j);
    ReadMore(line, i, 1, t.next, n + 1, j);
  }

  lemma {:induction false} RedirsSound(line: string, i: nat, cmd: Cmd<Word>) returns (n: nat)
    requires i <= |line| && NoNul(line) && RedirsOf(line, i, cmd).Ok?
    ensures Ahead(line, i, n, RedirsOf(line, i, cmd).next) && RedirsG(Read(line, i, n))
    ensures RedirsOf(line, i, cmd).cmd == Wrap(cmd, Read(line, i, n))
    decreases |line| - i
  {
    RedirTurn(line, i, cmd);
    n := 0;
    if Tokens(line, i) != [] && IsOp(Tokens(line, i)[0]) {
      var t := TokenAt(line, i);
      var f := TokenAt(line, t.next);
      Head(line, i);
      Head(line, t.next);
      hide Tokens, TokenAt, SkipWhite, RedirsOf, Ahead, Read, SimpleToks, ArgWords, Wrap;
      n := RedirsSound(line, f.next, Redir(cmd, Word(f.lo, f.hi), ModeOf(t.kind)));
      PairFirst(Tok(t.kind, t.lo, t.hi), Tok(f.kind, f.lo, f.hi), Read(line, f.next, n), cmd);
      ReadPair(line, i, n, RedirsOf(line, i, cmd).next);
      n := n + 2;
    }
  }

  lemma {:induction false} RedirsComplete(line: string, i: nat, cmd: Cmd<Word>, n: nat)
    requires i <= |line| && NoNul(line) && n <= |Tokens(line, i)| && RedirsG(Read(line, i, n))
    requires n == |Tokens(line, i)| || !IsOp(Tokens(line, i)[n])
    ensures RedirsOf(line, i, cmd).Ok? && RedirsOf(line, i, cmd).cmd == Wrap(cmd, Read(line, i, n))
    ensures Ahead(line, i, n, RedirsOf(line, i, cmd).next)
    decreases n
  {
    hide Tokens, TokenAt, SkipWhite, RedirsOf, Ahead, Read, SimpleToks, ArgWords, Wrap;
    RedirTurn(line, i, cmd);
    if n == 0 {
      ReadNothing(line, i, cmd);
      WrapNothing(cmd);
    } else {
      var t := TokenAt(line, i);
      var f := TokenAt(line, t.next);
      ReadLength(line, i, n);
      RedirFirst(Read(line, i, n));
      ReadPair2(line, i, n - 2);
      SameFollow(line, i, n, 2, f.next);
      PairFirst(Tok(t.kind, t.lo, t.hi), Tok(f.kind, f.lo, f.hi), Read(line, f.next, n - 2), cmd);
      RedirsComplete(line, f.next, Redir(cmd, Word(f.lo, f.hi), ModeOf(t.kind)), n - 2);
      ReadPair(line, i, n - 2, RedirsOf(line, i, cmd).next);
    }
  }

  lemma {:induction false} WrapNothing(cmd: Cmd<Word>)
    ensures Wrap(cmd, []) == cmd
  {
  }

  lemma {:induction false} RedirFirst(ts: seq<Tok>)
    requires RedirsG(ts) && ts != []
    ensures |ts| >= 2 && IsOp(ts[0]) && IsWord(ts[1])
  {
  }

  /** One turn of parseexec's loop, or of the redirections in it. */
  lemma {:induction false} RestTurn(line: string, i: nat, cmd: Cmd<Word>, argc: nat)
    requires i <= |line| && NoNul(line)
    ensures Follow(Tokens(line, i)) ==>
      var r := RestOf(line, i, cmd, argc); r.Ok? && r.cmd == cmd && Ahead(line, i, 0, r.next)
    ensures Tokens(line, i) != [] && IsWord(Tokens(line, i)[0]) ==>
      var t := TokenAt(line, i);
      RestOf(line, i, cmd, argc) == if argc + 1 >= MAXARGS then Panic("too many args")
                                    else RestOf(line, t.next, AddArg(cmd, Word(t.lo, t.hi)), argc + 1)
    ensures Tokens(line, i) != [] && IsOp(Tokens(line, i)[0]) ==>
      var t := TokenAt(line, i); var f := TokenAt(line, t.next);
      RestOf(line, i, cmd, argc) == if f.kind != 'a' then Panic("missing file for redirection")
                                    else RestOf(line, f.next, Redir(cmd, Word(f.lo, f.hi), ModeOf(t.kind)), argc)
    ensures !Follow(Tokens(line, i)) && !IsWord(Tokens(line, i)[0]) && !IsOp(Tokens(line, i)[0]) ==>
      RestOf(line, i, cmd, argc).Panic?
  {
    hide Tokens, TokenAt, SkipWhite, RedirsOf, ArgsOf, Ahead;
    RedirTurn(line, i, cmd);
    if Tokens(line, i) == [] || !IsOp(Tokens(line, i)[0]) {
      ArgTurn(line, i, cmd, argc);
    }
  }

  lemma {:induction false} ArgTurn(line: string, i: nat, cmd: Cmd<Word>, argc: nat)
    requires i <= |line| && NoNul(line)
    ensures var r := ArgsOf(line, SkipWhite(line, i), cmd, argc);
      && (Follow(Tokens(line, i)) ==> r.Ok? && r.cmd == cmd && Ahead(line, i, 0, r.next))
      && (Tokens(line, i) != [] && IsWord(Tokens(line, i)[0]) ==>
            var t := TokenAt(line, i);
            r == if argc + 1 >= MAXARGS then Panic("too many args")
                 else RestOf(line, t.next, AddArg(cmd, Word(t.lo, t.hi)), argc + 1))
      && (!Follow(Tokens(line, i)) && !IsWord(Tokens(line, i)[0]) ==> r.Panic?)
  {
    SkipTwice(line, i);
    Head(line, i);
    Sees(line, i, '|');
    Sees(line, i, ')');
    Sees(line, i, '&');
    Sees(line, i, ';');
    hide Tokens, TokenAt, SkipWhite, RedirsOf;
    if Follow(Tokens(line, i)) { assert Tokens(line, i)[0..] == Tokens(line, i); }
  }

  /** What may come after a command. */
  ghost predicate Follow(ts: seq<Tok>) { ts == [] || Stop(ts[0].kind) }

  lemma {:induction false} ReadWord(line: string, i: nat, n: nat, j: nat)
    requires i <= |line| && NoNul(line) && Tokens(line, i) != [] && Ahead(line, TokenAt(line, i).next, n, j)
    ensures var t := TokenAt(line, i);
      && i < t.next && Ahead(line, i, n + 1, j) && Tokens(line, i)[0] == Tok(t.kind, t.lo, t.hi)
      && Read(line, i, n + 1) == [Tok(t.kind, t.lo, t.hi)] + Read(line, t.next, n)
  {
    Head(line, i);
    hide Tokens, TokenAt, Ahead, Read;
    ReadOne(line, i);
    ReadMore(line, i, 1, TokenAt(line, i).next, n, j);
  }

  lemma {:induction false} ReadWord2(line: string, i: nat, n: nat)
    requires i <= |line| && NoNul(line) && n + 1 <= |Tokens(line, i)|
    ensures var t := TokenAt(line, i);
      && i < t.next && Tokens(line, i)[0] == Tok(t.kind, t.lo, t.hi) && n <= |Tokens(line, t.next)|
      && Tokens(line, t.next)[n..] == Tokens(line, i)[n + 1..]
      && Read(line, i, n + 1) == [Tok(t.kind, t.lo, t.hi)] + Read(line, t.next, n)
  {
    Head(line, i);
    hide Tokens, TokenAt;
  }

  lemma {:induction false} ReadPair2(line: string, i: nat, n: nat)
    requires i <= |line| && NoNul(line) && n + 2 <= |Tokens(line, i)|
    ensures var t := TokenAt(line, i); var f := TokenAt(line, t.next);
      && i < f.next && Tokens(line, i)[0] == Tok(t.kind, t.lo, t.hi) && Tokens(line, i)[1] == Tok(f.kind, f.lo, f.hi)
      && Ahead(line, i, 2, f.next) && Tokens(line, t.next) != [] && n <= |Tokens(line, f.next)| && Tokens(line,
            f.next)[n..] == Tokens(line,
            i)[n + 2..]
      && Read(line, i, n + 2) == [Tok(t.kind, t.lo, t.hi), Tok(f.kind, f.lo, f.hi)] + Read(line, f.next, n)
  {
    hide Tokens, TokenAt, Read;
    ReadWord2(line, i, n + 1);
    ReadWord2(line, TokenAt(line, i).next, n);
    NextToken(line, i);
    ReadOne(line, i);
    ReadOne(line, TokenAt(line, i).next);
    ReadMore(line, i, 1, TokenAt(line, i).next, 1, TokenAt(line, TokenAt(line, i).next).next);
    Regroup([Read(line, i, n + 2)[0]], [Read(line, TokenAt(line, i).next, n + 1)[0]],
            Read(line, TokenAt(line, TokenAt(line, i).next).next, n));
  }

  lemma {:induction false} NextToken(line: string, i: nat)
    requires i <= |line| && NoNul(line) && |Tokens(line, i)| >= 2
    ensures Tokens(line, TokenAt(line, i).next) != [] && Tokens(line, TokenAt(line, i).next)[0] == Tokens(line, i)[1]
  {
    Head(line, i);
    hide TokenAt;
  }

  lemma {:induction false} RestSound(line: string, i: nat, cmd: Cmd<Word>, argc: nat) returns (n: nat)
    requires i <= |line| && NoNul(line) && RestOf(line, i, cmd, argc).Ok? && argc < MAXARGS
    ensures Ahead(line, i, n, RestOf(line, i, cmd, argc).next) && SimpleToks(Read(line, i, n))
    ensures argc + |ArgWords(Read(line, i, n))| < MAXARGS
    ensures RestOf(line, i, cmd, argc).cmd == Build(cmd, Read(line, i, n))
    decreases |line| - i
  {
    hide Tokens, TokenAt, SkipWhite, RestOf, Ahead, Read, SimpleToks, ArgWords, Build;
    RestTurn(line, i, cmd, argc);
    n := 0;
    if Follow(Tokens(line, i)) {
      ReadNothing(line, i, cmd);
    } else {
      var t := TokenAt(line, i);
      Head(line, i);
      if IsWord(Tokens(line, i)[0]) {
        n := RestSound(line, t.next, AddArg(cmd, Word(t.lo, t.hi)), argc + 1);
        WordFirst(Tok(t.kind, t.lo, t.hi), Read(line, t.next, n), cmd);
        ReadWord(line, i, n, RestOf(line, i, cmd, argc).next);
        n := n + 1;
      } else {
        var f := TokenAt(line, t.next);
        Head(line, t.next);
        n := RestSound(line, f.next, Redir(cmd, Word(f.lo, f.hi), ModeOf(t.kind)), argc);
        PairFirst(Tok(t.kind, t.lo, t.hi), Tok(f.kind, f.lo, f.hi), Read(line, f.next, n), cmd);
        ReadPair(line, i, n, RestOf(line, i, cmd, argc).next);
        n := n + 2;
      }
    }
  }

  lemma {:induction false} ReadNothing(line: string, i: nat, cmd: Cmd<Word>)
    requires i <= |line| && NoNul(line)
    ensures Read(line, i, 0) == [] && SimpleToks(Read(line, i, 0)) && ArgWords(Read(line, i, 0)) == []
    ensures Build(cmd, Read(line, i, 0)) == cmd && Tokens(line, i)[0..] == Tokens(line, i)
  {
    hide Tokens;
  }

  lemma {:induction false} RestComplete(line: string, i: nat, cmd: Cmd<Word>, argc: nat, n: nat)
    requires i <= |line| && NoNul(line) && n <= |Tokens(line, i)| && SimpleToks(Read(line, i, n))
    requires Follow(Tokens(line, i)[n..]) && argc + |ArgWords(Read(line, i, n))| < MAXARGS
    ensures RestOf(line, i, cmd, argc).Ok? && RestOf(line, i, cmd, argc).cmd == Build(cmd, Read(line, i, n))
    ensures Ahead(line, i, n, RestOf(line, i, cmd, argc).next)
    decreases n
  {
    hide Tokens, TokenAt, SkipWhite, RestOf, Ahead, Read, SimpleToks, ArgWords, Build;
    RestTurn(line, i, cmd, argc);
    if n == 0 {
      ReadNothing(line, i, cmd);
    } else {
      var t := TokenAt(line, i);
      ReadWord2(line, i, n - 1);
      SimpleFirst(Read(line, i, n));
      if IsWord(Tokens(line, i)[0]) {
        WordFirst(Tok(t.kind, t.lo, t.hi), Read(line, t.next, n - 1), cmd);
        RestComplete(line, t.next, AddArg(cmd, Word(t.lo, t.hi)), argc + 1, n - 1);
        ReadWord(line, i, n - 1, RestOf(line, i, cmd, argc).next);
      } else {
        var f := TokenAt(line, t.next);
        ReadLength(line, i, n);
        ReadPair2(line, i, n - 2);
        PairFirst(Tok(t.kind, t.lo, t.hi), Tok(f.kind, f.lo, f.hi), Read(line, f.next, n - 2), cmd);
        RestComplete(line, f.next, Redir(cmd, Word(f.lo, f.hi), ModeOf(t.kind)), argc, n - 2);
        ReadPair(line, i, n - 2, RestOf(line, i, cmd, argc).next);
      }
    }
  }

  lemma {:induction false} ReadLength(line: string, i: nat, n: nat)
    requires i <= |line| && NoNul(line) && n <= |Tokens(line, i)|
    ensures |Read(line, i, n)| == n && forall k :: 0 <= k < n ==> Read(line, i, n)[k] == Tokens(line, i)[k]
  {
  }

  lemma {:induction false} SimpleFirst(ts: seq<Tok>)
    requires SimpleToks(ts) && ts != []
    ensures IsWord(ts[0]) || (IsOp(ts[0]) && |ts| >= 2 && IsWord(ts[1]))
  {
  }

  // ----- commands

  lemma {:induction false} ExecSound(line: string, i: nat) returns (n: nat)
    requires i <= |line| && NoNul(line) && ExecOf(line, i).Ok?
    ensures Ahead(line, i, n, ExecOf(line, i).next) && ExecG(Read(line, i, n), ExecOf(line, i).cmd)
    decreases |line| - i, 1
  {
    Sees(line, i, '(');
    Head(line, i);
    SkipTwice(line, i);
    var s := SkipWhite(line, i);
    hide Tokens, TokenAt, SkipWhite, Ahead, Read, BlockG, SimpleToks, ArgWords, Wrap, RestOf, BlockOf;
    if At(line, s) == '(' {
      n := BlockSound(line, s);
    } else {
      ExecRest(line, i);
      n := RestSound(line, s, Exec([]), 0);
      BuildWrap(Exec([]), Read(line, s, n));
      assert [] + ArgWords(Read(line, s, n)) == ArgWords(Read(line, s, n));
    }
    SameRead(line, i, s, n, ExecOf(line, i).next);
  }

  lemma {:induction false} ExecRest(line: string, i: nat)
    requires i <= |line| && NoNul(line) && At(line, SkipWhite(line, i)) != '('
    ensures ExecOf(line, i) == RestOf(line, SkipWhite(line, i), Exec([]), 0)
  {
  }

  lemma {:induction false} SameRead(line: string, i: nat, s: nat, n: nat, j: nat)
    requires i <= s <= |line| && NoNul(line) && Tokens(line, s) == Tokens(line, i)
    ensures Read(line, i, n) == Read(line, s, n) && (Ahead(line, i, n, j) <==> Ahead(line, s, n, j))
  {
  }

  lemma {:induction false} BlockSound(line: string, i: nat) returns (n: nat)
    requires i < |line| && NoNul(line) && line[i] == '(' && BlockOf(line, i).Ok?
    ensures Ahead(line, i, n, BlockOf(line, i).next) && BlockG(Read(line, i, n), BlockOf(line, i).cmd)
    decreases |line| - i, 0
  {
    hide Tokens, TokenAt, SkipWhite, Ahead, Read, BlockG, LineG, SimpleToks, ArgWords, Wrap, LineOf, RedirsOf, RedirsG;
    OpenBracket(line, i);
    var t := TokenAt(line, i);
    var r := LineOf(line, t.next);
    var k := LineSound(line, t.next);
    var s := SkipWhite(line, r.next);
    Sees(line, r.next, ')');
    Head(line, r.next);
    var u := TokenAt(line, s);
    var m := RedirsSound(line, u.next, r.cmd);
    n := k + m + 2;
    ReadOne(line, r.next);
    ReadBlock(line, i, t.next, k, r.next, u.next, m, BlockOf(line, i).next);
    BlockMade(Read(line, i, 1), Read(line, t.next, k), Read(line, r.next, 1), Read(line, u.next, m), r.cmd);
  }

  lemma {:induction false} OpenBracket(line: string, i: nat)
    requires i < |line| && NoNul(line) && line[i] == '('
    ensures SkipWhite(line, i) == i && Tokens(line, i) != [] && Tokens(line, i)[0].kind == '('
    ensures Ahead(line, i, 1, TokenAt(line, i).next) && i < TokenAt(line, i).next && |Read(line, i, 1)| == 1
    ensures Read(line, i, 1)[0].kind == '('
  {
    Sees(line, i, '(');
    ReadOne(line, i);
    hide Tokens, TokenAt;
  }

  lemma {:induction false} ReadBlock(line: string, i: nat, a: nat, k: nat, b: nat, c: nat, m: nat, d: nat)
    requires i <= |line| && NoNul(line) && Ahead(line, i, 1, a) && Ahead(line, a, k, b) && Ahead(line, b, 1, c)
    requires Ahead(line, c, m, d)
    ensures Ahead(line, i, k + m + 2, d)
    ensures Read(line, i, k + m + 2) == Read(line, i, 1) + (Read(line, a, k) + Read(line, b, 1) + Read(line, c, m))
  {
    hide Tokens, Ahead, Read;
    AheadBound(line, i, 1, a);
    ReadPairOf(line, a, k, b, c, m, d);
    var n := k + m + 1;
    ReadMore(line, i, 1, a, n, d);
    assert 1 + n == k + m + 2;
  }

  lemma {:induction false} Regroup(a: seq<Tok>, b: seq<Tok>, c: seq<Tok>)
    ensures a + (b + c) == a + b + c
  {
  }

  lemma {:induction false} BlockMade(a: seq<Tok>, l: seq<Tok>, b: seq<Tok>, rs: seq<Tok>, d: Cmd<Word>)
    requires |a| == 1 && a[0].kind == '(' && LineG(l, d) && |b| == 1 && b[0].kind == ')' && RedirsG(rs)
    ensures BlockG(a + (l + b + rs), Wrap(d, rs))
  {
    hide LineG, SimpleToks, ArgWords, Wrap;
    var ts, k := a + (l + b + rs), |l| + 1;
    assert ts[1..k] == l && ts[k + 1..] == rs && ts[k] == b[0] && ts[0] == a[0];
  }

  lemma {:induction false} PipeSound(line: string, i: nat) returns (n: nat)
    requires i <= |line| && NoNul(line) && PipeOf(line, i).Ok?
    ensures Ahead(line, i, n, PipeOf(line, i).next) && PipeG(Read(line, i, n), PipeOf(line, i).cmd)
    decreases |line| - i, 2
  {
    hide Tokens, TokenAt, SkipWhite, Ahead, Read, ExecG, ExecOf;
    var r := ExecOf(line, i);
    n := ExecSound(line, i);
    var s := SkipWhite(line, r.next);
    Sees(line, r.next, '|');
    Head(line, r.next);
    SameEnd(line, i, n, r.next, s);
    if At(line, s) == '|' {
      var t := TokenAt(line, s);
      ReadOne(line, r.next);
      hide PipeG;
      var m := PipeSound(line, t.next);
      var q := PipeOf(line, t.next);
      ReadPairOf(line, i, n, r.next, t.next, m, q.next);
      PipeMade(Read(line, i, n), Read(line, r.next, 1), Read(line, t.next, m), r.cmd, q.cmd);
      n := n + m + 1;
    }
  }

  lemma {:induction false} SameEnd(line: string, i: nat, n: nat, j: nat, s: nat)
    requires i <= |line| && j <= s <= |line| && NoNul(line) && Tokens(line, s) == Tokens(line, j)
    requires Ahead(line, i, n, j)
    ensures Ahead(line, i, n, s)
  {
  }

  /** Two parts with a symbol between them. */
  lemma {:induction false} ReadPairOf(line: string, i: nat, n: nat, a: nat, b: nat, m: nat, j: nat)
    requires i <= |line| && NoNul(line) && Ahead(line, i, n, a) && Ahead(line, a, 1, b) && Ahead(line, b, m, j)
    ensures Ahead(line, i, n + m + 1, j)
    ensures Read(line, i, n + m + 1) == Read(line, i, n) + Read(line, a, 1) + Read(line, b, m)
  {
    AheadBound(line, i, n, a);
    AheadBound(line, a, 1, b);
    hide Tokens, Ahead, Read;
    ReadMore(line, a, 1, b, m, j);
    ReadMore(line, i, n, a, 1 + m, j);
    Regroup(Read(line, i, n), Read(line, a, 1), Read(line, b, m));
  }

  lemma {:induction false} PipeMade(l: seq<Tok>, b: seq<Tok>, r: seq<Tok>, c: Cmd<Word>, d: Cmd<Word>)
    requires ExecG(l, c) && |b| == 1 && b[0].kind == '|' && PipeG(r, d)
    ensures PipeG(l + b + r, Pipe(c, d))
  {
    hide ExecG;
    var ts, k := l + b + r, |l|;
    assert ts[..k] == l && ts[k + 1..] == r && ts[k] == b[0];
  }

  lemma {:induction false} LineMade(l: seq<Tok>, b: seq<Tok>, r: seq<Tok>, c: Cmd<Word>, d: Cmd<Word>)
    requires BackG(l, c) && |b| == 1 && b[0].kind == ';' && LineG(r, d)
    ensures LineG(l + b + r, List(c, d))
  {
    hide BackG;
    var ts, k := l + b + r, |l|;
    assert ts[..k] == l && ts[k + 1..] == r && ts[k] == b[0];
  }

  lemma {:induction false} BackMade(l: seq<Tok>, b: seq<Tok>, c: Cmd<Word>)
    requires BackG(l, c) && |b| == 1 && b[0].kind == '&'
    ensures BackG(l + b, Back(c))
  {
    hide PipeG;
    assert (l + b)[..|l + b| - 1] == l;
  }

  /** The background marks after n tokens. */
  lemma {:induction false} BacksSound(line: string, i: nat, n: nat, j: nat, c: Cmd<Word>) returns (m: nat)
    requires i <= |line| && NoNul(line) && Ahead(line, i, n, j) && BackG(Read(line, i, n), c)
    ensures Ahead(line, i, m, BacksOf(line, j, c).next) && BackG(Read(line, i, m), BacksOf(line, j, c).cmd)
    decreases |line| - j
  {
    hide Tokens, TokenAt, SkipWhite, Ahead, Read, BackG;
    AheadBound(line, i, n, j);
    var s := SkipWhite(line, j);
    Sees(line, j, '&');
    Head(line, j);
    SameEnd(line, i, n, j, s);
    if At(line, s) == '&' {
      var t := TokenAt(line, s);
      ReadOne(line, j);
      ReadMore(line, i, n, j, 1, t.next);
      BackMade(Read(line, i, n), Read(line, j, 1), c);
      m := BacksSound(line, i, n + 1, t.next, Back(c));
    } else {
      m := n;
    }
  }

  lemma {:induction false} AheadBound(line: string, i: nat, n: nat, j: nat)
    requires i <= |line| && NoNul(line) && Ahead(line, i, n, j)
    ensures j <= |line| && n <= |Tokens(line, i)|
  {
  }

  lemma {:induction false} LineSound(line: string, i: nat) returns (n: nat)
    requires i <= |line| && NoNul(line) && LineOf(line, i).Ok?
    ensures Ahead(line, i, n, LineOf(line, i).next) && LineG(Read(line, i, n), LineOf(line, i).cmd)
    decreases |line| - i, 3
  {
    hide Tokens, TokenAt, SkipWhite, Ahead, Read, PipeG, PipeOf, BacksOf;
    var p := PipeOf(line, i);
    n := PipeSound(line, i);
    n := BacksSound(line, i, n, p.next, p.cmd);
    var r := BacksOf(line, p.next, p.cmd);
    var s := SkipWhite(line, r.next);
    Sees(line, r.next, ';');
    Head(line, r.next);
    SameEnd(line, i, n, r.next, s);
    hide BackG;
    if At(line, s) == ';' {
      var t := TokenAt(line, s);
      ReadOne(line, r.next);
      hide LineG;
      var m := LineSound(line, t.next);
      var q := LineOf(line, t.next);
      ReadPairOf(line, i, n, r.next, t.next, m, q.next);
      LineMade(Read(line, i, n), Read(line, r.next, 1), Read(line, t.next, m), r.cmd, q.cmd);
      n := n + m + 1;
    }
  }

  // ----- and the other way round

  /** The tokens after the first a of n. */
  lemma {:induction false} ReadAfter(line: string, i: nat, n: nat, a: nat, k: nat)
    requires i <= |line| && NoNul(line) && Ahead(line, i, a, k) && a <= n <= |Tokens(line, i)|
    ensures k <= |line| && |Read(line, i, n)| == n && Read(line, k, n - a) == Read(line, i, n)[a..]
    ensures |Tokens(line, k)| == |Tokens(line, i)| - a && Tokens(line, k)[n - a..] == Tokens(line, i)[n..]
    ensures a < n ==> Tokens(line, k)[0] == Read(line, i, n)[a]
  {
    hide Tokens;
  }

  lemma {:induction false} ReadBefore(line: string, i: nat, n: nat, b: nat)
    requires i <= |line| && NoNul(line) && b <= n <= |Tokens(line, i)|
    ensures |Read(line, i, n)| == n && Read(line, i, b) == Read(line, i, n)[..b]
    ensures b < n ==> Tokens(line, i)[b..] != [] && Tokens(line, i)[b..][0] == Read(line, i, n)[b] == Tokens(line, i)[b]
  {
    hide Tokens;
  }

  /** A symbol at the cursor, and the cursor after it. */
  lemma {:induction false} PastSymbol(line: string, i: nat, n: nat, j: nat)
    requires i <= |line| && NoNul(line) && Ahead(line, i, n, j) && n < |Tokens(line, i)|
    ensures j <= |line| && Tokens(line, j) != [] && Tokens(line, j)[0] == Tokens(line, i)[n]
    ensures TokenAt(line, SkipWhite(line, j)) == TokenAt(line, j) && Ahead(line, i, n + 1, TokenAt(line, j).next)
    ensures j < TokenAt(line, j).next
  {
    Head(line, j);
    ReadOne(line, j);
    hide Tokens, TokenAt, SkipWhite;
  }

  /** No such symbol at the cursor. */
  lemma {:induction false} NoSymbol(line: string, i: nat, n: nat, j: nat, c: char)
    requires i <= |line| && NoNul(line) && Ahead(line, i, n, j) && (Stop(c) || c == '(')
    requires n == |Tokens(line, i)| || Tokens(line, i)[n].kind != c
    ensures j <= |line| && At(line, SkipWhite(line, j)) != c && Ahead(line, i, n, SkipWhite(line, j))
  {
    Head(line, j);
    Sees(line, j, c);
    hide Tokens, TokenAt, SkipWhite;
  }

  lemma {:induction false} SymbolSeen(line: string, i: nat, n: nat, j: nat, c: char)
    requires i <= |line| && NoNul(line) && Ahead(line, i, n, j) && (Stop(c) || c == '(')
    requires n < |Tokens(line, i)| && Tokens(line, i)[n].kind == c
    ensures j <= |line| && At(line, SkipWhite(line, j)) == c
  {
    Sees(line, j, c);
    hide Tokens, TokenAt, SkipWhite;
  }

  lemma {:induction false} ExecComplete(line: string, i: nat, n: nat, c: Cmd<Word>)
    requires i <= |line| && NoNul(line) && n <= |Tokens(line, i)| && ExecG(Read(line, i, n), c)
    requires Follow(Tokens(line, i)[n..])
    ensures ExecOf(line, i).Ok? && ExecOf(line, i).cmd == c && Ahead(line, i, n, ExecOf(line, i).next)
    decreases n, 1
  {
    hide Tokens, TokenAt, SkipWhite, Ahead, Read, BlockG, SimpleToks, ArgWords, Wrap, RestOf, BlockOf;
    var s := SkipWhite(line, i);
    Head(line, i);
    Sees(line, i, '(');
    ReadLength(line, i, n);
    SameRead(line, i, s, n, 0);
    if SimpleG(Read(line, i, n), c) {
      if n > 0 { SimpleFirst(Read(line, i, n)); }
      assert n == 0 ==> Tokens(line, i)[0..] == Tokens(line, i);
      ExecRest(line, i);
      RestComplete(line, s, Exec([]), 0, n);
      BuildWrap(Exec([]), Read(line, s, n));
      assert [] + ArgWords(Read(line, s, n)) == ArgWords(Read(line, s, n));
      SameRead(line, i, s, n, ExecOf(line, i).next);
    } else {
      BlockOpens(Read(line, i, n), c);
      BlockComplete(line, s, n, c);
      ExecBlock(line, i);
      SameRead(line, i, s, n, ExecOf(line, i).next);
    }
  }

  lemma {:induction false} ExecBlock(line: string, i: nat)
    requires i <= |line| && NoNul(line) && At(line, SkipWhite(line, i)) == '('
    ensures ExecOf(line, i) == BlockOf(line, SkipWhite(line, i))
  {
  }

  lemma {:induction false} BlockOpens(ts: seq<Tok>, c: Cmd<Word>)
    requires BlockG(ts, c)
    ensures ts != [] && ts[0].kind == '('
  {
  }

  /** Where a block closes, and the line inside it. */
  lemma {:induction false} BlockParts(ts: seq<Tok>, c: Cmd<Word>) returns (k: nat, d: Cmd<Word>)
    requires BlockG(ts, c)
    ensures 0 < k < |ts| && ts[k].kind == ')' && LineG(ts[1..k], d) && RedirsG(ts[k + 1..]) && c == Wrap(d, ts[k + 1..])
  {
    hide LineG, SimpleToks, ArgWords, Wrap;
    k, d :| 0 < k < |ts| && LineG(ts[1..k], d) && ts[k].kind == ')' && RedirsG(ts[k + 1..])
            && c == Wrap(d, ts[k + 1..]);
  }

  lemma {:induction false} BlockComplete(line: string, i: nat, n: nat, c: Cmd<Word>)
    requires i < |line| && NoNul(line) && line[i] == '(' && n <= |Tokens(line, i)| && BlockG(Read(line, i, n), c)
    requires Follow(Tokens(line, i)[n..])
    ensures BlockOf(line, i).Ok? && BlockOf(line, i).cmd == c && Ahead(line, i, n, BlockOf(line, i).next)
    decreases n, 0
  {
    hide Tokens, TokenAt, SkipWhite, Ahead, Read, BlockG, LineG, SimpleToks, ArgWords, Wrap, LineOf, RedirsOf, RedirsG;
    var ts := Read(line, i, n);
    var k, d := BlockParts(ts, c);
    OpenBracket(line, i);
    var t := TokenAt(line, i);
    ReadLength(line, i, n);
    ReadBefore(line, i, n, k);
    ReadAfter(line, i, k, 1, t.next);
    assert ts[..k][1..] == ts[1..k];
    LineComplete(line, t.next, k - 1, d);
    var j := LineOf(line, t.next).next;
    ReadMore(line, i, 1, t.next, k - 1, j);
    SymbolSeen(line, i, k, j, ')');
    PastSymbol(line, i, k, j);
    var u := TokenAt(line, j);
    ReadAfter(line, i, n, k + 1, u.next);
    FollowNotOp(line, i, n, k + 1, u.next);
    RedirsComplete(line, u.next, d, n - k - 1);
    ReadMore(line, i, k + 1, u.next, n - k - 1, RedirsOf(line, u.next, d).next);
  }

  lemma {:induction false} FollowNotOp(line: string, i: nat, n: nat, a: nat, k: nat)
    requires i <= |line| && NoNul(line) && Ahead(line, i, a, k) && a <= n <= |Tokens(line, i)|
    requires Follow(Tokens(line, i)[n..])
    ensures k <= |line| && n - a <= |Tokens(line, k)|
    ensures n - a == |Tokens(line, k)| || !IsOp(Tokens(line, k)[n - a])
  {
    hide Tokens;
  }

  lemma {:induction false} PipeComplete(line: string, i: nat, n: nat, c: Cmd<Word>)
    requires i <= |line| && NoNul(line) && n <= |Tokens(line, i)| && PipeG(Read(line, i, n), c)
    requires Follow(Tokens(line, i)[n..]) && (n == |Tokens(line, i)| || Tokens(line, i)[n].kind != '|')
    ensures PipeOf(line, i).Ok? && PipeOf(line, i).cmd == c && Ahead(line, i, n, PipeOf(line, i).next)
    decreases n, 2
  {
    hide Tokens, TokenAt, SkipWhite, Ahead, Read, ExecG, ExecOf;
    var ts := Read(line, i, n);
    if ExecG(ts, c) {
      ExecComplete(line, i, n, c);
      NoSymbol(line, i, n, ExecOf(line, i).next, '|');
    } else {
      var k := PipeSplit(ts, c);
      hide PipeG;
      ReadLength(line, i, n);
      ReadBefore(line, i, n, k);
      ExecComplete(line, i, k, c.left);
      var j := ExecOf(line, i).next;
      SymbolSeen(line, i, k, j, '|');
      PastSymbol(line, i, k, j);
      var t := TokenAt(line, j);
      ReadAfter(line, i, n, k + 1, t.next);
      SameFollow(line, i, n, k + 1, t.next);
      PipeComplete(line, t.next, n - k - 1, c.right);
      ReadMore(line, i, k + 1, t.next, n - k - 1, PipeOf(line, t.next).next);
    }
  }

  lemma {:induction false} PipeSplit(ts: seq<Tok>, c: Cmd<Word>) returns (k: nat)
    requires PipeG(ts, c) && !ExecG(ts, c)
    ensures c.Pipe? && k < |ts| && ts[k].kind == '|' && ExecG(ts[..k], c.left) && PipeG(ts[k + 1..], c.right)
  {
    hide ExecG;
    k :| 0 <= k < |ts| && ts[k].kind == '|' && ExecG(ts[..k], c.left) && PipeG(ts[k + 1..], c.right);
  }

  lemma {:induction false} LineSplit(ts: seq<Tok>, c: Cmd<Word>) returns (k: nat)
    requires LineG(ts, c) && !BackG(ts, c)
    ensures c.List? && k < |ts| && ts[k].kind == ';' && BackG(ts[..k], c.left) && LineG(ts[k + 1..], c.right)
  {
    hide BackG;
    k :| 0 <= k < |ts| && ts[k].kind == ';' && BackG(ts[..k], c.left) && LineG(ts[k + 1..], c.right);
  }

  lemma {:induction false} SameFollow(line: string, i: nat, n: nat, a: nat, k: nat)
    requires i <= |line| && NoNul(line) && Ahead(line, i, a, k) && a <= n <= |Tokens(line, i)|
    ensures k <= |line| && n - a <= |Tokens(line, k)| && Tokens(line, k)[n - a..] == Tokens(line, i)[n..]
    ensures n - a == |Tokens(line, k)| <==> n == |Tokens(line, i)|
    ensures n < |Tokens(line, i)| ==> Tokens(line, k)[n - a] == Tokens(line, i)[n]
  {
    hide Tokens;
  }

  lemma {:induction false} BackComplete(line: string, i: nat, n: nat, c: Cmd<Word>) returns (j: nat)
    requires i <= |line| && NoNul(line) && n <= |Tokens(line, i)| && BackG(Read(line, i, n), c)
    requires Follow(Tokens(line, i)[n..]) && (n == |Tokens(line, i)| || Tokens(line, i)[n].kind != '|')
    ensures PipeOf(line, i).Ok? && j <= |line| && Ahead(line, i, n, j)
    ensures BacksOf(line, PipeOf(line, i).next, PipeOf(line, i).cmd) == BacksOf(line, j, c)
    decreases n, 3
  {
    hide Tokens, TokenAt, SkipWhite, Ahead, Read, PipeG, PipeOf, BacksOf;
    var ts := Read(line, i, n);
    if PipeG(ts, c) {
      PipeComplete(line, i, n, c);
      j := PipeOf(line, i).next;
    } else {
      ReadLength(line, i, n);
      ReadBefore(line, i, n, n - 1);
      var k := BackComplete(line, i, n - 1, c.cmd);
      SymbolSeen(line, i, n - 1, k, '&');
      PastSymbol(line, i, n - 1, k);
      BackTurn(line, k, c.cmd);
      j := TokenAt(line, k).next;
    }
  }

  lemma {:induction false} BackTurn(line: string, i: nat, c: Cmd<Word>)
    requires i <= |line| && NoNul(line)
    ensures At(line, SkipWhite(line, i)) == '&' ==>
      BacksOf(line, i, c) == BacksOf(line, TokenAt(line, SkipWhite(line, i)).next, Back(c))
    ensures At(line, SkipWhite(line, i)) != '&' ==> BacksOf(line, i, c) == Ok(c, SkipWhite(line, i))
  {
    hide TokenAt, SkipWhite;
  }

  lemma {:induction false} LineComplete(line: string, i: nat, n: nat, c: Cmd<Word>)
    requires i <= |line| && NoNul(line) && n <= |Tokens(line, i)| && LineG(Read(line, i, n), c)
    requires n == |Tokens(line, i)| || Tokens(line, i)[n].kind == ')'
    ensures LineOf(line, i).Ok? && LineOf(line, i).cmd == c && Ahead(line, i, n, LineOf(line, i).next)
    decreases n, 4
  {
    hide Tokens, TokenAt, SkipWhite, Ahead, Read, BackG, PipeOf, BacksOf;
    var ts := Read(line, i, n);
    if BackG(ts, c) {
      var j := BackComplete(line, i, n, c);
      NoSymbol(line, i, n, j, '&');
      BackTurn(line, j, c);
      NoSymbol(line, i, n, SkipWhite(line, j), ';');
    } else {
      var k := LineSplit(ts, c);
      hide LineG;
      ReadLength(line, i, n);
      ReadBefore(line, i, n, k);
      var j := BackComplete(line, i, k, c.left);
      NoSymbol(line, i, k, j, '&');
      BackTurn(line, j, c.left);
      var e := SkipWhite(line, j);
      SymbolSeen(line, i, k, e, ';');
      PastSymbol(line, i, k, e);
      var t := TokenAt(line, e);
      ReadAfter(line, i, n, k + 1, t.next);
      SameFollow(line, i, n, k + 1, t.next);
      LineComplete(line, t.next, n - k - 1, c.right);
      ReadMore(line, i, k + 1, t.next, n - k - 1, LineOf(line, t.next).next);
    }
  }

  // ----- the language of the shell

  /** The parser accepts exactly the lines whose tokens the grammar derives, and returns the tree it gives them. */
  lemma {:induction false} Accepted(line: string, c: Cmd<Word>)
    requires NoNul(line)
    ensures CommandOf(line) == Ok(c, |line|) <==> LineG(Tokens(line, 0), c)
  {
    hide Tokens, TokenAt, SkipWhite, Ahead, Read, LineG, LineOf;
    var ts := Tokens(line, 0);
    if LineG(ts, c) {
      WholeRead(line, |ts|);
      LineComplete(line, 0, |ts|, c);
      AtEnd(line, |ts|, LineOf(line, 0).next);
    }
    if CommandOf(line) == Ok(c, |line|) {
      var n := LineSound(line, 0);
      AtEnd(line, n, LineOf(line, 0).next);
      WholeRead(line, n);
    }
  }

  lemma {:induction false} WholeRead(line: string, n: nat)
    requires NoNul(line) && n == |Tokens(line, 0)|
    ensures Read(line, 0, n) == Tokens(line, 0)
  {
    hide Tokens;
  }

  lemma {:induction false} AtEnd(line: string, n: nat, j: nat)
    requires NoNul(line) && Ahead(line, 0, n, j)
    ensures j <= |line| && (SkipWhite(line, j) == |line| <==> n == |Tokens(line, 0)|)
  {
    Head(line, j);
    hide Tokens, TokenAt, SkipWhite;
  }

  /** No line has two trees. */
  lemma {:induction false} OneTree(line: string, c: Cmd<Word>, d: Cmd<Word>)
    requires NoNul(line) && LineG(Tokens(line, 0), c) && LineG(Tokens(line, 0), d)
    ensures c == d
  {
    hide LineG, Tokens, CommandOf;
    Accepted(line, c);
    Accepted(line, d);
  }

  /** Redirections bind closer than pipes, pipes closer than background marks, these closer than lists. */
  lemma {:induction false} Precedence(a: seq<Tok>, b: seq<Tok>, d: seq<Tok>, x: Cmd<Word>, y: Cmd<Word>, z: Cmd<Word>,
                                      bar: Tok, semi: Tok, amp: Tok)
    requires SimpleG(a, x) && SimpleG(b, y) && SimpleG(d, z) && bar.kind == '|' && semi.kind == ';' && amp.kind == '&'
    ensures LineG(a + [bar] + b + [amp] + [semi] + (d + [amp]), List(Back(Pipe(x, y)), Back(z)))
  {
    hide SimpleG, BlockG;
    assert ExecG(a, x) && ExecG(b, y) && ExecG(d, z);
    assert PipeG(b, y) && PipeG(d, z) && BackG(d, z);
    PipeMade(a, [bar], b, x, y);
    assert BackG(a + [bar] + b, Pipe(x, y));
    BackMade(a + [bar] + b, [amp], Pipe(x, y));
    BackMade(d, [amp], z);
    assert LineG(d + [amp], Back(z));
    LineMade(a + [bar] + b + [amp], [semi], d + [amp], Back(Pipe(x, y)), Back(z));
  }
}
