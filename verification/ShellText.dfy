/** The text of a command tree, and what parsing it gives back; and what the strings of a parsed line are once
    nulterminate of user/sh.c has cut them. */
module ShellText {
  import opened ShellLex
  import opened Shell

  ghost predicate LegalWord(w: string) { w != "" && forall k :: 0 <= k < |w| ==> WordChar(w[k]) }

  /** Words a line can hold, and at most nine arguments to a command. */
  ghost predicate Legal(t: Cmd<string>) {
    match t
    case Exec(args) => |args| < 10 && forall k :: 0 <= k < |args| ==> LegalWord(args[k])
    case Redir(c, f, _) => Legal(c) && LegalWord(f)
    case Pipe(l, r) => Legal(l) && Legal(r)
    case List(l, r) => Legal(l) && Legal(r)
    case Back(c) => Legal(c)
  }

  function Join(args: seq<string>): string {
    if args == [] then "" else if |args| == 1 then args[0] else args[0] + " " + Join(args[1..])
  }

  function Op(m: Mode): string { match m case In => "<" case Out => ">" case Append => ">>" }

  /** The tree as a line, with brackets around every part. */
  function Print(t: Cmd<string>): string {
    match t
    case Exec(args) => Join(args)
    case Redir(c, f, m) => "(" + Print(c) + ")" + Op(m) + f
    case Pipe(l, r) => "(" + Print(l) + ")|(" + Print(r) + ")"
    case List(l, r) => "(" + Print(l) + ");(" + Print(r) + ")"
    case Back(c) => "(" + Print(c) + ")&"
  }

  function Slice(line: string, w: Word): string { if w.lo <= w.hi <= |line| then line[w.lo..w.hi] else "" }

  /** The tree the parser built, with its words as strings. */
  function Text(line: string, c: Cmd<Word>): Cmd<string> {
    match c
    case Exec(args) => Exec(seq(|args|, k requires 0 <= k < |args| => Slice(line, args[k])))
    case Redir(d, f, m) => Redir(Text(line, d), Slice(line, f), m)
    case Pipe(l, r) => Pipe(Text(line, l), Text(line, r))
    case List(l, r) => List(Text(line, l), Text(line, r))
    case Back(d) => Back(Text(line, d))
  }

  // ----- round trip

  /** The text from i to j is s. */
  ghost predicate Has(line: string, i: nat, j: nat, s: string) { i <= j <= |line| && line[i..j] == s }

  /** What may follow a whole line: a closing bracket or the end. */
  ghost predicate Closing(line: string, j: nat) { j == |line| || (j < |line| && line[j] == ')') }

  lemma {:induction false} Part(line: string, i: nat, j: nat, a: string, b: string)
    requires Has(line, i, j, a + b)
    ensures Has(line, i, i + |a|, a) && Has(line, i + |a|, j, b)
  {
    assert line[i..i + |a|] == (a + b)[..|a|] == a;
    assert line[i + |a|..j] == (a + b)[|a|..] == b;
  }

  lemma {:induction false} WordToken(line: string, i: nat, j: nat, w: string)
    requires Has(line, i, j, w) && LegalWord(w) && NoNul(line) && !WordChar(At(line, j))
    ensures TokenAt(line, i) == Token('a', i, j, SkipWhite(line, j)) && SkipWhite(line, i) == i && i < j
  {
    assert line[i] == w[0] && forall k :: i <= k < j ==> WordChar(line[k]) by {
      forall k | i <= k < j ensures WordChar(line[k]) {
        assert line[k] == w[k - i];
      }
    }
    var e := WordEnd(line, i);
    if e < j { assert false; }
  }

  lemma {:induction false} SkipNone(line: string, i: nat)
    requires i <= |line| && !White(At(line, i))
    ensures SkipWhite(line, i) == i
  {
  }

  lemma {:induction false} SkipOne(line: string, i: nat)
    requires i < |line| && White(line[i]) && !White(At(line, i + 1))
    ensures SkipWhite(line, i) == i + 1
  {
    SkipNone(line, i + 1);
  }

  /** No redirection follows. */
  lemma {:induction false} NoRedirs(line: string, i: nat, cmd: Cmd<Word>)
    requires i <= |line| && NoNul(line) && !White(At(line, i)) && At(line, i) != '<' && At(line, i) != '>'
    ensures RedirsOf(line, i, cmd) == Ok(cmd, i)
  {
    SkipNone(line, i);
  }

  /** One argument read, and no redirection after it. */
  lemma {:induction false} OneArg(line: string, i: nat, m: nat, w: string, ws: seq<Word>, argc: nat)
    requires Has(line, i, m, w) && LegalWord(w) && NoNul(line) && !WordChar(At(line, m)) && argc + 1 < MAXARGS
    requires At(line, SkipWhite(line, m)) != '<' && At(line, SkipWhite(line, m)) != '>'
    ensures ArgsOf(line, i, Exec(ws), argc) == ArgsOf(line, SkipWhite(line, m), Exec(ws + [Word(i, m)]), argc + 1)
    ensures Slice(line, Word(i, m)) == w
  {
    WordToken(line, i, m, w);
    assert WordChar(line[i]) by { assert line[i] == line[i..m][0]; }
    hide SkipWhite, RedirsOf, TokenAt, WordEnd;
    NoRedirs(line, SkipWhite(line, m), AddArg(Exec(ws), Word(i, m)));
  }

  lemma {:induction false} NoArgs(line: string, j: nat, cmd: Cmd<Word>, argc: nat)
    requires NoNul(line) && Closing(line, j)
    ensures ArgsOf(line, j, cmd, argc) == Ok(cmd, j)
  {
    SkipNone(line, j);
  }

  /** The words of an argument list. */
  lemma {:induction false} ArgsParsed(line: string, i: nat, j: nat, args: seq<string>, ws: seq<Word>, argc: nat)
    returns (ws': seq<Word>)
    requires NoNul(line) && Has(line, i, j, Join(args)) && Closing(line, j) && argc + |args| < MAXARGS
    requires forall k :: 0 <= k < |args| ==> LegalWord(args[k])
    ensures ArgsOf(line, i, Exec(ws), argc) == Ok(Exec(ws + ws'), j)
    ensures |ws'| == |args| && forall k :: 0 <= k < |args| ==> Slice(line, ws'[k]) == args[k]
    ensures !White(At(line, i)) && At(line, i) != '<' && At(line, i) != '>' && At(line, i) != '('
    decreases |args|
  {
    hide ArgsOf, LegalWord, SkipWhite, Slice, Has, Join;
    if args == [] {
      NothingJoined(line, i, j);
      NoArgs(line, j, Exec(ws), argc);
      ws' := [];
      assert ws + [] == ws;
    } else if |args| == 1 {
      LastArg(line, i, j, args);
      SkipNone(line, j);
      OneArg(line, i, j, args[0], ws, argc);
      NoArgs(line, j, Exec(ws + [Word(i, j)]), argc + 1);
      ws' := [Word(i, j)];
    } else {
      var m := i + |args[0]|;
      SplitArgs(line, i, j, args);
      var w := Word(i, m);
      var tail := ArgsParsed(line, m + 1, j, args[1..], ws + [w], argc + 1);
      SkipOne(line, m);
      OneArg(line, i, m, args[0], ws, argc);
      ws' := [w] + tail;
      assert ws + [w] + tail == ws + ws';
    }
  }

  lemma {:induction false} NothingJoined(line: string, i: nat, j: nat)
    requires Has(line, i, j, Join([]))
    ensures i == j
  {
  }

  lemma {:induction false} LastArg(line: string, i: nat, j: nat, args: seq<string>)
    requires |args| == 1 && LegalWord(args[0]) && Has(line, i, j, Join(args))
    ensures Has(line, i, j, args[0]) && i < |line| && j <= |line| && WordChar(line[i])
  {
    FirstChar(line, i, args[0], Join(args), j);
  }

  lemma {:induction false} SplitArgs(line: string, i: nat, j: nat, args: seq<string>)
    requires |args| >= 2 && LegalWord(args[0]) && Has(line, i, j, Join(args))
    ensures var m := i + |args[0]|;
      && i < |line| && WordChar(line[i]) && Has(line, i, m, args[0]) && m < |line| && line[m] == ' ' && Has(line, m + 1,
            j, Join(args[1..]))
  {
    var m, rest := i + |args[0]|, " " + Join(args[1..]);
    assert Join(args) == args[0] + rest;
    FirstChar(line, i, args[0], Join(args), j);
    Part(line, i, j, args[0], rest);
    Part(line, m, j, " ", Join(args[1..]));
    assert line[m] == line[m..m + 1][0] == ' ';
  }

  lemma {:induction false} FirstChar(line: string, i: nat, w: string, s: string, j: nat)
    requires LegalWord(w) && Has(line, i, j, s) && w <= s
    ensures i < |line| && WordChar(line[i])
  {
    assert line[i] == line[i..j][0] == w[0];
  }

  lemma {:induction false} SymbolToken(line: string, k: nat)
    requires NoNul(line) && k < |line| && Symbol(line[k]) && line[k] != '>' && !White(At(line, k + 1))
    ensures TokenAt(line, k) == Token(line[k], k, k + 1, k + 1) && SkipWhite(line, k) == k
  {
    SkipNone(line, k);
    SkipNone(line, k + 1);
  }

  lemma {:induction false} OpToken(line: string, k: nat, m: Mode)
    requires NoNul(line) && Has(line, k, k + |Op(m)|, Op(m)) && WordChar(At(line, k + |Op(m)|))
    ensures TokenAt(line, k).next == k + |Op(m)| && ModeOf(TokenAt(line, k).kind) == m && SkipWhite(line, k) == k
    ensures k < |line| && (line[k] == '<' || line[k] == '>')
  {
    assert line[k] == line[k..k + |Op(m)|][0] == Op(m)[0];
    if m.Append? { assert line[k + 1] == line[k..k + 2][1] == '>'; }
    SkipNone(line, k);
    SkipNone(line, k + |Op(m)|);
  }

  /** A redirection read. */
  lemma {:induction false} OneRedir(line: string, k: nat, j: nat, m: Mode, f: string, cmd: Cmd<Word>)
    requires NoNul(line) && Has(line, k, k + |Op(m)|, Op(m)) && Has(line, k + |Op(m)|, j, f) && LegalWord(f)
    requires Closing(line, j)
    ensures RedirsOf(line, k, cmd) == Ok(Redir(cmd, Word(k + |Op(m)|, j), m), j)
    ensures Slice(line, Word(k + |Op(m)|, j)) == f
    ensures !White(At(line, k))
  {
    FirstChar(line, k + |Op(m)|, f, f, j);
    OpToken(line, k, m);
    WordToken(line, k + |Op(m)|, j, f);
    SkipNone(line, j);
    NoRedirs(line, j, Redir(cmd, Word(k + |Op(m)|, j), m));
    hide SkipWhite, TokenAt, Has, LegalWord, Op;
  }

  /** A bracketed line read: what follows is redirections. */
  lemma {:induction false} Bracketed(line: string, i: nat, j: nat, c: Cmd<Word>)
    requires NoNul(line) && i + 1 < j <= |line| && line[i] == '(' && line[j - 1] == ')' && !White(At(line, i + 1))
    requires !White(At(line, j))
    requires LineOf(line, i + 1) == Ok(c, j - 1)
    ensures ExecOf(line, i) == RedirsOf(line, j, c)
  {
    hide SkipWhite, TokenAt, LineOf, RedirsOf, ArgsOf, PipeOf, BlockOf;
    BracketedBlock(line, i, j, c);
    SkipNone(line, i);
  }

  lemma {:induction false} BracketedBlock(line: string, i: nat, j: nat, c: Cmd<Word>)
    requires NoNul(line) && i + 1 < j <= |line| && line[i] == '(' && line[j - 1] == ')' && !White(At(line, i + 1))
    requires !White(At(line, j))
    requires LineOf(line, i + 1) == Ok(c, j - 1)
    ensures BlockOf(line, i) == RedirsOf(line, j, c)
  {
    hide SkipWhite, TokenAt, LineOf, RedirsOf, ArgsOf, PipeOf, ExecOf;
    SymbolToken(line, i);
    SymbolToken(line, j - 1);
  }

  lemma {:induction false} PipeAlone(line: string, i: nat, j: nat, c: Cmd<Word>)
    requires NoNul(line) && i <= j <= |line| && ExecOf(line, i) == Ok(c, j) && At(line, j) != '|' && !White(At(line, j))
    ensures PipeOf(line, i) == Ok(c, j)
  {
    hide ExecOf, SkipWhite, TokenAt;
    SkipNone(line, j);
  }

  lemma {:induction false} LineAlone(line: string, i: nat, j: nat, c: Cmd<Word>)
    requires NoNul(line) && i <= j <= |line| && PipeOf(line, i) == Ok(c, j) && Closing(line, j)
    ensures LineOf(line, i) == Ok(c, j)
  {
    hide PipeOf, SkipWhite, BacksOf, TokenAt, ExecOf;
    SkipNone(line, j);
    NoBacks(line, j, c);
  }

  lemma {:induction false} PipePair(line: string, i: nat, k: nat, j: nat, l: Cmd<Word>, r: Cmd<Word>)
    requires NoNul(line) && i <= k < j <= |line| && line[k] == '|' && !White(At(line, k + 1))
    requires ExecOf(line, i) == Ok(l, k) && PipeOf(line, k + 1) == Ok(r, j)
    ensures PipeOf(line, i) == Ok(Pipe(l, r), j)
  {
    hide ExecOf, SkipWhite, TokenAt;
    SymbolToken(line, k);
  }

  lemma {:induction false} LinePair(line: string, i: nat, k: nat, j: nat, l: Cmd<Word>, r: Cmd<Word>)
    requires NoNul(line) && i <= k < j <= |line| && line[k] == ';' && !White(At(line, k + 1))
    requires PipeOf(line, i) == Ok(l, k) && LineOf(line, k + 1) == Ok(r, j)
    ensures LineOf(line, i) == Ok(List(l, r), j)
  {
    hide PipeOf, SkipWhite, TokenAt, BacksOf, ExecOf;
    SymbolToken(line, k);
    NoBacks(line, k, l);
  }

  lemma {:induction false} LineBack(line: string, i: nat, k: nat, c: Cmd<Word>)
    requires NoNul(line) && i <= k < |line| && line[k] == '&' && Closing(line, k + 1) && PipeOf(line, i) == Ok(c, k)
    ensures LineOf(line, i) == Ok(Back(c), k + 1)
  {
    hide PipeOf, SkipWhite, TokenAt, BacksOf, ExecOf;
    SkipNone(line, k + 1);
    OneBack(line, k, c);
  }

  lemma {:induction false} OneBack(line: string, k: nat, c: Cmd<Word>)
    requires NoNul(line) && k < |line| && line[k] == '&' && Closing(line, k + 1)
    ensures BacksOf(line, k, c) == Ok(Back(c), k + 1)
  {
    hide SkipWhite, TokenAt;
    SymbolToken(line, k);
    NoBacks(line, k + 1, Back(c));
  }

  lemma {:induction false} NoBacks(line: string, k: nat, c: Cmd<Word>)
    requires NoNul(line) && k <= |line| && !White(At(line, k)) && At(line, k) != '&'
    ensures BacksOf(line, k, c) == Ok(c, k)
  {
    SkipNone(line, k);
  }

  /** "(" p ")" rest, taken apart. */
  lemma {:induction false} Brackets(line: string, i: nat, j: nat, p: string, rest: string) returns (k: nat)
    requires Has(line, i, j, "(" + p + ")" + rest)
    ensures k == i + |p| + 2 <= j <= |line| && line[i] == '(' && line[k - 1] == ')' && Has(line, i + 1, k - 1, p)
    ensures Has(line, k, j, rest)
    ensures rest != "" ==> k < |line| && line[k] == rest[0]
  {
    k := i + |p| + 2;
    assert "(" + p + ")" + rest == "(" + (p + (")" + rest));
    Part(line, i, j, "(", p + (")" + rest));
    Part(line, i + 1, j, p, ")" + rest);
    Part(line, k - 1, j, ")", rest);
    assert line[i] == line[i..i + 1][0] && line[k - 1] == line[k - 1..k][0];
    if rest != "" { assert line[k] == line[k..j][0]; }
  }

  /** Parsing the text of a tree gives the tree back, wherever the text stands. */
  lemma {:induction false} PrintedParses(t: Cmd<string>, line: string, i: nat, j: nat) returns (c: Cmd<Word>)
    requires Legal(t) && NoNul(line) && Has(line, i, j, Print(t)) && Closing(line, j)
    ensures LineOf(line, i) == Ok(c, j) && Text(line, c) == t && !White(At(line, i))
    decreases t, 1
  {
    hide LineOf, PipeOf, ExecOf, RedirsOf, ArgsOf, SkipWhite, TokenAt, Has;
    match t {
      case Exec(args) => c := ExecParses(args, line, i, j);
      case Redir(d, f, m) => c := RedirParses(t, d, f, m, line, i, j);
      case Back(d) => c := BackParses(t, d, line, i, j);
      case Pipe(l, r) =>
        assert Print(t) == "(" + Print(l) + ")" + ("|" + ("(" + Print(r) + ")" + ""));
        var k, x, y := TwoParse(t, l, r, '|', line, i, j);
        PipeAlone(line, k + 1, j, y);
        PipePair(line, i, k, j, x, y);
        c := Pipe(x, y);
        LineAlone(line, i, j, c);
      case List(l, r) =>
        assert Print(t) == "(" + Print(l) + ")" + (";" + ("(" + Print(r) + ")" + ""));
        var k, x, y := TwoParse(t, l, r, ';', line, i, j);
        PipeAlone(line, i, k, x);
        PipeAlone(line, k + 1, j, y);
        LineAlone(line, k + 1, j, y);
        LinePair(line, i, k, j, x, y);
        c := List(x, y);
    }
  }

  lemma {:induction false} Single(line: string, k: nat, j: nat, c: char)
    requires Has(line, k, j, [c])
    ensures j == k + 1 && k < |line| && line[k] == c
  {
    assert line[k] == line[k..j][0];
  }

  lemma {:induction false} ExecParses(args: seq<string>, line: string, i: nat, j: nat) returns (c: Cmd<Word>)
    requires Legal(Exec(args)) && NoNul(line) && Has(line, i, j, Join(args)) && Closing(line, j)
    ensures LineOf(line, i) == Ok(c, j) && Text(line, c) == Exec(args) && !White(At(line, i))
  {
    hide ArgsOf, RedirsOf, SkipWhite, ExecOf, LineOf, PipeOf, TokenAt, Has, Join, LegalWord, Slice;
    HasBounds(line, i, j, Join(args));
    var ws := ArgsParsed(line, i, j, args, [], 0);
    assert [] + ws == ws;
    c := Exec(ws);
    NoRedirs(line, i, Exec([]));
    ExecAlone(line, i, j, c);
    PipeAlone(line, i, j, c);
    LineAlone(line, i, j, c);
  }

  lemma {:induction false} HasBounds(line: string, i: nat, j: nat, s: string)
    requires Has(line, i, j, s)
    ensures i <= j <= |line|
  {
  }

  lemma {:induction false} ExecAlone(line: string, i: nat, j: nat, c: Cmd<Word>)
    requires NoNul(line) && i <= j <= |line| && !White(At(line, i)) && At(line, i) != '('
    requires RedirsOf(line, i, Exec([])) == Ok(Exec([]), i) && ArgsOf(line, i, Exec([]), 0) == Ok(c, j)
    ensures ExecOf(line, i) == Ok(c, j)
  {
    SkipNone(line, i);
    hide ArgsOf, RedirsOf, SkipWhite;
  }

  lemma {:induction false} RedirParses(t: Cmd<string>, d: Cmd<string>, f: string, m: Mode, line: string, i: nat,
                                       j: nat) returns (c: Cmd<Word>)
    requires t == Redir(d, f, m) && Legal(t) && NoNul(line) && Has(line, i, j, Print(t)) && Closing(line, j)
    ensures LineOf(line, i) == Ok(c, j) && Text(line, c) == t && !White(At(line, i))
    decreases t, 0
  {
    hide LineOf, PipeOf, ExecOf, RedirsOf, SkipWhite, TokenAt, Has, LegalWord, Slice;
    assert Print(t) == "(" + Print(d) + ")" + (Op(m) + f);
    var k := Brackets(line, i, j, Print(d), Op(m) + f);
    var e := PrintedParses(d, line, i + 1, k - 1);
    Part(line, k, j, Op(m), f);
    OneRedir(line, k, j, m, f, e);
    Bracketed(line, i, k, e);
    c := Redir(e, Word(k + |Op(m)|, j), m);
    PipeAlone(line, i, j, c);
    LineAlone(line, i, j, c);
  }

  lemma {:induction false} BackParses(t: Cmd<string>, d: Cmd<string>, line: string, i: nat, j: nat)
    returns (c: Cmd<Word>)
    requires t == Back(d) && Legal(t) && NoNul(line) && Has(line, i, j, Print(t)) && Closing(line, j)
    ensures LineOf(line, i) == Ok(c, j) && Text(line, c) == t && !White(At(line, i))
    decreases t, 0
  {
    hide LineOf, PipeOf, ExecOf, RedirsOf, SkipWhite, TokenAt, Has;
    assert Print(t) == "(" + Print(d) + ")" + "&";
    var k := Brackets(line, i, j, Print(d), "&");
    var e := PrintedParses(d, line, i + 1, k - 1);
    Single(line, k, j, '&');
    NoRedirs(line, k, e);
    Bracketed(line, i, k, e);
    PipeAlone(line, i, k, e);
    LineBack(line, i, k, e);
    c := Back(e);
  }

  /** Two bracketed lines with a symbol between. */
  lemma {:induction false} TwoParse(t: Cmd<string>, l: Cmd<string>, r: Cmd<string>, op: char, line: string, i: nat,
                                    j: nat)
    returns (k: nat, x: Cmd<Word>, y: Cmd<Word>)
    requires Legal(t) && (t == Pipe(l, r) || t == List(l, r)) && NoNul(line) && Closing(line, j)
    requires (op == '|' || op == ';')
    requires Has(line, i, j, "(" + Print(l) + ")" + ([op] + ("(" + Print(r) + ")" + "")))
    ensures i < k < j - 1 <= |line| - 1 && line[k] == op && line[i] == '(' && line[k + 1] == '('
    ensures ExecOf(line, i) == Ok(x, k) && ExecOf(line, k + 1) == Ok(y, j) && Text(line, x) == l && Text(line, y) == r
    decreases t, 0
  {
    hide LineOf, ExecOf, RedirsOf, SkipWhite, TokenAt, Has, Text, Print;
    k := Brackets(line, i, j, Print(l), [op] + ("(" + Print(r) + ")" + ""));
    Part(line, k, j, [op], "(" + Print(r) + ")" + "");
    var e := Brackets(line, k + 1, j, Print(r), "");
    EmptyRest(line, e, j);
    x := PrintedParses(l, line, i + 1, k - 1);
    y := PrintedParses(r, line, k + 2, j - 1);
    NoRedirs(line, k, x);
    NoRedirs(line, j, y);
    Bracketed(line, i, k, x);
    Bracketed(line, k + 1, j, y);
  }

  lemma {:induction false} EmptyRest(line: string, e: nat, j: nat)
    requires Has(line, e, j, "")
    ensures e == j
  {
  }

  lemma {:induction false} JoinNoNul(args: seq<string>)
    requires forall k :: 0 <= k < |args| ==> LegalWord(args[k])
    ensures NoNul(Join(args))
    decreases |args|
  {
    if |args| >= 2 { JoinNoNul(args[1..]); }
  }

  lemma {:induction false} PrintNoNul(t: Cmd<string>)
    requires Legal(t)
    ensures NoNul(Print(t))
  {
    match t
    case Exec(args) => JoinNoNul(args);
    case Redir(c, _, _) => PrintNoNul(c);
    case Pipe(l, r) => PrintNoNul(l); PrintNoNul(r);
    case List(l, r) => PrintNoNul(l); PrintNoNul(r);
    case Back(c) => PrintNoNul(c);
  }

  /** Round trip: a legal tree is what parsecmd makes of its text. */
  lemma {:induction false} RoundTrip(t: Cmd<string>)
    requires Legal(t)
    ensures NoNul(Print(t)) && CommandOf(Print(t)).Ok? && Text(Print(t), CommandOf(Print(t)).cmd) == t
  {
    PrintNoNul(t);
    var line := Print(t);
    assert line[0..|line|] == line;
    var c := PrintedParses(t, line, 0, |line|);
    SkipNone(line, |line|);
  }

  // ----- nulterminate

  /** A word of the line, as long as it can be. */
  ghost predicate WordOk(line: string, w: Word) {
    w.lo < w.hi <= |line| && (forall k :: w.lo <= k < w.hi ==> WordChar(line[k])) && !WordChar(At(line, w.hi))
  }

  function Words(c: Cmd<Word>): seq<Word> {
    match c
    case Exec(args) => args
    case Redir(d, f, _) => Words(d) + [f]
    case Pipe(l, r) => Words(l) + Words(r)
    case List(l, r) => Words(l) + Words(r)
    case Back(d) => Words(d)
  }

  ghost predicate AllOk(line: string, c: Cmd<Word>) { forall w :: w in Words(c) ==> WordOk(line, w) }

  lemma {:induction false} AddArgWords(line: string, c: Cmd<Word>, w: Word)
    requires AllOk(line, c) && WordOk(line, w)
    ensures AllOk(line, AddArg(c, w))
  {
    match c
    case Redir(d, f, m) =>
      assert forall x :: x in Words(d) ==> x in Words(c);
      assert f in Words(c);
      AddArgWords(line, d, w);
    case _ =>
  }

  lemma {:induction false} RedirsWords(line: string, i: nat, cmd: Cmd<Word>)
    requires i <= |line| && NoNul(line) && AllOk(line, cmd)
    ensures RedirsOf(line, i, cmd).Ok? ==> AllOk(line, RedirsOf(line, i, cmd).cmd)
    decreases |line| - i
  {
    var s := SkipWhite(line, i);
    if At(line, s) == '<' || At(line, s) == '>' {
      var t := TokenAt(line, s);
      var f := TokenAt(line, t.next);
      if f.kind == 'a' {
        RedirsWords(line, f.next, Redir(cmd, Word(f.lo, f.hi), ModeOf(t.kind)));
      }
    }
  }

  lemma {:induction false} ArgsWords(line: string, i: nat, cmd: Cmd<Word>, argc: nat)
    requires i <= |line| && NoNul(line) && AllOk(line, cmd)
    ensures ArgsOf(line, i, cmd, argc).Ok? ==> AllOk(line, ArgsOf(line, i, cmd, argc).cmd)
    decreases |line| - i
  {
    hide AllOk, RedirsOf, SkipWhite, TokenAt, WordEnd;
    var s := SkipWhite(line, i);
    if !Stop(At(line, s)) {
      var t := TokenAt(line, s);
      if t.kind == 'a' && argc + 1 < MAXARGS {
        var w := Word(t.lo, t.hi);
        AddArgWords(line, cmd, w);
        RedirsWords(line, t.next, AddArg(cmd, w));
        var r := RedirsOf(line, t.next, AddArg(cmd, w));
        if r.Ok? { ArgsWords(line, r.next, r.cmd, argc + 1); }
      }
    }
  }

  lemma {:induction false} ExecWords(line: string, i: nat)
    requires i <= |line| && NoNul(line)
    ensures ExecOf(line, i).Ok? ==> AllOk(line, ExecOf(line, i).cmd)
    decreases |line| - i, 1
  {
    var s := SkipWhite(line, i);
    if At(line, s) == '(' {
      LineWords(line, TokenAt(line, s).next);
      var r := LineOf(line, TokenAt(line, s).next);
      if r.Ok? && At(line, SkipWhite(line, r.next)) == ')' {
        RedirsWords(line, TokenAt(line, SkipWhite(line, r.next)).next, r.cmd);
      }
      hide AllOk, RedirsOf, LineOf;
    } else {
      var r := RedirsOf(line, s, Exec([]));
      RedirsWords(line, s, Exec([]));
      if r.Ok? { ArgsWords(line, r.next, r.cmd, 0); }
    }
  }

  lemma {:induction false} PipeWords(line: string, i: nat)
    requires i <= |line| && NoNul(line)
    ensures PipeOf(line, i).Ok? ==> AllOk(line, PipeOf(line, i).cmd)
    decreases |line| - i, 2
  {
    ExecWords(line, i);
    var r := ExecOf(line, i);
    if r.Ok? && At(line, SkipWhite(line, r.next)) == '|' {
      PipeWords(line, TokenAt(line, SkipWhite(line, r.next)).next);
    }
  }

  lemma {:induction false} BacksWords(line: string, i: nat, cmd: Cmd<Word>)
    requires i <= |line| && NoNul(line) && AllOk(line, cmd)
    ensures AllOk(line, BacksOf(line, i, cmd).cmd)
    decreases |line| - i
  {
    var s := SkipWhite(line, i);
    if At(line, s) == '&' { BacksWords(line, TokenAt(line, s).next, Back(cmd)); }
  }

  /** Every word of a parsed command is a word of the line. */
  lemma {:induction false} LineWords(line: string, i: nat)
    requires i <= |line| && NoNul(line)
    ensures LineOf(line, i).Ok? ==> AllOk(line, LineOf(line, i).cmd)
    decreases |line| - i, 3
  {
    PipeWords(line, i);
    var p := PipeOf(line, i);
    if p.Ok? {
      BacksWords(line, p.next, p.cmd);
      var r := BacksOf(line, p.next, p.cmd);
      var s := SkipWhite(line, r.next);
      if At(line, s) == ';' { LineWords(line, TokenAt(line, s).next); }
    }
  }

  /** The bytes where words end. */
  ghost function Ends(c: Cmd<Word>): set<nat> { set w | w in Words(c) :: w.hi }

  /** nulterminate: a NUL goes where a word ends, and nowhere else. */
  method NulTerminate(c: Cmd<Word>, buf: array<char>)
    requires forall w :: w in Words(c) ==> w.hi < buf.Length
    modifies buf
    ensures forall k :: 0 <= k < buf.Length ==> buf[k] == if k in Ends(c) then '\0' else old(buf[k])
    decreases c
  {
    match c {
      case Exec(args) =>
        var i := 0;
        while i < |args|
          invariant 0 <= i <= |args|
          invariant forall k :: 0 <= k < buf.Length ==> buf[k] == if HiIn(k, args[..i]) then '\0' else old(buf[k])
        {
          assert args[..i + 1] == args[..i] + [args[i]];
          buf[args[i].hi] := '\0';
          i := i + 1;
        }
        assert args[..i] == args;
      case Redir(d, f, _) =>
        NulTerminate(d, buf);
        buf[f.hi] := '\0';
      case Pipe(l, r) =>
        NulTerminate(l, buf);
        NulTerminate(r, buf);
      case List(l, r) =>
        NulTerminate(l, buf);
        NulTerminate(r, buf);
      case Back(d) =>
        NulTerminate(d, buf);
    }
  }

  ghost predicate HiIn(k: int, ws: seq<Word>) { exists w :: w in ws && w.hi == k }

  /** The string that a C pointer to lo reads. */
  function CString(s: string, lo: nat): string
    decreases |s| - lo
  {
    if lo >= |s| || s[lo] == '\0' then "" else [s[lo]] + CString(s, lo + 1)
  }

  lemma {:induction false} CStringIs(s: string, lo: nat, hi: nat)
    requires lo <= hi < |s| && s[hi] == '\0' && forall k :: lo <= k < hi ==> s[k] != '\0'
    ensures CString(s, lo) == s[lo..hi]
    decreases hi - lo
  {
    if lo < hi {
      CStringIs(s, lo + 1, hi);
      assert s[lo..hi] == [s[lo]] + s[lo + 1..hi];
    }
  }

  /** No word ends inside another. */
  lemma {:induction false} NoEnd(line: string, c: Cmd<Word>, k: nat)
    requires AllOk(line, c) && k < |line| && WordChar(line[k])
    ensures k !in Ends(c)
  {
    forall w | w in Words(c) ensures w.hi != k {
      assert WordOk(line, w);
    }
  }

  /** After nulterminate each word is exactly its token. */
  lemma {:induction false} CutWords(line: string, buf: string, c: Cmd<Word>)
    requires AllOk(line, c) && NoNul(line) && |buf| == |line| + 1
    requires forall k :: 0 <= k <= |line| ==> buf[k] == if k in Ends(c) then '\0' else At(line, k)
    ensures forall w :: w in Words(c) ==> CString(buf, w.lo) == Slice(line, w)
  {
    forall w | w in Words(c) ensures CString(buf, w.lo) == Slice(line, w) {
      assert w.hi in Ends(c) && WordOk(line, w);
      forall k | w.lo <= k < w.hi ensures buf[k] == line[k] {
        NoEnd(line, c, k);
      }
      CStringIs(buf, w.lo, w.hi);
      assert buf[w.lo..w.hi] == line[w.lo..w.hi];
    }
  }

  /** parsecmd on the line held in buf. */
  method ParseCommand(line: string, buf: array<char>) returns (r: Result)
    requires NoNul(line) && buf.Length == |line| + 1 && buf[..] == line + ['\0']
    modifies buf
    ensures r == CommandOf(line) && (r.Panic? ==> buf[..] == old(buf[..]))
    ensures r.Ok? ==> forall w :: w in Words(r.cmd) ==> CString(buf[..], w.lo) == Slice(line, w)
    ensures r.Ok? ==> forall k :: 0 <= k < |line| && WordChar(line[k]) ==> buf[k] == line[k]
  {
    r := ParseCmd(line);
    if r.Ok? {
      LineWords(line, 0);
      assert AllOk(line, r.cmd);
      NulTerminate(r.cmd, buf);
      CutWords(line, buf[..], r.cmd);
      forall k | 0 <= k < |line| && WordChar(line[k]) ensures buf[k] == line[k] {
        NoEnd(line, r.cmd, k);
      }
    }
  }
}
