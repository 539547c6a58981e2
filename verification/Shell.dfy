/** The parser of user/sh.c: recursive descent with a shared cursor. What each parse function returns is given
    by a function of the line and the cursor; the methods move the cursor as the source does. */
module Shell {
  import opened ShellLex

  const MAXARGS := 10

  /** A word as the parser keeps it: two places in the line. */
  datatype Word = Word(lo: nat, hi: nat)

  /** O_RDONLY on 0, O_WRONLY|O_CREATE|O_TRUNC on 1, O_WRONLY|O_CREATE on 1 */
  datatype Mode = In | Out | Append

  datatype Cmd<W> =
    | Exec(args: seq<W>)
    | Redir(cmd: Cmd<W>, file: W, mode: Mode)
    | Pipe(left: Cmd<W>, right: Cmd<W>)
    | List(left: Cmd<W>, right: Cmd<W>)
    | Back(cmd: Cmd<W>)

  datatype Result = Ok(cmd: Cmd<Word>, next: nat) | Panic(why: string)

  function ModeOf(kind: char): Mode { if kind == '<' then In else if kind == '>' then Out else Append }

  /** An argument is added to the command that the redirections read so far are wrapped around. */
  function AddArg(cmd: Cmd<Word>, w: Word): Cmd<Word> {
    match cmd
    case Exec(args) => Exec(args + [w])
    case Redir(c, f, m) => Redir(AddArg(c, w), f, m)
    case _ => cmd
  }

  // ----- what the parse functions return

  ghost predicate Within(r: Result, i: nat, line: string) { r.Ok? ==> i <= r.next <= |line| }

  ghost function RedirsOf(line: string, i: nat, cmd: Cmd<Word>): (r: Result)
    requires i <= |line| && NoNul(line)
    ensures Within(r, i, line)
    decreases |line| - i
  {
    var s := SkipWhite(line, i);
    if At(line, s) == '<' || At(line, s) == '>' then
      var t := TokenAt(line, s);
      var f := TokenAt(line, t.next);
      if f.kind != 'a' then Panic("missing file for redirection")
      else RedirsOf(line, f.next, Redir(cmd, Word(f.lo, f.hi), ModeOf(t.kind)))
    else Ok(cmd, s)
  }

  ghost predicate Stop(c: char) { c == '|' || c == ')' || c == '&' || c == ';' }

  ghost function ArgsOf(line: string, i: nat, cmd: Cmd<Word>, argc: nat): (r: Result)
    requires i <= |line| && NoNul(line)
    ensures Within(r, i, line)
    decreases |line| - i
  {
    var s := SkipWhite(line, i);
    if Stop(At(line, s)) then Ok(cmd, s)
    else
      var t := TokenAt(line, s);
      if t.kind == '\0' then Ok(cmd, t.next)
      else if t.kind != 'a' then Panic("syntax")
      else if argc + 1 >= MAXARGS then Panic("too many args")
      else
        var r := RedirsOf(line, t.next, AddArg(cmd, Word(t.lo, t.hi)));
        if r.Panic? then r else ArgsOf(line, r.next, r.cmd, argc + 1)
  }

  ghost function ExecOf(line: string, i: nat): (r: Result)
    requires i <= |line| && NoNul(line)
    ensures Within(r, i, line)
    decreases |line| - i, 1
  {
    var s := SkipWhite(line, i);
    if At(line, s) == '(' then BlockOf(line, s)
    else
      var r := RedirsOf(line, s, Exec([]));
      if r.Panic? then r else ArgsOf(line, r.next, r.cmd, 0)
  }

  ghost function BlockOf(line: string, i: nat): (r: Result)
    requires i < |line| && NoNul(line) && line[i] == '('
    ensures Within(r, i, line)
    decreases |line| - i, 0
  {
    var r := LineOf(line, TokenAt(line, i).next);
    if r.Panic? then r
    else
      var s := SkipWhite(line, r.next);
      if At(line, s) != ')' then Panic("syntax - missing )") else RedirsOf(line, TokenAt(line, s).next, r.cmd)
  }

  ghost function PipeOf(line: string, i: nat): (r: Result)
    requires i <= |line| && NoNul(line)
    ensures Within(r, i, line)
    decreases |line| - i, 2
  {
    var r := ExecOf(line, i);
    if r.Panic? then r
    else
      var s := SkipWhite(line, r.next);
      if At(line, s) != '|' then Ok(r.cmd, s)
      else
        var q := PipeOf(line, TokenAt(line, s).next);
        if q.Panic? then q else Ok(Pipe(r.cmd, q.cmd), q.next)
  }

  ghost function BacksOf(line: string, i: nat, cmd: Cmd<Word>): (r: Result)
    requires i <= |line| && NoNul(line)
    ensures r.Ok? && i <= r.next <= |line|
    decreases |line| - i
  {
    var s := SkipWhite(line, i);
    if At(line, s) != '&' then Ok(cmd, s) else BacksOf(line, TokenAt(line, s).next, Back(cmd))
  }

  ghost function LineOf(line: string, i: nat): (r: Result)
    requires i <= |line| && NoNul(line)
    ensures Within(r, i, line)
    decreases |line| - i, 3
  {
    var p := PipeOf(line, i);
    if p.Panic? then p
    else
      var r := BacksOf(line, p.next, p.cmd);
      var s := SkipWhite(line, r.next);
      if At(line, s) != ';' then Ok(r.cmd, s)
      else
        var q := LineOf(line, TokenAt(line, s).next);
        if q.Panic? then q else Ok(List(r.cmd, q.cmd), q.next)
  }

  ghost function CommandOf(line: string): Result
    requires NoNul(line)
  {
    var r := LineOf(line, 0);
    if r.Panic? then r
    else if SkipWhite(line, r.next) != |line| then Panic("syntax") else Ok(r.cmd, |line|)
  }

  // ----- the parse functions

  method ParseRedirs(cmd: Cmd<Word>, line: string, i: nat) returns (r: Result)
    requires i <= |line| && NoNul(line)
    ensures r == RedirsOf(line, i, cmd)
  {
    var c, ps := cmd, i;
    while true
      invariant i <= ps <= |line| && RedirsOf(line, ps, c) == RedirsOf(line, i, cmd)
      decreases |line| - ps
    {
      var found;
      ghost var was := ps;
      ps, found := Peek(line, ps, "<>");
      if !found {
        return Ok(c, ps);
      }
      var tok := GetToken(line, ps);
      var f := GetToken(line, tok.next);
      if f.kind != 'a' {
        return Panic("missing file for redirection");
      }
      c, ps := Redir(c, Word(f.lo, f.hi), ModeOf(tok.kind)), f.next;
    }
  }

  method ParseExec(line: string, i: nat) returns (r: Result)
    requires i <= |line| && NoNul(line)
    ensures r == ExecOf(line, i)
    decreases |line| - i, 1
  {
    var ps, found := Peek(line, i, "(");
    if found {
      r := ParseBlock(line, ps);
      return;
    }
    var argc := 0;
    r := ParseRedirs(Exec([]), line, ps);
    if r.Panic? {
      return;
    }
    while true
      invariant r.Ok? && r.next <= |line| && argc < MAXARGS && ArgsOf(line, r.next, r.cmd, argc) == ExecOf(line, i)
      decreases |line| - r.next
    {
      ps, found := Peek(line, r.next, "|)&;");
      if found {
        return Ok(r.cmd, ps);
      }
      var tok := GetToken(line, ps);
      if tok.kind == '\0' {
        return Ok(r.cmd, tok.next);
      }
      if tok.kind != 'a' {
        return Panic("syntax");
      }
      var ret := AddArg(r.cmd, Word(tok.lo, tok.hi));
      argc := argc + 1;
      if argc >= MAXARGS {
        return Panic("too many args");
      }
      r := ParseRedirs(ret, line, tok.next);
      if r.Panic? {
        return;
      }
    }
  }

  method ParseBlock(line: string, i: nat) returns (r: Result)
    requires i < |line| && NoNul(line) && line[i] == '('
    ensures r == BlockOf(line, i)
    decreases |line| - i, 0
  {
    var tok := GetToken(line, i);
    r := ParseLine(line, tok.next);
    if r.Panic? {
      return;
    }
    var ps, found := Peek(line, r.next, ")");
    if !found {
      return Panic("syntax - missing )");
    }
    tok := GetToken(line, ps);
    r := ParseRedirs(r.cmd, line, tok.next);
  }

  method ParsePipe(line: string, i: nat) returns (r: Result)
    requires i <= |line| && NoNul(line)
    ensures r == PipeOf(line, i)
    decreases |line| - i, 2
  {
    r := ParseExec(line, i);
    if r.Panic? {
      return;
    }
    var ps, found := Peek(line, r.next, "|");
    if !found {
      return Ok(r.cmd, ps);
    }
    var tok := GetToken(line, ps);
    var q := ParsePipe(line, tok.next);
    if q.Panic? {
      return q;
    }
    r := Ok(Pipe(r.cmd, q.cmd), q.next);
  }

  method ParseLine(line: string, i: nat) returns (r: Result)
    requires i <= |line| && NoNul(line)
    ensures r == LineOf(line, i)
    decreases |line| - i, 3
  {
    r := ParsePipe(line, i);
    if r.Panic? {
      return;
    }
    ghost var p := r;
    var cmd := r.cmd;
    var ps, found := Peek(line, r.next, "&");
    while found
      invariant i <= p.next <= ps <= |line| && SkipWhite(line, ps) == ps
      invariant BacksOf(line, ps, cmd) == BacksOf(line, p.next, p.cmd)
      invariant found <==> At(line, ps) == '&'
      decreases |line| - ps
    {
      var tok := GetToken(line, ps);
      cmd := Back(cmd);
      ps, found := Peek(line, tok.next, "&");
    }
    ps, found := Peek(line, ps, ";");
    if !found {
      return Ok(cmd, ps);
    }
    var tok := GetToken(line, ps);
    var q := ParseLine(line, tok.next);
    if q.Panic? {
      return q;
    }
    r := Ok(List(cmd, q.cmd), q.next);
  }

  /** parsecmd before nulterminate. */
  method ParseCmd(line: string) returns (r: Result)
    requires NoNul(line)
    ensures r == CommandOf(line)
  {
    r := ParseLine(line, 0);
    if r.Panic? {
      return;
    }
    var s, found := Peek(line, r.next, "");
    if s != |line| {
      return Panic("syntax");
    }
    r := Ok(r.cmd, s);
  }
}
