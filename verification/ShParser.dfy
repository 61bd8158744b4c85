/**
 The parser of user/sh.c as it works: a cursor that is advanced over the line, with loops
 for white space, words, redirections, arguments and & signs. A panic() ends the parse.
 */
module ShParser {
  import opened ShGrammar
  import opened ShWords

  method SkipSpaces(s: string, i: nat) returns (j: nat)
    requires i <= |s|
    ensures j == Skip(s, i)
  {
    j := i;
    while j < |s| && Space(s[j])
      invariant i <= j <= |s| && Skip(s, j) == Skip(s, i)
    {
      j := j + 1;
    }
  }

  method NextToken(s: string, i: nat) returns (t: Token)
    requires i <= |s|
    ensures t == GetToken(s, i)
  {
    var q := SkipSpaces(s, i);
    var j := q;
    var kind := End;
    if q < |s| {
      kind := s[q];
      if kind == '|' || kind == '(' || kind == ')' || kind == ';' || kind == '&' || kind == '<' {
        j := q + 1;
      } else if kind == '>' {
        j := q + 1;
        if j < |s| && s[j] == '>' {
          kind := '+';
          j := j + 1;
        }
      } else {
        kind := 'a';
        while j < |s| && !Space(s[j]) && !Symbol(s[j])
          invariant q <= j <= |s| && WordEnd(s, j) == WordEnd(s, q)
        {
          j := j + 1;
        }
      }
    }
    var pos := SkipSpaces(s, j);
    return Token(kind, Span(q, j), pos);
  }

  /** peek(): the cursor moves over white space. */
  method PeekFor(s: string, i: nat, toks: set<char>) returns (found: bool, j: nat)
    requires i <= |s|
    ensures found == Peek(s, i, toks) && j == Skip(s, i)
  {
    j := SkipSpaces(s, i);
    found := j < |s| && s[j] in toks;
  }

  lemma SkipTwice(s: string, i: nat)
    requires i <= |s|
    ensures Skip(s, Skip(s, i)) == Skip(s, i) && GetToken(s, Skip(s, i)) == GetToken(s, i)
    ensures forall toks :: Peek(s, Skip(s, i), toks) == Peek(s, i, toks)
  {
  }

  /** The redirections rs and those of r. */
  function After(rs: seq<Redirection>, r: Result<seq<Redirection>>): Result<seq<Redirection>> {
    match r case Panic => Panic case Ok(more, j) => Ok(rs + more, j)
  }

  /** parseredirs() */
  method ParseRedirections(s: string, i: nat, cmd: Cmd) returns (r: Result<Cmd>, rs: seq<Redirection>)
    requires i <= |s|
    ensures r == Wrapped(cmd, Redirs(s, i)) && (r.Ok? ==> rs == Redirs(s, i).value)
  {
    hide Redirs, GetToken, Skip, Peek, Wrap;
    var c := cmd;
    rs := [];
    WrapAll(cmd);
    RedirsStart(s, i);
    var found, j := PeekFor(s, i, {'<', '>'});
    while found
      invariant i <= j <= |s| && found == Peek(s, j, {'<', '>'}) && Skip(s, j) == j
      invariant c == Wrap(cmd, rs) && Redirs(s, i) == After(rs, Redirs(s, j))
      decreases |s| - j
    {
      var op := NextToken(s, j);
      var file := NextToken(s, op.pos);
      RedirsStep(s, j, rs);
      if file.kind != 'a' {
        return Panic, rs;
      }
      c := Redir(c, file.span, if op.kind == '<' then Read else if op.kind == '>' then Write else Append);
      WrapLast(cmd, rs, Redirection(file.span, ModeOf(op.kind)));
      RedirsStart(s, file.pos);
      rs := rs + [Redirection(file.span, ModeOf(op.kind))];
      found, j := PeekFor(s, file.pos, {'<', '>'});
    }
    RedirsStep(s, j, rs);
    return Ok(c, j), rs;
  }

  lemma RedirsStart(s: string, i: nat)
    requires i <= |s|
    ensures Skip(s, Skip(s, i)) == Skip(s, i) && Peek(s, Skip(s, i), {'<', '>'}) == Peek(s, i, {'<', '>'})
    ensures Redirs(s, Skip(s, i)) == Redirs(s, i) && After([], Redirs(s, i)) == Redirs(s, i)
  {
    SkipTwice(s, i);
    if Redirs(s, i).Ok? { assert [] + Redirs(s, i).value == Redirs(s, i).value; }
  }

  lemma RedirToken(s: string, j: nat)
    requires j <= |s| && Peek(s, j, {'<', '>'})
    ensures GetToken(s, j).kind in {'<', '>', '+'} && GetToken(s, j).pos > j
  {
  }

  lemma RedirsStep(s: string, j: nat, rs: seq<Redirection>)
    requires j <= |s|
    ensures !Peek(s, j, {'<', '>'}) ==> After(rs, Redirs(s, j)) == Ok(rs, Skip(s, j))
    ensures Peek(s, j, {'<', '>'}) ==>
      var op := GetToken(s, j);
      var file := GetToken(s, op.pos);
      && op.kind in {'<', '>', '+'} && op.pos > j
      && After(rs, Redirs(s, j)) == if file.kind != 'a' then Panic
                                    else After(rs + [Redirection(file.span, ModeOf(op.kind))], Redirs(s, file.pos))
  {
    hide GetToken, Skip, Peek;
    if Peek(s, j, {'<', '>'}) {
      RedirToken(s, j);
      var op := GetToken(s, j);
      var file := GetToken(s, op.pos);
      if file.kind == 'a' && Redirs(s, file.pos).Ok? {
        var x, m := Redirection(file.span, ModeOf(op.kind)), Redirs(s, file.pos).value;
        assert rs + ([x] + m) == rs + [x] + m;
      }
    } else {
      assert rs + [] == rs;
    }
  }

  lemma WrapAll(cmd: Cmd)
    ensures Wrap(cmd, []) == cmd
  {
  }

  lemma {:induction false} WrapLast(cmd: Cmd, rs: seq<Redirection>, r: Redirection)
    ensures Wrap(cmd, rs + [r]) == Redir(Wrap(cmd, rs), r.file, r.mode)
    decreases |rs|
  {
    if rs != [] {
      assert (rs + [r])[1..] == rs[1..] + [r];
      WrapLast(Redir(cmd, rs[0].file, rs[0].mode), rs[1..], r);
    }
  }

  /** The words ws and redirections rs, and those of r. */
  function Further(ws: seq<Span>, rs: seq<Redirection>, r: Result<(seq<Span>, seq<Redirection>)>)
    : Result<(seq<Span>, seq<Redirection>)>
  {
    match r case Panic => Panic case Ok((ws', rs'), j) => Ok((ws + ws', rs + rs'), j)
  }

  const STOP: set<char> := {'|', ')', '&', ';'}

  lemma WordsStart(s: string, i: nat)
    requires i <= |s|
    ensures Skip(s, Skip(s, i)) == Skip(s, i) && Peek(s, Skip(s, i), STOP) == Peek(s, i, STOP)
    ensures forall n :: Words(s, Skip(s, i), n) == Words(s, i, n)
  {
  }

  lemma WordsStep(s: string, j: nat, ws: seq<Span>, rs: seq<Redirection>)
    requires j <= |s|
    ensures var all, t := Further(ws, rs, Words(s, j, |ws|)), GetToken(s, j);
      if Peek(s, j, STOP) then all == Ok((ws, rs), Skip(s, j))
      else if t.kind == End then all == Ok((ws, rs), t.pos)
      else if t.kind != 'a' || |ws| + 1 >= MAXARGS then all == Panic
      else match Redirs(s, t.pos)
        case Panic => all == Panic
        case Ok(more, k) => k > j && all == Further(ws + [t.span], rs + more, Words(s, k, |ws| + 1))
  {
    hide GetToken, Skip, Peek, Redirs;
    var t := GetToken(s, j);
    if Peek(s, j, STOP) || t.kind == End {
      assert ws + [] == ws && rs + [] == rs;
    } else if t.kind == 'a' && |ws| + 1 < MAXARGS && Redirs(s, t.pos).Ok? {
      var more, k := Redirs(s, t.pos).value, Redirs(s, t.pos).pos;
      if Words(s, k, |ws| + 1).Ok? {
        var (ws', rs') := Words(s, k, |ws| + 1).value;
        assert ws + ([t.span] + ws') == ws + [t.span] + ws';
        assert rs + (more + rs') == rs + more + rs';
      }
    }
  }

  /** The loop of parseexec(), after the redirections rs that come first. */
  method ParseWords(s: string, i: nat, rs: seq<Redirection>) returns (r: Result<(seq<Span>, seq<Redirection>)>)
    requires i <= |s|
    ensures r == Further([], rs, Words(s, i, 0))
  {
    hide Words, Redirs, GetToken, Skip, Peek, Wrap;
    var argv := new Span[MAXARGS](_ => Span(0, 0));
    var argc, redirs := 0, rs;
    WordsStart(s, i);
    var found, j := PeekFor(s, i, STOP);
    assert argv[..0] == [];
    while !found
      invariant i <= j <= |s| && argc < MAXARGS && found == Peek(s, j, STOP) && Skip(s, j) == j
      invariant Further([], rs, Words(s, i, 0)) == Further(argv[..argc], redirs, Words(s, j, argc))
      decreases |s| - j
    {
      WordsStep(s, j, argv[..argc], redirs);
      var t := NextToken(s, j);
      if t.kind == End {
        return Ok((argv[..argc], redirs), t.pos);
      }
      if t.kind != 'a' {
        return Panic;
      }
      argv[argc] := t.span;
      argc := argc + 1;
      if argc >= MAXARGS {
        return Panic;
      }
      var c, more := ParseRedirections(s, t.pos, Exec([]));
      if c.Panic? {
        return Panic;
      }
      assert argv[..argc] == argv[..argc - 1] + [t.span];
      redirs := redirs + more;
      WordsStart(s, c.pos);
      found, j := PeekFor(s, c.pos, STOP);
    }
    WordsStep(s, j, argv[..argc], redirs);
    return Ok((argv[..argc], redirs), j);
  }

  /** parseexec() */
  method ParseExecCmd(s: string, i: nat) returns (r: Result<Cmd>)
    requires i <= |s|
    ensures r == ParseExec(s, i)
    decreases |s| - i, 1
  {
    hide Words, Redirs, GetToken, Skip, Wrap;
    var block, j := PeekFor(s, i, {'('});
    if block {
      r := ParseBlockCmd(s, i);
      return;
    }
    var c, rs := ParseRedirections(s, i, Exec([]));
    if c.Panic? {
      return Panic;
    }
    var w := ParseWords(s, c.pos, rs);
    if w.Panic? {
      return Panic;
    }
    assert [] + Words(s, c.pos, 0).value.0 == Words(s, c.pos, 0).value.0;
    return Ok(Wrap(Exec(w.value.0), w.value.1), w.pos);
  }

  /** parseblock() */
  method ParseBlockCmd(s: string, i: nat) returns (r: Result<Cmd>)
    requires i <= |s|
    ensures r == ParseBlock(s, i)
    decreases |s| - i, 0
  {
    hide Words, Redirs, GetToken, Skip, Wrap, ParseLine;
    var found, j := PeekFor(s, i, {'('});
    if !found {
      return Panic;
    }
    var t := NextToken(s, i);
    PeekToken(s, i, {'('});
    var line := ParseLineCmd(s, t.pos);
    if line.Panic? {
      return Panic;
    }
    found, j := PeekFor(s, line.pos, {')'});
    if !found {
      return Panic;
    }
    t := NextToken(s, line.pos);
    var rs;
    r, rs := ParseRedirections(s, t.pos, line.value);
  }

  lemma PeekToken(s: string, i: nat, toks: set<char>)
    requires i <= |s| && Peek(s, i, toks)
    ensures GetToken(s, i).pos > i
  {
  }

  /** parsepipe() */
  method ParsePipeCmd(s: string, i: nat) returns (r: Result<Cmd>)
    requires i <= |s|
    ensures r == ParsePipe(s, i)
    decreases |s| - i, 2
  {
    hide GetToken, Skip, ParseExec;
    r := ParseExecCmd(s, i);
    if r.Panic? {
      return;
    }
    var found, j := PeekFor(s, r.pos, {'|'});
    if !found {
      return Ok(r.value, j);
    }
    PeekToken(s, r.pos, {'|'});
    var t := NextToken(s, r.pos);
    var right := ParsePipeCmd(s, t.pos);
    if right.Panic? {
      return Panic;
    }
    return Ok(Pipe(r.value, right.value), right.pos);
  }

  /** parseline() */
  method ParseLineCmd(s: string, i: nat) returns (r: Result<Cmd>)
    requires i <= |s|
    ensures r == ParseLine(s, i)
    decreases |s| - i, 3
  {
    hide GetToken, Skip, ParsePipe;
    var p := ParsePipeCmd(s, i);
    if p.Panic? {
      return Panic;
    }
    var cmd := p.value;
    var found, j := PeekFor(s, p.pos, {'&'});
    BacksSkip(s, p.pos, cmd);
    while found
      invariant p.pos <= j <= |s| && Skip(s, j) == j && found == Peek(s, j, {'&'})
      invariant Backs(s, p.pos, p.value) == Backs(s, j, cmd)
      decreases |s| - j
    {
      PeekToken(s, j, {'&'});
      var t := NextToken(s, j);
      cmd := Back(cmd);
      BacksSkip(s, t.pos, cmd);
      found, j := PeekFor(s, t.pos, {'&'});
    }
    found, j := PeekFor(s, j, {';'});
    if !found {
      return Ok(cmd, j);
    }
    PeekToken(s, j, {';'});
    var t := NextToken(s, j);
    var right := ParseLineCmd(s, t.pos);
    if right.Panic? {
      return Panic;
    }
    return Ok(List(cmd, right.value), right.pos);
  }

  lemma BacksSkip(s: string, i: nat, cmd: Cmd)
    requires i <= |s|
    ensures Backs(s, Skip(s, i), cmd) == Backs(s, i, cmd) && Skip(s, Skip(s, i)) == Skip(s, i)
    ensures Peek(s, Skip(s, i), {'&'}) == Peek(s, i, {'&'})
  {
  }

  /** parsecmd(), up to nulterminate() */
  method Parse(s: string) returns (r: Result<Cmd>)
    ensures r == ParseCmd(s)
  {
    r := ParseLineCmd(s, 0);
    if r.Panic? {
      return;
    }
    var _, j := PeekFor(s, r.pos, {});
    if j != |s| {
      return Panic;
    }
    return Ok(r.value, j);
  }

  /** parsecmd() on the line in place: it panics exactly when the grammar says so, and otherwise
      every word of the command is left as a string of its own. */
  method ParseAndTerminate(buf: array<char>, ghost s: string) returns (r: Result<Cmd>)
    requires buf[..] == s + ['\0'] && '\0' !in s
    modifies buf
    ensures r == ParseCmd(s)
    ensures if r.Panic? then buf[..] == s + ['\0'] else Terminated(s, buf[..], Spans(r.value))
    ensures r.Ok? ==> forall w :: w in Spans(r.value) ==> w.q < w.eq <= |s| && StringAt(buf[..], w.q, s[w.q..w.eq])
  {
    hide ParseCmd, Spans, StringAt, SpanOk;
    var line := buf[..buf.Length - 1];
    assert line == s;
    r := Parse(line);
    if r.Panic? {
      return;
    }
    ParsedFits(s);
    NulTerminate(r.value, buf, s);
    assert Terminated(s, buf[..], Spans(r.value));
    forall w | w in Spans(r.value) ensures w.q < w.eq <= |s| && StringAt(buf[..], w.q, s[w.q..w.eq]) {
      WordsAreStrings(s, buf[..], r.value, w);
    }
  }

  lemma ParsedFits(s: string)
    requires ParseCmd(s).Ok?
    ensures AllOk(s, ParseCmd(s).value)
  {
    LineFits(s, 0);
  }
}
