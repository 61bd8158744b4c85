/**
 What the parser of user/sh.c computes, as functions of the line and a position in it. Words
 are spans of the line, as the argv and eargv pointers are.
 */
module ShGrammar {
  const MAXARGS: nat := 10

  /** Characters q .. eq - 1 of the line. */
  datatype Span = Span(q: nat, eq: nat)

  datatype Mode = Read | Write | Append

  datatype Redirection = Redirection(file: Span, mode: Mode)

  datatype Cmd =
    | Exec(argv: seq<Span>)
    | Redir(cmd: Cmd, file: Span, mode: Mode)
    | Pipe(left: Cmd, right: Cmd)
    | List(left: Cmd, right: Cmd)
    | Back(cmd: Cmd)

  /** A value and the position after it, or a call of panic(). */
  datatype Result<T> = Ok(value: T, pos: nat) | Panic

  predicate Space(c: char) {
    c == ' ' || c == '\t' || c == '\r' || c == '\n' || c == '\U{0B}'
  }

  predicate Symbol(c: char) {
    c == '<' || c == '|' || c == '>' || c == '&' || c == ';' || c == '(' || c == ')'
  }

  /** A character that belongs to a word. */
  predicate Plain(c: char) {
    !Space(c) && !Symbol(c)
  }

  /** The first position from i on that is not white space. */
  function Skip(s: string, i: nat): (j: nat)
    requires i <= |s|
    ensures i <= j <= |s| && (j < |s| ==> !Space(s[j]))
    decreases |s| - i
  {
    if i < |s| && Space(s[i]) then Skip(s, i + 1) else i
  }

  function WordEnd(s: string, i: nat): (j: nat)
    requires i <= |s|
    ensures i <= j <= |s| && (j < |s| ==> !Plain(s[j])) && forall k :: i <= k < j ==> Plain(s[k])
    decreases |s| - i
  {
    if i < |s| && Plain(s[i]) then WordEnd(s, i + 1) else i
  }

  /** What gettoken() returns: 0 at the end, 'a' for a word, '+' for >>, or the symbol. */
  datatype Token = Token(kind: char, span: Span, pos: nat)

  const End: char := '\0'

  function GetToken(s: string, i: nat): (t: Token)
    requires i <= |s|
    ensures i <= t.span.q <= t.span.eq <= t.pos <= |s|
    ensures t.kind == End <==> Skip(s, i) == |s|
    ensures t.kind != End ==> t.pos > i
    ensures t.kind == 'a' ==> SpanOk(s, t.span)
  {
    var q := Skip(s, i);
    if q == |s| then Token(End, Span(q, q), q)
    else if s[q] == '>' && q + 1 < |s| && s[q + 1] == '>' then Token('+', Span(q, q + 2), Skip(s, q + 2))
    else if Symbol(s[q]) then Token(s[q], Span(q, q + 1), Skip(s, q + 1))
    else Token('a', Span(q, WordEnd(s, q)), Skip(s, WordEnd(s, q)))
  }

  /** A whole word of the line. */
  predicate SpanOk(s: string, w: Span) {
    && w.q < w.eq <= |s| && (forall k :: w.q <= k < w.eq ==> Plain(s[k]))
    && (w.eq < |s| ==> !Plain(s[w.eq]))
  }

  /** peek() for one of toks. */
  predicate Peek(s: string, i: nat, toks: set<char>)
    requires i <= |s|
  {
    Skip(s, i) < |s| && s[Skip(s, i)] in toks
  }

  function ModeOf(kind: char): Mode {
    if kind == '<' then Read else if kind == '+' then Append else Write
  }

  /** The redirections that start at i. */
  function Redirs(s: string, i: nat): (r: Result<seq<Redirection>>)
    requires i <= |s|
    ensures r.Ok? ==> i <= r.pos <= |s|
    decreases |s| - i
  {
    if !Peek(s, i, {'<', '>'}) then Ok([], Skip(s, i))
    else
      var op := GetToken(s, i);
      var file := GetToken(s, op.pos);
      if file.kind != 'a' then Panic
      else match Redirs(s, file.pos)
        case Panic => Panic
        case Ok(rs, j) => Ok([Redirection(file.span, ModeOf(op.kind))] + rs, j)
  }

  /** cmd with redirections, the first one innermost. */
  function Wrap(cmd: Cmd, rs: seq<Redirection>): Cmd
    decreases |rs|
  {
    if rs == [] then cmd else Wrap(Redir(cmd, rs[0].file, rs[0].mode), rs[1..])
  }

  /** cmd with the redirections of r. */
  function Wrapped(c: Cmd, r: Result<seq<Redirection>>): Result<Cmd> {
    match r case Panic => Panic case Ok(rs, j) => Ok(Wrap(c, rs), j)
  }

  /** The words of a simple command from i on, after argc others, with the redirections between them. */
  function Words(s: string, i: nat, argc: nat): (r: Result<(seq<Span>, seq<Redirection>)>)
    requires i <= |s|
    ensures r.Ok? ==> i <= r.pos <= |s|
    decreases |s| - i
  {
    if Peek(s, i, {'|', ')', '&', ';'}) then Ok(([], []), Skip(s, i))
    else
      var t := GetToken(s, i);
      if t.kind == End then Ok(([], []), t.pos)
      else if t.kind != 'a' || argc + 1 >= MAXARGS then Panic
      else match Redirs(s, t.pos)
        case Panic => Panic
        case Ok(rs, j) =>
          match Words(s, j, argc + 1)
          case Panic => Panic
          case Ok((ws, rs'), k) => Ok(([t.span] + ws, rs + rs'), k)
  }

  function ParseExec(s: string, i: nat): (r: Result<Cmd>)
    requires i <= |s|
    ensures r.Ok? ==> i <= r.pos <= |s|
    decreases |s| - i, 1
  {
    if Peek(s, i, {'('}) then ParseBlock(s, i)
    else match Redirs(s, i)
      case Panic => Panic
      case Ok(rs, j) =>
        match Words(s, j, 0)
        case Panic => Panic
        case Ok((ws, rs'), k) => Ok(Wrap(Exec(ws), rs + rs'), k)
  }

  function ParseBlock(s: string, i: nat): (r: Result<Cmd>)
    requires i <= |s|
    ensures r.Ok? ==> i < r.pos <= |s|
    decreases |s| - i, 0
  {
    if !Peek(s, i, {'('}) then Panic
    else match ParseLine(s, GetToken(s, i).pos)
      case Panic => Panic
      case Ok(cmd, j) =>
        if !Peek(s, j, {')'}) then Panic
        else match Redirs(s, GetToken(s, j).pos)
          case Panic => Panic
          case Ok(rs, k) => Ok(Wrap(cmd, rs), k)
  }

  function ParsePipe(s: string, i: nat): (r: Result<Cmd>)
    requires i <= |s|
    ensures r.Ok? ==> i <= r.pos <= |s|
    decreases |s| - i, 2
  {
    match ParseExec(s, i)
    case Panic => Panic
    case Ok(cmd, j) =>
      if !Peek(s, j, {'|'}) then Ok(cmd, Skip(s, j))
      else match ParsePipe(s, GetToken(s, j).pos)
        case Panic => Panic
        case Ok(right, k) => Ok(Pipe(cmd, right), k)
  }

  /** The & signs after a command. */
  function Backs(s: string, i: nat, cmd: Cmd): (r: (Cmd, nat))
    requires i <= |s|
    ensures i <= r.1 <= |s|
    decreases |s| - i
  {
    if Peek(s, i, {'&'}) then Backs(s, GetToken(s, i).pos, Back(cmd)) else (cmd, Skip(s, i))
  }

  function ParseLine(s: string, i: nat): (r: Result<Cmd>)
    requires i <= |s|
    ensures r.Ok? ==> i <= r.pos <= |s|
    decreases |s| - i, 3
  {
    match ParsePipe(s, i)
    case Panic => Panic
    case Ok(cmd0, j0) =>
      var backs := Backs(s, j0, cmd0);
      if !Peek(s, backs.1, {';'}) then Ok(backs.0, Skip(s, backs.1))
      else match ParseLine(s, GetToken(s, backs.1).pos)
        case Panic => Panic
        case Ok(right, k) => Ok(List(backs.0, right), k)
  }

  function ParseCmd(s: string): (r: Result<Cmd>) {
    match ParseLine(s, 0)
    case Panic => Panic
    case Ok(cmd, j) => if Skip(s, j) != |s| then Panic else Ok(cmd, |s|)
  }
}
