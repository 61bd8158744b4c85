/**
 nulterminate() of user/sh.c: for every line, the NULs it writes fall outside all words of
 the parsed command, so that each argv string is its token.
 */
module ShWords {
  import opened ShGrammar

  /** The words of a command and the files of its redirections. */
  function Spans(c: Cmd): set<Span> {
    match c
    case Exec(ws) => set w | w in ws
    case Redir(d, file, _) => Spans(d) + {file}
    case Pipe(l, r) => Spans(l) + Spans(r)
    case List(l, r) => Spans(l) + Spans(r)
    case Back(d) => Spans(d)
  }

  ghost predicate AllOk(s: string, c: Cmd) {
    forall w :: w in Spans(c) ==> SpanOk(s, w)
  }

  ghost predicate RedirsOk(s: string, rs: seq<Redirection>) {
    forall i :: 0 <= i < |rs| ==> SpanOk(s, rs[i].file)
  }

  lemma {:induction false} WrapOk(s: string, c: Cmd, rs: seq<Redirection>)
    requires AllOk(s, c) && RedirsOk(s, rs)
    ensures AllOk(s, Wrap(c, rs))
    decreases |rs|
  {
    if rs != [] { WrapOk(s, Redir(c, rs[0].file, rs[0].mode), rs[1..]); }
  }

  lemma {:induction false} RedirsFit(s: string, i: nat)
    requires i <= |s| && Redirs(s, i).Ok?
    ensures RedirsOk(s, Redirs(s, i).value)
    decreases |s| - i
  {
    if Peek(s, i, {'<', '>'}) { RedirsFit(s, GetToken(s, GetToken(s, i).pos).pos); }
  }

  lemma {:induction false} WordsFit(s: string, i: nat, argc: nat)
    requires i <= |s| && Words(s, i, argc).Ok?
    ensures var r := Words(s, i, argc).value;
      RedirsOk(s, r.1) && forall k :: 0 <= k < |r.0| ==> SpanOk(s, r.0[k])
    ensures argc < MAXARGS ==> argc + |Words(s, i, argc).value.0| < MAXARGS
    decreases |s| - i
  {
    hide Peek, GetToken, Redirs, Skip, SpanOk;
    if !Peek(s, i, {'|', ')', '&', ';'}) && GetToken(s, i).kind != End {
      RedirsFit(s, GetToken(s, i).pos);
      WordsFit(s, Redirs(s, GetToken(s, i).pos).pos, argc + 1);
    }
  }

  lemma {:induction false} ExecFits(s: string, i: nat)
    requires i <= |s| && ParseExec(s, i).Ok?
    ensures AllOk(s, ParseExec(s, i).value)
    decreases |s| - i, 1
  {
    if Peek(s, i, {'('}) {
      BlockFits(s, i);
    } else {
      RedirsFit(s, i);
      WordsFit(s, Redirs(s, i).pos, 0);
      var (ws, rs) := Words(s, Redirs(s, i).pos, 0).value;
      WrapOk(s, Exec(ws), Redirs(s, i).value + rs);
    }
  }

  lemma {:induction false} BlockFits(s: string, i: nat)
    requires i <= |s| && ParseBlock(s, i).Ok?
    ensures AllOk(s, ParseBlock(s, i).value)
    decreases |s| - i, 0
  {
    var line := ParseLine(s, GetToken(s, i).pos);
    LineFits(s, GetToken(s, i).pos);
    RedirsFit(s, GetToken(s, line.pos).pos);
    WrapOk(s, line.value, Redirs(s, GetToken(s, line.pos).pos).value);
  }

  lemma {:induction false} PipeFits(s: string, i: nat)
    requires i <= |s| && ParsePipe(s, i).Ok?
    ensures AllOk(s, ParsePipe(s, i).value)
    decreases |s| - i, 2
  {
    hide GetToken, Skip;
    ExecFits(s, i);
    var j := ParseExec(s, i).pos;
    if Peek(s, j, {'|'}) { PipeFits(s, GetToken(s, j).pos); }
  }

  lemma {:induction false} BacksFit(s: string, i: nat, c: Cmd)
    requires i <= |s| && AllOk(s, c)
    ensures AllOk(s, Backs(s, i, c).0)
    decreases |s| - i
  {
    if Peek(s, i, {'&'}) { BacksFit(s, GetToken(s, i).pos, Back(c)); }
  }

  /** Every word of a parsed line is a whole word of the line. */
  lemma {:induction false} LineFits(s: string, i: nat)
    requires i <= |s| && ParseLine(s, i).Ok?
    ensures AllOk(s, ParseLine(s, i).value)
    decreases |s| - i, 3
  {
    PipeFits(s, i);
    var p := ParsePipe(s, i);
    BacksFit(s, p.pos, p.value);
    var j := Backs(s, p.pos, p.value).1;
    if Peek(s, j, {';'}) { LineFits(s, GetToken(s, j).pos); }
  }

  /** One of the spans ends before position k. */
  ghost predicate EndsAt(spans: set<Span>, k: nat) {
    exists w :: w in spans && w.eq == k
  }

  /** The line, followed by its NUL, with a NUL after each of the spans. */
  ghost predicate Terminated(s: string, buf: seq<char>, spans: set<Span>) {
    && |buf| == |s| + 1
    && forall k :: 0 <= k <= |s| ==>
         buf[k] == if k == |s| || EndsAt(spans, k) then '\0' else s[k]
  }

  /** The C string that starts at q. */
  ghost predicate StringAt(buf: seq<char>, q: nat, str: string) {
    && q + |str| < |buf| && buf[q..q + |str|] == str && buf[q + |str|] == '\0'
    && '\0' !in str
  }

  /** After nulterminate() each word is a string of its own, and it is the token. */
  lemma WordsAreStrings(s: string, buf: seq<char>, c: Cmd, w: Span)
    requires AllOk(s, c) && Terminated(s, buf, Spans(c)) && w in Spans(c) && '\0' !in s
    ensures w.q < w.eq <= |s| && StringAt(buf, w.q, s[w.q..w.eq])
  {
  }

  /** nulterminate(), on the line in place. */
  method NulTerminate(c: Cmd, buf: array<char>, ghost s: string)
    requires buf.Length == |s| + 1 && AllOk(s, c)
    modifies buf
    ensures forall k :: 0 <= k < buf.Length ==>
      buf[k] == if EndsAt(Spans(c), k) then '\0' else old(buf[k])
    decreases c
  {
    match c
    case Exec(ws) =>
      var i := 0;
      while i < |ws|
        invariant i <= |ws|
        invariant forall k :: 0 <= k < buf.Length ==>
          buf[k] == if exists j :: 0 <= j < i && ws[j].eq == k then '\0' else old(buf[k])
      {
        assert ws[i] in Spans(c) && SpanOk(s, ws[i]);
        buf[ws[i].eq] := '\0';
        i := i + 1;
      }
      forall k: nat ensures EndsAt(Spans(c), k) <==> exists j :: 0 <= j < |ws| && ws[j].eq == k {
        if j :| 0 <= j < |ws| && ws[j].eq == k { assert ws[j] in Spans(c); }
      }
    case Redir(d, file, _) =>
      NulTerminate(d, buf, s);
      assert SpanOk(s, file);
      buf[file.eq] := '\0';
    case Pipe(l, r) =>
      NulTerminate(l, buf, s);
      NulTerminate(r, buf, s);
    case List(l, r) =>
      NulTerminate(l, buf, s);
      NulTerminate(r, buf, s);
    case Back(d) =>
      NulTerminate(d, buf, s);
  }
}
