/**
 Parsing gives back what was written: every command tree has a text, and the parser of user/sh.c
 turns that text into the tree.
 */
module ShRoundTrip {
  import opened ShGrammar
  import opened ShSyntax
  import opened ShLanguage

  /** At most MAXARGS - 1 words to a simple command, and words that the shell can read. */
  predicate Legal(t: Tree) {
    match t
    case Words_(ws) => |ws| < MAXARGS && forall i :: 0 <= i < |ws| ==> GoodWord(ws[i])
    case To(u, file, _) => Legal(u) && GoodWord(file)
    case Piped(l, r) => Legal(l) && Legal(r)
    case Listed(l, r) => Legal(l) && Legal(r)
    case Backed(u) => Legal(u)
  }

  function Args(ws: seq<string>): seq<Item> {
    seq(|ws|, i requires 0 <= i < |ws| => Arg(ws[i]))
  }

  /** The fully parenthesised command. */
  function LineOf(t: Tree): Line {
    match t
    case Words_(ws) => Last(One(Simple(Args(ws))), 0)
    case To(u, file, m) => Last(One(Group(LineOf(u), [Redirect(m, file)])), 0)
    case Piped(l, r) => Last(Several(Group(LineOf(l), []), One(Group(LineOf(r), []))), 0)
    case Listed(l, r) => Then(One(Group(LineOf(l), [])), 0, Last(One(Group(LineOf(r), [])), 0))
    case Backed(u) => Last(One(Group(LineOf(u), [])), 1)
  }

  lemma {:induction false} ArgsSay(ws: seq<string>)
    ensures ArgsOf(Args(ws)) == ws && forall t :: Around(t, Args(ws)) == t
    decreases |ws|
  {
    if ws != [] {
      ArgsSay(ws[1..]);
      assert Args(ws)[1..] == Args(ws[1..]);
      forall t ensures Around(t, Args(ws)) == t {
        assert Args(ws) == [Arg(ws[0])] + Args(ws[1..]);
        AroundOne(t, Arg(ws[0]), Args(ws[1..]));
      }
    }
  }

  lemma {:induction false} LineSays(t: Tree)
    requires Legal(t)
    ensures SaysLine(LineOf(t)) == t && GoodLine(LineOf(t))
  {
    match t
    case Words_(ws) =>
      ArgsSay(ws);
      OneSays(Simple(Args(ws)));
    case To(u, file, m) =>
      LineSays(u);
      AroundOne(u, Redirect(m, file), []);
      assert [Redirect(m, file)] + [] == [Redirect(m, file)];
      OneSays(Group(LineOf(u), [Redirect(m, file)]));
    case Piped(l, r) =>
      LineSays(l);
      LineSays(r);
      OneSays(Group(LineOf(l), []));
      OneSays(Group(LineOf(r), []));
    case Listed(l, r) =>
      LineSays(l);
      LineSays(r);
      OneSays(Group(LineOf(l), []));
      OneSays(Group(LineOf(r), []));
    case Backed(u) =>
      LineSays(u);
      OneSays(Group(LineOf(u), []));
  }

  lemma OneSays(c: Command)
    ensures SaysPipeline(One(c)) == SaysCommand(c) && (GoodPipeline(One(c)) <==> GoodCommand(c))
    ensures SaysLine(Last(One(c), 0)) == SaysCommand(c) && (GoodLine(Last(One(c), 0)) <==> GoodCommand(c))
  {
  }

  /** Tokens, each with a blank after it. */
  function Render(ts: seq<Tok>): string {
    if ts == [] then "" else TokText(ts[0]) + " " + Render(ts[1..])
  }

  predicate GoodTok(t: Tok) {
    if t.W? then GoodWord(t.text) else t.sign == '+' || Sign(t.sign)
  }

  lemma {:induction false} Rendered(s: string, i: nat, ts: seq<Tok>) returns (ws: seq<Span>)
    requires i <= |s| && s[i..] == Render(ts) && forall k :: 0 <= k < |ts| ==> GoodTok(ts[k])
    ensures Laid(s, i, ts, ws)
    decreases |ts|
  {
    ws := [];
    if ts != [] {
      var j := i + |TokText(ts[0])|;
      assert s[i..j] == s[i..][..|TokText(ts[0])|] && s[j] == s[i..][|TokText(ts[0])|];
      assert s[j + 1..] == s[i..][|TokText(ts[0])| + 1..];
      var rest := Rendered(s, j + 1, ts[1..]);
      BlankBefore(s, j, ts[1..], rest);
      ws := [Span(i, j)] + rest;
      assert ws[1..] == rest;
    }
  }

  lemma BlankBefore(s: string, i: nat, ts: seq<Tok>, ws: seq<Span>)
    requires i < |s| && Blank(s[i]) && Laid(s, i + 1, ts, ws)
    ensures Laid(s, i, ts, ws)
  {
  }

  lemma {:induction false} ItemToksGood(items: seq<Item>)
    requires forall k :: 0 <= k < |items| ==> GoodItem(items[k])
    ensures forall k :: 0 <= k < |ItemToks(items)| ==> GoodTok(ItemToks(items)[k])
    decreases |items|
  {
    if items != [] {
      ItemToksGood(items[1..]);
      assert GoodItem(items[0]);
    }
  }

  lemma {:induction false} CommandToksGood(c: Command)
    requires GoodCommand(c)
    ensures forall k :: 0 <= k < |CommandToks(c)| ==> GoodTok(CommandToks(c)[k])
    decreases c
  {
    match c
    case Simple(items) => ItemToksGood(items);
    case Group(line, redirects) =>
      LineToksGood(line);
      ItemToksGood(redirects);
  }

  lemma {:induction false} PipelineToksGood(p: Pipeline)
    requires GoodPipeline(p)
    ensures forall k :: 0 <= k < |PipelineToks(p)| ==> GoodTok(PipelineToks(p)[k])
    decreases p
  {
    CommandToksGood(p.cmd);
    if p.Several? { PipelineToksGood(p.rest); }
  }

  lemma {:induction false} AmpToksGood(amps: nat)
    ensures forall k :: 0 <= k < |AmpToks(amps)| ==> GoodTok(AmpToks(amps)[k])
  {
    if amps > 0 { AmpToksGood(amps - 1); }
  }

  lemma {:induction false} LineToksGood(l: Line)
    requires GoodLine(l)
    ensures forall k :: 0 <= k < |LineToks(l)| ==> GoodTok(LineToks(l)[k])
    decreases l
  {
    PipelineToksGood(l.pipe);
    AmpToksGood(l.amps);
    if l.Then? { LineToksGood(l.rest); }
  }

  function Text(t: Tree): string {
    Render(LineToks(LineOf(t)))
  }

  /** parsecmd() of the text of a command is that command. */
  lemma RoundTrip(t: Tree)
    requires Legal(t)
    ensures ParseCmd(Text(t)).Ok? && Meaning(ParseCmd(Text(t)).value, Text(t)) == t
  {
    hide LineToks, Render, Meaning, ParseCmd, Laid;
    LineSays(t);
    LineToksGood(LineOf(t));
    assert Text(t)[0..] == Text(t);
    var ws := Rendered(Text(t), 0, LineToks(LineOf(t)));
    Accepted(Text(t), LineOf(t), ws);
  }
}
