/**
 The language of the shell, written down without its parser: commands with the places of their
 words, redirections and signs, the tokens that they are made of, and how tokens lie in a line.
 */
module ShSyntax {
  import opened ShGrammar

  /** A command with its words as strings. */
  datatype Tree =
    | Words_(words: seq<string>)
    | To(tree: Tree, file: string, mode: Mode)
    | Piped(left: Tree, right: Tree)
    | Listed(left: Tree, right: Tree)
    | Backed(tree: Tree)

  /** What a parsed command says. */
  function Meaning(c: Cmd, s: string): Tree {
    match c
    case Exec(ws) => Words_(seq(|ws|, i requires 0 <= i < |ws| => Sub(s, ws[i])))
    case Redir(d, file, mode) => To(Meaning(d, s), Sub(s, file), mode)
    case Pipe(l, r) => Piped(Meaning(l, s), Meaning(r, s))
    case List(l, r) => Listed(Meaning(l, s), Meaning(r, s))
    case Back(d) => Backed(Meaning(d, s))
  }

  function Sub(s: string, w: Span): string {
    if w.q <= w.eq <= |s| then s[w.q..w.eq] else ""
  }

  /** A word, or one of the signs < > + | & ; ( ) where + stands for >>. */
  datatype Tok = W(text: string) | S(sign: char)

  /** A word of a simple command, or a redirection anywhere among them. */
  datatype Item = Arg(word: string) | Redirect(mode: Mode, file: string)

  datatype Command = Simple(items: seq<Item>) | Group(line: Line, redirects: seq<Item>)

  datatype Pipeline = One(cmd: Command) | Several(cmd: Command, rest: Pipeline)

  /** A pipeline with its & signs, and what follows a semicolon. */
  datatype Line = Last(pipe: Pipeline, amps: nat) | Then(pipe: Pipeline, amps: nat, rest: Line)

  // ---- what a line says

  function ArgsOf(items: seq<Item>): seq<string> {
    if items == [] then []
    else if items[0].Arg? then [items[0].word] + ArgsOf(items[1..])
    else ArgsOf(items[1..])
  }

  /** t with the redirections among the items, the first one innermost. */
  function Around(t: Tree, items: seq<Item>): Tree {
    if items == [] then t
    else
      var inner, last := Around(t, items[..|items| - 1]), items[|items| - 1];
      if last.Arg? then inner else To(inner, last.file, last.mode)
  }

  function SaysCommand(c: Command): Tree {
    match c
    case Simple(items) => Around(Words_(ArgsOf(items)), items)
    case Group(line, redirects) => Around(SaysLine(line), redirects)
  }

  function SaysPipeline(p: Pipeline): Tree {
    match p
    case One(c) => SaysCommand(c)
    case Several(c, rest) => Piped(SaysCommand(c), SaysPipeline(rest))
  }

  function Backs_(t: Tree, amps: nat): Tree {
    if amps == 0 then t else Backed(Backs_(t, amps - 1))
  }

  function SaysLine(l: Line): Tree {
    match l
    case Last(p, amps) => Backs_(SaysPipeline(p), amps)
    case Then(p, amps, rest) => Listed(Backs_(SaysPipeline(p), amps), SaysLine(rest))
  }

  // ---- its tokens

  function SignOf(m: Mode): char {
    match m case Read => '<' case Write => '>' case Append => '+'
  }

  function FirstToks(item: Item): seq<Tok> {
    if item.Arg? then [W(item.word)] else [S(SignOf(item.mode)), W(item.file)]
  }

  function ItemToks(items: seq<Item>): seq<Tok> {
    if items == [] then []
    else FirstToks(items[0]) + ItemToks(items[1..])
  }

  function CommandToks(c: Command): seq<Tok> {
    match c
    case Simple(items) => ItemToks(items)
    case Group(line, redirects) => [S('(')] + LineToks(line) + [S(')')] + ItemToks(redirects)
  }

  function PipelineToks(p: Pipeline): seq<Tok> {
    match p
    case One(c) => CommandToks(c)
    case Several(c, rest) => CommandToks(c) + [S('|')] + PipelineToks(rest)
  }

  function AmpToks(amps: nat): seq<Tok> {
    if amps == 0 then [] else [S('&')] + AmpToks(amps - 1)
  }

  function LineToks(l: Line): seq<Tok> {
    match l
    case Last(p, amps) => PipelineToks(p) + AmpToks(amps)
    case Then(p, amps, rest) => PipelineToks(p) + AmpToks(amps) + [S(';')] + LineToks(rest)
  }

  // ---- what may stand in them

  predicate Blank(c: char) {
    c in {' ', '\t', '\r', '\n', '\U{0B}'}
  }

  predicate Sign(c: char) {
    c in {'<', '|', '>', '&', ';', '(', ')'}
  }

  predicate GoodWord(w: string) {
    |w| > 0 && forall k :: 0 <= k < |w| ==> !Blank(w[k]) && !Sign(w[k])
  }

  predicate GoodItem(item: Item) {
    GoodWord(if item.Arg? then item.word else item.file)
  }

  /** At most MAXARGS - 1 words to a simple command; only redirections after a group. */
  predicate GoodCommand(c: Command) {
    match c
    case Simple(items) => |ArgsOf(items)| < MAXARGS && forall i :: 0 <= i < |items| ==> GoodItem(items[i])
    case Group(line, redirects) =>
      GoodLine(line) && forall i :: 0 <= i < |redirects| ==> redirects[i].Redirect? && GoodItem(redirects[i])
  }

  predicate GoodPipeline(p: Pipeline) {
    match p
    case One(c) => GoodCommand(c)
    case Several(c, rest) => GoodCommand(c) && GoodPipeline(rest)
  }

  predicate GoodLine(l: Line) {
    match l
    case Last(p, _) => GoodPipeline(p)
    case Then(p, _, rest) => GoodPipeline(p) && GoodLine(rest)
  }

  // ---- how tokens lie in a line

  function TokText(t: Tok): string {
    if t.W? then t.text else if t.sign == '+' then ">>" else [t.sign]
  }

  /** Token t is the characters w.q .. w.eq - 1 of the line, and no longer token begins there. */
  ghost predicate Lies(s: string, t: Tok, w: Span) {
    && w.q <= w.eq <= |s| && s[w.q..w.eq] == TokText(t)
    && (t.W? ==> GoodWord(t.text) && (w.eq < |s| ==> Blank(s[w.eq]) || Sign(s[w.eq])))
    && (t.S? ==> t.sign == '+' || Sign(t.sign))
    && (t == S('>') && w.eq < |s| ==> s[w.eq] != '>')
  }

  predicate AllBlank(s: string, i: nat, j: nat) {
    i <= j <= |s| && forall k :: i <= k < j ==> Blank(s[k])
  }

  /** From position i on, the line is the tokens ts at the places ws, with any white space around them. */
  ghost predicate Laid(s: string, i: nat, ts: seq<Tok>, ws: seq<Span>)
    decreases |ts|
  {
    && |ws| == |ts|
    && if ts == [] then AllBlank(s, i, |s|)
       else AllBlank(s, i, ws[0].q) && Lies(s, ts[0], ws[0]) && Laid(s, ws[0].eq, ts[1..], ws[1..])
  }
}
