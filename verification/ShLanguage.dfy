/**
 The parser of user/sh.c accepts exactly the language of ShSyntax, with the meaning it has there:
 tokens with any white space around them, redirections anywhere in a simple command, pipelines
 that bind tighter than & and ;, and groups.
 */
module ShLanguage {
  import opened ShGrammar
  import opened ShSyntax

  // ---- tokens

  function TokOf(s: string, t: Token): Tok {
    if t.kind == 'a' then W(Sub(s, t.span)) else S(t.kind)
  }

  /** The tokens from position i on, as gettoken() finds them. */
  function Lex(s: string, i: nat): seq<Tok>
    requires i <= |s|
    decreases |s| - i
  {
    if Skip(s, i) == |s| then [] else [TokOf(s, GetToken(s, i))] + Lex(s, GetToken(s, i).pos)
  }

  lemma {:induction false} SkipBlanks(s: string, i: nat, j: nat)
    requires AllBlank(s, i, j)
    ensures Skip(s, i) == Skip(s, j)
    decreases j - i
  {
    if i < j { SkipBlanks(s, i + 1, j); }
  }

  lemma {:induction false} BlanksSkipped(s: string, i: nat)
    requires i <= |s|
    ensures AllBlank(s, i, Skip(s, i)) && Skip(s, Skip(s, i)) == Skip(s, i)
    decreases |s| - i
  {
    if i < |s| && Space(s[i]) { BlanksSkipped(s, i + 1); }
  }

  lemma LexSame(s: string, i: nat, j: nat)
    requires i <= |s| && j <= |s| && Skip(s, i) == Skip(s, j)
    ensures Lex(s, i) == Lex(s, j)
  {
  }

  lemma SkipLex(s: string, i: nat)
    requires i <= |s|
    ensures Lex(s, Skip(s, i)) == Lex(s, i)
  {
    BlanksSkipped(s, i);
    LexSame(s, i, Skip(s, i));
  }

  lemma {:induction false} WordEndAt(s: string, i: nat, j: nat)
    requires i <= j <= |s| && (forall k :: i <= k < j ==> Plain(s[k])) && (j < |s| ==> !Plain(s[j]))
    ensures WordEnd(s, i) == j
    decreases j - i
  {
    if i < j { WordEndAt(s, i + 1, j); }
  }

  /** A token that lies at w is the one that gettoken() finds. */
  lemma LiesToken(s: string, t: Tok, w: Span)
    requires Lies(s, t, w)
    ensures w.q < w.eq && Skip(s, w.q) == w.q < |s| && TokOf(s, GetToken(s, w.q)) == t
    ensures GetToken(s, w.q).pos == Skip(s, w.eq)
  {
    if t.W? { WordLies(s, t.text, w); } else { SignLies(s, t.sign, w); }
  }

  lemma WordLies(s: string, x: string, w: Span)
    requires Lies(s, W(x), w)
    ensures w.q < w.eq && Skip(s, w.q) == w.q < |s| && Sub(s, w) == x
    ensures GetToken(s, w.q) == Token('a', w, Skip(s, w.eq))
  {
    forall k | w.q <= k < w.eq ensures Plain(s[k]) { assert s[k] == s[w.q..w.eq][k - w.q] && s[k] == x[k - w.q]; }
    hide GoodWord;
    WordEndAt(s, w.q, w.eq);
  }

  lemma SignLies(s: string, c: char, w: Span)
    requires Lies(s, S(c), w)
    ensures w.q < w.eq && Skip(s, w.q) == w.q < |s| && GetToken(s, w.q) == Token(c, w, Skip(s, w.eq)) && c != 'a'
  {
    assert s[w.q] == s[w.q..w.eq][0];
    if c == '+' { assert s[w.q + 1] == s[w.q..w.eq][1]; }
    hide WordEnd;
  }

  /** Tokens that lie in the line are those that gettoken() finds. */
  lemma {:induction false} LaidLex(s: string, i: nat, ts: seq<Tok>, ws: seq<Span>)
    requires i <= |s| && Laid(s, i, ts, ws)
    ensures Lex(s, i) == ts
    decreases |ts|
  {
    hide Lies, GetToken;
    if ts == [] {
      SkipBlanks(s, i, |s|);
    } else {
      LiesToken(s, ts[0], ws[0]);
      SkipBlanks(s, i, ws[0].q);
      LexSame(s, i, ws[0].q);
      LaidLex(s, ws[0].eq, ts[1..], ws[1..]);
      SkipLex(s, ws[0].eq);
    }
  }

  /** What gettoken() finds lies in the line. */
  lemma TokenLies(s: string, i: nat)
    requires i <= |s| && Skip(s, i) < |s|
    ensures var t := GetToken(s, i);
      Lies(s, TokOf(s, t), t.span) && t.span.q == Skip(s, i) && t.pos == Skip(s, t.span.eq)
  {
    BlanksSkipped(s, i);
    var t := GetToken(s, i);
    var q := Skip(s, i);
    if t.kind == 'a' {
      WordGood(s, t.span);
    } else if t.kind == '+' {
      assert s[q..q + 2] == [s[q], s[q + 1]];
    } else {
      assert s[q..q + 1] == [s[q]];
    }
  }

  lemma WordGood(s: string, w: Span)
    requires SpanOk(s, w)
    ensures GoodWord(Sub(s, w))
  {
    forall k | 0 <= k < |Sub(s, w)| ensures Plain(Sub(s, w)[k]) { assert Sub(s, w)[k] == s[w.q + k]; }
  }

  lemma {:induction false} LexLaid(s: string, i: nat) returns (ws: seq<Span>)
    requires i <= |s|
    ensures Laid(s, i, Lex(s, i), ws)
    decreases |s| - i
  {
    hide Lies;
    BlanksSkipped(s, i);
    if Skip(s, i) == |s| {
      ws := [];
    } else {
      var t := GetToken(s, i);
      TokenLies(s, i);
      SkipLex(s, t.span.eq);
      var rest := LexLaid(s, t.span.eq);
      ws := [t.span] + rest;
      assert Lex(s, i)[1..] == Lex(s, t.span.eq) && ws[1..] == rest;
    }
  }

  /** What may be the next token. */
  predicate NextIn(ts: seq<Tok>, signs: set<char>) {
    ts != [] && ts[0].S? && ts[0].sign in signs
  }

  lemma PeekLex(s: string, i: nat, cs: set<char>)
    requires i <= |s| && forall c :: c in cs ==> Symbol(c)
    ensures Peek(s, i, cs) <==> NextIn(Lex(s, i), cs + if '>' in cs then {'+'} else {})
  {
  }

  /** The first token and those after it. */
  lemma NextLex(s: string, i: nat)
    requires i <= |s| && Lex(s, i) != []
    ensures var t := GetToken(s, i);
      && t.kind != End && t.pos > i && Lex(s, i)[0] == TokOf(s, t) && Lex(s, i)[1..] == Lex(s, t.pos)
      && (t.kind == 'a' <==> Lex(s, i)[0].W?) && (t.kind == 'a' ==> GoodWord(Lex(s, i)[0].text))
  {
    if GetToken(s, i).kind == 'a' { WordGood(s, GetToken(s, i).span); }
  }

  // ---- redirections

  /** The number of redirections before the first word. */
  function Lead(items: seq<Item>): (n: nat)
    ensures n <= |items| && (n < |items| ==> items[n].Arg?) && forall k :: 0 <= k < n ==> items[k].Redirect?
  {
    if items == [] || items[0].Arg? then 0 else 1 + Lead(items[1..])
  }

  /** Parsed redirections are those among the items. */
  ghost predicate Match(s: string, rs: seq<Redirection>, items: seq<Item>) {
    && |rs| == |items|
    && forall k :: 0 <= k < |rs| ==> items[k] == Redirect(rs[k].mode, Sub(s, rs[k].file))
  }

  const RedirSigns: set<char> := {'<', '>', '+'}

  function Prepend(r: Redirection, rs: Result<seq<Redirection>>): Result<seq<Redirection>> {
    match rs case Panic => Panic case Ok(v, j) => Ok([r] + v, j)
  }

  /** One iteration of parseredirs(). */
  lemma RedirOne(s: string, i: nat) returns (j: nat, r: Redirection)
    requires i <= |s| && NextIn(Lex(s, i), RedirSigns) && |Lex(s, i)| > 1 && Lex(s, i)[1].W?
    ensures i < j <= |s| && Lex(s, j) == Lex(s, i)[2..] && Redirs(s, i) == Prepend(r, Redirs(s, j))
    ensures SignOf(r.mode) == Lex(s, i)[0].sign && Sub(s, r.file) == Lex(s, i)[1].text && GoodWord(Sub(s, r.file))
  {
    hide GetToken, Peek, Sub, GoodWord, Lex;
    PeekLex(s, i, {'<', '>'});
    NextLex(s, i);
    var op := GetToken(s, i);
    NextLex(s, op.pos);
    var file := GetToken(s, op.pos);
    j, r := file.pos, Redirection(file.span, ModeOf(op.kind));
  }

  lemma RedirNone(s: string, i: nat)
    requires i <= |s| && !NextIn(Lex(s, i), RedirSigns)
    ensures Redirs(s, i) == Ok([], Skip(s, i)) && Lex(s, Skip(s, i)) == Lex(s, i)
  {
    PeekLex(s, i, {'<', '>'});
    SkipLex(s, i);
  }

  /** The tokens of the first item come first. */
  lemma FirstItem(items: seq<Item>, rest: seq<Tok>)
    requires items != []
    ensures var ts, n := ItemToks(items) + rest, |FirstToks(items[0])|;
      |ts| >= n && ts[..n] == FirstToks(items[0]) && ts[n..] == ItemToks(items[1..]) + rest
  {
    assert ItemToks(items) + rest == FirstToks(items[0]) + (ItemToks(items[1..]) + rest);
  }

  lemma NoItems(rest: seq<Tok>)
    ensures ItemToks([]) + rest == rest
  {
  }

  lemma FirstRedirect(items: seq<Item>, rest: seq<Tok>)
    requires items != [] && items[0].Redirect?
    ensures var ts := ItemToks(items) + rest;
      && |ts| > 1 && ts[0] == S(SignOf(items[0].mode)) && ts[1] == W(items[0].file) && NextIn(ts, RedirSigns)
      && ts[2..] == ItemToks(items[1..]) + rest
  {
    hide ItemToks;
    var ts := ItemToks(items) + rest;
    FirstItem(items, rest);
    assert ts[0] == ts[..2][0] && ts[1] == ts[..2][1];
  }

  lemma FirstArg(items: seq<Item>, rest: seq<Tok>)
    requires items != [] && items[0].Arg?
    ensures var ts := ItemToks(items) + rest;
      ts != [] && ts[0] == W(items[0].word) && ts[1..] == ItemToks(items[1..]) + rest
  {
    hide ItemToks;
    FirstItem(items, rest);
    assert (ItemToks(items) + rest)[0] == (ItemToks(items) + rest)[..1][0];
  }

  lemma LeadNext(items: seq<Item>)
    requires items != [] && items[0].Redirect?
    ensures Lead(items) > 0 && Lead(items[1..]) == Lead(items) - 1
    ensures items[1..][Lead(items) - 1..] == items[Lead(items)..]
    ensures items[..Lead(items)] == [items[0]] + items[1..][..Lead(items) - 1]
  {
  }

  lemma MatchMore(s: string, r: Redirection, rs: seq<Redirection>, item: Item, items: seq<Item>)
    requires Match(s, rs, items) && item == Redirect(r.mode, Sub(s, r.file))
    ensures Match(s, [r] + rs, [item] + items)
  {
  }

  /** parseredirs() takes the redirections before the next word. */
  lemma {:induction false} RedirsRead(s: string, i: nat, items: seq<Item>, rest: seq<Tok>)
    requires i <= |s| && Lex(s, i) == ItemToks(items) + rest && !NextIn(rest, RedirSigns)
    ensures var r, n := Redirs(s, i), Lead(items);
      r.Ok? && Match(s, r.value, items[..n]) && Lex(s, r.pos) == ItemToks(items[n..]) + rest
    decreases |items|
  {
    hide Lex, Redirs, Sub, ItemToks, Match, Lead, NextIn;
    if items == [] || items[0].Arg? {
      StopRedirs(s, i, items, rest);
    } else {
      FirstRedirect(items, rest);
      var j, r := RedirOne(s, i);
      RedirsRead(s, j, items[1..], rest);
      LeadNext(items);
      MatchMore(s, r, Redirs(s, j).value, items[0], items[1..][..Lead(items) - 1]);
    }
  }

  lemma StopRedirs(s: string, i: nat, items: seq<Item>, rest: seq<Tok>)
    requires i <= |s| && Lex(s, i) == ItemToks(items) + rest && !NextIn(rest, RedirSigns)
    requires items == [] || items[0].Arg?
    ensures var r, n := Redirs(s, i), Lead(items);
      n == 0 && r == Ok([], Skip(s, i)) && Match(s, [], items[..n]) && Lex(s, r.pos) == ItemToks(items[n..]) + rest
  {
    hide Lex, Redirs, ItemToks;
    if items == [] { NoItems(rest); } else { FirstArg(items, rest); }
    RedirNone(s, i);
    assert items[0..] == items;
  }

  // ---- simple commands

  function Redirects(items: seq<Item>): seq<Item> {
    if items == [] then []
    else if items[0].Arg? then Redirects(items[1..])
    else [items[0]] + Redirects(items[1..])
  }

  function Subs(s: string, ws: seq<Span>): seq<string> {
    seq(|ws|, i requires 0 <= i < |ws| => Sub(s, ws[i]))
  }

  predicate Stops(ts: seq<Tok>) {
    ts == [] || NextIn(ts, {'|', ')', '&', ';'})
  }

  /** Up to the n-th item there are only redirections. */
  lemma {:induction false} LeadItems(items: seq<Item>, n: nat)
    requires n <= Lead(items)
    ensures ArgsOf(items) == ArgsOf(items[n..]) && Redirects(items) == items[..n] + Redirects(items[n..])
    decreases n
  {
    hide ArgsOf, Redirects, Lead;
    if n == 0 {
      assert items[0..] == items;
    } else {
      LeadRedirect(items);
      LeadNext(items);
      LeadItems(items[1..], n - 1);
      FirstIsRedirect(items);
      TakeFirst(items, n);
      assert [items[0]] + (items[1..][..n - 1] + Redirects(items[n..])) == items[..n] + Redirects(items[n..]);
    }
  }

  lemma LeadRedirect(items: seq<Item>)
    requires Lead(items) > 0
    ensures items != [] && items[0].Redirect?
  {
  }

  lemma FirstIsRedirect(items: seq<Item>)
    requires items != [] && items[0].Redirect?
    ensures ArgsOf(items) == ArgsOf(items[1..]) && Redirects(items) == [items[0]] + Redirects(items[1..])
  {
  }

  lemma TakeFirst(items: seq<Item>, n: nat)
    requires 0 < n <= |items|
    ensures items[1..][n - 1..] == items[n..] && items[..n] == [items[0]] + items[1..][..n - 1]
  {
  }

  lemma WordsNone(s: string, i: nat, argc: nat)
    requires i <= |s| && Stops(Lex(s, i))
    ensures Words(s, i, argc).Ok? && Words(s, i, argc).value == ([], []) && Lex(s, Words(s, i, argc).pos) == Lex(s, i)
  {
    PeekLex(s, i, {'|', ')', '&', ';'});
    SkipLex(s, i);
  }

  function AddWord(w: Span, rs: seq<Redirection>, r: Result<(seq<Span>, seq<Redirection>)>)
    : Result<(seq<Span>, seq<Redirection>)>
  {
    match r case Panic => Panic case Ok((ws, rs'), k) => Ok(([w] + ws, rs + rs'), k)
  }

  /** One iteration of parseexec()'s loop. */
  lemma WordOne(s: string, i: nat, argc: nat) returns (j: nat, w: Span)
    requires i <= |s| && Lex(s, i) != [] && Lex(s, i)[0].W? && argc + 1 < MAXARGS
    ensures i < j <= |s| && Lex(s, j) == Lex(s, i)[1..] && Sub(s, w) == Lex(s, i)[0].text && GoodWord(Sub(s, w))
    ensures Redirs(s, j).Ok? ==>
      Words(s, i, argc) == AddWord(w, Redirs(s, j).value, Words(s, Redirs(s, j).pos, argc + 1))
    ensures Redirs(s, j).Panic? ==> Words(s, i, argc).Panic?
  {
    hide GetToken, Peek, Sub, GoodWord, Lex, Redirs;
    PeekLex(s, i, {'|', ')', '&', ';'});
    NextLex(s, i);
    j, w := GetToken(s, i).pos, GetToken(s, i).span;
  }

  /** r is a command that says t, up to the tokens `rest`. */
  ghost predicate Yields(r: Result<Cmd>, s: string, rest: seq<Tok>, t: Tree) {
    r.Ok? && r.pos <= |s| && Lex(s, r.pos) == rest && Meaning(r.value, s) == t
  }

  ghost predicate YieldsWords(r: Result<(seq<Span>, seq<Redirection>)>, s: string, rest: seq<Tok>, items: seq<Item>) {
    && r.Ok? && r.pos <= |s| && Lex(s, r.pos) == rest
    && Subs(s, r.value.0) == ArgsOf(items) && Match(s, r.value.1, Redirects(items))
  }

  lemma {:induction false} WordsRead(s: string, i: nat, items: seq<Item>, argc: nat, rest: seq<Tok>)
    requires i <= |s| && Lex(s, i) == ItemToks(items) + rest && Stops(rest) && Lead(items) == 0
    requires argc + |ArgsOf(items)| < MAXARGS
    ensures YieldsWords(Words(s, i, argc), s, rest, items)
    decreases |items|
  {
    hide Lex, Redirs, Sub, ItemToks, Match, Words, YieldsWords;
    if items == [] {
      NoItems(rest);
      WordsNone(s, i, argc);
      NothingYielded(Words(s, i, argc), s, rest);
    } else {
      FirstArg(items, rest);
      var j, w := WordOne(s, i, argc);
      var more := items[1..];
      RedirsRead(s, j, more, rest);
      var n := Lead(more);
      var k := Redirs(s, j).pos;
      LeadItems(more, n);
      WordsRead(s, k, more[n..], argc + 1, rest);
      MoreYielded(Words(s, k, argc + 1), s, rest, items, n, w, Redirs(s, j).value);
    }
  }

  lemma NothingYielded(r: Result<(seq<Span>, seq<Redirection>)>, s: string, rest: seq<Tok>)
    requires r.Ok? && r.value == ([], []) && r.pos <= |s| && Lex(s, r.pos) == rest
    ensures YieldsWords(r, s, rest, [])
  {
  }

  lemma MoreYielded(r: Result<(seq<Span>, seq<Redirection>)>, s: string, rest: seq<Tok>, items: seq<Item>, n: nat,
                    w: Span, rs: seq<Redirection>)
    requires items != [] && items[0].Arg? && n <= Lead(items[1..]) && YieldsWords(r, s, rest, items[1..][n..])
    requires Sub(s, w) == items[0].word && Match(s, rs, items[1..][..n])
    ensures YieldsWords(AddWord(w, rs, r), s, rest, items)
  {
    hide Sub, Lex, Match, ArgsOf, Redirects, Lead, Subs;
    LeadItems(items[1..], n);
    FirstIsArg(items);
    SubsMore(s, w, r.value.0);
    MatchSum(s, rs, items[1..][..n], r.value.1, Redirects(items[1..][n..]));
  }

  lemma FirstIsArg(items: seq<Item>)
    requires items != [] && items[0].Arg?
    ensures ArgsOf(items) == [items[0].word] + ArgsOf(items[1..]) && Redirects(items) == Redirects(items[1..])
  {
  }

  lemma SubsMore(s: string, w: Span, ws: seq<Span>)
    ensures Subs(s, [w] + ws) == [Sub(s, w)] + Subs(s, ws)
  {
  }

  // ---- redirections around a command

  lemma {:induction false} AroundSum(t: Tree, a: seq<Item>, b: seq<Item>)
    ensures Around(t, a + b) == Around(Around(t, a), b)
    decreases |b|
  {
    if b == [] {
      assert a + b == a;
    } else {
      assert (a + b)[..|a + b| - 1] == a + b[..|b| - 1];
      AroundSum(t, a, b[..|b| - 1]);
    }
  }

  lemma AroundOne(t: Tree, item: Item, items: seq<Item>)
    ensures Around(t, [item] + items) == Around(if item.Arg? then t else To(t, item.file, item.mode), items)
  {
    AroundSum(t, [item], items);
    assert [item][..0] == [];
  }

  lemma {:induction false} AroundRedirects(t: Tree, items: seq<Item>)
    ensures Around(t, Redirects(items)) == Around(t, items)
    decreases |items|
  {
    if items != [] {
      assert items == [items[0]] + items[1..];
      AroundOne(t, items[0], items[1..]);
      if items[0].Arg? {
        AroundRedirects(t, items[1..]);
      } else {
        AroundOne(t, items[0], Redirects(items[1..]));
        AroundRedirects(To(t, items[0].file, items[0].mode), items[1..]);
      }
    }
  }

  lemma {:induction false} WrapSays(s: string, c: Cmd, rs: seq<Redirection>, items: seq<Item>)
    requires Match(s, rs, items)
    ensures Meaning(Wrap(c, rs), s) == Around(Meaning(c, s), items)
    decreases |rs|
  {
    hide Sub;
    if rs != [] {
      assert items == [items[0]] + items[1..];
      AroundOne(Meaning(c, s), items[0], items[1..]);
      WrapSays(s, Redir(c, rs[0].file, rs[0].mode), rs[1..], items[1..]);
    }
  }

  lemma MatchSum(s: string, rs: seq<Redirection>, items: seq<Item>, rs': seq<Redirection>, items': seq<Item>)
    requires Match(s, rs, items) && Match(s, rs', items')
    ensures Match(s, rs + rs', items + items')
  {
  }

  lemma SimpleRead(s: string, i: nat, items: seq<Item>, rest: seq<Tok>)
    requires i <= |s| && GoodCommand(Simple(items)) && Lex(s, i) == ItemToks(items) + rest && Stops(rest)
    ensures Yields(ParseExec(s, i), s, rest, SaysCommand(Simple(items)))
  {
    hide Lex, Redirs, Words, ItemToks, Around, Lead, Match, Wrap;
    NotGroup(s, i, items, rest);
    RedirsRead(s, i, items, rest);
    var n, j := Lead(items), Redirs(s, i).pos;
    LeadItems(items, n);
    WordsRead(s, j, items[n..], 0, rest);
    var rs, r := Redirs(s, i).value, Words(s, j, 0);
    MatchSum(s, rs, items[..n], r.value.1, Redirects(items[n..]));
    WrapSays(s, Exec(r.value.0), rs + r.value.1, Redirects(items));
    AroundRedirects(Words_(ArgsOf(items)), items);
  }

  lemma NotGroup(s: string, i: nat, items: seq<Item>, rest: seq<Tok>)
    requires i <= |s| && Lex(s, i) == ItemToks(items) + rest && Stops(rest)
    ensures !Peek(s, i, {'('})
  {
    hide Lex, ItemToks, Peek;
    PeekLex(s, i, {'('});
    if items == [] {
      NoItems(rest);
    } else if items[0].Arg? {
      FirstArg(items, rest);
    } else {
      FirstRedirect(items, rest);
    }
  }

  // ---- groups, pipelines and lines are read

  /** A sign that is next is taken by gettoken(). */
  lemma TakeSign(s: string, i: nat, c: char)
    requires i <= |s| && NextIn(Lex(s, i), {c}) && c in {'(', ')', '|', '&', ';'}
    ensures Peek(s, i, {c}) && i < GetToken(s, i).pos <= |s| && Lex(s, GetToken(s, i).pos) == Lex(s, i)[1..]
  {
    hide Lex, GetToken, Peek;
    PeekLex(s, i, {c});
    NextLex(s, i);
  }

  lemma NoSign(s: string, i: nat, c: char)
    requires i <= |s| && !NextIn(Lex(s, i), {c}) && c in {'(', ')', '|', '&', ';'}
    ensures !Peek(s, i, {c}) && Lex(s, Skip(s, i)) == Lex(s, i)
  {
    hide Lex, Peek;
    PeekLex(s, i, {c});
    SkipLex(s, i);
  }

  lemma {:induction false} AllLead(items: seq<Item>)
    requires forall k :: 0 <= k < |items| ==> items[k].Redirect?
    ensures Lead(items) == |items|
  {
    if items != [] { AllLead(items[1..]); }
  }

  lemma GroupRead(s: string, i: nat, line: Line, items: seq<Item>, rest: seq<Tok>)
    requires i <= |s| && GoodCommand(Group(line, items)) && Stops(rest)
    requires Lex(s, i) == CommandToks(Group(line, items)) + rest
    requires forall j, more ::
      i < j <= |s| && Lex(s, j) == LineToks(line) + more && (more == [] || NextIn(more, {')'})) ==>
      Yields(ParseLine(s, j), s, more, SaysLine(line))
    ensures Yields(ParseExec(s, i), s, rest, SaysCommand(Group(line, items)))
  {
    hide Lex, Redirs, ItemToks, LineToks, Around, Lead, Match, Wrap, ParseLine, SaysLine, GetToken, Peek, Words;
    var ts, more := Lex(s, i), [S(')')] + ItemToks(items) + rest;
    assert ts == [S('(')] + (LineToks(line) + more);
    TakeSign(s, i, '(');
    var j := GetToken(s, i).pos;
    assert ts[1..] == LineToks(line) + more;
    var e := ParseLine(s, j).pos;
    assert more[0] == S(')') && more[1..] == ItemToks(items) + rest;
    TakeSign(s, e, ')');
    var k := GetToken(s, e).pos;
    RedirsRead(s, k, items, rest);
    AllLead(items);
    assert items[..|items|] == items && items[|items|..] == [];
    NoItems(rest);
    WrapSays(s, ParseLine(s, j).value, Redirs(s, k).value, items);
  }

  lemma {:induction false} CommandRead(c: Command, s: string, i: nat, rest: seq<Tok>)
    requires i <= |s| && GoodCommand(c) && Lex(s, i) == CommandToks(c) + rest && Stops(rest)
    ensures Yields(ParseExec(s, i), s, rest, SaysCommand(c))
    decreases c
  {
    hide Lex, ItemToks, LineToks, ParseLine, ParseExec, Yields;
    match c
    case Simple(items) => SimpleRead(s, i, items, rest);
    case Group(line, items) =>
      forall j, more | i < j <= |s| && Lex(s, j) == LineToks(line) + more && (more == [] || NextIn(more, {')'}))
        ensures Yields(ParseLine(s, j), s, more, SaysLine(line))
      {
        LineRead(line, s, j, more);
      }
      GroupRead(s, i, line, items, rest);
  }

  lemma {:induction false} PipelineRead(p: Pipeline, s: string, i: nat, rest: seq<Tok>)
    requires i <= |s| && GoodPipeline(p) && Lex(s, i) == PipelineToks(p) + rest
    requires rest == [] || NextIn(rest, {')', '&', ';'})
    ensures Yields(ParsePipe(s, i), s, rest, SaysPipeline(p))
    decreases p
  {
    hide Lex, CommandToks, ParseExec, GetToken, Peek, SaysCommand, GoodCommand;
    match p
    case One(c) =>
      CommandRead(c, s, i, rest);
      NoSign(s, ParseExec(s, i).pos, '|');
    case Several(c, q) =>
      var more := [S('|')] + PipelineToks(q) + rest;
      assert PipelineToks(p) + rest == CommandToks(c) + more;
      CommandRead(c, s, i, more);
      var j := ParseExec(s, i).pos;
      assert more[1..] == PipelineToks(q) + rest;
      TakeSign(s, j, '|');
      PipelineRead(q, s, GetToken(s, j).pos, rest);
  }

  lemma {:induction false} AmpsRead(s: string, i: nat, c: Cmd, amps: nat, rest: seq<Tok>)
    requires i <= |s| && Lex(s, i) == AmpToks(amps) + rest && !NextIn(rest, {'&'})
    ensures var r := Backs(s, i, c);
      Lex(s, r.1) == rest && Meaning(r.0, s) == Backs_(Meaning(c, s), amps)
    decreases amps
  {
    hide Lex, GetToken, Peek;
    if amps == 0 {
      assert AmpToks(0) + rest == rest;
      NoSign(s, i, '&');
    } else {
      assert AmpToks(amps) + rest == [S('&')] + (AmpToks(amps - 1) + rest);
      TakeSign(s, i, '&');
      assert Lex(s, i)[1..] == AmpToks(amps - 1) + rest;
      AmpsRead(s, GetToken(s, i).pos, Back(c), amps - 1, rest);
      BacksInside(Meaning(c, s), amps - 1);
    }
  }

  lemma {:induction false} BacksInside(t: Tree, amps: nat)
    ensures Backs_(Backed(t), amps) == Backed(Backs_(t, amps))
  {
    if amps > 0 { BacksInside(t, amps - 1); }
  }

  lemma {:induction false} AmpsFirst(amps: nat, rest: seq<Tok>)
    requires rest == [] || NextIn(rest, {')', ';'})
    ensures AmpToks(amps) + rest == [] || NextIn(AmpToks(amps) + rest, {')', '&', ';'})
  {
  }

  /** parsepipe() and the & signs after it. */
  lemma PipeAmps(p: Pipeline, amps: nat, s: string, i: nat, rest: seq<Tok>)
    requires i <= |s| && Yields(ParsePipe(s, i), s, AmpToks(amps) + rest, SaysPipeline(p)) && !NextIn(rest, {'&'})
    ensures ParsePipe(s, i).Ok? && var b := Backs(s, ParsePipe(s, i).pos, ParsePipe(s, i).value);
      Lex(s, b.1) == rest && Meaning(b.0, s) == Backs_(SaysPipeline(p), amps)
  {
    hide Lex, ParsePipe, Backs, SaysPipeline, AmpToks;
    AmpsRead(s, ParsePipe(s, i).pos, ParsePipe(s, i).value, amps, rest);
  }

  /** parseline() reads the tokens of a line, as what it says. */
  lemma {:induction false} LineRead(l: Line, s: string, i: nat, rest: seq<Tok>)
    requires i <= |s| && GoodLine(l) && Lex(s, i) == LineToks(l) + rest && (rest == [] || NextIn(rest, {')'}))
    ensures Yields(ParseLine(s, i), s, rest, SaysLine(l))
    decreases l
  {
    hide Lex, PipelineToks, AmpToks, ParsePipe, GetToken, Peek, Backs, SaysPipeline, GoodPipeline;
    match l
    case Last(p, amps) =>
      assert LineToks(l) + rest == PipelineToks(p) + (AmpToks(amps) + rest);
      AmpsFirst(amps, rest);
      PipelineRead(p, s, i, AmpToks(amps) + rest);
      PipeAmps(p, amps, s, i, rest);
      NoSign(s, Backs(s, ParsePipe(s, i).pos, ParsePipe(s, i).value).1, ';');
    case Then(p, amps, l') =>
      var more := [S(';')] + LineToks(l') + rest;
      assert LineToks(l) + rest == PipelineToks(p) + (AmpToks(amps) + more);
      AmpsFirst(amps, more);
      PipelineRead(p, s, i, AmpToks(amps) + more);
      PipeAmps(p, amps, s, i, more);
      var j := Backs(s, ParsePipe(s, i).pos, ParsePipe(s, i).value).1;
      assert more[1..] == LineToks(l') + rest;
      TakeSign(s, j, ';');
      LineRead(l', s, GetToken(s, j).pos, rest);
  }

  /** parsecmd() accepts every line that is written as the syntax says, as what it says there. */
  lemma Accepted(s: string, l: Line, ws: seq<Span>)
    requires GoodLine(l) && Laid(s, 0, LineToks(l), ws)
    ensures ParseCmd(s).Ok? && Meaning(ParseCmd(s).value, s) == SaysLine(l)
  {
    hide Laid, LineToks, ParseLine, SaysLine, Meaning;
    LaidLex(s, 0, LineToks(l), ws);
    assert LineToks(l) + [] == LineToks(l);
    LineRead(l, s, 0, []);
  }

  // ---- what has been parsed was written so

  lemma ItemsSum(a: seq<Item>, b: seq<Item>)
    ensures ItemToks(a + b) == ItemToks(a) + ItemToks(b)
    decreases |a|
  {
    if a == [] {
      assert a + b == b;
    } else {
      assert (a + b)[1..] == a[1..] + b;
      ItemsSum(a[1..], b);
    }
  }

  ghost predicate AllGood(items: seq<Item>) {
    forall k :: 0 <= k < |items| ==> GoodItem(items[k])
  }

  ghost predicate AllRedirects(items: seq<Item>) {
    forall k :: 0 <= k < |items| ==> items[k].Redirect?
  }

  lemma ItemsOne(item: Item, items: seq<Item>)
    ensures ItemToks([item] + items) == FirstToks(item) + ItemToks(items)
  {
    assert ([item] + items)[1..] == items;
  }

  /** One redirection that parseredirs() has taken. */
  lemma RedirTaken(s: string, i: nat) returns (j: nat, r: Redirection)
    requires i <= |s| && Redirs(s, i).Ok? && Peek(s, i, {'<', '>'})
    ensures i < j <= |s| && Redirs(s, j).Ok? && Redirs(s, i) == Prepend(r, Redirs(s, j))
    ensures Lex(s, i) == FirstToks(Redirect(r.mode, Sub(s, r.file))) + Lex(s, j) && GoodWord(Sub(s, r.file))
  {
    hide GetToken, Peek, Sub, GoodWord, Lex;
    PeekLex(s, i, {'<', '>'});
    NextLex(s, i);
    var op := GetToken(s, i);
    EndLex(s, op.pos);
    NextLex(s, op.pos);
    var file := GetToken(s, op.pos);
    j, r := file.pos, Redirection(file.span, ModeOf(op.kind));
    var ts := Lex(s, i);
    assert ts == [ts[0]] + ts[1..] && ts[1..] == [ts[1]] + Lex(s, j);
  }

  lemma EndLex(s: string, i: nat)
    requires i <= |s|
    ensures GetToken(s, i).kind == End <==> Lex(s, i) == []
    ensures GetToken(s, i).kind == End ==> Lex(s, GetToken(s, i).pos) == []
  {
    BlanksSkipped(s, i);
  }

  lemma {:induction false} RedirsParsed(s: string, i: nat) returns (items: seq<Item>)
    requires i <= |s| && Redirs(s, i).Ok?
    ensures Lex(s, i) == ItemToks(items) + Lex(s, Redirs(s, i).pos) && Match(s, Redirs(s, i).value, items)
    ensures AllGood(items) && AllRedirects(items)
    decreases |s| - i
  {
    hide Lex, Sub, Peek, GetToken, ItemToks, GoodWord;
    if !Peek(s, i, {'<', '>'}) {
      items := [];
      SkipLex(s, i);
      NoItems(Lex(s, i));
    } else {
      var j, r := RedirTaken(s, i);
      var more := RedirsParsed(s, j);
      var item := Redirect(r.mode, Sub(s, r.file));
      items := [item] + more;
      ItemsOne(item, more);
      MatchMore(s, r, Redirs(s, j).value, item, more);
    }
  }

  /** One word that parseexec()'s loop has taken, with the redirections after it. */
  lemma WordTaken(s: string, i: nat, argc: nat) returns (j: nat, w: Span)
    requires i <= |s| && Words(s, i, argc).Ok? && !Stops(Lex(s, i))
    ensures i < j <= |s| && Redirs(s, j).Ok? && Lex(s, i) == [W(Sub(s, w))] + Lex(s, j) && GoodWord(Sub(s, w))
    ensures argc + 1 < MAXARGS && Words(s, Redirs(s, j).pos, argc + 1).Ok?
    ensures Words(s, i, argc) == AddWord(w, Redirs(s, j).value, Words(s, Redirs(s, j).pos, argc + 1))
  {
    hide GetToken, Peek, Sub, GoodWord, Lex, Redirs;
    PeekLex(s, i, {'|', ')', '&', ';'});
    EndLex(s, i);
    NextLex(s, i);
    j, w := WordOne(s, i, argc);
    assert Lex(s, i) == [Lex(s, i)[0]] + Lex(s, i)[1..];
  }

  lemma {:induction false} WordsParsed(s: string, i: nat, argc: nat) returns (items: seq<Item>)
    requires i <= |s| && Words(s, i, argc).Ok? && argc < MAXARGS
    ensures Lex(s, i) == ItemToks(items) + Lex(s, Words(s, i, argc).pos) && AllGood(items) && Lead(items) == 0
    ensures YieldsWords(Words(s, i, argc), s, Lex(s, Words(s, i, argc).pos), items)
    ensures argc + |ArgsOf(items)| < MAXARGS
    decreases |s| - i
  {
    hide Lex, Sub, ItemToks, GoodWord, Words, Redirs, YieldsWords, Match;
    if Stops(Lex(s, i)) {
      items := [];
      WordsNone(s, i, argc);
      NoItems(Lex(s, i));
      NothingYielded(Words(s, i, argc), s, Lex(s, i));
    } else {
      var j, w := WordTaken(s, i, argc);
      var rs := RedirsParsed(s, j);
      var k := Redirs(s, j).pos;
      var more := WordsParsed(s, k, argc + 1);
      items := WordItems(s, w, rs, more, Lex(s, Words(s, k, argc + 1).pos));
      MoreYielded(Words(s, k, argc + 1), s, Lex(s, Words(s, k, argc + 1).pos), items, |rs|, w, Redirs(s, j).value);
    }
  }

  /** A word, the redirections after it, and what follows. */
  lemma WordItems(s: string, w: Span, rs: seq<Item>, more: seq<Item>, rest: seq<Tok>) returns (items: seq<Item>)
    requires AllRedirects(rs) && AllGood(rs) && AllGood(more) && Lead(more) == 0 && GoodWord(Sub(s, w))
    ensures items == [Arg(Sub(s, w))] + rs + more && AllGood(items) && Lead(items) == 0
    ensures [W(Sub(s, w))] + (ItemToks(rs) + (ItemToks(more) + rest)) == ItemToks(items) + rest
    ensures items[1..][..|rs|] == rs && items[1..][|rs|..] == more && |rs| == Lead(items[1..])
    ensures ArgsOf(items) == [Sub(s, w)] + ArgsOf(more)
  {
    hide Sub, GoodWord, ItemToks, ArgsOf, Redirects, Lead;
    var arg := Arg(Sub(s, w));
    items := [arg] + rs + more;
    assert items == [arg] + (rs + more) && items[1..] == rs + more && items[0] == arg;
    ItemsOne(arg, rs + more);
    ItemsSum(rs, more);
    Assoc([W(Sub(s, w))], ItemToks(rs), ItemToks(more), rest);
    LeadThen(rs, more);
    LeadItems(rs + more, |rs|);
    assert (rs + more)[|rs|..] == more && (rs + more)[..|rs|] == rs;
    FirstIsArg(items);
    NoLead(items);
  }

  lemma NoLead(items: seq<Item>)
    requires items != [] && items[0].Arg?
    ensures Lead(items) == 0
  {
  }

  lemma Assoc(a: seq<Tok>, b: seq<Tok>, c: seq<Tok>, d: seq<Tok>)
    ensures a + (b + (c + d)) == (a + (b + c)) + d
  {
  }

  lemma {:induction false} LeadThen(rs: seq<Item>, more: seq<Item>)
    requires AllRedirects(rs) && Lead(more) == 0
    ensures Lead(rs + more) == |rs|
  {
    if rs == [] {
      assert rs + more == more;
    } else {
      assert (rs + more)[1..] == rs[1..] + more;
      LeadThen(rs[1..], more);
    }
  }

  ghost predicate WroteCommand(s: string, i: nat, c: Command) {
    && i <= |s| && ParseExec(s, i).Ok? && GoodCommand(c)
    && Lex(s, i) == CommandToks(c) + Lex(s, ParseExec(s, i).pos) && Meaning(ParseExec(s, i).value, s) == SaysCommand(c)
  }

  lemma SimpleParsed(s: string, i: nat) returns (c: Command)
    requires i <= |s| && ParseExec(s, i).Ok? && !Peek(s, i, {'('})
    ensures WroteCommand(s, i, c)
  {
    hide Lex, Redirs, Words, ItemToks, Around, Lead, Match, Wrap, Peek, Sub;
    var rs := RedirsParsed(s, i);
    var j := Redirs(s, i).pos;
    var more := WordsParsed(s, j, 0);
    var r := Words(s, j, 0);
    var items := rs + more;
    c := Simple(items);
    ItemsSum(rs, more);
    LeadThen(rs, more);
    LeadItems(items, |rs|);
    assert items[|rs|..] == more && items[..|rs|] == rs;
    MatchSum(s, Redirs(s, i).value, rs, r.value.1, Redirects(more));
    WrapSays(s, Exec(r.value.0), Redirs(s, i).value + r.value.1, Redirects(items));
    AroundRedirects(Words_(ArgsOf(items)), items);
    assert ItemToks(rs) + (ItemToks(more) + Lex(s, r.pos)) == ItemToks(items) + Lex(s, r.pos);
  }

  lemma SignTaken(s: string, i: nat, c: char)
    requires i <= |s| && c in {'(', ')', '|', '&', ';'}
    ensures Peek(s, i, {c}) ==> i < GetToken(s, i).pos <= |s| && Lex(s, i) == [S(c)] + Lex(s, GetToken(s, i).pos)
    ensures Lex(s, Skip(s, i)) == Lex(s, i)
  {
    hide Lex, GetToken, Peek;
    PeekLex(s, i, {c});
    SkipLex(s, i);
    if Peek(s, i, {c}) {
      NextLex(s, i);
      assert Lex(s, i) == [Lex(s, i)[0]] + Lex(s, i)[1..];
    }
  }

  lemma {:induction false} GroupParsed(s: string, i: nat) returns (c: Command)
    requires i <= |s| && ParseExec(s, i).Ok? && Peek(s, i, {'('})
    ensures WroteCommand(s, i, c)
    decreases |s| - i, 0
  {
    hide Lex, Redirs, ItemToks, LineToks, Around, Match, Wrap, ParseLine, SaysLine, GetToken, Peek, Words, Sub;
    SignTaken(s, i, '(');
    var j := GetToken(s, i).pos;
    var line := LineParsed(s, j);
    var e := ParseLine(s, j).pos;
    SignTaken(s, e, ')');
    var k := GetToken(s, e).pos;
    var items := RedirsParsed(s, k);
    c := Group(line, items);
    WrapSays(s, ParseLine(s, j).value, Redirs(s, k).value, items);
    var rest := Lex(s, Redirs(s, k).pos);
    assert [S('(')] + (LineToks(line) + ([S(')')] + (ItemToks(items) + rest))) == CommandToks(c) + rest;
  }

  lemma {:induction false} CommandParsed(s: string, i: nat) returns (c: Command)
    requires i <= |s| && ParseExec(s, i).Ok?
    ensures WroteCommand(s, i, c)
    decreases |s| - i, 1
  {
    hide ParseExec, Peek, WroteCommand;
    if Peek(s, i, {'('}) {
      c := GroupParsed(s, i);
    } else {
      c := SimpleParsed(s, i);
    }
  }

  ghost predicate WrotePipeline(s: string, i: nat, p: Pipeline) {
    && i <= |s| && ParsePipe(s, i).Ok? && GoodPipeline(p)
    && Lex(s, i) == PipelineToks(p) + Lex(s, ParsePipe(s, i).pos)
    && Meaning(ParsePipe(s, i).value, s) == SaysPipeline(p)
  }

  lemma {:induction false} PipelineParsed(s: string, i: nat) returns (p: Pipeline)
    requires i <= |s| && ParsePipe(s, i).Ok?
    ensures WrotePipeline(s, i, p)
    decreases |s| - i, 2
  {
    hide Lex, CommandToks, ParseExec, GetToken, Peek, SaysCommand, GoodCommand, Skip;
    var c := CommandParsed(s, i);
    var j := ParseExec(s, i).pos;
    SignTaken(s, j, '|');
    if !Peek(s, j, {'|'}) {
      p := One(c);
    } else {
      var q := PipelineParsed(s, GetToken(s, j).pos);
      p := Several(c, q);
      var rest := Lex(s, ParsePipe(s, i).pos);
      assert CommandToks(c) + ([S('|')] + (PipelineToks(q) + rest)) == PipelineToks(p) + rest;
    }
  }

  lemma {:induction false} AmpsParsed(s: string, i: nat, c: Cmd) returns (amps: nat)
    requires i <= |s|
    ensures Lex(s, i) == AmpToks(amps) + Lex(s, Backs(s, i, c).1)
    ensures Meaning(Backs(s, i, c).0, s) == Backs_(Meaning(c, s), amps)
    decreases |s| - i
  {
    hide Lex, GetToken, Peek, Skip;
    SignTaken(s, i, '&');
    if !Peek(s, i, {'&'}) {
      amps := 0;
    } else {
      var more := AmpsParsed(s, GetToken(s, i).pos, Back(c));
      amps := more + 1;
      BacksInside(Meaning(c, s), more);
      var rest := Lex(s, Backs(s, i, c).1);
      assert [S('&')] + (AmpToks(more) + rest) == AmpToks(amps) + rest;
    }
  }

  ghost predicate WroteLine(s: string, i: nat, l: Line) {
    && i <= |s| && ParseLine(s, i).Ok? && GoodLine(l)
    && Lex(s, i) == LineToks(l) + Lex(s, ParseLine(s, i).pos) && Meaning(ParseLine(s, i).value, s) == SaysLine(l)
  }

  lemma {:induction false} LineParsed(s: string, i: nat) returns (l: Line)
    requires i <= |s| && ParseLine(s, i).Ok?
    ensures WroteLine(s, i, l)
    decreases |s| - i, 3
  {
    hide Lex, PipelineToks, AmpToks, ParsePipe, GetToken, Peek, Backs, SaysPipeline, GoodPipeline, Skip;
    var p := PipelineParsed(s, i);
    var amps := AmpsParsed(s, ParsePipe(s, i).pos, ParsePipe(s, i).value);
    var j := Backs(s, ParsePipe(s, i).pos, ParsePipe(s, i).value).1;
    SignTaken(s, j, ';');
    var rest := Lex(s, ParseLine(s, i).pos);
    if !Peek(s, j, {';'}) {
      l := Last(p, amps);
      assert PipelineToks(p) + (AmpToks(amps) + rest) == LineToks(l) + rest;
    } else {
      var l' := LineParsed(s, GetToken(s, j).pos);
      l := Then(p, amps, l');
      assert PipelineToks(p) + (AmpToks(amps) + ([S(';')] + (LineToks(l') + rest))) == LineToks(l) + rest;
    }
  }

  /** Every line that parsecmd() accepts is written as the syntax says, and means what it says there. */
  lemma Parsed(s: string) returns (l: Line, ws: seq<Span>)
    requires ParseCmd(s).Ok?
    ensures GoodLine(l) && Laid(s, 0, LineToks(l), ws) && Meaning(ParseCmd(s).value, s) == SaysLine(l)
  {
    hide ParseLine, LineToks, SaysLine, Meaning, Laid, GoodLine, Lies;
    l := LineParsed(s, 0);
    ws := LexLaid(s, 0);
    assert LineToks(l) + [] == LineToks(l);
  }

  /** So the parser panics exactly on the lines that are not in the language. */
  lemma AcceptedIff(s: string)
    ensures ParseCmd(s).Ok? <==> exists l, ws :: GoodLine(l) && Laid(s, 0, LineToks(l), ws)
  {
    hide ParseCmd, Laid, LineToks, GoodLine;
    if l, ws :| GoodLine(l) && Laid(s, 0, LineToks(l), ws) { Accepted(s, l, ws); }
    if ParseCmd(s).Ok? { var l, ws := Parsed(s); }
  }
}
