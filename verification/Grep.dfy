/**
 The regular expression matcher of user/grep.c, and what a pattern means: the texts that are
 made of one piece for each of its items.
 */
module Grep {
  /** A character, any character, a run of one, a run of any, and the end of the text. */
  datatype Item = Lit(c: char) | Any | Star(c: char) | StarAny | Eol

  function Single(c: char): Item {
    if c == '.' then Any else Lit(c)
  }

  function Many(c: char): Item {
    if c == '.' then StarAny else Star(c)
  }

  /** The items of a pattern; $ is the end of the text only when it comes last. */
  function Items(re: string): seq<Item> {
    if re == "" then []
    else if |re| > 1 && re[1] == '*' then [Many(re[0])] + Items(re[2..])
    else if re == "$" then [Eol]
    else [Single(re[0])] + Items(re[1..])
  }

  predicate AllAre(p: string, c: char) {
    forall i :: 0 <= i < |p| ==> p[i] == c
  }

  /** Piece p is one for the item. */
  predicate Fits(item: Item, p: string) {
    match item
    case Lit(c) => p == [c]
    case Any => |p| == 1
    case Star(c) => AllAre(p, c)
    case StarAny => true
    case Eol => p == ""
  }

  function Concat(parts: seq<string>): string {
    if parts == [] then "" else parts[0] + Concat(parts[1..])
  }

  /** w is made of one piece for each item. */
  ghost predicate MadeOf(items: seq<Item>, parts: seq<string>, w: string) {
    && |parts| == |items| && Concat(parts) == w
    && forall i :: 0 <= i < |items| ==> Fits(items[i], parts[i])
  }

  ghost predicate InLanguage(items: seq<Item>, w: string) {
    exists parts :: MadeOf(items, parts, w)
  }

  predicate Anchored(items: seq<Item>) {
    |items| > 0 && items[|items| - 1] == Eol
  }

  /** The first k characters of the text are in the language, and they are all if $ says so. */
  ghost predicate Begins(items: seq<Item>, text: string, k: nat) {
    k <= |text| && InLanguage(items, text[..k]) && (Anchored(items) ==> k == |text|)
  }

  /** Some beginning of the text is in the language of the items. */
  ghost predicate MatchesHere(items: seq<Item>, text: string) {
    exists k: nat :: Begins(items, text, k)
  }

  /** What grep looks for: the pattern somewhere in the line, or at its start after ^. */
  ghost predicate Matches(re: string, text: string) {
    if |re| > 0 && re[0] == '^' then MatchesHere(Items(re[1..]), text)
    else exists j :: 0 <= j <= |text| && MatchesHere(Items(re), text[j..])
  }

  // ---- how a match splits at its first item

  lemma NoItems(text: string)
    ensures MatchesHere([], text)
  {
    assert MadeOf([], [], text[..0]);
    assert Begins([], text, 0);
  }

  lemma OnlyEol(text: string)
    ensures MatchesHere([Eol], text) <==> text == ""
  {
    if text == "" {
      assert Concat([""]) == "" + Concat([""][1..]);
      assert MadeOf([Eol], [""], text[..0]);
      assert Begins([Eol], text, 0);
    }
    if k: nat :| Begins([Eol], text, k) {
      var parts :| MadeOf([Eol], parts, text[..k]);
      assert Fits([Eol][0], parts[0]) && parts[1..] == [];
      assert Concat(parts) == parts[0] + Concat(parts[1..]) == "";
      assert Anchored([Eol]) && |text[..k]| == 0;
    }
  }

  /** The first k characters are a piece for the item, and the rest goes on with the other items. */
  ghost predicate SplitsAt(item: Item, rest: seq<Item>, text: string, k: nat) {
    k <= |text| && Fits(item, text[..k]) && MatchesHere(rest, text[k..])
  }

  lemma FirstItem(item: Item, rest: seq<Item>, text: string)
    requires item != Eol
    ensures MatchesHere([item] + rest, text) <==> exists k: nat :: SplitsAt(item, rest, text, k)
  {
    var items := [item] + rest;
    if n: nat :| Begins(items, text, n) {
      var parts :| MadeOf(items, parts, text[..n]);
      SplitOff(item, rest, text, n, parts);
    }
    if k: nat :| SplitsAt(item, rest, text, k) {
      var n: nat :| Begins(rest, text[k..], n);
      PutBack(item, rest, text, k, n);
    }
  }

  lemma SplitOff(item: Item, rest: seq<Item>, text: string, n: nat, parts: seq<string>)
    requires Begins([item] + rest, text, n) && MadeOf([item] + rest, parts, text[..n]) && item != Eol
    ensures SplitsAt(item, rest, text, |parts[0]|)
  {
    var items, k := [item] + rest, |parts[0]|;
    assert text[..n] == parts[0] + Concat(parts[1..]);
    assert text[..k] == text[..n][..k] && text[k..][..n - k] == text[..n][k..];
    assert text[..k] == parts[0] && text[k..][..n - k] == Concat(parts[1..]);
    assert Fits(items[0], parts[0]);
    forall i | 0 <= i < |rest| ensures Fits(rest[i], parts[1..][i]) { assert Fits(items[i + 1], parts[i + 1]); }
    assert MadeOf(rest, parts[1..], text[k..][..n - k]);
    assert Anchored(rest) ==> Anchored(items);
    assert Begins(rest, text[k..], n - k);
  }

  lemma PutBack(item: Item, rest: seq<Item>, text: string, k: nat, n: nat)
    requires k <= |text| && Fits(item, text[..k]) && Begins(rest, text[k..], n) && item != Eol
    ensures Begins([item] + rest, text, k + n)
  {
    var items := [item] + rest;
    var parts :| MadeOf(rest, parts, text[k..][..n]);
    var all := [text[..k]] + parts;
    assert all[1..] == parts;
    assert text[..k + n] == text[..k] + text[k..][..n];
    assert MadeOf(items, all, text[..k + n]);
    assert Anchored(items) ==> Anchored(rest);
  }

  /** The items of a pattern, one step. */
  lemma ItemsOf(re: string)
    ensures re == "" ==> Items(re) == []
    ensures |re| > 1 && re[1] == '*' ==> Items(re) == [Many(re[0])] + Items(re[2..]) && Many(re[0]) != Eol
    ensures re == "$" ==> Items(re) == [Eol]
    ensures re != "" && !(|re| > 1 && re[1] == '*') && re != "$" ==>
      Items(re) == [Single(re[0])] + Items(re[1..]) && Single(re[0]) != Eol
  {
  }

  /** matchhere() */
  method MatchHere(re: string, text: string) returns (found: bool)
    ensures found <==> MatchesHere(Items(re), text)
    decreases |re|, 0
  {
    hide Items, MatchesHere;
    ItemsOf(re);
    if |re| == 0 {
      NoItems(text);
      return true;
    }
    if |re| > 1 && re[1] == '*' {
      found := MatchStar(re[0], re[2..], text);
      FirstItem(Many(re[0]), Items(re[2..]), text);
      return;
    }
    if re[0] == '$' && |re| == 1 {
      assert re == "$";
      OnlyEol(text);
      return text == "";
    }
    FirstItem(Single(re[0]), Items(re[1..]), text);
    if |text| > 0 && (re[0] == '.' || re[0] == text[0]) {
      found := MatchHere(re[1..], text[1..]);
      OneMore(re[0], Items(re[1..]), text);
      return;
    }
    OneMore(re[0], Items(re[1..]), text);
    return false;
  }

  /** A single character is taken from the text, if it is the one. */
  lemma OneMore(c: char, rest: seq<Item>, text: string)
    ensures (exists k: nat :: SplitsAt(Single(c), rest, text, k)) <==>
      |text| > 0 && (c == '.' || c == text[0]) && MatchesHere(rest, text[1..])
  {
    hide MatchesHere;
    if |text| > 0 && (c == '.' || c == text[0]) && MatchesHere(rest, text[1..]) {
      assert text[..1] == [text[0]];
      assert SplitsAt(Single(c), rest, text, 1);
    }
    if k: nat :| SplitsAt(Single(c), rest, text, k) {
      assert k == 1 && text[..1] == [text[0]];
    }
  }

  /** matchstar() */
  method MatchStar(c: char, re: string, text: string) returns (found: bool)
    ensures found <==> exists k: nat :: SplitsAt(Many(c), Items(re), text, k)
    decreases |re|, 1
  {
    hide Items, MatchesHere;
    var k := 0;
    while true
      invariant 0 <= k <= |text| && Fits(Many(c), text[..k])
      invariant forall j :: 0 <= j < k ==> !SplitsAt(Many(c), Items(re), text, j)
      decreases |text| - k
    {
      found := MatchHere(re, text[k..]);
      if found {
        assert SplitsAt(Many(c), Items(re), text, k);
        return true;
      }
      if k == |text| || !(text[k] == c || c == '.') {
        break;
      }
      assert text[..k + 1] == text[..k] + [text[k]];
      k := k + 1;
    }
    forall j: nat ensures !SplitsAt(Many(c), Items(re), text, j) {
      assert k < j <= |text| ==> text[..j][k] == text[k];
    }
    return false;
  }

  /** match() */
  method Match(re: string, text: string) returns (found: bool)
    ensures found <==> Matches(re, text)
  {
    hide Items, MatchesHere;
    if |re| > 0 && re[0] == '^' {
      found := MatchHere(re[1..], text);
      return;
    }
    var j := 0;
    while j <= |text|
      invariant 0 <= j <= |text| + 1 && forall k :: 0 <= k < j ==> !MatchesHere(Items(re), text[k..])
    {
      found := MatchHere(re, text[j..]);
      if found {
        return true;
      }
      j := j + 1;
    }
    return false;
  }
}
