/** The matcher of grep.c, from chapter 9 of The Practice of Programming: it accepts exactly
    the texts that the regular expression denotes. */
module Grep {

  // -------------------------------------------------------------------
  // What a regular expression denotes
  // -------------------------------------------------------------------

  /** One character, or any number of them. `.` stands for any character. */
  datatype Item = One(c: char) | Star(c: char)

  /** Items, and whether a final `$` ties them to the end of the text. */
  datatype Pattern = Pattern(items: seq<Item>, toEnd: bool)

  function Parse(re: string): (p: Pattern)
  {
    if re == "" then Pattern([], false)
    else if |re| >= 2 && re[1] == '*' then
      var p := Parse(re[2..]);
      Pattern([Star(re[0])] + p.items, p.toEnd)
    else if re == "$" then Pattern([], true)
    else
      var p := Parse(re[1..]);
      Pattern([One(re[0])] + p.items, p.toEnd)
  }

  predicate Fits(c: char, x: char) {
    c == '.' || c == x
  }

  ghost predicate ItemMatches(i: Item, w: string) {
    match i
    case One(c) => |w| == 1 && Fits(c, w[0])
    case Star(c) => forall k :: 0 <= k < |w| ==> Fits(c, w[k])
  }

  /** w splits into one piece for each item. */
  ghost predicate InLanguage(items: seq<Item>, w: string) {
    if items == [] then w == ""
    else exists k :: 0 <= k <= |w| && ItemMatches(items[0], w[..k]) && InLanguage(items[1..], w[k..])
  }

  /** The first n characters of text are in the language. */
  ghost predicate Prefix(p: Pattern, text: string, n: nat) {
    n <= |text| && InLanguage(p.items, text[..n]) && (p.toEnd ==> n == |text|)
  }

  ghost predicate MatchesHere(p: Pattern, text: string) {
    exists n :: Prefix(p, text, n)
  }

  /** Some part of the text is in the language; with `^` a part at its beginning. */
  ghost predicate Matches(re: string, text: string) {
    if re != "" && re[0] == '^' then MatchesHere(Parse(re[1..]), text)
    else exists s :: 0 <= s <= |text| && MatchesHere(Parse(re), text[s..])
  }

  // -------------------------------------------------------------------
  // The cases of matchhere
  // -------------------------------------------------------------------

  lemma EmptyCase(text: string)
    ensures MatchesHere(Parse(""), text)
  {
    assert Prefix(Parse(""), text, 0);
  }

  lemma EndCase(text: string)
    ensures MatchesHere(Parse("$"), text) <==> text == ""
  {
    if text == "" {
      assert Prefix(Parse("$"), text, 0);
    }
    if n: nat :| Prefix(Parse("$"), text, n) {
      assert text[..n] == "";
    }
  }

  /** A pattern that begins with an item takes a piece for it and goes on. */
  lemma ItemCase(i: Item, p: Pattern, text: string)
    ensures MatchesHere(Pattern([i] + p.items, p.toEnd), text)
        <==> exists k :: 0 <= k <= |text| && ItemMatches(i, text[..k]) && MatchesHere(p, text[k..])
  {
    var q := Pattern([i] + p.items, p.toEnd);
    assert q.items[0] == i && q.items[1..] == p.items;
    if n: nat :| Prefix(q, text, n) {
      var w := text[..n];
      var k: nat :| k <= |w| && ItemMatches(i, w[..k]) && InLanguage(p.items, w[k..]);
      assert w[..k] == text[..k] && w[k..] == text[k..][..n - k];
      assert Prefix(p, text[k..], n - k);
    }
    if k: nat :| k <= |text| && ItemMatches(i, text[..k]) && MatchesHere(p, text[k..]) {
      var m: nat :| Prefix(p, text[k..], m);
      var w := text[..k + m];
      assert w[..k] == text[..k] && w[k..] == text[k..][..m];
      assert Prefix(q, text, k + m);
    }
  }

  lemma OneCase(c: char, p: Pattern, text: string)
    ensures MatchesHere(Pattern([One(c)] + p.items, p.toEnd), text)
        <==> text != "" && Fits(c, text[0]) && MatchesHere(p, text[1..])
  {
    ItemCase(One(c), p, text);
    if text != "" && Fits(c, text[0]) && MatchesHere(p, text[1..]) {
      assert ItemMatches(One(c), text[..1]);
    }
  }

  // -------------------------------------------------------------------
  // What that means for common patterns
  // -------------------------------------------------------------------

  ghost predicate StandsAt(re: string, text: string, s: nat) {
    s + |re| <= |text| && forall i :: 0 <= i < |re| ==> re[i] == '.' || re[i] == text[s + i]
  }

  lemma {:induction false} PlainHere(re: string, text: string)
    requires '*' !in re && '$' !in re
    ensures MatchesHere(Parse(re), text) <==> StandsAt(re, text, 0)
    ensures MatchesHere(Parse(re + "$"), text) <==> StandsAt(re, text, 0) && |text| == |re|
  {
    if re == "" {
      EmptyCase(text);
      EndCase(text);
      assert re + "$" == "$";
    } else {
      OneCase(re[0], Parse(re[1..]), text);
      OneCase(re[0], Parse(re[1..] + "$"), text);
      assert (re + "$")[1..] == re[1..] + "$";
      if text != "" {
        PlainHere(re[1..], text[1..]);
        assert StandsAt(re, text, 0) <==> (re[0] == '.' || re[0] == text[0]) && StandsAt(re[1..], text[1..], 0) by {
          assert forall i :: 0 < i < |re| ==> re[i] == re[1..][i - 1];
          assert forall i :: 0 < i < |text| ==> text[i] == text[1..][i - 1];
          assert forall i :: 0 <= i < |re| - 1 ==> re[1..][i] == re[i + 1];
        }
      }
    }
  }

  /** Without `*` and anchors an expression matches where it stands in the text, `.` for any
      character; `^` ties it to the beginning and `$` to the end. */
  lemma PlainPattern(re: string, text: string)
    requires '*' !in re && '$' !in re && '^' !in re
    ensures Matches(re, text) <==> exists s: nat :: StandsAt(re, text, s)
    ensures Matches("^" + re, text) <==> StandsAt(re, text, 0)
    ensures Matches(re + "$", text) <==> |re| <= |text| && StandsAt(re, text, |text| - |re|)
    ensures Matches("^" + re + "$", text) <==> |re| == |text| && StandsAt(re, text, 0)
  {
    forall s | 0 <= s <= |text|
      ensures MatchesHere(Parse(re), text[s..]) <==> StandsAt(re, text, s)
      ensures MatchesHere(Parse(re + "$"), text[s..]) <==> StandsAt(re, text, s) && s == |text| - |re|
    {
      PlainHere(re, text[s..]);
      assert forall i :: 0 <= i < |text| - s ==> text[s..][i] == text[s + i];
    }
    PlainHere(re, text);
    assert ("^" + re)[1..] == re && ("^" + re + "$")[1..] == re + "$";
    assert (re + "$")[0] == if re == "" then '$' else re[0];
  }

  /** c* and nothing else: every character is c, or c is `.`. */
  lemma OnlyStar(c: char, text: string)
    ensures Matches("^" + [c, '*', '$'], text) <==> forall i :: 0 <= i < |text| ==> c == '.' || text[i] == c
  {
    var re := [c, '*', '$'];
    assert ("^" + re)[1..] == re && re[2..] == "$";
    ItemCase(Star(c), Parse("$"), text);
    forall k | 0 <= k <= |text|
      ensures MatchesHere(Parse("$"), text[k..]) <==> k == |text|
    {
      EndCase(text[k..]);
    }
    assert text[..|text|] == text;
  }

  // -------------------------------------------------------------------
  // The program
  // -------------------------------------------------------------------

  method MatchHere(re: string, text: string) returns (r: bool)
    ensures r <==> MatchesHere(Parse(re), text)
    decreases |re|, 0
  {
    if re == "" {
      EmptyCase(text);
      return true;
    }
    if |re| >= 2 && re[1] == '*' {
      r := MatchStar(re[0], re[2..], text);
      return;
    }
    if re == "$" {
      EndCase(text);
      return text == "";
    }
    OneCase(re[0], Parse(re[1..]), text);
    if text != "" && Fits(re[0], text[0]) {
      r := MatchHere(re[1..], text[1..]);
      return;
    }
    return false;
  }

  method MatchStar(c: char, re: string, text: string) returns (r: bool)
    ensures r <==> MatchesHere(Pattern([Star(c)] + Parse(re).items, Parse(re).toEnd), text)
    decreases |re|, 1
  {
    ItemCase(Star(c), Parse(re), text);
    var i := 0;
    while true
      invariant 0 <= i <= |text| && ItemMatches(Star(c), text[..i])
      invariant forall k :: 0 <= k < i ==> !MatchesHere(Parse(re), text[k..])
      decreases |text| - i
    {
      var here := MatchHere(re, text[i..]);
      if here {
        return true;
      }
      if i == |text| || !Fits(c, text[i]) {
        break;
      }
      i := i + 1;
    }
    forall k | 0 <= k <= |text| && ItemMatches(Star(c), text[..k])
      ensures !MatchesHere(Parse(re), text[k..])
    {
      assert i < k ==> text[..k][i] == text[i];
    }
    return false;
  }

  /** The matcher decides the language. */
  method Match(re: string, text: string) returns (r: bool)
    ensures r <==> Matches(re, text)
  {
    if re != "" && re[0] == '^' {
      r := MatchHere(re[1..], text);
      return;
    }
    var s := 0;
    while true
      invariant 0 <= s <= |text|
      invariant forall k :: 0 <= k < s ==> !MatchesHere(Parse(re), text[k..])
      decreases |text| - s
    {
      var here := MatchHere(re, text[s..]);
      if here {
        return true;
      }
      if s == |text| {
        return false;
      }
      s := s + 1;
    }
  }
}
