/**
 The regular-expression matcher of grep.c (after Kernighan and Pike).  A C
 string is a sequence without NUL; a pointer into the text is an index, and the
 NUL that ends a string is what lies at its length.
 */
module Grep {

  type cstring = s: seq<char> | '\0' !in s witness []

  // ------------------------------------------------- what a pattern means

  /** A pattern is a row of items: one character, a starred one, or the end of the text. */
  datatype Item = One(c: char) | Star(c: char) | End

  function Parse(re: seq<char>): seq<Item> {
    if re == [] then []
    else if |re| >= 2 && re[1] == '*' then [Star(re[0])] + Parse(re[2..])
    else if re == ['$'] then [End]
    else [One(re[0])] + Parse(re[1..])
  }

  predicate Fits(c: char, x: char) { c == '.' || c == x }

  /** Item `it` covers exactly the stretch of `text` from `i` to `j`. */
  ghost predicate Covers(it: Item, text: seq<char>, i: nat, j: nat) {
    i <= j <= |text| &&
    match it
    case One(c) => j == i + 1 && Fits(c, text[i])
    case Star(c) => forall k :: i <= k < j ==> Fits(c, text[k])
    case End => i == j == |text|
  }

  /** `cuts` divides the text from `at` on into one stretch for each item. */
  ghost predicate Divides(items: seq<Item>, text: seq<char>, at: nat, cuts: seq<nat>) {
    && |cuts| == |items| + 1 && cuts[0] == at
    && forall i :: 0 <= i < |items| ==> Covers(items[i], text, cuts[i], cuts[i + 1])
  }

  /** The pattern matches somewhere between `at` and the end: a division exists. */
  ghost predicate MatchesAt(re: seq<char>, text: seq<char>, at: nat) {
    exists cuts: seq<nat> :: Divides(Parse(re), text, at, cuts)
  }

  /** The whole meaning: a leading ^ ties the match to the start of the text. */
  ghost predicate Matches(re: seq<char>, text: seq<char>) {
    if re != [] && re[0] == '^' then MatchesAt(re[1..], text, 0)
    else exists at :: 0 <= at <= |text| && MatchesAt(re, text, at)
  }

  // ----------------------------------------------------- unrolling a match

  lemma MatchesEmpty(text: seq<char>, at: nat)
    ensures MatchesAt([], text, at)
  {
    assert Divides(Parse([]), text, at, [at]);
  }

  lemma {:induction false} MatchesFirst(re: seq<char>, rest: seq<char>, it: Item, text: seq<char>, at: nat)
    requires Parse(re) == [it] + Parse(rest)
    ensures MatchesAt(re, text, at) <==> exists j :: Covers(it, text, at, j) && MatchesAt(rest, text, j)
  {
    if MatchesAt(re, text, at) {
      var cuts: seq<nat> :| Divides(Parse(re), text, at, cuts);
      var tail := cuts[1..];
      assert Covers(Parse(re)[0], text, cuts[0], cuts[1]);
      forall i | 0 <= i < |Parse(rest)| ensures Covers(Parse(rest)[i], text, tail[i], tail[i + 1]) {
        assert Covers(Parse(re)[i + 1], text, cuts[i + 1], cuts[i + 1 + 1]);
      }
      assert Divides(Parse(rest), text, cuts[1], tail);
    }
    if j :| Covers(it, text, at, j) && MatchesAt(rest, text, j) {
      var tail: seq<nat> :| Divides(Parse(rest), text, j, tail);
      var cuts := [at] + tail;
      forall i | 0 <= i < |Parse(re)| ensures Covers(Parse(re)[i], text, cuts[i], cuts[i + 1]) {
        assert i > 0 ==> Covers(Parse(rest)[i - 1], text, tail[i - 1], tail[i - 1 + 1]);
      }
      assert Divides(Parse(re), text, at, cuts);
    }
  }

  lemma MatchesEnd(text: seq<char>, at: nat)
    requires at <= |text|
    ensures MatchesAt(['$'], text, at) <==> at == |text|
  {
    MatchesFirst(['$'], [], End, text, at);
    MatchesEmpty(text, |text|);
    assert at == |text| ==> Covers(End, text, at, |text|);
  }

  lemma MatchesOne(re: seq<char>, text: seq<char>, at: nat)
    requires at <= |text| && re != [] && !(|re| >= 2 && re[1] == '*') && re != ['$']
    ensures MatchesAt(re, text, at) <==> at < |text| && Fits(re[0], text[at]) && MatchesAt(re[1..], text, at + 1)
  {
    MatchesFirst(re, re[1..], One(re[0]), text, at);
    assert at < |text| && Fits(re[0], text[at]) ==> Covers(One(re[0]), text, at, at + 1);
  }

  // ------------------------------------------------------------------ the code

  method Match(re: cstring, text: cstring) returns (r: bool)
    ensures r <==> Matches(re, text)
  {
    if re != [] && re[0] == '^' {
      r := MatchHere(re[1..], text, 0);
      return;
    }
    var at := 0;
    while true
      invariant 0 <= at <= |text|
      invariant forall j :: 0 <= j < at ==> !MatchesAt(re, text, j)
      decreases |text| - at
    {
      r := MatchHere(re, text, at);
      if r {
        return;
      }
      if at == |text| {
        return false;
      }
      at := at + 1;
    }
  }

  /** Search for `re` at the beginning of the text from `at`. */
  method MatchHere(re: cstring, text: cstring, at: nat) returns (r: bool)
    requires at <= |text|
    ensures r <==> MatchesAt(re, text, at)
    decreases |re|, 0
  {
    if re == [] {
      MatchesEmpty(text, at);
      return true;
    }
    if |re| >= 2 && re[1] == '*' {
      r := MatchStar(re[0], re[2..], text, at);
      MatchesFirst(re, re[2..], Star(re[0]), text, at);
      return;
    }
    if re[0] == '$' && |re| == 1 {
      MatchesEnd(text, at);
      return at == |text|;
    }
    MatchesOne(re, text, at);
    if at < |text| && (re[0] == '.' || re[0] == text[at]) {
      r := MatchHere(re[1..], text, at + 1);
      return;
    }
    return false;
  }

  /** Search for c*re at the beginning of the text from `at`. */
  method MatchStar(c: char, re: cstring, text: cstring, at: nat) returns (r: bool)
    requires at <= |text|
    ensures r <==> exists j :: Covers(Star(c), text, at, j) && MatchesAt(re, text, j)
    decreases |re|, 1
  {
    var i := at;
    while true
      invariant at <= i <= |text| && Covers(Star(c), text, at, i)
      invariant forall j :: Covers(Star(c), text, at, j) && MatchesAt(re, text, j) ==> i <= j
      decreases |text| - i
    {
      r := MatchHere(re, text, i);
      if r {
        return;
      }
      if i == |text| || !(text[i] == c || c == '.') {
        return false;
      }
      i := i + 1;
    }
  }
}
