// The regular-expression matcher of grep.c: literals, '.', c*, a leading '^'
// and a final '$'.  A C string is a Dafny string without its terminating NUL,
// so *text == '\0' is text == "".

module Regex {

  // ---- The declarative language -------------------------------------------

  datatype Item = One(c: char) | Many(c: char)

  datatype Pattern = Pattern(items: seq<Item>, toEnd: bool)

  ghost predicate CharFits(c: char, x: char) {
    c == '.' || c == x
  }

  // The strings one item stands for.
  ghost predicate ItemFits(item: Item, s: string) {
    match item
    case One(c) => |s| == 1 && CharFits(c, s[0])
    case Many(c) => forall i :: 0 <= i < |s| ==> CharFits(c, s[i])
  }

  // The strings a list of items stands for: concatenations of one string per item.
  ghost predicate InLanguage(items: seq<Item>, s: string) {
    if items == [] then s == ""
    else exists k :: 0 <= k <= |s| && ItemFits(items[0], s[..k]) && InLanguage(items[1..], s[k..])
  }

  // How a pattern without its leading '^' is read.  A '*' after a character is
  // looked for first, so "$*" is a repeated dollar and not an end anchor.
  ghost function Parse(re: string): Pattern {
    if re == "" then Pattern([], false)
    else if |re| >= 2 && re[1] == '*' then
      var p := Parse(re[2..]);
      Pattern([Many(re[0])] + p.items, p.toEnd)
    else if re == "$" then Pattern([], true)
    else
      var p := Parse(re[1..]);
      Pattern([One(re[0])] + p.items, p.toEnd)
  }

  // text[i..j] is an occurrence of p.
  ghost predicate Occurrence(p: Pattern, text: string, i: int, j: int) {
    0 <= i <= j <= |text| && InLanguage(p.items, text[i..j]) && (p.toEnd ==> j == |text|)
  }

  ghost predicate OccursAtStart(p: Pattern, text: string) {
    exists j :: Occurrence(p, text, 0, j)
  }

  // What match(re, text) promises.
  ghost predicate Matches(re: string, text: string) {
    if re != "" && re[0] == '^' then OccursAtStart(Parse(re[1..]), text)
    else exists i, j :: Occurrence(Parse(re), text, i, j)
  }

  // ---- How an occurrence at the start unfolds -----------------------------

  lemma EmptyPattern(text: string)
    ensures OccursAtStart(Pattern([], false), text)
    ensures OccursAtStart(Pattern([], true), text) <==> text == ""
  {
    assert Occurrence(Pattern([], false), text, 0, 0);
    if text == "" {
      assert Occurrence(Pattern([], true), text, 0, 0);
    }
  }

  // An item consumes some prefix, and the rest of the pattern occurs right after it.
  lemma ConsOccurrence(item: Item, p: Pattern, text: string)
    ensures OccursAtStart(Pattern([item] + p.items, p.toEnd), text)
       <==> exists k :: 0 <= k <= |text| && ItemFits(item, text[..k]) && OccursAtStart(p, text[k..])
  {
    var whole := Pattern([item] + p.items, p.toEnd);
    assert whole.items[1..] == p.items;
    if OccursAtStart(whole, text) {
      var j :| Occurrence(whole, text, 0, j);
      var s := text[0..j];
      var k :| 0 <= k <= |s| && ItemFits(item, s[..k]) && InLanguage(p.items, s[k..]);
      assert s[..k] == text[..k];
      assert s[k..] == text[k..][0..j - k];
      assert Occurrence(p, text[k..], 0, j - k);
    }
    if k :| 0 <= k <= |text| && ItemFits(item, text[..k]) && OccursAtStart(p, text[k..]) {
      var j :| Occurrence(p, text[k..], 0, j);
      var s := text[0..k + j];
      assert s[..k] == text[..k];
      assert s[k..] == text[k..][0..j];
      assert Occurrence(whole, text, 0, k + j);
    }
  }

  lemma OneOccurrence(c: char, p: Pattern, text: string)
    ensures OccursAtStart(Pattern([One(c)] + p.items, p.toEnd), text)
       <==> text != "" && CharFits(c, text[0]) && OccursAtStart(p, text[1..])
  {
    ConsOccurrence(One(c), p, text);
    if text != "" && CharFits(c, text[0]) && OccursAtStart(p, text[1..]) {
      assert ItemFits(One(c), text[..1]);
    }
  }

  // The rest of the pattern may start wherever the star can reach.
  lemma ManyOccurrence(c: char, p: Pattern, text: string)
    ensures OccursAtStart(Pattern([Many(c)] + p.items, p.toEnd), text)
       <==> exists k :: 0 <= k <= |text| && StarReaches(c, text, k) && OccursAtStart(p, text[k..])
  {
    ConsOccurrence(Many(c), p, text);
    forall k | 0 <= k <= |text| ensures StarReaches(c, text, k) <==> ItemFits(Many(c), text[..k]) {
      if StarReaches(c, text, k) {
        assert forall i :: 0 <= i < k ==> text[..k][i] == text[i];
      } else {
        var i :| 0 <= i < k && !CharFits(c, text[i]);
        assert text[..k][i] == text[i];
      }
    }
  }

  ghost predicate StarReaches(c: char, text: string, k: int) {
    0 <= k <= |text| && forall i :: 0 <= i < k ==> CharFits(c, text[i])
  }

  // ---- The program --------------------------------------------------------

  // match: search for re anywhere in text.
  method Match(re: string, text: string) returns (found: bool)
    ensures found <==> Matches(re, text)
  {
    if re != "" && re[0] == '^' {
      found := MatchHere(re[1..], text);
      return;
    }
    ghost var p := Parse(re);
    var at := 0;
    while true
      invariant 0 <= at <= |text|
      invariant forall i, j :: 0 <= i < at ==> !Occurrence(p, text, i, j)
      decreases |text| - at
    {
      found := MatchHere(re, text[at..]);
      OccurrenceFrom(p, text, at);
      if found || at == |text| { return; }
      at := at + 1;
    }
  }

  lemma OccurrenceFrom(p: Pattern, text: string, at: nat)
    requires at <= |text|
    ensures OccursAtStart(p, text[at..]) <==> exists j :: Occurrence(p, text, at, j)
  {
    if OccursAtStart(p, text[at..]) {
      var j :| Occurrence(p, text[at..], 0, j);
      assert text[at..][0..j] == text[at..at + j];
      assert Occurrence(p, text, at, at + j);
    }
    if j :| Occurrence(p, text, at, j) {
      assert text[at..][0..j - at] == text[at..j];
      assert Occurrence(p, text[at..], 0, j - at);
    }
  }

  // matchhere decides whether an occurrence of the pattern starts where the text does.
  method MatchHere(re: string, text: string) returns (found: bool)
    ensures found <==> OccursAtStart(Parse(re), text)
    decreases |re|, 0
  {
    EmptyPattern(text);
    if re == "" {
      found := true;
    } else if |re| >= 2 && re[1] == '*' {
      found := MatchStar(re[0], re[2..], text);
    } else if re == "$" {
      found := text == "";
    } else {
      OneOccurrence(re[0], Parse(re[1..]), text);
      if text != "" && (re[0] == '.' || re[0] == text[0]) {
        found := MatchHere(re[1..], text[1..]);
      } else {
        found := false;
      }
    }
  }

  // matchstar does so for a starred character c and the pattern re after it.
  method MatchStar(c: char, re: string, text: string) returns (found: bool)
    ensures found <==> OccursAtStart(Pattern([Many(c)] + Parse(re).items, Parse(re).toEnd), text)
    decreases |re|, 1
  {
    ManyOccurrence(c, Parse(re), text);
    var at := 0;
    while true
      invariant 0 <= at <= |text| && StarReaches(c, text, at)
      invariant forall k :: 0 <= k < at ==> !OccursAtStart(Parse(re), text[k..])
      decreases |text| - at
    {
      found := MatchHere(re, text[at..]);
      if found || at == |text| || !(text[at] == c || c == '.') { return; }
      at := at + 1;
    }
  }
}
