/** The regular expression matcher (grep.c) against the language of a pattern. Strings end where C's end at a NUL, so a
    pattern and a text are sequences without one. */
module Grep {

  /** Regular expressions: One(c) and Many(c) are c and c*, with '.' for any character. */
  datatype Regex = Empty | One(c: char) | Many(c: char) | Cat(first: Regex, rest: Regex)

  predicate Allows(c: char, x: char) {
    c == '.' || c == x
  }

  /** The words of a regular expression. */
  ghost predicate InLanguage(r: Regex, w: string) {
    match r
    case Empty => w == ""
    case One(c) => |w| == 1 && Allows(c, w[0])
    case Many(c) => forall i :: 0 <= i < |w| ==> Allows(c, w[i])
    case Cat(a, b) => exists k :: 0 <= k <= |w| && InLanguage(a, w[..k]) && InLanguage(b, w[k..])
  }

  /** What a pattern without a leading ^ means: a regular expression, and whether a final $ asks for the end of the text. */
  datatype Pattern = Pattern(body: Regex, atEnd: bool)

  function Parse(re: string): Pattern {
    if re == "" then Pattern(Empty, false)
    else if |re| > 1 && re[1] == '*' then
      var p := Parse(re[2..]);
      Pattern(Cat(Many(re[0]), p.body), p.atEnd)
    else if re == "$" then Pattern(Empty, true)
    else
      var p := Parse(re[1..]);
      Pattern(Cat(One(re[0]), p.body), p.atEnd)
  }

  /** The first k characters of the text are a word of the pattern, and they are all of it if the pattern ends in $. */
  ghost predicate Prefix(p: Pattern, text: string, k: nat) {
    k <= |text| && InLanguage(p.body, text[..k]) && (p.atEnd ==> k == |text|)
  }

  ghost predicate Here(re: string, text: string) {
    exists k: nat :: Prefix(Parse(re), text, k)
  }

  /** A pattern matches a text if some substring is in its language: one at the start after ^, one at the end before $. */
  ghost predicate Found(re: string, text: string) {
    if re != "" && re[0] == '^' then Here(re[1..], text)
    else exists i: nat :: i <= |text| && Here(re, text[i..])
  }

  // ----- one step of the pattern

  lemma EmptyHere(text: string)
    ensures Here("", text)
  {
    assert Prefix(Parse(""), text, 0);
  }

  lemma EndHere(text: string)
    ensures Here("$", text) <==> text == ""
  {
    if text == "" { assert Prefix(Parse("$"), text, 0); }
  }

  /** A character and the rest of the pattern. */
  lemma CharHere(re: string, text: string)
    requires re != "" && !(|re| > 1 && re[1] == '*') && re != "$"
    ensures Here(re, text) <==> text != "" && Allows(re[0], text[0]) && Here(re[1..], text[1..])
  {
    var p, q := Parse(re), Parse(re[1..]);
    if Here(re, text) {
      var k: nat :| Prefix(p, text, k);
      var w := text[..k];
      var m :| 0 <= m <= |w| && InLanguage(One(re[0]), w[..m]) && InLanguage(q.body, w[m..]);
      assert w[m..] == text[1..][..k - 1];
      assert Prefix(q, text[1..], k - 1);
    }
    if text != "" && Allows(re[0], text[0]) && Here(re[1..], text[1..]) {
      var k: nat :| Prefix(q, text[1..], k);
      var w := text[..k + 1];
      assert w[1..] == text[1..][..k];
      assert InLanguage(One(re[0]), w[..1]) && InLanguage(q.body, w[1..]);
      assert Prefix(p, text, k + 1);
    }
  }

  /** c* and the rest of the pattern re, with j characters for the c*. */
  ghost predicate StarHere(c: char, re: string, text: string, j: nat) {
    j <= |text| && (forall i :: 0 <= i < j ==> Allows(c, text[i])) && Here(re, text[j..])
  }

  lemma StarSplit(c: char, re: string, text: string)
    ensures Here([c, '*'] + re, text) <==> exists j: nat :: StarHere(c, re, text, j)
  {
    var full := [c, '*'] + re;
    assert full[2..] == re;
    var p, q := Parse(full), Parse(re);
    if Here(full, text) {
      var k: nat :| Prefix(p, text, k);
      var w := text[..k];
      var j: nat :| j <= |w| && InLanguage(Many(c), w[..j]) && InLanguage(q.body, w[j..]);
      assert w[j..] == text[j..][..k - j];
      assert Prefix(q, text[j..], k - j);
      assert forall i :: 0 <= i < j ==> text[i] == w[..j][i];
      assert StarHere(c, re, text, j);
    }
    if exists j: nat :: StarHere(c, re, text, j) {
      var j: nat :| StarHere(c, re, text, j);
      var k: nat :| Prefix(q, text[j..], k);
      var w := text[..j + k];
      assert w[j..] == text[j..][..k];
      assert InLanguage(Many(c), w[..j]) && InLanguage(q.body, w[j..]);
      assert Prefix(p, text, j + k);
    }
  }

  // ----- the matcher

  /** match: looks for the pattern everywhere in the text, the end included. */
  method Match(re: string, text: string) returns (found: bool)
    ensures found <==> Found(re, text)
  {
    if re != "" && re[0] == '^' {
      found := MatchHere(re[1..], text);
      return;
    }
    var i := 0;
    while true
      invariant i <= |text| && forall j: nat :: j < i ==> !Here(re, text[j..])
      decreases |text| - i
    {
      var here := MatchHere(re, text[i..]);
      if here {
        return true;
      }
      if i == |text| {
        break;
      }
      i := i + 1;
    }
    found := false;
  }

  /** matchhere: the pattern at the beginning of the text. */
  method MatchHere(re: string, text: string) returns (found: bool)
    ensures found <==> Here(re, text)
    decreases |re|, 0
  {
    if re == "" {
      EmptyHere(text);
      return true;
    }
    if |re| > 1 && re[1] == '*' {
      assert re == [re[0], '*'] + re[2..];
      StarSplit(re[0], re[2..], text);
      found := MatchStar(re[0], re[2..], text);
      return;
    }
    if re[0] == '$' && |re| == 1 {
      assert re == "$";
      EndHere(text);
      return text == "";
    }
    CharHere(re, text);
    if text != "" && (re[0] == '.' || re[0] == text[0]) {
      found := MatchHere(re[1..], text[1..]);
      return;
    }
    found := false;
  }

  /** matchstar: c* and then re, trying the shortest run of c first. */
  method MatchStar(c: char, re: string, text: string) returns (found: bool)
    ensures found <==> exists j: nat :: StarHere(c, re, text, j)
    decreases |re|, 1
  {
    var i := 0;
    while true
      invariant i <= |text| && (forall k :: 0 <= k < i ==> Allows(c, text[k]))
      invariant forall j: nat :: j < i ==> !Here(re, text[j..])
      decreases |text| - i
    {
      var here := MatchHere(re, text[i..]);
      if here {
        assert StarHere(c, re, text, i);
        return true;
      }
      if !(i < |text| && (text[i] == c || c == '.')) {
        forall j: nat ensures !StarHere(c, re, text, j) {}
        return false;
      }
      i := i + 1;
    }
  }
}
