/**
  Matching names against patterns, where ? is any character and * any run of characters.
*/
module Pattern {
  import opened Bytes

  const ANY: byte := 0x3F   // ?
  const RUN: byte := 0x2A   // *

  /** Upper case conversion of characters; only the end mark becomes 0. */
  type UpperByte = t: seq<byte> | |t| == 0x100 && forall c :: 0 <= c < 0x100 ==> (t[c] == 0 <==> c == 0)
    witness seq(0x100, c => c)

  /** A text: the characters before its end mark. */
  type Text = s: seq<byte> | forall i :: 0 <= i < |s| ==> s[i] != 0

  predicate Wild(c: byte) {
    c == ANY || c == RUN
  }

  /** The name, in upper case, is in the language of the pattern. */
  predicate InLanguage(pat: Text, nam: Text, up: UpperByte)
    decreases |pat| + |nam|
  {
    if pat == [] then nam == []
    else if pat[0] == RUN then InLanguage(pat[1..], nam, up) || (nam != [] && InLanguage(pat, nam[1..], up))
    else nam != [] && (pat[0] == ANY || up[pat[0]] == up[nam[0]]) && InLanguage(pat[1..], nam[1..], up)
  }

  /** The rest of the name after `skip` characters, or, with `inf`, any more, is in the language. */
  ghost predicate InAfter(pat: Text, nam: Text, skip: nat, inf: bool, up: UpperByte) {
    exists k: nat :: skip <= k <= |nam| && (inf || k == skip) && InLanguage(pat, nam[k..], up)
  }

  lemma AfterNone(pat: Text, nam: Text, up: UpperByte)
    ensures InAfter(pat, nam, 0, false, up) <==> InLanguage(pat, nam, up)
  {
    assert nam[0..] == nam;
  }

  /** One character skipped beforehand. */
  lemma AfterOne(pat: Text, nam: Text, skip: nat, inf: bool, up: UpperByte)
    ensures InAfter(pat, nam, skip + 1, inf, up) <==> nam != [] && InAfter(pat, nam[1..], skip, inf, up)
  {
    if nam != [] {
      if InAfter(pat, nam, skip + 1, inf, up) {
        var k: nat :| skip + 1 <= k <= |nam| && (inf || k == skip + 1) && InLanguage(pat, nam[k..], up);
        assert nam[k..] == nam[1..][k - 1..];
      }
      if InAfter(pat, nam[1..], skip, inf, up) {
        var k: nat :| skip <= k <= |nam[1..]| && (inf || k == skip) && InLanguage(pat, nam[1..][k..], up);
        assert nam[k + 1..] == nam[1..][k..];
      }
    }
  }

  /** A run: it ends here, or later. */
  lemma AfterRun(pat: Text, nam: Text, up: UpperByte)
    ensures InAfter(pat, nam, 0, true, up) <==>
      InLanguage(pat, nam, up) || (nam != [] && InAfter(pat, nam[1..], 0, true, up))
  {
    assert nam[0..] == nam;
    if InAfter(pat, nam, 0, true, up) {
      var k: nat :| k <= |nam| && InLanguage(pat, nam[k..], up);
      if k > 0 {
        assert nam[k..] == nam[1..][k - 1..];
      }
    }
    if nam != [] && InAfter(pat, nam[1..], 0, true, up) {
      var k: nat :| k <= |nam[1..]| && InLanguage(pat, nam[1..][k..], up);
      assert nam[k + 1..] == nam[1..][k..];
    }
  }

  /** The empty pattern is reached at the end of the name. */
  lemma AfterEnd(nam: Text, up: UpperByte)
    ensures InAfter([], nam, 0, true, up)
  {
    assert InLanguage([], nam[|nam|..], up);
  }

  /** A character wild card before a pattern. */
  lemma AnyFirst(pat: Text, nam: Text, skip: nat, inf: bool, up: UpperByte)
    requires pat != [] && pat[0] == ANY
    ensures InAfter(pat, nam, skip, inf, up) <==> InAfter(pat[1..], nam, skip + 1, inf, up)
  {
    if InAfter(pat, nam, skip, inf, up) {
      var k: nat :| skip <= k <= |nam| && (inf || k == skip) && InLanguage(pat, nam[k..], up);
      assert nam[k..][1..] == nam[k + 1..];
    }
    if InAfter(pat[1..], nam, skip + 1, inf, up) {
      var k: nat :| skip + 1 <= k <= |nam| && (inf || k == skip + 1) && InLanguage(pat[1..], nam[k..], up);
      assert nam[k - 1..][1..] == nam[k..];
      assert InLanguage(pat, nam[k - 1..], up);
    }
  }

  /** A run wild card before a pattern. */
  lemma RunFirst(pat: Text, nam: Text, skip: nat, inf: bool, up: UpperByte)
    requires pat != [] && pat[0] == RUN
    ensures InAfter(pat, nam, skip, inf, up) <==> InAfter(pat[1..], nam, skip, true, up)
  {
    if InAfter(pat, nam, skip, inf, up) {
      var k: nat :| skip <= k <= |nam| && (inf || k == skip) && InLanguage(pat, nam[k..], up);
      RunIsAfter(pat, nam[k..], up);
      var l: nat :| l <= |nam[k..]| && InLanguage(pat[1..], nam[k..][l..], up);
      assert nam[k..][l..] == nam[k + l..];
    }
    if InAfter(pat[1..], nam, skip, true, up) {
      var k: nat :| skip <= k <= |nam| && InLanguage(pat[1..], nam[k..], up);
      assert nam[skip..][k - skip..] == nam[k..];
      RunIsAfter(pat, nam[skip..], up);
    }
  }

  lemma {:induction false} RunIsAfter(pat: Text, nam: Text, up: UpperByte)
    requires pat != [] && pat[0] == RUN
    ensures InLanguage(pat, nam, up) <==> InAfter(pat[1..], nam, 0, true, up)
    decreases |nam|
  {
    AfterRun(pat[1..], nam, up);
    if nam != [] {
      RunIsAfter(pat, nam[1..], up);
    }
  }

  /** A pattern that begins with `n` ordinary characters needs a name of at least as many. */
  lemma {:induction false} NeedsCharacters(pat: Text, nam: Text, n: nat, up: UpperByte)
    requires n <= |pat| && |nam| < n && forall i :: 0 <= i < n ==> !Wild(pat[i])
    ensures !InLanguage(pat, nam, up)
    decreases n
  {
    if nam != [] {
      NeedsCharacters(pat[1..], nam[1..], n - 1, up);
    }
  }

  /** What is not reached by later starts either: the name is too short for the ordinary characters. */
  lemma {:induction false} NoLaterStart(pat: Text, nam: Text, n: nat, up: UpperByte)
    requires n <= |pat| && |nam| < n && forall i :: 0 <= i < n ==> !Wild(pat[i])
    ensures !InAfter(pat, nam, 0, true, up)
    decreases |nam|
  {
    NeedsCharacters(pat, nam, n, up);
    AfterRun(pat, nam, up);
    if nam != [] {
      NoLaterStart(pat, nam[1..], n, up);
    }
  }

  // ---------- pattern_matching ----------

  /** The next character in upper case, 0 at the end. */
  function GetAchar(s: Text, up: UpperByte): byte {
    if s == [] then 0 else up[s[0]]
  }

  /** Read a block of wild cards: how many characters it stands for at least, and whether for more. */
  method WildBlock(pat: Text, ghost nam: Text, up: UpperByte) returns (pp: Text, nm: nat, nx: bool)
    requires pat != [] && Wild(pat[0])
    ensures |pp| < |pat|
    ensures InLanguage(pat, nam, up) <==> InAfter(pp, nam, nm, nx, up)
  {
    pp, nm, nx := pat, 0, false;
    AfterNone(pat, nam, up);
    while pp != [] && Wild(pp[0])
      invariant |pp| <= |pat| && (|pp| == |pat| ==> pp == pat)
      invariant InLanguage(pat, nam, up) <==> InAfter(pp, nam, nm, nx, up)
      decreases |pp|
    {
      if pp[0] == ANY {
        AnyFirst(pp, nam, nm, nx, up);
        nm := nm + 1;
      } else {
        RunFirst(pp, nam, nm, nx, up);
        nx := true;
      }
      pp := pp[1..];
    }
  }

  /** Compare from one start; `ended` says that the name came to its end. */
  method MatchHere(pat: Text, nam: Text, up: UpperByte) returns (m: bool, nc: byte)
    ensures m <==> InLanguage(pat, nam, up)
    ensures !m && nc == 0 && nam != [] ==> !InAfter(pat, nam[1..], 0, true, up)
    ensures !m && nam == [] ==> nc == 0
    decreases |pat|, 0
  {
    var pp, np := pat, nam;
    ghost var n := 0;
    while true
      invariant 0 <= n <= |pat| && n <= |nam| && pp == pat[n..] && np == nam[n..]
      invariant forall i :: 0 <= i < n ==> !Wild(pat[i])
      invariant InLanguage(pat, nam, up) <==> InLanguage(pp, np, up)
      decreases |pp|
    {
      if pp != [] && Wild(pp[0]) {
        var rest, nm, nx := WildBlock(pp, np, up);
        m := PatternMatching(rest, np, nm, nx, up);
        nc := if np == [] then 0 else np[0];
        if !m && nc == 0 && nam != [] {
          NoLaterStart(pat, nam[1..], n, up);
        }
        return;
      }
      var pc := GetAchar(pp, up);
      nc := GetAchar(np, up);
      if pc != nc {
        if nc == 0 && nam != [] {
          NoLaterStart(pat, nam[1..], n, up);
        }
        return false, nc;
      }
      if pc == 0 { return true, nc; }
      pp, np, n := pp[1..], np[1..], n + 1;
    }
  }

  /** Match the pattern against the name after `skip` characters, or any number more. */
  method PatternMatching(pat: Text, nam: Text, skip: nat, inf: bool, up: UpperByte) returns (m: bool)
    ensures m <==> InAfter(pat, nam, skip, inf, up)
    decreases |pat|, 1
  {
    var s, n: Text := skip, nam;
    while s > 0
      invariant InAfter(pat, nam, skip, inf, up) <==> InAfter(pat, n, s, inf, up)
      decreases s
    {
      AfterOne(pat, n, s - 1, inf, up);
      if n == [] { return false; }
      s, n := s - 1, n[1..];
    }
    AfterEnd(n, up);
    if pat == [] && inf { return true; }
    while true
      invariant InAfter(pat, nam, skip, inf, up) <==> InAfter(pat, n, 0, inf, up)
      decreases |n|
    {
      AfterNone(pat, n, up);
      AfterRun(pat, n, up);
      var nc;
      m, nc := MatchHere(pat, n, up);
      if m { return; }
      if !(inf && nc != 0) { return; }
      n := n[1..];
    }
  }

  /** As find_first and find_next call it. */
  method NameMatches(pat: Text, nam: Text, up: UpperByte) returns (m: bool)
    ensures m <==> InLanguage(pat, nam, up)
  {
    AfterNone(pat, nam, up);
    m := PatternMatching(pat, nam, 0, false, up);
  }
}
