/** wildcardMatch: greedy leftmost matching of a pattern in which every `*` stands for any text. */
module Glob {
  import opened Bytes

  // ---------- what a match is ----------

  /** The declarative reading of a pattern. */
  ghost predicate Matches(s: string, pat: string)
    decreases |pat|, 0
  {
    if pat == "" then s == ""
    else if pat[0] == '*' then exists k :: SuffixMatches(s, k, pat[1..])
    else s != "" && s[0] == pat[0] && Matches(s[1..], pat[1..])
  }

  /** The text matches from byte k on. */
  ghost predicate SuffixMatches(s: string, k: int, pat: string)
    decreases |pat|, 1
  {
    0 <= k <= |s| && Matches(s[k..], pat)
  }

  // ---------- library calls ----------

  /** The position of the first star, or the length of the text. */
  function FirstStar(s: string): (i: nat)
    ensures i <= |s| && '*' !in s[..i] && (i < |s| ==> s[i] == '*')
  {
    if s == "" || s[0] == '*' then 0
    else
      var i := FirstStar(s[1..]);
      assert s[..i + 1] == [s[0]] + s[1..][..i];
      i + 1
  }

  /** strings.Split(pat, "*"). */
  function Split(pat: string): (parts: seq<string>)
    ensures |parts| >= 1
    decreases |pat|
  {
    var i := FirstStar(pat);
    if i == |pat| then [pat] else [pat[..i]] + Split(pat[i + 1..])
  }

  /** strings.Index: the leftmost occurrence. */
  method Index(s: string, sub: string) returns (idx: int)
    ensures -1 <= idx && (idx >= 0 ==> idx <= |s| && sub <= s[idx..])
    ensures forall j :: 0 <= j <= |s| && (idx < 0 || j < idx) ==> !(sub <= s[j..])
  {
    idx := 0;
    while idx <= |s|
      invariant 0 <= idx <= |s| + 1
      invariant forall j :: 0 <= j < idx ==> !(sub <= s[j..])
    {
      if sub <= s[idx..] {
        return;
      }
      idx := idx + 1;
    }
    idx := -1;
  }

  ghost predicate HasSuffix(s: string, suffix: string) {
    |suffix| <= |s| && s[|s| - |suffix|..] == suffix
  }

  // ---------- patterns as lists of parts ----------

  /** The parts that follow a star: each is found somewhere, in order, and the last one ends the text. */
  ghost predicate AfterStar(s: string, parts: seq<string>)
    requires |parts| >= 1
    decreases |parts|, 1
  {
    if |parts| == 1 then HasSuffix(s, parts[0])
    else exists k :: PartFoundAt(s, k, parts)
  }

  /** The first part occurs at byte k and the other parts follow it. */
  ghost predicate PartFoundAt(s: string, k: int, parts: seq<string>)
    requires |parts| >= 2
    decreases |parts|, 0
  {
    0 <= k <= |s| && parts[0] <= s[k..] && AfterStar(s[k..][|parts[0]|..], parts[1..])
  }

  /** The definitions above, one step at a time. */
  lemma AtPart(s: string, k: nat, parts: seq<string>)
    requires |parts| >= 2 && k <= |s| && parts[0] <= s[k..]
    requires AfterStar(s[k + |parts[0]|..], parts[1..])
    ensures AfterStar(s, parts)
  {
    DropDrop(s, k, |parts[0]|);
    assert PartFoundAt(s, k, parts);
  }

  lemma PartPosition(s: string, parts: seq<string>) returns (k: nat)
    requires |parts| >= 2 && AfterStar(s, parts)
    ensures k + |parts[0]| <= |s| && parts[0] <= s[k..] && AfterStar(s[k + |parts[0]|..], parts[1..])
  {
    assert AfterStar(s, parts) <==> exists j :: PartFoundAt(s, j, parts);
    k :| PartFoundAt(s, k, parts);
    DropDrop(s, k, |parts[0]|);
  }

  /** Text that can be matched after a star can still be matched with more text in front. */
  lemma {:induction false} AfterStarMonotone(s: string, j: nat, parts: seq<string>)
    requires |parts| >= 1 && j <= |s|
    requires AfterStar(s[j..], parts)
    ensures AfterStar(s, parts)
  {
    if |parts| == 1 {
      assert s[j..][|s| - j - |parts[0]|..] == s[|s| - |parts[0]|..];
    } else {
      hide AfterStar;
      var k := PartPosition(s[j..], parts);
      DropDrop(s, j, k);
      DropDrop(s, j, k + |parts[0]|);
      AtPart(s, j + k, parts);
    }
  }

  /** Why greed is safe: if any choice for the first part works, the leftmost one does. */
  lemma LeftmostSuffices(s: string, parts: seq<string>, idx: nat)
    requires |parts| >= 2 && idx <= |s| && parts[0] <= s[idx..]
    requires forall j :: 0 <= j < idx ==> !(parts[0] <= s[j..])
    ensures AfterStar(s, parts) <==> AfterStar(s[idx + |parts[0]|..], parts[1..])
  {
    hide AfterStar;
    var n := |parts[0]|;
    if AfterStar(s, parts) {
      var k := PartPosition(s, parts);
      DropDrop(s, idx + n, k - idx);
      AfterStarMonotone(s[idx + n..], k - idx, parts[1..]);
    }
    if AfterStar(s[idx + n..], parts[1..]) {
      AtPart(s, idx, parts);
    }
  }

  lemma LastPart(s: string, last: string)
    ensures AfterStar(s, [last]) <==> HasSuffix(s, last)
  {
  }

  lemma NoOccurrence(s: string, parts: seq<string>)
    requires |parts| >= 2
    requires forall j :: 0 <= j <= |s| ==> !(parts[0] <= s[j..])
    ensures !AfterStar(s, parts)
  {
  }

  /** Stepping over literal text at the front of a pattern. */
  lemma {:induction false} LiteralPrefix(s: string, lit: string, rest: string)
    requires '*' !in lit
    ensures Matches(s, lit + rest) <==> lit <= s && Matches(s[|lit|..], rest)
    decreases |lit|
  {
    if lit == "" {
      assert lit + rest == rest;
      assert s[0..] == s;
    } else {
      assert lit[0] in lit;
      assert (lit + rest)[1..] == lit[1..] + rest;
      if s != "" {
        LiteralPrefix(s[1..], lit[1..], rest);
        assert s == [s[0]] + s[1..] && lit == [lit[0]] + lit[1..];
        if lit[1..] <= s[1..] {
          assert s[1..][|lit| - 1..] == s[|lit|..];
        }
      }
    }
  }

  /** Some suffix of the text matches the pattern. */
  ghost predicate SomeSuffixMatches(s: string, pat: string) {
    exists k :: SuffixMatches(s, k, pat)
  }

  lemma SuffixPosition(s: string, pat: string) returns (k: nat)
    requires SomeSuffixMatches(s, pat)
    ensures k <= |s| && Matches(s[k..], pat)
  {
    hide Matches;
    k :| SuffixMatches(s, k, pat);
  }

  lemma AtSuffix(s: string, k: nat, pat: string)
    requires k <= |s| && Matches(s[k..], pat)
    ensures SomeSuffixMatches(s, pat)
  {
    hide Matches;
    assert SuffixMatches(s, k, pat);
  }

  lemma SuffixPattern(s: string, lit: string)
    requires '*' !in lit
    ensures SomeSuffixMatches(s, lit) <==> HasSuffix(s, lit)
  {
    assert lit + "" == lit;
    forall k | 0 <= k <= |s|
      ensures Matches(s[k..], lit) <==> s[k..] == lit
    {
      LiteralPrefix(s[k..], lit, "");
    }
    hide Matches;
    if SomeSuffixMatches(s, lit) {
      var k := SuffixPosition(s, lit);
    }
    if HasSuffix(s, lit) {
      AtSuffix(s, |s| - |lit|, lit);
    }
  }

  /** A literal followed by a starred rest, at one fixed place. */
  lemma LiteralThenStar(t: string, lit: string, rest: string)
    requires '*' !in lit
    ensures Matches(t, lit + ("*" + rest)) <==> lit <= t && SomeSuffixMatches(t[|lit|..], rest)
  {
    LiteralPrefix(t, lit, "*" + rest);
    assert ("*" + rest)[1..] == rest;
  }

  /** A literal, a star and the rest, after a star. */
  lemma StarredRest(s: string, lit: string, rest: string)
    requires '*' !in lit
    requires forall t :: SomeSuffixMatches(t, rest) <==> AfterStar(t, Split(rest))
    ensures SomeSuffixMatches(s, lit + ("*" + rest)) <==> AfterStar(s, [lit] + Split(rest))
  {
    hide Matches, AfterStar, Split, SomeSuffixMatches;
    var pat, parts := lit + ("*" + rest), [lit] + Split(rest);
    if SomeSuffixMatches(s, pat) {
      var k := SuffixPosition(s, pat);
      LiteralThenStar(s[k..], lit, rest);
      DropDrop(s, k, |lit|);
      AtPart(s, k, parts);
    }
    if AfterStar(s, parts) {
      var k := PartPosition(s, parts);
      LiteralThenStar(s[k..], lit, rest);
      DropDrop(s, k, |lit|);
      AtSuffix(s, k, pat);
    }
  }

  /** After a star, matching the pattern and matching its parts are the same thing. */
  lemma {:induction false} StarIsAfterStar(s: string, pat: string)
    ensures SomeSuffixMatches(s, pat) <==> AfterStar(s, Split(pat))
    decreases |pat|
  {
    var i := FirstStar(pat);
    if i == |pat| {
      assert pat[..i] == pat;
      SuffixPattern(s, pat);
    } else {
      var lit, rest := pat[..i], pat[i + 1..];
      assert pat == lit + ("*" + rest);
      assert Split(pat) == [lit] + Split(rest);
      hide Split, AfterStar, SomeSuffixMatches;
      forall t
        ensures SomeSuffixMatches(t, rest) <==> AfterStar(t, Split(rest))
      {
        StarIsAfterStar(t, rest);
      }
      StarredRest(s, lit, rest);
    }
  }

  lemma SinglePart(s: string, pat: string)
    requires |Split(pat)| == 1
    ensures Matches(s, pat) <==> s == pat
  {
    assert pat[..FirstStar(pat)] == pat && pat + "" == pat;
    LiteralPrefix(s, pat, "");
    if |pat| <= |s| && s[|pat|..] == "" {
      assert s == s[..|pat|];
    }
  }

  lemma FirstPart(s: string, pat: string)
    requires |Split(pat)| > 1
    ensures var parts := Split(pat);
            Matches(s, pat) <==> parts[0] <= s && AfterStar(s[|parts[0]|..], parts[1..])
  {
    var i := FirstStar(pat);
    var lit, rest := pat[..i], pat[i + 1..];
    assert pat == lit + ("*" + rest);
    assert Split(pat)[1..] == Split(rest);
    LiteralThenStar(s, lit, rest);
    if lit <= s {
      StarIsAfterStar(s[|lit|..], rest);
    }
  }

  // ---------- the algorithm ----------

  /** The greedy matcher accepts exactly the texts that the pattern matches. */
  method WildcardMatch(text: string, pat: string) returns (ok: bool)
    ensures ok <==> Matches(text, pat)
  {
    hide Matches, AfterStar, Split;
    var s := text;
    var parts := Split(pat);
    if |parts| == 1 {
      SinglePart(s, pat);
      return s == pat;
    }
    FirstPart(s, pat);
    ghost var want := Matches(text, pat);
    if parts[0] != "" {
      if !(parts[0] <= s) {
        return false;
      }
      s := s[|parts[0]|..];
    }
    var i := 1;
    while i < |parts| - 1
      invariant 1 <= i <= |parts| - 1
      invariant want <==> AfterStar(s, parts[i..])
    {
      ghost var rest := parts[i..];
      var idx := Index(s, parts[i]);
      assert rest[0] == parts[i] && rest[1..] == parts[i + 1..];
      if idx < 0 {
        NoOccurrence(s, rest);
        return false;
      }
      LeftmostSuffices(s, rest, idx);
      s := s[idx + |parts[i]|..];
      i := i + 1;
    }
    var last := parts[|parts| - 1];
    assert parts[i..] == [last];
    LastPart(s, last);
    assert want <==> HasSuffix(s, last);
    if last == "" {
      assert s[|s|..] == "";
      return true;
    }
    ok := |last| <= |s| && s[|s| - |last|..] == last;
  }
}
