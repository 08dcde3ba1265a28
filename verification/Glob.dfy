/** Host patterns: the greedy wildcard matcher refines the declarative meaning of `*`. */
module Glob {
  import opened Sequences

  const STAR := '*'

  function Stars(pattern: string): nat {
    if pattern == "" then 0 else (if pattern[0] == STAR then 1 else 0) + Stars(pattern[1..])
  }

  /** The string obtained from `pattern` by replacing its i-th `*` with `fills[i]`. */
  function Substitute(pattern: string, fills: seq<string>): string
    requires |fills| == Stars(pattern)
  {
    if pattern == "" then ""
    else if pattern[0] == STAR then fills[0] + Substitute(pattern[1..], fills[1..])
    else [pattern[0]] + Substitute(pattern[1..], fills)
  }

  /** What a pattern means: each `*` stands for some string, everything else for itself. */
  ghost predicate Matches(pattern: string, str: string) {
    exists fills: seq<string> :: |fills| == Stars(pattern) && Substitute(pattern, fills) == str
  }

  /** fills[0] + parts[0] + fills[1] + parts[1] + ... */
  function Weave(fills: seq<string>, parts: seq<string>): string
    requires |fills| == |parts|
  {
    if parts == [] then "" else fills[0] + parts[0] + Weave(fills[1..], parts[1..])
  }

  lemma {:induction false} SubstituteIsWeave(pattern: string, fills: seq<string>)
    requires |fills| == Stars(pattern)
    ensures var parts := Split(pattern, STAR);
            && |parts| == |fills| + 1
            && Substitute(pattern, fills) == parts[0] + Weave(fills, parts[1..])
  {
    if pattern != "" {
      var parts, rest := Split(pattern, STAR), Split(pattern[1..], STAR);
      if pattern[0] == STAR {
        SubstituteIsWeave(pattern[1..], fills[1..]);
        assert parts[0] == "" && parts[1..] == rest;
        Regroup(fills[0], rest[0], Weave(fills[1..], rest[1..]));
      } else {
        SubstituteIsWeave(pattern[1..], fills);
        assert parts[0] == [pattern[0]] + rest[0] && parts[1..] == rest[1..];
        Regroup([pattern[0]], rest[0], Weave(fills, rest[1..]));
      }
    }
  }

  lemma Regroup(a: string, b: string, c: string)
    ensures a + (b + c) == (a + b) + c && "" + c == c
  {
  }

  lemma {:induction false} SplitLength(pattern: string)
    ensures |Split(pattern, STAR)| == Stars(pattern) + 1
  {
    if pattern != "" { SplitLength(pattern[1..]); }
  }

  /** `parts` occur in `s` in this order and without overlap, at any positions whatever. */
  ghost predicate Embeds(parts: seq<string>, s: string) {
    parts == [] || exists k :: OccursAt(s, parts[0], k) && Embeds(parts[1..], s[k + |parts[0]|..])
  }

  /** A longer text embeds whatever a suffix of it embeds. */
  lemma EmbedsLater(parts: seq<string>, s: string, from: nat)
    requires from <= |s| && Embeds(parts, s[from..])
    ensures Embeds(parts, s)
  {
    if parts != [] {
      var k :| OccursAt(s[from..], parts[0], k) && Embeds(parts[1..], s[from..][k + |parts[0]|..]);
      assert s[from..][k..k + |parts[0]|] == s[from + k..from + k + |parts[0]|];
      assert s[from..][k + |parts[0]|..] == s[from + k + |parts[0]|..];
      assert OccursAt(s, parts[0], from + k);
    }
  }

  /** The greedy choice is complete: if the parts embed at all, they embed with the first one leftmost. */
  lemma GreedyIsComplete(parts: seq<string>, s: string)
    requires parts != []
    ensures var k := Index(s, parts[0]);
            Embeds(parts, s) <==> k >= 0 && Embeds(parts[1..], s[k + |parts[0]|..])
  {
    var k := Index(s, parts[0]);
    if k >= 0 && Embeds(parts[1..], s[k + |parts[0]|..]) {
      assert OccursAt(s, parts[0], k);
    }
    if Embeds(parts, s) {
      var j :| OccursAt(s, parts[0], j) && Embeds(parts[1..], s[j + |parts[0]|..]);
      var after := s[k + |parts[0]|..];
      assert after[j - k..] == s[j + |parts[0]|..];
      EmbedsLater(parts[1..], after, j - k);
    }
  }

  lemma EmptyPart(parts: seq<string>, s: string)
    requires parts != []
    ensures parts[0] == "" ==> (Embeds(parts, s) <==> Embeds(parts[1..], s))
  {
    if parts[0] == "" {
      GreedyIsComplete(parts, s);
      assert OccursAt(s, parts[0], 0);
      assert s[0..] == s;
    }
  }

  /** Embedding the middle parts is the same as finding strings to weave between all parts. */
  lemma {:induction false} EmbedsGivesFills(mids: seq<string>, last: string, s: string) returns (fills: seq<string>)
    requires Embeds(mids, s)
    ensures |fills| == |mids| + 1 && Weave(fills, mids + [last]) == s + last
  {
    if mids == [] {
      fills := [s];
      assert Weave(fills[1..], (mids + [last])[1..]) == "";
    } else {
      var k :| OccursAt(s, mids[0], k) && Embeds(mids[1..], s[k + |mids[0]|..]);
      var rest := EmbedsGivesFills(mids[1..], last, s[k + |mids[0]|..]);
      fills := [s[..k]] + rest;
      assert (mids + [last])[1..] == mids[1..] + [last];
      assert s == s[..k] + mids[0] + s[k + |mids[0]|..];
    }
  }

  lemma {:induction false} FillsGiveEmbeds(fills: seq<string>, mids: seq<string>, last: string)
    requires |fills| == |mids| + 1
    ensures var t := Weave(fills, mids + [last]);
            HasSuffix(t, last) && Embeds(mids, t[..|t| - |last|])
  {
    var t := Weave(fills, mids + [last]);
    if mids == [] {
      assert Weave(fills[1..], (mids + [last])[1..]) == "";
      assert t == fills[0] + last;
    } else {
      assert (mids + [last])[1..] == mids[1..] + [last];
      FillsGiveEmbeds(fills[1..], mids[1..], last);
      var u := Weave(fills[1..], mids[1..] + [last]);
      assert t == fills[0] + mids[0] + u;
      assert t[|t| - |last|..] == u[|u| - |last|..];
      EmbedsAfter(fills[0], mids, u[..|u| - |last|]);
      assert t[..|t| - |last|] == fills[0] + mids[0] + u[..|u| - |last|];
    }
  }

  lemma EmbedsAfter(fill: string, parts: seq<string>, rest: string)
    requires parts != [] && Embeds(parts[1..], rest)
    ensures Embeds(parts, fill + parts[0] + rest)
  {
    var s, k := fill + parts[0] + rest, |fill|;
    assert s[k..k + |parts[0]|] == parts[0];
    assert s[k + |parts[0]|..] == rest;
    assert OccursAt(s, parts[0], k);
  }

  /** What the parts of a pattern with at least one `*` ask of a string. */
  ghost predicate PartsMatch(first: string, mids: seq<string>, last: string, str: string) {
    && first <= str
    && |first| + |last| <= |str|
    && HasSuffix(str, last)
    && Embeds(mids, str[|first|..|str| - |last|])
  }

  /** The tests may be made on the string `t` that follows the first part. */
  lemma AfterFirst(first: string, mids: seq<string>, last: string, t: string)
    ensures PartsMatch(first, mids, last, first + t) <==> HasSuffix(t, last) && Embeds(mids, t[..|t| - |last|])
  {
    var str := first + t;
    if |last| <= |t| {
      assert str[|str| - |last|..] == t[|t| - |last|..];
      assert str[|first|..|str| - |last|] == t[..|t| - |last|];
    }
  }

  lemma PartsImplyMatches(pattern: string, first: string, mids: seq<string>, last: string, str: string)
    requires Split(pattern, STAR) == [first] + mids + [last]
    requires PartsMatch(first, mids, last, str)
    ensures Matches(pattern, str)
  {
    var core := str[|first|..|str| - |last|];
    var fills := EmbedsGivesFills(mids, last, core);
    SplitLength(pattern);
    SubstituteIsWeave(pattern, fills);
    assert Split(pattern, STAR)[1..] == mids + [last];
    ThreeParts(str, first, last);
  }

  lemma ThreeParts(str: string, first: string, last: string)
    requires first <= str && HasSuffix(str, last) && |first| + |last| <= |str|
    ensures str == first + (str[|first|..|str| - |last|] + last)
  {
  }

  lemma SubstitutedTail(pattern: string, first: string, mids: seq<string>, last: string, fills: seq<string>) returns (t: string)
    requires Split(pattern, STAR) == [first] + mids + [last] && |fills| == Stars(pattern)
    ensures Substitute(pattern, fills) == first + t && HasSuffix(t, last) && Embeds(mids, t[..|t| - |last|])
  {
    SubstituteIsWeave(pattern, fills);
    assert Split(pattern, STAR)[1..] == mids + [last];
    t := Weave(fills, mids + [last]);
    FillsGiveEmbeds(fills, mids, last);
  }

  /** A pattern with at least one `*` means: first part, then the middle parts embedded, then the last part. */
  lemma MatchesByParts(pattern: string, first: string, mids: seq<string>, last: string, str: string)
    requires Split(pattern, STAR) == [first] + mids + [last]
    ensures Matches(pattern, str) <==> PartsMatch(first, mids, last, str)
  {
    SplitLength(pattern);
    if Matches(pattern, str) {
      var fills: seq<string> :| |fills| == Stars(pattern) && Substitute(pattern, fills) == str;
      var t := SubstitutedTail(pattern, first, mids, last, fills);
      AfterFirst(first, mids, last, t);
    } else if PartsMatch(first, mids, last, str) {
      PartsImplyMatches(pattern, first, mids, last, str);
    }
  }

  /** A pattern without `*` stands for itself only. */
  lemma {:induction false} StarFree(pattern: string, str: string)
    requires STAR !in pattern
    ensures Stars(pattern) == 0 && Substitute(pattern, []) == pattern
    ensures Matches(pattern, str) <==> pattern == str
  {
    if pattern != "" { StarFree(pattern[1..], pattern[1..]); }
    assert Matches(pattern, pattern) by { var none: seq<string> := []; assert Substitute(pattern, none) == pattern; }
    assert forall fills: seq<string> :: |fills| == 0 ==> fills == [];
  }

  method MatchWildcard(pattern: string, str: string) returns (b: bool)
    ensures b <==> Matches(pattern, str)
  {
    var parts := Split(pattern, STAR);
    if |parts| == 1 {
      StarFree(pattern, str);
      return pattern == str;
    }
    ghost var mids := parts[1..|parts| - 1];
    var lastPart := parts[|parts| - 1];
    assert parts == [parts[0]] + mids + [lastPart];
    MatchesByParts(pattern, parts[0], mids, lastPart, str);
    var s := str;
    if parts[0] != "" && !(parts[0] <= s) {
      return false;
    }
    s := s[|parts[0]|..];
    assert str == parts[0] + s;
    AfterFirst(parts[0], mids, lastPart, s);
    if lastPart != "" && !HasSuffix(s, lastPart) {
      return false;
    }
    ghost var core := s[..|s| - |lastPart|];
    if lastPart != "" {
      s := s[..|s| - |lastPart|];
    }
    assert s == core;
    b := MatchMiddles(parts, s);
  }

  /** The loop over the parts between the first and the last `*`. */
  method MatchMiddles(parts: seq<string>, str: string) returns (b: bool)
    requires |parts| > 1
    ensures b <==> Embeds(parts[1..|parts| - 1], str)
  {
    var s := str;
    ghost var mids := parts[1..|parts| - 1];
    for i := 1 to |parts| - 1
      invariant mids == parts[i..|parts| - 1]
      invariant Embeds(mids, s) <==> Embeds(parts[1..|parts| - 1], str)
    {
      GreedyIsComplete(mids, s);
      EmptyPart(mids, s);
      mids := mids[1..];
      if parts[i] == "" {
        continue;
      }
      var idx := Index(s, parts[i]);
      if idx < 0 {
        return false;
      }
      s := s[idx + |parts[i]|..];
    }
    return true;
  }

  /** The shape of a pattern that is one `*` between two star-free ends. */
  lemma {:induction false} OneStar(before: string, after: string, str: string)
    requires STAR !in before && STAR !in after
    ensures Split(before + [STAR] + after, STAR) == [before, after]
    ensures Matches(before + [STAR] + after, str)
            <==> before <= str && |before| + |after| <= |str| && HasSuffix(str, after)
  {
    OneStarSplit(before, after);
    assert [before, after] == [before] + [] + [after];
    MatchesByParts(before + [STAR] + after, before, [], after, str);
  }

  lemma {:induction false} OneStarSplit(before: string, after: string)
    requires STAR !in before && STAR !in after
    ensures Split(before + [STAR] + after, STAR) == [before, after]
  {
    var p := before + [STAR] + after;
    if before == "" {
      assert p[1..] == after;
      StarFreeSplit(after);
    } else {
      assert p[0] == before[0] && p[1..] == before[1..] + [STAR] + after;
      OneStarSplit(before[1..], after);
      assert [p[0]] + before[1..] == before;
    }
  }

  lemma {:induction false} StarFreeSplit(s: string)
    requires STAR !in s
    ensures Split(s, STAR) == [s]
  {
    if s != "" { StarFreeSplit(s[1..]); }
  }

  lemma StarFirst(pattern: string, str: string)
    requires "*." <= pattern && STAR !in pattern[2..]
    ensures Matches(pattern, str) <==> HasSuffix(str, pattern[1..])
  {
    var suffix := pattern[1..];
    assert suffix == "." + pattern[2..];
    OneStar("", suffix, str);
    assert "" + [STAR] + suffix == pattern;
  }

  lemma StarLast(pattern: string, str: string)
    requires HasSuffix(pattern, ".*") && STAR !in pattern[..|pattern| - 2]
    ensures Matches(pattern, str) <==> pattern[..|pattern| - 2] + "." <= str
  {
    var prefix := pattern[..|pattern| - 2] + ".";
    OneStar(prefix, "", str);
    assert prefix + [STAR] + "" == pattern;
  }

  /** The three shortcuts and the general matcher decide the same relation. */
  method MatchGlob(pattern: string, str: string) returns (b: bool)
    ensures b <==> Matches(pattern, str)
  {
    if pattern == "*" {
      OneStar("", "", str);
      assert "" + [STAR] + "" == pattern;
      return true;
    }
    if "*." <= pattern && STAR !in pattern[2..] {
      StarFirst(pattern, str);
      var suffix := pattern[1..];
      return HasSuffix(str, suffix);
    }
    if HasSuffix(pattern, ".*") && STAR !in pattern[..|pattern| - 2] {
      StarLast(pattern, str);
      var prefix := pattern[..|pattern| - 2];
      return prefix + "." <= str;
    }
    if STAR in pattern {
      b := MatchWildcard(pattern, str);
      return;
    }
    StarFree(pattern, str);
    return pattern == str;
  }
}
