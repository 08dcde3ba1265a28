/**
  The library functions on byte strings that several components call, each pinned down by a
  contract: `strings.Index`, `strings.Split` and `bytes.ReplaceAll`.
 */
module Sequences {

  predicate HasSuffix<T(==)>(s: seq<T>, suffix: seq<T>) {
    |suffix| <= |s| && s[|s| - |suffix|..] == suffix
  }

  /** `sub` occurs in `s` starting at index `k`. */
  predicate OccursAt<T(==)>(s: seq<T>, sub: seq<T>, k: int) {
    0 <= k && k + |sub| <= |s| && s[k..k + |sub|] == sub
  }

  lemma OccursInTail<T>(s: seq<T>, sub: seq<T>, k: int)
    requires s != [] && k > 0
    ensures OccursAt(s, sub, k) <==> OccursAt(s[1..], sub, k - 1)
  {
    if k + |sub| <= |s| { assert s[1..][k - 1..k - 1 + |sub|] == s[k..k + |sub|]; }
  }

  /** The leftmost occurrence of `sub` in `s`, or -1. */
  function Index<T(==)>(s: seq<T>, sub: seq<T>): (r: int)
    ensures r == -1 || OccursAt(s, sub, r)
    ensures forall k :: OccursAt(s, sub, k) ==> 0 <= r <= k
  {
    if |s| < |sub| then -1
    else if sub <= s then 0
    else
      var r := Index(s[1..], sub);
      assert forall k :: OccursAt(s, sub, k) ==> k > 0 && OccursAt(s[1..], sub, k - 1) by {
        forall k | OccursAt(s, sub, k) ensures k > 0 && OccursAt(s[1..], sub, k - 1) {
          if k > 0 { OccursInTail(s, sub, k); }
        }
      }
      if r == -1 then -1 else OccursInTail(s, sub, r + 1); r + 1
  }

  /** The inverse of `Split`: the parts with one separator between neighbours. */
  function Join<T>(parts: seq<seq<T>>, sep: T): seq<T>
    requires |parts| > 0
  {
    if |parts| == 1 then parts[0] else parts[0] + [sep] + Join(parts[1..], sep)
  }

  /** `strings.Split` at a one-character separator. */
  function Split<T(==)>(s: seq<T>, sep: T): (parts: seq<seq<T>>)
    ensures |parts| > 0
    ensures Join(parts, sep) == s
    ensures forall i :: 0 <= i < |parts| ==> sep !in parts[i]
  {
    if s == [] then [[]]
    else
      var rest := Split(s[1..], sep);
      if s[0] == sep then [[]] + rest else [[s[0]] + rest[0]] + rest[1..]
  }

  /** `bytes.ReplaceAll`: every leftmost non-overlapping occurrence of a non-empty `find`. */
  function ReplaceAll<T(==)>(s: seq<T>, find: seq<T>, replace: seq<T>): seq<T>
    requires find != []
  {
    if |s| < |find| then s
    else if find <= s then replace + ReplaceAll(s[|find|..], find, replace)
    else [s[0]] + ReplaceAll(s[1..], find, replace)
  }

  /** Replacing introduces no element that neither the text nor the replacement has. */
  lemma {:induction false} ReplaceAllElements<T>(s: seq<T>, find: seq<T>, replace: seq<T>, x: T)
    requires find != []
    requires x !in s && x !in replace
    ensures x !in ReplaceAll(s, find, replace)
  {
    if |s| < |find| {
    } else if find <= s {
      ReplaceAllElements(s[|find|..], find, replace, x);
    } else {
      ReplaceAllElements(s[1..], find, replace, x);
    }
  }

  /** Nothing is replaced in a text that lacks some element of `find`. */
  lemma {:induction false} ReplaceAllMisses<T>(s: seq<T>, find: seq<T>, replace: seq<T>, x: T)
    requires x in find && x !in s
    ensures ReplaceAll(s, find, replace) == s
  {
    if |s| < |find| {
    } else if find <= s {
      assert false;
    } else {
      ReplaceAllMisses(s[1..], find, replace, x);
    }
  }

  /** Every occurrence is replaced, from the left, each search going on behind the last match. */
  lemma {:induction false} ReplaceAllExactly<T>(s: seq<T>, find: seq<T>, replace: seq<T>)
    requires find != []
    ensures var k := Index(s, find);
            ReplaceAll(s, find, replace)
            == if k < 0 then s else s[..k] + replace + ReplaceAll(s[k + |find|..], find, replace)
  {
    if |s| >= |find| {
      if find <= s {
        assert OccursAt(s, find, 0);
      } else {
        ReplaceAllExactly(s[1..], find, replace);
        IndexOfTail(s, find);
        var l := Index(s[1..], find);
        if l >= 0 { Prepend(s, l, |find|, replace, ReplaceAll(s[1..][l + |find|..], find, replace)); }
      }
    }
  }

  lemma Prepend<T>(s: seq<T>, l: nat, n: nat, middle: seq<T>, rest: seq<T>)
    requires s != [] && l + n < |s|
    ensures [s[0]] + (s[1..][..l] + middle + rest) == s[..l + 1] + middle + rest
    ensures s[1..][l + n..] == s[l + 1 + n..]
  {
    assert [s[0]] + s[1..][..l] == s[..l + 1];
  }

  /** A text that does not start with what is searched for has it one place later than its rest. */
  lemma IndexOfTail<T>(s: seq<T>, sub: seq<T>)
    requires s != [] && sub != [] && !(sub <= s)
    ensures var k, l := Index(s, sub), Index(s[1..], sub);
            k == if l < 0 then -1 else l + 1
  {
    if |s| < |sub| { assert Index(s[1..], sub) == -1; }
  }

  ghost predicate Distinct<T>(s: seq<T>) {
    forall i, j :: 0 <= i < j < |s| ==> s[i] != s[j]
  }

  lemma DistinctStep<T>(x: T, rest: seq<T>)
    ensures Distinct([x] + rest) <==> Distinct(rest) && x !in rest
  {
    var s := [x] + rest;
    if Distinct(s) {
      forall i | 0 <= i < |rest| ensures rest[i] != x { assert s[0] != s[i + 1]; }
      forall i, j | 0 <= i < j < |rest| ensures rest[i] != rest[j] { assert s[i + 1] != s[j + 1]; }
    }
  }

  lemma {:induction false} DistinctCounts<T>(s: seq<T>)
    ensures Distinct(s) <==> forall x :: multiset(s)[x] <= 1
  {
    if s != [] {
      var rest := s[1..];
      DistinctCounts(rest);
      DistinctStep(s[0], rest);
      assert s == [s[0]] + rest;
      assert s[0] in rest <==> s[0] in multiset(rest);
      assert forall x :: multiset(rest)[x] <= multiset(s)[x];
      assert multiset(s)[s[0]] == 1 + multiset(rest)[s[0]];
    }
  }

  /** A permutation has the same elements, and repeats none if the original repeats none. */
  lemma PermutationKeeps<T>(a: seq<T>, b: seq<T>)
    requires multiset(a) == multiset(b)
    ensures forall x :: x in a <==> x in b
    ensures Distinct(a) <==> Distinct(b)
  {
    DistinctCounts(a);
    DistinctCounts(b);
    forall x ensures x in a <==> x in b {
      assert x in a <==> x in multiset(a);
      assert x in b <==> x in multiset(b);
    }
  }
}
