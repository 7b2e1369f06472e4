/** Order-preserving sequence operations used by both the backend and the pages:
    filtering, first occurrences and de-duplication. */
module Seqs {

  /** `sub` is obtained from `s` by deleting elements, keeping the order of the rest. */
  ghost predicate IsSubsequence<T>(sub: seq<T>, s: seq<T>)
    decreases |s|
  {
    if sub == [] then true
    else if s == [] then false
    else (sub[0] == s[0] && IsSubsequence(sub[1..], s[1..])) || IsSubsequence(sub, s[1..])
  }

  /** Every sequence is a subsequence of itself. */
  lemma {:induction false} SubsequenceOfItself<T>(s: seq<T>)
    ensures IsSubsequence(s, s)
  {
    if s != [] {
      SubsequenceOfItself(s[1..]);
    }
  }

  /** No element occurs twice. */
  predicate NoDuplicates<T(==,!new)>(s: seq<T>) {
    forall i, j | 0 <= i < j < |s| :: s[i] != s[j]
  }

  /** The elements of `s` for which `keep` holds, in their original order
      (JavaScript's `Array.prototype.filter`, Python's `re.sub` with an empty replacement). */
  function Filter<T(==,!new)>(s: seq<T>, keep: T -> bool): (r: seq<T>)
    ensures forall i | 0 <= i < |r| :: keep(r[i])
    ensures forall x :: multiset(r)[x] == if keep(x) then multiset(s)[x] else 0
    ensures IsSubsequence(r, s)
  {
    if s == [] then []
    else
      assert s == [s[0]] + s[1..];
      var rest := Filter(s[1..], keep);
      if keep(s[0]) then
        assert ([s[0]] + rest)[1..] == rest;
        [s[0]] + rest
      else rest
  }

  /** Filtering keeps a sequence whose every element passes. */
  lemma {:induction false} FilterKeepsAll<T(!new)>(s: seq<T>, keep: T -> bool)
    requires forall i | 0 <= i < |s| :: keep(s[i])
    ensures Filter(s, keep) == s
  {
    if s != [] {
      FilterKeepsAll(s[1..], keep);
    }
  }

  /** Filtering twice by the same test is filtering once. */
  lemma FilterIdempotent<T(!new)>(s: seq<T>, keep: T -> bool)
    ensures Filter(Filter(s, keep), keep) == Filter(s, keep)
  {
    FilterKeepsAll(Filter(s, keep), keep);
  }

  /** The position of the first occurrence of `x` in `s`. */
  function FirstIndex<T(==,!new)>(s: seq<T>, x: T): (k: nat)
    requires x in s
    ensures k < |s| && s[k] == x
    ensures forall j | 0 <= j < k :: s[j] != x
  {
    if s[0] == x then 0
    else
      var k := FirstIndex(s[1..], x);
      assert forall j | 1 <= j < k + 1 :: s[j] == s[1..][j - 1];
      k + 1
  }

  /** An element's first occurrence does not move when elements are appended. */
  lemma FirstIndexOfPrefix<T(!new)>(s: seq<T>, n: nat, x: T)
    requires n <= |s| && x in s[..n]
    ensures FirstIndex(s[..n], x) == FirstIndex(s, x)
  {
    assert forall j | 0 <= j < n :: s[..n][j] == s[j];
  }

  /** The distinct elements of `s` in order of first occurrence, as produced by
      JavaScript's `Array.from(new Set(s))`. */
  function Distinct<T(==,!new)>(s: seq<T>): (r: seq<T>)
    ensures NoDuplicates(r)
    ensures forall x :: x in r <==> x in s
    ensures forall i, j | 0 <= i < j < |r| :: FirstIndex(s, r[i]) < FirstIndex(s, r[j])
  {
    if s == [] then []
    else
      var init := s[..|s| - 1];
      var last := s[|s| - 1];
      var d := Distinct(init);
      assert s == init + [last];
      assert forall i | 0 <= i < |d| :: FirstIndex(init, d[i]) == FirstIndex(s, d[i]) by {
        forall i | 0 <= i < |d| {
          FirstIndexOfPrefix(s, |s| - 1, d[i]);
        }
      }
      if last in d then d
      else
        assert FirstIndex(s, last) == |s| - 1 by {
          assert last !in init;
        }
        d + [last]
  }

  /** Appending an element extends the distinct elements only when it is new. */
  lemma DistinctSnoc<T(!new)>(s: seq<T>, x: T)
    ensures Distinct(s + [x]) == if x in Distinct(s) then Distinct(s) else Distinct(s) + [x]
  {
    assert (s + [x])[..|s + [x]| - 1] == s;
  }

  /** A list without duplicates is its own list of distinct elements. */
  lemma {:induction false} DistinctOfUnique<T(!new)>(s: seq<T>)
    requires NoDuplicates(s)
    ensures Distinct(s) == s
  {
    if s != [] {
      var init, last := s[..|s| - 1], s[|s| - 1];
      assert s == init + [last];
      assert last !in init by {
        assert forall j | 0 <= j < |init| :: init[j] == s[j];
      }
      DistinctOfUnique(init);
      DistinctSnoc(init, last);
    }
  }

  /** Appending an element already seen and then a new one keeps only the new one. */
  lemma DistinctSeenThenNew<T(!new)>(u: seq<T>, x: T, y: T)
    requires NoDuplicates(u) && x in u && y !in u
    ensures Distinct(u + [x] + [y]) == u + [y]
  {
    DistinctOfUnique(u);
    DistinctSnoc(u, x);
    DistinctSnoc(u + [x], y);
  }
}
