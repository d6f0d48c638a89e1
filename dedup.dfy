/**
 * Exact-duplicate detection with keep="first", the rule behind both
 * `DataFrame.duplicated()` and `DataFrame.drop_duplicates()`: a row is a
 * duplicate when an equal row occurs earlier. Missing values compare equal
 * to each other here, as they do in pandas.
 */
module Deduplication {

  /** Position `i` holds the first occurrence of its value. */
  predicate IsFirst<T(==)>(s: seq<T>, i: nat)
    requires i < |s|
  {
    s[i] !in s[..i]
  }

  /** The positions that hold a first occurrence, in increasing order. */
  function FirstOccurrences<T(==)>(s: seq<T>): (k: seq<nat>)
    ensures forall a :: 0 <= a < |k| ==> k[a] < |s|
    ensures forall a, b :: 0 <= a < b < |k| ==> k[a] < k[b]
    ensures forall i :: 0 <= i < |s| ==> (i in k <==> IsFirst(s, i))
  {
    if s == [] then []
    else
      var front := s[..|s| - 1];
      var f := FirstOccurrences(front);
      assert forall i :: 0 <= i < |front| ==> front[..i] == s[..i];
      if s[|s| - 1] in front then f else f + [|s| - 1]
  }

  /** The rows `drop_duplicates()` keeps, in their original order. */
  function Dedup<T(==)>(s: seq<T>): seq<T>
  {
    if s == [] then []
    else
      var front := s[..|s| - 1];
      if s[|s| - 1] in front then Dedup(front) else Dedup(front) + [s[|s| - 1]]
  }

  /** The number of rows `duplicated()` marks: positions whose value occurs earlier. */
  function DuplicatedCount<T(==)>(s: seq<T>): nat
  {
    if s == [] then 0
    else
      var front := s[..|s| - 1];
      DuplicatedCount(front) + (if s[|s| - 1] in front then 1 else 0)
  }

  predicate Distinct<T(==)>(s: seq<T>)
  {
    forall a, b :: 0 <= a < b < |s| ==> s[a] != s[b]
  }

  /** The result of `Dedup` is exactly the subsequence of `s` at the
      first-occurrence positions. */
  lemma {:induction false} DedupPicksFirstOccurrences<T>(s: seq<T>)
    ensures |Dedup(s)| == |FirstOccurrences(s)|
    ensures forall a :: 0 <= a < |Dedup(s)| ==> Dedup(s)[a] == s[FirstOccurrences(s)[a]]
  {
    if s != [] {
      var front := s[..|s| - 1];
      DedupPicksFirstOccurrences(front);
    }
  }

  /** Every value of `s` survives, and nothing else appears. */
  lemma {:induction false} DedupSameValues<T>(s: seq<T>)
    ensures forall x :: x in Dedup(s) <==> x in s
  {
    if s != [] {
      var front := s[..|s| - 1];
      DedupSameValues(front);
      assert s == front + [s[|s| - 1]];
    }
  }

  /** No two rows of the result are equal. */
  lemma {:induction false} DedupDistinct<T>(s: seq<T>)
    ensures Distinct(Dedup(s))
  {
    if s != [] {
      var front := s[..|s| - 1];
      DedupDistinct(front);
      DedupSameValues(front);
    }
  }

  /** The reported `removed` count equals the `duplicated().sum()` count. */
  lemma {:induction false} DedupRemovesDuplicated<T>(s: seq<T>)
    ensures |Dedup(s)| + DuplicatedCount(s) == |s|
  {
    if s != [] {
      DedupRemovesDuplicated(s[..|s| - 1]);
    }
  }

  /** A sequence without repeats is left alone. */
  lemma {:induction false} DedupOfDistinct<T>(s: seq<T>)
    requires Distinct(s)
    ensures Dedup(s) == s
    ensures DuplicatedCount(s) == 0
  {
    if s != [] {
      var front := s[..|s| - 1];
      assert Distinct(front);
      DedupOfDistinct(front);
      assert s[|s| - 1] !in front by {
        forall a | 0 <= a < |front| ensures front[a] != s[|s| - 1] {
          assert front[a] == s[a];
        }
      }
      assert s == front + [s[|s| - 1]];
    }
  }

  /** Applying `drop_duplicates()` twice is the same as applying it once. */
  lemma DedupIdempotent<T>(s: seq<T>)
    ensures Dedup(Dedup(s)) == Dedup(s)
    ensures DuplicatedCount(Dedup(s)) == 0
  {
    DedupDistinct(s);
    DedupOfDistinct(Dedup(s));
  }

  /** When every value is distinct, every position is a first occurrence. */
  lemma FirstOccurrencesOfDistinct<T>(s: seq<T>)
    requires Distinct(s)
    ensures FirstOccurrences(s) == seq(|s|, i => i)
  {
    DedupPicksFirstOccurrences(s);
    DedupOfDistinct(s);
    var k := FirstOccurrences(s);
    forall a | 0 <= a < |k| ensures k[a] == a {
      IncreasingIsIdentity(k, |s|, a);
    }
  }

  /** A strictly increasing list of |k| indices below |k| is 0, 1, ..., |k|-1. */
  lemma {:induction false} IncreasingIsIdentity(k: seq<nat>, n: nat, a: nat)
    requires |k| == n
    requires forall x :: 0 <= x < |k| ==> k[x] < n
    requires forall x, y :: 0 <= x < y < |k| ==> k[x] < k[y]
    requires a < |k|
    ensures k[a] == a
  {
    LowerBound(k, a);
    UpperBound(k, n, a);
  }

  lemma {:induction false} LowerBound(k: seq<nat>, a: nat)
    requires forall x, y :: 0 <= x < y < |k| ==> k[x] < k[y]
    requires a < |k|
    ensures k[a] >= a
  {
    if a > 0 {
      LowerBound(k, a - 1);
    }
  }

  lemma {:induction false} UpperBound(k: seq<nat>, n: nat, a: nat)
    requires |k| == n
    requires forall x :: 0 <= x < |k| ==> k[x] < n
    requires forall x, y :: 0 <= x < y < |k| ==> k[x] < k[y]
    requires a < |k|
    ensures k[a] <= a
    decreases |k| - a
  {
    if a < |k| - 1 {
      UpperBound(k, n, a + 1);
    }
  }

  /** Appending copies of earlier elements adds only duplicates: the
      first occurrences, and so the result of `Dedup`, do not change. */
  lemma {:induction false} DedupIgnoresCopies<T>(s: seq<T>, extra: seq<T>)
    requires forall e :: 0 <= e < |extra| ==> extra[e] in s
    ensures Dedup(s + extra) == Dedup(s)
    ensures DuplicatedCount(s + extra) == DuplicatedCount(s) + |extra|
  {
    if extra != [] {
      var front := extra[..|extra| - 1];
      DedupIgnoresCopies(s, front);
      assert (s + extra)[..|s + extra| - 1] == s + front;
      assert extra[|extra| - 1] in s + front;
    } else {
      assert s + extra == s;
    }
  }
}
