/**
 * The statistics the cleaner computes with pandas: `Series.quantile` (the
 * default linear interpolation between order statistics), `Series.median`,
 * the IQR fences [Q1 - 1.5 IQR, Q3 + 1.5 IQR], `np.clip`, and
 * `Series.mode()[0]`. Arithmetic is exact (`real`), not IEEE double.
 */
module Stats {
  import opened Text
  import opened Wrappers

  predicate Sorted(s: seq<real>)
  {
    forall i, j :: 0 <= i < j < |s| ==> s[i] <= s[j]
  }

  // ------------------------------------------------------------ sorting

  function Insert(x: real, s: seq<real>): (r: seq<real>)
    requires Sorted(s)
    ensures Sorted(r) && multiset(r) == multiset(s) + multiset{x} && |r| == |s| + 1
    ensures forall i :: 0 <= i < |r| ==> r[i] == x || r[i] in s
  {
    if s == [] || x <= s[0] then [x] + s
    else
      var rest := Insert(x, s[1..]);
      assert s == [s[0]] + s[1..];
      [s[0]] + rest
  }

  /** The ascending order pandas sorts a column into before interpolating. */
  function Sort(s: seq<real>): (r: seq<real>)
    ensures Sorted(r) && multiset(r) == multiset(s) && |r| == |s|
  {
    if s == [] then []
    else
      assert s == [s[0]] + s[1..];
      Insert(s[0], Sort(s[1..]))
  }

  // ------------------------------------------------------------ counting

  function CountAtMost(s: seq<real>, v: real): (n: nat)
    ensures n <= |s|
  {
    if s == [] then 0 else (if s[0] <= v then 1 else 0) + CountAtMost(s[1..], v)
  }

  function CountAtLeast(s: seq<real>, v: real): (n: nat)
    ensures n <= |s|
  {
    if s == [] then 0 else (if s[0] >= v then 1 else 0) + CountAtLeast(s[1..], v)
  }

  lemma {:induction false} CountInsert(x: real, s: seq<real>, v: real)
    requires Sorted(s)
    ensures CountAtMost(Insert(x, s), v) == (if x <= v then 1 else 0) + CountAtMost(s, v)
    ensures CountAtLeast(Insert(x, s), v) == (if x >= v then 1 else 0) + CountAtLeast(s, v)
  {
    if s != [] && !(x <= s[0]) {
      CountInsert(x, s[1..], v);
      assert Insert(x, s)[1..] == Insert(x, s[1..]);
    }
  }

  /** Sorting does not change how many values lie on either side of `v`. */
  lemma {:induction false} CountSort(xs: seq<real>, v: real)
    ensures CountAtMost(Sort(xs), v) == CountAtMost(xs, v)
    ensures CountAtLeast(Sort(xs), v) == CountAtLeast(xs, v)
  {
    if xs != [] {
      CountSort(xs[1..], v);
      CountInsert(xs[0], Sort(xs[1..]), v);
    }
  }

  lemma {:induction false} CountAtMostPrefix(s: seq<real>, v: real, k: nat)
    requires k <= |s|
    requires forall i :: 0 <= i < k ==> s[i] <= v
    ensures CountAtMost(s, v) >= k
  {
    if k > 0 {
      CountAtMostPrefix(s[1..], v, k - 1);
    }
  }

  lemma {:induction false} CountAtLeastSuffix(s: seq<real>, v: real, k: nat)
    requires k <= |s|
    requires forall i :: k <= i < |s| ==> s[i] >= v
    ensures CountAtLeast(s, v) >= |s| - k
  {
    if s != [] {
      if k == 0 {
        CountAtLeastSuffix(s[1..], v, 0);
      } else {
        CountAtLeastSuffix(s[1..], v, k - 1);
      }
    }
  }

  // ------------------------------------------------------------ quantile

  /** Where a probability `q` falls among `n` sorted values: the index
      `lo` of the order statistic below it and the fraction `frac` of the
      way to the next one. */
  datatype Position = Position(lo: nat, frac: real)

  function Locate(n: nat, q: real): (p: Position)
    requires n >= 1 && 0.0 <= q <= 1.0
    ensures p.lo < n && 0.0 <= p.frac < 1.0
    ensures p.lo as real + p.frac == (n - 1) as real * q
  {
    var pos := (n - 1) as real * q;
    assert 0.0 <= pos <= (n - 1) as real by { ScaleBelow((n - 1) as real, q); }
    var lo := pos.Floor;
    Position(lo, pos - lo as real)
  }

  lemma ScaleBelow(a: real, f: real)
    requires a >= 0.0 && 0.0 <= f <= 1.0
    ensures 0.0 <= a * f <= a
  {
  }

  /** The point a fraction `f` of the way from `a` to `b`. */
  function Interpolate(a: real, b: real, f: real): (r: real)
    requires a <= b && 0.0 <= f <= 1.0
    ensures a <= r <= b
  {
    var d := b - a;
    ScaleBelow(d, f);
    var e := d * f;
    assert 0.0 <= e <= d;
    a + e
  }

  lemma MulNonnegative(x: real, y: real)
    requires x >= 0.0 && y >= 0.0
    ensures x * y >= 0.0
  {
  }

  lemma ScaleMonotone(d: real, f: real, g: real)
    requires d >= 0.0 && f <= g
    ensures d * f <= d * g
  {
    MulNonnegative(d, g - f);
    assert d * g - d * f == d * (g - f);
  }

  lemma InterpolateMonotone(a: real, b: real, f: real, g: real)
    requires a <= b && 0.0 <= f <= g <= 1.0
    ensures Interpolate(a, b, f) <= Interpolate(a, b, g)
  {
    var d := b - a;
    ScaleMonotone(d, f, g);
    var x, y := d * f, d * g;
    assert Interpolate(a, b, f) == a + x;
    assert Interpolate(a, b, g) == a + y;
  }

  /** `Series.quantile(q)` with linear interpolation, on the sorted non-missing values. */
  function Quantile(xs: seq<real>, q: real): (r: real)
    requires |xs| > 0 && Sorted(xs) && 0.0 <= q <= 1.0
    ensures xs[0] <= r <= xs[|xs| - 1]
    ensures xs[Locate(|xs|, q).lo] <= r
    ensures Locate(|xs|, q).lo + 1 < |xs| ==> r <= xs[Locate(|xs|, q).lo + 1]
  {
    var p := Locate(|xs|, q);
    if p.lo + 1 < |xs| then Interpolate(xs[p.lo], xs[p.lo + 1], p.frac) else xs[p.lo]
  }

  lemma LocateMonotone(n: nat, p: real, q: real)
    requires n >= 1 && 0.0 <= p <= q <= 1.0
    ensures Locate(n, p).lo <= Locate(n, q).lo
    ensures Locate(n, p).lo == Locate(n, q).lo ==> Locate(n, p).frac <= Locate(n, q).frac
  {
    var x, y := (n - 1) as real * p, (n - 1) as real * q;
    ScaleMonotone((n - 1) as real, p, q);
    assert x <= y;
    assert Locate(n, p).lo == x.Floor && Locate(n, q).lo == y.Floor;
    assert x.Floor as real <= x && y < y.Floor as real + 1.0;
  }

  /** A higher probability never gives a lower quantile. */
  lemma QuantileMonotone(xs: seq<real>, p: real, q: real)
    requires |xs| > 0 && Sorted(xs) && 0.0 <= p <= q <= 1.0
    ensures Quantile(xs, p) <= Quantile(xs, q)
  {
    var lp, lq := Locate(|xs|, p), Locate(|xs|, q);
    LocateMonotone(|xs|, p, q);
    if lp.lo == lq.lo {
      if lp.lo + 1 < |xs| {
        InterpolateMonotone(xs[lp.lo], xs[lp.lo + 1], lp.frac, lq.frac);
      }
    } else {
      assert xs[lp.lo + 1] <= xs[lq.lo];
    }
  }

  /** `Series.median()`: the middle value, or the mean of the two middle values. */
  function Median(xs: seq<real>): (m: real)
    requires |xs| > 0
    ensures var s := Sort(xs); s[(|xs| - 1) / 2] <= m <= s[|xs| / 2]
  {
    Middle(Sort(xs))
  }

  function Middle(s: seq<real>): (m: real)
    requires |s| > 0 && Sorted(s)
    ensures s[(|s| - 1) / 2] <= m <= s[|s| / 2]
  {
    var n := |s|;
    if n % 2 == 1 then
      assert (n - 1) / 2 == n / 2;
      s[n / 2]
    else
      var a, b := s[n / 2 - 1], s[n / 2];
      assert a <= b;
      assert (n - 1) / 2 == n / 2 - 1;
      (a + b) / 2.0
  }

  /** The median splits the values in half: at least half of them are at
      most `m` and at least half are at least `m`. */
  lemma MedianSplitsInHalf(xs: seq<real>)
    requires |xs| > 0
    ensures 2 * CountAtMost(xs, Median(xs)) >= |xs|
    ensures 2 * CountAtLeast(xs, Median(xs)) >= |xs|
  {
    var m := Median(xs);
    CountSort(xs, m);
    MiddleSplits(Sort(xs), m);
  }

  lemma MiddleSplits(s: seq<real>, m: real)
    requires |s| > 0 && Sorted(s)
    requires s[(|s| - 1) / 2] <= m <= s[|s| / 2]
    ensures 2 * CountAtMost(s, m) >= |s|
    ensures 2 * CountAtLeast(s, m) >= |s|
  {
    var below, above := (|s| - 1) / 2, |s| / 2;
    CountAtMostPrefix(s, m, below + 1);
    CountAtLeastSuffix(s, m, above);
  }

  /** pandas' median is its 0.5 quantile: both rules give the same number. */
  lemma MedianIsHalfQuantile(xs: seq<real>)
    requires |xs| > 0
    ensures Median(xs) == Quantile(Sort(xs), 0.5)
  {
    MiddleIsHalfQuantile(Sort(xs));
  }

  lemma MiddleIsHalfQuantile(s: seq<real>)
    requires |s| > 0 && Sorted(s)
    ensures Middle(s) == Quantile(s, 0.5)
  {
    var n := |s|;
    LocateHalf(n);
    if n % 2 == 0 {
      var a, b := s[n / 2 - 1], s[n / 2];
      assert Interpolate(a, b, 0.5) == a + (b - a) * 0.5;
    }
  }

  /** The 0.5 quantile sits on the middle value, or half-way between the two middle values. */
  lemma LocateHalf(n: nat)
    requires n >= 1
    ensures n % 2 == 1 ==> Locate(n, 0.5) == Position(n / 2, 0.0)
    ensures n % 2 == 0 ==> Locate(n, 0.5) == Position(n / 2 - 1, 0.5)
  {
    var k := n / 2;
    if n % 2 == 1 {
      assert n - 1 == 2 * k;
      assert (n - 1) as real * 0.5 == k as real;
    } else {
      assert n - 1 == 2 * (k - 1) + 1;
      assert (n - 1) as real * 0.5 == (k - 1) as real + 0.5;
    }
  }

  /** Every value `v` of `xs` lies between the smallest and largest sorted value. */
  lemma SortBounds(xs: seq<real>, v: real)
    requires v in xs
    ensures Sort(xs)[0] <= v <= Sort(xs)[|xs| - 1]
  {
    SortedEnds(Sort(xs), xs, v);
  }

  /** A value of `xs` lies between the first and last element of any sorted
      permutation of `xs`. */
  lemma SortedEnds(s: seq<real>, xs: seq<real>, v: real)
    requires Sorted(s) && multiset(s) == multiset(xs) && v in xs
    ensures |s| > 0 && s[0] <= v <= s[|s| - 1]
  {
    assert v in multiset(xs);
    assert v in multiset(s);
    var k :| 0 <= k < |s| && s[k] == v;
    assert s[0] <= s[k] && s[k] <= s[|s| - 1];
  }

  // ------------------------------------------------------------ IQR fences

  datatype Fences = Fences(lower: real, upper: real)

  /** Q1 - 1.5 IQR and Q3 + 1.5 IQR, with Q1 and Q3 the 0.25 and 0.75 quantiles. */
  function IqrFences(xs: seq<real>): (f: Fences)
    requires |xs| > 0 && Sorted(xs)
    ensures f.lower <= Quantile(xs, 0.25) <= Quantile(xs, 0.75) <= f.upper
  {
    var q1 := Quantile(xs, 0.25);
    var q3 := Quantile(xs, 0.75);
    QuantileMonotone(xs, 0.25, 0.75);
    var iqr := q3 - q1;
    Fences(q1 - 1.5 * iqr, q3 + 1.5 * iqr)
  }

  /** The fences of an unsorted column: pandas sorts the non-missing values first. */
  function ColumnFences(xs: seq<real>): (f: Fences)
    requires |xs| > 0
    ensures f.lower <= f.upper
  {
    IqrFences(Sort(xs))
  }

  // ------------------------------------------------------------ clipping

  function Distance(a: real, b: real): real
  {
    if a <= b then b - a else a - b
  }

  /** `np.clip(v, lo, hi)`: the point of [lo, hi] nearest to `v`. */
  function Clamp(v: real, lo: real, hi: real): (r: real)
    requires lo <= hi
    ensures lo <= r <= hi
    ensures lo <= v <= hi ==> r == v
    ensures forall w :: lo <= w <= hi ==> Distance(r, v) <= Distance(w, v)
  {
    if v < lo then lo else if v > hi then hi else v
  }

  /** Clipping keeps the order of values. */
  lemma ClampMonotone(v: real, w: real, lo: real, hi: real)
    requires lo <= hi && v <= w
    ensures Clamp(v, lo, hi) <= Clamp(w, lo, hi)
  {
  }

  lemma ClampIdempotent(v: real, lo: real, hi: real)
    requires lo <= hi
    ensures Clamp(Clamp(v, lo, hi), lo, hi) == Clamp(v, lo, hi)
  {
  }

  // ------------------------------------------------------------ mode

  function Occurrences(s: seq<string>, x: string): (n: nat)
    ensures n <= |s|
    ensures n > 0 <==> x in s
  {
    if s == [] then 0 else (if s[0] == x then 1 else 0) + Occurrences(s[1..], x)
  }

  /** `b` beats `x`: more frequent in `s`, or as frequent and not after it in string order. */
  predicate Beats(s: seq<string>, b: string, x: string)
  {
    Occurrences(s, x) < Occurrences(s, b) || (Occurrences(s, x) == Occurrences(s, b) && LexLe(b, x))
  }

  /** The candidate of `cands` that beats all the others. */
  function Best(s: seq<string>, cands: seq<string>): (b: string)
    requires |cands| > 0
    ensures b in cands
    ensures forall x :: x in cands ==> Beats(s, b, x)
  {
    if |cands| == 1 then
      assert forall x :: x in cands ==> x == cands[0];
      LexLeReflexive(cands[0]);
      cands[0]
    else
      var rest := Best(s, cands[1..]);
      var c := cands[0];
      assert forall x :: x in cands ==> x == c || x in cands[1..];
      if Beats(s, c, rest) then
        BeatsTransitive(s, c, rest);
        LexLeReflexive(c);
        c
      else
        LexLeTotal(c, rest);
        rest
  }

  lemma BeatsTransitive(s: seq<string>, c: string, b: string)
    requires Beats(s, c, b)
    ensures forall x :: Beats(s, b, x) ==> Beats(s, c, x)
  {
    forall x | Beats(s, b, x) ensures Beats(s, c, x) {
      if Occurrences(s, x) == Occurrences(s, b) && Occurrences(s, b) == Occurrences(s, c) {
        LexLeTransitive(c, b, x);
      }
    }
  }

  /** `Series.mode()[0]` for strings: a most frequent value, the least of
      any tie; `None` when there is nothing to count (`mode()` is empty). */
  function Mode(s: seq<string>): (m: Option<string>)
    ensures m.None? <==> s == []
    ensures m.Some? ==> m.value in s
    ensures m.Some? ==> forall x :: x in s ==> Occurrences(s, x) <= Occurrences(s, m.value)
    ensures m.Some? ==> forall x :: x in s && Occurrences(s, x) == Occurrences(s, m.value) ==> LexLe(m.value, x)
  {
    if s == [] then None else Some(Best(s, s))
  }

  /** The three conditions of `Mode` leave no choice: any value meeting them is the mode. */
  lemma ModeUnique(s: seq<string>, m: string)
    requires m in s
    requires forall x :: x in s ==> Occurrences(s, x) <= Occurrences(s, m)
    requires forall x :: x in s && Occurrences(s, x) == Occurrences(s, m) ==> LexLe(m, x)
    ensures Mode(s) == Some(m)
  {
    var b := Mode(s).value;
    LexLeAntisymmetric(m, b);
  }
}
