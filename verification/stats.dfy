/** Exact-real counterparts of the numpy/pandas reductions the engine uses:
    sum, mean, sample variance, minimum, maximum, ascending sort and the
    boolean-mask filter `xs[xs <= c]`. */
module Stats {

  /** Sum of a sequence (Python's `sum` and pandas' `Series.sum`). */
  function Sum(xs: seq<real>): real
  {
    if xs == [] then 0.0 else xs[0] + Sum(xs[1..])
  }

  lemma {:induction false} SumAppend(a: seq<real>, b: seq<real>)
    ensures Sum(a + b) == Sum(a) + Sum(b)
  {
    if a == [] {
      assert a + b == b;
    } else {
      assert (a + b)[1..] == a[1..] + b;
      SumAppend(a[1..], b);
    }
  }

  /** A sum of values that are all at most `c` is at most `|xs| * c`. */
  lemma {:induction false} SumAtMost(xs: seq<real>, c: real)
    requires forall i :: 0 <= i < |xs| ==> xs[i] <= c
    ensures Sum(xs) <= |xs| as real * c
  {
    if xs != [] {
      var rest := xs[1..];
      assert forall i :: 0 <= i < |rest| ==> rest[i] == xs[i + 1];
      SumAtMost(rest, c);
      assert |xs| as real * c == c + |rest| as real * c;
    }
  }

  /** A sum of values that are all at least `c` is at least `|xs| * c`. */
  lemma {:induction false} SumAtLeast(xs: seq<real>, c: real)
    requires forall i :: 0 <= i < |xs| ==> c <= xs[i]
    ensures |xs| as real * c <= Sum(xs)
  {
    if xs != [] {
      var rest := xs[1..];
      assert forall i :: 0 <= i < |rest| ==> rest[i] == xs[i + 1];
      SumAtLeast(rest, c);
      assert |xs| as real * c == c + |rest| as real * c;
    }
  }

  /** Smallest element. */
  function Min(xs: seq<real>): (m: real)
    requires |xs| > 0
    ensures m in xs
    ensures forall i :: 0 <= i < |xs| ==> m <= xs[i]
  {
    if |xs| == 1 then xs[0]
    else
      var rest := Min(xs[1..]);
      assert forall i :: 1 <= i < |xs| ==> xs[i] == xs[1..][i - 1];
      if xs[0] <= rest then xs[0] else rest
  }

  /** Largest element. */
  function Max(xs: seq<real>): (m: real)
    requires |xs| > 0
    ensures m in xs
    ensures forall i :: 0 <= i < |xs| ==> xs[i] <= m
  {
    if |xs| == 1 then xs[0]
    else
      var rest := Max(xs[1..]);
      assert forall i :: 1 <= i < |xs| ==> xs[i] == xs[1..][i - 1];
      if rest <= xs[0] then xs[0] else rest
  }

  /** Arithmetic mean (`Series.mean`); pandas yields NaN on an empty
      series, so the model asks for a non-empty one. */
  function Mean(xs: seq<real>): (m: real)
    requires |xs| > 0
    ensures Min(xs) <= m <= Max(xs)
  {
    MeanWithin(xs, Min(xs), Max(xs));
    Sum(xs) / |xs| as real
  }

  /** The mean of values that all lie in [lo, hi] lies in [lo, hi]. */
  lemma MeanWithin(xs: seq<real>, lo: real, hi: real)
    requires |xs| > 0
    requires forall i :: 0 <= i < |xs| ==> lo <= xs[i] <= hi
    ensures lo <= Sum(xs) / |xs| as real <= hi
  {
    SumAtLeast(xs, lo);
    SumAtMost(xs, hi);
    DivBounds(Sum(xs), |xs| as real, lo, hi);
  }

  lemma DivBounds(a: real, n: real, lo: real, hi: real)
    requires n > 0.0 && n * lo <= a <= n * hi
    ensures lo <= a / n <= hi
  {
    var q := a / n;
    assert q * n == a;
    assert (q - lo) * n >= 0.0;
    assert (hi - q) * n >= 0.0;
  }

  /** Mean of a sample all of whose values are at most `c` is at most `c`. */
  lemma MeanAtMost(xs: seq<real>, c: real)
    requires |xs| > 0
    requires forall i :: 0 <= i < |xs| ==> xs[i] <= c
    ensures Mean(xs) <= c
  {
    SumAtMost(xs, c);
  }

  /** A product of two non-negative reals is non-negative. */
  lemma MulNonNegative(a: real, b: real)
    requires a >= 0.0 && b >= 0.0
    ensures a * b >= 0.0
  {
  }

  /** Sum of squared deviations from `m`. */
  function SquaredDeviations(xs: seq<real>, m: real): (r: real)
    ensures r >= 0.0
  {
    if xs == [] then 0.0
    else
      SquareNonNegative(xs[0] - m);
      (xs[0] - m) * (xs[0] - m) + SquaredDeviations(xs[1..], m)
  }

  lemma SquareNonNegative(d: real)
    ensures d * d >= 0.0
  {
    if d < 0.0 { assert d * d == (-d) * (-d); }
  }

  /** Sample variance with the n - 1 divisor (`Series.std` squared, ddof = 1);
      pandas yields NaN for fewer than two values. */
  function SampleVariance(xs: seq<real>): (v: real)
    requires |xs| >= 2
    ensures v >= 0.0
  {
    SquaredDeviations(xs, Mean(xs)) / (|xs| - 1) as real
  }

  /** A series of equal values has no spread. */
  lemma ConstantHasZeroVariance(xs: seq<real>)
    requires |xs| >= 2
    requires forall i :: 0 <= i < |xs| ==> xs[i] == xs[0]
    ensures Mean(xs) == xs[0]
    ensures SampleVariance(xs) == 0.0
  {
    var m := Mean(xs);
    assert Min(xs) == xs[0] && Max(xs) == xs[0];
    ZeroDeviations(xs, m);
  }

  lemma {:induction false} ZeroDeviations(xs: seq<real>, m: real)
    requires forall i :: 0 <= i < |xs| ==> xs[i] == m
    ensures SquaredDeviations(xs, m) == 0.0
  {
    if xs != [] {
      assert forall i :: 0 <= i < |xs[1..]| ==> xs[1..][i] == xs[i + 1];
      ZeroDeviations(xs[1..], m);
    }
  }

  /** Ascending order. */
  ghost predicate Sorted(s: seq<real>)
  {
    forall i, j :: 0 <= i < j < |s| ==> s[i] <= s[j]
  }

  /** Insert `x` into an ascending sequence, keeping it ascending. */
  function Insert(x: real, s: seq<real>): (r: seq<real>)
    requires Sorted(s)
    ensures Sorted(r)
    ensures multiset(r) == multiset(s) + multiset{x}
    ensures |r| == |s| + 1
    ensures r[0] == x || (s != [] && r[0] == s[0])
  {
    if s == [] then [x]
    else if x <= s[0] then
      SortedCons(x, s);
      [x] + s
    else
      var rest := Insert(x, s[1..]);
      InsertBehindHead(x, s, rest);
      [s[0]] + rest
  }

  /** The recursive case of Insert: the head of `s` goes in front of the
      tail with `x` inserted. */
  lemma InsertBehindHead(x: real, s: seq<real>, rest: seq<real>)
    requires Sorted(s) && s != [] && s[0] < x
    requires Sorted(rest) && |rest| == |s|
    requires multiset(rest) == multiset(s[1..]) + multiset{x}
    requires rest[0] == x || (s[1..] != [] && rest[0] == s[1..][0])
    ensures Sorted([s[0]] + rest)
    ensures multiset([s[0]] + rest) == multiset(s) + multiset{x}
  {
    assert s == [s[0]] + s[1..];
    SortedCons(s[0], rest);
  }

  /** An element at most the head of an ascending sequence can be put in
      front of it. */
  lemma SortedCons(a: real, t: seq<real>)
    requires Sorted(t) && (t == [] || a <= t[0])
    ensures Sorted([a] + t)
  {
    var r := [a] + t;
    forall i, j | 0 <= i < j < |r|
      ensures r[i] <= r[j]
    {
      if i == 0 {
        assert r[j] == t[j - 1];
        assert t[0] <= t[j - 1];
      } else {
        assert r[i] == t[i - 1] && r[j] == t[j - 1];
      }
    }
  }

  /** Ascending sort (numpy sorts the sample before interpolating): the result
      is ordered and is a permutation of the input. */
  function Sort(xs: seq<real>): (r: seq<real>)
    ensures Sorted(r)
    ensures multiset(r) == multiset(xs)
    ensures |r| == |xs|
  {
    if xs == [] then []
    else
      assert xs == [xs[0]] + xs[1..];
      Insert(xs[0], Sort(xs[1..]))
  }

  /** The first and last elements of the sorted sample are its minimum and
      maximum. */
  lemma SortEnds(xs: seq<real>)
    requires |xs| > 0
    ensures Sort(xs)[0] == Min(xs)
    ensures Sort(xs)[|xs| - 1] == Max(xs)
  {
    SortedFirstIsMin(Sort(xs), xs);
    SortedLastIsMax(Sort(xs), xs);
  }

  lemma SortedFirstIsMin(s: seq<real>, xs: seq<real>)
    requires Sorted(s) && |s| > 0 && |xs| > 0 && multiset(s) == multiset(xs)
    ensures s[0] == Min(xs)
  {
    var lo := Min(xs);
    assert s[0] in multiset(s);
    assert s[0] in xs;
    assert lo in multiset(s);
    var i :| 0 <= i < |s| && s[i] == lo;
    assert s[0] <= s[i];
  }

  lemma SortedLastIsMax(s: seq<real>, xs: seq<real>)
    requires Sorted(s) && |s| > 0 && |xs| > 0 && multiset(s) == multiset(xs)
    ensures s[|s| - 1] == Max(xs)
  {
    var hi := Max(xs);
    var last := s[|s| - 1];
    assert last in multiset(s);
    assert last in xs;
    assert hi in multiset(s);
    var i :| 0 <= i < |s| && s[i] == hi;
    assert s[i] <= last;
  }

  /** The boolean-mask selection `xs[xs <= c]`: the elements at most `c`,
      each as often as it occurs in `xs`. */
  function AtMost(xs: seq<real>, c: real): (r: seq<real>)
    ensures |r| <= |xs|
    ensures forall i :: 0 <= i < |r| ==> r[i] <= c && r[i] in xs
    ensures forall i :: 0 <= i < |xs| && xs[i] <= c ==> xs[i] in r
    ensures forall x :: multiset(r)[x] == if x <= c then multiset(xs)[x] else 0
  {
    if xs == [] then []
    else
      var rest := AtMost(xs[1..], c);
      var r := if xs[0] <= c then [xs[0]] + rest else rest;
      MaskMembers(xs, rest, c, r);
      MaskCounts(xs, rest, c, r);
      r
  }

  /** The recursive case of AtMost, for membership: the head of `xs` is kept
      in front of the selection from the tail exactly when it is at most
      `c`. */
  lemma MaskMembers(xs: seq<real>, rest: seq<real>, c: real, r: seq<real>)
    requires xs != [] && |rest| <= |xs| - 1
    requires forall i :: 0 <= i < |rest| ==> rest[i] <= c && rest[i] in xs[1..]
    requires forall i :: 1 <= i < |xs| && xs[i] <= c ==> xs[i] in rest
    requires r == if xs[0] <= c then [xs[0]] + rest else rest
    ensures |r| <= |xs|
    ensures forall i :: 0 <= i < |r| ==> r[i] <= c && r[i] in xs
    ensures forall i :: 0 <= i < |xs| && xs[i] <= c ==> xs[i] in r
  {
    assert forall i :: 1 <= i < |xs| ==> xs[i] == xs[1..][i - 1];
  }

  /** The recursive case of AtMost, for the multiplicities. */
  lemma MaskCounts(xs: seq<real>, rest: seq<real>, c: real, r: seq<real>)
    requires xs != []
    requires forall x :: multiset(rest)[x] == if x <= c then multiset(xs[1..])[x] else 0
    requires r == if xs[0] <= c then [xs[0]] + rest else rest
    ensures forall x :: multiset(r)[x] == if x <= c then multiset(xs)[x] else 0
  {
    assert xs == [xs[0]] + xs[1..];
    assert multiset(xs) == multiset{xs[0]} + multiset(xs[1..]);
    if xs[0] <= c {
      assert multiset(r) == multiset{xs[0]} + multiset(rest);
    }
  }
}
