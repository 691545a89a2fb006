/** The benchmark statistics over exact arithmetic (benchmarks/bench.ts:178-192). */
module Statistics {
  /** The standard deviation is the square root of `variance`. */
  datatype Stats = Stats(avgMs: int, variance: real, minMs: int, maxMs: int, p50Ms: int, samples: seq<int>)

  function Insert(x: int, s: seq<int>): seq<int> {
    if s == [] || x <= s[0] then [x] + s else [s[0]] + Insert(x, s[1..])
  }

  /** [...samples].sort((a, b) => a - b) */
  function Sort(s: seq<int>): seq<int> {
    if s == [] then [] else Insert(s[0], Sort(s[1..]))
  }

  function Sum(s: seq<int>): int {
    if s == [] then 0 else s[0] + Sum(s[1..])
  }

  function Deviation(x: int, centre: real): real {
    x as real - centre
  }

  function Square(x: real): real {
    x * x
  }

  function SquaredDeviations(s: seq<int>, centre: real): real {
    if s == [] then 0.0 else Square(Deviation(s[0], centre)) + SquaredDeviations(s[1..], centre)
  }

  function Mean(s: seq<int>): real
    requires s != []
  {
    Sum(s) as real / |s| as real
  }

  function ComputeStats(samples: seq<int>): Stats
    requires samples != []
  {
    SortKeeps(samples);
    var sorted := Sort(samples);
    Stats((Mean(sorted) + 0.5).Floor, SquaredDeviations(sorted, Mean(sorted)) / |sorted| as real,
          sorted[0], sorted[|sorted|-1], sorted[|sorted| / 2], sorted)
  }

  // ---------------------------------------------------------------- sorting

  ghost predicate Sorted(s: seq<int>) {
    forall i, j :: 0 <= i < j < |s| ==> s[i] <= s[j]
  }

  lemma {:induction false} InsertKeeps(x: int, s: seq<int>)
    ensures multiset(Insert(x, s)) == multiset(s) + multiset{x} && |Insert(x, s)| == |s| + 1
    ensures Sorted(s) ==> Sorted(Insert(x, s))
    ensures forall y :: y in Insert(x, s) <==> y == x || y in s
  {
    InsertCounts(x, s);
    InsertMembers(x, s);
    if Sorted(s) {
      InsertSorts(x, s);
    }
  }

  lemma {:induction false} InsertCounts(x: int, s: seq<int>)
    ensures multiset(Insert(x, s)) == multiset(s) + multiset{x} && |Insert(x, s)| == |s| + 1
  {
    if s != [] && x > s[0] {
      assert s == [s[0]] + s[1..];
      InsertCounts(x, s[1..]);
    }
  }

  lemma InsertMembers(x: int, s: seq<int>)
    ensures forall y :: y in Insert(x, s) <==> y == x || y in s
  {
    InsertCounts(x, s);
    assert forall y :: y in Insert(x, s) <==> y in multiset(Insert(x, s));
  }

  lemma {:induction false} InsertSorts(x: int, s: seq<int>)
    requires Sorted(s)
    ensures Sorted(Insert(x, s))
  {
    hide Sorted;
    if s != [] && x > s[0] {
      SortedParts(s);
      InsertSorts(x, s[1..]);
      InsertMembers(x, s[1..]);
      PrependSorts(s[0], Insert(x, s[1..]));
    } else {
      FirstIsLeast(s);
      PrependSorts(x, s);
    }
  }

  lemma SortedParts(s: seq<int>)
    requires Sorted(s) && s != []
    ensures Sorted(s[1..]) && forall y :: y in s[1..] ==> s[0] <= y
  {}

  lemma FirstIsLeast(s: seq<int>)
    requires Sorted(s)
    ensures s != [] ==> forall y :: y in s ==> s[0] <= y
  {}

  lemma PrependSorts(x: int, s: seq<int>)
    requires Sorted(s) && forall y :: y in s ==> x <= y
    ensures Sorted([x] + s)
  {
    assert forall i :: 0 <= i < |s| ==> s[i] in s;
  }

  lemma {:induction false} SortKeeps(s: seq<int>)
    ensures multiset(Sort(s)) == multiset(s) && |Sort(s)| == |s|
    ensures Sorted(Sort(s))
    ensures forall y :: y in Sort(s) <==> y in s
  {
    if s != [] {
      SortKeeps(s[1..]);
      InsertKeeps(s[0], Sort(s[1..]));
      assert s == [s[0]] + s[1..];
    }
  }

  // ---------------------------------------------------------------- moments

  ghost function Deviations(s: seq<int>, centre: real): real {
    if s == [] then 0.0 else Deviation(s[0], centre) + Deviations(s[1..], centre)
  }

  /** A product with a length, as repeated addition. */
  ghost function Times(n: nat, x: real): real {
    if n == 0 then 0.0 else x + Times(n - 1, x)
  }

  lemma {:induction false} TimesIsProduct(n: nat, x: real)
    ensures Times(n, x) == n as real * x
  {
    if n > 0 {
      TimesIsProduct(n - 1, x);
      assert n as real * x == (n - 1) as real * x + x;
    }
  }

  lemma {:induction false} DeviationsAre(s: seq<int>, centre: real)
    ensures Deviations(s, centre) == Sum(s) as real - Times(|s|, centre)
  {
    if s != [] {
      DeviationsAre(s[1..], centre);
    }
  }

  lemma MeanCentres(s: seq<int>)
    requires s != []
    ensures Deviations(s, Mean(s)) == 0.0
  {
    DeviationsAre(s, Mean(s));
    TimesIsProduct(|s|, Mean(s));
    DivideBack(Sum(s) as real, |s| as real);
  }

  lemma DivideBack(x: real, n: real)
    requires n != 0.0
    ensures n * (x / n) == x
  {}

  lemma HeadAndTail(s: seq<int>)
    requires s != []
    ensures s[0] in s && forall x :: x in s <==> x == s[0] || x in s[1..]
  {
    assert s == [s[0]] + s[1..];
  }

  lemma SquareShift(x: real, a: real, c: real)
    ensures Square(x - a) == Square(x - c) + 2.0 * (c - a) * (x - a) - Square(c - a)
  {}

  lemma Distribute(k: real, x: real, y: real)
    ensures k * (x + y) == k * x + k * y
  {}

  /** Moving the centre from `a` to `c`. */
  lemma {:induction false} ShiftCentre(s: seq<int>, a: real, c: real)
    ensures SquaredDeviations(s, a) ==
            SquaredDeviations(s, c) + 2.0 * (c - a) * Deviations(s, a) - Times(|s|, Square(c - a))
  {
    hide Square;
    if s != [] {
      ShiftCentre(s[1..], a, c);
      SquareShift(s[0] as real, a, c);
      Distribute(2.0 * (c - a), Deviation(s[0], a), Deviations(s[1..], a));
    }
  }

  ghost function HalfRangeSquared(lo: int, hi: int): real {
    Square((hi as real - lo as real) / 2.0)
  }

  lemma SquareWithin(x: real, lo: real, hi: real)
    requires lo <= x <= hi
    ensures Square(x - (lo + hi) / 2.0) <= Square((hi - lo) / 2.0)
  {
    var c, h := (lo + hi) / 2.0, (hi - lo) / 2.0;
    assert h * h - (x - c) * (x - c) == (x - lo) * (hi - x);
  }

  lemma {:induction false} AroundMidpoint(s: seq<int>, lo: int, hi: int)
    requires forall x :: x in s ==> lo <= x <= hi
    ensures SquaredDeviations(s, (lo as real + hi as real) / 2.0) <= Times(|s|, HalfRangeSquared(lo, hi))
  {
    if s != [] {
      HeadAndTail(s);
      SquareWithin(s[0] as real, lo as real, hi as real);
      AroundMidpoint(s[1..], lo, hi);
    }
  }

  lemma {:induction false} TimesNonnegative(n: nat, x: real)
    requires x >= 0.0
    ensures Times(n, x) >= 0.0
  {
    if n > 0 {
      TimesNonnegative(n - 1, x);
    }
  }

  lemma PositiveSquare(x: real)
    requires x > 0.0
    ensures Square(x) > 0.0
  {
    assert Square(x) / x == x;
  }

  lemma SquareOfOpposite(x: real)
    ensures Square(-x) == Square(x)
  {}

  lemma SquareNonnegative(x: real)
    ensures Square(x) >= 0.0 && (Square(x) == 0.0 <==> x == 0.0)
  {
    hide Square;
    if x > 0.0 {
      PositiveSquare(x);
    } else if x < 0.0 {
      PositiveSquare(-x);
      SquareOfOpposite(x);
    } else {
      SquareOfZero();
    }
  }

  lemma SquareOfZero()
    ensures Square(0.0) == 0.0
  {}

  /** The spread vanishes exactly on constant samples. */
  lemma {:induction false} NoSpread(s: seq<int>, centre: real)
    ensures SquaredDeviations(s, centre) >= 0.0
    ensures SquaredDeviations(s, centre) == 0.0 <==> forall x :: x in s ==> x as real == centre
  {
    if s != [] {
      HeadAndTail(s);
      SquareNonnegative(Deviation(s[0], centre));
      NoSpread(s[1..], centre);
    }
  }

  lemma {:induction false} SumBounds(s: seq<int>, lo: int, hi: int)
    requires forall x :: x in s ==> lo <= x <= hi
    ensures Times(|s|, lo as real) <= Sum(s) as real <= Times(|s|, hi as real)
  {
    if s != [] {
      HeadAndTail(s);
      SumBounds(s[1..], lo, hi);
    }
  }

  lemma QuotientBounds(n: real, x: real, lo: real, hi: real)
    requires n > 0.0 && n * lo <= x <= n * hi
    ensures lo <= x / n <= hi
  {
    assert lo == (n * lo) / n && hi == (n * hi) / n;
  }

  lemma MeanBounds(s: seq<int>, lo: int, hi: int)
    requires s != [] && forall x :: x in s ==> lo <= x <= hi
    ensures lo as real <= Mean(s) <= hi as real
  {
    SumBounds(s, lo, hi);
    TimesIsProduct(|s|, lo as real);
    TimesIsProduct(|s|, hi as real);
    QuotientBounds(|s| as real, Sum(s) as real, lo as real, hi as real);
  }

  /** Popoviciu's bound, before the division by the number of samples. */
  lemma SpreadBound(s: seq<int>, lo: int, hi: int)
    requires s != [] && forall x :: x in s ==> lo <= x <= hi
    ensures SquaredDeviations(s, Mean(s)) <= |s| as real * HalfRangeSquared(lo, hi)
  {
    hide SquaredDeviations, Deviations, Times, Mean, HalfRangeSquared;
    var c := (lo as real + hi as real) / 2.0;
    MeanCentres(s);
    CentreIsBest(s, Mean(s), c);
    AroundMidpoint(s, lo, hi);
    TimesIsProduct(|s|, HalfRangeSquared(lo, hi));
  }

  /** No centre gives a smaller spread than the mean. */
  lemma CentreIsBest(s: seq<int>, a: real, c: real)
    requires Deviations(s, a) == 0.0
    ensures SquaredDeviations(s, a) <= SquaredDeviations(s, c)
  {
    hide SquaredDeviations, Deviations, Times;
    ShiftCentre(s, a, c);
    SquareNonnegative(c - a);
    TimesNonnegative(|s|, (c - a) * (c - a));
    assert 2.0 * (c - a) * Deviations(s, a) == 0.0;
  }

  lemma RoundWithin(x: real, lo: int, hi: int)
    requires lo as real <= x <= hi as real
    ensures lo <= (x + 0.5).Floor <= hi
  {}

  /** All the bounds at once, for every nonempty list of samples in any order. */
  lemma StatsAreBounded(samples: seq<int>)
    requires samples != []
    ensures var r := ComputeStats(samples);
            && multiset(r.samples) == multiset(samples) && Sorted(r.samples)
            && (forall x :: x in samples ==> r.minMs <= x <= r.maxMs) && r.minMs in samples && r.maxMs in samples
            && r.minMs <= r.p50Ms <= r.maxMs && r.p50Ms in samples
            && r.minMs <= r.avgMs <= r.maxMs
            && 0.0 <= 4.0 * r.variance <= Square((r.maxMs - r.minMs) as real)
            && (r.variance == 0.0 <==> r.minMs == r.maxMs)
  {
    hide Sort, Mean, SquaredDeviations;
    SortKeeps(samples);
    var s := Sort(samples);
    SortedEnds(s);
    MeanBounds(s, s[0], s[|s|-1]);
    RoundWithin(Mean(s), s[0], s[|s|-1]);
    SpreadIsBounded(s);
  }

  lemma SpreadIsBounded(s: seq<int>)
    requires s != [] && Sorted(s)
    ensures var v, range := SquaredDeviations(s, Mean(s)) / |s| as real, (s[|s|-1] - s[0]) as real;
            0.0 <= 4.0 * v <= Square(range) && (v == 0.0 <==> s[0] == s[|s|-1])
  {
    hide Mean, SquaredDeviations;
    SortedEnds(s);
    MeanBounds(s, s[0], s[|s|-1]);
    SpreadBound(s, s[0], s[|s|-1]);
    NoSpread(s, Mean(s));
    VarianceBounds(SquaredDeviations(s, Mean(s)), |s| as real, (s[|s|-1] - s[0]) as real);
  }

  lemma SortedEnds(s: seq<int>)
    requires s != [] && Sorted(s)
    ensures forall x :: x in s ==> s[0] <= x <= s[|s|-1]
    ensures s[0] in s && s[|s|-1] in s && s[|s| / 2] in s
  {}

  lemma VarianceBounds(q: real, n: real, range: real)
    requires n > 0.0 && q >= 0.0 && q <= n * Square(range / 2.0)
    ensures 0.0 <= 4.0 * (q / n) <= Square(range)
    ensures q / n == 0.0 <==> q == 0.0
  {
    var h := Square(range / 2.0);
    QuotientBounds(n, q, 0.0, h);
    assert 4.0 * h == Square(range);
    DivideBack(q, n);
  }
}
