/** Nearest-rank percentiles of performance samples, in exact arithmetic. */
module Percentile {
  import opened Wrappers

  predicate Ascending(xs: seq<real>) { forall i, j :: 0 <= i < j < |xs| ==> xs[i] <= xs[j] }

  function Insert(x: real, xs: seq<real>): (r: seq<real>)
    ensures multiset(r) == multiset([x]) + multiset(xs)
  {
    if xs == [] then [x]
    else if xs[0] < x then
      assert xs == [xs[0]] + xs[1..];
      [xs[0]] + Insert(x, xs[1..])
    else [x] + xs
  }

  function Sorted(xs: seq<real>): (r: seq<real>)
    ensures multiset(r) == multiset(xs)
    ensures |r| == |xs|
  {
    if xs == [] then []
    else
      assert xs == [xs[0]] + xs[1..];
      var r := Insert(xs[0], Sorted(xs[1..]));
      assert |multiset(r)| == |multiset(xs)|;
      r
  }

  lemma {:induction false} InsertAscending(x: real, xs: seq<real>)
    requires Ascending(xs)
    ensures Ascending(Insert(x, xs))
  {
    if xs != [] && xs[0] < x {
      InsertAscending(x, xs[1..]);
      var rest := Insert(x, xs[1..]);
      forall k | 0 <= k < |rest| ensures xs[0] <= rest[k] {
        assert rest[k] in multiset(rest);
        assert rest[k] == x || rest[k] in xs[1..];
      }
    }
  }

  lemma {:induction false} SortedAscending(xs: seq<real>)
    ensures Ascending(Sorted(xs))
  {
    if xs != [] {
      SortedAscending(xs[1..]);
      InsertAscending(xs[0], Sorted(xs[1..]));
    }
  }

  lemma {:induction false} AscendingUnique(a: seq<real>, b: seq<real>)
    requires Ascending(a) && Ascending(b) && multiset(a) == multiset(b)
    ensures a == b
  {
    assert |a| == |multiset(a)| == |multiset(b)| == |b|;
    if a != [] {
      assert a[0] in multiset(a) && b[0] in multiset(b);
      assert a[0] in b && b[0] in a;
      assert a[0] == b[0];
      assert a == [a[0]] + a[1..] && b == [b[0]] + b[1..];
      hide Ascending;
      TailMultiset(a);
      TailMultiset(b);
      TailAscending(a);
      TailAscending(b);
      AscendingUnique(a[1..], b[1..]);
    }
  }

  lemma TailMultiset(xs: seq<real>)
    requires xs != []
    ensures multiset(xs[1..]) == multiset(xs) - multiset{xs[0]}
  {
    assert xs == [xs[0]] + xs[1..];
  }

  lemma TailAscending(xs: seq<real>)
    requires xs != [] && Ascending(xs)
    ensures Ascending(xs[1..])
  {
  }

  // ---------- the percentile ----------

  datatype PerformanceError = BadRequest | BadSample

  function Ceiling(x: real): int { -((-x).Floor) }

  function Rank(n: nat, p: real): int {
    var c := Ceiling(p * n as real);
    if c < 1 then 1 else c
  }

  lemma RankInRange(n: nat, p: real)
    requires n > 0 && 0.0 < p <= 1.0
    ensures 1 <= Rank(n, p) <= n
    ensures Rank(n, p) as real >= p * n as real && Rank(n, p) as real - 1.0 < p * n as real
  {
    var x := p * n as real;
    assert 0.0 < x <= n as real by { Scaled(n as real, p); }
    assert Rank(n, p) == Ceiling(x);
  }

  lemma Scaled(n: real, p: real)
    requires n > 0.0 && 0.0 < p <= 1.0
    ensures 0.0 < p * n <= n
  {
    assert (1.0 - p) * n >= 0.0;
  }

  function Quantile(samples: seq<real>, p: real): (r: Result<real, PerformanceError>)
    ensures r.Success? <==> samples != [] && 0.0 < p <= 1.0 && forall i :: 0 <= i < |samples| ==> samples[i] >= 0.0
  {
    if samples == [] || !(0.0 < p <= 1.0) then Failure(BadRequest)
    else if exists i :: 0 <= i < |samples| && samples[i] < 0.0 then Failure(BadSample)
    else
      RankInRange(|samples|, p);
      Success(Sorted(samples)[Rank(|samples|, p) - 1])
  }

  function AtOrBelow(xs: seq<real>, x: real): nat {
    if xs == [] then 0 else (if xs[0] <= x then 1 else 0) + AtOrBelow(xs[1..], x)
  }

  function Below(xs: seq<real>, x: real): nat {
    if xs == [] then 0 else (if xs[0] < x then 1 else 0) + Below(xs[1..], x)
  }

  lemma {:induction false} CountInsert(y: real, xs: seq<real>, x: real)
    ensures AtOrBelow(Insert(y, xs), x) == AtOrBelow(xs, x) + (if y <= x then 1 else 0)
    ensures Below(Insert(y, xs), x) == Below(xs, x) + (if y < x then 1 else 0)
  {
    if xs != [] && xs[0] < y {
      CountInsert(y, xs[1..], x);
      assert ([xs[0]] + Insert(y, xs[1..]))[1..] == Insert(y, xs[1..]);
    } else {
      assert ([y] + xs)[1..] == xs;
    }
  }

  lemma {:induction false} CountSorted(xs: seq<real>, x: real)
    ensures AtOrBelow(Sorted(xs), x) == AtOrBelow(xs, x) && Below(Sorted(xs), x) == Below(xs, x)
  {
    if xs != [] {
      CountSorted(xs[1..], x);
      CountInsert(xs[0], Sorted(xs[1..]), x);
    }
  }

  // In an ascending list the k-th value has k values at or before it and none after it below.
  lemma {:induction false} CountAscending(xs: seq<real>, k: nat)
    requires Ascending(xs) && k < |xs|
    ensures AtOrBelow(xs, xs[k]) >= k + 1 && Below(xs, xs[k]) <= k
  {
    if k > 0 {
      CountAscending(xs[1..], k - 1);
    } else {
      NoneBelow(xs, xs[0]);
    }
  }

  lemma {:induction false} NoneBelow(xs: seq<real>, x: real)
    requires forall i :: 0 <= i < |xs| ==> x <= xs[i]
    ensures Below(xs, x) == 0
  {
    if xs != [] {
      NoneBelow(xs[1..], x);
    }
  }

  lemma {:induction false} BelowGrows(xs: seq<real>, x: real, y: real)
    requires x < y
    ensures AtOrBelow(xs, x) <= Below(xs, y)
  {
    if xs != [] {
      BelowGrows(xs[1..], x, y);
    }
  }

  // How many samples there are up to the one of this rank.
  lemma RankedCounts(samples: seq<real>, rank: nat)
    requires 1 <= rank <= |samples|
    ensures var q := Sorted(samples)[rank - 1]; q in samples && AtOrBelow(samples, q) >= rank && Below(samples, q) < rank
  {
    hide Sorted, AtOrBelow, Below;
    var ordered := Sorted(samples);
    SortedAscending(samples);
    assert ordered[rank - 1] in multiset(ordered);
    CountAscending(ordered, rank - 1);
    CountSorted(samples, ordered[rank - 1]);
  }

  lemma RankedSample(samples: seq<real>, rank: nat, target: real, x: real)
    requires 1 <= rank <= |samples| && rank as real >= target > rank as real - 1.0
    ensures var q := Sorted(samples)[rank - 1];
            && q in samples
            && (x in samples ==> (x == q <==> AtOrBelow(samples, x) as real >= target && (Below(samples, x) as real) < target))
  {
    hide Sorted, AtOrBelow, Below;
    var q := Sorted(samples)[rank - 1];
    RankedCounts(samples, rank);
    if x < q {
      BelowGrows(samples, x, q);
    }
    if q < x {
      BelowGrows(samples, q, x);
    }
  }

  /** The percentile is the one sample with at least p*n samples at or below it and fewer than p*n below it. */
  lemma QuantileIsNearestRank(samples: seq<real>, p: real, x: real)
    requires Quantile(samples, p).Success?
    ensures Quantile(samples, p).value in samples
    ensures x in samples ==>
              (x == Quantile(samples, p).value <==>
                 AtOrBelow(samples, x) as real >= p * |samples| as real && (Below(samples, x) as real) < p * |samples| as real)
  {
    hide Rank, Sorted, AtOrBelow, Below;
    RankInRange(|samples|, p);
    RankedSample(samples, Rank(|samples|, p), p * |samples| as real, x);
  }

  lemma SameMembers(a: seq<real>, b: seq<real>)
    requires multiset(a) == multiset(b)
    ensures |a| == |b| && Sorted(a) == Sorted(b)
    ensures forall i :: 0 <= i < |a| ==> a[i] in b
  {
    SortedAscending(a);
    SortedAscending(b);
    AscendingUnique(Sorted(a), Sorted(b));
    assert |a| == |multiset(a)| == |multiset(b)| == |b|;
    forall i | 0 <= i < |a| ensures a[i] in b {
      assert a[i] in multiset(a);
    }
  }

  /** The order in which samples were taken does not matter. */
  lemma QuantileIgnoresOrder(a: seq<real>, b: seq<real>, p: real)
    requires multiset(a) == multiset(b)
    ensures Quantile(a, p) == Quantile(b, p)
  {
    hide Sorted, Rank;
    SameMembers(a, b);
    SameSign(a, b);
    SameSign(b, a);
  }

  // No negative sample in the one, none in the other.
  lemma SameSign(a: seq<real>, b: seq<real>)
    requires multiset(a) == multiset(b)
    ensures (forall i :: 0 <= i < |b| ==> b[i] >= 0.0) ==> forall i :: 0 <= i < |a| ==> a[i] >= 0.0
  {
    forall i | 0 <= i < |a| ensures a[i] in b {
      assert a[i] in multiset(a);
    }
  }

  lemma RankMonotone(n: nat, p: real, q: real)
    requires n > 0 && 0.0 < p <= q <= 1.0
    ensures Rank(n, p) <= Rank(n, q)
  {
    Widen(n as real, p, q);
    CeilingMonotone(p * n as real, q * n as real);
    hide Ceiling;
  }

  lemma Widen(n: real, p: real, q: real)
    requires n >= 0.0 && p <= q
    ensures p * n <= q * n
  {
    assert (q - p) * n >= 0.0;
    assert (q - p) * n == q * n - p * n;
  }

  lemma CeilingMonotone(x: real, y: real)
    requires x <= y
    ensures Ceiling(x) <= Ceiling(y)
  {
  }

  /** A higher probability never gives a smaller percentile. */
  lemma QuantileMonotone(samples: seq<real>, p: real, q: real)
    requires Quantile(samples, p).Success? && Quantile(samples, q).Success? && p <= q
    ensures Quantile(samples, p).value <= Quantile(samples, q).value
  {
    RankInRange(|samples|, p);
    RankInRange(|samples|, q);
    RankMonotone(|samples|, p, q);
    SortedAscending(samples);
  }

  // ---------- the summary ----------

  datatype Summary = Summary(samples: nat, minimum: real, median: real, p95: real, p99: real, maximum: real)

  function Minimum(xs: seq<real>): (r: real)
    requires xs != []
    ensures r in xs && forall i :: 0 <= i < |xs| ==> r <= xs[i]
  {
    if |xs| == 1 then xs[0]
    else
      var m := Minimum(xs[1..]);
      if xs[0] <= m then xs[0] else m
  }

  function Maximum(xs: seq<real>): (r: real)
    requires xs != []
    ensures r in xs && forall i :: 0 <= i < |xs| ==> xs[i] <= r
  {
    if |xs| == 1 then xs[0]
    else
      var m := Maximum(xs[1..]);
      if xs[0] >= m then xs[0] else m
  }

  /** A summary exists for every nonempty list of nonnegative samples: their extremes and three of their percentiles, ascending. */
  function Summarize(samples: seq<real>): (r: Result<Summary, PerformanceError>)
    ensures r.Success? <==> samples != [] && forall i :: 0 <= i < |samples| ==> samples[i] >= 0.0
    ensures r.Success? ==>
              r.value.minimum <= r.value.median <= r.value.p95 <= r.value.p99 <= r.value.maximum
    ensures r.Success? ==>
              && r.value.samples == |samples| && r.value.minimum in samples && r.value.maximum in samples
              && (forall i :: 0 <= i < |samples| ==> r.value.minimum <= samples[i] <= r.value.maximum)
              && Quantile(samples, 0.5) == Success(r.value.median) && Quantile(samples, 0.95) == Success(r.value.p95)
              && Quantile(samples, 0.99) == Success(r.value.p99)
  {
    match (Quantile(samples, 0.5), Quantile(samples, 0.95), Quantile(samples, 0.99))
    case (Success(median), Success(p95), Success(p99)) =>
      QuantileMonotone(samples, 0.5, 0.95);
      QuantileMonotone(samples, 0.95, 0.99);
      QuantileIsNearestRank(samples, 0.5, median);
      QuantileIsNearestRank(samples, 0.99, p99);
      Success(Summary(|samples|, Minimum(samples), median, p95, p99, Maximum(samples)))
    case (_, _, _) => Failure(if samples == [] then BadRequest else BadSample)
  }
}
