/** The interpolated percentile and its pass/fail gate, `src/bench.rs`, over the reals. */
module Bench {

  const P95_TOLERANCE: real := 1.10

  datatype Status = Pass | Fail

  datatype Summary = Summary(p50: real, p95: real, p99: real, samples: nat, status: Status)

  predicate Sorted(s: seq<real>) {
    forall i, j :: 0 <= i <= j < |s| ==> s[i] <= s[j]
  }

  function Floor(x: real): int {
    x.Floor
  }

  function Ceil(x: real): int {
    if x == Floor(x) as real then Floor(x) else Floor(x) + 1
  }

  /** The largest index of n samples. */
  function Span(n: nat): real {
    n as real - 1.0
  }

  function Rank(n: nat, q: real): real {
    q * Span(n)
  }

  function Percentile(sorted: seq<real>, q: real): real
    requires 0.0 <= q <= 1.0
  {
    if sorted == [] then 0.0
    else if |sorted| == 1 then sorted[0]
    else
      RankInRange(|sorted|, q);
      At(sorted, Rank(|sorted|, q))
  }

  /** Linear interpolation between the neighbours of a fractional index. */
  function At(s: seq<real>, rank: real): real
    requires 0.0 <= rank <= Span(|s|)
  {
    var lo, hi := Floor(rank), Ceil(rank);
    if lo == hi then s[lo] else Mix(s[lo], s[hi], rank - lo as real)
  }

  function Mix(x: real, y: real, t: real): real {
    x + (y - x) * t
  }

  lemma RankInRange(n: nat, q: real)
    requires n >= 1 && 0.0 <= q <= 1.0
    ensures 0.0 <= Rank(n, q) <= Span(n)
  {
    PartOf(q, Span(n));
  }

  lemma PartOf(q: real, m: real)
    requires 0.0 <= q <= 1.0 && m >= 0.0
    ensures 0.0 <= q * m <= m
  {
    assert (1.0 - q) * m == m - q * m;
    assert q * m >= 0.0 && (1.0 - q) * m >= 0.0;
  }

  lemma Between(x: real, y: real, t: real)
    requires x <= y && 0.0 <= t <= 1.0
    ensures x <= Mix(x, y, t) <= y
  {
    var d := y - x;
    assert 0.0 <= d * t && 0.0 <= d * (1.0 - t);
    assert d * t + d * (1.0 - t) == d;
  }

  /** The interpolated value lies between its two neighbours. */
  lemma AtBetween(s: seq<real>, rank: real)
    requires Sorted(s) && 0.0 <= rank <= Span(|s|)
    ensures var lo := Floor(rank); s[lo] <= At(s, rank)
    ensures var lo := Floor(rank); lo + 1 < |s| ==> At(s, rank) <= s[lo + 1]
    ensures At(s, rank) <= s[|s| - 1] && s[0] <= At(s, rank)
  {
    hide Mix;
    var lo, hi := Floor(rank), Ceil(rank);
    if lo != hi {
      Between(s[lo], s[hi], rank - lo as real);
    }
  }

  /** Non-decreasing in the fractional index. */
  lemma AtMonotone(s: seq<real>, x: real, y: real)
    requires Sorted(s) && 0.0 <= x <= y <= Span(|s|)
    ensures At(s, x) <= At(s, y)
  {
    hide Mix;
    AtBetween(s, x);
    AtBetween(s, y);
    var m, n := Floor(x), Floor(y);
    if m < n {
      assert s[m + 1] <= s[n];
    } else if m < Ceil(x) {
      assert Ceil(x) == Ceil(y) == m + 1;
      MixGrows(s[m], s[m + 1], x - m as real, y - m as real);
    }
  }

  lemma MixGrows(a: real, b: real, f: real, g: real)
    requires a <= b && f <= g
    ensures Mix(a, b, f) <= Mix(a, b, g)
  {
    LargerFactor(b - a, f, g);
  }

  lemma LargerFactor(g: real, x: real, y: real)
    requires g >= 0.0 && x <= y
    ensures g * x <= g * y
  {
    assert g * (y - x) >= 0.0;
  }

  lemma SmallerRank(n: nat, q: real, r: real)
    requires n >= 1 && q <= r
    ensures Rank(n, q) <= Rank(n, r)
  {
    LargerFactor(Span(n), q, r);
  }

  /** On sorted samples the percentile lies between minimum and maximum and never falls as q grows. */
  lemma PercentileMonotone(s: seq<real>, q: real, r: real)
    requires Sorted(s) && s != [] && 0.0 <= q <= r <= 1.0
    ensures s[0] <= Percentile(s, q) <= Percentile(s, r) <= s[|s| - 1]
  {
    hide At, Rank;
    if |s| > 1 {
      RankInRange(|s|, q);
      RankInRange(|s|, r);
      SmallerRank(|s|, q, r);
      AtMonotone(s, Rank(|s|, q), Rank(|s|, r));
      AtBetween(s, Rank(|s|, q));
      AtBetween(s, Rank(|s|, r));
    }
  }

  /** The ends of the scale are the extreme samples. */
  lemma PercentileEnds(s: seq<real>)
    requires s != []
    ensures Percentile(s, 0.0) == s[0]
    ensures Percentile(s, 1.0) == s[|s| - 1]
  {
    if |s| > 1 {
      var n := |s| - 1;
      assert Rank(|s|, 1.0) == n as real && Rank(|s|, 0.0) == 0.0;
    }
  }

  /**
   * Between two neighbouring samples the percentile is their weighted mean:
   * at the share `t` of the way from index `k`, `t` of the next sample and
   * the rest of this one. Every q falls between two such indices.
   */
  lemma PercentileInterpolates(s: seq<real>, q: real, k: nat, t: real)
    requires k + 1 < |s| && 0.0 <= t <= 1.0 && 0.0 <= q <= 1.0
    requires q * (|s| as real - 1.0) == k as real + t
    ensures Percentile(s, q) == (1.0 - t) * s[k] + t * s[k + 1]
  {
    hide Mix;
    RankInRange(|s|, q);
    assert Rank(|s|, q) == k as real + t;
    if t == 1.0 {
      assert Floor(Rank(|s|, q)) == k + 1;
    } else {
      assert Floor(Rank(|s|, q)) == k;
      MixIs(s[k], s[k + 1], t, 1.0 - t);
    }
  }

  // ----- Sorting ---------------------------------------------------------

  function Insert(x: real, s: seq<real>): seq<real> {
    if s == [] then [x]
    else if x <= s[0] then [x] + s
    else [s[0]] + Insert(x, s[1..])
  }

  function Sort(s: seq<real>): seq<real> {
    if s == [] then [] else Insert(s[0], Sort(s[1..]))
  }

  lemma {:induction false} InsertKeeps(x: real, s: seq<real>)
    ensures multiset(Insert(x, s)) == multiset(s) + multiset{x} && |Insert(x, s)| == |s| + 1
    decreases |s|
  {
    if s != [] && s[0] < x {
      InsertKeeps(x, s[1..]);
      assert s == [s[0]] + s[1..];
    }
  }

  lemma {:induction false} InsertSorts(x: real, s: seq<real>)
    requires Sorted(s)
    ensures Sorted(Insert(x, s))
    ensures Insert(x, s)[0] == if s != [] && s[0] < x then s[0] else x
    decreases |s|
  {
    if s != [] && s[0] < x {
      var t := Insert(x, s[1..]);
      InsertSorts(x, s[1..]);
      assert s[0] <= t[0];
      Prepend(s[0], t);
    } else if s != [] {
      Prepend(x, s);
    }
  }

  lemma Prepend(x: real, s: seq<real>)
    requires Sorted(s) && (s != [] ==> x <= s[0])
    ensures Sorted([x] + s)
  {
    var t := [x] + s;
    forall i, j | 0 <= i <= j < |t| ensures t[i] <= t[j] {
      if i > 0 {
        assert s[i - 1] <= s[j - 1];
      } else if j > 0 {
        assert s[0] <= s[j - 1];
      }
    }
  }

  lemma SortSorts(s: seq<real>)
    ensures Sorted(Sort(s)) && multiset(Sort(s)) == multiset(s) && |Sort(s)| == |s|
  {
    SortAscends(s);
    SortKeeps(s);
  }

  lemma {:induction false} SortAscends(s: seq<real>)
    ensures Sorted(Sort(s))
    decreases |s|
  {
    if s != [] {
      SortAscends(s[1..]);
      hide Insert, Sorted;
      InsertSorts(s[0], Sort(s[1..]));
    }
  }

  lemma {:induction false} SortKeeps(s: seq<real>)
    ensures multiset(Sort(s)) == multiset(s) && |Sort(s)| == |s|
    decreases |s|
  {
    hide Insert, Sorted;
    if s != [] {
      SortKeeps(s[1..]);
      InsertKeeps(s[0], Sort(s[1..]));
      assert s == [s[0]] + s[1..];
    }
  }

  method PercentileSummary(samples: seq<real>, effectiveTarget: real) returns (r: Summary)
    ensures r == SummaryOf(samples, effectiveTarget)
    ensures samples != [] ==> r.p50 <= r.p95 <= r.p99
    ensures r.samples == |samples| && (r.status == Pass <==> r.p95 <= effectiveTarget * 1.10)
    ensures exists sorted :: Sorted(sorted) && multiset(sorted) == multiset(samples)
              && r.p50 == Percentile(sorted, 0.50)
              && r.p95 == Percentile(sorted, 0.95)
              && r.p99 == Percentile(sorted, 0.99)
  {
    var sorted := Sort(samples);
    SortSorts(samples);
    var p50 := Percentile(sorted, 0.50);
    var p95 := Percentile(sorted, 0.95);
    var p99 := Percentile(sorted, 0.99);
    if samples != [] {
      PercentileMonotone(sorted, 0.50, 0.95);
      PercentileMonotone(sorted, 0.95, 0.99);
    }
    var status := if p95 <= effectiveTarget * P95_TOLERANCE then Pass else Fail;
    r := Summary(p50, p95, p99, |sorted|, status);
  }

  function SummaryOf(samples: seq<real>, effectiveTarget: real): Summary {
    var s := Sort(samples);
    Summary(
      Percentile(s, 0.50), Percentile(s, 0.95), Percentile(s, 0.99), |s|,
      if Percentile(s, 0.95) <= effectiveTarget * P95_TOLERANCE then Pass else Fail)
  }

  // ----- Slower samples --------------------------------------------------

  /** How many samples are at most `v`. */
  function CountAtMost(s: seq<real>, v: real): nat {
    if s == [] then 0 else (if s[0] <= v then 1 else 0) + CountAtMost(s[1..], v)
  }

  lemma {:induction false} InsertCounts(x: real, s: seq<real>, v: real)
    ensures CountAtMost(Insert(x, s), v) == CountAtMost(s, v) + if x <= v then 1 else 0
    decreases |s|
  {
    if s == [] {
      assert [x][1..] == [];
    } else if x <= s[0] {
      assert ([x] + s)[1..] == s;
    } else {
      InsertCounts(x, s[1..], v);
      assert ([s[0]] + Insert(x, s[1..]))[1..] == Insert(x, s[1..]);
    }
  }

  lemma {:induction false} SortCounts(s: seq<real>, v: real)
    ensures CountAtMost(Sort(s), v) == CountAtMost(s, v)
    decreases |s|
  {
    if s != [] {
      SortCounts(s[1..], v);
      InsertCounts(s[0], Sort(s[1..]), v);
    }
  }

  lemma {:induction false} SlowerCounts(a: seq<real>, b: seq<real>, v: real)
    requires |a| == |b| && forall i :: 0 <= i < |a| ==> a[i] <= b[i]
    ensures CountAtMost(b, v) <= CountAtMost(a, v)
    decreases |a|
  {
    if a != [] {
      SlowerCounts(a[1..], b[1..], v);
    }
  }

  /** In a sorted run the k-th sample is at most `v` iff more than k samples are. */
  lemma {:induction false} RankByCount(s: seq<real>, k: nat, v: real)
    requires Sorted(s) && k < |s|
    ensures s[k] <= v <==> k < CountAtMost(s, v)
    decreases |s|
  {
    if s[0] > v {
      NoneAtMost(s, v);
    } else if k > 0 {
      RankByCount(s[1..], k - 1, v);
    }
  }

  lemma {:induction false} NoneAtMost(s: seq<real>, v: real)
    requires forall i :: 0 <= i < |s| ==> s[i] > v || (Sorted(s) && s[0] > v)
    ensures CountAtMost(s, v) == 0
    decreases |s|
  {
    if s != [] {
      assert forall i :: 0 <= i < |s| ==> s[i] > v by {
        if Sorted(s) {
          assert forall i :: 0 <= i < |s| ==> s[0] <= s[i];
        }
      }
      NoneAtMost(s[1..], v);
    }
  }

  lemma SlowerSorted(a: seq<real>, b: seq<real>, k: nat)
    requires |a| == |b| && forall i :: 0 <= i < |a| ==> a[i] <= b[i]
    requires k < |a|
    ensures |Sort(a)| == |Sort(b)| == |a| && Sort(a)[k] <= Sort(b)[k]
  {
    SortSorts(a);
    SortSorts(b);
    var v := Sort(b)[k];
    RankByCount(Sort(b), k, v);
    SortCounts(b, v);
    SlowerCounts(a, b, v);
    SortCounts(a, v);
    RankByCount(Sort(a), k, v);
  }

  lemma SlowerAt(s: seq<real>, t: seq<real>, rank: real)
    requires |s| == |t| && 0.0 <= rank <= Span(|s|)
    requires forall i :: 0 <= i < |s| ==> s[i] <= t[i]
    ensures At(s, rank) <= At(t, rank)
  {
    hide Mix;
    var lo, hi := Floor(rank), Ceil(rank);
    if lo != hi {
      Interpolate(s[lo], s[hi], t[lo], t[hi], rank - lo as real, 1.0 - (rank - lo as real));
    }
  }

  function Times(x: real, y: real): real {
    x * y
  }

  lemma MixIs(a: real, b: real, f: real, g: real)
    requires f + g == 1.0
    ensures Mix(a, b, f) == Times(g, a) + Times(f, b)
  {
    assert g * a + f * a == (g + f) * a == a;
    assert (b - a) * f == f * b - f * a;
  }

  lemma TimesMonotone(g: real, x: real, y: real)
    requires g >= 0.0 && x <= y
    ensures Times(g, x) <= Times(g, y)
  {
    LargerFactor(g, x, y);
  }

  lemma Interpolate(a: real, b: real, c: real, d: real, f: real, g: real)
    requires a <= c && b <= d && 0.0 <= f && 0.0 <= g && f + g == 1.0
    ensures Mix(a, b, f) <= Mix(c, d, f)
  {
    hide Mix, Times;
    MixIs(a, b, f, g);
    MixIs(c, d, f, g);
    TimesMonotone(f, b, d);
    TimesMonotone(g, a, c);
  }

  /**
   * The gate is monotone: making any samples slower, although they are sorted
   * again, lowers no percentile and never turns a Fail into a Pass.
   */
  lemma SlowerNeverPasses(a: seq<real>, b: seq<real>, q: real, effectiveTarget: real)
    requires |a| == |b| && forall i :: 0 <= i < |a| ==> a[i] <= b[i]
    requires 0.0 <= q <= 1.0
    ensures Percentile(Sort(a), q) <= Percentile(Sort(b), q)
    ensures SummaryOf(a, effectiveTarget).status == Fail ==> SummaryOf(b, effectiveTarget).status == Fail
  {
    SlowerPercentile(a, b, q);
    SlowerPercentile(a, b, 0.95);
  }

  lemma SlowerPercentile(a: seq<real>, b: seq<real>, q: real)
    requires |a| == |b| && forall i :: 0 <= i < |a| ==> a[i] <= b[i]
    requires 0.0 <= q <= 1.0
    ensures Percentile(Sort(a), q) <= Percentile(Sort(b), q)
  {
    hide Sort, At;
    SortSorts(a);
    SortSorts(b);
    if a != [] {
      var s, t := Sort(a), Sort(b);
      forall k: nat | k < |a| ensures s[k] <= t[k] {
        SlowerSorted(a, b, k);
      }
      SlowerRun(s, t, q);
    }
  }

  lemma SlowerRun(s: seq<real>, t: seq<real>, q: real)
    requires |s| == |t| && forall i :: 0 <= i < |s| ==> s[i] <= t[i]
    requires 0.0 <= q <= 1.0
    ensures Percentile(s, q) <= Percentile(t, q)
  {
    hide At, Rank;
    if |s| > 1 {
      RankInRange(|s|, q);
      SlowerAt(s, t, Rank(|s|, q));
    }
  }
}
