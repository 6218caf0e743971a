/** internal/balance/forecast.go: how many days a prepaid balance will last. Balances and day
    offsets are exact reals here; the program rounds them to float64. */
module BalanceForecast {
  import opened Basics
  import opened Sorting

  datatype Point = Point(at: int, vnd: int)

  // ----- The decision, stated without means, variances or loops -----

  ghost predicate Chronological(p: seq<Point>) {
    forall i, j :: 0 <= i < j < |p| ==> p[i].at <= p[j].at
  }

  ghost predicate NonIncreasing(p: seq<Point>) {
    forall i, j :: 0 <= i < j < |p| ==> p[i].vnd >= p[j].vnd
  }

  function LastSeven(p: seq<Point>): seq<Point> {
    if |p| > 7 then p[|p| - 7..] else p
  }

  /** seg is what follows the last top-up: the longest suffix in which the balance never rises. */
  ghost predicate IsRecentDecline(p: seq<Point>, seg: seq<Point>) {
    && |seg| <= |p| && seg == p[|p| - |seg|..]
    && NonIncreasing(seg)
    && (forall k :: 0 <= k < |p| - |seg| ==> !NonIncreasing(p[k..]))
  }

  /** Day offset of a point from the segment's first point, as a real number of days. */
  function Days(seg: seq<Point>, i: nat): real
    requires i < |seg|
  {
    TimeSub(seg[i].at, seg[0].at) as real / DAY as real
  }

  function DayOffsets(seg: seq<Point>): (t: seq<real>)
    ensures |t| == |seg|
  {
    seq(|seg|, i requires 0 <= i < |seg| => Days(seg, i))
  }

  function Balances(seg: seq<Point>): (v: seq<real>)
    ensures |v| == |seg|
  {
    seq(|seg|, i requires 0 <= i < |seg| => seg[i].vnd as real)
  }

  /** A decline worth extrapolating: two points, a day apart, and the balance went down. */
  ghost predicate Declines(seg: seq<Point>) {
    && |seg| >= 2
    && TimeSub(seg[|seg| - 1].at, seg[0].at) >= DAY
    && seg[0].vnd > seg[|seg| - 1].vnd
  }

  /** A product under a name of its own: proofs that only add and compare products hide this
      body, so that the solver sees sums of plain terms. */
  function Mul(x: real, y: real): real {
    x * y
  }

  /** Sum over all pairs i < j of (t[j] - t[i]) * (v[j] - v[i]), for indices below n. */
  function PairSum(t: seq<real>, v: seq<real>, n: nat): real
    requires n <= |t| == |v|
  {
    if n == 0 then 0.0 else PairSum(t, v, n - 1) + PairsWith(t, v, n - 1, n - 1)
  }

  /** The part of PairSum in which j is the later index and i ranges below m. */
  function PairsWith(t: seq<real>, v: seq<real>, j: nat, m: nat): real
    requires m <= j < |t| == |v|
  {
    if m == 0 then 0.0
    else PairsWith(t, v, j, m - 1) + Mul(t[j] - t[m - 1], v[j] - v[m - 1])
  }

  /** The last balance over the daily loss, floored at zero. */
  function Extrapolate(last: real, tt: real, tv: real): real
    requires tv < 0.0
  {
    if last * tt / -tv < 0.0 then 0.0 else last * tt / -tv
  }

  /** Days left: the loss is the average of all pairwise slopes, weighted by squared distance in
      time. */
  ghost predicate IsEstimate(seg: seq<Point>, daysLeft: real)
    requires |seg| > 0
  {
    var t, v := DayOffsets(seg), Balances(seg);
    && PairSum(t, t, |seg|) > 0.0
    && PairSum(t, v, |seg|) < 0.0
    && daysLeft == Extrapolate(v[|seg| - 1], PairSum(t, t, |seg|), PairSum(t, v, |seg|))
  }

  ghost predicate IsForecast(points: seq<Point>, sorted: seq<Point>, seg: seq<Point>, daysLeft: real, ok: bool) {
    && Chronological(sorted) && multiset(sorted) == multiset(points)
    && IsRecentDecline(LastSeven(sorted), seg)
    && (ok <==> Declines(seg))
    && (if ok then IsEstimate(seg, daysLeft) else daysLeft == 0.0)
  }

  // ----- Sums -----

  function Sum(s: seq<real>, n: nat): real
    requires n <= |s|
  {
    if n == 0 then 0.0 else Sum(s, n - 1) + s[n - 1]
  }

  function DotSum(t: seq<real>, v: seq<real>, n: nat): real
    requires n <= |t| == |v|
  {
    if n == 0 then 0.0 else DotSum(t, v, n - 1) + Mul(t[n - 1], v[n - 1])
  }

  /** What the second loop accumulates: products of deviations from fixed centres a and b. */
  function DeviationSum(t: seq<real>, v: seq<real>, a: real, b: real, n: nat): real
    requires n <= |t| == |v|
  {
    if n == 0 then 0.0 else DeviationSum(t, v, a, b, n - 1) + Mul(t[n - 1] - a, v[n - 1] - b)
  }

  lemma MulAdd(a: real, b: real, c: real)
    ensures Mul(a, b + c) == Mul(a, b) + Mul(a, c)
    ensures Mul(b + c, a) == Mul(b, a) + Mul(c, a)
  {
  }

  lemma MulDifferences(x: real, a: real, y: real, b: real)
    ensures Mul(x - a, y - b) == Mul(x, y) - Mul(a, y) - Mul(b, x) + Mul(a, b)
  {
  }

  lemma MulSuccessor(n: real, x: real)
    ensures Mul(n + 1.0, x) == Mul(n, x) + x
    ensures Mul(0.0, x) == 0.0 && Mul(x, 0.0) == 0.0
  {
  }

  lemma {:induction false} DeviationExpands(t: seq<real>, v: seq<real>, a: real, b: real, n: nat)
    requires n <= |t| == |v|
    ensures DeviationSum(t, v, a, b, n)
         == DotSum(t, v, n) - Mul(a, Sum(v, n)) - Mul(b, Sum(t, n)) + Mul(n as real, Mul(a, b))
  {
    hide Mul;
    if n == 0 {
      MulSuccessor(0.0, a);
      MulSuccessor(0.0, b);
      MulSuccessor(0.0, Mul(a, b));
    } else {
      DeviationExpands(t, v, a, b, n - 1);
      MulDifferences(t[n - 1], a, v[n - 1], b);
      MulAdd(a, Sum(v, n - 1), v[n - 1]);
      MulAdd(b, Sum(t, n - 1), t[n - 1]);
      MulSuccessor((n - 1) as real, Mul(a, b));
    }
  }

  lemma {:induction false} PairsWithExpands(t: seq<real>, v: seq<real>, j: nat, m: nat)
    requires m <= j < |t| == |v|
    ensures PairsWith(t, v, j, m)
         == Mul(m as real, Mul(t[j], v[j])) - Mul(t[j], Sum(v, m)) - Mul(v[j], Sum(t, m)) + DotSum(t, v, m)
  {
    hide Mul;
    if m == 0 {
      MulSuccessor(0.0, t[j]);
      MulSuccessor(0.0, v[j]);
      MulSuccessor(0.0, Mul(t[j], v[j]));
    } else {
      PairsWithExpands(t, v, j, m - 1);
      MulCommutes(t[j], v[m - 1]);
      MulDifferences(t[j], t[m - 1], v[j], v[m - 1]);
      MulCommutes(v[j], t[m - 1]);
      MulAdd(t[j], Sum(v, m - 1), v[m - 1]);
      MulAdd(v[j], Sum(t, m - 1), t[m - 1]);
      MulSuccessor((m - 1) as real, Mul(t[j], v[j]));
    }
  }

  lemma MulCommutes(x: real, y: real)
    ensures Mul(x, y) == Mul(y, x)
  {
  }

  lemma {:induction false} PairSumExpands(t: seq<real>, v: seq<real>, n: nat)
    requires n <= |t| == |v|
    ensures PairSum(t, v, n) == Mul(n as real, DotSum(t, v, n)) - Mul(Sum(t, n), Sum(v, n))
  {
    hide Mul;
    if n == 0 {
      MulSuccessor(0.0, 0.0);
    } else {
      var m := n - 1;
      var k, x, y, d := m as real, t[m], v[m], DotSum(t, v, m);
      PairSumExpands(t, v, m);
      PairsWithExpands(t, v, m, m);
      MulSuccessor(k, d + Mul(x, y));
      MulAdd(k, d, Mul(x, y));
      MulAdd(Sum(t, n), Sum(v, m), y);
      MulAdd(Sum(v, m), Sum(t, m), x);
      MulAdd(y, Sum(t, m), x);
      MulCommutes(Sum(t, n), y);
      MulCommutes(x, y);
    }
  }

  lemma CentreAtMeans(n: real, mt: real, mv: real, s: real, r: real, d: real)
    requires n > 0.0 && mt == s / n && mv == r / n
    ensures Mul(n, d - Mul(mt, r) - Mul(mv, s) + Mul(n, Mul(mt, mv))) == Mul(n, d) - Mul(s, r)
  {
    assert n * mt == s && n * mv == r;
    assert n * (mt * r) == s * r;
    assert n * (mv * s) == r * s;
    assert n * (n * (mt * mv)) == (n * mt) * (n * mv);
    assert n * (d - mt * r - mv * s + n * (mt * mv))
        == n * d - n * (mt * r) - n * (mv * s) + n * (n * (mt * mv));
  }

  /** Chebyshev's identity: n times the sum of products of deviations from the means is the sum
      over all pairs. This is what turns the regression's sign into an order argument. */
  lemma CovarianceIsPairSum(t: seq<real>, v: seq<real>, mt: real, mv: real)
    requires |t| == |v| > 0
    requires mt == Sum(t, |t|) / |t| as real && mv == Sum(v, |v|) / |v| as real
    ensures Mul(|t| as real, DeviationSum(t, v, mt, mv, |t|)) == PairSum(t, v, |t|)
  {
    hide Mul;
    DeviationExpands(t, v, mt, mv, |t|);
    PairSumExpands(t, v, |t|);
    CentreAtMeans(|t| as real, mt, mv, Sum(t, |t|), Sum(v, |t|), DotSum(t, v, |t|));
  }

  // ----- Signs and bounds -----

  ghost predicate Rising(t: seq<real>) {
    forall i, j :: 0 <= i < j < |t| ==> t[i] <= t[j]
  }

  /** Every pair loses between lo and hi per unit of time. */
  ghost predicate LossBetween(t: seq<real>, v: seq<real>, lo: real, hi: real)
    requires |t| == |v|
  {
    forall i, j :: 0 <= i < j < |t| ==> Mul(lo, t[j] - t[i]) <= v[i] - v[j] <= Mul(hi, t[j] - t[i])
  }

  lemma ProductBounds(x: real, y: real, lo: real, hi: real)
    requires x >= 0.0 && Mul(lo, x) <= -y <= Mul(hi, x)
    ensures Mul(-hi, Mul(x, x)) <= Mul(x, y) <= Mul(-lo, Mul(x, x))
  {
    assert (lo * x) * x <= -y * x <= (hi * x) * x;
    assert lo * (x * x) == (lo * x) * x && hi * (x * x) == (hi * x) * x;
  }

  lemma {:induction false} PairsWithBounds(t: seq<real>, v: seq<real>, lo: real, hi: real, j: nat, m: nat)
    requires m <= j < |t| == |v| && Rising(t) && LossBetween(t, v, lo, hi)
    ensures Mul(-hi, PairsWith(t, t, j, m)) <= PairsWith(t, v, j, m) <= Mul(-lo, PairsWith(t, t, j, m))
  {
    hide Mul;
    if m == 0 {
      MulSuccessor(0.0, -hi);
      MulSuccessor(0.0, -lo);
    } else {
      PairsWithBounds(t, v, lo, hi, j, m - 1);
      var x := t[j] - t[m - 1];
      ProductBounds(x, v[j] - v[m - 1], lo, hi);
      MulAdd(-hi, PairsWith(t, t, j, m - 1), Mul(x, x));
      MulAdd(-lo, PairsWith(t, t, j, m - 1), Mul(x, x));
    }
  }

  lemma {:induction false} PairSumBounds(t: seq<real>, v: seq<real>, lo: real, hi: real, n: nat)
    requires n <= |t| == |v| && Rising(t) && LossBetween(t, v, lo, hi)
    ensures Mul(-hi, PairSum(t, t, n)) <= PairSum(t, v, n) <= Mul(-lo, PairSum(t, t, n))
  {
    hide Mul;
    if n == 0 {
      MulSuccessor(0.0, -hi);
      MulSuccessor(0.0, -lo);
    } else {
      PairSumBounds(t, v, lo, hi, n - 1);
      PairsWithBounds(t, v, lo, hi, n - 1, n - 1);
      MulAdd(-hi, PairSum(t, t, n - 1), PairsWith(t, t, n - 1, n - 1));
      MulAdd(-lo, PairSum(t, t, n - 1), PairsWith(t, t, n - 1, n - 1));
    }
  }

  /** Over any pair, t does not fall and v does not rise. */
  ghost predicate Opposed(t: seq<real>, v: seq<real>)
    requires |t| == |v|
  {
    forall i, j :: 0 <= i < j < |t| ==> t[i] <= t[j] && v[i] >= v[j]
  }

  lemma MulSign(x: real, y: real)
    ensures x >= 0.0 && y <= 0.0 ==> Mul(x, y) <= 0.0
    ensures x > 0.0 && y < 0.0 ==> Mul(x, y) < 0.0
    ensures x > 0.0 && y > 0.0 ==> Mul(x, y) > 0.0
    ensures Mul(x, x) >= 0.0 && Mul(x, 0.0) == 0.0
  {
  }

  lemma {:induction false} OpposedPairsWith(t: seq<real>, v: seq<real>, j: nat, m: nat)
    requires m <= j < |t| == |v| && Opposed(t, v)
    ensures PairsWith(t, v, j, m) <= 0.0
    ensures m > 0 ==> PairsWith(t, v, j, m) <= Mul(t[j] - t[0], v[j] - v[0])
  {
    hide Mul;
    if m > 0 {
      OpposedPairsWith(t, v, j, m - 1);
      MulSign(t[j] - t[m - 1], v[j] - v[m - 1]);
    }
  }

  /** Chebyshev's inequality, with the slack of the outermost pair kept. */
  lemma {:induction false} OpposedPairSum(t: seq<real>, v: seq<real>, n: nat)
    requires n <= |t| == |v| && Opposed(t, v)
    ensures PairSum(t, v, n) <= 0.0
    ensures n > 1 ==> PairSum(t, v, n) <= Mul(t[n - 1] - t[0], v[n - 1] - v[0])
  {
    hide Mul;
    if n > 0 {
      OpposedPairSum(t, v, n - 1);
      OpposedPairsWith(t, v, n - 1, n - 1);
    }
  }

  lemma {:induction false} SquarePairsWith(t: seq<real>, j: nat, m: nat)
    requires m <= j < |t|
    ensures PairsWith(t, t, j, m) >= 0.0
    ensures m > 0 ==> PairsWith(t, t, j, m) >= Mul(t[j] - t[0], t[j] - t[0])
  {
    hide Mul;
    if m > 0 {
      SquarePairsWith(t, j, m - 1);
      MulSign(t[j] - t[m - 1], 0.0);
    }
  }

  lemma {:induction false} SquarePairSum(t: seq<real>, n: nat)
    requires n <= |t|
    ensures PairSum(t, t, n) >= 0.0
    ensures n > 1 ==> PairSum(t, t, n) >= Mul(t[n - 1] - t[0], t[n - 1] - t[0])
  {
    hide Mul;
    if n > 0 {
      SquarePairSum(t, n - 1);
      SquarePairsWith(t, n - 1, n - 1);
    }
  }

  lemma {:induction false} ConstantPairsWith(t: seq<real>, v: seq<real>, j: nat, m: nat)
    requires m <= j < |t| == |v|
    requires forall i :: 0 <= i < |v| ==> v[i] == v[0]
    ensures PairsWith(t, v, j, m) == 0.0
  {
    hide Mul;
    if m > 0 {
      ConstantPairsWith(t, v, j, m - 1);
      MulSign(t[j] - t[m - 1], 0.0);
    }
  }

  lemma {:induction false} ConstantPairSum(t: seq<real>, v: seq<real>, n: nat)
    requires n <= |t| == |v|
    requires forall i :: 0 <= i < |v| ==> v[i] == v[0]
    ensures PairSum(t, v, n) == 0.0
  {
    if n > 0 {
      ConstantPairSum(t, v, n - 1);
      ConstantPairsWith(t, v, n - 1, n - 1);
    }
  }

  // ----- The main results about a segment -----

  lemma SegmentIsOpposed(seg: seq<Point>)
    requires Chronological(seg) && NonIncreasing(seg)
    ensures Rising(DayOffsets(seg)) && Opposed(DayOffsets(seg), Balances(seg))
  {
    var t, v := DayOffsets(seg), Balances(seg);
    forall i, j | 0 <= i < j < |seg| ensures t[i] <= t[j] && v[i] >= v[j] {
      assert TimeSub(seg[i].at, seg[0].at) <= TimeSub(seg[j].at, seg[0].at);
    }
  }

  lemma FlatPairSum(seg: seq<Point>)
    requires NonIncreasing(seg) && |seg| >= 2 && seg[0].vnd <= seg[|seg| - 1].vnd
    ensures PairSum(DayOffsets(seg), Balances(seg), |seg|) == 0.0
  {
    hide Mul;
    var v, n := Balances(seg), |seg|;
    forall i | 0 <= i < n ensures v[i] == v[0] {
      assert i > 0 ==> seg[0].vnd >= seg[i].vnd;
      assert i < n - 1 ==> seg[i].vnd >= seg[n - 1].vnd;
    }
    ConstantPairSum(DayOffsets(seg), v, n);
  }

  lemma DayApart(seg: seq<Point>)
    requires |seg| >= 2 && TimeSub(seg[|seg| - 1].at, seg[0].at) >= DAY
    ensures var t, v := DayOffsets(seg), Balances(seg);
      t[0] == 0.0 && t[|seg| - 1] >= 1.0 && v[0] == seg[0].vnd as real && v[|seg| - 1] == seg[|seg| - 1].vnd as real
  {
  }

  /** In a non-increasing segment spanning a day the times do vary, and the regression slope is
      negative exactly when the last balance is below the first. */
  lemma SlopeSign(seg: seq<Point>)
    requires Chronological(seg) && NonIncreasing(seg) && |seg| >= 2
    requires TimeSub(seg[|seg| - 1].at, seg[0].at) >= DAY
    ensures PairSum(DayOffsets(seg), DayOffsets(seg), |seg|) > 0.0
    ensures PairSum(DayOffsets(seg), Balances(seg), |seg|) <= 0.0
    ensures PairSum(DayOffsets(seg), Balances(seg), |seg|) < 0.0 <==> seg[0].vnd > seg[|seg| - 1].vnd
  {
    hide Mul;
    var t, v, n := DayOffsets(seg), Balances(seg), |seg|;
    SegmentIsOpposed(seg);
    SquarePairSum(t, n);
    OpposedPairSum(t, v, n);
    DayApart(seg);
    hide DayOffsets, Balances, PairSum;
    assert (v[0] > v[n - 1]) == (seg[0].vnd > seg[n - 1].vnd);
    MulSign(t[n - 1] - t[0], t[n - 1] - t[0]);
    if v[0] > v[n - 1] {
      MulSign(t[n - 1] - t[0], v[n - 1] - v[0]);
    } else {
      FlatPairSum(seg);
    }
  }

  /** Consecutive readings lose between lo and hi per day. */
  ghost predicate DailyLossBetween(seg: seq<Point>, lo: real, hi: real) {
    forall i :: 0 < i < |seg| ==>
      Mul(lo, Days(seg, i) - Days(seg, i - 1)) <= (seg[i - 1].vnd - seg[i].vnd) as real
        <= Mul(hi, Days(seg, i) - Days(seg, i - 1))
  }

  lemma {:induction false} LossTelescopes(seg: seq<Point>, lo: real, hi: real, i: nat, j: nat)
    requires i <= j < |seg| && DailyLossBetween(seg, lo, hi)
    ensures var t, v := DayOffsets(seg), Balances(seg);
      Mul(lo, t[j] - t[i]) <= v[i] - v[j] <= Mul(hi, t[j] - t[i])
    decreases j
  {
    hide Mul;
    var t := DayOffsets(seg);
    if i == j {
      MulSuccessor(0.0, lo);
      MulSuccessor(0.0, hi);
    } else {
      LossTelescopes(seg, lo, hi, i, j - 1);
      assert t[j] - t[i] == (t[j - 1] - t[i]) + (t[j] - t[j - 1]);
      MulAdd(lo, t[j - 1] - t[i], t[j] - t[j - 1]);
      MulAdd(hi, t[j - 1] - t[i], t[j] - t[j - 1]);
    }
  }

  lemma QuotientBounds(last: real, tt: real, tv: real, lo: real, hi: real)
    requires last >= 0.0 && 0.0 < lo && tt > 0.0 && tv < 0.0
    requires Mul(-hi, tt) <= tv <= Mul(-lo, tt)
    ensures hi > 0.0 && last / hi <= Extrapolate(last, tt, tv) <= last / lo
  {
    assert lo * tt <= -tv <= hi * tt;
    assert hi > 0.0;
    Quotient(last, tt, -tv, lo);
    Quotient(last, tt, -tv, hi);
    assert last / hi >= 0.0;
  }

  lemma Quotient(a: real, t: real, d: real, r: real)
    requires a >= 0.0 && t > 0.0 && d > 0.0 && r > 0.0
    ensures r * t <= d ==> a * t / d <= a / r
    ensures d <= r * t ==> a / r <= a * t / d
  {
    var x, y := a / r, a * t / d;
    assert x * r == a && y * d == a * t && x >= 0.0;
    assert y * d == x * (r * t);
    if r * t <= d {
      assert x * (r * t) <= x * d;
      CancelFactor(y, x, d);
    }
    if d <= r * t {
      assert x * d <= x * (r * t);
      CancelFactor(x, y, d);
    }
  }

  lemma CancelFactor(a: real, b: real, d: real)
    requires d > 0.0 && a * d <= b * d
    ensures a <= b
  {
  }

  lemma AllPairsLose(seg: seq<Point>, lo: real, hi: real)
    requires Chronological(seg) && DailyLossBetween(seg, lo, hi)
    ensures Rising(DayOffsets(seg)) && LossBetween(DayOffsets(seg), Balances(seg), lo, hi)
  {
    var t, v := DayOffsets(seg), Balances(seg);
    forall i, j | 0 <= i < j < |seg| ensures Mul(lo, t[j] - t[i]) <= v[i] - v[j] <= Mul(hi, t[j] - t[i]) {
      LossTelescopes(seg, lo, hi, i, j);
    }
    forall i, j | 0 <= i < j < |seg| ensures t[i] <= t[j] {
      assert TimeSub(seg[i].at, seg[0].at) <= TimeSub(seg[j].at, seg[0].at);
    }
  }

  /** Nanoseconds from the first reading to the i-th. */
  function Elapsed(seg: seq<Point>, i: nat): int
    requires i < |seg|
  {
    TimeSub(seg[i].at, seg[0].at)
  }

  /** Between consecutive readings the balance loses at least lo and at most hi for every
      24 hours = 86,400,000,000,000 nanoseconds. */
  ghost predicate LosesPerDay(seg: seq<Point>, lo: real, hi: real) {
    forall i :: 0 < i < |seg| ==>
      var ns, lost := (Elapsed(seg, i) - Elapsed(seg, i - 1)) as real, (seg[i - 1].vnd - seg[i].vnd) as real;
      lo * ns <= lost * 86_400_000_000_000.0 <= hi * ns
  }

  lemma PerDayIsDaily(seg: seq<Point>, lo: real, hi: real)
    requires LosesPerDay(seg, lo, hi)
    ensures DailyLossBetween(seg, lo, hi)
  {
    forall i | 0 < i < |seg|
      ensures Mul(lo, Days(seg, i) - Days(seg, i - 1)) <= (seg[i - 1].vnd - seg[i].vnd) as real
        <= Mul(hi, Days(seg, i) - Days(seg, i - 1))
    {
      var ns, days := (Elapsed(seg, i) - Elapsed(seg, i - 1)) as real, Days(seg, i) - Days(seg, i - 1);
      assert days * 86_400_000_000_000.0 == ns;
      assert lo * ns == (lo * days) * 86_400_000_000_000.0 && hi * ns == (hi * days) * 86_400_000_000_000.0;
    }
  }

  /** The forecast, in days of 24 hours, lies between the two extreme rates. */
  lemma EstimateBounds(seg: seq<Point>, daysLeft: real, lo: real, hi: real)
    requires Chronological(seg) && |seg| >= 2 && IsEstimate(seg, daysLeft)
    requires 0.0 < lo && LosesPerDay(seg, lo, hi) && seg[|seg| - 1].vnd >= 0
    ensures hi > 0.0
    ensures var last := seg[|seg| - 1].vnd as real; last / hi <= daysLeft <= last / lo
  {
    PerDayIsDaily(seg, lo, hi);
    hide Mul, Extrapolate, LosesPerDay;
    var t, v, n := DayOffsets(seg), Balances(seg), |seg|;
    AllPairsLose(seg, lo, hi);
    PairSumBounds(t, v, lo, hi, n);
    QuotientBounds(v[n - 1], PairSum(t, t, n), PairSum(t, v, n), lo, hi);
  }

  /** On a straight line of slope -rate per day it is the last balance over the rate. */
  lemma StraightLineIsExact(seg: seq<Point>, daysLeft: real, rate: real)
    requires Chronological(seg) && |seg| >= 2 && IsEstimate(seg, daysLeft)
    requires rate > 0.0 && LosesPerDay(seg, rate, rate) && seg[|seg| - 1].vnd >= 0
    ensures daysLeft == seg[|seg| - 1].vnd as real / rate
  {
    EstimateBounds(seg, daysLeft, rate, rate);
  }

  /** What is left of the balances after taking off the line a + b * t, summed. */
  function ResidualSum(t: seq<real>, v: seq<real>, a: real, b: real, n: nat): real
    requires n <= |t| == |v|
  {
    if n == 0 then 0.0 else ResidualSum(t, v, a, b, n - 1) + (v[n - 1] - a - Mul(b, t[n - 1]))
  }

  /** The same, each residual weighted with its time. */
  function WeightedResiduals(t: seq<real>, v: seq<real>, a: real, b: real, n: nat): real
    requires n <= |t| == |v|
  {
    if n == 0 then 0.0 else WeightedResiduals(t, v, a, b, n - 1) + Mul(t[n - 1], v[n - 1] - a - Mul(b, t[n - 1]))
  }

  lemma {:induction false} ResidualsExpand(t: seq<real>, v: seq<real>, a: real, b: real, n: nat)
    requires n <= |t| == |v|
    ensures ResidualSum(t, v, a, b, n) == Sum(v, n) - Mul(n as real, a) - Mul(b, Sum(t, n))
    ensures WeightedResiduals(t, v, a, b, n) == DotSum(t, v, n) - Mul(a, Sum(t, n)) - Mul(b, DotSum(t, t, n))
  {
    hide Mul;
    if n == 0 {
      MulSuccessor(0.0, a);
      MulSuccessor(0.0, b);
    } else {
      ResidualsExpand(t, v, a, b, n - 1);
      MulSuccessor((n - 1) as real, a);
      MulAdd(b, Sum(t, n - 1), t[n - 1]);
      MulAdd(a, Sum(t, n - 1), t[n - 1]);
      MulAdd(b, DotSum(t, t, n - 1), Mul(t[n - 1], t[n - 1]));
      WeightedTerm(t[n - 1], v[n - 1], a, b);
    }
  }

  lemma WeightedTerm(t: real, v: real, a: real, b: real)
    ensures Mul(t, v - a - Mul(b, t)) == Mul(t, v) - Mul(a, t) - Mul(b, Mul(t, t))
  {
  }

  lemma SolveForSlope(n: real, a: real, b: real, s: real, r: real, tv: real, tt: real)
    requires r - Mul(n, a) - Mul(b, s) == 0.0 && tv - Mul(a, s) - Mul(b, tt) == 0.0
    ensures Mul(n, tv) - Mul(s, r) == Mul(b, Mul(n, tt) - Mul(s, s))
  {
    assert r == n * a + b * s && tv == a * s + b * tt;
    assert n * tv == n * (a * s) + n * (b * tt);
    assert s * r == s * (n * a) + s * (b * s);
  }

  /** The estimate is the least-squares line's: if a + b * t satisfies the normal equations of the
      readings (residuals that sum to zero, plain and weighted with the time), then b is negative and
      the days left are the last balance over -b, floored at zero. */
  lemma EstimateIsRegression(seg: seq<Point>, daysLeft: real, a: real, b: real)
    requires |seg| > 0 && IsEstimate(seg, daysLeft)
    requires ResidualSum(DayOffsets(seg), Balances(seg), a, b, |seg|) == 0.0
    requires WeightedResiduals(DayOffsets(seg), Balances(seg), a, b, |seg|) == 0.0
    ensures b < 0.0
    ensures var d := seg[|seg| - 1].vnd as real / -b; daysLeft == if d < 0.0 then 0.0 else d
  {
    var t, v, n := DayOffsets(seg), Balances(seg), |seg|;
    assert v[n - 1] == seg[n - 1].vnd as real;
    ResidualsExpand(t, v, a, b, n);
    PairSumExpands(t, v, n);
    PairSumExpands(t, t, n);
    hide PairSum, Sum, DotSum, ResidualSum, WeightedResiduals, DayOffsets, Balances;
    SolveForSlope(n as real, a, b, Sum(t, n), Sum(v, n), DotSum(t, v, n), DotSum(t, t, n));
    SlopeOf(v[n - 1], PairSum(t, t, n), PairSum(t, v, n), b);
  }

  lemma SlopeOf(last: real, tt: real, tv: real, b: real)
    requires tt > 0.0 && tv < 0.0 && tv == Mul(b, tt)
    ensures b < 0.0
    ensures var d := last / -b; Extrapolate(last, tt, tv) == if d < 0.0 then 0.0 else d
  {
    assert b < 0.0;
    var d := last / -b;
    assert d * -b == last && -tv == -b * tt;
    assert d * -tv == (d * -b) * tt == last * tt;
    CancelQuotient(last * tt, -tv, d);
  }

  lemma CancelQuotient(x: real, y: real, d: real)
    requires y > 0.0 && d * y == x
    ensures x / y == d
  {
  }

  /** Half of 100 used up in 48 hours: two days are left. */
  lemma TwoDaysLeft(daysLeft: real)
    requires IsEstimate([Point(0, 100), Point(172_800_000_000_000, 50)], daysLeft)
    ensures daysLeft == 2.0
  {
    var seg := [Point(0, 100), Point(172_800_000_000_000, 50)];
    assert LosesPerDay(seg, 25.0, 25.0);
    StraightLineIsExact(seg, daysLeft, 25.0);
  }

  /** A debt leaves no days. */
  lemma DebtLeavesNoDays(seg: seq<Point>, daysLeft: real)
    requires |seg| > 0 && IsEstimate(seg, daysLeft) && seg[|seg| - 1].vnd <= 0
    ensures daysLeft == 0.0
  {
    var t, v := DayOffsets(seg), Balances(seg);
    var last, tt, tv := v[|seg| - 1], PairSum(t, t, |seg|), PairSum(t, v, |seg|);
    hide PairSum;
    assert last * tt <= 0.0;
    QuotientSign(last * tt, -tv);
  }

  lemma QuotientSign(a: real, d: real)
    requires a <= 0.0 && d > 0.0
    ensures a / d <= 0.0
  {
  }

  lemma SuffixOfSuffix(s: seq<Point>, p: seq<Point>, k: nat)
    requires |p| <= |s| && p == s[|s| - |p|..] && k <= |p|
    ensures p[|p| - k..] == s[|s| - k..]
    ensures k < |p| ==> p[|p| - k - 1] == s[|s| - k - 1]
    ensures 0 < k ==> p[|p| - k] == s[|s| - k]
  {
  }

  /** The segment used is made of the last seven readings at most, back to the last rise among them. */
  lemma SegmentIsRecent(points: seq<Point>, sorted: seq<Point>, seg: seq<Point>, daysLeft: real, ok: bool)
    requires IsForecast(points, sorted, seg, daysLeft, ok)
    ensures var n, k := |sorted|, |seg|;
      && k <= 7 && k <= n && seg == sorted[n - k..] && NonIncreasing(seg)
      && (k == 7 || k == n || (k > 0 && sorted[n - k].vnd > sorted[n - k - 1].vnd))
  {
    hide IsEstimate, IsRecentDecline, NonIncreasing, LastSeven, Declines, Chronological;
    LastSevenRecent(sorted, seg);
  }

  lemma LastSevenRecent(sorted: seq<Point>, seg: seq<Point>)
    requires IsRecentDecline(LastSeven(sorted), seg)
    ensures var n, k := |sorted|, |seg|;
      && k <= 7 && k <= n && seg == sorted[n - k..] && NonIncreasing(seg)
      && (k == 7 || k == n || (k > 0 && sorted[n - k].vnd > sorted[n - k - 1].vnd))
  {
    var p := LastSeven(sorted);
    assert |p| == (if |sorted| < 7 then |sorted| else 7) && p == sorted[|sorted| - |p|..];
    RiseBeforeDecline(p, seg);
    hide IsRecentDecline, NonIncreasing, LastSeven;
    SuffixOfSuffix(sorted, p, |seg|);
  }

  /** There is a forecast exactly when the segment has two readings, 24 hours apart, and went down. */
  lemma ForecastDecision(points: seq<Point>, sorted: seq<Point>, seg: seq<Point>, daysLeft: real, ok: bool)
    requires IsForecast(points, sorted, seg, daysLeft, ok)
    ensures ok <==> |seg| >= 2 && seg[|seg| - 1].at - seg[0].at >= 86_400_000_000_000 && seg[|seg| - 1].vnd < seg[0].vnd
    ensures !ok ==> daysLeft == 0.0
  {
    hide IsRecentDecline, IsEstimate, LastSeven;
  }

  lemma RiseBeforeDecline(p: seq<Point>, seg: seq<Point>)
    requires IsRecentDecline(p, seg)
    ensures var n, k := |p|, |seg|;
      && k <= n && seg == p[n - k..] && NonIncreasing(seg)
      && (k == n || (k > 0 && p[n - k].vnd > p[n - k - 1].vnd))
  {
    var n, k := |p|, |seg|;
    if k < n {
      var longer := p[n - k - 1..];
      assert longer[1..] == seg && !NonIncreasing(longer);
      assert |longer| == 1 ==> NonIncreasing(longer);
      RiseAtFront(longer);
    }
  }

  lemma FrontJoins(p: seq<Point>)
    requires |p| > 1 && p[1].vnd <= p[0].vnd && NonIncreasing(p[1..])
    ensures NonIncreasing(p)
  {
    var rest := p[1..];
    forall i, j | 0 <= i < j < |p| ensures p[i].vnd >= p[j].vnd {
      assert p[j] == rest[j - 1] && p[1] == rest[0] && (i > 0 ==> p[i] == rest[i - 1]);
    }
  }

  lemma RiseAtFront(p: seq<Point>)
    requires |p| > 1 && !NonIncreasing(p) && NonIncreasing(p[1..])
    ensures p[1].vnd > p[0].vnd
  {
    if p[1].vnd <= p[0].vnd {
      FrontJoins(p);
    }
  }

  // ----- The program -----

  lemma SuffixIsChronological(p: seq<Point>, k: nat)
    requires Chronological(p) && k <= |p|
    ensures Chronological(p[k..])
  {
  }

  lemma RiseEndsDecline(p: seq<Point>, i: nat)
    requires 0 < i < |p| && p[i].vnd > p[i - 1].vnd
    ensures forall k :: 0 <= k < i ==> !NonIncreasing(p[k..])
  {
    forall k | 0 <= k < i ensures !NonIncreasing(p[k..]) {
      assert p[k..][i - 1 - k] == p[i - 1] && p[k..][i - k] == p[i];
    }
  }

  lemma ScaleOut(n: real, cov: real, vart: real, tv: real, tt: real, last: real)
    requires n > 0.0 && Mul(n, cov) == tv && Mul(n, vart) == tt && tt > 0.0
    ensures vart > 0.0
    ensures cov / vart >= 0.0 <==> tv >= 0.0
    ensures tv < 0.0 ==> var d := last / -(cov / vart);
      (if d < 0.0 then 0.0 else d) == Extrapolate(last, tt, tv)
  {
    assert vart > 0.0;
    var s := cov / vart;
    assert s * vart == cov;
    assert s * tt == tv by { assert s * (n * vart) == n * (s * vart); }
    if tv < 0.0 {
      assert s < 0.0;
      assert last / -s == (last * tt) / (-s * tt);
    }
  }

  /** The scan for the last top-up, from the newest reading backwards. */
  method CutAtTopUp(p: seq<Point>) returns (seg: seq<Point>)
    requires Chronological(p)
    ensures IsRecentDecline(p, seg) && Chronological(seg)
  {
    seg := p;
    var i := |p| - 1;
    while i > 0
      invariant -1 <= i < |p| && (i == -1 ==> p == [])
      invariant i >= 0 ==> NonIncreasing(p[i..])
    {
      if p[i].vnd > p[i - 1].vnd {
        RiseEndsDecline(p, i);
        SuffixIsChronological(p, i);
        seg := p[i..];
        return;
      }
      assert p[i - 1..] == [p[i - 1]] + p[i..];
      i := i - 1;
    }
    assert p[0..] == p;
  }

  lemma SumsStart(p: seq<Point>)
    ensures DayOffsets(p)[..0] == [] && Sum(DayOffsets(p), 0) == 0.0 && Sum(Balances(p), 0) == 0.0
  {
  }

  lemma OffsetsNext(p: seq<Point>, i: nat)
    requires i < |p|
    ensures var t := TimeSub(p[i].at, p[0].at) as real / DAY as real;
      && DayOffsets(p)[i] == t && DayOffsets(p)[..i + 1] == DayOffsets(p)[..i] + [t]
      && Sum(DayOffsets(p), i + 1) == Sum(DayOffsets(p), i) + t
    ensures Balances(p)[i] == p[i].vnd as real && Sum(Balances(p), i + 1) == Sum(Balances(p), i) + p[i].vnd as real
  {
  }

  lemma DeviationsStart(t: seq<real>, v: seq<real>, a: real, b: real)
    requires |t| == |v|
    ensures DeviationSum(t, v, a, b, 0) == 0.0
  {
  }

  lemma DeviationsNext(t: seq<real>, v: seq<real>, a: real, b: real, i: nat)
    requires i < |t| == |v|
    ensures DeviationSum(t, v, a, b, i + 1) == DeviationSum(t, v, a, b, i) + Mul(t[i] - a, v[i] - b)
  {
  }

  /** The two accumulation passes of the regression. */
  method Accumulate(p: seq<Point>) returns (cov: real, vart: real)
    requires |p| > 0
    ensures Mul(|p| as real, cov) == PairSum(DayOffsets(p), Balances(p), |p|)
    ensures Mul(|p| as real, vart) == PairSum(DayOffsets(p), DayOffsets(p), |p|)
  {
    hide Mul, DayOffsets, Balances, Days, Sum, DeviationSum, PairSum;
    var n := |p| as real;
    var st, sv := 0.0, 0.0;
    var t: seq<real> := [];
    SumsStart(p);
    for i := 0 to |p|
      invariant t == DayOffsets(p)[..i]
      invariant st == Sum(DayOffsets(p), i) && sv == Sum(Balances(p), i)
    {
      OffsetsNext(p, i);
      t := t + [TimeSub(p[i].at, p[0].at) as real / DAY as real];
      st := st + t[i];
      sv := sv + p[i].vnd as real;
    }
    assert t == DayOffsets(p);
    var mt, mv := st / n, sv / n;
    cov, vart := 0.0, 0.0;
    DeviationsStart(t, Balances(p), mt, mv);
    DeviationsStart(t, t, mt, mt);
    for i := 0 to |p|
      invariant cov == DeviationSum(t, Balances(p), mt, mv, i)
      invariant vart == DeviationSum(t, t, mt, mt, i)
    {
      DeviationsNext(t, Balances(p), mt, mv, i);
      DeviationsNext(t, t, mt, mt, i);
      assert Balances(p)[i] == p[i].vnd as real by { OffsetsNext(p, i); }
      cov := cov + Mul(t[i] - mt, p[i].vnd as real - mv);
      vart := vart + Mul(t[i] - mt, t[i] - mt);
    }
    CovarianceIsPairSum(t, Balances(p), mt, mv);
    CovarianceIsPairSum(t, t, mt, mt);
  }

  /** From the accumulated sums to the answer. */
  method Extrapolated(p: seq<Point>) returns (daysLeft: real, ok: bool)
    requires Chronological(p) && NonIncreasing(p) && |p| >= 2
    requires TimeSub(p[|p| - 1].at, p[0].at) >= DAY
    ensures ok <==> Declines(p)
    ensures if ok then IsEstimate(p, daysLeft) else daysLeft == 0.0
  {
    hide Mul, Extrapolate;
    var cov, vart := Accumulate(p);
    SlopeSign(p);
    ScaleOut(|p| as real, cov, vart, PairSum(DayOffsets(p), Balances(p), |p|),
             PairSum(DayOffsets(p), DayOffsets(p), |p|), p[|p| - 1].vnd as real);
    if vart == 0.0 {
      assert false; // the program returns (0, false) here, but the times always vary
    }
    var slope := cov / vart;
    if slope >= 0.0 {
      return 0.0, false;
    }
    daysLeft := p[|p| - 1].vnd as real / -slope;
    if daysLeft < 0.0 {
      daysLeft := 0.0;
    }
    ok := true;
  }

  method Forecast(points: seq<Point>) returns (daysLeft: real, ok: bool)
    ensures exists sorted, seg :: IsForecast(points, sorted, seg, daysLeft, ok)
  {
    var sorted := SortSlice(points, (a: Point, b: Point) => a.at < b.at);
    var p := sorted;
    if |p| > 7 {
      p := p[|p| - 7..];
      SuffixIsChronological(sorted, |sorted| - 7);
    }
    p := CutAtTopUp(p);
    if |p| < 2 || TimeSub(p[|p| - 1].at, p[0].at) < DAY {
      assert IsForecast(points, sorted, p, 0.0, false);
      return 0.0, false;
    }
    daysLeft, ok := Extrapolated(p);
    assert IsForecast(points, sorted, p, daysLeft, ok);
  }
}
