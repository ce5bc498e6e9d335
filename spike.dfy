/** SPIKE detection: per level, an hour whose count lies more than two population
    standard deviations above the mean of the hours of the range, among more than
    three entries.

    With `n` hours, `s` the sum of the counts and `q` the sum of `(n·v − s)²` over the
    counts `v`, the mean is `s / n` and the variance `q / n³`. For the count `c` of an
    hour let `d = n·c − s`, which is `n·(c − mean)`. Then, for the standard deviation
    `σ > 0` and `k >= 0`, `(c − mean) / σ > k` holds exactly when `d > 0` and
    `n·d² > k²·q` (lemma `ZScoreBridge`); `σ == 0` exactly when `q == 0`. */
module Spike {
  import opened Levels
  import opened Aggregate
  import opened Alerts
  import opened Gather
  import opened Exact

  /** `hours.map(h => hourlyCounts[h][level])`. */
  function Values(counts: seq<Tally>, l: Level): (vs: seq<nat>)
    ensures |vs| == |counts|
    ensures forall i :: 0 <= i < |counts| ==> vs[i] == Get(counts[i], l)
  {
    seq(|counts|, i requires 0 <= i < |counts| => Get(counts[i], l))
  }

  /** `n·v − s`: `n` times the deviation of `v` from the mean `s / n`. */
  function Dev(v: nat, n: nat, s: nat): int {
    n * v - s
  }

  /** The sum of the squared scaled deviations, `n²` times the sum of `(v − mean)²`. */
  function SqDev(vs: seq<nat>, n: nat, s: nat): int {
    if vs == [] then 0
    else SqDev(vs[..|vs| - 1], n, s) + Dev(vs[|vs| - 1], n, s) * Dev(vs[|vs| - 1], n, s)
  }

  /** `z > k` for a count whose scaled deviation is `d`, among `n` hours whose sum of
      squares is `q`: `d > 0` and `n·d² > k²·q`. */
  predicate ZAbove(d: int, n: nat, k: nat, q: int) {
    d > 0 && n * d * d > k * k * q
  }

  /** The SPIKE test of the hour at position `i`: `z > 2` and `count > 3`. */
  predicate Fires(vs: seq<nat>, s: nat, q: int, i: nat)
    requires i < |vs|
  {
    ZAbove(Dev(vs[i], |vs|, s), |vs|, 2, q) && vs[i] > 3
  }

  /** The alert of a spike at position `i`: critical exactly when `z > 3`. */
  function SpikeAlert(vs: seq<nat>, s: nat, q: int, first: int, l: Level, i: nat): Anomaly
    requires i < |vs|
  {
    Anomaly(Spike(vs[i], Round(s, |vs|)),
            if ZAbove(Dev(vs[i], |vs|, s), |vs|, 3, q) then Critical else Warning, Only(l), first + i)
  }

  /** The alert of the hour at position `i`, if it fires. */
  function SpikeAt(vs: seq<nat>, s: nat, q: int, first: int, l: Level, i: nat): (r: seq<Anomaly>)
    requires i < |vs|
    ensures |r| <= 1 && forall a :: a in r ==> a.hour == first + i
  {
    if Fires(vs, s, q, i) then [SpikeAlert(vs, s, q, first, l, i)] else []
  }

  /** The pushes of the `hours.forEach` loop, hour by hour. */
  function PerHour(vs: seq<nat>, s: nat, q: int, first: int, l: Level): (r: seq<seq<Anomaly>>)
    ensures |r| == |vs| && forall i :: 0 <= i < |vs| ==> r[i] == SpikeAt(vs, s, q, first, l, i)
  {
    seq(|vs|, i requires 0 <= i < |vs| => SpikeAt(vs, s, q, first, l, i))
  }

  /** The SPIKE alerts of level `l` over the hours `first, first + 1, ...` whose tallies
      are `counts`; none when the standard deviation is 0. */
  function Spikes(counts: seq<Tally>, first: int, l: Level): seq<Anomaly> {
    var vs := Values(counts, l);
    var s := Sum(vs);
    var q := SqDev(vs, |vs|, s);
    if q == 0 then [] else Concat(PerHour(vs, s, q, first, l))
  }

  /** One pass of `['ERROR', 'WARN', 'INFO'].forEach`: the mean and the variance of the
      level's counts, then the `hours.forEach` loop that pushes an alert per spike. */
  method DetectSpikes(counts: seq<Tally>, first: int, l: Level) returns (alerts: seq<Anomaly>)
    ensures alerts == Spikes(counts, first, l)
  {
    alerts := [];
    var values := Values(counts, l);
    var n := |values|;
    var s := Sum(values);
    var q := SqDev(values, n, s);
    if q == 0 {
      return;
    }
    ghost var pushes := PerHour(values, s, q, first, l);
    for i := 0 to n
      invariant alerts == Concat(pushes[..i])
    {
      ConcatSnoc(pushes, i);
      var pushed := VisitHour(values, s, q, first, l, i);
      alerts := alerts + pushed;
    }
    assert pushes[..n] == pushes;
  }

  /** The callback of `hours.forEach` at position `i`: the alert it pushes, if any. */
  method VisitHour(values: seq<nat>, s: nat, q: int, first: int, l: Level, i: nat)
    returns (pushed: seq<Anomaly>)
    requires i < |values|
    ensures pushed == SpikeAt(values, s, q, first, l, i)
  {
    var n := |values|;
    var count := values[i];
    var d := n * count - s;
    pushed := [];
    if ZAbove(d, n, 2, q) && count > 3 {
      var severity := if ZAbove(d, n, 3, q) then Critical else Warning;
      pushed := [Anomaly(Spike(count, Round(s, n)), severity, Only(l), first + i)];
    }
  }

  /** An alert is pushed at the hour of position `i` exactly when it passes the test. */
  lemma PerHourComplete(vs: seq<nat>, s: nat, q: int, first: int, l: Level)
    ensures forall i :: 0 <= i < |vs| ==>
              (SpikeAlert(vs, s, q, first, l, i) in Concat(PerHour(vs, s, q, first, l)) <==> Fires(vs, s, q, i))
  {
    var xss := PerHour(vs, s, q, first, l);
    forall i | 0 <= i < |vs|
      ensures SpikeAlert(vs, s, q, first, l, i) in Concat(xss) <==> Fires(vs, s, q, i)
    {
      var a := SpikeAlert(vs, s, q, first, l, i);
      ConcatMember(xss, a);
      if a in Concat(xss) {
        var j :| 0 <= j < |xss| && a in xss[j];
        assert a in SpikeAt(vs, s, q, first, l, j);
      }
      if Fires(vs, s, q, i) {
        assert a in xss[i];
      }
    }
  }

  /** Every pushed alert is the alert of a position that passes the test. */
  lemma PerHourSound(vs: seq<nat>, s: nat, q: int, first: int, l: Level)
    ensures forall a :: a in Concat(PerHour(vs, s, q, first, l)) ==>
              first <= a.hour < first + |vs| && Fires(vs, s, q, a.hour - first)
              && a == SpikeAlert(vs, s, q, first, l, a.hour - first)
  {
    var xss := PerHour(vs, s, q, first, l);
    forall a: Anomaly | a in Concat(xss)
      ensures first <= a.hour < first + |vs| && Fires(vs, s, q, a.hour - first)
              && a == SpikeAlert(vs, s, q, first, l, a.hour - first)
    {
      ConcatMember(xss, a);
      var j :| 0 <= j < |xss| && a in xss[j];
      assert a in SpikeAt(vs, s, q, first, l, j);
    }
  }

  /** What the source promises of SPIKE: an alert at the hour `first + i` exactly when the
      standard deviation is not 0, `z > 2` and the count is above 3 (lemma
      `SpikeTestIsZScore`). */
  lemma SpikesComplete(counts: seq<Tally>, first: int, l: Level)
    ensures var vs := Values(counts, l);
            var s := Sum(vs);
            var q := SqDev(vs, |vs|, s);
            forall i :: 0 <= i < |vs| ==>
              (SpikeAlert(vs, s, q, first, l, i) in Spikes(counts, first, l) <==> q != 0 && Fires(vs, s, q, i))
  {
    var vs := Values(counts, l);
    PerHourComplete(vs, Sum(vs), SqDev(vs, |vs|, Sum(vs)), first, l);
  }

  /** No other alert is emitted: each is the alert of an hour of the range that passes
      the test, with the count, the rounded mean and the severity of that hour. */
  lemma SpikesSound(counts: seq<Tally>, first: int, l: Level)
    ensures var vs := Values(counts, l);
            var s := Sum(vs);
            var q := SqDev(vs, |vs|, s);
            forall a :: a in Spikes(counts, first, l) ==>
              q != 0 && first <= a.hour < first + |vs| && Fires(vs, s, q, a.hour - first)
              && a == SpikeAlert(vs, s, q, first, l, a.hour - first)
  {
    var vs := Values(counts, l);
    PerHourSound(vs, Sum(vs), SqDev(vs, |vs|, Sum(vs)), first, l);
  }

  /** The alerts of a level come in increasing hour order, at most one per hour. */
  lemma SpikesIncreasing(counts: seq<Tally>, first: int, l: Level)
    ensures var r := Spikes(counts, first, l);
            forall i, j :: 0 <= i < j < |r| ==> r[i].hour < r[j].hour
  {
    var vs := Values(counts, l);
    var s := Sum(vs);
    var q := SqDev(vs, |vs|, s);
    if q != 0 {
      PerHourIncreasing(vs, s, q, first, l);
      assert Spikes(counts, first, l) == Concat(PerHour(vs, s, q, first, l));
    }
  }

  lemma PerHourIncreasing(vs: seq<nat>, s: nat, q: int, first: int, l: Level)
    ensures var r := Concat(PerHour(vs, s, q, first, l));
            forall i, j :: 0 <= i < j < |r| ==> r[i].hour < r[j].hour
  {
    var xss := PerHour(vs, s, q, first, l);
    ConcatIncreasing(xss, AlertHour, first);
    var r := Concat(xss);
    assert forall i, j :: 0 <= i < j < |r| ==> AlertHour(r[i]) < AlertHour(r[j]);
  }

  /** Each alert of the level carries that hour's count of the level, above 3, and the
      rounded mean. */
  lemma SpikeFields(counts: seq<Tally>, first: int, l: Level)
    ensures var vs := Values(counts, l);
            forall a :: a in Spikes(counts, first, l) ==>
              first <= a.hour < first + |counts| && a.scope == Only(l) && a.kind.Spike?
              && a.kind.count == Get(counts[a.hour - first], l) && a.kind.count > 3
              && a.kind.expected == Round(Sum(vs), |vs|)
  {
    SpikesSound(counts, first, l);
  }

  /** A square is zero exactly when its root is. */
  lemma SquareZero(x: int)
    ensures x * x >= 0
    ensures x * x == 0 <==> x == 0
  {
  }

  /** The sum of squares is never negative, and is zero exactly when every value is at the mean `s / n`. */
  lemma {:induction false} SqDevZero(vs: seq<nat>, n: nat, s: nat)
    ensures SqDev(vs, n, s) >= 0
    ensures SqDev(vs, n, s) == 0 <==> forall i :: 0 <= i < |vs| ==> n * vs[i] == s
  {
    if vs != [] {
      var init, v := vs[..|vs| - 1], vs[|vs| - 1];
      SqDevZero(init, n, s);
      SquareZero(Dev(v, n, s));
      if SqDev(vs, n, s) == 0 {
        forall i | 0 <= i < |vs| ensures n * vs[i] == s {
          if i < |vs| - 1 {
            assert vs[i] == init[i];
          }
        }
      }
      if forall i :: 0 <= i < |vs| ==> n * vs[i] == s {
        forall i | 0 <= i < |init| ensures n * init[i] == s {
          assert init[i] == vs[i];
        }
      }
    }
  }

  /** The sum of equal values is their number times the value. */
  lemma {:induction false} SumConstant(vs: seq<nat>, v: nat)
    requires forall i :: 0 <= i < |vs| ==> vs[i] == v
    ensures Sum(vs) == |vs| * v
  {
    if vs != [] {
      SumConstant(vs[..|vs| - 1], v);
    }
  }

  lemma MulCancel(n: nat, a: nat, b: nat)
    requires n > 0 && n * a == n * b
    ensures a == b
  {
  }

  /** The standard deviation is 0 exactly when every hour has the same count of the level,
      and then the level yields no SPIKE. */
  lemma NoVarianceNoSpike(counts: seq<Tally>, first: int, l: Level)
    ensures var vs := Values(counts, l);
            SqDev(vs, |vs|, Sum(vs)) == 0 <==> forall i, j :: 0 <= i < j < |vs| ==> vs[i] == vs[j]
    ensures (forall i, j :: 0 <= i < j < |counts| ==> Get(counts[i], l) == Get(counts[j], l))
            ==> Spikes(counts, first, l) == []
  {
    var vs := Values(counts, l);
    var n, s := |vs|, Sum(vs);
    SqDevZero(vs, n, s);
    if forall i, j :: 0 <= i < j < n ==> vs[i] == vs[j] {
      if n > 0 {
        forall i | 0 <= i < n ensures vs[i] == vs[0] {
          if i > 0 {
            assert vs[0] == vs[i];
          }
        }
        SumConstant(vs, vs[0]);
      }
    }
    if SqDev(vs, n, s) == 0 {
      forall i, j | 0 <= i < j < n ensures vs[i] == vs[j] {
        MulCancel(n, vs[i], vs[j]);
      }
    }
  }

  /** The sum of `(v − mean)²` over the reals. */
  function RealSqDev(vs: seq<nat>, mean: real): real {
    if vs == [] then 0.0
    else RealSqDev(vs[..|vs| - 1], mean) + (vs[|vs| - 1] as real - mean) * (vs[|vs| - 1] as real - mean)
  }

  /** The source's `mean`, on the reals. */
  function Mean(vs: seq<nat>): real
    requires vs != []
  {
    Sum(vs) as real / |vs| as real
  }

  /** The source's (population) `variance`, on the reals. */
  function Variance(vs: seq<nat>): real
    requires vs != []
  {
    RealSqDev(vs, Mean(vs)) / |vs| as real
  }

  /** The source's test `z > k` at position `i` with the standard deviation `σ > 0`,
      squared so that no square root is needed: the count exceeds the mean, and its
      squared distance from the mean exceeds `k²` times the variance. */
  predicate RealAbove(vs: seq<nat>, i: nat, k: nat)
    requires i < |vs|
  {
    RealTest(vs[i] as real - Mean(vs), k, Variance(vs))
  }

  /** `x > 0` and `x² > k²·variance`. */
  predicate RealTest(x: real, k: nat, variance: real) {
    x > 0.0 && x * x > (k * k) as real * variance
  }

  /** The SPIKE test and its severity are the source's z-score tests over the reals:
      an alert exactly when `z > 2` and the count is above 3, critical exactly when
      `z > 3`. */
  lemma SpikeTestIsZScore(vs: seq<nat>, first: int, l: Level, i: nat)
    requires i < |vs|
    ensures var s := Sum(vs);
            var q := SqDev(vs, |vs|, s);
            (Fires(vs, s, q, i) <==> RealAbove(vs, i, 2) && vs[i] > 3)
            && (SpikeAlert(vs, s, q, first, l, i).severity == Critical <==> RealAbove(vs, i, 3))
  {
    ZScoreBridge(vs, i, 2);
    ZScoreBridge(vs, i, 3);
  }

  /** The exact integer test is the source's test over the reals. */
  lemma ZScoreBridge(vs: seq<nat>, i: nat, k: nat)
    requires i < |vs|
    ensures RealAbove(vs, i, k) <==> ZAbove(Dev(vs[i], |vs|, Sum(vs)), |vs|, k, SqDev(vs, |vs|, Sum(vs)))
  {
    var n, s, m := |vs|, Sum(vs), Mean(vs);
    assert m * n as real == s as real;
    ScaledSqDev(vs, n, s, m);
    ScaledTest(vs[i], s, n, m, RealSqDev(vs, m), SqDev(vs, n, s), k);
    assert Variance(vs) == RealSqDev(vs, m) / n as real;
  }

  /** `r · n² == q`: the real `r` scaled by `n²` is the integer `q`. */
  predicate Scaled(r: real, q: int, n: nat) {
    r * (n as real * n as real) == q as real
  }

  /** `r' == r + (v − m)²`. */
  predicate RealSnoc(r': real, r: real, v: nat, m: real) {
    r' == r + (v as real - m) * (v as real - m)
  }

  /** `q' == q + (n·v − s)²`. */
  predicate IntSnoc(q': int, q: int, v: nat, n: nat, s: nat) {
    q' == q + Dev(v, n, s) * Dev(v, n, s)
  }

  /** `n²` times the sum of the squared real deviations is the integer sum of squares. */
  lemma {:induction false} ScaledSqDev(vs: seq<nat>, n: nat, s: nat, m: real)
    requires n > 0 && m * n as real == s as real
    ensures Scaled(RealSqDev(vs, m), SqDev(vs, n, s), n)
  {
    if vs != [] {
      var init, v := vs[..|vs| - 1], vs[|vs| - 1];
      ScaledSqDev(init, n, s, m);
      SqDevSnoc(vs, n, s, m);
      ScaledStep(RealSqDev(init, m), RealSqDev(vs, m), SqDev(init, n, s), SqDev(vs, n, s), v, n, s, m);
    } else {
      assert RealSqDev(vs, m) == 0.0 && SqDev(vs, n, s) == 0;
    }
  }

  /** Both sums of squares, unfolded once. */
  lemma SqDevSnoc(vs: seq<nat>, n: nat, s: nat, m: real)
    requires vs != []
    ensures RealSnoc(RealSqDev(vs, m), RealSqDev(vs[..|vs| - 1], m), vs[|vs| - 1], m)
    ensures IntSnoc(SqDev(vs, n, s), SqDev(vs[..|vs| - 1], n, s), vs[|vs| - 1], n, s)
  {
  }

  /** One more value keeps the scaled sums equal: `(v − m)² · n² == (n·v − s)²`. */
  lemma ScaledStep(a: real, a': real, b: int, b': int, v: nat, n: nat, s: nat, m: real)
    requires n > 0 && m * n as real == s as real
    requires Scaled(a, b, n) && RealSnoc(a', a, v, m) && IntSnoc(b', b, v, n, s)
    ensures Scaled(a', b', n)
  {
    var nr := n as real;
    var x := v as real - m;
    var d := Dev(v, n, s);
    assert x * nr == d as real;
    assert (a + x * x) * (nr * nr) == a * (nr * nr) + (x * nr) * (x * nr);
    assert (d * d) as real == d as real * d as real;
  }

  /** Multiplying the real test by `n³ > 0` gives the integer one. */
  lemma ScaledTest(v: nat, s: nat, n: nat, m: real, r: real, q: int, k: nat)
    requires n > 0 && m * n as real == s as real
    requires Scaled(r, q, n)
    ensures RealTest(v as real - m, k, r / n as real) <==> ZAbove(Dev(v, n, s), n, k, q)
  {
    var nr := n as real;
    var x := v as real - m;
    var d := Dev(v, n, s);
    var kk := (k * k) as real;
    assert x * nr == d as real;
    assert x > 0.0 <==> d > 0 by {
      assert nr > 0.0;
    }
    CastProducts(n, d, k, q);
    CubeLeft(x, nr, d as real);
    CubeRight(kk, r, nr, q as real);
    CompareScaled(x * x, kk * (r / nr), nr * nr * nr);
  }

  /** The integer products, cast to the reals. */
  lemma CastProducts(n: nat, d: int, k: nat, q: int)
    ensures (n * d * d) as real == n as real * (d as real * d as real)
    ensures (k * k * q) as real == (k * k) as real * q as real
  {
  }

  /** `x² · n³ == n · (x·n)²`. */
  lemma CubeLeft(x: real, nr: real, dr: real)
    requires x * nr == dr
    ensures x * x * (nr * nr * nr) == nr * (dr * dr)
  {
  }

  /** `k² · (r / n) · n³ == k² · (r · n²)`. */
  lemma CubeRight(kk: real, r: real, nr: real, qr: real)
    requires nr > 0.0 && r * (nr * nr) == qr
    ensures kk * (r / nr) * (nr * nr * nr) == kk * qr
  {
    assert (r / nr) * nr == r;
  }

  lemma CompareScaled(a: real, b: real, m: real)
    requires m > 0.0
    ensures a > b <==> a * m > b * m
  {
  }
}
