/** Worked cases of the detectors on small inputs, derived from the model. */
module Worked {
  import opened Levels
  import opened Aggregate
  import opened Alerts
  import opened Exact
  import opened Gather
  import Silence
  import Concentration
  import Spike

  /** Three hours whose totals are `p`, 0 and `q` with `p` and `q` not both zero: there is
      one SILENCE, for the middle hour, critical, with the neighbours' totals. */
  lemma SilenceBetweenActiveHours(counts: seq<Tally>, first: int, p: nat, q: nat)
    requires |counts| == 3 && Total(counts[0]) == p && Total(counts[1]) == 0 && Total(counts[2]) == q
    requires p > 0 || q > 0
    ensures Silence.Silences(counts, first) == [Anomaly(Silence(p, q), Critical, All, first + 1)]
  {
    var a := Anomaly(Silence(p, q), Critical, All, first + 1);
    var xss := Silence.PerHour(counts, first);
    assert !Silence.Silent(counts, 0) && !Silence.Silent(counts, 2);
    assert xss[0] == [] && xss[2] == [];
    assert xss[1] == [a];
    OneInMiddle(xss, a);
  }

  /** ERROR counts 5, 0, 5 for hours 10, 11, 12: a critical SILENCE at 11. */
  lemma QuietEleven()
    ensures Silence.Silences([Tally(0, 0, 5, 0), Zero, Tally(0, 0, 5, 0)], 10)
            == [Anomaly(Silence(5, 5), Critical, All, 11)]
  {
    SilenceBetweenActiveHours([Tally(0, 0, 5, 0), Zero, Tally(0, 0, 5, 0)], 10, 5, 5);
  }

  lemma OneInMiddle<T>(xss: seq<seq<T>>, a: T)
    requires |xss| == 3 && xss[0] == [] && xss[1] == [a] && xss[2] == []
    ensures Concat(xss) == [a]
  {
    ConcatSnoc(xss, 0);
    ConcatSnoc(xss, 1);
    ConcatSnoc(xss, 2);
    assert xss[..0] == [] && xss[..3] == xss;
  }

  /** Five of six entries from one source: a share of 83 %, a warning. */
  lemma FiveOfSix()
    ensures Concentration.Dominant(5, 6) && !Concentration.Overwhelming(5, 6)
    ensures Round(500, 6) == 83
  {
    QuotRem(1006, 12);
  }

  /** `k` hours with `v` entries each. */
  function Same(k: nat, v: nat): (r: seq<nat>)
    ensures |r| == k
  {
    if k == 0 then [] else Same(k - 1, v) + [v]
  }

  lemma {:induction false} SameSums(k: nat, v: nat, n: nat, s: nat)
    ensures Sum(Same(k, v)) == k * v
    ensures Spike.SqDev(Same(k, v), n, s) == k * (Spike.Dev(v, n, s) * Spike.Dev(v, n, s))
  {
    if k > 0 {
      SameSums(k - 1, v, n, s);
      var sq := Spike.Dev(v, n, s) * Spike.Dev(v, n, s);
      assert Same(k, v)[..k - 1] == Same(k - 1, v);
      assert Spike.SqDev(Same(k, v), n, s) == Spike.SqDev(Same(k - 1, v), n, s) + sq;
      assert (k - 1) * sq + sq == k * sq;
      assert (k - 1) * v + v == k * v;
    }
  }

  /** The sums of `k` hours of `v` entries followed by one hour of `x` entries. */
  lemma OutlierSums(k: nat, v: nat, x: nat, n: nat, s: nat)
    ensures Sum(Same(k, v) + [x]) == k * v + x
    ensures Spike.SqDev(Same(k, v) + [x], n, s)
            == k * (Spike.Dev(v, n, s) * Spike.Dev(v, n, s)) + Spike.Dev(x, n, s) * Spike.Dev(x, n, s)
  {
    SameSums(k, v, n, s);
    assert (Same(k, v) + [x])[..k] == Same(k, v);
  }

  /** ERROR counts 1, 1, 1, 1, 20: the mean is 4.8 and the population standard deviation
      exactly 7.6, so the last hour has `z == 2` and is not a spike. */
  lemma NoSpikeAtTwoDeviations()
    ensures var vs: seq<nat> := [1, 1, 1, 1, 20];
            var s := Sum(vs);
            var q := Spike.SqDev(vs, |vs|, s);
            s == 24 && q == 7220 && !Spike.Fires(vs, s, q, 4)
  {
    var vs: seq<nat> := [1, 1, 1, 1, 20];
    assert vs == Same(4, 1) + [20];
    OutlierSums(4, 1, 20, 5, 24);
  }

  /** ERROR counts 4, 4, 4, 4, 7: the mean is 4.6 and the standard deviation exactly 1.2,
      so the last hour has `z == 2`, and the exact test pushes no spike. */
  lemma NoSpikeAtSeven()
    ensures var vs: seq<nat> := [4, 4, 4, 4, 7];
            var s := Sum(vs);
            var q := Spike.SqDev(vs, |vs|, s);
            s == 23 && q == 180 && !Spike.Fires(vs, s, q, 4)
  {
    var vs: seq<nat> := [4, 4, 4, 4, 7];
    assert vs == Same(4, 4) + [7];
    OutlierSums(4, 4, 7, 5, 23);
  }

  /** ERROR counts 1, 1, 1, 1, 1, 20: the last hour has `z == √5`, about 2.24, above 2
      but not above 3, so it is a warning spike; the quiet hours are not spikes. */
  lemma SpikeOfTwenty()
    ensures var vs: seq<nat> := [1, 1, 1, 1, 1, 20];
            var s := Sum(vs);
            var q := Spike.SqDev(vs, |vs|, s);
            s == 25 && q == 10830
            && Spike.Fires(vs, s, q, 5) && Spike.SpikeAlert(vs, s, q, 10, ERROR, 5).severity == Warning
            && !Spike.Fires(vs, s, q, 0)
  {
    var vs: seq<nat> := [1, 1, 1, 1, 1, 20];
    assert vs == Same(5, 1) + [20];
    OutlierSums(5, 1, 20, 6, 25);
  }
}
