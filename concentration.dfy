/** CONCENTRATION detection: for every hour of the range and for ERROR and then WARN, a
    source that produced at least 70 % of the hour's entries of that level, among at
    least 5 such entries. The share `count / total · 100 >= p` is compared exactly as
    `100·count >= p·total`. */
module Concentration {
  import opened Levels
  import opened Parser
  import opened Aggregate
  import opened Alerts
  import opened Counting
  import opened Gather
  import opened Exact
  import opened StringOrder

  function SourceOf(e: Entry): string {
    e.source
  }

  /** A share of at least 70 %. */
  predicate Dominant(c: nat, t: nat) {
    10 * c >= 7 * t
  }

  /** A share of at least 90 %: the alert is critical. */
  predicate Overwhelming(c: nat, t: nat) {
    10 * c >= 9 * t
  }

  /** The alert for a source with `c` of the `t` entries of level `l` in hour `h`. */
  function SourceAlert(src: string, c: nat, t: nat, l: Level, h: int): Anomaly
    requires t > 0
  {
    Anomaly(Concentration(src, Round(100 * c, t), c, t),
            if Overwhelming(c, t) then Critical else Warning, Only(l), h)
  }

  /** The push of the `Object.entries(srcCounts)` loop for the source `src`. */
  function SourceAt(he: seq<Entry>, src: string, l: Level, h: int): (r: seq<Anomaly>)
    requires he != []
    ensures |r| <= 1
  {
    var c := CountOf(he, SourceOf, src);
    if Dominant(c, |he|) then [SourceAlert(src, c, |he|, l, h)] else []
  }

  /** The pushes of that loop over the sources `keys`, in order. */
  function SourceAlerts(he: seq<Entry>, keys: seq<string>, l: Level, h: int): seq<Anomaly>
    requires he != []
  {
    if keys == [] then []
    else SourceAlerts(he, keys[..|keys| - 1], l, h) + SourceAt(he, keys[|keys| - 1], l, h)
  }

  /** The alerts of hour `h` and level `l`: none when the hour has fewer than 5 entries
      of the level, otherwise one per dominant source in first-occurrence order. */
  function HourConcentrations(ts: seq<Entry>, h: int, l: Level): seq<Anomaly> {
    var he := HourLevel(ts, h, l);
    if |he| < 5 then [] else SourceAlerts(he, Keys(he, SourceOf), l, h)
  }

  /** The pushes for hour `h` of the `hours.forEach` loop: ERROR first, then WARN. */
  function HourPair(ts: seq<Entry>, h: int): seq<Anomaly> {
    HourConcentrations(ts, h, ERROR) + HourConcentrations(ts, h, WARN)
  }

  function HourPushes(ts: seq<Entry>, first: int, n: nat): (r: seq<seq<Anomaly>>)
    ensures |r| == n && forall i :: 0 <= i < n ==> r[i] == HourPair(ts, first + i)
  {
    seq(n, i => HourPair(ts, first + i))
  }

  /** The CONCENTRATION alerts of the `n` hours from `first` over the timestamped entries `ts`. */
  function Concentrations(ts: seq<Entry>, first: int, n: nat): seq<Anomaly> {
    Concat(HourPushes(ts, first, n))
  }

  method DetectConcentrations(ts: seq<Entry>, first: int, n: nat) returns (alerts: seq<Anomaly>)
    ensures alerts == Concentrations(ts, first, n)
  {
    alerts := [];
    ghost var pushes := HourPushes(ts, first, n);
    for i := 0 to n
      invariant alerts == Concat(pushes[..i])
    {
      var pushed := VisitHour(ts, first, n, i, pushes);
      ConcatPush(pushes, i, alerts, pushed);
      alerts := alerts + pushed;
    }
    assert pushes[..n] == pushes;
  }

  /** The callback of `hours.forEach` for the hour at position `i`. */
  method VisitHour(ts: seq<Entry>, first: int, n: nat, i: nat, ghost pushes: seq<seq<Anomaly>>)
      returns (pushed: seq<Anomaly>)
    requires i < n && pushes == HourPushes(ts, first, n)
    ensures pushed == pushes[i]
  {
    var errors := VisitHourLevel(ts, first + i, ERROR);
    var warnings := VisitHourLevel(ts, first + i, WARN);
    pushed := errors + warnings;
    assert pushed == HourPair(ts, first + i);
  }

  /** The callback of `['ERROR', 'WARN'].forEach` for hour `h`: the filter, the source
      counting loop and the loop over its entries. */
  method VisitHourLevel(ts: seq<Entry>, h: int, l: Level) returns (pushed: seq<Anomaly>)
    ensures pushed == HourConcentrations(ts, h, l)
  {
    pushed := [];
    var he := HourLevel(ts, h, l);
    if |he| < 5 {
      return;
    }
    var keys, counts := CountBy(he, SourceOf);
    for j := 0 to |keys|
      invariant pushed == SourceAlerts(he, keys[..j], l, h)
    {
      assert keys[..j + 1][..j] == keys[..j];
      var count := counts[keys[j]];
      if Dominant(count, |he|) {
        pushed := pushed + [SourceAlert(keys[j], count, |he|, l, h)];
      }
    }
    assert keys[..|keys|] == keys;
  }

  /** An alert is pushed exactly when the loop over the sources pushes it for one of them. */
  lemma {:induction false} SourceAlertsMember(he: seq<Entry>, keys: seq<string>, l: Level, h: int, a: Anomaly)
    requires he != []
    ensures a in SourceAlerts(he, keys, l, h) <==> exists j :: 0 <= j < |keys| && a in SourceAt(he, keys[j], l, h)
  {
    if keys != [] {
      var init := keys[..|keys| - 1];
      SourceAlertsMember(he, init, l, h, a);
      assert SourceAlerts(he, keys, l, h) == SourceAlerts(he, init, l, h) + SourceAt(he, keys[|keys| - 1], l, h);
      if exists j :: 0 <= j < |init| && a in SourceAt(he, init[j], l, h) {
        var j :| 0 <= j < |init| && a in SourceAt(he, init[j], l, h);
        assert keys[j] == init[j];
      }
      if exists j :: 0 <= j < |keys| && a in SourceAt(he, keys[j], l, h) {
        var j :| 0 <= j < |keys| && a in SourceAt(he, keys[j], l, h);
        if j < |init| {
          assert keys[j] == init[j];
        }
      }
    }
  }

  /** Every alert of an hour and level is about a non-empty source with at least 70 % of
      at least 5 entries, and carries that source's count, the hour's total and the
      severity of its share. */
  lemma HourConcentrationsSound(ts: seq<Entry>, h: int, l: Level)
    ensures var he := HourLevel(ts, h, l);
            forall a :: a in HourConcentrations(ts, h, l) ==>
              |he| >= 5 && a.kind.Concentration? && a.kind.source != []
              && Dominant(CountOf(he, SourceOf, a.kind.source), |he|)
              && a == SourceAlert(a.kind.source, CountOf(he, SourceOf, a.kind.source), |he|, l, h)
  {
    var he := HourLevel(ts, h, l);
    if |he| >= 5 {
      forall a: Anomaly | a in SourceAlerts(he, Keys(he, SourceOf), l, h)
        ensures a.kind.Concentration? && a.kind.source != []
                && Dominant(CountOf(he, SourceOf, a.kind.source), |he|)
                && a == SourceAlert(a.kind.source, CountOf(he, SourceOf, a.kind.source), |he|, l, h)
      {
        SourceAlertShape(he, l, h, a);
      }
    }
  }

  /** An alert of the loop over the sources of `he` is about a dominant, non-empty source. */
  lemma SourceAlertShape(he: seq<Entry>, l: Level, h: int, a: Anomaly)
    requires he != [] && a in SourceAlerts(he, Keys(he, SourceOf), l, h)
    ensures a.kind.Concentration? && a.kind.source != []
            && Dominant(CountOf(he, SourceOf, a.kind.source), |he|)
            && a == SourceAlert(a.kind.source, CountOf(he, SourceOf, a.kind.source), |he|, l, h)
  {
    var keys := Keys(he, SourceOf);
    SourceAlertsMember(he, keys, l, h, a);
    var j :| 0 <= j < |keys| && a in SourceAt(he, keys[j], l, h);
    KeysMember(he, SourceOf, keys[j]);
  }

  /** Conversely, every non-empty source with at least 70 % of at least 5 entries has its
      alert. */
  lemma HourConcentrationsComplete(ts: seq<Entry>, h: int, l: Level, src: string)
    requires var he := HourLevel(ts, h, l);
             |he| >= 5 && src != [] && Dominant(CountOf(he, SourceOf, src), |he|)
    ensures var he := HourLevel(ts, h, l);
            SourceAlert(src, CountOf(he, SourceOf, src), |he|, l, h) in HourConcentrations(ts, h, l)
  {
    var he := HourLevel(ts, h, l);
    var keys := Keys(he, SourceOf);
    var a := SourceAlert(src, CountOf(he, SourceOf, src), |he|, l, h);
    KeysMember(he, SourceOf, src);
    var j :| 0 <= j < |keys| && keys[j] == src;
    assert a in SourceAt(he, keys[j], l, h);
    SourceAlertsMember(he, keys, l, h, a);
  }

  /** Among distinct sources at most one reaches 70 %, so the loop pushes at most once. */
  lemma {:induction false} SourceAlertsAtMostOne(he: seq<Entry>, keys: seq<string>, l: Level, h: int)
    requires he != [] && Distinct(keys)
    ensures |SourceAlerts(he, keys, l, h)| <= 1
  {
    if keys != [] {
      var init, last := keys[..|keys| - 1], keys[|keys| - 1];
      SourceAlertsAtMostOne(he, init, l, h);
      if SourceAt(he, last, l, h) != [] && SourceAlerts(he, init, l, h) != [] {
        var a := SourceAlerts(he, init, l, h)[0];
        SourceAlertsMember(he, init, l, h, a);
        var j :| 0 <= j < |init| && a in SourceAt(he, init[j], l, h);
        assert init[j] == keys[j] && keys[j] != last;
        CountsDisjoint(he, SourceOf, init[j], last);
      }
    }
  }

  /** Two different sources cannot both reach 70 %, so an hour and level has at most one
      alert (and the order of `Object.entries` does not matter). */
  lemma HourConcentrationsAtMostOne(ts: seq<Entry>, h: int, l: Level)
    ensures |HourConcentrations(ts, h, l)| <= 1
  {
    var he := HourLevel(ts, h, l);
    if |he| >= 5 {
      KeysDistinct(he, SourceOf);
      SourceAlertsAtMostOne(he, Keys(he, SourceOf), l, h);
    }
  }

  /** `total` is the number of the hour's entries of the level, with or without a
      source: the level's counter of the hour's tally. */
  lemma ConcentrationTotal(ts: seq<Entry>, h: int, l: Level)
    ensures forall a :: a in HourConcentrations(ts, h, l) ==> a.kind.Concentration? && a.kind.total == Get(TallyAt(ts, h), l)
  {
    HourConcentrationsSound(ts, h, l);
    TallyCountsLevel(ts, h, l);
  }

  /** The integer forms of the thresholds are the source's percentage tests. */
  lemma ShareIsPercentage(c: nat, t: nat)
    requires t > 0
    ensures Dominant(c, t) <==> (c as real / t as real) * 100.0 >= 70.0
    ensures Overwhelming(c, t) <==> (c as real / t as real) * 100.0 >= 90.0
  {
    RealShare(c, t, 70);
    RealShare(c, t, 90);
  }

  /** `c / t · 100 >= p` exactly when `100·c >= p·t`. */
  lemma RealShare(c: nat, t: nat, p: nat)
    requires t > 0
    ensures (c as real / t as real) * 100.0 >= p as real <==> 100 * c >= p * t
  {
    var x, tr := c as real / t as real, t as real;
    assert x * tr == c as real;
    assert x * 100.0 >= p as real <==> x * 100.0 * tr >= p as real * tr;
    assert x * 100.0 * tr == (100 * c) as real;
    assert p as real * tr == (p * t) as real;
  }

  /** A reported percentage lies between 70 and 100 and is the share rounded to the
      nearest integer. */
  lemma PercentageBounds(c: nat, t: nat)
    requires t > 0 && c <= t && Dominant(c, t)
    ensures 70 <= Round(100 * c, t) <= 100
    ensures var r := Round(100 * c, t); 200 * c < (2 * r + 1) * t && (2 * r - 1) * t <= 200 * c
  {
    RoundNearest(100 * c, t);
    RoundBetween(100 * c, t, 70, 100);
  }

  /** The alerts of the range are those of its hours, for ERROR and WARN only. */
  lemma ConcentrationsMember(ts: seq<Entry>, first: int, n: nat, a: Anomaly)
    ensures a in Concentrations(ts, first, n) <==> exists h :: first <= h < first + n && a in HourPair(ts, h)
  {
    var xss := HourPushes(ts, first, n);
    ConcatMember(xss, a);
    if a in Concat(xss) {
      var i :| 0 <= i < |xss| && a in xss[i];
      assert a in HourPair(ts, first + i);
    }
    if exists h :: first <= h < first + n && a in HourPair(ts, h) {
      var h :| first <= h < first + n && a in HourPair(ts, h);
      assert a in xss[h - first];
    }
  }
}
