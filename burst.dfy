/** BURST detection: per level (ERROR, then WARN), a minute whose number of entries is
    more than 5 and at least 5 times the average of its neighbours, the up to two
    minutes on each side in the sorted list of the minutes that have entries of the
    level. With `s` the sum and `m` the number of the neighbours' counts, the average is
    `s / m` and the ratio `count / (s / m) >= k` is compared exactly as
    `count·m >= k·s`. */
module Burst {
  import opened Text
  import opened Levels
  import opened Parser
  import opened Aggregate
  import opened Alerts
  import opened Counting
  import opened StringOrder
  import opened Gather

  /** `e.timestamp.substring(0, 5)`: the `HH:mm` key of the entry's minute. */
  function MinuteOf(e: Entry): string {
    if |e.timestamp| >= 5 then e.timestamp[..5] else e.timestamp
  }

  /** `entries.filter(e => e.level === level)`. */
  function OfLevel(ts: seq<Entry>, l: Level): seq<Entry> {
    Filter(ts, (e: Entry) => e.level == l)
  }

  /** `[...minuteCounts.keys()].sort()`: the minutes with entries of level `l`. */
  function Minutes(ts: seq<Entry>, l: Level): seq<string> {
    Sort(Keys(OfLevel(ts, l), MinuteOf))
  }

  /** The number of entries of each minute of `mins`. */
  function MinuteCounts(es: seq<Entry>, mins: seq<string>): (cs: seq<nat>)
    ensures |cs| == |mins| && forall i :: 0 <= i < |mins| ==> cs[i] == CountOf(es, MinuteOf, mins[i])
  {
    seq(|mins|, i requires 0 <= i < |mins| => CountOf(es, MinuteOf, mins[i]))
  }

  /** `Math.max(0, i - 2)` and `Math.min(n - 1, i + 2)`: the bounds of the window. */
  function Lo(i: nat): nat {
    if i >= 2 then i - 2 else 0
  }

  function Hi(n: nat, i: nat): nat
    requires i < n
  {
    if i + 2 <= n - 1 then i + 2 else n - 1
  }

  /** The counts of the neighbours of position `i`: the positions of the window except `i`. */
  function Window(cs: seq<nat>, i: nat): seq<nat>
    requires i < |cs|
  {
    cs[Lo(i)..i] + cs[i + 1..Hi(|cs|, i) + 1]
  }

  /** `parseInt(min.substring(0, 2), 10)`. Every minute key of a timestamped entry starts
      with two digits (lemma `BurstHourOfClock`); the value -1 for other keys is never
      reached. */
  function BurstHour(k: string): int {
    if |k| >= 2 && IsDigit(k[0]) && IsDigit(k[1]) then HourOfMinute(k) else -1
  }

  /** The BURST test: `count > 5`, `neighborAvg > 0` and `count / neighborAvg >= 5`. */
  predicate Bursting(c: nat, s: nat, m: nat) {
    c > 5 && s > 0 && c * m >= 5 * s
  }

  /** `count / neighborAvg >= 10`: the burst is critical. */
  predicate Severe(c: nat, s: nat, m: nat) {
    c * m >= 10 * s
  }

  function BurstAlert(mins: seq<string>, cs: seq<nat>, l: Level, i: nat): Anomaly
    requires |mins| == |cs| && i < |cs|
  {
    var ns := Window(cs, i);
    Anomaly(Burst(mins[i], cs[i], Sum(ns), |ns|),
            if Severe(cs[i], Sum(ns), |ns|) then Critical else Warning, Only(l), BurstHour(mins[i]))
  }

  /** The push of `sortedMins.forEach` at position `i`. */
  function BurstAt(mins: seq<string>, cs: seq<nat>, l: Level, i: nat): (r: seq<Anomaly>)
    requires |mins| == |cs| && i < |cs|
    ensures |r| <= 1
  {
    var ns := Window(cs, i);
    if Bursting(cs[i], Sum(ns), |ns|) then [BurstAlert(mins, cs, l, i)] else []
  }

  function PerMinute(mins: seq<string>, cs: seq<nat>, l: Level): (r: seq<seq<Anomaly>>)
    requires |mins| == |cs|
    ensures |r| == |cs| && forall i :: 0 <= i < |cs| ==> r[i] == BurstAt(mins, cs, l, i)
  {
    seq(|cs|, i requires 0 <= i < |cs| => BurstAt(mins, cs, l, i))
  }

  /** The BURST alerts of level `l` over the timestamped entries `ts`: none when fewer
      than 3 minutes have entries of the level. */
  function Bursts(ts: seq<Entry>, l: Level): seq<Anomaly> {
    var es := OfLevel(ts, l);
    var mins := Minutes(ts, l);
    if |mins| < 3 then [] else Concat(PerMinute(mins, MinuteCounts(es, mins), l))
  }

  /** One pass of `['ERROR', 'WARN'].forEach`: the minute counting loop, the sort and
      the loop over the sorted minutes. */
  method DetectBursts(ts: seq<Entry>, l: Level) returns (alerts: seq<Anomaly>)
    ensures alerts == Bursts(ts, l)
  {
    alerts := [];
    var es := OfLevel(ts, l);
    var keys, counts := CountBy(es, MinuteOf);
    var mins := Sort(keys);
    if |mins| < 3 {
      return;
    }
    ghost var cs := MinuteCounts(es, mins);
    KeysDistinct(es, MinuteOf);
    SortSorted(keys);
    assert forall j :: 0 <= j < |mins| ==> mins[j] in counts && counts[mins[j]] == cs[j] by {
      forall j | 0 <= j < |mins| ensures mins[j] in counts && counts[mins[j]] == cs[j] {
        assert mins[j] in mins;
      }
    }
    ghost var pushes := PerMinute(mins, cs, l);
    for i := 0 to |mins|
      invariant alerts == Concat(pushes[..i])
    {
      var pushed := VisitMinute(mins, counts, cs, l, i, pushes);
      ConcatPush(pushes, i, alerts, pushed);
      alerts := alerts + pushed;
    }
    assert pushes[..|mins|] == pushes;
  }

  /** The callback of `sortedMins.forEach` at position `i`. */
  method VisitMinute(mins: seq<string>, counts: map<string, nat>, ghost cs: seq<nat>, l: Level, i: nat,
                     ghost pushes: seq<seq<Anomaly>>) returns (pushed: seq<Anomaly>)
    requires |mins| == |cs| && i < |cs|
    requires forall j :: 0 <= j < |mins| ==> mins[j] in counts && counts[mins[j]] == cs[j]
    requires pushes == PerMinute(mins, cs, l)
    ensures pushed == pushes[i]
  {
    pushed := [];
    var count := counts[mins[i]];
    var neighbours := Neighbours(mins, counts, cs, i);
    var s := Sum(neighbours);
    if Bursting(count, s, |neighbours|) {
      pushed := [Anomaly(Burst(mins[i], count, s, |neighbours|),
                         if Severe(count, s, |neighbours|) then Critical else Warning,
                         Only(l), BurstHour(mins[i]))];
    }
  }

  /** The `for (let j = ...)` loop that collects the counts of the neighbours. */
  method Neighbours(mins: seq<string>, counts: map<string, nat>, ghost cs: seq<nat>, i: nat)
      returns (ns: seq<nat>)
    requires |mins| == |cs| && i < |cs|
    requires forall j :: 0 <= j < |mins| ==> mins[j] in counts && counts[mins[j]] == cs[j]
    ensures ns == Window(cs, i)
  {
    var lo := if i >= 2 then i - 2 else 0;
    var hi := if i + 2 <= |mins| - 1 then i + 2 else |mins| - 1;
    ns := [];
    for j := lo to hi + 1
      invariant ns == Collected(cs, lo, i, j)
    {
      CollectedStep(cs, lo, i, j);
      if j != i {
        ns := ns + [counts[mins[j]]];
      }
    }
  }

  /** The counts the neighbour loop has collected before index `j`: those of `lo .. j - 1`
      without `i`. */
  ghost function Collected(cs: seq<nat>, lo: nat, i: nat, j: nat): seq<nat>
    requires lo <= i < |cs| && lo <= j <= |cs|
  {
    if j <= i then cs[lo..j] else cs[lo..i] + cs[i + 1..j]
  }

  lemma CollectedStep(cs: seq<nat>, lo: nat, i: nat, j: nat)
    requires lo <= i < |cs| && lo <= j < |cs|
    ensures Collected(cs, lo, i, j + 1) == Collected(cs, lo, i, j) + (if j == i then [] else [cs[j]])
  {
    if j < i {
      assert cs[lo..j + 1] == cs[lo..j] + [cs[j]];
    } else if j > i {
      assert cs[i + 1..j + 1] == cs[i + 1..j] + [cs[j]];
    }
  }

  /** A window among at least 3 minutes has 2 to 4 neighbours, so their average is
      defined. */
  lemma WindowSize(cs: seq<nat>, i: nat)
    requires |cs| >= 3 && i < |cs|
    ensures 2 <= |Window(cs, i)| <= 4
  {
  }

  /** The integer forms of the tests are the source's tests on the average
      `neighborAvg = s / m` of `m > 0` neighbours. */
  lemma RatioIsAverage(c: nat, s: nat, m: nat, k: nat)
    requires m > 0
    ensures var avg := s as real / m as real;
            (avg > 0.0 <==> s > 0)
            && (s > 0 ==> (c as real / avg >= k as real <==> c * m >= k * s))
  {
    var avg := s as real / m as real;
    assert avg * m as real == s as real;
    if s > 0 {
      RatioScale(c as real, avg, m as real, k as real);
      assert k as real * (s as real) == (k * s) as real;
      assert c as real * m as real == (c * m) as real;
    }
  }

  lemma RatioScale(c: real, avg: real, m: real, k: real)
    requires avg > 0.0 && m > 0.0
    ensures c / avg >= k <==> c * m >= k * (avg * m)
  {
    assert c / avg * avg == c;
  }

  /** The hour of a burst is the hour of the entries of its minute. */
  lemma BurstHourOfClock(e: Entry)
    requires IsClock(e.timestamp)
    ensures BurstHour(MinuteOf(e)) == EntryHour(e)
  {
    MinuteHour(e.timestamp);
  }

  /** Every pushed alert is the alert of a minute that passes the test, with 2 to 4
      neighbours. */
  lemma PerMinuteSound(mins: seq<string>, cs: seq<nat>, l: Level)
    requires |mins| == |cs| >= 3
    ensures forall a :: a in Concat(PerMinute(mins, cs, l)) ==>
              exists i :: 0 <= i < |cs| && a == BurstAlert(mins, cs, l, i)
                          && Bursting(cs[i], a.kind.neighbourSum, a.kind.neighbourCount)
                          && 2 <= a.kind.neighbourCount <= 4
  {
    var xss := PerMinute(mins, cs, l);
    forall a: Anomaly | a in Concat(xss)
      ensures exists i :: 0 <= i < |cs| && a == BurstAlert(mins, cs, l, i)
                          && Bursting(cs[i], a.kind.neighbourSum, a.kind.neighbourCount)
                          && 2 <= a.kind.neighbourCount <= 4
    {
      ConcatMember(xss, a);
      var i :| 0 <= i < |xss| && a in xss[i];
      assert a in BurstAt(mins, cs, l, i);
      WindowSize(cs, i);
    }
  }

  /** Every burst is about a minute with entries of the level, more than five of them,
      at least five times the average of its 2 to 4 neighbours; it is critical exactly at
      ten times, and sits at the minute's hour. */
  lemma BurstsSound(ts: seq<Entry>, l: Level)
    ensures var es := OfLevel(ts, l);
            var mins := Minutes(ts, l);
            var cs := MinuteCounts(es, mins);
            forall a :: a in Bursts(ts, l) ==>
              |mins| >= 3
              && (exists i :: 0 <= i < |mins| && a == BurstAlert(mins, cs, l, i)
                              && Bursting(cs[i], a.kind.neighbourSum, a.kind.neighbourCount)
                              && 2 <= a.kind.neighbourCount <= 4)
  {
    var es := OfLevel(ts, l);
    var mins := Minutes(ts, l);
    if |mins| >= 3 {
      PerMinuteSound(mins, MinuteCounts(es, mins), l);
    }
  }

  /** Every minute that passes the test among at least 3 minutes has its burst. */
  lemma BurstsComplete(ts: seq<Entry>, l: Level, i: nat)
    requires var es := OfLevel(ts, l);
             var mins := Minutes(ts, l);
             var cs := MinuteCounts(es, mins);
             |mins| >= 3 && i < |mins| && Bursting(cs[i], Sum(Window(cs, i)), |Window(cs, i)|)
    ensures var es := OfLevel(ts, l);
            var mins := Minutes(ts, l);
            BurstAlert(mins, MinuteCounts(es, mins), l, i) in Bursts(ts, l)
  {
    var es := OfLevel(ts, l);
    var mins := Minutes(ts, l);
    var cs := MinuteCounts(es, mins);
    var xss := PerMinute(mins, cs, l);
    assert BurstAlert(mins, cs, l, i) in xss[i];
    ConcatMember(xss, BurstAlert(mins, cs, l, i));
  }

  /** Fewer than 3 minutes with entries of the level give no burst. */
  lemma FewMinutesNoBurst(ts: seq<Entry>, l: Level)
    requires |Keys(OfLevel(ts, l), MinuteOf)| < 3
    ensures Bursts(ts, l) == []
  {
    KeysDistinct(OfLevel(ts, l), MinuteOf);
    SortSorted(Keys(OfLevel(ts, l), MinuteOf));
  }

  /** The minutes examined are exactly the minutes of the entries of the level, each
      once, in increasing order. */
  lemma MinutesExactly(ts: seq<Entry>, l: Level)
    ensures var mins := Minutes(ts, l);
            StrictlySorted(mins)
            && forall k :: k in mins <==> k != [] && CountOf(OfLevel(ts, l), MinuteOf, k) > 0
  {
    var es := OfLevel(ts, l);
    KeysDistinct(es, MinuteOf);
    SortSorted(Keys(es, MinuteOf));
    forall k ensures k in Keys(es, MinuteOf) <==> k != [] && CountOf(es, MinuteOf, k) > 0 {
      KeysMember(es, MinuteOf, k);
    }
  }
}
