/** `detectAnomalies`: the hour range of the timestamped entries, the dense per-hour
    tallies, the four detectors in their order, and the final sort (critical first,
    then by hour, stable). */
module Anomalies {
  import opened Levels
  import opened Parser
  import opened Aggregate
  import opened Alerts
  import opened StableSort
  import SpikeDetector = Spike
  import ConcentrationDetector = Concentration
  import BurstDetector = Burst
  import SilenceDetector = Silence

  /** The tallies of the `n` hours from `first`. */
  function Tallies(ts: seq<Entry>, first: int, n: nat): (counts: seq<Tally>)
    ensures |counts| == n && forall i :: 0 <= i < n ==> counts[i] == TallyAt(ts, first + i)
  {
    seq(n, i => TallyAt(ts, first + i))
  }

  /** Whether the analysis stops before any detector runs: no timestamped entry, or
      fewer than 2 hours from the first timestamped entry's hour to the last one's. */
  predicate EarlyExit(es: seq<Entry>) {
    var ts := Timestamped(es);
    ts == [] || HourSpan(ts) < 2
  }

  /** The alerts of the four detectors over the `n` hours from `first`, in detection
      order: SPIKE for ERROR, WARN and INFO, then CONCENTRATION, BURST for ERROR and
      WARN, and SILENCE. */
  function Detectors(ts: seq<Entry>, first: int, n: nat): seq<Anomaly> {
    var counts := Tallies(ts, first, n);
    SpikeDetector.Spikes(counts, first, ERROR) + SpikeDetector.Spikes(counts, first, WARN)
    + SpikeDetector.Spikes(counts, first, INFO)
    + ConcentrationDetector.Concentrations(ts, first, n)
    + BurstDetector.Bursts(ts, ERROR) + BurstDetector.Bursts(ts, WARN)
    + SilenceDetector.Silences(counts, first)
  }

  /** The alerts before the sort. */
  function Detected(es: seq<Entry>): seq<Anomaly> {
    if EarlyExit(es) then []
    else
      var ts := Timestamped(es);
      Detectors(ts, FirstHour(ts), HourSpan(ts) as nat)
  }

  /** What `detectAnomalies` returns. */
  function Anomalies(es: seq<Entry>): seq<Anomaly> {
    SortOn(Detected(es), AlertRank)
  }

  /** `for (let h = firstHour; h <= lastHour; h++) hours.push(h)`. */
  method HourRange(first: int, last: int) returns (hours: seq<int>)
    ensures |hours| == (if last < first then 0 else last - first + 1)
    ensures forall i :: 0 <= i < |hours| ==> hours[i] == first + i
  {
    hours := [];
    var h := first;
    while h <= last
      invariant first <= h <= (if last < first then first else last + 1)
      invariant |hours| == h - first
      invariant forall i :: 0 <= i < |hours| ==> hours[i] == first + i
      decreases last - h
    {
      hours := hours + [h];
      h := h + 1;
    }
  }

  method DetectAnomalies(allEntries: seq<Entry>) returns (alerts: seq<Anomaly>)
    ensures alerts == Anomalies(allEntries)
  {
    alerts := [];
    var entries := Timestamped(allEntries);
    if |entries| == 0 {
      EarlyExitEmpty(allEntries);
      return;
    }
    var firstHour := EntryHour(entries[0]);
    var lastHour := EntryHour(entries[|entries| - 1]);
    var hours := HourRange(firstHour, lastHour);
    if |hours| < 2 {
      EarlyExitEmpty(allEntries);
      return;
    }
    var detected := RunDetectors(allEntries, entries, firstHour, |hours|);
    alerts := SortOn(detected, AlertRank);
  }

  /** The part of `detectAnomalies` after the early exits: the tallies and the detectors. */
  method RunDetectors(ghost allEntries: seq<Entry>, entries: seq<Entry>, firstHour: int, n: nat)
      returns (alerts: seq<Anomaly>)
    requires entries == Timestamped(allEntries) && !EarlyExit(allEntries)
    requires firstHour == FirstHour(entries) && n == HourSpan(entries)
    ensures alerts == Detected(allEntries)
  {
    var counts := HourlyCounts(entries, firstHour, n);
    assert counts == Tallies(entries, firstHour, n);
    var errorSpikes := SpikeDetector.DetectSpikes(counts, firstHour, ERROR);
    var warnSpikes := SpikeDetector.DetectSpikes(counts, firstHour, WARN);
    var infoSpikes := SpikeDetector.DetectSpikes(counts, firstHour, INFO);
    var concentrations := ConcentrationDetector.DetectConcentrations(entries, firstHour, n);
    var errorBursts := BurstDetector.DetectBursts(entries, ERROR);
    var warnBursts := BurstDetector.DetectBursts(entries, WARN);
    var silences := SilenceDetector.DetectSilences(counts, firstHour);
    alerts := errorSpikes + warnSpikes + infoSpikes + concentrations + errorBursts + warnBursts + silences;
  }

  /** No timestamped entry, or fewer than 2 hours in the range, gives no alert. */
  lemma EarlyExitEmpty(es: seq<Entry>)
    requires EarlyExit(es)
    ensures Anomalies(es) == []
  {
  }

  /** The result holds exactly the detected alerts, each as often as it was detected. */
  lemma AnomaliesPermutation(es: seq<Entry>)
    ensures multiset(Anomalies(es)) == multiset(Detected(es))
    ensures forall a :: a in Anomalies(es) <==> a in Detected(es)
  {
    assert forall a :: a in Anomalies(es) <==> a in multiset(Anomalies(es));
    assert forall a :: a in Detected(es) <==> a in multiset(Detected(es));
  }

  /** Every critical alert comes before every warning, and alerts of the same severity
      come by non-decreasing hour. */
  lemma AnomaliesOrdered(es: seq<Entry>)
    ensures var r := Anomalies(es);
            forall i, j :: 0 <= i < j < |r| ==>
              (r[j].severity == Critical ==> r[i].severity == Critical)
              && (r[i].severity == r[j].severity ==> r[i].hour <= r[j].hour)
  {
    SortOnSorted(Detected(es), AlertRank);
    var r := Anomalies(es);
    forall i, j | 0 <= i < j < |r|
      ensures (r[j].severity == Critical ==> r[i].severity == Critical)
              && (r[i].severity == r[j].severity ==> r[i].hour <= r[j].hour)
    {
      assert RankLe(AlertRank(r[i]), AlertRank(r[j]));
    }
  }

  /** The sort is stable: alerts of the same severity and hour keep their detection order. */
  lemma AnomaliesStable(es: seq<Entry>, severity: Severity, hour: int)
    ensures var k := Rank(if severity == Critical then 0 else 1, hour);
            WithRank(Anomalies(es), AlertRank, k) == WithRank(Detected(es), AlertRank, k)
  {
    SortOnStable(Detected(es), AlertRank, Rank(if severity == Critical then 0 else 1, hour));
  }

  /** The alerts of the same severity and hour are the alerts with that sort key. */
  lemma AlertRankMeaning(a: Anomaly, severity: Severity, hour: int)
    ensures AlertRank(a) == Rank(if severity == Critical then 0 else 1, hour)
            <==> a.severity == severity && a.hour == hour
  {
  }
}
