/** The statistics of `exportHeatmapJSON(level, hour)`: the entries of one level in one
    hour, selected by comparing the first two characters of the timestamp with the
    two-digit hour, and what is counted about them. */
module Export {
  import opened Text
  import opened Levels
  import opened Parser
  import opened Aggregate
  import opened Alerts
  import opened Counting
  import opened StringOrder
  import opened StableSort
  import Concentration
  import Burst
  import ParserFacts

  // ---- the hour string ----

  /** The character of a decimal digit. */
  function DigitChar(d: nat): (c: char)
    requires d < 10
    ensures IsDigit(c) && DigitValue(c) == d
  {
    ('0' as int + d) as char
  }

  /** `String(n)` for a natural number: its decimal digits, most significant first. */
  function Decimal(n: nat): (s: string)
    ensures |s| >= 1
    ensures n >= 10 ==> |s| >= 2
    ensures n >= 100 ==> |s| >= 3
    ensures forall i :: 0 <= i < |s| ==> IsDigit(s[i])
  {
    if n < 10 then [DigitChar(n)] else Decimal(n / 10) + [DigitChar(n % 10)]
  }

  /** `String(n).padStart(2, '0')`: at least two characters, all of them digits. */
  function Pad2(n: nat): (r: string)
    ensures |r| >= 2
    ensures forall i :: 0 <= i < |r| ==> IsDigit(r[i])
  {
    var d := Decimal(n);
    if |d| < 2 then ['0'] + d else d
  }

  /** Below 100 the padded hour is two digits that read back as the hour; from 100 on it
      is longer. */
  lemma Pad2Digits(n: nat)
    ensures n < 100 ==> |Pad2(n)| == 2 && IsDigit(Pad2(n)[0]) && IsDigit(Pad2(n)[1])
                        && DigitValue(Pad2(n)[0]) * 10 + DigitValue(Pad2(n)[1]) == n
    ensures n >= 100 ==> |Pad2(n)| >= 3
  {
    if 10 <= n < 100 {
      assert Decimal(n / 10) == [DigitChar(n / 10)];
    }
  }

  /** `s.substring(0, k)`. */
  function Prefix(s: string, k: nat): (p: string)
    ensures |p| <= k && |p| <= |s| && p == s[..|p|]
  {
    if |s| <= k then s else s[..k]
  }

  /** The test `e.timestamp && e.timestamp.substring(0, 2) === hourStr`. */
  predicate InHourStr(e: Entry, hourStr: string) {
    e.timestamp != [] && Prefix(e.timestamp, 2) == hourStr
  }

  /** On a clock timestamp the string comparison is the comparison of the parsed hour. */
  lemma HourStrMatch(ts: string, hour: nat)
    requires IsClock(ts)
    ensures Prefix(ts, 2) == Pad2(hour) <==> HourOf(ts) == hour
  {
    Pad2Digits(hour);
    if hour < 100 && HourOf(ts) == hour {
      var p := Pad2(hour);
      assert DigitValue(p[0]) == DigitValue(ts[0]) && DigitValue(p[1]) == DigitValue(ts[1]);
      assert p == ts[..2];
    }
  }

  /** Every timestamp is a clock or empty, as for the entries of the parser (lemma
      `ParserFacts.ParseEntries`). */
  predicate Stamps(es: seq<Entry>) {
    forall i :: 0 <= i < |es| && es[i].timestamp != [] ==> IsClock(es[i].timestamp)
  }

  /** The parser's entries have such timestamps. */
  lemma ParsedStamps(text: string)
    ensures Stamps(Parse(text))
  {
    ParserFacts.ParseEntries(text);
  }

  // ---- the entries of the hour ----

  /** `hourEntries`: the entries of level `l` whose timestamp starts with `hourStr`. */
  function HourEntries(es: seq<Entry>, l: Level, hour: nat): seq<Entry> {
    Filter(es, (e: Entry) => e.level == l && InHourStr(e, Pad2(hour)))
  }

  /** For the parser's entries the export lists exactly the entries the heatmap cell of
      that hour and level counts. */
  lemma {:induction false} HourEntriesAreCell(es: seq<Entry>, l: Level, hour: nat)
    requires Stamps(es)
    ensures HourEntries(es, l, hour) == HourLevel(Timestamped(es), hour, l)
  {
    if es != [] {
      var init, e := es[..|es| - 1], es[|es| - 1];
      assert Stamps(init) by {
        assert forall i :: 0 <= i < |init| ==> init[i] == es[i];
      }
      HourEntriesAreCell(init, l, hour);
      var ts := Timestamped(init);
      if e.timestamp != [] {
        assert IsClock(e.timestamp) by {
          assert es[|es| - 1] == e;
        }
        HourStrMatch(e.timestamp, hour);
        assert Timestamped(es) == ts + [e];
        assert (ts + [e])[..|ts|] == ts;
        assert HourLevel(ts + [e], hour, l)
               == HourLevel(ts, hour, l) + (if EntryHour(e) == hour && e.level == l then [e] else []);
      } else {
        assert Timestamped(es) == ts;
      }
    }
  }

  // ---- allLevelsInHour ----

  /** `allLevelsInHour`: the per-level counters of the entries of the hour, whatever
      their level. */
  function LevelsInHour(es: seq<Entry>, hourStr: string): Tally {
    if es == [] then Zero
    else
      var t := LevelsInHour(es[..|es| - 1], hourStr);
      var e := es[|es| - 1];
      if InHourStr(e, hourStr) then Inc(t, e.level) else t
  }

  /** The loop `allEntries.forEach` that fills `allLevelsInHour`. Every level of the
      model is one of the four counters, so the `OTHER++` fallback for an unknown level
      never runs. */
  method AllLevelsInHour(allEntries: seq<Entry>, hourStr: string) returns (counts: Tally)
    ensures counts == LevelsInHour(allEntries, hourStr)
  {
    counts := Zero;
    for k := 0 to |allEntries|
      invariant counts == LevelsInHour(allEntries[..k], hourStr)
    {
      assert allEntries[..k + 1][..k] == allEntries[..k];
      var e := allEntries[k];
      if e.timestamp != [] && Prefix(e.timestamp, 2) == hourStr {
        counts := Inc(counts, e.level);
      }
    }
    assert allEntries[..|allEntries|] == allEntries;
  }

  /** The counter of the exported level is the number of exported entries. */
  lemma {:induction false} LevelsInHourCounts(es: seq<Entry>, l: Level, hour: nat)
    ensures Get(LevelsInHour(es, Pad2(hour)), l) == |HourEntries(es, l, hour)|
  {
    if es != [] {
      LevelsInHourCounts(es[..|es| - 1], l, hour);
    }
  }

  /** For the parser's entries the counters are the detectors' tally of that hour. */
  lemma {:induction false} LevelsInHourIsTally(es: seq<Entry>, hour: nat)
    requires Stamps(es)
    ensures LevelsInHour(es, Pad2(hour)) == TallyAt(Timestamped(es), hour)
  {
    if es != [] {
      var init, e := es[..|es| - 1], es[|es| - 1];
      assert Stamps(init) by {
        assert forall i :: 0 <= i < |init| ==> init[i] == es[i];
      }
      LevelsInHourIsTally(init, hour);
      var ts := Timestamped(init);
      if e.timestamp != [] {
        assert IsClock(e.timestamp) by {
          assert es[|es| - 1] == e;
        }
        HourStrMatch(e.timestamp, hour);
        assert Timestamped(es) == ts + [e];
        assert (ts + [e])[..|ts|] == ts;
      } else {
        assert Timestamped(es) == ts;
      }
    }
  }

  // ---- top sources and threads ----

  /** `e.thread`. */
  function ThreadOf(e: Entry): string {
    e.thread
  }

  /** One `{ key, count }` record of the statistics. */
  datatype KeyCount = KeyCount(key: string, count: nat)

  /** `Object.entries(counts)`: the keys in the order they were first added, with their
      counts. */
  function Pairs(keys: seq<string>, counts: map<string, nat>): (ps: seq<KeyCount>)
    requires forall i :: 0 <= i < |keys| ==> keys[i] in counts
    ensures |ps| == |keys| && forall i :: 0 <= i < |keys| ==> ps[i] == KeyCount(keys[i], counts[keys[i]])
  {
    seq(|keys|, i requires 0 <= i < |keys| => KeyCount(keys[i], counts[keys[i]]))
  }

  /** The entries of a count dictionary over `xs`, as specified by the keys and counts. */
  function PairsOf<T>(xs: seq<T>, key: T -> string): (ps: seq<KeyCount>)
    ensures |ps| == |Keys(xs, key)|
  {
    var keys := Keys(xs, key);
    seq(|keys|, i requires 0 <= i < |keys| => KeyCount(keys[i], CountOf(xs, key, keys[i])))
  }

  /** The comparator `(a, b) => b[1] - a[1]`: larger counts first. */
  function ByCountDown(p: KeyCount): Rank {
    Rank(-(p.count as int), 0)
  }

  function Min(a: nat, b: nat): nat {
    if a <= b then a else b
  }

  /** `.sort((a, b) => b[1] - a[1]).slice(0, 10)`. */
  function Top(ps: seq<KeyCount>): seq<KeyCount> {
    var r := SortOn(ps, ByCountDown);
    r[..Min(10, |r|)]
  }

  /** `topSources` / `topThreads` of the entries `xs`. */
  function TopOf<T>(xs: seq<T>, key: T -> string): seq<KeyCount> {
    Top(PairsOf(xs, key))
  }

  /** The sorted entries: as many as the dictionary has, and in non-increasing order of
      count. */
  lemma SortedByCount(ps: seq<KeyCount>)
    ensures var r := SortOn(ps, ByCountDown);
            |r| == |ps| && forall i, j :: 0 <= i < j < |r| ==> r[i].count >= r[j].count
  {
    var r := SortOn(ps, ByCountDown);
    SortOnSorted(ps, ByCountDown);
    assert |multiset(r)| == |multiset(ps)|;
    forall i, j | 0 <= i < j < |r| ensures r[i].count >= r[j].count {
      assert RankLe(ByCountDown(r[i]), ByCountDown(r[j]));
    }
  }

  /** The top list holds the ten largest counts (all of them when there are fewer), in
      non-increasing order of count. */
  lemma TopOrdered(ps: seq<KeyCount>)
    ensures |Top(ps)| == Min(10, |ps|)
    ensures forall i, j :: 0 <= i < j < |Top(ps)| ==> Top(ps)[i].count >= Top(ps)[j].count
  {
    SortedByCount(ps);
  }

  /** Each kept record is an entry of the dictionary, and no entry left out has a larger
      count than one kept. */
  lemma TopKeepsLargest(ps: seq<KeyCount>)
    ensures forall p :: p in Top(ps) ==> p in ps
    ensures forall p, q :: p in ps && p !in Top(ps) && q in Top(ps) ==> p.count <= q.count
  {
    var r := SortOn(ps, ByCountDown);
    var top := Top(ps);
    SortedByCount(ps);
    forall p | p in top ensures p in ps {
      assert p in multiset(r);
    }
    forall p, q | p in ps && p !in top && q in top ensures p.count <= q.count {
      assert p in multiset(r);
      var j :| 0 <= j < |r| && r[j] == p;
      var i :| 0 <= i < |top| && top[i] == q;
      assert j >= |top|;
    }
  }

  /** Equal counts keep the order in which their keys were first met. */
  lemma TopTies(ps: seq<KeyCount>, c: nat)
    ensures WithRank(SortOn(ps, ByCountDown), ByCountDown, Rank(-(c as int), 0)) == WithRank(ps, ByCountDown, Rank(-(c as int), 0))
  {
    SortOnStable(ps, ByCountDown, Rank(-(c as int), 0));
  }

  /** An entry of the dictionary of `xs` is a non-empty key that occurs, with its number of
      occurrences; every such key has exactly one entry. */
  lemma PairsOfMeaning<T>(xs: seq<T>, key: T -> string, k: string)
    ensures (exists i :: 0 <= i < |PairsOf(xs, key)| && PairsOf(xs, key)[i].key == k)
            <==> k != [] && CountOf(xs, key, k) > 0
    ensures forall i :: 0 <= i < |PairsOf(xs, key)| ==>
              PairsOf(xs, key)[i].count == CountOf(xs, key, PairsOf(xs, key)[i].key) > 0
    ensures forall i, j :: 0 <= i < j < |PairsOf(xs, key)| ==> PairsOf(xs, key)[i].key != PairsOf(xs, key)[j].key
  {
    var keys := Keys(xs, key);
    var ps := PairsOf(xs, key);
    KeysMember(xs, key, k);
    KeysDistinct(xs, key);
    forall i | 0 <= i < |ps| ensures ps[i].count == CountOf(xs, key, ps[i].key) > 0 {
      KeysMember(xs, key, keys[i]);
    }
    if k in keys {
      var i :| 0 <= i < |keys| && keys[i] == k;
      assert ps[i].key == k;
    }
  }

  /** `uniqueSources` / `uniqueThreads` never exceed the number of entries. */
  lemma {:induction false} KeysBound<T>(xs: seq<T>, key: T -> string)
    ensures |Keys(xs, key)| <= |xs|
  {
    if xs != [] {
      KeysBound(xs[..|xs| - 1], key);
    }
  }

  // ---- minute distribution ----

  /** Each of the minutes `mins` with its number of entries. */
  function MinuteCounts(xs: seq<Entry>, mins: seq<string>): (ds: seq<KeyCount>)
    ensures |ds| == |mins|
    ensures forall i :: 0 <= i < |ds| ==> ds[i].key == mins[i]
  {
    seq(|mins|, i requires 0 <= i < |mins| => KeyCount(mins[i], CountOf(xs, Burst.MinuteOf, mins[i])))
  }

  /** `minuteDistribution`: the minutes of the entries in increasing order, each with its
      number of entries. Minute keys are distinct, so sorting the dictionary's entries by
      key is sorting its keys. */
  function Distribution(xs: seq<Entry>): seq<KeyCount> {
    MinuteCounts(xs, Sort(Keys(xs, Burst.MinuteOf)))
  }

  /** The distribution lists every minute that has an entry exactly once, in strictly
      increasing order, with its count. */
  lemma DistributionMeaning(xs: seq<Entry>, m: string)
    ensures var ds := Distribution(xs);
            (forall i, j :: 0 <= i < j < |ds| ==> Less(ds[i].key, ds[j].key))
            && (forall i :: 0 <= i < |ds| ==> ds[i].count == CountOf(xs, Burst.MinuteOf, ds[i].key) > 0)
            && ((exists i :: 0 <= i < |ds| && ds[i].key == m) <==> m != [] && CountOf(xs, Burst.MinuteOf, m) > 0)
  {
    var keys := Keys(xs, Burst.MinuteOf);
    KeysDistinct(xs, Burst.MinuteOf);
    SortSorted(keys);
    var mins := Sort(keys);
    forall x ensures x in mins <==> x != [] && CountOf(xs, Burst.MinuteOf, x) > 0 {
      KeysMember(xs, Burst.MinuteOf, x);
    }
    MinuteCountsMeaning(xs, mins, m);
  }

  /** Over strictly increasing minutes that are exactly those with an entry. */
  lemma MinuteCountsMeaning(xs: seq<Entry>, mins: seq<string>, m: string)
    requires StrictlySorted(mins)
    requires forall x :: x in mins <==> x != [] && CountOf(xs, Burst.MinuteOf, x) > 0
    ensures var ds := MinuteCounts(xs, mins);
            (forall i, j :: 0 <= i < j < |ds| ==> Less(ds[i].key, ds[j].key))
            && (forall i :: 0 <= i < |ds| ==> ds[i].count == CountOf(xs, Burst.MinuteOf, ds[i].key) > 0)
            && ((exists i :: 0 <= i < |ds| && ds[i].key == m) <==> m != [] && CountOf(xs, Burst.MinuteOf, m) > 0)
  {
    var ds := MinuteCounts(xs, mins);
    forall i | 0 <= i < |ds| ensures ds[i].count == CountOf(xs, Burst.MinuteOf, ds[i].key) > 0 {
      assert mins[i] in mins;
    }
    if m in mins {
      var i :| 0 <= i < |mins| && mins[i] == m;
      assert ds[i].key == m;
    }
  }

  // ---- the anomalies of the hour ----

  /** `hourAnomalies`: the alerts of the hour that are about the level or about all
      levels. */
  function HourAnomalies(alerts: seq<Anomaly>, l: Level, hour: int): seq<Anomaly> {
    Filter(alerts, (a: Anomaly) => a.hour == hour && (a.scope == Only(l) || a.scope == All))
  }

  /** An alert is exported exactly when it falls in the hour and is about the level or
      is a silence. */
  lemma {:induction false} HourAnomaliesMember(alerts: seq<Anomaly>, l: Level, hour: int, a: Anomaly)
    ensures a in HourAnomalies(alerts, l, hour)
            <==> a in alerts && a.hour == hour && (a.scope == Only(l) || a.scope == All)
  {
    if alerts != [] {
      var init := alerts[..|alerts| - 1];
      HourAnomaliesMember(init, l, hour, a);
      assert alerts == init + [alerts[|alerts| - 1]];
    }
  }

  // ---- the statistics ----

  datatype Statistics = Statistics(totalEntries: nat, uniqueSources: nat, uniqueThreads: nat,
                                   topSources: seq<KeyCount>, topThreads: seq<KeyCount>,
                                   minuteDistribution: seq<KeyCount>, allLevelsInHour: Tally)

  /** What the export file holds besides its metadata. */
  datatype Export = Export(statistics: Statistics, anomalies: seq<Anomaly>, entries: seq<Entry>)

  /** A count dictionary over `xs` and its top list: the number of keys and the ten
      largest entries. */
  method TopCounts<T>(xs: seq<T>, key: T -> string) returns (unique: nat, top: seq<KeyCount>)
    ensures unique == |Keys(xs, key)|
    ensures top == TopOf(xs, key)
  {
    var keys, counts := CountBy(xs, key);
    unique := |keys|;
    top := Top(Pairs(keys, counts));
    assert Pairs(keys, counts) == PairsOf(xs, key);
  }

  /** The minute dictionary and its entries sorted by minute. */
  method MinuteDistribution(xs: seq<Entry>) returns (ds: seq<KeyCount>)
    ensures ds == Distribution(xs)
  {
    var keys, counts := CountBy(xs, Burst.MinuteOf);
    var mins := Sort(keys);
    assert |mins| == |keys| by {
      assert |multiset(mins)| == |multiset(keys)|;
    }
    forall i | 0 <= i < |mins| ensures mins[i] in keys {
      assert mins[i] in multiset(keys);
    }
    ds := Pairs(mins, counts);
  }

  /** The computations of `exportHeatmapJSON` for the heatmap cell of `level` at `hour`. */
  method ExportHour(allEntries: seq<Entry>, alerts: seq<Anomaly>, l: Level, hour: nat) returns (ex: Export)
    ensures ex.entries == HourEntries(allEntries, l, hour)
    ensures ex.statistics.totalEntries == |ex.entries|
    ensures ex.statistics.uniqueSources == |Keys(ex.entries, Concentration.SourceOf)|
    ensures ex.statistics.uniqueThreads == |Keys(ex.entries, ThreadOf)|
    ensures ex.statistics.topSources == TopOf(ex.entries, Concentration.SourceOf)
    ensures ex.statistics.topThreads == TopOf(ex.entries, ThreadOf)
    ensures ex.statistics.minuteDistribution == Distribution(ex.entries)
    ensures ex.statistics.allLevelsInHour == LevelsInHour(allEntries, Pad2(hour))
    ensures ex.anomalies == HourAnomalies(alerts, l, hour)
  {
    var hourStr := Pad2(hour);
    var hourEntries := HourEntries(allEntries, l, hour);
    var uniqueSources, topSources := TopCounts(hourEntries, Concentration.SourceOf);
    var uniqueThreads, topThreads := TopCounts(hourEntries, ThreadOf);
    var minuteDistribution := MinuteDistribution(hourEntries);
    var allLevels := AllLevelsInHour(allEntries, hourStr);
    var hourAnomalies := HourAnomalies(alerts, l, hour);
    ex := Export(Statistics(|hourEntries|, uniqueSources, uniqueThreads, topSources, topThreads,
                            minuteDistribution, allLevels),
                 hourAnomalies, hourEntries);
  }
}
