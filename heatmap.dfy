/** The GitHub-style heatmaps: for one level, a cell per hour of the range with the
    hour's number of entries of that level, an intensity 0..4 relative to the busiest
    hour, and a pulse mark when an alert about that level falls in the hour. */
module Heatmap {
  import opened Levels
  import opened Parser
  import opened Aggregate
  import opened Alerts
  import Anomalies

  // ---- intensity ----

  /** `heatLevel(count)` against `maxCount`: 0 for no entry, then 1, 2, 3 up to a
      quarter, a half and three quarters of `maxCount`, and 4 above. The factors 0.25,
      0.5 and 0.75 are exact binary fractions, so the float tests are these integer
      ones (lemma `HeatLevelIsFloatTest`). */
  function HeatLevel(count: nat, maxCount: nat): (lvl: nat)
    ensures lvl <= 4 && (lvl == 0 <==> count == 0)
  {
    if count == 0 then 0
    else if 4 * count <= maxCount then 1
    else if 2 * count <= maxCount then 2
    else if 4 * count <= 3 * maxCount then 3
    else 4
  }

  /** The integer tests are the source's comparisons with `maxCount * 0.25`, `* 0.50`
      and `* 0.75`. */
  lemma HeatLevelIsFloatTest(count: nat, maxCount: nat)
    ensures var c, m := count as real, maxCount as real;
            HeatLevel(count, maxCount)
            == if count == 0 then 0
               else if c <= m * 0.25 then 1
               else if c <= m * 0.50 then 2
               else if c <= m * 0.75 then 3
               else 4
  {
    var c, m := count as real, maxCount as real;
    assert c <= m * 0.25 <==> 4 * count <= maxCount;
    assert c <= m * 0.50 <==> 2 * count <= maxCount;
    assert c <= m * 0.75 <==> 4 * count <= 3 * maxCount;
  }

  /** More entries never give a lighter cell. */
  lemma HeatLevelMonotone(a: nat, b: nat, maxCount: nat)
    requires a <= b
    ensures HeatLevel(a, maxCount) <= HeatLevel(b, maxCount)
  {
  }

  /** The busiest hours get the darkest cell. */
  lemma HeatLevelTop(count: nat, maxCount: nat)
    requires maxCount >= 1 && count >= maxCount
    ensures HeatLevel(count, maxCount) == 4
  {
  }

  /** `Math.max(...counts, 1)`: the largest count, and at least 1. */
  function MaxCount(cs: seq<nat>): (m: nat)
    ensures m >= 1
    ensures forall i :: 0 <= i < |cs| ==> cs[i] <= m
    ensures m == 1 || exists i :: 0 <= i < |cs| && cs[i] == m
  {
    if cs == [] then 1
    else
      var m := MaxCount(cs[..|cs| - 1]);
      var c := cs[|cs| - 1];
      assert forall i :: 0 <= i < |cs| - 1 ==> cs[i] == cs[..|cs| - 1][i];
      if c > m then c else m
  }

  // ---- the counting loop ----

  /** `counts.get(h) || 0`. */
  function CountAt(counts: map<int, nat>, h: int): nat {
    if h in counts then counts[h] else 0
  }

  /** The loop `entries.forEach(e => { if (e.level === level) counts.set(hour, ...) })`
      over the timestamped entries: afterwards every hour maps to its number of entries
      of the level, and only hours with some entry are keys. */
  method LevelCounts(ts: seq<Entry>, l: Level) returns (counts: map<int, nat>)
    ensures forall h :: CountAt(counts, h) == |HourLevel(ts, h, l)|
    ensures forall h :: h in counts ==> counts[h] > 0
  {
    counts := map[];
    for k := 0 to |ts|
      invariant forall h :: CountAt(counts, h) == Get(TallyAt(ts[..k], h), l)
      invariant forall h :: h in counts ==> counts[h] > 0
    {
      assert ts[..k + 1][..k] == ts[..k];
      var e := ts[k];
      if e.level == l {
        var hour := EntryHour(e);
        counts := counts[hour := CountAt(counts, hour) + 1];
      }
    }
    assert ts[..|ts|] == ts;
    forall h ensures CountAt(counts, h) == |HourLevel(ts, h, l)| {
      TallyCountsLevel(ts, h, l);
    }
  }

  // ---- the cells ----

  /** One cell: its hour, its count, its intensity and whether it pulses. */
  datatype Cell = Cell(hour: int, count: nat, level: nat, pulse: bool)

  /** A heatmap is hidden when there is no timestamped entry or the hour range is
      empty, and otherwise shows one cell per hour. */
  datatype Heatmap = Hidden | Shown(cells: seq<Cell>)

  /** The counts of level `l` in the `n` hours from `first`. */
  function HourCounts(ts: seq<Entry>, l: Level, first: int, n: nat): (cs: seq<nat>)
    ensures |cs| == n && forall i :: 0 <= i < n ==> cs[i] == |HourLevel(ts, first + i, l)|
  {
    seq(n, i => |HourLevel(ts, first + i, l)|)
  }

  /** The cells of the `n` hours from `first`, in hour order. */
  function Cells(ts: seq<Entry>, l: Level, first: int, n: nat, pulse: set<int>): (cells: seq<Cell>)
    ensures |cells| == n
  {
    var cs := HourCounts(ts, l, first, n);
    seq(n, i requires 0 <= i < n => CellAt(cs, MaxCount(cs), first, pulse, i))
  }

  /** The cell of the `i`-th hour of the range from `first`, given the counts `cs` and
      the largest count `m`. */
  function CellAt(cs: seq<nat>, m: nat, first: int, pulse: set<int>, i: nat): Cell
    requires i < |cs|
  {
    Cell(first + i, cs[i], HeatLevel(cs[i], m), first + i in pulse)
  }

  /** The heatmap of level `l` over the entries `es`, with the hours `pulse` marked. */
  function Heat(es: seq<Entry>, l: Level, pulse: set<int>): Heatmap {
    var ts := Timestamped(es);
    if ts == [] || HourSpan(ts) <= 0 then Hidden
    else Shown(Cells(ts, l, FirstHour(ts), HourSpan(ts) as nat, pulse))
  }

  /** The counting part of `renderHeatmap`. */
  method RenderHeatmap(allEntries: seq<Entry>, l: Level, anomalyHours: set<int>) returns (heatmap: Heatmap)
    ensures heatmap == Heat(allEntries, l, anomalyHours)
  {
    var entries := Timestamped(allEntries);
    if |entries| == 0 {
      return Hidden;
    }
    var firstHour := EntryHour(entries[0]);
    var lastHour := EntryHour(entries[|entries| - 1]);
    var counts := LevelCounts(entries, l);
    var hours := Anomalies.HourRange(firstHour, lastHour);
    if |hours| == 0 {
      return Hidden;
    }
    var cells := RenderCells(allEntries, entries, l, hours, counts, anomalyHours);
    heatmap := Shown(cells);
  }

  /** `maxCount` and the loop `hours.forEach` that makes the cells. */
  method RenderCells(ghost allEntries: seq<Entry>, entries: seq<Entry>, l: Level, hours: seq<int>,
                     counts: map<int, nat>, anomalyHours: set<int>) returns (cells: seq<Cell>)
    requires entries == Timestamped(allEntries) && entries != [] && 0 < |hours| == HourSpan(entries)
    requires forall i :: 0 <= i < |hours| ==> hours[i] == FirstHour(entries) + i
    requires forall h :: CountAt(counts, h) == |HourLevel(entries, h, l)|
    ensures Shown(cells) == Heat(allEntries, l, anomalyHours)
  {
    var n := |hours|;
    ghost var first := FirstHour(entries);
    var cs := seq(n, i requires 0 <= i < n => CountAt(counts, hours[i]));
    assert cs == HourCounts(entries, l, first, n);
    var maxCount := MaxCount(cs);
    cells := BuildCells(hours, counts, maxCount, anomalyHours, cs, first);
    ghost var spec := Cells(entries, l, first, n, anomalyHours);
    assert forall j :: 0 <= j < n ==> spec[j] == cells[j];
    assert cells == spec;
  }

  /** The loop `hours.forEach` that makes one cell per hour, given `maxCount`. */
  method BuildCells(hours: seq<int>, counts: map<int, nat>, maxCount: nat, anomalyHours: set<int>,
                    ghost cs: seq<nat>, ghost first: int) returns (cells: seq<Cell>)
    requires |cs| == |hours|
    requires forall i :: 0 <= i < |hours| ==> hours[i] == first + i && cs[i] == CountAt(counts, hours[i])
    ensures |cells| == |hours|
    ensures forall j :: 0 <= j < |hours| ==> cells[j] == CellAt(cs, maxCount, first, anomalyHours, j)
  {
    cells := [];
    for i := 0 to |hours|
      invariant |cells| == i
      invariant forall j :: 0 <= j < i ==> cells[j] == CellAt(cs, maxCount, first, anomalyHours, j)
    {
      var hour := hours[i];
      var count := CountAt(counts, hour);
      var cell := Cell(hour, count, HeatLevel(count, maxCount), hour in anomalyHours);
      assert cell == CellAt(cs, maxCount, first, anomalyHours, i);
      cells := cells + [cell];
    }
  }

  /** The heatmap is shown exactly when there is a timestamped entry and the hour range
      is not empty, with one cell per hour. */
  lemma HeatShown(es: seq<Entry>, l: Level, pulse: set<int>)
    ensures var ts := Timestamped(es);
            Heat(es, l, pulse).Shown? <==> ts != [] && HourSpan(ts) >= 1
    ensures var ts := Timestamped(es);
            Heat(es, l, pulse).Shown? ==> |Heat(es, l, pulse).cells| == HourSpan(ts)
  {
  }

  /** Cell `i` is about hour `first + i`, counts the entries of that hour and level (the
      counter of the detectors' tally for that hour), and pulses exactly when its hour
      is marked. */
  lemma CellFacts(ts: seq<Entry>, l: Level, first: int, n: nat, pulse: set<int>, i: nat)
    requires i < n
    ensures var c := Cells(ts, l, first, n, pulse)[i];
            c.hour == first + i && c.count == Get(TallyAt(ts, first + i), l)
            && (c.pulse <==> first + i in pulse)
  {
    TallyCountsLevel(ts, first + i, l);
  }

  /** Across the cells, a larger count never has a lighter intensity, and a count equal
      to the largest one has the darkest. */
  lemma CellsOrdered(ts: seq<Entry>, l: Level, first: int, n: nat, pulse: set<int>, i: nat, j: nat)
    requires i < n && j < n
    ensures var cells := Cells(ts, l, first, n, pulse);
            (cells[i].count <= cells[j].count ==> cells[i].level <= cells[j].level)
            && (cells[i].count == MaxCount(HourCounts(ts, l, first, n)) ==> cells[i].level == 4)
  {
    var cs := HourCounts(ts, l, first, n);
    var m := MaxCount(cs);
    var cells := Cells(ts, l, first, n, pulse);
    if cells[i].count <= cells[j].count {
      HeatLevelMonotone(cs[i], cs[j], m);
    }
  }

  /** When some hour has an entry of the level, some cell has the darkest intensity. */
  lemma CellsHaveTop(ts: seq<Entry>, l: Level, first: int, n: nat, pulse: set<int>, i: nat)
    requires i < n && Cells(ts, l, first, n, pulse)[i].count > 0
    ensures exists j :: 0 <= j < n && Cells(ts, l, first, n, pulse)[j].level == 4
  {
    var cs := HourCounts(ts, l, first, n);
    var m := MaxCount(cs);
    var cells := Cells(ts, l, first, n, pulse);
    if m == 1 {
      assert cells[i].level == 4;
    } else {
      var j :| 0 <= j < n && cs[j] == m;
      assert cells[j].level == 4;
    }
  }

  // ---- the pulse marks ----

  /** `anomalyHoursByLevel`: for every `level` field that occurs among the alerts, the
      set of their hours. A silence's field is `'ALL'`, which is no heatmap's level. */
  function HoursByLevel(alerts: seq<Anomaly>): map<Scope, set<int>> {
    if alerts == [] then map[]
    else
      var m := HoursByLevel(alerts[..|alerts| - 1]);
      var a := alerts[|alerts| - 1];
      m[a.scope := (if a.scope in m then m[a.scope] else {}) + {a.hour}]
  }

  /** The loop `detectedAnomalies.forEach` that fills `anomalyHoursByLevel`. Every alert
      of the model has an hour, so the `a.hour !== undefined` test always passes. */
  method AnomalyHoursByLevel(alerts: seq<Anomaly>) returns (byLevel: map<Scope, set<int>>)
    ensures byLevel == HoursByLevel(alerts)
  {
    byLevel := map[];
    for i := 0 to |alerts|
      invariant byLevel == HoursByLevel(alerts[..i])
    {
      assert alerts[..i + 1][..i] == alerts[..i];
      var a := alerts[i];
      if a.scope !in byLevel {
        byLevel := byLevel[a.scope := {}];
      }
      byLevel := byLevel[a.scope := byLevel[a.scope] + {a.hour}];
    }
    assert alerts[..|alerts|] == alerts;
  }

  /** A level field is a key exactly when an alert carries it, and an hour is in its
      set exactly when an alert with that field falls in the hour. */
  lemma {:induction false} HoursByLevelMember(alerts: seq<Anomaly>, s: Scope, h: int)
    ensures s in HoursByLevel(alerts) <==> exists i :: 0 <= i < |alerts| && alerts[i].scope == s
    ensures s in HoursByLevel(alerts) ==>
              (h in HoursByLevel(alerts)[s] <==> exists i :: 0 <= i < |alerts| && alerts[i].scope == s && alerts[i].hour == h)
  {
    if alerts != [] {
      var init := alerts[..|alerts| - 1];
      HoursByLevelMember(init, s, h);
      assert forall i :: 0 <= i < |init| ==> init[i] == alerts[i];
    }
  }

  /** `anomalyPulseEnabled[level] ? (anomalyHoursByLevel[level] || new Set()) : new Set()`. */
  function PulseHours(byLevel: map<Scope, set<int>>, enabled: bool, l: Level): set<int> {
    if enabled && Only(l) in byLevel then byLevel[Only(l)] else {}
  }

  /** An hour pulses on the heatmap of `l` exactly when pulses are switched on for `l`
      and an alert about `l` itself falls in that hour; silences never pulse. */
  lemma PulseMeaning(alerts: seq<Anomaly>, enabled: bool, l: Level, h: int)
    ensures h in PulseHours(HoursByLevel(alerts), enabled, l)
            <==> enabled && exists i :: 0 <= i < |alerts| && alerts[i].scope == Only(l) && alerts[i].hour == h
  {
    HoursByLevelMember(alerts, Only(l), h);
  }

  /** `HEATMAP_CONFIGS`: the heatmaps of ERROR, INFO and WARN, in that order. */
  const Configs: seq<Level> := [ERROR, INFO, WARN]

  /** `renderAllHeatmaps`: the marks per level, then one heatmap per configuration,
      with the pulse switch of each level given by `pulseEnabled`. */
  method RenderAllHeatmaps(allEntries: seq<Entry>, alerts: seq<Anomaly>, pulseEnabled: Level -> bool)
      returns (heatmaps: seq<Heatmap>)
    ensures |heatmaps| == |Configs|
    ensures forall i :: 0 <= i < |Configs| ==>
              heatmaps[i] == Heat(allEntries, Configs[i], PulseHours(HoursByLevel(alerts), pulseEnabled(Configs[i]), Configs[i]))
  {
    var byLevel := AnomalyHoursByLevel(alerts);
    heatmaps := [];
    for i := 0 to |Configs|
      invariant |heatmaps| == i
      invariant forall j :: 0 <= j < i ==>
                  heatmaps[j] == Heat(allEntries, Configs[j], PulseHours(byLevel, pulseEnabled(Configs[j]), Configs[j]))
    {
      var l := Configs[i];
      var pulseHours := PulseHours(byLevel, pulseEnabled(l), l);
      var heatmap := RenderHeatmap(allEntries, l, pulseHours);
      heatmaps := heatmaps + [heatmap];
    }
  }
}
