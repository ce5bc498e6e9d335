/** The hour arithmetic and the dense per-hour tallies that the anomaly detectors and
    the heatmaps share. */
module Aggregate {
  import opened Levels
  import opened Parser

  /** `parseInt(e.timestamp.substring(0, 2), 10)`. Only entries with a clock timestamp
      are ever asked for their hour (every timestamp the parser produces is a clock or
      empty); the value -1 for other timestamps never reaches a detector. */
  function EntryHour(e: Entry): int {
    if IsClock(e.timestamp) then HourOf(e.timestamp) else -1
  }

  predicate IsStamped(e: Entry) {
    e.timestamp != []
  }

  /** What `es.filter(p)` keeps, in order. */
  function Filter<T>(s: seq<T>, p: T -> bool): (r: seq<T>)
    ensures |r| <= |s|
  {
    if s == [] then [] else Filter(s[..|s| - 1], p) + (if p(s[|s| - 1]) then [s[|s| - 1]] else [])
  }

  /** `allEntries.filter(e => e.timestamp)`. */
  function Timestamped(es: seq<Entry>): seq<Entry> {
    Filter(es, IsStamped)
  }

  /** The per-level counters of one hour, `{ INFO: 0, WARN: 0, ERROR: 0, OTHER: 0 }`. */
  datatype Tally = Tally(info: nat, warn: nat, error: nat, other: nat)

  const Zero: Tally := Tally(0, 0, 0, 0)

  function Get(t: Tally, l: Level): nat {
    match l
    case INFO => t.info
    case WARN => t.warn
    case ERROR => t.error
    case OTHER => t.other
  }

  /** `hourlyCounts[h][e.level]++`: one more entry of level `l`, nothing else changes. */
  function Inc(t: Tally, l: Level): (r: Tally)
    ensures Get(r, l) == Get(t, l) + 1
    ensures forall m :: m != l ==> Get(r, m) == Get(t, m)
  {
    match l
    case INFO => t.(info := t.info + 1)
    case WARN => t.(warn := t.warn + 1)
    case ERROR => t.(error := t.error + 1)
    case OTHER => t.(other := t.other + 1)
  }

  /** `Object.values(hourlyCounts[h]).reduce((a, b) => a + b, 0)`. */
  function Total(t: Tally): nat {
    t.info + t.warn + t.error + t.other
  }

  /** The tally of hour `h` over the entries `es`. */
  function TallyAt(es: seq<Entry>, h: int): Tally {
    if es == [] then Zero
    else
      var t := TallyAt(es[..|es| - 1], h);
      var e := es[|es| - 1];
      if EntryHour(e) == h then Inc(t, e.level) else t
  }

  /** The entries of hour `h` and level `l`. */
  function HourLevel(es: seq<Entry>, h: int, l: Level): seq<Entry> {
    Filter(es, (e: Entry) => EntryHour(e) == h && e.level == l)
  }

  /** The entries of hour `h`. */
  function InHour(es: seq<Entry>, h: int): seq<Entry> {
    Filter(es, (e: Entry) => EntryHour(e) == h)
  }

  /** Each counter of the tally counts exactly the entries of that hour and level. */
  lemma {:induction false} TallyCountsLevel(es: seq<Entry>, h: int, l: Level)
    ensures Get(TallyAt(es, h), l) == |HourLevel(es, h, l)|
  {
    if es != [] {
      TallyCountsLevel(es[..|es| - 1], h, l);
    }
  }

  /** The total of the tally counts exactly the entries of that hour, whatever their level. */
  lemma {:induction false} TallyCountsHour(es: seq<Entry>, h: int)
    ensures Total(TallyAt(es, h)) == |InHour(es, h)|
  {
    if es != [] {
      TallyCountsHour(es[..|es| - 1], h);
      var e := es[|es| - 1];
      if EntryHour(e) == h {
        var t := TallyAt(es[..|es| - 1], h);
        assert Total(Inc(t, e.level)) == Total(t) + 1 by {
          match e.level
          case INFO =>
          case WARN =>
          case ERROR =>
          case OTHER =>
        }
      }
    }
  }

  /** The hour range `firstHour..lastHour` of the timestamped entries `ts`, given as the
      first hour and the number of hours, which is 0 or less when `lastHour < firstHour`. */
  function FirstHour(ts: seq<Entry>): int
    requires ts != []
  {
    EntryHour(ts[0])
  }

  function HourSpan(ts: seq<Entry>): int
    requires ts != []
  {
    EntryHour(ts[|ts| - 1]) - EntryHour(ts[0]) + 1
  }

  /** The loop that fills `hourlyCounts`: every hour of the range starts at zero, and an
      entry whose hour falls outside the range is ignored. */
  method HourlyCounts(es: seq<Entry>, first: int, n: nat) returns (counts: seq<Tally>)
    ensures |counts| == n
    ensures forall i :: 0 <= i < n ==> counts[i] == TallyAt(es, first + i)
  {
    counts := seq(n, _ => Zero);
    for k := 0 to |es|
      invariant |counts| == n
      invariant forall i :: 0 <= i < n ==> counts[i] == TallyAt(es[..k], first + i)
    {
      assert es[..k + 1][..k] == es[..k];
      var h := EntryHour(es[k]);
      if first <= h < first + n {
        counts := counts[h - first := Inc(counts[h - first], es[k].level)];
      }
    }
    assert es[..|es|] == es;
  }

  /** `xs.reduce((a, b) => a + b, 0)`. */
  function Sum(xs: seq<nat>): nat {
    if xs == [] then 0 else Sum(xs[..|xs| - 1]) + xs[|xs| - 1]
  }

  /** Sum of the totals of the `n` hours from `first`. */
  function RangeTotal(es: seq<Entry>, first: int, n: nat): nat {
    if n == 0 then 0 else RangeTotal(es, first, n - 1) + Total(TallyAt(es, first + n - 1))
  }

  /** The entries whose hour lies in the `n` hours from `first`. */
  function InRange(es: seq<Entry>, first: int, n: nat): seq<Entry> {
    Filter(es, (e: Entry) => first <= EntryHour(e) < first + n)
  }

  /** The hours of the range hold exactly the entries whose hour lies in the range: those
      outside are ignored, and none is counted twice. */
  lemma {:induction false} RangeTotalCounts(es: seq<Entry>, first: int, n: nat)
    ensures RangeTotal(es, first, n) == |InRange(es, first, n)|
  {
    if n == 0 {
      FilterNone(es, (e: Entry) => first <= EntryHour(e) < first + n);
    } else {
      RangeTotalCounts(es, first, n - 1);
      InRangeStep(es, first, n);
    }
  }

  /** One more hour adds the entries of that hour. */
  lemma InRangeStep(es: seq<Entry>, first: int, n: nat)
    requires n > 0
    ensures |InRange(es, first, n)| == |InRange(es, first, n - 1)| + Total(TallyAt(es, first + n - 1))
  {
    TallyCountsHour(es, first + n - 1);
    FilterSplit(es, (e: Entry) => first <= EntryHour(e) < first + n,
                (e: Entry) => first <= EntryHour(e) < first + n - 1,
                (e: Entry) => EntryHour(e) == first + n - 1);
  }

  /** A filter that keeps nothing yields nothing. */
  lemma {:induction false} FilterNone<T>(s: seq<T>, p: T -> bool)
    requires forall x :: !p(x)
    ensures Filter(s, p) == []
  {
    if s != [] {
      FilterNone(s[..|s| - 1], p);
    }
  }

  /** A filter by a predicate that is the disjoint union of two others keeps as many
      elements as the two filters together. */
  lemma {:induction false} FilterSplit<T>(s: seq<T>, p: T -> bool, q: T -> bool, r: T -> bool)
    requires forall x :: p(x) == (q(x) || r(x))
    requires forall x :: !(q(x) && r(x))
    ensures |Filter(s, p)| == |Filter(s, q)| + |Filter(s, r)|
  {
    if s != [] {
      FilterSplit(s[..|s| - 1], p, q, r);
    }
  }
}
