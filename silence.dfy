/** SILENCE detection: an hour of the range, neither the first nor the last, with no
    entry at all while the hour before or the hour after has some. */
module Silence {
  import opened Parser
  import opened Aggregate
  import opened Alerts
  import opened Gather

  /** The SILENCE test at position `i`: an interior hour with no entry, next to an hour
      with some. */
  predicate Silent(counts: seq<Tally>, i: nat)
    requires i < |counts|
  {
    Total(counts[i]) == 0 && 0 < i < |counts| - 1 && (Total(counts[i - 1]) > 0 || Total(counts[i + 1]) > 0)
  }

  function SilenceAlert(counts: seq<Tally>, first: int, i: nat): Anomaly
    requires 0 < i < |counts| - 1
  {
    Anomaly(Silence(Total(counts[i - 1]), Total(counts[i + 1])), Critical, All, first + i)
  }

  /** The push of `hours.forEach` at position `i` of the tallies `counts`. */
  function SilenceAt(counts: seq<Tally>, first: int, i: nat): (r: seq<Anomaly>)
    requires i < |counts|
    ensures |r| <= 1 && forall a :: a in r ==> a.hour == first + i
  {
    if Silent(counts, i) then [SilenceAlert(counts, first, i)] else []
  }

  function PerHour(counts: seq<Tally>, first: int): (r: seq<seq<Anomaly>>)
    ensures |r| == |counts| && forall i :: 0 <= i < |counts| ==> r[i] == SilenceAt(counts, first, i)
  {
    seq(|counts|, i requires 0 <= i < |counts| => SilenceAt(counts, first, i))
  }

  /** The SILENCE alerts of the hours `first, first + 1, ...` whose tallies are `counts`. */
  function Silences(counts: seq<Tally>, first: int): seq<Anomaly> {
    Concat(PerHour(counts, first))
  }

  method DetectSilences(counts: seq<Tally>, first: int) returns (alerts: seq<Anomaly>)
    ensures alerts == Silences(counts, first)
  {
    alerts := [];
    ghost var pushes := PerHour(counts, first);
    for i := 0 to |counts|
      invariant alerts == Concat(pushes[..i])
    {
      var pushed := VisitHour(counts, first, i);
      ConcatPush(pushes, i, alerts, pushed);
      alerts := alerts + pushed;
    }
    assert pushes[..|counts|] == pushes;
  }

  /** The callback of `hours.forEach` at position `i`. */
  method VisitHour(counts: seq<Tally>, first: int, i: nat) returns (pushed: seq<Anomaly>)
    requires i < |counts|
    ensures pushed == SilenceAt(counts, first, i)
  {
    pushed := [];
    var total := Total(counts[i]);
    if total == 0 && i > 0 && i < |counts| - 1 {
      var prevTotal := Total(counts[i - 1]);
      var nextTotal := Total(counts[i + 1]);
      if prevTotal > 0 || nextTotal > 0 {
        pushed := [Anomaly(Silence(prevTotal, nextTotal), Critical, All, first + i)];
      }
    }
  }

  /** Every silence is reported at an interior position that passes the test, is
      critical, is about all levels and carries the neighbours' totals. */
  lemma SilencesSound(counts: seq<Tally>, first: int)
    ensures forall a :: a in Silences(counts, first) ==>
              first < a.hour < first + |counts| - 1 && Silent(counts, a.hour - first)
              && a == SilenceAlert(counts, first, a.hour - first)
              && a.severity == Critical && a.scope == All
  {
    var xss := PerHour(counts, first);
    forall a: Anomaly | a in Concat(xss)
      ensures first < a.hour < first + |counts| - 1 && Silent(counts, a.hour - first)
              && a == SilenceAlert(counts, first, a.hour - first)
    {
      ConcatMember(xss, a);
      var j :| 0 <= j < |xss| && a in xss[j];
      assert a in SilenceAt(counts, first, j);
    }
  }

  /** Every position that passes the test has its silence reported. */
  lemma SilencesComplete(counts: seq<Tally>, first: int)
    ensures forall i :: 0 <= i < |counts| && Silent(counts, i) ==> SilenceAlert(counts, first, i) in Silences(counts, first)
  {
    var xss := PerHour(counts, first);
    forall i | 0 <= i < |counts| && Silent(counts, i)
      ensures SilenceAlert(counts, first, i) in Concat(xss)
    {
      assert SilenceAlert(counts, first, i) in xss[i];
      ConcatMember(xss, SilenceAlert(counts, first, i));
    }
  }

  /** The silences come in increasing hour order, at most one per hour. */
  lemma SilencesIncreasing(counts: seq<Tally>, first: int)
    ensures var r := Silences(counts, first);
            forall i, j :: 0 <= i < j < |r| ==> r[i].hour < r[j].hour
  {
    var xss := PerHour(counts, first);
    ConcatIncreasing(xss, AlertHour, first);
    var r := Concat(xss);
    assert forall i, j :: 0 <= i < j < |r| ==> AlertHour(r[i]) < AlertHour(r[j]);
  }

  /** Over the tallies of the timestamped entries, an hour's total is its number of
      entries: a silent hour is one without any entry next to one with some. */
  lemma SilentHourHasNoEntries(ts: seq<Entry>, first: int, counts: seq<Tally>, i: nat)
    requires i < |counts| && counts[i] == TallyAt(ts, first + i)
    ensures Total(counts[i]) == 0 <==> InHour(ts, first + i) == []
  {
    TallyCountsHour(ts, first + i);
  }
}
