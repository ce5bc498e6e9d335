/** Two display helpers: the y-axis step of the timeline chart and the shortened source
    name of the table. */
module Chart {
  import opened Text

  /** `niceStep(max)` for the largest bar `max` (at least 1): a round step from a fixed
      ladder up to 300, then `Math.ceil(max / 6 / 10) * 10`, which for a natural `max`
      is ten times the least integer at or above `max / 60`. */
  function NiceStep(max: nat): (step: nat)
    ensures step > 0
  {
    if max <= 5 then 1
    else if max <= 15 then 3
    else if max <= 30 then 5
    else if max <= 60 then 10
    else if max <= 150 then 25
    else if max <= 300 then 50
    else (max + 59) / 60 * 10
  }

  /** Six steps always reach the largest bar, so the axis `0, step, ..., yMax` has at
      most seven gridlines. */
  lemma NiceStepCovers(max: nat)
    ensures max <= 6 * NiceStep(max)
  {
    if max > 300 {
      var q := (max + 59) / 60;
      assert 60 * q + (max + 59) % 60 == max + 59;
    }
  }

  /** A larger bar never gets a smaller step. */
  lemma NiceStepMonotone(a: nat, b: nat)
    requires a <= b
    ensures NiceStep(a) <= NiceStep(b)
  {
    var qa, qb := (a + 59) / 60, (b + 59) / 60;
    assert 60 * qa + (a + 59) % 60 == a + 59;
    assert 60 * qb + (b + 59) % 60 == b + 59;
    if a > 300 {
      assert 60 * qa <= 60 * qb + 59;
    } else if b > 300 {
      assert qb >= 6;
    }
  }

  /** Above 300 the step is the least multiple of 10 whose six-fold reaches `max`. */
  lemma NiceStepLeast(max: nat)
    requires max > 300
    ensures NiceStep(max) % 10 == 0
    ensures forall s: nat :: s % 10 == 0 && max <= 6 * s ==> NiceStep(max) <= s
  {
    var q := (max + 59) / 60;
    assert 60 * q + (max + 59) % 60 == max + 59;
    forall s: nat | s % 10 == 0 && max <= 6 * s
      ensures NiceStep(max) <= s
    {
      var t := s / 10;
      assert s == 10 * t;
      assert 60 * (q - 1) < max <= 60 * t;
    }
  }

  /** The step is `⌈max / 60⌉ · 10` computed over the reals, as the source does. */
  lemma NiceStepCeil(max: nat)
    requires max > 300
    ensures var q := NiceStep(max) / 10;
            (q - 1) as real < max as real / 60.0 <= q as real
  {
    var q := (max + 59) / 60;
    assert 60 * q + (max + 59) % 60 == max + 59;
    assert NiceStep(max) / 10 == q;
    assert max <= 60 * q && 60 * (q - 1) < max;
    assert (60 * q) as real == 60.0 * q as real;
    assert (60 * (q - 1)) as real == 60.0 * (q - 1) as real;
  }

  const Ellipsis: char := '…'

  /** `shortenSource`: a name with at most one dot (an empty one too) is kept, and one
      with two dots or more is cut to its last two dot-separated pieces behind an
      ellipsis. */
  function ShortenSource(source: string): (r: string)
    ensures Occurrences(source, '.') <= 1 ==> r == source
    ensures Occurrences(source, '.') >= 2 ==> r == [Ellipsis] + LastTwo(source)
  {
    SplitCount(source, '.');
    if source == [] then []
    else
      var parts := Split(source, '.');
      if |parts| <= 2 then source
      else [Ellipsis] + Join(parts[|parts| - 2..], '.')
  }

  /** The part of a name after its second-to-last dot: its last two pieces, joined. */
  function LastTwo(source: string): string {
    var parts := Split(source, '.');
    if |parts| < 2 then source else Join(parts[|parts| - 2..], '.')
  }

  /** With two dots or more, those last two pieces are a proper suffix of the name that
      starts right after a dot. */
  lemma LastTwoSuffix(source: string)
    requires Occurrences(source, '.') >= 2
    ensures var t := LastTwo(source);
            |t| < |source| && source[|source| - |t|..] == t && source[|source| - |t| - 1] == '.'
  {
    SplitCount(source, '.');
    JoinSplit(source, '.');
    SuffixAfterDot(Split(source, '.'), source, LastTwo(source));
  }

  lemma SuffixAfterDot(parts: seq<string>, s: string, t: string)
    requires |parts| >= 3 && Join(parts, '.') == s && t == Join(parts[|parts| - 2..], '.')
    ensures |t| < |s| && s[|s| - |t|..] == t && s[|s| - |t| - 1] == '.'
  {
    JoinTail(parts, '.', |parts| - 2);
    SuffixMove(Join(parts, '.'), s, Join(parts[|parts| - 2..], '.'), t);
  }

  lemma SuffixMove(u: string, s: string, w: string, t: string)
    requires u == s && w == t && |w| < |u| && u[|u| - |w|..] == w && u[|u| - |w| - 1] == '.'
    ensures |t| < |s| && s[|s| - |t|..] == t && s[|s| - |t| - 1] == '.'
  {
  }

  /** ... and they split back into the last two pieces of the name, so they hold exactly
      one dot. */
  lemma LastTwoPieces(source: string)
    requires Occurrences(source, '.') >= 2
    ensures var parts := Split(source, '.');
            |parts| >= 3 && Split(LastTwo(source), '.') == parts[|parts| - 2..]
            && Occurrences(LastTwo(source), '.') == 1
  {
    var parts := Split(source, '.');
    SplitCount(source, '.');
    var tail := parts[|parts| - 2..];
    assert '.' !in tail[0] && '.' !in tail[1] by {
      assert tail[0] == parts[|parts| - 2] && tail[1] == parts[|parts| - 1];
    }
    assert forall j :: 0 <= j < |tail| ==> '.' !in tail[j];
    SplitJoin(tail, '.');
    SplitCount(Join(tail, '.'), '.');
  }

  /** Shortening a shortened name changes nothing more. */
  lemma ShortenIdempotent(source: string)
    ensures ShortenSource(ShortenSource(source)) == ShortenSource(source)
  {
    if Occurrences(source, '.') >= 2 {
      LastTwoPieces(source);
      OccurrencesAppend([Ellipsis], LastTwo(source), '.');
    }
  }
}
