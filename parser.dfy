/** `parseLogFile`: raw log text to the ordered sequence of entries. */
module Parser {
  import opened Text
  import opened Options
  import opened Levels
  import opened Header
  import opened Ansi

  /** One log record, or one standalone line that precedes the first record. */
  datatype Entry = Entry(lineNumber: nat, timestamp: string, level: Level,
                         source: string, thread: string, message: string, raw: string)

  /** Drops the `\r` of a `\r\n` line break. */
  function DropCR(p: string): string {
    if p != [] && p[|p| - 1] == '\r' then p[..|p| - 1] else p
  }

  /** `rawText.split(/\r?\n/)`: every line break is `\n`, optionally preceded by `\r`; only
      the pieces followed by a break can lose a `\r`. */
  function SplitLines(text: string): (lines: seq<string>)
    ensures |lines| >= 1

  {
    var parts := Split(text, '\n');
    DropCRs(parts[..|parts| - 1]) + [parts[|parts| - 1]]
  }

  /** Every piece with its `\r` dropped. */
  function DropCRs(ps: seq<string>): (r: seq<string>)
    ensures |r| == |ps|
    ensures forall i :: 0 <= i < |ps| ==> r[i] == DropCR(ps[i])
  {
    if ps == [] then [] else DropCRs(ps[..|ps| - 1]) + [DropCR(ps[|ps| - 1])]
  }

  /** The entry a header line opens (`lineNumber` is one-based). */
  function HeaderEntry(index: nat, line: string, h: Header): Entry {
    Entry(index + 1, h.timestamp, NormalizeLevel(h.level), h.source, h.thread, h.message, line)
  }

  /** The entry of a line that is neither a header nor a continuation. */
  function StandaloneEntry(index: nat, line: string): Entry {
    Entry(index + 1, [], OTHER, [], [], line, line)
  }

  /** The open entry with a continuation line appended to its message. */
  function Continued(e: Entry, line: string): Entry {
    e.(message := e.message + "\n" + line)
  }

  /** The variables of the forEach loop: the entries pushed so far and `currentEntry`. */
  datatype ParseState = ParseState(entries: seq<Entry>, current: Option<Entry>)

  function Flush(current: Option<Entry>): seq<Entry> {
    if current.Some? then [current.value] else []
  }

  /** The entries the state stands for once the open entry is pushed. */
  function Entries(st: ParseState): seq<Entry> {
    st.entries + Flush(st.current)
  }

  /** What the loop makes of one physical line once it is cleaned: nothing, a header
      with its groups, or a plain line. */
  datatype Kind = BlankLine | HeaderLine(line: string, h: Header) | PlainLine(line: string)

  /** `cleanAnsi(rawLine)`, then the kind of the cleaned line. */
  function Classify(rawLine: string): Kind {
    KindOf(CleanAnsi(rawLine))
  }

  /** `line.match(LOG_LINE_REGEX)` on a cleaned line, which is skipped when empty. */
  function KindOf(line: string): Kind {
    if line == [] then BlankLine
    else match MatchHeader(line)
      case Some(h) => HeaderLine(line, h)
      case None => PlainLine(line)
  }

  /** The kinds of the physical lines, in file order. */
  function Kinds(lines: seq<string>): (ks: seq<Kind>)
    ensures |ks| == |lines|
  {
    Each(lines, Classify)
  }

  /** `s.map(f)`. */
  function Each<A, B>(s: seq<A>, f: A -> B): (r: seq<B>)
    ensures |r| == |s|
  {
    if s == [] then [] else Each(s[..|s| - 1], f) + [f(s[|s| - 1])]
  }

  lemma {:induction false} EachAt<A, B>(s: seq<A>, f: A -> B, i: nat)
    requires i < |s|
    ensures Each(s, f)[i] == f(s[i])
  {
    var init := s[..|s| - 1];
    if i < |init| {
      EachAt(init, f, i);
      assert init[i] == s[i];
    }
  }

  /** The kind of line `i` is its classification. */
  lemma KindsAt(lines: seq<string>, i: nat)
    requires i < |lines|
    ensures Kinds(lines)[i] == Classify(lines[i])
  {
    EachAt(lines, Classify, i);
  }

  /** One iteration of the loop, on the line of zero-based position `index` and kind
      `k`: a blank line changes nothing, a header pushes the open entry and opens its
      own, and a plain line continues the open entry or, with none open, is an entry of
      its own. */
  function Step(st: ParseState, k: Kind, index: nat): ParseState {
    match k
    case BlankLine => st
    case HeaderLine(line, h) => ParseState(st.entries + Flush(st.current), Some(HeaderEntry(index, line, h)))
    case PlainLine(line) =>
      if st.current.Some? then ParseState(st.entries, Some(Continued(st.current.value, line)))
      else ParseState(st.entries + [StandaloneEntry(index, line)], None)
  }

  /** The state after the first `n` lines, of kinds `ks`. */
  function Run(ks: seq<Kind>, n: nat): ParseState
    requires n <= |ks|
  {
    if n == 0 then ParseState([], None) else Step(Run(ks, n - 1), ks[n - 1], n - 1)
  }

  function ParseLines(lines: seq<string>): seq<Entry> {
    Entries(Run(Kinds(lines), |lines|))
  }

  function Parse(text: string): seq<Entry> {
    ParseLines(SplitLines(text))
  }

  lemma RunNext(ks: seq<Kind>, n: nat)
    requires n < |ks|
    ensures Run(ks, n + 1) == Step(Run(ks, n), ks[n], n)
  {
  }

  /** `parseLogFile`: the text is split into physical lines, which are then visited. */
  method ParseLogFile(rawText: string) returns (entries: seq<Entry>)
    ensures entries == Parse(rawText)
  {
    var lines := SplitLines(rawText);
    entries := VisitLines(lines);
  }

  /** The `forEach` loop over the lines, with the callback visiting each in turn, and the
      final push of the open entry. */
  method VisitLines(lines: seq<string>) returns (entries: seq<Entry>)
    ensures entries == ParseLines(lines)
  {
    entries := [];
    var current: Option<Entry> := None;
    for index := 0 to |lines|
      invariant ParseState(entries, current) == Run(Kinds(lines), index)
    {
      entries, current := VisitAt(lines, index, entries, current);
    }
    entries := entries + Flush(current);
  }

  /** One turn of the loop: the line at `index` visited with its kind. */
  method VisitAt(lines: seq<string>, index: nat, entries: seq<Entry>, current: Option<Entry>)
    returns (entries': seq<Entry>, current': Option<Entry>)
    requires index < |lines| && ParseState(entries, current) == Run(Kinds(lines), index)
    ensures ParseState(entries', current') == Run(Kinds(lines), index + 1)
  {
    KindsAt(lines, index);
    entries', current' := VisitLine(entries, current, lines[index], index, Kinds(lines)[index]);
    RunNext(Kinds(lines), index);
  }

  /** The callback of the `forEach` loop: the state after the line `rawLine`, whose
      zero-based position is `index` and whose kind is `k`. */
  method VisitLine(entries: seq<Entry>, current: Option<Entry>, rawLine: string, index: nat, ghost k: Kind)
    returns (entries': seq<Entry>, current': Option<Entry>)
    requires k == Classify(rawLine)
    ensures ParseState(entries', current') == Step(ParseState(entries, current), k, index)
  {
    var line := CleanAnsi(rawLine);
    entries', current' := VisitCleaned(entries, current, line, index);
  }

  /** The rest of the callback, once the line is cleaned. */
  method VisitCleaned(entries: seq<Entry>, current: Option<Entry>, line: string, index: nat)
    returns (entries': seq<Entry>, current': Option<Entry>)
    ensures ParseState(entries', current') == Step(ParseState(entries, current), KindOf(line), index)
  {
    entries', current' := entries, current;
    ghost var st := ParseState(entries, current);
    if line != [] {
      var m := MatchHeader(line);
      if m.Some? {
        entries' := entries + Flush(current);
        current' := Some(HeaderEntry(index, line, m.value));
        assert ParseState(entries', current') == Step(st, HeaderLine(line, m.value), index);
      } else {
        if current.Some? {
          current' := Some(Continued(current.value, line));
        } else {
          entries' := entries + [StandaloneEntry(index, line)];
        }
        assert ParseState(entries', current') == Step(st, PlainLine(line), index);
      }
    }
  }
}
