/** Recogniser for the JBoss header line
      `HH:mm:ss,SSS LEVEL [source] (thread) message`
    with exactly the outcome of the regular expression
      `^(\d{2}:\d{2}:\d{2},\d{3})\s+(INFO|WARN|ERROR|DEBUG|TRACE|FATAL)\s+\[([^\]]+)\]\s+\(([^)]+)\)\s+(.+)$`
    (no flags), written as a scanner over the characters of the line. */
module Header {
  import opened Text
  import opened Options
  import opened Levels

  /** The captured groups of a match. */
  datatype Header = Header(timestamp: string, level: RawLevel, source: string, thread: string, message: string)

  /** A match together with the whitespace runs between its groups. */
  datatype Layout = Layout(header: Header, gap1: string, gap2: string, gap3: string, gap4: string)

  /** What the grammar admits in each group and gap, from the last group backwards:
      `WellFormedK` constrains the part of the line that `TailK` spells out. */
  predicate WellFormed4(l: Layout) {
    |l.gap4| > 0 && AllSpace(l.gap4) && |l.header.message| > 0 && NoLineTerminator(l.header.message)
  }

  predicate WellFormed3(l: Layout) {
    |l.header.thread| > 0 && ')' !in l.header.thread && WellFormed4(l)
  }

  predicate WellFormed2(l: Layout) {
    |l.gap3| > 0 && AllSpace(l.gap3) && WellFormed3(l)
  }

  predicate WellFormed1(l: Layout) {
    |l.header.source| > 0 && ']' !in l.header.source && WellFormed2(l)
  }

  predicate WellFormed0(l: Layout) {
    |l.gap2| > 0 && AllSpace(l.gap2) && WellFormed1(l)
  }

  predicate WellFormed(l: Layout) {
    IsClock(l.header.timestamp) && |l.gap1| > 0 && AllSpace(l.gap1) && WellFormed0(l)
  }

  /** The text after `)`. */
  function Tail4(l: Layout): string {
    l.gap4 + l.header.message
  }

  /** The text after `(`. */
  function Tail3(l: Layout): string {
    l.header.thread + ([')'] + Tail4(l))
  }

  /** The text after `]`. */
  function Tail2(l: Layout): string {
    l.gap3 + (['('] + Tail3(l))
  }

  /** The text after `[`. */
  function Tail1(l: Layout): string {
    l.header.source + ([']'] + Tail2(l))
  }

  /** The text after the level name. */
  function Tail0(l: Layout): string {
    l.gap2 + (['['] + Tail1(l))
  }

  /** The line a layout spells out. */
  function Render(l: Layout): string {
    l.header.timestamp + (l.gap1 + (RawName(l.header.level) + Tail0(l)))
  }

  /** Splits off the leading whitespace of `s` (a greedy `\s*`). */
  function SpanSpaces(s: string): (r: (string, string))
    ensures r.0 + r.1 == s && AllSpace(r.0)
    ensures r.1 == [] || !IsSpace(r.1[0])
  {
    var k := LeadingSpaces(s);
    assert s == s[..k] + s[k..];
    (s[..k], s[k..])
  }

  /** Splits `s` before its first `c` (a greedy `[^c]*`). */
  function SpanUntil(s: string, c: char): (r: (string, string))
    ensures r.0 + r.1 == s && c !in r.0
    ensures r.1 == [] || r.1[0] == c
  {
    var k := IndexOf(s, c);
    assert s == s[..k] + s[k..];
    (s[..k], s[k..])
  }

  predicate StartsWith(s: string, p: string) {
    |p| <= |s| && s[..|p|] == p
  }

  /** The alternative of the level group that matches at the start of `s`; no level name
      is a prefix of another, so at most one does. */
  function LevelPrefix(s: string): (r: Option<RawLevel>)
    ensures r.Some? ==> StartsWith(s, RawName(r.value))
  {
    if StartsWith(s, "INFO") then Some(RawInfo)
    else if StartsWith(s, "WARN") then Some(RawWarn)
    else if StartsWith(s, "ERROR") then Some(RawError)
    else if StartsWith(s, "DEBUG") then Some(RawDebug)
    else if StartsWith(s, "TRACE") then Some(RawTrace)
    else if StartsWith(s, "FATAL") then Some(RawFatal)
    else None
  }

  /** `\s+(.+)$` on the text after the closing parenthesis. The greedy `\s+` takes the
      whole whitespace run and `.+` the rest, which must hold no line terminator. When the
      run reaches the end of the line the engine backtracks: `.+` gets the last whitespace
      character, provided the run has two characters and that one is not a line terminator. */
  function MatchTail(t: string): (r: Option<(string, string)>)
    ensures r.Some? ==> var (g, m) := r.value;
      g + m == t && |g| > 0 && AllSpace(g) && |m| > 0 && NoLineTerminator(m)
  {
    var k := LeadingSpaces(t);
    if k == 0 then None
    else if k < |t| then
      if NoLineTerminator(t[k..]) then
        assert t == t[..k] + t[k..];
        Some((t[..k], t[k..]))
      else None
    else if k >= 2 && !IsLineTerminator(t[k - 1]) then
      assert t == t[..k - 1] + t[k - 1..];
      assert AllSpace(t[..k - 1]) by { assert t[..k - 1] == t[..k][..k - 1]; }
      Some((t[..k - 1], t[k - 1..]))
    else None
  }

  /** The scanner, one stage per group. Each stage receives the layout found so far and
      the rest of the line, and fills in the fields it recognises. */
  function AfterThread(acc: Layout, t: string): (r: Option<Layout>)
    ensures r.Some? ==> r.value == acc.(gap4 := r.value.gap4, header := acc.header.(message := r.value.header.message))
    ensures r.Some? ==> Tail4(r.value) == t && WellFormed4(r.value)
  {
    match MatchTail(t)
    case None => None
    case Some((g4, msg)) => Some(acc.(gap4 := g4, header := acc.header.(message := msg)))
  }

  function AfterOpenParen(acc: Layout, t: string): (r: Option<Layout>)
    ensures r.Some? ==> r.value == acc.(gap4 := r.value.gap4,
      header := acc.header.(thread := r.value.header.thread, message := r.value.header.message))
    ensures r.Some? ==> Tail3(r.value) == t && WellFormed3(r.value)
  {
    var (thr, rest) := SpanUntil(t, ')');
    if thr == [] || rest == [] then None
    else
      assert rest == [')'] + rest[1..];
      AfterThread(acc.(header := acc.header.(thread := thr)), rest[1..])
  }

  function AfterSource(acc: Layout, t: string): (r: Option<Layout>)
    ensures r.Some? ==> r.value == acc.(gap3 := r.value.gap3, gap4 := r.value.gap4,
      header := acc.header.(thread := r.value.header.thread, message := r.value.header.message))
    ensures r.Some? ==> Tail2(r.value) == t && WellFormed2(r.value)
  {
    var (g3, rest) := SpanSpaces(t);
    if g3 == [] || rest == [] || rest[0] != '(' then None
    else
      assert rest == ['('] + rest[1..];
      AfterOpenParen(acc.(gap3 := g3), rest[1..])
  }

  function AfterOpenBracket(acc: Layout, t: string): (r: Option<Layout>)
    ensures r.Some? ==> r.value == acc.(gap3 := r.value.gap3, gap4 := r.value.gap4,
      header := acc.header.(source := r.value.header.source, thread := r.value.header.thread,
                            message := r.value.header.message))
    ensures r.Some? ==> Tail1(r.value) == t && WellFormed1(r.value)
  {
    var (src, rest) := SpanUntil(t, ']');
    if src == [] || rest == [] then None
    else
      assert rest == [']'] + rest[1..];
      AfterSource(acc.(header := acc.header.(source := src)), rest[1..])
  }

  function AfterLevel(acc: Layout, t: string): (r: Option<Layout>)
    ensures r.Some? ==> r.value == acc.(gap2 := r.value.gap2, gap3 := r.value.gap3, gap4 := r.value.gap4,
      header := acc.header.(source := r.value.header.source, thread := r.value.header.thread,
                            message := r.value.header.message))
    ensures r.Some? ==> Tail0(r.value) == t && WellFormed0(r.value)
  {
    var (g2, rest) := SpanSpaces(t);
    if g2 == [] || rest == [] || rest[0] != '[' then None
    else
      assert rest == ['['] + rest[1..];
      AfterOpenBracket(acc.(gap2 := g2), rest[1..])
  }

  function AfterTimestamp(ts: string, t: string): (r: Option<Layout>)
    requires IsClock(ts)
    ensures r.Some? ==> r.value.header.timestamp == ts && WellFormed(r.value)
    ensures r.Some? ==> r.value.gap1 + (RawName(r.value.header.level) + Tail0(r.value)) == t
  {
    var (g1, rest) := SpanSpaces(t);
    if g1 == [] then None
    else match LevelPrefix(rest)
      case None => None
      case Some(lv) =>
        assert rest == RawName(lv) + rest[|RawName(lv)|..];
        AfterLevel(Layout(Header(ts, lv, [], [], []), g1, [], [], []), rest[|RawName(lv)|..])
  }

  /** The groups and gaps of the match, or None when the line does not match. */
  function ParseHeaderLine(s: string): (r: Option<Layout>)
    ensures r.Some? ==> WellFormed(r.value) && Render(r.value) == s
  {
    if |s| < 12 || !IsClock(s[..12]) then None
    else
      assert s == s[..12] + s[12..];
      AfterTimestamp(s[..12], s[12..])
  }

  /** `line.match(LOG_LINE_REGEX)`, reduced to its captured groups. */
  function MatchHeader(s: string): Option<Header>
  {
    match ParseHeaderLine(s)
    case None => None
    case Some(l) => Some(l.header)
  }

  lemma SpanSpacesOf(w: string, t: string)
    requires AllSpace(w) && t != [] && !IsSpace(t[0])
    ensures SpanSpaces(w + t) == (w, t)
  {
    LeadingOf(w, t);
    assert (w + t)[..|w|] == w && (w + t)[|w|..] == t;
  }

  lemma SpanUntilOf(a: string, c: char, t: string)
    requires c !in a
    ensures SpanUntil(a + ([c] + t), c) == (a, [c] + t)
  {
    IndexOfFirst(a, c, t);
    var s := a + ([c] + t);
    assert s == a + [c] + t;
    assert s[..|a|] == a && s[|a|..] == [c] + t;
  }

  lemma LevelPrefixOf(lv: RawLevel, t: string)
    ensures LevelPrefix(RawName(lv) + t) == Some(lv)
  {
    var s := RawName(lv) + t;
    assert s[..|RawName(lv)|] == RawName(lv);
    assert s[0] == RawName(lv)[0];
  }

  lemma MatchTailOf(g: string, m: string)
    requires |g| > 0 && AllSpace(g) && |m| > 0 && !IsSpace(m[0]) && NoLineTerminator(m)
    ensures MatchTail(g + m) == Some((g, m))
  {
    LeadingOf(g, m);
    var t := g + m;
    assert t[..|g|] == g && t[|g|..] == m;
  }

  /** The stages recover a well-formed layout from the text it spells out, provided the
      last gap is the one the greedy `\s+` takes. Each stage lemma starts from any
      accumulator that agrees with the layout on the fields found before that stage. */
  lemma StageThread(acc: Layout, l: Layout)
    requires MatchTail(Tail4(l)) == Some((l.gap4, l.header.message))
    requires acc.(gap4 := l.gap4, header := acc.header.(message := l.header.message)) == l
    ensures AfterThread(acc, Tail4(l)) == Some(l)
  {
  }

  lemma StageOpenParen(acc: Layout, l: Layout)
    requires WellFormed3(l) && MatchTail(Tail4(l)) == Some((l.gap4, l.header.message))
    requires acc.(gap4 := l.gap4, header := acc.header.(thread := l.header.thread, message := l.header.message)) == l
    ensures AfterOpenParen(acc, Tail3(l)) == Some(l)
  {
    SpanUntilOf(l.header.thread, ')', Tail4(l));
    StageThread(acc.(header := acc.header.(thread := l.header.thread)), l);
  }

  lemma StageSource(acc: Layout, l: Layout)
    requires WellFormed2(l) && MatchTail(Tail4(l)) == Some((l.gap4, l.header.message))
    requires acc.(gap3 := l.gap3, gap4 := l.gap4,
      header := acc.header.(thread := l.header.thread, message := l.header.message)) == l
    ensures AfterSource(acc, Tail2(l)) == Some(l)
  {
    SpanSpacesOf(l.gap3, ['('] + Tail3(l));
    StageOpenParen(acc.(gap3 := l.gap3), l);
  }

  lemma StageOpenBracket(acc: Layout, l: Layout)
    requires WellFormed1(l) && MatchTail(Tail4(l)) == Some((l.gap4, l.header.message))
    requires acc.(gap3 := l.gap3, gap4 := l.gap4,
      header := acc.header.(source := l.header.source, thread := l.header.thread,
                            message := l.header.message)) == l
    ensures AfterOpenBracket(acc, Tail1(l)) == Some(l)
  {
    SpanUntilOf(l.header.source, ']', Tail2(l));
    StageSource(acc.(header := acc.header.(source := l.header.source)), l);
  }

  lemma StageLevel(acc: Layout, l: Layout)
    requires WellFormed0(l) && MatchTail(Tail4(l)) == Some((l.gap4, l.header.message))
    requires acc.(gap2 := l.gap2, gap3 := l.gap3, gap4 := l.gap4,
      header := acc.header.(source := l.header.source, thread := l.header.thread,
                            message := l.header.message)) == l
    ensures AfterLevel(acc, Tail0(l)) == Some(l)
  {
    SpanSpacesOf(l.gap2, ['['] + Tail1(l));
    StageOpenBracket(acc.(gap2 := l.gap2), l);
  }

  lemma RenderParts(l: Layout)
    requires |l.header.timestamp| == 12
    ensures Render(l)[..12] == l.header.timestamp
    ensures Render(l)[12..] == l.gap1 + (RawName(l.header.level) + Tail0(l))
  {
  }

  lemma StageTimestamp(l: Layout)
    requires WellFormed(l) && MatchTail(Tail4(l)) == Some((l.gap4, l.header.message))
    ensures AfterTimestamp(l.header.timestamp, l.gap1 + (RawName(l.header.level) + Tail0(l))) == Some(l)
  {
    var h := l.header;
    var rest := RawName(h.level) + Tail0(l);
    SpanSpacesOf(l.gap1, rest);
    LevelPrefixOf(h.level, Tail0(l));
    assert rest[|RawName(h.level)|..] == Tail0(l);
    StageLevel(Layout(Header(h.timestamp, h.level, [], [], []), l.gap1, [], [], []), l);
  }

  lemma RecoverLayout(l: Layout)
    requires WellFormed(l) && MatchTail(Tail4(l)) == Some((l.gap4, l.header.message))
    ensures ParseHeaderLine(Render(l)) == Some(l)
  {
    RenderParts(l);
    StageTimestamp(l);
  }

  /** Round trip: a grammar line whose message does not start with whitespace is
      recognised with exactly its groups and gaps. */
  lemma HeaderRoundTrip(l: Layout)
    requires WellFormed(l) && !IsSpace(l.header.message[0])
    ensures ParseHeaderLine(Render(l)) == Some(l)
  {
    MatchTailOf(l.gap4, l.header.message);
    RecoverLayout(l);
  }

  lemma {:induction false} LeadingAtLeast(w: string, t: string)
    requires AllSpace(w)
    ensures LeadingSpaces(w + t) >= |w|
  {
    if w != [] {
      assert (w + t)[1..] == w[1..] + t;
      LeadingAtLeast(w[1..], t);
    }
  }

  lemma MatchTailComplete(g: string, m: string)
    requires |g| > 0 && AllSpace(g) && |m| > 0 && NoLineTerminator(m)
    ensures MatchTail(g + m).Some?
    ensures var m' := MatchTail(g + m).value.1; |m'| <= |m| && m' == m[|m| - |m'|..]
  {
    var t := g + m;
    LeadingAtLeast(g, m);
    var k := LeadingSpaces(t);
    if k < |t| {
      assert t[k..] == m[k - |g|..];
    } else {
      assert t[k - 1] == m[|m| - 1];
      assert t[k - 1..] == m[|m| - 1..];
    }
  }

  /** Every line of the grammar is recognised, with its timestamp, level, source and
      thread; the message captured is the grammar line's message without the whitespace
      the greedy gap absorbed (all of it but the last character when the message is
      only whitespace). */
  lemma HeaderComplete(l: Layout)
    requires WellFormed(l)
    ensures MatchHeader(Render(l)).Some?
    ensures var h := MatchHeader(Render(l)).value;
      && h.timestamp == l.header.timestamp && h.level == l.header.level
      && h.source == l.header.source && h.thread == l.header.thread
      && |h.message| <= |l.header.message|
      && h.message == l.header.message[|l.header.message| - |h.message|..]
  {
    MatchTailComplete(l.gap4, l.header.message);
    var (g, m) := MatchTail(Tail4(l)).value;
    var l' := l.(gap4 := g, header := l.header.(message := m));
    assert Tail4(l') == Tail4(l);
    assert Render(l') == Render(l);
    RecoverLayout(l');
  }
}
