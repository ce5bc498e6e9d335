/** What `parseLogFile` promises about the entries it returns: where each one comes
    from, that they are in file order, and how many there are. */
module ParserFacts {
  import opened Options
  import opened Levels
  import opened Header
  import opened Ansi
  import opened Parser

  /** A header's timestamp is a clock. */
  lemma HeaderClock(s: string)
    requires MatchHeader(s).Some?
    ensures IsClock(MatchHeader(s).value.timestamp)
  {
    var l := ParseHeaderLine(s).value;
    assert MatchHeader(s).value == l.header;
  }

  /** A header line's timestamp is a clock. */
  lemma ClassifyClock(rawLine: string)
    ensures Classify(rawLine).HeaderLine? ==> IsClock(Classify(rawLine).h.timestamp)
  {
    var line := CleanAnsi(rawLine);
    if line != [] && MatchHeader(line).Some? {
      HeaderClock(line);
    }
  }

  /** The number of header lines among the first `n`. */
  function Headers(ks: seq<Kind>, n: nat): nat
    requires n <= |ks|
  {
    if n == 0 then 0 else Headers(ks, n - 1) + (if ks[n - 1].HeaderLine? then 1 else 0)
  }

  /** The number of plain lines among the first `n` that come before the first header. */
  function Leading(ks: seq<Kind>, n: nat): nat
    requires n <= |ks|
  {
    if n == 0 then 0
    else Leading(ks, n - 1) + (if ks[n - 1].PlainLine? && Headers(ks, n - 1) == 0 then 1 else 0)
  }

  /** An entry made from the line of its one-based `lineNumber`: its `raw` text is that
      line cleaned; a header line gives its groups (a clock timestamp, the level
      normalised, the message followed by any continuation lines), and a plain line an
      OTHER entry with no timestamp, source or thread whose message is the line. */
  predicate FromLine(ks: seq<Kind>, e: Entry) {
    1 <= e.lineNumber <= |ks|
    && match ks[e.lineNumber - 1]
       case BlankLine => false
       case HeaderLine(line, h) =>
         e.raw == line && e.timestamp == h.timestamp && IsClock(e.timestamp)
         && e.level == NormalizeLevel(h.level) && e.source == h.source && e.thread == h.thread
         && |h.message| <= |e.message| && e.message[..|h.message|] == h.message
       case PlainLine(line) =>
         e.raw == line && e.timestamp == [] && e.level == OTHER && e.source == [] && e.thread == []
         && e.message == line
  }

  /** Every header line has a clock timestamp, as lemma `ClassifyClock` shows. */
  predicate Sane(ks: seq<Kind>) {
    forall i :: 0 <= i < |ks| && ks[i].HeaderLine? ==> IsClock(ks[i].h.timestamp)
  }

  /** Strictly increasing line numbers: file order, and no line gives two entries. */
  predicate Ordered(es: seq<Entry>) {
    forall i, j :: 0 <= i < j < |es| ==> es[i].lineNumber < es[j].lineNumber
  }

  /** Every entry comes from one of the first `n` lines. */
  predicate AllFrom(ks: seq<Kind>, es: seq<Entry>, n: nat) {
    forall i :: 0 <= i < |es| ==> FromLine(ks, es[i]) && es[i].lineNumber <= n
  }

  /** What holds of a state `st` reached after `n` lines. The open entry is a header's,
      which is the one kind of entry with a timestamp. */
  predicate Holds(ks: seq<Kind>, st: ParseState, n: nat)
    requires n <= |ks|
  {
    var es := Entries(st);
    AllFrom(ks, es, n)
    && Ordered(es)
    && (st.current.Some? <==> Headers(ks, n) > 0)
    && (st.current.Some? ==> st.current.value.timestamp != [])
    && |es| == Headers(ks, n) + Leading(ks, n)
  }

  /** The invariant of the loop after `n` lines. */
  predicate Good(ks: seq<Kind>, n: nat)
    requires n <= |ks|
  {
    Holds(ks, Run(ks, n), n)
  }

  /** An entry from line `n` may follow entries from earlier lines. */
  lemma Extend(ks: seq<Kind>, es: seq<Entry>, e: Entry, n: nat)
    requires n > 0 && AllFrom(ks, es, n - 1) && Ordered(es) && FromLine(ks, e) && e.lineNumber == n
    ensures AllFrom(ks, es + [e], n) && Ordered(es + [e])
  {
    var es' := es + [e];
    forall i | 0 <= i < |es'| ensures FromLine(ks, es'[i]) && es'[i].lineNumber <= n {
      if i < |es| {
        assert es'[i] == es[i];
      }
    }
    forall i, j | 0 <= i < j < |es'| ensures es'[i].lineNumber < es'[j].lineNumber {
      assert es'[i] == es[i];
      if j < |es| {
        assert es'[j] == es[j];
      }
    }
  }

  /** The last entry may be replaced by one from the same line. */
  lemma ReplaceLast(ks: seq<Kind>, init: seq<Entry>, e: Entry, c: Entry, n: nat)
    requires AllFrom(ks, init + [e], n) && Ordered(init + [e])
    requires FromLine(ks, c) && c.lineNumber == e.lineNumber
    ensures AllFrom(ks, init + [c], n) && Ordered(init + [c])
  {
    var es, es' := init + [e], init + [c];
    forall i | 0 <= i < |es'| ensures es'[i].lineNumber == es[i].lineNumber {
      if i < |init| {
        assert es'[i] == init[i] == es[i];
      }
    }
    forall i | 0 <= i < |es'| ensures FromLine(ks, es'[i]) && es'[i].lineNumber <= n {
      if i < |init| {
        assert es'[i] == es[i];
      }
    }
  }

  /** A continuation keeps the entry's origin. */
  lemma ContinuedFrom(ks: seq<Kind>, e: Entry, x: string)
    requires FromLine(ks, e) && e.timestamp != []
    ensures FromLine(ks, Continued(e, x))
  {
    var e' := Continued(e, x);
    var h := ks[e.lineNumber - 1].h;
    assert e'.message == e.message + ("\n" + x);
    assert e'.message[..|h.message|] == e.message[..|h.message|];
  }

  /** One more line keeps the invariant. */
  lemma GoodStep(ks: seq<Kind>, n: nat)
    requires Sane(ks) && 0 < n <= |ks| && Good(ks, n - 1)
    ensures Good(ks, n)
  {
    var st := Run(ks, n - 1);
    assert Run(ks, n) == Step(st, ks[n - 1], n - 1);
    match ks[n - 1]
    case BlankLine =>
    case HeaderLine(line, h) => HoldsHeader(ks, st, n);
    case PlainLine(line) =>
      if st.current.Some? {
        HoldsContinue(ks, st, n);
      } else {
        HoldsStandalone(ks, st, n);
      }
  }

  /** A header line pushes the open entry and opens one from its own line. */
  lemma HoldsHeader(ks: seq<Kind>, st: ParseState, n: nat)
    requires Sane(ks) && 0 < n <= |ks| && Holds(ks, st, n - 1) && ks[n - 1].HeaderLine?
    ensures Holds(ks, Step(st, ks[n - 1], n - 1), n)
  {
    var es := Entries(st);
    var e := HeaderEntry(n - 1, ks[n - 1].line, ks[n - 1].h);
    var st' := Step(st, ks[n - 1], n - 1);
    assert st' == ParseState(es, Some(e));
    assert Entries(st') == es + [e];
    assert FromLine(ks, e);
    Extend(ks, es, e, n);
  }

  /** A plain line with an entry open extends that entry's message. */
  lemma HoldsContinue(ks: seq<Kind>, st: ParseState, n: nat)
    requires 0 < n <= |ks| && Holds(ks, st, n - 1) && ks[n - 1].PlainLine? && st.current.Some?
    ensures Holds(ks, Step(st, ks[n - 1], n - 1), n)
  {
    var cur := st.current.value;
    var c := Continued(cur, ks[n - 1].line);
    var st' := Step(st, ks[n - 1], n - 1);
    assert st' == ParseState(st.entries, Some(c));
    assert Entries(st) == st.entries + [cur];
    assert Entries(st') == st.entries + [c];
    var es := Entries(st);
    assert es[|es| - 1] == cur;
    ContinuedFrom(ks, cur, ks[n - 1].line);
    ReplaceLast(ks, st.entries, cur, c, n);
  }

  /** A plain line with no entry open is an entry of its own. */
  lemma HoldsStandalone(ks: seq<Kind>, st: ParseState, n: nat)
    requires 0 < n <= |ks| && Holds(ks, st, n - 1) && ks[n - 1].PlainLine? && st.current.None?
    ensures Holds(ks, Step(st, ks[n - 1], n - 1), n)
  {
    var es := Entries(st);
    var e := StandaloneEntry(n - 1, ks[n - 1].line);
    var st' := Step(st, ks[n - 1], n - 1);
    assert st' == ParseState(es + [e], None);
    assert Entries(st') == es + [e];
    Extend(ks, es, e, n);
  }

  lemma {:induction false} AlwaysGood(ks: seq<Kind>, n: nat)
    requires Sane(ks) && n <= |ks|
    ensures Good(ks, n)
  {
    if n > 0 {
      AlwaysGood(ks, n - 1);
      GoodStep(ks, n);
    }
  }

  /** What one line does to the entries the output will hold: a blank line changes
      nothing, not even the open entry; a header adds its own entry; a plain line with an
      entry open only appends `"\n"` and itself to the message of the last entry; and a
      plain line with none open adds an OTHER entry of its own. */
  lemma LineEffects(ks: seq<Kind>, n: nat)
    requires n < |ks|
    ensures var st, st' := Run(ks, n), Run(ks, n + 1);
            var es, es' := Entries(st), Entries(st');
            && (ks[n].BlankLine? ==> st' == st)
            && (ks[n].HeaderLine? ==> es' == es + [HeaderEntry(n, ks[n].line, ks[n].h)])
            && (ks[n].PlainLine? && st.current.Some? ==>
                  |es'| == |es| && es'[..|es| - 1] == es[..|es| - 1]
                  && es'[|es| - 1] == es[|es| - 1].(message := es[|es| - 1].message + "\n" + ks[n].line))
            && (ks[n].PlainLine? && st.current.None? ==> es' == es + [StandaloneEntry(n, ks[n].line)])
  {
    var st := Run(ks, n);
    RunNext(ks, n);
    if ks[n].PlainLine? && st.current.Some? {
      assert Entries(st) == st.entries + [st.current.value];
    }
  }

  /** The entries of `parseLogFile`: each comes from the line of its one-based
      `lineNumber` as `FromLine` describes, they are in file order, every timestamp is a
      clock or empty, and there is one entry per header line plus one per plain line
      before the first header. */
  lemma ParseEntries(text: string)
    ensures var ks, es := Kinds(SplitLines(text)), Parse(text);
            && Ordered(es)
            && (forall i :: 0 <= i < |es| ==> FromLine(ks, es[i]))
            && (forall i :: 0 <= i < |es| ==> es[i].timestamp == [] || IsClock(es[i].timestamp))
            && |es| == Headers(ks, |ks|) + Leading(ks, |ks|)
  {
    var lines := SplitLines(text);
    var ks := Kinds(lines);
    forall i | 0 <= i < |ks| && ks[i].HeaderLine? ensures IsClock(ks[i].h.timestamp) {
      KindsAt(lines, i);
      ClassifyClock(lines[i]);
    }
    AlwaysGood(ks, |ks|);
  }
}
