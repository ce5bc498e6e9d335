/** Removal of ANSI SGR colour sequences (`ESC [ <digits and semicolons> m`), as
    `text.replace(/\x1b\[[0-9;]*m/g, '')` does it, and `cleanAnsi`, which then trims. */
module Ansi {
  import opened Text

  const Esc: char := '\U{1B}'

  predicate IsParam(c: char) {
    IsDigit(c) || c == ';'
  }

  predicate AllParams(p: string) {
    forall i :: 0 <= i < |p| ==> IsParam(p[i])
  }

  /** The escape sequence that selects the graphic rendition with parameters `p`. */
  function Sgr(p: string): string {
    [Esc, '['] + p + ['m']
  }

  /** Length of the run of parameter characters at the start of `s`. */
  function ParamRun(s: string): (k: nat)
    ensures k <= |s| && AllParams(s[..k])
    ensures k < |s| ==> !IsParam(s[k])
  {
    if s == [] || !IsParam(s[0]) then 0
    else
      var k := 1 + ParamRun(s[1..]);
      assert s[..k] == [s[0]] + s[1..][..k - 1];
      k
  }

  /** Length of the SGR sequence `s` starts with, or 0 when it starts with none. Since `m`
      is not a parameter character, the greedy parameter run cannot be shortened to
      another match, so this is the regular expression's match at position 0. */
  function EscapeLength(s: string): (k: nat)
    ensures k == 0 || (3 <= k <= |s| && s[..k] == Sgr(s[2..k - 1]) && AllParams(s[2..k - 1]))
  {
    if |s| >= 2 && s[0] == Esc && s[1] == '[' then
      var k := ParamRun(s[2..]);
      if 2 + k < |s| && s[2 + k] == 'm' then
        assert s[2..3 + k - 1] == s[2..][..k];
        3 + k
      else 0
    else 0
  }

  /** The global replace: scanning left to right, every match is removed and the scan
      resumes after it; text produced by a removal is not rescanned. */
  function StripAnsi(s: string): (r: string)
    ensures |r| <= |s|
    ensures forall c :: c in r ==> c in s
    decreases |s|
  {
    if s == [] then []
    else
      var k := EscapeLength(s);
      if k > 0 then
        var r := StripAnsi(s[k..]);
        assert forall c :: c in r ==> c in s by {
          forall c | c in r ensures c in s {
            var i :| 0 <= i < |s[k..]| && s[k..][i] == c;
            assert s[k + i] == c;
          }
        }
        r
      else
        var r := [s[0]] + StripAnsi(s[1..]);
        assert forall c :: c in r ==> c in s by {
          forall c | c in r ensures c in s {
            if c != s[0] {
              var i :| 0 <= i < |s[1..]| && s[1..][i] == c;
              assert s[1 + i] == c;
            }
          }
        }
        r
  }

  /** `cleanAnsi`: colour sequences removed, then whitespace trimmed. The cleaned line
      holds only characters of the line and neither starts nor ends with whitespace; a
      line where no position starts a colour sequence is only trimmed. */
  function CleanAnsi(line: string): (r: string)
    ensures forall c :: c in r ==> c in line
    ensures r != [] ==> !IsSpace(r[0]) && !IsSpace(r[|r| - 1])
    ensures (forall i :: 0 <= i < |line| ==> EscapeLength(line[i..]) == 0) ==> r == Trim(line)
  {
    if forall i :: 0 <= i < |line| ==> EscapeLength(line[i..]) == 0 then
      StripNoSgr(line);
      Trim(StripAnsi(line))
    else Trim(StripAnsi(line))
  }

  /** Text without an escape character passes through unchanged. */
  lemma {:induction false} StripPlain(t: string, x: string)
    requires Esc !in t
    ensures StripAnsi(t + x) == t + StripAnsi(x)
  {
    if t != [] {
      assert EscapeLength(t + x) == 0;
      assert (t + x)[1..] == t[1..] + x;
      assert Esc !in t[1..];
      StripPlain(t[1..], x);
      assert t == [t[0]] + t[1..];
    } else {
      assert t + x == x;
    }
  }

  /** Text of which no position starts a colour sequence, even with `x` behind it, is
      kept as it is: an escape that begins another control sequence (erase line
      `ESC [ 2 K`, cursor moves) or none at all stays in the line. */
  lemma {:induction false} StripNoMatch(t: string, x: string)
    requires NoMatchIn(t, x)
    ensures StripAnsi(t + x) == t + StripAnsi(x)
  {
    if t == [] {
      assert t + x == x;
    } else {
      NoMatchTail(t, x);
      StripNoMatch(t[1..], x);
      assert [t[0]] + t[1..] == t;
      StripKeepsFirst(t[0], t[1..], x);
    }
  }

  /** No position of `t` starts a colour sequence when `x` follows it. */
  predicate NoMatchIn(t: string, x: string) {
    forall i :: 0 <= i < |t| ==> EscapeLength(t[i..] + x) == 0
  }

  lemma {:induction false} NoMatchTail(t: string, x: string)
    requires t != [] && NoMatchIn(t, x)
    ensures NoMatchIn(t[1..], x) && EscapeLength(t + x) == 0
  {
    assert t[0..] == t;
    forall i | 0 <= i < |t[1..]| ensures EscapeLength(t[1..][i..] + x) == 0 {
      assert t[1..][i..] == t[i + 1..];
    }
  }

  lemma {:induction false} StripKeepsFirst(c: char, u: string, x: string)
    requires EscapeLength([c] + u + x) == 0 && StripAnsi(u + x) == u + StripAnsi(x)
    ensures StripAnsi([c] + u + x) == [c] + u + StripAnsi(x)
  {
    Assoc([c], u, x);
    StripUnmatched(c, u + x);
    Assoc([c], u, StripAnsi(x));
  }

  lemma Assoc(a: string, b: string, c: string)
    ensures a + (b + c) == (a + b) + c
  {
  }

  /** At a position that starts no colour sequence, the character is kept. */
  lemma {:induction false} StripUnmatched(c: char, y: string)
    requires EscapeLength([c] + y) == 0
    ensures StripAnsi([c] + y) == [c] + StripAnsi(y)
  {
    assert ([c] + y)[1..] == y;
  }

  /** A line of which no position starts a colour sequence passes through unchanged. */
  lemma StripNoSgr(s: string)
    requires forall i :: 0 <= i < |s| ==> EscapeLength(s[i..]) == 0
    ensures StripAnsi(s) == s
  {
    forall i | 0 <= i < |s| ensures EscapeLength(s[i..] + []) == 0 {
      assert s[i..] + [] == s[i..];
    }
    assert NoMatchIn(s, []);
    StripNoMatch(s, []);
    assert s + [] == s;
  }

  /** Erase-line `ESC [ 2 K` is not a colour sequence: it is kept, and the scan goes on
      after it. */
  lemma EraseLineKept(x: string)
    ensures StripAnsi([Esc, '[', '2', 'K'] + x) == [Esc, '[', '2', 'K'] + StripAnsi(x)
  {
    var t := [Esc, '[', '2', 'K'];
    forall i | 0 <= i < |t| ensures EscapeLength(t[i..] + x) == 0 {
      if i == 0 {
        var s := t + x;
        assert s[2..] == ['2', 'K'] + x;
        ParamRunOf(['2'], ['K'] + x);
        assert ['2'] + (['K'] + x) == ['2', 'K'] + x;
      }
    }
    assert NoMatchIn(t, x);
    StripNoMatch(t, x);
  }

  /** A lone escape character, not followed by `[`, is kept. */
  lemma LoneEscapeKept(x: string)
    requires x == [] || x[0] != '['
    ensures StripAnsi([Esc] + x) == [Esc] + StripAnsi(x)
  {
    assert [Esc][0..] + x == [Esc] + x;
    assert NoMatchIn([Esc], x);
    StripNoMatch([Esc], x);
  }

  /** An SGR sequence at the scan position is removed as a whole. */
  lemma StripSgr(p: string, x: string)
    requires AllParams(p)
    ensures StripAnsi(Sgr(p) + x) == StripAnsi(x)
  {
    var s := Sgr(p) + x;
    assert s[2..] == p + (['m'] + x);
    ParamRunOf(p, ['m'] + x);
    assert EscapeLength(s) == |p| + 3;
    assert s[|p| + 3..] == x;
  }

  lemma {:induction false} ParamRunOf(p: string, x: string)
    requires AllParams(p) && x != [] && !IsParam(x[0])
    ensures ParamRun(p + x) == |p|
  {
    if p == [] {
      assert p + x == x;
    } else {
      assert (p + x)[1..] == p[1..] + x;
      ParamRunOf(p[1..], x);
    }
  }

  /** A coloured log line: colour codes around plain text leave exactly the text. */
  lemma Coloured(p: string, t: string, q: string)
    requires AllParams(p) && AllParams(q) && Esc !in t
    ensures StripAnsi(Sgr(p) + t + Sgr(q)) == t
  {
    assert Sgr(p) + t + Sgr(q) == Sgr(p) + (t + Sgr(q));
    StripSgr(p, t + Sgr(q));
    StripPlain(t, Sgr(q));
    StripSgr(q, []);
    assert Sgr(q) + [] == Sgr(q);
  }

  /** Cleaning never introduces a character, in particular no line break. */
  lemma CleanAnsiChars(line: string, c: char)
    requires c !in line
    ensures c !in CleanAnsi(line)
  {
  }
}
