/** The optional value used for "no match" and "no open entry". */
module Options {
  datatype Option<T> = None | Some(value: T)
}

/** Log levels and clock timestamps as the analyzer reads them. */
module Levels {
  import opened Text

  /** The levels an entry can carry after normalisation. */
  datatype Level = INFO | WARN | ERROR | OTHER

  /** The levels the header grammar accepts, in the order of its alternation. */
  datatype RawLevel = RawInfo | RawWarn | RawError | RawDebug | RawTrace | RawFatal

  function RawName(r: RawLevel): string {
    match r
    case RawInfo => "INFO"
    case RawWarn => "WARN"
    case RawError => "ERROR"
    case RawDebug => "DEBUG"
    case RawTrace => "TRACE"
    case RawFatal => "FATAL"
  }

  function LevelName(l: Level): string {
    match l
    case INFO => "INFO"
    case WARN => "WARN"
    case ERROR => "ERROR"
    case OTHER => "OTHER"
  }

  /** `normalizeLevel`: INFO, WARN and ERROR keep their name, FATAL becomes ERROR, and
      DEBUG and TRACE become OTHER. */
  function NormalizeLevel(r: RawLevel): (l: Level)
    ensures LevelName(l) == (if RawName(r) == "FATAL" then "ERROR"
                            else if RawName(r) == "DEBUG" || RawName(r) == "TRACE" then "OTHER"
                            else RawName(r))
  {
    match r
    case RawInfo => INFO
    case RawWarn => WARN
    case RawError | RawFatal => ERROR
    case RawDebug | RawTrace => OTHER
  }

  /** `HH:mm:ss,SSS` with every field made of ASCII digits (the grammar does not check
      ranges, so an hour such as 99 is accepted). */
  predicate IsClock(ts: string) {
    |ts| == 12
    && IsDigit(ts[0]) && IsDigit(ts[1]) && ts[2] == ':'
    && IsDigit(ts[3]) && IsDigit(ts[4]) && ts[5] == ':'
    && IsDigit(ts[6]) && IsDigit(ts[7]) && ts[8] == ','
    && IsDigit(ts[9]) && IsDigit(ts[10]) && IsDigit(ts[11])
  }

  /** `parseInt(ts.substring(0, 2), 10)` on a clock timestamp. */
  function HourOf(ts: string): (h: nat)
    requires IsClock(ts)
    ensures h < 100
  {
    DigitValue(ts[0]) * 10 + DigitValue(ts[1])
  }

  /** `ts.substring(0, 5)`: the `HH:mm` key of the minute. */
  function MinuteKey(ts: string): (k: string)
    requires IsClock(ts)
    ensures |k| == 5 && IsDigit(k[0]) && IsDigit(k[1]) && k[2] == ':'
  {
    ts[..5]
  }

  /** `parseInt(min.substring(0, 2), 10)` on a minute key. */
  function HourOfMinute(k: string): (h: nat)
    requires |k| >= 2 && IsDigit(k[0]) && IsDigit(k[1])
    ensures h < 100
  {
    DigitValue(k[0]) * 10 + DigitValue(k[1])
  }

  /** A minute key has the hour of the timestamp it comes from. */
  lemma MinuteHour(ts: string)
    requires IsClock(ts)
    ensures HourOfMinute(MinuteKey(ts)) == HourOf(ts)
  {
  }
}
