/** Log levels and the level filter of src/logger.cpp and
    include/logger.hpp. The output line itself (timestamp, thread id, the
    stdout and file streams) is not modelled: an emitted message is kept as
    a record of its level and text. */
module Logging {
  import opened Utils

  /** LogLevel, FATAL=0 .. DEBUG=4. */
  datatype LogLevel = Fatal | Error | Warn | Info | Debug

  /** The enum's integer value. */
  function Ord(l: LogLevel): (n: nat)
    ensures n <= 4
  {
    match l
    case Fatal => 0
    case Error => 1
    case Warn => 2
    case Info => 3
    case Debug => 4
  }

  // ---------------------------------------------------------- parse_level

  /** toupper in the C locale. */
  function UpperChar(c: char): char
  {
    if 'a' <= c <= 'z' then ((c as int) - 32) as char else c
  }

  function UpperAscii(s: string): (r: string)
    ensures |r| == |s|
    ensures forall i :: 0 <= i < |s| ==> r[i] == UpperChar(s[i])
    decreases |s|
  {
    if s == [] then [] else [UpperChar(s[0])] + UpperAscii(s[1..])
  }

  /** The level a string names, after upper-casing it; INFO when it names
      none. */
  function LevelOf(s: string): LogLevel
  {
    var u := UpperAscii(s);
    if u == "FATAL" then Fatal
    else if u == "ERROR" then Error
    else if u == "WARN" || u == "WARNING" then Warn
    else if u == "INFO" then Info
    else if u == "DEBUG" then Debug
    else Info
  }

  /** parse_level: upper-case a copy in a loop, then compare. */
  method ParseLevel(s: string) returns (l: LogLevel)
    ensures l == LevelOf(s)
  {
    var u := s;
    var i := 0;
    while i < |u|
      invariant 0 <= i <= |u| == |s|
      invariant forall k :: 0 <= k < i ==> u[k] == UpperChar(s[k])
      invariant forall k :: i <= k < |s| ==> u[k] == s[k]
    {
      u := u[i := UpperChar(u[i])];
      i := i + 1;
    }
    assert u == UpperAscii(s);
    if u == "FATAL" { return Fatal; }
    if u == "ERROR" { return Error; }
    if u == "WARN" || u == "WARNING" { return Warn; }
    if u == "INFO" { return Info; }
    if u == "DEBUG" { return Debug; }
    return Info;
  }

  /** level_to_string */
  function LevelName(l: LogLevel): string
  {
    match l
    case Fatal => "FATAL"
    case Error => "ERROR"
    case Warn => "WARN"
    case Info => "INFO"
    case Debug => "DEBUG"
  }

  // ---------------------------------------------------------- the logger

  /** One emitted message. */
  datatype LogRecord = LogRecord(level: LogLevel, msg: string)

  /** The Logger singleton: its threshold and the messages it has written
      so far. */
  class Logger {
    var level: LogLevel
    var emitted: seq<LogRecord>

    /** The default member initialiser: INFO, nothing written yet. */
    constructor()
      ensures level == Info && emitted == []
    {
      level := Info;
      emitted := [];
    }

    /** A message at `lvl` passes the filter. */
    predicate Passes(lvl: LogLevel)
      reads this
    {
      Ord(lvl) <= Ord(level)
    }

    /** configure: set the threshold (opening the file is not modelled). */
    method Configure(lvl: LogLevel)
      modifies this
      ensures level == lvl && emitted == old(emitted)
    {
      level := lvl;
    }

    /** level() */
    function Level(): (l: LogLevel)
      reads this
      ensures l == level
    {
      level
    }

    /** log: drop the message when its level is above the threshold,
        otherwise emit it. */
    method Log(lvl: LogLevel, msg: string)
      modifies this
      ensures level == old(level)
      ensures Ord(lvl) <= Ord(level) ==> emitted == old(emitted) + [LogRecord(lvl, msg)]
      ensures Ord(lvl) > Ord(level) ==> emitted == old(emitted)
    {
      if Ord(lvl) > Ord(level) {
        return;
      }
      emitted := emitted + [LogRecord(lvl, msg)];
    }
  }

  // ---------------------------------------------------------- properties

  /** Upper-casing forgets the case of ASCII letters. */
  lemma {:induction false} UpperOfLower(s: string)
    ensures UpperAscii(LowerAscii(s)) == UpperAscii(s)
    decreases |s|
  {
    if s != [] {
      UpperOfLower(s[1..]);
      assert LowerAscii(s) == [LowerChar(s[0])] + LowerAscii(s[1..]);
    }
  }

  /** parse_level does not see case: the lower-case spelling of a string
      names the same level, and so does any string with the same
      upper-case form. */
  lemma ParseLevelCaseInsensitive(s: string, t: string)
    ensures LevelOf(LowerAscii(s)) == LevelOf(s)
    ensures UpperAscii(s) == UpperAscii(t) ==> LevelOf(s) == LevelOf(t)
  {
    UpperOfLower(s);
  }

  /** The names parse_level recognises, as upper-cased text. */
  const LevelNames: set<string> := {"FATAL", "ERROR", "WARN", "WARNING", "INFO", "DEBUG"}

  /** WARN and WARNING both mean Warn; anything unrecognised means Info. */
  lemma ParseLevelAliases(s: string)
    ensures LevelOf(s) == Warn <==> UpperAscii(s) in {"WARN", "WARNING"}
    ensures UpperAscii(s) !in LevelNames ==> LevelOf(s) == Info
    ensures LevelOf(s) == Info <==> UpperAscii(s) == "INFO" || UpperAscii(s) !in LevelNames
  {
  }

  lemma UpperAsciiOfUpper(s: string)
    requires forall i :: 0 <= i < |s| ==> !('a' <= s[i] <= 'z')
    ensures UpperAscii(s) == s
  {
  }

  /** parse_level inverts level_to_string, so level_to_string is
      injective. */
  lemma LevelNameRoundTrip(l: LogLevel, m: LogLevel)
    ensures LevelOf(LevelName(l)) == l
    ensures LevelName(l) == LevelName(m) ==> l == m
  {
    UpperAsciiOfUpper(LevelName(l));
  }

  /** The filter is monotone: whatever passes at a level also passes at
      every more severe level and under every more verbose threshold. */
  lemma FilterMonotone(lg: Logger, a: LogLevel, b: LogLevel)
    requires Ord(a) <= Ord(b)
    ensures lg.Passes(b) ==> lg.Passes(a)
    ensures lg.Passes(Fatal)
    ensures lg.level == Debug ==> lg.Passes(b)
  {
  }

  /** Ord is the severity order FATAL < ERROR < WARN < INFO < DEBUG and is
      injective. */
  lemma OrdIsSeverity(a: LogLevel, b: LogLevel)
    ensures Ord(a) == Ord(b) <==> a == b
    ensures Ord(Fatal) < Ord(Error) < Ord(Warn) < Ord(Info) < Ord(Debug)
  {
  }
}
