/** logger.go: the package-level logger whose level `setLoggerLevel` picks
    from a case-insensitive name, and the Error/Fatal/Panic helpers that
    fall back to the error's own text when no message is given. */
module Logging {
  import opened Exceptions

  /** logrus levels, most severe first. */
  datatype Level = PanicLevel | FatalLevel | ErrorLevel | WarnLevel | InfoLevel | DebugLevel | TraceLevel

  function Rank(l: Level): nat
  {
    match l
    case PanicLevel => 0
    case FatalLevel => 1
    case ErrorLevel => 2
    case WarnLevel => 3
    case InfoLevel => 4
    case DebugLevel => 5
    case TraceLevel => 6
  }

  /** The name setLoggerLevel accepts for each level. */
  function LevelName(l: Level): string
  {
    match l
    case PanicLevel => "PANIC"
    case FatalLevel => "FATAL"
    case ErrorLevel => "ERROR"
    case WarnLevel => "WARN"
    case InfoLevel => "INFO"
    case DebugLevel => "DEBUG"
    case TraceLevel => "TRACE"
  }

  predicate IsLevelName(u: string)
  {
    u == "PANIC" || u == "FATAL" || u == "ERROR" || u == "WARN" || u == "INFO" || u == "DEBUG" || u == "TRACE"
  }

  /** unicode.ToUpper on the characters that can reach a level name: a-z,
      the dotless i and the long s; every other character is kept. */
  function ToUpperChar(c: char): (d: char)
    ensures 'a' <= c <= 'z' ==> d as int == c as int - 32
  {
    if 'a' <= c <= 'z' then (c as int - 32) as char
    else if c == '\U{131}' then 'I'
    else if c == '\U{17F}' then 'S'
    else c
  }

  function ToUpper(s: string): (r: string)
    ensures |r| == |s|
  {
    seq(|s|, i requires 0 <= i < |s| => ToUpperChar(s[i]))
  }

  /** Upper-casing twice is upper-casing once. */
  lemma ToUpperIdempotent(s: string)
    ensures ToUpper(ToUpper(s)) == ToUpper(s)
  {
    forall i | 0 <= i < |s|
      ensures ToUpperChar(ToUpperChar(s[i])) == ToUpperChar(s[i])
    {
    }
  }

  /** What setLoggerLevel promises for the name `l`: the upper-cased name is
      the level's own name, or no name at all and the level is Info. */
  predicate SelectsLevel(l: string, level: Level)
  {
    ToUpper(l) == LevelName(level) || (!IsLevelName(ToUpper(l)) && level == InfoLevel)
  }

  /** Each name selects one level, and a name and its upper-case form select
      the same one. */
  lemma SelectsOneLevel(l: string, a: Level, b: Level)
    requires SelectsLevel(l, a) && SelectsLevel(ToUpper(l), b)
    ensures a == b
  {
    ToUpperIdempotent(l);
  }

  /** Every level is selected by its own name, in any letter case. */
  lemma LevelNameSelects(l: Level, name: string)
    requires ToUpper(name) == LevelName(l)
    ensures SelectsLevel(name, l)
  {
  }

  datatype Entry = Entry(level: Level, err: Value, msg: Value)

  /** How a logging call ends: it returns, or the process exits (Fatal), or
      it panics. */
  datatype Ending = Continued | Exited(code: int) | Panicking(p: Panic)

  const NilDereference := Other("runtime error: invalid memory address or nil pointer dereference")

  /** The message actually logged: `msg`, unless it is the empty string, in
      which case err.Error() (a nil `err` panics). */
  function LoggedMessage(err: Value, msg: Value): (r: Outcome<Value>)
    ensures msg != Text("") ==> r == Returned(msg)
    ensures msg == Text("") && err != Nil ==> r == Returned(Text(Render(err)))
    ensures msg == Text("") && err == Nil ==> r == Panicked(NilDereference)
  {
    if msg != Text("") then Returned(msg)
    else if err == Nil then Panicked(NilDereference)
    else Returned(Text(Render(err)))
  }

  /** The package-level logrus logger: its level and what it has written. */
  class Logger {
    var level: Level
    var entries: seq<Entry>

    constructor ()
      ensures level == InfoLevel && entries == []
    {
      level := InfoLevel;
      entries := [];
    }

    predicate Enabled(l: Level)
      reads this
    {
      Rank(l) <= Rank(level)
    }

    /** setLoggerLevel. */
    method SetLoggerLevel(l: string)
      modifies this
      ensures SelectsLevel(l, level)
      ensures entries == old(entries)
    {
      var u := ToUpper(l);
      if u == "PANIC" {
        level := PanicLevel;
      } else if u == "FATAL" {
        level := FatalLevel;
      } else if u == "ERROR" {
        level := ErrorLevel;
      } else if u == "WARN" {
        level := WarnLevel;
      } else if u == "INFO" {
        level := InfoLevel;
      } else if u == "DEBUG" {
        level := DebugLevel;
      } else if u == "TRACE" {
        level := TraceLevel;
      } else {
        level := InfoLevel;
      }
    }

    /** Writes one entry at level `l` with the defaulted message, when `l` is
        enabled; a nil error with an empty message panics first. */
    method Write(l: Level, err: Value, msg: Value) returns (logged: Outcome<Value>)
      modifies this
      ensures logged == LoggedMessage(err, msg) && level == old(level)
      ensures entries == old(entries) + (if logged.Returned? && Enabled(l) then [Entry(l, err, logged.value)] else [])
    {
      var m := msg;
      if m == Text("") {
        if err == Nil {
          return Panicked(NilDereference);
        }
        m := Text(Render(err));
      }
      if Enabled(l) {
        entries := entries + [Entry(l, err, m)];
      }
      return Returned(m);
    }

    /** logger.Error: logs at Error level and returns. */
    method Error(err: Value, msg: Value) returns (ending: Ending)
      modifies this
      ensures LoggedMessage(err, msg).Panicked? ==> ending == Panicking(NilDereference) && entries == old(entries)
      ensures LoggedMessage(err, msg).Returned? ==>
        ending == Continued
        && entries == old(entries) + (if Enabled(ErrorLevel) then [Entry(ErrorLevel, err, LoggedMessage(err, msg).value)] else [])
    {
      var logged := Write(ErrorLevel, err, msg);
      if logged.Panicked? {
        return Panicking(logged.p);
      }
      return Continued;
    }

    /** logger.Fatal: logs at Fatal level, then the process exits with 1.
        The `fields` argument is accepted and ignored. */
    method Fatal(err: Value, msg: string, fields: map<string, string>) returns (ending: Ending)
      modifies this
      ensures LoggedMessage(err, Text(msg)).Panicked? ==> ending == Panicking(NilDereference) && entries == old(entries)
      ensures LoggedMessage(err, Text(msg)).Returned? ==>
        ending == Exited(1)
        && entries == old(entries) + (if Enabled(FatalLevel) then [Entry(FatalLevel, err, LoggedMessage(err, Text(msg)).value)] else [])
    {
      var logged := Write(FatalLevel, err, Text(msg));
      if logged.Panicked? {
        return Panicking(logged.p);
      }
      return Exited(1);
    }

    /** logger.Panic: logs at Panic level, which is always enabled, then
        panics with the message. The `fields` argument is ignored. */
    method Panic(err: Value, msg: string, fields: map<string, string>) returns (ending: Ending)
      modifies this
      ensures LoggedMessage(err, Text(msg)).Panicked? ==> ending == Panicking(NilDereference) && entries == old(entries)
      ensures LoggedMessage(err, Text(msg)).Returned? ==>
        ending == Panicking(Other(Render(LoggedMessage(err, Text(msg)).value)))
        && entries == old(entries) + [Entry(PanicLevel, err, LoggedMessage(err, Text(msg)).value)]
    {
      var logged := Write(PanicLevel, err, Text(msg));
      if logged.Panicked? {
        return Panicking(logged.p);
      }
      return Panicking(Other(Render(logged.value)));
    }
  }
}
