/**
 * The logging layer: log levels and their names, the registry that assigns a
 * level to each logger name (exactly, by a dotted prefix, or by default), and
 * the loggers themselves. A logger's class is fixed by its level when it is
 * made; a level method emits only when its own level is at least the
 * logger's. Entries go to a writer that a child logger shares with its
 * parent. A group callback stamps the time it took on the next entry, and
 * extra data handed to it is merged into that same entry only.
 *
 * Clock readings are parameters; a callback handed to a level method is
 * modelled by the handler calls it makes.
 */
module Logs {
  import opened Wrappers
  import opened Text
  import opened JsValues

  // ----- Levels -----

  datatype LogLevel = SPAM | INFO | WARN | ERROR | NONE {
    /** The numeric value of the enum member. */
    function Code(): int {
      match this
      case SPAM => 1
      case INFO => 2
      case WARN => 3
      case ERROR => 4
      case NONE => 10
    }
  }

  /** `getLogLevelName(level)`. */
  function LevelName(level: LogLevel): string {
    match level
    case SPAM => "SPAM"
    case ERROR => "ERROR"
    case INFO => "INFO"
    case WARN => "WARN"
    case NONE => "NONE"
  }

  /** `getLogLevelByName(name)`: the level spelt `name`, upper case only. */
  function LevelByName(name: string): (r: Option<LogLevel>)
    ensures r.None? <==> name !in {"NONE", "SPAM", "INFO", "WARN", "ERROR"}
  {
    if name == "NONE" then Some(NONE)
    else if name == "SPAM" then Some(SPAM)
    else if name == "INFO" then Some(INFO)
    else if name == "WARN" then Some(WARN)
    else if name == "ERROR" then Some(ERROR)
    else None
  }

  /** Names and levels are each other's inverse on the five names. */
  lemma LevelNameRoundTrip(level: LogLevel, name: string)
    ensures LevelByName(LevelName(level)) == Some(level)
    ensures LevelByName(name) == Some(level) ==> LevelName(level) == name
  {
  }

  /** A logger made for level `loggerLevel` emits calls at level `at`. */
  predicate Enabled(loggerLevel: LogLevel, at: LogLevel) {
    at.Code() >= loggerLevel.Code()
  }

  /**
   * The overrides of the logger classes: `Logger_None` emits nothing,
   * `Logger_Spam` everything, `Logger_Error` only errors; a call enabled at
   * some level is enabled at every higher one, and on any more verbose logger.
   */
  lemma EnabledTable(loggerLevel: LogLevel, at: LogLevel, higher: LogLevel)
    requires at != NONE && higher != NONE
    ensures !Enabled(NONE, at)
    ensures Enabled(SPAM, at)
    ensures Enabled(ERROR, at) <==> at == ERROR
    ensures Enabled(WARN, at) <==> at == WARN || at == ERROR
    ensures Enabled(loggerLevel, at) && at.Code() <= higher.Code() ==> Enabled(loggerLevel, higher)
    ensures Enabled(loggerLevel, at) && loggerLevel != SPAM ==> Enabled(SPAM, at)
  {
  }

  // ----- The registry -----

  /** `config.level` of a `LogConfig`. */
  datatype LogConfig = LogConfig(level: Option<string>)

  /** The level `setLogLevel` stores: the one named, and NONE when the name is missing or unknown. */
  function ConfiguredLevel(config: LogConfig): (l: LogLevel)
    ensures Truthy(config.level) && LevelByName(config.level.value).Some? ==> l == LevelByName(config.level.value).value
    ensures !Truthy(config.level) || LevelByName(config.level.value).None? ==> l == NONE
  {
    var byName := LevelByName(Or(config.level, "NONE"));
    if byName.Some? then byName.value else NONE
  }

  /** The level of a name no registry entry covers. */
  const DefaultLevel := WARN

  /** A name `p` is a dotted prefix of `name`. */
  predicate Covers(p: string, name: string) {
    StartsWith(name, p + ".")
  }

  /** The position of the first name in `order` that is a dotted prefix of `name`. */
  function FirstPrefix(order: seq<string>, name: string): (r: Option<nat>)
    ensures r.Some? ==>
              && r.value < |order|
              && Covers(order[r.value], name)
              && forall j | 0 <= j < r.value :: !Covers(order[j], name)
    ensures r.None? ==> forall j | 0 <= j < |order| :: !Covers(order[j], name)
  {
    if order == [] then None
    else if Covers(order[0], name) then Some(0)
    else
      var rest := FirstPrefix(order[1..], name);
      if rest.Some? then Some(rest.value + 1) else None
  }

  /**
   * `gRegistry`: the level set for each name. `order` is the order in which
   * `for ... in` visits the names: the order they were first set.
   */
  class LogRegistry {
    var levels: map<string, LogLevel>
    var order: seq<string>

    ghost predicate Valid()
      reads this
    {
      && (forall i, j | 0 <= i < j < |order| :: order[i] != order[j])
      && (forall k :: k in levels <==> k in order)
    }

    constructor ()
      ensures Valid() && levels == map[] && order == []
    {
      levels := map[];
      order := [];
    }

    /** `setLogLevel(name, config)`. */
    method SetLogLevel(name: string, config: LogConfig)
      requires Valid()
      modifies this
      ensures Valid()
      ensures levels == old(levels)[name := ConfiguredLevel(config)]
      ensures order == if name in old(levels) then old(order) else old(order) + [name]
    {
      var level := ConfiguredLevel(config);
      if name !in levels {
        order := order + [name];
      }
      levels := levels[name := level];
    }

    /**
     * The level of the logger `name`: its own entry, else the entry of the
     * first registered dotted prefix, else WARN.
     */
    ghost function LevelOf(name: string): (l: LogLevel)
      requires Valid()
      reads this
      ensures name in levels ==> l == levels[name]
      ensures name !in levels && FirstPrefix(order, name).Some? ==> l == levels[order[FirstPrefix(order, name).value]]
      ensures name !in levels && (forall p | p in levels :: !Covers(p, name)) ==> l == DefaultLevel
    {
      if name in levels then levels[name]
      else
        var first := FirstPrefix(order, name);
        if first.Some? then levels[order[first.value]] else DefaultLevel
    }

    /** `getLogLevelFor(name)`. */
    method LevelFor(name: string) returns (level: LogLevel)
      requires Valid()
      ensures level == LevelOf(name)
    {
      if name in levels {
        return levels[name];
      }
      var i := 0;
      while i < |order|
        invariant 0 <= i <= |order|
        invariant forall j | 0 <= j < i :: !Covers(order[j], name)
      {
        if Covers(order[i], name) {
          FirstPrefixAt(order, name, i);
          return levels[order[i]];
        }
        i := i + 1;
      }
      return DefaultLevel;
    }
  }

  /** The first covering name is the one at `i` when none before `i` covers. */
  lemma FirstPrefixAt(order: seq<string>, name: string, i: nat)
    requires i < |order| && Covers(order[i], name)
    requires forall j | 0 <= j < i :: !Covers(order[j], name)
    ensures FirstPrefix(order, name) == Some(i)
  {
  }

  // ----- Entries and writers -----

  /** Log data: an object of named values. */
  type Data = Object

  datatype LogEntry = LogEntry(level: LogLevel, logger: string, date: int, title: Option<string>,
                               data: Option<Data>, timeDif: Option<int>)

  /** A writer that keeps the entries it is given. */
  class LogWriter {
    var entries: seq<LogEntry>

    constructor ()
      ensures entries == []
    {
      entries := [];
    }

    /** `addEntry(entry)`. */
    method AddEntry(entry: LogEntry)
      modifies this
      ensures entries == old(entries) + [entry]
    {
      entries := entries + [entry];
    }
  }

  /**
   * What `mergeData(data)` returns given the pending extra data: `data` when
   * there is none, the extra data when `data` is absent, otherwise `data` with
   * every property of the extra data copied over it.
   */
  function MergedData(extra: Option<Data>, data: Option<Data>): (r: Option<Data>)
    ensures extra.None? ==> r == data
    ensures extra.Some? ==> r.Some? && r.value.Keys == extra.value.Keys + (if data.Some? then data.value.Keys else {})
    ensures extra.Some? ==> forall k | k in r.value :: r.value[k] == if k in extra.value then extra.value[k] else data.value[k]
  {
    if extra.None? then data
    else if data.None? then extra
    else Some(data.value + extra.value)
  }

  /** One call a callback makes to the handler it is given: `w(title, data)`. */
  datatype HandlerCall = HandlerCall(title: Option<string>, data: Option<Data>)

  /** The argument of a level method: a title, or a callback that calls the handler. */
  datatype LogCall = Title(text: string) | Callback(calls: seq<HandlerCall>)

  /** The handler calls a `LogCall` makes; an absent call or an empty title makes none. */
  function CallsOf(l: Option<LogCall>): (calls: seq<HandlerCall>)
    ensures l.Some? && l.value.Title? && l.value.text != "" ==> calls == [HandlerCall(Some(l.value.text), None)]
    ensures l.None? || (l.value.Title? && l.value.text == "") ==> calls == []
  {
    if l.None? then []
    else match l.value
      case Title(text) => if text == "" then [] else [HandlerCall(Some(text), None)]
      case Callback(calls) => calls
  }

  /**
   * The entries the handler for `at` appends for `calls`, each call reading
   * and clearing the pending time difference and extra data in turn.
   */
  function Emitted(at: LogLevel, logger: string, now: int, calls: seq<HandlerCall>,
                   timeDif: Option<int>, extra: Option<Data>): (es: seq<LogEntry>)
    ensures |es| == |calls|
    decreases |calls|
  {
    if calls == [] then []
    else
      [LogEntry(at, logger, now, calls[0].title, MergedData(extra, calls[0].data), timeDif)]
      + Emitted(at, logger, now, calls[1..], None, None)
  }

  /** Appending a call appends its entry, which carries the pending state only when it is the first. */
  lemma {:induction false} EmittedSnoc(at: LogLevel, logger: string, now: int, calls: seq<HandlerCall>, c: HandlerCall,
                                       timeDif: Option<int>, extra: Option<Data>)
    ensures Emitted(at, logger, now, calls + [c], timeDif, extra) ==
              Emitted(at, logger, now, calls, timeDif, extra) +
              [LogEntry(at, logger, now, c.title,
                        if calls == [] then MergedData(extra, c.data) else c.data,
                        if calls == [] then timeDif else None)]
    decreases |calls|
  {
    if calls != [] {
      assert (calls + [c])[1..] == calls[1..] + [c];
      EmittedSnoc(at, logger, now, calls[1..], c, None, None);
    }
  }

  /**
   * Only the first entry of a call carries the time difference and the extra
   * data; every later one has no time difference and exactly its own data.
   */
  lemma {:induction false} OnlyFirstEntryCarriesState(at: LogLevel, logger: string, now: int, calls: seq<HandlerCall>,
                                                      timeDif: Option<int>, extra: Option<Data>)
    ensures var es := Emitted(at, logger, now, calls, timeDif, extra);
            && (calls != [] ==> es[0].timeDif == timeDif && es[0].data == MergedData(extra, calls[0].data))
            && (forall i | 1 <= i < |calls| :: es[i].timeDif == None && es[i].data == calls[i].data)
            && (forall i | 0 <= i < |calls| :: es[i].title == calls[i].title && es[i].level == at && es[i].logger == logger)
    decreases |calls|
  {
    if calls != [] {
      OnlyFirstEntryCarriesState(at, logger, now, calls[1..], None, None);
      var es := Emitted(at, logger, now, calls, timeDif, extra);
      var rest := Emitted(at, logger, now, calls[1..], None, None);
      assert es == [es[0]] + rest;
      forall i | 1 <= i < |calls|
        ensures es[i].timeDif == None && es[i].data == calls[i].data
      {
        assert es[i] == rest[i - 1];
        assert calls[1..][i - 1] == calls[i];
        if i > 1 {
          assert rest[i - 1].data == calls[1..][i - 1].data;
        } else {
          assert rest[0].data == MergedData(None, calls[1..][0].data);
        }
      }
      forall i | 0 <= i < |calls|
        ensures es[i].title == calls[i].title && es[i].level == at && es[i].logger == logger
      {
        if i > 0 {
          assert es[i] == rest[i - 1];
          assert calls[1..][i - 1] == calls[i];
        }
      }
    }
  }

  // ----- Loggers -----

  /** What `beginSpam`/`beginInfo` return: the callback that ends the group. */
  datatype GroupCallback = VoidGroup | Group(call: LogCall, at: LogLevel, startTime: int)

  /**
   * A logger: `JopiLogger` with the overrides of the `Logger_*` class its
   * `level` selects (`Logger_None` for NONE).
   */
  class Logger {
    const name: string
    const fullName: string
    const level: LogLevel
    var writer: LogWriter
    var timeDif: Option<int>
    var extraData: Option<Data>

    /** The constructor of the `Logger_*` class for `level`; a child writes where its parent writes. */
    constructor (parent: Logger?, name: string, level: LogLevel, defaultWriter: LogWriter)
      ensures this.name == name && this.level == level
      ensures fullName == if parent != null then parent.fullName + "." + name else name
      ensures writer == if parent != null then parent.writer else defaultWriter
      ensures timeDif == None && extraData == None
    {
      this.name := name;
      this.level := level;
      fullName := if parent != null then parent.fullName + "." + name else name;
      writer := if parent != null then parent.writer else defaultWriter;
      timeDif := None;
      extraData := None;
    }

    /** `setLogWriter(callback)`: a missing writer means the default one. */
    method SetLogWriter(w: LogWriter?, defaultWriter: LogWriter)
      modifies `writer
      ensures writer == if w != null then w else defaultWriter
    {
      writer := if w != null then w else defaultWriter;
    }

    /** `mergeData(data)`: uses up the pending extra data. */
    method MergeData(data: Option<Data>) returns (merged: Option<Data>)
      modifies `extraData
      ensures merged == MergedData(old(extraData), data)
      ensures extraData == None
    {
      if extraData.None? {
        return data;
      }
      var extra := extraData.value;
      extraData := None;
      if data.None? {
        return Some(extra);
      }
      merged := Some(data.value + extra);
    }

    /** The handler for level `at` (`hSpam` ... `hError`): one entry, taking the pending time difference and extra data. */
    method Handle(at: LogLevel, title: Option<string>, data: Option<Data>, now: int)
      modifies `timeDif, `extraData, writer
      ensures writer.entries ==
                old(writer.entries) + [LogEntry(at, fullName, now, title, MergedData(old(extraData), data), old(timeDif))]
      ensures timeDif == None && extraData == None
    {
      var td := timeDif;
      timeDif := None;
      var merged := MergeData(data);
      writer.AddEntry(LogEntry(at, fullName, now, title, merged, td));
    }

    /**
     * `doCall(l, w, data)`: sets the pending extra data, runs the handler for
     * `at` once per call `l` makes, and answers true.
     */
    method DoCall(l: Option<LogCall>, at: LogLevel, data: Option<Data>, now: int) returns (ok: bool)
      modifies `timeDif, `extraData, writer
      ensures ok
      ensures writer.entries == old(writer.entries) + Emitted(at, fullName, now, CallsOf(l), old(timeDif), data)
      ensures timeDif == (if CallsOf(l) == [] then old(timeDif) else None)
      ensures extraData == (if CallsOf(l) == [] then data else None)
    {
      extraData := data;
      var calls := CallsOf(l);
      var i := 0;
      while i < |calls|
        invariant 0 <= i <= |calls|
        invariant writer.entries == old(writer.entries) + Emitted(at, fullName, now, calls[..i], old(timeDif), data)
        invariant timeDif == (if i == 0 then old(timeDif) else None)
        invariant extraData == (if i == 0 then data else None)
      {
        Handle(at, calls[i].title, calls[i].data, now);
        EmittedSnoc(at, fullName, now, calls[..i], calls[i], old(timeDif), data);
        assert calls[..i + 1] == calls[..i] + [calls[i]];
        i := i + 1;
      }
      assert calls[..i] == calls;
      return true;
    }

    /**
     * `spam`, `info`, `warn` or `error`, as `at` says: on a logger whose level
     * enables `at` the call is run and the answer is true; otherwise nothing
     * happens and the answer is false.
     */
    method Log(at: LogLevel, l: Option<LogCall>, now: int) returns (ok: bool)
      requires at != NONE
      modifies `timeDif, `extraData, writer
      ensures ok == Enabled(level, at)
      ensures !ok ==> writer.entries == old(writer.entries) && timeDif == old(timeDif) && extraData == old(extraData)
      ensures ok ==> writer.entries == old(writer.entries) + Emitted(at, fullName, now, CallsOf(l), old(timeDif), None)
      ensures ok ==> extraData == None && timeDif == (if CallsOf(l) == [] then old(timeDif) else None)
    {
      if !Enabled(level, at) {
        return false;
      }
      ok := DoCall(l, at, None, now);
    }

    /** `beginSpam` or `beginInfo`, as `at` says: a group on a logger whose level enables `at`, else the void callback. */
    function Begin(at: LogLevel, l: LogCall, now: int): (g: GroupCallback)
      requires at == SPAM || at == INFO
      ensures g.Group? <==> Enabled(level, at)
      ensures g.Group? ==> g.call == l && g.at == at && g.startTime == now
    {
      if Enabled(level, at) then Group(l, at, now) else VoidGroup
    }

    /**
     * Calling the callback a group returned (`doBegin`'s closure) at time
     * `now` with `data`: the first entry it writes carries the time elapsed
     * since the group began and `data` merged into its own data.
     */
    method EndGroup(g: GroupCallback, data: Option<Data>, now: int)
      modifies `timeDif, `extraData, writer
      ensures g.VoidGroup? ==> writer.entries == old(writer.entries) && timeDif == old(timeDif) && extraData == old(extraData)
      ensures g.Group? ==>
                writer.entries ==
                  old(writer.entries) + Emitted(g.at, fullName, now, CallsOf(Some(g.call)), Some(now - g.startTime), data)
      ensures g.Group? && CallsOf(Some(g.call)) == [] ==> timeDif == Some(now - g.startTime) && extraData == data
      ensures g.Group? && CallsOf(Some(g.call)) != [] ==> timeDif == None && extraData == None
    {
      if g.Group? {
        timeDif := Some(now - g.startTime);
        var _ := DoCall(Some(g.call), g.at, data, now);
      }
    }
  }

  /**
   * `getLogger(name, parent)`: a logger named after its parent, of the class
   * the registry's level for that full name selects, writing where the
   * parent writes.
   */
  method GetLogger(name: string, parent: Logger?, registry: LogRegistry, defaultWriter: LogWriter) returns (logger: Logger)
    requires registry.Valid()
    ensures fresh(logger)
    ensures logger.fullName == if parent != null then parent.fullName + "." + name else name
    ensures logger.level == registry.LevelOf(logger.fullName)
    ensures logger.writer == if parent != null then parent.writer else defaultWriter
    ensures logger.timeDif == None && logger.extraData == None
  {
    var fullName := if parent != null then parent.fullName + "." + name else name;
    var level := registry.LevelFor(fullName);
    logger := new Logger(parent, name, level, defaultWriter);
  }
}
