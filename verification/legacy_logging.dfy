/**
 * The older `LoggingService`: a buffer of at most 100 entries, listeners called without
 * arguments after each append, explicit `subscribe` and `unsubscribe`, and `getLogs` handing out
 * the buffer itself rather than a copy.
 */
module LegacyLogging {
  import opened Outcomes
  import opened JsonValue
  import opened LogBuffer
  import Logging

  const MaxLogSize := 100

  datatype LogType = Info | Warn | Error

  datatype LogEntry = LogEntry(timestamp: int, logType: LogType, message: string, details: Option<Json>)

  datatype Logger = Logger(logs: seq<LogEntry>, listeners: seq<ListenerId>)

  /** The logger after an append, and the listeners called, in order. */
  datatype Effect = Effect(logger: Logger, notified: seq<ListenerId>)

  const Initial := Logger([], [])

  predicate Valid(lg: Logger) {
    |lg.logs| <= MaxLogSize && Unique(lg.listeners)
  }

  /** `addLog(type, message, details)` at time `now`. */
  function AddLog(lg: Logger, logType: LogType, message: string, now: int, details: Option<Json>): (r: Effect)
    ensures Valid(lg) ==> Valid(r.logger)
    ensures r.logger.listeners == lg.listeners
    ensures var logs := r.logger.logs;
      0 < |logs| <= |lg.logs| + 1 && logs[|logs| - 1] == LogEntry(now, logType, message, details)
      && logs[..|logs| - 1] == lg.logs[|lg.logs| + 1 - |logs|..]
    ensures |lg.logs| < MaxLogSize ==> |r.logger.logs| == |lg.logs| + 1
    ensures |lg.logs| >= MaxLogSize ==> |r.logger.logs| == |lg.logs|
    ensures r.notified == lg.listeners
  {
    var logs := Push(lg.logs, LogEntry(now, logType, message, details), MaxLogSize);
    assert logs[..|logs| - 1] == lg.logs[|lg.logs| + 1 - |logs|..];
    Effect(Logger(logs, lg.listeners), lg.listeners)
  }

  /** `subscribe(listener)`: set semantics, and nobody is called. */
  function Subscribe(lg: Logger, listener: ListenerId): (r: Logger)
    ensures Valid(lg) ==> Valid(r)
    ensures r.logs == lg.logs
    ensures forall x :: x in r.listeners <==> x in lg.listeners || x == listener
  {
    Logger(lg.logs, AddListener(lg.listeners, listener))
  }

  function Unsubscribe(lg: Logger, listener: ListenerId): (r: Logger)
    ensures Valid(lg) ==> Valid(r)
    ensures r.logs == lg.logs
    ensures forall x :: x in r.listeners <==> x in lg.listeners && x != listener
  {
    Logger(lg.logs, RemoveListener(lg.listeners, listener))
  }

  /** `getLogs()`: the buffer itself, so later appends show through it. */
  function GetLogs(lg: Logger): (v: LogsView<LogEntry>)
    ensures Read(v, lg.logs) == lg.logs
    ensures forall later :: Read(v, later) == later
  {
    Live
  }

  // ---------------------------------------------------------------------------
  // properties

  /** Subscribing twice registers once, so one append calls the listener once. */
  lemma SubscribeTwiceIsOnce(lg: Logger, listener: ListenerId, t: LogType, message: string, now: int)
    requires Valid(lg)
    ensures Subscribe(Subscribe(lg, listener), listener) == Subscribe(lg, listener)
    ensures var n := AddLog(Subscribe(lg, listener), t, message, now, None).notified;
      |set k | 0 <= k < |n| && n[k] == listener| == 1
  {
    var ls := Subscribe(lg, listener).listeners;
    var k0 :| 0 <= k0 < |ls| && ls[k0] == listener;
    assert (set k | 0 <= k < |ls| && ls[k] == listener) == {k0};
  }

  /** Subscribing a new listener and unsubscribing it restores the listener set. */
  lemma SubscribeUndone(lg: Logger, listener: ListenerId)
    requires listener !in lg.listeners
    ensures Unsubscribe(Subscribe(lg, listener), listener) == lg
  {
    AddThenRemove(lg.listeners, listener);
  }

  /** A view read before an append shows the new entry; the newer logger's copy does not. */
  lemma LiveBuffer(lg: Logger, t: LogType, message: string, now: int, newer: Logging.Logger)
    ensures var after := AddLog(lg, t, message, now, None).logger.logs;
      Read(GetLogs(lg), after) == after && after[|after| - 1].message == message
    ensures Read(Logging.GetLogs(newer), Logging.AddLog(newer, Logging.Info, message, now, None).logger.logs) == newer.logs
  {
  }

  /** A stream of entries logged from the start leaves the last 100 of them, oldest first. */
  function LogAll(lg: Logger, es: seq<LogEntry>): Logger
    decreases |es|
  {
    if |es| == 0 then lg
    else LogAll(AddLog(lg, es[0].logType, es[0].message, es[0].timestamp, es[0].details).logger, es[1..])
  }

  lemma {:induction false} LogAllIsPushAll(lg: Logger, es: seq<LogEntry>)
    ensures LogAll(lg, es).logs == PushAll(lg.logs, es, MaxLogSize)
    decreases |es|
  {
    if |es| > 0 {
      var e := es[0];
      assert LogEntry(e.timestamp, e.logType, e.message, e.details) == e;
      LogAllIsPushAll(AddLog(lg, e.logType, e.message, e.timestamp, e.details).logger, es[1..]);
    }
  }

  lemma KeepsLatest(es: seq<LogEntry>)
    ensures LogAll(Initial, es).logs == Last(es, MaxLogSize)
  {
    LogAllIsPushAll(Initial, es);
    PushAllKeepsLast([], es, MaxLogSize);
    assert [] + es == es;
  }
}
