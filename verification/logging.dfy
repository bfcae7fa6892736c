/**
 * The newer `LoggingService`: a buffer of at most 200 entries; every listener is handed a copy of
 * the whole buffer after each append and once when it subscribes.
 *
 * The clock is a parameter (`now`); the console output is not modelled. The `data` attached to
 * an entry is any value, a parsed JSON value here.
 */
module Logging {
  import opened Outcomes
  import opened JsonValue
  import opened LogBuffer

  const Cap := 200

  datatype Level = Info | Warn | Error

  datatype LogEntry = LogEntry(level: Level, message: string, timestamp: int, data: Option<Json>)

  datatype Logger = Logger(logs: seq<LogEntry>, listeners: seq<ListenerId>)

  /** A listener called with a copy of the buffer. */
  datatype Delivery = Delivery(listener: ListenerId, logs: seq<LogEntry>)

  /** The logger after a call, and the listener calls the call made, in order. */
  datatype Effect = Effect(logger: Logger, delivered: seq<Delivery>)

  const Initial := Logger([], [])

  /** The buffer is within its cap and no listener is registered twice. */
  predicate Valid(lg: Logger) {
    |lg.logs| <= Cap && Unique(lg.listeners)
  }

  /** Each listener, in subscription order, handed `logs`. */
  function Broadcast(listeners: seq<ListenerId>, logs: seq<LogEntry>): (ds: seq<Delivery>)
    ensures |ds| == |listeners|
    ensures forall k :: 0 <= k < |ds| ==> ds[k] == Delivery(listeners[k], logs)
  {
    seq(|listeners|, k requires 0 <= k < |listeners| => Delivery(listeners[k], logs))
  }

  /** `addLog(level, message, data)` at time `now`. */
  function AddLog(lg: Logger, level: Level, message: string, now: int, data: Option<Json>): (r: Effect)
    ensures Valid(lg) ==> Valid(r.logger)
    ensures r.logger.listeners == lg.listeners
    ensures var logs := r.logger.logs;
      0 < |logs| <= |lg.logs| + 1 && logs[|logs| - 1] == LogEntry(level, message, now, data)
      && logs[..|logs| - 1] == lg.logs[|lg.logs| + 1 - |logs|..]
    ensures |lg.logs| < Cap ==> |r.logger.logs| == |lg.logs| + 1
    ensures |lg.logs| >= Cap ==> |r.logger.logs| == |lg.logs|
    ensures r.delivered == Broadcast(lg.listeners, r.logger.logs)
  {
    var logs := Push(lg.logs, LogEntry(level, message, now, data), Cap);
    assert logs[..|logs| - 1] == lg.logs[|lg.logs| + 1 - |logs|..];
    Effect(Logger(logs, lg.listeners), Broadcast(lg.listeners, logs))
  }

  /**
   * `r` is `lg` after logging `entry`: the entry last, the older entries kept up to the cap,
   * the listeners unchanged, and each of them handed the new buffer.
   */
  predicate Logged(lg: Logger, r: Effect, entry: LogEntry) {
    var logs := r.logger.logs;
    && r.logger.listeners == lg.listeners
    && |logs| == (if |lg.logs| < Cap then |lg.logs| + 1 else |lg.logs|)
    && 0 < |logs| && logs[|logs| - 1] == entry
    && logs[..|logs| - 1] == lg.logs[|lg.logs| + 1 - |logs|..]
    && r.delivered == Broadcast(lg.listeners, logs)
  }

  function LogInfo(lg: Logger, message: string, now: int, data: Option<Json>): (r: Effect)
    ensures Logged(lg, r, LogEntry(Info, message, now, data))
  {
    AddLog(lg, Info, message, now, data)
  }

  function LogWarn(lg: Logger, message: string, now: int, data: Option<Json>): (r: Effect)
    ensures Logged(lg, r, LogEntry(Warn, message, now, data))
  {
    AddLog(lg, Warn, message, now, data)
  }

  function LogError(lg: Logger, message: string, now: int, data: Option<Json>): (r: Effect)
    ensures Logged(lg, r, LogEntry(Error, message, now, data))
  {
    AddLog(lg, Error, message, now, data)
  }

  /** `subscribe(listener)`: registers it once and hands it the current buffer straight away. */
  function Subscribe(lg: Logger, listener: ListenerId): (r: Effect)
    ensures Valid(lg) ==> Valid(r.logger)
    ensures r.logger.logs == lg.logs
    ensures forall x :: x in r.logger.listeners <==> x in lg.listeners || x == listener
    ensures r.delivered == [Delivery(listener, lg.logs)]
  {
    Effect(Logger(lg.logs, AddListener(lg.listeners, listener)), [Delivery(listener, lg.logs)])
  }

  /** The function `subscribe` returns: it removes that listener and no other. */
  function Unsubscribe(lg: Logger, listener: ListenerId): (r: Logger)
    ensures Valid(lg) ==> Valid(r)
    ensures r.logs == lg.logs
    ensures forall x :: x in r.listeners <==> x in lg.listeners && x != listener
  {
    Logger(lg.logs, RemoveListener(lg.listeners, listener))
  }

  /** `getLogs()`: a copy of the buffer. */
  function GetLogs(lg: Logger): (v: LogsView<LogEntry>)
    ensures Read(v, lg.logs) == lg.logs
    ensures v.Snapshot?
  {
    Snapshot(lg.logs)
  }

  // ---------------------------------------------------------------------------
  // properties

  /** The logs a caller read earlier do not change when later entries arrive. */
  lemma ReadLogsAreCopies(lg: Logger, level: Level, message: string, now: int, data: Option<Json>)
    ensures Read(GetLogs(lg), AddLog(lg, level, message, now, data).logger.logs) == lg.logs
  {
  }

  /** A stream of entries logged from the start leaves the last 200 of them, oldest first. */
  function LogAll(lg: Logger, es: seq<LogEntry>): Logger
    decreases |es|
  {
    if |es| == 0 then lg
    else LogAll(AddLog(lg, es[0].level, es[0].message, es[0].timestamp, es[0].data).logger, es[1..])
  }

  lemma {:induction false} LogAllIsPushAll(lg: Logger, es: seq<LogEntry>)
    ensures LogAll(lg, es).logs == PushAll(lg.logs, es, Cap)
    decreases |es|
  {
    if |es| > 0 {
      var e := es[0];
      assert LogEntry(e.level, e.message, e.timestamp, e.data) == e;
      LogAllIsPushAll(AddLog(lg, e.level, e.message, e.timestamp, e.data).logger, es[1..]);
    }
  }

  lemma KeepsLatest(es: seq<LogEntry>)
    ensures LogAll(Initial, es).logs == Last(es, Cap)
  {
    LogAllIsPushAll(Initial, es);
    PushAllKeepsLast([], es, Cap);
    assert [] + es == es;
  }

  /** Subscribing a new listener and calling the returned function restores the listener set. */
  lemma SubscribeUndone(lg: Logger, listener: ListenerId)
    requires listener !in lg.listeners
    ensures Unsubscribe(Subscribe(lg, listener).logger, listener) == lg
  {
    AddThenRemove(lg.listeners, listener);
  }

  /** The listeners a sequence of calls reaches, in call order. */
  function Recipients(ds: seq<Delivery>): (xs: seq<ListenerId>)
    ensures |xs| == |ds| && forall k :: 0 <= k < |ds| ==> xs[k] == ds[k].listener
  {
    if |ds| == 0 then [] else [ds[0].listener] + Recipients(ds[1..])
  }

  /**
   * After unsubscribing, an append reaches every other listener and no longer reaches that one.
   */
  lemma UnsubscribedHearsNothing(lg: Logger, listener: ListenerId, level: Level, message: string, now: int)
    ensures forall x ::
              x in Recipients(AddLog(Unsubscribe(lg, listener), level, message, now, None).delivered)
              <==> x in lg.listeners && x != listener
  {
    var u := Unsubscribe(lg, listener);
    var d := AddLog(u, level, message, now, None).delivered;
    assert Recipients(d) == u.listeners;
  }
}
