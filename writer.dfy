/**
 * The storage writer: the single context that drains the write queue and
 * owns the database session. The three entry scripts differ in how a device
 * is classified, when they commit, what column they add on an undefined
 * column, whether they send heartbeats, and whether a debug switch suppresses
 * writes; `Variant` names the script.
 */
module Writer {
  import opened Wrappers
  import opened Topics
  import opened Intake
  import opened Store
  import opened Heartbeat

  datatype Variant = Main2 | Main | MainBack

  /** The variant, the `DEBUG_MODE == "True"` switch, and `MQTT_ENV`. */
  datatype Config = Config(variant: Variant, debug: bool, env: string)

  /**
   * What the environment decides during one turn of the drain loop: the
   * clock (for the heartbeat, and the start of a transaction this turn
   * opens), whether some statement of the
   * message fails with an error other than an undefined column, whether the
   * `ALTER TABLE` fails for a reason other than its name, and whether the
   * heartbeat request fails.
   */
  datatype Tick = Tick(now: int, fault: bool, ddlFails: bool, beatFails: bool)

  /**
   * The writer's observable state. `stopped` is the status of the
   * `SystemExit` raised by `sys.exit` in the writer thread. The writer runs
   * as a daemon thread, so the exception ends that thread only: the process
   * does not exit, and the delivery context keeps queueing records that
   * nothing drains any more. `txStart` is the clock reading at which the
   * session's open transaction began, `None` when none is open: the session
   * is not in autocommit mode, so the first statement after a commit or a
   * rollback opens one, and PostgreSQL's `NOW()` reports its start for every
   * statement in it.
   */
  datatype WriterState = WriterState(db: Db, beats: Beats, stopped: Option<int>, txStart: Option<int>)

  /** The value of `NOW()` for the statements of this turn. */
  function StatementTime(w: WriterState, tick: Tick): int {
    if w.txStart.Some? then w.txStart.value else tick.now
  }

  /** The `mqtt` row a queued message becomes. */
  function EventOf(cfg: Config, m: Queued): Event {
    Event(m.time, m.device, m.topic, m.payload, m.fingerprint, cfg.env, Attribute(m.topic))
  }

  function EventsOf(cfg: Config, ms: seq<Queued>): seq<Event> {
    if ms == [] then [] else [EventOf(cfg, ms[0])] + EventsOf(cfg, ms[1..])
  }

  // ---- one message, per script ----

  /**
   * `main2.py`'s `process_message`: the event row, then the legacy-first
   * lookup, then an update of a known device (skipped in debug mode) or a
   * row with `firstseen` for an unknown one unless the attribute is
   * denylisted.
   */
  function ProcessMain2(cfg: Config, t: Tables, m: Queued, now: int): Effect {
    var attribute := Attribute(m.topic);
    var t1 := AppendEvent(t, EventOf(cfg, m));
    match Resolve(t1, m.device)
    case Some(key) => if cfg.debug then Applied(t1) else UpdateCell(t1, key, attribute, m.payload, now)
    case None =>
      if Denylisted(attribute) then Applied(t1)
      else InsertRow(t1, Current(m.device), attribute, m.payload, now, true)
  }

  /**
   * `main.py`: the attribute name alone decides legacy or current, a single
   * lookup on that column decides update or insert, and a new row has no
   * `firstseen`.
   */
  function ProcessMain(cfg: Config, t: Tables, m: Queued, now: int): Effect {
    var attribute := Attribute(m.topic);
    var key := if LegacyNamed(attribute) then Legacy(m.device) else Current(m.device);
    var t1 := AppendEvent(t, EventOf(cfg, m));
    if key in t1.things then UpdateCell(t1, key, attribute, m.payload, now)
    else if Denylisted(attribute) then Applied(t1)
    else InsertRow(t1, key, attribute, m.payload, now, false)
  }

  /**
   * `mainback.py`: a single `swd_imei` lookup makes the device "old" or
   * "swx", so the update always runs and the insert branch is dead; in debug
   * mode neither the event row nor the update is executed.
   */
  function ProcessBack(cfg: Config, t: Tables, m: Queued, now: int): Effect {
    var attribute := Attribute(m.topic);
    var t1 := if cfg.debug then t else AppendEvent(t, EventOf(cfg, m));
    var key := if Legacy(m.device) in t1.things then Legacy(m.device) else Current(m.device);
    if cfg.debug then Applied(t1) else UpdateCell(t1, key, attribute, m.payload, now)
  }

  function Process(cfg: Config, t: Tables, m: Queued, now: int): Effect {
    match cfg.variant
    case Main2 => ProcessMain2(cfg, t, m, now)
    case Main => ProcessMain(cfg, t, m, now)
    case MainBack => ProcessBack(cfg, t, m, now)
  }

  /** The column the undefined-column handler adds: the whole topic in `main2.py`. */
  function DdlName(cfg: Config, m: Queued): string {
    if cfg.variant == Main2 then m.topic else Attribute(m.topic)
  }

  /**
   * Whether `ALTER TABLE things ADD COLUMN <name> TEXT` fails. An unquoted
   * name holding `/` is a syntax error; anything else is up to the database.
   */
  predicate DdlFails(name: string, ddlFails: bool) {
    '/' in name || ddlFails
  }

  /**
   * Everything the writer does with one dequeued message. Its statements run
   * in the open transaction, or open one; a commit or a rollback closes it,
   * and a failing `ALTER TABLE` leaves the one it opened.
   */
  function Step(cfg: Config, w: WriterState, m: Queued, tick: Tick): WriterState {
    var now := StatementTime(w, tick);
    if tick.fault then
      if cfg.variant == Main2 then w.(db := AfterRollback(w.db), stopped := Some(1), txStart := None)
      else w.(stopped := Some(1), txStart := Some(now))
    else match Process(cfg, w.db.working, m, now)
      case Applied(t) =>
        if cfg.variant == Main2 then w.(db := Db(t, t), txStart := None)
        else w.(db := Db(w.db.committed, t), txStart := Some(now))
      case MissingColumn =>
        var back := AfterRollback(w.db);
        var name := DdlName(cfg, m);
        if cfg.variant == MainBack && cfg.debug then w.(db := back, txStart := None)
        else if DdlFails(name, tick.ddlFails) then w.(db := back, stopped := Some(1), txStart := Some(tick.now))
        else
          var t := AddColumn(back.committed, name);
          w.(db := Db(t, t), txStart := None)
  }

  /** The heartbeat check that precedes every dequeue attempt. */
  function Beat(cfg: Config, w: WriterState, tick: Tick): WriterState {
    match cfg.variant
    case Main => w
    case Main2 => w.(beats := Attempt(w.beats, tick.now, tick.beatFails, true).0)
    case MainBack =>
      if cfg.debug then w
      else
        var (b, raised) := Attempt(w.beats, tick.now, tick.beatFails, false);
        w.(beats := b, stopped := if raised then Some(1) else w.stopped)
  }

  /**
   * Finding the queue empty: `main.py` and `mainback.py` commit the batch,
   * `main2.py` blocks in `get` and does nothing.
   */
  function EndOfQueue(cfg: Config, w: WriterState): WriterState {
    if cfg.variant == Main2 then w else w.(db := AfterCommit(w.db), txStart := None)
  }

  /**
   * One pass of the drain loop over the records queued now, from turn `i`
   * on: the final state and the records left unread when the writer stops.
   */
  function Drain(cfg: Config, w: WriterState, items: seq<Queued>, env: nat -> Tick, i: nat): (WriterState, seq<Queued>)
    decreases |items|
  {
    if w.stopped.Some? then (w, items)
    else
      var w1 := Beat(cfg, w, env(i));
      if w1.stopped.Some? then (w1, items)
      else if items == [] then (EndOfQueue(cfg, w1), [])
      else Drain(cfg, Step(cfg, w1, items[0], env(i)), items[1..], env, i + 1)
  }

  /**
   * The writer thread: the database session (`conn`) and the `SystemExit` status it
   * ended with; the heartbeat monitor is the global it shares.
   */
  class StorageWriter {
    const config: Config
    const monitor: HeartbeatMonitor
    var db: Db
    var stopped: Option<int>
    var txStart: Option<int>

    constructor (config: Config, monitor: HeartbeatMonitor, start: Tables)
      ensures this.config == config && this.monitor == monitor
      ensures db == Db(start, start) && stopped == None && txStart == None
    {
      this.config := config;
      this.monitor := monitor;
      db := Db(start, start);
      stopped := None;
      txStart := None;
    }

    function State(): WriterState
      reads this, monitor
    {
      WriterState(db, monitor.Snapshot(), stopped, txStart)
    }

    /** `conn.commit()`. */
    method Commit()
      modifies this
      ensures db == AfterCommit(old(db)) && stopped == old(stopped) && txStart == None
    {
      db := Db(db.working, db.working);
      txStart := None;
    }

    /** `conn.rollback()`. */
    method Rollback()
      modifies this
      ensures db == AfterRollback(old(db)) && stopped == old(stopped) && txStart == None
    {
      db := Db(db.committed, db.committed);
      txStart := None;
    }

    /** The heartbeat check at the top of the drain loop. */
    method HeartbeatTurn(tick: Tick)
      modifies monitor, this
      ensures State() == Beat(config, old(State()), tick)
    {
      match config.variant
      case Main =>
      case Main2 =>
        var _ := monitor.CheckAndSend(tick.now, tick.beatFails, true);
      case MainBack =>
        if !config.debug {
          var raised := monitor.CheckAndSend(tick.now, tick.beatFails, false);
          if raised {
            stopped := Some(1);
          }
        }
    }

    /**
     * The body of the inner `try` and its handlers for one dequeued message:
     * the statements, then a commit (`main2.py`), a rollback and the column
     * the undefined-column handler adds, or `sys.exit(1)`, which stops the writer thread.
     */
    method Handle(m: Queued, tick: Tick)
      modifies this
      ensures State() == Step(config, old(State()), m, tick)
    {
      var now := if txStart.Some? then txStart.value else tick.now;
      txStart := Some(now);
      if tick.fault {
        if config.variant == Main2 {
          Rollback();
        }
        stopped := Some(1);
        return;
      }
      match Process(config, db.working, m, now)
      case Applied(t) =>
        db := db.(working := t);
        if config.variant == Main2 {
          Commit();
        }
      case MissingColumn =>
        Rollback();
        if config.variant == MainBack && config.debug {
          return;
        }
        var name := DdlName(config, m);
        if DdlFails(name, tick.ddlFails) {
          txStart := Some(tick.now);
          stopped := Some(1);
          return;
        }
        db := db.(working := AddColumn(db.working, name));
        Commit();
    }

    /**
     * `write_to_database` over the records queued now: heartbeat, dequeue,
     * handle, until the queue is found empty or the writer thread stops.
     */
    method Run(queue: WriteQueue, env: nat -> Tick)
      modifies this, monitor, queue
      ensures (State(), queue.items) == Drain(config, old(State()), old(queue.items), env, 0)
    {
      var i: nat := 0;
      var done := false;
      while !done
        invariant done ==> (State(), queue.items) == Drain(config, old(State()), old(queue.items), env, 0)
        invariant !done ==> Drain(config, State(), queue.items, env, i) == Drain(config, old(State()), old(queue.items), env, 0)
        decreases |queue.items| + (if done then 0 else 1)
      {
        if stopped.Some? {
          done := true;
        } else {
          HeartbeatTurn(env(i));
          if stopped.Some? {
            done := true;
          } else {
            var next := queue.TryGet();
            match next
            case None =>
              if config.variant != Main2 {
                Commit();
              }
              done := true;
            case Some(m) =>
              Handle(m, env(i));
              i := i + 1;
          }
        }
      }
    }
  }
}
