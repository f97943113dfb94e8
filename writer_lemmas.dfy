/** What the three storage writers guarantee, proved on the drain specification. */
module WriterLemmas {
  import opened Wrappers
  import opened Topics
  import opened Intake
  import opened Store
  import opened Heartbeat
  import opened Writer

  // ---- one message ----

  /**
   * A processed message adds exactly its own event row at the end of the
   * table and never changes the schema; only `mainback.py` in debug mode
   * writes nothing at all.
   */
  lemma ProcessEvent(cfg: Config, t: Tables, m: Queued, now: int)
    ensures match Process(cfg, t, m, now)
            case MissingColumn => Attribute(m.topic) !in t.columns
            case Applied(u) =>
              && u.columns == t.columns
              && (cfg.variant == MainBack && cfg.debug ==> u == t)
              && (!(cfg.variant == MainBack && cfg.debug) ==> u.events == t.events + [EventOf(cfg, m)])
  {
    var t1 := AppendEvent(t, EventOf(cfg, m));
    var attribute := Attribute(m.topic);
    if cfg.variant == Main2 {
      match Resolve(t1, m.device)
      case Some(key) => UpdateCellMeaning(t1, key, attribute, m.payload, now);
      case None =>
        if !Denylisted(attribute) {
          InsertRowMeaning(t1, Current(m.device), attribute, m.payload, now, true);
        }
    } else if cfg.variant == Main {
      var key := if LegacyNamed(attribute) then Legacy(m.device) else Current(m.device);
      if key in t1.things {
        UpdateCellMeaning(t1, key, attribute, m.payload, now);
      } else if !Denylisted(attribute) {
        InsertRowMeaning(t1, key, attribute, m.payload, now, false);
      }
    } else if !cfg.debug {
      var key := if Legacy(m.device) in t1.things then Legacy(m.device) else Current(m.device);
      UpdateCellMeaning(t1, key, attribute, m.payload, now);
    }
  }

  /** A handled message keeps the session coherent and never loses committed events or columns. */
  lemma StepKeepsHistory(cfg: Config, w: WriterState, m: Queued, tick: Tick)
    requires Coherent(w.db)
    ensures var r := Step(cfg, w, m, tick);
            && Coherent(r.db)
            && w.db.committed.events <= r.db.committed.events
            && w.db.committed.columns <= r.db.committed.columns
  {
    if !tick.fault {
      ProcessEvent(cfg, w.db.working, m, StatementTime(w, tick));
    }
  }

  /**
   * Over a whole pass the committed event table only grows at the end and
   * columns are never dropped: an undefined column discards uncommitted rows
   * but never committed ones.
   */
  lemma {:induction false} DrainKeepsHistory(cfg: Config, w: WriterState, items: seq<Queued>, env: nat -> Tick, i: nat)
    requires Coherent(w.db)
    ensures var r := Drain(cfg, w, items, env, i).0;
            && Coherent(r.db)
            && w.db.committed.events <= r.db.committed.events
            && w.db.committed.columns <= r.db.committed.columns
    decreases |items|
  {
    if w.stopped.None? {
      var w1 := Beat(cfg, w, env(i));
      if w1.stopped.None? && items != [] {
        var w2 := Step(cfg, w1, items[0], env(i));
        StepKeepsHistory(cfg, w1, items[0], env(i));
        DrainKeepsHistory(cfg, w2, items[1..], env, i + 1);
      }
    }
  }

  // ---- main2.py ----

  /**
   * `main2.py` commits each message on its own: after every message the
   * session has nothing pending; a message that completes commits exactly
   * what its statements wrote (its event row and its `things` change) and
   * closes the transaction, and any other error rolls it back and stops the writer thread
   * (`sys.exit(1)` there raises `SystemExit` in that thread only).
   */
  lemma Main2Message(cfg: Config, w: WriterState, m: Queued, tick: Tick)
    requires cfg.variant == Main2 && w.stopped.None?
    requires w.db.committed == w.db.working
    ensures var r := Step(cfg, w, m, tick);
            && r.db.committed == r.db.working
            && (tick.fault ==> r.stopped == Some(1) && r.db.committed == w.db.committed)
            && (!tick.fault && Process(cfg, w.db.working, m, StatementTime(w, tick)).Applied? ==>
                  r.stopped.None? && r.txStart.None?
                  && r.db.committed == Process(cfg, w.db.working, m, StatementTime(w, tick)).tables
                  && r.db.committed.events == w.db.committed.events + [EventOf(cfg, m)])
            && (!tick.fault && Process(cfg, w.db.working, m, StatementTime(w, tick)).MissingColumn? ==>
                  r.db.committed.events == w.db.committed.events
                  && r.db.committed.things == w.db.committed.things)
  {
    if !tick.fault {
      ProcessEvent(cfg, w.db.working, m, StatementTime(w, tick));
    }
  }

  /**
   * In `main2.py` an attribute without a column is fatal whenever a
   * statement names it: the handler adds a column named after the whole
   * topic, which always holds `/`, so the `ALTER TABLE` fails and the writer
   * thread stops, with the message rolled back.
   */
  lemma Main2NewAttributeStops(cfg: Config, w: WriterState, m: Queued, tick: Tick)
    requires cfg.variant == Main2 && !tick.fault
    requires '/' in m.topic
    requires Attribute(m.topic) !in w.db.working.columns
    requires Resolve(w.db.working, m.device).Some? ==> !cfg.debug
    requires Resolve(w.db.working, m.device).None? ==> !Denylisted(Attribute(m.topic))
    ensures Step(cfg, w, m, tick).stopped == Some(1)
    ensures Step(cfg, w, m, tick).db == AfterRollback(w.db)
  {
    var t1 := AppendEvent(w.db.working, EventOf(cfg, m));
    assert Resolve(t1, m.device) == Resolve(w.db.working, m.device);
    assert Process(cfg, w.db.working, m, StatementTime(w, tick)).MissingColumn?;
  }

  /**
   * `main2.py` resolves legacy first and, for a device it does not know,
   * creates exactly one current row holding the attribute with `firstseen`
   * equal to `lastupdated`, unless the attribute is denylisted.
   */
  lemma Main2NewDevice(cfg: Config, t: Tables, m: Queued, now: int)
    requires cfg.variant == Main2
    requires Legacy(m.device) !in t.things && Current(m.device) !in t.things
    requires Attribute(m.topic) in t.columns
    ensures Process(cfg, t, m, now).Applied?
    ensures var u := Process(cfg, t, m, now).tables;
            && (Denylisted(Attribute(m.topic)) ==> u.things == t.things)
            && (!Denylisted(Attribute(m.topic)) ==>
                  && u.things.Keys == t.things.Keys + {Current(m.device)}
                  && (forall k :: k in t.things ==> u.things[k] == t.things[k])
                  && u.things[Current(m.device)].cells == map[Attribute(m.topic) := m.payload]
                  && u.things[Current(m.device)].lastUpdated == now
                  && u.things[Current(m.device)].firstSeen == Some(now))
  {
    var t1 := AppendEvent(t, EventOf(cfg, m));
    assert Resolve(t1, m.device).None?;
    if !Denylisted(Attribute(m.topic)) {
      InsertRowMeaning(t1, Current(m.device), Attribute(m.topic), m.payload, now, true);
    }
  }

  /**
   * `main2.py` updates a known device through the key the legacy-first
   * lookup found: only that row's attribute cell and `lastupdated` change,
   * and in debug mode nothing changes.
   */
  lemma Main2KnownDevice(cfg: Config, t: Tables, m: Queued, now: int)
    requires cfg.variant == Main2
    requires Resolve(t, m.device).Some?
    requires Attribute(m.topic) in t.columns
    ensures Process(cfg, t, m, now).Applied?
    ensures var u := Process(cfg, t, m, now).tables;
            var key := Resolve(t, m.device).value;
            && u.things.Keys == t.things.Keys
            && (forall k :: k in t.things && k != key ==> u.things[k] == t.things[k])
            && (cfg.debug ==> u.things == t.things)
            && (!cfg.debug ==>
                  && u.things[key].cells == t.things[key].cells[Attribute(m.topic) := m.payload]
                  && u.things[key].lastUpdated == now
                  && u.things[key].firstSeen == t.things[key].firstSeen)
  {
    var t1 := AppendEvent(t, EventOf(cfg, m));
    assert Resolve(t1, m.device) == Resolve(t, m.device);
    if !cfg.debug {
      UpdateCellMeaning(t1, Resolve(t, m.device).value, Attribute(m.topic), m.payload, now);
    }
  }

  // ---- main.py ----

  /**
   * `main.py` classifies by the attribute name alone: the device is looked up
   * under `swd_imei` exactly when the attribute contains "swc", "swd" or
   * "mqtt_". A found row gets the attribute and `lastupdated` and keeps its
   * other cells and `firstseen`; otherwise a non-denylisted attribute creates
   * one row without `firstseen`.
   */
  lemma MainMessage(cfg: Config, t: Tables, m: Queued, now: int)
    requires cfg.variant == Main
    requires Attribute(m.topic) in t.columns
    ensures Process(cfg, t, m, now).Applied?
    ensures var u := Process(cfg, t, m, now).tables;
            var a := Attribute(m.topic);
            var key := if LegacyNamed(a) then Legacy(m.device) else Current(m.device);
            && (forall k :: k in t.things && k != key ==> k in u.things && u.things[k] == t.things[k])
            && (key in t.things ==>
                  && u.things.Keys == t.things.Keys
                  && u.things[key].cells == t.things[key].cells[a := m.payload]
                  && u.things[key].lastUpdated == now
                  && u.things[key].firstSeen == t.things[key].firstSeen)
            && (key !in t.things && Denylisted(a) ==> u.things == t.things)
            && (key !in t.things && !Denylisted(a) ==>
                  && u.things.Keys == t.things.Keys + {key}
                  && u.things[key] == Row(map[a := m.payload], now, None))
  {
    var a := Attribute(m.topic);
    var key := if LegacyNamed(a) then Legacy(m.device) else Current(m.device);
    var t1 := AppendEvent(t, EventOf(cfg, m));
    if key in t.things {
      UpdateCellMeaning(t1, key, a, m.payload, now);
    } else if !Denylisted(a) {
      InsertRowMeaning(t1, key, a, m.payload, now, false);
    }
  }

  // ---- main.py and mainback.py ----

  /**
   * `main.py` and `mainback.py` commit only when they find the queue empty:
   * a message that completes leaves the database as it was and only adds to
   * the session's pending work, and finding the queue empty commits all of it.
   * The transaction stays open, so a later message of the same batch, on any
   * later turn, sees the same `NOW()`; after the commit the next statement
   * opens a new transaction.
   */
  lemma BatchDefersCommit(cfg: Config, w: WriterState, m: Queued, tick: Tick, later: Tick)
    requires cfg.variant != Main2 && !tick.fault
    requires Process(cfg, w.db.working, m, StatementTime(w, tick)).Applied?
    ensures var r := Step(cfg, w, m, tick);
            && r.db.committed == w.db.committed
            && r.db.working == Process(cfg, w.db.working, m, StatementTime(w, tick)).tables
            && r.stopped == w.stopped
            && StatementTime(r, later) == StatementTime(w, tick)
    ensures EndOfQueue(cfg, w).db == Db(w.db.working, w.db.working)
    ensures StatementTime(EndOfQueue(cfg, w), later) == later.now
  {
  }

  /**
   * In `main.py`, and in `mainback.py` outside debug mode, an undefined
   * column rolls back the whole uncommitted batch, earlier messages' event
   * rows included, then commits the new column named by the attribute, or
   * stops the writer thread when the `ALTER TABLE` fails.
   */
  lemma BatchUndefinedColumn(cfg: Config, w: WriterState, m: Queued, tick: Tick)
    requires cfg.variant != Main2 && !(cfg.variant == MainBack && cfg.debug)
    requires !tick.fault && w.stopped.None?
    requires Process(cfg, w.db.working, m, StatementTime(w, tick)).MissingColumn?
    ensures var r := Step(cfg, w, m, tick);
            && r.db.committed == r.db.working
            && r.db.committed.events == w.db.committed.events
            && r.db.committed.things == w.db.committed.things
            && (DdlFails(Attribute(m.topic), tick.ddlFails) ==>
                  r.stopped == Some(1) && r.db.committed.columns == w.db.committed.columns)
            && (!DdlFails(Attribute(m.topic), tick.ddlFails) ==>
                  r.stopped.None? && r.db.committed.columns == w.db.committed.columns + {Attribute(m.topic)})
  {
  }

  // ---- mainback.py ----

  /**
   * In `mainback.py` the lookup always yields "old" or "swx", so the row
   * creation branch is dead: a message never adds a `things` row, and the
   * update is keyed on `swd_imei` exactly when a legacy row exists. Outside
   * debug mode the row the lookup finds gets the attribute and `lastupdated`
   * and keeps its other cells and `firstseen`; with no row nothing changes.
   */
  lemma BackNeverInserts(cfg: Config, t: Tables, m: Queued, now: int)
    requires cfg.variant == MainBack
    ensures match Process(cfg, t, m, now)
            case MissingColumn => true
            case Applied(u) =>
              && u.things.Keys == t.things.Keys
              && (forall k :: k in t.things && k != Legacy(m.device) && k != Current(m.device) ==>
                    u.things[k] == t.things[k])
              && (Legacy(m.device) in t.things && Current(m.device) in t.things ==>
                    u.things[Current(m.device)] == t.things[Current(m.device)])
              && (cfg.debug || Resolve(t, m.device).None? ==> u.things == t.things)
              && (!cfg.debug && Resolve(t, m.device).Some? ==>
                    var key := Resolve(t, m.device).value;
                    && u.things[key].cells == t.things[key].cells[Attribute(m.topic) := m.payload]
                    && u.things[key].lastUpdated == now
                    && u.things[key].firstSeen == t.things[key].firstSeen)
  {
    if !cfg.debug {
      var t1 := AppendEvent(t, EventOf(cfg, m));
      var key := if Legacy(m.device) in t1.things then Legacy(m.device) else Current(m.device);
      UpdateCellMeaning(t1, key, Attribute(m.topic), m.payload, now);
    }
  }

  /** Over a whole pass `mainback.py` never adds a `things` row. */
  lemma {:induction false} BackDrainNeverInserts(cfg: Config, w: WriterState, items: seq<Queued>, env: nat -> Tick, i: nat)
    requires cfg.variant == MainBack
    requires w.db.committed.things.Keys == w.db.working.things.Keys
    ensures var r := Drain(cfg, w, items, env, i).0;
            && r.db.committed.things.Keys == w.db.committed.things.Keys
            && r.db.working.things.Keys == w.db.committed.things.Keys
    decreases |items|
  {
    if w.stopped.None? {
      var w1 := Beat(cfg, w, env(i));
      if w1.stopped.None? && items != [] {
        BackNeverInserts(cfg, w1.db.working, items[0], StatementTime(w1, env(i)));
        var w2 := Step(cfg, w1, items[0], env(i));
        BackDrainNeverInserts(cfg, w2, items[1..], env, i + 1);
      }
    }
  }

  /**
   * In debug mode `mainback.py` executes no INSERT, UPDATE or ALTER and
   * sends no heartbeat: a pass leaves the database and the heartbeat state as
   * they were.
   */
  lemma {:induction false} BackDebugWritesNothing(cfg: Config, w: WriterState, items: seq<Queued>, env: nat -> Tick, i: nat)
    requires cfg.variant == MainBack && cfg.debug
    requires w.db.committed == w.db.working
    ensures var r := Drain(cfg, w, items, env, i).0;
            r.db == w.db && r.beats == w.beats
    decreases |items|
  {
    if w.stopped.None? && items != [] {
      var w2 := Step(cfg, w, items[0], env(i));
      assert w2.db == w.db;
      BackDebugWritesNothing(cfg, w2, items[1..], env, i + 1);
    }
  }

  // ---- all three ----

  /**
   * Once the writer thread has stopped, a pass reads nothing: every record
   * stays in the queue and the session is left as it was, while the
   * delivery context goes on queueing.
   */
  lemma StoppedDrainsNothing(cfg: Config, w: WriterState, items: seq<Queued>, env: nat -> Tick, i: nat)
    requires w.stopped.Some?
    ensures Drain(cfg, w, items, env, i) == (w, items)
  {
  }

  /** Every attribute of `items` already has a column. */
  predicate KnownAttributes(items: seq<Queued>, columns: set<string>) {
    forall k :: 0 <= k < |items| ==> Attribute(items[k].topic) in columns
  }

  /** No statement error and no heartbeat failure in turns `i` to `i + n`. */
  predicate Calm(env: nat -> Tick, i: nat, n: nat) {
    forall k: nat :: i <= k <= i + n ==> !env(k).fault && !env(k).beatFails
  }

  /** A turn without a heartbeat failure leaves the session and the stop status alone. */
  lemma CalmBeat(cfg: Config, w: WriterState, tick: Tick)
    requires !tick.beatFails
    ensures Beat(cfg, w, tick).db == w.db && Beat(cfg, w, tick).stopped == w.stopped
  {
  }

  /**
   * A calm turn on a message whose attribute has a column: the writer stays
   * up and the session gains exactly that message's event row.
   */
  lemma CalmStep(cfg: Config, w: WriterState, m: Queued, tick: Tick)
    requires !(cfg.variant == MainBack && cfg.debug)
    requires w.stopped.None? && !tick.fault
    requires cfg.variant == Main2 ==> w.db.committed == w.db.working
    requires Attribute(m.topic) in w.db.working.columns
    ensures var r := Step(cfg, w, m, tick);
            && r.stopped.None?
            && r.db.working.events == w.db.working.events + [EventOf(cfg, m)]
            && r.db.working.columns == w.db.working.columns
            && (cfg.variant == Main2 ==> r.db.committed == r.db.working)
  {
    ProcessEvent(cfg, w.db.working, m, StatementTime(w, tick));
  }

  lemma KnownTail(items: seq<Queued>, columns: set<string>)
    requires items != [] && KnownAttributes(items, columns)
    ensures Attribute(items[0].topic) in columns
    ensures KnownAttributes(items[1..], columns)
  {
    forall k | 0 <= k < |items[1..]|
      ensures Attribute(items[1..][k].topic) in columns
    {
      assert items[1..][k] == items[k + 1];
    }
  }

  lemma CalmTail(env: nat -> Tick, i: nat, n: nat)
    requires Calm(env, i, n + 1)
    ensures !env(i).fault && !env(i).beatFails
    ensures Calm(env, i + 1, n)
  {
  }

  /** One turn of a running pass that dequeues a record. */
  lemma DrainTurn(cfg: Config, w: WriterState, items: seq<Queued>, env: nat -> Tick, i: nat)
    requires w.stopped.None? && items != [] && Beat(cfg, w, env(i)).stopped.None?
    ensures Drain(cfg, w, items, env, i)
         == Drain(cfg, Step(cfg, Beat(cfg, w, env(i)), items[0], env(i)), items[1..], env, i + 1)
  {
  }

  /**
   * The queue is first in, first out: when nothing fails and every attribute
   * has a column, a pass reads every record, its event rows follow the
   * queue order, and everything ends committed with the writer still running.
   */
  lemma {:induction false} DrainInOrder(cfg: Config, w: WriterState, items: seq<Queued>, env: nat -> Tick, i: nat)
    requires !(cfg.variant == MainBack && cfg.debug)
    requires w.stopped.None?
    requires cfg.variant == Main2 ==> w.db.committed == w.db.working
    requires KnownAttributes(items, w.db.working.columns)
    requires Calm(env, i, |items|)
    ensures Drain(cfg, w, items, env, i).1 == []
    ensures var r := Drain(cfg, w, items, env, i).0;
            && r.stopped.None?
            && r.db.committed == r.db.working
            && r.db.committed.events == w.db.working.events + EventsOf(cfg, items)
            && r.db.committed.columns == w.db.working.columns
    decreases |items|
  {
    var tick := env(i);
    if items == [] {
      assert !tick.fault && !tick.beatFails;
      CalmBeat(cfg, w, tick);
    } else {
      CalmTail(env, i, |items| - 1);
      CalmBeat(cfg, w, tick);
      var w1 := Beat(cfg, w, tick);
      var m := items[0];
      KnownTail(items, w.db.working.columns);
      CalmStep(cfg, w1, m, tick);
      var w2 := Step(cfg, w1, m, tick);
      DrainTurn(cfg, w, items, env, i);
      DrainInOrder(cfg, w2, items[1..], env, i + 1);
      var e := EventOf(cfg, m);
      assert EventsOf(cfg, items) == [e] + EventsOf(cfg, items[1..]);
      assert (w.db.working.events + [e]) + EventsOf(cfg, items[1..])
          == w.db.working.events + ([e] + EventsOf(cfg, items[1..]));
    }
  }

  /** Consecutive requests at least `Interval` seconds apart. */
  predicate Apart(sent: seq<int>) {
    forall k :: 0 < k < |sent| ==> sent[k] - sent[k - 1] >= Interval
  }

  /**
   * Heartbeat requests made during a pass stay at least `Interval` seconds
   * apart, including the one whose failure stops `mainback.py`'s writer thread.
   */

  lemma {:induction false} DrainKeepsSpacing(cfg: Config, w: WriterState, items: seq<Queued>, env: nat -> Tick, i: nat)
    requires Spaced(w.beats)
    ensures Apart(Drain(cfg, w, items, env, i).0.beats.sent)
    decreases |items|
  {
    if w.stopped.None? {
      var w1 := Beat(cfg, w, env(i));
      var tick := env(i);
      if cfg.variant == Main2 {
        AttemptKeepsSpaced(w.beats, tick.now, tick.beatFails, true);
      } else if cfg.variant == MainBack && !cfg.debug {
        var (b, raised) := Attempt(w.beats, tick.now, tick.beatFails, false);
        if raised {
          forall k | 0 < k < |b.sent|
            ensures b.sent[k] - b.sent[k - 1] >= Interval
          {
            if k < |w.beats.sent| {
              assert b.sent[k] == w.beats.sent[k] && b.sent[k - 1] == w.beats.sent[k - 1];
            }
          }
        } else {
          AttemptKeepsSpaced(w.beats, tick.now, tick.beatFails, false);
        }
      }
      if w1.stopped.None? && items != [] {
        DrainKeepsSpacing(cfg, Step(cfg, w1, items[0], tick), items[1..], env, i + 1);
      }
    }
  }
}
