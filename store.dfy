/**
 * The relational store as the writers see it: the append-only `mqtt` event
 * table, the `things` table with one row per device and one column per
 * attribute, and a session whose writes stay pending until commit.
 */
module Store {
  import opened Wrappers
  import opened Serial

  /** A `things` row is addressed by `swd_imei` (legacy) or by `imei` (current). */
  datatype Key = Legacy(id: string) | Current(id: string)

  /** A `things` row: attribute cells that hold a value, `lastupdated`, `firstseen`. */
  datatype Row = Row(cells: map<string, string>, lastUpdated: int, firstSeen: Option<int>)

  /** An `mqtt` row, one field per column. */
  datatype Event = Event(timestamp: DateTime, imei: string, message: string, payload: string,
                         crc: string, env: string, topic: string)

  datatype Tables = Tables(events: seq<Event>, columns: set<string>, things: map<Key, Row>)

  /** The outcome of a statement that names an attribute column. */
  datatype Effect = Applied(tables: Tables) | MissingColumn

  function AppendEvent(t: Tables, e: Event): Tables {
    t.(events := t.events + [e])
  }

  /**
   * `main2.py`'s lookup: the `swd_imei` query first, and the `imei` query
   * only when it finds nothing.
   */
  function Resolve(t: Tables, id: string): (r: Option<Key>)
    ensures r == Some(Legacy(id)) <==> Legacy(id) in t.things
    ensures r == Some(Current(id)) <==> Legacy(id) !in t.things && Current(id) in t.things
    ensures r == None <==> Legacy(id) !in t.things && Current(id) !in t.things
  {
    if Legacy(id) in t.things then Some(Legacy(id))
    else if Current(id) in t.things then Some(Current(id))
    else None
  }

  /** A legacy match decides the lookup whatever the `imei` column holds. */
  lemma ResolveIgnoresCurrent(t: Tables, id: string, row: Row)
    requires Legacy(id) in t.things
    ensures Resolve(t.(things := t.things[Current(id) := row]), id) == Resolve(t, id)
    ensures Resolve(t.(things := t.things - {Current(id)}), id) == Resolve(t, id)
  {
    assert Legacy(id) in t.things[Current(id) := row];
    assert Legacy(id) in t.things - {Current(id)};
  }

  /**
   * `UPDATE things SET <attribute> = value, lastupdated = NOW() WHERE <key>`:
   * an error when the column does not exist, zero rows touched when no row
   * has the key.
   */
  function UpdateCell(t: Tables, key: Key, attribute: string, value: string, now: int): Effect {
    if attribute !in t.columns then MissingColumn
    else if key in t.things then
      var row := t.things[key];
      Applied(t.(things := t.things[key := row.(cells := row.cells[attribute := value], lastUpdated := now)]))
    else Applied(t)
  }

  /**
   * An update of an existing column changes the addressed row's attribute
   * cell and `lastupdated` and nothing else; without such a row it changes
   * nothing.
   */
  lemma UpdateCellMeaning(t: Tables, key: Key, attribute: string, value: string, now: int)
    ensures UpdateCell(t, key, attribute, value, now).MissingColumn? <==> attribute !in t.columns
    ensures match UpdateCell(t, key, attribute, value, now)
            case MissingColumn => true
            case Applied(u) =>
              && u.events == t.events && u.columns == t.columns
              && u.things.Keys == t.things.Keys
              && (forall k :: k in t.things && k != key ==> u.things[k] == t.things[k])
              && (key in t.things ==>
                    && u.things[key].cells[attribute] == value
                    && u.things[key].lastUpdated == now
                    && u.things[key].firstSeen == t.things[key].firstSeen
                    && (forall c :: c in t.things[key].cells && c != attribute ==>
                          c in u.things[key].cells && u.things[key].cells[c] == t.things[key].cells[c])
                    && u.things[key].cells.Keys == t.things[key].cells.Keys + {attribute})
              && (key !in t.things ==> u == t)
  {
  }

  /**
   * `INSERT INTO things (<key column>, <attribute>, lastupdated[, firstseen])`:
   * one new row holding only the attribute; `firstseen`, when written, is
   * the same `NOW()` as `lastupdated`.
   */
  function InsertRow(t: Tables, key: Key, attribute: string, value: string, now: int, withFirstSeen: bool): Effect {
    if attribute !in t.columns then MissingColumn
    else Applied(t.(things := t.things[key := Row(map[attribute := value], now,
                                                 if withFirstSeen then Some(now) else None)]))
  }

  /** An insert of an existing column adds exactly the one row and leaves every other row alone. */
  lemma InsertRowMeaning(t: Tables, key: Key, attribute: string, value: string, now: int, withFirstSeen: bool)
    requires key !in t.things
    ensures InsertRow(t, key, attribute, value, now, withFirstSeen).MissingColumn? <==> attribute !in t.columns
    ensures match InsertRow(t, key, attribute, value, now, withFirstSeen)
            case MissingColumn => true
            case Applied(u) =>
              && u.events == t.events && u.columns == t.columns
              && u.things.Keys == t.things.Keys + {key}
              && (forall k :: k in t.things ==> u.things[k] == t.things[k])
              && u.things[key].cells == map[attribute := value]
              && u.things[key].lastUpdated == now
              && (withFirstSeen <==> u.things[key].firstSeen == Some(now))
              && (!withFirstSeen <==> u.things[key].firstSeen == None)
  {
  }

  /** `ALTER TABLE things ADD COLUMN <name> TEXT`. */
  function AddColumn(t: Tables, name: string): Tables {
    t.(columns := t.columns + {name})
  }

  /**
   * The session: `committed` is what the database holds, `working` what the
   * session sees, including its own uncommitted writes.
   */
  datatype Db = Db(committed: Tables, working: Tables)

  function AfterCommit(db: Db): Db {
    Db(db.working, db.working)
  }

  function AfterRollback(db: Db): Db {
    Db(db.committed, db.committed)
  }

  /**
   * The session invariant the writers keep: uncommitted work only appends
   * events, and schema changes are committed at once.
   */
  predicate Coherent(db: Db) {
    db.committed.events <= db.working.events && db.committed.columns == db.working.columns
  }
}
