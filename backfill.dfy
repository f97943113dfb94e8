/**
 * `create_crc.py`: rewrites every event whose fingerprint is shorter than
 * 10 characters with a fresh 40-character one, a batch of `select_size` rows
 * at a time, until the selection comes back empty.
 */
module Backfill {
  import opened Wrappers
  import opened Utf8
  import opened Crc32
  import opened Serial
  import opened Intake
  import opened Store

  // ---- the batch size argument ----

  /** `int(s)` for an optional sign followed by ASCII digits; `None` where it raises. */
  function ParseInt(s: string): Option<int> {
    if s != [] && (s[0] == '-' || s[0] == '+') then
      var digits := s[1..];
      if digits != [] && IsDigits(digits) then
        var v: int := ValueOf(digits);
        Some(if s[0] == '-' then -v else v)
      else None
    else if s != [] && IsDigits(s) then Some(ValueOf(s))
    else None
  }

  /** The shortest decimal digits of `n`. */
  function Digits(n: nat): (r: string)
    ensures r != [] && IsDigits(r)
  {
    if n < 10 then [DigitChar(n)] else Digits(n / 10) + [DigitChar(n % 10)]
  }

  /** `str(n)`. */
  function Show(n: int): string {
    if n < 0 then "-" + Digits(-n) else Digits(n)
  }

  lemma {:induction false} ValueOfDigits(n: nat)
    ensures ValueOf(Digits(n)) == n
  {
    if n >= 10 {
      var d := Digits(n);
      ValueOfDigits(n / 10);
      assert d[..|d| - 1] == Digits(n / 10);
    }
  }

  /** `int(str(n)) == n`. */
  lemma ParseShow(n: int)
    ensures ParseInt(Show(n)) == Some(n)
  {
    if n < 0 {
      ValueOfDigits(-n);
      assert Show(n)[1..] == Digits(-n);
    } else {
      ValueOfDigits(n);
    }
  }

  /** Batch size when no argument is given. */
  const DefaultSelectSize: int := 1000

  /**
   * The command-line loop: every argument is converted in turn, so one that
   * is not an integer aborts the script (`None`), and the last one wins.
   */
  method SelectSize(args: seq<string>) returns (size: Option<int>)
    ensures args == [] ==> size == Some(DefaultSelectSize)
    ensures args != [] ==> (size.Some? <==> forall k :: 0 <= k < |args| ==> ParseInt(args[k]).Some?)
    ensures args != [] && size.Some? ==> size == ParseInt(args[|args| - 1])
  {
    if |args| == 0 {
      return Some(DefaultSelectSize);
    }
    var current := 0;
    for i := 0 to |args|
      invariant forall k :: 0 <= k < i ==> ParseInt(args[k]).Some?
      invariant i > 0 ==> ParseInt(args[i - 1]) == Some(current)
    {
      match ParseInt(args[i])
      case None =>
        return None;
      case Some(v) =>
        current := v;
    }
    size := Some(current);
  }

  // ---- the event table ----

  /** The row selection `length(crc) < 10`. */
  predicate Short(e: Event) {
    |e.crc| < 10
  }

  function ShortCount(rows: seq<Event>): nat {
    if rows == [] then 0 else (if Short(rows[0]) then 1 else 0) + ShortCount(rows[1..])
  }

  /**
   * `SELECT ... WHERE length(crc) < 10 LIMIT n`: the first `n` short rows in
   * table order, each row at most once.
   */
  function Selected(rows: seq<Event>, limit: nat): (r: seq<Event>)
    ensures |r| == if limit < ShortCount(rows) then limit else ShortCount(rows)
    ensures forall k :: 0 <= k < |r| ==> Short(r[k]) && r[k] in rows
    ensures multiset(r) <= multiset(rows)
    ensures r == [] <==> limit == 0 || ShortCount(rows) == 0
  {
    if rows == [] || limit == 0 then []
    else
      assert rows == [rows[0]] + rows[1..];
      if Short(rows[0]) then [rows[0]] + Selected(rows[1..], limit - 1)
      else Selected(rows[1..], limit)
  }

  /** The `WHERE imei = ... AND timestamp = ... AND message = ...` of the rewrite. */
  predicate SameKey(a: Event, b: Event) {
    a.imei == b.imei && a.timestamp == b.timestamp && a.message == b.message
  }

  /** `UPDATE mqtt SET crc = ..., env = ...` on every row with the key of `key`. */
  function Rekey(rows: seq<Event>, key: Event, crc: string, env: string): (r: seq<Event>)
    ensures |r| == |rows|
    ensures forall k :: 0 <= k < |rows| ==>
              r[k] == (if SameKey(rows[k], key) then rows[k].(crc := crc, env := env) else rows[k])
  {
    if rows == [] then []
    else [if SameKey(rows[0], key) then rows[0].(crc := crc, env := env) else rows[0]]
         + Rekey(rows[1..], key, crc, env)
  }

  /**
   * A rewrite with a long fingerprint never adds a short row, and removes at
   * least one when some short row has the key.
   */
  lemma {:induction false} RekeyShortCount(rows: seq<Event>, key: Event, crc: string, env: string)
    requires |crc| >= 10
    ensures ShortCount(Rekey(rows, key, crc, env)) <= ShortCount(rows)
    ensures (exists k :: 0 <= k < |rows| && Short(rows[k]) && SameKey(rows[k], key)) ==>
              ShortCount(Rekey(rows, key, crc, env)) < ShortCount(rows)
  {
    if rows != [] {
      var r := Rekey(rows, key, crc, env);
      RekeyShortCount(rows[1..], key, crc, env);
      assert r[1..] == Rekey(rows[1..], key, crc, env);
      if exists k :: 0 <= k < |rows| && Short(rows[k]) && SameKey(rows[k], key) {
        var k :| 0 <= k < |rows| && Short(rows[k]) && SameKey(rows[k], key);
        if k > 0 {
          assert rows[1..][k - 1] == rows[k];
        }
      }
    }
  }

  /** `orig` has become `now` by keeping it or by giving it a fingerprint and `env`. */
  predicate Rewritten(orig: Event, now: Event, env: string) {
    now == orig || (now == orig.(crc := now.crc, env := env) && IsFingerprint(now.crc))
  }

  /** Row by row, `rows` is a rewrite of `orig`. */
  predicate AllRewritten(orig: seq<Event>, rows: seq<Event>, env: string) {
    |orig| == |rows| && forall k :: 0 <= k < |rows| ==> Rewritten(orig[k], rows[k], env)
  }

  /** Some short row of `rows` has the key of `e`. */
  predicate HasShortKey(rows: seq<Event>, e: Event) {
    exists j :: 0 <= j < |rows| && Short(rows[j]) && SameKey(rows[j], e)
  }

  /**
   * Row by row, `rows` keeps every row of `orig` that shares its key with no
   * short row of `orig`: the rewrite's `WHERE` never reaches such a row.
   */
  predicate KeptUnlessShortKey(orig: seq<Event>, rows: seq<Event>) {
    |orig| == |rows| && forall k :: 0 <= k < |rows| && !HasShortKey(orig, orig[k]) ==> rows[k] == orig[k]
  }

  /** A row with the key of a short row of `rows` has a short key in `rows`. */
  lemma ShortKeyOf(rows: seq<Event>, key: Event, e: Event)
    requires key in rows && Short(key)
    ensures SameKey(e, key) ==> HasShortKey(rows, e)
  {
    var i :| 0 <= i < |rows| && rows[i] == key;
    assert SameKey(e, key) ==> Short(rows[i]) && SameKey(rows[i], e);
  }

  /** Rewriting with the key of a short row of `orig` keeps the rows that share no short key. */
  lemma RekeyKeepsUnkeyed(orig: seq<Event>, current: seq<Event>, key: Event, f: string, env: string)
    requires KeptUnlessShortKey(orig, current)
    requires key in orig && Short(key)
    ensures KeptUnlessShortKey(orig, Rekey(current, key, f, env))
  {
    var next := Rekey(current, key, f, env);
    forall k | 0 <= k < |next| && !HasShortKey(orig, orig[k])
      ensures next[k] == orig[k]
    {
      ShortKeyOf(orig, key, orig[k]);
    }
  }

  /**
   * A short row left after a rewrite is an original short row, so a key
   * short there was short in the original.
   */
  lemma ShortKeyBack(orig: seq<Event>, rows: seq<Event>, env: string, e: Event)
    requires AllRewritten(orig, rows, env)
    ensures HasShortKey(rows, e) ==> HasShortKey(orig, e)
  {
    if HasShortKey(rows, e) {
      var j :| 0 <= j < |rows| && Short(rows[j]) && SameKey(rows[j], e);
      assert Rewritten(orig[j], rows[j], env);
      assert Short(orig[j]) && SameKey(orig[j], e);
    }
  }

  /** A second rewrite keyed on short rows keeps what the first kept. */
  lemma KeptTwice(orig: seq<Event>, mid: seq<Event>, next: seq<Event>, env: string)
    requires AllRewritten(orig, mid, env)
    requires KeptUnlessShortKey(orig, mid) && KeptUnlessShortKey(mid, next)
    ensures KeptUnlessShortKey(orig, next)
  {
    forall k | 0 <= k < |next| && !HasShortKey(orig, orig[k])
      ensures next[k] == orig[k]
    {
      ShortKeyBack(orig, mid, env, mid[k]);
    }
  }

  /** The `mqtt` table as the backfill sees it. */
  class MqttTable {
    var rows: seq<Event>

    constructor (rows: seq<Event>)
      ensures this.rows == rows
    {
      this.rows := rows;
    }

    /** The `SELECT` whose query text ends in `limit` followed by `limitText`. */
    method Select(limitText: string) returns (batch: seq<Event>)
      requires ParseInt(limitText).Some? && ParseInt(limitText).value >= 0
      ensures batch == Selected(rows, ParseInt(limitText).value)
    {
      batch := Selected(rows, ParseInt(limitText).value);
    }

    /**
     * The script's selection: the query is built with `str(size)`, and the
     * database reads back exactly `size`.
     */
    method SelectShort(size: nat) returns (batch: seq<Event>)
      ensures batch == Selected(rows, size)
    {
      ParseShow(size);
      batch := Select(Show(size));
    }

    method Rewrite(key: Event, crc: string, env: string)
      modifies this
      ensures rows == Rekey(old(rows), key, crc, env)
    {
      rows := Rekey(rows, key, crc, env);
    }
  }

  /**
   * `create_serial_number(data)`: the checksum text of everything fed so far,
   * `data` included, followed by the token. The timestamp serial it formats
   * is never used, so the clock plays no part.
   */
  method CreateSerialNumber(hasher: Hasher, data: string, token: string) returns (r: string)
    requires hasher.Valid() && IsToken(token)
    modifies hasher
    ensures hasher.Valid() && hasher.consumed == old(hasher.consumed) + Encode(data)
    ensures r == HexDigest(Checksum(hasher.consumed)) + token
    ensures IsFingerprint(r) && r[8..] == token
  {
    var crc := hasher.CreateCrc(data);
    r := crc + token;
    FingerprintParts(hasher.crcValue, token);
  }

  /**
   * The body of the inner loop for one selected row: a fingerprint from the
   * row's message, its old crc and the current serial, written with `env`
   * to every row with the same key.
   */
  method RewriteRow(hasher: Hasher, table: MqttTable, row: Event, env: string, now: DateTime, token: string)
    returns (f: string)
    requires hasher.Valid() && Valid(now) && IsToken(token)
    modifies hasher, table
    ensures hasher.Valid()
    ensures hasher.consumed == old(hasher.consumed) + Encode(row.message + row.crc + SerialOf(now))
    ensures f == HexDigest(Checksum(hasher.consumed)) + token && IsFingerprint(f)
    ensures table.rows == Rekey(old(table.rows), row, f, env)
  {
    var crc := hasher.CreateCrc(row.message + row.crc + SerialOf(now));
    FingerprintParts(hasher.crcValue, token);
    f := crc + token;
    table.Rewrite(row, f, env);
  }

  /** Rewriting with a fingerprint keeps every row either original or rewritten. */
  lemma RekeyKeepsRewritten(orig: seq<Event>, current: seq<Event>, key: Event, f: string, env: string)
    requires AllRewritten(orig, current, env) && IsFingerprint(f)
    ensures AllRewritten(orig, Rekey(current, key, f, env), env)
  {
    var next := Rekey(current, key, f, env);
    forall k | 0 <= k < |next|
      ensures Rewritten(orig[k], next[k], env)
    {
      if SameKey(current[k], key) {
        assert next[k] == orig[k].(crc := f, env := env);
      }
    }
  }

  /** Rewriting twice is still a rewrite of the original. */
  lemma RewrittenTwice(orig: seq<Event>, mid: seq<Event>, next: seq<Event>, env: string)
    requires AllRewritten(orig, mid, env) && AllRewritten(mid, next, env)
    ensures AllRewritten(orig, next, env)
  {
    forall k | 0 <= k < |next|
      ensures Rewritten(orig[k], next[k], env)
    {
      if next[k] != mid[k] && mid[k] != orig[k] {
        assert next[k] == orig[k].(crc := next[k].crc, env := env);
      }
    }
  }

  /**
   * `for n in things`: rewrites each row of one batch in order, drawing the
   * clock and a token for each. A batch that starts with a short row of the
   * table lowers the number of short rows.
   */
  method RewriteBatch(hasher: Hasher, table: MqttTable, batch: seq<Event>, env: string,
                      clock: nat -> DateTime, tokens: nat -> string, start: nat)
    returns (n: nat)
    requires hasher.Valid()
    requires forall k: nat :: Valid(clock(k)) && IsToken(tokens(k))
    requires forall k :: 0 <= k < |batch| ==> batch[k] in table.rows && Short(batch[k])
    modifies hasher, table
    ensures hasher.Valid()
    ensures n == start + |batch|
    ensures AllRewritten(old(table.rows), table.rows, env)
    ensures KeptUnlessShortKey(old(table.rows), table.rows)
    ensures ShortCount(table.rows) <= ShortCount(old(table.rows))
    ensures batch != [] ==> ShortCount(table.rows) < ShortCount(old(table.rows))
  {
    n := start;
    for j := 0 to |batch|
      invariant hasher.Valid()
      invariant n == start + j
      invariant AllRewritten(old(table.rows), table.rows, env)
      invariant KeptUnlessShortKey(old(table.rows), table.rows)
      invariant j == 0 ==> table.rows == old(table.rows)
      invariant ShortCount(table.rows) <= ShortCount(old(table.rows))
      invariant j > 0 ==> ShortCount(table.rows) < ShortCount(old(table.rows))
    {
      ghost var current := table.rows;
      var row := batch[j];
      var f := RewriteRow(hasher, table, row, env, clock(n), tokens(n));
      RekeyKeepsRewritten(old(table.rows), current, row, f, env);
      RekeyKeepsUnkeyed(old(table.rows), current, row, f, env);
      RekeyShortCount(current, row, f, env);
      if j == 0 {
        ghost var k :| 0 <= k < |current| && current[k] == row;
        assert SameKey(current[k], row);
      }
      n := n + 1;
    }
  }

  /**
   * The script's main loop with batch size `selectSize`; `clock(n)` and
   * `tokens(n)` are the clock reading and the token drawn for the `n`-th
   * rewritten row. A negative size makes the first `SELECT` fail (`ok` is
   * false). Otherwise the loop ends with no short fingerprint left (or at
   * once for size 0), each row either untouched or carrying a fingerprint and
   * `env` with every other field kept, a row that shares its key with no
   * short row left as it was, and `td` grown by the batch size per
   * batch, however many rows the batch held.
   */
  method Run(hasher: Hasher, table: MqttTable, selectSize: int, env: string,
             clock: nat -> DateTime, tokens: nat -> string)
    returns (ok: bool, td: int, batches: nat)
    requires hasher.Valid()
    requires forall k: nat :: Valid(clock(k)) && IsToken(tokens(k))
    modifies hasher, table
    ensures hasher.Valid()
    ensures ok <==> selectSize >= 0
    ensures td == batches * selectSize
    ensures selectSize <= 0 ==> table.rows == old(table.rows) && batches == 0
    ensures selectSize > 0 ==> ShortCount(table.rows) == 0
    ensures AllRewritten(old(table.rows), table.rows, env)
    ensures KeptUnlessShortKey(old(table.rows), table.rows)
  {
    td, batches := 0, 0;
    if selectSize < 0 {
      return false, td, batches;
    }
    ok := true;
    var things := table.SelectShort(selectSize);
    var n: nat := 0;
    while things != []
      invariant hasher.Valid()
      invariant things == Selected(table.rows, selectSize)
      invariant td == batches * selectSize
      invariant AllRewritten(old(table.rows), table.rows, env)
      invariant KeptUnlessShortKey(old(table.rows), table.rows)
      invariant selectSize == 0 ==> table.rows == old(table.rows) && batches == 0
      decreases ShortCount(table.rows)
    {
      ghost var before := table.rows;
      n := RewriteBatch(hasher, table, things, env, clock, tokens, n);
      RewrittenTwice(old(table.rows), before, table.rows, env);
      KeptTwice(old(table.rows), before, table.rows, env);
      assert (batches + 1) * selectSize == batches * selectSize + selectSize;
      td := td + selectSize;
      batches := batches + 1;
      things := table.SelectShort(selectSize);
    }
  }
}
