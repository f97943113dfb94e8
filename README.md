# feedalert MQTT-to-Postgres ingestion, modelled in Dafny

The system subscribes to every topic of an MQTT broker and turns each
delivery into a row of the `mqtt` event table of a Postgres database. It
also keeps a per-device `things` table with one column per attribute, up
to date. Three near-identical entry scripts (`main2.py`, `main.py`,
`mainback.py`) share the same intake:

- `on_message` takes the device id from the second topic segment and
  decodes the payload as UTF-8.
- It computes a fingerprint, made of the CRC-32 of topic, payload and a
  timestamp serial plus a random 32-digit token, and queues the record.

A single writer thread drains the queue into the database. The writers
differ in:

- how they classify a device (legacy `swd_imei` or current `imei`);
- when they commit;
- which column they add when an attribute has no column yet;
- whether they send a heartbeat, and whether a debug switch suppresses
  writes.

The one-off script `create_crc.py` backfills fingerprints for old events
whose `crc` is shorter than ten characters.

Modules, one per file:

- `Wrappers` (wrappers.dfy): `Option`.
- `Utf8` (utf8.dfy): RFC 3629 encoding and strict decoding, with both
  round trips.
- `Crc32` (crc32.dfy): the `crc-32` preset of crcmod as a bitwise
  reflected fold.
  - Feeding data in pieces equals feeding it whole.
  - The stored checksum value is complemented.
  - The 4-byte big-endian digest and its lowercase hexlification.
  - `Hasher` is the module-level checksum object, which is never reset,
    so every result depends on everything fed before.
- `Serial` (serial.dfy): `strftime("%Y%m%d%H%M%S%f")` as a 20-digit
  serial, with a parser and round trips.
- `Topics` (topics.dfy):
  - the substring test behind `any(s in topic ...)`;
  - `split('/')`, `find` and `rfind`;
  - the device id (segment 1) and the attribute (text after the last `/`);
  - the denylist and the legacy attribute names.
- `Intake` (intake.dfy): `on_message` and the write queue.
- `Store` (store.dfy): the tables, the lookup, update and insert
  statements, `ALTER TABLE ... ADD COLUMN`, and a session whose writes
  stay pending until commit.
- `Heartbeat` (heartbeat.dfy): the 60-second heartbeat throttle.
- `Writer` (writer.dfy):
  - the three writers as one configurable specification: `Process`,
    `Step`, `Beat` and `EndOfQueue`, and `Drain` over the queued records;
  - the `StorageWriter` class, whose methods are proved to follow that
    specification.
- `WriterLemmas` (writer_lemmas.dfy): what the writers guarantee.
- `Connection` (connection.dfy): the `on_connect` and `on_disconnect`
  callbacks.
- `Backfill` (backfill.dfy): `create_crc.py`.

The writer's environment is a function `env: nat -> Tick` indexed by
loop turn. It supplies:

- the clock, which also dates the transaction a turn opens: the session is
  not in autocommit mode, and PostgreSQL's `NOW()` reports the start of the
  open transaction, so every row of one uncommitted batch shares the time
  of the batch's first statement;
- whether a statement fails with an error other than an undefined
  column;
- whether an `ALTER TABLE` fails for a reason other than its name;
- whether a heartbeat request fails.

The clock readings and tokens of the backfill are functions of the row
count in the same way. The uuid4 tokens are parameters. The connect and
reconnect outcomes are parameters of the connection callbacks.

Notable behaviours of the code, all modelled as written:

- The heartbeat interval is measured from the last attempt, not the last
  success. `last_heartbeat_time` moves even when the request fails.
- In `mainback.py` a heartbeat request error is not caught and stops the
  writer thread.
- An unknown attribute's message is not retried after its column is
  added: the message itself is dropped.
- `main2.py` names the new column after the whole topic, which always
  holds `/`. So the `ALTER TABLE` fails and the writer thread stops
  (`Main2NewAttributeStops`).
- The writers' `sys.exit(1)` calls run in the daemon writer thread. There
  `SystemExit` ends that thread only; the process keeps running and
  `on_message` keeps queueing records that nothing drains
  (`StoppedDrainsNothing`). The writer state records this as `stopped`, not
  as a process exit status. The `Connection` exits run in the main thread
  and do end the process.
- `main.py`'s failed reconnect calls a bare `exit()`, so its status is 0,
  not non-zero.
- `main2.py`'s `on_connect` only logs a failed connect. The ten-attempt
  bound applies to `on_disconnect`.

## Model

| member | source | states |
|---|---|---|
| Utf8.Encode | main2.py:136 | `str.encode('utf-8')`: the encoding is never shorter than the text; its meaning is given by `DecodeEncode` and `EncodeAppend` |
| Utf8.Decode | main2.py:192 | strict `bytes.decode('utf-8')`, `None` where it raises; `DecodeEncode` and `EncodeDecode` make it the exact inverse of `Encode` |
| Utf8.EncodeAppend | main2.py:193 | encoding a concatenation is the concatenation of the encodings, so the bytes fed for `topic + payload + serial` are the three encodings in order |
| Utf8.DecodeEncode | main2.py:192 | decoding the UTF-8 encoding of any text gives the text back |
| Utf8.EncodeDecode | main2.py:192 | any byte string the strict decoder accepts is exactly the encoding of the decoded text |
| Crc32.Checksum | main2.py:68 | the `crc-32` preset: register preset to all ones, reflected polynomial, result complemented; `AbsorbAppend` and `SameInputTwice` state its behaviour |
| Crc32.Continue | main2.py:136 | crcmod's `update` on a stored value; `ContinueChecksum` proves it continues the checksum of the history |
| Crc32.Digest | main2.py:137 | `digest()` is 4 bytes; `DigestValue` proves they are the value big-endian |
| Crc32.Hexlify | main2.py:140 | `binascii.hexlify` gives two characters per byte; `HexlifyIsLowerHex` and `HexlifyRoundTrip` state the rest |
| Crc32.AbsorbAppend | main2.py:136 | feeding two byte strings one after the other leaves the register as feeding their concatenation does |
| Crc32.ContinueChecksum | main2.py:134-137 | updating the stored (complemented) value with more bytes gives the CRC-32 of all bytes fed so far |
| Crc32.AbsorbAll | main2.py:136 | the byte-at-a-time update loop ends with the register the fold specifies |
| Crc32.SameInputTwice | main2.py:142-143 | without a reset the same text fed twice yields different checksums (0xE8B7BE43 for "a", then 0x078A19D7) |
| Crc32.DigestValue | main2.py:137 | the 4-byte digest read big-endian is the checksum value |
| Crc32.HexlifyIsLowerHex | main2.py:140 | hexlify produces only lowercase hexadecimal digits |
| Crc32.HexlifyRoundTrip | main2.py:140 | unhexlifying the hexlified bytes gives the bytes back |
| Crc32.HexDigest | main2.py:137-140 | the checksum text is exactly 8 characters |
| Crc32.HexDigestMeaning | main2.py:137-140 | the checksum text is lowercase hex whose bytes, read big-endian, are the checksum value |
| Crc32.Hasher.constructor | main2.py:68 | a fresh checksum object has consumed nothing |
| Crc32.Hasher.Update | main2.py:136 | an update appends the data to everything consumed and keeps the stored value equal to the checksum of it |
| Crc32.Hasher.CreateCrc | main2.py:134-145 | `create_crc` consumes the UTF-8 encoding of its argument and returns the hex checksum of the whole history |
| Crc32.CreateCrcTwice | main2.py:134-145 | on a fresh object the second call returns the checksum of both texts together, still 8 lowercase hex digits |
| Serial.Pad | main2.py:190 | a zero-padded field is exactly `width` decimal digits |
| Serial.ValueOfPad | main2.py:190 | reading a padded field gives the number back |
| Serial.PadValueOf | main2.py:190 | padding the value of a digit string to its length gives the string back |
| Serial.SerialOf | main2.py:190 | the serial of a valid date-time is 20 decimal digits |
| Serial.ParseSerial | main2.py:190 | the parser only ever yields valid date-times |
| Serial.SerialFields | main2.py:190 | year, month, day, hour, minute, second and microsecond sit at fixed positions with widths 4, 2, 2, 2, 2, 2, 6 |
| Serial.SerialRoundTrip | main2.py:190 | parsing the serial of a date-time gives the date-time back, so distinct instants have distinct serials |
| Serial.ParseRoundTrip | main2.py:190 | every string the parser accepts is the serial of what it parses to |
| Topics.Contains | main2.py:318 | Python's `needle in hay`; `ContainsAt` characterises it by occurrence |
| Topics.Denylisted | main2.py:317-318 | `any(s in topic for s in strings_to_check)`; `DenylistedReduces` states it |
| Topics.LegacyNamed | main.py:153 | `any(s in topic for s in ["swc","swd","mqtt_"])`, the classification `MainMessage` uses |
| Topics.ContainsAt | main2.py:318 | `needle in hay` holds exactly when the needle occurs at some index of the haystack |
| Topics.ContainsTransitive | main2.py:317-318 | a text containing a string that contains `c` contains `c` |
| Topics.DenylistedReduces | main2.py:317-318 | the five denylist words reduce to "connect", "location" and "mqttstats": the longer two contain "connect" |
| Topics.Find | main2.py:191 | the first index of the character, or -1 exactly when it is absent |
| Topics.RFind | main2.py:258 | the last index of the character, or -1 exactly when it is absent |
| Topics.Split | main2.py:191 | `split('/')` gives at least one piece; `SplitJoin` and `SplitFront` state its meaning |
| Topics.DeviceId | main2.py:191 | `topic.split("/")[1]`, `None` where it raises; `DeviceIdDefined` and `DeviceIdOf` state it |
| Topics.Attribute | main2.py:258-259 | `topic[topic.rfind('/') + 1:]`; `AttributeShape` and `AttributeOf` state it |
| Topics.SplitJoin | main2.py:191 | joining the split pieces with `/` gives the topic back, and no piece holds `/` |
| Topics.SplitFront | main2.py:191 | splitting `p + "/" + rest` gives `p` followed by the pieces of `rest` |
| Topics.DeviceIdDefined | main2.py:191 | `topic.split("/")[1]` exists exactly when the topic holds `/` |
| Topics.DeviceIdOfPair | main2.py:191 | the device id of `prefix/id` is `id` |
| Topics.DeviceIdOf | main2.py:191 | the device id of `prefix/id/rest` is `id` |
| Topics.AttributeShape | main2.py:258-259 | the attribute holds no `/`, is a suffix of the topic, is the whole topic when it has no `/`, and follows the last `/` otherwise |
| Topics.AttributeOf | main2.py:258-259 | the attribute of `prefix/a` is `a` for any prefix |
| Intake.Record | main2.py:184-200 | the record `on_message` queues for a delivery, or `None` where it raises; `RecordMeaning` states every field |
| Intake.FingerprintParts | main2.py:193-195 | checksum text plus token is a 40-digit lowercase hex fingerprint whose first 8 digits are the checksum and last 32 the token |
| Intake.RecordMeaning | main2.py:184-200 | a delivery is queued exactly when its topic has `/` and its payload is UTF-8; the record carries the arrival time, segment 1 of the topic, the topic, the text whose encoding is the payload, and a fingerprint whose first 8 digits are the big-endian CRC-32 of all text fed so far and whose rest is the token |
| Intake.WriteQueue.constructor | main2.py:105 | the queue starts empty |
| Intake.WriteQueue.Put | main2.py:197 | `put` appends at the back |
| Intake.WriteQueue.TryGet | main.py:141-144 | `get(block=False)` removes and returns the front record, or reports `queue.Empty` and leaves the queue empty |
| Intake.OnMessage | main2.py:184-200 | `on_message` enqueues exactly the record above and feeds the checksum object only when the delivery is kept; a dropped delivery changes neither |
| Store.AppendEvent | main2.py:264-268 | the `INSERT INTO mqtt` of one event row; `ProcessEvent` proves each message appends exactly its row |
| Store.Resolve | main2.py:279-295 | the lookup answers legacy exactly when a `swd_imei` row exists, current exactly when only an `imei` row exists, and nothing otherwise |
| Store.ResolveIgnoresCurrent | main2.py:283-287 | once a legacy row exists, adding or removing the `imei` row does not change the answer |
| Store.UpdateCellMeaning | main2.py:297-310 | an update fails exactly on a missing column; otherwise it sets the addressed row's cell and `lastupdated`, keeps its other cells and `firstseen` and every other row, and changes nothing when no row has the key |
| Store.UpdateCell | main2.py:297-310 | the `UPDATE things` statement; `UpdateCellMeaning` states its effect |
| Store.InsertRow | main2.py:312-325 | the `INSERT INTO things` statement; `InsertRowMeaning` states its effect |
| Store.AddColumn | main2.py:327-333 | `ALTER TABLE things ADD COLUMN`; `BatchUndefinedColumn` and `Main2NewAttributeStops` state when it is reached and what it commits |
| Store.AfterCommit | main2.py:245 | `conn.commit()`: the database takes what the session sees; `DrainInOrder` and `BatchDefersCommit` use it |
| Store.AfterRollback | main2.py:235 | `conn.rollback()`: the session drops its pending work; `Main2Message` and `BatchUndefinedColumn` state what survives |
| Store.InsertRowMeaning | main2.py:312-325 | an insert fails exactly on a missing column; otherwise it adds one row holding only the attribute, with `firstseen` equal to `lastupdated` exactly when it is written, and keeps every other row |
| Heartbeat.Attempt | mainback.py:124-146 | a request goes out exactly when 60 s passed since the last attempt; a returning attempt moves the mark to now; an error escapes exactly when the request fails uncaught, and then the mark stays; a quiet call changes nothing |
| Heartbeat.AttemptKeepsSpaced | main2.py:120-130 | calls that return keep consecutive requests at least 60 s apart, the mark being the latest request |
| Heartbeat.HeartbeatMonitor.constructor | main2.py:72 | the mark starts at the start-up time, with no request made |
| Heartbeat.HeartbeatMonitor.CheckAndSend | mainback.py:124-146 | `check_and_send_heartbeat` updates the mark and the request log as the throttle specifies and reports an escaping error |
| Writer.EventOf | main2.py:257-268 | the `mqtt` row of a queued record: its five fields, `MQTT_ENV` and the attribute; `ProcessEvent` and `DrainInOrder` state where it lands |
| Writer.EventsOf | main.py:139-158 | the event rows of a sequence of records in order; `DrainInOrder` proves a calm pass commits exactly these |
| Writer.ProcessMain2 | main2.py:255-325 | `process_message` with its lookup, update and insert; `Main2NewDevice`, `Main2KnownDevice` and `ProcessEvent` state it |
| Writer.ProcessMain | main.py:145-183 | the statements of `main.py`'s inner `try`; `MainMessage` and `ProcessEvent` state them |
| Writer.ProcessBack | mainback.py:229-287 | the statements of `mainback.py`'s inner `try`; `BackNeverInserts`, `BackDebugWritesNothing` and `ProcessEvent` state them |
| Writer.Process | main2.py:229 | the per-script statements for one message |
| Writer.DdlName | main2.py:237-238 | the column name the undefined-column handler adds: the whole topic in `main2.py`, the attribute elsewhere (main.py:189) |
| Writer.DdlFails | main2.py:327-331 | the `ALTER TABLE` fails on a name holding `/` or when the database refuses it |
| Writer.StatementTime | main.py:169-182 | `NOW()` in a statement: the start of the open transaction, or this turn's clock when the statement opens one; `BatchDefersCommit` states that a batch keeps it |
| Writer.Step | main.py:145-197 | one dequeued message with its handlers: commit timing, rollback, added column or a stopped writer thread, and the transaction it leaves open; `Main2Message`, `BatchDefersCommit`, `BatchUndefinedColumn` and `StepKeepsHistory` state it |
| Writer.Beat | mainback.py:216-219 | the heartbeat check before each dequeue per script; `CalmBeat` and `DrainKeepsSpacing` state it |
| Writer.EndOfQueue | main.py:139-200 | finding the queue empty commits in `main.py` and `mainback.py`; `BatchDefersCommit` states it |
| Writer.Drain | mainback.py:216-307 | the drain loop over the queued records; `DrainInOrder`, `DrainKeepsHistory`, `BackDrainNeverInserts`, `DrainKeepsSpacing` and `StoppedDrainsNothing` state it |
| Writer.StorageWriter.constructor | main2.py:336-355 | the writer starts on a session with nothing pending, no open transaction, and not stopped |
| Writer.StorageWriter.Commit | main2.py:245 | after a commit the database holds what the session sees and no transaction is open |
| Writer.StorageWriter.Rollback | main2.py:235 | a rollback discards everything uncommitted and closes the transaction |
| Writer.StorageWriter.HeartbeatTurn | mainback.py:218-219 | the heartbeat check at the top of each turn does what the turn specification says for the variant |
| Writer.StorageWriter.Handle | main2.py:223-245 | handling a dequeued message, with its error handlers, changes the session and the stop status as the step specification says |
| Writer.StorageWriter.Run | mainback.py:211-311 | the drain loop ends in the state and with the queue contents the pass specification gives |
| WriterLemmas.ProcessEvent | main2.py:255-276 | a processed message appends exactly its own event row and never changes the schema, except debug `mainback.py`, which writes nothing; a failure means the attribute has no column |
| WriterLemmas.StepKeepsHistory | main.py:185-191 | handling a message keeps the session coherent and never loses committed events or columns |
| WriterLemmas.DrainKeepsHistory | main.py:139-200 | over a whole pass committed events only grow at the end and columns are never dropped |
| WriterLemmas.Main2Message | main2.py:223-245 | `main2.py` leaves nothing pending after any message; a completed message commits exactly what its statements produced (its event row and its `things` change) and closes the transaction; any other error rolls back and stops the writer thread |
| WriterLemmas.Main2NewAttributeStops | main2.py:234-238 | in `main2.py` a statement naming an attribute without a column always stops the writer thread, the message rolled back |
| WriterLemmas.Main2NewDevice | main2.py:312-325 | `main2.py` creates exactly one `imei` row for an unknown device, holding the attribute with `firstseen` equal to `lastupdated`, unless the attribute is denylisted |
| WriterLemmas.Main2KnownDevice | main2.py:297-310 | `main2.py` updates only the found row's attribute and `lastupdated`, and in debug mode changes no row |
| WriterLemmas.MainMessage | main.py:153-183 | `main.py` picks the key column by the attribute name alone; a found row gets the attribute and `lastupdated` and keeps its other cells and `firstseen`; otherwise a non-denylisted attribute creates one row without `firstseen`; other rows are untouched |
| WriterLemmas.BatchDefersCommit | main.py:139-200 | in `main.py` and `mainback.py` a completed message leaves the database unchanged and only adds to the pending work; the transaction stays open, so every later message of the batch sees the same `NOW()`; finding the queue empty commits all of it, and the next statement dates a new transaction |
| WriterLemmas.BatchUndefinedColumn | main.py:185-191 | in `main.py` and non-debug `mainback.py` (mainback.py:289-300) an undefined column discards the whole uncommitted batch, then commits the new column named by the attribute, or stops the writer thread when the `ALTER TABLE` fails |
| WriterLemmas.BackNeverInserts | mainback.py:241-287 | in `mainback.py` a message never adds a `things` row; outside debug mode the row the legacy-first lookup finds gets the attribute and `lastupdated` and keeps `firstseen`, the `imei` row only when no `swd_imei` row exists; debug mode or no row changes nothing |
| WriterLemmas.BackDrainNeverInserts | mainback.py:216-307 | over a whole pass `mainback.py` never adds a `things` row |
| WriterLemmas.BackDebugWritesNothing | mainback.py:216-300 | in debug mode `mainback.py` leaves the database and the heartbeat state untouched |
| WriterLemmas.DrainInOrder | main.py:139-200 | when nothing fails and every attribute has a column, a pass reads every record, appends their event rows in queue order, and ends committed with the writer thread still running |
| WriterLemmas.StoppedDrainsNothing | main2.py:239-249 | once the writer thread has stopped, a pass reads no record and changes nothing, so queued records stay unread |
| WriterLemmas.DrainKeepsSpacing | mainback.py:216-219 | heartbeat requests made during a pass stay at least 60 s apart |
| Connection.OnConnect | mainback.py:163-171 | a connect subscribes exactly when the result code is 0; a failure exits with status 1 only in `mainback.py` |
| Connection.ReconnectOnce | main.py:101-111 | one reconnect attempt: success keeps running; failure exits with status 0 in `main.py` and 1 in `mainback.py` |
| Connection.ReconnectWithRetries | main2.py:157-182 | attempts are numbered 1, 2, ... from a counter reset on every call, with a sleep between failures; success on some attempt among the first ten reconnects at the first success; ten failures exit with status 1 |
| Backfill.ParseInt | create_crc.py:53 | `int(arg)` for a sign and ASCII digits, `None` where it raises; `ParseShow` proves it inverts `Show` |
| Backfill.Show | create_crc.py:66 | `str(select_size)` in the query text; `ParseShow` proves the number read back from it is `select_size` |
| Backfill.ShortCount | create_crc.py:62-63 | `SELECT count(crc) ... WHERE length(crc) < 10`; `RekeyShortCount` and `RewriteBatch` prove each batch lowers it |
| Backfill.SameKey | create_crc.py:86 | the `WHERE imei AND timestamp AND message` condition of the rewrite |
| Backfill.ParseShow | create_crc.py:53 | `int(str(n)) == n` for every integer |
| Backfill.SelectSize | create_crc.py:50-55 | no argument gives 1000; otherwise every argument must convert and the last one wins |
| Backfill.Selected | create_crc.py:66-67 | the selection holds min(limit, number of short rows) rows, each short and from the table, no row more often than in the table |
| Backfill.Rekey | create_crc.py:86-87 | the update rewrites `crc` and `env` of exactly the rows matching the key and keeps the rest |
| Backfill.RekeyShortCount | create_crc.py:86-95 | a rewrite with a long fingerprint never adds a short row and removes one when a short row matches the key |
| Backfill.MqttTable.constructor | create_crc.py:60-61 | the table starts with the given rows |
| Backfill.MqttTable.Select | create_crc.py:66-67 | the query whose text ends in a limit returns the selection above for the number that text denotes |
| Backfill.MqttTable.SelectShort | create_crc.py:66-67 | the query built with `str(select_size)` returns the first `select_size` short rows |
| Backfill.MqttTable.Rewrite | create_crc.py:86-87 | the update leaves the rewritten table |
| Backfill.CreateSerialNumber | create_crc.py:31-36 | the result is a 40-digit fingerprint: the hex checksum of all text fed so far followed by the token |
| Backfill.RewriteRow | create_crc.py:75-87 | one row's fingerprint comes from message, old crc and serial, and is written with `env` to every row with that key |
| Backfill.RekeyKeepsRewritten | create_crc.py:86-87 | after a rewrite every row is still its original or the original with a fingerprint and `env` |
| Backfill.RewrittenTwice | create_crc.py:72-95 | a rewrite of a rewrite is a rewrite of the original |
| Backfill.RekeyKeepsUnkeyed | create_crc.py:86 | an `UPDATE` keyed on a short row never reaches a row that shares its key with no short row |
| Backfill.KeptTwice | create_crc.py:72-95 | rows still short after a batch were short at the start, so the next batch keeps what the earlier ones kept |
| Backfill.RewriteBatch | create_crc.py:73-87 | a non-empty batch of short rows lowers the number of short rows, keeps every row a rewrite of its original, and leaves every row that shares its key with no short row as it was |
| Backfill.Run | create_crc.py:66-95 | the script ends with no short fingerprint left; every row keeps all fields except a new fingerprint and `env`; a row sharing its key with no originally short row is left as it was; `td` grows by the batch size per batch; a negative size fails the first query |

## Left out

- MQTT client library, threads, logging, Betterstack and Sentry set-up. The broker's answers are parameters.
- The exact SQL text. In the writers, statements built by string concatenation can fail on quotes or odd attribute names; any such error is the `fault` bit of the environment.
- Backfill.Run: the backfill has no such failure input. Its `UPDATE` (create_crc.py:86) is built by concatenation, so a `'` in a device id, message or `MQTT_ENV`, an unset `MQTT_ENV` (the `+` on `None` raises `TypeError` on the first row), or a NULL in those columns, raises and ends the script with short fingerprints left; the promise that none are left holds only when every statement succeeds.
- Postgres case folding and quoting of identifiers. An attribute is a column exactly when the names are equal.
- `things` tables with duplicate rows for one id, or rows carrying both `swd_imei` and `imei` for one device.
- Writer.StorageWriter.Run: the writer and `on_message` run concurrently in the source; one pass drains the records queued when it starts.
- Writer.StorageWriter.Run: the endless outer loops of `main.py` and `mainback.py` (a new cursor and a new pass) are modelled one pass at a time.
- `main2.py`'s blocking `get` on an empty queue is modelled as the end of the pass, with nothing committed.
- The unconditional heartbeat `mainback.py` sends at start-up (mainback.py:368), before its loop; it does not touch `last_heartbeat_time`.
- Heartbeat: `time.time()` floats are whole seconds (`int`).
- The uuid4 randomness is a parameter (`token`, `tokens`) constrained to 32 lowercase hex digits.
- Serial: years outside 1000-9999; `%Y` padding there is platform dependent.
- Backfill.SelectSize: Python `int()` also accepts surrounding whitespace, underscores and non-ASCII digits; only an optional sign and ASCII digits are modelled.
- Backfill.Selected: `SELECT ... LIMIT` without `ORDER BY` has no defined row order; the model takes table order.
- Backfill: rows whose `crc` is NULL (never selected by `length(crc) < 10`) are not modelled separately.
- Backfill: the progress count `tr`, the percentage printed per batch and the per-batch `commit` (the script is the only session; it sees its own writes).
- Backfill.CreateSerialNumber: the timestamp serial `create_serial_number` formats is never used, so no clock is modelled there.
- telit.py, alter_test.py and dbtest.py are not part of this model.
