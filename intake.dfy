/**
 * Message intake, identical in the three entry scripts: `on_message` turns a
 * delivery into one queued record (arrival time, device id, topic, decoded
 * payload, fingerprint) or drops it, and the queue hands records to the
 * storage writer first in, first out.
 */
module Intake {
  import opened Wrappers
  import opened Utf8
  import opened Crc32
  import opened Serial
  import opened Topics

  /** `uuid.uuid4().hex`: 32 lowercase hexadecimal digits. */
  predicate IsToken(t: string) {
    |t| == 32 && IsLowerHex(t)
  }

  /** A fingerprint: the 8-digit checksum text followed by a token. */
  predicate IsFingerprint(f: string) {
    |f| == 40 && IsLowerHex(f)
  }

  /** The tuple `on_message` puts on the write queue. */
  datatype Queued = Queued(time: DateTime, device: string, topic: string, payload: string, fingerprint: string)

  /** The text whose UTF-8 encoding is fed to the checksum for a delivery. */
  function FingerprintText(topic: string, payload: string, now: DateTime): string
    requires Valid(now)
  {
    topic + payload + SerialOf(now)
  }

  /**
   * What `on_message` enqueues for a delivery, given every byte the checksum
   * object consumed before it: `None` when `topic.split('/')[1]` raises or
   * the payload is not UTF-8.
   */
  function Record(history: seq<byte>, now: DateTime, topic: string, payload: seq<byte>, token: string): Option<Queued>
    requires Valid(now)
  {
    match (DeviceId(topic), Decode(payload))
    case (Some(id), Some(text)) =>
      var crc := HexDigest(Checksum(history + Encode(FingerprintText(topic, text, now))));
      Some(Queued(now, id, topic, text, crc + token))
    case _ => None
  }

  /** A checksum text followed by a token is a 40-digit fingerprint split 8 + 32. */
  lemma FingerprintParts(v: bv32, token: string)
    requires IsToken(token)
    ensures var f := HexDigest(v) + token;
            IsFingerprint(f) && f[..8] == HexDigest(v) && f[8..] == token
  {
    var h := HexDigest(v);
    var f := h + token;
    HexlifyIsLowerHex(Digest(v));
    forall i | 0 <= i < |f|
      ensures f[i] in HexDigits
    {
      if i < 8 { assert f[i] == h[i]; } else { assert f[i] == token[i - 8]; }
    }
    assert f[..8] == h && f[8..] == token;
  }

  /**
   * A delivery is kept exactly when its topic has a separator and its payload
   * is UTF-8. A kept record carries the second topic segment, the topic, the
   * payload text whose encoding is the delivered bytes, and a fingerprint
   * whose first 8 digits are the big-endian checksum of everything fed so far
   * and whose last 32 are the token.
   */
  lemma RecordMeaning(history: seq<byte>, now: DateTime, topic: string, payload: seq<byte>, token: string)
    requires Valid(now) && IsToken(token)
    ensures Record(history, now, topic, payload, token).Some? <==> '/' in topic && Decode(payload).Some?
    ensures match Record(history, now, topic, payload, token)
            case None => true
            case Some(q) =>
              var fed := history + Encode(topic + q.payload + SerialOf(now));
              && q.time == now && q.topic == topic
              && '/' !in q.device && Split(topic)[1] == q.device
              && Encode(q.payload) == payload
              && IsFingerprint(q.fingerprint) && q.fingerprint[8..] == token
              && Unhexlify(q.fingerprint[..8]).Some?
              && BigEndian(Unhexlify(q.fingerprint[..8]).value) == Checksum(fed) as int
  {
    DeviceIdDefined(topic);
    match Record(history, now, topic, payload, token)
    case None =>
    case Some(q) =>
      var fed := history + Encode(topic + q.payload + SerialOf(now));
      SplitJoin(topic);
      EncodeDecode(payload);
      FingerprintParts(Checksum(fed), token);
      HexDigestMeaning(Checksum(fed));
  }

  /**
   * The producer/consumer queue between the delivery context and the storage
   * writer (`queue.Queue`).
   */
  class WriteQueue {
    var items: seq<Queued>

    constructor ()
      ensures items == []
    {
      items := [];
    }

    /** `put`: appends at the back. */
    method Put(m: Queued)
      modifies this
      ensures items == old(items) + [m]
    {
      items := items + [m];
    }

    /** `get(block=False)`: the front record, or `None` where `queue.Empty` is raised. */
    method TryGet() returns (m: Option<Queued>)
      modifies this
      ensures old(items) == [] ==> m == None && items == []
      ensures old(items) != [] ==> m == Some(old(items)[0]) && items == old(items)[1..]
    {
      if items == [] {
        m := None;
      } else {
        m := Some(items[0]);
        items := items[1..];
      }
    }
  }

  /**
   * `on_message`: `now` is the clock reading, `token` the random suffix.
   * The checksum object is fed only when the delivery is kept, because the
   * split and the decode both come before `create_crc`.
   */
  method OnMessage(hasher: Hasher, queue: WriteQueue, now: DateTime, topic: string, payload: seq<byte>, token: string)
    returns (kept: bool)
    requires hasher.Valid() && Valid(now) && IsToken(token)
    modifies hasher, queue
    ensures hasher.Valid()
    ensures kept <==> Record(old(hasher.consumed), now, topic, payload, token).Some?
    ensures kept ==> queue.items == old(queue.items) + [Record(old(hasher.consumed), now, topic, payload, token).value]
    ensures kept ==> hasher.consumed == old(hasher.consumed) + Encode(FingerprintText(topic, Decode(payload).value, now))
    ensures !kept ==> queue.items == old(queue.items) && hasher.consumed == old(hasher.consumed)
  {
    var serial := SerialOf(now);
    var id := DeviceId(topic);
    if id.None? {
      return false;
    }
    var text := Decode(payload);
    if text.None? {
      return false;
    }
    var crc := hasher.CreateCrc(topic + text.value + serial);
    queue.Put(Queued(now, id.value, topic, text.value, crc + token));
    kept := true;
  }
}
