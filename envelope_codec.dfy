/**
 * The envelope codec: one data message written as a fixed sequence of
 * MessagePack values. `encode` puts a two-byte big-endian length in front;
 * `decode` expects that prefix to be stripped already. Field order: the six
 * integers of the sender key, the encryption flag, [the key], execute time,
 * timestamp, topic, partition, type, payload.
 */
module EnvelopeCodec {
  import opened Wrappers
  import opened Js
  import opened MsgPack
  import opened MemberKey

  /**
   * A message envelope. `payload` holds the bytes on the wire; `decoded` and
   * `message` are filled in by the receiving member once the payload is decoded.
   */
  datatype Envelope = Envelope(
    senderKey: string,
    isEncrypted: Value,
    key: Value,
    executeTime: Value,
    timestamp: Value,
    topic: Value,
    partition: Value,
    messageType: Value,
    payload: Value,
    decoded: bool,
    message: Value)

  // ---------------------------------------------------------------------------
  // encode

  /**
   * The `toPack` array of `encode`, given the sender key's six integers and the
   * two times as written: the flag, the key when encrypted, the times, topic,
   * partition, type and payload.
   */
  function ToPack(fs: seq<Value>, encrypted: bool, executeTime: Value, timestamp: Value, e: Envelope): (vs: seq<Value>)
    requires |fs| == 6
    ensures |vs| == if encrypted then 14 else 13
  {
    if encrypted then
      [fs[0], fs[1], fs[2], fs[3], fs[4], fs[5], Bool(true), e.key,
       executeTime, timestamp, e.topic, e.partition, e.messageType, e.payload]
    else
      [fs[0], fs[1], fs[2], fs[3], fs[4], fs[5], Bool(false),
       executeTime, timestamp, e.topic, e.partition, e.messageType, e.payload]
  }

  /** The first seven packed values: the sender key's integers and the flag. */
  lemma ToPackHead(fs: seq<Value>, encrypted: bool, executeTime: Value, timestamp: Value, e: Envelope)
    requires |fs| == 6
    ensures var u := ToPack(fs, encrypted, executeTime, timestamp, e);
      && At(u, 0) == fs[0] && At(u, 1) == fs[1] && At(u, 2) == fs[2] && At(u, 3) == fs[3]
      && At(u, 4) == fs[4] && At(u, 5) == fs[5] && At(u, 6) == Bool(encrypted)
  {
  }

  /** The packed values after the flag (and the key, when encrypted). */
  lemma ToPackTail(fs: seq<Value>, encrypted: bool, executeTime: Value, timestamp: Value, e: Envelope)
    requires |fs| == 6
    ensures var u := ToPack(fs, encrypted, executeTime, timestamp, e); var i := if encrypted then 8 else 7;
      && (encrypted ==> At(u, 7) == e.key)
      && At(u, i) == executeTime && At(u, i + 1) == timestamp && At(u, i + 2) == e.topic
      && At(u, i + 3) == e.partition && At(u, i + 4) == e.messageType && At(u, i + 5) == e.payload
      && At(u, i + 6) == Undefined
  {
  }

  /**
   * The values `encode` packs: an encrypted envelope keeps its times as they
   * are, an unencrypted one passes them through `parseInt`.
   */
  function Fields(e: Envelope): seq<Value>
  {
    if Truthy(e.isEncrypted) then ToPack(MemberFields(e.senderKey), true, e.executeTime, e.timestamp, e)
    else ToPack(MemberFields(e.senderKey), false, ParseIntValue(e.executeTime), ParseIntValue(e.timestamp), e)
  }

  /** `encode`: the packed fields as one length-prefixed frame; `None` when `writeUInt16BE` throws. */
  function Encode(c: Codec, e: Envelope): Option<seq<byte>>
  {
    PackedFrame(c, Fields(e))
  }

  // ---------------------------------------------------------------------------
  // decode

  /** The UTF-8 encoding of one character. */
  function Utf8(ch: char): (bs: seq<byte>)
    ensures 1 <= |bs| <= 4
  {
    var n := ch as int;
    if n < 0x80 then [n as byte]
    else if n < 0x800 then [(0xC0 + n / 0x40) as byte, (0x80 + n % 0x40) as byte]
    else if n < 0x1_0000 then
      [(0xE0 + n / 0x1000) as byte, (0x80 + n / 0x40 % 0x40) as byte, (0x80 + n % 0x40) as byte]
    else
      [(0xF0 + n / 0x4_0000) as byte, (0x80 + n / 0x1000 % 0x40) as byte,
       (0x80 + n / 0x40 % 0x40) as byte, (0x80 + n % 0x40) as byte]
  }

  function Utf8String(s: string): (bs: seq<byte>)
    ensures |s| <= |bs| <= 4 * |s|
  {
    if s == [] then [] else Utf8(s[0]) + Utf8String(s[1..])
  }

  /**
   * `bops.from(v, "utf8")`: a buffer is copied, a string is UTF-8 encoded, and
   * anything else is treated as the error that makes `decode` return `undefined`.
   */
  function ToBuffer(v: Value): (r: Option<seq<byte>>)
    ensures v.Bytes? ==> r == Some(v.data)
    ensures r.Some? <==> v.Bytes? || v.Str?
  {
    match v
      case Bytes(b) => Some(b)
      case Str(s) => Some(Utf8String(s))
      case _ => None
  }

  /**
   * The walk over the unpacked values. The key is read only when the flag is
   * the string `"true"`; the walk fails only when the payload does not convert.
   */
  function FromValues(u: seq<Value>): Option<Envelope>
  {
    var senderKey := KeyText(At(u, 0), At(u, 1), At(u, 2), At(u, 3), At(u, 4), At(u, 5));
    var encrypted := At(u, 6);
    var keyed := encrypted == Str("true");
    var i := if keyed then 8 else 7;
    match ToBuffer(At(u, i + 5))
      case None => None
      case Some(p) =>
        Some(Envelope(senderKey, encrypted, if keyed then At(u, 7) else Undefined,
                      At(u, i), At(u, i + 1), At(u, i + 2), At(u, i + 3), At(u, i + 4), Bytes(p), false, Undefined))
  }

  /** `decode`: unpack the whole buffer until the end or an error, then walk the values. */
  function Decode(c: Codec, bytes: seq<byte>): Option<Envelope>
    requires Consumes(c)
  {
    FromValues(Unpacks(c, bytes))
  }

  /** `decode` as the program runs it: the unpacking loop, then an index walk. */
  method DecodeEnvelope(c: Codec, bytes: seq<byte>) returns (r: Option<Envelope>)
    requires Consumes(c)
    ensures r == Decode(c, bytes)
  {
    var unpacked := UnpackAll(c, bytes);
    var index := 6;
    var senderKey := KeyText(At(unpacked, 0), At(unpacked, 1), At(unpacked, 2), At(unpacked, 3), At(unpacked, 4), At(unpacked, 5));
    var encrypted := At(unpacked, index);
    index := index + 1;
    var key := Undefined;
    if encrypted == Str("true") {
      key := At(unpacked, index);
      index := index + 1;
    }
    var executeTime := At(unpacked, index);
    var timestamp := At(unpacked, index + 1);
    var topic := At(unpacked, index + 2);
    var partition := At(unpacked, index + 3);
    var messageType := At(unpacked, index + 4);
    index := index + 5;
    var payload := ToBuffer(At(unpacked, index));
    if payload.None? {
      return None;
    }
    r := Some(Envelope(senderKey, encrypted, key, executeTime, timestamp, topic, partition, messageType,
                       Bytes(payload.value), false, Undefined));
  }

  // ---------------------------------------------------------------------------
  // Properties

  /** The walk fails exactly when the value at the payload position is neither a buffer nor a string. */
  lemma WalkFails(u: seq<Value>)
    ensures var p := At(u, if At(u, 6) == Str("true") then 13 else 12);
      FromValues(u).None? <==> !(p.Bytes? || p.Str?)
  {
  }

  /** An unencrypted envelope writes both times as integers: `parseInt` of what it holds. */
  lemma TimesWrittenAsIntegers(e: Envelope)
    requires !Truthy(e.isEncrypted)
    ensures At(Fields(e), 7) == ParseIntValue(e.executeTime)
    ensures At(Fields(e), 8) == ParseIntValue(e.timestamp)
    ensures e.executeTime.Float? && Positional(e.executeTime.r) ==> At(Fields(e), 7) == Int(Trunc(e.executeTime.r))
    ensures e.timestamp.Float? && Positional(e.timestamp.r) ==> At(Fields(e), 8) == Int(Trunc(e.timestamp.r))
  {
    ToPackTail(MemberFields(e.senderKey), false, ParseIntValue(e.executeTime), ParseIntValue(e.timestamp), e);
  }

  /** The first six packed values are the six integers of the sender key, then comes the flag. */
  lemma FieldsHead(e: Envelope)
    ensures var u := Fields(e); var fs := MemberFields(e.senderKey);
      && At(u, 0) == fs[0] && At(u, 1) == fs[1] && At(u, 2) == fs[2] && At(u, 3) == fs[3]
      && At(u, 4) == fs[4] && At(u, 5) == fs[5] && At(u, 6) == Bool(Truthy(e.isEncrypted))
  {
    var fs := MemberFields(e.senderKey);
    if Truthy(e.isEncrypted) {
      ToPackHead(fs, true, e.executeTime, e.timestamp, e);
    } else {
      ToPackHead(fs, false, ParseIntValue(e.executeTime), ParseIntValue(e.timestamp), e);
    }
  }

  /** The sender key is written as six integers that the walk joins back into the same key. */
  lemma SenderKeyRoundTrip(e: Envelope)
    requires CanonicalKey(e.senderKey)
    ensures var u := Fields(e);
      KeyText(At(u, 0), At(u, 1), At(u, 2), At(u, 3), At(u, 4), At(u, 5)) == e.senderKey
  {
    FieldsHead(e);
    KeyRoundTrip(e.senderKey);
  }

  /** What the unencrypted round trip needs: a canonical sender key, integer times and a byte payload. */
  predicate Plain(e: Envelope)
  {
    && CanonicalKey(e.senderKey)
    && !Truthy(e.isEncrypted)
    && e.executeTime.Int? && e.timestamp.Int?
    && e.payload.Bytes?
  }

  /** The envelope `decode` returns for an unencrypted `e`: the flag reads as `false`, no key, not yet decoded. */
  function Received(e: Envelope): Envelope
  {
    e.(isEncrypted := Bool(false), key := Undefined, decoded := false, message := Undefined)
  }

  /** The walk gives back an unencrypted envelope from its packed fields. */
  lemma FieldsRoundTrip(e: Envelope)
    requires Plain(e)
    ensures FromValues(Fields(e)) == Some(Received(e))
  {
    var fs, et, ts := MemberFields(e.senderKey), ParseIntValue(e.executeTime), ParseIntValue(e.timestamp);
    ToPackHead(fs, false, et, ts, e);
    ToPackTail(fs, false, et, ts, e);
    SenderKeyRoundTrip(e);
    ParseIntOfInt(e.executeTime.i);
    ParseIntOfInt(e.timestamp.i);
  }

  /**
   * Decoding the encoding of an unencrypted envelope, prefix stripped, keeps
   * its sender key, times, topic, partition, type and payload.
   */
  lemma RoundTrip(c: Codec, e: Envelope)
    requires Sound(c) && Plain(e) && AllPackable(Fields(e)) && |Join(c, Fields(e))| < 65536
    ensures Encode(c, e).Some? && Decode(c, Encode(c, e).value[2..]) == Some(Received(e))
  {
    UnpacksJoinAll(c, Fields(e));
    FieldsRoundTrip(e);
  }

  /**
   * An encrypted envelope is written with the boolean `true`, which is not the
   * string `"true"` the walk looks for: the key is not read and every later
   * field is read one position early.
   */
  lemma EncryptedMisread(c: Codec, e: Envelope)
    requires Sound(c) && CanonicalKey(e.senderKey) && Truthy(e.isEncrypted) && AllPackable(Fields(e)) && |Join(c, Fields(e))| < 65536
    ensures Encode(c, e).Some?
    ensures var r := Decode(c, Encode(c, e).value[2..]);
      && (r.None? <==> !(e.messageType.Bytes? || e.messageType.Str?))
      && (r.Some? ==> r.value.key == Undefined && r.value.isEncrypted == Bool(true)
                      && r.value.executeTime == e.key && r.value.timestamp == e.executeTime
                      && r.value.topic == e.timestamp && r.value.messageType == e.partition)
  {
    UnpacksJoinAll(c, Fields(e));
    assert Encode(c, e).value[2..] == Join(c, Fields(e));
    MisreadFields(e);
  }

  /** The walk over the values of an encrypted envelope, read one place off. */
  lemma MisreadFields(e: Envelope)
    requires Truthy(e.isEncrypted)
    ensures var r := FromValues(Fields(e));
      && (r.None? <==> !(e.messageType.Bytes? || e.messageType.Str?))
      && (r.Some? ==> r.value.key == Undefined && r.value.isEncrypted == Bool(true)
                      && r.value.executeTime == e.key && r.value.timestamp == e.executeTime
                      && r.value.topic == e.timestamp && r.value.messageType == e.partition)
  {
    var fs := MemberFields(e.senderKey);
    ToPackHead(fs, true, e.executeTime, e.timestamp, e);
    ToPackTail(fs, true, e.executeTime, e.timestamp, e);
  }

  lemma UnpacksBeforeError(c: Codec, vs: seq<Value>, bad: seq<byte>)
    requires Sound(c) && AllPackable(vs) && c.unpack(bad).Malformed?
    ensures Unpacks(c, Join(c, vs) + bad) == vs
  {
    UnpacksJoin(c, vs, bad);
    assert vs + [] == vs;
  }

  /** Unpacking stops at the first value that cannot be read; what came before is walked as usual. */
  lemma DecodeStopsAtError(c: Codec, vs: seq<Value>, bad: seq<byte>)
    requires Sound(c) && AllPackable(vs) && c.unpack(bad).Malformed?
    ensures Decode(c, Join(c, vs) + bad) == FromValues(vs)
  {
    UnpacksBeforeError(c, vs, bad);
  }
}
