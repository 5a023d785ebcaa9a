/**
 * MessagePack as the codecs use it: each value is packed on its own and the
 * packed values are concatenated; decoding unpacks values one after another
 * until the buffer is empty or a value cannot be read. The MessagePack
 * library itself is a parameter: `Codec` holds its pack and unpack functions,
 * `Consumes` states what every decoder may rely on and `Sound` adds the round
 * trip for the values MessagePack carries unchanged.
 */
module MsgPack {
  import opened Wrappers
  import opened Js
  import Framing

  /** One `msgpack.decode(buff)` call: the value read and the bytes left, or an error. */
  datatype Unpacked = Unpacked(value: Value, rest: seq<byte>) | Malformed

  datatype Codec = Codec(pack: Value -> seq<byte>, unpack: seq<byte> -> Unpacked)

  /** The largest integer a JavaScript number holds exactly (`Number.MAX_SAFE_INTEGER`). */
  const MaxSafeInteger: int := 0x1F_FFFF_FFFF_FFFF

  /**
   * The values MessagePack carries to JavaScript and back unchanged: no
   * `undefined` (packed as nil), integers a JavaScript number holds exactly,
   * no fractional numbers (the model's numbers are reals, not doubles), and
   * objects with distinct keys; the same inside arrays and objects.
   */
  predicate Packable(v: Value)
    decreases v
  {
    match v
      case Undefined => false
      case Float(_) => false
      case Int(i) => -MaxSafeInteger <= i <= MaxSafeInteger
      case List(items) => forall j :: 0 <= j < |items| ==> Packable(items[j])
      case Map(entries) =>
        DistinctKeys(entries) &&
        forall j :: 0 <= j < |entries| ==> entries[j] in entries && Packable(entries[j].1)
      case _ => true
  }

  /**
   * What any `msgpack.decode` does: a successful read consumes input, and a
   * binary value read from a buffer is shorter than that buffer.
   */
  ghost predicate Consumes(c: Codec)
  {
    && (forall b :: c.unpack(b).Unpacked? ==> |c.unpack(b).rest| < |b|)
    && (forall b :: c.unpack(b).Unpacked? && c.unpack(b).value.Bytes? ==> |c.unpack(b).value.data| < |b|)
  }

  /** Unpacking what was packed gives the value back and leaves what followed, for every packable value. */
  ghost predicate RoundTrips(c: Codec)
  {
    forall v, rest :: Packable(v) ==> c.unpack(c.pack(v) + rest) == Unpacked(v, rest)
  }

  /** Everything the program relies on of the library. `TaggedCodec.TaggedSound` shows a codec that has it. */
  ghost predicate Sound(c: Codec)
  {
    Consumes(c) && RoundTrips(c)
  }

  /** Every value of `vs` is packable. */
  predicate AllPackable(vs: seq<Value>)
  {
    forall j :: 0 <= j < |vs| ==> Packable(vs[j])
  }

  /** The concatenation of the packed values (`bops.join` of the encodings). */
  function Join(c: Codec, vs: seq<Value>): (b: seq<byte>)
    ensures vs == [] ==> b == []
  {
    if vs == [] then [] else c.pack(vs[0]) + Join(c, vs[1..])
  }

  /**
   * What `encode` writes in both codecs: the packed values behind their
   * two-byte length. A reader of the stream gets the packed values back as
   * one frame, with nothing left over. `writeUInt16BE` refuses a length of
   * 65536 or more with a RangeError, so a payload that long is `None`.
   */
  function PackedFrame(c: Codec, vs: seq<Value>): (r: Option<seq<byte>>)
    ensures r.None? <==> |Join(c, vs)| >= 65536
    ensures r.Some? ==> |r.value| == |Join(c, vs)| + 2 && Framing.FrameLength(r.value[0], r.value[1]) == |r.value| - 2
    ensures r.Some? ==> r.value[2..] == Join(c, vs)
    ensures r.Some? ==> Framing.Frames(r.value) == Framing.Parsed([Join(c, vs)], [])
  {
    var p := Join(c, vs);
    if |p| >= 65536 then None
    else
      assert Framing.Stream([p]) == Framing.Framed(p) by {
        assert Framing.Stream([p]) == Framing.Framed(p) + Framing.Stream([]);
      }
      Framing.FramesOfStream([p]);
      Some(Framing.Framed(p))
  }

  /** The encoding loop: pack each value in turn and join the results. */
  method PackAll(c: Codec, vs: seq<Value>) returns (b: seq<byte>)
    ensures b == Join(c, vs)
  {
    b := [];
    var k := 0;
    while k < |vs|
      invariant 0 <= k <= |vs|
      invariant b == Join(c, vs[..k])
    {
      JoinAppend(c, vs[..k], [vs[k]]);
      assert vs[..k + 1] == vs[..k] + [vs[k]];
      b := b + c.pack(vs[k]);
      k := k + 1;
    }
    assert vs[..k] == vs;
  }

  /** The values the decoding loop collects from `b`, in order. */
  function Unpacks(c: Codec, b: seq<byte>): (vs: seq<Value>)
    requires Consumes(c)
    decreases |b|
  {
    if |b| == 0 then []
    else match c.unpack(b)
      case Malformed => []
      case Unpacked(v, rest) => [v] + Unpacks(c, rest)
  }

  /** The decoding loop: unpack until the buffer is used up or a value cannot be read. */
  method UnpackAll(c: Codec, b: seq<byte>) returns (vs: seq<Value>)
    requires Consumes(c)
    ensures vs == Unpacks(c, b)
  {
    var buff := b;
    vs := [];
    while |buff| > 0
      invariant vs + Unpacks(c, buff) == Unpacks(c, b)
      decreases |buff|
    {
      match c.unpack(buff)
      case Malformed =>
        break;
      case Unpacked(v, rest) =>
        vs := vs + [v];
        buff := rest;
    }
  }

  lemma PackNonEmpty(c: Codec, v: Value)
    requires Sound(c) && Packable(v)
    ensures |c.pack(v)| > 0
  {
    assert c.pack(v) + [] == c.pack(v);
    assert c.unpack(c.pack(v) + []) == Unpacked(v, []);
  }

  /** Decoding a concatenation of packed values recovers them, then reads on. */
  lemma {:induction false} UnpacksJoin(c: Codec, vs: seq<Value>, tail: seq<byte>)
    requires Sound(c) && AllPackable(vs)
    ensures Unpacks(c, Join(c, vs) + tail) == vs + Unpacks(c, tail)
  {
    if vs != [] {
      var b := Join(c, vs) + tail;
      assert b == c.pack(vs[0]) + (Join(c, vs[1..]) + tail);
      PackNonEmpty(c, vs[0]);
      assert c.unpack(b) == Unpacked(vs[0], Join(c, vs[1..]) + tail);
      assert |b| > 0;
      assert Unpacks(c, b) == [vs[0]] + Unpacks(c, Join(c, vs[1..]) + tail);
      assert AllPackable(vs[1..]) by {
        forall j | 0 <= j < |vs| - 1 ensures Packable(vs[1..][j]) {
          assert vs[1..][j] == vs[j + 1];
        }
      }
      UnpacksJoin(c, vs[1..], tail);
      assert vs == [vs[0]] + vs[1..];
    } else {
      assert Join(c, vs) + tail == tail;
    }
  }

  /** The round trip the codecs are built on. */
  lemma UnpacksJoinAll(c: Codec, vs: seq<Value>)
    requires Sound(c) && AllPackable(vs)
    ensures Unpacks(c, Join(c, vs)) == vs
  {
    UnpacksJoin(c, vs, []);
    assert Join(c, vs) + [] == Join(c, vs);
  }

  lemma {:induction false} JoinAppend(c: Codec, xs: seq<Value>, ys: seq<Value>)
    ensures Join(c, xs + ys) == Join(c, xs) + Join(c, ys)
  {
    if xs != [] {
      assert (xs + ys)[1..] == xs[1..] + ys;
      JoinAppend(c, xs[1..], ys);
    } else {
      assert xs + ys == ys;
    }
  }
}
