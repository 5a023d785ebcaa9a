/**
 * The generic codec used for message payloads: `encode` packs the value of
 * every field of a record, in key order, with no field names and no length
 * prefix; `decode` unpacks values until the buffer is empty or a value cannot
 * be read, decoding any binary value again as a nested list.
 */
module GenericCodec {
  import opened Js
  import opened MsgPack

  /** `encode`: the packed field values, joined. */
  function Encode(c: Codec, message: Value): seq<byte>
  {
    Join(c, Elements(message))
  }

  /** `encode` as the program runs it: a `for ... in` loop pushes each packed field. */
  method EncodeMessage(c: Codec, message: Value) returns (b: seq<byte>)
    ensures b == Encode(c, message)
  {
    var fields := Elements(message);
    var arr: seq<seq<byte>> := [];
    var k := 0;
    while k < |fields|
      invariant 0 <= k <= |fields|
      invariant |arr| == k
      invariant forall j :: 0 <= j < k ==> arr[j] == c.pack(fields[j])
    {
      arr := arr + [c.pack(fields[k])];
      k := k + 1;
    }
    b := Concat(arr);
    ConcatPacked(c, fields, arr);
  }

  /** `bops.join`: the buffers one after another. */
  function Concat(bs: seq<seq<byte>>): seq<byte>
  {
    if bs == [] then [] else bs[0] + Concat(bs[1..])
  }

  /** Joining the packed buffers one by one is packing the values together. */
  lemma {:induction false} ConcatPacked(c: Codec, vs: seq<Value>, bs: seq<seq<byte>>)
    requires |bs| == |vs|
    requires forall j :: 0 <= j < |vs| ==> bs[j] == c.pack(vs[j])
    ensures Concat(bs) == Join(c, vs)
  {
    if vs != [] {
      ConcatPacked(c, vs[1..], bs[1..]);
    }
  }

  /** The values `decode` returns from `b`, in order. */
  function Decode(c: Codec, b: seq<byte>): seq<Value>
    requires Consumes(c)
    decreases |b|, 1
  {
    if |b| == 0 then []
    else match c.unpack(b)
      case Malformed => []
      case Unpacked(v, rest) => [Lift(c, v)] + Decode(c, rest)
  }

  /** An unpacked value as `decode` keeps it: a buffer becomes the list of its own decoded values. */
  function Lift(c: Codec, v: Value): Value
    requires Consumes(c)
    decreases if v.Bytes? then |v.data| else 0, 2
  {
    if v.Bytes? then List(Decode(c, v.data)) else v
  }

  /** Every value of `vs`, kept as `decode` keeps it. */
  function Lifted(c: Codec, vs: seq<Value>): (ls: seq<Value>)
    requires Consumes(c)
    ensures |ls| == |vs|
    ensures forall j :: 0 <= j < |vs| ==> ls[j] == Lift(c, vs[j])
  {
    seq(|vs|, j requires 0 <= j < |vs| => Lift(c, vs[j]))
  }

  /** One turn of the decoding loop: the value read, kept as `decode` keeps it, then the rest. */
  lemma DecodeStep(c: Codec, b: seq<byte>, before: seq<Value>, item: Value)
    requires Consumes(c) && |b| > 0 && c.unpack(b).Unpacked? && item == Lift(c, c.unpack(b).value)
    ensures before + Decode(c, b) == (before + [item]) + Decode(c, c.unpack(b).rest)
  {
  }

  /** `decode` as the program runs it: the unpacking loop, calling itself on every buffer. */
  method DecodeMessage(c: Codec, b: seq<byte>) returns (unpacked: seq<Value>)
    requires Consumes(c)
    ensures unpacked == Decode(c, b)
    decreases |b|
  {
    var buff := b;
    unpacked := [];
    while |buff| > 0
      invariant unpacked + Decode(c, buff) == Decode(c, b)
      decreases |buff|
    {
      match c.unpack(buff)
      case Malformed =>
        break;
      case Unpacked(v, rest) =>
        var item := v;
        if v.Bytes? {
          var obj := DecodeMessage(c, v.data);
          item := List(obj);
        }
        DecodeStep(c, buff, unpacked, item);
        unpacked := unpacked + [item];
        buff := rest;
    }
    if |buff| > 0 {
      assert Decode(c, buff) == [];
    }
    assert unpacked + [] == unpacked;
  }

  // ---------------------------------------------------------------------------
  // Properties

  /** Empty input decodes to the empty list. */
  lemma DecodeEmpty(c: Codec)
    requires Consumes(c)
    ensures Decode(c, []) == []
  {
  }

  /** Decoding packed values gives them back in order, with every buffer decoded again. */
  lemma {:induction false} DecodeJoin(c: Codec, vs: seq<Value>, tail: seq<byte>)
    requires Sound(c) && AllPackable(vs)
    ensures Decode(c, Join(c, vs) + tail) == Lifted(c, vs) + Decode(c, tail)
  {
    var lifted := Lifted(c, vs);
    if vs == [] {
      assert Join(c, vs) + tail == tail;
    } else {
      var rest := Join(c, vs[1..]) + tail;
      var b := Join(c, vs) + tail;
      assert b == c.pack(vs[0]) + rest;
      PackNonEmpty(c, vs[0]);
      assert c.unpack(b) == Unpacked(vs[0], rest);
      assert Decode(c, b) == [Lift(c, vs[0])] + Decode(c, rest);
      assert AllPackable(vs[1..]) by {
        forall j | 0 <= j < |vs| - 1 ensures Packable(vs[1..][j]) {
          assert vs[1..][j] == vs[j + 1];
        }
      }
      DecodeJoin(c, vs[1..], tail);
      assert lifted == [Lift(c, vs[0])] + Lifted(c, vs[1..]);
    }
  }

  /** Decoding an encoded record yields its field values as a list, in field order. */
  lemma RoundTrip(c: Codec, message: Value)
    requires Sound(c) && AllPackable(Elements(message))
    requires forall j :: 0 <= j < |Elements(message)| ==> !Elements(message)[j].Bytes?
    ensures Decode(c, Encode(c, message)) == Elements(message)
  {
    var vs := Elements(message);
    DecodeJoin(c, vs, []);
    assert Join(c, vs) + [] == Join(c, vs);
    assert Lifted(c, vs) == vs;
  }

  /** A field holding a buffer comes back as the list `decode` makes of that buffer. */
  lemma NestedField(c: Codec, message: Value, j: nat)
    requires Sound(c) && AllPackable(Elements(message)) && j < |Elements(message)| && Elements(message)[j].Bytes?
    ensures var d := Decode(c, Encode(c, message));
      |d| == |Elements(message)| && d[j] == List(Decode(c, Elements(message)[j].data))
  {
    var vs := Elements(message);
    DecodeJoin(c, vs, []);
    assert Join(c, vs) + [] == Join(c, vs);
  }

  lemma DecodeMalformed(c: Codec, bad: seq<byte>)
    requires Consumes(c) && c.unpack(bad).Malformed?
    ensures Decode(c, bad) == []
  {
  }

  lemma AppendEmpty(vs: seq<Value>)
    ensures vs + [] == vs
  {
  }

  /** Unpacking stops at the first value that cannot be read; the values before it are kept. */
  lemma DecodeStopsAtError(c: Codec, vs: seq<Value>, bad: seq<byte>)
    requires Sound(c) && AllPackable(vs) && |bad| > 0 && c.unpack(bad).Malformed?
    ensures Decode(c, Join(c, vs) + bad) == Lifted(c, vs)
  {
    DecodeJoin(c, vs, bad);
    DecodeMalformed(c, bad);
    AppendEmpty(Lifted(c, vs));
  }
}
