/**
 * A concrete byte codec that meets `MsgPack.Sound`, so that the assumption the
 * codecs make of the MessagePack library can be met. Every value is written
 * as a tag byte followed by its contents; natural numbers, strings, buffers,
 * arrays and objects are written as runs of items, each item announced by a
 * 1 byte and the run closed by a 0 byte. This is not the MessagePack format:
 * it only shows that a codec with the assumed properties exists.
 */
module TaggedCodec {
  import opened Js
  import opened MsgPack

  /** The result of reading one part from the front of a buffer. */
  datatype Read<T> = Read(value: T, rest: seq<byte>) | Fail

  // ---------------------------------------------------------------------------
  // Writing

  /** A natural number as base-256 digits, least significant first. */
  function Nat(n: nat): seq<byte>
    decreases n
  {
    if n == 0 then [0] else [1, (n % 256) as byte] + Nat(n / 256)
  }

  /** A string as the code points of its characters. */
  function Chars(s: string): seq<byte>
  {
    if s == [] then [0] else [1] + Nat(s[0] as int) + Chars(s[1..])
  }

  /** A buffer as its bytes. */
  function Octets(d: seq<byte>): seq<byte>
  {
    if d == [] then [0] else [1, d[0]] + Octets(d[1..])
  }

  function Pack(v: Value): seq<byte>
    decreases v, 1, 0
  {
    match v
      case Undefined => [0]
      case Null => [0]
      case Bool(b) => if b then [2] else [1]
      case Int(i) => if i >= 0 then [3] + Nat(i) else [4] + Nat(-i)
      case Float(_) => [0]
      case NaN => [5]
      case Str(s) => [6] + Chars(s)
      case Bytes(d) => [7] + Octets(d)
      case List(items) => [8] + PackItems(v, 0)
      case Map(entries) => [9] + PackEntries(v, 0)
  }

  /** The items of an array from index `k` on. */
  function PackItems(v: Value, k: nat): seq<byte>
    requires v.List? && k <= |v.items|
    decreases v, 0, |v.items| - k
  {
    if k == |v.items| then [0] else [1] + (Pack(v.items[k]) + PackItems(v, k + 1))
  }

  /** The entries of an object from index `k` on: each key, then its value. */
  function PackEntries(v: Value, k: nat): seq<byte>
    requires v.Map? && k <= |v.entries|
    decreases v, 0, |v.entries| - k
  {
    if k == |v.entries| then [0]
    else
      assert v.entries[k] in v.entries;
      [1] + (Chars(v.entries[k].0) + (Pack(v.entries[k].1) + PackEntries(v, k + 1)))
  }

  // ---------------------------------------------------------------------------
  // Reading

  function ReadNat(b: seq<byte>): (r: Read<nat>)
    ensures r.Read? ==> |r.rest| < |b|
    decreases |b|
  {
    if |b| == 0 then Fail
    else if b[0] == 0 then Read(0, b[1..])
    else if b[0] != 1 || |b| < 2 then Fail
    else match ReadNat(b[2..])
      case Fail => Fail
      case Read(m, rest) => Read(b[1] as int + 256 * m, rest)
  }

  /** Unicode scalar values, the code points a `char` can hold. */
  predicate Scalar(n: nat)
  {
    n < 0xD800 || 0xE000 <= n < 0x11_0000
  }

  function ReadChars(b: seq<byte>): (r: Read<string>)
    ensures r.Read? ==> |r.rest| < |b|
    decreases |b|
  {
    if |b| == 0 then Fail
    else if b[0] == 0 then Read([], b[1..])
    else if b[0] != 1 then Fail
    else match ReadNat(b[1..])
      case Fail => Fail
      case Read(n, rest) =>
        if !Scalar(n) then Fail
        else match ReadChars(rest)
          case Fail => Fail
          case Read(s, rest') => Read([n as char] + s, rest')
  }

  function ReadOctets(b: seq<byte>): (r: Read<seq<byte>>)
    ensures r.Read? ==> |r.value| + |r.rest| < |b|
    decreases |b|
  {
    if |b| == 0 then Fail
    else if b[0] == 0 then Read([], b[1..])
    else if b[0] != 1 || |b| < 2 then Fail
    else match ReadOctets(b[2..])
      case Fail => Fail
      case Read(d, rest) => Read([b[1]] + d, rest)
  }

  function Unpack(b: seq<byte>): (r: Unpacked)
    ensures r.Unpacked? ==> |r.rest| < |b|
    ensures r.Unpacked? && r.value.Bytes? ==> |r.value.data| < |b|
    decreases |b|, 1
  {
    if |b| == 0 then Malformed
    else if b[0] == 0 then Unpacked(Null, b[1..])
    else if b[0] == 1 then Unpacked(Bool(false), b[1..])
    else if b[0] == 2 then Unpacked(Bool(true), b[1..])
    else if b[0] == 3 || b[0] == 4 then
      match ReadNat(b[1..])
        case Fail => Malformed
        case Read(n, rest) => Unpacked(Int(if b[0] == 3 then n as int else -(n as int)), rest)
    else if b[0] == 5 then Unpacked(NaN, b[1..])
    else if b[0] == 6 then
      match ReadChars(b[1..])
        case Fail => Malformed
        case Read(s, rest) => Unpacked(Str(s), rest)
    else if b[0] == 7 then
      match ReadOctets(b[1..])
        case Fail => Malformed
        case Read(d, rest) => Unpacked(Bytes(d), rest)
    else if b[0] == 8 then
      match ReadItems(b[1..])
        case Fail => Malformed
        case Read(items, rest) => Unpacked(List(items), rest)
    else if b[0] == 9 then
      match ReadEntries(b[1..])
        case Fail => Malformed
        case Read(entries, rest) => Unpacked(Map(entries), rest)
    else Malformed
  }

  function ReadItems(b: seq<byte>): (r: Read<seq<Value>>)
    ensures r.Read? ==> |r.rest| < |b|
    decreases |b|, 0
  {
    if |b| == 0 then Fail
    else if b[0] == 0 then Read([], b[1..])
    else if b[0] != 1 then Fail
    else match Unpack(b[1..])
      case Malformed => Fail
      case Unpacked(v, rest) =>
        match ReadItems(rest)
          case Fail => Fail
          case Read(vs, rest') => Read([v] + vs, rest')
  }

  function ReadEntries(b: seq<byte>): (r: Read<seq<(string, Value)>>)
    ensures r.Read? ==> |r.rest| < |b|
    decreases |b|, 0
  {
    if |b| == 0 then Fail
    else if b[0] == 0 then Read([], b[1..])
    else if b[0] != 1 then Fail
    else match ReadChars(b[1..])
      case Fail => Fail
      case Read(k, rest) =>
        match Unpack(rest)
          case Malformed => Fail
          case Unpacked(v, rest') =>
            match ReadEntries(rest')
              case Fail => Fail
              case Read(es, rest'') => Read([(k, v)] + es, rest'')
  }

  /** The codec itself. */
  function Tagged(): Codec
  {
    Codec(v => Pack(v), b => Unpack(b))
  }

  // ---------------------------------------------------------------------------
  // Round trips

  lemma {:induction false} NatRoundTrip(n: nat, rest: seq<byte>)
    ensures ReadNat(Nat(n) + rest) == Read(n, rest)
    decreases n
  {
    if n == 0 {
      assert (Nat(n) + rest)[1..] == rest;
    } else {
      var b := Nat(n) + rest;
      assert b[2..] == Nat(n / 256) + rest;
      NatRoundTrip(n / 256, rest);
    }
  }

  lemma {:induction false} CharsRoundTrip(s: string, rest: seq<byte>)
    ensures ReadChars(Chars(s) + rest) == Read(s, rest)
  {
    var b := Chars(s) + rest;
    if s == [] {
      assert b[1..] == rest;
    } else {
      assert b[1..] == Nat(s[0] as int) + (Chars(s[1..]) + rest);
      NatRoundTrip(s[0] as int, Chars(s[1..]) + rest);
      CharsRoundTrip(s[1..], rest);
      assert [(s[0] as int) as char] + s[1..] == s;
    }
  }

  lemma {:induction false} OctetsRoundTrip(d: seq<byte>, rest: seq<byte>)
    ensures ReadOctets(Octets(d) + rest) == Read(d, rest)
  {
    var b := Octets(d) + rest;
    if d == [] {
      assert b[1..] == rest;
    } else {
      assert b[2..] == Octets(d[1..]) + rest;
      OctetsRoundTrip(d[1..], rest);
      assert [d[0]] + d[1..] == d;
    }
  }

  /** Reading back what `Pack` wrote gives the value and what followed, for every value MessagePack carries. */
  lemma {:induction false} PackRoundTrip(v: Value, rest: seq<byte>)
    requires Packable(v)
    ensures Unpack(Pack(v) + rest) == Unpacked(v, rest)
    decreases v, 1, 0
  {
    match v
      case Null => ScalarRoundTrip(v, rest);
      case Bool(_) => ScalarRoundTrip(v, rest);
      case NaN => ScalarRoundTrip(v, rest);
      case Int(_) => IntRoundTrip(v, rest);
      case Str(_) => StrRoundTrip(v, rest);
      case Bytes(_) => BytesRoundTrip(v, rest);
      case List(items) =>
        ItemsRoundTrip(v, 0, rest);
        ListRoundTrip(v, rest);
      case Map(entries) =>
        EntriesRoundTrip(v, 0, rest);
        MapRoundTrip(v, rest);
  }

  lemma ScalarRoundTrip(v: Value, rest: seq<byte>)
    requires v.Null? || v.Bool? || v.NaN?
    ensures Unpack(Pack(v) + rest) == Unpacked(v, rest)
  {
    assert (Pack(v) + rest)[1..] == rest;
  }

  lemma IntRoundTrip(v: Value, rest: seq<byte>)
    requires v.Int?
    ensures Unpack(Pack(v) + rest) == Unpacked(v, rest)
  {
    var n: nat := if v.i >= 0 then v.i else -v.i;
    assert (Pack(v) + rest)[1..] == Nat(n) + rest;
    NatRoundTrip(n, rest);
  }

  lemma StrRoundTrip(v: Value, rest: seq<byte>)
    requires v.Str?
    ensures Unpack(Pack(v) + rest) == Unpacked(v, rest)
  {
    assert (Pack(v) + rest)[1..] == Chars(v.s) + rest;
    CharsRoundTrip(v.s, rest);
  }

  lemma BytesRoundTrip(v: Value, rest: seq<byte>)
    requires v.Bytes?
    ensures Unpack(Pack(v) + rest) == Unpacked(v, rest)
  {
    assert (Pack(v) + rest)[1..] == Octets(v.data) + rest;
    OctetsRoundTrip(v.data, rest);
  }

  lemma ListRoundTrip(v: Value, rest: seq<byte>)
    requires v.List? && ReadItems(PackItems(v, 0) + rest) == Read(v.items[0..], rest)
    ensures Unpack(Pack(v) + rest) == Unpacked(v, rest)
  {
    assert (Pack(v) + rest)[1..] == PackItems(v, 0) + rest;
    assert v.items[0..] == v.items;
  }

  lemma MapRoundTrip(v: Value, rest: seq<byte>)
    requires v.Map? && ReadEntries(PackEntries(v, 0) + rest) == Read(v.entries[0..], rest)
    ensures Unpack(Pack(v) + rest) == Unpacked(v, rest)
  {
    var b := Pack(v) + rest;
    assert b[0] == 9 && b[1..] == PackEntries(v, 0) + rest by {
      assert Pack(v) == [9] + PackEntries(v, 0);
    }
    assert v.entries[0..] == v.entries;
    UnpackMapTag(b);
  }

  /** A buffer tagged 9 unpacks to the map its entries read as. */
  lemma UnpackMapTag(b: seq<byte>)
    requires |b| > 0 && b[0] == 9 && ReadEntries(b[1..]).Read?
    ensures Unpack(b) == Unpacked(Map(ReadEntries(b[1..]).value), ReadEntries(b[1..]).rest)
  {
  }

  lemma {:induction false} ItemsRoundTrip(v: Value, k: nat, rest: seq<byte>)
    requires v.List? && k <= |v.items| && Packable(v)
    ensures ReadItems(PackItems(v, k) + rest) == Read(v.items[k..], rest)
    decreases v, 0, |v.items| - k
  {
    var b := PackItems(v, k) + rest;
    if k == |v.items| {
      assert b[1..] == rest;
    } else {
      var after := PackItems(v, k + 1) + rest;
      assert b[1..] == Pack(v.items[k]) + after;
      PackRoundTrip(v.items[k], after);
      ItemsRoundTrip(v, k + 1, rest);
      assert [v.items[k]] + v.items[k + 1..] == v.items[k..];
    }
  }

  lemma {:induction false} EntriesRoundTrip(v: Value, k: nat, rest: seq<byte>)
    requires v.Map? && k <= |v.entries| && Packable(v)
    ensures ReadEntries(PackEntries(v, k) + rest) == Read(v.entries[k..], rest)
    decreases v, 0, |v.entries| - k
  {
    if k == |v.entries| {
      assert (PackEntries(v, k) + rest)[1..] == rest;
      assert v.entries[k..] == [];
    } else {
      var e := v.entries[k];
      assert e in v.entries;
      var after := PackEntries(v, k + 1) + rest;
      CharsRoundTrip(e.0, Pack(e.1) + after);
      PackRoundTrip(e.1, after);
      EntriesRoundTrip(v, k + 1, rest);
      EntryStep(v, k, rest);
    }
  }

  /** One entry of an object: its key, its value, then the entries after it. */
  lemma EntryStep(v: Value, k: nat, rest: seq<byte>)
    requires v.Map? && k < |v.entries|
    requires var after := PackEntries(v, k + 1) + rest;
      && ReadChars(Chars(v.entries[k].0) + (Pack(v.entries[k].1) + after)) == Read(v.entries[k].0, Pack(v.entries[k].1) + after)
      && Unpack(Pack(v.entries[k].1) + after) == Unpacked(v.entries[k].1, after)
      && ReadEntries(after) == Read(v.entries[k + 1..], rest)
    ensures ReadEntries(PackEntries(v, k) + rest) == Read(v.entries[k..], rest)
  {
    var e := v.entries[k];
    var after := PackEntries(v, k + 1) + rest;
    Shift(Chars(e.0), Pack(e.1), PackEntries(v, k + 1), rest);
    assert v.entries[k..] == [e] + v.entries[k + 1..];
  }

  /** Appending to a run announced by a 1 byte. */
  lemma Shift(x: seq<byte>, y: seq<byte>, z: seq<byte>, rest: seq<byte>)
    ensures var b := ([1] + (x + (y + z))) + rest;
      b[0] == 1 && b[1..] == x + (y + (z + rest))
  {
    assert ([1] + (x + (y + z))) + rest == [1] + (x + (y + (z + rest)));
  }

  /** The tagged codec has every property the codecs assume of MessagePack. */
  lemma TaggedSound()
    ensures Sound(Tagged())
  {
    var c := Tagged();
    forall v, rest | Packable(v)
      ensures c.unpack(c.pack(v) + rest) == Unpacked(v, rest)
    {
      PackRoundTrip(v, rest);
    }
  }

  /** With the tagged codec, unpacking the joined encodings of packable values gives them back. */
  lemma TaggedUnpacksJoinAll(vs: seq<Value>)
    requires AllPackable(vs)
    ensures Sound(Tagged()) && Unpacks(Tagged(), Join(Tagged(), vs)) == vs
  {
    TaggedSound();
    UnpacksJoinAll(Tagged(), vs);
  }
}
