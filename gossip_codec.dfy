/**
 * The gossip codec: a membership snapshot written as a fixed sequence of
 * MessagePack values behind a two-byte big-endian length prefix. Field order:
 * four IP octets, gossip port, data port, timestamp, key flag, [public key],
 * tags, members (each as six integers), clock, event listeners.
 */
module GossipCodec {
  import opened Wrappers
  import opened Js
  import opened Text
  import opened MsgPack
  import Framing
  import opened MemberKey

  /** A gossip snapshot, as the program builds it and as decoding returns it. */
  datatype GossipMessage = GossipMessage(
    ip: string,
    gossipPort: Value,
    dataPort: Value,
    timestamp: Value,
    publicKey: Value,
    tags: seq<(string, Value)>,
    members: seq<string>,
    clock: seq<Value>,
    eventListeners: seq<(string, Value)>)

  /** `message.publicKey != undefined` (loose, so `null` counts as absent). */
  predicate HasKey(m: GossipMessage)
  {
    !(m.publicKey.Undefined? || m.publicKey.Null?)
  }

  /** The members array `encode` builds: one six-integer list per key. */
  function MemberLists(members: seq<string>): (ls: seq<Value>)
    ensures |ls| == |members|
  {
    seq(|members|, j requires 0 <= j < |members| => List(MemberFields(members[j])))
  }

  lemma MemberListsAt(members: seq<string>, j: nat)
    requires j < |members|
    ensures MemberLists(members)[j] == List(MemberFields(members[j]))
  {
  }

  lemma MemberListsSnoc(members: seq<string>, i: nat)
    requires i < |members|
    ensures MemberLists(members[..i + 1]) == MemberLists(members[..i]) + [List(MemberFields(members[i]))]
  {
    var l, r := MemberLists(members[..i + 1]), MemberLists(members[..i]) + [List(MemberFields(members[i]))];
    forall j | 0 <= j < i + 1
      ensures l[j] == r[j]
    {
      if j < i {
        MemberListsAt(members[..i + 1], j);
        MemberListsAt(members[..i], j);
      }
    }
  }

  /**
   * The `toPack` array of `encode`, given the converted octets, ports and
   * timestamp: those seven numbers, the key flag, the key when there is one,
   * then the tags, the member lists, the clock and the event listeners.
   */
  function ToPack(o: seq<Value>, gossipPort: Value, dataPort: Value, timestamp: Value, m: GossipMessage): (vs: seq<Value>)
    requires |o| == 4
    ensures |vs| == if HasKey(m) then 13 else 12
  {
    if HasKey(m) then
      [o[0], o[1], o[2], o[3], gossipPort, dataPort, timestamp,
       Bool(true), m.publicKey, Map(m.tags), List(MemberLists(m.members)), List(m.clock), Map(m.eventListeners)]
    else
      [o[0], o[1], o[2], o[3], gossipPort, dataPort, timestamp,
       Bool(false), Map(m.tags), List(MemberLists(m.members)), List(m.clock), Map(m.eventListeners)]
  }

  /** The first eight packed values: the octets, ports and timestamp, then whether a key follows. */
  lemma ToPackHead(o: seq<Value>, gossipPort: Value, dataPort: Value, timestamp: Value, m: GossipMessage)
    requires |o| == 4
    ensures var u := ToPack(o, gossipPort, dataPort, timestamp, m);
      && At(u, 0) == o[0] && At(u, 1) == o[1] && At(u, 2) == o[2] && At(u, 3) == o[3]
      && At(u, 4) == gossipPort && At(u, 5) == dataPort && At(u, 6) == timestamp && At(u, 7) == Bool(HasKey(m))
  {
  }

  /** The packed values after the flag: the key when there is one, then the four collections. */
  lemma ToPackTail(o: seq<Value>, gossipPort: Value, dataPort: Value, timestamp: Value, m: GossipMessage)
    requires |o| == 4
    ensures var u := ToPack(o, gossipPort, dataPort, timestamp, m); var i := if HasKey(m) then 9 else 8;
      && (HasKey(m) ==> At(u, 8) == m.publicKey)
      && At(u, i) == Map(m.tags) && At(u, i + 1) == List(MemberLists(m.members))
      && At(u, i + 2) == List(m.clock) && At(u, i + 3) == Map(m.eventListeners)
  {
  }

  /** The values `encode` packs for a snapshot, in order. */
  function Fields(m: GossipMessage): (vs: seq<Value>)
  {
    ToPack(Octets(m.ip), ParseIntValue(m.gossipPort), ParseIntValue(m.dataPort), Floor(m.timestamp), m)
  }

  /** `encode`: the packed fields as one length-prefixed frame; `None` when `writeUInt16BE` throws. */
  function Encode(c: Codec, m: GossipMessage): Option<seq<byte>>
  {
    PackedFrame(c, Fields(m))
  }

  /** `encode` as the program runs it: a loop converts the members, another packs the fields. */
  method EncodeMessage(c: Codec, m: GossipMessage) returns (r: Option<seq<byte>>)
    ensures r == Encode(c, m)
  {
    var members: seq<Value> := [];
    var i := 0;
    while i < |m.members|
      invariant 0 <= i <= |m.members|
      invariant members == MemberLists(m.members[..i])
    {
      MemberListsSnoc(m.members, i);
      members := members + [List(MemberFields(m.members[i]))];
      i := i + 1;
    }
    assert m.members[..i] == m.members;
    var o := Octets(m.ip);
    var toPack: seq<Value>;
    if HasKey(m) {
      toPack := [o[0], o[1], o[2], o[3], ParseIntValue(m.gossipPort), ParseIntValue(m.dataPort), Floor(m.timestamp),
                 Bool(true), m.publicKey, Map(m.tags), List(members), List(m.clock), Map(m.eventListeners)];
    } else {
      toPack := [o[0], o[1], o[2], o[3], ParseIntValue(m.gossipPort), ParseIntValue(m.dataPort), Floor(m.timestamp),
                 Bool(false), Map(m.tags), List(members), List(m.clock), Map(m.eventListeners)];
    }
    assert toPack == Fields(m);
    var buff := PackAll(c, toPack);
    if |buff| >= 65536 {
      return None;
    }
    r := Some(Framing.U16BE(|buff|) + buff);
  }

  /** `member[0] + '.' + ... + ':' + member[5]`; `None` is the TypeError on a missing entry. */
  function DecodeMember(v: Value): (r: Option<string>)
    ensures r.None? <==> v.Undefined? || v.Null?
  {
    if v.Undefined? || v.Null? then None
    else Some(KeyText(Index(v, 0).value, Index(v, 1).value, Index(v, 2).value, Index(v, 3).value, Index(v, 4).value, Index(v, 5).value))
  }

  /**
   * A loop that converts every entry with `f` and pushes the result, stopping
   * with an error at the first entry `f` cannot convert.
   */
  function DecodeAll<T>(vs: seq<Value>, f: Value -> Option<T>): (r: Option<seq<T>>)
    ensures r.None? <==> exists j :: 0 <= j < |vs| && f(vs[j]).None?
    ensures r.Some? ==> |r.value| == |vs|
  {
    if exists j :: 0 <= j < |vs| && f(vs[j]).None? then None
    else Some(seq(|vs|, j requires 0 <= j < |vs| && f(vs[j]).Some? => f(vs[j]).value))
  }

  /** Each converted entry sits at the position of the entry it came from. */
  lemma DecodeAllAt<T>(vs: seq<Value>, f: Value -> Option<T>, j: nat)
    requires DecodeAll(vs, f).Some? && j < |vs|
    ensures f(vs[j]) == Some(DecodeAll(vs, f).value[j])
  {
  }

  /** An entry that converts extends what was converted before it. */
  lemma DecodeAllSnoc<T>(vs: seq<Value>, f: Value -> Option<T>, i: nat)
    requires i < |vs| && DecodeAll(vs[..i], f).Some? && f(vs[i]).Some?
    ensures DecodeAll(vs[..i + 1], f) == Some(DecodeAll(vs[..i], f).value + [f(vs[i]).value])
  {
    var init, next := vs[..i], vs[..i + 1];
    forall j | 0 <= j < |next|
      ensures f(next[j]).Some?
    {
      if j < i { assert next[j] == init[j]; }
    }
    assert DecodeAll(next, f).Some?;
    var l, r := DecodeAll(next, f).value, DecodeAll(init, f).value + [f(vs[i]).value];
    assert |l| == |r|;
    forall j | 0 <= j < |l|
      ensures l[j] == r[j]
    {
      assert l[j] == f(next[j]).value;
      if j < i {
        assert next[j] == init[j];
        assert r[j] == f(init[j]).value;
      } else {
        assert next[j] == vs[i];
      }
    }
    assert l == r;
  }

  /** Once an entry fails, the whole loop fails. */
  lemma DecodeAllPrefix<T>(vs: seq<Value>, f: Value -> Option<T>, k: nat)
    requires k <= |vs| && DecodeAll(vs[..k], f).None?
    ensures DecodeAll(vs, f).None?
  {
    var j :| 0 <= j < k && f(vs[..k][j]).None?;
    assert f(vs[j]).None?;
  }

  /** When every entry converts to the matching result, the loop yields exactly those results. */
  lemma DecodeAllOf<T>(vs: seq<Value>, f: Value -> Option<T>, rs: seq<T>)
    requires |vs| == |rs|
    requires forall j :: 0 <= j < |vs| ==> f(vs[j]) == Some(rs[j])
    ensures DecodeAll(vs, f) == Some(rs)
  {
    assert DecodeAll(vs, f).Some?;
    var r := DecodeAll(vs, f).value;
    forall j | 0 <= j < |vs|
      ensures r[j] == rs[j]
    {
      assert r[j] == f(vs[j]).value;
    }
    assert r == rs;
  }

  /** The members loop of `decode`: one key per entry, or the TypeError of a missing entry. */
  function DecodeMembers(vs: seq<Value>): (r: Option<seq<string>>)
    ensures r.None? <==> exists j :: 0 <= j < |vs| && (vs[j].Undefined? || vs[j].Null?)
  {
    DecodeAll(vs, DecodeMember)
  }

  /**
   * The walk over the unpacked values. Missing values read as `undefined`; the
   * only error is a member entry that is `undefined` or `null`.
   */
  function FromFields(u: seq<Value>): Option<GossipMessage>
  {
    var ip := DottedQuad(Show(At(u, 0)), Show(At(u, 1)), Show(At(u, 2)), Show(At(u, 3)));
    var hasKey := Truthy(At(u, 7));
    var i := if hasKey then 9 else 8;
    match DecodeMembers(Elements(At(u, i + 1)))
      case None => None
      case Some(members) =>
        Some(GossipMessage(ip, At(u, 4), At(u, 5), At(u, 6), if hasKey then At(u, 8) else Undefined,
                           Entries(At(u, i)), members, Elements(At(u, i + 2)), Entries(At(u, i + 3))))
  }

  /** `bl(bytes).consume(2)`: a buffer shorter than two bytes is emptied. */
  function SkipPrefix(bytes: seq<byte>): (r: seq<byte>)
    ensures |bytes| >= 2 ==> r == bytes[2..]
    ensures |bytes| < 2 ==> r == []
  {
    if |bytes| >= 2 then bytes[2..] else []
  }

  /** `decode`: skip the prefix, unpack until the end or an error, then walk the values. */
  function Decode(c: Codec, bytes: seq<byte>): Option<GossipMessage>
    requires Consumes(c)
  {
    FromFields(Unpacks(c, SkipPrefix(bytes)))
  }

  /** The members loop of `decode`: it stops at the first entry that throws. */
  method DecodeMemberList(vs: seq<Value>) returns (r: Option<seq<string>>)
    ensures r == DecodeMembers(vs)
  {
    var members: seq<string> := [];
    var i := 0;
    while i < |vs|
      invariant 0 <= i <= |vs|
      invariant DecodeMembers(vs[..i]) == Some(members)
    {
      var member := vs[i];
      if member.Undefined? || member.Null? {
        assert DecodeMember(vs[..i + 1][i]).None?;
        DecodeAllPrefix(vs, DecodeMember, i + 1);
        return None;
      }
      DecodeAllSnoc(vs, DecodeMember, i);
      members := members + [DecodeMember(member).value];
      i := i + 1;
    }
    assert vs[..i] == vs;
    return Some(members);
  }

  /** `decode` as the program runs it: the unpacking loop, the index walk and the member loop. */
  method DecodeMessage(c: Codec, bytes: seq<byte>) returns (r: Option<GossipMessage>)
    requires Consumes(c)
    ensures r == Decode(c, bytes)
  {
    var unpacked := UnpackAll(c, SkipPrefix(bytes));
    r := IndexWalk(unpacked);
  }

  /** The index walk of `decode` over the unpacked values, and the member loop. */
  method IndexWalk(unpacked: seq<Value>) returns (r: Option<GossipMessage>)
    ensures r == FromFields(unpacked)
  {
    var index := 0;
    var ip := DottedQuad(Show(At(unpacked, 0)), Show(At(unpacked, 1)), Show(At(unpacked, 2)), Show(At(unpacked, 3)));
    index := 4;
    var gossipPort := At(unpacked, index);
    var dataPort := At(unpacked, index + 1);
    var timestamp := At(unpacked, index + 2);
    var hasPublicKey := At(unpacked, index + 3);
    index := index + 4;
    var publicKey := Undefined;
    if Truthy(hasPublicKey) {
      publicKey := At(unpacked, index);
      index := index + 1;
    }
    var tags := Entries(At(unpacked, index));
    var memberValues := Elements(At(unpacked, index + 1));
    var members := DecodeMemberList(memberValues);
    if members.None? {
      return None;
    }
    var clock := Elements(At(unpacked, index + 2));
    var eventListeners := Entries(At(unpacked, index + 3));
    r := Some(GossipMessage(ip, gossipPort, dataPort, timestamp, publicKey, tags, members.value, clock, eventListeners));
  }

  // ---------------------------------------------------------------------------
  // Properties

  /** Each member key is written as six integers and rebuilt as the same key. */
  lemma MemberKeyRoundTrip(key: string)
    requires CanonicalKey(key)
    ensures DecodeMember(List(MemberFields(key))) == Some(key)
  {
    KeyRoundTrip(key);
  }

  /**
   * The walk fails only when an entry of the members array is `undefined` or
   * `null`; every other shape of the values still yields a snapshot.
   */
  lemma WalkFails(u: seq<Value>)
    ensures var ms := Elements(At(u, if Truthy(At(u, 7)) then 10 else 9));
      FromFields(u).None? <==> exists j :: 0 <= j < |ms| && (ms[j].Undefined? || ms[j].Null?)
  {
  }

  /** What the round trip needs: canonical addresses, integer ports and timestamp, no `null` key. */
  predicate WellFormed(m: GossipMessage)
  {
    && CanonicalIp(m.ip)
    && m.gossipPort.Int? && m.dataPort.Int? && m.timestamp.Int?
    && !m.publicKey.Null?
    && forall j :: 0 <= j < |m.members| ==> CanonicalKey(m.members[j])
  }

  /** The walk reads the address back from the first four fields. */
  lemma AddressField(m: GossipMessage)
    requires CanonicalIp(m.ip)
    ensures var u := Fields(m); DottedQuad(Show(At(u, 0)), Show(At(u, 1)), Show(At(u, 2)), Show(At(u, 3))) == m.ip
  {
    ToPackHead(Octets(m.ip), ParseIntValue(m.gossipPort), ParseIntValue(m.dataPort), Floor(m.timestamp), m);
    OctetsRoundTrip(m.ip);
  }

  /** The walk reads the member keys back from the member lists. */
  lemma MembersField(m: GossipMessage)
    requires forall j :: 0 <= j < |m.members| ==> CanonicalKey(m.members[j])
    ensures DecodeMembers(Elements(At(Fields(m), if HasKey(m) then 10 else 9))) == Some(m.members)
  {
    var ms := MemberLists(m.members);
    ToPackTail(Octets(m.ip), ParseIntValue(m.gossipPort), ParseIntValue(m.dataPort), Floor(m.timestamp), m);
    assert Elements(At(Fields(m), if HasKey(m) then 10 else 9)) == ms;
    forall j | 0 <= j < |ms|
      ensures DecodeMember(ms[j]) == Some(m.members[j])
    {
      MemberListsAt(m.members, j);
      MemberKeyRoundTrip(m.members[j]);
    }
    DecodeAllOf(ms, DecodeMember, m.members);
  }

  /** The walk returns `m` from any values that sit where `encode` puts the fields of `m`. */
  lemma WalkFields(u: seq<Value>, m: GossipMessage)
    requires DottedQuad(Show(At(u, 0)), Show(At(u, 1)), Show(At(u, 2)), Show(At(u, 3))) == m.ip
    requires At(u, 4) == m.gossipPort && At(u, 5) == m.dataPort && At(u, 6) == m.timestamp
    requires At(u, 7) == Bool(HasKey(m)) && (HasKey(m) ==> At(u, 8) == m.publicKey) && !m.publicKey.Null?
    requires var i := if HasKey(m) then 9 else 8;
      && At(u, i) == Map(m.tags) && DecodeMembers(Elements(At(u, i + 1))) == Some(m.members)
      && At(u, i + 2) == List(m.clock) && At(u, i + 3) == Map(m.eventListeners)
    ensures FromFields(u) == Some(m)
  {
  }

  /** Walking the packed fields of a well-formed snapshot gives back the snapshot. */
  lemma FieldsRoundTrip(m: GossipMessage)
    requires WellFormed(m)
    ensures FromFields(Fields(m)) == Some(m)
  {
    var o, gp, dp, ts := Octets(m.ip), ParseIntValue(m.gossipPort), ParseIntValue(m.dataPort), Floor(m.timestamp);
    ToPackHead(o, gp, dp, ts, m);
    ToPackTail(o, gp, dp, ts, m);
    AddressField(m);
    MembersField(m);
    ParseIntOfInt(m.gossipPort.i);
    ParseIntOfInt(m.dataPort.i);
    WalkFields(Fields(m), m);
  }

  /** Decoding an encoded snapshot gives back the same snapshot. */
  lemma RoundTrip(c: Codec, m: GossipMessage)
    requires Sound(c) && WellFormed(m) && AllPackable(Fields(m)) && |Join(c, Fields(m))| < 65536
    ensures Encode(c, m).Some? && Decode(c, Encode(c, m).value) == Some(m)
  {
    UnpacksJoinAll(c, Fields(m));
    assert Unpacks(c, SkipPrefix(Encode(c, m).value)) == Fields(m);
    FieldsRoundTrip(m);
  }

  lemma UnpacksBeforeError(c: Codec, prefix: seq<byte>, vs: seq<Value>, bad: seq<byte>)
    requires Sound(c) && AllPackable(vs) && |prefix| == 2 && c.unpack(bad).Malformed?
    ensures Unpacks(c, SkipPrefix(prefix + Join(c, vs) + bad)) == vs
  {
    assert SkipPrefix(prefix + Join(c, vs) + bad) == Join(c, vs) + bad;
    UnpacksJoin(c, vs, bad);
    assert vs + [] == vs;
  }

  /** Unpacking stops at the first value that cannot be read; what came before is kept. */
  lemma DecodeStopsAtError(c: Codec, prefix: seq<byte>, vs: seq<Value>, bad: seq<byte>)
    requires Sound(c) && AllPackable(vs) && |prefix| == 2 && c.unpack(bad).Malformed?
    ensures Decode(c, prefix + Join(c, vs) + bad) == FromFields(vs)
  {
    UnpacksBeforeError(c, prefix, vs, bad);
  }
}
