/**
 * Multicast discovery: the announcement a member sends when it joins, and
 * what a member does with an announcement it hears.
 */
module Discovery {
  import opened Wrappers
  import opened Js
  import opened Utils
  import opened GossipCodec
  import opened MemberDatabase

  type Tags = seq<(string, Value)>

  // ---------------------------------------------------------------------------
  // Tag copying

  /** `for (var k in src) dst[k] = src[k]`: each entry of `src`, in order, assigned into `dst`. */
  function Merged(dst: Tags, src: Tags): Tags
    decreases |src|
  {
    if src == [] then dst else Merged(Assign(dst, src[0].0, src[0].1), src[1..])
  }

  /**
   * After the copy, a key `src` holds has `src`'s value, and every other key
   * keeps the value it had in `dst`: keys `src` lacks are not removed.
   */
  lemma {:induction false} MergedLookup(dst: Tags, src: Tags, k: string)
    requires DistinctKeys(src)
    ensures Lookup(Merged(dst, src), k) == if k in KeysOf(src) then Lookup(src, k) else Lookup(dst, k)
    decreases |src|
  {
    if src != [] {
      var rest := src[1..];
      assert DistinctKeys(rest) by {
        forall a, b | 0 <= a < b < |rest| ensures rest[a].0 != rest[b].0 {
          assert rest[a] == src[a + 1] && rest[b] == src[b + 1];
        }
      }
      assert KeysOf(src) == [src[0].0] + KeysOf(rest);
      MergedLookup(Assign(dst, src[0].0, src[0].1), rest, k);
      if k == src[0].0 {
        assert k !in KeysOf(rest) by {
          forall j | 0 <= j < |rest| ensures KeysOf(rest)[j] != k {
            assert rest[j] == src[j + 1];
          }
        }
      }
    }
  }

  /** The copy loop, run entry by entry. */
  method MergeTags(dst: Tags, src: Tags) returns (r: Tags)
    ensures r == Merged(dst, src)
  {
    r := dst;
    var i := 0;
    while i < |src|
      invariant 0 <= i <= |src|
      invariant Merged(r, src[i..]) == Merged(dst, src)
    {
      assert src[i..][1..] == src[i + 1..];
      r := Assign(r, src[i].0, src[i].1);
      i := i + 1;
    }
  }

  // ---------------------------------------------------------------------------
  // announce

  /**
   * The announcement for a member at `addr` whose sequence is now `sequence`:
   * its address, the time, its tags, itself as the only member with the
   * sequence as the only clock entry, its public key, and no listeners.
   */
  function Announcement(addr: Address, sequence: int, tags: Tags, publicKey: Value, now: real): (m: GossipMessage)
  {
    GossipMessage(addr.ip, Str(addr.gossipPort), Str(addr.dataPort), Number(now), publicKey,
                  Merged([], tags), [KeyOf(addr)], [Int(sequence)], [])
  }

  /**
   * An announcement names its sender by the member's own key, lists only that
   * key with the new sequence beside it, declares no listeners, and carries
   * every tag of the member with its value.
   */
  lemma AnnouncementShape(addr: Address, sequence: int, tags: Tags, publicKey: Value, now: real, k: string)
    requires DistinctKeys(tags)
    ensures var m := Announcement(addr, sequence, tags, publicKey, now);
      && Key(m.ip, Show(m.gossipPort), Show(m.dataPort)) == KeyOf(addr)
      && m.members == [KeyOf(addr)] && m.clock == [Int(sequence)] && ToNumber(m.clock[0]) == Some(sequence as real)
      && m.eventListeners == [] && m.publicKey == publicKey
      && Lookup(m.tags, k) == Lookup(tags, k)
  {
    var m := Announcement(addr, sequence, tags, publicKey, now);
    assert Show(m.gossipPort) == addr.gossipPort && Show(m.dataPort) == addr.dataPort;
    assert ToNumber(m.clock[0]) == Some(sequence as real);
    CopiedTags(tags, k);
  }

  /** Copying tags into an empty object gives each tag its own value. */
  lemma CopiedTags(tags: Tags, k: string)
    requires DistinctKeys(tags)
    ensures Lookup(Merged([], tags), k) == Lookup(tags, k)
  {
    MergedLookup([], tags, k);
  }

  /** The local member as `announce` reads and updates it. */
  class Local {
    const addr: Address
    var sequence: int
    var tags: Tags
    var publicKey: Value

    constructor (addr: Address, tags: Tags, publicKey: Value)
      ensures this.addr == addr && sequence == 0 && this.tags == tags && this.publicKey == publicKey
    {
      this.addr := addr;
      sequence := 0;
      this.tags := tags;
      this.publicKey := publicKey;
    }

    /**
     * `announce`: bumps the sequence by one and builds the announcement; the
     * time of day is given, since it is read from the clock.
     */
    method Announce(now: real) returns (message: GossipMessage)
      modifies this`sequence
      ensures sequence == old(sequence) + 1
      ensures message == Announcement(addr, sequence, tags, publicKey, now)
    {
      var copied := MergeTags([], tags);
      sequence := sequence + 1;
      message := GossipMessage(addr.ip, Str(addr.gossipPort), Str(addr.dataPort), Number(now), publicKey,
                               copied, [KeyOf(addr)], [Int(sequence)], []);
    }
  }

  // ---------------------------------------------------------------------------
  // The receive handler

  /** `message.ip + ":" + message.gossipPort + ":" + message.dataPort`. */
  function SenderOf(message: GossipMessage): string
  {
    Key(message.ip, Show(message.gossipPort), Show(message.dataPort))
  }

  /**
   * The member the handler passes to `updateMemberStatus`: the known member,
   * or a new Alive one at the sender's address with sequence 0 and the public
   * key when the message has one; either way with the message's tags copied in.
   */
  function Heard(known: Option<Member>, message: GossipMessage): Member
  {
    var base := match known
      case Some(m) => m
      case None =>
        Member(Address(message.ip, Show(message.gossipPort), Show(message.dataPort)), Alive, 0.0, [],
               if HasKey(message) then message.publicKey else Undefined);
    base.(tags := Merged(base.tags, message.tags))
  }

  /** The member table after hearing `message`. */
  function Hear(t: Table, message: GossipMessage): Table
  {
    var key := SenderOf(message);
    UpdateStatus(t, Heard(if key in t.members then Some(t.members[key]) else None, message))
  }

  /**
   * Hearing an announcement stores the sender under its key and touches no
   * other member. A new sender is Alive and active, with the message's public
   * key when it has one; a known sender keeps its address, status, sequence,
   * public key and its place among the active or dead. The sender's tags
   * take every tag of the message and keep those the message lacks.
   */
  lemma HearFacts(t: Table, message: GossipMessage, k: string)
    requires Partitioned(t) && DistinctKeys(message.tags)
    ensures var key := SenderOf(message); var r := Hear(t, message);
      && Partitioned(r)
      && key in r.members
      && (forall j :: j in t.members && j != key ==> j in r.members && r.members[j] == t.members[j])
      && (forall j :: j != key ==> (j in r.members <==> j in t.members) && (j in r.active <==> j in t.active) && (j in r.dead <==> j in t.dead))
      && (key !in t.members ==>
            && r.members[key].status == Alive && key in r.active && r.members[key].sequence == 0.0
            && r.members[key].publicKey == (if HasKey(message) then message.publicKey else Undefined))
      && (key in t.members ==>
            && r.members[key] == t.members[key].(tags := r.members[key].tags)
            && (key in r.active <==> key in t.active) && (key in r.dead <==> key in t.dead))
      && Lookup(r.members[key].tags, k) == (if k in KeysOf(message.tags) then Lookup(message.tags, k)
            else if key in t.members then Lookup(t.members[key].tags, k) else None)
  {
    var key := SenderOf(message);
    var known := if key in t.members then Some(t.members[key]) else None;
    var m := Heard(known, message);
    assert KeyOf(m.addr) == key;
    UpdateStatusPartitioned(t, m);
    var base := if key in t.members then t.members[key] else m.(tags := []);
    MergedLookup(base.tags, message.tags, k);
  }

  /** The `'message'` handler over the member database. */
  method OnMessage(db: Database, message: GossipMessage)
    requires db.Valid()
    modifies db`members, db`active, db`dead
    ensures db.Valid()
    ensures Table(db.members, db.active, db.dead) == Hear(old(Table(db.members, db.active, db.dead)), message)
  {
    var key := message.ip + ":" + Show(message.gossipPort) + ":" + Show(message.dataPort);
    var member := db.GetMember(key);
    var heard: Member;
    if member.None? {
      var publicKey := if HasKey(message) then message.publicKey else Undefined;
      heard := Member(Address(message.ip, Show(message.gossipPort), Show(message.dataPort)), Alive, 0.0, [], publicKey);
    } else {
      heard := member.value;
    }
    var tags := MergeTags(heard.tags, message.tags);
    heard := heard.(tags := tags);
    db.UpdateMemberStatus(heard);
  }

  /** The handler on a raw datagram: an undecodable one throws before anything changes. */
  method OnDatagram(db: Database, c: MsgPack.Codec, data: seq<byte>) returns (thrown: bool)
    requires db.Valid() && MsgPack.Consumes(c)
    modifies db`members, db`active, db`dead
    ensures db.Valid()
    ensures thrown <==> Decode(c, data).None?
    ensures thrown ==> Table(db.members, db.active, db.dead) == old(Table(db.members, db.active, db.dead))
    ensures !thrown ==> Table(db.members, db.active, db.dead) == Hear(old(Table(db.members, db.active, db.dead)), Decode(c, data).value)
  {
    var message := Decode(c, data);
    if message.None? {
      return true;
    }
    OnMessage(db, message.value);
    return false;
  }
}
