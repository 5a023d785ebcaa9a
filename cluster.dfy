// The cluster front end of bigio.js (cluster.js is an earlier revision of the
// same module): per-topic delivery selection, listener registration and the
// reconciliation of gossip snapshots into the member database.

module Cluster {
  import opened Wrappers
  import opened Js
  import opened Text
  import opened Utils
  import opened MsgPack
  import opened EnvelopeCodec
  import opened GossipCodec
  import opened MemberDatabase
  import GenericCodec

  /** `DeliveryType`: BROADCAST (0), ROUND_ROBIN (1) and RANDOM (2). */
  datatype Delivery = Broadcast | RoundRobin | Random

  // ---------------------------------------------------------------------------
  // Outgoing envelopes

  /**
   * The envelope `send` builds. The front end sets `encrypted` and
   * `millisecondsSinceMidnight`, never `isEncrypted` or `message`, so those
   * stay undefined; the time of day arrives as `now`.
   */
  function Outgoing(me: Address, topic: string, partition: Value, messageType: Value, executeTime: Value,
                    now: Value, payload: Value, decoded: bool): (e: Envelope)
    ensures e.senderKey == KeyOf(me) && e.topic == Str(topic) && e.executeTime == executeTime
    ensures e.isEncrypted == Undefined && e.message == Undefined
  {
    Envelope(KeyOf(me), Undefined, Undefined, executeTime, now, Str(topic), partition, messageType, payload, decoded, Undefined)
  }

  /**
   * bigio.js `send`: an absent `offset` is the string '0'; an offset given as
   * `undefined` becomes 0; anything else is kept.
   */
  function ExecuteTime(offset: Option<Value>): (v: Value)
    ensures offset.None? ==> v == Str("0")
    ensures offset == Some(Undefined) ==> v == Int(0)
    ensures offset.Some? && !offset.value.Undefined? ==> v == offset.value
  {
    match offset
      case None => Str("0")
      case Some(Undefined) => Int(0)
      case Some(o) => o
  }

  /** A delivery to one member: the message itself for the local member, its generic encoding otherwise. */
  function PayloadFor(codec: Codec, me: Address, target: Address, message: Value): (p: (Value, bool))
    ensures target == me ==> p == (message, true)
    ensures target != me ==> p == (Bytes(GenericCodec.Encode(codec, message)), false)
  {
    if target == me then (message, true) else (Bytes(GenericCodec.Encode(codec, message)), false)
  }

  /** The delivery of `env` to `target`, with the payload `PayloadFor` chooses. */
  function Addressed(codec: Codec, me: Address, target: Address, env: Envelope, message: Value): (d: (Address, Envelope))
    ensures d.0 == target && d.1.payload == PayloadFor(codec, me, target, message).0
    ensures d.1.decoded == PayloadFor(codec, me, target, message).1
    ensures d.1 == env.(payload := d.1.payload, decoded := d.1.decoded)
  {
    var p := PayloadFor(codec, me, target, message);
    (target, env.(payload := p.0, decoded := p.1))
  }

  /** One copy of the envelope for each registration's member, in order. */
  function Fanout(regs: seq<Registration>, e: Envelope): (out: seq<(Address, Envelope)>)
    ensures |out| == |regs|
    ensures forall i :: 0 <= i < |regs| ==> out[i] == (regs[i].member, e)
  {
    seq(|regs|, i requires 0 <= i < |regs| => (regs[i].member, e))
  }

  /** The delivery type a topic has: BROADCAST until one is set. */
  function KindOf(deliveries: map<string, Delivery>, topic: string): Delivery
  {
    if topic in deliveries then deliveries[topic] else Broadcast
  }

  /** `Math.random() * N`, rounded down: always an index of the N registrations. */
  function Draw(pick: real, n: nat): (i: nat)
    requires 0.0 <= pick < 1.0 && n > 0
    ensures i < n
  {
    var x := pick * n as real;
    assert x < n as real by {
      assert (1.0 - pick) * n as real > 0.0;
    }
    x.Floor
  }

  /** The state `send` changes: the round-robin cursors and every `member.send(envelope)` made so far. */
  datatype Sends = Sends(cursor: map<string, nat>, outbox: seq<(Address, Envelope)>)

  /**
   * What one `send` leaves, for the topic's delivery type and its matching
   * registrations `regs`. Every send made goes to a registered member; round
   * robin and random make one (none without registrations), broadcast one per
   * registration; only round robin moves the topic's cursor, to the index it
   * sent to.
   */
  function Delivered(codec: Codec, me: Address, kind: Delivery, topic: string, regs: seq<Registration>,
                     env: Envelope, message: Value, pick: real, s: Sends): (r: Sends)
    requires kind == RoundRobin ==> topic in s.cursor
    requires 0.0 <= pick < 1.0
    ensures |r.outbox| == |s.outbox| + (if regs == [] then 0 else if kind == Broadcast then |regs| else 1)
    ensures r.outbox[..|s.outbox|] == s.outbox
    ensures forall j :: |s.outbox| <= j < |r.outbox| ==> r.outbox[j].0 in Members(regs)
    ensures kind == RoundRobin && regs != [] ==>
      var i := (s.cursor[topic] + 1) % |regs|;
      r.cursor == s.cursor[topic := i] && r.outbox[|s.outbox|].0 == regs[i].member
    ensures kind != RoundRobin || regs == [] ==> r.cursor == s.cursor
    ensures kind == Broadcast ==> forall j :: 0 <= j < |regs| ==>
      r.outbox[|s.outbox| + j] == (regs[j].member, env.(payload := Bytes(GenericCodec.Encode(codec, message))))
  {
    if regs == [] then s
    else match kind
      case RoundRobin =>
        var i := (s.cursor[topic] + 1) % |regs|;
        Sends(s.cursor[topic := i], s.outbox + [Addressed(codec, me, regs[i].member, env, message)])
      case Random =>
        var i := Draw(pick, |regs|);
        Sends(s.cursor, s.outbox + [Addressed(codec, me, regs[i].member, env, message)])
      case Broadcast =>
        var out := Fanout(regs, env.(payload := Bytes(GenericCodec.Encode(codec, message))));
        Sends(s.cursor, s.outbox + out)
  }

  /** The members a list of registrations names. */
  function Members(regs: seq<Registration>): (m: set<Address>)
    ensures forall k :: 0 <= k < |regs| ==> regs[k].member in m
    ensures forall a :: a in m ==> exists k :: 0 <= k < |regs| && regs[k].member == a
  {
    set k | 0 <= k < |regs| :: regs[k].member
  }

  // ---------------------------------------------------------------------------
  // Gossip reconciliation, as functions of the database state

  /** The member tables and the registration map: what gossip reconciliation changes. */
  datatype View = View(t: Table, registry: Registry)

  /** How far a walk over the snapshot got, and whether the sender's tags are due for a refresh. */
  datatype Progress = Progress(view: View, updateTags: bool, thrown: bool)

  /** The key of the member that sent the snapshot. */
  function SenderKey(msg: GossipMessage): string
  {
    Key(msg.ip, Show(msg.gossipPort), Show(msg.dataPort))
  }

  /**
   * A member first heard of through gossip: its address is the key's
   * `:`-separated parts (a missing part reads `undefined`), it is Alive, with
   * sequence 0, no tags and no public key.
   */
  function Discovered(key: string): (m: Member)
    ensures m.status == Alive && m.sequence == 0.0 && m.tags == []
  {
    var parts := Split(key, ":");
    Member(Address(parts[0], Show(StrAt(parts, 1)), Show(StrAt(parts, 2))), Alive, 0.0, [], Undefined)
  }

  /** The topic strings the snapshot declares for `key`; none when absent. */
  function Declared(msg: GossipMessage, key: string): seq<Value>
  {
    Elements(Lookup(msg.eventListeners, key).GetOr(Undefined))
  }

  /**
   * `topics` of the reconciliation: the value the snapshot declares for
   * `key`, or `[]` when that is `undefined` or absent.
   */
  function Listeners(msg: GossipMessage, key: string): (topics: Value)
    ensures !topics.Undefined?
  {
    match Lookup(msg.eventListeners, key)
      case None => List([])
      case Some(x) => if x.Undefined? then List([]) else x
  }

  /**
   * The strings the topic loop visits are the elements of `topics`: the
   * declared array's items, an object's values, a string's characters, and
   * none for `null`, a number or a boolean.
   */
  lemma ListenersDeclared(msg: GossipMessage, key: string)
    ensures Elements(Listeners(msg, key)) == Declared(msg, key)
    ensures Listeners(msg, key).Str? ==> |Declared(msg, key)| == |Listeners(msg, key).s|
    ensures InThrows(Listeners(msg, key)) && !Listeners(msg, key).Str? ==> Declared(msg, key) == []
  {
  }

  /** `name in topics` throws a TypeError unless `topics` is an object: an array, an object or a buffer. */
  predicate InThrows(topics: Value)
  {
    !(topics.List? || topics.Map? || topics.Bytes?)
  }

  /**
   * The stale-registration scan throws: one of the registrations belongs to
   * the member at `a`, so `name in topics` is evaluated, and the snapshot's
   * `topics` for `key` is not an object (`null`, a string, a number or a
   * boolean).
   */
  predicate StaleScanThrows(reg: Registry, msg: GossipMessage, key: string, a: Address)
  {
    InThrows(Listeners(msg, key)) && Registered(AllRegs(reg), a)
  }

  /** Whether one of `regs` belongs to the member at `a` (the `found` scan). */
  predicate Registered(regs: seq<Registration>, a: Address)
  {
    exists r :: r in regs && r.member == a
  }

  /**
   * One declared topic string: the member is registered for its topic and
   * partition unless it already holds a registration for that topic.
   */
  function Subscribe(reg: Registry, a: Address, s: string): Registry
  {
    var topic := GetTopic(s);
    if Registered(WithTopic(AllRegs(reg), topic), a) then reg
    else Register(reg, KeyOf(a), Registration(a, topic, GetPartition(s)))
  }

  /** All declared topic strings, in order. */
  function SubscribeAll(reg: Registry, a: Address, topics: seq<Value>): Registry
  {
    if topics == [] then reg
    else Subscribe(SubscribeAll(reg, a, topics[..|topics| - 1]), a, Show(topics[|topics| - 1]))
  }

  /**
   * `memberClock > knownMemberClock`: entry `i`'s clock, read at the same
   * position, is a number above `sequence`. Clocks are compared as numbers
   * even when they arrive as strings, which JavaScript compares as text.
   */
  predicate Newer(msg: GossipMessage, i: nat, sequence: real)
  {
    var clock := ToNumber(At(msg.clock, i));
    clock.Some? && clock.value > sequence
  }

  /** The clock of entry `i`, when it is a number. */
  function ClockAt(msg: GossipMessage, i: nat): real
  {
    ToNumber(At(msg.clock, i)).GetOr(0.0)
  }

  /**
   * A clock that arrives as the text of an integer `x` is read as `x` and is
   * newer than a sequence exactly when `x` is above it: the model compares
   * string clocks as numbers, so "10" is newer than a sequence of 5 left by
   * "5", where JavaScript's `"10" > "5"` compares text and is false.
   */
  lemma StringClocksCompareAsNumbers(msg: GossipMessage, i: nat, x: int, sequence: real)
    requires i < |msg.clock| && msg.clock[i] == Str(Show(Int(x)))
    ensures ClockAt(msg, i) == x as real
    ensures Newer(msg, i, sequence) <==> x as real > sequence
  {
    NumberOfShownInt(x);
  }

  /**
   * One entry of the snapshot. An unknown key with a public key on the
   * message throws (the program calls `setPublicKey`/`getPublicKey`, which
   * no object defines). Otherwise the member's status is recorded and, when
   * the entry's clock is strictly newer than the member's sequence, the
   * sequence is advanced and the member registered for its declared topics.
   * Between the two, the pass that collects the member's "stale"
   * registrations throws a TypeError when `topics` is not an object and the
   * member holds a registration (`StaleScanThrows`): the sequence stays
   * advanced and nothing is registered. Otherwise that pass changes nothing:
   * its `name in topics` test looks at array indices, and the registry's
   * `removeRegistrations` as written deletes nothing.
   */
  function Visit(v: View, msg: GossipMessage, i: nat): (p: Progress)
    requires i < |msg.members|
  {
    var key := msg.members[i];
    if key !in v.t.members && HasKey(msg) then Progress(v, false, true)
    else
      var m := if key in v.t.members then v.t.members[key] else Discovered(key);
      var t := UpdateStatus(v.t, m);
      if Newer(msg, i, m.sequence) then
        var t' := t.(members := t.members[KeyOf(m.addr) := m.(sequence := ClockAt(msg, i))]);
        if StaleScanThrows(v.registry, msg, key, m.addr) then Progress(View(t', v.registry), false, true)
        else Progress(View(t', SubscribeAll(v.registry, m.addr, Declared(msg, key))), key == SenderKey(msg), false)
      else Progress(View(t, v.registry), false, false)
  }

  /** The first `n` entries, in order, stopping at the first that throws. */
  function Walk(v: View, msg: GossipMessage, n: nat): Progress
    requires n <= |msg.members|
    decreases n, 1
  {
    if n == 0 then Progress(v, false, false)
    else
      var p := Walk(v, msg, n - 1);
      if p.thrown then p
      else
        var q := Entry(v, msg, n - 1);
        Progress(q.view, p.updateTags || q.updateTags, q.thrown)
  }

  /** Entry `i`, visited in the state the first `i` entries left. */
  function Entry(v: View, msg: GossipMessage, i: nat): Progress
    requires i < |msg.members|
    decreases i, 2
  {
    Visit(Walk(v, msg, i).view, msg, i)
  }

  /** The tags the refresh leaves: the sender's tag NAMES, as an array. */
  function TagKeys(tags: seq<(string, Value)>): (r: seq<(string, Value)>)
    ensures |r| == |tags|
    ensures forall i :: 0 <= i < |tags| ==> r[i] == (NatToString(i), Str(tags[i].0))
  {
    seq(|tags|, i requires 0 <= i < |tags| => (NatToString(i), Str(tags[i].0)))
  }

  /**
   * `handleGossipMessage` on a database state: walk the entries, then, when
   * the sender's own entry was newer, rewrite the sender's tags (when the
   * sender is not a known member the program throws there, after the walk).
   */
  function Gossip(v: View, msg: GossipMessage): View
  {
    var p := Walk(v, msg, |msg.members|);
    if p.thrown || !p.updateTags then p.view else Retagged(p.view, msg)
  }

  /** The sender's tags replaced by the list of the snapshot's tag names, when the sender is known. */
  function Retagged(v: View, msg: GossipMessage): View
  {
    var sk := SenderKey(msg);
    if sk !in v.t.members then v
    else v.(t := v.t.(members := v.t.members[sk := v.t.members[sk].(tags := TagKeys(msg.tags))]))
  }

  // ---------------------------------------------------------------------------
  // Scans

  /** The `found` scan of the reconciliation (it does not stop early). */
  method IsRegistered(mems: seq<Registration>, a: Address) returns (found: bool)
    ensures found <==> Registered(mems, a)
  {
    found := false;
    var k := 0;
    while k < |mems|
      invariant 0 <= k <= |mems|
      invariant found <==> exists r :: r in mems[..k] && r.member == a
    {
      assert mems[..k + 1] == mems[..k] + [mems[k]];
      if mems[k].member == a {
        found := true;
      }
      k := k + 1;
    }
    assert mems[..k] == mems;
  }

  /** Re-storing a member's record with the same address and status keeps the partition. */
  lemma Restamp(t: Table, k: string, m: Member)
    requires Partitioned(t) && k in t.members
    requires m.addr == t.members[k].addr && m.status == t.members[k].status
    ensures Partitioned(t.(members := t.members[k := m]))
  {
  }

  /** The part of a database gossip changes. */
  function SnapshotOf(db: Database): View
    reads db
  {
    View(Table(db.members, db.active, db.dead), db.registry)
  }

  /** The broadcast loop: `member.send(envelope)` for each registration, in order. */
  method BroadcastTo(regs: seq<Registration>, e: Envelope) returns (out: seq<(Address, Envelope)>)
    ensures out == Fanout(regs, e)
  {
    out := [];
    var k := 0;
    while k < |regs|
      invariant 0 <= k <= |regs|
      invariant out == Fanout(regs[..k], e)
    {
      assert Fanout(regs[..k + 1], e) == Fanout(regs[..k], e) + [(regs[k].member, e)];
      out := out + [(regs[k].member, e)];
      k := k + 1;
    }
    assert regs[..k] == regs;
  }

  /** One declared topic string of the reconciliation. */
  method SubscribeOne(db: Database, a: Address, s: string)
    requires db.Valid()
    modifies db`registry
    ensures db.Valid()
    ensures db.registry == Subscribe(old(db.registry), a, s)
  {
    var topic := GetTopic(s);
    var partition := GetPartition(s);
    var mems := db.GetRegisteredMembers(topic);
    var found := IsRegistered(mems, a);
    if !found {
      db.RegisterMemberForTopic(topic, partition, a);
    }
  }

  /** The registration loop for one member's declared topic strings. */
  method SubscribeTopics(db: Database, a: Address, topics: seq<Value>)
    requires db.Valid()
    modifies db`registry
    ensures db.Valid()
    ensures db.registry == SubscribeAll(old(db.registry), a, topics)
  {
    var j := 0;
    while j < |topics|
      invariant 0 <= j <= |topics|
      invariant db.Valid()
      invariant db.registry == SubscribeAll(old(db.registry), a, topics[..j])
    {
      assert topics[..j + 1][..j] == topics[..j];
      ghost var next := Subscribe(db.registry, a, Show(topics[j]));
      assert SubscribeAll(old(db.registry), a, topics[..j + 1]) == next;
      SubscribeOne(db, a, Show(topics[j]));
      j := j + 1;
    }
    assert topics[..j] == topics;
  }

  /**
   * One entry of `handleGossipMessage` on the database: see `Visit`.
   * `thrown` reports the TypeError, `newer` whether the sender's own entry
   * was newer.
   */
  method VisitEntry(db: Database, message: GossipMessage, i: nat, ghost v: View) returns (newer: bool, thrown: bool)
    requires db.Valid() && i < |message.members| && v == SnapshotOf(db)
    modifies db`members, db`active, db`dead, db`registry
    ensures db.Valid()
    ensures Visit(v, message, i) == Progress(SnapshotOf(db), newer, thrown)
  {
    var key := message.members[i];
    var known := db.GetMember(key);
    var m: Member;
    if known.None? {
      if HasKey(message) {
        return false, true;
      }
      m := Discovered(key);
    } else {
      m := known.value;
    }
    db.UpdateMemberStatus(m);
    newer, thrown := false, false;
    if Newer(message, i, m.sequence) {
      newer := key == SenderKey(message);
      Restamp(Table(db.members, db.active, db.dead), KeyOf(m.addr), m.(sequence := ClockAt(message, i)));
      m := m.(sequence := ClockAt(message, i));
      db.members := db.members[KeyOf(m.addr) := m];
      var regs := db.GetAllRegistrations();
      var holds := IsRegistered(regs, m.addr);
      if holds && InThrows(Listeners(message, key)) {
        return false, true;
      }
      SubscribeTopics(db, m.addr, Declared(message, key));
    }
  }

  /**
   * The entry loop of `handleGossipMessage`: see `Walk`. `updateTags` says
   * whether the sender's own entry was newer, `thrown` whether an entry threw.
   */
  method WalkEntries(db: Database, message: GossipMessage) returns (updateTags: bool, thrown: bool)
    requires db.Valid()
    modifies db`members, db`active, db`dead, db`registry
    ensures db.Valid()
    ensures Walk(old(SnapshotOf(db)), message, |message.members|) == Progress(SnapshotOf(db), updateTags, thrown)
  {
    updateTags, thrown := WalkFrom(db, message, 0, SnapshotOf(db), false);
  }

  /**
   * The loop from entry `i` on, one entry per call: visit the entry, stop
   * when it throws, otherwise go on with the next one. `tags` is what the
   * entries before `i` said about the sender.
   */
  method WalkFrom(db: Database, message: GossipMessage, i: nat, ghost v0: View, tags: bool) returns (updateTags: bool, thrown: bool)
    requires db.Valid() && i <= |message.members|
    requires Walk(v0, message, i) == Progress(SnapshotOf(db), tags, false)
    modifies db`members, db`active, db`dead, db`registry
    ensures db.Valid()
    ensures Walk(v0, message, |message.members|) == Progress(SnapshotOf(db), updateTags, thrown)
    decreases |message.members| - i
  {
    if i == |message.members| {
      return tags, false;
    }
    ghost var before := SnapshotOf(db);
    var newer, failed := VisitEntry(db, message, i, before);
    WalkAdvance(v0, message, i, before, tags, SnapshotOf(db), newer, failed);
    if failed {
      WalkStops(v0, message, i + 1, |message.members|);
      return tags || newer, true;
    }
    updateTags, thrown := WalkFrom(db, message, i + 1, v0, tags || newer);
  }

  /**
   * The tag refresh: the sender's tags become the list of the snapshot's
   * tag names (when the sender is unknown the program throws instead).
   */
  method RefreshTags(db: Database, message: GossipMessage)
    requires db.Valid()
    modifies db`members
    ensures db.Valid()
    ensures SnapshotOf(db) == Retagged(old(SnapshotOf(db)), message)
  {
    var senderKey := SenderKey(message);
    var sender := db.GetMember(senderKey);
    if sender.Some? {
      Restamp(Table(db.members, db.active, db.dead), senderKey, sender.value.(tags := TagKeys(message.tags)));
      db.members := db.members[senderKey := sender.value.(tags := TagKeys(message.tags))];
    }
  }

  /** The front end's module state. */
  class Node {
    const db: Database
    /** The MessagePack library the generic codec uses. */
    const codec: Codec
    /** The local member's address. */
    const me: Address
    var shuttingDown: bool
    var deliveries: map<string, Delivery>
    /** `roundRobinIndex`: the last member index a round-robin topic sent to. */
    var cursor: map<string, nat>
    /** Every `member.send(envelope)` made so far, in order. */
    var outbox: seq<(Address, Envelope)>

    /** The database is valid and every round-robin topic has a cursor. */
    ghost predicate Valid()
      reads this, db
    {
      && db.Valid()
      && (forall t :: t in deliveries && deliveries[t] == RoundRobin ==> t in cursor)
    }

    constructor (db: Database, codec: Codec, me: Address)
      requires db.Valid()
      ensures Valid()
      ensures this.db == db && this.codec == codec && this.me == me
      ensures !shuttingDown && deliveries == map[] && cursor == map[] && outbox == []
    {
      this.db := db;
      this.codec := codec;
      this.me := me;
      shuttingDown := false;
      deliveries := map[];
      cursor := map[];
      outbox := [];
    }

    /** `setDeliveryType`: records the type; a round-robin topic starts again at index 0. */
    method SetDeliveryType(topic: string, kind: Delivery)
      requires Valid()
      modifies this`deliveries, this`cursor
      ensures Valid()
      ensures deliveries == old(deliveries)[topic := kind]
      ensures kind == RoundRobin ==> cursor == old(cursor)[topic := 0]
      ensures kind != RoundRobin ==> cursor == old(cursor)
    {
      deliveries := deliveries[topic := kind];
      if kind == RoundRobin {
        cursor := cursor[topic := 0];
      }
    }

    /**
     * `addListener`: the local member is registered for (topic, partition)
     * and the listener bound locally; the partition defaults to all.
     */
    method AddListener(topic: string, partition: Option<Value>, listener: Listener)
      requires Valid()
      modifies db`registry, db`listeners, db`templates
      ensures Valid()
      ensures var p := Show(partition.GetOr(Str(AllPartitions)));
        && db.registry == Register(old(db.registry), KeyOf(me), Registration(me, topic, p))
        && var event := TopicString(topic, p);
           db.listeners == old(db.listeners)[event := old(if event in db.listeners then db.listeners[event] else []) + [listener]]
      ensures db.templates == old(db.templates)
    {
      var p := Show(partition.GetOr(Str(AllPartitions)));
      db.RegisterMemberForTopic(topic, p, me);
      db.AddLocalListener(topic, p, listener, None);
    }

    /**
     * `send`: builds the envelope, then delivers it by the topic's type.
     * Round robin advances the topic's cursor to (cursor + 1) mod N and sends
     * to that registration's member; random sends to the drawn one; broadcast
     * sends the generic encoding to every registered member (the program
     * tests the local member against a variable not yet assigned, so it
     * always encodes). With no registrations nothing is sent.
     */
    method Send(topic: string, partition: Option<Value>, message: Value, messageType: Option<Value>,
                offset: Option<Value>, now: Value, pick: real)
      requires Valid()
      requires 0.0 <= pick < 1.0
      modifies this`deliveries, this`cursor, this`outbox
      ensures Valid()
      ensures deliveries == old(deliveries)[topic := KindOf(old(deliveries), topic)]
      ensures Sends(cursor, outbox) ==
        Delivered(codec, me, KindOf(old(deliveries), topic), topic, WithTopic(AllRegs(db.registry), topic),
                  Outgoing(me, topic, partition.GetOr(Str(AllPartitions)), messageType.GetOr(Str("")),
                           ExecuteTime(offset), now, Undefined, false),
                  message, pick, old(Sends(cursor, outbox)))
    {
      var env := Outgoing(me, topic, partition.GetOr(Str(AllPartitions)), messageType.GetOr(Str("")),
                          ExecuteTime(offset), now, Undefined, false);
      var delivery := Broadcast;
      if topic in deliveries {
        delivery := deliveries[topic];
      } else {
        deliveries := deliveries[topic := Broadcast];
      }
      var regs := db.GetRegisteredMembers(topic);
      Deliver(delivery, topic, regs, env, message, pick);
    }

    /** The delivery part of `send`, for the type `delivery` and the matching registrations `regs`. */
    method Deliver(delivery: Delivery, topic: string, regs: seq<Registration>, env: Envelope, message: Value, pick: real)
      requires delivery == RoundRobin ==> topic in cursor
      requires 0.0 <= pick < 1.0
      modifies this`cursor, this`outbox
      ensures Sends(cursor, outbox) == Delivered(codec, me, delivery, topic, regs, env, message, pick, old(Sends(cursor, outbox)))
    {
      match delivery {
        case RoundRobin =>
          SendRoundRobin(topic, regs, env, message);
        case Random =>
          if |regs| > 0 {
            var index := Draw(pick, |regs|);
            outbox := outbox + [Addressed(codec, me, regs[index].member, env, message)];
          }
        case Broadcast =>
          var sent := BroadcastTo(regs, env.(payload := Bytes(GenericCodec.Encode(codec, message))));
          outbox := outbox + sent;
      }
    }

    /** The round-robin branch of `send`. */
    method SendRoundRobin(topic: string, regs: seq<Registration>, env: Envelope, message: Value)
      requires topic in cursor
      modifies this`cursor, this`outbox
      ensures regs == [] ==> cursor == old(cursor) && outbox == old(outbox)
      ensures regs != [] ==>
        var i := (old(cursor)[topic] + 1) % |regs|;
        && cursor == old(cursor)[topic := i]
        && outbox == old(outbox) + [Addressed(codec, me, regs[i].member, env, message)]
    {
      if |regs| > 0 {
        var index := (cursor[topic] + 1) % |regs|;
        cursor := cursor[topic := index];
        outbox := outbox + [Addressed(codec, me, regs[index].member, env, message)];
      }
    }

    /**
     * `handleGossipMessage`: nothing while shutting down; otherwise the
     * database moves to `Gossip` of its old state.
     */
    method HandleGossipMessage(message: GossipMessage)
      requires Valid()
      modifies db`members, db`active, db`dead, db`registry
      ensures Valid()
      ensures old(shuttingDown) ==> SnapshotOf(db) == old(SnapshotOf(db))
      ensures !old(shuttingDown) ==> SnapshotOf(db) == Gossip(old(SnapshotOf(db)), message)
    {
      if shuttingDown {
        return;
      }
      var updateTags, thrown := WalkEntries(db, message);
      if !thrown && updateTags {
        RefreshTags(db, message);
      }
    }
  }

  /** A walk that has not thrown goes one entry further by visiting that entry. */
  lemma WalkNext(v: View, msg: GossipMessage, i: nat)
    requires i < |msg.members| && !Walk(v, msg, i).thrown
    ensures var p := Walk(v, msg, i); var q := Visit(p.view, msg, i);
      Walk(v, msg, i + 1) == Progress(q.view, p.updateTags || q.updateTags, q.thrown)
  {
  }

  /** The same step, stated for the views a caller holds. */
  lemma WalkAdvance(v: View, msg: GossipMessage, i: nat, before: View, tags: bool, after: View, newer: bool, failed: bool)
    requires i < |msg.members| && Walk(v, msg, i) == Progress(before, tags, false)
    requires Visit(before, msg, i) == Progress(after, newer, failed)
    ensures Walk(v, msg, i + 1) == Progress(after, tags || newer, failed)
  {
    WalkNext(v, msg, i);
  }

  /** Once an entry has thrown, later entries are not looked at. */
  lemma {:induction false} WalkStops(v: View, msg: GossipMessage, i: nat, n: nat)
    requires i <= n <= |msg.members|
    requires Walk(v, msg, i).thrown
    ensures Walk(v, msg, n) == Walk(v, msg, i)
    decreases n - i
  {
    if n > i {
      WalkThrownStep(v, msg, i + 1);
      WalkStops(v, msg, i + 1, n);
    }
  }

  /** A walk that has thrown is not taken further by one more entry. */
  lemma WalkThrownStep(v: View, msg: GossipMessage, n: nat)
    requires 0 < n <= |msg.members| && Walk(v, msg, n - 1).thrown
    ensures Walk(v, msg, n) == Walk(v, msg, n - 1)
  {
  }
}
