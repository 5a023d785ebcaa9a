// What gossip reconciliation (`handleGossipMessage` in bigio.js, and its
// earlier revision in cluster.js) guarantees about the member tables and the
// registration map, stated on the functions of module Cluster.

module GossipLaws {
  import opened Wrappers
  import opened Js
  import opened Text
  import opened Utils
  import opened GossipCodec
  import opened MemberDatabase
  import opened Cluster
  import MemberKey

  // ---------------------------------------------------------------------------
  // Member keys of the shape `ip:gossipPort:dataPort`

  /** A member key with exactly three `:`-separated parts. */
  predicate ThreePart(key: string)
  {
    |Split(key, ":")| == 3
  }

  /** Every key the snapshot lists has three parts. */
  predicate ThreePartKeys(msg: GossipMessage)
  {
    forall i :: 0 <= i < |msg.members| ==> ThreePart(msg.members[i])
  }

  /** A member discovered under a three-part key is stored under that same key. */
  lemma DiscoveredKey(key: string)
    requires ThreePart(key)
    ensures KeyOf(Discovered(key).addr) == key
  {
    var parts := Split(key, ":");
    var a := Discovered(key).addr;
    assert a == Address(parts[0], parts[1], parts[2]);
    JoinSplit(key, ":");
    MemberKey.JoinTriple(parts);
  }

  // ---------------------------------------------------------------------------
  // Views

  /** Every member is stored under its own key: the part of the partition the walk relies on. */
  ghost predicate Keyed(t: Table)
  {
    forall k :: k in t.members ==> KeyOf(t.members[k].addr) == k
  }

  /** `after` is `before` with, at most, a higher sequence. */
  predicate Restamped(before: Member, after: Member)
  {
    after == before.(sequence := after.sequence) && after.sequence >= before.sequence
  }

  /** Every entry before `n` is known in `v` and its clock is not above its member's sequence. */
  ghost predicate Settled(v: View, msg: GossipMessage, n: nat)
    requires n <= |msg.members|
  {
    forall i :: 0 <= i < n ==> msg.members[i] in v.t.members && !Newer(msg, i, v.t.members[msg.members[i]].sequence)
  }

  /** Entry `j` throws on view `v` before changing anything: its key is unknown and the snapshot carries a public key. */
  predicate KeyThrows(v: View, msg: GossipMessage, j: nat)
    requires j < |msg.members|
  {
    msg.members[j] !in v.t.members && HasKey(msg)
  }

  /** Entry `j` throws on view `v` in the stale-registration scan, after its clock was found newer. */
  predicate ScanThrows(v: View, msg: GossipMessage, j: nat)
    requires j < |msg.members|
  {
    var m := EntryMember(v, msg, j);
    !KeyThrows(v, msg, j) && Newer(msg, j, m.sequence) && StaleScanThrows(v.registry, msg, msg.members[j], m.addr)
  }

  /** Entry `j` throws on view `v`. */
  predicate Throws(v: View, msg: GossipMessage, j: nat)
    requires j < |msg.members|
  {
    KeyThrows(v, msg, j) || ScanThrows(v, msg, j)
  }

  /** No entry declares a `topics` value that makes the stale-registration scan throw. */
  predicate ListenersAreObjects(msg: GossipMessage)
  {
    forall j :: 0 <= j < |msg.members| ==> !InThrows(Listeners(msg, msg.members[j]))
  }

  // ---------------------------------------------------------------------------
  // The registration map only grows

  /** Registering leaves every bucket a prefix of what it becomes. */
  lemma RegisterGrows(reg: Registry, mk: string, r: Registration, k: string, t: string)
    ensures BucketOf(reg, k, t) <= BucketOf(Register(reg, mk, r), k, t)
  {
    RegisterBuckets(reg, mk, r);
  }

  /**
   * A member not yet registered for a topic string's topic ends up with a
   * registration for its partition in its bucket.
   */
  lemma SubscribeJoins(reg: Registry, a: Address, s: string)
    requires !Registered(WithTopic(AllRegs(reg), GetTopic(s)), a)
    ensures HasPartition(BucketOf(Subscribe(reg, a, s), KeyOf(a), GetTopic(s)), GetPartition(s))
  {
    var r := Registration(a, GetTopic(s), GetPartition(s));
    RegisterBuckets(reg, KeyOf(a), r);
    var b := BucketOf(reg, KeyOf(a), GetTopic(s));
    if !HasPartition(b, r.partition) {
      assert (b + [r])[|b|] == r;
    }
  }

  lemma {:induction false} SubscribeAllGrows(reg: Registry, a: Address, topics: seq<Value>, k: string, t: string)
    ensures BucketOf(reg, k, t) <= BucketOf(SubscribeAll(reg, a, topics), k, t)
    decreases |topics|
  {
    if topics != [] {
      var reg' := SubscribeAll(reg, a, topics[..|topics| - 1]);
      SubscribeAllGrows(reg, a, topics[..|topics| - 1], k, t);
      var s := Show(topics[|topics| - 1]);
      if !Registered(WithTopic(AllRegs(reg'), GetTopic(s)), a) {
        RegisterGrows(reg', KeyOf(a), Registration(a, GetTopic(s), GetPartition(s)), k, t);
      }
    }
  }

  /** Every registration filed under `a`'s key is `a`'s own. */
  ghost predicate OwnBuckets(reg: Registry, a: Address)
  {
    forall t, y :: y in BucketOf(reg, KeyOf(a), t) ==> y.member == a
  }

  /** A member registered for a topic stays registered when no registration is lost. */
  lemma RegisteredWithin(rs: seq<Registration>, rs': seq<Registration>, t: string, a: Address)
    requires Registered(WithTopic(rs, t), a) && Within(rs, rs')
    ensures Registered(WithTopic(rs', t), a)
  {
    var r :| r in WithTopic(rs, t) && r.member == a;
    assert r in WithTopic(rs', t);
  }

  /**
   * One declared topic string leaves the member registered for its topic,
   * loses no registration, and keeps the map well keyed with `a`'s buckets
   * holding only `a`.
   */
  lemma SubscribeRegisters(reg: Registry, a: Address, s: string)
    requires WellKeyed(reg) && OwnBuckets(reg, a)
    ensures var reg' := Subscribe(reg, a, s);
      && WellKeyed(reg') && OwnBuckets(reg', a) && Within(AllRegs(reg), AllRegs(reg'))
      && Registered(WithTopic(AllRegs(reg'), GetTopic(s)), a)
  {
    var topic := GetTopic(s);
    if !Registered(WithTopic(AllRegs(reg), topic), a) {
      var mk := KeyOf(a);
      var r := Registration(a, topic, GetPartition(s));
      var b := BucketOf(reg, mk, topic);
      BucketIn(reg, mk, topic);
      BucketWithin(reg, mk, topic);
      assert !HasPartition(b, r.partition);
      RegisterKeyed(reg, mk, r);
      RegisterWithin(reg, mk, r);
      RegisterBuckets(reg, mk, r);
      var reg' := Register(reg, mk, r);
      assert r in WithTopic(AllRegs(reg'), topic);
      forall t, y | y in BucketOf(reg', mk, t) ensures y.member == a {
        if t == topic {
          assert y in b + [r];
        }
      }
    }
  }

  /** Declared topic strings leave the map well keyed, `a`'s buckets `a`'s own, and lose no registration. */
  lemma {:induction false} SubscribeAllKeeps(reg: Registry, a: Address, topics: seq<Value>)
    requires WellKeyed(reg) && OwnBuckets(reg, a)
    ensures WellKeyed(SubscribeAll(reg, a, topics)) && OwnBuckets(SubscribeAll(reg, a, topics), a)
    ensures Within(AllRegs(reg), AllRegs(SubscribeAll(reg, a, topics)))
    decreases |topics|
  {
    if topics != [] {
      var n := |topics| - 1;
      SubscribeAllKeeps(reg, a, topics[..n]);
      SubscribeRegisters(SubscribeAll(reg, a, topics[..n]), a, Show(topics[n]));
    }
  }

  /**
   * Registrations for the first `n - 1` topic strings survive a step that
   * loses no registration; with the step's own topic that makes `n`.
   */
  lemma RegisteredKept(rs: seq<Registration>, rs': seq<Registration>, a: Address, topics: seq<Value>, n: nat)
    requires 0 < n <= |topics| && Within(rs, rs')
    requires forall j :: 0 <= j < n - 1 ==> Registered(WithTopic(rs, GetTopic(Show(topics[j]))), a)
    requires Registered(WithTopic(rs', GetTopic(Show(topics[n - 1]))), a)
    ensures forall j :: 0 <= j < n ==> Registered(WithTopic(rs', GetTopic(Show(topics[j]))), a)
  {
    forall j | 0 <= j < n - 1 ensures Registered(WithTopic(rs', GetTopic(Show(topics[j]))), a) {
      RegisteredWithin(rs, rs', GetTopic(Show(topics[j])), a);
    }
  }

  /** After all declared topic strings, the member is registered for the topic of every one of them. */
  lemma {:induction false} SubscribeAllRegisters(reg: Registry, a: Address, topics: seq<Value>)
    requires WellKeyed(reg) && OwnBuckets(reg, a)
    ensures forall j :: 0 <= j < |topics| ==>
      Registered(WithTopic(AllRegs(SubscribeAll(reg, a, topics)), GetTopic(Show(topics[j]))), a)
    decreases |topics|
  {
    if topics != [] {
      var n := |topics| - 1;
      var prev := topics[..n];
      var mid := SubscribeAll(reg, a, prev);
      SubscribeAllRegisters(reg, a, prev);
      assert forall j :: 0 <= j < n ==> prev[j] == topics[j];
      var reg' := Subscribe(mid, a, Show(topics[n]));
      assert SubscribeAll(reg, a, topics) == reg';
      assert Within(AllRegs(mid), AllRegs(reg')) && Registered(WithTopic(AllRegs(reg'), GetTopic(Show(topics[n]))), a) by {
        SubscribeAllKeeps(reg, a, prev);
        SubscribeRegisters(mid, a, Show(topics[n]));
      }
      RegisteredKept(AllRegs(mid), AllRegs(reg'), a, topics, n + 1);
    }
  }

  // ---------------------------------------------------------------------------
  // One entry

  /** Storing a known member's own record changes nothing. */
  lemma StoredUpdate(t: Table, k: string)
    requires Partitioned(t) && k in t.members
    ensures UpdateStatus(t, t.members[k]) == t
  {
    assert t.members[k := t.members[k]] == t.members;
  }

  /** An entry for a known member whose clock is not newer leaves the view as it was. */
  lemma VisitStale(v: View, msg: GossipMessage, i: nat)
    requires Partitioned(v.t) && i < |msg.members|
    requires msg.members[i] in v.t.members && !Newer(msg, i, v.t.members[msg.members[i]].sequence)
    ensures Visit(v, msg, i) == Progress(v, false, false)
  {
    StoredUpdate(v.t, msg.members[i]);
  }

  /**
   * One entry throws exactly when its key is unknown and the snapshot
   * carries a public key, in which case it changes nothing, or when the
   * stale-registration scan throws. Unless its key is unknown with a public
   * key on the snapshot, the entry leaves its key known, with a sequence the
   * entry's clock does not exceed; a key that was unknown becomes the member
   * its parts spell, Alive, with at most a new sequence. The sender's tags
   * are marked for refresh only by the sender's own entry.
   */
  lemma VisitKeyed(v: View, msg: GossipMessage, i: nat)
    requires Keyed(v.t) && i < |msg.members| && ThreePart(msg.members[i])
    ensures var p := Visit(v, msg, i);
      && Keyed(p.view.t)
      && (p.thrown <==> Throws(v, msg, i))
      && (KeyThrows(v, msg, i) ==> p.view == v)
      && (p.updateTags ==> msg.members[i] == SenderKey(msg))
      && (!KeyThrows(v, msg, i) ==> msg.members[i] in p.view.t.members
                                    && !Newer(msg, i, p.view.t.members[msg.members[i]].sequence))
      && (!KeyThrows(v, msg, i) && msg.members[i] !in v.t.members ==>
            Restamped(Discovered(msg.members[i]), p.view.t.members[msg.members[i]]))
  {
    if msg.members[i] !in v.t.members {
      DiscoveredKey(msg.members[i]);
    }
  }

  /** The member entry `i` is about: the known one, or the one its key spells. */
  function EntryMember(v: View, msg: GossipMessage, i: nat): Member
    requires i < |msg.members|
  {
    var key := msg.members[i];
    if key in v.t.members then v.t.members[key] else Discovered(key)
  }

  /**
   * An entry that does not throw before changing anything stores its member
   * under its key: with the entry's clock as sequence when that clock is
   * newer than the member's sequence, and unchanged otherwise. A newer
   * clock then either throws in the stale-registration scan, leaving the
   * registrations as they were, or subscribes the declared topics.
   */
  lemma VisitStamps(v: View, msg: GossipMessage, i: nat)
    requires Keyed(v.t) && i < |msg.members| && ThreePart(msg.members[i]) && !KeyThrows(v, msg, i)
    ensures var key := msg.members[i]; var m := EntryMember(v, msg, i); var p := Visit(v, msg, i);
      && key in p.view.t.members
      && (Newer(msg, i, m.sequence) ==> p.view.t.members[key] == m.(sequence := ClockAt(msg, i)))
      && (Newer(msg, i, m.sequence) && StaleScanThrows(v.registry, msg, key, m.addr) ==>
            p.thrown && p.view.registry == v.registry)
      && (Newer(msg, i, m.sequence) && !StaleScanThrows(v.registry, msg, key, m.addr) ==>
            !p.thrown && p.view.registry == SubscribeAll(v.registry, m.addr, Declared(msg, key)))
      && (!Newer(msg, i, m.sequence) ==> !p.thrown && p.view.t.members[key] == m && p.view.registry == v.registry)
  {
    if msg.members[i] !in v.t.members {
      DiscoveredKey(msg.members[i]);
    }
  }

  /**
   * An entry whose clock is newer and whose stale-registration scan does not
   * throw leaves its member registered for the topic of every topic string
   * the snapshot declares for it.
   */
  lemma VisitRegisters(v: View, msg: GossipMessage, i: nat)
    requires Keyed(v.t) && i < |msg.members| && ThreePart(msg.members[i]) && !KeyThrows(v, msg, i)
    requires WellKeyed(v.registry) && OwnBuckets(v.registry, EntryMember(v, msg, i).addr)
    ensures var m := EntryMember(v, msg, i); var ts := Declared(msg, msg.members[i]);
      Newer(msg, i, m.sequence) && !StaleScanThrows(v.registry, msg, msg.members[i], m.addr) ==>
        forall j :: 0 <= j < |ts| ==>
          Registered(WithTopic(AllRegs(Visit(v, msg, i).view.registry), GetTopic(Show(ts[j]))), m.addr)
  {
    var m := EntryMember(v, msg, i);
    VisitStamps(v, msg, i);
    SubscribeAllRegisters(v.registry, m.addr, Declared(msg, msg.members[i]));
  }

  /** One entry keeps the liveness partition; a member it discovers is active. */
  lemma VisitPartitioned(v: View, msg: GossipMessage, i: nat)
    requires Partitioned(v.t) && i < |msg.members| && ThreePart(msg.members[i])
    ensures Partitioned(Visit(v, msg, i).view.t)
    ensures !Visit(v, msg, i).thrown && msg.members[i] !in v.t.members ==> msg.members[i] in Visit(v, msg, i).view.t.active
  {
    var key := msg.members[i];
    if !KeyThrows(v, msg, i) {
      var m := if key in v.t.members then v.t.members[key] else Discovered(key);
      if key !in v.t.members {
        DiscoveredKey(key);
      }
      UpdateStatusPartitioned(v.t, m);
      if Newer(msg, i, m.sequence) {
        Restamp(UpdateStatus(v.t, m), key, m.(sequence := ClockAt(msg, i)));
      }
    }
  }

  /** One entry keeps every known member, changed in at most a higher sequence. */
  lemma VisitKeeps(v: View, msg: GossipMessage, i: nat, k: string)
    requires Keyed(v.t) && i < |msg.members| && ThreePart(msg.members[i]) && k in v.t.members
    ensures k in Visit(v, msg, i).view.t.members && Restamped(v.t.members[k], Visit(v, msg, i).view.t.members[k])
  {
    if msg.members[i] !in v.t.members {
      DiscoveredKey(msg.members[i]);
    }
  }

  /** One entry leaves every bucket of the registration map a prefix of what it becomes. */
  lemma VisitRegs(v: View, msg: GossipMessage, i: nat, mk: string, t: string)
    requires i < |msg.members|
    ensures BucketOf(v.registry, mk, t) <= BucketOf(Visit(v, msg, i).view.registry, mk, t)
  {
    var key := msg.members[i];
    if !KeyThrows(v, msg, i) {
      var m := if key in v.t.members then v.t.members[key] else Discovered(key);
      if Newer(msg, i, m.sequence) && !StaleScanThrows(v.registry, msg, key, m.addr) {
        SubscribeAllGrows(v.registry, m.addr, Declared(msg, key), mk, t);
      }
    }
  }

  // ---------------------------------------------------------------------------
  // The walk over the entries

  /** A property of views that every entry keeps holds after any number of entries. */
  lemma {:induction false} WalkInduct(v: View, msg: GossipMessage, n: nat, P: View -> bool)
    requires n <= |msg.members| && P(v)
    requires forall w, i :: 0 <= i < n && P(w) ==> P(Visit(w, msg, i).view)
    ensures P(Walk(v, msg, n).view)
    decreases n
  {
    if n > 0 {
      WalkInduct(v, msg, n - 1, P);
      var p := Walk(v, msg, n - 1);
      if !p.thrown {
        assert Entry(v, msg, n - 1) == Visit(p.view, msg, n - 1);
      }
    }
  }

  lemma WalkKeyed(v: View, msg: GossipMessage, n: nat)
    requires Keyed(v.t) && ThreePartKeys(msg) && n <= |msg.members|
    ensures Keyed(Walk(v, msg, n).view.t)
  {
    forall w: View, i: nat | 0 <= i < n && Keyed(w.t) ensures Keyed(Visit(w, msg, i).view.t) {
      VisitKeyed(w, msg, i);
    }
    WalkInduct(v, msg, n, (w: View) => Keyed(w.t));
  }

  /** The walk keeps the liveness partition. */
  lemma WalkPartitioned(v: View, msg: GossipMessage, n: nat)
    requires Partitioned(v.t) && ThreePartKeys(msg) && n <= |msg.members|
    ensures Partitioned(Walk(v, msg, n).view.t)
  {
    forall w: View, i: nat | 0 <= i < n && Partitioned(w.t) ensures Partitioned(Visit(w, msg, i).view.t) {
      VisitPartitioned(w, msg, i);
    }
    WalkInduct(v, msg, n, (w: View) => Partitioned(w.t));
  }

  /** The walk keeps every known member, changed in at most a higher sequence. */
  lemma WalkKeeps(v: View, msg: GossipMessage, n: nat, k: string)
    requires Keyed(v.t) && ThreePartKeys(msg) && n <= |msg.members| && k in v.t.members
    ensures k in Walk(v, msg, n).view.t.members && Restamped(v.t.members[k], Walk(v, msg, n).view.t.members[k])
  {
    var P := (w: View) => Keyed(w.t) && k in w.t.members && Restamped(v.t.members[k], w.t.members[k]);
    forall w: View, i: nat | 0 <= i < n && P(w) ensures P(Visit(w, msg, i).view) {
      VisitKeyed(w, msg, i);
      VisitKeeps(w, msg, i, k);
    }
    WalkInduct(v, msg, n, P);
  }

  lemma PrefixTrans(a: seq<Registration>, b: seq<Registration>, c: seq<Registration>)
    requires a <= b && b <= c
    ensures a <= c
  {
    assert b[..|a|] == a;
    assert c[..|b|] == b;
    assert c[..|a|] == b[..|a|];
  }

  /** The walk never drops a registration: every bucket is a prefix of what it becomes. */
  lemma WalkRegs(v: View, msg: GossipMessage, n: nat, mk: string, t: string)
    requires n <= |msg.members|
    ensures BucketOf(v.registry, mk, t) <= BucketOf(Walk(v, msg, n).view.registry, mk, t)
  {
    var P := (w: View) => BucketOf(v.registry, mk, t) <= BucketOf(w.registry, mk, t);
    forall w: View, i: nat | 0 <= i < n && P(w) ensures P(Visit(w, msg, i).view) {
      VisitRegs(w, msg, i, mk, t);
      PrefixTrans(BucketOf(v.registry, mk, t), BucketOf(w.registry, mk, t), BucketOf(Visit(w, msg, i).view.registry, mk, t));
    }
    WalkInduct(v, msg, n, P);
  }

  /** The sender's tags are marked for refresh only when the sender's own key is among the first `n` entries. */
  lemma {:induction false} WalkSender(v: View, msg: GossipMessage, n: nat)
    requires n <= |msg.members|
    ensures Walk(v, msg, n).updateTags ==> SenderKey(msg) in msg.members[..n]
    decreases n
  {
    if n > 0 {
      WalkSender(v, msg, n - 1);
      var p := Walk(v, msg, n - 1);
      assert msg.members[..n] == msg.members[..n - 1] + [msg.members[n - 1]];
      if !p.thrown {
        assert Entry(v, msg, n - 1) == Visit(p.view, msg, n - 1);
      }
    }
  }

  /** A property of a view and a count that every entry keeps while none throws holds after a walk that did not throw. */
  lemma {:induction false} WalkInductAt(v: View, msg: GossipMessage, n: nat, P: (View, nat) -> bool)
    requires n <= |msg.members| && P(v, 0)
    requires forall w, i :: 0 <= i < n && P(w, i) && !Visit(w, msg, i).thrown ==> P(Visit(w, msg, i).view, i + 1)
    ensures !Walk(v, msg, n).thrown ==> P(Walk(v, msg, n).view, n)
    decreases n
  {
    if n > 0 {
      WalkInductAt(v, msg, n - 1, P);
      var p := Walk(v, msg, n - 1);
      if !p.thrown {
        assert Entry(v, msg, n - 1) == Visit(p.view, msg, n - 1);
      }
    }
  }

  /** When none of the first `n` entries threw, every one of them is settled. */
  lemma WalkSettles(v: View, msg: GossipMessage, n: nat)
    requires Keyed(v.t) && ThreePartKeys(msg) && n <= |msg.members| && !Walk(v, msg, n).thrown
    ensures Settled(Walk(v, msg, n).view, msg, n)
  {
    var P := (w: View, i: nat) => Keyed(w.t) && i <= |msg.members| && Settled(w, msg, i);
    forall w: View, i: nat | 0 <= i < n && P(w, i) && !Visit(w, msg, i).thrown
      ensures P(Visit(w, msg, i).view, i + 1)
    {
      VisitKeyed(w, msg, i);
      SettledStep(w, msg, i);
    }
    WalkInductAt(v, msg, n, P);
  }

  /**
   * When one of the first `n` entries threw, it is an entry `j` with the
   * entries before it settled on the final view, and either its key is
   * unknown there with a public key on the snapshot, or the snapshot's
   * `topics` for it is not an object.
   */
  lemma {:induction false} WalkThrows(v: View, msg: GossipMessage, n: nat)
    requires Keyed(v.t) && ThreePartKeys(msg) && n <= |msg.members| && Walk(v, msg, n).thrown
    ensures exists j :: 0 <= j < n && Settled(Walk(v, msg, n).view, msg, j)
                        && (KeyThrows(Walk(v, msg, n).view, msg, j) || InThrows(Listeners(msg, msg.members[j])))
    decreases n
  {
    var p := Walk(v, msg, n - 1);
    if p.thrown {
      WalkThrows(v, msg, n - 1);
      assert Walk(v, msg, n) == p;
    } else {
      WalkSettles(v, msg, n - 1);
      WalkKeyed(v, msg, n - 1);
      var q := Visit(p.view, msg, n - 1);
      assert Entry(v, msg, n - 1) == q;
      VisitKeyed(p.view, msg, n - 1);
      assert Walk(v, msg, n).view == q.view;
      if KeyThrows(p.view, msg, n - 1) {
        assert q.view == p.view;
      } else {
        SettledStep(p.view, msg, n - 1);
        assert Settled(q.view, msg, n - 1);
      }
    }
  }

  /** A visit that does not throw before changing anything settles its entry and keeps the earlier ones settled. */
  lemma SettledStep(w: View, msg: GossipMessage, j: nat)
    requires Keyed(w.t) && ThreePartKeys(msg) && j < |msg.members| && Settled(w, msg, j)
    requires !KeyThrows(w, msg, j)
    ensures Settled(Visit(w, msg, j).view, msg, j + 1)
  {
    var q := Visit(w, msg, j);
    VisitKeyed(w, msg, j);
    forall i | 0 <= i < j + 1
      ensures msg.members[i] in q.view.t.members
      ensures !Newer(msg, i, q.view.t.members[msg.members[i]].sequence)
    {
      var key := msg.members[i];
      if i < j {
        assert key in w.t.members && !Newer(msg, i, w.t.members[key].sequence);
        VisitKeeps(w, msg, j, key);
        NotNewer(msg, i, w.t.members[key].sequence, q.view.t.members[key].sequence);
      }
    }
  }

  /** A clock that is not above a sequence is not above any higher sequence. */
  lemma NotNewer(msg: GossipMessage, i: nat, a: real, b: real)
    requires a <= b && !Newer(msg, i, a)
    ensures !Newer(msg, i, b)
  {
  }

  /** A view in which the first `n` entries are settled walks through them unchanged. */
  lemma {:induction false} Settle(v: View, msg: GossipMessage, n: nat)
    requires Partitioned(v.t) && n <= |msg.members| && Settled(v, msg, n)
    ensures Walk(v, msg, n) == Progress(v, false, false)
    decreases n
  {
    if n > 0 {
      Settle(v, msg, n - 1);
      VisitStale(v, msg, n - 1);
      assert Entry(v, msg, n - 1) == Visit(v, msg, n - 1);
    }
  }

  // ---------------------------------------------------------------------------
  // Whole snapshots

  /** The tag refresh changes the sender's tags and nothing else. */
  lemma RetaggedKeeps(v: View, msg: GossipMessage)
    requires Partitioned(v.t)
    ensures Partitioned(Retagged(v, msg).t) && Retagged(v, msg).registry == v.registry
    ensures Retagged(v, msg).t.members.Keys == v.t.members.Keys
    ensures forall k :: k in v.t.members ==>
      Retagged(v, msg).t.members[k] == v.t.members[k].(tags := Retagged(v, msg).t.members[k].tags)
    ensures forall k :: k in v.t.members && k != SenderKey(msg) ==> Retagged(v, msg).t.members[k] == v.t.members[k]
  {
    var sk := SenderKey(msg);
    if sk in v.t.members {
      Restamp(v.t, sk, v.t.members[sk].(tags := TagKeys(msg.tags)));
    }
  }

  /** Reconciling a snapshot keeps the liveness partition. */
  lemma GossipPartitioned(v: View, msg: GossipMessage)
    requires Partitioned(v.t) && ThreePartKeys(msg)
    ensures Partitioned(Gossip(v, msg).t)
  {
    WalkPartitioned(v, msg, |msg.members|);
    RetaggedKeeps(Walk(v, msg, |msg.members|).view, msg);
  }

  /**
   * Reconciling a snapshot never forgets a member and never lowers its
   * sequence; its address and status stay, and its tags too unless it is the
   * sender.
   */
  lemma GossipKeeps(v: View, msg: GossipMessage, k: string)
    requires Partitioned(v.t) && ThreePartKeys(msg) && k in v.t.members
    ensures k in Gossip(v, msg).t.members
    ensures Gossip(v, msg).t.members[k].sequence >= v.t.members[k].sequence
    ensures Gossip(v, msg).t.members[k].addr == v.t.members[k].addr
    ensures Gossip(v, msg).t.members[k].status == v.t.members[k].status
    ensures k != SenderKey(msg) ==> Gossip(v, msg).t.members[k].tags == v.t.members[k].tags
  {
    WalkKeeps(v, msg, |msg.members|, k);
    WalkPartitioned(v, msg, |msg.members|);
    RetaggedKeeps(Walk(v, msg, |msg.members|).view, msg);
  }

  /** Reconciling a snapshot never drops a registration. */
  lemma GossipRegs(v: View, msg: GossipMessage, mk: string, t: string)
    ensures BucketOf(v.registry, mk, t) <= BucketOf(Gossip(v, msg).registry, mk, t)
  {
    WalkRegs(v, msg, |msg.members|, mk, t);
  }

  /**
   * A pass that threw, on a snapshot whose `topics` values are all objects,
   * leaves a view on which a second pass throws at the same entry and
   * changes nothing.
   */
  lemma ThrownAgain(v: View, msg: GossipMessage)
    requires Partitioned(v.t) && ThreePartKeys(msg) && ListenersAreObjects(msg) && Walk(v, msg, |msg.members|).thrown
    ensures Gossip(Gossip(v, msg), msg) == Gossip(v, msg)
  {
    var n := |msg.members|;
    var w := Walk(v, msg, n).view;
    WalkPartitioned(v, msg, n);
    WalkThrows(v, msg, n);
    var j :| 0 <= j < n && Settled(w, msg, j) && (KeyThrows(w, msg, j) || InThrows(Listeners(msg, msg.members[j])));
    ThrowsAgainAt(w, msg, j);
  }

  /** A view whose entries before `j` are settled and on which entry `j` throws at once is left as it is. */
  lemma ThrowsAgainAt(w: View, msg: GossipMessage, j: nat)
    requires Partitioned(w.t) && j < |msg.members| && Settled(w, msg, j) && KeyThrows(w, msg, j)
    ensures Gossip(w, msg) == w
  {
    Settle(w, msg, j);
    ThrowStep(w, msg, j);
    WalkStops(w, msg, j + 1, |msg.members|);
  }

  /** A walk that reached entry `j` with the view unchanged stops there when the entry throws. */
  lemma ThrowStep(w: View, msg: GossipMessage, j: nat)
    requires j < |msg.members| && Walk(w, msg, j) == Progress(w, false, false) && KeyThrows(w, msg, j)
    ensures Walk(w, msg, j + 1) == Progress(w, false, true)
  {
    assert Entry(w, msg, j) == Visit(w, msg, j);
  }

  /** A pass that did not throw leaves every entry settled, so a second pass changes nothing. */
  lemma SettledAgain(v: View, msg: GossipMessage)
    requires Partitioned(v.t) && ThreePartKeys(msg) && !Walk(v, msg, |msg.members|).thrown
    ensures Gossip(Gossip(v, msg), msg) == Gossip(v, msg)
  {
    var n := |msg.members|;
    var p := Walk(v, msg, n);
    WalkPartitioned(v, msg, n);
    WalkSettles(v, msg, n);
    var w := Gossip(v, msg);
    if p.updateTags {
      RetaggedKeeps(p.view, msg);
      assert Settled(w, msg, n);
    }
    Settle(w, msg, n);
  }

  /**
   * Why `GossipIdempotent` asks every `topics` value to be an object: when
   * the stale-registration scan of entry 0 throws, the pass stops with that
   * member's sequence already advanced, so a second pass gets past entry 0
   * and discovers the member of entry 1, which the first pass never reached.
   */
  lemma ScanThrowRepeated(v: View, msg: GossipMessage)
    requires Keyed(v.t) && ThreePartKeys(msg) && |msg.members| == 2 && !HasKey(msg)
    requires ScanThrows(v, msg, 0) && msg.members[1] !in v.t.members && msg.members[1] != msg.members[0]
    ensures msg.members[1] !in Gossip(v, msg).t.members
    ensures msg.members[1] in Gossip(Gossip(v, msg), msg).t.members
    ensures Gossip(Gossip(v, msg), msg) != Gossip(v, msg)
  {
    var key := msg.members[0];
    var p := Visit(v, msg, 0);
    VisitKeyed(v, msg, 0);
    VisitStamps(v, msg, 0);
    assert Walk(v, msg, 1) == p by {
      assert Entry(v, msg, 0) == Visit(Walk(v, msg, 0).view, msg, 0);
    }
    WalkStops(v, msg, 1, 2);
    var u := p.view;
    assert Gossip(v, msg) == u;
    assert u.t.members.Keys == v.t.members.Keys + {key} by {
      if key !in v.t.members {
        DiscoveredKey(key);
      }
    }
    var q := Visit(u, msg, 0);
    VisitKeyed(u, msg, 0);
    assert !q.thrown;
    assert Walk(u, msg, 1) == q by {
      assert Entry(u, msg, 0) == Visit(Walk(u, msg, 0).view, msg, 0);
    }
    VisitKeyed(q.view, msg, 1);
    WalkNext(u, msg, 1);
    var w := Walk(u, msg, 2).view;
    assert msg.members[1] in w.t.members;
  }

  /**
   * Reconciling the same snapshot twice in a row is reconciling it once: the
   * second pass finds every entry known and no clock above its sequence, and
   * a pass that threw throws again at the same entry. This needs every
   * `topics` value of the snapshot to be an object: a stale-registration
   * scan that throws has already advanced its member's sequence, so a second
   * pass gets past that entry (`ScanThrowRepeated`).
   */
  lemma GossipIdempotent(v: View, msg: GossipMessage)
    requires Partitioned(v.t) && ThreePartKeys(msg) && ListenersAreObjects(msg)
    ensures Gossip(Gossip(v, msg), msg) == Gossip(v, msg)
  {
    if Walk(v, msg, |msg.members|).thrown {
      ThrownAgain(v, msg);
    } else {
      SettledAgain(v, msg);
    }
  }
}
