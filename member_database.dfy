/**
 * The process-wide membership and subscription state: which members are
 * registered for which topics, topic interceptors, message templates, the
 * listeners bound in this process, every known member and its liveness, and
 * the local dispatch of a message that reached this member.
 *
 * Objects of the program whose key order matters (the registration map) are
 * insertion-ordered entry lists; the others are maps.
 */
module MemberDatabase {
  import opened Wrappers
  import opened Js
  import opened Utils
  import opened EnvelopeCodec

  datatype Status = Alive | Failed | Left | Unknown

  /** The statuses that move an active member to the dead members. */
  predicate Down(s: Status) { s == Failed || s == Left || s == Unknown }

  /** The identity of a member: its address and its two ports, as text. */
  datatype Address = Address(ip: string, gossipPort: string, dataPort: string)

  /** `ip:gossipPort:dataPort`, the key every table is indexed by. */
  function KeyOf(a: Address): string
  {
    Key(a.ip, a.gossipPort, a.dataPort)
  }

  /** A known member, local or remote, as the tables see it. */
  datatype Member = Member(addr: Address, status: Status, sequence: real, tags: seq<(string, Value)>, publicKey: Value)

  /** One member's interest in one topic and partition. */
  datatype Registration = Registration(member: Address, topic: string, partition: string)

  /** A member's registrations: topic -> registrations, in insertion order. */
  type Topics = seq<(string, seq<Registration>)>

  /** The registration map: member key -> topic -> registrations. */
  type Registry = seq<(string, Topics)>

  /** A listener bound in this process; what it does when called is not modelled. */
  datatype Listener = Listener(id: nat)

  /** A delivery left to a timer: after `delay`, `message` is emitted under `event`. */
  datatype Timer = Timer(delay: Value, event: string, message: Value)

  // ---------------------------------------------------------------------------
  // The registration map

  /** The registrations of one member, topic after topic. */
  function TopicRegs(ts: Topics): seq<Registration>
  {
    if ts == [] then [] else TopicRegs(ts[..|ts| - 1]) + ts[|ts| - 1].1
  }

  /** Every registration, member after member, as `getAllRegistrations` lists them. */
  function AllRegs(reg: Registry): seq<Registration>
  {
    if reg == [] then [] else AllRegs(reg[..|reg| - 1]) + TopicRegs(reg[|reg| - 1].1)
  }

  lemma TopicRegsSnoc(ts: Topics, j: nat)
    requires j < |ts|
    ensures TopicRegs(ts[..j + 1]) == TopicRegs(ts[..j]) + ts[j].1
  {
    assert ts[..j + 1][..j] == ts[..j];
  }

  lemma AllRegsSnoc(reg: Registry, i: nat)
    requires i < |reg|
    ensures AllRegs(reg[..i + 1]) == AllRegs(reg[..i]) + TopicRegs(reg[i].1)
  {
    assert reg[..i + 1][..i] == reg[..i];
  }

  /** The registrations for topic `t`, in order. */
  function WithTopic(rs: seq<Registration>, t: string): (r: seq<Registration>)
    ensures |r| <= |rs|
    ensures forall x :: x in r <==> x in rs && x.topic == t
  {
    if rs == [] then []
    else WithTopic(rs[..|rs| - 1], t) + (if rs[|rs| - 1].topic == t then [rs[|rs| - 1]] else [])
  }

  lemma {:induction false} WithTopicAppend(a: seq<Registration>, b: seq<Registration>, t: string)
    ensures WithTopic(a + b, t) == WithTopic(a, t) + WithTopic(b, t)
    decreases |b|
  {
    if b != [] {
      var b' := b[..|b| - 1];
      assert (a + b)[..|a + b| - 1] == a + b';
      var x := b[|b| - 1];
      assert (a + b)[|a + b| - 1] == x;
      WithTopicAppend(a, b', t);
      assert WithTopic(a + b, t) == WithTopic(a + b', t) + (if x.topic == t then [x] else []);
      assert WithTopic(b, t) == WithTopic(b', t) + (if x.topic == t then [x] else []);
    } else {
      assert a + b == a;
    }
  }

  /** The bucket of member key `mk` and topic `t`: empty when either is missing. */
  function BucketOf(reg: Registry, mk: string, t: string): seq<Registration>
  {
    Lookup(Lookup(reg, mk).GetOr([]), t).GetOr([])
  }

  /** Whether a bucket already holds a registration for `partition`. */
  predicate HasPartition(regs: seq<Registration>, partition: string)
  {
    exists k :: 0 <= k < |regs| && regs[k].partition == partition
  }

  /** A bucket: every registration in it is for that member and topic, and no partition repeats. */
  predicate Bucket(mk: string, t: string, regs: seq<Registration>)
  {
    && (forall r :: r in regs ==> KeyOf(r.member) == mk && r.topic == t)
    && (forall k, l :: 0 <= k < l < |regs| ==> regs[k].partition != regs[l].partition)
  }

  predicate TopicsKeyed(mk: string, ts: Topics)
  {
    forall e :: e in ts ==> Bucket(mk, e.0, e.1)
  }

  /** Every bucket of the map is a bucket of its own member key and topic. */
  predicate WellKeyed(reg: Registry)
  {
    forall e :: e in reg ==> TopicsKeyed(e.0, e.1)
  }

  /** The bucket `r` joins: unchanged when it already holds `r`'s partition, `r` appended otherwise. */
  function Joined(regs: seq<Registration>, r: Registration): seq<Registration>
  {
    if HasPartition(regs, r.partition) then regs else regs + [r]
  }

  /** The map `registerMemberForTopic` leaves behind, for registration `r` under member key `mk`. */
  function Register(reg: Registry, mk: string, r: Registration): Registry
  {
    var ts := Lookup(reg, mk).GetOr([]);
    Assign(reg, mk, Assign(ts, r.topic, Joined(Lookup(ts, r.topic).GetOr([]), r)))
  }

  /**
   * Registering touches one bucket only, and adds the registration to it
   * exactly when the bucket has no registration for that partition yet.
   */
  lemma RegisterBuckets(reg: Registry, mk: string, r: Registration)
    ensures BucketOf(Register(reg, mk, r), mk, r.topic) == Joined(BucketOf(reg, mk, r.topic), r)
    ensures forall k, t :: (k, t) != (mk, r.topic) ==> BucketOf(Register(reg, mk, r), k, t) == BucketOf(reg, k, t)
  {
    var ts := Lookup(reg, mk).GetOr([]);
    var ts' := Assign(ts, r.topic, Joined(Lookup(ts, r.topic).GetOr([]), r));
    assert Lookup(Register(reg, mk, r), mk) == Some(ts');
    forall k, t | (k, t) != (mk, r.topic)
      ensures BucketOf(Register(reg, mk, r), k, t) == BucketOf(reg, k, t)
    {
      if k != mk {
        assert Lookup(Register(reg, mk, r), k) == Lookup(reg, k);
      } else {
        assert Lookup(ts', t) == Lookup(ts, t);
      }
    }
  }

  lemma BucketIn(reg: Registry, mk: string, t: string)
    requires WellKeyed(reg)
    ensures TopicsKeyed(mk, Lookup(reg, mk).GetOr([]))
    ensures Bucket(mk, t, BucketOf(reg, mk, t))
  {
    var ts := Lookup(reg, mk).GetOr([]);
    if Lookup(reg, mk).Some? {
      assert (mk, ts) in reg;
    }
    if Lookup(ts, t).Some? {
      assert (t, Lookup(ts, t).value) in ts;
    }
  }

  /** Registering keeps every bucket well keyed, so no (topic, partition, member) triple is held twice. */
  lemma RegisterKeyed(reg: Registry, mk: string, r: Registration)
    requires WellKeyed(reg) && KeyOf(r.member) == mk
    ensures WellKeyed(Register(reg, mk, r))
  {
    var ts := Lookup(reg, mk).GetOr([]);
    var regs := Lookup(ts, r.topic).GetOr([]);
    BucketIn(reg, mk, r.topic);
    var regs' := Joined(regs, r);
    JoinedBucket(mk, r.topic, regs, r);
    var ts' := Assign(ts, r.topic, regs');
    TopicsAssign(mk, ts, r.topic, regs');
    RegistryAssign(reg, mk, ts');
  }

  /** Joining a registration of the bucket's own member and topic keeps it a bucket. */
  lemma JoinedBucket(mk: string, t: string, regs: seq<Registration>, r: Registration)
    requires Bucket(mk, t, regs) && KeyOf(r.member) == mk && r.topic == t
    ensures Bucket(mk, t, Joined(regs, r))
  {
    if !HasPartition(regs, r.partition) {
      var regs' := regs + [r];
      forall k, l | 0 <= k < l < |regs'| ensures regs'[k].partition != regs'[l].partition {
        if l == |regs| {
          assert regs'[k] == regs[k];
        } else {
          assert regs'[k] == regs[k] && regs'[l] == regs[l];
        }
      }
    }
  }

  lemma TopicsAssign(mk: string, ts: Topics, t: string, regs: seq<Registration>)
    requires TopicsKeyed(mk, ts) && Bucket(mk, t, regs)
    ensures TopicsKeyed(mk, Assign(ts, t, regs))
  {
    AssignEntries(ts, t, regs);
  }

  lemma RegistryAssign(reg: Registry, mk: string, ts: Topics)
    requires WellKeyed(reg) && TopicsKeyed(mk, ts)
    ensures WellKeyed(Assign(reg, mk, ts))
  {
    AssignEntries(reg, mk, ts);
  }

  /** Every registration of `a` is also in `b`. */
  predicate Within(a: seq<Registration>, b: seq<Registration>)
  {
    forall x :: x in a ==> x in b
  }

  lemma {:induction false} TopicRegsAppend(a: Topics, b: Topics)
    ensures TopicRegs(a + b) == TopicRegs(a) + TopicRegs(b)
    decreases |b|
  {
    if b == [] {
      assert a + b == a;
    } else {
      var n := |b| - 1;
      assert (a + b)[..|a + b| - 1] == a + b[..n];
      TopicRegsAppend(a, b[..n]);
    }
  }

  lemma {:induction false} AllRegsAppend(a: Registry, b: Registry)
    ensures AllRegs(a + b) == AllRegs(a) + AllRegs(b)
    decreases |b|
  {
    if b == [] {
      assert a + b == a;
    } else {
      var n := |b| - 1;
      var ab := a + b;
      assert ab[..|ab| - 1] == a + b[..n] && ab[|ab| - 1] == b[n];
      var x, y, z := AllRegs(a), AllRegs(b[..n]), TopicRegs(b[n].1);
      assert AllRegs(ab) == AllRegs(a + b[..n]) + z;
      assert AllRegs(a + b[..n]) == x + y by {
        AllRegsAppend(a, b[..n]);
      }
      assert AllRegs(b) == y + z;
      SeqAssoc(x, y, z);
    }
  }

  /** The registrations of one topic of a member are among the member's registrations. */
  lemma {:induction false} TopicRegsHas(ts: Topics, e: (string, seq<Registration>))
    requires e in ts
    ensures Within(e.1, TopicRegs(ts))
    decreases |ts|
  {
    var n := |ts| - 1;
    if ts[n] != e {
      assert e in ts[..n];
      TopicRegsHas(ts[..n], e);
    }
  }

  /** The registrations of one member are among all registrations. */
  lemma {:induction false} AllRegsHas(reg: Registry, e: (string, Topics))
    requires e in reg
    ensures Within(TopicRegs(e.1), AllRegs(reg))
    decreases |reg|
  {
    var n := |reg| - 1;
    if reg[n] != e {
      assert e in reg[..n];
      AllRegsHas(reg[..n], e);
    }
  }

  /** Every registration of a bucket is one `getAllRegistrations` lists. */
  lemma BucketWithin(reg: Registry, mk: string, t: string)
    ensures Within(BucketOf(reg, mk, t), AllRegs(reg))
  {
    var ts := Lookup(reg, mk).GetOr([]);
    if Lookup(reg, mk).Some? && Lookup(ts, t).Some? {
      TopicRegsHas(ts, (t, Lookup(ts, t).value));
      AllRegsHas(reg, (mk, ts));
    }
  }

  lemma TopicRegsCons(e: (string, seq<Registration>), ts: Topics)
    ensures TopicRegs([e] + ts) == e.1 + TopicRegs(ts)
  {
    TopicRegsAppend([e], ts);
    assert [e][..0] == [];
  }

  lemma AllRegsCons(e: (string, Topics), reg: Registry)
    ensures AllRegs([e] + reg) == TopicRegs(e.1) + AllRegs(reg)
  {
    AllRegsAppend([e], reg);
    assert [e][..0] == [];
  }

  /** Assigning a topic a bucket that keeps the old one's registrations loses none of the member's. */
  lemma {:induction false} AssignTopicGrows(ts: Topics, t: string, regs: seq<Registration>)
    requires Within(Lookup(ts, t).GetOr([]), regs)
    ensures Within(TopicRegs(ts), TopicRegs(Assign(ts, t, regs)))
    decreases |ts|
  {
    if ts != [] {
      var ts' := Assign(ts, t, regs);
      assert ts == [ts[0]] + ts[1..];
      TopicRegsCons(ts[0], ts[1..]);
      if ts[0].0 == t {
        assert ts' == [(t, regs)] + ts[1..];
        TopicRegsCons((t, regs), ts[1..]);
      } else {
        assert ts' == [ts[0]] + Assign(ts[1..], t, regs);
        AssignTopicGrows(ts[1..], t, regs);
        TopicRegsCons(ts[0], Assign(ts[1..], t, regs));
      }
    }
  }

  /** Assigning a member topics that keep the old ones' registrations loses no registration. */
  lemma {:induction false} AssignMemberGrows(reg: Registry, mk: string, ts: Topics)
    requires Within(TopicRegs(Lookup(reg, mk).GetOr([])), TopicRegs(ts))
    ensures Within(AllRegs(reg), AllRegs(Assign(reg, mk, ts)))
    decreases |reg|
  {
    if reg != [] {
      var reg' := Assign(reg, mk, ts);
      assert reg == [reg[0]] + reg[1..];
      AllRegsCons(reg[0], reg[1..]);
      if reg[0].0 == mk {
        assert reg' == [(mk, ts)] + reg[1..];
        AllRegsCons((mk, ts), reg[1..]);
      } else {
        assert reg' == [reg[0]] + Assign(reg[1..], mk, ts);
        AssignMemberGrows(reg[1..], mk, ts);
        AllRegsCons(reg[0], Assign(reg[1..], mk, ts));
      }
    }
  }

  /**
   * Registering loses no registration, and the registration is listed
   * afterwards unless its bucket already held its partition.
   */
  lemma RegisterWithin(reg: Registry, mk: string, r: Registration)
    ensures Within(AllRegs(reg), AllRegs(Register(reg, mk, r)))
    ensures !HasPartition(BucketOf(reg, mk, r.topic), r.partition) ==> r in AllRegs(Register(reg, mk, r))
  {
    var ts := Lookup(reg, mk).GetOr([]);
    var regs := Joined(Lookup(ts, r.topic).GetOr([]), r);
    var ts' := Assign(ts, r.topic, regs);
    AssignTopicGrows(ts, r.topic, regs);
    AssignMemberGrows(reg, mk, ts');
    RegisterBuckets(reg, mk, r);
    BucketWithin(Register(reg, mk, r), mk, r.topic);
    if !HasPartition(BucketOf(reg, mk, r.topic), r.partition) {
      assert r in BucketOf(Register(reg, mk, r), mk, r.topic);
    }
  }

  /** Removing registrations: each bucket keeps the registrations not listed. */
  function Prune(reg: Registry, rs: seq<Registration>): (r: Registry)
    ensures |r| == |reg|
  {
    seq(|reg|, i requires 0 <= i < |reg| => (reg[i].0, PruneTopics(reg[i].1, rs)))
  }

  function PruneTopics(ts: Topics, rs: seq<Registration>): (r: Topics)
    ensures |r| == |ts|
  {
    seq(|ts|, j requires 0 <= j < |ts| => (ts[j].0, Keep(ts[j].1, rs)))
  }

  /** The registrations of `regs` that are not in `rs`, in order. */
  function Keep(regs: seq<Registration>, rs: seq<Registration>): (r: seq<Registration>)
    ensures forall x :: x in r <==> x in regs && x !in rs
  {
    if regs == [] then []
    else Keep(regs[..|regs| - 1], rs) + (if regs[|regs| - 1] in rs then [] else [regs[|regs| - 1]])
  }

  lemma {:induction false} KeepAppend(a: seq<Registration>, b: seq<Registration>, rs: seq<Registration>)
    ensures Keep(a + b, rs) == Keep(a, rs) + Keep(b, rs)
    decreases |b|
  {
    if b != [] {
      var b' := b[..|b| - 1];
      assert (a + b)[..|a + b| - 1] == a + b';
      var x := b[|b| - 1];
      assert (a + b)[|a + b| - 1] == x;
      KeepAppend(a, b', rs);
      assert Keep(a + b, rs) == Keep(a + b', rs) + (if x in rs then [] else [x]);
      assert Keep(b, rs) == Keep(b', rs) + (if x in rs then [] else [x]);
    } else {
      assert a + b == a;
    }
  }

  lemma {:induction false} PruneTopicRegs(ts: Topics, rs: seq<Registration>)
    ensures TopicRegs(PruneTopics(ts, rs)) == Keep(TopicRegs(ts), rs)
    decreases |ts|
  {
    if ts != [] {
      var n := |ts| - 1;
      assert PruneTopics(ts, rs)[..n] == PruneTopics(ts[..n], rs);
      PruneTopicRegs(ts[..n], rs);
      KeepAppend(TopicRegs(ts[..n]), ts[n].1, rs);
    }
  }

  /** Pruning removes exactly the listed registrations and keeps the order of the rest. */
  lemma {:induction false} PruneRegs(reg: Registry, rs: seq<Registration>)
    ensures AllRegs(Prune(reg, rs)) == Keep(AllRegs(reg), rs)
    decreases |reg|
  {
    if reg != [] {
      var n := |reg| - 1;
      assert Prune(reg, rs)[..n] == Prune(reg[..n], rs);
      PruneRegs(reg[..n], rs);
      PruneTopicRegs(reg[n].1, rs);
      KeepAppend(AllRegs(reg[..n]), TopicRegs(reg[n].1), rs);
    }
  }

  lemma KeepBucket(mk: string, t: string, regs: seq<Registration>, rs: seq<Registration>)
    requires Bucket(mk, t, regs)
    ensures Bucket(mk, t, Keep(regs, rs))
    decreases |regs|
  {
    if regs != [] {
      var n := |regs| - 1;
      assert Bucket(mk, t, regs[..n]) by {
        forall k, l | 0 <= k < l < n ensures regs[..n][k].partition != regs[..n][l].partition {
          assert regs[..n][k] == regs[k] && regs[..n][l] == regs[l];
        }
        forall r | r in regs[..n] ensures KeyOf(r.member) == mk && r.topic == t {
          assert r in regs;
        }
      }
      KeepBucket(mk, t, regs[..n], rs);
      var kept := Keep(regs[..n], rs);
      if regs[n] !in rs {
        forall k | 0 <= k < |kept| ensures kept[k].partition != regs[n].partition {
          var x := kept[k];
          assert x in regs[..n];
          var m :| 0 <= m < n && regs[..n][m] == x;
          assert regs[m] == x;
        }
      }
    }
  }

  /** Pruning keeps every bucket well keyed. */
  lemma PruneKeyed(reg: Registry, rs: seq<Registration>)
    requires WellKeyed(reg)
    ensures WellKeyed(Prune(reg, rs))
  {
    forall e | e in Prune(reg, rs) ensures TopicsKeyed(e.0, e.1) {
      var i :| 0 <= i < |reg| && Prune(reg, rs)[i] == e;
      assert reg[i] in reg;
      forall f | f in e.1 ensures Bucket(e.0, f.0, f.1) {
        var j :| 0 <= j < |reg[i].1| && PruneTopics(reg[i].1, rs)[j] == f;
        assert reg[i].1[j] in reg[i].1;
        KeepBucket(e.0, f.0, reg[i].1[j].1, rs);
      }
    }
  }

  // ---------------------------------------------------------------------------
  // Liveness

  /** `delete o[k]` on a table kept as its key order. */
  function RemoveKey(ks: seq<string>, k: string): (r: seq<string>)
    ensures forall x :: x in r <==> x in ks && x != k
  {
    if ks == [] then []
    else if ks[0] == k then RemoveKey(ks[1..], k)
    else [ks[0]] + RemoveKey(ks[1..], k)
  }

  predicate NoDup(ks: seq<string>)
  {
    forall i, j :: 0 <= i < j < |ks| ==> ks[i] != ks[j]
  }

  lemma NoDupAppend(ks: seq<string>, k: string)
    requires NoDup(ks) && k !in ks
    ensures NoDup(ks + [k])
    ensures forall x :: x in ks + [k] <==> x in ks || x == k
  {
  }

  lemma {:induction false} RemoveKeyNoDup(ks: seq<string>, k: string)
    requires NoDup(ks)
    ensures NoDup(RemoveKey(ks, k))
  {
    if ks != [] {
      assert NoDup(ks[1..]) by {
        forall i, j | 0 <= i < j < |ks| - 1 ensures ks[1..][i] != ks[1..][j] {
          assert ks[1..][i] == ks[i + 1] && ks[1..][j] == ks[j + 1];
        }
      }
      RemoveKeyNoDup(ks[1..], k);
      if ks[0] != k {
        var r := RemoveKey(ks[1..], k);
        assert ks[0] !in ks[1..];
        assert ks[0] !in r;
        forall i, j | 0 <= i < j < |r| + 1 ensures ([ks[0]] + r)[i] != ([ks[0]] + r)[j] {
          if i == 0 {
            assert ([ks[0]] + r)[j] == r[j - 1];
          } else {
            assert ([ks[0]] + r)[i] == r[i - 1] && ([ks[0]] + r)[j] == r[j - 1];
          }
        }
      }
    }
  }

  /** The three member tables: all members by key, and the keys of the active and of the dead ones. */
  datatype Table = Table(members: map<string, Member>, active: seq<string>, dead: seq<string>)

  /**
   * The liveness partition: every known member is active or dead and never
   * both, each list holds a key once, every member is stored under its own
   * key, and a member is active exactly when its status is Alive.
   */
  ghost predicate Partitioned(t: Table)
  {
    && (forall k :: k in t.members <==> k in t.active || k in t.dead)
    && (forall k :: k in t.active ==> k !in t.dead)
    && NoDup(t.active) && NoDup(t.dead)
    && (forall k :: k in t.members ==> KeyOf(t.members[k].addr) == k)
    && (forall k :: k in t.members ==> (k in t.active <==> t.members[k].status == Alive))
  }

  /**
   * `updateMemberStatus` on the tables. The record passed for a known key is
   * the member's current state (the program passes the stored object, which
   * its caller has just changed), so it is stored.
   */
  function UpdateStatus(t: Table, member: Member): (r: Table)
    ensures r.members == t.members[KeyOf(member.addr) := member]
  {
    var key := KeyOf(member.addr);
    var members := t.members[key := member];
    if key in t.members then
      if key in t.active && Down(member.status) then Table(members, RemoveKey(t.active, key), t.dead + [key])
      else if key in t.dead && member.status == Alive then Table(members, t.active + [key], RemoveKey(t.dead, key))
      else Table(members, t.active, t.dead)
    else if member.status == Alive then Table(members, t.active + [key], t.dead)
    else Table(members, t.active, t.dead + [key])
  }

  /**
   * `updateMemberStatus` keeps the partition: afterwards the member is active
   * exactly when it is Alive and dead otherwise, and no other key moves.
   */
  lemma UpdateStatusPartitioned(t: Table, member: Member)
    requires Partitioned(t)
    ensures Partitioned(UpdateStatus(t, member))
    ensures KeyOf(member.addr) in UpdateStatus(t, member).active <==> member.status == Alive
    ensures KeyOf(member.addr) in UpdateStatus(t, member).dead <==> member.status != Alive
    ensures forall k :: k != KeyOf(member.addr) ==>
      (k in UpdateStatus(t, member).active <==> k in t.active) && (k in UpdateStatus(t, member).dead <==> k in t.dead)
  {
    var key := KeyOf(member.addr);
    if key in t.members {
      if key in t.active && Down(member.status) {
        RemoveKeyNoDup(t.active, key);
        NoDupAppend(t.dead, key);
      } else if key in t.dead && member.status == Alive {
        RemoveKeyNoDup(t.dead, key);
        NoDupAppend(t.active, key);
      }
    } else if member.status == Alive {
      NoDupAppend(t.active, key);
    } else {
      NoDupAppend(t.dead, key);
    }
  }

  /** A second identical update changes nothing. */
  lemma UpdateStatusIdempotent(t: Table, member: Member)
    requires Partitioned(t)
    ensures UpdateStatus(UpdateStatus(t, member), member) == UpdateStatus(t, member)
  {
    UpdateStatusPartitioned(t, member);
  }

  // ---------------------------------------------------------------------------
  // Local dispatch

  type Interceptor = Envelope -> Envelope

  /**
   * The interceptor loop from position `i` on. It runs over the positions of
   * the list found for the original topic, but re-reads the list under the
   * envelope's current topic at every step; `None` is the TypeError thrown
   * when that list is missing or too short.
   */
  function Chain(fs: map<string, seq<Interceptor>>, n: nat, i: nat, e: Envelope): Option<Envelope>
    decreases n - i
  {
    if i >= n then Some(e)
    else
      var k := Show(e.topic);
      if k in fs && i < |fs[k]| then Chain(fs, n, i + 1, fs[k][i](e)) else None
  }

  /** The interceptors of the envelope's topic applied in turn; topics are matched as strings. */
  function Intercept(fs: map<string, seq<Interceptor>>, e: Envelope): Option<Envelope>
  {
    if e.topic.Str? && e.topic.s in fs then Chain(fs, |fs[e.topic.s]|, 0, e) else Some(e)
  }

  /** Applying a list of interceptors one after another, each output feeding the next. */
  function ApplyAll(fs: seq<Interceptor>, e: Envelope): Envelope
    decreases |fs|
  {
    if fs == [] then e else ApplyAll(fs[1..], fs[0](e))
  }

  ghost predicate KeepsTopic(f: Interceptor)
  {
    forall e :: f(e).topic == e.topic
  }

  lemma {:induction false} ChainApplies(fs: map<string, seq<Interceptor>>, t: string, i: nat, e: Envelope)
    requires t in fs && i <= |fs[t]| && Show(e.topic) == t
    requires forall j :: 0 <= j < |fs[t]| ==> KeepsTopic(fs[t][j])
    ensures Chain(fs, |fs[t]|, i, e) == Some(ApplyAll(fs[t][i..], e))
    decreases |fs[t]| - i
  {
    if i < |fs[t]| {
      assert KeepsTopic(fs[t][i]);
      ChainApplies(fs, t, i + 1, fs[t][i](e));
      assert fs[t][i..][1..] == fs[t][i + 1..];
    }
  }

  /**
   * When no interceptor of a topic changes the topic, the envelope goes
   * through all of them in registration order.
   */
  lemma InterceptInOrder(fs: map<string, seq<Interceptor>>, e: Envelope)
    requires e.topic.Str? && e.topic.s in fs
    requires forall j :: 0 <= j < |fs[e.topic.s]| ==> KeepsTopic(fs[e.topic.s][j])
    ensures Intercept(fs, e) == Some(ApplyAll(fs[e.topic.s], e))
  {
    ChainApplies(fs, e.topic.s, 0, e);
    assert fs[e.topic.s][0..] == fs[e.topic.s];
  }

  /**
   * The object built from a template's keys: key `keys[i]` takes `message[i]`.
   * The keys of a template are `Object.keys` of an object, so they are distinct
   * and each assignment appends a new entry.
   */
  function Fill(keys: seq<string>, items: seq<Value>): (o: seq<(string, Value)>)
    ensures |o| == |keys|
  {
    seq(|keys|, i requires 0 <= i < |keys| => (keys[i], At(items, i)))
  }

  /** `message[0]`, ..., `message[n - 1]`; reads past the end are `undefined`. */
  function Positions(message: Value, n: nat): (vs: seq<Value>)
    ensures |vs| == n
  {
    seq(n, i requires 0 <= i < n => Index(message, i).GetOr(Undefined))
  }

  /**
   * The template reshaping of a message; `None` is the TypeError of indexing
   * an `undefined` or `null` message.
   */
  function Reshape(keys: seq<string>, message: Value): Option<Value>
  {
    if keys != [] && (message.Undefined? || message.Null?) then None
    else Some(Map(Fill(keys, Positions(message, |keys|))))
  }

  lemma FillSnoc(keys: seq<string>, items: seq<Value>, i: nat)
    requires i < |keys|
    ensures Fill(keys[..i + 1], items) == Fill(keys[..i], items) + [(keys[i], At(items, i))]
  {
  }

  /** With distinct template keys, the i-th key of the template holds `message[i]`, and no other key is set. */
  lemma FillMapsKeys(keys: seq<string>, items: seq<Value>)
    requires NoDup(keys)
    ensures forall i :: 0 <= i < |keys| ==> Lookup(Fill(keys, items), keys[i]) == Some(At(items, i))
    ensures forall k :: k !in keys ==> Lookup(Fill(keys, items), k).None?
  {
    var o := Fill(keys, items);
    assert DistinctKeys(o);
    forall i | 0 <= i < |keys| ensures Lookup(o, keys[i]) == Some(At(items, i)) {
      LookupAt(o, i);
    }
  }

  /** The reshaping a topic's template applies, when it has one. */
  function Shape(templates: map<string, seq<string>>, e: Envelope): Option<Envelope>
  {
    var t := Show(e.topic);
    if t in templates then
      match Reshape(templates[t], e.message)
        case None => None
        case Some(m) => Some(e.(message := m))
    else Some(e)
  }

  /** What `send` does with a message once it has been intercepted and reshaped. */
  datatype Outcome = Thrown | Deferred(timer: Timer) | Emitted(event: string, message: Value) | Dropped

  /** The execute-time rule: later, now, or never. */
  function Schedule(e: Envelope): (o: Outcome)
    ensures o.Deferred? <==> Greater(e.executeTime, 0.0)
    ensures o.Emitted? <==> !Greater(e.executeTime, 0.0) && AtLeast(e.executeTime, 0.0)
    ensures o.Dropped? <==> !AtLeast(e.executeTime, 0.0)
    ensures o.Deferred? ==> o.timer == Timer(e.executeTime, TopicString(Show(e.topic), Show(e.partition)), e.message)
    ensures o.Emitted? ==> o == Emitted(TopicString(Show(e.topic), Show(e.partition)), e.message)
  {
    var event := TopicString(Show(e.topic), Show(e.partition));
    if Greater(e.executeTime, 0.0) then Deferred(Timer(e.executeTime, event, e.message))
    else if AtLeast(e.executeTime, 0.0) then Emitted(event, e.message)
    else Dropped
  }

  /** An execute time given as numeric text is compared as a number: "1.5", "007" and " 5 " defer, "-2e2" drops. */
  lemma ScheduleNumeralText(e: Envelope)
    ensures e.executeTime == Str("1.5") || e.executeTime == Str("007") || e.executeTime == Str(" 5 ") ==> Schedule(e).Deferred?
    ensures e.executeTime == Str("-2e2") ==> Schedule(e).Dropped?
  {
    NumeralStrings();
    var x := ToNumber(e.executeTime);
    assert Greater(e.executeTime, 0.0) <==> x.Some? && x.value > 0.0;
    assert AtLeast(e.executeTime, 0.0) <==> x.Some? && x.value >= 0.0;
  }

  /** The whole of `send`: interceptors, then the template, then the execute-time rule. */
  function Dispatch(fs: map<string, seq<Interceptor>>, templates: map<string, seq<string>>, e: Envelope): Outcome
  {
    match Intercept(fs, e)
      case None => Thrown
      case Some(e1) =>
        match Shape(templates, e1)
          case None => Thrown
          case Some(e2) => Schedule(e2)
  }

  /** One step of the template loop: with distinct keys, each assignment appends. */
  lemma FillStep(keys: seq<string>, items: seq<Value>, idx: nat, v: Value)
    requires NoDup(keys) && idx < |keys| && v == At(items, idx)
    ensures Assign(Fill(keys[..idx], items), keys[idx], v) == Fill(keys[..idx + 1], items)
  {
    var conv := Fill(keys[..idx], items);
    FillSnoc(keys, items, idx);
    assert keys[idx] !in KeysOf(conv) by {
      assert forall j :: 0 <= j < idx ==> KeysOf(conv)[j] == keys[j];
    }
    AssignFresh(conv, keys[idx], v);
  }

  /** The interceptor loop of `send`. */
  method RunInterceptors(fs: map<string, seq<Interceptor>>, envelope: Envelope) returns (r: Option<Envelope>)
    ensures r == Intercept(fs, envelope)
  {
    var e := envelope;
    if e.topic.Str? && e.topic.s in fs {
      var n := |fs[e.topic.s]|;
      var index := 0;
      while index < n
        invariant 0 <= index <= n
        invariant Chain(fs, n, index, e) == Intercept(fs, envelope)
      {
        var k := Show(e.topic);
        if !(k in fs && index < |fs[k]|) {
          return None;
        }
        e := fs[k][index](e);
        index := index + 1;
      }
    }
    return Some(e);
  }

  /** The template loop of `send`: `conv[keys[idx]] = message[idx]` for each key. */
  method Convert(keys: seq<string>, message: Value) returns (r: Option<Value>)
    requires NoDup(keys)
    ensures r == Reshape(keys, message)
  {
    var items := Positions(message, |keys|);
    var conv: seq<(string, Value)> := [];
    var idx := 0;
    while idx < |keys|
      invariant 0 <= idx <= |keys|
      invariant idx > 0 ==> !(message.Undefined? || message.Null?)
      invariant conv == Fill(keys[..idx], items)
    {
      var v := Index(message, idx);
      if v.None? {
        return None;
      }
      FillStep(keys, items, idx, v.value);
      conv := Assign(conv, keys[idx], v.value);
      idx := idx + 1;
    }
    assert keys[..idx] == keys;
    return Some(Map(conv));
  }

  /** The innermost loop of `getRegisteredMembers`: one bucket's registrations for `topic`. */
  method MatchesInBucket(regs: seq<Registration>, topic: string) returns (ret: seq<Registration>)
    ensures ret == WithTopic(regs, topic)
  {
    ret := [];
    var k := 0;
    while k < |regs|
      invariant 0 <= k <= |regs|
      invariant ret == WithTopic(regs[..k], topic)
    {
      assert regs[..k + 1][..k] == regs[..k];
      if regs[k].topic == topic {
        ret := ret + [regs[k]];
      }
      k := k + 1;
    }
    assert regs[..k] == regs;
  }

  /** The middle loop of `getRegisteredMembers`: one member's registrations for `topic`. */
  method MatchesInTopics(ts: Topics, topic: string) returns (ret: seq<Registration>)
    ensures ret == WithTopic(TopicRegs(ts), topic)
  {
    ret := [];
    var j := 0;
    while j < |ts|
      invariant 0 <= j <= |ts|
      invariant ret == WithTopic(TopicRegs(ts[..j]), topic)
    {
      var part := MatchesInBucket(ts[j].1, topic);
      TopicRegsSnoc(ts, j);
      WithTopicAppend(TopicRegs(ts[..j]), ts[j].1, topic);
      ret := ret + part;
      j := j + 1;
    }
    assert ts[..j] == ts;
  }

  /**
   * The scan of `registerMemberForTopic`: whether the bucket already holds a
   * registration with the same topic, partition and member key. In a bucket
   * that is well keyed, that is whether it holds the partition.
   */
  method FindRegistration(regs: seq<Registration>, memberKey: string, topic: string, partition: string)
    returns (found: bool)
    requires Bucket(memberKey, topic, regs)
    ensures found <==> HasPartition(regs, partition)
  {
    found := false;
    var k := 0;
    while k < |regs|
      invariant 0 <= k <= |regs|
      invariant forall l :: 0 <= l < k ==> regs[l].partition != partition
    {
      var that := regs[k];
      assert that in regs;
      if topic == that.topic && partition == that.partition && memberKey == KeyOf(that.member) {
        found := true;
        return;
      }
      k := k + 1;
    }
  }

  class Database {
    var interceptors: map<string, seq<Interceptor>>
    /** The listener table: event name `topic(partition)` -> listeners, in binding order. */
    var listeners: map<string, seq<Listener>>
    /** The keys of each topic's template, in order. */
    var templates: map<string, seq<string>>
    var registry: Registry
    var members: map<string, Member>
    /** The keys of the active members, in insertion order. */
    var active: seq<string>
    /** The keys of the dead members, in insertion order. */
    var dead: seq<string>
    /** The events emitted so far, with their messages. */
    var emitted: seq<(string, Value)>
    /** The deliveries left to timers. */
    var pending: seq<Timer>

    /**
     * The member tables are partitioned (see `Partitioned`), buckets are well
     * keyed and every template's keys are distinct.
     */
    ghost predicate Valid()
      reads this
    {
      && Partitioned(Table(members, active, dead))
      && WellKeyed(registry)
      && (forall t :: t in templates ==> NoDup(templates[t]))
    }

    constructor ()
      ensures Valid()
      ensures interceptors == map[] && listeners == map[] && templates == map[] && registry == []
      ensures members == map[] && active == [] && dead == [] && emitted == [] && pending == []
    {
      interceptors := map[];
      listeners := map[];
      templates := map[];
      registry := [];
      members := map[];
      active := [];
      dead := [];
      emitted := [];
      pending := [];
    }

    /** `addInterceptor`: appends to the topic's list, creating it on first use. */
    method AddInterceptor(topic: string, interceptor: Interceptor)
      requires Valid()
      modifies this`interceptors
      ensures Valid()
      ensures interceptors == old(interceptors)[topic :=
        (if topic in old(interceptors) then old(interceptors[topic]) else []) + [interceptor]]
    {
      if topic !in interceptors {
        interceptors := interceptors[topic := []];
      }
      interceptors := interceptors[topic := interceptors[topic] + [interceptor]];
    }

    /**
     * `addLocalListener`: binds the listener under `topic(partition)` and
     * records the template of a topic that has none yet.
     */
    method AddLocalListener(topic: string, partition: string, listener: Listener, template: Option<seq<string>>)
      requires Valid()
      requires template.Some? ==> NoDup(template.value)
      modifies this`listeners, this`templates
      ensures Valid()
      ensures var event := TopicString(topic, partition);
        listeners == old(listeners)[event := (if event in old(listeners) then old(listeners[event]) else []) + [listener]]
      ensures topic in old(templates) ==> templates == old(templates)
      ensures topic !in old(templates) && template.Some? ==> templates == old(templates)[topic := template.value]
      ensures template.None? ==> templates == old(templates)
    {
      var event := TopicString(topic, partition);
      var bound := if event in listeners then listeners[event] else [];
      listeners := listeners[event := bound + [listener]];
      if template.Some? {
        if topic !in templates {
          templates := templates[topic := template.value];
        }
      }
    }

    /** `registerMemberForTopic`: the scan for an equal registration, then the push. */
    method RegisterMemberForTopic(topic: string, partition: string, member: Address)
      requires Valid()
      modifies this`registry
      ensures Valid()
      ensures registry == Register(old(registry), KeyOf(member), Registration(member, topic, partition))
    {
      var memberKey := KeyOf(member);
      var newReg := Registration(member, topic, partition);
      var ts := Lookup(registry, memberKey).GetOr([]);
      var regs := Lookup(ts, topic).GetOr([]);
      BucketIn(registry, memberKey, topic);
      var found := FindRegistration(regs, memberKey, topic, partition);
      if !found {
        regs := regs + [newReg];
      }
      RegisterKeyed(registry, memberKey, newReg);
      registry := Assign(registry, memberKey, Assign(ts, topic, regs));
    }

    /** `removeRegistrations`, as its documentation describes it: every listed registration is removed. */
    method RemoveRegistrations(rs: seq<Registration>)
      requires Valid()
      modifies this`registry
      ensures Valid()
      ensures registry == Prune(old(registry), rs)
      ensures AllRegs(registry) == Keep(AllRegs(old(registry)), rs)
    {
      PruneKeyed(registry, rs);
      PruneRegs(registry, rs);
      registry := Prune(registry, rs);
    }

    /** `getAllRegistrations`: every registration, member by member and topic by topic. */
    method GetAllRegistrations() returns (ret: seq<Registration>)
      ensures ret == AllRegs(registry)
    {
      ret := [];
      var i := 0;
      while i < |registry|
        invariant 0 <= i <= |registry|
        invariant ret == AllRegs(registry[..i])
      {
        var ts := registry[i].1;
        var j := 0;
        while j < |ts|
          invariant 0 <= j <= |ts|
          invariant ret == AllRegs(registry[..i]) + TopicRegs(ts[..j])
        {
          var regs := ts[j].1;
          var k := 0;
          while k < |regs|
            invariant 0 <= k <= |regs|
            invariant ret == AllRegs(registry[..i]) + TopicRegs(ts[..j]) + regs[..k]
          {
            ret := ret + [regs[k]];
            assert regs[..k + 1] == regs[..k] + [regs[k]];
            k := k + 1;
          }
          assert regs[..k] == regs;
          TopicRegsSnoc(ts, j);
          j := j + 1;
        }
        assert ts[..j] == ts;
        AllRegsSnoc(registry, i);
        i := i + 1;
      }
      assert registry[..i] == registry;
    }

    /** `getRegisteredMembers`: the registrations for `topic`, across all members, in map order. */
    method GetRegisteredMembers(topic: string) returns (ret: seq<Registration>)
      ensures ret == WithTopic(AllRegs(registry), topic)
      ensures forall r :: r in ret <==> r in AllRegs(registry) && r.topic == topic
    {
      ret := [];
      var i := 0;
      while i < |registry|
        invariant 0 <= i <= |registry|
        invariant ret == WithTopic(AllRegs(registry[..i]), topic)
      {
        var part := MatchesInTopics(registry[i].1, topic);
        AllRegsSnoc(registry, i);
        WithTopicAppend(AllRegs(registry[..i]), TopicRegs(registry[i].1), topic);
        ret := ret + part;
        i := i + 1;
      }
      assert registry[..i] == registry;
    }

    /** `getActiveMembers`: the active members, in the order they became active. */
    method GetActiveMembers() returns (ret: seq<Member>)
      requires Valid()
      ensures |ret| == |active|
      ensures forall i :: 0 <= i < |active| ==> ret[i] == members[active[i]]
      ensures forall m :: m in ret ==> KeyOf(m.addr) in active && KeyOf(m.addr) !in dead && m.status == Alive
    {
      ret := [];
      var i := 0;
      while i < |active|
        invariant 0 <= i <= |active|
        invariant |ret| == i
        invariant forall j :: 0 <= j < i ==> ret[j] == members[active[j]]
      {
        ret := ret + [members[active[i]]];
        i := i + 1;
      }
    }

    /** `getDeadMembers`: the dead members, in the order they died. */
    method GetDeadMembers() returns (ret: seq<Member>)
      requires Valid()
      ensures |ret| == |dead|
      ensures forall i :: 0 <= i < |dead| ==> ret[i] == members[dead[i]]
      ensures forall m :: m in ret ==> KeyOf(m.addr) in dead && KeyOf(m.addr) !in active && m.status != Alive
    {
      ret := [];
      var i := 0;
      while i < |dead|
        invariant 0 <= i <= |dead|
        invariant |ret| == i
        invariant forall j :: 0 <= j < i ==> ret[j] == members[dead[j]]
      {
        ret := ret + [members[dead[i]]];
        i := i + 1;
      }
    }

    /** `updateMemberStatus`: see `UpdateStatus`. */
    method UpdateMemberStatus(member: Member)
      requires Valid()
      modifies this`members, this`active, this`dead
      ensures Valid()
      ensures Table(members, active, dead) == UpdateStatus(old(Table(members, active, dead)), member)
    {
      UpdateStatusPartitioned(Table(members, active, dead), member);
      var key := KeyOf(member.addr);
      if key in members {
        if key in active && (member.status == Failed || member.status == Left || member.status == Unknown) {
          active := RemoveKey(active, key);
          dead := dead + [key];
        } else if key in dead && member.status == Alive {
          dead := RemoveKey(dead, key);
          active := active + [key];
        }
        members := members[key := member];
      } else {
        members := members[key := member];
        if member.status == Alive {
          active := active + [key];
        } else {
          dead := dead + [key];
        }
      }
    }

    /**
     * `send`: the topic's interceptors, then the topic's template, then the
     * execute-time rule. A deferred delivery is queued for its timer; an
     * immediate one is emitted under `topic(partition)`.
     */
    method Send(envelope: Envelope) returns (thrown: bool)
      requires Valid()
      modifies this`emitted, this`pending
      ensures Valid()
      ensures thrown <==> Dispatch(interceptors, templates, envelope).Thrown?
      ensures var o := Dispatch(interceptors, templates, envelope);
        && (o.Deferred? ==> pending == old(pending) + [o.timer] && emitted == old(emitted))
        && (o.Emitted? ==> emitted == old(emitted) + [(o.event, o.message)] && pending == old(pending))
        && (o.Thrown? || o.Dropped? ==> emitted == old(emitted) && pending == old(pending))
    {
      var r := RunInterceptors(interceptors, envelope);
      if r.None? {
        return true;
      }
      var e := r.value;
      var t := Show(e.topic);
      if t in templates {
        var m := Convert(templates[t], e.message);
        if m.None? {
          return true;
        }
        e := e.(message := m.value);
      }
      var event := TopicString(Show(e.topic), Show(e.partition));
      thrown := false;
      if Greater(e.executeTime, 0.0) {
        pending := pending + [Timer(e.executeTime, event, e.message)];
      } else if AtLeast(e.executeTime, 0.0) {
        emitted := emitted + [(event, e.message)];
      }
    }

    /** `getMember`. */
    function GetMember(key: string): (r: Option<Member>)
      reads this
      ensures r.Some? <==> key in members
      ensures r.Some? ==> r.value == members[key]
    {
      if key in members then Some(members[key]) else None
    }
  }
}
