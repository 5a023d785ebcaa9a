/**
 * The local member: its identity test, the decode-on-send step that turns a
 * received payload into a message for local listeners, `shutdown`, and the
 * data-stream handler that cuts incoming bytes into frames, decodes each frame
 * as an envelope and sends it on to the member database.
 */
module LocalMember {
  import opened Wrappers
  import opened Js
  import opened Text
  import opened MsgPack
  import opened Utils
  import opened MemberDatabase
  import opened Framing
  import EnvelopeCodec
  import GenericCodec

  type Envelope = EnvelopeCodec.Envelope

  // ---------------------------------------------------------------------------
  // equals

  /** `equals`: the other member is defined and its ip and both ports are strictly equal to ours. */
  function Equals(me: Address, them: Option<Address>): (r: bool)
    ensures r <==> them == Some(me)
  {
    them.Some? && them.value.ip == me.ip && them.value.gossipPort == me.gossipPort && them.value.dataPort == me.dataPort
  }

  /** An address whose parts hold no colon, so that its key can be split back. */
  predicate ColonFree(a: Address)
  {
    Free(a.ip, ':') && Free(a.gossipPort, ':') && Free(a.dataPort, ':')
  }

  /** For colon-free addresses, `equals` is equality of member keys. */
  lemma EqualsByKey(me: Address, them: Address)
    requires ColonFree(me) && ColonFree(them)
    ensures Equals(me, Some(them)) <==> KeyOf(me) == KeyOf(them)
  {
    KeyInjective((me.ip, me.gossipPort, me.dataPort), (them.ip, them.gossipPort, them.dataPort));
  }

  // ---------------------------------------------------------------------------
  // send

  /** The bytes the generic decoder reads from a payload: a buffer as is, a string as UTF-8, anything else as nothing. */
  function PayloadBytes(payload: Value): (b: seq<byte>)
    ensures payload.Bytes? ==> b == payload.data
  {
    EnvelopeCodec.ToBuffer(payload).GetOr([])
  }

  /**
   * The envelope `send` hands to the database: an envelope not yet decoded
   * gets the generic decoding of its payload as its message and is marked
   * decoded; a decoded one passes unchanged.
   */
  function Prepared(c: Codec, e: Envelope): (r: Envelope)
    requires Consumes(c)
    ensures r.decoded
    ensures e.decoded ==> r == e
    ensures r == e.(message := r.message, decoded := true)
    ensures !e.decoded ==> r.message.List?
  {
    if e.decoded then e
    else e.(message := List(GenericCodec.Decode(c, PayloadBytes(e.payload))), decoded := true)
  }

  /** Decoding happens at most once: preparing twice is preparing once. */
  lemma PreparedOnce(c: Codec, e: Envelope)
    requires Consumes(c)
    ensures Prepared(c, Prepared(c, e)) == Prepared(c, e)
  {
  }

  /**
   * A message a remote member generic-encoded into an unencrypted envelope
   * reaches local listeners as the positional list of its field values.
   */
  lemma ReceivesPositionalList(c: Codec, e: Envelope, message: Value)
    requires Sound(c) && EnvelopeCodec.Plain(e) && AllPackable(Elements(message))
    requires e.payload == Bytes(GenericCodec.Encode(c, message))
    requires forall j :: 0 <= j < |Elements(message)| ==> !Elements(message)[j].Bytes?
    ensures Prepared(c, EnvelopeCodec.Received(e)).message == List(Elements(message))
  {
    GenericCodec.RoundTrip(c, message);
  }

  /** The two logs the database's `send` appends to. */
  datatype Logs = Logs(emitted: seq<(string, Value)>, pending: seq<Timer>)

  /** The logs after one dispatch outcome. */
  function After(l: Logs, o: Outcome): Logs
  {
    match o
      case Deferred(timer) => Logs(l.emitted, l.pending + [timer])
      case Emitted(event, message) => Logs(l.emitted + [(event, message)], l.pending)
      case _ => l
  }

  /** `a` is a prefix of `b` in both logs. */
  predicate Extends(a: Logs, b: Logs)
  {
    a.emitted <= b.emitted && a.pending <= b.pending
  }

  /** An outcome only ever appends, and it appends exactly one entry unless it throws or is dropped. */
  lemma AfterExtends(l: Logs, o: Outcome)
    ensures Extends(l, After(l, o))
    ensures o.Thrown? || o.Dropped? <==> After(l, o) == l
    ensures |After(l, o).emitted| + |After(l, o).pending| == |l.emitted| + |l.pending| + (if o.Deferred? || o.Emitted? then 1 else 0)
  {
  }

  // ---------------------------------------------------------------------------
  // The data handler

  /** What the handler did so far: the logs, and whether a `send` threw. */
  datatype Handled = Handled(logs: Logs, thrown: bool)

  /**
   * The handler's work on a run of complete frames, one after another: a frame
   * that decodes to an envelope is marked not decoded and sent; a frame that
   * does not decode is skipped; the first `send` that throws ends the handler.
   */
  function Handle(fs: map<string, seq<Interceptor>>, templates: map<string, seq<string>>, c: Codec,
                  l: Logs, frames: seq<seq<byte>>): Handled
    requires Consumes(c)
    decreases |frames|
  {
    if frames == [] then Handled(l, false)
    else NextFrame(fs, templates, c, Handle(fs, templates, c, l, frames[..|frames| - 1]), frames[|frames| - 1])
  }

  /** One frame: skipped after a throw or when it does not decode, sent otherwise. */
  function NextFrame(fs: map<string, seq<Interceptor>>, templates: map<string, seq<string>>, c: Codec,
                h: Handled, frame: seq<byte>): Handled
    requires Consumes(c)
  {
    if h.thrown then h
    else match EnvelopeCodec.Decode(c, frame)
      case None => h
      case Some(m) =>
        var o := Dispatch(fs, templates, Prepared(c, m.(decoded := false)));
        Handled(After(h.logs, o), o.Thrown?)
  }

  /** Once a `send` has thrown, later frames change nothing. */
  lemma {:induction false} HandleStops(fs: map<string, seq<Interceptor>>, templates: map<string, seq<string>>, c: Codec,
                                       l: Logs, a: seq<seq<byte>>, b: seq<seq<byte>>)
    requires Consumes(c) && Handle(fs, templates, c, l, a).thrown
    ensures Handle(fs, templates, c, l, a + b) == Handle(fs, templates, c, l, a)
    decreases |b|
  {
    if b == [] {
      assert a + b == a;
    } else {
      var b' := b[..|b| - 1];
      assert (a + b)[..|a + b| - 1] == a + b';
      HandleStops(fs, templates, c, l, a, b');
    }
  }

  /** The handler's loop, one frame further. */
  lemma HandleNext(fs: map<string, seq<Interceptor>>, templates: map<string, seq<string>>, c: Codec,
                   l: Logs, frames: seq<seq<byte>>, i: nat)
    requires Consumes(c) && i < |frames|
    ensures Handle(fs, templates, c, l, frames[..i + 1]) == NextFrame(fs, templates, c, Handle(fs, templates, c, l, frames[..i]), frames[i])
  {
    assert frames[..i + 1][..i] == frames[..i];
  }

  /** The handler's loop ends after the last frame or at the first throw, and either way has handled them all. */
  lemma HandleUpTo(fs: map<string, seq<Interceptor>>, templates: map<string, seq<string>>, c: Codec,
                   l: Logs, frames: seq<seq<byte>>, i: nat)
    requires Consumes(c) && i <= |frames|
    requires i == |frames| || Handle(fs, templates, c, l, frames[..i]).thrown
    ensures Handle(fs, templates, c, l, frames) == Handle(fs, templates, c, l, frames[..i])
  {
    if i < |frames| {
      HandleStops(fs, templates, c, l, frames[..i], frames[i..]);
      assert frames[..i] + frames[i..] == frames;
    } else {
      assert frames[..i] == frames;
    }
  }

  /** Handling two runs of frames is handling the first, then the second from where it left the logs. */
  lemma {:induction false} HandleAppend(fs: map<string, seq<Interceptor>>, templates: map<string, seq<string>>, c: Codec,
                                        l: Logs, a: seq<seq<byte>>, b: seq<seq<byte>>)
    requires Consumes(c) && !Handle(fs, templates, c, l, a).thrown
    ensures Handle(fs, templates, c, l, a + b) == Handle(fs, templates, c, Handle(fs, templates, c, l, a).logs, b)
    decreases |b|
  {
    if b == [] {
      assert a + b == a;
    } else {
      var b' := b[..|b| - 1];
      assert (a + b)[..|a + b| - 1] == a + b';
      assert (a + b)[|a + b| - 1] == b[|b| - 1];
      HandleAppend(fs, templates, c, l, a, b');
    }
  }

  /** The handler only appends to the logs. */
  lemma {:induction false} HandleExtends(fs: map<string, seq<Interceptor>>, templates: map<string, seq<string>>, c: Codec,
                                         l: Logs, frames: seq<seq<byte>>)
    requires Consumes(c)
    ensures Extends(l, Handle(fs, templates, c, l, frames).logs)
    decreases |frames|
  {
    if frames != [] {
      var h := Handle(fs, templates, c, l, frames[..|frames| - 1]);
      assert Extends(l, h.logs) by {
        HandleExtends(fs, templates, c, l, frames[..|frames| - 1]);
      }
      NextFrameExtends(fs, templates, c, h, frames[|frames| - 1]);
    }
  }

  /** One frame only appends to the logs. */
  lemma NextFrameExtends(fs: map<string, seq<Interceptor>>, templates: map<string, seq<string>>, c: Codec,
                         h: Handled, frame: seq<byte>)
    requires Consumes(c)
    ensures Extends(h.logs, NextFrame(fs, templates, c, h, frame).logs)
  {
    if !h.thrown {
      match EnvelopeCodec.Decode(c, frame)
      case None =>
      case Some(m) =>
        AfterExtends(h.logs, Dispatch(fs, templates, Prepared(c, m.(decoded := false))));
    }
  }

  /** Successive reads, each handled as it arrives, starting with `pending` bytes held over. */
  function Session(fs: map<string, seq<Interceptor>>, templates: map<string, seq<string>>, c: Codec,
                   l: Logs, pending: seq<byte>, pieces: seq<seq<byte>>): Handled
    requires Consumes(c)
    decreases |pieces|
  {
    if pieces == [] then Handled(l, false)
    else
      var p := Frames(pending + pieces[0]);
      var h := Handle(fs, templates, c, l, p.frames);
      if h.thrown then h else Session(fs, templates, c, h.logs, p.rest, pieces[1..])
  }

  /** A session delivers exactly what handling all the frames it reassembles at once would. */
  lemma {:induction false} SessionIsFeed(fs: map<string, seq<Interceptor>>, templates: map<string, seq<string>>, c: Codec,
                                         l: Logs, pending: seq<byte>, pieces: seq<seq<byte>>)
    requires Consumes(c)
    ensures Session(fs, templates, c, l, pending, pieces) == Handle(fs, templates, c, l, Feed(pending, pieces).frames)
    decreases |pieces|
  {
    if pieces != [] {
      var p := Frames(pending + pieces[0]);
      var q := Feed(p.rest, pieces[1..]);
      var h := Handle(fs, templates, c, l, p.frames);
      if h.thrown {
        HandleStops(fs, templates, c, l, p.frames, q.frames);
      } else {
        SessionIsFeed(fs, templates, c, h.logs, p.rest, pieces[1..]);
        HandleAppend(fs, templates, c, l, p.frames, q.frames);
      }
    }
  }

  /**
   * However the sender's stream is cut into reads, the database receives the
   * same envelopes, in the order they were written.
   */
  lemma ReadBoundaries(fs: map<string, seq<Interceptor>>, templates: map<string, seq<string>>, c: Codec,
                       l: Logs, written: seq<seq<byte>>, pieces: seq<seq<byte>>)
    requires Consumes(c) && Fits(written) && Flatten(pieces) == Stream(written)
    ensures Session(fs, templates, c, l, [], pieces) == Handle(fs, templates, c, l, written)
  {
    SessionIsFeed(fs, templates, c, l, [], pieces);
    DeliversEveryFrame(written, pieces);
  }

  /** The callback `shutdown` is given when it is a function. */
  datatype Callback = Callback(id: nat)

  class Me {
    const addr: Address
    const codec: Codec
    const db: Database
    /** The frame state the data handler keeps from one read to the next. */
    const reassembler: StreamReassembler
    /** The callbacks `shutdown` has invoked, in order. */
    var finished: seq<Callback>

    ghost predicate Valid()
      reads this, db, reassembler
    {
      db.Valid() && reassembler.Valid() && Consumes(codec)
    }

    constructor (addr: Address, codec: Codec, db: Database)
      requires db.Valid() && Consumes(codec)
      ensures Valid()
      ensures this.addr == addr && this.codec == codec && this.db == db
      ensures fresh(reassembler) && reassembler.chunk == [] && finished == []
    {
      this.addr := addr;
      this.codec := codec;
      this.db := db;
      reassembler := new StreamReassembler();
      finished := [];
    }

    /** The database's logs as a value. */
    function LogsNow(): Logs
      reads db
    {
      Logs(db.emitted, db.pending)
    }

    /**
     * `send`: decodes the payload when the envelope is not yet decoded, then
     * forwards it to the database once; reports whether that threw.
     */
    method Send(envelope: Envelope) returns (thrown: bool)
      requires Valid()
      modifies db`emitted, db`pending
      ensures Valid()
      ensures var o := Dispatch(db.interceptors, db.templates, Prepared(codec, envelope));
        && (thrown <==> o.Thrown?)
        && LogsNow() == After(old(LogsNow()), o)
    {
      var e := envelope;
      if !e.decoded {
        e := e.(message := List(GenericCodec.Decode(codec, PayloadBytes(e.payload))), decoded := true);
      }
      thrown := db.Send(e);
    }

    /** `gossip` on the local member does nothing. */
    method Gossip(message: Value)
    {
    }

    /** `shutdown`: invokes the callback once when it is given one. */
    method Shutdown(cb: Option<Callback>)
      modifies this`finished
      ensures finished == old(finished) + (if cb.Some? then [cb.value] else [])
    {
      if cb.Some? {
        finished := finished + [cb.value];
      }
    }

    /** The loop body of the `'data'` handler: decode one frame and send the envelope it holds. */
    method OnFrame(frame: seq<byte>) returns (thrown: bool)
      requires Valid()
      modifies db`emitted, db`pending
      ensures Valid()
      ensures Handled(LogsNow(), thrown) == NextFrame(db.interceptors, db.templates, codec, Handled(old(LogsNow()), false), frame)
    {
      var m := EnvelopeCodec.DecodeEnvelope(codec, frame);
      thrown := false;
      if m.Some? {
        thrown := Send(m.value.(decoded := false));
      }
    }

    /**
     * The `'data'` handler: reassembles the read into complete frames, then
     * decodes and sends each one in order, stopping at the first `send` that
     * throws.
     */
    method OnData(data: seq<byte>) returns (thrown: bool)
      requires Valid()
      modifies reassembler, db`emitted, db`pending
      ensures Valid()
      ensures var p := Frames(old(reassembler.chunk) + data);
        && reassembler.chunk == p.rest
        && Handled(LogsNow(), thrown) == Handle(db.interceptors, db.templates, codec, old(LogsNow()), p.frames)
    {
      var frames := reassembler.OnData(data);
      ghost var start := LogsNow();
      thrown := false;
      var i := 0;
      while i < |frames| && !thrown
        invariant 0 <= i <= |frames|
        invariant Valid()
        invariant Handle(db.interceptors, db.templates, codec, start, frames[..i]) == Handled(LogsNow(), thrown)
        modifies db`emitted, db`pending
      {
        HandleNext(db.interceptors, db.templates, codec, start, frames, i);
        thrown := OnFrame(frames[i]);
        i := i + 1;
      }
      HandleUpTo(db.interceptors, db.templates, codec, start, frames, i);
    }
  }
}
