/**
 * The two-byte big-endian length prefix that frames every gossip message and
 * data envelope, and the reassembly of frames from the chunks a TCP data
 * connection delivers (the `'data'` handler of the local member).
 *
 * `FrameReassembler` follows the handler as written. `StreamReassembler` is the
 * corrected reassembler: it keeps every unconsumed byte and so delivers the
 * same frames however the stream is cut into reads.
 */
module Framing {
  import opened Js

  function Min(a: int, b: int): int { if a <= b then a else b }

  /** `(hi << 8) | lo`: the length read from the two prefix bytes. */
  function FrameLength(hi: byte, lo: byte): (n: nat)
    ensures n < 65536
  {
    hi as int * 256 + lo as int
  }

  /** `writeUInt16BE(n, 0)` into a fresh two-byte buffer. */
  function U16BE(n: nat): (r: seq<byte>)
    requires n < 65536
    ensures |r| == 2 && FrameLength(r[0], r[1]) == n
  {
    [(n / 256) as byte, (n % 256) as byte]
  }

  lemma U16BEOfLength(hi: byte, lo: byte)
    ensures U16BE(FrameLength(hi, lo)) == [hi, lo]
  {
  }

  /** A payload preceded by its length. */
  function Framed(payload: seq<byte>): (r: seq<byte>)
    requires |payload| < 65536
    ensures |r| == |payload| + 2 && r[2..] == payload
    ensures FrameLength(r[0], r[1]) == |payload|
  {
    U16BE(|payload|) + payload
  }

  predicate Fits(fs: seq<seq<byte>>) { forall i :: 0 <= i < |fs| ==> |fs[i]| < 65536 }

  /** The bytes a sender writes for a sequence of frames. */
  function Stream(fs: seq<seq<byte>>): seq<byte>
    requires Fits(fs)
  {
    if fs == [] then [] else Framed(fs[0]) + Stream(fs[1..])
  }

  // ---------------------------------------------------------------------------
  // The handler as written

  /** Frames delivered by one `'data'` event and the state carried to the next. */
  datatype Step = Step(frames: seq<seq<byte>>, waitingOn: nat, chunk: seq<byte>)

  /** `buff.get(i)` feeding `|`: a read past the end is `undefined`, which counts as 0. */
  function ByteAt(data: seq<byte>, i: nat): byte
  {
    if i < |data| then data[i] else 0
  }

  /** The `while (offset < buff.length)` loop from `offset` on. */
  function Scan(data: seq<byte>, offset: nat, waitingOn: nat, chunk: seq<byte>): Step
    decreases |data| - offset
  {
    if offset >= |data| then Step([], waitingOn, chunk)
    else
      var size := FrameLength(data[offset], ByteAt(data, offset + 1));
      var start := offset + 2;
      if size + start > |data| then
        Step([], size + start - |data|, data[Min(start, |data|)..])
      else
        var r := Scan(data, start + size, 0, chunk);
        Step([data[start..start + size]] + r.frames, r.waitingOn, r.chunk)
  }

  /**
   * One `'data'` event: with a pending frame, `chunk` plus the first `waitingOn`
   * bytes is delivered as one frame and scanning starts at `waitingOn`.
   */
  function Receive(waitingOn: nat, chunk: seq<byte>, data: seq<byte>): Step
  {
    if waitingOn > 0 then
      var r := Scan(data, waitingOn, waitingOn, chunk);
      Step([chunk + data[..Min(waitingOn, |data|)]] + r.frames, r.waitingOn, r.chunk)
    else
      Scan(data, 0, waitingOn, chunk)
  }

  /**
   * A length prefix at `at` announcing more bytes than remain: the scan stops
   * there, keeping the bytes after the prefix and the count still missing.
   */
  lemma ScanPartial(data: seq<byte>, at: nat, offset: nat, size: nat, waitingOn: nat, chunk: seq<byte>, frames: seq<seq<byte>>)
    requires at < |data| && offset == at + 2
    requires size == FrameLength(data[at], ByteAt(data, at + 1)) && size + offset > |data|
    ensures var s := Scan(data, at, waitingOn, chunk);
      Step(frames + s.frames, s.waitingOn, s.chunk) == Step(frames, size - (|data| - offset), data[Min(offset, |data|)..])
  {
    assert frames + [] == frames;
  }

  /** A complete frame after the prefix at `at` is delivered before whatever the scan finds after it. */
  lemma ScanFrame(data: seq<byte>, at: nat, offset: nat, size: nat, next: nat, frame: seq<byte>,
                  waitingOn: nat, chunk: seq<byte>, frames: seq<seq<byte>>)
    requires at < |data| && offset == at + 2
    requires size == FrameLength(data[at], ByteAt(data, at + 1)) && next == offset + size <= |data|
    requires frame == data[offset..next]
    ensures var s := Scan(data, at, waitingOn, chunk); var r := Scan(data, next, 0, chunk);
      Step(frames + s.frames, s.waitingOn, s.chunk) == Step((frames + [frame]) + r.frames, r.waitingOn, r.chunk)
  {
    var r := Scan(data, next, 0, chunk);
    assert Scan(data, at, waitingOn, chunk).frames == [frame] + r.frames;
    SeqAssoc(frames, [frame], r.frames);
  }

  /**
   * The `chunk` variable of the handler. It is assigned without a declaration,
   * so it is one process-wide cell that every connection's handler reads and
   * overwrites; only `waitingOn` belongs to a connection.
   */
  class PendingChunk {
    var bytes: seq<byte>

    constructor ()
      ensures bytes == []
    {
      bytes := [];
    }
  }

  /** The `'data'` handler of one accepted connection. */
  class FrameReassembler {
    var waitingOn: nat
    const chunk: PendingChunk

    /** A new connection declares its own `waitingOn` and shares `chunk`. */
    constructor (chunk: PendingChunk)
      ensures waitingOn == 0 && this.chunk == chunk
    {
      waitingOn := 0;
      this.chunk := chunk;
    }

    /** Handles one read; returns the frame payloads to decode, in order. */
    method OnData(data: seq<byte>) returns (frames: seq<seq<byte>>)
      modifies this, chunk
      ensures Step(frames, waitingOn, chunk.bytes) == Receive(old(waitingOn), old(chunk.bytes), data)
    {
      var offset: nat := 0;
      var combined: seq<seq<byte>> := [];
      if waitingOn > 0 {
        combined := [chunk.bytes + data[..Min(waitingOn, |data|)]];
        offset := waitingOn;
      }
      var scanned;
      scanned, waitingOn, chunk.bytes := ScanLoop(data, offset, waitingOn, chunk.bytes);
      frames := combined + scanned;
    }
  }

  /** The `while (offset < buff.length)` loop, from `offset` on with the given state. */
  method ScanLoop(data: seq<byte>, offset0: nat, waitingOn0: nat, chunk0: seq<byte>)
    returns (frames: seq<seq<byte>>, waitingOn: nat, chunk: seq<byte>)
    ensures Step(frames, waitingOn, chunk) == Scan(data, offset0, waitingOn0, chunk0)
  {
    ghost var goal := Scan(data, offset0, waitingOn0, chunk0);
    var offset := offset0;
    waitingOn, chunk := waitingOn0, chunk0;
    frames := [];
    assert [] + goal.frames == goal.frames;
    while offset < |data|
      invariant var r := Scan(data, offset, waitingOn, chunk);
        Step(frames + r.frames, r.waitingOn, r.chunk) == goal
      decreases |data| - offset
    {
      ghost var at := offset;
      var size := FrameLength(data[offset], ByteAt(data, offset + 1));
      offset := offset + 2;
      if size + offset > |data| {
        ScanPartial(data, at, offset, size, waitingOn, chunk, frames);
        chunk := data[Min(offset, |data|)..];
        waitingOn := size - (|data| - offset);
        break;
      } else {
        var next := offset + size;
        var frame := data[offset..next];
        ScanFrame(data, at, offset, size, next, frame, waitingOn, chunk, frames);
        frames := frames + [frame];
        offset := next;
        waitingOn := 0;
      }
    }
    assert frames + [] == frames;
  }

  lemma {:induction false} ScanShift(p: seq<byte>, d: seq<byte>, k: nat, w: nat, c: seq<byte>)
    ensures Scan(p + d, |p| + k, w, c) == Scan(d, k, w, c)
    decreases |d| - k
  {
    var s := p + d;
    if k < |d| {
      assert s[|p| + k] == d[k];
      assert ByteAt(s, |p| + k + 1) == ByteAt(d, k + 1);
      var size := FrameLength(d[k], ByteAt(d, k + 1));
      if size + k + 2 > |d| {
        assert s[Min(|p| + k + 2, |s|)..] == d[Min(k + 2, |d|)..];
      } else {
        SliceShift(p, d, k + 2, k + 2 + size);
        ScanShift(p, d, k + 2 + size, 0, c);
      }
    }
  }

  /** A slice of the second part of a concatenation. */
  lemma SliceShift(p: seq<byte>, d: seq<byte>, x: nat, y: nat)
    requires x <= y <= |d|
    ensures (p + d)[|p| + x..|p| + y] == d[x..y]
  {
  }

  /** A complete frame at the head of the data is delivered, then scanning goes on after it. */
  lemma ScanFirstFrame(f: seq<byte>, rest: seq<byte>, w: nat, c: seq<byte>)
    requires |f| < 65536
    ensures var r := Scan(rest, 0, 0, c);
      Scan(Framed(f) + rest, 0, w, c) == Step([f] + r.frames, r.waitingOn, r.chunk)
  {
    var s := Framed(f) + rest;
    assert s[0] == Framed(f)[0] && s[1] == Framed(f)[1];
    assert FrameLength(s[0], ByteAt(s, 1)) == |f|;
    assert s[2..2 + |f|] == f;
    ScanShift(Framed(f), rest, 0, 0, c);
  }

  lemma ConsFrames(f: seq<byte>, fs: seq<seq<byte>>, more: seq<seq<byte>>)
    requires fs != [] && fs[0] == f
    ensures [f] + (fs[1..] + more) == fs + more
  {
  }

  /** Complete frames at the head of the data are delivered in order, then scanning goes on. */
  lemma {:induction false} ScanStream(fs: seq<seq<byte>>, tail: seq<byte>, w: nat, c: seq<byte>)
    requires Fits(fs)
    ensures var r := Scan(tail, 0, if fs == [] then w else 0, c);
      Scan(Stream(fs) + tail, 0, w, c) == Step(fs + r.frames, r.waitingOn, r.chunk)
  {
    if fs == [] {
      assert Stream(fs) + tail == tail;
    } else {
      var f := fs[0];
      var rest := Stream(fs[1..]) + tail;
      assert Stream(fs) + tail == Framed(f) + rest;
      ScanFirstFrame(f, rest, w, c);
      ScanStream(fs[1..], tail, 0, c);
      ConsFrames(f, fs, Scan(tail, 0, 0, c).frames);
    }
  }

  /** Data made of complete frames delivers each payload in order and leaves nothing pending. */
  lemma CompleteFrames(fs: seq<seq<byte>>, c: seq<byte>)
    requires Fits(fs)
    ensures Receive(0, c, Stream(fs)) == Step(fs, 0, c)
  {
    ScanStream(fs, [], 0, c);
    assert Stream(fs) + [] == Stream(fs);
    assert fs + [] == fs;
  }

  /** A trailing incomplete frame is kept in `chunk`, with `waitingOn` the bytes it still lacks. */
  lemma TrailingPartial(fs: seq<seq<byte>>, n: nat, part: seq<byte>, c: seq<byte>)
    requires Fits(fs) && n < 65536 && |part| < n
    ensures Receive(0, c, Stream(fs) + U16BE(n) + part) == Step(fs, n - |part|, part)
  {
    var tail := U16BE(n) + part;
    assert Stream(fs) + U16BE(n) + part == Stream(fs) + tail;
    ScanStream(fs, tail, 0, c);
    assert tail[2..] == part;
    assert fs + [] == fs;
  }

  /**
   * The next read completes the pending frame with its first `waitingOn`
   * bytes; the complete frames after them are then delivered in order.
   */
  lemma Continuation(w: nat, c: seq<byte>, head: seq<byte>, fs: seq<seq<byte>>)
    requires w > 0 && |head| == w && Fits(fs) && fs != []
    ensures Receive(w, c, head + Stream(fs)) == Step([c + head] + fs, 0, c)
  {
    var stream := Stream(fs);
    var data := head + stream;
    assert data[..Min(w, |data|)] == head;
    ScanShift(head, stream, 0, w, c);
    var r := Scan(data, w, w, c);
    assert r == Scan(stream, 0, w, c);
    ScanStream(fs, [], w, c);
    assert stream + [] == stream;
    assert Scan([], 0, 0, c) == Step([], 0, c);
    assert fs + [] == fs;
    assert r == Step(fs, 0, c);
  }

  /**
   * `waitingOn` is not cleared by the combined frame: when a read holds no more
   * than the missing bytes, the state is left as it was, so the next read is
   * glued to the same `chunk` again.
   */
  lemma StaleContinuation(w: nat, c: seq<byte>, data: seq<byte>)
    requires w > 0 && |data| <= w
    ensures Receive(w, c, data) == Step([c + data], w, c)
  {
    assert data[..Min(w, |data|)] == data;
  }

  /**
   * The stream of frames [1, 2] and [3] read as [0, 2, 1], [2], [0, 1, 3]:
   * the handler delivers [1, 2] and then [1, 0] instead of [3].
   */
  lemma StaleContinuationExample()
    ensures Stream([[1, 2], [3]]) == [0, 2, 1, 2] + [0, 1, 3]
    ensures Receive(0, [], [0, 2, 1]) == Step([], 1, [1])
    ensures Receive(1, [1], [2]) == Step([[1, 2]], 1, [1])
    ensures Receive(1, [1], [0, 1, 3]).frames == [[1, 0]]
  {
    assert U16BE(2) == [0, 2];
    assert U16BE(1) == [0, 1];
    var one: seq<byte> := [1];
    var s: seq<byte> := [0, 2, 1];
    assert Scan(s, 0, 0, []) == Step([], 1, one) by {
      assert FrameLength(s[0], ByteAt(s, 1)) == 2;
      assert s[2..] == one;
    }
    var u: seq<byte> := [2];
    StaleContinuation(1, one, u);
    assert one + u == [1, 2];
    var t: seq<byte> := [0, 1, 3];
    assert Scan(t, 1, 1, one).frames == [] by {
      assert FrameLength(t[1], ByteAt(t, 2)) == 259;
    }
    assert t[..Min(1, |t|)] == [0];
    assert one + [0] == [1, 0];
  }

  /**
   * Two connections each split a frame across reads: `a` sends frame [1, 2] as
   * [0, 2, 1], [2] and `b` sends frame [9, 2] as [0, 2, 9] in between. Since both
   * handlers keep their pending bytes in the one shared `chunk`, `a`'s
   * continuation is joined to `b`'s bytes and `a` delivers [9, 2].
   */
  lemma SharedChunkExample()
    ensures Receive(0, [], [0, 2, 1]) == Step([], 1, [1])
    ensures Receive(0, [1], [0, 2, 9]) == Step([], 1, [9])
    ensures Receive(1, [9], [2]).frames == [[9, 2]]
  {
    var s: seq<byte> := [0, 2, 1];
    assert Scan(s, 0, 0, []) == Step([], 1, [1]) by {
      assert FrameLength(s[0], ByteAt(s, 1)) == 2;
      assert s[2..] == [1];
    }
    var t: seq<byte> := [0, 2, 9];
    assert Scan(t, 0, 0, [1]) == Step([], 1, [9]) by {
      assert FrameLength(t[0], ByteAt(t, 1)) == 2;
      assert t[2..] == [9];
    }
    var u: seq<byte> := [2];
    var nine: seq<byte> := [9];
    StaleContinuation(1, nine, u);
    assert nine + u == [9, 2];
  }

  /** The reads of `SharedChunkExample` through two handlers sharing one `chunk`. */
  method SharedChunkTrace() returns (delivered: seq<seq<byte>>)
    ensures delivered == [[9, 2]]
  {
    SharedChunkExample();
    var shared := new PendingChunk();
    var a := new FrameReassembler(shared);
    var b := new FrameReassembler(shared);
    var fa := a.OnData([0, 2, 1]);
    var fb := b.OnData([0, 2, 9]);
    delivered := a.OnData([2]);
  }

  // ---------------------------------------------------------------------------
  // The corrected reassembler

  datatype Parsed = Parsed(frames: seq<seq<byte>>, rest: seq<byte>)

  /** The complete frames at the head of `s` and the unconsumed bytes after them. */
  function Frames(s: seq<byte>): (p: Parsed)
    ensures |p.rest| <= |s|
    decreases |s|
  {
    if |s| < 2 || |s| < 2 + FrameLength(s[0], s[1]) then Parsed([], s)
    else
      var n := FrameLength(s[0], s[1]);
      var p := Frames(s[2 + n..]);
      Parsed([s[2..2 + n]] + p.frames, p.rest)
  }

  /** Bytes still missing from the pending frame, once its length is known. */
  function Missing(pending: seq<byte>): nat
  {
    if |pending| < 2 then 0
    else if FrameLength(pending[0], pending[1]) + 2 > |pending| then FrameLength(pending[0], pending[1]) + 2 - |pending|
    else 0
  }

  lemma {:induction false} FramesAppend(s: seq<byte>, t: seq<byte>)
    ensures Frames(s + t).frames == Frames(s).frames + Frames(Frames(s).rest + t).frames
    ensures Frames(s + t).rest == Frames(Frames(s).rest + t).rest
    decreases |s|
  {
    if |s| < 2 || |s| < 2 + FrameLength(s[0], s[1]) {
      assert Frames(s) == Parsed([], s);
      assert [] + Frames(s + t).frames == Frames(s + t).frames;
    } else {
      var n := FrameLength(s[0], s[1]);
      var u := s + t;
      assert u[0] == s[0] && u[1] == s[1];
      assert u[2..2 + n] == s[2..2 + n];
      assert u[2 + n..] == s[2 + n..] + t;
      var p := Frames(s[2 + n..]);
      var q := Frames(p.rest + t);
      FramesAppend(s[2 + n..], t);
      assert Frames(u) == Parsed([s[2..2 + n]] + Frames(s[2 + n..] + t).frames, Frames(s[2 + n..] + t).rest);
      assert Frames(s) == Parsed([s[2..2 + n]] + p.frames, p.rest);
      SeqAssoc([s[2..2 + n]], p.frames, q.frames);
    }
  }

  /** Parsing what a sender wrote gives back its frames and leaves nothing over. */
  lemma {:induction false} FramesOfStream(fs: seq<seq<byte>>)
    requires Fits(fs)
    ensures Frames(Stream(fs)) == Parsed(fs, [])
  {
    if fs != [] {
      var s := Stream(fs);
      var f := fs[0];
      assert s[0] == Framed(f)[0] && s[1] == Framed(f)[1];
      assert s[2..2 + |f|] == f;
      assert s[2 + |f|..] == Stream(fs[1..]);
      FramesOfStream(fs[1..]);
      assert fs == [f] + fs[1..];
    }
  }

  function Flatten(pieces: seq<seq<byte>>): seq<byte>
  {
    if pieces == [] then [] else pieces[0] + Flatten(pieces[1..])
  }

  /** The corrected reassembler fed one read after another, starting from `pending`. */
  function Feed(pending: seq<byte>, pieces: seq<seq<byte>>): Parsed
    decreases |pieces|
  {
    if pieces == [] then Parsed([], pending)
    else
      var p := Frames(pending + pieces[0]);
      var q := Feed(p.rest, pieces[1..]);
      Parsed(p.frames + q.frames, q.rest)
  }

  /** Bytes that hold no complete frame. */
  predicate Idle(pending: seq<byte>) { Frames(pending) == Parsed([], pending) }

  /** What is left over after parsing holds no complete frame. */
  lemma {:induction false} RestIsIdle(s: seq<byte>)
    ensures Idle(Frames(s).rest)
    decreases |s|
  {
    if !(|s| < 2 || |s| < 2 + FrameLength(s[0], s[1])) {
      RestIsIdle(s[2 + FrameLength(s[0], s[1])..]);
    }
  }

  /** However the stream is cut into reads, the same frames come out. */
  lemma {:induction false} FeedIsFrames(pending: seq<byte>, pieces: seq<seq<byte>>)
    requires Idle(pending)
    ensures Feed(pending, pieces) == Frames(pending + Flatten(pieces))
    decreases |pieces|
  {
    if pieces == [] {
      assert Flatten(pieces) == [];
      assert pending + Flatten(pieces) == pending;
    } else {
      var head := pending + pieces[0];
      var more := Flatten(pieces[1..]);
      assert pending + Flatten(pieces) == head + more;
      var p := Frames(head);
      RestIsIdle(head);
      FeedIsFrames(p.rest, pieces[1..]);
      FramesAppend(head, more);
    }
  }

  /** Every frame a sender wrote is delivered once, in order, whatever the read boundaries. */
  lemma DeliversEveryFrame(fs: seq<seq<byte>>, pieces: seq<seq<byte>>)
    requires Fits(fs) && Flatten(pieces) == Stream(fs)
    ensures Feed([], pieces) == Parsed(fs, [])
  {
    assert Idle([]);
    FeedIsFrames([], pieces);
    assert [] + Flatten(pieces) == Stream(fs);
    FramesOfStream(fs);
  }

  /** The parse of `buff[offset..]`, read in place from `offset` on. */
  ghost function FramesFrom(buff: seq<byte>, offset: nat): (p: Parsed)
    requires offset <= |buff|
    decreases |buff| - offset
  {
    if |buff| < offset + 2 || |buff| < offset + 2 + FrameLength(buff[offset], buff[offset + 1]) then Parsed([], buff[offset..])
    else
      var n := FrameLength(buff[offset], buff[offset + 1]);
      var p := FramesFrom(buff, offset + 2 + n);
      Parsed([buff[offset + 2..offset + 2 + n]] + p.frames, p.rest)
  }

  /** Reading in place from `offset` is parsing the suffix from `offset`. */
  lemma {:induction false} FramesFromSuffix(buff: seq<byte>, offset: nat)
    requires offset <= |buff|
    ensures FramesFrom(buff, offset) == Frames(buff[offset..])
    decreases |buff| - offset
  {
    var s := buff[offset..];
    if |s| >= 2 {
      assert s[0] == buff[offset] && s[1] == buff[offset + 1];
      var n := FrameLength(buff[offset], buff[offset + 1]);
      if |s| >= 2 + n {
        FramesFromSuffix(buff, offset + 2 + n);
        assert s[2..2 + n] == buff[offset + 2..offset + 2 + n];
        assert s[2 + n..] == buff[offset + 2 + n..];
      }
    }
  }

  /**
   * A complete frame at `offset`, ending at `next`, is the next frame read,
   * and the parse goes on from `next`.
   */
  lemma FramesFromStep(buff: seq<byte>, offset: nat, next: nat, frames: seq<seq<byte>>, frame: seq<byte>)
    requires offset + 2 <= |buff| && next == offset + 2 + FrameLength(buff[offset], buff[offset + 1]) <= |buff|
    requires frame == buff[offset + 2..next]
    ensures var p := FramesFrom(buff, offset); var q := FramesFrom(buff, next);
      Parsed(frames + p.frames, p.rest) == Parsed((frames + [frame]) + q.frames, q.rest)
  {
    var q := FramesFrom(buff, next).frames;
    assert FramesFrom(buff, offset).frames == [frame] + q;
    SeqAssoc(frames, [frame], q);
  }

  /** The scan over a buffer: every complete frame at its head, and the bytes after them. */
  method ScanFrames(buff: seq<byte>) returns (frames: seq<seq<byte>>, rest: seq<byte>)
    ensures Frames(buff) == Parsed(frames, rest)
  {
    var offset := 0;
    frames := [];
    FramesFromSuffix(buff, 0);
    assert buff[0..] == buff;
    while offset + 2 <= |buff| && offset + 2 + FrameLength(buff[offset], buff[offset + 1]) <= |buff|
      invariant offset <= |buff|
      invariant Frames(buff) == Parsed(frames + FramesFrom(buff, offset).frames, FramesFrom(buff, offset).rest)
      decreases |buff| - offset
    {
      var next := offset + 2 + FrameLength(buff[offset], buff[offset + 1]);
      var frame := buff[offset + 2..next];
      FramesFromStep(buff, offset, next, frames, frame);
      frames := frames + [frame];
      offset := next;
    }
    assert FramesFrom(buff, offset) == Parsed([], buff[offset..]);
    assert frames + [] == frames;
    rest := buff[offset..];
  }

  class StreamReassembler {
    /** Bytes still missing from the pending frame, once its length is known. */
    var waitingOn: nat
    /** Every byte received and not yet delivered, length prefix included. */
    var chunk: seq<byte>

    ghost predicate Valid()
      reads this
    {
      Frames(chunk) == Parsed([], chunk) && waitingOn == Missing(chunk)
    }

    constructor ()
      ensures Valid() && chunk == []
    {
      waitingOn := 0;
      chunk := [];
    }

    /** Handles one read; returns the frames it completes, in order. */
    method OnData(data: seq<byte>) returns (frames: seq<seq<byte>>)
      requires Valid()
      modifies this
      ensures Valid()
      ensures Parsed(frames, chunk) == Frames(old(chunk) + data)
    {
      var rest;
      frames, rest := ScanFrames(chunk + data);
      RestIsIdle(chunk + data);
      chunk := rest;
      waitingOn := Missing(chunk);
    }
  }
}
