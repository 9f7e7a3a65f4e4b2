/** What the server does with received bytes, as a function: the cache it leaves and the bytes
    it sends back. */
module Service {
  import opened Bytes
  import opened Options
  import opened DataBuffers
  import opened Wire
  import opened Sockets
  import C = CacheProtocol

  type Cache = map<C.Key, C.Entry>

  /** A value that still fits into the buffer of a reply. */
  const MAX_VALUE: u32 := MAX_BUFFER - 2048

  predicate Bounded(cache: Cache) {
    forall k | k in cache && cache[k].buffer.Some? :: |cache[k].buffer.value| <= MAX_VALUE
  }

  function StatusReply(status: u16): Fields {
    BLANK.(header := ZERO_HEADER.(status := status))
  }

  /** The answer to a Get. */
  function GetReply(cache: Cache, key: C.Key): Fields {
    if key !in cache then StatusReply(RES_KEY_NOT_FOUND)
    else if cache[key].buffer.None? then StatusReply(RES_NOT_STORED)
    else BLANK.(flags := cache[key].flags, value := cache[key].buffer.value)
  }

  /** A message handed to the server, by what its header names and its fields: the cache it
      leaves, and the reply. */
  function Handle(cache: Cache, kind: Option<Kind>, f: Fields): (Cache, Option<(Kind, Fields)>) {
    match kind
    case Some(GetRequest) => (cache, Some((GetResponse, GetReply(cache, f.key))))
    case Some(SetRequest) =>
      (cache[f.key := C.Entry(f.flags, Some(f.value))], Some((SetResponse, StatusReply(RES_NO_ERROR))))
    case _ => (cache, None)
  }

  /** A blank message but for status, flags and value, whose value fits into one buffer. */
  predicate Fitting(f: Fields) {
    f.key == [] && f.header.totalBodyLen == 0 && |f.value| <= MAX_VALUE
  }

  function ReplyBytes(reply: Option<(Kind, Fields)>): seq<byte>
    requires reply.Some? ==> Fitting(reply.value.1)
  {
    if reply.None? then [] else BuiltBytes(reply.value.0, reply.value.1)
  }

  lemma ReplyFits(cache: Cache, kind: Option<Kind>, f: Fields)
    requires Bounded(cache)
    ensures var reply := Handle(cache, kind, f).1;
            reply.Some? ==> Fitting(reply.value.1)
  {
  }

  /** Exactly one complete message. */
  predicate IsWhole(frame: seq<byte>) {
    |frame| >= HEADER_SIZE && FrameReady(frame) && FrameLen(frame) == |frame|
  }

  /** One whose value also fits into a reply. */
  predicate IsFrame(frame: seq<byte>) {
    IsWhole(frame) && |frame| <= MAX_VALUE
  }

  /** One received frame. Frames with an unsupported magic or opcode, and frames that do not
      parse, change nothing and are not answered. */
  function ServeFrame(cache: Cache, frame: seq<byte>): (Cache, seq<byte>)
    requires Bounded(cache) && IsWhole(frame)
  {
    var kind := KindOf(HeaderAt(frame));
    if kind.None? then (cache, []) else
    var (ok, f) := ParseBytes(kind.value, BLANK, frame);
    if !ok then (cache, []) else
    ReplyFits(cache, kind, f);
    (Handle(cache, kind, f).0, ReplyBytes(Handle(cache, kind, f).1))
  }

  lemma ServeDelivered(cache: Cache, frame: seq<byte>, f: Fields)
    requires Bounded(cache) && IsWhole(frame) && KindOf(HeaderAt(frame)).Some?
    requires ParseBytes(KindOf(HeaderAt(frame)).value, BLANK, frame) == (true, f)
    ensures var answer := Handle(cache, KindOf(HeaderAt(frame)), f);
            && (answer.1.Some? ==> Fitting(answer.1.value.1))
            && ServeFrame(cache, frame) == (answer.0, ReplyBytes(answer.1))
  {
    ReplyFits(cache, KindOf(HeaderAt(frame)), f);
  }

  lemma ServeIgnored(cache: Cache, frame: seq<byte>)
    requires Bounded(cache) && IsWhole(frame)
    requires KindOf(HeaderAt(frame)).Some? ==> !ParseBytes(KindOf(HeaderAt(frame)).value, BLANK, frame).0
    ensures ServeFrame(cache, frame) == (cache, [])
  {
  }

  /** The answer to a frame, before it is built. */
  function ReplyTo(cache: Cache, frame: seq<byte>): Option<(Kind, Fields)>
    requires IsWhole(frame)
  {
    var kind := KindOf(HeaderAt(frame));
    if kind.None? || !ParseBytes(kind.value, BLANK, frame).0 then None
    else Handle(cache, kind, ParseBytes(kind.value, BLANK, frame).1).1
  }

  lemma FrameAlone(frame: seq<byte>)
    requires IsFrame(frame)
    ensures |frame| >= HEADER_SIZE && FrameReady(frame) && frame[..FrameLen(frame)] == frame
            && frame[FrameLen(frame)..] == []
  {
  }

  /** What is delivered for a frame is answered by the handler as the frame demands. */
  lemma DeliveredReply(cache: Cache, frame: seq<byte>, f: Fields)
    requires Bounded(cache) && IsWhole(frame) && f.header == HeaderAt(frame)
    requires var kind := KindOf(HeaderAt(frame)); kind.Some? ==> ParseBytes(kind.value, BLANK, frame) == (true, f)
    ensures ReplyTo(cache, frame) == Handle(cache, KindOf(f.header), f).1
    ensures ServeFrame(cache, frame).0 == Handle(cache, KindOf(f.header), f).0
  {
  }

  lemma NoReply(cache: Cache, frame: seq<byte>)
    requires Bounded(cache) && IsWhole(frame)
    requires var kind := KindOf(HeaderAt(frame)); kind.Some? ==> !ParseBytes(kind.value, BLANK, frame).0
    ensures ReplyTo(cache, frame) == None && ServeFrame(cache, frame).0 == cache
  {
  }

  /** All frames of a stream are ready, and their values fit. */
  predicate StreamReady(s: seq<byte>)
    decreases |s|
  {
    FrameReady(s) && (|s| >= HEADER_SIZE ==> FrameLen(s) <= MAX_VALUE && StreamReady(s[FrameLen(s)..]))
  }

  lemma ServeFrameBounded(cache: Cache, frame: seq<byte>)
    requires Bounded(cache) && IsFrame(frame)
    ensures Bounded(ServeFrame(cache, frame).0)
  {
    hide HeaderAt, ReplyBytes, GetReply;
  }

  /** The frames of a stream, one after the other. */
  function ServeStream(cache: Cache, s: seq<byte>): (Cache, seq<byte>)
    requires Bounded(cache) && StreamReady(s)
    decreases |s|
  {
    if |s| < HEADER_SIZE then (cache, []) else
    FrameIsReady(s);
    var frame := s[..FrameLen(s)];
    ServeFrameBounded(cache, frame);
    var (cache1, out1) := ServeFrame(cache, frame);
    var (cache2, out2) := ServeStream(cache1, s[FrameLen(s)..]);
    (cache2, out1 + out2)
  }

  lemma FrameIsReady(s: seq<byte>)
    requires FrameReady(s) && |s| >= HEADER_SIZE
    ensures IsWhole(s[..FrameLen(s)])
  {
    HeaderOfPrefix(s, FrameLen(s));
  }

  /** What stays unread: less than a header. */
  function LeftOver(s: seq<byte>): seq<byte>
    requires StreamReady(s)
    decreases |s|
  {
    if |s| < HEADER_SIZE then s else LeftOver(s[FrameLen(s)..])
  }

  /** With `sent` already sent, the stream s yields what is left of the goal: the final cache,
      everything sent, and what stays unread. */
  predicate RestOf(goal: (Cache, seq<byte>, seq<byte>), sent: seq<byte>, cache: Cache, s: seq<byte>)
    requires Bounded(cache) && StreamReady(s)
  {
    goal == (ServeStream(cache, s).0, sent + ServeStream(cache, s).1, LeftOver(s))
  }

  /** Serving one frame of a stream. */
  lemma OneServed(goal: (Cache, seq<byte>, seq<byte>), sent: seq<byte>, cache: Cache, s: seq<byte>)
      returns (answer: seq<byte>)
    requires Bounded(cache) && StreamReady(s) && |s| >= HEADER_SIZE && RestOf(goal, sent, cache, s)
    ensures IsWhole(s[..FrameLen(s)]) && answer == ServeFrame(cache, s[..FrameLen(s)]).1
    ensures Bounded(ServeFrame(cache, s[..FrameLen(s)]).0) && StreamReady(s[FrameLen(s)..])
    ensures RestOf(goal, sent + answer, ServeFrame(cache, s[..FrameLen(s)]).0, s[FrameLen(s)..])
  {
    hide ServeFrame, HeaderAt;
    FrameIsReady(s);
    var frame := s[..FrameLen(s)];
    ServeFrameBounded(cache, frame);
    var served := ServeFrame(cache, frame);
    answer := served.1;
    var rest := ServeStream(served.0, s[FrameLen(s)..]);
    assert sent + (answer + rest.1) == (sent + answer) + rest.1;
  }

  // ---------- Framing ----------

  function Concat(frames: seq<seq<byte>>): seq<byte> {
    if frames == [] then [] else frames[0] + Concat(frames[1..])
  }

  function ServeFrames(cache: Cache, frames: seq<seq<byte>>): (Cache, seq<byte>)
    requires Bounded(cache) && forall f | f in frames :: IsFrame(f)
    decreases |frames|
  {
    if frames == [] then (cache, []) else
    assert IsFrame(frames[0]) by { assert frames[0] in frames; }
    ServeFrameBounded(cache, frames[0]);
    var (cache1, out1) := ServeFrame(cache, frames[0]);
    var (cache2, out2) := ServeFrames(cache1, frames[1..]);
    (cache2, out1 + out2)
  }

  lemma ShortStream(cache: Cache, s: seq<byte>)
    requires Bounded(cache) && |s| < HEADER_SIZE
    ensures StreamReady(s) && ServeStream(cache, s) == (cache, []) && LeftOver(s) == s
  {
  }

  /** A message in front of a stream is served first. */
  lemma FrameThenRest(cache: Cache, f: seq<byte>, rest: seq<byte>)
    requires Bounded(cache) && IsFrame(f) && StreamReady(rest)
    ensures Bounded(ServeFrame(cache, f).0) && StreamReady(f + rest) && LeftOver(f + rest) == LeftOver(rest)
    ensures var served := ServeStream(ServeFrame(cache, f).0, rest);
            ServeStream(cache, f + rest) == (served.0, ServeFrame(cache, f).1 + served.1)
  {
    hide ServeFrame, HeaderAt;
    var s := f + rest;
    assert s[..|f|] == f && s[|f|..] == rest;
    HeaderOfPrefix(s, |f|);
    ServeFrameBounded(cache, f);
  }

  /** A concatenation of well-formed messages is cut at the right places: what comes out is
      what the messages give one by one, and what stays unread is what follows the last one,
      less than a header. */
  lemma {:induction false} FramingWithTail(cache: Cache, frames: seq<seq<byte>>, tail: seq<byte>)
    requires Bounded(cache) && (forall f | f in frames :: IsFrame(f)) && |tail| < 24
    ensures StreamReady(Concat(frames) + tail)
    ensures ServeStream(cache, Concat(frames) + tail) == ServeFrames(cache, frames)
    ensures LeftOver(Concat(frames) + tail) == tail
    decreases |frames|
  {
    hide ServeFrame, FrameReady, IsWhole;
    if frames == [] {
      assert Concat(frames) + tail == tail;
      ShortStream(cache, tail);
    } else {
      var f := frames[0];
      assert f in frames;
      ServeFrameBounded(cache, f);
      FramingWithTail(ServeFrame(cache, f).0, frames[1..], tail);
      FrameThenRest(cache, f, Concat(frames[1..]) + tail);
      assert Concat(frames) + tail == f + (Concat(frames[1..]) + tail);
    }
  }

  /** In particular, at the end of a message nothing stays unread. */
  lemma FramingIsExact(cache: Cache, frames: seq<seq<byte>>)
    requires Bounded(cache) && forall f | f in frames :: IsFrame(f)
    ensures StreamReady(Concat(frames)) && ServeStream(cache, Concat(frames)) == ServeFrames(cache, frames)
    ensures LeftOver(Concat(frames)) == []
  {
    FramingWithTail(cache, frames, []);
    assert Concat(frames) + [] == Concat(frames);
  }
}
