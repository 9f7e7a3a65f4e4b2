/** What the server does with messages of any sender, in numbers: whichever client built them,
    valid Gets and Sets are served and answered, and everything else is passed over. */
module ForeignFrames {
  import opened Bytes
  import opened Options
  import opened DataBuffers
  import opened Wire
  import opened Sockets
  import opened Service
  import opened Server
  import opened EndToEnd
  import opened WireNumbers
  import C = CacheProtocol

  /** The header of any sender gives a whole message with its body. */
  lemma IsWholeFrame(h: Header, body: seq<byte>)
    requires |body| == h.totalBodyLen && h.keyLen + h.extrasLen as int <= h.totalBodyLen
    requires 24 + |body| <= 0xFFFF_FFF7
    ensures IsWhole(HeaderBytes(h) + body)
    ensures 24 + |body| <= 0xFFFF_F7F7 ==> IsFrame(HeaderBytes(h) + body)
  {
    FrameIsCut(h, body, []);
    assert HeaderBytes(h) + body + [] == HeaderBytes(h) + body;
  }

  /** A Get of any sender, with any opaque, data type, status or CAS, is answered from the cache. */
  lemma GetIsServed(cache: Cache, h: Header, key: C.Key)
    requires Bounded(cache) && h.magic == 0x80 && h.opcode == 0x00 && h.extrasLen == 0
    requires 0 < |key| == h.keyLen == h.totalBodyLen
    ensures IsWhole(HeaderBytes(h) + key) && Fitting(GetReply(cache, key))
    ensures ServeFrame(cache, HeaderBytes(h) + key) == (cache, BuiltBytes(GetResponse, GetReply(cache, key)))
  {
    var frame := HeaderBytes(h) + key;
    IsWholeFrame(h, key);
    FrameByNumbers(h, key);
    DispatchByNumbers(HeaderAt(frame));
    GetFrameAcceptedIff(BLANK, h, key);
    ServeDelivered(cache, frame, ParseBytes(GetRequest, BLANK, frame).1);
    ReplyFits(cache, Some(GetRequest), ParseBytes(GetRequest, BLANK, frame).1);
  }

  /** A Set of any sender stores its entry and is answered. */
  lemma SetIsServed(cache: Cache, h: Header, flags: u32, expires: u32, key: C.Key, value: C.Value)
    requires Bounded(cache) && h.magic == 0x80 && h.opcode == 0x01 && h.extrasLen == 8
    requires 0 < |key| == h.keyLen && value != [] && h.totalBodyLen == 8 + |key| + |value|
    requires 32 + |key| + |value| <= 0xFFFF_F7F7
    ensures var frame := HeaderBytes(h) + (BigEndian(flags) + BigEndian(expires) + key + value);
            && IsWhole(frame)
            && ServeFrame(cache, frame)
               == (cache[key := C.Entry(flags, Some(value))], BuiltBytes(SetResponse, StatusReply(0)))
  {
    hide HeaderBytes;
    var body := BigEndian(flags) + BigEndian(expires) + key + value;
    var frame := HeaderBytes(h) + body;
    BodyParts(flags, expires, key, value);
    IsWholeFrame(h, body);
    FrameByNumbers(h, body);
    DispatchByNumbers(HeaderAt(frame));
    SetFrameAcceptedIff(BLANK, h, body);
    ServeDelivered(cache, frame, ParseBytes(SetRequest, BLANK, frame).1);
  }

  lemma BodyParts(flags: u32, expires: u32, key: C.Key, value: C.Value)
    ensures var body := BigEndian(flags) + BigEndian(expires) + key + value;
            && |body| == 8 + |key| + |value| && body[8..8 + |key|] == key && body[8 + |key|..] == value
            && FourBytes(body, 0) == flags && FourBytes(body, 4) == expires
  {
    var body := BigEndian(flags) + BigEndian(expires) + key + value;
    assert body[0..4] == BigEndian(flags) == BE4(flags);
    IntInMem(body, 0, flags);
    assert body[4..8] == BigEndian(expires) == BE4(expires);
    IntInMem(body, 4, expires);
  }

  /** A frame that is not a request, or whose opcode is neither Get nor Set, changes nothing and
      is not answered. */
  lemma OthersArePassedOver(cache: Cache, frame: seq<byte>)
    requires Bounded(cache) && IsWhole(frame)
    ensures frame[0] != 0x80 || frame[1] > 0x01 ==> ServeFrame(cache, frame) == (cache, [])
  {
    DispatchByNumbers(HeaderAt(frame));
  }

  /** Nor do requests that the parser turns down. */
  lemma InvalidRequestsArePassedOver(cache: Cache, h: Header, body: seq<byte>)
    requires Bounded(cache) && |body| == h.totalBodyLen && 24 + |body| <= 0xFFFF_FFF7
    requires h.keyLen + h.extrasLen as int <= h.totalBodyLen && h.magic == 0x80
    requires h.opcode == 0x00 ==> h.extrasLen != 0 || h.keyLen == 0 || h.totalBodyLen != h.keyLen
    requires h.opcode == 0x01 ==> h.extrasLen != 8 || h.keyLen == 0 || h.totalBodyLen == 8 + h.keyLen
    ensures IsWhole(HeaderBytes(h) + body) && ServeFrame(cache, HeaderBytes(h) + body) == (cache, [])
  {
    var frame := HeaderBytes(h) + body;
    IsWholeFrame(h, body);
    FrameByNumbers(h, body);
    DispatchByNumbers(HeaderAt(frame));
    GetFrameAcceptedIff(BLANK, h, body);
    SetFrameAcceptedIff(BLANK, h, body);
    ServeIgnored(cache, frame);
  }

  /** One ReadMessage on a stream that starts with a message of any magic and opcode leaves exactly
      what follows the message. */
  method ReadOneMessage(
    server: MemcacheServer, socket: MemcacheSocket, ghost h: Header, ghost body: seq<byte>, ghost rest: seq<byte>)
    requires server.Valid() && Bounded(server.cache) && socket.Valid() && socket.Repr !! server.Repr
    requires |body| == h.totalBodyLen && h.keyLen + h.extrasLen as int <= h.totalBodyLen
    requires 24 + |body| <= 0xFFFF_FFF7 && socket.incoming == HeaderBytes(h) + body + rest
    modifies server, socket.Repr
    ensures server.Valid() && socket.Valid() && socket.Repr !! server.Repr
    ensures socket.incoming == rest
    ensures IsWhole(HeaderBytes(h) + body) && server.cache == ServeFrame(old(server.cache), HeaderBytes(h) + body).0
    ensures socket.outgoing == old(socket.outgoing) + ServeFrame(old(server.cache), HeaderBytes(h) + body).1
  {
    hide ServeFrame, HeaderBytes, HeaderAt;
    FrameIsCut(h, body, rest);
    IsWholeFrame(h, body);
    server.ReadMessage(socket);
  }

  // ---------- Replies of any server ----------

  /** What a client makes of the answer of any server to a Get. */
  lemma GetReplyIsDelivered(h: Header, flags: u32, value: C.Value)
    requires h.magic == 0x81 && h.opcode == 0x00 && h.extrasLen == 4 && h.keyLen == 0
    requires h.totalBodyLen == 4 + |value| && 28 + |value| <= 0xFFFF_FFF7
    ensures var frame := HeaderBytes(h) + (BigEndian(flags) + value);
            && FrameReady(frame)
            && GetOutcome(Delivered(frame))
               == (if h.status == 0 then Some(C.Hit(flags, value))
                   else if h.status == 1 then Some(C.KeyNotFound)
                   else if h.status == 5 then Some(C.NotStored)
                   else None)
  {
    hide HeaderBytes, HeaderAt, ParseBytes, FourBytes;
    var body := BigEndian(flags) + value;
    var frame := HeaderBytes(h) + body;
    IsWholeFrame(h, body);
    FrameByNumbers(h, body);
    DispatchByNumbers(HeaderAt(frame));
    FlagsAndValue(frame, flags, value);
    GetResponseAccepts(BLANK, frame);
    assert frame[..FrameLen(frame)] == frame;
  }

  lemma FlagsAndValue(frame: seq<byte>, flags: u32, value: seq<byte>)
    requires |frame| >= 24 && frame[24..] == BigEndian(flags) + value
    ensures |frame| == 28 + |value| && FourBytes(frame, 24) == flags && frame[28..28 + |value|] == value
  {
    assert |frame[24..]| == 4 + |value|;
    assert frame[24..28] == frame[24..][..4] == BigEndian(flags) == BE4(flags);
    IntInMem(frame, 24, flags);
    assert frame[28..28 + |value|] == frame[24..][4..];
  }

  /** And to a Set: whatever else the answer holds, success is status 0. */
  lemma SetReplyIsDelivered(h: Header, body: seq<byte>)
    requires h.magic == 0x81 && h.opcode == 0x01 && |body| == h.totalBodyLen
    requires h.keyLen + h.extrasLen as int <= h.totalBodyLen && 24 + |body| <= 0xFFFF_FFF7
    ensures FrameReady(HeaderBytes(h) + body)
    ensures SetOutcome(Delivered(HeaderBytes(h) + body)) <==> h.status == 0
  {
    hide HeaderBytes, HeaderAt, ParseBytes;
    var frame := HeaderBytes(h) + body;
    IsWholeFrame(h, body);
    FrameByNumbers(h, body);
    DispatchByNumbers(HeaderAt(frame));
    SetResponseAccepts(BLANK, frame);
    assert frame[..FrameLen(frame)] == frame;
  }

  // ---------- Byte for byte ----------

  /** The status in a reply: 0, 1 or 0, 5 for a key without an entry, or an entry without a
      buffer; 0, 0 and the flags for a hit. */
  lemma RepliesByNumbers(cache: Cache, key: C.Key)
    requires Bounded(cache)
    ensures Fitting(GetReply(cache, key))
    ensures var bs := BuiltBytes(GetResponse, GetReply(cache, key));
            && |bs| >= 28 && bs[0] == 0x81 && bs[1] == 0x00 && bs[2] == 0 && bs[3] == 0 && bs[4] == 4 && bs[6] == 0
            && bs[7] == (if key !in cache then 1 else if cache[key].buffer.None? then 5 else 0)
            && (bs[7] == 0 ==> bs[24..28] == BigEndian(cache[key].flags) && bs[28..] == cache[key].buffer.value)
            && (bs[7] != 0 ==> bs[24..] == [0, 0, 0, 0])
  {
    ReplyFits(cache, Some(GetRequest), BLANK.(key := key));
    var f := GetReply(cache, key);
    BuiltByNumbers(GetResponse, f);
    BuiltBodyByNumbers(GetResponse, f);
    assert [] + f.value == f.value && f.value[..|f.value|] == f.value;
    var bs := BuiltBytes(GetResponse, f);
    if bs[7] != 0 {
      assert bs[24..] == bs[24..28] + bs[28..];
    }
  }

  /** The acknowledgement of a Set, in full. */
  lemma SetReplyByNumbers()
    ensures BuiltBytes(SetResponse, StatusReply(0))
            == [0x81, 0x01, 0, 0, 0, 0, 0, 0, 0, 0, 0, 0, 0, 0, 0, 0, 0, 0, 0, 0, 0, 0, 0, 0]
  {
    hide BuiltBytes, ServeFrame;
    BuiltByNumbers(SetResponse, StatusReply(0));
    var bs := BuiltBytes(SetResponse, StatusReply(0));
    assert BigEndian(0) == [0, 0, 0, 0];
    assert bs[..8] == [0x81, 0x01, 0, 0, 0, 0, 0, 0];
    assert bs == bs[..8] + bs[8..12] + bs[12..16] + bs[16..20] + bs[20..24];
  }

  /** A Set of key "a" with flags 5 and value "b", as the bytes on the wire: it is stored, in
      whatever cache, and acknowledged. */
  lemma SetFrameInFull(cache: Cache)
    requires Bounded(cache)
    ensures var frame := [0x80, 0x01, 0, 1, 8, 0, 0, 0, 0, 0, 0, 10, 0, 0, 0, 0, 0, 0, 0, 0, 0, 0, 0, 0,
                          0, 0, 0, 5, 0, 0, 0, 0, 0x61, 0x62];
            && IsWhole(frame)
            && ServeFrame(cache, frame)
               == (cache[[0x61] := C.Entry(5, Some([0x62]))],
                   [0x81, 0x01, 0, 0, 0, 0, 0, 0, 0, 0, 0, 0, 0, 0, 0, 0, 0, 0, 0, 0, 0, 0, 0, 0])
  {
    hide ServeFrame, IsWhole;
    var frame: seq<byte> := [0x80, 0x01, 0, 1, 8, 0, 0, 0, 0, 0, 0, 10, 0, 0, 0, 0, 0, 0, 0, 0, 0, 0, 0, 0,
                             0, 0, 0, 5, 0, 0, 0, 0, 0x61, 0x62];
    var h := Header(0x80, 0x01, 1, 8, 0, 0, 10, 0, 0);
    assert frame == HeaderBytes(h) + (BigEndian(5) + BigEndian(0) + [0x61] + [0x62]);
    SetIsServed(cache, h, 5, 0, [0x61], [0x62]);
    SetReplyByNumbers();
  }
}
