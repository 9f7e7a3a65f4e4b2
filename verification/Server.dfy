/** MemcacheServer: the handlers over a map of deep-copied buffers, and the loop that serves a
    connection. */
module Server {
  import opened Bytes
  import opened Options
  import opened DataBuffers
  import opened Wire
  import opened Messages
  import opened Sockets
  import opened Service
  import C = CacheProtocol

  /** The shared buffer pointer of an entry may be null. */
  datatype DataEntry = DataEntry(flags: u32, buffer: DataBuffer?)

  class MemcacheServer {
    var dataMap: map<C.Key, DataEntry>
    /** The cache as a value. */
    ghost var cache: Cache
    /** The server, its stored buffers and their arrays. */
    ghost var Repr: set<object>
    /** The key under which a buffer or array was stored: each has one owner. */
    ghost var home: map<object, C.Key>

    ghost predicate Owned(o: object, k: C.Key)
      reads this
    {
      o in Repr && o in home && home[o] == k
    }

    ghost predicate EntryValid(k: C.Key, e: DataEntry)
      reads Repr, this
    {
      e.buffer != null ==>
        && Owned(e.buffer, k) && e.buffer.Valid() && e.buffer.Usable()
        && (e.buffer.data != null ==> Owned(e.buffer.data, k))
    }

    ghost function Stored(k: C.Key, e: DataEntry): C.Entry
      requires EntryValid(k, e)
      reads this, Repr
    {
      C.Entry(e.flags, if e.buffer == null then None else Some(e.buffer.Written()))
    }

    ghost predicate Valid()
      reads this, Repr
    {
      && this in Repr
      && cache.Keys == dataMap.Keys
      && (forall k | k in dataMap :: EntryValid(k, dataMap[k]) && cache[k] == Stored(k, dataMap[k]))
    }

    /** Stored entries own their buffers and arrays: no two share one. */
    lemma EntriesAreDisjoint(k: C.Key, l: C.Key)
      requires Valid() && k in dataMap && l in dataMap && k != l
      requires dataMap[k].buffer != null && dataMap[l].buffer != null
      ensures dataMap[k].buffer.Repr() !! dataMap[l].buffer.Repr()
    {
      assert EntryValid(k, dataMap[k]) && EntryValid(l, dataMap[l]);
    }

    /** A message that shares nothing with the cache. */
    ghost predicate Apart(m: Message)
      reads this, m, m.buffer, m.value
    {
      && m !in Repr && m.buffer !in Repr && m.buffer.data !in Repr && m.value !in Repr
      && (m.value.data != null ==> m.value.data !in Repr)
    }

    constructor ()
      ensures Valid() && fresh(Repr) && cache == map[]
    {
      dataMap := map[];
      cache := map[];
      home := map[];
      Repr := {this};
    }

    /** The handler of a parsed message. A message whose header names a Get or Set request must be
        an object of that class: the casts of the source rely on it. The reply, if there is
        one, shares nothing with the cache or the message. */
    method OnReceivedMessage(message: Message) returns (reply: Message?)
      requires Valid() && message.Valid() && Apart(message)
      requires KindOf(message.header) == Some(GetRequest) ==> message.kind == GetRequest
      requires KindOf(message.header) == Some(SetRequest) ==> message.kind == SetRequest
      modifies this
      ensures Valid() && fresh(Repr - old(Repr))
      ensures reply != null ==> reply.Valid() && fresh(reply.Repr()) && fresh(reply.buffer.Repr()) && Apart(reply)
      ensures reply != null ==> reply.buffer.bufferSize == 2048
      ensures cache == Handle(old(cache), KindOf(message.header), message.State()).0
      ensures Handle(old(cache), KindOf(message.header), message.State()).1
              == if reply == null then None else Some((reply.kind, reply.State()))
    {
      reply := null;
      if message.header.magic == MAGIC_REQ {
        if message.header.opcode == OP_GET {
          reply := OnGet(message);
        } else if message.header.opcode == OP_SET {
          reply := OnSet(message);
        }
      }
    }

    method OnGet(message: Message) returns (reply: Message)
      requires Valid() && message.kind == GetRequest
      ensures fresh(reply.Repr()) && fresh(reply.buffer.Repr()) && reply.Valid()
      ensures reply.buffer.bufferSize == 2048 && reply.kind == GetResponse
      ensures reply.State() == GetReply(cache, message.key)
    {
      reply := new Message(GetResponse);
      if message.key in dataMap {
        var entry := dataMap[message.key];
        assert EntryValid(message.key, entry) && cache[message.key] == Stored(message.key, entry);
        CopyEntry(entry, reply);
      } else {
        reply.header := reply.header.(status := RES_KEY_NOT_FOUND);
      }
    }

    /** A found entry goes into a blank reply: a deep copy of its value, with its flags. */
    static method CopyEntry(entry: DataEntry, reply: Message)
      requires entry.buffer != null ==> entry.buffer.Valid() && entry.buffer.Usable()
      requires reply.Valid() && reply.value.bufferSize == 0 && reply.State() == BLANK && reply.value != entry.buffer
      modifies reply`flags, reply`header, reply.value
      ensures reply.Valid() && (reply.value.data == old(reply.value.data) || fresh(reply.value.data))
      ensures reply.State() == if entry.buffer == null then StatusReply(RES_NOT_STORED)
                               else BLANK.(flags := entry.flags, value := entry.buffer.Written())
    {
      if entry.buffer != null {
        reply.flags := entry.flags;
        reply.value.Assign(entry.buffer);
        reply.header := reply.header.(status := RES_NO_ERROR);
      } else {
        reply.header := reply.header.(status := RES_NOT_STORED);
      }
    }

    method OnSet(message: Message) returns (reply: Message)
      requires Valid() && message.Valid() && message.kind == SetRequest && Apart(message)
      modifies this
      ensures Valid() && fresh(Repr - old(Repr))
      ensures cache == old(cache)[message.key := C.Entry(message.flags, Some(message.State().value))]
      ensures fresh(reply.Repr()) && fresh(reply.buffer.Repr()) && reply.Valid() && Apart(reply)
      ensures reply.buffer.bufferSize == 2048 && reply.kind == SetResponse && reply.State() == StatusReply(RES_NO_ERROR)
    {
      var buffer := CopyOf(message.value);
      Store(message.key, DataEntry(message.flags, buffer));
      reply := NewSetResponse(RES_NO_ERROR);
    }

    static method NewSetResponse(status: u16) returns (reply: Message)
      ensures fresh(reply.Repr()) && fresh(reply.buffer.Repr()) && reply.Valid()
      ensures reply.buffer.bufferSize == 2048 && reply.kind == SetResponse && reply.State() == StatusReply(status)
    {
      reply := new Message(SetResponse);
      reply.header := reply.header.(status := status);
    }

    /** A new buffer, assigned from another. */
    static method CopyOf(value: DataBuffer) returns (buffer: DataBuffer)
      requires value.Valid() && value.Usable()
      ensures fresh(buffer.Repr()) && buffer.Valid() && buffer.Usable() && buffer.Written() == value.Written()
    {
      buffer := new DataBuffer();
      buffer.Assign(value);
    }

    /** A buffer nobody owns yet is taken into ownership under a key. */
    ghost method Claim(key: C.Key, buffer: DataBuffer)
      requires Valid() && buffer.Repr() !! Repr
      modifies this`Repr, this`home
      ensures Valid() && Repr == old(Repr) + buffer.Repr()
      ensures Owned(buffer, key) && (buffer.data != null ==> Owned(buffer.data, key))
    {
      var claimed := buffer.Repr();
      Repr := Repr + claimed;
      home := home + map o | o in claimed :: key;
    }

    /** `_dataMap[key] = entry` for a buffer nobody else owns. */
    method Store(key: C.Key, entry: DataEntry)
      requires Valid() && entry.buffer != null && entry.buffer.Valid() && entry.buffer.Usable()
              && entry.buffer.Repr() !! Repr
      modifies this
      ensures Valid() && Repr == old(Repr) + entry.buffer.Repr()
      ensures cache == old(cache)[key := C.Entry(entry.flags, Some(entry.buffer.Written()))]
    {
      Claim(key, entry.buffer);
      dataMap := dataMap[key := entry];
      cache := cache[key := C.Entry(entry.flags, Some(entry.buffer.Written()))];
    }

    method ClearDataCache()
      requires Valid()
      modifies this
      ensures Valid() && Repr == old(Repr) && cache == map[]
    {
      dataMap := map[];
      cache := map[];
    }

    // ---------- Serving a connection ----------

    /** The handler and its reply, for a message with fields f that the socket has just read. */
    method Answer(message: Message, ghost f: Fields) returns (bytes: seq<byte>)
      requires Valid() && Bounded(cache)
      requires message.Valid() && Apart(message) && f == message.State()
      requires KindOf(f.header).Some? ==> message.kind == KindOf(f.header).value
      modifies this
      ensures Valid() && fresh(Repr - old(Repr))
      ensures var answer := Handle(old(cache), KindOf(f.header), f);
              cache == answer.0 && (answer.1.Some? ==> Fitting(answer.1.value.1)) && bytes == ReplyBytes(answer.1)
    {
      ghost var answer := Handle(cache, KindOf(f.header), f).1;
      ReplyFits(cache, KindOf(f.header), f);
      var reply := OnReceivedMessage(message);
      bytes := BuildReply(reply, answer);
    }

    /** The bytes of the reply, if there is one. */
    method BuildReply(reply: Message?, ghost answer: Option<(Kind, Fields)>) returns (bytes: seq<byte>)
      requires Valid() && (reply != null ==> Apart(reply))
      requires reply != null ==> reply.Valid() && reply.buffer.bufferSize == 2048
      requires answer == if reply == null then None else Some((reply.kind, reply.State()))
      requires answer.Some? ==> Fitting(answer.value.1)
      modifies if reply == null then {} else {reply, reply.buffer, reply.buffer.data}
      ensures Valid() && bytes == ReplyBytes(answer)
    {
      hide BuiltBytes, SimpleLayout, BuiltMem, EntryValid;
      bytes := [];
      if reply != null {
        var ok := reply.Build();
        if ok {
          bytes := reply.buffer.data[..reply.buffer.writeOffset];
        }
      }
    }

    /** One message is read and handled. */
    method Serve(socket: MemcacheSocket) returns (bytes: seq<byte>)
      requires Valid() && Bounded(cache) && socket.Valid() && socket.Repr !! Repr
      requires FrameReady(socket.incoming)
      modifies this, socket.Repr
      ensures Valid() && fresh(Repr - old(Repr)) && socket.outgoing == old(socket.outgoing)
      ensures socket.Valid() && fresh(socket.Repr - old(socket.Repr)) && socket.Repr !! Repr
      ensures |old(socket.incoming)| < HEADER_SIZE ==> cache == old(cache) && socket.incoming == [] && bytes == []
      ensures |old(socket.incoming)| >= HEADER_SIZE ==>
                var frame := old(socket.incoming)[..FrameLen(old(socket.incoming))];
                && IsWhole(frame)
                && socket.incoming == old(socket.incoming)[FrameLen(old(socket.incoming))..]
                && (cache, bytes) == ServeFrame(old(cache), frame)
    {
      hide ServeFrame, HeaderAt, ParseBytes;
      ghost var stream := socket.incoming;
      var delivered := socket.Receive();
      bytes := [];
      if |stream| >= HEADER_SIZE {
        FrameIsReady(stream);
        ghost var frame := stream[..FrameLen(stream)];
        HeaderOfPrefix(stream, |frame|);
        if delivered && KindOf(HeaderAt(frame)).Some? {
          ServeDelivered(cache, frame, socket.currentMsg.State());
        } else {
          ServeIgnored(cache, frame);
        }
      }
      if delivered {
        bytes := Answer(socket.currentMsg, socket.currentMsg.State());
      }
    }

    /** MemcacheSocket::ReadMessage with this server as the handler: one message is read, handled
        and answered. */
    method ReadMessage(socket: MemcacheSocket)
      requires Valid() && Bounded(cache) && socket.Valid() && socket.Repr !! Repr
      requires FrameReady(socket.incoming)
      modifies this, socket.Repr
      ensures Valid() && fresh(Repr - old(Repr))
      ensures socket.Valid() && fresh(socket.Repr - old(socket.Repr)) && socket.Repr !! Repr
      ensures |old(socket.incoming)| < HEADER_SIZE ==>
                cache == old(cache) && socket.incoming == [] && socket.outgoing == old(socket.outgoing)
      ensures |old(socket.incoming)| >= HEADER_SIZE ==>
                var frame := old(socket.incoming)[..FrameLen(old(socket.incoming))];
                && IsWhole(frame)
                && socket.incoming == old(socket.incoming)[FrameLen(old(socket.incoming))..]
                && cache == ServeFrame(old(cache), frame).0
                && socket.outgoing == old(socket.outgoing) + ServeFrame(old(cache), frame).1
    {
      var bytes := Serve(socket);
      socket.outgoing := socket.outgoing + bytes;
    }

    /** One turn of the read loop, where `sent` has been sent on the way to the goal. */
    method ReadNext(socket: MemcacheSocket, ghost goal: (Cache, seq<byte>, seq<byte>), ghost sent: seq<byte>)
        returns (ghost sent': seq<byte>)
      requires Valid() && Bounded(cache) && socket.Valid() && socket.Repr !! Repr
      requires StreamReady(socket.incoming) && |socket.incoming| >= HEADER_SIZE
      requires RestOf(goal, sent, cache, socket.incoming)
      modifies this, socket.Repr
      ensures Valid() && Bounded(cache) && fresh(Repr - old(Repr))
      ensures socket.Valid() && fresh(socket.Repr - old(socket.Repr)) && socket.Repr !! Repr
      ensures |socket.incoming| < |old(socket.incoming)| && StreamReady(socket.incoming)
      ensures |sent| <= |sent'| && sent'[..|sent|] == sent
      ensures socket.outgoing == old(socket.outgoing) + sent'[|sent|..]
      ensures RestOf(goal, sent', cache, socket.incoming)
    {
      ghost var answer := OneServed(goal, sent, cache, socket.incoming);
      ReadMessage(socket);
      sent' := sent + answer;
    }

    /** The read loop of a connection thread: as long as a header can be peeked, a message is
        read. What is left in the end is less than a header. */
    method Run(socket: MemcacheSocket)
      requires Valid() && Bounded(cache) && socket.Valid() && socket.Repr !! Repr
      requires StreamReady(socket.incoming)
      modifies this, socket.Repr
      ensures Valid() && fresh(Repr - old(Repr))
      ensures socket.Valid() && fresh(socket.Repr - old(socket.Repr)) && socket.Repr !! Repr
      ensures socket.incoming == LeftOver(old(socket.incoming))
      ensures cache == ServeStream(old(cache), old(socket.incoming)).0
      ensures socket.outgoing == old(socket.outgoing) + ServeStream(old(cache), old(socket.incoming)).1
    {
      hide ServeFrame, HeaderAt;
      ghost var served := ServeStream(cache, socket.incoming);
      ghost var goal := (served.0, served.1, LeftOver(socket.incoming));
      ghost var sent := [];
      assert sent + served.1 == served.1;
      while |socket.incoming| >= HEADER_SIZE
        invariant Valid() && Bounded(cache) && fresh(Repr - old(Repr))
        invariant socket.Valid() && fresh(socket.Repr - old(socket.Repr)) && socket.Repr !! Repr
        invariant StreamReady(socket.incoming)
        invariant socket.outgoing == old(socket.outgoing) + sent
        invariant RestOf(goal, sent, cache, socket.incoming)
        decreases |socket.incoming|
      {
        sent := ReadNext(socket, goal, sent);
      }
    }
  }

  // ---------- Replies are snapshots ----------

  /** What may happen after a reply has been produced. */
  datatype Later = Frame(bytes: seq<byte>) | Clear

  /** A frame arrives, is read into the socket's buffer and handled, but the reply is kept. */
  method Produce(server: MemcacheServer, socket: MemcacheSocket, frame: seq<byte>) returns (reply: Message?)
    requires server.Valid() && Bounded(server.cache) && socket.Valid() && socket.Repr !! server.Repr
    requires socket.incoming == [] && IsFrame(frame)
    modifies server, socket.Repr
    ensures server.Valid() && fresh(server.Repr - old(server.Repr)) && socket.incoming == []
    ensures socket.Valid() && fresh(socket.Repr - old(socket.Repr)) && socket.Repr !! server.Repr
    ensures server.cache == ServeFrame(old(server.cache), frame).0 && Bounded(server.cache)
    ensures Holds(reply, ReplyTo(old(server.cache), frame))
    ensures reply != null ==> fresh(reply.Repr()) && fresh(reply.buffer.Repr()) && Separate(server, socket, reply)
  {
    hide HeaderAt, ServeFrame, ReplyTo, Handle;
    ServeFrameBounded(server.cache, frame);
    reply := null;
    var delivered := ReceiveAlone(server.cache, socket, frame);
    if delivered {
      reply := server.OnReceivedMessage(socket.currentMsg);
    }
  }

  /** The frame is read; if a message is delivered, it is for the handler to answer. */
  method ReceiveAlone(ghost cache: Cache, socket: MemcacheSocket, frame: seq<byte>) returns (delivered: bool)
    requires Bounded(cache) && socket.Valid() && socket.incoming == [] && IsFrame(frame)
    modifies socket.Repr
    ensures socket.Valid() && fresh(socket.Repr - old(socket.Repr)) && socket.incoming == []
    ensures !delivered ==> ReplyTo(cache, frame) == None && ServeFrame(cache, frame).0 == cache
    ensures delivered ==>
              && socket.currentMsg != null
              && var m := socket.currentMsg;
                 && (KindOf(m.header).Some? ==> m.kind == KindOf(m.header).value)
                 && Handle(cache, KindOf(m.header), m.State()) == (ServeFrame(cache, frame).0, ReplyTo(cache, frame))
  {
    hide HeaderAt, ParseBytes, ServeFrame, ReplyTo, Handle;
    socket.incoming := frame;
    FrameAlone(frame);
    delivered := socket.Receive();
    if delivered {
      DeliveredReply(cache, frame, socket.currentMsg.State());
    } else {
      NoReply(cache, frame);
    }
  }

  /** The reply, or its absence, is this answer. */
  ghost predicate Holds(reply: Message?, answer: Option<(Kind, Fields)>)
    reads reply, if reply == null then {} else {reply.value}, if reply == null then {} else {reply.value.data}
  {
    if reply == null then answer == None
    else reply.value.Valid() && answer == Some((reply.kind, reply.State()))
  }

  /** Stored entries, the read buffer with the request's value, and the reply share nothing. */
  ghost predicate Separate(server: MemcacheServer, socket: MemcacheSocket, reply: Message)
    reads server, socket, reply, reply.value, reply.buffer
  {
    && socket.Repr !! server.Repr
    && reply.Repr() + reply.buffer.Repr() !! server.Repr
    && reply.Repr() + reply.buffer.Repr() !! socket.Repr
  }

  /** A reply, once produced, is a snapshot: whatever Gets, Sets, other frames and Clears come
      after it, it stays what the cache gave at the time, and shares nothing with the cache
      or the socket. */
  method ReplyIsSnapshot(server: MemcacheServer, socket: MemcacheSocket, frame: seq<byte>, later: seq<Later>)
      returns (reply: Message?)
    requires server.Valid() && Bounded(server.cache) && socket.Valid() && socket.Repr !! server.Repr
    requires socket.incoming == [] && IsFrame(frame)
    requires forall l | l in later && l.Frame? :: IsFrame(l.bytes)
    modifies server, socket.Repr
    ensures server.Valid() && socket.Valid() && socket.Repr !! server.Repr
    ensures Holds(reply, ReplyTo(old(server.cache), frame))
    ensures reply != null ==> Separate(server, socket, reply)
  {
    hide HeaderAt, ReplyTo, ServeFrame, Bounded, Separate, Holds;
    hide MemcacheServer.Valid, MemcacheSocket.Valid;
    reply := Produce(server, socket, frame);
    var n := 0;
    while n < |later|
      invariant n <= |later|
      invariant server.Valid() && Bounded(server.cache) && fresh(server.Repr - old(server.Repr))
      invariant socket.Valid() && fresh(socket.Repr - old(socket.Repr)) && socket.Repr !! server.Repr
              && socket.incoming == []
      invariant reply != null ==> Separate(server, socket, reply)
      invariant Holds(reply, ReplyTo(old(server.cache), frame))
    {
      assert later[n] in later;
      HappensLater(server, socket, later[n], reply, ReplyTo(old(server.cache), frame));
      n := n + 1;
    }
  }

  method HappensLater(
    server: MemcacheServer, socket: MemcacheSocket, l: Later,
    ghost reply: Message?, ghost answer: Option<(Kind, Fields)>)
    requires server.Valid() && Bounded(server.cache) && socket.Valid() && socket.Repr !! server.Repr
    requires socket.incoming == [] && (l.Frame? ==> IsFrame(l.bytes))
    requires (reply != null ==> Separate(server, socket, reply)) && Holds(reply, answer)
    modifies server, socket.Repr
    ensures server.Valid() && Bounded(server.cache) && fresh(server.Repr - old(server.Repr)) && socket.incoming == []
    ensures socket.Valid() && fresh(socket.Repr - old(socket.Repr)) && socket.Repr !! server.Repr
    ensures (reply != null ==> Separate(server, socket, reply)) && Holds(reply, answer)
  {
    hide ServeFrame, HeaderAt;
    match l
    case Clear => server.ClearDataCache();
    case Frame(bytes) =>
      FrameAlone(bytes);
      ServeFrameBounded(server.cache, bytes);
      socket.incoming := bytes;
      server.ReadMessage(socket);
  }
}
