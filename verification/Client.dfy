/** MemcacheClient: synchronous Set and Get over a connection to a server. The network is the
    pair of sockets: what the client sends arrives at the server's socket, is served, and
    what the server sends back arrives at the client's. */
module Client {
  import opened Bytes
  import opened Options
  import opened DataBuffers
  import opened Wire
  import opened Messages
  import opened Sockets
  import opened Service
  import opened Server
  import opened EndToEnd
  import C = CacheProtocol

  class MemcacheClient {
    var socket: MemcacheSocket?
    var readMsg: Message?
    ghost var Repr: set<object>

    ghost predicate Valid()
      reads this, Repr
    {
      && this in Repr
      && (socket != null ==> socket in Repr && socket.Repr <= Repr && this !in socket.Repr && socket.Valid())
      && (readMsg != null ==>
            && {readMsg, readMsg.value} <= Repr && (readMsg.value.data != null ==> readMsg.value.data in Repr)
            && (socket != null ==> readMsg.Repr() !! socket.Repr)
            && readMsg.value.Valid() && readMsg.value.Usable())
    }

    /** The message last received and not yet taken. */
    ghost function Pending(): Option<(Kind, Fields)>
      requires Valid()
      reads this, Repr
    {
      if readMsg == null then None else Some((readMsg.kind, readMsg.State()))
    }

    constructor ()
      ensures Valid() && fresh(Repr) && socket == null && readMsg == null
    {
      socket, readMsg := null, null;
      Repr := {this};
    }

    method Connect()
      requires Valid()
      modifies this
      ensures Valid() && fresh(Repr - old(Repr))
      ensures socket != null && fresh(socket.Repr) && socket.incoming == [] && readMsg == null
    {
      Disconnect();
      socket := new MemcacheSocket();
      Repr := Repr + socket.Repr;
    }

    method Disconnect()
      requires Valid()
      modifies this`socket, this`readMsg
      ensures Valid() && socket == null && readMsg == null
    {
      socket, readMsg := null, null;
    }

    /** Client, server and the server's end of the connection have nothing in common, and
        nothing is under way. */
    ghost predicate Idle(server: MemcacheServer, peer: MemcacheSocket)
      reads this, Repr, server, server.Repr, peer, peer.Repr
    {
      && Valid() && server.Valid() && peer.Valid()
      && Repr !! server.Repr && Repr !! peer.Repr && peer.Repr !! server.Repr
      && peer.incoming == [] && peer.outgoing == []
      && (socket != null ==> socket.incoming == []) && readMsg == null
      && Stocked(server.cache)
    }

    /** A response is kept as an object of its own class. A message whose header names a
        response must be an object of that class: the casts of the source rely on it. */
    method OnReceivedMessage(message: Message)
      requires Valid() && socket != null && {message, message.value} <= socket.Repr
      requires message.value.Valid() && message.value.Usable()
      requires KindOf(message.header) == Some(GetResponse) ==> message.kind == GetResponse
      requires KindOf(message.header) == Some(SetResponse) ==> message.kind == SetResponse
      modifies this`readMsg, this`Repr
      ensures Valid() && fresh(Repr - old(Repr))
      ensures var kind := KindOf(message.header);
              if kind == Some(GetResponse) || kind == Some(SetResponse)
              then Pending() == Some((kind.value, message.State()))
              else readMsg == old(readMsg)
    {
      if message.header.magic == MAGIC_RES {
        if message.header.opcode == OP_GET {
          readMsg := CopyOf(message);
          Repr := Repr + readMsg.Repr();
        } else if message.header.opcode == OP_SET {
          readMsg := CopyOf(message);
          Repr := Repr + readMsg.Repr();
        }
      }
    }

    /** A new message, assigned from another of its class. */
    static method CopyOf(message: Message) returns (copy: Message)
      requires message.value.Valid() && message.value.Usable()
      ensures fresh(copy.Repr()) && copy.value.Valid() && copy.value.Usable()
      ensures copy.kind == message.kind && copy.State() == message.State()
    {
      copy := new Message(message.kind);
      copy.Assign(message);
    }

    /** The socket's ReadMessage with this client as the handler; the client never replies. */
    method ReadMessage()
      requires Valid() && socket != null && FrameReady(socket.incoming) && readMsg == null
      modifies Repr
      ensures Valid() && fresh(Repr - old(Repr)) && socket == old(socket)
      ensures |old(socket.incoming)| < HEADER_SIZE ==> socket.incoming == []
      ensures |old(socket.incoming)| >= HEADER_SIZE
              ==> socket.incoming == old(socket.incoming)[FrameLen(old(socket.incoming))..]
      ensures Pending() == Delivered(old(socket.incoming))
    {
      ghost var stream := socket.incoming;
      var delivered := socket.Receive();
      Repr := Repr + socket.Repr;
      if |stream| >= HEADER_SIZE {
        HeaderOfPrefix(stream, FrameLen(stream));
      }
      if delivered {
        OnReceivedMessage(socket.currentMsg);
      }
    }

    /** Sending a request: the server serves it, and what it sends back arrives here. */
    method Send(bytes: seq<byte>, server: MemcacheServer, peer: MemcacheSocket)
      requires Idle(server, peer) && socket != null && StreamReady(bytes)
      modifies socket`incoming, server, peer.Repr
      ensures Valid() && server.Valid() && peer.Valid() && readMsg == null
      ensures fresh(server.Repr - old(server.Repr)) && fresh(peer.Repr - old(peer.Repr)) && peer.Repr !! server.Repr
      ensures peer.incoming == LeftOver(bytes) && peer.outgoing == []
      ensures (server.cache, socket.incoming) == ServeStream(old(server.cache), bytes)
    {
      hide ServeStream, StreamReady;
      ghost var out := ServeStream(server.cache, bytes).1;
      assert [] + out == out;
      peer.incoming := bytes;
      server.Run(peer);
      socket.incoming := peer.outgoing;
      peer.outgoing := [];
    }

    /** Sending a request and receiving its reply. */
    method Request(kind: Kind, ghost f: Fields, bytes: seq<byte>, server: MemcacheServer, peer: MemcacheSocket)
      requires Idle(server, peer) && socket != null && RequestFits(kind, f) && bytes == BuiltBytes(kind, f)
      modifies Repr, server, peer.Repr
      ensures Valid() && server.Valid() && peer.Valid() && socket == old(socket)
      ensures fresh(Repr - old(Repr)) && fresh(server.Repr - old(server.Repr)) && fresh(peer.Repr - old(peer.Repr))
      ensures Repr !! server.Repr && Repr !! peer.Repr && peer.Repr !! server.Repr
      ensures peer.incoming == [] && peer.outgoing == [] && socket.incoming == []
      ensures StreamReady(bytes) && server.cache == ServeStream(old(server.cache), bytes).0
      ensures var out := ServeStream(old(server.cache), bytes).1;
              FrameReady(out) && Pending() == Delivered(out)
    {
      hide ServeFrame, HeaderAt, BuiltBytes, Delivered, Received;
      RequestServed(server.cache, kind, f);
      Send(bytes, server, peer);
      ReadMessage();
    }

    static method BuildSetRequest(key: C.Key, flags: u32, value: DataBuffer)
        returns (ok: bool, bytes: seq<byte>, ghost expires: u32)
      requires value.Valid() && value.Usable() && Sendable(SetCall(key, flags, value.Written(), 0))
      ensures var f := BLANK.(key := key, flags := flags, expires := expires, value := value.Written());
              ok && bytes == BuiltBytes(SetRequest, f)
    {
      hide BuiltBytes;
      var theReq := new Message(SetRequest);
      expires := theReq.expires;
      theReq.key := key;
      theReq.flags := flags;
      theReq.value.Assign(value);
      ok := theReq.Build();
      bytes := theReq.buffer.data[..theReq.buffer.writeOffset];
    }

    static method BuildGetRequest(key: C.Key) returns (ok: bool, bytes: seq<byte>)
      requires Sendable(GetCall(key))
      ensures ok && bytes == BuiltBytes(GetRequest, BLANK.(key := key))
    {
      hide BuiltBytes;
      var theReq := new Message(GetRequest);
      theReq.key := key;
      ok := theReq.Build();
      bytes := theReq.buffer.data[..theReq.buffer.writeOffset];
    }

    /** Set, over a connection if there is one. Result and cache are those of the call as bytes, and those in
        turn are known exactly. */
    method Set(key: C.Key, flags: u32, value: DataBuffer, server: MemcacheServer, peer: MemcacheSocket)
        returns (ok: bool)
      requires Idle(server, peer) && value.Valid() && value.Usable()
      requires |key| + |value.Written()| <= 0xFFFF_F7D7
      modifies Repr, server, peer.Repr
      ensures Idle(server, peer) && fresh(Repr - old(Repr)) && fresh(server.Repr - old(server.Repr))
              && fresh(peer.Repr - old(peer.Repr))
      ensures socket == old(socket)
      ensures ok <==> socket != null && |key| % 0x1_0000 != 0 && old(value.Written()) != []
      ensures var val := old(value.Written());
              var entry := C.Entry(flags, Some(WireValue(key, val)));
              server.cache == if ok then old(server.cache)[WireKey(key, val) := entry] else old(server.cache)
      ensures socket != null ==>
                (server.cache, SetDone(ok)) == Perform(old(server.cache), SetCall(key, flags, old(value.Written()), 0))
    {
      hide Perform, BuiltBytes, ServeStream, StreamReady, Delivered, WireKey, WireValue;
      hide LeftOver, Stocked, Bounded, SetOutcome;
      hide MemcacheServer.Valid, MemcacheSocket.Valid;
      StockedIsBounded(server.cache);
      ok := false;
      ghost var cache, val := server.cache, value.Written();
      SetExact(cache, key, flags, val, 0);
      if socket != null {
        var built, bytes, expires := BuildSetRequest(key, flags, value);
        if built {
          SetPerformed(cache, key, flags, val, expires);
          ghost var f := BLANK.(key := key, flags := flags, expires := expires, value := val);
          Request(SetRequest, f, bytes, server, peer);
          ok := TakeSetResponse();
        }
      }
    }

    /** Get, over a connection if there is one. A key is found exactly when what the wire leaves of it is in the
        cache; then flags and value are those stored, and otherwise the caller's are left alone. */
    method Get(key: C.Key, outValue: DataBuffer, inFlags: u32, server: MemcacheServer, peer: MemcacheSocket)
        returns (ok: bool, outFlags: u32)
      requires Idle(server, peer) && outValue.Valid()
      requires outValue.Repr() !! Repr && outValue.Repr() !! server.Repr && outValue.Repr() !! peer.Repr
      requires |key| <= 0xFFFF_F7D7
      modifies Repr, server, peer.Repr, outValue
      ensures Idle(server, peer) && fresh(Repr - old(Repr)) && fresh(server.Repr - old(server.Repr))
              && fresh(peer.Repr - old(peer.Repr))
      ensures socket == old(socket) && server.cache == old(server.cache)
      ensures ok <==> socket != null && WireKey(key, []) in server.cache
      ensures ok ==>
                && outFlags == server.cache[WireKey(key, [])].flags
                && outValue.Valid() && outValue.Written() == server.cache[WireKey(key, [])].buffer.value
      ensures !ok ==>
                && outFlags == inFlags && outValue.Valid() && outValue.View() == old(outValue.View())
      ensures socket != null ==>
                Perform(old(server.cache), GetCall(key)).1
                == GetDone(if ok then Some(C.Hit(outFlags, outValue.Written()))
                           else if WireKey(key, []) == [] then None else Some(C.KeyNotFound))
    {
      hide Perform, BuiltBytes, ServeStream, StreamReady, Delivered, WireKey, WireValue, LeftOver, Stocked, Bounded;
      hide MemcacheServer.Valid, MemcacheSocket.Valid;
      StockedIsBounded(server.cache);
      ok, outFlags := false, inFlags;
      ghost var cache := server.cache;
      if socket != null {
        var built, bytes := BuildGetRequest(key);
        if built {
          GetPerformed(cache, key);
          Request(GetRequest, BLANK.(key := key), bytes, server, peer);
          ok, outFlags := TakeGetResponse(outValue, inFlags);
        }
      }
    }

    /** Flags and value of a Get, from the message received. */
    method TakeGetResponse(outValue: DataBuffer, inFlags: u32) returns (ok: bool, outFlags: u32)
      requires Valid() && outValue.Valid() && outValue.Repr() !! Repr
      modifies this`readMsg, outValue
      ensures Valid() && outValue.Valid()
      ensures readMsg == if old(readMsg) != null && old(readMsg.kind) == GetResponse then null else old(readMsg)
      ensures ok <==>
                && old(Pending()).Some? && old(Pending()).value.0 == GetResponse
                && old(Pending()).value.1.header.status == RES_NO_ERROR
      ensures ok ==>
                && outFlags == old(Pending()).value.1.flags
                && (old(Pending()).value.1.value != [] ==> outValue.Written() == old(Pending()).value.1.value)
      ensures !ok ==> outFlags == inFlags && outValue.View() == old(outValue.View())
    {
      ok, outFlags := false, inFlags;
      if readMsg != null {
        if readMsg.kind == GetResponse {
          if readMsg.header.status == RES_NO_ERROR {
            outValue.Assign(readMsg.value);
            outFlags := readMsg.flags;
            readMsg := null;
            ok := true;
          } else {
            readMsg := null;
          }
        }
      }
    }

    /** The success of a Set, from the message received. */
    method TakeSetResponse() returns (ok: bool)
      requires Valid()
      modifies this`readMsg
      ensures Valid() && ok == SetOutcome(old(Pending()))
      ensures readMsg == if old(readMsg) != null && old(readMsg.kind) == SetResponse then null else old(readMsg)
    {
      ok := false;
      if readMsg != null {
        if readMsg.kind == SetResponse {
          ok := readMsg.header.status == RES_NO_ERROR;
          readMsg := null;
        }
      }
    }
  }

  /** A new server, a client that has connected to it, and the server's end of the connection. */
  method Connected() returns (client: MemcacheClient, server: MemcacheServer, peer: MemcacheSocket)
    ensures fresh(client.Repr) && fresh(server.Repr) && fresh(peer.Repr)
    ensures client.Idle(server, peer) && client.socket != null && server.cache == map[]
  {
    client := new MemcacheClient();
    client.Connect();
    server := new MemcacheServer();
    peer := new MemcacheSocket();
  }

  lemma StockedIsBounded(cache: Cache)
    requires Stocked(cache)
    ensures Bounded(cache)
  {
  }

  lemma SetPerformed(cache: Cache, key: C.Key, flags: u32, value: C.Value, expires: u32)
    requires Stocked(cache) && Sendable(SetCall(key, flags, value, 0))
    ensures var bytes := BuiltBytes(SetRequest, BLANK.(key := key, flags := flags, expires := expires, value := value));
            && StreamReady(bytes)
            && var (after, out) := ServeStream(cache, bytes);
               && FrameReady(out)
               && (Delivered(out).Some? ==> Delivered(out).value.0 == SetResponse)
               && Perform(cache, SetCall(key, flags, value, 0)) == (after, SetDone(SetOutcome(Delivered(out))))
               && Stocked(after)
  {
    hide ServeFrame, BuiltBytes, HeaderAt;
    SetExact(cache, key, flags, value, expires);
    SetExact(cache, key, flags, value, 0);
    PerformStocked(cache, SetCall(key, flags, value, expires));
    RequestServed(cache, SetRequest, BLANK.(key := key, flags := flags, expires := expires, value := value));
  }

  /** The message, if any, answers a Get of k. */
  predicate GetsEntry(cache: Cache, k: C.Key, message: Option<(Kind, Fields)>)
    requires Stocked(cache)
  {
    && (message.Some? ==> message.value.0 == GetResponse)
    && (k in cache <==> message.Some? && message.value.1.header.status == RES_NO_ERROR)
    && (k in cache ==> message.value.1.flags == cache[k].flags && message.value.1.value == cache[k].buffer.value != [])
  }

  lemma GetPerformed(cache: Cache, key: C.Key)
    requires Stocked(cache) && Sendable(GetCall(key))
    ensures var bytes := BuiltBytes(GetRequest, BLANK.(key := key));
            var k := WireKey(key, []);
            && StreamReady(bytes)
            && var (after, out) := ServeStream(cache, bytes);
               && after == cache && FrameReady(out)
               && GetsEntry(cache, k, Delivered(out))
    ensures var k := WireKey(key, []);
            Perform(cache, GetCall(key))
            == (cache, GetDone(if k in cache then Some(C.Hit(cache[k].flags, cache[k].buffer.value))
                               else if k == [] then None else Some(C.KeyNotFound)))
  {
    hide ServeFrame, BuiltBytes, HeaderAt, GetReply, WireKey;
    GetExact(cache, key);
    RequestServed(cache, GetRequest, BLANK.(key := key));
  }
}
