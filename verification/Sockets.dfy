/** MemcacheSocket::ReadMessage over an abstract byte stream. The socket's incoming bytes arrive
    in chunks of any positive size; once they run out, recv reports an error. */
module Sockets {
  import opened Bytes
  import opened Options
  import opened DataBuffers
  import opened Wire
  import opened Messages

  const SOCKET_ERROR: int := -1

  /** The message class for a header; other opcodes are unsupported. */
  function KindOf(h: Header): Option<Kind> {
    if h.magic == MAGIC_REQ then
      if h.opcode == OP_GET then Some(GetRequest)
      else if h.opcode == OP_SET then Some(SetRequest)
      else None
    else if h.magic == MAGIC_RES then
      if h.opcode == OP_GET then Some(GetResponse)
      else if h.opcode == OP_SET then Some(SetResponse)
      else None
    else None
  }

  function FrameLen(s: seq<byte>): nat
    requires |s| >= HEADER_SIZE
  {
    HEADER_SIZE + HeaderAt(s).totalBodyLen
  }

  /** The stream holds less than a header, or starts with a complete message whose lengths fit
      each other and which can be held in memory. */
  predicate FrameReady(s: seq<byte>) {
    |s| >= HEADER_SIZE ==>
      && FrameLen(s) <= |s| && FrameLen(s) <= MAX_BUFFER
      && HeaderAt(s).keyLen + HeaderAt(s).extrasLen as int <= HeaderAt(s).totalBodyLen
  }

  lemma HeaderOfPrefix(s: seq<byte>, n: nat)
    requires HEADER_SIZE <= n <= |s|
    ensures HeaderAt(s[..n]) == HeaderAt(s)
  {
  }

  lemma FrameIsComplete(s: seq<byte>, kind: Kind)
    requires FrameReady(s) && |s| >= HEADER_SIZE
    ensures |s[..FrameLen(s)]| >= HEADER_SIZE && HeaderAt(s[..FrameLen(s)]) == HeaderAt(s)
    ensures Complete(kind, s[..FrameLen(s)])
  {
    HeaderOfPrefix(s, FrameLen(s));
  }

  class MemcacheSocket {
    const readBuffer: DataBuffer
    var currentMsg: Message?
    var incoming: seq<byte>
    var outgoing: seq<byte>

    /** The objects the socket owns, or has owned. */
    ghost var Repr: set<object>

    ghost predicate Valid()
      reads this, Repr
    {
      && this in Repr && readBuffer in Repr
      && readBuffer.Valid() && readBuffer.data != null && readBuffer.data in Repr
              && readBuffer.bufferSize >= HEADER_SIZE
      && (currentMsg != null ==>
            && currentMsg in Repr && currentMsg.value in Repr
                    && (currentMsg.value.data != null ==> currentMsg.value.data in Repr)
            && currentMsg.buffer == readBuffer && currentMsg.Valid())
    }

    constructor ()
      ensures Valid() && fresh(Repr) && incoming == [] && outgoing == [] && currentMsg == null
    {
      readBuffer := new DataBuffer.WithSize(HEADER_SIZE);
      currentMsg, incoming, outgoing := null, [], [];
      new;
      Repr := {this, readBuffer, readBuffer.data};
    }

    /** recv into the buffer's write pointer: between one byte and the number asked for. */
    method Recv(n: u32) returns (read: int)
      requires readBuffer.Valid() && readBuffer.data != null && 0 < n <= Room(readBuffer.View())
      modifies this`incoming, readBuffer.data
      ensures old(incoming) == [] <==> read == SOCKET_ERROR
      ensures read == SOCKET_ERROR ==> incoming == [] && readBuffer.Mem() == old(readBuffer.Mem())
      ensures read != SOCKET_ERROR ==>
                && 1 <= read <= n && read <= |old(incoming)| && incoming == old(incoming)[read..]
                && readBuffer.Mem()[..readBuffer.writeOffset + read]
                        == old(readBuffer.Written()) + old(incoming)[..read]
    {
      if |incoming| == 0 {
        return SOCKET_ERROR;
      }
      read :| 1 <= read <= n && read <= |incoming|;
      var at := readBuffer.writeOffset;
      forall i | 0 <= i < read {
        readBuffer.data[at + i] := incoming[i];
      }
      incoming := incoming[read..];
    }

    /** The receive loop: read until `target` bytes have been written to the buffer. */
    method Fill(target: u32) returns (ok: bool)
      requires readBuffer.Valid() && readBuffer.data != null
              && readBuffer.writeOffset <= target <= readBuffer.bufferSize
      modifies this`incoming, readBuffer.data, readBuffer`writeOffset
      ensures readBuffer.Valid() && readBuffer.readOffset == old(readBuffer.readOffset)
      ensures ok <==> target <= old(readBuffer.writeOffset) + |old(incoming)|
      ensures !ok ==> incoming == []
      ensures ok ==> readBuffer.writeOffset == target
      ensures readBuffer.Written() + incoming == old(readBuffer.Written() + incoming)
    {
      ghost var whole := readBuffer.Written() + incoming;
      while readBuffer.writeOffset < target
        invariant readBuffer.Valid() && readBuffer.writeOffset <= target
        invariant readBuffer.Written() + incoming == whole
        decreases target - readBuffer.writeOffset
      {
        ghost var before := readBuffer.Written();
        ghost var stream := incoming;
        var read := Recv(target - readBuffer.writeOffset);
        if read == SOCKET_ERROR {
          assert |before| < target && before + stream == whole;
          return false;
        }
        var _ := readBuffer.MoveWriteForward(read);
        ChunkMoved(before, stream, read);
      }
      return true;
    }

    method FillHeader() returns (ok: bool)
      requires readBuffer.Valid() && readBuffer.data != null && readBuffer.bufferSize >= HEADER_SIZE
      modifies this`incoming, readBuffer`readOffset, readBuffer`writeOffset, readBuffer.data
      ensures readBuffer.Valid() && readBuffer.readOffset == 0
      ensures ok <==> |old(incoming)| >= HEADER_SIZE
      ensures !ok ==> incoming == []
      ensures ok ==> readBuffer.Written() == old(incoming)[..HEADER_SIZE] && incoming == old(incoming)[HEADER_SIZE..]
    {
      ghost var stream := incoming;
      readBuffer.Reset();
      assert readBuffer.Written() + incoming == stream;
      ok := Fill(HEADER_SIZE);
      TakenFromFront(readBuffer.Written(), incoming, stream);
    }

    method ReceiveHeader() returns (ok: bool, header: Header)
      requires readBuffer.Valid() && readBuffer.data != null && readBuffer.bufferSize >= HEADER_SIZE
      modifies this`incoming, readBuffer`readOffset, readBuffer`writeOffset, readBuffer.data
      ensures readBuffer.Valid()
      ensures ok <==> |old(incoming)| >= HEADER_SIZE
      ensures !ok ==> incoming == []
      ensures ok ==>
                && header == HeaderAt(old(incoming))
                && readBuffer.Written() == old(incoming)[..HEADER_SIZE] && incoming == old(incoming)[HEADER_SIZE..]
    {
      ghost var stream := incoming;
      header := ZERO_HEADER;
      ok := FillHeader();
      if ok {
        ghost var head := readBuffer.Written();
        var parsed;
        parsed, header := ParseHeader(header, readBuffer);
        assert head[0..] == head;
        HeaderOfPrefix(stream, HEADER_SIZE);
      }
    }

    /** The header, then room for the rest, then the rest. */
    method ReceiveFrame() returns (ok: bool, header: Header)
      requires Valid() && FrameReady(incoming)
      modifies this`incoming, this`Repr, readBuffer, readBuffer.data
      ensures Valid() && fresh(Repr - old(Repr))
      ensures ok <==> |old(incoming)| >= HEADER_SIZE
      ensures !ok ==> incoming == []
      ensures ok ==> |old(incoming)| - |incoming| == 24 + HeaderAt(old(incoming)).totalBodyLen
      ensures ok ==>
                && header == HeaderAt(old(incoming))
                && readBuffer.Written() == old(incoming)[..FrameLen(old(incoming))]
                && incoming == old(incoming)[FrameLen(old(incoming))..]
    {
      ghost var stream := incoming;
      ok, header := ReceiveHeader();
      if ok {
        var reqSize := AddU32(header.totalBodyLen, HEADER_SIZE);
        if readBuffer.bufferSize < reqSize {
          var _ := readBuffer.Realloc(reqSize);
          Repr := Repr + {readBuffer.data};
        }
        assert readBuffer.Written() == stream[..HEADER_SIZE];
        assert stream[..HEADER_SIZE] + stream[HEADER_SIZE..] == stream;
        var _ := Fill(reqSize);
        TakenFromFront(readBuffer.Written(), incoming, stream);
      }
    }

    method Dispatch(header: Header)
      requires Valid()
      modifies this`currentMsg, this`Repr
      ensures Valid() && fresh(Repr - old(Repr))
      ensures KindOf(header).None? ==> currentMsg == old(currentMsg)
      ensures KindOf(header).Some? ==>
                && currentMsg != null && currentMsg.kind == KindOf(header).value
                && currentMsg.State() == BLANK.(expires := currentMsg.expires)
                && (currentMsg.kind != SetRequest ==> currentMsg.State() == BLANK)
    {
      if header.magic == MAGIC_REQ {
        if header.opcode == OP_GET {
          currentMsg := new Message.Over(GetRequest, readBuffer);
        } else if header.opcode == OP_SET {
          currentMsg := new Message.Over(SetRequest, readBuffer);
        }
      } else if header.magic == MAGIC_RES {
        if header.opcode == OP_GET {
          currentMsg := new Message.Over(GetResponse, readBuffer);
        } else if header.opcode == OP_SET {
          currentMsg := new Message.Over(SetResponse, readBuffer);
        }
      }
      if currentMsg != null {
        Repr := Repr + currentMsg.Repr();
      }
    }

    /** The frame, and the object it will be parsed into. */
    method ReceiveObject() returns (ok: bool, header: Header)
      requires Valid() && FrameReady(incoming)
      modifies this`incoming, this`currentMsg, this`Repr, readBuffer, readBuffer.data
      ensures Valid() && fresh(Repr - old(Repr))
      ensures ok <==> |old(incoming)| >= HEADER_SIZE
      ensures !ok ==> incoming == []
      ensures ok ==>
                && header == HeaderAt(old(incoming))
                && readBuffer.Written() == old(incoming)[..FrameLen(old(incoming))]
                && incoming == old(incoming)[FrameLen(old(incoming))..]
      ensures ok && KindOf(header).Some? ==>
                && currentMsg != null && currentMsg.kind == KindOf(header).value
                && currentMsg.State() == BLANK.(expires := currentMsg.expires)
                && (currentMsg.kind != SetRequest ==> currentMsg.State() == BLANK)
      ensures !ok || KindOf(header).None? ==> currentMsg == old(currentMsg)
    {
      ok, header := ReceiveFrame();
      if ok {
        Dispatch(header);
      }
    }

    /** ReadMessage up to the call of the handler: whether a message is handed to it, and which.
        For a supported opcode verdict and fields depend on the bytes of the frame alone, not
        on how they were cut into chunks nor on what the buffer or an earlier message held; the
        message has the class its header names. For any other opcode the previous message, if any,
        is parsed over the new bytes. */
    method Receive() returns (delivered: bool)
      requires Valid() && FrameReady(incoming)
      modifies Repr
      ensures Valid() && fresh(Repr - old(Repr)) && outgoing == old(outgoing)
      ensures |old(incoming)| < HEADER_SIZE ==> !delivered && incoming == []
      ensures |old(incoming)| >= HEADER_SIZE ==>
                && incoming == old(incoming)[FrameLen(old(incoming))..]
                && readBuffer.Written() == old(incoming)[..FrameLen(old(incoming))]
      ensures delivered ==>
                |old(incoming)| >= HEADER_SIZE && currentMsg != null && currentMsg.header == HeaderAt(old(incoming))
      ensures |old(incoming)| >= HEADER_SIZE && KindOf(HeaderAt(old(incoming))).Some? ==>
                var kind := KindOf(HeaderAt(old(incoming))).value;
                var frame := old(incoming)[..FrameLen(old(incoming))];
                && Complete(kind, frame)
                && delivered == ParseBytes(kind, BLANK, frame).0
                && currentMsg != null && currentMsg.kind == kind
                && (delivered ==> currentMsg.State() == ParseBytes(kind, BLANK, frame).1)
      ensures |old(incoming)| >= HEADER_SIZE && KindOf(HeaderAt(old(incoming))).None? ==>
                && currentMsg == old(currentMsg)
                && (currentMsg == null ==> !delivered)
                && (currentMsg != null ==>
                      var frame := old(incoming)[..FrameLen(old(incoming))];
                      var prev := old(if currentMsg == null then BLANK else currentMsg.State());
                      && Complete(currentMsg.kind, frame)
                      && (delivered, currentMsg.State()) == ParseBytes(currentMsg.kind, prev, frame))
    {
      hide ParseBytes, HeaderAt;
      ghost var stream := incoming;
      delivered := false;
      var ok, header := ReceiveObject();
      if ok && currentMsg != null {
        FrameIsComplete(stream, currentMsg.kind);
        delivered := ParseCurrent(header, stream[..FrameLen(stream)]);
      }
    }

    /** The message just made, or left over, is parsed over the buffer. */
    method ParseCurrent(ghost header: Header, ghost frame: seq<byte>) returns (delivered: bool)
      requires Valid() && currentMsg != null && readBuffer.Written() == frame
      requires |frame| >= HEADER_SIZE && HeaderAt(frame) == header && Complete(currentMsg.kind, frame)
      requires KindOf(header).Some? ==>
                 && currentMsg.State() == BLANK.(expires := currentMsg.expires)
                 && (currentMsg.kind != SetRequest ==> currentMsg.State() == BLANK)
      modifies this`Repr, currentMsg, currentMsg.value, readBuffer`readOffset
      ensures Valid() && fresh(Repr - old(Repr)) && currentMsg.header == header
      ensures (delivered, currentMsg.State()) == ParseBytes(currentMsg.kind, old(currentMsg.State()), frame)
      ensures KindOf(header).Some? ==>
                && delivered == ParseBytes(currentMsg.kind, BLANK, frame).0
                && (delivered ==> currentMsg.State() == ParseBytes(currentMsg.kind, BLANK, frame).1)
    {
      ghost var prev := currentMsg.State();
      delivered := currentMsg.Parse();
      Repr := Repr + currentMsg.value.Repr();
      if KindOf(header).Some? {
        VerdictFromFrame(currentMsg.kind, prev, frame);
      }
    }
  }

  lemma ChunkMoved(before: seq<byte>, stream: seq<byte>, n: nat)
    requires n <= |stream|
    ensures (before + stream[..n]) + stream[n..] == before + stream
  {
  }

  lemma TakenFromFront(taken: seq<byte>, left: seq<byte>, stream: seq<byte>)
    requires taken + left == stream
    ensures taken == stream[..|taken|] && left == stream[|taken|..]
  {
  }

  /** For a newly made object, whose only unknown field is the expiry of a SetRequest. */
  lemma VerdictFromFrame(kind: Kind, prev: Fields, frame: seq<byte>)
    requires Complete(kind, frame) && |frame| >= HEADER_SIZE
    requires prev == BLANK.(expires := prev.expires) && (kind != SetRequest ==> prev == BLANK)
    ensures ParseBytes(kind, prev, frame).0 == ParseBytes(kind, BLANK, frame).0
    ensures ParseBytes(kind, prev, frame).0 ==> ParseBytes(kind, prev, frame).1 == ParseBytes(kind, BLANK, frame).1
    ensures ParseBytes(kind, prev, frame).1.header == HeaderAt(frame)
  {
  }
}
