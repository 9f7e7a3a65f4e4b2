/** The message objects of MemcacheMessages.cpp. One class stands for the base class and its
    four subclasses; `kind` plays the part of the dynamic type. A message is built in place in its
    buffer: a gap for the header, then the body, then the header over the gap; and parsed back
    from a buffer it may share with a socket. */
module Messages {
  import opened Bytes
  import opened DataBuffers
  import opened Wire

  // ---------- The header in a buffer ----------

  lemma PutPut(v: Snapshot, a: seq<byte>, b: seq<byte>)
    requires v.writeOffset <= |v.mem| && |a| + |b| <= Room(v)
    ensures Put(Put(v, a), b) == Put(v, a + b)
  {
  }

  /** The first eight bytes: magic to status. */
  method WriteHeaderStart(h: Header, b: DataBuffer)
    requires b.Valid() && Room(b.View()) >= 8
    modifies b`writeOffset, b.data
    ensures b.Valid() && b.View() == Put(old(b.View()), HeaderStart(h))
  {
    ghost var v := b.View();
    var _ := b.WriteByte(h.magic);
    var _ := b.WriteByte(h.opcode);
    PutPut(v, [h.magic], [h.opcode]);
    var _ := b.WriteShort(h.keyLen);
    PutPut(v, [h.magic] + [h.opcode], BE2(h.keyLen));
    var _ := b.WriteByte(h.extrasLen);
    PutPut(v, [h.magic] + [h.opcode] + BE2(h.keyLen), [h.extrasLen]);
    var _ := b.WriteByte(h.dataType);
    PutPut(v, [h.magic] + [h.opcode] + BE2(h.keyLen) + [h.extrasLen], [h.dataType]);
    var _ := b.WriteShort(h.status);
    PutPut(v, [h.magic] + [h.opcode] + BE2(h.keyLen) + [h.extrasLen] + [h.dataType], BE2(h.status));
  }

  /** The other sixteen: total body length, opaque and CAS. */
  method WriteHeaderEnd(h: Header, b: DataBuffer)
    requires b.Valid() && Room(b.View()) >= 16
    modifies b`writeOffset, b.data
    ensures b.Valid() && b.View() == Put(old(b.View()), HeaderEnd(h))
  {
    ghost var v := b.View();
    var _ := b.WriteInt(h.totalBodyLen);
    var _ := b.WriteInt(h.opaqueId);
    PutPut(v, BE4(h.totalBodyLen), BE4(h.opaqueId));
    var _ := b.WriteLongLong(h.cas);
    PutPut(v, BE4(h.totalBodyLen) + BE4(h.opaqueId), BE8(h.cas));
  }

  /** MessageHeader::WriteToBuffer. */
  method WriteHeader(h: Header, b: DataBuffer) returns (written: u32)
    requires b.Valid() && b.Usable()
    modifies b`writeOffset, b.data
    ensures b.Valid()
    ensures written == if Room(old(b.View())) >= HEADER_SIZE then HEADER_SIZE else 0
    ensures b.View() == if Room(old(b.View())) >= HEADER_SIZE then Put(old(b.View()), HeaderBytes(h)) else old(b.View())
  {
    var start := b.writeOffset;
    if b.GetBytesLeftForWrite() >= HEADER_SIZE {
      ghost var v := b.View();
      WriteHeaderStart(h, b);
      WriteHeaderEnd(h, b);
      PutPut(v, HeaderStart(h), HeaderEnd(h));
    }
    written := b.writeOffset - start;
  }

  lemma HeaderInMem(mem: seq<byte>, at: nat, end: nat)
    requires at + HEADER_SIZE <= end <= |mem|
    ensures HeaderAt(mem[..end][at..])
            == Header(mem[at], mem[at + 1], U16At(mem, at + 2), mem[at + 4], mem[at + 5], U16At(mem, at + 6),
                      U32At(mem, at + 8), U32At(mem, at + 12), U64At(mem, at + 16))
  {
    var bs := mem[..end][at..];
    assert forall k | 0 <= k < HEADER_SIZE :: bs[k] == mem[at + k];
    assert U16At(bs, 2) == U16At(mem, at + 2) && U16At(bs, 6) == U16At(mem, at + 6);
    assert U32At(bs, 8) == U32At(mem, at + 8) && U32At(bs, 12) == U32At(mem, at + 12);
    assert U32At(bs, 16) == U32At(mem, at + 16) && U32At(bs, 20) == U32At(mem, at + 20);
  }

  /** The first eight bytes: magic to status. */
  method ParseHeaderStart(b: DataBuffer)
      returns (magic: byte, opcode: byte, keyLen: u16, extrasLen: byte, dataType: byte, status: u16)
    requires b.Valid() && b.readOffset + 8 <= b.writeOffset
    modifies b`readOffset
    ensures b.Valid() && b.readOffset == old(b.readOffset) + 8
    ensures var at := old(b.readOffset);
            && magic == b.Mem()[at] && opcode == b.Mem()[at + 1] && keyLen == U16At(b.Mem(), at + 2)
            && extrasLen == b.Mem()[at + 4] && dataType == b.Mem()[at + 5] && status == U16At(b.Mem(), at + 6)
  {
    magic := b.ReadByte();
    opcode := b.ReadByte();
    keyLen := b.ReadShort();
    extrasLen := b.ReadByte();
    dataType := b.ReadByte();
    status := b.ReadShort();
  }

  /** MessageHeader::ParseFromBuffer, at the read offset. */
  method ParseHeader(h: Header, b: DataBuffer) returns (parsed: u32, h': Header)
    requires b.Valid()
    modifies b`readOffset
    ensures b.Valid()
    ensures old(LeftToRead(b.View())) < HEADER_SIZE ==> parsed == 0 && h' == h && b.readOffset == old(b.readOffset)
    ensures old(LeftToRead(b.View())) >= HEADER_SIZE ==>
              && parsed == HEADER_SIZE && h' == HeaderAt(b.Written()[old(b.readOffset)..])
              && b.readOffset == old(b.readOffset) + HEADER_SIZE
  {
    hide HeaderAt, U16At, U32At, U64At;
    var start := b.GetBytesLeftToRead();
    h' := h;
    if b.GetBytesLeftToRead() >= HEADER_SIZE {
      HeaderInMem(b.Mem(), b.readOffset, b.writeOffset);
      var magic, opcode, keyLen, extrasLen, dataType, status := ParseHeaderStart(b);
      var total := b.ReadInt();
      var opaqueId := b.ReadInt();
      var cas := b.ReadLongLong();
      h' := Header(magic, opcode, keyLen, extrasLen, dataType, status, total, opaqueId, cas);
    }
    parsed := start - b.GetBytesLeftToRead();
  }

  // ---------- Messages ----------

  function ExtrasWritten(kind: Kind, room: int): (n: byte)
    ensures n % 4 == 0 && n <= ExtrasLenOf(kind) && (n == 0 || n as int <= room)
    ensures n == ExtrasLenOf(kind) || room < n + 4
  {
    if room >= ExtrasLenOf(kind) then ExtrasLenOf(kind)
    else if kind == SetRequest && room >= 4 then 4
    else 0
  }

  lemma AppendedParts(gap: seq<byte>, extras: seq<byte>, key: seq<byte>, value: seq<byte>)
    ensures (gap + extras + key + value)[|gap|..] == extras + key + value
  {
  }

  lemma SameBody(kind: Kind, f: Fields, g: Fields)
    requires g == f.(header := g.header)
    ensures Body(kind, f) == Body(kind, g)
  {
  }

  lemma HeaderInGap(mem: seq<byte>, head: seq<byte>, body: seq<byte>)
    requires |head| == HEADER_SIZE && HEADER_SIZE + |body| <= |mem|
    requires mem[..HEADER_SIZE + |body|][HEADER_SIZE..] == body
    ensures (head + mem[HEADER_SIZE..])[..HEADER_SIZE + |body|] == head + body
  {
    assert mem[HEADER_SIZE..][..|body|] == body;
  }

  /** Reading from a memory is reading from the part of it that has been written. */
  lemma KeyStartBounds(kind: Kind, h: Header)
    ensures HEADER_SIZE <= KeyStart(kind, h)
    ensures HasValue(kind) ==> KeyStart(kind, h) <= HEADER_SIZE + h.extrasLen
  {
  }

  lemma FromWrittenPart(kind: Kind, flags: u32, expires: u32, value: seq<byte>, h: Header, mem: seq<byte>, w: nat)
    requires HEADER_SIZE <= w <= |mem| && LengthsFit(kind, h, w)
    ensures FromMem(kind, flags, expires, value, h, mem[..w], w) == FromMem(kind, flags, expires, value, h, mem, w)
  {
    hide KeyStart;
    var at := KeyStart(kind, h);
    KeyStartBounds(kind, h);
    if at + h.keyLen <= w {
      assert mem[..w][at..at + h.keyLen] == mem[at..at + h.keyLen];
    }
    if HasValue(kind) && ValueLen(h) > 0 {
      assert mem[..w][at + h.keyLen..at + h.keyLen + ValueLen(h)] == mem[at + h.keyLen..at + h.keyLen + ValueLen(h)];
    }
  }

  /** Fields read one after the other. */
  lemma PartsAreFromMem(
    kind: Kind, flags: u32, expires: u32, value: seq<byte>, h: Header, mem: seq<byte>, w: nat, f: Fields)
    requires HEADER_SIZE <= w <= |mem| && LengthsFit(kind, h, w) && f.header == h
    requires var at := KeyStart(kind, h);
             && f.key == (if at + h.keyLen <= w then mem[at..at + h.keyLen] else [])
             && f.value == if HasValue(kind) && ValueLen(h) > 0
                           then mem[at + h.keyLen..at + h.keyLen + ValueLen(h)] else value
    requires f.flags == if HasValue(kind) && ExtrasReadable(kind, h) then U32At(mem, HEADER_SIZE) else flags
    requires f.expires == if kind == SetRequest && ExtrasReadable(kind, h) then U32At(mem, HEADER_SIZE + 4) else expires
    ensures f == FromMem(kind, flags, expires, value, h, mem, w)
  {
  }

  class Message {
    const kind: Kind
    var buffer: DataBuffer
    var header: Header
    var key: seq<byte>
    const value: DataBuffer
    var flags: u32
    var expires: u32

    /** The message and its value; its buffer may belong to a socket. */
    ghost function Repr(): set<object>
      reads this, value
    {
      {this} + value.Repr()
    }

    ghost predicate Valid()
      reads this, buffer, value
    {
      && buffer.Valid() && buffer.data != null && value.Valid() && value.Usable()
      && buffer != value && buffer.data != value.data
    }

    ghost function State(): Fields
      requires value.Valid()
      reads this, value, value.data
    {
      Fields(header, key, flags, expires, value.Written())
    }

    /** A message with a buffer of its own. A SetRequest does not initialise its expiry. */
    constructor (kind: Kind)
      ensures Valid() && fresh(Repr()) && fresh(buffer.Repr()) && this.kind == kind
      ensures value.bufferSize == 0 && State() == BLANK.(expires := expires)
      ensures kind != SetRequest ==> State() == BLANK
      ensures buffer.bufferSize == 2048
    {
      this.kind := kind;
      header, key, flags := ZERO_HEADER, [], 0;
      if kind == SetRequest {
        expires := *;
      } else {
        expires := 0;
      }
      value := new DataBuffer();
      buffer := new DataBuffer.WithSize(2048);
    }

    /** A message over a given buffer. */
    constructor Over(kind: Kind, buffer: DataBuffer)
      requires buffer.Valid() && buffer.data != null
      ensures Valid() && fresh(Repr()) && this.kind == kind && this.buffer == buffer
      ensures value.bufferSize == 0 && State() == BLANK.(expires := expires)
      ensures kind != SetRequest ==> State() == BLANK
    {
      this.kind := kind;
      this.buffer := buffer;
      header, key, flags := ZERO_HEADER, [], 0;
      if kind == SetRequest {
        expires := *;
      } else {
        expires := 0;
      }
      value := new DataBuffer();
    }

    /** Assignment from a message of the same class: the value is copied, the buffer shared. */
    method Assign(rhs: Message)
      requires this != rhs && kind == rhs.kind && rhs.value != value
      requires value.Valid() && value.Usable() && rhs.value.Valid() && rhs.value.Usable()
      modifies this, value
      ensures buffer == rhs.buffer && value.Valid() && value.Usable()
              && (value.data == old(value.data) || fresh(value.data))
      ensures var val := if rhs.value.bufferSize == 0 then old(value.Written()) else rhs.value.Written();
              State() == rhs.State().(value := val)
    {
      header, key, buffer := rhs.header, rhs.key, rhs.buffer;
      value.Assign(rhs.value);
      flags, expires := rhs.flags, rhs.expires;
    }

    // ---------- Build ----------

    /** A field of the extras, if there is room for it. */
    method WriteField(val: u32) returns (ok: bool)
      requires Valid()
      modifies buffer`writeOffset, buffer.data
      ensures Valid() && ok == (Room(old(buffer.View())) >= 4)
      ensures Room(buffer.View()) == Room(old(buffer.View())) - if ok then 4 else 0
      ensures buffer.Written() == old(buffer.Written()) + if ok then BE4(val) else []
    {
      ok := buffer.WriteInt(val);
    }

    /** As many whole fields as there is room for. */
    method WriteExtras() returns (n: u32)
      requires Valid()
      modifies buffer`writeOffset, buffer.data
      ensures Valid() && n == ExtrasWritten(kind, Room(old(buffer.View())))
      ensures buffer.Written() == old(buffer.Written()) + Extras(kind, flags, expires)[..n]
    {
      n := 0;
      if kind == GetResponse || kind == SetRequest {
        var ok := WriteField(flags);
        if ok {
          n := 4;
          if kind == SetRequest {
            ok := WriteField(expires);
            if ok {
              n := 8;
            }
          }
        }
      }
    }

    /** Appends bytes, first growing the buffer by their number when they do not fit. */
    method Append(bytes: seq<byte>) returns (n: u32)
      requires Valid() && buffer.bufferSize + |bytes| <= MAX_BUFFER
      modifies buffer, buffer.data
      ensures Valid() && n == |bytes|
      ensures buffer.data == old(buffer.data) || fresh(buffer.data)
      ensures buffer.Written() == old(buffer.Written()) + bytes
      ensures old(buffer.bufferSize) <= buffer.bufferSize <= old(buffer.bufferSize) + |bytes|
    {
      if buffer.GetBytesLeftForWrite() < |bytes| {
        var _ := buffer.Realloc(buffer.bufferSize + |bytes|);
      }
      n := buffer.WriteBytes(bytes, |bytes|);
    }

    method WriteKey() returns (n: u32)
      requires Valid() && buffer.bufferSize + |key| <= MAX_BUFFER
      modifies this`header, buffer, buffer.data
      ensures Valid() && n == |key|
      ensures buffer.data == old(buffer.data) || fresh(buffer.data)
      ensures header == old(header).(keyLen := |key| % 0x1_0000)
      ensures buffer.Written() == old(buffer.Written()) + key
      ensures old(buffer.bufferSize) <= buffer.bufferSize <= old(buffer.bufferSize) + |key|
    {
      if key == [] {
        header := header.(keyLen := 0);
        n := 0;
      } else {
        header := header.(keyLen := |key| % 0x1_0000);
        n := Append(key);
      }
    }

    method WriteValue() returns (n: u32)
      requires Valid() && buffer.bufferSize + value.writeOffset <= MAX_BUFFER
      modifies buffer, buffer.data
      ensures Valid() && n == |ValueOf(kind, State())|
      ensures buffer.data == old(buffer.data) || fresh(buffer.data)
      ensures buffer.Written() == old(buffer.Written()) + ValueOf(kind, State())
      ensures old(buffer.bufferSize) <= buffer.bufferSize <= old(buffer.bufferSize) + value.writeOffset
    {
      n := 0;
      if HasValue(kind) {
        var bytes := if value.data == null then [] else value.data[..value.writeOffset];
        n := Append(bytes);
      }
    }

    /** BaseMessage::Build after the class has put magic and opcode into the header: the gap,
        the body, then the header in the gap. */
    method BuildBody()
      requires Valid() && buffer.bufferSize >= 32
      requires buffer.bufferSize + |key| + value.writeOffset <= MAX_BUFFER
      modifies this`header, buffer, buffer.data
      ensures Valid() && (buffer.data == old(buffer.data) || fresh(buffer.data))
      ensures old(buffer.bufferSize) <= buffer.bufferSize <= old(buffer.bufferSize) + |key| + value.writeOffset
      ensures header == AddLengths(kind, old(header), |key|, |ValueOf(kind, State())|)
      ensures buffer.writeOffset == HEADER_SIZE + |Body(kind, State())|
      ensures buffer.Written()[HEADER_SIZE..] == Body(kind, State())
    {
      hide Extras;
      buffer.Reset();
      var _ := buffer.MoveWriteForward(HEADER_SIZE);
      ghost var gap := buffer.Written();
      var n := WriteExtras();
      assert buffer.Written() == gap + Extras(kind, flags, expires);
      header := header.(extrasLen := n, totalBodyLen := AddU32(header.totalBodyLen, n));
      n := WriteKey();
      header := header.(keyLen := n % 0x1_0000, totalBodyLen := AddU32(header.totalBodyLen, n % 0x1_0000));
      n := WriteValue();
      header := header.(totalBodyLen := AddU32(header.totalBodyLen, n));
      AppendedParts(gap, Extras(kind, flags, expires), key, ValueOf(kind, State()));
    }

    method BaseBuild() returns (ok: bool)
      requires Valid() && buffer.bufferSize >= 32
      requires buffer.bufferSize + |key| + value.writeOffset <= MAX_BUFFER
      modifies this`header, buffer, buffer.data
      ensures Valid() && ok && (buffer.data == old(buffer.data) || fresh(buffer.data))
      ensures old(buffer.bufferSize) <= buffer.bufferSize <= old(buffer.bufferSize) + |key| + value.writeOffset
      ensures header == AddLengths(kind, old(header), |key|, |ValueOf(kind, State())|)
      ensures StartsWith(buffer.Mem(), buffer.writeOffset, header, Body(kind, old(State())))
      ensures State() == old(State()).(header := header)
    {
      hide AddLengths, Extras, Body, HeaderBytes;
      ghost var before := State();
      BuildBody();
      assert Body(kind, State()) == Body(kind, before) by { SameBody(kind, before, State()); }
      ghost var mem, body := buffer.Mem(), Body(kind, State());
      assert mem[..buffer.writeOffset][HEADER_SIZE..] == body;
      ok := Seal();
      HeaderInGap(mem, HeaderBytes(header), body);
    }

    /** The class's Build. What ends up in the buffer has the simple layout exactly when the
        key fits and no earlier Build has left its total in the header. */
    method Build() returns (ok: bool)
      requires Valid() && buffer.bufferSize >= 32
      requires buffer.bufferSize + |key| + value.writeOffset <= MAX_BUFFER
      modifies this`header, buffer, buffer.data
      ensures Valid() && ok && (buffer.data == old(buffer.data) || fresh(buffer.data))
      ensures old(buffer.bufferSize) <= buffer.bufferSize <= old(buffer.bufferSize) + |key| + value.writeOffset
      ensures Sized(kind, old(State())) && header == BuiltHeaderOf(kind, old(State()))
      ensures BuiltMem(kind, old(State()), buffer.Mem(), buffer.writeOffset)
      ensures Fresh(kind, old(State())) ==> buffer.Written() == BuiltBytes(kind, old(State()))
      ensures SimpleLayout(buffer.Written(), Extras(kind, flags, expires), key, ValueOf(kind, State()))
              <==> |key| < 0x1_0000 && Fresh(kind, old(State()))
    {
      ghost var f := State();
      if kind == GetRequest {
        header := ZERO_HEADER;
      }
      assert Body(kind, f.(header := header)) == Body(kind, f);
      header := header.(magic := MagicOf(kind), opcode := OpcodeOf(kind));
      ok := BaseBuild();
      LayoutIff(kind, f, buffer.Mem(), buffer.writeOffset);
      if Fresh(kind, f) {
        FreshMemIsBuiltBytes(kind, f, buffer.Mem(), buffer.writeOffset);
      }
    }

    /** The header over the gap, and the write offset moved on to the end of the message. */
    method Seal() returns (ok: bool)
      requires Valid() && buffer.bufferSize >= HEADER_SIZE
      modifies buffer`readOffset, buffer`writeOffset, buffer.data
      ensures Valid() && ok
      ensures buffer.writeOffset == Min(AddU32(HEADER_SIZE, header.totalBodyLen), buffer.bufferSize)
      ensures buffer.Mem() == HeaderBytes(header) + old(buffer.Mem())[HEADER_SIZE..]
    {
      buffer.Reset();
      var n := WriteHeader(header, buffer);
      ok := n == HEADER_SIZE;
      if ok {
        var _ := buffer.MoveWriteForward(header.totalBodyLen);
      }
    }

    // ---------- Parse ----------

    method ReadExtras() returns (ok: bool)
      requires Valid() && buffer.readOffset <= buffer.writeOffset
      requires HasValue(kind) && header.extrasLen == ExtrasLenOf(kind)
              ==> buffer.readOffset + header.extrasLen <= buffer.writeOffset
      modifies this`flags, this`expires, buffer`readOffset
      ensures Valid() && ok == ExtrasReadable(kind, header)
      ensures buffer.readOffset == old(buffer.readOffset) + (if HasValue(kind) && ok then ExtrasLenOf(kind) else 0)
      ensures flags == if HasValue(kind) && ok then U32At(buffer.Mem(), old(buffer.readOffset)) else old(flags)
      ensures expires == if kind == SetRequest && ok then U32At(buffer.Mem(), old(buffer.readOffset) + 4)
              else old(expires)
    {
      match kind
      case GetResponse =>
        ok := header.extrasLen == 4;
        if ok {
          flags := buffer.ReadInt();
        }
      case SetRequest =>
        ok := header.extrasLen == 8;
        if ok {
          flags := buffer.ReadInt();
          expires := buffer.ReadInt();
        }
      case _ => ok := true;
    }

    method ReadKey() returns (ok: bool)
      requires Valid() && buffer.readOffset <= buffer.writeOffset
      modifies this`key, buffer`readOffset
      ensures Valid() && buffer.readOffset <= buffer.writeOffset
      ensures ok <==> old(buffer.readOffset) + header.keyLen <= buffer.writeOffset
      ensures buffer.readOffset == old(buffer.readOffset) + (if ok then header.keyLen else 0)
      ensures key == if ok then buffer.Mem()[old(buffer.readOffset)..buffer.readOffset] else []
    {
      key := [];
      if header.keyLen > 0 {
        if buffer.GetBytesLeftToRead() >= header.keyLen {
          key := buffer.data[buffer.readOffset..buffer.readOffset + header.keyLen];
          var _ := buffer.MoveReadForward(header.keyLen);
        } else {
          return false;
        }
      }
      return true;
    }

    method ReadValue() returns (ok: bool)
      requires Valid() && buffer.readOffset <= buffer.writeOffset
      requires HasValue(kind) ==> 0 <= ValueLen(header) <= buffer.writeOffset - buffer.readOffset
      modifies value, buffer`readOffset
      ensures Valid() && ok && (value.data == old(value.data) || fresh(value.data))
      ensures value.Written() == if HasValue(kind) && ValueLen(header) > 0
                                 then buffer.Mem()[old(buffer.readOffset)..old(buffer.readOffset) + ValueLen(header)]
                                 else old(value.Written())
    {
      if HasValue(kind) {
        var valSize := SubU32(header.totalBodyLen, header.keyLen + header.extrasLen as int);
        if valSize > 0 {
          var _ := value.Alloc(valSize);
          var _ := buffer.ReadBytes(value.data, valSize);
          var _ := buffer.MoveReadForward(valSize);
          var _ := value.MoveWriteForward(valSize);
          assert value.data[..valSize] == value.Written();
        }
      }
      return true;
    }

    /** Extras and key; the key is read even if the extras are of the wrong length. */
    method ReadExtrasAndKey() returns (ok: bool)
      requires Valid() && buffer.readOffset == HEADER_SIZE <= buffer.writeOffset
      requires LengthsFit(kind, header, buffer.writeOffset)
      modifies this`key, this`flags, this`expires, buffer`readOffset
      ensures Valid() && HEADER_SIZE <= buffer.readOffset <= buffer.writeOffset
      ensures var at := KeyStart(kind, header);
              && ok == (ExtrasReadable(kind, header) && at + header.keyLen <= buffer.writeOffset)
              && key == (if at + header.keyLen <= buffer.writeOffset then buffer.Mem()[at..at + header.keyLen] else [])
              && (at + header.keyLen <= buffer.writeOffset ==> buffer.readOffset == at + header.keyLen)
      ensures flags == if HasValue(kind) && ExtrasReadable(kind, header) then U32At(buffer.Mem(), HEADER_SIZE)
                       else old(flags)
      ensures expires == if kind == SetRequest && ExtrasReadable(kind, header) then U32At(buffer.Mem(), HEADER_SIZE + 4)
                         else old(expires)
    {
      hide U32At;
      ok := ReadExtras();
      assert buffer.readOffset == KeyStart(kind, header);
      var okKey := ReadKey();
      ok := ok && okKey;
    }

    /** All three parts are read, whatever the first two say. */
    method ReadBody() returns (ok: bool)
      requires Valid() && buffer.readOffset == HEADER_SIZE <= buffer.writeOffset
      requires LengthsFit(kind, header, buffer.writeOffset)
      modifies this`key, this`flags, this`expires, value, buffer`readOffset
      ensures Valid() && (value.data == old(value.data) || fresh(value.data))
      ensures ok == (ExtrasReadable(kind, header) && KeyStart(kind, header) + header.keyLen <= buffer.writeOffset)
      ensures State() == FromMem(kind, old(flags), old(expires), old(value.Written()),
                                 header, buffer.Mem(), buffer.writeOffset)
    {
      hide U32At, FromMem, ExtrasReadable;
      ghost var flags0, expires0, value0, w := flags, expires, value.Written(), buffer.writeOffset;
      ok := ReadExtrasAndKey();
      var okValue := ReadValue();
      ok := ok && okValue;
      PartsAreFromMem(kind, flags0, expires0, value0, header, buffer.Mem(), w, State());
    }

    /** BaseMessage::Parse. */
    method BaseParse() returns (ok: bool)
      requires Valid() && Complete(kind, buffer.Written())
      modifies this`header, this`key, this`flags, this`expires, value, buffer`readOffset
      ensures Valid() && (value.data == old(value.data) || fresh(value.data))
      ensures State() == ParseBytes(kind, old(State()), buffer.Written()).1
      ensures ok <==>
                && buffer.writeOffset >= HEADER_SIZE && ExtrasReadable(kind, header)
                && KeyStart(kind, header) + header.keyLen <= buffer.writeOffset
    {
      ghost var prev, mem := State(), buffer.Mem();
      ghost var bs := buffer.Written();
      buffer.ResetRead();
      var n;
      n, header := ParseHeader(header, buffer);
      if n == HEADER_SIZE {
        assert bs[0..] == bs;
        FromWrittenPart(kind, prev.flags, prev.expires, prev.value, header, mem, buffer.writeOffset);
        ok := ReadBody();
        assert buffer.Mem() == mem;
        return;
      }
      return false;
    }

    method Parse() returns (ok: bool)
      requires Valid() && Complete(kind, buffer.Written())
      modifies this`header, this`key, this`flags, this`expires, value, buffer`readOffset
      ensures Valid() && (value.data == old(value.data) || fresh(value.data))
      ensures (ok, State()) == ParseBytes(kind, old(State()), buffer.Written())
    {
      var parsed := BaseParse();
      if parsed {
        if kind == GetRequest {
          if header.magic != MAGIC_REQ {
            return false;
          }
          if header.opcode != OP_GET {
            return false;
          }
          if header.extrasLen > 0 {
            return false;
          }
          if header.keyLen == 0 {
            return false;
          }
          if header.totalBodyLen != header.keyLen {
            return false;
          }
        } else if kind == SetRequest {
          if header.extrasLen != 8 {
            return false;
          }
          if header.keyLen == 0 {
            return false;
          }
          if header.totalBodyLen <= header.extrasLen as int + header.keyLen {
            return false;
          }
        }
        return true;
      }
      return false;
    }
  }
}
