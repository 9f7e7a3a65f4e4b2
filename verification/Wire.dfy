/** The memcached binary packets of MemcacheMessages.cpp as byte strings: what Build puts on
    the wire and what Parse makes of received bytes. */
module Wire {
  import opened Bytes

  const HEADER_SIZE: nat := 24

  const MAGIC_REQ: byte := 0x80
  const MAGIC_RES: byte := 0x81
  const OP_GET: byte := 0x00
  const OP_SET: byte := 0x01

  const RES_NO_ERROR: u16 := 0x0000
  const RES_KEY_NOT_FOUND: u16 := 0x0001
  const RES_NOT_STORED: u16 := 0x0005

  datatype Header = Header(
    magic: byte,
    opcode: byte,
    keyLen: u16,
    extrasLen: byte,
    dataType: byte,
    status: u16,
    totalBodyLen: u32,
    opaqueId: u32,
    cas: u64)

  const ZERO_HEADER := Header(0, 0, 0, 0, 0, 0, 0, 0, 0)

  function HeaderStart(h: Header): seq<byte> {
    [h.magic] + [h.opcode] + BE2(h.keyLen) + [h.extrasLen] + [h.dataType] + BE2(h.status)
  }

  function HeaderEnd(h: Header): seq<byte> {
    BE4(h.totalBodyLen) + BE4(h.opaqueId) + BE8(h.cas)
  }

  function HeaderBytes(h: Header): (bs: seq<byte>)
    ensures |bs| == HEADER_SIZE
  {
    HeaderStart(h) + HeaderEnd(h)
  }

  function HeaderAt(bs: seq<byte>): Header
    requires |bs| >= HEADER_SIZE
  {
    Header(bs[0], bs[1], U16At(bs, 2), bs[4], bs[5], U16At(bs, 6), U32At(bs, 8), U32At(bs, 12), U64At(bs, 16))
  }

  /** The header read back: all fields as written, except that a CAS with bit 31 set comes back
      with its high word all ones. */
  function ReadBack(h: Header): Header {
    h.(cas := if h.cas % WORD < 0x8000_0000 then h.cas else 0xFFFF_FFFF * WORD + h.cas % WORD)
  }

  lemma HeaderReadsBack(h: Header, rest: seq<byte>)
    ensures HeaderAt(HeaderBytes(h) + rest) == ReadBack(h)
  {
    var bs := HeaderBytes(h) + rest;
    assert bs[2..4] == BE2(h.keyLen);
    ShortInMem(bs, 2, h.keyLen);
    assert bs[6..8] == BE2(h.status);
    ShortInMem(bs, 6, h.status);
    assert bs[8..12] == BE4(h.totalBodyLen);
    IntInMem(bs, 8, h.totalBodyLen);
    assert bs[12..16] == BE4(h.opaqueId);
    IntInMem(bs, 12, h.opaqueId);
    assert bs[16..24] == BE8(h.cas);
    LongInMem(bs, 16, h.cas);
  }

  /** The 24-byte header round-trips if and only if its CAS has bit 31 clear or its high word
      all ones. */
  lemma HeaderRoundTrip(h: Header)
    ensures HeaderAt(HeaderBytes(h)) == h <==> h.cas % WORD < 0x8000_0000 || h.cas / WORD == 0xFFFF_FFFF
  {
    HeaderReadsBack(h, []);
    assert HeaderBytes(h) + [] == HeaderBytes(h);
  }

  // ---------- The four message classes ----------

  datatype Kind = GetRequest | SetRequest | GetResponse | SetResponse

  function MagicOf(kind: Kind): byte {
    if kind == GetRequest || kind == SetRequest then MAGIC_REQ else MAGIC_RES
  }

  function OpcodeOf(kind: Kind): byte {
    if kind == GetRequest || kind == GetResponse then OP_GET else OP_SET
  }

  predicate HasValue(kind: Kind) { kind == SetRequest || kind == GetResponse }

  function ExtrasLenOf(kind: Kind): byte {
    match kind
    case SetRequest => 8
    case GetResponse => 4
    case _ => 0
  }

  function Extras(kind: Kind, flags: u32, expires: u32): (bs: seq<byte>)
    ensures |bs| == ExtrasLenOf(kind)
  {
    match kind
    case SetRequest => BE4(flags) + BE4(expires)
    case GetResponse => BE4(flags)
    case _ => []
  }

  /** What a message object holds besides its buffer. */
  datatype Fields = Fields(header: Header, key: seq<byte>, flags: u32, expires: u32, value: seq<byte>)

  /** A newly constructed message. */
  const BLANK := Fields(ZERO_HEADER, [], 0, 0, [])

  // ---------- Build ----------

  /** The header before the lengths are added up: only GetRequest starts from a blank one. */
  function StartHeader(kind: Kind, h: Header): Header {
    if kind == GetRequest then ZERO_HEADER.(magic := MAGIC_REQ, opcode := OP_GET)
    else h.(magic := MagicOf(kind), opcode := OpcodeOf(kind))
  }

  /** The lengths, truncated to their fields, and added to whatever TotalBodyLen held before. */
  function AddLengths(kind: Kind, start: Header, keyLen: u32, valueLen: u32): Header {
    var keyLen16 := keyLen % 0x1_0000;
    start.(extrasLen := ExtrasLenOf(kind), keyLen := keyLen16,
           totalBodyLen := AddU32(AddU32(AddU32(start.totalBodyLen, ExtrasLenOf(kind)), keyLen16), valueLen))
  }

  function BuiltHeader(kind: Kind, h: Header, keyLen: u32, valueLen: u32): Header {
    AddLengths(kind, StartHeader(kind, h), keyLen, valueLen)
  }

  /** The part of key and value that the key length and the value length cover on the wire. */
  function WireKey(key: seq<byte>, value: seq<byte>): seq<byte> {
    (key + value)[..|key| % 0x1_0000]
  }

  function WireValue(key: seq<byte>, value: seq<byte>): seq<byte> {
    (key + value)[|key| % 0x1_0000..|key| % 0x1_0000 + |value|]
  }

  function ValueOf(kind: Kind, f: Fields): seq<byte> {
    if HasValue(kind) then f.value else []
  }

  predicate Sized(kind: Kind, f: Fields) {
    |f.key| + |ValueOf(kind, f)| + 32 < WORD
  }

  /** The body as it is written after the header gap. */
  function Body(kind: Kind, f: Fields): seq<byte> {
    Extras(kind, f.flags, f.expires) + f.key + ValueOf(kind, f)
  }

  /** The bytes a message that has not been built before puts on the wire. */
  function BuiltBytes(kind: Kind, f: Fields): seq<byte>
    requires Sized(kind, f)
  {
    var value := ValueOf(kind, f);
    HeaderBytes(BuiltHeader(kind, f.header, |f.key|, |value|))
    + Extras(kind, f.flags, f.expires) + WireKey(f.key, value) + WireValue(f.key, value)
  }

  predicate Fresh(kind: Kind, f: Fields) {
    kind == GetRequest || f.header.totalBodyLen == 0
  }

  lemma ShortKeyOnWire(key: seq<byte>, value: seq<byte>)
    requires |key| < 0x1_0000
    ensures WireKey(key, value) == key && WireValue(key, value) == value
  {
  }

  /** Header, then extras, key and value, with lengths in the header that say so. */
  predicate SimpleLayout(bs: seq<byte>, extras: seq<byte>, key: seq<byte>, value: seq<byte>) {
    && |bs| >= HEADER_SIZE
    && bs[HEADER_SIZE..] == extras + key + value
    && HeaderAt(bs).extrasLen == |extras|
    && HeaderAt(bs).keyLen == |key|
    && HeaderAt(bs).totalBodyLen == |extras| + |key| + |value|
  }

  function BuiltHeaderOf(kind: Kind, f: Fields): Header
    requires Sized(kind, f)
  {
    BuiltHeader(kind, f.header, |f.key|, |ValueOf(kind, f)|)
  }

  lemma BuiltLengths(kind: Kind, f: Fields)
    requires Sized(kind, f) && Fresh(kind, f)
    ensures BuiltHeaderOf(kind, f).keyLen == |WireKey(f.key, ValueOf(kind, f))| == |f.key| % 0x1_0000
    ensures |WireValue(f.key, ValueOf(kind, f))| == |ValueOf(kind, f)|
    ensures BuiltHeaderOf(kind, f).totalBodyLen == ExtrasLenOf(kind) as int + |f.key| % 0x1_0000 + |ValueOf(kind, f)|
  {
  }

  /** What the receiver finds in the frame of a freshly built message. */
  lemma BuiltFrame(kind: Kind, f: Fields)
    requires Sized(kind, f) && Fresh(kind, f)
    ensures var bs := BuiltBytes(kind, f);
            && |bs| == HEADER_SIZE + BuiltHeaderOf(kind, f).totalBodyLen
            && HeaderAt(bs) == ReadBack(BuiltHeaderOf(kind, f))
            && bs[HEADER_SIZE..] == Extras(kind, f.flags, f.expires) + WireKey(f.key, ValueOf(kind, f))
                    + WireValue(f.key, ValueOf(kind, f))
  {
    hide HeaderAt, ReadBack, AddLengths, Extras, WireKey, WireValue;
    var rest := Extras(kind, f.flags, f.expires) + WireKey(f.key, ValueOf(kind, f))
            + WireValue(f.key, ValueOf(kind, f));
    assert BuiltBytes(kind, f) == HeaderBytes(BuiltHeaderOf(kind, f)) + rest;
    HeaderReadsBack(BuiltHeaderOf(kind, f), rest);
    BuiltLengths(kind, f);
  }

  /** A message that has not been built before gets the simple layout if and only if its
      key fits the 16-bit length. */
  lemma LayoutIffKeyFits(kind: Kind, f: Fields)
    requires Sized(kind, f) && Fresh(kind, f)
    ensures SimpleLayout(BuiltBytes(kind, f), Extras(kind, f.flags, f.expires), f.key, ValueOf(kind, f))
            <==> |f.key| < 0x1_0000
  {
    BuiltFrame(kind, f);
    BuiltLengths(kind, f);
    if |f.key| < 0x1_0000 {
      ShortKeyOnWire(f.key, ValueOf(kind, f));
    }
  }

  /** A memory that starts with header h and a body, with the write offset moved on by
      TotalBodyLen as far as the memory reaches. */
  predicate StartsWith(mem: seq<byte>, w: nat, h: Header, body: seq<byte>) {
    && |mem| < WORD
    && w == Min(AddU32(HEADER_SIZE, h.totalBodyLen), |mem|)
    && HEADER_SIZE + |body| <= |mem|
    && mem[..HEADER_SIZE + |body|] == HeaderBytes(h) + body
  }

  predicate BuiltMem(kind: Kind, f: Fields, mem: seq<byte>, w: nat)
    requires Sized(kind, f)
  {
    StartsWith(mem, w, BuiltHeaderOf(kind, f), Body(kind, f))
  }

  /** Cutting the body at TotalBodyLen leaves what the two length fields cover. */
  lemma CutBody(kind: Kind, f: Fields, head: seq<byte>)
    requires Sized(kind, f)
    ensures var n := |f.key| % 0x1_0000 + |ValueOf(kind, f)|;
            (head + Body(kind, f))[..|head| + ExtrasLenOf(kind) + n]
            == head + Extras(kind, f.flags, f.expires) + WireKey(f.key, ValueOf(kind, f))
                    + WireValue(f.key, ValueOf(kind, f))
  {
    var value := ValueOf(kind, f);
    var n := |f.key| % 0x1_0000 + |value|;
    assert Body(kind, f) == Extras(kind, f.flags, f.expires) + (f.key + value);
    assert WireKey(f.key, value) + WireValue(f.key, value) == (f.key + value)[..n];
  }

  lemma FreshMemIsBuiltBytes(kind: Kind, f: Fields, mem: seq<byte>, w: nat)
    requires Sized(kind, f) && Fresh(kind, f) && BuiltMem(kind, f, mem, w)
    ensures mem[..w] == BuiltBytes(kind, f)
  {
    BuiltLengths(kind, f);
    CutBody(kind, f, HeaderBytes(BuiltHeaderOf(kind, f)));
    assert mem[..w] == mem[..HEADER_SIZE + |Body(kind, f)|][..w];
  }

  lemma StaleTotal(t: u32, e: byte, k: u16, v: u32)
    requires e as int + k + v < WORD
    ensures AddU32(AddU32(AddU32(t, e), k), v) == e as int + k + v <==> t == 0
  {
  }

  /** Build leaves the simple layout in the buffer if and only if the key fits its 16-bit length
      and the message starts without a TotalBodyLen from an earlier Build (which only GetRequest
      wipes out). */
  lemma LayoutIff(kind: Kind, f: Fields, mem: seq<byte>, w: nat)
    requires Sized(kind, f) && BuiltMem(kind, f, mem, w)
    ensures SimpleLayout(mem[..w], Extras(kind, f.flags, f.expires), f.key, ValueOf(kind, f))
            <==> |f.key| < 0x1_0000 && Fresh(kind, f)
  {
    if Fresh(kind, f) {
      FreshMemIsBuiltBytes(kind, f, mem, w);
      LayoutIffKeyFits(kind, f);
    } else if |f.key| < 0x1_0000 && w >= HEADER_SIZE {
      var h := BuiltHeaderOf(kind, f);
      StaleTotal(f.header.totalBodyLen, ExtrasLenOf(kind), |f.key|, |ValueOf(kind, f)|);
      assert mem[..w][..HEADER_SIZE] == mem[..HEADER_SIZE + |Body(kind, f)|][..HEADER_SIZE] == HeaderBytes(h);
      assert mem[..w] == HeaderBytes(h) + mem[..w][HEADER_SIZE..];
      HeaderReadsBack(h, mem[..w][HEADER_SIZE..]);
    } else if w >= HEADER_SIZE {
      var h := BuiltHeaderOf(kind, f);
      assert mem[..w][..HEADER_SIZE] == mem[..HEADER_SIZE + |Body(kind, f)|][..HEADER_SIZE] == HeaderBytes(h);
      assert mem[..w] == HeaderBytes(h) + mem[..w][HEADER_SIZE..];
      HeaderReadsBack(h, mem[..w][HEADER_SIZE..]);
    }
  }

  // ---------- Parse ----------

  /** The lengths in a header fit what has been received, where that matters. */
  predicate LengthsFit(kind: Kind, h: Header, w: nat) {
    HasValue(kind) ==> h.keyLen + h.extrasLen as int <= h.totalBodyLen <= w - HEADER_SIZE
  }

  predicate Complete(kind: Kind, bs: seq<byte>) {
    |bs| >= HEADER_SIZE ==> LengthsFit(kind, HeaderAt(bs), |bs|)
  }

  predicate ExtrasReadable(kind: Kind, h: Header) {
    HasValue(kind) ==> h.extrasLen == ExtrasLenOf(kind)
  }

  /** Where the key is looked for: extras of the wrong length are not skipped. */
  function KeyStart(kind: Kind, h: Header): nat {
    if HasValue(kind) && h.extrasLen == ExtrasLenOf(kind) then HEADER_SIZE + ExtrasLenOf(kind) else HEADER_SIZE
  }

  function ValueLen(h: Header): int { h.totalBodyLen - (h.keyLen as int + h.extrasLen) }

  /** The checks of the class after its fields have been read. */
  predicate ClassAccepts(kind: Kind, h: Header) {
    match kind
    case GetRequest => h.magic == MAGIC_REQ && h.opcode == OP_GET && h.extrasLen == 0 && h.keyLen != 0
            && h.totalBodyLen == h.keyLen
    case SetRequest => h.extrasLen == 8 && h.keyLen != 0 && h.totalBodyLen > h.extrasLen as int + h.keyLen
    case _ => true
  }

  /** The fields read from the first w bytes of a memory that has header h. */
  function FromMem(kind: Kind, flags: u32, expires: u32, value: seq<byte>, h: Header, mem: seq<byte>, w: nat): Fields
    requires HEADER_SIZE <= w <= |mem| && LengthsFit(kind, h, w)
  {
    var at := KeyStart(kind, h);
    Fields(
      h,
      if at + h.keyLen <= w then mem[at..at + h.keyLen] else [],
      if HasValue(kind) && ExtrasReadable(kind, h) then U32At(mem, HEADER_SIZE) else flags,
      if kind == SetRequest && ExtrasReadable(kind, h) then U32At(mem, HEADER_SIZE + 4) else expires,
      if HasValue(kind) && ValueLen(h) > 0 then mem[at + h.keyLen..at + h.keyLen + ValueLen(h)] else value)
  }

  /** Parsing received bytes into an object that holds prev: the verdict and the new fields. */
  function ParseBytes(kind: Kind, prev: Fields, bs: seq<byte>): (bool, Fields)
    requires Complete(kind, bs)
  {
    if |bs| < HEADER_SIZE then (false, prev) else
    var h := HeaderAt(bs);
    (ExtrasReadable(kind, h) && KeyStart(kind, h) + h.keyLen <= |bs| && ClassAccepts(kind, h),
     FromMem(kind, prev.flags, prev.expires, prev.value, h, bs, |bs|))
  }

  // ---------- Round trip ----------

  /** What a receiver's fresh object holds after parsing the built message. */
  function Received(kind: Kind, prev: Fields, f: Fields): Fields
    requires Sized(kind, f)
  {
    Fields(
      ReadBack(BuiltHeaderOf(kind, f)),
      WireKey(f.key, ValueOf(kind, f)),
      if HasValue(kind) then f.flags else prev.flags,
      if kind == SetRequest then f.expires else prev.expires,
      if ValueOf(kind, f) != [] then WireValue(f.key, ValueOf(kind, f)) else prev.value)
  }

  lemma BuiltIsComplete(kind: Kind, f: Fields)
    requires Sized(kind, f) && Fresh(kind, f)
    ensures Complete(kind, BuiltBytes(kind, f))
    ensures HeaderAt(BuiltBytes(kind, f)).keyLen + HeaderAt(BuiltBytes(kind, f)).extrasLen as int
            <= HeaderAt(BuiltBytes(kind, f)).totalBodyLen == |BuiltBytes(kind, f)| - HEADER_SIZE
  {
    BuiltFrame(kind, f);
    BuiltLengths(kind, f);
  }

  lemma ExtrasReadBack(kind: Kind, f: Fields, bs: seq<byte>)
    requires HasValue(kind) && |bs| >= HEADER_SIZE + ExtrasLenOf(kind)
    requires bs[HEADER_SIZE..HEADER_SIZE + ExtrasLenOf(kind)] == Extras(kind, f.flags, f.expires)
    ensures U32At(bs, HEADER_SIZE) == f.flags
    ensures kind == SetRequest ==> U32At(bs, HEADER_SIZE + 4) == f.expires
  {
    var extras := bs[HEADER_SIZE..HEADER_SIZE + ExtrasLenOf(kind)];
    assert bs[24..28] == extras[..4] == BE4(f.flags);
    IntInMem(bs, 24, f.flags);
    if kind == SetRequest {
      assert bs[28..32] == extras[4..] == BE4(f.expires);
      IntInMem(bs, 28, f.expires);
    }
  }

  /** Where the parts of the body are. */
  lemma BuiltParts(kind: Kind, f: Fields)
    requires Sized(kind, f) && Fresh(kind, f)
    ensures var bs := BuiltBytes(kind, f);
            var at := HEADER_SIZE + ExtrasLenOf(kind);
            var n := |f.key| % 0x1_0000;
            && |bs| == at + n + |ValueOf(kind, f)|
            && bs[HEADER_SIZE..at] == Extras(kind, f.flags, f.expires)
            && bs[at..at + n] == WireKey(f.key, ValueOf(kind, f))
            && bs[at + n..] == WireValue(f.key, ValueOf(kind, f))
  {
    BuiltFrame(kind, f);
    BuiltLengths(kind, f);
    var tail := BuiltBytes(kind, f)[HEADER_SIZE..];
    var e := ExtrasLenOf(kind) as int;
    var n := |f.key| % 0x1_0000;
    assert tail[..e] == Extras(kind, f.flags, f.expires);
    assert tail[e..e + n] == WireKey(f.key, ValueOf(kind, f));
    assert tail[e + n..] == WireValue(f.key, ValueOf(kind, f));
  }

  /** Parsing a frame whose parts are known. */
  lemma ParseParts(kind: Kind, prev: Fields, f: Fields, bs: seq<byte>, key: seq<byte>, value: seq<byte>)
    requires |bs| >= HEADER_SIZE && Complete(kind, bs)
    requires HeaderAt(bs).extrasLen == ExtrasLenOf(kind) && HeaderAt(bs).keyLen == |key|
    requires HeaderAt(bs).totalBodyLen == ExtrasLenOf(kind) as int + |key| + |value|
    requires |bs| == HEADER_SIZE + HeaderAt(bs).totalBodyLen && (value == [] || HasValue(kind))
    requires var at := HEADER_SIZE + ExtrasLenOf(kind);
             && bs[HEADER_SIZE..at] == Extras(kind, f.flags, f.expires)
             && bs[at..at + |key|] == key && bs[at + |key|..] == value
    ensures ParseBytes(kind, prev, bs).1
            == Fields(HeaderAt(bs), key, if HasValue(kind) then f.flags else prev.flags,
                      if kind == SetRequest then f.expires else prev.expires, if value != [] then value else prev.value)
  {
    if HasValue(kind) {
      ExtrasReadBack(kind, f, bs);
    }
  }

  lemma RoundTripFields(kind: Kind, prev: Fields, f: Fields)
    requires Sized(kind, f) && Fresh(kind, f) && Complete(kind, BuiltBytes(kind, f))
    ensures ParseBytes(kind, prev, BuiltBytes(kind, f)).1 == Received(kind, prev, f)
  {
    var value := ValueOf(kind, f);
    BuiltFrame(kind, f);
    BuiltLengths(kind, f);
    BuiltParts(kind, f);
    ParseParts(kind, prev, f, BuiltBytes(kind, f), WireKey(f.key, value), WireValue(f.key, value));
  }

  /** The round trip of the four classes. The verdict is yes exactly when a request has a key
      left on the wire and a SetRequest also a value; the fields come back as they were put
      on the wire. */
  lemma RoundTrip(kind: Kind, prev: Fields, f: Fields)
    requires Sized(kind, f) && Fresh(kind, f)
    ensures Complete(kind, BuiltBytes(kind, f))
    ensures ParseBytes(kind, prev, BuiltBytes(kind, f)).1 == Received(kind, prev, f)
    ensures ParseBytes(kind, prev, BuiltBytes(kind, f)).0 <==>
            && (kind == GetRequest || kind == SetRequest ==> |f.key| % 0x1_0000 != 0)
            && (kind == SetRequest ==> f.value != [])
  {
    BuiltIsComplete(kind, f);
    RoundTripFields(kind, prev, f);
    BuiltFrame(kind, f);
    BuiltLengths(kind, f);
  }

  /** With a key that fits, nothing is lost. */
  lemma RoundTripExact(kind: Kind, prev: Fields, f: Fields)
    requires Sized(kind, f) && Fresh(kind, f) && |f.key| < 0x1_0000
    requires kind == GetRequest || kind == SetRequest ==> f.key != []
    requires kind == SetRequest ==> f.value != []
    requires prev.value == []
    ensures Complete(kind, BuiltBytes(kind, f)) && ParseBytes(kind, prev, BuiltBytes(kind, f)).0
    ensures var g := ParseBytes(kind, prev, BuiltBytes(kind, f)).1;
            && g.key == f.key && g.header.status == StartHeader(kind, f.header).status
            && g.value == ValueOf(kind, f)
            && (HasValue(kind) ==> g.flags == f.flags) && (kind == SetRequest ==> g.expires == f.expires)
  {
    RoundTrip(kind, prev, f);
    ShortKeyOnWire(f.key, ValueOf(kind, f));
  }

  // ---------- GetRequest is canonical ----------

  lemma HeaderFromBytes(bs: seq<byte>)
    requires |bs| >= HEADER_SIZE && HeaderAt(bs).cas == 0
    ensures HeaderBytes(HeaderAt(bs)) == bs[..HEADER_SIZE]
  {
    U32Canonical(bs, 8);
    U32Canonical(bs, 12);
    U32Canonical(bs, 16);
    U32Canonical(bs, 20);
    U16Canonical(bs, 2);
    U16Canonical(bs, 6);
    assert BE8(0) == bs[16..20] + bs[20..24];
    assert bs[..HEADER_SIZE]
            == (bs[0..1] + bs[1..2] + bs[2..4] + bs[4..5] + bs[5..6] + bs[6..8])
            + (bs[8..12] + bs[12..16] + (bs[16..20] + bs[20..24]));
  }

  /** Whatever buffer GetRequest accepts, with the unused header fields zero: building a
      GetRequest with the parsed key gives its header and key back byte for byte. */
  lemma GetRequestCanonical(prev: Fields, other: Fields, bs: seq<byte>)
    requires ParseBytes(GetRequest, prev, bs).0
    requires var h := HeaderAt(bs); h.dataType == 0 && h.status == 0 && h.opaqueId == 0 && h.cas == 0
    requires other.key == ParseBytes(GetRequest, prev, bs).1.key
    ensures Sized(GetRequest, other) && BuiltBytes(GetRequest, other) == bs[..HEADER_SIZE + HeaderAt(bs).keyLen]
  {
    var h := HeaderAt(bs);
    HeaderFromBytes(bs);
    ShortKeyOnWire(other.key, []);
    assert BuiltHeaderOf(GetRequest, other) == h;
    assert bs[..HEADER_SIZE + h.keyLen] == bs[..HEADER_SIZE] + bs[HEADER_SIZE..HEADER_SIZE + h.keyLen];
  }
}
