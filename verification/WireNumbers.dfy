/** The wire format in plain numbers: which byte stands where in what is built, and which bytes
    are accepted, whoever sent them. */
module WireNumbers {
  import opened Bytes
  import opened Options
  import opened DataBuffers
  import opened Wire
  import opened Sockets

  // ---------- Building ----------

  /** A header, byte by byte, most significant bytes first. */
  lemma HeaderByNumbers(h: Header, rest: seq<byte>)
    ensures var bs := HeaderBytes(h) + rest;
            && |bs| == 24 + |rest| && bs[24..] == rest
            && bs[0] == h.magic && bs[1] == h.opcode
            && bs[2] == h.keyLen / 0x100 && bs[3] == h.keyLen % 0x100
            && bs[4] == h.extrasLen && bs[5] == h.dataType
            && bs[6] == h.status / 0x100 && bs[7] == h.status % 0x100
            && bs[8..12] == BigEndian(h.totalBodyLen) && bs[12..16] == BigEndian(h.opaqueId)
            && bs[16..20] == BigEndian(h.cas / 0x1_0000_0000) && bs[20..24] == BigEndian(h.cas % 0x1_0000_0000)
  {
    var bs := HeaderBytes(h) + rest;
    assert bs == HeaderStart(h) + HeaderEnd(h) + rest;
    assert bs[8..24] == HeaderEnd(h);
    assert bs[8..12] == bs[8..24][0..4] && bs[12..16] == bs[8..24][4..8];
    assert bs[16..20] == bs[8..24][8..12] && bs[20..24] == bs[8..24][12..16];
  }

  /** The four bytes of a 32-bit number, most significant first. */
  function BigEndian(v: u32): seq<byte> {
    [v / 0x100_0000, v / 0x1_0000 % 0x100, v / 0x100 % 0x100, v % 0x100]
  }

  /** Magic, opcode and extras length of the four messages. */
  lemma KindsByNumbers(kind: Kind)
    ensures kind == GetRequest ==> (MagicOf(kind), OpcodeOf(kind), ExtrasLenOf(kind)) == (0x80, 0x00, 0)
    ensures kind == SetRequest ==> (MagicOf(kind), OpcodeOf(kind), ExtrasLenOf(kind)) == (0x80, 0x01, 8)
    ensures kind == GetResponse ==> (MagicOf(kind), OpcodeOf(kind), ExtrasLenOf(kind)) == (0x81, 0x00, 4)
    ensures kind == SetResponse ==> (MagicOf(kind), OpcodeOf(kind), ExtrasLenOf(kind)) == (0x81, 0x01, 0)
  {
  }

  /** The header that Build writes: the lengths are added to a total left by an earlier Build,
      and the other fields stay as they were; but a GetRequest starts from zeros. */
  lemma BuiltHeaderByNumbers(kind: Kind, f: Fields)
    requires Sized(kind, f)
    ensures var h := BuiltHeaderOf(kind, f);
            var before := if kind == GetRequest then ZERO_HEADER else f.header;
            && h.keyLen == |f.key| % 0x1_0000
            && h.totalBodyLen == (before.totalBodyLen + h.extrasLen + h.keyLen + |ValueOf(kind, f)|) % 0x1_0000_0000
            && h.dataType == before.dataType && h.status == before.status
            && h.opaqueId == before.opaqueId && h.cas == before.cas
            && (h.magic, h.opcode, h.extrasLen) == (match kind
                                                    case GetRequest => (0x80, 0x00, 0)
                                                    case SetRequest => (0x80, 0x01, 8)
                                                    case GetResponse => (0x81, 0x00, 4)
                                                    case SetResponse => (0x81, 0x01, 0))
  {
  }

  /** What a message not built before puts on the wire, byte by byte. */
  lemma BuiltByNumbers(kind: Kind, f: Fields)
    requires |f.key| + |ValueOf(kind, f)| + 32 < 0x1_0000_0000
    requires kind == GetRequest || f.header.totalBodyLen == 0
    ensures var bs := BuiltBytes(kind, f);
            var before := if kind == GetRequest then ZERO_HEADER else f.header;
            var keyLen, valueLen := |f.key| % 0x1_0000, |ValueOf(kind, f)|;
            && |bs| >= 24
            && bs[0] == (if kind == GetRequest || kind == SetRequest then 0x80 else 0x81)
            && bs[1] == (if kind == GetRequest || kind == GetResponse then 0x00 else 0x01)
            && bs[2] == keyLen / 0x100 && bs[3] == keyLen % 0x100
            && bs[4] == (if kind == SetRequest then 8 else if kind == GetResponse then 4 else 0)
            && bs[5] == before.dataType && bs[6] == before.status / 0x100 && bs[7] == before.status % 0x100
            && bs[8..12] == BigEndian(bs[4] as int + keyLen + valueLen)
            && bs[12..16] == BigEndian(before.opaqueId)
            && bs[16..20] == BigEndian(before.cas / 0x1_0000_0000)
            && bs[20..24] == BigEndian(before.cas % 0x1_0000_0000)
            && |bs| == 24 + bs[4] as int + keyLen + valueLen
  {
    hide HeaderBytes, BuiltBytes, BodyOf, BuiltHeaderOf, BigEndian, MagicOf, OpcodeOf, ExtrasLenOf;
    BuiltIsHeaderAndBody(kind, f);
    HeaderByNumbers(BuiltHeaderOf(kind, f), BodyOf(kind, f));
    FreshHeaderByNumbers(kind, f);
    BodyByNumbers(kind, f);
    KindsByNumbers(kind);
  }

  lemma FreshHeaderByNumbers(kind: Kind, f: Fields)
    requires Sized(kind, f) && Fresh(kind, f)
    ensures var h := BuiltHeaderOf(kind, f);
            var before := if kind == GetRequest then ZERO_HEADER else f.header;
            && (h.magic, h.opcode, h.extrasLen) == (MagicOf(kind), OpcodeOf(kind), ExtrasLenOf(kind))
            && h.keyLen == |f.key| % 0x1_0000
            && h.totalBodyLen == ExtrasLenOf(kind) as int + |f.key| % 0x1_0000 + |ValueOf(kind, f)|
            && h.dataType == before.dataType && h.status == before.status
            && h.opaqueId == before.opaqueId && h.cas == before.cas
  {
    BuiltLengths(kind, f);
  }

  /** And after the header: flags and expiry, then key and value, the key first. */
  lemma BuiltBodyByNumbers(kind: Kind, f: Fields)
    requires |f.key| + |ValueOf(kind, f)| + 32 < 0x1_0000_0000
    requires kind == GetRequest || f.header.totalBodyLen == 0
    ensures var bs := BuiltBytes(kind, f);
            var extras := if kind == SetRequest then 8 else if kind == GetResponse then 4 else 0;
            && |bs| >= 24 + extras
            && (kind == SetRequest ==> bs[24..28] == BigEndian(f.flags) && bs[28..32] == BigEndian(f.expires))
            && (kind == GetResponse ==> bs[24..28] == BigEndian(f.flags))
            && bs[24 + extras..] == (f.key + ValueOf(kind, f))[..|f.key| % 0x1_0000 + |ValueOf(kind, f)|]
  {
    hide HeaderBytes, BuiltBytes, Extras, WireKey, WireValue;
    BuiltIsHeaderAndBody(kind, f);
    HeaderByNumbers(BuiltHeaderOf(kind, f), BodyOf(kind, f));
    BodyByNumbers(kind, f);
    BodyInFrame(BuiltBytes(kind, f), BodyOf(kind, f));
  }

  function BodyOf(kind: Kind, f: Fields): seq<byte> {
    var value := ValueOf(kind, f);
    Extras(kind, f.flags, f.expires) + WireKey(f.key, value) + WireValue(f.key, value)
  }

  lemma BuiltIsHeaderAndBody(kind: Kind, f: Fields)
    requires Sized(kind, f)
    ensures BuiltBytes(kind, f) == HeaderBytes(BuiltHeaderOf(kind, f)) + BodyOf(kind, f)
  {
    hide HeaderBytes;
  }

  lemma BodyInFrame(bs: seq<byte>, body: seq<byte>)
    requires |bs| >= 24 && bs[24..] == body
    ensures |body| >= 4 ==> bs[24..28] == body[..4]
    ensures |body| >= 8 ==> bs[28..32] == body[4..8] && bs[32..] == body[8..]
    ensures |body| >= 4 ==> bs[28..] == body[4..]
  {
  }

  lemma BodyByNumbers(kind: Kind, f: Fields)
    requires Sized(kind, f)
    ensures var value := ValueOf(kind, f);
            var body := BodyOf(kind, f);
            && |body| == ExtrasLenOf(kind) as int + |f.key| % 0x1_0000 + |value|
            && (kind == SetRequest ==> body[..4] == BigEndian(f.flags) && body[4..8] == BigEndian(f.expires))
            && (kind == GetResponse ==> body[..4] == BigEndian(f.flags))
            && body[ExtrasLenOf(kind)..] == (f.key + value)[..|f.key| % 0x1_0000 + |value|]
  {
    var value := ValueOf(kind, f);
    assert WireKey(f.key, value) + WireValue(f.key, value) == (f.key + value)[..|f.key| % 0x1_0000 + |value|];
  }

  // ---------- Dispatch ----------

  /** Only these four combinations of magic and opcode are supported. */
  lemma DispatchByNumbers(h: Header)
    ensures KindOf(h) == Some(GetRequest) <==> h.magic == 0x80 && h.opcode == 0x00
    ensures KindOf(h) == Some(SetRequest) <==> h.magic == 0x80 && h.opcode == 0x01
    ensures KindOf(h) == Some(GetResponse) <==> h.magic == 0x81 && h.opcode == 0x00
    ensures KindOf(h) == Some(SetResponse) <==> h.magic == 0x81 && h.opcode == 0x01
    ensures KindOf(h) == None <==> (h.magic != 0x80 && h.magic != 0x81) || h.opcode > 0x01
  {
  }

  // ---------- Parsing ----------

  /** The numbers a receiver finds in the first 24 bytes. */
  function KeyLenIn(bs: seq<byte>): nat
    requires |bs| >= 24
  {
    bs[2] as int * 0x100 + bs[3]
  }

  function TotalIn(bs: seq<byte>): nat
    requires |bs| >= 24
  {
    bs[8] as int * 0x100_0000 + bs[9] as int * 0x1_0000 + bs[10] as int * 0x100 + bs[11]
  }

  function FourBytes(bs: seq<byte>, at: nat): nat
    requires at + 4 <= |bs|
  {
    bs[at] as int * 0x100_0000 + bs[at + 1] as int * 0x1_0000 + bs[at + 2] as int * 0x100 + bs[at + 3]
  }

  /** GetRequest accepts exactly these bytes. Data type, status, opaque and CAS do not matter. */
  lemma GetRequestAccepts(prev: Fields, bs: seq<byte>)
    ensures ParseBytes(GetRequest, prev, bs).0 <==>
              && |bs| >= 24 && bs[0] == 0x80 && bs[1] == 0x00 && bs[4] == 0
              && 0 < KeyLenIn(bs) == TotalIn(bs) && 24 + KeyLenIn(bs) <= |bs|
    ensures ParseBytes(GetRequest, prev, bs).0 ==> ParseBytes(GetRequest, prev, bs).1.key == bs[24..24 + KeyLenIn(bs)]
  {
  }

  /** SetRequest accepts exactly these bytes: the class itself checks neither magic nor opcode. */
  lemma SetRequestAccepts(prev: Fields, bs: seq<byte>)
    requires Complete(SetRequest, bs)
    ensures ParseBytes(SetRequest, prev, bs).0 <==>
              |bs| >= 24 && bs[4] == 8 && KeyLenIn(bs) > 0 && TotalIn(bs) > 8 + KeyLenIn(bs)
    ensures ParseBytes(SetRequest, prev, bs).0 ==>
              var f := ParseBytes(SetRequest, prev, bs).1;
              var k := KeyLenIn(bs);
              && 24 + TotalIn(bs) <= |bs|
              && f.flags == FourBytes(bs, 24) && f.expires == FourBytes(bs, 28)
              && f.key == bs[32..32 + k] && f.value == bs[32 + k..24 + TotalIn(bs)]
  {
  }

  /** GetResponse accepts exactly these bytes; an empty value leaves the object's own. */
  lemma GetResponseAccepts(prev: Fields, bs: seq<byte>)
    requires Complete(GetResponse, bs)
    ensures ParseBytes(GetResponse, prev, bs).0 <==> |bs| >= 24 && bs[4] == 4
    ensures ParseBytes(GetResponse, prev, bs).0 ==>
              var f := ParseBytes(GetResponse, prev, bs).1;
              var k := KeyLenIn(bs);
              && 28 + k <= 24 + TotalIn(bs) <= |bs|
              && f.header == HeaderAt(bs) && f.header.status == bs[6] as int * 0x100 + bs[7]
              && f.flags == FourBytes(bs, 24)
              && f.key == bs[28..28 + k]
              && f.value == if TotalIn(bs) == 4 + k then prev.value else bs[28 + k..24 + TotalIn(bs)]
  {
    hide U32At, U16At;
    if |bs| >= 24 {
      ResponseLengths(bs);
    }
  }

  lemma ResponseLengths(bs: seq<byte>)
    requires |bs| >= 24
    ensures var h := HeaderAt(bs);
            && h.keyLen == KeyLenIn(bs) && h.totalBodyLen == TotalIn(bs)
            && h.status == bs[6] as int * 0x100 + bs[7]
    ensures |bs| >= 28 ==> U32At(bs, 24) == FourBytes(bs, 24)
  {
  }

  /** SetResponse accepts every header whose key is all there. */
  lemma SetResponseAccepts(prev: Fields, bs: seq<byte>)
    ensures ParseBytes(SetResponse, prev, bs).0 <==> |bs| >= 24 && 24 + KeyLenIn(bs) <= |bs|
    ensures ParseBytes(SetResponse, prev, bs).0 ==>
              var f := ParseBytes(SetResponse, prev, bs).1;
              && f.header == HeaderAt(bs) && f.header.status == bs[6] as int * 0x100 + bs[7]
              && f.key == bs[24..24 + KeyLenIn(bs)]
  {
  }

  // ---------- Messages from any sender ----------

  /** A header of any sender in front of a body of the length it gives. */
  lemma FrameByNumbers(h: Header, body: seq<byte>)
    requires |body| == h.totalBodyLen
    ensures var bs := HeaderBytes(h) + body;
            && |bs| == 24 + |body| && bs[24..] == body && bs[0] == h.magic && bs[1] == h.opcode
            && bs[4] == h.extrasLen && KeyLenIn(bs) == h.keyLen && TotalIn(bs) == h.totalBodyLen
            && HeaderAt(bs) == ReadBack(h)
  {
    HeaderReadsBack(h, body);
    HeaderByNumbers(h, body);
  }

  /** Whatever the other header fields: a complete frame is a valid GetRequest if and only if it is
      one by magic and opcode, has no extras, and its body is a key that is not empty. */
  lemma GetFrameAcceptedIff(prev: Fields, h: Header, body: seq<byte>)
    requires |body| == h.totalBodyLen
    ensures ParseBytes(GetRequest, prev, HeaderBytes(h) + body).0 <==>
              h.magic == 0x80 && h.opcode == 0x00 && h.extrasLen == 0 && 0 < h.keyLen == h.totalBodyLen
    ensures ParseBytes(GetRequest, prev, HeaderBytes(h) + body).0 ==>
              ParseBytes(GetRequest, prev, HeaderBytes(h) + body).1.key == body
  {
    FrameByNumbers(h, body);
    GetRequestAccepts(prev, HeaderBytes(h) + body);
  }

  /** The same for SetRequest, whose body is extras, a key and a value that are not empty. */
  lemma SetFrameAcceptedIff(prev: Fields, h: Header, body: seq<byte>)
    requires |body| == h.totalBodyLen && h.keyLen + h.extrasLen as int <= h.totalBodyLen
    ensures Complete(SetRequest, HeaderBytes(h) + body)
    ensures ParseBytes(SetRequest, prev, HeaderBytes(h) + body).0 <==>
              h.extrasLen == 8 && 0 < h.keyLen && 8 + h.keyLen < h.totalBodyLen
    ensures ParseBytes(SetRequest, prev, HeaderBytes(h) + body).0 ==>
              var f := ParseBytes(SetRequest, prev, HeaderBytes(h) + body).1;
              && f.flags == FourBytes(body, 0) && f.expires == FourBytes(body, 4)
              && f.key == body[8..8 + h.keyLen] && f.value == body[8 + h.keyLen..]
  {
    var bs := HeaderBytes(h) + body;
    hide ParseBytes, HeaderBytes, HeaderAt;
    FrameByNumbers(h, body);
    SetRequestAccepts(prev, bs);
    if ParseBytes(SetRequest, prev, bs).0 {
      assert bs[32..32 + h.keyLen] == body[8..8 + h.keyLen];
      assert bs[32 + h.keyLen..24 + h.totalBodyLen] == body[8 + h.keyLen..];
    }
  }

  /** Every header of any magic and opcode, with a body of its TotalBodyLen bytes in which key and
      extras fit, is one whole message of 24 + TotalBodyLen bytes, whatever follows it. */
  lemma FrameIsCut(h: Header, body: seq<byte>, rest: seq<byte>)
    requires |body| == h.totalBodyLen && h.keyLen + h.extrasLen as int <= h.totalBodyLen
    requires 24 + |body| <= 0xFFFF_FFF7
    ensures var s := HeaderBytes(h) + body + rest;
            && |s| >= 24 && FrameReady(s) && FrameLen(s) == 24 + |body|
            && s[..FrameLen(s)] == HeaderBytes(h) + body && s[FrameLen(s)..] == rest
  {
    var s := HeaderBytes(h) + body + rest;
    assert s == HeaderBytes(h) + (body + rest);
    HeaderReadsBack(h, body + rest);
  }
}
