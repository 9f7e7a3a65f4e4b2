/** Bytes, the unsigned widths of the Win32 target, and big-endian encodings. */
module Bytes {
  type byte = x: int | 0 <= x < 0x100
  type u16 = x: int | 0 <= x < 0x1_0000
  type u32 = x: int | 0 <= x < 0x1_0000_0000
  type u64 = x: int | 0 <= x < 0x1_0000_0000_0000_0000

  const WORD: nat := 0x1_0000_0000

  /** 32-bit unsigned sum and difference, with wrap-around. */
  function AddU32(a: u32, b: u32): u32 { if a + b < WORD then a + b else a + b - WORD }

  function SubU32(a: u32, b: u32): u32 { if b <= a then a - b else a - b + WORD }

  function Min(a: u32, b: u32): u32 { if a < b then a else b }

  function BE2(v: u16): seq<byte> { [v / 0x100, v % 0x100] }

  function BE4(v: u32): seq<byte> {
    [v / 0x100_0000, v / 0x1_0000 % 0x100, v / 0x100 % 0x100, v % 0x100]
  }

  function BE8(v: u64): seq<byte> {
    BE4(v / WORD) + BE4(v % WORD)
  }

  function U16At(s: seq<byte>, i: nat): u16
    requires i + 2 <= |s|
  {
    s[i] as int * 0x100 + s[i + 1]
  }

  function U32At(s: seq<byte>, i: nat): u32
    requires i + 4 <= |s|
  {
    s[i] as int * 0x100_0000 + s[i + 1] as int * 0x1_0000 + s[i + 2] as int * 0x100 + s[i + 3]
  }

  /** A signed 32-bit value widened to 64 bits: its sign bit fills the high word. */
  function SignExtend(hi: u32, lo: u32): u64 {
    if lo < 0x8000_0000 then hi * WORD + lo else 0xFFFF_FFFF * WORD + lo
  }

  /** The source shifts the fifth byte as a signed int, so a set bit 31 fills the high
      word. */
  function U64At(s: seq<byte>, i: nat): u64
    requires i + 8 <= |s|
  {
    SignExtend(U32At(s, i), U32At(s, i + 4))
  }

  lemma BE2RoundTrip(v: u16)
    ensures U16At(BE2(v), 0) == v
  {
  }

  lemma BE4RoundTrip(v: u32)
    ensures U32At(BE4(v), 0) == v
  {
    var w := v / 0x100;
    assert w / 0x100 == v / 0x1_0000;
    assert w / 0x1_0000 == v / 0x100_0000;
  }

  lemma U16Canonical(s: seq<byte>, i: nat)
    requires i + 2 <= |s|
    ensures BE2(U16At(s, i)) == s[i..i + 2]
  {
    var a: int, b: int := s[i], s[i + 1];
    assert (a * 0x100 + b) / 0x100 == a;
  }

  lemma U32Canonical(s: seq<byte>, i: nat)
    requires i + 4 <= |s|
    ensures BE4(U32At(s, i)) == s[i..i + 4]
  {
    var v: int, a: int, b: int, c: int, d: int := U32At(s, i), s[i], s[i + 1], s[i + 2], s[i + 3];
    assert v / 0x100 == (a * 0x100 + b) * 0x100 + c && v / 0x1_0000 == a * 0x100 + b && v / 0x100_0000 == a;
  }

  /** Writing and reading back a 64-bit value, exactly: the value itself when bit 31 is clear,
      and otherwise the value with its high word all ones. */
  lemma BE8RoundTrip(v: u64)
    ensures U64At(BE8(v), 0) == (if v % WORD < 0x8000_0000 then v else 0xFFFF_FFFF * WORD + v % WORD)
    ensures U64At(BE8(v), 0) == v <==> v % WORD < 0x8000_0000 || v / WORD == 0xFFFF_FFFF
  {
    BE4RoundTrip(v / WORD);
    BE4RoundTrip(v % WORD);
    var s := BE8(v);
    assert U32At(s, 0) == v / WORD && U32At(s, 4) == v % WORD;
  }

  /** Reading an encoding out of a larger memory. */
  lemma ShortInMem(mem: seq<byte>, at: nat, v: u16)
    requires at + 2 <= |mem| && mem[at..at + 2] == BE2(v)
    ensures U16At(mem, at) == v
  {
    BE2RoundTrip(v);
    assert forall k | 0 <= k < 2 :: mem[at + k] == BE2(v)[k];
  }

  lemma IntInMem(mem: seq<byte>, at: nat, v: u32)
    requires at + 4 <= |mem| && mem[at..at + 4] == BE4(v)
    ensures U32At(mem, at) == v
  {
    BE4RoundTrip(v);
    assert forall k | 0 <= k < 4 :: mem[at + k] == BE4(v)[k];
  }

  lemma LongInMem(mem: seq<byte>, at: nat, v: u64)
    requires at + 8 <= |mem| && mem[at..at + 8] == BE8(v)
    ensures U64At(mem, at) == (if v % WORD < 0x8000_0000 then v else 0xFFFF_FFFF * WORD + v % WORD)
    ensures U64At(mem, at) == v <==> v % WORD < 0x8000_0000 || v / WORD == 0xFFFF_FFFF
  {
    assert mem[at..at + 4] == BE8(v)[..4] == BE4(v / WORD);
    assert mem[at + 4..at + 8] == BE8(v)[4..] == BE4(v % WORD);
    IntInMem(mem, at, v / WORD);
    IntInMem(mem, at + 4, v % WORD);
  }
}
