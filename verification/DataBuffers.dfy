/** The growable byte buffer of DataBuffer.cpp: a heap array with a write and a read
    offset, read and written in place. */
module DataBuffers {
  import opened Bytes

  /** Largest array the 32-bit target can allocate; a larger `new` throws. With it no
      `offset + width` comparison in the source wraps around. */
  const MAX_BUFFER: u32 := 0xFFFF_FFF7

  // ---------- The buffer as a value ----------

  datatype Snapshot = Snapshot(mem: seq<byte>, readOffset: nat, writeOffset: nat)

  function Room(v: Snapshot): int { |v.mem| - v.writeOffset }

  /** Writing bs at the write offset; a typed write that does not fit changes nothing. */
  function Put(v: Snapshot, bs: seq<byte>): Snapshot
    requires v.writeOffset <= |v.mem|
  {
    if |bs| <= Room(v) then
      Snapshot(v.mem[..v.writeOffset] + bs + v.mem[v.writeOffset + |bs|..], v.readOffset, v.writeOffset + |bs|)
    else v
  }

  /** What fits goes exactly to the write offset, and the rest of the memory stays; what does
      not fit changes nothing. */
  lemma PutExact(v: Snapshot, bs: seq<byte>)
    requires v.writeOffset <= |v.mem|
    ensures var v' := Put(v, bs);
            && |v'.mem| == |v.mem| && v'.readOffset == v.readOffset
            && (v.writeOffset + |bs| > |v.mem| ==> v' == v)
            && (v.writeOffset + |bs| <= |v.mem| ==>
                  && v'.writeOffset == v.writeOffset + |bs|
                  && v'.mem[v.writeOffset..v'.writeOffset] == bs
                  && (forall i | 0 <= i < v.writeOffset :: v'.mem[i] == v.mem[i])
                  && (forall i | v'.writeOffset <= i < |v.mem| :: v'.mem[i] == v.mem[i]))
  {
  }

  function LeftToRead(v: Snapshot): nat {
    if v.writeOffset > v.readOffset then v.writeOffset - v.readOffset else 0
  }

  /** n bytes can be read at the read offset, written or not. */
  predicate Readable(v: Snapshot, n: nat) { v.readOffset + n <= |v.mem| }

  /** Skipping n bytes never passes the write offset. */
  function Skip(v: Snapshot, n: nat): Snapshot {
    v.(readOffset := if v.readOffset + n < v.writeOffset then v.readOffset + n else v.writeOffset)
  }

  // ---------- The buffer as an object ----------

  class DataBuffer {
    var data: array?<byte>
    var bufferSize: u32
    var writeOffset: u32
    var readOffset: u32

    ghost function Repr(): set<object>
      reads this
    {
      if data == null then {this} else {this, data}
    }

    /** Both offsets stay within the buffer. A buffer that has been cleaned up has no array and
        zero offsets, but keeps its old size. */
    ghost predicate Valid()
      reads this
    {
      && readOffset <= bufferSize && writeOffset <= bufferSize <= MAX_BUFFER
      && (data == null ==> readOffset == 0 && writeOffset == 0)
      && (data != null ==> data.Length == bufferSize)
    }

    /** Not cleaned up: what every operation other than Alloc and Realloc needs. */
    ghost predicate Usable()
      reads this
    {
      data == null ==> bufferSize == 0
    }

    ghost function Mem(): seq<byte>
      reads this, data
    {
      if data == null then [] else data[..]
    }

    ghost function View(): Snapshot
      reads this, data
    {
      Snapshot(Mem(), readOffset, writeOffset)
    }

    ghost function Written(): seq<byte>
      requires Valid()
      reads this, data
    {
      Mem()[..writeOffset]
    }

    constructor ()
      ensures Valid() && Usable() && data == null && bufferSize == 0
    {
      data := null;
      bufferSize, writeOffset, readOffset := 0, 0, 0;
    }

    constructor WithSize(len: u32)
      requires len <= MAX_BUFFER
      ensures Valid() && data != null && fresh(data) && bufferSize == len
      ensures readOffset == 0 && writeOffset == 0
    {
      bufferSize, writeOffset, readOffset := len, 0, 0;
      data := new byte[len];
    }

    /** The copy constructor: a deep copy, offsets included. */
    constructor Copy(rhs: DataBuffer)
      requires rhs.Valid() && rhs.Usable()
      ensures Valid() && Usable() && (data != null ==> fresh(data))
      ensures View() == if rhs.bufferSize > 0 then rhs.View() else Snapshot([], 0, 0)
    {
      data := null;
      bufferSize, writeOffset, readOffset := 0, 0, 0;
      new;
      if rhs.bufferSize > 0 {
        var _ := Alloc(rhs.bufferSize);
        forall i | 0 <= i < rhs.bufferSize {
          data[i] := rhs.data[i];
        }
        writeOffset := rhs.writeOffset;
        readOffset := rhs.readOffset;
        assert data[..] == rhs.data[..];
      }
    }

    method Alloc(len: u32) returns (ok: bool)
      requires len <= MAX_BUFFER
      modifies this
      ensures ok && Valid() && data != null && fresh(data) && bufferSize == len
      ensures readOffset == 0 && writeOffset == 0
    {
      Cleanup();
      data := new byte[len];
      bufferSize := len;
      ok := data != null;
    }

    /** Keeps what has been written, as far as it fits. The saved read offset is never put
        back: the copy leaves the read offset at the end of what was copied. */
    method Realloc(len: u32) returns (ok: bool)
      requires Valid() && len <= MAX_BUFFER
      modifies this
      ensures ok && Valid() && data != null && fresh(data) && bufferSize == len
      ensures writeOffset == Min(old(writeOffset), len) && readOffset == writeOffset
      ensures Written() == old(Written())[..writeOffset]
    {
      if data != null {
        var temp := new byte[len];
        ResetRead();
        var numRead := ReadBytes(temp, len);
        data := temp;
        bufferSize := len;
        writeOffset := Min(writeOffset, bufferSize);
        readOffset := Min(readOffset, bufferSize);
        ok := data != null;
      } else {
        ok := Alloc(len);
      }
    }

    method Cleanup()
      modifies this
      ensures data == null && bufferSize == old(bufferSize) && readOffset == 0 && writeOffset == 0
    {
      data := null;
      Reset();
    }

    method ResetRead()
      modifies this`readOffset
      ensures readOffset == 0
    {
      readOffset := 0;
    }

    method Reset()
      modifies this`readOffset, this`writeOffset
      ensures readOffset == 0 && writeOffset == 0
    {
      readOffset := 0;
      writeOffset := 0;
    }

    // ---------- Typed reads and writes ----------

    method ReadByte() returns (ret: byte)
      requires Valid()
      modifies this`readOffset
      ensures Valid()
      ensures ret == if Readable(old(View()), 1) then Mem()[old(readOffset)] else 0
      ensures readOffset == if Readable(old(View()), 1) then old(readOffset) + 1 else old(readOffset)
      ensures readOffset > old(readOffset) <==> data != null && old(readOffset) + 1 <= bufferSize
    {
      ret := 0;
      if data != null && readOffset + 1 <= bufferSize {
        ret := data[readOffset];
        readOffset := readOffset + 1;
      }
    }

    method WriteByte(b: byte) returns (ok: bool)
      requires Valid()
      modifies this`writeOffset, data
      ensures Valid() && View() == Put(old(View()), [b])
      ensures ok <==> 1 <= Room(old(View()))
    {
      if data != null && writeOffset + 1 <= bufferSize {
        data[writeOffset] := b;
        writeOffset := writeOffset + 1;
        return true;
      }
      return false;
    }

    method ReadShort() returns (ret: u16)
      requires Valid()
      modifies this`readOffset
      ensures Valid()
      ensures ret == if Readable(old(View()), 2) then U16At(Mem(), old(readOffset)) else 0
      ensures View() == if Readable(old(View()), 2) then Skip(old(View()), 2) else old(View())
      ensures data != null && old(readOffset) + 2 <= bufferSize ==>
                readOffset == Min(old(readOffset) + 2, writeOffset) && readOffset <= writeOffset
      ensures !(data != null && old(readOffset) + 2 <= bufferSize) ==> readOffset == old(readOffset) && ret == 0
    {
      ret := 0;
      if data != null && readOffset + 2 <= bufferSize {
        ret := data[readOffset] as int * 0x100 + data[readOffset + 1];
        var _ := MoveReadForward(2);
      }
    }

    method WriteShort(val: u16) returns (ok: bool)
      requires Valid()
      modifies this`writeOffset, data
      ensures Valid() && View() == Put(old(View()), BE2(val))
      ensures ok <==> 2 <= Room(old(View()))
    {
      if data != null && writeOffset + 2 <= bufferSize {
        data[writeOffset] := val / 0x100;
        data[writeOffset + 1] := val % 0x100;
        writeOffset := writeOffset + 2;
        return true;
      }
      return false;
    }

    method ReadInt() returns (ret: u32)
      requires Valid()
      modifies this`readOffset
      ensures Valid()
      ensures ret == if Readable(old(View()), 4) then U32At(Mem(), old(readOffset)) else 0
      ensures View() == if Readable(old(View()), 4) then Skip(old(View()), 4) else old(View())
      ensures data != null && old(readOffset) + 4 <= bufferSize ==>
                readOffset == Min(old(readOffset) + 4, writeOffset) && readOffset <= writeOffset
      ensures !(data != null && old(readOffset) + 4 <= bufferSize) ==> readOffset == old(readOffset) && ret == 0
    {
      ret := 0;
      if data != null && readOffset + 4 <= bufferSize {
        ret := data[readOffset] as int * 0x100_0000 + data[readOffset + 1] as int * 0x1_0000
               + data[readOffset + 2] as int * 0x100 + data[readOffset + 3];
        var _ := MoveReadForward(4);
      }
    }

    method WriteInt(val: u32) returns (ok: bool)
      requires Valid()
      modifies this`writeOffset, data
      ensures Valid() && View() == Put(old(View()), BE4(val))
      ensures ok <==> 4 <= Room(old(View()))
    {
      if data != null && writeOffset + 4 <= bufferSize {
        var bytes: seq<byte> := [val / 0x100_0000 % 0x100, val / 0x1_0000 % 0x100, val / 0x100 % 0x100, val % 0x100];
        forall i | 0 <= i < 4 {
          data[writeOffset + i] := bytes[i];
        }
        writeOffset := writeOffset + 4;
        return true;
      }
      return false;
    }

    /** The low four bytes are put together as a signed int and widened. */
    method ReadLongLong() returns (ret: u64)
      requires Valid()
      modifies this`readOffset
      ensures Valid()
      ensures ret == if Readable(old(View()), 8) then U64At(Mem(), old(readOffset)) else 0
      ensures readOffset == if Readable(old(View()), 8) then old(readOffset) + 8 else old(readOffset)
      ensures readOffset > old(readOffset) <==> data != null && old(readOffset) + 8 <= bufferSize
    {
      ret := 0;
      if data != null && readOffset + 8 <= bufferSize {
        var hi: u32 := data[readOffset] as int * 0x100_0000 + data[readOffset + 1] as int * 0x1_0000
                       + data[readOffset + 2] as int * 0x100 + data[readOffset + 3];
        var lo: u32 := data[readOffset + 4] as int * 0x100_0000 + data[readOffset + 5] as int * 0x1_0000
                       + data[readOffset + 6] as int * 0x100 + data[readOffset + 7];
        ret := SignExtend(hi, lo);
        readOffset := readOffset + 8;
      }
    }

    method WriteLongLong(val: u64) returns (ok: bool)
      requires Valid()
      modifies this`writeOffset, data
      ensures Valid() && View() == Put(old(View()), BE8(val))
      ensures ok <==> 8 <= Room(old(View()))
    {
      if data != null && writeOffset + 8 <= bufferSize {
        var bytes: seq<byte> := [
          val / 0x100_0000_0000_0000 % 0x100, val / 0x1_0000_0000_0000 % 0x100,
          val / 0x100_0000_0000 % 0x100, val / 0x1_0000_0000 % 0x100,
          val / 0x100_0000 % 0x100, val / 0x1_0000 % 0x100, val / 0x100 % 0x100, val % 0x100];
        EightBytes(val);
        forall i | 0 <= i < 8 {
          data[writeOffset + i] := bytes[i];
        }
        writeOffset := writeOffset + 8;
        return true;
      }
      return false;
    }

    // ---------- Blocks ----------

    method ReadBytes(dest: array<byte>, numToRead: u32) returns (numRead: u32)
      requires Valid() && dest != data && Min(numToRead, LeftToRead(View())) <= dest.Length
      modifies this`readOffset, dest
      ensures Valid() && numRead == Min(numToRead, old(LeftToRead(View())))
      ensures readOffset == old(readOffset) + numRead
      ensures dest[..numRead] == Mem()[old(readOffset)..readOffset] && dest[numRead..] == old(dest[numRead..])
    {
      numRead := Min(numToRead, GetBytesLeftToRead());
      if numRead > 0 {
        forall i | 0 <= i < numRead {
          dest[i] := data[readOffset + i];
        }
        var _ := MoveReadForward(numRead);
      }
    }

    method WriteBytes(src: seq<byte>, numToWrite: u32) returns (numWritten: u32)
      requires Valid() && Usable() && numToWrite <= |src|
      modifies this`writeOffset, data
      ensures Valid() && numWritten == Min(numToWrite, Room(old(View())))
      ensures View() == Put(old(View()), src[..numWritten])
    {
      numWritten := Min(numToWrite, GetBytesLeftForWrite());
      if numWritten > 0 {
        ghost var v := View();
        var at := writeOffset;
        forall i | 0 <= i < numWritten {
          data[at + i] := src[i];
        }
        assert data[..] == v.mem[..at] + src[..numWritten] + v.mem[at + numWritten..];
        var _ := MoveWriteForward(numWritten);
      }
    }

    function GetBytesLeftToRead(): (n: u32)
      requires Valid()
      reads this
      ensures readOffset <= writeOffset ==> readOffset + n == writeOffset
      ensures n > 0 <==> readOffset < writeOffset
    {
      if writeOffset > readOffset then writeOffset - readOffset else 0
    }

    function GetBytesLeftForWrite(): (n: u32)
      requires Valid()
      reads this
      ensures writeOffset + n == bufferSize
    {
      if bufferSize > writeOffset then bufferSize - writeOffset else 0
    }

    // ---------- Offset movers ----------

    method MoveReadForward(len: u32) returns (r: u32)
      requires Valid()
      modifies this`readOffset
      ensures Valid() && r == readOffset
      ensures readOffset == Min(AddU32(old(readOffset), len), writeOffset)
    {
      readOffset := Min(AddU32(readOffset, len), writeOffset);
      r := readOffset;
    }

    method MoveReadBackward(len: u32) returns (r: u32)
      requires Valid()
      modifies this`readOffset
      ensures Valid() && r == readOffset
      ensures readOffset == BackFrom(old(readOffset), len, writeOffset)
    {
      readOffset := SubU32(readOffset, len);
      if readOffset > writeOffset {
        readOffset := 0;
      }
      r := readOffset;
    }

    method MoveWriteForward(len: u32) returns (w: u32)
      requires Valid() && Usable()
      modifies this`writeOffset
      ensures Valid() && w == writeOffset
      ensures writeOffset == Min(AddU32(old(writeOffset), len), bufferSize)
    {
      writeOffset := Min(AddU32(writeOffset, len), bufferSize);
      w := writeOffset;
    }

    method MoveWriteBackward(len: u32) returns (w: u32)
      requires Valid() && Usable()
      modifies this`writeOffset
      ensures Valid() && w == writeOffset
      ensures writeOffset == BackFrom(old(writeOffset), len, bufferSize)
    {
      writeOffset := SubU32(writeOffset, len);
      if writeOffset > bufferSize {
        writeOffset := 0;
      }
      w := writeOffset;
    }

    /** Deep copy; a source of size zero leaves this buffer as it is. */
    method Assign(rhs: DataBuffer)
      requires rhs.Valid() && rhs.Usable() && Valid()
      modifies this
      ensures Valid()
      ensures this == rhs || rhs.bufferSize == 0 ==>
                && data == old(data) && bufferSize == old(bufferSize)
                && writeOffset == old(writeOffset) && readOffset == old(readOffset)
      ensures this != rhs && rhs.bufferSize > 0 ==>
                data != null && fresh(data) && bufferSize == rhs.bufferSize && View() == rhs.View()
    {
      if this != rhs {
        var len := rhs.bufferSize;
        if len > 0 {
          var _ := Alloc(len);
          forall i | 0 <= i < len {
            data[i] := rhs.data[i];
          }
          writeOffset := rhs.writeOffset;
          readOffset := rhs.readOffset;
          assert data[..] == rhs.data[..];
        }
      }
    }
  }

  /** The offset after moving back by len with unsigned wrap-around and a clamp. */
  function BackFrom(offset: u32, len: u32, limit: u32): u32 {
    var moved := SubU32(offset, len);
    if moved > limit then 0 else moved
  }

  /** Moving an offset forward by len steps forward exactly that far, stopping at the limit, if
      and only if the sum does not wrap. */
  lemma MoveForwardExact(offset: u32, len: u32, limit: u32)
    requires offset <= limit
    ensures Min(AddU32(offset, len), limit) == (if offset + len < limit then offset + len else limit)
            <==> offset + len < WORD
  {
  }

  lemma LowByte(v: int, h: int, x: int)
    requires v == h * 0x100 + x
    ensures v % 0x100 == x % 0x100
  {
  }

  lemma HighBytes(v: u64, hi: u32, lo: u32)
    requires v == hi * WORD + lo
    ensures BE4(hi) == [v / 0x100_0000_0000_0000 % 0x100, v / 0x1_0000_0000_0000 % 0x100,
                        v / 0x100_0000_0000 % 0x100, v / 0x1_0000_0000 % 0x100]
  {
    assert v / 0x1_0000_0000 == hi;
    assert v / 0x100_0000_0000 == hi / 0x100;
    assert v / 0x1_0000_0000_0000 == hi / 0x1_0000;
    assert v / 0x100_0000_0000_0000 == hi / 0x100_0000;
  }

  lemma LowBytes(v: u64, hi: u32, lo: u32)
    requires v == hi * WORD + lo
    ensures BE4(lo) == [v / 0x100_0000 % 0x100, v / 0x1_0000 % 0x100, v / 0x100 % 0x100, v % 0x100]
  {
    LowByte(v / 0x100_0000, hi, lo / 0x100_0000);
    LowByte(v / 0x1_0000, hi * 0x100, lo / 0x1_0000);
    LowByte(v / 0x100, hi * 0x1_0000, lo / 0x100);
    LowByte(v, hi * 0x100_0000, lo);
  }

  lemma EightBytes(v: u64)
    ensures BE8(v) == [v / 0x100_0000_0000_0000 % 0x100, v / 0x1_0000_0000_0000 % 0x100, v / 0x100_0000_0000 % 0x100,
                       v / 0x1_0000_0000 % 0x100,
                       v / 0x100_0000 % 0x100, v / 0x1_0000 % 0x100, v / 0x100 % 0x100, v % 0x100]
  {
    HighBytes(v, v / WORD, v % WORD);
    LowBytes(v, v / WORD, v % WORD);
  }

  /** Moving the read offset back by len steps back exactly that far, stopping at zero, if and
      only if the step does not wrap or wraps past the write offset. */
  lemma MoveReadBackwardExact(readOffset: u32, len: u32, writeOffset: u32)
    requires readOffset <= writeOffset
    ensures BackFrom(readOffset, len, writeOffset) == (if len <= readOffset then readOffset - len else 0)
            <==> len <= readOffset || WORD + readOffset - len > writeOffset
  {
  }
}
