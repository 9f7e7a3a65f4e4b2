/** The buffer as a typed queue: whatever typed values and blocks are written, with any
    growing reallocations in between, the matching reads give them back in order. */
module ByteQueue {
  import opened Bytes
  import opened DataBuffers

  datatype Item = ByteItem(b: byte) | ShortItem(s: u16) | IntItem(i: u32) | LongItem(l: u64) | BlockItem(bs: seq<byte>)

  function Encoding(it: Item): seq<byte> {
    match it
    case ByteItem(b) => [b]
    case ShortItem(s) => BE2(s)
    case IntItem(i) => BE4(i)
    case LongItem(l) => BE8(l)
    case BlockItem(bs) => bs
  }

  /** One call: a write, or a reallocation that ends up with the given memory. */
  datatype Call = Write(item: Item) | Regrow(mem: seq<byte>)

  predicate Possible(v: Snapshot, c: Call) {
    && v.writeOffset <= |v.mem|
    && match c
       case Write(it) => |Encoding(it)| <= Room(v)
       case Regrow(mem) => |v.mem| <= |mem| && mem[..v.writeOffset] == v.mem[..v.writeOffset]
  }

  function After(v: Snapshot, c: Call): Snapshot
    requires Possible(v, c)
  {
    match c
    case Write(it) => Put(v, Encoding(it))
    case Regrow(mem) => Snapshot(mem, v.writeOffset, v.writeOffset)
  }

  predicate AllPossible(v: Snapshot, calls: seq<Call>)
    decreases |calls|
  {
    calls == [] || (Possible(v, calls[0]) && AllPossible(After(v, calls[0]), calls[1..]))
  }

  function AfterAll(v: Snapshot, calls: seq<Call>): Snapshot
    requires AllPossible(v, calls)
    decreases |calls|
  {
    if calls == [] then v else AfterAll(After(v, calls[0]), calls[1..])
  }

  function Items(calls: seq<Call>): seq<Item> {
    if calls == [] then []
    else (if calls[0].Write? then [calls[0].item] else []) + Items(calls[1..])
  }

  function Encodings(items: seq<Item>): seq<byte> {
    if items == [] then [] else Encoding(items[0]) + Encodings(items[1..])
  }

  /** The read that matches an item: what the typed read, or ReadBytes, returns and leaves. */
  function Read(v: Snapshot, like: Item): (Item, Snapshot)
    requires v.readOffset <= |v.mem| && v.writeOffset <= |v.mem|
  {
    match like
    case ByteItem(_) =>
      if Readable(v, 1) then (ByteItem(v.mem[v.readOffset]), v.(readOffset := v.readOffset + 1)) else (ByteItem(0), v)
    case ShortItem(_) =>
      if Readable(v, 2) then (ShortItem(U16At(v.mem, v.readOffset)), Skip(v, 2)) else (ShortItem(0), v)
    case IntItem(_) =>
      if Readable(v, 4) then (IntItem(U32At(v.mem, v.readOffset)), Skip(v, 4)) else (IntItem(0), v)
    case LongItem(_) =>
      if Readable(v, 8) then (LongItem(U64At(v.mem, v.readOffset)), v.(readOffset := v.readOffset + 8))
              else (LongItem(0), v)
    case BlockItem(bs) =>
      var n := if |bs| < LeftToRead(v) then |bs| else LeftToRead(v);
      (BlockItem(v.mem[v.readOffset..v.readOffset + n]), v.(readOffset := v.readOffset + n))
  }

  function ReadAll(v: Snapshot, like: seq<Item>): seq<Item>
    requires v.readOffset <= |v.mem| && v.writeOffset <= |v.mem|
    decreases |like|
  {
    if like == [] then [] else
    var (it, v') := Read(v, like[0]);
    [it] + ReadAll(v', like[1..])
  }

  /** A long long whose bit 31 is clear or whose high word is all ones. */
  predicate PlainLong(it: Item) {
    it.LongItem? ==> it.l % WORD < 0x8000_0000 || it.l / WORD == 0xFFFF_FFFF
  }

  lemma EncodingsCons(it: Item, items: seq<Item>)
    ensures Encodings([it] + items) == Encoding(it) + Encodings(items)
  {
    assert ([it] + items)[1..] == items;
  }

  function Written(v: Snapshot): seq<byte>
    requires v.writeOffset <= |v.mem|
  {
    v.mem[..v.writeOffset]
  }

  lemma CallAppends(v: Snapshot, c: Call)
    requires Possible(v, c)
    ensures var v' := After(v, c);
            v'.writeOffset <= |v'.mem| && Written(v') == Written(v) + if c.Write? then Encoding(c.item) else []
  {
  }

  lemma ItemsCons(calls: seq<Call>)
    requires calls != []
    ensures Encodings(Items(calls))
            == (if calls[0].Write? then Encoding(calls[0].item) else []) + Encodings(Items(calls[1..]))
  {
    if calls[0].Write? {
      EncodingsCons(calls[0].item, Items(calls[1..]));
    } else {
      assert Items(calls) == Items(calls[1..]);
    }
  }

  lemma {:induction false} WritesAppend(v: Snapshot, calls: seq<Call>)
    requires v.writeOffset <= |v.mem| && AllPossible(v, calls)
    ensures var v' := AfterAll(v, calls);
            v'.writeOffset <= |v'.mem| && Written(v') == Written(v) + Encodings(Items(calls))
    decreases |calls|
  {
    hide Encoding, Written, After, Items, Encodings;
    if calls == [] {
      assert Written(v) + [] == Written(v);
      NothingWritten();
    } else {
      CallAppends(v, calls[0]);
      WritesAppend(After(v, calls[0]), calls[1..]);
      ItemsCons(calls);
    }
  }

  lemma NothingWritten()
    ensures Encodings(Items([])) == []
  {
  }

  lemma FrontOfRange(mem: seq<byte>, from: nat, to: nat, front: seq<byte>, rest: seq<byte>)
    requires from <= to <= |mem| && mem[from..to] == front + rest
    ensures from + |front| <= to && mem[from..from + |front|] == front && mem[from + |front|..to] == rest
  {
    assert |mem[from..to]| == |front| + |rest|;
    assert mem[from..from + |front|] == mem[from..to][..|front|];
    assert mem[from + |front|..to] == mem[from..to][|front|..];
  }

  lemma ReadFirst(v: Snapshot, it: Item, rest: seq<byte>)
    requires v.readOffset <= v.writeOffset <= |v.mem|
    requires v.mem[v.readOffset..v.writeOffset] == Encoding(it) + rest
    ensures Read(v, it).0 == it <==> PlainLong(it)
    ensures Read(v, it).1 == v.(readOffset := v.readOffset + |Encoding(it)|)
  {
    var enc := Encoding(it);
    var r := v.readOffset;
    FrontOfRange(v.mem, r, v.writeOffset, enc, rest);
    match it
    case ByteItem(b) => assert v.mem[r] == v.mem[r..r + 1][0];
    case ShortItem(s) => ShortInMem(v.mem, r, s);
    case IntItem(i) => IntInMem(v.mem, r, i);
    case LongItem(l) => LongInMem(v.mem, r, l);
    case BlockItem(bs) =>
  }

  lemma {:induction false} ReadsMatch(v: Snapshot, items: seq<Item>)
    requires v.readOffset <= v.writeOffset <= |v.mem|
    requires v.mem[v.readOffset..v.writeOffset] == Encodings(items)
    ensures ReadAll(v, items) == items <==> forall it | it in items :: PlainLong(it)
    decreases |items|
  {
    if items != [] {
      var it, rest := items[0], items[1..];
      hide Encoding, PlainLong;
      FrontOfRange(v.mem, v.readOffset, v.writeOffset, Encoding(it), Encodings(rest));
      ReadFirst(v, it, Encodings(rest));
      var (x, v') := Read(v, it);
      ReadsMatch(v', rest);
      assert items == [it] + rest;
      assert ReadAll(v, items) == [x] + ReadAll(v', rest);
      SameConsed(x, ReadAll(v', rest), it, rest);
    }
  }

  lemma SameConsed(x: Item, s: seq<Item>, y: Item, t: seq<Item>)
    ensures [x] + s == [y] + t <==> x == y && s == t
  {
    assert ([x] + s)[0] == x && ([y] + t)[0] == y && ([x] + s)[1..] == s && ([y] + t)[1..] == t;
  }

  /** Write anything into an empty buffer, regrowing it at any time; then reset the read
      offset and read: the same values come back in the same order if and only if every long
      long has bit 31 clear or its high word all ones. */
  lemma TypedQueue(v: Snapshot, calls: seq<Call>)
    requires v.writeOffset == 0 && AllPossible(v, calls)
    ensures var v', items := AfterAll(v, calls), Items(calls);
            && v'.writeOffset <= |v'.mem|
            && (ReadAll(v'.(readOffset := 0), items) == items <==> forall it | it in items :: PlainLong(it))
  {
    WritesAppend(v, calls);
    var v' := AfterAll(v, calls);
    assert v'.mem[0..v'.writeOffset] == v'.mem[..v'.writeOffset];
    ReadsMatch(v'.(readOffset := 0), Items(calls));
  }

  // ---------- The law on a buffer object ----------

  /** A call of a user of the buffer. */
  datatype Op = WriteOp(item: Item) | GrowOp(len: u32)

  predicate AllFit(size: u32, written: nat, ops: seq<Op>)
    decreases |ops|
  {
    ops == [] ||
    match ops[0]
    case WriteOp(it) => written + |Encoding(it)| <= size && AllFit(size, written + |Encoding(it)|, ops[1..])
    case GrowOp(len) => size <= len <= MAX_BUFFER && AllFit(len, written, ops[1..])
  }

  function ItemsOf(ops: seq<Op>): seq<Item> {
    if ops == [] then []
    else (if ops[0].WriteOp? then [ops[0].item] else []) + ItemsOf(ops[1..])
  }

  method WriteItem(b: DataBuffer, it: Item)
    requires b.Valid() && b.Usable() && |Encoding(it)| <= Room(b.View())
    modifies b`writeOffset, b.data
    ensures b.Valid() && b.View() == Put(old(b.View()), Encoding(it))
  {
    match it
    case ByteItem(x) => var _ := b.WriteByte(x);
    case ShortItem(x) => var _ := b.WriteShort(x);
    case IntItem(x) => var _ := b.WriteInt(x);
    case LongItem(x) => var _ := b.WriteLongLong(x);
    case BlockItem(bs) =>
      var _ := b.WriteBytes(bs, |bs|);
      assert bs[..|bs|] == bs;
  }

  method ReadItem(b: DataBuffer, like: Item) returns (it: Item)
    requires b.Valid() && (like.BlockItem? ==> |like.bs| <= MAX_BUFFER)
    modifies b`readOffset
    ensures b.Valid() && (it, b.View()) == Read(old(b.View()), like)
  {
    match like
    case ByteItem(_) =>
      var x := b.ReadByte();
      it := ByteItem(x);
    case ShortItem(_) =>
      var x := b.ReadShort();
      it := ShortItem(x);
    case IntItem(_) =>
      var x := b.ReadInt();
      it := IntItem(x);
    case LongItem(_) =>
      var x := b.ReadLongLong();
      it := LongItem(x);
    case BlockItem(bs) =>
      it := ReadBlock(b, |bs|);
  }

  method ReadBlock(b: DataBuffer, len: u32) returns (it: Item)
    requires b.Valid()
    modifies b`readOffset
    ensures b.Valid() && b.View() == old(b.View()).(readOffset := b.readOffset)
    ensures var v := old(b.View());
            var n := if len < LeftToRead(v) then len else LeftToRead(v);
            b.readOffset == v.readOffset + n && it == BlockItem(v.mem[v.readOffset..v.readOffset + n])
  {
    var dest := new byte[len];
    var n := b.ReadBytes(dest, len);
    it := BlockItem(dest[..n]);
  }

  method WriteAll(b: DataBuffer, ops: seq<Op>) returns (ghost calls: seq<Call>)
    requires b.Valid() && b.Usable() && AllFit(b.bufferSize, b.writeOffset, ops)
    modifies b, b.data
    ensures b.Valid() && b.Usable() && (b.data == old(b.data) || fresh(b.data))
    ensures AllPossible(old(b.View()), calls) && b.View() == AfterAll(old(b.View()), calls)
    ensures Items(calls) == ItemsOf(ops)
    decreases |ops|
  {
    calls := [];
    if ops != [] {
      hide Encoding;
      ghost var v := b.View();
      ghost var call;
      match ops[0] {
        case WriteOp(it) =>
          WriteItem(b, it);
          call := Write(it);
        case GrowOp(len) =>
          Grow(b, len);
          call := Regrow(b.Mem());
      }
      ghost var rest := WriteAll(b, ops[1..]);
      calls := [call] + rest;
      assert calls[1..] == rest;
    }
  }

  method Grow(b: DataBuffer, len: u32)
    requires b.Valid() && b.Usable() && b.bufferSize <= len <= MAX_BUFFER
    modifies b
    ensures b.Valid() && b.Usable() && fresh(b.data) && b.bufferSize == len && b.writeOffset == old(b.writeOffset)
    ensures Possible(old(b.View()), Regrow(b.Mem())) && b.View() == After(old(b.View()), Regrow(b.Mem()))
  {
    var _ := b.Realloc(len);
  }

  method ReadAllItems(b: DataBuffer, like: seq<Item>) returns (items: seq<Item>)
    requires b.Valid() && forall it | it in like && it.BlockItem? :: |it.bs| <= MAX_BUFFER
    modifies b`readOffset
    ensures b.Valid() && items == ReadAll(old(b.View()), like)
    decreases |like|
  {
    items := [];
    if like != [] {
      assert like[0] in like;
      var it := ReadItem(b, like[0]);
      var rest := ReadAllItems(b, like[1..]);
      items := [it] + rest;
    }
  }

  lemma {:induction false} BlocksFit(size: u32, written: nat, ops: seq<Op>)
    requires size <= MAX_BUFFER && AllFit(size, written, ops)
    ensures forall it | it in ItemsOf(ops) && it.BlockItem? :: |it.bs| <= MAX_BUFFER
    decreases |ops|
  {
    if ops != [] {
      match ops[0]
      case WriteOp(it) => BlocksFit(size, written + |Encoding(it)|, ops[1..]);
      case GrowOp(len) => BlocksFit(len, written, ops[1..]);
    }
  }

  /** Written into an empty buffer, with reallocations in between, and read back: the same
      values in the same order if and only if every long long is plain. */
  method WriteThenRead(b: DataBuffer, ops: seq<Op>) returns (items: seq<Item>)
    requires b.Valid() && b.Usable() && b.writeOffset == 0 && AllFit(b.bufferSize, 0, ops)
    modifies b, b.data
    ensures b.Valid() && (items == ItemsOf(ops) <==> forall it | it in ItemsOf(ops) :: PlainLong(it))
  {
    hide AllFit, Encoding, PlainLong;
    ghost var v := b.View();
    BlocksFit(b.bufferSize, 0, ops);
    ghost var calls := WriteAll(b, ops);
    TypedQueue(v, calls);
    b.ResetRead();
    items := ReadAllItems(b, ItemsOf(ops));
  }
}
