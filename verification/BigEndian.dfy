/** Models base/big_endian.h and big_endian.cc: big-endian numbers, and cursors
    over a buffer that read and write them. */
module BigEndians {
  import opened Arithmetic
  import opened Bits
  import opened Options

  /** sizeof(T) of the unsigned types */
  type width = w: nat | w == 1 || w == 2 || w == 4 || w == 8 witness 1

  /** 256^n */
  function Pow256(n: nat): (p: nat)
    ensures p > 0
  {
    if n == 0 then 1 else 0x100 * Pow256(n - 1)
  }

  lemma {:induction false} Pow256Grows(m: nat, n: nat)
    requires m <= n
    ensures Pow256(m) <= Pow256(n)
    decreases n
  {
    if m < n { Pow256Grows(m, n - 1); }
  }

  /** The plain value of bytes, most significant first. */
  function Value(b: seq<byte>): (v: nat)
  {
    if b == [] then 0 else 0x100 * Value(b[..|b| - 1]) + b[|b| - 1]
  }

  lemma {:induction false} ValueIsBelow(b: seq<byte>)
    ensures Value(b) < Pow256(|b|)
  {
    if b != [] { ValueIsBelow(b[..|b| - 1]); }
  }

  function Bytes(v: nat, n: nat): (b: seq<byte>)
    ensures |b| == n
  {
    if n == 0 then [] else Bytes(v / 0x100, n - 1) + [v % 0x100]
  }

  /** Byte i is the digit that has n - 1 - i digits below it. */
  lemma {:induction false} ByteIsDigit(v: nat, n: nat, i: nat)
    requires i < n
    ensures Bytes(v, n)[i] == v / Pow256(n - 1 - i) % 0x100
  {
    if i < n - 1 {
      ByteIsDigit(v / 0x100, n - 1, i);
      DivideTwice(v, 0x100, Pow256(n - 2 - i));
    }
  }

  lemma {:induction false} BytesRoundTrip(v: nat, n: nat)
    requires v < Pow256(n)
    ensures Value(Bytes(v, n)) == v
  {
    if n > 0 {
      BytesRoundTrip(v / 0x100, n - 1);
      assert Bytes(v, n)[..n - 1] == Bytes(v / 0x100, n - 1);
    }
  }

  // --------------------------------------------------------------- one number

  /** Converting a char to T: a char that is signed and negative is extended. */
  function Widened(c: byte, signed: bool, size: width): (v: nat)
    ensures v < Pow256(size)
  {
    Pow256Grows(1, size);
    if signed && c >= 0x80 then Pow256(size) - 0x100 + c else c
  }

  /** What the accumulator holds after i bytes whose first was extended. */
  ghost function Extended(value: nat, i: nat, size: width, negative: bool): int
  {
    if negative then value + Pow256(size) - Pow256(i) else value
  }

  /** x <<= 8 drops the top byte: after one more byte the extension is again
      just above the bytes read, and after the last one it is gone. */
  lemma ShiftMovesExtension(value: nat, i: nat, size: width, negative: bool)
    requires value < Pow256(i) && i < size
    ensures var x := Extended(value, i, size, negative);
      x >= 0 && x * 0x100 % Pow256(size) == Extended(0x100 * value, i + 1, size, negative)
  {
    Pow256Grows(i + 1, size);
    Pow256Grows(i, size);
    if negative {
      ExtensionShifts(value, Pow256(i), Pow256(size));
    } else {
      RemainderIs(value * 0x100, 0, Pow256(size));
    }
  }

  lemma ExtensionShifts(value: nat, p: nat, m: nat)
    requires value < p && 0x100 * p <= m
    ensures (value + m - p) * 0x100 % m == 0x100 * value + m - 0x100 * p
  {
    var v := (value + m - p) * 0x100;
    assert v == 0xFF * m + (0x100 * value + m - 0x100 * p);
    RemainderIs(v, 0xFF, m);
  }

  /** The value grows by one byte. */
  lemma NextByte(b: seq<byte>, i: nat)
    requires i < |b|
    ensures Value(b[..i + 1]) == 0x100 * Value(b[..i]) + b[i]
  {
    assert b[..i + 1][..i] == b[..i];
  }

  /** x |= c, for an x whose low byte is 0. */
  function OrByte(x: nat, c: byte): nat
    requires x % 0x100 == 0
  {
    x + c
  }

  lemma LowByteIsZero(value: nat, i: nat, size: width, negative: bool)
    requires i > 0 && Extended(0x100 * value, i, size, negative) >= 0
    ensures Extended(0x100 * value, i, size, negative) % 0x100 == 0
  {
    var x := Extended(0x100 * value, i, size, negative);
    var k := value + if negative then Pow256(size - 1) - Pow256(i - 1) else 0;
    assert x == 0x100 * k;
  }

  /** ReadBigEndian: the plain value, whether or not char is signed. */
  method ReadBigEndian(buf: seq<byte>, size: width, charIsSigned: bool) returns (out: nat)
    requires |buf| >= size
    ensures out == Value(buf[..size]) < Pow256(size)
  {
    out := Widened(buf[0], charIsSigned, size);
    ghost var negative := charIsSigned && buf[0] >= 0x80;
    NextByte(buf, 0);
    assert Pow256(1) == 0x100;
    var i := 1;
    while i < size
      invariant 1 <= i <= size
      invariant out == Extended(Value(buf[..i]), i, size, negative)
    {
      ghost var value := Value(buf[..i]);
      ValueIsBelow(buf[..i]);
      ShiftMovesExtension(value, i, size, negative);
      LowByteIsZero(value, i + 1, size, negative);
      NextByte(buf, i);
      out := out * 0x100 % Pow256(size);
      out := OrByte(out, buf[i]);
      i := i + 1;
    }
    ValueIsBelow(buf[..size]);
  }

  lemma LastByte(v: nat, n: nat, tail: seq<byte>)
    requires n > 0
    ensures Bytes(v, n) + tail == Bytes(v / 0x100, n - 1) + ([v % 0x100] + tail)
  {
    assert Bytes(v / 0x100, n - 1) + [v % 0x100] + tail == Bytes(v / 0x100, n - 1) + ([v % 0x100] + tail);
  }

  lemma SetBefore(head: seq<byte>, tail: seq<byte>, rest: seq<byte>, x: byte)
    requires head != []
    ensures (head + tail + rest)[|head| - 1 := x] == head[..|head| - 1] + ([x] + tail) + rest
  {
  }

  /** WriteBigEndian: from the last byte to the first. */
  method WriteBigEndian(buf: array<byte>, at: nat, val: nat, size: width)
    requires at + size <= buf.Length && val < Pow256(size)
    modifies buf
    ensures buf[..] == old(buf[..at]) + Bytes(val, size) + old(buf[at + size..])
  {
    ghost var was, tail: seq<byte> := buf[..], [];
    var v, i := val, 0;
    assert Bytes(val, size) + [] == Bytes(val, size);
    assert was == was[..at + size] + [] + was[at + size..];
    while i < size
      invariant 0 <= i <= size && |tail| == i
      invariant buf[..] == was[..at + size - i] + tail + was[at + size..]
      invariant Bytes(v, size - i) + tail == Bytes(val, size)
    {
      LastByte(v, size - i, tail);
      SetBefore(was[..at + size - i], tail, was[at + size..], v % 0x100);
      assert was[..at + size - i][..at + size - i - 1] == was[..at + size - i - 1];
      buf[at + size - i - 1] := v % 0x100;
      tail := [v % 0x100] + tail;
      v := v / 0x100;
      i := i + 1;
    }
    assert [] + tail == tail;
  }

  // -------------------------------------------------------------------- cursors

  class BigEndianReader {
    const buffer: seq<byte>
    const charIsSigned: bool
    var ptr: nat
    const end: nat

    ghost predicate Valid()
      reads this
    {
      ptr <= end <= |buffer|
    }

    function Remaining(): int
      reads this
    {
      end - ptr
    }

    constructor (buf: seq<byte>, len: nat, charIsSigned: bool)
      requires len <= |buf|
      ensures Valid() && buffer == buf && ptr == 0 && end == len
    {
      buffer, this.charIsSigned, ptr, end := buf, charIsSigned, 0, len;
    }

    /** A failing operation leaves the cursor where it is. */
    method Skip(len: nat) returns (ok: bool)
      requires Valid()
      modifies this
      ensures Valid() && ok == (len <= end - old(ptr)) && ptr == old(ptr) + if ok then len else 0
    {
      if ptr + len > end {
        return false;
      }
      ptr := ptr + len;
      return true;
    }

    /** ReadBytes and ReadPiece */
    method ReadBytes(len: nat) returns (out: Option<seq<byte>>)
      requires Valid()
      modifies this
      ensures Valid() && out.Some? == (len <= end - old(ptr))
      ensures ptr == old(ptr) + if out.Some? then len else 0
      ensures out.Some? ==> out.value == buffer[old(ptr)..old(ptr) + len]
    {
      if ptr + len > end {
        return None;
      }
      out := Some(buffer[ptr..ptr + len]);
      ptr := ptr + len;
    }

    /** ReadU8, ReadU16, ReadU32, ReadU64 */
    method Read(size: width) returns (value: Option<nat>)
      requires Valid()
      modifies this
      ensures Valid() && value.Some? == (size <= end - old(ptr))
      ensures ptr == old(ptr) + if value.Some? then size else 0
      ensures value.Some? ==> value.value == Value(buffer[old(ptr)..old(ptr) + size])
    {
      if ptr + size > end {
        return None;
      }
      var v := ReadBigEndian(buffer[ptr..], size, charIsSigned);
      assert buffer[ptr..][..size] == buffer[ptr..ptr + size];
      value := Some(v);
      ptr := ptr + size;
    }
  }

  class BigEndianWriter {
    const buffer: array<byte>
    var ptr: nat
    const end: nat

    ghost predicate Valid()
      reads this
    {
      ptr <= end <= buffer.Length
    }

    /** What has been written or skipped. */
    function Contents(): seq<byte>
      requires Valid()
      reads this, buffer
    {
      buffer[..ptr]
    }

    constructor (buf: array<byte>, len: nat)
      requires len <= buf.Length
      ensures Valid() && buffer == buf && ptr == 0 && end == len
    {
      buffer, ptr, end := buf, 0, len;
    }

    method Skip(len: nat) returns (ok: bool)
      requires Valid()
      modifies this
      ensures Valid() && ok == (len <= end - old(ptr)) && ptr == old(ptr) + if ok then len else 0
    {
      if ptr + len > end {
        return false;
      }
      ptr := ptr + len;
      return true;
    }

    method WriteBytes(b: seq<byte>) returns (ok: bool)
      requires Valid()
      modifies this, buffer
      ensures Valid() && ok == (|b| <= end - old(ptr))
      ensures Contents() == if ok then old(Contents()) + b else old(Contents())
      ensures buffer[ptr..] == old(buffer[..])[ptr..]
    {
      if ptr + |b| > end {
        return false;
      }
      forall i | ptr <= i < ptr + |b| {
        buffer[i] := b[i - ptr];
      }
      ptr := ptr + |b|;
      return true;
    }

    /** WriteU8, WriteU16, WriteU32, WriteU64 */
    method Write(value: nat, size: width) returns (ok: bool)
      requires Valid() && value < Pow256(size)
      modifies this, buffer
      ensures Valid() && ok == (size <= end - old(ptr))
      ensures Contents() == if ok then old(Contents()) + Bytes(value, size) else old(Contents())
      ensures buffer[ptr..] == old(buffer[..])[ptr..]
    {
      if ptr + size > end {
        return false;
      }
      WriteBigEndian(buffer, ptr, value, size);
      ptr := ptr + size;
      return true;
    }
  }

  // ------------------------------------------------------------------ round trip

  datatype Item = Number(value: nat, size: width) | Raw(bytes: seq<byte>)

  predicate Fits(item: Item) {
    item.Number? ==> item.value < Pow256(item.size)
  }

  function Encoded(item: Item): seq<byte> {
    match item
    case Number(value, size) => Bytes(value, size)
    case Raw(bytes) => bytes
  }

  function AllEncoded(items: seq<Item>): seq<byte> {
    if items == [] then [] else AllEncoded(items[..|items| - 1]) + Encoded(items[|items| - 1])
  }

  lemma NextEncoded(items: seq<Item>, i: nat)
    requires i < |items|
    ensures AllEncoded(items[..i + 1]) == AllEncoded(items[..i]) + Encoded(items[i])
  {
    assert items[..i + 1][..i] == items[..i];
  }

  lemma {:induction false} PrefixEncoded(items: seq<Item>, i: nat)
    requires i <= |items|
    ensures |AllEncoded(items[..i])| <= |AllEncoded(items)|
    ensures AllEncoded(items)[..|AllEncoded(items[..i])|] == AllEncoded(items[..i])
    decreases |items| - i
  {
    if i == |items| {
      assert items[..i] == items;
    } else {
      NextEncoded(items, i);
      PrefixEncoded(items, i + 1);
      var a, b := AllEncoded(items[..i]), AllEncoded(items[..i + 1]);
      assert AllEncoded(items)[..|a|] == AllEncoded(items)[..|b|][..|a|];
    }
  }

  method WriteItem(writer: BigEndianWriter, item: Item) returns (ok: bool)
    requires writer.Valid() && Fits(item)
    modifies writer, writer.buffer
    ensures writer.Valid() && ok == (|Encoded(item)| <= writer.end - old(writer.ptr))
    ensures writer.Contents() == if ok then old(writer.Contents()) + Encoded(item) else old(writer.Contents())
  {
    match item
    case Number(value, size) => ok := writer.Write(value, size);
    case Raw(bytes) => ok := writer.WriteBytes(bytes);
  }

  /** Write the items one after another; stop where one does not fit. */
  method WriteItems(writer: BigEndianWriter, items: seq<Item>) returns (done: nat)
    requires writer.Valid() && writer.ptr == 0 && forall i :: 0 <= i < |items| ==> Fits(items[i])
    modifies writer, writer.buffer
    ensures writer.Valid() && done <= |items|
    ensures writer.Contents() == AllEncoded(items[..done])
    ensures done == |items| <==> |AllEncoded(items)| <= writer.end
  {
    done := 0;
    while done < |items|
      invariant writer.Valid() && done <= |items|
      invariant writer.Contents() == AllEncoded(items[..done])
      decreases |items| - done
    {
      NextEncoded(items, done);
      PrefixEncoded(items, done + 1);
      var ok := WriteItem(writer, items[done]);
      if !ok {
        return;
      }
      done := done + 1;
    }
    assert items[..done] == items;
  }

  /** Where the bytes of item i are. */
  lemma ItemLies(items: seq<Item>, i: nat)
    requires i < |items|
    ensures var o, n := |AllEncoded(items[..i])|, |Encoded(items[i])|;
      o + n <= |AllEncoded(items)| && AllEncoded(items)[o..o + n] == Encoded(items[i])
  {
    NextEncoded(items, i);
    PrefixEncoded(items, i + 1);
    LiesAfter(AllEncoded(items[..i]), Encoded(items[i]), AllEncoded(items));
  }

  lemma LiesAfter(a: seq<byte>, e: seq<byte>, all: seq<byte>)
    requires |a + e| <= |all| && all[..|a + e|] == a + e
    ensures all[|a|..|a| + |e|] == e
  {
    assert all[|a|..|a| + |e|] == (a + e)[|a|..];
  }

  lemma SameSlice(buffer: seq<byte>, all: seq<byte>, o: nat, n: nat)
    requires |all| <= |buffer| && buffer[..|all|] == all && o + n <= |all|
    ensures buffer[o..o + n] == all[o..o + n]
  {
    var s, t := buffer[o..o + n], all[o..o + n];
    forall k | 0 <= k < n ensures s[k] == t[k] {
      assert buffer[..|all|][o + k] == all[o + k];
    }
    assert s == t;
  }

  /** Read an item of the same kind and length. */
  method ReadItem(reader: BigEndianReader, item: Item) returns (back: Item)
    requires reader.Valid() && Fits(item) && reader.ptr + |Encoded(item)| <= reader.end
    requires reader.buffer[reader.ptr..reader.ptr + |Encoded(item)|] == Encoded(item)
    modifies reader
    ensures reader.Valid() && back == item && reader.ptr == old(reader.ptr) + |Encoded(item)|
  {
    match item
    case Number(value, size) =>
      var v := reader.Read(size);
      BytesRoundTrip(value, size);
      back := Number(v.value, size);
    case Raw(bytes) =>
      var b := reader.ReadBytes(|bytes|);
      back := Raw(b.value);
  }

  /** Read items of the same kinds and lengths. */
  method ReadItems(reader: BigEndianReader, items: seq<Item>) returns (back: seq<Item>)
    requires reader.Valid() && reader.ptr == 0 && forall i :: 0 <= i < |items| ==> Fits(items[i])
    requires |AllEncoded(items)| <= reader.end && reader.buffer[..|AllEncoded(items)|] == AllEncoded(items)
    modifies reader
    ensures back == items && reader.ptr == |AllEncoded(items)|
  {
    back := [];
    var i := 0;
    while i < |items|
      invariant reader.Valid() && i <= |items| && back == items[..i]
      invariant reader.ptr == |AllEncoded(items[..i])|
    {
      NextEncoded(items, i);
      ItemLies(items, i);
      SameSlice(reader.buffer, AllEncoded(items), reader.ptr, |Encoded(items[i])|);
      var item := ReadItem(reader, items[i]);
      back := back + [item];
      i := i + 1;
    }
    assert items[..i] == items;
  }

  /** Writing and reading back returns the same values, when there is room,
      whether or not char is signed. */
  method Journey(items: seq<Item>, room: nat, charIsSigned: bool) returns (back: Option<seq<Item>>)
    requires forall i :: 0 <= i < |items| ==> Fits(items[i])
    ensures back == if |AllEncoded(items)| <= room then Some(items) else None
  {
    var buf := new byte[room](_ => 0);
    var writer := new BigEndianWriter(buf, room);
    var done := WriteItems(writer, items);
    if done < |items| {
      return None;
    }
    assert items[..done] == items;
    var reader := new BigEndianReader(buf[..], room, charIsSigned);
    assert buf[..][..writer.ptr] == writer.Contents();
    var all := ReadItems(reader, items);
    back := Some(all);
  }
}
