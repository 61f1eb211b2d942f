/** Models Pickle, PickleSizer and PickleIterator as the mutable objects they
    are, against the format of PickleFormat and PickleImage. */
module Pickles {
  import opened Bits
  import opened Options
  import opened PickleFormat
  import opened PickleImage

  /** kCapacityReadOnly */
  const READ_ONLY: nat := 0xffff_ffff_ffff_ffff

  const UINT32_MAX: nat := 0xffff_ffff

  method StoreBytes(a: array<byte>, at: nat, src: seq<byte>)
    requires at + |src| <= a.Length
    modifies a
    ensures a[..] == old(a[..])[..at] + src + old(a[..])[at + |src|..]
  {
    for i := 0 to |src|
      invariant forall k :: 0 <= k < a.Length ==>
                  a[k] == if at <= k < at + i then src[k - at] else old(a[k])
    {
      a[at + i] := src[i];
    }
  }

  method Reallocated(a: array?<byte>, size: nat) returns (p: array<byte>)
    ensures fresh(p) && p.Length == size
    ensures a != null ==> forall i :: 0 <= i < size && i < a.Length ==> p[i] == a[i]
  {
    p := new byte[size];
    if a != null {
      for i := 0 to if size < a.Length then size else a.Length
        invariant forall k :: 0 <= k < i ==> p[k] == a[k]
      {
        p[i] := a[i];
      }
    }
  }

  class Pickle {
    var header: array?<byte>  // header_, with the payload after it
    var headerSize: nat
    var capacity: nat         // capacity_after_header_
    var writeOffset: nat
    ghost var spent: nat      // the sum of earlier capacities, since construction or the last assignment

    ghost predicate Writable()
      reads this, header
    {
      header != null && WritableAs(header[..]) && spent <= 2 * capacity
    }

    ghost predicate WritableAs(mem: seq<byte>)
      reads this
    {
      && |mem| == headerSize + capacity
      && HEADER <= headerSize && headerSize % 4 == 0
      && capacity % 64 == 0 && capacity <= 4 * UINT32_MAX
      && writeOffset % 4 == 0 && writeOffset <= capacity
      && PayloadField(mem) == writeOffset
    }

    /** payload() up to end_of_payload() */
    ghost function Payload(): seq<byte>
      requires Writable()
      reads this, header
    {
      PayloadIn(header[..])
    }

    ghost function PayloadIn(mem: seq<byte>): seq<byte>
      requires WritableAs(mem)
      reads this
    {
      mem[headerSize..headerSize + writeOffset]
    }

    /** The payload stays within 32 bits, as Pickle checks only in debug builds. */
    ghost predicate HasRoom(n: nat)
      reads this
    {
      writeOffset + Align4(n) <= UINT32_MAX
    }

    /** Pickle(int header_size); 4 gives Pickle(). */
    constructor (size: nat)
      requires HEADER <= size <= 64
      ensures Writable() && Payload() == [] && fresh(header)
      ensures headerSize == Align4(size)
    {
      headerSize := Align4(size);
      capacity, writeOffset, spent := 0, 0, 0;
      header := null;
      new;
      Start();
    }

    method Start()
      requires header == null && capacity == 0 && writeOffset == 0 && spent == 0
      requires HEADER <= headerSize && headerSize % 4 == 0
      modifies this`header, this`capacity, this`spent
      ensures Writable() && Payload() == [] && fresh(header)
    {
      Resize(64);
      StoreSize(0);
    }

    /** realloc: the old bytes up to the smaller size, the rest arbitrary. */
    method Resize(newCapacity: nat)
      requires capacity != READ_ONLY
      requires header != null ==> header.Length == headerSize + capacity
      modifies this`header, this`capacity, this`spent
      ensures capacity == AlignUnit(newCapacity) && spent == old(spent + capacity)
      ensures header != null && fresh(header) && header.Length == headerSize + capacity
      ensures old(header) != null ==>
                forall i :: 0 <= i < header.Length && i < old(header.Length) ==> header[i] == old(header[i])
    {
      spent := spent + capacity;
      capacity := AlignUnit(newCapacity);
      header := Reallocated(header, headerSize + capacity);
    }

    /** header_->payload_size = size */
    method StoreSize(size: nat)
      requires header != null && header.Length >= HEADER && size <= UINT32_MAX
      modifies header
      ensures PayloadField(header[..]) == size
      ensures header[..][4..] == old(header[..])[4..]
    {
      StoreBytes(header, 0, LittleEndian(size, 4));
      StoredField(header[..], size);
    }

    /** Grows to at least newSize bytes of payload, keeping what is there. */
    method GrowTo(newSize: nat, newCapacity: nat)
      requires Writable() && newSize <= AlignUnit(newCapacity) <= 4 * UINT32_MAX
      requires 3 * capacity <= 2 * AlignUnit(newCapacity)
      modifies this`header, this`capacity, this`spent
      ensures Writable() && Payload() == old(Payload()) && fresh(header) && newSize <= capacity
    {
      ghost var was := header[..];
      Resize(newCapacity);
      assert header[..][..|was|] == was by {
        assert headerSize + capacity >= |was|;
      }
      assert header[..][..4] == was[..4];
      assert header[..][headerSize..headerSize + writeOffset] == was[headerSize..headerSize + writeOffset];
    }

    method Reserve(length: nat)
      requires Writable() && HasRoom(length)
      modifies this`header, this`capacity, this`spent
      ensures Writable() && Payload() == old(Payload())
      ensures header == old(header) || fresh(header)
      ensures writeOffset + length <= capacity
    {
      var newSize := writeOffset + Align4(length);
      if newSize > capacity {
        ReserveIsGeometric(capacity, newSize);
        GrowTo(newSize, capacity * 2 + newSize);
      }
    }

    /** WriteBytesCommon over ClaimUninitializedBytesInternal */
    method WriteBytesCommon(data: seq<byte>)
      requires Writable() && HasRoom(|data|)
      modifies this, header
      ensures Writable() && Payload() == old(Payload()) + Field(data)
      ensures header == old(header) || fresh(header)
      ensures headerSize == old(headerSize)
    {
      var dataLen := Align4(|data|);
      var newSize := writeOffset + dataLen;
      if newSize > capacity {
        GrowthIsGeometric(capacity, newSize);
        var doubled := capacity * 2;
        if doubled > 4096 {
          doubled := AlignHeap(doubled) - 64;
        }
        GrowTo(newSize, if doubled > newSize then doubled else newSize);
      }
      Append(data, dataLen - |data|);
    }

    /** Writes data and padding at the write offset and records the new size. */
    method Append(data: seq<byte>, padding: nat)
      requires Writable() && |data| + padding == Align4(|data|)
      requires writeOffset + |data| + padding <= capacity && HasRoom(|data|)
      modifies this`writeOffset, header
      ensures Writable() && Payload() == old(Payload()) + Field(data)
    {
      ghost var was := header[..];
      StoreField(data, padding, headerSize + writeOffset, writeOffset + |data| + padding);
      writeOffset := writeOffset + |data| + padding;
      assert Field(data) == data + Zeros(padding);
    }

    method StoreField(data: seq<byte>, padding: nat, at: nat, size: nat)
      requires header != null && HEADER <= headerSize <= at && at + |data| + padding <= header.Length
      requires size <= UINT32_MAX
      modifies header
      ensures PayloadField(header[..]) == size
      ensures header[..][headerSize..at + |data| + padding] ==
              old(header[..])[headerSize..at] + (data + Zeros(padding))
    {
      ghost var was := header[..];
      StoreBytes(header, at + |data|, Zeros(padding));
      ghost var padded := header[..];
      StoreSize(size);
      ghost var sized := header[..];
      StoreBytes(header, at, data);
      AppendedAs(was, padded, sized, header[..], headerSize, at, data, padding);
    }

    ghost predicate HasRoomFor(v: Value)
      requires Fits(v)
      reads this
    {
      writeOffset + |Encode(v)| <= UINT32_MAX
    }

    /** What every write does: v's encoding is appended, in place or in a new
        allocation. */
    twostate predicate Wrote(v: Value)
      requires Fits(v) && old(Writable())
      reads this, header
    {
      && Writable() && Payload() == old(Payload()) + Encode(v)
      && (header == old(header) || fresh(header)) && headerSize == old(headerSize)
    }

    method WriteInt(i: int32)
      requires Writable() && HasRoomFor(Int(i))
      modifies this, header
      ensures Wrote(Int(i))
    {
      WriteBytesCommon(IntBytes(i));
    }

    method WriteBool(b: bool)
      requires Writable() && HasRoomFor(Bool(b))
      modifies this, header
      ensures Wrote(Bool(b))
    {
      WriteInt(if b then 1 else 0);
    }

    method WriteLong(l: int64)
      requires Writable() && HasRoomFor(Long(l))
      modifies this, header
      ensures Wrote(Long(l))
    {
      WriteBytesCommon(Int64Bytes(l));
    }

    method WriteUInt16(w: uint16)
      requires Writable() && HasRoomFor(UInt16(w))
      modifies this, header
      ensures Wrote(UInt16(w))
    {
      WriteBytesCommon(LittleEndian(w, 2));
    }

    method WriteUInt32(d: uint32)
      requires Writable() && HasRoomFor(UInt32(d))
      modifies this, header
      ensures Wrote(UInt32(d))
    {
      WriteBytesCommon(LittleEndian(d, 4));
    }

    method WriteInt64(q: int64)
      requires Writable() && HasRoomFor(Int64(q))
      modifies this, header
      ensures Wrote(Int64(q))
    {
      WriteBytesCommon(Int64Bytes(q));
    }

    method WriteUInt64(u: uint64)
      requires Writable() && HasRoomFor(UInt64(u))
      modifies this, header
      ensures Wrote(UInt64(u))
    {
      WriteBytesCommon(LittleEndian(u, 8));
    }

    method WriteBytes(b: seq<byte>)
      requires |b| <= INT_MAX && Writable() && HasRoomFor(Bytes(b))
      modifies this, header
      ensures Wrote(Bytes(b))
    {
      WriteBytesCommon(b);
    }

    /** A length, then the bytes, as the three sized writes do. */
    method WriteSized(length: int32, raw: seq<byte>)
      requires Writable() && writeOffset + |Sized(length, raw)| <= UINT32_MAX
      modifies this, header
      ensures Writable() && Payload() == old(Payload()) + Sized(length, raw)
      ensures (header == old(header) || fresh(header)) && headerSize == old(headerSize)
    {
      ghost var p := Payload();
      WriteBytesCommon(IntBytes(length));
      WriteBytesCommon(raw);
      assert p + Field(IntBytes(length)) + Field(raw) == p + Sized(length, raw);
    }

    method WriteString(s: seq<byte>)
      requires |s| <= INT_MAX && Writable() && HasRoomFor(String(s))
      modifies this, header
      ensures Wrote(String(s))
    {
      WriteSized(|s|, s);
    }

    method WriteString16(t: seq<uint16>)
      requires 2 * |t| <= INT_MAX && Writable() && HasRoomFor(String16(t))
      modifies this, header
      ensures Wrote(String16(t))
    {
      WriteSized(|t|, Bytes16(t));
    }

    method WriteData(d: seq<byte>)
      requires |d| <= INT_MAX && Writable() && HasRoomFor(Data(d))
      modifies this, header
      ensures Wrote(Data(d))
    {
      WriteSized(|d|, d);
    }

    method Write(v: Value)
      requires Fits(v) && Writable() && HasRoomFor(v)
      modifies this, header
      ensures Wrote(v)
    {
      match v
      case Bool(b) => WriteBool(b);
      case Int(i) => WriteInt(i);
      case Long(l) => WriteLong(l);
      case UInt16(w) => WriteUInt16(w);
      case UInt32(d) => WriteUInt32(d);
      case Int64(q) => WriteInt64(q);
      case UInt64(u) => WriteUInt64(u);
      case String(s) => WriteString(s);
      case String16(t) => WriteString16(t);
      case Data(d) => WriteData(d);
      case Bytes(b) => WriteBytes(b);
    }

    // ----------------------------------------- pickles over someone else's bytes

    /** Header and payload lie inside the data. */
    ghost predicate Readable()
      reads this, header
    {
      header != null ==>
        HEADER <= headerSize && header.Length >= HEADER && headerSize + PayloadField(header[..]) <= header.Length
    }

    /** What an iterator will read. */
    function ReadablePayload(): seq<byte>
      requires Readable()
      reads this, header
    {
      if header == null then [] else header[headerSize..headerSize + PayloadField(header[..])]
    }

    /** Pickle(const char* data, int data_len) */
    constructor ReadOnly(data: array<byte>, dataLen: int32)
      requires dataLen <= data.Length
      ensures headerSize == DeducedHeader(data[..], dataLen)
      ensures header == if headerSize == 0 then null else data
      ensures Readable() && capacity == READ_ONLY
      ensures header != null ==> headerSize + |ReadablePayload()| == dataLen
    {
      AcceptedIffHeaderFits(data[..], dataLen);
      headerSize := DeducedHeader(data[..], dataLen);
      header := if DeducedHeader(data[..], dataLen) == 0 then null else data;
      capacity := READ_ONLY;
      writeOffset, spent := 0, 0;
    }

    /** This pickle is a deep copy of other.  If other can be written, so can
        this; a copy of a read-only pickle has its offset at 0, so it can only be
        read. */
    ghost predicate IsCopyOf(other: Pickle)
      reads this, header, other, other.header
    {
      && Readable() && other.Readable() && header != null && header != other.header
      && headerSize == other.headerSize && writeOffset == other.writeOffset
      && ReadablePayload() == other.ReadablePayload()
      && (other.Writable() ==> Writable() && Payload() == other.Payload())
    }

    /** Pickle(const Pickle&), of a pickle that was not rejected */
    constructor Copy(other: Pickle)
      requires other.Readable() && other.header != null
      ensures IsCopyOf(other) && fresh(header)
    {
      headerSize, writeOffset := other.headerSize, other.writeOffset;
      header, capacity, spent := null, 0, 0;
      new;
      Resize(PayloadField(other.header[..]));
      CopyImage(other);
    }

    /** memcpy of header and payload. */
    method CopyImage(other: Pickle)
      requires other.Readable() && other.header != null && header != null && header != other.header && this != other
      requires headerSize == other.headerSize && writeOffset == other.writeOffset && spent <= 2 * capacity
      requires capacity == AlignUnit(PayloadField(other.header[..])) && header.Length == headerSize + capacity
      modifies header
      ensures IsCopyOf(other)
    {
      var n := headerSize + PayloadField(other.header[..]);
      StoreBytes(header, 0, other.header[..n]);
      assert header[..][..n] == other.header[..][..n];
      SameField(header[..], other.header[..], n);
      assert header[..][headerSize..n] == header[..][..n][headerSize..];
      assert other.header[..][headerSize..n] == other.header[..][..n][headerSize..];
    }

    /** operator=: whatever this pickle held, it becomes a deep copy; assigned
        to itself, it stays as it is. */
    method Assign(other: Pickle)
      requires this != other ==> other.Readable() && other.header != null && header != other.header
      requires this != other ==> capacity == READ_ONLY || header == null || header.Length == headerSize + capacity
      modifies this
      ensures this == other ==> unchanged(this)
      ensures this != other ==> IsCopyOf(other) && fresh(header)
    {
      if this == other {
        return;
      }
      if capacity == READ_ONLY {
        header := null;
        capacity := 0;
      }
      if headerSize != other.headerSize {
        header := null;
        headerSize := other.headerSize;
      }
      Resize(PayloadField(other.header[..]));
      spent := 0;
      writeOffset := other.writeOffset;
      CopyImage(other);
    }

    /** data() and size() */
    method Export() returns (data: array<byte>)
      requires Writable()
      ensures fresh(data) && data[..] == header[..][..headerSize + writeOffset]
      ensures IsImage(headerSize, data[..])
    {
      data := Reallocated(header, headerSize + writeOffset);
      assert data[..] == header[..][..headerSize + writeOffset];
      SameField(data[..], header[..], headerSize + writeOffset);
    }
  }

  lemma SameField(a: seq<byte>, b: seq<byte>, n: nat)
    requires HEADER <= n <= |a| && n <= |b| && a[..n] == b[..n]
    ensures PayloadField(a) == PayloadField(b)
  {
    assert forall i :: 0 <= i < HEADER ==> a[i] == a[..n][i] && b[i] == b[..n][i];
  }

  /** The three stores of an append, as one. */
  lemma AppendedAs(was: seq<byte>, padded: seq<byte>, sized: seq<byte>, now: seq<byte>,
                   start: nat, at: nat, data: seq<byte>, padding: nat)
    requires HEADER <= start <= at && at + |data| + padding <= |was|
    requires padded == was[..at + |data|] + Zeros(padding) + was[at + |data| + padding..]
    requires |sized| == |padded| && sized[4..] == padded[4..]
    requires now == sized[..at] + data + sized[at + |data|..]
    ensures |now| == |was| && PayloadField(now) == PayloadField(sized)
    ensures now[start..at + |data| + padding] == was[start..at] + (data + Zeros(padding))
  {
    var end := at + |data| + padding;
    forall i | HEADER <= i < |was| ensures sized[i] == padded[i] {
      assert sized[i] == sized[4..][i - 4] == padded[4..][i - 4];
    }
    assert forall i :: HEADER <= i < at ==> now[i] == sized[i] && padded[i] == was[i];
    assert forall i :: at + |data| <= i < end ==> now[i] == sized[i] && padded[i] == 0;
    assert now[start..end] == now[start..at] + (now[at..at + |data|] + now[at + |data|..end]);
    assert now[start..at] == was[start..at];
    assert now[at..at + |data|] == data;
    assert now[at + |data|..end] == Zeros(padding);
  }

  // ------------------------------------------------------------- PickleSizer

  class PickleSizer {
    var payloadSize: nat

    constructor ()
      ensures payloadSize == 0
    {
      payloadSize := 0;
    }

    method AddBytes(length: nat)
      modifies this
      ensures payloadSize == old(payloadSize) + Align4(length)
    {
      payloadSize := payloadSize + Align4(length);
    }

    /** AddString, AddString16 and AddData: an int and the bytes. */
    method AddSized(length: nat)
      modifies this
      ensures payloadSize == old(payloadSize) + 4 + Align4(length)
    {
      AddBytes(4);
      AddBytes(length);
    }

    /** The AddX that goes with the WriteX of v. */
    method Add(v: Value)
      requires Fits(v)
      modifies this
      ensures payloadSize == old(payloadSize) + |Encode(v)|
    {
      match v
      case Bool(_) => AddBytes(4);
      case Int(_) => AddBytes(4);
      case Long(_) => AddBytes(8);
      case UInt16(_) => AddBytes(2);
      case UInt32(_) => AddBytes(4);
      case Int64(_) => AddBytes(8);
      case UInt64(_) => AddBytes(8);
      case String(s) => AddSized(|s|);
      case String16(t) => AddSized(|t| * 2);
      case Data(d) => AddSized(|d|);
      case Bytes(b) => AddBytes(|b|);
    }
  }

  // ---------------------------------------------------------- PickleIterator

  class PickleIterator {
    const payload: seq<byte>  // the pickle's payload, which must outlive the iterator
    var readIndex: nat
    const endIndex: nat

    ghost predicate Valid()
      reads this
    {
      readIndex <= endIndex == |payload|
    }

    function State(): Reader
      reads this
    {
      Reader(payload, readIndex)
    }

    constructor (pickle: Pickle)
      requires pickle.Readable()
      ensures Valid() && State() == Reader(pickle.ReadablePayload(), 0)
    {
      payload := pickle.ReadablePayload();
      endIndex := |pickle.ReadablePayload()|;
      readIndex := 0;
    }

    method Advance(size: nat)
      requires Valid()
      modifies this
      ensures Valid() && State() == PickleFormat.Advance(old(State()), size)
    {
      var aligned := Align4(size);
      if endIndex - readIndex < aligned {
        readIndex := endIndex;
      } else {
        readIndex := readIndex + aligned;
      }
    }

    /** GetReadPointerAndAdvance(int): the bytes the pointer leads to. */
    method GetReadPointerAndAdvance(numBytes: int) returns (p: Option<seq<byte>>)
      requires Valid()
      modifies this
      ensures Valid() && (p, State()) == ReadRaw(old(State()), numBytes)
    {
      if numBytes < 0 || endIndex - readIndex < numBytes {
        readIndex := endIndex;
        return None;
      }
      p := Some(payload[readIndex..readIndex + numBytes]);
      Advance(numBytes);
    }

    /** GetReadPointerAndAdvance(int, size_t): an overflowing count reads nothing. */
    method GetElementsAndAdvance(count: int32, size: nat) returns (p: Option<seq<byte>>)
      requires Valid()
      modifies this
      ensures Valid()
      ensures CountOverflows(count, size) ==> p == None && State() == old(State())
      ensures !CountOverflows(count, size) ==> (p, State()) == ReadRaw(old(State()), count * size)
    {
      if CountOverflows(count, size) {
        return None;
      }
      p := GetReadPointerAndAdvance(count * size);
    }

    /** ReadBuiltinType: bool, the integers. */
    method ReadBuiltin(k: Kind) returns (v: Option<Value>)
      requires Valid() && Width(k) > 0
      modifies this
      ensures Valid() && (v, State()) == Read(old(State()), k)
    {
      var p := GetReadPointerAndAdvance(Width(k));
      v := if p.None? then None else Some(Decoded(k, p.value));
    }

    method ReadInt() returns (n: Option<int32>)
      requires Valid()
      modifies this
      ensures Valid() && (n, State()) == ReadLength(old(State()))
    {
      var p := GetReadPointerAndAdvance(4);
      if p.None? {
        return None;
      }
      Widths();
      FromLittleEndianBound(p.value);
      n := Some(ToSigned32(FromLittleEndian(p.value)));
    }

    /** ReadString, ReadStringPiece */
    method ReadString() returns (v: Option<Value>)
      requires Valid()
      modifies this
      ensures Valid() && (v, State()) == Read(old(State()), KString)
    {
      var len := ReadInt();
      if len.None? {
        return None;
      }
      var p := GetReadPointerAndAdvance(len.value);
      v := if p.None? then None else Some(String(p.value));
    }

    /** ReadString16, ReadStringPiece16 */
    method ReadString16() returns (v: Option<Value>)
      requires Valid()
      modifies this
      ensures Valid() && (v, State()) == Read(old(State()), KString16)
    {
      var len := ReadInt();
      if len.None? {
        return None;
      }
      var p := GetElementsAndAdvance(len.value, 2);
      v := if p.None? then None else Some(String16(Chars16(p.value)));
    }

    method ReadBytes(length: int32) returns (v: Option<Value>)
      requires Valid()
      modifies this
      ensures Valid() && (v, State()) == Read(old(State()), KBytes(length))
    {
      var p := GetReadPointerAndAdvance(length);
      v := if p.None? then None else Some(Bytes(p.value));
    }

    method ReadData() returns (v: Option<Value>)
      requires Valid()
      modifies this
      ensures Valid() && (v, State()) == Read(old(State()), KData)
    {
      var len := ReadInt();
      if len.None? {
        return None;
      }
      var b := ReadBytes(len.value);
      v := if b.None? then None else Some(Data(b.value.bytes));
    }

    method ReadNext(k: Kind) returns (v: Option<Value>)
      requires Valid()
      modifies this
      ensures Valid() && (v, State()) == Read(old(State()), k)
    {
      match k
      case KString => v := ReadString();
      case KString16 => v := ReadString16();
      case KData => v := ReadData();
      case KBytes(n) => v := ReadBytes(n);
      case _ => v := ReadBuiltin(k);
    }
  }

  // --------------------------------------------------------- the whole journey

  /** Writes values to a fresh pickle, whose payload is then their encoding and
      whose size a PickleSizer fed the same values predicts. */
  method WriteAll(headerSize: nat, vs: seq<Value>) returns (pickle: Pickle, predicted: nat)
    requires HEADER <= headerSize <= 64 && AllFit(vs) && |EncodeAll(vs)| <= UINT32_MAX
    ensures fresh(pickle) && fresh(pickle.header) && pickle.Writable()
    ensures pickle.headerSize == Align4(headerSize) && pickle.Payload() == EncodeAll(vs)
    ensures predicted == |EncodeAll(vs)| == pickle.writeOffset
  {
    pickle := new Pickle(headerSize);
    var sizer := new PickleSizer();
    for i := 0 to |vs|
      invariant fresh(pickle) && fresh(pickle.header) && pickle.Writable() && fresh(sizer)
      invariant pickle.headerSize == Align4(headerSize)
      invariant AllFit(vs[..i]) && pickle.Payload() == EncodeAll(vs[..i])
      invariant sizer.payloadSize == |EncodeAll(vs[..i])|
    {
      NextPrefix(vs, i);
      pickle.Write(vs[i]);
      sizer.Add(vs[i]);
    }
    assert vs[..|vs|] == vs;
    predicted := sizer.payloadSize;
  }

  lemma NextPrefix(vs: seq<Value>, i: nat)
    requires AllFit(vs) && i < |vs|
    ensures AllFit(vs[..i]) && AllFit(vs[..i + 1])
    ensures EncodeAll(vs[..i + 1]) == EncodeAll(vs[..i]) + Encode(vs[i])
    ensures |EncodeAll(vs[..i + 1])| <= |EncodeAll(vs)|
  {
    EncodeAllAppends(vs[..i], vs[i]);
    assert vs[..i] + [vs[i]] == vs[..i + 1];
    PrefixIsShorter(vs, i + 1);
  }

  lemma {:induction false} PrefixIsShorter(vs: seq<Value>, i: nat)
    requires AllFit(vs) && i <= |vs|
    ensures AllFit(vs[..i]) && |EncodeAll(vs[..i])| <= |EncodeAll(vs)|
    decreases |vs| - i
  {
    if i == |vs| {
      assert vs[..i] == vs;
    } else {
      PrefixIsShorter(vs, i + 1);
      EncodeAllAppends(vs[..i], vs[i]);
      assert vs[..i] + [vs[i]] == vs[..i + 1];
    }
  }

  /** Reads these types in order; in any payload, the index stays inside. */
  method ReadValues(it: PickleIterator, ks: seq<Kind>) returns (vs: seq<Option<Value>>)
    requires it.Valid()
    modifies it
    ensures it.Valid() && (vs, it.State()) == ReadAll(old(it.State()), ks)
  {
    vs := [];
    assert ks[0..] == ks && [] + ReadAll(it.State(), ks).0 == ReadAll(it.State(), ks).0;
    for i := 0 to |ks|
      invariant it.Valid() && |vs| == i
      invariant var (rest, end) := ReadAll(it.State(), ks[i..]);
        (vs + rest, end) == ReadAll(old(it.State()), ks)
    {
      ghost var before := it.State();
      var v := it.ReadNext(ks[i]);
      assert ks[i..][1..] == ks[i + 1..];
      ghost var rest := ReadAll(it.State(), ks[i + 1..]).0;
      assert vs + ([v] + rest) == (vs + [v]) + rest;
      vs := vs + [v];
    }
    assert ks[|ks|..] == [] && vs + [] == vs;
  }

  /** Write, export the bytes, rebuild from the bytes alone and read the same
      types in order: the same values come back and nothing is left. */
  method Journey(headerSize: nat, vs: seq<Value>) returns (back: seq<Option<Value>>, left: nat)
    requires HEADER <= headerSize <= 64 && AllFit(vs) && |EncodeAll(vs)| + 64 <= INT_MAX
    ensures back == Somes(vs) && left == 0
  {
    var pickle, _ := WriteAll(headerSize, vs);
    var data := pickle.Export();
    ImageIsAccepted(pickle.headerSize, data[..]);
    var received := new Pickle.ReadOnly(data, data.Length);
    assert received.ReadablePayload() == EncodeAll(vs);
    var it := new PickleIterator(received);
    RoundTrip(it.State(), vs);
    back := ReadValues(it, Kinds(vs));
    left := it.endIndex - it.readIndex;
  }
}
