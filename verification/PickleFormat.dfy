/** The byte format that Pickle writes and PickleIterator reads: every field is
    padded to four bytes, variable-length ones are preceded by their length. */
module PickleFormat {
  import opened Bits
  import opened Options

  const INT_MAX: int := 0x7fff_ffff

  type int32 = x: int | -0x8000_0000 <= x < 0x8000_0000
  type int64 = x: int | -0x8000_0000_0000_0000 <= x < 0x8000_0000_0000_0000
  type uint16 = x: int | 0 <= x < 0x1_0000
  type uint32 = x: int | 0 <= x < 0x1_0000_0000
  type uint64 = x: int | 0 <= x < 0x1_0000_0000_0000_0000

  /** What one typed Write call writes.  Bytes carries no length of its own. */
  datatype Value =
    | Bool(b: bool) | Int(i: int32) | Long(l: int64) | UInt16(w: uint16) | UInt32(d: uint32)
    | Int64(q: int64) | UInt64(u: uint64)
    | String(s: seq<byte>) | String16(t: seq<uint16>) | Data(data: seq<byte>) | Bytes(bytes: seq<byte>)

  /** What one typed Read call asks for. */
  datatype Kind =
    | KBool | KInt | KLong | KUInt16 | KUInt32 | KInt64 | KUInt64 | KString | KString16 | KData | KBytes(n: int32)

  /** Lengths fit in int, as the static_cast<int> calls need. */
  predicate Fits(v: Value) {
    match v
    case String(s) => |s| <= INT_MAX
    case String16(t) => 2 * |t| <= INT_MAX
    case Data(d) => |d| <= INT_MAX
    case Bytes(b) => |b| <= INT_MAX
    case _ => true
  }

  function KindOf(v: Value): Kind
    requires Fits(v)
  {
    match v
    case Bool(_) => KBool
    case Int(_) => KInt
    case Long(_) => KLong
    case UInt16(_) => KUInt16
    case UInt32(_) => KUInt32
    case Int64(_) => KInt64
    case UInt64(_) => KUInt64
    case String(_) => KString
    case String16(_) => KString16
    case Data(_) => KData
    case Bytes(b) => KBytes(|b|)
  }

  // ------------------------------------------------------------------ writing

  function Zeros(n: nat): (z: seq<byte>)
    ensures |z| == n && forall i :: 0 <= i < n ==> z[i] == 0
  {
    seq(n, _ => 0)
  }

  function Align4(n: nat): (r: nat)
    ensures n <= r < n + 4 && r % 4 == 0
  {
    4 * ((n + 3) / 4)
  }

  /** Raw bytes with zero padding to a multiple of four. */
  function Field(raw: seq<byte>): (f: seq<byte>)
    ensures |f| == Align4(|raw|) && raw <= f
  {
    raw + Zeros(Align4(|raw|) - |raw|)
  }

  lemma Widths()
    ensures Pow2(8) == 0x100 && Pow2(16) == 0x1_0000
    ensures Pow2(32) == 0x1_0000_0000 && Pow2(64) == 0x1_0000_0000_0000_0000
  {
    Pow2Of32();
    Pow2Adds(8, 8);
    Pow2Adds(32, 32);
  }

  function IntBytes(v: int32): (b: seq<byte>)
    ensures |b| == 4
  {
    LittleEndian(if v < 0 then v + 0x1_0000_0000 else v, 4)
  }

  function Int64Bytes(v: int64): (b: seq<byte>)
    ensures |b| == 8
  {
    LittleEndian(if v < 0 then v + 0x1_0000_0000_0000_0000 else v, 8)
  }

  function Bytes16(t: seq<uint16>): (b: seq<byte>)
    ensures |b| == 2 * |t|
  {
    if t == [] then [] else LittleEndian(t[0], 2) + Bytes16(t[1..])
  }

  /** The machine's bytes of a fixed-width value. */
  function Raw(v: Value): (b: seq<byte>)
    ensures |b| <= 8
  {
    match v
    case Bool(b) => IntBytes(if b then 1 else 0)
    case Int(i) => IntBytes(i)
    case Long(l) => Int64Bytes(l)
    case UInt16(w) => LittleEndian(w, 2)
    case UInt32(d) => LittleEndian(d, 4)
    case Int64(q) => Int64Bytes(q)
    case UInt64(u) => LittleEndian(u, 8)
    case _ => []
  }

  function Sized(length: int32, raw: seq<byte>): seq<byte> {
    Field(IntBytes(length)) + Field(raw)
  }

  function Encode(v: Value): seq<byte>
    requires Fits(v)
  {
    match v
    case String(s) => Sized(|s|, s)
    case String16(t) => Sized(|t|, Bytes16(t))
    case Data(d) => Sized(|d|, d)
    case Bytes(b) => Field(b)
    case _ => Field(Raw(v))
  }

  // ------------------------------------------------ the format, byte by byte

  /** Bytes from at on are the digits of x, the lowest first. */
  ghost predicate IsNumber(b: seq<byte>, at: nat, width: nat, x: nat) {
    at + width <= |b| && forall i :: 0 <= i < width ==> b[at + i] == x / Pow2(8 * i) % 0x100
  }

  /** From here on only padding, to a multiple of four. */
  ghost predicate PaddedFrom(b: seq<byte>, at: nat) {
    at <= |b| < at + 4 && |b| % 4 == 0 && forall i :: at <= i < |b| ==> b[i] == 0
  }

  lemma NumberIs(x: nat, width: nat)
    ensures IsNumber(LittleEndian(x, width), 0, width, x)
  {
    forall i | 0 <= i < width ensures LittleEndian(x, width)[0 + i] == x / Pow2(8 * i) % 0x100 {
      LittleEndianDigit(x, width, i);
    }
  }

  lemma NumberInside(b: seq<byte>, at: nat, width: nat, x: nat)
    requires at + width <= |b| && b[at..at + width] == LittleEndian(x, width)
    ensures IsNumber(b, at, width, x)
  {
    NumberIs(x, width);
    forall i | 0 <= i < width ensures b[at + i] == x / Pow2(8 * i) % 0x100 {
      assert b[at..at + width][i] == b[at + i];
    }
  }

  /** The number that a fixed-width value is stored as: negative ones as in two's
      complement, a bool as 0 or 1. */
  function Stored(v: Value): nat {
    match v
    case Bool(b) => if b then 1 else 0
    case Int(i) => if i < 0 then i + 0x1_0000_0000 else i
    case Long(l) => if l < 0 then l + 0x1_0000_0000_0000_0000 else l
    case UInt16(w) => w
    case UInt32(d) => d
    case Int64(q) => if q < 0 then q + 0x1_0000_0000_0000_0000 else q
    case UInt64(u) => u
    case _ => 0
  }

  function StoredWidth(v: Value): nat {
    match v
    case UInt16(_) => 2
    case Long(_) => 8
    case Int64(_) => 8
    case UInt64(_) => 8
    case _ => 4
  }

  predicate IsFixed(v: Value) {
    !v.String? && !v.String16? && !v.Data? && !v.Bytes?
  }

  lemma FieldIs(raw: seq<byte>)
    ensures var f := Field(raw); f[..|raw|] == raw && PaddedFrom(f, |raw|)
  {
  }

  lemma TwoBytes(x: uint16)
    ensures LittleEndian(x, 2) == [x % 0x100, x / 0x100]
  {
    var high := x / 0x100;
    assert LittleEndian(high, 1) == [high] + LittleEndian(high / 0x100, 0);
  }

  lemma {:induction false} Characters(t: seq<uint16>, i: nat)
    requires i < |t|
    ensures Bytes16(t)[2 * i] == t[i] % 0x100 && Bytes16(t)[2 * i + 1] == t[i] / 0x100
  {
    var first, rest := LittleEndian(t[0], 2), Bytes16(t[1..]);
    if i == 0 {
      TwoBytes(t[0]);
    } else {
      Characters(t[1..], i - 1);
      assert (first + rest)[2 * i] == rest[2 * (i - 1)] && (first + rest)[2 * i + 1] == rest[2 * (i - 1) + 1];
    }
  }

  lemma FixedLayout(v: Value)
    requires Fits(v) && IsFixed(v)
    ensures IsNumber(Encode(v), 0, StoredWidth(v), Stored(v)) && PaddedFrom(Encode(v), StoredWidth(v))
  {
    assert Raw(v) == LittleEndian(Stored(v), StoredWidth(v));
    FieldIs(Raw(v));
    NumberInside(Encode(v), 0, StoredWidth(v), Stored(v));
  }

  lemma SizedLayout(length: int32, raw: seq<byte>)
    requires length >= 0
    ensures var b := Sized(length, raw);
      && IsNumber(b, 0, 4, length) && 4 + |raw| <= |b|
      && b[4..4 + |raw|] == raw && PaddedFrom(b, 4 + |raw|)
  {
    var head, tail := Field(IntBytes(length)), Field(raw);
    FieldIs(IntBytes(length));
    FieldIs(raw);
    assert |head| == 4 && (head + tail)[4..] == tail;
    assert (head + tail)[0..4] == head[..4] == LittleEndian(length, 4);
    NumberInside(head + tail, 0, 4, length);
    assert (head + tail)[4..4 + |raw|] == tail[..|raw|];
    forall i | 4 + |raw| <= i < |head + tail| ensures (head + tail)[i] == 0 {
      assert (head + tail)[i] == tail[i - 4];
    }
  }

  /** Numbers are their digits, the lowest first, over their width; strings and
      data are a length in four bytes, characters for string16, and then the
      bytes, two for each 16-bit character; everything is padded with zeros to a
      multiple of four. */
  lemma Layout(v: Value)
    requires Fits(v)
    ensures var b := Encode(v);
      match v
      case String(s) => IsNumber(b, 0, 4, |s|) && 4 + |s| <= |b| && b[4..4 + |s|] == s && PaddedFrom(b, 4 + |s|)
      case Data(d) => IsNumber(b, 0, 4, |d|) && 4 + |d| <= |b| && b[4..4 + |d|] == d && PaddedFrom(b, 4 + |d|)
      case Bytes(d) => |d| <= |b| && b[..|d|] == d && PaddedFrom(b, |d|)
      case String16(t) =>
        && IsNumber(b, 0, 4, |t|) && PaddedFrom(b, 4 + 2 * |t|)
        && forall i :: 0 <= i < |t| ==> b[4 + 2 * i] == t[i] % 0x100 && b[4 + 2 * i + 1] == t[i] / 0x100
      case _ => IsNumber(b, 0, StoredWidth(v), Stored(v)) && PaddedFrom(b, StoredWidth(v))
  {
    match v
    case String(s) => SizedLayout(|s|, s);
    case Data(d) => SizedLayout(|d|, d);
    case Bytes(d) => FieldIs(d);
    case String16(t) => CharactersLayout(t);
    case _ => FixedLayout(v);
  }

  lemma CharactersLayout(t: seq<uint16>)
    requires 2 * |t| <= INT_MAX
    ensures var b := Sized(|t|, Bytes16(t));
      && IsNumber(b, 0, 4, |t|) && PaddedFrom(b, 4 + 2 * |t|)
      && forall i :: 0 <= i < |t| ==> b[4 + 2 * i] == t[i] % 0x100 && b[4 + 2 * i + 1] == t[i] / 0x100
  {
    var b, raw := Sized(|t|, Bytes16(t)), Bytes16(t);
    SizedLayout(|t|, raw);
    forall i | 0 <= i < |t| ensures b[4 + 2 * i] == t[i] % 0x100 && b[4 + 2 * i + 1] == t[i] / 0x100 {
      CharacterInside(b, raw, t, i);
    }
  }

  lemma CharacterInside(b: seq<byte>, raw: seq<byte>, t: seq<uint16>, i: nat)
    requires i < |t| && raw == Bytes16(t) && 4 + |raw| <= |b| && b[4..4 + |raw|] == raw
    ensures b[4 + 2 * i] == t[i] % 0x100 && b[4 + 2 * i + 1] == t[i] / 0x100
  {
    Characters(t, i);
    assert raw[2 * i] == b[4 + 2 * i] && raw[2 * i + 1] == b[4 + (2 * i + 1)];
  }

  predicate AllFit(vs: seq<Value>) {
    forall v :: v in vs ==> Fits(v)
  }

  function Encodings(vs: seq<Value>): (es: seq<seq<byte>>)
    requires AllFit(vs)
    ensures |es| == |vs|
  {
    seq(|vs|, i requires 0 <= i < |vs| => Encode(vs[i]))
  }

  function Flat(parts: seq<seq<byte>>): seq<byte> {
    if parts == [] then [] else parts[0] + Flat(parts[1..])
  }

  lemma {:induction false} FlatAppends(parts: seq<seq<byte>>, last: seq<byte>)
    ensures Flat(parts + [last]) == Flat(parts) + last
  {
    if parts == [] {
      assert Flat([last]) == last + Flat([]) == last;
      assert parts + [last] == [last];
    } else {
      assert (parts + [last])[1..] == parts[1..] + [last];
      FlatAppends(parts[1..], last);
      assert parts[0] + (Flat(parts[1..]) + last) == (parts[0] + Flat(parts[1..])) + last;
    }
  }

  /** The payload of these writes. */
  function EncodeAll(vs: seq<Value>): seq<byte>
    requires AllFit(vs)
  {
    Flat(Encodings(vs))
  }

  lemma EncodeAllAppends(vs: seq<Value>, v: Value)
    requires AllFit(vs) && Fits(v)
    ensures AllFit(vs + [v]) && EncodeAll(vs + [v]) == EncodeAll(vs) + Encode(v)
  {
    FlatAppends(Encodings(vs), Encode(v));
    assert Encodings(vs + [v]) == Encodings(vs) + [Encode(v)];
  }

  // ------------------------------------------------------------------ reading

  datatype Reader = Reader(payload: seq<byte>, pos: nat)

  /** read_index_ <= end_index_ */
  predicate Sound(r: Reader) {
    r.pos <= |r.payload|
  }

  function Exhausted(r: Reader): Reader {
    r.(pos := |r.payload|)
  }

  /** Never past the end, even over missing padding. */
  function Advance(r: Reader, n: nat): (r': Reader)
    requires Sound(r)
    ensures Sound(r') && r'.payload == r.payload && r.pos <= r'.pos
  {
    if |r.payload| - r.pos < Align4(n) then Exhausted(r) else r.(pos := r.pos + Align4(n))
  }

  /** GetReadPointerAndAdvance: the bytes at the read index, or exhaustion. */
  function ReadRaw(r: Reader, n: int): (p: (Option<seq<byte>>, Reader))
    requires Sound(r)
    ensures Sound(p.1) && p.1.payload == r.payload && r.pos <= p.1.pos
    ensures p.0.Some? <==> 0 <= n <= |r.payload| - r.pos
    ensures p.0.Some? ==> p.0.value == r.payload[r.pos..r.pos + n]
    ensures p.0.None? ==> p.1 == Exhausted(r)
  {
    if n < 0 || |r.payload| - r.pos < n then (None, Exhausted(r))
    else (Some(r.payload[r.pos..r.pos + n]), Advance(r, n))
  }

  function ToSigned32(v: nat): int {
    if v >= 0x8000_0000 then v - 0x1_0000_0000 else v
  }

  function ToSigned64(v: nat): int {
    if v >= 0x8000_0000_0000_0000 then v - 0x1_0000_0000_0000_0000 else v
  }

  function Chars16(b: seq<byte>): (t: seq<uint16>)
    ensures |t| == |b| / 2
  {
    if |b| < 2 then [] else
      Widths();
      FromLittleEndianBound(b[..2]);
      [FromLittleEndian(b[..2])] + Chars16(b[2..])
  }

  /** The value a fixed-width read makes of its bytes. */
  function Decoded(k: Kind, b: seq<byte>): Value
    requires Width(k) == |b| > 0
  {
    Widths();
    FromLittleEndianBound(b);
    match k
    case KBool => Bool(b[0] != 0)
    case KInt => Int(ToSigned32(FromLittleEndian(b)))
    case KLong => Long(ToSigned64(FromLittleEndian(b)))
    case KUInt16 => UInt16(FromLittleEndian(b))
    case KUInt32 => UInt32(FromLittleEndian(b))
    case KInt64 => Int64(ToSigned64(FromLittleEndian(b)))
    case _ => UInt64(FromLittleEndian(b))
  }

  /** sizeof, or 0 where the width is not fixed. */
  function Width(k: Kind): nat {
    match k
    case KBool => 1
    case KInt => 4
    case KLong => 8
    case KUInt16 => 2
    case KUInt32 => 4
    case KInt64 => 8
    case KUInt64 => 8
    case _ => 0
  }

  /** ReadInt as ReadString and its kin use it. */
  function ReadLength(r: Reader): (p: (Option<int32>, Reader))
    requires Sound(r)
    ensures Sound(p.1) && p.1.payload == r.payload && r.pos <= p.1.pos
    ensures p.0.None? ==> p.1 == Exhausted(r)
  {
    var (b, r1) := ReadRaw(r, 4);
    if b.None? then (None, r1)
    else
      Widths();
      FromLittleEndianBound(b.value);
      (Some(ToSigned32(FromLittleEndian(b.value))), r1)
  }

  /** num_elements * size_element does not fit in 32 bits. */
  predicate CountOverflows(count: int32, size: nat) {
    !(-0x8000_0000 <= count * size <= INT_MAX)
  }

  /** One typed Read call. */
  function Read(r: Reader, k: Kind): (p: (Option<Value>, Reader))
    requires Sound(r)
    ensures Sound(p.1) && p.1.payload == r.payload && r.pos <= p.1.pos
  {
    match k
    case KBytes(n) =>
      var (b, r1) := ReadRaw(r, n);
      (if b.None? then None else Some(Bytes(b.value)), r1)
    case KString =>
      var (n, r1) := ReadLength(r);
      if n.None? then (None, r1)
      else var (b, r2) := ReadRaw(r1, n.value); (if b.None? then None else Some(String(b.value)), r2)
    case KData =>
      var (n, r1) := ReadLength(r);
      if n.None? then (None, r1)
      else var (b, r2) := ReadRaw(r1, n.value); (if b.None? then None else Some(Data(b.value)), r2)
    case KString16 =>
      var (n, r1) := ReadLength(r);
      if n.None? || CountOverflows(n.value, 2) then (None, r1)
      else var (b, r2) := ReadRaw(r1, n.value * 2); (if b.None? then None else Some(String16(Chars16(b.value))), r2)
    case _ =>
      var (b, r1) := ReadRaw(r, Width(k));
      (if b.None? then None else Some(Decoded(k, b.value)), r1)
  }

  function ReadAll(r: Reader, ks: seq<Kind>): (p: (seq<Option<Value>>, Reader))
    requires Sound(r)
    ensures Sound(p.1) && p.1.payload == r.payload && r.pos <= p.1.pos && |p.0| == |ks|
    decreases |ks|
  {
    if ks == [] then ([], r)
    else
      var (v, r1) := Read(r, ks[0]);
      var (vs, r2) := ReadAll(r1, ks[1..]);
      ([v] + vs, r2)
  }

  // --------------------------------------------------------------- round trip

  /** f lies at pos in the payload. */
  ghost predicate Lies(p: seq<byte>, pos: nat, f: seq<byte>) {
    pos + |f| <= |p| && p[pos..pos + |f|] == f
  }

  lemma LiesSplit(p: seq<byte>, pos: nat, a: seq<byte>, b: seq<byte>)
    requires Lies(p, pos, a + b)
    ensures Lies(p, pos, a) && Lies(p, pos + |a|, b)
  {
    assert p[pos..pos + |a|] == (a + b)[..|a|];
    assert p[pos + |a|..pos + |a + b|] == (a + b)[|a|..];
  }

  lemma ReadField(r: Reader, raw: seq<byte>, n: nat)
    requires Sound(r) && Lies(r.payload, r.pos, Field(raw)) && n <= |raw| && Align4(n) == Align4(|raw|)
    ensures ReadRaw(r, n) == (Some(raw[..n]), r.(pos := r.pos + Align4(|raw|)))
  {
    var f := Field(raw);
    assert f[..n] == raw[..n];
    assert r.payload[r.pos..r.pos + n] == r.payload[r.pos..r.pos + |f|][..n];
  }

  lemma ReadWholeField(r: Reader, raw: seq<byte>)
    requires Sound(r) && Lies(r.payload, r.pos, Field(raw))
    ensures ReadRaw(r, |raw|) == (Some(raw), r.(pos := r.pos + |Field(raw)|))
  {
    ReadField(r, raw, |raw|);
    assert raw[..|raw|] == raw;
  }

  lemma Int32RoundTrip(i: int32)
    ensures ToSigned32(FromLittleEndian(IntBytes(i))) == i
  {
    Widths();
    LittleEndianRoundTrip(if i < 0 then i + 0x1_0000_0000 else i, 4);
  }

  lemma Int64RoundTrip(q: int64)
    ensures ToSigned64(FromLittleEndian(Int64Bytes(q))) == q
  {
    Widths();
    LittleEndianRoundTrip(if q < 0 then q + 0x1_0000_0000_0000_0000 else q, 8);
  }

  lemma {:induction false} Chars16RoundTrip(t: seq<uint16>)
    ensures Chars16(Bytes16(t)) == t
  {
    if t != [] {
      Widths();
      LittleEndianRoundTrip(t[0], 2);
      var b := Bytes16(t);
      assert b[..2] == LittleEndian(t[0], 2) && b[2..] == Bytes16(t[1..]);
      Chars16RoundTrip(t[1..]);
    }
  }

  lemma UnsignedRoundTrip(v: nat, n: nat)
    requires (n == 2 && v < 0x1_0000) || (n == 4 && v < 0x1_0000_0000) || (n == 8 && v < 0x1_0000_0000_0000_0000)
    ensures FromLittleEndian(LittleEndian(v, n)) == v
  {
    Widths();
    LittleEndianRoundTrip(v, n);
  }

  lemma BoolRoundTrip(b: bool)
    ensures IntBytes(if b then 1 else 0)[0] == if b then 1 else 0
  {
  }

  lemma FixedRoundTrip(v: Value)
    requires Fits(v) && Width(KindOf(v)) > 0 && !v.Bool?
    ensures Width(KindOf(v)) == |Raw(v)|
    ensures Decoded(KindOf(v), Raw(v)) == v
  {
    match v {
      case Int(i) => Int32RoundTrip(i);
      case Long(l) => Int64RoundTrip(l);
      case UInt16(w) => UnsignedRoundTrip(w, 2);
      case UInt32(d) => UnsignedRoundTrip(d, 4);
      case Int64(q) => Int64RoundTrip(q);
      case UInt64(u) => UnsignedRoundTrip(u, 8);
    }
  }

  lemma ReadFixedBack(r: Reader, v: Value)
    requires Fits(v) && Width(KindOf(v)) > 0 && !v.Bool?
    requires Sound(r) && Lies(r.payload, r.pos, Field(Raw(v)))
    ensures Read(r, KindOf(v)) == (Some(v), r.(pos := r.pos + |Field(Raw(v))|))
  {
    FixedRoundTrip(v);
    ReadWholeField(r, Raw(v));
  }

  lemma ReadBoolBack(r: Reader, b: bool)
    requires Sound(r) && Lies(r.payload, r.pos, Field(Raw(Bool(b))))
    ensures Read(r, KBool) == (Some(Bool(b)), r.(pos := r.pos + |Field(Raw(Bool(b)))|))
  {
    BoolRoundTrip(b);
    ReadField(r, Raw(Bool(b)), 1);
  }

  lemma ReadLengthBack(r: Reader, n: int32)
    requires Sound(r) && Lies(r.payload, r.pos, Field(IntBytes(n)))
    ensures ReadLength(r) == (Some(n), r.(pos := r.pos + |Field(IntBytes(n))|))
  {
    ReadWholeField(r, IntBytes(n));
    Int32RoundTrip(n);
  }

  /** Where a length and then that field lie, both come back. */
  lemma ReadSizedBack(r: Reader, n: int32, raw: seq<byte>)
    requires Sound(r) && Lies(r.payload, r.pos, Sized(n, raw))
    ensures var r1 := r.(pos := r.pos + |Field(IntBytes(n))|);
      && ReadLength(r) == (Some(n), r1) && Sound(r1)
      && ReadRaw(r1, |raw|) == (Some(raw), r.(pos := r.pos + |Sized(n, raw)|))
  {
    LiesSplit(r.payload, r.pos, Field(IntBytes(n)), Field(raw));
    ReadLengthBack(r, n);
    ReadWholeField(r.(pos := r.pos + |Field(IntBytes(n))|), raw);
  }

  lemma ReadStringBack(r: Reader, s: seq<byte>)
    requires |s| <= INT_MAX && Sound(r) && Lies(r.payload, r.pos, Sized(|s|, s))
    ensures Read(r, KString) == (Some(String(s)), r.(pos := r.pos + |Sized(|s|, s)|))
    ensures Read(r, KData) == (Some(Data(s)), r.(pos := r.pos + |Sized(|s|, s)|))
  {
    ReadSizedBack(r, |s|, s);
  }

  lemma ReadString16Back(r: Reader, t: seq<uint16>, raw: seq<byte>)
    requires Chars16(raw) == t && |raw| == |t| * 2 <= INT_MAX
    requires Sound(r) && Lies(r.payload, r.pos, Sized(|t|, raw))
    ensures Read(r, KString16) == (Some(String16(t)), r.(pos := r.pos + |Sized(|t|, raw)|))
  {
    ReadSizedBack(r, |t|, raw);
  }

  /** The reader at r finds v and stands just after it. */
  ghost predicate ComesBack(r: Reader, v: Value)
    requires Fits(v) && Sound(r)
  {
    Read(r, KindOf(v)) == (Some(v), r.(pos := r.pos + |Encode(v)|))
  }

  lemma StringComesBack(r: Reader, s: seq<byte>)
    requires Fits(String(s)) && Sound(r) && Lies(r.payload, r.pos, Encode(String(s)))
    ensures ComesBack(r, String(s))
  {
    ReadStringBack(r, s);
  }

  lemma DataComesBack(r: Reader, d: seq<byte>)
    requires Fits(Data(d)) && Sound(r) && Lies(r.payload, r.pos, Encode(Data(d)))
    ensures ComesBack(r, Data(d))
  {
    ReadStringBack(r, d);
  }

  lemma String16ComesBack(r: Reader, t: seq<uint16>)
    requires Fits(String16(t)) && Sound(r) && Lies(r.payload, r.pos, Encode(String16(t)))
    ensures ComesBack(r, String16(t))
  {
    Chars16RoundTrip(t);
    ReadString16Back(r, t, Bytes16(t));
  }

  lemma BytesComeBack(r: Reader, b: seq<byte>)
    requires Fits(Bytes(b)) && Sound(r) && Lies(r.payload, r.pos, Encode(Bytes(b)))
    ensures ComesBack(r, Bytes(b))
  {
    ReadWholeField(r, b);
  }

  lemma FixedComesBack(r: Reader, v: Value)
    requires Fits(v) && Width(KindOf(v)) > 0 && Sound(r) && Lies(r.payload, r.pos, Encode(v))
    ensures ComesBack(r, v)
  {
    if v.Bool? {
      ReadBoolBack(r, v.b);
    } else {
      ReadFixedBack(r, v);
    }
  }

  /** A value read where it lies comes back, whatever surrounds it. */
  lemma ReadBack(r: Reader, v: Value)
    requires Fits(v) && Sound(r) && Lies(r.payload, r.pos, Encode(v))
    ensures ComesBack(r, v)
  {
    match v
    case String(s) => StringComesBack(r, s);
    case Data(d) => DataComesBack(r, d);
    case String16(t) => String16ComesBack(r, t);
    case Bytes(b) => BytesComeBack(r, b);
    case _ => FixedComesBack(r, v);
  }

  function Kinds(vs: seq<Value>): seq<Kind>
    requires AllFit(vs)
  {
    seq(|vs|, i requires 0 <= i < |vs| => KindOf(vs[i]))
  }

  function Somes(vs: seq<Value>): seq<Option<Value>> {
    seq(|vs|, i requires 0 <= i < |vs| => Some(vs[i]))
  }

  lemma LiesFirst(p: seq<byte>, pos: nat, first: seq<byte>, rest: seq<byte>)
    requires pos <= |p| && p[pos..] == first + rest
    ensures Lies(p, pos, first) && p[pos + |first|..] == rest
  {
    assert p[pos..pos + |first|] == p[pos..][..|first|];
    assert p[pos + |first|..] == p[pos..][|first|..];
  }

  /** Every sequence of typed writes reads back in order, ending at the end. */
  lemma RoundTrip(r: Reader, vs: seq<Value>)
    requires AllFit(vs) && Sound(r) && r.payload[r.pos..] == EncodeAll(vs)
    ensures ReadAll(r, Kinds(vs)) == (Somes(vs), Exhausted(r))
  {
    RoundTripParts(r, vs, Encodings(vs));
  }

  lemma {:induction false} RoundTripParts(r: Reader, vs: seq<Value>, parts: seq<seq<byte>>)
    requires AllFit(vs) && Sound(r) && |parts| == |vs| && r.payload[r.pos..] == Flat(parts)
    requires forall i :: 0 <= i < |vs| ==> Encode(vs[i]) == parts[i]
    ensures ReadAll(r, Kinds(vs)) == (Somes(vs), Exhausted(r))
    decreases |vs|
  {
    if vs == [] {
      RoundTripNone(r, vs);
    } else {
      var r1 := FirstPart(r, vs, parts);
      RestMatch(vs, parts);
      RoundTripParts(r1, vs[1..], parts[1..]);
      ReadAllStep(r, vs, r1);
    }
  }

  lemma FirstPart(r: Reader, vs: seq<Value>, parts: seq<seq<byte>>) returns (r1: Reader)
    requires AllFit(vs) && Sound(r) && |parts| == |vs| > 0 && r.payload[r.pos..] == Flat(parts)
    requires Encode(vs[0]) == parts[0]
    ensures Read(r, KindOf(vs[0])) == (Some(vs[0]), r1) && Sound(r1) && Exhausted(r1) == Exhausted(r)
    ensures r1.payload[r1.pos..] == Flat(parts[1..])
  {
    FirstReads(r, vs[0], parts[0], Flat(parts[1..]));
    r1 := r.(pos := r.pos + |parts[0]|);
  }

  lemma RoundTripNone(r: Reader, vs: seq<Value>)
    requires vs == [] && Sound(r) && r.payload[r.pos..] == []
    ensures ReadAll(r, Kinds(vs)) == (Somes(vs), Exhausted(r))
  {
    assert |r.payload[r.pos..]| == |r.payload| - r.pos;
    assert Kinds(vs) == [] && Somes(vs) == [];
  }

  lemma RestMatch(vs: seq<Value>, parts: seq<seq<byte>>)
    requires AllFit(vs) && |parts| == |vs| > 0 && forall i :: 0 <= i < |vs| ==> Encode(vs[i]) == parts[i]
    ensures AllFit(vs[1..]) && forall i :: 0 <= i < |vs[1..]| ==> Encode(vs[1..][i]) == parts[1..][i]
  {
    assert forall i :: 0 <= i < |vs[1..]| ==> vs[1..][i] == vs[i + 1] && parts[1..][i] == parts[i + 1];
  }

  lemma FirstReads(r: Reader, v: Value, first: seq<byte>, rest: seq<byte>)
    requires Fits(v) && Encode(v) == first && Sound(r) && r.payload[r.pos..] == first + rest
    ensures var r1 := r.(pos := r.pos + |first|);
      Sound(r1) && Read(r, KindOf(v)) == (Some(v), r1) && r1.payload[r1.pos..] == rest
  {
    LiesFirst(r.payload, r.pos, first, rest);
    ReadBack(r, v);
  }

  lemma ReadAllStep(r: Reader, vs: seq<Value>, r1: Reader)
    requires AllFit(vs) && vs != [] && Sound(r) && Sound(r1)
    requires Read(r, KindOf(vs[0])) == (Some(vs[0]), r1)
    requires ReadAll(r1, Kinds(vs[1..])) == (Somes(vs[1..]), Exhausted(r))
    ensures ReadAll(r, Kinds(vs)) == (Somes(vs), Exhausted(r))
  {
    assert Kinds(vs)[1..] == Kinds(vs[1..]) && Kinds(vs)[0] == KindOf(vs[0]);
    assert [Some(vs[0])] + Somes(vs[1..]) == Somes(vs);
  }

  // ------------------------------------------------- reading arbitrary bytes

  /** The read that fails without moving the read index to the end. */
  predicate StopsShort(r: Reader, k: Kind)
    requires Sound(r)
  {
    var (n, r1) := ReadLength(r);
    k == KString16 && n.Some? && CountOverflows(n.value, 2) && r1.pos < |r.payload|
  }

  /** A failed read leaves nothing more to read, except exactly when a string16
      count overflows 32 bits with payload left. */
  lemma FailedReadExhaustsUnlessCountOverflows(r: Reader, k: Kind)
    requires Sound(r) && Read(r, k).0.None?
    ensures Read(r, k).1 == Exhausted(r) <==> !StopsShort(r, k)
  {
  }

  /** The iterator is not used up by that failure: after a string16 whose count
      overflows, say 0x4000_0000, a bool that follows can still be read. */
  lemma ReadAfterOverflowSucceeds(n: int32, b: bool)
    requires CountOverflows(n, 2)
    ensures var r := Reader(IntBytes(n) + IntBytes(if b then 1 else 0), 0);
      && Read(r, KString16) == (None, r.(pos := 4))
      && Read(r.(pos := 4), KBool) == (Some(Bool(b)), Exhausted(r))
    ensures CountOverflows(0x4000_0000, 2)
  {
    WholeField(IntBytes(n));
    WholeField(Raw(Bool(b)));
    OverflowThenBool(n, b, IntBytes(n), Raw(Bool(b)));
  }

  lemma OverflowThenBool(n: int32, b: bool, count: seq<byte>, flag: seq<byte>)
    requires CountOverflows(n, 2) && |count| == 4 && |flag| == 4
    requires Field(IntBytes(n)) == count && Field(Raw(Bool(b))) == flag
    ensures var r := Reader(count + flag, 0);
      && Read(r, KString16) == (None, r.(pos := 4))
      && Read(r.(pos := 4), KBool) == (Some(Bool(b)), Exhausted(r))
  {
    var r := Reader(count + flag, 0);
    assert r.payload[0..0 + 8] == count + flag;
    LiesSplit(r.payload, 0, count, flag);
    ReadLengthBack(r, n);
    ReadBoolBack(r.(pos := 4), b);
  }

  /** A field of four bytes has no padding. */
  lemma WholeField(raw: seq<byte>)
    requires |raw| == 4
    ensures Field(raw) == raw
  {
    assert raw + [] == raw;
  }

  // ------------------------------------------------ what a read hands out

  lemma {:induction false} LittleEndianOfBytes(b: seq<byte>)
    ensures LittleEndian(FromLittleEndian(b), |b|) == b
  {
    if b != [] {
      LittleEndianOfBytes(b[1..]);
      LowByte(b[0], FromLittleEndian(b[1..]));
      assert [b[0]] + b[1..] == b;
    }
  }

  lemma LowByte(low: byte, rest: nat)
    ensures (low + 0x100 * rest) % 0x100 == low && (low + 0x100 * rest) / 0x100 == rest
  {
  }

  lemma {:induction false} Bytes16OfChars(b: seq<byte>)
    requires |b| % 2 == 0
    ensures Bytes16(Chars16(b)) == b
  {
    if b != [] {
      Bytes16OfChars(b[2..]);
      LittleEndianOfBytes(b[..2]);
      assert Chars16(b)[1..] == Chars16(b[2..]);
      assert b[..2] + b[2..] == b;
    }
  }

  lemma Int32BytesOf(b: seq<byte>)
    requires |b| == 4
    ensures FromLittleEndian(b) < 0x1_0000_0000 && IntBytes(ToSigned32(FromLittleEndian(b))) == b
  {
    Widths();
    FromLittleEndianBound(b);
    LittleEndianOfBytes(b);
  }

  lemma SignedBack(v: nat)
    requires v < 0x1_0000_0000_0000_0000
    ensures Int64Bytes(ToSigned64(v)) == LittleEndian(v, 8)
  {
  }

  lemma Below64(b: seq<byte>)
    requires |b| == 8
    ensures FromLittleEndian(b) < 0x1_0000_0000_0000_0000
  {
    Widths();
    FromLittleEndianBound(b);
  }

  lemma Int64BytesOf(b: seq<byte>)
    requires |b| == 8
    ensures FromLittleEndian(b) < 0x1_0000_0000_0000_0000 && Int64Bytes(ToSigned64(FromLittleEndian(b))) == b
  {
    Below64(b);
    SignedBack(FromLittleEndian(b));
    LittleEndianOfBytes(b);
  }

  lemma RawOfDecoded(k: Kind, b: seq<byte>)
    requires Width(k) == |b| > 0 && k != KBool
    ensures Raw(Decoded(k, b)) == b
  {
    match k
    case KInt => Int32BytesOf(b);
    case KLong => Int64BytesOf(b);
    case KInt64 => Int64BytesOf(b);
    case _ => LittleEndianOfBytes(b);
  }

  /** The bytes that a value was read from; a bool keeps none of its own. */
  function Span(v: Value): seq<byte>
    requires Fits(v)
  {
    match v
    case String(s) => s
    case Data(d) => d
    case Bytes(b) => b
    case String16(t) => Bytes16(t)
    case Bool(_) => []
    case _ => Raw(v)
  }

  /** v is what the payload holds from i up to end. */
  ghost predicate HandsOut(p: seq<byte>, i: nat, end: nat, v: Value)
    requires Fits(v)
  {
    if v.Bool? then i < end <= |p| && v.b == (p[i] != 0)
    else Lies(p, i, Span(v)) && i + |Span(v)| <= end
  }

  lemma RawLies(r: Reader, n: int)
    requires Sound(r) && ReadRaw(r, n).0.Some?
    ensures var (b, r1) := ReadRaw(r, n); Lies(r.payload, r.pos, b.value) && r.pos + |b.value| <= r1.pos
  {
  }

  /** A read over arbitrary bytes never moves the index back or past the end,
      and what it hands out, of whatever type, lies in the payload between the
      old index and the new one. */
  lemma ReadsStayInside(r: Reader, k: Kind)
    requires Sound(r) && |r.payload| <= INT_MAX
    ensures var (v, r1) := Read(r, k);
      && Sound(r1) && r.pos <= r1.pos
      && (v.Some? ==> Fits(v.value) && exists i :: r.pos <= i && HandsOut(r.payload, i, r1.pos, v.value))
  {
    var (v, r1) := Read(r, k);
    if v.Some? {
      if Width(k) > 0 {
        FixedHandsOut(r, k);
      } else if k.KBytes? {
        RawLies(r, k.n);
        assert HandsOut(r.payload, r.pos, r1.pos, v.value);
      } else {
        SizedHandsOut(r, k);
      }
    }
  }

  lemma FixedHandsOut(r: Reader, k: Kind)
    requires Sound(r) && Width(k) > 0 && Read(r, k).0.Some?
    ensures var (v, r1) := Read(r, k); Fits(v.value) && HandsOut(r.payload, r.pos, r1.pos, v.value)
  {
    var (b, r1) := ReadRaw(r, Width(k));
    RawLies(r, Width(k));
    if k != KBool { RawOfDecoded(k, b.value); }
  }

  lemma SizedHandsOut(r: Reader, k: Kind)
    requires Sound(r) && |r.payload| <= INT_MAX && (k == KString || k == KData || k == KString16) && Read(r, k).0.Some?
    ensures var (v, r1) := Read(r, k);
      Fits(v.value) && r.pos <= ReadLength(r).1.pos && HandsOut(r.payload, ReadLength(r).1.pos, r1.pos, v.value)
  {
    var (n, r1) := ReadLength(r);
    if k == KString16 {
      RawLies(r1, n.value * 2);
      Chars16HandsOut(r.payload, r1.pos, Read(r, k).1.pos, ReadRaw(r1, n.value * 2).0.value);
    } else {
      RawLies(r1, n.value);
    }
  }

  lemma Chars16HandsOut(p: seq<byte>, i: nat, end: nat, b: seq<byte>)
    requires Lies(p, i, b) && i + |b| <= end && |b| % 2 == 0 && |p| <= INT_MAX
    ensures Fits(String16(Chars16(b))) && HandsOut(p, i, end, String16(Chars16(b)))
  {
    Bytes16OfChars(b);
  }
}
