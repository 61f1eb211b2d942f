/** The bit-level operations of MD5: as RFC 1321, section 3.4, defines them and
    as md5.cc writes them. */
module Md5Bits {
  function F(x: bv32, y: bv32, z: bv32): bv32 { (x & y) | (!x & z) }

  function G(x: bv32, y: bv32, z: bv32): bv32 { (x & z) | (y & !z) }

  function H(x: bv32, y: bv32, z: bv32): bv32 { x ^ y ^ z }

  function I(x: bv32, y: bv32, z: bv32): bv32 { y ^ (x | !z) }

  function F1(x: bv32, y: bv32, z: bv32): bv32 { z ^ (x & (y ^ z)) }

  function F2(x: bv32, y: bv32, z: bv32): bv32 { F1(z, x, y) }

  function F3(x: bv32, y: bv32, z: bv32): bv32 { x ^ y ^ z }

  function F4(x: bv32, y: bv32, z: bv32): bv32 { y ^ (x | !z) }

  lemma XorSelects(x: bv32, y: bv32, z: bv32)
    ensures z ^ (x & (y ^ z)) == (x & y) | (!x & z)
  {
  }

  lemma F1IsF(x: bv32, y: bv32, z: bv32)
    ensures F1(x, y, z) == F(x, y, z)
  {
    XorSelects(x, y, z);
  }

  lemma Mirrored(x: bv32, y: bv32, z: bv32)
    ensures (z & x) | (!z & y) == (x & z) | (y & !z)
  {
  }

  lemma F2IsG(x: bv32, y: bv32, z: bv32)
    ensures F2(x, y, z) == G(x, y, z)
  {
    XorSelects(z, x, y);
    Mirrored(x, y, z);
  }

  /** The function of each round, as the standard defines it. */
  function AuxBits(round: nat, x: bv32, y: bv32, z: bv32): bv32 {
    if round == 0 then F(x, y, z) else if round == 1 then G(x, y, z)
    else if round == 2 then H(x, y, z) else I(x, y, z)
  }

  /** And as md5.cc has it. */
  function CoreBits(f: nat, x: bv32, y: bv32, z: bv32): bv32 {
    if f == 0 then F1(x, y, z) else if f == 1 then F2(x, y, z)
    else if f == 2 then F3(x, y, z) else F4(x, y, z)
  }

  lemma CoreBitsAgree(f: nat, x: bv32, y: bv32, z: bv32)
    ensures CoreBits(f, x, y, z) == AuxBits(f, x, y, z)
  {
    F1IsF(x, y, z);
    F2IsG(x, y, z);
  }

  /** w <<< s, for the amounts MD5 rotates by. */
  function Rotated(w: bv32, s: nat): bv32 {
    match s
    case 4 => w.RotateLeft(4)
    case 5 => w.RotateLeft(5)
    case 6 => w.RotateLeft(6)
    case 7 => w.RotateLeft(7)
    case 9 => w.RotateLeft(9)
    case 10 => w.RotateLeft(10)
    case 11 => w.RotateLeft(11)
    case 12 => w.RotateLeft(12)
    case 14 => w.RotateLeft(14)
    case 15 => w.RotateLeft(15)
    case 16 => w.RotateLeft(16)
    case 17 => w.RotateLeft(17)
    case 20 => w.RotateLeft(20)
    case 21 => w.RotateLeft(21)
    case 22 => w.RotateLeft(22)
    case _ => w.RotateLeft(23)
  }

  /** w << s | w >> (32 - s) */
  function ShiftedAround(w: bv32, s: nat): bv32 {
    match s
    case 4 => (w << 4) | (w >> 28)
    case 5 => (w << 5) | (w >> 27)
    case 6 => (w << 6) | (w >> 26)
    case 7 => (w << 7) | (w >> 25)
    case 9 => (w << 9) | (w >> 23)
    case 10 => (w << 10) | (w >> 22)
    case 11 => (w << 11) | (w >> 21)
    case 12 => (w << 12) | (w >> 20)
    case 14 => (w << 14) | (w >> 18)
    case 15 => (w << 15) | (w >> 17)
    case 16 => (w << 16) | (w >> 16)
    case 17 => (w << 17) | (w >> 15)
    case 20 => (w << 20) | (w >> 12)
    case 21 => (w << 21) | (w >> 11)
    case 22 => (w << 22) | (w >> 10)
    case _ => (w << 23) | (w >> 9)
  }

  lemma ShiftsRotate(w: bv32, s: nat)
    ensures ShiftedAround(w, s) == Rotated(w, s)
  {
  }
}

/** The MD5 message-digest algorithm as RFC 1321 defines it, sections 3.1 to
    3.5: one function of the whole message. */
module Md5Rfc {
  import opened Md5Bits

  type byte = x: int | 0 <= x < 0x100
  type word = x: int | 0 <= x < 0x1_0000_0000

  // ------------------------------------------- section 3.4: one 64-byte block

  function Aux(round: nat, x: word, y: word, z: word): word {
    AuxBits(round, x as bv32, y as bv32, z as bv32) as word
  }

  /** Addition modulo 2^32. */
  function Plus(x: word, y: word): word {
    var sum: int := x + y;
    if sum < 0x1_0000_0000 then sum else sum - 0x1_0000_0000
  }

  /** floor(2^32 * |sin(i + 1)|), in radians. */
  function T(i: nat): word {
    match i
    case 0 => 0xd76aa478
    case 1 => 0xe8c7b756
    case 2 => 0x242070db
    case 3 => 0xc1bdceee
    case 4 => 0xf57c0faf
    case 5 => 0x4787c62a
    case 6 => 0xa8304613
    case 7 => 0xfd469501
    case 8 => 0x698098d8
    case 9 => 0x8b44f7af
    case 10 => 0xffff5bb1
    case 11 => 0x895cd7be
    case 12 => 0x6b901122
    case 13 => 0xfd987193
    case 14 => 0xa679438e
    case 15 => 0x49b40821
    case 16 => 0xf61e2562
    case 17 => 0xc040b340
    case 18 => 0x265e5a51
    case 19 => 0xe9b6c7aa
    case 20 => 0xd62f105d
    case 21 => 0x02441453
    case 22 => 0xd8a1e681
    case 23 => 0xe7d3fbc8
    case 24 => 0x21e1cde6
    case 25 => 0xc33707d6
    case 26 => 0xf4d50d87
    case 27 => 0x455a14ed
    case 28 => 0xa9e3e905
    case 29 => 0xfcefa3f8
    case 30 => 0x676f02d9
    case 31 => 0x8d2a4c8a
    case 32 => 0xfffa3942
    case 33 => 0x8771f681
    case 34 => 0x6d9d6122
    case 35 => 0xfde5380c
    case 36 => 0xa4beea44
    case 37 => 0x4bdecfa9
    case 38 => 0xf6bb4b60
    case 39 => 0xbebfbc70
    case 40 => 0x289b7ec6
    case 41 => 0xeaa127fa
    case 42 => 0xd4ef3085
    case 43 => 0x04881d05
    case 44 => 0xd9d4d039
    case 45 => 0xe6db99e5
    case 46 => 0x1fa27cf8
    case 47 => 0xc4ac5665
    case 48 => 0xf4292244
    case 49 => 0x432aff97
    case 50 => 0xab9423a7
    case 51 => 0xfc93a039
    case 52 => 0x655b59c3
    case 53 => 0x8f0ccc92
    case 54 => 0xffeff47d
    case 55 => 0x85845dd1
    case 56 => 0x6fa87e4f
    case 57 => 0xfe2ce6e0
    case 58 => 0xa3014314
    case 59 => 0x4e0811a1
    case 60 => 0xf7537e82
    case 61 => 0xbd3af235
    case 62 => 0x2ad7d2bb
    case 63 => 0xeb86d391
    case _ => 0
  }

  /** The word that step i reads. */
  function K(i: nat): (k: nat)
    ensures k < 16
  {
    if i < 16 then i
    else if i < 32 then (1 + 5 * i) % 16
    else if i < 48 then (5 + 3 * i) % 16
    else (7 * i) % 16
  }

  /** The rotation of step i. */
  function S(i: nat): (s: nat)
    requires i < 64
    ensures 0 < s < 32
  {
    var j := i % 4;
    if i < 16 then (if j == 0 then 7 else if j == 1 then 12 else if j == 2 then 17 else 22)
    else if i < 32 then (if j == 0 then 5 else if j == 1 then 9 else if j == 2 then 14 else 20)
    else if i < 48 then (if j == 0 then 4 else if j == 1 then 11 else if j == 2 then 16 else 23)
    else (if j == 0 then 6 else if j == 1 then 10 else if j == 2 then 15 else 21)
  }

  /** What one step puts in place of a: b + ((a + Aux(b, c, d) + X[k] + T[i]) <<< s). */
  type Mix = (nat, word, word, word, word, word, word, nat) -> word

  function Mixed(round: nat, a: word, b: word, c: word, d: word, x: word, t: word, s: nat): word {
    MixWith(Aux, RotatedWord, round, a, b, c, d, x, t, s)
  }

  function MixWith(aux: (nat, word, word, word) -> word, rotated: (word, nat) -> word,
                   round: nat, a: word, b: word, c: word, d: word, x: word, t: word, s: nat): word
  {
    Plus(b, rotated(Plus(Plus(Plus(a, aux(round, b, c, d)), x), t), s))
  }

  function RotatedWord(w: word, s: nat): word {
    Rotated(w as bv32, s) as word
  }

  datatype Regs = Regs(a: word, b: word, c: word, d: word)

  /** Step i on the registers in the order [abcd] of that step; the next step
      takes them in the order [dabc]. */
  function Op(mix: Mix, r: Regs, x: seq<word>, i: nat): Regs
    requires |x| == 16 && i < 64
  {
    Regs(r.d, mix(i / 16, r.a, r.b, r.c, r.d, x[K(i)], T(i), S(i)), r.b, r.c)
  }

  /** Steps i up to n. */
  function Ops(mix: Mix, r: Regs, x: seq<word>, i: nat, n: nat): Regs
    requires |x| == 16 && i <= n <= 64
    decreases n - i
  {
    if i == n then r else Ops(mix, Op(mix, r, x, i), x, i + 1, n)
  }

  type Chaining = s: seq<word> | |s| == 4 witness [0, 0, 0, 0]

  function CompressWords(st: Chaining, x: seq<word>): Chaining
    requires |x| == 16
  {
    var r := Ops(Mixed, Regs(st[0], st[1], st[2], st[3]), x, 0, 64);
    Added(st, r)
  }

  function Added(st: Chaining, r: Regs): Chaining {
    [Plus(st[0], r.a), Plus(st[1], r.b), Plus(st[2], r.c), Plus(st[3], r.d)]
  }

  // ------------------------------------------------------ bytes and words

  function FromLittleEndian(b: seq<byte>): (w: word)
    requires |b| >= 4
  {
    var b0: int, b1: int, b2: int, b3: int := b[0], b[1], b[2], b[3];
    b0 + 0x100 * (b1 + 0x100 * (b2 + 0x100 * b3))
  }

  /** The low eight bits. */
  function ByteAt(v: int): byte {
    v % 0x100
  }

  function LittleEndian(w: word): (b: seq<byte>)
    ensures |b| == 4
  {
    var v: int := w;
    [ByteAt(v), ByteAt(v / 0x100), ByteAt(v / 0x100 / 0x100), ByteAt(v / 0x100 / 0x100 / 0x100)]
  }

  lemma LowDigit(lo: byte, hi: nat)
    ensures (lo + 0x100 * hi) % 0x100 == lo && (lo + 0x100 * hi) / 0x100 == hi
  {
  }

  lemma BytesOfWord(b: seq<byte>)
    requires |b| >= 4
    ensures LittleEndian(FromLittleEndian(b)) == b[..4]
  {
    var b1: int, b2: int, b3: int := b[1], b[2], b[3];
    LowDigit(b[0], b1 + 0x100 * (b2 + 0x100 * b3));
    LowDigit(b[1], b2 + 0x100 * b3);
    LowDigit(b[2], b3);
  }

  lemma WordOfBytes(w: word)
    ensures FromLittleEndian(LittleEndian(w)) == w
  {
    var v: int := w;
    assert v / 0x100 / 0x100 / 0x100 < 0x100;
  }

  function Words(b: seq<byte>): (x: seq<word>)
    ensures |x| == |b| / 4
  {
    if |b| < 4 then [] else [FromLittleEndian(b)] + Words(b[4..])
  }

  type Block = b: seq<byte> | |b| == 64 witness Zeros(64)

  type Compression = (Chaining, Block) -> Chaining

  function Compress(st: Chaining, block: Block): Chaining {
    CompressWords(st, Words(block))
  }

  /** The chaining value after every whole block of m. */
  function Fold(compress: Compression, st: Chaining, m: seq<byte>): Chaining
    decreases |m|
  {
    if |m| < 64 then st else Fold(compress, compress(st, m[..64]), m[64..])
  }

  // ------------------------------------------- sections 3.1, 3.2, 3.3 and 3.5

  const TWO64: nat := 0x1_0000_0000_0000_0000

  function Zeros(n: nat): (z: seq<byte>)
    ensures |z| == n && forall i :: 0 <= i < n ==> z[i] == 0
  {
    seq(n, _ => 0)
  }

  function LowWord(bits: nat): word
    requires bits < TWO64
  {
    bits % 0x1_0000_0000
  }

  function HighWord(bits: nat): word
    requires bits < TWO64
  {
    bits / 0x1_0000_0000
  }

  /** The length in bits, low-order word first, modulo 2^64. */
  function LengthField(n: nat): (b: seq<byte>)
    ensures |b| == 8
  {
    var bits := 8 * n % TWO64;
    LittleEndian(LowWord(bits)) + LittleEndian(HighWord(bits))
  }

  /** One 1 bit, then 0 bits until 8 bytes short of a whole block. */
  function Padding(n: nat): seq<byte> {
    [0x80] + Zeros((119 - n % 64) % 64)
  }

  function Padded(m: seq<byte>): seq<byte> {
    m + Padding(|m|) + LengthField(|m|)
  }

  const Start: Chaining := [0x67452301, 0xefcdab89, 0x98badcfe, 0x10325476]

  function Output(st: Chaining): (d: seq<byte>)
    ensures |d| == 16
  {
    LittleEndian(st[0]) + LittleEndian(st[1]) + LittleEndian(st[2]) + LittleEndian(st[3])
  }

  function Digest(m: seq<byte>): (d: seq<byte>)
    ensures |d| == 16
  {
    Output(Fold(Compress, Start, Padded(m)))
  }

  // -------------------------------------------------------------- properties

  /** The padded message is a whole number of blocks, the fewest that hold it. */
  lemma PaddedIsWhole(m: seq<byte>)
    ensures |Padded(m)| % 64 == 0 && |m| + 9 <= |Padded(m)| < |m| + 9 + 64
  {
    PadLength(|m| / 64, |m| % 64);
  }

  lemma PadLength(q: nat, r: nat)
    requires r < 64
    ensures (64 * q + r + 9 + (119 - r) % 64) % 64 == 0
  {
    assert 64 * q + r + 9 + (119 - r) % 64 == 64 * (if r <= 55 then q + 1 else q + 2);
  }

  lemma {:induction false} FoldSplits(compress: Compression, st: Chaining, a: seq<byte>, b: seq<byte>)
    requires |a| % 64 == 0
    ensures Fold(compress, st, a + b) == Fold(compress, Fold(compress, st, a), b)
    decreases |a|
  {
    if |a| < 64 {
      assert |a| == 0 && a + b == b;
    } else {
      FirstBlock(a, b);
      FoldSplits(compress, compress(st, a[..64]), a[64..], b);
    }
  }

  lemma FirstBlock(a: seq<byte>, b: seq<byte>)
    requires |a| >= 64
    ensures (a + b)[..64] == a[..64] && (a + b)[64..] == a[64..] + b
  {
  }

  lemma FoldOne(compress: Compression, st: Chaining, block: Block)
    ensures Fold(compress, st, block) == compress(st, block)
  {
    assert block[..64] == block && block[64..] == [];
    assert Fold(compress, compress(st, block), []) == compress(st, block);
  }
}
