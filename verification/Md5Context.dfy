/** Models MD5Init, MD5Update, MD5Final, MD5IntermediateFinal and MD5Sum: the
    digest of a message that arrives in pieces. */
module Md5Contexts {
  import opened Md5Rfc
  import opened Md5

  /** The bytes after the last whole block. */
  function Tail(m: seq<byte>): (t: seq<byte>)
    ensures |t| == |m| % 64
  {
    m[|m| - |m| % 64..]
  }

  function WholeBlocks(m: seq<byte>): (b: seq<byte>)
    ensures |b| % 64 == 0 && b + Tail(m) == m
  {
    m[..|m| - |m| % 64]
  }

  lemma FoldIgnoresTail(c: Compression, st: Chaining, m: seq<byte>)
    ensures Fold(c, st, m) == Fold(c, st, WholeBlocks(m))
  {
    FoldSplits(c, st, WholeBlocks(m), Tail(m));
  }

  lemma FoldFills(c: Compression, st: Chaining, m: seq<byte>, e: seq<byte>)
    requires |m| % 64 + |e| == 64
    ensures Fold(c, st, m + e) == c(Fold(c, st, m), Tail(m) + e)
    ensures |m + e| % 64 == 0
  {
    FoldIgnoresTail(c, st, m);
    assert m + e == WholeBlocks(m) + (Tail(m) + e);
    FoldSplits(c, st, WholeBlocks(m), Tail(m) + e);
    FoldOne(c, Fold(c, st, m), Tail(m) + e);
  }

  lemma FoldHolds(c: Compression, st: Chaining, m: seq<byte>, e: seq<byte>)
    requires |m| % 64 + |e| < 64
    ensures Fold(c, st, m + e) == Fold(c, st, m)
    ensures Tail(m + e) == Tail(m) + e
  {
    FoldIgnoresTail(c, st, m);
    Assoc(WholeBlocks(m), Tail(m), e);
    FoldSplits(c, st, WholeBlocks(m), Tail(m) + e);
    TailGrows(WholeBlocks(m), Tail(m), e);
  }

  lemma TailGrows(blocks: seq<byte>, t: seq<byte>, e: seq<byte>)
    requires |blocks| % 64 == 0 && |t| + |e| < 64
    ensures Tail(blocks + t + e) == t + e
  {
    assert |blocks + t + e| == 64 * (|blocks| / 64) + (|t| + |e|);
    Assoc(blocks, t, e);
  }

  // ------------------------------------------------------- the bit counter

  const TWO32: nat := 0x1_0000_0000

  /** The two words count the bits of n bytes modulo 2^64. */
  ghost predicate Counts(bits0: word, bits1: word, n: nat) {
    bits1 * TWO32 + bits0 == 8 * n % TWO64
  }

  function CountLow(bits0: word, len: nat): word {
    Plus(bits0, (len % TWO32 * 8) % TWO32)
  }

  function CountHigh(bits0: word, bits1: word, len: nat): word {
    var carried := if CountLow(bits0, len) < bits0 then Plus(bits1, 1) else bits1;
    Plus(carried, len / 0x2000_0000 % TWO32)
  }

  lemma RemainderIs(x: int, k: int, r: int)
    requires x == k * TWO64 + r && 0 <= r < TWO64
    ensures x % TWO64 == r
  {
  }

  lemma LowBits(len: nat)
    ensures (len % TWO32 * 8) % TWO32 == 8 * len - len / 0x2000_0000 * TWO32
  {
    var h, l := len / 0x2000_0000, len % 0x2000_0000;
    assert len == h * 0x2000_0000 + l;
    assert len % TWO32 == (h % 8) * 0x2000_0000 + l by {
      assert len == (h / 8) * TWO32 + ((h % 8) * 0x2000_0000 + l);
    }
    assert len % TWO32 * 8 == (h % 8) * TWO32 + 8 * l;
  }

  lemma CounterAdds(bits0: word, bits1: word, n: nat, len: nat)
    requires Counts(bits0, bits1, n)
    ensures Counts(CountLow(bits0, len), CountHigh(bits0, bits1, len), n + len)
  {
    LowBits(len);
    var h := len / 0x2000_0000;
    var l := 8 * len - h * TWO32;
    var low, high := CountLow(bits0, len), CountHigh(bits0, bits1, len);
    var carry := if low < bits0 then 1 else 0;
    assert bits0 + l == carry * TWO32 + low;
    var hq, hr := h / TWO32, h % TWO32;
    assert h == hq * TWO32 + hr;
    var over := if bits1 + carry + hr < TWO32 then 0 else if bits1 + carry + hr < 2 * TWO32 then 1 else 2;
    assert high == bits1 + carry + hr - over * TWO32;
    var q := 8 * n / TWO64;
    assert 8 * n == q * TWO64 + bits1 * TWO32 + bits0;
    assert 8 * (n + len) == (q + hq + over) * TWO64 + (high * TWO32 + low);
    RemainderIs(8 * (n + len), q + hq + over, high * TWO32 + low);
  }

  lemma CounterHoldsTail(bits0: word, bits1: word, n: nat)
    requires Counts(bits0, bits1, n)
    ensures bits0 / 8 % 64 == n % 64
  {
    var q := 8 * n / TWO64;
    assert 8 * n == q * TWO64 + bits1 * TWO32 + bits0;
    var k := q * 0x2000_0000_0000_0000 + bits1 * 0x2000_0000;
    assert 8 * n == 8 * k + bits0;
    assert bits0 == 8 * (n - k) && bits0 / 8 == n - k;
    assert k == 64 * (q * 0x80_0000_0000_0000 + bits1 * 0x80_0000);
  }

  lemma CounterIsLengthField(bits0: word, bits1: word, n: nat)
    requires Counts(bits0, bits1, n)
    ensures LengthField(n) == LittleEndian(bits0) + LittleEndian(bits1)
  {
    var bits := 8 * n % TWO64;
    assert bits == bits1 * TWO32 + bits0;
    assert bits % TWO32 == bits0 && bits / TWO32 == bits1;
  }

  // --------------------------------------------------- the padded last blocks

  function LastBlock(m: seq<byte>): (b: seq<byte>)
    requires |m| % 64 < 56
    ensures |b| == 56
  {
    Tail(m) + [0x80] + Zeros(55 - |m| % 64)
  }

  function SpillBlock(m: seq<byte>): (b: seq<byte>)
    requires |m| % 64 >= 56
    ensures |b| == 64
  {
    Tail(m) + [0x80] + Zeros(63 - |m| % 64)
  }

  lemma PaddedInOneBlock(c: Compression, st: Chaining, m: seq<byte>)
    requires |m| % 64 < 56
    ensures Fold(c, st, Padded(m)) == c(Fold(c, st, m), LastBlock(m) + LengthField(|m|))
  {
    var e := [0x80] + Zeros(55 - |m| % 64) + LengthField(|m|);
    assert (119 - |m| % 64) % 64 == 55 - |m| % 64;
    assert Padded(m) == m + e;
    FoldFills(c, st, m, e);
    assert Tail(m) + e == LastBlock(m) + LengthField(|m|);
  }

  lemma PaddedInTwoBlocks(c: Compression, st: Chaining, m: seq<byte>)
    requires |m| % 64 >= 56
    ensures Fold(c, st, Padded(m)) ==
            c(c(Fold(c, st, m), SpillBlock(m)), Zeros(56) + LengthField(|m|))
  {
    var e, f := [0x80] + Zeros(63 - |m| % 64), Zeros(56) + LengthField(|m|);
    assert (119 - |m| % 64) % 64 == 63 - |m| % 64 + 56;
    assert Zeros(63 - |m| % 64 + 56) == Zeros(63 - |m| % 64) + Zeros(56);
    assert Padded(m) == (m + e) + f;
    FoldFills(c, st, m, e);
    assert Tail(m) + e == SpillBlock(m);
    FoldFills(c, st, m + e, f);
    assert Tail(m + e) + f == f;
  }

  // ----------------------------------------------- machine words of a block

  lemma {:induction false} WordsAreNative(b: seq<byte>)
    ensures Words(b) == NativeWords(false, b)
  {
    if |b| >= 4 { WordsAreNative(b[4..]); }
  }

  /** Fourteen words turned in place and two stored as machine words are the
      words of the block that the standard builds from bytes. */
  lemma LengthWords(big: bool, b: seq<byte>, bits0: word, bits1: word)
    requires |b| == 56
    ensures NativeWords(big, Reversed(big, b) + NativeBytes(big, bits0) + NativeBytes(big, bits1)) ==
            Words(b + (LittleEndian(bits0) + LittleEndian(bits1)))
  {
    var n0, n1 := NativeBytes(big, bits0), NativeBytes(big, bits1);
    TwoWords(big, Reversed(big, b), n0, n1);
    NativeWordsOfReversed(big, b);
    NativeOfBytes(big, bits0);
    NativeOfBytes(big, bits1);
    var l0, l1 := LittleEndian(bits0), LittleEndian(bits1);
    WordsAreNative(b + (l0 + l1));
    WordsAreNative(b);
    Assoc(b, l0, l1);
    TwoWords(false, b, l0, l1);
    WordOfBytes(bits0);
    WordOfBytes(bits1);
  }

  lemma TwoWords(big: bool, b: seq<byte>, n0: seq<byte>, n1: seq<byte>)
    requires |b| % 4 == 0 && |n0| == 4 && |n1| == 4
    ensures NativeWords(big, b + n0 + n1) == NativeWords(big, b) + [Native(big, n0), Native(big, n1)]
  {
    Assoc(b, n0, n1);
    NativeWordsSplit(big, b, n0 + n1);
    NativeHead(big, n0, n1);
    NativeHead(big, n1, []);
    assert n1 + [] == n1;
    assert [Native(big, n1)] + NativeWords(big, []) == [Native(big, n1)];
  }

  lemma Assoc(a: seq<byte>, b: seq<byte>, c: seq<byte>)
    ensures a + b + c == a + (b + c)
  {
  }

  /** The memory of these state words. */
  function NativeState(big: bool, ws: seq<word>): seq<byte> {
    if ws == [] then [] else NativeState(big, ws[..|ws| - 1]) + NativeBytes(big, ws[|ws| - 1])
  }

  lemma NextNative(big: bool, st: seq<word>, j: nat, was: seq<byte>, now: seq<byte>)
    requires j < |st| && 4 * j + 4 <= |was| && was[..4 * j] == NativeState(big, st[..j])
    requires now == was[..4 * j] + NativeBytes(big, st[j]) + was[4 * j + 4..]
    ensures now[..4 * j + 4] == NativeState(big, st[..j + 1])
  {
    OneMoreNative(big, st, j);
    assert now[..4 * j + 4] == was[..4 * j] + NativeBytes(big, st[j]);
  }

  lemma WholeNative(big: bool, st: Chaining, mem: seq<byte>)
    requires |mem| == 16 && mem[..16] == NativeState(big, st[..4])
    ensures mem[..16] == NativeBytes(big, st[0]) + NativeBytes(big, st[1]) + NativeBytes(big, st[2])
                           + NativeBytes(big, st[3])
    ensures mem[16..] == []
  {
    OneMoreNative(big, st, 0);
    OneMoreNative(big, st, 1);
    OneMoreNative(big, st, 2);
    OneMoreNative(big, st, 3);
    var n := (j: nat) requires j <= 4 => NativeState(big, st[..j]);
    FourParts(n(0), n(1), n(2), n(3), n(4), NativeBytes(big, st[0]), NativeBytes(big, st[1]), NativeBytes(big, st[2]),
              NativeBytes(big, st[3]));
  }

  lemma FourParts(n0: seq<byte>, n1: seq<byte>, n2: seq<byte>, n3: seq<byte>, n4: seq<byte>,
                  b0: seq<byte>, b1: seq<byte>, b2: seq<byte>, b3: seq<byte>)
    requires n0 == [] && n1 == n0 + b0 && n2 == n1 + b1 && n3 == n2 + b2 && n4 == n3 + b3
    ensures n4 == b0 + b1 + b2 + b3
  {
    assert [] + b0 == b0;
  }

  lemma OneMoreNative(big: bool, st: seq<word>, j: nat)
    requires j < |st|
    ensures NativeState(big, st[..j + 1]) == NativeState(big, st[..j]) + NativeBytes(big, st[j])
  {
    assert st[..j + 1][..j] == st[..j];
  }

  /** byteReverse on the chaining value's own memory yields the output bytes. */
  lemma ReversedState(big: bool, st: Chaining)
    ensures Reversed(big, NativeBytes(big, st[0]) + NativeBytes(big, st[1]) +
                          NativeBytes(big, st[2]) + NativeBytes(big, st[3])) == Output(st)
  {
    var n: seq<seq<byte>> := [NativeBytes(big, st[0]), NativeBytes(big, st[1]), NativeBytes(big, st[2]), NativeBytes(big, st[3])];
    var m := n[0] + (n[1] + (n[2] + n[3]));
    assert n[0] + n[1] + n[2] + n[3] == m;
    ReversedWord(big, st[0], n[1] + (n[2] + n[3]));
    ReversedWord(big, st[1], n[2] + n[3]);
    ReversedWord(big, st[2], n[3]);
    ReversedWord(big, st[3], []);
    assert n[3] + [] == n[3] && LittleEndian(st[3]) + Reversed(big, []) == LittleEndian(st[3]);
    var l: seq<seq<byte>> := [LittleEndian(st[0]), LittleEndian(st[1]), LittleEndian(st[2]), LittleEndian(st[3])];
    assert l[0] + (l[1] + (l[2] + l[3])) == l[0] + l[1] + l[2] + l[3];
  }

  lemma ReversedWord(big: bool, w: word, rest: seq<byte>)
    ensures Reversed(big, NativeBytes(big, w) + rest) == LittleEndian(w) + Reversed(big, rest)
  {
    var n := NativeBytes(big, w);
    assert (n + rest)[4..] == rest && (n + rest)[..4] == n;
    BytesOfWord(n + rest);
  }

  // -------------------------------------------------------------- the context

  method CopyIn(a: array<byte>, at: nat, src: seq<byte>)
    requires at + |src| <= a.Length
    modifies a
    ensures a[..] == old(a[..at]) + src + old(a[at + |src|..])
  {
    for i := 0 to |src|
      invariant forall k :: 0 <= k < a.Length ==>
                  a[k] == if at <= k < at + i then src[k - at] else old(a[k])
    {
      a[at + i] := src[i];
    }
  }

  /** compress is Compress; the solver is not to unfold it everywhere. */
  ghost predicate IsCompress(compress: Compression) {
    forall st, block {:trigger Compress(st, block)} :: compress(st, block) == Compress(st, block)
  }

  lemma CompressIs(compress: Compression, st: Chaining, x: seq<word>, block: Block)
    requires IsCompress(compress) && x == Words(block)
    ensures CompressWords(st, x) == compress(st, block)
  {
    assert CompressWords(st, x) == Compress(st, block);
  }

  lemma {:induction false} FoldAgrees(compress: Compression, st: Chaining, m: seq<byte>)
    requires IsCompress(compress)
    ensures Fold(compress, st, m) == Fold(Compress, st, m)
    decreases |m|
  {
    if |m| >= 64 {
      assert compress(st, m[..64]) == Compress(st, m[..64]);
      FoldAgrees(compress, Compress(st, m[..64]), m[64..]);
    }
  }

  class Context {
    const big: bool  // the machine's byte order
    const buf: array<word>
    var bits0: word
    var bits1: word
    const inp: array<byte>
    ghost var message: seq<byte>  // everything seen so far
    ghost const compress: Compression  // the standard's compression, by another name

    ghost predicate Shaped() {
      buf.Length == 4 && inp.Length == 64 && IsCompress(compress)
    }

    ghost predicate Valid()
      reads this, buf, inp
    {
      && Shaped()
      && buf[..] == Fold(compress, Start, message)
      && Counts(bits0, bits1, |message|)
      && inp[..][..|message| % 64] == Tail(message)
    }

    /** MD5Init */
    constructor (big: bool)
      ensures Valid() && message == [] && this.big == big && fresh(buf) && fresh(inp)
    {
      this.big := big;
      buf := new word[4] [0x67452301, 0xefcdab89, 0x98badcfe, 0x10325476];
      inp := new byte[64];
      bits0, bits1 := 0, 0;
      message := [];
      compress := Compress;
    }

    /** byteReverse(in, 16), then MD5Transform */
    method Absorb()
      requires Shaped()
      modifies buf, inp
      ensures buf[..] == compress(old(buf[..]), old(inp[..]))
    {
      ghost var block := inp[..];
      ByteReverse(big, inp, 16);
      assert block[..64] == block && inp[..] == Reversed(big, block);
      NativeWordsOfReversed(big, block);
      CompressIs(compress, buf[..], NativeWords(big, inp[..]), block);
      Md5Transform(buf, NativeWords(big, inp[..]));
    }

    /** What the context holds of m, counters aside. */
    ghost predicate Holds(m: seq<byte>)
      reads buf, inp
    {
      Shaped() && buf[..] == Fold(compress, Start, m) && inp[..][..|m| % 64] == Tail(m)
    }

    /** Fills the pending block up and absorbs it. */
    method TakeBlock(part: seq<byte>, ghost m: seq<byte>, at: nat)
      requires Holds(m) && at == |m| % 64 && at + |part| == 64
      modifies buf, inp
      ensures Holds(m + part) && |m + part| % 64 == 0
    {
      CopyIn(inp, at, part);
      assert inp[..] == Tail(m) + part;
      Absorb();
      FoldFills(compress, Start, m, part);
    }

    /** Leaves the rest pending. */
    method TakeRest(part: seq<byte>, ghost m: seq<byte>, at: nat)
      requires Holds(m) && at == |m| % 64 && at + |part| < 64
      modifies inp
      ensures Holds(m + part)
    {
      CopyIn(inp, at, part);
      FoldHolds(compress, Start, m, part);
      assert inp[..][..at + |part|] == Tail(m) + part;
    }

    method CountUp(len: nat, ghost n: nat)
      requires Counts(bits0, bits1, n)
      modifies this`bits0, this`bits1
      ensures Counts(bits0, bits1, n + len)
    {
      CounterAdds(bits0, bits1, n, len);
      var t := bits0;
      bits0 := CountLow(t, len);
      if bits0 < t {
        bits1 := Plus(bits1, 1);
      }
      bits1 := Plus(bits1, len / 0x2000_0000 % TWO32);
    }

    method TakeBlocks(data: seq<byte>, ghost m: seq<byte>) returns (pos: nat)
      requires Holds(m) && |m| % 64 == 0
      modifies buf, inp
      ensures pos <= |data| < pos + 64 && |m + data[..pos]| % 64 == 0
      ensures Holds(m + data[..pos])
    {
      pos := 0;
      assert m + data[..0] == m;
      while |data| - pos >= 64
        invariant pos <= |data| && |m + data[..pos]| % 64 == 0
        invariant Holds(m + data[..pos])
      {
        ghost var seen := m + data[..pos];
        TakeBlock(data[pos..pos + 64], seen, 0);
        assert m + data[..pos + 64] == seen + data[pos..pos + 64];
        pos := pos + 64;
      }
    }

    /** Processes 64-byte chunks and keeps the remaining bytes. */
    method TakeAligned(data: seq<byte>, ghost m: seq<byte>)
      requires Holds(m) && |m| % 64 == 0
      modifies buf, inp
      ensures Holds(m + data)
    {
      var pos := TakeBlocks(data, m);
      TakeRest(data[pos..], m + data[..pos], 0);
      assert m + data == m + data[..pos] + data[pos..];
    }

    method TakeAll(data: seq<byte>, ghost m: seq<byte>, t: nat)
      requires Holds(m) && t == |m| % 64
      modifies buf, inp
      ensures Holds(m + data)
    {
      if t == 0 {
        TakeAligned(data, m);
      } else if |data| < 64 - t {
        TakeRest(data, m, t);
      } else {
        var first, rest := data[..64 - t], data[64 - t..];
        TakeBlock(first, m, t);
        TakeAligned(rest, m + first);
        assert m + data == m + first + rest;
      }
    }

    /** MD5Update */
    method Update(data: seq<byte>)
      requires Valid() && |data| < TWO64
      modifies this, buf, inp
      ensures Valid() && message == old(message) + data
    {
      ghost var m := message;
      CounterHoldsTail(bits0, bits1, |m|);
      var t := bits0 / 8 % 64;
      CountUp(|data|, |m|);
      TakeAll(data, m, t);
      message := m + data;
    }

    /** byteReverse(in, 14), the two length words, and the last transform. */
    method AbsorbLast(ghost m: seq<byte>, ghost st: Chaining)
      requires Shaped() && Counts(bits0, bits1, |m|) && buf[..] == st
      modifies buf, inp
      ensures buf[..] == compress(st, old(inp[..][..56]) + LengthField(|m|))
    {
      ghost var b := inp[..][..56];
      assert inp[..56] == b;
      ByteReverse(big, inp, 14);
      StoreNative(big, inp, 56, bits0);
      StoreNative(big, inp, 60, bits1);
      assert inp[..] == Reversed(big, b) + NativeBytes(big, bits0) + NativeBytes(big, bits1);
      LengthWords(big, b, bits0, bits1);
      CounterIsLengthField(bits0, bits1, |m|);
      CompressIs(compress, st, NativeWords(big, inp[..]), b + LengthField(|m|));
      Md5Transform(buf, NativeWords(big, inp[..]));
    }

    /** The context's buf, read as bytes and turned little-endian. */
    method StateBytes() returns (digest: seq<byte>)
      requires Shaped()
      ensures digest == Output(buf[..])
    {
      var mem := new byte[16];
      ghost var st := buf[..];
      for j := 0 to 4
        invariant buf[..] == st
        invariant mem[..][..4 * j] == NativeState(big, st[..j])
      {
        ghost var was := mem[..];
        StoreNative(big, mem, 4 * j, buf[j]);
        NextNative(big, st, j, was, mem[..]);
      }
      WholeNative(big, st, mem[..]);
      ReversedState(big, st);
      ByteReverse(big, mem, 4);
      digest := mem[..];
    }

    /** The padding, and the first of two last blocks when there are two. */
    method Pad(ghost m: seq<byte>, count: nat)
      requires Holds(m) && count == |m| % 64
      modifies buf, inp
      ensures Shaped()
      ensures compress(buf[..], inp[..][..56] + LengthField(|m|)) == Fold(compress, Start, Padded(m))
    {
      CopyIn(inp, count, [0x80]);
      assert inp[..][..count + 1] == Tail(m) + [0x80];
      var room := 63 - count;
      if room < 8 {
        CopyIn(inp, count + 1, Zeros(room));
        assert inp[..] == SpillBlock(m);
        Absorb();
        CopyIn(inp, 0, Zeros(56));
        PaddedInTwoBlocks(compress, Start, m);
        assert inp[..][..56] == Zeros(56);
      } else {
        CopyIn(inp, count + 1, Zeros(room - 8));
        PaddedInOneBlock(compress, Start, m);
        assert inp[..][..56] == LastBlock(m);
      }
    }

    /** MD5Final: leaves the digest of everything seen and a wiped context. */
    method Final() returns (digest: seq<byte>)
      requires Valid()
      modifies this, buf, inp
      ensures digest == Digest(old(message))
      ensures buf[..] == [0, 0, 0, 0] && bits0 == 0 && bits1 == 0 && inp[..] == Zeros(64)
    {
      ghost var m := message;
      CounterHoldsTail(bits0, bits1, |m|);
      Pad(m, bits0 / 8 % 64);
      AbsorbLast(m, buf[..]);
      FoldAgrees(compress, Start, Padded(m));
      digest := StateBytes();
      Wipe();
    }

    method Wipe()
      requires Shaped()
      modifies this, buf, inp
      ensures buf[..] == [0, 0, 0, 0] && bits0 == 0 && bits1 == 0 && inp[..] == Zeros(64)
    {
      buf[0], buf[1], buf[2], buf[3] := 0, 0, 0, 0;
      bits0, bits1 := 0, 0;
      CopyIn(inp, 0, Zeros(64));
    }

    /** memcpy of the whole context */
    constructor Copy(other: Context)
      requires other.Valid()
      ensures Valid() && message == other.message && fresh(buf) && fresh(inp)
    {
      big, bits0, bits1, message := other.big, other.bits0, other.bits1, other.message;
      compress := other.compress;
      buf := new word[4] (i requires 0 <= i < 4 reads other, other.buf requires other.Shaped() => other.buf[i]);
      inp := new byte[64] (i requires 0 <= i < 64 reads other, other.inp requires other.Shaped() => other.inp[i]);
      new;
      assert buf[..] == other.buf[..] && inp[..] == other.inp[..];
    }

    /** MD5IntermediateFinal: the digest so far, leaving this context as it is. */
    method IntermediateFinal() returns (digest: seq<byte>)
      requires Valid()
      ensures digest == Digest(message)
    {
      var copy := new Context.Copy(this);
      digest := copy.Final();
    }
  }

  function Joined(chunks: seq<seq<byte>>): seq<byte> {
    if chunks == [] then [] else Joined(chunks[..|chunks| - 1]) + chunks[|chunks| - 1]
  }

  /** However a message is cut into updates, and on either byte order, the
      result is the standard's digest of the whole. */
  method DigestOfChunks(big: bool, chunks: seq<seq<byte>>) returns (digest: seq<byte>)
    requires forall c :: c in chunks ==> |c| < TWO64
    ensures digest == Digest(Joined(chunks))
  {
    var context := new Context(big);
    for i := 0 to |chunks|
      invariant context.Valid() && fresh(context) && fresh(context.buf) && fresh(context.inp)
      invariant context.message == Joined(chunks[..i])
    {
      context.Update(chunks[i]);
      assert chunks[..i + 1][..i] == chunks[..i];
    }
    assert chunks[..|chunks|] == chunks;
    digest := context.Final();
  }

  /** MD5Sum */
  method Md5Sum(big: bool, data: seq<byte>) returns (digest: seq<byte>)
    requires |data| < TWO64
    ensures digest == Digest(data)
  {
    var context := new Context(big);
    context.Update(data);
    assert [] + data == data;
    digest := context.Final();
  }
}
