/** Models md5.cc: the digest computed from a context that is updated in place,
    block by block, on a machine of either byte order. */
module Md5 {
  import opened Md5Bits
  import opened Md5Rfc

  function Core(f: nat, x: word, y: word, z: word): word {
    CoreBits(f, x as bv32, y as bv32, z as bv32) as word
  }

  lemma CoreIsAux(f: nat, x: word, y: word, z: word)
    ensures Core(f, x, y, z) == Aux(f, x, y, z)
  {
    CoreBitsAgree(f, x as bv32, y as bv32, z as bv32);
  }

  /** MD5STEP */
  function Md5Step(f: nat, w: word, x: word, y: word, z: word, data: word, t: word, s: nat): word {
    StepWith(Core, ShiftedWord, f, w, x, y, z, data, t, s)
  }

  function StepWith(core: (nat, word, word, word) -> word, shifted: (word, nat) -> word,
                    f: nat, w: word, x: word, y: word, z: word, data: word, t: word, s: nat): word
  {
    Plus(shifted(Plus(w, Plus(core(f, x, y, z), Plus(data, t))), s), x)
  }

  function ShiftedWord(w: word, s: nat): word {
    ShiftedAround(w as bv32, s) as word
  }

  lemma SumsAgree(w: word, g: word, data: word, t: word)
    ensures Plus(w, Plus(g, Plus(data, t))) == Plus(Plus(Plus(w, g), data), t)
  {
  }

  lemma ShapesAgree(core: (nat, word, word, word) -> word, shifted: (word, nat) -> word,
                    aux: (nat, word, word, word) -> word, rotated: (word, nat) -> word,
                    f: nat, w: word, x: word, y: word, z: word, data: word, t: word, s: nat)
    requires core(f, x, y, z) == aux(f, x, y, z) && forall v :: shifted(v, s) == rotated(v, s)
    ensures StepWith(core, shifted, f, w, x, y, z, data, t, s) ==
            MixWith(aux, rotated, f, w, x, y, z, data, t, s)
  {
    SumsAgree(w, core(f, x, y, z), data, t);
  }

  lemma StepIsMixed(f: nat, w: word, x: word, y: word, z: word, data: word, t: word, s: nat)
    ensures Md5Step(f, w, x, y, z, data, t, s) == Mixed(f, w, x, y, z, data, t, s)
  {
    CoreIsAux(f, x, y, z);
    forall v: word ensures ShiftedWord(v, s) == RotatedWord(v, s) {
      ShiftsRotate(v as bv32, s);
    }
    ShapesAgree(Core, ShiftedWord, Aux, RotatedWord, f, w, x, y, z, data, t, s);
  }

  lemma {:induction false} OpsAgree(r: Regs, x: seq<word>, i: nat, n: nat)
    requires |x| == 16 && i <= n <= 64
    ensures Ops(Md5Step, r, x, i, n) == Ops(Mixed, r, x, i, n)
    decreases n - i
  {
    if i < n {
      StepIsMixed(i / 16, r.a, r.b, r.c, r.d, x[K(i)], T(i), S(i));
      OpsAgree(Op(Mixed, r, x, i), x, i + 1, n);
    }
  }

  lemma FourOps(mix: Mix, r: Regs, x: seq<word>, i: nat, n: nat)
    requires |x| == 16 && i + 4 <= n <= 64
    ensures Ops(mix, r, x, i, n) ==
            Ops(mix, Op(mix, Op(mix, Op(mix, Op(mix, r, x, i), x, i + 1), x, i + 2), x, i + 3), x, i + 4, n)
  {
    assert Ops(mix, r, x, i, n) == Ops(mix, Op(mix, Op(mix, r, x, i), x, i + 1), x, i + 2, n);
  }

  method Round1(step: Mix, a0: word, b0: word, c0: word, d0: word, x: seq<word>)
    returns (a: word, b: word, c: word, d: word)
    requires |x| == 16
    ensures Regs(a, b, c, d) == Ops(step, Regs(a0, b0, c0, d0), x, 0, 16)
  {
    a, b, c, d := a0, b0, c0, d0;
    FourOps(step, Regs(a, b, c, d), x, 0, 16);
    a := step(0, a, b, c, d, x[0], 0xd76aa478, 7);
    d := step(0, d, a, b, c, x[1], 0xe8c7b756, 12);
    c := step(0, c, d, a, b, x[2], 0x242070db, 17);
    b := step(0, b, c, d, a, x[3], 0xc1bdceee, 22);
    FourOps(step, Regs(a, b, c, d), x, 4, 16);
    a := step(0, a, b, c, d, x[4], 0xf57c0faf, 7);
    d := step(0, d, a, b, c, x[5], 0x4787c62a, 12);
    c := step(0, c, d, a, b, x[6], 0xa8304613, 17);
    b := step(0, b, c, d, a, x[7], 0xfd469501, 22);
    FourOps(step, Regs(a, b, c, d), x, 8, 16);
    a := step(0, a, b, c, d, x[8], 0x698098d8, 7);
    d := step(0, d, a, b, c, x[9], 0x8b44f7af, 12);
    c := step(0, c, d, a, b, x[10], 0xffff5bb1, 17);
    b := step(0, b, c, d, a, x[11], 0x895cd7be, 22);
    FourOps(step, Regs(a, b, c, d), x, 12, 16);
    a := step(0, a, b, c, d, x[12], 0x6b901122, 7);
    d := step(0, d, a, b, c, x[13], 0xfd987193, 12);
    c := step(0, c, d, a, b, x[14], 0xa679438e, 17);
    b := step(0, b, c, d, a, x[15], 0x49b40821, 22);
  }

  method Round2(step: Mix, a0: word, b0: word, c0: word, d0: word, x: seq<word>)
    returns (a: word, b: word, c: word, d: word)
    requires |x| == 16
    ensures Regs(a, b, c, d) == Ops(step, Regs(a0, b0, c0, d0), x, 16, 32)
  {
    a, b, c, d := a0, b0, c0, d0;
    FourOps(step, Regs(a, b, c, d), x, 16, 32);
    a := step(1, a, b, c, d, x[1], 0xf61e2562, 5);
    d := step(1, d, a, b, c, x[6], 0xc040b340, 9);
    c := step(1, c, d, a, b, x[11], 0x265e5a51, 14);
    b := step(1, b, c, d, a, x[0], 0xe9b6c7aa, 20);
    FourOps(step, Regs(a, b, c, d), x, 20, 32);
    a := step(1, a, b, c, d, x[5], 0xd62f105d, 5);
    d := step(1, d, a, b, c, x[10], 0x02441453, 9);
    c := step(1, c, d, a, b, x[15], 0xd8a1e681, 14);
    b := step(1, b, c, d, a, x[4], 0xe7d3fbc8, 20);
    FourOps(step, Regs(a, b, c, d), x, 24, 32);
    a := step(1, a, b, c, d, x[9], 0x21e1cde6, 5);
    d := step(1, d, a, b, c, x[14], 0xc33707d6, 9);
    c := step(1, c, d, a, b, x[3], 0xf4d50d87, 14);
    b := step(1, b, c, d, a, x[8], 0x455a14ed, 20);
    FourOps(step, Regs(a, b, c, d), x, 28, 32);
    a := step(1, a, b, c, d, x[13], 0xa9e3e905, 5);
    d := step(1, d, a, b, c, x[2], 0xfcefa3f8, 9);
    c := step(1, c, d, a, b, x[7], 0x676f02d9, 14);
    b := step(1, b, c, d, a, x[12], 0x8d2a4c8a, 20);
  }

  method Round3(step: Mix, a0: word, b0: word, c0: word, d0: word, x: seq<word>)
    returns (a: word, b: word, c: word, d: word)
    requires |x| == 16
    ensures Regs(a, b, c, d) == Ops(step, Regs(a0, b0, c0, d0), x, 32, 48)
  {
    a, b, c, d := a0, b0, c0, d0;
    FourOps(step, Regs(a, b, c, d), x, 32, 48);
    a := step(2, a, b, c, d, x[5], 0xfffa3942, 4);
    d := step(2, d, a, b, c, x[8], 0x8771f681, 11);
    c := step(2, c, d, a, b, x[11], 0x6d9d6122, 16);
    b := step(2, b, c, d, a, x[14], 0xfde5380c, 23);
    FourOps(step, Regs(a, b, c, d), x, 36, 48);
    a := step(2, a, b, c, d, x[1], 0xa4beea44, 4);
    d := step(2, d, a, b, c, x[4], 0x4bdecfa9, 11);
    c := step(2, c, d, a, b, x[7], 0xf6bb4b60, 16);
    b := step(2, b, c, d, a, x[10], 0xbebfbc70, 23);
    FourOps(step, Regs(a, b, c, d), x, 40, 48);
    a := step(2, a, b, c, d, x[13], 0x289b7ec6, 4);
    d := step(2, d, a, b, c, x[0], 0xeaa127fa, 11);
    c := step(2, c, d, a, b, x[3], 0xd4ef3085, 16);
    b := step(2, b, c, d, a, x[6], 0x04881d05, 23);
    FourOps(step, Regs(a, b, c, d), x, 44, 48);
    a := step(2, a, b, c, d, x[9], 0xd9d4d039, 4);
    d := step(2, d, a, b, c, x[12], 0xe6db99e5, 11);
    c := step(2, c, d, a, b, x[15], 0x1fa27cf8, 16);
    b := step(2, b, c, d, a, x[2], 0xc4ac5665, 23);
  }

  method Round4(step: Mix, a0: word, b0: word, c0: word, d0: word, x: seq<word>)
    returns (a: word, b: word, c: word, d: word)
    requires |x| == 16
    ensures Regs(a, b, c, d) == Ops(step, Regs(a0, b0, c0, d0), x, 48, 64)
  {
    a, b, c, d := a0, b0, c0, d0;
    FourOps(step, Regs(a, b, c, d), x, 48, 64);
    a := step(3, a, b, c, d, x[0], 0xf4292244, 6);
    d := step(3, d, a, b, c, x[7], 0x432aff97, 10);
    c := step(3, c, d, a, b, x[14], 0xab9423a7, 15);
    b := step(3, b, c, d, a, x[5], 0xfc93a039, 21);
    FourOps(step, Regs(a, b, c, d), x, 52, 64);
    a := step(3, a, b, c, d, x[12], 0x655b59c3, 6);
    d := step(3, d, a, b, c, x[3], 0x8f0ccc92, 10);
    c := step(3, c, d, a, b, x[10], 0xffeff47d, 15);
    b := step(3, b, c, d, a, x[1], 0x85845dd1, 21);
    FourOps(step, Regs(a, b, c, d), x, 56, 64);
    a := step(3, a, b, c, d, x[8], 0x6fa87e4f, 6);
    d := step(3, d, a, b, c, x[15], 0xfe2ce6e0, 10);
    c := step(3, c, d, a, b, x[6], 0xa3014314, 15);
    b := step(3, b, c, d, a, x[13], 0x4e0811a1, 21);
    FourOps(step, Regs(a, b, c, d), x, 60, 64);
    a := step(3, a, b, c, d, x[4], 0xf7537e82, 6);
    d := step(3, d, a, b, c, x[11], 0xbd3af235, 10);
    c := step(3, c, d, a, b, x[2], 0x2ad7d2bb, 15);
    b := step(3, b, c, d, a, x[9], 0xeb86d391, 21);
  }

  method AllRounds(step: Mix, r0: Regs, x: seq<word>) returns (r: Regs)
    requires |x| == 16
    ensures r == Ops(step, r0, x, 0, 64)
  {
    var a, b, c, d := r0.a, r0.b, r0.c, r0.d;
    a, b, c, d := Round1(step, a, b, c, d, x);
    a, b, c, d := Round2(step, a, b, c, d, x);
    a, b, c, d := Round3(step, a, b, c, d, x);
    a, b, c, d := Round4(step, a, b, c, d, x);
    OpsJoin(step, r0, x, 16);
    OpsJoin(step, r0, x, 32);
    OpsJoin(step, r0, x, 48);
    r := Regs(a, b, c, d);
  }

  /** MD5Transform */
  method Md5Transform(buf: array<word>, x: seq<word>)
    requires buf.Length == 4 && |x| == 16
    modifies buf
    ensures buf[..] == CompressWords(old(buf[..]), x)
  {
    var r0 := Regs(buf[0], buf[1], buf[2], buf[3]);
    var r := AllRounds(Md5Step, r0, x);
    OpsAgree(r0, x, 0, 64);
    AddInto(buf, r);
  }

  method AddInto(buf: array<word>, r: Regs)
    requires buf.Length == 4
    modifies buf
    ensures buf[..] == Added(old(buf[..]), r)
  {
    buf[0] := Plus(buf[0], r.a);
    buf[1] := Plus(buf[1], r.b);
    buf[2] := Plus(buf[2], r.c);
    buf[3] := Plus(buf[3], r.d);
  }

  lemma OpsJoin(mix: Mix, r: Regs, x: seq<word>, k: nat)
    requires |x| == 16 && k + 16 <= 64
    ensures Ops(mix, r, x, 0, k + 16) == Ops(mix, Ops(mix, r, x, 0, k), x, k, k + 16)
  {
    OpsSplit(mix, r, x, 0, k, k + 16);
  }

  lemma {:induction false} OpsSplit(mix: Mix, r: Regs, x: seq<word>, i: nat, k: nat, n: nat)
    requires |x| == 16 && i <= k <= n <= 64
    ensures Ops(mix, r, x, i, n) == Ops(mix, Ops(mix, r, x, i, k), x, k, n)
    decreases k - i
  {
    if i < k { OpsSplit(mix, Op(mix, r, x, i), x, i + 1, k, n); }
  }

  // ------------------------------------------------- words in machine order

  function Native(big: bool, b: seq<byte>): word
    requires |b| >= 4
  {
    if big then FromLittleEndian([b[3], b[2], b[1], b[0]]) else FromLittleEndian(b)
  }

  function NativeBytes(big: bool, w: word): (b: seq<byte>)
    ensures |b| == 4
  {
    var l := LittleEndian(w);
    if big then [l[3], l[2], l[1], l[0]] else l
  }

  lemma NativeOfBytes(big: bool, w: word)
    ensures Native(big, NativeBytes(big, w)) == w
  {
    var l := LittleEndian(w);
    assert [l[0], l[1], l[2], l[3]] == l;
    WordOfBytes(w);
  }

  function NativeWords(big: bool, b: seq<byte>): (x: seq<word>)
    ensures |x| == |b| / 4
  {
    if |b| < 4 then [] else [Native(big, b)] + NativeWords(big, b[4..])
  }

  /** Little-endian words as machine words: on a little-endian machine the same bytes. */
  function Reversed(big: bool, b: seq<byte>): (r: seq<byte>)
    ensures |r| == |b|
    ensures !big ==> r == b
  {
    if |b| < 4 then b
    else
      BytesOfWord(b);
      NativeBytes(big, FromLittleEndian(b)) + Reversed(big, b[4..])
  }

  lemma {:induction false} NativeWordsOfReversed(big: bool, b: seq<byte>)
    ensures NativeWords(big, Reversed(big, b)) == Words(b)
  {
    if |b| >= 4 {
      var n := NativeBytes(big, FromLittleEndian(b));
      NativeHead(big, n, Reversed(big, b[4..]));
      NativeOfBytes(big, FromLittleEndian(b));
      NativeWordsOfReversed(big, b[4..]);
    }
  }

  lemma NativeHead(big: bool, n: seq<byte>, rest: seq<byte>)
    requires |n| == 4
    ensures NativeWords(big, n + rest) == [Native(big, n)] + NativeWords(big, rest)
  {
    assert (n + rest)[4..] == rest;
    assert Native(big, n + rest) == Native(big, n);
  }

  lemma {:induction false} NativeWordsSplit(big: bool, a: seq<byte>, b: seq<byte>)
    requires |a| % 4 == 0
    ensures NativeWords(big, a + b) == NativeWords(big, a) + NativeWords(big, b)
  {
    if |a| < 4 {
      assert a + b == b;
    } else {
      assert a == a[..4] + a[4..] && a + b == a[..4] + (a[4..] + b);
      NativeHead(big, a[..4], a[4..] + b);
      NativeHead(big, a[..4], a[4..]);
      NativeWordsSplit(big, a[4..], b);
      var n, r := NativeWords(big, a[4..]), NativeWords(big, b);
      assert [Native(big, a)] + (n + r) == ([Native(big, a)] + n) + r;
    }
  }

  method StoreNative(big: bool, a: array<byte>, at: nat, w: word)
    requires at + 4 <= a.Length
    modifies a
    ensures a[..] == old(a[..at]) + NativeBytes(big, w) + old(a[at + 4..])
  {
    var b := NativeBytes(big, w);
    a[at], a[at + 1], a[at + 2], a[at + 3] := b[0], b[1], b[2], b[3];
  }

  /** byteReverse */
  method ByteReverse(big: bool, buf: array<byte>, longs: nat)
    requires 0 < longs && 4 * longs <= buf.Length
    modifies buf
    ensures buf[..] == Reversed(big, old(buf[..4 * longs])) + old(buf[4 * longs..])
  {
    ghost var was, end := buf[..], 4 * longs;
    ghost var goal := Reversed(big, was[..end]);
    assert old(buf[..4 * longs]) == was[..end] && old(buf[4 * longs..]) == was[end..];
    var n := longs;
    var p := 0;
    while n > 0
      invariant p + 4 * n == end
      invariant buf[..][p..] == was[p..]
      invariant buf[..][..p] + Reversed(big, was[p..end]) == goal
    {
      ReversedStep(big, was, p, end, buf[..][..p]);
      ReverseWord(big, buf, p, was);
      p := p + 4;
      n := n - 1;
    }
    ReversedAll(big, was, end, buf[..]);
  }

  lemma ReversedAll(big: bool, was: seq<byte>, end: nat, now: seq<byte>)
    requires end <= |was| == |now| && now[end..] == was[end..]
    requires now[..end] + Reversed(big, was[end..end]) == Reversed(big, was[..end])
    ensures now == Reversed(big, was[..end]) + was[end..]
  {
    assert was[end..end] == [] && now[..end] + [] == now[..end];
    assert now == now[..end] + now[end..];
  }

  method ReverseWord(big: bool, buf: array<byte>, p: nat, ghost was: seq<byte>)
    requires p + 4 <= buf.Length == |was| && buf[..][p..] == was[p..]
    modifies buf
    ensures buf[..][..p + 4] == old(buf[..])[..p] + NativeBytes(big, FromLittleEndian(was[p..]))
    ensures buf[..][p + 4..] == was[p + 4..]
  {
    assert buf[p..] == buf[..][p..];
    var temp := FromLittleEndian(buf[p..]);
    ghost var before := buf[..];
    StoreNative(big, buf, p, temp);
    StoreShape(before, buf[..], p, NativeBytes(big, temp));
    assert before[p + 4..] == before[p..][4..] && was[p + 4..] == was[p..][4..];
  }

  lemma StoreShape(before: seq<byte>, after: seq<byte>, p: nat, b: seq<byte>)
    requires |b| == 4 && p + 4 <= |before| && after == before[..p] + b + before[p + 4..]
    ensures after[..p + 4] == before[..p] + b && after[p + 4..] == before[p + 4..]
  {
  }

  lemma ReversedStep(big: bool, was: seq<byte>, p: nat, end: nat, done: seq<byte>)
    requires p + 4 <= end <= |was|
    ensures FromLittleEndian(was[p..]) == FromLittleEndian(was[p..end])
    ensures done + Reversed(big, was[p..end]) ==
            (done + NativeBytes(big, FromLittleEndian(was[p..]))) + Reversed(big, was[p + 4..end])
  {
    assert was[p..end][4..] == was[p + 4..end];
  }
}
