/** Models base/bits.h, and the little-endian byte order of the machine. */
module Bits {
  import opened Arithmetic

  type byte = x: int | 0 <= x < 0x100

  function Pow2(n: nat): (p: nat)
    ensures p > 0
  {
    if n == 0 then 1 else 2 * Pow2(n - 1)
  }

  lemma {:induction false} Pow2Adds(m: nat, n: nat)
    ensures Pow2(m + n) == Pow2(m) * Pow2(n)
  {
    if m > 0 { Pow2Adds(m - 1, n); }
  }

  lemma {:induction false} Pow2Grows(m: nat, n: nat)
    requires m <= n
    ensures Pow2(m) <= Pow2(n)
    decreases n - m
  {
    if m < n { Pow2Grows(m, n - 1); }
  }

  /** The bounds that value gives n survive shifting value right to x. */
  lemma ShiftKeepsBounds(n: nat, value: nat, x: nat, p: nat, q: nat)
    requires value * p <= n < (value + 1) * p && x * q <= value < (x + 1) * q
    ensures x * (p * q) <= n < (x + 1) * (p * q)
  {
    MultiplyLeq(x * q, value, p);
    MultiplyLeq(value + 1, (x + 1) * q, p);
    MultiplyAssociates(x, q, p);
    MultiplyAssociates(x + 1, q, p);
  }

  lemma ShiftHalves(value: nat, x: nat, q: nat)
    requires value < q * q && x * q <= value
    ensures x < q
  {
    if x >= q { MultiplyLeq(q, x, q); }
  }

  /** value >> shift, where q is 2^shift */
  method ShiftRight(value: nat, q: nat) returns (x: nat)
    requires q > 0
    ensures x * q <= value < (x + 1) * q
  {
    x := value / q;
    Divided(value, q);
  }

  /** Log2Floor: the i with 2^i <= n < 2^(i+1), or -1 for 0. */
  method Log2Floor(n: nat) returns (log: int)
    requires n < 0x1_0000_0000
    ensures n == 0 ==> log == -1
    ensures n > 0 ==> 0 <= log < 32 && Pow2(log) <= n < Pow2(log + 1)
  {
    if n == 0 {
      return -1;
    }
    log := 0;
    var value: nat, i := n, 4;
    Pow2Of32();
    assert Narrowed(n, value, log, 5);
    while i >= 0
      invariant -1 <= i <= 4 && 0 <= log && Narrowed(n, value, log, i + 1)
      decreases i
    {
      var shift := Pow2(i);
      var x := ShiftRight(value, Pow2(shift));
      Narrows(n, value, log, i, x);
      if x != 0 {
        value := x;
        log := log + shift;
      }
      i := i - 1;
    }
    assert value == 1;
  }

  /** value is n shifted right by log, and fits in 2^i bits. */
  ghost predicate Narrowed(n: nat, value: nat, log: nat, i: nat) {
    && 0 < value < Pow2(Pow2(i)) && log <= 32 - Pow2(i)
    && value * Pow2(log) <= n < (value + 1) * Pow2(log)
  }

  lemma Narrows(n: nat, value: nat, log: nat, i: nat, x: nat)
    requires Narrowed(n, value, log, i + 1)
    requires x * Pow2(Pow2(i)) <= value < (x + 1) * Pow2(Pow2(i))
    ensures if x != 0 then Narrowed(n, x, log + Pow2(i), i) else Narrowed(n, value, log, i)
  {
    var shift := Pow2(i);
    var q := Pow2(shift);
    assert Pow2(i + 1) == shift + shift;
    Pow2Adds(shift, shift);
    Pow2Adds(log, shift);
    ShiftHalves(value, x, q);
    ShiftKeepsBounds(n, value, x, Pow2(log), q);
  }

  lemma Pow2Of32()
    ensures Pow2(5) == 32 && Pow2(32) == 0x1_0000_0000
  {
    Pow2Adds(16, 16);
    Pow2Adds(8, 8);
    Pow2Adds(4, 4);
    Pow2Adds(2, 2);
  }

  /** Log2Ceiling: the i with 2^(i-1) < n <= 2^i, or -1 for 0. */
  method Log2Ceiling(n: nat) returns (log: int)
    requires n < 0x1_0000_0000
    ensures n == 0 ==> log == -1
    ensures n > 0 ==> 0 <= log <= 32 && n <= Pow2(log) && (log > 0 ==> Pow2(log - 1) < n)
  {
    if n == 0 {
      return -1;
    }
    var floor := Log2Floor(n - 1);
    log := 1 + floor;
  }

  /** Align: the least multiple of alignment that is not below size. */
  function Align(size: nat, alignment: nat): (r: nat)
    requires alignment > 0
    ensures size <= r < size + alignment
  {
    var x := size + alignment - 1;
    x - x % alignment
  }

  // -------------------------------------------------------- little endian

  function LittleEndian(v: nat, n: nat): (b: seq<byte>)
    ensures |b| == n
  {
    if n == 0 then [] else [v % 0x100] + LittleEndian(v / 0x100, n - 1)
  }

  function FromLittleEndian(b: seq<byte>): nat {
    if b == [] then 0 else b[0] + 0x100 * FromLittleEndian(b[1..])
  }

  lemma {:induction false} LittleEndianRoundTrip(v: nat, n: nat)
    requires v < Pow2(8 * n)
    ensures FromLittleEndian(LittleEndian(v, n)) == v
  {
    if n > 0 {
      Pow2Adds(8, 8 * n - 8);
      assert Pow2(8) == 0x100;
      LittleEndianRoundTrip(v / 0x100, n - 1);
    }
  }

  lemma {:induction false} FromLittleEndianBound(b: seq<byte>)
    ensures FromLittleEndian(b) < Pow2(8 * |b|)
  {
    if b != [] {
      Pow2Adds(8, 8 * |b| - 8);
      assert Pow2(8) == 0x100;
      FromLittleEndianBound(b[1..]);
    }
  }

  lemma TimesByte(n: nat)
    ensures Pow2(8 * (n + 1)) == 0x100 * Pow2(8 * n)
  {
    Pow2Adds(8, 8 * n);
    assert Pow2(8) == 0x100;
  }

  /** Byte i is digit i, the lowest first. */
  lemma {:induction false} LittleEndianDigit(v: nat, n: nat, i: nat)
    requires i < n
    ensures LittleEndian(v, n)[i] == v / Pow2(8 * i) % 0x100
  {
    if i > 0 {
      LittleEndianDigit(v / 0x100, n - 1, i - 1);
      TimesByte(i - 1);
      DivideTwice(v, 0x100, Pow2(8 * (i - 1)));
    }
  }
}
