/** bits::Align as it is written, with a mask on words of some width, against
    the multiple that it is documented to be. */
module Alignment {
  import opened Arithmetic
  import opened Bits

  /** x & y */
  function And(x: nat, y: nat): nat {
    if x == 0 || y == 0 then 0
    else (if x % 2 == 1 && y % 2 == 1 then 1 else 0) + 2 * And(x / 2, y / 2)
  }

  /** (size + alignment - 1) & ~(alignment - 1) where a word has this many values. */
  function MaskedAlign(size: nat, alignment: nat, values: nat): nat
    requires 0 < alignment <= values
  {
    And((size + alignment - 1) % values, values - 1 - (alignment - 1))
  }

  lemma HalfRemainder(x: nat, p: nat)
    requires p > 0
    ensures x % (2 * p) == x % 2 + 2 * (x / 2 % p)
  {
    DivisionIs(x / 2, p);
    var q, r := x / 2 / p, x / 2 % p;
    MultiplyAssociates(q, 2, p);
    assert q * (2 * p) == 2 * (q * p);
    RemainderIs(x, q, 2 * p);
  }

  lemma AndByHalves(x: nat, y: nat)
    ensures And(x, 2 * y) == 2 * And(x / 2, y)
    ensures And(x, 2 * y + 1) == x % 2 + 2 * And(x / 2, y)
  {
    assert (2 * y + 1) / 2 == y && 2 * y / 2 == y;
  }

  /** The lowest k bits of x. */
  function LowBits(x: nat, k: nat): nat {
    if k == 0 then 0 else x % 2 + 2 * LowBits(x / 2, k - 1)
  }

  lemma {:induction false} LowBitsAreRemainder(x: nat, k: nat)
    ensures LowBits(x, k) == x % Pow2(k)
  {
    if k > 0 {
      LowBitsAreRemainder(x / 2, k - 1);
      HalfRemainder(x, Pow2(k - 1));
    }
  }

  lemma {:induction false} OnesKeepAll(x: nat, n: nat, mask: nat)
    requires x < Pow2(n) && mask == Pow2(n) - 1
    ensures And(x, mask) == x
    decreases n
  {
    if n > 0 {
      OnesKeepAll(x / 2, n - 1, Pow2(n - 1) - 1);
      AndByHalves(x, Pow2(n - 1) - 1);
    }
  }

  /** A mask whose lowest k bits are clear clears these bits. */
  lemma {:induction false} MaskClearsLowBits(x: nat, k: nat, n: nat, mask: nat)
    requires k <= n && x < Pow2(n) && mask == Pow2(n) - Pow2(k)
    ensures And(x, mask) == x - LowBits(x, k)
    decreases n
  {
    if k == 0 {
      OnesKeepAll(x, n, mask);
    } else {
      var half: int := Pow2(n - 1) - Pow2(k - 1);
      assert mask == 2 * half;
      MaskClearsLowBits(x / 2, k - 1, n - 1, half);
      AndByHalves(x, half);
    }
  }

  lemma AddProducts(p: nat, q: nat, a: nat)
    ensures (p + q) * a == p * a + q * a
  {
  }

  /** Subtracting multiples of a * b changes no remainder by a. */
  lemma SameRemainder(y: nat, c: nat, a: nat, b: nat, z: nat)
    requires a > 0 && y == c * (b * a) + z
    ensures y % a == z % a
  {
    DivisionIs(z, a);
    var q := z / a;
    MultiplyAssociates(c, b, a);
    AddProducts(c * b, q, a);
    RemainderIs(y, c * b + q, a);
  }

  lemma RemainderFits(z: nat, a: nat)
    requires a > 0
    ensures z % a <= z
  {
  }

  /** Rounding down to a multiple of a happens within the last stretch of n. */
  lemma RoundsWithin(y: nat, c: nat, a: nat, b: nat, n: nat, z: nat)
    requires a > 0 && n == b * a && y == c * n + z && z < n
    ensures y % a == z % a <= z && (y - y % a) % n == z - z % a
  {
    SameRemainder(y, c, a, b, z);
    RemainderFits(z, a);
    RemainderOf(y - y % a, c, n, z - z % a);
  }

  lemma RemainderOf(v: int, c: nat, n: nat, r: nat)
    requires r < n && v == c * n + r
    ensures v % n == r
  {
    MultiplyLeq(0, c, n);
    RemainderIs(v, c, n);
  }

  lemma Quotient(y: nat, n: nat) returns (c: nat, z: nat)
    requires n > 0
    ensures y == c * n + z && z < n && z == y % n
  {
    c, z := y / n, y % n;
    DivisionIs(y, n);
  }

  lemma Masked(size: nat, a: nat, b: nat, n: nat, low: nat)
    requires a > 0 && n == b * a && a <= n
    requires low == (size + a - 1) % n % a
    requires And((size + a - 1) % n, n - 1 - (a - 1)) == (size + a - 1) % n - low
    ensures MaskedAlign(size, a, n) == Align(size, a) % n
  {
    var c, z := Quotient(size + a - 1, n);
    RoundsWithin(size + a - 1, c, a, b, n, z);
  }

  lemma MaskOnWord(x: nat, k: nat, width: nat, a: nat, n: nat)
    requires k <= width && a == Pow2(k) && n == Pow2(width) && a <= n && x < n
    ensures LowBits(x, k) == x % a && And(x, n - 1 - (a - 1)) == x - LowBits(x, k)
  {
    MaskClearsLowBits(x, k, width, n - 1 - (a - 1));
    LowBitsAreRemainder(x, k);
  }

  lemma Factor(k: nat, width: nat) returns (a: nat, b: nat, n: nat)
    requires k <= width
    ensures a == Pow2(k) && n == Pow2(width) && n == b * a && 0 < a <= n
  {
    a, b, n := Pow2(k), Pow2(width - k), Pow2(width);
    Pow2Adds(width - k, k);
    Pow2Grows(k, width);
  }

  /** The mask rounds up to a multiple of a power of two; where the sum does not
      fit in a word, it wraps around as the multiple does. */
  lemma MaskedIsMultiple(size: nat, k: nat, width: nat)
    requires k <= width
    ensures 0 < Pow2(k) <= Pow2(width)
    ensures MaskedAlign(size, Pow2(k), Pow2(width)) == Align(size, Pow2(k)) % Pow2(width)
  {
    var a, b, n := Factor(k, width);
    var x := (size + a - 1) % n;
    MaskOnWord(x, k, width, a, n);
    Masked(size, a, b, n, LowBits(x, k));
  }
}
