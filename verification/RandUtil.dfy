/** Models base/rand_util.cc: rejection sampling over 64-bit draws. */
module RandUtil {
  import opened Arithmetic

  const MAX: int := 0xffff_ffff_ffff_ffff

  type uint64 = x: int | 0 <= x <= MAX
  type int32 = x: int | -0x8000_0000 <= x < 0x8000_0000

  /** How many whole ranges fit below the largest value. */
  function Quota(range: uint64): (q: nat)
    requires range > 0
    ensures q > 0
  {
    QuotaFits(range);
    MAX / range
  }

  lemma QuotaFits(range: uint64)
    requires range > 0
    ensures 1 <= MAX / range && MAX / range * range <= MAX < MAX / range * range + range
  {
    DivisionIs(MAX, range);
  }

  /** max_acceptable_value, in 64-bit arithmetic that never wraps. */
  function MaxAcceptable(range: uint64): (m: uint64)
    requires range > 0
  {
    QuotaFits(range);
    MAX / range * range - 1
  }

  predicate Accepted(range: uint64, v: uint64)
    requires range > 0
  {
    v <= MaxAcceptable(range)
  }

  /** At least half of all draws are accepted, so the loop ends soon. */
  lemma HalfIsAccepted(range: uint64)
    requires range > 0
    ensures MaxAcceptable(range) + 1 >= 0x8000_0000_0000_0000
    ensures MaxAcceptable(range) + 1 == Quota(range) * range
  {
    QuotaFits(range);
    if range >= 0x8000_0000_0000_0000 {
      MultiplyLeq(1, MAX / range, range);
    }
  }

  // ----------------------------------------------------- one draw is uniform

  /** The values below bound that leave this remainder. */
  function WithRemainder(bound: nat, range: nat, r: nat): set<nat>
    requires range > 0
  {
    set v: nat | v < bound && v % range == r
  }

  /** One more whole range adds one value with each remainder. */
  lemma OneMoreRange(n: nat, range: nat, r: nat)
    requires r < range
    ensures n * range + r !in WithRemainder(n * range, range, r)
    ensures WithRemainder(n * range + range, range, r) == WithRemainder(n * range, range, r) + {n * range + r}
  {
    forall v: nat | n * range <= v < n * range + range ensures v % range == v - n * range {
      RemainderIs(v, n, range);
    }
    assert (n * range + r) % range == r;
  }

  lemma {:induction false} EachRemainderOften(n: nat, range: nat, r: nat)
    requires r < range
    ensures |WithRemainder(n * range, range, r)| == n
  {
    if n == 0 {
      assert WithRemainder(0 * range, range, r) == {};
    } else {
      EachRemainderOften(n - 1, range, r);
      OneMoreRange(n - 1, range, r);
      assert (n - 1) * range + range == n * range;
    }
  }

  /** The draws for which RandGenerator returns r at once. */
  function DrawsFor(range: uint64, r: nat): set<nat>
    requires range > 0
  {
    set v: nat | v <= MAX && Accepted(range, v) && v % range == r
  }

  /** Each result has exactly the same number of draws. */
  lemma EachResultEquallyOften(range: uint64, r: nat)
    requires 0 <= r < range
    ensures |DrawsFor(range, r)| == MAX / range
  {
    var n := MAX / range;
    QuotaFits(range);
    EachRemainderOften(n, range, r);
    assert DrawsFor(range, r) == WithRemainder(n * range, range, r);
  }

  // --------------------------------------------------- many draws are uniform

  /** Where the first accepted draw is, or the length. */
  function FirstAccepted(range: uint64, draws: seq<uint64>): (i: nat)
    requires range > 0
    ensures i <= |draws| && (i < |draws| ==> Accepted(range, draws[i]))
    ensures forall j :: 0 <= j < i ==> !Accepted(range, draws[j])
  {
    if draws == [] || Accepted(range, draws[0]) then 0 else 1 + FirstAccepted(range, draws[1..])
  }

  /** RandGenerator; the draws are what RandUint64 returns, one after another,
      and the loop ends within them. */
  method RandGenerator(range: uint64, draws: seq<uint64>) returns (result: uint64, used: nat)
    requires range > 0 && FirstAccepted(range, draws) < |draws|
    ensures used == FirstAccepted(range, draws) + 1 && result == draws[used - 1] % range < range
  {
    QuotaFits(range);
    var maxAcceptableValue := MAX / range * range - 1;
    var value := draws[0];
    used := 1;
    while value > maxAcceptableValue
      invariant 1 <= used <= FirstAccepted(range, draws) + 1 && value == draws[used - 1]
      decreases |draws| - used
    {
      value := draws[used];
      used := used + 1;
    }
    DivisionIs(value, range);
    result := value % range;
  }

  /** Exchanges two results. */
  function Exchanged(a: nat, b: nat, r: nat): nat {
    if r == a then b else if r == b then a else r
  }

  /** The draw that gives the exchanged result, in the same whole range. */
  function ExchangedDraw(range: uint64, a: nat, b: nat, v: uint64): (w: uint64)
    requires 0 <= a < range && 0 <= b < range
  {
    if !Accepted(range, v) then v
    else
      DivisionIs(v, range);
      QuotaFits(range);
      StaysBelow(range, v, Exchanged(a, b, v % range));
      v - v % range + Exchanged(a, b, v % range)
  }

  lemma SameRange(d: nat, q: nat, range: nat, m: nat, r: nat)
    requires d * range + m < q * range && r < range
    ensures 0 <= d * range + r < q * range
  {
    if q <= d { MultiplyLeq(q, d, range); }
    MultiplyLeq(d + 1, q, range);
    Distribute(d, range);
    MultiplyLeq(0, d, range);
  }

  lemma StaysBelow(range: uint64, v: uint64, r: nat)
    requires range > 0 && Accepted(range, v) && r < range
    ensures 0 <= v - v % range + r <= MaxAcceptable(range)
    ensures (v - v % range + r) % range == r
  {
    QuotaFits(range);
    DivisionIs(v, range);
    var d, q, limit := v / range, MAX / range, MAX / range * range;
    StaysBelowAs(range, v, r, d, v % range, d * range, q, limit);
  }

  lemma StaysBelowAs(range: nat, v: nat, r: nat, d: nat, m: nat, base: nat, q: nat, limit: nat)
    requires range > 0 && r < range && m < range && base == d * range && limit == q * range
    requires v == base + m && v < limit
    ensures 0 <= v - m + r < limit && (v - m + r) % range == r
  {
    SameRange(d, q, range, m, r);
    RemainderIs(base + r, d, range);
  }

  /** It is its own inverse, keeps acceptance, and exchanges the results: a
      bijection of the draws under which a and b are alike. */
  lemma ExchangeIsSymmetry(range: uint64, a: nat, b: nat, v: uint64)
    requires 0 <= a < range && 0 <= b < range
    ensures var w := ExchangedDraw(range, a, b, v);
      && Accepted(range, w) == Accepted(range, v)
      && ExchangedDraw(range, a, b, w) == v
      && (Accepted(range, v) ==> w % range == Exchanged(a, b, v % range))
  {
    if Accepted(range, v) {
      DivisionIs(v, range);
      StaysBelow(range, v, Exchanged(a, b, v % range));
    }
  }

  function ExchangedDraws(range: uint64, a: nat, b: nat, draws: seq<uint64>): (ws: seq<uint64>)
    requires 0 <= a < range && 0 <= b < range
    ensures |ws| == |draws|
  {
    seq(|draws|, i requires 0 <= i < |draws| => ExchangedDraw(range, a, b, draws[i]))
  }

  /** Exactly uniform over any number of draws: exchanging the draws exchanges
      the results and changes neither how many are used nor anything else. */
  lemma {:induction false} AllResultsAreAlike(range: uint64, a: nat, b: nat, draws: seq<uint64>)
    requires 0 <= a < range && 0 <= b < range
    ensures var ws := ExchangedDraws(range, a, b, draws); var i := FirstAccepted(range, draws);
      && FirstAccepted(range, ws) == i
      && (i < |draws| ==> ws[i] % range == Exchanged(a, b, draws[i] % range))
      && ExchangedDraws(range, a, b, ws) == draws
  {
    var ws := ExchangedDraws(range, a, b, draws);
    forall i | 0 <= i < |draws|
      ensures Accepted(range, ws[i]) == Accepted(range, draws[i])
      ensures ExchangedDraw(range, a, b, ws[i]) == draws[i]
      ensures Accepted(range, draws[i]) ==> ws[i] % range == Exchanged(a, b, draws[i] % range)
    {
      ExchangeIsSymmetry(range, a, b, draws[i]);
    }
    assert ExchangedDraws(range, a, b, ws) == draws;
    SameFirst(range, draws, ws);
  }

  lemma {:induction false} SameFirst(range: uint64, draws: seq<uint64>, ws: seq<uint64>)
    requires range > 0 && |ws| == |draws|
    requires forall i :: 0 <= i < |draws| ==> Accepted(range, ws[i]) == Accepted(range, draws[i])
    ensures FirstAccepted(range, ws) == FirstAccepted(range, draws)
  {
    if draws != [] && !Accepted(range, draws[0]) {
      SameFirst(range, draws[1..], ws[1..]);
    }
  }

  // ------------------------------------------------------------------ RandInt

  /** Conversion to uint64_t. */
  function ToUnsigned(x: int): (u: uint64)
    requires -0x8000_0000_0000_0000 <= x <= MAX
  {
    if x < 0 then x + MAX + 1 else x
  }

  /** uint64_t subtraction and increment, each modulo 2^64. */
  function Wrapped(x: int): (u: uint64)
    requires -MAX <= x <= MAX + 1
  {
    if x < 0 then x + MAX + 1 else if x > MAX then x - MAX - 1 else x
  }

  /** RandInt: all integers from min to max, bounds of either sign. */
  method RandInt(min: int32, max: int32, draws: seq<uint64>) returns (result: int32, used: nat)
    requires min <= max && FirstAccepted(max - min + 1, draws) < |draws|
    ensures min <= result <= max
    ensures used == FirstAccepted(max - min + 1, draws) + 1
    ensures result == min + draws[used - 1] % (max - min + 1)
  {
    var range := Wrapped(Wrapped(ToUnsigned(max) - ToUnsigned(min)) + 1);
    assert range == max - min + 1;
    var r: uint64;
    r, used := RandGenerator(range, draws);
    result := min + r;
  }

  /** The draws for which RandInt returns x at once. */
  function IntDrawsFor(min: int32, range: uint64, x: int32): set<nat>
    requires range > 0
  {
    set v: nat | v <= MAX && Accepted(range, v) && min + v % range == x
  }

  /** Each integer from min to max has exactly the same number of draws. */
  lemma EachIntEquallyOften(min: int32, max: int32, x: int32)
    requires min <= x <= max
    ensures |IntDrawsFor(min, max - min + 1, x)| == MAX / (max - min + 1)
  {
    var range := max - min + 1;
    EachResultEquallyOften(range, x - min);
    assert IntDrawsFor(min, range, x) == DrawsFor(range, x - min);
  }
}
