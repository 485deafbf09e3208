/** Balances of 128 bits and moments of 64 bits, with the arithmetic the pallet uses:
    saturating, checked and wrapping. */
module U128 {

  const U128_MAX := 0xFFFF_FFFF_FFFF_FFFF_FFFF_FFFF_FFFF_FFFF
  const U64_MAX := 0xFFFF_FFFF_FFFF_FFFF

  type u128 = n: int | 0 <= n <= U128_MAX
  type u64 = n: int | 0 <= n <= U64_MAX

  function Saturate(n: nat): u128 {
    if n <= U128_MAX then n else U128_MAX
  }

  function SatAdd(a: u128, b: u128): u128 {
    Saturate(a + b)
  }

  function SatSub(a: u128, b: u128): u128 {
    if a >= b then a - b else 0
  }

  function SatMul(a: u128, b: u128): u128 {
    Saturate(a * b)
  }

  /** `checked_div(..).unwrap_or(zero)` */
  function DivOrZero(a: u128, b: u128): u128 {
    if b == 0 then 0 else Quotient(a, b)
  }

  lemma MulMonotone(a: nat, b: nat, c: nat)
    requires a <= b
    ensures a * c <= b * c
  {}

  function Quotient(a: nat, b: nat): (q: nat)
    requires b > 0
    ensures q * b <= a < (q + 1) * b
    ensures q <= a
  {
    QuotientBound(a, b);
    a / b
  }

  lemma QuotientBound(a: nat, b: nat)
    requires b > 0
    ensures 0 <= a / b <= a && (a / b) * b <= a < (a / b + 1) * b
  {
    var q := a / b;
    assert a == b * q + a % b;
    assert q * b == b * q;
    assert (q + 1) * b == q * b + b;
    MulMonotone(1, b, q);
  }

  /** A quotient is determined by the two bounds. */
  lemma QuotientIs(a: nat, b: nat, q: nat)
    requires b > 0 && q * b <= a < (q + 1) * b
    ensures Quotient(a, b) == q
  {
    var p := Quotient(a, b);
    if p < q {
      MulMonotone(p + 1, q, b);
    } else if p > q {
      MulMonotone(q + 1, p, b);
    }
  }

  /** It is the largest number that the division allows. */
  lemma AtMostQuotient(y: nat, a: nat, b: nat)
    requires b > 0
    ensures y <= Quotient(a, b) <==> y * b <= a
  {
    var q := Quotient(a, b);
    if y <= q {
      MulMonotone(y, q, b);
    } else {
      MulMonotone(q + 1, y, b);
    }
  }

  // ----- integer square root ------------------------------------------------------------

  ghost predicate IsRoot(n: nat, r: nat) {
    r * r <= n < (r + 1) * (r + 1)
  }

  lemma RootUnique(n: nat, r: nat, s: nat)
    requires IsRoot(n, r) && IsRoot(n, s)
    ensures r == s
  {
    if r < s {
      Squares(r + 1, s);
    } else if s < r {
      Squares(s + 1, r);
    }
  }

  lemma Squares(a: nat, b: nat)
    requires a <= b
    ensures a * a <= b * b
  {
    assert a * a <= a * b <= b * b;
  }

  lemma DoubledRoot(n: nat, h: nat)
    requires h * h <= n / 4 < (h + 1) * (h + 1)
    ensures (2 * h) * (2 * h) <= n < (2 * h + 2) * (2 * h + 2)
  {
    var s, t := h * h, (h + 1) * (h + 1);
    assert (2 * h) * (2 * h) == 4 * s;
    assert (2 * h + 2) * (2 * h + 2) == 4 * t;
  }

  lemma RootAtMost(n: nat, r: nat)
    requires r * r <= n
    ensures r <= n
  {
    if r > 0 {
      MulMonotone(1, r, r);
    }
  }

  function Root(n: nat): (r: nat)
    ensures IsRoot(n, r)
    ensures r <= n
  {
    if n == 0 then 0
    else
      var r := 2 * Root(n / 4);
      DoubledRoot(n, Root(n / 4));
      var root := if (r + 1) * (r + 1) <= n then r + 1 else r;
      RootAtMost(n, root);
      root
  }

  lemma RootOfSquare(r: nat)
    ensures Root(r * r) == r
  {
    RootUnique(r * r, Root(r * r), r);
  }

  /** `integer_sqrt`, by halving the interval that holds the root. */
  method IntegerSqrt(n: u128) returns (r: u128)
    ensures r == Root(n)
  {
    var high: nat := n + 1;
    var low: nat := 0;
    assert n < (n + 1) * (n + 1);
    while high - low > 1
      invariant 0 <= low < high <= n + 1
      invariant low * low <= n < high * high
      decreases high - low
    {
      var middle := (low + high) / 2;
      if middle * middle <= n {
        low := middle;
      } else {
        high := middle;
      }
    }
    RootUnique(n, low, Root(n));
    r := low;
  }

  // ----- wrapping arithmetic ------------------------------------------------------------

  /** `overflowing_add(..).0` on values up to `max`; no intermediate value leaves the range. */
  function OverflowingAdd(augend: nat, addend: nat, max: nat): (sum: nat)
    requires augend <= max && addend <= max
    ensures sum <= max
    ensures sum == (augend + addend) % (max + 1)
  {
    if augend + addend <= max then
      augend + addend
    else
      var room: nat := max - addend;
      var rest: nat := augend - room;
      var sum: nat := rest - 1;
      WrapOnce(augend + addend, max + 1);
      sum
  }

  /** `overflowing_sub(..).0` */
  function OverflowingSub(minuend: nat, subtrahend: nat, max: nat): (difference: nat)
    requires minuend <= max && subtrahend <= max
    ensures difference <= max
    ensures difference == (minuend - subtrahend) % (max + 1)
  {
    if subtrahend <= minuend then
      minuend - subtrahend
    else
      var rest: nat := max - subtrahend;
      assert rest + minuend <= max;
      WrapUp(minuend - subtrahend, max + 1);
      rest + minuend + 1
  }

  lemma WrapOnce(n: nat, m: nat)
    requires m > 0 && m <= n < 2 * m
    ensures n % m == n - m
  {}

  lemma WrapUp(n: int, m: nat)
    requires m > 0 && 0 < -n < m
    ensures n % m == m + n
  {}
}
