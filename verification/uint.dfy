/**
 Fixed-width machine integers of the Cortex-M target (int32_t, uint8_t,
 uint16_t, uint32_t) as subset types of `int`, the wrap-around of uint32_t
 arithmetic, and the few facts about multiplication and truncating division
 that the driver's scaling needs.
 */
module Uint {

  const U32_LIMIT: int := 0x1_0000_0000

  type u8 = x: int | 0 <= x < 0x100
  type u16 = x: int | 0 <= x < 0x1_0000
  type u32 = x: int | 0 <= x < 0x1_0000_0000
  type i32 = x: int | -0x8000_0000 <= x < 0x8000_0000

  /** The value a uint32_t keeps of a non-negative mathematical result. */
  function Wrap32(x: nat): (r: u32)
    ensures r <= x
    ensures x < U32_LIMIT ==> r == x
  {
    x % U32_LIMIT
  }

  lemma MulLeMono(a: nat, x: int, y: int)
    ensures x <= y ==> a * x <= a * y
  {
    assert a * y == a * x + a * (y - x);
  }

  /** Truncating division characterised without division: n / d is the floor of n over d. */
  lemma DivIsFloor(n: nat, d: nat)
    requires 0 < d
    ensures d * (n / d) <= n < d * (n / d + 1)
  {
    assert n == d * (n / d) + n % d;
  }

  lemma DivLeMono(x: nat, y: nat, d: nat)
    requires 0 < d
    ensures x <= y ==> x / d <= y / d
  {
    DivIsFloor(x, d);
    DivIsFloor(y, d);
    MulLeMono(d, y / d + 1, x / d);
  }

  lemma MulDivCancel(a: nat, d: nat)
    requires 0 < d
    ensures a * d / d == a
  {
    var q := a * d / d;
    DivIsFloor(a * d, d);
    MulLeMono(d, q + 1, a);
    MulLeMono(d, a + 1, q);
  }

  /** Scaling an amount no larger than the divisor never exceeds the factor. */
  lemma MulDivLe(a: nat, m: nat, d: nat)
    requires 0 < d
    ensures m <= d ==> a * m / d <= a
  {
    MulLeMono(a, m, d);
    DivLeMono(a * m, a * d, d);
    MulDivCancel(a, d);
  }

  /** n is at most a * m and m at most d, so n / d is at most a. */
  lemma ScaledWithin(n: nat, a: nat, m: nat, d: nat)
    requires 0 < d && n <= a * m
    ensures m <= d ==> n / d <= a
  {
    MulDivLe(a, m, d);
    DivLeMono(n, a * m, d);
  }
}
