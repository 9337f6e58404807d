/** Facts about products, quotients and remainders, and fixed-width unsigned operations. */
module Arithmetic {

  const TWO_16: nat := 0x1_0000
  const TWO_32: nat := 0x1_0000_0000
  const TWO_48: nat := 0x1_0000_0000_0000
  const TWO_64: nat := 0x1_0000_0000_0000_0000

  function U16(x: int): nat { x % TWO_16 }

  function U32(x: int): nat { x % TWO_32 }

  /** Subtraction of 64-bit unsigned numbers. */
  function U64Sub(a: nat, b: nat): int {
    if a >= b then a - b else a + TWO_64 - b
  }

  function Min(a: nat, b: nat): nat { if a <= b then a else b }

  function Max(a: nat, b: nat): nat { if a <= b then b else a }

  lemma MulMonotone(m: nat, a: int, b: int)
    requires a <= b
    ensures m * a <= m * b
  {
    assert m * (b - a) >= 0;
  }

  /** Quotient and remainder are the only ones. */
  lemma DivModUnique(x: int, m: int, q: int, r: int)
    requires 0 <= r < m && x == m * q + r
    ensures x / m == q && x % m == r
  {
    assert m * (q - x / m) == x % m - r;
    if q - x / m >= 1 {
      MulMonotone(m, 1, q - x / m);
    } else if q - x / m <= -1 {
      MulMonotone(m, q - x / m, -1);
    }
  }

  // Products and quotients that the solver does not look into

  function Times(a: nat, b: nat): nat
    decreases b
  {
    if b == 0 then 0 else a + Times(a, b - 1)
  }

  lemma {:induction false} TimesIs(a: nat, b: nat)
    ensures Times(a, b) == a * b
    decreases b
  {
    if b > 0 {
      TimesIs(a, b - 1);
      assert a * b == a + a * (b - 1);
    }
  }

  function Quot(a: nat, b: nat): nat
    requires 0 < b
  {
    if a < b then 0 else 1 + Quot(a - b, b)
  }

  lemma {:induction false} QuotIs(a: nat, b: nat)
    requires 0 < b
    ensures Quot(a, b) == a / b
  {
    if a < b {
      DivModUnique(a, b, 0, a);
    } else {
      QuotIs(a - b, b);
      var q, r := (a - b) / b, (a - b) % b;
      assert a == b * (q + 1) + r;
      DivModUnique(a, b, q + 1, r);
    }
  }
}
