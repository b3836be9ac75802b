/** Fixed-width unsigned arithmetic of the C++ `unsigned` type (32 bits). */
module Unsigned {

  const U32_MODULUS: nat := 0x1_0000_0000

  /** The values an `unsigned` can hold. */
  type u32 = x: nat | x < U32_MODULUS

  /** `a + b` on `unsigned`: wraps around modulo 2^32. */
  function Add32(a: u32, b: u32): (r: u32)
    ensures a + b < U32_MODULUS ==> r == a + b
    ensures a + b >= U32_MODULUS ==> r == a + b - U32_MODULUS
  {
    (a + b) % U32_MODULUS
  }

  /** `a - b` on `unsigned`: wraps around modulo 2^32. */
  function Sub32(a: u32, b: u32): (r: u32)
    ensures b <= a ==> r == a - b
    ensures a < b ==> r == a - b + U32_MODULUS
  {
    (a - b) % U32_MODULUS
  }

  /** `x` is `x0` advanced by `d` on `unsigned`: `x0 + d` wrapped modulo 2^32. */
  ghost predicate Advanced(x0: int, d: int, x: int)
  {
    x == (x0 + d) % U32_MODULUS
  }

  /** Taking away what was added gives back the start, wrap-around or not. */
  lemma SubUndoesAdd(a: u32, b: u32)
    ensures Sub32(Add32(a, b), b) == a
  {
  }

  /** Adding in two wrapped steps is adding once modulo 2^32. */
  lemma AddMod(a: int, b: int)
    ensures (a % U32_MODULUS + b) % U32_MODULUS == (a + b) % U32_MODULUS
  {
    var q := a / U32_MODULUS;
    assert a == q * U32_MODULUS + a % U32_MODULUS;
    assert a + b == q * U32_MODULUS + (a % U32_MODULUS + b);
    ModShift(a % U32_MODULUS + b, q);
  }

  lemma ModShift(x: int, q: int)
    ensures (q * U32_MODULUS + x) % U32_MODULUS == x % U32_MODULUS
  {
    var r := x % U32_MODULUS;
    var p := x / U32_MODULUS;
    assert x == p * U32_MODULUS + r;
    assert q * U32_MODULUS + x == (q + p) * U32_MODULUS + r;
  }

  /** `Add32(x % 2^32, b)` is `(x + b) % 2^32`: wrapped increments accumulate modulo 2^32. */
  lemma AddAfterMod(x: nat, b: u32)
    ensures Add32(x % U32_MODULUS, b) == (x + b) % U32_MODULUS
  {
    AddMod(x, b);
  }

  /** A value already in range is its own remainder. */
  lemma SmallMod(x: int)
    requires 0 <= x < U32_MODULUS
    ensures x % U32_MODULUS == x
  {
  }
}
