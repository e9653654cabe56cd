/**
 * Kotlin's `Int`: 32-bit two's complement values whose `+` wraps around and
 * whose `/` truncates toward zero (Dafny's `/` on `int` is Euclidean).
 */
module Int32 {

  const MinI32: int := -0x8000_0000
  const MaxI32: int := 0x7fff_ffff

  /** The values a Kotlin `Int` can hold. */
  type i32 = v: int | MinI32 <= v <= MaxI32

  /** The result of a 32-bit addition or cast: `v` reduced modulo 2^32 into the signed range. */
  function Wrap(v: int): (r: i32)
    ensures MinI32 <= v <= MaxI32 ==> r == v
    ensures (v - r) % 0x1_0000_0000 == 0
  {
    (v - MinI32) % 0x1_0000_0000 + MinI32
  }

  /** Kotlin's integer division `a / b` for a positive divisor: the quotient rounded toward zero. */
  function Quot(a: int, b: int): (q: int)
    requires 0 < b
    ensures 0 <= a ==> 0 <= q && q * b <= a < q * b + b
    ensures a < 0 ==> q <= 0 && q * b - b < a <= q * b
  {
    if 0 <= a then a / b else -((-a) / b)
  }

  /** The quotient is the unique `k` whose interval `[k*b, k*b + b)` (mirrored below zero) holds `a`. */
  lemma {:induction false} QuotIs(a: int, b: int, k: int)
    requires 0 < b
    ensures Quot(a, b) == k <==>
      if k == 0 then -b < a < b
      else if 0 < k then k * b <= a < k * b + b
      else k * b - b < a <= k * b
  {
    var q := Quot(a, b);
    if q < k {
      assert q * b + b <= k * b by { MulMono(q + 1, k, b); }
    } else if k < q {
      assert k * b + b <= q * b by { MulMono(k + 1, q, b); }
    }
  }

  /** Multiplying by a positive number keeps the order of the factors. */
  lemma MulMono(m: int, n: int, b: int)
    requires m <= n && 0 < b
    ensures m * b <= n * b
  {
    assert n * b - m * b == (n - m) * b;
  }
}
