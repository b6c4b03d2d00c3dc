/** Integer and real helpers that give C++'s operators and library calls
    (`&`, `std::clamp`, `floor`) their meaning. */
module CArith {

  /** The largest value of a 32-bit signed `int`. */
  const IntMax: int := 0x7fff_ffff

  /** `(x & (1 << k)) != 0` for a non-negative `x`: bit `k` of `x` is set,
      that is, the lowest bit of `x` shifted right `k` times. */
  predicate Bit(x: nat, k: nat)
    decreases k
  {
    if k == 0 then x % 2 == 1 else Bit(x / 2, k - 1)
  }

  /** `(x >> (4 * k)) & 0xf` for a non-negative `x`: nibble `k` of `x`. */
  function Nibble(x: nat, k: nat): (n: nat)
    ensures n < 16
    decreases k
  {
    if k == 0 then x % 16 else Nibble(x / 16, k - 1)
  }

  /** `std::clamp(v, lo, hi)` on `double`. */
  function ClampReal(v: real, lo: real, hi: real): (r: real)
    requires lo <= hi
    ensures lo <= r <= hi
    ensures lo <= v <= hi ==> r == v
  {
    if v < lo then lo else if hi < v then hi else v
  }

  /** `std::clamp(v, lo, hi)` on `int`. */
  function ClampInt(v: int, lo: int, hi: int): (r: int)
    requires lo <= hi
    ensures lo <= r <= hi
    ensures lo <= v <= hi ==> r == v
  {
    if v < lo then lo else if hi < v then hi else v
  }

  /** Clamping into [0, hi] and flooring never rises above an integer bound
      `x <= hi` that `y` itself stays below. */
  lemma ClampFloorAtMost(y: real, x: int, hi: int)
    requires 0 <= x <= hi && y <= x as real
    ensures ClampReal(y, 0.0, hi as real).Floor <= x
  {
    var c := ClampReal(y, 0.0, hi as real);
    if y < 0.0 {
      assert c == 0.0;
    } else {
      assert c == y;
    }
  }

  lemma MulAtMostOne(x: real, f: real)
    requires 0.0 <= x && 0.0 <= f <= 1.0
    ensures x * f <= x
  {
    assert x * (1.0 - f) >= 0.0;
  }

  lemma MulNonPositive(x: real, f: real)
    requires 0.0 <= x && f <= 0.0
    ensures x * f <= 0.0
  {
    assert x * -f >= 0.0;
  }

  /** The fractional part `x - floor(x)`. */
  function Frac(x: real): (f: real)
    ensures 0.0 <= f < 1.0
  {
    x - x.Floor as real
  }

  /** Adding a whole number does not move the fractional part. */
  lemma FracShift(x: real, k: int)
    ensures Frac(x + k as real) == Frac(x)
  {
    var y := x + k as real;
    assert y.Floor == x.Floor + k;
  }

  lemma MulBelow(f: real, n: real)
    requires 0.0 <= f < 1.0 && n > 0.0
    ensures 0.0 <= f * n < n
  {
    assert (1.0 - f) * n > 0.0;
  }

  lemma FloorBelow(y: real, n: int)
    requires 0.0 <= y < n as real
    ensures 0 <= y.Floor < n
  {
    assert y.Floor as real <= y;
  }

  /** The Euclidean quotient and remainder are the only ones. */
  lemma DivUnique(a: int, w: int, q: int, r: int)
    requires w > 0 && 0 <= r < w && a == q * w + r
    ensures a / w == q && a % w == r
  {
    var q', r' := a / w, a % w;
    assert a == q' * w + r';
    if q' > q {
      MulAtLeast(q' - q, w);
    } else if q' < q {
      MulAtLeast(q - q', w);
    }
  }

  lemma {:induction false} MulAtLeast(d: int, w: int)
    requires d >= 1 && w > 0
    ensures d * w >= w
    decreases d
  {
    if d > 1 {
      MulAtLeast(d - 1, w);
      assert d * w == (d - 1) * w + w;
    }
  }
}
