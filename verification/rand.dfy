/**
 This module models the three shapes of p5's `random` that the game uses.
 Each call consumes one draw `u` of the underlying generator, a real in
 [0, 1); the caller supplies the draws, so every function here is pure.
 */
module Rand {

  /** One draw of the generator: a value in [0, 1). */
  type Unit = u: real | 0.0 <= u < 1.0

  function Min(a: real, b: real): real { if a <= b then a else b }

  function Max(a: real, b: real): real { if a <= b then b else a }

  function Abs(a: real): real { if a < 0.0 then -a else a }

  lemma MulNonneg(a: real, b: real)
    requires 0.0 <= a && 0.0 <= b
    ensures 0.0 <= a * b
  {
  }

  lemma MulPos(a: real, b: real)
    requires 0.0 < a && 0.0 < b
    ensures 0.0 < a * b
  {
  }

  /** Scaling by a draw keeps a non-negative width inside [0, width). */
  lemma ScaleBounds(u: Unit, w: real)
    ensures 0.0 <= w ==> 0.0 <= u * w && u * w <= w
    ensures 0.0 < w ==> u * w < w
    ensures w == 0.0 ==> u * w == 0.0
  {
    if 0.0 <= w {
      MulNonneg(u, w);
      MulNonneg(1.0 - u, w);
    }
    if 0.0 < w {
      MulPos(1.0 - u, w);
    }
  }

  /** `random(m)`: the draw scaled by `m`, so a value in [0, m) for positive `m`. */
  function Below(m: real, u: Unit): (v: real)
    ensures 0.0 <= m ==> 0.0 <= v && v <= m
    ensures 0.0 < m ==> v < m
    ensures m == 0.0 ==> v == 0.0
  {
    var v := u * m;
    ScaleBounds(u, m);
    // The solver needs the product's bounds restated on the named value.
    assert 0.0 <= m ==> 0.0 <= v <= m;
    assert 0.0 < m ==> v < m;
    assert m == 0.0 ==> v == 0.0;
    v
  }

  /**
   `random(a, b)`: the bounds are swapped when `a > b`, then the draw is
   scaled into the half-open interval [lo, hi).
   */
  function Between(a: real, b: real, u: Unit): (v: real)
    ensures Min(a, b) <= v && v <= Max(a, b)
    ensures a != b ==> v < Max(a, b)
  {
    var lo := Min(a, b);
    var hi := Max(a, b);
    lo + Below(hi - lo, u)
  }

  /** `random(xs)`: the element at index floor(u * |xs|). */
  function Pick<T>(xs: seq<T>, u: Unit): (v: T)
    requires |xs| > 0
    ensures v in xs
  {
    var scaled := u * |xs| as real;
    assert 0.0 <= scaled < |xs| as real;
    xs[scaled.Floor]
  }

}
