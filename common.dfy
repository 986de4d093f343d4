/** Small shared vocabulary: optional values, colours, and the JavaScript number
    conversions the game relies on (`x | 0`, `Math.round`, `Math.min`, `Math.max`). */
module Common {

  /** `null`/`undefined` versus a present value. */
  datatype Option<+T> = None | Some(value: T)

  /** An `[r, g, b]` colour array. */
  datatype Rgb = Rgb(r: int, g: int, b: int)

  /** The range of `Math.random()`. */
  predicate IsRandom(r: real)
  {
    0.0 <= r < 1.0
  }

  function MinReal(a: real, b: real): real
  {
    if a <= b then a else b
  }

  function MaxReal(a: real, b: real): real
  {
    if a >= b then a else b
  }

  /** Math.abs on a number. */
  function AbsReal(x: real): real
  {
    if x < 0.0 then -x else x
  }

  function MinInt(a: int, b: int): int
  {
    if a <= b then a else b
  }

  function MaxInt(a: int, b: int): int
  {
    if a >= b then a else b
  }

  /** The integer part of `x`, truncated toward zero. */
  function Trunc(x: real): (r: int)
    ensures x >= 0.0 ==> r as real <= x < r as real + 1.0
    ensures x < 0.0 ==> r as real - 1.0 < x <= r as real
  {
    if x >= 0.0 then x.Floor else -((-x).Floor)
  }

  const TWO_32: int := 0x1_0000_0000
  const TWO_31: int := 0x8000_0000

  /** `x | 0`: truncation toward zero, then wrap-around into a signed 32-bit integer. */
  function ToInt32(x: real): (r: int)
    ensures -TWO_31 <= r < TWO_31
    ensures -TWO_31 <= Trunc(x) < TWO_31 ==> r == Trunc(x)
  {
    var m := Trunc(x) % TWO_32;
    if m >= TWO_31 then m - TWO_32 else m
  }

  /** `Math.round`: the nearest integer, halves rounded toward +infinity. */
  function Round(x: real): (r: int)
    ensures x - 0.5 < r as real <= x + 0.5
  {
    (x + 0.5).Floor
  }

  function Sq(x: real): real
  {
    x * x
  }

  /** `h` is `Math.hypot(dx, dy)`: the non-negative length of (dx, dy). The
      square root is left to the caller; the model only needs this property. */
  predicate IsHypot(dx: real, dy: real, h: real)
  {
    h >= 0.0 && h * h == dx * dx + dy * dy
  }

  /** `hypot` is Math.hypot: it returns the length of every vector. The trigger
      keeps the square relation out of sight until a caller asks about one vector. */
  ghost predicate IsHypotFn(hypot: (real, real) -> real)
  {
    forall a, b {:trigger IsHypot(a, b, hypot(a, b))} :: IsHypot(a, b, hypot(a, b))
  }

  /** Squaring is strictly increasing on the non-negative reals. */
  lemma SquareBelow(a: real, b: real)
    requires 0.0 <= a < b
    ensures a * a < b * b
  {
    var bb, ab, aa := b * b, a * b, a * a;
    assert bb - ab > 0.0;
    assert ab - aa >= 0.0;
  }

  /** Comparing a length with a bound is comparing squares. */
  lemma HypotBelow(dx: real, dy: real, h: real, bound: real)
    requires IsHypot(dx, dy, h) && bound >= 0.0
    ensures h < bound <==> Sq(dx) + Sq(dy) < Sq(bound)
  {
    assert Sq(dx) + Sq(dy) == h * h && Sq(bound) == bound * bound;
    if h < bound {
      SquareBelow(h, bound);
    } else if bound < h {
      SquareBelow(bound, h);
    }
  }
}
