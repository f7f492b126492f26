/** Shared value types of the demo: an optional value, pygame's integer
    rectangle, pygame's real-valued 2D vector, and the global constants of
    the native canvas and the background. */
module Base {

  datatype Option<+T> = None | Some(value: T)

  /** pygame `Rect`: integer top-left corner and size. */
  datatype Rect = Rect(x: int, y: int, width: int, height: int)
  {
    /** pygame's derived `bottom` attribute. */
    function Bottom(): int { y + height }
  }

  /** pygame `Vector2`; its float components are modelled as exact reals. */
  datatype Vec2 = Vec2(x: real, y: real)

  /** Width of the low-resolution canvas everything is drawn on. */
  const NativeWidth: int := 320
  /** Half of the native canvas width: the camera centres its target by it. */
  const HalfNativeWidth: int := 160
  /** Every background image of this game is this wide. */
  const BackgroundWidth: int := 336

  function Abs(n: int): (r: nat)
    ensures r == n || r == -n
  {
    if n < 0 then -n else n
  }

  function AbsReal(v: real): (r: real)
    ensures r >= 0.0
    ensures r == v || r == -v
  {
    if v < 0.0 then -v else v
  }
}

/** Small facts of integer arithmetic that the solver does not find alone. */
module Arith {

  /** Euclidean quotient and remainder are unique. */
  lemma DivModUnique(a: int, p: int, q: int, r: int)
    requires p > 0 && 0 <= r < p && a == q * p + r
    ensures a / p == q && a % p == r
  {
    var q' := a / p;
    var r' := a % p;
    assert a == q' * p + r';
    if q > q' {
      MulAtLeast(q - q', p);
    } else if q < q' {
      MulAtLeast(q' - q, p);
    }
  }

  lemma MulAtLeast(d: int, p: int)
    requires d >= 1 && p > 0
    ensures d * p >= p
  {
    assert d * p == (d - 1) * p + p;
    assert (d - 1) * p >= 0;
  }

  lemma MulSucc(a: int, b: int)
    ensures (a + 1) * b == a * b + b
  {
  }

  /** Multiplying by a non-negative factor keeps the order. */
  lemma MulMonotone(a: int, b: int, c: int)
    requires a <= b && c >= 0
    ensures a * c <= b * c
  {
    assert b * c - a * c == (b - a) * c;
  }
}
