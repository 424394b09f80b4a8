/** Numeric and vector vocabulary shared by the demos: C-style truncating
    conversions, the clamps of the C++ standard library and of raylib, and a
    two-component vector over exact reals. */
module Basics {

  datatype Option<T> = None | Some(value: T)

  /** raylib's PI, as an exact real. */
  const PI: real := 3.14159265358979323846
  const DEG2RAD: real := PI / 180.0

  /** `Vector2` (and the `v2d` of the Mandelbrot viewer), over exact reals. */
  datatype Vec2 = Vec2(x: real, y: real) {
    function Add(o: Vec2): Vec2 { Vec2(x + o.x, y + o.y) }
    function Sub(o: Vec2): Vec2 { Vec2(x - o.x, y - o.y) }
    function Scale(k: real): Vec2 { Vec2(x * k, y * k) }
    function Dot(o: Vec2): real { x * o.x + y * o.y }
    /** Squared length; lengths are only ever compared, and the square root is
        monotone, so comparing squares decides the same way. */
    function LengthSq(): real { x * x + y * y }
  }

  function Abs(r: real): (a: real)
    ensures a >= 0.0 && (a == r || a == -r)
  {
    if r < 0.0 then -r else r
  }

  function Min(a: real, b: real): (m: real)
    ensures m <= a && m <= b && (m == a || m == b)
  {
    if a <= b then a else b
  }

  function Max(a: real, b: real): (m: real)
    ensures m >= a && m >= b && (m == a || m == b)
  {
    if a >= b then a else b
  }

  /** The conversion of a floating value to `int` in C and C++: truncation
      toward zero. */
  function Trunc(r: real): (n: int)
    ensures 0.0 <= r ==> 0 <= n && n as real <= r < n as real + 1.0
    ensures r < 0.0 ==> n <= 0 && n as real - 1.0 < r <= n as real
  {
    if r >= 0.0 then r.Floor else -((-r).Floor)
  }

  /** Integer division as C and C++ define it: the quotient truncated toward
      zero (Dafny's own `/` is Euclidean). */
  function TruncDiv(n: int, d: int): (q: int)
    requires d > 0
    ensures 0 <= n ==> 0 <= q <= n
    ensures n < 0 ==> n <= q <= 0
  {
    if n >= 0 then DivBounds(n, d); n / d else DivBounds(-n, d); -((-n) / d)
  }

  lemma DivBounds(a: nat, d: int)
    requires d > 0
    ensures 0 <= a / d <= a
  {
    var q, m := a / d, a % d;
    assert a == d * q + m && 0 <= m < d;
    if q < 0 {
      MulMonotone(q, -1, d);
      assert false;
    }
    MulMonotone(1, d, q);
  }

  /** Multiplying by a natural number keeps the order. */
  lemma {:induction false} MulMonotone(a: int, b: int, c: nat)
    requires a <= b
    ensures a * c <= b * c
    decreases c
  {
    if c > 0 {
      MulMonotone(a, b, c - 1);
      assert a * c == a * (c - 1) + a;
      assert b * c == b * (c - 1) + b;
    }
  }

  /** Converting an integer quotient to `int` after dividing in floating point
      agrees with C's integer division (exact arithmetic). */
  lemma {:induction false} TruncOfQuotient(n: int, d: int)
    requires d > 0
    ensures Trunc(n as real / d as real) == TruncDiv(n, d)
  {
    var a := if n >= 0 then n else -n;
    var q, m := a / d, a % d;
    DivBounds(a, d);
    QuotientSplit(a, d, q, m);
    var f := m as real / d as real;
    FloorOf(q, f);
    if n >= 0 {
      assert n as real / d as real == q as real + f;
      assert TruncDiv(n, d) == q;
    } else {
      assert n as real / d as real == -(q as real + f);
      assert TruncDiv(n, d) == -q;
    }
  }

  /** The real quotient of a Euclidean division is the integer quotient plus
      a fraction in [0, 1). */
  lemma QuotientSplit(a: int, d: int, q: int, m: int)
    requires d > 0 && a == d * q + m && 0 <= m < d
    ensures a as real / d as real == q as real + m as real / d as real
    ensures 0.0 <= m as real / d as real < 1.0
  {
    var dr := d as real;
    var f := m as real / dr;
    assert f * dr == m as real;
    assert (d * q) as real == dr * q as real;
    assert (q as real + f) * dr == a as real;
  }

  lemma FloorOf(q: int, f: real)
    requires 0.0 <= f < 1.0
    ensures (q as real + f).Floor == q
  {
  }

  /** A whole number converts to itself. */
  lemma TruncOfInt(n: int)
    ensures Trunc(n as real) == n
  {
  }

  /** `std::clamp(v, lo, hi)`, which the standard leaves undefined when
      `hi < lo`. */
  function ClampInt(v: int, lo: int, hi: int): (c: int)
    requires lo <= hi
    ensures lo <= c <= hi
    ensures lo <= v <= hi ==> c == v
    ensures v < lo ==> c == lo
    ensures v > hi ==> c == hi
  {
    if v < lo then lo else if v > hi then hi else v
  }

  /** raylib's `Clamp(value, min, max)`: first raised to `min`, then lowered to
      `max`, so `max` wins when the bounds are crossed. */
  function ClampReal(v: real, lo: real, hi: real): (c: real)
    ensures c <= hi
    ensures lo <= hi ==> lo <= c
    ensures lo <= v <= hi ==> c == v
    ensures lo <= hi && v < lo ==> c == lo
    ensures v > hi ==> c == hi
    ensures hi < lo ==> c == hi
  {
    var raised := if v < lo then lo else v;
    if raised > hi then hi else raised
  }
}
