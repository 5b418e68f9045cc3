/**
  The cubic Bézier curve of both animations, in the cached coefficient form
  x(t) = a·t³ + b·t² + c·t + x0 that the particle constructors compute once.
 */
module Bezier {

  /** Coefficients of one coordinate of a cubic curve. */
  datatype Cubic = Cubic(a: real, b: real, c: real, x0: real)

  /** The coefficients for anchors p0, p3 and handles p1, p2 (one coordinate). */
  function Coefficients(p0: real, p1: real, p2: real, p3: real): (k: Cubic)
    ensures Eval(k, 0.0) == p0 && Eval(k, 1.0) == p3
  {
    var c := 3.0 * (p1 - p0);
    var b := 3.0 * (p2 - p1) - c;
    var a := p3 - p0 - c - b;
    Cubic(a, b, c, p0)
  }

  /** The coordinate at parameter t, written as the source does with t² and t³ unrolled. */
  function Eval(k: Cubic, t: real): real
  {
    var t2 := t * t;
    var t3 := t2 * t;
    k.a * t3 + k.b * t2 + k.c * t + k.x0
  }

  /** The Bernstein form of the same curve, the textbook definition. */
  function Bernstein(p0: real, p1: real, p2: real, p3: real, t: real): real
  {
    var s := 1.0 - t;
    s * s * s * p0 + 3.0 * s * s * t * p1 + 3.0 * s * t * t * p2 + t * t * t * p3
  }

  /** The cached coefficients evaluate to the Bernstein form at every t. */
  lemma CoefficientsMatchBernstein(p0: real, p1: real, p2: real, p3: real, t: real)
    ensures Eval(Coefficients(p0, p1, p2, p3), t) == Bernstein(p0, p1, p2, p3, t)
  {
    var s := 1.0 - t;
    var t2 := t * t;
    var t3 := t2 * t;
    assert s * s * s == 1.0 - 3.0 * t + 3.0 * t2 - t3;
    assert 3.0 * s * s * t == 3.0 * t - 6.0 * t2 + 3.0 * t3;
    assert 3.0 * s * t * t == 3.0 * t2 - 3.0 * t3;
    assert t * t * t == t3;
  }
}
