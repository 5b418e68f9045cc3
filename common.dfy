/** Values shared by both animations: canvas bytes, points and extracted pixels. */
module Common {

  /** One channel of a canvas `ImageData` buffer (a `Uint8ClampedArray` element). */
  type byte = x: int | 0 <= x < 256

  datatype Option<+T> = None | Some(value: T)

  /** A point of the drawing surface, in canvas units. */
  datatype Point = Point(x: real, y: real)

  /** A pixel kept by a filter: its flat index in the image, its position and its colour. */
  datatype Pixel = Pixel(index: nat, x: real, y: real, r: byte, g: byte, b: byte)
  {
    function Pos(): Point { Point(x, y) }
  }

  /** A decoded image: `data` is row-major RGBA, four bytes per pixel. */
  datatype Image = Image(width: nat, height: nat, data: seq<byte>)
  {
    ghost predicate Valid() { |data| == 4 * width * height }
  }

  /** `Math.min` and `Math.max` on reals. */
  function Min(a: real, b: real): real { if a <= b then a else b }

  function Max(a: real, b: real): real { if a >= b then a else b }

  /** Squared Euclidean distance between two points. */
  function DistSq(p: Point, q: Point): (d: real)
    ensures d >= 0.0
  {
    var dx := p.x - q.x;
    var dy := p.y - q.y;
    assert dx * dx >= 0.0 && dy * dy >= 0.0;
    dx * dx + dy * dy
  }

  /** A draw of `Math.random`: a real in [0, 1). */
  predicate Unit(u: real)
  {
    0.0 <= u < 1.0
  }

  /** `floor(u · n)`: the position a random draw picks in a list of n elements. */
  function Pick(u: real, n: nat): (i: nat)
    requires Unit(u) && n > 0
    ensures i < n
  {
    assert 0.0 <= u * n as real < n as real;
    (u * n as real).Floor
  }

  /** Bounds of a quotient by a positive real. */
  lemma DivBounds(e: real, d: real)
    requires d > 0.0 && e >= 0.0
    ensures e / d >= 0.0
    ensures e >= d ==> e / d >= 1.0
  {
    DivMono(0.0, e, d);
    if e >= d {
      DivMono(d, e, d);
    }
  }

  /** Dividing by a positive real keeps order. */
  lemma DivMono(x: real, y: real, d: real)
    requires d > 0.0 && x <= y
    ensures x / d <= y / d
  {
    var q := (y - x) / d;
    assert q * d == y - x;
    assert y / d - x / d == q;
  }

  /** A fraction in [0, 1] of a non-negative length lies between 0 and that length. */
  lemma ScaleWithin(u: real, w: real)
    requires 0.0 <= u <= 1.0 && 0.0 <= w
    ensures 0.0 <= u * w <= w
  {
    assert (1.0 - u) * w >= 0.0;
  }
}
