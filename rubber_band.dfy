/** The rubber-band rectangle of a drag selection: kept as its left and top
    edges and a non-negative width and height, whatever the order of the two
    corner points it is stretched between. */
module RubberBand {

  /** The smaller of two numbers (Math.min). */
  function Least(a: real, b: real): (r: real)
    ensures r <= a && r <= b && (r == a || r == b)
  {
    if a <= b then a else b
  }

  /** The larger of two numbers. */
  function Greatest(a: real, b: real): (r: real)
    ensures r >= a && r >= b && (r == a || r == b)
  {
    if a <= b then b else a
  }

  /** The magnitude of a number (Math.abs). */
  function Abs(a: real): (r: real)
    ensures r >= 0.0 && (r == a || r == -a)
  {
    if a < 0.0 then -a else a
  }

  /** A rectangle as left, top, width and height. */
  datatype Rect = Rect(left: real, top: real, width: real, height: real)

  /** The rectangle with opposite corners (ax, ay) and (x, y): its edges are
      the lesser coordinates and its extent their distance, so that it spans
      exactly the two points. */
  function Stretched(ax: real, ay: real, x: real, y: real): (r: Rect)
    ensures r.width >= 0.0 && r.height >= 0.0
    ensures r.left == Least(ax, x) && r.left + r.width == Greatest(ax, x)
    ensures r.top == Least(ay, y) && r.top + r.height == Greatest(ay, y)
  {
    Rect(Least(ax, x), Least(ay, y), Abs(ax - x), Abs(ay - y))
  }

  /** Which corner is the anchor does not matter. */
  lemma StretchedSymmetric(ax: real, ay: real, x: real, y: real)
    ensures Stretched(ax, ay, x, y) == Stretched(x, y, ax, ay)
  {
  }

  /** A point lies in the stretched rectangle exactly when each of its
      coordinates lies between the corners' coordinates. */
  lemma StretchedContains(ax: real, ay: real, x: real, y: real, px: real, py: real)
    ensures var r := Stretched(ax, ay, x, y);
      (r.left <= px <= r.left + r.width && r.top <= py <= r.top + r.height) <==>
      ((ax <= px <= x || x <= px <= ax) && (ay <= py <= y || y <= py <= ay))
  {
  }

  class RubberBandRectangle {
    var left: real
    var top: real
    var width: real
    var height: real

    /** The rectangle as a value. */
    function Shape(): Rect
      reads this
    {
      Rect(left, top, width, height)
    }

    /** Width and height are never negative. */
    ghost predicate Valid()
      reads this
    {
      width >= 0.0 && height >= 0.0
    }

    /** A rectangle of no extent at (x, y), where a drag starts. */
    constructor (x: real, y: real)
      ensures Valid() && Shape() == Stretched(x, y, x, y)
      ensures left == x && top == y && width == 0.0 && height == 0.0
    {
      left := x;
      top := y;
      width := 0.0;
      height := 0.0;
    }

    /** Stretches the rectangle between the anchor (prevX, prevY) and the
        pointer (x, y); the previous size plays no part. */
    method Resize(prevX: real, prevY: real, x: real, y: real)
      modifies this
      ensures Valid() && Shape() == Stretched(prevX, prevY, x, y)
    {
      left := Least(prevX, x);
      top := Least(prevY, y);
      width := Abs(prevX - x);
      height := Abs(prevY - y);
    }
  }
}
