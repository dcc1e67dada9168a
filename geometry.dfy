/** Pure geometry of the ship editor: extremes of coordinate lists, axis-aligned
    boxes, and Geom, a value snapshot of a ship or of a whole group tree.  The
    heap classes (Ship, ShipGroup) expose their state as a Geom, and every
    property of moving, containing and bounding that does not depend on object
    identity is proved here, on values. */
module Geometry {

  /** x offsets of the five outline points every ship is drawn from. */
  const OutlineXs: seq<real> := [0.0, 20.0, 0.0, -20.0, 0.0]
  /** y offsets of the same five outline points. */
  const OutlineYs: seq<real> := [24.0, -20.0, -12.0, -20.0, 24.0]

  /** Least element of a non-empty list (a stream's min() on doubles). */
  function Min(s: seq<real>): real
    requires |s| > 0
  {
    if |s| == 1 then s[0]
    else
      var rest := Min(s[1..]);
      if s[0] <= rest then s[0] else rest
  }

  /** Greatest element of a non-empty list (a stream's max() on doubles). */
  function Max(s: seq<real>): real
    requires |s| > 0
  {
    if |s| == 1 then s[0]
    else
      var rest := Max(s[1..]);
      if rest <= s[0] then s[0] else rest
  }

  /** The minimum is a lower bound of the list and one of its elements. */
  lemma {:induction false} MinIsLeast(s: seq<real>)
    requires |s| > 0
    ensures forall i | 0 <= i < |s| :: Min(s) <= s[i]
    ensures exists i | 0 <= i < |s| :: Min(s) == s[i]
  {
    if |s| > 1 {
      MinIsLeast(s[1..]);
      var k :| 0 <= k < |s[1..]| && Min(s[1..]) == s[1..][k];
      assert forall i | 1 <= i < |s| :: s[i] == s[1..][i - 1];
      if s[0] > Min(s[1..]) {
        assert Min(s) == s[k + 1];
      } else {
        assert Min(s) == s[0];
      }
    } else {
      assert Min(s) == s[0];
    }
  }

  /** The maximum is an upper bound of the list and one of its elements. */
  lemma {:induction false} MaxIsGreatest(s: seq<real>)
    requires |s| > 0
    ensures forall i | 0 <= i < |s| :: s[i] <= Max(s)
    ensures exists i | 0 <= i < |s| :: Max(s) == s[i]
  {
    if |s| > 1 {
      MaxIsGreatest(s[1..]);
      var k :| 0 <= k < |s[1..]| && Max(s[1..]) == s[1..][k];
      assert forall i | 1 <= i < |s| :: s[i] == s[1..][i - 1];
      if s[0] < Max(s[1..]) {
        assert Max(s) == s[k + 1];
      } else {
        assert Max(s) == s[0];
      }
    } else {
      assert Max(s) == s[0];
    }
  }

  /** Width of a ship: the x extent of its outline (see OutlineExtent). */
  const ShipWidth: real := 40.0
  /** Height of a ship: the y extent of its outline (see OutlineExtent). */
  const ShipHeight: real := 44.0

  /** The list with d added to every element. */
  function Shift(s: seq<real>, d: real): (r: seq<real>)
    ensures |r| == |s|
    ensures forall i | 0 <= i < |s| :: r[i] == s[i] + d
  {
    if s == [] then []
    else [s[0] + d] + Shift(s[1..], d)
  }

  /** Shifting by a and then by b is shifting by a + b. */
  lemma ShiftShift(s: seq<real>, a: real, b: real)
    ensures Shift(Shift(s, a), b) == Shift(s, a + b)
  {
    assert forall i | 0 <= i < |s| :: Shift(Shift(s, a), b)[i] == Shift(s, a + b)[i];
  }

  /** Any value that is a lower bound and an element is the minimum. */
  lemma MinIsUnique(s: seq<real>, m: real)
    requires |s| > 0
    requires forall i | 0 <= i < |s| :: m <= s[i]
    requires exists i | 0 <= i < |s| :: m == s[i]
    ensures m == Min(s)
  {
    MinIsLeast(s);
    var k :| 0 <= k < |s| && m == s[k];
    assert Min(s) <= s[k];
  }

  /** Any value that is an upper bound and an element is the maximum. */
  lemma MaxIsUnique(s: seq<real>, m: real)
    requires |s| > 0
    requires forall i | 0 <= i < |s| :: s[i] <= m
    requires exists i | 0 <= i < |s| :: m == s[i]
    ensures m == Max(s)
  {
    MaxIsGreatest(s);
    var k :| 0 <= k < |s| && m == s[k];
    assert s[k] <= Max(s);
  }

  /** Shifting every element shifts the minimum by the same amount. */
  lemma MinShift(s: seq<real>, d: real)
    requires |s| > 0
    ensures Min(Shift(s, d)) == Min(s) + d
  {
    MinIsLeast(s);
    var k :| 0 <= k < |s| && Min(s) == s[k];
    assert Shift(s, d)[k] == Min(s) + d;
    MinIsUnique(Shift(s, d), Min(s) + d);
  }

  /** Shifting every element shifts the maximum by the same amount. */
  lemma MaxShift(s: seq<real>, d: real)
    requires |s| > 0
    ensures Max(Shift(s, d)) == Max(s) + d
  {
    MaxIsGreatest(s);
    var k :| 0 <= k < |s| && Max(s) == s[k];
    assert Shift(s, d)[k] == Max(s) + d;
    MaxIsUnique(Shift(s, d), Max(s) + d);
  }

  /** The x extremes of the outline: -20 and 20. */
  lemma OutlineXExtent()
    ensures Min(OutlineXs) == -20.0 && Max(OutlineXs) == 20.0
  {
  }

  /** The y extremes of the outline: -20 and 24. */
  lemma OutlineYExtent()
    ensures Min(OutlineYs) == -20.0 && Max(OutlineYs) == 24.0
  {
  }

  /** The extremes of the outline: x in [-20, 20], y in [-20, 24]. */
  lemma OutlineExtent()
    ensures Min(OutlineXs) == -20.0 && Max(OutlineXs) == 20.0
    ensures Min(OutlineYs) == -20.0 && Max(OutlineYs) == 24.0
    ensures ShipWidth == Max(OutlineXs) - Min(OutlineXs)
    ensures ShipHeight == Max(OutlineYs) - Min(OutlineYs)
  {
    OutlineXExtent();
    OutlineYExtent();
  }

  /** An axis-aligned box given by its four edges. */
  datatype Box = Box(left: real, top: real, right: real, bottom: real) {
    function Shifted(dx: real, dy: real): Box {
      Box(left + dx, top + dy, right + dx, bottom + dy)
    }
    /** The box lies inside the rectangle [x1, x2] x [y1, y2], edges included. */
    predicate Within(x1: real, y1: real, x2: real, y2: real) {
      x1 <= left && right <= x2 && y1 <= top && bottom <= y2
    }
    /** The other box lies inside this one. */
    predicate Encloses(o: Box) {
      o.Within(left, top, right, bottom)
    }
    /** The smallest box around this box and the other. */
    function Join(o: Box): (b: Box)
      ensures b.Encloses(this) && b.Encloses(o)
    {
      Box(if left <= o.left then left else o.left, if top <= o.top then top else o.top,
          if o.right <= right then right else o.right, if o.bottom <= bottom then bottom else o.bottom)
    }
  }

  /** What a ship's bounds recalculation computes from its display
      coordinates: the least and greatest x and y. */
  function Bounds(xs: seq<real>, ys: seq<real>): Box
    requires |xs| > 0 && |ys| > 0
  {
    Box(Min(xs), Min(ys), Max(xs), Max(ys))
  }

  /** The bounds hold every vertex, and each edge touches one. */
  lemma BoundsEnclose(xs: seq<real>, ys: seq<real>)
    requires |xs| > 0 && |ys| > 0
    ensures forall i | 0 <= i < |xs| :: Bounds(xs, ys).left <= xs[i] <= Bounds(xs, ys).right
    ensures forall i | 0 <= i < |ys| :: Bounds(xs, ys).top <= ys[i] <= Bounds(xs, ys).bottom
    ensures exists i | 0 <= i < |xs| :: xs[i] == Bounds(xs, ys).left
    ensures exists i | 0 <= i < |xs| :: xs[i] == Bounds(xs, ys).right
    ensures exists i | 0 <= i < |ys| :: ys[i] == Bounds(xs, ys).top
    ensures exists i | 0 <= i < |ys| :: ys[i] == Bounds(xs, ys).bottom
  {
    MinIsLeast(xs);
    MaxIsGreatest(xs);
    MinIsLeast(ys);
    MaxIsGreatest(ys);
  }

  /** The box of a ship translated to (tx, ty): the outline's extent around
      the translation (OutlineBounds proves it is the Bounds of the display
      coordinates). */
  function ShipBox(tx: real, ty: real): Box {
    Box(tx - 20.0, ty - 20.0, tx + 20.0, ty + 24.0)
  }

  /** The per-pixel test of a ship's rendered outline, in the ship's local
      pixel coordinates (true where the pixel is black). */
  type Bitmap = (int, int) -> bool

  /** A value snapshot of an entity: a ship with its translation, display
      coordinates, cached box and bitmap, or a group with its children's
      snapshots (in order) and its cached box. */
  datatype Geom =
    | Leaf(tx: real, ty: real, xs: seq<real>, ys: seq<real>, box: Box, pixels: Bitmap)
    | Node(children: seq<Geom>, box: Box)

  /** The snapshot of a ship placed at (x, y) by the constructor. */
  function NewLeaf(x: real, y: real, pixels: Bitmap): Geom {
    Leaf(x, y, Shift(OutlineXs, x), Shift(OutlineYs, y), ShipBox(x, y), pixels)
  }

  /** The snapshot after moving by (dx, dy): every display coordinate, every
      translation and every cached box shifts. */
  function Moved(g: Geom, dx: real, dy: real): Geom
    decreases g
  {
    match g
    case Leaf(tx, ty, xs, ys, box, pixels) =>
      Leaf(tx + dx, ty + dy, Shift(xs, dx), Shift(ys, dy), box.Shifted(dx, dy), pixels)
    case Node(cs, box) =>
      Node(MovedAll(cs, dx, dy), box.Shifted(dx, dy))
  }

  /** Each entity of the list moved by (dx, dy). */
  function MovedAll(cs: seq<Geom>, dx: real, dy: real): (r: seq<Geom>)
    decreases cs
    ensures |r| == |cs| && forall i | 0 <= i < |cs| :: r[i] == Moved(cs[i], dx, dy)
  {
    if cs == [] then [] else [Moved(cs[0], dx, dy)] + MovedAll(cs[1..], dx, dy)
  }

  /** What moving a group does to its children and its box. */
  lemma MovedParts(g: Geom, dx: real, dy: real)
    ensures Moved(g, dx, dy).box == g.box.Shifted(dx, dy)
    ensures g.Node? ==> Moved(g, dx, dy).Node? && |Moved(g, dx, dy).children| == |g.children|
    ensures g.Node? ==> forall i | 0 <= i < |g.children| ::
      Moved(g, dx, dy).children[i] == Moved(g.children[i], dx, dy)
  {
  }

  /** Every group in the tree has at least one child: exactly the trees whose
      bounds can be recomputed without failing. */
  predicate Healthy(g: Geom) {
    match g
    case Leaf(_, _, _, _, _, _) => true
    case Node(cs, _) => |cs| > 0 && forall i | 0 <= i < |cs| :: Healthy(cs[i])
  }

  /** A group after a move by (dx, dy) that failed at child stop: stop was
      the first unhealthy child (or, when there were no children, the move
      failed at the recalculation of the box), the children before it were
      healthy and moved, those after it did not, and the group's own box was
      not recalculated. */
  ghost predicate Stopped(before: Geom, after: Geom, stop: nat, dx: real, dy: real) {
    before.Node? && after.Node? && after.box == before.box &&
    |after.children| == |before.children| &&
    (if stop < |before.children| then !Healthy(before.children[stop]) else before.children == []) &&
    (forall k | 0 <= k < |before.children| && k < stop :: Healthy(before.children[k])) &&
    (forall k | 0 <= k < |before.children| && k < stop :: after.children[k] == Moved(before.children[k], dx, dy)) &&
    (forall k | stop < k < |before.children| :: after.children[k] == before.children[k])
  }

  /** The cached boxes of a list of entities, in order. */
  function Boxes(cs: seq<Geom>): (r: seq<Box>)
    ensures |r| == |cs| && forall i | 0 <= i < |cs| :: r[i] == cs[i].box
  {
    seq(|cs|, i requires 0 <= i < |cs| => cs[i].box)
  }

  /** The smallest box around a non-empty list of boxes (the least left and
      top, the greatest right and bottom), as a group's bounds recalculation
      computes it. */
  function Union(bs: seq<Box>): (b: Box)
    requires |bs| > 0
    ensures forall i | 0 <= i < |bs| :: b.Encloses(bs[i])
  {
    if |bs| == 1 then bs[0] else bs[0].Join(Union(bs[1..]))
  }

  /** The left edges of a list of boxes, in order; likewise the other edges. */
  function Lefts(bs: seq<Box>): (r: seq<real>)
    ensures |r| == |bs| && forall i | 0 <= i < |bs| :: r[i] == bs[i].left
  {
    seq(|bs|, i requires 0 <= i < |bs| => bs[i].left)
  }

  function Tops(bs: seq<Box>): (r: seq<real>)
    ensures |r| == |bs| && forall i | 0 <= i < |bs| :: r[i] == bs[i].top
  {
    seq(|bs|, i requires 0 <= i < |bs| => bs[i].top)
  }

  function Rights(bs: seq<Box>): (r: seq<real>)
    ensures |r| == |bs| && forall i | 0 <= i < |bs| :: r[i] == bs[i].right
  {
    seq(|bs|, i requires 0 <= i < |bs| => bs[i].right)
  }

  function Bottoms(bs: seq<Box>): (r: seq<real>)
    ensures |r| == |bs| && forall i | 0 <= i < |bs| :: r[i] == bs[i].bottom
  {
    seq(|bs|, i requires 0 <= i < |bs| => bs[i].bottom)
  }

  /** The union is the box of the least left and top and the greatest right
      and bottom, edge by edge. */
  lemma {:induction false} UnionEdges(bs: seq<Box>)
    requires |bs| > 0
    ensures Union(bs) == Box(Min(Lefts(bs)), Min(Tops(bs)), Max(Rights(bs)), Max(Bottoms(bs)))
    decreases |bs|
  {
    if |bs| > 1 {
      UnionEdges(bs[1..]);
      assert Lefts(bs)[1..] == Lefts(bs[1..]);
      assert Tops(bs)[1..] == Tops(bs[1..]);
      assert Rights(bs)[1..] == Rights(bs[1..]);
      assert Bottoms(bs)[1..] == Bottoms(bs[1..]);
    }
  }

  /** The consistency a snapshot keeps: a ship's display coordinates are the
      outline translated by its translation and its box is their bounds; a
      group's box is the union of its children's boxes whenever it can be
      computed (the tree is healthy). */
  predicate WellFormed(g: Geom) {
    match g
    case Leaf(tx, ty, xs, ys, box, _) =>
      xs == Shift(OutlineXs, tx) && ys == Shift(OutlineYs, ty) && box == ShipBox(tx, ty)
    case Node(cs, box) =>
      (forall i | 0 <= i < |cs| :: WellFormed(cs[i])) &&
      (Healthy(g) ==> box == Union(Boxes(cs)))
  }

  /** Every display vertex of every ship in the tree lies in [x1, x2] x [y1, y2]
      (a ship: no vertex outside; a group: all children inside). */
  predicate Inside(g: Geom, x1: real, y1: real, x2: real, y2: real) {
    match g
    case Leaf(_, _, xs, ys, _, _) =>
      forall i | 0 <= i < |xs| && i < |ys| :: x1 <= xs[i] <= x2 && y1 <= ys[i] <= y2
    case Node(cs, _) =>
      forall i | 0 <= i < |cs| :: Inside(cs[i], x1, y1, x2, y2)
  }

  /** Whether (x, y) hits the entity: a ship maps the point to local pixel
      coordinates, rejects it outside the width x height window and otherwise
      asks its bitmap; a group is hit when any child is. */
  predicate Hit(g: Geom, x: real, y: real) {
    match g
    case Leaf(tx, ty, _, _, _, pixels) =>
      var cx := x - tx + ShipWidth / 2.0;
      var cy := y - ty + ShipHeight / 2.0;
      0.0 <= cx <= ShipWidth && 0.0 <= cy <= ShipHeight && pixels(cx.Floor, cy.Floor)
    case Node(cs, _) =>
      exists i | 0 <= i < |cs| :: Hit(cs[i], x, y)
  }

  /** The bounds of the outline translated to (x, y) are
      [x - 20, x + 20] x [y - 20, y + 24]. */
  lemma OutlineBounds(x: real, y: real)
    ensures Bounds(Shift(OutlineXs, x), Shift(OutlineYs, y)) == ShipBox(x, y)
  {
    OutlineXExtent();
    OutlineYExtent();
    MinShift(OutlineXs, x);
    MaxShift(OutlineXs, x);
    MinShift(OutlineYs, y);
    MaxShift(OutlineYs, y);
  }

  /** A ship whose display coordinates are the outline translated to (x, y)
      and whose box is their bounds is a consistent new ship at (x, y). */
  lemma LeafFromOutline(x: real, y: real, xs: seq<real>, ys: seq<real>, box: Box, pixels: Bitmap)
    requires xs == Shift(OutlineXs, x) && ys == Shift(OutlineYs, y)
    requires |xs| > 0 && |ys| > 0 && box == Bounds(xs, ys)
    ensures Leaf(x, y, xs, ys, box, pixels) == NewLeaf(x, y, pixels)
    ensures WellFormed(NewLeaf(x, y, pixels)) && Healthy(NewLeaf(x, y, pixels))
  {
    OutlineBounds(x, y);
  }

  /** A consistent ship's box holds all its display vertices, and is their bounds. */
  lemma LeafBox(g: Geom)
    requires g.Leaf? && WellFormed(g)
    ensures |g.xs| == 5 && |g.ys| == 5 && g.box == Bounds(g.xs, g.ys)
    ensures forall i | 0 <= i < |g.xs| :: g.box.left <= g.xs[i] <= g.box.right
    ensures forall i | 0 <= i < |g.ys| :: g.box.top <= g.ys[i] <= g.box.bottom
  {
    OutlineBounds(g.tx, g.ty);
    BoundsEnclose(g.xs, g.ys);
  }

  /** The union of shifted boxes is the shifted union. */
  lemma {:induction false} UnionShifted(bs: seq<Box>, ms: seq<Box>, dx: real, dy: real)
    requires |bs| > 0 && |ms| == |bs|
    requires forall i | 0 <= i < |bs| :: ms[i] == bs[i].Shifted(dx, dy)
    ensures Union(ms) == Union(bs).Shifted(dx, dy)
    decreases |bs|
  {
    if |bs| > 1 {
      UnionShifted(bs[1..], ms[1..], dx, dy);
    }
  }

  /** Moving a list of entities shifts the union of their boxes. */
  lemma UnionMoved(cs: seq<Geom>, dx: real, dy: real)
    requires |cs| > 0
    ensures Union(Boxes(MovedAll(cs, dx, dy))) == Union(Boxes(cs)).Shifted(dx, dy)
  {
    forall i | 0 <= i < |cs| ensures Boxes(MovedAll(cs, dx, dy))[i] == Boxes(cs)[i].Shifted(dx, dy) {
      MovedParts(cs[i], dx, dy);
    }
    UnionShifted(Boxes(cs), Boxes(MovedAll(cs, dx, dy)), dx, dy);
  }

  /** A union lies in a rectangle exactly when every box it joins does. */
  lemma {:induction false} UnionWithin(bs: seq<Box>, x1: real, y1: real, x2: real, y2: real)
    requires |bs| > 0
    ensures Union(bs).Within(x1, y1, x2, y2) <==> forall i | 0 <= i < |bs| :: bs[i].Within(x1, y1, x2, y2)
    decreases |bs|
  {
    if |bs| > 1 {
      UnionWithin(bs[1..], x1, y1, x2, y2);
      assert forall i | 1 <= i < |bs| :: bs[i] == bs[1..][i - 1];
    }
  }

  /** Moving keeps the tree's shape, so it fails or succeeds alike. */
  lemma {:induction false} MovedHealthy(g: Geom, dx: real, dy: real)
    ensures Healthy(Moved(g, dx, dy)) == Healthy(g)
  {
    match g
    case Leaf(_, _, _, _, _, _) =>
    case Node(cs, _) =>
      MovedParts(g, dx, dy);
      forall i | 0 <= i < |cs| ensures Healthy(Moved(cs[i], dx, dy)) == Healthy(cs[i]) {
        MovedHealthy(cs[i], dx, dy);
      }
  }

  /** A moved ship's display coordinates are the outline at its new
      translation, so it stays consistent. */
  lemma LeafMovedWellFormed(g: Geom, dx: real, dy: real)
    requires g.Leaf? && WellFormed(g)
    ensures WellFormed(Moved(g, dx, dy))
  {
    var m := Moved(g, dx, dy);
    assert m.tx == g.tx + dx && m.ty == g.ty + dy;
    assert m.xs == Shift(g.xs, dx) && m.ys == Shift(g.ys, dy) && m.box == g.box.Shifted(dx, dy);
    ShiftShift(OutlineXs, g.tx, dx);
    ShiftShift(OutlineYs, g.ty, dy);
  }

  /** A ship whose display coordinates are a consistent ship's shifted by
      (dx, dy), whose translation moved alike and whose box is the bounds of
      the new coordinates is that ship moved, and is consistent. */
  lemma LeafMovedFrom(g: Geom, dx: real, dy: real, xs: seq<real>, ys: seq<real>, box: Box)
    requires g.Leaf? && WellFormed(g)
    requires xs == Shift(g.xs, dx) && ys == Shift(g.ys, dy)
    requires |xs| > 0 && |ys| > 0 && box == Bounds(xs, ys)
    ensures Leaf(g.tx + dx, g.ty + dy, xs, ys, box, g.pixels) == Moved(g, dx, dy)
    ensures WellFormed(Moved(g, dx, dy))
  {
    LeafMovedWellFormed(g, dx, dy);
    OutlineBounds(g.tx + dx, g.ty + dy);
  }

  /** Moving keeps a snapshot consistent: after a move the display
      coordinates are still the translated outline and every box is still the
      min/max of what it bounds. */
  lemma {:induction false} MovedWellFormed(g: Geom, dx: real, dy: real)
    requires WellFormed(g)
    ensures WellFormed(Moved(g, dx, dy))
  {
    match g
    case Leaf(_, _, _, _, _, _) =>
      LeafMovedWellFormed(g, dx, dy);
    case Node(cs, box) =>
      MovedParts(g, dx, dy);
      forall i | 0 <= i < |cs| ensures WellFormed(Moved(cs[i], dx, dy)) {
        MovedWellFormed(cs[i], dx, dy);
      }
      MovedHealthy(g, dx, dy);
      if Healthy(g) {
        UnionMoved(cs, dx, dy);
      }
  }

  /** Moving by a and then by b is moving by a + b. */
  lemma {:induction false} MovedCompose(g: Geom, dx1: real, dy1: real, dx2: real, dy2: real)
    ensures Moved(Moved(g, dx1, dy1), dx2, dy2) == Moved(g, dx1 + dx2, dy1 + dy2)
  {
    match g
    case Leaf(tx, ty, xs, ys, box, pixels) =>
      ShiftShift(xs, dx1, dx2);
      ShiftShift(ys, dy1, dy2);
    case Node(cs, box) =>
      MovedParts(g, dx1, dy1);
      MovedParts(Moved(g, dx1, dy1), dx2, dy2);
      MovedParts(g, dx1 + dx2, dy1 + dy2);
      forall i | 0 <= i < |cs|
        ensures Moved(Moved(cs[i], dx1, dy1), dx2, dy2) == Moved(cs[i], dx1 + dx2, dy1 + dy2)
      {
        MovedCompose(cs[i], dx1, dy1, dx2, dy2);
      }
  }

  /** Moving by (0, 0) changes nothing. */
  lemma {:induction false} MovedZero(g: Geom)
    ensures Moved(g, 0.0, 0.0) == g
  {
    match g
    case Leaf(tx, ty, xs, ys, box, pixels) =>
      assert Shift(xs, 0.0) == xs;
      assert Shift(ys, 0.0) == ys;
    case Node(cs, box) =>
      MovedParts(g, 0.0, 0.0);
      forall i | 0 <= i < |cs| ensures Moved(cs[i], 0.0, 0.0) == cs[i] {
        MovedZero(cs[i]);
      }
      assert MovedAll(cs, 0.0, 0.0) == cs;
  }

  /** A ship's vertices are all inside a rectangle exactly when its box is. */
  lemma LeafInsideIffWithin(g: Geom, x1: real, y1: real, x2: real, y2: real)
    requires g.Leaf? && WellFormed(g)
    ensures Inside(g, x1, y1, x2, y2) <==> g.box.Within(x1, y1, x2, y2)
  {
    if !g.box.Within(x1, y1, x2, y2) {
      // the box's edges are vertices 3 (left), 1 (right and top) and 0 (bottom)
      assert g.xs[3] == g.box.left && g.xs[1] == g.box.right;
      assert g.ys[1] == g.box.top && g.ys[0] == g.box.bottom;
    }
  }

  /** For a consistent, healthy tree, "every vertex of every ship is inside"
      is the same as "the cached box is inside". */
  lemma {:induction false} InsideIffWithin(g: Geom, x1: real, y1: real, x2: real, y2: real)
    requires WellFormed(g) && Healthy(g)
    ensures Inside(g, x1, y1, x2, y2) <==> g.box.Within(x1, y1, x2, y2)
  {
    match g
    case Leaf(_, _, _, _, _, _) =>
      LeafInsideIffWithin(g, x1, y1, x2, y2);
    case Node(cs, box) =>
      forall i | 0 <= i < |cs|
        ensures Inside(cs[i], x1, y1, x2, y2) <==> cs[i].box.Within(x1, y1, x2, y2)
      {
        InsideIffWithin(cs[i], x1, y1, x2, y2);
      }
      UnionWithin(Boxes(cs), x1, y1, x2, y2);
  }

  /** Enlarging the rectangle never turns "inside" into "outside". */
  lemma {:induction false} InsideMonotone(g: Geom, x1: real, y1: real, x2: real, y2: real,
                                          x1': real, y1': real, x2': real, y2': real)
    requires Inside(g, x1, y1, x2, y2)
    requires x1' <= x1 && y1' <= y1 && x2 <= x2' && y2 <= y2'
    ensures Inside(g, x1', y1', x2', y2')
  {
    match g
    case Leaf(_, _, _, _, _, _) =>
    case Node(cs, _) =>
      forall i | 0 <= i < |cs| ensures Inside(cs[i], x1', y1', x2', y2') {
        InsideMonotone(cs[i], x1, y1, x2, y2, x1', y1', x2', y2');
      }
  }

  /** A moved entity is inside the moved rectangle exactly when the entity
      was inside the original one. */
  lemma {:induction false} InsideMoved(g: Geom, dx: real, dy: real, x1: real, y1: real, x2: real, y2: real)
    ensures Inside(Moved(g, dx, dy), x1 + dx, y1 + dy, x2 + dx, y2 + dy) == Inside(g, x1, y1, x2, y2)
  {
    match g
    case Leaf(_, _, xs, ys, _, _) =>
    case Node(cs, _) =>
      MovedParts(g, dx, dy);
      forall i | 0 <= i < |cs|
        ensures Inside(Moved(cs[i], dx, dy), x1 + dx, y1 + dy, x2 + dx, y2 + dy) == Inside(cs[i], x1, y1, x2, y2)
      {
        InsideMoved(cs[i], dx, dy, x1, y1, x2, y2);
      }
  }

  /** A moved entity is hit at the moved point exactly when the entity was
      hit at the original point: the bitmap travels with the ship. */
  lemma {:induction false} HitMoved(g: Geom, dx: real, dy: real, x: real, y: real)
    ensures Hit(Moved(g, dx, dy), x + dx, y + dy) == Hit(g, x, y)
  {
    match g
    case Leaf(tx, ty, _, _, _, _) =>
      assert (x + dx) - (tx + dx) == x - tx;
      assert (y + dy) - (ty + dy) == y - ty;
    case Node(cs, _) =>
      MovedParts(g, dx, dy);
      forall i | 0 <= i < |cs| ensures Hit(Moved(cs[i], dx, dy), x + dx, y + dy) == Hit(cs[i], x, y) {
        HitMoved(cs[i], dx, dy, x, y);
      }
  }

  /** Whatever the bitmap says, a ship is never hit outside the window
      [tx - 20, tx + 20] x [ty - 22, ty + 22]. */
  lemma HitWindow(g: Geom, x: real, y: real)
    requires g.Leaf?
    requires Hit(g, x, y)
    ensures g.tx - 20.0 <= x <= g.tx + 20.0 && g.ty - 22.0 <= y <= g.ty + 22.0
  {
  }

  /** The hit window is not the display box: a ship's first outline vertex
      (its bottom tip, at (tx, ty + 24)) lies on the edge of its box but can
      never be hit, whatever the bitmap says. */
  lemma TipNeverHit(g: Geom)
    requires g.Leaf? && WellFormed(g)
    ensures g.xs[0] == g.tx && g.ys[0] == g.ty + 24.0
    ensures g.box.left <= g.xs[0] <= g.box.right && g.box.top <= g.ys[0] <= g.box.bottom
    ensures !Hit(g, g.xs[0], g.ys[0])
  {
  }
}
