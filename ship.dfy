/** A ship: the leaf of the entity composite.  Its outline is the fixed
    five-point template translated to (translateX, translateY); the display
    coordinates live in two arrays that moves update in place, and the box is
    cached in four fields that every move recalculates. */
module Ships {
  import opened Geometry

  class Ship {
    var translateX: real
    var translateY: real
    const shipWidth: real
    const shipHeight: real
    var displayXs: array<real>
    var displayYs: array<real>
    var left: real
    var top: real
    var right: real
    var bottom: real
    /** The rendered outline's pixel test, in local pixel coordinates. */
    const reader: Bitmap

    /** The objects a ship owns: itself and its two coordinate arrays. */
    ghost function Repr(): set<object>
      reads this
    {
      {this, displayXs, displayYs}
    }

    /** The structural part of consistency: two distinct arrays of one
        length, and the outline's extent as width and height. */
    ghost predicate ReprOK()
      reads Repr()
    {
      displayXs != displayYs && displayXs.Length == displayYs.Length &&
      shipWidth == ShipWidth && shipHeight == ShipHeight
    }

    /** The ship's state as a value. */
    ghost function Snapshot(): Geom
      reads Repr()
    {
      Leaf(translateX, translateY, displayXs[..], displayYs[..], Box(left, top, right, bottom), reader)
    }

    ghost predicate Valid()
      reads Repr()
    {
      ReprOK() && WellFormed(Snapshot())
    }

    /** A new ship at (newX, newY): the display coordinates are the template
        translated to the point, and the box is [x - 20, x + 20] x [y - 20, y + 24]. */
    constructor (newX: real, newY: real, pixels: Bitmap)
      ensures Valid() && fresh(Repr())
      ensures Snapshot() == NewLeaf(newX, newY, pixels)
    {
      translateX := newX;
      translateY := newY;
      // the template's extents, Max - Min of its coordinates (OutlineExtent)
      shipWidth := ShipWidth;
      shipHeight := ShipHeight;
      reader := pixels;
      var xs := new real[|OutlineXs|];
      var ys := new real[|OutlineYs|];
      var i := 0;
      while i < xs.Length
        invariant 0 <= i <= xs.Length == ys.Length == 5
        invariant forall k | 0 <= k < i :: xs[k] == OutlineXs[k] + newX
        invariant forall k | 0 <= k < i :: ys[k] == OutlineYs[k] + newY
      {
        xs[i] := OutlineXs[i] + newX;
        ys[i] := OutlineYs[i] + newY;
        i := i + 1;
      }
      displayXs := xs;
      displayYs := ys;
      assert xs[..] == Shift(OutlineXs, newX);
      assert ys[..] == Shift(OutlineYs, newY);
      new;
      RecalculateBounds();
      LeafFromOutline(newX, newY, displayXs[..], displayYs[..], Box(left, top, right, bottom), pixels);
    }

    /** Caches the least and greatest display coordinates as the box. */
    method RecalculateBounds()
      requires displayXs.Length > 0 && displayYs.Length > 0
      modifies this`left, this`top, this`right, this`bottom
      ensures Box(left, top, right, bottom) == Bounds(displayXs[..], displayYs[..])
    {
      left := Min(displayXs[..]);
      right := Max(displayXs[..]);
      top := Min(displayYs[..]);
      bottom := Max(displayYs[..]);
    }

    /** Moves the ship by (dx, dy): every display coordinate and the
        translation shift, and the box is recalculated. */
    method Move(dx: real, dy: real)
      requires Valid()
      modifies Repr()
      ensures Valid() && Repr() == old(Repr())
      ensures Snapshot() == Moved(old(Snapshot()), dx, dy)
    {
      ghost var g := Snapshot();
      ShiftBoth(displayXs, displayYs, dx, dy);
      translateX := translateX + dx;
      translateY := translateY + dy;
      RecalculateBounds();
      LeafMovedFrom(g, dx, dy, displayXs[..], displayYs[..], Box(left, top, right, bottom));
    }

    /** Adds dx to every element of xs and dy to every element of ys, the
        two arrays being of one length and walked together. */
    static method ShiftBoth(xs: array<real>, ys: array<real>, dx: real, dy: real)
      requires xs != ys && xs.Length == ys.Length
      modifies xs, ys
      ensures xs[..] == Shift(old(xs[..]), dx) && ys[..] == Shift(old(ys[..]), dy)
    {
      var i := 0;
      while i < xs.Length
        invariant 0 <= i <= xs.Length
        invariant forall k | 0 <= k < i :: xs[k] == old(xs[k]) + dx
        invariant forall k | i <= k < xs.Length :: xs[k] == old(xs[k])
        invariant forall k | 0 <= k < i :: ys[k] == old(ys[k]) + dy
        invariant forall k | i <= k < ys.Length :: ys[k] == old(ys[k])
      {
        xs[i] := xs[i] + dx;
        ys[i] := ys[i] + dy;
        i := i + 1;
      }
    }

    /** Whether (x, y) hits the ship: the point, in local pixel coordinates,
        must fall in the width x height window and on a black pixel.  Whatever
        the bitmap says, only points in [tx - 20, tx + 20] x [ty - 22, ty + 22]
        can hit. */
    function Contains(x: real, y: real): (r: bool)
      requires ReprOK()
      reads Repr()
      ensures r == Hit(Snapshot(), x, y)
      ensures r ==> translateX - 20.0 <= x <= translateX + 20.0 && translateY - 22.0 <= y <= translateY + 22.0
    {
      var clickX := x - translateX + shipWidth / 2.0;
      var clickY := y - translateY + shipHeight / 2.0;
      clickX >= 0.0 && clickX <= shipWidth && clickY >= 0.0 && clickY <= shipHeight &&
      reader(clickX.Floor, clickY.Floor)
    }

    /** Whether no display vertex lies outside [x1, x2] x [y1, y2]; for a
        consistent ship the same as its box lying inside. */
    function IsContained(x1: real, y1: real, x2: real, y2: real): (r: bool)
      requires ReprOK()
      reads Repr()
      ensures r == Inside(Snapshot(), x1, y1, x2, y2)
    {
      forall i | 0 <= i < displayXs.Length ::
        !(displayXs[i] < x1 || displayXs[i] > x2 || displayYs[i] < y1 || displayYs[i] > y2)
    }

    /** For a consistent ship, containment of every vertex is containment of
        the cached box. */
    lemma IsContainedIffWithin(x1: real, y1: real, x2: real, y2: real)
      requires Valid()
      ensures IsContained(x1, y1, x2, y2) <==> Box(left, top, right, bottom).Within(x1, y1, x2, y2)
    {
      LeafInsideIffWithin(Snapshot(), x1, y1, x2, y2);
    }

    /** A ship is a leaf of the composite. */
    function HasChildren(): bool {
      false
    }

    /** A deep copy: a new ship at the same translation whose display
        arrays are copies of this ship's, with its box recalculated. */
    method Duplicate() returns (d: Ship)
      requires Valid()
      ensures fresh(d.Repr()) && d.Valid()
      ensures d.Snapshot() == Snapshot()
    {
      d := new Ship(translateX, translateY, reader);
      var xs := Clone(displayXs);
      var ys := Clone(displayYs);
      d.displayXs := xs;
      d.displayYs := ys;
      d.RecalculateBounds();
      LeafFromOutline(translateX, translateY, d.displayXs[..], d.displayYs[..],
                      Box(d.left, d.top, d.right, d.bottom), reader);
    }

    /** A new array with the same elements (an array's clone()). */
    static method Clone(a: array<real>) returns (b: array<real>)
      ensures fresh(b) && b[..] == a[..]
    {
      b := new real[a.Length](i requires 0 <= i < a.Length reads a => a[i]);
    }
  }
}
