/** The composite of ships and groups.  An entity is either a ship or a group
    of entities; a group owns its children, so the objects of two children never
    overlap and a group never occurs inside itself.  Every operation of the
    composite is stated against the value snapshot Geom of Geometry. */
module Composite {
  import opened Geometry
  import opened Ships
  import opened Lists

  datatype Option<T> = None | Some(value: T)

  /** A ship or a group, as the editor's lists hold them. */
  datatype Groupable = ShipItem(ship: Ship) | GroupItem(group: ShipGroup)
  {
    /** The object behind the entity; equality of entities is identity of it. */
    function Obj(): object {
      match this
      case ShipItem(s) => s
      case GroupItem(g) => g
    }

    /** Every object the entity owns, itself included. */
    ghost function Repr(): set<object>
      reads Obj()
    {
      match this
      case ShipItem(s) => s.Repr()
      case GroupItem(g) => g.Repr
    }

    ghost predicate ReprOK()
      reads Obj(), Repr()
      decreases Repr(), 3, 0
    {
      match this
      case ShipItem(s) => s.ReprOK()
      case GroupItem(g) => g.ReprOK()
    }

    ghost function Snapshot(): Geom
      requires ReprOK()
      reads Obj(), Repr()
      decreases Repr(), 3, 0
    {
      match this
      case ShipItem(s) => s.Snapshot()
      case GroupItem(g) => g.Snapshot()
    }

    ghost predicate Valid()
      reads Obj(), Repr()
    {
      ReprOK() && WellFormed(Snapshot())
    }

    /** A consistent entity owns its own object. */
    lemma OwnsObj()
      requires ReprOK()
      ensures Obj() in Repr()
    {
    }

    /** Whether the entity is a group: a ship is a leaf, a group is not. */
    function HasChildren(): (r: bool)
      ensures r <==> GroupItem?
    {
      match this
      case ShipItem(s) => s.HasChildren()
      case GroupItem(g) => g.HasChildren()
    }

    /** The children of a group; a ship has none (null in the editor). */
    function Children(): (r: Option<seq<Groupable>>)
      reads Obj()
      ensures r.Some? <==> HasChildren()
      ensures GroupItem? ==> r == Some(group.ships)
    {
      match this
      case ShipItem(_) => None
      case GroupItem(g) => Some(g.Children())
    }

    /** The cached box (the getLeft, getTop, getRight and getBottom of the
        entity). */
    function BoundingBox(): (b: Box)
      reads Obj()
      ensures ReprOK() ==> b == Snapshot().box
    {
      match this
      case ShipItem(s) => Box(s.left, s.top, s.right, s.bottom)
      case GroupItem(g) => g.bounds
    }

    /** Moves the entity by (dx, dy).  It fails (ok is false) exactly when a
        group without children occurs in it; a failed move may have moved part
        of the entity, but leaves it consistent. */
    method Move(dx: real, dy: real) returns (ok: bool, ghost stop: nat)
      requires Valid()
      modifies Repr()
      decreases Repr(), 3
      ensures Valid() && Repr() == old(Repr())
      ensures Healthy(Snapshot()) == old(Healthy(Snapshot()))
      ensures ok == old(Healthy(Snapshot()))
      ensures ok ==> Snapshot() == Moved(old(Snapshot()), dx, dy)
      ensures !ok ==> Stopped(old(Snapshot()), Snapshot(), stop, dx, dy)
    {
      match this
      case ShipItem(s) =>
        s.Move(dx, dy);
        ok, stop := true, 0;
      case GroupItem(g) =>
        ok, stop := g.Move(dx, dy);
    }

    /** A deep copy: new objects throughout, with the same snapshot.  It
        fails (None) exactly when a group without children occurs in the
        entity, whose copy cannot have its box recalculated. */
    method Duplicate() returns (d: Option<Groupable>)
      requires Valid()
      decreases Repr(), 3
      ensures d.Some? <==> Healthy(Snapshot())
      ensures d.Some? ==> fresh(d.value.Repr()) && d.value.Valid() && d.value.Snapshot() == Snapshot()
    {
      match this
      case ShipItem(s) =>
        var c := s.Duplicate();
        d := Some(ShipItem(c));
      case GroupItem(g) =>
        var c := g.Duplicate();
        if c.Some? {
          d := Some(GroupItem(c.value));
        } else {
          d := None;
        }
    }

    /** Whether (x, y) hits the entity. */
    function Contains(x: real, y: real): (r: bool)
      requires ReprOK()
      reads Obj(), Repr()
      decreases Repr(), 3, 0
      ensures r == Hit(Snapshot(), x, y)
    {
      match this
      case ShipItem(s) => s.Contains(x, y)
      case GroupItem(g) => g.Contains(x, y)
    }

    /** Whether every vertex of every ship of the entity lies in [x1, x2] x [y1, y2]. */
    function IsContained(x1: real, y1: real, x2: real, y2: real): (r: bool)
      requires ReprOK()
      reads Obj(), Repr()
      decreases Repr(), 3, 0
      ensures r == Inside(Snapshot(), x1, y1, x2, y2)
    {
      match this
      case ShipItem(s) => s.IsContained(x1, y1, x2, y2)
      case GroupItem(g) => g.IsContained(x1, y1, x2, y2)
    }
  }

  /** An entity none of whose objects changed keeps its footprint, its
      consistency and its snapshot. */
  twostate lemma Framed(c: Groupable)
    requires old(c.ReprOK()) && unchanged(old(c.Repr()))
    ensures c.Repr() == old(c.Repr()) && c.ReprOK() && c.Snapshot() == old(c.Snapshot())
  {
  }

  /** A group whose own list and footprint did not change, and each of whose
      children kept its footprint and its consistency, is still consistent. */
  twostate lemma ReprOKKept(g: ShipGroup)
    requires old(g.ReprOK()) && unchanged(g`ships, g`Repr)
    requires forall k | 0 <= k < |g.ships| :: g.ships[k].Repr() == old(g.ships[k].Repr()) && g.ships[k].ReprOK()
    ensures g.ReprOK()
  {
  }

  /** ds are distinct consistent entities owning disjoint sets of objects,
      all inside owned: the shape of every list of entities the editor keeps. */
  ghost predicate Forest(ds: seq<Groupable>, owned: set<object>)
    reads owned
  {
    NoDups(ds) &&
    (forall k | 0 <= k < |ds| :: ds[k].Obj() in owned && ds[k].Repr() <= owned && ds[k].Valid()) &&
    (forall d, e | d in ds && e in ds && d != e :: d.Repr() !! e.Repr())
  }

  /** ds form a forest and are healthy entities with the snapshots cs: the
      result of copying entities with those snapshots. */
  ghost predicate CopiesOf(ds: seq<Groupable>, cs: seq<Geom>, owned: set<object>)
    reads owned
  {
    Forest(ds, owned) && |ds| == |cs| &&
    (forall k | 0 <= k < |ds| :: ds[k].Snapshot() == cs[k] && Healthy(cs[k]))
  }

  /** A consistent group, seen as an entity, is consistent, and is a forest
      of one over what it owns. */
  lemma GroupAlone(g: ShipGroup)
    requires g.Valid()
    ensures GroupItem(g).Valid() && GroupItem(g).Snapshot() == g.Snapshot()
    ensures Forest([GroupItem(g)], g.Repr)
  {
    GroupItem(g).OwnsObj();
  }

  /** The objects the entities ds own between them. */
  ghost function Footprint(ds: seq<Groupable>): set<object>
    reads set k | 0 <= k < |ds| :: ds[k].Obj()
  {
    set k, o | 0 <= k < |ds| && o in ds[k].Repr() :: o
  }

  /** The snapshots of consistent entities, in order. */
  ghost function Snapshots(ds: seq<Groupable>): (r: seq<Geom>)
    requires forall k | 0 <= k < |ds| :: ds[k].ReprOK()
    reads set k | 0 <= k < |ds| :: ds[k].Obj()
    reads set k, o | 0 <= k < |ds| && o in ds[k].Repr() :: o
    ensures |r| == |ds| && forall k | 0 <= k < |ds| :: r[k] == ds[k].Snapshot()
  {
    if ds == [] then [] else [ds[0].Snapshot()] + Snapshots(ds[1..])
  }

  /** Copies of every entity of items, in order (a stream mapping duplicate
      over a list); None as soon as one entity cannot be copied, which is
      exactly when one of them is unhealthy.  The copies own disjoint sets
      of new objects, all in owned. */
  method DuplicateAll(items: seq<Groupable>) returns (copies: Option<seq<Groupable>>, ghost owned: set<object>)
    requires forall k | 0 <= k < |items| :: items[k].Valid()
    decreases Footprint(items), 5
    ensures forall k | 0 <= k < |items| :: items[k].ReprOK() && items[k].Valid()
    ensures copies.Some? <==> forall k | 0 <= k < |items| :: Healthy(items[k].Snapshot())
    ensures copies.Some? ==> fresh(owned) && CopiesOf(copies.value, Snapshots(items), owned)
  {
    ghost var cs, objs := Snapshots(items), Footprint(items);
    var done: seq<Groupable> := [];
    owned := {};
    var i := 0;
    while i < |items|
      invariant 0 <= i <= |items| && fresh(owned)
      invariant CopiesOf(done, cs[..i], owned)
    {
      Framed(items[i]);
      var c;
      ghost var more;
      c, more := DuplicateNext(items[i], done, cs, i, owned);
      if c.None? {
        ValidKept(items, objs);
        return None, owned;
      }
      done, owned, i := done + [c.value], more, i + 1;
    }
    ValidKept(items, objs);
    assert cs[..i] == cs;
    copies := Some(done);
  }

  /** One step of DuplicateAll: copies c, the entity with snapshot cs[i],
      after the copies ds of the entities before it. */
  method DuplicateNext(c: Groupable, ghost ds: seq<Groupable>, ghost cs: seq<Geom>, ghost i: nat, ghost owned: set<object>)
    returns (d: Option<Groupable>, ghost more: set<object>)
    requires i < |cs| && c.Valid() && c.Snapshot() == cs[i] && CopiesOf(ds, cs[..i], owned)
    decreases c.Repr(), 4
    ensures d.Some? <==> Healthy(cs[i])
    ensures d.Some? ==> fresh(more - owned) && CopiesOf(ds + [d.value], cs[..i + 1], more)
  {
    label Before:
    d := c.Duplicate();
    more := owned;
    if d.Some? {
      assert unchanged@Before(owned);
      CopiesKept@Before(ds, cs[..i], owned);
      CopiesAppend(ds, cs, i, owned, d.value);
      more := owned + d.value.Repr();
    }
  }

  /** Consistent entities none of whose objects changed stay consistent
      and keep their snapshots. */
  twostate lemma ValidKept(new ds: seq<Groupable>, new objs: set<object>)
    requires old(allocated(ds)) && old(allocated(objs))
    requires forall k | 0 <= k < |ds| :: old(ds[k].ReprOK()) && old(ds[k].Valid())
    requires old(Footprint(ds)) <= objs && unchanged(objs)
    ensures forall k | 0 <= k < |ds| :: ds[k].Valid() && ds[k].Snapshot() == old(ds[k].Snapshot())
  {
    forall k | 0 <= k < |ds| ensures ds[k].Valid() && ds[k].Snapshot() == old(ds[k].Snapshot()) {
      Framed(ds[k]);
    }
  }

  /** Copies whose objects did not change are still copies. */
  twostate lemma CopiesKept(new ds: seq<Groupable>, cs: seq<Geom>, new owned: set<object>)
    requires old(allocated(ds)) && old(allocated(owned)) && old(CopiesOf(ds, cs, owned)) && unchanged(owned)
    ensures CopiesOf(ds, cs, owned)
  {
    forall k | 0 <= k < |ds|
      ensures ds[k].Repr() == old(ds[k].Repr()) && ds[k].ReprOK() && ds[k].Snapshot() == old(ds[k].Snapshot())
    {
      Framed(ds[k]);
    }
  }

  /** Copies of the first i snapshots, extended by a consistent, healthy
      entity with snapshot cs[i] owning objects outside owned, are copies of
      the first i + 1. */
  lemma CopiesAppend(ds: seq<Groupable>, cs: seq<Geom>, i: nat, owned: set<object>, c: Groupable)
    requires i < |cs| && CopiesOf(ds, cs[..i], owned)
    requires c.Valid() && c.Snapshot() == cs[i] && Healthy(cs[i]) && c.Repr() !! owned
    ensures CopiesOf(ds + [c], cs[..i + 1], owned + c.Repr())
  {
    c.OwnsObj();
    ForestAppend(ds, owned, c);
    var ds', cs' := ds + [c], cs[..i + 1];
    forall k | 0 <= k < |ds'| ensures ds'[k].Snapshot() == cs'[k] && Healthy(cs'[k]) {
      if k < |ds| {
        assert ds'[k] == ds[k] && cs'[k] == cs[..i][k];
      }
    }
  }

  /** A forest extended by a consistent entity that owns its object and
      nothing of the forest's objects is a forest over both. */
  lemma ForestAppend(ds: seq<Groupable>, owned: set<object>, c: Groupable)
    requires Forest(ds, owned) && c.Valid() && c.Obj() in c.Repr() && c.Repr() !! owned
    ensures Forest(ds + [c], owned + c.Repr())
  {
    var ds' := ds + [c];
    forall k | 0 <= k < |ds| ensures ds[k] != c {
      assert ds[k].Obj() in owned;
    }
    assert NoDups(ds') by {
      forall i, j | 0 <= i < j < |ds'| ensures ds'[i] != ds'[j] {
        assert ds'[i] == ds[i];
        if j < |ds| {
          assert ds'[j] == ds[j];
        }
      }
    }
    forall k | 0 <= k < |ds'|
      ensures ds'[k].Obj() in owned + c.Repr() && ds'[k].Repr() <= owned + c.Repr() && ds'[k].Valid()
    {
      if k < |ds| {
        assert ds'[k] == ds[k];
      }
    }
    forall d, e | d in ds' && e in ds' && d != e ensures d.Repr() !! e.Repr() {
      if d != c && e != c {
        assert d in ds && e in ds;
      } else if d == c {
        assert e in ds;
      } else {
        assert d in ds;
      }
    }
  }

  /** Entities whose objects are all unchanged keep what they own, their
      consistency and their snapshots. */
  twostate lemma ReprsKept(new ds: seq<Groupable>, new objs: set<object>)
    requires old(allocated(ds)) && old(allocated(objs)) && unchanged(objs)
    requires forall k | 0 <= k < |ds| :: old(ds[k].ReprOK()) && old(ds[k].Repr()) <= objs
    ensures forall k | 0 <= k < |ds| ::
      ds[k].Repr() == old(ds[k].Repr()) && ds[k].ReprOK() && ds[k].Snapshot() == old(ds[k].Snapshot())
  {
    forall k | 0 <= k < |ds|
      ensures ds[k].Repr() == old(ds[k].Repr()) && ds[k].ReprOK() && ds[k].Snapshot() == old(ds[k].Snapshot())
    {
      Framed(ds[k]);
    }
  }

  /** A group whose list gained c at the end, and whose objects and c's are
      otherwise as they were, is consistent. */
  twostate lemma Appended(new g: ShipGroup, new c: Groupable)
    requires old(allocated(g)) && old(allocated(c))
    requires old(g.ReprOK()) && old(c.ReprOK()) && old(c.Repr()) !! old(g.Repr)
    requires g.ships == old(g.ships) + [c] && g.Repr == old(g.Repr) + old(c.Repr())
    requires unchanged(old(g.Repr) - {g}) && unchanged(old(c.Repr()))
    ensures g.ReprOK()
    ensures forall k | 0 <= k < |g.ships| :: g.ships[k].Snapshot() == old(g.ships + [c])[k].Snapshot()
  {
    ReprsKept(g.ships, (old(g.Repr) - {g}) + old(c.Repr()));
    c.OwnsObj();
  }

  /** A group of entities with the cached box of its children. */
  class ShipGroup {
    /** The cached left, top, right and bottom edges. */
    var bounds: Box
    var ships: seq<Groupable>
    ghost var Repr: set<object>

    /** The group owns itself and its children; the children own disjoint
        sets of objects, none of which is the group. */
    ghost predicate ReprOK()
      reads this`ships, this`Repr, Repr - {this}
      decreases Repr, 2, 0
    {
      this in Repr &&
      (forall i | 0 <= i < |ships| :: ships[i].Obj() in Repr && ships[i].Obj() != this) &&
      (forall i | 0 <= i < |ships| :: ships[i].Repr() <= Repr && this !in ships[i].Repr()) &&
      (forall i, j | 0 <= i < j < |ships| :: ships[i].Repr() !! ships[j].Repr()) &&
      (forall i | 0 <= i < |ships| :: ships[i].ReprOK())
    }

    /** The snapshots of the children from the k-th on. */
    ghost function SnapshotsFrom(k: nat): (r: seq<Geom>)
      requires ReprOK() && k <= |ships|
      reads this`ships, this`Repr, Repr - {this}
      decreases Repr, 1, |ships| - k
      ensures |r| == |ships| - k
      ensures forall j | 0 <= j < |r| :: r[j] == ships[k + j].Snapshot()
    {
      if k == |ships| then [] else [ships[k].Snapshot()] + SnapshotsFrom(k + 1)
    }

    ghost function Snapshot(): (r: Geom)
      requires ReprOK()
      reads this, Repr
      decreases Repr, 2, 0
      ensures r.Node? && r.box == bounds && |r.children| == |ships|
      ensures forall j | 0 <= j < |ships| :: r.children[j] == ships[j].Snapshot()
    {
      Node(SnapshotsFrom(0), bounds)
    }

    ghost predicate Valid()
      reads this, Repr
    {
      ReprOK() && WellFormed(Snapshot())
    }

    /** A group is consistent when its structure is, every child is, and its
        box is the union of the children's boxes whenever it can be computed. */
    lemma ValidFromChildren()
      requires ReprOK() && forall k | 0 <= k < |ships| :: ships[k].Valid()
      requires Healthy(Snapshot()) ==> bounds == Union(Boxes(Snapshot().children))
      ensures Valid()
    {
      var g := Snapshot();
      assert forall k | 0 <= k < |g.children| :: WellFormed(g.children[k]);
    }

    /** The children of a consistent group are consistent, and their
        snapshots are the group's snapshot's children. */
    lemma ChildrenValid()
      requires Valid()
      ensures ReprOK() && forall k | 0 <= k < |ships| :: ships[k].Valid()
      ensures SnapshotsFrom(0) == Snapshot().children
    {
    }

    /** The children of a consistent group form a forest over the objects
        the group owns besides itself. */
    lemma ChildrenForest()
      requires Valid()
      ensures Forest(ships, Repr - {this})
    {
      ChildrenValid();
      forall k | 0 <= k < |ships| ensures ships[k].Obj() in ships[k].Repr() {
        ships[k].OwnsObj();
      }
      ChildrenApart();
    }

    /** Distinct children of a consistent group own disjoint objects. */
    lemma ChildrenApart()
      requires ReprOK()
      ensures forall d, e | d in ships && e in ships && d != e :: d.Repr() !! e.Repr()
    {
      forall d, e | d in ships && e in ships && d != e ensures d.Repr() !! e.Repr() {
        var i :| 0 <= i < |ships| && ships[i] == d;
        var j :| 0 <= j < |ships| && ships[j] == e;
        if j < i {
          assert ships[j].Repr() !! ships[i].Repr();
        }
      }
    }

    /** Each child of a consistent group is consistent, and its snapshot is
        the group's snapshot's child. */
    lemma ChildValid(i: nat)
      requires Valid() && i < |ships|
      ensures ships[i].Valid() && ships[i].Snapshot() == Snapshot().children[i]
    {
    }

    /** A new group has no children and the all-zero box. */
    constructor ()
      ensures Valid() && fresh(Repr) && Repr == {this} && ships == []
      ensures Snapshot() == Node([], Box(0.0, 0.0, 0.0, 0.0))
    {
      bounds := Box(0.0, 0.0, 0.0, 0.0);
      ships := [];
      Repr := {this};
    }

    /** A group always reports children, even when it has none. */
    function HasChildren(): bool {
      true
    }

    /** The children, in order (getChildren and getShips). */
    function Children(): seq<Groupable>
      reads this
    {
      ships
    }

    /** The cached boxes of the children from the k-th on. */
    function BoxesFrom(k: nat): (r: seq<Box>)
      requires ReprOK() && k <= |ships|
      reads this, Repr
      decreases |ships| - k
      ensures |r| == |ships| - k
      ensures forall j | 0 <= j < |r| :: r[j] == ships[k + j].Snapshot().box
    {
      if k == |ships| then [] else [ships[k].BoundingBox()] + BoxesFrom(k + 1)
    }

    /** Recomputes the cached box from the children's boxes: the least left
        and top and the greatest right and bottom.  On a group without children
        there is nothing to take the least of, and the recalculation fails
        (ok is false) leaving the box as it was. */
    method RecalculateBounds() returns (ok: bool)
      requires ReprOK()
      modifies this`bounds
      ensures ReprOK() && ok == (|ships| > 0)
      ensures ok ==> Snapshot() == Node(old(Snapshot()).children, Union(Boxes(old(Snapshot()).children)))
      ensures !ok ==> Snapshot() == old(Snapshot())
    {
      if |ships| == 0 {
        return false;
      }
      ghost var cs := SnapshotsFrom(0);
      var bs := BoxesFrom(0);
      assert bs == Boxes(cs);
      UnionEdges(bs);
      bounds := Box(Min(Lefts(bs)), Min(Tops(bs)), Max(Rights(bs)), Max(Bottoms(bs)));
      assert ReprOK() && SnapshotsFrom(0) == cs;
      ok := true;
    }

    /** Appends c to the children (the list's add): the group now also owns
        what c owns, and the children's snapshots gain c's at the end. */
    method Append(c: Groupable)
      requires ReprOK() && c.ReprOK() && c.Repr() !! Repr
      modifies this`ships, this`Repr
      ensures ReprOK() && ships == old(ships) + [c] && Repr == old(Repr) + c.Repr()
      ensures SnapshotsFrom(0) == old(SnapshotsFrom(0)) + [old(c.Snapshot())]
    {
      ships, Repr := ships + [c], Repr + c.Repr();
      Appended(this, c);
      assert SnapshotsFrom(0) == old(SnapshotsFrom(0)) + [old(c.Snapshot())];
    }

    /** Appends c to the children and recalculates the box, which then cannot
        fail: the box becomes the union of the children's boxes. */
    method AddChild(c: Groupable)
      requires Valid() && c.Valid() && c.Repr() !! Repr
      modifies this
      ensures Valid() && ships == old(ships) + [c] && Repr == old(Repr) + c.Repr()
      ensures Snapshot().children == old(Snapshot().children) + [old(c.Snapshot())]
      ensures Snapshot().box == Union(Boxes(Snapshot().children))
    {
      Append(c);
      var ok := RecalculateBounds();
    }

    /** Moves the i-th child; the other children are left alone. */
    method MoveChild(i: nat, dx: real, dy: real) returns (ok: bool)
      requires ReprOK() && i < |ships| && forall k | 0 <= k < |ships| :: ships[k].Valid()
      modifies ships[i].Repr()
      decreases Repr, 0
      ensures ReprOK() && forall k | 0 <= k < |ships| :: ships[k].Valid()
      ensures forall k | 0 <= k < |ships| && k != i :: ships[k].Snapshot() == old(ships[k].Snapshot())
      ensures Healthy(ships[i].Snapshot()) == old(Healthy(ships[i].Snapshot()))
      ensures ok == old(Healthy(ships[i].Snapshot()))
      ensures ok ==> ships[i].Snapshot() == Moved(old(ships[i].Snapshot()), dx, dy)
    {
      assert forall k | 0 <= k < |ships| && k != i :: ships[k].Repr() !! ships[i].Repr();
      ghost var stop;
      ok, stop := ships[i].Move(dx, dy);
      forall k | 0 <= k < |ships| && k != i
        ensures ships[k].Repr() == old(ships[k].Repr()) && ships[k].ReprOK()
        ensures ships[k].Snapshot() == old(ships[k].Snapshot())
      {
        Framed(ships[k]);
      }
      ReprOKKept(this);
    }

    /** Moves every child in turn (the list's forEach), stopping at the first
        child that fails: ok is whether every child is healthy.  On a failure,
        stop is that child: those before it have moved, those after it not. */
    method MoveEach(dx: real, dy: real) returns (ok: bool, ghost stop: nat)
      requires ReprOK() && forall k | 0 <= k < |ships| :: ships[k].Valid()
      modifies Repr - {this}
      decreases Repr, 1, 0
      ensures ReprOK() && forall k | 0 <= k < |ships| :: ships[k].Valid()
      ensures forall k | 0 <= k < |ships| :: Healthy(ships[k].Snapshot()) == old(Healthy(ships[k].Snapshot()))
      ensures ok == forall k | 0 <= k < |ships| :: old(Healthy(ships[k].Snapshot()))
      ensures ok ==> forall k | 0 <= k < |ships| :: ships[k].Snapshot() == Moved(old(ships[k].Snapshot()), dx, dy)
      ensures ok ==> stop == |ships|
      ensures !ok ==> stop < |ships| && !old(Healthy(ships[stop].Snapshot()))
      ensures !ok ==> forall k | 0 <= k < |ships| && k < stop :: old(Healthy(ships[k].Snapshot()))
      ensures !ok ==> forall k | 0 <= k < |ships| && k < stop :: ships[k].Snapshot() == Moved(old(ships[k].Snapshot()), dx, dy)
      ensures !ok ==> forall k | stop < k < |ships| :: ships[k].Snapshot() == old(ships[k].Snapshot())
    {
      var i := 0;
      while i < |ships|
        invariant 0 <= i <= |ships|
        invariant ReprOK() && forall k | 0 <= k < |ships| :: ships[k].Valid()
        invariant forall k | 0 <= k < |ships| :: Healthy(ships[k].Snapshot()) == old(Healthy(ships[k].Snapshot()))
        invariant forall k | 0 <= k < i :: old(Healthy(ships[k].Snapshot()))
        invariant forall k | 0 <= k < i :: ships[k].Snapshot() == Moved(old(ships[k].Snapshot()), dx, dy)
        invariant forall k | i <= k < |ships| :: ships[k].Snapshot() == old(ships[k].Snapshot())
      {
        var childOk := MoveChild(i, dx, dy);
        if !childOk {
          return false, i;
        }
        i := i + 1;
      }
      ok, stop := true, |ships|;
    }

    /** The same move of every child, stated over the children's snapshots
        cs before the move. */
    method MoveChildren(ghost cs: seq<Geom>, dx: real, dy: real) returns (ok: bool, ghost stop: nat)
      requires ReprOK() && forall k | 0 <= k < |ships| :: ships[k].Valid()
      requires cs == SnapshotsFrom(0)
      modifies Repr - {this}
      decreases Repr, 1, 1
      ensures ReprOK() && forall k | 0 <= k < |ships| :: ships[k].Valid()
      ensures forall k | 0 <= k < |ships| :: Healthy(ships[k].Snapshot()) == Healthy(cs[k])
      ensures ok == forall k | 0 <= k < |ships| :: Healthy(cs[k])
      ensures ok ==> SnapshotsFrom(0) == MovedAll(cs, dx, dy) && stop == |ships|
      ensures !ok ==> stop < |ships| && !Healthy(cs[stop])
      ensures !ok ==> forall k | 0 <= k < |ships| && k < stop :: Healthy(cs[k])
      ensures !ok ==> forall k | 0 <= k < |ships| && k < stop :: ships[k].Snapshot() == Moved(cs[k], dx, dy)
      ensures !ok ==> forall k | stop < k < |ships| :: ships[k].Snapshot() == cs[k]
    {
      assert forall k | 0 <= k < |ships| :: cs[k] == ships[k].Snapshot();
      ok, stop := MoveEach(dx, dy);
    }

    /** Moves every child, then recalculates the box.  A child that fails
        (stop) ends the move there; a group without children fails at the
        recalculation.  So the move succeeds exactly when the group is healthy,
        and a failed one leaves the group Stopped, with its old box. */
    method Move(dx: real, dy: real) returns (ok: bool, ghost stop: nat)
      requires Valid()
      modifies Repr
      decreases Repr, 2
      ensures Valid() && Repr == old(Repr) && ships == old(ships)
      ensures Healthy(Snapshot()) == old(Healthy(Snapshot()))
      ensures ok == old(Healthy(Snapshot()))
      ensures ok ==> Snapshot() == Moved(old(Snapshot()), dx, dy)
      ensures !ok ==> Stopped(old(Snapshot()), Snapshot(), stop, dx, dy)
    {
      ok, stop := MoveFrom(Snapshot(), dx, dy);
    }

    /** The move, stated about the snapshot before of the group when it
        starts. */
    method MoveFrom(ghost before: Geom, dx: real, dy: real) returns (ok: bool, ghost stop: nat)
      requires Valid() && before == Snapshot()
      modifies Repr
      decreases Repr, 1, 2
      ensures Valid() && Repr == old(Repr) && ships == old(ships)
      ensures ok == Healthy(before) && Healthy(Snapshot()) == ok
      ensures ok ==> Snapshot() == Moved(before, dx, dy)
      ensures !ok ==> Stopped(before, Snapshot(), stop, dx, dy)
    {
      ChildrenValid();
      ok, stop := MoveChildren(before.children, dx, dy);
      ok := FinishMove(before, ok, stop, dx, dy);
    }

    /** The end of a move, once the children have been moved (childrenOk) or
        one of them has failed: the recalculation runs only after every child
        moved, and fails on a group without children.  The group then holds
        the moved snapshot of what it was before exactly when that was healthy. */
    method FinishMove(ghost before: Geom, childrenOk: bool, ghost stop: nat, dx: real, dy: real) returns (ok: bool)
      requires ReprOK() && forall k | 0 <= k < |ships| :: ships[k].Valid()
      requires before.Node? && WellFormed(before) && |before.children| == |ships| && bounds == before.box
      requires forall k | 0 <= k < |ships| :: Healthy(ships[k].Snapshot()) == Healthy(before.children[k])
      requires childrenOk == forall k | 0 <= k < |ships| :: Healthy(before.children[k])
      requires childrenOk ==> SnapshotsFrom(0) == MovedAll(before.children, dx, dy) && stop == |ships|
      requires !childrenOk ==> Stopped(before, Snapshot(), stop, dx, dy)
      modifies this`bounds
      ensures Valid() && ok == Healthy(before) && Healthy(Snapshot()) == Healthy(before)
      ensures ok ==> Snapshot() == Moved(before, dx, dy)
      ensures !ok ==> Stopped(before, Snapshot(), stop, dx, dy)
    {
      if !childrenOk {
        ValidFromChildren();
        return false;
      }
      MovedHealthy(before, dx, dy);
      if |ships| > 0 {
        UnionMoved(before.children, dx, dy);
      }
      ok := RecalculateBounds();
      ValidFromChildren();
    }

    /** Replaces the children (setShips) by items that own disjoint sets of
        objects, all inside owned, which the group then owns too. */
    method SetShips(items: seq<Groupable>, ghost cs: seq<Geom>, ghost owned: set<object>)
      requires this !in owned && this in Repr && CopiesOf(items, cs, owned)
      modifies this`ships, this`Repr
      ensures ships == items && Repr == {this} + owned && ReprOK() && CopiesOf(items, cs, owned)
    {
      ships, Repr := items, {this} + owned;
    }

    /** A group whose children are consistent entities with the snapshots
        cs, and whose box is their union when it can be computed, is
        consistent with the children's snapshots cs. */
    lemma ValidFromCopies(cs: seq<Geom>, owned: set<object>)
      requires ReprOK() && CopiesOf(ships, cs, owned)
      requires Healthy(Snapshot()) ==> bounds == Union(Boxes(Snapshot().children))
      ensures Valid() && Snapshot().children == cs
    {
      ValidFromChildren();
    }

    /** A deep copy: a new group whose children are copies of the children,
        in order, with its box recalculated.  Copying a child fails when the
        child is unhealthy, and recalculating the copy's box fails when there
        are no children; so the copy exists exactly when the group is healthy. */
    method Duplicate() returns (d: Option<ShipGroup>)
      requires Valid()
      decreases Repr, 2
      ensures d.Some? <==> Healthy(Snapshot())
      ensures d.Some? ==> fresh(d.value.Repr) && d.value.Valid() && d.value.Snapshot() == Snapshot()
    {
      ghost var g := Snapshot();
      ghost var owned;
      var copies;
      copies, owned := DuplicateChildren();
      if copies.None? {
        return None;
      }
      label Built:
      d := Assemble(copies.value, g.children, owned);
      Framed@Built(GroupItem(this));
      if d.Some? {
        assert d.value.Repr == {d.value} + owned && fresh(d.value);
      }
    }

    /** Copies of the children, in order (the stream of duplicates in
        duplicate): None exactly when some child is unhealthy; otherwise
        they own disjoint sets of new objects and have the children's
        snapshots. */
    method DuplicateChildren() returns (copies: Option<seq<Groupable>>, ghost owned: set<object>)
      requires Valid()
      decreases Repr, 1
      ensures Valid() && Snapshot() == old(Snapshot())
      ensures copies.Some? <==> forall k | 0 <= k < |ships| :: Healthy(Snapshot().children[k])
      ensures copies.Some? ==> fresh(owned) && CopiesOf(copies.value, Snapshot().children, owned)
    {
      assert Footprint(ships) <= Repr - {this};
      forall k | 0 <= k < |ships| ensures ships[k].Valid() {
        ChildValid(k);
      }
      copies, owned := DuplicateAll(ships);
      Framed(GroupItem(this));
      assert Snapshots(ships) == Snapshot().children;
    }

    /** A new group (the copy's constructor, setShips and recalculateBounds)
        over the copies, which own the objects owned and have the snapshots
        cs.  Recalculating the box fails exactly when there are no copies. */
    static method Assemble(copies: seq<Groupable>, ghost cs: seq<Geom>, ghost owned: set<object>)
      returns (d: Option<ShipGroup>)
      requires CopiesOf(copies, cs, owned)
      ensures d.Some? <==> |cs| > 0
      ensures d.Some? ==> fresh(d.value) && d.value.Repr == {d.value} + owned
      ensures d.Some? ==> d.value.Valid() && d.value.ships == copies && d.value.Snapshot() == Node(cs, Union(Boxes(cs)))
    {
      var copy := new ShipGroup();
      assert copy !in owned;
      copy.SetShips(copies, cs, owned);
      var ok := copy.RecalculateBounds();
      if !ok {
        return None;
      }
      assert copy.Repr == {copy} + owned && CopiesOf(copy.ships, cs, owned);
      copy.ValidFromCopies(cs, owned);
      d := Some(copy);
    }

    /** Whether (x, y) hits some child. */
    function Contains(x: real, y: real): (r: bool)
      requires ReprOK()
      reads this, Repr
      decreases Repr, 2, 0
      ensures r == Hit(Snapshot(), x, y)
    {
      exists i | 0 <= i < |ships| :: ships[i].Contains(x, y)
    }

    /** Whether every child lies in [x1, x2] x [y1, y2]. */
    function IsContained(x1: real, y1: real, x2: real, y2: real): (r: bool)
      requires ReprOK()
      reads this, Repr
      decreases Repr, 2, 0
      ensures r == Inside(Snapshot(), x1, y1, x2, y2)
    {
      forall i | 0 <= i < |ships| :: ships[i].IsContained(x1, y1, x2, y2)
    }
  }
}
