/** The scene: the ordered list of top-level entities the editor shows (the
    last one is drawn on top), and the operations on it.  A change to the
    scene notifies the subscribers, which is counted. */
module ShipModels {
  import opened Geometry
  import opened Ships
  import opened Composite
  import opened Lists
  import opened RubberBand
  import opened Gathering

  /** The last entity of ds that (x, y) hits: the hits filtered out of the
      list, reduced to the last one. */
  function LastHit(ds: seq<Groupable>, x: real, y: real): Option<Groupable>
    requires forall k | 0 <= k < |ds| :: ds[k].ReprOK()
    reads set k | 0 <= k < |ds| :: ds[k].Obj()
    reads set k, o | 0 <= k < |ds| && o in ds[k].Repr() :: o
  {
    if ds == [] then None
    else if ds[|ds| - 1].Contains(x, y) then Some(ds[|ds| - 1])
    else LastHit(ds[..|ds| - 1], x, y)
  }

  /** LastHit finds nothing exactly when nothing is hit. */
  lemma {:induction false} LastHitNone(ds: seq<Groupable>, x: real, y: real)
    requires forall k | 0 <= k < |ds| :: ds[k].ReprOK()
    ensures LastHit(ds, x, y).None? <==> forall k | 0 <= k < |ds| :: !Hit(ds[k].Snapshot(), x, y)
  {
    if ds != [] {
      var n := |ds| - 1;
      var below := ds[..n];
      assert forall j | 0 <= j < n :: below[j] == ds[j];
      LastHitNone(below, x, y);
    }
  }

  /** What LastHit finds is an entity that is hit and above which nothing
      is; k is its position. */
  lemma {:induction false} LastHitIsTopmost(ds: seq<Groupable>, x: real, y: real) returns (k: nat)
    requires forall k | 0 <= k < |ds| :: ds[k].ReprOK()
    requires LastHit(ds, x, y).Some?
    ensures k < |ds| && ds[k] == LastHit(ds, x, y).value && Hit(ds[k].Snapshot(), x, y)
    ensures forall j | k < j < |ds| :: !Hit(ds[j].Snapshot(), x, y)
  {
    var n := |ds| - 1;
    if ds[n].Contains(x, y) {
      k := n;
    } else {
      var below := ds[..n];
      assert forall j | 0 <= j < n :: below[j] == ds[j];
      k := LastHitIsTopmost(below, x, y);
    }
  }

  /** The same, as a statement about some position. */
  lemma LastHitFound(ds: seq<Groupable>, x: real, y: real)
    requires forall k | 0 <= k < |ds| :: ds[k].ReprOK()
    ensures LastHit(ds, x, y).Some? ==> exists k | 0 <= k < |ds| ::
      ds[k] == LastHit(ds, x, y).value && Hit(ds[k].Snapshot(), x, y) &&
      forall j | k < j < |ds| :: !Hit(ds[j].Snapshot(), x, y)
  {
    if LastHit(ds, x, y).Some? {
      var k := LastHitIsTopmost(ds, x, y);
    }
  }

  /** The entities of ds lying inside [x1, x2] x [y1, y2], in order: the
      list filtered by containment. */
  function Enclosed(ds: seq<Groupable>, x1: real, y1: real, x2: real, y2: real): seq<Groupable>
    requires forall k | 0 <= k < |ds| :: ds[k].ReprOK()
    reads set k | 0 <= k < |ds| :: ds[k].Obj()
    reads set k, o | 0 <= k < |ds| && o in ds[k].Repr() :: o
  {
    if ds == [] then []
    else if ds[0].IsContained(x1, y1, x2, y2) then [ds[0]] + Enclosed(ds[1..], x1, y1, x2, y2)
    else Enclosed(ds[1..], x1, y1, x2, y2)
  }

  /** The filter keeps exactly the entities lying inside the rectangle, and
      brings in no repeats. */
  lemma {:induction false} EnclosedMembers(ds: seq<Groupable>, x1: real, y1: real, x2: real, y2: real)
    requires forall k | 0 <= k < |ds| :: ds[k].ReprOK()
    ensures forall k | 0 <= k < |ds| && Inside(ds[k].Snapshot(), x1, y1, x2, y2) :: ds[k] in Enclosed(ds, x1, y1, x2, y2)
    ensures forall d | d in Enclosed(ds, x1, y1, x2, y2) ::
      exists k | 0 <= k < |ds| :: ds[k] == d && Inside(ds[k].Snapshot(), x1, y1, x2, y2)
    ensures forall d | d in Enclosed(ds, x1, y1, x2, y2) :: d in ds
    ensures NoDups(ds) ==> NoDups(Enclosed(ds, x1, y1, x2, y2))
  {
    if ds != [] {
      var rest := ds[1..];
      EnclosedMembers(rest, x1, y1, x2, y2);
      assert forall k | 0 < k < |ds| :: ds[k] == rest[k - 1];
      if NoDups(ds) {
        assert NoDups(rest) by {
          forall i, j | 0 <= i < j < |rest| ensures rest[i] != rest[j] {
            assert rest[i] == ds[i + 1] && rest[j] == ds[j + 1];
          }
        }
        assert ds[0] !in rest by {
          forall j | 0 <= j < |rest| ensures ds[0] != rest[j] {
            assert rest[j] == ds[j + 1];
          }
        }
        var r := Enclosed(rest, x1, y1, x2, y2);
        assert ds[0] !in r by {
          forall d | d in r ensures d != ds[0] {
            var k :| 0 <= k < |rest| && rest[k] == d && Inside(rest[k].Snapshot(), x1, y1, x2, y2);
            assert rest[k] in rest;
          }
        }
        assert NoDups([ds[0]] + r) by {
          forall i, j | 0 <= i < j < |r| + 1 ensures ([ds[0]] + r)[i] != ([ds[0]] + r)[j] {
            if i > 0 {
              assert ([ds[0]] + r)[i] == r[i - 1] && ([ds[0]] + r)[j] == r[j - 1];
            } else {
              assert ([ds[0]] + r)[j] in r;
            }
          }
        }
      }
      forall d | d in Enclosed(ds, x1, y1, x2, y2)
        ensures exists k | 0 <= k < |ds| :: ds[k] == d && Inside(ds[k].Snapshot(), x1, y1, x2, y2)
      {
        if d in Enclosed(rest, x1, y1, x2, y2) {
          var k :| 0 <= k < |rest| && rest[k] == d && Inside(rest[k].Snapshot(), x1, y1, x2, y2);
          assert ds[k + 1] == d;
        }
      }
    }
  }

  /** Moves every entity of list in turn (the list's forEach), stopping at
      the first that fails: ok is whether every entity is healthy.  On a
      failure, stop is the entity that failed: those before it have moved
      and those after it are untouched. */
  method MoveAll(list: seq<Groupable>, dx: real, dy: real, ghost owned: set<object>) returns (ok: bool, ghost stop: nat)
    requires Forest(list, owned)
    modifies Footprint(list)
    ensures Forest(list, owned)
    ensures forall k | 0 <= k < |list| :: list[k].Repr() == old(list[k].Repr())
    ensures forall k | 0 <= k < |list| :: Healthy(list[k].Snapshot()) == old(Healthy(list[k].Snapshot()))
    ensures ok == forall k | 0 <= k < |list| :: old(Healthy(list[k].Snapshot()))
    ensures ok ==> forall k | 0 <= k < |list| :: list[k].Snapshot() == Moved(old(list[k].Snapshot()), dx, dy)
    ensures !ok ==> stop < |list| && !old(Healthy(list[stop].Snapshot()))
    ensures !ok ==> forall k | 0 <= k < |list| && k < stop :: old(Healthy(list[k].Snapshot()))
    ensures !ok ==> forall k | 0 <= k < |list| && k < stop :: list[k].Snapshot() == Moved(old(list[k].Snapshot()), dx, dy)
    ensures !ok ==> forall k | stop < k < |list| :: list[k].Snapshot() == old(list[k].Snapshot())
  {
    var i := 0;
    while i < |list|
      invariant 0 <= i <= |list| && Forest(list, owned)
      invariant forall k | 0 <= k < |list| :: list[k].Repr() == old(list[k].Repr())
      invariant forall k | 0 <= k < |list| :: Healthy(list[k].Snapshot()) == old(Healthy(list[k].Snapshot()))
      invariant forall k | 0 <= k < i :: old(Healthy(list[k].Snapshot()))
      invariant forall k | 0 <= k < i :: list[k].Snapshot() == Moved(old(list[k].Snapshot()), dx, dy)
      invariant forall k | i <= k < |list| :: list[k].Snapshot() == old(list[k].Snapshot())
    {
      var moved := MoveNext(list, i, dx, dy, owned);
      if !moved {
        return false, i;
      }
      i := i + 1;
    }
    ok, stop := true, |list|;
  }

  /** One step of MoveAll: moves list[i]; the other entities are left alone. */
  method MoveNext(list: seq<Groupable>, i: nat, dx: real, dy: real, ghost owned: set<object>) returns (ok: bool)
    requires i < |list| && Forest(list, owned)
    modifies list[i].Repr()
    ensures Forest(list, owned)
    ensures forall k | 0 <= k < |list| :: list[k].Repr() == old(list[k].Repr())
    ensures forall k | 0 <= k < |list| && k != i :: list[k].Snapshot() == old(list[k].Snapshot())
    ensures Healthy(list[i].Snapshot()) == old(Healthy(list[i].Snapshot()))
    ensures ok == old(Healthy(list[i].Snapshot()))
    ensures ok ==> list[i].Snapshot() == Moved(old(list[i].Snapshot()), dx, dy)
  {
    assert list[i] in list;
    assert forall k | 0 <= k < |list| && k != i :: list[k] in list && list[k] != list[i];
    ghost var stop;
    ok, stop := list[i].Move(dx, dy);
    forall k | 0 <= k < |list| && k != i
      ensures list[k].Repr() == old(list[k].Repr()) && list[k].ReprOK()
      ensures list[k].Snapshot() == old(list[k].Snapshot())
    {
      Framed(list[k]);
    }
  }

  class ShipModel {
    /** The top-level entities, bottom to top. */
    var ships: seq<Groupable>
    /** The entities the rubber band last found (cleared by ClearSelection). */
    var tempCollection: seq<Groupable>
    /** The pixel test of the rendered ship outline every new ship gets. */
    const pixels: Bitmap
    /** How often the subscribers were told of a change. */
    ghost var notifications: nat
    /** The objects the scene's entities own. */
    ghost var Owned: set<object>

    /** The scene's entities are distinct and own disjoint sets of objects. */
    ghost predicate Valid()
      reads this`ships, this`Owned, Owned
    {
      this !in Owned && Forest(ships, Owned)
    }

    /** The entities ds may be handed to the scene's operations: they form a
        forest over the scene's objects and the loose objects (those of
        entities outside the scene), and each is an entity of the scene or
        owns only loose objects. */
    ghost predicate Attached(ds: seq<Groupable>, loose: set<object>)
      reads this`ships, this`Owned, Owned, loose
    {
      this !in loose && Owned !! loose && Forest(ds, Owned + loose) &&
      forall d | d in ds :: d in ships || d.Repr() <= loose
    }

    /** An empty scene. */
    constructor (pixels: Bitmap)
      ensures Valid() && ships == [] && tempCollection == [] && Owned == {}
      ensures this.pixels == pixels && notifications == 0
    {
      this.pixels := pixels;
      ships := [];
      tempCollection := [];
      notifications := 0;
      Owned := {};
    }

    /** Places a new ship at (x, y) on top of the scene. */
    method CreateShip(x: real, y: real) returns (s: Ship)
      requires Valid()
      modifies this`ships, this`Owned, this`notifications
      ensures Valid() && fresh(s.Repr()) && s.Snapshot() == NewLeaf(x, y, pixels)
      ensures ships == old(ships) + [ShipItem(s)] && Owned == old(Owned) + s.Repr()
      ensures notifications == old(notifications) + 1
    {
      s := new Ship(x, y, pixels);
      ships := ships + [ShipItem(s)];
      Owned := Owned + s.Repr();
      notifications := notifications + 1;
      assert ShipItem(s) !in old(ships);
    }

    /** The topmost entity (x, y) hits, if any. */
    function DetectHit(x: real, y: real): (r: Option<Groupable>)
      requires Valid()
      reads this, Owned
      ensures r.None? <==> forall k | 0 <= k < |ships| :: !Hit(ships[k].Snapshot(), x, y)
      ensures r.Some? ==> exists k | 0 <= k < |ships| ::
        ships[k] == r.value && Hit(ships[k].Snapshot(), x, y) &&
        forall j | k < j < |ships| :: !Hit(ships[j].Snapshot(), x, y)
    {
      LastHitNone(ships, x, y);
      LastHitFound(ships, x, y);
      LastHit(ships, x, y)
    }

    /** Adds the entities lying inside the rubber band to tempCollection,
        in scene order, and returns that very list. */
    method DetectRubberBandHit(band: RubberBandRectangle) returns (hits: seq<Groupable>)
      requires Valid()
      modifies this`tempCollection
      ensures hits == tempCollection
      ensures tempCollection == old(tempCollection) +
        old(Enclosed(ships, band.left, band.top, band.left + band.width, band.top + band.height))
    {
      var x1, y1 := band.left, band.top;
      var x2, y2 := x1 + band.width, y1 + band.height;
      var found := Enclosed(ships, x1, y1, x2, y2);
      assert found == old(Enclosed(ships, band.left, band.top, band.left + band.width, band.top + band.height));
      tempCollection := tempCollection + found;
      hits := tempCollection;
    }

    /** Moves the entities of list by (dx, dy) in turn and notifies; an
        entity that fails (stop) ends the move there, before the
        notification, with the entities before it moved and those after it
        untouched.  The rest of the scene stays where it was. */
    method Move(list: seq<Groupable>, dx: real, dy: real, ghost loose: set<object>) returns (ok: bool, ghost stop: nat)
      requires Valid() && Attached(list, loose)
      modifies this`notifications, Footprint(list)
      ensures Valid() && Attached(list, loose)
      ensures forall k | 0 <= k < |list| :: list[k].Repr() == old(list[k].Repr())
      ensures forall k | 0 <= k < |list| :: Healthy(list[k].Snapshot()) == old(Healthy(list[k].Snapshot()))
      ensures ok == forall k | 0 <= k < |list| :: old(Healthy(list[k].Snapshot()))
      ensures ok ==> forall k | 0 <= k < |list| :: list[k].Snapshot() == Moved(old(list[k].Snapshot()), dx, dy)
      ensures !ok ==> stop < |list| && !old(Healthy(list[stop].Snapshot()))
      ensures !ok ==> forall k | 0 <= k < |list| && k < stop :: old(Healthy(list[k].Snapshot()))
      ensures !ok ==> forall k | 0 <= k < |list| && k < stop :: list[k].Snapshot() == Moved(old(list[k].Snapshot()), dx, dy)
      ensures !ok ==> forall k | stop < k < |list| :: list[k].Snapshot() == old(list[k].Snapshot())
      ensures forall k | 0 <= k < |ships| && ships[k] !in list :: ships[k].Snapshot() == old(ships[k].Snapshot())
      ensures notifications == old(notifications) + (if ok then 1 else 0)
    {
      ghost var fp := Footprint(list);
      Untouched(list, loose);
      ok, stop := MoveAll(list, dx, dy, Owned + loose);
      MovedWithin(list, loose, fp);
      if ok {
        notifications := notifications + 1;
      }
    }

    /** Once the objects of the entities of list, and nothing else of the
        scene or the loose objects, have changed, with list still a forest,
        the scene is still consistent, list is still attached, and the
        entities of the scene outside list are where they were. */
    twostate lemma MovedWithin(new list: seq<Groupable>, new loose: set<object>, fp: set<object>)
      requires old(allocated(list)) && old(allocated(loose))
      requires old(Valid() && Attached(list, loose)) && unchanged(this)
      requires fp == old(Footprint(list)) && unchanged(Owned + loose - fp)
      requires forall d | d in old(ships) && d !in list :: old(d.Repr()) !! fp
      requires Forest(list, Owned + loose) && forall k | 0 <= k < |list| :: list[k].Repr() == old(list[k].Repr())
      ensures Valid() && Attached(list, loose)
      ensures forall k | 0 <= k < |ships| && ships[k] !in list :: ships[k].Snapshot() == old(ships[k].Snapshot())
    {
      forall k | 0 <= k < |ships|
        ensures ships[k].Repr() == old(ships[k].Repr()) && ships[k].Valid()
        ensures ships[k] !in list ==> ships[k].Snapshot() == old(ships[k].Snapshot())
      {
        assert ships[k] in ships;
        if ships[k] !in list {
          Framed(ships[k]);
        } else {
          var j :| 0 <= j < |list| && list[j] == ships[k];
        }
      }
      ForestKept(ships, Owned);
    }

    /** The entities of the scene outside ds own nothing that ds own. */
    lemma Untouched(ds: seq<Groupable>, loose: set<object>)
      requires Valid() && Attached(ds, loose)
      ensures forall d | d in ships && d !in ds :: d.Repr() !! Footprint(ds)
    {
      forall d, o | d in ships && d !in ds && o in Footprint(ds) ensures o !in d.Repr() {
        var j :| 0 <= j < |ds| && o in ds[j].Repr();
        assert ds[j] in ds;
      }
    }

    /** Entities attached to the scene form a forest over the objects they
        own, none of which is the scene itself. */
    lemma SelectionOwns(ds: seq<Groupable>, loose: set<object>)
      requires Valid() && Attached(ds, loose)
      ensures Forest(ds, Footprint(ds)) && this !in Footprint(ds)
    {
      forall k | 0 <= k < |ds| ensures ds[k].Obj() in Footprint(ds) && this !in ds[k].Repr() {
        ds[k].OwnsObj();
        assert ds[k] in ds;
      }
    }

    /** Gathers the entities of selected, in order, into a new group put on
        top of the scene (each is added to the group and removed from the
        scene in turn); the rest of the scene keeps its order.  The group's
        box is the union of its members' boxes, or all zero when it has none. */
    method CreateGroup(selected: seq<Groupable>, ghost loose: set<object>) returns (group: Groupable)
      requires Valid() && Attached(selected, loose)
      modifies this`ships, this`Owned, this`notifications
      ensures Valid() && group.GroupItem? && fresh(group.Obj()) && group.Valid()
      ensures ships == RemoveAll(old(ships), selected) + [group]
      ensures Owned == (old(Owned) - old(Footprint(selected))) + group.Repr()
      ensures group.Repr() <= old(Footprint(selected)) + {group.Obj()}
      ensures group.Children() == Some(selected)
      ensures group.Snapshot().children == old(Snapshots(selected))
      ensures group.Snapshot().box ==
        if selected == [] then Box(0.0, 0.0, 0.0, 0.0) else Union(Boxes(group.Snapshot().children))
      ensures notifications == old(notifications) + 1
    {
      ghost var cs := Snapshots(selected);
      var g;
      ghost var acc;
      g, acc := Detach(selected, cs, loose);
      group := GroupItem(g);
      GroupAlone(g);
      label Placing:
      Add([group], g.Repr);
      Framed@Placing(group);
    }

    /** The first part of CreateGroup: gathers selected into a new group g
        owning acc, and takes them out of the scene, which stays consistent
        without them. */
    method Detach(selected: seq<Groupable>, ghost cs: seq<Geom>, ghost loose: set<object>)
      returns (g: ShipGroup, ghost acc: set<object>)
      requires Valid() && Attached(selected, loose) && cs == Snapshots(selected)
      modifies this`ships, this`Owned
      ensures Valid() && ships == RemoveAll(old(ships), selected) && Owned == old(Owned) - old(Footprint(selected))
      ensures fresh(g) && g.Valid() && g.Repr == {g} + acc && acc <= old(Footprint(selected)) && this !in acc
      ensures g.ships == selected && g.Snapshot().children == cs
      ensures g.bounds == if selected == [] then Box(0.0, 0.0, 0.0, 0.0) else Union(Boxes(cs))
    {
      ghost var fp := Footprint(selected);
      ghost var rest := RemoveAll(ships, selected);
      DetachReady(selected, loose);
      label Start:
      Owned := Owned - fp;
      ValidKept@Start(selected, fp);
      g, acc := GatherAll(selected, cs, fp);
      ForestFramed(rest, Owned);
    }

    /** What taking the attached entities ds out of the scene relies on:
        they own their footprint, the scene object is not in it, and the
        rest of the scene is a forest over the remaining objects. */
    lemma DetachReady(ds: seq<Groupable>, loose: set<object>)
      requires Valid() && Attached(ds, loose)
      ensures Forest(ds, Footprint(ds)) && this !in Footprint(ds)
      ensures Forest(RemoveAll(ships, ds), Owned - Footprint(ds))
    {
      Untouched(ds, loose);
      SelectionOwns(ds, loose);
      Detached(ships, Owned, ds, Footprint(ds));
    }

    /** The loop of CreateGroup: adds each entity of selected to a new group
        g and removes it from the scene, in turn. */
    method GatherAll(selected: seq<Groupable>, ghost cs: seq<Geom>, ghost owned: set<object>)
      returns (g: ShipGroup, ghost acc: set<object>)
      requires Forest(selected, owned) && this !in owned && |cs| == |selected|
      requires forall k | 0 <= k < |selected| :: selected[k].Snapshot() == cs[k]
      requires NoDups(ships)
      modifies this`ships
      ensures fresh(g) && g.Valid() && g.Repr == {g} + acc && acc <= owned
      ensures g.ships == selected && g.Snapshot().children == cs
      ensures g.bounds == if selected == [] then Box(0.0, 0.0, 0.0, 0.0) else Union(Boxes(cs))
      ensures ships == RemoveAll(old(ships), selected)
    {
      g := new ShipGroup();
      GatherStart(g, selected, cs, owned);
      var rest;
      acc, rest := GatherEach(g, selected, cs, owned, ships);
      ships := rest;
      GatherDone(g, selected, cs, acc, owned);
    }

    /** Takes group out of the scene (its first occurrence, if it is there)
        and puts its children on top of the scene one by one, returning them
        in order; the subscribers are not told.  A ship has no children (null
        in the editor), so once it is out of the scene the loop over its
        children fails: the result is None.  The group's object becomes
        loose; its children's objects now belong to the scene. */
    method Ungroup(group: Groupable, ghost loose: set<object>) returns (items: Option<seq<Groupable>>)
      requires Valid() && Attached([group], loose)
      modifies this`ships, this`Owned
      ensures Valid() && items == old(group.Children())
      ensures items.None? ==> ships == RemoveFirst(old(ships), group) && Owned == old(Owned - group.Repr())
      ensures items.Some? ==> ships == RemoveFirst(old(ships), group) + items.value
      ensures items.Some? ==> Owned == old((Owned + group.Repr()) - {group.Obj()})
    {
      ghost var fp := group.Repr();
      TakenOut(group, loose);
      ghost var scene := RemoveFirst(ships, group);
      ghost var owned := Owned - fp;
      if group.GroupItem? {
        group.group.ChildrenForest();
        JoinForests(scene, owned, group.group.ships, fp - {group.Obj()});
        Regained(Owned, fp, group.Obj());
        scene, owned := scene + group.group.ships, owned + (fp - {group.Obj()});
      }
      assert this !in owned;
      label Start:
      ships := RemoveFirst(ships, group);
      Owned := Owned - fp;
      match group {
        case ShipItem(_) =>
          items := None;
        case GroupItem(g) =>
          var children := g.Children();
          assert children == old(g.ships);
          var added := AppendEach(children);
          Owned := Owned + (fp - {g});
          items := Some(added);
      }
      ForestFramed@Start(scene, owned);
    }

    /** The loop of Ungroup: puts the entities of children on top of the
        scene one by one and collects them in a new list. */
    method AppendEach(children: seq<Groupable>) returns (added: seq<Groupable>)
      modifies this`ships
      ensures ships == old(ships) + children && added == children
    {
      added := [];
      var i := 0;
      while i < |children|
        invariant 0 <= i <= |children|
        invariant ships == old(ships) + children[..i] && added == children[..i]
      {
        ships := ships + [children[i]];
        added := added + [children[i]];
        i := i + 1;
      }
      assert children[..i] == children;
    }

    /** Taking an entity attached to the scene out of it leaves a consistent
        scene over the rest of the objects. */
    lemma TakenOut(group: Groupable, loose: set<object>)
      requires Valid() && Attached([group], loose)
      ensures this !in group.Repr() && group.Valid() && group.Obj() in group.Repr()
      ensures Forest(RemoveFirst(ships, group), Owned - group.Repr())
      ensures group in ships ==> group.Repr() <= Owned
      ensures group !in ships ==> group.Repr() !! Owned
    {
      assert [group][0] == group;
      group.OwnsObj();
      Without(ships, Owned, group);
    }

    /** Distinct entities each of which is in the scene or among entities
        already attached are attached too. */
    lemma Reattached(ds: seq<Groupable>, es: seq<Groupable>, loose: set<object>)
      requires Valid() && Attached(ds, loose) && NoDups(es)
      requires forall e | e in es :: e in ds || e in ships
      ensures Attached(es, loose)
    {
      forall k | 0 <= k < |es|
        ensures es[k].Obj() in Owned + loose && es[k].Repr() <= Owned + loose && es[k].Valid()
      {
        if es[k] in ds {
          var j :| 0 <= j < |ds| && ds[j] == es[k];
        } else {
          var j :| 0 <= j < |ships| && ships[j] == es[k];
        }
      }
      forall d, e | d in es && e in es && d != e ensures d.Repr() !! e.Repr() {
        if d in ds && e in ds {
        } else if d in ships && e in ships {
        } else if d in ships {
          assert e in ds && e.Repr() <= loose;
          var j :| 0 <= j < |ships| && ships[j] == d;
        } else {
          assert d in ds && d.Repr() <= loose;
          var j :| 0 <= j < |ships| && ships[j] == e;
        }
      }
    }

    /** What attached entities own lies among the scene's and the loose
        objects. */
    lemma AttachedWithin(ds: seq<Groupable>, loose: set<object>)
      requires Valid() && Attached(ds, loose)
      ensures Footprint(ds) <= Owned + loose
    {
    }

    /** Forgets what the rubber band found. */
    method ClearSelection()
      modifies this`tempCollection
      ensures tempCollection == []
    {
      tempCollection := [];
    }

    /** Puts the entities of list, which own the objects owned and nothing of
        the scene, on top of the scene. */
    method Add(list: seq<Groupable>, ghost owned: set<object>)
      requires Valid() && Forest(list, owned) && owned !! Owned && this !in owned
      modifies this`ships, this`Owned, this`notifications
      ensures Valid() && ships == old(ships) + list && Owned == old(Owned) + owned
      ensures notifications == old(notifications) + 1
    {
      ships := ships + list;
      Owned := Owned + owned;
      notifications := notifications + 1;
      JoinForests(old(ships), Owned - owned, list, owned);
    }

    /** Takes the entities of list out of the scene; the others keep their
        order.  Their objects become loose. */
    method Remove(list: seq<Groupable>, ghost loose: set<object>)
      requires Valid() && Attached(list, loose)
      modifies this`ships, this`Owned, this`notifications
      ensures Valid() && ships == RemoveAll(old(ships), list) && Owned == old(Owned) - Footprint(list)
      ensures Attached(list, loose + (old(Owned) - Owned))
      ensures notifications == old(notifications) + 1
    {
      ghost var fp := Footprint(list);
      Untouched(list, loose);
      RemoveAllKeeps(ships, list);
      ForestWithin(ships, Owned, RemoveAll(ships, list), Owned - fp);
      ships := RemoveAll(ships, list);
      Owned := Owned - fp;
      notifications := notifications + 1;
      forall d | d in list && d in old(ships) ensures d.Repr() <= old(Owned) - Owned {
        assert forall o | o in d.Repr() :: o in fp by {
          var k :| 0 <= k < |list| && list[k] == d;
        }
      }
      assert old(Owned) + loose == Owned + (loose + (old(Owned) - Owned));
    }
  }

  /** A forest none of whose objects changed is still a forest, and its
      entities keep their objects. */
  twostate lemma ForestFramed(new ds: seq<Groupable>, new owned: set<object>)
    requires old(allocated(ds)) && old(allocated(owned)) && old(Forest(ds, owned)) && unchanged(owned)
    ensures Forest(ds, owned) && forall d | d in ds :: d.Repr() == old(d.Repr())
  {
    forall k | 0 <= k < |ds| ensures ds[k].Repr() == old(ds[k].Repr()) && ds[k].Valid() {
      Framed(ds[k]);
    }
    ForestKept(ds, owned);
  }

  /** A forest whose entities kept their objects and their consistency is
      still a forest. */
  twostate lemma ForestKept(new ds: seq<Groupable>, new owned: set<object>)
    requires old(allocated(ds)) && old(allocated(owned)) && old(Forest(ds, owned))
    requires forall k | 0 <= k < |ds| :: ds[k].Repr() == old(ds[k].Repr()) && ds[k].Valid()
    ensures Forest(ds, owned)
  {
    forall d | d in ds ensures d.Repr() == old(d.Repr()) {
      var k :| 0 <= k < |ds| && ds[k] == d;
    }
  }

  /** The entities of a forest outside selected, when they own nothing of
      acc, form a forest over the forest's objects other than acc. */
  lemma Detached(ds: seq<Groupable>, owned: set<object>, selected: seq<Groupable>, acc: set<object>)
    requires Forest(ds, owned)
    requires forall d | d in ds && d !in selected :: d.Repr() !! acc
    ensures Forest(RemoveAll(ds, selected), owned - acc)
  {
    RemoveAllKeeps(ds, selected);
    ForestWithin(ds, owned, RemoveAll(ds, selected), owned - acc);
  }

  /** Giving back what an entity owned, except the entity's own object:
      whether the entity was in the scene or loose, the scene ends up with
      what it had and the entity's objects, less the entity's own object. */
  lemma Regained(owned: set<object>, fp: set<object>, obj: object)
    requires obj in fp && (fp <= owned || fp !! owned)
    ensures (owned - fp) + (fp - {obj}) == (owned + fp) - {obj}
  {
  }

  /** Taking one entity out of a forest, whether it was one of its trees or
      owned objects outside it, leaves a forest over the other objects. */
  lemma Without(ds: seq<Groupable>, owned: set<object>, d: Groupable)
    requires Forest(ds, owned)
    requires d in ds || d.Repr() !! owned
    ensures Forest(RemoveFirst(ds, d), owned - d.Repr())
  {
    var es := RemoveFirst(ds, d);
    RemoveFirstMembers(ds, d);
    assert NoDups(es);
    assert forall e | e in es :: e in ds && e != d;
    forall e | e in es ensures e.Repr() <= owned - d.Repr() {
      var k :| 0 <= k < |ds| && ds[k] == e;
      assert e.Repr() <= owned;
      if d in ds {
        assert e.Repr() !! d.Repr();
      }
    }
    ForestWithin(ds, owned, es, owned - d.Repr());
  }

  /** Distinct entities taken from a forest, owning only objects of a part of
      its objects, form a forest over that part. */
  lemma ForestWithin(ds: seq<Groupable>, owned: set<object>, es: seq<Groupable>, part: set<object>)
    requires Forest(ds, owned) && NoDups(es) && part <= owned
    requires forall e | e in es :: e in ds && e.Repr() <= part
    ensures Forest(es, part)
  {
    forall k | 0 <= k < |es| ensures es[k].Obj() in part && es[k].Valid() {
      assert es[k] in es;
      es[k].OwnsObj();
    }
  }

  /** Two forests over disjoint sets of objects form one forest together. */
  lemma JoinForests(ds: seq<Groupable>, owned: set<object>, es: seq<Groupable>, more: set<object>)
    requires Forest(ds, owned) && Forest(es, more) && owned !! more
    ensures Forest(ds + es, owned + more)
  {
    forall d, e | d in ds && e in es ensures d != e {
      d.OwnsObj();
      e.OwnsObj();
    }
    assert NoDups(ds + es) by {
      var s := ds + es;
      forall i, j | 0 <= i < j < |s| ensures s[i] != s[j] {
        if j < |ds| {
          assert s[i] == ds[i] && s[j] == ds[j];
        } else if i >= |ds| {
          assert s[i] == es[i - |ds|] && s[j] == es[j - |ds|];
        } else {
          assert s[i] in ds && s[j] in es;
        }
      }
    }
  }
}
