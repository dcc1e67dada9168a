/** The clipboard behind cut, copy and paste.  It never holds an entity of the
    scene: storing copies the given entities, and reading copies the stored
    ones again, so nothing done to the scene afterwards reaches it. */
module Clipboard {
  import opened Geometry
  import opened Composite

  class ShipClipboard {
    var clipboard: seq<Groupable>
    /** The snapshots of the stored entities, in order. */
    ghost var shapes: seq<Geom>
    /** The objects of the stored entities. */
    ghost var Repr: set<object>

    /** The stored entities are healthy copies with the snapshots shapes,
        owning disjoint sets of objects. */
    ghost predicate Valid()
      reads this, Repr
    {
      this !in Repr && CopiesOf(clipboard, shapes, Repr)
    }

    /** An empty clipboard. */
    constructor ()
      ensures Valid() && clipboard == [] && shapes == [] && Repr == {}
    {
      clipboard := [];
      shapes := [];
      Repr := {};
    }

    /** Replaces the contents by copies of the given entities, in order.  A
        copy fails when one of the entities is unhealthy; the contents are then
        left as they were. */
    method Add(selected: seq<Groupable>) returns (ok: bool)
      requires Valid()
      requires forall k | 0 <= k < |selected| :: selected[k].ReprOK() && selected[k].Valid()
      modifies this
      ensures Valid()
      ensures ok <==> forall k | 0 <= k < |selected| :: Healthy(old(selected[k].Snapshot()))
      ensures ok ==> fresh(Repr) && |clipboard| == |selected| && shapes == old(Snapshots(selected))
      ensures ok ==> forall k, j | 0 <= k < |clipboard| && 0 <= j < |selected| :: clipboard[k] != selected[j]
      ensures !ok ==> clipboard == old(clipboard) && shapes == old(shapes) && Repr == old(Repr)
    {
      ghost var cs := Snapshots(selected);
      var copies;
      ghost var owned;
      copies, owned := DuplicateAll(selected);
      ValidKept(selected, old(Footprint(selected)));
      assert Snapshots(selected) == cs;
      if copies.None? {
        return false;
      }
      clipboard, shapes, Repr := copies.value, cs, owned;
      forall k, j | 0 <= k < |clipboard| && 0 <= j < |selected| ensures clipboard[k] != selected[j] {
        assert clipboard[k].Obj() in Repr;
      }
      ok := true;
    }

    /** Fresh copies of the stored entities, in order, with their snapshots;
        the contents stay as they are. */
    method Get() returns (items: seq<Groupable>, ghost owned: set<object>)
      requires Valid()
      ensures fresh(owned) && CopiesOf(items, shapes, owned)
    {
      var copies;
      copies, owned := DuplicateAll(clipboard);
      assert Snapshots(clipboard) == shapes;
      items := copies.value;
    }
  }
}
