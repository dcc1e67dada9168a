/** The loop that builds a new group out of a list of entities, one
    entity at a time. */
module Gathering {
  import opened Geometry
  import opened Composite
  import opened Lists

  /** Part way through gathering selected into the group g: the first i
      entities are g's children, and the others wait, untouched. */
  ghost predicate Gathered(g: ShipGroup, selected: seq<Groupable>, cs: seq<Geom>, i: nat, acc: set<object>, owned: set<object>)
    reads g, owned
  {
    GroupSoFar(g, selected, cs, i, acc, owned) && Waiting(selected, cs, i, acc, owned)
  }

  /** g is a consistent group, outside owned, whose children are the first i
      entities of selected, with snapshots the first i of cs, and which owns
      their objects acc, all of owned; its box is their union, or all zero
      while it has none. */
  ghost predicate GroupSoFar(g: ShipGroup, selected: seq<Groupable>, cs: seq<Geom>, i: nat, acc: set<object>, owned: set<object>)
    reads g, owned
  {
    i <= |selected| == |cs| && g !in owned && acc <= owned && g.Repr == {g} + acc &&
    g.ships == selected[..i] && g.Valid() && g.Snapshot().children == cs[..i] &&
    g.bounds == (if i == 0 then Box(0.0, 0.0, 0.0, 0.0) else Union(Boxes(cs[..i])))
  }

  /** The entities of selected from i on are consistent, with snapshots those
      of cs, and own objects of owned only, none of acc; two of them own
      nothing in common. */
  ghost predicate Waiting(selected: seq<Groupable>, cs: seq<Geom>, i: nat, acc: set<object>, owned: set<object>)
    reads owned
    requires i <= |selected| == |cs|
  {
    (forall j | i <= j < |selected| ::
       selected[j].Obj() in owned && selected[j].Repr() <= owned && selected[j].Valid() &&
       selected[j].Snapshot() == cs[j] && selected[j].Repr() !! acc) &&
    (forall j, k | i <= j < k < |selected| :: selected[j].Repr() !! selected[k].Repr())
  }

  /** A forest whose entities own nothing of acc waits from 0 on. */
  lemma ForestWaiting(selected: seq<Groupable>, cs: seq<Geom>, acc: set<object>, owned: set<object>)
    requires Forest(selected, owned) && |selected| == |cs|
    requires forall k | 0 <= k < |selected| :: selected[k].Snapshot() == cs[k]
    requires forall j | 0 <= j < |selected| :: selected[j].Repr() !! acc
    ensures Waiting(selected, cs, 0, acc, owned)
  {
    forall j, k | 0 <= j < k < |selected| ensures selected[j].Repr() !! selected[k].Repr() {
      assert selected[j] in selected && selected[k] in selected;
      assert selected[j] != selected[k];
    }
  }

  /** One step of the gathering: adds selected[i] to g. */
  method GatherNext(g: ShipGroup, selected: seq<Groupable>, ghost cs: seq<Geom>, i: nat,
                    ghost acc: set<object>, ghost owned: set<object>) returns (ghost more: set<object>)
    requires i < |selected| && Gathered(g, selected, cs, i, acc, owned)
    modifies g
    ensures more == acc + selected[i].Repr() && Gathered(g, selected, cs, i + 1, more, owned)
  {
    var c := selected[i];
    g.AddChild(c);
    PrefixExtended(selected, i);
    PrefixExtended(cs, i);
    more := acc + c.Repr();
  }

  /** One step of the gathering loop: selected[i] joins g and leaves rest. */
  method GatherStep(g: ShipGroup, selected: seq<Groupable>, ghost cs: seq<Geom>, i: nat,
                    ghost acc: set<object>, ghost owned: set<object>, rest: seq<Groupable>, ghost s0: seq<Groupable>)
    returns (ghost more: set<object>, rest': seq<Groupable>)
    requires i < |selected| && Gathered(g, selected, cs, i, acc, owned)
    requires NoDups(s0) && rest == RemoveAll(s0, selected[..i])
    modifies g
    ensures more == acc + selected[i].Repr() && Gathered(g, selected, cs, i + 1, more, owned)
    ensures rest' == RemoveAll(s0, selected[..i + 1])
  {
    more := GatherNext(g, selected, cs, i, acc, owned);
    RemoveAllNext(s0, selected, i);
    rest' := RemoveFirst(rest, selected[i]);
  }

  /** The gathering loop: adds each entity of selected to g in turn and
      removes it from rest, which starts as s0. */
  method GatherEach(g: ShipGroup, selected: seq<Groupable>, ghost cs: seq<Geom>, ghost owned: set<object>, s0: seq<Groupable>)
    returns (ghost acc: set<object>, rest: seq<Groupable>)
    requires Gathered(g, selected, cs, 0, {}, owned) && NoDups(s0)
    modifies g
    ensures Gathered(g, selected, cs, |selected|, acc, owned) && rest == RemoveAll(s0, selected)
  {
    acc := {};
    RemoveAllKeeps(s0, []);
    rest := s0;
    var i := 0;
    while i < |selected|
      invariant 0 <= i <= |selected|
      invariant Gathered(g, selected, cs, i, acc, owned)
      invariant rest == RemoveAll(s0, selected[..i])
    {
      acc, rest := GatherStep(g, selected, cs, i, acc, owned, rest, s0);
      i := i + 1;
    }
    assert selected[..i] == selected;
  }

  /** A new empty group, outside a forest, starts the gathering of it. */
  lemma GatherStart(g: ShipGroup, selected: seq<Groupable>, cs: seq<Geom>, owned: set<object>)
    requires Forest(selected, owned) && |cs| == |selected|
    requires forall k | 0 <= k < |selected| :: selected[k].Snapshot() == cs[k]
    requires g.Valid() && g.Repr == {g} && g.ships == [] && g.bounds == Box(0.0, 0.0, 0.0, 0.0) && g !in owned
    ensures Gathered(g, selected, cs, 0, {}, owned)
  {
    ForestWaiting(selected, cs, {}, owned);
  }

  /** Once every entity is gathered, g is a consistent group of exactly them. */
  lemma GatherDone(g: ShipGroup, selected: seq<Groupable>, cs: seq<Geom>, acc: set<object>, owned: set<object>)
    requires Gathered(g, selected, cs, |selected|, acc, owned)
    ensures g.Valid() && g.Repr == {g} + acc && acc <= owned
    ensures g.ships == selected && g.Snapshot().children == cs
    ensures g.bounds == if selected == [] then Box(0.0, 0.0, 0.0, 0.0) else Union(Boxes(cs))
  {
    assert selected[..|selected|] == selected && cs[..|cs|] == cs;
  }
}
