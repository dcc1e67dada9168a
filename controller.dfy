/** The controller: a state machine over mouse and key events that drives the
    scene and the interaction model.  Mouse events are reduced to the pointer
    position and the state of the control and shift keys, key events to the
    control key and the key's code. */
module Control {
  import opened Geometry
  import opened Composite
  import opened Lists
  import opened RubberBand
  import opened ShipModels
  import opened Interaction

  /** READY between gestures, DRAGGING while the selection follows the
      pointer, RUBBER while a rubber band is stretched. */
  datatype State = READY | DRAGGING | RUBBER

  /** The keys the editor reacts to; every other key is Other. */
  datatype KeyCode = C | X | V | G | U | Other

  /** The pointer's successive displacements along a path of positions. */
  function Deltas(ps: seq<real>): (r: seq<real>)
    ensures |r| == if ps == [] then 0 else |ps| - 1
  {
    if |ps| < 2 then [] else [ps[1] - ps[0]] + Deltas(ps[1..])
  }

  /** The sum of a list of displacements. */
  function Total(ds: seq<real>): real {
    if ds == [] then 0.0 else ds[0] + Total(ds[1..])
  }

  /** The displacements along a path add up to its last position less its
      first. */
  lemma {:induction false} DeltasTelescope(ps: seq<real>)
    requires |ps| > 0
    ensures Total(Deltas(ps)) == ps[|ps| - 1] - ps[0]
  {
    if |ps| >= 2 {
      DeltasTelescope(ps[1..]);
    }
  }

  /** An entity moved by each of the steps (dxs[i], dys[i]) in turn. */
  function MovedBySteps(g: Geom, dxs: seq<real>, dys: seq<real>): Geom
    requires |dxs| == |dys|
    decreases |dxs|
  {
    if dxs == [] then g else MovedBySteps(Moved(g, dxs[0], dys[0]), dxs[1..], dys[1..])
  }

  /** Moving step by step is moving once by the sum of the steps. */
  lemma {:induction false} MovedByStepsTotal(g: Geom, dxs: seq<real>, dys: seq<real>)
    requires |dxs| == |dys|
    decreases |dxs|
    ensures MovedBySteps(g, dxs, dys) == Moved(g, Total(dxs), Total(dys))
  {
    if dxs == [] {
      MovedZero(g);
    } else {
      var g1 := Moved(g, dxs[0], dys[0]);
      assert MovedBySteps(g, dxs, dys) == MovedBySteps(g1, dxs[1..], dys[1..]);
      MovedByStepsTotal(g1, dxs[1..], dys[1..]);
      MovedCompose(g, dxs[0], dys[0], Total(dxs[1..]), Total(dys[1..]));
      assert Total(dxs) == dxs[0] + Total(dxs[1..]) && Total(dys) == dys[0] + Total(dys[1..]);
    }
  }

  /** A drag gesture through the pointer positions (xs[i], ys[i]), the first
      being where the button went down: moving the selection by the delta of
      each drag event moves it from the press position to the last one. */
  lemma DragTotal(g: Geom, xs: seq<real>, ys: seq<real>)
    requires |xs| == |ys| > 0
    ensures MovedBySteps(g, Deltas(xs), Deltas(ys)) == Moved(g, xs[|xs| - 1] - xs[0], ys[|ys| - 1] - ys[0])
  {
    MovedByStepsTotal(g, Deltas(xs), Deltas(ys));
    DeltasTelescope(xs);
    DeltasTelescope(ys);
  }

  class ShipController {
    const iModel: InteractionModel
    const model: ShipModel
    /** The pointer position of the last press or drag. */
    var prevX: real
    var prevY: real
    /** The anchor of the rubber band. */
    var rubX: real
    var rubY: real
    /** The displacement of the last drag. */
    var dX: real
    var dY: real
    var currentState: State
    /** The objects of selected entities that are not in the scene (after a
        cut), which no entity of the scene owns. */
    ghost var Loose: set<object>

    /** The scene and the interaction model are consistent, the rubber band
        finder has been cleared, the selection is attached to the scene, a
        rubber band exists while one is stretched, and the objects of the
        scene, of the loose selected entities and of the interaction model
        are apart. */
    ghost predicate Valid()
      reads this`currentState, this`Loose, model, model.Owned, Loose, iModel, iModel.clipboard, iModel.clipboard.Repr, iModel.rubberBandRectangle
    {
      model.Valid() && iModel.Valid() && model.tempCollection == [] &&
      model.Attached(iModel.selectedShips, Loose) &&
      (currentState == RUBBER ==> iModel.rubberBandRectangle != null) &&
      (model.Owned + Loose) !! iModel.Objects() && model !in iModel.Objects() &&
      this !in model.Owned + Loose + iModel.Objects()
    }

    /** Recording the pointer position leaves the controller consistent and
        every entity of the scene and of the selection where it was. */
    twostate lemma PointerKept()
      requires old(Valid())
      requires unchanged(this`currentState, this`Loose, model, iModel, iModel.clipboard)
      requires unchanged(old(model.Owned), old(Loose), old(iModel.clipboard.Repr))
      requires old(iModel.rubberBandRectangle) != null ==> unchanged(old(iModel.rubberBandRectangle))
      ensures Valid()
      ensures forall d | d in model.ships :: d.Snapshot() == old(d.Snapshot())
      ensures forall d | d in iModel.selectedShips :: d.Snapshot() == old(d.Snapshot())
    {
      forall d | d in model.ships ensures d.Snapshot() == old(d.Snapshot()) {
        var k :| 0 <= k < |model.ships| && model.ships[k] == d;
        Framed(d);
      }
      forall d | d in iModel.selectedShips ensures d.Snapshot() == old(d.Snapshot()) {
        var k :| 0 <= k < |iModel.selectedShips| && iModel.selectedShips[k] == d;
        Framed(d);
      }
    }

    /** A new selection of distinct entities, each selected before or in the
        scene, and a rubber band that is gone, kept or new leave the controller
        consistent when the scene and the clipboard are untouched. */
    twostate lemma Reselected()
      requires old(Valid())
      requires unchanged(model) && unchanged(old(model.Owned)) && unchanged(old(Loose)) && Loose == old(Loose)
      requires unchanged(iModel.clipboard) && unchanged(old(iModel.clipboard.Repr))
      requires NoDups(iModel.selectedShips)
      requires forall e | e in iModel.selectedShips :: e in old(iModel.selectedShips) || e in model.ships
      requires iModel.rubberBandRectangle == null || iModel.rubberBandRectangle == old(iModel.rubberBandRectangle) ||
        fresh(iModel.rubberBandRectangle)
      requires iModel.rubberBandRectangle != null ==> iModel.rubberBandRectangle.Valid()
      requires currentState == RUBBER ==> iModel.rubberBandRectangle != null
      ensures Valid()
      ensures forall d | d in model.ships :: d.Snapshot() == old(d.Snapshot())
    {
      forall d | d in model.ships ensures d.Snapshot() == old(d.Snapshot()) {
        var k :| 0 <= k < |model.ships| && model.ships[k] == d;
        Framed(d);
      }
      ForestFramed(model.ships, model.Owned);
      ForestFramed(old(iModel.selectedShips), model.Owned + Loose);
      model.Reattached(old(iModel.selectedShips), iModel.selectedShips, Loose);
    }

    /** New entities owning only new objects, put on top of the scene and
        made the selection, leave the controller consistent when nothing else
        of the scene, the loose objects and the interaction model changed. */
    twostate lemma Placed(new list: seq<Groupable>, new owned: set<object>)
      requires old(Valid()) && fresh(owned)
      requires model.Valid() && model.tempCollection == [] && model.Owned == old(model.Owned) + owned
      requires model.ships == old(model.ships) + list && iModel.selectedShips == list
      requires Loose == old(Loose) && currentState == old(currentState)
      requires unchanged(iModel.clipboard) && unchanged(old(iModel.clipboard.Repr))
      requires iModel.rubberBandRectangle == old(iModel.rubberBandRectangle)
      requires iModel.rubberBandRectangle != null ==> unchanged(iModel.rubberBandRectangle)
      ensures Valid()
    {
      NoDupsParts(old(model.ships), list);
      assert model.Attached([], Loose);
      model.Reattached([], list, Loose);
    }

    /** Moving the selected entities, which changes only objects of the scene
        and loose objects, leaves the controller consistent when the moved
        entities are still attached. */
    twostate lemma SelectionMoved()
      requires old(Valid()) && model.Valid() && model.Attached(iModel.selectedShips, Loose)
      requires unchanged(this`currentState, this`Loose, iModel, iModel.clipboard) && unchanged(old(iModel.clipboard.Repr))
      requires model.Owned == old(model.Owned) && model.tempCollection == old(model.tempCollection)
      requires iModel.rubberBandRectangle != null ==> unchanged(iModel.rubberBandRectangle)
      ensures Valid()
    {
    }

    /** Filling the clipboard with copies, which changes only the clipboard
        and objects that are new, leaves the controller consistent and every
        entity of the scene and of the selection where it was. */
    twostate lemma ClipboardFilled()
      requires old(Valid()) && iModel.Valid()
      requires unchanged(this`currentState, this`Loose, model, iModel) && unchanged(old(model.Owned), old(Loose))
      requires iModel.clipboard.Repr == old(iModel.clipboard.Repr) || fresh(iModel.clipboard.Repr)
      requires old(iModel.rubberBandRectangle) != null ==> unchanged(old(iModel.rubberBandRectangle))
      ensures Valid()
      ensures forall d | d in model.ships :: d.Snapshot() == old(d.Snapshot())
      ensures forall d | d in iModel.selectedShips :: d.Snapshot() == old(d.Snapshot())
    {
      forall d | d in model.ships ensures d.Snapshot() == old(d.Snapshot()) {
        var k :| 0 <= k < |model.ships| && model.ships[k] == d;
        Framed(d);
      }
      forall d | d in iModel.selectedShips ensures d.Snapshot() == old(d.Snapshot()) {
        var k :| 0 <= k < |iModel.selectedShips| && iModel.selectedShips[k] == d;
        Framed(d);
      }
      ForestFramed(model.ships, model.Owned);
      ForestFramed(iModel.selectedShips, model.Owned + Loose);
    }

    /** A changed scene whose objects, together with the loose ones, are old
        ones or the new objects added, leaves the controller consistent when
        the selection is attached to it and the state, the clipboard and the
        rubber band are untouched. */
    twostate lemma SceneChanged(new added: set<object>)
      requires old(Valid()) && fresh(added)
      requires model.Valid() && model.tempCollection == [] && model.Attached(iModel.selectedShips, Loose)
      requires model.Owned + Loose <= old(model.Owned + Loose) + added
      requires currentState == old(currentState) && iModel.rubberBandRectangle == old(iModel.rubberBandRectangle)
      requires unchanged(iModel.clipboard) && unchanged(old(iModel.clipboard.Repr))
      requires iModel.rubberBandRectangle != null ==> unchanged(iModel.rubberBandRectangle)
      ensures Valid()
    {
    }

    /** A scene rebuilt from old objects and the new objects added, with a
        selection of distinct entities of the scene and the loose objects
        that are still outside the scene, leaves the controller consistent
        when the state, the clipboard and the rubber band are untouched. */
    twostate lemma Regrouped(new added: set<object>)
      requires old(Valid()) && fresh(added)
      requires model.Valid() && model.tempCollection == []
      requires NoDups(iModel.selectedShips) && forall e | e in iModel.selectedShips :: e in model.ships
      requires Loose == old(Loose) - model.Owned && model.Owned <= old(model.Owned + Loose) + added
      requires currentState == old(currentState) && iModel.rubberBandRectangle == old(iModel.rubberBandRectangle)
      requires unchanged(iModel.clipboard) && unchanged(old(iModel.clipboard.Repr))
      requires iModel.rubberBandRectangle != null ==> unchanged(iModel.rubberBandRectangle)
      ensures Valid()
    {
      assert model.Attached([], Loose);
      model.Reattached([], iModel.selectedShips, Loose);
      SceneChanged(added);
    }

    /** The selected entities of a consistent controller are consistent. */
    lemma SelectionConsistent()
      requires Valid()
      ensures forall k | 0 <= k < |iModel.selectedShips| :: iModel.selectedShips[k].ReprOK() && iModel.selectedShips[k].Valid()
    {
    }

    /** A controller in READY over a consistent scene and a fresh interaction
        model (the constructor followed by the two setters). */
    constructor (model: ShipModel, iModel: InteractionModel)
      requires model.Valid() && model.tempCollection == []
      requires iModel.Valid() && iModel.selectedShips == [] && iModel.rubberBandRectangle == null
      requires model.Owned !! iModel.Objects() && model !in iModel.Objects()
      ensures Valid() && currentState == READY && this.model == model && this.iModel == iModel
    {
      this.model := model;
      this.iModel := iModel;
      currentState := READY;
      Loose := {};
    }

    /** A press: the position is recorded in every state; only in READY does
        it start a gesture.  On an entity (the topmost hit) it starts a drag,
        toggling the entity with control, keeping a selection the entity
        belongs to, and otherwise selecting only it.  On the background with
        shift it creates a ship there, selects only it and starts a drag.
        Otherwise it starts a rubber band there, clearing the selection unless
        control is held. */
    method HandlePressed(x: real, y: real, ctrl: bool, shift: bool)
      requires Valid()
      modifies this`prevX, this`prevY, this`currentState, this`rubX, this`rubY
      modifies model`ships, model`Owned, model`notifications
      modifies iModel`selectedShips, iModel`notifications, iModel`rubberBandRectangle
      ensures Valid() && prevX == x && prevY == y
      ensures old(currentState) != READY ==>
        currentState == old(currentState) && iModel.selectedShips == old(iModel.selectedShips) && model.ships == old(model.ships)
      ensures old(currentState) != READY ==>
        rubX == old(rubX) && rubY == old(rubY) && iModel.rubberBandRectangle == old(iModel.rubberBandRectangle) &&
        model.notifications == old(model.notifications) && iModel.notifications == old(iModel.notifications)
      ensures old(currentState) == READY && old(model.DetectHit(x, y)).Some? ==>
        var h := old(model.DetectHit(x, y)).value;
        currentState == DRAGGING && model.ships == old(model.ships) &&
        iModel.selectedShips ==
          if ctrl then Toggle(old(iModel.selectedShips), h)
          else if h in old(iModel.selectedShips) then old(iModel.selectedShips)
          else [h]
      ensures old(currentState) == READY && old(model.DetectHit(x, y)).None? && shift ==>
        currentState == DRAGGING && |iModel.selectedShips| == 1 &&
        model.ships == old(model.ships) + iModel.selectedShips &&
        iModel.selectedShips[0].Snapshot() == NewLeaf(x, y, model.pixels)
      ensures old(currentState) == READY && old(model.DetectHit(x, y)).None? && !shift ==>
        currentState == RUBBER && rubX == x && rubY == y && model.ships == old(model.ships) &&
        iModel.selectedShips == (if ctrl then old(iModel.selectedShips) else []) &&
        iModel.rubberBandRectangle != null && iModel.rubberBandRectangle.Shape() == Stretched(x, y, x, y)
    {
      if currentState == READY {
        PressReady(x, y, ctrl, shift);
      }
      assert this !in model.Owned + Loose + iModel.clipboard.Repr;
      label Pressed:
      prevX, prevY := x, y;
      PointerKept@Pressed();
    }

    /** A press in READY. */
    method PressReady(x: real, y: real, ctrl: bool, shift: bool)
      requires Valid() && currentState == READY
      modifies this`currentState, this`rubX, this`rubY
      modifies model`ships, model`Owned, model`notifications
      modifies iModel`selectedShips, iModel`notifications, iModel`rubberBandRectangle
      ensures Valid()
      ensures old(model.DetectHit(x, y)).Some? ==>
        var h := old(model.DetectHit(x, y)).value;
        currentState == DRAGGING && model.ships == old(model.ships) &&
        iModel.selectedShips ==
          if ctrl then Toggle(old(iModel.selectedShips), h)
          else if h in old(iModel.selectedShips) then old(iModel.selectedShips)
          else [h]
      ensures old(model.DetectHit(x, y)).None? && shift ==>
        currentState == DRAGGING && |iModel.selectedShips| == 1 &&
        model.ships == old(model.ships) + iModel.selectedShips &&
        iModel.selectedShips[0].Snapshot() == NewLeaf(x, y, model.pixels)
      ensures old(model.DetectHit(x, y)).None? && !shift ==>
        currentState == RUBBER && rubX == x && rubY == y && model.ships == old(model.ships) &&
        iModel.selectedShips == (if ctrl then old(iModel.selectedShips) else []) &&
        iModel.rubberBandRectangle != null && iModel.rubberBandRectangle.Shape() == Stretched(x, y, x, y)
    {
      var hit := model.DetectHit(x, y);
      if hit.Some? {
        PressOnEntity(hit.value, ctrl);
      } else if shift {
        PressWithShift(x, y);
      } else {
        PressOnBackground(x, y, ctrl);
      }
    }

    /** A press in READY on the scene entity h. */
    method PressOnEntity(h: Groupable, ctrl: bool)
      requires Valid() && currentState == READY && h in model.ships
      modifies this`currentState, iModel`selectedShips, iModel`notifications
      ensures Valid() && currentState == DRAGGING
      ensures iModel.selectedShips ==
        if ctrl then Toggle(old(iModel.selectedShips), h)
        else if h in old(iModel.selectedShips) then old(iModel.selectedShips)
        else [h]
    {
      ghost var before := iModel.selectedShips;
      assert NoDups(before);
      label Start:
      if ctrl {
        iModel.AddSelected(h);
        ToggleFlips(before, h);
      } else if h in iModel.selectedShips {
        assert iModel.selectedShips == before;
      } else {
        iModel.NewSelection(h);
        assert iModel.selectedShips == [h];
      }
      currentState := DRAGGING;
      Reselected@Start();
    }

    /** A press in READY with shift on the background. */
    method PressWithShift(x: real, y: real)
      requires Valid() && currentState == READY
      modifies this`currentState, model`ships, model`Owned, model`notifications
      modifies iModel`selectedShips, iModel`notifications
      ensures Valid() && currentState == DRAGGING && |iModel.selectedShips| == 1
      ensures model.ships == old(model.ships) + iModel.selectedShips
      ensures iModel.selectedShips[0].Snapshot() == NewLeaf(x, y, model.pixels)
    {
      label Start:
      var s := model.CreateShip(x, y);
      iModel.NewSelection(ShipItem(s));
      Placed@Start([ShipItem(s)], s.Repr());
      currentState := DRAGGING;
    }

    /** A press in READY without shift on the background. */
    method PressOnBackground(x: real, y: real, ctrl: bool)
      requires Valid() && currentState == READY
      modifies this`currentState, this`rubX, this`rubY
      modifies iModel`selectedShips, iModel`notifications, iModel`rubberBandRectangle
      ensures Valid() && currentState == RUBBER && rubX == x && rubY == y
      ensures iModel.selectedShips == if ctrl then old(iModel.selectedShips) else []
      ensures iModel.rubberBandRectangle != null && iModel.rubberBandRectangle.Shape() == Stretched(x, y, x, y)
    {
      label Start:
      if !ctrl {
        iModel.ClearSelection();
      }
      iModel.CreateRubberBand(x, y);
      rubX, rubY := x, y;
      currentState := RUBBER;
      Reselected@Start();
    }

    /** A drag: the displacement since the last press or drag is recorded
        along with the new position.  While DRAGGING the selection moves by
        that displacement (ok is false, and nothing moves from the failing
        entity on, when a selected entity is a group without members); while
        RUBBER the rubber band is stretched between its anchor and the
        pointer; in READY nothing else happens. */
    method HandleDragged(x: real, y: real) returns (ok: bool)
      requires Valid()
      modifies this`dX, this`dY, this`prevX, this`prevY, model`notifications, model.Owned, Loose
      modifies iModel.rubberBandRectangle, iModel`notifications
      ensures Valid() && dX == x - old(prevX) && dY == y - old(prevY) && prevX == x && prevY == y
      ensures currentState == old(currentState) && model.ships == old(model.ships) &&
        iModel.selectedShips == old(iModel.selectedShips)
      ensures currentState != DRAGGING ==> ok && forall d | d in model.ships :: d.Snapshot() == old(d.Snapshot())
      ensures currentState == DRAGGING ==>
        var sel := iModel.selectedShips;
        (ok <==> forall k | 0 <= k < |sel| :: old(Healthy(sel[k].Snapshot()))) &&
        (ok ==> forall k | 0 <= k < |sel| :: sel[k].Snapshot() == Moved(old(sel[k].Snapshot()), dX, dY)) &&
        forall k | 0 <= k < |model.ships| && model.ships[k] !in sel ::
          model.ships[k].Snapshot() == old(model.ships[k].Snapshot())
      ensures currentState == RUBBER ==>
        iModel.rubberBandRectangle != null && iModel.rubberBandRectangle.Shape() == Stretched(rubX, rubY, x, y)
    {
      var dx, dy := x - prevX, y - prevY;
      ok := true;
      if currentState == DRAGGING {
        ghost var stop;
        ok, stop := DragSelection(dx, dy);
      } else if currentState == RUBBER {
        ok := StretchBand(x, y);
      }
      assert this !in model.Owned + Loose + iModel.clipboard.Repr;
      label Tracked:
      dX, dY := dx, dy;
      prevX, prevY := x, y;
      PointerKept@Tracked();
    }

    /** A drag while DRAGGING: the selection moves by (dx, dy). */
    method DragSelection(dx: real, dy: real) returns (ok: bool, ghost stop: nat)
      requires Valid() && currentState == DRAGGING
      modifies model`notifications, model.Owned, Loose
      ensures Valid()
      ensures var sel := iModel.selectedShips;
        (ok <==> forall k | 0 <= k < |sel| :: old(Healthy(sel[k].Snapshot()))) &&
        (ok ==> forall k | 0 <= k < |sel| :: sel[k].Snapshot() == Moved(old(sel[k].Snapshot()), dx, dy))
      ensures var sel := iModel.selectedShips;
        !ok ==> (stop < |sel| && !old(Healthy(sel[stop].Snapshot())) &&
                 (forall k | 0 <= k < |sel| && k < stop ::
                    old(Healthy(sel[k].Snapshot())) && sel[k].Snapshot() == Moved(old(sel[k].Snapshot()), dx, dy)) &&
                 forall k | stop < k < |sel| :: sel[k].Snapshot() == old(sel[k].Snapshot()))
      ensures var sel := iModel.selectedShips;
        forall k | 0 <= k < |model.ships| && model.ships[k] !in sel ::
          model.ships[k].Snapshot() == old(model.ships[k].Snapshot())
    {
      model.AttachedWithin(iModel.selectedShips, Loose);
      label Start:
      ok, stop := model.Move(iModel.selectedShips, dx, dy, Loose);
      SelectionMoved@Start();
    }

    /** A drag while RUBBER: the rubber band now spans its anchor and the
        pointer (x, y). */
    method StretchBand(x: real, y: real) returns (ok: bool)
      requires Valid() && currentState == RUBBER
      modifies iModel.rubberBandRectangle, iModel`notifications
      ensures Valid() && ok
      ensures iModel.rubberBandRectangle != null && iModel.rubberBandRectangle.Shape() == Stretched(rubX, rubY, x, y)
      ensures forall d | d in model.ships :: d.Snapshot() == old(d.Snapshot())
    {
      label Start:
      ok := iModel.ResizeRubberBand(rubX, rubY, x, y);
      Reselected@Start();
    }

    /** A release ends the gesture: the controller is back in READY.  A
        rubber band goes away, and every entity of the scene lying inside it
        is toggled in the selection, in scene order. */
    method HandleReleased()
      requires Valid()
      modifies this`currentState, model`tempCollection
      modifies iModel`rubberBandRectangle, iModel`selectedShips, iModel`notifications
      ensures Valid() && currentState == READY && model.ships == old(model.ships)
      ensures old(currentState) != RUBBER ==>
        iModel.selectedShips == old(iModel.selectedShips) && iModel.rubberBandRectangle == old(iModel.rubberBandRectangle)
      ensures old(currentState) == RUBBER ==> old(iModel.rubberBandRectangle) != null && iModel.rubberBandRectangle == null
      ensures old(currentState) == RUBBER ==>
        iModel.selectedShips == ToggleAll(old(iModel.selectedShips), old(BandHits())) &&
        forall d :: d in iModel.selectedShips <==> (d in old(iModel.selectedShips) <==> d !in old(BandHits()))
    {
      if currentState == RUBBER {
        ReleaseBand();
      } else {
        currentState := READY;
      }
    }

    /** The entities of the scene lying inside the rubber band, in scene
        order. */
    ghost function BandHits(): seq<Groupable>
      requires model.Valid() && iModel.rubberBandRectangle != null
      reads model, model.Owned, iModel, iModel.rubberBandRectangle
    {
      var band := iModel.rubberBandRectangle;
      Enclosed(model.ships, band.left, band.top, band.left + band.width, band.top + band.height)
    }

    /** The rubber band finds distinct entities of the scene. */
    lemma BandHitsInScene()
      requires model.Valid() && iModel.rubberBandRectangle != null
      ensures NoDups(model.ships) && NoDups(BandHits()) && forall d | d in BandHits() :: d in model.ships
    {
      var band := iModel.rubberBandRectangle;
      EnclosedMembers(model.ships, band.left, band.top, band.left + band.width, band.top + band.height);
    }

    /** Asks the scene for the entities inside the rubber band. */
    method FindHits() returns (hits: seq<Groupable>)
      requires model.Valid() && model.tempCollection == [] && iModel.rubberBandRectangle != null
      modifies model`tempCollection
      ensures hits == model.tempCollection == old(BandHits())
    {
      var band := iModel.rubberBandRectangle;
      hits := model.DetectRubberBandHit(band);
    }

    /** A release while RUBBER. */
    method ReleaseBand()
      requires Valid() && currentState == RUBBER
      modifies this`currentState, model`tempCollection
      modifies iModel`rubberBandRectangle, iModel`selectedShips, iModel`notifications
      ensures Valid() && currentState == READY && model.ships == old(model.ships)
      ensures old(iModel.rubberBandRectangle) != null && iModel.rubberBandRectangle == null
      ensures iModel.selectedShips == ToggleAll(old(iModel.selectedShips), old(BandHits()))
      ensures forall d :: d in iModel.selectedShips <==> (d in old(iModel.selectedShips) <==> d !in old(BandHits()))
    {
      ghost var before := iModel.selectedShips;
      ghost var found := BandHits();
      BandHitsInScene();
      ToggleAllWithin(before, found, model.ships);
      label Start:
      var hits := FindHits();
      iModel.ClearRubberBand();
      model.ClearSelection();
      SelectEach(hits);
      currentState := READY;
      Reselected@Start();
    }

    /** Toggles each of hits in the selection in turn. */
    method SelectEach(hits: seq<Groupable>)
      modifies iModel`selectedShips, iModel`notifications
      ensures iModel.selectedShips == ToggleAll(old(iModel.selectedShips), hits)
      ensures iModel.notifications == old(iModel.notifications) + |hits|
    {
      for i := 0 to |hits|
        invariant iModel.selectedShips == ToggleAll(old(iModel.selectedShips), hits[..i])
        invariant iModel.notifications == old(iModel.notifications) + i
      {
        iModel.AddSelected(hits[i]);
        ToggleAllAppend(old(iModel.selectedShips), hits[..i], hits[i]);
        assert hits[..i + 1] == hits[..i] + [hits[i]];
      }
      assert hits[..|hits|] == hits;
    }

    /** A key press, acted upon only in READY.  With control, C copies the
        selection to the clipboard, X cuts it (copies go to the clipboard; the
        entities leave the scene but stay selected) and V pastes fresh copies
        of what the clipboard holds on top of the scene and selects them.
        Without control, G gathers the selection into a new group that takes
        its place on top of the scene and becomes the selection, and U, when
        the selection is a single group, puts its children on top of the
        scene in its place and selects them.  ok is false only when a copy or
        a cut fails because a selected entity cannot be copied; the clipboard
        and the scene then keep their contents. */
    method HandleKeyPressed(ctrl: bool, key: KeyCode) returns (ok: bool)
      requires Valid()
      modifies this`Loose, model`ships, model`Owned, model`notifications
      modifies iModel`selectedShips, iModel`notifications, iModel.clipboard
      ensures Valid() && currentState == old(currentState)
      ensures old(currentState) != READY || (ctrl && key !in {C, X, V}) || (!ctrl && key !in {G, U}) ==>
        ok && model.ships == old(model.ships) && iModel.selectedShips == old(iModel.selectedShips) &&
        iModel.clipboard.shapes == old(iModel.clipboard.shapes)
      ensures !(old(currentState) == READY && ctrl && key in {C, X}) ==>
        iModel.clipboard.shapes == old(iModel.clipboard.shapes)
      ensures old(currentState) == READY && ctrl && key in {C, X} ==>
        iModel.selectedShips == old(iModel.selectedShips) &&
        (ok <==> forall k | 0 <= k < |iModel.selectedShips| :: Healthy(old(iModel.selectedShips[k].Snapshot()))) &&
        iModel.clipboard.shapes == (if ok then old(Snapshots(iModel.selectedShips)) else old(iModel.clipboard.shapes))
      ensures old(currentState) == READY && ctrl && key == C ==> model.ships == old(model.ships)
      ensures old(currentState) == READY && ctrl && key == X ==>
        model.ships == if ok then RemoveAll(old(model.ships), iModel.selectedShips) else old(model.ships)
      ensures old(currentState) == READY && ctrl && key == V ==>
        ok && model.ships == old(model.ships) + iModel.selectedShips &&
        |iModel.selectedShips| == |iModel.clipboard.shapes| &&
        forall k | 0 <= k < |iModel.selectedShips| ::
          iModel.selectedShips[k].Snapshot() == iModel.clipboard.shapes[k] && fresh(iModel.selectedShips[k].Obj())
      ensures old(currentState) == READY && !ctrl && key == G ==>
        ok && |iModel.selectedShips| == 1 && iModel.selectedShips[0].GroupItem? && fresh(iModel.selectedShips[0].Obj()) &&
        model.ships == RemoveAll(old(model.ships), old(iModel.selectedShips)) + iModel.selectedShips &&
        iModel.selectedShips[0].Children() == Some(old(iModel.selectedShips)) &&
        iModel.selectedShips[0].Snapshot().children == old(Snapshots(iModel.selectedShips))
      ensures old(currentState) == READY && !ctrl && key == U ==>
        ok &&
        (if |old(iModel.selectedShips)| == 1 && old(iModel.selectedShips[0]).GroupItem? then
           iModel.selectedShips == old(iModel.selectedShips[0].Children()).value &&
           model.ships == RemoveFirst(old(model.ships), old(iModel.selectedShips[0])) + iModel.selectedShips
         else
           model.ships == old(model.ships) && iModel.selectedShips == old(iModel.selectedShips))
    {
      ok := true;
      if currentState == READY {
        if ctrl {
          if key == C {
            ok := CopyKey();
          } else if key == X {
            ok := CutKey();
          } else if key == V {
            PasteKey();
          }
        } else {
          if key == G {
            GroupKey();
          } else if key == U {
            UngroupKey();
          }
        }
      }
    }

    /** Control-C: copies of the selected entities go to the clipboard, and
        nothing else changes. */
    method CopyKey() returns (ok: bool)
      requires Valid()
      modifies iModel.clipboard
      ensures Valid()
      ensures ok <==> forall k | 0 <= k < |iModel.selectedShips| :: Healthy(old(iModel.selectedShips[k].Snapshot()))
      ensures iModel.clipboard.shapes == if ok then old(Snapshots(iModel.selectedShips)) else old(iModel.clipboard.shapes)
    {
      SelectionConsistent();
      label Start:
      ok := iModel.CopyToClipboard();
      ClipboardFilled@Start();
    }

    /** Control-X: copies of the selected entities go to the clipboard and
        the entities leave the scene; they stay selected, their objects now
        loose. */
    method CutKey() returns (ok: bool)
      requires Valid()
      modifies this`Loose, model`ships, model`Owned, model`notifications, iModel.clipboard
      ensures Valid() && iModel.selectedShips == old(iModel.selectedShips)
      ensures ok <==> forall k | 0 <= k < |iModel.selectedShips| :: Healthy(old(iModel.selectedShips[k].Snapshot()))
      ensures iModel.clipboard.shapes == if ok then old(Snapshots(iModel.selectedShips)) else old(iModel.clipboard.shapes)
      ensures model.ships == if ok then RemoveAll(old(model.ships), iModel.selectedShips) else old(model.ships)
    {
      SelectionConsistent();
      label Start:
      var cut := iModel.CutToClipboard();
      ClipboardFilled@Start();
      ok := cut.Some?;
      if ok {
        RemoveSelection();
      }
    }

    /** The second half of a cut: the selected entities leave the scene and
        their objects become loose. */
    method RemoveSelection()
      requires Valid()
      modifies this`Loose, model`ships, model`Owned, model`notifications
      ensures Valid() && model.ships == RemoveAll(old(model.ships), iModel.selectedShips)
    {
      ghost var owned := model.Owned;
      model.Remove(iModel.selectedShips, Loose);
      Loose := Loose + (owned - model.Owned);
      SceneChanged({});
    }

    /** Control-V: fresh copies of what the clipboard holds go on top of the
        scene and become the selection. */
    method PasteKey()
      requires Valid()
      modifies model`ships, model`Owned, model`notifications, iModel`selectedShips
      ensures Valid() && model.ships == old(model.ships) + iModel.selectedShips
      ensures iModel.clipboard.shapes == old(iModel.clipboard.shapes)
      ensures |iModel.selectedShips| == |iModel.clipboard.shapes|
      ensures forall k | 0 <= k < |iModel.selectedShips| ::
        iModel.selectedShips[k].Snapshot() == iModel.clipboard.shapes[k] && fresh(iModel.selectedShips[k].Obj())
    {
      label Start:
      var paste, owned := iModel.PasteFromClipboard();
      model.Add(paste, owned);
      assert CopiesOf(paste, iModel.clipboard.shapes, owned);
      Placed@Start(paste, owned);
    }

    /** G: the selected entities are gathered into a new group on top of the
        scene, which becomes the only selected entity. */
    method GroupKey()
      requires Valid()
      modifies this`Loose, model`ships, model`Owned, model`notifications, iModel`selectedShips, iModel`notifications
      ensures Valid() && |iModel.selectedShips| == 1 && iModel.selectedShips[0].GroupItem? && fresh(iModel.selectedShips[0].Obj())
      ensures model.ships == RemoveAll(old(model.ships), old(iModel.selectedShips)) + iModel.selectedShips
      ensures iModel.selectedShips[0].Children() == Some(old(iModel.selectedShips))
      ensures iModel.selectedShips[0].Snapshot().children == old(Snapshots(iModel.selectedShips))
    {
      var group := GatherSelection();
      label Made:
      Loose := Loose - model.Owned;
      Regrouped({group.Obj()});
      Framed@Made(group);
    }

    /** The work of G: the scene loses the selected entities and gains the
        new group of them, which becomes the selection. */
    method GatherSelection() returns (group: Groupable)
      requires Valid()
      modifies model`ships, model`Owned, model`notifications, iModel`selectedShips, iModel`notifications
      ensures model.Valid() && model.tempCollection == [] && iModel.selectedShips == [group]
      ensures group.GroupItem? && fresh(group.Obj()) && group.ReprOK()
      ensures model.ships == RemoveAll(old(model.ships), old(iModel.selectedShips)) + [group]
      ensures model.Owned <= old(model.Owned + Loose) + {group.Obj()} && group.Repr() <= model.Owned
      ensures group.Children() == Some(old(iModel.selectedShips))
      ensures group.Snapshot().children == old(Snapshots(iModel.selectedShips))
    {
      model.AttachedWithin(iModel.selectedShips, Loose);
      group := model.CreateGroup(iModel.selectedShips, Loose);
      iModel.NewSelection(group);
    }

    /** U: when the selection is a single group, the group leaves the scene,
        its children go on top of the scene in order and become the
        selection; otherwise nothing happens. */
    method UngroupKey()
      requires Valid()
      modifies this`Loose, model`ships, model`Owned, iModel`selectedShips, iModel`notifications
      ensures Valid()
      ensures if |old(iModel.selectedShips)| == 1 && old(iModel.selectedShips[0]).GroupItem? then
          iModel.selectedShips == old(iModel.selectedShips[0].Children()).value &&
          model.ships == RemoveFirst(old(model.ships), old(iModel.selectedShips[0])) + iModel.selectedShips
        else
          model.ships == old(model.ships) && iModel.selectedShips == old(iModel.selectedShips)
    {
      var selected := iModel.selectedShips;
      if |selected| == 1 && selected[0].HasChildren() {
        UngroupSelected();
      }
    }

    /** The work of U on a selection that is one group: the scene loses the
        group and gains its children, which become the selection. */
    method UngroupSelected()
      requires Valid() && |iModel.selectedShips| == 1 && iModel.selectedShips[0].GroupItem?
      modifies this`Loose, model`ships, model`Owned, iModel`selectedShips, iModel`notifications
      ensures Valid() && iModel.selectedShips == old(iModel.selectedShips[0].Children()).value
      ensures model.ships == RemoveFirst(old(model.ships), old(iModel.selectedShips[0])) + iModel.selectedShips
    {
      var group := iModel.selectedShips[0];
      assert iModel.selectedShips == [group];
      assert group.Repr() <= model.Owned + Loose;
      var items := model.Ungroup(group, Loose);
      NoDupsParts(RemoveFirst(old(model.ships), group), items.value);
      iModel.NewSelectionList(items.value);
      Loose := Loose - model.Owned;
      Regrouped({});
    }
  }
}
