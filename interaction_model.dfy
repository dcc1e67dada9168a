/** The interaction model: what is selected, the rubber band of a drag
    selection, and the clipboard.  The selection is a list of references to
    entities, kept in the order they were selected. */
module Interaction {
  import opened Geometry
  import opened Composite
  import opened Lists
  import opened RubberBand
  import opened Clipboard

  class InteractionModel {
    var selectedShips: seq<Groupable>
    /** The rubber band while a drag selection is in progress, null otherwise. */
    var rubberBandRectangle: RubberBandRectangle?
    const clipboard: ShipClipboard
    /** How often the subscribers were told of a change. */
    ghost var notifications: nat

    /** The clipboard is consistent and owns neither this model nor the
        rubber band, whose extent is never negative. */
    ghost predicate Valid()
      reads this, clipboard, clipboard.Repr, rubberBandRectangle
    {
      clipboard.Valid() && this !in clipboard.Repr &&
      (rubberBandRectangle != null ==> rubberBandRectangle !in clipboard.Repr && rubberBandRectangle.Valid())
    }

    /** Every object the interaction model holds on to. */
    ghost function Objects(): set<object>
      reads this, clipboard
    {
      {this, clipboard} + clipboard.Repr + (if rubberBandRectangle == null then {} else {rubberBandRectangle})
    }

    /** Nothing selected, no rubber band and an empty clipboard. */
    constructor ()
      ensures Valid() && selectedShips == [] && rubberBandRectangle == null
      ensures fresh(clipboard) && clipboard.clipboard == [] && clipboard.Repr == {}
      ensures notifications == 0
    {
      selectedShips := [];
      rubberBandRectangle := null;
      clipboard := new ShipClipboard();
      notifications := 0;
    }

    /** Stores copies of the selection on the clipboard and hands back the
        selection itself, which stays selected.  When one of the selected
        entities cannot be copied the clipboard keeps its contents and there
        is nothing to hand back. */
    method CutToClipboard() returns (cut: Option<seq<Groupable>>)
      requires Valid()
      requires forall k | 0 <= k < |selectedShips| :: selectedShips[k].ReprOK() && selectedShips[k].Valid()
      modifies clipboard
      ensures Valid() && (cut.Some? <==> forall k | 0 <= k < |selectedShips| :: Healthy(old(selectedShips[k].Snapshot())))
      ensures cut.Some? ==> cut.value == selectedShips && fresh(clipboard.Repr)
      ensures cut.Some? ==> clipboard.shapes == old(Snapshots(selectedShips))
      ensures cut.None? ==> clipboard.shapes == old(clipboard.shapes) && clipboard.Repr == old(clipboard.Repr)
    {
      var ok := clipboard.Add(selectedShips);
      if ok {
        cut := Some(selectedShips);
      } else {
        cut := None;
      }
    }

    /** Stores copies of the selection on the clipboard; the selection is
        left alone.  ok is false, and the clipboard keeps its contents, when
        one of the selected entities cannot be copied. */
    method CopyToClipboard() returns (ok: bool)
      requires Valid()
      requires forall k | 0 <= k < |selectedShips| :: selectedShips[k].ReprOK() && selectedShips[k].Valid()
      modifies clipboard
      ensures Valid() && (ok <==> forall k | 0 <= k < |selectedShips| :: Healthy(old(selectedShips[k].Snapshot())))
      ensures ok ==> clipboard.shapes == old(Snapshots(selectedShips)) && fresh(clipboard.Repr)
      ensures !ok ==> clipboard.shapes == old(clipboard.shapes) && clipboard.Repr == old(clipboard.Repr)
    {
      ok := clipboard.Add(selectedShips);
    }

    /** Makes fresh copies of what the clipboard holds the selection, and
        hands back that very list. */
    method PasteFromClipboard() returns (paste: seq<Groupable>, ghost owned: set<object>)
      requires Valid()
      modifies this`selectedShips
      ensures Valid() && selectedShips == paste
      ensures fresh(owned) && CopiesOf(paste, clipboard.shapes, owned)
    {
      paste, owned := clipboard.Get();
      selectedShips := paste;
    }

    /** Starts a rubber band of no extent at (x, y). */
    method CreateRubberBand(x: real, y: real)
      requires Valid()
      modifies this`rubberBandRectangle, this`notifications
      ensures Valid() && rubberBandRectangle != null && fresh(rubberBandRectangle)
      ensures rubberBandRectangle.Shape() == Stretched(x, y, x, y)
      ensures notifications == old(notifications) + 1
    {
      rubberBandRectangle := new RubberBandRectangle(x, y);
      notifications := notifications + 1;
    }

    /** Stretches the rubber band between the anchor (prevX, prevY) and the
        pointer (x, y).  Without a rubber band the call fails (ok is false)
        before anyone is told. */
    method ResizeRubberBand(prevX: real, prevY: real, x: real, y: real) returns (ok: bool)
      requires Valid()
      modifies rubberBandRectangle, this`notifications
      ensures Valid() && ok == (rubberBandRectangle != null)
      ensures ok ==> rubberBandRectangle.Shape() == Stretched(prevX, prevY, x, y)
      ensures notifications == old(notifications) + (if ok then 1 else 0)
    {
      if rubberBandRectangle == null {
        return false;
      }
      rubberBandRectangle.Resize(prevX, prevY, x, y);
      notifications := notifications + 1;
      ok := true;
    }

    /** Ends the drag selection: there is no rubber band any more. */
    method ClearRubberBand()
      requires Valid()
      modifies this`rubberBandRectangle, this`notifications
      ensures Valid() && rubberBandRectangle == null
      ensures notifications == old(notifications) + 1
    {
      rubberBandRectangle := null;
      notifications := notifications + 1;
    }

    /** Nothing is selected any more. */
    method ClearSelection()
      modifies this`selectedShips, this`notifications
      ensures selectedShips == []
      ensures notifications == old(notifications) + 1
    {
      selectedShips := [];
      notifications := notifications + 1;
    }

    /** Selects s when it is not selected (it goes to the end of the
        selection) and deselects it (its first occurrence) when it is. */
    method AddSelected(s: Groupable)
      modifies this`selectedShips, this`notifications
      ensures selectedShips == Toggle(old(selectedShips), s)
      ensures notifications == old(notifications) + 1
    {
      if s in selectedShips {
        selectedShips := RemoveFirst(selectedShips, s);
      } else {
        selectedShips := selectedShips + [s];
      }
      notifications := notifications + 1;
    }

    /** Makes s the only selected entity. */
    method NewSelection(s: Groupable)
      modifies this`selectedShips, this`notifications
      ensures selectedShips == [s]
      ensures notifications == old(notifications) + 1
    {
      selectedShips := [];
      selectedShips := selectedShips + [s];
      notifications := notifications + 1;
    }

    /** Makes list the selection. */
    method NewSelectionList(list: seq<Groupable>)
      modifies this`selectedShips, this`notifications
      ensures selectedShips == list
      ensures notifications == old(notifications) + 1
    {
      selectedShips := [];
      selectedShips := list;
      notifications := notifications + 1;
    }
  }
}
