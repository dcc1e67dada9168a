# Ships editor: selection and grouping engine

This project is a Dafny model of the core of a small JavaFX editor for
"ships". A ship is a five-point polygon that the user places, drags,
rubber-band selects, groups, ungroups, cuts, copies and pastes. The drawing
itself is not modelled. The model follows the Java classes one by one:

- `Geometry`: the ship outline template (`{0,20,0,-20,0}` / `{24,-20,-12,-20,24}`), min/max
  of coordinate lists and boxes. It also defines `Geom`, a value snapshot of a
  ship or of a whole group tree, with `Moved`, `Inside` (every vertex inside a
  rectangle) and `Hit` (the point test). Every geometric property is proved here
  on values: moves compose, a zero move changes nothing, bounds stay consistent,
  containment is monotone, and the hit window is offset from the display box.
- `Ships`: class `Ship`. The display coordinates live in two `array<real>`
  that are updated in place. `translateX`/`translateY` and the cached
  `left`/`top`/`right`/`bottom` fields are kept as in Java.
- `Composite`: the `Groupable` contract, a tagged variant `ShipItem(Ship) |
  GroupItem(ShipGroup)` over references, whose equality is reference
  identity. It also holds class `ShipGroup`, whose ordered child list is a
  `seq` field. Ownership is tracked with dynamic frames (`Repr`). Deep copies
  are proved to allocate only fresh objects.
- `Gathering`: the loop of `createGroup` that adds each selected entity to
  the new group and removes it from the scene.
- `RubberBand`: class `RubberBandRectangle` and its corner normalisation.
- `Clipboard`: class `ShipClipboard`, which stores duplicates and hands back
  duplicates again.
- `ShipModels`: class `ShipModel`, holding the ordered top-level list `ships`
  and `tempCollection`.
- `Interaction`: class `InteractionModel`, holding the selection, the
  rubber band and the clipboard.
- `Lists`: the list operations used by the classes above: `remove(Object)`
  (first occurrence), `removeAll`, and the selection toggle.
- `Control`: class `ShipController`, the READY / DRAGGING / RUBBER state
  machine. Mouse events become the pointer position plus `ctrl`/`shift`
  flags. Key events become `ctrl` plus a key code in {C, X, V, G, U, Other}.

Doubles are modelled as `real`. A ship's rendered bitmap is a parameter
`(int, int) -> bool` over local pixel coordinates. The scene supplies it to
every ship it creates. Observer notification is modelled as a ghost counter
`notifications` on the scene and on the interaction model, so the contracts
can say when subscribers are told and when they are not.

Java exceptions are modelled as failure results rather than excluded by
preconditions. Three failures of the source are modelled this way (a
fourth possible one, a pixel read at the edge of a ship's bitmap, is listed
under "Left out"):

- `ShipGroup.recalculateBounds` takes `getAsDouble()` of an empty stream.
  An empty group exists after `G` on an empty selection. Moving or
  duplicating it, or any group that contains it, fails. `Healthy` means
  "no empty group in the tree". `Move` returns `ok == Healthy(before)`, and
  `Duplicate` returns `None` exactly when the entity is unhealthy.
- `resizeRubberBand` fails when there is no rubber band.
- `ungroup` fails on a ship, whose `getChildren()` is null.

Behaviours of the code that a reader might not expect, which the model
reproduces:

- A cut (ctrl+X) removes the selection from the scene but does not clear
  the selection. The cut entities stay selected while out of the scene
  (`ShipController.Loose`).
- A rubber-band release toggles each enclosed entity into the selection.
  It does not replace the selection.
- `G` on an empty selection appends an empty group with the all-zero box.
- `createGroup` appends the group at the top of the scene, not in its
  members' place.
- `ungroup` does not notify subscribers.
- `detectRubberBandHit` appends to `tempCollection` and returns that list.
- A ship's hit window is `[tx-20, tx+20] x [ty-22, ty+22]`. It uses half of
  `shipHeight` (22), not the outline's top offset (20). So the ship's bottom
  tip, at `ty+24`, lies inside its display box and can never be hit
  (`Geometry.TipNeverHit`).

## Model

The proofs by induction that the rest of the model builds on are
`Geometry.MinIsLeast`, `Geometry.MaxIsGreatest`, `Geometry.UnionEdges`,
`Geometry.MovedWellFormed`, `Geometry.MovedCompose`, `Geometry.InsideIffWithin`,
`Lists.ToggleAllMembers`, `Lists.RemoveAllStep`, `ShipModels.EnclosedMembers`,
`Control.DeltasTelescope` and `Control.MovedByStepsTotal`.

| member | source | states |
|---|---|---|
| `Geometry.OutlineExtent` | src/main/java/com/example/ships_application/Ship.java:22-48 | The template's x extremes are -20 and 20 and its y extremes -20 and 24, so shipWidth = 40 and shipHeight = 44 are max minus min. |
| `Geometry.MinIsLeast` | src/main/java/com/example/ships_application/Ship.java:253-255 | The stream minimum is below every element and is one of them. |
| `Geometry.MaxIsGreatest` | src/main/java/com/example/ships_application/Ship.java:254-256 | The stream maximum is above every element and is one of them. |
| `Geometry.BoundsEnclose` | src/main/java/com/example/ships_application/Ship.java:252-257 | The recalculated box holds every display vertex, and each edge touches a vertex. |
| `Geometry.OutlineBounds` | src/main/java/com/example/ships_application/Ship.java:63-67 | The bounds of the template translated to (x, y) are [x-20, x+20] x [y-20, y+24]. |
| `Geometry.LeafBox` | src/main/java/com/example/ships_application/Ship.java:252-257 | A consistent ship has 5 vertices and left <= each x <= right, top <= each y <= bottom. |
| `Geometry.MinShift` | src/main/java/com/example/ships_application/Ship.java:76-84 | Shifting every coordinate by d shifts the minimum by d. |
| `Geometry.MaxShift` | src/main/java/com/example/ships_application/Ship.java:76-84 | Shifting every coordinate by d shifts the maximum by d. |
| `Geometry.ShiftShift` | src/main/java/com/example/ships_application/Ship.java:77-80 | Adding a to every coordinate and then b is adding a + b. |
| `Geometry.MovedWellFormed` | src/main/java/com/example/ships_application/Ship.java:76-84 | After any move, display coordinates are still the template plus the translation, and every ship box and group box is still the min/max of what it bounds. |
| `Geometry.MovedCompose` | src/main/java/com/example/ships_application/ShipGroup.java:90-93 | Moving a ship or group tree by a and then by b gives the same coordinates, translations and boxes as moving it by a + b. |
| `Geometry.MovedZero` | src/main/java/com/example/ships_application/Ship.java:76-84 | Moving by (0, 0) changes nothing, recursively. |
| `Geometry.MovedParts` | src/main/java/com/example/ships_application/ShipGroup.java:90-93 | A moved group keeps its child count and order, each child is that child moved, and the box shifts by (dx, dy). |
| `Geometry.MovedHealthy` | src/main/java/com/example/ships_application/ShipGroup.java:90-93 | Moving keeps the tree's shape, so whether the bounds recalculation can fail is unchanged. |
| `Geometry.UnionEdges` | src/main/java/com/example/ships_application/ShipGroup.java:168-173 | The union of the children's boxes has the least left and top and the greatest right and bottom. |
| `Geometry.UnionMoved` | src/main/java/com/example/ships_application/ShipGroup.java:90-93 | After every child moves by (dx, dy), the recalculated group box is the old box shifted by (dx, dy). |
| `Geometry.UnionWithin` | src/main/java/com/example/ships_application/ShipGroup.java:168-173 | The union box lies in a rectangle iff every child box does. |
| `Geometry.LeafInsideIffWithin` | src/main/java/com/example/ships_application/Ship.java:186-188 | A ship's vertices are all inside a rectangle iff its cached box is. |
| `Geometry.InsideIffWithin` | src/main/java/com/example/ships_application/ShipGroup.java:145-147 | For a consistent tree without empty groups, "every leaf vertex inside" is the same as "cached box inside". |
| `Geometry.InsideMonotone` | src/main/java/com/example/ships_application/Ship.java:186-188 | Enlarging the rectangle never turns a contained entity into an uncontained one. |
| `Geometry.InsideMoved` | src/main/java/com/example/ships_application/ShipGroup.java:145-147 | A moved entity is inside the moved rectangle iff it was inside the original one. |
| `Geometry.HitMoved` | src/main/java/com/example/ships_application/Ship.java:114-123 | A moved entity is hit at the moved point iff it was hit at the original point, because the bitmap travels with the ship. |
| `Geometry.HitWindow` | src/main/java/com/example/ships_application/Ship.java:114-122 | Whatever the bitmap says, a hit lies in [tx-20, tx+20] x [ty-22, ty+22]. |
| `Geometry.TipNeverHit` | src/main/java/com/example/ships_application/Ship.java:115-120 | The ship's bottom vertex (tx, ty+24) is on its display box but is never hit. |
| `Ships.Ship.constructor` | src/main/java/com/example/ships_application/Ship.java:37-68 | A new ship has displayXs[i] = xs[i] + x and displayYs[i] = ys[i] + y, translation (x, y) and box [x-20, x+20] x [y-20, y+24]. |
| `Ships.Ship.RecalculateBounds` | src/main/java/com/example/ships_application/Ship.java:252-257 | The cached box becomes the min/max of the display arrays. |
| `Ships.Ship.ShiftBoth` | src/main/java/com/example/ships_application/Ship.java:77-80 | The loop adds dx to every x entry and dy to every y entry, in place, and keeps the length. |
| `Ships.Ship.Move` | src/main/java/com/example/ships_application/Ship.java:76-84 | Moving shifts the display arrays and the translation and recalculates the box. It keeps the ship consistent and touches only its own objects. |
| `Ships.Ship.Contains` | src/main/java/com/example/ships_application/Ship.java:114-123 | The box pre-check in local pixel coordinates, then the bitmap. A hit implies the point lies in [tx-20, tx+20] x [ty-22, ty+22]. |
| `Ships.Ship.IsContained` | src/main/java/com/example/ships_application/Ship.java:186-188 | True iff no display vertex lies outside [x1, x2] x [y1, y2]. |
| `Ships.Ship.IsContainedIffWithin` | src/main/java/com/example/ships_application/Ship.java:186-188 | For a consistent ship, containment of every vertex is containment of the cached box. |
| `Ships.Ship.Duplicate` | src/main/java/com/example/ships_application/Ship.java:241-247 | The copy has equal translation, display coordinates and box. It lives in fresh arrays, so moving either ship leaves the other unchanged. |
| `Ships.Ship.Clone` | src/main/java/com/example/ships_application/Ship.java:243-244 | The cloned array is fresh and has the same elements. |
| `Composite.Groupable.HasChildren` | src/main/java/com/example/ships_application/Ship.java:92-94 | A ship reports no children and a group always reports children, even when it has none. |
| `Composite.Groupable.Children` | src/main/java/com/example/ships_application/ShipGroup.java:56-59 | A ship has no child list (null). A group's child list is its own list, in insertion order. |
| `Composite.Groupable.BoundingBox` | src/main/java/com/example/ships_application/Groupable.java:40-66 | The getters return the cached box of the snapshot. |
| `Composite.Groupable.Move` | src/main/java/com/example/ships_application/Groupable.java:32-38 | Dispatches the move. It succeeds iff the entity has no empty group, and then the snapshot is the moved one. On failure the entity is a group left as `Geometry.Stopped` describes: `stop` is the first unhealthy child, the children before it were healthy and moved, those after it are untouched, and the group's box was not recalculated. |
| `Composite.Groupable.Duplicate` | src/main/java/com/example/ships_application/Groupable.java:79-84 | A deep copy into fresh objects with an equal snapshot. It is None iff an empty group occurs in the entity. |
| `Composite.Groupable.Contains` | src/main/java/com/example/ships_application/Groupable.java:23-30 | Dispatches the point test to the ship or group. |
| `Composite.Groupable.IsContained` | src/main/java/com/example/ships_application/Groupable.java:68-77 | Dispatches the containment test. |
| `Composite.DuplicateAll` | src/main/java/com/example/ships_application/ShipGroup.java:159 | Maps duplicate over a list. The copies are in order, have the originals' snapshots and own disjoint fresh objects. It fails iff some element cannot be copied. |
| `Composite.ShipGroup.constructor` | src/main/java/com/example/ships_application/ShipGroup.java:19-21 | A new group has no children and the unset, all-zero box. |
| `Composite.ShipGroup.RecalculateBounds` | src/main/java/com/example/ships_application/ShipGroup.java:168-173 | With children, the box becomes the union of the children's boxes. Without children it fails and leaves the box as it was. |
| `Composite.ShipGroup.Append` | src/main/java/com/example/ships_application/ShipGroup.java:67 | Appends the child at the end and keeps earlier children in place. The group then owns the child's objects. |
| `Composite.ShipGroup.AddChild` | src/main/java/com/example/ships_application/ShipGroup.java:66-69 | Appends the child, then the box becomes the union of all children's boxes. |
| `Composite.ShipGroup.MoveEach` | src/main/java/com/example/ships_application/ShipGroup.java:91 | Moves each child in order. On success every child is exactly shifted. On failure `stop` is the first unhealthy child: it is unhealthy, the children before it were healthy and are shifted, and those after it are untouched. |
| `Composite.ShipGroup.Move` | src/main/java/com/example/ships_application/ShipGroup.java:90-93 | Moves every child recursively by (dx, dy), then recalculates the box. It succeeds iff there is no empty group in the tree, and then the group's snapshot is the moved one. On failure the group is `Stopped` at its first unhealthy child `stop` (or, with no children, at the recalculation), with its old box. |
| `Composite.ShipGroup.Duplicate` | src/main/java/com/example/ships_application/ShipGroup.java:155-163 | A new group whose children are fresh copies in the same count and order, sharing no object with the original, with an equal box. It is None iff the group has an empty group inside. |
| `Composite.ShipGroup.DuplicateChildren` | src/main/java/com/example/ships_application/ShipGroup.java:159 | The stream of child duplicates fails iff some child is unhealthy. Otherwise the copies have the children's snapshots, in order, and own disjoint sets of new objects. |
| `Composite.ShipGroup.Assemble` | src/main/java/com/example/ships_application/ShipGroup.java:156-161 | A new group set to the copies, with its box recalculated. It fails iff there are no copies. Otherwise its snapshot is the copies' snapshots with their union as box. |
| `Composite.ShipGroup.Contains` | src/main/java/com/example/ships_application/ShipGroup.java:79-81 | True iff some child contains the point. |
| `Composite.ShipGroup.IsContained` | src/main/java/com/example/ships_application/ShipGroup.java:145-147 | True iff every child is contained (vacuously true for an empty group). |
| `RubberBand.Stretched` | src/main/java/com/example/ships_application/RubberBandRectangle.java:34-39 | width and height are >= 0, left = min(ax, x), left + width = max(ax, x), and likewise for top and height. |
| `RubberBand.StretchedSymmetric` | src/main/java/com/example/ships_application/RubberBandRectangle.java:34-39 | Swapping the anchor and the current point gives the same rectangle. |
| `RubberBand.StretchedContains` | src/main/java/com/example/ships_application/RubberBandRectangle.java:34-39 | A point is in the rectangle iff each of its coordinates lies between the two corners' coordinates. |
| `RubberBand.RubberBandRectangle.constructor` | src/main/java/com/example/ships_application/RubberBandRectangle.java:19-24 | left = x, top = y, width = height = 0. |
| `RubberBand.RubberBandRectangle.Resize` | src/main/java/com/example/ships_application/RubberBandRectangle.java:34-39 | The new rectangle depends only on the two corners, not on its previous size. |
| `Clipboard.ShipClipboard.constructor` | src/main/java/com/example/ships_application/ShipClipboard.java:16-18 | The clipboard starts empty. |
| `Clipboard.ShipClipboard.Add` | src/main/java/com/example/ships_application/ShipClipboard.java:25-28 | Replaces the contents with fresh duplicates of the list, in the same length and order, none of them one of the given objects. If a copy fails (empty group) the contents are kept. |
| `Clipboard.ShipClipboard.Get` | src/main/java/com/example/ships_application/ShipClipboard.java:35-38 | Returns fresh duplicates of the stored entities in order with equal snapshots, and leaves the stored contents unchanged. |
| `Lists.RemoveFirst` | src/main/java/com/example/ships_application/ShipModel.java:138 | Removing an absent element changes nothing. Removing a present element shortens the list by one. |
| `Lists.RemoveFirstCounts` | src/main/java/com/example/ships_application/InteractionModel.java:112 | Removing by value takes exactly one occurrence away and nothing else. |
| `Lists.RemoveFirstSplits` | src/main/java/com/example/ships_application/ShipModel.java:138 | What is removed is exactly the first occurrence, and the rest keeps its order. |
| `Lists.RemoveFirstMembers` | src/main/java/com/example/ships_application/ShipModel.java:123 | In a list without repeats, removing x removes x and nothing else. |
| `Lists.ToggleFlips` | src/main/java/com/example/ships_application/InteractionModel.java:109-117 | Toggling flips exactly x's membership and keeps the list free of repeats. |
| `Lists.ToggleTwice` | src/main/java/com/example/ships_application/InteractionModel.java:109-117 | Toggling the same entity twice restores membership, and restores the very list when the entity was absent. |
| `Lists.ToggleAllMembers` | src/main/java/com/example/ships_application/ShipController.java:154 | Toggling distinct hits into the selection leaves exactly the entities in one list but not both. |
| `Lists.RemoveAll` | src/main/java/com/example/ships_application/ShipModel.java:161-164 | Keeps exactly the elements not in the removal list and never lengthens the list. |
| `Lists.RemoveAllKeeps` | src/main/java/com/example/ships_application/ShipModel.java:161-164 | Removing never introduces repeats, and removing absent elements changes nothing. |
| `Lists.RemoveAllStep` | src/main/java/com/example/ships_application/ShipModel.java:121-124 | Removing one more element from the scene is removing it along with the earlier ones, so createGroup's per-element remove is a removeAll. |
| `Lists.GroupThenUngroup` | src/main/java/com/example/ships_application/ShipModel.java:119-144 | Grouping a selection and then ungrouping the new group leaves the scene without the selection, followed by the selection: the same elements as before. |
| `ShipModels.LastHitNone` | src/main/java/com/example/ships_application/ShipModel.java:56-58 | The filter/reduce finds nothing iff no entity is hit. |
| `ShipModels.LastHitIsTopmost` | src/main/java/com/example/ships_application/ShipModel.java:56-58 | What is found is hit, and no later entity of the list is hit. |
| `ShipModels.EnclosedMembers` | src/main/java/com/example/ships_application/ShipModel.java:102 | The rubber-band filter keeps exactly the contained entities of the list, and adds no repeats. |
| `ShipModels.MoveAll` | src/main/java/com/example/ships_application/ShipModel.java:68 | Moves each listed entity once, in order. It succeeds iff every entity is healthy. On failure `stop` is the first unhealthy entity: it is unhealthy, those before it were healthy and moved, and those after it are untouched. |
| `ShipModels.ShipModel.constructor` | src/main/java/com/example/ships_application/ShipModel.java:20-24 | An empty scene and an empty tempCollection. |
| `ShipModels.ShipModel.CreateShip` | src/main/java/com/example/ships_application/ShipModel.java:33-38 | Appends exactly one new ship at (x, y) to the end, leaves earlier entities in place and notifies once. |
| `ShipModels.ShipModel.DetectHit` | src/main/java/com/example/ships_application/ShipModel.java:56-58 | Returns the last entity that contains the point, or None when no entity does. |
| `ShipModels.ShipModel.DetectRubberBandHit` | src/main/java/com/example/ships_application/ShipModel.java:94-104 | Appends, in scene order, exactly the entities contained in [left, left+width] x [top, top+height] to tempCollection, and returns that list. |
| `ShipModels.ShipModel.ClearSelection` | src/main/java/com/example/ships_application/ShipModel.java:109-111 | tempCollection becomes empty. |
| `ShipModels.ShipModel.Move` | src/main/java/com/example/ships_application/ShipModel.java:67-70 | Moves each listed entity by (dx, dy). Entities of the scene outside the list are unchanged. It notifies once unless a move failed. A failed move stops at the first unhealthy entity `stop`: the entities before it were healthy and moved, and those after it are untouched. |
| `ShipModels.ShipModel.CreateGroup` | src/main/java/com/example/ships_application/ShipModel.java:119-128 | Returns a fresh group whose children are the given list in order, with the union box (all zero for an empty list). The scene loses the listed entities and gains the group at the end. |
| `ShipModels.ShipModel.Ungroup` | src/main/java/com/example/ships_application/ShipModel.java:136-144 | Removes the first occurrence of the group, appends its children in order and returns them, without notifying. On a ship it fails (null children). |
| `ShipModels.ShipModel.AppendEach` | src/main/java/com/example/ships_application/ShipModel.java:139-142 | The loop appends each child to the scene and to the returned list. |
| `ShipModels.ShipModel.Add` | src/main/java/com/example/ships_application/ShipModel.java:151-154 | Appends the list in order and notifies once. |
| `ShipModels.ShipModel.Remove` | src/main/java/com/example/ships_application/ShipModel.java:161-164 | Deletes every listed entity by reference, keeps the order of the rest and notifies once. |
| `Interaction.InteractionModel.constructor` | src/main/java/com/example/ships_application/InteractionModel.java:21-25 | Empty selection, no rubber band, empty clipboard. |
| `Interaction.InteractionModel.CutToClipboard` | src/main/java/com/example/ships_application/InteractionModel.java:32-35 | Stores duplicates of the selection and returns the selection itself, uncleared. |
| `Interaction.InteractionModel.CopyToClipboard` | src/main/java/com/example/ships_application/InteractionModel.java:40-42 | Stores duplicates of the selection and leaves the selection unchanged. |
| `Interaction.InteractionModel.PasteFromClipboard` | src/main/java/com/example/ships_application/InteractionModel.java:49-53 | The selection becomes fresh clipboard duplicates, and that same list is returned. |
| `Interaction.InteractionModel.CreateRubberBand` | src/main/java/com/example/ships_application/InteractionModel.java:61-64 | Installs a fresh zero-size rectangle at (x, y). |
| `Interaction.InteractionModel.ResizeRubberBand` | src/main/java/com/example/ships_application/InteractionModel.java:83-86 | Delegates to resize. It fails without a rubber band. |
| `Interaction.InteractionModel.ClearRubberBand` | src/main/java/com/example/ships_application/InteractionModel.java:91-94 | Removes the rectangle. |
| `Interaction.InteractionModel.ClearSelection` | src/main/java/com/example/ships_application/InteractionModel.java:99-102 | The selection becomes empty. |
| `Interaction.InteractionModel.AddSelected` | src/main/java/com/example/ships_application/InteractionModel.java:109-117 | Toggles: removes the first occurrence if present, otherwise appends. |
| `Interaction.InteractionModel.NewSelection` | src/main/java/com/example/ships_application/InteractionModel.java:124-128 | The selection becomes exactly [g]. |
| `Interaction.InteractionModel.NewSelectionList` | src/main/java/com/example/ships_application/InteractionModel.java:135-139 | The selection becomes exactly the given list. |
| `Control.DeltasTelescope` | src/main/java/com/example/ships_application/ShipController.java:122-126 | The per-drag deltas of a path add up to its last position minus its first. |
| `Control.MovedByStepsTotal` | src/main/java/com/example/ships_application/ShipController.java:129 | Moving by each delta in turn is moving once by their sum. |
| `Control.DragTotal` | src/main/java/com/example/ships_application/ShipController.java:122-129 | Over a drag gesture, the selection ends up moved by current minus press position. |
| `Control.ShipController.constructor` | src/main/java/com/example/ships_application/ShipController.java:37-39 | The controller starts in READY. |
| `Control.ShipController.HandlePressed` | src/main/java/com/example/ships_application/ShipController.java:66-113 | Records prevX/prevY. Only READY reacts: in another state the gesture, the selection, the scene, the rubber band and its anchor are kept, nobody is notified, and the last drag displacement is outside the method's frame. In READY, on a hit it goes to DRAGGING with the selection toggled (ctrl), kept (already selected) or replaced by the hit. With shift on the background it creates a ship, selects only it and goes to DRAGGING. Otherwise it clears the selection unless ctrl is held, creates a rubber band, records the anchor and goes to RUBBER. |
| `Control.ShipController.HandleDragged` | src/main/java/com/example/ships_application/ShipController.java:122-133 | Records the delta and position. In DRAGGING it moves the selection by the delta and leaves the rest of the scene unchanged. In RUBBER it stretches the band from the anchor. |
| `Control.ShipController.DragSelection` | src/main/java/com/example/ships_application/ShipController.java:129 | Moves the selection by (dx, dy). It succeeds iff every selected entity is healthy. On failure `stop` is the first unhealthy selected entity: those before it were healthy and moved, and those after it are untouched. The rest of the scene is unchanged. |
| `Control.ShipController.HandleReleased` | src/main/java/com/example/ships_application/ShipController.java:142-157 | Goes back to READY. From RUBBER it toggles each enclosed entity into the selection, in scene order, and clears the band. |
| `Control.ShipController.SelectEach` | src/main/java/com/example/ships_application/ShipController.java:154 | Toggles each hit into the selection in turn. |
| `Control.ShipController.HandleKeyPressed` | src/main/java/com/example/ships_application/ShipController.java:164-203 | Keys act only in READY. ctrl+C copies. ctrl+X copies and removes the selection from the scene, keeping it selected. ctrl+V appends fresh duplicates and selects them. G groups the selection and selects the group. U ungroups only a lone selected group and selects its children. |

## Left out

- Rendering (`ShipView`), application wiring (`ShipApplication`), the subscriber interface and the subscribers' callbacks: UI code with no state to verify. Notification is modelled only as a ghost counter.
- Building the ship bitmap from a canvas snapshot, and the pixel colour test: they are JavaFX calls. The bitmap is a parameter `(int, int) -> bool`. The `.Floor` of a real stands in for the `(int)` cast, which truncates toward zero but is only applied to non-negative values here.
- Floating-point rounding: coordinates are `real`, so move composition is exact.
- The scratch fields `clickX`/`clickY` of a ship: they are written by `contains` and never read, so `Ships.Ship.Contains` is a function.
- `setModel`/`setInteractionModel`, `Ship.setDisplayXs`/`setDisplayYs` outside `duplicate`, and `ShipGroup.setShips` outside `duplicate`: wiring or setters that are never called otherwise. The controller's constructor takes the scene and the interaction model.
- List aliasing: Java lists are modelled as `seq` values. The model keeps when a list is returned itself, but not later mutation through a shared list object. One case is `newSelection(list)` clearing the old selection list in place. That list is never aliased at any call site.
- An exception thrown part-way through a move can leave an outer group's cached box stale. The bounds invariant is therefore promised only for trees without empty groups (`Healthy`).
- `Control.ShipController.HandleDragged`: after a failed move of the selection, its own contract does not say which selected entities moved. `Control.ShipController.DragSelection`, which it calls, states this.
- `Geometry.Stopped` says of the child at which a group move stopped only that it is unhealthy. That child is itself a group stopped part-way, and the description is not applied to it again.
- `Ships.Ship.Contains`: the Java pre-check accepts `clickX == shipWidth` (40) and `clickY == shipHeight` (44). Such a click reads a pixel one past the right or bottom edge of the 40 x 44 snapshot, which JavaFX may reject with an exception. The model reads the bitmap parameter there instead, so the window in `Geometry.HitWindow` includes its right and bottom edges.
