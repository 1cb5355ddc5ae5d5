# DragControls: a verified model of the pointer-drag state machine

`DragControls` (src/controls/DragControls.ts) lets a user drag 3D objects with a
mouse, pen or touch. It hit-tests the pointer against a list of candidate
objects, keeps one *hovered* and one *selected* object, moves the selected
object along a drag plane, sets the input element's cursor style, and
dispatches `hoveron`, `hoveroff`, `dragstart`, `drag` and `dragend`
notifications.

This project models that controller in Dafny:

- `Geometry` (geometry.dfy): object identities, pointer coordinates, vectors,
  symbolic matrices and placements, and `Scene`, the oracle standing for the
  rendering library. `Scene` gives the ordered hit list, where the ray meets a
  plane (if it does), world positions and matrices, parents and the camera's
  view direction.
- `Events` (events.dfy): the notifications, the hover and drag sub-sequences of
  a log, the hovered/selected object a log implies, and the well-formedness of
  hover and drag notifications.
- `DragSpec` (drag_spec.dfy): the controller's state as a value. It has one
  function per handler, and each function's contract states what that handler
  emits and changes.
- `DragInvariant` (drag_invariant.dfy): every handler keeps the hovered and
  selected objects in agreement with the log and keeps the log well formed.
  Lifted to any input sequence received by a fresh controller.
- `DragScenarios` (drag_scenarios.dfy): short input sequences and the
  outcomes the code gives them. Examples are press-then-release, hover-then-leave, group-mode
  press, moves while disabled, and zero-movement drags.
- `Controller` (drag_controls.dfy): class `DragControls` with the TypeScript
  instance fields. Its handlers update the fields in place and are proved
  equal to the `DragSpec` functions. The registered listeners (`OnPointer*`,
  `OnTouch*`) also preserve `Valid()`, the consistency invariant.

`dispatchEvent` appends to the `log` field. The cursor is the element's
`style.cursor` string. Positions written to the selected object are kept in
the `positions` map.

## Behaviour worth knowing

- A move with an object selected while `enabled` is false takes the hover
  branch (line 68). It emits no `drag` and moves nothing.
  `DisabledMoveDoesNotDrag` states this.
- A mouse press hit-tests at the pointer stored by the last move or touch,
  not at its own position (lines 112-113). It intersects whatever drag plane
  was set last, without re-aiming it (line 118). That plane was set either by
  the last mouse move that hit something, which re-aims it even when the hovered
  object does not change (lines 86-89), or by a touch start (lines 219-222).
  Before either, a press uses the default plane (line 11) and the origin
  pointer (line 14), both of which `Init` states.
- Moving straight from a hovered object onto another emits `hoveron` for the
  new one and no `hoveroff` for the old one (lines 91-96).
  `HoverSwitchSkipsHoverOff` states this.
- A press that hits while something is already selected emits `dragstart` for
  the new target and no `dragend` for the old selection (lines 115-125).
  `PressMidDragSkipsDragEnd` states this, and the drag-session
  well-formedness of `Events` allows a `dragstart` at any point.
- Hovered and selected are not mutually exclusive. A hovered object stays
  hovered through a drag, and `onMouseCancel` uses it to choose the cursor
  (line 138).
- The cursor is not a function of the selected and hovered objects. With
  something hovered, ending a drag by touch leaves `auto` (line 244), while
  ending it by a pointer release leaves `pointer` (line 138). A new controller
  keeps the element's own cursor (lines 23-31), and `deactivate` clears it to the
  empty string (line 52). `CursorNotDeterminedByState` states the first
  contrast.

## Model

| member | source | states |
|---|---|---|
| `DragSpec.Init` | src/controls/DragControls.ts:4-31 | A new controller is enabled, not in group mode, and has nothing selected or hovered. Its log and positions are empty, its pointer is the origin, its offset is zero, its inverse matrix is the identity, its plane is the default one, and its cursor is the element's own. |
| `DragSpec.Target` | src/controls/DragControls.ts:116 | The press target is the first candidate in group mode, else the nearest hit. |
| `DragSpec.DragStep` | src/controls/DragControls.ts:68-76 | A drag step emits exactly one `drag` for the selected object. It rewrites that object's position only when the ray meets the plane, to the hit minus the offset carried through the inverse matrix. Nothing else changes. |
| `DragSpec.BeginDrag` | src/controls/DragControls.ts:116-125 | Starting a drag selects the target, sets cursor `move` and emits one `dragstart`. Offset and inverse matrix are overwritten only when the plane is met and the target has a parent; otherwise they keep their old values. |
| `DragSpec.OnMouseMove` | src/controls/DragControls.ts:60-105 | The pointer is always recorded. When dragging, the result is exactly the shared drag step: one `drag`, the position written only when the plane is met, and hover, cursor and plane unchanged. Otherwise, a nearest hit X re-aims the plane at X. A new X gives `hoveron X`, cursor `pointer` and hovered X, and a repeated X emits nothing. No hit keeps the plane; with a hovered object it gives `hoveroff`, cursor `auto` and hovered cleared, and with none it changes nothing but the pointer. Selection, enabled, group mode and cache are never changed. |
| `DragSpec.OnMouseDown` | src/controls/DragControls.ts:107-127 | The hit-test uses the stored pointer. A hit gives exactly `BeginDrag` of the target: it is selected, the cursor is `move`, and one `dragstart` is emitted. No hit leaves the state unchanged. The cache changes only when the plane is met and the selection has a parent. Pointer, hover, plane, positions, candidates, enabled and group mode are kept. |
| `DragSpec.EndDrag` | src/controls/DragControls.ts:132-136 | With a selection, emits exactly one `dragend` for it and clears it; without one, changes nothing. Nothing else changes. |
| `DragSpec.OnMouseCancel` | src/controls/DragControls.ts:129-139 | With a selection, emits one `dragend` for it, then clears it. Hover is untouched. The cursor becomes `pointer` when something is hovered, else `auto`. |
| `DragSpec.OnPointerMove` | src/controls/DragControls.ts:141-152 | A mouse or pen pointer gives exactly `OnMouseMove`. Any other pointer type changes nothing. |
| `DragSpec.OnPointerDown` | src/controls/DragControls.ts:154-165 | A mouse or pen pointer gives exactly `OnMouseDown`, which ignores the press position. Any other pointer type changes nothing. |
| `DragSpec.OnPointerCancel` | src/controls/DragControls.ts:167-178 | A mouse or pen pointer gives exactly `OnMouseCancel`. Any other pointer type changes nothing. |
| `DragSpec.OnTouchMove` | src/controls/DragControls.ts:180-200 | The touch position is recorded. When dragging, the result is exactly the shared drag step: one `drag`, and a plane hit places the selection at the hit minus the offset, carried through the inverse matrix, while a miss keeps the position. Otherwise only the pointer changes. Hover, cursor, selection, plane, cache, enabled and group mode are never touched. |
| `DragSpec.OnTouchStart` | src/controls/DragControls.ts:202-233 | A hit gives exactly `BeginDrag` of the target after re-aiming the plane at the target's world position: it is selected, the cursor is `move`, and one `dragstart` is emitted. The offset and inverse matrix are refreshed from the re-aimed plane's hit and the target's parent when both exist, and are kept otherwise. No hit changes only the pointer. Hover, positions, enabled and group mode are kept. |
| `DragSpec.OnTouchEnd` | src/controls/DragControls.ts:235-245 | Like cancel, but the cursor becomes `auto` whatever is hovered. |
| `DragSpec.Deactivate` | src/controls/DragControls.ts:43-53 | Exactly the cursor changes, to `''`. Selection, hover and log are kept, and no `dragend` is emitted. |
| `Events.HoverWellFormedAdjacent` | src/controls/DragControls.ts:91-103 | Read index by index, well-formed hover notifications start with a `hoveron`. Each `hoveroff` names the object of the `hoveron` just before it, and no two neighbouring `hoveron`s name the same object. |
| `Events.DragWellFormedAdjacent` | src/controls/DragControls.ts:73-135 | Read index by index, well-formed drag notifications start with a `dragstart`. Each `drag` or `dragend` follows a `dragstart` or `drag` of the same object. |
| `Events.HoverOnKeepsLog` | src/controls/DragControls.ts:91-96 | `hoveron X` while X is not hovered keeps hover notifications well formed and makes X hovered. Drag notifications are unaffected. |
| `Events.HoverOffKeepsLog` | src/controls/DragControls.ts:98-103 | `hoveroff X` for the hovered X keeps hover notifications well formed and leaves nothing hovered. |
| `Events.DragStartKeepsLog` | src/controls/DragControls.ts:125 | `dragstart X` keeps drag notifications well formed and makes X selected. Hover notifications are unaffected. |
| `Events.DragKeepsLog` | src/controls/DragControls.ts:73 | `drag X` for the selected X continues its session. |
| `Events.DragEndKeepsLog` | src/controls/DragControls.ts:132-136 | `dragend X` for the selected X closes its session. |
| `DragInvariant.InitConsistent` | src/controls/DragControls.ts:20-21 | A new controller is consistent with its empty log. |
| `DragInvariant.DragStepConsistent` | src/controls/DragControls.ts:68-76 | The drag branch preserves consistency. |
| `DragInvariant.BeginDragConsistent` | src/controls/DragControls.ts:116-125 | Starting a drag preserves consistency. |
| `DragInvariant.MouseMoveConsistent` | src/controls/DragControls.ts:60-105 | A mouse move preserves consistency. |
| `DragInvariant.MouseDownConsistent` | src/controls/DragControls.ts:107-127 | A mouse press preserves consistency. |
| `DragInvariant.CancelConsistent` | src/controls/DragControls.ts:129-139 | Cancel and touch end preserve consistency. |
| `DragInvariant.TouchMoveConsistent` | src/controls/DragControls.ts:180-200 | A touch move preserves consistency. |
| `DragInvariant.TouchStartConsistent` | src/controls/DragControls.ts:202-233 | A touch start preserves consistency. |
| `DragInvariant.StepConsistent` | src/controls/DragControls.ts:43-245 | Every handler, deactivation and toggle write keeps hovered and selected equal to what the log last announced, and keeps the log well formed. |
| `DragInvariant.StepExtendsLog` | src/controls/DragControls.ts:43-245 | Every step only appends notifications and never changes the candidate list. |
| `DragInvariant.RunConsistent` | src/controls/DragControls.ts:43-245 | Consistency holds after any sequence of inputs. |
| `DragInvariant.RunExtendsLog` | src/controls/DragControls.ts:43-245 | Any sequence of inputs keeps every notification already dispatched. |
| `DragInvariant.TraceWellFormed` | src/controls/DragControls.ts:43-245 | For any inputs to a new controller, hovered and selected are what the log last announced. No object gets two `hoveron`s in a row, and each `hoveroff` directly follows a `hoveron` of the same object. Each `drag` and `dragend` continues an open session of the same object. |
| `DragScenarios.PressThenRelease` | src/controls/DragControls.ts:107-139 | A press that hits X, then a release, emits exactly `[dragstart X, dragend X]`. It leaves nothing selected and keeps hover and positions. |
| `DragScenarios.TouchThenLift` | src/controls/DragControls.ts:202-245 | A touch that hits X, then touch end, emits exactly `[dragstart X, dragend X]` with cursor `auto`. |
| `DragScenarios.HoverThenLeave` | src/controls/DragControls.ts:83-104 | Moving onto a nearest hit X that is not already hovered, then onto no candidate, emits exactly `[hoveron X, hoveroff X]`, whatever was hovered before. |
| `DragScenarios.HoverSwitchSkipsHoverOff` | src/controls/DragControls.ts:83-96 | Moving from a hovered Y onto a different nearest hit X emits exactly `hoveron X`, with no `hoveroff Y`, and makes X hovered with cursor `pointer`. |
| `DragScenarios.PressMidDragSkipsDragEnd` | src/controls/DragControls.ts:107-127 | A hitting press while something is selected emits exactly `dragstart` of the new target, with no `dragend`, and selects it. |
| `DragScenarios.HoverAnnouncedOnce` | src/controls/DragControls.ts:91-96 | Two moves with the same nearest hit X emit a single `hoveron X`. |
| `DragScenarios.GroupPressSelectsFirst` | src/controls/DragControls.ts:116 | In group mode with candidates `[A, B, C]`, a press whose only hit is B selects A and emits `dragstart A`. |
| `DragScenarios.DisabledMoveDoesNotDrag` | src/controls/DragControls.ts:68 | A move while disabled with a selection emits no drag notification, writes no position and keeps the selection. |
| `DragScenarios.DeactivateKeepsDrag` | src/controls/DragControls.ts:43-53 | Deactivating mid-drag keeps the selection, emits no `dragend` and clears the cursor. |
| `DragScenarios.PressIgnoresItsPosition` | src/controls/DragControls.ts:112 | A press's outcome does not depend on where it happened. |
| `DragScenarios.TouchMoveNeverHovers` | src/controls/DragControls.ts:180-200 | A touch move announces no hover change and keeps the hovered object. |
| `DragScenarios.TouchStartNeverHovers` | src/controls/DragControls.ts:202-233 | A touch start announces no hover change and keeps the hovered object. |
| `DragScenarios.TouchEndNeverHovers` | src/controls/DragControls.ts:235-245 | A touch end announces no hover change and keeps the hovered object. |
| `DragScenarios.TouchZeroMovementKeepsPlace` | src/controls/DragControls.ts:219-227 | Grab by touch, then move with the ray meeting the plane at the grab point: the object is placed at its own world position in its parent's frame. |
| `DragScenarios.MouseZeroMovementKeepsPlace` | src/controls/DragControls.ts:68-125 | The same round trip on the mouse path, including group mode: hover, press, then move again at the same position. The plane goes through the nearest hit, and the dragged object is the press target. The target is placed at its own world position in its parent's frame. |
| `DragScenarios.CursorNotDeterminedByState` | src/controls/DragControls.ts:129-245 | With something hovered, touch end and pointer release leave the same selection, hover and log, but the cursor is `auto` after one and `pointer` after the other. |
| `Controller.DragControls.constructor` | src/controls/DragControls.ts:23-31 | Builds the state of `DragSpec.Init` and establishes `Valid()`. |
| `Controller.DragControls.DispatchEvent` | src/controls/DragControls.ts:73 | Appends exactly the dispatched notification to the log. |
| `Controller.DragControls.Deactivate` | src/controls/DragControls.ts:43-53 | Changes only the cursor, as `DragSpec.Deactivate` does. |
| `Controller.DragControls.Dispose` | src/controls/DragControls.ts:56 | Same as `Deactivate`. |
| `Controller.DragControls.GetObjects` | src/controls/DragControls.ts:58 | Returns the candidate list. |
| `Controller.DragControls.DragSelected` | src/controls/DragControls.ts:68-76 | Updates fields in place exactly as `DragSpec.DragStep`. |
| `Controller.DragControls.StartDrag` | src/controls/DragControls.ts:116-125 | Updates fields in place exactly as `DragSpec.BeginDrag`. |
| `Controller.DragControls.EndDrag` | src/controls/DragControls.ts:132-136 | Updates fields in place exactly as `DragSpec.EndDrag`. |
| `Controller.DragControls.OnMouseMove` | src/controls/DragControls.ts:60-105 | Updates fields in place exactly as `DragSpec.OnMouseMove`. |
| `Controller.DragControls.OnMouseDown` | src/controls/DragControls.ts:107-127 | Updates fields in place exactly as `DragSpec.OnMouseDown`. |
| `Controller.DragControls.OnMouseCancel` | src/controls/DragControls.ts:129-139 | Updates fields in place exactly as `DragSpec.OnMouseCancel`. |
| `Controller.DragControls.OnPointerMove` | src/controls/DragControls.ts:141-152 | Routes as `DragSpec.OnPointerMove` and keeps `Valid()`. |
| `Controller.DragControls.OnPointerDown` | src/controls/DragControls.ts:154-165 | Routes as `DragSpec.OnPointerDown` and keeps `Valid()`. |
| `Controller.DragControls.OnPointerCancel` | src/controls/DragControls.ts:167-178 | Routes as `DragSpec.OnPointerCancel` and keeps `Valid()`. |
| `Controller.DragControls.OnTouchMove` | src/controls/DragControls.ts:180-200 | Updates fields in place exactly as `DragSpec.OnTouchMove` and keeps `Valid()`. |
| `Controller.DragControls.OnTouchStart` | src/controls/DragControls.ts:202-233 | Updates fields in place exactly as `DragSpec.OnTouchStart` and keeps `Valid()`. |
| `Controller.DragControls.OnTouchEnd` | src/controls/DragControls.ts:235-245 | Updates fields in place exactly as `DragSpec.OnTouchEnd` and keeps `Valid()`. |

## Left out

- `activate` and the listener side of `deactivate`, including `addEventListener`/`removeEventListener` (lines 33-50). This is DOM registration: the model has no listener state, and the handlers are called directly. Duplicate registration is browser behaviour.
- `event.preventDefault()` in every registered listener and in `onMouseDown` and `onMouseCancel` (lines 108, 130, 142, 155, 168, 181, 203, 236); `onMouseMove` itself does not call it. It is a DOM side effect with no effect on the controller's state.
- Converting client coordinates to normalised device coordinates with `getBoundingClientRect` (lines 61-64, 184-187, 206-209). Handlers receive normalised coordinates directly, and a touch handler receives those of `changedTouches[0]`.
- Ray casting, `intersectObjects`, `intersectPlane`, world matrices, `Matrix4.invert` and `applyMatrix4`. These belong to the rendering library, which is not part of this model. They are answers of the `Scene` oracle, and an empty candidate list is taken to yield no hits. Inverse matrices and applied transforms stay symbolic (`Inverse`, `Transformed`).
- Floating point: coordinates and vector differences are exact reals, so rounding is not modelled.
- `_intersection`, `_worldPosition` and `_intersections` are scratch buffers, each overwritten before it is read. They are not part of the state.
- `GetObjects` returns the candidate list as a value. The controller keeps the caller's own array from the constructor (line 26) and hands that same array out again (line 58). Mutating it through either reference to change later hit-tests (aliasing) is not modelled.
- The rendering library's own state (object positions, matrices) is not updated by the model's position writes. The next event's `Scene` supplies whatever the library would report.
- src/objects/ReflectorRTT.js is a subclassing shim over a `Reflector` with no logic of its own. It is not part of this model.
- DispatchEvent: the model appends each notification to the log and has no listeners. In the code, listeners run synchronously in the middle of a handler and see intermediate states. `hoveron` is dispatched before the cursor and hovered object are set (lines 92-95), and `hoveroff` before they are reset (lines 99-102). `dragstart` is dispatched after the cursor becomes `move` (lines 123-125). `dragend` is dispatched before the selection is cleared (lines 133-135, 239-241). A listener's own write to the cursor, or a re-entrant `deactivate` clearing it, may then be overwritten by the rest of the handler (for example line 94 after `hoveron`). No handler writes `enabled` or `transformGroup`; they are read only before any dispatch (lines 68, 116, 191, 217), so a listener's write to either acts like a toggle write after the handler, which the `EnabledSet` and `TransformGroupSet` inputs cover. Only each handler's final state is modelled.
