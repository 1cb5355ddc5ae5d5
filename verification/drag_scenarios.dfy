/**
 * Short input sequences and the outcomes the code gives them, stated over
 * the state machine of `DragSpec`.
 */
module DragScenarios {
  import opened Wrappers
  import opened Geometry
  import opened Events
  import opened DragSpec

  /** A mouse or pen press that hits, then a release: exactly dragstart and dragend of the same object. */
  lemma PressThenRelease(s: State, pointerType: string, at: Ndc, scene: Scene)
    requires IsMouseOrPen(pointerType)
    requires HitTest(scene, s.objects, s.pointer) != []
    ensures var x := Target(s, HitTest(scene, s.objects, s.pointer));
      var r := OnPointerCancel(OnPointerDown(s, pointerType, at, scene), pointerType);
      r.log == s.log + [Event(DragStart, x), Event(DragEnd, x)] &&
      r.selected == None && r.hovered == s.hovered && r.positions == s.positions &&
      r.cursor == (if s.hovered.Some? then CursorPointer else CursorAuto)
  {
  }

  /** A touch that hits, then its end: exactly dragstart and dragend of the same object, and the `auto` cursor. */
  lemma TouchThenLift(s: State, at: Ndc, scene: Scene)
    requires HitTest(scene, s.objects, at) != []
    ensures var x := Target(s, HitTest(scene, s.objects, at));
      var r := OnTouchEnd(OnTouchStart(s, at, scene));
      r.log == s.log + [Event(DragStart, x), Event(DragEnd, x)] &&
      r.selected == None && r.hovered == s.hovered && r.positions == s.positions && r.cursor == CursorAuto
  {
  }

  /**
   * Moving onto an object that is not already hovered and then off every
   * candidate: exactly hoveron and hoveroff of that object, whatever was
   * hovered before.
   */
  lemma HoverThenLeave(s: State, pointerType: string, at1: Ndc, scene1: Scene, at2: Ndc, scene2: Scene)
    requires IsMouseOrPen(pointerType) && !Dragging(s)
    requires HitTest(scene1, s.objects, at1) != [] && HitTest(scene2, s.objects, at2) == []
    requires s.hovered != Some(HitTest(scene1, s.objects, at1)[0])
    ensures var x := HitTest(scene1, s.objects, at1)[0];
      var r := OnPointerMove(OnPointerMove(s, pointerType, at1, scene1), pointerType, at2, scene2);
      r.log == s.log + [Event(HoverOn, x), Event(HoverOff, x)] && r.hovered == None && r.cursor == CursorAuto
  {
  }

  /**
   * Moving straight from a hovered object onto another announces the new one
   * only: there is no hoveroff for the object left behind.
   */
  lemma HoverSwitchSkipsHoverOff(s: State, pointerType: string, at: Ndc, scene: Scene)
    requires IsMouseOrPen(pointerType) && !Dragging(s) && s.hovered.Some?
    requires HitTest(scene, s.objects, at) != [] && s.hovered != Some(HitTest(scene, s.objects, at)[0])
    ensures var x := HitTest(scene, s.objects, at)[0];
      var r := OnPointerMove(s, pointerType, at, scene);
      r.log == s.log + [Event(HoverOn, x)] && r.hovered == Some(x) && r.cursor == CursorPointer
  {
  }

  /**
   * A press that hits while another object is being dragged starts a new drag
   * without ending the old one: dragstart of the new target and no dragend.
   */
  lemma PressMidDragSkipsDragEnd(s: State, pointerType: string, at: Ndc, scene: Scene)
    requires IsMouseOrPen(pointerType) && s.selected.Some?
    requires HitTest(scene, s.objects, s.pointer) != []
    ensures var x := Target(s, HitTest(scene, s.objects, s.pointer));
      var r := OnPointerDown(s, pointerType, at, scene);
      r.log == s.log + [Event(DragStart, x)] && r.selected == Some(x)
  {
  }

  /** Moving twice over the same nearest object announces it once. */
  lemma HoverAnnouncedOnce(s: State, pointerType: string, at1: Ndc, scene1: Scene, at2: Ndc, scene2: Scene)
    requires IsMouseOrPen(pointerType) && !Dragging(s)
    requires HitTest(scene1, s.objects, at1) != [] && HitTest(scene2, s.objects, at2) != []
    requires HitTest(scene1, s.objects, at1)[0] == HitTest(scene2, s.objects, at2)[0]
    requires s.hovered != Some(HitTest(scene1, s.objects, at1)[0])
    ensures var x := HitTest(scene1, s.objects, at1)[0];
      var r := OnPointerMove(OnPointerMove(s, pointerType, at1, scene1), pointerType, at2, scene2);
      r.log == s.log + [Event(HoverOn, x)] && r.hovered == Some(x) && r.cursor == CursorPointer
  {
  }

  /** In group mode a press selects the first candidate, even when another object is the nearest hit. */
  lemma GroupPressSelectsFirst(s: State, a: ObjectId, b: ObjectId, c: ObjectId, scene: Scene)
    requires s.transformGroup && s.objects == [a, b, c]
    requires HitTest(scene, s.objects, s.pointer) == [b]
    ensures OnMouseDown(s, scene).selected == Some(a)
    ensures OnMouseDown(s, scene).log == s.log + [Event(DragStart, a)]
  {
  }

  /**
   * With the controller disabled, a move over a selection takes the hover
   * branch: no drag notification, no position written, the selection kept.
   */
  lemma DisabledMoveDoesNotDrag(s: State, pointerType: string, at: Ndc, scene: Scene)
    requires IsMouseOrPen(pointerType) && s.selected.Some? && !s.enabled
    ensures var r := OnPointerMove(s, pointerType, at, scene);
      r.positions == s.positions && r.selected == s.selected && DragEvents(r.log) == DragEvents(s.log)
  {
    var r := OnPointerMove(s, pointerType, at, scene);
    var hits := HitTest(scene, s.objects, at);
    if hits != [] && s.hovered != Some(hits[0]) {
      DragEventsAppend(s.log, Event(HoverOn, hits[0]));
    } else if hits == [] && s.hovered.Some? {
      DragEventsAppend(s.log, Event(HoverOff, s.hovered.value));
    }
  }

  /** Deactivating mid-drag keeps the selection and synthesises no dragend. */
  lemma DeactivateKeepsDrag(s: State)
    requires s.selected.Some?
    ensures Deactivate(s).selected == s.selected && Deactivate(s).log == s.log
    ensures Deactivate(s).cursor == CursorCleared
  {
  }

  /** A press hit-tests at the stored pointer position: where the press itself happened does not matter. */
  lemma PressIgnoresItsPosition(s: State, pointerType: string, at1: Ndc, at2: Ndc, scene: Scene)
    ensures OnPointerDown(s, pointerType, at1, scene) == OnPointerDown(s, pointerType, at2, scene)
  {
  }

  /** A touch move never announces a hover change and never changes the hovered object. */
  lemma TouchMoveNeverHovers(s: State, at: Ndc, scene: Scene)
    ensures HoverEvents(OnTouchMove(s, at, scene).log) == HoverEvents(s.log)
    ensures OnTouchMove(s, at, scene).hovered == s.hovered
  {
    if Dragging(s) {
      HoverEventsAppend(s.log, Event(Drag, s.selected.value));
    }
  }

  /** A touch start never announces a hover change and never changes the hovered object. */
  lemma TouchStartNeverHovers(s: State, at: Ndc, scene: Scene)
    ensures HoverEvents(OnTouchStart(s, at, scene).log) == HoverEvents(s.log)
    ensures OnTouchStart(s, at, scene).hovered == s.hovered
  {
    var hits := HitTest(scene, s.objects, at);
    if hits != [] {
      HoverEventsAppend(s.log, Event(DragStart, Target(s, hits)));
    }
  }

  /** A touch end never announces a hover change and never changes the hovered object. */
  lemma TouchEndNeverHovers(s: State)
    ensures HoverEvents(OnTouchEnd(s).log) == HoverEvents(s.log)
    ensures OnTouchEnd(s).hovered == s.hovered
  {
    if s.selected.Some? {
      HoverEventsAppend(s.log, Event(DragEnd, s.selected.value));
    }
  }

  /**
   * A touch that grabs an object, then a move whose ray meets the drag plane
   * at the same point: the object is placed at its own world position,
   * expressed in its parent's frame, so it does not move.
   */
  lemma TouchZeroMovementKeepsPlace(s: State, at: Ndc, scene: Scene)
    requires s.enabled && HitTest(scene, s.objects, at) != []
    requires var x := Target(s, HitTest(scene, s.objects, at));
      scene.parent(x).Some? &&
      scene.meetsPlane(at, FromNormalAndPoint(scene.viewDirection, scene.worldPosition(x))).Some?
    ensures var x := Target(s, HitTest(scene, s.objects, at));
      var r := OnTouchMove(OnTouchStart(s, at, scene), at, scene);
      x in r.positions &&
      r.positions[x] == Transformed(scene.worldPosition(x), Inverse(scene.worldMatrix(scene.parent(x).value)))
  {
  }

  /**
   * The mouse path of the same round trip: hover, press, and move again at the
   * same position. The drag plane passes through the nearest hit, which in
   * group mode need not be the dragged object; the offset taken at the press
   * still brings the dragged object back to its own place.
   */
  lemma MouseZeroMovementKeepsPlace(s: State, pointerType: string, at: Ndc, scene: Scene)
    requires IsMouseOrPen(pointerType) && s.enabled && s.selected == None
    requires HitTest(scene, s.objects, at) != []
    requires var x := Target(s, HitTest(scene, s.objects, at));
      var nearest := HitTest(scene, s.objects, at)[0];
      scene.parent(x).Some? &&
      scene.meetsPlane(at, FromNormalAndPoint(scene.viewDirection, scene.worldPosition(nearest))).Some?
    ensures var x := Target(s, HitTest(scene, s.objects, at));
      var r := OnPointerMove(OnPointerDown(OnPointerMove(s, pointerType, at, scene), pointerType, at, scene),
                             pointerType, at, scene);
      x in r.positions &&
      r.positions[x] == Transformed(scene.worldPosition(x), Inverse(scene.worldMatrix(scene.parent(x).value)))
  {
  }

  /**
   * The cursor is not a function of selection and hover: a touch lift and a
   * pointer release end the same drag with the same hover state, yet leave
   * `auto` and `pointer` respectively when something is hovered.
   */
  lemma CursorNotDeterminedByState(s: State)
    requires s.hovered.Some?
    ensures OnTouchEnd(s).selected == OnMouseCancel(s).selected == None
    ensures OnTouchEnd(s).hovered == OnMouseCancel(s).hovered == s.hovered
    ensures OnTouchEnd(s).log == OnMouseCancel(s).log
    ensures OnTouchEnd(s).cursor == CursorAuto && OnMouseCancel(s).cursor == CursorPointer
    ensures OnTouchEnd(s).cursor != OnMouseCancel(s).cursor
  {
  }
}
