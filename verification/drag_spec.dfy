/**
 * The drag controller as a state machine: one function per event handler,
 * each taking the controller's state (and the geometry oracle's answers for
 * that event) to the state the handler leaves behind. Dispatching a
 * notification appends it to `log`.
 */
module DragSpec {
  import opened Wrappers
  import opened Geometry
  import opened Events

  /** Cursor styles the controller writes on its input element. */
  const CursorCleared := ""
  const CursorAuto := "auto"
  const CursorPointer := "pointer"
  const CursorMove := "move"

  /**
   * The controller's observable state: its two public toggles, the candidate
   * objects, the last pointer position, the cached drag plane, grab offset and
   * inverse parent matrix, the selected and hovered objects, the element's
   * cursor, the local positions the controller has written to objects, and
   * the notifications dispatched so far.
   */
  datatype State = State(
    enabled: bool,
    transformGroup: bool,
    objects: seq<ObjectId>,
    pointer: Ndc,
    plane: Plane,
    offset: Vec3,
    inverseMatrix: Matrix,
    selected: Option<ObjectId>,
    hovered: Option<ObjectId>,
    cursor: string,
    positions: map<ObjectId, Placement>,
    log: seq<Event>)

  /** A freshly constructed controller; `cursor` is whatever style the element already had. */
  function Init(objects: seq<ObjectId>, cursor: string): (s: State)
    ensures s.enabled && !s.transformGroup && s.objects == objects && s.cursor == cursor
    ensures s.selected == None && s.hovered == None && s.log == [] && s.positions == map[]
    ensures s.offset == Origin && s.inverseMatrix == Identity && s.plane == DefaultPlane
    ensures s.pointer == Ndc(0.0, 0.0)
  {
    State(true, false, objects, Ndc(0.0, 0.0), DefaultPlane, Origin, Identity, None, None, cursor, map[], [])
  }

  /** A move drags the selection only when there is one and the controller is enabled. */
  predicate Dragging(s: State) {
    s.selected.Some? && s.enabled
  }

  /** Pointer events are handled only for these two pointer types. */
  predicate IsMouseOrPen(pointerType: string) {
    pointerType == "mouse" || pointerType == "pen"
  }

  /** The object a press on `hits` selects: the first candidate in group mode, else the nearest hit. */
  function Target(s: State, hits: seq<ObjectId>): (x: ObjectId)
    requires hits != [] && s.objects != []
    ensures s.transformGroup ==> x == s.objects[0]
    ensures !s.transformGroup ==> x == hits[0]
  {
    if s.transformGroup then s.objects[0] else hits[0]
  }

  /**
   * The drag branch shared by mouse and touch moves: move the selected object
   * to where the ray meets the drag plane, if it does, and announce the drag.
   */
  function DragStep(s: State, scene: Scene): (r: State)
    requires Dragging(s)
    ensures r.log == s.log + [Event(Drag, s.selected.value)]
    ensures r == s.(positions := r.positions, log := r.log)
    ensures scene.meetsPlane(s.pointer, s.plane).None? ==> r.positions == s.positions
    ensures scene.meetsPlane(s.pointer, s.plane).Some? ==>
      var hit := scene.meetsPlane(s.pointer, s.plane).value;
      r.positions == s.positions[s.selected.value := Transformed(Sub(hit, s.offset), s.inverseMatrix)]
  {
    var sel := s.selected.value;
    var positions :=
      match scene.meetsPlane(s.pointer, s.plane)
      case Some(hit) => s.positions[sel := Transformed(Sub(hit, s.offset), s.inverseMatrix)]
      case None => s.positions;
    s.(positions := positions, log := s.log + [Event(Drag, sel)])
  }

  /**
   * Selecting `sel` for a drag: refresh the cached offset and inverse parent
   * matrix only when the ray meets the drag plane and `sel` has a parent, show
   * the move cursor and announce dragstart.
   */
  function BeginDrag(s: State, sel: ObjectId, scene: Scene): (r: State)
    ensures r.selected == Some(sel) && r.cursor == CursorMove
    ensures r.log == s.log + [Event(DragStart, sel)]
    ensures r == s.(selected := r.selected, cursor := r.cursor, log := r.log,
                    offset := r.offset, inverseMatrix := r.inverseMatrix)
    ensures (r.offset, r.inverseMatrix) ==
      match (scene.meetsPlane(s.pointer, s.plane), scene.parent(sel))
      case (Some(hit), Some(p)) => (Sub(hit, scene.worldPosition(sel)), Inverse(scene.worldMatrix(p)))
      case _ => (s.offset, s.inverseMatrix)
  {
    var cached :=
      match (scene.meetsPlane(s.pointer, s.plane), scene.parent(sel))
      case (Some(hit), Some(p)) =>
        s.(inverseMatrix := Inverse(scene.worldMatrix(p)), offset := Sub(hit, scene.worldPosition(sel)))
      case _ => s;
    cached.(selected := Some(sel), cursor := CursorMove, log := s.log + [Event(DragStart, sel)])
  }

  /**
   * `onMouseMove`: record the pointer; drag the selection when dragging;
   * otherwise hit-test, re-aim the drag plane at the nearest hit, and announce
   * hoveron when that hit is not already hovered, or hoveroff when nothing is
   * hit and something was hovered.
   */
  function OnMouseMove(s: State, at: Ndc, scene: Scene): (r: State)
    ensures r.pointer == at && r.selected == s.selected && r.objects == s.objects
    ensures r.enabled == s.enabled && r.transformGroup == s.transformGroup
    ensures r.offset == s.offset && r.inverseMatrix == s.inverseMatrix
    ensures Dragging(s) ==>
      r.log == s.log + [Event(Drag, s.selected.value)] && r.hovered == s.hovered && r.cursor == s.cursor
    ensures Dragging(s) ==> r == DragStep(s.(pointer := at), scene) && r.plane == s.plane
    ensures Dragging(s) && scene.meetsPlane(at, s.plane).None? ==> r.positions == s.positions
    ensures Dragging(s) && scene.meetsPlane(at, s.plane).Some? ==>
      var hit := scene.meetsPlane(at, s.plane).value;
      r.positions == s.positions[s.selected.value := Transformed(Sub(hit, s.offset), s.inverseMatrix)]
    ensures !Dragging(s) ==> r.positions == s.positions
    ensures !Dragging(s) && HitTest(scene, s.objects, at) == [] ==> r.plane == s.plane
    ensures !Dragging(s) && HitTest(scene, s.objects, at) != [] ==>
      var x := HitTest(scene, s.objects, at)[0];
      r.hovered == Some(x) &&
      r.plane == FromNormalAndPoint(scene.viewDirection, scene.worldPosition(x)) &&
      if s.hovered == Some(x) then r.log == s.log && r.cursor == s.cursor
      else r.log == s.log + [Event(HoverOn, x)] && r.cursor == CursorPointer
    ensures !Dragging(s) && HitTest(scene, s.objects, at) == [] && s.hovered.Some? ==>
      r.log == s.log + [Event(HoverOff, s.hovered.value)] && r.hovered == None && r.cursor == CursorAuto
    ensures !Dragging(s) && HitTest(scene, s.objects, at) == [] && s.hovered.None? ==>
      r == s.(pointer := at)
  {
    var m := s.(pointer := at);
    if Dragging(m) then DragStep(m, scene)
    else
      var hits := HitTest(scene, m.objects, at);
      if hits != [] then
        var x := hits[0];
        var aimed := m.(plane := FromNormalAndPoint(scene.viewDirection, scene.worldPosition(x)));
        if aimed.hovered != Some(x) then
          aimed.(log := aimed.log + [Event(HoverOn, x)], cursor := CursorPointer, hovered := Some(x))
        else aimed
      else if m.hovered.Some? then
        m.(log := m.log + [Event(HoverOff, m.hovered.value)], cursor := CursorAuto, hovered := None)
      else m
  }

  /**
   * `onMouseDown`: hit-test at the pointer position recorded by the last move
   * (not at the press's own position) and, on a hit, begin dragging the target.
   */
  function OnMouseDown(s: State, scene: Scene): (r: State)
    ensures r.pointer == s.pointer && r.plane == s.plane && r.hovered == s.hovered
    ensures r.positions == s.positions && r.objects == s.objects && r.enabled == s.enabled
    ensures r.transformGroup == s.transformGroup
    ensures HitTest(scene, s.objects, s.pointer) == [] ==> r == s
    ensures HitTest(scene, s.objects, s.pointer) != [] ==>
      r == BeginDrag(s, Target(s, HitTest(scene, s.objects, s.pointer)), scene)
    ensures HitTest(scene, s.objects, s.pointer) != [] ==>
      var x := if s.transformGroup then s.objects[0] else HitTest(scene, s.objects, s.pointer)[0];
      r.selected == Some(x) && r.cursor == CursorMove && r.log == s.log + [Event(DragStart, x)]
    ensures (r.offset, r.inverseMatrix) != (s.offset, s.inverseMatrix) ==>
      scene.meetsPlane(s.pointer, s.plane).Some? && r.selected.Some? && scene.parent(r.selected.value).Some?
  {
    var hits := HitTest(scene, s.objects, s.pointer);
    if hits == [] then s
    else BeginDrag(s, Target(s, hits), scene)
  }

  /** Ending the drag in progress, if any: announce dragend and clear the selection. */
  function EndDrag(s: State): (r: State)
    ensures r.selected == None
    ensures r.log == if s.selected.Some? then s.log + [Event(DragEnd, s.selected.value)] else s.log
    ensures r == s.(selected := None, log := r.log)
  {
    if s.selected.Some? then s.(log := s.log + [Event(DragEnd, s.selected.value)], selected := None) else s
  }

  /** `onMouseCancel`: end the drag, if any, and restore the cursor from the hover state. */
  function OnMouseCancel(s: State): (r: State)
    ensures r.selected == None && r.hovered == s.hovered && r.positions == s.positions
    ensures r.cursor == if s.hovered.Some? then CursorPointer else CursorAuto
    ensures r.log == if s.selected.Some? then s.log + [Event(DragEnd, s.selected.value)] else s.log
    ensures r == s.(selected := None, cursor := r.cursor, log := r.log)
  {
    EndDrag(s).(cursor := if s.hovered.Some? then CursorPointer else CursorAuto)
  }

  /** `onPointerMove`: only mouse and pen pointers are routed. */
  function OnPointerMove(s: State, pointerType: string, at: Ndc, scene: Scene): (r: State)
    ensures !IsMouseOrPen(pointerType) ==> r == s
    ensures IsMouseOrPen(pointerType) ==> r == OnMouseMove(s, at, scene)
  {
    if IsMouseOrPen(pointerType) then OnMouseMove(s, at, scene) else s
  }

  /** `onPointerDown`: only mouse and pen pointers are routed; the press position `at` is not used. */
  function OnPointerDown(s: State, pointerType: string, at: Ndc, scene: Scene): (r: State)
    ensures !IsMouseOrPen(pointerType) ==> r == s
    ensures IsMouseOrPen(pointerType) ==> r == OnMouseDown(s, scene)
  {
    if IsMouseOrPen(pointerType) then OnMouseDown(s, scene) else s
  }

  /** `onPointerCancel`, for both `pointerup` and `pointerleave`: only mouse and pen pointers are routed. */
  function OnPointerCancel(s: State, pointerType: string): (r: State)
    ensures !IsMouseOrPen(pointerType) ==> r == s
    ensures IsMouseOrPen(pointerType) ==> r == OnMouseCancel(s)
  {
    if IsMouseOrPen(pointerType) then OnMouseCancel(s) else s
  }

  /** `onTouchMove`: record the touch position and drag the selection when dragging; touch never hovers. */
  function OnTouchMove(s: State, at: Ndc, scene: Scene): (r: State)
    ensures r.pointer == at && r.selected == s.selected && r.hovered == s.hovered && r.cursor == s.cursor
    ensures r.plane == s.plane && r.offset == s.offset && r.inverseMatrix == s.inverseMatrix
    ensures r.enabled == s.enabled && r.transformGroup == s.transformGroup && r.objects == s.objects
    ensures Dragging(s) ==> r.log == s.log + [Event(Drag, s.selected.value)]
    ensures Dragging(s) ==> r == DragStep(s.(pointer := at), scene)
    ensures Dragging(s) && scene.meetsPlane(at, s.plane).None? ==> r.positions == s.positions
    ensures Dragging(s) && scene.meetsPlane(at, s.plane).Some? ==>
      var hit := scene.meetsPlane(at, s.plane).value;
      r.positions == s.positions[s.selected.value := Transformed(Sub(hit, s.offset), s.inverseMatrix)]
    ensures !Dragging(s) ==> r == s.(pointer := at)
  {
    var m := s.(pointer := at);
    if Dragging(m) then DragStep(m, scene) else m
  }

  /**
   * `onTouchStart`: record the touch position, hit-test there and, on a hit,
   * aim the drag plane at the target's world position and begin dragging it.
   */
  function OnTouchStart(s: State, at: Ndc, scene: Scene): (r: State)
    ensures r.pointer == at && r.hovered == s.hovered && r.positions == s.positions && r.objects == s.objects
    ensures r.enabled == s.enabled && r.transformGroup == s.transformGroup
    ensures HitTest(scene, s.objects, at) == [] ==> r == s.(pointer := at)
    ensures HitTest(scene, s.objects, at) != [] ==>
      var x := Target(s, HitTest(scene, s.objects, at));
      r == BeginDrag(s.(pointer := at, plane := FromNormalAndPoint(scene.viewDirection, scene.worldPosition(x))), x, scene)
    ensures HitTest(scene, s.objects, at) != [] ==>
      var x := if s.transformGroup then s.objects[0] else HitTest(scene, s.objects, at)[0];
      var plane := FromNormalAndPoint(scene.viewDirection, scene.worldPosition(x));
      (r.offset, r.inverseMatrix) ==
        match (scene.meetsPlane(at, plane), scene.parent(x))
        case (Some(hit), Some(p)) => (Sub(hit, scene.worldPosition(x)), Inverse(scene.worldMatrix(p)))
        case _ => (s.offset, s.inverseMatrix)
    ensures HitTest(scene, s.objects, at) != [] ==>
      var x := if s.transformGroup then s.objects[0] else HitTest(scene, s.objects, at)[0];
      r.selected == Some(x) && r.cursor == CursorMove && r.log == s.log + [Event(DragStart, x)] &&
      r.plane == FromNormalAndPoint(scene.viewDirection, scene.worldPosition(x))
    ensures (r.offset, r.inverseMatrix) != (s.offset, s.inverseMatrix) ==>
      scene.meetsPlane(at, r.plane).Some? && r.selected.Some? && scene.parent(r.selected.value).Some?
  {
    var m := s.(pointer := at);
    var hits := HitTest(scene, m.objects, at);
    if hits == [] then m
    else
      var x := Target(m, hits);
      BeginDrag(m.(plane := FromNormalAndPoint(scene.viewDirection, scene.worldPosition(x))), x, scene)
  }

  /** `onTouchEnd`: end the drag, if any; the cursor becomes `auto` whatever is hovered. */
  function OnTouchEnd(s: State): (r: State)
    ensures r.selected == None && r.hovered == s.hovered && r.cursor == CursorAuto
    ensures r.log == if s.selected.Some? then s.log + [Event(DragEnd, s.selected.value)] else s.log
    ensures r == s.(selected := None, cursor := CursorAuto, log := r.log)
  {
    EndDrag(s).(cursor := CursorAuto)
  }

  /** `deactivate` (and `dispose`): clear the cursor style; selection and hover are kept. */
  function Deactivate(s: State): (r: State)
    ensures r.cursor == CursorCleared
    ensures r.selected == s.selected && r.hovered == s.hovered && r.log == s.log
    ensures r == s.(cursor := CursorCleared)
  {
    s.(cursor := CursorCleared)
  }
}
