/**
 * The controller's hover and selection state always agrees with the
 * notifications it has dispatched, and those notifications are well formed:
 * hover notifications alternate, and drag notifications form sessions.
 */
module DragInvariant {
  import opened Wrappers
  import opened Geometry
  import opened Events
  import opened DragSpec

  /** One input the controller can receive, or a write to one of its public toggles. */
  datatype Input =
    | PointerMoved(pointerType: string, at: Ndc, scene: Scene)
    | PointerPressed(pointerType: string, at: Ndc, scene: Scene)
    | PointerReleased(pointerType: string)
    | TouchMoved(at: Ndc, scene: Scene)
    | TouchStarted(at: Ndc, scene: Scene)
    | TouchEnded
    | Deactivated
    | EnabledSet(on: bool)
    | TransformGroupSet(on: bool)

  function Step(s: State, input: Input): State {
    match input
    case PointerMoved(t, at, scene) => OnPointerMove(s, t, at, scene)
    case PointerPressed(t, at, scene) => OnPointerDown(s, t, at, scene)
    case PointerReleased(t) => OnPointerCancel(s, t)
    case TouchMoved(at, scene) => OnTouchMove(s, at, scene)
    case TouchStarted(at, scene) => OnTouchStart(s, at, scene)
    case TouchEnded => OnTouchEnd(s)
    case Deactivated => Deactivate(s)
    case EnabledSet(on) => s.(enabled := on)
    case TransformGroupSet(on) => s.(transformGroup := on)
  }

  /** The state after handling `inputs` in order. */
  function Run(s: State, inputs: seq<Input>): State
    decreases |inputs|
  {
    if inputs == [] then s else Run(Step(s, inputs[0]), inputs[1..])
  }

  /** Hovered and selected objects are the ones the log says, and the log is well formed. */
  predicate Consistent(s: State) {
    s.hovered == HoveredAfter(s.log) && HoverWellFormed(HoverEvents(s.log)) &&
    s.selected == SelectedAfter(s.log) && DragWellFormed(DragEvents(s.log))
  }

  lemma InitConsistent(objects: seq<ObjectId>, cursor: string)
    ensures Consistent(Init(objects, cursor))
  {
  }

  lemma DragStepConsistent(s: State, scene: Scene)
    requires Consistent(s) && Dragging(s)
    ensures Consistent(DragStep(s, scene))
  {
    DragKeepsLog(s.log, s.selected.value);
  }

  lemma BeginDragConsistent(s: State, sel: ObjectId, scene: Scene)
    requires Consistent(s)
    ensures Consistent(BeginDrag(s, sel, scene))
  {
    DragStartKeepsLog(s.log, sel);
  }

  lemma MouseMoveConsistent(s: State, at: Ndc, scene: Scene)
    requires Consistent(s)
    ensures Consistent(OnMouseMove(s, at, scene))
  {
    var m := s.(pointer := at);
    if Dragging(m) {
      DragStepConsistent(m, scene);
    } else {
      var hits := HitTest(scene, m.objects, at);
      if hits != [] {
        if m.hovered != Some(hits[0]) {
          HoverOnKeepsLog(s.log, hits[0]);
        }
      } else if m.hovered.Some? {
        HoverOffKeepsLog(s.log, m.hovered.value);
      }
    }
  }

  lemma MouseDownConsistent(s: State, scene: Scene)
    requires Consistent(s)
    ensures Consistent(OnMouseDown(s, scene))
  {
    var hits := HitTest(scene, s.objects, s.pointer);
    if hits != [] {
      BeginDragConsistent(s, Target(s, hits), scene);
    }
  }

  lemma CancelConsistent(s: State)
    requires Consistent(s)
    ensures Consistent(OnMouseCancel(s)) && Consistent(OnTouchEnd(s))
  {
    if s.selected.Some? {
      DragEndKeepsLog(s.log, s.selected.value);
    }
  }

  lemma TouchMoveConsistent(s: State, at: Ndc, scene: Scene)
    requires Consistent(s)
    ensures Consistent(OnTouchMove(s, at, scene))
  {
    var m := s.(pointer := at);
    if Dragging(m) {
      DragStepConsistent(m, scene);
    }
  }

  lemma TouchStartConsistent(s: State, at: Ndc, scene: Scene)
    requires Consistent(s)
    ensures Consistent(OnTouchStart(s, at, scene))
  {
    var m := s.(pointer := at);
    var hits := HitTest(scene, m.objects, at);
    if hits != [] {
      var x := Target(m, hits);
      BeginDragConsistent(m.(plane := FromNormalAndPoint(scene.viewDirection, scene.worldPosition(x))), x, scene);
    }
  }

  /** Every handler, and every write to a toggle, keeps the controller consistent. */
  lemma StepConsistent(s: State, input: Input)
    requires Consistent(s)
    ensures Consistent(Step(s, input))
  {
    match input
    case PointerMoved(t, at, scene) =>
      if IsMouseOrPen(t) { MouseMoveConsistent(s, at, scene); }
    case PointerPressed(t, at, scene) =>
      if IsMouseOrPen(t) { MouseDownConsistent(s, scene); }
    case PointerReleased(t) =>
      CancelConsistent(s);
    case TouchMoved(at, scene) =>
      TouchMoveConsistent(s, at, scene);
    case TouchStarted(at, scene) =>
      TouchStartConsistent(s, at, scene);
    case TouchEnded =>
      CancelConsistent(s);
    case Deactivated =>
    case EnabledSet(on) =>
    case TransformGroupSet(on) =>
  }

  /** Every step only appends to the log and never changes the candidate list. */
  lemma StepExtendsLog(s: State, input: Input)
    ensures s.log <= Step(s, input).log
    ensures Step(s, input).objects == s.objects
  {
  }

  lemma {:induction false} RunConsistent(s: State, inputs: seq<Input>)
    requires Consistent(s)
    ensures Consistent(Run(s, inputs))
    decreases |inputs|
  {
    if inputs != [] {
      StepConsistent(s, inputs[0]);
      RunConsistent(Step(s, inputs[0]), inputs[1..]);
    }
  }

  /** A run keeps everything already dispatched and the candidate list. */
  lemma {:induction false} RunExtendsLog(s: State, inputs: seq<Input>)
    ensures s.log <= Run(s, inputs).log
    ensures Run(s, inputs).objects == s.objects
    decreases |inputs|
  {
    if inputs != [] {
      StepExtendsLog(s, inputs[0]);
      RunExtendsLog(Step(s, inputs[0]), inputs[1..]);
    }
  }

  /**
   * Whatever a freshly constructed controller receives, its notifications are
   * well formed: no object gets two hoverons in a row, each hoveroff follows a
   * hoveron of the same object, and every drag and dragend belongs to an open
   * session of the same object. Its hovered and selected objects are those the
   * log last announced.
   */
  lemma {:induction false} TraceWellFormed(objects: seq<ObjectId>, cursor: string, inputs: seq<Input>)
    ensures var r := Run(Init(objects, cursor), inputs);
      r.hovered == HoveredAfter(r.log) && r.selected == SelectedAfter(r.log)
    ensures var h := HoverEvents(Run(Init(objects, cursor), inputs).log);
      (forall i :: 0 < i < |h| && h[i].kind == HoverOn ==> h[i - 1] != h[i]) &&
      (forall i :: 0 <= i < |h| && h[i].kind == HoverOff ==> 0 < i && h[i - 1] == Event(HoverOn, h[i].target))
    ensures var d := DragEvents(Run(Init(objects, cursor), inputs).log);
      forall i :: 0 <= i < |d| && (d[i].kind == Drag || d[i].kind == DragEnd) ==>
        0 < i && (d[i - 1].kind == DragStart || d[i - 1].kind == Drag) && d[i - 1].target == d[i].target
  {
    InitConsistent(objects, cursor);
    RunConsistent(Init(objects, cursor), inputs);
    var r := Run(Init(objects, cursor), inputs);
    HoverWellFormedAdjacent(HoverEvents(r.log));
    DragWellFormedAdjacent(DragEvents(r.log));
  }
}
