/**
 * The drag controller as the object it is: instance fields updated in place by
 * event handlers. Each handler is proved to leave exactly the state the
 * corresponding `DragSpec` function describes, and to keep the controller
 * consistent with the notifications it has dispatched.
 */
module Controller {
  import opened Wrappers
  import opened Geometry
  import opened Events
  import DragSpec
  import DragInvariant

  class DragControls {
    var enabled: bool
    var transformGroup: bool

    var objects: seq<ObjectId>
    var pointer: Ndc
    var plane: Plane
    var offset: Vec3
    var inverseMatrix: Matrix
    var selected: Option<ObjectId>
    var hovered: Option<ObjectId>

    /** The input element's `style.cursor`. */
    var cursor: string
    /** Local positions this controller has written to objects. */
    var positions: map<ObjectId, Placement>
    /** Notifications dispatched so far, oldest first. */
    var log: seq<Event>

    /** The controller's state as a value. */
    function Model(): DragSpec.State
      reads this
    {
      DragSpec.State(enabled, transformGroup, objects, pointer, plane, offset, inverseMatrix,
                     selected, hovered, cursor, positions, log)
    }

    ghost predicate Valid()
      reads this
    {
      DragInvariant.Consistent(Model())
    }

    /** Construct over the candidate objects; `elementCursor` is the style the element already has. */
    constructor (objects: seq<ObjectId>, elementCursor: string)
      ensures Model() == DragSpec.Init(objects, elementCursor)
      ensures Valid()
    {
      enabled := true;
      transformGroup := false;
      this.objects := objects;
      pointer := Ndc(0.0, 0.0);
      plane := DefaultPlane;
      offset := Origin;
      inverseMatrix := Identity;
      selected := None;
      hovered := None;
      cursor := elementCursor;
      positions := map[];
      log := [];
      new;
      DragInvariant.InitConsistent(objects, elementCursor);
    }

    /** `dispatchEvent`: deliver a notification, here by appending it to the log. */
    method DispatchEvent(kind: EventKind, target: ObjectId)
      modifies this`log
      ensures log == old(log) + [Event(kind, target)]
    {
      log := log + [Event(kind, target)];
    }

    method Deactivate()
      modifies this`cursor
      ensures Model() == DragSpec.Deactivate(old(Model()))
      ensures Valid() <==> old(Valid())
    {
      cursor := DragSpec.CursorCleared;
    }

    method Dispose()
      modifies this`cursor
      ensures Model() == DragSpec.Deactivate(old(Model()))
      ensures Valid() <==> old(Valid())
    {
      Deactivate();
    }

    method GetObjects() returns (result: seq<ObjectId>)
      ensures result == objects
    {
      result := objects;
    }

    /** The drag branch shared by mouse and touch moves. */
    method DragSelected(scene: Scene)
      requires selected.Some? && enabled
      modifies this`positions, this`log
      ensures Model() == DragSpec.DragStep(old(Model()), scene)
    {
      var hit := scene.meetsPlane(pointer, plane);
      if hit.Some? {
        positions := positions[selected.value := Transformed(Sub(hit.value, offset), inverseMatrix)];
      }
      DispatchEvent(Drag, selected.value);
    }

    /** Select `target`, refresh the cached offset and inverse matrix under their guard, announce dragstart. */
    method StartDrag(target: ObjectId, scene: Scene)
      modifies this
      ensures Model() == DragSpec.BeginDrag(old(Model()), target, scene)
    {
      selected := Some(target);
      var hit := scene.meetsPlane(pointer, plane);
      var parent := scene.parent(target);
      if hit.Some? && parent.Some? {
        inverseMatrix := Inverse(scene.worldMatrix(parent.value));
        offset := Sub(hit.value, scene.worldPosition(target));
      }
      cursor := DragSpec.CursorMove;
      DispatchEvent(DragStart, target);
    }

    /** End the drag in progress, if any: announce dragend and clear the selection. */
    method EndDrag()
      modifies this`selected, this`log
      ensures Model() == DragSpec.EndDrag(old(Model()))
    {
      if selected.Some? {
        DispatchEvent(DragEnd, selected.value);
        selected := None;
      }
    }

    method OnMouseMove(at: Ndc, scene: Scene)
      modifies this
      ensures Model() == DragSpec.OnMouseMove(old(Model()), at, scene)
    {
      pointer := at;
      if selected.Some? && enabled {
        DragSelected(scene);
        return;
      }
      var hits := HitTest(scene, objects, pointer);
      if |hits| > 0 {
        var nearest := hits[0];
        plane := FromNormalAndPoint(scene.viewDirection, scene.worldPosition(nearest));
        if hovered != Some(nearest) {
          DispatchEvent(HoverOn, nearest);
          cursor := DragSpec.CursorPointer;
          hovered := Some(nearest);
        }
      } else {
        if hovered.Some? {
          DispatchEvent(HoverOff, hovered.value);
          cursor := DragSpec.CursorAuto;
          hovered := None;
        }
      }
    }

    /** The press's own position `at` is not used: the hit-test runs at the stored pointer. */
    method OnMouseDown(at: Ndc, scene: Scene)
      modifies this
      ensures Model() == DragSpec.OnMouseDown(old(Model()), scene)
    {
      var hits := HitTest(scene, objects, pointer);
      if |hits| > 0 {
        var target := if transformGroup then objects[0] else hits[0];
        StartDrag(target, scene);
      }
    }

    method OnMouseCancel()
      modifies this
      ensures Model() == DragSpec.OnMouseCancel(old(Model()))
    {
      EndDrag();
      cursor := if hovered.Some? then DragSpec.CursorPointer else DragSpec.CursorAuto;
    }

    /** Listener for `pointermove`. */
    method OnPointerMove(pointerType: string, at: Ndc, scene: Scene)
      requires Valid()
      modifies this
      ensures Model() == DragSpec.OnPointerMove(old(Model()), pointerType, at, scene)
      ensures Valid()
    {
      DragInvariant.MouseMoveConsistent(Model(), at, scene);
      if pointerType == "mouse" || pointerType == "pen" {
        OnMouseMove(at, scene);
      }
    }

    /** Listener for `pointerdown`. */
    method OnPointerDown(pointerType: string, at: Ndc, scene: Scene)
      requires Valid()
      modifies this
      ensures Model() == DragSpec.OnPointerDown(old(Model()), pointerType, at, scene)
      ensures Valid()
    {
      DragInvariant.MouseDownConsistent(Model(), scene);
      if pointerType == "mouse" || pointerType == "pen" {
        OnMouseDown(at, scene);
      }
    }

    /** Listener for both `pointerup` and `pointerleave`. */
    method OnPointerCancel(pointerType: string)
      requires Valid()
      modifies this
      ensures Model() == DragSpec.OnPointerCancel(old(Model()), pointerType)
      ensures Valid()
    {
      DragInvariant.CancelConsistent(Model());
      if pointerType == "mouse" || pointerType == "pen" {
        OnMouseCancel();
      }
    }

    /** Listener for `touchmove`; `at` is the position of the first changed touch. */
    method OnTouchMove(at: Ndc, scene: Scene)
      requires Valid()
      modifies this
      ensures Model() == DragSpec.OnTouchMove(old(Model()), at, scene)
      ensures Valid()
    {
      DragInvariant.TouchMoveConsistent(Model(), at, scene);
      pointer := at;
      if selected.Some? && enabled {
        DragSelected(scene);
        return;
      }
    }

    /** Listener for `touchstart`; `at` is the position of the first changed touch. */
    method OnTouchStart(at: Ndc, scene: Scene)
      requires Valid()
      modifies this
      ensures Model() == DragSpec.OnTouchStart(old(Model()), at, scene)
      ensures Valid()
    {
      DragInvariant.TouchStartConsistent(Model(), at, scene);
      pointer := at;
      var hits := HitTest(scene, objects, pointer);
      if |hits| > 0 {
        var target := if transformGroup then objects[0] else hits[0];
        plane := FromNormalAndPoint(scene.viewDirection, scene.worldPosition(target));
        StartDrag(target, scene);
      }
    }

    /** Listener for `touchend`. */
    method OnTouchEnd()
      requires Valid()
      modifies this
      ensures Model() == DragSpec.OnTouchEnd(old(Model()))
      ensures Valid()
    {
      DragInvariant.CancelConsistent(Model());
      EndDrag();
      cursor := DragSpec.CursorAuto;
    }
  }
}
