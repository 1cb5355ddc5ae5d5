/**
 * The notifications the controller dispatches, and what a log of them says
 * about the controller's hover and selection state.
 */
module Events {
  import opened Wrappers
  import opened Geometry

  datatype EventKind = HoverOn | HoverOff | DragStart | Drag | DragEnd

  /** A dispatched notification `{ type, object }`. */
  datatype Event = Event(kind: EventKind, target: ObjectId)

  predicate IsHover(e: Event) {
    e.kind == HoverOn || e.kind == HoverOff
  }

  predicate IsDrag(e: Event) {
    e.kind == DragStart || e.kind == Drag || e.kind == DragEnd
  }

  /** The hover notifications of a log, in order. */
  function HoverEvents(log: seq<Event>): (h: seq<Event>)
    ensures |h| <= |log|
    ensures forall i :: 0 <= i < |h| ==> IsHover(h[i])
  {
    if log == [] then []
    else
      var n := |log| - 1;
      HoverEvents(log[..n]) + (if IsHover(log[n]) then [log[n]] else [])
  }

  /** The drag notifications of a log, in order. */
  function DragEvents(log: seq<Event>): (d: seq<Event>)
    ensures |d| <= |log|
    ensures forall i :: 0 <= i < |d| ==> IsDrag(d[i])
  {
    if log == [] then []
    else
      var n := |log| - 1;
      DragEvents(log[..n]) + (if IsDrag(log[n]) then [log[n]] else [])
  }

  /** The object a log leaves hovered: the target of the last hover notification, when that is a hoveron. */
  function HoveredAfter(log: seq<Event>): Option<ObjectId> {
    var h := HoverEvents(log);
    if h != [] && h[|h| - 1].kind == HoverOn then Some(h[|h| - 1].target) else None
  }

  /** The object a log leaves selected: the target of the last drag notification, unless that is a dragend. */
  function SelectedAfter(log: seq<Event>): Option<ObjectId> {
    var d := DragEvents(log);
    if d != [] && d[|d| - 1].kind != DragEnd then Some(d[|d| - 1].target) else None
  }

  /** The last element of a sequence, if any. */
  function Last(s: seq<Event>): Option<Event> {
    if s == [] then None else Some(s[|s| - 1])
  }

  /**
   * Hover notification `e` may follow `prev`, the hover notification before
   * it: a hoveron never repeats the one just before it, and a hoveroff names
   * the object of the hoveron just before it.
   */
  predicate HoverFollows(prev: Option<Event>, e: Event) {
    match e.kind
    case HoverOn => prev != Some(e)
    case HoverOff => prev == Some(Event(HoverOn, e.target))
    case _ => false
  }

  /**
   * Drag notification `e` may follow `prev`, the drag notification before it:
   * a dragstart may come at any time, while a drag or a dragend continues a
   * session of the same object that is still open.
   */
  predicate DragFollows(prev: Option<Event>, e: Event) {
    match e.kind
    case DragStart => true
    case Drag | DragEnd =>
      prev.Some? && (prev.value.kind == DragStart || prev.value.kind == Drag) && prev.value.target == e.target
    case _ => false
  }

  /** Every hover notification follows the one before it. */
  predicate HoverWellFormed(h: seq<Event>)
    decreases |h|
  {
    h == [] || (HoverWellFormed(h[..|h| - 1]) && HoverFollows(Last(h[..|h| - 1]), h[|h| - 1]))
  }

  /** Every drag notification follows the one before it. */
  predicate DragWellFormed(d: seq<Event>)
    decreases |d|
  {
    d == [] || (DragWellFormed(d[..|d| - 1]) && DragFollows(Last(d[..|d| - 1]), d[|d| - 1]))
  }

  /**
   * Read index by index, well-formed hover notifications start with a hoveron;
   * each hoveroff names the object of the hoveron just before it, and no two
   * neighbouring hoverons name the same object.
   */
  lemma {:induction false} HoverWellFormedAdjacent(h: seq<Event>)
    requires HoverWellFormed(h)
    ensures h != [] ==> h[0].kind == HoverOn
    ensures forall i :: 0 < i < |h| && h[i].kind == HoverOff ==> h[i - 1] == Event(HoverOn, h[i].target)
    ensures forall i :: 0 < i < |h| && h[i].kind == HoverOn ==> h[i - 1] != h[i]
    decreases |h|
  {
    if h != [] {
      var p := h[..|h| - 1];
      HoverWellFormedAdjacent(p);
      forall i | 0 < i < |h| && h[i].kind == HoverOff
        ensures h[i - 1] == Event(HoverOn, h[i].target)
      {
        if i < |p| {
          assert h[i] == p[i] && h[i - 1] == p[i - 1];
        }
      }
      forall i | 0 < i < |h| && h[i].kind == HoverOn
        ensures h[i - 1] != h[i]
      {
        if i < |p| {
          assert h[i] == p[i] && h[i - 1] == p[i - 1];
        }
      }
      if |h| > 1 {
        assert h[0] == p[0];
      }
    }
  }

  /**
   * Read index by index, well-formed drag notifications start with a
   * dragstart, and each drag or dragend follows a dragstart or drag of the
   * same object.
   */
  lemma {:induction false} DragWellFormedAdjacent(d: seq<Event>)
    requires DragWellFormed(d)
    ensures d != [] ==> d[0].kind == DragStart
    ensures forall i :: 0 < i < |d| && (d[i].kind == Drag || d[i].kind == DragEnd) ==>
      (d[i - 1].kind == DragStart || d[i - 1].kind == Drag) && d[i - 1].target == d[i].target
    decreases |d|
  {
    if d != [] {
      var p := d[..|d| - 1];
      DragWellFormedAdjacent(p);
      forall i | 0 < i < |d| && (d[i].kind == Drag || d[i].kind == DragEnd)
        ensures (d[i - 1].kind == DragStart || d[i - 1].kind == Drag) && d[i - 1].target == d[i].target
      {
        if i < |p| {
          assert d[i] == p[i] && d[i - 1] == p[i - 1];
        }
      }
      if |d| > 1 {
        assert d[0] == p[0];
      }
    }
  }

  lemma HoverEventsAppend(log: seq<Event>, e: Event)
    ensures HoverEvents(log + [e]) == HoverEvents(log) + (if IsHover(e) then [e] else [])
  {
    assert (log + [e])[..|log|] == log;
  }

  lemma DragEventsAppend(log: seq<Event>, e: Event)
    ensures DragEvents(log + [e]) == DragEvents(log) + (if IsDrag(e) then [e] else [])
  {
    assert (log + [e])[..|log|] == log;
  }

  /** Extending a well-formed hover sequence by a notification that follows its last one. */
  lemma HoverWellFormedSnoc(h: seq<Event>, e: Event)
    requires HoverWellFormed(h) && HoverFollows(Last(h), e)
    ensures HoverWellFormed(h + [e])
  {
    assert (h + [e])[..|h|] == h;
  }

  /** Extending a well-formed drag sequence by a notification that follows its last one. */
  lemma DragWellFormedSnoc(d: seq<Event>, e: Event)
    requires DragWellFormed(d) && DragFollows(Last(d), e)
    ensures DragWellFormed(d + [e])
  {
    assert (d + [e])[..|d|] == d;
  }

  /** Announcing hoveron for an object that is not already hovered keeps the hover log well formed and makes it hovered. */
  lemma HoverOnKeepsLog(log: seq<Event>, x: ObjectId)
    requires HoverWellFormed(HoverEvents(log))
    requires HoveredAfter(log) != Some(x)
    ensures HoverWellFormed(HoverEvents(log + [Event(HoverOn, x)]))
    ensures HoveredAfter(log + [Event(HoverOn, x)]) == Some(x)
    ensures SelectedAfter(log + [Event(HoverOn, x)]) == SelectedAfter(log)
    ensures DragEvents(log + [Event(HoverOn, x)]) == DragEvents(log)
  {
    var e := Event(HoverOn, x);
    HoverEventsAppend(log, e);
    DragEventsAppend(log, e);
    HoverWellFormedSnoc(HoverEvents(log), e);
  }

  /** Announcing hoveroff for the hovered object keeps the hover log well formed and leaves nothing hovered. */
  lemma HoverOffKeepsLog(log: seq<Event>, x: ObjectId)
    requires HoverWellFormed(HoverEvents(log))
    requires HoveredAfter(log) == Some(x)
    ensures HoverWellFormed(HoverEvents(log + [Event(HoverOff, x)]))
    ensures HoveredAfter(log + [Event(HoverOff, x)]) == None
    ensures SelectedAfter(log + [Event(HoverOff, x)]) == SelectedAfter(log)
    ensures DragEvents(log + [Event(HoverOff, x)]) == DragEvents(log)
  {
    var e := Event(HoverOff, x);
    HoverEventsAppend(log, e);
    DragEventsAppend(log, e);
    HoverWellFormedSnoc(HoverEvents(log), e);
  }

  /** A dragstart may come at any time; it opens a session of its object. */
  lemma DragStartKeepsLog(log: seq<Event>, x: ObjectId)
    requires DragWellFormed(DragEvents(log))
    ensures DragWellFormed(DragEvents(log + [Event(DragStart, x)]))
    ensures SelectedAfter(log + [Event(DragStart, x)]) == Some(x)
    ensures HoveredAfter(log + [Event(DragStart, x)]) == HoveredAfter(log)
    ensures HoverEvents(log + [Event(DragStart, x)]) == HoverEvents(log)
  {
    var e := Event(DragStart, x);
    HoverEventsAppend(log, e);
    DragEventsAppend(log, e);
    DragWellFormedSnoc(DragEvents(log), e);
  }

  /** A drag of the selected object continues its session. */
  lemma DragKeepsLog(log: seq<Event>, x: ObjectId)
    requires DragWellFormed(DragEvents(log))
    requires SelectedAfter(log) == Some(x)
    ensures DragWellFormed(DragEvents(log + [Event(Drag, x)]))
    ensures SelectedAfter(log + [Event(Drag, x)]) == Some(x)
    ensures HoveredAfter(log + [Event(Drag, x)]) == HoveredAfter(log)
    ensures HoverEvents(log + [Event(Drag, x)]) == HoverEvents(log)
  {
    var e := Event(Drag, x);
    HoverEventsAppend(log, e);
    DragEventsAppend(log, e);
    DragWellFormedSnoc(DragEvents(log), e);
  }

  /** A dragend of the selected object closes its session. */
  lemma DragEndKeepsLog(log: seq<Event>, x: ObjectId)
    requires DragWellFormed(DragEvents(log))
    requires SelectedAfter(log) == Some(x)
    ensures DragWellFormed(DragEvents(log + [Event(DragEnd, x)]))
    ensures SelectedAfter(log + [Event(DragEnd, x)]) == None
    ensures HoveredAfter(log + [Event(DragEnd, x)]) == HoveredAfter(log)
    ensures HoverEvents(log + [Event(DragEnd, x)]) == HoverEvents(log)
  {
    var e := Event(DragEnd, x);
    HoverEventsAppend(log, e);
    DragEventsAppend(log, e);
    DragWellFormedSnoc(DragEvents(log), e);
  }
}
