/**
 * The touch listener installed by `setupTouchListener`, as a pure step
 * function from the listener's state and one pointer event to the new state,
 * the new window flags, the platform calls requested, and whether the event
 * was consumed. There is no tap classification and no terminal dismissing
 * state: MOVE events keep being handled after a dismiss animation starts.
 */
module Gesture {
  import opened Wrappers
  import opened Numeric
  import opened Geometry
  import opened Overlay

  /** Full-fade travel of the dismiss target's alpha, in pixels. */
  const FadeTravel: real := 300.0

  /** What the listener reads and writes: `initialX`/`initialY`, the
      closure's `initialTouchX`/`initialTouchY`, `startDragY`, `isDragging`,
      the floating view's layout position, and the dismiss target's alpha. */
  datatype Touch = Touch(
    initial: Point,
    touchX: real,
    touchY: real,
    startDragY: real,
    dragging: bool,
    position: Point,
    targetAlpha: real)

  /** The values set in `onCreate` (layout position (0, 100), alpha 0). */
  const Created: Touch := Touch(Point(0, 0), 0.0, 0.0, 0.0, false, Point(0, 100), 0.0)

  /** What the window manager reports while a MOVE is handled: both views'
      screen locations and sizes. */
  datatype Screen = Screen(floating: Placement, dismissTarget: Placement)

  datatype Event =
    | Down(rawX: real, rawY: real)
    | Move(rawX: real, rawY: real, screen: Screen)
    | Up
    | Cancel
    | OtherAction      // any other MotionEvent action

  datatype Outcome = Outcome(touch: Touch, windows: Windows, effects: seq<Effect>, consumed: bool)

  /** `hypot(dx, dy) > 10`, squared so that it stays in exact arithmetic. */
  predicate BeyondSlop(dx: real, dy: real) {
    dx * dx + dy * dy > 100.0
  }

  /** The dismiss target's alpha for a pointer at `rawY`: the downward travel
      since the drag started, as a fraction of 300 px, clamped to [0, 1]. */
  function Fade(rawY: real, startDragY: real): (alpha: real)
    ensures 0.0 <= alpha <= 1.0
    ensures rawY <= startDragY ==> alpha == 0.0
    ensures rawY >= startDragY + FadeTravel ==> alpha == 1.0
    ensures startDragY <= rawY <= startDragY + FadeTravel ==> alpha * FadeTravel == rawY - startDragY
  {
    Clamp01((rawY - startDragY) / FadeTravel)
  }

  /** The fade never decreases as the pointer moves down; a travel of 450 px
      gives full opacity. */
  lemma FadeMonotone(y1: real, y2: real, startDragY: real)
    requires y1 <= y2
    ensures Fade(y1, startDragY) <= Fade(y2, startDragY)
    ensures Fade(startDragY + 450.0, startDragY) == 1.0
  {
    Clamp01Monotone((y1 - startDragY) / FadeTravel, (y2 - startDragY) / FadeTravel);
  }

  /** The layout position for a pointer displacement: the position at DOWN
      plus the truncated displacement, in `Int` arithmetic. */
  function Dragged(initial: Point, dx: real, dy: real): (p: Point)
    ensures IsInt32(initial.x + FloatToInt(dx)) ==> p.x == initial.x + FloatToInt(dx)
    ensures IsInt32(initial.y + FloatToInt(dy)) ==> p.y == initial.y + FloatToInt(dy)
  {
    Point(Wrap32(initial.x + FloatToInt(dx)), Wrap32(initial.y + FloatToInt(dy)))
  }

  /** True when the two views' rectangles overlap. */
  predicate OverTarget(s: Screen) {
    Intersects(RectForView(s.floating), RectForView(s.dismissTarget))
  }

  /** The listener's handling of one event. Its calls are legal whenever the
      floating view is attached, as it is whenever it receives touches. */
  function Step(t: Touch, w: Windows, e: Event): (o: Outcome)
    ensures w.viewAdded || !e.Move? ==> Replay(w, o.effects) == Some(o.windows)
    ensures o.windows.viewAdded == w.viewAdded
  {
    match e
    case Down(x, y) =>
      Outcome(t.(initial := t.position, touchX := x, touchY := y, startDragY := y), w, [], true)
    case Move(x, y, screen) =>
      var dx := x - t.touchX;
      var dy := y - t.touchY;
      var begins := !w.targetShowing && BeyondSlop(dx, dy);
      var (w1, shown) := if begins then ShowDismissTarget(w) else (w, []);
      var pos := Dragged(t.initial, dx, dy);
      var t1 := t.(dragging := t.dragging || begins, position := pos);
      var moved := shown + [UpdateLayout(pos)];
      ReplayConcat(w, shown, [UpdateLayout(pos)]);
      if !t1.dragging then
        Outcome(t1, w1, moved, true)
      else if OverTarget(screen) then
        ReplayConcat(w, moved, [AnimateDismiss(FlightFor(screen.floating, screen.dismissTarget))]);
        Outcome(t1, w1, moved + [AnimateDismiss(FlightFor(screen.floating, screen.dismissTarget))], true)
      else
        Outcome(t1.(targetAlpha := Fade(y, t.startDragY)), w1, moved, true)
    case Up => Release(t, w)
    case Cancel => Release(t, w)
    case OtherAction => Outcome(t, w, [], false)
  }

  /** ACTION_UP and ACTION_CANCEL: end a drag and hide the target. */
  function Release(t: Touch, w: Windows): (o: Outcome)
    ensures Replay(w, o.effects) == Some(o.windows)
    ensures o.consumed && !o.touch.dragging
    ensures t.dragging ==> !o.windows.targetShowing && o.windows.viewAdded == w.viewAdded
    ensures t.dragging ==> o.touch == t.(dragging := false)
    ensures !t.dragging ==> o == Outcome(t, w, [], true)
  {
    if t.dragging then
      var (w1, hidden) := HideDismissTarget(w);
      Outcome(t.(dragging := false), w1, hidden, true)
    else Outcome(t, w, [], true)
  }

  /** DOWN records the anchor and changes nothing on screen. */
  lemma DownAnchors(t: Touch, w: Windows, x: real, y: real)
    ensures var o := Step(t, w, Down(x, y));
      && o.touch.initial == t.position && o.touch.touchX == x && o.touch.touchY == y
      && o.touch.startDragY == y && o.touch.dragging == t.dragging
      && o.touch.position == t.position && o.windows == w && o.effects == [] && o.consumed
  {
  }

  /** The drag threshold: a MOVE shows the dismiss target and starts a drag
      exactly when the target is not already showing and the pointer has
      moved strictly more than 10 px from where it went down. */
  lemma MoveThreshold(t: Touch, w: Windows, x: real, y: real, s: Screen)
    ensures var o := Step(t, w, Move(x, y, s));
      var begins := !w.targetShowing && BeyondSlop(x - t.touchX, y - t.touchY);
      && (begins <==> (|o.effects| > 0 && o.effects[0] == AddView(Target)))
      && o.windows.targetShowing == (w.targetShowing || begins)
      && o.touch.dragging == (t.dragging || begins)
      && o.windows.viewAdded == w.viewAdded
  {
  }

  /** Every MOVE moves the floating view to the anchor plus the truncated
      displacement, whatever the drag state, and requests exactly that
      layout update. */
  lemma MoveRepositions(t: Touch, w: Windows, x: real, y: real, s: Screen)
    ensures var o := Step(t, w, Move(x, y, s));
      var p := Dragged(t.initial, x - t.touchX, y - t.touchY);
      && o.touch.position == p
      && UpdateLayout(p) in o.effects
      && o.consumed
  {
  }

  /** While dragging and not over the target, the alpha follows the fade;
      over the target the dismiss animation starts from the floating view's
      location toward the target's centre and the alpha is left alone; with
      no drag, neither happens. */
  lemma MoveFadesOrDismisses(t: Touch, w: Windows, x: real, y: real, s: Screen)
    ensures var o := Step(t, w, Move(x, y, s));
      var dismiss := AnimateDismiss(FlightFor(s.floating, s.dismissTarget));
      && (o.touch.dragging && !OverTarget(s) ==> o.touch.targetAlpha == Fade(y, t.startDragY))
      && (o.touch.dragging && !OverTarget(s) ==> dismiss !in o.effects)
      && (o.touch.dragging && OverTarget(s) ==>
            o.touch.targetAlpha == t.targetAlpha && o.effects[|o.effects| - 1] == dismiss)
      && (!o.touch.dragging ==> o.touch.targetAlpha == t.targetAlpha && dismiss !in o.effects)
  {
  }

  /** UP and CANCEL are handled identically; without a drag they change nothing. */
  lemma UpIsCancel(t: Touch, w: Windows)
    ensures Step(t, w, Up) == Step(t, w, Cancel)
    ensures !t.dragging ==> Step(t, w, Up) == Outcome(t, w, [], true)
  {
  }

  /** A MOVE below the threshold never shows the dismiss target. */
  lemma SmallMoveHidesNothing(t: Touch, w: Windows, x: real, y: real, s: Screen)
    requires !BeyondSlop(x - t.touchX, y - t.touchY)
    ensures Step(t, w, Move(x, y, s)).windows == w
    ensures AddView(Target) !in Step(t, w, Move(x, y, s)).effects
  {
  }
}
