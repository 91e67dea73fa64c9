/**
 * The two overlay windows of FloatingPetService (the floating clock and the
 * dismiss target), the flags that remember whether each is attached, and
 * the calls the service makes on the WindowManager. `Replay` is the window
 * manager's side of the contract: adding an attached view or removing a
 * detached one is an error there.
 */
module Overlay {
  import opened Wrappers
  import opened Geometry

  datatype View = Floating | Target

  /** `isViewAdded` and `dismissTargetShowing`. */
  datatype Windows = Windows(viewAdded: bool, targetShowing: bool)

  /** The platform calls the core requests, in order. */
  datatype Effect =
    | AddView(view: View)
    | RemoveView(view: View)
    | UpdateLayout(position: Point)      // `updateViewLayout` of the floating view
    | SetScale(scale: real)              // `scaleX`/`scaleY` of the floating view
    | AnimateDismiss(flight: Flight)     // `animateAndRemove` starts an animator
    | StopSelf

  const Detached := Windows(false, false)

  function Flag(w: Windows, v: View): bool {
    match v
    case Floating => w.viewAdded
    case Target => w.targetShowing
  }

  function SetFlag(w: Windows, v: View, b: bool): Windows {
    match v
    case Floating => w.(viewAdded := b)
    case Target => w.(targetShowing := b)
  }

  /** The window manager's view of a call sequence: the attachment it ends
      in, or None if some call adds an attached view, removes a detached one,
      or updates the layout of a detached floating view (all three throw).
      Other calls leave attachment as it is. */
  function Replay(w: Windows, effects: seq<Effect>): (r: Option<Windows>)
    decreases |effects|
  {
    if |effects| == 0 then Some(w)
    else match effects[0]
      case AddView(v) => if Flag(w, v) then None else Replay(SetFlag(w, v, true), effects[1..])
      case RemoveView(v) => if !Flag(w, v) then None else Replay(SetFlag(w, v, false), effects[1..])
      case UpdateLayout(_) => if !w.viewAdded then None else Replay(w, effects[1..])
      case _ => Replay(w, effects[1..])
  }

  /** Replaying two call sequences one after the other. */
  lemma {:induction false} ReplayConcat(w: Windows, a: seq<Effect>, b: seq<Effect>)
    ensures Replay(w, a + b) == if Replay(w, a).None? then None else Replay(Replay(w, a).value, b)
    decreases |a|
  {
    if |a| > 0 {
      assert (a + b)[0] == a[0] && (a + b)[1..] == a[1..] + b;
      match a[0]
      case AddView(v) => {
        if !Flag(w, v) { ReplayConcat(SetFlag(w, v, true), a[1..], b); }
      }
      case RemoveView(v) => {
        if Flag(w, v) { ReplayConcat(SetFlag(w, v, false), a[1..], b); }
      }
      case UpdateLayout(_) => {
        if w.viewAdded { ReplayConcat(w, a[1..], b); }
      }
      case _ => ReplayConcat(w, a[1..], b);
    } else {
      assert a + b == b;
    }
  }

  function Bit(b: bool): int {
    if b then 1 else 0
  }

  /** Adds of `v` minus removes of `v` in a call sequence. */
  function Balance(effects: seq<Effect>, v: View): int {
    multiset(effects)[AddView(v)] as int - multiset(effects)[RemoveView(v)] as int
  }

  /** A legal call sequence changes each view's attachment by exactly its
      balance of adds over removes. */
  lemma {:induction false} ReplayBalance(w: Windows, effects: seq<Effect>, v: View)
    requires Replay(w, effects).Some?
    ensures Balance(effects, v) == Bit(Flag(Replay(w, effects).value, v)) - Bit(Flag(w, v))
    decreases |effects|
  {
    if |effects| > 0 {
      var e := effects[0];
      var rest := effects[1..];
      assert effects == [e] + rest;
      BalanceCons(e, rest, v);
      match e
      case AddView(u) => {
        assert Replay(w, effects) == Replay(SetFlag(w, u, true), rest);
        ReplayBalance(SetFlag(w, u, true), rest, v);
      }
      case RemoveView(u) => {
        assert Replay(w, effects) == Replay(SetFlag(w, u, false), rest);
        ReplayBalance(SetFlag(w, u, false), rest, v);
      }
      case _ => {
        assert Replay(w, effects) == Replay(w, rest);
        ReplayBalance(w, rest, v);
      }
    }
  }

  lemma BalanceCons(e: Effect, rest: seq<Effect>, v: View)
    ensures Balance([e] + rest, v)
         == Balance(rest, v) + (if e == AddView(v) then 1 else if e == RemoveView(v) then -1 else 0)
  {
    assert multiset([e] + rest) == multiset([e]) + multiset(rest);
  }

  /** Starting with both views detached, a legal call sequence alternates
      adds and removes of each view: every prefix has added it at most once
      more than it removed it, and never removed it more often. */
  lemma {:induction false} AlternatesFromDetached(effects: seq<Effect>, v: View, k: nat)
    requires Replay(Detached, effects).Some?
    requires k <= |effects|
    ensures 0 <= Balance(effects[..k], v) <= 1
  {
    assert effects == effects[..k] + effects[k..];
    ReplayConcat(Detached, effects[..k], effects[k..]);
    ReplayBalance(Detached, effects[..k], v);
  }

  /** `showDismissTarget`: adds the target only when it is not showing. */
  function ShowDismissTarget(w: Windows): (r: (Windows, seq<Effect>))
    ensures Replay(w, r.1) == Some(r.0)
    ensures r.0.targetShowing && r.0.viewAdded == w.viewAdded
    ensures w.targetShowing <==> r.1 == []
  {
    if !w.targetShowing then (w.(targetShowing := true), [AddView(Target)]) else (w, [])
  }

  /** `hideDismissTarget`: removes the target only when it is showing. */
  function HideDismissTarget(w: Windows): (r: (Windows, seq<Effect>))
    ensures Replay(w, r.1) == Some(r.0)
    ensures !r.0.targetShowing && r.0.viewAdded == w.viewAdded
    ensures !w.targetShowing <==> r.1 == []
  {
    if w.targetShowing then (w.(targetShowing := false), [RemoveView(Target)]) else (w, [])
  }

  /** `showFloatingView`: adds the floating view only when it is not added. */
  function ShowFloatingView(w: Windows): (r: (Windows, seq<Effect>))
    ensures Replay(w, r.1) == Some(r.0)
    ensures r.0.viewAdded && r.0.targetShowing == w.targetShowing
    ensures w.viewAdded <==> r.1 == []
  {
    if !w.viewAdded then (w.(viewAdded := true), [AddView(Floating)]) else (w, [])
  }

  /** `removeFloatingView`: removes the floating view if it is added, then
      hides the dismiss target. */
  function RemoveFloatingView(w: Windows): (r: (Windows, seq<Effect>))
    ensures Replay(w, r.1) == Some(r.0)
    ensures r.0 == Detached
    ensures r.1 == [] <==> w == Detached
  {
    var (w1, e1) := if w.viewAdded then (w.(viewAdded := false), [RemoveView(Floating)]) else (w, []);
    var (w2, e2) := HideDismissTarget(w1);
    ReplayConcat(w, e1, e2);
    (w2, e1 + e2)
  }

  /** Showing or hiding twice is the same as doing it once: the second call
      requests nothing. */
  lemma ShowHideIdempotent(w: Windows)
    ensures ShowDismissTarget(ShowDismissTarget(w).0) == (ShowDismissTarget(w).0, [])
    ensures HideDismissTarget(HideDismissTarget(w).0) == (HideDismissTarget(w).0, [])
    ensures ShowFloatingView(ShowFloatingView(w).0) == (ShowFloatingView(w).0, [])
    ensures RemoveFloatingView(RemoveFloatingView(w).0) == (Detached, [])
  {
  }
}
