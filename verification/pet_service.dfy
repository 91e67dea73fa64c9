/**
 * FloatingPetService as a whole: its fields, and one function per entry
 * point the platform calls (start commands, the Handler running the posted
 * countdown runnable, touch events on the floating view, frames and the end
 * of a dismiss animation, and `onDestroy`). Each entry point returns the new
 * fields and the platform calls it makes, in order.
 */
module PetService {
  import opened Wrappers
  import opened Numeric
  import opened Geometry
  import opened Overlay
  import Countdown
  import ClockFace
  import Gesture
  import Commands

  /** A dismiss animator: the flight it animates and whether it still runs. */
  datatype Animator = Animator(flight: Flight, running: bool)

  /** The service's fields: the countdown, the clock view, the timer text
      view (text and visibility), the window flags, the touch listener's
      state (which holds the floating view's layout position), the floating
      view's scale, and every dismiss animator started so far. */
  datatype Service = Service(
    timer: Countdown.Timer,
    clock: ClockFace.Clock,
    text: string,
    textVisible: bool,
    windows: Windows,
    touch: Gesture.Touch,
    scale: real,
    animators: seq<Animator>)

  /** After `onCreate`: nothing posted or attached, scale 1. The text view's
      initial text and visibility come from the layout resource. */
  function Created(text: string, textVisible: bool): (s: Service)
    ensures Inv(s) && s.windows == Detached && !s.timer.pending
  {
    Service(Countdown.Initial, ClockFace.Default, text, textVisible, Detached, Gesture.Created, 1.0, [])
  }

  /** What every reachable state satisfies. */
  predicate Inv(s: Service) {
    Countdown.Valid(s.timer)
  }

  /** The calls the platform makes on the service. */
  datatype Input =
    | StartCommand(intent: Option<Commands.ServiceIntent>)   // `onStartCommand`
    | TimerCommand(command: string)                          // `handleTimerCommand`
    | HandlerRun                 // the Handler runs the posted runnable, if any
    | TouchEvent(event: Gesture.Event)                       // to the floating view
    | AnimationFrame(animator: nat, scale: real)             // an update callback
    | AnimationEnd(animator: nat)                            // `onAnimationEnd`
    | Destroy                                                // `onDestroy`

  /** `startTimer`: drops any posted runnable, sets the remaining time (in
      64 bits), shows the text, sets the clock's minutes, attaches the
      floating view and posts a fresh runnable. */
  function StartTimer(s: Service, minutes: Int32): (r: (Service, seq<Effect>))
    ensures Replay(s.windows, r.1) == Some(r.0.windows)
    ensures r.0.timer == Countdown.Start(minutes)
    ensures r.0.textVisible && r.0.windows.viewAdded
    ensures r.0.windows.targetShowing == s.windows.targetShowing
    ensures r.0.clock.totalMinutes == minutes && r.0.clock.progress == s.clock.progress
    ensures r.0.text == s.text && r.0.touch == s.touch && r.0.animators == s.animators
  {
    var (w, shown) := ShowFloatingView(s.windows);
    (s.(timer := Countdown.Start(minutes), textVisible := true,
        clock := ClockFace.SetTotalMinutes(s.clock, minutes), windows := w), shown)
  }

  /** `stopTimer` (which nothing in the service calls): drops the posted
      runnable, clears the time, the progress and the text, and detaches
      both views. */
  function StopTimer(s: Service): (r: (Service, seq<Effect>))
    ensures Replay(s.windows, r.1) == Some(r.0.windows)
    ensures !r.0.timer.pending && r.0.timer.remaining == 0
    ensures r.0.clock.progress == 0.0 && !r.0.textVisible && r.0.windows == Detached
  {
    var (w, removed) := RemoveFloatingView(s.windows);
    (s.(timer := Countdown.Stop(s.timer), clock := ClockFace.SetProgress(s.clock, 0.0),
        textVisible := false, windows := w), removed)
  }

  /** The posted runnable runs: while time remains it shows the progress and
      the label the countdown emits (see `Countdown.Tick` for their values)
      and re-posts itself; otherwise it empties the clock, hides the
      text and detaches both views. With nothing posted, nothing happens. */
  function RunTimer(s: Service): (r: (Service, seq<Effect>))
    requires Inv(s)
    ensures Replay(s.windows, r.1) == Some(r.0.windows)
    ensures !s.timer.pending ==> r == (s, [])
    ensures s.timer.pending && s.timer.remaining > 0 ==>
              && r.0.timer == s.timer.(remaining := s.timer.remaining - 1000)
              && r.0.text == Countdown.Label(s.timer.remaining)
              && r.0.clock.progress == Countdown.Tick(s.timer).1.Progress()
              && r.0.windows == s.windows && r.1 == []
    ensures s.timer.pending && s.timer.remaining <= 0 ==>
              && !r.0.timer.pending && r.0.clock.progress == 0.0 && !r.0.textVisible
              && r.0.windows == Detached
  {
    if !s.timer.pending then (s, [])
    else
      var next := Countdown.Tick(s.timer);
      if next.1.Show? then
        Countdown.TickProgress(s.timer);
        Showing(s, next.0, next.1.Progress(), next.1.Text())
      else Finishing(s, next.0)
  }

  /** The runnable's display branch: the clock and the text take the new
      values; no window call. */
  function Showing(s: Service, t: Countdown.Timer, progress: real, text: string): (r: (Service, seq<Effect>))
    requires 0.0 <= progress <= 1.0
    ensures r.1 == [] && r.0.windows == s.windows && r.0.timer == t
    ensures r.0.clock.progress == progress && r.0.text == text
  {
    (s.(timer := t, clock := ClockFace.SetProgress(s.clock, progress), text := text), [])
  }

  /** The runnable's terminal branch: empty clock, hidden text, both views detached. */
  function Finishing(s: Service, t: Countdown.Timer): (r: (Service, seq<Effect>))
    ensures Replay(s.windows, r.1) == Some(r.0.windows)
    ensures r.0.timer == t && r.0.clock.progress == 0.0 && !r.0.textVisible
    ensures r.0.windows == Detached
  {
    var (w, removed) := RemoveFloatingView(s.windows);
    (s.(timer := t, clock := ClockFace.SetProgress(s.clock, 0.0), textVisible := false,
        windows := w), removed)
  }

  /** A touch event reaches the listener only while the floating view is
      attached; a MOVE over the dismiss target starts a new animator. */
  function Touch(s: Service, e: Gesture.Event): (r: (Service, seq<Effect>))
    ensures Replay(s.windows, r.1) == Some(r.0.windows)
    ensures !s.windows.viewAdded ==> r == (s, [])
    ensures r.0.timer == s.timer && r.0.windows.viewAdded == s.windows.viewAdded
    ensures |r.0.animators| == |s.animators| || |r.0.animators| == |s.animators| + 1
    ensures r.0.animators[..|s.animators|] == s.animators
  {
    if !s.windows.viewAdded then (s, [])
    else
      var o := Gesture.Step(s.touch, s.windows, e);
      var started := if |o.effects| > 0 && o.effects[|o.effects| - 1].AnimateDismiss?
                     then [Animator(o.effects[|o.effects| - 1].flight, true)] else [];
      (s.(touch := o.touch, windows := o.windows, animators := s.animators + started), o.effects)
  }

  /** One update of a running animator: the view takes the scale and moves
      to the frame's position; the layout update is attempted only while the
      view is attached (otherwise it throws and the exception is swallowed). */
  function AnimateFrame(s: Service, k: nat, scale: real): (r: (Service, seq<Effect>))
    ensures Replay(s.windows, r.1) == Some(r.0.windows)
    ensures r.0.windows == s.windows && r.0.timer == s.timer
    ensures k < |s.animators| && s.animators[k].running ==>
              && r.0.scale == scale
              && r.0.touch.position == Frame(s.animators[k].flight, scale)
              && (UpdateLayout(r.0.touch.position) in r.1 <==> s.windows.viewAdded)
    ensures !(k < |s.animators| && s.animators[k].running) ==> r == (s, [])
  {
    if k < |s.animators| && s.animators[k].running then
      var p := Frame(s.animators[k].flight, scale);
      var moved := if s.windows.viewAdded then [UpdateLayout(p)] else [];
      ReplayConcat(s.windows, [SetScale(scale)], moved);
      (s.(scale := scale, touch := s.touch.(position := p)), [SetScale(scale)] + moved)
    else (s, [])
  }

  /** The end of a running animator: detach both views and stop the service. */
  function AnimateEnd(s: Service, k: nat): (r: (Service, seq<Effect>))
    ensures Replay(s.windows, r.1) == Some(r.0.windows)
    ensures k < |s.animators| && s.animators[k].running ==>
              && r.0.windows == Detached && |r.1| > 0 && r.1[|r.1| - 1] == StopSelf
              && |r.0.animators| == |s.animators| && !r.0.animators[k].running
              && r.0.timer == s.timer
    ensures !(k < |s.animators| && s.animators[k].running) ==> r == (s, [])
  {
    if k < |s.animators| && s.animators[k].running then
      var (w, removed) := RemoveFloatingView(s.windows);
      ReplayConcat(s.windows, removed, [StopSelf]);
      (s.(windows := w, animators := s.animators[k := Animator(s.animators[k].flight, false)]),
       removed + [StopSelf])
    else (s, [])
  }

  /** `onDestroy`: drops the posted runnable and detaches both views. */
  function Destroy(s: Service): (r: (Service, seq<Effect>))
    ensures Replay(s.windows, r.1) == Some(r.0.windows)
    ensures !r.0.timer.pending && r.0.windows == Detached
    ensures r.0.timer.remaining == s.timer.remaining
  {
    var (w, removed) := RemoveFloatingView(s.windows);
    (s.(timer := s.timer.(pending := false), windows := w), removed)
  }

  /** Starts a timer when a request produced minutes; otherwise does nothing. */
  function StartIfSome(s: Service, minutes: Option<Int32>): (r: (Service, seq<Effect>))
    ensures Replay(s.windows, r.1) == Some(r.0.windows)
    ensures minutes.None? ==> r == (s, [])
    ensures minutes.Some? ==> r == StartTimer(s, minutes.value)
  {
    match minutes
    case None => (s, [])
    case Some(m) => StartTimer(s, m)
  }

  /** The service's handling of one input. */
  function Deliver(s: Service, input: Input): (r: (Service, seq<Effect>))
    requires Inv(s)
    ensures Inv(r.0)
    ensures Replay(s.windows, r.1) == Some(r.0.windows)
  {
    match input
    case StartCommand(intent) => StartIfSome(s, Commands.StartCommandMinutes(intent))
    case TimerCommand(command) => StartIfSome(s, Commands.TimerCommandMinutes(command))
    case HandlerRun => RunTimer(s)
    case TouchEvent(e) => Touch(s, e)
    case AnimationFrame(k, scale) => AnimateFrame(s, k, scale)
    case AnimationEnd(k) => AnimateEnd(s, k)
    case Destroy => Destroy(s)
  }

  /** Delivering a sequence of inputs: the final state and every call made. */
  function Run(s: Service, inputs: seq<Input>): (r: (Service, seq<Effect>))
    requires Inv(s)
    ensures Inv(r.0)
    decreases |inputs|
  {
    if |inputs| == 0 then (s, [])
    else
      var (s1, e1) := Deliver(s, inputs[0]);
      var (s2, e2) := Run(s1, inputs[1..]);
      (s2, e1 + e2)
  }

  /** Whatever the platform delivers, the service never adds a view that is
      attached, removes one that is not, or moves the floating view outside
      a try while it is detached; the window flags always match what the
      window manager holds. */
  lemma {:induction false} RunIsLegal(s: Service, inputs: seq<Input>)
    requires Inv(s)
    ensures Replay(s.windows, Run(s, inputs).1) == Some(Run(s, inputs).0.windows)
    decreases |inputs|
  {
    if |inputs| > 0 {
      var (s1, e1) := Deliver(s, inputs[0]);
      RunIsLegal(s1, inputs[1..]);
      ReplayConcat(s.windows, e1, Run(s1, inputs[1..]).1);
    }
  }

  /** From a freshly created service, each view is added and removed in
      strict alternation, starting with an add. */
  lemma {:induction false} ViewsAlternate(text: string, visible: bool, inputs: seq<Input>, v: View, k: nat)
    requires k <= |Run(Created(text, visible), inputs).1|
    ensures 0 <= Balance(Run(Created(text, visible), inputs).1[..k], v) <= 1
  {
    RunIsLegal(Created(text, visible), inputs);
    AlternatesFromDetached(Run(Created(text, visible), inputs).1, v, k);
  }

  /** A start request replaces whatever timer was running: the new countdown
      depends only on the requested minutes. */
  lemma StartReplacesTimer(s: Service, s': Service, m: Int32)
    requires Inv(s) && Inv(s') && m > 0
    ensures var intent := Some(Commands.ServiceIntent(Some(Commands.StartTimerAction), Some(m)));
      Deliver(s, StartCommand(intent)).0.timer == Deliver(s', StartCommand(intent)).0.timer
      == Countdown.Start(m)
  {
  }

  /** A text command for zero minutes is accepted: it attaches the view and
      the first run of the countdown detaches it again. */
  lemma ZeroMinuteCommand(s: Service, command: string)
    requires Inv(s) && Commands.TimerCommandMinutes(command) == Some(0)
    ensures var (s1, e1) := Deliver(s, TimerCommand(command));
      && s1.windows.viewAdded && s1.timer.pending
      && var (s2, _) := Deliver(s1, HandlerRun);
      && s2.windows == Detached && !s2.timer.pending && !s2.textVisible
  {
  }

  /** The countdown's last run detaches the views even in the middle of a
      drag, and the text is hidden. */
  lemma FinishDetaches(s: Service)
    requires Inv(s) && s.timer.pending && s.timer.remaining <= 0
    ensures Deliver(s, HandlerRun).0.windows == Detached
    ensures !Deliver(s, HandlerRun).0.textVisible
    ensures Deliver(s, HandlerRun).0.clock.progress == 0.0
  {
  }

  /** A frame of an animator that outlives the floating view (the timer ran
      out, or another animator ended first) still scales and repositions it
      but makes no layout call. */
  lemma LateFrameIsHarmless(s: Service, k: nat, scale: real)
    requires k < |s.animators| && s.animators[k].running && !s.windows.viewAdded
    ensures AnimateFrame(s, k, scale).1 == [SetScale(scale)]
  {
  }
}
