# Timer Friend — a Dafny model of the floating countdown

Timer Friend is an Android app. It shows a floating "pet" over other apps: a pie-chart clock with an `m:ss` label that counts a timer down.
- The user drags the pet around the screen.
- Dropping it onto a dismiss target at the bottom animates it into the target and removes it.
- Timers start in three ways:
  - a text command such as "set a timer for 5 minutes";
  - a `START_TIMER` intent;
  - a deep link `/timer/<seconds>` or a system `SET_TIMER` intent, which the launcher activity turns into a `START_TIMER` intent.

This project models three files: the service that owns the countdown, the two overlay windows and the touch listener; the activity's intent handling; and the clock view. It proves properties of the model. Every platform object is replaced by the state the code reads and writes:
- The window manager's calls become a list of `Effect`s. `Overlay.Replay` gives them a meaning: it fails on an illegal call, such as adding a view that is already attached.
- The handler's posted runnable becomes a `pending` flag.
- An animator becomes a stored flight plus the scale values it reports.

Modules:
- **Numeric** — Kotlin integer and float semantics: 32-bit wrap-around, division that truncates toward zero, `Float.toInt` (truncating and saturating), and `coerceIn(0f, 1f)`.
- **Decimal** — decimal digit strings: `%d`, `%02d`, and `toIntOrNull` on a run of digits.
- **Text** — `String.contains` and `String.split` on one delimiter. Split and join are inverses.
- **Geometry** — the view rectangle, `Rect.intersect` as strict overlap, a view's centre, and the dismiss flight's per-frame position.
- **Overlay** — the two overlay windows, the calls made on them, and their replay semantics. It also has `showDismissTarget`, `hideDismissTarget`, `showFloatingView` and `removeFloatingView`.
- **Countdown** — `startTimer`, `stopTimer` and the countdown runnable as a pure tick function. It covers the label and progress each tick shows, and the whole schedule of a timer.
- **ClockFace** — `TimerClockView`: its progress clamp, its sweep angle, its minute labels and their angles, and its arc rectangle.
- **Gesture** — the touch listener as a step function: DOWN, MOVE, UP/CANCEL and others.
- **Commands** — `handleTimerCommand` and `onStartCommand`.
- **Launcher** — `MainActivity.handleIntent`, `extractDurationFromUri` and the activity's `startTimer`.
- **PetService** — the service as a whole: one function per platform callback, composed over any sequence of inputs.

## Model

| member | source | states |
|---|---|---|
| Numeric.Wrap32 | app/src/main/java/com/example/timerfriend/FloatingPetService.kt:107-108 | Int addition wraps modulo 2^32 and agrees with the exact sum whenever that sum fits an Int |
| Numeric.TruncDiv | app/src/main/java/com/example/timerfriend/MainActivity.kt:87 | integer division rounds toward zero: for a non-negative dividend the quotient is the floor, for a negative one the ceiling |
| Numeric.FloatToInt | app/src/main/java/com/example/timerfriend/FloatingPetService.kt:107 | `Float.toInt` truncates toward zero inside the Int range and saturates at IntMin/IntMax outside it |
| Numeric.Clamp01 | app/src/main/java/com/example/timerfriend/TimerClockView.kt:63 | `coerceIn(0f, 1f)` lands in [0, 1], keeps values already inside, and sends values below/above to 0/1 |
| Decimal.Render | app/src/main/java/com/example/timerfriend/FloatingPetService.kt:255 | `%d` of a non-negative number is a digit run without leading zeros, one character long exactly for numbers below 10 |
| Decimal.Pad2 | app/src/main/java/com/example/timerfriend/FloatingPetService.kt:255 | `%02d` of a number below 100 is exactly two digits whose value is that number |
| Decimal.ToIntOrNull | app/src/main/java/com/example/timerfriend/MainActivity.kt:125 | a digit run parses exactly when its value fits an Int, and then to that value |
| Decimal.ValueOfRender | app/src/main/java/com/example/timerfriend/FloatingPetService.kt:255 | parsing a rendered number gives the number back |
| Decimal.RenderOfValue | app/src/main/java/com/example/timerfriend/FloatingPetService.kt:255 | rendering the value of a digit run without leading zeros gives the run back |
| Decimal.RenderInjective | app/src/main/java/com/example/timerfriend/FloatingPetService.kt:255 | distinct numbers render differently |
| Text.Split | app/src/main/java/com/example/timerfriend/FloatingPetService.kt:273 | `split(" ")` gives at least one piece, no piece holds the delimiter, and joining the pieces with it rebuilds the string |
| Text.SplitJoin | app/src/main/java/com/example/timerfriend/FloatingPetService.kt:273 | splitting a join of delimiter-free pieces gives exactly those pieces (the other half of the round trip) |
| Text.ContainsAnywhere | app/src/main/java/com/example/timerfriend/FloatingPetService.kt:272 | `contains` finds a string wherever it appears, whatever surrounds it |
| Commands.FirstNumberToken | app/src/main/java/com/example/timerfriend/FloatingPetService.kt:273 | `find` returns the leftmost all-digit word: every earlier word has a non-digit, and None means no word is all digits |
| Commands.TimerCommandMinutes | app/src/main/java/com/example/timerfriend/FloatingPetService.kt:271-276 | a command yields minutes only if it contains both "timer" and "minute", and the minutes are never negative |
| Commands.CommandReadsFirstNumber | app/src/main/java/com/example/timerfriend/FloatingPetService.kt:271-276 | in a command of space-free words, the first all-digit word, leading zeros included, decides the minutes: `toIntOrNull` of it, whatever numbers follow |
| Commands.CommandReadsRenderedNumber | app/src/main/java/com/example/timerfriend/FloatingPetService.kt:271-276 | when that first number word is written without leading zeros, the minutes are its value if it fits an Int, otherwise nothing |
| Commands.CommandWithoutNumber | app/src/main/java/com/example/timerfriend/FloatingPetService.kt:273-276 | a command with no all-digit word starts nothing, even with both keywords |
| Commands.LeadingZeroCommand | app/src/main/java/com/example/timerfriend/FloatingPetService.kt:271-276 | "timer 05 minutes" asks for five minutes |
| Commands.ZeroIsNotRejected | app/src/main/java/com/example/timerfriend/FloatingPetService.kt:271-276 | "timer 0 minutes" asks for a zero-minute timer; the text path has no positivity check |
| Commands.CommandNeedsKeywords | app/src/main/java/com/example/timerfriend/FloatingPetService.kt:272 | a command missing either keyword starts nothing |
| Commands.StartCommandMinutes | app/src/main/java/com/example/timerfriend/FloatingPetService.kt:278-288 | a timer starts exactly for a START_TIMER intent whose TIMER_MINUTES extra (default 0) is positive, and for that many minutes |
| Countdown.MinutesToMillis | app/src/main/java/com/example/timerfriend/FloatingPetService.kt:235 | the 64-bit duration of a minute count is a whole number of minutes equal to the count |
| Countdown.Start | app/src/main/java/com/example/timerfriend/FloatingPetService.kt:231-240 | starting (with the 64-bit product intended) posts a countdown whose remaining and start time are both `minutes * 60000` |
| Countdown.StartAsWritten | app/src/main/java/com/example/timerfriend/FloatingPetService.kt:235 | the start as written: the remaining time equals the start time and is a whole number of seconds that fits an Int and is congruent to `minutes * 60` modulo 2^32, the Int product wrapped |
| Countdown.StartAsWrittenAgrees | app/src/main/java/com/example/timerfriend/FloatingPetService.kt:235 | for minutes between -35791394 and 35791394 the written and the intended start coincide |
| Countdown.StartAsWrittenOverflows | app/src/main/java/com/example/timerfriend/FloatingPetService.kt:235 | 71582789 minutes gives a 44-second countdown instead of 4294967340000 ms |
| Countdown.StartAsWrittenGoesNegative | app/src/main/java/com/example/timerfriend/FloatingPetService.kt:231-264 | 35791395 minutes gives a negative remaining time, so the first run finishes the timer at once |
| Countdown.Stop | app/src/main/java/com/example/timerfriend/FloatingPetService.kt:223-229 | stopping removes the posted runnable and zeroes the remaining time |
| Countdown.Label | app/src/main/java/com/example/timerfriend/FloatingPetService.kt:253-255 | the label ends in a colon followed by exactly two characters, after at least one minute digit |
| Countdown.LabelRoundTrip | app/src/main/java/com/example/timerfriend/FloatingPetService.kt:253-256 | reading back the `m:ss` label gives the whole minutes and the seconds within the minute of the remaining time |
| Countdown.LabelSameIffSameSecond | app/src/main/java/com/example/timerfriend/FloatingPetService.kt:253-256 | two remaining times show the same label if and only if they lie in the same whole second |
| Countdown.LabelOfWholeMinutes | app/src/main/java/com/example/timerfriend/FloatingPetService.kt:253-256 | a whole number of minutes shows as `<minutes>:00` |
| Countdown.LabelExamples | app/src/main/java/com/example/timerfriend/FloatingPetService.kt:253-256 | 75 s shows "1:15" and 5 s shows "0:05" (seconds zero-padded, minutes not) |
| Countdown.LabelPastAnHour | app/src/main/java/com/example/timerfriend/FloatingPetService.kt:253-256 | minutes are not wrapped into hours: 3661 s shows "61:01" |
| Countdown.LabelOneSecond | app/src/main/java/com/example/timerfriend/FloatingPetService.kt:253-256 | the last second shows "0:01" |
| Countdown.Tick | app/src/main/java/com/example/timerfriend/FloatingPetService.kt:247-264 | while time remains, a run shows the current remaining time against the start time and re-posts one second less; otherwise it finishes and posts nothing more |
| Countdown.TickProgress | app/src/main/java/com/example/timerfriend/FloatingPetService.kt:249-250 | the progress shown is in (0, 1] and equals remaining / start time |
| Countdown.TraceFrom | app/src/main/java/com/example/timerfriend/FloatingPetService.kt:247-264 | from k seconds left, n runs show k, k-1, … 1 seconds and then one Finish, and nothing after it |
| Countdown.CountdownSchedule | app/src/main/java/com/example/timerfriend/FloatingPetService.kt:242-269 | an m-minute timer shows 60m labels, one per second from m:00 down to 0:01, then finishes |
| Countdown.FirstShown | app/src/main/java/com/example/timerfriend/FloatingPetService.kt:231-256 | the first run of an m-minute timer shows `<m>:00` at full progress |
| Countdown.LastShown | app/src/main/java/com/example/timerfriend/FloatingPetService.kt:247-256 | the last label shown is "0:01", with progress one second over the whole duration; the pie never shows empty before finishing |
| Countdown.CountdownEnds | app/src/main/java/com/example/timerfriend/FloatingPetService.kt:242-269 | an m-minute timer runs exactly 60m + 1 times: first `<m>:00` at full progress, last label "0:01", then Finish |
| Countdown.ProgressDecreases | app/src/main/java/com/example/timerfriend/FloatingPetService.kt:247-259 | the progress shown strictly decreases from run to run |
| ClockFace.SetProgress | app/src/main/java/com/example/timerfriend/TimerClockView.kt:62-65 | the stored progress is the argument clamped to [0, 1]; the total is unchanged |
| ClockFace.SetProgressIdempotent | app/src/main/java/com/example/timerfriend/TimerClockView.kt:62-63 | setting the same progress twice is the same as once, and a later set overrides an earlier one |
| ClockFace.SetTotalMinutes | app/src/main/java/com/example/timerfriend/TimerClockView.kt:71-74 | the total becomes the given minutes and the progress is kept |
| ClockFace.Sweep | app/src/main/java/com/example/timerfriend/TimerClockView.kt:106-107 | with progress in [0, 1] and a non-negative total, the pie sweeps between 0 and 6 degrees per total minute |
| ClockFace.SweepFacts | app/src/main/java/com/example/timerfriend/TimerClockView.kt:106-107 | the sweep is 6° × minutes × progress, grows with progress, is a full circle for 60 minutes at full progress, and is 0 at no progress |
| ClockFace.Numbers | app/src/main/java/com/example/timerfriend/TimerClockView.kt:52 | twelve numeric labels |
| ClockFace.Angles | app/src/main/java/com/example/timerfriend/TimerClockView.kt:53 | twelve marker angles, the first at 12 o'clock (-90°), each 30° after the previous one |
| ClockFace.NumbersAreMinutes | app/src/main/java/com/example/timerfriend/TimerClockView.kt:52 | label i reads 5·i minutes; labels are distinct and run from "0" to "55" |
| ClockFace.AnglesEvenlySpaced | app/src/main/java/com/example/timerfriend/TimerClockView.kt:53 | no two of the twelve label angles coincide on the circle |
| ClockFace.MarkerMatchesSweep | app/src/main/java/com/example/timerfriend/TimerClockView.kt:52-53 | the label for 5·i minutes sits exactly where a full-progress pie of 5·i minutes ends |
| ClockFace.Radius | app/src/main/java/com/example/timerfriend/TimerClockView.kt:84 | the radius is non-negative for a real view and its diameter fits 80% of both sides |
| ClockFace.RadiusIsFortyPercent | app/src/main/java/com/example/timerfriend/TimerClockView.kt:84 | the radius is 40% of the shorter side |
| ClockFace.ArcRect | app/src/main/java/com/example/timerfriend/TimerClockView.kt:80-93 | the arc rectangle is a square of side twice the radius centred on the view |
| Geometry.RectForView | app/src/main/java/com/example/timerfriend/FloatingPetService.kt:183-192 | a view's rectangle starts at its screen location and spans its width and height (when the Int sums do not wrap) |
| Geometry.IntersectsIffSharedPixel | app/src/main/java/com/example/timerfriend/FloatingPetService.kt:116 | two non-empty rectangles intersect exactly when some pixel lies in both |
| Geometry.IntersectsSymmetric | app/src/main/java/com/example/timerfriend/FloatingPetService.kt:116 | the overlap does not depend on which view's rectangle comes first |
| Geometry.Centre | app/src/main/java/com/example/timerfriend/FloatingPetService.kt:142-145 | the target centre is its location plus half its size rounded down: exactly one coordinate value on each axis satisfies the bracket stated |
| Geometry.CentreInsideView | app/src/main/java/com/example/timerfriend/FloatingPetService.kt:142-145 | that centre lies inside the target's own rectangle |
| Geometry.FrameBetween | app/src/main/java/com/example/timerfriend/FloatingPetService.kt:158-165 | scale 1 is the start, scale 0 is the target, and every frame in between stays within the box they span |
| Geometry.TowardsIncreasing | app/src/main/java/com/example/timerfriend/FloatingPetService.kt:164-165 | toward a larger target, positions move monotonically from start to target as the scale falls |
| Geometry.TowardsDecreasing | app/src/main/java/com/example/timerfriend/FloatingPetService.kt:164-165 | toward a smaller target, positions move monotonically from start to target as the scale falls |
| Geometry.TowardsEnds | app/src/main/java/com/example/timerfriend/FloatingPetService.kt:164-165 | the interpolation is exactly the start at scale 1 and exactly the target at scale 0 |
| Geometry.DismissFlight | app/src/main/java/com/example/timerfriend/FloatingPetService.kt:140-165 | the dismiss flight starts at the floating view's location and ends on the target's centre, which lies inside the target, and every frame stays between the two |
| Overlay.ReplayBalance | app/src/main/java/com/example/timerfriend/FloatingPetService.kt:194-221 | over a legal call sequence, adds minus removes of a view equals its final attached flag minus its initial one |
| Overlay.AlternatesFromDetached | app/src/main/java/com/example/timerfriend/FloatingPetService.kt:194-221 | from a detached start every prefix of a legal sequence has added each view at most once more than removed it and never removed it more |
| Overlay.ShowDismissTarget | app/src/main/java/com/example/timerfriend/FloatingPetService.kt:194-199 | the target ends up showing via a legal call; a call is made exactly when it was not showing |
| Overlay.HideDismissTarget | app/src/main/java/com/example/timerfriend/FloatingPetService.kt:201-206 | the target ends up hidden via a legal call; a call is made exactly when it was showing |
| Overlay.ShowFloatingView | app/src/main/java/com/example/timerfriend/FloatingPetService.kt:208-213 | the floating view ends up attached via a legal call; a call is made exactly when it was not attached |
| Overlay.RemoveFloatingView | app/src/main/java/com/example/timerfriend/FloatingPetService.kt:215-221 | both views end up detached via legal calls; no call is made exactly when both were already detached |
| Overlay.ShowHideIdempotent | app/src/main/java/com/example/timerfriend/FloatingPetService.kt:194-221 | repeating any of the four helpers makes no further call |
| Gesture.Fade | app/src/main/java/com/example/timerfriend/FloatingPetService.kt:121-124 | the target's alpha is the downward drag travel over 300 px, clamped to [0, 1] |
| Gesture.FadeMonotone | app/src/main/java/com/example/timerfriend/FloatingPetService.kt:121-124 | dragging further down never makes the target fainter, and 450 px down makes it opaque |
| Gesture.Dragged | app/src/main/java/com/example/timerfriend/FloatingPetService.kt:107-108 | the new layout position is the anchor plus the truncated pointer displacement |
| Gesture.Step | app/src/main/java/com/example/timerfriend/FloatingPetService.kt:87-137 | the listener's calls are legal whenever the floating view is attached (and for any non-MOVE event), and it never attaches or detaches the floating view itself |
| Gesture.Release | app/src/main/java/com/example/timerfriend/FloatingPetService.kt:128-134 | UP/CANCEL always consume the event and end the drag; during a drag they hide the target, otherwise they change nothing |
| Gesture.DownAnchors | app/src/main/java/com/example/timerfriend/FloatingPetService.kt:89-96 | DOWN records the layout position and the pointer as the anchor and changes nothing on screen |
| Gesture.MoveThreshold | app/src/main/java/com/example/timerfriend/FloatingPetService.kt:102-105 | a MOVE shows the target and starts a drag exactly when the target is hidden and the pointer is more than 10 px away |
| Gesture.SmallMoveHidesNothing | app/src/main/java/com/example/timerfriend/FloatingPetService.kt:102-105 | a MOVE within 10 px never shows the target |
| Gesture.MoveRepositions | app/src/main/java/com/example/timerfriend/FloatingPetService.kt:107-109 | every MOVE moves the floating view to anchor plus displacement, whatever the drag state |
| Gesture.MoveFadesOrDismisses | app/src/main/java/com/example/timerfriend/FloatingPetService.kt:111-125 | while dragging, over the target the dismiss flight starts and the alpha is left alone; elsewhere the alpha follows the fade; without a drag neither happens |
| Gesture.UpIsCancel | app/src/main/java/com/example/timerfriend/FloatingPetService.kt:128-134 | UP and CANCEL are handled identically |
| Launcher.FindMatch | app/src/main/java/com/example/timerfriend/MainActivity.kt:123-124 | `find()` returns the leftmost index where `/timer/` is followed by a digit, or nothing when no index matches |
| Launcher.DigitsEnd | app/src/main/java/com/example/timerfriend/MainActivity.kt:41 | the greedy `\d+` group: every character up to the returned end is a digit and the character there, if any, is not |
| Launcher.FirstMatchAt | app/src/main/java/com/example/timerfriend/MainActivity.kt:123-124 | a match with no match before it is the one `find()` reports |
| Launcher.SlashFreeHead | app/src/main/java/com/example/timerfriend/MainActivity.kt:41 | a head without '/' cannot start a match, since every match begins with '/' |
| Launcher.ExtractDuration | app/src/main/java/com/example/timerfriend/MainActivity.kt:121-127 | a duration is found only for a path that matches, and it is never negative |
| Launcher.ExtractReadsNumber | app/src/main/java/com/example/timerfriend/MainActivity.kt:121-127 | a path `<head>/timer/<n><tail>`, where no match starts inside the head and the tail does not begin with a digit, yields n when n fits an Int and nothing when it does not |
| Launcher.ExtractDigits | app/src/main/java/com/example/timerfriend/MainActivity.kt:121-127 | under the same conditions on head and tail, the digits after the first match are read up to the first non-digit and parsed with `toIntOrNull` |
| Launcher.ExtractNeedsMatch | app/src/main/java/com/example/timerfriend/MainActivity.kt:121-127 | no path, or no match, gives no duration |
| Launcher.IntentMinutes | app/src/main/java/com/example/timerfriend/MainActivity.kt:80-112 | other actions start nothing; a VIEW link gives minutes exactly when its path yields a duration, namely that duration divided by 60; SET_TIMER gives minutes exactly for an Int or Long length: an Int length divided by 60 toward zero, a Long one the same quotient narrowed to Int (equal to it when it fits) |
| Launcher.ServiceRequest | app/src/main/java/com/example/timerfriend/MainActivity.kt:134-139 | the request the activity sends starts a timer of the same minutes in the service exactly when they are positive |
| Launcher.LaunchedMinutes | app/src/main/java/com/example/timerfriend/MainActivity.kt:80-112 | composing the activity with the service, a timer starts exactly when the intent asks for a positive number of minutes, and for that number |
| Launcher.ViewMinutes | app/src/main/java/com/example/timerfriend/MainActivity.kt:82-90 | a link `/timer/<n>` asks for n / 60 minutes and starts a timer exactly when n >= 60 |
| Launcher.ViewMinutesAfter | app/src/main/java/com/example/timerfriend/MainActivity.kt:82-90 | behind any head in which no match starts (such as `/app`), `/timer/<n>` asks for n / 60 minutes and starts a timer exactly when n >= 60 |
| Launcher.DeepLinkNinetySeconds | app/src/main/java/com/example/timerfriend/MainActivity.kt:87 | 90 s starts a one-minute timer (seconds are truncated) |
| Launcher.DeepLinkUnderAMinute | app/src/main/java/com/example/timerfriend/MainActivity.kt:87 | 59 s asks for 0 minutes, which starts nothing |
| Launcher.SetTimerLengths | app/src/main/java/com/example/timerfriend/MainActivity.kt:91-110 | SET_TIMER lengths of 150 s (Int) and 600 s (Long) give 2 and 10 minutes; -90 s rounds toward zero to -1 and starts nothing; another number type is ignored |
| PetService.Created | app/src/main/java/com/example/timerfriend/FloatingPetService.kt:41-81 | a new service has both views detached and no runnable posted |
| PetService.StartTimer | app/src/main/java/com/example/timerfriend/FloatingPetService.kt:231-240 | starting makes the text visible, attaches the floating view by a legal call, sets the clock total, and leaves progress, text, touch state and the target alone |
| PetService.StartReplacesTimer | app/src/main/java/com/example/timerfriend/FloatingPetService.kt:231-240 | a start request replaces any running timer: the new countdown depends only on the minutes requested |
| PetService.StopTimer | app/src/main/java/com/example/timerfriend/FloatingPetService.kt:223-229 | stopping empties the clock, hides the text and detaches both views by legal calls |
| PetService.RunTimer | app/src/main/java/com/example/timerfriend/FloatingPetService.kt:247-264 | a run with time left shows the label and the progress for the time left; the last run empties the clock, hides the text and detaches both views; with nothing posted nothing happens |
| PetService.Showing | app/src/main/java/com/example/timerfriend/FloatingPetService.kt:249-256 | a run with time left sets the clock's progress, the label and the countdown to the values given and makes no window call |
| PetService.Finishing | app/src/main/java/com/example/timerfriend/FloatingPetService.kt:260-264 | the finishing branch empties the clock, hides the text and detaches both views by legal calls |
| PetService.FinishDetaches | app/src/main/java/com/example/timerfriend/FloatingPetService.kt:260-264 | the final run detaches the views even during a drag |
| PetService.Touch | app/src/main/java/com/example/timerfriend/FloatingPetService.kt:87-137 | touches reach only an attached view, never change the timer or the attachment, and at most append one animator |
| PetService.AnimateFrame | app/src/main/java/com/example/timerfriend/FloatingPetService.kt:158-171 | a frame scales the view and moves it along the flight, with a legal layout call or none; frames of unknown or ended animators do nothing |
| PetService.LateFrameIsHarmless | app/src/main/java/com/example/timerfriend/FloatingPetService.kt:166-170 | a frame that arrives after the view was detached only scales it; the failing layout call is swallowed |
| PetService.AnimateEnd | app/src/main/java/com/example/timerfriend/FloatingPetService.kt:173-178 | the end of an animation detaches both views, stops the service and ends that animator |
| PetService.Destroy | app/src/main/java/com/example/timerfriend/FloatingPetService.kt:290-296 | destruction cancels the runnable and detaches both views by legal calls, leaving the remaining time as it was |
| PetService.Deliver | app/src/main/java/com/example/timerfriend/FloatingPetService.kt:194-221 | any single callback keeps the countdown invariant and issues only legal window-manager calls |
| PetService.Run | app/src/main/java/com/example/timerfriend/FloatingPetService.kt:223-296 | over any sequence of callbacks, whenever time remains it never exceeds the countdown's start time, so the progress shown never passes 1 |
| PetService.RunIsLegal | app/src/main/java/com/example/timerfriend/FloatingPetService.kt:194-221 | for any sequence of callbacks, the calls made replay legally and the service's flags match what the window manager holds |
| PetService.ViewsAlternate | app/src/main/java/com/example/timerfriend/FloatingPetService.kt:194-221 | from creation, each view is added and removed in strict alternation, starting with an add |
| PetService.ZeroMinuteCommand | app/src/main/java/com/example/timerfriend/FloatingPetService.kt:271-276 | a "0 minutes" command attaches the pet and the very next run detaches it again |

## Left out

- The handler and looper. Time is modelled as the sequence of runs of the posted runnable; the one-second delay is not modelled. `post` and `postDelayed` set a `pending` flag; `removeCallbacks` clears it.
- `ValueAnimator` timing and `AccelerateInterpolator`. Each frame's scale is an input. Only the per-frame arithmetic and the end callback are modelled.
- Float rounding. `Float` values are exact reals. A NaN or infinite pointer coordinate is not modelled. `kotlin.math.hypot` is compared by squares.
- `Rect.intersect`'s side effect of shrinking the rectangle. Only its boolean result is used: strict overlap on both axes.
- The window manager's internals, and the inflation of the layouts. The `IllegalArgumentException` of a layout update on a detached view is modelled as the frame making no call.
- `getLocationOnScreen`, `width` and `height`. These are inputs: `Gesture.Screen` and `Placement`.
- Drawing: `Canvas`, the trigonometry of the label positions (angles are kept in degrees), text bounds and paint.
- The text view's initial visibility and text from the layout resource. They are parameters of `PetService.Created`.
- The activity's overlay-permission flow, `onCreate`, `onNewIntent`, `onActivityResult` and `startFloatingService`. These are platform interaction without timer logic.
- The SDK-level branching of `getSerializableExtraCompat`. The extra is modelled as the boxed `Number` it yields.
- Logging, and the `try`/`catch` around the SET_TIMER branch. Nothing inside that branch can throw in the model.
- `onBind` and the `START_STICKY` return value.
- `stopTimer`. No code path calls it. It is modelled (`Countdown.Stop`, `PetService.StopTimer`) but is not one of the inputs of `PetService.Deliver`.
- `TimerClockView.totalMinutes` is a `Float` in the source. The model keeps the `Int` it is set from: an `Int` up to 2^24 converts exactly.
- Behaviour deliberately left as the code has it:
  - There is no tap classification and no separate dismissing state.
  - MOVE events are still handled after the dismiss animation has started, so several animators can run at once.
  - The text command accepts 0 minutes.
  - A stale runnable is not guarded by a generation counter. `startTimer` replaces it instead.
- PetService.StartTimer: the service starts the countdown with the corrected 64-bit duration (`Countdown.Start`), not with the wrapping `Int` product the source computes. Above 35791394 minutes the model therefore differs from the app. The as-written start and its consequences are stated separately; see Findings.
- PetService.StartReplacesTimer: for the same reason, the new countdown it names is the corrected `Countdown.Start(m)`.
- Commands.TimerCommandMinutes: `\d` is taken as the ASCII digits. Android's regular expressions also match other Unicode decimal digits (for example Arabic-Indic ones), which `toIntOrNull` reads too; such words are not recognised as numbers here.
- Launcher.ExtractDuration: the same ASCII-only reading of `\d` and `toIntOrNull` applies to the deep-link path.
- Countdown.Label: `String.format` uses the default locale. The label is modelled with ASCII digits, which holds for locales whose zero digit is '0' but not for, say, Arabic or Persian ones.
- Gesture.Step: its window-call legality is stated only when the floating view is attached or the event is not a MOVE. A MOVE on a detached view would call `updateViewLayout` outside a `try`. The service never delivers touches to a detached view, which `PetService.Touch` states.

## Findings

| source | as written | input that shows it | evidently intended | confidence | as-written member | corrected member |
|---|---|---|---|---|---|---|
| app/src/main/java/com/example/timerfriend/FloatingPetService.kt:235 | `minutes * 60` is evaluated in 32-bit `Int` and wraps before the widening `* 1000L` | 71582789 minutes gives a 44-second timer; 35791395 minutes gives a negative duration, so the timer finishes on its first run | the whole product computed in 64 bits: `minutes * 60_000L` | not executed | Countdown.StartAsWritten | Countdown.Start |
