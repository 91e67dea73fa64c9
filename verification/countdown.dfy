/**
 * The countdown of FloatingPetService: `startTimer` sets the remaining time
 * and posts a runnable; each run of the runnable either shows the progress
 * and an "m:ss" label, takes one second off and re-posts itself, or (once no
 * time remains) shows zero progress and removes the overlay without
 * re-posting. The Handler is modelled by the caller invoking `Tick` whenever
 * a runnable is posted.
 */
module Countdown {
  import opened Numeric
  import opened Wrappers
  import Decimal

  /** `remainingTimeMillis`, the `startTime` the posted runnable captured, and
      whether a runnable is currently posted on the Handler. */
  datatype Timer = Timer(remaining: int, startTime: int, pending: bool)

  /** What one run of the runnable displays: while time remains, the
      remaining and start times from which it computes the clock's progress
      and the label; otherwise the terminal "progress 0, remove the view". */
  datatype Emission = Show(remaining: int, startTime: int) | Finish
  {
    /** The progress handed to the clock, `remaining / startTime` as floats. */
    function Progress(): real
      requires Show? && startTime != 0
    {
      remaining as real / startTime as real
    }

    /** The text handed to the label. */
    function Text(): string
      requires Show? && remaining >= 0
    {
      Label(remaining)
    }
  }

  /** The field values before any timer has been started. */
  const Initial := Timer(0, 0, false)

  /** States the service can reach: while time remains, it is at most the
      captured start time, so the progress fraction is well defined. */
  predicate Valid(t: Timer) {
    t.remaining > 0 ==> t.remaining <= t.startTime
  }

  /** Milliseconds in `minutes`, computed in 64 bits (it cannot overflow). */
  function MinutesToMillis(minutes: Int32): (ms: Int64)
    ensures ms / 60000 == minutes && ms % 60000 == 0
  {
    assert -0x8000_0000 * 60000 <= minutes * 60000 <= 0x7fff_ffff * 60000;
    minutes * 60000
  }

  /** `startTimer` followed by `startCountdown`, with the product taken in
      64 bits: any posted runnable is dropped, the remaining time becomes
      the requested duration, and a fresh runnable is posted that captures
      that duration as its start time. The previous timer plays no part. */
  function Start(minutes: Int32): (t: Timer)
    ensures Valid(t) && t.pending
    ensures t.startTime == t.remaining && t.remaining == minutes * 60000
  {
    var ms := MinutesToMillis(minutes);
    Timer(ms, ms, true)
  }

  /** `startTimer` exactly as written: `minutes * 60` is an `Int` product
      that wraps before it is widened by `* 1000L`. */
  function StartAsWritten(minutes: Int32): (t: Timer)
    ensures Valid(t) && t.pending && t.startTime == t.remaining
    ensures t.remaining % 1000 == 0
    ensures IsInt32(t.remaining / 1000) && (t.remaining / 1000 - minutes * 60) % 0x1_0000_0000 == 0
  {
    var ms := Wrap32(minutes * 60) * 1000;
    Timer(ms, ms, true)
  }

  /** The two agree on every duration whose seconds fit an `Int`. */
  lemma StartAsWrittenAgrees(minutes: Int32)
    requires -35791394 <= minutes <= 35791394
    ensures StartAsWritten(minutes) == Start(minutes)
  {
  }

  /** A request for 71582789 minutes starts a 44-second timer as written. */
  lemma StartAsWrittenOverflows()
    ensures StartAsWritten(71582789).remaining == 44000
    ensures Start(71582789).remaining == 4294967340000
  {
  }

  /** A request for 35791395 minutes ends at the first tick as written. */
  lemma StartAsWrittenGoesNegative()
    ensures StartAsWritten(35791395).remaining < 0
    ensures Tick(StartAsWritten(35791395)).1 == Finish
  {
  }

  /** `stopTimer`: the posted runnable is removed and no time remains. */
  function Stop(t: Timer): (r: Timer)
    ensures !r.pending && r.remaining == 0 && Valid(r)
  {
    Timer(0, t.startTime, false)
  }

  /** The digital display: whole minutes, a colon, then the seconds of the
      current minute zero-padded to two digits (`"%d:%02d"`), written with
      ASCII digits as in a locale whose zero is '0'. */
  function Label(ms: nat): (s: string)
    ensures |s| >= 4 && s[|s| - 3] == ':'
  {
    var minutes := ms / 1000 / 60;
    var seconds := (ms / 1000) % 60;
    Decimal.Render(minutes) + ":" + Decimal.Pad2(seconds)
  }

  /** An independent reader of "M:SS" strings: the minutes and the seconds,
      or None when the string is not of that shape. */
  function ParseClock(s: string): (r: Option<(nat, nat)>)
    ensures r.Some? ==> r.value.1 < 60
  {
    if |s| >= 4 && s[|s| - 3] == ':' && Decimal.IsDigitRun(s[..|s| - 3])
       && Decimal.AllDigits(s[|s| - 2..]) && Decimal.Value(s[|s| - 2..]) < 60
    then Some((Decimal.Value(s[..|s| - 3]), Decimal.Value(s[|s| - 2..])))
    else None
  }

  lemma {:induction false} DivDiv(ms: nat)
    ensures ms / 1000 / 60 == ms / 60000
  {
    var q := ms / 60000;
    var r := ms % 60000;
    assert ms == q * 60000 + r;
    assert ms / 1000 == q * 60 + r / 1000;
  }

  /** The label reads back as the whole minutes and the seconds (< 60) of `ms`. */
  lemma {:induction false} LabelRoundTrip(ms: nat)
    ensures ParseClock(Label(ms)) == Some((ms / 60000, (ms / 1000) % 60))
  {
    var m := ms / 1000 / 60;
    var sec := (ms / 1000) % 60;
    var s := Label(ms);
    assert s[..|s| - 3] == Decimal.Render(m);
    assert s[|s| - 2..] == Decimal.Pad2(sec);
    Decimal.ValueOfRender(m);
    DivDiv(ms);
  }

  /** Two durations show the same label exactly when they agree in whole seconds. */
  lemma {:induction false} LabelSameIffSameSecond(a: nat, b: nat)
    ensures Label(a) == Label(b) <==> a / 1000 == b / 1000
  {
    if Label(a) == Label(b) {
      LabelRoundTrip(a);
      LabelRoundTrip(b);
      DivDiv(a);
      DivDiv(b);
      assert a / 1000 == (a / 1000 / 60) * 60 + (a / 1000) % 60;
      assert b / 1000 == (b / 1000 / 60) * 60 + (b / 1000) % 60;
    }
  }

  /** The display for 75 s and 5 s. */
  lemma LabelExamples()
    ensures Label(75000) == "1:15"
    ensures Label(5000) == "0:05"
  {
    assert Decimal.Render(1) == "1";
    assert Decimal.Render(0) == "0";
  }

  /** Minutes are not wrapped into hours: 3661 s shows as "61:01". */
  lemma LabelPastAnHour()
    ensures Label(3661000) == "61:01"
  {
    assert Decimal.Render(61) == "61" by {
      assert Decimal.Render(6) == "6";
    }
  }

  /** The display with one second left. */
  lemma LabelOneSecond()
    ensures Label(1000) == "0:01"
  {
    assert Decimal.Render(0) == "0";
  }

  /** A whole number of minutes is shown as "m:00". */
  lemma {:induction false} LabelOfWholeMinutes(minutes: nat)
    ensures Label(minutes * 60000) == Decimal.Render(minutes) + ":00"
  {
    var ms := minutes * 60000;
    var secs := minutes * 60;
    assert ms / 1000 == secs;
    assert secs / 60 == minutes && secs % 60 == 0;
    assert Decimal.Pad2(0) == "00";
  }

  /** One run of the posted runnable. */
  function Tick(t: Timer): (r: (Timer, Emission))
    requires Valid(t) && t.pending
    ensures Valid(r.0)
    ensures t.remaining > 0 ==> r.0 == t.(remaining := t.remaining - 1000) && r.0.pending
    ensures t.remaining > 0 ==> r.1.Show? && r.1.remaining == t.remaining && r.1.startTime == t.startTime
    ensures t.remaining > 0 ==> 0 < r.1.remaining <= r.1.startTime
    ensures t.remaining <= 0 ==> r.1 == Finish && r.0 == t.(pending := false)
  {
    if t.remaining > 0 then
      (t.(remaining := t.remaining - 1000), Show(t.remaining, t.startTime))
    else
      (t.(pending := false), Finish)
  }

  /** The progress a run shows lies in (0, 1] and is the fraction of the
      start time that remains. */
  lemma TickProgress(t: Timer)
    requires Valid(t) && t.pending && t.remaining > 0
    ensures 0.0 < Tick(t).1.Progress() <= 1.0
    ensures Tick(t).1.Progress() * t.startTime as real == t.remaining as real
  {
    Fraction(t.remaining as real, t.startTime as real);
  }

  /** A positive part of a positive whole is a fraction in (0, 1]. */
  lemma Fraction(a: real, d: real)
    requires 0.0 < a <= d
    ensures 0.0 < a / d <= 1.0 && (a / d) * d == a
  {
  }

  /** The emissions of up to `n` runs, stopping when nothing is posted. */
  function Trace(t: Timer, n: nat): seq<Emission>
    requires Valid(t)
    decreases n
  {
    if n == 0 || !t.pending then []
    else [Tick(t).1] + Trace(Tick(t).0, n - 1)
  }

  /** The emission of the `i`-th run of a countdown that has `k` seconds left. */
  function Expected(k: nat, startTime: int, i: nat): Emission
    requires startTime > 0
  {
    if i < k then Show(1000 * (k - i), startTime) else Finish
  }

  /** A run with seconds left shows them and leaves one second fewer. */
  lemma {:induction false} TraceShowsThenContinues(k: nat, startTime: int, n: nat)
    requires 0 < 1000 * k <= startTime && n > 0
    ensures Trace(Timer(1000 * k, startTime, true), n)
         == [Show(1000 * k, startTime)] + Trace(Timer(1000 * (k - 1), startTime, true), n - 1)
  {
    var t := Timer(1000 * k, startTime, true);
    assert Tick(t) == (Timer(1000 * (k - 1), startTime, true), Show(1000 * k, startTime));
  }

  /** A run with no time left finishes and posts nothing more. */
  lemma {:induction false} TraceFinishes(startTime: int, n: nat)
    requires 0 < startTime && n > 0
    ensures Trace(Timer(0, startTime, true), n) == [Finish]
  {
    var t := Timer(0, startTime, true);
    assert Tick(t) == (t.(pending := false), Finish);
  }

  /** The emissions of `n` runs of a countdown with `k` seconds left, built
      directly: one display per second, then the terminal run. */
  function ExpectedTrace(k: nat, startTime: int, n: nat): seq<Emission>
    requires startTime > 0
    decreases n
  {
    if n == 0 then []
    else if k == 0 then [Finish]
    else [Show(1000 * k, startTime)] + ExpectedTrace(k - 1, startTime, n - 1)
  }

  /** The Handler-driven runs produce exactly the expected emissions. */
  lemma {:induction false} TraceIsExpected(k: nat, startTime: int, n: nat)
    requires 1000 * k <= startTime && startTime > 0
    ensures Trace(Timer(1000 * k, startTime, true), n) == ExpectedTrace(k, startTime, n)
    decreases n
  {
    if n > 0 {
      if k == 0 {
        TraceFinishes(startTime, n);
        assert ExpectedTrace(k, startTime, n) == [Finish];
      } else {
        TraceShowsThenContinues(k, startTime, n);
        TraceIsExpected(k - 1, startTime, n - 1);
        assert ExpectedTrace(k, startTime, n)
            == [Show(1000 * k, startTime)] + ExpectedTrace(k - 1, startTime, n - 1);
      }
    }
  }

  /** The expected emissions, entry by entry. */
  lemma {:induction false} ExpectedTraceEntries(k: nat, startTime: int, n: nat)
    requires startTime > 0
    ensures |ExpectedTrace(k, startTime, n)| == if n <= k then n else k + 1
    ensures forall i :: 0 <= i < |ExpectedTrace(k, startTime, n)| ==>
                ExpectedTrace(k, startTime, n)[i] == Expected(k, startTime, i)
    decreases n
  {
    if n > 0 && k > 0 {
      ExpectedTraceEntries(k - 1, startTime, n - 1);
      var rest := ExpectedTrace(k - 1, startTime, n - 1);
      var tr := ExpectedTrace(k, startTime, n);
      forall i | 0 <= i < |tr|
        ensures tr[i] == Expected(k, startTime, i)
      {
        if i > 0 {
          assert tr[i] == rest[i - 1];
          ExpectedShift(k, startTime, i);
        }
      }
    }
  }

  lemma {:induction false} ExpectedShift(k: nat, startTime: int, i: nat)
    requires k > 0 && i > 0 && startTime > 0
    ensures Expected(k, startTime, i) == Expected(k - 1, startTime, i - 1)
  {
    if i < k {
      assert 1000 * (k - i) == 1000 * ((k - 1) - (i - 1));
    }
  }

  lemma {:induction false} TraceFrom(k: nat, startTime: int, n: nat)
    requires 1000 * k <= startTime && startTime > 0
    ensures |Trace(Timer(1000 * k, startTime, true), n)| == if n <= k then n else k + 1
    ensures forall i :: 0 <= i < |Trace(Timer(1000 * k, startTime, true), n)| ==>
                Trace(Timer(1000 * k, startTime, true), n)[i] == Expected(k, startTime, i)
  {
    TraceIsExpected(k, startTime, n);
    ExpectedTraceEntries(k, startTime, n);
  }

  /** What the `i`-th run after `Start(m)` shows, for i < 60·m. */
  function ShownAt(m: Int32, i: nat): Emission
    requires 0 < m && i < 60 * m
  {
    Show(60000 * m - 1000 * i, 60000 * m)
  }

  /** For m > 0 minutes: exactly 60·m runs emit a progress and a label, the
      i-th showing (60000·m − 1000·i) ms; the next run shows progress 0 and
      removes the view; no run is posted after it, so there are never more
      emissions, however many times the Handler is asked. */
  lemma {:induction false} CountdownSchedule(m: Int32, n: nat)
    requires m > 0
    ensures var tr := Trace(Start(m), n);
      && |tr| == (if n <= 60 * m then n else 60 * m + 1)
      && (forall i :: 0 <= i < |tr| && i < 60 * m ==> tr[i] == ShownAt(m, i))
      && (n > 60 * m ==> tr[60 * m] == Finish)
  {
    assert Start(m) == Timer(1000 * (60 * m), 60000 * m, true);
    TraceFrom(60 * m, 60000 * m, n);
    var tr := Trace(Start(m), n);
    forall i | 0 <= i < |tr| && i < 60 * m
      ensures tr[i] == ShownAt(m, i)
    {
      assert tr[i] == Expected(60 * m, 60000 * m, i);
      ExpectedIsShownAt(m, i);
    }
  }

  lemma {:induction false} ExpectedIsShownAt(m: Int32, i: nat)
    requires 0 < m && i < 60 * m
    ensures Expected(60 * m, 60000 * m, i) == ShownAt(m, i)
  {
    assert 1000 * (60 * m - i) == 60000 * m - 1000 * i;
  }

  /** The first run shows progress 1 and "m:00". */
  lemma {:induction false} FirstShown(m: Int32)
    requires m > 0
    ensures ShownAt(m, 0).Show? && ShownAt(m, 0).Text() == Decimal.Render(m) + ":00"
    ensures ShownAt(m, 0).Progress() == 1.0
  {
    var total := 60000 * m;
    assert ShownAt(m, 0) == Show(total, total);
    DivideSelf(total as real);
    LabelOfWholeMinutes(m);
  }

  /** The last emitting run shows one second left: "0:01". */
  lemma LastShown(m: Int32)
    requires m > 0
    ensures ShownAt(m, 60 * m - 1).Show? && ShownAt(m, 60 * m - 1).Text() == "0:01"
    ensures ShownAt(m, 60 * m - 1).Progress() == 1000.0 / (60000 * m) as real
  {
    assert ShownAt(m, 60 * m - 1) == Show(1000, 60000 * m);
    LabelOneSecond();
  }

  /** The first and the last emitting runs, and the terminal one. */
  lemma CountdownEnds(m: Int32)
    requires m > 0
    ensures var tr := Trace(Start(m), 60 * m + 1);
      && |tr| == 60 * m + 1
      && tr[0].Show? && tr[0].startTime == 60000 * m
      && tr[0].Progress() == 1.0 && tr[0].Text() == Decimal.Render(m) + ":00"
      && tr[60 * m - 1].Show? && tr[60 * m - 1].startTime == 60000 * m
      && tr[60 * m - 1].remaining >= 0 && tr[60 * m - 1].Text() == "0:01"
      && tr[60 * m - 1].Progress() == 1000.0 / (60000 * m) as real
      && tr[60 * m] == Finish
  {
    CountdownSchedule(m, 60 * m + 1);
    FirstShown(m);
    LastShown(m);
  }

  /** Successive emitted progress values strictly decrease. */
  lemma {:induction false} ProgressDecreases(m: Int32, n: nat, i: nat, j: nat)
    requires m > 0 && i < j < 60 * m
    requires j < |Trace(Start(m), n)|
    ensures Trace(Start(m), n)[i].Show? && Trace(Start(m), n)[j].Show?
    ensures Trace(Start(m), n)[i].startTime == Trace(Start(m), n)[j].startTime == 60000 * m
    ensures Trace(Start(m), n)[i].Progress() > Trace(Start(m), n)[j].Progress()
  {
    CountdownSchedule(m, n);
    assert Trace(Start(m), n)[i] == ShownAt(m, i) && Trace(Start(m), n)[j] == ShownAt(m, j);
    ShownProgressDecreases(m, i, j);
  }

  lemma {:induction false} ShownProgressDecreases(m: Int32, i: nat, j: nat)
    requires m > 0 && i < j < 60 * m
    ensures ShownAt(m, i).Progress() > ShownAt(m, j).Progress()
  {
    var total := (60000 * m) as real;
    var a := (60000 * m - 1000 * j) as real;
    var b := (60000 * m - 1000 * i) as real;
    assert ShownAt(m, i).Progress() == b / total;
    assert ShownAt(m, j).Progress() == a / total;
    DivideMonotone(a, b, total);
  }

  lemma DivideSelf(d: real)
    requires d > 0.0
    ensures d / d == 1.0
  {
  }

  lemma DivideMonotone(a: real, b: real, d: real)
    requires a < b && d > 0.0
    ensures a / d < b / d
  {
  }
}
