/**
 * The numeric model behind TimerClockView: the stored progress and total
 * minutes, the sweep of the progress arc, the square the arc is drawn in,
 * and the two twelve-entry tables of marker labels and marker angles.
 * Painting, text metrics and trigonometry are not modelled.
 */
module ClockFace {
  import opened Numeric
  import Decimal

  /** `progress` (0 empty .. 1 full) and `totalMinutes` of the view. */
  datatype Clock = Clock(progress: real, totalMinutes: int)

  /** An axis-aligned rectangle with real coordinates (`RectF`). */
  datatype RectF = RectF(left: real, top: real, right: real, bottom: real)

  /** A freshly constructed view: progress 0 and a 60-minute face. */
  const Default: Clock := Clock(0.0, 60)

  /** `setProgress`: stores the value clamped to [0, 1]. */
  function SetProgress(c: Clock, value: real): (r: Clock)
    ensures 0.0 <= r.progress <= 1.0
    ensures 0.0 <= value <= 1.0 ==> r.progress == value
    ensures value < 0.0 ==> r.progress == 0.0
    ensures value > 1.0 ==> r.progress == 1.0
    ensures r.totalMinutes == c.totalMinutes
  {
    c.(progress := Clamp01(value))
  }

  /** Setting the same progress twice is the same as setting it once, and
      only the last setting matters. */
  lemma SetProgressIdempotent(c: Clock, value: real, other: real)
    ensures SetProgress(SetProgress(c, value), value) == SetProgress(c, value)
    ensures SetProgress(SetProgress(c, other), value) == SetProgress(c, value)
  {
  }

  /** `setTotalMinutes`: stores the minutes unchanged, leaving the progress alone. */
  function SetTotalMinutes(c: Clock, minutes: Int32): (r: Clock)
    ensures r.totalMinutes == minutes && r.progress == c.progress
  {
    c.(totalMinutes := minutes)
  }

  /** The sweep angle of the progress arc in degrees, in `onDraw`: the
      whole face stands for 60 minutes, scaled by the progress. */
  function Sweep(c: Clock): (degrees: real)
    ensures 0.0 <= c.progress <= 1.0 && c.totalMinutes >= 0 ==>
              0.0 <= degrees <= 6.0 * c.totalMinutes as real
  {
    var maxSweep := (c.totalMinutes as real / 60.0) * 360.0;
    assert maxSweep == 6.0 * c.totalMinutes as real;
    maxSweep * c.progress
  }

  /** The arc turns six degrees per minute of progress, a full turn for a
      complete hour, and grows with the progress. */
  lemma SweepFacts(c: Clock, p: real)
    requires c.totalMinutes >= 0 && c.progress <= p
    ensures Sweep(c) == 6.0 * c.totalMinutes as real * c.progress
    ensures Sweep(c) <= Sweep(c.(progress := p))
    ensures Sweep(Clock(1.0, 60)) == 360.0
    ensures Sweep(Clock(0.0, c.totalMinutes)) == 0.0
  {
    var t := 6.0 * c.totalMinutes as real;
    MulNonNegative(t, p - c.progress);
  }

  /** `numberCache`: the label of marker `i` is the numeral of 5·i. */
  function Numbers(): (labels: seq<string>)
    ensures |labels| == 12
    ensures forall i :: 0 <= i < 12 ==> Decimal.IsDigitRun(labels[i])
  {
    seq(12, i requires 0 <= i => Decimal.Render(5 * i))
  }

  /** `angleCache`, in degrees: marker `i` sits at 30·i − 90, measured
      clockwise from three o'clock. The conversion to radians is not
      modelled. */
  function Angles(): (degrees: seq<int>)
    ensures |degrees| == 12
    ensures degrees[0] == -90
    ensures forall i :: 0 <= i < 11 ==> degrees[i + 1] - degrees[i] == 30
  {
    seq(12, i => 30 * i - 90)
  }

  /** The labels read as 0, 5, ..., 55 and are pairwise different. */
  lemma NumbersAreMinutes()
    ensures forall i :: 0 <= i < 12 ==> Decimal.Value(Numbers()[i]) == 5 * i
    ensures forall i, j :: 0 <= i < j < 12 ==> Numbers()[i] != Numbers()[j]
    ensures Numbers()[0] == "0" && Numbers()[11] == "55"
  {
    forall i | 0 <= i < 12
      ensures Decimal.Value(Numbers()[i]) == 5 * i
    {
      Decimal.ValueOfRender(5 * i);
    }
    forall i, j | 0 <= i < j < 12
      ensures Numbers()[i] != Numbers()[j]
    {
      Decimal.ValueOfRender(5 * i);
      Decimal.ValueOfRender(5 * j);
    }
    assert Decimal.Render(5) == "5";
    assert Decimal.Render(55) == "55";
  }

  /** No two of the twelve markers coincide on the circle. */
  lemma AnglesEvenlySpaced()
    ensures forall i, j :: 0 <= i < j < 12 ==> (Angles()[j] - Angles()[i]) % 360 != 0
  {
    forall i, j | 0 <= i < j < 12
      ensures (Angles()[j] - Angles()[i]) % 360 != 0
    {
      assert Angles()[j] - Angles()[i] == 30 * (j - i);
    }
  }

  /** Each marker stands where a progress arc of its own number of minutes
      ends: 12 o'clock plus the full sweep of a `5·i`-minute timer. */
  lemma MarkerMatchesSweep(i: int)
    requires 0 <= i < 12
    ensures Decimal.Value(Numbers()[i]) == 5 * i
    ensures Angles()[i] as real == -90.0 + Sweep(Clock(1.0, 5 * i))
  {
    Decimal.ValueOfRender(5 * i);
  }

  /** The radius set in `onSizeChanged`: 80% of half the shorter side. */
  function Radius(w: int, h: int): (r: real)
    ensures w >= 0 && h >= 0 ==> 0.0 <= r
    ensures r * 2.0 <= 0.8 * w as real && r * 2.0 <= 0.8 * h as real
  {
    (if w <= h then w else h) as real / 2.0 * 0.8
  }

  /** `arcRect`: the square the progress arc is drawn in. */
  function ArcRect(w: int, h: int): (rect: RectF)
    ensures rect.right - rect.left == 2.0 * Radius(w, h)
    ensures rect.bottom - rect.top == 2.0 * Radius(w, h)
    ensures rect.left + rect.right == w as real && rect.top + rect.bottom == h as real
    ensures w >= 0 && h >= 0 ==>
              0.0 <= rect.left <= rect.right <= w as real && 0.0 <= rect.top <= rect.bottom <= h as real
  {
    var cx := w as real / 2.0;
    var cy := h as real / 2.0;
    var r := Radius(w, h);
    RectF(cx - r, cy - r, cx + r, cy + r)
  }

  /** The radius is 0.4 of the shorter side. */
  lemma RadiusIsFortyPercent(w: int, h: int)
    ensures Radius(w, h) == 0.4 * (if w <= h then w else h) as real
  {
  }
}
