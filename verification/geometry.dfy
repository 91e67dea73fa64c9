/**
 * Screen geometry of the overlay: integer points and rectangles as
 * `getRectForView` builds them, the intersection test the drag uses, the
 * dismiss target's centre, and the position interpolation of the dismiss
 * animation.
 */
module Geometry {
  import opened Numeric

  /** A screen position (`Int` coordinates). */
  datatype Point = Point(x: Int32, y: Int32)

  /** A half-open screen rectangle, as `android.graphics.Rect` holds it. */
  datatype Rect = Rect(left: int, top: int, right: int, bottom: int)

  /** A view as the window manager reports it: where it is on screen and how big. */
  datatype Placement = Placement(location: Point, width: nat, height: nat)

  /** `getRectForView`: the view's location extended by its size (`Int`
      additions, which wrap). */
  function RectForView(v: Placement): (r: Rect)
    ensures r.left == v.location.x && r.top == v.location.y
    ensures IsInt32(v.location.x + v.width) ==> r.right - r.left == v.width
    ensures IsInt32(v.location.y + v.height) ==> r.bottom - r.top == v.height
  {
    Rect(v.location.x, v.location.y,
         Wrap32(v.location.x + v.width), Wrap32(v.location.y + v.height))
  }

  /** The pixel `p` lies inside `r`. */
  predicate Covers(r: Rect, x: int, y: int) {
    r.left <= x < r.right && r.top <= y < r.bottom
  }

  /** `Rect.intersect`'s test: the two rectangles overlap with positive area. */
  predicate Intersects(a: Rect, b: Rect) {
    a.left < b.right && b.left < a.right && a.top < b.bottom && b.top < a.bottom
  }

  /** The rectangle covers at least one pixel. */
  predicate NonEmpty(r: Rect) {
    r.left < r.right && r.top < r.bottom
  }

  /** Two non-empty rectangles intersect exactly when some pixel lies in both. */
  lemma IntersectsIffSharedPixel(a: Rect, b: Rect)
    requires NonEmpty(a) && NonEmpty(b)
    ensures Intersects(a, b) <==> exists x, y :: Covers(a, x, y) && Covers(b, x, y)
  {
    if Intersects(a, b) {
      var x := if a.left < b.left then b.left else a.left;
      var y := if a.top < b.top then b.top else a.top;
      assert Covers(a, x, y) && Covers(b, x, y);
    }
  }

  /** The test is symmetric. */
  lemma IntersectsSymmetric(a: Rect, b: Rect)
    ensures Intersects(a, b) <==> Intersects(b, a)
  {
  }

  /** The dismiss target's centre: location plus half the size (`Int`
      arithmetic, rounding the half down). */
  function Centre(v: Placement): (c: Point)
    ensures IsInt32(v.location.x + v.width / 2) ==>
              v.location.x <= c.x && 2 * (c.x - v.location.x) <= v.width < 2 * (c.x - v.location.x) + 2
    ensures IsInt32(v.location.y + v.height / 2) ==>
              v.location.y <= c.y && 2 * (c.y - v.location.y) <= v.height < 2 * (c.y - v.location.y) + 2
  {
    Point(Wrap32(v.location.x + v.width / 2), Wrap32(v.location.y + v.height / 2))
  }

  /** The centre lies inside a non-empty view's rectangle. */
  lemma CentreInsideView(v: Placement)
    requires v.width > 0 && v.height > 0
    requires IsInt32(v.location.x + v.width) && IsInt32(v.location.y + v.height)
    ensures Covers(RectForView(v), Centre(v).x, Centre(v).y)
  {
  }

  /** The dismiss animation's fixed data: where the floating view was when
      it started and the dismiss target's centre. */
  datatype Flight = Flight(start: Point, target: Point)

  /** `animateAndRemove`: reads both views' screen positions. */
  function FlightFor(floating: Placement, dismissTarget: Placement): Flight {
    Flight(floating.location, Centre(dismissTarget))
  }

  /** One coordinate of an animation frame: `(start + (target - start) *
      (1 - scale)).toInt()`, the difference being an `Int` subtraction. */
  function Towards(start: Int32, target: Int32, scale: real): Int32 {
    FloatToInt(start as real + Wrap32(target - start) as real * (1.0 - scale))
  }

  /** The position the animation gives the floating view at `scale`. */
  function Frame(f: Flight, scale: real): Point {
    Point(Towards(f.start.x, f.target.x, scale), Towards(f.start.y, f.target.y, scale))
  }

  /** The exact (unrounded) interpolation between `a` and `b`. */
  function Interp(a: real, b: real, scale: real): real {
    a + (b - a) * (1.0 - scale)
  }

  /** As the scale falls from 1 to 0, the interpolation moves from `a` to `b`
      without overshooting. */
  lemma InterpOrder(a: real, b: real, scale: real, later: real)
    requires 0.0 <= later <= scale <= 1.0
    ensures a <= b ==> a <= Interp(a, b, scale) <= Interp(a, b, later) <= b
    ensures b <= a ==> b <= Interp(a, b, later) <= Interp(a, b, scale) <= a
  {
    var d := b - a;
    assert Interp(a, b, later) - Interp(a, b, scale) == d * (scale - later);
    assert Interp(a, b, scale) - a == d * (1.0 - scale);
    assert b - Interp(a, b, later) == d * later;
    if a <= b {
      MulNonNegative(d, scale - later);
      MulNonNegative(d, 1.0 - scale);
      MulNonNegative(d, later);
    } else {
      MulNonNegative(-d, scale - later);
      MulNonNegative(-d, 1.0 - scale);
      MulNonNegative(-d, later);
    }
  }

  /** The animated coordinate is the truncation of the exact interpolation
      whenever the coordinates' difference fits an `Int`. */
  lemma TowardsExact(start: Int32, target: Int32, scale: real)
    requires IsInt32(target - start)
    requires IntMin as real <= Interp(start as real, target as real, scale) <= IntMax as real
    ensures Towards(start, target, scale) == Trunc(Interp(start as real, target as real, scale))
  {
    var d := Wrap32(target - start);
    assert d == target - start;
    var v := start as real + d as real * (1.0 - scale);
    assert v == Interp(start as real, target as real, scale);
    assert Towards(start, target, scale) == FloatToInt(v);
  }

  /** Truncation keeps a real between two integers between them. */
  lemma TruncChain(lo: int, a: real, b: real, hi: int)
    requires lo as real <= a <= b <= hi as real
    ensures lo <= Trunc(a) <= Trunc(b) <= hi
  {
    TruncOfInt(lo);
    TruncOfInt(hi);
    TruncMonotone(lo as real, a);
    TruncMonotone(a, b);
    TruncMonotone(b, hi as real);
  }

  /** Moving right or down: the coordinate moves monotonically from `start`
      toward `target` as the scale falls, never past it. */
  lemma {:induction false} TowardsIncreasing(start: Int32, target: Int32, scale: real, later: real)
    requires start <= target && IsInt32(target - start)
    requires 0.0 <= later <= scale <= 1.0
    ensures start <= Towards(start, target, scale) <= Towards(start, target, later) <= target
  {
    var a := Interp(start as real, target as real, scale);
    var b := Interp(start as real, target as real, later);
    InterpOrder(start as real, target as real, scale, later);
    TowardsExact(start, target, scale);
    TowardsExact(start, target, later);
    TruncChain(start, a, b, target);
  }

  /** Moving left or up: the mirror image of `TowardsIncreasing`. */
  lemma {:induction false} TowardsDecreasing(start: Int32, target: Int32, scale: real, later: real)
    requires target <= start && IsInt32(target - start)
    requires 0.0 <= later <= scale <= 1.0
    ensures target <= Towards(start, target, later) <= Towards(start, target, scale) <= start
  {
    var a := Interp(start as real, target as real, scale);
    var b := Interp(start as real, target as real, later);
    InterpOrder(start as real, target as real, scale, later);
    TowardsExact(start, target, scale);
    TowardsExact(start, target, later);
    TruncChain(target, b, a, start);
  }

  /** At scale 1 the coordinate is the start, at scale 0 the target. */
  lemma TowardsEnds(start: Int32, target: Int32)
    requires IsInt32(target - start)
    ensures Towards(start, target, 1.0) == start
    ensures Towards(start, target, 0.0) == target
  {
    TruncOfInt(start);
    TruncOfInt(target);
  }

  /** The animated position equals the start at scale 1 and the target
      centre at scale 0, and stays in the box the two span. */
  lemma FrameBetween(f: Flight, scale: real)
    requires IsInt32(f.target.x - f.start.x) && IsInt32(f.target.y - f.start.y)
    requires 0.0 <= scale <= 1.0
    ensures Frame(f, 1.0) == f.start && Frame(f, 0.0) == f.target
    ensures Between(f.start.x, Frame(f, scale).x, f.target.x)
    ensures Between(f.start.y, Frame(f, scale).y, f.target.y)
  {
    TowardsEnds(f.start.x, f.target.x);
    TowardsEnds(f.start.y, f.target.y);
    if f.start.x <= f.target.x {
      TowardsIncreasing(f.start.x, f.target.x, scale, scale);
    } else {
      TowardsDecreasing(f.start.x, f.target.x, scale, scale);
    }
    if f.start.y <= f.target.y {
      TowardsIncreasing(f.start.y, f.target.y, scale, scale);
    } else {
      TowardsDecreasing(f.start.y, f.target.y, scale, scale);
    }
  }

  /** The dismiss flight begins where the floating view stands and ends on
      the dismiss target's centre, which lies inside the target; every frame
      in between stays in the box the two points span. */
  lemma DismissFlight(floating: Placement, dismissTarget: Placement, scale: real)
    requires dismissTarget.width > 0 && dismissTarget.height > 0
    requires IsInt32(dismissTarget.location.x + dismissTarget.width)
    requires IsInt32(dismissTarget.location.y + dismissTarget.height)
    requires IsInt32(Centre(dismissTarget).x - floating.location.x)
    requires IsInt32(Centre(dismissTarget).y - floating.location.y)
    requires 0.0 <= scale <= 1.0
    ensures Frame(FlightFor(floating, dismissTarget), 1.0) == floating.location
    ensures Frame(FlightFor(floating, dismissTarget), 0.0) == Centre(dismissTarget)
    ensures Covers(RectForView(dismissTarget), Centre(dismissTarget).x, Centre(dismissTarget).y)
    ensures Between(floating.location.x, Frame(FlightFor(floating, dismissTarget), scale).x, Centre(dismissTarget).x)
    ensures Between(floating.location.y, Frame(FlightFor(floating, dismissTarget), scale).y, Centre(dismissTarget).y)
  {
    FrameBetween(FlightFor(floating, dismissTarget), scale);
    CentreInsideView(dismissTarget);
  }

  /** `v` lies between `a` and `b`, in either order. */
  predicate Between(a: int, v: int, b: int) {
    (a <= v <= b) || (b <= v <= a)
  }
}
