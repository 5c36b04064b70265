/** Piecewise-linear anchors and the CI/CD score built on them (scoring/calibration_v2.py), over exact reals. */
module Calibration {
  import opened RealArithmetic

  function Clamp(value: real, lower: real, upper: real): real {
    var low := if value < upper then value else upper;
    if low > lower then low else lower
  }

  function Ratio(value: real): (r: real)
    ensures 0.0 <= r <= 1.0 && (0.0 <= value <= 1.0 ==> r == value)
  {
    Clamp(value, 0.0, 1.0)
  }

  // ---- Anchors ----

  datatype Point = Point(x: real, y: real)

  const RELIABILITY_ANCHORS: seq<Point> :=
    [Point(0.0, 100.0), Point(5.0, 95.0), Point(10.0, 90.0), Point(20.0, 80.0), Point(30.0, 70.0), Point(50.0, 50.0),
     Point(100.0, 0.0)]
  const DURATION_ANCHORS: seq<Point> :=
    [Point(0.0, 100.0), Point(300.0, 100.0), Point(900.0, 70.0), Point(1800.0, 30.0), Point(3600.0, 0.0)]

  /** The straight line through two anchors. */
  function Line(left: Point, right: Point, value: real): real
    requires left.x < right.x
  {
    left.y + (value - left.x) / (right.x - left.x) * (right.y - left.y)
  }

  function Beyond(points: seq<Point>, value: real): real
    requires points != [] && points[0].x < value
  {
    if |points| == 1 then points[0].y
    else if value <= points[1].x then Line(points[0], points[1], value)
    else Beyond(points[1..], value)
  }

  /** What the scan computes; it needs no assumption on the anchors. */
  function Quality(points: seq<Point>, value: real): real {
    if points == [] then 0.0
    else if value <= points[0].x then points[0].y
    else Beyond(points, value)
  }

  /** `anchored_quality`: the scan never divides by zero, whatever the anchors are. */
  method AnchoredQuality(value: real, points: seq<Point>) returns (quality: real)
    ensures quality == Quality(points, value)
  {
    if points == [] { return 0.0; }
    if value <= points[0].x { return points[0].y; }
    for i := 0 to |points| - 1
      invariant points[i].x < value
      invariant Quality(points, value) == Beyond(points[i..], value)
    {
      var left, right := points[i], points[i + 1];
      assert points[i..][1] == right && points[i..][1..] == points[i + 1..];
      if value <= right.x {
        var fraction := (value - left.x) / (right.x - left.x);
        return left.y + fraction * (right.y - left.y);
      }
    }
    quality := points[|points| - 1].y;
  }

  ghost predicate Rising(points: seq<Point>) {
    forall i, j :: 0 <= i < j < |points| ==> points[i].x < points[j].x
  }

  /** Strictly increasing x and non-increasing y. */
  ghost predicate Falling(points: seq<Point>) {
    Rising(points) && forall i, j :: 0 <= i < j < |points| ==> points[i].y >= points[j].y
  }

  lemma LineEnds(left: Point, right: Point)
    requires left.x < right.x
    ensures Line(left, right, left.x) == left.y && Line(left, right, right.x) == right.y
  {}

  lemma LineFalls(left: Point, right: Point, value: real, larger: real)
    requires left.x < right.x && left.y >= right.y && value <= larger
    ensures Line(left, right, larger) <= Line(left, right, value)
  {
    var width := right.x - left.x;
    var f, g := (value - left.x) / width, (larger - left.x) / width;
    QuotientOrdered(value - left.x, larger - left.x, width);
    ProductOrdered(left.y - right.y, f, g);
    assert f * (right.y - left.y) == -((left.y - right.y) * f);
    assert g * (right.y - left.y) == -((left.y - right.y) * g);
  }

  lemma LineBetween(left: Point, right: Point, value: real)
    requires left.x <= value <= right.x && left.x < right.x && left.y >= right.y
    ensures right.y <= Line(left, right, value) <= left.y
  {
    hide Line;
    LineEnds(left, right);
    LineFalls(left, right, left.x, value);
    LineFalls(left, right, value, right.x);
  }

  /** Between two neighbouring anchors the result is on the line through them. */
  lemma {:induction false} OnLine(points: seq<Point>, i: nat, value: real)
    requires Rising(points) && i + 1 < |points| && points[i].x <= value <= points[i + 1].x
    ensures Quality(points, value) == Line(points[i], points[i + 1], value)
  {
    hide Line;
    LineEnds(points[i], points[i + 1]);
    if i > 0 {
      var rest := points[1..];
      assert rest[i - 1] == points[i] && rest[i] == points[i + 1];
      OnLine(rest, i - 1, value);
      if i == 1 { LineEnds(points[0], points[1]); }
    }
  }

  /** Every anchor is met exactly; outside the anchors the result is the end value. */
  lemma {:induction false} HitsAnchors(points: seq<Point>, i: nat)
    requires Rising(points) && i < |points|
    ensures Quality(points, points[i].x) == points[i].y
    ensures forall value :: value <= points[0].x ==> Quality(points, value) == points[0].y
    ensures forall value :: points[|points| - 1].x <= value ==> Quality(points, value) == points[|points| - 1].y
  {
    hide Line;
    if i > 0 {
      OnLine(points, i - 1, points[i].x);
      LineEnds(points[i - 1], points[i]);
    }
    forall value | points[|points| - 1].x <= value ensures Quality(points, value) == points[|points| - 1].y {
      PastTheEnd(points, value);
    }
  }

  lemma {:induction false} PastTheEnd(points: seq<Point>, value: real)
    requires points != [] && Rising(points) && points[|points| - 1].x <= value
    ensures Quality(points, value) == points[|points| - 1].y
  {
    hide Line;
    if |points| > 1 {
      PastTheEnd(points[1..], value);
      LineEnds(points[0], points[1]);
    }
  }

  /** The result stays between the last and the first value. */
  lemma {:induction false} QualityBounds(points: seq<Point>, value: real)
    requires points != [] && Falling(points)
    ensures points[|points| - 1].y <= Quality(points, value) <= points[0].y
  {
    hide Line;
    if |points| > 1 && points[0].x < value {
      if value <= points[1].x {
        LineBetween(points[0], points[1], value);
      } else {
        QualityBounds(points[1..], value);
      }
    }
  }

  /** A larger value never has a better quality, across all segments. */
  lemma {:induction false} QualityNeverRises(points: seq<Point>, value: real, larger: real)
    requires Falling(points) && value <= larger
    ensures Quality(points, larger) <= Quality(points, value)
  {
    hide Line;
    if points != [] {
      if value <= points[0].x {
        QualityBounds(points, larger);
      } else if |points| > 1 {
        if value <= points[1].x {
          LineBetween(points[0], points[1], value);
          if larger <= points[1].x {
            LineFalls(points[0], points[1], value, larger);
          } else {
            QualityBounds(points[1..], larger);
          }
        } else {
          QualityNeverRises(points[1..], value, larger);
        }
      }
    }
  }

  /** Anchors on the line y = 100 - x make the whole interpolation that line. */
  lemma OnDiagonal(points: seq<Point>, i: nat, value: real)
    requires Rising(points) && i + 1 < |points| && points[i].x <= value <= points[i + 1].x
    requires points[i].y == 100.0 - points[i].x && points[i + 1].y == 100.0 - points[i + 1].x
    ensures Quality(points, value) == 100.0 - value
  {
    hide Quality, Rising;
    assert points[i].x < points[i + 1].x by { RisesAt(points, i); }
    OnLine(points, i, value);
    Slope(points[i], points[i + 1], value);
  }

  lemma RisesAt(points: seq<Point>, i: nat)
    requires Rising(points) && i + 1 < |points|
    ensures points[i].x < points[i + 1].x
  {}

  lemma Slope(left: Point, right: Point, value: real)
    requires left.x < right.x && left.y == 100.0 - left.x && right.y == 100.0 - right.x
    ensures Line(left, right, value) == 100.0 - value
  {
    var fraction := (value - left.x) / (right.x - left.x);
    assert fraction * (right.y - left.y) == -(fraction * (right.x - left.x));
  }

  lemma ReliabilityTable()
    ensures Rising(RELIABILITY_ANCHORS) && |RELIABILITY_ANCHORS| == 7
    ensures forall i :: 0 <= i < 7 ==> RELIABILITY_ANCHORS[i].y == 100.0 - RELIABILITY_ANCHORS[i].x
    ensures RELIABILITY_ANCHORS[0].x == 0.0 && RELIABILITY_ANCHORS[6].x == 100.0
  {}

  lemma SegmentOf(points: seq<Point>, value: real) returns (i: nat)
    requires |points| >= 2 && points[0].x <= value <= points[|points| - 1].x
    ensures i + 1 < |points| && points[i].x <= value <= points[i + 1].x
  {
    i := 0;
    while points[i + 1].x < value
      invariant i + 1 < |points| && points[i].x <= value
      decreases |points| - i
    {
      i := i + 1;
    }
  }

  /** The reliability table is 100 minus the clamped failure percentage. */
  lemma ReliabilityIsLinear(percent: real)
    ensures Quality(RELIABILITY_ANCHORS, percent) == 100.0 - Clamp(percent, 0.0, 100.0)
  {
    hide Quality, Rising, RELIABILITY_ANCHORS;
    ReliabilityTable();
    if 0.0 <= percent <= 100.0 {
      var i := SegmentOf(RELIABILITY_ANCHORS, percent);
      OnDiagonal(RELIABILITY_ANCHORS, i, percent);
    } else {
      HitsAnchors(RELIABILITY_ANCHORS, 0);
    }
  }

  // ---- The tables, in numbers ----

  lemma Clamping(value: real, lower: real, upper: real)
    requires lower <= upper
    ensures lower <= Clamp(value, lower, upper) <= upper
    ensures lower <= value <= upper ==> Clamp(value, lower, upper) == value
    ensures value <= lower ==> Clamp(value, lower, upper) == lower
    ensures upper <= value ==> Clamp(value, lower, upper) == upper
  {}

  lemma DurationTable()
    ensures Falling(DURATION_ANCHORS) && |DURATION_ANCHORS| == 5
    ensures DURATION_ANCHORS[0] == Point(0.0, 100.0) && DURATION_ANCHORS[1] == Point(300.0, 100.0)
    ensures DURATION_ANCHORS[2] == Point(900.0, 70.0) && DURATION_ANCHORS[3] == Point(1800.0, 30.0)
    ensures DURATION_ANCHORS[4] == Point(3600.0, 0.0)
  {}

  /** Pipelines of up to five minutes are perfect; then a point is lost every 20 s up to 15 min, every 22.5 s up to half
      an hour and every minute up to an hour, after which none is left. */
  lemma DurationIsPiecewise(seconds: real)
    ensures Quality(DURATION_ANCHORS, seconds) ==
              if seconds <= 300.0 then 100.0
              else if seconds <= 900.0 then 100.0 - (seconds - 300.0) / 20.0
              else if seconds <= 1800.0 then 70.0 - (seconds - 900.0) / 22.5
              else if seconds <= 3600.0 then 30.0 - (seconds - 1800.0) / 60.0
              else 0.0
  {
    hide Quality, Falling, DURATION_ANCHORS;
    DurationTable();
    assert Rising(DURATION_ANCHORS) by { FallingRises(DURATION_ANCHORS); }
    if 0.0 <= seconds <= 3600.0 {
      var i := SegmentOf(DURATION_ANCHORS, seconds);
      OnLine(DURATION_ANCHORS, i, seconds);
    } else {
      HitsAnchors(DURATION_ANCHORS, 0);
    }
  }

  lemma FallingRises(points: seq<Point>)
    requires Falling(points)
    ensures Rising(points)
  {}
}
