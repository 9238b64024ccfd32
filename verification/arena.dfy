/** Per-frame scene geometry of the tug-of-war arena and its dust pool.

    Every frame the arena recomputes the whole scene from the raw tension,
    the pulse displacement and the surface layout: the display tension and
    its clamp, the rigid rope's centre and grips, its sag and curve, the flag
    on the rope's midpoint, the tension gauge, the two characters' poses, and
    the footstep dust. Only the previous grip positions, the accumulated time
    and the particle pool survive from one frame to the next. Randomness and
    the sine of the gait phase are parameters supplied by the caller. */
module Arena {
  import opened Numeric

  // ---------------------------------------------------------------------------
  // Constants and small helpers
  // ---------------------------------------------------------------------------

  /** Share of the pulse displacement added to the raw tension for drawing. */
  const PulseShare: real := 0.44
  const SagBase: real := 2.0
  const SagPerPulse: real := 18.0
  /** Width of the tension gauge; the fill grows from its centre. */
  const MeterWidth: real := 260.0
  /** Grip displacement per frame above which a footstep raises dust. */
  const DustThreshold: real := 0.2
  /** Horizontal distance from a grip back to the character's body. */
  const BodyBack: real := 50.0
  const PoolCap: nat := 80
  const DustPerStep: nat := 3
  const Gravity: real := 0.18
  const LifeDecay: real := 0.045
  const TwistStart: real := 0.06
  const TwistStep: real := 0.13

  datatype Point = Point(x: real, y: real)

  /** The layout numbers the arena derives once from its surface width. */
  datatype Layout = Layout(
    w: real,         // surface width
    ropeLen: real,   // fixed rope length
    maxSlide: real,  // how far the rope centre moves at full tension
    groundY: real,   // ground line
    handY: real)     // height of both grips

  // ---------------------------------------------------------------------------
  // Quadratic Bezier curves
  // ---------------------------------------------------------------------------

  /** The point at parameter t of the quadratic curve from (x0, y0) to
      (x1, y1) with control point (cx, cy), in Bernstein form. */
  function BezierPt(t: real, x0: real, y0: real, cx: real, cy: real, x1: real, y1: real): Point
  {
    var mt := 1.0 - t;
    Point(mt * mt * x0 + 2.0 * mt * t * cx + t * t * x1,
          mt * mt * y0 + 2.0 * mt * t * cy + t * t * y1)
  }

  function Lerp(a: real, b: real, t: real): real { a + (b - a) * t }

  /** Independent construction of the same point: interpolate twice. */
  function DeCasteljau(t: real, x0: real, y0: real, cx: real, cy: real, x1: real, y1: real): Point
  {
    Point(Lerp(Lerp(x0, cx, t), Lerp(cx, x1, t), t),
          Lerp(Lerp(y0, cy, t), Lerp(cy, y1, t), t))
  }

  lemma BezierIsDeCasteljau(t: real, x0: real, y0: real, cx: real, cy: real, x1: real, y1: real)
    ensures BezierPt(t, x0, y0, cx, cy, x1, y1) == DeCasteljau(t, x0, y0, cx, cy, x1, y1)
  {
  }

  /** The curve starts at its first point and ends at its last. */
  lemma BezierEndpoints(x0: real, y0: real, cx: real, cy: real, x1: real, y1: real)
    ensures BezierPt(0.0, x0, y0, cx, cy, x1, y1) == Point(x0, y0)
    ensures BezierPt(1.0, x0, y0, cx, cy, x1, y1) == Point(x1, y1)
  {
  }

  /** With level endpoints and the control point above their midpoint, the
      curve's midpoint sits at that x, half the control point's dip below. */
  lemma BezierMidpoint(x0: real, y0: real, cx: real, cy: real, x1: real)
    requires cx == (x0 + x1) / 2.0
    ensures BezierPt(0.5, x0, y0, cx, cy, x1, y0) == Point(cx, y0 + (cy - y0) / 2.0)
  {
  }

  /** Moving all three points of a curve down by dy moves every point of the
      curve down by dy, because the Bernstein weights sum to one. */
  lemma BezierTranslate(t: real, x0: real, y0: real, cx: real, cy: real, x1: real, y1: real, dy: real)
    ensures BezierPt(t, x0, y0 + dy, cx, cy + dy, x1, y1 + dy)
         == Point(BezierPt(t, x0, y0, cx, cy, x1, y1).x, BezierPt(t, x0, y0, cx, cy, x1, y1).y + dy)
  {
  }

  // ---------------------------------------------------------------------------
  // Tension, rope and sag
  // ---------------------------------------------------------------------------

  /** The tension the arena draws: the raw tension nudged by a share of
      the pulse displacement, in the pulse's direction. */
  function DisplayTension(raw: real, pulse: real): (r: real)
    ensures r == raw <==> pulse == 0.0
    ensures r > raw <==> pulse > 0.0
  {
    raw + pulse * PulseShare
  }

  /** The display tension saturated to the unit interval [-1, 1]. */
  function ClampUnit(x: real): (r: real)
    ensures -1.0 <= r <= 1.0
    ensures -1.0 <= x <= 1.0 ==> r == x
    ensures x > 1.0 ==> r == 1.0
    ensures x < -1.0 ==> r == -1.0
  {
    Max(-1.0, Min(1.0, x))
  }

  datatype Grips = Grips(center: real, leftX: real, rightX: real)

  /** How far the rope centre moves from the middle: the clamped tension
      times the maximum slide. */
  function Slide(t: real, m: real): (r: real)
    ensures -1.0 <= t <= 1.0 && m >= 0.0 ==> -m <= r <= m
    ensures t == 0.0 ==> r == 0.0
    ensures m > 0.0 ==> (r > 0.0 <==> t > 0.0)
    ensures t == 1.0 ==> r == m
    ensures t == -1.0 ==> r == -m
  {
    var r := t * m;
    assert -1.0 <= t <= 1.0 && m >= 0.0 ==> -m <= r <= m by {
      if -1.0 <= t <= 1.0 && m >= 0.0 {
        var below := 1.0 - t;
        var above := 1.0 + t;
        assert below * m >= 0.0 by { if below != 0.0 { assert below > 0.0; } }
        assert below * m == m - r;
        assert above * m >= 0.0;
        assert above * m == m + r;
      }
    }
    assert m > 0.0 ==> (r > 0.0 <==> t > 0.0) by {
      if m > 0.0 {
        if t > 0.0 { assert r > 0.0; }
        else if t < 0.0 { assert (-t) * m > 0.0; }
      }
    }
    r
  }

  /** The slide is proportional to the tension: slides add up, and a larger
      tension never slides the centre less. */
  lemma SlideLinear(a: real, b: real, m: real)
    ensures Slide(a + b, m) == Slide(a, m) + Slide(b, m)
    ensures m >= 0.0 && a <= b ==> Slide(a, m) <= Slide(b, m)
  {
    assert (a + b) * m == a * m + b * m;
    if m >= 0.0 && a <= b {
      var gap := b - a;
      assert gap * m >= 0.0 by { if gap != 0.0 { assert gap > 0.0; } }
      assert gap * m == b * m - a * m;
    }
  }

  /** The rope slides as one rigid piece: its centre follows the clamped
      tension and the grips sit half a rope length either side. */
  function RopeGrips(l: Layout, clampedT: real): (g: Grips)
    ensures g.rightX - g.leftX == l.ropeLen
    ensures g.center == (g.leftX + g.rightX) / 2.0
    ensures -1.0 <= clampedT <= 1.0 && l.maxSlide >= 0.0 ==>
      l.w / 2.0 - l.maxSlide <= g.center <= l.w / 2.0 + l.maxSlide
    ensures clampedT == 0.0 ==> g.center == l.w / 2.0
    ensures l.maxSlide > 0.0 ==> (g.center > l.w / 2.0 <==> clampedT > 0.0)
    ensures g.center == l.w / 2.0 + Slide(clampedT, l.maxSlide)
  {
    var center := l.w / 2.0 + Slide(clampedT, l.maxSlide);
    Grips(center, center - l.ropeLen / 2.0, center + l.ropeLen / 2.0)
  }

  /** Whatever the tension and pulse, the rope keeps its length and its
      centre stays within the slide range. */
  lemma RopeLengthInvariant(l: Layout, raw: real, pulse: real)
    requires l.maxSlide >= 0.0
    ensures var g := RopeGrips(l, ClampUnit(DisplayTension(raw, pulse)));
      && g.rightX - g.leftX == l.ropeLen
      && l.w / 2.0 - l.maxSlide <= g.center <= l.w / 2.0 + l.maxSlide
  {
  }

  /** Vertical dip of the rope's control point: small at rest, larger while
      the pulse spring is displaced. */
  function Sag(pulse: real): (r: real)
    ensures r >= SagBase
    ensures r == SagBase <==> pulse == 0.0
  {
    SagBase + Abs(pulse) * SagPerPulse
  }

  /** The sag depends only on the size of the pulse, not its sign, and grows
      with it. */
  lemma SagSymmetricMonotone(p: real, q: real)
    ensures Sag(-p) == Sag(p)
    ensures Abs(p) <= Abs(q) ==> Sag(p) <= Sag(q)
  {
  }

  /** The three control points of a drawn quadratic curve. */
  datatype Curve = Curve(p0: Point, c: Point, p1: Point)

  function CurvePt(cv: Curve, t: real): Point
  {
    BezierPt(t, cv.p0.x, cv.p0.y, cv.c.x, cv.c.y, cv.p1.x, cv.p1.y)
  }

  /** The rope body between two grips: control point above the midpoint,
      dipped by the sag. */
  function RopeCurve(x1: real, y1: real, x2: real, y2: real, sag: real): (cv: Curve)
    ensures cv.p0 == Point(x1, y1) && cv.p1 == Point(x2, y2)
    ensures cv.c.x == (x1 + x2) / 2.0
    ensures cv.c.y - sag == (y1 + y2) / 2.0
  {
    Curve(Point(x1, y1), Point((x1 + x2) / 2.0, (y1 + y2) / 2.0 + sag), Point(x2, y2))
  }

  function Shift(cv: Curve, dy: real): Curve
  {
    Curve(Point(cv.p0.x, cv.p0.y + dy), Point(cv.c.x, cv.c.y + dy), Point(cv.p1.x, cv.p1.y + dy))
  }

  /** The drop shadow (5 below) and the highlight (2 above) are the rope
      body moved vertically, point for point. */
  lemma ShadowAndHighlightFollowRope(x1: real, y1: real, x2: real, y2: real, sag: real, t: real)
    ensures var body := RopeCurve(x1, y1, x2, y2, sag);
      && CurvePt(Shift(body, 5.0), t) == Point(CurvePt(body, t).x, CurvePt(body, t).y + 5.0)
      && CurvePt(Shift(body, -2.0), t) == Point(CurvePt(body, t).x, CurvePt(body, t).y - 2.0)
  {
    var body := RopeCurve(x1, y1, x2, y2, sag);
    BezierTranslate(t, body.p0.x, body.p0.y, body.c.x, body.c.y, body.p1.x, body.p1.y, 5.0);
    BezierTranslate(t, body.p0.x, body.p0.y, body.c.x, body.c.y, body.p1.x, body.p1.y, -2.0);
  }

  /** Parameters of the twist marks along the rope: from 0.06 in steps of
      0.13 while below 1, which is eight marks. */
  method TwistSamples() returns (ts: seq<real>)
    ensures |ts| == 8
    ensures forall i :: 0 <= i < |ts| ==> ts[i] == TwistStart + TwistStep * (i as real)
    ensures forall i :: 0 <= i < |ts| ==> 0.0 < ts[i] < 1.0
  {
    ts := [];
    var t := TwistStart;
    while t < 1.0
      invariant |ts| <= 8
      invariant t == TwistStart + TwistStep * (|ts| as real)
      invariant forall i :: 0 <= i < |ts| ==> ts[i] == TwistStart + TwistStep * (i as real)
      invariant forall i :: 0 <= i < |ts| ==> 0.0 < ts[i] < 1.0
      decreases 8 - |ts|
    {
      ts := ts + [t];
      t := t + TwistStep;
    }
  }

  /** Where the twist marks sit on a curve. */
  function TwistPoints(cv: Curve, ts: seq<real>): (ps: seq<Point>)
    ensures |ps| == |ts|
  {
    seq(|ts|, i requires 0 <= i < |ts| => CurvePt(cv, ts[i]))
  }

  /** On a level rope the curve point at t lies the fraction t of the way
      from the left grip to the right one, dipped by 2t(1 - t) times the
      sag; strictly inside the rope that dip is between 0 and half the sag. */
  lemma LevelRopePoint(x1: real, x2: real, y: real, sag: real, t: real)
    ensures var p := CurvePt(RopeCurve(x1, y, x2, y, sag), t);
      && p.x == x1 + t * (x2 - x1)
      && p.y == y + 2.0 * t * (1.0 - t) * sag
      && (0.0 < t < 1.0 && sag >= 0.0 ==> y <= p.y <= y + sag / 2.0)
  {
    var p := CurvePt(RopeCurve(x1, y, x2, y, sag), t);
    var mt := 1.0 - t;
    assert mt * mt + 2.0 * mt * t + t * t == 1.0;
    assert p.x == mt * mt * x1 + mt * t * (x1 + x2) + t * t * x2;
    assert p.y == (mt * mt + 2.0 * mt * t + t * t) * y + 2.0 * mt * t * sag;
    var w := 2.0 * t * mt;
    assert p.y == y + w * sag;
    if 0.0 < t < 1.0 && sag >= 0.0 {
      assert w > 0.0 by { assert t * mt > 0.0; }
      var d := t - 0.5;
      assert 0.5 - w == 2.0 * (d * d);
      assert w * sag >= 0.0;
      var rest := 0.5 - w;
      assert rest * sag >= 0.0 by { if rest != 0.0 { assert rest > 0.0; } }
      assert rest * sag == sag / 2.0 - w * sag;
    }
  }

  /** The eight twist marks on a level rope advance by the same step of
      0.13 of the grip distance, and with a downward sag all hang between
      the grip height and the flag's dip of half the sag. */
  lemma TwistMarksOnLevelRope(x1: real, x2: real, y: real, sag: real, ts: seq<real>)
    requires forall i :: 0 <= i < |ts| ==> ts[i] == TwistStart + TwistStep * (i as real)
    requires forall i :: 0 <= i < |ts| ==> 0.0 < ts[i] < 1.0
    ensures var ps := TwistPoints(RopeCurve(x1, y, x2, y, sag), ts);
      && (forall i :: 0 <= i < |ps| ==> ps[i].x == x1 + ts[i] * (x2 - x1))
      && (forall i :: 0 < i < |ps| ==> ps[i].x - ps[i - 1].x == TwistStep * (x2 - x1))
      && (sag >= 0.0 ==> forall i :: 0 <= i < |ps| ==> y <= ps[i].y <= y + sag / 2.0)
  {
    TwistMarksAlong(x1, x2, y, sag, ts);
    TwistMarksEvenlySpaced(x1, x2, y, sag, ts);
    if sag >= 0.0 {
      TwistMarksHang(x1, x2, y, sag, ts);
    }
  }

  lemma TwistMarksAlong(x1: real, x2: real, y: real, sag: real, ts: seq<real>)
    ensures var ps := TwistPoints(RopeCurve(x1, y, x2, y, sag), ts);
      forall i :: 0 <= i < |ps| ==> ps[i].x == x1 + ts[i] * (x2 - x1)
  {
    var ps := TwistPoints(RopeCurve(x1, y, x2, y, sag), ts);
    forall i | 0 <= i < |ps|
      ensures ps[i].x == x1 + ts[i] * (x2 - x1)
    {
      LevelRopePoint(x1, x2, y, sag, ts[i]);
    }
  }

  lemma TwistMarksEvenlySpaced(x1: real, x2: real, y: real, sag: real, ts: seq<real>)
    requires forall i :: 0 <= i < |ts| ==> ts[i] == TwistStart + TwistStep * (i as real)
    ensures var ps := TwistPoints(RopeCurve(x1, y, x2, y, sag), ts);
      forall i :: 0 < i < |ps| ==> ps[i].x - ps[i - 1].x == TwistStep * (x2 - x1)
  {
    var ps := TwistPoints(RopeCurve(x1, y, x2, y, sag), ts);
    var cv := RopeCurve(x1, y, x2, y, sag);
    forall i | 0 < i < |ps|
      ensures ps[i].x - ps[i - 1].x == TwistStep * (x2 - x1)
    {
      var a := ts[i - 1];
      assert ts[i] == a + TwistStep;
      assert ps[i] == CurvePt(cv, a + TwistStep) && ps[i - 1] == CurvePt(cv, a);
      LevelRopeStep(x1, x2, y, sag, a);
    }
  }

  lemma LevelRopeStep(x1: real, x2: real, y: real, sag: real, a: real)
    ensures var cv := RopeCurve(x1, y, x2, y, sag);
      CurvePt(cv, a + TwistStep).x - CurvePt(cv, a).x == TwistStep * (x2 - x1)
  {
    var b := a + TwistStep;
    var dx := x2 - x1;
    LevelRopePoint(x1, x2, y, sag, a);
    LevelRopePoint(x1, x2, y, sag, b);
    assert b * dx == a * dx + TwistStep * dx;
  }

  lemma TwistMarksHang(x1: real, x2: real, y: real, sag: real, ts: seq<real>)
    requires forall i :: 0 <= i < |ts| ==> 0.0 < ts[i] < 1.0
    requires sag >= 0.0
    ensures var ps := TwistPoints(RopeCurve(x1, y, x2, y, sag), ts);
      forall i :: 0 <= i < |ps| ==> y <= ps[i].y <= y + sag / 2.0
  {
    var ps := TwistPoints(RopeCurve(x1, y, x2, y, sag), ts);
    forall i | 0 <= i < |ps|
      ensures y <= ps[i].y <= y + sag / 2.0
    {
      LevelRopePoint(x1, x2, y, sag, ts[i]);
    }
  }

  /** The translucent wash over the half of the arena whose side is winning. */
  datatype Glow = NoGlow | LeftGlow(alpha: real) | RightGlow(alpha: real)

  function GlowFor(t: real): (g: Glow)
    ensures g.NoGlow? <==> t == 0.0
    ensures g.LeftGlow? <==> t < 0.0
    ensures g.RightGlow? <==> t > 0.0
    ensures !g.NoGlow? ==> 0.0 < g.alpha <= 0.22
    ensures !g.NoGlow? && Abs(t) <= 0.88 ==> g.alpha == Abs(t) * 0.25
  {
    var alpha := Min(0.22, Abs(t) * 0.25);
    if t < 0.0 then LeftGlow(alpha) else if t > 0.0 then RightGlow(alpha) else NoGlow
  }

  // ---------------------------------------------------------------------------
  // Tension gauge
  // ---------------------------------------------------------------------------

  /** The coloured part of the gauge: blue growing left from the centre for
      a negative tension, red growing right for a positive one. */
  datatype MeterFill = NoFill | BlueFill(x: real, width: real) | RedFill(x: real, width: real)

  function MeterFillFor(t: real, w: real): (m: MeterFill)
    ensures m.NoFill? <==> t == 0.0
    ensures m.BlueFill? <==> t < 0.0
    ensures m.RedFill? <==> t > 0.0
    ensures m.BlueFill? ==> m.x + m.width == w / 2.0 && m.width == -t * (MeterWidth / 2.0)
    ensures m.RedFill? ==> m.x == w / 2.0 && m.width == t * (MeterWidth / 2.0)
    // a clamped tension keeps the fill inside the bar
    ensures -1.0 <= t <= 1.0 && !m.NoFill? ==>
      && 0.0 < m.width <= MeterWidth / 2.0
      && w / 2.0 - MeterWidth / 2.0 <= m.x
      && m.x + m.width <= w / 2.0 + MeterWidth / 2.0
  {
    var mX := w / 2.0 - MeterWidth / 2.0;
    var fillW := Abs(t) * (MeterWidth / 2.0);
    if t < 0.0 then BlueFill(mX + MeterWidth / 2.0 - fillW, fillW)
    else if t > 0.0 then RedFill(mX + MeterWidth / 2.0, fillW)
    else NoFill
  }

  // ---------------------------------------------------------------------------
  // Character pose
  // ---------------------------------------------------------------------------

  /** The numbers a character is drawn from. `dir` is +1 for the left
      character (facing right) and -1 for the right one. */
  datatype Pose = Pose(
    moving: bool,
    strideSpeed: real,
    strideAmp: real,
    dragAmt: real,
    totalStrain: real,
    leanFactor: real,
    leanX: real,
    stride: real,
    hipX: real,
    hipY: real,
    shoulderX: real,
    headX: real,
    headY: real,
    elbowX: real,
    distressed: bool)

  function Sign(x: real): real
  {
    if x > 0.0 then 1.0 else if x < 0.0 then -1.0 else 0.0
  }

  /** The gait phase; the character's stride is its sine. A character at
      rest idles forward at phase speed 2; a moving one walks at least three
      times as fast, in the direction its grip moves. */
  function GaitPhase(time: real, vel: real): (r: real)
    ensures Abs(vel) <= 0.15 ==> r == 2.0 * time
    ensures Abs(vel) > 0.15 && time > 0.0 ==> (r > 0.0 <==> vel > 0.0) && Abs(r) > 6.0 * time
    ensures time == 0.0 ==> r == 0.0
  {
    var moving := Abs(vel) > 0.15;
    var strideSpeed := if moving then Abs(vel) * 2.8 + 6.0 else 2.0;
    var dist := time * strideSpeed;
    assert moving && time > 0.0 ==> dist > 6.0 * time by {
      if moving && time > 0.0 {
        var extra := strideSpeed - 6.0;
        assert extra > 0.0;
        assert time * extra > 0.0;
        assert time * extra == dist - 6.0 * time;
      }
    }
    dist * (if moving then Sign(vel) else 1.0)
  }

  /** Grips moving in opposite directions walk in mirrored phase. */
  lemma GaitPhaseMirror(time: real, vel: real)
    ensures Abs(vel) > 0.15 ==> GaitPhase(time, -vel) == -GaitPhase(time, vel)
    ensures Abs(vel) <= 0.15 ==> GaitPhase(time, -vel) == GaitPhase(time, vel)
  {
  }

  /** How far the feet swing from under the hip: the gait sine scaled by
      the amplitude. */
  function Stride(sinPhase: real, amp: real): (r: real)
    ensures amp >= 0.0 && -1.0 <= sinPhase <= 1.0 ==> -amp <= r <= amp
    ensures sinPhase == 0.0 ==> r == 0.0
  {
    var r := sinPhase * amp;
    assert amp >= 0.0 && -1.0 <= sinPhase <= 1.0 ==> -amp <= r <= amp by {
      if amp >= 0.0 && -1.0 <= sinPhase <= 1.0 {
        var below := 1.0 - sinPhase;
        var above := 1.0 + sinPhase;
        assert below * amp >= 0.0 by { if below != 0.0 { assert below > 0.0; } }
        assert below * amp == amp - sinPhase * amp;
        assert above * amp >= 0.0;
        assert above * amp == amp + sinPhase * amp;
      }
    }
    r
  }

  /** The pose of a character gripping the rope at `handX`, pulled by the
      (unclamped) display tension, whose grip moved by `vel` this frame.
      `sinPhase` is the sine of `GaitPhase`. */
  function CharPose(handX: real, groundY: real, dir: real, displayTension: real,
                    vel: real, sinPhase: real): (p: Pose)
    ensures p.moving <==> Abs(vel) > 0.15
    ensures p.dragAmt >= 0.0
    ensures 0.0 <= p.totalStrain <= 1.0
    ensures 5.0 <= p.strideAmp <= 22.0
    ensures p.moving ==> p.strideAmp >= 10.0
    ensures -0.18 <= p.leanFactor <= 0.32
    // the character is dragged exactly when the tension pulls toward the other side
    ensures dir == 1.0 ==> (p.dragAmt > 0.0 <==> displayTension > 0.0)
    ensures dir != 1.0 ==> (p.dragAmt > 0.0 <==> displayTension < 0.0)
    ensures p.distressed <==> p.dragAmt > 0.25 || p.totalStrain > 0.5
    // the body stands BodyBack behind the grip, and the elbow between shoulder and fist
    ensures p.hipX == handX - dir * BodyBack
    ensures Min(p.shoulderX, handX) <= p.elbowX <= Max(p.shoulderX, handX)
    ensures p.headY == p.hipY - 77.0
    // a gait sine in [-1, 1] keeps the stride within its amplitude and the bob within 4
    ensures -1.0 <= sinPhase <= 1.0 ==>
      && -p.strideAmp <= p.stride <= p.strideAmp
      && groundY - 36.0 <= p.hipY <= groundY - 32.0
  {
    var moving := Abs(vel) > 0.15;
    var strideSpeed := if moving then Abs(vel) * 2.8 + 6.0 else 2.0;
    var strideAmp := if moving then Min(22.0, Abs(vel) * 8.0 + 10.0) else 5.0;
    var stride := Stride(sinPhase, strideAmp);
    var bob := Abs(sinPhase) * (if moving then 4.0 else 2.0);
    var dragAmt := if dir == 1.0 then Max(0.0, displayTension) else Max(0.0, -displayTension);
    var totalStrain := Min(1.0, dragAmt + Abs(displayTension) * 0.3);
    var leanFactor := -0.18 + totalStrain * 0.50;
    var leanX := -dir * leanFactor * 28.0;
    var hipX := handX - dir * BodyBack;
    var hipY := groundY - 36.0 + bob;
    var shoulderX := hipX + leanX;
    var shoulderY := hipY - 50.0;
    var headX := shoulderX + leanX * 0.55;
    var headY := shoulderY - 27.0;
    var elbowX := shoulderX + (handX - shoulderX) * 0.46;
    Pose(moving, strideSpeed, strideAmp, dragAmt, totalStrain, leanFactor, leanX,
         stride, hipX, hipY, shoulderX, headX, headY, elbowX, dragAmt > 0.25 || totalStrain > 0.5)
  }

  /** The two characters are mirror images: the right one under tension t
      strains, leans and grimaces like the left one under -t. */
  lemma PoseMirror(handX: real, handX': real, groundY: real, t: real, vel: real, sinPhase: real)
    ensures var l := CharPose(handX, groundY, 1.0, t, vel, sinPhase);
            var r := CharPose(handX', groundY, -1.0, -t, -vel, sinPhase);
      && l.dragAmt == r.dragAmt && l.totalStrain == r.totalStrain
      && l.strideAmp == r.strideAmp && l.distressed == r.distressed
      && l.leanX == -r.leanX && l.hipY == r.hipY
  {
  }

  /** The character being dragged strains at least as hard as the one
      winning, and the winner only grimaces once the display tension goes
      beyond 5/3. */
  lemma DraggedSideStrainsMore(handX: real, handX': real, groundY: real, t: real,
                               vel: real, vel': real, s: real, s': real)
    requires t > 0.0
    ensures var dragged := CharPose(handX, groundY, 1.0, t, vel, s);
            var leader := CharPose(handX', groundY, -1.0, t, vel', s');
      && dragged.totalStrain >= leader.totalStrain
      && leader.dragAmt == 0.0
      && (leader.distressed <==> t > 5.0 / 3.0)
  {
  }

  // ---------------------------------------------------------------------------
  // Dust particles
  // ---------------------------------------------------------------------------

  datatype Particle = Particle(x: real, y: real, vx: real, vy: real, r: real, life: real)

  /** The five `Math.random()` draws behind one dust particle. */
  datatype DustDraw = DustDraw(dx: real, dy: real, dvx: real, dvy: real, dr: real)

  /** The three particles' draws of one footstep. */
  datatype DustBurst = DustBurst(a: DustDraw, b: DustDraw, c: DustDraw)

  predicate DrawInRange(d: DustDraw)
  {
    InUnit(d.dx) && InUnit(d.dy) && InUnit(d.dvx) && InUnit(d.dvy) && InUnit(d.dr)
  }

  /** A new dust particle near `x` on the ground, kicked up and away from
      the direction the grip moved. */
  function NewParticle(x: real, vel: real, groundY: real, d: DustDraw): (p: Particle)
    ensures p.life == 1.0
    ensures DrawInRange(d) ==>
      && x - 12.0 <= p.x < x + 12.0
      && groundY <= p.y < groundY + 4.0
      && -1.25 - vel * 0.2 <= p.vx < 1.25 - vel * 0.2
      && -3.3 < p.vy <= -0.8
      && 2.0 <= p.r < 6.0
  {
    Particle(x + (d.dx - 0.5) * 24.0,
             groundY + d.dy * 4.0,
             (d.dvx - 0.5) * 2.5 - vel * 0.2,
             -(d.dvy * 2.5 + 0.8),
             d.dr * 4.0 + 2.0,
             1.0)
  }

  /** The three particles one footstep at `x` raises, in draw order. */
  function Born(x: real, vel: real, groundY: real, b: DustBurst): (r: seq<Particle>)
    ensures |r| == DustPerStep
  {
    [NewParticle(x, vel, groundY, b.a), NewParticle(x, vel, groundY, b.b),
     NewParticle(x, vel, groundY, b.c)]
  }

  /** The pool trimmed to its newest PoolCap particles. */
  function KeepNewest(all: seq<Particle>): (r: seq<Particle>)
    ensures |all| <= PoolCap ==> r == all
    ensures |all| > PoolCap ==> r == all[|all| - PoolCap..]
  {
    if |all| > PoolCap then all[|all| - PoolCap..] else all
  }

  /** Trimming before or after appending more particles keeps the same
      newest ones. */
  lemma KeepNewestAppend(all: seq<Particle>, more: seq<Particle>)
    ensures KeepNewest(KeepNewest(all) + more) == KeepNewest(all + more)
  {
    if |all| > PoolCap && more != [] {
      var kept := all[|all| - PoolCap..];
      var both := all + more;
      var lhs := (kept + more)[|more|..];
      var rhs := both[|both| - PoolCap..];
      assert |lhs| == PoolCap == |rhs|;
      forall i | 0 <= i < PoolCap
        ensures lhs[i] == rhs[i]
      {
        var j := |more| + i;
        if j < PoolCap {
          assert lhs[i] == kept[j] == all[|all| - PoolCap + j];
        } else {
          assert lhs[i] == more[j - PoolCap];
        }
      }
    } else if more == [] {
      assert KeepNewest(all) + more == KeepNewest(all);
      assert all + more == all;
    }
  }

  /** Whatever was pooled before, the particles appended last survive the
      trim. */
  lemma KeepNewestEndsWith(all: seq<Particle>, more: seq<Particle>)
    requires |more| <= PoolCap
    ensures var r := KeepNewest(all + more);
      |r| >= |more| && r[|r| - |more|..] == more
  {
    var both := all + more;
    assert both[|both| - |more|..] == more;
  }

  /** Push three particles and keep only the newest PoolCap. */
  function EmitDust(pool: seq<Particle>, x: real, vel: real, groundY: real, b: DustBurst)
    : (r: seq<Particle>)
    ensures |r| <= PoolCap
    ensures var born := Born(x, vel, groundY, b);
            var all := pool + born;
      && (|all| <= PoolCap ==> r == all)
      && (|all| > PoolCap ==> |r| == PoolCap && r == all[|all| - PoolCap..])
      && |r| >= DustPerStep && r[|r| - DustPerStep..] == born
  {
    KeepNewestEndsWith(pool, Born(x, vel, groundY, b));
    KeepNewest(pool + Born(x, vel, groundY, b))
  }

  /** One frame of motion: move by the velocity, fall, fade. */
  function Advance(p: Particle): Particle
  {
    p.(x := p.x + p.vx, y := p.y + p.vy, vy := p.vy + Gravity, life := p.life - LifeDecay)
  }

  function AdvanceN(p: Particle, k: nat): Particle
    decreases k
  {
    if k == 0 then p else Advance(AdvanceN(p, k - 1))
  }

  /** A particle's flight is a parabola: after k frames it has drifted k
      steps of its horizontal speed, gained k times the gravity in falling
      speed, dropped by k(k - 1)/2 gravity steps more than its initial
      speed gives, and lost k life steps; its size never changes. */
  lemma {:induction false} AdvanceNClosedForm(p: Particle, k: nat)
    ensures var q := AdvanceN(p, k);
      var n := k as real;
      && q.x == p.x + n * p.vx
      && q.vy == p.vy + n * Gravity
      && q.y == p.y + n * p.vy + Gravity * (n * (n - 1.0) / 2.0)
      && q.life == p.life - n * LifeDecay
      && q.vx == p.vx && q.r == p.r
    decreases k
  {
    if k > 0 {
      AdvanceNClosedForm(p, k - 1);
      var m := (k - 1) as real;
      var n := k as real;
      assert n * p.vx == m * p.vx + p.vx;
      assert n * p.vy == m * p.vy + p.vy;
      assert n * (n - 1.0) / 2.0 == m * (m - 1.0) / 2.0 + m;
    }
  }

  /** The particles still alive, in their original order. */
  function Survivors(ps: seq<Particle>): (r: seq<Particle>)
    ensures |r| <= |ps|
  {
    if ps == [] then []
    else
      var last := ps[|ps| - 1];
      var front := Survivors(ps[..|ps| - 1]);
      if last.life > 0.0 then front + [last] else front
  }

  /** A particle survives exactly when it was in the pool with life left. */
  lemma {:induction false} SurvivorsMembers(ps: seq<Particle>)
    ensures forall p :: p in Survivors(ps) <==> p in ps && p.life > 0.0
    decreases |ps|
  {
    if ps != [] {
      var front := ps[..|ps| - 1];
      var last := ps[|ps| - 1];
      SurvivorsMembers(front);
      assert ps == front + [last];
      assert forall p :: p in ps <==> p in front || p == last;
    }
  }

  /** Filtering is per particle and keeps the order: the survivors of two
      pools laid end to end are the survivors of each, in turn, and a single
      particle survives exactly when it has life left. */
  lemma {:induction false} SurvivorsFilter(ps: seq<Particle>, qs: seq<Particle>)
    ensures Survivors(ps + qs) == Survivors(ps) + Survivors(qs)
    ensures forall p :: Survivors([p]) == if p.life > 0.0 then [p] else []
    decreases |qs|
  {
    forall p
      ensures Survivors([p]) == if p.life > 0.0 then [p] else []
    {
      SurvivorsSingle(p);
    }
    SurvivorsAppend(ps, qs);
  }

  lemma {:induction false} SurvivorsAppend(ps: seq<Particle>, qs: seq<Particle>)
    ensures Survivors(ps + qs) == Survivors(ps) + Survivors(qs)
    decreases |qs|
  {
    if qs == [] {
      assert ps + qs == ps;
    } else {
      var front := qs[..|qs| - 1];
      var last := qs[|qs| - 1];
      assert qs == front + [last];
      SurvivorsAppendStep(ps, front, last);
    }
  }

  /** The induction step of SurvivorsAppend: one more particle at the end. */
  lemma SurvivorsAppendStep(ps: seq<Particle>, front: seq<Particle>, last: Particle)
    ensures Survivors(ps + (front + [last])) == Survivors(ps) + Survivors(front + [last])
    decreases |front| + 1, 0
  {
    var tail := if last.life > 0.0 then [last] else [];
    SurvivorsAppend(ps, front);
    assert ps + (front + [last]) == (ps + front) + [last];
    SurvivorsSnoc(ps + front, last);
    SurvivorsSnoc(front, last);
    assert (Survivors(ps) + Survivors(front)) + tail == Survivors(ps) + (Survivors(front) + tail);
  }

  lemma SurvivorsSingle(p: Particle)
    ensures Survivors([p]) == if p.life > 0.0 then [p] else []
  {
    assert [p][..0] == [];
  }

  lemma SurvivorsSnoc(ps: seq<Particle>, p: Particle)
    ensures Survivors(ps + [p]) == Survivors(ps) + (if p.life > 0.0 then [p] else [])
  {
    var all := ps + [p];
    assert all[..|all| - 1] == ps;
  }

  /** The frame update of the pool: drop the dead, then advance the rest. */
  function Updated(ps: seq<Particle>): (r: seq<Particle>)
    ensures |r| == |Survivors(ps)| <= |ps|
    ensures forall i :: 0 <= i < |r| ==> r[i] == Advance(Survivors(ps)[i])
  {
    var sv := Survivors(ps);
    seq(|sv|, i requires 0 <= i < |sv| => Advance(sv[i]))
  }

  /** The update as one pass over the pool. */
  method UpdateParticles(ps: seq<Particle>) returns (r: seq<Particle>)
    ensures r == Updated(ps)
  {
    r := [];
    var i := 0;
    while i < |ps|
      invariant 0 <= i <= |ps|
      invariant r == Updated(ps[..i])
    {
      assert ps[..i + 1][..i] == ps[..i];
      if ps[i].life > 0.0 {
        r := r + [Advance(ps[i])];
      }
      i := i + 1;
    }
    assert ps[..|ps|] == ps;
  }

  /** A particle is painted only while it still has life left; its radius
      shrinks with its life but never below half a unit. */
  predicate Drawn(p: Particle) { p.life > 0.0 }

  function DrawRadius(p: Particle): (r: real)
    ensures r >= 0.5
  {
    Max(0.5, p.r * p.life)
  }

  /** Opacity fades with life, from 0.55 for a newborn particle. */
  function DrawAlpha(p: Particle): (a: real)
    ensures Drawn(p) && p.life <= 1.0 ==> 0.0 < a <= 0.55
    ensures p.life == 1.0 ==> a == 0.55
    ensures p.life < 1.0 ==> a < 0.55
  {
    p.life * 0.55
  }

  /** Every particle after an update had life before it and lost exactly
      LifeDecay; one that is now out of life is still in the pool, undrawn,
      and gone after the next update. */
  lemma UpdateLife(ps: seq<Particle>)
    ensures forall i :: 0 <= i < |Updated(ps)| ==>
      Survivors(ps)[i].life > 0.0 && Updated(ps)[i].life == Survivors(ps)[i].life - LifeDecay
    ensures forall q :: q in Updated(ps) && !Drawn(q) ==> q !in Survivors(Updated(ps))
  {
    var sv := Survivors(ps);
    SurvivorsMembers(ps);
    SurvivorsMembers(Updated(ps));
    forall i | 0 <= i < |sv|
      ensures sv[i].life > 0.0
    {
      assert sv[i] in sv;
    }
  }

  /** If every particle has life at most m, after an update every particle
      has life at most m - LifeDecay. */
  lemma UpdateLowersLife(ps: seq<Particle>, m: real)
    requires forall p :: p in ps ==> p.life <= m
    ensures forall q :: q in Updated(ps) ==> q.life <= m - LifeDecay
  {
    var sv := Survivors(ps);
    SurvivorsMembers(ps);
    forall q | q in Updated(ps)
      ensures q.life <= m - LifeDecay
    {
      var i :| 0 <= i < |Updated(ps)| && Updated(ps)[i] == q;
      assert sv[i] in sv;
    }
  }

  function UpdatedN(ps: seq<Particle>, k: nat): seq<Particle>
    decreases k
  {
    if k == 0 then ps else Updated(UpdatedN(ps, k - 1))
  }

  lemma {:induction false} UpdatedNLife(ps: seq<Particle>, m: real, k: nat)
    requires forall p :: p in ps ==> p.life <= m
    ensures forall q :: q in UpdatedN(ps, k) ==> q.life <= m - LifeDecay * (k as real)
    decreases k
  {
    if k > 0 {
      UpdatedNLife(ps, m, k - 1);
      UpdateLowersLife(UpdatedN(ps, k - 1), m - LifeDecay * ((k - 1) as real));
    }
  }

  /** Without new footsteps the pool empties: particles born with life 1
      are all gone after 24 frames. */
  lemma PoolDrainsIn24Frames(ps: seq<Particle>)
    requires forall p :: p in ps ==> p.life <= 1.0
    ensures UpdatedN(ps, 24) == []
  {
    UpdatedNLife(ps, 1.0, 23);
    var late := UpdatedN(ps, 23);
    assert forall q :: q in late ==> q.life <= 0.0;
    NoSurvivors(late);
  }

  lemma {:induction false} NoSurvivors(ps: seq<Particle>)
    requires forall p :: p in ps ==> p.life <= 0.0
    ensures Survivors(ps) == []
    decreases |ps|
  {
    if ps != [] {
      var front := ps[..|ps| - 1];
      assert ps[|ps| - 1] in ps;
      assert forall p :: p in front ==> p in ps;
      NoSurvivors(front);
    }
  }

  // ---------------------------------------------------------------------------
  // The frame ticker
  // ---------------------------------------------------------------------------

  /** What the arena carries from one frame to the next. */
  datatype Ticker = Ticker(prevLeftX: real, prevRightX: real, time: real, pool: seq<Particle>)

  /** Before the first frame the previous grips are the resting grips, so a
      first frame at rest sees no motion. */
  function InitialTicker(l: Layout): (tk: Ticker)
    ensures tk.prevLeftX == RopeGrips(l, 0.0).leftX && tk.prevRightX == RopeGrips(l, 0.0).rightX
    ensures tk.prevRightX - tk.prevLeftX == l.ropeLen
    ensures tk.time == 0.0 && tk.pool == []
  {
    Ticker(l.w / 2.0 - l.ropeLen / 2.0, l.w / 2.0 + l.ropeLen / 2.0, 0.0, [])
  }

  /** Everything one frame draws. */
  datatype FrameView = FrameView(
    displayTension: real,
    clampedT: real,
    grips: Grips,
    leftVel: real,
    rightVel: real,
    sag: real,
    rope: Curve,
    flag: Point,
    bannerRight: bool,
    glow: Glow,
    meter: MeterFill,
    leftPhase: real,
    rightPhase: real,
    leftPose: Pose,
    rightPose: Pose)

  datatype FrameInput = FrameInput(
    raw: real,           // raw tension
    pulse: real,         // pulse displacement
    deltaTime: real,     // ticker delta in 60 Hz frames
    sinLeft: real,       // sine of the left character's gait phase
    sinRight: real,      // sine of the right character's gait phase
    leftDust: DustBurst,
    rightDust: DustBurst)

  datatype FrameResult = FrameResult(next: Ticker, view: FrameView)

  /** Footstep dust for both grips, left first. A grip raises a burst
      exactly when it moved by more than DustThreshold this frame; the pool
      is then the newest PoolCap of the old particles and the new bursts. */
  function EmitFootsteps(pool: seq<Particle>, l: Layout, g: Grips, leftVel: real, rightVel: real,
                         in_: FrameInput): (r: seq<Particle>)
    ensures var stepL := Abs(leftVel) > DustThreshold;
            var stepR := Abs(rightVel) > DustThreshold;
            var left := Born(g.leftX - BodyBack, leftVel, l.groundY, in_.leftDust);
            var right := Born(g.rightX + BodyBack, rightVel, l.groundY, in_.rightDust);
            var all := pool + (if stepL then left else []) + (if stepR then right else []);
      && (!stepL && !stepR ==> r == pool)
      && (stepL || stepR ==> r == KeepNewest(all) && |r| <= PoolCap)
      && (stepR ==> |r| >= DustPerStep && r[|r| - DustPerStep..] == right)
      && (stepL && !stepR ==> |r| >= DustPerStep && r[|r| - DustPerStep..] == left)
      && (stepL && stepR ==> |r| >= 2 * DustPerStep && r[|r| - 2 * DustPerStep..] == left + right)
  {
    var stepL := Abs(leftVel) > DustThreshold;
    var stepR := Abs(rightVel) > DustThreshold;
    var left := Born(g.leftX - BodyBack, leftVel, l.groundY, in_.leftDust);
    var right := Born(g.rightX + BodyBack, rightVel, l.groundY, in_.rightDust);
    var p1 := if stepL then EmitDust(pool, g.leftX - BodyBack, leftVel, l.groundY, in_.leftDust)
              else pool;
    var r := if stepR then EmitDust(p1, g.rightX + BodyBack, rightVel, l.groundY, in_.rightDust)
             else p1;
    assert pool + left + [] == pool + left;
    assert pool + [] + right == pool + right;
    assert pool + left + right == pool + (left + right);
    KeepNewestAppend(pool + left, right);
    KeepNewestEndsWith(pool, left + right);
    r
  }

  /** One ticker callback. */
  function RenderFrame(l: Layout, tk: Ticker, in_: FrameInput): (res: FrameResult)
    // the drawn tension is the raw tension plus the pulse share; the rope,
    // meter, banner and glow get it clamped, the characters get it unclamped
    ensures res.view.displayTension == DisplayTension(in_.raw, in_.pulse)
    ensures res.view.clampedT == ClampUnit(res.view.displayTension)
    ensures res.view.grips == RopeGrips(l, res.view.clampedT)
    ensures res.view.sag == Sag(in_.pulse)
    ensures res.view.rope
         == RopeCurve(res.view.grips.leftX, l.handY, res.view.grips.rightX, l.handY, res.view.sag)
    ensures res.view.leftPose
         == CharPose(res.view.grips.leftX, l.groundY, 1.0, res.view.displayTension,
                     res.view.leftVel, in_.sinLeft)
    ensures res.view.rightPose
         == CharPose(res.view.grips.rightX, l.groundY, -1.0, res.view.displayTension,
                     res.view.rightVel, in_.sinRight)
    // the rope is rigid and the flag rides on its drawn midpoint
    ensures res.view.grips.rightX - res.view.grips.leftX == l.ropeLen
    ensures res.view.flag == CurvePt(res.view.rope, 0.5)
    ensures res.view.flag == Point(res.view.grips.center, l.handY + res.view.sag / 2.0)
    ensures res.view.bannerRight <==> res.view.clampedT >= 0.0
    ensures -1.0 <= res.view.clampedT <= 1.0
    ensures res.view.meter == MeterFillFor(res.view.clampedT, l.w)
    ensures res.view.glow == GlowFor(res.view.clampedT)
    // both grips move by the same amount, so they raise dust together
    ensures tk.prevRightX - tk.prevLeftX == l.ropeLen ==>
      && res.view.leftVel == res.view.rightVel
      && (Abs(res.view.leftVel) > DustThreshold <==> Abs(res.view.rightVel) > DustThreshold)
    ensures res.next.prevLeftX == res.view.grips.leftX
    ensures res.next.prevRightX == res.view.grips.rightX
    ensures res.next.time == tk.time + in_.deltaTime / 60.0
    // each character's gait phase runs on the accumulated time and its own grip's move
    ensures res.view.leftPhase == GaitPhase(res.next.time, res.view.leftVel)
    ensures res.view.rightPhase == GaitPhase(res.next.time, res.view.rightVel)
    ensures |tk.pool| <= PoolCap ==> |res.next.pool| <= PoolCap
    // each grip's velocity is its move since the last frame; the pool gains
    // the footstep dust, then drops the dead and moves the rest one frame
    ensures res.view.leftVel == res.view.grips.leftX - tk.prevLeftX
    ensures res.view.rightVel == res.view.grips.rightX - tk.prevRightX
    ensures res.next.pool
         == Updated(EmitFootsteps(tk.pool, l, res.view.grips, res.view.leftVel, res.view.rightVel, in_))
    ensures tk.prevRightX - tk.prevLeftX == l.ropeLen && Abs(res.view.leftVel) <= DustThreshold ==>
      res.next.pool == Updated(tk.pool)
  {
    var time := tk.time + in_.deltaTime / 60.0;
    var dt := DisplayTension(in_.raw, in_.pulse);
    var ct := ClampUnit(dt);
    var g := RopeGrips(l, ct);
    var leftVel := g.leftX - tk.prevLeftX;
    var rightVel := g.rightX - tk.prevRightX;
    var emitted := EmitFootsteps(tk.pool, l, g, leftVel, rightVel, in_);
    var sag := Sag(in_.pulse);
    var rope := RopeCurve(g.leftX, l.handY, g.rightX, l.handY, sag);
    var pool := Updated(emitted);
    var leftPose := CharPose(g.leftX, l.groundY, 1.0, dt, leftVel, in_.sinLeft);
    var rightPose := CharPose(g.rightX, l.groundY, -1.0, dt, rightVel, in_.sinRight);
    var flag := BezierPt(0.5, g.leftX, l.handY, g.center, l.handY + sag, g.rightX, l.handY);
    BezierMidpoint(g.leftX, l.handY, g.center, l.handY + sag, g.rightX);
    FrameResult(
      Ticker(g.leftX, g.rightX, time, pool),
      FrameView(dt, ct, g, leftVel, rightVel, sag, rope, flag, ct >= 0.0, GlowFor(ct),
                MeterFillFor(ct, l.w), GaitPhase(time, leftVel), GaitPhase(time, rightVel),
                leftPose, rightPose))
  }

  function RunFrames(l: Layout, tk: Ticker, ins: seq<FrameInput>): Ticker
    decreases |ins|
  {
    if ins == [] then tk else RunFrames(l, RenderFrame(l, tk, ins[0]).next, ins[1..])
  }

  /** From the arena's first frame on, whatever the tension, pulse and random
      draws, the pool never holds more than PoolCap particles and the grips
      stay a rope length apart. */
  lemma {:induction false} PoolStaysBounded(l: Layout, tk: Ticker, ins: seq<FrameInput>)
    requires |tk.pool| <= PoolCap
    requires tk.prevRightX - tk.prevLeftX == l.ropeLen
    ensures |RunFrames(l, tk, ins).pool| <= PoolCap
    ensures RunFrames(l, tk, ins).prevRightX - RunFrames(l, tk, ins).prevLeftX == l.ropeLen
    decreases |ins|
  {
    if ins != [] {
      PoolStaysBounded(l, RenderFrame(l, tk, ins[0]).next, ins[1..]);
    }
  }

  /** A frame's rope and gauge follow the raw tension plus the pulse share:
      within [-1, 1] the gauge shows exactly that, and beyond it the rope
      sits at full slide toward the winning side. */
  lemma FrameFollowsDisplayTension(l: Layout, tk: Ticker, in_: FrameInput)
    ensures var v := RenderFrame(l, tk, in_).view;
            var dt := in_.raw + in_.pulse * PulseShare;
      && (-1.0 <= dt <= 1.0 ==> v.clampedT == dt && v.meter == MeterFillFor(dt, l.w))
      && (dt >= 1.0 ==> v.grips.center == l.w / 2.0 + l.maxSlide && v.bannerRight)
      && (dt <= -1.0 ==> v.grips.center == l.w / 2.0 - l.maxSlide && !v.bannerRight)
  {
    var v := RenderFrame(l, tk, in_).view;
    var dt := in_.raw + in_.pulse * PulseShare;
    assert v.clampedT == ClampUnit(dt);
    assert v.grips == RopeGrips(l, v.clampedT);
  }

  /** The first frame with the rope at rest moves nothing and raises no
      dust. */
  lemma FirstFrameAtRest(l: Layout, in_: FrameInput)
    requires in_.raw == 0.0 && in_.pulse == 0.0
    ensures var res := RenderFrame(l, InitialTicker(l), in_);
      res.view.leftVel == 0.0 && res.view.rightVel == 0.0 && res.next.pool == []
  {
    assert Survivors([]) == [];
  }

  lemma ArenaPoolBounded(l: Layout, ins: seq<FrameInput>)
    ensures |RunFrames(l, InitialTicker(l), ins).pool| <= PoolCap
  {
    PoolStaysBounded(l, InitialTicker(l), ins);
  }
}
