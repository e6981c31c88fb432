/** The curve drawn with those slopes: one cubic between each two points, and when it stays between them. */
module SparkCurve {
  import opened SparkSlopes

  /** A cubic Bézier's ordinate. The abscissas of the control points are evenly spread, so x runs evenly with t. */
  function Bezier(p: real, q: real, r: real, s: real, t: real): real {
    var u := 1.0 - t;
    u * u * u * p + 3.0 * (u * u * t) * q + 3.0 * (u * t * t) * r + t * t * t * s
  }

  /** The segment from one point to the next, with a slope at each end. */
  function Height(from: Point, to: Point, a: real, b: real, t: real): real {
    var third := (to.x - from.x) / 3.0;
    Bezier(from.y, from.y + a * third, to.y - b * third, to.y, t)
  }

  /** The share of the rise behind it at t, when the end slopes are alpha and beta times the secant. */
  function Progress(alpha: real, beta: real, t: real): real {
    var u := 1.0 - t;
    alpha * (u * u * t) + (3.0 - beta) * (u * t * t) + t * t * t
  }

  function Rate(alpha: real, beta: real, t: real): real {
    var u := 1.0 - t;
    alpha * (u * u) + 2.0 * (3.0 - alpha - beta) * (u * t) + beta * (t * t)
  }

  lemma BezierIsProgress(y: real, d: real, alpha: real, beta: real, t: real)
    ensures Bezier(y, y + alpha * d / 3.0, y + d - beta * d / 3.0, y + d, t) == y + d * Progress(alpha, beta, t)
  {
  }

  lemma ThirdOfRise(slope: real, secant: real, h: real)
    requires secant != 0.0
    ensures slope * (h / 3.0) == slope / secant * (secant * h) / 3.0
  {
    var ratio := slope / secant;
    assert slope == ratio * secant;
  }

  lemma HeightIsProgress(from: Point, to: Point, a: real, b: real, t: real)
    requires from.x < to.x && from.y != to.y
    ensures var secant := Rise(from, to);
            secant != 0.0 && Height(from, to, a, b, t) == from.y + (to.y - from.y) * Progress(a / secant, b / secant, t)
  {
    var h, d := to.x - from.x, to.y - from.y;
    var secant := d / h;
    assert secant * h == d;
    assert secant != 0.0;
    ThirdOfRise(a, secant, h);
    ThirdOfRise(b, secant, h);
    BezierIsProgress(from.y, d, a / secant, b / secant, t);
  }

  // ---- gentle slopes never turn back ---------------------------------------------------------------

  lemma Square(x: real)
    ensures x * x >= 0.0
  {
  }

  lemma Product(x: real, y: real)
    requires x >= 0.0 && y >= 0.0
    ensures x * y >= 0.0
  {
  }

  lemma SquareIsPositive(x: real)
    requires x != 0.0
    ensures x * x > 0.0
  {
  }

  lemma Cancel(x: real, y: real)
    requires x > 0.0 && x * y >= 0.0
    ensures y >= 0.0
  {
  }

  lemma ProgressExpanded(alpha: real, beta: real, t: real)
    ensures Progress(alpha, beta, t) == alpha * t + (3.0 - 2.0 * alpha - beta) * (t * t) + (alpha + beta - 2.0) * (t * t * t)
  {
  }

  lemma RateExpanded(alpha: real, beta: real, t: real)
    ensures Rate(alpha, beta, t) == alpha + 2.0 * (3.0 - 2.0 * alpha - beta) * t + 3.0 * (alpha + beta - 2.0) * (t * t)
  {
  }

  function Quadratic(a: real, b: real, c: real, t: real): real {
    a + 2.0 * b * t + 3.0 * c * (t * t)
  }

  lemma SimpsonOnPowers(a: real, b: real, c: real, s: real, t: real)
    ensures a * (t - s) + b * (t * t - s * s) + c * (t * t * t - s * s * s) ==
            (t - s) / 6.0 * (Quadratic(a, b, c, s) + 4.0 * Quadratic(a, b, c, (s + t) / 2.0) + Quadratic(a, b, c, t))
  {
    var m, w := (s + t) / 2.0, (t - s) / 6.0;
    assert Quadratic(a, b, c, s) + 4.0 * Quadratic(a, b, c, m) + Quadratic(a, b, c, t)
        == 6.0 * a + b * (6.0 * (s + t)) + c * (6.0 * (s * s + s * t + t * t));
    assert w * (6.0 * a) == a * (t - s);
    assert w * (b * (6.0 * (s + t))) == b * (t * t - s * s);
    assert w * (c * (6.0 * (s * s + s * t + t * t))) == c * (t * t * t - s * s * s);
  }

  /** Progress is what its rate adds up to; Simpson's rule is exact on a quadratic. */
  lemma Simpson(alpha: real, beta: real, s: real, t: real)
    ensures Progress(alpha, beta, t) - Progress(alpha, beta, s) ==
            (t - s) / 6.0 * (Rate(alpha, beta, s) + 4.0 * Rate(alpha, beta, (s + t) / 2.0) + Rate(alpha, beta, t))
  {
    hide Progress, Rate;
    var b, c := 3.0 - 2.0 * alpha - beta, alpha + beta - 2.0;
    ProgressExpanded(alpha, beta, s);
    ProgressExpanded(alpha, beta, t);
    RateExpanded(alpha, beta, s);
    RateExpanded(alpha, beta, t);
    RateExpanded(alpha, beta, (s + t) / 2.0);
    SimpsonOnPowers(alpha, b, c, s, t);
  }

  lemma SumIsBounded(alpha: real, beta: real)
    requires alpha >= 0.0 && beta >= 0.0 && SquareSum(alpha, beta) <= 9.0
    ensures alpha <= 3.0 && beta <= 3.0
  {
    Square(alpha);
    Square(beta);
    assert (3.0 - alpha) * (3.0 + alpha) >= 0.0;
    assert (3.0 - beta) * (3.0 + beta) >= 0.0;
    Cancel(3.0 + alpha, 3.0 - alpha);
    Cancel(3.0 + beta, 3.0 - beta);
  }

  /** alpha and beta inside the circle: the rate's discriminant is not positive where its middle term is negative. */
  lemma CircleBound(alpha: real, beta: real)
    requires alpha >= 0.0 && beta >= 0.0 && SquareSum(alpha, beta) <= 9.0 && alpha + beta >= 3.0
    ensures (alpha + beta - 3.0) * (alpha + beta - 3.0) <= alpha * beta
  {
    var s, p := alpha + beta, alpha * beta;
    SumIsBounded(alpha, beta);
    Product(s - 3.0, 9.0 - s);
    assert s * s == SquareSum(alpha, beta) + 2.0 * p;
    assert (s - 3.0) * (s - 3.0) == s * s - 6.0 * s + 9.0;
    assert (s - 3.0) * (9.0 - s) == 12.0 * s - s * s - 27.0;
  }

  lemma FormIsPositive(alpha: real, beta: real, k: real, u: real, t: real)
    requires alpha >= 0.0 && beta >= 0.0 && k * k <= alpha * beta
    ensures alpha * (u * u) - 2.0 * k * (u * t) + beta * (t * t) >= 0.0
  {
    var form := alpha * (u * u) - 2.0 * k * (u * t) + beta * (t * t);
    Square(t);
    if alpha > 0.0 {
      Square(alpha * u - k * t);
      Product(alpha * beta - k * k, t * t);
      CompletedSquare(alpha, beta, k, u, t);
      Cancel(alpha, form);
    } else {
      assert alpha * beta == 0.0;
      if k != 0.0 {
        SquareIsPositive(k);
      }
      assert 2.0 * k * (u * t) == 0.0;
      Product(beta, t * t);
    }
  }

  lemma CompletedSquare(alpha: real, beta: real, k: real, u: real, t: real)
    ensures alpha * (alpha * (u * u) - 2.0 * k * (u * t) + beta * (t * t)) ==
            (alpha * u - k * t) * (alpha * u - k * t) + (alpha * beta - k * k) * (t * t)
  {
    assert (alpha * u - k * t) * (alpha * u - k * t) == alpha * alpha * (u * u) - 2.0 * (alpha * k) * (u * t) + k * k * (t * t);
  }

  lemma RateIsPositive(alpha: real, beta: real, t: real)
    requires alpha >= 0.0 && beta >= 0.0 && SquareSum(alpha, beta) <= 9.0 && 0.0 <= t <= 1.0
    ensures Rate(alpha, beta, t) >= 0.0
  {
    hide Rate, SquareSum;
    var u := 1.0 - t;
    var k := alpha + beta - 3.0;
    if k >= 0.0 {
      CircleBound(alpha, beta);
      FormIsPositive(alpha, beta, k, u, t);
    } else {
      Product(u, t);
      Square(u);
      Square(t);
      Product(alpha, u * u);
      Product(beta, t * t);
      Product(-k, u * t);
    }
    RateAsForm(alpha, beta, t);
  }

  lemma RateAsForm(alpha: real, beta: real, t: real)
    ensures Rate(alpha, beta, t) ==
            alpha * ((1.0 - t) * (1.0 - t)) - 2.0 * (alpha + beta - 3.0) * ((1.0 - t) * t) + beta * (t * t)
  {
  }

  lemma ProgressRises(alpha: real, beta: real, s: real, t: real)
    requires alpha >= 0.0 && beta >= 0.0 && SquareSum(alpha, beta) <= 9.0 && 0.0 <= s <= t <= 1.0
    ensures Progress(alpha, beta, s) <= Progress(alpha, beta, t)
  {
    hide Progress, Rate, SquareSum;
    RateIsPositive(alpha, beta, s);
    RateIsPositive(alpha, beta, (s + t) / 2.0);
    RateIsPositive(alpha, beta, t);
    Simpson(alpha, beta, s, t);
    Product((t - s) / 6.0, Rate(alpha, beta, s) + 4.0 * Rate(alpha, beta, (s + t) / 2.0) + Rate(alpha, beta, t));
  }

  // ---- a slope that goes the wrong way leaves the range --------------------------------------------

  /** Just after its start the segment is behind it, when the first slope goes against the secant. */
  lemma DipsAtStart(alpha: real, beta: real, steep: real) returns (t: real)
    requires alpha < 0.0 && steep >= 0.0 && -steep <= beta
    ensures 0.0 < t < 1.0 && Progress(alpha, beta, t) < 0.0
  {
    t := SmallStep(-alpha, 4.0 + steep);
    DipsWithin(alpha, beta, steep, t);
  }

  lemma SmallStep(down: real, room: real) returns (t: real)
    requires down > 0.0 && room > 0.0
    ensures 0.0 < t <= 0.5 && t * room < down / 4.0
  {
    var whole := 4.0 * room + 2.0 * down;
    t := down / whole;
    assert t * whole == down;
    assert t > 0.0;
    assert t * room > 0.0 && t * down > 0.0;
    assert 4.0 * (t * room) + 2.0 * (t * down) == down;
    assert down * (1.0 - 2.0 * t) >= 0.0;
    Cancel(down, 1.0 - 2.0 * t);
  }

  /** The parts of the progress over t: what the first slope pulls back, and what the rest adds. */
  function Pull(alpha: real, t: real): real {
    alpha * ((1.0 - t) * (1.0 - t))
  }

  function Push(beta: real, t: real): real {
    (3.0 - beta) * ((1.0 - t) * t) + t * t
  }

  lemma PullIsStrong(alpha: real, t: real)
    requires alpha < 0.0 && 0.0 < t <= 0.5
    ensures Pull(alpha, t) <= alpha / 4.0
  {
    var u := 1.0 - t;
    Product(u - 0.5, u + 0.5);
    Product(-alpha, u * u - 0.25);
  }

  lemma PushIsWeak(beta: real, steep: real, t: real)
    requires steep >= 0.0 && -steep <= beta && 0.0 < t <= 0.5
    ensures Push(beta, t) <= t * (4.0 + steep)
  {
    var w := (1.0 - t) * t;
    Product(1.0 - t, t);
    Product(steep + beta, w);
    Square(t);
    Product(3.0 + steep, t - w);
  }

  lemma DipsWithin(alpha: real, beta: real, steep: real, t: real)
    requires alpha < 0.0 && steep >= 0.0 && -steep <= beta && 0.0 < t <= 0.5 && t * (4.0 + steep) < -alpha / 4.0
    ensures Progress(alpha, beta, t) < 0.0
  {
    hide Progress, Pull, Push;
    PullIsStrong(alpha, t);
    PushIsWeak(beta, steep, t);
    NegativeMultiple(t, Pull(alpha, t) + Push(beta, t));
    ProgressFactored(alpha, beta, t);
  }

  lemma NegativeMultiple(t: real, x: real)
    requires t > 0.0 && x < 0.0
    ensures t * x < 0.0
  {
  }

  lemma ProgressFactored(alpha: real, beta: real, t: real)
    ensures Progress(alpha, beta, t) == t * (Pull(alpha, t) + Push(beta, t))
  {
  }

  /** Seen from its end, a segment is the same kind of segment with its slopes exchanged. */
  lemma ProgressMirrored(alpha: real, beta: real, t: real)
    ensures Progress(alpha, beta, 1.0 - t) == 1.0 - Progress(beta, alpha, t)
  {
    ProgressExpanded(alpha, beta, 1.0 - t);
    ProgressExpanded(beta, alpha, t);
    var r := 1.0 - t;
    assert r * r == 1.0 - 2.0 * t + t * t;
    assert r * r * r == 1.0 - 3.0 * t + 3.0 * (t * t) - t * t * t;
  }

  // ---- the drawn curve -----------------------------------------------------------------------------

  /** The segment stays between its two points. */
  ghost predicate Between(from: Point, to: Point, a: real, b: real) {
    forall t :: 0.0 <= t <= 1.0 ==>
      (from.y <= Height(from, to, a, b, t) <= to.y || to.y <= Height(from, to, a, b, t) <= from.y)
  }

  /** The segment never turns back on its way to the second point. */
  ghost predicate NeverTurns(from: Point, to: Point, a: real, b: real) {
    forall s, t :: 0.0 <= s <= t <= 1.0 ==>
      if from.y <= to.y then Height(from, to, a, b, s) <= Height(from, to, a, b, t)
      else Height(from, to, a, b, t) <= Height(from, to, a, b, s)
  }

  lemma Ends(from: Point, to: Point, a: real, b: real)
    ensures Height(from, to, a, b, 0.0) == from.y && Height(from, to, a, b, 1.0) == to.y
  {
  }

  lemma FlatSegment(from: Point, to: Point, t: real)
    requires from.y == to.y
    ensures Height(from, to, 0.0, 0.0, t) == from.y
  {
    var u := 1.0 - t;
    assert u * u * u + 3.0 * (u * u * t) + 3.0 * (u * t * t) + t * t * t == 1.0;
  }

  lemma Scale(d: real, p: real, q: real)
    requires p <= q
    ensures d >= 0.0 ==> d * p <= d * q
    ensures d <= 0.0 ==> d * q <= d * p
  {
    if d >= 0.0 {
      Product(d, q - p);
    } else {
      Product(-d, q - p);
    }
  }

  lemma GentleRuns(from: Point, to: Point, a: real, b: real, s: real, t: real)
    requires from.x < to.x && Gentle(Rise(from, to), a, b) && 0.0 <= s <= t <= 1.0
    ensures from.y <= to.y ==> Height(from, to, a, b, s) <= Height(from, to, a, b, t)
    ensures from.y >= to.y ==> Height(from, to, a, b, t) <= Height(from, to, a, b, s)
  {
    hide Height, Progress;
    if from.y == to.y {
      assert a == 0.0 && b == 0.0;
      FlatSegment(from, to, s);
      FlatSegment(from, to, t);
    } else {
      HeightIsProgress(from, to, a, b, s);
      HeightIsProgress(from, to, a, b, t);
      hide Rise;
      var alpha, beta := a / Rise(from, to), b / Rise(from, to);
      ProgressRises(alpha, beta, s, t);
      Scale(to.y - from.y, Progress(alpha, beta, s), Progress(alpha, beta, t));
    }
  }

  lemma GentleNeverTurns(from: Point, to: Point, a: real, b: real)
    requires from.x < to.x && Gentle(Rise(from, to), a, b)
    ensures NeverTurns(from, to, a, b)
  {
    hide Gentle, Rise, Height;
    forall s, t | 0.0 <= s <= t <= 1.0
      ensures from.y <= to.y ==> Height(from, to, a, b, s) <= Height(from, to, a, b, t)
      ensures from.y >= to.y ==> Height(from, to, a, b, t) <= Height(from, to, a, b, s)
    {
      GentleRuns(from, to, a, b, s, t);
    }
  }

  lemma NeverTurnsIsBetween(from: Point, to: Point, a: real, b: real)
    requires NeverTurns(from, to, a, b)
    ensures Between(from, to, a, b)
  {
    hide Height;
    Ends(from, to, a, b);
    forall t | 0.0 <= t <= 1.0
      ensures from.y <= Height(from, to, a, b, t) <= to.y || to.y <= Height(from, to, a, b, t) <= from.y
    {
      assert 0.0 <= 0.0 <= t <= 1.0 <= 1.0;
      if from.y <= to.y {
        assert Height(from, to, a, b, 0.0) <= Height(from, to, a, b, t) <= Height(from, to, a, b, 1.0);
      } else {
        assert Height(from, to, a, b, 1.0) <= Height(from, to, a, b, t) <= Height(from, to, a, b, 0.0);
      }
    }
  }

  /** A slope against the secant takes the segment out of its range. */
  lemma AgainstIsNotBetween(from: Point, to: Point, a: real, b: real)
    requires from.x < to.x
    requires var secant := Rise(from, to); Against(secant, a) || Against(secant, b)
    ensures !Between(from, to, a, b)
  {
    var d, secant := to.y - from.y, Rise(from, to);
    assert secant != 0.0 && d != 0.0;
    var alpha, beta := a / secant, b / secant;
    AgainstIsNegative(secant, a);
    AgainstIsNegative(secant, b);
    hide Progress, Height, Against, Rise;
    var t: real;
    if alpha < 0.0 {
      t := DipsAtStart(alpha, beta, if beta < 0.0 then -beta else 0.0);
    } else {
      var r := DipsAtStart(beta, alpha, 0.0);
      ProgressMirrored(alpha, beta, r);
      t := 1.0 - r;
    }
    HeightIsProgress(from, to, a, b, t);
    OutOfRange(d, Progress(alpha, beta, t));
    assert !(from.y <= Height(from, to, a, b, t) <= to.y || to.y <= Height(from, to, a, b, t) <= from.y);
  }

  lemma OutOfRange(d: real, p: real)
    requires d != 0.0 && (p < 0.0 || p > 1.0)
    ensures !(0.0 <= d * p <= d || d <= d * p <= 0.0)
  {
    if d > 0.0 {
      if p < 0.0 {
        assert d * (-p) > 0.0;
      } else {
        assert d * (p - 1.0) > 0.0;
      }
    } else {
      if p < 0.0 {
        assert (-d) * (-p) > 0.0;
      } else {
        assert (-d) * (p - 1.0) > 0.0;
      }
    }
  }

  /** Every segment of the curve stays between the two points it joins. */
  ghost predicate NoOvershoot(points: seq<Point>, slopes: seq<real>)
    requires |slopes| == |points|
  {
    forall i :: 0 <= i < |points| - 1 ==> Between(points[i], points[i + 1], slopes[i], slopes[i + 1])
  }

  lemma GentleSegment(points: seq<Point>, slopes: seq<real>, i: nat)
    requires LeftToRight(points) && |slopes| == |points| && i < |points| - 1
    requires Gentle(Secants(points)[i], slopes[i], slopes[i + 1])
    ensures NeverTurns(points[i], points[i + 1], slopes[i], slopes[i + 1])
    ensures Between(points[i], points[i + 1], slopes[i], slopes[i + 1])
  {
    hide Gentle, Rise, NeverTurns, Between;
    GentleNeverTurns(points[i], points[i + 1], slopes[i], slopes[i + 1]);
    NeverTurnsIsBetween(points[i], points[i + 1], slopes[i], slopes[i + 1]);
  }

  lemma AgainstSegment(points: seq<Point>, slopes: seq<real>, i: nat)
    requires LeftToRight(points) && |slopes| == |points| && i < |points| - 1
    requires Against(Secants(points)[i], slopes[i]) || Against(Secants(points)[i], slopes[i + 1])
    ensures !Between(points[i], points[i + 1], slopes[i], slopes[i + 1])
  {
    hide Against, Rise, Between;
    AgainstIsNotBetween(points[i], points[i + 1], slopes[i], slopes[i + 1]);
  }

  /**
   The curve never leaves the range of its points exactly when no visit of the pass both finds a slope that goes
   the wrong way and rescales it.
   */
  lemma NoOvershootExactlyWhen(points: seq<Point>, sqrt: Root)
    requires LeftToRight(points) && IsRoot(sqrt)
    ensures NoOvershoot(points, Pass(Secants(points), |points| - 1, sqrt)) <==>
            forall i :: 0 <= i < |points| - 1 ==> !OverdoneAt(Secants(points), i, sqrt)
  {
    hide Between, OverdoneAt, Pass, IsRoot, Against, Gentle, Secants;
    var secants, n := Secants(points), |points| - 1;
    var slopes := Pass(secants, n, sqrt);
    if forall i :: 0 <= i < n ==> !OverdoneAt(secants, i, sqrt) {
      PassIsGentle(secants, n, sqrt);
      forall i | 0 <= i < n
        ensures Between(points[i], points[i + 1], slopes[i], slopes[i + 1])
      {
        GentleSegment(points, slopes, i);
      }
    } else {
      var i :| 0 <= i < n && OverdoneAt(secants, i, sqrt);
      OverdoneStays(secants, i, sqrt);
      AgainstSegment(points, slopes, i);
    }
  }

  /** A series that never turns is drawn without a turn: every segment runs monotonely to its next point. */
  lemma SteadySeriesIsMonotone(points: seq<Point>, way: real, sqrt: Root)
    requires LeftToRight(points) && IsRoot(sqrt) && way != 0.0
    requires forall i :: 0 <= i < |points| - 1 ==> Along(way, Secants(points)[i])
    ensures var slopes := Pass(Secants(points), |points| - 1, sqrt);
            && NoOvershoot(points, slopes)
            && (forall i :: 0 <= i < |points| - 1 ==>
                  && Gentle(Secants(points)[i], slopes[i], slopes[i + 1])
                  && NeverTurns(points[i], points[i + 1], slopes[i], slopes[i + 1]))
  {
    hide Between, OverdoneAt, Pass, IsRoot, Gentle, NeverTurns, Along, Secants;
    var secants, n := Secants(points), |points| - 1;
    var slopes := Pass(secants, n, sqrt);
    SteadySlopes(secants, way, n, sqrt);
    PassIsGentle(secants, n, sqrt);
    forall i | 0 <= i < n
      ensures NeverTurns(points[i], points[i + 1], slopes[i], slopes[i + 1])
      ensures Between(points[i], points[i + 1], slopes[i], slopes[i + 1])
    {
      GentleSegment(points, slopes, i);
    }
  }

  /** A series that turns sharply: the curve rises past the top of its fall before it falls. */
  lemma SharpTurnOvershoots(sqrt: Root)
    requires IsRoot(sqrt)
    ensures var points := [Point(0.0, 0.0), Point(1.0, 10.0), Point(2.0, 9.0)];
            LeftToRight(points) && !NoOvershoot(points, Pass(Secants(points), 2, sqrt))
  {
    var points := [Point(0.0, 0.0), Point(1.0, 10.0), Point(2.0, 9.0)];
    var secants := Secants(points);
    assert secants == [10.0, -1.0];
    assert FirstSlopes(secants) == [10.0, 4.5, -1.0];
    assert Pass(secants, 0, sqrt) == [10.0, 4.5, -1.0];
    assert SquareSum(10.0 / 10.0, 4.5 / 10.0) < 9.0;
    assert Pass(secants, 1, sqrt) == [10.0, 4.5, -1.0];
    assert SquareSum(4.5 / -1.0, -1.0 / -1.0) > 9.0;
    assert OverdoneAt(secants, 1, sqrt);
    NoOvershootExactlyWhen(points, sqrt);
  }
}
