/** The monotone cubic behind the profit curve: tangents averaged from the secants, then pulled back in one pass. */
module SparkSlopes {

  /** The square root the pass calls. */
  type Root = real -> real

  ghost predicate IsRoot(sqrt: Root) {
    forall x :: x > 0.0 ==> sqrt(x) > 0.0 && sqrt(x) * sqrt(x) == x
  }

  datatype Point = Point(x: real, y: real)

  /** At least two points, left to right. */
  ghost predicate LeftToRight(points: seq<Point>) {
    |points| >= 2 && forall i :: 0 <= i < |points| - 1 ==> points[i].x < points[i + 1].x
  }

  /** The slope of the straight line from one point to the next. */
  function Rise(from: Point, to: Point): real
    requires from.x != to.x
  {
    (to.y - from.y) / (to.x - from.x)
  }

  function Secants(points: seq<Point>): (secants: seq<real>)
    requires LeftToRight(points)
    ensures |secants| == |points| - 1
  {
    seq(|points| - 1, i requires 0 <= i < |points| - 1 => Rise(points[i], points[i + 1]))
  }

  /** Before the pass: the mean of the two secants at a point, and the end secants at the ends. */
  function FirstSlopes(secants: seq<real>): (slopes: seq<real>)
    requires secants != []
    ensures |slopes| == |secants| + 1
  {
    seq(|secants| + 1, i requires 0 <= i <= |secants| =>
      if i == 0 then secants[0]
      else if i == |secants| then secants[i - 1]
      else (secants[i - 1] + secants[i]) / 2.0)
  }

  function SquareSum(a: real, b: real): real {
    a * a + b * b
  }

  function Scaled(ratio: real, tau: real, secant: real): real {
    tau * ratio * secant
  }

  /** What a visit leaves of the two slopes of one interval. */
  function Settle(a: real, b: real, secant: real, sqrt: Root): (real, real)
    requires IsRoot(sqrt)
  {
    if secant == 0.0 then (0.0, 0.0)
    else
      var alpha, beta := a / secant, b / secant;
      if SquareSum(alpha, beta) > 9.0 then
        var tau := 3.0 / sqrt(SquareSum(alpha, beta));
        (Scaled(alpha, tau, secant), Scaled(beta, tau, secant))
      else
        (if alpha < 0.0 then 0.0 else a, if beta < 0.0 then 0.0 else b)
  }

  function Visit(slopes: seq<real>, secants: seq<real>, i: nat, sqrt: Root): (r: seq<real>)
    requires IsRoot(sqrt) && i < |secants| && |slopes| == |secants| + 1
    ensures |r| == |slopes|
  {
    var settled := Settle(slopes[i], slopes[i + 1], secants[i], sqrt);
    slopes[i := settled.0][i + 1 := settled.1]
  }

  /** The slopes after the first n intervals have been visited. */
  function Pass(secants: seq<real>, n: nat, sqrt: Root): (slopes: seq<real>)
    requires IsRoot(sqrt) && secants != [] && n <= |secants|
    ensures |slopes| == |secants| + 1
  {
    if n == 0 then FirstSlopes(secants) else Visit(Pass(secants, n - 1, sqrt), secants, n - 1, sqrt)
  }

  /** One visit of the pass, on the array itself. */
  method SettleAt(slopes: array<real>, i: nat, secant: real, sqrt: Root)
    requires IsRoot(sqrt) && i + 1 < slopes.Length
    modifies slopes
    ensures (slopes[i], slopes[i + 1]) == Settle(old(slopes[i]), old(slopes[i + 1]), secant, sqrt)
    ensures forall j :: 0 <= j < slopes.Length && j != i && j != i + 1 ==> slopes[j] == old(slopes[j])
  {
    hide SquareSum, Scaled;
    if secant == 0.0 {
      slopes[i + 1] := 0.0;
      slopes[i] := 0.0;
      return;
    }
    var alpha, beta := slopes[i] / secant, slopes[i + 1] / secant;
    if alpha < 0.0 {
      slopes[i] := 0.0;
    }
    if beta < 0.0 {
      slopes[i + 1] := 0.0;
    }
    if SquareSum(alpha, beta) > 9.0 {
      RootIsPositive(sqrt, SquareSum(alpha, beta));
      var tau := 3.0 / sqrt(SquareSum(alpha, beta));
      slopes[i] := Scaled(alpha, tau, secant);
      slopes[i + 1] := Scaled(beta, tau, secant);
    }
  }

  lemma RootIsPositive(sqrt: Root, x: real)
    requires IsRoot(sqrt) && x > 0.0
    ensures sqrt(x) > 0.0
  {
  }

  lemma VisitedAt(before: seq<real>, after: seq<real>, secants: seq<real>, i: nat, sqrt: Root)
    requires IsRoot(sqrt) && i < |secants| && |before| == |after| == |secants| + 1
    requires (after[i], after[i + 1]) == Settle(before[i], before[i + 1], secants[i], sqrt)
    requires forall j :: 0 <= j < |after| && j != i && j != i + 1 ==> after[j] == before[j]
    ensures after == Visit(before, secants, i, sqrt)
  {
  }

  method Slopes(points: seq<Point>, sqrt: Root) returns (slopes: array<real>)
    requires LeftToRight(points) && IsRoot(sqrt)
    ensures fresh(slopes) && slopes[..] == Pass(Secants(points), |points| - 1, sqrt)
  {
    hide IsRoot, Secants, FirstSlopes, Settle;
    var secants := Secants(points);
    var first := FirstSlopes(secants);
    slopes := new real[|first|](i requires 0 <= i < |first| => first[i]);
    assert slopes[..] == first;
    for i := 0 to |secants|
      invariant slopes[..] == Pass(secants, i, sqrt)
    {
      ghost var before := slopes[..];
      SettleAt(slopes, i, secants[i], sqrt);
      VisitedAt(before, slopes[..], secants, i, sqrt);
    }
  }

  // ---- gentle slopes -------------------------------------------------------------------------------

  /** Both slopes go the secant's way, and together are no steeper than three times it. */
  predicate Gentle(secant: real, a: real, b: real) {
    if secant == 0.0 then a == 0.0 && b == 0.0
    else a / secant >= 0.0 && b / secant >= 0.0 && SquareSum(a / secant, b / secant) <= 9.0
  }

  /** The visit finds a slope that goes the wrong way, and the two too steep: it rescales what it should have zeroed. */
  predicate Overdone(secant: real, a: real, b: real) {
    secant != 0.0 && (a / secant < 0.0 || b / secant < 0.0) && SquareSum(a / secant, b / secant) > 9.0
  }

  predicate Shrunk(was: real, now: real) {
    0.0 <= now <= was || was <= now <= 0.0
  }

  lemma TauIsSmall(sum: real, sqrt: Root)
    requires IsRoot(sqrt) && sum > 9.0
    ensures sqrt(sum) > 3.0 && 0.0 < 3.0 / sqrt(sum) < 1.0 && (3.0 / sqrt(sum)) * (3.0 / sqrt(sum)) * sum == 9.0
  {
    var r := sqrt(sum);
    assert (r - 3.0) * (r + 3.0) > 0.0;
    var tau := 3.0 / r;
    assert tau * r == 3.0;
    assert tau * tau * sum == (tau * r) * (tau * r);
  }

  lemma Rescaled(alpha: real, tau: real, secant: real)
    requires secant != 0.0 && tau > 0.0
    ensures Scaled(alpha, tau, secant) / secant == tau * alpha
    ensures alpha >= 0.0 ==> tau * alpha >= 0.0
    ensures alpha < 0.0 ==> tau * alpha < 0.0
  {
  }

  lemma ScaledDown(a: real, tau: real, secant: real)
    requires secant != 0.0 && 0.0 < tau < 1.0
    ensures Shrunk(a, Scaled(a / secant, tau, secant))
  {
    var alpha := a / secant;
    assert alpha * secant == a;
    assert tau * alpha * secant == tau * (alpha * secant);
    Fraction(a, tau);
  }

  lemma Fraction(a: real, tau: real)
    requires 0.0 < tau < 1.0
    ensures Shrunk(a, tau * a)
  {
    var rest := 1.0 - tau;
    assert tau * a + rest * a == a;
    if a >= 0.0 {
      assert 0.0 <= tau * a && 0.0 <= rest * a;
    } else {
      assert 0.0 >= tau * a && 0.0 >= rest * a;
    }
  }

  lemma ScaledSum(alpha: real, beta: real, tau: real)
    ensures SquareSum(tau * alpha, tau * beta) == tau * tau * SquareSum(alpha, beta)
  {
  }

  /** A visit that is not overdone leaves the interval gentle, and its first slope no steeper than it was. */
  lemma SettleIsGentle(a: real, b: real, secant: real, sqrt: Root)
    requires IsRoot(sqrt) && !Overdone(secant, a, b)
    ensures Gentle(secant, Settle(a, b, secant, sqrt).0, Settle(a, b, secant, sqrt).1)
    ensures Shrunk(a, Settle(a, b, secant, sqrt).0)
  {
    if secant != 0.0 {
      var alpha, beta := a / secant, b / secant;
      var sum := SquareSum(alpha, beta);
      if sum > 9.0 {
        TauIsSmall(sum, sqrt);
        var tau := 3.0 / sqrt(sum);
        hide SquareSum, Scaled, Shrunk;
        Rescaled(alpha, tau, secant);
        Rescaled(beta, tau, secant);
        ScaledSum(alpha, beta, tau);
        ScaledDown(a, tau, secant);
      } else {
        ZeroedSum(alpha, beta);
      }
    }
  }

  lemma ZeroedSum(alpha: real, beta: real)
    ensures SquareSum(if alpha < 0.0 then 0.0 else alpha, if beta < 0.0 then 0.0 else beta) <= SquareSum(alpha, beta)
  {
  }

  /** An interval stays gentle when its second slope shrinks. */
  lemma ShrunkIsGentle(secant: real, a: real, b: real, b': real)
    requires Gentle(secant, a, b) && Shrunk(b, b')
    ensures Gentle(secant, a, b')
  {
    if secant != 0.0 {
      var beta, beta' := b / secant, b' / secant;
      assert beta * secant == b && beta' * secant == b';
      assert 0.0 <= beta' <= beta;
      assert beta' * beta' <= beta * beta;
    }
  }

  // ---- the whole pass ------------------------------------------------------------------------------

  /** A visit reaches no slope past its own interval. */
  lemma {:induction false} StillFirst(secants: seq<real>, n: nat, j: nat, sqrt: Root)
    requires IsRoot(sqrt) && n <= |secants| && n < j <= |secants|
    ensures Pass(secants, n, sqrt)[j] == FirstSlopes(secants)[j]
  {
    if n > 0 {
      StillFirst(secants, n - 1, j, sqrt);
    }
  }

  /** Once the interval it begins has been visited, a slope is final. */
  lemma {:induction false} Final(secants: seq<real>, m: nat, n: nat, j: nat, sqrt: Root)
    requires IsRoot(sqrt) && secants != [] && j < m <= n <= |secants|
    ensures Pass(secants, n, sqrt)[j] == Pass(secants, m, sqrt)[j]
  {
    if m < n {
      Final(secants, m, n - 1, j, sqrt);
    }
  }

  predicate OverdoneAt(secants: seq<real>, i: nat, sqrt: Root)
    requires IsRoot(sqrt) && i < |secants|
  {
    Overdone(secants[i], Pass(secants, i, sqrt)[i], Pass(secants, i, sqrt)[i + 1])
  }

  lemma VisitSettles(secants: seq<real>, i: nat, sqrt: Root)
    requires IsRoot(sqrt) && i < |secants|
    ensures var before, after := Pass(secants, i, sqrt), Pass(secants, i + 1, sqrt);
            && (after[i], after[i + 1]) == Settle(before[i], before[i + 1], secants[i], sqrt)
            && forall j :: 0 <= j <= |secants| && j != i && j != i + 1 ==> after[j] == before[j]
  {
  }

  /** As long as no visit is overdone, every interval visited is gentle and stays so. */
  lemma {:induction false} PassIsGentle(secants: seq<real>, n: nat, sqrt: Root)
    requires IsRoot(sqrt) && secants != [] && n <= |secants|
    requires forall i :: 0 <= i < n ==> !OverdoneAt(secants, i, sqrt)
    ensures forall i :: 0 <= i < n ==> Gentle(secants[i], Pass(secants, n, sqrt)[i], Pass(secants, n, sqrt)[i + 1])
  {
    if n > 0 {
      var k := n - 1;
      PassIsGentle(secants, k, sqrt);
      var before := Pass(secants, k, sqrt);
      assert !OverdoneAt(secants, k, sqrt);
      SettleIsGentle(before[k], before[k + 1], secants[k], sqrt);
      if k > 0 {
        ShrunkIsGentle(secants[k - 1], before[k - 1], before[k], Settle(before[k], before[k + 1], secants[k], sqrt).0);
      }
    }
  }

  // ---- an overdone visit is never repaired ---------------------------------------------------------

  /** The slope goes against the secant. */
  predicate Against(secant: real, slope: real) {
    slope * secant < 0.0
  }

  lemma AgainstIsNegative(secant: real, slope: real)
    requires secant != 0.0
    ensures Against(secant, slope) <==> slope / secant < 0.0
  {
    var ratio := slope / secant;
    assert slope == ratio * secant;
    assert slope * secant == ratio * (secant * secant);
    assert secant * secant > 0.0;
  }

  lemma ScaledAgainst(secant: real, slope: real, tau: real)
    requires secant != 0.0 && tau > 0.0
    ensures Against(secant, Scaled(slope / secant, tau, secant)) <==> Against(secant, slope)
  {
    Rescaled(slope / secant, tau, secant);
    AgainstIsNegative(secant, slope);
    AgainstIsNegative(secant, Scaled(slope / secant, tau, secant));
  }

  lemma OverdoneSettle(a: real, b: real, secant: real, sqrt: Root)
    requires IsRoot(sqrt) && Overdone(secant, a, b)
    ensures Against(secant, a) || Against(secant, b)
    ensures Against(secant, a) ==> Against(secant, Settle(a, b, secant, sqrt).0)
    ensures Against(secant, b) ==> Against(secant, Settle(a, b, secant, sqrt).1)
  {
    var sum := SquareSum(a / secant, b / secant);
    TauIsSmall(sum, sqrt);
    AgainstIsNegative(secant, a);
    AgainstIsNegative(secant, b);
    ScaledAgainst(secant, a, 3.0 / sqrt(sum));
    ScaledAgainst(secant, b, 3.0 / sqrt(sum));
  }

  /** A slope that goes with its own secant keeps its direction through the visit. */
  lemma WithStays(a: real, b: real, secant: real, sqrt: Root)
    requires IsRoot(sqrt) && a * secant > 0.0
    ensures Settle(a, b, secant, sqrt).0 * secant > 0.0
  {
    var alpha := a / secant;
    assert a == alpha * secant;
    AgainstIsNegative(secant, a);
    var sum := SquareSum(alpha, b / secant);
    if sum > 9.0 {
      TauIsSmall(sum, sqrt);
      var tau := 3.0 / sqrt(sum);
      assert Scaled(alpha, tau, secant) * secant == tau * (a * secant);
    }
  }

  /** A mean that goes against one secant goes with the other. */
  lemma MeanGoesOneWay(s: real, t: real)
    requires Against(s, (s + t) / 2.0)
    ensures s * t < 0.0 && (s + t) / 2.0 * t > 0.0
  {
    var m := (s + t) / 2.0;
    assert m * s == (s * s + s * t) / 2.0;
    assert s * s >= 0.0;
    assert s * t < 0.0;
    assert (m * t) * (s * s) == (m * s) * (s * t);
    assert s != 0.0;
    assert (m * s) * (s * t) > 0.0;
    assert s * s > 0.0;
  }

  /** The product keeps a sign: against one of two opposite secants is with the other. */
  lemma OppositeSecants(s: real, t: real, slope: real)
    requires s * t < 0.0
    ensures Against(s, slope) <==> slope * t > 0.0
  {
    assert (slope * s) * (slope * t) == (slope * slope) * (s * t);
    if slope != 0.0 {
      assert slope * slope > 0.0;
      assert (slope * slope) * (s * t) < 0.0;
    }
  }

  /** Only a turn makes a first slope go against the secant before it. */
  lemma FirstAgainst(secants: seq<real>, i: nat)
    requires i < |secants| && Against(secants[i], FirstSlopes(secants)[i + 1])
    ensures i + 1 < |secants| && secants[i] * secants[i + 1] < 0.0
  {
    assert secants[i] * secants[i] >= 0.0;
    assert i + 1 < |secants|;
    MeanGoesOneWay(secants[i], secants[i + 1]);
  }

  /** The visit of the next interval leaves a slope that goes against this one against it. */
  lemma NextVisitKeepsAgainst(secants: seq<real>, i: nat, sqrt: Root)
    requires IsRoot(sqrt) && i + 1 < |secants| && secants[i] * secants[i + 1] < 0.0
    requires Against(secants[i], Pass(secants, i + 1, sqrt)[i + 1])
    ensures Against(secants[i], Pass(secants, i + 2, sqrt)[i + 1])
  {
    var after := Pass(secants, i + 1, sqrt);
    var settled := Settle(after[i + 1], after[i + 2], secants[i + 1], sqrt);
    assert Pass(secants, i + 2, sqrt)[i + 1] == settled.0;
    hide Pass, Settle, Against;
    OppositeSecants(secants[i], secants[i + 1], after[i + 1]);
    WithStays(after[i + 1], after[i + 2], secants[i + 1], sqrt);
    OppositeSecants(secants[i], secants[i + 1], settled.0);
  }

  /** An overdone visit leaves its interval a slope against it, and no later visit mends that. */
  lemma OverdoneStays(secants: seq<real>, i: nat, sqrt: Root)
    requires IsRoot(sqrt) && i < |secants| && OverdoneAt(secants, i, sqrt)
    ensures var slopes := Pass(secants, |secants|, sqrt);
            Against(secants[i], slopes[i]) || Against(secants[i], slopes[i + 1])
  {
    hide Pass, Settle, Against, Overdone, FirstSlopes, IsRoot;
    var before := Pass(secants, i, sqrt);
    VisitSettles(secants, i, sqrt);
    OverdoneSettle(before[i], before[i + 1], secants[i], sqrt);
    Final(secants, i + 1, |secants|, i, sqrt);
    StillFirst(secants, i, i + 1, sqrt);
    if Against(secants[i], before[i + 1]) {
      FirstAgainst(secants, i);
      NextVisitKeepsAgainst(secants, i, sqrt);
      Final(secants, i + 2, |secants|, i + 1, sqrt);
    }
  }

  // ---- series that never turn ----------------------------------------------------------------------

  /** The slope goes the series' way: up where the sign is positive, down where it is negative. */
  predicate Along(way: real, slope: real) {
    slope * way >= 0.0
  }

  lemma SettleStaysAlong(a: real, b: real, secant: real, way: real, sqrt: Root)
    requires IsRoot(sqrt) && Along(way, a) && Along(way, b) && Along(way, secant) && way != 0.0
    ensures !Overdone(secant, a, b)
    ensures Along(way, Settle(a, b, secant, sqrt).0) && Along(way, Settle(a, b, secant, sqrt).1)
  {
    if secant != 0.0 {
      SameWay(a, secant, way);
      SameWay(b, secant, way);
      AgainstIsNegative(secant, a);
      AgainstIsNegative(secant, b);
      var sum := SquareSum(a / secant, b / secant);
      if sum > 9.0 {
        TauIsSmall(sum, sqrt);
        var tau := 3.0 / sqrt(sum);
        ScaledIsMultiple(a, tau, secant, way);
        ScaledIsMultiple(b, tau, secant, way);
      }
    }
  }

  lemma ScaledIsMultiple(a: real, tau: real, secant: real, way: real)
    requires secant != 0.0 && tau > 0.0 && Along(way, a)
    ensures Along(way, Scaled(a / secant, tau, secant))
  {
    assert a / secant * secant == a;
    assert Scaled(a / secant, tau, secant) * way == tau * (a * way);
  }

  lemma SameWay(a: real, secant: real, way: real)
    requires Along(way, a) && Along(way, secant) && way != 0.0
    ensures !Against(secant, a)
  {
    assert way * way > 0.0;
    assert (a * way) * (secant * way) == (a * secant) * (way * way);
    assert (a * way) * (secant * way) >= 0.0;
  }

  lemma FirstAlong(secants: seq<real>, way: real)
    requires secants != [] && forall i :: 0 <= i < |secants| ==> Along(way, secants[i])
    ensures forall j :: 0 <= j <= |secants| ==> Along(way, FirstSlopes(secants)[j])
  {
    forall j | 0 <= j <= |secants|
      ensures Along(way, FirstSlopes(secants)[j])
    {
      if 0 < j < |secants| {
        assert Along(way, secants[j - 1]) && Along(way, secants[j]);
        assert (secants[j - 1] + secants[j]) / 2.0 * way == (secants[j - 1] * way + secants[j] * way) / 2.0;
      }
    }
  }

  /** On a series whose secants all go one way, no visit is overdone. */
  lemma {:induction false} SteadySlopes(secants: seq<real>, way: real, n: nat, sqrt: Root)
    requires IsRoot(sqrt) && secants != [] && n <= |secants| && way != 0.0
    requires forall i :: 0 <= i < |secants| ==> Along(way, secants[i])
    ensures forall j :: 0 <= j <= |secants| ==> Along(way, Pass(secants, n, sqrt)[j])
    ensures forall i :: 0 <= i < n ==> !OverdoneAt(secants, i, sqrt)
  {
    if n == 0 {
      FirstAlong(secants, way);
    } else {
      hide Settle, Overdone, FirstSlopes, Pass, IsRoot, Along;
      var before := Pass(secants, n - 1, sqrt);
      SteadySlopes(secants, way, n - 1, sqrt);
      VisitSettles(secants, n - 1, sqrt);
      SettleStaysAlong(before[n - 1], before[n], secants[n - 1], way, sqrt);
    }
  }
}
