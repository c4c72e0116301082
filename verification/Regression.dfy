/** The regression line through points, from running sums over exact reals. */
module Regression {

  // ---------- The line ----------

  datatype XY = XY(x: real, y: real)

  function SumX(ps: seq<XY>): real {
    if ps == [] then 0.0 else SumX(ps[..|ps| - 1]) + ps[|ps| - 1].x
  }

  function SumY(ps: seq<XY>): real {
    if ps == [] then 0.0 else SumY(ps[..|ps| - 1]) + ps[|ps| - 1].y
  }

  function SumXY(ps: seq<XY>): real {
    if ps == [] then 0.0 else SumXY(ps[..|ps| - 1]) + ps[|ps| - 1].x * ps[|ps| - 1].y
  }

  function SumXX(ps: seq<XY>): real {
    if ps == [] then 0.0 else SumXX(ps[..|ps| - 1]) + ps[|ps| - 1].x * ps[|ps| - 1].x
  }

  function Count(ps: seq<XY>): real {
    |ps| as real
  }

  function Denominator(ps: seq<XY>): real {
    Count(ps) * SumXX(ps) - SumX(ps) * SumX(ps)
  }

  function Numerator(ps: seq<XY>): real {
    Count(ps) * SumXY(ps) - SumX(ps) * SumY(ps)
  }

  function Slope(ps: seq<XY>): real
    requires Denominator(ps) != 0.0
  {
    Numerator(ps) / Denominator(ps)
  }

  function Intercept(ps: seq<XY>): real
    requires ps != [] && Denominator(ps) != 0.0
  {
    (SumY(ps) - Slope(ps) * SumX(ps)) / Count(ps)
  }

  // ---------- The denominator ----------

  function Rectangle(p: XY, q: XY): real {
    (q.x - p.x) * (q.y - p.y)
  }

  /** The sum of (x - xi)(y - yi). */
  function Moment(ps: seq<XY>, q: XY): real {
    if ps == [] then 0.0 else Moment(ps[..|ps| - 1], q) + Rectangle(ps[|ps| - 1], q)
  }

  lemma MomentGrows(ps: seq<XY>, p: XY, q: XY)
    ensures Moment(ps + [p], q) == Moment(ps, q) + Rectangle(p, q)
  {
    hide Rectangle;
    assert (ps + [p])[..|ps|] == ps;
  }

  /** What one more point adds to the running sums. */
  lemma SumsGrow(ps: seq<XY>, p: XY)
    ensures SumX(ps + [p]) == SumX(ps) + p.x && SumY(ps + [p]) == SumY(ps) + p.y
    ensures SumXY(ps + [p]) == SumXY(ps) + p.x * p.y && SumXX(ps + [p]) == SumXX(ps) + p.x * p.x
    ensures Count(ps + [p]) == Count(ps) + 1.0
  {
    assert (ps + [p])[..|ps|] == ps;
  }

  lemma SplitLast(ps: seq<XY>)
    requires ps != []
    ensures ps == ps[..|ps| - 1] + [ps[|ps| - 1]]
  {
  }

  function Expanded(ps: seq<XY>, q: XY): real {
    SumXY(ps) - q.x * SumY(ps) - q.y * SumX(ps) + Count(ps) * (q.x * q.y)
  }

  lemma {:induction false} MomentExpands(ps: seq<XY>, q: XY)
    ensures Moment(ps, q) == Expanded(ps, q)
  {
    if ps == [] {
      assert Count(ps) == 0.0;
    } else {
      hide SumX, SumY, SumXY, SumXX, Count, Moment, Rectangle, Expanded;
      var before, p := ps[..|ps| - 1], ps[|ps| - 1];
      MomentExpands(before, q);
      SplitLast(ps);
      SumsGrow(before, p);
      MomentGrows(before, p, q);
      ExpandedGrows(before, p, q);
    }
  }

  lemma ExpandedGrows(ps: seq<XY>, p: XY, q: XY)
    ensures Expanded(ps + [p], q) == Expanded(ps, q) + Rectangle(p, q)
  {
    hide SumX, SumY, SumXY, SumXX, Count;
    SumsGrow(ps, p);
    Distribute(q.x, SumY(ps), p.y, SumY(ps + [p]));
    Distribute(q.y, SumX(ps), p.x, SumX(ps + [p]));
    Distribute(q.x * q.y, Count(ps), 1.0, Count(ps + [p]));
    Expand(q.x, p.x, q.y, p.y);
  }

  lemma Distribute(a: real, b: real, c: real, sum: real)
    requires sum == b + c
    ensures a * sum == a * b + a * c && sum * a == b * a + c * a
  {
  }

  lemma Expand(a: real, b: real, c: real, d: real)
    ensures (a - b) * (c - d) == a * c - d * a - c * b + b * d
  {
  }

  /** One more point adds its moment about the others to the numerator. */
  lemma NumeratorGrows(ps: seq<XY>, q: XY)
    ensures Numerator(ps + [q]) == Numerator(ps) + Moment(ps, q)
  {
    hide SumX, SumY, SumXY, SumXX, Count, Moment;
    SumsGrow(ps, q);
    MomentExpands(ps, q);
    GrowthIdentity(Count(ps), SumX(ps), SumY(ps), SumXY(ps), q.x, q.y);
  }

  lemma GrowthIdentity(n: real, sx: real, sy: real, sxy: real, x: real, y: real)
    ensures (n + 1.0) * (sxy + x * y) - (sx + x) * (sy + y)
            == n * sxy - sx * sy + (sxy - x * sy - y * sx + n * (x * y))
  {
  }

  /** The same points with x in place of y: the denominator is the numerator of these. */
  function Diagonal(ps: seq<XY>): seq<XY> {
    seq(|ps|, i requires 0 <= i < |ps| => XY(ps[i].x, ps[i].x))
  }

  lemma {:induction false} DiagonalSums(ps: seq<XY>)
    ensures SumX(Diagonal(ps)) == SumX(ps) && SumY(Diagonal(ps)) == SumX(ps) && SumXY(Diagonal(ps)) == SumXX(ps)
  {
    if ps != [] {
      DiagonalSums(ps[..|ps| - 1]);
      assert Diagonal(ps)[..|ps| - 1] == Diagonal(ps[..|ps| - 1]);
    }
  }

  ghost predicate Increasing(ps: seq<XY>) {
    forall i, j | 0 <= i < j < |ps| :: ps[i].x < ps[j].x
  }

  /** No later point is higher than an earlier one. */
  ghost predicate NeverRises(ps: seq<XY>) {
    forall i, j | 0 <= i < j < |ps| :: ps[i].y >= ps[j].y
  }

  ghost predicate Level(ps: seq<XY>) {
    forall i, j | 0 <= i < j < |ps| :: ps[i].y == ps[j].y
  }

  lemma SignOfProduct(a: real, b: real)
    requires a > 0.0 >= b
    ensures a * b <= 0.0 && (a * b == 0.0 <==> b == 0.0)
  {
  }

  lemma RectangleSign(p: XY, q: XY)
    requires p.x < q.x
    ensures p.y >= q.y ==> Rectangle(p, q) <= 0.0 && (Rectangle(p, q) == 0.0 <==> p.y == q.y)
    ensures p.y < q.y ==> Rectangle(p, q) > 0.0
  {
    if p.y >= q.y {
      SignOfProduct(q.x - p.x, q.y - p.y);
    } else {
      PositiveProduct(q.x - p.x, q.y - p.y);
    }
  }

  lemma {:induction false} MomentSign(ps: seq<XY>, q: XY)
    requires forall i | 0 <= i < |ps| :: ps[i].x < q.x && ps[i].y >= q.y
    ensures Moment(ps, q) <= 0.0
    ensures Moment(ps, q) == 0.0 <==> forall i | 0 <= i < |ps| :: ps[i].y == q.y
  {
    if ps != [] {
      var before, p := ps[..|ps| - 1], ps[|ps| - 1];
      hide Rectangle;
      MomentSign(before, q);
      RectangleSign(p, q);
      assert forall i | 0 <= i < |before| :: before[i] == ps[i];
    }
  }

  /** Chebyshev's sum inequality: over increasing times, values that never rise give a numerator of at most
      zero, and of exactly zero only when they are all equal. */
  lemma {:induction false} NumeratorSign(ps: seq<XY>)
    requires Increasing(ps) && NeverRises(ps)
    ensures Numerator(ps) <= 0.0
    ensures Numerator(ps) == 0.0 <==> Level(ps)
  {
    if ps != [] {
      var before, q := ps[..|ps| - 1], ps[|ps| - 1];
      NumeratorSign(before);
      MomentSign(before, q);
      NumeratorGrows(before, q);
      SplitLast(ps);
      assert Level(ps) <==> Level(before) && forall i | 0 <= i < |before| :: before[i].y == q.y;
    }
  }

  lemma {:induction false} SpreadIsPositive(ps: seq<XY>, q: XY)
    requires q.y == q.x && forall i | 0 <= i < |ps| :: ps[i].x < q.x && ps[i].y == ps[i].x
    ensures Moment(ps, q) >= 0.0 && (ps != [] ==> Moment(ps, q) > 0.0)
  {
    if ps != [] {
      hide Rectangle;
      SpreadIsPositive(ps[..|ps| - 1], q);
      RectangleSign(ps[|ps| - 1], q);
    }
  }

  lemma PositiveProduct(a: real, b: real)
    requires a > 0.0 && b > 0.0
    ensures a * b > 0.0
  {
  }

  lemma SquarePositive(d: real)
    ensures Squared(d) >= 0.0 && (Squared(d) == 0.0 <==> d == 0.0)
  {
    if d < 0.0 {
      SignOfProduct(-d, d);
    } else if d > 0.0 {
      SignOfProduct(d, -d);
    }
  }

  lemma DiagonalGrows(ps: seq<XY>)
    ensures Numerator(Diagonal(ps)) == Denominator(ps)
  {
    DiagonalSums(ps);
  }

  /** Two or more distinct times make the denominator strictly positive. */
  lemma {:induction false} DenominatorIsPositive(ps: seq<XY>)
    requires Increasing(ps) && ps != []
    ensures Denominator(ps) >= 0.0 && (|ps| >= 2 ==> Denominator(ps) > 0.0)
  {
    hide Numerator, Denominator, Moment;
    var before, q := ps[..|ps| - 1], ps[|ps| - 1];
    SplitLast(ps);
    DiagonalGrows(ps);
    DiagonalGrows(before);
    assert Diagonal(ps) == Diagonal(before) + [XY(q.x, q.x)];
    NumeratorGrows(Diagonal(before), XY(q.x, q.x));
    SpreadIsPositive(Diagonal(before), XY(q.x, q.x));
    if before != [] {
      DenominatorIsPositive(before);
    } else {
      NoDenominator();
    }
  }

  lemma NoDenominator()
    ensures Denominator([]) == 0.0
  {
  }

  // ---------- Least squares ----------

  /** The vertical distance of a point from the line a + b x. */
  function Distance(p: XY, a: real, b: real): real {
    p.y - (a + b * p.x)
  }

  function Squared(r: real): real {
    r * r
  }

  /** The sum of the squared distances from the line a + b x. */
  function Residual(ps: seq<XY>, a: real, b: real): real {
    if ps == [] then 0.0 else Residual(ps[..|ps| - 1], a, b) + Squared(Distance(ps[|ps| - 1], a, b))
  }

  /** The sum of the squares of a + b x. */
  function Square(ps: seq<XY>, a: real, b: real): real {
    if ps == [] then 0.0 else Square(ps[..|ps| - 1], a, b) + Squared(a + b * ps[|ps| - 1].x)
  }

  /** The first two moments of the residuals. */
  function Excess(ps: seq<XY>, a: real, b: real): real {
    SumY(ps) - a * Count(ps) - b * SumX(ps)
  }

  function Tilt(ps: seq<XY>, a: real, b: real): real {
    SumXY(ps) - a * SumX(ps) - b * SumXX(ps)
  }

  lemma ResidualGrows(ps: seq<XY>, p: XY, a: real, b: real)
    ensures Residual(ps + [p], a, b) == Residual(ps, a, b) + Squared(Distance(p, a, b))
    ensures Square(ps + [p], a, b) == Square(ps, a, b) + Squared(a + b * p.x)
  {
    hide Squared, Distance;
    assert (ps + [p])[..|ps|] == ps;
  }

  function Pull(ps: seq<XY>, a: real, b: real, c: real, d: real): real {
    c * Excess(ps, a, b) + d * Tilt(ps, a, b)
  }

  lemma {:induction false} ResidualMoves(ps: seq<XY>, a: real, b: real, c: real, d: real)
    ensures Residual(ps, a + c, b + d) == Residual(ps, a, b) - 2.0 * Pull(ps, a, b, c, d) + Square(ps, c, d)
  {
    if ps == [] {
      NoMoments(a, b);
    } else {
      hide SumX, SumY, SumXY, SumXX, Count, Residual, Square, Excess, Tilt, Pull, Squared, Distance;
      var before, p := ps[..|ps| - 1], ps[|ps| - 1];
      ResidualMoves(before, a, b, c, d);
      SplitLast(ps);
      ResidualGrows(before, p, a, b);
      ResidualGrows(before, p, a + c, b + d);
      ResidualGrows(before, p, c, d);
      PullGrows(before, p, a, b, c, d);
      OnePointMoves(p, a, b, c, d);
    }
  }

  lemma NoMoments(a: real, b: real)
    ensures Excess([], a, b) == 0.0 && Tilt([], a, b) == 0.0
  {
    assert Count([]) == 0.0;
  }

  lemma MomentsGrow(ps: seq<XY>, p: XY, a: real, b: real)
    ensures Excess(ps + [p], a, b) == Excess(ps, a, b) + Distance(p, a, b)
    ensures Tilt(ps + [p], a, b) == Tilt(ps, a, b) + p.x * Distance(p, a, b)
  {
    hide SumX, SumY, SumXY, SumXX, Count;
    SumsGrow(ps, p);
    Distribute(a, Count(ps), 1.0, Count(ps + [p]));
    Distribute(b, SumX(ps), p.x, SumX(ps + [p]));
    Distribute(a, SumX(ps), p.x, SumX(ps + [p]));
    Distribute(b, SumXX(ps), p.x * p.x, SumXX(ps + [p]));
    assert p.x * Distance(p, a, b) == p.x * p.y - (p.x * a + p.x * (b * p.x)) by {
      Distribute(p.x, a, b * p.x, a + b * p.x);
      Distribute(p.x, p.y, -(a + b * p.x), Distance(p, a, b));
    }
    Associate(b, p.x, p.x);
  }

  lemma PullGrows(ps: seq<XY>, p: XY, a: real, b: real, c: real, d: real)
    ensures Pull(ps + [p], a, b, c, d) == Pull(ps, a, b, c, d) + (c + d * p.x) * Distance(p, a, b)
  {
    hide Excess, Tilt, Distance;
    var r := Distance(p, a, b);
    MomentsGrow(ps, p, a, b);
    Distribute(c, Excess(ps, a, b), r, Excess(ps + [p], a, b));
    Distribute(d, Tilt(ps, a, b), p.x * r, Tilt(ps + [p], a, b));
    Distribute(r, c, d * p.x, c + d * p.x);
    Associate(d, p.x, r);
  }

  /** What moving the line by c + d x does to one point's squared distance. */
  lemma OnePointMoves(p: XY, a: real, b: real, c: real, d: real)
    ensures Squared(Distance(p, a + c, b + d))
            == Squared(Distance(p, a, b)) - 2.0 * ((c + d * p.x) * Distance(p, a, b)) + Squared(c + d * p.x)
  {
    var r, u := Distance(p, a, b), c + d * p.x;
    assert Distance(p, a + c, b + d) == r - u by { Distribute(p.x, b, d, b + d); }
    Expand(r, u, r, u);
  }

  lemma Associate(a: real, b: real, c: real)
    ensures a * b * c == a * (b * c)
  {
  }

  lemma {:induction false} SquareSign(ps: seq<XY>, a: real, b: real)
    ensures Square(ps, a, b) >= 0.0
    ensures Square(ps, a, b) == 0.0 ==> forall i | 0 <= i < |ps| :: a + b * ps[i].x == 0.0
  {
    if ps != [] {
      hide Squared;
      SquareSign(ps[..|ps| - 1], a, b);
      SquarePositive(a + b * ps[|ps| - 1].x);
    }
  }

  lemma ZeroLine(a: real, b: real, x: real, z: real)
    requires a + b * x == 0.0 && a + b * z == 0.0 && x < z
    ensures a == 0.0 && b == 0.0
  {
    assert b * (z - x) == 0.0;
  }

  /** Slope and intercept solve the normal equations. */
  lemma NormalEquations(ps: seq<XY>)
    requires ps != [] && Denominator(ps) != 0.0
    ensures Excess(ps, Intercept(ps), Slope(ps)) == 0.0 && Tilt(ps, Intercept(ps), Slope(ps)) == 0.0
  {
    hide SumX, SumY, SumXY, SumXX;
    Solve(Count(ps), SumX(ps), SumY(ps), SumXY(ps), SumXX(ps), Slope(ps), Intercept(ps));
  }

  lemma Solve(n: real, sx: real, sy: real, sxy: real, sxx: real, b: real, a: real)
    requires n != 0.0 && n * sxx - sx * sx != 0.0
    requires b == (n * sxy - sx * sy) / (n * sxx - sx * sx) && a == (sy - b * sx) / n
    ensures sy - a * n - b * sx == 0.0 && sxy - a * sx - b * sxx == 0.0
  {
    assert a * n == sy - b * sx;
    assert b * (n * sxx - sx * sx) == n * sxy - sx * sy;
    assert n * (sxy - a * sx - b * sxx) == n * sxy - (a * n) * sx - b * (n * sxx);
    assert (sy - b * sx) * sx == sx * sy - b * (sx * sx);
    assert b * (n * sxx - sx * sx) == b * (n * sxx) - b * (sx * sx);
  }

  /** The slope from the running sums is the least-squares slope: every other line lies strictly further off. */
  lemma SlopeIsLeastSquares(ps: seq<XY>, a: real, b: real)
    requires Increasing(ps) && |ps| >= 2
    ensures Denominator(ps) > 0.0
    ensures Residual(ps, Intercept(ps), Slope(ps)) <= Residual(ps, a, b)
    ensures Residual(ps, Intercept(ps), Slope(ps)) == Residual(ps, a, b) <==> a == Intercept(ps) && b == Slope(ps)
  {
    hide SumX, SumY, SumXY, SumXX, Residual, Square, Excess, Tilt, Squared, Slope, Intercept, Denominator;
    DenominatorIsPositive(ps);
    var c, d := a - Intercept(ps), b - Slope(ps);
    NormalEquations(ps);
    ResidualMoves(ps, Intercept(ps), Slope(ps), c, d);
    SquareSign(ps, c, d);
    if Square(ps, c, d) == 0.0 {
      ZeroLine(c, d, ps[0].x, ps[1].x);
    }
  }

  lemma {:induction false} NoResidual(ps: seq<XY>, a: real, b: real)
    requires forall i | 0 <= i < |ps| :: ps[i].y == a + b * ps[i].x
    ensures Residual(ps, a, b) == 0.0
  {
    if ps != [] {
      hide Squared;
      NoResidual(ps[..|ps| - 1], a, b);
      SquarePositive(Distance(ps[|ps| - 1], a, b));
    }
  }

  lemma {:induction false} ResidualSign(ps: seq<XY>, a: real, b: real)
    ensures Residual(ps, a, b) >= 0.0
  {
    if ps != [] {
      hide Squared, Distance;
      ResidualSign(ps[..|ps| - 1], a, b);
      SquarePositive(Distance(ps[|ps| - 1], a, b));
    }
  }

  /** On data that lies on a line the slope is the line's. */
  lemma SlopeOfALine(ps: seq<XY>, a: real, b: real)
    requires Increasing(ps) && |ps| >= 2
    requires forall i | 0 <= i < |ps| :: ps[i].y == a + b * ps[i].x
    ensures Denominator(ps) > 0.0 && Slope(ps) == b && Intercept(ps) == a
  {
    SlopeIsLeastSquares(ps, a, b);
    NoResidual(ps, a, b);
    ResidualSign(ps, Intercept(ps), Slope(ps));
  }

  /** Runtimes that never rise give a slope of at most zero, and of zero only when they are all equal. */
  lemma SlopeNeverRises(ps: seq<XY>)
    requires Increasing(ps) && NeverRises(ps) && |ps| >= 2
    ensures Denominator(ps) > 0.0 && Slope(ps) <= 0.0
    ensures Slope(ps) == 0.0 <==> Level(ps)
  {
    DenominatorIsPositive(ps);
    NumeratorSign(ps);
    Quotient(Numerator(ps), Denominator(ps));
  }

  lemma Quotient(n: real, d: real)
    requires n <= 0.0 < d
    ensures n / d <= 0.0 && (n / d == 0.0 <==> n == 0.0)
  {
    var t := n / d;
    assert t * d == n;
    if t > 0.0 {
      PositiveProduct(t, d);
    }
  }

  // ---------- The running sums ----------

  /** Accumulates the four sums in one pass. */
  method Accumulate(ps: seq<XY>) returns (sumX: real, sumY: real, sumXY: real, sumXX: real)
    ensures sumX == SumX(ps) && sumY == SumY(ps) && sumXY == SumXY(ps) && sumXX == SumXX(ps)
  {
    hide SumX, SumY, SumXY, SumXX;
    sumX, sumY, sumXY, sumXX := 0.0, 0.0, 0.0, 0.0;
    NoSums();
    for i := 0 to |ps|
      invariant sumX == SumX(ps[..i]) && sumY == SumY(ps[..i])
      invariant sumXY == SumXY(ps[..i]) && sumXX == SumXX(ps[..i])
    {
      var x, y := ps[i].x, ps[i].y;
      SumsGrow(ps[..i], ps[i]);
      assert ps[..i + 1] == ps[..i] + [ps[i]];
      sumX := sumX + x;
      sumY := sumY + y;
      sumXY := sumXY + x * y;
      sumXX := sumXX + x * x;
    }
    assert ps[..|ps|] == ps;
  }

  lemma NoSums()
    ensures SumX([]) == 0.0 && SumY([]) == 0.0 && SumXY([]) == 0.0 && SumXX([]) == 0.0
  {
  }
}
