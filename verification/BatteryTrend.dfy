/** The battery runtime trend of a UPS: which history points enter it, the slope and the replacement estimate. */
module BatteryTrend {
  import opened Basics
  import opened Text
  import opened Regression
  import Sorting

  // ---------- From history to points ----------

  /** A sample's variable with its value as parsed; None when it does not parse. */
  datatype Reading = Runtime(seconds: Option<int>) | Charge(percent: Option<real>) | Status(text: string) | Other

  /** Instants are in nanoseconds. */
  datatype Sample = Sample(capturedAt: int, reading: Reading)

  datatype Snapshot = Snapshot(capturedAt: int, runtime: Option<int>, charge: Option<real>, status: string)

  datatype Point = Point(at: int, runtime: int)

  const SECOND: int := 1_000_000_000

  /** The second an instant lies in. */
  function Unix(at: int): (k: int)
    ensures k * 1_000_000_000 <= at < (k + 1) * 1_000_000_000
  {
    at / SECOND
  }

  function Observe(snapshots: map<int, Snapshot>, sample: Sample): map<int, Snapshot> {
    var key := Unix(sample.capturedAt);
    var snapshot := if key in snapshots then snapshots[key] else Snapshot(sample.capturedAt, None, None, "");
    snapshots[key := match sample.reading
                     case Runtime(Some(v)) => if v > 0 then snapshot.(runtime := Some(v)) else snapshot
                     case Charge(Some(v)) => if 0.0 <= v <= 100.0 then snapshot.(charge := Some(v)) else snapshot
                     case Status(text) => snapshot.(status := Upper(TrimSpace(text)))
                     case _ => snapshot]
  }

  function Snapshots(history: seq<Sample>): map<int, Snapshot> {
    if history == [] then map[] else Observe(Snapshots(history[..|history| - 1]), history[|history| - 1])
  }

  predicate Eligible(s: Snapshot) {
    && s.runtime.Some? && s.charge.Some? && s.charge.value >= 85.0
    && !Contains(s.status, "OB") && !Contains(s.status, "DISCHRG")
  }

  function PointOf(s: Snapshot): Point
    requires s.runtime.Some?
  {
    Point(s.capturedAt, s.runtime.value)
  }

  ghost predicate IsPoint(snapshots: map<int, Snapshot>, p: Point) {
    exists k :: k in snapshots && Eligible(snapshots[k]) && PointOf(snapshots[k]) == p
  }

  ghost predicate InOrder(points: seq<Point>) {
    forall i, j | 0 <= i < j < |points| :: points[i].at < points[j].at
  }

  /** The eligible snapshots' points, each once, in the order of time. */
  ghost predicate IsHistory(points: seq<Point>, snapshots: map<int, Snapshot>) {
    InOrder(points) && forall p :: p in points <==> IsPoint(snapshots, p)
  }

  /** Each snapshot lies in the second it is filed under. */
  lemma {:induction false} FiledUnderItsSecond(history: seq<Sample>)
    ensures forall k | k in Snapshots(history) :: Unix(Snapshots(history)[k].capturedAt) == k
  {
    if history != [] {
      FiledUnderItsSecond(history[..|history| - 1]);
    }
  }

  datatype Field = RuntimeField | ChargeField | StatusField

  /** The sample sets the field of the snapshot of second k. */
  predicate Sets(sample: Sample, k: int, field: Field) {
    && Unix(sample.capturedAt) == k
    && match field
       case RuntimeField => sample.reading.Runtime? && sample.reading.seconds.Some? && sample.reading.seconds.value > 0
       case ChargeField => sample.reading.Charge? && sample.reading.percent.Some?
                           && 0.0 <= sample.reading.percent.value <= 100.0
       case StatusField => sample.reading.Status?
  }

  ghost predicate SetsLast(history: seq<Sample>, k: int, field: Field, i: int) {
    && 0 <= i < |history| && Sets(history[i], k, field)
    && forall j | i < j < |history| :: !Sets(history[j], k, field)
  }

  predicate Carries(snapshot: Snapshot, field: Field, sample: Sample)
    requires Sets(sample, Unix(sample.capturedAt), field)
  {
    match field
    case RuntimeField => snapshot.runtime == sample.reading.seconds
    case ChargeField => snapshot.charge == sample.reading.percent
    case StatusField => snapshot.status == Upper(TrimSpace(sample.reading.text))
  }

  predicate Unset(snapshot: Snapshot, field: Field) {
    match field
    case RuntimeField => snapshot.runtime.None?
    case ChargeField => snapshot.charge.None?
    case StatusField => snapshot.status == ""
  }

  /** A second has a snapshot exactly when it has a sample. */
  lemma {:induction false} SnapshotPerSecond(history: seq<Sample>, k: int)
    ensures k in Snapshots(history) <==> exists i :: 0 <= i < |history| && Unix(history[i].capturedAt) == k
  {
    hide Unix, Upper, TrimSpace;
    if history != [] {
      var last := |history| - 1;
      SnapshotPerSecond(history[..last], k);
      assert forall i | 0 <= i < last :: history[..last][i] == history[i];
      assert k in Snapshots(history) <==> k in Snapshots(history[..last]) || Unix(history[last].capturedAt) == k;
    }
  }

  lemma ObserveField(snapshots: map<int, Snapshot>, sample: Sample, k: int, field: Field)
    requires k in Observe(snapshots, sample)
    ensures var after := Observe(snapshots, sample)[k];
            if Sets(sample, k, field) then Carries(after, field, sample)
            else if k !in snapshots then Unset(after, field)
            else
              && (Unset(snapshots[k], field) ==> Unset(after, field))
              && forall s | Sets(s, k, field) && Carries(snapshots[k], field, s) :: Carries(after, field, s)
  {
    hide Unix, Upper, TrimSpace;
  }

  /** Each field of a snapshot holds the valid value that comes last in the list among those of its second. */
  lemma {:induction false} SnapshotHoldsLast(history: seq<Sample>, k: int, field: Field, i: nat)
    requires SetsLast(history, k, field, i)
    ensures k in Snapshots(history) && Carries(Snapshots(history)[k], field, history[i])
  {
    hide Unix, Upper, TrimSpace, Carries, Unset, Observe;
    var last := |history| - 1;
    var before := Snapshots(history[..last]);
    assert Snapshots(history) == Observe(before, history[last]);
    if i < last {
      assert forall j | 0 <= j < last :: history[..last][j] == history[j];
      SnapshotHoldsLast(history[..last], k, field, i);
    }
    ObserveKeys(before, history[last], k);
    ObserveField(before, history[last], k, field);
  }

  lemma ObserveKeys(snapshots: map<int, Snapshot>, sample: Sample, k: int)
    ensures k in Observe(snapshots, sample) <==> k in snapshots || k == Unix(sample.capturedAt)
  {
    hide Unix, Upper, TrimSpace;
  }

  /** A field for which the second has no valid value is unset. */
  lemma {:induction false} SnapshotLacksUnrecorded(history: seq<Sample>, k: int, field: Field)
    requires k in Snapshots(history) && forall i | 0 <= i < |history| :: !Sets(history[i], k, field)
    ensures Unset(Snapshots(history)[k], field)
  {
    hide Unix, Upper, TrimSpace, Carries, Unset, Observe;
    var last := |history| - 1;
    var before := Snapshots(history[..last]);
    assert Snapshots(history) == Observe(before, history[last]);
    ObserveField(before, history[last], k, field);
    if k in before {
      assert forall j | 0 <= j < last :: history[..last][j] == history[j];
      SnapshotLacksUnrecorded(history[..last], k, field);
    }
  }

  ghost predicate IsFirst(history: seq<Sample>, k: int, i: int) {
    && 0 <= i < |history| && Unix(history[i].capturedAt) == k
    && forall j | 0 <= j < i :: Unix(history[j].capturedAt) != k
  }

  lemma {:induction false} SnapshotTime(history: seq<Sample>, k: int)
    requires k in Snapshots(history)
    ensures exists i :: IsFirst(history, k, i) && Snapshots(history)[k].capturedAt == history[i].capturedAt
  {
    hide Unix, Upper, TrimSpace;
    var last := |history| - 1;
    var before := Snapshots(history[..last]);
    assert forall j | 0 <= j < last :: history[..last][j] == history[j];
    if k in before {
      SnapshotTime(history[..last], k);
      var i :| IsFirst(history[..last], k, i) && before[k].capturedAt == history[..last][i].capturedAt;
      assert IsFirst(history, k, i);
    } else {
      SnapshotPerSecond(history[..last], k);
      assert forall j | 0 <= j < last :: Unix(history[..last][j].capturedAt) != k;
      assert IsFirst(history, k, last);
    }
  }

  lemma {:induction false} LastSetting(history: seq<Sample>, k: int, field: Field) returns (i: int)
    ensures SetsLast(history, k, field, i) || forall j | 0 <= j < |history| :: !Sets(history[j], k, field)
  {
    hide Sets;
    i := |history| - 1;
    while i >= 0 && !Sets(history[i], k, field)
      invariant -1 <= i < |history| && forall j | i < j < |history| :: !Sets(history[j], k, field)
    {
      i := i - 1;
    }
  }

  /** Second k makes the point p: p is taken at the time of the second's first sample and has its last positive
      runtime; its last charge from 0 to 100 is 85 or more, and its last status, if any, is neither on battery nor
      discharging. */
  ghost predicate Makes(history: seq<Sample>, k: int, p: Point) {
    && (exists i :: IsFirst(history, k, i) && history[i].capturedAt == p.at)
    && (exists i :: SetsLast(history, k, RuntimeField, i) && history[i].reading.seconds.value == p.runtime)
    && (exists i :: SetsLast(history, k, ChargeField, i) && history[i].reading.percent.value >= 85.0)
    && (forall i | SetsLast(history, k, StatusField, i) ::
          var status := Upper(TrimSpace(history[i].reading.text));
          !Contains(status, "OB") && !Contains(status, "DISCHRG"))
  }

  lemma MakesPoint(history: seq<Sample>, k: int, p: Point)
    requires k in Snapshots(history)
    ensures Makes(history, k, p) <==> Eligible(Snapshots(history)[k]) && PointOf(Snapshots(history)[k]) == p
  {
    hide Unix, Upper, TrimSpace, Contains, Snapshots;
    var snapshot := Snapshots(history)[k];
    SnapshotTime(history, k);
    forall i, j | IsFirst(history, k, i) && IsFirst(history, k, j) ensures i == j {
    }
    assert (exists i :: IsFirst(history, k, i) && history[i].capturedAt == p.at) <==> snapshot.capturedAt == p.at;
    forall field, i, j | SetsLast(history, k, field, i) && SetsLast(history, k, field, j) ensures i == j {
    }
    var r := LastSetting(history, k, RuntimeField);
    if SetsLast(history, k, RuntimeField, r) {
      SnapshotHoldsLast(history, k, RuntimeField, r);
    } else {
      SnapshotLacksUnrecorded(history, k, RuntimeField);
    }
    var c := LastSetting(history, k, ChargeField);
    if SetsLast(history, k, ChargeField, c) {
      SnapshotHoldsLast(history, k, ChargeField, c);
    } else {
      SnapshotLacksUnrecorded(history, k, ChargeField);
    }
    var s := LastSetting(history, k, StatusField);
    if SetsLast(history, k, StatusField, s) {
      SnapshotHoldsLast(history, k, StatusField, s);
    } else {
      SnapshotLacksUnrecorded(history, k, StatusField);
      NoStatus();
    }
  }

  lemma NoStatus()
    ensures !Contains("", "OB") && !Contains("", "DISCHRG")
  {
  }

  /** The points that enter the trend are exactly those some second of the history makes. */
  lemma PointsExactly(history: seq<Sample>, points: seq<Point>, p: Point)
    requires IsHistory(points, Snapshots(history))
    ensures p in points <==> exists k :: Makes(history, k, p)
  {
    hide Snapshots, Makes;
    if p in points {
      var k :| k in Snapshots(history) && Eligible(Snapshots(history)[k]) && PointOf(Snapshots(history)[k]) == p;
      MakesPoint(history, k, p);
    }
    if k :| Makes(history, k, p) {
      MadeInASecond(history, k, p);
      MakesPoint(history, k, p);
    }
  }

  lemma MadeInASecond(history: seq<Sample>, k: int, p: Point)
    requires Makes(history, k, p)
    ensures k in Snapshots(history)
  {
    SnapshotPerSecond(history, k);
  }

  function InsertPoint(p: Point, points: seq<Point>): seq<Point> {
    if points == [] || p.at < points[0].at then [p] + points else [points[0]] + InsertPoint(p, points[1..])
  }

  /** Sorts points by time. */
  function SortPoints(points: seq<Point>): seq<Point> {
    if points == [] then [] else InsertPoint(points[0], SortPoints(points[1..]))
  }

  lemma {:induction false} InsertKeepsOrder(p: Point, points: seq<Point>)
    requires InOrder(points) && forall q | q in points :: q.at != p.at
    ensures InOrder(InsertPoint(p, points))
    ensures forall q :: q in InsertPoint(p, points) <==> q == p || q in points
  {
    if points == [] || p.at < points[0].at {
    } else {
      var rest := InsertPoint(p, points[1..]);
      InsertKeepsOrder(p, points[1..]);
      assert points == [points[0]] + points[1..];
      forall j | 0 <= j < |rest| ensures points[0].at < rest[j].at {
        assert rest[j] in rest;
        assert points[0] in points;
      }
    }
  }

  lemma {:induction false} SortedPoints(points: seq<Point>)
    requires forall i, j | 0 <= i < j < |points| :: points[i].at != points[j].at
    ensures InOrder(SortPoints(points)) && forall q :: q in SortPoints(points) <==> q in points
  {
    if points != [] {
      SortedPoints(points[1..]);
      InsertKeepsOrder(points[0], SortPoints(points[1..]));
    }
  }

  /** There is only one such sequence. */
  lemma {:induction false} HistoryIsUnique(points: seq<Point>, others: seq<Point>)
    requires InOrder(points) && InOrder(others) && forall p :: p in points <==> p in others
    ensures points == others
  {
    if points == [] {
      Sorting.HasMember(others);
    } else {
      assert points[0] in others && others != [] && others[0] in points;
      assert points[0] == others[0];
      forall p ensures p in points[1..] <==> p in others[1..] {
        assert p in points[1..] ==> p in points && p != points[0];
        assert p in others[1..] ==> p in others && p != others[0];
      }
      HistoryIsUnique(points[1..], others[1..]);
    }
  }

  method CollectSnapshots(history: seq<Sample>) returns (snapshots: map<int, Snapshot>)
    ensures snapshots == Snapshots(history)
  {
    snapshots := map[];
    for i := 0 to |history|
      invariant snapshots == Snapshots(history[..i])
    {
      var sample := history[i];
      assert history[..i + 1][..i] == history[..i];
      var unixTS := Unix(sample.capturedAt);
      if unixTS !in snapshots {
        snapshots := snapshots[unixTS := Snapshot(sample.capturedAt, None, None, "")];
      }
      var snapshot := snapshots[unixTS];
      match sample.reading {
        case Runtime(parsed) =>
          if parsed.Some? && parsed.value > 0 {
            snapshots := snapshots[unixTS := snapshot.(runtime := parsed)];
          }
        case Charge(parsed) =>
          if parsed.Some? && 0.0 <= parsed.value <= 100.0 {
            snapshots := snapshots[unixTS := snapshot.(charge := parsed)];
          }
        case Status(text) =>
          snapshots := snapshots[unixTS := snapshot.(status := Upper(TrimSpace(text)))];
        case Other =>
      }
    }
    assert history[..|history|] == history;
  }

  lemma HasElement(s: set<int>)
    requires s != {}
    ensures exists k :: k in s
  {
    assert (forall k: int :: k !in s) ==> s == {};
  }

  /** Visits the snapshots in no particular order, then sorts. */
  method CollectPoints(snapshots: map<int, Snapshot>) returns (points: seq<Point>)
    requires forall k | k in snapshots :: Unix(snapshots[k].capturedAt) == k
    ensures IsHistory(points, snapshots)
  {
    hide Contains;
    points := [];
    var left: set<int> := set k | k in snapshots;
    while left != {}
      invariant forall k | k in left :: k in snapshots
      invariant forall p | p in points :: IsPoint(snapshots, p) && Unix(p.at) !in left
      invariant forall k | k in snapshots && k !in left && Eligible(snapshots[k]) :: PointOf(snapshots[k]) in points
      invariant forall i, j | 0 <= i < j < |points| :: points[i].at != points[j].at
      decreases left
    {
      HasElement(left);
      var k :| k in left;
      left := left - {k};
      var snapshot := snapshots[k];
      if snapshot.runtime.None? || snapshot.charge.None? {
        continue;
      }
      if snapshot.charge.value < 85.0 {
        continue;
      }
      if Contains(snapshot.status, "OB") || Contains(snapshot.status, "DISCHRG") {
        continue;
      }
      assert forall i | 0 <= i < |points| :: points[i] in points && Unix(points[i].at) != k;
      points := points + [Point(snapshot.capturedAt, snapshot.runtime.value)];
    }
    SortedPoints(points);
    points := SortPoints(points);
  }

  // ---------- The trend ----------

  const DAY: real := 86_400_000_000_000.0

  datatype Trend = Trend(baseline: int, latest: int, threshold: int, per30Days: real, samples: nat, sampledAt: int,
                         replaceBy: Option<int>)

  /** Days since the first point against seconds of runtime. */
  function Line(points: seq<Point>): seq<XY> {
    seq(|points|, i requires 0 <= i < |points| =>
      XY((points[i].at - points[0].at) as real / DAY, points[i].runtime as real))
  }

  function Highest(points: seq<Point>): (h: int)
    requires points != []
    ensures forall p | p in points :: p.runtime <= h
    ensures exists p :: p in points && p.runtime == h
  {
    var last := points[|points| - 1];
    if |points| == 1 then
      assert points[0] in points;
      last.runtime
    else
      var before := Highest(points[..|points| - 1]);
      assert last in points && points == points[..|points| - 1] + [last];
      if last.runtime > before then last.runtime else before
  }

  function ReplacementThreshold(baseline: int): int {
    (baseline as real * 0.70).Floor
  }

  /** Days until the line through the latest point reaches the threshold. */
  function DaysLeft(latest: int, threshold: int, slope: real): real
    requires slope != 0.0
  {
    (threshold - latest) as real / slope
  }

  function ReplaceBy(latest: Point, threshold: int, slope: real): Option<int> {
    if latest.runtime <= threshold then Some(latest.at)
    else if slope >= -0.01 then None
    else
      var days := DaysLeft(latest.runtime, threshold, slope);
      if days <= 0.0 || days > 3650.0 then None else Some(latest.at + (days * DAY).Floor)
  }

  function TrendOf(points: seq<Point>): Option<Trend> {
    if |points| < 3 || Denominator(Line(points)) == 0.0 then None
    else
      var slope := Slope(Line(points));
      var baseline := Highest(points);
      var latest := points[|points| - 1];
      var threshold := ReplacementThreshold(baseline);
      Some(Trend(baseline, latest.runtime, threshold, slope * 30.0, |points|, latest.at,
                 ReplaceBy(latest, threshold, slope)))
  }

  method HighestRuntime(points: seq<Point>) returns (baseline: int)
    requires points != []
    ensures baseline == Highest(points)
  {
    baseline := points[0].runtime;
    for i := 0 to |points|
      invariant baseline == if i == 0 then points[0].runtime else Highest(points[..i])
    {
      assert points[..i + 1][..i] == points[..i];
      if points[i].runtime > baseline {
        baseline := points[i].runtime;
      }
    }
    assert points[..|points|] == points;
  }

  /** The slope, or None when the denominator is zero. */
  method FitSlope(line: seq<XY>) returns (slope: Option<real>)
    ensures slope == if Denominator(line) == 0.0 then None else Some(Slope(line))
  {
    hide SumX, SumY, SumXY, SumXX;
    var sumX, sumY, sumXY, sumXX := Accumulate(line);
    var n := |line| as real;
    var denominator := n * sumXX - sumX * sumX;
    assert denominator == Denominator(line) && n * sumXY - sumX * sumY == Numerator(line);
    if denominator == 0.0 {
      return None;
    }
    slope := Some((n * sumXY - sumX * sumY) / denominator);
  }

  method EstimateReplacement(latest: Point, threshold: int, slope: real) returns (replaceBy: Option<int>)
    ensures replaceBy == ReplaceBy(latest, threshold, slope)
  {
    if latest.runtime <= threshold {
      return Some(latest.at);
    }
    if slope >= -0.01 {
      return None;
    }
    var daysUntilThreshold := (threshold - latest.runtime) as real / slope;
    if daysUntilThreshold <= 0.0 || daysUntilThreshold > 3650.0 {
      return None;
    }
    replaceBy := Some(latest.at + (daysUntilThreshold * DAY).Floor);
  }

  method BuildBatteryRuntimeTrend(history: seq<Sample>) returns (trend: Option<Trend>)
    ensures exists points :: IsHistory(points, Snapshots(history)) && trend == TrendOf(points)
  {
    hide Snapshots, IsHistory, Denominator, Slope, Line, Highest, Unix;
    if |history| == 0 {
      NoHistory();
      assert IsHistory([], Snapshots(history)) && TrendOf([]) == None;
      return None;
    }
    var snapshots := CollectSnapshots(history);
    FiledUnderItsSecond(history);
    var points := CollectPoints(snapshots);
    if |points| < 3 {
      return None;
    }
    var baseline := HighestRuntime(points);
    var latest := points[|points| - 1];
    var fitted := FitSlope(Line(points));
    if fitted.None? {
      return None;
    }
    var slope := fitted.value;
    var threshold := (baseline as real * 0.70).Floor;
    var replaceBy := EstimateReplacement(latest, threshold, slope);
    trend := Some(Trend(baseline, latest.runtime, threshold, slope * 30.0, |points|, latest.at, replaceBy));
  }

  lemma NoHistory()
    ensures IsHistory([], Snapshots([]))
  {
  }

  // ---------- What the trend means ----------

  lemma LineIsIncreasing(points: seq<Point>)
    requires InOrder(points)
    ensures Increasing(Line(points)) && |Line(points)| == |points|
  {
    forall i, j | 0 <= i < j < |points| ensures Line(points)[i].x < Line(points)[j].x {
      Scaled((points[i].at - points[0].at) as real, (points[j].at - points[0].at) as real);
    }
  }

  lemma Scaled(a: real, b: real)
    requires a < b
    ensures a / DAY < b / DAY
  {
  }

  /** The zero-denominator exit is never taken: there is a trend exactly from three points on, and its slope
      is the least-squares slope of the points, closer to them than any other line. */
  lemma TrendFromThreePoints(history: seq<Sample>, points: seq<Point>, a: real, b: real)
    requires IsHistory(points, Snapshots(history))
    ensures TrendOf(points).Some? <==> |points| >= 3
    ensures |points| >= 3 ==>
              var line := Line(points);
              && Denominator(line) > 0.0
              && TrendOf(points).value.per30Days == Slope(line) * 30.0
              && Residual(line, Intercept(line), Slope(line)) <= Residual(line, a, b)
              && (Residual(line, Intercept(line), Slope(line)) == Residual(line, a, b) <==>
                  a == Intercept(line) && b == Slope(line))
  {
    hide Snapshots, Denominator, Slope, Intercept, Residual, Line;
    LineIsIncreasing(points);
    if |points| >= 3 {
      DenominatorIsPositive(Line(points));
      SlopeIsLeastSquares(Line(points), a, b);
    }
  }

  /** Runtimes that never rise from one point to a later one give a trend of at most zero, of exactly zero only
      when they are all equal. */
  lemma TrendNeverRises(history: seq<Sample>, points: seq<Point>)
    requires IsHistory(points, Snapshots(history)) && |points| >= 3
    requires forall i, j | 0 <= i < j < |points| :: points[i].runtime >= points[j].runtime
    ensures TrendOf(points).Some? && TrendOf(points).value.per30Days <= 0.0
    ensures TrendOf(points).value.per30Days == 0.0 <==>
            forall i, j | 0 <= i < j < |points| :: points[i].runtime == points[j].runtime
  {
    hide Snapshots, Denominator, Slope, Intercept;
    LineIsIncreasing(points);
    DenominatorIsPositive(Line(points));
    SlopeNeverRises(Line(points));
    forall i, j | 0 <= i < j < |points|
      ensures Line(points)[i].y == Line(points)[j].y <==> points[i].runtime == points[j].runtime
    {
    }
    assert Level(Line(points)) <==> forall i, j | 0 <= i < j < |points| :: points[i].runtime == points[j].runtime;
  }

  /** The estimate: due at once when the latest runtime is at the threshold or below; otherwise only for a slope
      under -0.01, and then for the instant, never in the past, at which the line through the latest point
      meets the threshold, if that is within 3650 days. So the test for days <= 0 never succeeds. */
  lemma ReplacementEstimate(latest: Point, threshold: int, slope: real)
    ensures var estimate := ReplaceBy(latest, threshold, slope);
            if latest.runtime <= threshold then estimate == Some(latest.at)
            else if slope >= -0.01 then estimate.None?
            else
              var days := DaysLeft(latest.runtime, threshold, slope);
              && days > 0.0 && latest.runtime as real + slope * days == threshold as real
              && (estimate.Some? <==> days <= 3650.0)
              && (estimate.Some? ==>
                    var wait := estimate.value - latest.at;
                    0 <= wait < 0x8000_0000_0000_0000 && wait as real <= days * DAY < wait as real + 1.0)
  {
    if latest.runtime > threshold && slope < -0.01 {
      var drop := (threshold - latest.runtime) as real;
      NegativeQuotient(drop, slope);
      Rounded(drop / slope);
    }
  }

  lemma NegativeQuotient(n: real, d: real)
    requires n < 0.0 && d < 0.0
    ensures n / d > 0.0 && d * (n / d) == n
  {
    var t := n / d;
    assert d * t == n;
    if t <= 0.0 {
      SignOfProduct(-d, t);
      assert -d * t == -(d * t);
    }
  }

  lemma Rounded(days: real)
    requires days > 0.0
    ensures var wait := (days * DAY).Floor;
            && 0 <= wait && wait as real <= days * DAY < wait as real + 1.0
            && (days <= 3650.0 ==> wait < 0x8000_0000_0000_0000)
  {
  }

  /** The threshold is seven tenths of the best runtime, rounded down. */
  lemma ThresholdIsSevenTenths(points: seq<Point>)
    requires |points| >= 3 && Denominator(Line(points)) != 0.0
    ensures var t := TrendOf(points).value;
            && (forall p | p in points :: p.runtime <= t.baseline)
            && (exists p :: p in points && p.runtime == t.baseline)
            && 10 * t.threshold <= 7 * t.baseline < 10 * t.threshold + 10
  {
    hide Denominator, Slope, Line;
    assert points != [];
    var h := Highest(points);
    var p :| p in points && p.runtime == h;
  }

  /** The replacement date in the terms of the line itself: at once at the threshold or below it; otherwise there is
      one exactly for a fall of more than a hundredth of a second a day that reaches the threshold within 3650 days,
      and it is the last nanosecond at which the line is not below the threshold. */
  ghost predicate IsReplaceBy(replaceBy: Option<int>, sampledAt: int, drop: real, fall: real) {
    if drop <= 0.0 then replaceBy == Some(sampledAt)
    else
      && (replaceBy.Some? <==> fall > 0.01 && drop <= 3650.0 * fall)
      && (replaceBy.Some? ==>
            var wait := replaceBy.value - sampledAt;
            && 0 <= wait && fall * wait as real <= drop * 86_400_000_000_000.0
            && drop * 86_400_000_000_000.0 < fall * (wait as real + 1.0))
  }

  lemma Falls(drop: real, fall: real, days: real)
    requires drop > 0.0 && fall > 0.0 && days > 0.0 && fall * days == drop
    ensures var wait := (days * DAY).Floor as real;
            0.0 <= wait && fall * wait <= drop * DAY < fall * (wait + 1.0)
  {
    Rounded(days);
    var wait := (days * DAY).Floor as real;
    Regroup(fall, days, DAY);
    Between(fall, wait, wait + 1.0, days * DAY, drop * DAY);
  }

  lemma Between(fall: real, wait: real, next: real, time: real, depth: real)
    requires fall > 0.0 && wait <= time < next && fall * time == depth
    ensures fall * wait <= depth < fall * next
  {
    Scale(fall, wait, time);
    ScaleStrictly(fall, time, next);
  }

  lemma Negated(a: real, b: real)
    ensures -a * b == -(a * b)
  {
  }

  lemma ReplaceByIs(latest: Point, threshold: int, slope: real)
    ensures IsReplaceBy(ReplaceBy(latest, threshold, slope), latest.at, (latest.runtime - threshold) as real, -slope)
  {
    if latest.runtime > threshold && slope < -0.01 {
      var drop := (latest.runtime - threshold) as real;
      var days := -drop / slope;
      NegativeQuotient(-drop, slope);
      Negated(slope, days);
      Falls(drop, -slope, days);
      DaysCompare(-slope, days, drop);
      assert (threshold - latest.runtime) as real == -drop;
      var estimate := ReplaceBy(latest, threshold, slope);
      assert estimate == if days > 3650.0 then None else Some(latest.at + (days * DAY).Floor);
      var wait := (days * DAY).Floor;
      WaitIs(estimate, latest.at, drop, -slope, wait);
    }
  }

  lemma WaitIs(replaceBy: Option<int>, sampledAt: int, drop: real, fall: real, wait: int)
    requires drop > 0.0 && 0 <= wait && (replaceBy.Some? ==> replaceBy.value == sampledAt + wait)
    requires replaceBy.Some? <==> fall > 0.01 && drop <= 3650.0 * fall
    requires fall * wait as real <= drop * DAY < fall * (wait as real + 1.0)
    ensures IsReplaceBy(replaceBy, sampledAt, drop, fall)
  {
  }

  lemma Regroup(a: real, b: real, c: real)
    ensures a * (b * c) == (a * b) * c
  {
  }

  lemma Scale(a: real, b: real, c: real)
    requires a > 0.0 && b <= c
    ensures a * b <= a * c
  {
  }

  lemma ScaleStrictly(a: real, b: real, c: real)
    requires a > 0.0 && b < c
    ensures a * b < a * c
  {
  }

  lemma DaysCompare(fall: real, days: real, drop: real)
    requires fall > 0.0 && fall * days == drop
    ensures days <= 3650.0 <==> drop <= 3650.0 * fall
  {
    if days <= 3650.0 {
      Scale(fall, days, 3650.0);
    } else {
      ScaleStrictly(fall, 3650.0, days);
    }
  }

  /** What the trend reports: the runtime and the time of the latest point, how many points there are, thirty times
      the slope per day, and the replacement date. */
  lemma TrendReports(history: seq<Sample>, points: seq<Point>)
    requires IsHistory(points, Snapshots(history)) && |points| >= 3
    ensures TrendOf(points).Some?
    ensures var t := TrendOf(points).value;
            && (exists p :: p in points && p.runtime == t.latest && p.at == t.sampledAt)
            && (forall p | p in points :: p.at <= t.sampledAt)
            && t.samples == |points| == |Line(points)|
            && (forall i | 0 <= i < |points| ::
                  && Line(points)[i].x * 86_400_000_000_000.0 == (points[i].at - points[0].at) as real
                  && Line(points)[i].y == points[i].runtime as real)
            && IsReplaceBy(t.replaceBy, t.sampledAt, (t.latest - t.threshold) as real, -(t.per30Days / 30.0))
  {
    hide Snapshots, Denominator, Slope, IsReplaceBy, ReplaceBy, Highest;
    LineIsIncreasing(points);
    DenominatorIsPositive(Line(points));
    var t, last := TrendOf(points).value, points[|points| - 1];
    assert last in points && last.runtime == t.latest && last.at == t.sampledAt;
    ReplaceByIs(last, t.threshold, Slope(Line(points)));
    assert t.per30Days / 30.0 == Slope(Line(points));
    forall i | 0 <= i < |points| ensures Line(points)[i].x * DAY == (points[i].at - points[0].at) as real {
      Divide((points[i].at - points[0].at) as real);
    }
  }

  lemma Divide(a: real)
    ensures a / DAY * DAY == a
  {
  }
}
