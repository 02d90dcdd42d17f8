/** The discrete parts of the localizer: the bounding box of the access points, the
    number of histogram bins, the cost-to-weight normalisation and the region
    proximity test used by the identity resolver. Multilateration and the heatmap
    clustering that produce regions are numerical and enter as the abstract
    function `localize`; the shape-to-shape distance enters as `shapeDistance`. */
module Localizer {
  import opened Wrappers
  import opened Types

  /** A position in meters. */
  datatype Position = Position(x: real, y: real)

  /** ([min x, min y], [max x, max y]) */
  datatype Bounds = Bounds(lower: Position, upper: Position)

  function MinOf(xs: seq<real>): (m: real)
    requires |xs| > 0
    ensures m in xs
    ensures forall i :: 0 <= i < |xs| ==> m <= xs[i]
  {
    if |xs| == 1 then xs[0]
    else
      var rest := MinOf(xs[1..]);
      assert forall i :: 1 <= i < |xs| ==> xs[i] == xs[1..][i - 1];
      if xs[0] <= rest then xs[0] else rest
  }

  function MaxOf(xs: seq<real>): (m: real)
    requires |xs| > 0
    ensures m in xs
    ensures forall i :: 0 <= i < |xs| ==> xs[i] <= m
  {
    if |xs| == 1 then xs[0]
    else
      var rest := MaxOf(xs[1..]);
      assert forall i :: 1 <= i < |xs| ==> xs[i] == xs[1..][i - 1];
      if xs[0] >= rest then xs[0] else rest
  }

  function Xs(ps: seq<Position>): (r: seq<real>)
    ensures |r| == |ps| && forall i :: 0 <= i < |ps| ==> r[i] == ps[i].x
  {
    seq(|ps|, i requires 0 <= i < |ps| => ps[i].x)
  }

  function Ys(ps: seq<Position>): (r: seq<real>)
    ensures |r| == |ps| && forall i :: 0 <= i < |ps| ==> r[i] == ps[i].y
  {
    seq(|ps|, i requires 0 <= i < |ps| => ps[i].y)
  }

  /** The smallest box holding every access point position. The source reads
      the positions from the dictionary's values; an empty dictionary makes
      min() raise, and the shell never passes one. */
  function GetBoundsFromPositions(ps: seq<Position>): (b: Bounds)
    requires |ps| > 0
    ensures b.lower.x <= b.upper.x && b.lower.y <= b.upper.y
    ensures forall i :: 0 <= i < |ps| ==>
              b.lower.x <= ps[i].x <= b.upper.x && b.lower.y <= ps[i].y <= b.upper.y
    ensures exists i :: 0 <= i < |ps| && ps[i].x == b.lower.x
    ensures exists i :: 0 <= i < |ps| && ps[i].y == b.lower.y
    ensures exists i :: 0 <= i < |ps| && ps[i].x == b.upper.x
    ensures exists i :: 0 <= i < |ps| && ps[i].y == b.upper.y
  {
    Bounds(Position(MinOf(Xs(ps)), MinOf(Ys(ps))), Position(MaxOf(Xs(ps)), MaxOf(Ys(ps))))
  }

  /** Python's int() on a float: truncation toward zero. */
  function Trunc(v: real): (n: int)
    ensures v >= 0.0 ==> n as real <= v < n as real + 1.0
    ensures v < 0.0 ==> n as real - 1.0 < v <= n as real
  {
    if v >= 0.0 then v.Floor else -((-v).Floor)
  }

  /** The histogram bin counts: the upper corner of the box divided by the bin
      size, each truncated; the lower corner plays no part. For a non-negative
      extent that is the number of whole bins that fit. */
  function GetNumberOfBins(bounds: Bounds, meterPerBin: real): (bins: (int, int))
    requires meterPerBin > 0.0
    ensures bounds.upper.x >= 0.0 ==>
              0 <= bins.0 && bins.0 as real <= bounds.upper.x / meterPerBin < bins.0 as real + 1.0
    ensures bounds.upper.y >= 0.0 ==>
              0 <= bins.1 && bins.1 as real <= bounds.upper.y / meterPerBin < bins.1 as real + 1.0
    ensures bounds.upper.x < 0.0 ==>
              bins.0 <= 0 && bins.0 as real - 1.0 < bounds.upper.x / meterPerBin <= bins.0 as real
    ensures bounds.upper.y < 0.0 ==>
              bins.1 <= 0 && bins.1 as real - 1.0 < bounds.upper.y / meterPerBin <= bins.1 as real
  {
    (Trunc(bounds.upper.x / meterPerBin), Trunc(bounds.upper.y / meterPerBin))
  }

  /** The cost of every restart mapped linearly onto [0.1, 0.9] and inverted, so
      that the cheapest restart weighs most. When all costs are equal the source
      divides zero by zero and gets NaN weights, modelled as None. */
  function CalculateNormalizedWeights(costs: seq<real>): (r: Option<seq<real>>)
    ensures costs == [] ==> r == Some([])
    ensures costs != [] ==> (r.None? <==> MinOf(costs) == MaxOf(costs))
    ensures r.Some? ==> |r.value| == |costs|
  {
    if costs == [] then Some([])
    else
      var lo := MinOf(costs);
      var hi := MaxOf(costs);
      if lo == hi then None
      else Some(seq(|costs|, i requires 0 <= i < |costs| => Weight(costs[i], lo, hi)))
  }

  /** The weight of one cost, given the least and the greatest cost. */
  function Weight(cost: real, lo: real, hi: real): real
    requires lo < hi
  {
    1.0 - (0.1 + (cost - lo) * (0.9 - 0.1) / (hi - lo))
  }

  lemma WeightRange(cost: real, lo: real, hi: real)
    requires lo <= cost <= hi && lo < hi
    ensures 0.1 <= Weight(cost, lo, hi) <= 0.9
    ensures cost == lo ==> Weight(cost, lo, hi) == 0.9
    ensures cost == hi ==> Weight(cost, lo, hi) == 0.1
  {
    var f := (cost - lo) / (hi - lo);
    assert f * (hi - lo) == cost - lo;
    assert 0.0 <= f <= 1.0;
    assert (cost - lo) * (0.9 - 0.1) / (hi - lo) == f * 0.8;
  }

  lemma WeightDecreasing(c1: real, c2: real, lo: real, hi: real)
    requires lo < hi && c1 < c2
    ensures Weight(c1, lo, hi) > Weight(c2, lo, hi)
  {
    var d := hi - lo;
    assert (c1 - lo) * 0.8 < (c2 - lo) * 0.8;
    assert (c1 - lo) * 0.8 / d < (c2 - lo) * 0.8 / d;
  }

  /** Every weight lies in [0.1, 0.9]; the cheapest cost gets 0.9 and the dearest 0.1. */
  lemma NormalizedWeightsRange(costs: seq<real>)
    requires costs != [] && MinOf(costs) < MaxOf(costs)
    ensures CalculateNormalizedWeights(costs).Some?
    ensures var w := CalculateNormalizedWeights(costs).value;
      (forall i :: 0 <= i < |costs| ==> 0.1 <= w[i] <= 0.9) &&
      (forall i :: 0 <= i < |costs| && costs[i] == MinOf(costs) ==> w[i] == 0.9) &&
      (forall i :: 0 <= i < |costs| && costs[i] == MaxOf(costs) ==> w[i] == 0.1)
  {
    var lo := MinOf(costs);
    var hi := MaxOf(costs);
    var w := CalculateNormalizedWeights(costs).value;
    forall i | 0 <= i < |costs|
      ensures 0.1 <= w[i] <= 0.9
      ensures costs[i] == lo ==> w[i] == 0.9
      ensures costs[i] == hi ==> w[i] == 0.1
    {
      assert w[i] == Weight(costs[i], lo, hi);
      WeightRange(costs[i], lo, hi);
    }
  }

  /** A cheaper cost always gets the larger weight. */
  lemma NormalizedWeightsOrder(costs: seq<real>, i: int, j: int)
    requires costs != [] && MinOf(costs) < MaxOf(costs)
    requires 0 <= i < |costs| && 0 <= j < |costs| && costs[i] < costs[j]
    ensures CalculateNormalizedWeights(costs).Some?
    ensures CalculateNormalizedWeights(costs).value[i] > CalculateNormalizedWeights(costs).value[j]
  {
    var lo := MinOf(costs);
    var hi := MaxOf(costs);
    var w := CalculateNormalizedWeights(costs).value;
    assert w[i] == Weight(costs[i], lo, hi);
    assert w[j] == Weight(costs[j], lo, hi);
    WeightDecreasing(costs[i], costs[j], lo, hi);
  }

  // ---------------------------------------------------------------------------
  // Region proximity (is_equal)
  // ---------------------------------------------------------------------------

  /** The shapely geometry built for a region. */
  datatype Shape = Polygon(vertices: seq<Point>) | LineString(a: Point, b: Point) | ShapePoint(p: Point)

  /** A region with at least three vertices is a polygon, with two a line, with one
      a point; an empty region makes `prev[0]` raise, modelled as None. */
  function ShapeOf(region: Region): (s: Option<Shape>)
    ensures s.None? <==> region == []
    ensures |region| >= 3 ==> s == Some(Polygon(region))
    ensures |region| == 2 ==> s == Some(LineString(region[0], region[1]))
    ensures |region| == 1 ==> s == Some(ShapePoint(region[0]))
  {
    if |region| >= 3 then Some(Polygon(region))
    else if |region| == 2 then Some(LineString(region[0], region[1]))
    else if |region| == 1 then Some(ShapePoint(region[0]))
    else None
  }

  /** itertools.product(previous, actual): previous in the outer position, so all
      pairs of previous[0] come first. */
  function Product(previous: seq<Region>, actual: seq<Region>): (pairs: seq<(Region, Region)>)
    ensures pairs == [] <==> previous == [] || actual == []
    ensures forall k :: 0 <= k < |pairs| ==> pairs[k].0 in previous && pairs[k].1 in actual
    ensures forall p, a :: p in previous && a in actual ==> (p, a) in pairs
  {
    if previous == [] then []
    else
      var row := seq(|actual|, j requires 0 <= j < |actual| => (previous[0], actual[j]));
      forall a | a in actual ensures (previous[0], a) in row {
        var j :| 0 <= j < |actual| && actual[j] == a;
        assert row[j] == (previous[0], a);
      }
      row + Product(previous[1..], actual)
  }

  /** How far one can walk in the elapsed seconds at the given speed, in meters. */
  function Reach(elapsed: real, kmPerH: real): real {
    elapsed * (kmPerH / 3.6)
  }

  /** The distance in meters between the shapes of a pair, when both regions are
      non-empty. */
  function PairDistance(pair: (Region, Region), meterPerBin: real, dist: (Shape, Shape) -> real): Option<real> {
    var (a, b) := (ShapeOf(pair.0), ShapeOf(pair.1));
    if a.Some? && b.Some? then Some(dist(a.value, b.value) * meterPerBin) else None
  }

  /** The outcome of is_equal: the first pair within reach, or (False, None, None,
      min of all distances), or an exception (an empty region, or no pair at all
      so that min([]) raises). */
  datatype EqualOutcome = Close(previous: Region, actual: Region, distance: real) | Apart(minDistance: real) | Failed

  /** The loop of is_equal from a given pair on, with the distances seen so far. */
  function SearchClose(pairs: seq<(Region, Region)>, reach: real, meterPerBin: real,
                       dist: (Shape, Shape) -> real, seen: seq<real>): EqualOutcome
    decreases |pairs|
  {
    if pairs == [] then (if seen == [] then Failed else Apart(MinOf(seen)))
    else match PairDistance(pairs[0], meterPerBin, dist)
      case None => Failed
      case Some(d) =>
        if d <= reach then Close(pairs[0].0, pairs[0].1, d)
        else SearchClose(pairs[1..], reach, meterPerBin, dist, seen + [d])
  }

  /** One step of the search: the pair at i decides, or the search moves on with
      its distance recorded. */
  lemma SearchCloseStep(pairs: seq<(Region, Region)>, i: nat, reach: real, meterPerBin: real,
                        dist: (Shape, Shape) -> real, seen: seq<real>)
    requires i < |pairs|
    ensures SearchClose(pairs[i..], reach, meterPerBin, dist, seen) ==
      match PairDistance(pairs[i], meterPerBin, dist)
      case None => Failed
      case Some(d) =>
        if d <= reach then Close(pairs[i].0, pairs[i].1, d)
        else SearchClose(pairs[i + 1..], reach, meterPerBin, dist, seen + [d])
  {
    assert pairs[i..][0] == pairs[i] && pairs[i..][1..] == pairs[i + 1..];
  }

  function IsEqualSpec(previous: seq<Region>, actual: seq<Region>, elapsed: real, kmPerH: real,
                       meterPerBin: real, dist: (Shape, Shape) -> real): EqualOutcome
  {
    SearchClose(Product(previous, actual), Reach(elapsed, kmPerH), meterPerBin, dist, [])
  }

  /** A Close outcome names the first pair, in product order, whose distance is
      within reach; every earlier pair had both shapes and was out of reach. */
  lemma {:induction false} CloseIsFirstWithinReach(pairs: seq<(Region, Region)>, reach: real, meterPerBin: real,
                                                  dist: (Shape, Shape) -> real, seen: seq<real>)
    requires SearchClose(pairs, reach, meterPerBin, dist, seen).Close?
    ensures var r := SearchClose(pairs, reach, meterPerBin, dist, seen);
      exists k :: 0 <= k < |pairs| && pairs[k] == (r.previous, r.actual) &&
        PairDistance(pairs[k], meterPerBin, dist) == Some(r.distance) && r.distance <= reach &&
        forall j :: 0 <= j < k ==> PairDistance(pairs[j], meterPerBin, dist).Some? &&
                                   PairDistance(pairs[j], meterPerBin, dist).value > reach
    decreases |pairs|
  {
    var r := SearchClose(pairs, reach, meterPerBin, dist, seen);
    var d := PairDistance(pairs[0], meterPerBin, dist);
    if d.value <= reach {
      assert pairs[0] == (r.previous, r.actual);
    } else {
      CloseIsFirstWithinReach(pairs[1..], reach, meterPerBin, dist, seen + [d.value]);
      var k :| 0 <= k < |pairs[1..]| && pairs[1..][k] == (r.previous, r.actual) &&
        PairDistance(pairs[1..][k], meterPerBin, dist) == Some(r.distance) && r.distance <= reach &&
        forall j :: 0 <= j < k ==> PairDistance(pairs[1..][j], meterPerBin, dist).Some? &&
                                   PairDistance(pairs[1..][j], meterPerBin, dist).value > reach;
      assert forall j :: 1 <= j < k + 1 ==> pairs[j] == pairs[1..][j - 1];
    }
  }

  /** An Apart outcome means every pair had both shapes and was out of reach, and
      it reports the least distance over the pairs (and those seen before). */
  lemma {:induction false} ApartMeansAllOutOfReach(pairs: seq<(Region, Region)>, reach: real, meterPerBin: real,
                                                  dist: (Shape, Shape) -> real, seen: seq<real>)
    requires SearchClose(pairs, reach, meterPerBin, dist, seen).Apart?
    ensures var m := SearchClose(pairs, reach, meterPerBin, dist, seen).minDistance;
      (forall j :: 0 <= j < |pairs| ==> PairDistance(pairs[j], meterPerBin, dist).Some? &&
                                        reach < PairDistance(pairs[j], meterPerBin, dist).value &&
                                        m <= PairDistance(pairs[j], meterPerBin, dist).value) &&
      (forall x :: x in seen ==> m <= x) &&
      (m in seen || exists j :: 0 <= j < |pairs| && PairDistance(pairs[j], meterPerBin, dist) == Some(m))
    decreases |pairs|
  {
    var m := SearchClose(pairs, reach, meterPerBin, dist, seen).minDistance;
    if pairs != [] {
      var d := PairDistance(pairs[0], meterPerBin, dist).value;
      ApartMeansAllOutOfReach(pairs[1..], reach, meterPerBin, dist, seen + [d]);
      assert forall j :: 1 <= j < |pairs| ==> pairs[j] == pairs[1..][j - 1];
      assert d in seen + [d];
      assert forall x :: x in seen ==> x in seen + [d];
      if m !in seen && m != d {
        var j :| 0 <= j < |pairs[1..]| && PairDistance(pairs[1..][j], meterPerBin, dist) == Some(m);
        assert PairDistance(pairs[j + 1], meterPerBin, dist) == Some(m);
      }
    } else {
      assert m == MinOf(seen);
      forall x | x in seen ensures m <= x {
        var i :| 0 <= i < |seen| && seen[i] == x;
      }
    }
  }

  /** A longer reach can only turn an outcome into Close, never out of it. */
  lemma {:induction false} SearchCloseMonotone(pairs: seq<(Region, Region)>, reach1: real, reach2: real,
                                              meterPerBin: real, dist: (Shape, Shape) -> real,
                                              seen1: seq<real>, seen2: seq<real>)
    requires reach1 <= reach2
    requires SearchClose(pairs, reach1, meterPerBin, dist, seen1).Close?
    ensures SearchClose(pairs, reach2, meterPerBin, dist, seen2).Close?
    decreases |pairs|
  {
    var d := PairDistance(pairs[0], meterPerBin, dist).value;
    if d > reach2 {
      SearchCloseMonotone(pairs[1..], reach1, reach2, meterPerBin, dist, seen1 + [d], seen2 + [d]);
    }
  }

  /** Waiting longer or walking faster can only turn "not equal" into "equal". */
  lemma IsEqualMonotone(previous: seq<Region>, actual: seq<Region>, elapsed1: real, kmPerH1: real,
                        elapsed2: real, kmPerH2: real, meterPerBin: real, dist: (Shape, Shape) -> real)
    requires 0.0 <= elapsed1 <= elapsed2 && 0.0 <= kmPerH1 <= kmPerH2
    requires IsEqualSpec(previous, actual, elapsed1, kmPerH1, meterPerBin, dist).Close?
    ensures IsEqualSpec(previous, actual, elapsed2, kmPerH2, meterPerBin, dist).Close?
  {
    ReachMonotone(elapsed1, kmPerH1, elapsed2, kmPerH2);
    SearchCloseMonotone(Product(previous, actual), Reach(elapsed1, kmPerH1), Reach(elapsed2, kmPerH2),
                        meterPerBin, dist, [], []);
  }

  lemma ReachMonotone(elapsed1: real, kmPerH1: real, elapsed2: real, kmPerH2: real)
    requires 0.0 <= elapsed1 <= elapsed2 && 0.0 <= kmPerH1 <= kmPerH2
    ensures Reach(elapsed1, kmPerH1) <= Reach(elapsed2, kmPerH2)
  {
    var s1 := kmPerH1 / 3.6;
    var s2 := kmPerH2 / 3.6;
    assert 0.0 <= s1 <= s2;
    assert elapsed1 * s1 <= elapsed2 * s1 <= elapsed2 * s2;
  }

  /** The empty product: is_equal ends in min([]), which raises. */
  lemma IsEqualOfNoRegions(previous: seq<Region>, actual: seq<Region>, elapsed: real, kmPerH: real,
                           meterPerBin: real, dist: (Shape, Shape) -> real)
    requires previous == [] || actual == []
    ensures IsEqualSpec(previous, actual, elapsed, kmPerH, meterPerBin, dist) == Failed
  {
  }

  /** The localizer of one venue: its access point layout and its constants. */
  class Localizer {
    const apDictPos: seq<(string, Position)>
    const bounds: Bounds
    const amountOfDraws: int
    const meterPerBin: real
    const n: int
    const fScale: int
    /** Multilateration and clustering: measurement -> regions of presence. */
    const localize: Measurement -> seq<Region>
    /** shapely's distance between two geometries, in bins. */
    const shapeDistance: (Shape, Shape) -> real

    constructor (apDictPos: seq<(string, Position)>, localize: Measurement -> seq<Region>,
                 shapeDistance: (Shape, Shape) -> real)
      requires |apDictPos| > 0
      ensures this.apDictPos == apDictPos && this.localize == localize && this.shapeDistance == shapeDistance
      ensures bounds == GetBoundsFromPositions(seq(|apDictPos|, i requires 0 <= i < |apDictPos| => apDictPos[i].1))
      ensures amountOfDraws == 20 && meterPerBin == 0.5 && n == 2 && fScale == 1
    {
      this.apDictPos := apDictPos;
      this.bounds := GetBoundsFromPositions(seq(|apDictPos|, i requires 0 <= i < |apDictPos| => apDictPos[i].1));
      this.amountOfDraws := 20;
      this.meterPerBin := 0.5;
      this.n := 2;
      this.fScale := 1;
      this.localize := localize;
      this.shapeDistance := shapeDistance;
    }

    /** The shapes of both regions and their distance in meters; an empty
        region makes the shape constructor raise. */
    method MeasurePair(prev: Region, actual: Region) returns (distance: Option<real>)
      ensures distance == PairDistance((prev, actual), meterPerBin, shapeDistance)
    {
      var previousRegion := ShapeOf(prev);
      if previousRegion.None? {
        return None;
      }
      var actualRegion := ShapeOf(actual);
      if actualRegion.None? {
        return None;
      }
      var pd := PairDistance((prev, actual), meterPerBin, shapeDistance);
      assert pd.Some?;
      assert pd.value == shapeDistance(previousRegion.value, actualRegion.value) * meterPerBin;
      distance := Some(shapeDistance(previousRegion.value, actualRegion.value) * meterPerBin);
    }

    /** Enumerates previous x actual, previous outer, and returns the first pair
        whose distance in meters is within the walking reach. */
    method IsEqual(previousRegions: seq<Region>, possibleActualRegions: seq<Region>,
                   timedInterval: real, kmPerH: real) returns (r: EqualOutcome)
      ensures r == IsEqualSpec(previousRegions, possibleActualRegions, timedInterval, kmPerH,
                               meterPerBin, shapeDistance)
    {
      var distances: seq<real> := [];
      var combinations := Product(previousRegions, possibleActualRegions);
      var i := 0;
      while i < |combinations|
        invariant 0 <= i <= |combinations|
        invariant SearchClose(combinations[i..], Reach(timedInterval, kmPerH), meterPerBin, shapeDistance, distances)
               == IsEqualSpec(previousRegions, possibleActualRegions, timedInterval, kmPerH, meterPerBin, shapeDistance)
      {
        SearchCloseStep(combinations, i, Reach(timedInterval, kmPerH), meterPerBin, shapeDistance, distances);
        var (prev, actual) := combinations[i];
        var distance := MeasurePair(prev, actual);
        if distance.None? {
          return Failed;
        }
        var maxPossibleDistance := timedInterval * (kmPerH / 3.6);
        distances := distances + [distance.value];
        if distance.value <= maxPossibleDistance {
          return Close(prev, actual, distance.value);
        }
        i := i + 1;
      }
      assert combinations[i..] == [];
      if distances == [] {
        return Failed;
      }
      return Apart(MinOf(distances));
    }
  }
}
