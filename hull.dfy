/** The Graham scan that turns the cells of a cluster into the polygon of a region.
    Slopes are exact rationals (the source uses floats) and distances are compared
    squared (the source compares their square roots, which orders them the same). */
module ConvexHull {
  import opened Wrappers
  import opened Types
  import opened Sorting

  /** The z-component of (p2 - p1) x (p3 - p1): negative for a right turn. */
  function Cross(p1: Point, p2: Point, p3: Point): int {
    (p2.x - p1.x) * (p3.y - p1.y) - (p2.y - p1.y) * (p3.x - p1.x)
  }

  /** The slope of the line through two points, infinite when it is vertical. */
  datatype Slope = Finite(value: real) | Vertical

  function SlopeOf(p: Point, start: Point): (s: Slope)
    ensures s.Vertical? <==> p.x == start.x
  {
    if p.x != start.x then Finite((p.y - start.y) as real / (p.x - start.x) as real) else Vertical
  }

  /** Float comparison with infinity above every finite slope. */
  function SlopeLe(a: Slope, b: Slope): bool {
    match (a, b)
    case (Finite(u), Finite(v)) => u <= v
    case (_, Vertical) => true
    case (Vertical, Finite(_)) => false
  }

  lemma SlopeLeAntisymmetric(a: Slope, b: Slope)
    requires SlopeLe(a, b) && SlopeLe(b, a)
    ensures a == b
  {
  }

  /** A point still to be placed on the hull, with its slope to the start point
      and its squared distance from it, the sort key of a run. */
  type Candidate = (Point, Slope, int)

  function BySlope(a: Candidate, b: Candidate): bool {
    SlopeLe(a.1, b.1)
  }

  lemma BySlopeTotalPreorder()
    ensures TotalPreorder(BySlope)
  {
  }

  function Dist2(p: Point, q: Point): int {
    (p.x - q.x) * (p.x - q.x) + (p.y - q.y) * (p.y - q.y)
  }

  /** The candidate made of p: its slope to the start point and its squared
      distance from it. */
  function CandidateOf(p: Point, start: Point): Candidate {
    (p, SlopeOf(p, start), Dist2(start, p))
  }

  function Candidates(rest: seq<Point>, start: Point): (cs: seq<Candidate>)
    ensures |cs| == |rest| && forall k :: 0 <= k < |rest| ==> cs[k] == CandidateOf(rest[k], start)
  {
    seq(|rest|, k requires 0 <= k < |rest| => CandidateOf(rest[k], start))
  }

  /** sorted(..., key=dis(start, .)) */
  function NearerFirst(a: Candidate, b: Candidate): bool {
    a.2 <= b.2
  }

  /** sorted(..., key=-dis(start, .)) */
  function FartherFirst(a: Candidate, b: Candidate): bool {
    a.2 >= b.2
  }

  lemma DistanceOrdersTotal()
    ensures TotalPreorder(NearerFirst) && TotalPreorder(FartherFirst)
  {
  }

  /** Python's ordering of (x, y) tuples. */
  predicate PointLe(a: Point, b: Point) {
    a.x < b.x || (a.x == b.x && a.y <= b.y)
  }

  /** min(points, key=(x, y)) */
  function LexMinPoint(ps: seq<Point>): (m: Point)
    requires |ps| > 0
    ensures m in ps
    ensures forall i :: 0 <= i < |ps| ==> PointLe(m, ps[i])
  {
    if |ps| == 1 then ps[0]
    else
      var rest := LexMinPoint(ps[1..]);
      assert forall i :: 1 <= i < |ps| ==> ps[i] == ps[1..][i - 1];
      if PointLe(ps[0], rest) then ps[0] else rest
  }

  /** points.pop(points.index(x)): the first occurrence of x goes. */
  function RemoveFirst(ps: seq<Point>, x: Point): (r: seq<Point>)
    requires x in ps
    ensures multiset(r) == multiset(ps) - multiset{x}
    ensures |r| == |ps| - 1
  {
    assert ps == [ps[0]] + ps[1..];
    if ps[0] == x then ps[1..] else [ps[0]] + RemoveFirst(ps[1..], x)
  }

  // ---------------------------------------------------------------------------
  // Candidate order: runs of equal slope
  // ---------------------------------------------------------------------------

  /** The candidates of the run that starts at i, already seen up to j, and of
      every later run: a lone point as it is, a longer run nearest first, and the
      last run farthest first. */
  function Arrange(ps: seq<Candidate>, i: nat, j: nat): seq<Candidate>
    requires i < j <= |ps|
    decreases |ps| - j
  {
    if j == |ps| then SortBy(ps[i..], FartherFirst)
    else if ps[j].1 != ps[i].1 then Chunk(ps, i, j) + Arrange(ps, j, j + 1)
    else Arrange(ps, i, j + 1)
  }

  /** A finished run that is not the last one, as Arrange lays it out. */
  function Chunk(ps: seq<Candidate>, i: nat, j: nat): seq<Candidate>
    requires i < j <= |ps|
  {
    if j - i == 1 then [ps[i]] else SortBy(ps[i..j], NearerFirst)
  }

  /** All slope-sorted candidates, arranged run by run. */
  function Arranged(ps: seq<Candidate>): seq<Candidate> {
    if ps == [] then [] else Arrange(ps, 0, 1)
  }

  /** Arranging the runs rearranges the candidates and loses none. */
  lemma {:induction false} ArrangePermutation(ps: seq<Candidate>, i: nat, j: nat)
    requires i < j <= |ps|
    ensures multiset(Arrange(ps, i, j)) == multiset(ps[i..])
    decreases |ps| - j
  {
    if j == |ps| {
      LastRunPermutation(ps, i);
    } else if ps[j].1 != ps[i].1 {
      ArrangePermutation(ps, j, j + 1);
      ClosedRunPermutation(ps, i, j);
    } else {
      ArrangePermutation(ps, i, j + 1);
      SameRunPermutation(ps, i, j);
    }
  }

  lemma LastRunPermutation(ps: seq<Candidate>, i: nat)
    requires i < |ps|
    ensures multiset(Arrange(ps, i, |ps|)) == multiset(ps[i..])
  {
    SortByPermutation(ps[i..], FartherFirst);
  }

  lemma ClosedRunPermutation(ps: seq<Candidate>, i: nat, j: nat)
    requires i < j < |ps| && ps[j].1 != ps[i].1
    requires multiset(Arrange(ps, j, j + 1)) == multiset(ps[j..])
    ensures multiset(Arrange(ps, i, j)) == multiset(ps[i..])
  {
    ChunkPermutation(ps, i, j);
    SplitPermutation(ps, i, j, Chunk(ps, i, j), Arrange(ps, j, j + 1));
  }

  lemma SameRunPermutation(ps: seq<Candidate>, i: nat, j: nat)
    requires i < j < |ps| && ps[j].1 == ps[i].1
    requires multiset(Arrange(ps, i, j + 1)) == multiset(ps[i..])
    ensures multiset(Arrange(ps, i, j)) == multiset(ps[i..])
  {
    ArrangeSameSlope(ps, i, j);
  }

  lemma ArrangedPermutation(ps: seq<Candidate>)
    ensures multiset(Arranged(ps)) == multiset(ps)
  {
    if ps != [] {
      ArrangePermutation(ps, 0, 1);
      assert ps[0..] == ps;
    }
  }

  lemma SplitPermutation(ps: seq<Candidate>, i: nat, j: nat, x: seq<Candidate>, y: seq<Candidate>)
    requires i <= j <= |ps|
    requires multiset(x) == multiset(ps[i..j]) && multiset(y) == multiset(ps[j..])
    ensures multiset(x + y) == multiset(ps[i..])
  {
    assert ps[i..] == ps[i..j] + ps[j..];
  }

  lemma ChunkPermutation(ps: seq<Candidate>, i: nat, j: nat)
    requires i < j <= |ps|
    ensures multiset(Chunk(ps, i, j)) == multiset(ps[i..j])
  {
    if j - i == 1 {
      assert ps[i..j] == [ps[i]];
    } else {
      SortByPermutation(ps[i..j], NearerFirst);
    }
  }

  /** In the arranged order slopes ascend (vertical last); points of equal slope
      come nearest first, except those of the greatest slope, which come farthest
      first. */
  predicate CandidateOrder(a: seq<Candidate>, lastSlope: Slope) {
    SortedBy(a, BySlope) &&
    forall k, l :: 0 <= k < l < |a| && a[k].1 == a[l].1 ==>
      if a[l].1 == lastSlope then a[k].2 >= a[l].2
      else a[k].2 <= a[l].2
  }

  /** A run of one slope below every slope after it, ordered nearest first, in
      front of candidates already in order. */
  lemma ConcatOrder(chunk: seq<Candidate>, rest: seq<Candidate>, last: Slope, sigma: Slope)
    requires forall c :: c in chunk ==> c.1 == sigma
    requires sigma != last
    requires SortedBy(chunk, NearerFirst)
    requires CandidateOrder(rest, last)
    requires forall c :: c in rest ==> SlopeLe(sigma, c.1) && c.1 != sigma
    ensures CandidateOrder(chunk + rest, last)
  {
    var a := chunk + rest;
    forall k, l | 0 <= k < l < |a|
      ensures BySlope(a[k], a[l])
      ensures a[k].1 == a[l].1 ==>
        if a[l].1 == last then a[k].2 >= a[l].2
        else a[k].2 <= a[l].2
    {
      if l < |chunk| {
        assert a[k] == chunk[k] && a[l] == chunk[l];
        assert a[k] in chunk && a[l] in chunk;
      } else if k < |chunk| {
        assert a[k] == chunk[k] && a[l] == rest[l - |chunk|];
        assert a[k] in chunk && a[l] in rest;
      } else {
        assert a[k] == rest[k - |chunk|] && a[l] == rest[l - |chunk|];
      }
    }
  }

  /** The last run: one slope, farthest first. */
  lemma FinalRunOrder(chunk: seq<Candidate>, last: Slope)
    requires forall c :: c in chunk ==> c.1 == last
    requires SortedBy(chunk, FartherFirst)
    ensures CandidateOrder(chunk, last)
  {
    forall k, l | 0 <= k < l < |chunk| ensures BySlope(chunk[k], chunk[l]) {
      assert chunk[k] in chunk && chunk[l] in chunk;
    }
  }

  /** The candidates from the run at i on follow the order the scan relies on,
      given the slope-sorted input. */
  lemma {:induction false} ArrangeOrder(ps: seq<Candidate>, i: nat, j: nat)
    requires i < j <= |ps|
    requires SortedBy(ps, BySlope)
    requires forall k :: i <= k < j ==> ps[k].1 == ps[i].1
    ensures CandidateOrder(Arrange(ps, i, j), ps[|ps| - 1].1)
    decreases |ps| - j
  {
    if j == |ps| {
      LastRunOrder(ps, i);
    } else {
      var closes := ps[j].1 != ps[i].1;
      ArrangeOrder(ps, if closes then j else i, j + 1);
      if closes {
        RunStepOrder(ps, i, j);
      }
    }
  }

  lemma LastRunOrder(ps: seq<Candidate>, i: nat)
    requires i < |ps|
    requires forall k :: i <= k < |ps| ==> ps[k].1 == ps[i].1
    ensures CandidateOrder(Arrange(ps, i, |ps|), ps[|ps| - 1].1)
  {
    var chunk := SortBy(ps[i..], FartherFirst);
    assert Arrange(ps, i, |ps|) == chunk;
    SortByPermutation(ps[i..], FartherFirst);
    forall c | c in chunk ensures c.1 == ps[|ps| - 1].1 {
      InMultiset(c, chunk, ps[i..]);
    }
    DistanceOrdersTotal();
    SortBySorted(ps[i..], FartherFirst);
    FinalRunOrder(chunk, ps[|ps| - 1].1);
  }

  lemma ChunkFacts(ps: seq<Candidate>, i: nat, j: nat)
    requires i < j <= |ps|
    requires forall k :: i <= k < j ==> ps[k].1 == ps[i].1
    ensures forall c :: c in Chunk(ps, i, j) ==> c.1 == ps[i].1
    ensures SortedBy(Chunk(ps, i, j), NearerFirst)
  {
    var chunk := Chunk(ps, i, j);
    ChunkPermutation(ps, i, j);
    forall c | c in chunk ensures c.1 == ps[i].1 {
      InMultiset(c, chunk, ps[i..j]);
    }
    if j - i > 1 {
      DistanceOrdersTotal();
      SortBySorted(ps[i..j], NearerFirst);
    }
  }

  lemma RestFacts(ps: seq<Candidate>, i: nat, j: nat)
    requires i < j < |ps|
    requires ps[j].1 != ps[i].1
    requires SortedBy(ps, BySlope)
    ensures ps[i].1 != ps[|ps| - 1].1
    ensures forall c :: c in Arrange(ps, j, j + 1) ==> SlopeLe(ps[i].1, c.1) && c.1 != ps[i].1
  {
    assert BySlope(ps[i], ps[j]) && SlopeLe(ps[j].1, ps[|ps| - 1].1);
    SlopeStaysAbove(ps[i].1, ps[j].1, ps[|ps| - 1].1);
    ArrangePermutation(ps, j, j + 1);
    AboveRun(ps, j, Arrange(ps, j, j + 1), ps[i].1);
  }

  /** Any rearrangement of the sorted candidates from j on stays strictly above
      a slope below that of candidate j. */
  lemma AboveRun(ps: seq<Candidate>, j: nat, rest: seq<Candidate>, sigma: Slope)
    requires j < |ps| && SortedBy(ps, BySlope)
    requires multiset(rest) == multiset(ps[j..])
    requires SlopeLe(sigma, ps[j].1) && sigma != ps[j].1
    ensures forall c :: c in rest ==> SlopeLe(sigma, c.1) && c.1 != sigma
  {
    forall c | c in rest ensures SlopeLe(sigma, c.1) && c.1 != sigma {
      InMultiset(c, rest, ps[j..]);
      var m :| j <= m < |ps| && ps[m] == c;
      assert SlopeLe(ps[j].1, ps[m].1);
      SlopeStaysAbove(sigma, ps[j].1, c.1);
    }
  }

  /** Past a strictly greater slope, the sorted slopes never come back down. */
  lemma SlopeStaysAbove(a: Slope, b: Slope, c: Slope)
    requires SlopeLe(a, b) && a != b && SlopeLe(b, c)
    ensures SlopeLe(a, c) && c != a
  {
  }

  lemma RunStepOrder(ps: seq<Candidate>, i: nat, j: nat)
    requires i < j < |ps|
    requires forall k :: i <= k < j ==> ps[k].1 == ps[i].1
    requires ps[j].1 != ps[i].1
    requires SortedBy(ps, BySlope)
    requires CandidateOrder(Arrange(ps, j, j + 1), ps[|ps| - 1].1)
    ensures CandidateOrder(Arrange(ps, i, j), ps[|ps| - 1].1)
  {
    var chunk := Chunk(ps, i, j);
    var rest := Arrange(ps, j, j + 1);
    assert Arrange(ps, i, j) == chunk + rest;
    ChunkFacts(ps, i, j);
    RestFacts(ps, i, j);
    ConcatOrder(chunk, rest, ps[|ps| - 1].1, ps[i].1);
  }

  /** A finished run that is not the last: a lone point as it is, a longer run
      nearest first. */
  method ArrangeRun(pointsSlopes: seq<Candidate>, i: nat, j: nat) returns (pointsCl: seq<Candidate>)
    requires i < j <= |pointsSlopes|
    ensures pointsCl == Chunk(pointsSlopes, i, j)
  {
    if j - i == 1 {
      pointsCl := [pointsSlopes[i]];
    } else {
      pointsCl := SortBy(pointsSlopes[i..j], NearerFirst);
    }
  }

  /** Closing a run moves it in front of the later runs. */
  lemma ArrangeClosesRun(ps: seq<Candidate>, i: nat, j: nat, done: seq<Candidate>)
    requires i < j < |ps| && ps[j].1 != ps[i].1
    ensures done + Arrange(ps, i, j) == done + Chunk(ps, i, j) + Arrange(ps, j, j + 1)
  {
    ConcatAssoc(done, Chunk(ps, i, j), Arrange(ps, j, j + 1));
  }

  lemma ConcatAssoc(a: seq<Candidate>, b: seq<Candidate>, c: seq<Candidate>)
    ensures a + b + c == a + (b + c)
  {
  }

  lemma ArrangeSameSlope(ps: seq<Candidate>, i: nat, j: nat)
    requires i < j < |ps| && ps[j].1 == ps[i].1
    ensures Arrange(ps, i, j) == Arrange(ps, i, j + 1)
  {
  }

  /** The run-by-run loop over the slope-sorted candidates: points holds the
      runs already closed, the current run starts at i and is seen up to j. */
  method ArrangeRuns(pointsSlopes: seq<Candidate>) returns (points: seq<Candidate>)
    ensures points == Arranged(pointsSlopes)
  {
    points := [];
    if |pointsSlopes| == 0 {
      return;
    }
    var i := 0;
    var j := 1;
    while j < |pointsSlopes|
      invariant 0 <= i < j <= |pointsSlopes|
      invariant points + Arrange(pointsSlopes, i, j) == Arrange(pointsSlopes, 0, 1)
    {
      if pointsSlopes[j].1 != pointsSlopes[i].1 {
        ArrangeClosesRun(pointsSlopes, i, j, points);
        var pointsCl := ArrangeRun(pointsSlopes, i, j);
        points := points + pointsCl;
        i := j;
      } else {
        ArrangeSameSlope(pointsSlopes, i, j);
      }
      j := j + 1;
    }
    var pointsCl := SortBy(pointsSlopes[i..], FartherFirst);
    points := points + pointsCl;
  }

  // ---------------------------------------------------------------------------
  // The scan
  // ---------------------------------------------------------------------------

  /** No three consecutive vertices make a right turn. */
  predicate NoRightTurn(s: seq<Point>) {
    forall i :: 0 <= i < |s| - 2 ==> Cross(s[i], s[i + 1], s[i + 2]) >= 0
  }

  /** Pushes p and pops the vertex below the top while the top three turn right.
      Collinear vertices stay: only a strictly negative cross product pops. */
  method PushAndPop(ans: seq<Point>, p: Point) returns (r: seq<Point>)
    requires |ans| >= 1 && NoRightTurn(ans)
    ensures |r| >= 2 && r[0] == ans[0] && r[|r| - 1] == p
    ensures NoRightTurn(r)
    ensures multiset(r) <= multiset(ans) + multiset{p}
    ensures |r| <= |ans| + 1
  {
    r := ans + [p];
    assert r[..|r| - 1] == ans;
    while |r| > 2 && Cross(r[|r| - 3], r[|r| - 2], r[|r| - 1]) < 0
      invariant |r| >= 2 && r[0] == ans[0] && r[|r| - 1] == p
      invariant NoRightTurn(r[..|r| - 1])
      invariant multiset(r) <= multiset(ans) + multiset{p}
      invariant |r| <= |ans| + 1
      decreases |r|
    {
      r := PopBelowTop(r);
    }
    ExtendNoRightTurn(r);
  }

  /** ans.pop(-2) */
  function PopBelowTop(s: seq<Point>): (r: seq<Point>)
    requires |s| > 2 && NoRightTurn(s[..|s| - 1])
    ensures |r| == |s| - 1 && r[0] == s[0] && r[|r| - 1] == s[|s| - 1]
    ensures NoRightTurn(r[..|r| - 1])
    ensures multiset(r) <= multiset(s)
  {
    var n := |s|;
    assert s == s[..n - 2] + [s[n - 2]] + [s[n - 1]];
    var r := s[..n - 2] + [s[n - 1]];
    assert r[..|r| - 1] == s[..n - 1][..n - 2];
    r
  }

  lemma ExtendNoRightTurn(r: seq<Point>)
    requires |r| >= 2 && NoRightTurn(r[..|r| - 1])
    requires |r| > 2 ==> Cross(r[|r| - 3], r[|r| - 2], r[|r| - 1]) >= 0
    ensures NoRightTurn(r)
  {
    forall i | 0 <= i < |r| - 2 ensures Cross(r[i], r[i + 1], r[i + 2]) >= 0 {
      if i < |r| - 3 {
        assert r[..|r| - 1][i] == r[i] && r[..|r| - 1][i + 1] == r[i + 1] && r[..|r| - 1][i + 2] == r[i + 2];
      }
    }
  }

  /** Pushes every candidate in turn, keeping the stack free of right turns. */
  method GrahamScan(start: Point, points: seq<Point>) returns (ans: seq<Point>)
    ensures |ans| >= 1 && ans[0] == start
    ensures NoRightTurn(ans)
    ensures multiset(ans) <= multiset{start} + multiset(points)
    ensures |ans| <= |points| + 1
    ensures points != [] ==> ans[|ans| - 1] == points[|points| - 1]
    ensures points == [] ==> ans == [start]
  {
    ans := [start];
    for k := 0 to |points|
      invariant |ans| >= 1 && ans[0] == start
      invariant NoRightTurn(ans)
      invariant multiset(ans) <= multiset{start} + multiset(points[..k])
      invariant |ans| <= k + 1
      invariant k > 0 ==> ans[|ans| - 1] == points[k - 1]
      invariant k == 0 ==> ans == [start]
    {
      PrefixMultiset(points, k);
      ans := PushAndPop(ans, points[k]);
    }
    assert points[..|points|] == points;
  }

  lemma PrefixMultiset(s: seq<Point>, k: nat)
    requires k < |s|
    ensures multiset(s[..k + 1]) == multiset(s[..k]) + multiset{s[k]}
  {
    assert s[..k + 1] == s[..k] + [s[k]];
  }

  /** Every candidate handed to the scan is one of the input points other than
      the start, keyed by its squared distance from the start. */
  lemma CandidatesFromInput(start: Point, rest: seq<Point>, arranged: seq<Candidate>)
    requires multiset(arranged) == multiset(Candidates(rest, start))
    ensures |arranged| == |rest|
    ensures forall k :: 0 <= k < |arranged| ==>
      arranged[k].0 in rest && arranged[k].2 == Dist2(start, arranged[k].0)
  {
    var pairs := Candidates(rest, start);
    assert |multiset(arranged)| == |multiset(pairs)|;
    forall k | 0 <= k < |arranged|
      ensures arranged[k].0 in rest && arranged[k].2 == Dist2(start, arranged[k].0)
    {
      InMultiset(arranged[k], arranged, pairs);
      var m :| 0 <= m < |rest| && pairs[m] == arranged[k];
    }
  }

  /** Arranges the other points around the start and scans them. */
  method ScanFrom(start: Point, rest: seq<Point>) returns (ans: seq<Point>)
    ensures |ans| >= 1 && ans[0] == start
    ensures NoRightTurn(ans)
    ensures |ans| <= |rest| + 1
    ensures forall v :: v in ans ==> v == start || v in rest
    ensures rest == [] ==> ans == [start]
  {
    var pointsSlopes := Candidates(rest, start);
    var sorted := SortBy(pointsSlopes, BySlope);
    var arranged := ArrangeRuns(sorted);
    ArrangedPermutation(sorted);
    SortByPermutation(pointsSlopes, BySlope);
    CandidatesFromInput(start, rest, arranged);
    var candidates := seq(|arranged|, k requires 0 <= k < |arranged| => arranged[k].0);
    ans := GrahamScan(start, candidates);
    forall v | v in ans ensures v == start || v in rest {
      assert v in multiset{start} + multiset(candidates);
      if v != start {
        assert v in candidates;
      }
    }
  }

  /** The hull of a non-empty set of cells, from the lexicographically smallest
      cell; an empty input makes min() raise, modelled as None. */
  method GetConvexHull(points: seq<Point>) returns (hull: Option<seq<Point>>)
    ensures hull.None? <==> points == []
    ensures hull.Some? ==> |hull.value| >= 1 && hull.value[0] == LexMinPoint(points)
    ensures hull.Some? ==> forall i :: 0 <= i < |points| ==> PointLe(hull.value[0], points[i])
    ensures hull.Some? ==> forall v :: v in hull.value ==> v in points
    ensures hull.Some? ==> |hull.value| <= |points|
    ensures hull.Some? ==> NoRightTurn(hull.value)
    ensures |points| == 1 ==> hull == Some(points)
  {
    if points == [] {
      return None;
    }
    var start := LexMinPoint(points);
    var rest := RemoveFirst(points, start);
    var ans := ScanFrom(start, rest);
    forall v | v in ans ensures v in points {
      if v != start {
        assert v in multiset(rest);
      }
    }
    if |points| == 1 {
      assert points == [start];
    }
    return Some(ans);
  }

  /** The slope-sorted candidates, arranged, satisfy the order the scan relies
      on, and each is keyed by its squared distance from the start. */
  lemma CandidatesInOrder(start: Point, rest: seq<Point>)
    requires |rest| > 0
    ensures var sorted := SortBy(Candidates(rest, start), BySlope);
      var arranged := Arranged(sorted);
      CandidateOrder(arranged, sorted[|sorted| - 1].1) &&
      multiset(arranged) == multiset(sorted) &&
      forall k :: 0 <= k < |arranged| ==> arranged[k].0 in rest && arranged[k].2 == Dist2(start, arranged[k].0)
  {
    var sorted := SortBy(Candidates(rest, start), BySlope);
    BySlopeTotalPreorder();
    SortBySorted(Candidates(rest, start), BySlope);
    ArrangeOrder(sorted, 0, 1);
    ArrangedPermutation(sorted);
    SortByPermutation(Candidates(rest, start), BySlope);
    CandidatesFromInput(start, rest, Arranged(sorted));
  }
}
