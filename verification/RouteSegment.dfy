/** Slicing a directional route polyline between two of its stops. */
module RouteSegment {
  import opened Wrappers
  import opened MapSums
  import opened Geo
  import opened StopProjection

  /** A stop object: `ref` is its identity. */
  datatype SegmentStop = SegmentStop(ref: nat, at: LatLng)

  datatype Segment = Segment(coordinates: seq<LatLng>, stops: seq<SegmentStop>)

  datatype SegmentError =
    | TooFewCoordinates
    | StopNotOnRoute
    | StopsOutOfOrder
    | ViaNotBetween
    | StopsTooClose

  function Locations(stops: seq<SegmentStop>): (points: seq<LatLng>)
    ensures |points| == |stops|
    ensures forall k :: 0 <= k < |stops| ==> points[k] == stops[k].at
  {
    seq(|stops|, k requires 0 <= k < |stops| => stops[k].at)
  }

  /** The start of row k of the cost table. */
  ghost predicate CostsUpTo(d: Distances, k: nat, row: seq<real>)
    requires k < |d.of|
  {
    |row| <= d.vertices && forall i :: 0 <= i < |row| ==> row[i] == Best(d, k, i)
  }

  /** The start of row k of the predecessor table; the first stop has no predecessor. */
  ghost predicate ChoicesUpTo(d: Distances, k: nat, row: seq<int>)
    requires k < |d.of|
  {
    |row| <= d.vertices && (k > 0 ==> forall i :: 0 <= i < |row| ==> row[i] == Earliest(d, k - 1, i))
  }

  ghost predicate CostRow(d: Distances, k: nat, row: seq<real>)
    requires k < |d.of|
  {
    |row| == d.vertices && CostsUpTo(d, k, row)
  }

  ghost predicate ChoiceRow(d: Distances, k: nat, row: seq<int>)
    requires k < |d.of|
  {
    |row| == d.vertices && ChoicesUpTo(d, k, row)
  }

  /** The dynamic program: one cost row and one choice row per stop, then the
      terminal choice and the walk back. */
  method ProjectStopsInOrder(coordinates: seq<LatLng>, stops: seq<LatLng>) returns (indices: seq<int>)
    requires stops != [] ==> coordinates != []
    ensures |indices| == |stops| && OrderPreserving(indices, |coordinates|)
    ensures Optimal(DistancesOf(coordinates, stops), indices)
    ensures indices == Projection(DistancesOf(coordinates, stops))
  {
    ghost var d := DistancesOf(coordinates, stops);
    ProjectionIsOptimal(d);
    if |stops| == 0 { return []; }
    var previousCost, choices := FillRows(d, coordinates, stops);
    var last := LastMinimum(d, |stops| - 1, previousCost);
    indices := WalkBack(d, choices, last);
  }

  method FillRows(ghost d: Distances, coordinates: seq<LatLng>, stops: seq<LatLng>)
    returns (previousCost: seq<real>, choices: seq<seq<int>>)
    requires d == DistancesOf(coordinates, stops) && stops != []
    ensures CostRow(d, |stops| - 1, previousCost) && |choices| == |stops|
    ensures forall j :: 0 <= j < |stops| ==> ChoiceRow(d, j, choices[j])
  {
    choices := [];
    previousCost := [];
    for k := 0 to |stops|
      invariant |choices| == k
      invariant k > 0 ==> CostRow(d, k - 1, previousCost)
      invariant forall j :: 0 <= j < k ==> ChoiceRow(d, j, choices[j])
    {
      var cost, choice := FillRow(d, coordinates, stops, k, previousCost);
      choices := choices + [choice];
      previousCost := cost;
    }
  }

  /** The prefix minimum of the row before, carried one vertex on, and the cost it gives. */
  lemma RunningMinimum(d: Distances, k: nat, previousCost: seq<real>, index: nat, prefixIndex: int, prefixCost: real)
    requires 0 < k < |d.of| && CostRow(d, k - 1, previousCost) && index < d.vertices
    requires if index == 0 then prefixIndex == -1
      else prefixIndex == Earliest(d, k - 1, index - 1) && prefixCost == Best(d, k - 1, prefixIndex)
    ensures var taken := prefixIndex < 0 || previousCost[index] < prefixCost;
      var (least, at) := if taken then (previousCost[index], index) else (prefixCost, prefixIndex);
      at == Earliest(d, k - 1, index) && least == Best(d, k - 1, at) && d.of[k][index] + least == Best(d, k, index)
  {
  }

  /** One stop's costs and predecessor choices at every vertex. */
  method FillRow(ghost d: Distances, coordinates: seq<LatLng>, stops: seq<LatLng>, k: nat, previousCost: seq<real>)
    returns (cost: seq<real>, choice: seq<int>)
    requires d == DistancesOf(coordinates, stops) && k < |stops|
    requires k > 0 ==> CostRow(d, k - 1, previousCost)
    ensures CostRow(d, k, cost) && ChoiceRow(d, k, choice)
  {
    var count := |coordinates|;
    var costs := new real[count];
    var choiceRow := new int[count];
    var prefixCost := 0.0;
    var prefixIndex := -1;
    for index := 0 to count
      invariant k > 0 && index > 0 ==> prefixIndex == Earliest(d, k - 1, index - 1)
      invariant k > 0 && index > 0 ==> prefixCost == Best(d, k - 1, prefixIndex)
      invariant k > 0 && index == 0 ==> prefixIndex == -1
      invariant k == 0 ==> prefixCost == 0.0
      invariant CostsUpTo(d, k, costs[..index]) && ChoicesUpTo(d, k, choiceRow[..index])
    {
      ghost var costsBefore, choicesBefore := costs[..index], choiceRow[..index];
      if k > 0 { RunningMinimum(d, k, previousCost, index, prefixIndex, prefixCost); }
      if k > 0 && (prefixIndex < 0 || previousCost[index] < prefixCost) {
        prefixCost := previousCost[index];
        prefixIndex := index;
      }
      costs[index] := SquaredDistance(coordinates[index], stops[k]) + prefixCost;
      choiceRow[index] := prefixIndex;
      assert costs[..index + 1] == costsBefore + [costs[index]];
      assert choiceRow[..index + 1] == choicesBefore + [prefixIndex];
    }
    assert costs[..] == costs[..count] && choiceRow[..] == choiceRow[..count];
    return costs[..], choiceRow[..];
  }

  /** The latest vertex of least final cost. */
  method LastMinimum(ghost d: Distances, ghost last: nat, previousCost: seq<real>) returns (index: nat)
    requires last < |d.of| && d.vertices > 0 && CostRow(d, last, previousCost)
    ensures index == Latest(d, last, d.vertices - 1)
  {
    index := 0;
    for candidate := 1 to |previousCost|
      invariant 0 <= index < |previousCost| && index == Latest(d, last, candidate - 1)
    {
      if previousCost[candidate] <= previousCost[index] { index := candidate; }
    }
  }

  method WalkBack(ghost d: Distances, choices: seq<seq<int>>, last: nat) returns (indices: seq<int>)
    requires |choices| == |d.of| > 0 && last < d.vertices
    requires forall j :: 0 <= j < |choices| ==> ChoiceRow(d, j, choices[j])
    ensures indices == Backtrack(d, |choices| - 1, last)
  {
    ghost var whole := Backtrack(d, |choices| - 1, last);
    var index: int := last;
    indices := seq(|choices|, _ => 0);
    var stopIndex := |choices| - 1;
    while stopIndex >= 0
      invariant -1 <= stopIndex < |choices| == |indices|
      invariant stopIndex >= 0 ==> index == whole[stopIndex]
      invariant forall j :: stopIndex < j < |choices| ==> indices[j] == whole[j]
    {
      indices := indices[stopIndex := index];
      if stopIndex > 0 {
        assert whole[stopIndex - 1] == choices[stopIndex][index] by {
          PrefixOfBacktrack(d, |choices| - 1, last, stopIndex - 1);
        }
      }
      index := choices[stopIndex][index];
      stopIndex := stopIndex - 1;
    }
  }

  /** The checks before projecting, in order. */
  function Rejection(full: seq<LatLng>, stops: seq<SegmentStop>, start: SegmentStop, end: SegmentStop,
                     via: Option<SegmentStop>): Option<SegmentError>
  {
    var from, until := IndexOf(stops, start), IndexOf(stops, end);
    if |full| < 2 then Some(TooFewCoordinates)
    else if from < 0 || until < 0 then Some(StopNotOnRoute)
    else if from >= until then Some(StopsOutOfOrder)
    else if via.Some? && !(from < IndexOf(stops, via.value) < until) then Some(ViaNotBetween)
    else None
  }

  /** A stop's place in the list: where it is listed first. */
  ghost predicate ListedFirst(stops: seq<SegmentStop>, stop: SegmentStop, at: int)
  {
    0 <= at < |stops| && stops[at] == stop && forall i :: 0 <= i < at ==> stops[i] != stop
  }

  ghost predicate Before(stops: seq<SegmentStop>, first: SegmentStop, second: SegmentStop)
  {
    exists i, j :: ListedFirst(stops, first, i) && ListedFirst(stops, second, j) && i < j
  }

  /** The request is accepted for projection exactly when the path has two points and the
      start, the via stop if there is one, and the end are listed in that order, each
      counted where it is listed first; every refusal names the first thing missing. */
  lemma RejectionMeans(full: seq<LatLng>, stops: seq<SegmentStop>, start: SegmentStop, end: SegmentStop,
                       via: Option<SegmentStop>)
    ensures var r := Rejection(full, stops, start, end, via);
      var listed, ordered := start in stops && end in stops, Before(stops, start, end);
      var between := via.None? || (Before(stops, start, via.value) && Before(stops, via.value, end));
      && (r == Some(TooFewCoordinates) <==> |full| < 2)
      && (r == Some(StopNotOnRoute) <==> |full| >= 2 && !listed)
      && (r == Some(StopsOutOfOrder) <==> |full| >= 2 && listed && !ordered)
      && (r == Some(ViaNotBetween) <==> |full| >= 2 && ordered && !between)
      && (r.None? <==> |full| >= 2 && ordered && between)
  {
    var from, until := IndexOf(stops, start), IndexOf(stops, end);
    assert start in stops ==> ListedFirst(stops, start, from);
    assert end in stops ==> ListedFirst(stops, end, until);
    FirstIsUnique(stops, start);
    FirstIsUnique(stops, end);
    if via.Some? {
      FirstIsUnique(stops, via.value);
      assert via.value in stops ==> ListedFirst(stops, via.value, IndexOf(stops, via.value));
    }
  }

  lemma FirstIsUnique(stops: seq<SegmentStop>, stop: SegmentStop)
    ensures forall at :: ListedFirst(stops, stop, at) ==> at == IndexOf(stops, stop)
  {
  }

  /** `segment` runs from stop `from` to stop `until`, and each stop it lists
      projects inside its coordinates. */
  ghost predicate Spans(
      segment: Segment, full: seq<LatLng>, stops: seq<SegmentStop>, p: seq<int>, from: int, until: int)
  {
    && 0 <= from < until < |stops| == |p|
    && segment.stops == stops[from..until + 1]
    && 0 <= p[from] < p[until] < |full|
    && segment.coordinates == full[p[from]..p[until] + 1]
    && forall m {:trigger p[m]} :: from <= m <= until ==>
      p[from] <= p[m] <= p[until] && segment.coordinates[p[m] - p[from]] == full[p[m]]
  }

  lemma SliceSpans(full: seq<LatLng>, stops: seq<SegmentStop>, p: seq<int>, from: int, until: int)
    requires 0 <= from < until < |stops| == |p| && OrderPreserving(p, |full|) && p[from] < p[until]
    ensures Spans(Segment(full[p[from]..p[until] + 1], stops[from..until + 1]), full, stops, p, from, until)
  {
  }

  /** The segment from stop `from` to stop `until`, or an error when their
      projections leave no polyline between them. */
  ghost predicate Sliced(
      full: seq<LatLng>, stops: seq<SegmentStop>, from: int, until: int, r: Result<Segment, SegmentError>)
    requires 0 <= from < until < |stops| && full != []
  {
    var p := Projection(DistancesOf(full, Locations(stops)));
    if p[from] >= p[until] then r == Err(StopsTooClose) else r.Ok? && Spans(r.value, full, stops, p, from, until)
  }

  method Slice(full: seq<LatLng>, stops: seq<SegmentStop>, from: int, until: int)
    returns (r: Result<Segment, SegmentError>)
    requires 0 <= from < until < |stops| && full != []
    ensures Sliced(full, stops, from, until, r)
  {
    var indices := ProjectStopsInOrder(full, Locations(stops));
    var startIndex, endIndex := indices[from], indices[until];
    if startIndex >= endIndex { return Err(StopsTooClose); }
    SliceSpans(full, stops, indices, from, until);
    return Ok(Segment(full[startIndex..endIndex + 1], stops[from..until + 1]));
  }

  /** A built segment is the slice between two stops' optimal projections. */
  method BuildRouteSegment(full: seq<LatLng>, stops: seq<SegmentStop>, start: SegmentStop, end: SegmentStop,
                           via: Option<SegmentStop>) returns (r: Result<Segment, SegmentError>)
    ensures match Rejection(full, stops, start, end, via)
      case Some(error) => r == Err(error)
      case None => Sliced(full, stops, IndexOf(stops, start), IndexOf(stops, end), r)
  {
    if |full| < 2 { return Err(TooFewCoordinates); }
    var startPosition := IndexOf(stops, start);
    var endPosition := IndexOf(stops, end);
    if startPosition < 0 || endPosition < 0 { return Err(StopNotOnRoute); }
    if startPosition >= endPosition { return Err(StopsOutOfOrder); }
    if via.Some? {
      var viaPosition := IndexOf(stops, via.value);
      if viaPosition <= startPosition || viaPosition >= endPosition { return Err(ViaNotBetween); }
    }
    r := Slice(full, stops, startPosition, endPosition);
  }
}
