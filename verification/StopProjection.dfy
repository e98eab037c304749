/** Order-preserving projection of stops onto a route polyline: the assignments
    it ranges over, the recurrence of its dynamic program, and optimality. */
module StopProjection {
  import opened Geo

  /** `of[k][i]` is the squared distance of stop k from vertex i. */
  datatype DistanceTable = DistanceTable(vertices: nat, of: seq<seq<real>>)

  type Distances = d: DistanceTable | forall k :: 0 <= k < |d.of| ==> |d.of[k]| == d.vertices
    witness DistanceTable(0, [])

  function DistancesOf(path: seq<LatLng>, stops: seq<LatLng>): (d: Distances)
    ensures d.vertices == |path| && |d.of| == |stops|
    ensures forall k, i :: 0 <= k < |stops| && 0 <= i < |path| ==> d.of[k][i] == SquaredDistance(path[i], stops[k])
  {
    DistanceTable(|path|, seq(|stops|, k requires 0 <= k < |stops| =>
      seq(|path|, i requires 0 <= i < |path| => SquaredDistance(path[i], stops[k]))))
  }

  // -------------------------------------------------------- what is minimised

  /** Places the first |a| stops on vertices, never going backwards. */
  predicate OrderPreserving(a: seq<int>, count: nat)
  {
    (forall i :: 0 <= i < |a| ==> 0 <= a[i] < count) &&
    forall i, j :: 0 <= i <= j < |a| ==> a[i] <= a[j]
  }

  /** Summed squared distance of a placement. */
  ghost function Cost(d: Distances, a: seq<int>): real
    requires |a| <= |d.of| && OrderPreserving(a, d.vertices)
  {
    if a == [] then 0.0
    else
      var k := |a| - 1;
      Cost(d, a[..k]) + d.of[k][a[k]]
  }

  ghost predicate Optimal(d: Distances, a: seq<int>)
  {
    && |a| == |d.of| && OrderPreserving(a, d.vertices)
    && forall b: seq<int> :: |b| == |d.of| && OrderPreserving(b, d.vertices) ==> Cost(d, a) <= Cost(d, b)
  }

  // ----------------------------------------------------------- the recurrence

  /** Least cost of placing stops 0..k with stop k on vertex i. */
  ghost function Best(d: Distances, k: nat, i: nat): real
    requires k < |d.of| && i < d.vertices
    decreases k, i, 0
  {
    d.of[k][i] +
      if k == 0 then 0.0 else Best(d, k - 1, Earliest(d, k - 1, i))
  }

  /** The earliest vertex up to i that is best for stop k. */
  ghost function Earliest(d: Distances, k: nat, i: nat): (j: nat)
    requires k < |d.of| && i < d.vertices
    ensures j <= i
    decreases k, i, 1
  {
    if i == 0 then 0
    else
      var j := Earliest(d, k, i - 1);
      if Best(d, k, i) < Best(d, k, j) then i else j
  }

  /** The latest vertex up to i that is best for stop k. */
  ghost function Latest(d: Distances, k: nat, i: nat): (j: nat)
    requires k < |d.of| && i < d.vertices
    ensures j <= i
  {
    if i == 0 then 0
    else
      var j := Latest(d, k, i - 1);
      if Best(d, k, i) <= Best(d, k, j) then i else j
  }

  /** The placement of stops 0..k read back from stop k on vertex i. */
  ghost function Backtrack(d: Distances, k: nat, i: nat): (a: seq<int>)
    requires k < |d.of| && i < d.vertices
    ensures |a| == k + 1 && a[k] == i && OrderPreserving(a, d.vertices)
  {
    if k == 0 then [i] else Backtrack(d, k - 1, Earliest(d, k - 1, i)) + [i]
  }

  ghost function Projection(d: Distances): (a: seq<int>)
    requires d.of != [] ==> d.vertices > 0
    ensures |a| == |d.of| && OrderPreserving(a, d.vertices)
  {
    if d.of == [] then [] else Backtrack(d, |d.of| - 1, Latest(d, |d.of| - 1, d.vertices - 1))
  }

  // --------------------------------------------------------------- optimality

  lemma {:induction false} EarliestIsLeast(d: Distances, k: nat, i: nat, j: nat)
    requires k < |d.of| && j <= i < d.vertices
    ensures var e := Earliest(d, k, i);
      && Best(d, k, e) <= Best(d, k, j)
      && (j < e ==> Best(d, k, e) < Best(d, k, j))
    decreases i
  {
    if j < i { EarliestIsLeast(d, k, i - 1, j); }
    if i > 0 && j == i {
      EarliestIsLeast(d, k, i - 1, Earliest(d, k, i - 1));
    }
  }

  lemma {:induction false} LatestIsLeast(d: Distances, k: nat, i: nat, j: nat)
    requires k < |d.of| && j <= i < d.vertices
    ensures var e := Latest(d, k, i);
      && Best(d, k, e) <= Best(d, k, j)
      && (j > e ==> Best(d, k, e) < Best(d, k, j))
    decreases i
  {
    if j < i { LatestIsLeast(d, k, i - 1, j); }
  }

  /** No placement of stops 0..k ending on vertex i costs less than the recurrence says. */
  lemma {:induction false} BestIsLowerBound(d: Distances, a: seq<int>)
    requires 0 < |a| <= |d.of| && OrderPreserving(a, d.vertices)
    ensures Cost(d, a) >= Best(d, |a| - 1, a[|a| - 1])
    decreases |a|
  {
    var k := |a| - 1;
    if k > 0 {
      BestIsLowerBound(d, a[..k]);
      EarliestIsLeast(d, k - 1, a[k], a[k - 1]);
    }
  }

  lemma CostSnoc(d: Distances, a: seq<int>, i: int)
    requires |a| < |d.of| && 0 <= i < d.vertices && OrderPreserving(a + [i], d.vertices)
    ensures OrderPreserving(a, d.vertices)
    ensures Cost(d, a + [i]) == Cost(d, a) + d.of[|a|][i]
  {
    var longer := a + [i];
    assert longer[..|a|] == a;
    assert forall k {:trigger a[k]} :: 0 <= k < |a| ==> a[k] == longer[k];
  }

  /** The placement read back attains it. */
  lemma {:induction false} BacktrackAttainsBest(d: Distances, k: nat, i: nat)
    requires k < |d.of| && i < d.vertices
    ensures Cost(d, Backtrack(d, k, i)) == Best(d, k, i)
    decreases k
  {
    if k > 0 {
      var before := Backtrack(d, k - 1, Earliest(d, k - 1, i));
      BacktrackAttainsBest(d, k - 1, Earliest(d, k - 1, i));
      assert Backtrack(d, k, i) == before + [i];
      CostSnoc(d, before, i);
    } else {
      assert Backtrack(d, 0, i) == [] + [i];
      CostSnoc(d, [], i);
    }
  }

  /** The cost the recurrence promises for the whole trip. */
  ghost function BestEnd(d: Distances): (r: real)
    requires d.of != [] && d.vertices > 0
  {
    Best(d, |d.of| - 1, Latest(d, |d.of| - 1, d.vertices - 1))
  }

  lemma ProjectionAttainsBest(d: Distances)
    requires d.of != [] && d.vertices > 0
    ensures Cost(d, Projection(d)) == BestEnd(d)
  {
    var k, last := |d.of| - 1, Latest(d, |d.of| - 1, d.vertices - 1);
    assert BestEnd(d) == Best(d, k, last);
    assert Projection(d) == Backtrack(d, k, last);
    BacktrackAttainsBest(d, k, last);
  }

  lemma BestEndIsLeast(d: Distances, b: seq<int>)
    requires d.of != [] && d.vertices > 0 && |b| == |d.of| && OrderPreserving(b, d.vertices)
    ensures BestEnd(d) <= Cost(d, b)
  {
    BestIsLowerBound(d, b);
    LatestIsLeast(d, |d.of| - 1, d.vertices - 1, b[|d.of| - 1]);
  }

  /** The projection is optimal among all order-preserving placements. */
  lemma ProjectionIsOptimal(d: Distances)
    requires d.of != [] ==> d.vertices > 0
    ensures Optimal(d, Projection(d))
  {
    if d.of != [] {
      ProjectionAttainsBest(d);
      forall b: seq<int> | |b| == |d.of| && OrderPreserving(b, d.vertices)
        ensures Cost(d, Projection(d)) <= Cost(d, b)
      {
        BestEndIsLeast(d, b);
      }
    }
  }

  lemma CheapestEndsNoLater(d: Distances, a: seq<int>)
    requires d.of != [] && |a| == |d.of| && OrderPreserving(a, d.vertices) && d.vertices > 0
    requires Cost(d, a) <= BestEnd(d)
    ensures a[|d.of| - 1] <= Latest(d, |d.of| - 1, d.vertices - 1)
  {
    BestIsLowerBound(d, a);
    LatestIsLeast(d, |d.of| - 1, d.vertices - 1, a[|d.of| - 1]);
  }

  /** The final stop takes the largest vertex any optimal placement can end on. */
  lemma FinalStopIsLatest(d: Distances, a: seq<int>)
    requires d.of != [] && Optimal(d, a)
    ensures d.vertices > 0 && a[|d.of| - 1] <= Projection(d)[|d.of| - 1]
  {
    assert 0 <= a[|d.of| - 1] < d.vertices;
    ProjectionAttainsBest(d);
    OptimalIsAtMost(d, a, Projection(d));
    CheapestEndsNoLater(d, a);
  }

  lemma OptimalIsAtMost(d: Distances, a: seq<int>, b: seq<int>)
    requires Optimal(d, a) && |b| == |d.of| && OrderPreserving(b, d.vertices)
    ensures Cost(d, a) <= Cost(d, b)
  {
  }

  /** Among optimal placements that agree on the later stops, each earlier stop
      takes the smallest vertex; with the rule above this fixes the result. */
  lemma EarlierStopsAreEarliest(d: Distances, a: seq<int>, k: nat)
    requires k + 1 < |d.of| && Optimal(d, a) && d.vertices > 0
    requires forall i :: k < i < |d.of| ==> a[i] == Projection(d)[i]
    ensures Projection(d)[k] <= a[k]
  {
    var p := Projection(d);
    ProjectionIsOptimal(d);
    assert Cost(d, a) == Cost(d, p);
    TailCostsAgree(d, a, p, k + 1);
    PrefixAttainsBest(d, k);
    PrefixBound(d, a, k);
    EarliestIsLeast(d, k, p[k + 1], a[k]);
  }

  lemma PrefixAttainsBest(d: Distances, k: nat)
    requires k + 1 < |d.of| && d.vertices > 0
    ensures var p := Projection(d);
      p[k] == Earliest(d, k, p[k + 1]) && Cost(d, p[..k + 1]) == Best(d, k, p[k])
  {
    var p := Projection(d);
    PrefixOfBacktrack(d, |d.of| - 1, p[|d.of| - 1], k);
    BacktrackAttainsBest(d, k, p[k]);
  }

  lemma PrefixBound(d: Distances, a: seq<int>, k: nat)
    requires k < |a| <= |d.of| && OrderPreserving(a, d.vertices)
    ensures Cost(d, a[..k + 1]) >= Best(d, k, a[k])
  {
    BestIsLowerBound(d, a[..k + 1]);
  }

  lemma {:induction false} TailCostsAgree(d: Distances, a: seq<int>, b: seq<int>, n: nat)
    requires |a| == |b| <= |d.of| && OrderPreserving(a, d.vertices) && OrderPreserving(b, d.vertices)
    requires n <= |a| && forall i :: n <= i < |a| ==> a[i] == b[i]
    ensures Cost(d, a) - Cost(d, a[..n]) == Cost(d, b) - Cost(d, b[..n])
    decreases |a|
  {
    if n == |a| {
      assert a[..n] == a && b[..n] == b;
    } else {
      var a0, b0 := a[..|a| - 1], b[..|a| - 1];
      CostOfLast(d, a);
      CostOfLast(d, b);
      TailCostsAgree(d, a0, b0, n);
      assert a0[..n] == a[..n] && b0[..n] == b[..n];
    }
  }

  lemma CostOfLast(d: Distances, a: seq<int>)
    requires 0 < |a| <= |d.of| && OrderPreserving(a, d.vertices)
    ensures Cost(d, a) == Cost(d, a[..|a| - 1]) + d.of[|a| - 1][a[|a| - 1]]
  {
  }

  lemma {:induction false} PrefixOfBacktrack(d: Distances, k: nat, i: nat, n: nat)
    requires n < k < |d.of| && i < d.vertices
    ensures var a := Backtrack(d, k, i);
      && a[..n + 1] == Backtrack(d, n, a[n])
      && a[n] == Earliest(d, n, a[n + 1])
    decreases k
  {
    var a := Backtrack(d, k, i);
    var before := Backtrack(d, k - 1, Earliest(d, k - 1, i));
    assert a == before + [i];
    if n + 1 < k {
      PrefixOfBacktrack(d, k - 1, Earliest(d, k - 1, i), n);
      assert a[..n + 1] == before[..n + 1];
    } else {
      assert a[..n + 1] == before;
    }
  }
}
