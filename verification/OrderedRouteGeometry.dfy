/** Route geometry computed in overlapping chunks and joined. The chunk request
    and the parsed duration are inputs. */
module OrderedRouteGeometry {
  import opened Wrappers
  import opened Geo
  import opened Polyline

  const MAX_ROUTE_STOPS: nat := 100
  const MAX_REQUEST_POINTS: nat := 27
  const MAX_POLYLINE_LENGTH: nat := 500_000

  /** `seconds` is the parsed duration, None when it does not parse. */
  datatype Geometry = Geometry(polyline: seq<int>, distanceMeters: real, seconds: Option<real>)

  datatype GeometryError =
    | InvalidWaypointCount
    | ChunkFailed
    | UndecodableChunk(error: DecodeError)
    | InvalidChunkGeometry
    | CombinedTooLarge

  // ---------------------------------------------------------------- splitting

  function ChunkAt(points: seq<LatLng>, index: nat): seq<LatLng>
    requires index <= |points|
  {
    if index + MAX_REQUEST_POINTS <= |points| then points[index..index + MAX_REQUEST_POINTS] else points[index..]
  }

  function ChunksFrom(points: seq<LatLng>, index: nat): seq<seq<LatLng>>
    decreases |points| - index
  {
    if index + 1 < |points| then [ChunkAt(points, index)] + ChunksFrom(points, index + MAX_REQUEST_POINTS - 1) else []
  }

  method SplitIntoChunks(points: seq<LatLng>) returns (chunks: seq<seq<LatLng>>)
    ensures chunks == ChunksFrom(points, 0)
  {
    chunks := [];
    var index := 0;
    while index + 1 < |points|
      invariant chunks + ChunksFrom(points, index) == ChunksFrom(points, 0)
    {
      chunks := chunks + [ChunkAt(points, index)];
      index := index + MAX_REQUEST_POINTS - 1;
    }
  }

  function Legs(points: seq<LatLng>): (legs: seq<(LatLng, LatLng)>)
    ensures |legs| == if points == [] then 0 else |points| - 1
  {
    if |points| < 2 then [] else [(points[0], points[1])] + Legs(points[1..])
  }

  ghost function AllLegs(chunks: seq<seq<LatLng>>): seq<(LatLng, LatLng)>
  {
    if chunks == [] then [] else Legs(chunks[0]) + AllLegs(chunks[1..])
  }

  /** Joins chunks at their shared points. */
  ghost function Glue(chunks: seq<seq<LatLng>>): seq<LatLng>
  {
    if chunks == [] then []
    else if |chunks| == 1 || chunks[0] == [] then chunks[0]
    else chunks[0][..|chunks[0]| - 1] + Glue(chunks[1..])
  }

  lemma {:induction false} LegsSplit(points: seq<LatLng>, m: nat)
    requires m < |points|
    ensures Legs(points) == Legs(points[..m + 1]) + Legs(points[m..])
    decreases m
  {
    if m > 0 {
      LegsSplit(points[1..], m - 1);
      assert points[..m + 1][1..] == points[1..][..m];
      assert points[1..][m - 1..] == points[m..];
    } else {
      assert points[0..] == points;
    }
  }

  /** Chunks have 2 to 27 points and consecutive chunks share exactly one. */
  lemma {:induction false} ChunksOverlap(points: seq<LatLng>, index: nat)
    requires index + 1 < |points|
    ensures var chunks := ChunksFrom(points, index);
      && chunks != [] && chunks[0] != [] && chunks[0][0] == points[index]
      && (forall c :: 0 <= c < |chunks| ==> 2 <= |chunks[c]| <= 27)
      && (forall c :: 0 < c < |chunks| ==> chunks[c][0] == chunks[c - 1][|chunks[c - 1]| - 1])
    decreases |points| - index
  {
    var chunks, next := ChunksFrom(points, index), index + MAX_REQUEST_POINTS - 1;
    if next + 1 < |points| {
      ChunksOverlap(points, next);
      var rest := ChunksFrom(points, next);
      forall c | 0 < c < |chunks| ensures chunks[c][0] == chunks[c - 1][|chunks[c - 1]| - 1] {
        if c > 1 { assert rest[c - 1][0] == rest[c - 2][|rest[c - 2]| - 1]; }
      }
    }
  }

  /** The chunks cover every leg exactly once, in order. */
  lemma {:induction false} ChunksCoverLegs(points: seq<LatLng>, index: nat)
    requires index + 1 < |points|
    ensures AllLegs(ChunksFrom(points, index)) == Legs(points[index..])
    decreases |points| - index
  {
    var chunks, head, next := ChunksFrom(points, index), ChunkAt(points, index), index + MAX_REQUEST_POINTS - 1;
    if next + 1 < |points| {
      ChunksCoverLegs(points, next);
      var from := points[index..];
      LegsSplit(from, MAX_REQUEST_POINTS - 1);
      assert from[..MAX_REQUEST_POINTS] == head && from[MAX_REQUEST_POINTS - 1..] == points[next..];
      assert chunks[1..] == ChunksFrom(points, next);
    } else {
      assert chunks == [head];
      assert AllLegs(chunks[1..]) == [];
      assert head == points[index..];
    }
  }

  /** Gluing the chunks at their shared points restores the input. */
  lemma {:induction false} ChunksGlueBack(points: seq<LatLng>, index: nat)
    requires index + 1 < |points|
    ensures Glue(ChunksFrom(points, index)) == points[index..]
    decreases |points| - index
  {
    var chunks, head, next := ChunksFrom(points, index), ChunkAt(points, index), index + MAX_REQUEST_POINTS - 1;
    if next + 1 < |points| {
      ChunksGlueBack(points, next);
      assert chunks[1..] == ChunksFrom(points, next);
      assert head[..|head| - 1] + points[next..] == points[index..];
    } else {
      assert chunks == [head];
      assert head == points[index..];
    }
  }

  // ------------------------------------------------------------------ joining

  /** `s` with adjacent repeats removed. */
  function Squeeze(s: seq<LatLng>): (t: seq<LatLng>)
    ensures s != [] ==> t != [] && t[|t| - 1] == s[|s| - 1]
    ensures s == [] ==> t == []
    ensures forall p :: p in t ==> p in s
  {
    if s == [] then []
    else
      var n := |s| - 1;
      if n > 0 && s[n] == s[n - 1] then Squeeze(s[..n]) else Squeeze(s[..n]) + [s[n]]
  }

  /** One point more is appended to the squeezed path unless it repeats its last. */
  lemma SqueezeSnoc(s: seq<LatLng>, p: LatLng)
    ensures var t := Squeeze(s);
      Squeeze(s + [p]) == if t != [] && t[|t| - 1] == p then t else t + [p]
  {
    var longer := s + [p];
    assert longer[..|s|] == s;
    if s != [] { assert longer[|s| - 1] == s[|s| - 1]; }
  }

  method AppendDistinct(path: seq<LatLng>, decoded: seq<LatLng>, ghost whole: seq<LatLng>)
    returns (extended: seq<LatLng>)
    requires path == Squeeze(whole)
    ensures extended == Squeeze(whole + decoded)
  {
    extended := path;
    ghost var seen := whole;
    assert whole + decoded[..0] == whole;
    for i := 0 to |decoded|
      invariant seen == whole + decoded[..i] && extended == Squeeze(seen)
    {
      var point := decoded[i];
      SqueezeSnoc(seen, point);
      seen := seen + [point];
      if |extended| == 0 || point != extended[|extended| - 1] { extended := extended + [point]; }
    }
    assert decoded[..|decoded|] == decoded;
  }

  ghost predicate NoAdjacentRepeats(s: seq<LatLng>)
  {
    forall i :: 0 < i < |s| ==> s[i - 1] != s[i]
  }

  lemma {:induction false} SqueezeHasNoRepeats(s: seq<LatLng>)
    ensures NoAdjacentRepeats(Squeeze(s)) && (NoAdjacentRepeats(s) ==> Squeeze(s) == s)
    decreases |s|
  {
    if s != [] {
      SqueezeHasNoRepeats(s[..|s| - 1]);
      assert s[..|s| - 1] + [s[|s| - 1]] == s;
    }
  }

  /** Point k does not repeat the point before. */
  predicate IsChange(s: seq<LatLng>, k: nat)
    requires k < |s|
  {
    k == 0 || s[k - 1] != s[k]
  }

  /** `at` lists, increasing, exactly the positions of `s` that do not repeat the
      point before, and `t` is `s` at those positions. */
  ghost predicate ListsChanges(s: seq<LatLng>, at: seq<nat>, t: seq<LatLng>)
  {
    && |at| == |t|
    && (forall i :: 0 <= i < |at| ==> at[i] < |s| && t[i] == s[at[i]])
    && (forall i, j :: 0 <= i < j < |at| ==> at[i] < at[j])
    && forall k: nat :: k < |s| ==> (k in at <==> IsChange(s, k))
  }

  lemma ChangesExtend(s: seq<LatLng>, at: seq<nat>, t: seq<LatLng>, p: LatLng)
    requires ListsChanges(s, at, t)
    ensures if IsChange(s + [p], |s|) then ListsChanges(s + [p], at + [|s|], t + [p]) else ListsChanges(s + [p], at, t)
  {
    var longer := s + [p];
    forall k: nat | k < |s| ensures k in at <==> IsChange(longer, k) {
      assert k in at <==> IsChange(s, k);
    }
    assert |s| !in at;
    forall k: nat | k < |s| ensures k in at + [|s|] <==> k in at {}
  }

  /** Squeezing keeps every point that is no repeat, in order, and no other. */
  lemma {:induction false} SqueezeKeepsChanges(s: seq<LatLng>) returns (at: seq<nat>)
    ensures ListsChanges(s, at, Squeeze(s))
    decreases |s|
  {
    if s == [] {
      at := [];
    } else {
      var n := |s| - 1;
      at := SqueezeKeepsChanges(s[..n]);
      ChangesExtend(s[..n], at, Squeeze(s[..n]), s[n]);
      assert s[..n] + [s[n]] == s;
      if IsChange(s, n) { at := at + [n]; }
    }
  }

  /** All chunk results decode to at least two points and carry a distance and a duration. */
  function CheckResults(results: seq<Geometry>): (failure: Option<GeometryError>)
    ensures failure.None? ==> forall i :: 0 <= i < |results| ==> Decode(results[i].polyline).Ok?
  {
    if results == [] then None
    else
      var r := results[0];
      var decoded := Decode(r.polyline);
      if decoded.Err? then Some(UndecodableChunk(decoded.error))
      else if |decoded.value| < 2 || r.seconds.None? || r.distanceMeters < 0.0 then Some(InvalidChunkGeometry)
      else CheckResults(results[1..])
  }

  /** The concatenated decoded chunk paths. */
  function Paths(results: seq<Geometry>): seq<LatLng>
  {
    if results == [] then []
    else
      Paths(results[..|results| - 1]) +
      match Decode(results[|results| - 1].polyline) { case Ok(p) => p case Err(_) => [] }
  }

  function TotalDistance(results: seq<Geometry>): real
  {
    if results == [] then 0.0 else TotalDistance(results[..|results| - 1]) + results[|results| - 1].distanceMeters
  }

  function TotalSeconds(results: seq<Geometry>): real
  {
    if results == [] then 0.0
    else
      TotalSeconds(results[..|results| - 1]) +
      match results[|results| - 1].seconds { case Some(t) => t case None => 0.0 }
  }

  function Joined(results: seq<Geometry>): Result<Geometry, GeometryError>
  {
    match CheckResults(results)
    case Some(error) => Err(error)
    case None =>
      var polyline := Encode(Squeeze(Paths(results)));
      if |polyline| > MAX_POLYLINE_LENGTH then Err(CombinedTooLarge)
      else Ok(Geometry(polyline, TotalDistance(results), Some(TotalSeconds(results))))
  }

  method JoinResults(results: seq<Geometry>) returns (r: Result<Geometry, GeometryError>)
    ensures r == Joined(results)
  {
    var path: seq<LatLng> := [];
    var distanceMeters, seconds := 0.0, 0.0;
    for i := 0 to |results|
      invariant CheckResults(results) == CheckResults(results[i..])
      invariant path == Squeeze(Paths(results[..i]))
      invariant distanceMeters == TotalDistance(results[..i]) && seconds == TotalSeconds(results[..i])
    {
      var result := results[i];
      assert results[i..][0] == result && results[i..][1..] == results[i + 1..];
      var decoded := DecodePolyline(result.polyline);
      if decoded.Err? { return Err(UndecodableChunk(decoded.error)); }
      if |decoded.value| < 2 || result.seconds.None? || result.distanceMeters < 0.0 {
        return Err(InvalidChunkGeometry);
      }
      assert results[..i + 1][..i] == results[..i];
      path := AppendDistinct(path, decoded.value, Paths(results[..i]));
      distanceMeters := distanceMeters + result.distanceMeters;
      seconds := seconds + result.seconds.value;
    }
    assert results[..|results|] == results;
    var polyline := EncodePolyline(path);
    if |polyline| > MAX_POLYLINE_LENGTH { return Err(CombinedTooLarge); }
    return Ok(Geometry(polyline, distanceMeters, Some(seconds)));
  }

  // ------------------------------------------------------- decoding the result

  ghost predicate OnGrid(p: LatLng)
  {
    InRange(p) && FromUnits(ToUnits(p)) == p
  }

  lemma {:induction false} DecodedUnitsInRange(encoded: seq<int>, index: nat, prev: Units)
    requires index <= |encoded| && DecodeFrom(encoded, index, prev).Ok?
    ensures forall i :: 0 <= i < |DecodeFrom(encoded, index, prev).value| ==>
      InRange(FromUnits(DecodeFrom(encoded, index, prev).value[i]))
    decreases |encoded| - index
  {
    if index < |encoded| {
      var (u, next) := DecodePoint(encoded, index, prev).value;
      DecodedUnitsInRange(encoded, next, u);
    }
  }

  lemma DecodedIsOnGrid(encoded: seq<int>)
    requires Decode(encoded).Ok?
    ensures forall p :: p in Decode(encoded).value ==> OnGrid(p)
  {
    DecodedUnitsInRange(encoded, 0, ORIGIN);
    var units := DecodeFrom(encoded, 0, ORIGIN).value;
    GridPointsAreStable(units);
    forall p | p in Decode(encoded).value ensures OnGrid(p) {
      var i :| 0 <= i < |units| && AllFromUnits(units)[i] == p;
      assert AllToUnits(AllFromUnits(units))[i] == units[i];
    }
  }

  lemma {:induction false} PathsAreOnGrid(results: seq<Geometry>)
    ensures forall p :: p in Paths(results) ==> OnGrid(p)
    decreases |results|
  {
    if results != [] {
      PathsAreOnGrid(results[..|results| - 1]);
      var last := results[|results| - 1].polyline;
      if Decode(last).Ok? { DecodedIsOnGrid(last); }
    }
  }

  lemma GridPathRoundTrip(path: seq<LatLng>)
    requires forall p :: p in path ==> OnGrid(p)
    ensures Decode(Encode(path)) == Ok(path)
  {
    assert forall i :: 0 <= i < |path| ==> OnGrid(path[i]);
    RoundTrip(path);
    assert Rounded(path) == path;
  }

  /** A joined route decodes to the chunk paths one after the other, at exactly the
      points that do not repeat the one before, in order; its distance and duration
      are the chunk sums. */
  lemma JoinedDecodes(results: seq<Geometry>) returns (at: seq<nat>)
    requires Joined(results).Ok?
    ensures Decode(Joined(results).value.polyline).Ok?
    ensures ListsChanges(Paths(results), at, Decode(Joined(results).value.polyline).value)
    ensures Joined(results).value.distanceMeters == TotalDistance(results)
    ensures Joined(results).value.seconds == Some(TotalSeconds(results))
  {
    PathsAreOnGrid(results);
    GridPathRoundTrip(Squeeze(Paths(results)));
    at := SqueezeKeepsChanges(Paths(results));
  }

  /** A chunk result that may be joined. */
  predicate Joinable(g: Geometry)
  {
    Decode(g.polyline).Ok? && |Decode(g.polyline).value| >= 2 && g.seconds.Some? && g.distanceMeters >= 0.0
  }

  /** Results are joined exactly when each of them may be and the route is not too long. */
  lemma {:induction false} JoinsExactly(results: seq<Geometry>)
    ensures CheckResults(results).None? <==> forall i :: 0 <= i < |results| ==> Joinable(results[i])
    ensures Joined(results).Ok? <==>
            CheckResults(results).None? && |Encode(Squeeze(Paths(results)))| <= 500_000
    decreases |results|
  {
    if results != [] {
      JoinsExactly(results[1..]);
      if Joinable(results[0]) { assert forall i :: 0 < i < |results| ==> results[i] == results[1..][i - 1]; }
    }
  }

  /** Chunk c's whole path stands in the chunk paths, right after those before it. */
  lemma {:induction false} EveryChunkIsJoined(results: seq<Geometry>, c: nat)
    requires c < |results| && Joinable(results[c])
    ensures Paths(results[..c]) + Decode(results[c].polyline).value <= Paths(results)
    decreases |results|
  {
    var last := |results| - 1;
    if c < last {
      EveryChunkIsJoined(results[..last], c);
      assert results[..last][..c] == results[..c];
    }
  }

  /** ... and its distance and duration are in the sums. */
  lemma EveryChunkIsCounted(results: seq<Geometry>, c: nat)
    requires c < |results| && Joinable(results[c])
    ensures TotalDistance(results[..c + 1]) == TotalDistance(results[..c]) + results[c].distanceMeters
    ensures TotalSeconds(results[..c + 1]) == TotalSeconds(results[..c]) + results[c].seconds.value
  {
    assert results[..c + 1][..c] == results[..c];
  }

  // ---------------------------------------------------------------- the whole

  /** What the requests returned, one outcome per chunk in order. */
  function Outcomes(
      chunks: seq<seq<LatLng>>, compute: (nat, seq<LatLng>) -> Option<Geometry>): (o: seq<Option<Geometry>>)
    ensures |o| == |chunks| && forall i :: 0 <= i < |chunks| ==> o[i] == compute(i, chunks[i])
  {
    seq(|chunks|, i requires 0 <= i < |chunks| => compute(i, chunks[i]))
  }

  /** Chunks are requested, any failure fails the route, one chunk is returned as
      it came and several are joined. */
  method ComputeOrderedRouteGeometry(points: seq<LatLng>, compute: (nat, seq<LatLng>) -> Option<Geometry>)
    returns (r: Result<Geometry, GeometryError>)
    ensures !(2 <= |points| <= 101) ==> r == Err(InvalidWaypointCount)
    ensures 2 <= |points| <= 101 ==>
      var chunks := ChunksFrom(points, 0);
      var outcomes := Outcomes(chunks, compute);
      if None in outcomes then r == Err(ChunkFailed)
      else if |chunks| == 1 then r == Ok(outcomes[0].value)
      else exists results: seq<Geometry> ::
        |results| == |chunks| && (forall i :: 0 <= i < |chunks| ==> outcomes[i] == Some(results[i])) &&
        r == Joined(results)
  {
    if |points| < 2 || |points| > MAX_ROUTE_STOPS + 1 { return Err(InvalidWaypointCount); }
    var chunks := SplitIntoChunks(points);
    ghost var outcomes := Outcomes(chunks, compute);
    ChunksOverlap(points, 0);
    var results: seq<Geometry> := [];
    for i := 0 to |chunks|
      invariant |results| == i && forall j :: 0 <= j < i ==> outcomes[j] == Some(results[j])
    {
      var outcome := compute(i, chunks[i]);
      assert outcome == outcomes[i];
      if outcome.None? { return Err(ChunkFailed); }
      results := results + [outcome.value];
    }
    if |results| == 1 { return Ok(results[0]); }
    r := JoinResults(results);
  }
}
