/** The pure rules of the route-save protocol: claim decisions, document versions,
    geometry reuse, and which route document a save writes. A payload stands for
    its own hash and an ordered coordinate list for its own signature, because
    both hashes are taken to be injective. */
module RouteSaveContract {
  import opened Wrappers
  import opened Words
  import opened Geo
  import opened Polyline

  type Id = nat

  const ROUTE_SAVE_LEASE_MS: int := 30_000
  const ROUTE_LOCK_SCAN_LIMIT: nat := 50
  const STORED_POLYLINE_QUALITY := "HIGH_QUALITY"

  datatype Mode = Create | Edit
  datatype Stop = Stop(id: string, name: string, shortName: string, at: LatLng)
  datatype Payload = Payload(
    routeId: Id, mode: Mode, expectedVersion: int, name: string, color: string, stops: seq<Stop>)

  function Waypoints(stops: seq<Stop>): (points: seq<LatLng>)
    ensures |points| == |stops|
  {
    seq(|stops|, i requires 0 <= i < |stops| => stops[i].at)
  }

  /** One travel direction; a duration that does not parse is None. */
  datatype Leg = Leg(polyline: seq<int>, distanceMeters: real, duration: Option<real>)
  datatype Geometry = Geometry(forward: Leg, reverse: Leg)

  /** A stored route. A version field that is missing or not an integer is None. */
  datatype Route = Route(
    name: string, color: string, waypoints: seq<LatLng>, signature: seq<LatLng>,
    geometry: Geometry, polylineQuality: string,
    configVersion: Option<int>, geometryVersion: Option<int>)

  // ------------------------------------------------------------------ versions

  predicate IsVersion(n: int)
  {
    0 <= n <= MAX_SAFE_INTEGER
  }

  /** A version field as it is read: anything but a safe non-negative integer counts as 0. */
  function ReadVersion(field: Option<int>): (v: int)
    ensures IsVersion(v)
  {
    if field.Some? && IsVersion(field.value) then field.value else 0
  }

  function ConfigVersion(route: Option<Route>): int
  {
    if route.Some? then ReadVersion(route.value.configVersion) else 0
  }

  function GeometryVersion(route: Option<Route>): int
  {
    if route.Some? then ReadVersion(route.value.geometryVersion) else 0
  }

  /** The successor of a version reads back as itself exactly below the largest
      safe integer; there it reads as 0. */
  lemma SuccessorReadsBack(v: int)
    requires IsVersion(v)
    ensures ReadVersion(Some(v + 1)) == v + 1 <==> v < MAX_SAFE_INTEGER
    ensures ReadVersion(Some(MAX_SAFE_INTEGER + 1)) == 0
  {
  }

  // ------------------------------------------------------------------ decisions

  datatype Status = Processing | Succeeded | Failed | Unrecognized
  datatype Failure = Failure(code: string, outcomeUnknown: bool, httpStatus: int)

  /** A save-operation record. `leaseUntil` is None when it is not a finite number. */
  datatype Operation = Operation(
    payload: Payload, status: Status, leaseOwner: Id, leaseUntil: Option<int>,
    result: Option<Route>, failure: Option<Failure>)

  datatype Decision =
    | Claim | InProgress | Replay(result: Option<Route>) | FailedBefore(failure: Option<Failure>) | Conflict

  predicate UnknownOutcome(operation: Operation)
  {
    operation.failure.Some? && operation.failure.value.outcomeUnknown
  }

  function Decide(operation: Option<Operation>, payload: Payload, now: int): Decision
  {
    match operation
    case None => Claim
    case Some(o) =>
      if o.payload != payload then Conflict
      else if o.status == Succeeded then Replay(o.result)
      else if o.status == Failed && UnknownOutcome(o) then Claim
      else if o.status == Failed then FailedBefore(o.failure)
      else if o.status == Processing && o.leaseUntil.Some? && o.leaseUntil.value > now then InProgress
      else Claim
  }

  // ------------------------------------------------------------------- geometry

  predicate ValidEncodedPolyline(p: seq<int>)
  {
    0 < |p| <= 500_000 && Decode(p).Ok? && |Decode(p).value| >= 2
  }

  predicate ValidLeg(leg: Leg)
  {
    ValidEncodedPolyline(leg.polyline) && leg.distanceMeters >= 0.0 && leg.duration.Some?
  }

  /** The stored geometry may be kept: same ordered coordinates, full quality, both legs valid. */
  predicate Reusable(route: Route, signature: seq<LatLng>)
  {
    route.signature == signature && route.polylineQuality == STORED_POLYLINE_QUALITY &&
    ValidLeg(route.geometry.forward) && ValidLeg(route.geometry.reverse)
  }

  predicate Reuses(existing: Option<Route>, payload: Payload)
  {
    existing.Some? && Reusable(existing.value, Waypoints(payload.stops))
  }

  /** The document a save writes, from the route it read when it claimed. */
  function RouteToWrite(payload: Payload, existing: Option<Route>, computed: Geometry): Route
  {
    var waypoints := Waypoints(payload.stops);
    var reused := Reuses(existing, payload);
    Route(payload.name, payload.color, waypoints, waypoints,
          if reused then existing.value.geometry else computed, STORED_POLYLINE_QUALITY,
          Some(payload.expectedVersion + 1),
          Some(if reused then GeometryVersion(existing) else GeometryVersion(existing) + 1))
  }

  // -------------------------------------------------------------- ride ownership

  /** Rides on a route, and its bus locks in document order; a lock carries a
      session or is a firmware reservation. */
  datatype Occupancy = Occupancy(activeRides: nat, sessionLocks: seq<bool>)

  const VACANT := Occupancy(0, [])

  /** What the queries see: the lock query stops at its scan limit. */
  predicate RideSeen(o: Occupancy)
  {
    o.activeRides > 0 || exists i :: 0 <= i < |o.sessionLocks| && i < ROUTE_LOCK_SCAN_LIMIT && o.sessionLocks[i]
  }

  predicate RideOwns(o: Occupancy)
  {
    o.activeRides > 0 || exists i :: 0 <= i < |o.sessionLocks| && o.sessionLocks[i]
  }

  /** The guard misses a ride exactly when it has no active record yet and every
      session lock lies beyond the scan limit. */
  lemma RideMissedExactly(o: Occupancy)
    ensures RideOwns(o) && !RideSeen(o) <==>
      && o.activeRides == 0
      && (forall i :: 0 <= i < |o.sessionLocks| && i < ROUTE_LOCK_SCAN_LIMIT ==> !o.sessionLocks[i])
      && (exists i :: ROUTE_LOCK_SCAN_LIMIT <= i < |o.sessionLocks| && o.sessionLocks[i])
    ensures |o.sessionLocks| <= ROUTE_LOCK_SCAN_LIMIT ==> (RideOwns(o) <==> RideSeen(o))
  {
  }

  /** Fifty firmware reservations ahead of a ride's lock hide the ride. */
  const FIFTY_RESERVATIONS_THEN_A_RIDE := Occupancy(0, seq(51, i => i == 50))

  lemma FiftyReservationsHideARide()
    ensures RideOwns(FIFTY_RESERVATIONS_THEN_A_RIDE) && !RideSeen(FIFTY_RESERVATIONS_THEN_A_RIDE)
  {
    assert FIFTY_RESERVATIONS_THEN_A_RIDE.sessionLocks[50];
  }
}
