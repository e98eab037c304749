/** The route-save transactions. Each is one atomic step on the database. */
module RouteStore {
  import opened Wrappers
  import opened RouteSaveContract

  datatype Db = Db(operations: map<Id, Operation>, routes: map<Id, Route>, occupancy: map<Id, Occupancy>)

  function Lookup<V>(m: map<Id, V>, id: Id): Option<V>
  {
    if id in m then Some(m[id]) else None
  }

  function OccupancyOf(db: Db, routeId: Id): Occupancy
  {
    if routeId in db.occupancy then db.occupancy[routeId] else VACANT
  }

  datatype ClaimResult =
    | Claimed(existing: Option<Route>)
    | Answered(decision: Decision)
    | AlreadyExists
    | NotFound
    | Stale(currentVersion: int)
    | ActiveRide

  function ClaimTransaction(db: Db, saveId: Id, p: Payload, owner: Id, now: int): (Db, ClaimResult)
  {
    var operation, route := Lookup(db.operations, saveId), Lookup(db.routes, p.routeId);
    var decision := Decide(operation, p, now);
    if decision != Claim then (db, Answered(decision))
    else if p.mode == Create && route.Some? then (db, AlreadyExists)
    else if p.mode == Edit && route.None? then (db, NotFound)
    else if ConfigVersion(route) != p.expectedVersion then (db, Stale(ConfigVersion(route)))
    else if p.mode == Edit && RideSeen(OccupancyOf(db, p.routeId)) then (db, ActiveRide)
    else
      var record := Operation(p, Processing, owner, Some(now + ROUTE_SAVE_LEASE_MS), None, None);
      (db.(operations := db.operations[saveId := record]), Claimed(route))
  }

  datatype CommitResult = Committed | LeaseLost | StaleAtCommit(currentVersion: int) | ActiveRideAtCommit

  predicate HoldsLease(db: Db, saveId: Id, p: Payload, owner: Id)
  {
    saveId in db.operations && db.operations[saveId].status == Processing &&
    db.operations[saveId].leaseOwner == owner && db.operations[saveId].payload == p
  }

  function CommitTransaction(db: Db, saveId: Id, p: Payload, owner: Id, route: Route): (Db, CommitResult)
  {
    var current := Lookup(db.routes, p.routeId);
    if !HoldsLease(db, saveId, p, owner) then (db, LeaseLost)
    else if (p.mode == Create && current.Some?) || (p.mode == Edit && current.None?)
            || ConfigVersion(current) != p.expectedVersion then
      (db, StaleAtCommit(ConfigVersion(current)))
    else if p.mode == Edit && RideSeen(OccupancyOf(db, p.routeId)) then (db, ActiveRideAtCommit)
    else
      var done := db.operations[saveId].(status := Succeeded, result := Some(route), leaseUntil := Some(0));
      (db.(routes := db.routes[p.routeId := route], operations := db.operations[saveId := done]), Committed)
  }

  /** With its lease and version in order, an edit commits while a ride owns the
      route exactly when the scan misses that ride. */
  lemma EditCommitsUnderARideExactly(db: Db, saveId: Id, p: Payload, owner: Id, route: Route)
    requires p.mode == Edit && HoldsLease(db, saveId, p, owner) && p.routeId in db.routes
    requires ConfigVersion(Lookup(db.routes, p.routeId)) == p.expectedVersion && RideOwns(OccupancyOf(db, p.routeId))
    ensures var o := OccupancyOf(db, p.routeId);
      CommitTransaction(db, saveId, p, owner, route).1 == Committed <==>
        o.activeRides == 0 && forall i :: 0 <= i < |o.sessionLocks| && i < ROUTE_LOCK_SCAN_LIMIT ==> !o.sessionLocks[i]
  {
  }

  /** Recorded only while the requester's own lease still stands. */
  function FailTransaction(db: Db, saveId: Id, p: Payload, owner: Id, failure: Failure): Db
  {
    if !HoldsLease(db, saveId, p, owner) then db
    else
      var failed := db.operations[saveId].(status := Failed, failure := Some(failure), leaseUntil := Some(0));
      db.(operations := db.operations[saveId := failed])
  }

  class Store {
    var operations: map<Id, Operation>
    var routes: map<Id, Route>
    var occupancy: map<Id, Occupancy>

    constructor (routes: map<Id, Route>)
      ensures View() == Db(map[], routes, map[])
    {
      operations, this.routes, occupancy := map[], routes, map[];
    }

    function View(): Db
      reads this
    {
      Db(operations, routes, occupancy)
    }

    method Claim(saveId: Id, p: Payload, owner: Id, now: int) returns (r: ClaimResult)
      modifies this`operations
      ensures (View(), r) == ClaimTransaction(old(View()), saveId, p, owner, now)
    {
      var operation := if saveId in operations then Some(operations[saveId]) else None;
      var decision := Decide(operation, p, now);
      if decision != Decision.Claim { return Answered(decision); }
      var exists_ := p.routeId in routes;
      if p.mode == Create && exists_ { return AlreadyExists; }
      if p.mode == Edit && !exists_ { return NotFound; }
      var route := if exists_ then Some(routes[p.routeId]) else None;
      var currentVersion := ConfigVersion(route);
      if currentVersion != p.expectedVersion { return Stale(currentVersion); }
      if p.mode == Edit {
        var seen := RideSeen(if p.routeId in occupancy then occupancy[p.routeId] else VACANT);
        if seen { return ActiveRide; }
      }
      operations := operations[saveId := Operation(p, Processing, owner, Some(now + ROUTE_SAVE_LEASE_MS), None, None)];
      return Claimed(route);
    }

    method Commit(saveId: Id, p: Payload, owner: Id, route: Route) returns (r: CommitResult)
      modifies this`operations, this`routes
      ensures (View(), r) == CommitTransaction(old(View()), saveId, p, owner, route)
    {
      if saveId !in operations || operations[saveId].status != Processing
        || operations[saveId].leaseOwner != owner || operations[saveId].payload != p {
        return LeaseLost;
      }
      var exists_ := p.routeId in routes;
      var currentVersion := ConfigVersion(if exists_ then Some(routes[p.routeId]) else None);
      if (p.mode == Create && exists_) || (p.mode == Edit && !exists_) || currentVersion != p.expectedVersion {
        return StaleAtCommit(currentVersion);
      }
      if p.mode == Edit {
        var seen := RideSeen(if p.routeId in occupancy then occupancy[p.routeId] else VACANT);
        if seen { return ActiveRideAtCommit; }
      }
      routes := routes[p.routeId := route];
      operations := operations[
        saveId := operations[saveId].(status := Succeeded, result := Some(route), leaseUntil := Some(0))];
      return Committed;
    }

    method RecordFailure(saveId: Id, p: Payload, owner: Id, failure: Failure)
      modifies this`operations
      ensures View() == FailTransaction(old(View()), saveId, p, owner, failure)
    {
      if saveId !in operations || operations[saveId].status != Processing
        || operations[saveId].leaseOwner != owner || operations[saveId].payload != p {
        return;
      }
      operations := operations[
        saveId := operations[saveId].(status := Failed, failure := Some(failure), leaseUntil := Some(0))];
    }
  }
}
