/** Concurrent, crashing requesters over the route-save transactions. */
module RouteSaveProtocol {
  import opened Wrappers
  import opened RouteSaveContract
  import opened RouteStore

  /** Where a requester is. It holds what its claim read, then also the geometry
      it will write, or the failure it will record. */
  datatype Phase =
    | Ready
    | Holding(existing: Option<Route>)
    | Computed(existing: Option<Route>, geometry: Geometry)
    | Failing(failure: Failure)
    | Done

  /** Every requester draws a fresh lease owner; its position in the list stands for it. */
  datatype Requester = Requester(saveId: Id, payload: Payload, phase: Phase)

  /** A committed write: the document it replaced, the one it wrote, and who was riding. */
  datatype Write = Write(saveId: Id, payload: Payload, before: Option<Route>, after: Route, occupancy: Occupancy)

  datatype World = World(db: Db, requesters: seq<Requester>, writes: seq<Write>)

  /** Steps of the system. `replyLost` means the transaction took effect but its
      requester saw an error; a crash at any point is `Crash`. */
  datatype Event =
    | Arrive(saveId: Id, payload: Payload)
    | ClaimEvent(who: nat, now: int, replyLost: bool)
    | ComputeEvent(who: nat, outcome: Result<Geometry, Failure>)
    | CommitEvent(who: nat, replyLost: bool)
    | CommitAborted(who: nat)
    | RecordEvent(who: nat)
    | Crash(who: nat)
    | RideEvent(routeId: Id, occupancy: Occupancy)
    | DeleteRoute(routeId: Id)

  const UNCONFIRMED := Failure("ROUTE_PERSISTENCE_FAILED", true, 503)

  /** What request validation guarantees of a payload's version. */
  predicate ValidRequest(p: Payload)
  {
    IsVersion(p.expectedVersion) && (p.mode == Create ==> p.expectedVersion == 0)
  }

  function SetPhase(w: World, who: nat, phase: Phase): World
    requires who < |w.requesters|
  {
    w.(requesters := w.requesters[who := w.requesters[who].(phase := phase)])
  }

  function FailureOf(r: CommitResult): Failure
  {
    match r
    case LeaseLost => Failure("ROUTE_SAVE_LEASE_LOST", true, 409)
    case StaleAtCommit(_) => Failure("STALE_ROUTE_VERSION", false, 409)
    case ActiveRideAtCommit => Failure("ACTIVE_RIDE_ROUTE_EDIT", false, 409)
    case Committed => UNCONFIRMED
  }

  function AfterClaim(w: World, who: nat, now: int, replyLost: bool): World
    requires who < |w.requesters|
  {
    var r := w.requesters[who];
    var (db, result) := ClaimTransaction(w.db, r.saveId, r.payload, who, now);
    SetPhase(w.(db := db), who, if result.Claimed? && !replyLost then Holding(result.existing) else Done)
  }

  function AfterCompute(w: World, who: nat, existing: Option<Route>, outcome: Result<Geometry, Failure>): World
    requires who < |w.requesters|
  {
    var p := w.requesters[who].payload;
    if Reuses(existing, p) then SetPhase(w, who, Computed(existing, existing.value.geometry))
    else
      match outcome
      case Ok(geometry) => SetPhase(w, who, Computed(existing, geometry))
      case Err(failure) => SetPhase(w, who, Failing(failure))
  }

  function AfterCommit(w: World, who: nat, replyLost: bool): World
    requires who < |w.requesters| && w.requesters[who].phase.Computed?
  {
    var r := w.requesters[who];
    var route := RouteToWrite(r.payload, r.phase.existing, r.phase.geometry);
    var (db, result) := CommitTransaction(w.db, r.saveId, r.payload, who, route);
    if result == Committed then
      var write := Write(r.saveId, r.payload, Lookup(w.db.routes, r.payload.routeId),
                         route, OccupancyOf(w.db, r.payload.routeId));
      SetPhase(w.(db := db, writes := w.writes + [write]), who, if replyLost then Failing(UNCONFIRMED) else Done)
    else SetPhase(w, who, Failing(FailureOf(result)))
  }

  function Step(w: World, e: Event): World
  {
    match e
    case Arrive(saveId, payload) =>
      if ValidRequest(payload) then w.(requesters := w.requesters + [Requester(saveId, payload, Ready)]) else w
    case ClaimEvent(who, now, replyLost) =>
      if who < |w.requesters| && w.requesters[who].phase.Ready? then AfterClaim(w, who, now, replyLost) else w
    case ComputeEvent(who, outcome) =>
      if who < |w.requesters| && w.requesters[who].phase.Holding?
      then AfterCompute(w, who, w.requesters[who].phase.existing, outcome) else w
    case CommitEvent(who, replyLost) =>
      if who < |w.requesters| && w.requesters[who].phase.Computed?
      then AfterCommit(w, who, replyLost) else w
    case CommitAborted(who) =>
      if who < |w.requesters| && w.requesters[who].phase.Computed? then SetPhase(w, who, Failing(UNCONFIRMED)) else w
    case RecordEvent(who) =>
      if who < |w.requesters| && w.requesters[who].phase.Failing? then
        var r := w.requesters[who];
        SetPhase(w.(db := FailTransaction(w.db, r.saveId, r.payload, who, r.phase.failure)), who, Done)
      else w
    case Crash(who) => if who < |w.requesters| then SetPhase(w, who, Done) else w
    case RideEvent(routeId, occupancy) => w.(db := w.db.(occupancy := w.db.occupancy[routeId := occupancy]))
    case DeleteRoute(routeId) => w.(db := w.db.(routes := w.db.routes - {routeId}))
  }

  function Run(w: World, events: seq<Event>): World
    decreases |events|
  {
    if events == [] then w else Run(Step(w, events[0]), events[1..])
  }

  function Start(routes: map<Id, Route>): World
  {
    World(Db(map[], routes, map[]), [], [])
  }

  // --------------------------------------------------- one outcome per save ID

  ghost predicate Written(writes: seq<Write>, saveId: Id)
  {
    exists i :: 0 <= i < |writes| && writes[i].saveId == saveId
  }

  /** A record is `succeeded` exactly when its write was applied. */
  ghost predicate RecordsExact(w: World)
  {
    forall s :: s in w.db.operations ==> (w.db.operations[s].status == Succeeded <==> Written(w.writes, s))
  }

  /** Every applied write has its record's payload, and no save ID is applied twice. */
  ghost predicate WritesBound(w: World)
  {
    && (forall i :: 0 <= i < |w.writes| ==> BoundTo(w.db, w.writes[i].saveId, w.writes[i].payload))
    && forall i, j :: 0 <= i < j < |w.writes| ==> w.writes[i].saveId != w.writes[j].saveId
  }

  predicate BoundTo(db: Db, saveId: Id, p: Payload)
  {
    saveId in db.operations && db.operations[saveId].payload == p
  }

  /** A write replaced the version its request named and wrote that version plus one,
      with the request's name, colour and stops; an edit saw no ride. */
  predicate Versioned(x: Write)
  {
    && (x.payload.mode == Create <==> x.before.None?)
    && ConfigVersion(x.before) == x.payload.expectedVersion
    && x.after.configVersion == Some(x.payload.expectedVersion + 1)
    && (x.payload.mode == Edit ==> !RideSeen(x.occupancy))
    && x.after.name == x.payload.name && x.after.color == x.payload.color
    && |x.after.waypoints| == |x.payload.stops| && x.after.signature == x.after.waypoints
    && forall i :: 0 <= i < |x.payload.stops| ==> x.after.waypoints[i] == x.payload.stops[i].at
  }

  ghost predicate WritesVersioned(w: World)
  {
    forall i :: 0 <= i < |w.writes| ==> Versioned(w.writes[i])
  }

  ghost predicate Inv(w: World)
  {
    RecordsExact(w) && WritesBound(w) && WritesVersioned(w)
  }

  /** A settled record: succeeded, or failed for a definite reason. */
  predicate Settled(o: Operation)
  {
    o.status == Succeeded || (o.status == Failed && !UnknownOutcome(o))
  }

  /** What no step undoes: applied writes, a save ID's payload, a settled record. */
  ghost predicate Persists(w: World, w': World)
  {
    && w.writes <= w'.writes
    && forall s :: s in w.db.operations ==> Kept(w.db, w'.db, s)
  }

  predicate Kept(db: Db, db': Db, s: Id)
    requires s in db.operations
  {
    s in db'.operations && db'.operations[s].payload == db.operations[s].payload
    && (Settled(db.operations[s]) ==> db'.operations[s] == db.operations[s])
  }

  lemma SameRecordsKeepInv(w: World, w': World)
    requires Inv(w) && w'.writes == w.writes && w'.db.operations == w.db.operations
    ensures Inv(w') && Persists(w, w')
  {
  }

  lemma ClaimKeepsInv(w: World, who: nat, now: int, replyLost: bool)
    requires Inv(w) && who < |w.requesters|
    ensures Inv(AfterClaim(w, who, now, replyLost)) && Persists(w, AfterClaim(w, who, now, replyLost))
  {
  }

  lemma RecordKeepsInv(w: World, who: nat)
    requires Inv(w) && who < |w.requesters| && w.requesters[who].phase.Failing?
    ensures Inv(Step(w, RecordEvent(who))) && Persists(w, Step(w, RecordEvent(who)))
  {
  }

  lemma WrittenGrows(writes: seq<Write>, x: Write, t: Id)
    ensures Written(writes + [x], t) <==> Written(writes, t) || t == x.saveId
  {
    var grown := writes + [x];
    assert grown[|writes|] == x;
    if Written(writes, t) {
      var i :| 0 <= i < |writes| && writes[i].saveId == t;
      assert grown[i].saveId == t;
    }
  }

  lemma WriteKeepsRecords(w: World, w': World, x: Write)
    requires Inv(w) && x.saveId in w.db.operations && !Settled(w.db.operations[x.saveId])
    requires w.db.operations[x.saveId].payload == x.payload && w'.writes == w.writes + [x]
    requires x.saveId in w'.db.operations && w'.db.operations == w.db.operations[x.saveId := w'.db.operations[x.saveId]]
    requires w'.db.operations[x.saveId].status == Succeeded && w'.db.operations[x.saveId].payload == x.payload
    ensures RecordsExact(w') && WritesBound(w') && Persists(w, w')
  {
    forall t ensures Written(w'.writes, t) <==> Written(w.writes, t) || t == x.saveId {
      WrittenGrows(w.writes, x, t);
    }
    assert !Written(w.writes, x.saveId);
    forall i | 0 <= i < |w'.writes| ensures BoundTo(w'.db, w'.writes[i].saveId, w'.writes[i].payload) {
      if i < |w.writes| { assert BoundTo(w.db, w.writes[i].saveId, w.writes[i].payload); }
    }
  }

  lemma CommitIsVersioned(db: Db, saveId: Id, p: Payload, who: nat, existing: Option<Route>, geometry: Geometry)
    requires CommitTransaction(db, saveId, p, who, RouteToWrite(p, existing, geometry)).1 == Committed
    ensures Versioned(Write(saveId, p, Lookup(db.routes, p.routeId),
                            RouteToWrite(p, existing, geometry), OccupancyOf(db, p.routeId)))
  {
  }

  lemma CommitKeepsInv(w: World, who: nat, replyLost: bool)
    requires Inv(w) && who < |w.requesters| && w.requesters[who].phase.Computed?
    ensures Inv(AfterCommit(w, who, replyLost)) && Persists(w, AfterCommit(w, who, replyLost))
  {
    var r, w' := w.requesters[who], AfterCommit(w, who, replyLost);
    var route := RouteToWrite(r.payload, r.phase.existing, r.phase.geometry);
    if CommitTransaction(w.db, r.saveId, r.payload, who, route).1 == Committed {
      var x := w'.writes[|w.writes|];
      CommitIsVersioned(w.db, r.saveId, r.payload, who, r.phase.existing, r.phase.geometry);
      WriteKeepsRecords(w, w', x);
    } else {
      SameRecordsKeepInv(w, w');
    }
  }

  lemma StepKeepsInv(w: World, e: Event)
    requires Inv(w)
    ensures Inv(Step(w, e)) && Persists(w, Step(w, e))
  {
    if e.ClaimEvent? && Step(w, e) != w { ClaimKeepsInv(w, e.who, e.now, e.replyLost); }
    else if e.CommitEvent? && Step(w, e) != w { CommitKeepsInv(w, e.who, e.replyLost); }
    else if e.RecordEvent? && Step(w, e) != w { RecordKeepsInv(w, e.who); }
    else { SameRecordsKeepInv(w, Step(w, e)); }
  }

  lemma PersistsChains(a: World, b: World, c: World)
    requires Persists(a, b) && Persists(b, c)
    ensures Persists(a, c)
  {
  }

  /** In every interleaving a save ID stays bound to one payload, its write is
      applied at most once, its record is `succeeded` exactly when that write was
      applied, and a settled record never changes. */
  lemma {:induction false} RunKeepsInv(w: World, events: seq<Event>)
    requires Inv(w)
    ensures Inv(Run(w, events)) && Persists(w, Run(w, events))
    decreases |events|
  {
    if events != [] {
      StepKeepsInv(w, events[0]);
      RunKeepsInv(Step(w, events[0]), events[1..]);
      PersistsChains(w, Step(w, events[0]), Run(w, events));
    }
  }

  lemma StartHasInv(routes: map<Id, Route>)
    ensures Inv(Start(routes))
  {
  }

  /** A recorded definitive failure never turns into a commit. */
  lemma DefinitiveFailureIsFinal(w: World, events: seq<Event>, s: Id)
    requires Inv(w) && s in w.db.operations && w.db.operations[s].status == Failed &&
      !UnknownOutcome(w.db.operations[s])
    ensures var w' := Run(w, events);
      s in w'.db.operations && w'.db.operations[s] == w.db.operations[s] && !Written(w'.writes, s)
  {
    RunKeepsInv(w, events);
    assert Kept(w.db, Run(w, events).db, s);
  }

  /** From any stored routes: each committed write replaced exactly the version its
      request named and wrote that version plus one, and no edit committed while
      the scan could see a ride. */
  lemma EveryWriteIsVersioned(routes: map<Id, Route>, events: seq<Event>, i: nat)
    requires i < |Run(Start(routes), events).writes|
    ensures Versioned(Run(Start(routes), events).writes[i])
    ensures var x := Run(Start(routes), events).writes[i];
      x.payload.mode == Edit && |x.occupancy.sessionLocks| <= ROUTE_LOCK_SCAN_LIMIT ==> !RideOwns(x.occupancy)
  {
    StartHasInv(routes);
    RunKeepsInv(Start(routes), events);
    RideMissedExactly(Run(Start(routes), events).writes[i].occupancy);
  }

  // ------------------------------------------------------------- concrete runs

  lemma {:induction false} RunChains(w: World, first: seq<Event>, second: seq<Event>)
    ensures Run(w, first + second) == Run(Run(w, first), second)
    decreases |first|
  {
    if first == [] {
      assert first + second == second;
    } else {
      assert (first + second)[1..] == first[1..] + second;
      RunChains(Step(w, first[0]), first[1..], second);
    }
  }

  lemma RunOfOne(w: World, e: Event)
    ensures Run(w, [e]) == Step(w, e)
  {
  }

  /** A request that arrives, claims at time 0 and computes `g`. */
  function Preparation(who: nat, saveId: Id, p: Payload, g: Geometry): seq<Event>
  {
    [Arrive(saveId, p), ClaimEvent(who, 0, false), ComputeEvent(who, Ok(g))]
  }

  /** ... as a new operation on a route in the version it names, with no ride. */
  predicate CanPrepare(w: World, saveId: Id, p: Payload)
  {
    && ValidRequest(p) && saveId !in w.db.operations && OccupancyOf(w.db, p.routeId) == VACANT
    && (p.mode == Create <==> p.routeId !in w.db.routes)
    && ConfigVersion(Lookup(w.db.routes, p.routeId)) == p.expectedVersion
  }

  function Prepared(w: World, saveId: Id, p: Payload, g: Geometry): World
  {
    var existing := Lookup(w.db.routes, p.routeId);
    var geometry := if Reuses(existing, p) then existing.value.geometry else g;
    var record := Operation(p, Processing, |w.requesters|, Some(ROUTE_SAVE_LEASE_MS), None, None);
    World(w.db.(operations := w.db.operations[saveId := record]),
          w.requesters + [Requester(saveId, p, Computed(existing, geometry))], w.writes)
  }

  lemma PreparationRuns(w: World, saveId: Id, p: Payload, g: Geometry)
    requires CanPrepare(w, saveId, p)
    ensures Run(w, Preparation(|w.requesters|, saveId, p, g)) == Prepared(w, saveId, p, g)
  {
    var who := |w.requesters|;
    var events := Preparation(who, saveId, p, g);
    var arrived := Step(w, events[0]);
    var claimed := Step(arrived, events[1]);
    assert events == [events[0]] + ([events[1]] + [events[2]]);
    RunChains(w, [events[0]], [events[1]] + [events[2]]);
    RunOfOne(w, events[0]);
    RunChains(arrived, [events[1]], [events[2]]);
    RunOfOne(arrived, events[1]);
    RunOfOne(claimed, events[2]);
    assert claimed.requesters == w.requesters + [Requester(saveId, p, Holding(Lookup(w.db.routes, p.routeId)))];
  }

  /** A prepared save that then commits: what it wrote, and what it left alone. */
  lemma PreparedCommits(w: World, saveId: Id, p: Payload, g: Geometry)
    requires CanPrepare(w, saveId, p)
    ensures var who, existing := |w.requesters|, Lookup(w.db.routes, p.routeId);
      var route := RouteToWrite(p, existing, if Reuses(existing, p) then existing.value.geometry else g);
      var w' := Step(Prepared(w, saveId, p, g), CommitEvent(who, false));
      && w'.db.routes == w.db.routes[p.routeId := route] && w'.db.occupancy == w.db.occupancy
      && saveId in w'.db.operations && w'.db.operations == w.db.operations[saveId := w'.db.operations[saveId]]
      && w'.writes == w.writes + [Write(saveId, p, existing, route, VACANT)]
      && |w'.requesters| == who + 1 && w'.requesters[..who] == w.requesters
  {
  }

  lemma SaveRuns(w: World, saveId: Id, p: Payload, g: Geometry)
    requires CanPrepare(w, saveId, p)
    ensures var who, existing := |w.requesters|, Lookup(w.db.routes, p.routeId);
      var route := RouteToWrite(p, existing, if Reuses(existing, p) then existing.value.geometry else g);
      var w' := Run(w, Preparation(who, saveId, p, g) + [CommitEvent(who, false)]);
      && w' == Step(Prepared(w, saveId, p, g), CommitEvent(who, false))
      && w'.db.routes == w.db.routes[p.routeId := route] && w'.db.occupancy == w.db.occupancy
      && saveId in w'.db.operations && w'.db.operations == w.db.operations[saveId := w'.db.operations[saveId]]
      && w'.writes == w.writes + [Write(saveId, p, existing, route, VACANT)]
      && |w'.requesters| == who + 1 && w'.requesters[..who] == w.requesters
  {
    var commit := CommitEvent(|w.requesters|, false);
    PreparationRuns(w, saveId, p, g);
    PreparedCommits(w, saveId, p, g);
    RunChains(w, Preparation(|w.requesters|, saveId, p, g), [commit]);
    RunOfOne(Prepared(w, saveId, p, g), commit);
  }

  /** With fifty reservations ahead of its lock a ride owns the route, and the edit
      prepared before it started still commits. */
  lemma EditCommitsUnderHiddenRide(saveId: Id, p: Payload, stored: Route, g: Geometry)
    requires ValidRequest(p) && p.mode == Edit && ConfigVersion(Some(stored)) == p.expectedVersion
    ensures var events := Preparation(0, saveId, p, g) +
        [RideEvent(p.routeId, FIFTY_RESERVATIONS_THEN_A_RIDE), CommitEvent(0, false)];
      var w := Run(Start(map[p.routeId := stored]), events);
      |w.writes| == 1 && w.writes[0].payload == p && RideOwns(w.writes[0].occupancy)
      && w.db.routes == map[p.routeId := w.writes[0].after]
  {
    var start := Start(map[p.routeId := stored]);
    var ride, commit := RideEvent(p.routeId, FIFTY_RESERVATIONS_THEN_A_RIDE), CommitEvent(0, false);
    PreparationRuns(start, saveId, p, g);
    RunChains(start, Preparation(0, saveId, p, g), [ride] + [commit]);
    RunChains(Prepared(start, saveId, p, g), [ride], [commit]);
    RunOfOne(Prepared(start, saveId, p, g), ride);
    RunOfOne(Step(Prepared(start, saveId, p, g), ride), commit);
    FiftyReservationsHideARide();
    assert [ride] + [commit] == [ride, commit];
  }
}
