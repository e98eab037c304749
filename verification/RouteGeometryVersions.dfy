/** Geometry versions along runs of the route-save protocol without deletions. */
module RouteGeometryVersions {
  import opened Wrappers
  import opened Words
  import opened Geo
  import opened Polyline
  import opened RouteSaveContract
  import opened RouteStore
  import opened RouteSaveProtocol

  /** No deletion, and a commit whose new versions are safe integers; a kept geometry
      keeps its version. Both old versions are known before the commit. */
  predicate Guarded(w: World, e: Event)
  {
    !e.DeleteRoute? &&
    (e.CommitEvent? && e.who < |w.requesters| && w.requesters[e.who].phase.Computed? ==>
      var r := w.requesters[e.who];
      r.payload.expectedVersion < MAX_SAFE_INTEGER &&
      (Reuses(r.phase.existing, r.payload) || GeometryVersion(r.phase.existing) < MAX_SAFE_INTEGER))
  }

  predicate RunGuarded(w: World, events: seq<Event>)
    decreases |events|
  {
    events == [] || (Guarded(w, events[0]) && RunGuarded(Step(w, events[0]), events[1..]))
  }

  /** `later` may follow `earlier`: its geometry version is no smaller, and an
      equal one means the same coordinates and polylines. */
  predicate Follows(earlier: Route, later: Route)
  {
    GeometryVersion(Some(earlier)) <= GeometryVersion(Some(later)) &&
    (GeometryVersion(Some(earlier)) == GeometryVersion(Some(later)) ==>
      earlier.waypoints == later.waypoints && earlier.geometry == later.geometry)
  }

  /** What a claim read is either still current or superseded by a later version. */
  predicate SnapshotHolds(db: Db, p: Payload, existing: Option<Route>)
  {
    var current := Lookup(db.routes, p.routeId);
    && ConfigVersion(existing) == p.expectedVersion
    && ConfigVersion(existing) <= ConfigVersion(current)
    && (ConfigVersion(existing) == ConfigVersion(current) ==> existing == current)
  }

  predicate HoldsSnapshot(r: Requester)
  {
    r.phase.Holding? || r.phase.Computed?
  }

  ghost predicate SnapshotsHold(w: World)
  {
    forall c :: 0 <= c < |w.requesters| && HoldsSnapshot(w.requesters[c]) ==>
      SnapshotHolds(w.db, w.requesters[c].payload, w.requesters[c].phase.existing)
  }

  /** The stored route of a written ID follows that write, and its signature is its own. */
  predicate CurrentFollows(db: Db, x: Write)
  {
    x.payload.routeId in db.routes && Follows(x.after, db.routes[x.payload.routeId]) &&
    db.routes[x.payload.routeId].signature == db.routes[x.payload.routeId].waypoints
  }

  ghost predicate WritesFollow(w: World)
  {
    && (forall i :: 0 <= i < |w.writes| ==> CurrentFollows(w.db, w.writes[i]))
    && forall i, j :: 0 <= i < j < |w.writes| && w.writes[i].payload.routeId == w.writes[j].payload.routeId ==>
      Follows(w.writes[i].after, w.writes[j].after)
  }

  ghost predicate GeometryInv(w: World)
  {
    SnapshotsHold(w) && WritesFollow(w)
  }

  /** The document written on top of the one it read follows it exactly when it keeps
      the geometry, whose coordinates the signature vouches for, or the geometry
      version has a successor. */
  lemma WrittenRouteFollows(p: Payload, existing: Route, geometry: Geometry)
    requires existing.signature == existing.waypoints
    ensures Follows(existing, RouteToWrite(p, Some(existing), geometry)) <==>
            Reuses(Some(existing), p) || GeometryVersion(Some(existing)) < MAX_SAFE_INTEGER
  {
  }

  /** Steps that touch neither routes nor writes keep the invariant, if the
      snapshots they leave are old ones or current. */
  lemma QuietKeepsGeometry(w: World, w': World)
    requires GeometryInv(w) && w'.writes == w.writes && w'.db.routes == w.db.routes && |w.requesters| <= |w'.requesters|
    requires forall c {:trigger w'.requesters[c]} :: 0 <= c < |w'.requesters| && HoldsSnapshot(w'.requesters[c]) ==>
      SnapshotHolds(w.db, w'.requesters[c].payload, w'.requesters[c].phase.existing)
    ensures GeometryInv(w')
  {
  }

  /** A committed route has exactly the next version, so older snapshots are superseded. */
  lemma CommitSupersedes(w: World, w': World, x: Write)
    requires GeometryInv(w) && Versioned(x) && x.payload.expectedVersion < MAX_SAFE_INTEGER && ValidRequest(x.payload)
    requires x.before == Lookup(w.db.routes, x.payload.routeId)
    requires w'.db.routes == w.db.routes[x.payload.routeId := x.after]
    requires |w'.requesters| == |w.requesters|
    requires forall c {:trigger w'.requesters[c]} :: 0 <= c < |w'.requesters| && HoldsSnapshot(w'.requesters[c]) ==>
      w'.requesters[c] == w.requesters[c]
    ensures SnapshotsHold(w')
  {
  }

  lemma CommitFollows(w: World, w': World, x: Write)
    requires GeometryInv(w) && w'.writes == w.writes + [x]
    requires w'.db.routes == w.db.routes[x.payload.routeId := x.after] && x.after.signature == x.after.waypoints
    requires x.payload.routeId in w.db.routes &&
      w.db.routes[x.payload.routeId].signature == w.db.routes[x.payload.routeId].waypoints
      ==> Follows(w.db.routes[x.payload.routeId], x.after)
    ensures WritesFollow(w')
  {
  }

  lemma CommitKeepsGeometry(w: World, who: nat, replyLost: bool)
    requires Inv(w) && GeometryInv(w) && Guarded(w, CommitEvent(who, replyLost)) && RequestsValid(w)
    requires who < |w.requesters| && w.requesters[who].phase.Computed?
    ensures GeometryInv(AfterCommit(w, who, replyLost))
  {
    var r, w' := w.requesters[who], AfterCommit(w, who, replyLost);
    var route := RouteToWrite(r.payload, r.phase.existing, r.phase.geometry);
    assert HoldsSnapshot(w.requesters[who]);
    if CommitTransaction(w.db, r.saveId, r.payload, who, route).1 == Committed {
      var x := w'.writes[|w.writes|];
      CommitIsVersioned(w.db, r.saveId, r.payload, who, r.phase.existing, r.phase.geometry);
      assert r.phase.existing == x.before;
      if x.before.Some? && x.before.value.signature == x.before.value.waypoints {
        WrittenRouteFollows(r.payload, x.before.value, r.phase.geometry);
      }
      CommitSupersedes(w, w', x);
      CommitFollows(w, w', x);
    } else {
      QuietKeepsGeometry(w, w');
    }
  }

  ghost predicate RequestsValid(w: World)
  {
    forall c :: 0 <= c < |w.requesters| ==> ValidRequest(w.requesters[c].payload)
  }

  lemma StepKeepsGeometry(w: World, e: Event)
    requires Inv(w) && GeometryInv(w) && RequestsValid(w) && Guarded(w, e)
    ensures GeometryInv(Step(w, e)) && RequestsValid(Step(w, e))
  {
    if e.CommitEvent? && Step(w, e) != w {
      CommitKeepsGeometry(w, e.who, e.replyLost);
    } else if e.ClaimEvent? && Step(w, e) != w {
      ClaimKeepsGeometry(w, e.who, e.now, e.replyLost);
    } else {
      OtherStepKeepsGeometry(w, e);
    }
  }

  lemma OtherStepKeepsGeometry(w: World, e: Event)
    requires GeometryInv(w) && RequestsValid(w) && !e.DeleteRoute?
    requires (e.CommitEvent? || e.ClaimEvent?) ==> Step(w, e) == w
    ensures GeometryInv(Step(w, e)) && RequestsValid(Step(w, e))
  {
    QuietKeepsGeometry(w, Step(w, e));
  }

  lemma ClaimKeepsGeometry(w: World, who: nat, now: int, replyLost: bool)
    requires GeometryInv(w) && who < |w.requesters|
    ensures GeometryInv(AfterClaim(w, who, now, replyLost))
  {
  }

  lemma {:induction false} RunKeepsGeometry(w: World, events: seq<Event>)
    requires Inv(w) && GeometryInv(w) && RequestsValid(w) && RunGuarded(w, events)
    ensures GeometryInv(Run(w, events))
    decreases |events|
  {
    if events != [] {
      StepKeepsInv(w, events[0]);
      StepKeepsGeometry(w, events[0]);
      RunKeepsGeometry(Step(w, events[0]), events[1..]);
    }
  }

  /** Of two committed states of one route the later never has a smaller geometry
      version, and equal versions mean the same ordered coordinates and the same
      forward and reverse polylines. */
  lemma EqualVersionsShareGeometry(routes: map<Id, Route>, events: seq<Event>, i: nat, j: nat)
    requires RunGuarded(Start(routes), events)
    requires i < j < |Run(Start(routes), events).writes|
    requires var writes := Run(Start(routes), events).writes; writes[i].payload.routeId == writes[j].payload.routeId
    ensures var writes := Run(Start(routes), events).writes; Follows(writes[i].after, writes[j].after)
  {
    StartHasInv(routes);
    RunKeepsGeometry(Start(routes), events);
  }

  /** At the largest safe integer a recomputed geometry reads back as version 0,
      below the version it replaces; elsewhere it never decreases. */
  lemma GeometryVersionDropsOnlyAtTheTop(p: Payload, existing: Route, computed: Geometry)
    ensures GeometryVersion(Some(RouteToWrite(p, Some(existing), computed))) < GeometryVersion(Some(existing)) <==>
      !Reuses(Some(existing), p) && GeometryVersion(Some(existing)) == MAX_SAFE_INTEGER
  {
  }

  // ------------------------------------------------- which geometry is written

  /** A direction's geometry that may be stored: an encoded path of at least two points
      and no more than 500 000 characters, a distance and a duration. */
  predicate Storable(leg: Leg)
  {
    && 1 <= |leg.polyline| <= 500_000 && leg.distanceMeters >= 0.0 && leg.duration.Some?
    && match Decode(leg.polyline) case Ok(points) => |points| >= 2 case Err(_) => false
  }

  /** A stored geometry is kept exactly when it was computed for the very stops of the
      request, in their order and in full quality, and both its directions are intact. */
  lemma ReuseMeans(existing: Option<Route>, p: Payload)
    ensures Reuses(existing, p) <==>
      && existing.Some? && existing.value.polylineQuality == "HIGH_QUALITY"
      && |existing.value.signature| == |p.stops|
      && (forall i :: 0 <= i < |p.stops| ==> existing.value.signature[i] == p.stops[i].at)
      && Storable(existing.value.geometry.forward) && Storable(existing.value.geometry.reverse)
  {
  }

  /** A requester whose claim read a geometry it may keep holds that one. */
  ghost predicate GeometryKept(w: World)
  {
    forall c :: 0 <= c < |w.requesters| && w.requesters[c].phase.Computed? ==>
      (Reuses(w.requesters[c].phase.existing, w.requesters[c].payload) ==>
         w.requesters[c].phase.geometry == w.requesters[c].phase.existing.value.geometry)
  }

  lemma {:induction false} RunKeepsKept(w: World, events: seq<Event>)
    requires GeometryKept(w)
    ensures GeometryKept(Run(w, events))
    decreases |events|
  {
    if events != [] {
      StepKeepsKept(w, events[0]);
      RunKeepsKept(Step(w, events[0]), events[1..]);
    }
  }

  lemma StepKeepsKept(w: World, e: Event)
    requires GeometryKept(w)
    ensures GeometryKept(Step(w, e))
  {
  }

  /** In every run a commit writes the geometry its requester holds, the stored one if it
      may be kept and else the computed one, and counts the geometry version up exactly
      if it is not kept. */
  lemma CommitWritesWhatWasComputed(routes: map<Id, Route>, events: seq<Event>, who: nat, lost: bool)
    requires var w := Run(Start(routes), events);
      && who < |w.requesters| && w.requesters[who].phase.Computed?
      && |Step(w, CommitEvent(who, lost)).writes| == |w.writes| + 1
    ensures var w := Run(Start(routes), events);
      var r, x := w.requesters[who], Step(w, CommitEvent(who, lost)).writes[|w.writes|];
      var kept := Reuses(r.phase.existing, r.payload);
      && x.payload == r.payload && x.after.geometry == r.phase.geometry
      && (kept ==> x.after.geometry == r.phase.existing.value.geometry)
      && x.after.geometryVersion == Some(GeometryVersion(r.phase.existing) + if kept then 0 else 1)
  {
    RunKeepsKept(Start(routes), events);
  }

  /** A requester that may not keep the stored geometry holds what was computed for it. */
  lemma ComputedIsHeld(w: World, who: nat, outcome: Result<RouteSaveContract.Geometry, Failure>)
    requires who < |w.requesters| && w.requesters[who].phase.Holding?
    requires !Reuses(w.requesters[who].phase.existing, w.requesters[who].payload)
    ensures var r := Step(w, ComputeEvent(who, outcome)).requesters[who];
      match outcome
      case Ok(geometry) => r.phase == Computed(w.requesters[who].phase.existing, geometry)
      case Err(failure) => r.phase == Failing(failure)
  {
  }

  // ---------------------------------------------------- why deletion is left out

  /** Two points, enough for a stored polyline. */
  const TWO_POINTS := [LatLng(0.0, 0.0), LatLng(0.0, 0.0)]
  const SHORT_LEG := Leg(Encode(TWO_POINTS), 0.0, Some(0.0))
  const SHORT := Geometry(SHORT_LEG, SHORT_LEG)

  lemma {:induction false} StillEncoding(units: seq<Units>)
    requires forall i :: 0 <= i < |units| ==> units[i] == ORIGIN
    ensures |EncodeFrom(units, ORIGIN)| == 2 * |units|
    decreases |units|
  {
    if units != [] { StillEncoding(units[1..]); }
  }

  lemma ShortLegIsValid()
    ensures ValidLeg(SHORT_LEG)
  {
    RoundTrip(TWO_POINTS);
    StillEncoding(AllToUnits(TWO_POINTS));
  }

  /** A route created, claimed by an edit that keeps its stops, deleted, created again
      with other stops, and then written by that edit. */
  function DeletionRun(created: Payload, edit: Payload, recreated: Payload): seq<Event>
  {
    ((Preparation(0, 0, created, SHORT) + [CommitEvent(0, false)]) + Preparation(1, 1, edit, SHORT))
    + ([DeleteRoute(created.routeId)] + (Preparation(2, 2, recreated, SHORT) + [CommitEvent(2, false)]))
    + [CommitEvent(1, false)]
  }

  predicate Renewal(created: Payload, edit: Payload, recreated: Payload)
  {
    && created.routeId == edit.routeId == recreated.routeId
    && created.mode == Create && recreated.mode == Create && edit.mode == Edit
    && created.expectedVersion == 0 && recreated.expectedVersion == 0 && edit.expectedVersion == 1
    && Waypoints(edit.stops) == Waypoints(created.stops) != Waypoints(recreated.stops)
  }

  /** After the creation and the edit's claim: the edit holds the first document. */
  lemma EditHoldsCreated(created: Payload, edit: Payload, recreated: Payload)
    returns (held: World)
    requires Renewal(created, edit, recreated)
    ensures held ==
      Run(Start(map[]), (Preparation(0, 0, created, SHORT) + [CommitEvent(0, false)]) + Preparation(1, 1, edit, SHORT))
    ensures EditWaits(held, edit)
    ensures held.requesters[1] == Requester(1, edit, Computed(Some(RouteToWrite(created, None, SHORT)), SHORT))
  {
    var start := Start(map[]);
    ShortLegIsValid();
    SaveRuns(start, 0, created, SHORT);
    var first := Step(Prepared(start, 0, created, SHORT), CommitEvent(0, false));
    PreparationRuns(first, 1, edit, SHORT);
    RunChains(start, Preparation(0, 0, created, SHORT) + [CommitEvent(0, false)], Preparation(1, 1, edit, SHORT));
    held := Prepared(first, 1, edit, SHORT);
  }

  /** The edit holds its lease, and one save was committed before. */
  ghost predicate EditWaits(w: World, edit: Payload)
  {
    && w.db.occupancy == map[] && |w.requesters| == 2 && |w.writes| == 1
    && w.db.operations.Keys == {0, 1} && HoldsLease(w.db, 1, edit, 1)
  }

  /** A second creation leaves the edit its lease. */
  lemma RouteIsRecreated(gone: World, created: Payload, edit: Payload, recreated: Payload) returns (renewed: World)
    requires Renewal(created, edit, recreated) && EditWaits(gone, edit) && created.routeId !in gone.db.routes
    ensures Run(gone, Preparation(2, 2, recreated, SHORT) + [CommitEvent(2, false)]) == renewed
    ensures HoldsLease(renewed.db, 1, edit, 1) && renewed.db.occupancy == map[] && |renewed.requesters| == 3
    ensures renewed.requesters[1] == gone.requesters[1]
    ensures Lookup(renewed.db.routes, created.routeId) == Some(RouteToWrite(recreated, None, SHORT))
    ensures |renewed.writes| == 2 &&
      renewed.writes[1] == Write(2, recreated, None, RouteToWrite(recreated, None, SHORT), VACANT)
  {
    SaveRuns(gone, 2, recreated, SHORT);
    renewed := Run(gone, Preparation(2, 2, recreated, SHORT) + [CommitEvent(2, false)]);
    assert renewed.requesters[1] == renewed.requesters[..2][1];
  }

  /** The edit then writes over the new document. */
  lemma EditOverwrites(renewed: World, created: Payload, edit: Payload, recreated: Payload)
    requires Renewal(created, edit, recreated) && |renewed.requesters| == 3 && |renewed.writes| == 2
    requires renewed.requesters[1] == Requester(1, edit, Computed(Some(RouteToWrite(created, None, SHORT)), SHORT))
    requires HoldsLease(renewed.db, 1, edit, 1) && renewed.db.occupancy == map[]
    requires Lookup(renewed.db.routes, created.routeId) == Some(RouteToWrite(recreated, None, SHORT))
    ensures var writes := Step(renewed, CommitEvent(1, false)).writes;
      && |writes| == 3 && writes[..2] == renewed.writes && writes[2].payload == edit
      && GeometryVersion(Some(writes[2].after)) == 1 && writes[2].after.waypoints == Waypoints(created.stops)
  {
    ShortLegIsValid();
  }

  /** Two committed states of one route ID then share a geometry version with
      different coordinates. */
  lemma DeletionReusesVersions(created: Payload, edit: Payload, recreated: Payload)
    requires Renewal(created, edit, recreated)
    ensures var writes := Run(Start(map[]), DeletionRun(created, edit, recreated)).writes;
      && |writes| == 3 && writes[1].payload == recreated && writes[2].payload == edit
      && GeometryVersion(Some(writes[1].after)) == GeometryVersion(Some(writes[2].after)) == 1
      && writes[1].after.waypoints != writes[2].after.waypoints && !Follows(writes[1].after, writes[2].after)
  {
    var before := (Preparation(0, 0, created, SHORT) + [CommitEvent(0, false)]) + Preparation(1, 1, edit, SHORT);
    var renewal := [DeleteRoute(created.routeId)] + (Preparation(2, 2, recreated, SHORT) + [CommitEvent(2, false)]);
    var held := EditHoldsCreated(created, edit, recreated);
    var gone := Step(held, DeleteRoute(created.routeId));
    var renewed := RouteIsRecreated(gone, created, edit, recreated);
    RunOfOne(held, DeleteRoute(created.routeId));
    RunChains(held, [DeleteRoute(created.routeId)], Preparation(2, 2, recreated, SHORT) + [CommitEvent(2, false)]);
    RunChains(Start(map[]), before, renewal);
    RunChains(Start(map[]), before + renewal, [CommitEvent(1, false)]);
    RunOfOne(renewed, CommitEvent(1, false));
    EditOverwrites(renewed, created, edit, recreated);
  }
}
