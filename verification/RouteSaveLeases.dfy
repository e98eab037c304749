/** Who may work on a save, and what every requester is told: stated on the records
    themselves, beside the rules the transactions follow. */
module RouteSaveLeases {
  import opened Wrappers
  import opened RouteSaveContract
  import opened RouteStore
  import opened RouteSaveProtocol

  // -------------------------------------------------------------- the records

  /** A requester's lease on the record still stands at time `now`. */
  predicate Leased(o: Operation, now: int)
  {
    o.status == Processing && o.leaseUntil.Some? && now < o.leaseUntil.value
  }

  /** Failed with a definite outcome. */
  predicate FailedForGood(o: Operation)
  {
    o.status == Failed && (o.failure.None? || !o.failure.value.outcomeUnknown)
  }

  /** Nobody works on the save and it has no outcome: it is new, or its record has
      neither a standing lease nor a settled result. */
  predicate Unclaimed(db: Db, saveId: Id, now: int)
  {
    saveId in db.operations ==>
      var o := db.operations[saveId];
      o.status != Succeeded && !FailedForGood(o) && !Leased(o, now)
  }

  /** The route is in the state the request names: absent at version 0 for a create;
      stored, in that version and without a visible ride, for an edit. */
  predicate RouteAsNamed(db: Db, p: Payload)
  {
    match p.mode
    case Create => p.routeId !in db.routes && p.expectedVersion == 0
    case Edit =>
      && p.routeId in db.routes && ReadVersion(db.routes[p.routeId].configVersion) == p.expectedVersion
      && !RideSeen(OccupancyOf(db, p.routeId))
  }

  /** A claim is granted exactly to a request whose save is unclaimed, under its own
      payload, and whose route is as it names it. It then owns the record for one lease
      and has read the stored route; any other claim changes nothing. */
  lemma ClaimIsGrantedExactly(db: Db, saveId: Id, p: Payload, owner: Id, now: int)
    ensures var (db', r) := ClaimTransaction(db, saveId, p, owner, now);
      && (r.Claimed? <==>
            Unclaimed(db, saveId, now) && (saveId in db.operations ==> db.operations[saveId].payload == p)
            && RouteAsNamed(db, p))
      && (!r.Claimed? ==> db' == db)
      && (r.Claimed? ==>
            && r == Claimed(if p.routeId in db.routes then Some(db.routes[p.routeId]) else None)
            && saveId in db'.operations && db'.routes == db.routes && db'.occupancy == db.occupancy
            && db'.operations == db.operations[saveId := db'.operations[saveId]]
            && Leased(db'.operations[saveId], now + 29_999) && !Leased(db'.operations[saveId], now + 30_000)
            && HoldsLease(db', saveId, p, owner))
  {
  }

  /** What a claim on a known save is answered: conflict exactly for another payload;
      then in progress exactly while a lease stands, the stored result exactly when it
      succeeded, the stored failure exactly when that is definite. */
  lemma KnownSaveIsAnswered(db: Db, saveId: Id, p: Payload, owner: Id, now: int)
    requires saveId in db.operations
    ensures var o, r := db.operations[saveId], ClaimTransaction(db, saveId, p, owner, now).1;
      && (r == Answered(Conflict) <==> o.payload != p)
      && (r == Answered(InProgress) <==> o.payload == p && Leased(o, now))
      && (r == Answered(Replay(o.result)) <==> o.payload == p && o.status == Succeeded)
      && (r == Answered(FailedBefore(o.failure)) <==> o.payload == p && FailedForGood(o))
      && (r.Answered? <==> o.payload != p || !Unclaimed(db, saveId, now))
  {
  }

  /** A commit takes effect exactly while the requester's own lease record stands and the
      route is still as it names it. Route and result are then the document it brought,
      and nothing else changes; otherwise nothing changes at all. */
  lemma CommitsExactly(db: Db, saveId: Id, p: Payload, owner: Id, route: Route)
    requires ValidRequest(p)
    ensures var (db', r) := CommitTransaction(db, saveId, p, owner, route);
      && (r == Committed <==> HoldsLease(db, saveId, p, owner) && RouteAsNamed(db, p))
      && (r != Committed ==> db' == db)
      && (r == Committed ==>
            && db'.routes == db.routes[p.routeId := route] && db'.occupancy == db.occupancy
            && saveId in db'.operations && db'.operations == db.operations[saveId := db'.operations[saveId]]
            && db'.operations[saveId].status == Succeeded && db'.operations[saveId].result == Some(route)
            && db'.operations[saveId].payload == p)
  {
  }

  // ------------------------------------------------------------------- leases

  /** The event is a claim at a time when a lease until `until` has run out. */
  predicate ClaimsAfter(e: Event, until: int)
  {
    e.ClaimEvent? && e.now >= until
  }

  /** The requester itself ends its work: it commits or records a failure. */
  predicate EndedBy(e: Event, owner: Id)
  {
    (e.CommitEvent? || e.RecordEvent?) && e.who == owner
  }

  ghost predicate NoneEnds(events: seq<Event>, owner: Id, until: int)
  {
    forall i :: 0 <= i < |events| ==> !ClaimsAfter(events[i], until) && !EndedBy(events[i], owner)
  }

  /** The save is in progress under `owner` until that time. */
  predicate LeasedBy(w: World, saveId: Id, owner: Id, until: int)
  {
    saveId in w.db.operations &&
    var o := w.db.operations[saveId];
    o.status == Processing && o.leaseOwner == owner && o.leaseUntil == Some(until)
  }

  /** A leased record changes by nothing but its owner's commit or failure, or a claim
      with its own payload once the lease has run out. */
  lemma LeasedRecordStays(w: World, e: Event, saveId: Id, owner: Id, until: int)
    requires LeasedBy(w, saveId, owner, until) && !ClaimsAfter(e, until) && !EndedBy(e, owner)
    ensures var w' := Step(w, e);
      saveId in w'.db.operations && w'.db.operations[saveId] == w.db.operations[saveId]
  {
  }

  /** Over every run whose claims come before the lease has run out, and whatever
      everyone else does, the record stays its owner's until the owner ends its work; and
      any other requester of that save is then told that it is in progress. */
  lemma {:induction false} LeaseIsExclusive(w: World, events: seq<Event>, saveId: Id, owner: Id, until: int)
    requires LeasedBy(w, saveId, owner, until) && NoneEnds(events, owner, until)
    ensures var w' := Run(w, events);
      && saveId in w'.db.operations && w'.db.operations[saveId] == w.db.operations[saveId]
      && forall p, other, now {:trigger ClaimTransaction(w'.db, saveId, p, other, now)} ::
           p == w.db.operations[saveId].payload && now < until ==>
             ClaimTransaction(w'.db, saveId, p, other, now) == (w'.db, Answered(InProgress))
    decreases |events|
  {
    if events != [] {
      LeasedRecordStays(w, events[0], saveId, owner, until);
      LeaseIsExclusive(Step(w, events[0]), events[1..], saveId, owner, until);
    }
  }

  /** While a lease stands, another requester's commit or failure reaches no document. */
  lemma OthersAreKeptOut(w: World, e: Event, saveId: Id, owner: Id, until: int)
    requires LeasedBy(w, saveId, owner, until) && (e.CommitEvent? || e.RecordEvent?) && e.who != owner
    requires e.who < |w.requesters| && w.requesters[e.who].saveId == saveId
    ensures Step(w, e).db == w.db && Step(w, e).writes == w.writes
  {
  }

  /** Once a lease has run out, a record still in progress never answers that it is: the
      request that started it is granted the save, if its route is still as it names it. */
  lemma RunOutLeaseIsRegained(db: Db, saveId: Id, owner: Id, now: int)
    requires saveId in db.operations && db.operations[saveId].status == Processing
    requires db.operations[saveId].leaseUntil.None? || db.operations[saveId].leaseUntil.value <= now
    ensures var p := db.operations[saveId].payload;
      var (db', r) := ClaimTransaction(db, saveId, p, owner, now);
      !r.Answered? && (RouteAsNamed(db, p) <==> r.Claimed?) &&
      (r.Claimed? ==> LeasedBy(World(db', [], []), saveId, owner, now + ROUTE_SAVE_LEASE_MS))
  {
    ClaimIsGrantedExactly(db, saveId, db.operations[saveId].payload, owner, now);
  }

  /** The retry of a request at a given time. */
  function Retry(who: nat, saveId: Id, p: Payload, now: int, g: Geometry): seq<Event>
  {
    [Arrive(saveId, p), ClaimEvent(who, now, false), ComputeEvent(who, Ok(g)), CommitEvent(who, false)]
  }

  /** A save whose requester crashed is not lost: from any state, a retry with its payload
      after the lease has run out, or after an unknown outcome was recorded, commits if
      the route is still as it names it. */
  lemma RetryCommits(w: World, saveId: Id, p: Payload, now: int, g: Geometry)
    requires ValidRequest(p) && RouteAsNamed(w.db, p) && Unclaimed(w.db, saveId, now)
    requires saveId in w.db.operations ==> w.db.operations[saveId].payload == p
    ensures var w' := Run(w, Retry(|w.requesters|, saveId, p, now, g));
      && |w'.writes| == |w.writes| + 1 && w'.writes[..|w.writes|] == w.writes
      && w'.writes[|w.writes|].saveId == saveId && w'.writes[|w.writes|].payload == p
      && saveId in w'.db.operations && w'.db.operations[saveId].status == Succeeded
  {
    var who := |w.requesters|;
    var events := Retry(who, saveId, p, now, g);
    RetryComputes(w, saveId, p, now, g);
    var w3 := Step(Step(Step(w, events[0]), events[1]), events[2]);
    var phase := w3.requesters[who].phase;
    CommitsExactly(w3.db, saveId, p, who, RouteToWrite(p, phase.existing, phase.geometry));
    RunOfFour(w, events);
  }

  lemma RetryComputes(w: World, saveId: Id, p: Payload, now: int, g: Geometry)
    requires ValidRequest(p) && RouteAsNamed(w.db, p) && Unclaimed(w.db, saveId, now)
    requires saveId in w.db.operations ==> w.db.operations[saveId].payload == p
    ensures var who := |w.requesters|; var events := Retry(who, saveId, p, now, g);
      var w3 := Step(Step(Step(w, events[0]), events[1]), events[2]);
      && |w3.requesters| == who + 1 && w3.requesters[who].saveId == saveId && w3.requesters[who].payload == p
      && w3.requesters[who].phase.Computed? && HoldsLease(w3.db, saveId, p, who) && RouteAsNamed(w3.db, p)
      && w3.writes == w.writes
  {
    ClaimIsGrantedExactly(w.db, saveId, p, |w.requesters|, now);
  }

  lemma RunOfFour(w: World, events: seq<Event>)
    requires |events| == 4
    ensures Run(w, events) == Step(Step(Step(Step(w, events[0]), events[1]), events[2]), events[3])
  {
    assert events == [events[0]] + ([events[1]] + ([events[2]] + [events[3]]));
    RunChains(w, [events[0]], [events[1]] + ([events[2]] + [events[3]]));
    RunOfOne(w, events[0]);
    var w1 := Step(w, events[0]);
    RunChains(w1, [events[1]], [events[2]] + [events[3]]);
    RunOfOne(w1, events[1]);
    var w2 := Step(w1, events[1]);
    RunChains(w2, [events[2]], [events[3]]);
    RunOfOne(w2, events[2]);
    RunOfOne(Step(w2, events[2]), events[3]);
  }

  // ------------------------------------------------------------------ outcomes

  /** A commit is answered for ever: after whatever follows, the same request is given
      the document that was written, any other payload a conflict. */
  lemma CommittedSaveIsReplayed(w: World, who: nat, lost: bool, events: seq<Event>, p: Payload, other: Id, now: int)
    requires Inv(w) && who < |w.requesters| && w.requesters[who].phase.Computed?
    requires |Step(w, CommitEvent(who, lost)).writes| == |w.writes| + 1
    ensures var r, written := w.requesters[who], Step(w, CommitEvent(who, lost)).writes[|w.writes|];
      var w' := Run(Step(w, CommitEvent(who, lost)), events);
      ClaimTransaction(w'.db, r.saveId, p, other, now) ==
        (w'.db, Answered(if p == r.payload then Replay(Some(written.after)) else Conflict))
  {
    var r, w1 := w.requesters[who], Step(w, CommitEvent(who, lost));
    StepKeepsInv(w, CommitEvent(who, lost));
    RunKeepsInv(w1, events);
    assert Kept(w1.db, Run(w1, events).db, r.saveId);
  }

  /** A definite failure recorded by the lease's owner is answered for ever, likewise. */
  lemma RecordedFailureIsAnswered(w: World, who: nat, events: seq<Event>, p: Payload, other: Id, now: int)
    requires Inv(w) && who < |w.requesters| && w.requesters[who].phase.Failing?
    requires !w.requesters[who].phase.failure.outcomeUnknown
    requires HoldsLease(w.db, w.requesters[who].saveId, w.requesters[who].payload, who)
    ensures var r := w.requesters[who];
      var w' := Run(Step(w, RecordEvent(who)), events);
      ClaimTransaction(w'.db, r.saveId, p, other, now) ==
        (w'.db, Answered(if p == r.payload then FailedBefore(Some(r.phase.failure)) else Conflict))
  {
    var r, w1 := w.requesters[who], Step(w, RecordEvent(who));
    StepKeepsInv(w, RecordEvent(who));
    RunKeepsInv(w1, events);
    assert Kept(w1.db, Run(w1, events).db, r.saveId);
  }

  /** A commit refused although its lease stands, because the route is no longer as named,
      is a definite failure once recorded: the save ID is answered 409 for ever. */
  lemma RefusedCommitIsFinal(w: World, who: nat, events: seq<Event>, other: Id, now: int)
    requires Inv(w) && who < |w.requesters| && w.requesters[who].phase.Computed?
    requires ValidRequest(w.requesters[who].payload)
    requires HoldsLease(w.db, w.requesters[who].saveId, w.requesters[who].payload, who)
    requires !RouteAsNamed(w.db, w.requesters[who].payload)
    ensures var r := w.requesters[who];
      var w' := Run(Step(Step(w, CommitEvent(who, false)), RecordEvent(who)), events);
      var answer := ClaimTransaction(w'.db, r.saveId, r.payload, other, now).1;
      && answer.Answered? && answer.decision.FailedBefore? && answer.decision.failure.Some?
      && !answer.decision.failure.value.outcomeUnknown && answer.decision.failure.value.httpStatus == 409
      && w.writes <= w'.writes && !Written(w'.writes, r.saveId)
  {
    var r, refused := w.requesters[who], Step(w, CommitEvent(who, false));
    var route := RouteToWrite(r.payload, r.phase.existing, r.phase.geometry);
    CommitsExactly(w.db, r.saveId, r.payload, who, route);
    assert refused.db == w.db && refused.writes == w.writes && refused.requesters[who].phase.Failing?;
    StepKeepsInv(w, CommitEvent(who, false));
    RecordedFailureIsAnswered(refused, who, events, r.payload, other, now);
    var recorded := Step(refused, RecordEvent(who));
    StepKeepsInv(refused, RecordEvent(who));
    DefinitiveFailureIsFinal(recorded, events, r.saveId);
    RunKeepsInv(recorded, events);
  }

  /** A commit that may or may not have taken effect is recorded as unknown only if it did
      not: the save can be claimed again at once. */
  lemma AbortedSaveIsUnclaimed(w: World, who: nat, now: int)
    requires who < |w.requesters| && w.requesters[who].phase.Computed?
    requires HoldsLease(w.db, w.requesters[who].saveId, w.requesters[who].payload, who)
    ensures var r, w' := w.requesters[who], Step(Step(w, CommitAborted(who)), RecordEvent(who));
      Unclaimed(w'.db, r.saveId, now) && BoundTo(w'.db, r.saveId, r.payload) && w'.db.routes == w.db.routes
  {
  }
}
