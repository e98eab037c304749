/** Bounded single flight: callers of one key share one underlying fill, and a
    timed-out caller never frees the fill's slot. */
module SingleFlight {
  import opened Wrappers

  datatype Options = Options(maxFills: nat, maxWaitersPerFill: nat, responseMs: int)

  predicate ValidOptions(o: Options)
  {
    o.maxFills > 0 && o.maxWaitersPerFill > 0 && o.responseMs > 0
  }

  /** The fill is registered, its work is under way, or its promise has settled
      and only awaits removal. */
  datatype Phase = Registered | Working | Settled

  /** `id` is the number of the call that opened the flight. */
  datatype Flight = Flight(id: nat, scope: string, current: bool, startedAt: int, waiters: nat, phase: Phase)

  type Flights = map<string, Flight>

  /** A waiting caller's hold on its flight, which outlives the registration. */
  datatype Wait = Wait(key: string, flight: nat, startedAt: int)

  datatype Outcome = Joined(wait: Wait) | CapacityExceeded | DeadlinePassed

  // ---------------------------------------------------- specification functions

  /** The flight call `id` would use: the key's own, or a new one at `now`. */
  function FlightFor(fs: Flights, key: string, scope: string, now: int, id: nat): Flight
  {
    if key in fs then fs[key] else Flight(id, scope, true, now, 0, Registered)
  }

  /** Joining: register the key if a fill slot is free, then wait if a waiter
      slot and some of the response budget are left. */
  function Join(fs: Flights, o: Options, key: string, scope: string, now: int, id: nat): (Flights, Outcome)
  {
    if key !in fs && |fs| >= o.maxFills then (fs, CapacityExceeded)
    else
      var flight := FlightFor(fs, key, scope, now, id);
      if flight.waiters >= o.maxWaitersPerFill then (fs[key := flight], CapacityExceeded)
      else if o.responseMs - (now - flight.startedAt) <= 0 then (fs[key := flight], DeadlinePassed)
      else (fs[key := flight.(waiters := flight.waiters + 1)], Joined(Wait(key, flight.id, flight.startedAt)))
  }

  function SetPhase(fs: Flights, key: string, phase: Phase): Flights
    requires key in fs
  {
    fs[key := fs[key].(phase := phase)]
  }

  /** Whether the fill's result may still be published. */
  predicate IsCurrent(fs: Flights, o: Options, key: string, now: int)
  {
    key in fs && fs[key].current && now - fs[key].startedAt < o.responseMs
  }

  /** Whether the flight waited for is still registered: another flight may have
      taken its key. */
  predicate IsRegistered(fs: Flights, w: Wait)
  {
    w.key in fs && fs[w.key].id == w.flight
  }

  /** What a caller that resumes at `now` gets, if its fill came to `value`: nothing
      before the fill's removal, and its race against the deadline counts from the
      start of the fill, not of the wait. */
  function Received<T>(fs: Flights, o: Options, w: Wait, value: Option<T>, now: int): Option<T>
  {
    if !IsRegistered(fs, w) && now - w.startedAt < o.responseMs then value else None
  }

  /** A caller stops waiting, with a value or at its deadline. */
  function Leave(fs: Flights, w: Wait): Flights
  {
    if IsRegistered(fs, w) && fs[w.key].waiters > 0 then
      fs[w.key := fs[w.key].(waiters := fs[w.key].waiters - 1)]
    else fs
  }

  function Invalidated(fs: Flights, scope: Option<string>): Flights
  {
    map key | key in fs :: if scope.None? || fs[key].scope == scope.value then fs[key].(current := false) else fs[key]
  }

  class BoundedSingleFlight {
    const options: Options
    var flights: Flights
    var calls: nat

    constructor (options: Options)
      requires ValidOptions(options)
      ensures this.options == options && flights == map[] && calls == 0
    {
      this.options := options;
      flights, calls := map[], 0;
    }

    method Run(key: string, scope: string, now: int) returns (outcome: Outcome)
      modifies this
      ensures (flights, outcome) == Join(old(flights), options, key, scope, now, old(calls)) && calls == old(calls) + 1
    {
      calls := calls + 1;
      if key !in flights {
        if |flights| >= options.maxFills { return CapacityExceeded; }
        flights := flights[key := Flight(calls - 1, scope, true, now, 0, Registered)];
      }
      var flight := flights[key];
      assert flights == old(flights)[key := flight];
      if flight.waiters >= options.maxWaitersPerFill { return CapacityExceeded; }
      var remaining := options.responseMs - (now - flight.startedAt);
      if remaining <= 0 { return DeadlinePassed; }
      flights := flights[key := flight.(waiters := flight.waiters + 1)];
      assert flights == old(flights)[key := flight.(waiters := flight.waiters + 1)];
      return Joined(Wait(key, flight.id, flight.startedAt));
    }

    method Invalidate(scope: Option<string>)
      modifies this`flights
      ensures flights == Invalidated(old(flights), scope)
    {
      var pending := flights.Keys;
      var updated := flights;
      while pending != {}
        invariant pending <= flights.Keys && updated.Keys == flights.Keys
        invariant forall k :: k in flights ==>
          updated[k] == if k in pending then flights[k] else Invalidated(flights, scope)[k]
        decreases |pending|
      {
        var key :| key in pending;
        if scope.None? || updated[key].scope == scope.value {
          updated := updated[key := updated[key].(current := false)];
        }
        pending := pending - {key};
      }
      flights := updated;
    }

    method Advance(key: string, phase: Phase)
      requires key in flights
      modifies this`flights
      ensures flights == SetPhase(old(flights), key, phase)
    {
      flights := flights[key := flights[key].(phase := phase)];
    }

    method WaiterLeaves(w: Wait)
      modifies this`flights
      ensures flights == Leave(old(flights), w)
    {
      if IsRegistered(flights, w) && flights[w.key].waiters > 0 {
        flights := flights[w.key := flights[w.key].(waiters := flights[w.key].waiters - 1)];
      }
    }

    method Remove(key: string)
      modifies this`flights
      ensures flights == old(flights) - {key}
    {
      flights := flights - {key};
    }
  }

  // ------------------------------------------------------------------- bounds

  ghost predicate Bounded(fs: Flights, o: Options)
  {
    |fs| <= o.maxFills && forall k :: k in fs ==> fs[k].waiters <= o.maxWaitersPerFill
  }

  lemma SizeAfterUpdate(fs: Flights, key: string, flight: Flight)
    ensures |fs[key := flight]| == if key in fs then |fs| else |fs| + 1
  {
  }

  lemma JoinKeepsBounds(fs: Flights, o: Options, key: string, scope: string, now: int, id: nat)
    requires Bounded(fs, o)
    ensures Bounded(Join(fs, o, key, scope, now, id).0, o)
  {
  }

  /** Joining opens at most the key's own flight, under the call's number. */
  lemma JoinKeepsFlights(fs: Flights, o: Options, key: string, scope: string, now: int, id: nat, k: string)
    requires k in Join(fs, o, key, scope, now, id).0
    ensures var joined := Join(fs, o, key, scope, now, id).0[k];
      if k in fs then joined.id == fs[k].id && joined.phase == fs[k].phase && joined.current == fs[k].current
      else k == key && joined.id == id && joined.phase == Registered
  {
  }

  /** A call waits exactly if its key is being filled or a fill slot is free, fewer than the
      maximum wait for that fill, and the fill is younger than the response budget. It
      then waits for its key's own fill, counted once; and a place in the fills is taken
      exactly by a call for a key that had none, if there was one. */
  lemma JoinsExactly(fs: Flights, o: Options, key: string, scope: string, now: int, id: nat)
    requires ValidOptions(o)
    ensures var (fs', outcome) := Join(fs, o, key, scope, now, id);
      var registers := key in fs || |fs| < o.maxFills;
      && (outcome.Joined? <==>
            registers && (key in fs ==>
              fs[key].waiters < o.maxWaitersPerFill && now < fs[key].startedAt + o.responseMs))
      && (outcome == DeadlinePassed <==>
            key in fs && fs[key].waiters < o.maxWaitersPerFill && now >= fs[key].startedAt + o.responseMs)
      && fs'.Keys == (if registers then fs.Keys + {key} else fs.Keys)
      && (forall k :: k in fs && k != key ==> fs'[k] == fs[k])
      && (outcome.Joined? ==>
            && outcome.wait == Wait(key, fs'[key].id, fs'[key].startedAt) && IsRegistered(fs', outcome.wait)
            && fs'[key].waiters == (if key in fs then fs[key].waiters else 0) + 1)
      && (key in fs ==> fs'[key].(waiters := fs[key].waiters) == fs[key])
      && (!outcome.Joined? && key in fs ==> fs' == fs)
  {
  }

  /** Leaving gives a joined caller's place back: nothing else has changed. */
  lemma JoinThenLeave(fs: Flights, o: Options, key: string, scope: string, now: int, id: nat)
    requires key in fs && Join(fs, o, key, scope, now, id).1.Joined?
    ensures var (fs', outcome) := Join(fs, o, key, scope, now, id); Leave(fs', outcome.wait) == fs
  {
  }

  /** Invalidation marks exactly the flights of the scope, or all without one; they stay
      registered and otherwise as they were. */
  lemma InvalidatesExactlyTheScope(fs: Flights, scope: Option<string>, key: string)
    requires key in fs
    ensures var after := Invalidated(fs, scope);
      && after.Keys == fs.Keys && after[key].(current := fs[key].current) == fs[key]
      && (after[key].current <==> fs[key].current && scope.Some? && fs[key].scope != scope.value)
  {
  }

  lemma InvalidateKeepsBounds(fs: Flights, o: Options, scope: Option<string>)
    requires Bounded(fs, o)
    ensures Bounded(Invalidated(fs, scope), o) && Invalidated(fs, scope).Keys == fs.Keys
  {
    var after := Invalidated(fs, scope);
    assert after.Keys == fs.Keys;
    assert |after| == |after.Keys| && |fs| == |fs.Keys|;
  }
}
