/** The API read cache: an LRU cache of loaded values over bounded single flight,
    with invalidation against loads in progress. */
module ApiReadCache {
  import opened Wrappers
  import opened LruCache
  import opened SingleFlight

  const OPTIONS := Options(8, 32, 3000)

  /** `bornIn` counts the invalidations that had happened when the value's load began. */
  datatype Cached<V> = Cached(value: V, expires: int, bornIn: nat)

  /** What a settled fill's promise holds, and the birth of its load. */
  datatype Loaded<V> = Loaded(value: V, bornIn: nat)

  /** The cache, its flights and the calls made of them, for each load in progress
      the invalidation count at its start, and by flight the values loads came to:
      a caller still waiting holds its flight's, whether it is registered or not.
      `hits` to `invalidations` are the reported counters. */
  datatype State<V> = State(
    entries: seq<Entry<string, Cached<V>>>, flights: Flights, calls: nat,
    loads: map<string, nat>, returned: map<nat, Loaded<V>>,
    hits: nat, fills: nat, failures: nat, invalidations: nat)

  function Empty<V>(): State<V>
  {
    State([], map[], 0, map[], map[], 0, 0, 0, 0)
  }

  datatype ReadOutcome<V> = Hit(value: V) | Waiting(wait: Wait) | Refused(outcome: Outcome)

  // ---------------------------------------------------- specification functions

  function AfterRead<V>(s: State<V>, name: string, key: string, now: int): (State<V>, ReadOutcome<V>)
  {
    var found := Found(s.entries, key);
    var touched := s.(entries := AfterGet(s.entries, key));
    if found.Some? && found.value.expires > now then (touched.(hits := s.hits + 1), Hit(found.value.value))
    else
      var (flights, outcome) := Join(s.flights, OPTIONS, key, name, now, s.calls);
      (touched.(flights := flights, calls := s.calls + 1),
       if outcome.Joined? then Waiting(outcome.wait) else Refused(outcome))
  }

  predicate InPhase<V>(s: State<V>, key: string, phase: Phase)
  {
    key in s.flights && s.flights[key].phase == phase
  }

  /** A registered fill's turn: its load begins. */
  function AfterLoadBegins<V>(s: State<V>, key: string): State<V>
    requires InPhase(s, key, Registered)
  {
    s.(flights := SetPhase(s.flights, key, Working), loads := s.loads[key := s.invalidations], fills := s.fills + 1)
  }

  /** A load ends: a failure, or a value that is published only if its fill is
      still current, and kept only if caching is on and it is small enough. */
  function AfterLoadEnds<V>(
      s: State<V>, capacity: nat, ttlMs: int, key: string, loaded: Option<V>, small: bool, now: int)
    : State<V>
    requires InPhase(s, key, Working) && key in s.loads
  {
    var ended := s.(flights := SetPhase(s.flights, key, Settled), loads := s.loads - {key});
    if loaded.None? || !IsCurrent(s.flights, OPTIONS, key, now) then ended.(failures := s.failures + 1)
    else
      var cached := Cached(loaded.value, now + ttlMs, s.loads[key]);
      ended.(returned := s.returned[s.flights[key].id := Loaded(loaded.value, s.loads[key])],
             entries := if ttlMs > 0 && small then AfterSet(s.entries, capacity, key, cached) else s.entries)
  }

  /** A waiting caller resumes: after its flight's removal with the value the load came
      to, if that is in time, or with its deadline or the fill's failure. */
  function AfterWait<V>(s: State<V>, w: Wait, now: int): (State<V>, Option<V>)
  {
    var value := if w.flight in s.returned then Some(s.returned[w.flight].value) else None;
    (s.(flights := Leave(s.flights, w)), Received(s.flights, OPTIONS, w, value, now))
  }

  /** A settled flight is forgotten. */
  function AfterRemove<V>(s: State<V>, key: string): State<V>
  {
    s.(flights := s.flights - {key})
  }

  function AfterInvalidate<V>(s: State<V>): State<V>
  {
    s.(entries := [], flights := Invalidated(s.flights, None), invalidations := s.invalidations + 1)
  }

  class ReadCache<V> {
    const name: string
    const ttlMs: int
    const cache: Cache<string, Cached<V>>
    const fills: BoundedSingleFlight
    var loads: map<string, nat>
    var returned: map<nat, Loaded<V>>
    var hitCount: nat
    var fillCount: nat
    var failureCount: nat
    var invalidationCount: nat

    constructor (name: string, ttlMs: int, capacity: nat)
      requires capacity >= 1
      ensures fresh(cache) && fresh(fills) && this.name == name && this.ttlMs == ttlMs
      ensures cache.maxSize == capacity && fills.options == OPTIONS && View() == Empty()
    {
      this.name, this.ttlMs := name, ttlMs;
      cache := new Cache(capacity);
      fills := new BoundedSingleFlight(OPTIONS);
      loads, returned, hitCount, fillCount, failureCount, invalidationCount := map[], map[], 0, 0, 0, 0;
    }

    function View(): State<V>
      reads this, cache, fills
    {
      State(cache.entries, fills.flights, fills.calls, loads, returned,
            hitCount, fillCount, failureCount, invalidationCount)
    }

    method Read(key: string, now: int) returns (r: ReadOutcome<V>)
      requires fills.options == OPTIONS
      modifies this, cache, fills
      ensures (View(), r) == AfterRead(old(View()), name, key, now)
    {
      var hit := cache.Get(key);
      if hit.Some? && hit.value.expires > now {
        hitCount := hitCount + 1;
        return Hit(hit.value.value);
      }
      var outcome := fills.Run(key, name, now);
      return if outcome.Joined? then Waiting(outcome.wait) else Refused(outcome);
    }

    method LoadBegins(key: string)
      requires InPhase(View(), key, Registered)
      modifies this, fills
      ensures View() == AfterLoadBegins(old(View()), key)
    {
      fillCount := fillCount + 1;
      loads := loads[key := invalidationCount];
      fills.Advance(key, Working);
    }

    method LoadEnds(key: string, loaded: Option<V>, small: bool, now: int)
      requires fills.options == OPTIONS && InPhase(View(), key, Working) && key in loads
      modifies this, cache, fills
      ensures View() == AfterLoadEnds(old(View()), cache.maxSize, ttlMs, key, loaded, small, now)
    {
      var bornIn := loads[key];
      loads := loads - {key};
      var current := fills.flights[key].current && now - fills.flights[key].startedAt < OPTIONS.responseMs;
      fills.Advance(key, Settled);
      if loaded.None? || !current {
        failureCount := failureCount + 1;
        return;
      }
      returned := returned[fills.flights[key].id := Loaded(loaded.value, bornIn)];
      if ttlMs > 0 && small {
        var _ := cache.Set(key, Cached(loaded.value, now + ttlMs, bornIn));
      }
    }

    /** A caller's wait ends; None is its deadline or the fill's failure. */
    method Resume(w: Wait, now: int) returns (r: Option<V>)
      requires fills.options == OPTIONS
      modifies fills
      ensures (View(), r) == AfterWait(old(View()), w, now)
    {
      var value := if w.flight in returned then Some(returned[w.flight].value) else None;
      r := Received(fills.flights, OPTIONS, w, value, now);
      fills.WaiterLeaves(w);
    }

    method Remove(key: string)
      modifies fills
      ensures View() == AfterRemove(old(View()), key)
    {
      fills.Remove(key);
    }

    method Invalidate()
      modifies this, cache, fills
      ensures View() == AfterInvalidate(old(View()))
    {
      cache.Clear();
      fills.Invalidate(None);
      invalidationCount := invalidationCount + 1;
    }
  }

  // ------------------------------------------------------------------ invariants

  /** Every cached value, and every load that may still publish, began after the
      latest invalidation; a key has a load in progress exactly while its flight
      works; all bounds hold; each flight is its own, and one whose load has come to
      a value is settled. */
  ghost predicate Inv<V(!new)>(s: State<V>, capacity: nat)
  {
    EntriesFresh(s, capacity) && Bounded(s.flights, OPTIONS) && LoadsTrue(s) && FlightsOwn(s)
  }

  ghost predicate EntriesFresh<V>(s: State<V>, capacity: nat)
  {
    |s.entries| <= capacity && forall i :: 0 <= i < |s.entries| ==> s.entries[i].value.bornIn == s.invalidations
  }

  ghost predicate LoadsTrue<V>(s: State<V>)
  {
    && (forall k :: k in s.loads <==> InPhase(s, k, Working))
    && (forall k :: k in s.loads && s.flights[k].current ==> s.loads[k] == s.invalidations)
  }

  ghost predicate FlightsOwn<V>(s: State<V>)
  {
    && (forall k :: k in s.flights ==> s.flights[k].id < s.calls)
    && (forall k, l :: k in s.flights && l in s.flights && s.flights[k].id == s.flights[l].id ==> k == l)
    && (forall k :: k in s.flights && s.flights[k].id in s.returned ==> InPhase(s, k, Settled))
    && (forall id :: id in s.returned ==> id < s.calls)
  }

  lemma GetKeepsEntries<K(!new), V(!new)>(entries: seq<Entry<K, V>>, k: K)
    ensures |AfterGet(entries, k)| == |entries|
    ensures forall i :: 0 <= i < |entries| ==> AfterGet(entries, k)[i] in entries
  {
  }

  lemma SetKeepsEntries<K(!new), V(!new)>(entries: seq<Entry<K, V>>, maxSize: nat, k: K, v: V)
    requires maxSize > 0
    ensures |AfterSet(entries, maxSize, k, v)| <= maxSize
    ensures forall i :: 0 <= i < |AfterSet(entries, maxSize, k, v)| ==>
      AfterSet(entries, maxSize, k, v)[i] == Entry(k, v) || AfterSet(entries, maxSize, k, v)[i] in entries
  {
  }

  datatype Event<V> =
    | ReadEvent(key: string, now: int)
    | LoadBeginsEvent(key: string)
    | LoadEndsEvent(key: string, loaded: Option<V>, small: bool, now: int)
    | RemoveEvent(key: string)
    | ResumeEvent(wait: Wait, now: int)
    | InvalidateEvent

  /** A wait ends with the promise, which settles with its flight's removal, or at the deadline. */
  predicate CanResume(fs: Flights, w: Wait, now: int)
  {
    !IsRegistered(fs, w) || now - w.startedAt >= OPTIONS.responseMs
  }

  /** One step of any interleaving; steps that are not enabled are skipped. A
      flight is removed only after its work settled. */
  function Step<V>(s: State<V>, name: string, capacity: nat, ttlMs: int, e: Event<V>): State<V>
  {
    match e
    case ReadEvent(key, now) => AfterRead(s, name, key, now).0
    case LoadBeginsEvent(key) => if InPhase(s, key, Registered) then AfterLoadBegins(s, key) else s
    case LoadEndsEvent(key, loaded, small, now) =>
      if InPhase(s, key, Working) && key in s.loads then AfterLoadEnds(s, capacity, ttlMs, key, loaded, small, now)
      else s
    case RemoveEvent(key) => if InPhase(s, key, Settled) then AfterRemove(s, key) else s
    case ResumeEvent(w, now) => if CanResume(s.flights, w, now) then AfterWait(s, w, now).0 else s
    case InvalidateEvent => AfterInvalidate(s)
  }

  lemma ReadKeepsInv<V(!new)>(s: State<V>, name: string, capacity: nat, key: string, now: int)
    requires Inv(s, capacity)
    ensures Inv(AfterRead(s, name, key, now).0, capacity)
  {
    GetKeepsEntries(s.entries, key);
    JoinKeepsBounds(s.flights, OPTIONS, key, name, now, s.calls);
    ReadKeepsLoads(s, name, key, now);
    ReadKeepsOwn(s, name, key, now);
  }

  lemma ReadKeepsOwn<V(!new)>(s: State<V>, name: string, key: string, now: int)
    requires FlightsOwn(s)
    ensures FlightsOwn(AfterRead(s, name, key, now).0)
  {
    var s' := AfterRead(s, name, key, now).0;
    if s'.calls != s.calls {
      forall k | k in s'.flights
        ensures if k in s.flights then s'.flights[k].id == s.flights[k].id && s'.flights[k].phase == s.flights[k].phase
                else k == key && s'.flights[k].id == s.calls
      {
        JoinKeepsFlights(s.flights, OPTIONS, key, name, now, s.calls, k);
      }
    }
  }

  lemma ReadKeepsLoads<V(!new)>(s: State<V>, name: string, key: string, now: int)
    requires LoadsTrue(s)
    ensures LoadsTrue(AfterRead(s, name, key, now).0)
  {
  }

  lemma LoadEndsKeepsInv<V(!new)>(
      s: State<V>, capacity: nat, ttlMs: int, key: string, loaded: Option<V>, small: bool, now: int)
    requires capacity > 0 && Inv(s, capacity) && InPhase(s, key, Working) && key in s.loads
    ensures Inv(AfterLoadEnds(s, capacity, ttlMs, key, loaded, small, now), capacity)
  {
    var s' := AfterLoadEnds(s, capacity, ttlMs, key, loaded, small, now);
    SizeAfterUpdate(s.flights, key, s'.flights[key]);
    LoadEndsKeepsLoads(s, capacity, ttlMs, key, loaded, small, now);
    LoadEndsKeepsOwn(s, capacity, ttlMs, key, loaded, small, now);
    if s'.entries != s.entries {
      SetKeepsEntries(s.entries, capacity, key, Cached(loaded.value, now + ttlMs, s.loads[key]));
    }
  }

  lemma LoadEndsKeepsLoads<V(!new)>(
      s: State<V>, capacity: nat, ttlMs: int, key: string, loaded: Option<V>, small: bool, now: int)
    requires LoadsTrue(s) && InPhase(s, key, Working) && key in s.loads
    ensures LoadsTrue(AfterLoadEnds(s, capacity, ttlMs, key, loaded, small, now))
  {
  }

  lemma LoadEndsKeepsOwn<V(!new)>(
      s: State<V>, capacity: nat, ttlMs: int, key: string, loaded: Option<V>, small: bool, now: int)
    requires FlightsOwn(s) && InPhase(s, key, Working) && key in s.loads
    ensures FlightsOwn(AfterLoadEnds(s, capacity, ttlMs, key, loaded, small, now))
  {
  }

  lemma LoadBeginsKeepsInv<V(!new)>(s: State<V>, capacity: nat, key: string)
    requires Inv(s, capacity) && InPhase(s, key, Registered)
    ensures Inv(AfterLoadBegins(s, key), capacity)
  {
    SizeAfterUpdate(s.flights, key, s.flights[key].(phase := Working));
    LoadBeginsKeepsOwn(s, key);
  }

  lemma LoadBeginsKeepsOwn<V(!new)>(s: State<V>, key: string)
    requires FlightsOwn(s) && InPhase(s, key, Registered)
    ensures FlightsOwn(AfterLoadBegins(s, key))
  {
  }

  lemma RemoveKeepsInv<V(!new)>(s: State<V>, capacity: nat, key: string)
    requires Inv(s, capacity) && InPhase(s, key, Settled)
    ensures Inv(AfterRemove(s, key), capacity)
  {
    assert (s.flights - {key}).Keys == s.flights.Keys - {key};
  }

  lemma ResumeKeepsInv<V(!new)>(s: State<V>, capacity: nat, w: Wait, now: int)
    requires Inv(s, capacity)
    ensures Inv(AfterWait(s, w, now).0, capacity)
  {
    if IsRegistered(s.flights, w) && s.flights[w.key].waiters > 0 {
      SizeAfterUpdate(s.flights, w.key, s.flights[w.key].(waiters := s.flights[w.key].waiters - 1));
    }
  }

  lemma InvalidateKeepsInv<V(!new)>(s: State<V>, capacity: nat)
    requires Inv(s, capacity)
    ensures Inv(AfterInvalidate(s), capacity)
  {
    InvalidateKeepsBounds(s.flights, OPTIONS, None);
  }

  lemma StepKeepsInv<V(!new)>(s: State<V>, name: string, capacity: nat, ttlMs: int, e: Event<V>)
    requires capacity > 0 && Inv(s, capacity)
    ensures Inv(Step(s, name, capacity, ttlMs, e), capacity)
  {
    var s' := Step(s, name, capacity, ttlMs, e);
    if s' != s {
      match e {
        case ReadEvent(key, now) => ReadKeepsInv(s, name, capacity, key, now);
        case LoadBeginsEvent(key) => LoadBeginsKeepsInv(s, capacity, key);
        case LoadEndsEvent(key, loaded, small, now) =>
          LoadEndsKeepsInv(s, capacity, ttlMs, key, loaded, small, now);
        case RemoveEvent(key) => RemoveKeepsInv(s, capacity, key);
        case ResumeEvent(w, now) => ResumeKeepsInv(s, capacity, w, now);
        case InvalidateEvent => InvalidateKeepsInv(s, capacity);
      }
    }
  }

  function Run<V>(s: State<V>, name: string, capacity: nat, ttlMs: int, events: seq<Event<V>>): State<V>
    decreases |events|
  {
    if events == [] then s else Run(Step(s, name, capacity, ttlMs, events[0]), name, capacity, ttlMs, events[1..])
  }

  lemma {:induction false} RunKeepsInv<V(!new)>(
      s: State<V>, name: string, capacity: nat, ttlMs: int, events: seq<Event<V>>)
    requires capacity > 0 && Inv(s, capacity)
    ensures Inv(Run(s, name, capacity, ttlMs, events), capacity)
    decreases |events|
  {
    if events != [] {
      StepKeepsInv(s, name, capacity, ttlMs, events[0]);
      RunKeepsInv(Step(s, name, capacity, ttlMs, events[0]), name, capacity, ttlMs, events[1..]);
    }
  }

  /** After any interleaving of reads, loads, timeouts and invalidations: a hit
      returns a value whose load began after the latest invalidation, loads in
      progress never exceed the fill bound, and cached entries never exceed the
      capacity. */
  lemma HitsAreNeverStale<V(!new)>(
      name: string, capacity: nat, ttlMs: int, events: seq<Event<V>>, key: string, now: int)
    requires capacity > 0
    ensures var s := Run(Empty<V>(), name, capacity, ttlMs, events);
      && |s.entries| <= capacity && |s.flights| <= OPTIONS.maxFills && |s.loads| <= |s.flights|
      && (AfterRead(s, name, key, now).1.Hit? ==>
           Found(s.entries, key).Some? && Found(s.entries, key).value.bornIn == s.invalidations
           && AfterRead(s, name, key, now).1.value == Found(s.entries, key).value.value
           && now < Found(s.entries, key).value.expires)
  {
    RunKeepsInv(Empty<V>(), name, capacity, ttlMs, events);
    var s := Run(Empty<V>(), name, capacity, ttlMs, events);
    SubsetSize(s.loads.Keys, s.flights.Keys);
  }

  // ------------------------------------------------------ what is cached is hit

  /** A load that ends caches its value exactly when it came to one, its fill is current
      and younger than the response budget, caching is on and the value is small. */
  lemma LoadIsCachedExactly<V(!new)>(
      s: State<V>, capacity: nat, ttlMs: int, key: string, loaded: Option<V>, small: bool, now: int)
    requires capacity > 0 && DistinctKeys(s.entries) && InPhase(s, key, Working) && key in s.loads
    ensures var s' := AfterLoadEnds(s, capacity, ttlMs, key, loaded, small, now);
      var timely := s.flights[key].current && now < s.flights[key].startedAt + 3000;
      && s'.failures - s.failures == (if loaded.None? || !timely then 1 else 0)
      && s'.returned ==
           (if loaded.Some? && timely then s.returned[s.flights[key].id := Loaded(loaded.value, s.loads[key])]
            else s.returned)
      && (if loaded.Some? && timely && ttlMs > 0 && small then
            UsedSince(s'.entries, Entry(key, Cached(loaded.value, now + ttlMs, s.loads[key])), {})
          else s'.entries == s.entries)
  {
    if loaded.Some? { UseRefreshes(s.entries, capacity, key, Cached(loaded.value, now + ttlMs, s.loads[key]), {}); }
  }

  /** The keys other than `key` in use, with that of a read or load. */
  ghost function WithKeyOf<V(!new)>(others: set<string>, event: Event<V>, key: string): set<string>
  {
    if event.ReadEvent? || event.LoadEndsEvent? then others + {event.key} - {key} else others
  }

  /** The keys other than `key` that the events read or load. */
  ghost function OtherKeys<V(!new)>(events: seq<Event<V>>, key: string): set<string>
    decreases |events|
  {
    if events == [] then {} else OtherKeys(events[1..], key) + WithKeyOf({}, events[0], key)
  }

  /** No invalidation and no newer load of the key. */
  ghost predicate Undisturbed<V(!new)>(events: seq<Event<V>>, key: string)
  {
    forall i :: 0 <= i < |events| ==> !events[i].InvalidateEvent? && !(events[i].LoadEndsEvent? && events[i].key == key)
  }

  /** The key's entry, and what has been read or loaded since. */
  ghost predicate Keeps<V(!new)>(s: State<V>, capacity: nat, e: Entry<string, Cached<V>>, others: set<string>)
  {
    |s.entries| <= capacity && UsedSince(s.entries, e, others)
  }

  lemma ReadKeeps<V(!new)>(
      s: State<V>, name: string, capacity: nat, key: string, now: int, e: Entry<string, Cached<V>>, others: set<string>)
    requires capacity > 0 && Keeps(s, capacity, e, others) && |others + {key} - {e.key}| < capacity
    ensures Keeps(AfterRead(s, name, key, now).0, capacity, e, others + {key} - {e.key})
  {
    GetSparesRecent(s.entries, capacity, key, e, others);
    assert AfterRead(s, name, key, now).0.entries == AfterGet(s.entries, key);
  }

  lemma LoadKeeps<V(!new)>(
      s: State<V>, capacity: nat, ttlMs: int, key: string, loaded: Option<V>, small: bool, now: int,
      e: Entry<string, Cached<V>>, others: set<string>)
    requires capacity > 0 && Keeps(s, capacity, e, others) && key != e.key && |others + {key}| < capacity
    requires InPhase(s, key, Working) && key in s.loads
    ensures Keeps(AfterLoadEnds(s, capacity, ttlMs, key, loaded, small, now), capacity, e, others + {key})
  {
    if loaded.Some? {
      var cached := Cached(loaded.value, now + ttlMs, s.loads[key]);
      SetKeepsEntries(s.entries, capacity, key, cached);
      UseSparesRecent(s.entries, capacity, key, cached, e, others);
    }
  }

  lemma StepKeepsEntry<V(!new)>(
      s: State<V>, name: string, capacity: nat, ttlMs: int, event: Event<V>,
      e: Entry<string, Cached<V>>, others: set<string>)
    requires capacity > 0 && Keeps(s, capacity, e, others) && Undisturbed([event], e.key)
    requires |WithKeyOf(others, event, e.key)| < capacity
    ensures Keeps(Step(s, name, capacity, ttlMs, event), capacity, e, WithKeyOf(others, event, e.key))
  {
    assert [event][0] == event;
    match event {
      case ReadEvent(key, now) => ReadKeeps(s, name, capacity, key, now, e, others);
      case LoadEndsEvent(key, loaded, small, now) =>
        assert WithKeyOf(others, event, e.key) == others + {key};
        if InPhase(s, key, Working) && key in s.loads {
          LoadKeeps(s, capacity, ttlMs, key, loaded, small, now, e, others);
        }
      case _ =>
    }
  }

  lemma {:induction false} RunKeepsEntry<V(!new)>(
      s: State<V>, name: string, capacity: nat, ttlMs: int, events: seq<Event<V>>,
      e: Entry<string, Cached<V>>, others: set<string>)
    requires capacity > 0 && Keeps(s, capacity, e, others) && Undisturbed(events, e.key)
    requires |others + OtherKeys(events, e.key)| < capacity
    ensures Keeps(Run(s, name, capacity, ttlMs, events), capacity, e, others + OtherKeys(events, e.key))
    decreases |events|
  {
    if events == [] {
      assert others + OtherKeys(events, e.key) == others;
    } else {
      var more, rest := WithKeyOf(others, events[0], e.key), OtherKeys(events[1..], e.key);
      assert more + rest == others + OtherKeys(events, e.key);
      SubsetSize(more, more + rest);
      StepKeepsEntry(s, name, capacity, ttlMs, events[0], e, others);
      RunKeepsEntry(Step(s, name, capacity, ttlMs, events[0]), name, capacity, ttlMs, events[1..], e, more);
    }
  }

  /** A small value loaded in time is hit, by reads before it expires and by no later
      one, whatever happens meanwhile, as long as the cache is not invalidated, the key is
      not loaded again, and fewer other keys than it holds are read or loaded. */
  lemma TimelyValueIsHitUntilItExpires<V(!new)>(
      s: State<V>, name: string, capacity: nat, ttlMs: int, key: string, value: V, loadedAt: int,
      events: seq<Event<V>>, now: int)
    requires capacity > 0 && ttlMs > 0 && |s.entries| <= capacity && DistinctKeys(s.entries)
    requires InPhase(s, key, Working) && key in s.loads
    requires s.flights[key].current && loadedAt < s.flights[key].startedAt + 3000
    requires Undisturbed(events, key) && |OtherKeys(events, key)| < capacity
    ensures var loaded := AfterLoadEnds(s, capacity, ttlMs, key, Some(value), true, loadedAt);
      var r := AfterRead(Run(loaded, name, capacity, ttlMs, events), name, key, now).1;
      if now < loadedAt + ttlMs then r == Hit(value) else !r.Hit?
  {
    var e := Entry(key, Cached(value, loadedAt + ttlMs, s.loads[key]));
    var loaded := AfterLoadEnds(s, capacity, ttlMs, key, Some(value), true, loadedAt);
    LoadIsCachedExactly(s, capacity, ttlMs, key, Some(value), true, loadedAt);
    SetKeepsEntries(s.entries, capacity, key, e.value);
    assert {} + OtherKeys(events, key) == OtherKeys(events, key);
    RunKeepsEntry(loaded, name, capacity, ttlMs, events, e, {});
  }

  /** In every run no key is cached twice. */
  lemma {:induction false} RunKeepsDistinct<V(!new)>(
      s: State<V>, name: string, capacity: nat, ttlMs: int, events: seq<Event<V>>)
    requires capacity > 0 && |s.entries| <= capacity && DistinctKeys(s.entries)
    ensures |Run(s, name, capacity, ttlMs, events).entries| <= capacity
    ensures DistinctKeys(Run(s, name, capacity, ttlMs, events).entries)
    decreases |events|
  {
    if events != [] {
      StepKeepsDistinct(s, name, capacity, ttlMs, events[0]);
      RunKeepsDistinct(Step(s, name, capacity, ttlMs, events[0]), name, capacity, ttlMs, events[1..]);
    }
  }

  lemma LoadEndsKeepsDistinct<V(!new)>(
      s: State<V>, capacity: nat, ttlMs: int, key: string, loaded: Option<V>, small: bool, now: int)
    requires capacity > 0 && |s.entries| <= capacity && DistinctKeys(s.entries) && loaded.Some?
    requires InPhase(s, key, Working) && key in s.loads
    ensures var s' := AfterLoadEnds(s, capacity, ttlMs, key, loaded, small, now);
      |s'.entries| <= capacity && DistinctKeys(s'.entries)
  {
    var cached := Cached(loaded.value, now + ttlMs, s.loads[key]);
    SetKeepsEntries(s.entries, capacity, key, cached);
    UseKeepsDistinct(s.entries, capacity, key, cached);
  }

  lemma StepKeepsDistinct<V(!new)>(s: State<V>, name: string, capacity: nat, ttlMs: int, e: Event<V>)
    requires capacity > 0 && |s.entries| <= capacity && DistinctKeys(s.entries)
    ensures var s' := Step(s, name, capacity, ttlMs, e); |s'.entries| <= capacity && DistinctKeys(s'.entries)
  {
    match e {
      case ReadEvent(key, now) =>
        GetKeepsEntries(s.entries, key);
        GetKeepsDistinct(s.entries, capacity, key);
        assert Step(s, name, capacity, ttlMs, e).entries == AfterGet(s.entries, key);
      case LoadEndsEvent(key, loaded, small, now) =>
        if InPhase(s, key, Working) && key in s.loads && loaded.Some? {
          LoadEndsKeepsDistinct(s, capacity, ttlMs, key, loaded, small, now);
        }
      case _ =>
    }
  }

  /** A read is a hit exactly if an entry that has not expired is cached for its key, and
      hits alone are counted; a caller that waited gets a value exactly if its flight came
      to one, is no longer registered, and the response budget has not run out. */
  lemma HitsAndWaitsExactly<V(!new)>(s: State<V>, name: string, key: string, now: int, w: Wait, later: int)
    ensures var (s', r) := AfterRead(s, name, key, now);
      && (r.Hit? <==>
            Position(s.entries, key) < |s.entries| && now < s.entries[Position(s.entries, key)].value.expires)
      && s'.hits - s.hits == (if r.Hit? then 1 else 0) && (r.Hit? ==> s'.flights == s.flights)
    ensures var got := AfterWait(s, w, later).1;
      && (got.Some? <==> w.flight in s.returned && !IsRegistered(s.flights, w) && later < w.startedAt + 3000)
      && (got.Some? ==> got.value == s.returned[w.flight].value)
  {
  }

  // --------------------------------------------------- what waiting callers get

  /** The flight waited for has not come, and will not come, to a value older than n. */
  ghost predicate NoOlder<V(!new)>(s: State<V>, w: Wait, n: nat)
  {
    && w.flight < s.calls && n <= s.invalidations
    && (forall k :: k in s.flights && s.flights[k].id == w.flight ==> k == w.key)
    && (IsRegistered(s.flights, w) && w.key in s.loads && s.flights[w.key].current ==> n <= s.loads[w.key])
    && (w.flight in s.returned ==> n <= s.returned[w.flight].bornIn)
  }

  lemma ReadStaysNoOlder<V(!new)>(s: State<V>, name: string, key: string, now: int, w: Wait, n: nat)
    requires NoOlder(s, w, n)
    ensures NoOlder(AfterRead(s, name, key, now).0, w, n)
  {
  }

  lemma LoadEndsStaysNoOlder<V(!new)>(
      s: State<V>, capacity: nat, ttlMs: int, key: string, loaded: Option<V>, small: bool, now: int, w: Wait, n: nat)
    requires NoOlder(s, w, n) && InPhase(s, key, Working) && key in s.loads
    ensures NoOlder(AfterLoadEnds(s, capacity, ttlMs, key, loaded, small, now), w, n)
  {
  }

  lemma StepStaysNoOlder<V(!new)>(s: State<V>, name: string, capacity: nat, ttlMs: int, e: Event<V>, w: Wait, n: nat)
    requires NoOlder(s, w, n)
    ensures NoOlder(Step(s, name, capacity, ttlMs, e), w, n)
  {
    match e {
      case ReadEvent(key, now) => ReadStaysNoOlder(s, name, key, now, w, n);
      case LoadEndsEvent(key, loaded, small, now) =>
        if InPhase(s, key, Working) && key in s.loads {
          LoadEndsStaysNoOlder(s, capacity, ttlMs, key, loaded, small, now, w, n);
        }
      case _ =>
    }
  }

  lemma {:induction false} RunStaysNoOlder<V(!new)>(
      s: State<V>, name: string, capacity: nat, ttlMs: int, events: seq<Event<V>>, w: Wait, n: nat)
    requires NoOlder(s, w, n)
    ensures NoOlder(Run(s, name, capacity, ttlMs, events), w, n)
    decreases |events|
  {
    if events != [] {
      StepStaysNoOlder(s, name, capacity, ttlMs, events[0], w, n);
      RunStaysNoOlder(Step(s, name, capacity, ttlMs, events[0]), name, capacity, ttlMs, events[1..], w, n);
    }
  }

  /** The flight waited for is settled or gone. */
  ghost predicate IsOver<V>(s: State<V>, w: Wait)
  {
    w.flight < s.calls && forall k :: k in s.flights && s.flights[k].id == w.flight ==> InPhase(s, k, Settled)
  }

  ghost predicate SameReturn<V>(s: State<V>, s': State<V>, w: Wait)
  {
    && (w.flight in s'.returned <==> w.flight in s.returned)
    && (w.flight in s.returned ==> s'.returned[w.flight] == s.returned[w.flight])
  }

  lemma ReadKeepsReturn<V(!new)>(s: State<V>, name: string, key: string, now: int, w: Wait)
    requires IsOver(s, w)
    ensures IsOver(AfterRead(s, name, key, now).0, w)
  {
  }

  lemma LoadEndsKeepsReturn<V(!new)>(
      s: State<V>, capacity: nat, ttlMs: int, key: string, loaded: Option<V>, small: bool, now: int, w: Wait)
    requires IsOver(s, w) && InPhase(s, key, Working) && key in s.loads
    ensures var s' := AfterLoadEnds(s, capacity, ttlMs, key, loaded, small, now); IsOver(s', w) && SameReturn(s, s', w)
  {
  }

  lemma StepKeepsReturn<V(!new)>(s: State<V>, name: string, capacity: nat, ttlMs: int, e: Event<V>, w: Wait)
    requires IsOver(s, w)
    ensures var s' := Step(s, name, capacity, ttlMs, e); IsOver(s', w) && SameReturn(s, s', w)
  {
    match e {
      case ReadEvent(key, now) => ReadKeepsReturn(s, name, key, now, w);
      case LoadEndsEvent(key, loaded, small, now) =>
        if InPhase(s, key, Working) && key in s.loads {
          LoadEndsKeepsReturn(s, capacity, ttlMs, key, loaded, small, now, w);
        }
      case _ =>
    }
  }

  lemma {:induction false} RunKeepsReturn<V(!new)>(
      s: State<V>, name: string, capacity: nat, ttlMs: int, events: seq<Event<V>>, w: Wait)
    requires IsOver(s, w)
    ensures SameReturn(s, Run(s, name, capacity, ttlMs, events), w)
    decreases |events|
  {
    if events != [] {
      StepKeepsReturn(s, name, capacity, ttlMs, events[0], w);
      RunKeepsReturn(Step(s, name, capacity, ttlMs, events[0]), name, capacity, ttlMs, events[1..], w);
    }
  }

  /** The value a caller receives is what its flight's load came to; that load began
      before the latest invalidation preceding the read exactly when the flight joined
      had already settled with such a value and was not yet removed. */
  lemma WaitersGetStaleOnlyFromSettled<V(!new)>(
      s: State<V>, name: string, capacity: nat, ttlMs: int, key: string, now: int, events: seq<Event<V>>, later: int)
    requires Inv(s, capacity) && AfterRead(s, name, key, now).1.Waiting?
    ensures var (joined, r) := AfterRead(s, name, key, now);
      var end := Run(joined, name, capacity, ttlMs, events);
      var got := AfterWait(end, r.wait, later).1;
      got.Some? ==>
        && r.wait.flight in end.returned && got.value == end.returned[r.wait.flight].value
        && (end.returned[r.wait.flight].bornIn < s.invalidations <==>
            InPhase(s, key, Settled) && s.flights[key].id in s.returned
            && s.returned[s.flights[key].id].bornIn < s.invalidations)
  {
    var (joined, r) := AfterRead(s, name, key, now);
    ReadKeepsOwn(s, name, key, now);
    if InPhase(s, key, Settled) {
      RunKeepsReturn(joined, name, capacity, ttlMs, events, r.wait);
    } else {
      RunStaysNoOlder(joined, name, capacity, ttlMs, events, r.wait, s.invalidations);
    }
  }

  /** It happens: the load returns, the cache is invalidated, and a read comes before
      the settled flight is removed; its caller then resumes with the older value. */
  lemma StaleValueIsDelivered<V(!new)>(name: string, capacity: nat, key: string, value: V)
    requires capacity > 0
    ensures var events :=
        [ReadEvent(key, 0), LoadBeginsEvent(key), LoadEndsEvent(key, Some(value), true, 1), InvalidateEvent];
      var s := Run(Empty<V>(), name, capacity, 5000, events);
      var (joined, r) := AfterRead(s, name, key, 2);
      && s.invalidations == 1 && r.Waiting?
      && AfterWait(AfterRemove(joined, key), r.wait, 3).1 == Some(value)
      && joined.returned[r.wait.flight] == Loaded(value, 0)
  {
    var s1 := AfterRead(Empty<V>(), name, key, 0).0;
    var s2 := AfterLoadBegins(s1, key);
    var s3 := AfterLoadEnds(s2, capacity, 5000, key, Some(value), true, 1);
    var events := [ReadEvent(key, 0), LoadBeginsEvent(key), LoadEndsEvent(key, Some(value), true, 1), InvalidateEvent];
    assert Step(Empty<V>(), name, capacity, 5000, events[0]) == s1;
    assert Step(s1, name, capacity, 5000, events[1]) == s2;
    assert Step(s2, name, capacity, 5000, events[2]) == s3;
    RunOf(Empty<V>(), name, capacity, 5000, events);
    RunOf(s1, name, capacity, 5000, events[1..]);
    RunOf(s2, name, capacity, 5000, events[2..]);
    RunOf(s3, name, capacity, 5000, events[3..]);
  }

  lemma RunOf<V>(s: State<V>, name: string, capacity: nat, ttlMs: int, events: seq<Event<V>>)
    requires events != []
    ensures Run(s, name, capacity, ttlMs, events) ==
      Run(Step(s, name, capacity, ttlMs, events[0]), name, capacity, ttlMs, events[1..])
  {
  }

  lemma SubsetSize<T>(a: set<T>, b: set<T>)
    requires a <= b
    ensures |a| <= |b|
  {
    assert b == a + (b - a);
  }
}
