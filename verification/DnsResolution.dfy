/** The firmware's single-owner DNS slot: tickets, network epochs and a response
    budget under a wrapping millisecond counter. */
module DnsResolution {
  import opened Wrappers
  import opened Words

  const RESPONSE_BUDGET_MS := 1000
  const HOST_CAPACITY := 254

  datatype Admission = Started | Waiting | Rejected
  datatype Result = Pending | Resolved | Failed | Expired

  datatype Slot = Slot(
    active: bool, sequence: uint32, ticket: uint32, epoch: uint32, startedAt: uint32,
    finishedTicket: uint32, finishedEpoch: uint32, finishedStart: uint32, address: uint32, host: string)

  const IDLE := Slot(false, 0, 0, 0, 0, 0, 0, 0, 0, "")

  /** A null, empty or overlong host name is refused. */
  predicate Acceptable(host: Option<string>)
  {
    host.Some? && 0 < |host.value| < HOST_CAPACITY
  }

  function Begun(s: Slot, host: Option<string>, epoch: uint32, now: uint32): (Slot, Admission, uint32)
  {
    if !Acceptable(host) then (s, Rejected, 0)
    else if s.active then
      if epoch == s.epoch && host.value == s.host then (s, Waiting, s.ticket) else (s, Rejected, 0)
    else
      var ticket := NextNonZero(s.sequence);
      (s.(active := true, sequence := ticket, ticket := ticket, epoch := epoch, startedAt := now, host := host.value),
       Started, ticket)
  }

  function Completed(s: Slot, ticket: uint32, currentEpoch: uint32, address: uint32, now: uint32): (Slot, bool)
  {
    if !s.active || ticket != s.ticket then (s, false)
    else
      var kept := if currentEpoch == s.epoch && U32(now - s.startedAt) < RESPONSE_BUDGET_MS then address else 0;
      (s.(active := false, finishedTicket := s.ticket, finishedEpoch := s.epoch, finishedStart := s.startedAt,
          address := kept),
       true)
  }

  function Polled(s: Slot, ticket: uint32, epoch: uint32, now: uint32): (Result, uint32)
  {
    if s.active && ticket == s.ticket then
      if epoch != s.epoch then (Failed, 0)
      else if U32(now - s.startedAt) >= RESPONSE_BUDGET_MS then (Expired, 0) else (Pending, 0)
    else if ticket == 0 || ticket != s.finishedTicket || epoch != s.finishedEpoch then (Failed, 0)
    else if U32(now - s.finishedStart) >= RESPONSE_BUDGET_MS then (Expired, 0)
    else if s.address != 0 then (Resolved, s.address) else (Failed, 0)
  }

  class ResolutionState {
    var active: bool
    var sequence: uint32
    var ticket: uint32
    var epoch: uint32
    var startedAt: uint32
    var finishedTicket: uint32
    var finishedEpoch: uint32
    var finishedStart: uint32
    var address: uint32
    var host: string

    function View(): Slot
      reads this
    {
      Slot(active, sequence, ticket, epoch, startedAt, finishedTicket, finishedEpoch, finishedStart, address, host)
    }

    constructor ()
      ensures View() == IDLE
    {
      active, sequence, ticket, epoch, startedAt := false, 0, 0, 0, 0;
      finishedTicket, finishedEpoch, finishedStart, address, host := 0, 0, 0, 0, "";
    }

    method Begin(name: Option<string>, currentEpoch: uint32, now: uint32) returns (admission: Admission, issued: uint32)
      modifies this
      ensures (View(), admission, issued) == Begun(old(View()), name, currentEpoch, now)
    {
      if name.None? || |name.value| == 0 { return Rejected, 0; }
      var length := 0;
      while length < HOST_CAPACITY && length < |name.value|
        invariant length <= |name.value| && length <= HOST_CAPACITY
      {
        length := length + 1;
      }
      if length == HOST_CAPACITY { return Rejected, 0; }
      if active {
        if currentEpoch == epoch && name.value == host { return Waiting, ticket; }
        return Rejected, 0;
      }
      sequence := U32(sequence + 1);
      if sequence == 0 { sequence := 1; }
      ticket, epoch, startedAt, host := sequence, currentEpoch, now, name.value;
      active := true;
      return Started, ticket;
    }

    method Complete(completed: uint32, currentEpoch: uint32, resolved: uint32, now: uint32) returns (accepted: bool)
      modifies this
      ensures (View(), accepted) == Completed(old(View()), completed, currentEpoch, resolved, now)
    {
      if !active || completed != ticket { return false; }
      finishedTicket, finishedEpoch, finishedStart := ticket, epoch, startedAt;
      address := if currentEpoch == epoch && U32(now - startedAt) < RESPONSE_BUDGET_MS then resolved else 0;
      active := false;
      return true;
    }

    method Poll(polled: uint32, currentEpoch: uint32, now: uint32) returns (result: Result, found: uint32)
      ensures (result, found) == Polled(View(), polled, currentEpoch, now)
    {
      found := 0;
      if active && polled == ticket {
        if currentEpoch != epoch { return Failed, found; }
        return if U32(now - startedAt) >= RESPONSE_BUDGET_MS then Expired else Pending, found;
      }
      if polled == 0 || polled != finishedTicket || currentEpoch != finishedEpoch { return Failed, found; }
      if U32(now - finishedStart) >= RESPONSE_BUDGET_MS { return Expired, found; }
      found := address;
      return if found != 0 then Resolved else Failed, found;
    }
  }

  // --------------------------------------------------------------- whole runs

  datatype Answer = Answer(address: uint32, epoch: uint32, at: nat)

  /** One lookup handed to the resolver, with its true start time. */
  datatype Lookup = Lookup(host: string, epoch: uint32, startedAt: nat, answer: Option<Answer>)

  /** The slot, every lookup ever started (ticket n is entry n - 1), which one
      answered last (-1: none), and unbounded time. */
  datatype World = World(slot: Slot, lookups: seq<Lookup>, lastAnswered: int, at: nat)

  datatype Event =
    | BeginEvent(host: Option<string>, epoch: uint32, time: nat)
    | CompleteEvent(ticket: uint32, currentEpoch: uint32, address: uint32, time: nat)

  function Step(w: World, e: Event): World
  {
    match e
    case BeginEvent(host, epoch, time) =>
      var (slot, admission, _) := Begun(w.slot, host, epoch, U32(time));
      if admission == Started then
        World(slot, w.lookups + [Lookup(host.value, epoch, time, None)], w.lastAnswered, time)
      else w.(at := time)
    case CompleteEvent(ticket, currentEpoch, address, time) =>
      var (slot, accepted) := Completed(w.slot, ticket, currentEpoch, address, U32(time));
      if accepted && w.lookups != [] then
        var last := |w.lookups| - 1;
        var answered := w.lookups[last].(answer := Some(Answer(address, currentEpoch, time)));
        World(slot, w.lookups[last := answered], last, time)
      else w.(at := time)
  }

  /** The address a finished lookup may deliver: its own network epoch still
      current and its answer inside the budget. */
  function Delivered(l: Lookup): uint32
    requires l.answer.Some?
  {
    var answer := l.answer.value;
    if answer.epoch == l.epoch && answer.at - l.startedAt < RESPONSE_BUDGET_MS then answer.address else 0
  }

  ghost predicate Inv(w: World)
  {
    && w.at < WORD && w.slot.sequence == |w.lookups| < WORD
    && -1 <= w.lastAnswered < |w.lookups|
    // At most one lookup is outstanding: the newest, exactly while the slot is active.
    && (forall i :: 0 <= i < |w.lookups| ==> w.lookups[i].startedAt <= w.at)
    && (forall i :: 0 <= i < |w.lookups| ==> (w.lookups[i].answer.None? <==> i == |w.lookups| - 1 && w.slot.active))
    && (forall i :: 0 <= i < |w.lookups| && w.lookups[i].answer.Some? ==>
       w.lookups[i].startedAt <= w.lookups[i].answer.value.at)
    && (w.slot.active ==> w.lookups != [] && Outstanding(w.slot, w.lookups[|w.lookups| - 1], |w.lookups|))
    && (w.lastAnswered == if w.slot.active then |w.lookups| - 2 else |w.lookups| - 1)
    && (w.lastAnswered < 0 ==> w.slot.finishedTicket == 0)
    && (w.lastAnswered >= 0 ==> Finished(w.slot, w.lookups[w.lastAnswered], w.lastAnswered + 1))
  }

  /** The slot describes this outstanding lookup; its host buffer is the host asked for. */
  predicate Outstanding(s: Slot, l: Lookup, ticket: int)
  {
    s.ticket == ticket && s.epoch == l.epoch && s.startedAt == U32(l.startedAt) && s.host == l.host
  }

  predicate Finished(s: Slot, l: Lookup, ticket: int)
  {
    s.finishedTicket == ticket && s.finishedEpoch == l.epoch && s.finishedStart == U32(l.startedAt) &&
    l.answer.Some? && s.address == Delivered(l)
  }

  /** Shorter than a wrap of either counter. */
  predicate Timely(w: World, e: Event)
  {
    w.at <= e.time < WORD && |w.lookups| < WORD - 1
  }

  lemma StepKeepsInv(w: World, e: Event)
    requires Inv(w) && Timely(w, e)
    ensures Inv(Step(w, e))
  {
    if w.slot.active { ElapsedBelowWrap(w.lookups[|w.lookups| - 1].startedAt, e.time); }
  }

  predicate RunTimely(w: World, events: seq<Event>)
    decreases |events|
  {
    events == [] || (Timely(w, events[0]) && RunTimely(Step(w, events[0]), events[1..]))
  }

  function Run(w: World, events: seq<Event>): World
    decreases |events|
  {
    if events == [] then w else Run(Step(w, events[0]), events[1..])
  }

  lemma {:induction false} RunKeepsInv(w: World, events: seq<Event>)
    requires Inv(w) && RunTimely(w, events)
    ensures Inv(Run(w, events))
    decreases |events|
  {
    if events != [] {
      StepKeepsInv(w, events[0]);
      RunKeepsInv(Step(w, events[0]), events[1..]);
    }
  }

  /** `poll` reports an address exactly when that ticket's own lookup is the one
      that answered last, with that address, for the epoch polled and current when
      it answered, and both the answer and the poll fall inside the budget. */
  lemma ResolvedMeansOwnTimelyAnswer(events: seq<Event>, ticket: uint32, epoch: uint32, now: nat, address: uint32)
    requires RunTimely(World(IDLE, [], -1, 0), events) && Run(World(IDLE, [], -1, 0), events).at <= now < WORD
    ensures var w := Run(World(IDLE, [], -1, 0), events);
      Polled(w.slot, ticket, epoch, U32(now)) == (Resolved, address) <==>
        && address != 0 && 0 <= w.lastAnswered < |w.lookups| && ticket == w.lastAnswered + 1
        && w.lookups[w.lastAnswered].answer.Some?
        && var l := w.lookups[w.lastAnswered];
           l.epoch == epoch == l.answer.value.epoch && l.answer.value.address == address
           && l.answer.value.at - l.startedAt < RESPONSE_BUDGET_MS && now - l.startedAt < RESPONSE_BUDGET_MS
  {
    RunKeepsInv(World(IDLE, [], -1, 0), events);
    var w := Run(World(IDLE, [], -1, 0), events);
    if w.lastAnswered >= 0 { ElapsedBelowWrap(w.lookups[w.lastAnswered].startedAt, now); }
  }

  /** What a poll finds otherwise. It is pending exactly for the outstanding lookup, polled
      in its own epoch and inside the budget; expired exactly for that lookup or the one
      that answered last, polled in its own epoch past the budget; any other poll fails. */
  lemma PollAnswersExactly(events: seq<Event>, ticket: uint32, epoch: uint32, now: nat)
    requires RunTimely(World(IDLE, [], -1, 0), events) && Run(World(IDLE, [], -1, 0), events).at <= now < WORD
    ensures var w := Run(World(IDLE, [], -1, 0), events); var answer := Polled(w.slot, ticket, epoch, U32(now)).0;
      var outstanding := 0 < ticket == |w.lookups| && w.lookups[ticket - 1].answer.None?;
      var known := outstanding || 0 < ticket == w.lastAnswered + 1 <= |w.lookups|;
      && (answer == Pending <==>
            outstanding && w.lookups[ticket - 1].epoch == epoch
            && now < w.lookups[ticket - 1].startedAt + 1000)
      && (answer == Expired <==>
            known && w.lookups[ticket - 1].epoch == epoch
            && now >= w.lookups[ticket - 1].startedAt + 1000)
      && (!known || w.lookups[ticket - 1].epoch != epoch ==> answer == Failed)
  {
    RunKeepsInv(World(IDLE, [], -1, 0), events);
    var w := Run(World(IDLE, [], -1, 0), events);
    if w.lastAnswered >= 0 { ElapsedBelowWrap(w.lookups[w.lastAnswered].startedAt, now); }
    if w.lookups != [] { ElapsedBelowWrap(w.lookups[|w.lookups| - 1].startedAt, now); }
  }

  /** What a request is told. A lookup starts exactly when the name fits and none is
      outstanding, and then has the next ticket; the caller waits with the outstanding
      one's ticket exactly if it asks for the same host in the same epoch; all other
      requests are rejected without a ticket. */
  lemma BeginAnswersExactly(events: seq<Event>, host: Option<string>, epoch: uint32, now: nat)
    requires RunTimely(World(IDLE, [], -1, 0), events)
    requires var w := Run(World(IDLE, [], -1, 0), events); w.at <= now < WORD && |w.lookups| < WORD - 1
    ensures var w := Run(World(IDLE, [], -1, 0), events); var n := |w.lookups|;
      var (slot, admission, ticket) := Begun(w.slot, host, epoch, U32(now));
      var fits := host.Some? && 1 <= |host.value| <= 253;
      var busy := n > 0 && w.lookups[n - 1].answer.None?;
      && (admission == Started <==> fits && !busy)
      && (admission == Waiting <==>
            fits && busy && w.lookups[n - 1].host == host.value && w.lookups[n - 1].epoch == epoch)
      && ticket == (match admission case Started => n + 1 case Waiting => n case Rejected => 0)
      && (admission != Started ==> slot == w.slot)
      && (admission == Started ==> Outstanding(slot, Lookup(host.value, epoch, now, None), n + 1))
  {
    RunKeepsInv(World(IDLE, [], -1, 0), events);
  }

  /** While a lookup is outstanding, nothing but its own completion changes the slot. */
  lemma OutstandingIsStable(s: Slot, host: Option<string>, epoch: uint32, now: uint32, ticket: uint32, address: uint32)
    requires s.active
    ensures Begun(s, host, epoch, now).0 == s
    ensures ticket != s.ticket ==> Completed(s, ticket, epoch, address, now).0 == s
    ensures ticket == s.ticket ==> !Completed(s, ticket, epoch, address, now).0.active
  {
  }
}
