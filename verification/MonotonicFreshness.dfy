/** References stamped with the wrapping 32-bit millisecond counter: freshness
    latches, and projection of a reference epoch to now. */
module MonotonicFreshness {
  import opened Wrappers
  import opened Words

  /** `latchFreshness`: an observation that has aged out stays invalid. */
  function Latched(valid: bool, observedAtMs: uint32, nowMs: uint32, maximumAgeMs: uint32): bool
  {
    valid && U32(nowMs - observedAtMs) <= maximumAgeMs
  }

  /** `projectEpochMillisecondsFromReference`: the new validity, and the projected
      epoch when the reference is fresh. */
  function Projected(
      valid: bool, epochMs: int, monotonicMs: uint32, nowMs: uint32, maximumAgeMs: uint32): (bool, Option<int>)
  {
    if !valid then (false, None)
    else
      var ageMs := U32(nowMs - monotonicMs);
      if ageMs > maximumAgeMs then (false, None) else (true, Some(epochMs + ageMs))
  }

  class MonotonicReference {
    var valid: bool
    var epochMs: int
    var monotonicMs: uint32

    constructor ()
      ensures !valid
    {
      valid, epochMs, monotonicMs := false, 0, 0;
    }

    method Refresh(epochMs: int, nowMs: uint32)
      modifies this
      ensures valid && this.epochMs == epochMs && monotonicMs == nowMs
    {
      valid, this.epochMs, monotonicMs := true, epochMs, nowMs;
    }

    method LatchFreshness(nowMs: uint32, maximumAgeMs: uint32) returns (ok: bool)
      modifies this`valid
      ensures ok == valid == Latched(old(valid), monotonicMs, nowMs, maximumAgeMs)
    {
      if valid && U32(nowMs - monotonicMs) > maximumAgeMs { valid := false; }
      return valid;
    }

    method Project(nowMs: uint32, maximumAgeMs: uint32) returns (projected: Option<int>)
      modifies this`valid
      ensures (valid, projected) == Projected(old(valid), epochMs, monotonicMs, nowMs, maximumAgeMs)
    {
      if !valid { return None; }
      var ageMs := U32(nowMs - monotonicMs);
      if ageMs > maximumAgeMs {
        valid := false;
        return None;
      }
      return Some(epochMs + ageMs);
    }
  }

  // -------------------------------------------------------------- runs in time

  /** The reference, with unbounded time beside it: when it was last refreshed
      (if ever) and the time of the last event. */
  datatype Clocked = Clocked(valid: bool, epochMs: int, monotonicMs: uint32, refreshedAt: Option<int>, at: int)

  datatype Event = Refreshed(time: int, epochMs: int) | Checked(time: int) | ProjectedAt(time: int)

  function Step(c: Clocked, maximumAgeMs: uint32, e: Event): Clocked
  {
    match e
    case Refreshed(time, epochMs) => Clocked(true, epochMs, U32(time), Some(time), time)
    case Checked(time) => c.(valid := Latched(c.valid, c.monotonicMs, U32(time), maximumAgeMs), at := time)
    case ProjectedAt(time) =>
      c.(valid := Projected(c.valid, c.epochMs, c.monotonicMs, U32(time), maximumAgeMs).0, at := time)
  }

  /** Time never runs backwards and consecutive calls are closer together than
      2^32 ms minus the maximum age. */
  predicate OnCadence(c: Clocked, maximumAgeMs: uint32, e: Event)
  {
    c.at <= e.time < c.at + WORD - maximumAgeMs
  }

  /** The validity flag says exactly whether the true age is within the maximum. */
  predicate Truthful(c: Clocked, maximumAgeMs: uint32)
  {
    match c.refreshedAt
    case None => !c.valid
    case Some(t) => t <= c.at && c.monotonicMs == U32(t) && (c.valid <==> c.at - t <= maximumAgeMs)
  }

  lemma StepStaysTruthful(c: Clocked, maximumAgeMs: uint32, e: Event)
    requires Truthful(c, maximumAgeMs) && OnCadence(c, maximumAgeMs, e)
    ensures Truthful(Step(c, maximumAgeMs, e), maximumAgeMs)
  {
    if !e.Refreshed? && c.valid { ElapsedBelowWrap(c.refreshedAt.value, e.time); }
  }

  predicate RunOnCadence(c: Clocked, maximumAgeMs: uint32, events: seq<Event>)
    decreases |events|
  {
    events == [] ||
    (OnCadence(c, maximumAgeMs, events[0]) && RunOnCadence(Step(c, maximumAgeMs, events[0]), maximumAgeMs, events[1..]))
  }

  function Run(c: Clocked, maximumAgeMs: uint32, events: seq<Event>): Clocked
    decreases |events|
  {
    if events == [] then c else Run(Step(c, maximumAgeMs, events[0]), maximumAgeMs, events[1..])
  }

  lemma {:induction false} RunStaysTruthful(c: Clocked, maximumAgeMs: uint32, events: seq<Event>)
    requires Truthful(c, maximumAgeMs) && RunOnCadence(c, maximumAgeMs, events)
    ensures Truthful(Run(c, maximumAgeMs, events), maximumAgeMs)
    decreases |events|
  {
    if events != [] {
      StepStaysTruthful(c, maximumAgeMs, events[0]);
      RunStaysTruthful(Step(c, maximumAgeMs, events[0]), maximumAgeMs, events[1..]);
    }
  }

  /** After any run on cadence, a latch check answers whether the true age is
      within the maximum, and a projection is the reference plus the true elapsed
      time; once expired it stays so whatever the counter reads. */
  lemma FreshnessSurvivesRollover(events: seq<Event>, start: int, maximumAgeMs: uint32, now: int)
    requires RunOnCadence(Clocked(false, 0, 0, None, start), maximumAgeMs, events)
    requires OnCadence(Run(Clocked(false, 0, 0, None, start), maximumAgeMs, events), maximumAgeMs, Checked(now))
    ensures var c := Run(Clocked(false, 0, 0, None, start), maximumAgeMs, events);
      && Latched(c.valid, c.monotonicMs, U32(now), maximumAgeMs) ==
         (c.refreshedAt.Some? && now - c.refreshedAt.value <= maximumAgeMs)
      && Projected(c.valid, c.epochMs, c.monotonicMs, U32(now), maximumAgeMs).1 ==
           if c.refreshedAt.Some? && now - c.refreshedAt.value <= maximumAgeMs
           then Some(c.epochMs + (now - c.refreshedAt.value)) else None
  {
    RunStaysTruthful(Clocked(false, 0, 0, None, start), maximumAgeMs, events);
    var c := Run(Clocked(false, 0, 0, None, start), maximumAgeMs, events);
    if c.valid { ElapsedBelowWrap(c.refreshedAt.value, now); }
  }

  /** The cadence bound is tight: one call later by a single millisecond and a
      reference a whole wrap old passes for fresh. */
  lemma CadenceIsTight(maximumAgeMs: uint32)
    ensures var refreshed := Step(Clocked(false, 0, 0, None, 0), maximumAgeMs, Refreshed(0, 0));
      var c := Step(refreshed, maximumAgeMs, Checked(maximumAgeMs));
      c.at + WORD - maximumAgeMs == WORD && Latched(c.valid, c.monotonicMs, U32(WORD), maximumAgeMs)
  {
  }
}
