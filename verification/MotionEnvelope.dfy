/** How far a bus may plausibly have moved between two fixes: the firmware's filter
    and the backend's, over one shared distance in metres. */
module MotionEnvelope {
  import opened Wrappers
  import opened Words
  import opened Geo

  type Distance = (LatLng, LatLng) -> real

  const ERROR_MIN := 15.0
  const ERROR_MAX := 50.0
  const STATIONARY_SPEED := 2.5
  const HDOP_MAX := 4.0
  const SPEED_CAP := 200.0
  const TRANSITION_GAP_MS := 60_000
  const REACQUIRE_AFTER_MS := 300_000

  function Max(a: real, b: real): real { if a >= b then a else b }

  function Min(a: real, b: real): real { if a <= b then a else b }

  function Clamp(value: real, low: real, high: real): real { Max(low, Min(high, value)) }

  // -------------------------------------------------------------- the backend

  /** `hdop` is None where the backend finds no finite number; `accuracy` likewise. */
  function BackendError(
      hdop: Option<real>, speed: real, previousSpeed: real, elapsedMs: int, accuracy: Option<real>): real
  {
    var hdopError := if hdop.Some? && 0.0 <= hdop.value <= 99.0 then ERROR_MIN + hdop.value * 7.0 else ERROR_MAX;
    var qualityError := if accuracy.Some? && accuracy.value >= 0.0 then accuracy.value else hdopError;
    var multipath := if Max(Max(speed, previousSpeed), 0.0) <= STATIONARY_SPEED then 10.0 else 0.0;
    var late := if elapsedMs - 10_000 >= 0 then elapsedMs - 10_000 else 0;
    Clamp(qualityError + multipath + Clamp(late as real / 2000.0, 0.0, 10.0), ERROR_MIN, ERROR_MAX)
  }

  function BackendReach(budget: real, speed: real, elapsedMs: int): real
  {
    budget + (speed / 3.6) * (elapsedMs as real / 1000.0)
  }

  datatype Sample = Sample(place: LatLng, speed: real, timestamp: int, hdop: Option<real>)

  predicate BackendWithin(metres: Distance, previous: Sample, next: Sample, elapsedMs: int)
  {
    var speed := Clamp(Max(Max(previous.speed, next.speed), 0.0), 0.0, SPEED_CAP);
    var budget := Max(BackendError(previous.hdop, previous.speed, next.speed, elapsedMs, None),
                      BackendError(next.hdop, next.speed, previous.speed, elapsedMs, None));
    metres(previous.place, next.place) <= BackendReach(budget, speed, elapsedMs)
  }

  function GapMs(previous: Sample, next: Sample): nat
  {
    if next.timestamp - previous.timestamp >= 0 then next.timestamp - previous.timestamp else 0
  }

  predicate BackendPlausible(metres: Distance, previous: Option<Sample>, next: Sample)
  {
    if previous.None? then true
    else
      var gap := GapMs(previous.value, next);
      gap > REACQUIRE_AFTER_MS ||
      BackendWithin(metres, previous.value, next, if gap <= TRANSITION_GAP_MS then gap else TRANSITION_GAP_MS)
  }

  // ------------------------------------------------------------- the firmware

  function FirmwareError(hdopValid: bool, hdop: real, speed: real, previousSpeed: real, elapsedMs: nat): real
  {
    var hdopError := if hdopValid && hdop >= 0.0 then ERROR_MIN + hdop * 7.0 else ERROR_MAX;
    var stationary := if Max(speed, previousSpeed) <= STATIONARY_SPEED then 10.0 else 0.0;
    var late := if elapsedMs > 10_000 then elapsedMs - 10_000 else 0;
    Min(ERROR_MAX, Max(ERROR_MIN, hdopError + stationary + Min(10.0, late as real / 2000.0)))
  }

  /** A fix as the firmware holds it: HDOP with its validity flag beside it. */
  datatype Fix = Fix(place: LatLng, speed: real, hdopValid: bool, hdop: real)

  function FirmwareReach(budget: real, speed: real, elapsedMs: nat): real
  {
    budget + (speed / 3.6) * (elapsedMs as real / 1000.0)
  }

  predicate FirmwareWithin(metres: Distance, elapsedMs: nat, fix: Fix, previous: Fix)
  {
    var budget := Max(FirmwareError(previous.hdopValid, previous.hdop, previous.speed, fix.speed, elapsedMs),
                      FirmwareError(fix.hdopValid, fix.hdop, fix.speed, previous.speed, elapsedMs));
    var speed := Min(SPEED_CAP, Max(Max(fix.speed, previous.speed), 0.0));
    metres(previous.place, fix.place) <= FirmwareReach(budget, speed, elapsedMs)
  }

  predicate FirmwarePlausible(metres: Distance, hasPrevious: bool, elapsedMs: nat, fix: Fix, previous: Fix)
  {
    !hasPrevious || elapsedMs > REACQUIRE_AFTER_MS || FirmwareWithin(metres, elapsedMs, fix, previous)
  }

  /** The fix a sample was sent from. */
  function FixOf(s: Sample): Fix
  {
    Fix(s.place, s.speed, s.hdop.Some?, if s.hdop.Some? then s.hdop.value else 99.0)
  }

  // ---------------------------------------------------------------- agreement

  /** Both error budgets are one function, for every input: the firmware has no
      upper HDOP limit, but anything above 99 is clamped to the maximum anyway. */
  lemma ErrorsAgree(hdop: Option<real>, speed: real, previousSpeed: real, elapsedMs: nat)
    ensures FirmwareError(hdop.Some?, if hdop.Some? then hdop.value else 99.0, speed, previousSpeed, elapsedMs) ==
            BackendError(hdop, speed, previousSpeed, elapsedMs, None)
    ensures 15.0 <= BackendError(hdop, speed, previousSpeed, elapsedMs, None) <= 50.0
  {
  }

  /** What the error budget is made of, below its maximum: 15 m, 7 m for each unit of HDOP,
      10 m for a bus that stands, and one metre for every 2 s after the first 10 s, up to
      10 m. Without a known HDOP it is the maximum. */
  lemma ErrorBudgetParts(hdop: real, speed: real, previousSpeed: real, elapsedMs: nat)
    requires 0.0 <= hdop <= 15.0 / 7.0
    ensures var late := if elapsedMs <= 10_000 then 0.0 else if elapsedMs >= 30_000 then 10.0
                        else (elapsedMs - 10_000) as real / 2000.0;
      BackendError(Some(hdop), speed, previousSpeed, elapsedMs, None) ==
        15.0 + 7.0 * hdop + late + if speed <= 2.5 && previousSpeed <= 2.5 then 10.0 else 0.0
    ensures BackendError(None, speed, previousSpeed, elapsedMs, None) == 50.0
  {
  }

  lemma EnvelopesAgree(metres: Distance, previous: Sample, next: Sample, elapsedMs: nat)
    ensures FirmwareWithin(metres, elapsedMs, FixOf(next), FixOf(previous)) ==
      BackendWithin(metres, previous, next, elapsedMs)
  {
    ErrorsAgree(previous.hdop, previous.speed, next.speed, elapsedMs);
    ErrorsAgree(next.hdop, next.speed, previous.speed, elapsedMs);
  }

  /** Either reach is the budget plus the distance covered at that speed: an hour at v
      km/h is 1000 v metres, and equal times cover equal distances. */
  lemma ReachIsTravel(budget: real, speed: real, elapsedMs: nat, moreMs: nat)
    ensures BackendReach(budget, speed, 3_600_000) == budget + 1000.0 * speed
    ensures BackendReach(budget, speed, elapsedMs + moreMs) - BackendReach(budget, speed, elapsedMs) ==
            BackendReach(0.0, speed, moreMs)
    ensures 3600.0 * (FirmwareReach(budget, speed, elapsedMs) - budget) == speed * (elapsedMs as real)
  {
    TravelIsProportional(speed, elapsedMs);
    TravelIsProportional(speed, moreMs);
    TravelIsProportional(speed, elapsedMs + moreMs);
    assert speed * ((elapsedMs + moreMs) as real) == speed * (elapsedMs as real) + speed * (moreMs as real);
  }

  lemma TravelIsProportional(speed: real, elapsedMs: nat)
    ensures (speed / 3.6) * (elapsedMs as real / 1000.0) == speed * (elapsedMs as real) / 3600.0
  {
  }

  lemma ErrorGrows(hdop: Option<real>, speed: real, previousSpeed: real, earlier: nat, later: nat)
    requires earlier <= later
    ensures BackendError(hdop, speed, previousSpeed, earlier, None) <=
            BackendError(hdop, speed, previousSpeed, later, None)
  {
  }

  lemma ReachGrows(budget: real, larger: real, speed: real, earlier: nat, later: nat)
    requires budget <= larger && speed >= 0.0 && earlier <= later
    ensures BackendReach(budget, speed, earlier) <= BackendReach(larger, speed, later)
  {
  }

  /** A place within reach stays within reach as time passes. */
  lemma EnvelopeGrows(metres: Distance, previous: Sample, next: Sample, earlier: nat, later: nat)
    requires earlier <= later && BackendWithin(metres, previous, next, earlier)
    ensures BackendWithin(metres, previous, next, later)
  {
    ErrorGrows(previous.hdop, previous.speed, next.speed, earlier, later);
    ErrorGrows(next.hdop, next.speed, previous.speed, earlier, later);
    ReachGrows(
      Max(BackendError(previous.hdop, previous.speed, next.speed, earlier, None),
          BackendError(next.hdop, next.speed, previous.speed, earlier, None)),
      Max(BackendError(previous.hdop, previous.speed, next.speed, later, None),
          BackendError(next.hdop, next.speed, previous.speed, later, None)),
      Clamp(Max(Max(previous.speed, next.speed), 0.0), 0.0, SPEED_CAP), earlier, later);
  }

  /** With the true gap, every transition the backend accepts under its 60 s cap is
      plausible to the firmware, and for gaps the cap does not cut the two filters are
      the same. */
  lemma TrueGapsAgree(metres: Distance, previous: Sample, next: Sample)
    ensures var gap := GapMs(previous, next);
      var firmware := FirmwarePlausible(metres, true, gap, FixOf(next), FixOf(previous));
      && (BackendPlausible(metres, Some(previous), next) ==> firmware)
      && (!(TRANSITION_GAP_MS < gap <= REACQUIRE_AFTER_MS) ==>
            BackendPlausible(metres, Some(previous), next) == firmware)
  {
    var gap := GapMs(previous, next);
    if gap <= REACQUIRE_AFTER_MS {
      var capped := if gap <= TRANSITION_GAP_MS then gap else TRANSITION_GAP_MS;
      EnvelopesAgree(metres, previous, next, gap);
      if BackendWithin(metres, previous, next, capped) { EnvelopeGrows(metres, previous, next, capped, gap); }
    }
  }

  /** Where the cap cuts the gap, the backend asks what the firmware would after one minute. */
  lemma CappedGapIsOneMinute(metres: Distance, previous: Sample, next: Sample)
    requires 60_000 <= next.timestamp - previous.timestamp <= 300_000
    ensures BackendPlausible(metres, Some(previous), next) ==
      FirmwarePlausible(metres, true, 60_000, FixOf(next), FixOf(previous))
  {
    EnvelopesAgree(metres, previous, next, 60_000);
  }

  /** The firmware's elapsed time wraps. The backend accepts a transition the firmware
      rejects exactly when the wrapped gap reads as at most five minutes, which the
      backend's envelope does not reach across; below a wrap, for gaps the cap does not cut, the
      two filters are the same. */
  lemma BackendAcceptsOnlyFirmwarePlausible(metres: Distance, previous: Option<Sample>, next: Sample)
    ensures var held := if previous.Some? then previous.value else next;
      var gap := GapMs(held, next);
      var firmware := FirmwarePlausible(metres, previous.Some?, U32(gap), FixOf(next), FixOf(held));
      && (BackendPlausible(metres, previous, next) && !firmware <==>
            gap >= WORD && U32(gap) <= REACQUIRE_AFTER_MS && !BackendWithin(metres, held, next, U32(gap)))
      && (gap < WORD && !(TRANSITION_GAP_MS < gap <= REACQUIRE_AFTER_MS) ==>
            BackendPlausible(metres, previous, next) == firmware)
  {
    if previous.Some? {
      var gap := GapMs(previous.value, next);
      TrueGapsAgree(metres, previous.value, next);
      if gap < WORD {
        assert U32(gap) == gap;
      } else {
        EnvelopesAgree(metres, previous.value, next, U32(gap));
      }
    }
  }

  /** The firmware captures with its reference's HDOP marked invalid above 4, which
      can only widen the envelope. */
  lemma CaptureIsNeverNarrower(metres: Distance, elapsedMs: nat, fix: Fix, previous: Fix)
    requires FirmwareWithin(metres, elapsedMs, fix, previous.(hdopValid := true))
    ensures FirmwareWithin(metres, elapsedMs, fix, previous.(hdopValid := previous.hdop <= HDOP_MAX))
  {
  }
}
