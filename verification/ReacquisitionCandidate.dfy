/** The firmware's re-anchoring of its capture reference on three coherent
    rejected fixes. */
module ReacquisitionCandidate {
  import opened Wrappers
  import opened Words
  import opened Geo
  import opened MotionEnvelope

  const REANCHOR_FIXES := 3
  const MIN_SPACING_MS := 500
  const MAX_SPACING_MS := 5000

  datatype Candidate = Candidate(has: bool, place: LatLng, speed: real, hdop: real, at: uint32, count: nat)

  /** Where the current reference is, and how long ago it was captured. */
  datatype Reference = Reference(place: LatLng, elapsedMs: uint32)

  predicate Admissible(metres: Distance, fix: Fix, reference: Option<Reference>)
  {
    && fix.hdopValid && 0.0 <= fix.hdop <= HDOP_MAX
    && -90.0 <= fix.place.lat <= 90.0 && -180.0 <= fix.place.lng <= 180.0 && 0.0 <= fix.speed <= 200.0
    && (reference.None? ||
        FirmwareWithin(metres, reference.value.elapsedMs,
                       Fix(fix.place, 200.0, true, fix.hdop), Fix(reference.value.place, 200.0, false, 99.0)))
  }

  predicate Fits(metres: Distance, spacingMs: nat, fix: Fix, earlier: Fix)
  {
    MIN_SPACING_MS <= spacingMs <= MAX_SPACING_MS &&
    FirmwarePlausible(metres, true, spacingMs, fix.(hdopValid := true), earlier.(hdopValid := true))
  }

  function Cleared(c: Candidate): Candidate
  {
    c.(has := false, count := 0)
  }

  function Observed(
      metres: Distance, c: Candidate, now: uint32, fix: Fix, reference: Option<Reference>): (Candidate, bool)
  {
    if c.has && now == c.at then (c, false)
    else if !Admissible(metres, fix, reference) then (Cleared(c), false)
    else
      var coherent := c.has && Fits(metres, U32(now - c.at), fix, Fix(c.place, c.speed, true, c.hdop));
      var kept := Candidate(true, fix.place, fix.speed, fix.hdop, now, if coherent then (c.count + 1) % 256 else 1);
      if kept.count < REANCHOR_FIXES then (kept, false) else (Cleared(kept), true)
  }

  class ReacquisitionCandidate {
    var has: bool
    var place: LatLng
    var speed: real
    var hdop: real
    var at: uint32
    var count: nat

    function View(): Candidate
      reads this
    {
      Candidate(has, place, speed, hdop, at, count)
    }

    constructor ()
      ensures View() == Candidate(false, LatLng(0.0, 0.0), 0.0, 99.0, 0, 0)
    {
      has, place, speed, hdop, at, count := false, LatLng(0.0, 0.0), 0.0, 99.0, 0, 0;
    }

    method Reset()
      modifies this
      ensures View() == Cleared(old(View()))
    {
      has, count := false, 0;
    }

    method ObserveRejected(metres: Distance, now: uint32, fix: Fix, reference: Option<Reference>)
      returns (accepted: bool)
      modifies this
      ensures (View(), accepted) == Observed(metres, old(View()), now, fix, reference)
    {
      if has && now == at { return false; }
      if !Admissible(metres, fix, reference) {
        Reset();
        return false;
      }
      var coherent := has && Fits(metres, U32(now - at), fix, Fix(place, speed, true, hdop));
      count := if coherent then (count + 1) % 256 else 1;
      has, place, speed, hdop, at := true, fix.place, fix.speed, fix.hdop, now;
      if count < REANCHOR_FIXES { return false; }
      Reset();
      return true;
    }
  }

  // -------------------------------------------------------------- runs in time

  /** A rejected fix, with the unbounded time the receiver produced it. */
  datatype Rejected = Rejected(time: int, fix: Fix, reference: Option<Reference>)

  /** The candidate and the fixes counted since the last reset; a sentence evaluated
      twice counts once. */
  datatype Watch = Watch(candidate: Candidate, counted: seq<Rejected>)

  function Seen(metres: Distance, w: Watch, x: Rejected): (Watch, bool)
  {
    var (c, accepted) := Observed(metres, w.candidate, U32(x.time), x.fix, x.reference);
    (Watch(c, if w.candidate.has && U32(x.time) == w.candidate.at then w.counted else w.counted + [x]), accepted)
  }

  /** A fix that reaches the filter: rejected by it, or accepted or captured, which
      resets the candidate. */
  datatype Event = Reject(rejected: Rejected) | Accept

  /** The fixes counted start anew with every reset. */
  function After(metres: Distance, w: Watch, e: Event): Watch
  {
    match e
    case Reject(x) => Seen(metres, w, x).0
    case Accept => Watch(Cleared(w.candidate), [])
  }

  predicate Linked(metres: Distance, earlier: Rejected, later: Rejected)
  {
    later.time >= earlier.time && Fits(metres, later.time - earlier.time, later.fix, earlier.fix)
  }

  /** The last `n` fixes counted were admissible and each fitted the one before. */
  predicate Chained(metres: Distance, counted: seq<Rejected>, n: nat)
  {
    && n <= |counted|
    && (forall i :: |counted| - n <= i < |counted| ==> Admissible(metres, counted[i].fix, counted[i].reference))
    && forall i, j :: |counted| - n <= i < j == i + 1 < |counted| ==> Linked(metres, counted[i], counted[j])
  }

  predicate WatchTrue(metres: Distance, w: Watch)
  {
    if !w.candidate.has then w.candidate.count == 0
    else
      && 1 <= w.candidate.count < REANCHOR_FIXES && Chained(metres, w.counted, w.candidate.count)
      && var last := w.counted[|w.counted| - 1];
         w.candidate ==
         Candidate(true, last.fix.place, last.fix.speed, last.fix.hdop, U32(last.time), w.candidate.count)
  }

  /** The counter has not wrapped since the fix held as candidate. */
  predicate InTime(w: Watch, x: Rejected)
  {
    w.candidate.has && w.counted != [] ==>
      w.counted[|w.counted| - 1].time <= x.time < w.counted[|w.counted| - 1].time + WORD
  }

  lemma ChainedExtends(metres: Distance, counted: seq<Rejected>, x: Rejected, n: nat)
    requires Chained(metres, counted, n) && Admissible(metres, x.fix, x.reference)
    requires n > 0 ==> Linked(metres, counted[|counted| - 1], x)
    ensures Chained(metres, counted + [x], n + 1)
  {
    var longer := counted + [x];
    forall i | |longer| - n - 1 <= i < |longer| ensures Admissible(metres, longer[i].fix, longer[i].reference) {
      if i < |counted| { assert longer[i] == counted[i]; }
    }
    forall i, j | |longer| - n - 1 <= i < j == i + 1 < |longer| ensures Linked(metres, longer[i], longer[j]) {
      if j < |counted| { assert longer[i] == counted[i] && longer[j] == counted[j]; }
    }
  }

  /** What the candidate holds after an admissible fix that is not a repeat. */
  lemma SeenCounts(metres: Distance, w: Watch, x: Rejected)
    requires WatchTrue(metres, w) && InTime(w, x) && Admissible(metres, x.fix, x.reference)
    requires !(w.candidate.has && U32(x.time) == w.candidate.at)
    ensures var coherent := w.candidate.has && Linked(metres, w.counted[|w.counted| - 1], x);
      var count := if coherent then w.candidate.count + 1 else 1;
      var kept := Candidate(true, x.fix.place, x.fix.speed, x.fix.hdop, U32(x.time), count);
      Seen(metres, w, x) ==
        (Watch(if count < REANCHOR_FIXES then kept else Cleared(kept), w.counted + [x]), count == REANCHOR_FIXES)
  {
    if w.candidate.has { ElapsedBelowWrap(w.counted[|w.counted| - 1].time, x.time); }
  }

  lemma SeenStaysTrue(metres: Distance, w: Watch, x: Rejected)
    requires WatchTrue(metres, w) && InTime(w, x)
    ensures WatchTrue(metres, Seen(metres, w, x).0)
    ensures Seen(metres, w, x).1 ==> Chained(metres, Seen(metres, w, x).0.counted, REANCHOR_FIXES)
  {
    if Admissible(metres, x.fix, x.reference) && !(w.candidate.has && U32(x.time) == w.candidate.at) {
      SeenCounts(metres, w, x);
      if w.candidate.has && Linked(metres, w.counted[|w.counted| - 1], x) {
        ChainedExtends(metres, w.counted, x, w.candidate.count);
      } else {
        ChainedExtends(metres, w.counted, x, 0);
      }
    }
  }

  predicate AllInTime(metres: Distance, w: Watch, events: seq<Event>)
    decreases |events|
  {
    events == [] ||
    ((events[0].Reject? ==> InTime(w, events[0].rejected)) &&
     AllInTime(metres, After(metres, w, events[0]), events[1..]))
  }

  function Run(metres: Distance, w: Watch, events: seq<Event>): Watch
    decreases |events|
  {
    if events == [] then w else Run(metres, After(metres, w, events[0]), events[1..])
  }

  lemma {:induction false} RunStaysTrue(metres: Distance, w: Watch, events: seq<Event>)
    requires WatchTrue(metres, w) && AllInTime(metres, w, events)
    ensures WatchTrue(metres, Run(metres, w, events))
    decreases |events|
  {
    if events != [] {
      if events[0].Reject? { SeenStaysTrue(metres, w, events[0].rejected); }
      RunStaysTrue(metres, After(metres, w, events[0]), events[1..]);
    }
  }

  function Listed(xs: seq<Rejected>, e: Event): seq<Rejected>
  {
    match e
    case Reject(x) => xs + [x]
    case Accept => []
  }

  /** The fixes rejected since the last accepted one, after `xs`. */
  function RejectedInARow(xs: seq<Rejected>, events: seq<Event>): seq<Rejected>
    decreases |events|
  {
    if events == [] then xs else RejectedInARow(Listed(xs, events[0]), events[1..])
  }

  predicate Subsequence<T(==)>(a: seq<T>, b: seq<T>)
    decreases |b|
  {
    a == [] ||
    (b != [] &&
     ((a[|a| - 1] == b[|b| - 1] && Subsequence(a[..|a| - 1], b[..|b| - 1])) || Subsequence(a, b[..|b| - 1])))
  }

  lemma SubsequenceGrows<T>(a: seq<T>, b: seq<T>, x: T)
    requires Subsequence(a, b)
    ensures Subsequence(a, b + [x]) && Subsequence(a + [x], b + [x])
  {
    assert (a + [x])[..|a|] == a && (b + [x])[..|b|] == b;
  }

  lemma {:induction false} CountedInARow(metres: Distance, w: Watch, xs: seq<Rejected>, events: seq<Event>)
    requires Subsequence(w.counted, xs)
    ensures Subsequence(Run(metres, w, events).counted, RejectedInARow(xs, events))
    decreases |events|
  {
    if events != [] {
      if events[0].Reject? { SubsequenceGrows(w.counted, xs, events[0].rejected); }
      CountedInARow(metres, After(metres, w, events[0]), Listed(xs, events[0]), events[1..]);
    }
  }

  /** After any run of rejected and accepted fixes, a fix re-anchors only as the last of
      three distinct admissible fixes rejected since the last accepted one, each truly
      0.5 to 5 s after and plausible from the one before. */
  lemma ReanchorsOnlyOnThree(metres: Distance, start: Candidate, events: seq<Event>, x: Rejected)
    requires !start.has && start.count == 0 && AllInTime(metres, Watch(start, []), events)
    requires InTime(Run(metres, Watch(start, []), events), x)
    ensures var (w, accepted) := Seen(metres, Run(metres, Watch(start, []), events), x);
      accepted ==>
        && w.counted != [] && w.counted[|w.counted| - 1] == x && Chained(metres, w.counted, REANCHOR_FIXES)
        && Subsequence(w.counted, RejectedInARow([], events) + [x])
  {
    var before := Run(metres, Watch(start, []), events);
    RunStaysTrue(metres, Watch(start, []), events);
    SeenStaysTrue(metres, before, x);
    CountedInARow(metres, Watch(start, []), [], events);
    SubsequenceGrows(before.counted, RejectedInARow([], events), x);
  }

  /** An admissible fix that fits the candidate raises the count, or re-anchors. */
  lemma LinkedRaises(metres: Distance, w: Watch, x: Rejected)
    requires WatchTrue(metres, w) && w.candidate.has && Admissible(metres, x.fix, x.reference)
    requires Linked(metres, w.counted[|w.counted| - 1], x)
    ensures var (w', accepted) := Seen(metres, w, x);
      WatchTrue(metres, w') && (accepted <==> w.candidate.count == 2) &&
      (!accepted ==> w'.candidate.has && w'.candidate.count == w.candidate.count + 1 && w'.counted == w.counted + [x])
  {
    ElapsedBelowWrap(w.counted[|w.counted| - 1].time, x.time);
    SeenStaysTrue(metres, w, x);
  }

  /** Three admissible fixes in a row, each fitting the one before, re-anchor by the
      third, whatever was seen earlier. */
  lemma ThreeCoherentFixesReanchor(metres: Distance, w: Watch, x: Rejected, y: Rejected, z: Rejected)
    requires WatchTrue(metres, w) && InTime(w, x) && (w.candidate.has ==> U32(x.time) != w.candidate.at)
    requires Admissible(metres, x.fix, x.reference) && Admissible(metres, y.fix, y.reference) &&
      Admissible(metres, z.fix, z.reference)
    requires Linked(metres, x, y) && Linked(metres, y, z)
    ensures var a := Seen(metres, w, x);
      var b := Seen(metres, a.0, y);
      a.1 || b.1 || Seen(metres, b.0, z).1
  {
    SeenStaysTrue(metres, w, x);
    var a := Seen(metres, w, x);
    if !a.1 {
      assert a.0.candidate.has && a.0.counted == w.counted + [x];
      LinkedRaises(metres, a.0, y);
      var b := Seen(metres, a.0, y);
      if !b.1 { LinkedRaises(metres, b.0, z); }
    }
  }
}
