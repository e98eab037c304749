/** The backend's move of its anchor after an outage: only on three coherent
    fixes, with the evidence kept beside the last raw fix. */
module OutageReacquisition {
  import opened Wrappers
  import opened Words
  import opened MotionEnvelope

  datatype MotionState = Moving | Stopped | Uncertain

  datatype Report = Report(sample: Sample, motion: MotionState)

  datatype Evidence = Evidence(count: nat, startedAt: int)

  datatype Verdict = Verdict(accepted: bool, pending: Option<Evidence>)

  predicate Safe(n: int)
  {
    -MAX_SAFE_INTEGER <= n <= MAX_SAFE_INTEGER
  }

  predicate Usable(r: Report)
  {
    && -90.0 <= r.sample.place.lat <= 90.0 && -180.0 <= r.sample.place.lng <= 180.0
    && 0.0 <= r.sample.speed <= SPEED_CAP && Safe(r.sample.timestamp)
    && r.sample.hdop.Some? && 0.0 <= r.sample.hdop.value <= HDOP_MAX && r.motion != Uncertain
  }

  /** A usable fix reachable over the whole of a gap of more than 1 and up to 5 minutes. */
  predicate Qualifies(metres: Distance, previous: Sample, next: Report)
  {
    var gap := next.sample.timestamp - previous.timestamp;
    Usable(next) && TRANSITION_GAP_MS < gap <= REACQUIRE_AFTER_MS && BackendWithin(metres, previous, next.sample, gap)
  }

  /** Consecutive fixes half a second to five seconds apart that fit each other. */
  predicate Coherent(metres: Distance, earlier: Report, later: Report)
  {
    500 <= later.sample.timestamp - earlier.sample.timestamp <= 5000 &&
    BackendPlausible(metres, Some(earlier.sample), later.sample)
  }

  predicate EvidenceFits(pending: Evidence, previous: Sample, raw: Report)
  {
    && (pending.count == 1 || pending.count == 2) && Safe(pending.startedAt)
    && previous.timestamp < pending.startedAt <= raw.sample.timestamp
    && (pending.count == 1 ==> pending.startedAt == raw.sample.timestamp)
    && (pending.count == 2 ==> 500 <= raw.sample.timestamp - pending.startedAt <= 5000)
  }

  function Evaluate(
      metres: Distance, previous: Option<Sample>, next: Report, raw: Option<Report>, evidence: Option<Evidence>)
    : Verdict
  {
    if previous.None? || !Qualifies(metres, previous.value, next) then Verdict(false, None)
    else if raw.None? || evidence.None? || !Usable(raw.value) || !Coherent(metres, raw.value, next)
            || !EvidenceFits(evidence.value, previous.value, raw.value) then
      Verdict(false, Some(Evidence(1, next.sample.timestamp)))
    else if evidence.value.count == 2 then Verdict(true, None)
    else Verdict(false, Some(Evidence(2, evidence.value.startedAt)))
  }

  /** Retained or accepted by the backend after an outage: exactly the usable fixes
      the firmware finds plausible over that gap. */
  lemma RetainedExactlyWhenFirmwarePlausible(
      metres: Distance, previous: Sample, next: Report, raw: Option<Report>, evidence: Option<Evidence>)
    ensures var v := Evaluate(metres, Some(previous), next, raw, evidence);
      (v.accepted || v.pending.Some?) <==>
      Usable(next) && TRANSITION_GAP_MS < GapMs(previous, next.sample) <= REACQUIRE_AFTER_MS
      && FirmwarePlausible(metres, true, GapMs(previous, next.sample), FixOf(next.sample), FixOf(previous))
  {
    EnvelopesAgree(metres, previous, next.sample, GapMs(previous, next.sample));
  }

  // ------------------------------------------------- the transaction over runs

  /** What the presence record keeps for the filter: the anchor, the last raw fix
      and the evidence. `turns` is the history of the run. */
  datatype Presence = Presence(
    anchor: Option<Sample>, raw: Option<Report>, evidence: Option<Evidence>, turns: seq<Turn>)

  /** One processed fix with the reference it was judged against. */
  datatype Turn = Turn(previous: Option<Sample>, next: Report)

  const ABSENT := Presence(None, None, None, [])

  /** The reference of the next fix: the anchor, an unknown HDOP filled from the last fix. */
  function Reference(s: Presence): Option<Sample>
  {
    if s.anchor.Some? && s.anchor.value.hdop.None? && s.raw.Some? then
      Some(s.anchor.value.(hdop := s.raw.value.sample.hdop))
    else s.anchor
  }

  function Next(metres: Distance, s: Presence, next: Report): Presence
  {
    var previous := Reference(s);
    var ordinary := BackendPlausible(metres, previous, next.sample);
    var verdict := if ordinary then Verdict(false, None) else Evaluate(metres, previous, next, s.raw, s.evidence);
    var moves := previous.None? || ((ordinary || verdict.accepted) && next.motion != Uncertain);
    var anchor := if moves then Some(next.sample) else previous;
    Presence(anchor, Some(next), verdict.pending, s.turns + [Turn(previous, next)])
  }

  function Run(metres: Distance, s: Presence, reports: seq<Report>): Presence
    decreases |reports|
  {
    if reports == [] then s else Run(metres, Next(metres, s, reports[0]), reports[1..])
  }

  /** Judged implausible within the cap, yet reachable over the whole outage. */
  predicate Held(metres: Distance, t: Turn)
  {
    t.previous.Some? && !BackendPlausible(metres, t.previous, t.next.sample) &&
    Qualifies(metres, t.previous.value, t.next)
  }

  /** The last `n` turns were all held and each fitted the one before. */
  predicate Corroborated(metres: Distance, turns: seq<Turn>, n: nat)
    decreases n
  {
    n == 0 ||
    (n <= |turns| && Held(metres, turns[|turns| - 1]) &&
     (n == 1 || (Coherent(metres, turns[|turns| - 2].next, turns[|turns| - 1].next) &&
       Corroborated(metres, turns[..|turns| - 1], n - 1))))
  }

  lemma CorroboratedExtends(metres: Distance, turns: seq<Turn>, t: Turn, n: nat)
    ensures Corroborated(metres, turns + [t], n + 1) <==>
            Held(metres, t) &&
            (n == 0 ||
             (turns != [] && Coherent(metres, turns[|turns| - 1].next, t.next) && Corroborated(metres, turns, n)))
  {
  }

  /** The evidence counts the corroborated turns, against an anchor older than them. */
  predicate EvidenceTrue(metres: Distance, s: Presence)
  {
    && (s.raw.Some? <==> s.turns != []) && (s.turns != [] <==> s.anchor.Some?)
    && (s.turns != [] ==> s.raw.value == s.turns[|s.turns| - 1].next)
    && match s.evidence
       case None => Corroborated(metres, s.turns, 1) ==> s.turns == [] || s.anchor.value == s.raw.value.sample
       case Some(e) =>
         && (e.count == 1 || e.count == 2)
         && Corroborated(metres, s.turns, e.count) && !Corroborated(metres, s.turns, e.count + 1)
         && e.startedAt == s.turns[|s.turns| - e.count].next.sample.timestamp
         && s.anchor.value.timestamp < e.startedAt
  }

  /** Held evidence always fits the next coherent fix. */
  lemma EvidenceIsUsable(metres: Distance, s: Presence, next: Report)
    requires EvidenceTrue(metres, s)
    ensures
      s.turns != [] && Corroborated(metres, s.turns, 1) &&
      Held(metres, Turn(Reference(s), next)) && Coherent(metres, s.raw.value, next) ==>
      s.evidence.Some? && Usable(s.raw.value) && EvidenceFits(s.evidence.value, Reference(s).value, s.raw.value)
  {
  }

  /** What a fix makes of the evidence, and of the anchor if the ordinary filter rejects it. */
  predicate Judged(metres: Distance, s: Presence, next: Report)
  {
    var s' := Next(metres, s, next);
    && EvidenceTrue(metres, s')
    && (!BackendPlausible(metres, Reference(s), next.sample) ==>
          s'.anchor == if Corroborated(metres, s'.turns, 3) then Some(next.sample) else Reference(s))
  }

  lemma UnheldIsJudged(metres: Distance, s: Presence, next: Report)
    requires EvidenceTrue(metres, s) && !Held(metres, Turn(Reference(s), next))
    ensures Judged(metres, s, next)
  {
    CorroboratedExtends(metres, s.turns, Turn(Reference(s), next), 0);
    CorroboratedExtends(metres, s.turns, Turn(Reference(s), next), 2);
  }

  lemma HeldIsJudged(metres: Distance, s: Presence, next: Report)
    requires EvidenceTrue(metres, s) && Held(metres, Turn(Reference(s), next))
    ensures Judged(metres, s, next)
  {
    var t := Turn(Reference(s), next);
    CorroboratedExtends(metres, s.turns, t, 0);
    CorroboratedExtends(metres, s.turns, t, 1);
    CorroboratedExtends(metres, s.turns, t, 2);
    EvidenceIsUsable(metres, s, next);
  }

  /** A fix the ordinary filter rejects moves the anchor exactly when it is the third
      corroborated fix in a row, and otherwise leaves it where it was. */
  lemma AcceptedExactlyOnThree(metres: Distance, s: Presence, next: Report)
    requires EvidenceTrue(metres, s)
    ensures var s' := Next(metres, s, next);
      && EvidenceTrue(metres, s')
      && (!BackendPlausible(metres, Reference(s), next.sample) ==>
            s'.anchor == if Corroborated(metres, s'.turns, 3) then Some(next.sample) else Reference(s))
  {
    if Held(metres, Turn(Reference(s), next)) {
      HeldIsJudged(metres, s, next);
    } else {
      UnheldIsJudged(metres, s, next);
    }
  }

  /** The anchor moves to the fix exactly when it is the first, when the ordinary filter
      takes it and it is not uncertain, or when it is the third corroborated one. */
  lemma AnchorMovesExactly(metres: Distance, s: Presence, next: Report)
    requires EvidenceTrue(metres, s)
    ensures var s' := Next(metres, s, next); var ordinary := BackendPlausible(metres, Reference(s), next.sample);
      s'.anchor ==
        if s.anchor.None? || (ordinary && next.motion != Uncertain)
           || (!ordinary && Corroborated(metres, s'.turns, 3))
        then Some(next.sample) else Reference(s)
  {
    AcceptedExactlyOnThree(metres, s, next);
  }

  /** Reports of lost GNSS never move an anchor, however many there are: a later fix is
      judged against the place, speed and time of the last good one. */
  lemma {:induction false} LossNeverMovesTheAnchor(metres: Distance, s: Presence, reports: seq<Report>)
    requires EvidenceTrue(metres, s) && s.anchor.Some?
    requires forall i :: 0 <= i < |reports| ==> reports[i].motion == Uncertain
    ensures var anchor := Run(metres, s, reports).anchor;
      anchor.Some? && anchor.value.(hdop := None) == s.anchor.value.(hdop := None)
    decreases |reports|
  {
    if reports != [] {
      AnchorMovesExactly(metres, s, reports[0]);
      AcceptedExactlyOnThree(metres, s, reports[0]);
      LossNeverMovesTheAnchor(metres, Next(metres, s, reports[0]), reports[1..]);
    }
  }

  function Reports(turns: seq<Turn>): seq<Report>
  {
    seq(|turns|, i requires 0 <= i < |turns| => turns[i].next)
  }

  lemma {:induction false} RunKeepsEvidence(metres: Distance, s: Presence, reports: seq<Report>)
    requires EvidenceTrue(metres, s)
    ensures EvidenceTrue(metres, Run(metres, s, reports))
    decreases |reports|
  {
    if reports != [] {
      AcceptedExactlyOnThree(metres, s, reports[0]);
      RunKeepsEvidence(metres, Next(metres, s, reports[0]), reports[1..]);
    }
  }

  lemma NextListsReport(metres: Distance, s: Presence, next: Report)
    ensures Reports(Next(metres, s, next).turns) == Reports(s.turns) + [next]
  {
  }

  lemma {:induction false} RunListsReports(metres: Distance, s: Presence, reports: seq<Report>)
    ensures Reports(Run(metres, s, reports).turns) == Reports(s.turns) + reports
    decreases |reports|
  {
    if reports == [] {
      assert Reports(s.turns) + [] == Reports(s.turns);
    } else {
      NextListsReport(metres, s, reports[0]);
      RunListsReports(metres, Next(metres, s, reports[0]), reports[1..]);
      assert Reports(s.turns) + [reports[0]] + reports[1..] == Reports(s.turns) + reports;
    }
  }

  /** Three corroborated turns, spelled out. */
  predicate ThreeInARow(metres: Distance, reports: seq<Report>)
  {
    var n := |reports|;
    && n >= 3 && Usable(reports[n - 3]) && Usable(reports[n - 2]) && Usable(reports[n - 1])
    && Coherent(metres, reports[n - 3], reports[n - 2]) && Coherent(metres, reports[n - 2], reports[n - 1])
  }

  lemma CorroboratedMeansThree(metres: Distance, turns: seq<Turn>)
    ensures Corroborated(metres, turns, 3) ==> ThreeInARow(metres, Reports(turns))
  {
    if Corroborated(metres, turns, 3) {
      var n := |turns|;
      var shorter := turns[..n - 1];
      assert Corroborated(metres, shorter, 2) && shorter[n - 2] == turns[n - 2] && shorter[n - 3] == turns[n - 3];
      var shortest := shorter[..n - 2];
      assert Corroborated(metres, shortest, 1) && shortest[n - 3] == turns[n - 3];
    }
  }

  /** In any run, a fix outside the capped envelope that moves the anchor is the
      last of three consecutive usable fixes, each 0.5 to 5 s after and plausible
      from the one before: a single outlier never moves the marker. */
  lemma OutlierNeverMovesTheAnchor(metres: Distance, reports: seq<Report>, next: Report)
    ensures var s := Run(metres, ABSENT, reports);
      !BackendPlausible(metres, Reference(s), next.sample) && Next(metres, s, next).anchor != Reference(s) ==>
        Next(metres, s, next).anchor == Some(next.sample) && ThreeInARow(metres, reports + [next])
  {
    var s := Run(metres, ABSENT, reports);
    RunKeepsEvidence(metres, ABSENT, reports);
    RunListsReports(metres, ABSENT, reports);
    assert Reports(ABSENT.turns) + reports == reports;
    AcceptedExactlyOnThree(metres, s, next);
    NextListsReport(metres, s, next);
    CorroboratedMeansThree(metres, Next(metres, s, next).turns);
  }
}
