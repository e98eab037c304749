/** Corroboration of satellite time before it may set the clock. */
module GnssCorroboration {
  import opened Words

  function AbsoluteDifference(left: int, right: int): nat
  {
    if left >= right then left - right else right - left
  }

  datatype State = State(epoch: int, monotonic: uint32, count: nat)

  predicate Duplicate(s: State, now: uint32)
  {
    s.count > 0 && U32(now - s.monotonic) < 500
  }

  function Observed(s: State, candidate: int, now: uint32): (State, bool)
  {
    var age := U32(now - s.monotonic);
    if s.count > 0 && age < 500 then (s, false)
    else
      var coherent := s.count > 0 && age <= 3000 && candidate > s.epoch &&
        AbsoluteDifference(candidate, s.epoch + age) <= 250;
      var count := if !coherent then 1 else if s.count < 3 then s.count + 1 else 3;
      (State(candidate, now, count), count >= 3)
  }

  class GnssCorroboration {
    var epoch: int
    var monotonic: uint32
    var count: nat

    function View(): State
      reads this
    {
      State(epoch, monotonic, count)
    }

    constructor ()
      ensures View() == State(0, 0, 0)
    {
      epoch, monotonic, count := 0, 0, 0;
    }

    method Observe(candidate: int, now: uint32) returns (corroborated: bool)
      modifies this
      ensures (View(), corroborated) == Observed(old(View()), candidate, now)
    {
      var age := U32(now - monotonic);
      if count > 0 && age < 500 { return false; }
      var coherent := count > 0 && age <= 3000 && candidate > epoch &&
        AbsoluteDifference(candidate, epoch + age) <= 250;
      if coherent {
        if count < 3 { count := count + 1; } else { count := 3; }
      } else {
        count := 1;
      }
      epoch, monotonic := candidate, now;
      return count >= 3;
    }
  }

  // -------------------------------------------------------------- runs in time

  /** A candidate epoch observed at an unbounded monotonic time. */
  datatype Reading = Reading(time: int, epoch: int)

  /** The state, the readings kept so far and the time of the last call. */
  datatype Watch = Watch(state: State, kept: seq<Reading>, at: int)

  function Seen(w: Watch, r: Reading): (Watch, bool)
  {
    var (s, corroborated) := Observed(w.state, r.epoch, U32(r.time));
    (Watch(s, if Duplicate(w.state, U32(r.time)) then w.kept else w.kept + [r], r.time), corroborated)
  }

  /** The epoch advanced with the monotonic clock, half a second to three seconds later. */
  predicate Advances(earlier: Reading, later: Reading)
  {
    var age := later.time - earlier.time;
    500 <= age <= 3000 && later.epoch > earlier.epoch && AbsoluteDifference(later.epoch - earlier.epoch, age) <= 250
  }

  /** The last `n` readings kept each advanced with the clock from the one before. */
  predicate Advancing(kept: seq<Reading>, n: nat)
    decreases n
  {
    n <= |kept| && (n <= 1 || (Advances(kept[|kept| - 2], kept[|kept| - 1]) && Advancing(kept[..|kept| - 1], n - 1)))
  }

  /** The counter is exactly how far back the kept readings advance, up to three,
      and a dropped reading is younger than half a second. */
  predicate WatchTrue(w: Watch)
  {
    if w.kept == [] then w.state.count == 0
    else
      var last := w.kept[|w.kept| - 1];
      && last.time <= w.at < last.time + 500
      && w.state.epoch == last.epoch && w.state.monotonic == U32(last.time) && 1 <= w.state.count <= 3
      && Advancing(w.kept, w.state.count) && (w.state.count < 3 ==> !Advancing(w.kept, w.state.count + 1))
  }

  /** Time never runs backwards, and calls are closer than a wrap less half a second. */
  predicate OnCadence(w: Watch, r: Reading)
  {
    w.at <= r.time <= w.at + WORD - 500
  }

  lemma SeenStaysTrue(w: Watch, r: Reading)
    requires WatchTrue(w) && OnCadence(w, r)
    ensures WatchTrue(Seen(w, r).0)
    ensures Seen(w, r).1 <==> !Duplicate(w.state, U32(r.time)) && Advancing(Seen(w, r).0.kept, 3)
  {
    if w.kept == [] {
      assert Advancing([r], 1);
    } else {
      ElapsedBelowWrap(w.kept[|w.kept| - 1].time, r.time);
      if !Duplicate(w.state, U32(r.time)) { KeptStaysTrue(w, r); }
    }
  }

  /** A reading that is kept raises the count exactly when it advances from the last. */
  lemma AdvancingExtends(kept: seq<Reading>, r: Reading, n: nat)
    requires n >= 1
    ensures Advancing(kept + [r], n + 1) <==>
            kept != [] && Advances(kept[|kept| - 1], r) && Advancing(kept, n)
  {
    var longer := kept + [r];
    assert longer[..|longer| - 1] == kept;
  }

  lemma ShorterAdvances(kept: seq<Reading>)
    requires Advancing(kept, 3)
    ensures Advancing(kept, 2)
  {
    assert Advancing(kept[..|kept| - 1], 2);
  }

  lemma KeptStaysTrue(w: Watch, r: Reading)
    requires WatchTrue(w) && OnCadence(w, r) && w.kept != [] && !Duplicate(w.state, U32(r.time))
    ensures WatchTrue(Seen(w, r).0)
    ensures Seen(w, r).1 <==> Advancing(Seen(w, r).0.kept, 3)
  {
    ElapsedBelowWrap(w.kept[|w.kept| - 1].time, r.time);
    AdvancingExtends(w.kept, r, 1);
    AdvancingExtends(w.kept, r, 2);
    AdvancingExtends(w.kept, r, w.state.count);
    if w.state.count == 3 { ShorterAdvances(w.kept); }
  }

  predicate AllOnCadence(w: Watch, rs: seq<Reading>)
    decreases |rs|
  {
    rs == [] || (OnCadence(w, rs[0]) && AllOnCadence(Seen(w, rs[0]).0, rs[1..]))
  }

  function Run(w: Watch, rs: seq<Reading>): Watch
    decreases |rs|
  {
    if rs == [] then w else Run(Seen(w, rs[0]).0, rs[1..])
  }

  lemma {:induction false} RunStaysTrue(w: Watch, rs: seq<Reading>)
    requires WatchTrue(w) && AllOnCadence(w, rs)
    ensures WatchTrue(Run(w, rs))
    decreases |rs|
  {
    if rs != [] {
      SeenStaysTrue(w, rs[0]);
      RunStaysTrue(Seen(w, rs[0]).0, rs[1..]);
    }
  }

  /** In any run on cadence, a reading is corroborated exactly when it is no duplicate
      and the last three readings kept, itself last, each advance with true time. */
  lemma CorroboratedExactlyOnThree(rs: seq<Reading>, start: int, r: Reading)
    requires AllOnCadence(Watch(State(0, 0, 0), [], start), rs)
    requires OnCadence(Run(Watch(State(0, 0, 0), [], start), rs), r)
    ensures var w := Run(Watch(State(0, 0, 0), [], start), rs);
      Seen(w, r).1 <==> !Duplicate(w.state, U32(r.time)) && Advancing(w.kept + [r], 3)
  {
    RunStaysTrue(Watch(State(0, 0, 0), [], start), rs);
    SeenStaysTrue(Run(Watch(State(0, 0, 0), [], start), rs), r);
  }
}
