/** How many attempted writes the checkpoint journal is safe for: generations are
    compared by signed difference, which is right for half a cycle of numbers. */
module CheckpointBound {
  import opened Wrappers
  import opened Words
  import opened CheckpointJournal
  import opened CheckpointRuns

  /** Generation numbers never outrun the number of attempted writes. */
  ghost predicate NumbersBounded<S>(w: World<S>)
  {
    (w.ram.ready ==> w.current <= |w.log|) && forall k :: 0 <= k < |w.log| ==> w.log[k].number <= k + 1
  }

  lemma StepKeepsNumbersBounded<S>(w: World<S>, perPage: nat, e: Event<S>)
    requires Shaped(w, perPage) && NumbersBounded(w)
    ensures NumbersBounded(Step(w, perPage, e))
  {
  }

  /** Up to 2^31 attempts no stored number has wrapped and all are in reach. */
  lemma FewNumbersAreInReach<S>(w: World<S>, perPage: nat)
    requires Inv(w, perPage) && NumbersBounded(w) && |w.log| <= HALF
    ensures InWindow(w)
  {
    forall m, i | Newest(w, m) && Readable(w, i) ensures InReach(Number(w, m), Number(w, i)) {
      assert 0 < Number(w, i) <= HALF && 0 < Number(w, m) <= HALF;
      UnwrappedYet(Number(w, i));
      UnwrappedYet(Number(w, m));
    }
  }

  lemma UnwrappedYet(n: nat)
    requires 0 < n < WORD
    ensures Wrapped(n) == n
  {
    QuotientOf(0, n - 1, WORD - 1);
  }

  lemma {:induction false} FewAttemptsStayInWindow<S>(w: World<S>, perPage: nat, events: seq<Event<S>>)
    requires Inv(w, perPage) && NumbersBounded(w) && |Run(w, perPage, events).log| <= HALF
    ensures RunInWindow(w, perPage, events) && NumbersBounded(Run(w, perPage, events))
    decreases |events|
  {
    if events != [] {
      FewNumbersAreInReach(w, perPage);
      StepKeepsInv(w, perPage, events[0]);
      StepKeepsNumbersBounded(w, perPage, events[0]);
      FewAttemptsStayInWindow(Step(w, perPage, events[0]), perPage, events[1..]);
    }
  }

  /** Crash safety without a condition on the flash: any run from factory state with
      at most 2^31 attempted writes, however many other steps it has, recovers. */
  lemma FewAttemptsRecover<S>(w0: World<S>, perPage: nat, events: seq<Event<S>>)
    requires Blank(w0, perPage) && |Run(w0, perPage, events).log| <= HALF
    ensures Recovers(Run(w0, perPage, events), perPage)
  {
    BlankHasInv(w0, perPage);
    FewAttemptsStayInWindow(w0, perPage, events);
    RunKeepsInv(w0, perPage, events);
    FewNumbersAreInReach(Run(w0, perPage, events), perPage);
    RecoversInWindow(Run(w0, perPage, events), perPage);
  }

  const GOOD := Faults(true, Erased, Written)
  const UNCONFIRMED := Faults(true, Erased, WriteFailed(New))

  /** An unconfirmed write, and the append that then skips the protected page. */
  function Laps<S>(sample: S, k: nat): (events: seq<Event<S>>)
    ensures |events| == 2 * k
  {
    if k == 0 then [] else Laps(sample, k - 1) + [Append(sample, UNCONFIRMED), Append(sample, GOOD)]
  }

  /** `a` confirmed, 2^31 - 1 unconfirmed writes, `c` confirmed: 2^31 + 1 attempts. */
  function LostRun<S>(a: S, c: S): seq<Event<S>>
  {
    [Reboot(None), Append(a, GOOD)] + Laps(c, HALF - 1) + [Append(c, GOOD)]
  }

  lemma {:induction false} RunChains<S>(w: World<S>, perPage: nat, first: seq<Event<S>>, second: seq<Event<S>>)
    requires Shaped(w, perPage)
    ensures Run(w, perPage, first + second) == Run(Run(w, perPage, first), perPage, second)
    decreases |first|
  {
    if first == [] {
      assert first + second == second;
    } else {
      assert (first + second)[1..] == first[1..] + second;
      RunChains(Step(w, perPage, first[0]), perPage, first[1..], second);
    }
  }

  lemma RunOfOne<S>(w: World<S>, perPage: nat, e: Event<S>)
    requires Shaped(w, perPage)
    ensures Run(w, perPage, [e]) == Step(w, perPage, e)
  {
    assert [e][1..] == [];
  }

  lemma RunOfTwo<S>(w: World<S>, perPage: nat, e: Event<S>, f: Event<S>)
    requires Shaped(w, perPage)
    ensures Run(w, perPage, [e, f]) == Step(Step(w, perPage, e), perPage, f)
  {
    assert [e, f][1..] == [f];
    RunOfOne(Step(w, perPage, e), perPage, f);
  }

  /** On two one-record pages: `a` confirmed in slot 0, the cursor on slot 1. */
  ghost predicate Lapped<S>(w: World<S>, a: S, k: nat)
  {
    Shaped(w, 1) && |w.flash| == 2 && w.flash[0] == Sealed(1, a) &&
    w.ram == Ram(true, true, Wrapped(k + 1), 1, 0, a) && w.current == k + 1 && |w.log| == k + 1
  }

  lemma LapGoesOn<S>(w: World<S>, a: S, c: S, k: nat)
    requires Lapped(w, a, k)
    ensures Lapped(Run(w, 1, [Append(c, UNCONFIRMED), Append(c, GOOD)]), a, k + 1)
  {
    WrappedNext(k + 1);
    RunOfTwo(w, 1, Append(c, UNCONFIRMED), Append(c, GOOD));
  }

  lemma {:induction false} LapsGoOn<S>(w: World<S>, a: S, c: S, k: nat)
    requires Lapped(w, a, 0)
    ensures Lapped(Run(w, 1, Laps(c, k)), a, k)
  {
    if k > 0 {
      LapsGoOn(w, a, c, k - 1);
      RunChains(w, 1, Laps(c, k - 1), [Append(c, UNCONFIRMED), Append(c, GOOD)]);
      LapGoesOn(Run(w, 1, Laps(c, k - 1)), a, c, k - 1);
    }
  }

  lemma LostRunStarts<S>(w0: World<S>, a: S)
    requires Blank(w0, 1) && |w0.flash| == 2
    ensures Lapped(Run(w0, 1, [Reboot(None), Append(a, GOOD)]), a, 0)
  {
    RunOfTwo(w0, 1, Reboot(None), Append(a, GOOD));
    var initial := w0.ram.latest;
    assert Scan(w0.flash, 1, initial) == Observe(Scan(w0.flash, 0, initial), w0.flash[0], 0);
    assert Scan(w0.flash, 2, initial) == Cursor(false, 0, NO_INDEX, initial);
  }

  lemma LostRunEnds<S>(w: World<S>, a: S, c: S)
    requires Lapped(w, a, HALF - 1) && a != c
    ensures var end := Run(w, 1, [Append(c, GOOD)]);
      && |end.log| == HALF + 1 && end.log[HALF] == Attempt(HALF + 1, c, true)
      && Initialized(end.ram, end.flash, 1, None).latest == a && !Recovers(end, 1)
  {
    WrappedNext(HALF);
    UnwrappedYet(HALF + 1);
    RunOfOne(w, 1, Append(c, GOOD));
    var end := Run(w, 1, [Append(c, GOOD)]);
    assert end.flash == [Sealed(1, a), Sealed(HALF + 1, c)];
    var initial := end.ram.latest;
    assert Scan(end.flash, 1, initial) == Observe(Scan(end.flash, 0, initial), end.flash[0], 0);
    assert S32(HALF + 1 - 1) == -HALF;
    assert Scan(end.flash, 2, initial) == Cursor(true, 1, 0, a);
    assert end.log[HALF].confirmed;
  }

  /** One attempt more and a confirmed record can be lost: `append` returns true
      for `c` as number 2^31 + 1, and the next `initialize` recovers `a`. */
  lemma ConfirmedRecordLostAfterHalfCycle<S>(w0: World<S>, a: S, c: S)
    requires Blank(w0, 1) && |w0.flash| == 2 && a != c
    ensures var end := Run(w0, 1, LostRun(a, c));
      && |end.log| == HALF + 1 && end.log[HALF] == Attempt(HALF + 1, c, true)
      && Initialized(end.ram, end.flash, 1, None).latest == a && !Recovers(end, 1)
  {
    var start: seq<Event<S>> := [Reboot(None), Append(a, GOOD)];
    LostRunStarts(w0, a);
    RunChains(w0, 1, start, Laps(c, HALF - 1));
    LapsGoOn(Run(w0, 1, start), a, c, HALF - 1);
    RunChains(w0, 1, start + Laps(c, HALF - 1), [Append(c, GOOD)]);
    LostRunEnds(Run(w0, 1, start + Laps(c, HALF - 1)), a, c);
  }

  /** Every run from factory state that attempts at most n writes recovers. */
  ghost predicate SafeFor<S(!new)>(n: nat)
  {
    forall w0: World<S>, perPage: nat, events: seq<Event<S>> ::
      Blank(w0, perPage) && |Run(w0, perPage, events).log| <= n ==> Recovers(Run(w0, perPage, events), perPage)
  }

  /** The exact bound: crash safety holds for all runs of at most n attempted writes
      if and only if n is at most 2^31. */
  lemma SafeExactlyForHalfCycle<S(!new)>(a: S, c: S, n: nat)
    requires a != c
    ensures SafeFor<S>(n) <==> n <= HALF
  {
    if n <= HALF {
      forall w0: World<S>, perPage: nat, events: seq<Event<S>>
        | Blank(w0, perPage) && |Run(w0, perPage, events).log| <= n
        ensures Recovers(Run(w0, perPage, events), perPage)
      {
        FewAttemptsRecover(w0, perPage, events);
      }
    } else {
      var w0: World<S> := World([Unreadable, Unreadable], Ram(false, false, 0, 0, NO_INDEX, a), [], [0, 0], 0, -1);
      ConfirmedRecordLostAfterHalfCycle(w0, a, c);
    }
  }
}
