/** Progress of the checkpoint journal: flash that fails in one place does not stop
    checkpoints from being committed elsewhere. */
module CheckpointProgress {
  import opened Wrappers
  import opened Words
  import opened CheckpointJournal
  import opened CheckpointRuns

  /** One call of `append`, with how the codec and the flash behave in it. */
  datatype Try<+S> = Try(sample: S, faults: Faults)

  /** A ready journal, wherever its cursor and its latest record are. */
  ghost predicate Ready<S>(ram: Ram<S>, count: nat, perPage: nat)
  {
    && perPage > 0 && Usable(count, perPage) && ram.ready && ram.writeIndex < count
    && (ram.found ==> ram.latestIndex < count)
  }

  /** One of the calls returns true. */
  ghost predicate Commits<S>(ram: Ram<S>, flash: seq<Slot<S>>, perPage: nat, tries: seq<Try<S>>)
    requires Ready(ram, |flash|, perPage)
    decreases |tries|
  {
    tries != [] &&
    var r := AppendResult(ram, flash, perPage, tries[0].sample, tries[0].faults);
    r.ok || Commits(r.ram, r.flash, perPage, tries[1..])
  }

  /** Records are always sealed, and erases and writes fail on page `bad` only. */
  predicate Confined<S>(ram: Ram<S>, perPage: nat, faults: Faults, bad: nat)
    requires perPage > 0
  {
    faults.sealOk && (ram.writeIndex / perPage != bad ==> faults.erase.Erased? && faults.write.Written?)
  }

  ghost predicate OneBadPage<S>(ram: Ram<S>, flash: seq<Slot<S>>, perPage: nat, tries: seq<Try<S>>, bad: nat)
    requires Ready(ram, |flash|, perPage)
    decreases |tries|
  {
    tries == [] ||
    (Confined(ram, perPage, tries[0].faults, bad) &&
     var r := AppendResult(ram, flash, perPage, tries[0].sample, tries[0].faults);
     OneBadPage(r.ram, r.flash, perPage, tries[1..], bad))
  }

  // ------------------------------------------------------------ where it goes

  function NextPageOf(page: nat, pages: nat): nat
  {
    if page + 1 == pages then 0 else page + 1
  }

  /** A cursor lies in one of the pages, and the page ends inside the ring. */
  lemma PageInRange(index: nat, perPage: nat, count: nat)
    requires perPage > 0 && Usable(count, perPage) && index < count
    ensures var q, pages := index / perPage, count / perPage;
      && q < pages && pages >= 2 && count == pages * perPage
      && (q + 1) * perPage <= count && (q + 1 < pages ==> (q + 1) * perPage < count)
  {
    var q, pages := index / perPage, count / perPage;
    if q >= pages { MultiplyMonotone(pages, q, perPage); }
    if pages < 2 { MultiplyMonotone(pages, 1, perPage); }
    MultiplyMonotone(q + 1, pages, perPage);
    if q + 1 < pages { MultiplyMonotone(q + 2, pages, perPage); Distribute(q + 1, perPage); }
  }

  /** From a page's last slot the cursor reaches the start of the next page. */
  lemma PageEnds(q: nat, end: nat, perPage: nat, count: nat)
    requires perPage > 0 && q + 1 <= count / perPage && count == count / perPage * perPage
    requires end == (q + 1) * perPage && (q + 1 < count / perPage ==> end < count)
    ensures var next := end % count;
      next < count && next % perPage == 0 && next / perPage == NextPageOf(q, count / perPage)
  {
    QuotientOf(q + 1, 0, perPage);
    QuotientOf(0, 0, perPage);
    RingWraps(0, end, count);
  }

  lemma PageEnd(index: nat, more: nat, perPage: nat)
    requires perPage > 0 && index % perPage + more == perPage
    ensures index + more == (index / perPage + 1) * perPage
  {
    Distribute(index / perPage, perPage);
  }

  /** Skipping a page leads to the start of the next one. */
  lemma SkipLeads(index: nat, perPage: nat, count: nat)
    requires perPage > 0 && Usable(count, perPage) && index < count && index % perPage == 0
    ensures var next := (index + perPage) % count;
      next < count && next % perPage == 0 && next / perPage == NextPageOf(index / perPage, count / perPage)
  {
    PageInRange(index, perPage, count);
    PageEnd(index, perPage, perPage);
    PageEnds(index / perPage, index + perPage, perPage, count);
  }

  lemma StepInPage(index: nat, perPage: nat, count: nat)
    requires perPage > 0 && Usable(count, perPage) && index < count && index % perPage + 1 < perPage
    ensures var next := (index + 1) % count;
      next < count && next / perPage == index / perPage && next % perPage == index % perPage + 1
  {
    PageInRange(index, perPage, count);
    PageEnd(index, perPage - index % perPage, perPage);
    RingWraps(index, 1, count);
    SlotAfter(index, perPage);
  }

  lemma SlotAfter(index: nat, perPage: nat)
    requires perPage > 0 && index % perPage + 1 < perPage
    ensures (index + 1) / perPage == index / perPage && (index + 1) % perPage == index % perPage + 1
  {
    QuotientOf(index / perPage, index % perPage + 1, perPage);
  }

  /** So does stepping over a page's last slot. */
  lemma StepOffPage(index: nat, perPage: nat, count: nat)
    requires perPage > 0 && Usable(count, perPage) && index < count && index % perPage + 1 == perPage
    ensures var next := (index + 1) % count;
      next < count && next % perPage == 0 && next / perPage == NextPageOf(index / perPage, count / perPage)
  {
    PageInRange(index, perPage, count);
    PageEnd(index, 1, perPage);
    PageEnds(index / perPage, index + 1, perPage, count);
  }

  // ------------------------------------------------------------------ progress

  ghost predicate ProtectedPage<S>(ram: Ram<S>, perPage: nat, page: nat)
    requires perPage > 0
  {
    ram.found && ram.latestIndex / perPage == page
  }

  /** How many calls it takes at most from page q, which is not the bad one. */
  ghost function FromGoodPage<S>(ram: Ram<S>, perPage: nat, q: nat, atStart: bool, pages: nat, bad: nat): nat
    requires perPage > 0
  {
    if !atStart || !ProtectedPage(ram, perPage, q) then 1
    else if NextPageOf(q, pages) != bad then 2
    else perPage + 2
  }

  /** ... from wherever the cursor is. */
  ghost function CallsNeeded<S>(ram: Ram<S>, perPage: nat, count: nat, bad: nat): nat
    requires Ready(ram, count, perPage)
  {
    var q, r, pages := ram.writeIndex / perPage, ram.writeIndex % perPage, count / perPage;
    if q != bad then FromGoodPage(ram, perPage, q, r == 0, pages, bad)
    else if r == 0 && ProtectedPage(ram, perPage, q) then 2
    else perPage - r + if ProtectedPage(ram, perPage, NextPageOf(bad, pages)) then 2 else 1
  }

  lemma NextPagesDiffer(q: nat, pages: nat)
    requires q < pages && pages >= 3
    ensures NextPageOf(q, pages) != q && NextPageOf(NextPageOf(q, pages), pages) != q
    ensures forall p: nat :: p < pages && NextPageOf(p, pages) == NextPageOf(q, pages) ==> p == q
  {
  }

  lemma SkipComesNearer<S>(ram: Ram<S>, perPage: nat, count: nat, bad: nat)
    requires Ready(ram, count, perPage) && count / perPage >= 3 && bad < count / perPage
    requires ram.writeIndex % perPage == 0
    requires ram.writeIndex / perPage == bad || ProtectedPage(ram, perPage, ram.writeIndex / perPage)
    ensures var after := ram.(writeIndex := (ram.writeIndex + perPage) % count);
      Ready(after, count, perPage) && CallsNeeded(after, perPage, count, bad) < CallsNeeded(ram, perPage, count, bad)
  {
    PageInRange(ram.writeIndex, perPage, count);
    NextPagesDiffer(ram.writeIndex / perPage, count / perPage);
    NextPagesDiffer(bad, count / perPage);
    SkipLeads(ram.writeIndex, perPage, count);
  }

  lemma AdvanceComesNearer<S>(ram: Ram<S>, generation: uint32, perPage: nat, count: nat, bad: nat)
    requires Ready(ram, count, perPage) && count / perPage >= 3 && bad < count / perPage
    requires ram.writeIndex / perPage == bad && (ram.writeIndex % perPage == 0 ==> !ProtectedPage(ram, perPage, bad))
    ensures var after := ram.(generation := generation, writeIndex := (ram.writeIndex + 1) % count);
      Ready(after, count, perPage) && CallsNeeded(after, perPage, count, bad) < CallsNeeded(ram, perPage, count, bad)
  {
    NextPagesDiffer(bad, count / perPage);
    if ram.writeIndex % perPage + 1 < perPage {
      StepInPage(ram.writeIndex, perPage, count);
    } else {
      StepOffPage(ram.writeIndex, perPage, count);
    }
  }

  /** A call that returns false leaves the latest record alone and brings one that
      returns true nearer. */
  lemma FailureComesNearer<S>(ram: Ram<S>, flash: seq<Slot<S>>, perPage: nat, t: Try<S>, bad: nat)
    requires Ready(ram, |flash|, perPage) && |flash| >= 3 * perPage && bad < |flash| / perPage
    requires Confined(ram, perPage, t.faults, bad) && !AppendResult(ram, flash, perPage, t.sample, t.faults).ok
    ensures var after := AppendResult(ram, flash, perPage, t.sample, t.faults).ram;
      Ready(after, |flash|, perPage)
      && CallsNeeded(after, perPage, |flash|, bad) < CallsNeeded(ram, perPage, |flash|, bad)
  {
    ThreePages(perPage, |flash|);
    if ram.writeIndex % perPage == 0 && (Protected(ram, perPage) || !t.faults.erase.Erased?) {
      SkipComesNearer(ram, perPage, |flash|, bad);
    } else {
      AdvanceComesNearer(ram, NextNonZero(ram.generation), perPage, |flash|, bad);
    }
  }

  lemma ThreePages(perPage: nat, count: nat)
    requires perPage > 0 && count % perPage == 0 && count >= 3 * perPage
    ensures count / perPage >= 3
  {
    var pages := count / perPage;
    if pages < 3 { MultiplyMonotone(pages, 2, perPage); }
  }

  lemma CallsAreFew<S>(ram: Ram<S>, perPage: nat, count: nat, bad: nat)
    requires Ready(ram, count, perPage)
    ensures 1 <= CallsNeeded(ram, perPage, count, bad) <= perPage + 2
  {
  }

  lemma {:induction false} CommitsWithin<S>(
      ram: Ram<S>, flash: seq<Slot<S>>, perPage: nat, tries: seq<Try<S>>, bad: nat)
    requires Ready(ram, |flash|, perPage) && |flash| >= 3 * perPage && bad < |flash| / perPage
    requires OneBadPage(ram, flash, perPage, tries, bad) && |tries| >= CallsNeeded(ram, perPage, |flash|, bad)
    ensures Commits(ram, flash, perPage, tries)
    decreases |tries|
  {
    CallsAreFew(ram, perPage, |flash|, bad);
    var r := AppendResult(ram, flash, perPage, tries[0].sample, tries[0].faults);
    if !r.ok {
      FailureComesNearer(ram, flash, perPage, tries[0], bad);
      CommitsWithin(r.ram, r.flash, perPage, tries[1..], bad);
    }
  }

  /** On at least three pages, if erases and writes fail on one page only, however
      often and in whatever way, one of any `perPage + 2` calls in a row commits,
      wherever the cursor and the latest record are. */
  lemma OneBadPageNeverBlocks<S>(w: World<S>, perPage: nat, tries: seq<Try<S>>, bad: nat)
    requires Inv(w, perPage) && w.ram.ready && |w.flash| >= 3 * perPage && bad < |w.flash| / perPage
    requires OneBadPage(w.ram, w.flash, perPage, tries, bad) && |tries| >= perPage + 2
    ensures Commits(w.ram, w.flash, perPage, tries)
  {
    CallsAreFew(w.ram, perPage, |w.flash|, bad);
    CommitsWithin(w.ram, w.flash, perPage, tries, bad);
  }

  /** If only that page's erases fail and every write succeeds, one of any three
      calls commits. */
  lemma FailingErasesNeverBlock<S>(w: World<S>, perPage: nat, tries: seq<Try<S>>, bad: nat)
    requires Inv(w, perPage) && w.ram.ready && |w.flash| >= 3 * perPage && bad < |w.flash| / perPage
    requires OneBadPage(w.ram, w.flash, perPage, tries, bad) && |tries| >= 3
    requires forall i :: 0 <= i < |tries| ==> tries[i].faults.write.Written?
    ensures Commits(w.ram, w.flash, perPage, tries)
  {
    WrittenCommitsWithin(w.ram, w.flash, perPage, tries, bad);
  }

  /** Calls needed when every write succeeds: an unprotected page with its erase
      working is enough. */
  ghost function ErasesNeeded<S>(ram: Ram<S>, perPage: nat, count: nat, bad: nat): nat
    requires Ready(ram, count, perPage)
  {
    var q, r, pages := ram.writeIndex / perPage, ram.writeIndex % perPage, count / perPage;
    if r != 0 || (q != bad && !ProtectedPage(ram, perPage, q)) then 1
    else if q == bad then if ProtectedPage(ram, perPage, NextPageOf(q, pages)) then 3 else 2
    else if NextPageOf(q, pages) == bad then 3 else 2
  }

  lemma WrittenFailureComesNearer<S>(ram: Ram<S>, flash: seq<Slot<S>>, perPage: nat, t: Try<S>, bad: nat)
    requires Ready(ram, |flash|, perPage) && |flash| >= 3 * perPage && bad < |flash| / perPage
    requires Confined(ram, perPage, t.faults, bad) && t.faults.write.Written?
    requires !AppendResult(ram, flash, perPage, t.sample, t.faults).ok
    ensures var after := AppendResult(ram, flash, perPage, t.sample, t.faults).ram;
      Ready(after, |flash|, perPage)
      && ErasesNeeded(after, perPage, |flash|, bad) < ErasesNeeded(ram, perPage, |flash|, bad)
  {
    var q, pages := ram.writeIndex / perPage, |flash| / perPage;
    PageInRange(ram.writeIndex, perPage, |flash|);
    ThreePages(perPage, |flash|);
    NextPagesDiffer(q, pages);
    NextPagesDiffer(bad, pages);
    if ram.writeIndex % perPage == 0 { SkipLeads(ram.writeIndex, perPage, |flash|); }
  }

  lemma {:induction false} WrittenCommitsWithin<S>(
      ram: Ram<S>, flash: seq<Slot<S>>, perPage: nat, tries: seq<Try<S>>, bad: nat)
    requires Ready(ram, |flash|, perPage) && |flash| >= 3 * perPage && bad < |flash| / perPage
    requires OneBadPage(ram, flash, perPage, tries, bad)
    requires forall i :: 0 <= i < |tries| ==> tries[i].faults.write.Written?
    requires |tries| >= ErasesNeeded(ram, perPage, |flash|, bad)
    ensures Commits(ram, flash, perPage, tries)
    decreases |tries|
  {
    var r := AppendResult(ram, flash, perPage, tries[0].sample, tries[0].faults);
    if !r.ok {
      WrittenFailureComesNearer(ram, flash, perPage, tries[0], bad);
      WrittenCommitsWithin(r.ram, r.flash, perPage, tries[1..], bad);
    }
  }

  /** A record that cannot be sealed costs nothing: no erase, no slot, no number. */
  lemma UnsealedChangesNothing<S>(ram: Ram<S>, flash: seq<Slot<S>>, perPage: nat, sample: S, faults: Faults)
    requires Ready(ram, |flash|, perPage) && !faults.sealOk
    ensures AppendResult(ram, flash, perPage, sample, faults) == Appended(false, ram, flash)
  {
  }

  /** A slot whose write failed is never tried again before the cursor has been round:
      the next call uses another slot and another generation. */
  lemma RetryMovesOn<S>(ram: Ram<S>, flash: seq<Slot<S>>, perPage: nat, sample: S, faults: Faults)
    requires Ready(ram, |flash|, perPage) && Writes(ram, perPage, faults)
    ensures var after := AppendResult(ram, flash, perPage, sample, faults).ram;
      after.writeIndex != ram.writeIndex && after.generation != ram.generation
  {
    RingWraps(ram.writeIndex, 1, |flash|);
  }
}
