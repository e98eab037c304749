/** Runs of the checkpoint journal: appends under arbitrary faults, and reboots.
    An interrupted append is a failed append followed by a reboot, because every
    flash content an interruption can leave is one a failure can leave. */
module CheckpointRuns {
  import opened Wrappers
  import opened Words
  import opened CheckpointJournal

  // ------------------------------------------------ wrapped generation numbers

  /** The stored generation of the n-th generation number: 1, 2, ..., 2^32 - 1, 1, ...
      (0 stands for "none yet"). */
  function Wrapped(n: nat): uint32
  {
    if n == 0 then 0 else (n - 1) % (WORD - 1) + 1
  }

  lemma WrappedNext(n: nat)
    ensures Wrapped(n + 1) == NextNonZero(Wrapped(n))
  {
    if n > 0 {
      var q, r := (n - 1) / (WORD - 1), (n - 1) % (WORD - 1);
      if r + 1 < WORD - 1 { QuotientOf(q, r + 1, WORD - 1); } else { QuotientOf(q + 1, 0, WORD - 1); }
    }
  }

  /** The signed 32-bit difference sees that `later` is later: they are less than
      2^31 apart, or less than 2^31 - 1 when the skipped value 0 lies between. */
  predicate InReach(later: nat, earlier: nat)
  {
    later - earlier < HALF - if Wrapped(later) < Wrapped(earlier) then 1 else 0
  }

  /** Two numbers closer than a whole cycle are compared rightly exactly in reach. */
  lemma SerialOrder(later: nat, earlier: nat)
    requires earlier > 0 && 0 < later - earlier < WORD - 1
    ensures S32(Wrapped(later) - Wrapped(earlier)) > 0 <==> InReach(later, earlier)
    ensures InReach(later, earlier) ==> S32(Wrapped(earlier) - Wrapped(later)) < 0
    ensures Wrapped(later) != Wrapped(earlier)
  {
    var cycle := WORD - 1;
    var q, r := (earlier - 1) / cycle, (earlier - 1) % cycle;
    var r' := r + (later - earlier);
    assert earlier - 1 == q * cycle + r;
    if r' < cycle {
      QuotientOf(q, r', cycle);
    } else {
      Distribute(q, cycle);
      QuotientOf(q + 1, r' - cycle, cycle);
    }
  }

  // ------------------------------------------------------------------ the scan

  /** `best` replaces `other` when scanned after it and stays when scanned before it. */
  predicate Beats<S>(best: Slot<S>, other: Slot<S>)
  {
    best.Sealed? && other.Sealed? &&
    S32(best.generation - other.generation) > 0 && S32(other.generation - best.generation) <= 0
  }

  ghost predicate BeatsAll<S>(best: Slot<S>, flash: seq<Slot<S>>)
  {
    forall i :: 0 <= i < |flash| && flash[i].Sealed? ==> flash[i] == best || Beats(best, flash[i])
  }

  lemma {:induction false} ScanKeepsBest<S>(flash: seq<Slot<S>>, best: Slot<S>, n: nat, initial: S)
    requires n <= |flash| && best.Sealed? && BeatsAll(best, flash)
    ensures var c := Scan(flash, n, initial);
      && (c.found ==> c.index < n && flash[c.index] == Sealed(c.generation, c.sample))
      && ((exists i :: 0 <= i < n && flash[i] == best) ==> c.found && flash[c.index] == best)
      && (!c.found ==> c.generation == 0 && forall i :: 0 <= i < n ==> flash[i].Unreadable?)
  {
    if n > 0 { ScanKeepsBest(flash, best, n - 1, initial); }
  }

  /** `number[i]` is the unwrapped generation number of the record in slot i. */
  ghost predicate Numbered<S>(flash: seq<Slot<S>>, number: seq<nat>)
  {
    |number| == |flash| &&
    forall i :: 0 <= i < |flash| && flash[i].Sealed? ==>
      number[i] > 0 && flash[i].generation == Wrapped(number[i])
  }

  /** Slot m holds the newest record, less than a cycle newer than every other. */
  ghost predicate NewestAt<S>(flash: seq<Slot<S>>, number: seq<nat>, m: nat)
    requires |number| == |flash|
  {
    m < |flash| && flash[m].Sealed? &&
    forall i :: 0 <= i < |flash| && flash[i].Sealed? && i != m ==> 0 < number[m] - number[i] < WORD - 1
  }

  ghost predicate AllInReach<S>(flash: seq<Slot<S>>, number: seq<nat>, m: nat)
    requires |number| == |flash| && m < |flash|
  {
    forall i :: 0 <= i < |flash| && flash[i].Sealed? ==> InReach(number[m], number[i])
  }

  lemma InReachBeats<S>(flash: seq<Slot<S>>, number: seq<nat>, m: nat)
    requires Numbered(flash, number) && NewestAt(flash, number, m) && AllInReach(flash, number, m)
    ensures BeatsAll(flash[m], flash)
  {
    forall i | 0 <= i < |flash| && flash[i].Sealed? && i != m ensures Beats(flash[m], flash[i]) {
      SerialOrder(number[m], number[i]);
    }
  }

  /** The scan ends on `best`. */
  predicate Finds<S(==)>(flash: seq<Slot<S>>, best: Slot<S>, initial: S)
  {
    var c := Scan(flash, |flash|, initial);
    c.found && Sealed(c.generation, c.sample) == best
  }

  /** The scan finds the newest record in every order of the slots exactly when
      that record is in reach of every other. */
  lemma ScanFindsNewestInEveryOrder<S(!new)>(flash: seq<Slot<S>>, number: seq<nat>, m: nat, initial: S)
    requires Numbered(flash, number) && NewestAt(flash, number, m)
    ensures (forall order: seq<Slot<S>> :: multiset(order) == multiset(flash) ==> Finds(order, flash[m], initial))
       <==> AllInReach(flash, number, m)
  {
    if AllInReach(flash, number, m) {
      InReachBeats(flash, number, m);
      forall order: seq<Slot<S>> | multiset(order) == multiset(flash) ensures Finds(order, flash[m], initial) {
        SameSlots(order, flash, flash[m]);
        ScanKeepsBest(order, flash[m], |order|, initial);
      }
    } else {
      var x :| 0 <= x < |flash| && flash[x].Sealed? && !InReach(number[m], number[x]);
      var order := StaleFirst(flash, number, m, x, initial);
      assert multiset(order) == multiset(flash) && !Finds(order, flash[m], initial);
    }
  }

  lemma SameSlots<S>(order: seq<Slot<S>>, flash: seq<Slot<S>>, best: Slot<S>)
    requires multiset(order) == multiset(flash) && best in flash && BeatsAll(best, flash)
    ensures best in order && BeatsAll(best, order)
  {
    assert best in multiset(flash);
    forall i | 0 <= i < |order| && order[i].Sealed? ensures order[i] == best || Beats(best, order[i]) {
      assert order[i] in multiset(order);
      assert order[i] in flash;
    }
  }

  /** `m` straight after a record out of its reach is passed over for good. */
  lemma StaleFirst<S>(flash: seq<Slot<S>>, number: seq<nat>, m: nat, x: nat, initial: S) returns (order: seq<Slot<S>>)
    requires Numbered(flash, number) && NewestAt(flash, number, m)
    requires x < |flash| && flash[x].Sealed? && !InReach(number[m], number[x])
    ensures multiset(order) == multiset(flash) && !Finds(order, flash[m], initial)
  {
    order := [flash[x], flash[m]];
    var rest := TwoToTheFront(flash, x, m);
    order := order + rest;
    forall i | 0 <= i < |order| && i != 1 && order[i].Sealed? ensures order[i].generation != flash[m].generation {
      var k: nat := x;
      if i > 0 {
        assert order[i] in rest;
        k :| k < |flash| && k != m && flash[k] == order[i];
      }
      SerialOrder(number[m], number[k]);
    }
    SerialOrder(number[m], number[x]);
    ScanPassesOver(order, flash[m], |order|, initial);
  }

  /** The slots other than x and m. */
  lemma TwoToTheFront<S>(flash: seq<Slot<S>>, x: nat, m: nat) returns (rest: seq<Slot<S>>)
    requires x < |flash| && m < |flash| && x != m
    ensures multiset([flash[x], flash[m]] + rest) == multiset(flash)
    ensures forall r :: r in rest ==> exists k :: 0 <= k < |flash| && k != m && flash[k] == r
  {
    var once := TakenOut(flash, m);
    var at := if x < m then x else x - 1;
    assert once[at] == flash[x];
    rest := TakenOut(once, at);
    FrontOf(flash[x], flash[m], rest);
    forall r | r in rest ensures exists k :: 0 <= k < |flash| && k != m && flash[k] == r {
      assert r in multiset(rest);
      assert r in once;
    }
  }

  lemma FrontOf<T>(x: T, y: T, rest: seq<T>)
    ensures multiset([x, y] + rest) == multiset([y]) + (multiset([x]) + multiset(rest))
  {
  }

  lemma TakenOut<S>(flash: seq<Slot<S>>, m: nat) returns (rest: seq<Slot<S>>)
    requires m < |flash|
    ensures |rest| == |flash| - 1
    ensures forall i {:trigger rest[i]} :: 0 <= i < |rest| ==> rest[i] == flash[if i < m then i else i + 1]
    ensures forall r :: r in rest ==> exists k :: 0 <= k < |flash| && k != m && flash[k] == r
    ensures multiset(flash) == multiset([flash[m]]) + multiset(rest)
  {
    rest := flash[..m] + flash[m + 1..];
    assert flash == flash[..m] + [flash[m]] + flash[m + 1..];
  }

  lemma {:induction false} ScanPassesOver<S>(flash: seq<Slot<S>>, best: Slot<S>, n: nat, initial: S)
    requires 2 <= n <= |flash| && flash[0].Sealed? && best.Sealed? && flash[1] == best
    requires S32(best.generation - flash[0].generation) <= 0
    requires forall i :: 0 <= i < |flash| && i != 1 && flash[i].Sealed? ==> flash[i].generation != best.generation
    ensures Scan(flash, n, initial).found && Scan(flash, n, initial).generation != best.generation
  {
    if n > 2 {
      ScanPassesOver(flash, best, n - 1, initial);
    } else {
      assert Scan(flash, 1, initial) == Observe(Scan(flash, 0, initial), flash[0], 0);
    }
  }

  // ------------------------------------------------------------------- history

  /** A write the journal attempted, with the answer `Append` gave for it. */
  datatype Attempt<+S> = Attempt(number: nat, sample: S, confirmed: bool)

  /** The journal with its whole history. `tag[i]` is the log position of the
      record in slot i, `current` the unwrapped `generation_`, and `anchor` the
      slot of the record last confirmed or recovered (-1: none yet). */
  datatype World<+S> = World(
    flash: seq<Slot<S>>, ram: Ram<S>, log: seq<Attempt<S>>, tag: seq<nat>, current: nat, anchor: int)

  datatype Event<+S> = Append(sample: S, faults: Faults) | Reboot(readFailure: Option<nat>)

  ghost predicate Readable<S>(w: World<S>, i: int)
  {
    0 <= i < |w.flash| && w.flash[i].Sealed?
  }

  ghost predicate Consistent<S>(w: World<S>)
  {
    |w.tag| == |w.flash| &&
    forall i {:trigger w.flash[i]} {:trigger w.tag[i]} :: Readable(w, i) ==>
      w.tag[i] < |w.log| &&
      w.log[w.tag[i]].number > 0 &&
      w.flash[i] == Sealed(Wrapped(w.log[w.tag[i]].number), w.log[w.tag[i]].sample)
  }

  ghost function Number<S>(w: World<S>, i: int): nat
    requires |w.tag| == |w.flash|
  {
    if Readable(w, i) && w.tag[i] < |w.log| then w.log[w.tag[i]].number else 0
  }

  /** Generation numbers order the stored records exactly as they were attempted. */
  ghost predicate Ordered<S>(w: World<S>)
    requires |w.tag| == |w.flash|
  {
    forall i, j :: Readable(w, i) && Readable(w, j) && i != j ==>
      w.tag[i] != w.tag[j] && (w.tag[i] < w.tag[j] <==> Number(w, i) < Number(w, j))
  }

  /** The anchor record is readable and no confirmed attempt is later than it. */
  ghost predicate Anchored<S>(w: World<S>)
    requires |w.tag| == |w.flash|
  {
    if w.anchor < 0 then forall k :: 0 <= k < |w.log| ==> !w.log[k].confirmed
    else Readable(w, w.anchor) && NoneConfirmedAfter(w.log, w.tag[w.anchor])
  }

  /** What the volatile fields say about the flash while the journal is ready. */
  ghost predicate Tracking<S>(w: World<S>, perPage: nat)
    requires perPage > 0 && |w.tag| == |w.flash|
  {
    w.ram.ready ==>
      && w.ram.writeIndex < |w.flash|
      && w.ram.generation == Wrapped(w.current)
      && (forall i :: Readable(w, i) ==> Number(w, i) <= w.current)
      && (w.ram.found <==> w.anchor >= 0)
      && (w.ram.found ==> w.ram.latestIndex == w.anchor && Readable(w, w.anchor))
      && (w.ram.found ==> w.flash[w.anchor].sample == w.ram.latest)
      && (w.ram.found && w.ram.writeIndex % perPage != 0 && w.ram.writeIndex / perPage == w.anchor / perPage ==>
        w.ram.writeIndex > w.anchor)
  }

  ghost predicate Inv<S>(w: World<S>, perPage: nat)
  {
    perPage > 0 && Usable(|w.flash|, perPage) &&
    Consistent(w) && Ordered(w) && Anchored(w) && Tracking(w, perPage)
  }

  /** The append reaches its slot: the journal is ready, the record is sealed and
      the page under the cursor is neither protected nor unerasable. */
  ghost predicate Writes<S>(ram: Ram<S>, perPage: nat, faults: Faults)
    requires perPage > 0
  {
    ram.ready && faults.sealOk &&
    (ram.writeIndex % perPage == 0 ==> !Protected(ram, perPage) && faults.erase.Erased?)
  }

  /** What every step keeps, whatever the stored generations. */
  ghost predicate Shaped<S>(w: World<S>, perPage: nat)
  {
    perPage > 0 && Usable(|w.flash|, perPage) && |w.tag| == |w.flash| && (w.ram.ready ==> w.ram.writeIndex < |w.flash|)
  }

  ghost function Step<S>(w: World<S>, perPage: nat, e: Event<S>): (w': World<S>)
    requires Shaped(w, perPage)
    ensures Shaped(w', perPage) && |w.log| <= |w'.log| <= |w.log| + 1
  {
    match e
    case Append(sample, faults) =>
      var r := AppendResult(w.ram, w.flash, perPage, sample, faults);
      if Writes(w.ram, perPage, faults) then
        World(r.flash, r.ram,
              w.log + [Attempt(w.current + 1, sample, r.ok)],
              if faults.write == WriteFailed(Old) then w.tag else w.tag[w.ram.writeIndex := |w.log|],
              w.current + 1,
              if r.ok then w.ram.writeIndex else w.anchor)
      else w.(flash := r.flash, ram := r.ram)
    case Reboot(readFailure) =>
      var ram := Initialized(w.ram, w.flash, perPage, readFailure);
      if !ram.ready then w.(ram := ram)
      else if !ram.found then w.(ram := ram, current := 0)
      else w.(ram := ram, current := Number(w, ram.latestIndex), anchor := ram.latestIndex)
  }

  /** Slot m holds the newest stored record. */
  ghost predicate Newest<S>(w: World<S>, m: int)
    requires |w.tag| == |w.flash|
  {
    Readable(w, m) && forall i :: Readable(w, i) ==> Number(w, i) <= Number(w, m)
  }

  /** The newest stored record is in reach of every other. */
  ghost predicate InWindow<S>(w: World<S>)
    requires |w.tag| == |w.flash|
  {
    forall m, i :: Newest(w, m) && Readable(w, i) ==> InReach(Number(w, m), Number(w, i))
  }

  // ------------------------------------------------------- single-step lemmas

  /** Stepping to the next slot stays in the page unless it starts one. */
  lemma NextSlot(index: nat, perPage: nat, count: nat)
    requires perPage > 0 && index < count
    requires ((index + 1) % count) % perPage != 0
    ensures (index + 1) % count == index + 1 && (index + 1) / perPage == index / perPage
  {
    RingWraps(index, 1, count);
    assert (index + 1) % count == index + 1 by { if index + 1 == count { QuotientOf(0, 0, perPage); } }
    SamePage(index, perPage);
  }

  lemma SamePage(index: nat, perPage: nat)
    requires perPage > 0 && (index + 1) % perPage != 0
    ensures (index + 1) / perPage == index / perPage
  {
    var q, r := index / perPage, index % perPage;
    assert index == q * perPage + r;
    if r + 1 == perPage {
      Distribute(q, perPage);
      QuotientOf(q + 1, 0, perPage);
    } else {
      QuotientOf(q, r + 1, perPage);
    }
  }

  /** Skipping a page lands on the start of another page. */
  lemma NextPage(index: nat, perPage: nat, count: nat)
    requires perPage > 0 && Usable(count, perPage) && index < count && index % perPage == 0
    ensures var next := (index + perPage) % count;
      next < count && next % perPage == 0 && next / perPage != index / perPage
  {
    var q, pages := index / perPage, count / perPage;
    assert index == q * perPage;
    assert count == pages * perPage;
    PagesFit(q, pages, perPage);
    Distribute(q, perPage);
    RingWraps(index, perPage, count);
    QuotientOf(q + 1, 0, perPage);
    QuotientOf(0, 0, perPage);
  }

  /** A page start before the end leaves room for its whole page; the last page is not page 0. */
  lemma PagesFit(q: nat, pages: nat, perPage: nat)
    requires perPage > 0 && q * perPage < pages * perPage && pages * perPage >= 2 * perPage
    ensures q * perPage + perPage <= pages * perPage
    ensures q * perPage + perPage == pages * perPage ==> q > 0
  {
    if q >= pages { MultiplyMonotone(pages, q, perPage); }
    MultiplyMonotone(q + 1, pages, perPage);
    Distribute(q, perPage);
  }

  /** No append, however it fails, erases or overwrites the anchor record. */
  lemma AppendSparesAnchor<S>(w: World<S>, perPage: nat, sample: S, faults: Faults)
    requires Inv(w, perPage) && w.anchor >= 0
    ensures AppendResult(w.ram, w.flash, perPage, sample, faults).flash[w.anchor] == w.flash[w.anchor]
  {
  }

  lemma AppendKeepsRecords<S>(w: World<S>, perPage: nat, sample: S, faults: Faults)
    requires Inv(w, perPage)
    ensures var w' := Step(w, perPage, Append(sample, faults));
      && Consistent(w') && Ordered(w')
      && (w'.ram.ready ==> forall i :: Readable(w', i) ==> Number(w', i) <= w'.current)
  {
    var w' := Step(w, perPage, Append(sample, faults));
    WrappedNext(w.current);
    forall i | Readable(w', i)
      ensures || (i == w.ram.writeIndex && w'.tag[i] == |w.log| && Writes(w.ram, perPage, faults)
                  && w'.flash[i] == Sealed(Wrapped(w.current + 1), sample))
              || (Readable(w, i) && w'.flash[i] == w.flash[i] && w'.tag[i] == w.tag[i])
    {
    }
    assert Consistent(w');
    forall i | Readable(w', i) ensures Number(w', i) == if w'.tag[i] == |w.log| then w.current + 1 else Number(w, i) {}
  }

  lemma AppendKeepsAnchor<S>(w: World<S>, perPage: nat, sample: S, faults: Faults)
    requires Inv(w, perPage)
    ensures Anchored(Step(w, perPage, Append(sample, faults)))
  {
  }

  /** Where the cursor goes: past the slot written, or to another page. */
  lemma CursorMoves(index: nat, perPage: nat, count: nat)
    requires perPage > 0 && Usable(count, perPage) && index < count
    ensures var next := (index + 1) % count;
      next < count && (next % perPage != 0 ==> next == index + 1 && next / perPage == index / perPage)
    ensures index % perPage == 0 ==> (index + perPage) % count < count && (index + perPage) % count % perPage == 0
  {
    if index % perPage == 0 { NextPage(index, perPage, count); }
    if ((index + 1) % count) % perPage != 0 { NextSlot(index, perPage, count); }
  }

  lemma AppendTracks<S>(w: World<S>, perPage: nat, sample: S, faults: Faults)
    requires Inv(w, perPage)
    ensures Tracking(Step(w, perPage, Append(sample, faults)), perPage)
  {
    AppendKeepsRecords(w, perPage, sample, faults);
    AppendKeepsAnchor(w, perPage, sample, faults);
    if w.ram.ready {
      CursorMoves(w.ram.writeIndex, perPage, |w.flash|);
      WrappedNext(w.current);
    }
  }

  lemma AppendKeepsInv<S>(w: World<S>, perPage: nat, sample: S, faults: Faults)
    requires Inv(w, perPage)
    ensures Inv(Step(w, perPage, Append(sample, faults)), perPage)
  {
    AppendKeepsRecords(w, perPage, sample, faults);
    AppendKeepsAnchor(w, perPage, sample, faults);
    AppendTracks(w, perPage, sample, faults);
  }

  lemma {:induction false} NewestExists<S>(w: World<S>, n: nat) returns (m: int)
    requires |w.tag| == |w.flash| && n <= |w.flash|
    ensures m == -1 ==> forall i :: 0 <= i < n ==> !Readable(w, i)
    ensures m != -1 ==> 0 <= m < n && Readable(w, m)
    ensures m != -1 ==> forall i :: 0 <= i < n && Readable(w, i) ==> Number(w, i) <= Number(w, m)
  {
    m := -1;
    if n > 0 {
      m := NewestExists(w, n - 1);
      if Readable(w, n - 1) && (m == -1 || Number(w, n - 1) > Number(w, m)) { m := n - 1; }
    }
  }

  lemma NewestBeatsAll<S>(w: World<S>, m: int)
    requires |w.tag| == |w.flash| && Consistent(w) && Ordered(w) && InWindow(w) && Newest(w, m)
    ensures BeatsAll(w.flash[m], w.flash)
    ensures forall i :: Readable(w, i) && w.flash[i] == w.flash[m] ==> i == m
  {
    forall i | Readable(w, i) && i != m ensures Beats(w.flash[m], w.flash[i]) && w.flash[i] != w.flash[m] {
      assert InReach(Number(w, m), Number(w, i)) && Number(w, m) != Number(w, i);
      SerialOrder(Number(w, m), Number(w, i));
    }
  }

  /** What a full scan of the flash finds, in terms of the history. */
  lemma ScanRecoversNewest<S>(w: World<S>, initial: S)
    requires |w.tag| == |w.flash| && Consistent(w) && Ordered(w) && InWindow(w)
    ensures var c := Scan(w.flash, |w.flash|, initial);
      if c.found then Newest(w, c.index) && w.flash[c.index] == Sealed(c.generation, c.sample)
      else c.generation == 0 && forall i :: !Readable(w, i)
  {
    var m := NewestExists(w, |w.flash|);
    if m == -1 {
      assert forall i :: !Readable(w, i);
      assert BeatsAll(Sealed(1, initial), w.flash);
      ScanKeepsBest(w.flash, Sealed(1, initial), |w.flash|, initial);
    } else {
      NewestBeatsAll(w, m);
      ScanKeepsBest(w.flash, w.flash[m], |w.flash|, initial);
    }
  }

  /** A reboot leaves the flash and its history alone. */
  lemma RebootKeepsRecords<S>(w: World<S>, perPage: nat, readFailure: Option<nat>)
    requires Shaped(w, perPage)
    ensures var w' := Step(w, perPage, Reboot(readFailure));
      && w'.flash == w.flash && w'.tag == w.tag && w'.log == w.log
      && (forall i :: Readable(w', i) <==> Readable(w, i)) && forall i :: Number(w', i) == Number(w, i)
  {
  }

  /** A reboot that reads every slot anchors the newest record, if there is one. */
  lemma RebootScans<S>(w: World<S>, perPage: nat, readFailure: Option<nat>) returns (c: Cursor<S>)
    requires Shaped(w, perPage) && Step(w, perPage, Reboot(readFailure)).ram.ready
    ensures c == Scan(w.flash, |w.flash|, w.ram.latest)
    ensures var w' := Step(w, perPage, Reboot(readFailure));
      && w'.ram == Ram(true, c.found, c.generation, if c.found then (c.index + 1) % |w.flash| else 0, c.index, c.sample)
      && w'.anchor == (if c.found then c.index else w.anchor) && w'.current == if c.found then Number(w, c.index) else 0
  {
    c := Scan(w.flash, |w.flash|, w.ram.latest);
  }

  lemma RebootFinds<S>(w: World<S>, perPage: nat, readFailure: Option<nat>)
    requires Shaped(w, perPage) && Consistent(w) && Ordered(w) && InWindow(w)
    requires Step(w, perPage, Reboot(readFailure)).ram.ready
    ensures var w' := Step(w, perPage, Reboot(readFailure));
      if w'.ram.found then
        && Newest(w, w'.anchor) && w'.current == Number(w, w'.anchor)
        && w'.ram == Ram(true, true, w.flash[w'.anchor].generation,
                         (w'.anchor + 1) % |w.flash|, w'.anchor, w.flash[w'.anchor].sample)
      else
        && (forall i :: !Readable(w, i)) && w'.anchor == w.anchor && w'.current == 0
        && w'.ram.generation == 0 && w'.ram.writeIndex == 0
  {
    var c := RebootScans(w, perPage, readFailure);
    ScanRecoversNewest(w, w.ram.latest);
  }

  lemma RebootKeepsHistory<S>(w: World<S>, perPage: nat, readFailure: Option<nat>)
    requires Inv(w, perPage) && InWindow(w)
    ensures var w' := Step(w, perPage, Reboot(readFailure)); Consistent(w') && Ordered(w') && Anchored(w')
  {
    RebootKeepsRecords(w, perPage, readFailure);
    var w' := Step(w, perPage, Reboot(readFailure));
    if w'.ram.ready {
      RebootFinds(w, perPage, readFailure);
      if w'.anchor != w.anchor && w.anchor >= 0 { assert w.tag[w.anchor] < w.tag[w'.anchor]; }
    }
  }

  /** The cursor after a recovered record leaves its page or stays behind it. */
  lemma CursorAfterAnchor(anchor: nat, perPage: nat, count: nat)
    requires perPage > 0 && anchor < count
    ensures var next := (anchor + 1) % count; next % perPage != 0 ==> next > anchor
  {
    if ((anchor + 1) % count) % perPage != 0 { NextSlot(anchor, perPage, count); }
  }

  lemma FoundTracks<S>(w: World<S>, perPage: nat)
    requires Shaped(w, perPage) && Consistent(w) && Newest(w, w.anchor) && w.current == Number(w, w.anchor)
    requires w.ram == Ram(true, true, w.flash[w.anchor].generation,
                          (w.anchor + 1) % |w.flash|, w.anchor, w.flash[w.anchor].sample)
    ensures Tracking(w, perPage)
  {
    CursorAfterAnchor(w.anchor, perPage, |w.flash|);
  }

  lemma RebootTracks<S>(w: World<S>, perPage: nat, readFailure: Option<nat>)
    requires Shaped(w, perPage) && Consistent(w) && Ordered(w) && Anchored(w) && InWindow(w)
    ensures Tracking(Step(w, perPage, Reboot(readFailure)), perPage)
  {
    RebootKeepsRecords(w, perPage, readFailure);
    var w' := Step(w, perPage, Reboot(readFailure));
    if w'.ram.ready {
      RebootFinds(w, perPage, readFailure);
      if w'.ram.found { FoundTracks(w', perPage); } else { assert w.anchor < 0; }
    }
  }

  lemma RebootKeepsInv<S>(w: World<S>, perPage: nat, readFailure: Option<nat>)
    requires Inv(w, perPage) && InWindow(w)
    ensures Inv(Step(w, perPage, Reboot(readFailure)), perPage)
  {
    RebootKeepsHistory(w, perPage, readFailure);
    RebootTracks(w, perPage, readFailure);
  }

  lemma StepKeepsInv<S>(w: World<S>, perPage: nat, e: Event<S>)
    requires Inv(w, perPage) && (e.Reboot? ==> InWindow(w))
    ensures Inv(Step(w, perPage, e), perPage)
  {
    match e {
      case Append(sample, faults) => AppendKeepsInv(w, perPage, sample, faults);
      case Reboot(readFailure) => RebootKeepsInv(w, perPage, readFailure);
    }
  }

  // --------------------------------------------------------------- whole runs

  ghost function Run<S>(w: World<S>, perPage: nat, events: seq<Event<S>>): (end: World<S>)
    requires Shaped(w, perPage)
    ensures Shaped(end, perPage) && |w.log| <= |end.log|
    decreases |events|
  {
    if events == [] then w else Run(Step(w, perPage, events[0]), perPage, events[1..])
  }

  /** At every reboot of the run the newest record is in reach of the others. */
  ghost predicate RunInWindow<S>(w: World<S>, perPage: nat, events: seq<Event<S>>)
    requires Shaped(w, perPage)
    decreases |events|
  {
    events == [] ||
    ((events[0].Reboot? ==> InWindow(w)) && RunInWindow(Step(w, perPage, events[0]), perPage, events[1..]))
  }

  lemma {:induction false} RunKeepsInv<S>(w: World<S>, perPage: nat, events: seq<Event<S>>)
    requires Inv(w, perPage) && RunInWindow(w, perPage, events)
    ensures Inv(Run(w, perPage, events), perPage)
    decreases |events|
  {
    if events != [] {
      StepKeepsInv(w, perPage, events[0]);
      RunKeepsInv(Step(w, perPage, events[0]), perPage, events[1..]);
    }
  }

  /** Factory state: nothing readable, journal not yet initialized. */
  ghost predicate Blank<S>(w: World<S>, perPage: nat)
  {
    perPage > 0 && Usable(|w.flash|, perPage) && |w.tag| == |w.flash| && !w.ram.ready &&
    w.log == [] && w.anchor == -1 && forall i :: 0 <= i < |w.flash| ==> w.flash[i].Unreadable?
  }

  ghost predicate NoneConfirmedAfter<S>(log: seq<Attempt<S>>, r: int)
  {
    forall k :: 0 <= k < |log| && log[k].confirmed ==> k <= r
  }

  /** A reboot now recovers the attempt last confirmed or a later attempted one;
      if anything was ever confirmed, something is recovered. */
  ghost predicate Recovers<S>(w: World<S>, perPage: nat)
    requires perPage > 0
  {
    var ram := Initialized(w.ram, w.flash, perPage, None);
    && ram.ready
    && ((exists k :: 0 <= k < |w.log| && w.log[k].confirmed) ==> ram.found)
    && (ram.found ==> exists r :: 0 <= r < |w.log| && ram.latest == w.log[r].sample && NoneConfirmedAfter(w.log, r))
  }

  lemma RecoversInWindow<S>(w: World<S>, perPage: nat)
    requires Inv(w, perPage) && InWindow(w)
    ensures Recovers(w, perPage)
  {
    RebootKeepsInv(w, perPage, None);
    var after := Step(w, perPage, Reboot(None));
    if after.ram.found {
      var r := after.tag[after.anchor];
      assert after.ram.latest == w.log[r].sample;
    }
  }

  /** Crash safety for runs of any length: any appends, faults and reboots from
      factory state, as long as the newest stored record stays in reach of the
      others at every scan. */
  lemma RecoversLastConfirmedOrLater<S>(w0: World<S>, perPage: nat, events: seq<Event<S>>)
    requires Blank(w0, perPage) && RunInWindow(w0, perPage, events) && InWindow(Run(w0, perPage, events))
    ensures Recovers(Run(w0, perPage, events), perPage)
  {
    BlankHasInv(w0, perPage);
    RunKeepsInv(w0, perPage, events);
    RecoversInWindow(Run(w0, perPage, events), perPage);
  }

  /** The record `Append` last confirmed is itself erased once a reboot has
      recovered a later attempt that was never confirmed: on two one-record
      pages, B is written with its confirmation lost, the reboot anchors B, and
      the next append erases A. */
  lemma ConfirmedRecordYieldsToRecoveredAttempt<S>(a: S, b: S, c: S)
    requires a != b
    ensures var good := Faults(true, Erased, Written);
      var first := AppendResult(Ram(true, false, 0, 0, NO_INDEX, a), [Unreadable, Unreadable], 1, a, good);
      var second := AppendResult(first.ram, first.flash, 1, b, Faults(true, Erased, WriteFailed(New)));
      var boot := Initialized(second.ram, second.flash, 1, None);
      var third := AppendResult(boot, second.flash, 1, c, Faults(true, Erased, WriteFailed(Torn)));
      && first.ok && !second.ok && boot.found && boot.latest == b && !third.ok
      && third.flash == [Unreadable, Sealed(2, b)]
  {
    var good := Faults(true, Erased, Written);
    var first := AppendResult(Ram(true, false, 0, 0, NO_INDEX, a), [Unreadable, Unreadable], 1, a, good);
    assert first.flash == [Sealed(1, a), Unreadable];
    var second := AppendResult(first.ram, first.flash, 1, b, Faults(true, Erased, WriteFailed(New)));
    assert second.flash == [Sealed(1, a), Sealed(2, b)];
    var initial := second.ram.latest;
    assert Scan(second.flash, 1, initial) == Observe(Scan(second.flash, 0, initial), second.flash[0], 0);
    assert Scan(second.flash, 2, initial) == Cursor(true, 2, 1, b);
  }

  /** The next append may erase or overwrite slot i: the cursor is on it, or enters its page. */
  predicate UnderCursor<S>(ram: Ram<S>, perPage: nat, i: nat)
    requires perPage > 0
  {
    ram.ready && !(ram.writeIndex % perPage == 0 && Protected(ram, perPage)) &&
    (ram.writeIndex == i || (ram.writeIndex % perPage == 0 && ram.writeIndex / perPage == i / perPage))
  }

  /** A stored record survives the next append, whatever fails, exactly when it is
      not under the cursor; by AppendSparesAnchor the anchor never is. */
  lemma RecordSurvivesExactly<S>(ram: Ram<S>, flash: seq<Slot<S>>, perPage: nat, sample: S, i: nat)
    requires perPage > 0 && i < |flash| && flash[i].Sealed? && (ram.ready ==> ram.writeIndex < |flash|)
    ensures (forall faults: Faults :: AppendResult(ram, flash, perPage, sample, faults).flash[i] == flash[i])
       <==> !UnderCursor(ram, perPage, i)
  {
    var torn := Faults(true, Erased, WriteFailed(Torn));
    if UnderCursor(ram, perPage, i) {
      assert AppendResult(ram, flash, perPage, sample, torn).flash[i] == Unreadable;
    }
  }

  lemma BlankHasInv<S>(w: World<S>, perPage: nat)
    requires Blank(w, perPage)
    ensures Inv(w, perPage)
  {
  }

  /** No two readable records ever share a stored generation. */
  lemma GenerationsAreDistinct<S>(w: World<S>, perPage: nat)
    requires Inv(w, perPage) && InWindow(w)
    ensures forall i, j :: Readable(w, i) && Readable(w, j) && i != j ==> w.flash[i].generation != w.flash[j].generation
  {
    var m := NewestExists(w, |w.flash|);
    forall i, j | Readable(w, i) && Readable(w, j) && i != j ensures w.flash[i].generation != w.flash[j].generation {
      assert InReach(Number(w, m), Number(w, i)) && InReach(Number(w, m), Number(w, j));
      if Number(w, i) > Number(w, j) {
        SerialOrder(Number(w, i), Number(w, j));
      } else {
        SerialOrder(Number(w, j), Number(w, i));
      }
    }
  }

  /** The protection never blocks progress: of two fault-free appends at least one commits. */
  lemma TwoFaultFreeAppendsCommit<S>(w: World<S>, perPage: nat, a: S, b: S, faults: Faults)
    requires Inv(w, perPage) && w.ram.ready
    requires faults == Faults(true, Erased, Written)
    ensures var first := AppendResult(w.ram, w.flash, perPage, a, faults);
      first.ram.ready && first.ram.writeIndex < |w.flash| &&
      (first.ok || AppendResult(first.ram, first.flash, perPage, b, faults).ok)
  {
    if w.ram.writeIndex % perPage == 0 { NextPage(w.ram.writeIndex, perPage, |w.flash|); }
  }
}
