/** The telemetry ring as a bounded sequence, and the capture/publisher protocol
    that runs over it. */
module TelemetryQueueModel {
  import opened Wrappers
  import opened Words

  datatype Sample<P> = Sample(sequence: uint32, timestamp: int, payload: P)

  /** Oldest sample first. */
  datatype Queue<P> = Queue(items: seq<Sample<P>>, nextSequence: uint32, overflowDrops: uint32, staleDrops: uint32,
      highWaterMark: nat)

  function EmptyQueue<P(!new)>(): Queue<P>
  {
    Queue([], 1, 0, 0, 0)
  }

  /** `push`: append under the next sequence; a full queue loses its oldest. */
  function Push<P(!new)>(q: Queue<P>, capacity: nat, sample: Sample<P>): Queue<P>
    requires |q.items| <= capacity
  {
    var stamped := sample.(sequence := q.nextSequence);
    if |q.items| == capacity then
      q.(items := (q.items + [stamped])[1..], nextSequence := NextNonZero(q.nextSequence),
         overflowDrops := U32(q.overflowDrops + 1))
    else
      q.(items := q.items + [stamped], nextSequence := NextNonZero(q.nextSequence),
         highWaterMark := if |q.items| + 1 > q.highWaterMark then |q.items| + 1 else q.highWaterMark)
  }

  /** Position of the oldest sample with this sequence, or |items|. */
  function Find<P(!new)>(items: seq<Sample<P>>, sequence: uint32): (i: nat)
    ensures i <= |items|
    ensures forall j :: 0 <= j < i ==> items[j].sequence != sequence
    ensures i < |items| ==> items[i].sequence == sequence
  {
    if items == [] || items[0].sequence == sequence then 0 else 1 + Find(items[1..], sequence)
  }

  function Remove<P(!new)>(q: Queue<P>, sequence: uint32): Queue<P>
  {
    var i := Find(q.items, sequence);
    if i == |q.items| then q else q.(items := q.items[..i] + q.items[i + 1..])
  }

  function Acknowledge<P(!new)>(q: Queue<P>, sequence: uint32): Queue<P>
  {
    var i := Find(q.items, sequence);
    if i == |q.items| then q else q.(items := q.items[i + 1..])
  }

  /** The samples no older than `minimum`, in order. */
  function Fresh<P(!new)>(items: seq<Sample<P>>, minimum: int): (kept: seq<Sample<P>>)
    ensures |kept| <= |items|
  {
    if items == [] then []
    else
      var n := |items| - 1;
      Fresh(items[..n], minimum) + if items[n].timestamp >= minimum then [items[n]] else []
  }

  /** Exactly the samples no older than `minimum` survive. */
  lemma {:induction false} FreshMembers<P(!new)>(items: seq<Sample<P>>, minimum: int, s: Sample<P>)
    ensures s in Fresh(items, minimum) <==> s in items && s.timestamp >= minimum
    decreases |items|
  {
    if items != [] {
      var n := |items| - 1;
      FreshMembers(items[..n], minimum, s);
      assert items == items[..n] + [items[n]];
    }
  }

  /** They keep their order and number: `at` lists, increasing, exactly the positions
      of the samples no older than `minimum`. */
  lemma {:induction false} FreshKeepsOrder<P(!new)>(items: seq<Sample<P>>, minimum: int) returns (at: seq<nat>)
    ensures |at| == |Fresh(items, minimum)|
    ensures forall i :: 0 <= i < |at| ==> at[i] < |items| && Fresh(items, minimum)[i] == items[at[i]]
    ensures forall i, j :: 0 <= i < j < |at| ==> at[i] < at[j]
    ensures forall k: nat :: k < |items| ==> (k in at <==> items[k].timestamp >= minimum)
    decreases |items|
  {
    if items == [] { return []; }
    var n := |items| - 1;
    at := FreshKeepsOrder(items[..n], minimum);
    if items[n].timestamp >= minimum { at := at + [n]; }
  }

  function DropOlder<P(!new)>(q: Queue<P>, minimum: int): Queue<P>
  {
    var kept := Fresh(q.items, minimum);
    q.(items := kept, staleDrops := U32(q.staleDrops + |q.items| - |kept|))
  }

  // ------------------------------------------------------------ ring contents

  /** The `count` samples starting at `head`, wrapping round the ring. */
  function Contents<P(!new)>(ring: seq<Sample<P>>, head: nat, count: nat): (items: seq<Sample<P>>)
    requires head < |ring| && count <= |ring|
    ensures |items| == count
    ensures forall i :: 0 <= i < count ==> items[i] == ring[RingPosition(head, i, |ring|)]
  {
    seq(count, i requires 0 <= i < count => ring[RingPosition(head, i, |ring|)])
  }

  lemma ContentsAppend<P(!new)>(ring: seq<Sample<P>>, head: nat, count: nat, s: Sample<P>)
    requires head < |ring| && count < |ring|
    ensures Contents(ring[RingPosition(head, count, |ring|) := s], head, count + 1) == Contents(ring, head, count) + [s]
  {
  }

  lemma ContentsRotate<P(!new)>(ring: seq<Sample<P>>, head: nat, s: Sample<P>)
    requires head < |ring|
    ensures Contents(ring[head := s], RingPosition(head, 1, |ring|), |ring|)
         == (Contents(ring, head, |ring|) + [s])[1..]
  {
  }

  lemma ContentsAdvance<P(!new)>(ring: seq<Sample<P>>, head: nat, count: nat, n: nat)
    requires head < |ring| && n <= count <= |ring|
    ensures Contents(ring, RingPosition(head, n, |ring|), count - n) == Contents(ring, head, count)[n..]
  {
  }

  lemma ContentsUpdate<P(!new)>(ring: seq<Sample<P>>, head: nat, count: nat, i: nat, s: Sample<P>)
    requires head < |ring| && i < count <= |ring|
    ensures Contents(ring[RingPosition(head, i, |ring|) := s], head, count) == Contents(ring, head, count)[i := s]
  {
  }

  lemma ContentsShrink<P(!new)>(ring: seq<Sample<P>>, head: nat, count: nat, n: nat)
    requires head < |ring| && n <= count <= |ring|
    ensures Contents(ring, head, n) == Contents(ring, head, count)[..n]
  {
  }

  /** The samples after position `l` up to position `i` shifted down by one. */
  ghost function Shifted<P(!new)>(items: seq<Sample<P>>, l: nat, i: nat): (part: seq<Sample<P>>)
    requires l <= i < |items|
    ensures |part| == |items|
    ensures forall k :: 0 <= k < |items| ==> part[k] == if l <= k < i then items[k + 1] else items[k]
  {
    seq(|items|, k requires 0 <= k < |items| => if l <= k < i then items[k + 1] else items[k])
  }

  lemma ShiftStart<P(!new)>(items: seq<Sample<P>>, l: nat)
    requires l < |items|
    ensures Shifted(items, l, l) == items
  {
  }

  lemma ShiftStep<P(!new)>(items: seq<Sample<P>>, l: nat, i: nat)
    requires l <= i && i + 1 < |items|
    ensures var part := Shifted(items, l, i); part[i := part[i + 1]] == Shifted(items, l, i + 1)
  {
  }

  lemma ShiftEnd<P(!new)>(items: seq<Sample<P>>, l: nat)
    requires l < |items|
    ensures Shifted(items, l, |items| - 1)[..|items| - 1] == items[..l] + items[l + 1..]
  {
  }

  /** One step of moving the fresh samples to the front. */
  lemma CompactStep<P(!new)>(was: seq<Sample<P>>, now: seq<Sample<P>>, minimum: int, i: nat, retained: nat)
    requires retained <= i < |was| == |now| && now[..retained] == Fresh(was[..i], minimum) && now[i..] == was[i..]
    ensures now[i] == was[i] && now[i := now[i]] == now
    ensures now[retained := now[i]][i + 1..] == was[i + 1..] && now[i + 1..] == was[i + 1..]
    ensures if was[i].timestamp >= minimum then now[retained := now[i]][..retained + 1] == Fresh(was[..i + 1], minimum)
      else now[..retained] == Fresh(was[..i + 1], minimum)
  {
    assert now[i] == now[i..][0] == was[i..][0];
    assert was[..i + 1][..i] == was[..i];
    assert now[retained := now[i]][..retained + 1] == now[..retained] + [now[i]];
    assert now[i + 1..] == now[i..][1..] && was[i + 1..] == was[i..][1..];
  }

  // ------------------------------------------------------------- conservation

  /** True totals since the last reset, beside the wrapping counters. */
  datatype Totals = Totals(
    pushed: nat, overflowed: nat, stale: nat, removed: nat, acknowledged: nat, deepest: nat)

  datatype Op<P> =
    | PushOp(sample: Sample<P>) | RemoveOp(sequence: uint32) | AckOp(sequence: uint32) | DropOp(minimum: int)

  function Apply<P(!new)>(q: Queue<P>, capacity: nat, op: Op<P>): (r: Queue<P>)
    requires |q.items| <= capacity
    ensures |r.items| <= capacity
  {
    match op
    case PushOp(sample) => Push(q, capacity, sample)
    case RemoveOp(sequence) => Remove(q, sequence)
    case AckOp(sequence) => Acknowledge(q, sequence)
    case DropOp(minimum) => DropOlder(q, minimum)
  }

  function Count<P(!new)>(t: Totals, q: Queue<P>, capacity: nat, op: Op<P>): Totals
    requires |q.items| <= capacity
  {
    match op
    case PushOp(sample) =>
      var depth := |Push(q, capacity, sample).items|;
      t.(pushed := t.pushed + 1, overflowed := t.overflowed + if |q.items| == capacity then 1 else 0,
         deepest := if depth > t.deepest then depth else t.deepest)
    case RemoveOp(sequence) => t.(removed := t.removed + |q.items| - |Remove(q, sequence).items|)
    case AckOp(sequence) => t.(acknowledged := t.acknowledged + |q.items| - |Acknowledge(q, sequence).items|)
    case DropOp(minimum) => t.(stale := t.stale + |q.items| - |Fresh(q.items, minimum)|)
  }

  ghost predicate Conserved<P(!new)>(t: Totals, q: Queue<P>, capacity: nat)
  {
    && |q.items| <= q.highWaterMark == t.deepest <= capacity
    && t.pushed == |q.items| + t.overflowed + t.stale + t.removed + t.acknowledged
    && q.overflowDrops == U32(t.overflowed) && q.staleDrops == U32(t.stale)
  }

  /** Every pushed sample is still queued or counted exactly once; the firmware's
      counters are the true totals modulo 2^32. */
  lemma ApplyConserves<P(!new)>(t: Totals, q: Queue<P>, capacity: nat, op: Op<P>)
    requires Conserved(t, q, capacity)
    ensures Conserved(Count(t, q, capacity, op), Apply(q, capacity, op), capacity)
  {
    match op {
      case PushOp(_) => CounterAdds(t.overflowed, q.overflowDrops, 1);
      case DropOp(minimum) => CounterAdds(t.stale, q.staleDrops, |q.items| - |Fresh(q.items, minimum)|);
      case _ =>
    }
  }

  lemma CounterAdds(total: nat, counter: uint32, more: nat)
    requires counter == U32(total)
    ensures U32(counter + more) == U32(total + more)
  {
  }

  function RunOps<P(!new)>(q: Queue<P>, capacity: nat, ops: seq<Op<P>>): (r: Queue<P>)
    requires |q.items| <= capacity
    ensures |r.items| <= capacity
    decreases |ops|
  {
    if ops == [] then q else RunOps(Apply(q, capacity, ops[0]), capacity, ops[1..])
  }

  function RunTotals<P(!new)>(t: Totals, q: Queue<P>, capacity: nat, ops: seq<Op<P>>): Totals
    requires |q.items| <= capacity
    decreases |ops|
  {
    if ops == [] then t else RunTotals(Count(t, q, capacity, ops[0]), Apply(q, capacity, ops[0]), capacity, ops[1..])
  }

  lemma {:induction false} RunConserves<P(!new)>(t: Totals, q: Queue<P>, capacity: nat, ops: seq<Op<P>>)
    requires Conserved(t, q, capacity)
    ensures Conserved(RunTotals(t, q, capacity, ops), RunOps(q, capacity, ops), capacity)
    decreases |ops|
  {
    if ops != [] {
      ApplyConserves(t, q, capacity, ops[0]);
      RunConserves(Count(t, q, capacity, ops[0]), Apply(q, capacity, ops[0]), capacity, ops[1..]);
    }
  }

  // ---------------------------------------------------------------- the protocol

  /** A request in flight: the queue before the peeked sample, the sample, and
      the samples captured since. */
  datatype Flight<P> = Flight(before: seq<Sample<P>>, sample: Sample<P>, since: seq<Sample<P>>)

  datatype Protocol<P> = Protocol(queue: Queue<P>, flight: Option<Flight<P>>)

  /** Capture runs in its own task; the publisher peeks after dropping stale
      samples, then acknowledges, drops or keeps the sample it sent. */
  datatype Step<P> =
    | Capture(sample: Sample<P>) | Peek(minimum: int) | Accepted | Dropped | KeptForRetry
    | Reboot(intact: bool, checkpoint: Option<Sample<P>>)

  /** A queue restored from one committed checkpoint, under its own sequence. */
  function Restored<P(!new)>(capacity: nat, sample: Sample<P>): Queue<P>
  {
    Push(EmptyQueue().(nextSequence := sample.sequence), capacity, sample)
  }

  /** The queue after a reboot: the retained memory if it is intact, else the
      checkpoint, if there is a usable one. */
  function Rebooted<P(!new)>(q: Queue<P>, capacity: nat, intact: bool, checkpoint: Option<Sample<P>>): Queue<P>
  {
    if intact then q
    else if checkpoint.Some? && checkpoint.value.sequence != 0 then Restored(capacity, checkpoint.value)
    else EmptyQueue()
  }

  function Next<P(!new)>(p: Protocol<P>, capacity: nat, step: Step<P>): (r: Protocol<P>)
    requires |p.queue.items| <= capacity
    ensures |r.queue.items| <= capacity
  {
    match step
    case Capture(sample) =>
      var stamped := sample.(sequence := p.queue.nextSequence);
      Protocol(Push(p.queue, capacity, sample),
               match p.flight case None => None case Some(f) => Some(f.(since := f.since + [stamped])))
    case Peek(minimum) =>
      if p.flight.Some? then p
      else
        var rest := DropOlder(p.queue, minimum);
        if rest.items == [] then Protocol(rest, None)
        else
          var last := |rest.items| - 1;
          Protocol(rest, Some(Flight(rest.items[..last], rest.items[last], [])))
    case Accepted => if p.flight.None? then p else Protocol(Acknowledge(p.queue, p.flight.value.sample.sequence), None)
    case Dropped => if p.flight.None? then p else Protocol(Remove(p.queue, p.flight.value.sample.sequence), None)
    case KeptForRetry => p.(flight := None)
    case Reboot(intact, checkpoint) => Protocol(Rebooted(p.queue, capacity, intact, checkpoint), None)
  }

  /** A reboot loses nothing that survived it: intact memory is taken as it is; otherwise a
      usable checkpoint is the one sample queued, under its own sequence, and the next one
      differs; only without either is the queue empty. */
  lemma RebootRestoresWhatSurvived<P(!new)>(
      p: Protocol<P>, capacity: nat, intact: bool, checkpoint: Option<Sample<P>>)
    requires capacity > 0 && |p.queue.items| <= capacity
    ensures var p' := Next(p, capacity, Reboot(intact, checkpoint));
      && p'.flight.None? && (intact ==> p'.queue == p.queue)
      && (!intact ==>
            p'.queue.items ==
            if checkpoint.Some? && checkpoint.value.sequence != 0 then [checkpoint.value] else [])
      && (!intact && p'.queue.items != [] ==> p'.queue.nextSequence != checkpoint.value.sequence)
  {
  }

  /** Sequences grow through the queue and the next one is larger still. */
  ghost predicate Increasing<P(!new)>(items: seq<Sample<P>>, nextSequence: int)
  {
    (forall i, j :: 0 <= i < j < |items| ==> items[i].sequence < items[j].sequence) &&
    forall i :: 0 <= i < |items| ==> items[i].sequence < nextSequence
  }

  /** The last at most `n` samples. */
  function LastOf<P(!new)>(items: seq<Sample<P>>, n: nat): seq<Sample<P>>
  {
    if |items| <= n then items else items[|items| - n..]
  }

  function Whole<P(!new)>(f: Flight<P>): seq<Sample<P>>
  {
    f.before + [f.sample] + f.since
  }

  /** While a sample is in flight the queue is the most recent part of what was
      before it, then it, then everything captured since. */
  ghost predicate Tracks<P(!new)>(p: Protocol<P>, capacity: nat)
  {
    && |p.queue.items| <= capacity
    && match p.flight
       case None => Increasing(p.queue.items, p.queue.nextSequence)
       case Some(f) => p.queue.items == LastOf(Whole(f), capacity) && Increasing(Whole(f), p.queue.nextSequence)
  }

  /** Pushing keeps the most recent `capacity` samples of an unbounded list. */
  lemma PushIsLastOf<P(!new)>(q: Queue<P>, capacity: nat, sample: Sample<P>, all: seq<Sample<P>>)
    requires capacity > 0 && q.items == LastOf(all, capacity)
    ensures Push(q, capacity, sample).items == LastOf(all + [sample.(sequence := q.nextSequence)], capacity)
  {
  }

  lemma IncreasingSnoc<P(!new)>(items: seq<Sample<P>>, sample: Sample<P>, n: uint32)
    requires Increasing(items, n)
    ensures Increasing(items + [sample.(sequence := n)], n + 1)
  {
  }

  lemma IncreasingSlice<P(!new)>(items: seq<Sample<P>>, n: int, from: nat, until: nat)
    requires Increasing(items, n) && from <= until <= |items|
    ensures Increasing(items[from..until], n)
  {
  }

  lemma PushIsIncreasing<P(!new)>(q: Queue<P>, capacity: nat, sample: Sample<P>)
    requires capacity > 0 && |q.items| <= capacity && Increasing(q.items, q.nextSequence) && q.nextSequence < WORD - 1
    ensures Increasing(Push(q, capacity, sample).items, q.nextSequence + 1)
    ensures Push(q, capacity, sample).nextSequence == q.nextSequence + 1
  {
  }

  lemma CaptureInFlight<P(!new)>(q: Queue<P>, capacity: nat, sample: Sample<P>, f: Flight<P>)
    requires capacity > 0 && q.items == LastOf(Whole(f), capacity) && Increasing(Whole(f), q.nextSequence)
    ensures var f' := f.(since := f.since + [sample.(sequence := q.nextSequence)]);
      Push(q, capacity, sample).items == LastOf(Whole(f'), capacity) && Increasing(Whole(f'), q.nextSequence + 1)
  {
    PushIsLastOf(q, capacity, sample, Whole(f));
    IncreasingSnoc(Whole(f), sample, q.nextSequence);
    assert Whole(f.(since := f.since + [sample.(sequence := q.nextSequence)]))
        == Whole(f) + [sample.(sequence := q.nextSequence)];
  }

  lemma CaptureTracks<P(!new)>(p: Protocol<P>, capacity: nat, sample: Sample<P>)
    requires capacity > 0 && Tracks(p, capacity) && p.queue.nextSequence < WORD - 1
    ensures Tracks(Next(p, capacity, Capture(sample)), capacity)
  {
    if p.flight.None? { CaptureIdleTracks(p, capacity, sample); } else { CaptureFlightTracks(p, capacity, sample); }
  }

  lemma CaptureIdleTracks<P(!new)>(p: Protocol<P>, capacity: nat, sample: Sample<P>)
    requires capacity > 0 && Tracks(p, capacity) && p.queue.nextSequence < WORD - 1 && p.flight.None?
    ensures Tracks(Next(p, capacity, Capture(sample)), capacity)
  {
    var p' := Next(p, capacity, Capture(sample));
    assert p'.flight.None? && p'.queue == Push(p.queue, capacity, sample);
    PushIsIncreasing(p.queue, capacity, sample);
  }

  lemma CaptureFlightTracks<P(!new)>(p: Protocol<P>, capacity: nat, sample: Sample<P>)
    requires capacity > 0 && Tracks(p, capacity) && p.queue.nextSequence < WORD - 1 && p.flight.Some?
    ensures Tracks(Next(p, capacity, Capture(sample)), capacity)
  {
    var p', f := Next(p, capacity, Capture(sample)), p.flight.value;
    assert p'.queue == Push(p.queue, capacity, sample);
    assert p'.queue.nextSequence == p.queue.nextSequence + 1;
    assert p'.flight == Some(f.(since := f.since + [sample.(sequence := p.queue.nextSequence)]));
    CaptureInFlight(p.queue, capacity, sample, f);
  }

  lemma {:induction false} FreshIsIncreasing<P(!new)>(items: seq<Sample<P>>, minimum: int, n: int)
    requires Increasing(items, n)
    ensures Increasing(Fresh(items, minimum), n)
    decreases |items|
  {
    if items != [] {
      var last := items[|items| - 1];
      var init := items[..|items| - 1];
      FreshIsIncreasing(init, minimum, last.sequence);
      if last.timestamp >= minimum { SnocIncreasing(Fresh(init, minimum), last, n); }
    }
  }

  lemma SnocIncreasing<P(!new)>(items: seq<Sample<P>>, last: Sample<P>, n: int)
    requires Increasing(items, last.sequence) && last.sequence < n
    ensures Increasing(items + [last], n)
  {
  }

  /** A peek sends the newest sample that is no older than the minimum, the last captured of
      those, with nothing listed as captured since; it sends nothing exactly when every
      queued sample is older. What stays queued are the samples no older, in their order. */
  lemma PeekTakesTheNewest<P(!new)>(p: Protocol<P>, capacity: nat, minimum: int) returns (at: nat)
    requires Tracks(p, capacity) && p.flight.None?
    ensures var items, p' := p.queue.items, Next(p, capacity, Peek(minimum));
      && (p'.flight.None? <==> forall i :: 0 <= i < |items| ==> items[i].timestamp < minimum)
      && (p'.flight.Some? ==>
            && at < |items| && items[at].timestamp >= minimum
            && p'.flight.value.sample == items[at] && p'.flight.value.since == []
            && (forall i :: at < i < |items| ==> items[i].timestamp < minimum)
            && (forall i :: 0 <= i < at ==> items[i].sequence < items[at].sequence)
            && p'.queue.items == p'.flight.value.before + [items[at]])
      && p'.queue.items == Fresh(items, minimum)
  {
    var kept := FreshKeepsOrder(p.queue.items, minimum);
    at := if kept == [] then 0 else kept[|kept| - 1];
  }

  lemma PeekTracks<P(!new)>(p: Protocol<P>, capacity: nat, minimum: int)
    requires Tracks(p, capacity)
    ensures Tracks(Next(p, capacity, Peek(minimum)), capacity)
  {
    if p.flight.None? {
      FreshIsIncreasing(p.queue.items, minimum, p.queue.nextSequence);
      var p' := Next(p, capacity, Peek(minimum));
      if p'.flight.Some? { assert Whole(p'.flight.value) == p'.queue.items; }
    }
  }

  /** Where the peeked sample sits now, if the captures since have not evicted it. */
  lemma PeekedPosition<P(!new)>(p: Protocol<P>, capacity: nat)
    requires Tracks(p, capacity) && p.flight.Some?
    ensures var f := p.flight.value; var at := Find(p.queue.items, f.sample.sequence);
      if |f.since| < capacity
      then at < |p.queue.items| && p.queue.items[at] == f.sample && p.queue.items[at + 1..] == f.since
           && p.queue.items[..at] == LastOf(f.before, capacity - 1 - |f.since|)
      else at == |p.queue.items| && p.queue.items == LastOf(f.since, capacity)
  {
    var f := p.flight.value;
    PositionIn(f.before, f.sample, f.since, capacity, p.queue.nextSequence);
  }

  /** With room for it, the sample is still queued, behind what is left of `before`. */
  lemma PositionWithRoom<P(!new)>(before: seq<Sample<P>>, x: Sample<P>, since: seq<Sample<P>>, capacity: nat, n: int)
    requires Increasing(before + [x] + since, n) && |since| < capacity
    ensures var items := LastOf(before + [x] + since, capacity); var at := Find(items, x.sequence);
      at < |items| && items[at] == x && items[at + 1..] == since &&
        items[..at] == LastOf(before, capacity - 1 - |since|)
  {
    var all := before + [x] + since;
    var items, head := LastOf(all, capacity), LastOf(before, capacity - 1 - |since|);
    assert items == head + [x] + since;
    forall i | 0 <= i < |head| ensures items[i].sequence != x.sequence {
      assert items[i] == all[|all| - |items| + i];
      Smaller(all, n, |all| - |items| + i, |before|);
    }
    FindIs(items, |head|);
  }

  lemma PositionWithoutRoom<P(!new)>(before: seq<Sample<P>>, x: Sample<P>, since: seq<Sample<P>>, capacity: nat, n: int)
    requires Increasing(before + [x] + since, n) && |since| >= capacity
    ensures var items := LastOf(before + [x] + since, capacity);
      Find(items, x.sequence) == |items| && items == LastOf(since, capacity)
  {
    var all := before + [x] + since;
    var items := LastOf(all, capacity);
    assert items == LastOf(since, capacity);
    forall i | 0 <= i < |items| ensures items[i].sequence != x.sequence {
      assert items[i] == all[|all| - |items| + i];
      Smaller(all, n, |before|, |all| - |items| + i);
    }
  }

  lemma PositionIn<P(!new)>(before: seq<Sample<P>>, x: Sample<P>, since: seq<Sample<P>>, capacity: nat, n: int)
    requires Increasing(before + [x] + since, n)
    ensures var items := LastOf(before + [x] + since, capacity); var at := Find(items, x.sequence);
      if |since| < capacity
      then at < |items| && items[at] == x && items[at + 1..] == since &&
        items[..at] == LastOf(before, capacity - 1 - |since|)
      else at == |items| && items == LastOf(since, capacity)
  {
    if |since| < capacity {
      PositionWithRoom(before, x, since, capacity, n);
    } else {
      PositionWithoutRoom(before, x, since, capacity, n);
    }
  }

  lemma Smaller<P(!new)>(items: seq<Sample<P>>, n: int, i: nat, j: nat)
    requires Increasing(items, n) && i < j < |items|
    ensures items[i].sequence < items[j].sequence
  {
  }

  lemma FindIs<P(!new)>(items: seq<Sample<P>>, at: nat)
    requires at < |items| && forall i :: 0 <= i < at ==> items[i].sequence != items[at].sequence
    ensures Find(items, items[at].sequence) == at
  {
  }

  /** Acknowledging the peeked sample leaves exactly the surviving samples
      captured after the peek. */
  lemma AcknowledgeLeavesLaterCaptures<P(!new)>(p: Protocol<P>, capacity: nat)
    requires Tracks(p, capacity) && p.flight.Some?
    ensures Next(p, capacity, Accepted).queue.items == LastOf(p.flight.value.since, capacity)
  {
    PeekedPosition(p, capacity);
  }

  /** A rejected sample alone leaves the queue; everything else keeps its order. */
  lemma DropRemovesOnlyThePeeked<P(!new)>(p: Protocol<P>, capacity: nat)
    requires Tracks(p, capacity) && p.flight.Some?
    ensures var f := p.flight.value;
      Next(p, capacity, Dropped).queue.items ==
        if |f.since| < capacity then LastOf(f.before, capacity - 1 - |f.since|) + f.since else LastOf(f.since, capacity)
  {
    PeekedPosition(p, capacity);
  }

  lemma DeliveryIncreases<P(!new)>(q: Queue<P>, sequence: uint32)
    requires Increasing(q.items, q.nextSequence)
    ensures Increasing(Acknowledge(q, sequence).items, q.nextSequence)
    ensures Increasing(Remove(q, sequence).items, q.nextSequence)
  {
    var at := Find(q.items, sequence);
    if at < |q.items| { WithoutOneIncreasing(q.items, at, q.nextSequence); }
  }

  lemma DeliveryTracks<P(!new)>(p: Protocol<P>, capacity: nat, step: Step<P>)
    requires Tracks(p, capacity) && (step.Accepted? || step.Dropped? || step.KeptForRetry?)
    ensures Tracks(Next(p, capacity, step), capacity)
  {
    if p.flight.Some? {
      var all, n := Whole(p.flight.value), p.queue.nextSequence;
      IncreasingSlice(all, n, |all| - |p.queue.items|, |all|);
      DeliveryIncreases(p.queue, p.flight.value.sample.sequence);
    }
  }

  lemma WithoutOneIncreasing<P(!new)>(items: seq<Sample<P>>, at: nat, n: int)
    requires at < |items| && Increasing(items, n)
    ensures Increasing(items[at + 1..], n) && Increasing(items[..at] + items[at + 1..], n)
  {
  }

  function Run<P(!new)>(p: Protocol<P>, capacity: nat, steps: seq<Step<P>>): (r: Protocol<P>)
    requires |p.queue.items| <= capacity
    ensures |r.queue.items| <= capacity
    decreases |steps|
  {
    if steps == [] then p else Run(Next(p, capacity, steps[0]), capacity, steps[1..])
  }

  lemma RebootTracks<P(!new)>(p: Protocol<P>, capacity: nat, intact: bool, checkpoint: Option<Sample<P>>)
    requires capacity > 0 && Tracks(p, capacity) && StepBeforeWrap(p, Reboot(intact, checkpoint))
    ensures Tracks(Next(p, capacity, Reboot(intact, checkpoint)), capacity)
  {
  }

  /** The step does not take the sequence counter round its wrap. */
  predicate StepBeforeWrap<P(!new)>(p: Protocol<P>, step: Step<P>)
  {
    match step
    case Capture(_) => p.queue.nextSequence < WORD - 1
    case Reboot(intact, checkpoint) => !intact && checkpoint.Some? ==> checkpoint.value.sequence < WORD - 1
    case _ => true
  }

  predicate BeforeWrap<P(!new)>(p: Protocol<P>, capacity: nat, steps: seq<Step<P>>)
    requires |p.queue.items| <= capacity
    decreases |steps|
  {
    steps == [] || (StepBeforeWrap(p, steps[0]) && BeforeWrap(Next(p, capacity, steps[0]), capacity, steps[1..]))
  }

  /** Every checkpoint restored leaves n sequences before the wrap. */
  predicate CheckpointsBefore<P(!new)>(steps: seq<Step<P>>, n: nat)
  {
    forall i :: 0 <= i < |steps| && steps[i].Reboot? && steps[i].checkpoint.Some? ==>
      steps[i].checkpoint.value.sequence + n < WORD
  }

  /** Any run shorter than what is left of the counter is before its wrap. */
  lemma {:induction false} ShortRunIsBeforeWrap<P(!new)>(p: Protocol<P>, capacity: nat, steps: seq<Step<P>>, n: nat)
    requires |p.queue.items| <= capacity && |steps| <= n && p.queue.nextSequence + |steps| < WORD &&
      CheckpointsBefore(steps, n)
    ensures BeforeWrap(p, capacity, steps)
    decreases |steps|
  {
    if steps != [] {
      assert steps[1..] == [] || CheckpointsBefore(steps[1..], n);
      ShortRunIsBeforeWrap(Next(p, capacity, steps[0]), capacity, steps[1..], n);
    }
  }

  /** In every interleaving before a sequence wrap, reboots included, the protocol
      invariant holds. */
  lemma {:induction false} RunTracks<P(!new)>(p: Protocol<P>, capacity: nat, steps: seq<Step<P>>)
    requires capacity > 0 && Tracks(p, capacity) && BeforeWrap(p, capacity, steps)
    ensures Tracks(Run(p, capacity, steps), capacity)
    decreases |steps|
  {
    if steps != [] {
      match steps[0] {
        case Capture(sample) => CaptureTracks(p, capacity, sample);
        case Peek(minimum) => PeekTracks(p, capacity, minimum);
        case Reboot(intact, checkpoint) => RebootTracks(p, capacity, intact, checkpoint);
        case _ => DeliveryTracks(p, capacity, steps[0]);
      }
      RunTracks(Next(p, capacity, steps[0]), capacity, steps[1..]);
    }
  }

  /** From an empty queue: whatever was captured, dropped, retried or restored after
      a reboot before the request and captured during it, an accepted delivery
      leaves exactly the survivors of the captures made during it. */
  lemma AcceptedDeliveryIsExact<P(!new)>(capacity: nat, steps: seq<Step<P>>)
    requires capacity > 0 && BeforeWrap(Protocol(EmptyQueue(), None), capacity, steps)
    requires Run(Protocol(EmptyQueue(), None), capacity, steps).flight.Some?
    ensures var p := Run(Protocol(EmptyQueue(), None), capacity, steps);
      Next(p, capacity, Accepted).queue.items == LastOf(p.flight.value.since, capacity)
  {
    RunTracks(Protocol(EmptyQueue(), None), capacity, steps);
    AcknowledgeLeavesLaterCaptures(Run(Protocol(EmptyQueue(), None), capacity, steps), capacity);
  }

  /** Wrap or no wrap, acknowledging a queued sample leaves exactly the samples after
      it if and only if nothing queued before it shares its sequence. */
  lemma AcknowledgeIsExactUnlessDuplicated<P(!new)>(
      q: Queue<P>, before: seq<Sample<P>>, x: Sample<P>, since: seq<Sample<P>>)
    requires q.items == before + [x] + since
    ensures Acknowledge(q, x.sequence).items == since <==> forall i :: 0 <= i < |before| ==>
      before[i].sequence != x.sequence
  {
    var at := Find(q.items, x.sequence);
    assert q.items[|before|] == x;
    assert forall i {:trigger before[i]} :: 0 <= i < |before| ==> q.items[i] == before[i];
    assert at <= |before|;
    assert |Acknowledge(q, x.sequence).items| == |q.items| - at - 1;
    if at == |before| { assert q.items[at + 1..] == since; }
  }

  /** After a wrap a lingering sample can carry the peeked sample's sequence, and
      acknowledging it then leaves the delivered sample queued. */
  lemma DuplicateSequenceHidesDelivered<P(!new)>(stale: Sample<P>, middle: Sample<P>, delivered: Sample<P>)
    requires stale.sequence == delivered.sequence != middle.sequence
    ensures Acknowledge(Queue([stale, middle, delivered], 1, 0, 0, 3), delivered.sequence).items == [middle, delivered]
  {
  }
}
