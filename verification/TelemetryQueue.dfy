/** The telemetry ring buffer in RTC memory, updated in place. */
module TelemetryQueue {
  import opened Wrappers
  import opened Words
  import opened TelemetryQueueModel

  /** The bytes the checksum covers; equal checksums stand for equal bytes. */
  datatype Covered<P> = Covered(
    configurationTag: uint32, nextSequence: uint32, overflowDrops: uint32, staleDrops: uint32,
    head: nat, count: nat, highWaterMark: nat, samples: seq<Sample<P>>)

  class NewestFirstTelemetryQueue<P(==,!new,0)> {
    const expectedMagic: uint32
    const samples: array<Sample<P>>
    var magic: uint32
    var configurationTag: uint32
    var nextSequence: uint32
    var overflowDrops: uint32
    var staleDrops: uint32
    var head: nat
    var count: nat
    var highWaterMark: nat
    var checksum: Covered<P>

    /** Memory as it is found at boot: anything at all. */
    constructor (capacity: nat, expectedMagic: uint32)
      requires 0 < capacity <= 0xFFFF && expectedMagic != 0
      ensures samples.Length == capacity && this.expectedMagic == expectedMagic && fresh(samples)
    {
      this.expectedMagic := expectedMagic;
      samples := new Sample<P>[capacity];
      magic, configurationTag, nextSequence, overflowDrops, staleDrops := *, *, *, *, *;
      head, count, highWaterMark, checksum := *, *, *, *;
    }

    function Contained(): Covered<P>
      reads this, samples
    {
      Covered(configurationTag, nextSequence, overflowDrops, staleDrops, head, count, highWaterMark, samples[..])
    }

    predicate IntegrityIsValid()
      reads this, samples
    {
      magic == expectedMagic && checksum == Contained()
    }

    predicate Shaped()
      reads this
    {
      0 < samples.Length <= 0xFFFF && head < samples.Length && count <= samples.Length &&
      highWaterMark <= samples.Length && nextSequence != 0 && expectedMagic != 0
    }

    ghost predicate Valid()
      reads this, samples
    {
      Shaped() && IntegrityIsValid()
    }

    /** The ring's contents, oldest first. */
    ghost function Items(): seq<Sample<P>>
      requires Shaped()
      reads this, samples
    {
      Contents(samples[..], head, count)
    }

    ghost function View(): Queue<P>
      requires Shaped()
      reads this, samples
    {
      Queue(Items(), nextSequence, overflowDrops, staleDrops, highWaterMark)
    }

    method Reset(tag: uint32)
      requires 0 < samples.Length <= 0xFFFF && expectedMagic != 0
      modifies this
      ensures Valid() && View() == EmptyQueue() && configurationTag == tag
    {
      magic, nextSequence, overflowDrops, staleDrops := 0, 0, 0, 0;
      head, count, highWaterMark := 0, 0, 0;
      configurationTag := tag;
      nextSequence := 1;
      FinishMutation();
    }

    /** Keeps a structurally valid queue of the same configuration, else empties it. */
    method InitializeOrRecover(tag: uint32) returns (recovered: bool)
      requires 0 < samples.Length <= 0xFFFF && expectedMagic != 0
      modifies this
      ensures Valid() && configurationTag == tag
      ensures recovered == old(Valid() && configurationTag == tag)
      ensures recovered ==> unchanged(this)
      ensures !recovered ==> View() == EmptyQueue()
    {
      if magic == expectedMagic && configurationTag == tag && head < samples.Length && count <= samples.Length
        && highWaterMark <= samples.Length && nextSequence != 0 && IntegrityIsValid() {
        return true;
      }
      Reset(tag);
      return false;
    }

    /** Restores one committed checkpoint under its own sequence, whatever the memory held. */
    method RestoreNewest(sample: Sample<P>, tag: uint32) returns (ok: bool)
      requires 0 < samples.Length <= 0xFFFF && expectedMagic != 0
      modifies this, samples
      ensures ok == (sample.sequence != 0)
      ensures !ok ==> unchanged(this) && unchanged(samples)
      ensures ok ==> Valid() && View() == Restored(samples.Length, sample) && Items() == [sample]
      ensures ok ==> configurationTag == tag
    {
      if sample.sequence == 0 { return false; }
      Reset(tag);
      nextSequence := sample.sequence;
      FinishMutation();
      var _ := Push(sample);
      return true;
    }

    method Push(sample: Sample<P>) returns (sequence: uint32)
      requires Valid()
      modifies this, samples
      ensures Valid() && View() == TelemetryQueueModel.Push(old(View()), samples.Length, sample)
      ensures sequence == old(nextSequence) && configurationTag == old(configurationTag)
    {
      BeginMutation();
      var stamped := sample.(sequence := nextSequence);
      nextSequence := NextNonZero(nextSequence);
      Store(stamped);
      FinishMutation();
      return stamped.sequence;
    }

    /** Writes after the newest sample, or over the oldest when full. */
    method Store(stamped: Sample<P>)
      requires Shaped()
      modifies this`head, this`count, this`highWaterMark, this`overflowDrops, samples
      ensures Shaped()
      ensures old(count) == samples.Length ==> Items() == (old(Items()) + [stamped])[1..]
      ensures old(count) < samples.Length ==> Items() == old(Items()) + [stamped]
      ensures overflowDrops == if old(count) == samples.Length then U32(old(overflowDrops) + 1) else old(overflowDrops)
      ensures highWaterMark == if count > old(highWaterMark) && old(count) < samples.Length then count
                               else old(highWaterMark)
      ensures count == if old(count) == samples.Length then old(count) else old(count) + 1
    {
      ghost var ring := samples[..];
      var writeIndex;
      if count == samples.Length {
        ContentsRotate(ring, head, stamped);
        writeIndex := head;
        head := RingPosition(head, 1, samples.Length);
        overflowDrops := U32(overflowDrops + 1);
      } else {
        ContentsAppend(ring, head, count, stamped);
        writeIndex := RingPosition(head, count, samples.Length);
        count := count + 1;
        if count > highWaterMark { highWaterMark := count; }
      }
      samples[writeIndex] := stamped;
      assert samples[..] == ring[writeIndex := stamped];
    }

    method Newest() returns (sample: Option<Sample<P>>)
      requires Valid()
      ensures sample == if Items() == [] then None else Some(Items()[|Items()| - 1])
    {
      if count == 0 { return None; }
      return Some(samples[RingPosition(head, count - 1, samples.Length)]);
    }

    /** The oldest position holding this sequence, or `count`. */
    method Locate(sequence: uint32) returns (logicalIndex: nat)
      requires Valid()
      ensures logicalIndex == Find(Items(), sequence)
    {
      ghost var items := Items();
      logicalIndex := 0;
      while logicalIndex < count && samples[RingPosition(head, logicalIndex, samples.Length)].sequence != sequence
        invariant logicalIndex <= count
        invariant forall i :: 0 <= i < logicalIndex ==> items[i].sequence != sequence
      {
        assert items[logicalIndex].sequence != sequence;
        logicalIndex := logicalIndex + 1;
      }
      if logicalIndex < count {
        assert items[logicalIndex].sequence == sequence;
        FindIs(items, logicalIndex);
      }
    }

    method Remove(sequence: uint32) returns (removed: bool)
      requires Valid()
      modifies this, samples
      ensures Valid() && View() == TelemetryQueueModel.Remove(old(View()), sequence)
      ensures removed == (Find(old(Items()), sequence) < old(count))
    {
      var logicalIndex := Locate(sequence);
      if logicalIndex == count { return false; }
      BeginMutation();
      EraseAt(logicalIndex);
      FinishMutation();
      return true;
    }

    /** Compacts one sample out of the ring in place. */
    method EraseAt(logicalIndex: nat)
      requires Shaped() && logicalIndex < count
      modifies this`head, this`count, samples
      ensures Shaped() && Items() == old(Items())[..logicalIndex] + old(Items())[logicalIndex + 1..]
    {
      ghost var was := Items();
      if logicalIndex == 0 {
        Advance(1);
        assert was[..0] + was[1..] == was[1..];
        return;
      }
      CloseGap(logicalIndex);
      ShiftEnd(was, logicalIndex);
      Truncate(count - 1);
    }

    method CloseGap(logicalIndex: nat)
      requires Shaped() && logicalIndex < count
      modifies samples
      ensures Items() == Shifted(old(Items()), logicalIndex, count - 1)
    {
      ghost var was := Items();
      var index := logicalIndex;
      ShiftStart(was, index);
      while index + 1 < count
        invariant logicalIndex <= index < count
        invariant Items() == Shifted(was, logicalIndex, index)
      {
        ghost var before := Items();
        ShiftStep(was, logicalIndex, index);
        Move(index + 1, index);
        assert Items() == before[index := before[index + 1]];
        index := index + 1;
      }
    }

    /** Copies one logical position over another. */
    method Move(from: nat, to: nat)
      requires Shaped() && from < count && to < count
      modifies samples
      ensures Items() == old(Items())[to := old(Items())[from]]
    {
      ghost var ring := samples[..];
      var sample := samples[RingPosition(head, from, samples.Length)];
      ContentsUpdate(ring, head, count, to, sample);
      samples[RingPosition(head, to, samples.Length)] := sample;
      assert samples[..] == ring[RingPosition(head, to, |ring|) := sample];
    }

    /** Keeps the `retained` oldest samples. */
    method Truncate(retained: nat)
      requires Shaped() && retained <= count
      modifies this`head, this`count
      ensures Shaped() && count == retained && Items() == old(Items())[..retained]
    {
      ContentsShrink(samples[..], head, count, retained);
      count := retained;
      if count == 0 { head := 0; }
    }

    /** Forgets the `removed` oldest samples. */
    method Advance(removed: nat)
      requires Shaped() && removed <= count
      modifies this`head, this`count
      ensures Shaped() && count == old(count) - removed && Items() == old(Items())[removed..]
    {
      ContentsAdvance(samples[..], head, count, removed);
      var retained := count - removed;
      head := if retained > 0 then RingPosition(head, removed, samples.Length) else 0;
      count := retained;
    }

    /** Removes the sample and every predecessor by moving the head. */
    method AcknowledgeThrough(sequence: uint32) returns (removed: nat)
      requires Valid()
      modifies this
      ensures Valid() && View() == Acknowledge(old(View()), sequence)
      ensures removed == old(count) - count
    {
      var logicalIndex := Locate(sequence);
      if logicalIndex == count { return 0; }
      BeginMutation();
      removed := logicalIndex + 1;
      Advance(removed);
      FinishMutation();
    }

    /** Drops every sample older than `minimum`. */
    method DropOlderThan(minimum: int) returns (dropped: nat)
      requires Valid()
      modifies this, samples
      ensures Valid() && View() == DropOlder(old(View()), minimum)
      ensures dropped == old(count) - count
      ensures configurationTag == old(configurationTag)
    {
      BeginMutation();
      var originalCount := count;
      var retained := KeepFresh(minimum);
      dropped := originalCount - retained;
      staleDrops := U32(staleDrops + dropped);
      FinishMutation();
    }

    method KeepFresh(minimum: int) returns (retained: nat)
      requires Shaped()
      modifies this`head, this`count, samples
      ensures Shaped() && retained == count <= old(count) && Items() == Fresh(old(Items()), minimum)
    {
      retained := CompactFresh(minimum);
      Truncate(retained);
    }

    /** Moves the fresh samples to the front of the ring, in order and in place. */
    method CompactFresh(minimum: int) returns (retained: nat)
      requires Shaped()
      modifies samples
      ensures retained <= count && Items()[..retained] == Fresh(old(Items()), minimum)
    {
      ghost var was := Items();
      retained := 0;
      for index := 0 to count
        invariant retained <= index
        invariant Items()[..retained] == Fresh(was[..index], minimum)
        invariant Items()[index..] == was[index..]
      {
        ghost var now := Items();
        CompactStep(was, now, minimum, index, retained);
        assert samples[RingPosition(head, index, samples.Length)] == now[index];
        if samples[RingPosition(head, index, samples.Length)].timestamp >= minimum {
          if retained != index { Move(index, retained); }
          assert Items() == now[retained := now[index]];
          retained := retained + 1;
        }
      }
      assert was[..count] == was;
    }

    /** A reset between these two calls leaves magic 0, which recovery rejects. */
    method BeginMutation()
      requires expectedMagic != 0
      modifies this`magic
      ensures !IntegrityIsValid()
    {
      magic := 0;
    }

    method FinishMutation()
      modifies this`checksum, this`magic
      ensures IntegrityIsValid()
    {
      checksum := Contained();
      magic := expectedMagic;
    }
  }
}
