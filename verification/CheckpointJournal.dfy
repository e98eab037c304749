/** The firmware's crash-safe checkpoint journal: an append-only ring of sealed
    records over erase pages, addressed by a wrapping 32-bit generation. */
module CheckpointJournal {
  import opened Wrappers
  import opened Words

  /** What the codec makes of a stored slot: it opens only what it sealed. */
  datatype Slot<+S> = Unreadable | Sealed(generation: uint32, sample: S)

  /** A failed or interrupted erase leaves each record of its own page kept or
      unreadable. */
  datatype EraseOutcome = Erased | EraseFailed(kept: set<nat>)

  /** A failed or interrupted write leaves its own slot old, new or torn. */
  datatype Residue = Old | New | Torn
  datatype WriteOutcome = Written | WriteFailed(residue: Residue)

  datatype Faults = Faults(sealOk: bool, erase: EraseOutcome, write: WriteOutcome)

  /** SIZE_MAX on the 32-bit target: no latest record. */
  const NO_INDEX: nat := 0xFFFF_FFFF

  // ---------------------------------------------------------------- storage

  function EraseSlots<S>(flash: seq<Slot<S>>, page: nat, perPage: nat, outcome: EraseOutcome): (after: seq<Slot<S>>)
    requires perPage > 0
    ensures |after| == |flash|
    ensures forall i {:trigger after[i]} :: 0 <= i < |flash| && i / perPage != page ==> after[i] == flash[i]
    ensures forall i {:trigger after[i]} :: 0 <= i < |flash| ==> after[i] == flash[i] || after[i] == Unreadable
  {
    seq(|flash|, i requires 0 <= i < |flash| =>
      if i / perPage == page && !(outcome.EraseFailed? && i in outcome.kept) then Unreadable else flash[i])
  }

  function WriteSlot<S>(flash: seq<Slot<S>>, index: nat, record: Slot<S>, outcome: WriteOutcome): seq<Slot<S>>
    requires index < |flash|
  {
    match outcome
    case Written => flash[index := record]
    case WriteFailed(Old) => flash
    case WriteFailed(New) => flash[index := record]
    case WriteFailed(Torn) => flash[index := Unreadable]
  }

  class FlashStorage<S> {
    const slots: array<Slot<S>>
    const recordsPerPage: nat

    constructor (count: nat, recordsPerPage: nat)
      ensures this.recordsPerPage == recordsPerPage
      ensures fresh(slots) && slots.Length == count
      ensures forall i :: 0 <= i < count ==> slots[i] == Unreadable
    {
      this.recordsPerPage := recordsPerPage;
      slots := new Slot<S>[count](_ => Unreadable);
    }

    method Write(index: nat, record: Slot<S>, outcome: WriteOutcome) returns (ok: bool)
      requires index < slots.Length
      modifies slots
      ensures ok == outcome.Written?
      ensures slots[..] == WriteSlot(old(slots[..]), index, record, outcome)
    {
      match outcome {
        case Written => slots[index] := record;
        case WriteFailed(Old) =>
        case WriteFailed(New) => slots[index] := record;
        case WriteFailed(Torn) => slots[index] := Unreadable;
      }
      ok := outcome.Written?;
    }

    method ErasePage(page: nat, outcome: EraseOutcome) returns (ok: bool)
      requires recordsPerPage > 0
      modifies slots
      ensures ok == outcome.Erased?
      ensures slots[..] == EraseSlots(old(slots[..]), page, recordsPerPage, outcome)
    {
      forall i | 0 <= i < slots.Length {
        slots[i] := if i / recordsPerPage == page && !(outcome.EraseFailed? && i in outcome.kept)
          then Unreadable else slots[i];
      }
      ok := outcome.Erased?;
    }
  }

  // ---------------------------------------------------- specification functions

  /** The journal's volatile fields. */
  datatype Ram<+S> = Ram(ready: bool, found: bool, generation: uint32, writeIndex: nat, latestIndex: nat, latest: S)

  datatype Cursor<+S> = Cursor(found: bool, generation: uint32, index: nat, sample: S)

  /** One scan step: keep the record whose signed generation difference is positive. */
  function Observe<S>(c: Cursor<S>, slot: Slot<S>, index: nat): Cursor<S>
  {
    match slot
    case Unreadable => c
    case Sealed(generation, sample) =>
      if !c.found || S32(generation - c.generation) > 0 then Cursor(true, generation, index, sample) else c
  }

  function Scan<S>(flash: seq<Slot<S>>, n: nat, initial: S): Cursor<S>
    requires n <= |flash|
  {
    if n == 0 then Cursor(false, 0, NO_INDEX, initial)
    else Observe(Scan(flash, n - 1, initial), flash[n - 1], n - 1)
  }

  predicate Usable(count: nat, perPage: nat)
    requires perPage > 0
  {
    count >= 2 * perPage && count % perPage == 0
  }

  /** State after `initialize`; `readFailure` names the first slot whose read fails, if any. */
  function Initialized<S>(ram: Ram<S>, flash: seq<Slot<S>>, perPage: nat, readFailure: Option<nat>): Ram<S>
    requires perPage > 0
  {
    if !Usable(|flash|, perPage) then Ram(false, false, 0, 0, NO_INDEX, ram.latest)
    else if readFailure.Some? && readFailure.value < |flash| then
      var c := Scan(flash, readFailure.value, ram.latest);
      Ram(false, false, c.generation, 0, c.index, c.sample)
    else
      var c := Scan(flash, |flash|, ram.latest);
      Ram(true, c.found, c.generation, if c.found then (c.index + 1) % |flash| else 0, c.index, c.sample)
  }

  /** The page about to be entered holds the last confirmed record. */
  predicate Protected<S>(ram: Ram<S>, perPage: nat)
    requires perPage > 0
  {
    ram.found && ram.writeIndex / perPage == ram.latestIndex / perPage
  }

  datatype Appended<+S> = Appended(ok: bool, ram: Ram<S>, flash: seq<Slot<S>>)

  function AppendResult<S>(ram: Ram<S>, flash: seq<Slot<S>>, perPage: nat, sample: S, faults: Faults): (r: Appended<S>)
    requires perPage > 0
    requires ram.ready ==> ram.writeIndex < |flash|
    ensures |r.flash| == |flash|
  {
    if !ram.ready || !faults.sealOk then Appended(false, ram, flash)
    else
      var index := ram.writeIndex;
      var skip := ram.(writeIndex := (index + perPage) % |flash|);
      if index % perPage == 0 && Protected(ram, perPage) then Appended(false, skip, flash)
      else
        var erased := if index % perPage == 0 then EraseSlots(flash, index / perPage, perPage, faults.erase) else flash;
        if index % perPage == 0 && !faults.erase.Erased? then Appended(false, skip, erased)
        else
          var next := NextNonZero(ram.generation);
          var advanced := ram.(generation := next, writeIndex := (index + 1) % |flash|);
          var written := WriteSlot(erased, index, Sealed(next, sample), faults.write);
          if !faults.write.Written? then Appended(false, advanced, written)
          else Appended(true, advanced.(latest := sample, latestIndex := index, found := true), written)
  }

  // ---------------------------------------------------------------- the journal

  class Journal<S(0)> {
    const storage: FlashStorage<S>
    var latest: S
    var generation: uint32
    var writeIndex: nat
    var latestIndex: nat
    var ready: bool
    var found: bool

    constructor (storage: FlashStorage<S>)
      ensures this.storage == storage && !ready && !found
    {
      this.storage := storage;
      latest := *;
      generation, writeIndex, latestIndex := 0, 0, NO_INDEX;
      ready, found := false, false;
    }

    function View(): Ram<S>
      reads this
    {
      Ram(ready, found, generation, writeIndex, latestIndex, latest)
    }

    ghost predicate Valid()
      reads this
    {
      storage.recordsPerPage > 0 && (ready ==> writeIndex < storage.slots.Length)
    }

    /** Scans every slot for the newest record, unless a read fails. */
    method Initialize(readFailure: Option<nat>) returns (ok: bool)
      requires storage.recordsPerPage > 0
      modifies this
      ensures Valid()
      ensures View() == Initialized(old(View()), storage.slots[..], storage.recordsPerPage, readFailure)
      ensures ok == found
    {
      var count := storage.slots.Length;
      ghost var initial := latest;
      ready := count >= 2 * storage.recordsPerPage && count % storage.recordsPerPage == 0;
      found := false; generation := 0; writeIndex := 0; latestIndex := NO_INDEX;
      if !ready { return false; }
      for index := 0 to count
        invariant ready && writeIndex == 0
        invariant readFailure.Some? ==> index <= readFailure.value
        invariant Cursor(found, generation, latestIndex, latest) == Scan(storage.slots[..], index, initial)
        invariant found ==> latestIndex < index
      {
        if readFailure == Some(index) { ready := false; found := false; return false; }
        var slot := storage.slots[index];
        if slot.Sealed? {
          if !found || S32(slot.generation - generation) > 0 {
            found := true; generation := slot.generation; latest := slot.sample; latestIndex := index;
          }
        }
      }
      if found { writeIndex := (latestIndex + 1) % count; }
      return found;
    }

    method Newest() returns (sample: Option<S>)
      ensures sample == if found then Some(latest) else None
    {
      if !found { return None; }
      return Some(latest);
    }

    /** Appends one record; `faults` says how the codec and the flash behave. */
    method Append(sample: S, faults: Faults) returns (ok: bool)
      requires Valid()
      modifies this, storage.slots
      ensures Valid()
      ensures Appended(ok, View(), storage.slots[..])
           == AppendResult(old(View()), old(storage.slots[..]), storage.recordsPerPage, sample, faults)
    {
      if !ready { return false; }
      var count := storage.slots.Length;
      var perPage := storage.recordsPerPage;
      var index := writeIndex;
      var nextGeneration := U32(generation + 1);
      if nextGeneration == 0 { nextGeneration := nextGeneration + 1; }
      if !faults.sealOk { return false; }
      if index % perPage == 0 {
        if found && index / perPage == latestIndex / perPage {
          writeIndex := (index + perPage) % count;
          return false;
        }
        var erased := storage.ErasePage(index / perPage, faults.erase);
        if !erased {
          writeIndex := (index + perPage) % count;
          return false;
        }
      }
      generation := nextGeneration;
      writeIndex := (index + 1) % count;
      var written := storage.Write(index, Sealed(nextGeneration, sample), faults.write);
      if !written { return false; }
      latest := sample; latestIndex := index; found := true;
      return true;
    }
  }
}
