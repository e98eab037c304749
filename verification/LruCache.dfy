/** The bounded least-recently-used cache: an insertion-ordered map in which every
    use re-inserts its key. */
module LruCache {
  import opened Wrappers

  datatype Entry<K, V> = Entry(key: K, value: V)

  // ---------------------------------------------------- specification functions

  function Position<K(==), V>(entries: seq<Entry<K, V>>, k: K): (i: nat)
    ensures i <= |entries|
    ensures forall j :: 0 <= j < i ==> entries[j].key != k
    ensures i < |entries| ==> entries[i].key == k
  {
    if entries == [] || entries[0].key == k then 0 else 1 + Position(entries[1..], k)
  }

  function Deleted<K(==), V>(entries: seq<Entry<K, V>>, k: K): seq<Entry<K, V>>
  {
    var i := Position(entries, k);
    if i == |entries| then entries else entries[..i] + entries[i + 1..]
  }

  /** Deleting and inserting again moves a key to the most-recent end. */
  function Reinserted<K(==), V>(entries: seq<Entry<K, V>>, k: K, v: V): seq<Entry<K, V>>
  {
    Deleted(entries, k) + [Entry(k, v)]
  }

  function Found<K(==), V>(entries: seq<Entry<K, V>>, k: K): Option<V>
  {
    var i := Position(entries, k);
    if i == |entries| then None else Some(entries[i].value)
  }

  function AfterGet<K(==), V>(entries: seq<Entry<K, V>>, k: K): seq<Entry<K, V>>
  {
    match Found(entries, k)
    case None => entries
    case Some(v) => Reinserted(entries, k, v)
  }

  function Overflow<K, V>(entries: seq<Entry<K, V>>, maxSize: nat): nat
  {
    if |entries| > maxSize then |entries| - maxSize else 0
  }

  function AfterSet<K(==), V>(entries: seq<Entry<K, V>>, maxSize: nat, k: K, v: V): seq<Entry<K, V>>
  {
    var inserted := Reinserted(entries, k, v);
    inserted[Overflow(inserted, maxSize)..]
  }

  lemma EvictOldest<K, V>(evicted: seq<Entry<K, V>>, entries: seq<Entry<K, V>>)
    requires entries != []
    ensures (evicted + [entries[0]]) + entries[1..] == evicted + entries
  {
  }

  class Cache<K(==), V> {
    const maxSize: nat
    var entries: seq<Entry<K, V>>

    constructor (maxSize: nat)
      requires maxSize >= 1
      ensures this.maxSize == maxSize && entries == []
    {
      this.maxSize := maxSize;
      entries := [];
    }

    /** A hit counts as a use. */
    method Get(k: K) returns (v: Option<V>)
      modifies this`entries
      ensures v == Found(old(entries), k) && entries == AfterGet(old(entries), k)
    {
      var i := Position(entries, k);
      if i == |entries| { return None; }
      var value := entries[i].value;
      entries := entries[..i] + entries[i + 1..];
      assert entries == Deleted(old(entries), k);
      entries := entries + [Entry(k, value)];
      return Some(value);
    }

    /** An overwrite counts as a use; the oldest entries are evicted, oldest first. */
    method Set(k: K, v: V) returns (evicted: seq<Entry<K, V>>)
      modifies this`entries
      ensures entries == AfterSet(old(entries), maxSize, k, v)
      ensures evicted + entries == Reinserted(old(entries), k, v)
    {
      var i := Position(entries, k);
      if i < |entries| { entries := entries[..i] + entries[i + 1..]; }
      entries := entries + [Entry(k, v)];
      ghost var inserted := entries;
      evicted := [];
      while |entries| > maxSize
        invariant |evicted| <= Overflow(inserted, maxSize)
        invariant evicted + entries == inserted
      {
        EvictOldest(evicted, entries);
        evicted := evicted + [entries[0]];
        entries := entries[1..];
      }
      assert inserted == Reinserted(old(entries), k, v);
      assert |evicted| == Overflow(inserted, maxSize);
      assert entries == inserted[|evicted|..];
    }

    method Delete(k: K) returns (present: bool)
      modifies this`entries
      ensures entries == Deleted(old(entries), k) && present == Found(old(entries), k).Some?
    {
      var i := Position(entries, k);
      if i == |entries| { return false; }
      entries := entries[..i] + entries[i + 1..];
      return true;
    }

    method Clear()
      modifies this`entries
      ensures entries == []
    {
      entries := [];
    }
  }

  // ------------------------------------------------------------- recency, exactly

  /** When `k` was last used, or -1. */
  ghost function LastUse<K, V>(uses: seq<Entry<K, V>>, k: K): (i: int)
    ensures -1 <= i < |uses|
    ensures i >= 0 ==> uses[i].key == k
    ensures forall j :: i < j < |uses| ==> uses[j].key != k
  {
    if uses == [] then -1
    else if uses[|uses| - 1].key == k then |uses| - 1
    else LastUse(uses[..|uses| - 1], k)
  }

  /** Entries sit in last-use order with their last values. */
  ghost predicate EntriesRecent<K, V>(entries: seq<Entry<K, V>>, uses: seq<Entry<K, V>>)
  {
    && (forall i :: 0 <= i < |entries| ==>
          LastUse(uses, entries[i].key) >= 0 && uses[LastUse(uses, entries[i].key)] == entries[i])
    && (forall i, j :: 0 <= i < j < |entries| ==> LastUse(uses, entries[i].key) < LastUse(uses, entries[j].key))
  }

  ghost predicate Missing<K, V>(entries: seq<Entry<K, V>>, uses: seq<Entry<K, V>>, k: K)
  {
    LastUse(uses, k) >= 0 && Position(entries, k) == |entries|
  }

  ghost predicate OlderThanAll<K, V>(entries: seq<Entry<K, V>>, uses: seq<Entry<K, V>>, k: K)
  {
    entries != [] ==> LastUse(uses, k) < LastUse(uses, entries[0].key)
  }

  /** What is missing was used before every entry, and only gave way to a full cache:
      all places but the `freed` ones are still taken. */
  ghost predicate MissingOlder<K(!new), V>(entries: seq<Entry<K, V>>, uses: seq<Entry<K, V>>, maxSize: nat, freed: nat)
  {
    forall k :: Missing(entries, uses, k) ==> |entries| + freed == maxSize && OlderThanAll(entries, uses, k)
  }

  /** The cache against the log of uses since the last clear, without deleted keys;
      `freed` counts the places deletions have freed since then and no set has taken
      again. */
  ghost predicate RecencyExact<K(!new), V(!new)>(
      entries: seq<Entry<K, V>>, uses: seq<Entry<K, V>>, maxSize: nat, freed: nat)
  {
    |entries| + freed <= maxSize && EntriesRecent(entries, uses) && MissingOlder(entries, uses, maxSize, freed)
  }

  lemma LastUseSnoc<K, V>(uses: seq<Entry<K, V>>, e: Entry<K, V>, k: K)
    ensures LastUse(uses + [e], k) == if e.key == k then |uses| else LastUse(uses, k)
  {
  }

  ghost predicate OnceAtMost<K, V>(entries: seq<Entry<K, V>>, k: K)
  {
    forall j :: 0 <= j < |entries| && j != Position(entries, k) ==> entries[j].key != k
  }

  lemma KeysOccurOnce<K(!new), V(!new)>(entries: seq<Entry<K, V>>, uses: seq<Entry<K, V>>, k: K)
    requires EntriesRecent(entries, uses)
    ensures OnceAtMost(entries, k)
  {
  }

  /** Deleting a key leaves the other entries, in order. */
  lemma DeletedKeepsOthers<K, V>(entries: seq<Entry<K, V>>, k: K)
    requires OnceAtMost(entries, k)
    ensures var rest, p := Deleted(entries, k), Position(entries, k);
      && |rest| == (if p < |entries| then |entries| - 1 else |entries|)
      && (forall i :: 0 <= i < |rest| ==> rest[i].key != k && rest[i] == entries[if i < p then i else i + 1])
  {
    var rest, p := Deleted(entries, k), Position(entries, k);
    forall i | 0 <= i < |rest| ensures rest[i].key != k && rest[i] == entries[if i < p then i else i + 1] {
      if p < |entries| { assert rest[i] == (entries[..p] + entries[p + 1..])[i]; }
    }
  }

  lemma PositionAbsent<K, V>(entries: seq<Entry<K, V>>, k: K)
    ensures Position(entries, k) == |entries| <==> forall i :: 0 <= i < |entries| ==> entries[i].key != k
  {
  }

  /** `after` holds some of the entries, oldest first, and then `e`, whose key is in none of them. */
  ghost predicate Selection<K, V>(entries: seq<Entry<K, V>>, from: seq<nat>, after: seq<Entry<K, V>>, e: Entry<K, V>)
  {
    && |after| == |from| + 1 && after[|from|] == e
    && (forall i :: 0 <= i < |from| ==> from[i] < |entries| && after[i] == entries[from[i]] && after[i].key != e.key)
    && (forall i, j :: 0 <= i < j < |from| ==> from[i] < from[j])
  }

  lemma AfterSetIs<K, V>(entries: seq<Entry<K, V>>, maxSize: nat, k: K, v: V)
    requires maxSize > 0
    ensures var rest, cut := Deleted(entries, k), Overflow(Reinserted(entries, k, v), maxSize);
      cut <= |rest| && AfterSet(entries, maxSize, k, v) == rest[cut..] + [Entry(k, v)] && |rest| - cut < maxSize
  {
  }

  /** The positions left when the first `cut` go, with position p out of the count. */
  function KeptPositions(n: nat, cut: nat, p: nat): (from: seq<nat>)
    requires cut <= n
    ensures |from| == n - cut && forall i :: 0 <= i < |from| ==> from[i] == if cut + i < p then cut + i else cut + i + 1
  {
    seq(n - cut, i requires 0 <= i < n - cut => if cut + i < p then cut + i else cut + i + 1)
  }

  /** A use re-inserts its key last and keeps the others in order. */
  lemma AfterSetEntries<K, V>(entries: seq<Entry<K, V>>, maxSize: nat, k: K, v: V)
    returns (from: seq<nat>)
    requires OnceAtMost(entries, k) && maxSize > 0
    ensures Selection(entries, from, AfterSet(entries, maxSize, k, v), Entry(k, v))
    ensures |AfterSet(entries, maxSize, k, v)| <= maxSize
  {
    DeletedKeepsOthers(entries, k);
    AfterSetIs(entries, maxSize, k, v);
    var rest, cut := Deleted(entries, k), Overflow(Reinserted(entries, k, v), maxSize);
    var entries' := AfterSet(entries, maxSize, k, v);
    from := KeptPositions(|rest|, cut, Position(entries, k));
    forall i | 0 <= i < |from| ensures from[i] < |entries| && entries'[i] == entries[from[i]] && entries'[i].key != k {
      assert entries'[i] == rest[cut + i];
    }
  }

  lemma SelectionIsRecent<K, V>(
      entries: seq<Entry<K, V>>, uses: seq<Entry<K, V>>, from: seq<nat>, after: seq<Entry<K, V>>, e: Entry<K, V>)
    requires EntriesRecent(entries, uses) && Selection(entries, from, after, e)
    ensures EntriesRecent(after, uses + [e])
  {
  }

  /** Only the oldest entry of a full cache can be evicted, and only by a new key. */
  lemma EvictedIsOldest<K, V>(entries: seq<Entry<K, V>>, maxSize: nat, k: K, v: V, q: K)
    requires |entries| <= maxSize && maxSize > 0 && OnceAtMost(entries, k) && q != k
    requires var entries' := AfterSet(entries, maxSize, k, v); Position(entries', q) == |entries'|
    requires Position(entries, q) < |entries|
    ensures Position(entries, q) == 0 && |entries| == maxSize
    ensures AfterSet(entries, maxSize, k, v) == entries[1..] + [Entry(k, v)]
  {
    DeletedKeepsOthers(entries, k);
    if |Deleted(entries, k)| < maxSize {
      KeyStaysWhileRoom(entries, maxSize, k, v, q);
      assert false;
    }
    assert Deleted(entries, k) == entries;
    AfterSetIs(entries, maxSize, k, v);
    OnlyTheFirstIsGone(entries, Entry(k, v), q);
  }

  lemma OnlyTheFirstIsGone<K, V>(entries: seq<Entry<K, V>>, e: Entry<K, V>, q: K)
    requires Position(entries, q) < |entries|
    ensures Position(entries[1..] + [e], q) == |entries| ==> Position(entries, q) == 0
  {
    var shifted, at := entries[1..] + [e], Position(entries, q);
    PositionAbsent(shifted, q);
    assert forall i {:trigger entries[i]} :: 0 < i < |entries| ==> shifted[i - 1] == entries[i];
  }

  lemma KeyStaysWhileRoom<K, V>(entries: seq<Entry<K, V>>, maxSize: nat, k: K, v: V, q: K)
    requires OnceAtMost(entries, k) && q != k && Position(entries, q) < |entries| && |Deleted(entries, k)| < maxSize
    ensures Position(AfterSet(entries, maxSize, k, v), q) < |AfterSet(entries, maxSize, k, v)|
  {
    DeletedKeepsKey(entries, k, q);
    AfterSetIs(entries, maxSize, k, v);
    var rest, entries' := Deleted(entries, k), AfterSet(entries, maxSize, k, v);
    assert entries'[Position(rest, q)] == rest[Position(rest, q)];
    PositionAbsent(entries', q);
  }

  lemma DeletedKeepsKey<K, V>(entries: seq<Entry<K, V>>, k: K, q: K)
    requires OnceAtMost(entries, k) && q != k && Position(entries, q) < |entries|
    ensures Position(Deleted(entries, k), q) < |Deleted(entries, k)|
  {
    DeletedKeepsOthers(entries, k);
    var at, p, rest := Position(entries, q), Position(entries, k), Deleted(entries, k);
    assert rest[if at < p then at else at - 1] == entries[at];
    PositionAbsent(rest, q);
  }

  /** A new key takes a freed place, if there is one. */
  function Taken<K(==), V>(entries: seq<Entry<K, V>>, freed: nat, k: K): nat
  {
    if Position(entries, k) == |entries| && freed > 0 then freed - 1 else freed
  }

  lemma PlacesTaken<K, V>(entries: seq<Entry<K, V>>, maxSize: nat, freed: nat, k: K, v: V)
    requires |entries| + freed <= maxSize && maxSize > 0
    ensures var places := |AfterSet(entries, maxSize, k, v)| + Taken(entries, freed, k);
      places <= maxSize && (|entries| + freed == maxSize ==> places == maxSize)
  {
  }

  lemma UncachedKeyIsOlder<K(!new), V(!new)>(
      entries: seq<Entry<K, V>>, uses: seq<Entry<K, V>>, maxSize: nat, freed: nat, k: K, v: V, q: K)
    requires RecencyExact(entries, uses, maxSize, freed) && maxSize > 0 && Missing(entries, uses, q)
    ensures var entries' := AfterSet(entries, maxSize, k, v);
      entries'[0].key == k || LastUse(uses, q) < LastUse(uses, entries'[0].key)
  {
  }

  lemma MissingKeyIsOlder<K(!new), V(!new)>(
      entries: seq<Entry<K, V>>, uses: seq<Entry<K, V>>, maxSize: nat, freed: nat, k: K, v: V, q: K)
    requires RecencyExact(entries, uses, maxSize, freed) && maxSize > 0 && q != k && LastUse(uses, q) >= 0
    ensures var entries' := AfterSet(entries, maxSize, k, v); Position(entries', q) == |entries'| ==>
      |entries| + freed == maxSize && (entries'[0].key == k || LastUse(uses, q) < LastUse(uses, entries'[0].key))
  {
    if Position(entries, q) == |entries| {
      assert Missing(entries, uses, q);
      UncachedKeyIsOlder(entries, uses, maxSize, freed, k, v, q);
    } else if Position(AfterSet(entries, maxSize, k, v), q) == |AfterSet(entries, maxSize, k, v)| {
      KeysOccurOnce(entries, uses, k);
      EvictedIsOldest(entries, maxSize, k, v, q);
      if |entries| > 1 { assert LastUse(uses, entries[0].key) < LastUse(uses, entries[1].key); }
    }
  }

  lemma UseKeepsEntriesRecent<K(!new), V(!new)>(
      entries: seq<Entry<K, V>>, uses: seq<Entry<K, V>>, maxSize: nat, k: K, v: V)
    requires EntriesRecent(entries, uses) && maxSize > 0
    ensures EntriesRecent(AfterSet(entries, maxSize, k, v), uses + [Entry(k, v)])
    ensures |AfterSet(entries, maxSize, k, v)| <= maxSize
  {
    KeysOccurOnce(entries, uses, k);
    var from := AfterSetEntries(entries, maxSize, k, v);
    SelectionIsRecent(entries, uses, from, AfterSet(entries, maxSize, k, v), Entry(k, v));
  }

  lemma UseKeepsMissingOlder<K(!new), V(!new)>(
      entries: seq<Entry<K, V>>, uses: seq<Entry<K, V>>, maxSize: nat, freed: nat, k: K, v: V, q: K)
    requires RecencyExact(entries, uses, maxSize, freed) && maxSize > 0
    requires Missing(AfterSet(entries, maxSize, k, v), uses + [Entry(k, v)], q)
    ensures |AfterSet(entries, maxSize, k, v)| + Taken(entries, freed, k) == maxSize
    ensures OlderThanAll(AfterSet(entries, maxSize, k, v), uses + [Entry(k, v)], q)
  {
    var entries' := AfterSet(entries, maxSize, k, v);
    LastUseSnoc(uses, Entry(k, v), q);
    PositionAbsent(entries', q);
    assert entries'[|entries'| - 1].key == k;
    MissingKeyIsOlder(entries, uses, maxSize, freed, k, v, q);
    PlacesTaken(entries, maxSize, freed, k, v);
    LastUseSnoc(uses, Entry(k, v), entries'[0].key);
  }

  /** Using `k` and trimming to `maxSize` keeps recency exact. */
  lemma UseKeepsRecency<K(!new), V(!new)>(
      entries: seq<Entry<K, V>>, uses: seq<Entry<K, V>>, maxSize: nat, freed: nat, k: K, v: V)
    requires RecencyExact(entries, uses, maxSize, freed) && maxSize > 0
    ensures RecencyExact(AfterSet(entries, maxSize, k, v), uses + [Entry(k, v)], maxSize, Taken(entries, freed, k))
  {
    UseKeepsEntriesRecent(entries, uses, maxSize, k, v);
    PlacesTaken(entries, maxSize, freed, k, v);
    forall q | Missing(AfterSet(entries, maxSize, k, v), uses + [Entry(k, v)], q)
      ensures |AfterSet(entries, maxSize, k, v)| + Taken(entries, freed, k) == maxSize
      ensures OlderThanAll(AfterSet(entries, maxSize, k, v), uses + [Entry(k, v)], q)
    {
      UseKeepsMissingOlder(entries, uses, maxSize, freed, k, v, q);
    }
  }

  /** The log without the uses of `k`. */
  ghost function Unlogged<K, V>(uses: seq<Entry<K, V>>, k: K): seq<Entry<K, V>>
  {
    if uses == [] then []
    else
      var n := |uses| - 1;
      Unlogged(uses[..n], k) + if uses[n].key == k then [] else [uses[n]]
  }

  lemma {:induction false} UnloggedForgets<K, V>(uses: seq<Entry<K, V>>, k: K)
    ensures LastUse(Unlogged(uses, k), k) == -1
    decreases |uses|
  {
    if uses != [] {
      var n := |uses| - 1;
      UnloggedForgets(uses[..n], k);
      if uses[n].key != k {
        LastUseSnoc(Unlogged(uses[..n], k), uses[n], k);
      } else {
        assert Unlogged(uses, k) == Unlogged(uses[..n], k);
      }
    }
  }

  /** The other keys keep their last uses, in order. */
  lemma {:induction false} UnloggedKeepsOthers<K, V>(uses: seq<Entry<K, V>>, k: K, p: K, q: K)
    requires p != k && q != k
    ensures LastUse(Unlogged(uses, k), p) >= 0 <==> LastUse(uses, p) >= 0
    ensures LastUse(uses, p) >= 0 ==> Unlogged(uses, k)[LastUse(Unlogged(uses, k), p)] == uses[LastUse(uses, p)]
    ensures LastUse(uses, p) < LastUse(uses, q) ==> LastUse(Unlogged(uses, k), p) < LastUse(Unlogged(uses, k), q)
    decreases |uses|
  {
    if uses != [] {
      var n := |uses| - 1;
      UnloggedKeepsOthers(uses[..n], k, p, q);
      if uses[n].key != k {
        LastUseSnoc(Unlogged(uses[..n], k), uses[n], p);
        LastUseSnoc(Unlogged(uses[..n], k), uses[n], q);
      } else {
        assert Unlogged(uses, k) == Unlogged(uses[..n], k);
      }
    }
  }

  lemma DeleteKeepsEntriesRecent<K(!new), V(!new)>(entries: seq<Entry<K, V>>, uses: seq<Entry<K, V>>, k: K)
    requires EntriesRecent(entries, uses)
    ensures EntriesRecent(Deleted(entries, k), Unlogged(uses, k))
  {
    KeysOccurOnce(entries, uses, k);
    DeletedKeepsOthers(entries, k);
    var rest, log := Deleted(entries, k), Unlogged(uses, k);
    forall i | 0 <= i < |rest| ensures LastUse(log, rest[i].key) >= 0 && log[LastUse(log, rest[i].key)] == rest[i] {
      UnloggedKeepsOthers(uses, k, rest[i].key, rest[i].key);
    }
    forall i, j | 0 <= i < j < |rest| ensures LastUse(log, rest[i].key) < LastUse(log, rest[j].key) {
      UnloggedKeepsOthers(uses, k, rest[i].key, rest[j].key);
    }
  }

  lemma DeleteKeepsMissingOlder<K(!new), V(!new)>(
      entries: seq<Entry<K, V>>, uses: seq<Entry<K, V>>, maxSize: nat, freed: nat, k: K, q: K)
    requires RecencyExact(entries, uses, maxSize, freed) && Missing(Deleted(entries, k), Unlogged(uses, k), q)
    ensures |entries| + freed == maxSize && OlderThanAll(Deleted(entries, k), Unlogged(uses, k), q)
  {
    var rest := Deleted(entries, k);
    KeysOccurOnce(entries, uses, k);
    UnloggedForgets(uses, k);
    UnloggedKeepsOthers(uses, k, q, q);
    if Position(entries, q) < |entries| { DeletedKeepsKey(entries, k, q); }
    assert Missing(entries, uses, q);
    if rest != [] {
      DeletedKeepsOthers(entries, k);
      UnloggedKeepsOthers(uses, k, q, rest[0].key);
      assert rest[0] == entries[0] || LastUse(uses, entries[0].key) < LastUse(uses, rest[0].key);
    }
  }

  /** Deleting a key frees its place and keeps recency exact for the others. */
  lemma DeleteKeepsRecency<K(!new), V(!new)>(
      entries: seq<Entry<K, V>>, uses: seq<Entry<K, V>>, maxSize: nat, freed: nat, k: K)
    requires RecencyExact(entries, uses, maxSize, freed)
    ensures RecencyExact(Deleted(entries, k), Unlogged(uses, k), maxSize, freed + |entries| - |Deleted(entries, k)|)
  {
    DeleteKeepsEntriesRecent(entries, uses, k);
    forall q | Missing(Deleted(entries, k), Unlogged(uses, k), q)
      ensures |entries| + freed == maxSize && OlderThanAll(Deleted(entries, k), Unlogged(uses, k), q)
    {
      DeleteKeepsMissingOlder(entries, uses, maxSize, freed, k, q);
    }
  }

  datatype Op<K, V> = GetOp(key: K) | SetOp(key: K, value: V) | DeleteOp(key: K) | ClearOp

  function Apply<K(==), V>(entries: seq<Entry<K, V>>, maxSize: nat, op: Op<K, V>): seq<Entry<K, V>>
  {
    match op
    case GetOp(k) => AfterGet(entries, k)
    case SetOp(k, v) => AfterSet(entries, maxSize, k, v)
    case DeleteOp(k) => Deleted(entries, k)
    case ClearOp => []
  }

  /** What the theorem keeps beside the entries: the uses, and the places freed
      and not taken again. */
  datatype Log<K, V> = Log(uses: seq<Entry<K, V>>, freed: nat)

  /** A hit and a set are uses; a new key takes a freed place; a deletion forgets its
      key and frees its place; a clear forgets everything. */
  ghost function Logged<K, V>(entries: seq<Entry<K, V>>, log: Log<K, V>, op: Op<K, V>): Log<K, V>
  {
    match op
    case GetOp(k) => (match Found(entries, k) case None => log case Some(v) => log.(uses := log.uses + [Entry(k, v)]))
    case SetOp(k, v) => Log(log.uses + [Entry(k, v)], Taken(entries, log.freed, k))
    case DeleteOp(k) => Log(Unlogged(log.uses, k), log.freed + if Position(entries, k) < |entries| then 1 else 0)
    case ClearOp => Log([], 0)
  }

  lemma ApplyKeepsRecency<K(!new), V(!new)>(entries: seq<Entry<K, V>>, log: Log<K, V>, maxSize: nat, op: Op<K, V>)
    requires RecencyExact(entries, log.uses, maxSize, log.freed) && maxSize > 0
    ensures var log' := Logged(entries, log, op);
      RecencyExact(Apply(entries, maxSize, op), log'.uses, maxSize, log'.freed)
  {
    match op {
      case GetOp(k) =>
        if Found(entries, k).Some? {
          UseKeepsRecency(entries, log.uses, maxSize, log.freed, k, Found(entries, k).value);
          assert |Reinserted(entries, k, Found(entries, k).value)| == |entries|;
        }
      case SetOp(k, v) => UseKeepsRecency(entries, log.uses, maxSize, log.freed, k, v);
      case DeleteOp(k) => DeleteKeepsRecency(entries, log.uses, maxSize, log.freed, k);
      case ClearOp =>
    }
  }

  function Run<K(==), V>(entries: seq<Entry<K, V>>, maxSize: nat, ops: seq<Op<K, V>>): seq<Entry<K, V>>
    decreases |ops|
  {
    if ops == [] then entries else Run(Apply(entries, maxSize, ops[0]), maxSize, ops[1..])
  }

  ghost function RunLog<K, V>(entries: seq<Entry<K, V>>, log: Log<K, V>, maxSize: nat, ops: seq<Op<K, V>>): Log<K, V>
    decreases |ops|
  {
    if ops == [] then log else RunLog(Apply(entries, maxSize, ops[0]), Logged(entries, log, ops[0]), maxSize, ops[1..])
  }

  /** After any gets, sets, deletions and clears the cache holds the most recently
      used keys not deleted since, at most `maxSize` of them, with their latest
      values, in last-use order; if a key has been evicted, all places but those
      freed since and not taken again are still taken. */
  lemma {:induction false} RunKeepsRecency<K(!new), V(!new)>(
      entries: seq<Entry<K, V>>, log: Log<K, V>, maxSize: nat, ops: seq<Op<K, V>>)
    requires RecencyExact(entries, log.uses, maxSize, log.freed) && maxSize > 0
    ensures var log' := RunLog(entries, log, maxSize, ops);
      RecencyExact(Run(entries, maxSize, ops), log'.uses, maxSize, log'.freed)
    decreases |ops|
  {
    if ops != [] {
      ApplyKeepsRecency(entries, log, maxSize, ops[0]);
      RunKeepsRecency(Apply(entries, maxSize, ops[0]), Logged(entries, log, ops[0]), maxSize, ops[1..]);
    }
  }

  // ------------------------------------------------- an entry outlives few uses

  ghost predicate DistinctKeys<K, V>(entries: seq<Entry<K, V>>)
  {
    forall i, j :: 0 <= i < j < |entries| ==> entries[i].key != entries[j].key
  }

  ghost predicate UsedSinceAt<K, V>(entries: seq<Entry<K, V>>, e: Entry<K, V>, others: set<K>, at: int)
  {
    && 0 <= at < |entries| && entries[at] == e && e.key !in others
    && forall i :: at < i < |entries| ==> entries[i].key in others
  }

  /** `e` is cached, and behind it are only keys among `others`, each once. */
  ghost predicate UsedSince<K, V>(entries: seq<Entry<K, V>>, e: Entry<K, V>, others: set<K>)
  {
    DistinctKeys(entries) && UsedSinceAt(entries, e, others, Position(entries, e.key))
  }

  lemma UseKeepsDistinct<K(!new), V(!new)>(entries: seq<Entry<K, V>>, maxSize: nat, k: K, v: V)
    requires DistinctKeys(entries) && maxSize > 0
    ensures DistinctKeys(AfterSet(entries, maxSize, k, v))
  {
    var from := AfterSetEntries(entries, maxSize, k, v);
    SelectionKeepsDistinct(entries, from, AfterSet(entries, maxSize, k, v), Entry(k, v));
  }

  lemma SelectionKeepsDistinct<K(!new), V(!new)>(
      entries: seq<Entry<K, V>>, from: seq<nat>, after: seq<Entry<K, V>>, last: Entry<K, V>)
    requires DistinctKeys(entries) && Selection(entries, from, after, last)
    ensures DistinctKeys(after)
  {
  }

  lemma {:induction false} DistinctKeysAreFew<K, V>(entries: seq<Entry<K, V>>, keys: set<K>)
    requires DistinctKeys(entries) && forall i :: 0 <= i < |entries| ==> entries[i].key in keys
    ensures |entries| <= |keys|
    decreases |entries|
  {
    if entries != [] {
      var n := |entries| - 1;
      DistinctKeysAreFew(entries[..n], keys - {entries[n].key});
    }
  }

  lemma RecentIsNotEvicted<K(!new), V(!new)>(
      entries: seq<Entry<K, V>>, maxSize: nat, k: K, v: V, e: Entry<K, V>, others: set<K>)
    requires |entries| <= maxSize && UsedSince(entries, e, others) && k != e.key && |others + {k}| < maxSize
    ensures Position(AfterSet(entries, maxSize, k, v), e.key) < |AfterSet(entries, maxSize, k, v)|
  {
    var after := AfterSet(entries, maxSize, k, v);
    if Position(after, e.key) == |after| {
      EvictedIsOldest(entries, maxSize, k, v, e.key);
      UseKeepsDistinct(entries, maxSize, k, v);
      assert forall i {:trigger after[i]} :: 0 <= i < |entries| - 1 ==> after[i] == entries[i + 1];
      DistinctKeysAreFew(after, others + {k});
      assert false;
    }
  }

  lemma SelectionKeepsTail<K(!new), V(!new)>(
      entries: seq<Entry<K, V>>, from: seq<nat>, after: seq<Entry<K, V>>, last: Entry<K, V>,
      e: Entry<K, V>, others: set<K>, at: nat)
    requires UsedSince(entries, e, others) && Selection(entries, from, after, last) && last.key != e.key
    requires at < |after| && after[at].key == e.key
    ensures UsedSinceAt(after, e, others + {last.key}, at)
  {
    assert from[at] == Position(entries, e.key);
    forall i | at < i < |after| ensures after[i].key in others + {last.key} {
      if i < |from| { assert from[at] < from[i]; }
    }
  }

  /** The entry of another key is not evicted while fewer keys than the cache holds have
      been used since. */
  lemma UseSparesRecent<K(!new), V(!new)>(
      entries: seq<Entry<K, V>>, maxSize: nat, k: K, v: V, e: Entry<K, V>, others: set<K>)
    requires |entries| <= maxSize && UsedSince(entries, e, others) && k != e.key && |others + {k}| < maxSize
    ensures UsedSince(AfterSet(entries, maxSize, k, v), e, others + {k})
  {
    var after := AfterSet(entries, maxSize, k, v);
    var from := AfterSetEntries(entries, maxSize, k, v);
    UseKeepsDistinct(entries, maxSize, k, v);
    RecentIsNotEvicted(entries, maxSize, k, v, e, others);
    SelectionKeepsTail(entries, from, after, Entry(k, v), e, others, Position(after, e.key));
  }

  /** Using the key itself moves it to the recent end. */
  lemma UseRefreshes<K(!new), V(!new)>(entries: seq<Entry<K, V>>, maxSize: nat, k: K, v: V, others: set<K>)
    requires DistinctKeys(entries) && maxSize > 0 && k !in others
    ensures UsedSince(AfterSet(entries, maxSize, k, v), Entry(k, v), others)
  {
    var from := AfterSetEntries(entries, maxSize, k, v);
    UseKeepsDistinct(entries, maxSize, k, v);
    assert Position(AfterSet(entries, maxSize, k, v), k) == |from|;
  }

  /** A hit is a set of the value found. */
  lemma GetIsSet<K(!new), V(!new)>(entries: seq<Entry<K, V>>, maxSize: nat, k: K)
    requires |entries| <= maxSize
    ensures AfterGet(entries, k) ==
      (if Found(entries, k).Some? then AfterSet(entries, maxSize, k, Found(entries, k).value) else entries)
  {
  }

  lemma GetKeepsDistinct<K(!new), V(!new)>(entries: seq<Entry<K, V>>, maxSize: nat, k: K)
    requires 0 < maxSize && |entries| <= maxSize && DistinctKeys(entries)
    ensures DistinctKeys(AfterGet(entries, k))
  {
    GetIsSet(entries, maxSize, k);
    if Found(entries, k).Some? { UseKeepsDistinct(entries, maxSize, k, Found(entries, k).value); }
  }

  lemma GetSparesRecent<K(!new), V(!new)>(
      entries: seq<Entry<K, V>>, maxSize: nat, k: K, e: Entry<K, V>, others: set<K>)
    requires 0 < maxSize && |entries| <= maxSize && UsedSince(entries, e, others) && |others + {k} - {e.key}| < maxSize
    ensures |AfterGet(entries, k)| <= maxSize && UsedSince(AfterGet(entries, k), e, others + {k} - {e.key})
  {
    GetIsSet(entries, maxSize, k);
    if k == e.key {
      assert others + {k} - {k} == others;
      UseRefreshes(entries, maxSize, k, e.value, others);
    } else {
      assert others + {k} - {e.key} == others + {k};
      if Found(entries, k).Some? { UseSparesRecent(entries, maxSize, k, Found(entries, k).value, e, others); }
    }
  }
}
