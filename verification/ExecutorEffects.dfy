/** What each executor operation does for the task it is about, beside the invariants
    it keeps: who is admitted, who expires, who is found overdue. */
module ExecutorEffects {
  import opened Wrappers
  import opened MapSums
  import opened ExecutorModel
  import opened ExecutorInvariants

  // ---------------------------------------- what executor steps do to each key

  /** A key keeps its state, or its queue head has just been dispatched. */
  predicate PumpedFrom(before: KeyState, after: KeyState)
  {
    || after == before
    || (before.active.None? && before.pending != []
        && after == KeyState(Some(Running(before.pending[0], Dispatched)), before.pending[1..]))
  }

  lemma {:induction false} PumpEffect<K(!new)>(s: Exec<K>, b: Budgets, k: K)
    requires Core(s, b)
    ensures PumpedFrom(StateOf(s, k), StateOf(Pump(s, b), k))
    ensures k !in s.ready ==> StateOf(Pump(s, b), k) == StateOf(s, k)
    decreases |s.ready|
  {
    if s.active < b.maxConcurrent && s.ready != [] {
      HeadCanStart(s);
      DispatchKeepsCore(s, b);
      PumpEffect(DispatchHead(s), b, k);
      assert s.ready == [s.ready[0]] + s.ready[1..];
      if k == s.ready[0] { assert k !in DispatchHead(s).ready; }
    }
  }

  lemma AdmitOthers<K(!new)>(s: Exec<K>, b: Budgets, k: K, now: int, j: K)
    requires Inv(s, b) && j != k
    ensures PumpedFrom(StateOf(s, j), StateOf(Admit(s, b, k, now), j))
  {
    if CanRun(s, b, k) {
      EnqueueKeepsCore(s, b, k, now);
      PumpEffect(Enqueue(s, k, now), b, j);
      assert StateOf(Enqueue(s, k, now), j) == StateOf(s, j);
    }
  }

  lemma AdmitKey<K(!new)>(s: Exec<K>, b: Budgets, k: K, now: int)
    requires Inv(s, b) && StateOf(s, k) == IDLE
    ensures CanRun(s, b, k) ==> PumpedFrom(KeyState(None, [Task(s.promises, now)]), StateOf(Admit(s, b, k, now), k))
    ensures !CanRun(s, b, k) ==> StateOf(Admit(s, b, k, now), k) == IDLE
  {
    if CanRun(s, b, k) {
      EnqueueKeepsCore(s, b, k, now);
      PumpEffect(Enqueue(s, k, now), b, k);
      assert StateOf(Enqueue(s, k, now), k) == KeyState(None, [Task(s.promises, now)]);
    }
  }

  lemma CompleteEffect<K(!new)>(s: Exec<K>, b: Budgets, k: K, j: K)
    requires Inv(s, b) && IsActive(s, k)
    ensures var s' := Complete(s, b, k);
      && (j != k ==> PumpedFrom(StateOf(s, j), StateOf(s', j)))
      && (j == k && s.states[k].pending == [] ==> StateOf(s', k) == IDLE)
  {
    ReleaseKeepsCore(s, b, k);
    PumpEffect(Release(s, k), b, j);
    if j == k && s.states[k].pending == [] {
      assert k !in Release(s, k).states;
    }
  }

  // ------------------------------------------------ what an operation is for

  /** The promises queued for a key. */
  function QueueOf<K>(s: Exec<K>, k: K): seq<nat>
  {
    PromisesOf(StateOf(s, k).pending)
  }

  /** A reachable key's queue has no repeated promise. */
  lemma QueueIsDistinct<K(!new)>(s: Exec<K>, b: Budgets, k: K)
    requires Inv(s, b)
    ensures Distinct(QueueOf(s, k))
  {
    assert FifoOf(s, k) && AccountedOf(s, k);
    var started, queue := StartedOf(s.trace, k), QueueOf(s, k);
    forall i, j | 0 <= i < j < |queue| ensures queue[i] != queue[j] {
      assert (started + queue)[|started| + i] == queue[i] && (started + queue)[|started| + j] == queue[j];
    }
  }

  /** A queue timer changes something exactly when its task is still queued, whether or
      not the key has a running task. Then the task is gone, the others keep their
      places, one less is waiting and one more has expired, and the expiry is on record. */
  lemma TimerExpiresExactlyTheQueued<K(!new)>(s: Exec<K>, k: K, promise: nat) returns (at: nat)
    requires Distinct(QueueOf(s, k))
    ensures Expire(s, k, promise) == s <==> promise !in QueueOf(s, k)
    ensures promise in QueueOf(s, k) ==>
      var s' := Expire(s, k, promise); var pending := StateOf(s, k).pending;
      && at < |pending| && pending[at].promise == promise
      && StateOf(s', k) == KeyState(StateOf(s, k).active, pending[..at] + pending[at + 1..])
      && promise !in QueueOf(s', k)
      && s'.waiting == s.waiting - 1 && s'.expired == s.expired + 1 && s'.active == s.active
      && s'.trace == Then(s.trace, ExpiredInQueue(k, promise))
  {
    var queue := QueueOf(s, k);
    at := 0;
    if promise in queue {
      at := IndexOf(queue, promise);
      var rest := StateOf(s, k).pending[..at] + StateOf(s, k).pending[at + 1..];
      assert PromisesOf(rest) == queue[..at] + queue[at + 1..];
    }
  }

  /** Refreshing a queued task gives it the present time and moves nothing; for any
      other promise it changes nothing. */
  lemma RefreshRestartsExactlyTheQueued<K(!new)>(s: Exec<K>, k: K, promise: nat, now: int) returns (at: nat)
    requires Distinct(QueueOf(s, k))
    ensures promise !in QueueOf(s, k) ==> Refresh(s, k, promise, now) == s
    ensures promise in QueueOf(s, k) ==>
      var pending := StateOf(s, k).pending;
      && at < |pending| && pending[at].promise == promise
      && var state := KeyState(StateOf(s, k).active, pending[at := Task(promise, now)]);
         Refresh(s, k, promise, now) == s.(states := s.states[k := state])
  {
    at := 0;
    if promise in QueueOf(s, k) { at := IndexOf(QueueOf(s, k), promise); }
  }

  /** A dispatched task enters its work exactly when it has waited less than the maximum
      age; otherwise it is overdue, counted as expired. Nothing else changes. */
  lemma TurnEntersExactlyTheFresh<K(!new)>(s: Exec<K>, b: Budgets, k: K, now: int)
    requires IsActive(s, k)
    ensures var s' := Begin(s, b, k, now); var run := StateOf(s, k).active.value;
      && StateOf(s', k).active.Some? && StateOf(s', k).active.value.task == run.task
      && StateOf(s', k).pending == StateOf(s, k).pending
      && (StateOf(s', k).active.value.phase.Working? <==> now < run.task.enqueuedAt + b.maxQueueAgeMs)
      && (StateOf(s', k).active.value.phase.Overdue? <==> now >= run.task.enqueuedAt + b.maxQueueAgeMs)
      && s'.expired - s.expired == (if now >= run.task.enqueuedAt + b.maxQueueAgeMs then 1 else 0)
      && (forall j {:trigger StateOf(s', j)} :: j != k ==> StateOf(s', j) == StateOf(s, j))
      && s'.ready == s.ready && s'.active == s.active && s'.waiting == s.waiting && s'.trace == s.trace
  {
  }

  /** Work is admitted exactly when its key's queue has room and either the tasks queued
      for all keys have, or its key is idle and a permit is free. What is admitted has
      the next promise and stands last in its key's queue with the present time, or
      has been dispatched; a refusal is counted and changes nothing else. */
  lemma AdmitsExactly<K(!new)>(s: Exec<K>, b: Budgets, k: K, now: int)
    requires Inv(s, b)
    ensures var s' := Admit(s, b, k, now); var task := Task(s.promises, now);
      var admitted := |QueueOf(s, k)| < b.maxPendingPerKey &&
        (Sum(Queued(s.states)) < b.maxPending || (StateOf(s, k) == IDLE && Sum(Actives(s.states)) < b.maxConcurrent));
      if admitted then
        && s'.promises == s.promises + 1 && s'.rejected == s.rejected
        && (StateOf(s', k) == StateOf(s, k).(pending := StateOf(s, k).pending + [task])
            || StateOf(s', k) == KeyState(Some(Running(task, Dispatched)), []))
        && (s'.peakPending == s.peakPending || s'.peakPending == s'.waiting) && s'.peakPending >= s.peakPending
        && s'.peakPending >= s'.waiting
      else s' == s.(rejected := s.rejected + 1)
  {
    if CanRun(s, b, k) {
      PumpKeepsCounters(Enqueue(s, k, now), b);
      AdmittedIsPlaced(s, b, k, now);
    }
  }

  lemma {:induction false} PumpKeepsCounters<K(!new)>(s: Exec<K>, b: Budgets)
    ensures var s' := Pump(s, b);
      && s'.promises == s.promises && s'.rejected == s.rejected
      && s'.peakPending == s.peakPending && s'.expired == s.expired
    decreases |s.ready|
  {
    if s.active < b.maxConcurrent && s.ready != [] { PumpKeepsCounters(DispatchHead(s), b); }
  }

  /** The pump can only reach the new task if its key was idle. */
  lemma AdmittedIsPlaced<K(!new)>(s: Exec<K>, b: Budgets, k: K, now: int)
    requires Inv(s, b) && CanRun(s, b, k)
    ensures var state' := StateOf(Pump(Enqueue(s, k, now), b), k); var task := Task(s.promises, now);
      || state' == StateOf(s, k).(pending := StateOf(s, k).pending + [task])
      || state' == KeyState(Some(Running(task, Dispatched)), [])
  {
    var queued := Enqueue(s, k, now);
    assert StateOf(queued, k) == StateOf(s, k).(pending := StateOf(s, k).pending + [Task(s.promises, now)]);
    if s.active < b.maxConcurrent {
      assert s.ready == [];
      EnqueueKeepsCore(s, b, k, now);
      PumpEffect(queued, b, k);
      assert k in s.ready <==> CanStart(s, k);
    }
  }
}
