/** The executor's invariants hold after every step of every interleaving. */
module ExecutorInvariants {
  import opened Wrappers
  import opened MapSums
  import opened ExecutorModel

  lemma InitialInv<K(!new)>(b: Budgets)
    requires ValidBudgets(b)
    ensures Inv(Initial<K>(), b)
  {
  }

  // ------------------------------------------------------------------- counts

  lemma CountsAfter<K(!new)>(states: map<K, KeyState>, k: K, state: KeyState)
    ensures var was := if k in states then states[k] else IDLE;
      && Sum(Actives(states[k := state])) ==
         Sum(Actives(states)) - (if was.active.Some? then 1 else 0) + (if state.active.Some? then 1 else 0)
      && Sum(Queued(states[k := state])) == Sum(Queued(states)) - |was.pending| + |state.pending|
  {
    var running := if state.active.Some? then 1 else 0;
    assert Actives(states[k := state]) == Actives(states)[k := running];
    SumUpdate(Actives(states), k, running);
    assert Queued(states[k := state]) == Queued(states)[k := |state.pending|];
    SumUpdate(Queued(states), k, |state.pending|);
  }

  lemma CountsWithout<K(!new)>(states: map<K, KeyState>, k: K)
    requires k in states ==> states[k] == IDLE
    ensures Sum(Actives(states - {k})) == Sum(Actives(states))
    ensures Sum(Queued(states - {k})) == Sum(Queued(states))
  {
    if k in states {
      assert Actives(states - {k}) == Actives(states) - {k};
      SumRemove(Actives(states), k);
      assert Queued(states - {k}) == Queued(states) - {k};
      SumRemove(Queued(states), k);
    } else {
      assert states - {k} == states;
    }
  }

  // ------------------------------------------------------------------ enqueue

  lemma EnqueueReady<K(!new)>(s: Exec<K>, k: K, now: int)
    requires ReadyExact(s)
    ensures ReadyExact(Enqueue(s, k, now))
  {
  }

  lemma EnqueueCounts<K(!new)>(s: Exec<K>, b: Budgets, k: K, now: int)
    requires CountsExact(s) && WithinBudgets(s, b) && |StateOf(s, k).pending| < b.maxPendingPerKey
    ensures var s' := Enqueue(s, k, now); CountsExact(s') && WithinBudgets(s', b)
  {
    var state := StateOf(s, k);
    var more := state.(pending := state.pending + [Task(s.promises, now)]);
    CountsAfter(s.states, k, more);
    assert Enqueue(s, k, now).states == s.states[k := more];
  }

  lemma AccountsAdmitted(admitted: seq<nat>, expired: seq<nat>, unexpired: seq<nat>, n: nat)
    requires Accounts(admitted, expired, unexpired, n)
    ensures Accounts(admitted + [n], expired, unexpired + [n], n + 1)
  {
    DistinctSnoc(admitted, n);
    DistinctSnoc(unexpired, n);
  }

  lemma AccountsExpired(admitted: seq<nat>, expired: seq<nat>, unexpired: seq<nat>, n: nat, p: nat)
    requires Accounts(admitted, expired, unexpired, n) && p in unexpired
    ensures Accounts(admitted, expired + [p], Without(unexpired, p), n)
  {
    WithoutDistinct(unexpired, p);
    var i := IndexOf(unexpired, p);
    assert unexpired == unexpired[..i] + [p] + unexpired[i + 1..];
    assert multiset(unexpired) == multiset(Without(unexpired, p)) + multiset{p};
  }

  lemma AdmissionExtends<K(!new)>(t: Trace<K>, h: K, p: nat, ready: bool, k: K)
    ensures var queued := Then(t, Admitted(h, p));
      var t' := if ready then Then(queued, MadeReady(h)) else queued;
      && StartedOf(t', k) == StartedOf(t, k) && FinishedOf(t', k) == FinishedOf(t, k)
      && ExpiredOf(t', k) == ExpiredOf(t, k)
      && AdmittedOf(t', k) == (if h == k then AdmittedOf(t, k) + [p] else AdmittedOf(t, k))
      && Unexpired(t', k) == (if h == k then Unexpired(t, k) + [p] else Unexpired(t, k))
  {
  }

  lemma EnqueueOrder<K(!new)>(s: Exec<K>, k: K, now: int, j: K)
    requires FifoOf(s, j) && AccountedOf(s, j)
    ensures var s' := Enqueue(s, k, now); FifoOf(s', j) && AccountedOf(s', j)
  {
    var s' := Enqueue(s, k, now);
    AdmissionExtends(s.trace, k, s.promises, StateOf(s, k).active.None? && k !in s.readySet, j);
    if j == k {
      AccountsAdmitted(AdmittedOf(s.trace, k), ExpiredOf(s.trace, k), Unexpired(s.trace, k), s.promises);
      QueuesLast(StartedOf(s.trace, k), StateOf(s, k).pending, Task(s.promises, now));
      assert StateOf(s', k).pending == StateOf(s, k).pending + [Task(s.promises, now)];
    } else {
      assert StateOf(s', j) == StateOf(s, j);
    }
  }

  lemma QueuesLast(started: seq<nat>, pending: seq<Task>, task: Task)
    ensures started + PromisesOf(pending + [task]) == (started + PromisesOf(pending)) + [task.promise]
  {
  }

  lemma EnqueueFair<K(!new)>(s: Exec<K>, k: K, now: int)
    requires ReadyExact(s) && Fair(s)
    ensures Fair(Enqueue(s, k, now))
  {
  }

  /** Queueing, finishing and becoming ready start nothing; a new key goes last. */
  lemma AppendFair<K(!new)>(s: Exec<K>, s': Exec<K>)
    requires Fair(s)
    requires s'.ready == s.ready || exists k :: s'.ready == s.ready + [k] && StartedSince(s'.trace, k) == []
    requires forall i :: 0 <= i < |s.ready| ==> StartedSince(s'.trace, s.ready[i]) == StartedSince(s.trace, s.ready[i])
    ensures Fair(s')
  {
  }

  // ----------------------------------------------------------------- dispatch

  /** Under the invariant the pump's defensive branches are never taken. */
  lemma HeadCanStart<K(!new)>(s: Exec<K>)
    requires ReadyExact(s) && s.ready != []
    ensures CanStart(s, s.ready[0])
    ensures DispatchHead(s).trace == Then(s.trace, Started(s.ready[0], s.states[s.ready[0]].pending[0].promise))
  {
  }

  lemma DispatchReady<K(!new)>(s: Exec<K>)
    requires ReadyExact(s) && s.ready != []
    ensures ReadyExact(DispatchHead(s))
  {
    HeadCanStart(s);
    var s', head := DispatchHead(s), s.ready[0];
    assert s.ready == [head] + s'.ready;
    assert head !in s'.ready;
    forall k ensures k in s'.ready <==> CanStart(s', k) {
      assert k in s.ready <==> CanStart(s, k);
    }
  }

  lemma DispatchCounts<K(!new)>(s: Exec<K>, b: Budgets)
    requires ReadyExact(s) && CountsExact(s) && WithinBudgets(s, b) && s.ready != [] && s.active < b.maxConcurrent
    ensures var s' := DispatchHead(s); CountsExact(s') && WithinBudgets(s', b)
  {
    HeadCanStart(s);
    var k := s.ready[0];
    var state := s.states[k];
    CountsAfter(s.states, k, KeyState(Some(Running(state.pending[0], Dispatched)), state.pending[1..]));
  }

  lemma StartExtends<K(!new)>(t: Trace<K>, head: K, p: nat, k: K)
    ensures var t' := Then(t, Started(head, p));
      && Unexpired(t', k) == Unexpired(t, k) && FinishedOf(t', k) == FinishedOf(t, k)
      && AdmittedOf(t', k) == AdmittedOf(t, k) && ExpiredOf(t', k) == ExpiredOf(t, k)
      && StartedOf(t', k) == if head == k then StartedOf(t, k) + [p] else StartedOf(t, k)
  {
  }

  lemma DispatchOrder<K(!new)>(s: Exec<K>, j: K)
    requires ReadyExact(s) && s.ready != [] && FifoOf(s, j) && AccountedOf(s, j)
    ensures var s' := DispatchHead(s); FifoOf(s', j) && AccountedOf(s', j)
  {
    HeadCanStart(s);
    var head := s.ready[0];
    var pending := s.states[head].pending;
    StartExtends(s.trace, head, pending[0].promise, j);
    if j == head {
      HeadStarts(Unexpired(s.trace, j), StartedOf(s.trace, j), FinishedOf(s.trace, j), RunningOf(s, j), pending);
    }
  }

  /** The queue head's promise moves from the queue to the running task. */
  lemma HeadStarts(unexpired: seq<nat>, started: seq<nat>, finished: seq<nat>, running: seq<nat>, pending: seq<Task>)
    requires pending != [] && running == []
    requires unexpired == started + PromisesOf(pending) && started == finished + running
    ensures unexpired == started + [pending[0].promise] + PromisesOf(pending[1..])
    ensures started + [pending[0].promise] == finished + [pending[0].promise]
  {
  }

  lemma DispatchFair<K(!new)>(s: Exec<K>)
    requires ReadyExact(s) && Fair(s) && s.ready != []
    ensures Fair(DispatchHead(s))
  {
    HeadCanStart(s);
    var s' := DispatchHead(s);
    var head := s.ready[0];
    forall i | 0 <= i < |s'.ready|
      ensures Distinct(StartedSince(s'.trace, s'.ready[i]))
      ensures forall j :: j in StartedSince(s'.trace, s'.ready[i]) ==> j !in s'.ready[..i + 1]
    {
      var since := StartedSince(s.trace, s.ready[i + 1]);
      assert s'.ready[i] == s.ready[i + 1];
      assert s.ready[..i + 2] == [head] + s'.ready[..i + 1];
      assert head in s.ready[..i + 2];
      assert head !in since;
      DistinctSnoc(since, head);
      assert StartedSince(s'.trace, s'.ready[i]) == since + [head];
    }
  }

  // ------------------------------------------------------------------- expire

  lemma ExpireReady<K(!new)>(s: Exec<K>, k: K, promise: nat)
    requires ReadyExact(s)
    ensures ReadyExact(Expire(s, k, promise))
  {
    var s' := Expire(s, k, promise);
    if s' != s {
      WithoutDistinct(s.ready, k);
      forall j ensures j in s'.ready <==> CanStart(s', j) {
        assert j in s.ready <==> CanStart(s, j);
        if j != k { assert StateOf(s', j) == StateOf(s, j); }
      }
    }
  }

  lemma ExpireCounts<K(!new)>(s: Exec<K>, b: Budgets, k: K, promise: nat)
    requires CountsExact(s) && WithinBudgets(s, b)
    ensures var s' := Expire(s, k, promise); CountsExact(s') && WithinBudgets(s', b)
  {
    var state := StateOf(s, k);
    var index := IndexOf(PromisesOf(state.pending), promise);
    if index >= 0 {
      var rest := state.pending[..index] + state.pending[index + 1..];
      var states := s.states[k := state.(pending := rest)];
      CountsAfter(s.states, k, state.(pending := rest));
      if state.active.None? && rest == [] {
        CountsWithout(states, k);
        assert states - {k} == s.states - {k};
      }
    }
  }

  lemma ExpireFifo<K(!new)>(s: Exec<K>, k: K, promise: nat, j: K)
    requires FifoOf(s, j) && AccountedOf(s, j)
    ensures FifoOf(Expire(s, k, promise), j)
  {
    var s' := Expire(s, k, promise);
    ExpireShape(s, k, promise);
    if s' != s { ExpiryExtends(s.trace, k, promise, j); }
    if s' != s && j == k {
      var started, queued := StartedOf(s.trace, k), PromisesOf(StateOf(s, k).pending);
      DistinctPrefix(started, queued, promise);
      WithoutAppend(started, queued, promise);
    }
  }

  lemma ExpireAccounted<K(!new)>(s: Exec<K>, k: K, promise: nat, j: K)
    requires FifoOf(s, j) && AccountedOf(s, j)
    ensures AccountedOf(Expire(s, k, promise), j)
  {
    ExpireShape(s, k, promise);
    if Expire(s, k, promise) != s {
      ExpiryExtends(s.trace, k, promise, j);
      if j == k {
        assert promise in StartedOf(s.trace, k) + PromisesOf(StateOf(s, k).pending);
        AccountsExpired(AdmittedOf(s.trace, k), ExpiredOf(s.trace, k), Unexpired(s.trace, k), s.promises, promise);
      }
    }
  }

  lemma ExpiryExtends<K(!new)>(t: Trace<K>, h: K, p: nat, k: K)
    ensures var t' := Then(t, ExpiredInQueue(h, p));
      && StartedOf(t', k) == StartedOf(t, k) && FinishedOf(t', k) == FinishedOf(t, k)
      && AdmittedOf(t', k) == AdmittedOf(t, k)
      && ExpiredOf(t', k) == (if h == k then ExpiredOf(t, k) + [p] else ExpiredOf(t, k))
      && Unexpired(t', k) == (if h == k then Without(Unexpired(t, k), p) else Unexpired(t, k))
  {
  }

  lemma ExpireShape<K(!new)>(s: Exec<K>, k: K, promise: nat)
    ensures var s' := Expire(s, k, promise);
      && (s'.ready == s.ready || s'.ready == Without(s.ready, k))
      && (forall j {:trigger StateOf(s', j)} :: j != k ==> StateOf(s', j) == StateOf(s, j))
      && s'.promises == s.promises
      && RunningOf(s', k) == RunningOf(s, k)
      && (s' == s || (promise in PromisesOf(StateOf(s, k).pending) &&
         s'.trace == Then(s.trace, ExpiredInQueue(k, promise))
                      && PromisesOf(StateOf(s', k).pending) == Without(PromisesOf(StateOf(s, k).pending), promise)))
  {
    var state := StateOf(s, k);
    var index := IndexOf(PromisesOf(state.pending), promise);
    if index >= 0 {
      var rest := state.pending[..index] + state.pending[index + 1..];
      assert PromisesOf(rest) == Without(PromisesOf(state.pending), promise);
    }
  }

  lemma ExpireFair<K(!new)>(s: Exec<K>, k: K, promise: nat)
    requires Fair(s)
    ensures Fair(Expire(s, k, promise))
  {
    var index := IndexOf(PromisesOf(StateOf(s, k).pending), promise);
    if index >= 0 {
      var dropped := Dropped(s, k, index);
      forall j ensures StartedSince(dropped.trace, j) == StartedSince(s.trace, j) {}
      ForgottenFair(s, dropped, k);
    }
  }

  /** A key leaving the ready list brings no other one forward past what it has seen. */
  lemma ForgottenFair<K(!new)>(s: Exec<K>, s': Exec<K>, k: K)
    requires Fair(s) && s'.ready == s.ready
    requires forall j :: StartedSince(s'.trace, j) == StartedSince(s.trace, j)
    ensures Fair(s') && Fair(Forgotten(s', k))
  {
  }

  // ------------------------------------------------------------------ release

  lemma ReleaseReady<K(!new)>(s: Exec<K>, k: K)
    requires ReadyExact(s) && IsActive(s, k)
    ensures ReadyExact(Release(s, k))
  {
  }

  lemma ReleaseCounts<K(!new)>(s: Exec<K>, b: Budgets, k: K)
    requires CountsExact(s) && WithinBudgets(s, b) && IsActive(s, k)
    ensures var s' := Release(s, k); CountsExact(s') && WithinBudgets(s', b)
  {
    var state := s.states[k].(active := None);
    CountsAfter(s.states, k, state);
    if state.pending == [] {
      CountsWithout(s.states[k := state], k);
      assert s.states[k := state] - {k} == s.states - {k};
    }
  }

  lemma FinishExtends<K(!new)>(t: Trace<K>, h: K, p: nat, ready: bool, k: K)
    ensures var freed := Then(t, Finished(h, p));
      var t' := if ready then Then(freed, MadeReady(h)) else freed;
      && StartedOf(t', k) == StartedOf(t, k) && Unexpired(t', k) == Unexpired(t, k)
      && AdmittedOf(t', k) == AdmittedOf(t, k) && ExpiredOf(t', k) == ExpiredOf(t, k)
      && FinishedOf(t', k) == (if h == k then FinishedOf(t, k) + [p] else FinishedOf(t, k))
  {
  }

  lemma ReleaseOrder<K(!new)>(s: Exec<K>, k: K, j: K)
    requires IsActive(s, k) && FifoOf(s, j) && AccountedOf(s, j)
    ensures var s' := Release(s, k); FifoOf(s', j) && AccountedOf(s', j)
  {
    var s', promise := Release(s, k), s.states[k].active.value.task.promise;
    FinishExtends(s.trace, k, promise, s.states[k].pending != [] && k !in s.readySet, j);
    if j == k {
      assert StateOf(s', k) == KeyState(None, s.states[k].pending);
      assert RunningOf(s, k) == [promise] && RunningOf(s', k) == [];
      EndsEmpty(FinishedOf(s'.trace, k));
    } else {
      assert StateOf(s', j) == StateOf(s, j);
    }
  }

  lemma EndsEmpty(finished: seq<nat>)
    ensures finished + [] == finished
  {
  }

  lemma ReleaseFair<K(!new)>(s: Exec<K>, k: K)
    requires ReadyExact(s) && Fair(s) && IsActive(s, k)
    ensures Fair(Release(s, k))
  {
  }

  // ----------------------------------------------------------------- relabel

  /** Entering work and refreshing an age change neither the queues nor the order. */
  lemma RelabelKeepsCore<K(!new)>(s: Exec<K>, s': Exec<K>, b: Budgets, k: K)
    requires Core(s, b) && k in s.states && k in s'.states
    requires s' == s.(states := s.states[k := s'.states[k]], expired := s'.expired)
    requires PromisesOf(s'.states[k].pending) == PromisesOf(s.states[k].pending)
    requires RunningOf(s', k) == RunningOf(s, k)
    ensures Core(s', b)
  {
    CountsAfter(s.states, k, s'.states[k]);
    forall j ensures FifoOf(s', j) && AccountedOf(s', j) {
      assert FifoOf(s, j) && AccountedOf(s, j);
    }
    assert ReadyExact(s') && WithinBudgets(s', b);
    assert Fair(s') by { AppendFair(s, s'); }
  }

  // ---------------------------------------------------- each step keeps Core

  lemma EnqueueKeepsCore<K(!new)>(s: Exec<K>, b: Budgets, k: K, now: int)
    requires Core(s, b) && |StateOf(s, k).pending| < b.maxPendingPerKey
    ensures Core(Enqueue(s, k, now), b)
  {
    EnqueueReady(s, k, now);
    EnqueueCounts(s, b, k, now);
    EnqueueFair(s, k, now);
    forall j ensures FifoOf(Enqueue(s, k, now), j) && AccountedOf(Enqueue(s, k, now), j) {
      assert FifoOf(s, j) && AccountedOf(s, j);
      EnqueueOrder(s, k, now, j);
    }
  }

  lemma DispatchKeepsCore<K(!new)>(s: Exec<K>, b: Budgets)
    requires Core(s, b) && s.ready != [] && s.active < b.maxConcurrent
    ensures Core(DispatchHead(s), b)
  {
    DispatchReady(s);
    DispatchCounts(s, b);
    DispatchFair(s);
    forall j ensures FifoOf(DispatchHead(s), j) && AccountedOf(DispatchHead(s), j) {
      assert FifoOf(s, j) && AccountedOf(s, j);
      DispatchOrder(s, j);
    }
  }

  lemma ExpireKeepsCore<K(!new)>(s: Exec<K>, b: Budgets, k: K, promise: nat)
    requires Core(s, b)
    ensures Core(Expire(s, k, promise), b)
  {
    ExpireReady(s, k, promise);
    ExpireCounts(s, b, k, promise);
    ExpireFair(s, k, promise);
    forall j ensures FifoOf(Expire(s, k, promise), j) && AccountedOf(Expire(s, k, promise), j) {
      assert FifoOf(s, j) && AccountedOf(s, j);
      ExpireFifo(s, k, promise, j);
      ExpireAccounted(s, k, promise, j);
    }
  }

  lemma ReleaseKeepsCore<K(!new)>(s: Exec<K>, b: Budgets, k: K)
    requires Core(s, b) && IsActive(s, k)
    ensures Core(Release(s, k), b)
  {
    ReleaseReady(s, k);
    ReleaseCounts(s, b, k);
    ReleaseFair(s, k);
    forall j ensures FifoOf(Release(s, k), j) && AccountedOf(Release(s, k), j) {
      assert FifoOf(s, j) && AccountedOf(s, j);
      ReleaseOrder(s, k, j);
    }
  }

  lemma CoreIgnoresPeak<K(!new)>(s: Exec<K>, b: Budgets, peak: int, rejected: nat)
    requires Core(s, b)
    ensures Core(s.(peakPending := peak, rejected := rejected), b)
  {
    var s' := s.(peakPending := peak, rejected := rejected);
    forall j ensures FifoOf(s', j) && AccountedOf(s', j) {
      assert FifoOf(s, j) && AccountedOf(s, j);
    }
  }

  // ---------------------------------------------------- each operation keeps Inv

  /** The pump stops only when every permit is taken or no key is ready. */
  lemma {:induction false} PumpKeepsCore<K(!new)>(s: Exec<K>, b: Budgets)
    requires Core(s, b)
    ensures var s' := Pump(s, b);
      Core(s', b) && WorkConserving(s', b) && s'.waiting <= s.waiting
    decreases |s.ready|
  {
    if s.active < b.maxConcurrent && s.ready != [] {
      HeadCanStart(s);
      DispatchKeepsCore(s, b);
      PumpKeepsCore(DispatchHead(s), b);
    }
  }

  /** With a free permit nothing else was ready, so a task admitted through the
      immediate-start bypass is dispatched by its own admission. */
  lemma BypassStartsAtOnce<K(!new)>(s: Exec<K>, b: Budgets, k: K, now: int)
    requires Inv(s, b) && CanRun(s, b, k) && s.waiting >= b.maxPending
    ensures Pump(Enqueue(s, k, now), b).waiting <= s.waiting
    ensures s.ready == [] && k !in s.states
  {
  }

  lemma AdmitKeepsInv<K(!new)>(s: Exec<K>, b: Budgets, k: K, now: int)
    requires Inv(s, b)
    ensures Inv(Admit(s, b, k, now), b)
  {
    if CanRun(s, b, k) {
      EnqueueKeepsCore(s, b, k, now);
      PumpKeepsCore(Enqueue(s, k, now), b);
      if s.waiting >= b.maxPending { BypassStartsAtOnce(s, b, k, now); }
      var pumped := Pump(Enqueue(s, k, now), b);
      CoreIgnoresPeak(pumped, b, Admit(s, b, k, now).peakPending, pumped.rejected);
    } else {
      CoreIgnoresPeak(s, b, s.peakPending, s.rejected + 1);
    }
  }

  lemma ExpireKeepsInv<K(!new)>(s: Exec<K>, b: Budgets, k: K, promise: nat)
    requires Inv(s, b)
    ensures Inv(Expire(s, k, promise), b)
  {
    ExpireKeepsCore(s, b, k, promise);
    assert s.ready == [] ==> Expire(s, k, promise).ready == [];
  }

  lemma CompleteKeepsInv<K(!new)>(s: Exec<K>, b: Budgets, k: K)
    requires Inv(s, b) && IsActive(s, k)
    ensures Inv(Complete(s, b, k), b)
  {
    ReleaseKeepsCore(s, b, k);
    PumpKeepsCore(Release(s, k), b);
  }

  lemma BeginKeepsInv<K(!new)>(s: Exec<K>, b: Budgets, k: K, now: int)
    requires Inv(s, b) && IsActive(s, k)
    ensures Inv(Begin(s, b, k, now), b)
  {
    RelabelKeepsCore(s, Begin(s, b, k, now), b, k);
  }

  lemma RefreshKeepsInv<K(!new)>(s: Exec<K>, b: Budgets, k: K, promise: nat, now: int)
    requires Inv(s, b)
    ensures Inv(Refresh(s, k, promise, now), b)
  {
    var s' := Refresh(s, k, promise, now);
    if s' != s { RelabelKeepsCore(s, s', b, k); }
  }

  // --------------------------------------------------------------- whole runs

  /** The steps that can interleave: admissions, queue timers, a dispatched task's
      turn, a settlement, and an age refresh. A step that is not enabled is skipped. */
  datatype Op<K> =
    | RunOp(key: K, now: int)
    | TimerOp(key: K, promise: nat)
    | BeginOp(key: K, now: int)
    | SettleOp(key: K)
    | RefreshOp(key: K, promise: nat, now: int)

  function Step<K>(s: Exec<K>, b: Budgets, op: Op<K>): Exec<K>
  {
    match op
    case RunOp(k, now) => Admit(s, b, k, now)
    case TimerOp(k, promise) => Expire(s, k, promise)
    case BeginOp(k, now) =>
      if IsActive(s, k) && s.states[k].active.value.phase.Dispatched? then Begin(s, b, k, now) else s
    case SettleOp(k) => if IsActive(s, k) && !s.states[k].active.value.phase.Dispatched? then Complete(s, b, k) else s
    case RefreshOp(k, promise, now) => Refresh(s, k, promise, now)
  }

  function Run<K>(s: Exec<K>, b: Budgets, ops: seq<Op<K>>): Exec<K>
    decreases |ops|
  {
    if ops == [] then s else Run(Step(s, b, ops[0]), b, ops[1..])
  }

  lemma StepKeepsInv<K(!new)>(s: Exec<K>, b: Budgets, op: Op<K>)
    requires Inv(s, b)
    ensures Inv(Step(s, b, op), b)
  {
    match op {
      case RunOp(k, now) => AdmitKeepsInv(s, b, k, now);
      case TimerOp(k, promise) => ExpireKeepsInv(s, b, k, promise);
      case BeginOp(k, now) => if IsActive(s, k) { BeginKeepsInv(s, b, k, now); }
      case SettleOp(k) => if IsActive(s, k) { CompleteKeepsInv(s, b, k); }
      case RefreshOp(k, promise, now) => RefreshKeepsInv(s, b, k, promise, now);
    }
  }

  /** The invariant holds after every step of every interleaving. */
  lemma {:induction false} RunKeepsInv<K(!new)>(s: Exec<K>, b: Budgets, ops: seq<Op<K>>)
    requires Inv(s, b)
    ensures Inv(Run(s, b, ops), b)
    decreases |ops|
  {
    if ops != [] {
      StepKeepsInv(s, b, ops[0]);
      RunKeepsInv(Step(s, b, ops[0]), b, ops[1..]);
    }
  }

  /** Whatever the interleaving: permits and queue stay within budget, no permit
      idles beside ready work, and for every key tasks run one at a time in
      admission order and each has exactly one fate. */
  lemma EveryRunIsSafe<K(!new)>(b: Budgets, ops: seq<Op<K>>, k: K)
    requires ValidBudgets(b)
    ensures var s := Run(Initial<K>(), b, ops);
      && 0 <= s.active <= b.maxConcurrent && 0 <= s.waiting <= b.maxPending
      && |StateOf(s, k).pending| <= b.maxPendingPerKey
      && (s.active == b.maxConcurrent || s.ready == [])
      && (k in s.ready <==> CanStart(s, k))
      && Unexpired(s.trace, k) == FinishedOf(s.trace, k) + RunningOf(s, k) + PromisesOf(StateOf(s, k).pending)
      && Distinct(AdmittedOf(s.trace, k))
      && multiset(AdmittedOf(s.trace, k)) == multiset(ExpiredOf(s.trace, k)) + multiset(FinishedOf(s.trace, k))
           + multiset(RunningOf(s, k)) + multiset(PromisesOf(StateOf(s, k).pending))
  {
    InitialInv<K>(b);
    RunKeepsInv(Initial<K>(), b, ops);
    var s := Run(Initial<K>(), b, ops);
    assert FifoOf(s, k) && AccountedOf(s, k);
    Fates(AdmittedOf(s.trace, k), ExpiredOf(s.trace, k), Unexpired(s.trace, k), s.promises,
          FinishedOf(s.trace, k), RunningOf(s, k), PromisesOf(StateOf(s, k).pending));
  }

  lemma Fates(
      admitted: seq<nat>, expired: seq<nat>, unexpired: seq<nat>, n: nat,
      finished: seq<nat>, running: seq<nat>, queued: seq<nat>)
    requires Accounts(admitted, expired, unexpired, n) && unexpired == (finished + running) + queued
    ensures multiset(admitted) == multiset(expired) + multiset(finished) + multiset(running) + multiset(queued)
  {
  }

  /** While a key stays ready, no key is started twice. */
  lemma NoKeyOvertakesTwice<K(!new)>(b: Budgets, ops: seq<Op<K>>, k: K)
    requires ValidBudgets(b) && k in Run(Initial<K>(), b, ops).ready
    ensures Distinct(StartedSince(Run(Initial<K>(), b, ops).trace, k))
  {
    InitialInv<K>(b);
    RunKeepsInv(Initial<K>(), b, ops);
    var s := Run(Initial<K>(), b, ops);
    var i :| 0 <= i < |s.ready| && s.ready[i] == k;
  }
}
