/** The backend's bounded executor: per-key FIFO, global and per-key budgets,
    queue expiry, and round-robin over the keys that are ready. */
module ExecutorModel {
  import opened Wrappers
  import opened MapSums

  datatype Budgets = Budgets(maxConcurrent: int, maxPending: int, maxPendingPerKey: int, maxQueueAgeMs: int)

  predicate ValidBudgets(b: Budgets)
  {
    b.maxConcurrent > 0 && b.maxPendingPerKey > 0 && b.maxPending >= 0 && b.maxQueueAgeMs > 0
  }

  /** A task is named by its promise. */
  datatype Task = Task(promise: nat, enqueuedAt: int)

  /** How far a dispatched task has come: permit taken, work entered, or found
      overdue, with its age, before its work was entered. */
  datatype Phase = Dispatched | Working | Overdue(ageMs: int)
  datatype Running = Running(task: Task, phase: Phase)
  datatype KeyState = KeyState(active: Option<Running>, pending: seq<Task>)

  const IDLE := KeyState(None, [])

  /** What the executor does, in order. */
  datatype Event<K> =
    | Admitted(key: K, promise: nat)
    | MadeReady(key: K)
    | Started(key: K, promise: nat)
    | ExpiredInQueue(key: K, promise: nat)
    | Finished(key: K, promise: nat)

  datatype Trace<K> = Empty | Then(before: Trace<K>, last: Event<K>)

  datatype Exec<K> = Exec(
    states: map<K, KeyState>, ready: seq<K>, readySet: set<K>, active: int, waiting: int,
    rejected: nat, expired: nat, peakPending: int, promises: nat, trace: Trace<K>)

  // ---------------------------------------------------- specification functions

  function Initial<K>(): Exec<K>
  {
    Exec(map[], [], {}, 0, 0, 0, 0, 0, 0, Empty)
  }

  function Log<K>(s: Exec<K>, e: Event<K>): Exec<K>
  {
    s.(trace := Then(s.trace, e))
  }

  function StateOf<K>(s: Exec<K>, k: K): KeyState
  {
    if k in s.states then s.states[k] else IDLE
  }

  predicate CanRun<K>(s: Exec<K>, b: Budgets, k: K)
  {
    var state := StateOf(s, k);
    var startsImmediately := state.active.None? && state.pending == [] && s.active < b.maxConcurrent;
    (startsImmediately || s.waiting < b.maxPending) && |state.pending| < b.maxPendingPerKey
  }

  function MarkReady<K>(s: Exec<K>, k: K): Exec<K>
  {
    if k in s.readySet then s else Log(s.(readySet := s.readySet + {k}, ready := s.ready + [k]), MadeReady(k))
  }

  function Enqueue<K>(s: Exec<K>, k: K, now: int): Exec<K>
  {
    var state := StateOf(s, k);
    var task := Task(s.promises, now);
    var queued := Log(s.(states := s.states[k := state.(pending := state.pending + [task])],
                         waiting := s.waiting + 1, promises := s.promises + 1),
                      Admitted(k, s.promises));
    if state.active.None? then MarkReady(queued, k) else queued
  }

  /** One turn of the pump, with its two defensive branches. */
  function DispatchHead<K>(s: Exec<K>): Exec<K>
    requires s.ready != []
  {
    var key := s.ready[0];
    var popped := s.(ready := s.ready[1..], readySet := s.readySet - {key});
    var state := StateOf(s, key);
    if key !in s.states || state.active.Some? then popped
    else if state.pending == [] then popped.(states := s.states - {key})
    else
      var task := state.pending[0];
      Log(popped.(states := s.states[key := KeyState(Some(Running(task, Dispatched)), state.pending[1..])],
                  waiting := s.waiting - 1, active := s.active + 1),
          Started(key, task.promise))
  }

  function Pump<K>(s: Exec<K>, b: Budgets): Exec<K>
    decreases |s.ready|
  {
    if s.active < b.maxConcurrent && s.ready != [] then Pump(DispatchHead(s), b) else s
  }

  /** `run`: refuse, or queue the task and pump. */
  function Admit<K>(s: Exec<K>, b: Budgets, k: K, now: int): Exec<K>
  {
    if !CanRun(s, b, k) then s.(rejected := s.rejected + 1)
    else
      var pumped := Pump(Enqueue(s, k, now), b);
      pumped.(peakPending := if pumped.peakPending >= pumped.waiting then pumped.peakPending else pumped.waiting)
  }

  function PromisesOf(tasks: seq<Task>): (ps: seq<nat>)
    ensures |ps| == |tasks|
    ensures forall i :: 0 <= i < |tasks| ==> ps[i] == tasks[i].promise
  {
    seq(|tasks|, i requires 0 <= i < |tasks| => tasks[i].promise)
  }

  /** Take a task out of its key's queue. */
  function Dropped<K>(s: Exec<K>, k: K, index: nat): Exec<K>
    requires index < |StateOf(s, k).pending|
  {
    var state := StateOf(s, k);
    var rest := state.pending[..index] + state.pending[index + 1..];
    Log(s.(states := s.states[k := state.(pending := rest)], waiting := s.waiting - 1, expired := s.expired + 1),
        ExpiredInQueue(k, state.pending[index].promise))
  }

  function Forgotten<K>(s: Exec<K>, k: K): Exec<K>
  {
    s.(states := s.states - {k}, readySet := s.readySet - {k}, ready := Without(s.ready, k))
  }

  /** A queue timer fires: drop the task if it is still undispatched. */
  function Expire<K>(s: Exec<K>, k: K, promise: nat): Exec<K>
  {
    var index := IndexOf(PromisesOf(StateOf(s, k).pending), promise);
    if index < 0 then s
    else
      var dropped := Dropped(s, k, index);
      if StateOf(dropped, k) == IDLE then Forgotten(dropped, k) else dropped
  }

  predicate IsActive<K>(s: Exec<K>, k: K)
  {
    StateOf(s, k).active.Some?
  }

  /** The dispatched task's turn on the event loop: enter its work unless it is overdue. */
  function Begin<K>(s: Exec<K>, b: Budgets, k: K, now: int): Exec<K>
    requires IsActive(s, k)
  {
    var run := StateOf(s, k).active.value;
    var age := now - run.task.enqueuedAt;
    var overdue := age >= b.maxQueueAgeMs;
    var phase := if overdue then Overdue(age) else Working;
    s.(states := s.states[k := s.states[k].(active := Some(run.(phase := phase)))],
       expired := if overdue then s.expired + 1 else s.expired)
  }

  /** Release the key's permit; its queue head becomes ready again. */
  function Release<K>(s: Exec<K>, k: K): Exec<K>
    requires IsActive(s, k)
  {
    var state := s.states[k].(active := None);
    var freed := Log(s.(states := s.states[k := state], active := s.active - 1),
                     Finished(k, s.states[k].active.value.task.promise));
    if state.pending != [] then MarkReady(freed, k) else freed.(states := s.states - {k})
  }

  /** The settled task's `complete` callback. */
  function Complete<K>(s: Exec<K>, b: Budgets, k: K): Exec<K>
    requires IsActive(s, k)
  {
    Pump(Release(s, k), b)
  }

  function Refresh<K>(s: Exec<K>, k: K, promise: nat, now: int): Exec<K>
  {
    var state := StateOf(s, k);
    var index := IndexOf(PromisesOf(state.pending), promise);
    if index < 0 then s
    else s.(states := s.states[k := state.(pending := state.pending[index := Task(promise, now)])])
  }

  predicate IsDispatched<K>(s: Exec<K>, k: K, promise: nat)
  {
    IsActive(s, k) && StateOf(s, k).active.value.task.promise == promise
  }

  // ---------------------------------------------------------------- invariants

  ghost predicate CanStart<K>(s: Exec<K>, k: K)
  {
    k in s.states && s.states[k].active.None? && s.states[k].pending != []
  }

  /** `ready` lists, without repeats, exactly the keys with queued work and no
      running task; every stored key has work. */
  ghost predicate ReadyExact<K(!new)>(s: Exec<K>)
  {
    && Distinct(s.ready)
    && s.readySet == (set k | k in s.ready)
    && (forall k :: k in s.ready <==> CanStart(s, k))
    && (forall k :: k in s.states ==> s.states[k].active.Some? || s.states[k].pending != [])
  }

  ghost function Actives<K>(states: map<K, KeyState>): map<K, nat>
  {
    map k | k in states :: if states[k].active.Some? then 1 else 0
  }

  ghost function Queued<K>(states: map<K, KeyState>): map<K, nat>
  {
    map k | k in states :: |states[k].pending|
  }

  /** The counters equal the true totals. */
  ghost predicate CountsExact<K(!new)>(s: Exec<K>)
  {
    s.active == Sum(Actives(s.states)) && s.waiting == Sum(Queued(s.states))
  }

  ghost predicate WithinBudgets<K(!new)>(s: Exec<K>, b: Budgets)
  {
    && s.active <= b.maxConcurrent
    && forall k :: k in s.states ==> |s.states[k].pending| <= b.maxPendingPerKey
  }

  /** No permit is idle while a key is ready. */
  predicate WorkConserving<K>(s: Exec<K>, b: Budgets)
  {
    s.active == b.maxConcurrent || s.ready == []
  }

  /** Admission order of key k with the tasks that expired in queue removed. */
  ghost function Unexpired<K>(t: Trace<K>, k: K): seq<nat>
  {
    match t
    case Empty => []
    case Then(before, Admitted(key, p)) => if key == k then Unexpired(before, k) + [p] else Unexpired(before, k)
    case Then(before, ExpiredInQueue(key, p)) =>
      if key == k then Without(Unexpired(before, k), p) else Unexpired(before, k)
    case Then(before, _) => Unexpired(before, k)
  }

  ghost function StartedOf<K>(t: Trace<K>, k: K): seq<nat>
  {
    match t
    case Empty => []
    case Then(before, Started(key, p)) => if key == k then StartedOf(before, k) + [p] else StartedOf(before, k)
    case Then(before, _) => StartedOf(before, k)
  }

  ghost function FinishedOf<K>(t: Trace<K>, k: K): seq<nat>
  {
    match t
    case Empty => []
    case Then(before, Finished(key, p)) => if key == k then FinishedOf(before, k) + [p] else FinishedOf(before, k)
    case Then(before, _) => FinishedOf(before, k)
  }

  ghost function AdmittedOf<K>(t: Trace<K>, k: K): seq<nat>
  {
    match t
    case Empty => []
    case Then(before, Admitted(key, p)) => if key == k then AdmittedOf(before, k) + [p] else AdmittedOf(before, k)
    case Then(before, _) => AdmittedOf(before, k)
  }

  ghost function ExpiredOf<K>(t: Trace<K>, k: K): seq<nat>
  {
    match t
    case Empty => []
    case Then(before, ExpiredInQueue(key, p)) => if key == k then ExpiredOf(before, k) + [p] else ExpiredOf(before, k)
    case Then(before, _) => ExpiredOf(before, k)
  }

  ghost function RunningOf<K>(s: Exec<K>, k: K): seq<nat>
  {
    if IsActive(s, k) then [StateOf(s, k).active.value.task.promise] else []
  }

  /** Tasks of key k start in admission order with expired ones removed, one at a
      time: each finishes before the next starts. */
  ghost predicate FifoOf<K>(s: Exec<K>, k: K)
  {
    && Unexpired(s.trace, k) == StartedOf(s.trace, k) + PromisesOf(StateOf(s, k).pending)
    && StartedOf(s.trace, k) == FinishedOf(s.trace, k) + RunningOf(s, k)
  }

  /** Every admitted promise is new, below n, and expired in queue or not, once. */
  ghost predicate Accounts(admitted: seq<nat>, expired: seq<nat>, unexpired: seq<nat>, n: nat)
  {
    && Distinct(admitted) && Distinct(unexpired)
    && (forall p :: p in admitted ==> p < n) && (forall p :: p in unexpired ==> p < n)
    && multiset(admitted) == multiset(expired) + multiset(unexpired)
  }

  /** Each admitted task has one fate: queued, running, expired in queue or finished. */
  ghost predicate AccountedOf<K>(s: Exec<K>, k: K)
  {
    Accounts(AdmittedOf(s.trace, k), ExpiredOf(s.trace, k), Unexpired(s.trace, k), s.promises)
  }

  ghost predicate Ordered<K(!new)>(s: Exec<K>)
  {
    forall k :: FifoOf(s, k) && AccountedOf(s, k)
  }

  /** Keys started since key k last became ready. */
  ghost function StartedSince<K>(t: Trace<K>, k: K): seq<K>
  {
    match t
    case Empty => []
    case Then(before, MadeReady(key)) => if key == k then [] else StartedSince(before, k)
    case Then(before, Started(key, _)) => StartedSince(before, k) + [key]
    case Then(before, _) => StartedSince(before, k)
  }

  /** While a key waits its turn no other key starts twice, and one that has
      started is not ahead of it again. */
  ghost predicate Fair<K(!new)>(s: Exec<K>)
  {
    forall i {:trigger s.ready[i]} :: 0 <= i < |s.ready| ==>
      Distinct(StartedSince(s.trace, s.ready[i])) &&
      forall k :: k in StartedSince(s.trace, s.ready[i]) ==> k !in s.ready[..i + 1]
  }

  /** Everything but work conservation and the global queue bound, which hold
      only between operations, not inside them. */
  ghost predicate Core<K(!new)>(s: Exec<K>, b: Budgets)
  {
    ReadyExact(s) && CountsExact(s) && WithinBudgets(s, b) && Ordered(s) && Fair(s)
  }

  ghost predicate Inv<K(!new)>(s: Exec<K>, b: Budgets)
  {
    ValidBudgets(b) && Core(s, b) && WorkConserving(s, b) && s.waiting <= b.maxPending
  }
}
