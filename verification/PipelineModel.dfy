/** The asynchronous stack pipeline (backtrace/src/AsyncStackPipeline.cpp) as a
    state machine: every region that holds the pipeline's mutex is one step of a
    submitter, a releaser, a flusher, the shutdown caller or the worker. */
module PipelineModel {
  import opened Wrappers

  const MAX_RAW_FRAMES := 256

  /** A captured stack; `capture` stands for the fields outside the identity. */
  datatype RawStack = RawStack(pcs: seq<nat>, generation: nat, capture: nat)

  datatype Key = Key(pcs: seq<nat>, generation: nat)

  type Id = nat

  function Normalized(raw: RawStack, currentGeneration: nat): RawStack {
    raw.(pcs := if |raw.pcs| <= MAX_RAW_FRAMES then raw.pcs else raw.pcs[..MAX_RAW_FRAMES],
         generation := if raw.generation == 0 then currentGeneration else raw.generation)
  }

  /** The first 256 frames are kept, a stack without a generation gets the current
      one, and nothing else changes. */
  lemma {:induction false} NormalizedIs(raw: RawStack, currentGeneration: nat)
    ensures var r := Normalized(raw, currentGeneration);
            && r.pcs <= raw.pcs && (|r.pcs| == |raw.pcs| || |r.pcs| == 256) && |r.pcs| <= 256
            && (raw.generation != 0 ==> r.generation == raw.generation)
            && (raw.generation == 0 ==> r.generation == currentGeneration)
            && r.capture == raw.capture
            && (r.generation != 0 ==> Normalized(r, currentGeneration) == r)
  {
  }

  function KeyOf(raw: RawStack): Key {
    Key(raw.pcs, raw.generation)
  }

  datatype Resolution = Pending | Resolved | Dropped | Failed

  datatype StackResult = StackResult(state: Resolution, raw: RawStack)

  datatype Item = Item(id: Id, raw: RawStack)

  /** Where the worker is. `Failing` runs the callbacks of the results failed
      because the worker could not mark itself; `Leaving` has left its loop. */
  datatype Phase =
    | Idle
    | Holding(item: Item)
    | InCallback(id: Id)
    | Failing(remaining: seq<Id>)
    | Leaving
    | Exited

  datatype Stats = Stats(accepted: nat, duplicates: nat, dropped: nat, processed: nat, failed: nat,
                         startFailures: nat, recursive: nat, highWater: nat)

  /** Results, their identities, and the two retention queues. */
  datatype Table = Table(
    resultCapacity: nat,
    unique: map<Key, Id>,
    idToKey: map<Id, Key>,
    results: map<Id, StackResult>,
    resultOrder: seq<Id>,
    droppedOrder: seq<Id>)

  datatype State = State(
    capacity: nat,
    table: Table,
    queue: seq<Item>,
    active: nat,
    stopping: bool,
    joined: bool,
    nextId: Id,
    stats: Stats,
    // The worker: its place in the loop and its two local facts.
    phase: Phase,
    markerSet: bool,
    markerFailed: bool,
    // Threads asleep on the two condition variables, and work notifications
    // sent after the mutex was released but not yet delivered.
    workerAsleep: bool,
    workNotices: nat,
    sleepers: set<nat>,
    // Histories: ids accepted, ids whose result was recorded, ids whose
    // callback returned.
    accepted: seq<Id>,
    completed: seq<Id>,
    returned: seq<Id>)

  const NO_STATS := Stats(0, 0, 0, 0, 0, 0, 0, 0)

  /** The constructor; without the worker's thread key there is no worker. */
  function Initial(capacity: nat, keyReady: bool): State {
    var size := if capacity == 0 then 1 else capacity;
    State(size, Table(size, map[], map[], map[], [], []), [], 0, !keyReady, false, 1,
          if keyReady then NO_STATS else NO_STATS.(startFailures := 1),
          if keyReady then Idle else Exited, false, false,
          false, 0, {}, [], [], [])
  }

  datatype SubmitResult = SubmitResult(id: Id, accepted: bool, duplicate: bool, dropped: bool, rejectedRecursion: bool)

  const REJECTED := SubmitResult(0, false, false, false, false)

  // ---------- Result table ----------

  /** Drops every trace of `id`; the dedup entry only while it still points here. */
  function Erase(t: Table, id: Id): Table {
    var unique :=
      if id in t.idToKey && t.idToKey[id] in t.unique && t.unique[t.idToKey[id]] == id
      then t.unique - {t.idToKey[id]} else t.unique;
    t.(unique := unique, idToKey := t.idToKey - {id}, results := t.results - {id})
  }

  function EvictResults(t: Table): (r: Table)
    ensures r.resultCapacity == t.resultCapacity && r.droppedOrder == t.droppedOrder
    ensures |r.resultOrder| <= r.resultCapacity
    decreases |t.resultOrder|
  {
    if |t.resultOrder| <= t.resultCapacity then t
    else
      var id := t.resultOrder[0];
      var popped := t.(resultOrder := t.resultOrder[1..]);
      EvictResults(if id in t.results && !t.results[id].state.Pending? then Erase(popped, id) else popped)
  }

  function EvictDropped(t: Table): (r: Table)
    ensures r.resultCapacity == t.resultCapacity && r.resultOrder == t.resultOrder
    ensures |r.droppedOrder| <= r.resultCapacity
    decreases |t.droppedOrder|
  {
    if |t.droppedOrder| <= t.resultCapacity then t
    else EvictDropped(Erase(t.(droppedOrder := t.droppedOrder[1..]), t.droppedOrder[0]))
  }

  function Without(ids: seq<Id>, id: Id): seq<Id> {
    if ids == [] then []
    else (if ids[0] == id then [] else [ids[0]]) + Without(ids[1..], id)
  }

  function AddPending(t: Table, id: Id, raw: RawStack): Table {
    t.(unique := t.unique[KeyOf(raw) := id], idToKey := t.idToKey[id := KeyOf(raw)],
       results := t.results[id := StackResult(Pending, raw)])
  }

  /** A dropped submission leaves no dedup entry but stays readable for a while. */
  function AddDropped(t: Table, id: Id, raw: RawStack): Table {
    EvictDropped(t.(idToKey := t.idToKey[id := KeyOf(raw)],
                    results := t.results[id := StackResult(Dropped, raw)],
                    droppedOrder := t.droppedOrder + [id]))
  }

  function Complete(t: Table, item: Item, state: Resolution): Table {
    EvictResults(t.(results := if item.id in t.results then t.results[item.id := StackResult(state, item.raw)]
                               else t.results,
                    resultOrder := t.resultOrder + [item.id]))
  }

  function FailAll(results: map<Id, StackResult>, items: seq<Item>): map<Id, StackResult> {
    if items == [] then results
    else
      var id := items[0].id;
      FailAll(if id in results then results[id := StackResult(Failed, items[0].raw)] else results, items[1..])
  }

  predicate Releasable(t: Table, id: Id) {
    id != 0 && id in t.results && !t.results[id].state.Pending?
  }

  function Released(t: Table, id: Id): Table {
    Erase(t, id).(resultOrder := Without(t.resultOrder, id), droppedOrder := Without(t.droppedOrder, id))
  }

  // ---------- Callers ----------

  /** `onMarkedWorker`: called from the worker thread while its marker is set. */
  function Submit(s: State, raw: RawStack, onMarkedWorker: bool): (State, SubmitResult) {
    if onMarkedWorker then
      (s.(stats := s.stats.(recursive := s.stats.recursive + 1)), REJECTED.(rejectedRecursion := true))
    else if s.stopping then (s, REJECTED)
    else if KeyOf(raw) in s.table.unique then
      (s.(stats := s.stats.(duplicates := s.stats.duplicates + 1)),
       SubmitResult(s.table.unique[KeyOf(raw)], false, true, false, false))
    else if |s.queue| == s.capacity then
      (s.(nextId := s.nextId + 1,
          table := AddDropped(s.table, s.nextId, raw),
          stats := s.stats.(dropped := s.stats.dropped + 1)),
       SubmitResult(s.nextId, false, false, true, false))
    else
      (s.(nextId := s.nextId + 1,
          table := AddPending(s.table, s.nextId, raw),
          queue := s.queue + [Item(s.nextId, raw)],
          stats := s.stats.(accepted := s.stats.accepted + 1,
                            highWater := if s.stats.highWater < |s.queue| + 1 then |s.queue| + 1
                                else s.stats.highWater),
          workNotices := s.workNotices + 1,
          accepted := s.accepted + [s.nextId]),
       SubmitResult(s.nextId, true, false, false, false))
  }

  function Release(s: State, id: Id): (State, bool) {
    if Releasable(s.table, id) then (s.(table := Released(s.table, id)), true) else (s, false)
  }

  /** What Flush waits for. */
  predicate Drained(s: State) {
    s.queue == [] && s.active == 0
  }

  // ---------- Worker ----------

  function Ids(items: seq<Item>): seq<Id> {
    seq(|items|, i requires 0 <= i < |items| => items[i].id)
  }

  function Take(s: State): State
    requires s.queue != []
  {
    s.(queue := s.queue[1..], active := s.active + 1, phase := Holding(s.queue[0]))
  }

  /** The worker could not mark itself: everything accepted fails at once. */
  function FailMarker(s: State): State
    requires s.phase.Holding? && s.active > 0
  {
    var items := [s.phase.item] + s.queue;
    s.(table := s.table.(results := FailAll(s.table.results, items)),
       queue := [], active := s.active - 1, stopping := true, markerFailed := true,
       stats := s.stats.(processed := s.stats.processed + |items|, failed := s.stats.failed + |items|,
                         startFailures := s.stats.startFailures + 1),
       phase := Failing(Ids(items)),
       completed := s.completed + Ids(items))
  }

  function Record(s: State, resolved: bool): State
    requires s.phase.Holding?
  {
    s.(table := Complete(s.table, s.phase.item, if resolved then Resolved else Failed),
       stats := s.stats.(processed := s.stats.processed + 1, failed := s.stats.failed + if resolved then 0 else 1),
       phase := InCallback(s.phase.item.id),
       completed := s.completed + [s.phase.item.id])
  }

  /** `notify_all` on the idle condition, when the pipeline is drained. */
  function NotifyIdle(s: State): State {
    if Drained(s) then s.(sleepers := {}) else s
  }

  function Finish(s: State): State
    requires s.phase.InCallback? && s.active > 0
  {
    NotifyIdle(s.(active := s.active - 1, phase := Idle, returned := s.returned + [s.phase.id]))
  }

  // ---------- Runs ----------

  datatype Event =
    | SubmitStack(raw: RawStack, onMarkedWorker: bool)
    | DeliverWorkNotice
    | ReleaseId(id: Id)
    | FlushCheck(thread: nat)
    | BeginShutdown
    | Join
    | WorkerSleeps
    | WorkerTakes
    | MarkerSucceeds
    | MarkerFails
    | WorkerRecords(resolved: bool)
    | CallbackReturns
    | FailedCallbackReturns
    | FailurePathExits
    | WorkerLeaves
    | WorkerExits

  predicate Enabled(s: State, e: Event) {
    match e
    case SubmitStack(_, onMarkedWorker) => onMarkedWorker ==> s.markerSet
    case DeliverWorkNotice => s.workNotices > 0
    case ReleaseId(_) => true
    case FlushCheck(thread) => thread !in s.sleepers
    case BeginShutdown => !s.joined
    case Join => s.stopping && s.phase.Exited?
    case WorkerSleeps => s.phase.Idle? && !s.workerAsleep && s.queue == [] && !s.stopping
    case WorkerTakes => s.phase.Idle? && !s.workerAsleep && s.queue != []
    case MarkerSucceeds => s.phase.Holding? && !s.markerSet
    case MarkerFails => s.phase.Holding? && !s.markerSet && s.active > 0
    case WorkerRecords(_) => s.phase.Holding? && s.markerSet
    case CallbackReturns => s.phase.InCallback? && s.active > 0
    case FailedCallbackReturns => s.phase.Failing? && s.phase.remaining != []
    case FailurePathExits => s.phase == Failing([])
    case WorkerLeaves => s.phase.Idle? && !s.workerAsleep && s.queue == [] && s.stopping
    case WorkerExits => s.phase.Leaving?
  }

  function Next(s: State, e: Event): State
    requires Enabled(s, e)
  {
    match e
    case SubmitStack(raw, onMarkedWorker) => Submit(s, raw, onMarkedWorker).0
    case DeliverWorkNotice => s.(workNotices := s.workNotices - 1, workerAsleep := false)
    case ReleaseId(id) => Release(s, id).0
    case FlushCheck(thread) => if Drained(s) then s else s.(sleepers := s.sleepers + {thread})
    case BeginShutdown => s.(stopping := true, workNotices := s.workNotices + 1)
    case Join => s.(joined := true)
    case WorkerSleeps => s.(workerAsleep := true)
    case WorkerTakes => Take(s)
    case MarkerSucceeds => s.(markerSet := true)
    case MarkerFails => FailMarker(s)
    case WorkerRecords(resolved) => Record(s, resolved)
    case CallbackReturns => Finish(s)
    case FailedCallbackReturns =>
      s.(phase := Failing(s.phase.remaining[1..]), returned := s.returned + [s.phase.remaining[0]])
    case FailurePathExits => NotifyIdle(s).(phase := Exited)
    case WorkerLeaves => s.(phase := Leaving)
    case WorkerExits => NotifyIdle(s).(phase := Exited)
  }

  /** The state after an interleaving, if each event was enabled in its turn. */
  function Run(start: State, events: seq<Event>): Option<State>
    decreases |events|
  {
    if events == [] then Some(start)
    else
      match Run(start, events[..|events| - 1])
      case None => None
      case Some(s) =>
        var e := events[|events| - 1];
        if Enabled(s, e) then Some(Next(s, e)) else None
  }

  ghost predicate Reachable(s: State) {
    exists capacity, keyReady, events :: Run(Initial(capacity, keyReady), events) == Some(s)
  }
}
