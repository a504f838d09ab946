/** What every interleaving of the stack pipeline keeps. */
module PipelineProofs {
  import opened Wrappers
  import opened PipelineModel

  // ---------- Invariants ----------

  /** Accepted work that has no result yet, oldest first. */
  function Live(s: State): seq<Item> {
    (if s.phase.Holding? then [s.phase.item] else []) + s.queue
  }

  /** Recorded results whose callback has not returned. */
  function AwaitingCallback(phase: Phase): seq<Id> {
    if phase.InCallback? then [phase.id] else if phase.Failing? then phase.remaining else []
  }

  ghost predicate Increasing(ids: seq<Id>) {
    forall i, j :: 0 <= i < j < |ids| ==> ids[i] < ids[j]
  }

  predicate WorkerDone(phase: Phase) {
    phase.Failing? || phase.Leaving? || phase.Exited?
  }

  /** Work is conserved in FIFO order. */
  ghost predicate Flow(s: State) {
    && s.capacity >= 1 && |s.queue| <= s.capacity
    && s.active == (if s.phase.Holding? || s.phase.InCallback? then 1 else 0)
    && s.accepted == s.completed + Ids(Live(s))
    && s.completed == s.returned + AwaitingCallback(s.phase)
    && s.stats.accepted == |s.accepted| && s.stats.processed == |s.completed|
    && s.nextId == 1 + |s.accepted| + s.stats.dropped
    && Increasing(s.accepted) && (forall i :: 0 <= i < |s.accepted| ==> 1 <= s.accepted[i] < s.nextId)
  }

  /** The worker's place in its life. */
  ghost predicate Life(s: State) {
    && (WorkerDone(s.phase) ==> s.stopping && s.queue == [])
    && (s.phase.Failing? ==> s.markerFailed)
    && (s.markerFailed ==> !s.markerSet && (s.phase.Failing? || s.phase.Exited?) && |s.completed| <= s.capacity + 1)
    && (!s.markerSet && !s.markerFailed ==> s.completed == [])
    && (s.joined ==> s.phase.Exited?)
  }

  /** No wake-up is lost: a sleeping worker has nothing to do or a notice on its
      way, a sleeping flusher has something to wait for and a notifier to come. */
  ghost predicate Wakeups(s: State) {
    && (s.workerAsleep ==> s.phase.Idle? && ((s.queue == [] && !s.stopping) || s.workNotices > 0))
    && (s.sleepers != {} ==> (!Drained(s) || s.phase.Failing?) && !s.phase.Exited?)
  }

  // ---------- Flow ----------

  lemma {:induction false} FlowSubmit(s: State, raw: RawStack, onMarkedWorker: bool)
    requires Flow(s)
    ensures Flow(Submit(s, raw, onMarkedWorker).0)
  {
    var t := Submit(s, raw, onMarkedWorker).0;
    if Submit(s, raw, onMarkedWorker).1.accepted {
      assert Live(t) == Live(s) + [Item(s.nextId, raw)];
      assert Ids(Live(t)) == Ids(Live(s)) + [s.nextId];
      assert t.accepted == s.completed + (Ids(Live(s)) + [s.nextId]);
    } else {
      assert Live(t) == Live(s);
    }
  }

  lemma {:induction false} FlowFail(s: State)
    requires Flow(s) && s.phase.Holding?
    ensures Flow(FailMarker(s))
  {
    var t := FailMarker(s);
    assert Live(t) == [] && Live(s) == [s.phase.item] + s.queue;
    assert t.accepted == t.completed + [];
    assert AwaitingCallback(s.phase) == [];
  }

  lemma {:induction false} FlowRecord(s: State, resolved: bool)
    requires Flow(s) && s.phase.Holding?
    ensures Flow(Record(s, resolved))
  {
    var t, id := Record(s, resolved), s.phase.item.id;
    assert Live(t) == s.queue;
    assert Ids(Live(s)) == [id] + Ids(s.queue);
    assert s.completed + ([id] + Ids(s.queue)) == (s.completed + [id]) + Ids(s.queue);
  }

  lemma {:induction false} FlowFailedCallback(s: State)
    requires Flow(s) && s.phase.Failing? && s.phase.remaining != []
    ensures Flow(Next(s, FailedCallbackReturns))
  {
    hide Submit, Release, Record, FailMarker, Finish, Take, Drained;
    var t, rest := Next(s, FailedCallbackReturns), s.phase.remaining;
    assert Live(t) == Live(s);
    assert rest == [rest[0]] + rest[1..];
    assert s.returned + ([rest[0]] + rest[1..]) == (s.returned + [rest[0]]) + rest[1..];
  }

  predicate CallerEvent(e: Event) {
    e.SubmitStack? || e.DeliverWorkNotice? || e.ReleaseId? || e.FlushCheck? || e.BeginShutdown? || e.Join?
  }

  lemma {:induction false} FlowFrame(s: State, t: State)
    requires Flow(s)
    requires t == s.(table := t.table, stopping := t.stopping, joined := t.joined, workerAsleep := t.workerAsleep,
                     workNotices := t.workNotices, sleepers := t.sleepers, markerSet := t.markerSet)
    ensures Flow(t)
  {
    assert Live(t) == Live(s);
  }

  lemma {:induction false} FlowCaller(s: State, e: Event)
    requires Flow(s) && Enabled(s, e) && CallerEvent(e)
    ensures Flow(Next(s, e))
  {
    hide Flow;
    if e.SubmitStack? {
      FlowSubmit(s, e.raw, e.onMarkedWorker);
    } else {
      FlowFrame(s, Next(s, e));
    }
  }

  lemma {:induction false} FlowTake(s: State)
    requires Flow(s) && s.phase.Idle? && s.queue != []
    ensures Flow(Take(s))
  {
    assert Live(Take(s)) == Live(s);
  }

  /** The worker changes its place without an item in hand before or after. */
  lemma {:induction false} FlowMove(s: State, t: State)
    requires Flow(s) && t == s.(phase := t.phase, sleepers := t.sleepers)
    requires s.phase.Idle? || s.phase.Leaving? || s.phase == Failing([])
    requires t.phase.Leaving? || t.phase.Exited?
    ensures Flow(t)
  {
    assert Live(t) == Live(s);
  }

  lemma {:induction false} FlowFinish(s: State)
    requires Flow(s) && s.phase.InCallback? && s.active > 0
    ensures Flow(Finish(s))
  {
    hide Drained;
    assert Live(Finish(s)) == Live(s);
  }

  lemma {:induction false} FlowWorker(s: State, e: Event)
    requires Flow(s) && Enabled(s, e) && !CallerEvent(e)
    ensures Flow(Next(s, e))
  {
    hide Flow, Drained, Take, Record, FailMarker, Finish;
    if e.MarkerFails? {
      FlowFail(s);
    } else if e.WorkerRecords? {
      FlowRecord(s, e.resolved);
    } else if e.FailedCallbackReturns? {
      FlowFailedCallback(s);
    } else if e.WorkerTakes? {
      FlowTake(s);
    } else if e.CallbackReturns? {
      FlowFinish(s);
    } else if e.WorkerSleeps? || e.MarkerSucceeds? {
      FlowFrame(s, Next(s, e));
    } else {
      FlowMove(s, Next(s, e));
    }
  }

  lemma {:induction false} LifeCaller(s: State, e: Event)
    requires Flow(s) && Life(s) && Wakeups(s) && Enabled(s, e) && CallerEvent(e)
    ensures Life(Next(s, e)) && Wakeups(Next(s, e))
  {
  }

  lemma {:induction false} LifeWorker(s: State, e: Event)
    requires Flow(s) && Life(s) && Enabled(s, e) && !CallerEvent(e)
    ensures Life(Next(s, e))
  {
  }

  lemma {:induction false} WakeupsWorker(s: State, e: Event)
    requires Flow(s) && Life(s) && Wakeups(s) && Enabled(s, e) && !CallerEvent(e)
    ensures Wakeups(Next(s, e))
  {
  }

  // ---------- Tables ----------

  /** The tables describe the same results, and the dedup map is a bijection
      between keys and the results that were not dropped. */
  ghost predicate Tables(t: Table, nextId: Id) {
    && t.idToKey.Keys == t.results.Keys
    && (forall id :: id in t.results ==> 1 <= id < nextId && KeyOf(t.results[id].raw) == t.idToKey[id])
    && (forall k :: k in t.unique ==>
          t.unique[k] in t.results && !t.results[t.unique[k]].state.Dropped? && t.idToKey[t.unique[k]] == k)
    && (forall id :: id in t.results && !t.results[id].state.Dropped? ==>
          t.idToKey[id] in t.unique && t.unique[t.idToKey[id]] == id)
  }

  /** Exactly the live items are pending. */
  ghost predicate PendingIs(t: Table, live: seq<Item>) {
    && (forall i :: 0 <= i < |live| ==>
          live[i].id in t.results && t.results[live[i].id] == StackResult(Pending, live[i].raw))
    && (forall id :: id in t.results && t.results[id].state.Pending? ==> id in Ids(live))
  }

  ghost predicate NoDuplicates(ids: seq<Id>) {
    forall i, j :: 0 <= i < j < |ids| ==> ids[i] != ids[j]
  }

  predicate Done(r: StackResult) {
    r.state.Resolved? || r.state.Failed?
  }

  ghost predicate DroppedListed(t: Table) {
    && NoDuplicates(t.droppedOrder)
    && forall id :: id in t.droppedOrder <==> id in t.results && t.results[id].state.Dropped?
  }

  /** `listed`: no result has been failed with the worker's marker. */
  ghost predicate DoneListed(t: Table, listed: bool) {
    && NoDuplicates(t.resultOrder)
    && (forall id :: id in t.resultOrder ==> id in t.results && Done(t.results[id]))
    && (if listed then forall id :: id in t.results && Done(t.results[id]) ==> id in t.resultOrder
        else t.resultOrder == [])
  }

  /** Erasing a result that is not pending keeps the other identities intact, in
      particular those of a later submission of the same stack. */
  lemma {:induction false} EraseKeeps(t: Table, nextId: Id, live: seq<Item>, id: Id)
    requires Tables(t, nextId) && PendingIs(t, live) && id in t.results && !t.results[id].state.Pending?
    ensures Tables(Erase(t, id), nextId) && PendingIs(Erase(t, id), live)
    ensures forall k :: k in t.unique && t.unique[k] != id ==>
              k in Erase(t, id).unique && Erase(t, id).unique[k] == t.unique[k]
  {
    var u := Erase(t, id);
    forall i | 0 <= i < |live|
      ensures live[i].id in u.results && u.results[live[i].id] == StackResult(Pending, live[i].raw)
    {
      assert live[i].id != id;
    }
  }

  /** All that the tables keep, relative to the work that has no result yet. */
  ghost predicate TableInv(t: Table, nextId: Id, live: seq<Item>, listed: bool) {
    && Tables(t, nextId) && PendingIs(t, live)
    && DroppedListed(t) && |t.droppedOrder| <= t.resultCapacity
    && DoneListed(t, listed) && |t.resultOrder| <= t.resultCapacity
  }

  lemma {:induction false} WithoutIsFilter(ids: seq<Id>, id: Id)
    requires NoDuplicates(ids)
    ensures NoDuplicates(Without(ids, id)) && |Without(ids, id)| <= |ids|
    ensures forall x :: x in Without(ids, id) <==> x in ids && x != id
    decreases |ids|
  {
    if ids != [] {
      WithoutIsFilter(ids[1..], id);
      assert ids == [ids[0]] + ids[1..];
      assert ids[0] !in ids[1..];
    }
  }

  lemma {:induction false} ReleasedKeeps(t: Table, nextId: Id, live: seq<Item>, listed: bool, id: Id)
    requires TableInv(t, nextId, live, listed) && Releasable(t, id)
    ensures TableInv(Released(t, id), nextId, live, listed)
    ensures Released(t, id).results == t.results - {id}
  {
    EraseKeeps(t, nextId, live, id);
    WithoutIsFilter(t.resultOrder, id);
    WithoutIsFilter(t.droppedOrder, id);
    assert Tables(Released(t, id), nextId) && PendingIs(Released(t, id), live);
  }

  lemma {:induction false} AppendNew(ids: seq<Id>, id: Id)
    requires NoDuplicates(ids) && id !in ids
    ensures NoDuplicates(ids + [id])
    ensures forall x :: x in ids + [id] <==> x in ids || x == id
  {
  }

  lemma {:induction false} PopFirst(ids: seq<Id>)
    requires NoDuplicates(ids) && ids != []
    ensures NoDuplicates(ids[1..])
    ensures forall x :: x in ids[1..] <==> x in ids && x != ids[0]
  {
    assert ids == [ids[0]] + ids[1..];
  }

  lemma {:induction false} IdsCons(item: Item, rest: seq<Item>)
    ensures Ids([item] + rest) == [item.id] + Ids(rest)
  {
  }

  // A new pending result.

  lemma {:induction false} AddPendingTables(t: Table, id: Id, raw: RawStack)
    requires Tables(t, id) && KeyOf(raw) !in t.unique && id >= 1
    ensures Tables(AddPending(t, id, raw), id + 1)
  {
  }

  lemma {:induction false} AddPendingLive(t: Table, live: seq<Item>, id: Id, raw: RawStack)
    requires PendingIs(t, live) && id !in t.results
    ensures PendingIs(AddPending(t, id, raw), live + [Item(id, raw)])
  {
    var u, more := AddPending(t, id, raw), live + [Item(id, raw)];
    assert Ids(more) == Ids(live) + [id];
    forall i | 0 <= i < |more|
      ensures more[i].id in u.results && u.results[more[i].id] == StackResult(Pending, more[i].raw)
    {
      if i < |live| {
        assert more[i] == live[i];
      }
    }
  }

  lemma {:induction false} AddPendingKeeps(t: Table, id: Id, live: seq<Item>, listed: bool, raw: RawStack)
    requires TableInv(t, id, live, listed) && KeyOf(raw) !in t.unique && id >= 1
    ensures TableInv(AddPending(t, id, raw), id + 1, live + [Item(id, raw)], listed)
  {
    assert id !in t.results;
    AddPendingTables(t, id, raw);
    AddPendingLive(t, live, id, raw);
  }

  // A new dropped result.

  function DropInsert(t: Table, id: Id, raw: RawStack): Table {
    t.(idToKey := t.idToKey[id := KeyOf(raw)], results := t.results[id := StackResult(Dropped, raw)],
       droppedOrder := t.droppedOrder + [id])
  }

  lemma {:induction false} DropInsertTables(t: Table, id: Id, live: seq<Item>, raw: RawStack)
    requires Tables(t, id) && PendingIs(t, live) && id >= 1
    ensures Tables(DropInsert(t, id, raw), id + 1) && PendingIs(DropInsert(t, id, raw), live)
  {
  }

  lemma {:induction false} DropInsertLists(t: Table, id: Id, listed: bool, raw: RawStack)
    requires id !in t.results && DroppedListed(t) && DoneListed(t, listed)
    ensures DroppedListed(DropInsert(t, id, raw)) && DoneListed(DropInsert(t, id, raw), listed)
  {
    AppendNew(t.droppedOrder, id);
  }

  lemma {:induction false} EvictDroppedKeeps(u: Table, nextId: Id, live: seq<Item>, listed: bool)
    requires Tables(u, nextId) && PendingIs(u, live) && DroppedListed(u) && DoneListed(u, listed)
    requires |u.droppedOrder| <= u.resultCapacity + 1 && |u.resultOrder| <= u.resultCapacity
    ensures TableInv(EvictDropped(u), nextId, live, listed)
  {
    if |u.droppedOrder| > u.resultCapacity {
      var id := u.droppedOrder[0];
      var v := u.(droppedOrder := u.droppedOrder[1..]);
      PopFirst(u.droppedOrder);
      assert id in u.droppedOrder;
      EraseKeeps(v, nextId, live, id);
      assert EvictDropped(u) == Erase(v, id);
    }
  }

  lemma {:induction false} AddDroppedKeeps(t: Table, id: Id, live: seq<Item>, listed: bool, raw: RawStack)
    requires TableInv(t, id, live, listed) && id >= 1
    ensures TableInv(AddDropped(t, id, raw), id + 1, live, listed)
  {
    assert id !in t.results;
    DropInsertTables(t, id, live, raw);
    DropInsertLists(t, id, listed, raw);
    EvictDroppedKeeps(DropInsert(t, id, raw), id + 1, live, listed);
  }

  // A result that completes.

  function CompleteInsert(t: Table, item: Item, state: Resolution): Table {
    t.(results := t.results[item.id := StackResult(state, item.raw)], resultOrder := t.resultOrder + [item.id])
  }

  lemma {:induction false} CompleteInsertTables(t: Table, nextId: Id, item: Item, state: Resolution)
    requires Tables(t, nextId) && item.id in t.results && t.results[item.id] == StackResult(Pending, item.raw)
    requires !state.Dropped?
    ensures Tables(CompleteInsert(t, item, state), nextId)
  {
  }

  lemma {:induction false} CompleteInsertLive(t: Table, item: Item, rest: seq<Item>, state: Resolution)
    requires PendingIs(t, [item] + rest) && item.id !in Ids(rest) && !state.Pending?
    ensures PendingIs(CompleteInsert(t, item, state), rest)
  {
    IdsCons(item, rest);
    var u := CompleteInsert(t, item, state);
    forall i | 0 <= i < |rest|
      ensures rest[i].id in u.results && u.results[rest[i].id] == StackResult(Pending, rest[i].raw)
    {
      assert ([item] + rest)[i + 1] == rest[i] && Ids(rest)[i] == rest[i].id;
    }
  }

  lemma {:induction false} CompleteInsertLists(t: Table, item: Item, state: Resolution)
    requires DroppedListed(t) && DoneListed(t, true)
    requires item.id in t.results && t.results[item.id].state.Pending? && (state.Resolved? || state.Failed?)
    ensures DroppedListed(CompleteInsert(t, item, state)) && DoneListed(CompleteInsert(t, item, state), true)
  {
    AppendNew(t.resultOrder, item.id);
  }

  lemma {:induction false} EvictOneResult(u: Table)
    requires |u.resultOrder| == u.resultCapacity + 1
    requires u.resultOrder[0] in u.results && !u.results[u.resultOrder[0]].state.Pending?
    ensures EvictResults(u) == Erase(u.(resultOrder := u.resultOrder[1..]), u.resultOrder[0])
  {
    var v := Erase(u.(resultOrder := u.resultOrder[1..]), u.resultOrder[0]);
    assert EvictResults(v) == v;
  }

  lemma {:induction false} EvictResultsKeeps(u: Table, nextId: Id, live: seq<Item>)
    requires Tables(u, nextId) && PendingIs(u, live) && DroppedListed(u) && DoneListed(u, true)
    requires |u.resultOrder| <= u.resultCapacity + 1 && |u.droppedOrder| <= u.resultCapacity
    ensures TableInv(EvictResults(u), nextId, live, true)
  {
    if |u.resultOrder| > u.resultCapacity {
      var id := u.resultOrder[0];
      var v := u.(resultOrder := u.resultOrder[1..]);
      PopFirst(u.resultOrder);
      assert id in u.resultOrder;
      EraseKeeps(v, nextId, live, id);
      EvictOneResult(u);
    }
  }

  lemma {:induction false} CompleteKeeps(t: Table, nextId: Id, item: Item, rest: seq<Item>, state: Resolution)
    requires TableInv(t, nextId, [item] + rest, true)
    requires item.id !in Ids(rest) && (state.Resolved? || state.Failed?)
    ensures TableInv(Complete(t, item, state), nextId, rest, true)
  {
    assert ([item] + rest)[0] == item;
    CompleteInsertTables(t, nextId, item, state);
    CompleteInsertLive(t, item, rest, state);
    CompleteInsertLists(t, item, state);
    EvictResultsKeeps(CompleteInsert(t, item, state), nextId, rest);
  }

  // Results failed together with the worker's marker.

  lemma {:induction false} FailAllResults(results: map<Id, StackResult>, items: seq<Item>)
    requires forall i :: 0 <= i < |items| ==> items[i].id in results && results[items[i].id].raw == items[i].raw
    ensures FailAll(results, items).Keys == results.Keys
    ensures forall id :: id in results ==>
              FailAll(results, items)[id] == if id in Ids(items) then results[id].(state := Failed) else results[id]
    decreases |items|
  {
    if items != [] {
      var head, tail := items[0], items[1..];
      var r := results[head.id := StackResult(Failed, head.raw)];
      assert forall i :: 0 <= i < |tail| ==> tail[i] == items[i + 1];
      FailAllResults(r, tail);
      assert Ids(items) == [head.id] + Ids(tail);
    }
  }

  lemma {:induction false} FailAllTables(t: Table, u: Table, nextId: Id)
    requires Tables(t, nextId) && u == t.(results := u.results) && u.results.Keys == t.results.Keys
    requires forall id :: id in t.results ==>
               u.results[id].raw == t.results[id].raw && u.results[id].state.Dropped? == t.results[id].state.Dropped?
    ensures Tables(u, nextId)
  {
  }

  /** Failing everything that is live leaves nothing pending. */
  lemma {:induction false} FailAllKeeps(t: Table, nextId: Id, live: seq<Item>)
    requires TableInv(t, nextId, live, true) && t.resultOrder == []
    ensures TableInv(t.(results := FailAll(t.results, live)), nextId, [], false)
    ensures var failed := FailAll(t.results, live);
            forall id :: id in failed && Done(failed[id]) ==> id in Ids(live)
  {
    hide Tables, FailAll, Ids;
    var u := t.(results := FailAll(t.results, live));
    LiveArePending(t, live);
    FailAllResults(t.results, live);
    FailAllTables(t, u, nextId);
    FailAllLists(t, u, live);
  }

  lemma {:induction false} LiveArePending(t: Table, live: seq<Item>)
    requires PendingIs(t, live)
    ensures forall i :: 0 <= i < |live| ==> live[i].id in t.results && t.results[live[i].id].raw == live[i].raw
    ensures forall id :: id in Ids(live) <==> id in t.results && t.results[id].state.Pending?
  {
    assert forall i :: 0 <= i < |live| ==> Ids(live)[i] == live[i].id;
  }

  lemma {:induction false} FailAllLists(t: Table, u: Table, live: seq<Item>)
    requires DroppedListed(t) && t.resultOrder == [] && DoneListed(t, true)
    requires u == t.(results := u.results) && u.results.Keys == t.results.Keys
    requires forall id :: id in Ids(live) <==> id in t.results && t.results[id].state.Pending?
    requires forall id :: id in t.results ==>
               u.results[id] == if id in Ids(live) then t.results[id].(state := Failed) else t.results[id]
    ensures PendingIs(u, []) && DroppedListed(u) && DoneListed(u, false)
    ensures forall id :: id in u.results && Done(u.results[id]) ==> id in Ids(live)
  {
    hide Ids;
  }

  // ---------- Every step ----------

  ghost predicate TableParts(s: State) {
    && s.table.resultCapacity == s.capacity
    && TableInv(s.table, s.nextId, Live(s), !s.markerFailed)
    && (!s.markerSet && !s.markerFailed ==> s.table.resultOrder == [])
    && (s.markerFailed ==> forall id :: id in s.table.results && Done(s.table.results[id]) ==> id in s.completed)
  }

  ghost predicate Inv(s: State) {
    Flow(s) && Life(s) && Wakeups(s) && TableParts(s)
  }

  lemma {:induction false} TableSubmit(s: State, raw: RawStack, onMarkedWorker: bool)
    requires TableParts(s) && s.nextId >= 1 && (s.markerFailed ==> s.stopping)
    ensures TableParts(Submit(s, raw, onMarkedWorker).0)
  {
    hide TableInv;
    var t, r := Submit(s, raw, onMarkedWorker).0, Submit(s, raw, onMarkedWorker).1;
    if r.accepted {
      AddPendingKeeps(s.table, s.nextId, Live(s), !s.markerFailed, raw);
      assert Live(t) == Live(s) + [Item(s.nextId, raw)];
    } else if r.dropped {
      AddDroppedKeeps(s.table, s.nextId, Live(s), !s.markerFailed, raw);
      assert Live(t) == Live(s);
    } else {
      assert Live(t) == Live(s);
    }
  }

  lemma {:induction false} HeldIsNotQueued(s: State)
    requires Flow(s) && s.phase.Holding?
    ensures s.phase.item.id !in Ids(s.queue)
  {
    assert s.accepted[|s.completed|] == Live(s)[0].id;
    forall i | 0 <= i < |s.queue| ensures Ids(s.queue)[i] != s.phase.item.id {
      assert s.accepted[|s.completed| + 1 + i] == Live(s)[1 + i].id == s.queue[i].id;
    }
  }

  lemma {:induction false} TableRecord(s: State, resolved: bool)
    requires Inv(s) && s.phase.Holding? && s.markerSet
    ensures TableParts(Record(s, resolved))
  {
    var item := s.phase.item;
    IdsCons(item, s.queue);
    HeldIsNotQueued(s);
    CompleteKeeps(s.table, s.nextId, item, s.queue, if resolved then Resolved else Failed);
    assert Live(Record(s, resolved)) == s.queue;
  }

  lemma {:induction false} TableRelease(s: State, id: Id)
    requires TableParts(s)
    ensures TableParts(Release(s, id).0)
  {
    if Releasable(s.table, id) {
      ReleasedKeeps(s.table, s.nextId, Live(s), !s.markerFailed, id);
      assert Live(Release(s, id).0) == Live(s);
    }
  }

  /** Steps that touch neither the tables nor the set of live items. */
  lemma {:induction false} TableFrame(s: State, t: State)
    requires TableParts(s) && t.table == s.table && t.nextId == s.nextId && t.capacity == s.capacity
    requires Live(t) == Live(s) && t.completed == s.completed
    requires t.markerFailed == s.markerFailed && (s.markerSet ==> t.markerSet)
    ensures TableParts(t)
  {
    hide TableInv;
  }

  predicate TableEvent(e: Event) {
    e.SubmitStack? || e.WorkerRecords? || e.MarkerFails? || e.ReleaseId?
  }

  ghost predicate SameTables(s: State, t: State) {
    && t.table == s.table && t.nextId == s.nextId && t.capacity == s.capacity && Live(t) == Live(s)
    && t.completed == s.completed && t.accepted == s.accepted
    && t.markerFailed == s.markerFailed && (s.markerSet ==> t.markerSet) && (s.stopping ==> t.stopping)
  }

  lemma {:induction false} OtherCallers(s: State, e: Event)
    requires Enabled(s, e) && !TableEvent(e) && CallerEvent(e)
    ensures SameTables(s, Next(s, e))
  {
    hide Drained;
  }

  lemma {:induction false} TakeKeepsLive(s: State)
    requires s.phase.Idle? && s.queue != []
    ensures Live(Take(s)) == Live(s)
  {
  }

  lemma {:induction false} LiveFrame(s: State, t: State)
    requires t.queue == s.queue && (t.phase == s.phase || (!s.phase.Holding? && !t.phase.Holding?))
    ensures Live(t) == Live(s)
  {
  }

  lemma {:induction false} OtherWorkers(s: State, e: Event)
    requires Enabled(s, e) && !TableEvent(e) && !CallerEvent(e)
    ensures SameTables(s, Next(s, e))
  {
    hide Drained, Live, Submit, Release, Record, FailMarker;
    if e.WorkerTakes? {
      TakeKeepsLive(s);
    } else {
      LiveFrame(s, Next(s, e));
    }
  }

  /** What every step but those on the tables leaves alone. */
  lemma {:induction false} OtherSteps(s: State, e: Event)
    requires Enabled(s, e) && !TableEvent(e)
    ensures SameTables(s, Next(s, e))
  {
    hide Next, Enabled, SameTables;
    if CallerEvent(e) {
      OtherCallers(s, e);
    } else {
      OtherWorkers(s, e);
    }
  }

  lemma {:induction false} TableFail(s: State)
    requires Inv(s) && s.phase.Holding? && !s.markerSet && s.active > 0
    ensures TableParts(FailMarker(s))
  {
    hide TableInv, FailAll;
    assert Live(s) == [s.phase.item] + s.queue && Live(FailMarker(s)) == [];
    assert !s.markerFailed;
    FailAllKeeps(s.table, s.nextId, Live(s));
  }

  lemma {:induction false} TableStep(s: State, e: Event)
    requires Inv(s) && Enabled(s, e)
    ensures TableParts(Next(s, e))
  {
    if TableEvent(e) {
      hide TableParts, Flow, Wakeups, Submit, Record, FailMarker, Release;
      if e.SubmitStack? {
        StartsPositive(s);
        TableSubmit(s, e.raw, e.onMarkedWorker);
      } else if e.WorkerRecords? {
        TableRecord(s, e.resolved);
      } else if e.MarkerFails? {
        TableFail(s);
      } else {
        TableRelease(s, e.id);
      }
    } else {
      hide TableParts, Flow, Life, Wakeups, Next, Enabled, Live;
      OtherSteps(s, e);
      TableFrame(s, Next(s, e));
    }
  }

  lemma {:induction false} StartsPositive(s: State)
    requires Flow(s) && Life(s)
    ensures s.nextId >= 1 && (s.markerFailed ==> s.stopping)
  {
  }

  /** Every step of every thread keeps the invariant. */
  lemma {:induction false} InvStep(s: State, e: Event)
    requires Inv(s) && Enabled(s, e)
    ensures Inv(Next(s, e))
  {
    TableStep(s, e);
    if CallerEvent(e) {
      FlowCaller(s, e);
      LifeCaller(s, e);
    } else {
      FlowWorker(s, e);
      LifeWorker(s, e);
      WakeupsWorker(s, e);
    }
  }

  lemma {:induction false} InvRun(capacity: nat, keyReady: bool, events: seq<Event>)
    requires Run(Initial(capacity, keyReady), events).Some?
    ensures Inv(Run(Initial(capacity, keyReady), events).value)
    decreases |events|
  {
    if events != [] {
      InvRun(capacity, keyReady, events[..|events| - 1]);
      InvStep(Run(Initial(capacity, keyReady), events[..|events| - 1]).value, events[|events| - 1]);
    }
  }

  lemma {:induction false} ReachableInv(s: State)
    requires Reachable(s)
    ensures Inv(s)
  {
    var capacity, keyReady, events :| Run(Initial(capacity, keyReady), events) == Some(s);
    InvRun(capacity, keyReady, events);
  }
}
