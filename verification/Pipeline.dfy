/** The pipeline object: the fields behind the mutex, a ring buffer for the
    queue, and one method per region that holds the mutex. Every method is
    proved to take the step of the model it implements. */
module Pipeline {
  import opened PipelineModel

  // ---------- The ring ----------

  function Slot(head: nat, i: nat, size: nat): (slot: nat)
    requires head < size
    ensures slot < size
  {
    (head + i) % size
  }

  lemma {:induction false} SlotIs(head: nat, i: nat, size: nat)
    requires head < size && i <= size
    ensures Slot(head, i, size) == if head + i < size then head + i else head + i - size
  {
    var x := head + i;
    Wraps(x, x / size, x % size, size);
  }

  lemma {:induction false} Wraps(x: nat, q: int, r: nat, size: nat)
    requires x == q * size + r && r < size && x < 2 * size
    ensures r == if x < size then x else x - size
  {
    assert q >= 2 ==> q * size >= 2 * size;
    assert q <= -1 ==> q * size + size <= 0;
  }

  /** The items a ring holds, oldest first. */
  function Ring(data: seq<Item>, head: nat, count: nat): seq<Item>
    requires head < |data|
  {
    seq(count, i requires 0 <= i < count => data[Slot(head, i, |data|)])
  }

  lemma {:induction false} RingPush(data: seq<Item>, head: nat, count: nat, item: Item)
    requires head < |data| && count < |data|
    ensures Ring(data[Slot(head, count, |data|) := item], head, count + 1) == Ring(data, head, count) + [item]
  {
    var pushed := data[Slot(head, count, |data|) := item];
    SlotIs(head, count, |data|);
    forall i | 0 <= i < count
      ensures Ring(pushed, head, count + 1)[i] == data[Slot(head, i, |data|)]
    {
      SlotIs(head, i, |data|);
    }
  }

  lemma {:induction false} RingPop(data: seq<Item>, head: nat, count: nat)
    requires head < |data| && 0 < count <= |data|
    ensures Ring(data, Slot(head, 1, |data|), count - 1) == Ring(data, head, count)[1..]
    ensures Ring(data, head, count)[0] == data[head]
  {
    SlotIs(head, 0, |data|);
    SlotIs(head, 1, |data|);
    var next := Slot(head, 1, |data|);
    forall i | 0 <= i < count - 1
      ensures Slot(next, i, |data|) == Slot(head, i + 1, |data|)
    {
      SlotIs(next, i, |data|);
      SlotIs(head, i + 1, |data|);
    }
  }

  lemma {:induction false} FailAllCons(results: map<Id, StackResult>, item: Item, rest: seq<Item>)
    ensures FailAll(results, [item] + rest) == FailAll(FailAll(results, [item]), rest)
    ensures Ids([item] + rest) == [item.id] + Ids(rest)
  {
    assert ([item] + rest)[1..] == rest && [item][1..] == [];
    var r := if item.id in results then results[item.id := StackResult(Failed, item.raw)] else results;
    assert FailAll(results, [item]) == FailAll(r, []);
  }

  /** Entering a result as pending and then dropping it leaves what entering it
      as dropped does. */
  lemma {:induction false} DropUndoesPending(t: Table, u: Table, id: Id, raw: RawStack)
    requires KeyOf(raw) !in t.unique
    requires u.resultCapacity == t.resultCapacity && u.resultOrder == t.resultOrder
    requires u.unique == t.unique[KeyOf(raw) := id] - {KeyOf(raw)} && u.idToKey == t.idToKey[id := KeyOf(raw)]
    requires u.results == t.results[id := StackResult(Pending, raw)][id := StackResult(Dropped, raw)]
    requires u.droppedOrder == t.droppedOrder + [id]
    ensures EvictDropped(u) == AddDropped(t, id, raw)
  {
    assert u.unique == t.unique;
    assert u.results == t.results[id := StackResult(Dropped, raw)];
  }

  /** What the proofs know besides the fields: the worker's place, the sleeping
      threads and the histories. */
  datatype View = View(phase: Phase, markerSet: bool, markerFailed: bool, workerAsleep: bool, workNotices: nat,
                       sleepers: set<nat>, accepted: seq<Id>, completed: seq<Id>, returned: seq<Id>)

  class AsyncStackPipeline {
    const capacity: nat
    const queue: array<Item>
    var queueHead: nat
    var queueSize: nat
    var active: nat
    var stopping: bool
    var joined: bool
    var nextId: Id
    var stats: Stats
    var table: Table
    ghost var view: View

    ghost predicate Valid()
      reads this
    {
      queue.Length == capacity >= 1 && queueHead < capacity && queueSize <= capacity
    }

    ghost function Abs(): State
      requires Valid()
      reads this, queue
    {
      State(capacity, table, Ring(queue[..], queueHead, queueSize), active, stopping, joined, nextId, stats,
            view.phase, view.markerSet, view.markerFailed, view.workerAsleep, view.workNotices, view.sleepers,
            view.accepted, view.completed, view.returned)
    }

    constructor (requested: nat, keyReady: bool)
      ensures Valid() && fresh(queue)
      ensures Abs() == Initial(requested, keyReady)
    {
      var size := if requested == 0 then 1 else requested;
      capacity := size;
      queue := new Item[size](_ => Item(0, RawStack([], 0, 0)));
      queueHead, queueSize, active, nextId := 0, 0, 0, 1;
      stopping, joined := !keyReady, false;
      stats := if keyReady then NO_STATS else NO_STATS.(startFailures := 1);
      table := Table(size, map[], map[], map[], [], []);
      view := View(if keyReady then Idle else Exited, false, false, false, 0, {}, [], [], []);
    }

    method EraseResultLocked(id: Id)
      modifies this`table
      ensures table == old(Erase(table, id))
    {
      if id in table.idToKey {
        var key := table.idToKey[id];
        if key in table.unique && table.unique[key] == id {
          table := table.(unique := table.unique - {key});
        }
        table := table.(idToKey := table.idToKey - {id});
      }
      table := table.(results := table.results - {id});
      assert table.idToKey == old(table).idToKey - {id};
    }

    method EvictResultCacheLocked()
      modifies this`table
      ensures table == old(EvictResults(table))
    {
      while |table.resultOrder| > table.resultCapacity
        invariant EvictResults(table) == old(EvictResults(table))
        decreases |table.resultOrder|
      {
        var evicted := table.resultOrder[0];
        table := table.(resultOrder := table.resultOrder[1..]);
        if evicted !in table.results || table.results[evicted].state.Pending? {
          continue;
        }
        EraseResultLocked(evicted);
      }
    }

    method EvictDroppedCacheLocked()
      modifies this`table
      ensures table == old(EvictDropped(table))
    {
      while |table.droppedOrder| > table.resultCapacity
        invariant EvictDropped(table) == old(EvictDropped(table))
        decreases |table.droppedOrder|
      {
        var evicted := table.droppedOrder[0];
        table := table.(droppedOrder := table.droppedOrder[1..]);
        EraseResultLocked(evicted);
      }
    }

    method Enqueue(item: Item)
      requires Valid() && queueSize < capacity
      modifies this`queueSize, queue
      ensures Valid() && queueSize == old(queueSize) + 1
      ensures Ring(queue[..], queueHead, queueSize) == old(Ring(queue[..], queueHead, queueSize)) + [item]
    {
      RingPush(queue[..], queueHead, queueSize, item);
      queue[(queueHead + queueSize) % capacity] := item;
      assert queue[..] == old(queue[..])[Slot(queueHead, queueSize, capacity) := item];
      queueSize := queueSize + 1;
    }

    method Dequeue() returns (item: Item)
      requires Valid() && queueSize > 0
      modifies this`queueHead, this`queueSize
      ensures Valid() && queueSize == old(queueSize) - 1
      ensures old(Ring(queue[..], queueHead, queueSize)) == [item] + Ring(queue[..], queueHead, queueSize)
    {
      RingPop(queue[..], queueHead, queueSize);
      item := queue[queueHead];
      queueHead := (queueHead + 1) % capacity;
      queueSize := queueSize - 1;
    }

    /** Turns the result just entered as pending into a dropped one. */
    method DropLocked(id: Id, raw: RawStack, ghost before: Table)
      requires KeyOf(raw) !in before.unique && table == AddPending(before, id, raw)
      modifies this`table
      ensures table == AddDropped(before, id, raw)
    {
      table := table.(results := table.results[id := StackResult(Dropped, raw)]);
      table := table.(unique := table.unique - {KeyOf(raw)});
      table := table.(droppedOrder := table.droppedOrder + [id]);
      DropUndoesPending(before, table, id, raw);
      EvictDroppedCacheLocked();
    }

    method EnterPending(id: Id, raw: RawStack)
      modifies this`table
      ensures table == old(AddPending(table, id, raw))
    {
      var key := KeyOf(raw);
      table := table.(unique := table.unique[key := id], idToKey := table.idToKey[id := key],
                      results := table.results[id := StackResult(Pending, raw)]);
    }

    /** A stack that is not held yet: queued if there is room, else dropped. */
    method SubmitNew(raw: RawStack) returns (r: SubmitResult)
      requires Valid() && !stopping && KeyOf(raw) !in table.unique
      modifies this, queue
      ensures Valid()
      ensures var (state, result) := old(Submit(Abs(), raw, false));
              Abs() == state && r == result
    {
      hide AddPending, AddDropped, KeyOf;
      var id := nextId;
      nextId := nextId + 1;
      EnterPending(id, raw);
      if queueSize == capacity {
        DropLocked(id, raw, old(table));
        stats := stats.(dropped := stats.dropped + 1);
        return SubmitResult(id, false, false, true, false);
      }
      Enqueue(Item(id, raw));
      stats := stats.(accepted := stats.accepted + 1,
                      highWater := if stats.highWater < queueSize then queueSize else stats.highWater);
      view := view.(accepted := view.accepted + [id], workNotices := view.workNotices + 1);
      r := SubmitResult(id, true, false, false, false);
    }

    method SubmitStack(input: RawStack, currentGeneration: nat, onMarkedWorker: bool) returns (r: SubmitResult)
      requires Valid()
      modifies this, queue
      ensures Valid()
      ensures var (state, result) := old(Submit(Abs(), Normalized(input, currentGeneration), onMarkedWorker));
              Abs() == state && r == result
    {
      var raw := Normalized(input, currentGeneration);
      if onMarkedWorker {
        stats := stats.(recursive := stats.recursive + 1);
        return REJECTED.(rejectedRecursion := true);
      }
      if stopping {
        return REJECTED;
      }
      var key := KeyOf(raw);
      if key in table.unique {
        stats := stats.(duplicates := stats.duplicates + 1);
        return SubmitResult(table.unique[key], false, true, false, false);
      }
      r := SubmitNew(raw);
    }

    /** `deque::erase(remove(...))`. */
    method RemoveId(ids: seq<Id>, id: Id) returns (kept: seq<Id>)
      ensures kept == Without(ids, id)
    {
      kept := [];
      var i := 0;
      while i < |ids|
        invariant 0 <= i <= |ids|
        invariant kept + Without(ids[i..], id) == Without(ids, id)
      {
        assert ids[i..][0] == ids[i] && ids[i..][1..] == ids[i + 1..];
        if ids[i] != id {
          kept := kept + [ids[i]];
        }
        i := i + 1;
      }
    }

    method ReleaseResult(id: Id) returns (ok: bool)
      requires Valid()
      modifies this
      ensures Valid()
      ensures var (state, result) := old(Release(Abs(), id));
              Abs() == state && ok == result
    {
      if id == 0 {
        return false;
      }
      if id !in table.results || table.results[id].state.Pending? {
        return false;
      }
      EraseResultLocked(id);
      var kept := RemoveId(table.resultOrder, id);
      table := table.(resultOrder := kept);
      kept := RemoveId(table.droppedOrder, id);
      table := table.(droppedOrder := kept);
      return true;
    }

    /** The worker takes the oldest item. */
    method TakeItem() returns (item: Item)
      requires Valid() && view.phase.Idle? && queueSize > 0
      modifies this
      ensures Valid()
      ensures Abs() == old(Take(Abs())) && view.phase == Holding(item)
    {
      item := Dequeue();
      active := active + 1;
      view := view.(phase := Holding(item));
    }

    /** Fails one item: its result, if it is still held, and the counters. */
    method FailResult(item: Item)
      modifies this`table, this`stats
      ensures table == old(table).(results := FailAll(old(table).results, [item]))
      ensures stats == old(stats).(processed := old(stats).processed + 1, failed := old(stats).failed + 1)
    {
      if item.id in table.results {
        table := table.(results := table.results[item.id := StackResult(Failed, item.raw)]);
      }
      stats := stats.(processed := stats.processed + 1, failed := stats.failed + 1);
    }

    /** Fails the oldest queued item. */
    method FailOldest() returns (id: Id)
      requires Valid() && queueSize > 0
      modifies this`queueHead, this`queueSize, this`table, this`stats
      ensures Valid() && queueSize == old(queueSize) - 1
      ensures [id] + Ids(Ring(queue[..], queueHead, queueSize)) == old(Ids(Ring(queue[..], queueHead, queueSize)))
      ensures table.(results := FailAll(table.results, Ring(queue[..], queueHead, queueSize))) ==
              old(table.(results := FailAll(table.results, Ring(queue[..], queueHead, queueSize))))
      ensures stats == old(stats).(processed := old(stats).processed + 1, failed := old(stats).failed + 1)
    {
      hide Ring, FailAll, Ids;
      var queued := Dequeue();
      FailAllCons(table.results, queued, Ring(queue[..], queueHead, queueSize));
      FailResult(queued);
      id := queued.id;
    }

    /** Fails everything that is queued, oldest first. */
    method DrainFailed() returns (failed: seq<Id>)
      requires Valid()
      modifies this`queueHead, this`queueSize, this`table, this`stats
      ensures Valid() && queueSize == 0
      ensures failed == old(Ids(Ring(queue[..], queueHead, queueSize)))
      ensures table == old(table.(results := FailAll(table.results, Ring(queue[..], queueHead, queueSize))))
      ensures stats == old(stats).(processed := old(stats).processed + |failed|, failed := old(stats).failed + |failed|)
    {
      failed := [];
      while queueSize != 0
        invariant Valid()
        invariant table.(results := FailAll(table.results, Ring(queue[..], queueHead, queueSize))) ==
                  old(table.(results := FailAll(table.results, Ring(queue[..], queueHead, queueSize))))
        invariant failed + Ids(Ring(queue[..], queueHead, queueSize)) == old(Ids(Ring(queue[..], queueHead, queueSize)))
        invariant stats == old(stats).(processed := old(stats).processed + |failed|,
                    failed := old(stats).failed + |failed|)
        decreases queueSize
      {
        var id := FailOldest();
        failed := failed + [id];
      }
    }

    /** The worker could not mark itself: its item and the queue fail. */
    method FailQueued(item: Item) returns (failed: seq<Id>)
      requires Valid() && view.phase == Holding(item) && active > 0
      modifies this
      ensures Valid()
      ensures Abs() == old(FailMarker(Abs())) && view.phase == Failing(failed)
    {
      FailAllCons(table.results, item, Ring(queue[..], queueHead, queueSize));
      FailResult(item);
      failed := DrainFailed();
      failed := [item.id] + failed;
      active := active - 1;
      stopping := true;
      stats := stats.(startFailures := stats.startFailures + 1);
      view := view.(phase := Failing(failed), markerFailed := true, completed := view.completed + failed);
    }

    method RecordResult(item: Item, resolved: bool)
      requires Valid() && view.phase == Holding(item)
      modifies this
      ensures Valid()
      ensures Abs() == old(Record(Abs(), resolved))
    {
      var state := if resolved then Resolved else Failed;
      if item.id in table.results {
        table := table.(results := table.results[item.id := StackResult(state, item.raw)]);
      }
      table := table.(resultOrder := table.resultOrder + [item.id]);
      EvictResultCacheLocked();
      stats := stats.(processed := stats.processed + 1);
      if !resolved {
        stats := stats.(failed := stats.failed + 1);
      }
      view := view.(phase := InCallback(item.id), completed := view.completed + [item.id]);
    }

    /** The callback returned; wakes the flushers when nothing is left. */
    method FinishItem() returns (notify: bool)
      requires Valid() && view.phase.InCallback? && active > 0
      modifies this
      ensures Valid()
      ensures Abs() == old(Finish(Abs())) && notify == Drained(Abs())
    {
      active := active - 1;
      notify := queueSize == 0 && active == 0;
      view := view.(phase := Idle, returned := view.returned + [view.phase.id],
                    sleepers := if notify then {} else view.sleepers);
    }

    /** The predicate Flush waits on. */
    method FlushMayReturn() returns (ok: bool)
      requires Valid()
      ensures ok == Drained(Abs())
    {
      ok := queueSize == 0 && active == 0;
    }
  }
}
