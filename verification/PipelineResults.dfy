/** What a held result says: the stack that was submitted under its id, and how
    that stack ended. */
module PipelineResults {
  import opened Wrappers
  import opened PipelineModel
  import opened PipelineProofs

  /** What callers and the resolver know of a run: the stack each id was given for,
      the ids whose stack found no room, and for each id that ended whether its
      stack was resolved. */
  datatype History = History(raws: map<Id, RawStack>, dropped: set<Id>, ended: map<Id, bool>)

  const NOTHING := History(map[], {}, map[])

  /** One event, seen from outside the tables. */
  function Told(h: History, s: State, e: Event): (r: History)
    requires Enabled(s, e)
  {
    match e
    case SubmitStack(raw, onMarkedWorker) =>
      var r := Submit(s, raw, onMarkedWorker).1;
      if r.accepted then h.(raws := h.raws[r.id := raw])
      else if r.dropped then h.(raws := h.raws[r.id := raw], dropped := h.dropped + {r.id})
      else h
    case WorkerRecords(resolved) => h.(ended := h.ended[s.phase.item.id := resolved])
    case MarkerFails => h.(ended := AllFailed(h.ended, Ids(Live(s))))
    case _ => h
  }

  function AllFailed(ended: map<Id, bool>, ids: seq<Id>): (r: map<Id, bool>)
    ensures r.Keys == ended.Keys + (set x | x in ids)
    ensures forall id :: id in r ==> r[id] == if id in ids then false else ended[id]
  {
    map id | id in ended.Keys + (set x | x in ids) :: if id in ids then false else ended[id]
  }

  /** The history of a run. */
  function HistoryOf(start: State, events: seq<Event>): (h: History)
    requires Run(start, events).Some?
    decreases |events|
  {
    if events == [] then NOTHING else
    var n := |events| - 1;
    Told(HistoryOf(start, events[..n]), Run(start, events[..n]).value, events[n])
  }

  /** What the result of an id should be. */
  function Verdict(h: History, id: Id): (r: Resolution) {
    if id in h.dropped then Dropped
    else if id !in h.ended then Pending
    else if h.ended[id] then Resolved
    else Failed
  }

  /** How many of the ids were not resolved. */
  function Unresolved(ids: seq<Id>, ended: map<Id, bool>): (n: nat) {
    if ids == [] then 0 else
    var last := |ids| - 1;
    Unresolved(ids[..last], ended) + if ids[last] in ended && !ended[ids[last]] then 1 else 0
  }

  /** The results held are the stacks submitted, each with its verdict. */
  ghost predicate Truthful(results: map<Id, StackResult>, h: History) {
    forall id :: id in results ==> id in h.raws && results[id] == StackResult(Verdict(h, id), h.raws[id])
  }

  /** Ids have been given out, dropped and ended in step with the pipeline. */
  ghost predicate InStep(s: State, h: History) {
    && (forall id :: id in h.raws ==> id < s.nextId)
    && (forall id :: id in h.dropped ==> id < s.nextId)
    && (forall id :: id in h.ended <==> id in s.completed)
    && (forall id :: id in h.dropped ==> id !in s.accepted)
    && s.stats.failed == Unresolved(s.completed, h.ended)
  }

  ghost predicate Tells(s: State, h: History) {
    Truthful(s.table.results, h) && InStep(s, h)
  }

  // ---------- The tables only lose results, or change them as told ----------

  ghost predicate Within(a: map<Id, StackResult>, b: map<Id, StackResult>) {
    forall id :: id in a ==> id in b && a[id] == b[id]
  }

  lemma {:induction false} EvictResultsWithin(t: Table)
    ensures Within(EvictResults(t).results, t.results)
    decreases |t.resultOrder|
  {
    if |t.resultOrder| > t.resultCapacity {
      var id := t.resultOrder[0];
      var popped := t.(resultOrder := t.resultOrder[1..]);
      EvictResultsWithin(if id in t.results && !t.results[id].state.Pending? then Erase(popped, id) else popped);
    }
  }

  lemma {:induction false} EvictDroppedWithin(t: Table)
    ensures Within(EvictDropped(t).results, t.results)
    decreases |t.droppedOrder|
  {
    if |t.droppedOrder| > t.resultCapacity {
      EvictDroppedWithin(Erase(t.(droppedOrder := t.droppedOrder[1..]), t.droppedOrder[0]));
    }
  }

  lemma {:induction false} WithinIsTruthful(a: map<Id, StackResult>, b: map<Id, StackResult>, h: History)
    requires Within(a, b) && Truthful(b, h)
    ensures Truthful(a, h)
  {
    hide Verdict;
  }

  // ---------- Counting ----------

  lemma {:induction false} UnresolvedSame(ids: seq<Id>, a: map<Id, bool>, b: map<Id, bool>)
    requires forall id :: id in ids ==> id in a && id in b && a[id] == b[id]
    ensures Unresolved(ids, a) == Unresolved(ids, b)
    decreases |ids|
  {
    if ids != [] {
      var last := |ids| - 1;
      assert ids[last] in ids;
      UnresolvedSame(ids[..last], a, b);
    }
  }

  lemma {:induction false} UnresolvedMore(ids: seq<Id>, id: Id, ended: map<Id, bool>)
    ensures Unresolved(ids + [id], ended) == Unresolved(ids, ended) + if id in ended && !ended[id] then 1 else 0
  {
    assert (ids + [id])[..|ids|] == ids;
  }

  lemma {:induction false} UnresolvedAll(ids: seq<Id>, more: seq<Id>, ended: map<Id, bool>)
    requires forall id :: id in more ==> id in ended && !ended[id]
    ensures Unresolved(ids + more, ended) == Unresolved(ids, ended) + |more|
    decreases |more|
  {
    if more == [] {
      assert ids + more == ids;
    } else {
      var n := |more| - 1;
      assert ids + more == ids + more[..n] + [more[n]] && more[n] in more;
      UnresolvedAll(ids, more[..n], ended);
      UnresolvedMore(ids + more[..n], more[n], ended);
    }
  }

  // ---------- Every step ----------

  /** Accepted ids are those completed and those still live, each once. */
  lemma {:induction false} LiveIsNotEnded(s: State, h: History)
    requires Inv(s) && Tells(s, h)
    ensures forall id :: id in Ids(Live(s)) ==> id !in h.ended && id !in h.dropped && id in s.accepted
  {
    hide Life, Wakeups, TableParts, Truthful, Live, Unresolved;
    forall i | 0 <= i < |Ids(Live(s))|
      ensures Ids(Live(s))[i] !in h.ended && Ids(Live(s))[i] !in h.dropped && Ids(Live(s))[i] in s.accepted
    {
      var k := |s.completed| + i;
      assert s.accepted[k] == Ids(Live(s))[i];
      forall j | 0 <= j < |s.completed| ensures s.completed[j] != Ids(Live(s))[i] {
        assert s.accepted[j] == s.completed[j] && s.accepted[j] < s.accepted[k];
      }
    }
  }

  lemma {:induction false} PutTruthful(results: map<Id, StackResult>, h: History, h': History, id: Id, r: StackResult)
    requires Truthful(results, h) && id in h'.raws && r == StackResult(Verdict(h', id), h'.raws[id])
    requires forall x :: x in h.raws && x != id ==>
               x in h'.raws && h'.raws[x] == h.raws[x] && Verdict(h', x) == Verdict(h, x)
    ensures Truthful(results[id := r], h')
  {
    hide Verdict;
  }

  lemma {:induction false} AcceptTells(s: State, h: History, raw: RawStack, t: State)
    requires Inv(s) && Tells(s, h)
    requires t.table.results == s.table.results[s.nextId := StackResult(Pending, raw)]
    requires t.nextId == s.nextId + 1 && t.completed == s.completed && t.stats.failed == s.stats.failed
    requires t.accepted == s.accepted + [s.nextId]
    ensures Tells(t, h.(raws := h.raws[s.nextId := raw]))
  {
    hide Truthful, Unresolved, Inv;
    NewIdIsUnknown(s, h);
    PutTruthful(s.table.results, h, h.(raws := h.raws[s.nextId := raw]), s.nextId, StackResult(Pending, raw));
  }

  lemma {:induction false} DropTells(s: State, h: History, raw: RawStack, t: State)
    requires Inv(s) && Tells(s, h)
    requires Within(t.table.results, s.table.results[s.nextId := StackResult(Dropped, raw)])
    requires t.nextId == s.nextId + 1 && t.completed == s.completed && t.stats.failed == s.stats.failed
    requires t.accepted == s.accepted
    ensures Tells(t, h.(raws := h.raws[s.nextId := raw], dropped := h.dropped + {s.nextId}))
  {
    hide Truthful, Unresolved, Inv, Within;
    var h' := h.(raws := h.raws[s.nextId := raw], dropped := h.dropped + {s.nextId});
    NewIdIsUnknown(s, h);
    PutTruthful(s.table.results, h, h', s.nextId, StackResult(Dropped, raw));
    WithinIsTruthful(t.table.results, s.table.results[s.nextId := StackResult(Dropped, raw)], h');
  }

  lemma {:induction false} DroppedWithin(t: Table, id: Id, raw: RawStack)
    ensures Within(AddDropped(t, id, raw).results, t.results[id := StackResult(Dropped, raw)])
  {
    hide EvictDropped;
    EvictDroppedWithin(t.(idToKey := t.idToKey[id := KeyOf(raw)],
                          results := t.results[id := StackResult(Dropped, raw)],
                          droppedOrder := t.droppedOrder + [id]));
  }

  lemma {:induction false} SubmitTells(s: State, h: History, e: Event)
    requires Inv(s) && Tells(s, h) && Enabled(s, e) && e.SubmitStack?
    ensures Tells(Next(s, e), Told(h, s, e))
  {
    hide Inv, Truthful, AddDropped, KeyOf, Unresolved, Within;
    var r := Submit(s, e.raw, e.onMarkedWorker).1;
    if r.accepted {
      AcceptTells(s, h, e.raw, Next(s, e));
    } else if r.dropped {
      DroppedWithin(s.table, s.nextId, e.raw);
      DropTells(s, h, e.raw, Next(s, e));
    }
  }

  lemma {:induction false} NewIdIsUnknown(s: State, h: History)
    requires Inv(s) && Tells(s, h)
    ensures s.nextId !in h.raws && s.nextId !in h.dropped && s.nextId !in h.ended && s.nextId !in s.accepted
  {
    hide Life, Wakeups, TableParts, Truthful, Unresolved, Live;
    assert forall i :: 0 <= i < |s.completed| ==> s.completed[i] == s.accepted[i];
  }

  lemma {:induction false} CompleteWithin(t: Table, item: Item, state: Resolution)
    requires item.id in t.results
    ensures Within(Complete(t, item, state).results, t.results[item.id := StackResult(state, item.raw)])
  {
    hide EvictResults;
    EvictResultsWithin(t.(results := t.results[item.id := StackResult(state, item.raw)],
                          resultOrder := t.resultOrder + [item.id]));
  }

  lemma {:induction false} RecordTells(s: State, h: History, resolved: bool)
    requires Inv(s) && Tells(s, h) && s.phase.Holding?
    ensures Tells(Record(s, resolved), h.(ended := h.ended[s.phase.item.id := resolved]))
  {
    hide Inv, Truthful, Unresolved, Complete, Within, Live;
    var item, t, h' := s.phase.item, Record(s, resolved), h.(ended := h.ended[s.phase.item.id := resolved]);
    var result := StackResult(if resolved then Resolved else Failed, item.raw);
    HeldIsLive(s, h);
    CompleteWithin(s.table, item, result.state);
    PutTruthful(s.table.results, h, h', item.id, result);
    WithinIsTruthful(t.table.results, s.table.results[item.id := result], h');
    UnresolvedSame(s.completed, h.ended, h'.ended);
    UnresolvedMore(s.completed, item.id, h'.ended);
  }

  lemma {:induction false} HeldIsLive(s: State, h: History)
    requires Inv(s) && Tells(s, h) && s.phase.Holding?
    ensures var item := s.phase.item;
            && item.id in s.table.results && item.id in h.raws && h.raws[item.id] == item.raw
            && item.id !in h.ended && item.id !in h.dropped && item.id !in s.completed
  {
    hide Inv, Unresolved;
    LiveIsNotEnded(s, h);
    assert Ids(Live(s))[0] == s.phase.item.id;
    HeldIsPending(s);
  }

  lemma {:induction false} HeldIsPending(s: State)
    requires Inv(s) && s.phase.Holding?
    ensures s.phase.item.id in s.table.results &&
              s.table.results[s.phase.item.id] == StackResult(Pending, s.phase.item.raw)
  {
    hide Flow, Life, Wakeups, Tables, DroppedListed, DoneListed;
    assert Live(s)[0] == s.phase.item;
  }

  lemma {:induction false} FailTells(s: State, h: History, e: Event)
    requires Inv(s) && Tells(s, h) && Enabled(s, e) && e.MarkerFails?
    ensures Tells(Next(s, e), Told(h, s, e))
  {
    hide Life, Wakeups, Unresolved, FailAll, Flow, Tables, DroppedListed, DoneListed;
    var t, h', ids := Next(s, e), Told(h, s, e), Ids(Live(s));
    LiveIsNotEnded(s, h);
    LiveArePending(s.table, Live(s));
    FailAllResults(s.table.results, Live(s));
    assert Live(s) == [s.phase.item] + s.queue;
    assert t.completed == s.completed + ids;
    UnresolvedSame(s.completed, h.ended, h'.ended);
    UnresolvedAll(s.completed, ids, h'.ended);
  }

  lemma {:induction false} ReleaseTells(s: State, h: History, e: Event)
    requires Inv(s) && Tells(s, h) && Enabled(s, e) && e.ReleaseId?
    ensures Tells(Next(s, e), Told(h, s, e))
  {
    hide Unresolved, Inv, Truthful;
    WithinIsTruthful(Next(s, e).table.results, s.table.results, h);
  }

  /** What a step that is no submission leaves of the counters and the queue. */
  ghost predicate SameCounters(s: State, e: Event, t: State) {
    && t.stats == s.stats.(processed := t.stats.processed, failed := t.stats.failed,
                           startFailures := s.stats.startFailures + if e.MarkerFails? then 1 else 0)
    && (!TableEvent(e) ==> t.stats.failed == s.stats.failed) && |t.queue| <= |s.queue|
  }

  lemma {:induction false} CallersKeepCounters(s: State, e: Event)
    requires Enabled(s, e) && CallerEvent(e) && !e.SubmitStack?
    ensures SameCounters(s, e, Next(s, e))
  {
    hide Drained, Released, Releasable;
  }

  lemma {:induction false} WorkersKeepCounters(s: State, e: Event)
    requires Enabled(s, e) && !CallerEvent(e)
    ensures SameCounters(s, e, Next(s, e))
  {
    hide Drained, Complete, FailAll, Ids;
  }

  lemma {:induction false} OthersKeepCounters(s: State, e: Event)
    requires Enabled(s, e) && !e.SubmitStack?
    ensures SameCounters(s, e, Next(s, e))
  {
    hide Enabled, Next, SameCounters;
    if CallerEvent(e) {
      CallersKeepCounters(s, e);
    } else {
      WorkersKeepCounters(s, e);
    }
  }

  lemma {:induction false} StepTells(s: State, h: History, e: Event)
    requires Inv(s) && Tells(s, h) && Enabled(s, e)
    ensures Tells(Next(s, e), Told(h, s, e))
  {
    if e.SubmitStack? {
      SubmitTells(s, h, e);
    } else if e.WorkerRecords? {
      RecordTells(s, h, e.resolved);
    } else if e.MarkerFails? {
      FailTells(s, h, e);
    } else if e.ReleaseId? {
      ReleaseTells(s, h, e);
    } else {
      hide Next, Enabled, Truthful, Unresolved, Inv, Live;
      OtherSteps(s, e);
      OthersKeepCounters(s, e);
    }
  }

  /** In every state of every run, each result held is the stack submitted under its
      id, resolved exactly when its own resolution succeeded, failed when it did
      not, dropped exactly when there was no room for it and pending otherwise;
      and `failed` counts the completed ids that were not resolved. */
  lemma {:induction false} ResultsTellTheTruth(capacity: nat, keyReady: bool, events: seq<Event>)
    requires Run(Initial(capacity, keyReady), events).Some?
    ensures Tells(Run(Initial(capacity, keyReady), events).value, HistoryOf(Initial(capacity, keyReady), events))
    decreases |events|
  {
    hide Next, Enabled, Truthful, Inv, InStep, Told;
    var start := Initial(capacity, keyReady);
    if events == [] {
      StartTells(capacity, keyReady);
    } else {
      var n := |events| - 1;
      ResultsTellTheTruth(capacity, keyReady, events[..n]);
      InvRun(capacity, keyReady, events[..n]);
      StepTells(Run(start, events[..n]).value, HistoryOf(start, events[..n]), events[n]);
    }
  }

  lemma {:induction false} StartTells(capacity: nat, keyReady: bool)
    ensures Tells(Initial(capacity, keyReady), NOTHING)
  {
  }

  // ---------- What is a duplicate ----------

  /** `id` is held, was not dropped, and stands for the frames and generation of `raw`. */
  predicate SameStack(results: map<Id, StackResult>, id: Id, raw: RawStack) {
    && id in results && !results[id].state.Dropped?
    && results[id].raw.pcs == raw.pcs && results[id].raw.generation == raw.generation
  }

  /** A stack is answered as a duplicate exactly when one with its frames and its
      generation is held, and with the id of that one. */
  lemma {:induction false} DuplicateIff(s: State, raw: RawStack)
    requires Inv(s) && !s.stopping
    ensures var r := Submit(s, raw, false).1;
            && (r.duplicate <==> exists id :: SameStack(s.table.results, id, raw))
            && (r.duplicate ==> SameStack(s.table.results, r.id, raw))
  {
    hide Flow, Life, Wakeups, PendingIs, DroppedListed, DoneListed, AddDropped;
    var t := s.table;
    if KeyOf(raw) in t.unique {
      assert SameStack(t.results, t.unique[KeyOf(raw)], raw);
    }
    forall id | SameStack(t.results, id, raw) ensures KeyOf(raw) in t.unique {
      assert t.idToKey[id] == KeyOf(t.results[id].raw) == KeyOf(raw);
    }
  }

  // ---------- Counters ----------

  /** How often each answer was given, how often the worker could not start, and
      the longest the queue has been. */
  datatype Tally = Tally(accepted: nat, duplicates: nat, dropped: nat, recursive: nat, failures: nat, longest: nat)

  function Counted(t: Tally, s: State, e: Event): (r: Tally)
    requires Enabled(s, e)
  {
    var u := t.(longest := if t.longest < |Next(s, e).queue| then |Next(s, e).queue| else t.longest);
    if e.MarkerFails? then u.(failures := u.failures + 1)
    else if !e.SubmitStack? then u else
    var r := Submit(s, e.raw, e.onMarkedWorker).1;
    if r.accepted then u.(accepted := u.accepted + 1)
    else if r.duplicate then u.(duplicates := u.duplicates + 1)
    else if r.dropped then u.(dropped := u.dropped + 1)
    else if r.rejectedRecursion then u.(recursive := u.recursive + 1)
    else u
  }

  function TallyOf(start: State, events: seq<Event>, keyReady: bool): (t: Tally)
    requires Run(start, events).Some?
    decreases |events|
  {
    if events == [] then Tally(0, 0, 0, 0, if keyReady then 0 else 1, 0) else
    var n := |events| - 1;
    Counted(TallyOf(start, events[..n], keyReady), Run(start, events[..n]).value, events[n])
  }

  ghost predicate Counts(s: State, t: Tally) {
    && s.stats.accepted == t.accepted && s.stats.duplicates == t.duplicates && s.stats.dropped == t.dropped
    && s.stats.recursive == t.recursive && s.stats.startFailures == t.failures
    && s.stats.highWater == t.longest && |s.queue| <= t.longest
  }

  lemma {:induction false} SubmitCounts(s: State, t: Tally, e: Event)
    requires Counts(s, t) && Enabled(s, e) && e.SubmitStack?
    ensures Counts(Next(s, e), Counted(t, s, e))
  {
    hide AddDropped, AddPending, KeyOf;
    var after, r := Next(s, e), Submit(s, e.raw, e.onMarkedWorker).1;
    assert |after.queue| == if r.accepted then |s.queue| + 1 else |s.queue|;
  }

  lemma {:induction false} StepCounts(s: State, t: Tally, e: Event)
    requires Counts(s, t) && Enabled(s, e)
    ensures Counts(Next(s, e), Counted(t, s, e))
  {
    hide Next, Enabled;
    if e.SubmitStack? {
      SubmitCounts(s, t, e);
    } else {
      OthersKeepCounters(s, e);
    }
  }

  /** Over every run the counters are what was answered, and the high-water mark is
      the longest the queue ever was. */
  lemma {:induction false} CountersTellTheTruth(capacity: nat, keyReady: bool, events: seq<Event>)
    requires Run(Initial(capacity, keyReady), events).Some?
    ensures Counts(Run(Initial(capacity, keyReady), events).value,
                   TallyOf(Initial(capacity, keyReady), events, keyReady))
    decreases |events|
  {
    hide Next, Enabled, Counted;
    var start := Initial(capacity, keyReady);
    if events != [] {
      var n := |events| - 1;
      CountersTellTheTruth(capacity, keyReady, events[..n]);
      StepCounts(Run(start, events[..n]).value, TallyOf(start, events[..n], keyReady), events[n]);
    }
  }
}
