/** What the stack pipeline promises its callers, over every interleaving. */
module PipelineTheorems {
  import opened Wrappers
  import opened PipelineModel
  import opened PipelineProofs

  // ---------- Work is conserved ----------

  function InHand(s: State): seq<Id> {
    if s.phase.Holding? then [s.phase.item.id] else []
  }

  lemma {:induction false} FlowConserves(s: State)
    requires Flow(s)
    ensures s.accepted == s.completed + InHand(s) + Ids(s.queue)
    ensures NoDuplicates(s.accepted) && NoDuplicates(s.completed) && NoDuplicates(s.returned)
  {
    assert Ids(Live(s)) == InHand(s) + Ids(s.queue);
    assert s.completed + (InHand(s) + Ids(s.queue)) == s.completed + InHand(s) + Ids(s.queue);
    assert forall i :: 0 <= i < |s.completed| ==> s.completed[i] == s.accepted[i];
    assert forall i :: 0 <= i < |s.returned| ==> s.returned[i] == s.completed[i];
  }

  /** Completed ids, the item in hand and the queue are the accepted ids in the
      order they were accepted; nothing is completed twice; the counters agree. */
  lemma {:induction false} WorkIsConserved(s: State)
    requires Reachable(s)
    ensures s.accepted == s.completed + InHand(s) + Ids(s.queue)
    ensures s.stats.accepted == s.stats.processed + |s.queue| + |InHand(s)|
    ensures s.nextId - 1 == s.stats.accepted + s.stats.dropped
    ensures NoDuplicates(s.accepted) && NoDuplicates(s.completed) && NoDuplicates(s.returned)
  {
    ReachableInv(s);
    FlowConserves(s);
  }

  // ---------- Identity ----------

  /** Results and identities have the same ids, and the dedup map relates keys
      and held, not dropped results one to one. */
  lemma {:induction false} DedupIsBijection(s: State, k: Key, id: Id)
    requires Reachable(s)
    ensures s.table.results.Keys == s.table.idToKey.Keys
    ensures (k in s.table.unique && s.table.unique[k] == id) <==>
            (id in s.table.results && !s.table.results[id].state.Dropped? && KeyOf(s.table.results[id].raw) == k)
  {
    ReachableInv(s);
  }

  /** A stack whose result is held is never given a second id. */
  lemma {:induction false} HeldStackIsDuplicate(s: State, id: Id, raw: RawStack)
    requires Reachable(s) && !s.stopping
    requires id in s.table.results && !s.table.results[id].state.Dropped?
    requires KeyOf(raw) == KeyOf(s.table.results[id].raw)
    ensures Submit(s, raw, false).1 == SubmitResult(id, false, true, false, false)
  {
    ReachableInv(s);
  }

  lemma {:induction false} RecordKeepsPending(s: State, resolved: bool, id: Id)
    requires Inv(s) && s.phase.Holding? && s.markerSet
    requires id in s.table.results && s.table.results[id].state.Pending?
    ensures id in Record(s, resolved).table.results
    ensures Record(s, resolved).table.results[id].raw == s.table.results[id].raw
  {
    var item := s.phase.item;
    assert Live(s)[0] == item;
    var u := CompleteInsert(s.table, item, if resolved then Resolved else Failed);
    if |u.resultOrder| > u.resultCapacity {
      var first := u.resultOrder[0];
      assert first == s.table.resultOrder[0] && first in s.table.resultOrder;
      assert Done(s.table.results[first]) && first != item.id;
      EvictOneResult(u);
    }
  }

  /** A live item that is still live afterwards is still pending. */
  lemma {:induction false} StillLive(s: State, t: State, i: nat, j: nat)
    requires PendingIs(s.table, Live(s)) && PendingIs(t.table, Live(t))
    requires i < |Live(s)| && j < |Live(t)| && Live(s)[i] == Live(t)[j]
    ensures var id := Live(s)[i].id;
            id in s.table.results && id in t.table.results && t.table.results[id] == s.table.results[id]
  {
  }

  lemma {:induction false} LiveAfterSubmit(s: State, raw: RawStack, onMarkedWorker: bool)
    ensures Live(s) <= Live(Submit(s, raw, onMarkedWorker).0)
  {
    hide AddDropped, AddPending;
  }

  lemma {:induction false} LiveAfterRecord(s: State, resolved: bool)
    requires s.phase.Holding?
    ensures Live(Record(s, resolved)) == Live(s)[1..]
  {
    hide Complete;
  }

  lemma {:induction false} LiveAfterRelease(s: State, id: Id)
    ensures Live(Release(s, id).0) == Live(s)
  {
    hide Released;
  }

  /** Live items stay live, in order, but for the one recorded. */
  lemma {:induction false} LiveAfter(s: State, e: Event, i: nat)
    requires Enabled(s, e) && i < |Live(s)| && !e.MarkerFails? && (e.WorkerRecords? ==> i > 0)
    ensures var j := if e.WorkerRecords? then i - 1 else i;
            j < |Live(Next(s, e))| && Live(Next(s, e))[j] == Live(s)[i]
  {
    hide Live, Submit, Record, Release, FailMarker;
    if e.SubmitStack? {
      LiveAfterSubmit(s, e.raw, e.onMarkedWorker);
    } else if e.WorkerRecords? {
      LiveAfterRecord(s, e.resolved);
    } else if e.ReleaseId? {
      LiveAfterRelease(s, e.id);
    } else {
      OtherSteps(s, e);
    }
  }

  lemma {:induction false} FailKeepsPending(s: State, id: Id)
    requires PendingIs(s.table, Live(s)) && s.phase.Holding? && s.active > 0
    requires id in s.table.results && s.table.results[id].state.Pending?
    ensures id in FailMarker(s).table.results && FailMarker(s).table.results[id].raw == s.table.results[id].raw
    ensures id in FailMarker(s).completed
  {
    FailAllResults(s.table.results, Live(s));
  }

  lemma {:induction false} PendingSurvivesStep(s: State, e: Event, id: Id)
    requires Inv(s) && Enabled(s, e) && PendingIs(Next(s, e).table, Live(Next(s, e)))
    requires id in s.table.results && s.table.results[id].state.Pending?
    ensures var t := Next(s, e);
            && id in t.table.results && t.table.results[id].raw == s.table.results[id].raw
            && (id !in t.completed ==> t.table.results[id].state.Pending?)
  {
    var i :| 0 <= i < |Live(s)| && Live(s)[i].id == id;
    if e.MarkerFails? {
      FailKeepsPending(s, id);
    } else if e.WorkerRecords? && i == 0 {
      RecordKeepsPending(s, e.resolved, id);
    } else {
      LiveAfter(s, e, i);
      StillLive(s, Next(s, e), i, if e.WorkerRecords? then i - 1 else i);
    }
  }

  /** No step of any thread erases a pending result; it stays pending until it
      is recorded. */
  lemma {:induction false} PendingSurvives(s: State, e: Event, id: Id)
    requires Reachable(s) && Enabled(s, e)
    requires id in s.table.results && s.table.results[id].state.Pending?
    ensures var t := Next(s, e);
            && id in t.table.results && t.table.results[id].raw == s.table.results[id].raw
            && (id !in t.completed ==> t.table.results[id].state.Pending?)
  {
    ReachableInv(s);
    InvStep(s, e);
    PendingSurvivesStep(s, e, id);
  }

  // ---------- Retention ----------

  function AsSet(ids: seq<Id>): set<Id> {
    set id | id in ids
  }

  lemma {:induction false} SetOfSeqSize(ids: seq<Id>)
    ensures |AsSet(ids)| <= |ids|
    decreases |ids|
  {
    if ids != [] {
      SetOfSeqSize(ids[1..]);
      assert ids == [ids[0]] + ids[1..];
      assert AsSet(ids) == AsSet(ids[1..]) + {ids[0]};
    }
  }

  lemma {:induction false} CoveredSize(held: set<Id>, a: seq<Id>, b: seq<Id>, c: seq<Id>)
    requires held <= AsSet(a) + AsSet(b) + AsSet(c)
    ensures |held| <= |a| + |b| + |c|
  {
    SetOfSeqSize(a);
    SetOfSeqSize(b);
    SetOfSeqSize(c);
    SubsetSize(held, AsSet(a) + AsSet(b) + AsSet(c));
  }

  lemma {:induction false} SubsetSize(a: set<Id>, b: set<Id>)
    requires a <= b
    ensures |a| <= |b|
  {
    assert b == a + (b - a);
  }

  /** Every result held is live, listed as completed or as dropped; after the
      worker failed to mark itself, one of the at most capacity + 1 it failed. */
  lemma {:induction false} RetentionIsBounded(s: State)
    requires Reachable(s)
    ensures |s.table.results| <= 3 * s.capacity + 1
    ensures |s.table.resultOrder| <= s.capacity && |s.table.droppedOrder| <= s.capacity
    ensures !s.markerFailed ==> forall id :: id in s.table.resultOrder <==>
              id in s.table.results && Done(s.table.results[id])
    ensures forall id :: id in s.table.droppedOrder <==> id in s.table.results && s.table.results[id].state.Dropped?
  {
    ReachableInv(s);
    var recorded := if s.markerFailed then s.completed else s.table.resultOrder;
    assert s.table.results.Keys <= AsSet(Ids(Live(s))) + AsSet(recorded) + AsSet(s.table.droppedOrder);
    CoveredSize(s.table.results.Keys, Ids(Live(s)), recorded, s.table.droppedOrder);
  }

  // ---------- Barriers ----------

  /** When Flush's wait holds, every accepted id has its result recorded, and the
      callbacks have all returned, each once, unless the worker is running those
      of the failed marker. */
  lemma {:induction false} FlushIsBarrier(s: State)
    requires Reachable(s) && Drained(s)
    ensures s.completed == s.accepted
    ensures s.returned == s.accepted <==> (s.phase.Failing? ==> s.phase.remaining == [])
    ensures s.markerSet ==> s.returned == s.accepted
    ensures NoDuplicates(s.returned)
  {
    ReachableInv(s);
    FlowConserves(s);
  }

  lemma {:induction false} RunThen(start: State, events: seq<Event>, e: Event)
    requires Run(start, events).Some? && Enabled(Run(start, events).value, e)
    ensures Run(start, events + [e]) == Some(Next(Run(start, events).value, e))
  {
    assert (events + [e])[..|events|] == events;
  }

  const ONE_STACK := RawStack([1], 1, 0)

  lemma {:induction false} OneStackQueued()
    ensures var s := Next(Initial(1, true), SubmitStack(ONE_STACK, false));
            && s.phase.Idle? && !s.workerAsleep && !s.markerSet && s.active == 0
            && s.queue == [Item(1, ONE_STACK)] && s.accepted == [1] && s.returned == []
  {
  }

  lemma {:induction false} TakenThenFailed(s: State)
    requires s.phase.Idle? && !s.workerAsleep && !s.markerSet && s.active == 0 && |s.queue| == 1
    ensures Enabled(s, WorkerTakes) && Enabled(Next(s, WorkerTakes), MarkerFails)
    ensures var t := Next(Next(s, WorkerTakes), MarkerFails);
            Drained(t) && t.accepted == s.accepted && t.returned == s.returned
  {
  }

  /** With a failed marker the wait holds before the callback has run. */
  lemma {:induction false} FlushMissesFailedCallbacks()
    ensures exists s :: Reachable(s) && Drained(s) && s.accepted == [1] && s.returned == []
  {
    hide Submit, FailMarker, Take;
    var start, submit := Initial(1, true), SubmitStack(ONE_STACK, false);
    OneStackQueued();
    var s1 := Next(start, submit);
    TakenThenFailed(s1);
    RunThen(start, [], submit);
    RunThen(start, [] + [submit], WorkerTakes);
    RunThen(start, [] + [submit] + [WorkerTakes], MarkerFails);
    var s := Next(Next(s1, WorkerTakes), MarkerFails);
    assert Run(start, [] + [submit] + [WorkerTakes] + [MarkerFails]) == Some(s);
    assert Reachable(s);
  }

  /** Once Shutdown has joined, on every path, nothing is pending. */
  lemma {:induction false} ShutdownDrains(s: State)
    requires Reachable(s) && s.joined
    ensures s.stopping && s.queue == [] && s.completed == s.accepted && s.returned == s.accepted
    ensures forall id :: id in s.table.results ==> !s.table.results[id].state.Pending?
  {
    ReachableInv(s);
    assert Live(s) == [];
  }

  /** From the moment the pipeline is stopping, no step accepts anything. */
  lemma {:induction false} StoppedAcceptsNothing(s: State, e: Event)
    requires s.stopping && Enabled(s, e)
    ensures Next(s, e).stopping && Next(s, e).accepted == s.accepted
  {
    hide Complete, Released, FailAll, Ids;
    if !TableEvent(e) {
      hide Next;
      OtherSteps(s, e);
    }
  }

  // ---------- Nobody sleeps through their wake-up, and all work ends ----------

  /** The steps of the worker and of notices on their way to it. */
  predicate WorkerStep(e: Event) {
    !CallerEvent(e) || e.DeliverWorkNotice?
  }

  ghost predicate WorkerCanMove(s: State) {
    exists e :: WorkerStep(e) && Enabled(s, e)
  }

  function PhaseRank(phase: Phase): (r: nat) {
    match phase
    case Exited => 0
    case Leaving => 1
    case Idle => 2
    case InCallback(_) => 3
    case Holding(_) => 4
    case Failing(remaining) => 1 + |remaining|
  }

  /** How many steps the worker can still take when no caller does anything. */
  function Rank(s: State): (r: nat) {
    3 * |s.queue| + PhaseRank(s.phase) + 2 * s.workNotices
    + (if s.markerSet then 0 else 1) + (if s.workerAsleep then 0 else 1)
  }

  lemma {:induction false} FailRank(s: State)
    requires s.phase.Holding? && s.active > 0
    ensures Rank(FailMarker(s)) < Rank(s)
  {
    hide FailAll;
  }

  /** Every step of the worker, and every notice delivered, uses some of it up. */
  lemma {:induction false} WorkerStepLowersRank(s: State, e: Event)
    requires Enabled(s, e) && WorkerStep(e)
    ensures Rank(Next(s, e)) < Rank(s)
    ensures Next(s, e).accepted == s.accepted && (s.stopping ==> Next(s, e).stopping)
  {
    hide Submit, Release, FailMarker, Complete, Drained;
    if e.MarkerFails? {
      FailRank(s);
      FailKeepsAccepted(s);
    }
  }

  lemma {:induction false} FailKeepsAccepted(s: State)
    requires s.phase.Holding? && s.active > 0
    ensures FailMarker(s).accepted == s.accepted && FailMarker(s).stopping
  {
    hide FailAll;
  }

  lemma {:induction false} AwakeWorkerMoves(s: State)
    requires Flow(s) && Life(s) && Wakeups(s) && !s.phase.Exited?
    requires Live(s) != [] || s.sleepers != {} || s.stopping || AwaitingCallback(s.phase) != []
    ensures WorkerCanMove(s)
  {
    assert WorkerStep(DeliverWorkNotice) && WorkerStep(WorkerTakes) && WorkerStep(MarkerFails);
    assert WorkerStep(WorkerRecords(true)) && WorkerStep(CallbackReturns) && WorkerStep(FailedCallbackReturns);
    assert WorkerStep(FailurePathExits) && WorkerStep(WorkerLeaves) && WorkerStep(WorkerExits);
    if s.phase.Idle? {
      assert Enabled(s, DeliverWorkNotice) || Enabled(s, WorkerTakes) || Enabled(s, WorkerLeaves);
    } else if s.phase.Holding? {
      assert Enabled(s, MarkerFails) || Enabled(s, WorkerRecords(true));
    } else {
      assert Enabled(s, CallbackReturns) || Enabled(s, FailedCallbackReturns) || Enabled(s, FailurePathExits)
          || Enabled(s, WorkerExits);
    }
  }

  /** Nothing accepted is unfinished, nobody sleeps in Flush, and a worker told to
      stop is gone. */
  predicate Settled(s: State) {
    s.returned == s.accepted && s.sleepers == {} && (s.stopping ==> s.phase.Exited?)
  }

  /** Accepted work, a sleeping flusher and a shutdown waiting to join are never
      stuck: a step of the worker is enabled. */
  lemma {:induction false} NoLostWakeups(s: State)
    requires Reachable(s)
    ensures Settled(s) || WorkerCanMove(s)
    ensures s.sleepers != {} && Drained(s) ==> s.phase.Failing?
  {
    hide TableParts, WorkerCanMove;
    ReachableInv(s);
    if s.returned != s.accepted {
      assert Live(s) != [] || AwaitingCallback(s.phase) != [];
    }
    if !Settled(s) {
      AwakeWorkerMoves(s);
    }
  }

  ghost predicate WorkerSteps(events: seq<Event>) {
    forall i :: 0 <= i < |events| ==> WorkerStep(events[i])
  }

  lemma {:induction false} RankBoundsRun(s: State, events: seq<Event>)
    requires WorkerSteps(events) && Run(s, events).Some?
    ensures var t := Run(s, events).value;
            |events| + Rank(t) <= Rank(s) && t.accepted == s.accepted && (s.stopping ==> t.stopping)
    decreases |events|
  {
    hide Rank, Next, Enabled, WorkerStep;
    if events != [] {
      var n := |events| - 1;
      RankBoundsRun(s, events[..n]);
      WorkerStepLowersRank(Run(s, events[..n]).value, events[n]);
    }
  }

  lemma {:induction false} RunOn(start: State, before: seq<Event>, s: State, events: seq<Event>)
    requires Run(start, before) == Some(s) && Run(s, events).Some?
    ensures Run(start, before + events) == Run(s, events)
    decreases |events|
  {
    hide Next, Enabled;
    if events == [] {
      assert before + events == before;
    } else {
      var n := |events| - 1;
      RunOn(start, before, s, events[..n]);
      assert (before + events)[..|before| + n] == before + events[..n];
    }
  }

  /** With no further callers every run of the worker ends, within the rank, and
      where it ends all accepted work is finished, all flushers are awake and a
      stopping worker has exited. */
  lemma {:induction false} AllWorkEnds(s: State, events: seq<Event>)
    requires Reachable(s) && WorkerSteps(events) && Run(s, events).Some?
    ensures |events| <= Rank(s)
    ensures var t := Run(s, events).value;
            && Reachable(t) && t.accepted == s.accepted && (Settled(t) || WorkerCanMove(t))
            && (|events| == Rank(s) ==> Settled(t))
  {
    hide Rank, Next, Enabled, Settled, WorkerCanMove;
    var t := Run(s, events).value;
    RankBoundsRun(s, events);
    var capacity, keyReady, before :| Run(Initial(capacity, keyReady), before) == Some(s);
    RunOn(Initial(capacity, keyReady), before, s, events);
    NoLostWakeups(t);
    if |events| == Rank(s) {
      NothingLeft(t);
    }
  }

  lemma {:induction false} NothingLeft(t: State)
    requires Rank(t) == 0
    ensures !WorkerCanMove(t)
  {
    hide Rank, Next;
    forall e | WorkerStep(e) ensures !Enabled(t, e) {
      if Enabled(t, e) {
        WorkerStepLowersRank(t, e);
      }
    }
  }
}
