/** The list of in-memory symbol files another process keeps changing, and what a
    reader can know of it (unwindstack/GlobalDebugImpl.h; the JIT Compilation
    Interface of the GDB manual with Android's sequence locks). */
module JitEntries {
  import opened Wrappers

  const MAX_RACE_RETRIES := 16
  const MAX_HEAD_RETRIES := 16

  datatype Entry = Entry(next: nat, symfileAddr: nat, symfileSize: nat, seqlock: nat)

  /** The target over time: the list head, the entries and the bytes of memory at
      every instant; and how the reader meets it: how much time passes before
      each of its reads, and which reads fail. */
  datatype Target = Target(head: nat -> nat, entry: (nat, nat) -> Entry, byte: (nat, nat) -> nat,
                           delay: nat -> nat, fails: nat -> bool)

  /** An entry in one of its lives. */
  datatype Uid = Uid(address: nat, seqlock: nat)

  type Symfile = seq<nat>

  /** The bytes of the symbol file an entry names at time `t`. */
  function SymfileAt(w: Target, t: nat, address: nat): Symfile {
    var e := w.entry(t, address);
    seq(e.symfileSize, i requires 0 <= i < e.symfileSize => w.byte(t, e.symfileAddr + i))
  }

  predicate SameSymfile(w: Target, t: nat, t': nat, address: nat) {
    && w.entry(t, address).symfileAddr == w.entry(t', address).symfileAddr
    && SymfileAt(w, t, address) == SymfileAt(w, t', address)
  }

  /** What writers keep to: sequence locks never go back, and an entry's symbol
      file changes only together with its lock or while the lock is odd. */
  ghost predicate Disciplined(w: Target) {
    && (forall t: nat, t': nat, a: nat :: t' == t + 1 ==> w.entry(t, a).seqlock <= w.entry(t', a).seqlock)
    && (forall t: nat, t': nat, a: nat ::
          (t' == t + 1 && w.entry(t, a).seqlock == w.entry(t', a).seqlock && w.entry(t, a).seqlock % 2 == 0) ==>
            SameSymfile(w, t, t', a))
  }

  lemma {:induction false} LocksGrow(w: Target, t: nat, t': nat, address: nat)
    requires Disciplined(w) && t <= t'
    ensures w.entry(t, address).seqlock <= w.entry(t', address).seqlock
    decreases t' - t
  {
    if t < t' {
      LocksGrow(w, t, t' - 1, address);
    }
  }

  /** Equal even locks at two instants: one version, one symbol file. */
  lemma {:induction false} OneVersion(w: Target, t: nat, t': nat, address: nat)
    requires Disciplined(w) && t <= t'
    requires w.entry(t, address).seqlock == w.entry(t', address).seqlock && w.entry(t, address).seqlock % 2 == 0
    ensures forall s: nat :: t <= s <= t' ==> w.entry(s, address).seqlock == w.entry(t, address).seqlock
    ensures SameSymfile(w, t, t', address)
    decreases t' - t
  {
    forall s: nat | t <= s <= t' ensures w.entry(s, address).seqlock == w.entry(t, address).seqlock {
      LocksGrow(w, t, s, address);
      LocksGrow(w, s, t', address);
    }
    if t < t' {
      OneVersion(w, t, t' - 1, address);
      assert SameSymfile(w, t' - 1, t', address);
    }
  }

  /** `uid` was linked from the list at time `t`. */
  ghost predicate Linked(w: Target, t: nat, address: nat) {
    w.head(t) == address || exists b: nat :: w.entry(t, b).next == address
  }

  /** From `t0`, when the list pointed at it, to `t1` the entry stayed the same
      live version. */
  ghost predicate Lives(w: Target, uid: Uid, t0: nat, t1: nat) {
    && t0 <= t1 && uid.seqlock % 2 == 0
    && Linked(w, t0, uid.address)
    && forall t: nat :: t0 <= t <= t1 ==> w.entry(t, uid.address).seqlock == uid.seqlock
  }

  /** `file` was copied between `since` and `end`: its address and size were read
      from the entry, and each byte from memory, at some instant in between. */
  ghost predicate Copied(w: Target, uid: Uid, file: Symfile, since: nat, end: nat,
                         addrAt: nat, sizeAt: nat, times: seq<nat>) {
    && since <= addrAt <= end && since <= sizeAt <= end
    && |file| == |times| == w.entry(sizeAt, uid.address).symfileSize
    && forall i :: 0 <= i < |file| ==>
         since <= times[i] <= end && file[i] == w.byte(times[i], w.entry(addrAt, uid.address).symfileAddr + i)
  }

  /** From the read of its address until after its symbol file was copied, all
      between `from` and `upto`, the entry kept the one even lock of `uid`. */
  ghost predicate Taken(w: Target, uid: Uid, file: Symfile, from: nat, upto: nat) {
    exists since: nat, end: nat, addrAt: nat, sizeAt: nat, times: seq<nat> ::
      from <= since && end <= upto && Lives(w, uid, since, end) &&
          Copied(w, uid, file, since, end, addrAt, sizeAt, times)
  }

  lemma {:induction false} TakenWider(w: Target, uid: Uid, file: Symfile, from: nat, upto: nat, from': nat, upto': nat)
    requires Taken(w, uid, file, from, upto) && from' <= from && upto <= upto'
    ensures Taken(w, uid, file, from', upto')
  {
  }

  ghost predicate AllWhole(w: Target, entries: map<Uid, Symfile>, upto: nat) {
    forall uid :: uid in entries ==> Taken(w, uid, entries[uid], 0, upto)
  }

  /** Every entry is one of `known`, or was taken since `from`. */
  ghost predicate AllFrom(w: Target, known: map<Uid, Symfile>, entries: map<Uid, Symfile>, from: nat, upto: nat) {
    forall uid :: uid in entries ==>
      (uid in known && entries[uid] == known[uid]) || Taken(w, uid, entries[uid], from, upto)
  }

  lemma {:induction false} AllWholeLater(w: Target, entries: map<Uid, Symfile>, upto: nat, later: nat)
    requires AllWhole(w, entries, upto) && upto <= later
    ensures AllWhole(w, entries, later)
  {
    forall uid | uid in entries ensures Taken(w, uid, entries[uid], 0, later) {
      TakenWider(w, uid, entries[uid], 0, upto, 0, later);
    }
  }

  lemma {:induction false} AllFromLater(w: Target, known: map<Uid, Symfile>, entries: map<Uid, Symfile>,
                                        from: nat, upto: nat, later: nat)
    requires AllFrom(w, known, entries, from, upto) && upto <= later
    ensures AllFrom(w, known, entries, from, later)
  {
    hide Taken;
    forall uid | uid in entries && Taken(w, uid, entries[uid], from, upto)
      ensures Taken(w, uid, entries[uid], from, later)
    {
      TakenWider(w, uid, entries[uid], from, upto, from, later);
    }
  }

  lemma {:induction false} AllFromEarlier(w: Target, known: map<Uid, Symfile>, entries: map<Uid, Symfile>,
                                          earlier: nat, from: nat, upto: nat)
    requires AllFrom(w, known, entries, from, upto) && earlier <= from
    ensures AllFrom(w, known, entries, earlier, upto)
  {
    hide Taken;
    forall uid | uid in entries && Taken(w, uid, entries[uid], from, upto)
      ensures Taken(w, uid, entries[uid], earlier, upto)
    {
      TakenWider(w, uid, entries[uid], from, upto, earlier, upto);
    }
  }

  lemma {:induction false} AllFromNone(w: Target, known: map<Uid, Symfile>, from: nat, upto: nat)
    ensures AllFrom(w, known, map[], from, upto)
  {
  }

  lemma {:induction false} AllFromPut(w: Target, known: map<Uid, Symfile>, entries: map<Uid, Symfile>,
                                      uid: Uid, file: Symfile, from: nat, upto: nat, later: nat)
    requires AllFrom(w, known, entries, from, upto) && upto <= later
    requires (uid in known && file == known[uid]) || Taken(w, uid, file, from, later)
    ensures AllFrom(w, known, entries[uid := file], from, later)
  {
    AllFromLater(w, known, entries, from, upto, later);
  }

  /** What is known and what was taken since are whole together. */
  lemma {:induction false} AllFromIsWhole(w: Target, known: map<Uid, Symfile>, entries: map<Uid, Symfile>,
                                          from: nat, upto: nat)
    requires AllWhole(w, known, upto) && AllFrom(w, known, entries, from, upto)
    ensures AllWhole(w, entries, upto)
  {
    hide Taken;
    forall uid | uid in entries ensures Taken(w, uid, entries[uid], 0, upto) {
      if Taken(w, uid, entries[uid], from, upto) {
        TakenWider(w, uid, entries[uid], from, upto, 0, upto);
      }
    }
  }

  /** A file taken is that of its version at every instant the version is seen. */
  lemma {:induction false} TakenIsTheVersion(w: Target, uid: Uid, file: Symfile, from: nat, upto: nat, t: nat)
    requires Disciplined(w) && Taken(w, uid, file, from, upto)
    requires w.entry(t, uid.address).seqlock == uid.seqlock
    ensures file == SymfileAt(w, t, uid.address)
  {
    var since: nat, end: nat, addrAt: nat, sizeAt: nat, times: seq<nat> :|
      from <= since && end <= upto && Lives(w, uid, since, end) &&
          Copied(w, uid, file, since, end, addrAt, sizeAt, times);
    NotTorn(w, uid, since, end, addrAt, sizeAt, file, times);
    if since <= t {
      OneVersion(w, since, t, uid.address);
    } else {
      OneVersion(w, t, since, uid.address);
    }
  }

  /** Fields and bytes read at different instants of one life of an entry belong
      together: the copy is the symbol file of that version. */
  lemma {:induction false} NotTorn(w: Target, uid: Uid, since: nat, end: nat, addrAt: nat, sizeAt: nat,
                                   file: Symfile, times: seq<nat>)
    requires Disciplined(w) && Lives(w, uid, since, end) && Copied(w, uid, file, since, end, addrAt, sizeAt, times)
    ensures file == SymfileAt(w, since, uid.address)
  {
    OneVersion(w, since, addrAt, uid.address);
    OneVersion(w, since, sizeAt, uid.address);
    var truth := SymfileAt(w, since, uid.address);
    assert |file| == |SymfileAt(w, sizeAt, uid.address)| == |truth|;
    forall i | 0 <= i < |file| ensures file[i] == truth[i] {
      OneVersion(w, since, times[i], uid.address);
      assert truth[i] == SymfileAt(w, times[i], uid.address)[i];
    }
  }

  lemma {:induction false} LivesAt(w: Target, uid: Uid, since: nat, end: nat)
    ensures Lives(w, uid, since, end) ==> w.entry(since, uid.address).seqlock == uid.seqlock && uid.seqlock % 2 == 0
  {
  }

  lemma {:induction false} LivesOn(w: Target, uid: Uid, since: nat, upto: nat, end: nat)
    requires Disciplined(w) && Lives(w, uid, since, upto) && upto <= end
    requires w.entry(end, uid.address).seqlock == uid.seqlock
    ensures Lives(w, uid, since, end)
  {
    OneVersion(w, since, end, uid.address);
  }

  /** The address of the symbol file is one in one life. */
  lemma {:induction false} OneAddress(w: Target, uid: Uid, since: nat, upto: nat, at: nat, end: nat)
    requires Disciplined(w) && Lives(w, uid, since, upto) && upto <= end && since <= at <= end
    requires w.entry(end, uid.address).seqlock == uid.seqlock
    ensures w.entry(at, uid.address).symfileAddr == w.entry(since, uid.address).symfileAddr
  {
    hide Disciplined;
    OneVersion(w, since, end, uid.address);
    OneVersion(w, since, at, uid.address);
  }

  // ---------- A quiet target ----------

  /** Nothing changes from `t` on, and every read succeeds. */
  ghost predicate Quiet(w: Target, t: nat) {
    && (forall t': nat :: t <= t' ==> w.head(t') == w.head(t))
    && (forall t': nat, a: nat :: t <= t' ==> w.entry(t', a) == w.entry(t, a))
    && (forall t': nat, a: nat :: t <= t' ==> w.byte(t', a) == w.byte(t, a))
    && NeverFails(w)
  }

  ghost predicate NeverFails(w: Target) {
    forall k: nat :: !w.fails(k)
  }

  lemma {:induction false} StaysQuiet(w: Target, t: nat, later: nat, valid: Symfile -> bool, address: nat)
    requires Quiet(w, t) && t <= later
    ensures Quiet(w, later) && w.head(later) == w.head(t) && w.entry(later, address) == w.entry(t, address)
    ensures Loadable(w, later, valid, address) == Loadable(w, t, valid, address)
    ensures SymfileAt(w, later, address) == SymfileAt(w, t, address)
  {
    assert SymfileAt(w, later, address) == SymfileAt(w, t, address);
  }

  /** A copy made while nothing changes is the symbol file, with or without locks. */
  lemma {:induction false} QuietCopy(w: Target, t: nat, a: nat, addrAt: nat, sizeAt: nat, file: Symfile,
                                     times: seq<nat>)
    requires Quiet(w, t) && t <= addrAt && t <= sizeAt
    requires |file| == |times| == w.entry(sizeAt, a).symfileSize
    requires forall i :: 0 <= i < |file| ==>
               t <= times[i] && file[i] == w.byte(times[i], w.entry(addrAt, a).symfileAddr + i)
    ensures file == SymfileAt(w, t, a)
  {
    assert w.entry(addrAt, a) == w.entry(t, a) && w.entry(sizeAt, a) == w.entry(t, a);
    forall i | 0 <= i < |file| ensures file[i] == SymfileAt(w, t, a)[i] {
      assert w.byte(times[i], w.entry(t, a).symfileAddr + i) == w.byte(t, w.entry(t, a).symfileAddr + i);
    }
  }

  /** Each file is one of `known`, or that of its entry at time `t`. */
  ghost predicate FilesAt(w: Target, t: nat, known: map<Uid, Symfile>, acc: map<Uid, Symfile>) {
    forall uid :: uid in acc ==>
      acc[uid] == if uid in known then known[uid] else SymfileAt(w, t, uid.address)
  }

  lemma {:induction false} FilesStay(w: Target, t: nat, later: nat, known: map<Uid, Symfile>, acc: map<Uid, Symfile>)
    requires Quiet(w, t) && t <= later
    ensures FilesAt(w, t, known, acc) <==> FilesAt(w, later, known, acc)
  {
    hide Quiet;
    forall uid | uid in acc ensures SymfileAt(w, t, uid.address) == SymfileAt(w, later, uid.address) {
      StaysQuiet(w, t, later, s => true, uid.address);
    }
  }

  /** `path` lists the entries of the list as it stands at time `t`. */
  ghost predicate IsList(w: Target, t: nat, path: seq<nat>) {
    && w.head(t) == At(path, 0)
    && (forall i, j :: 0 <= i < j < |path| ==> path[i] != path[j])
    && (forall i :: 0 <= i < |path| ==> path[i] != 0)
    && (forall i, j :: 0 <= i < |path| && j == i + 1 ==> w.entry(t, path[i]).next == At(path, j))
  }

  /** The same, all entries live, where they have locks to tell. */
  ghost predicate IsPath(w: Target, locked: bool, t: nat, path: seq<nat>) {
    IsList(w, t, path) && (locked ==> forall i :: 0 <= i < |path| ==> w.entry(t, path[i]).seqlock % 2 == 0)
  }

  function At(path: seq<nat>, i: nat): nat {
    if i < |path| then path[i] else 0
  }

  function UidAt(w: Target, locked: bool, t: nat, address: nat): Uid {
    Uid(address, if !locked || address == 0 then 0 else w.entry(t, address).seqlock)
  }

  predicate Loadable(w: Target, t: nat, valid: Symfile -> bool, address: nat) {
    w.entry(t, address).symfileAddr != 0 && valid(SymfileAt(w, t, address))
  }

  /** The first `n` entries of the path that are known already or can be loaded. */
  ghost function Wanted(w: Target, locked: bool, t: nat, valid: Symfile -> bool, known: set<Uid>, path: seq<nat>,
                        n: nat): set<Uid>
    requires n <= |path|
  {
    set i | 0 <= i < n && (UidAt(w, locked, t, path[i]) in known || Loadable(w, t, valid, path[i])) :: UidAt(w,
        locked, t, path[i])
  }

  lemma {:induction false} PathStays(w: Target, locked: bool, t: nat, later: nat, path: seq<nat>)
    requires Quiet(w, t) && IsPath(w, locked, t, path) && t <= later
    ensures Quiet(w, later) && IsPath(w, locked, later, path)
  {
    forall i, j | 0 <= i < |path| && j == i + 1 ensures w.entry(later, path[i]).next == At(path, j) {
      assert w.entry(later, path[i]) == w.entry(t, path[i]);
    }
  }

  lemma {:induction false} WantedStays(w: Target, locked: bool, t: nat, later: nat, valid: Symfile -> bool,
                                       known: set<Uid>,
                                       path: seq<nat>)
    requires Quiet(w, t) && t <= later
    ensures Wanted(w, locked, later, valid, known, path, |path|) == Wanted(w, locked, t, valid, known, path, |path|)
  {
    hide Loadable, Quiet;
    forall i | 0 <= i < |path|
      ensures UidAt(w, locked, later, path[i]) == UidAt(w, locked, t, path[i])
      ensures Loadable(w, later, valid, path[i]) == Loadable(w, t, valid, path[i])
    {
      StaysQuiet(w, t, later, valid, path[i]);
    }
  }

  /** How far a walk has come when it is about to visit `path[i]`: a first walk has
      taken what it wants so far, a later one adds nothing that is not wanted. */
  ghost predicate Walked(w: Target, locked: bool, t: nat, valid: Symfile -> bool, known: set<Uid>, path: seq<nat>,
                         i: nat, uid: Uid, had: set<Uid>, has: set<Uid>) {
    && i <= |path| && uid == UidAt(w, locked, t, At(path, i))
    && had <= has <= had + Wanted(w, locked, t, valid, known, path, i)
    && (had == {} ==> has == Wanted(w, locked, t, valid, known, path, i))
  }

  lemma {:induction false} WalkOn(w: Target, locked: bool, t: nat, valid: Symfile -> bool, known: set<Uid>,
                                  path: seq<nat>,
                                  i: nat, uid: Uid, had: set<Uid>, has: set<Uid>, next: Uid, has': set<Uid>)
    requires IsPath(w, locked, t, path) && Walked(w, locked, t, valid, known, path, i, uid, had, has) &&
               uid.address != 0
    requires has' == if uid in known || Loadable(w, t, valid, uid.address) then has + {uid} else has
    requires next == UidAt(w, locked, t, w.entry(t, uid.address).next)
    ensures i < |path| && Walked(w, locked, t, valid, known, path, i + 1, next, had, has')
  {
    hide Loadable;
    var before := Wanted(w, locked, t, valid, known, path, i);
    var after := Wanted(w, locked, t, valid, known, path, i + 1);
    assert uid == UidAt(w, locked, t, path[i]);
    assert after == if uid in known || Loadable(w, t, valid, uid.address) then before + {uid} else before;
    var j := i + 1;
    assert w.entry(t, path[i]).next == At(path, j);
  }

  /** A first walk never meets an entry it has taken. */
  lemma {:induction false} NeverTwice(w: Target, locked: bool, t: nat, valid: Symfile -> bool, known: set<Uid>,
                                      path: seq<nat>,
                                      i: nat, uid: Uid, has: set<Uid>)
    requires IsPath(w, locked, t, path) && Walked(w, locked, t, valid, known, path, i, uid, {}, has) && uid.address != 0
    ensures uid !in has
  {
    hide Loadable;
  }

  lemma {:induction false} WalkIsLive(w: Target, locked: bool, t: nat, valid: Symfile -> bool, known: set<Uid>,
                                      path: seq<nat>,
                                      i: nat, uid: Uid, had: set<Uid>, has: set<Uid>)
    requires IsPath(w, locked, t, path) && Walked(w, locked, t, valid, known, path, i, uid, had, has) &&
               uid.address != 0
    ensures i < |path| && uid == UidAt(w, locked, t, uid.address)
    ensures UidAt(w, locked, t, w.entry(t, uid.address).next).seqlock % 2 == 0
  {
    hide Loadable, Wanted;
    var j := i + 1;
    assert w.entry(t, path[i]).next == At(path, j);
  }

  /** A walk starts at the head with nothing taken. */
  lemma {:induction false} WalkStarts(w: Target, locked: bool, t: nat, valid: Symfile -> bool, known: set<Uid>,
                                      path: seq<nat>,
                                      had: set<Uid>)
    requires IsPath(w, locked, t, path)
    ensures UidAt(w, locked, t, w.head(t)).seqlock % 2 == 0
    ensures Walked(w, locked, t, valid, known, path, 0, UidAt(w, locked, t, w.head(t)), had, had)
  {
    hide Loadable;
    assert Wanted(w, locked, t, valid, known, path, 0) == {};
  }

  /** What a walk has taken when it stops, at a known entry or at the end. */
  lemma {:induction false} WalkEnds(w: Target, locked: bool, t: nat, valid: Symfile -> bool, known: set<Uid>,
                                    path: seq<nat>,
                                    i: nat, uid: Uid, had: set<Uid>, has: set<Uid>)
    requires IsPath(w, locked, t, path) && Walked(w, locked, t, valid, known, path, i, uid, had, has)
    requires uid.address == 0 || uid in has
    ensures has <= had + Wanted(w, locked, t, valid, known, path, |path|)
    ensures had == {} ==> has == Wanted(w, locked, t, valid, known, path, |path|)
  {
    hide Loadable;
    assert Wanted(w, locked, t, valid, known, path, i) <= Wanted(w, locked, t, valid, known, path, |path|);
    if had == {} && uid.address != 0 {
      NeverTwice(w, locked, t, valid, known, path, i, uid, has);
    }
  }
}
