/** What a walk of the JIT list finds while writers insert at its head and unlink
    entries (unwindstack/GlobalDebugImpl.h). */
module JitLists {
  import opened JitEntries

  // ---------- Writers ----------

  function Lock(w: Target, t: nat, address: nat): nat {
    w.entry(t, address).seqlock
  }

  /** The entry is the same live version at both instants. */
  predicate Alive(w: Target, t: nat, t': nat, address: nat) {
    Lock(w, t, address) == Lock(w, t', address) && Lock(w, t, address) % 2 == 0
  }

  ghost predicate Inserted(before: seq<nat>, after: seq<nat>) {
    after != [] && after[1..] == before
  }

  /** Entry `k` left the list; by then its lock is odd or has moved on. */
  ghost predicate Unlinked(w: Target, t: nat, before: seq<nat>, after: seq<nat>, k: nat) {
    k < |before| && after == before[..k] + before[k + 1..] && !Alive(w, t, t + 1, before[k])
  }

  /** Between two instants nothing happens to the list, an entry comes to its head,
      or one leaves; the lock of an entry that stays may turn odd, and is even
      again only once it has left. */
  ghost predicate WriterStep(w: Target, t: nat, before: seq<nat>, after: seq<nat>) {
    && (after == before || Inserted(before, after) || exists k: nat :: Unlinked(w, t, before, after, k))
    && forall a: nat :: a in before && a in after && Lock(w, t + 1, a) % 2 == 0 ==> Lock(w, t + 1, a) == Lock(w, t, a)
  }

  /** `list` gives the list at every instant, and only writers' steps change it. */
  ghost predicate Written(w: Target, list: nat -> seq<nat>) {
    && (forall t: nat :: IsList(w, t, list(t)))
    && (forall t: nat, t': nat :: t' == t + 1 ==> WriterStep(w, t, list(t), list(t')))
  }

  predicate Distinct(path: seq<nat>) {
    forall i, j :: 0 <= i < j < |path| ==> path[i] != path[j]
  }

  ghost predicate Before(path: seq<nat>, a: nat, b: nat) {
    exists i, j :: 0 <= i < j < |path| && path[i] == a && path[j] == b
  }

  lemma {:induction false} BeforeIsIn(path: seq<nat>, a: nat, b: nat)
    requires Before(path, a, b)
    ensures a in path && b in path
  {
  }

  lemma {:induction false} NotBeforeItself(path: seq<nat>, a: nat)
    requires Distinct(path)
    ensures !Before(path, a, a)
  {
  }

  lemma {:induction false} BeforeAndBefore(path: seq<nat>, a: nat, b: nat, c: nat)
    requires Distinct(path) && Before(path, a, b) && Before(path, b, c)
    ensures Before(path, a, c)
  {
    var i, j :| 0 <= i < j < |path| && path[i] == a && path[j] == b;
    var k, l :| 0 <= k < l < |path| && path[k] == b && path[l] == c;
    assert j == k;
  }

  /** A live entry is not unlinked. */
  lemma {:induction false} StepKeepsMember(w: Target, t: nat, before: seq<nat>, after: seq<nat>, a: nat)
    requires WriterStep(w, t, before, after) && a in before && Alive(w, t, t + 1, a)
    ensures a in after
  {
    var i :| 0 <= i < |before| && before[i] == a;
    if Inserted(before, after) {
      assert after[i + 1] == a;
    } else if after != before {
      var k: nat :| Unlinked(w, t, before, after, k);
      assert i != k && after[if i < k then i else i - 1] == a;
    }
  }

  lemma {:induction false} BeforeAt(path: seq<nat>, i: nat, j: nat, a: nat, b: nat)
    requires i < j < |path| && path[i] == a && path[j] == b
    ensures Before(path, a, b)
  {
  }

  lemma {:induction false} PlacesOf(path: seq<nat>, a: nat, b: nat) returns (i: nat, j: nat)
    requires Before(path, a, b)
    ensures i < j < |path| && path[i] == a && path[j] == b
  {
    i, j :| 0 <= i < j < |path| && path[i] == a && path[j] == b;
  }

  /** Entries that stay keep their order. */
  lemma {:induction false} StepKeepsOrder(w: Target, t: nat, before: seq<nat>, after: seq<nat>, a: nat, b: nat)
    requires WriterStep(w, t, before, after) && Before(before, a, b)
    requires Alive(w, t, t + 1, a) && Alive(w, t, t + 1, b)
    ensures Before(after, a, b)
  {
    hide Before;
    var i, j := PlacesOf(before, a, b);
    if Inserted(before, after) {
      BeforeAt(after, i + 1, j + 1, a, b);
    } else if after != before {
      var k: nat :| Unlinked(w, t, before, after, k);
      assert i != k && j != k;
      BeforeAt(after, if i < k then i else i - 1, if j < k then j else j - 1, a, b);
    }
  }

  lemma {:induction false} HeadIsNotBehind(before: seq<nat>, after: seq<nat>, a: nat, b: nat)
    requires Inserted(before, after) && Distinct(after) && a in before && Before(after, a, b)
    ensures Before(before, a, b)
  {
    hide Before;
    var i, j := PlacesOf(after, a, b);
    var k :| 0 <= k < |before| && before[k] == a;
    assert after[k + 1] == a;
    BeforeAt(before, i - 1, j - 1, a, b);
  }

  /** Nothing comes in behind an entry: what is behind it now was behind it before. */
  lemma {:induction false} StepAddsNoneBehind(w: Target, t: nat, before: seq<nat>, after: seq<nat>, a: nat, b: nat)
    requires WriterStep(w, t, before, after) && Distinct(after) && a in before && Before(after, a, b)
    ensures Before(before, a, b)
  {
    hide Before, Distinct;
    if Inserted(before, after) {
      HeadIsNotBehind(before, after, a, b);
    } else if after != before {
      var i, j := PlacesOf(after, a, b);
      var k: nat :| Unlinked(w, t, before, after, k);
      BeforeAt(before, if i < k then i else i + 1, if j < k then j else j + 1, a, b);
    }
  }

  lemma {:induction false} WriterStepAt(w: Target, list: nat -> seq<nat>, t: nat, t': nat)
    requires Written(w, list) && t' == t + 1
    ensures WriterStep(w, t, list(t), list(t')) && IsList(w, t, list(t)) && Distinct(list(t)) && Distinct(list(t'))
  {
    hide WriterStep;
    assert IsList(w, t, list(t)) && IsList(w, t', list(t'));
  }

  lemma {:induction false} AliveBetween(w: Target, t: nat, s: nat, t': nat, a: nat)
    requires Disciplined(w) && Alive(w, t, t', a) && t <= s <= t'
    ensures Alive(w, t, s, a) && Alive(w, s, t', a)
  {
    hide Disciplined;
    LocksGrow(w, t, s, a);
    LocksGrow(w, s, t', a);
  }

  lemma {:induction false} StaysLinked(w: Target, list: nat -> seq<nat>, t: nat, t': nat, a: nat)
    requires Disciplined(w) && Written(w, list) && t <= t' && Alive(w, t, t', a) && a in list(t)
    ensures a in list(t')
    decreases t' - t
  {
    hide Disciplined, Written, WriterStep;
    if t < t' {
      var s := t' - 1;
      AliveBetween(w, t, s, t', a);
      StaysLinked(w, list, t, s, a);
      WriterStepAt(w, list, s, t');
      StepKeepsMember(w, s, list(s), list(t'), a);
    }
  }

  lemma {:induction false} StaysBefore(w: Target, list: nat -> seq<nat>, t: nat, t': nat, a: nat, b: nat)
    requires Disciplined(w) && Written(w, list) && t <= t' && Alive(w, t, t', a) && Alive(w, t, t', b)
    requires Before(list(t), a, b)
    ensures Before(list(t'), a, b)
    decreases t' - t
  {
    hide Disciplined, Written, WriterStep, Before;
    if t < t' {
      var s := t' - 1;
      AliveBetween(w, t, s, t', a);
      AliveBetween(w, t, s, t', b);
      StaysBefore(w, list, t, s, a, b);
      WriterStepAt(w, list, s, t');
      StepKeepsOrder(w, s, list(s), list(t'), a, b);
    }
  }

  /** A live entry behind one that was linked all along was behind it, and live, all along. */
  lemma {:induction false} WasBefore(w: Target, list: nat -> seq<nat>, t: nat, t': nat, a: nat, b: nat)
    requires Disciplined(w) && Written(w, list) && t <= t' && Alive(w, t, t', a) && a in list(t)
    requires Before(list(t'), a, b) && Lock(w, t', b) % 2 == 0
    ensures Before(list(t), a, b) && Alive(w, t, t', b)
    decreases t' - t
  {
    hide Disciplined, Written, Before, WriterStep;
    if t < t' {
      var s := t' - 1;
      AliveBetween(w, t, s, t', a);
      StaysLinked(w, list, t, s, a);
      WriterStepAt(w, list, s, t');
      StepAddsNoneBehind(w, s, list(s), list(t'), a, b);
      BeforeIsIn(list(s), a, b);
      BeforeIsIn(list(t'), a, b);
      LockStays(w, s, list(s), list(t'), b);
      WasBefore(w, list, t, s, a, b);
    }
  }

  lemma {:induction false} LockStays(w: Target, t: nat, before: seq<nat>, after: seq<nat>, a: nat)
    requires WriterStep(w, t, before, after) && a in before && a in after && Lock(w, t + 1, a) % 2 == 0
    ensures Lock(w, t, a) == Lock(w, t + 1, a)
  {
  }

  lemma {:induction false} LoadableStays(w: Target, valid: Symfile -> bool, t: nat, t': nat, a: nat)
    requires Disciplined(w) && t <= t' && Alive(w, t, t', a)
    ensures Loadable(w, t, valid, a) == Loadable(w, t', valid, a)
  {
    hide Disciplined;
    OneVersion(w, t, t', a);
  }

  // ---------- A walk ----------

  /** `x` is a linked live version whose symbol file can be loaded. */
  ghost predicate Present(w: Target, list: nat -> seq<nat>, valid: Symfile -> bool, t: nat, x: Uid) {
    x.address in list(t) && Lock(w, t, x.address) == x.seqlock && x.seqlock % 2 == 0 && Loadable(w, t, valid, x.address)
  }

  ghost predicate Ahead(path: seq<nat>, c: nat, x: nat) {
    c != 0 && (c == x || Before(path, c, x))
  }

  /** What has been taken: versions seen by `t`, linked as long as they live. */
  ghost predicate Held(w: Target, list: nat -> seq<nat>, t: nat, acc: set<Uid>) {
    forall u :: u in acc ==>
      && u.seqlock % 2 == 0 && u.seqlock <= Lock(w, t, u.address)
      && (Lock(w, t, u.address) == u.seqlock ==> u.address in list(t))
  }

  /** `u` is taken, still lives, and `x` is behind it. */
  ghost predicate Behind(w: Target, list: nat -> seq<nat>, t: nat, u: Uid, x: Uid) {
    Lock(w, t, u.address) == u.seqlock && Before(list(t), u.address, x.address)
  }

  /** Whatever is present behind an entry taken is taken, or still ahead of `c`. */
  ghost predicate Trailed(w: Target, list: nat -> seq<nat>, valid: Symfile -> bool, t: nat, from: set<Uid>,
                          acc: set<Uid>, c: nat) {
    forall u, x :: u in from && Present(w, list, valid, t, x) && Behind(w, list, t, u, x) ==>
      x in acc || Ahead(list(t), c, x.address)
  }

  /** Whatever was present at `s` and is at `t` is taken, or still ahead of `c`. */
  ghost predicate Swept(w: Target, list: nat -> seq<nat>, valid: Symfile -> bool, s: nat, t: nat, acc: set<Uid>,
                        c: nat) {
    forall x :: Present(w, list, valid, s, x) && Present(w, list, valid, t, x) ==>
      x in acc || Ahead(list(t), c, x.address)
  }

  /** Whatever was present at `s` and is at `t` is taken. */
  ghost predicate Complete(w: Target, list: nat -> seq<nat>, valid: Symfile -> bool, s: nat, t: nat, acc: set<Uid>) {
    forall x :: Present(w, list, valid, s, x) && Present(w, list, valid, t, x) ==> x in acc
  }

  /** Everything taken in this walk is behind the walker. */
  ghost predicate Passed(w: Target, list: nat -> seq<nat>, t: nat, taken: set<Uid>, c: nat) {
    forall u :: u in taken && Lock(w, t, u.address) == u.seqlock && c != 0 ==> Before(list(t), u.address, c)
  }

  /** Between walks: what is behind an entry taken is taken. */
  ghost predicate Settled(w: Target, list: nat -> seq<nat>, valid: Symfile -> bool, t: nat, acc: set<Uid>) {
    Held(w, list, t, acc) && Trailed(w, list, valid, t, acc, acc, 0)
  }

  /** A walk that began at `s` with `acc0` taken is about to visit `c`. */
  ghost predicate Walking(w: Target, list: nat -> seq<nat>, valid: Symfile -> bool, s: nat, t: nat, acc0: set<Uid>,
                          acc: set<Uid>, c: Uid) {
    && acc0 <= acc && Held(w, list, t, acc)
    && Trailed(w, list, valid, t, acc0, acc0, 0)
    && Trailed(w, list, valid, t, acc - acc0, acc, c.address)
    && Swept(w, list, valid, s, t, acc, c.address)
    && Passed(w, list, t, acc - acc0, c.address)
    && (c.address != 0 ==> c.address in list(t) && Lock(w, t, c.address) == c.seqlock && c.seqlock % 2 == 0)
  }

  lemma {:induction false} HeldLater(w: Target, list: nat -> seq<nat>, t: nat, t': nat, acc: set<Uid>)
    requires Disciplined(w) && Written(w, list) && t <= t' && Held(w, list, t, acc)
    ensures Held(w, list, t', acc)
  {
    hide Disciplined, Written;
    forall u | u in acc
      ensures u.seqlock % 2 == 0 && u.seqlock <= Lock(w, t', u.address)
      ensures Lock(w, t', u.address) == u.seqlock ==> u.address in list(t')
    {
      LocksGrow(w, t, t', u.address);
      if Lock(w, t', u.address) == u.seqlock {
        StaysLinked(w, list, t, t', u.address);
      }
    }
  }

  lemma {:induction false} PresentBefore(w: Target, list: nat -> seq<nat>, valid: Symfile -> bool, t: nat, t': nat,
                                         u: Uid, x: Uid)
    requires Disciplined(w) && Written(w, list) && t <= t'
    requires u.seqlock % 2 == 0 && u.seqlock <= Lock(w, t, u.address)
    requires Lock(w, t, u.address) == u.seqlock ==> u.address in list(t)
    requires Present(w, list, valid, t', x) && Behind(w, list, t', u, x)
    ensures Present(w, list, valid, t, x) && Behind(w, list, t, u, x) && Alive(w, t, t', x.address)
  {
    hide Disciplined, Written, Before, Loadable;
    LocksGrow(w, t, t', u.address);
    WasBefore(w, list, t, t', u.address, x.address);
    BeforeIsIn(list(t), u.address, x.address);
    LoadableStays(w, valid, t, t', x.address);
  }

  /** With nothing taken in between, what is closed stays closed. */
  lemma {:induction false} ClosedLater(w: Target, list: nat -> seq<nat>, valid: Symfile -> bool, t: nat, t': nat,
                                       acc: set<Uid>)
    requires Disciplined(w) && Written(w, list) && t <= t' && Held(w, list, t, acc)
    requires Trailed(w, list, valid, t, acc, acc, 0)
    ensures Trailed(w, list, valid, t', acc, acc, 0)
  {
    hide Disciplined, Written, Present, Behind;
    forall u, x | u in acc && Present(w, list, valid, t', x) && Behind(w, list, t', u, x) ensures x in acc {
      PresentBefore(w, list, valid, t, t', u, x);
    }
  }

  lemma {:induction false} SettledLater(w: Target, list: nat -> seq<nat>, valid: Symfile -> bool, t: nat, t': nat,
                                        acc: set<Uid>)
    requires Disciplined(w) && Written(w, list) && t <= t' && Settled(w, list, valid, t, acc)
    ensures Settled(w, list, valid, t', acc)
  {
    hide Disciplined, Written, Held, Trailed;
    HeldLater(w, list, t, t', acc);
    ClosedLater(w, list, valid, t, t', acc);
  }

  /** The link of an entry in the list leads to the one behind it. */
  lemma {:induction false} LinkLeadsOn(w: Target, t: nat, path: seq<nat>, a: nat, x: nat)
    requires IsList(w, t, path) && a in path
    ensures var next := w.entry(t, a).next;
            && (Before(path, a, x) ==> Ahead(path, next, x))
            && (next != 0 ==> next in path && Before(path, a, next))
  {
    var i :| 0 <= i < |path| && path[i] == a;
    var j := i + 1;
    assert w.entry(t, path[i]).next == At(path, j);
    if Before(path, a, x) {
      var k, l :| 0 <= k < l < |path| && path[k] == a && path[l] == x;
      assert k == i;
      assert path[j] == w.entry(t, a).next;
    }
  }

  /** What the visit of `c` establishes: it lived from `t` to `t'`, where its link
      was read, and was taken if it could be. */
  ghost predicate Visited(w: Target, valid: Symfile -> bool, t: nat, t': nat, c: Uid, next: Uid, acc: set<Uid>,
                          acc': set<Uid>) {
    && t <= t' && c.address != 0 && Alive(w, t, t', c.address)
    && next.address == w.entry(t', c.address).next
    && (next.address != 0 ==> Lock(w, t', next.address) == next.seqlock && next.seqlock % 2 == 0)
    && acc <= acc' <= acc + {c}
    && (Loadable(w, t, valid, c.address) ==> c in acc')
  }

  /** What was ahead is taken by the visit, or ahead of the next. */
  lemma {:induction false} AheadOn(w: Target, list: nat -> seq<nat>, valid: Symfile -> bool, t: nat, t': nat, c: Uid,
                                   next: Uid, acc: set<Uid>, acc': set<Uid>, x: Uid)
    requires Disciplined(w) && Written(w, list) && Visited(w, valid, t, t', c, next, acc, acc')
    requires c.address in list(t) && Lock(w, t, c.address) == c.seqlock
    requires Present(w, list, valid, t, x) && Alive(w, t, t', x.address)
    requires x in acc || Ahead(list(t), c.address, x.address)
    ensures x in acc' || Ahead(list(t'), next.address, x.address)
  {
    hide Disciplined, Written, Before, Loadable, IsList;
    if x !in acc && x.address != c.address {
      StaysBefore(w, list, t, t', c.address, x.address);
      StaysLinked(w, list, t, t', c.address);
      WriterStepAt(w, list, t', t' + 1);
      LinkLeadsOn(w, t', list(t'), c.address, x.address);
    }
  }

  lemma {:induction false} SweptOn(w: Target, list: nat -> seq<nat>, valid: Symfile -> bool, s: nat, t: nat, t': nat,
                                   c: Uid, next: Uid, acc: set<Uid>, acc': set<Uid>)
    requires Disciplined(w) && Written(w, list) && s <= t && Visited(w, valid, t, t', c, next, acc, acc')
    requires c.address in list(t) && Lock(w, t, c.address) == c.seqlock && Swept(w, list, valid, s, t, acc, c.address)
    ensures Swept(w, list, valid, s, t', acc', next.address)
  {
    hide Disciplined, Written, Ahead, Loadable;
    forall x | Present(w, list, valid, s, x) && Present(w, list, valid, t', x)
      ensures x in acc' || Ahead(list(t'), next.address, x.address)
    {
      AliveBetween(w, s, t, t', x.address);
      StaysLinked(w, list, s, t, x.address);
      LoadableStays(w, valid, s, t, x.address);
      AheadOn(w, list, valid, t, t', c, next, acc, acc', x);
    }
  }

  lemma {:induction false} PassedOn(w: Target, list: nat -> seq<nat>, valid: Symfile -> bool, t: nat, t': nat,
                                    c: Uid, next: Uid, acc0: set<Uid>, acc: set<Uid>, acc': set<Uid>)
    requires Disciplined(w) && Written(w, list) && Visited(w, valid, t, t', c, next, acc, acc')
    requires c.address in list(t) && Lock(w, t, c.address) == c.seqlock && Held(w, list, t, acc)
    requires Passed(w, list, t, acc - acc0, c.address)
    ensures Passed(w, list, t', acc' - acc0, next.address)
    ensures next.address != 0 ==> next.address in list(t')
  {
    hide Disciplined, Written, Before, Loadable, IsList;
    StaysLinked(w, list, t, t', c.address);
    WriterStepAt(w, list, t', t' + 1);
    LinkLeadsOn(w, t', list(t'), c.address, 0);
    forall u | u in acc' - acc0 && Lock(w, t', u.address) == u.seqlock && next.address != 0
      ensures Before(list(t'), u.address, next.address)
    {
      if u in acc {
        LocksGrow(w, t, t', u.address);
        StaysBefore(w, list, t, t', u.address, c.address);
        BeforeAndBefore(list(t'), u.address, c.address, next.address);
      }
    }
  }

  lemma {:induction false} TrailedOn(w: Target, list: nat -> seq<nat>, valid: Symfile -> bool, t: nat, t': nat,
                                     c: Uid, next: Uid, acc0: set<Uid>, acc: set<Uid>, acc': set<Uid>)
    requires Disciplined(w) && Written(w, list) && Visited(w, valid, t, t', c, next, acc, acc')
    requires c.address in list(t) && Lock(w, t, c.address) == c.seqlock && c.seqlock % 2 == 0
    requires Held(w, list, t, acc) && Trailed(w, list, valid, t, acc - acc0, acc, c.address)
    ensures Trailed(w, list, valid, t', acc' - acc0, acc', next.address)
  {
    hide Disciplined, Written, Before, Loadable, IsList, Ahead, Present;
    forall u, x | u in acc' - acc0 && Present(w, list, valid, t', x) && Behind(w, list, t', u, x)
      ensures x in acc' || Ahead(list(t'), next.address, x.address)
    {
      PresentBefore(w, list, valid, t, t', u, x);
      if u in acc {
        AheadOn(w, list, valid, t, t', c, next, acc, acc', x);
      } else {
        StaysLinked(w, list, t, t', c.address);
        WriterStepAt(w, list, t', t' + 1);
        LinkLeadsOn(w, t', list(t'), c.address, x.address);
      }
    }
  }

  /** One visit, and the walk goes on at the next entry. */
  lemma {:induction false} WalkGoesOn(w: Target, list: nat -> seq<nat>, valid: Symfile -> bool, s: nat, t: nat, t': nat,
                                      c: Uid, next: Uid, acc0: set<Uid>, acc: set<Uid>, acc': set<Uid>)
    requires Disciplined(w) && Written(w, list) && s <= t && Walking(w, list, valid, s, t, acc0, acc, c)
    requires Visited(w, valid, t, t', c, next, acc, acc')
    ensures Walking(w, list, valid, s, t', acc0, acc', next)
  {
    hide Disciplined, Written, Trailed, Swept, Passed, Loadable;
    SweptOn(w, list, valid, s, t, t', c, next, acc, acc');
    PassedOn(w, list, valid, t, t', c, next, acc0, acc, acc');
    TrailedOn(w, list, valid, t, t', c, next, acc0, acc, acc');
    ClosedLater(w, list, valid, t, t', acc0);
    HeldLater(w, list, t, t', acc);
    StaysLinked(w, list, t, t', c.address);
  }

  /** A walk starts at the head, with everything ahead of it. */
  lemma {:induction false} WalkBegins(w: Target, list: nat -> seq<nat>, valid: Symfile -> bool, t: nat, acc: set<Uid>,
                                      c: Uid)
    requires Written(w, list) && Settled(w, list, valid, t, acc)
    requires c.address == w.head(t) && (c.address != 0 ==> Lock(w, t, c.address) == c.seqlock && c.seqlock % 2 == 0)
    ensures Walking(w, list, valid, t, t, acc, acc, c)
  {
    hide Loadable, WriterStep;
    assert IsList(w, t, list(t)) && acc - acc == {};
    forall x: nat | x in list(t) ensures Ahead(list(t), c.address, x) {
      var i :| 0 <= i < |list(t)| && list(t)[i] == x;
      assert list(t)[0] == c.address;
    }
  }

  /** At the end of the list, or at an entry taken before, nothing is left out. */
  lemma {:induction false} WalkIsComplete(w: Target, list: nat -> seq<nat>, valid: Symfile -> bool, s: nat, t: nat,
                                          acc0: set<Uid>, acc: set<Uid>, c: Uid)
    requires Written(w, list) && Walking(w, list, valid, s, t, acc0, acc, c) && (c.address == 0 || c in acc)
    ensures Settled(w, list, valid, t, acc) && Complete(w, list, valid, s, t, acc)
  {
    hide Loadable, WriterStep, Before, IsList;
    WriterStepAt(w, list, t, t + 1);
    NotBeforeItself(list(t), c.address);
    assert c.address != 0 ==> c in acc0;
    forall x | Present(w, list, valid, t, x) && Ahead(list(t), c.address, x.address) ensures x in acc {
    }
  }

  /** Nothing taken, nothing missed. */
  lemma {:induction false} NothingHeld(w: Target, list: nat -> seq<nat>, valid: Symfile -> bool, t: nat)
    ensures Settled(w, list, valid, t, {})
  {
  }

  lemma {:induction false} CompleteLater(w: Target, list: nat -> seq<nat>, valid: Symfile -> bool, s: nat, t: nat,
                                         t': nat, acc: set<Uid>)
    requires Disciplined(w) && Written(w, list) && s <= t <= t' && Complete(w, list, valid, s, t, acc)
    ensures Complete(w, list, valid, s, t', acc)
  {
    hide Disciplined, Written, Loadable, Before;
    forall x | Present(w, list, valid, s, x) && Present(w, list, valid, t', x) ensures x in acc {
      AliveBetween(w, s, t, t', x.address);
      StaysLinked(w, list, s, t, x.address);
      LoadableStays(w, valid, s, t, x.address);
    }
  }

  // ---------- How long a walk is ----------

  /** How many entries are left from `a` on. */
  function Left(path: seq<nat>, a: nat): (n: nat)
    ensures n <= |path| && (a in path ==> n > 0 && path[|path| - n] == a)
  {
    if path == [] then 0 else if path[0] == a then |path| else Left(path[1..], a)
  }

  lemma {:induction false} LeftIs(path: seq<nat>, i: nat)
    requires Distinct(path) && i < |path|
    ensures Left(path, path[i]) == |path| - i
  {
    var n := Left(path, path[i]);
    assert path[|path| - n] == path[i];
  }

  lemma {:induction false} StepLeavesNoMore(w: Target, t: nat, before: seq<nat>, after: seq<nat>, a: nat)
    requires WriterStep(w, t, before, after) && a in before && Alive(w, t, t + 1, a)
    requires Distinct(before) && Distinct(after)
    ensures Left(after, a) <= Left(before, a)
  {
    hide Left;
    var i :| 0 <= i < |before| && before[i] == a;
    LeftIs(before, i);
    if Inserted(before, after) {
      assert after[i + 1] == a;
      LeftIs(after, i + 1);
    } else if after != before {
      var k: nat :| Unlinked(w, t, before, after, k);
      var j := if i < k then i else i - 1;
      assert i != k && after[j] == a;
      LeftIs(after, j);
    }
  }

  lemma {:induction false} LeavesNoMore(w: Target, list: nat -> seq<nat>, t: nat, t': nat, a: nat)
    requires Disciplined(w) && Written(w, list) && t <= t' && Alive(w, t, t', a) && a in list(t)
    ensures Left(list(t'), a) <= Left(list(t), a)
    decreases t' - t
  {
    hide Disciplined, Written, WriterStep, Left;
    if t < t' {
      var s := t' - 1;
      AliveBetween(w, t, s, t', a);
      LeavesNoMore(w, list, t, s, a);
      StaysLinked(w, list, t, s, a);
      WriterStepAt(w, list, s, t');
      StepLeavesNoMore(w, s, list(s), list(t'), a);
    }
  }

  lemma {:induction false} LinkLeavesLess(w: Target, t: nat, path: seq<nat>, a: nat)
    requires IsList(w, t, path) && a in path
    ensures var next := w.entry(t, a).next; next != 0 ==> Left(path, next) < Left(path, a)
  {
    hide Left;
    var i :| 0 <= i < |path| && path[i] == a;
    var j := i + 1;
    assert w.entry(t, path[i]).next == At(path, j);
    LeftIs(path, i);
    if j < |path| {
      LeftIs(path, j);
    }
  }

  /** Whatever writers do, a walk gets nearer to the end with every visit. */
  lemma {:induction false} WalkNearsEnd(w: Target, list: nat -> seq<nat>, valid: Symfile -> bool, t: nat, t': nat,
                                        c: Uid, next: Uid, acc: set<Uid>, acc': set<Uid>)
    requires Disciplined(w) && Written(w, list) && Visited(w, valid, t, t', c, next, acc, acc') && c.address in list(t)
    ensures next.address != 0 ==> Left(list(t'), next.address) < Left(list(t), c.address)
  {
    hide Disciplined, Written, Left, Loadable, IsList;
    StaysLinked(w, list, t, t', c.address);
    LeavesNoMore(w, list, t, t', c.address);
    WriterStepAt(w, list, t', t' + 1);
    LinkLeavesLess(w, t', list(t'), c.address);
  }

  /** No list is ever longer than `n`. */
  ghost predicate AtMost(list: nat -> seq<nat>, n: nat) {
    forall t: nat :: |list(t)| <= n
  }

  /** What is left of a walk fits `n`. */
  ghost predicate Fits(list: nat -> seq<nat>, t: nat, c: nat, n: nat) {
    c != 0 ==> Left(list(t), c) <= n
  }

  lemma {:induction false} FitsAtFirst(list: nat -> seq<nat>, t: nat, c: nat, n: nat)
    requires AtMost(list, n)
    ensures Fits(list, t, c, n)
  {
    hide Left;
  }

  lemma {:induction false} WalkHere(w: Target, list: nat -> seq<nat>, valid: Symfile -> bool, s: nat, t: nat,
                                    acc0: set<Uid>, acc: set<Uid>, c: Uid)
    requires Walking(w, list, valid, s, t, acc0, acc, c) && c.address != 0
    ensures c.address in list(t)
  {
    hide Trailed, Swept, Passed, Held;
  }

  lemma {:induction false} NotOverYet(w: Target, list: nat -> seq<nat>, valid: Symfile -> bool, s: nat, t: nat,
                                      acc0: set<Uid>, acc: set<Uid>, c: Uid, n: nat)
    requires Walking(w, list, valid, s, t, acc0, acc, c) && c.address != 0 && Fits(list, t, c.address, n)
    ensures n > 0
  {
    hide Trailed, Swept, Passed, Held;
  }
}
