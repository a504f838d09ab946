/** The updatable address map (unwindstack/Maps.cpp): map objects in a vector and
    in a doubly linked list, merged in place with a fresh reading of the maps
    file. */
module Maps {
  import opened Wrappers
  import opened MapRegions

  class MapInfo {
    const region: Region
    var prev: MapInfo?
    var next: MapInfo?

    constructor (prev: MapInfo?, region: Region)
      ensures this.region == region && this.prev == prev && this.next == null
    {
      this.region, this.prev, this.next := region, prev, null;
    }
  }

  // ---------- Sequences of map objects ----------

  ghost function Regions(ms: seq<MapInfo>): seq<Region> {
    seq(|ms|, i requires 0 <= i < |ms| => ms[i].region)
  }

  ghost predicate Distinct(ms: seq<MapInfo>) {
    forall i, j :: 0 <= i < j < |ms| ==> ms[i] != ms[j]
  }

  /** `prev` and `next` chain exactly `ms`, in order. */
  ghost predicate Linked(ms: seq<MapInfo>)
    reads ms
  {
    && (ms != [] ==> ms[0].prev == null && ms[|ms| - 1].next == null)
    && (forall i, j :: 0 <= i < j < |ms| && j == i + 1 ==> ms[i].next == ms[j] && ms[j].prev == ms[i])
  }

  /** Strictly increasing start addresses. */
  ghost predicate Rising(ms: seq<MapInfo>) {
    forall i, j :: 0 <= i < j < |ms| ==> ms[i].region.start < ms[j].region.start
  }

  lemma {:induction false} OrderedIsRising(ms: seq<MapInfo>)
    requires Ordered(Regions(ms))
    ensures Rising(ms)
  {
    forall i, j | 0 <= i < j < |ms| ensures ms[i].region.start < ms[j].region.start {
      assert Regions(ms)[i] == ms[i].region && Regions(ms)[j] == ms[j].region;
    }
  }

  // ---------- Sorting with the empty slots last ----------

  function NonNull(ms: seq<MapInfo?>): seq<MapInfo> {
    if ms == [] then []
    else (if ms[0] == null then [] else [ms[0]]) + NonNull(ms[1..])
  }

  /** The objects in a vector, as a multiset. */
  function Objects(ms: seq<MapInfo?>): multiset<MapInfo?> {
    multiset(ms)[null := 0]
  }

  function NullCount(ms: seq<MapInfo?>): nat {
    multiset(ms)[null]
  }

  lemma {:induction false} NonNullObjects(ms: seq<MapInfo?>)
    ensures multiset(NonNull(ms)) == Objects(ms) && |NonNull(ms)| == |ms| - NullCount(ms)
    decreases |ms|
  {
    if ms != [] {
      assert ms == [ms[0]] + ms[1..];
      NonNullObjects(ms[1..]);
    }
  }

  function Insert(m: MapInfo, sorted: seq<MapInfo>): seq<MapInfo> {
    if sorted == [] || m.region.start < sorted[0].region.start then [m] + sorted
    else [sorted[0]] + Insert(m, sorted[1..])
  }

  /** `std::sort` by start address. */
  function Sorted(ms: seq<MapInfo>): seq<MapInfo> {
    if ms == [] then [] else Insert(ms[0], Sorted(ms[1..]))
  }

  ghost predicate NonDecreasing(ms: seq<MapInfo>) {
    |ms| >= 2 ==> ms[0].region.start <= ms[1].region.start && NonDecreasing(ms[1..])
  }

  lemma {:induction false} HeadIsLeast(ms: seq<MapInfo>, i: nat)
    requires NonDecreasing(ms) && i < |ms|
    ensures ms[0].region.start <= ms[i].region.start
    decreases |ms|
  {
    if i > 0 {
      HeadIsLeast(ms[1..], i - 1);
    }
  }

  lemma {:induction false} InsertSorts(m: MapInfo, sorted: seq<MapInfo>)
    requires NonDecreasing(sorted)
    ensures NonDecreasing(Insert(m, sorted)) && Insert(m, sorted) != []
    ensures Insert(m, sorted)[0] == m || (sorted != [] && Insert(m, sorted)[0] == sorted[0])
    decreases |sorted|
  {
    var r := Insert(m, sorted);
    if sorted == [] || m.region.start < sorted[0].region.start {
      assert r[1..] == sorted;
    } else {
      InsertSorts(m, sorted[1..]);
      assert r[1..] == Insert(m, sorted[1..]);
    }
  }

  lemma {:induction false} InsertPermutes(m: MapInfo, sorted: seq<MapInfo>)
    ensures multiset(Insert(m, sorted)) == multiset(sorted) + multiset{m}
    decreases |sorted|
  {
    if sorted != [] && m.region.start >= sorted[0].region.start {
      assert sorted == [sorted[0]] + sorted[1..];
      InsertPermutes(m, sorted[1..]);
    }
  }

  lemma {:induction false} SortSorts(ms: seq<MapInfo>)
    ensures NonDecreasing(Sorted(ms)) && multiset(Sorted(ms)) == multiset(ms)
    decreases |ms|
  {
    if ms != [] {
      assert ms == [ms[0]] + ms[1..];
      SortSorts(ms[1..]);
      InsertSorts(ms[0], Sorted(ms[1..]));
      InsertPermutes(ms[0], Sorted(ms[1..]));
    }
  }

  lemma {:induction false} FirstsAgree(a: seq<MapInfo>, b: seq<MapInfo>)
    requires NonDecreasing(a) && Rising(b) && multiset(a) == multiset(b) && a != [] && b != []
    ensures a[0] == b[0]
  {
    assert a[0] in multiset(b) && b[0] in multiset(a);
    var i :| 0 <= i < |a| && a[i] == b[0];
    HeadIsLeast(a, i);
    var j :| 0 <= j < |b| && b[j] == a[0];
    assert b[0].region.start <= b[j].region.start;
  }

  /** Sorting finds the one rising arrangement, if there is one. */
  lemma {:induction false} RisingIsUnique(a: seq<MapInfo>, b: seq<MapInfo>)
    requires NonDecreasing(a) && Rising(b) && multiset(a) == multiset(b)
    ensures a == b
    decreases |a|
  {
    assert |a| == |multiset(a)| == |b|;
    if a != [] {
      FirstsAgree(a, b);
      assert a == [a[0]] + a[1..] && b == [b[0]] + b[1..];
      assert multiset(a[1..]) == multiset(a) - multiset{a[0]};
      assert Rising(b[1..]);
      RisingIsUnique(a[1..], b[1..]);
    }
  }

  /** The vector after sorting: objects by start address, empty slots behind. */
  function SortSlots(slots: seq<MapInfo?>): seq<MapInfo?> {
    Sorted(NonNull(slots)) + seq(NullCount(slots), _ => null)
  }

  /** Sorting the slots and dropping as many as are empty leaves the rising
      sequence of the objects in them. */
  lemma {:induction false} SortAndShrink(slots: seq<MapInfo?>, chain: seq<MapInfo>)
    requires Rising(chain) && multiset(chain) == Objects(slots)
    ensures |SortSlots(slots)| == |slots|
    ensures SortSlots(slots)[..|slots| - NullCount(slots)] == chain
  {
    NonNullObjects(slots);
    SortSorts(NonNull(slots));
    assert |Sorted(NonNull(slots))| == |multiset(NonNull(slots))| == |NonNull(slots)|;
    RisingIsUnique(Sorted(NonNull(slots)), chain);
  }

  // ---------- The merge ----------

  predicate Same(a: MapInfo, b: MapInfo) {
    KeyOf(a.region) == KeyOf(b.region)
  }

  ghost predicate InOlds(olds: seq<MapInfo>, m: MapInfo) {
    exists j :: 0 <= j < |olds| && olds[j] == m
  }

  /** The object that stands for the i-th new region: the old one with the same
      key, or the new one if there is none. */
  ghost predicate Picked(olds: seq<MapInfo>, fresh_: MapInfo, m: MapInfo) {
    && Same(m, fresh_)
    && (m == fresh_ ==> forall j :: 0 <= j < |olds| ==> !Same(olds[j], fresh_))
    && (m != fresh_ ==> InOlds(olds, m))
  }

  /** `search` splits the old maps at the last new start looked at. */
  ghost predicate SplitAt(olds: seq<MapInfo>, news: seq<MapInfo>, k: nat, search: nat)
    requires k <= |news| && search <= |olds|
  {
    && (forall j :: 0 <= j < search ==> k > 0 && olds[j].region.start <= news[k - 1].region.start)
    && (k > 0 ==> forall j :: search <= j < |olds| ==> news[k - 1].region.start < olds[j].region.start)
  }

  /** The vector, the linked chain and the counters after `k` new maps. */
  ghost predicate Merging(olds: seq<MapInfo>, news: seq<MapInfo>, slots: seq<MapInfo?>, chain: seq<MapInfo>, k: nat,
                          search: nat)
  {
    && |slots| == |olds| + |news| && |chain| == |news| && k <= |news| && search <= |olds|
    && Objects(slots) == multiset(chain) + multiset(olds[search..])
    && (forall j :: search <= j < |olds| ==> slots[j] == olds[j])
    && (forall i :: k <= i < |news| ==> slots[|olds| + i] == news[i] && chain[i] == news[i])
    && (forall i :: 0 <= i < k ==> Picked(olds, news[i], chain[i]))
  }

  /** How many slots are empty, and whose. */
  ghost predicate Counted(news: seq<MapInfo>, slots: seq<MapInfo?>, chain: seq<MapInfo>, k: nat, search: nat,
                          deletedOld: nat, deletedNew: nat)
    requires |chain| == |news| && k <= |news|
  {
    && NullCount(slots) == search == deletedOld + deletedNew
    && deletedNew <= k
    && (deletedNew == k <==> forall i :: 0 <= i < k ==> chain[i] != news[i])
  }

  lemma {:induction false} NullSlot(slots: seq<MapInfo?>, i: nat)
    requires i < |slots| && slots[i] != null
    ensures Objects(slots[i := null]) == Objects(slots) - multiset{slots[i]}
    ensures NullCount(slots[i := null]) == NullCount(slots) + 1
  {
  }

  /** The slots of the old maps in `search0..search` have been emptied. */
  ghost predicate Emptied(olds: seq<MapInfo>, search0: nat, slots0: seq<MapInfo?>, bag: multiset<MapInfo?>,
                          search: nat, slots: seq<MapInfo?>)
  {
    && search0 <= search <= |olds| <= |slots| == |slots0|
    && slots[|olds|..] == slots0[|olds|..]
    && (forall j :: search <= j < |olds| ==> slots[j] == olds[j])
    && Objects(slots) == bag + multiset(olds[search..])
    && NullCount(slots) == NullCount(slots0) + search - search0
  }

  lemma {:induction false} EmptyNext(olds: seq<MapInfo>, search0: nat, slots0: seq<MapInfo?>, bag: multiset<MapInfo?>,
                                     search: nat, slots: seq<MapInfo?>)
    requires Emptied(olds, search0, slots0, bag, search, slots) && search < |olds|
    ensures search < |slots| && Emptied(olds, search0, slots0, bag, search + 1, slots[search := null])
    ensures multiset(olds[search..]) == multiset{olds[search]} + multiset(olds[search + 1..])
  {
    hide Objects, NullCount;
    NullSlot(slots, search);
    FirstAndRest(olds, search);
    assert slots[search := null][|olds|..] == slots[|olds|..];
  }

  lemma {:induction false} FirstAndRest(olds: seq<MapInfo>, search: nat)
    requires search < |olds|
    ensures multiset(olds[search..]) == multiset{olds[search]} + multiset(olds[search + 1..])
  {
    assert olds[search..] == [olds[search]] + olds[search + 1..];
  }

  /** Looks for `fresh_` among the old maps from `search` on, emptying the slots
      of the old maps it passes. */
  method ScanOld(olds: seq<MapInfo>, fresh_: MapInfo, search0: nat, slots0: seq<MapInfo?>, deleted0: nat,
                 ghost bag: multiset<MapInfo?>)
    returns (slots: seq<MapInfo?>, search: nat, found: Option<nat>, deleted: nat)
    requires Rising(olds) && search0 <= |olds| <= |slots0| && Emptied(olds, search0, slots0, bag, search0, slots0)
    ensures search0 <= search <= |olds| && (found.Some? ==> search0 <= found.value == search - 1)
    ensures forall j :: search0 <= j < search ==> olds[j].region.start <= fresh_.region.start
    ensures forall j :: search <= j < |olds| ==> fresh_.region.start < olds[j].region.start
    ensures forall j :: search0 <= j < |olds| ==> (Same(olds[j], fresh_) <==> found == Some(j))
    ensures Emptied(olds, search0, slots0, bag, if found.Some? then found.value else search, slots)
    ensures deleted == deleted0 + (if found.Some? then found.value else search) - search0
  {
    hide Emptied;
    slots, search, found, deleted := slots0, search0, None, deleted0;
    while search < |olds|
      invariant search0 <= search <= |olds| <= |slots|
      invariant Emptied(olds, search0, slots0, bag, search, slots)
      invariant found.None? && deleted == deleted0 + search - search0
      invariant forall j :: search0 <= j < search ==>
                  olds[j].region.start <= fresh_.region.start && !Same(olds[j], fresh_)
    {
      if Same(olds[search], fresh_) {
        found, search := Some(search), search + 1;
        break;
      } else if fresh_.region.start < olds[search].region.start {
        break;
      }
      EmptyNext(olds, search0, slots0, bag, search, slots);
      slots := slots[search := null];
      deleted := deleted + 1;
      search := search + 1;
    }
  }

  // ---------- Relinking ----------

  /** Puts `info` in the place of `chain[k]` in the linked list. */
  method Relink(ghost chain: seq<MapInfo>, k: nat, fresh_: MapInfo, info: MapInfo)
    requires Linked(chain) && Distinct(chain) && k < |chain| && chain[k] == fresh_ && info !in chain
    modifies chain, info
    ensures Linked(chain[k := info])
  {
    var prev, next := fresh_.prev, fresh_.next;
    assert chain[k].prev == (if k == 0 then null else chain[k - 1]);
    assert chain[k].next == (if k + 1 == |chain| then null else chain[k + 1]);
    info.prev := prev;
    info.next := next;
    if prev != null {
      prev.next := info;
    }
    if next != null {
      next.prev := info;
    }
  }

  /** Reads the maps file into new objects, linked in file order. */
  method Parse(lines: seq<Region>) returns (ms: seq<MapInfo>)
    ensures Regions(ms) == Flagged(lines) && Linked(ms) && Distinct(ms)
    ensures forall i :: 0 <= i < |ms| ==> fresh(ms[i])
  {
    ms := [];
    var prev: MapInfo? := null;
    var i := 0;
    while i < |lines|
      invariant 0 <= i <= |lines| && |ms| == i
      invariant Regions(ms) == Flagged(lines)[..i] && Linked(ms) && Distinct(ms)
      invariant forall j :: 0 <= j < |ms| ==> fresh(ms[j])
      invariant prev == if i == 0 then null else ms[i - 1]
    {
      var m := new MapInfo(prev, WithDeviceFlag(lines[i]));
      if prev != null {
        prev.next := m;
      }
      ms := ms + [m];
      prev := m;
      i := i + 1;
    }
    assert Flagged(lines)[..|lines|] == Flagged(lines);
  }

  // ---------- One new map ----------

  lemma {:induction false} ChainRises(olds: seq<MapInfo>, news: seq<MapInfo>, slots: seq<MapInfo?>,
                                      chain: seq<MapInfo>, k: nat, search: nat)
    requires Rising(news) && Merging(olds, news, slots, chain, k, search)
    ensures Rising(chain)
  {
    assert forall i :: 0 <= i < |news| ==> chain[i].region.start == news[i].region.start;
  }

  /** An old map at or behind `search` is not in the chain yet. */
  lemma {:induction false} AheadIsUnused(olds: seq<MapInfo>, news: seq<MapInfo>, slots: seq<MapInfo?>,
                                         chain: seq<MapInfo>,
                                         k: nat, search: nat, m: nat)
    requires Rising(olds) && Rising(news) && Merging(olds, news, slots, chain, k, search) &&
               SplitAt(olds, news, k, search)
    requires search <= m < |olds| && olds[m] !in news
    ensures olds[m] !in chain
  {
    forall i | 0 <= i < |chain| ensures chain[i] != olds[m] {
      if i < k && chain[i] != news[i] {
        assert Same(chain[i], news[i]);
        assert news[i].region.start <= news[k - 1].region.start < olds[m].region.start;
      }
    }
  }

  /** A new map without a counterpart keeps its slot and its place. */
  lemma {:induction false} StepUnmatched(olds: seq<MapInfo>, news: seq<MapInfo>, slots: seq<MapInfo?>,
                                         slots': seq<MapInfo?>,
                                         chain: seq<MapInfo>, k: nat, search: nat, search': nat)
    requires Rising(news) && Merging(olds, news, slots, chain, k, search) && SplitAt(olds, news, k, search) &&
               k < |news|
    requires Emptied(olds, search, slots, multiset(chain), search', slots')
    requires forall j :: search <= j < |olds| ==> !Same(olds[j], news[k])
    ensures Merging(olds, news, slots', chain, k + 1, search')
  {
    forall i | k <= i < |news| ensures slots'[|olds| + i] == news[i] {
      assert slots'[|olds|..][i] == slots[|olds|..][i];
    }
    forall j | 0 <= j < search ensures !Same(olds[j], news[k]) {
      assert olds[j].region.start <= news[k - 1].region.start < news[k].region.start;
    }
    assert Picked(olds, news[k], chain[k]);
  }

  lemma {:induction false} MatchedBag(olds: seq<MapInfo>, slots: seq<MapInfo?>, chain: seq<MapInfo>, p: nat, k: nat,
                                      m: nat)
    requires p < |slots| && k < |chain| && m < |olds| && slots[p] == chain[k]
    requires Objects(slots) == multiset(chain) + multiset(olds[m..])
    ensures Objects(slots[p := null]) == multiset(chain[k := olds[m]]) + multiset(olds[m + 1..])
    ensures NullCount(slots[p := null]) == NullCount(slots) + 1
  {
    NullSlot(slots, p);
    assert olds[m..] == [olds[m]] + olds[m + 1..];
    ReplaceInBag(chain, k, olds[m]);
  }

  lemma {:induction false} PickedAfterMatch(olds: seq<MapInfo>, news: seq<MapInfo>, chain: seq<MapInfo>, k: nat, m: nat)
    requires |chain| == |news| && k < |news| && m < |olds| && Same(olds[m], news[k]) && olds[m] != news[k]
    requires forall i :: 0 <= i < k ==> Picked(olds, news[i], chain[i])
    ensures forall i :: 0 <= i < k + 1 ==> Picked(olds, news[i], chain[k := olds[m]][i])
  {
    assert InOlds(olds, olds[m]);
  }

  /** A new map with a counterpart gives up its slot and its place to it. */
  lemma {:induction false} StepMatched(olds: seq<MapInfo>, news: seq<MapInfo>, slots: seq<MapInfo?>,
                                       slots': seq<MapInfo?>,
                                       chain: seq<MapInfo>, k: nat, search: nat, m: nat)
    requires Merging(olds, news, slots, chain, k, search) && k < |news|
    requires Emptied(olds, search, slots, multiset(chain), m, slots') && m < |olds|
    requires Same(olds[m], news[k]) && olds[m] != news[k]
    ensures slots'[|olds| + k] == news[k]
    ensures Merging(olds, news, slots'[|olds| + k := null], chain[k := olds[m]], k + 1, m + 1)
    ensures NullCount(slots'[|olds| + k := null]) == NullCount(slots') + 1
  {
    hide Picked, Objects, NullCount;
    forall i | k <= i < |news| ensures slots'[|olds| + i] == news[i] {
      assert slots'[|olds|..][i] == slots[|olds|..][i];
    }
    MatchedBag(olds, slots', chain, |olds| + k, k, m);
    PickedAfterMatch(olds, news, chain, k, m);
  }

  lemma {:induction false} ReplaceInBag(chain: seq<MapInfo>, k: nat, m: MapInfo)
    requires k < |chain|
    ensures multiset(chain[k := m]) == multiset(chain) - multiset{chain[k]} + multiset{m}
  {
  }

  // ---------- All of them ----------

  lemma {:induction false} NoNulls(olds: seq<MapInfo>, news: seq<MapInfo>)
    ensures NullCount(olds + news) == 0 && Objects(olds + news) == multiset(news) + multiset(olds[0..])
  {
    assert olds[0..] == olds;
    var slots: seq<MapInfo?> := olds + news;
    assert forall i :: 0 <= i < |slots| ==> slots[i] != null;
  }

  /** The old maps behind the last one looked at have no counterpart either. */
  method EmptyRest(olds: seq<MapInfo>, search0: nat, slots0: seq<MapInfo?>, deleted0: nat,
                   ghost bag: multiset<MapInfo?>)
    returns (slots: seq<MapInfo?>, deleted: nat)
    requires Emptied(olds, search0, slots0, bag, search0, slots0)
    ensures Emptied(olds, search0, slots0, bag, |olds|, slots)
    ensures deleted == deleted0 + |olds| - search0
  {
    slots, deleted := slots0, deleted0;
    var i := search0;
    while i < |olds|
      invariant Emptied(olds, search0, slots0, bag, i, slots)
      invariant deleted == deleted0 + i - search0
    {
      EmptyNext(olds, search0, slots0, bag, i, slots);
      slots := slots[i := null];
      deleted := deleted + 1;
      i := i + 1;
    }
  }

  lemma {:induction false} RestIsPicked(olds: seq<MapInfo>, news: seq<MapInfo>, slots: seq<MapInfo?>,
                                        chain: seq<MapInfo>, k: nat, search: nat)
    requires Rising(news) && Merging(olds, news, slots, chain, k, search) && SplitAt(olds, news, k, search)
    requires k == |news| || search == |olds|
    ensures forall i :: 0 <= i < |news| ==> Picked(olds, news[i], chain[i])
  {
    forall i | k <= i < |news| ensures Picked(olds, news[i], chain[i]) {
      forall j | 0 <= j < |olds| ensures !Same(olds[j], news[i]) {
        assert olds[j].region.start <= news[k - 1].region.start < news[i].region.start;
      }
    }
  }

  ghost predicate Progress(olds: seq<MapInfo>, news: seq<MapInfo>, slots: seq<MapInfo?>, chain: seq<MapInfo>, k: nat,
                           search: nat,
                           deletedOld: nat, deletedNew: nat)
  {
    && Merging(olds, news, slots, chain, k, search) && SplitAt(olds, news, k, search)
    && Counted(news, slots, chain, k, search, deletedOld, deletedNew)
  }

  lemma {:induction false} ProgressStart(olds: seq<MapInfo>, news: seq<MapInfo>, slots: seq<MapInfo?>,
                                         chain: seq<MapInfo>, k: nat,
                                         search: nat, deletedOld: nat, deletedNew: nat)
    requires Progress(olds, news, slots, chain, k, search, deletedOld, deletedNew)
    ensures search <= |olds| <= |slots| == |olds| + |news|
    ensures Emptied(olds, search, slots, multiset(chain), search, slots)
  {
  }

  lemma {:induction false} ProgressUnmatched(olds: seq<MapInfo>, news: seq<MapInfo>, slots: seq<MapInfo?>,
                                             slots': seq<MapInfo?>,
                                             chain: seq<MapInfo>, k: nat, search: nat, search': nat, deletedOld: nat,
                                             deletedNew: nat)
    requires Rising(news) && k < |news| && Progress(olds, news, slots, chain, k, search, deletedOld, deletedNew)
    requires Emptied(olds, search, slots, multiset(chain), search', slots')
    requires forall j :: search <= j < |olds| ==> !Same(olds[j], news[k])
    requires forall j :: search <= j < search' ==> olds[j].region.start <= news[k].region.start
    requires forall j :: search' <= j < |olds| ==> news[k].region.start < olds[j].region.start
    ensures Progress(olds, news, slots', chain, k + 1, search', deletedOld + search' - search, deletedNew)
  {
    StepUnmatched(olds, news, slots, slots', chain, k, search, search');
    forall j | 0 <= j < search ensures olds[j].region.start <= news[k].region.start {
      assert olds[j].region.start <= news[k - 1].region.start < news[k].region.start;
    }
    assert chain[k] == news[k];
  }

  lemma {:induction false} ProgressMatched(olds: seq<MapInfo>, news: seq<MapInfo>, slots: seq<MapInfo?>,
                                           slots': seq<MapInfo?>,
                                           chain: seq<MapInfo>, k: nat, search: nat, m: nat, deletedOld: nat,
                                           deletedNew: nat)
    requires Rising(olds) && Rising(news) && k < |news| && m < |olds| && search <= m
    requires Progress(olds, news, slots, chain, k, search, deletedOld, deletedNew)
    requires Emptied(olds, search, slots, multiset(chain), m, slots')
    requires Same(olds[m], news[k]) && olds[m] !in news
    ensures |slots'| == |olds| + |news| && |chain| == |news| && chain[k] == news[k] && Distinct(chain) &&
              olds[m] !in chain
    ensures Progress(olds, news, slots'[|olds| + k := null], chain[k := olds[m]], k + 1, m + 1,
              deletedOld + m - search, deletedNew + 1)
  {
    ChainRises(olds, news, slots, chain, k, search);
    AheadIsUnused(olds, news, slots, chain, k, search, m);
    StepMatched(olds, news, slots, slots', chain, k, search, m);
    forall j | 0 <= j <= m ensures olds[j].region.start <= news[k].region.start {
      assert olds[j].region.start <= olds[m].region.start;
    }
    assert Counted(news, slots'[|olds| + k := null], chain[k := olds[m]], k + 1, m + 1, deletedOld + m - search,
             deletedNew + 1) by {
      assert forall i :: 0 <= i < k ==> chain[k := olds[m]][i] == chain[i];
      assert olds[m] != news[k];
    }
  }

  /** One turn of the loop over the new maps. */
  method MergeOne(olds: seq<MapInfo>, news: seq<MapInfo>, k: nat, search0: nat, slots0: seq<MapInfo?>,
                  deletedOld0: nat, deletedNew0: nat, ghost chain0: seq<MapInfo>)
    returns (slots: seq<MapInfo?>, search: nat, deletedOld: nat, deletedNew: nat, ghost chain: seq<MapInfo>)
    requires Rising(olds) && Rising(news) && Linked(chain0) && k < |news|
    requires forall j :: 0 <= j < |olds| ==> olds[j] !in news
    requires Progress(olds, news, slots0, chain0, k, search0, deletedOld0, deletedNew0)
    modifies olds, chain0
    ensures Progress(olds, news, slots, chain, k + 1, search, deletedOld, deletedNew) && Linked(chain)
    ensures search <= |olds|
    ensures forall i :: 0 <= i < |chain| ==> chain[i] in chain0 || chain[i] in olds
  {
    hide Progress, Emptied;
    ProgressStart(olds, news, slots0, chain0, k, search0, deletedOld0, deletedNew0);
    var found;
    slots, search, found, deletedOld := ScanOld(olds, news[k], search0, slots0, deletedOld0, multiset(chain0));
    deletedNew, chain := deletedNew0, chain0;
    if found.Some? {
      var m := found.value;
      ProgressMatched(olds, news, slots0, slots, chain, k, search0, m, deletedOld0, deletedNew0);
      Relink(chain, k, news[k], olds[m]);
      chain := chain[k := olds[m]];
      slots := slots[|olds| + k := null];
      deletedNew := deletedNew + 1;
    } else {
      ProgressUnmatched(olds, news, slots0, slots, chain, k, search0, search, deletedOld0, deletedNew0);
    }
  }

  /** What the merge leaves: the chain in address order, every object of it in
      one slot, and as many empty slots as were counted. */
  ghost predicate Merged(olds: seq<MapInfo>, news: seq<MapInfo>, slots: seq<MapInfo?>, chain: seq<MapInfo>,
                         deletedOld: nat, deletedNew: nat)
  {
    && |chain| == |news| && Rising(chain)
    && (forall i :: 0 <= i < |news| ==> Picked(olds, news[i], chain[i]))
    && |slots| == |olds| + |news| && multiset(chain) == Objects(slots)
    && NullCount(slots) == |olds| == deletedOld + deletedNew
    && (deletedNew == |news| <==> forall i :: 0 <= i < |news| ==> chain[i] != news[i])
  }

  lemma {:induction false} MergeDone(olds: seq<MapInfo>, news: seq<MapInfo>, slots: seq<MapInfo?>,
                                     slots': seq<MapInfo?>,
                                     chain: seq<MapInfo>, k: nat, search: nat, deletedOld: nat, deletedNew: nat)
    requires Rising(news) && Progress(olds, news, slots, chain, k, search, deletedOld, deletedNew)
    requires k == |news| || search == |olds|
    requires Emptied(olds, search, slots, multiset(chain), |olds|, slots')
    ensures Merged(olds, news, slots', chain, deletedOld + |olds| - search, deletedNew)
  {
    ChainRises(olds, news, slots, chain, k, search);
    RestIsPicked(olds, news, slots, chain, k, search);
    assert olds[|olds|..] == [];
    assert k < |news| ==> chain[k] == news[k];
  }

  lemma {:induction false} NoProgressYet(olds: seq<MapInfo>, news: seq<MapInfo>)
    requires Rising(olds) && Rising(news) && forall j :: 0 <= j < |olds| ==> olds[j] !in news
    ensures Progress(olds, news, olds + news, news, 0, 0, 0, 0)
  {
    NoNulls(olds, news);
  }

  /** The loop over the new maps. */
  method MergeLoop(olds: seq<MapInfo>, news: seq<MapInfo>)
    returns (slots: seq<MapInfo?>, k: nat, search: nat, deletedOld: nat, deletedNew: nat, ghost chain: seq<MapInfo>)
    requires Rising(olds) && Rising(news) && Linked(news)
    requires forall j :: 0 <= j < |olds| ==> olds[j] !in news
    modifies olds, news
    ensures Progress(olds, news, slots, chain, k, search, deletedOld, deletedNew) && (k == |news| || search == |olds|)
    ensures Linked(chain)
  {
    hide Progress, Linked, Rising;
    slots, deletedOld, deletedNew, chain := olds + news, 0, 0, news;
    search, k := 0, 0;
    NoProgressYet(olds, news);
    while k < |news| && search < |olds|
      invariant 0 <= k <= |news| && 0 <= search <= |olds|
      invariant Progress(olds, news, slots, chain, k, search, deletedOld, deletedNew)
      invariant Linked(chain) && forall i :: 0 <= i < |chain| ==> chain[i] in news || chain[i] in olds
    {
      slots, search, deletedOld, deletedNew, chain :=
        MergeOne(olds, news, k, search, slots, deletedOld, deletedNew, chain);
      k := k + 1;
    }
  }

  /** Merges the new maps into the vector and the linked list. */
  method MergeSlots(olds: seq<MapInfo>, news: seq<MapInfo>)
    returns (slots: seq<MapInfo?>, deletedOld: nat, deletedNew: nat, ghost chain: seq<MapInfo>)
    requires Rising(olds) && Rising(news) && Linked(news)
    requires forall j :: 0 <= j < |olds| ==> olds[j] !in news
    modifies olds, news
    ensures Merged(olds, news, slots, chain, deletedOld, deletedNew) && Linked(chain)
  {
    var k, search;
    slots, k, search, deletedOld, deletedNew, chain := MergeLoop(olds, news);
    ghost var slots0, counted := slots, deletedOld;
    slots, deletedOld := EmptyRest(olds, search, slots, deletedOld, multiset(chain));
    MergeDone(olds, news, slots0, slots, chain, k, search, counted, deletedNew);
  }

  // ---------- What changed ----------

  /** All new maps have an old counterpart, and no old map is left over, exactly
      when both lists hold the same keys. */
  lemma {:induction false} UnchangedIff(olds: seq<MapInfo>, news: seq<MapInfo>, chain: seq<MapInfo>)
    requires Rising(olds) && Rising(news) && Rising(chain) && |chain| == |news|
    requires forall j :: 0 <= j < |olds| ==> olds[j] !in news
    requires forall i :: 0 <= i < |news| ==> Picked(olds, news[i], chain[i])
    ensures (|olds| == |news| && forall i :: 0 <= i < |news| ==> chain[i] != news[i]) <==>
            Keys(Regions(olds)) == Keys(Regions(news))
  {
    if |olds| == |news| && forall i :: 0 <= i < |news| ==> chain[i] != news[i] {
      forall i | 0 <= i < |news| ensures KeyOf(olds[i].region) == KeyOf(news[i].region) {
        SubsequenceIsWhole(olds, chain, i);
        assert Same(chain[i], news[i]);
      }
    }
    if Keys(Regions(olds)) == Keys(Regions(news)) {
      assert |olds| == |Keys(Regions(olds))| == |news|;
      forall i | 0 <= i < |news| ensures chain[i] != news[i] {
        assert Keys(Regions(olds))[i] == Keys(Regions(news))[i];
        assert Same(olds[i], news[i]);
      }
    }
  }

  /** As many rising picks from `olds` as it has elements are all of it. */
  lemma {:induction false} SubsequenceIsWhole(olds: seq<MapInfo>, chain: seq<MapInfo>, i: nat)
    requires Rising(olds) && Rising(chain) && |olds| == |chain| && i < |olds|
    requires forall k :: 0 <= k < |chain| ==> InOlds(olds, chain[k])
    ensures chain[i] == olds[i]
  {
    AtLeast(olds, chain, i);
    AtMost(olds, chain, i);
    assert InOlds(olds, chain[i]);
    var j :| 0 <= j < |olds| && olds[j] == chain[i];
  }

  lemma {:induction false} AtLeast(olds: seq<MapInfo>, chain: seq<MapInfo>, i: nat)
    requires Rising(olds) && Rising(chain) && |olds| == |chain| && i < |olds|
    requires forall k :: 0 <= k < |chain| ==> InOlds(olds, chain[k])
    ensures olds[i].region.start <= chain[i].region.start
    decreases i
  {
    assert InOlds(olds, chain[i]);
    var j :| 0 <= j < |olds| && olds[j] == chain[i];
    if i > 0 {
      AtLeast(olds, chain, i - 1);
      assert chain[i - 1].region.start < chain[i].region.start;
    }
  }

  lemma {:induction false} AtMost(olds: seq<MapInfo>, chain: seq<MapInfo>, i: nat)
    requires Rising(olds) && Rising(chain) && |olds| == |chain| && i < |olds|
    requires forall k :: 0 <= k < |chain| ==> InOlds(olds, chain[k])
    ensures chain[i].region.start <= olds[i].region.start
    decreases |olds| - i
  {
    assert InOlds(olds, chain[i]);
    var j :| 0 <= j < |olds| && olds[j] == chain[i];
    if i + 1 < |olds| {
      AtMost(olds, chain, i + 1);
      assert chain[i].region.start < chain[i + 1].region.start;
    }
  }

  lemma {:induction false} PickedRegions(olds: seq<MapInfo>, news: seq<MapInfo>, chain: seq<MapInfo>)
    requires Ordered(Regions(olds)) && |chain| == |news|
    requires forall i :: 0 <= i < |news| ==> Picked(olds, news[i], chain[i])
    ensures Regions(chain) == Reparsed(Regions(olds), Regions(news))
  {
    var was := Regions(olds);
    forall i | 0 <= i < |news|
      ensures chain[i].region == Kept(was, news[i].region)
    {
      if chain[i] == news[i] {
        assert !Holds(was, KeyOf(news[i].region)) by {
          if Holds(was, KeyOf(news[i].region)) {
            var j :| 0 <= j < |was| && KeyOf(was[j]) == KeyOf(news[i].region);
            assert Same(olds[j], news[i]);
          }
        }
      } else {
        assert InOlds(olds, chain[i]);
        var j :| 0 <= j < |olds| && olds[j] == chain[i];
        assert was[j] == chain[i].region;
        KeptIs(was, news[i].region, j);
      }
    }
  }

  /** Every object that stayed is the old one for its key. */
  lemma {:induction false} StayedIsOld(olds: seq<MapInfo>, news: seq<MapInfo>, chain: seq<MapInfo>, i: nat, j: nat)
    requires Rising(olds) && |chain| == |news| && i < |chain| && j < |olds| && Picked(olds, news[i], chain[i])
    requires Same(olds[j], chain[i])
    ensures chain[i] == olds[j]
  {
    assert chain[i] != news[i];
    assert InOlds(olds, chain[i]);
    var k :| 0 <= k < |olds| && olds[k] == chain[i];
  }

  /** What a successful merge means for the regions. */
  lemma {:induction false} MergedRegions(olds: seq<MapInfo>, news: seq<MapInfo>, slots: seq<MapInfo?>,
                                         chain: seq<MapInfo>,
                                         deletedOld: nat, deletedNew: nat)
    requires Ordered(Regions(olds)) && Ordered(Regions(news)) &&
               Merged(olds, news, slots, chain, deletedOld, deletedNew)
    requires forall j :: 0 <= j < |olds| ==> olds[j] !in news
    ensures Regions(chain) == Reparsed(Regions(olds), Regions(news)) && Ordered(Regions(chain))
    ensures (deletedOld != 0 || |chain| != |olds|) <==> Keys(Regions(olds)) != Keys(Regions(news))
    ensures |SortSlots(slots)| == |slots| && SortSlots(slots)[..|slots| - deletedOld - deletedNew] == chain
    ensures forall i, j :: 0 <= i < |chain| && 0 <= j < |olds| && Same(olds[j], chain[i]) ==> chain[i] == olds[j]
    ensures forall i :: 0 <= i < |chain| ==> chain[i] in olds || chain[i] in news
  {
    OrderedIsRising(olds);
    OrderedIsRising(news);
    forall i, j | 0 <= i < |chain| && 0 <= j < |olds| && Same(olds[j], chain[i]) ensures chain[i] == olds[j] {
      StayedIsOld(olds, news, chain, i, j);
    }
    PickedRegions(olds, news, chain);
    ReparsedLikeFresh(Regions(olds), Regions(news));
    UnchangedIff(olds, news, chain);
    SortAndShrink(slots, chain);
  }

  class LocalUpdatableMaps {
    var maps: seq<MapInfo>

    ghost predicate Valid()
      reads this, maps
    {
      Ordered(Regions(maps)) && Linked(maps)
    }

    constructor ()
      ensures maps == [] && Valid()
    {
      maps := [];
    }

    /** The map that holds `pc`. */
    method FindMap(pc: nat) returns (r: MapInfo?)
      requires Valid()
      ensures r != null ==> r in maps && r.region.start <= pc < r.region.end
      ensures r == null ==> forall i :: 0 <= i < |maps| ==> !(maps[i].region.start <= pc < maps[i].region.end)
    {
      var first, last := 0, |maps|;
      while first < last
        invariant 0 <= first <= last <= |maps|
        invariant forall i :: 0 <= i < first ==> maps[i].region.end <= pc
        invariant forall i :: last <= i < |maps| ==> pc < maps[i].region.start
      {
        var index := (first + last) / 2;
        var cur := maps[index];
        assert forall i :: 0 <= i < |maps| ==> Regions(maps)[i] == maps[i].region;
        if cur.region.start <= pc < cur.region.end {
          return cur;
        } else if pc < cur.region.start {
          last := index;
        } else {
          first := index + 1;
        }
      }
      return null;
    }

    /** Re-reads the maps file. `parsed` tells whether all of it could be read. */
    method Reparse(lines: seq<Region>, parsed: bool) returns (ok: bool, anyChanged: bool)
      requires Valid() && Ordered(Flagged(lines))
      modifies this, maps
      ensures Valid() && ok == parsed
      ensures !ok ==> maps == old(maps)
      ensures ok ==> Regions(maps) == Reparsed(Regions(old(maps)), Flagged(lines))
      ensures ok ==> forall i :: 0 <= i < |maps| ==> maps[i] in old(maps) || fresh(maps[i])
      ensures ok ==> forall i, j :: 0 <= i < |maps| && 0 <= j < |old(maps)| && Same(old(maps)[j], maps[i]) ==>
                maps[i] == old(maps)[j]
      ensures ok ==> (anyChanged <==> Keys(Regions(old(maps))) != Keys(Flagged(lines)))
    {
      hide Merged, Reparsed, SortSlots;
      var news := Parse(lines);
      if !parsed {
        return false, false;
      }
      var olds := maps;
      OrderedIsRising(olds);
      OrderedIsRising(news);
      var slots, deletedOld, deletedNew, chain := MergeSlots(olds, news);
      MergedRegions(olds, news, slots, chain, deletedOld, deletedNew);
      maps := SortSlots(slots)[..|slots| - deletedOld - deletedNew];
      anyChanged := deletedOld != 0 || |maps| != |olds|;
      ok := true;
    }

    ghost predicate Holds(pc: nat)
      reads this, maps
    {
      exists i :: 0 <= i < |maps| && maps[i].region.start <= pc < maps[i].region.end
    }

    /** Finds the map that holds `pc`, re-reading the maps file once when none does. */
    method Find(pc: nat, lines: seq<Region>, parsed: bool) returns (r: MapInfo?)
      requires Valid() && Ordered(Flagged(lines))
      modifies this, maps
      ensures Valid()
      ensures r != null ==> r in maps && r.region.start <= pc < r.region.end
      ensures r == null <==> !Holds(pc)
      ensures old(Holds(pc)) || !parsed ==> maps == old(maps)
      ensures !old(Holds(pc)) && parsed ==> Regions(maps) == Reparsed(Regions(old(maps)), Flagged(lines))
    {
      hide Ordered, Linked, Reparsed;
      r := FindMap(pc);
      if r == null {
        var ok, anyChanged := Reparse(lines, parsed);
        if ok {
          r := FindMap(pc);
        }
      }
    }
  }
}
