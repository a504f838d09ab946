/** The set of buffer inodes one sampling pass has counted: an open-addressing
    table emptied by bumping a generation (backtrace/src/ObservedMemory.cpp,
    backtrace/include/ObservedMemory.h). */
module InodeSet {
  import opened Wrappers

  const SLOTS: nat := 4096
  const MAX_DEDUPED: nat := 2048
  const U32: nat := 0x1_0000_0000
  const U64: nat := 0x1_0000_0000_0000_0000

  /** Where the search for an inode starts. */
  function Home(inode: nat): (r: nat)
    ensures r < SLOTS
  {
    inode * 0x9e37_79b9_7f4a_7c15 % U64 / 0x100_0000_0000 % SLOTS
  }

  function At(inode: nat, probe: nat): (r: nat)
    ensures r < SLOTS
  {
    (Home(inode) + probe) % SLOTS
  }

  /** The table as it reads in one generation: a slot with another stamp is free. */
  type Table = seq<Option<nat>>

  function TableOf(inode: seq<nat>, stamp: seq<nat>, generation: nat): (t: Table)
    requires |inode| == |stamp|
    ensures |t| == |inode|
    ensures forall i :: 0 <= i < |t| ==> t[i] == if stamp[i] == generation then Some(inode[i]) else None
  {
    seq(|inode|, i requires 0 <= i < |inode| => if stamp[i] == generation then Some(inode[i]) else None)
  }

  ghost function Contents(t: Table): set<nat> {
    set i | 0 <= i < |t| && t[i].Some? :: t[i].value
  }

  function Used(t: Table): (r: nat)
    ensures r <= |t|
  {
    if t == [] then 0 else Used(t[..|t| - 1]) + if t[|t| - 1].Some? then 1 else 0
  }

  /** The first `n` slots an inode would try are taken by others. */
  ghost predicate Passed(t: Table, inode: nat, n: nat)
    requires |t| == SLOTS
  {
    forall d: nat :: d < n ==> t[At(inode, d)].Some? && t[At(inode, d)].value != inode
  }

  /** Slot `i` is where a search for its inode ends, after `d` others. */
  ghost predicate Settled(t: Table, i: nat, d: nat)
    requires |t| == SLOTS && i < SLOTS && t[i].Some?
  {
    d < SLOTS && i == At(t[i].value, d) && Passed(t, t[i].value, d)
  }

  /** Every inode in the table can be found by probing from its home. */
  ghost predicate Findable(t: Table) {
    |t| == SLOTS && forall i: nat :: i < SLOTS && t[i].Some? ==> exists d :: Settled(t, i, d)
  }

  /** A probe that stops at a free slot has proved the inode absent. */
  lemma {:induction false} FreeMeansAbsent(t: Table, inode: nat, n: nat)
    requires Findable(t) && n < SLOTS && Passed(t, inode, n) && t[At(inode, n)].None?
    ensures inode !in Contents(t)
  {
    forall i: nat | i < |t| && t[i].Some? ensures t[i].value != inode {
      var d: nat :| Settled(t, i, d);
      assert d == n || d < n || n < d;
    }
  }

  /** Probing visits every slot. */
  lemma {:induction false} EverySlotIsTried(inode: nat, i: nat) returns (d: nat)
    requires i < SLOTS
    ensures d < SLOTS && At(inode, d) == i
  {
    d := (i + SLOTS - Home(inode)) % SLOTS;
  }

  lemma {:induction false} FullMeansUsed(t: Table)
    requires forall i :: 0 <= i < |t| ==> t[i].Some?
    ensures Used(t) == |t|
  {
    if t != [] {
      FullMeansUsed(t[..|t| - 1]);
    }
  }

  /** Probing ends within the table: a table that is not full has a free slot. */
  lemma {:induction false} ProbingEnds(t: Table, inode: nat)
    requires |t| == SLOTS && Used(t) < SLOTS
    ensures !Passed(t, inode, SLOTS)
  {
    if Passed(t, inode, SLOTS) {
      forall i | 0 <= i < SLOTS ensures t[i].Some? {
        var d := EverySlotIsTried(inode, i);
      }
      FullMeansUsed(t);
    }
  }

  lemma {:induction false} UsedUpdate(t: Table, i: nat, inode: nat)
    requires i < |t| && t[i].None?
    ensures Used(t[i := Some(inode)]) == Used(t) + 1
  {
    var last := |t| - 1;
    var t' := t[i := Some(inode)];
    if i < last {
      UsedUpdate(t[..last], i, inode);
      assert t'[..last] == t[..last][i := Some(inode)];
    } else {
      assert t'[..last] == t[..last];
    }
  }

  /** Filling the first free slot of a probe adds the inode and disturbs no other. */
  lemma {:induction false} FillKeeps(t: Table, inode: nat, n: nat)
    requires Findable(t) && n < SLOTS && Passed(t, inode, n) && t[At(inode, n)].None?
    ensures var t' := t[At(inode, n) := Some(inode)];
            Findable(t') && Contents(t') == Contents(t) + {inode} && Used(t') == Used(t) + 1
  {
    hide At, Used;
    var free := At(inode, n);
    var t' := t[free := Some(inode)];
    UsedUpdate(t, free, inode);
    ContentsUpdate(t, free, inode);
    forall i: nat | i < SLOTS && t'[i].Some? ensures exists d :: Settled(t', i, d) {
      if i == free {
        assert Settled(t', i, n);
      } else {
        assert t[i] == t'[i];
        var d :| Settled(t, i, d);
        assert Settled(t', i, d);
      }
    }
  }

  lemma {:induction false} ContentsUpdate(t: Table, i: nat, inode: nat)
    requires i < |t| && t[i].None?
    ensures Contents(t[i := Some(inode)]) == Contents(t) + {inode}
  {
    var t' := t[i := Some(inode)];
    assert t'[i] == Some(inode);
    forall x | x in Contents(t) ensures x in Contents(t') {
      var k :| 0 <= k < |t| && t[k].Some? && t[k].value == x;
      assert t'[k] == t[k];
    }
  }

  /** The slots in use are as many as the inodes they hold. */
  lemma {:induction false} NoneTwice(t: Table, i: nat, j: nat)
    requires Findable(t) && i < SLOTS && j < SLOTS && t[i].Some? && t[i] == t[j]
    ensures i == j
  {
    var d :| Settled(t, i, d);
    var e :| Settled(t, j, e);
    assert d == e || d < e || e < d;
  }

  lemma {:induction false} SizeIsUsed(t: Table)
    requires forall i, j :: 0 <= i < j < |t| && t[i].Some? ==> t[i] != t[j]
    ensures |Contents(t)| == Used(t)
  {
    hide Contents;
    if t == [] {
      NothingHeld(t);
    } else {
      var last := |t| - 1;
      assert forall i :: 0 <= i < last ==> t[..last][i] == t[i];
      SizeIsUsed(t[..last]);
      ContentsOfLast(t);
      if t[last].Some? {
        NotHeldBefore(t);
      }
    }
  }

  lemma {:induction false} NothingHeld(t: Table)
    requires |t| == 0
    ensures Contents(t) == {}
  {
  }

  lemma {:induction false} ContentsOfLast(t: Table)
    requires t != []
    ensures var last := |t| - 1;
            Contents(t) == Contents(t[..last]) + if t[last].Some? then {t[last].value} else {}
  {
    var last := |t| - 1;
    assert forall i :: 0 <= i < last ==> t[..last][i] == t[i];
  }

  lemma {:induction false} NotHeldBefore(t: Table)
    requires t != [] && t[|t| - 1].Some? && forall i, j :: 0 <= i < j < |t| && t[i].Some? ==> t[i] != t[j]
    ensures t[|t| - 1].value !in Contents(t[..|t| - 1])
  {
  }

  lemma {:induction false} EmptyTable(t: Table)
    requires |t| == SLOTS && forall i :: 0 <= i < SLOTS ==> t[i].None?
    ensures Findable(t) && Contents(t) == {} && Used(t) == 0
  {
    SizeIsUsed(t);
    assert Contents(t) == {};
  }

  class DmaInodeSet {
    const inode: array<nat>
    const stamp: array<nat>
    var generation: nat
    var count: nat
    var overflowed: bool

    ghost predicate Shaped()
      reads this, stamp
    {
      && inode.Length == SLOTS && stamp.Length == SLOTS && inode != stamp
      && generation < U32
      && forall i :: 0 <= i < SLOTS ==> stamp[i] <= generation
    }

    ghost function Now(): Table
      requires Shaped()
      reads this, inode, stamp
    {
      TableOf(inode[..], stamp[..], generation)
    }

    /** What holds between the start of a pass and the next. */
    ghost predicate Valid()
      reads this, inode, stamp
    {
      && Shaped() && generation > 0
      && Findable(Now()) && count == Used(Now()) <= MAX_DEDUPED
    }

    constructor ()
      ensures Shaped() && fresh(inode) && fresh(stamp)
    {
      inode, stamp := new nat[SLOTS](i => 0), new nat[SLOTS](i => 0);
      generation, count, overflowed := 0, 0, false;
    }

    /** Begins a pass: the set is empty, however often the generation wrapped. */
    method Reset()
      requires Shaped()
      modifies this, stamp
      ensures Valid() && Contents(Now()) == {} && count == 0 && !overflowed
      ensures Holds(this, [])
    {
      count, overflowed := 0, false;
      generation := (generation + 1) % U32;
      if generation == 0 {
        for i := 0 to SLOTS
          invariant inode.Length == SLOTS && stamp.Length == SLOTS && inode != stamp && generation == 0
          invariant count == 0 && !overflowed
          invariant forall k :: 0 <= k < i ==> stamp[k] == 0
        {
          stamp[i] := 0;
        }
        generation := 1;
      }
      assert forall i :: 0 <= i < SLOTS ==> stamp[i] < generation;
      EmptyTable(Now());
      EmptyHolds(this);
    }

    /** Adds an inode; true exactly when it was absent, or the table is past its
        limit and can no longer tell. */
    method InsertInode(x: nat) returns (isNew: bool)
      requires Valid()
      modifies this`count, this`overflowed, inode, stamp
      ensures Valid() && generation == old(generation)
      ensures var full := old(count) >= MAX_DEDUPED;
              && overflowed == (old(overflowed) || full)
              && isNew == (full || x !in old(Contents(Now())))
              && Contents(Now()) == old(Contents(Now())) + (if full then {} else {x})
              && |Contents(Now())| == count
    {
      hide Used, Findable, Contents;
      ghost var t := Now();
      SizeMatches(t);
      if count >= MAX_DEDUPED {
        overflowed := true;
        return true;
      }
      var slot := Home(x);
      for probe := 0 to SLOTS
        invariant Valid() && Now() == t && count == old(count) && generation == old(generation) &&
                    overflowed == old(overflowed)
        invariant |t| == SLOTS && Passed(t, x, probe)
      {
        var index := (slot + probe) % SLOTS;
        assert index == At(x, probe);
        if stamp[index] != generation {
          FreeMeansAbsent(t, x, probe);
          FillKeeps(t, x, probe);
          stamp[index] := generation;
          inode[index] := x;
          count := count + 1;
          assert Now() == t[index := Some(x)];
          SizeMatches(Now());
          return true;
        }
        if inode[index] == x {
          HeldIsIn(t, index, x);
          return false;
        }
      }
      // The fallback behind the loop is never reached.
      ProbingEnds(t, x);
      assert false;
    }
  }

  lemma {:induction false} SizeMatches(t: Table)
    requires Findable(t)
    ensures |Contents(t)| == Used(t)
  {
    forall i, j | 0 <= i < j < |t| && t[i].Some? ensures t[i] != t[j] {
      if t[i] == t[j] {
        NoneTwice(t, i, j);
      }
    }
    SizeIsUsed(t);
  }

  lemma {:induction false} HeldIsIn(t: Table, i: nat, x: nat)
    requires i < |t| && t[i] == Some(x)
    ensures x in Contents(t) && Contents(t) + {x} == Contents(t)
  {
  }

  // ---------- Summing buffers over a pass ----------

  datatype Buffer = Buffer(inode: nat, size: nat)

  /** Each buffer once, at its first sighting. */
  function FirstSum(buffers: seq<Buffer>): (r: nat) {
    if buffers == [] then 0 else
    var n := |buffers| - 1;
    FirstSum(buffers[..n]) + if Seen(buffers[..n], buffers[n].inode) then 0 else buffers[n].size
  }

  predicate Seen(buffers: seq<Buffer>, x: nat) {
    exists i :: 0 <= i < |buffers| && buffers[i].inode == x
  }

  function Inodes(buffers: seq<Buffer>): (r: set<nat>) {
    set i | 0 <= i < |buffers| :: buffers[i].inode
  }

  /** The size a buffer is first seen with. */
  function FirstSize(buffers: seq<Buffer>, x: nat): (r: nat) {
    if buffers == [] then 0 else if buffers[0].inode == x then buffers[0].size else FirstSize(buffers[1..], x)
  }

  function Sizes(buffers: seq<Buffer>): (r: nat -> nat) {
    (x: nat) => FirstSize(buffers, x)
  }

  ghost function SumOver(xs: set<nat>, size: nat -> nat): nat {
    if xs == {} then 0 else var x :| x in xs; size(x) + SumOver(xs - {x}, size)
  }

  lemma {:induction false} SumPick(xs: set<nat>, size: nat -> nat, x: nat)
    requires x in xs
    ensures SumOver(xs, size) == size(x) + SumOver(xs - {x}, size)
  {
    var y :| y in xs && SumOver(xs, size) == size(y) + SumOver(xs - {y}, size);
    if y != x {
      SumPick(xs - {y}, size, x);
      SumPick(xs - {x}, size, y);
      assert xs - {y} - {x} == xs - {x} - {y};
    }
  }

  lemma {:induction false} SumSame(xs: set<nat>, f: nat -> nat, g: nat -> nat)
    requires forall x :: x in xs ==> f(x) == g(x)
    ensures SumOver(xs, f) == SumOver(xs, g)
  {
    if xs != {} {
      var x :| x in xs;
      SumPick(xs, f, x);
      SumPick(xs, g, x);
      SumSame(xs - {x}, f, g);
    }
  }

  lemma {:induction false} SumDisjoint(a: set<nat>, b: set<nat>, size: nat -> nat)
    requires a !! b
    ensures SumOver(a + b, size) == SumOver(a, size) + SumOver(b, size)
  {
    if a == {} {
      assert a + b == b;
    } else {
      var x :| x in a;
      SumPick(a, size, x);
      SumPick(a + b, size, x);
      assert a + b - {x} == (a - {x}) + b;
      SumDisjoint(a - {x}, b, size);
    }
  }

  /** Two sums that agree where they overlap differ by what each has alone. */
  lemma {:induction false} SumExchange(a: set<nat>, b: set<nat>, f: nat -> nat, g: nat -> nat)
    requires forall x :: x in a * b ==> f(x) == g(x)
    ensures SumOver(a, f) + SumOver(b - a, g) == SumOver(b, g) + SumOver(a - b, f)
  {
    SumDisjoint(a * b, a - b, f);
    SumDisjoint(a * b, b - a, g);
    assert a * b + (a - b) == a && a * b + (b - a) == b;
    SumSame(a * b, f, g);
  }

  lemma {:induction false} FirstSizeConcat(a: seq<Buffer>, b: seq<Buffer>, x: nat)
    ensures FirstSize(a + b, x) == if Seen(a, x) then FirstSize(a, x) else FirstSize(b, x)
  {
    if a == [] {
      assert a + b == b;
    } else {
      assert (a + b)[1..] == a[1..] + b;
      FirstSizeConcat(a[1..], b, x);
      if a[0].inode == x {
        assert Seen(a, x);
      } else {
        SeenRest(a, x);
      }
    }
  }

  lemma {:induction false} SeenRest(a: seq<Buffer>, x: nat)
    requires a != [] && a[0].inode != x
    ensures Seen(a, x) == Seen(a[1..], x)
  {
    if Seen(a, x) {
      var i :| 0 <= i < |a| && a[i].inode == x;
      assert a[1..][i - 1] == a[i];
    }
  }

  /** The running sum is the sum over the distinct buffers. */
  lemma {:induction false} FirstSumIsOnce(buffers: seq<Buffer>)
    ensures FirstSum(buffers) == SumOver(Inodes(buffers), Sizes(buffers))
  {
    hide FirstSize;
    if buffers == [] {
      assert Inodes(buffers) == {};
    } else {
      var n := |buffers| - 1;
      var a, b := buffers[..n], buffers[n];
      assert buffers == a + [b];
      FirstSumIsOnce(a);
      var f, g := Sizes(a), Sizes(buffers);
      forall x | x in Inodes(a) ensures f(x) == g(x) {
        FirstSizeConcat(a, [b], x);
      }
      SumSame(Inodes(a), f, g);
      FirstSizeConcat(a, [b], b.inode);
      if Seen(a, b.inode) {
        assert Inodes(buffers) == Inodes(a);
      } else {
        assert Inodes(buffers) == Inodes(a) + {b.inode};
        SumPick(Inodes(buffers), g, b.inode);
        assert Inodes(buffers) - {b.inode} == Inodes(a);
        OneSize(b);
      }
    }
  }

  lemma {:induction false} OneSize(b: Buffer)
    ensures FirstSize([b], b.inode) == b.size
  {
  }

  /** How many buffers a pass looks at before the set is full: from there on it
      takes every buffer for a new one. */
  function Limit(buffers: seq<Buffer>): (r: nat)
    ensures r <= |buffers|
    ensures forall i :: 0 <= i < r ==> |Inodes(buffers[..i])| < MAX_DEDUPED
    ensures r < |buffers| ==> |Inodes(buffers[..r])| >= MAX_DEDUPED
  {
    if buffers == [] then 0 else
    var n := |buffers| - 1;
    var k := Limit(buffers[..n]);
    assert forall i :: 0 <= i <= n ==> buffers[..n][..i] == buffers[..i];
    if k < n then k else if |Inodes(buffers[..n])| >= MAX_DEDUPED then n else n + 1
  }

  function AllSum(buffers: seq<Buffer>): (r: nat) {
    if buffers == [] then 0 else AllSum(buffers[..|buffers| - 1]) + buffers[|buffers| - 1].size
  }

  /** The sum of a pass: each buffer once up to the limit, every sighting after it. */
  function PassSum(buffers: seq<Buffer>): (r: nat) {
    FirstSum(buffers[..Limit(buffers)]) + AllSum(buffers[Limit(buffers)..])
  }

  lemma {:induction false} FirstSumAppend(a: seq<Buffer>, b: Buffer)
    ensures FirstSum(a + [b]) == FirstSum(a) + if Seen(a, b.inode) then 0 else b.size
  {
    assert (a + [b])[..|a|] == a;
  }

  lemma {:induction false} AllSumAppend(a: seq<Buffer>, b: Buffer)
    ensures AllSum(a + [b]) == AllSum(a) + b.size
  {
    assert (a + [b])[..|a|] == a;
  }

  lemma {:induction false} LimitAppend(a: seq<Buffer>, b: Buffer)
    ensures Limit(a + [b]) ==
            if Limit(a) < |a| then Limit(a) else if |Inodes(a)| >= MAX_DEDUPED then |a| else |a| + 1
  {
    assert (a + [b])[..|a|] == a;
  }

  lemma {:induction false} PassSumAppend(a: seq<Buffer>, b: Buffer)
    ensures var full := Limit(a) < |a| || |Inodes(a)| >= MAX_DEDUPED;
            PassSum(a + [b]) == PassSum(a) + if full || !Seen(a, b.inode) then b.size else 0
  {
    hide Limit, FirstSum, AllSum, Inodes, Seen;
    var k, all := Limit(a), a + [b];
    LimitAppend(a, b);
    LimitInside(a);
    assert a[..|a|] == a && all[..|a|] == a && all[|a|..] == [b] && all[..|all|] == all;
    FirstSumAppend(a, b);
    AllSumAppend(a[k..], b);
    AllSumAppend([], b);
    NoSum();
    assert [] + [b] == [b];
    if k < |a| {
      assert all[..k] == a[..k] && all[k..] == a[k..] + [b];
    } else {
      assert a[k..] == [] && all[|all|..] == [];
    }
  }

  lemma {:induction false} LimitInside(a: seq<Buffer>)
    ensures Limit(a) <= |a|
  {
  }

  lemma {:induction false} NoSum()
    ensures AllSum([]) == 0
  {
  }

  /** Overflow only ever counts too much. */
  lemma {:induction false} NeverTooLittle(buffers: seq<Buffer>)
    ensures FirstSum(buffers) <= PassSum(buffers)
    ensures Limit(buffers) == |buffers| ==> PassSum(buffers) == FirstSum(buffers)
  {
    hide Limit, Inodes, Seen, PassSum;
    if buffers == [] {
      EmptyPass(buffers);
    } else {
      var n := |buffers| - 1;
      var a, b := buffers[..n], buffers[n];
      assert buffers == a + [b];
      NeverTooLittle(a);
      FirstSumAppend(a, b);
      PassSumAppend(a, b);
      LimitAppend(a, b);
      LimitInside(a);
    }
  }

  lemma {:induction false} EmptyPass(buffers: seq<Buffer>)
    requires |buffers| == 0
    ensures PassSum(buffers) == 0 && FirstSum(buffers) == 0 && Limit(buffers) == 0 && Inodes(buffers) == {}
  {
  }

  /** Without overflow a pass is the sum over the distinct buffers. */
  lemma {:induction false} PassIsOnce(buffers: seq<Buffer>)
    requires Limit(buffers) == |buffers|
    ensures PassSum(buffers) == SumOver(Inodes(buffers), Sizes(buffers))
  {
    hide PassSum, FirstSum;
    NeverTooLittle(buffers);
    FirstSumIsOnce(buffers);
  }

  lemma {:induction false} LimitPrefix(a: seq<Buffer>, b: seq<Buffer>)
    requires Limit(a + b) == |a + b|
    ensures Limit(a) == |a|
  {
    var k := Limit(a);
    assert (a + b)[..k] == a[..k];
  }

  lemma {:induction false} InodesConcat(a: seq<Buffer>, b: seq<Buffer>)
    ensures Inodes(a + b) == Inodes(a) + Inodes(b)
  {
    forall x | x in Inodes(b) ensures x in Inodes(a + b) {
      var i :| 0 <= i < |b| && b[i].inode == x;
      assert (a + b)[|a| + i] == b[i];
    }
    assert forall i :: 0 <= i < |a| ==> (a + b)[i] == a[i];
  }

  /** What a second pass adds: the buffers the first has not seen, once each. */
  lemma {:induction false} SecondPassIsRest(a: seq<Buffer>, b: seq<Buffer>)
    requires Limit(a + b) == |a + b|
    ensures PassSum(a + b) == PassSum(a) + SumOver(Inodes(b) - Inodes(a), Sizes(b))
  {
    hide PassSum, Limit, Inodes, FirstSize, SumOver, Seen;
    var first, rest, all := Inodes(a), Inodes(b) - Inodes(a), Sizes(a + b);
    LimitPrefix(a, b);
    PassIsOnce(a);
    PassIsOnce(a + b);
    InodesConcat(a, b);
    assert Inodes(a + b) == first + rest;
    SumDisjoint(first, rest, all);
    forall x | x in first + rest ensures all(x) == if x in first then Sizes(a)(x) else Sizes(b)(x) {
      FirstSizeConcat(a, b, x);
      SeenIsIn(a, x);
    }
    SumSame(first, all, Sizes(a));
    SumSame(rest, all, Sizes(b));
  }

  lemma {:induction false} SeenIsIn(a: seq<Buffer>, x: nat)
    ensures Seen(a, x) <==> x in Inodes(a)
  {
  }

  /** What the set holds after a pass has looked at `buffers`. */
  ghost predicate Holds(set_: DmaInodeSet, buffers: seq<Buffer>)
    reads set_, set_.inode, set_.stamp
  {
    && set_.Valid()
    && (set_.overflowed <==> Limit(buffers) < |buffers|)
    && Contents(set_.Now()) == Inodes(buffers[..Limit(buffers)])
    && |Contents(set_.Now())| == set_.count
  }

  lemma {:induction false} EmptyHolds(set_: DmaInodeSet)
    requires set_.Valid() && Contents(set_.Now()) == {} && set_.count == 0 && !set_.overflowed
    ensures Holds(set_, [])
  {
    hide Contents, Findable, Used;
    EmptyPass([]);
  }

  /** A pass over descriptors or over mappings, after one that has seen `seen`. */
  method SumBuffers(set_: DmaInodeSet, ghost seen: seq<Buffer>, buffers: seq<Buffer>) returns (total: nat)
    requires Holds(set_, seen)
    modifies set_, set_.inode, set_.stamp
    ensures Holds(set_, seen + buffers)
    ensures PassSum(seen) + total == PassSum(seen + buffers)
  {
    hide Findable, Used, Contents, Limit, PassSum, Seen, Inodes, Holds;
    total := 0;
    assert seen + buffers[..0] == seen;
    for i := 0 to |buffers|
      invariant Holds(set_, seen + buffers[..i])
      invariant PassSum(seen) + total == PassSum(seen + buffers[..i])
    {
      assert seen + buffers[..i + 1] == seen + buffers[..i] + [buffers[i]];
      var isNew := AddBuffer(set_, seen + buffers[..i], buffers[i]);
      if isNew {
        total := total + buffers[i].size;
      }
    }
    assert buffers[..|buffers|] == buffers;
  }

  method AddBuffer(set_: DmaInodeSet, ghost a: seq<Buffer>, b: Buffer) returns (isNew: bool)
    requires Holds(set_, a)
    modifies set_, set_.inode, set_.stamp
    ensures Holds(set_, a + [b])
    ensures PassSum(a + [b]) == PassSum(a) + if isNew then b.size else 0
  {
    hide Findable, Used, Contents, Limit, PassSum, Seen, Inodes;
    InodesMore(a, b);
    PassSumAppend(a, b);
    LimitAppend(a, b);
    LimitIsFull(a);
    LimitInside(a);
    assert (a + [b])[..Limit(a)] == a[..Limit(a)] && a[..|a|] == a && (a + [b])[..|a| + 1] == a + [b];
    isNew := set_.InsertInode(b.inode);
  }

  lemma {:induction false} LimitIsFull(a: seq<Buffer>)
    ensures Limit(a) < |a| ==> |Inodes(a[..Limit(a)])| >= MAX_DEDUPED
  {
  }

  lemma {:induction false} InodesMore(a: seq<Buffer>, b: Buffer)
    ensures Inodes(a + [b]) == Inodes(a) + {b.inode}
    ensures Seen(a, b.inode) <==> b.inode in Inodes(a)
  {
    assert (a + [b])[|a|] == b;
    assert forall i :: 0 <= i < |a| ==> (a + [b])[i] == a[i];
  }
}
