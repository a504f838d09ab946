/** The registry of loaded modules by generation
    (backtrace/src/AsyncStackPipeline.cpp, ModuleRegistry). */
module Registry {
  import opened Wrappers
  import opened OrderedMap

  datatype Module = Module(start: nat, end: nat, loadBias: nat, name: string, buildId: seq<nat>, generation: nat)

  /** Everything published so far; generation `g` is at position `g - 1`. */
  type History = seq<seq<Module>>

  predicate SameModule(a: Module, b: Module) {
    a.(generation := 0) == b.(generation := 0)
  }

  predicate Equivalent(a: seq<Module>, b: seq<Module>) {
    |a| == |b| && forall i :: 0 <= i < |a| ==> SameModule(a[i], b[i])
  }

  function Stamped(ms: seq<Module>, generation: nat): (r: seq<Module>)
    ensures Equivalent(r, ms) && forall i :: 0 <= i < |r| ==> r[i].generation == generation
  {
    seq(|ms|, i requires 0 <= i < |ms| => ms[i].(generation := generation))
  }

  /** A list equivalent to the current one is not a new generation. */
  function Published(h: History, ms: seq<Module>): (r: History)
    requires h != []
    ensures h <= r && Equivalent(r[|r| - 1], ms)
  {
    if Equivalent(h[|h| - 1], ms) then h else h + [Stamped(ms, |h| + 1)]
  }

  function PublishedAll(h: History, later: seq<seq<Module>>): (r: History)
    requires h != []
    ensures h <= r
    decreases |later|
  {
    if later == [] then h else PublishedAll(Published(h, later[0]), later[1..])
  }

  /** The newest `max` generations are retained. */
  predicate InWindow(h: History, max: nat, g: nat) {
    1 <= g <= |h| && |h| < g + max
  }

  /** The snapshots of exactly the generations from `oldest` on. */
  ghost predicate Keeps(snapshots: map<nat, seq<Module>>, h: History, oldest: nat) {
    && 1 <= oldest <= |h|
    && (forall g :: g in snapshots <==> oldest <= g <= |h|)
    && (forall g :: g in snapshots ==> snapshots[g] == h[g - 1])
  }

  function Oldest(h: History, max: nat): (r: nat)
    requires max >= 1 && h != []
    ensures 1 <= r <= |h| && forall g: nat :: InWindow(h, max, g) <==> r <= g <= |h|
  {
    if |h| > max then |h| - max + 1 else 1
  }

  lemma {:induction false} KeepsSize(snapshots: map<nat, seq<Module>>, h: History, oldest: nat)
    requires Keeps(snapshots, h, oldest)
    ensures |snapshots| == |h| - oldest + 1
  {
    RangeSize(snapshots.Keys, oldest, |h|);
    assert |snapshots| == |snapshots.Keys|;
  }

  lemma {:induction false} DropLeast(snapshots: map<nat, seq<Module>>, h: History, oldest: nat, least: nat)
    requires Keeps(snapshots, h, oldest) && oldest < |h|
    requires least in snapshots && forall g :: g in snapshots ==> least <= g
    ensures Keeps(snapshots - {least}, h, oldest + 1) && |snapshots - {least}| == |h| - oldest
  {
    assert oldest in snapshots;
    KeepsSize(snapshots - {least}, h, oldest + 1);
  }

  function LeastKey(snapshots: map<nat, seq<Module>>): (r: nat)
    requires |snapshots| > 0
    ensures r in snapshots && forall g :: g in snapshots ==> r <= g
  {
    assert snapshots.Keys != {};
    SetHasMin(snapshots.Keys);
    var k :| k in snapshots.Keys && forall j :: j in snapshots.Keys ==> k <= j;
    k
  }

  lemma {:induction false} OldestIs(h: History, max: nat, first: nat)
    requires max >= 1 && h != [] && 1 <= first <= Oldest(h, max)
    ensures first == Oldest(h, max) <==> |h| - first + 1 <= max
  {
  }

  lemma {:induction false} RangeSize(keys: set<nat>, lo: nat, hi: nat)
    requires lo <= hi + 1 && forall g :: g in keys <==> lo <= g <= hi
    ensures |keys| == hi + 1 - lo
    decreases hi + 1 - lo
  {
    if lo == hi + 1 {
      assert keys == {};
    } else {
      RangeSize(keys - {lo}, lo + 1, hi);
    }
  }

  /** The first module, in list order, that holds an address. */
  function Holding(ms: seq<Module>, pc: nat): (r: Option<Module>)
    ensures r.None? <==> forall i :: 0 <= i < |ms| ==> !(ms[i].start <= pc < ms[i].end)
    ensures r.Some? ==> exists i :: 0 <= i < |ms| && r.value == ms[i] && ms[i].start <= pc < ms[i].end
                                    && forall j :: 0 <= j < i ==> !(ms[j].start <= pc < ms[j].end)
  {
    if ms == [] then None
    else if ms[0].start <= pc < ms[0].end then Some(ms[0])
    else
      assert forall i :: 0 < i < |ms| ==> ms[i] == ms[1..][i - 1];
      Holding(ms[1..], pc)
  }

  function Resolution(h: History, max: nat, pc: nat, g: nat): (r: Option<Module>) {
    if InWindow(h, max, g) then Holding(h[g - 1], pc) else None
  }

  /** Whatever is published later, a generation resolves against its own snapshot,
      or, once `max` newer ones exist, against nothing; never against a newer one. */
  lemma {:induction false} NeverNewer(h: History, max: nat, later: seq<seq<Module>>, pc: nat, g: nat)
    requires h != [] && 1 <= g <= |h|
    ensures var h' := PublishedAll(h, later);
            && (|h'| < g + max ==> Resolution(h', max, pc, g) == Holding(h[g - 1], pc))
            && (g + max <= |h'| ==> Resolution(h', max, pc, g) == None)
  {
    hide Holding;
    var h' := PublishedAll(h, later);
    assert h'[g - 1] == h[g - 1];
  }

  /** Publishing what is current already changes nothing, however often. */
  lemma {:induction false} RepublishIsIdle(h: History, ms: seq<Module>, n: nat)
    requires h != []
    ensures PublishedAll(Published(h, ms), seq(n, i => ms)) == Published(h, ms)
  {
    if n > 0 {
      var rest: seq<seq<Module>> := seq(n, i => ms);
      var h' := Published(h, ms);
      assert Equivalent(h'[|h'| - 1], ms);
      assert rest[1..] == seq(n - 1, i => ms);
      RepublishIsIdle(h, ms, n - 1);
    }
  }

  predicate Differ(a: Module, b: Module) {
    a.start != b.start || a.end != b.end || a.loadBias != b.loadBias || a.name != b.name || a.buildId != b.buildId
  }

  /** A list is a new generation exactly when it differs from the current one in its
      length or in the range, load bias, name or build id of some module. */
  lemma {:induction false} NewGenerationIff(h: History, ms: seq<Module>)
    requires h != []
    ensures var now := h[|h| - 1];
            |Published(h, ms)| == |h| + 1 <==>
            |now| != |ms| || (exists i :: 0 <= i < |ms| && Differ(now[i], ms[i]))
  {
    var now := h[|h| - 1];
    if |now| == |ms| && !Equivalent(now, ms) {
      var i :| 0 <= i < |now| && !SameModule(now[i], ms[i]);
    }
  }

  class ModuleRegistry {
    const max: nat
    var generation: nat
    var snapshots: map<nat, seq<Module>>
    ghost var history: History

    ghost predicate Valid()
      reads this
    {
      max >= 1 && history != [] && generation == |history| && Keeps(snapshots, history, Oldest(history, max))
    }

    constructor (max: nat)
      ensures Valid() && history == [[]]
      ensures this.max == if max == 0 then 1 else max
    {
      this.max := if max == 0 then 1 else max;
      generation, snapshots, history := 1, map[1 := []], [[]];
    }

    method Same(a: seq<Module>, b: seq<Module>) returns (r: bool)
      ensures r == Equivalent(a, b)
    {
      if |a| != |b| {
        return false;
      }
      for i := 0 to |a|
        invariant forall j :: 0 <= j < i ==> SameModule(a[j], b[j])
      {
        if a[i].start != b[i].start || a[i].end != b[i].end || a[i].loadBias != b[i].loadBias
           || a[i].name != b[i].name || a[i].buildId != b[i].buildId
        {
          assert !SameModule(a[i], b[i]);
          return false;
        }
      }
      return true;
    }

    method Publish(modules: seq<Module>) returns (g: nat)
      requires Valid()
      modifies this
      ensures Valid() && history == Published(old(history), modules) && g == generation
      ensures |snapshots| <= max
    {
      var same := generation in snapshots;
      if same {
        same := Same(snapshots[generation], modules);
      }
      if !same {
        ghost var oldest := Oldest(history, max);
        generation := generation + 1;
        snapshots := snapshots[generation := Stamped(modules, generation)];
        history := history + [Stamped(modules, generation)];
        EvictOldest(oldest);
      }
      KeepsSize(snapshots, history, Oldest(history, max));
      return generation;
    }

    /** Drops the oldest snapshots until at most `max` are left. */
    method EvictOldest(ghost oldest: nat)
      requires max >= 1 && history != [] && Keeps(snapshots, history, oldest) && 1 <= oldest <= Oldest(history, max)
      modifies this`snapshots
      ensures Keeps(snapshots, history, Oldest(history, max))
    {
      hide *;
      ghost var first: nat := oldest;
      KeepsSize(snapshots, history, first);
      while |snapshots| > max
        invariant Keeps(snapshots, history, first) && 1 <= first <= Oldest(history, max)
        invariant |snapshots| == |history| - first + 1
        decreases |snapshots|
      {
        OldestIs(history, max, first);
        var least := LeastKey(snapshots);
        DropLeast(snapshots, history, first, least);
        snapshots := snapshots - {least};
        first := first + 1;
      }
      OldestIs(history, max, first);
    }

    method Resolve(pc: nat, g: nat) returns (r: Option<Module>)
      requires Valid()
      ensures r == Resolution(history, max, pc, g)
    {
      if g !in snapshots {
        return None;
      }
      var ms := snapshots[g];
      for i := 0 to |ms|
        invariant Holding(ms, pc) == Holding(ms[i..], pc)
      {
        if ms[i].start <= pc < ms[i].end {
          return Some(ms[i]);
        }
        assert ms[i..][1..] == ms[i + 1..];
      }
      return None;
    }
  }
}
