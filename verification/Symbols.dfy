/** Symbol lookup by binary search, narrowed by a cache of symbols already read
    (unwindstack/Symbols.cpp, unwindstack/Symbols.h). */
module Symbols {
  import opened Wrappers
  import opened OrderedMap

  const U32: nat := 0x1_0000_0000
  const U64: nat := 0x1_0000_0000_0000_0000

  /** An entry of an ELF32 or ELF64 table; `name` is an offset into the string table. */
  datatype Symbol = Symbol(elf32: bool, value: nat, size: nat, func: bool, name: nat)

  /** What the cache keeps of a symbol, under the symbol's end. */
  datatype Info = Info(size: nat, index: nat)

  datatype Hit = Hit(index: nat, offset: nat)

  datatype Found = Found(hit: Option<Hit>, cache: map<nat, Info>)

  /** How many addresses the entry's own arithmetic knows. */
  function Width(s: Symbol): (r: nat) {
    if s.elf32 then U32 else U64
  }

  function End(s: Symbol): (r: nat) {
    (s.value + s.size) % Width(s)
  }

  function Sub64(a: nat, b: nat): (r: nat) {
    (a - b) % U64
  }

  predicate Covers(s: Symbol, addr: nat) {
    s.value <= addr < s.value + s.size
  }

  predicate Plain(s: Symbol) {
    s.size < U32 && s.value + s.size < Width(s)
  }

  /** A symbol that covers something. */
  predicate Sane(s: Symbol) {
    0 < s.size && Plain(s)
  }

  predicate Apart(a: Symbol, b: Symbol) {
    a.value + a.size <= b.value || b.value + b.size <= a.value
  }

  /** Symbols of 32-bit size, overlapping or not. Those of size 0 are marks: the null
      symbol every table begins with, undefined symbols and mapping symbols. */
  predicate AllPlain(tab: seq<Symbol>) {
    |tab| < U32 && forall i :: 0 <= i < |tab| ==> Plain(tab[i])
  }

  /** Sized symbols do not overlap; marks are anywhere, and so is the order. */
  predicate Disjoint(tab: seq<Symbol>) {
    && AllPlain(tab)
    && (forall i, j :: 0 <= i < j < |tab| && tab[i].size > 0 && tab[j].size > 0 ==> Apart(tab[i], tab[j]))
  }

  /** No mark lies at the end of a sized symbol. */
  predicate NoMarkAtEnd(tab: seq<Symbol>) {
    forall i, j :: 0 <= i < |tab| && 0 <= j < |tab| && tab[i].size == 0 && tab[j].size > 0 ==>
      tab[i].value != tab[j].value + tab[j].size
  }

  /** Symbols that end at one address also start at one: aliases are allowed. */
  predicate OneStartPerEnd(tab: seq<Symbol>) {
    && AllPlain(tab)
    && (forall i, j :: 0 <= i < j < |tab| && End(tab[i]) == End(tab[j]) ==> tab[i].value == tab[j].value)
  }

  predicate Sorted(tab: seq<Symbol>) {
    && AllPlain(tab)
    && (forall i, j :: 0 <= i < j < |tab| ==> tab[i].value + tab[i].size <= tab[j].value)
  }

  // ---------- The search ----------

  function Emplace(cache: map<nat, Info>, key: nat, info: Info): (r: map<nat, Info>)
    ensures key in r
  {
    if key in cache then cache else cache[key := info]
  }

  /** The loop: halves `first..last`, caching every symbol it reads. */
  function Bisect(tab: seq<Symbol>, readable: nat -> bool, cache: map<nat, Info>, addr: nat, first: nat,
                  last: nat): (r: Found)
    requires last <= |tab|
    decreases last - first
  {
    if first >= last then Found(None, cache) else
    var current := first + (last - first) / 2;
    if !readable(current) then Found(None, cache) else
    var sym := tab[current];
    var cache' := Emplace(cache, End(sym), Info(sym.size % U32, current));
    if addr < sym.value then Bisect(tab, readable, cache', addr, first, current)
    else if addr < End(sym) then Found(Some(Hit(cache'[End(sym)].index, addr - sym.value)), cache')
    else Bisect(tab, readable, cache', addr, current + 1, last)
  }

  /** A cached answer, or a search between the cached neighbours of `addr`. */
  function Search(tab: seq<Symbol>, readable: nat -> bool, cache: map<nat, Info>, addr: nat): (r: Found)
    requires Indexed(tab, cache)
  {
    var above, below := UpperBound(cache, addr), LastNotAbove(cache, addr);
    if above.Some? && Sub64(above.value, cache[above.value].size) <= addr then
      Found(Some(Hit(cache[above.value].index, addr - Sub64(above.value, cache[above.value].size))), cache)
    else
      var last := if above.Some? then cache[above.value].index else |tab| % U32;
      var first := if below.Some? then cache[below.value].index + 1 else 0;
      Bisect(tab, readable, cache, addr, first, last)
  }

  predicate Indexed(tab: seq<Symbol>, cache: map<nat, Info>) {
    forall k :: k in cache ==> cache[k].index < |tab|
  }

  /** Every cached entry is the symbol it says it is. */
  predicate Cached(tab: seq<Symbol>, cache: map<nat, Info>) {
    forall k :: k in cache ==>
      cache[k].index < |tab| && k == End(tab[cache[k].index]) && cache[k].size == tab[cache[k].index].size
  }

  /** The reference: the first symbol, in table order, that covers `addr`. */
  function LinearSearch(tab: seq<Symbol>, addr: nat): (r: Option<Hit>)
    ensures r.None? <==> forall i :: 0 <= i < |tab| ==> !Covers(tab[i], addr)
    ensures r.Some? ==>
              && r.value.index < |tab| && Covers(tab[r.value.index], addr) &&
                  r.value.offset == addr - tab[r.value.index].value
              && forall i :: 0 <= i < r.value.index ==> !Covers(tab[i], addr)
  {
    if tab == [] then None else
    var last := |tab| - 1;
    var r := LinearSearch(tab[..last], addr);
    assert forall i :: 0 <= i < last ==> tab[i] == tab[..last][i];
    if r.Some? then r else if Covers(tab[last], addr) then Some(Hit(last, addr - tab[last].value)) else None
  }

  lemma {:induction false} SortedIsDisjoint(tab: seq<Symbol>)
    requires Sorted(tab)
    ensures Disjoint(tab) && AllPlain(tab)
  {
  }

  lemma {:induction false} OneCovers(tab: seq<Symbol>, i: nat, j: nat, addr: nat)
    requires Disjoint(tab) && i < |tab| && j < |tab| && Covers(tab[i], addr) && Covers(tab[j], addr)
    ensures i == j
  {
    var a, b := tab[i], tab[j];
    assert i != j ==> Apart(a, b) || Apart(b, a);
  }

  /** Ends tell sized symbols apart. */
  lemma {:induction false} OneEnd(tab: seq<Symbol>, i: nat, j: nat)
    requires Disjoint(tab) && i < |tab| && j < |tab| && tab[i].size > 0 && tab[j].size > 0
    requires End(tab[i]) == End(tab[j])
    ensures i == j
  {
    assert Plain(tab[i]) && Plain(tab[j]);
    OneCovers(tab, i, j, End(tab[i]) - 1);
  }

  lemma {:induction false} DisjointEnds(tab: seq<Symbol>)
    requires Disjoint(tab) && NoMarkAtEnd(tab)
    ensures OneStartPerEnd(tab)
  {
    forall i, j | 0 <= i < j < |tab| ensures End(tab[i]) == End(tab[j]) ==> tab[i].value == tab[j].value {
      SameEnd(tab, i, j);
    }
  }

  lemma {:induction false} SameEnd(tab: seq<Symbol>, i: nat, j: nat)
    requires Disjoint(tab) && NoMarkAtEnd(tab) && i < j < |tab|
    ensures End(tab[i]) == End(tab[j]) ==> tab[i].value == tab[j].value
  {
    EndOf(tab, i);
    EndOf(tab, j);
    if tab[i].size > 0 && tab[j].size > 0 && End(tab[i]) == End(tab[j]) {
      OneEnd(tab, i, j);
    }
  }

  lemma {:induction false} EmplaceKeeps(tab: seq<Symbol>, cache: map<nat, Info>, current: nat)
    requires AllPlain(tab) && Cached(tab, cache) && current < |tab|
    ensures var sym := tab[current];
            Cached(tab, Emplace(cache, End(sym), Info(sym.size % U32, current)))
  {
    hide End;
    assert Plain(tab[current]);
  }

  lemma {:induction false} EmplaceIndexed(tab: seq<Symbol>, cache: map<nat, Info>, current: nat)
    requires Indexed(tab, cache) && current < |tab|
    ensures var sym := tab[current];
            var cache' := Emplace(cache, End(sym), Info(sym.size % U32, current));
            Indexed(tab, cache') && End(sym) in cache' && cache'[End(sym)].index < |tab|
  {
    hide End;
  }

  /** One turn of the loop. */
  lemma {:induction false} BisectStep(tab: seq<Symbol>, readable: nat -> bool, cache: map<nat, Info>, addr: nat,
                                      first: nat, last: nat)
    requires first < last <= |tab|
    ensures var current := first + (last - first) / 2;
            var sym := tab[current];
            var cache' := Emplace(cache, End(sym), Info(sym.size % U32, current));
            Bisect(tab, readable, cache, addr, first, last) ==
              if !readable(current) then Found(None, cache)
              else if addr < sym.value then Bisect(tab, readable, cache', addr, first, current)
              else if addr < End(sym) then Found(Some(Hit(cache'[End(sym)].index, addr - sym.value)), cache')
              else Bisect(tab, readable, cache', addr, current + 1, last)
  {
    hide Emplace, End;
  }

  lemma {:induction false} BisectDone(tab: seq<Symbol>, readable: nat -> bool, cache: map<nat, Info>, addr: nat,
                                      first: nat, last: nat)
    requires last <= first && last <= |tab|
    ensures Bisect(tab, readable, cache, addr, first, last) == Found(None, cache)
  {
  }

  /** A hit names a symbol that covers the address, at the right offset. */
  predicate Right(tab: seq<Symbol>, addr: nat, hit: Hit) {
    hit.index < |tab| && Covers(tab[hit.index], addr) && hit.offset == addr - tab[hit.index].value
  }

  /** The symbol the loop stops at; what it reads there is another matter. */
  function Stop(tab: seq<Symbol>, readable: nat -> bool, addr: nat, first: nat, last: nat): (r: Option<nat>)
    requires last <= |tab|
    ensures r.Some? ==> r.value < |tab|
    decreases last - first
  {
    if first >= last then None else
    var current := first + (last - first) / 2;
    if !readable(current) then None
    else if addr < tab[current].value then Stop(tab, readable, addr, first, current)
    else if addr < End(tab[current]) then Some(current)
    else Stop(tab, readable, addr, current + 1, last)
  }

  /** What the loop answers is the symbol cached under the end of the one it stops at. */
  predicate Answers(tab: seq<Symbol>, addr: nat, stop: Option<nat>, r: Found)
    requires stop.Some? ==> stop.value < |tab|
  {
    if stop.None? then r.hit.None? else
    var sym := tab[stop.value];
    && sym.value <= addr < End(sym) && End(sym) in r.cache
    && r.hit == Some(Hit(r.cache[End(sym)].index, addr - sym.value))
  }

  lemma {:induction false} BisectStops(tab: seq<Symbol>, readable: nat -> bool, cache: map<nat, Info>, addr: nat,
                                       first: nat, last: nat)
    requires AllPlain(tab) && Cached(tab, cache) && last <= |tab|
    ensures var r := Bisect(tab, readable, cache, addr, first, last);
            Cached(tab, r.cache) && Answers(tab, addr, Stop(tab, readable, addr, first, last), r)
    decreases last - first
  {
    hide AllPlain, Cached, Emplace, End;
    if first < last {
      var current := first + (last - first) / 2;
      if readable(current) {
        var sym := tab[current];
        EmplaceKeeps(tab, cache, current);
        var cache' := Emplace(cache, End(sym), Info(sym.size % U32, current));
        if addr < sym.value {
          BisectStops(tab, readable, cache', addr, first, current);
        } else if addr >= End(sym) {
          BisectStops(tab, readable, cache', addr, current + 1, last);
        }
      }
    }
  }

  lemma {:induction false} EndOf(tab: seq<Symbol>, i: nat)
    requires AllPlain(tab) && i < |tab|
    ensures End(tab[i]) == tab[i].value + tab[i].size && tab[i].size % U32 == tab[i].size
    ensures Sub64(End(tab[i]), tab[i].size) == tab[i].value && tab[i].value <= End(tab[i])
  {
    assert Plain(tab[i]);
  }

  lemma {:induction false} LinearIs(tab: seq<Symbol>, i: nat, addr: nat)
    requires Disjoint(tab) && i < |tab| && Covers(tab[i], addr)
    ensures LinearSearch(tab, addr) == Some(Hit(i, addr - tab[i].value))
  {
    var r := LinearSearch(tab, addr);
    assert r.Some?;
    OneCovers(tab, i, r.value.index, addr);
  }

  /** The loop of this search stops at a symbol whose end is taken in the cache by
      one that starts elsewhere. */
  predicate EndTaken(tab: seq<Symbol>, readable: nat -> bool, cache: map<nat, Info>, addr: nat)
    requires Indexed(tab, cache)
  {
    var above, below := UpperBound(cache, addr), LastNotAbove(cache, addr);
    var stop := Stop(tab, readable, addr, if below.Some? then cache[below.value].index + 1 else 0,
                     if above.Some? then cache[above.value].index else |tab| % U32);
    var after := Search(tab, readable, cache, addr).cache;
    && (above.None? || addr < Sub64(above.value, cache[above.value].size))
    && stop.Some? && End(tab[stop.value]) in after
    && after[End(tab[stop.value])].index < |tab|
    && tab[after[End(tab[stop.value])].index].value != tab[stop.value].value
  }

  lemma {:induction false} LoopRightIff(tab: seq<Symbol>, addr: nat, stop: nat, r: Found)
    requires AllPlain(tab) && Cached(tab, r.cache) && stop < |tab| && Answers(tab, addr, Some(stop), r)
    ensures Right(tab, addr, r.hit.value) <==> tab[r.cache[End(tab[stop])].index].value == tab[stop].value
  {
    hide End;
    EndOf(tab, stop);
    EndOf(tab, r.cache[End(tab[stop])].index);
  }

  lemma {:induction false} CachedIsRight(tab: seq<Symbol>, cache: map<nat, Info>, addr: nat, e: nat)
    requires AllPlain(tab) && Cached(tab, cache) && e in cache && Sub64(e, cache[e].size) <= addr < e
    ensures Right(tab, addr, Hit(cache[e].index, addr - Sub64(e, cache[e].size)))
  {
    hide End, Sub64;
    EndOf(tab, cache[e].index);
  }

  /** What is found is right exactly when no symbol that starts elsewhere has taken
      the end of the one the loop stops at: for overlaps, any order and failed reads. */
  lemma {:induction false} SearchRightIff(tab: seq<Symbol>, readable: nat -> bool, cache: map<nat, Info>, addr: nat)
    requires AllPlain(tab) && Cached(tab, cache)
    ensures var r := Search(tab, readable, cache, addr);
            && Cached(tab, r.cache)
            && (r.hit.Some? ==> (Right(tab, addr, r.hit.value) <==> !EndTaken(tab, readable, cache, addr)))
  {
    hide Bisect, End, Sub64, Right, Stop, Sane;
    var above, below := UpperBound(cache, addr), LastNotAbove(cache, addr);
    if above.Some? && Sub64(above.value, cache[above.value].size) <= addr {
      CachedIsRight(tab, cache, addr, above.value);
    } else {
      var last := if above.Some? then cache[above.value].index else |tab| % U32;
      var first := if below.Some? then cache[below.value].index + 1 else 0;
      BisectStops(tab, readable, cache, addr, first, last);
      var stop := Stop(tab, readable, addr, first, last);
      if stop.Some? {
        LoopRightIff(tab, addr, stop.value, Bisect(tab, readable, cache, addr, first, last));
      }
    }
  }

  /** Where symbols with one end have one start, aliases included, whatever is
      found is right. */
  lemma {:induction false} SearchSound(tab: seq<Symbol>, readable: nat -> bool, cache: map<nat, Info>, addr: nat)
    requires OneStartPerEnd(tab) && Cached(tab, cache)
    ensures var r := Search(tab, readable, cache, addr);
            Cached(tab, r.cache) && (r.hit.Some? ==> Right(tab, addr, r.hit.value))
  {
    hide Search, End, Sub64, Right, Stop, Sane;
    SearchRightIff(tab, readable, cache, addr);
  }

  /** Among symbols that do not overlap it is the one the scan finds. */
  lemma {:induction false} SearchExact(tab: seq<Symbol>, readable: nat -> bool, cache: map<nat, Info>, addr: nat)
    requires Disjoint(tab) && NoMarkAtEnd(tab) && Cached(tab, cache)
    ensures var r := Search(tab, readable, cache, addr);
            Cached(tab, r.cache) && (r.hit.Some? ==> r.hit == LinearSearch(tab, addr))
  {
    hide Search, LinearSearch;
    DisjointEnds(tab);
    SearchSound(tab, readable, cache, addr);
    var r := Search(tab, readable, cache, addr);
    if r.hit.Some? {
      LinearIs(tab, r.hit.value.index, addr);
    }
  }

  /** The bounds a search starts from and moves to never exclude the answer. */
  ghost predicate Between(tab: seq<Symbol>, addr: nat, first: nat, last: nat) {
    forall i :: 0 <= i < |tab| && Covers(tab[i], addr) ==> first <= i < last
  }

  lemma {:induction false} BisectComplete(tab: seq<Symbol>, readable: nat -> bool, cache: map<nat, Info>, addr: nat,
                                          first: nat, last: nat)
    requires Sorted(tab) && Cached(tab, cache) && last <= |tab| && Between(tab, addr, first, last)
    requires forall i: nat :: readable(i)
    ensures Bisect(tab, readable, cache, addr, first, last).hit.None? ==> LinearSearch(tab, addr).None?
    decreases last - first
  {
    hide Cached, Emplace, LinearSearch, End;
    if first < last {
      var current := first + (last - first) / 2;
      var sym := tab[current];
      EmplaceKeeps(tab, cache, current);
      EndOf(tab, current);
      var cache' := Emplace(cache, End(sym), Info(sym.size % U32, current));
      if addr < sym.value {
        BisectComplete(tab, readable, cache', addr, first, current);
      } else if addr >= End(sym) {
        BisectComplete(tab, readable, cache', addr, current + 1, last);
      }
    } else {
      assert forall i :: 0 <= i < |tab| ==> !Covers(tab[i], addr);
    }
  }

  lemma {:induction false} CacheBounds(tab: seq<Symbol>, cache: map<nat, Info>, addr: nat)
    requires Sorted(tab) && Cached(tab, cache)
    ensures var above, below := UpperBound(cache, addr), LastNotAbove(cache, addr);
            (above.None? || addr < Sub64(above.value, cache[above.value].size)) ==>
              Between(tab, addr,
                      if below.Some? then cache[below.value].index + 1 else 0,
                      if above.Some? then cache[above.value].index else |tab|)
  {
    hide End, Sub64;
    var above, below := UpperBound(cache, addr), LastNotAbove(cache, addr);
    if above.Some? {
      EndOf(tab, cache[above.value].index);
    }
    if below.Some? {
      EndOf(tab, cache[below.value].index);
    }
  }

  /** The cached search of a sorted table is the linear search, and it leaves the
      cache true. */
  lemma {:induction false} SearchIsLinear(tab: seq<Symbol>, readable: nat -> bool, cache: map<nat, Info>, addr: nat)
    requires Sorted(tab) && NoMarkAtEnd(tab) && Cached(tab, cache) && forall i: nat :: readable(i)
    ensures var r := Search(tab, readable, cache, addr); r.hit == LinearSearch(tab, addr) && Cached(tab, r.cache)
  {
    hide Bisect, LinearSearch, Between, Disjoint, NoMarkAtEnd, Plain, End, Sub64;
    SortedIsDisjoint(tab);
    SearchExact(tab, readable, cache, addr);
    CacheBounds(tab, cache, addr);
    var above, below := UpperBound(cache, addr), LastNotAbove(cache, addr);
    assert |tab| % U32 == |tab|;
    if above.None? || addr < Sub64(above.value, cache[above.value].size) {
      var last := if above.Some? then cache[above.value].index else |tab|;
      var first := if below.Some? then cache[below.value].index + 1 else 0;
      BisectComplete(tab, readable, cache, addr, first, last);
    }
  }

  // ---------- Any earlier lookups ----------

  datatype Lookup = Lookup(addr: nat, readable: nat -> bool)

  lemma {:induction false} BisectIndexed(tab: seq<Symbol>, readable: nat -> bool, cache: map<nat, Info>, addr: nat,
                                         first: nat, last: nat)
    requires Indexed(tab, cache) && last <= |tab|
    ensures Indexed(tab, Bisect(tab, readable, cache, addr, first, last).cache)
    decreases last - first
  {
    hide Bisect, Emplace, End, Indexed;
    if last <= first {
      BisectDone(tab, readable, cache, addr, first, last);
    } else {
      var current := first + (last - first) / 2;
      var sym := tab[current];
      BisectStep(tab, readable, cache, addr, first, last);
      EmplaceIndexed(tab, cache, current);
      var cache' := Emplace(cache, End(sym), Info(sym.size % U32, current));
      BisectIndexed(tab, readable, cache', addr, first, current);
      BisectIndexed(tab, readable, cache', addr, current + 1, last);
    }
  }

  lemma {:induction false} SearchIndexed(tab: seq<Symbol>, readable: nat -> bool, cache: map<nat, Info>, addr: nat)
    requires Indexed(tab, cache)
    ensures Indexed(tab, Search(tab, readable, cache, addr).cache)
  {
    hide Bisect, Sub64;
    var above, below := UpperBound(cache, addr), LastNotAbove(cache, addr);
    var last := if above.Some? then cache[above.value].index else |tab| % U32;
    var first := if below.Some? then cache[below.value].index + 1 else 0;
    BisectIndexed(tab, readable, cache, addr, first, last);
  }

  /** The cache after a sequence of lookups, some of which may fail to read. */
  function CacheAfter(tab: seq<Symbol>, lookups: seq<Lookup>): (r: map<nat, Info>)
    ensures Indexed(tab, r)
  {
    if lookups == [] then map[] else
    var n := |lookups| - 1;
    var cache := CacheAfter(tab, lookups[..n]);
    SearchIndexed(tab, lookups[n].readable, cache, lookups[n].addr);
    Search(tab, lookups[n].readable, cache, lookups[n].addr).cache
  }

  lemma {:induction false} CacheAfterCached(tab: seq<Symbol>, lookups: seq<Lookup>)
    requires AllPlain(tab)
    ensures Cached(tab, CacheAfter(tab, lookups))
  {
    hide Search, Cached, AllPlain, EndTaken, Right;
    if lookups == [] {
      EmptyCache(tab);
    } else {
      var n := |lookups| - 1;
      CacheAfterCached(tab, lookups[..n]);
      SearchRightIff(tab, lookups[n].readable, CacheAfter(tab, lookups[..n]), lookups[n].addr);
    }
  }

  lemma {:induction false} EmptyCache(tab: seq<Symbol>)
    ensures Indexed(tab, map[]) && Cached(tab, map[])
  {
  }

  /** After any lookups the search of a sorted table is the linear search. */
  lemma {:induction false} AnyLookupsThenLinear(tab: seq<Symbol>, lookups: seq<Lookup>, addr: nat)
    requires Sorted(tab) && NoMarkAtEnd(tab)
    ensures Search(tab, i => true, CacheAfter(tab, lookups), addr).hit == LinearSearch(tab, addr)
  {
    hide Search, CacheAfter, LinearSearch;
    CacheAfterCached(tab, lookups);
    SearchIsLinear(tab, i => true, CacheAfter(tab, lookups), addr);
  }

  // ---------- Symbols that share an end ----------

  /** Some history of lookups makes some lookup answer with a wrong symbol or offset. */
  ghost predicate Misled(tab: seq<Symbol>) {
    exists lookups: seq<Lookup>, last: Lookup :: MisledBy(tab, lookups, last)
  }

  ghost predicate MisledBy(tab: seq<Symbol>, lookups: seq<Lookup>, last: Lookup) {
    var hit := Search(tab, last.readable, CacheAfter(tab, lookups), last.addr).hit;
    hit.Some? && !Right(tab, last.addr, hit.value)
  }

  /** A history misleads a lookup exactly when it has an end taken there. */
  lemma {:induction false} MisledByIff(tab: seq<Symbol>, lookups: seq<Lookup>, last: Lookup)
    requires AllPlain(tab)
    ensures MisledBy(tab, lookups, last) <==>
            && Search(tab, last.readable, CacheAfter(tab, lookups), last.addr).hit.Some?
            && EndTaken(tab, last.readable, CacheAfter(tab, lookups), last.addr)
  {
    hide Search, CacheAfter, Right, EndTaken, AllPlain;
    CacheAfterCached(tab, lookups);
    SearchRightIff(tab, last.readable, CacheAfter(tab, lookups), last.addr);
  }

  /** One start per end: no history misleads. */
  lemma {:induction false} OneStartNeverMisleads(tab: seq<Symbol>)
    requires OneStartPerEnd(tab)
    ensures !Misled(tab)
  {
    hide Search, CacheAfter, Right, Sane, End;
    forall lookups: seq<Lookup>, last: Lookup ensures !MisledBy(tab, lookups, last) {
      CacheAfterCached(tab, lookups);
      SearchSound(tab, last.readable, CacheAfter(tab, lookups), last.addr);
    }
  }

  /** One table of two symbols with one end and different starts. */
  predicate SharedEnd(a: Symbol, b: Symbol) {
    Plain(a) && Plain(b) && a.value + a.size == b.value + b.size && a.value != b.value
  }

  function OnlySecond(b: Symbol): (r: map<nat, Info>) {
    map[b.value + b.size := Info(b.size, 1)]
  }

  lemma {:induction false} OneKey(e: nat, info: Info, addr: nat)
    ensures var cache := map[e := info];
            && UpperBound(cache, addr) == (if addr < e then Some(e) else None)
            && LastNotAbove(cache, addr) == if addr < e then None else Some(e)
  {
    var cache := map[e := info];
    assert e in cache && forall k :: k in cache ==> k == e;
    var above, below := UpperBound(cache, addr), LastNotAbove(cache, addr);
    assert above.Some? ==> above.value in cache;
    assert below.Some? ==> below.value in cache;
  }

  lemma {:induction false} NoKey(addr: nat)
    ensures var cache: map<nat, Info> := map[];
            UpperBound(cache, addr) == None && LastNotAbove(cache, addr) == None
  {
    var cache: map<nat, Info> := map[];
    assert forall k :: k !in cache;
  }

  /** What the loop makes of the two symbols. */
  lemma {:induction false} EndsOfTwo(a: Symbol, b: Symbol)
    requires SharedEnd(a, b)
    ensures End(a) == End(b) == b.value + b.size && a.size % U32 == a.size && b.size % U32 == b.size
    ensures Sub64(b.value + b.size, b.size) == b.value && a.value <= b.value + b.size
    ensures Emplace(map[], b.value + b.size, Info(b.size, 1)) == OnlySecond(b)
    ensures Emplace(OnlySecond(b), b.value + b.size, Info(a.size, 0)) == OnlySecond(b)
    ensures b.value + b.size in OnlySecond(b) && OnlySecond(b)[b.value + b.size] == Info(b.size, 1)
  {
  }

  /** The loop over the whole table reads the second symbol first. */
  lemma {:induction false} FreshSearch(a: Symbol, b: Symbol, readable: nat -> bool, addr: nat)
    requires SharedEnd(a, b) && readable(1) && b.value <= addr
    ensures Indexed([a, b], map[])
    ensures Search([a, b], readable, map[], addr).cache == OnlySecond(b)
    ensures Search([a, b], readable, map[], addr).hit ==
            if addr < b.value + b.size then Some(Hit(1, addr - b.value)) else None
  {
    hide Bisect, End, Emplace, Sub64, SharedEnd, OnlySecond;
    var tab := [a, b];
    NoKey(addr);
    EndsOfTwo(a, b);
    BisectStep(tab, readable, map[], addr, 0, 2);
    BisectDone(tab, readable, OnlySecond(b), addr, 2, 2);
  }

  /** What a search makes of the first symbol once the second is cached. */
  lemma {:induction false} CachedSearch(a: Symbol, b: Symbol, readable: nat -> bool, addr: nat)
    requires SharedEnd(a, b)
    ensures Indexed([a, b], OnlySecond(b))
    ensures Search([a, b], readable, OnlySecond(b), addr).cache == OnlySecond(b)
    ensures Search([a, b], readable, OnlySecond(b), addr).hit ==
            if b.value <= addr < b.value + b.size then Some(Hit(1, addr - b.value))
            else if a.value <= addr < b.value && readable(0) then Some(Hit(1, addr - a.value))
            else None
  {
    hide Bisect, End, Emplace, Sub64, SharedEnd;
    var tab, cache, e := [a, b], OnlySecond(b), b.value + b.size;
    OneKey(e, Info(b.size, 1), addr);
    EndsOfTwo(a, b);
    if addr < b.value {
      BisectStep(tab, readable, cache, addr, 0, 1);
      BisectDone(tab, readable, cache, addr, 0, 0);
    } else if e <= addr {
      BisectDone(tab, readable, cache, addr, 2, 2);
    }
  }

  /** A search of the whole table below the second symbol. */
  lemma {:induction false} FreshBelow(a: Symbol, b: Symbol, readable: nat -> bool, addr: nat)
    requires SharedEnd(a, b) && b.value < a.value && (addr < b.value || !readable(1))
    ensures Indexed([a, b], map[])
    ensures var r := Search([a, b], readable, map[], addr);
            r.hit == None && r.cache == if readable(1) then OnlySecond(b) else map[]
  {
    hide Bisect, End, Emplace, Sub64, SharedEnd, OnlySecond;
    var tab := [a, b];
    NoKey(addr);
    EndsOfTwo(a, b);
    BisectStep(tab, readable, map[], addr, 0, 2);
    if readable(1) {
      BisectStep(tab, readable, OnlySecond(b), addr, 0, 1);
      BisectDone(tab, readable, OnlySecond(b), addr, 0, 0);
    }
  }

  lemma {:induction false} TwoStay(a: Symbol, b: Symbol, lookups: seq<Lookup>)
    requires SharedEnd(a, b) && b.value < a.value
    ensures CacheAfter([a, b], lookups) in {map[], OnlySecond(b)}
  {
    hide Search, SharedEnd;
    if lookups != [] {
      var n := |lookups| - 1;
      TwoStay(a, b, lookups[..n]);
      TwoSearch(a, b, lookups[n], CacheAfter([a, b], lookups[..n]));
    }
  }

  lemma {:induction false} TwoSearch(a: Symbol, b: Symbol, l: Lookup, cache: map<nat, Info>)
    requires SharedEnd(a, b) && b.value < a.value && cache in {map[], OnlySecond(b)}
    ensures Indexed([a, b], cache)
    ensures var r := Search([a, b], l.readable, cache, l.addr);
            r.cache in {map[], OnlySecond(b)} && (r.hit.Some? ==> Right([a, b], l.addr, r.hit.value))
  {
    hide Search;
    CachedSearch(a, b, l.readable, l.addr);
    if l.readable(1) && b.value <= l.addr {
      FreshSearch(a, b, l.readable, l.addr);
    } else {
      FreshBelow(a, b, l.readable, l.addr);
    }
  }

  /** Two symbols with one end are confused by some history exactly when the one
      that starts earlier comes first. */
  lemma {:induction false} SharedEndMisleadsIff(a: Symbol, b: Symbol)
    requires SharedEnd(a, b)
    ensures Misled([a, b]) <==> a.value < b.value
  {
    hide Search;
    var tab := [a, b];
    if a.value < b.value {
      var inner, outer := Lookup(b.value, (i: nat) => true), Lookup(a.value, (i: nat) => true);
      FreshSearch(a, b, inner.readable, b.value);
      assert [inner][..0] == [] && CacheAfter(tab, []) == map[];
      assert CacheAfter(tab, [inner]) == OnlySecond(b);
      CachedSearch(a, b, outer.readable, a.value);
      assert MisledBy(tab, [inner], outer);
    } else {
      forall lookups: seq<Lookup>, last: Lookup ensures !MisledBy(tab, lookups, last) {
        TwoStay(a, b, lookups);
        TwoSearch(a, b, last, CacheAfter(tab, lookups));
      }
    }
  }

  /** The very first search, for an address before the second symbol. */
  lemma {:induction false} FreshOuter(a: Symbol, b: Symbol, readable: nat -> bool, addr: nat)
    requires SharedEnd(a, b) && a.value <= addr < b.value && readable(0) && readable(1)
    ensures Indexed([a, b], map[])
    ensures Search([a, b], readable, map[], addr).hit == Some(Hit(1, addr - a.value))
  {
    hide Bisect, End, Emplace, Sub64, SharedEnd, OnlySecond;
    var tab := [a, b];
    NoKey(addr);
    EndsOfTwo(a, b);
    BisectStep(tab, readable, map[], addr, 0, 2);
    BisectStep(tab, readable, OnlySecond(b), addr, 0, 1);
  }

  /** A mark at the end of the function before it hides that function from the first
      lookup on: the answer is the mark. */
  lemma {:induction false} MarkAtEndHides(f: Symbol, mark: Symbol, readable: nat -> bool, addr: nat)
    requires Sane(f) && Plain(mark) && mark.size == 0 && mark.value == f.value + f.size && Covers(f, addr)
    requires readable(0) && readable(1)
    ensures var tab := [f, mark];
            && Disjoint(tab) && Sorted(tab) && Indexed(tab, map[])
            && Search(tab, readable, map[], addr).hit == Some(Hit(1, addr - f.value))
            && !Right(tab, addr, Hit(1, addr - f.value))
            && LinearSearch(tab, addr) == Some(Hit(0, addr - f.value))
  {
    hide Search, LinearSearch;
    FreshOuter(f, mark, readable, addr);
    LinearIs([f, mark], 0, addr);
  }

  // ---------- The remap table ----------

  /** Function symbols by address, the earlier of two at one address first. */
  predicate Before(raw: seq<Symbol>, a: nat, b: nat)
    requires a < |raw| && b < |raw|
  {
    raw[a].value < raw[b].value || (raw[a].value == raw[b].value && a < b)
  }

  predicate Within(raw: seq<Symbol>, s: seq<nat>) {
    forall k :: 0 <= k < |s| ==> s[k] < |raw|
  }

  predicate InOrder(raw: seq<Symbol>, s: seq<nat>)
    requires Within(raw, s)
  {
    forall k, l :: 0 <= k < l < |s| ==> Before(raw, s[k], s[l])
  }

  function InsertIndex(raw: seq<Symbol>, i: nat, s: seq<nat>): (r: seq<nat>)
    requires i < |raw| && Within(raw, s)
    ensures Within(raw, r) && |r| == |s| + 1 && forall x :: x in r <==> x == i || x in s
  {
    if s == [] || Before(raw, i, s[0]) then [i] + s else
    assert forall x :: x in s <==> x == s[0] || x in s[1..];
    [s[0]] + InsertIndex(raw, i, s[1..])
  }

  function SortIndices(raw: seq<Symbol>, s: seq<nat>): (r: seq<nat>)
    requires Within(raw, s)
    ensures Within(raw, r) && |r| == |s| && forall x :: x in r <==> x in s
  {
    if s == [] then [] else
    assert forall x :: x in s <==> x == s[0] || x in s[1..];
    InsertIndex(raw, s[0], SortIndices(raw, s[1..]))
  }

  lemma {:induction false} InsertInOrder(raw: seq<Symbol>, i: nat, s: seq<nat>)
    requires i < |raw| && Within(raw, s) && InOrder(raw, s) && i !in s
    ensures InOrder(raw, InsertIndex(raw, i, s))
  {
    if s != [] && !Before(raw, i, s[0]) {
      assert i != s[0] && forall x :: x in s[1..] ==> x in s;
      InsertInOrder(raw, i, s[1..]);
      var more := InsertIndex(raw, i, s[1..]);
      forall k | 0 <= k < |more| ensures Before(raw, s[0], more[k]) {
        assert more[k] in more;
        if more[k] != i {
          var l :| 0 <= l < |s[1..]| && s[1..][l] == more[k];
          assert Before(raw, s[0], s[l + 1]);
        }
      }
    }
  }

  predicate Distinct(s: seq<nat>) {
    forall k, l :: 0 <= k < l < |s| ==> s[k] != s[l]
  }

  lemma {:induction false} SortInOrder(raw: seq<Symbol>, s: seq<nat>)
    requires Within(raw, s) && Distinct(s)
    ensures InOrder(raw, SortIndices(raw, s))
  {
    hide InsertIndex;
    if s != [] {
      assert Distinct(s[1..]) && s[0] !in s[1..];
      SortInOrder(raw, s[1..]);
      InsertInOrder(raw, s[0], SortIndices(raw, s[1..]));
    }
  }

  /** The remap table: functions only, addresses strictly rising, and for every
      function the earliest function at its address. */
  ghost predicate IsRemap(raw: seq<Symbol>, r: seq<nat>) {
    && |r| <= |raw|
    && (forall k :: 0 <= k < |r| ==> r[k] < |raw| && raw[r[k]].func)
    && (forall k, l :: 0 <= k < l < |r| ==> raw[r[k]].value < raw[r[l]].value)
    && (forall j :: 0 <= j < |raw| && raw[j].func ==> Stands(raw, r, j))
  }

  ghost predicate Stands(raw: seq<Symbol>, r: seq<nat>, j: nat)
    requires j < |raw|
  {
    exists k :: 0 <= k < |r| && r[k] <= j && r[k] < |raw| && raw[r[k]].value == raw[j].value
  }

  /** How much of a table can be read from its start: reading stops at the first
      entry that cannot be. */
  function ReadablePrefix(readable: nat -> bool, n: nat): (r: nat)
    ensures r <= n && (forall i: nat :: i < r ==> readable(i)) && (r < n ==> !readable(r))
  {
    if n == 0 then 0 else
    var r := ReadablePrefix(readable, n - 1);
    if r == n - 1 && readable(r) then n else r
  }

  method BuildRemapTable(raw: seq<Symbol>, readable: nat -> bool) returns (remap: seq<nat>)
    ensures IsRemap(raw[..ReadablePrefix(readable, |raw|)], remap)
  {
    hide Functions, IsRemap;
    var funcs: seq<nat> := [];
    var i := 0;
    NoFunctions(raw);
    while i < |raw| && readable(i)
      invariant 0 <= i <= |raw| && forall k: nat :: k < i ==> readable(k)
      invariant Functions(raw, i, funcs)
    {
      OneMoreSymbol(raw, i, funcs);
      if raw[i].func {
        funcs := funcs + [i];
      }
      i := i + 1;
    }
    assert i == ReadablePrefix(readable, |raw|);
    remap := SortAndUnique(raw, i, funcs);
  }

  /** The functions among the first `n` symbols. */
  ghost predicate Functions(raw: seq<Symbol>, n: nat, funcs: seq<nat>) {
    && n <= |raw| && |funcs| <= n && Distinct(funcs)
    && (forall k :: 0 <= k < |funcs| ==> funcs[k] < n)
    && (forall x: nat :: x in funcs <==> x < n && raw[x].func)
  }

  lemma {:induction false} NoFunctions(raw: seq<Symbol>)
    ensures Functions(raw, 0, [])
  {
  }

  lemma {:induction false} OneMoreSymbol(raw: seq<Symbol>, n: nat, funcs: seq<nat>)
    requires Functions(raw, n, funcs) && n < |raw|
    ensures Functions(raw, n + 1, if raw[n].func then funcs + [n] else funcs)
  {
    assert n !in funcs;
  }

  /** Sorts the functions by address and keeps the first at each. */
  method SortAndUnique(raw: seq<Symbol>, n: nat, funcs: seq<nat>) returns (remap: seq<nat>)
    requires Functions(raw, n, funcs)
    ensures IsRemap(raw[..n], remap)
  {
    var part := raw[..n];
    var sorted := SortIndices(part, funcs);
    SortInOrder(part, funcs);
    remap := Unique(part, sorted);
    forall j | 0 <= j < |part| && part[j].func ensures Stands(part, remap, j) {
      assert j in sorted;
      var k :| 0 <= k < |sorted| && sorted[k] == j;
    }
  }

  predicate Rises(raw: seq<Symbol>, r: seq<nat>) {
    Within(raw, r) && forall k, l :: 0 <= k < l < |r| ==> raw[r[k]].value < raw[r[l]].value
  }

  ghost predicate AllStand(raw: seq<Symbol>, r: seq<nat>, s: seq<nat>) {
    Within(raw, s) && forall k :: 0 <= k < |s| ==> Stands(raw, r, s[k])
  }

  lemma {:induction false} StandMore(raw: seq<Symbol>, r: seq<nat>, r': seq<nat>, s: seq<nat>, i: nat)
    requires i < |s| && Within(raw, s) && AllStand(raw, r, s[..i]) && r <= r' && Stands(raw, r', s[i])
    ensures AllStand(raw, r', s[..i + 1])
  {
    forall k | 0 <= k <= i ensures Stands(raw, r', s[k]) {
      if k < i {
        assert s[..i][k] == s[k] && Stands(raw, r, s[k]);
        var l :| 0 <= l < |r| && r[l] <= s[k] && r[l] < |raw| && raw[r[l]].value == raw[s[k]].value;
        assert r'[l] == r[l];
      }
    }
  }

  lemma {:induction false} NotBelow(raw: seq<Symbol>, s: seq<nat>, i: nat)
    requires Within(raw, s) && InOrder(raw, s) && 0 < i < |s|
    ensures raw[s[i - 1]].value <= raw[s[i]].value
  {
    assert Before(raw, s[i - 1], s[i]);
  }

  lemma {:induction false} RisesMore(raw: seq<Symbol>, r: seq<nat>, x: nat)
    requires Rises(raw, r) && x < |raw| && (|r| > 0 ==> raw[r[|r| - 1]].value < raw[x].value)
    ensures Rises(raw, r + [x])
  {
    forall k | 0 <= k < |r| ensures raw[r[k]].value < raw[x].value {
      assert k < |r| - 1 ==> raw[r[k]].value < raw[r[|r| - 1]].value;
    }
  }

  /** Keeps the first of each run of equal addresses. */
  method Unique(raw: seq<Symbol>, s: seq<nat>) returns (r: seq<nat>)
    requires Within(raw, s) && InOrder(raw, s)
    ensures |r| <= |s| && (forall k :: 0 <= k < |r| ==> r[k] in s) && Rises(raw, r)
    ensures AllStand(raw, r, s)
  {
    hide Stands, AllStand, InOrder;
    r := [];
    StandNone(raw, s);
    for i := 0 to |s|
      invariant |r| <= i && (forall k :: 0 <= k < |r| ==> r[k] in s[..i]) && Rises(raw, r)
      invariant i > 0 ==> |r| > 0 && raw[r[|r| - 1]].value == raw[s[i - 1]].value
      invariant AllStand(raw, r, s[..i])
    {
      ghost var r0 := r;
      if i > 0 {
        NotBelow(raw, s, i);
      }
      if i == 0 || raw[r[|r| - 1]].value != raw[s[i]].value {
        RisesMore(raw, r, s[i]);
        r := r + [s[i]];
        NewStands(raw, r0, s[i]);
      } else {
        LastStands(raw, s, r, i);
      }
      StandMore(raw, r0, r, s, i);
      assert s[..i + 1] == s[..i] + [s[i]];
    }
    assert s[..|s|] == s;
  }

  lemma {:induction false} StandNone(raw: seq<Symbol>, s: seq<nat>)
    ensures AllStand(raw, [], s[..0])
  {
  }

  lemma {:induction false} NewStands(raw: seq<Symbol>, r: seq<nat>, x: nat)
    requires x < |raw|
    ensures Stands(raw, r + [x], x)
  {
    assert (r + [x])[|r|] == x;
  }

  lemma {:induction false} LastStands(raw: seq<Symbol>, s: seq<nat>, r: seq<nat>, i: nat)
    requires Within(raw, s) && InOrder(raw, s) && Within(raw, r) && 0 < i < |s| && |r| > 0
    requires r[|r| - 1] in s[..i] && raw[r[|r| - 1]].value == raw[s[i]].value
    ensures Stands(raw, r, s[i])
  {
    var k :| 0 <= k < |s[..i]| && s[..i][k] == r[|r| - 1];
    assert Before(raw, s[k], s[i]);
  }

  /** The table as the remap presents it. */
  function Remapped(raw: seq<Symbol>, remap: seq<nat>): (r: seq<Symbol>)
    requires Within(raw, remap)
    ensures |r| == |remap| && forall k :: 0 <= k < |r| ==> r[k] == raw[remap[k]]
  {
    seq(|remap|, k requires 0 <= k < |remap| => raw[remap[k]])
  }

  /** Functions that share an address have one size; otherwise they do not overlap. */
  predicate Aliased(raw: seq<Symbol>) {
    && |raw| < U32
    && (forall i :: 0 <= i < |raw| && raw[i].func ==> Sane(raw[i]))
    && (forall i, j :: 0 <= i < j < |raw| && raw[i].func && raw[j].func ==>
          (raw[i].value == raw[j].value && raw[i].size == raw[j].size) || Apart(raw[i], raw[j]))
  }

  /** The reference: the first function, in file order, that covers `addr`. */
  function FirstFunction(raw: seq<Symbol>, addr: nat): (r: Option<nat>)
    ensures r.None? <==> forall i :: 0 <= i < |raw| ==> !(raw[i].func && Covers(raw[i], addr))
    ensures r.Some? ==> r.value < |raw| && raw[r.value].func && Covers(raw[r.value], addr)
    ensures r.Some? ==> forall i :: 0 <= i < r.value ==> !(raw[i].func && Covers(raw[i], addr))
  {
    if raw == [] then None else
    var last := |raw| - 1;
    var r := FirstFunction(raw[..last], addr);
    assert forall i :: 0 <= i < last ==> raw[i] == raw[..last][i];
    if r.Some? then r else if raw[last].func && Covers(raw[last], addr) then Some(last) else None
  }

  /** Two functions at different addresses do not overlap. */
  lemma {:induction false} FunctionsApart(raw: seq<Symbol>, i: nat, j: nat)
    requires Aliased(raw) && i < |raw| && j < |raw| && raw[i].func && raw[j].func && raw[i].value < raw[j].value
    ensures raw[i].value + raw[i].size <= raw[j].value
  {
    var a, b := raw[i], raw[j];
    assert Sane(a) && Sane(b);
    assert Apart(a, b) || Apart(b, a);
  }

  lemma {:induction false} RemapIsSorted(raw: seq<Symbol>, r: seq<nat>)
    requires IsRemap(raw, r) && Aliased(raw)
    ensures Within(raw, r) && Sorted(Remapped(raw, r)) && NoMarkAtEnd(Remapped(raw, r))
  {
    hide Stands, Apart, Plain;
    var tab := Remapped(raw, r);
    forall k, l | 0 <= k < l < |tab| ensures tab[k].value + tab[k].size <= tab[l].value {
      FunctionsApart(raw, r[k], r[l]);
    }
  }

  lemma {:induction false} StandIn(raw: seq<Symbol>, r: seq<nat>, j: nat) returns (k: nat)
    requires j < |raw| && Stands(raw, r, j)
    ensures k < |r| && r[k] <= j && raw[r[k]].value == raw[j].value
  {
    k :| 0 <= k < |r| && r[k] <= j && r[k] < |raw| && raw[r[k]].value == raw[j].value;
  }

  /** The first covering function is in the remap. */
  lemma {:induction false} FirstIsThere(raw: seq<Symbol>, r: seq<nat>, addr: nat) returns (k: nat)
    requires IsRemap(raw, r) && Aliased(raw) && FirstFunction(raw, addr).Some?
    ensures k < |r| && Some(r[k]) == FirstFunction(raw, addr)
  {
    hide FirstFunction, Aliased, Sane, Stands;
    var j := FirstFunction(raw, addr).value;
    k := StandIn(raw, r, j);
    SameSize(raw, r[k], j);
    assert Covers(raw[r[k]], addr);
  }

  /** Searching through the remap finds the first covering function of the file,
      whatever order the file has. */
  lemma {:induction false} RemapFindsFirst(raw: seq<Symbol>, r: seq<nat>, addr: nat)
    requires IsRemap(raw, r) && Aliased(raw)
    ensures Within(raw, r)
    ensures var hit := LinearSearch(Remapped(raw, r), addr);
            && (hit.None? <==> FirstFunction(raw, addr).None?)
            && (hit.Some? ==> hit.value.index < |r| && Some(r[hit.value.index]) == FirstFunction(raw, addr))
  {
    hide FirstFunction, LinearSearch, Sorted, Aliased, Stands;
    RemapIsSorted(raw, r);
    var tab := Remapped(raw, r);
    var hit, first := LinearSearch(tab, addr), FirstFunction(raw, addr);
    if first.Some? {
      var k := FirstIsThere(raw, r, addr);
      assert Covers(tab[k], addr);
      SortedIsDisjoint(tab);
      LinearIs(tab, k, addr);
    }
  }

  lemma {:induction false} SameSize(raw: seq<Symbol>, i: nat, j: nat)
    requires Aliased(raw) && i <= j < |raw| && raw[i].func && raw[j].func && raw[i].value == raw[j].value
    ensures raw[i].size == raw[j].size
  {
    assert Sane(raw[i]) && Sane(raw[j]);
  }

  // ---------- Names ----------

  datatype Named = Named(name: string, offset: nat)

  /** The string table: where it is, and the string read at an address within a limit. */
  datatype Strings = Strings(offset: nat, end: nat, read: (nat, nat) -> Option<string>)

  /** The name of a function whose string can be read. */
  function NameIn(strings: Strings, s: Symbol): (r: Option<string>) {
    var str := strings.offset + s.name;
    if str >= U64 || str >= strings.end || !s.func then None else strings.read(str, strings.end - str)
  }

  function Naming(strings: Strings, s: Symbol, offset: nat): (r: Option<Named>) {
    var name := NameIn(strings, s);
    if name.None? then None else Some(Named(name.value, offset))
  }

  /** The reference: the name of the first function, in file order, that covers `addr`. */
  function FunctionName(strings: Strings, raw: seq<Symbol>, addr: nat): (r: Option<Named>) {
    var i := FirstFunction(raw, addr);
    if i.None? then None else Naming(strings, raw[i.value], addr - raw[i.value].value)
  }

  /** The name, if it has one, of some symbol that covers `addr`, at its offset there. */
  ghost predicate NamedAt(strings: Strings, raw: seq<Symbol>, addr: nat, r: Option<Named>) {
    exists i :: 0 <= i < |raw| && Covers(raw[i], addr) && r == Naming(strings, raw[i], addr - raw[i].value)
  }

  lemma {:induction false} RightIsNamed(strings: Strings, raw: seq<Symbol>, hit: Hit, addr: nat)
    requires Right(raw, addr, hit)
    ensures NamedAt(strings, raw, addr, Naming(strings, raw[hit.index], hit.offset))
  {
    hide Naming;
  }

  lemma {:induction false} FirstIsNamed(strings: Strings, raw: seq<Symbol>, addr: nat)
    ensures FirstFunction(raw, addr).Some? ==> NamedAt(strings, raw, addr, FunctionName(strings, raw, addr))
    ensures FirstFunction(raw, addr).None? ==> FunctionName(strings, raw, addr) == None
  {
    hide Naming, FirstFunction;
  }

  predicate FunctionsSized(raw: seq<Symbol>) {
    forall i :: 0 <= i < |raw| && raw[i].func ==> raw[i].size > 0
  }

  lemma {:induction false} DisjointIsAliased(raw: seq<Symbol>)
    requires Disjoint(raw) && FunctionsSized(raw)
    ensures Aliased(raw)
  {
  }

  lemma {:induction false} AliasedPrefix(raw: seq<Symbol>, n: nat)
    requires Aliased(raw) && n <= |raw|
    ensures Aliased(raw[..n])
  {
  }

  /** What an unsorted search hits is the function to name, or no function is. */
  lemma {:induction false} FoundIsFirst(strings: Strings, raw: seq<Symbol>, hit: Hit, addr: nat)
    requires Disjoint(raw) && Right(raw, addr, hit)
    ensures hit.index < |raw| && FunctionName(strings, raw, addr) == Naming(strings, raw[hit.index], hit.offset)
  {
    hide LinearSearch, FirstFunction, Disjoint;
    var first := FirstFunction(raw, addr);
    if first.Some? {
      OneCovers(raw, first.value, hit.index, addr);
    }
  }

  /** The symbol that took the end is a mark, and has no name. */
  lemma {:induction false} TakerIsMark(tab: seq<Symbol>, readable: nat -> bool, cache: map<nat, Info>, addr: nat,
                                       hit: Hit)
    requires Disjoint(tab) && FunctionsSized(tab) && Cached(tab, cache) && EndTaken(tab, readable, cache, addr)
    requires Search(tab, readable, cache, addr).hit == Some(hit)
    ensures hit.index < |tab| && !tab[hit.index].func
  {
    hide Bisect, End, Sub64, Stop, Plain;
    var above, below := UpperBound(cache, addr), LastNotAbove(cache, addr);
    var last := if above.Some? then cache[above.value].index else |tab| % U32;
    var first := if below.Some? then cache[below.value].index + 1 else 0;
    BisectStops(tab, readable, cache, addr, first, last);
    var stop, r := Stop(tab, readable, addr, first, last), Bisect(tab, readable, cache, addr, first, last);
    EndOf(tab, stop.value);
    EndOf(tab, hit.index);
    if tab[hit.index].size > 0 {
      OneEnd(tab, hit.index, stop.value);
    }
  }

  lemma {:induction false} MissIsNotTaken(tab: seq<Symbol>, readable: nat -> bool, cache: map<nat, Info>, addr: nat)
    requires AllPlain(tab) && Cached(tab, cache) && Search(tab, readable, cache, addr).hit.None?
    ensures !EndTaken(tab, readable, cache, addr)
  {
    hide Bisect, End, Sub64, Stop, Plain;
    var above, below := UpperBound(cache, addr), LastNotAbove(cache, addr);
    var last := if above.Some? then cache[above.value].index else |tab| % U32;
    var first := if below.Some? then cache[below.value].index + 1 else 0;
    BisectStops(tab, readable, cache, addr, first, last);
  }

  /** What a lookup answers before there is a remap table. With sized symbols apart
      it is the name of the function that covers the address, exactly when no mark
      has taken the end of that function in the cache, so always where no mark lies
      at the end of a sized symbol. With aliases it is the name of some symbol that
      covers the address. */
  ghost predicate FirstAnswer(strings: Strings, raw: seq<Symbol>, readable: nat -> bool, cache: map<nat, Info>,
                              addr: nat, r: Option<Named>)
    requires Indexed(raw, cache)
  {
    var name := FunctionName(strings, raw, addr);
    && (Disjoint(raw) && FunctionsSized(raw) ==>
          (r == name <==> name == None || !EndTaken(raw, readable, cache, addr)))
    && (Disjoint(raw) && FunctionsSized(raw) && NoMarkAtEnd(raw) ==> r == name)
    && (OneStartPerEnd(raw) && Aliased(raw) ==>
          NamedAt(strings, raw, addr, r) || (r == None && FirstFunction(raw, addr).None?))
  }

  /** What a hit of the unsorted search says of the function to name. */
  lemma {:induction false} HitMeans(strings: Strings, raw: seq<Symbol>, readable: nat -> bool, cache: map<nat, Info>,
                                    addr: nat, hit: Hit)
    requires Indexed(raw, cache) && (AllPlain(raw) ==> Cached(raw, cache)) && hit.index < |raw|
    requires Search(raw, readable, cache, addr).hit == Some(hit)
    ensures FirstAnswer(strings, raw, readable, cache, addr, Naming(strings, raw[hit.index], hit.offset))
  {
    hide Search, EndTaken, FunctionName, Naming, NamedAt, Plain, Right, NoMarkAtEnd, Aliased, FirstFunction;
    if AllPlain(raw) {
      SearchRightIff(raw, readable, cache, addr);
      if Disjoint(raw) && NoMarkAtEnd(raw) {
        DisjointEnds(raw);
        SearchSound(raw, readable, cache, addr);
      }
      if OneStartPerEnd(raw) {
        SearchSound(raw, readable, cache, addr);
        RightIsNamed(strings, raw, hit, addr);
      }
      if Disjoint(raw) && Right(raw, addr, hit) {
        FoundIsFirst(strings, raw, hit, addr);
      }
      if Disjoint(raw) && FunctionsSized(raw) && !Right(raw, addr, hit) {
        TakerIsMark(raw, readable, cache, addr, hit);
        NoFunctionNoName(strings, raw[hit.index], hit.offset);
      }
    }
  }

  /** What a miss leaves to the remap table. */
  lemma {:induction false} MissMeans(strings: Strings, raw: seq<Symbol>, readable: nat -> bool, cache: map<nat, Info>,
                                     addr: nat, r: Option<Named>)
    requires Indexed(raw, cache) && (AllPlain(raw) ==> Cached(raw, cache))
    requires Search(raw, readable, cache, addr).hit == None
    requires Aliased(raw) ==> r == FunctionName(strings, raw, addr)
    ensures FirstAnswer(strings, raw, readable, cache, addr, r)
  {
    hide Search, EndTaken, FunctionName, NamedAt, Plain, NoMarkAtEnd, Aliased, FirstFunction;
    if AllPlain(raw) {
      MissIsNotTaken(raw, readable, cache, addr);
    }
    if Disjoint(raw) && FunctionsSized(raw) {
      DisjointIsAliased(raw);
    }
    FirstIsNamed(strings, raw, addr);
  }

  lemma {:induction false} NoFunctionNoName(strings: Strings, s: Symbol, offset: nat)
    requires !s.func
    ensures Naming(strings, s, offset) == None
  {
  }

  lemma {:induction false} PrefixRemap(raw: seq<Symbol>, n: nat, remap: seq<nat>)
    requires n <= |raw| && IsRemap(raw[..n], remap)
    ensures Within(raw, remap) && Within(raw[..n], remap) && Remapped(raw, remap) == Remapped(raw[..n], remap)
    ensures |remap| <= |raw|
  {
    hide Stands;
  }

  // ---------- The class ----------

  /** Where in the file the entry at a table position is. */
  function Slot(remap: Option<seq<nat>>, current: nat): (r: nat) {
    if remap.Some? && current < |remap.value| then remap.value[current] else current
  }

  function Slots(remap: Option<seq<nat>>, readable: nat -> bool): (r: nat -> bool) {
    (i: nat) => readable(Slot(remap, i))
  }

  class SymbolFile {
    const raw: seq<Symbol>
    const strings: Strings
    var symbols: map<nat, Info>
    var names: map<nat, string>
    var remap: Option<seq<nat>>
    // How much of the file could be read when the remap table was built.
    ghost var built: nat

    ghost predicate Valid()
      reads this
    {
      && (remap.Some? ==> built <= |raw| && IsRemap(raw[..built], remap.value))
      && Indexed(Table(), symbols)
      && (AllPlain(Table()) ==> Cached(Table(), symbols))
      && NamesAre(strings, Table(), names)
    }

    /** The symbols the search sees: the file's, or the remapped ones. */
    ghost function Table(): seq<Symbol>
      reads this
    {
      if remap.Some? && Within(raw, remap.value) then Remapped(raw, remap.value) else raw
    }

    constructor (raw: seq<Symbol>, strings: Strings)
      ensures Valid() && this.raw == raw && this.strings == strings && symbols == map[] && remap.None?
    {
      this.raw, this.strings, symbols, names, remap, built := raw, strings, map[], map[], None, 0;
    }

    lemma SlotIsEntry(current: nat)
      requires Valid() && current < |Table()|
      ensures Slot(remap, current) < |raw| && Table()[current] == raw[Slot(remap, current)]
    {
      hide Stands;
      if remap.Some? {
        PrefixRemap(raw, built, remap.value);
      }
    }

    lemma TableSize()
      requires Valid()
      ensures |Table()| == if remap.Some? then |remap.value| else |raw|
    {
      hide Stands;
      if remap.Some? {
        PrefixRemap(raw, built, remap.value);
      }
    }

    /** The loop of the search. */
    method SearchBetween(addr: nat, readable: nat -> bool, first0: nat, last0: nat) returns (hit: Option<Hit>)
      requires Valid() && last0 <= |Table()|
      modifies this`symbols
      ensures Valid()
      ensures var r := Bisect(Table(), Slots(remap, readable), old(symbols), addr, first0, last0);
              hit == r.hit && symbols == r.cache
      ensures hit.Some? ==> hit.value.index < |Table()|
    {
      hide AllPlain, Cached, IsRemap, End, Bisect, Emplace, Indexed, NamesAre;
      ghost var tab, slots := Table(), Slots(remap, readable);
      ghost var all := Bisect(tab, slots, symbols, addr, first0, last0);
      var first: nat, last: nat := first0, last0;
      while first < last
        invariant last <= |tab| && tab == Table() && Valid()
        invariant all == Bisect(tab, slots, symbols, addr, first, last)
        decreases last - first
      {
        BisectStep(tab, slots, symbols, addr, first, last);
        var current := first + (last - first) / 2;
        var slot := Slot(remap, current);
        SlotIsEntry(current);
        assert slots(current) == readable(slot);
        if !readable(slot) {
          return None;
        }
        var sym := raw[slot];
        EmplaceIndexed(tab, symbols, current);
        if AllPlain(tab) {
          EmplaceKeeps(tab, symbols, current);
        }
        symbols := Emplace(symbols, End(sym), Info(sym.size % U32, current));
        if addr < sym.value {
          last := current;
        } else if addr < End(sym) {
          return Some(Hit(symbols[End(sym)].index, addr - sym.value));
        } else {
          first := current + 1;
        }
      }
      BisectDone(tab, slots, symbols, addr, first, last);
      return None;
    }

    method BinarySearch(addr: nat, readable: nat -> bool) returns (hit: Option<Hit>)
      requires Valid()
      modifies this`symbols
      ensures Valid()
      ensures var r := Search(Table(), Slots(remap, readable), old(symbols), addr);
              hit == r.hit && symbols == r.cache
      ensures hit.Some? ==> hit.value.index < |Table()|
    {
      hide AllPlain, Cached, Bisect, Sub64, IsRemap, NamesAre;
      TableSize();
      var above, below := UpperBound(symbols, addr), LastNotAbove(symbols, addr);
      if above.Some? {
        var value := Sub64(above.value, symbols[above.value].size);
        if value <= addr {
          return Some(Hit(symbols[above.value].index, addr - value));
        }
      }
      var count := (if remap.Some? then |remap.value| else |raw|) % U32;
      var last := if above.Some? then symbols[above.value].index else count;
      var first := if below.Some? then symbols[below.value].index + 1 else 0;
      hit := SearchBetween(addr, readable, first, last);
    }

    /** The name of the symbol found: the one kept from an earlier lookup, or one
        read now and kept. */
    method NameOf(hit: Hit, readable: nat -> bool) returns (r: Option<Named>)
      requires Valid() && hit.index < |Table()|
      modifies this`names
      ensures Valid()
      ensures r == if hit.index in old(names) || readable(Slot(remap, hit.index))
                   then Naming(strings, Table()[hit.index], hit.offset) else None
    {
      hide IsRemap, Indexed, Cached, AllPlain;
      if hit.index !in names {
        var slot := Slot(remap, hit.index);
        SlotIsEntry(hit.index);
        if !readable(slot) {
          return None;
        }
        var name := NameIn(strings, raw[slot]);
        if name.None? {
          return None;
        }
        names := names[hit.index := name.value];
      }
      return Some(Named(names[hit.index], hit.offset));
    }

    /** The remap table replaces the file order, and with it the caches. */
    method Remap(readable: nat -> bool)
      requires Valid() && remap.None?
      modifies this
      ensures Valid() && remap.Some? && built == ReadablePrefix(readable, |raw|)
    {
      var table := BuildRemapTable(raw, readable);
      remap, symbols, names, built := Some(table), map[], map[], ReadablePrefix(readable, |raw|);
      EmptyCache(Table());
    }

    /** A search through the remap table. */
    method SearchRemapped(addr: nat, readable: nat -> bool) returns (hit: Option<Hit>)
      requires Valid() && remap.Some?
      modifies this`symbols
      ensures Valid() && (hit.Some? ==> hit.value.index < |Table()|)
      ensures Aliased(raw) && (forall i: nat :: readable(i)) ==>
                FunctionName(strings, raw[..built], addr) ==
                if hit.None? then None else Naming(strings, Table()[hit.value.index], hit.value.offset)
    {
      hide Search, LinearSearch, FirstFunction, Cached, Indexed, Stands, Aliased, Sorted, Disjoint, AllPlain;
      hide IsRemap, Naming, NamesAre, NoMarkAtEnd;
      ghost var tab, slots, cache, part := Table(), Slots(remap, readable), symbols, raw[..built];
      hit := BinarySearch(addr, readable);
      if Aliased(raw) && forall i: nat :: readable(i) {
        AliasedPrefix(raw, built);
        PrefixRemap(raw, built, remap.value);
        RemapIsSorted(part, remap.value);
        SortedIsDisjoint(tab);
        assert forall i: nat :: slots(i) == readable(Slot(remap, i));
        SearchIsLinear(tab, slots, cache, addr);
        RemapFindsFirst(part, remap.value, addr);
      }
    }

    method GetName(addr: nat, readable: nat -> bool) returns (r: Option<Named>)
      requires Valid()
      modifies this
      ensures Valid()
      // Everything can be read, and there is no remap table yet.
      ensures (forall i: nat :: readable(i)) && old(remap).None? ==>
                FirstAnswer(strings, raw, Slots(None, readable), old(symbols), addr, r)
      // The remap table was built from what could be read then.
      ensures Aliased(raw) && (forall i: nat :: readable(i)) && old(remap).Some? ==>
                r == FunctionName(strings, raw[..old(built)], addr)
    {
      hide Search, LinearSearch, FirstFunction, IsRemap, Cached, Indexed, Naming, NamesAre, AllPlain, FirstAnswer;
      hide FunctionName, Aliased;
      ghost var cache := symbols;
      var hit;
      if remap.None? {
        hit := BinarySearch(addr, readable);
        if hit.None? {
          r := RemappedName(addr, readable);
          if forall i: nat :: readable(i) {
            MissMeans(strings, raw, Slots(None, readable), cache, addr, r);
          }
          return;
        }
        HitMeans(strings, raw, Slots(None, readable), cache, addr, hit.value);
      } else {
        hit := SearchRemapped(addr, readable);
      }
      if hit.None? {
        return None;
      }
      r := NameOf(hit.value, readable);
    }

    /** Builds the remap table and searches through it. */
    method RemappedName(addr: nat, readable: nat -> bool) returns (r: Option<Named>)
      requires Valid() && remap.None?
      modifies this
      ensures Valid()
      ensures Aliased(raw) && (forall i: nat :: readable(i)) ==> r == FunctionName(strings, raw, addr)
    {
      hide Search, LinearSearch, FirstFunction, IsRemap, Cached, Indexed, Naming, NamesAre, AllPlain, FunctionName,
           Aliased;
      Remap(readable);
      assert raw[..|raw|] == raw;
      var hit := SearchRemapped(addr, readable);
      if hit.None? {
        return None;
      }
      r := NameOf(hit.value, readable);
    }
  }

  /** Every name kept is the one the symbol has. */
  ghost predicate NamesAre(strings: Strings, tab: seq<Symbol>, names: map<nat, string>) {
    forall i :: i in names ==> i < |tab| && NameIn(strings, tab[i]) == Some(names[i])
  }
}
