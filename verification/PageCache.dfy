/** The page cache in front of a memory object (unwindstack/Memory.cpp,
    unwindstack/MemoryCache.h). */
module PageCache {
  const PAGE: nat := 4096
  const MAX_CACHED_READ: nat := 64

  /** A memory: which addresses can be read, and what they hold. */
  datatype Memory = Memory(readable: nat -> bool, byte: nat -> int)

  /** A read returns as many bytes as can be read from the front. */
  function Read(m: Memory, addr: nat, size: nat): (r: seq<int>)
    ensures |r| <= size
    decreases size
  {
    if size == 0 || !m.readable(addr) then [] else [m.byte(addr)] + Read(m, addr + 1, size - 1)
  }

  type Cache = map<nat, seq<int>>

  /** Every cached page is what the memory would give. */
  ghost predicate Agrees(m: Memory, cache: Cache) {
    forall p :: p in cache ==> |cache[p]| == PAGE && cache[p] == Read(m, p * PAGE, PAGE)
  }

  // ---------- Reads in pieces ----------

  lemma {:induction false} ReadSplit(m: Memory, addr: nat, a: nat, b: nat)
    requires |Read(m, addr, a)| == a
    ensures Read(m, addr, a + b) == Read(m, addr, a) + Read(m, addr + a, b)
    decreases a
  {
    if a > 0 {
      ReadSplit(m, addr + 1, a - 1, b);
    }
  }

  /** A full read contains every shorter read inside it. */
  lemma {:induction false} ReadInside(m: Memory, addr: nat, n: nat, at: nat, k: nat)
    requires |Read(m, addr, n)| == n && at + k <= n
    ensures Read(m, addr + at, k) == Read(m, addr, n)[at..at + k]
    decreases at
  {
    if at > 0 {
      ReadInside(m, addr + 1, n - 1, at - 1, k);
      var r := Read(m, addr, n);
      assert r[1..] == Read(m, addr + 1, n - 1);
      assert r[at..at + k] == r[1..][at - 1..at - 1 + k];
    } else {
      ReadSplitFull(m, addr, k, n - k);
    }
  }

  lemma {:induction false} ReadSplitFull(m: Memory, addr: nat, a: nat, b: nat)
    requires |Read(m, addr, a + b)| == a + b
    ensures |Read(m, addr, a)| == a && Read(m, addr, a + b)[..a] == Read(m, addr, a)
    decreases a
  {
    if a > 0 {
      ReadSplitFull(m, addr + 1, a - 1, b);
    }
  }

  // ---------- The cached read ----------

  datatype Answer = Answer(bytes: seq<int>, cache: Cache)

  /** Looks a page up, reading it whole on a miss; an unreadable page stays out. */
  function Load(m: Memory, cache: Cache, page: nat): (r: Cache) {
    if page in cache then cache
    else if |Read(m, page * PAGE, PAGE)| == PAGE then cache[page := Read(m, page * PAGE, PAGE)]
    else cache
  }

  function CachedRead(m: Memory, cache: Cache, addr: nat, size: nat): (r: Answer)
    requires Agrees(m, cache) && size <= MAX_CACHED_READ
  {
    var page := addr / PAGE;
    var at := addr % PAGE;
    var c1 := Load(m, cache, page);
    if page !in c1 then Answer(Read(m, addr, size), c1)
    else if at + size <= PAGE then Answer(c1[page][at..at + size], c1)
    else
      var first := PAGE - at;
      var c2 := Load(m, c1, page + 1);
      if page + 1 !in c2 then Answer(c1[page][at..] + Read(m, (page + 1) * PAGE, size - first), c2)
      else Answer(c1[page][at..] + c2[page + 1][..size - first], c2)
  }

  lemma {:induction false} LoadAgrees(m: Memory, cache: Cache, page: nat)
    requires Agrees(m, cache)
    ensures Agrees(m, Load(m, cache, page))
  {
    hide Read;
  }

  lemma {:induction false} PageOf(addr: nat)
    ensures addr == addr / PAGE * PAGE + addr % PAGE && (addr / PAGE + 1) * PAGE == addr + (PAGE - addr % PAGE)
  {
  }

  /** A cached read is the direct read, bytes and count, and keeps the cache true. */
  lemma {:induction false} CachedReadIsDirect(m: Memory, cache: Cache, addr: nat, size: nat)
    requires Agrees(m, cache) && size <= MAX_CACHED_READ
    ensures var r := CachedRead(m, cache, addr, size); r.bytes == Read(m, addr, size) && Agrees(m, r.cache)
  {
    hide Read, Load;
    var page, at := addr / PAGE, addr % PAGE;
    PageOf(addr);
    LoadAgrees(m, cache, page);
    var c1 := Load(m, cache, page);
    if page in c1 {
      if at + size <= PAGE {
        ReadInside(m, page * PAGE, PAGE, at, size);
      } else {
        var first := PAGE - at;
        ReadInside(m, page * PAGE, PAGE, at, first);
        ReadSplit(m, addr, first, size - first);
        LoadAgrees(m, c1, page + 1);
        var c2 := Load(m, c1, page + 1);
        assert c1[page][at..at + first] == c1[page][at..];
        if page + 1 in c2 {
          ReadInside(m, (page + 1) * PAGE, PAGE, 0, size - first);
          assert c2[page + 1][0..size - first] == c2[page + 1][..size - first];
        }
      }
    }
  }

  // ---------- Any earlier reads ----------

  datatype Request = Request(addr: nat, size: nat)

  function CacheAfter(m: Memory, rs: seq<Request>): (r: Cache)
    ensures Agrees(m, r)
  {
    if rs == [] then map[] else
    var n := |rs| - 1;
    var c := CacheAfter(m, rs[..n]);
    if rs[n].size > MAX_CACHED_READ then c else
    CachedReadIsDirect(m, c, rs[n].addr, rs[n].size);
    CachedRead(m, c, rs[n].addr, rs[n].size).cache
  }

  lemma {:induction false} InvisibleAfterAnyReads(m: Memory, rs: seq<Request>, addr: nat, size: nat)
    requires size <= MAX_CACHED_READ
    ensures CachedRead(m, CacheAfter(m, rs), addr, size).bytes == Read(m, addr, size)
  {
    CachedReadIsDirect(m, CacheAfter(m, rs), addr, size);
  }

  class MemoryCache {
    var cache: Cache

    constructor ()
      ensures cache == map[]
    {
      cache := map[];
    }

    method Clear()
      modifies this
      ensures cache == map[] && forall m: Memory :: Agrees(m, cache)
    {
      cache := map[];
    }

    /** Fetches a page into the cache if it is not there and can be read whole. */
    method Fetch(m: Memory, page: nat) returns (there: bool)
      requires Agrees(m, cache)
      modifies this
      ensures cache == Load(m, old(cache), page) && there == (page in cache) && Agrees(m, cache)
    {
      hide Read;
      LoadAgrees(m, cache, page);
      if page !in cache {
        var bytes := Read(m, page * PAGE, PAGE);
        if |bytes| != PAGE {
          return false;
        }
        cache := cache[page := bytes];
      }
      return true;
    }

    method InternalCachedRead(m: Memory, addr: nat, size: nat) returns (dst: seq<int>)
      requires Agrees(m, cache) && size <= MAX_CACHED_READ
      modifies this
      ensures dst == Read(m, addr, size) && Agrees(m, cache)
      ensures cache == CachedRead(m, old(cache), addr, size).cache
    {
      hide Read, Load;
      CachedReadIsDirect(m, cache, addr, size);
      var page := addr / PAGE;
      var there := Fetch(m, page);
      if !there {
        return Read(m, addr, size);
      }
      var at := addr % PAGE;
      var maxRead := (page + 1) * PAGE - addr;
      PageOf(addr);
      if size <= maxRead {
        return cache[page][at..at + size];
      }
      dst := cache[page][at..at + maxRead];
      page := page + 1;
      there := Fetch(m, page);
      if !there {
        return dst + Read(m, page * PAGE, size - maxRead);
      }
      dst := dst + cache[page][..size - maxRead];
    }

    /** Small reads go through the cache, large ones past it: no caller can tell. */
    method ReadAt(m: Memory, addr: nat, size: nat) returns (dst: seq<int>)
      requires Agrees(m, cache)
      modifies this
      ensures dst == Read(m, addr, size) && Agrees(m, cache)
    {
      if size > MAX_CACHED_READ {
        return Read(m, addr, size);
      }
      dst := InternalCachedRead(m, addr, size);
    }
  }
}
