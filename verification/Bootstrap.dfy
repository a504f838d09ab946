/** The allocator that serves the process before libc's is resolved: one mapping
    per block, a header in front of each payload, all headers in one list
    (src/alloc_hook.cpp). */
module Bootstrap {
  import opened Wrappers

  const SIZE_MAX: nat := 0xffff_ffff_ffff_ffff
  const HEADER: nat := 48
  const HEADER_ALIGN: nat := 16
  const WORD_ALIGN: nat := 8
  const MAGIC: nat := 0x6d61_6c6c_6f63_5f68

  datatype Errno = EINVAL | ENOMEM | MMAP

  datatype Header = Header(base: nat, size: nat, requested: nat, magic: nat, next: nat)

  // ---------- Arithmetic ----------

  predicate IsPowerOfTwo(v: nat) {
    v == 1 || (v > 1 && v % 2 == 0 && IsPowerOfTwo(v / 2))
  }

  /** The least multiple of `a` not below `x`. */
  function RoundUp(x: nat, a: nat): (r: nat)
    requires a > 0
    ensures x <= r < x + a && r % a == 0
  {
    DownIsMultiple(x + a - 1, a);
    x + a - 1 - (x + a - 1) % a
  }

  lemma {:induction false} DownIsMultiple(x: nat, a: nat)
    requires a > 0
    ensures (x - x % a) % a == 0
  {
    var q := x / a;
    assert x - x % a == q * a + 0;
    MultipleMod(q, a);
  }

  lemma {:induction false} MultipleMod(q: nat, a: nat)
    requires a > 0
    ensures q * a % a == 0
  {
    var x := q * a;
    var p, r := x / a, x % a;
    assert x == p * a + r;
    assert (q - p) * a == r;
    OnlyZero(q - p, a, r);
  }

  lemma {:induction false} OnlyZero(n: int, a: nat, r: nat)
    requires n * a == r < a
    ensures r == 0
  {
    assert n >= 1 ==> n * a >= a;
    assert n <= -1 ==> n * a + a <= 0;
  }

  /** A smaller power of two divides a larger one. */
  lemma {:induction false} PowersDivide(a: nat, b: nat)
    requires IsPowerOfTwo(a) && IsPowerOfTwo(b) && a <= b
    ensures b % a == 0
  {
    if a > 1 {
      PowersDivide(a / 2, b / 2);
      var q := b / 2 / (a / 2);
      assert b / 2 == q * (a / 2);
      assert b == q * a;
      MultipleMod(q, a);
    }
  }

  lemma {:induction false} DividesThrough(x: nat, a: nat, b: nat)
    requires a > 0 && b > 0 && b % a == 0 && x % b == 0
    ensures x % a == 0
  {
    var p, q := x / b, b / a;
    assert x == p * b && b == q * a;
    assert p * (q * a) == (p * q) * a;
    MultipleMod(p * q, a);
  }

  function PageAlign(size: nat, page: nat): (r: nat)
    requires page > 0
    ensures r == 0 <==> !IsPowerOfTwo(page) || size > SIZE_MAX - (page - 1) || size == 0
    ensures r != 0 ==> size <= r < size + page && r % page == 0
  {
    if !IsPowerOfTwo(page) || size > SIZE_MAX - (page - 1) then 0 else RoundUp(size, page)
  }

  function Effective(alignment: nat): (r: nat) {
    if alignment > HEADER_ALIGN then alignment else HEADER_ALIGN
  }

  /** How much is mapped for a block, when it can be. */
  function MapSize(alignment: nat, size: nat, page: nat): (r: Option<nat>)
    requires page > 0 && IsPowerOfTwo(alignment)
    ensures r.Some? ==> HEADER + size + (Effective(alignment) - 1) <= r.value
  {
    if size > SIZE_MAX - HEADER || Effective(alignment) - 1 > SIZE_MAX - (HEADER + size) then None else
    var n := PageAlign(HEADER + size + (Effective(alignment) - 1), page);
    if n == 0 then None else Some(n)
  }

  /** A block can be mapped exactly when header, slack and payload, rounded up to
      whole pages, are a size; and no page more than needed is mapped. */
  lemma {:induction false} MapSizeIff(alignment: nat, size: nat, page: nat)
    requires page > 0 && IsPowerOfTwo(alignment)
    ensures var total := HEADER + size + (if alignment < HEADER_ALIGN then HEADER_ALIGN else alignment) - 1;
            var n := MapSize(alignment, size, page);
            && (n.Some? <==> IsPowerOfTwo(page) && total + (page - 1) <= SIZE_MAX)
            && (n.Some? ==> n.value % page == 0 && total <= n.value < total + page)
  {
    hide IsPowerOfTwo;
  }

  lemma {:induction false} EffectivePositive(alignment: nat)
    ensures Effective(alignment) > 0
  {
  }

  /** A block fits its mapping, header and payload, at the alignment asked for. */
  lemma {:induction false} PlacementFits(base: nat, mapped: nat, alignment: nat, size: nat)
    requires IsPowerOfTwo(alignment) && HEADER + size + (Effective(alignment) - 1) <= mapped
    ensures var payload := RoundUp(base + HEADER, Effective(alignment));
            && base + HEADER <= payload && payload + size <= base + mapped
            && payload % alignment == 0 && payload % HEADER_ALIGN == 0
  {
    var eff := Effective(alignment);
    var payload := RoundUp(base + HEADER, eff);
    assert IsPowerOfTwo(HEADER_ALIGN) by {
      assert IsPowerOfTwo(2) && IsPowerOfTwo(4) && IsPowerOfTwo(8);
    }
    if alignment <= HEADER_ALIGN {
      PowersDivide(alignment, eff);
    } else {
      PowersDivide(HEADER_ALIGN, eff);
    }
    DividesThrough(payload, alignment, eff);
    DividesThrough(payload, HEADER_ALIGN, eff);
  }

  // ---------- The list ----------

  type Headers = map<nat, Header>

  predicate Distinct(chain: seq<nat>) {
    forall i, j :: 0 <= i < j < |chain| ==> chain[i] != chain[j]
  }

  function NextOf(chain: seq<nat>, i: nat): (r: nat) {
    if i < |chain| then chain[i] else 0
  }

  /** From `head` the list runs through exactly the live headers, once each. */
  ghost predicate Linked(h: Headers, head: nat, chain: seq<nat>) {
    && head == NextOf(chain, 0) && Distinct(chain)
    && (forall a :: a in chain <==> a in h)
    && (forall i :: 0 <= i < |chain| ==> chain[i] != 0 && chain[i] in h)
    && (forall i, j :: 0 <= i < |chain| && j == i + 1 ==> h[chain[i]].next == NextOf(chain, j))
  }

  predicate Placed(a: nat, hd: Header) {
    && 0 < hd.base <= a && a + HEADER + hd.requested <= hd.base + hd.size <= SIZE_MAX + 1
    && (a + HEADER) % HEADER_ALIGN == 0 && hd.magic == MAGIC
  }

  predicate Apart(base: nat, size: nat, hd: Header) {
    base + size <= hd.base || hd.base + hd.size <= base
  }

  /** Every block lies in its own mapping, and no two mappings meet. */
  ghost predicate Separate(h: Headers) {
    && (forall a :: a in h ==> Placed(a, h[a]))
    && (forall a, b :: a in h && b in h && a != b ==> Apart(h[a].base, h[a].size, h[b]))
  }

  ghost predicate Mapped(h: Headers, mem: map<nat, int>) {
    forall a, x :: a in h && h[a].base <= x < h[a].base + h[a].size ==> x in mem
  }

  /** The payload of the block with header `a`. */
  ghost function Payload(h: Headers, mem: map<nat, int>, a: int): (r: seq<int>)
    ensures |r| == if a in h then h[a].requested else 0
  {
    if a in h then seq(h[a].requested, i requires 0 <= i < h[a].requested => Byte(mem, a + HEADER + i)) else []
  }

  function Byte(mem: map<nat, int>, x: nat): (r: int) {
    if x in mem then mem[x] else 0
  }

  lemma {:induction false} PushLinks(h: Headers, head: nat, chain: seq<nat>, a: nat, hd: Header)
    requires Linked(h, head, chain) && a !in h && a != 0 && hd.next == head
    ensures Linked(h[a := hd], a, [a] + chain)
  {
    var c, h' := [a] + chain, h[a := hd];
    assert a !in chain;
    assert forall i :: 0 < i < |c| ==> c[i] == chain[i - 1];
    forall i, j | 0 <= i < |c| && j == i + 1 ensures h'[c[i]].next == NextOf(c, j) {
      if i > 0 {
        var i', j' := i - 1, j - 1;
        assert h[chain[i']].next == NextOf(chain, j');
      }
    }
  }

  function Without(chain: seq<nat>, k: nat): (r: seq<nat>)
    requires k < |chain|
  {
    chain[..k] + chain[k + 1..]
  }

  lemma {:induction false} WithoutParts(chain: seq<nat>, k: nat)
    requires k < |chain| && Distinct(chain)
    ensures |Without(chain, k)| == |chain| - 1 && Distinct(Without(chain, k))
    ensures forall a :: a in Without(chain, k) <==> a in chain && a != chain[k]
  {
    var c := Without(chain, k);
    assert forall i :: 0 <= i < |c| ==> c[i] == if i < k then chain[i] else chain[i + 1];
    forall a | a in chain && a != chain[k] ensures a in c {
      var i :| 0 <= i < |chain| && chain[i] == a;
      assert c[if i < k then i else i - 1] == a;
    }
  }

  /** Making the link that leads to block `k` skip it leaves the others linked. */
  lemma {:induction false} UnlinkKeeps(h: Headers, head: nat, chain: seq<nat>, k: nat, h': Headers)
    requires Linked(h, head, chain) && k < |chain|
    requires h' == (if k == 0 then h else h[chain[k - 1] := h[chain[k - 1]].(next := h[chain[k]].next)]) - {chain[k]}
    ensures Linked(h', if k == 0 then h[chain[k]].next else head, Without(chain, k))
  {
    hide Distinct;
    var c := Without(chain, k);
    WithoutParts(chain, k);
    forall i, j | 0 <= i < |c| && j == i + 1 ensures c[i] in h' && h'[c[i]].next == NextOf(c, j) {
      UnlinkNext(h, head, chain, k, h', i);
    }
    forall i | 0 <= i < |c| ensures c[i] != 0 && c[i] in h' {
      assert c[i] in c;
    }
    var one := 1;
    assert h[chain[0]].next == NextOf(chain, one);
  }

  lemma {:induction false} UnlinkNext(h: Headers, head: nat, chain: seq<nat>, k: nat, h': Headers, i: nat)
    requires Linked(h, head, chain) && k < |chain| && i + 1 < |chain|
    requires h' == (if k == 0 then h else h[chain[k - 1] := h[chain[k - 1]].(next := h[chain[k]].next)]) - {chain[k]}
    ensures var c := Without(chain, k); c[i] in h' && h'[c[i]].next == NextOf(c, i + 1)
  {
    var c := Without(chain, k);
    var j := if i < k then i else i + 1;
    assert c[i] == chain[j] && chain[j] != chain[k];
    var j1, k1 := j + 1, k + 1;
    assert h[chain[j]].next == NextOf(chain, j1);
    assert h[chain[k]].next == NextOf(chain, k1);
  }

  // ---------- The allocator ----------

  class BootstrapAllocator {
    const page: nat
    var head: nat
    var headers: Headers
    var mem: map<nat, int>
    ghost var chain: seq<nat>

    ghost predicate Valid()
      reads this
    {
      page > 0 && Linked(headers, head, chain) && Separate(headers) && Mapped(headers, mem)
    }

    /** `page` is the page size, or 4096 where the system does not tell. */
    constructor (page: nat)
      requires page > 0
      ensures Valid() && chain == [] && headers == map[] && this.page == page
    {
      this.page, head, headers, mem, chain := page, 0, map[], map[], [];
    }

    /** Whether `ptr` is a live block's payload. */
    method IsBootstrapPointer(ptr: nat) returns (r: bool)
      requires Valid()
      ensures r <==> ptr >= HEADER && ptr - HEADER in headers
    {
      if ptr == 0 {
        return false;
      }
      var header := head;
      ghost var i := 0;
      while header != 0
        invariant 0 <= i <= |chain| && header == NextOf(chain, i)
        invariant forall k :: 0 <= k < i ==> chain[k] + HEADER != ptr
        decreases |chain| - i
      {
        if headers[header].magic == MAGIC && header + HEADER == ptr {
          return true;
        }
        assert Placed(header, headers[header]);
        ghost var j := i + 1;
        assert headers[chain[i]].next == NextOf(chain, j);
        header, i := headers[header].next, j;
      }
      return false;
    }

    /** The kernel's answer: a fresh mapping of the size asked for, or failure. */
    ghost predicate Fresh(map_: Option<nat>, size: nat)
      reads this
    {
      map_.Some? ==>
        && 0 < map_.value && map_.value + size <= SIZE_MAX + 1
        && forall a :: a in headers ==> Apart(map_.value, size, headers[a])
    }

    method AlignedMalloc(alignment: nat, size: nat, map_: Option<nat>) returns (r: Result<nat, Errno>)
      requires Valid()
      requires IsPowerOfTwo(alignment) && MapSize(alignment, size, page).Some? ==>
                 Fresh(map_, MapSize(alignment, size, page).value)
      modifies this
      ensures Valid()
      ensures r.Ok? <==>
                && IsPowerOfTwo(alignment) && alignment >= WORD_ALIGN
                && MapSize(alignment, size, page).Some? && map_.Some?
      ensures r.Err? ==> head == old(head) && headers == old(headers) && mem == old(mem) && chain == old(chain)
      ensures r.Err? ==> r.error == if !IsPowerOfTwo(alignment) || alignment < WORD_ALIGN then EINVAL
                                    else if MapSize(alignment, size, page).None? then ENOMEM else MMAP
      ensures r.Ok? ==>
                && r.value >= HEADER && r.value % alignment == 0
                && var a := r.value - HEADER;
                && a !in old(headers) && a in headers && headers[a].requested == size
                && headers[a].base == map_.value && headers[a].size == MapSize(alignment, size, page).value
                && headers == old(headers)[a := headers[a]] && chain == [a] + old(chain)
                && Payload(headers, mem, a) == seq(size, i => 0)
                && forall b :: b in old(headers) ==> Payload(headers, mem, b) == old(Payload(headers, mem, b))
    {
      hide Linked, Separate, Mapped, Payload, RoundUp, Effective, MapSize, IsPowerOfTwo;
      if !IsPowerOfTwo(alignment) || alignment < WORD_ALIGN {
        return Err(EINVAL);
      }
      var mapped := MapSize(alignment, size, page);
      if mapped.None? {
        return Err(ENOMEM);
      }
      if map_.None? {
        return Err(MMAP);
      }
      var base := map_.value;
      PlacementFits(base, mapped.value, alignment, size);
      EffectivePositive(alignment);
      var payload := RoundUp(base + HEADER, Effective(alignment));
      var a := payload - HEADER;
      var hd := Header(base, mapped.value, size, MAGIC, head);
      ghost var h0, mem0 := headers, mem;
      NewIsApart(headers, a, hd);
      PushLinks(headers, head, chain, a, hd);
      mem := mem + Zeros(base, mapped.value);
      headers := headers[a := hd];
      head := a;
      chain := [a] + chain;
      NewIsMapped(h0, mem0, a, hd, mem);
      return Ok(payload);
    }

    /** Unlinks a live block and gives its mapping back; ignores any other pointer. */
    method Free(ptr: nat)
      requires Valid()
      modifies this
      ensures Valid()
      ensures ptr - HEADER !in old(headers) ==>
                head == old(head) && headers == old(headers) && mem == old(mem) && chain == old(chain)
      ensures ptr - HEADER in old(headers) ==>
                IsWithout(chain, old(chain), ptr - HEADER) && headers.Keys == old(headers).Keys - {ptr - HEADER}
      ensures forall b :: b in headers ==> b in old(headers) && SameBlock(headers[b], old(headers)[b])
      ensures forall b :: b in headers ==> Payload(headers, mem, b) == old(Payload(headers, mem, b))
    {
      hide Linked, Separate, Mapped, Placed;
      var live := IsBootstrapPointer(ptr);
      if !live {
        return;
      }
      var header := ptr - HEADER;
      ghost var i;
      var previous;
      previous, i := FindLink(header);
      ghost var h0, mem0, chain0 := headers, mem, chain;
      var hd := headers[header];
      if previous == 0 {
        head := hd.next;
      } else {
        headers := headers[previous := headers[previous].(next := hd.next)];
      }
      headers := headers - {header};
      mem := mem - Zeros(hd.base, hd.size).Keys;
      chain := Without(chain, i);
      UnlinkKeeps(h0, old(head), chain0, i, headers);
      OthersStay(h0, mem0, header, headers, mem);
    }

    /** Walks to the link that leads to a live header; 0 stands for the list's head. */
    method FindLink(header: nat) returns (previous: nat, ghost i: nat)
      requires Valid() && header in headers
      ensures i < |chain| && chain[i] == header
      ensures i == 0 ==> previous == 0
      ensures i > 0 ==> previous == chain[i - 1] && previous != 0 && previous != header && previous in headers
    {
      hide Separate, Mapped;
      previous, i := 0, 0;
      var current := head;
      assert header in chain;
      ghost var k :| 0 <= k < |chain| && chain[k] == header;
      while current != 0 && current != header
        invariant 0 <= i <= k && current == NextOf(chain, i)
        invariant previous == if i == 0 then 0 else chain[i - 1]
        decreases |chain| - i
      {
        ghost var j := i + 1;
        assert headers[chain[i]].next == NextOf(chain, j);
        previous, current, i := current, headers[current].next, j;
      }
    }

    method Malloc(size: nat, map_: Option<nat>) returns (r: Result<nat, Errno>)
      requires Valid()
      requires MapSize(HEADER_ALIGN, size, page).Some? ==> Fresh(map_, MapSize(HEADER_ALIGN, size, page).value)
      modifies this
      ensures Valid()
      ensures r.Ok? <==> MapSize(HEADER_ALIGN, size, page).Some? && map_.Some?
      ensures r.Err? ==> head == old(head) && headers == old(headers) && mem == old(mem) && chain == old(chain)
      ensures r.Ok? ==> r.value >= HEADER && r.value % HEADER_ALIGN == 0
      ensures r.Ok? ==> Added(old(headers), old(chain), r.value - HEADER, size)
      ensures r.Ok? ==> Payload(headers, mem, r.value - HEADER) == seq(size, i => 0)
      ensures r.Ok? ==> forall b :: b in old(headers) ==>
                b in headers && Payload(headers, mem, b) == old(Payload(headers, mem, b))
    {
      hide Linked, Separate, Mapped, Payload, MapSize, Fresh;
      r := AlignedMalloc(HEADER_ALIGN, size, map_);
    }

    /** One block more, first in the list; the others as they were. */
    ghost predicate Added(h: Headers, c: seq<nat>, a: nat, size: nat)
      reads this
    {
      a !in h && a in headers && headers[a].requested == size && headers == h[a := headers[a]] && chain == [a] + c
    }

    method Calloc(count: nat, size: nat, map_: Option<nat>) returns (r: Result<nat, Errno>)
      requires Valid()
      requires MapSize(HEADER_ALIGN, count * size, page).Some? ==>
                 Fresh(map_, MapSize(HEADER_ALIGN, count * size, page).value)
      modifies this
      ensures Valid()
      ensures count * size > SIZE_MAX ==> r == Err(ENOMEM)
      ensures r.Ok? <==> count * size <= SIZE_MAX && MapSize(HEADER_ALIGN, count * size, page).Some? && map_.Some?
      ensures r.Err? ==> head == old(head) && headers == old(headers) && mem == old(mem) && chain == old(chain)
      ensures r.Ok? ==> r.value >= HEADER && Added(old(headers), old(chain), r.value - HEADER, count * size)
      ensures r.Ok? ==> Payload(headers, mem, r.value - HEADER) == seq(count * size, i => 0)
      ensures r.Ok? ==> forall b :: b in old(headers) ==>
                b in headers && Payload(headers, mem, b) == old(Payload(headers, mem, b))
    {
      hide Linked, Separate, Mapped, Payload, MapSize, Fresh;
      var total := count * size;
      if total > SIZE_MAX {
        return Err(ENOMEM);
      }
      r := Malloc(total, map_);
      if r.Ok? {
        ghost var mem0 := mem;
        mem := mem + Zeros(r.value, total);
        WriteOne(headers, mem0, r.value - HEADER, mem, Zeros(r.value, total));
        ZeroReads(headers, mem0, r.value - HEADER);
      }
    }

    /** Copies the first `n` bytes of one block to another. */
    method CopyBytes(ptr: nat, to: nat, n: nat)
      requires Valid() && ptr >= HEADER && ptr - HEADER in headers
      requires to >= HEADER && to - HEADER in headers && ptr != to
      requires n <= headers[ptr - HEADER].requested && n <= headers[to - HEADER].requested
      modifies this`mem
      ensures Valid()
      ensures Payload(headers, mem, to - HEADER) ==
              old(Payload(headers, mem, ptr - HEADER))[..n] + old(Payload(headers, mem, to - HEADER))[n..]
      ensures forall b :: b in headers && b != to - HEADER ==> Payload(headers, mem, b) == old(Payload(headers, mem, b))
    {
      hide Linked, Separate, Mapped, Placed, Payload;
      ghost var mem0 := mem;
      InMemory(headers, mem, ptr - HEADER);
      var w := Copied(mem, ptr, to, n);
      mem := mem + w;
      WriteOne(headers, mem0, to - HEADER, mem, w);
      CopyReads(headers, mem0, ptr - HEADER, to - HEADER, n, mem);
    }

    /** Copies the first `n` bytes of one block to another and frees the first. */
    method Move(ptr: nat, to: nat, n: nat)
      requires Valid() && ptr >= HEADER && ptr - HEADER in headers
      requires to >= HEADER && to - HEADER in headers && ptr != to
      requires n <= headers[ptr - HEADER].requested && n <= headers[to - HEADER].requested
      modifies this
      ensures Valid()
      ensures IsWithout(chain, old(chain), ptr - HEADER) && headers.Keys == old(headers).Keys - {ptr - HEADER}
      ensures forall b :: b in headers ==> SameBlock(headers[b], old(headers)[b])
      ensures Payload(headers, mem, to - HEADER) ==
              old(Payload(headers, mem, ptr - HEADER))[..n] + old(Payload(headers, mem, to - HEADER))[n..]
      ensures forall b :: b in headers && b != to - HEADER ==> Payload(headers, mem, b) == old(Payload(headers, mem, b))
    {
      hide *;
      CopyBytes(ptr, to, n);
      Free(ptr);
    }

    method Realloc(ptr: nat, size: nat, map_: Option<nat>) returns (r: Option<nat>)
      requires Valid()
      requires MapSize(HEADER_ALIGN, size, page).Some? ==> Fresh(map_, MapSize(HEADER_ALIGN, size, page).value)
      modifies this
      ensures Valid()
      // A null pointer: a plain allocation. No room: nothing changes.
      ensures ptr == 0 || size > 0 ==> (r.Some? <==> MapSize(HEADER_ALIGN, size, page).Some? && map_.Some?)
      ensures r.None? && (ptr == 0 || size > 0) ==> headers == old(headers) && mem == old(mem) && chain == old(chain)
      // A size of zero: the block is freed.
      ensures ptr != 0 && size == 0 ==>
                r.None? && if ptr - HEADER in old(headers) then IsWithout(chain, old(chain), ptr - HEADER)
                    else chain == old(chain)
      // Otherwise the old block makes way exactly when it holds something.
      ensures r.Some? ==> r.value >= HEADER && r.value % HEADER_ALIGN == 0 && r.value - HEADER in headers
      ensures r.Some? ==> headers[r.value - HEADER].requested == size && r.value - HEADER !in old(headers)
      ensures r.Some? && Holds(old(headers), ptr) ==> IsWithout(chain, [r.value - HEADER] + old(chain), ptr - HEADER)
      ensures r.Some? && !Holds(old(headers), ptr) ==> chain == [r.value - HEADER] + old(chain)
      ensures r.Some? && Holds(old(headers), ptr) ==>
                var n := Min(old(headers)[ptr - HEADER].requested, size);
                Payload(headers, mem, r.value - HEADER)[..n] == old(Payload(headers, mem, ptr - HEADER))[..n]
      ensures forall b :: b in old(headers) && b in headers ==>
                Payload(headers, mem, b) == old(Payload(headers, mem, b))
    {
      hide Linked, Separate, Mapped, MapSize, Payload, IsWithout, Fresh;
      if ptr != 0 && size == 0 {
        Free(ptr);
        return None;
      }
      var live := IsBootstrapPointer(ptr);
      var oldSize := if live then headers[ptr - HEADER].requested else 0;
      var fresh_ := Malloc(size, map_);
      if fresh_.Err? {
        return None;
      }
      if oldSize != 0 {
        Move(ptr, fresh_.value, Min(oldSize, size));
      }
      return Some(fresh_.value);
    }
  }

  function Min(a: nat, b: nat): (r: nat) {
    if a < b then a else b
  }

  /** `ptr` is the payload of a live block of at least one byte. */
  predicate Holds(h: Headers, ptr: nat) {
    ptr >= HEADER && ptr - HEADER in h && h[ptr - HEADER].requested > 0
  }

  function Copied(mem: map<nat, int>, from: nat, to: nat, n: nat): (r: map<nat, int>)
    requires forall x :: from <= x < from + n ==> x in mem
    ensures forall x :: x in r <==> to <= x < to + n
    ensures forall x :: x in r ==> r[x] == mem[from + (x - to)]
  {
    if n == 0 then map[] else Copied(mem, from, to, n - 1)[to + n - 1 := mem[from + n - 1]]
  }

  lemma {:induction false} InMemory(h: Headers, mem: map<nat, int>, a: nat)
    requires Separate(h) && Mapped(h, mem) && a in h
    ensures forall x :: a + HEADER <= x < a + HEADER + h[a].requested ==> x in mem
  {
    assert Placed(a, h[a]);
  }

  /** Equal bytes in the payload's range, equal payloads. */
  lemma {:induction false} SamePayload(h: Headers, mem: map<nat, int>, h': Headers, mem': map<nat, int>, b: nat)
    requires b in h && b in h' && h[b].requested == h'[b].requested
    requires forall x: nat :: b + HEADER <= x < b + HEADER + h[b].requested ==> Byte(mem', x) == Byte(mem, x)
    ensures Payload(h', mem', b) == Payload(h, mem, b)
  {
    var p, p' := Payload(h, mem, b), Payload(h', mem', b);
    forall i | 0 <= i < |p| ensures p'[i] == p[i] {
      var x := b + HEADER + i;
      assert p[i] == Byte(mem, x) && p'[i] == Byte(mem', x);
    }
  }

  /** Inside one block's range no other block has a byte. */
  lemma {:induction false} RangesApart(h: Headers, a: nat, b: nat)
    requires Separate(h) && a in h && b in h && a != b
    ensures h[a].base <= a && a + HEADER + h[a].requested <= h[a].base + h[a].size
    ensures h[b].base <= b && b + HEADER + h[b].requested <= h[b].base + h[b].size
    ensures h[a].base + h[a].size <= h[b].base || h[b].base + h[b].size <= h[a].base
  {
    assert Placed(a, h[a]) && Placed(b, h[b]) && Apart(h[a].base, h[a].size, h[b]);
  }

  lemma {:induction false} CopyReads(h: Headers, mem: map<nat, int>, a: nat, b: nat, n: nat, mem': map<nat, int>)
    requires Separate(h) && a in h && b in h && a != b && n <= h[a].requested && n <= h[b].requested
    requires forall x :: a + HEADER <= x < a + HEADER + n ==> x in mem
    requires mem' == mem + Copied(mem, a + HEADER, b + HEADER, n)
    ensures Payload(h, mem', b) == Payload(h, mem, a)[..n] + Payload(h, mem, b)[n..]
  {
    hide Separate;
    var w := Copied(mem, a + HEADER, b + HEADER, n);
    var p, q := Payload(h, mem', b), Payload(h, mem, a)[..n] + Payload(h, mem, b)[n..];
    forall i | 0 <= i < |p| ensures p[i] == q[i] {
      var x, y := b + HEADER + i, a + HEADER + i;
      assert p[i] == Byte(mem', x);
      if i < n {
        assert x in w && w[x] == mem[y] && q[i] == Byte(mem, y);
      } else {
        assert x !in w && q[i] == Payload(h, mem, b)[i] == Byte(mem, x);
      }
    }
  }

  /** Growing an empty block leaves it behind: two blocks are live where one is in use. */
  method EmptyBlockStays(page: nat, size: nat, first: nat, second: nat) returns (a: BootstrapAllocator, p: nat, q: nat)
    requires page > 0 && size > 0
    requires MapSize(HEADER_ALIGN, 0, page).Some? && MapSize(HEADER_ALIGN, size, page).Some?
    requires var n, m := MapSize(HEADER_ALIGN, 0, page).value, MapSize(HEADER_ALIGN, size, page).value;
             0 < first && first + n <= second && second + m <= SIZE_MAX + 1
    ensures fresh(a) && a.Valid() && p >= HEADER && q >= HEADER && a.chain == [q - HEADER, p - HEADER]
  {
    hide Linked, Separate, Mapped, Payload, MapSize;
    a := new BootstrapAllocator(page);
    var r := a.AlignedMalloc(HEADER_ALIGN, 0, Some(first));
    p := r.value;
    var s := a.Realloc(p, size, Some(second));
    q := s.value;
  }

  lemma {:induction false} NewIsApart(h: Headers, a: nat, hd: Header)
    requires Separate(h) && Placed(a, hd) && forall b :: b in h ==> Apart(hd.base, hd.size, h[b])
    ensures a !in h && Separate(h[a := hd])
  {
    assert a in h ==> Placed(a, h[a]);
  }

  /** Fresh memory reads zero. */
  function Zeros(base: nat, size: nat): (r: map<nat, int>)
    ensures forall x :: x in r <==> base <= x < base + size
    ensures forall x :: x in r ==> r[x] == 0
  {
    if size == 0 then map[] else Zeros(base, size - 1)[base + size - 1 := 0]
  }

  lemma {:induction false} NewIsMapped(h: Headers, mem: map<nat, int>, a: nat, hd: Header, mem': map<nat, int>)
    requires Separate(h) && Mapped(h, mem) && a !in h && Separate(h[a := hd])
    requires mem' == mem + Zeros(hd.base, hd.size)
    ensures Mapped(h[a := hd], mem')
    ensures Payload(h[a := hd], mem', a) == seq(hd.requested, i => 0)
    ensures forall b :: b in h ==> Payload(h[a := hd], mem', b) == Payload(h, mem, b)
  {
    hide Separate, Payload;
    var h' := h[a := hd];
    NewReadsZero(h', mem, a, mem');
    forall b | b in h ensures Payload(h', mem', b) == Payload(h, mem, b) {
      RangesApart(h', b, a);
      SamePayload(h, mem, h', mem', b);
    }
  }

  lemma {:induction false} NewReadsZero(h: Headers, mem: map<nat, int>, a: nat, mem': map<nat, int>)
    requires Separate(h) && a in h && mem' == mem + Zeros(h[a].base, h[a].size)
    ensures Payload(h, mem', a) == seq(h[a].requested, i => 0)
  {
    assert Placed(a, h[a]);
    var p := Payload(h, mem', a);
    forall i | 0 <= i < |p| ensures p[i] == 0 {
      assert p[i] == Byte(mem', a + HEADER + i);
    }
  }

  /** The same block, wherever its link leads. */
  predicate SameBlock(x: Header, y: Header) {
    x == y.(next := x.next)
  }

  ghost predicate IsWithout(c: seq<nat>, chain: seq<nat>, a: nat) {
    exists k: nat :: k < |chain| && chain[k] == a && c == Without(chain, k)
  }

  lemma {:induction false} OthersStay(h: Headers, mem: map<nat, int>, a: nat, h': Headers, mem': map<nat, int>)
    requires Separate(h) && Mapped(h, mem) && a in h
    requires h'.Keys == h.Keys - {a} && forall b :: b in h' ==> SameBlock(h'[b], h[b])
    requires mem' == mem - Zeros(h[a].base, h[a].size).Keys
    ensures Separate(h') && Mapped(h', mem')
    ensures forall b :: b in h' ==> Payload(h', mem', b) == Payload(h, mem, b)
  {
    forall b | b in h' ensures Placed(b, h'[b]) {
      assert Placed(b, h[b]);
    }
    forall b, c | b in h' && c in h' && b != c ensures Apart(h'[b].base, h'[b].size, h'[c]) {
      assert Apart(h[b].base, h[b].size, h[c]);
    }
    forall b, x | b in h' && h'[b].base <= x < h'[b].base + h'[b].size ensures x in mem' && mem'[x] == mem[x] {
      RangesApart(h, b, a);
    }
    forall b | b in h' ensures Payload(h', mem', b) == Payload(h, mem, b) {
      RangesApart(h, b, a);
      SamePayload(h, mem, h', mem', b);
    }
  }

  /** Writing inside one payload changes no other. */
  lemma {:induction false} WriteOne(h: Headers, mem: map<nat, int>, a: nat, mem': map<nat, int>, w: map<nat, int>)
    requires Separate(h) && Mapped(h, mem) && a in h && mem' == mem + w
    requires forall x :: x in w ==> a + HEADER <= x < a + HEADER + h[a].requested
    ensures Mapped(h, mem')
    ensures forall b :: b in h && b != a ==> Payload(h, mem', b) == Payload(h, mem, b)
  {
    forall b | b in h && b != a ensures Payload(h, mem', b) == Payload(h, mem, b) {
      RangesApart(h, b, a);
      SamePayload(h, mem, h, mem', b);
    }
  }

  lemma {:induction false} ZeroReads(h: Headers, mem: map<nat, int>, a: nat)
    requires a in h
    ensures Payload(h, mem + Zeros(a + HEADER, h[a].requested), a) == seq(h[a].requested, i => 0)
  {
    var mem' := mem + Zeros(a + HEADER, h[a].requested);
    var p := Payload(h, mem', a);
    forall i | 0 <= i < |p| ensures p[i] == 0 {
      assert p[i] == Byte(mem', a + HEADER + i);
    }
  }
}
