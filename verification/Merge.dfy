/** Merging overlay packets into a trace (scripts/perfetto_proto.py,
    parse_packet_timestamp and merge_overlay_packets). */
module Merge {
  import opened Wrappers
  import opened Proto

  const TIMESTAMP_FIELD := 8

  datatype Overlay = Overlay(root: Bytes, ts: int, order: int)

  /** What the merged trace is made of. */
  datatype Item = Original(entry: Entry) | Added(overlay: Overlay)

  /** The first timestamp field, which ends the search: what follows is not read. */
  function Stamp(s: Bytes): (r: Option<Option<nat>>)
    decreases |s|
  {
    if s == [] then Some(None) else
    var step := ReadField(s);
    if step.None? then None
    else if step.value.field.VarintField? && step.value.field.number == TIMESTAMP_FIELD
    then Some(Some(step.value.field.value))
    else Stamp(step.value.rest)
  }

  /** TracePacket.timestamp is field 8, a varint. */
  predicate IsTimestamp(f: Field) {
    f.VarintField? && f.number == 8
  }

  predicate NoTimestamp(fs: seq<Field>) {
    forall i :: 0 <= i < |fs| ==> !IsTimestamp(fs[i])
  }

  predicate FullWidth(fs: seq<Field>) {
    forall i :: 0 <= i < |fs| ==> Sized(fs[i], false)
  }

  /** `packet` is a timestamp behind other fields, with anything behind it. */
  predicate StampedWith(packet: Bytes, before: seq<Field>, t: nat, rest: Bytes) {
    NoTimestamp(before) && FullWidth(before) && packet == CopyFields(before) + CopyField(VarintField(8, t)) + rest
  }

  /** Whatever follows a timestamp, readable or not, it is the one found. */
  lemma {:induction false} TimestampIsFound(before: seq<Field>, t: nat, rest: Bytes)
    requires NoTimestamp(before) && FullWidth(before)
    ensures Stamp(CopyFields(before) + CopyField(VarintField(8, t)) + rest) == Some(Some(t))
  {
    hide CopyField, ReadField, Sized;
    var tail := CopyField(VarintField(8, t)) + rest;
    if before == [] {
      TimestampIsWide(t, rest == []);
      CopyThenRead(VarintField(8, t), rest);
      assert CopyFields(before) + CopyField(VarintField(8, t)) + rest == tail;
    } else {
      var next := CopyFields(before[1..]) + CopyField(VarintField(8, t)) + rest;
      assert CopyFields(before) + CopyField(VarintField(8, t)) + rest == CopyField(before[0]) + next;
      WideIsSized(before[0], next == []);
      CopyThenRead(before[0], next);
      TimestampIsFound(before[1..], t, rest);
    }
  }

  lemma {:induction false} TimestampIsWide(t: nat, last: bool)
    ensures Sized(VarintField(8, t), last)
  {
  }

  lemma {:induction false} WideIsSized(f: Field, last: bool)
    requires Sized(f, false)
    ensures Sized(f, last)
  {
  }

  /** No timestamp is found exactly in a packet that can be read to its end and has none. */
  lemma {:induction false} NoneFoundIff(packet: Bytes)
    ensures Stamp(packet) == Some(None) <==> Fields(packet).Some? && NoTimestamp(Fields(packet).value)
    decreases |packet|
  {
    hide ReadField;
    if packet != [] && ReadField(packet).Some? {
      var step := ReadField(packet).value;
      NoneFoundIff(step.rest);
      var more := Fields(step.rest);
      if more.Some? {
        assert Fields(packet).value[0] == step.field && Fields(packet).value[1..] == more.value;
        assert NoTimestamp(Fields(packet).value) <==> !IsTimestamp(step.field) && NoTimestamp(more.value);
      }
    }
  }

  /** Of a packet that can be read to its end, minimally encoded or not, it is the
      first timestamp. */
  lemma {:induction false} FirstIsFound(packet: Bytes, k: nat)
    requires Fields(packet).Some? && k < |Fields(packet).value|
    requires NoTimestamp(Fields(packet).value[..k]) && IsTimestamp(Fields(packet).value[k])
    ensures Stamp(packet) == Some(Some(Fields(packet).value[k].value))
    decreases |packet|
  {
    hide ReadField;
    var fs, step := Fields(packet).value, ReadField(packet).value;
    var more := Fields(step.rest).value;
    assert fs == [step.field] + more;
    if k > 0 {
      assert !IsTimestamp(fs[..k][0]);
      assert fs[..k][1..] == more[..k - 1] && more[k - 1] == fs[k];
      FirstIsFound(step.rest, k - 1);
    }
  }

  /** The first timestamp of a packet, `Some(None)` when it has none, and `None`
      when reading fails before one is found. */
  method ParsePacketTimestamp(packet: Bytes) returns (r: Option<Option<nat>>)
    ensures r == Stamp(packet)
    ensures forall before, t: nat, rest :: StampedWith(packet, before, t, rest) ==> r == Some(Some(t))
    ensures r == Some(None) <==> Fields(packet).Some? && NoTimestamp(Fields(packet).value)
  {
    hide ReadField, Fields, NoTimestamp;
    NoneFoundIff(packet);
    forall before, t: nat, rest | StampedWith(packet, before, t, rest) ensures Stamp(packet) == Some(Some(t)) {
      TimestampIsFound(before, t, rest);
    }
    var offset := 0;
    assert Drop(packet, 0) == packet;
    while offset < |packet|
      invariant Stamp(packet) == Stamp(Drop(packet, offset))
      decreases |packet| - offset
    {
      var f, next := NextField(packet, offset);
      if f.None? {
        return None;
      }
      if f.value.VarintField? && f.value.number == TIMESTAMP_FIELD {
        return Some(Some(f.value.value));
      }
      offset := next;
    }
    return Some(None);
  }

  // ---------- The order of overlays ----------

  predicate NotAfter(a: Overlay, b: Overlay) {
    a.ts < b.ts || (a.ts == b.ts && a.order <= b.order)
  }

  function Insert(o: Overlay, os: seq<Overlay>): (r: seq<Overlay>) {
    if os == [] || NotAfter(o, os[0]) then [o] + os else [os[0]] + Insert(o, os[1..])
  }

  /** Sorted by (timestamp, order), equals in their given order. */
  function Sort(os: seq<Overlay>): (r: seq<Overlay>) {
    if os == [] then [] else Insert(os[0], Sort(os[1..]))
  }

  predicate Ordered(os: seq<Overlay>) {
    forall i, j :: 0 <= i < j < |os| ==> NotAfter(os[i], os[j])
  }

  function WithKey(os: seq<Overlay>, ts: int, order: int): (r: seq<Overlay>) {
    if os == [] then []
    else (if os[0].ts == ts && os[0].order == order then [os[0]] else []) + WithKey(os[1..], ts, order)
  }

  predicate AllFrom(o: Overlay, os: seq<Overlay>) {
    forall i :: 0 <= i < |os| ==> NotAfter(o, os[i])
  }

  lemma {:induction false} InsertFrom(first: Overlay, o: Overlay, os: seq<Overlay>)
    requires NotAfter(first, o) && AllFrom(first, os)
    ensures AllFrom(first, Insert(o, os))
  {
    if os != [] && !NotAfter(o, os[0]) {
      InsertFrom(first, o, os[1..]);
    }
  }

  lemma {:induction false} InsertOrdered(o: Overlay, os: seq<Overlay>)
    requires Ordered(os)
    ensures Ordered(Insert(o, os))
  {
    if os != [] {
      assert Ordered(os[1..]) && AllFrom(os[0], os[1..]);
      if NotAfter(o, os[0]) {
        assert AllFrom(o, os);
      } else {
        InsertOrdered(o, os[1..]);
        InsertFrom(os[0], o, os[1..]);
      }
    }
  }

  lemma {:induction false} InsertHolds(o: Overlay, os: seq<Overlay>)
    ensures multiset(Insert(o, os)) == multiset(os) + multiset{o}
  {
    if os != [] && !NotAfter(o, os[0]) {
      InsertHolds(o, os[1..]);
      assert os == [os[0]] + os[1..];
    }
  }

  lemma {:induction false} KeyOfFirst(o: Overlay, os: seq<Overlay>, ts: int, order: int)
    ensures WithKey([o] + os, ts, order) == WithKey([o], ts, order) + WithKey(os, ts, order)
  {
    assert ([o] + os)[1..] == os;
  }

  lemma {:induction false} InsertStable(o: Overlay, os: seq<Overlay>, ts: int, order: int)
    ensures WithKey(Insert(o, os), ts, order) == WithKey([o], ts, order) + WithKey(os, ts, order)
  {
    hide WithKey;
    if os == [] || NotAfter(o, os[0]) {
      KeyOfFirst(o, os, ts, order);
    } else {
      InsertStable(o, os[1..], ts, order);
      KeyOfFirst(os[0], Insert(o, os[1..]), ts, order);
      KeyOfFirst(os[0], os[1..], ts, order);
      assert os == [os[0]] + os[1..];
      var a, b, c := WithKey([o], ts, order), WithKey([os[0]], ts, order), WithKey(os[1..], ts, order);
      assert a == [] || b == [] by {
        KeyOfOne(o, ts, order);
        KeyOfOne(os[0], ts, order);
      }
      assert b + (a + c) == a + (b + c);
    }
  }

  lemma {:induction false} KeyOfOne(o: Overlay, ts: int, order: int)
    ensures WithKey([o], ts, order) == if o.ts == ts && o.order == order then [o] else []
  {
  }

  /** Every overlay once, in order, ties as given. */
  lemma {:induction false} SortIsStable(os: seq<Overlay>, ts: int, order: int)
    ensures multiset(Sort(os)) == multiset(os) && Ordered(Sort(os))
    ensures WithKey(Sort(os), ts, order) == WithKey(os, ts, order)
  {
    hide Insert, WithKey, Ordered, NotAfter;
    if os == [] {
      NoneOrdered();
    } else {
      SortIsStable(os[1..], ts, order);
      InsertOrdered(os[0], Sort(os[1..]));
      InsertHolds(os[0], Sort(os[1..]));
      InsertStable(os[0], Sort(os[1..]), ts, order);
      KeyOfFirst(os[0], os[1..], ts, order);
      assert os == [os[0]] + os[1..];
    }
  }

  /** The order is by timestamp, and by the order number at one timestamp. */
  lemma {:induction false} SortedByTime(os: seq<Overlay>, i: nat, j: nat)
    requires i < j < |os|
    ensures |Sort(os)| == |os|
    ensures var a, b := Sort(os)[i], Sort(os)[j];
            a.ts <= b.ts && (a.ts == b.ts ==> a.order <= b.order)
  {
    hide Sort;
    SortIsStable(os, 0, 0);
    assert |Sort(os)| == |multiset(Sort(os))| == |multiset(os)|;
    assert NotAfter(Sort(os)[i], Sort(os)[j]);
  }

  lemma {:induction false} NoneOrdered()
    ensures Ordered([])
  {
  }

  // ---------- Where overlays go ----------

  predicate Due(o: Overlay, t: Option<nat>) {
    t.Some? && o.ts <= t.value
  }

  function DueCount(ps: seq<Overlay>, t: Option<nat>): (r: nat)
    ensures r <= |ps|
  {
    if ps == [] || !Due(ps[0], t) then 0 else 1 + DueCount(ps[1..], t)
  }

  function AddAll(ps: seq<Overlay>): (r: seq<Item>)
    ensures |r| == |ps| && forall i :: 0 <= i < |ps| ==> r[i] == Added(ps[i])
  {
    seq(|ps|, i requires 0 <= i < |ps| => Added(ps[i]))
  }

  function MergeItems(es: seq<Entry>, ps: seq<Overlay>): (r: Option<seq<Item>>)
    decreases |es|
  {
    if es == [] then Some(AddAll(ps)) else
    var t := Stamp(es[0].packet);
    if t.None? then None else
    var k := DueCount(ps, t.value);
    var more := MergeItems(es[1..], ps[k..]);
    if more.None? then None else Some(AddAll(ps[..k]) + [Original(es[0])] + more.value)
  }

  /** Before which original an overlay belongs: the first with a timestamp at or
      past its own, or the end. */
  function Place(o: Overlay, es: seq<Entry>): (r: nat)
    ensures r <= |es|
    ensures forall i :: 0 <= i < r ==> !DueAt(o, es[i])
    ensures r < |es| ==> DueAt(o, es[r])
  {
    if es == [] || DueAt(o, es[0]) then 0 else 1 + Place(o, es[1..])
  }

  predicate DueAt(o: Overlay, e: Entry) {
    var t := Stamp(e.packet);
    t.Some? && Due(o, t.value)
  }

  function Originals(items: seq<Item>): (r: seq<Entry>) {
    if items == [] then [] else OriginalIn(items[0]) + Originals(items[1..])
  }

  function OriginalIn(item: Item): (r: seq<Entry>) {
    if item.Original? then [item.entry] else []
  }

  function Overlays(items: seq<Item>): (r: seq<Overlay>) {
    if items == [] then [] else OverlayIn(items[0]) + Overlays(items[1..])
  }

  function OverlayIn(item: Item): (r: seq<Overlay>) {
    if item.Added? then [item.overlay] else []
  }

  lemma {:induction false} Regroup<T>(a: seq<T>, b: seq<T>, c: seq<T>)
    ensures a + (b + c) == a + b + c && [] + a == a
  {
  }

  lemma {:induction false} OriginalsAppend(a: seq<Item>, b: seq<Item>)
    ensures Originals(a + b) == Originals(a) + Originals(b)
  {
    hide OriginalIn;
    if a == [] {
      Regroup(b, [], []);
      Regroup(Originals(b), [], []);
    } else {
      OriginalsAppend(a[1..], b);
      Regroup([a[0]], a[1..], b);
      assert a == [a[0]] + a[1..];
      assert (a + b)[1..] == a[1..] + b;
      Regroup(OriginalIn(a[0]), Originals(a[1..]), Originals(b));
    }
  }

  lemma {:induction false} OverlaysAppend(a: seq<Item>, b: seq<Item>)
    ensures Overlays(a + b) == Overlays(a) + Overlays(b)
  {
    hide OverlayIn;
    if a == [] {
      Regroup(b, [], []);
      Regroup(Overlays(b), [], []);
    } else {
      OverlaysAppend(a[1..], b);
      Regroup([a[0]], a[1..], b);
      assert a == [a[0]] + a[1..];
      assert (a + b)[1..] == a[1..] + b;
      Regroup(OverlayIn(a[0]), Overlays(a[1..]), Overlays(b));
    }
  }

  lemma {:induction false} ProjectAppend(a: seq<Item>, b: seq<Item>)
    ensures Originals(a + b) == Originals(a) + Originals(b) && Overlays(a + b) == Overlays(a) + Overlays(b)
  {
    OriginalsAppend(a, b);
    OverlaysAppend(a, b);
  }

  lemma {:induction false} ProjectAdded(ps: seq<Overlay>)
    ensures Originals(AddAll(ps)) == [] && Overlays(AddAll(ps)) == ps
  {
    if ps != [] {
      ProjectAdded(ps[1..]);
      assert AddAll(ps)[1..] == AddAll(ps[1..]);
    }
  }

  lemma {:induction false} DueIsPrefix(ps: seq<Overlay>, t: Option<nat>)
    requires Ordered(ps)
    ensures forall i :: 0 <= i < |ps| ==> (Due(ps[i], t) <==> i < DueCount(ps, t))
  {
    if ps != [] {
      assert Ordered(ps[1..]);
      DueIsPrefix(ps[1..], t);
      forall i | 0 <= i < |ps| ensures Due(ps[i], t) <==> i < DueCount(ps, t) {
        if i > 0 {
          assert NotAfter(ps[0], ps[i]) && ps[i] == ps[1..][i - 1];
        }
      }
    }
  }

  /** `items` is `es` in order, interleaved with `ps` in order, each overlay at its place. */
  ghost predicate Interleaves(items: seq<Item>, es: seq<Entry>, ps: seq<Overlay>) {
    && Originals(items) == es && Overlays(items) == ps
    && forall k :: 0 <= k < |items| && items[k].Added? ==> |Originals(items[..k])| == Place(items[k].overlay, es)
  }

  /** Merging is the order-correct interleaving, whenever every timestamp can be read. */
  lemma {:induction false} MergeInterleaves(es: seq<Entry>, ps: seq<Overlay>)
    requires Ordered(ps)
    ensures MergeItems(es, ps).Some? <==> forall i :: 0 <= i < |es| ==> Stamp(es[i].packet).Some?
    ensures MergeItems(es, ps).Some? ==> Interleaves(MergeItems(es, ps).value, es, ps)
    decreases |es|
  {
    hide Stamp, Interleaves, AddAll, DueCount, Ordered;
    if es == [] {
      AddedInterleave(ps);
    } else if Stamp(es[0].packet).Some? {
      var t := Stamp(es[0].packet).value;
      var k := DueCount(ps, t);
      DueIsPrefix(ps, t);
      OrderedRest(ps, k);
      MergeInterleaves(es[1..], ps[k..]);
      var more := MergeItems(es[1..], ps[k..]);
      assert forall i :: 0 < i < |es| ==> es[i] == es[1..][i - 1];
      if more.Some? {
        InterleaveMore(es, ps, k, more.value);
      }
    }
  }

  lemma {:induction false} OrderedRest(ps: seq<Overlay>, k: nat)
    requires Ordered(ps) && k <= |ps|
    ensures Ordered(ps[k..])
  {
  }

  lemma {:induction false} AddedInterleave(ps: seq<Overlay>)
    ensures Interleaves(AddAll(ps), [], ps)
  {
    ProjectAdded(ps);
    forall k | 0 <= k < |ps| ensures |Originals(AddAll(ps)[..k])| == 0 {
      ProjectAdded(ps[..k]);
      assert AddAll(ps)[..k] == AddAll(ps[..k]);
    }
  }

  lemma {:induction false} ProjectOne(e: Entry)
    ensures Originals([Original(e)]) == [e] && Overlays([Original(e)]) == []
  {
    assert [Original(e)][1..] == [];
  }

  /** What is due in front of the first original, that original, and the rest. */
  lemma {:induction false} ProjectMore(e: Entry, first: seq<Overlay>, more: seq<Item>)
    ensures var items := AddAll(first) + [Original(e)] + more;
            Originals(items) == [e] + Originals(more) && Overlays(items) == first + Overlays(more)
  {
    hide AddAll, Originals, Overlays;
    ProjectAdded(first);
    var one := [Original(e)];
    ProjectOne(e);
    ProjectAppend(AddAll(first), one);
    ProjectAppend(AddAll(first) + one, more);
    assert first + [] == first;
  }

  lemma {:induction false} PlaceMore(o: Overlay, es: seq<Entry>)
    requires es != []
    ensures Place(o, es) == if DueAt(o, es[0]) then 0 else 1 + Place(o, es[1..])
  {
    hide DueAt;
  }

  lemma {:induction false} InterleaveMore(es: seq<Entry>, ps: seq<Overlay>, k: nat, more: seq<Item>)
    requires es != [] && k <= |ps| && Interleaves(more, es[1..], ps[k..])
    requires forall i :: 0 <= i < |ps| ==> (DueAt(ps[i], es[0]) <==> i < k)
    ensures Interleaves(AddAll(ps[..k]) + [Original(es[0])] + more, es, ps)
  {
    hide DueAt, Place, Originals, Overlays, AddAll;
    var items := AddAll(ps[..k]) + [Original(es[0])] + more;
    ProjectMore(es[0], ps[..k], more);
    assert ps[..k] + ps[k..] == ps && [es[0]] + es[1..] == es;
    forall j | 0 <= j < |items| && items[j].Added? ensures |Originals(items[..j])| == Place(items[j].overlay, es) {
      if j < k {
        assert items[..j] == AddAll(ps[..j]);
        ProjectAdded(ps[..j]);
        PlaceMore(ps[j], es);
      } else {
        var i := j - k - 1;
        assert items[..j] == AddAll(ps[..k]) + [Original(es[0])] + more[..i] && items[j] == more[i];
        ProjectMore(es[0], ps[..k], more[..i]);
        OverlayIsOneOf(more, i);
        var at :| 0 <= at < |ps[k..]| && ps[k..][at] == more[i].overlay;
        assert ps[k + at] == more[i].overlay;
        PlaceMore(more[i].overlay, es);
      }
    }
  }

  lemma {:induction false} OverlayIsOneOf(items: seq<Item>, k: nat)
    requires k < |items| && items[k].Added?
    ensures items[k].overlay in Overlays(items)
  {
    if k > 0 {
      OverlayIsOneOf(items[1..], k - 1);
    }
  }

  lemma {:induction false} OriginalIsOneOf(items: seq<Item>, k: nat)
    requires k < |items| && items[k].Original?
    ensures items[k].entry in Originals(items)
  {
    if k > 0 {
      OriginalIsOneOf(items[1..], k - 1);
    }
  }

  /** When an item happens; an original without a timestamp has none. */
  function Time(item: Item): (t: Option<int>) {
    if item.Added? then Some(item.overlay.ts) else
    var stamp := Stamp(item.entry.packet);
    if stamp.Some? && stamp.value.Some? then Some(stamp.value.value) else None
  }

  /** `a` may stand before `b`: not later, and earlier if only `b` is an overlay. */
  predicate InTime(a: Item, b: Item) {
    && Time(a).Some? && Time(b).Some? && Time(a).value <= Time(b).value
    && (a.Original? && b.Added? ==> Time(a).value < Time(b).value)
  }

  predicate AllInTime(items: seq<Item>) {
    && (forall i :: 0 <= i < |items| ==> Time(items[i]).Some?)
    && (forall i, j :: 0 <= i < j < |items| ==> InTime(items[i], items[j]))
  }

  function OriginalItems(es: seq<Entry>): (r: seq<Item>)
    ensures |r| == |es| && forall i :: 0 <= i < |es| ==> r[i] == Original(es[i])
  {
    seq(|es|, i requires 0 <= i < |es| => Original(es[i]))
  }

  /** A trace in time order and overlays in any give one in time order, an overlay
      before the originals of its instant. */
  lemma {:induction false} MergedInTime(es: seq<Entry>, ps: seq<Overlay>)
    requires Ordered(ps) && AllInTime(OriginalItems(es))
    ensures MergeItems(es, ps).Some? && AllInTime(MergeItems(es, ps).value)
    decreases |es|
  {
    hide Stamp, Ordered, Interleaves, DueCount;
    if es == [] {
      AddedInTime(ps);
    } else {
      assert Time(OriginalItems(es)[0]).Some?;
      var t := Stamp(es[0].packet).value;
      var k := DueCount(ps, t);
      DueIsPrefix(ps, t);
      OrderedRest(ps, k);
      assert OriginalItems(es[1..]) == OriginalItems(es)[1..];
      MergedInTime(es[1..], ps[k..]);
      MergeInterleaves(es[1..], ps[k..]);
      var more := MergeItems(es[1..], ps[k..]).value;
      forall i | 0 <= i < |more| ensures InTime(Original(es[0]), more[i]) {
        RestIsLater(es, ps, k, more, i);
      }
      AddedInTime(ps);
      JoinInTime(ps[..k], Original(es[0]), more);
    }
  }

  lemma {:induction false} AddedInTime(ps: seq<Overlay>)
    requires Ordered(ps)
    ensures AllInTime(AddAll(ps))
    ensures forall k :: 0 <= k <= |ps| ==> AllInTime(AddAll(ps[..k]))
  {
    assert forall i, j :: 0 <= i < j < |ps| ==> NotAfter(ps[i], ps[j]);
  }

  lemma {:induction false} RestIsLater(es: seq<Entry>, ps: seq<Overlay>, k: nat, more: seq<Item>, i: nat)
    requires es != [] && AllInTime(OriginalItems(es)) && k <= |ps| && Interleaves(more, es[1..], ps[k..]) && i < |more|
    requires forall j :: 0 <= j < |ps| ==> (Due(ps[j], Stamp(es[0].packet).value) <==> j < k)
    ensures InTime(Original(es[0]), more[i])
  {
    hide Stamp, Place, Originals, Overlays;
    assert Time(OriginalItems(es)[0]).Some?;
    if more[i].Original? {
      OriginalIsOneOf(more, i);
      var j :| 0 <= j < |es[1..]| && es[1..][j] == more[i].entry;
      assert InTime(OriginalItems(es)[0], OriginalItems(es)[j + 1]);
    } else {
      OverlayIsOneOf(more, i);
      var j :| 0 <= j < |ps[k..]| && ps[k..][j] == more[i].overlay;
      assert ps[k + j] == more[i].overlay;
    }
  }

  lemma {:induction false} JoinInTime(first: seq<Overlay>, e: Item, more: seq<Item>)
    requires e.Original? && Time(e).Some? && AllInTime(AddAll(first)) && AllInTime(more)
    requires forall i :: 0 <= i < |first| ==> first[i].ts <= Time(e).value
    requires forall i :: 0 <= i < |more| ==> InTime(e, more[i])
    ensures AllInTime(AddAll(first) + [e] + more)
  {
    hide Stamp;
    var items := AddAll(first) + [e] + more;
    forall i, j | 0 <= i < j < |items| ensures InTime(items[i], items[j]) {
      if i < |first| && j < |first| {
        assert InTime(AddAll(first)[i], AddAll(first)[j]);
      } else if i < |first| && |first| < j {
        assert InTime(e, more[j - |first| - 1]);
      } else if |first| < i {
        assert InTime(more[i - |first| - 1], more[j - |first| - 1]);
      }
    }
  }

  // ---------- The bytes ----------

  function Root(item: Item): (r: Bytes) {
    if item.Original? then item.entry.root else item.overlay.root
  }

  function Join(items: seq<Item>): (r: Bytes) {
    if items == [] then [] else Root(items[0]) + Join(items[1..])
  }

  function MergeTrace(trace: Bytes, ps: seq<Overlay>): (r: Option<Bytes>) {
    var es := Entries(trace);
    if es.None? then None else
    var items := MergeItems(es.value, ps);
    if items.None? then None else Some(Join(items.value))
  }

  lemma {:induction false} JoinAppend(a: seq<Item>, b: seq<Item>)
    ensures Join(a + b) == Join(a) + Join(b)
  {
    hide Root;
    if a == [] {
      Regroup(b, [], []);
      Regroup(Join(b), [], []);
    } else {
      JoinAppend(a[1..], b);
      assert (a + b)[1..] == a[1..] + b;
      Regroup(Root(a[0]), Join(a[1..]), Join(b));
    }
  }

  lemma {:induction false} MergeStep(s: Bytes, ps: seq<Overlay>)
    requires s != []
    ensures ReadEntry(s).None? ==> MergeTrace(s, ps) == None
    ensures ReadEntry(s).Some? ==>
              var e := ReadEntry(s).value;
              var t := Stamp(e.packet);
              MergeTrace(s, ps) ==
                if t.None? then None else
                var k := DueCount(ps, t.value);
                After(Join(AddAll(ps[..k])) + e.root, MergeTrace(s[|e.root|..], ps[k..]))
  {
    hide ReadEntry, Stamp;
    if ReadEntry(s).Some? {
      var e := ReadEntry(s).value;
      var rest := s[|e.root|..];
      var more := Entries(rest);
      if more.Some? && Stamp(e.packet).Some? {
        var all := [e] + more.value;
        assert Entries(s) == Some(all) && all[1..] == more.value;
        var k := DueCount(ps, Stamp(e.packet).value);
        var items := MergeItems(more.value, ps[k..]);
        if items.Some? {
          JoinAppend(AddAll(ps[..k]) + [Original(e)], items.value);
          JoinAppend(AddAll(ps[..k]), [Original(e)]);
          assert Join([Original(e)]) == e.root;
        }
      }
    }
  }

  lemma {:induction false} MergeRest(ps: seq<Overlay>)
    ensures MergeTrace([], ps) == Some(Join(AddAll(ps)))
  {
  }

  lemma {:induction false} AddNone(merged: Bytes)
    ensures merged + Join(AddAll([])) == merged
  {
  }

  lemma {:induction false} AddOne(ps: seq<Overlay>, k: nat)
    requires k < |ps|
    ensures Join(AddAll(ps[..k + 1])) == Join(AddAll(ps[..k])) + ps[k].root
  {
    JoinAppend(AddAll(ps[..k]), [Added(ps[k])]);
    assert AddAll(ps[..k + 1]) == AddAll(ps[..k]) + [Added(ps[k])];
    assert Join([Added(ps[k])]) == ps[k].root;
  }

  lemma {:induction false} DueStep(ps: seq<Overlay>, next: nat, t: Option<nat>)
    requires next <= |ps|
    ensures DueCount(ps[next..], t) == if next < |ps| && Due(ps[next], t) then 1 + DueCount(ps[next + 1..], t) else 0
  {
    if next < |ps| {
      assert ps[next..][1..] == ps[next + 1..];
    }
  }

  /** The inner loop: appends the overlays due at `t`. */
  method AppendDue(merged: Bytes, ps: seq<Overlay>, next0: nat, t: Option<nat>) returns (out: Bytes, next: nat)
    requires next0 <= |ps|
    ensures next == next0 + DueCount(ps[next0..], t) && next <= |ps|
    ensures out == merged + Join(AddAll(ps[next0..][..next - next0]))
  {
    hide AddAll, DueCount, Join;
    next, out := next0, merged;
    ghost var pending := ps[next0..];
    assert pending[..0] == [];
    AddNone(merged);
    while next < |ps| && Due(ps[next], t)
      invariant next0 <= next <= |ps|
      invariant DueCount(pending, t) == next - next0 + DueCount(ps[next..], t)
      invariant out == merged + Join(AddAll(pending[..next - next0]))
    {
      AddOne(pending, next - next0);
      DueStep(ps, next, t);
      out, next := out + ps[next].root, next + 1;
    }
    DueStep(ps, next, t);
  }

  method MergeOverlayPackets(trace: Bytes, overlays: seq<Overlay>) returns (r: Option<Bytes>)
    ensures r == MergeTrace(trace, Sort(overlays))
  {
    hide ReadEntry, Stamp, Sort, MergeTrace, After, DueCount, Join;
    var ps := Sort(overlays);
    var offset, next, merged: Bytes := 0, 0, [];
    assert Drop(trace, 0) == trace && ps[0..] == ps;
    AfterAfter([], [], MergeTrace(trace, ps));
    while offset < |trace|
      invariant 0 <= next <= |ps|
      invariant MergeTrace(trace, ps) == After(merged, MergeTrace(Drop(trace, offset), ps[next..]))
      decreases |trace| - offset
    {
      MergeStep(trace[offset..], ps[next..]);
      AfterIs(merged, []);
      var e, end := NextEntry(trace, offset);
      if e.None? {
        return None;
      }
      var t := ParsePacketTimestamp(e.value.packet);
      if t.None? {
        return None;
      }
      var out, next' := AppendDue(merged, ps, next, t.value);
      ghost var due := Join(AddAll(ps[next..][..next' - next]));
      ghost var more := MergeTrace(Drop(trace, end), ps[next'..]);
      assert ps[next..][next' - next..] == ps[next'..];
      AfterAfter(merged, due + e.value.root, more);
      assert merged + (due + e.value.root) == out + e.value.root;
      merged, next, offset := out + e.value.root, next', end;
    }
    assert Drop(trace, offset) == [];
    MergeRest(ps[next..]);
    AfterIs(merged, Join(AddAll(ps[next..])));
    merged := AppendAll(merged, ps, next);
    return Some(merged);
  }

  /** The last loop: appends every overlay left. */
  method AppendAll(merged: Bytes, ps: seq<Overlay>, next0: nat) returns (out: Bytes)
    requires next0 <= |ps|
    ensures out == merged + Join(AddAll(ps[next0..]))
  {
    out := merged;
    var next := next0;
    ghost var pending := ps[next0..];
    while next < |ps|
      invariant next0 <= next <= |ps|
      invariant out == merged + Join(AddAll(pending[..next - next0]))
    {
      AddOne(pending, next - next0);
      out, next := out + ps[next].root, next + 1;
    }
    assert pending[..next - next0] == pending;
  }

  // ---------- Reading the merged trace ----------

  /** A whole entry and nothing else, as the script builds overlays. */
  predicate IsWholeEntry(root: Bytes) {
    var e := ReadEntry(root);
    e.Some? && e.value.root == root && !CutShort(root)
  }

  function EntryOf(item: Item): (r: Entry)
    requires item.Added? ==> ReadEntry(item.overlay.root).Some?
  {
    if item.Original? then item.entry else ReadEntry(item.overlay.root).value
  }

  predicate AllWhole(items: seq<Item>) {
    forall i :: 0 <= i < |items| && items[i].Added? ==> IsWholeEntry(items[i].overlay.root)
  }

  function EntriesOf(items: seq<Item>): (r: seq<Entry>)
    requires AllWhole(items)
  {
    if items == [] then [] else [EntryOf(items[0])] + EntriesOf(items[1..])
  }

  lemma {:induction false} EntriesOfParts(items: seq<Item>)
    requires AllWhole(items)
    ensures |EntriesOf(items)| == |items| && forall i :: 0 <= i < |items| ==> EntriesOf(items)[i] == EntryOf(items[i])
    ensures Roots(EntriesOf(items)) == Join(items)
  {
    if items != [] {
      EntriesOfParts(items[1..]);
      assert EntriesOf(items)[1..] == EntriesOf(items[1..]);
    }
  }

  /** The k-th item, when it is an original, is the original its position says. */
  lemma {:induction false} OriginalAt(items: seq<Item>, k: nat)
    requires k < |items| && items[k].Original?
    ensures var n := |Originals(items[..k])|; n < |Originals(items)| && Originals(items)[n] == items[k].entry
  {
    assert items == items[..k] + items[k..];
    OriginalsAppend(items[..k], items[k..]);
  }

  /** The originals before position k are the first ones. */
  lemma {:induction false} OriginalsPrefix(items: seq<Item>, j: nat, k: nat)
    requires j <= k <= |items|
    ensures |Originals(items[..j])| <= |Originals(items[..k])| <= |Originals(items)|
    ensures j < k && items[j].Original? ==> |Originals(items[..j])| < |Originals(items[..k])|
  {
    assert items[..k] == items[..j] + items[j..k] && items == items[..k] + items[k..];
    OriginalsAppend(items[..j], items[j..k]);
    OriginalsAppend(items[..k], items[k..]);
  }

  /** The last original is cut short and some overlay goes behind it. */
  ghost predicate Swallows(es: seq<Entry>, ps: seq<Overlay>) {
    es != [] && CutShort(es[|es| - 1].root) && exists o :: o in ps && Place(o, es) == |es|
  }

  lemma {:induction false} MergedIsChained(trace: Bytes, es: seq<Entry>, ps: seq<Overlay>, items: seq<Item>)
    requires Entries(trace) == Some(es) && Interleaves(items, es, ps) && AllWhole(items) && !Swallows(es, ps)
    ensures Chained(EntriesOf(items))
  {
    hide Entries, ReadEntry, CutShort, Place, Complete, Readable;
    EntriesAreChained(trace);
    EntriesOfParts(items);
    var rs := EntriesOf(items);
    forall k | 0 <= k < |items|
      ensures |rs[k].root| > 0 && (if k < |items| - 1 then Complete(rs[k]) else Readable(rs[k]))
    {
      if items[k].Added? {
        WholeIsComplete(items[k].overlay.root);
      } else {
        OriginalAt(items, k);
        var n := |Originals(items[..k])|;
        if n < |es| - 1 {
          assert Complete(es[n]);
          CompleteIsReadable(es[n]);
        } else if k < |items| - 1 {
          LastIsBeforeAdded(items, es, ps, k);
          LastIsComplete(trace, es);
        }
      }
    }
  }

  lemma {:induction false} WholeIsComplete(root: Bytes)
    requires IsWholeEntry(root)
    ensures Complete(ReadEntry(root).value) && Readable(ReadEntry(root).value) && |root| > 0
  {
    EntryIsLocal(root);
  }

  /** What follows the last original is an overlay that goes at the end. */
  lemma {:induction false} LastIsBeforeAdded(items: seq<Item>, es: seq<Entry>, ps: seq<Overlay>, k: nat)
    requires Interleaves(items, es, ps) && k < |items| - 1 && items[k].Original?
    requires |Originals(items[..k])| == |es| - 1
    ensures exists o :: o in ps && Place(o, es) == |es|
  {
    hide Place;
    var j := k + 1;
    OriginalsPrefix(items, k, j);
    assert |Originals(items[..j])| == |es|;
    if items[j].Original? {
      OriginalAt(items, j);
      assert false;
    }
    OverlayIsOneOf(items, j);
    assert items[j].overlay in ps;
  }

  lemma {:induction false} LastIsComplete(trace: Bytes, es: seq<Entry>)
    requires Entries(trace) == Some(es) && es != [] && !CutShort(es[|es| - 1].root)
    ensures Complete(es[|es| - 1])
  {
    EntriesAreChained(trace);
    var e := es[|es| - 1];
    assert ReadEntry(e.root) == Some(e);
    EntryIsLocal(e.root);
  }

  lemma {:induction false} FirstReads(e: Entry, rest: Bytes)
    requires Complete(e) && |e.root| > 0
    ensures Entries(e.root + rest) == After([e], Entries(rest))
  {
    hide ReadEntry;
    var all := e.root + rest;
    assert ReadEntry(all) == Some(e);
    assert all[|e.root|..] == rest;
  }

  /** Whole entries in front are read as they are. */
  lemma {:induction false} FrontReads(front: seq<Entry>, s: Bytes)
    requires forall i :: 0 <= i < |front| ==> Complete(front[i]) && |front[i].root| > 0
    ensures Entries(Roots(front) + s) == After(front, Entries(s))
  {
    hide Entries, Complete, After;
    if front == [] {
      AfterAfter([], [], Entries(s));
      assert Roots(front) + s == s;
    } else {
      var e, rest := front[0], Roots(front[1..]) + s;
      FrontReads(front[1..], s);
      FirstReads(e, rest);
      AfterAfter([e], front[1..], Entries(s));
      assert Roots(front) + s == e.root + rest;
      assert [e] + front[1..] == front;
    }
  }

  /** An entry cut short reads longer when something follows it. */
  lemma {:induction false} CutShortGrows(e: Entry, rest: Bytes)
    requires Readable(e) && CutShort(e.root) && rest != []
    ensures ReadEntry(e.root + rest).Some? ==> |ReadEntry(e.root + rest).value.root| > |e.root|
  {
    hide ReadVarint;
    var key := ReadVarint(e.root).value;
    var n := ReadVarint(e.root[key.size..]).value;
    HeadOf(e.root, rest, key, n);
    var t := e.root + rest;
    var at := key.size + n.size;
    assert t[key.size..][n.size..] == t[at..];
    assert |t[at..]| > |e.root| - at;
  }

  lemma {:induction false} JoinNotEmpty(items: seq<Item>)
    requires AllWhole(items) && items != [] && items[0].Added?
    ensures Join(items) != []
  {
  }

  /** The merged bytes up to, in and behind the item at `k`. */
  lemma {:induction false} JoinSplit(items: seq<Item>, k: nat)
    requires k < |items|
    ensures Join(items) == Join(items[..k]) + (Root(items[k]) + Join(items[k + 1..]))
  {
    hide Root;
    var front, behind := items[..k], items[k + 1..];
    assert items == front + ([items[k]] + behind);
    JoinAppend(front, [items[k]] + behind);
    JoinAppend([items[k]], behind);
    assert [items[k]][1..] == [];
    assert Join([items[k]]) == Root(items[k]) + [];
  }

  lemma {:induction false} SwallowedIsLost(trace: Bytes, es: seq<Entry>, ps: seq<Overlay>, items: seq<Item>)
    requires Entries(trace) == Some(es) && Interleaves(items, es, ps) && AllWhole(items) && Swallows(es, ps)
    ensures Entries(Join(items)) != Some(EntriesOf(items))
  {
    hide Entries, ReadEntry, CutShort, Complete, Readable, IsWholeEntry, Join, EntriesOf, Place, Originals, Overlays;
    var k := LastOriginal(items, es);
    AddedBehind(items, es, ps, k);
    var e, behind := items[k].entry, Join(items[k + 1..]);
    JoinSplit(items, k);
    JoinNotEmpty(items[k + 1..]);
    FrontIsComplete(trace, es, ps, items, k);
    EntriesOfParts(items[..k]);
    EntriesOfParts(items);
    LastReads(trace, es);
    CutShortGrows(e, behind);
    LongerIsDifferent(EntriesOf(items[..k]), e, behind, EntriesOf(items));
  }

  lemma {:induction false} LongerIsDifferent(front: seq<Entry>, e: Entry, behind: Bytes, all: seq<Entry>)
    requires forall i :: 0 <= i < |front| ==> Complete(front[i]) && |front[i].root| > 0
    requires |front| < |all| && all[|front|] == e && |e.root| > 0
    requires ReadEntry(e.root + behind).Some? ==> |ReadEntry(e.root + behind).value.root| > |e.root|
    ensures Entries(Roots(front) + (e.root + behind)) != Some(all)
  {
    hide Entries, ReadEntry, Complete;
    var s := e.root + behind;
    FrontReads(front, s);
    if Entries(s).Some? {
      FirstEntry(s);
    }
  }

  lemma {:induction false} FirstEntry(s: Bytes)
    requires s != [] && Entries(s).Some?
    ensures Entries(s).value != [] && ReadEntry(s) == Some(Entries(s).value[0])
  {
  }

  lemma {:induction false} LastReads(trace: Bytes, es: seq<Entry>)
    requires Entries(trace) == Some(es) && es != []
    ensures Readable(es[|es| - 1]) && |es[|es| - 1].root| > 0
  {
    EntriesAreChained(trace);
  }

  lemma {:induction false} LastOriginal(items: seq<Item>, es: seq<Entry>) returns (k: nat)
    requires Originals(items) == es && es != []
    ensures k < |items| && items[k] == Original(es[|es| - 1]) && |Originals(items[..k])| == |es| - 1
  {
    var last := |items| - 1;
    assert items == items[..last] + [items[last]];
    OriginalsAppend(items[..last], [items[last]]);
    if items[last].Original? {
      k := last;
    } else {
      k := LastOriginal(items[..last], es);
      assert items[..last][..k] == items[..k];
    }
  }

  lemma {:induction false} AddedBehind(items: seq<Item>, es: seq<Entry>, ps: seq<Overlay>, k: nat)
    requires Interleaves(items, es, ps) && k < |items| && items[k].Original? && |Originals(items[..k])| == |es| - 1
    requires exists o :: o in ps && Place(o, es) == |es|
    ensures k + 1 < |items| && items[k + 1].Added?
  {
    hide Place;
    var o :| o in ps && Place(o, es) == |es|;
    var j := OverlayIndex(items, o);
    if j < k {
      OriginalsPrefix(items, j, k);
      assert false;
    }
    if items[k + 1].Original? {
      OriginalsPrefix(items, k, k + 1);
      OriginalAt(items, k + 1);
      assert false;
    }
  }

  lemma {:induction false} OverlayIndex(items: seq<Item>, o: Overlay) returns (k: nat)
    requires o in Overlays(items)
    ensures k < |items| && items[k] == Added(o)
  {
    if items[0] == Added(o) {
      k := 0;
    } else {
      k := OverlayIndex(items[1..], o);
      k := k + 1;
    }
  }

  lemma {:induction false} FrontIsComplete(trace: Bytes, es: seq<Entry>, ps: seq<Overlay>, items: seq<Item>, k: nat)
    requires Entries(trace) == Some(es) && Interleaves(items, es, ps) && AllWhole(items)
    requires k < |items| && items[k].Original? && |Originals(items[..k])| == |es| - 1
    ensures forall i :: 0 <= i < k ==> Complete(EntryOf(items[i])) && |EntryOf(items[i]).root| > 0
  {
    hide Entries, ReadEntry, Complete, Readable, Place;
    EntriesAreChained(trace);
    forall i | 0 <= i < k ensures Complete(EntryOf(items[i])) && |EntryOf(items[i]).root| > 0 {
      if items[i].Added? {
        WholeIsComplete(items[i].overlay.root);
      } else {
        OriginalAt(items, i);
        OriginalsPrefix(items, i, k);
      }
    }
  }

  /** The merged bytes read as the interleaving, each original byte for byte, if and
      only if the last original is not one cut short with overlays behind it. */
  lemma {:induction false} MergedReadsIff(trace: Bytes, overlays: seq<Overlay>)
    requires Entries(trace).Some? && MergeTrace(trace, Sort(overlays)).Some?
    requires forall o :: o in overlays ==> IsWholeEntry(o.root)
    ensures var es, ps := Entries(trace).value, Sort(overlays);
            var items := MergeItems(es, ps).value;
            && MergeTrace(trace, ps) == Some(Join(items))
            && Interleaves(items, es, ps) && AllWhole(items)
            && (Entries(Join(items)) == Some(EntriesOf(items)) <==> !Swallows(es, ps))
  {
    hide Entries, Sort, MergeItems, Interleaves, IsWholeEntry, Place, CutShort;
    var es, ps := Entries(trace).value, Sort(overlays);
    SortIsStable(overlays, 0, 0);
    MergeInterleaves(es, ps);
    var items := MergeItems(es, ps).value;
    ItemsAreWhole(items, es, ps, overlays);
    if Swallows(es, ps) {
      SwallowedIsLost(trace, es, ps, items);
    } else {
      MergedIsChained(trace, es, ps, items);
      EntriesRoundTrip(EntriesOf(items));
      EntriesOfParts(items);
    }
  }

  lemma {:induction false} ItemsAreWhole(items: seq<Item>, es: seq<Entry>, ps: seq<Overlay>, overlays: seq<Overlay>)
    requires Interleaves(items, es, ps) && multiset(ps) == multiset(overlays)
    requires forall o :: o in overlays ==> IsWholeEntry(o.root)
    ensures AllWhole(items)
  {
    hide IsWholeEntry, Place;
    forall i | 0 <= i < |items| && items[i].Added? ensures IsWholeEntry(items[i].overlay.root) {
      OverlayIsOneOf(items, i);
      assert items[i].overlay in multiset(ps);
      assert items[i].overlay in multiset(overlays);
    }
  }

  lemma {:induction false} ShortEntry()
    ensures ReadEntry([10, 1]) == Some(Entry([10, 1], []))
    ensures ReadEntry([10, 0]) == Some(Entry([10, 0], [])) && IsWholeEntry([10, 0])
  {
    var short: Bytes, whole: Bytes := [10, 1], [10, 0];
    assert short[1..] == [1] && short[1..][1..] == [] && short[..2] == short;
    assert whole[1..] == [0] && whole[1..][1..] == [] && whole[..2] == whole;
    assert ReadVarint([10, 1]) == Some(Number(10, 1)) && ReadVarint([1]) == Some(Number(1, 1));
    assert ReadVarint([10, 0]) == Some(Number(10, 1)) && ReadVarint([0]) == Some(Number(0, 1));
  }

  lemma {:induction false} MergedEntry()
    ensures ReadEntry([10, 1, 10, 0]) == Some(Entry([10, 1, 10], [10])) && ReadEntry([0]) == None
  {
    var merged: Bytes := [10, 1, 10, 0];
    assert merged[1..] == [1, 10, 0] && merged[1..][1..] == [10, 0] && merged[..3] == [10, 1, 10];
    assert ReadVarint(merged) == Some(Number(10, 1)) && ReadVarint([1, 10, 0]) == Some(Number(1, 1));
    assert Take([10, 0], 1) == [10];
  }

  lemma {:induction false} ShortEntries()
    ensures Entries([10, 1]) == Some([Entry([10, 1], [])]) && Entries([10, 1, 10, 0]) == None
  {
    hide ReadEntry;
    ShortEntry();
    MergedEntry();
    var short: Bytes, merged: Bytes := [10, 1], [10, 1, 10, 0];
    assert short[2..] == [] && merged[3..] == [0] && Entries([]) == Some([]);
    assert [Entry([10, 1], [])] + [] == [Entry([10, 1], [])];
  }

  lemma {:induction false} ShortItems(o: Overlay)
    ensures MergeItems([Entry([10, 1], [])], [o]) == Some([Original(Entry([10, 1], [])), Added(o)])
  {
    var es := [Entry([10, 1], [])];
    assert es[1..] == [] && Stamp(es[0].packet) == Some(None) && DueCount([o], None) == 0;
    assert [o][0..] == [o] && AddAll([o][..0]) == [] && AddAll([o]) == [Added(o)];
    assert MergeItems([], [o]) == Some([Added(o)]);
    assert AddAll([o][..0]) + [Original(es[0])] + [Added(o)] == [Original(es[0]), Added(o)];
  }

  /** One packet that declares a byte it does not have, one overlay: the merged
      bytes cannot be read at all. */
  lemma {:induction false} SwallowedOverlay(ts: int, order: int)
    ensures var o := Overlay([10, 0], ts, order);
            && IsWholeEntry(o.root) && Entries([10, 1]).Some?
            && MergeTrace([10, 1], Sort([o])) == Some([10, 1, 10, 0]) && Entries([10, 1, 10, 0]) == None
  {
    hide Entries, ReadEntry, MergeItems, IsWholeEntry;
    var o := Overlay([10, 0], ts, order);
    ShortEntry();
    ShortEntries();
    ShortItems(o);
    assert [o][1..] == [] && [o] + [] == [o];
    assert Sort([]) == [] && Insert(o, []) == [o] && Sort([o]) == [o];
    var items := [Original(Entry([10, 1], [])), Added(o)];
    assert items[1..] == [Added(o)] && [Added(o)][1..] == [];
    assert Join([Added(o)]) == [10, 0] + [];
    var merged: Bytes := [10, 1, 10, 0];
    assert Join(items) == merged;
  }
}
