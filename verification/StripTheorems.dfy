/** What stripping a trace does to its meaning. */
module StripTheorems {
  import opened Wrappers
  import opened Proto
  import opened Strip

  // ---------- What the cheap test may miss ----------

  predicate ExposedFields(z: Zlib, fs: seq<Field>, depth: nat)
    decreases depth, 0, |fs|
  {
    fs == [] || (ExposedField(z, fs[0], depth) && ExposedFields(z, fs[1..], depth))
  }

  predicate ExposedField(z: Zlib, f: Field, depth: nat)
    decreases depth, 0, 0
  {
    IsPacked(f) && depth > 0 ==> var inner := z.inflate(f.bytes); inner.Some? ==>
        Exposed(z, inner.value.data, depth - 1)
  }

  predicate ExposedPacket(z: Zlib, packet: Bytes, depth: nat)
    decreases depth, 1
  {
    var fs := Fields(packet);
    fs.Some? ==> ExposedFields(z, fs.value, depth)
  }

  predicate ExposedEntries(z: Zlib, es: seq<Entry>, depth: nat)
    decreases depth, 3, |es|
  {
    es == [] || (ExposedEntry(z, es[0].packet, depth) && ExposedEntries(z, es[1..], depth))
  }

  /** A packet that holds a marker anywhere, packed or not, passes the cheap test,
      and so do the packets packed inside it. */
  predicate ExposedEntry(z: Zlib, packet: Bytes, depth: nat)
    decreases depth, 2
  {
    if Visible(packet) then ExposedPacket(z, packet, depth)
    else var p := ViewPacket(z, packet, depth); p.Some? ==> CountNodes(p.value.nodes) == 0
  }

  predicate Exposed(z: Zlib, trace: Bytes, depth: nat)
    decreases depth, 4
  {
    var es := Entries(trace);
    es.Some? ==> ExposedEntries(z, es.value, depth)
  }

  // ---------- Meaning is kept ----------

  /** What stripping makes of a part that holds `count` markers: `left` remain, the
      result is the clean part exactly when no marker is hidden. */
  predicate Accounts<T(==)>(exposed: bool, count: nat, clean: T, after: T, left: nat, dropped: nat) {
    && left + dropped == count
    && (exposed ==> after == clean && dropped == count)
    && (!exposed ==> dropped < count)
  }

  lemma {:induction false} FieldMeaning(z: Zlib, f: Field, depth: nat)
    requires Inverse(z) && ViewField(z, f, depth).Some?
    ensures StripField(z, f, depth).Some?
    ensures var out := StripField(z, f, depth).value; ViewField(z, out.result, depth).Some?
    ensures var out := StripField(z, f, depth).value;
            var node, node' := ViewField(z, f, depth).value, ViewField(z, out.result, depth).value;
            Accounts(ExposedField(z, f, depth), CountNode(node), CleanNode(node), node', CountNode(node'),
                out.dropped)
    decreases depth, 0
  {
    hide Fields, CopyFields, Kept, Markers, View, StripTrace, Exposed, Count, Clean, Contains;
    var node := ViewField(z, f, depth).value;
    if IsBundle(f) {
      BundleReads(f.bytes);
      KeptIsClean(Fields(f.bytes).value);
    } else if IsPacked(f) {
      var inner := z.inflate(f.bytes).value;
      TraceMeaning(z, inner.data, depth - 1);
      var out := StripTrace(z, inner.data, depth - 1).value;
      if out.dropped == 0 {
        NothingDropped(z, inner.data, depth - 1);
      }
    }
  }

  lemma {:induction false} FieldsMeaning(z: Zlib, fs: seq<Field>, depth: nat)
    requires Inverse(z) && ViewFields(z, fs, depth).Some?
    ensures StripFields(z, fs, depth).Some?
    ensures var out := StripFields(z, fs, depth).value; ViewFields(z, out.result, depth).Some?
    ensures var out := StripFields(z, fs, depth).value;
            var nodes, nodes' := ViewFields(z, fs, depth).value, ViewFields(z, out.result, depth).value;
            Accounts(ExposedFields(z, fs, depth), CountNodes(nodes), CleanNodes(nodes), nodes',
                CountNodes(nodes'), out.dropped)
    decreases depth, 1, |fs|
  {
    hide ViewField, StripField, ExposedField, CountNode, CleanNode;
    if fs != [] {
      FieldMeaning(z, fs[0], depth);
      FieldsMeaning(z, fs[1..], depth);
      var first, more := StripField(z, fs[0], depth).value, StripFields(z, fs[1..], depth).value;
      var out := StripFields(z, fs, depth).value;
      assert out.result[1..] == more.result;
      var nodes, nodes' := ViewFields(z, fs, depth).value, ViewFields(z, out.result, depth).value;
      assert nodes[1..] == ViewFields(z, fs[1..], depth).value;
      assert nodes'[1..] == ViewFields(z, more.result, depth).value;
    }
  }

  /** Rebuilt fields keep their widths. */
  lemma {:induction false} StripKeepsSized(z: Zlib, fs: seq<Field>, depth: nat)
    requires AllSized(fs) && StripFields(z, fs, depth).Some?
    ensures |StripFields(z, fs, depth).value.result| == |fs| && AllSized(StripFields(z, fs, depth).value.result)
  {
    hide StripTrace, Contains, Fields, CopyFields, Kept, Markers;
    if fs != [] {
      assert AllSized(fs[1..]);
      StripKeepsSized(z, fs[1..], depth);
      var first := StripField(z, fs[0], depth).value.result;
      assert first == fs[0] || first.LenField?;
    }
  }

  /** A rebuilt packet reads back as the rebuilt fields. */
  lemma {:induction false} PacketReads(z: Zlib, packet: Bytes, depth: nat)
    requires Fields(packet).Some? && StripFields(z, Fields(packet).value, depth).Some?
    ensures var fs' := StripFields(z, Fields(packet).value, depth).value.result; Fields(CopyFields(fs')) == Some(fs')
  {
    hide Fields, CopyFields, StripFields, AllSized;
    FieldsAreSized(packet);
    StripKeepsSized(z, Fields(packet).value, depth);
    FieldsRoundTrip(StripFields(z, Fields(packet).value, depth).value.result);
  }

  lemma {:induction false} EntryMeaning(z: Zlib, e: Entry, depth: nat)
    requires Inverse(z) && ViewPacket(z, e.packet, depth).Some?
    ensures StripEntry(z, e, depth).Some?
    ensures var out := StripEntry(z, e, depth).value; ViewPacket(z, out.result.packet, depth).Some?
    ensures var out := StripEntry(z, e, depth).value;
            var p, p' := ViewPacket(z, e.packet, depth).value, ViewPacket(z, out.result.packet, depth).value;
            Accounts(ExposedEntry(z, e.packet, depth), CountNodes(p.nodes), Packet(CleanNodes(p.nodes)), p',
                CountNodes(p'.nodes), out.dropped)
    decreases depth, 2
  {
    hide Fields, CopyFields, StripFields, ViewFields, ExposedFields, CountNodes, CleanNodes, Contains, Visible;
    var fs := Fields(e.packet).value;
    FieldsMeaning(z, fs, depth);
    PacketReads(z, e.packet, depth);
    var nodes := ViewFields(z, fs, depth).value;
    if CountNodes(nodes) == 0 {
      CleanNodesOfNone(nodes);
    }
  }

  lemma {:induction false} EntriesMeaning(z: Zlib, es: seq<Entry>, depth: nat)
    requires Inverse(z) && ViewEntries(z, es, depth).Some?
    ensures StripEntries(z, es, depth).Some?
    ensures var out := StripEntries(z, es, depth).value; ViewEntries(z, out.result, depth).Some?
    ensures var out := StripEntries(z, es, depth).value;
            var ps, ps' := ViewEntries(z, es, depth).value, ViewEntries(z, out.result, depth).value;
            Accounts(ExposedEntries(z, es, depth), Count(ps), Clean(ps), ps', Count(ps'), out.dropped)
    decreases depth, 3, |es|
  {
    hide ViewPacket, StripEntry, ExposedEntry, CountNodes, CleanNodes;
    if es != [] {
      EntryMeaning(z, es[0], depth);
      EntriesMeaning(z, es[1..], depth);
      var first, more := StripEntry(z, es[0], depth).value, StripEntries(z, es[1..], depth).value;
      var out := StripEntries(z, es, depth).value;
      assert out.result[1..] == more.result;
      var ps, ps' := ViewEntries(z, es, depth).value, ViewEntries(z, out.result, depth).value;
      assert ps[1..] == ViewEntries(z, es[1..], depth).value;
      assert ps'[1..] == ViewEntries(z, more.result, depth).value;
    }
  }

  /** Rebuilt entries still follow one another. */
  lemma {:induction false} StripKeepsChained(z: Zlib, es: seq<Entry>, depth: nat)
    requires Chained(es) && StripEntries(z, es, depth).Some?
    ensures var out := StripEntries(z, es, depth).value; |out.result| == |es| && Chained(out.result)
  {
    hide StripPacket, Visible, ReadEntry, Complete, Readable, Wrap;
    if es != [] {
      assert Chained(es[1..]);
      StripKeepsChained(z, es[1..], depth);
      var out := StripEntry(z, es[0], depth).value.result;
      if out != es[0] {
        var packet := StripPacket(z, es[0].packet, depth).value.result;
        WrapIsComplete(packet);
        CompleteIsReadable(out);
        assert |out.root| > 0 by {
          WrapHasBytes(packet);
        }
      }
    }
  }

  lemma {:induction false} WrapHasBytes(packet: Bytes)
    ensures |Wrap(packet).root| > 0
  {
  }

  /** The rebuilt trace reads back as the rebuilt entries. */
  lemma {:induction false} TraceReads(z: Zlib, trace: Bytes, depth: nat)
    requires Entries(trace).Some? && StripEntries(z, Entries(trace).value, depth).Some?
    ensures var es' := StripEntries(z, Entries(trace).value, depth).value.result; Entries(Roots(es')) == Some(es')
  {
    hide Entries, StripEntries, Chained, Roots;
    EntriesAreChained(trace);
    StripKeepsChained(z, Entries(trace).value, depth);
    EntriesRoundTrip(StripEntries(z, Entries(trace).value, depth).value.result);
  }

  lemma {:induction false} TraceMeaning(z: Zlib, trace: Bytes, depth: nat)
    requires Inverse(z) && View(z, trace, depth).Some?
    ensures StripTrace(z, trace, depth).Some?
    ensures var out := StripTrace(z, trace, depth).value; View(z, out.result, depth).Some?
    ensures var out := StripTrace(z, trace, depth).value;
            var ps, ps' := View(z, trace, depth).value, View(z, out.result, depth).value;
            Accounts(Exposed(z, trace, depth), Count(ps), Clean(ps), ps', Count(ps'), out.dropped)
    decreases depth, 4
  {
    hide Entries, StripEntries, ViewEntries, ExposedEntries, Count, Clean, Roots;
    EntriesMeaning(z, Entries(trace).value, depth);
    TraceReads(z, trace, depth);
  }

  // ---------- Bytes are kept ----------

  lemma {:induction false} NoEntryChanged(z: Zlib, es: seq<Entry>, depth: nat)
    requires StripEntries(z, es, depth).Some? && StripEntries(z, es, depth).value.dropped == 0
    ensures StripEntries(z, es, depth).value.result == es
  {
    hide Visible, StripPacket;
    if es != [] {
      NoEntryChanged(z, es[1..], depth);
    }
  }

  /** A trace with nothing to remove is returned byte for byte. */
  lemma {:induction false} NothingDropped(z: Zlib, trace: Bytes, depth: nat)
    requires StripTrace(z, trace, depth).Some? && StripTrace(z, trace, depth).value.dropped == 0
    ensures StripTrace(z, trace, depth).value.result == trace
  {
    hide Entries, StripEntries, Roots;
    NoEntryChanged(z, Entries(trace).value, depth);
    RootsAreTheInput(trace);
  }

  /** For every trace that can be read: the result reads as the trace without its
      markers, and the count is exact, if and only if every packet holding a marker
      passes the cheap test. Hidden or not, no marker is lost uncounted. */
  lemma {:induction false} StripIsExactIffExposed(z: Zlib, trace: Bytes, depth: nat)
    requires Inverse(z) && View(z, trace, depth).Some?
    ensures StripTrace(z, trace, depth).Some?
    ensures var out := StripTrace(z, trace, depth).value;
            var ps := View(z, trace, depth).value;
            && View(z, out.result, depth).Some?
            && Count(View(z, out.result, depth).value) + out.dropped == Count(ps)
            && (Exposed(z, trace, depth) <==> View(z, out.result, depth) == Some(Clean(ps)))
            && (Exposed(z, trace, depth) <==> out.dropped == Count(ps))
  {
    hide View, StripTrace, Exposed, Count, Clean;
    TraceMeaning(z, trace, depth);
    CleanHasNone(View(z, trace, depth).value);
  }

  // ---------- A second pass ----------

  lemma {:induction false} FieldTwice(z: Zlib, f: Field, depth: nat)
    requires Inverse(z) && StripField(z, f, depth).Some?
    ensures var f' := StripField(z, f, depth).value.result; StripField(z, f', depth) == Some(Out(f', 0))
    decreases depth, 0
  {
    hide Fields, CopyFields, Kept, Markers, StripTrace, Contains;
    if IsBundle(f) {
      BundleReads(f.bytes);
      KeptIsClean(Fields(f.bytes).value);
    } else if IsPacked(f) {
      TwiceIsOnce(z, z.inflate(f.bytes).value.data, depth - 1);
    }
  }

  lemma {:induction false} FieldsTwice(z: Zlib, fs: seq<Field>, depth: nat)
    requires Inverse(z) && StripFields(z, fs, depth).Some?
    ensures var fs' := StripFields(z, fs, depth).value.result; StripFields(z, fs', depth) == Some(Out(fs', 0))
    decreases depth, 1, |fs|
  {
    hide StripField;
    if fs != [] {
      FieldTwice(z, fs[0], depth);
      FieldsTwice(z, fs[1..], depth);
      var fs' := StripFields(z, fs, depth).value.result;
      assert fs'[1..] == StripFields(z, fs[1..], depth).value.result;
      assert [fs'[0]] + fs'[1..] == fs';
    }
  }

  lemma {:induction false} EntryTwice(z: Zlib, e: Entry, depth: nat)
    requires Inverse(z) && StripEntry(z, e, depth).Some?
    ensures var e' := StripEntry(z, e, depth).value.result; StripEntry(z, e', depth) == Some(Out(e', 0))
    decreases depth, 2
  {
    hide Fields, CopyFields, StripFields, Visible;
    if Visible(e.packet) {
      FieldsTwice(z, Fields(e.packet).value, depth);
      PacketReads(z, e.packet, depth);
    }
  }

  lemma {:induction false} EntriesTwice(z: Zlib, es: seq<Entry>, depth: nat)
    requires Inverse(z) && StripEntries(z, es, depth).Some?
    ensures var es' := StripEntries(z, es, depth).value.result; StripEntries(z, es', depth) == Some(Out(es', 0))
    decreases depth, 3, |es|
  {
    hide StripEntry;
    if es != [] {
      EntryTwice(z, es[0], depth);
      EntriesTwice(z, es[1..], depth);
      var es' := StripEntries(z, es, depth).value.result;
      assert es'[1..] == StripEntries(z, es[1..], depth).value.result;
      assert [es'[0]] + es'[1..] == es';
    }
  }

  /** A second pass removes nothing and returns identical bytes, for every input
      the first pass accepts. */
  lemma {:induction false} TwiceIsOnce(z: Zlib, trace: Bytes, depth: nat)
    requires Inverse(z) && StripTrace(z, trace, depth).Some?
    ensures var trace' := StripTrace(z, trace, depth).value.result; StripTrace(z, trace', depth) == Some(Out(trace', 0))
    decreases depth, 4
  {
    hide Entries, StripEntries, Roots;
    EntriesTwice(z, Entries(trace).value, depth);
    TraceReads(z, trace, depth);
  }

  // ---------- When nothing is hidden ----------

  /** Every compressed-stream field has its key written in the minimal form. */
  predicate PlainKeys(s: Bytes)
    decreases |s|
  {
    s == [] || var step := ReadField(s);
    step.Some? ==> (IsPacked(step.value.field) ==> Key(COMPRESSED_PACKETS_FIELD, 2) <= s) && PlainKeys(step.value.rest)
  }

  predicate PlainFields(z: Zlib, fs: seq<Field>, depth: nat)
    decreases depth, 0, |fs|
  {
    fs == [] || (PlainField(z, fs[0], depth) && PlainFields(z, fs[1..], depth))
  }

  predicate PlainField(z: Zlib, f: Field, depth: nat)
    decreases depth, 0, 0
  {
    IsPacked(f) && depth > 0 ==> var inner := z.inflate(f.bytes); inner.Some? ==>
        PlainTrace(z, inner.value.data, depth - 1)
  }

  predicate PlainEntries(z: Zlib, es: seq<Entry>, depth: nat)
    decreases depth, 1, |es|
  {
    es == [] || (PlainKeys(es[0].packet) &&
        (Fields(es[0].packet).Some? ==> PlainFields(z, Fields(es[0].packet).value, depth))
                 && PlainEntries(z, es[1..], depth))
  }

  /** The same at every level of nesting. */
  predicate PlainTrace(z: Zlib, trace: Bytes, depth: nat)
    decreases depth, 2
  {
    var es := Entries(trace);
    es.Some? ==> PlainEntries(z, es.value, depth)
  }

  lemma {:induction false} ContainsWider(s: Bytes, k: nat, n: nat, t: Bytes)
    requires k + n <= |s| && Contains(s[k..k + n], t)
    ensures Contains(s, t)
  {
    var i: nat :| i <= n && OccursAt(s[k..k + n], t, i);
    forall j | 0 <= j < |t| ensures s[k + i + j] == t[j] {
      assert s[k..k + n][i..i + |t|][j] == t[j];
    }
    assert OccursAt(s, t, k + i);
  }

  /** A value read is a slice of the input, and what is left is its end. */
  lemma {:induction false} ReadSlices(s: Bytes) returns (k: nat)
    requires ReadField(s).Some?
    ensures var step := ReadField(s).value;
            && step.rest == s[|s| - |step.rest|..]
            && (step.field.LenField? ==>
                k + |step.field.bytes| <= |s| && s[k..k + |step.field.bytes|] == step.field.bytes)
  {
    hide ReadVarint;
    var key := ReadVarint(s).value;
    var body := s[key.size..];
    k := key.size;
    if key.value % 8 == 2 {
      var n := ReadVarint(body).value;
      k := key.size + n.size;
      assert body[n.size..] == s[k..];
    }
  }

  lemma {:induction false} NoTagNoMarkers(s: Bytes)
    requires Fields(s).Some? && !Contains(s, ALLOC_MARKER_TAG)
    ensures Markers(Fields(s).value) == 0
    decreases |s|
  {
    hide ReadField, Contains;
    if s != [] {
      var step := ReadField(s).value;
      var k := ReadSlices(s);
      if IsMarker(step.field) {
        ContainsWider(s, k, |step.field.bytes|, ALLOC_MARKER_TAG);
      }
      if Contains(step.rest, ALLOC_MARKER_TAG) {
        assert s[|s| - |step.rest|..|s| - |step.rest| + |step.rest|] == step.rest;
        ContainsWider(s, |s| - |step.rest|, |step.rest|, ALLOC_MARKER_TAG);
      }
      NoTagNoMarkers(step.rest);
      assert Fields(s).value[1..] == Fields(step.rest).value;
    }
  }

  lemma {:induction false} InvisibleHasNone(z: Zlib, s: Bytes, depth: nat)
    requires Fields(s).Some? && ViewFields(z, Fields(s).value, depth).Some?
    requires PlainKeys(s) && !Visible(s)
    ensures CountNodes(ViewFields(z, Fields(s).value, depth).value) == 0
    decreases |s|
  {
    hide ReadField, Contains, Varint;
    if s != [] {
      var step := ReadField(s).value;
      var fs := Fields(s).value;
      assert fs[1..] == Fields(step.rest).value;
      var k := ReadSlices(s);
      if IsPacked(step.field) {
        PrefixIsContained(s, Key(COMPRESSED_PACKETS_FIELD, 2));
        assert false;
      }
      if IsBundle(step.field) {
        if Contains(step.field.bytes, ALLOC_MARKER_TAG) {
          ContainsWider(s, k, |step.field.bytes|, ALLOC_MARKER_TAG);
        }
        NoTagNoMarkers(step.field.bytes);
      }
      SuffixIsInvisible(s, |s| - |step.rest|);
      InvisibleHasNone(z, step.rest, depth);
      var nodes := ViewFields(z, fs, depth).value;
      assert nodes[1..] == ViewFields(z, fs[1..], depth).value;
    }
  }

  lemma {:induction false} PrefixIsContained(s: Bytes, t: Bytes)
    requires t <= s
    ensures Contains(s, t)
  {
    assert OccursAt(s, t, 0);
  }

  lemma {:induction false} SuffixIsInvisible(s: Bytes, k: nat)
    requires k <= |s| && !Visible(s)
    ensures !Visible(s[k..])
  {
    hide Contains;
    assert s[k..k + (|s| - k)] == s[k..];
    if Contains(s[k..], ALLOC_MARKER_TAG) {
      ContainsWider(s, k, |s| - k, ALLOC_MARKER_TAG);
    }
    if Contains(s[k..], Key(COMPRESSED_PACKETS_FIELD, 2)) {
      ContainsWider(s, k, |s| - k, Key(COMPRESSED_PACKETS_FIELD, 2));
    }
  }

  lemma {:induction false} PlainFieldsExposed(z: Zlib, fs: seq<Field>, depth: nat)
    requires PlainFields(z, fs, depth)
    ensures ExposedFields(z, fs, depth)
    decreases depth, 0, |fs|
  {
    hide Exposed, PlainTrace;
    if fs != [] {
      if IsPacked(fs[0]) && depth > 0 && z.inflate(fs[0].bytes).Some? {
        MinimalIsExposed(z, z.inflate(fs[0].bytes).value.data, depth - 1);
      }
      PlainFieldsExposed(z, fs[1..], depth);
    }
  }

  lemma {:induction false} PlainEntriesExposed(z: Zlib, es: seq<Entry>, depth: nat)
    requires PlainEntries(z, es, depth)
    ensures ExposedEntries(z, es, depth)
    decreases depth, 1, |es|
  {
    hide Fields, PlainFields, ExposedFields, PlainKeys, Visible, ViewFields, CountNodes;
    if es != [] {
      var packet := es[0].packet;
      if Fields(packet).Some? {
        PlainFieldsExposed(z, Fields(packet).value, depth);
        if !Visible(packet) && ViewFields(z, Fields(packet).value, depth).Some? {
          InvisibleHasNone(z, packet, depth);
        }
      }
      assert ExposedPacket(z, packet, depth);
      assert ExposedEntry(z, packet, depth);
      PlainEntriesExposed(z, es[1..], depth);
    }
  }

  /** With minimal keys the cheap test is sound: no marker is hidden from it. */
  lemma {:induction false} MinimalIsExposed(z: Zlib, trace: Bytes, depth: nat)
    requires PlainTrace(z, trace, depth)
    ensures Exposed(z, trace, depth)
    decreases depth, 2
  {
    hide Entries, PlainEntries, ExposedEntries;
    if Entries(trace).Some? {
      PlainEntriesExposed(z, Entries(trace).value, depth);
    }
  }

  /** Fields written by this codec have minimal keys. */
  lemma {:induction false} CopiesArePlain(fs: seq<Field>)
    requires AllSized(fs)
    ensures PlainKeys(CopyFields(fs))
  {
    hide ReadField, Sized, Key, Body;
    if fs != [] {
      var rest := CopyFields(fs[1..]);
      CopyIsEmpty(fs[1..]);
      assert AllSized(fs[1..]);
      CopiesArePlain(fs[1..]);
      CopyThenRead(fs[0], rest);
      if IsPacked(fs[0]) {
        assert CopyFields(fs) == Key(COMPRESSED_PACKETS_FIELD, 2) + (Body(fs[0]) + rest);
      }
    }
  }

  // ---------- A hidden marker ----------

  const MARKER: Field := LenField(FTRACE_EVENT_FIELD, ALLOC_MARKER_TAG)

  /** A trace of one packet that holds one marker. */
  function Marked(): Bytes {
    Wrap(CopyField(LenField(FTRACE_BUNDLE_FIELD, CopyField(MARKER)))).root
  }

  /** The key of a compressed-stream field in three bytes where two would do. */
  const LONG_KEY: Bytes := [0x92, 0x83, 0x00]

  /** A packet that holds one compressed stream, under that key. */
  function LongKeyed(payload: Bytes): Bytes {
    LONG_KEY + (Varint(|payload|) + payload)
  }

  lemma {:induction false} MarkedView(z: Zlib)
    ensures View(z, Marked(), 0) == Some([Packet([Bundle([MARKER])])])
  {
    hide ReadField, CopyField, ReadEntry;
    var bundle := LenField(FTRACE_BUNDLE_FIELD, CopyField(MARKER));
    var packet := CopyField(bundle);
    OneField(MARKER);
    OneField(bundle);
    OneEntry(packet);
    assert ViewField(z, bundle, 0) == Some(Bundle([MARKER]));
    assert ViewFields(z, [bundle], 0) == Some([Bundle([MARKER])]) by {
      assert [bundle][1..] == [] && [Bundle([MARKER])] + [] == [Bundle([MARKER])];
    }
    assert ViewPacket(z, packet, 0) == Some(Packet([Bundle([MARKER])]));
    assert [Packet([Bundle([MARKER])])] + [] == [Packet([Bundle([MARKER])])];
  }

  lemma {:induction false} OneField(f: Field)
    requires f.LenField?
    ensures Fields(CopyField(f)) == Some([f])
  {
    hide CopyField;
    FieldsRoundTrip([f]);
    assert CopyFields([f]) == CopyField(f) + [];
    assert CopyField(f) + [] == CopyField(f);
  }

  lemma {:induction false} OneEntry(packet: Bytes)
    ensures Entries(Wrap(packet).root) == Some([Wrap(packet)])
  {
    hide ReadEntry, Wrap;
    WrapIsComplete(packet);
    CompleteIsReadable(Wrap(packet));
    WrapHasBytes(packet);
    EntriesRoundTrip([Wrap(packet)]);
    assert Roots([Wrap(packet)]) == Wrap(packet).root + [];
    assert Wrap(packet).root + [] == Wrap(packet).root;
  }

  lemma {:induction false} LongKeyIs(rest: Bytes)
    ensures ReadVarint(LONG_KEY + rest) == Some(Number(402, 3))
  {
    var s: Bytes := LONG_KEY + rest;
    assert s[1..][1..] == [0] + rest;
    assert ReadVarint(s[1..][1..]) == Some(Number(0, 1));
    assert ReadVarint(s[1..]) == Some(Number(3, 2));
  }

  lemma {:induction false} LongKeyReads(payload: Bytes)
    ensures Fields(LongKeyed(payload)) == Some([LenField(COMPRESSED_PACKETS_FIELD, payload)])
  {
    hide ReadVarint, Varint;
    var s, f := LongKeyed(payload), LenField(COMPRESSED_PACKETS_FIELD, payload);
    LongKeyIs(Varint(|payload|) + payload);
    assert s[3..] == Body(f) + [];
    BodyThenRead(f, []);
    assert ReadField(s) == Some(Step(f, []));
    assert Fields([]) == Some([]);
    assert [f] + [] == [f];
  }

  /** A marker inside a stream whose key is not minimal is missed, whatever bytes
      zlib makes of it, unless they happen to show what the cheap test looks for. */
  lemma {:induction false} HiddenMarkerStays(z: Zlib, payload: Bytes, raw: bool)
    requires z.inflate(payload) == Some(Inflated(Marked(), raw)) && !Visible(LongKeyed(payload))
    ensures var trace := Wrap(LongKeyed(payload)).root;
            && StripTrace(z, trace, 1) == Some(Out(trace, 0))
            && View(z, trace, 1).Some? && Count(View(z, trace, 1).value) == 1
  {
    hide ReadField, CopyField, ReadEntry, Entries, Fields, Visible, IsMarker, Wrap, Marked, LongKeyed;
    var packet := LongKeyed(payload);
    var e := Wrap(packet);
    var trace := e.root;
    OneEntry(packet);
    LongKeyReads(payload);
    MarkedView(z);
    MarkerIsMarker();
    var f := LenField(COMPRESSED_PACKETS_FIELD, payload);
    var inner := [Packet([Bundle([MARKER])])];
    assert ViewField(z, f, 1) == Some(Packed(raw, inner));
    assert ViewFields(z, [f], 1) == Some([Packed(raw, inner)]) by {
      assert [f][1..] == [] && [Packed(raw, inner)] + [] == [Packed(raw, inner)];
    }
    WrapPacket(packet);
    assert ViewEntries(z, [e], 1) == Some([Packet([Packed(raw, inner)])] + []);
    assert Roots([e]) == trace + [];
    assert trace + [] == trace;
    assert StripEntries(z, [e], 1) == Some(Out([e] + [], 0));
    assert [e] + [] == [e];
    assert CountNodes([Bundle([MARKER])]) == 1;
    assert Count(inner) == 1;
    assert CountNodes([Packed(raw, inner)]) == 1;
  }

  lemma {:induction false} WrapPacket(packet: Bytes)
    ensures Wrap(packet).packet == packet
  {
  }

  lemma {:induction false} MarkerIsMarker()
    ensures IsMarker(MARKER) && Markers([MARKER]) == 1
  {
    assert OccursAt(ALLOC_MARKER_TAG, ALLOC_MARKER_TAG, 0);
    assert |PEAK_MARKER_TAG| > |ALLOC_MARKER_TAG|;
  }

  // ---------- In the words of the trace ----------

  /** The bytes of an ASCII text. */
  function Ascii(text: string): (r: Bytes) {
    seq(|text|, i requires 0 <= i < |text| => if text[i] < 128 as char then text[i] as int else 0)
  }

  lemma {:induction false} TagsAreTexts()
    ensures Ascii("memory_") == ALLOC_MARKER_TAG && Ascii("malloc_hook_peak_snapshot") == PEAK_MARKER_TAG
  {
  }

  lemma {:induction false} ContainsMiddle(pre: Bytes, t: Bytes, post: Bytes)
    ensures Contains(pre + t + post, t)
  {
    assert OccursAt(pre + t + post, t, |pre|);
  }

  /** An ftrace event that speaks of memory_ goes, unless it speaks of the peak
      snapshot; no other field goes. */
  lemma {:induction false} WhichEventsGo(f: Field)
    ensures IsMarker(f) <==>
            && f.LenField? && f.number == 2
            && Contains(f.bytes, Ascii("memory_")) && !Contains(f.bytes, Ascii("malloc_hook_peak_snapshot"))
  {
    hide Contains;
    TagsAreTexts();
  }

  /** A snapshot event stays whatever else it says. */
  lemma {:induction false} SnapshotStays(number: nat, pre: Bytes, post: Bytes)
    ensures !IsMarker(LenField(number, pre + Ascii("malloc_hook_peak_snapshot") + post))
  {
    hide Contains;
    TagsAreTexts();
    ContainsMiddle(pre, PEAK_MARKER_TAG, post);
  }

  /** A trace of one packet with one ftrace bundle. */
  function OneBundle(events: seq<Field>): (r: Bytes) {
    Wrap(CopyField(LenField(1, CopyFields(events)))).root
  }

  /** Stripping such a trace leaves the one without the events that go. */
  lemma {:induction false} BundleIsStripped(z: Zlib, events: seq<Field>, depth: nat)
    requires AllSized(events)
    ensures StripTrace(z, OneBundle(events), depth) == Some(Out(OneBundle(Kept(events)), Markers(events)))
  {
    hide ReadField, CopyField, ReadEntry, Entries, Fields, Visible, IsMarker, Wrap, CopyFields, Kept, Markers;
    var bundle := LenField(1, CopyFields(events));
    var packet := CopyField(bundle);
    var e, kept := Wrap(packet), LenField(1, CopyFields(Kept(events)));
    OneEntry(packet);
    OneField(bundle);
    FieldsRoundTrip(events);
    KeptIsClean(events);
    WrapPacket(packet);
    assert StripField(z, bundle, depth) == Some(Out(kept, Markers(events)));
    assert StripFields(z, [bundle], depth) == Some(Out([kept], Markers(events))) by {
      assert [bundle][1..] == [] && [kept] + [] == [kept];
    }
    OneCopy(kept);
    var stripped := if Markers(events) == 0 then e else Wrap(CopyField(kept));
    if !Visible(packet) {
      InvisibleBundle(events, packet);
    }
    assert StripEntry(z, e, depth) == Some(Out(stripped, Markers(events)));
    assert StripEntries(z, [e], depth) == Some(Out([stripped] + [], Markers(events)));
    assert [stripped] + [] == [stripped] && Roots([stripped]) == stripped.root + [];
    assert stripped.root + [] == stripped.root;
  }

  lemma {:induction false} OneCopy(f: Field)
    ensures CopyFields([f]) == CopyField(f)
  {
    hide CopyField;
    assert CopyFields([f]) == CopyField(f) + [];
  }

  lemma {:induction false} InvisibleBundle(events: seq<Field>, packet: Bytes)
    requires AllSized(events) && packet == CopyField(LenField(1, CopyFields(events))) && !Visible(packet)
    ensures Markers(events) == 0
  {
    hide ReadField, Fields, Varint, Contains;
    var bytes := CopyFields(events);
    var head := Key(1, 2) + Varint(|bytes|);
    assert packet == head + bytes;
    assert packet[|head|..|head| + |bytes|] == bytes;
    if Contains(bytes, ALLOC_MARKER_TAG) {
      ContainsWider(packet, |head|, |bytes|, ALLOC_MARKER_TAG);
    }
    FieldsRoundTrip(events);
    NoTagNoMarkers(bytes);
  }
}
