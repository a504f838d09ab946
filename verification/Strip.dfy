/** Removing per-allocation markers from a trace
    (scripts/build_perfetto_alloc_track.py, _strip_packet and strip_alloc_markers). */
module Strip {
  import opened Wrappers
  import opened Proto

  const FTRACE_BUNDLE_FIELD := 1
  const FTRACE_EVENT_FIELD := 2
  const COMPRESSED_PACKETS_FIELD := 50

  // "memory_" and "malloc_hook_peak_snapshot"
  const ALLOC_MARKER_TAG: Bytes := [109, 101, 109, 111, 114, 121, 95]
  const PEAK_MARKER_TAG: Bytes :=
    [109, 97, 108, 108, 111, 99, 95, 104, 111, 111, 107, 95, 112, 101, 97, 107, 95, 115, 110, 97, 112, 115, 104, 111,
        116]

  /** zlib, with or without its framing. */
  datatype Inflated = Inflated(data: Bytes, raw: bool)
  datatype Zlib = Zlib(inflate: Bytes -> Option<Inflated>, deflate: (Bytes, bool) -> Bytes)

  ghost predicate Inverse(z: Zlib) {
    forall data: Bytes, raw: bool :: z.inflate(z.deflate(data, raw)) == Some(Inflated(data, raw))
  }

  predicate Contains(s: Bytes, t: Bytes) {
    exists i :: 0 <= i <= |s| && OccursAt(s, t, i)
  }

  predicate OccursAt(s: Bytes, t: Bytes, i: nat) {
    i + |t| <= |s| && s[i..i + |t|] == t
  }

  predicate IsMarker(f: Field) {
    && f.LenField? && f.number == FTRACE_EVENT_FIELD
    && Contains(f.bytes, ALLOC_MARKER_TAG) && !Contains(f.bytes, PEAK_MARKER_TAG)
  }

  predicate IsBundle(f: Field) {
    f.LenField? && f.number == FTRACE_BUNDLE_FIELD
  }

  predicate IsPacked(f: Field) {
    f.LenField? && f.number == COMPRESSED_PACKETS_FIELD
  }

  /** The cheap test: only such a packet is taken apart. */
  predicate Visible(packet: Bytes) {
    Contains(packet, ALLOC_MARKER_TAG) || Contains(packet, Key(COMPRESSED_PACKETS_FIELD, 2))
  }

  // ---------- What the code computes ----------

  datatype Out<T> = Out(result: T, dropped: nat)

  function Kept(events: seq<Field>): (r: seq<Field>) {
    if events == [] then [] else (if IsMarker(events[0]) then [] else [events[0]]) + Kept(events[1..])
  }

  function Markers(events: seq<Field>): (r: nat) {
    if events == [] then 0 else (if IsMarker(events[0]) then 1 else 0) + Markers(events[1..])
  }

  /** One field of a packet, rebuilt. `depth` is what is left of the interpreter's
      recursion limit. */
  function StripField(z: Zlib, f: Field, depth: nat): (r: Option<Out<Field>>)
    decreases depth, 0
  {
    if IsBundle(f) then
      var events := Fields(f.bytes);
      if events.None? then None else
      Some(Out(LenField(FTRACE_BUNDLE_FIELD, CopyFields(Kept(events.value))), Markers(events.value)))
    else if IsPacked(f) then
      var inner := z.inflate(f.bytes);
      if inner.None? || depth == 0 then None else
      var out := StripTrace(z, inner.value.data, depth - 1);
      if out.None? then None
      else if out.value.dropped == 0 then Some(Out(f, 0))
      else Some(Out(LenField(f.number, z.deflate(out.value.result, inner.value.raw)), out.value.dropped))
    else Some(Out(f, 0))
  }

  function StripFields(z: Zlib, fs: seq<Field>, depth: nat): (r: Option<Out<seq<Field>>>)
    decreases depth, 1, |fs|
  {
    if fs == [] then Some(Out([], 0)) else
    var first, more := StripField(z, fs[0], depth), StripFields(z, fs[1..], depth);
    if first.None? || more.None? then None
    else Some(Out([first.value.result] + more.value.result, first.value.dropped + more.value.dropped))
  }

  function StripPacket(z: Zlib, packet: Bytes, depth: nat): (r: Option<Out<Bytes>>)
    decreases depth, 2
  {
    var fs := Fields(packet);
    if fs.None? then None else
    var out := StripFields(z, fs.value, depth);
    if out.None? then None
    else if out.value.dropped == 0 then Some(Out(packet, 0))
    else Some(Out(CopyFields(out.value.result), out.value.dropped))
  }

  function StripEntry(z: Zlib, e: Entry, depth: nat): (r: Option<Out<Entry>>)
    decreases depth, 3
  {
    if !Visible(e.packet) then Some(Out(e, 0)) else
    var out := StripPacket(z, e.packet, depth);
    if out.None? then None
    else if out.value.dropped == 0 then Some(Out(e, 0))
    else Some(Out(Wrap(out.value.result), out.value.dropped))
  }

  function StripEntries(z: Zlib, es: seq<Entry>, depth: nat): (r: Option<Out<seq<Entry>>>)
    decreases depth, 4, |es|
  {
    if es == [] then Some(Out([], 0)) else
    var first, more := StripEntry(z, es[0], depth), StripEntries(z, es[1..], depth);
    if first.None? || more.None? then None
    else Some(Out([first.value.result] + more.value.result, first.value.dropped + more.value.dropped))
  }

  function StripTrace(z: Zlib, trace: Bytes, depth: nat): (r: Option<Out<Bytes>>)
    decreases depth, 5
  {
    var es := Entries(trace);
    if es.None? then None else
    var out := StripEntries(z, es.value, depth);
    if out.None? then None else Some(Out(Roots(out.value.result), out.value.dropped))
  }

  // ---------- What a trace means ----------

  /** A trace as a tree: packets of fields, with ftrace bundles opened into events
      and compressed streams into packets. */
  datatype Node = Plain(field: Field) | Bundle(events: seq<Field>) | Packed(raw: bool, packets: seq<Packet>)
  datatype Packet = Packet(nodes: seq<Node>)

  function ViewField(z: Zlib, f: Field, depth: nat): (r: Option<Node>)
    decreases depth, 0
  {
    if IsBundle(f) then
      var events := Fields(f.bytes);
      if events.None? then None else Some(Bundle(events.value))
    else if IsPacked(f) then
      var inner := z.inflate(f.bytes);
      if inner.None? || depth == 0 then None else
      var packets := View(z, inner.value.data, depth - 1);
      if packets.None? then None else Some(Packed(inner.value.raw, packets.value))
    else Some(Plain(f))
  }

  function ViewFields(z: Zlib, fs: seq<Field>, depth: nat): (r: Option<seq<Node>>)
    decreases depth, 1, |fs|
  {
    if fs == [] then Some([]) else
    var first, more := ViewField(z, fs[0], depth), ViewFields(z, fs[1..], depth);
    if first.None? || more.None? then None else Some([first.value] + more.value)
  }

  function ViewPacket(z: Zlib, packet: Bytes, depth: nat): (r: Option<Packet>)
    decreases depth, 2
  {
    var fs := Fields(packet);
    if fs.None? then None else
    var nodes := ViewFields(z, fs.value, depth);
    if nodes.None? then None else Some(Packet(nodes.value))
  }

  function ViewEntries(z: Zlib, es: seq<Entry>, depth: nat): (r: Option<seq<Packet>>)
    decreases depth, 4, |es|
  {
    if es == [] then Some([]) else
    var first, more := ViewPacket(z, es[0].packet, depth), ViewEntries(z, es[1..], depth);
    if first.None? || more.None? then None else Some([first.value] + more.value)
  }

  function View(z: Zlib, trace: Bytes, depth: nat): (r: Option<seq<Packet>>)
    decreases depth, 5
  {
    var es := Entries(trace);
    if es.None? then None else ViewEntries(z, es.value, depth)
  }

  /** The tree without its markers. */
  function Clean(packets: seq<Packet>): (r: seq<Packet>) {
    if packets == [] then [] else [Packet(CleanNodes(packets[0].nodes))] + Clean(packets[1..])
  }

  function CleanNodes(nodes: seq<Node>): (r: seq<Node>) {
    if nodes == [] then [] else [CleanNode(nodes[0])] + CleanNodes(nodes[1..])
  }

  function CleanNode(node: Node): (r: Node) {
    match node
    case Plain(_) => node
    case Bundle(events) => Bundle(Kept(events))
    case Packed(raw, packets) => Packed(raw, Clean(packets))
  }

  function Count(packets: seq<Packet>): (r: nat) {
    if packets == [] then 0 else CountNodes(packets[0].nodes) + Count(packets[1..])
  }

  function CountNodes(nodes: seq<Node>): (r: nat) {
    if nodes == [] then 0 else CountNode(nodes[0]) + CountNodes(nodes[1..])
  }

  function CountNode(node: Node): (r: nat) {
    match node
    case Plain(_) => 0
    case Bundle(events) => Markers(events)
    case Packed(_, packets) => Count(packets)
  }

  lemma {:induction false} KeptIsClean(events: seq<Field>)
    ensures Kept(Kept(events)) == Kept(events) && Markers(Kept(events)) == 0
    ensures Markers(events) == 0 ==> Kept(events) == events
  {
    hide IsMarker;
    if events != [] {
      KeptIsClean(events[1..]);
      if IsMarker(events[0]) {
        assert Kept(events) == Kept(events[1..]);
      } else {
        assert Kept(events)[1..] == Kept(events[1..]);
      }
    }
  }

  lemma {:induction false} KeptIsSized(events: seq<Field>)
    requires AllSized(events)
    ensures AllSized(Kept(events))
  {
    if events != [] {
      assert AllSized(events[1..]);
      KeptIsSized(events[1..]);
      var more := Kept(events[1..]);
      if !IsMarker(events[0]) {
        assert Kept(events) == [events[0]] + more;
      }
    }
  }

  /** A rebuilt bundle reads back as the events kept. */
  lemma {:induction false} BundleReads(bytes: Bytes)
    requires Fields(bytes).Some?
    ensures Fields(CopyFields(Kept(Fields(bytes).value))) == Some(Kept(Fields(bytes).value))
  {
    hide Fields, CopyFields, Kept;
    FieldsAreSized(bytes);
    KeptIsSized(Fields(bytes).value);
    FieldsRoundTrip(Kept(Fields(bytes).value));
  }

  lemma {:induction false} CleanOfNone(packets: seq<Packet>)
    requires Count(packets) == 0
    ensures Clean(packets) == packets
  {
    if packets != [] {
      CleanNodesOfNone(packets[0].nodes);
      CleanOfNone(packets[1..]);
    }
  }

  lemma {:induction false} CleanNodesOfNone(nodes: seq<Node>)
    requires CountNodes(nodes) == 0
    ensures CleanNodes(nodes) == nodes
  {
    if nodes != [] {
      match nodes[0] {
        case Plain(_) =>
        case Bundle(events) => KeptIsClean(events);
        case Packed(_, packets) => CleanOfNone(packets);
      }
      CleanNodesOfNone(nodes[1..]);
    }
  }

  /** Cleaning removes every marker. */
  lemma {:induction false} CleanHasNone(packets: seq<Packet>)
    ensures Count(Clean(packets)) == 0
  {
    if packets != [] {
      CleanNodesHaveNone(packets[0].nodes);
      CleanHasNone(packets[1..]);
      assert Clean(packets)[1..] == Clean(packets[1..]);
    }
  }

  lemma {:induction false} CleanNodesHaveNone(nodes: seq<Node>)
    ensures CountNodes(CleanNodes(nodes)) == 0
  {
    if nodes != [] {
      match nodes[0] {
        case Plain(_) =>
        case Bundle(events) => KeptIsClean(events);
        case Packed(_, packets) => CleanHasNone(packets);
      }
      CleanNodesHaveNone(nodes[1..]);
      assert CleanNodes(nodes)[1..] == CleanNodes(nodes[1..]);
    }
  }
}
