/** The loops of scripts/build_perfetto_alloc_track.py: each appends to a buffer
    and counts, one field or entry at a time. */
module StripLoops {
  import opened Wrappers
  import opened Proto
  import opened Strip

  /** What a loop has built followed by what is still to come. */
  ghost function Then(done: Bytes, dropped: nat, more: Option<Out<Bytes>>): Option<Out<Bytes>> {
    if more.None? then None else Some(Out(done + more.value.result, dropped + more.value.dropped))
  }

  lemma {:induction false} ThenThen(done: Bytes, dropped: nat, one: Bytes, n: nat, more: Option<Out<Bytes>>)
    ensures Then(done, dropped, Then(one, n, more)) == Then(done + one, dropped + n, more)
  {
    if more.Some? {
      assert done + (one + more.value.result) == done + one + more.value.result;
    }
  }

  lemma {:induction false} ThenNothing(done: Bytes, dropped: nat)
    ensures Then(done, dropped, Some(Out([], 0))) == Some(Out(done, dropped))
  {
    assert done + [] == done;
  }

  lemma {:induction false} NothingThen(more: Option<Out<Bytes>>)
    ensures Then([], 0, more) == more
  {
    if more.Some? {
      assert [] + more.value.result == more.value.result;
    }
  }

  // ---------- Events of a bundle ----------

  ghost function BundleOf(s: Bytes): Option<Out<Bytes>> {
    var events := Fields(s);
    if events.None? then None else Some(Out(CopyFields(Kept(events.value)), Markers(events.value)))
  }

  lemma {:induction false} BundleStep(s: Bytes)
    requires s != []
    ensures ReadField(s).None? ==> BundleOf(s) == None
    ensures ReadField(s).Some? ==>
              var step := ReadField(s).value;
              BundleOf(s) == if IsMarker(step.field) then Then([], 1, BundleOf(step.rest))
                  else Then(CopyField(step.field), 0, BundleOf(step.rest))
  {
    hide ReadField, CopyField, IsMarker;
    if ReadField(s).Some? {
      var step := ReadField(s).value;
      var more := Fields(step.rest);
      if more.Some? {
        var all := [step.field] + more.value;
        assert Fields(s) == Some(all) && all[1..] == more.value;
        if IsMarker(step.field) {
          assert Kept(all) == Kept(more.value);
          assert [] + CopyFields(Kept(more.value)) == CopyFields(Kept(more.value));
        } else {
          assert Kept(all) == [step.field] + Kept(more.value);
          assert Kept(all)[1..] == Kept(more.value);
        }
      }
    }
  }

  method StripBundle(value: Bytes) returns (r: Option<Out<Bytes>>)
    ensures r == BundleOf(value)
  {
    hide ReadField, CopyField, Fields, BundleOf, Then, IsMarker;
    var offset, kept: Bytes, dropped: nat := 0, [], 0;
    assert Drop(value, 0) == value;
    NothingThen(BundleOf(value));
    while offset < |value|
      invariant BundleOf(value) == Then(kept, dropped, BundleOf(Drop(value, offset)))
      decreases |value| - offset
    {
      BundleStep(value[offset..]);
      var f, next := NextField(value, offset);
      if f.None? {
        assert Then(kept, dropped, None) == None by {
          NoneThen(kept, dropped);
        }
        return None;
      }
      if IsMarker(f.value) {
        ThenThen(kept, dropped, [], 1, BundleOf(Drop(value, next)));
        assert kept + [] == kept;
        dropped := dropped + 1;
      } else {
        ThenThen(kept, dropped, CopyField(f.value), 0, BundleOf(Drop(value, next)));
        kept := kept + CopyField(f.value);
      }
      offset := next;
    }
    assert Drop(value, offset) == [];
    BundleOfNothing();
    ThenNothing(kept, dropped);
    return Some(Out(kept, dropped));
  }

  lemma {:induction false} NoneThen(done: Bytes, dropped: nat)
    ensures Then(done, dropped, None) == None
  {
  }

  lemma {:induction false} BundleOfNothing()
    ensures BundleOf([]) == Some(Out([], 0))
  {
  }

  // ---------- Fields of a packet ----------

  ghost function PartsOf(z: Zlib, s: Bytes, depth: nat): Option<Out<Bytes>> {
    var fs := Fields(s);
    if fs.None? then None else
    var out := StripFields(z, fs.value, depth);
    if out.None? then None else Some(Out(CopyFields(out.value.result), out.value.dropped))
  }

  lemma {:induction false} PartsStep(z: Zlib, s: Bytes, depth: nat)
    requires s != []
    ensures ReadField(s).None? ==> PartsOf(z, s, depth) == None
    ensures ReadField(s).Some? ==>
              var out := StripField(z, ReadField(s).value.field, depth);
              PartsOf(z, s, depth) ==
                if out.None? then None
                else Then(CopyField(out.value.result), out.value.dropped, PartsOf(z, ReadField(s).value.rest, depth))
  {
    hide ReadField, CopyField, StripField;
    if ReadField(s).Some? {
      var step := ReadField(s).value;
      var more := Fields(step.rest);
      if more.Some? {
        var all := [step.field] + more.value;
        assert Fields(s) == Some(all) && all[1..] == more.value;
        var out := StripFields(z, all, depth);
        if out.Some? {
          assert out.value.result[1..] == StripFields(z, more.value, depth).value.result;
        }
      }
    }
  }

  lemma {:induction false} PartsOfNothing(z: Zlib, depth: nat)
    ensures PartsOf(z, [], depth) == Some(Out([], 0))
  {
  }

  /** One field, with its nested stream if it holds one. */
  method StripOneField(z: Zlib, f: Field, depth: nat) returns (r: Option<Out<Field>>)
    ensures r == StripField(z, f, depth)
    decreases depth, 0
  {
    if IsBundle(f) {
      var out := StripBundle(f.bytes);
      if out.None? {
        return None;
      }
      return Some(Out(LenField(FTRACE_BUNDLE_FIELD, out.value.result), out.value.dropped));
    } else if IsPacked(f) {
      var inner := z.inflate(f.bytes);
      if inner.None? || depth == 0 {
        return None;
      }
      var out := StripAllocMarkers(z, inner.value.data, depth - 1);
      if out.None? {
        return None;
      }
      if out.value.dropped != 0 {
        return Some(Out(LenField(f.number, z.deflate(out.value.result, inner.value.raw)), out.value.dropped));
      }
    }
    return Some(Out(f, 0));
  }

  method StripOnePacket(z: Zlib, packet: Bytes, depth: nat) returns (r: Option<Out<Bytes>>)
    ensures r == StripPacket(z, packet, depth)
    decreases depth, 1
  {
    hide ReadField, CopyField, Fields, PartsOf, Then, StripField, StripFields;
    var offset, parts: Bytes, dropped: nat := 0, [], 0;
    assert Drop(packet, 0) == packet;
    NothingThen(PartsOf(z, packet, depth));
    PacketIsParts(z, packet, depth);
    while offset < |packet|
      invariant PartsOf(z, packet, depth) == Then(parts, dropped, PartsOf(z, Drop(packet, offset), depth))
      decreases |packet| - offset
    {
      PartsStep(z, packet[offset..], depth);
      NoneThen(parts, dropped);
      var f, next := NextField(packet, offset);
      if f.None? {
        return None;
      }
      var one := StripOneField(z, f.value, depth);
      if one.None? {
        return None;
      }
      ThenThen(parts, dropped, CopyField(one.value.result), one.value.dropped, PartsOf(z, Drop(packet, next), depth));
      parts, dropped := parts + CopyField(one.value.result), dropped + one.value.dropped;
      offset := next;
    }
    assert Drop(packet, offset) == [];
    PartsOfNothing(z, depth);
    ThenNothing(parts, dropped);
    return Some(if dropped == 0 then Out(packet, 0) else Out(parts, dropped));
  }

  lemma {:induction false} PacketIsParts(z: Zlib, packet: Bytes, depth: nat)
    ensures var out := PartsOf(z, packet, depth);
            StripPacket(z, packet, depth) == if out.Some? && out.value.dropped == 0 then Some(Out(packet, 0)) else out
  {
    hide StripFields, CopyFields, Fields;
  }

  // ---------- Entries of a trace ----------

  lemma {:induction false} TraceStep(z: Zlib, s: Bytes, depth: nat)
    requires s != []
    ensures ReadEntry(s).None? ==> StripTrace(z, s, depth) == None
    ensures ReadEntry(s).Some? ==>
              var e := ReadEntry(s).value;
              var out := StripEntry(z, e, depth);
              StripTrace(z, s, depth) ==
                if out.None? then None
                    else Then(out.value.result.root, out.value.dropped, StripTrace(z, s[|e.root|..], depth))
  {
    hide ReadEntry, StripEntry;
    if ReadEntry(s).Some? {
      var e := ReadEntry(s).value;
      var more := Entries(s[|e.root|..]);
      if more.Some? {
        var all := [e] + more.value;
        assert Entries(s) == Some(all) && all[1..] == more.value;
        var out := StripEntries(z, all, depth);
        if out.Some? {
          assert out.value.result[1..] == StripEntries(z, more.value, depth).value.result;
        }
      }
    }
  }

  lemma {:induction false} TraceOfNothing(z: Zlib, depth: nat)
    ensures StripTrace(z, [], depth) == Some(Out([], 0))
  {
  }

  method StripAllocMarkers(z: Zlib, trace: Bytes, depth: nat) returns (r: Option<Out<Bytes>>)
    ensures r == StripTrace(z, trace, depth)
    decreases depth, 2
  {
    hide ReadEntry, StripTrace, Then, StripPacket, CopyField, Contains;
    var offset, out: Bytes, total: nat := 0, [], 0;
    assert Drop(trace, 0) == trace;
    NothingThen(StripTrace(z, trace, depth));
    while offset < |trace|
      invariant StripTrace(z, trace, depth) == Then(out, total, StripTrace(z, Drop(trace, offset), depth))
      decreases |trace| - offset
    {
      TraceStep(z, trace[offset..], depth);
      NoneThen(out, total);
      var e, next := NextEntry(trace, offset);
      if e.None? {
        return None;
      }
      var root, dropped := e.value.root, 0;
      if Contains(e.value.packet, ALLOC_MARKER_TAG) || Contains(e.value.packet, Key(COMPRESSED_PACKETS_FIELD, 2)) {
        var one := StripOnePacket(z, e.value.packet, depth);
        if one.None? {
          return None;
        }
        dropped := one.value.dropped;
        if dropped != 0 {
          root := CopyField(LenField(1, one.value.result));
        }
      }
      ThenThen(out, total, root, dropped, StripTrace(z, Drop(trace, next), depth));
      out, total, offset := out + root, total + dropped, next;
    }
    assert Drop(trace, offset) == [];
    TraceOfNothing(z, depth);
    ThenNothing(out, total);
    return Some(Out(out, total));
  }
}
