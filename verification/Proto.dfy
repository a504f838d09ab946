/** The protobuf field codec of scripts/perfetto_proto.py (the "Base 128 Varints"
    and "Message Structure" sections of the Protocol Buffers encoding guide).
    `None` stands for a raised exception. */
module Proto {
  import opened Wrappers

  type byte = x: int | 0 <= x < 256
  type Bytes = seq<byte>

  /** One field as the reader yields it; the wire type is the constructor. */
  datatype Field =
    | VarintField(number: nat, value: nat)
    | Fixed64Field(number: nat, bytes: Bytes)
    | LenField(number: nat, bytes: Bytes)
    | Fixed32Field(number: nat, bytes: Bytes)

  /** A number read and how many bytes it took. */
  datatype Number = Number(value: nat, size: nat)

  /** A field read and the bytes behind it. */
  datatype Step = Step(field: Field, rest: Bytes)

  function Take(s: Bytes, n: nat): (r: Bytes) {
    if n <= |s| then s[..n] else s
  }

  function Drop(s: Bytes, n: nat): (r: Bytes) {
    if n <= |s| then s[n..] else []
  }

  // ---------- Varints ----------

  function Varint(v: nat): (r: Bytes)
    ensures 1 <= |r|
  {
    if v < 128 then [v] else [v % 128 + 128] + Varint(v / 128)
  }

  function ReadVarint(s: Bytes): (r: Option<Number>)
    ensures r.Some? ==> 1 <= r.value.size <= |s|
  {
    if s == [] then None
    else if s[0] < 128 then Some(Number(s[0], 1))
    else
      var more := ReadVarint(s[1..]);
      if more.None? then None else Some(Number(s[0] - 128 + 128 * more.value.value, more.value.size + 1))
  }

  /** Reading back what was written, whatever follows. */
  lemma {:induction false} VarintRoundTrip(v: nat, rest: Bytes)
    ensures ReadVarint(Varint(v) + rest) == Some(Number(v, |Varint(v)|))
  {
    var s := Varint(v) + rest;
    if v >= 128 {
      VarintRoundTrip(v / 128, rest);
      assert s[1..] == Varint(v / 128) + rest;
    }
  }

  /** A number depends only on its own bytes. */
  lemma {:induction false} VarintIsLocal(s: Bytes, rest: Bytes)
    requires ReadVarint(s).Some?
    ensures ReadVarint(s + rest) == ReadVarint(s)
  {
    if s[0] >= 128 {
      VarintIsLocal(s[1..], rest);
      assert (s + rest)[1..] == s[1..] + rest;
    }
  }

  /** No shorter encoding exists: `Varint` is the minimal one. */
  lemma {:induction false} VarintIsMinimal(s: Bytes)
    requires ReadVarint(s).Some?
    ensures |Varint(ReadVarint(s).value.value)| <= ReadVarint(s).value.size
  {
    if s[0] >= 128 {
      VarintIsMinimal(s[1..]);
      var more := ReadVarint(s[1..]).value;
      assert (s[0] - 128 + 128 * more.value) / 128 == more.value;
    }
  }

  /** Digits of seven bits, the lowest first, with the top bit on all but the last. */
  lemma {:induction false} VarintDigits(v: nat, i: nat)
    requires i < |Varint(v)|
    ensures Varint(v)[i] == v / Pow128(i) % 128 + if i + 1 < |Varint(v)| then 128 else 0
  {
    if i > 0 {
      VarintDigits(v / 128, i - 1);
      DivTwice(v, Pow128(i - 1));
    }
  }

  lemma {:induction false} DivTwice(v: nat, p: nat)
    requires p > 0
    ensures v / 128 / p == v / (128 * p)
  {
    var q := v / 128 / p;
    var low, mid := v % 128, v / 128 % p;
    assert v == 128 * (q * p + mid) + low;
    assert v == q * (128 * p) + (128 * mid + low);
    QuotientIs(v, q, 128 * mid + low, 128 * p);
  }

  lemma {:induction false} QuotientIs(v: nat, q: nat, r: nat, d: nat)
    requires d > 0 && r < d && v == q * d + r
    ensures v / d == q
  {
    var k := v / d - q;
    assert k * d == r - v % d;
    assert k >= 1 ==> k * d >= d;
    assert k <= -1 ==> k * d + d <= 0;
  }

  /** The examples of the encoding guide: the number 150, and the keys of the first
      fields of each wire type. */
  lemma {:induction false} GuideExamples(bytes: Bytes)
    ensures Varint(150) == [0x96, 0x01]
    ensures CopyField(VarintField(1, 150)) == [0x08, 0x96, 0x01]
    ensures CopyField(LenField(2, bytes)) == [0x12] + (Varint(|bytes|) + bytes)
    ensures CopyField(Fixed64Field(1, bytes)) == [0x09] + bytes
    ensures CopyField(Fixed32Field(1, bytes)) == [0x0d] + bytes
  {
    assert Varint(150) == [0x96, 0x01] by {
      OneByte(1);
    }
    OneByte(0x08);
    OneByte(0x12);
    OneByte(0x09);
    OneByte(0x0d);
    hide Varint;
  }

  lemma {:induction false} OneByte(v: nat)
    requires v < 128
    ensures Varint(v) == [v]
  {
  }

  method EncodeVarint(value: int) returns (r: Option<Bytes>)
    ensures r == if value < 0 then None else Some(Varint(value))
  {
    if value < 0 {
      return None;
    }
    var out: Bytes, left := [], value;
    while left > 127
      invariant 0 <= left && out + Varint(left) == Varint(value)
    {
      out, left := out + [left % 128 + 128], left / 128;
    }
    return Some(out + [left]);
  }

  function Pow128(n: nat): (r: nat)
    ensures r > 0
  {
    if n == 0 then 1 else 128 * Pow128(n - 1)
  }

  /** A digit behind `n` earlier ones. */
  function Shifted(digit: nat, n: nat): (r: nat) {
    digit * Pow128(n)
  }

  /** The number whose low part has been read and whose high part is still to come. */
  ghost function Combined(low: nat, n: nat, high: Option<Number>): Option<Number> {
    if high.None? then None else Some(Number(low + Shifted(high.value.value, n), n + high.value.size))
  }

  lemma {:induction false} CombineOne(low: nat, n: nat, s: Bytes)
    requires s != [] && s[0] >= 128
    ensures Combined(low, n, ReadVarint(s)) == Combined(low + Shifted(s[0] - 128, n), n + 1, ReadVarint(s[1..]))
  {
    var high := ReadVarint(s[1..]);
    if high.Some? {
      ShiftOne(s[0] - 128, high.value.value, n);
    }
  }

  lemma {:induction false} ShiftOne(digit: nat, high: nat, n: nat)
    ensures Shifted(digit + 128 * high, n) == Shifted(digit, n) + Shifted(high, n + 1)
  {
  }

  lemma {:induction false} CombineNone(v: Option<Number>)
    ensures Combined(0, 0, v) == v
  {
  }

  lemma {:induction false} CombineLast(low: nat, n: nat, s: Bytes)
    requires s == [] || s[0] < 128
    ensures Combined(low, n, ReadVarint(s)) == if s == [] then None else Some(Number(low + Shifted(s[0], n), n + 1))
  {
    hide Shifted;
  }

  method ReadVarintAt(buf: Bytes, offset0: nat) returns (r: Option<Number>)
    ensures r == ReadVarint(Drop(buf, offset0))
  {
    hide ReadVarint, Combined, Shifted;
    var offset: nat, value: nat, digits: nat := offset0, 0, 0;
    CombineNone(ReadVarint(Drop(buf, offset0)));
    while offset < |buf|
      invariant digits == offset - offset0
      invariant ReadVarint(Drop(buf, offset0)) == Combined(value, digits, ReadVarint(Drop(buf, offset)))
    {
      var b := buf[offset];
      ghost var s := Drop(buf, offset);
      assert s != [] && s[0] == b && s[1..] == Drop(buf, offset + 1);
      if b < 128 {
        CombineLast(value, digits, s);
        return Some(Number(value + Shifted(b, digits), digits + 1));
      }
      CombineOne(value, digits, s);
      offset, value, digits := offset + 1, value + Shifted(b - 128, digits), digits + 1;
    }
    CombineLast(value, digits, Drop(buf, offset));
    return None;
  }

  // ---------- Fields ----------

  function Key(number: nat, wire: nat): (r: Bytes) {
    Varint(8 * number + wire)
  }

  /** The value behind a key. One cut short by the end of the input is yielded as
      far as it goes. */
  function ReadBody(number: nat, wire: nat, body: Bytes): (r: Option<Step>)
    ensures r.Some? ==> |r.value.rest| <= |body|
  {
    if wire == 0 then
      var v := ReadVarint(body);
      if v.None? then None else Some(Step(VarintField(number, v.value.value), body[v.value.size..]))
    else if wire == 1 then Some(Step(Fixed64Field(number, Take(body, 8)), Drop(body, 8)))
    else if wire == 2 then
      var n := ReadVarint(body);
      if n.None? then None else
      var tail := body[n.value.size..];
      Some(Step(LenField(number, Take(tail, n.value.value)), Drop(tail, n.value.value)))
    else if wire == 5 then Some(Step(Fixed32Field(number, Take(body, 4)), Drop(body, 4)))
    else None
  }

  /** One field from the front. */
  function ReadField(s: Bytes): (r: Option<Step>)
    ensures r.Some? ==> |r.value.rest| < |s|
  {
    var key := ReadVarint(s);
    if key.None? then None else ReadBody(key.value.value / 8, key.value.value % 8, s[key.value.size..])
  }

  function Fields(s: Bytes): (r: Option<seq<Field>>)
    decreases |s|
  {
    if s == [] then Some([]) else
    var step := ReadField(s);
    if step.None? then None else
    var more := Fields(step.value.rest);
    if more.None? then None else Some([step.value.field] + more.value)
  }

  function Wire(f: Field): (r: nat)
    ensures r < 8
  {
    match f
    case VarintField(_, _) => 0
    case Fixed64Field(_, _) => 1
    case LenField(_, _) => 2
    case Fixed32Field(_, _) => 5
  }

  function Body(f: Field): (r: Bytes) {
    match f
    case VarintField(_, value) => Varint(value)
    case Fixed64Field(_, bytes) => bytes
    case LenField(_, bytes) => Varint(|bytes|) + bytes
    case Fixed32Field(_, bytes) => bytes
  }

  /** Re-encodes one field. */
  function CopyField(f: Field): (r: Bytes)
    ensures 1 <= |r|
  {
    Key(f.number, Wire(f)) + Body(f)
  }

  function CopyFields(fs: seq<Field>): (r: Bytes) {
    if fs == [] then [] else CopyField(fs[0]) + CopyFields(fs[1..])
  }

  /** A fixed-width value has its width, unless it was cut short at the very end. */
  predicate Sized(f: Field, last: bool) {
    match f
    case Fixed64Field(_, bytes) => |bytes| == 8 || (last && |bytes| < 8)
    case Fixed32Field(_, bytes) => |bytes| == 4 || (last && |bytes| < 4)
    case VarintField(_, _) => true
    case LenField(_, _) => true
  }

  predicate AllSized(fs: seq<Field>) {
    forall i :: 0 <= i < |fs| ==> Sized(fs[i], i == |fs| - 1)
  }

  lemma {:induction false} KeyParts(number: nat, wire: nat)
    requires wire < 8
    ensures (8 * number + wire) / 8 == number && (8 * number + wire) % 8 == wire
  {
  }

  lemma {:induction false} BodyThenRead(f: Field, rest: Bytes)
    requires Sized(f, rest == [])
    ensures ReadBody(f.number, Wire(f), Body(f) + rest) == Some(Step(f, rest))
  {
    hide Varint, ReadVarint;
    var body := Body(f) + rest;
    match f
    case VarintField(_, value) =>
      VarintRoundTrip(value, rest);
      assert body[|Varint(value)|..] == rest;
    case LenField(_, bytes) =>
      VarintRoundTrip(|bytes|, bytes + rest);
      assert body == Varint(|bytes|) + (bytes + rest);
      assert body[|Varint(|bytes|)|..] == bytes + rest;
      TakeAll(bytes, rest);
    case Fixed64Field(_, bytes) =>
      TakeAll(bytes, rest);
    case Fixed32Field(_, bytes) =>
      TakeAll(bytes, rest);
  }

  lemma {:induction false} TakeAll(s: Bytes, rest: Bytes)
    ensures Take(s + rest, |s|) == s && Drop(s + rest, |s|) == rest
    ensures rest == [] ==> forall n :: |s| <= n ==> Take(s + rest, n) == s && Drop(s + rest, n) == []
  {
  }

  lemma {:induction false} CopyThenRead(f: Field, rest: Bytes)
    requires Sized(f, rest == [])
    ensures ReadField(CopyField(f) + rest) == Some(Step(f, rest))
  {
    hide Varint, ReadVarint, ReadBody, Body, Wire, Sized;
    var key, body := Key(f.number, Wire(f)), Body(f) + rest;
    KeyParts(f.number, Wire(f));
    VarintRoundTrip(8 * f.number + Wire(f), body);
    assert CopyField(f) + rest == key + body;
    assert (key + body)[|key|..] == body;
    BodyThenRead(f, rest);
  }

  lemma {:induction false} CopyIsEmpty(fs: seq<Field>)
    ensures CopyFields(fs) == [] <==> fs == []
  {
    if fs != [] {
      assert |CopyField(fs[0])| > 0;
    }
  }

  /** A key of another wire type than the four cannot be read past. */
  lemma {:induction false} OtherWiresFail(number: nat, wire: nat, rest: Bytes)
    requires wire in {3, 4, 6, 7}
    ensures ReadField(Key(number, wire) + rest) == None
  {
    hide Varint, ReadVarint;
    KeyParts(number, wire);
    VarintRoundTrip(8 * number + wire, rest);
  }

  /** Writing fields and reading them back gives the fields. */
  lemma {:induction false} FieldsRoundTrip(fs: seq<Field>)
    requires AllSized(fs)
    ensures Fields(CopyFields(fs)) == Some(fs)
  {
    hide Sized, CopyField, ReadField;
    if fs != [] {
      var rest := CopyFields(fs[1..]);
      CopyIsEmpty(fs[1..]);
      assert AllSized(fs[1..]);
      FieldsRoundTrip(fs[1..]);
      CopyThenRead(fs[0], rest);
      CopyIsEmpty(fs);
      assert [fs[0]] + fs[1..] == fs;
    }
  }

  lemma {:induction false} ReadIsSized(s: Bytes)
    requires ReadField(s).Some?
    ensures Sized(ReadField(s).value.field, ReadField(s).value.rest == [])
  {
  }

  lemma {:induction false} FieldsAreSized(s: Bytes)
    requires Fields(s).Some?
    ensures AllSized(Fields(s).value)
    decreases |s|
  {
    if s != [] {
      var step := ReadField(s).value;
      ReadIsSized(s);
      FieldsAreSized(step.rest);
      if step.rest != [] {
        assert Fields(step.rest).value != [];
      }
    }
  }

  /** Re-encoding what was read keeps its meaning: for every input that decodes,
      minimal or not, cut short at the end or not. */
  lemma {:induction false} CopyKeepsMeaning(s: Bytes)
    requires Fields(s).Some?
    ensures Fields(CopyFields(Fields(s).value)) == Fields(s)
  {
    FieldsAreSized(s);
    FieldsRoundTrip(Fields(s).value);
  }

  method NextBody(buf: Bytes, at: nat, number: nat, wire: nat) returns (r: Option<Field>, next: nat)
    requires at <= |buf|
    ensures r.None? <==> ReadBody(number, wire, buf[at..]).None?
    ensures r.Some? ==> r.value == ReadBody(number, wire, buf[at..]).value.field && at <= next
    ensures r.Some? ==> Drop(buf, next) == ReadBody(number, wire, buf[at..]).value.rest
  {
    hide ReadVarint;
    r, next := None, at;
    if wire == 0 {
      var v := ReadVarintAt(buf, at);
      if v.Some? {
        r, next := Some(VarintField(number, v.value.value)), at + v.value.size;
      }
    } else if wire == 1 {
      r, next := Some(Fixed64Field(number, Take(buf[at..], 8))), at + 8;
    } else if wire == 2 {
      var n := ReadVarintAt(buf, at);
      if n.Some? {
        var from := at + n.value.size;
        assert buf[at..][n.value.size..] == buf[from..];
        r, next := Some(LenField(number, Take(buf[from..], n.value.value))), from + n.value.value;
      }
    } else if wire == 5 {
      r, next := Some(Fixed32Field(number, Take(buf[at..], 4))), at + 4;
    }
  }

  /** One turn of the field iterator, from an offset. */
  method NextField(buf: Bytes, offset: nat) returns (r: Option<Field>, next: nat)
    requires offset < |buf|
    ensures r.None? <==> ReadField(buf[offset..]).None?
    ensures r.Some? ==> r.value == ReadField(buf[offset..]).value.field && offset < next
    ensures r.Some? ==> Drop(buf, next) == ReadField(buf[offset..]).value.rest
  {
    hide ReadVarint, ReadBody;
    r, next := None, offset;
    var key := ReadVarintAt(buf, offset);
    if key.Some? {
      var at := offset + key.value.size;
      assert buf[offset..][key.value.size..] == buf[at..];
      r, next := NextBody(buf, at, key.value.value / 8, key.value.value % 8);
    }
  }

  /** Prepends what was already yielded. */
  ghost function After<T>(done: seq<T>, more: Option<seq<T>>): Option<seq<T>> {
    if more.None? then None else Some(done + more.value)
  }

  lemma {:induction false} AfterAfter<T>(a: seq<T>, b: seq<T>, more: Option<seq<T>>)
    ensures After(a, After(b, more)) == After(a + b, more) && After([], more) == more
  {
    if more.Some? {
      assert a + (b + more.value) == a + b + more.value;
      assert [] + more.value == more.value;
    }
  }

  lemma {:induction false} AfterIs<T>(a: seq<T>, b: seq<T>)
    ensures After(a, None) == None && After(a, Some(b)) == Some(a + b)
  {
  }

  lemma {:induction false} AfterOne(done: seq<Field>, s: Bytes)
    requires s != [] && ReadField(s).Some?
    ensures After(done, Fields(s)) == After(done + [ReadField(s).value.field], Fields(ReadField(s).value.rest))
  {
    var step := ReadField(s).value;
    var more := Fields(step.rest);
    if more.Some? {
      assert done + ([step.field] + more.value) == done + [step.field] + more.value;
    }
  }

  method IterFields(buf: Bytes) returns (r: Option<seq<Field>>)
    ensures r == Fields(buf)
  {
    hide ReadField;
    var offset, out: seq<Field> := 0, [];
    assert Drop(buf, 0) == buf;
    if Fields(buf).Some? {
      assert out + Fields(buf).value == Fields(buf).value;
    }
    while offset < |buf|
      invariant Fields(buf) == After(out, Fields(Drop(buf, offset)))
      decreases |buf| - offset
    {
      var f, next := NextField(buf, offset);
      if f.None? {
        return None;
      }
      AfterOne(out, Drop(buf, offset));
      offset, out := next, out + [f.value];
    }
    assert Drop(buf, offset) == [] && out + [] == out;
    return Some(out);
  }

  // ---------- Trace entries ----------

  /** One root entry: all its bytes, and its packet. */
  datatype Entry = Entry(root: Bytes, packet: Bytes)

  const PACKET_KEY := 10

  function ReadEntry(s: Bytes): (r: Option<Entry>)
    ensures r.Some? ==> 1 <= |r.value.root| <= |s| && r.value.root == s[..|r.value.root|]
  {
    var key := ReadVarint(s);
    if key.None? || key.value.value != PACKET_KEY then None else
    var body := s[key.value.size..];
    var n := ReadVarint(body);
    if n.None? then None else
    var tail := body[n.value.size..];
    var packet := Take(tail, n.value.value);
    Some(Entry(s[..key.value.size + n.value.size + |packet|], packet))
  }

  function Entries(s: Bytes): (r: Option<seq<Entry>>)
    decreases |s|
  {
    if s == [] then Some([]) else
    var e := ReadEntry(s);
    if e.None? then None else
    var more := Entries(s[|e.value.root|..]);
    if more.None? then None else Some([e.value] + more.value)
  }

  /** One turn of the entry iterator, from an offset. */
  method NextEntry(buf: Bytes, offset: nat) returns (r: Option<Entry>, next: nat)
    requires offset < |buf|
    ensures r == ReadEntry(buf[offset..])
    ensures r.Some? ==> offset < next && Drop(buf, next) == buf[offset..][|r.value.root|..]
  {
    hide ReadVarint;
    r, next := None, offset;
    var key := ReadVarintAt(buf, offset);
    if key.None? || key.value.value != PACKET_KEY {
      return;
    }
    var at := offset + key.value.size;
    assert buf[offset..][key.value.size..] == buf[at..];
    var n := ReadVarintAt(buf, at);
    if n.None? {
      return;
    }
    var start := at + n.value.size;
    assert buf[at..][n.value.size..] == buf[start..];
    next := start + n.value.value;
    var end := if next <= |buf| then next else |buf|;
    r := Some(Entry(buf[offset..end], buf[start..end]));
    assert buf[start..end] == Take(buf[start..], n.value.value);
    assert buf[offset..end] == buf[offset..][..end - offset];
  }

  function Roots(es: seq<Entry>): (r: Bytes) {
    if es == [] then [] else es[0].root + Roots(es[1..])
  }

  /** The entry that wraps `packet`. */
  function Wrap(packet: Bytes): (r: Entry) {
    Entry(CopyField(LenField(1, packet)), packet)
  }

  /** Whether the entry reads back as itself whatever follows it. */
  ghost predicate Complete(e: Entry) {
    forall rest: Bytes :: ReadEntry(e.root + rest) == Some(e)
  }

  /** Whether it does so at the end of the input. */
  ghost predicate Readable(e: Entry) {
    ReadEntry(e.root) == Some(e)
  }

  /** The declared length reaches past the end. */
  predicate CutShort(s: Bytes) {
    var key := ReadVarint(s);
    key.Some? && key.value.value == PACKET_KEY &&
    var n := ReadVarint(s[key.value.size..]);
    n.Some? && |s| < key.value.size + n.value.size + n.value.value
  }

  /** The root of a trace holds packets, field 1 with a length, and nothing else. */
  lemma {:induction false} OtherRootsFail(key: nat, rest: Bytes)
    requires key != 10
    ensures ReadEntry(Varint(key) + rest) == None && Entries(Varint(key) + rest) == None
  {
    hide Varint, ReadVarint;
    VarintRoundTrip(key, rest);
  }

  lemma {:induction false} WrapIsComplete(packet: Bytes)
    ensures Complete(Wrap(packet))
  {
    var e := Wrap(packet);
    forall rest: Bytes ensures ReadEntry(e.root + rest) == Some(e) {
      var s := e.root + rest;
      var body := Varint(|packet|) + (packet + rest);
      assert s == Key(1, 2) + body;
      VarintRoundTrip(10, body);
      assert s[|Key(1, 2)|..] == body;
      VarintRoundTrip(|packet|, packet + rest);
      assert body[|Varint(|packet|)|..] == packet + rest;
      assert s[..|e.root|] == e.root;
    }
  }

  lemma {:induction false} CompleteIsReadable(e: Entry)
    requires Complete(e)
    ensures Readable(e)
  {
    assert e.root + [] == e.root;
    assert ReadEntry(e.root + []) == Some(e);
  }

  /** An entry depends only on its own bytes; one that is not cut short does not
      mind what follows, and one that is swallows it. */
  lemma {:induction false} EntryIsLocal(s: Bytes)
    requires ReadEntry(s).Some?
    ensures Readable(ReadEntry(s).value)
    ensures CutShort(ReadEntry(s).value.root) == CutShort(s)
    ensures !CutShort(s) ==> Complete(ReadEntry(s).value)
    ensures CutShort(s) ==> ReadEntry(s).value.root == s
  {
    var e := ReadEntry(s).value;
    var key := ReadVarint(s).value;
    var n := ReadVarint(s[key.size..]).value;
    forall rest: Bytes | rest == [] || !CutShort(s) ensures ReadEntry(e.root + rest) == Some(e) {
      EntryWithRest(s, rest);
    }
    assert e.root + [] == e.root;
    HeadOf(s, [], key, n);
  }

  /** The two numbers of an entry read the same from the entry alone. */
  lemma {:induction false} HeadOf(s: Bytes, rest: Bytes, key: Number, n: Number)
    requires ReadEntry(s).Some? && ReadVarint(s) == Some(key) && ReadVarint(s[key.size..]) == Some(n)
    ensures var t := ReadEntry(s).value.root + rest;
            ReadVarint(t) == Some(key) && ReadVarint(t[key.size..]) == Some(n)
  {
    hide ReadVarint;
    var e := ReadEntry(s).value;
    var t := e.root + rest;
    VarintOf(s, key);
    VarintOf(s[key.size..], n);
    VarintIsLocal(s[..key.size], t[key.size..]);
    assert t == s[..key.size] + t[key.size..];
    var m := s[key.size..][..n.size];
    VarintIsLocal(m, t[key.size + n.size..]);
    assert t[key.size..] == m + t[key.size + n.size..];
  }

  lemma {:induction false} VarintOf(s: Bytes, v: Number)
    requires ReadVarint(s) == Some(v)
    ensures ReadVarint(s[..v.size]) == Some(v)
  {
    if s[0] >= 128 {
      VarintOf(s[1..], ReadVarint(s[1..]).value);
      assert s[..v.size][1..] == s[1..][..v.size - 1];
    }
  }

  lemma {:induction false} SliceAppend(a: Bytes, b: Bytes, k: nat)
    requires k <= |a|
    ensures (a + b)[k..] == a[k..] + b && (a + b)[..|a|] == a
  {
  }

  lemma {:induction false} SliceSlice(s: Bytes, i: nat, j: nat)
    requires i + j <= |s|
    ensures s[i..][j..] == s[i + j..]
  {
  }

  /** An entry is its two numbers and its packet. */
  lemma {:induction false} EntryParts(s: Bytes, key: Number, n: Number)
    requires ReadEntry(s).Some? && ReadVarint(s) == Some(key) && ReadVarint(s[key.size..]) == Some(n)
    ensures var e, at := ReadEntry(s).value, key.size + n.size;
            && |e.root| == at + |e.packet| && e.root[at..] == e.packet && key.value == PACKET_KEY
            && e.packet == Take(s[key.size..][n.size..], n.value)
            && (!CutShort(s) ==> |e.packet| == n.value) && |e.packet| <= n.value
  {
    hide ReadVarint;
    SliceSlice(s, key.size, n.size);
  }

  lemma {:induction false} EntryWithRest(s: Bytes, rest: Bytes)
    requires ReadEntry(s).Some? && (rest == [] || !CutShort(s))
    ensures ReadEntry(ReadEntry(s).value.root + rest) == ReadEntry(s)
  {
    hide ReadVarint, CutShort;
    var e := ReadEntry(s).value;
    var t := e.root + rest;
    var key := ReadVarint(s).value;
    var n := ReadVarint(s[key.size..]).value;
    HeadOf(s, rest, key, n);
    EntryParts(s, key, n);
    var at := key.size + n.size;
    SliceSlice(t, key.size, n.size);
    SliceAppend(e.root, rest, at);
    assert Take(e.packet + rest, n.value) == e.packet by {
      TakeAll(e.packet, rest);
    }
  }

  /** The roots of the entries are the input, byte for byte. */
  lemma {:induction false} RootsAreTheInput(s: Bytes)
    requires Entries(s).Some?
    ensures Roots(Entries(s).value) == s
    decreases |s|
  {
    hide ReadEntry;
    if s != [] {
      var e, rest := ReadEntry(s).value, s[|ReadEntry(s).value.root|..];
      var more := Entries(rest).value;
      RootsAreTheInput(rest);
      assert ([e] + more)[1..] == more;
      assert Entries(s).value == [e] + more;
      assert s == e.root + rest;
    }
  }

  /** Only the last entry of a list may be cut short. */
  ghost predicate Chained(es: seq<Entry>) {
    forall i :: 0 <= i < |es| ==> |es[i].root| > 0 && (if i < |es| - 1 then Complete(es[i]) else Readable(es[i]))
  }

  lemma {:induction false} EntriesAreChained(s: Bytes)
    requires Entries(s).Some?
    ensures Chained(Entries(s).value)
    decreases |s|
  {
    if s != [] {
      var e := ReadEntry(s).value;
      EntryIsLocal(s);
      EntriesAreChained(s[|e.root|..]);
      if s[|e.root|..] == [] {
        assert Entries(s).value == [e];
      }
    }
  }

  /** Joining chained entries and reading the result gives the entries. */
  lemma {:induction false} EntriesRoundTrip(es: seq<Entry>)
    requires Chained(es)
    ensures Entries(Roots(es)) == Some(es)
  {
    hide ReadEntry;
    if es != [] {
      var s, rest := Roots(es), Roots(es[1..]);
      EntriesRoundTrip(es[1..]);
      if |es| == 1 {
        assert s == es[0].root;
      } else {
        assert Complete(es[0]);
      }
      assert ReadEntry(s) == Some(es[0]);
      assert s[|es[0].root|..] == rest;
      assert es == [es[0]] + es[1..];
    }
  }
}
