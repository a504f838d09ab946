/** Frame description entries and the search table built from them
    (unwindstack/DwarfSection.cpp). The table keeps only the end address and the
    offset of every piece of an interval map; lookups are proved to agree with a
    linear scan of the section. */
module FdeIndex {
  import opened Wrappers
  import opened OrderedMap

  datatype Fde = Fde(pcStart: nat, pcEnd: nat, cieOffset: nat)

  predicate Covers(f: Fde, pc: nat) {
    f.pcStart <= pc < f.pcEnd
  }

  /** An FDE together with the section offset it is read from. */
  datatype Located = Located(offset: nat, fde: Fde)

  // ---------- Reference: a linear scan in section order ----------

  function FirstCovering(fdes: seq<Located>, pc: nat): Option<Located> {
    if fdes == [] then None
    else if Covers(fdes[0].fde, pc) then Some(fdes[0])
    else FirstCovering(fdes[1..], pc)
  }

  /** The scan returns an FDE that covers `pc` and that no earlier one does, and
      nothing exactly when no FDE covers `pc`. */
  lemma {:induction false} FirstCoveringIsFirst(fdes: seq<Located>, pc: nat)
    ensures FirstCovering(fdes, pc).None? <==> forall i :: 0 <= i < |fdes| ==> !Covers(fdes[i].fde, pc)
    ensures FirstCovering(fdes, pc).Some? ==>
              exists i :: 0 <= i < |fdes| && FirstCovering(fdes, pc).value == fdes[i]
                          && Covers(fdes[i].fde, pc)
                          && forall j :: 0 <= j < i ==> !Covers(fdes[j].fde, pc)
  {
    if fdes != [] && !Covers(fdes[0].fde, pc) {
      FirstCoveringIsFirst(fdes[1..], pc);
      assert forall i :: 1 <= i < |fdes| ==> fdes[i] == fdes[1..][i - 1];
      if FirstCovering(fdes[1..], pc).Some? {
        var i :| 0 <= i < |fdes[1..]| && FirstCovering(fdes[1..], pc).value == fdes[1..][i]
                 && Covers(fdes[1..][i].fde, pc)
                 && forall j :: 0 <= j < i ==> !Covers(fdes[1..][j].fde, pc);
        assert fdes[i + 1] == fdes[1..][i];
        assert forall j :: 0 <= j < i + 1 ==> !Covers(fdes[j].fde, pc);
      }
    }
  }

  lemma {:induction false} FirstCoveringAppend(fdes: seq<Located>, f: Located, pc: nat)
    ensures FirstCovering(fdes + [f], pc) ==
            if FirstCovering(fdes, pc).Some? then FirstCovering(fdes, pc)
            else if Covers(f.fde, pc) then Some(f) else None
  {
    if fdes == [] {
      assert fdes + [f] == [f];
    } else {
      assert (fdes + [f])[1..] == fdes[1..] + [f];
      FirstCoveringAppend(fdes[1..], f, pc);
    }
  }

  // ---------- The interval map ----------

  datatype Piece = Piece(start: nat, offset: nat)

  /** Pieces keyed by their end address. */
  type FdeMap = map<nat, Piece>

  ghost predicate Disjoint(m: FdeMap) {
    && (forall k :: k in m ==> m[k].start < k)
    && (forall k, k' :: k in m && k' in m && k < k' ==> k <= m[k'].start)
  }

  function Owner(m: FdeMap, pc: nat): Option<nat> {
    match UpperBound(m, pc)
    case None => None
    case Some(k) => if m[k].start <= pc then Some(m[k].offset) else None
  }

  lemma {:induction false} OwnerOfPiece(m: FdeMap, k: nat, pc: nat)
    requires Disjoint(m) && k in m && m[k].start <= pc < k
    ensures Owner(m, pc) == Some(m[k].offset)
  {
    var u := UpperBound(m, pc).value;
    assert !(u < k);
  }

  /** Who owns `pc` after `f` is inserted behind what is already there. */
  function Behind(old_: Option<nat>, f: Located, pc: nat): Option<nat> {
    if old_.Some? then old_
    else if Covers(f.fde, pc) then Some(f.offset)
    else None
  }

  ghost predicate OwnsBehind(m: FdeMap, old_: FdeMap, f: Located) {
    forall pc :: Owner(m, pc) == Behind(Owner(old_, pc), f, pc)
  }

  ghost predicate Covered(m: FdeMap, pc: nat) {
    exists k :: k in m && m[k].start <= pc < k
  }

  ghost predicate GrownFrom(old_: FdeMap, m: FdeMap, f: Located, done: nat) {
    && (forall k :: k in old_ ==> k in m && m[k] == old_[k])
    && (forall k :: k in m && k !in old_ ==>
          m[k].offset == f.offset && f.fde.pcStart <= m[k].start && k <= done && k <= f.fde.pcEnd)
    && (forall pc: nat :: f.fde.pcStart <= pc < done && pc < f.fde.pcEnd ==> Covered(m, pc))
  }

  lemma {:induction false} GrownOwner(old_: FdeMap, m: FdeMap, f: Located, pc: nat)
    requires Disjoint(old_) && Disjoint(m) && GrownFrom(old_, m, f, f.fde.pcEnd)
    ensures Owner(m, pc) == Behind(Owner(old_, pc), f, pc)
  {
    if Owner(old_, pc).Some? {
      OwnerOfPiece(m, UpperBound(old_, pc).value, pc);
    } else if Covers(f.fde, pc) {
      assert Covered(m, pc);
      var k :| k in m && m[k].start <= pc < k;
      if k in old_ {
        OwnerOfPiece(old_, k, pc);
        assert false;
      }
      OwnerOfPiece(m, k, pc);
    } else if Owner(m, pc).Some? {
      var k := UpperBound(m, pc).value;
      if k in old_ {
        OwnerOfPiece(old_, k, pc);
      }
      assert false;
    }
  }

  /** One turn of the insertion loop, when there is a gap before the piece
      ending at `k`: fill it, then continue behind that piece. */
  lemma {:induction false} FillGap(old_: FdeMap, m: FdeMap, f: Located, from: nat, k: nat)
    requires Disjoint(m) && GrownFrom(old_, m, f, from)
    requires UpperBound(m, from) == Some(k)
    requires f.fde.pcStart <= from < m[k].start < f.fde.pcEnd
    ensures Disjoint(m[m[k].start := Piece(from, f.offset)])
    ensures GrownFrom(old_, m[m[k].start := Piece(from, f.offset)], f, m[k].start)
  {
    var gap := m[k].start;
    var m' := m[gap := Piece(from, f.offset)];
    assert gap !in m;
    assert forall j :: j in m && j != k ==> j <= from || k <= m[j].start;
    forall pc | f.fde.pcStart <= pc < gap && pc < f.fde.pcEnd
      ensures Covered(m', pc)
    {
      if pc < from {
        assert Covered(m, pc);
        var j :| j in m && m[j].start <= pc < j;
        assert j in m' && m'[j].start <= pc < j;
      } else {
        assert gap in m' && m'[gap].start <= pc < gap;
      }
    }
  }

  /** Moving behind a piece that starts where the done part ends. */
  lemma {:induction false} SkipPiece(old_: FdeMap, m: FdeMap, f: Located, from: nat, k: nat)
    requires GrownFrom(old_, m, f, from)
    requires k in m && m[k].start <= from < k
    ensures GrownFrom(old_, m, f, k)
  {
    forall pc: nat | f.fde.pcStart <= pc < k && pc < f.fde.pcEnd
      ensures Covered(m, pc)
    {
      if from <= pc {
        assert k in m && m[k].start <= pc < k;
      }
    }
  }

  /** The last piece, after every piece that starts before the FDE ends. */
  lemma {:induction false} TailStep(old_: FdeMap, m: FdeMap, f: Located, from: nat)
    requires Disjoint(m) && GrownFrom(old_, m, f, from)
    requires f.fde.pcStart <= from < f.fde.pcEnd
    requires forall k :: k in m && from < k ==> f.fde.pcEnd <= m[k].start
    ensures var m' := m[f.fde.pcEnd := Piece(from, f.offset)];
            Disjoint(m') && GrownFrom(old_, m', f, f.fde.pcEnd)
  {
    var end := f.fde.pcEnd;
    var m' := m[end := Piece(from, f.offset)];
    assert end !in m;
    forall pc | f.fde.pcStart <= pc < end
      ensures Covered(m', pc)
    {
      if pc < from {
        assert Covered(m, pc);
        var j :| j in m && m[j].start <= pc < j;
        assert j in m' && m'[j].start <= pc < j;
      } else {
        assert end in m' && m'[end].start <= pc < end;
      }
    }
  }

  /** Adds the parts of `f` that no earlier FDE covers. */
  method InsertFde(f: Located, old_: FdeMap) returns (fdes: FdeMap)
    requires Disjoint(old_)
    ensures Disjoint(fdes)
    ensures OwnsBehind(fdes, old_, f)
  {
    fdes := old_;
    var start, end := f.fde.pcStart, f.fde.pcEnd;
    var it := UpperBound(fdes, start);
    while it.Some? && start < end && fdes[it.value].start < end
      invariant f.fde.pcStart <= start
      invariant Disjoint(fdes) && GrownFrom(old_, fdes, f, start)
      invariant it == UpperBound(fdes, start)
      invariant it.Some? ==> it.value in old_
      decreases end - start
    {
      ghost var from := start;
      var pieceStart := fdes[it.value].start;
      if start < pieceStart {
        FillGap(old_, fdes, f, start, it.value);
        fdes := fdes[pieceStart := Piece(start, f.offset)];
      }
      start := it.value;
      SkipPiece(old_, fdes, f, if from < pieceStart then pieceStart else from, start);
      it := UpperBound(fdes, start);
    }
    if start < end {
      forall k | k in fdes && start < k ensures end <= fdes[k].start {
        assert it.value == k || it.value <= fdes[k].start;
      }
      TailStep(old_, fdes, f, start);
      fdes := fdes[end := Piece(start, f.offset)];
    }
    forall pc {
      GrownOwner(old_, fdes, f, pc);
    }
  }

  // ---------- The flattened table ----------

  /** One step of the section walk: what was read at `offset`, and whether the
      entry's contents ran past its own end, which stops the walk after it. */
  datatype Entry = Cie(offset: nat, overrun: bool) | FdeAt(located: Located, overrun: bool) | Malformed

  /** The FDEs the walk sees: everything before the first malformed entry, up to
      and including an overrunning one. */
  function WalkedFdes(entries: seq<Entry>): seq<Located> {
    if entries == [] || entries[0].Malformed? then []
    else
      (if entries[0].FdeAt? then [entries[0].located] else [])
      + (if entries[0].overrun then [] else WalkedFdes(entries[1..]))
  }

  /** The walk ends in front of entry `n`: it is malformed, the one before ran past
      its own end, or there is none; nothing of the kind came earlier. */
  predicate StopsAt(entries: seq<Entry>, n: nat) {
    && n <= |entries|
    && (forall i :: 0 <= i < n ==> !entries[i].Malformed? && (i + 1 < n ==> !entries[i].overrun))
    && (n < |entries| ==>
          entries[n].Malformed? || (n > 0 && !entries[n - 1].Malformed? && entries[n - 1].overrun))
  }

  function FdesOf(entries: seq<Entry>): seq<Located> {
    if entries == [] then []
    else (if entries[0].FdeAt? then [entries[0].located] else []) + FdesOf(entries[1..])
  }

  /** What the walk sees are the FDEs in front of its end. */
  lemma {:induction false} WalkedAreFdes(entries: seq<Entry>, n: nat)
    requires StopsAt(entries, n)
    ensures WalkedFdes(entries) == FdesOf(entries[..n])
  {
    if n > 0 {
      assert entries[..n][1..] == entries[1..][..n - 1];
      if entries[0].overrun {
        assert n == 1;
        assert FdesOf(entries[..n][1..]) == [];
      } else {
        WalkedAreFdes(entries[1..], n - 1);
      }
    }
  }

  /** A row of the table: where a piece ends and which FDE it belongs to. */
  datatype Row = Row(end: nat, offset: nat)

  ghost predicate Flattens(index: seq<Row>, m: FdeMap) {
    && (forall i, j :: 0 <= i < j < |index| ==> index[i].end < index[j].end)
    && (forall i :: 0 <= i < |index| ==> index[i].end in m && m[index[i].end].offset == index[i].offset)
    && (forall k :: k in m ==> exists i :: 0 <= i < |index| && index[i].end == k)
  }

  /** `std::upper_bound` on the table: the first row that ends above `pc`. */
  function FirstEndingAbove(index: seq<Row>, pc: nat): (i: nat)
    ensures i <= |index|
    ensures forall j :: 0 <= j < i ==> index[j].end <= pc
    ensures i < |index| ==> pc < index[i].end
  {
    if index == [] || pc < index[0].end then 0
    else
      assert forall j :: 1 <= j < |index| ==> index[j] == index[1..][j - 1];
      1 + FirstEndingAbove(index[1..], pc)
  }

  function Lookup(index: seq<Row>, fdeAt: map<nat, Fde>, pc: nat): Option<Fde> {
    var i := FirstEndingAbove(index, pc);
    if i == |index| then None
    else
      var offset := index[i].offset;
      if offset in fdeAt && fdeAt[offset].pcStart <= pc then Some(fdeAt[offset]) else None
  }

  ghost predicate OwnsLikeScan(m: FdeMap, fdes: seq<Located>) {
    && Disjoint(m)
    && forall pc :: Owner(m, pc) == match FirstCovering(fdes, pc) case None => None case Some(f) => Some(f.offset)
  }

  ghost predicate ReadsBack(fdeAt: map<nat, Fde>, fdes: seq<Located>) {
    forall i :: 0 <= i < |fdes| ==> fdes[i].offset in fdeAt && fdeAt[fdes[i].offset] == fdes[i].fde
  }

  /** The walked FDE that a piece was cut from covers the whole piece. */
  lemma {:induction false} PieceInsideItsFde(m: FdeMap, fdeAt: map<nat, Fde>, fdes: seq<Located>, k: nat)
    requires OwnsLikeScan(m, fdes) && ReadsBack(fdeAt, fdes) && k in m
    ensures m[k].offset in fdeAt
    ensures var f := fdeAt[m[k].offset];
            f.pcStart <= m[k].start && k <= f.pcEnd && exists i :: 0 <= i < |fdes| && fdes[i].fde == f
  {
    OwnerOfPiece(m, k, m[k].start);
    OwnerOfPiece(m, k, k - 1);
    FirstCoveringIsFirst(fdes, m[k].start);
    FirstCoveringIsFirst(fdes, k - 1);
  }

  lemma {:induction false} FlatUpperBound(index: seq<Row>, m: FdeMap, pc: nat)
    requires Flattens(index, m)
    ensures var i := FirstEndingAbove(index, pc);
            UpperBound(m, pc) == if i < |index| then Some(index[i].end) else None
  {
    var i := FirstEndingAbove(index, pc);
    if UpperBound(m, pc).Some? {
      var u := UpperBound(m, pc).value;
      var j :| 0 <= j < |index| && index[j].end == u;
      assert i <= j;
    }
  }

  /** Dropping the piece starts loses nothing: re-checking only the whole FDE's
      start answers every address exactly as the linear scan does. */
  lemma {:induction false} LookupIsScan(index: seq<Row>, m: FdeMap, fdeAt: map<nat, Fde>, fdes: seq<Located>, pc: nat)
    requires Flattens(index, m) && OwnsLikeScan(m, fdes) && ReadsBack(fdeAt, fdes)
    ensures Lookup(index, fdeAt, pc) == match FirstCovering(fdes, pc) case None => None case Some(f) => Some(f.fde)
  {
    FirstCoveringIsFirst(fdes, pc);
    var i := FirstEndingAbove(index, pc);
    FlatUpperBound(index, m, pc);
    if i < |index| {
      PieceInsideItsFde(m, fdeAt, fdes, index[i].end);
    }
  }

  lemma {:induction false} ScanStep(before: FdeMap, after: FdeMap, seen: seq<Located>, f: Located)
    requires OwnsLikeScan(before, seen) && Disjoint(after)
    requires OwnsBehind(after, before, f)
    ensures OwnsLikeScan(after, seen + [f])
  {
    forall pc { FirstCoveringAppend(seen, f, pc); }
  }

  function Walked(seen: seq<Located>, e: Entry): seq<Located> {
    if e.FdeAt? then seen + [e.located] else seen
  }

  lemma {:induction false} WalkStep(entries: seq<Entry>, i: nat, seen: seq<Located>)
    requires i < |entries|
    ensures seen + WalkedFdes(entries[i..]) ==
            Walked(seen, entries[i])
            + if entries[i].Malformed? || entries[i].overrun then [] else WalkedFdes(entries[i + 1..])
  {
    assert entries[i..][1..] == entries[i + 1..];
    var own := if entries[i].FdeAt? then [entries[i].located] else [];
    var rest := if entries[i].Malformed? || entries[i].overrun then [] else WalkedFdes(entries[i + 1..]);
    assert WalkedFdes(entries[i..]) == own + rest;
    assert Walked(seen, entries[i]) == seen + own;
    assert seen + (own + rest) == (seen + own) + rest;
  }

  /** The walk over the section, inserting every FDE it reads. */
  method CollectFdes(entries: seq<Entry>) returns (fdes: FdeMap)
    ensures OwnsLikeScan(fdes, WalkedFdes(entries))
  {
    fdes := map[];
    ghost var seen: seq<Located> := [];
    var i, done := 0, false;
    while i < |entries| && !done
      invariant 0 <= i <= |entries|
      invariant OwnsLikeScan(fdes, seen)
      invariant WalkedFdes(entries) == seen + if done then [] else WalkedFdes(entries[i..])
      decreases |entries| - i
    {
      var e := entries[i];
      WalkStep(entries, i, seen);
      if e.FdeAt? {
        var grown := InsertFde(e.located, fdes);
        ScanStep(fdes, grown, seen, e.located);
        fdes := grown;
      }
      seen := Walked(seen, e);
      i, done := i + 1, e.Malformed? || e.overrun;
    }
    assert WalkedFdes(entries) == seen;
  }

  ghost predicate Listed(index: seq<Row>, k: nat) {
    exists i :: 0 <= i < |index| && index[i].end == k
  }

  /** The table holds the pieces below `it`, in order; the rest are still to come. */
  ghost predicate FlatBelow(index: seq<Row>, m: FdeMap, it: Option<nat>) {
    && (forall i, j :: 0 <= i < j < |index| ==> index[i].end < index[j].end)
    && (forall i :: 0 <= i < |index| ==> index[i].end in m && m[index[i].end].offset == index[i].offset)
    && (it.Some? ==> it.value in m && forall i :: 0 <= i < |index| ==> index[i].end < it.value)
    && (forall k :: k in m ==> (it.Some? && it.value <= k) || Listed(index, k))
  }

  lemma {:induction false} FlattenStep(index: seq<Row>, m: FdeMap, k: nat)
    requires FlatBelow(index, m, Some(k))
    ensures FlatBelow(index + [Row(k, m[k].offset)], m, UpperBound(m, k))
  {
    var longer := index + [Row(k, m[k].offset)];
    assert longer[|index|].end == k;
    forall j | j in m && !(UpperBound(m, k).Some? && UpperBound(m, k).value <= j)
      ensures Listed(longer, j)
    {
      if j < k {
        var i :| 0 <= i < |index| && index[i].end == j;
        assert longer[i].end == j;
      }
    }
  }

  /** Copies the interval map, in key order, into the search table. */
  method FlattenMap(fdes: FdeMap) returns (index: seq<Row>)
    requires Disjoint(fdes)
    ensures Flattens(index, fdes)
  {
    index := [];
    var it := UpperBound(fdes, 0);
    ghost var rest := fdes.Keys;
    while it.Some?
      invariant FlatBelow(index, fdes, it)
      invariant it.Some? ==> it.value in rest && forall k :: k in fdes && it.value <= k ==> k in rest
      decreases rest
    {
      FlattenStep(index, fdes, it.value);
      rest := rest - {it.value};
      index := index + [Row(it.value, fdes[it.value].offset)];
      it := UpperBound(fdes, it.value);
    }
    assert forall k :: k in fdes ==> Listed(index, k);
  }

  class FdeTable {
    const entries: seq<Entry>
    const fdeAt: map<nat, Fde>
    var fdeIndex: seq<Row>

    ghost predicate Valid()
      reads this
    {
      && ReadsBack(fdeAt, WalkedFdes(entries))
      && (fdeIndex != [] ==> exists m :: Flattens(fdeIndex, m) && OwnsLikeScan(m, WalkedFdes(entries)))
    }

    constructor (entries: seq<Entry>, fdeAt: map<nat, Fde>)
      requires ReadsBack(fdeAt, WalkedFdes(entries))
      ensures Valid() && this.entries == entries && this.fdeAt == fdeAt
    {
      this.entries, this.fdeAt, this.fdeIndex := entries, fdeAt, [];
    }

    /** Walks the section, builds the interval map and flattens it. */
    method BuildFdeIndex()
      requires Valid() && fdeIndex == []
      modifies this
      ensures Valid()
      ensures exists m :: Flattens(fdeIndex, m) && OwnsLikeScan(m, WalkedFdes(entries))
    {
      var fdes := CollectFdes(entries);
      fdeIndex := FlattenMap(fdes);
    }

    /** The FDE that describes `pc`: the first one in section order that covers
        it, overlapping FDEs included. */
    method GetFdeFromPc(pc: nat) returns (r: Option<Fde>)
      requires Valid()
      modifies this
      ensures Valid()
      ensures r == match FirstCovering(WalkedFdes(entries), pc) case None => None case Some(f) => Some(f.fde)
    {
      if fdeIndex == [] {
        BuildFdeIndex();
      }
      ghost var m :| Flattens(fdeIndex, m) && OwnsLikeScan(m, WalkedFdes(entries));
      LookupIsScan(fdeIndex, m, fdeAt, WalkedFdes(entries), pc);
      r := Lookup(fdeIndex, fdeAt, pc);
    }
  }
}
