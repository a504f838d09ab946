/** Address map regions as values, and what re-reading the maps file must leave
    behind (unwindstack/Maps.cpp). */
module MapRegions {

  const MAPS_FLAGS_DEVICE_MAP := 0x8000

  datatype Region = Region(start: nat, end: nat, offset: nat, flags: nat, name: string)

  /** What Reparse compares: everything but the file offset. */
  datatype RegionKey = RegionKey(start: nat, end: nat, flags: nat, name: string)

  function KeyOf(r: Region): RegionKey {
    RegionKey(r.start, r.end, r.flags, r.name)
  }

  function Keys(rs: seq<Region>): seq<RegionKey> {
    seq(|rs|, i requires 0 <= i < |rs| => KeyOf(rs[i]))
  }

  /** The flag that marks maps in /dev/ other than /dev/ashmem/. */
  function WithDeviceFlag(r: Region): Region {
    if "/dev/" <= r.name && !("/dev/ashmem/" <= r.name) && (r.flags / MAPS_FLAGS_DEVICE_MAP) % 2 == 0
    then r.(flags := r.flags + MAPS_FLAGS_DEVICE_MAP) else r
  }

  predicate IsDevice(flags: nat) {
    flags / 0x8000 % 2 == 1
  }

  /** Parsing sets the device flag of exactly the maps in /dev/ that are not in
      /dev/ashmem/, and leaves every other flag and field as it was read. */
  lemma {:induction false} DeviceFlagIff(r: Region)
    ensures var q := WithDeviceFlag(r);
            && (IsDevice(q.flags) <==> IsDevice(r.flags) || ("/dev/" <= r.name && !("/dev/ashmem/" <= r.name)))
            && q.flags % 0x8000 == r.flags % 0x8000 && q.flags / 0x1_0000 == r.flags / 0x1_0000
            && q == r.(flags := q.flags)
  {
    var n := r.flags;
    assert (n + 0x8000) / 0x8000 == n / 0x8000 + 1;
    assert n == n / 0x8000 * 0x8000 + n % 0x8000 && n / 0x1_0000 == n / 0x8000 / 2;
  }

  function Flagged(lines: seq<Region>): seq<Region> {
    seq(|lines|, i requires 0 <= i < |lines| => WithDeviceFlag(lines[i]))
  }

  /** The maps file lists regions in increasing, non-overlapping order. */
  ghost predicate Ordered(rs: seq<Region>) {
    && (forall i :: 0 <= i < |rs| ==> rs[i].start < rs[i].end)
    && (forall i, j :: 0 <= i < j < |rs| ==> rs[i].end <= rs[j].start)
  }

  predicate Holds(rs: seq<Region>, k: RegionKey) {
    exists i :: 0 <= i < |rs| && KeyOf(rs[i]) == k
  }

  /** In an ordered list a key names one region. */
  lemma {:induction false} KeyIsUnique(rs: seq<Region>, i: nat, j: nat)
    requires Ordered(rs) && i < |rs| && j < |rs| && KeyOf(rs[i]) == KeyOf(rs[j])
    ensures i == j
  {
  }

  /** The regions after re-reading `lines` over `was`: a region both lists hold
      is the one that was there. */
  ghost function Reparsed(was: seq<Region>, lines: seq<Region>): seq<Region> {
    seq(|lines|, i requires 0 <= i < |lines| => Kept(was, lines[i]))
  }

  ghost function Kept(was: seq<Region>, line: Region): (r: Region)
    ensures KeyOf(r) == KeyOf(line)
    ensures r == line || r in was
  {
    if Holds(was, KeyOf(line)) then
      var i :| 0 <= i < |was| && KeyOf(was[i]) == KeyOf(line);
      was[i]
    else line
  }

  /** Re-reading gives the same regions, by start, end, flags and name, as a
      fresh parse does. */
  lemma {:induction false} ReparsedLikeFresh(was: seq<Region>, lines: seq<Region>)
    ensures Keys(Reparsed(was, lines)) == Keys(lines)
    ensures Ordered(lines) ==> Ordered(Reparsed(was, lines))
  {
    forall i | 0 <= i < |lines|
      ensures KeyOf(Reparsed(was, lines)[i]) == KeyOf(lines[i])
    {
    }
  }

  /** It equals a fresh parse in every field exactly when no region that stayed
      has a new file offset. */
  lemma {:induction false} EqualsFreshIff(was: seq<Region>, lines: seq<Region>)
    requires Ordered(was)
    ensures Reparsed(was, lines) == lines <==>
            forall i, j :: 0 <= i < |lines| && 0 <= j < |was| && KeyOf(was[j]) == KeyOf(lines[i]) ==>
              was[j].offset == lines[i].offset
  {
    if Reparsed(was, lines) == lines {
      forall i, j | 0 <= i < |lines| && 0 <= j < |was| && KeyOf(was[j]) == KeyOf(lines[i])
        ensures was[j].offset == lines[i].offset
      {
        KeptIs(was, lines[i], j);
        assert Reparsed(was, lines)[i] == was[j];
      }
    } else {
      var i :| 0 <= i < |lines| && Reparsed(was, lines)[i] != lines[i];
      assert Kept(was, lines[i]) != lines[i];
      var j :| 0 <= j < |was| && KeyOf(was[j]) == KeyOf(lines[i]) && Kept(was, lines[i]) == was[j];
      assert was[j].offset != lines[i].offset;
    }
  }

  lemma {:induction false} KeptIs(was: seq<Region>, line: Region, j: nat)
    requires Ordered(was) && j < |was| && KeyOf(was[j]) == KeyOf(line)
    ensures Kept(was, line) == was[j]
  {
    assert Holds(was, KeyOf(line));
    var i :| 0 <= i < |was| && KeyOf(was[i]) == KeyOf(line) && Kept(was, line) == was[i];
    KeyIsUnique(was, i, j);
  }

  /** A file mapped again at another offset of the same place keeps its stale
      offset. */
  lemma {:induction false} StaleOffsetSurvives()
    ensures var was, lines := [Region(0x1000, 0x2000, 0, 5, "lib.so")], [Region(0x1000, 0x2000, 0x3000, 5, "lib.so")];
            Ordered(was) && Ordered(lines) && Reparsed(was, lines) != lines
  {
    var was, lines := [Region(0x1000, 0x2000, 0, 5, "lib.so")], [Region(0x1000, 0x2000, 0x3000, 5, "lib.so")];
    EqualsFreshIff(was, lines);
    assert KeyOf(was[0]) == KeyOf(lines[0]);
  }
}
