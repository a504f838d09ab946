/** The gate that skips the mapping pass of a sample
    (backtrace/src/ObservedMemory.cpp, ReadSelfDmaBytesGated). */
module SampleGate {
  import opened Wrappers
  import opened InodeSet
  import opened Sampler

  const MAP_REFRESH_SAMPLES := 8

  datatype DmaSource = IonProcInfo | FdAndMaps | NoSource

  /** The figure carried from the last mapping pass. */
  datatype Carried = Carried(bytes: nat, maxBytes: nat, refreshes: nat, since: nat, everRan: bool)

  /** What the passes of one sample find, and the peak it is compared with. */
  datatype Reading = Reading(rss: nat, ion: Option<nat>, fds: seq<Buffer>, maps: seq<Buffer>, gpu: nat, peak: nat)

  datatype Dma = Dma(fd: nat, map_: nat, source: DmaSource, carried: Carried)

  function FdBytes(r: Reading): (n: nat) {
    PassSum(r.fds)
  }

  /** The mapping pass goes on with the set the descriptor pass has filled. */
  function MapBytes(r: Reading): (n: nat)
    ensures FdBytes(r) + n == PassSum(r.fds + r.maps)
  {
    PassSumGrows(r.fds, r.maps);
    PassSum(r.fds + r.maps) - PassSum(r.fds)
  }

  lemma {:induction false} PassSumGrows(a: seq<Buffer>, b: seq<Buffer>)
    ensures PassSum(a) <= PassSum(a + b)
  {
    hide PassSum;
    if b == [] {
      assert a + b == a;
    } else {
      var n := |b| - 1;
      PassSumGrows(a, b[..n]);
      PassSumAppend(a + b[..n], b[n]);
      assert a + b == a + b[..n] + [b[n]];
    }
  }

  /** What the sample is credited with before the mapping pass; without gpu bytes. */
  function Provisional(c: Carried, r: Reading): (n: nat) {
    r.rss + FdBytes(r) + c.bytes
  }

  predicate RunsMapPass(c: Carried, r: Reading) {
    !c.everRan || Provisional(c, r) >= r.peak || c.since >= MAP_REFRESH_SAMPLES
  }

  predicate Skips(c: Carried, r: Reading) {
    r.ion.None? && !RunsMapPass(c, r)
  }

  function Refreshed(c: Carried, map_: nat): (n: Carried) {
    Carried(map_, Max(c.maxBytes, map_), c.refreshes + 1, 0, true)
  }

  function Gated(c: Carried, r: Reading): (d: Dma) {
    if r.ion.Some? then Dma(r.ion.value, 0, IonProcInfo, c)
    else if RunsMapPass(c, r) then
      Dma(FdBytes(r), MapBytes(r), if r.fds != [] || r.maps != [] then FdAndMaps else NoSource,
          Refreshed(c, MapBytes(r)))
    else
      Dma(FdBytes(r), c.bytes, if r.fds != [] || c.maxBytes != 0 then FdAndMaps else NoSource,
          c.(since := c.since + 1))
  }

  /** The sample the sampler is given. */
  function SampleOf(c: Carried, r: Reading): (s: Sample) {
    var d := Gated(c, r);
    Sample(r.rss, d.fd + d.map_, d.fd, d.map_, r.gpu, true)
  }

  // ---------- What a skip can hide ----------

  /** The pass is skipped exactly for a sample that is below the peak even with the
      figure of the last pass, when there was one no more than eight samples ago. */
  lemma {:induction false} SkipsIff(c: Carried, r: Reading)
    ensures Skips(c, r) <==>
            r.ion.None? && c.everRan && c.since < 8 && r.rss + PassSum(r.fds) + c.bytes < r.peak
  {
    hide PassSum;
  }

  /** A skipped sample leaves the peak alone exactly when the gpu bytes, which the
      gate leaves out, are within what it is short of; then no snapshot is taken either. */
  lemma {:induction false} SkippedLeavesPeakIff(config: Config, c: Carried, r: Reading, ts: seq<Turn>, timing: Timing,
                                                keeps: bool)
    requires Skips(c, r) && r.peak == Peak(ts)
    ensures var t := Turn(timing, SampleOf(c, r), keeps);
            && (Peak(ts + [t]) == Peak(ts) <==> r.gpu <= r.peak - Provisional(c, r))
            && (Peak(ts + [t]) == Peak(ts) ==>
                  && PeakSample(ts + [t]) == PeakSample(ts)
                  && SnapshotsAfter(config, ts + [t]) == SnapshotsAfter(config, ts))
  {
    hide PassSum, NextPeakThreshold;
    var t := Turn(timing, SampleOf(c, r), keeps);
    assert (ts + [t])[..|ts|] == ts;
  }

  /** They need not be: 10 short of the peak, 20 on the gpu. */
  lemma {:induction false} GpuLiftsSkipped(since: nat)
    requires since < MAP_REFRESH_SAMPLES
    ensures var c, r := Carried(0, 0, 1, since, true), Reading(90, None, [], [], 20, 100);
            Skips(c, r) && SampleOf(c, r).Total() == 110
  {
    EmptyPass([]);
  }

  // ---------- How long a figure is carried ----------

  function CarriedAfter(c: Carried, rs: seq<Reading>): (r: Carried)
    decreases |rs|
  {
    if rs == [] then c else CarriedAfter(Gated(c, rs[0]).carried, rs[1..])
  }

  predicate NoIon(rs: seq<Reading>) {
    forall i :: 0 <= i < |rs| ==> rs[i].ion.None?
  }

  lemma {:induction false} RefreshesGrow(c: Carried, rs: seq<Reading>)
    ensures c.refreshes <= CarriedAfter(c, rs).refreshes
    decreases |rs|
  {
    hide MapBytes, FdBytes;
    if rs != [] {
      RefreshesGrow(Gated(c, rs[0]).carried, rs[1..]);
    }
  }

  /** Whatever is read, at most eight samples in a row go without a mapping pass. */
  lemma {:induction false} CarriedIsShort(c: Carried, rs: seq<Reading>)
    requires NoIon(rs) && c.since + |rs| > 8 && c.since <= 8
    ensures c.refreshes < CarriedAfter(c, rs).refreshes
    decreases |rs|
  {
    hide MapBytes, FdBytes;
    var next := Gated(c, rs[0]).carried;
    if RunsMapPass(c, rs[0]) {
      RefreshesGrow(next, rs[1..]);
    } else {
      CarriedIsShort(next, rs[1..]);
    }
  }

  /** The largest figure of any mapping pass so far. */
  lemma {:induction false} MaxIsKept(c: Carried, rs: seq<Reading>, i: nat)
    requires i < |rs|
    ensures c.maxBytes <= CarriedAfter(c, rs).maxBytes
    ensures var before := CarriedAfter(c, rs[..i]);
            rs[i].ion.None? && RunsMapPass(before, rs[i]) ==> MapBytes(rs[i]) <= CarriedAfter(c, rs).maxBytes
    decreases |rs|
  {
    hide MapBytes, FdBytes;
    var next := Gated(c, rs[0]).carried;
    if i == 0 {
      assert rs[..0] == [];
      MaxGrows(next, rs[1..]);
    } else {
      assert rs[..i][1..] == rs[1..][..i - 1] && rs[..i][0] == rs[0];
      MaxIsKept(next, rs[1..], i - 1);
    }
  }

  lemma {:induction false} MaxGrows(c: Carried, rs: seq<Reading>)
    ensures c.maxBytes <= CarriedAfter(c, rs).maxBytes
    decreases |rs|
  {
    hide MapBytes, FdBytes;
    if rs != [] {
      MaxGrows(Gated(c, rs[0]).carried, rs[1..]);
    }
  }

  /** Once a mapping pass has found a buffer, no sample that skips the pass is taken
      for one on a kernel without dmabuf accounting. */
  lemma {:induction false} LabelIsKept(c: Carried, rs: seq<Reading>, i: nat, now: Reading)
    requires i < |rs| && rs[i].ion.None? && RunsMapPass(CarriedAfter(c, rs[..i]), rs[i]) && MapBytes(rs[i]) > 0
    requires Skips(CarriedAfter(c, rs), now)
    ensures Gated(CarriedAfter(c, rs), now).source == FdAndMaps
  {
    hide MapBytes, FdBytes, CarriedAfter;
    MaxIsKept(c, rs, i);
  }

  /** What a sample is that does not skip the pass: the figure of ion alone, or every
      buffer once, and no accounting exactly when there is no buffer. */
  lemma {:induction false} UnskippedIsExact(c: Carried, r: Reading)
    requires !Skips(c, r)
    ensures SampleOf(c, r).dma == if r.ion.Some? then r.ion.value else PassSum(r.fds + r.maps)
    ensures Gated(c, r).source == if r.ion.Some? then IonProcInfo
                                  else if |r.fds + r.maps| == 0 then NoSource else FdAndMaps
    ensures r.ion.Some? ==> Gated(c, r).carried == c
  {
    hide MapBytes, FdBytes;
  }

  // ---------- What the carried figure is worth ----------

  /** The inode set did not overflow, so every buffer is recognised. */
  predicate Fits(r: Reading) {
    Limit(r.fds + r.maps) == |r.fds + r.maps|
  }

  /** The buffers that live on in a mapping with no descriptor left. */
  function MappedOnly(r: Reading): (xs: set<nat>) {
    Inodes(r.maps) - Inodes(r.fds)
  }

  lemma {:induction false} MapBytesIsMappedOnly(r: Reading)
    requires Fits(r)
    ensures MapBytes(r) == SumOver(MappedOnly(r), Sizes(r.maps))
  {
    hide PassSum, Inodes, Limit, Sizes;
    SecondPassIsRest(r.fds, r.maps);
  }

  /** Until the next mapping pass the figure stays. */
  lemma {:induction false} NoRefreshKeepsBytes(c: Carried, rs: seq<Reading>)
    requires CarriedAfter(c, rs).refreshes == c.refreshes
    ensures CarriedAfter(c, rs).bytes == c.bytes
    decreases |rs|
  {
    hide MapBytes, FdBytes;
    if rs != [] {
      var next := Gated(c, rs[0]).carried;
      RefreshesGrow(next, rs[1..]);
      NoRefreshKeepsBytes(next, rs[1..]);
    }
  }

  /** `before` ran the mapping pass, nothing since has, and `now` skips it. */
  ghost predicate Carries(c: Carried, before: Reading, rs: seq<Reading>, now: Reading) {
    var ran := Gated(c, before).carried;
    && before.ion.None? && RunsMapPass(c, before)
    && CarriedAfter(ran, rs).refreshes == ran.refreshes
    && Skips(CarriedAfter(ran, rs), now)
    && Fits(before) && Fits(now)
    && SameSizes(before, now)
  }

  /** A mapped buffer does not change its size. */
  ghost predicate SameSizes(before: Reading, now: Reading) {
    forall x :: x in MappedOnly(before) * MappedOnly(now) ==> Sizes(before.maps)(x) == Sizes(now.maps)(x)
  }

  /** The bytes of the buffers that are mapped only in `r`, and not in `other`. */
  ghost function OnlyIn(r: Reading, other: Reading): nat {
    SumOver(MappedOnly(r) - MappedOnly(other), Sizes(r.maps))
  }

  /** However long it is carried, the figure is off by the buffers that came to
      be mapped only, and by those that no longer are. */
  lemma {:induction false} CarriedError(c: Carried, before: Reading, rs: seq<Reading>, now: Reading)
    requires Carries(c, before, rs, now)
    ensures var sample := SampleOf(CarriedAfter(Gated(c, before).carried, rs), now);
            sample.dma + OnlyIn(now, before) == PassSum(now.fds + now.maps) + OnlyIn(before, now)
  {
    hide PassSum, Limit, Sizes, SumOver, MappedOnly, CarriedAfter;
    NoRefreshKeepsBytes(Gated(c, before).carried, rs);
    MapBytesIsMappedOnly(before);
    MapBytesIsMappedOnly(now);
    SumExchange(MappedOnly(before), MappedOnly(now), Sizes(before.maps), Sizes(now.maps));
  }

  /** With the mappings as they were, it is exact if and only if as many mapped
      bytes gained a descriptor since as lost theirs. */
  lemma {:induction false} CarriedIsExactIff(c: Carried, before: Reading, rs: seq<Reading>, now: Reading)
    requires Carries(c, before, rs, now) && now.maps == before.maps
    ensures var sample := SampleOf(CarriedAfter(Gated(c, before).carried, rs), now);
            var f0, f1, m := Inodes(before.fds), Inodes(now.fds), Inodes(now.maps);
            var lost, gained := SumOver(m * (f0 - f1), Sizes(now.maps)), SumOver(m * (f1 - f0), Sizes(now.maps));
            && sample.dma + lost == PassSum(now.fds + now.maps) + gained
            && (sample.dma == PassSum(now.fds + now.maps) <==> lost == gained)
  {
    hide PassSum, Limit, Sizes, SumOver, CarriedAfter, Inodes;
    CarriedError(c, before, rs, now);
    var f0, f1, m := Inodes(before.fds), Inodes(now.fds), Inodes(now.maps);
    assert MappedOnly(now) - MappedOnly(before) == m * (f0 - f1);
    assert MappedOnly(before) - MappedOnly(now) == m * (f1 - f0);
  }

  /** The skipped sample hides a new peak exactly when the buffers that came to be
      mapped only, with the gpu bytes, outweigh the shortfall and those that no
      longer are. */
  lemma {:induction false} MissedPeakIff(c: Carried, before: Reading, rs: seq<Reading>, now: Reading)
    requires Carries(c, before, rs, now)
    ensures var carried := CarriedAfter(Gated(c, before).carried, rs);
            now.rss + PassSum(now.fds + now.maps) + now.gpu > now.peak <==>
            OnlyIn(now, before) + now.gpu > now.peak - Provisional(carried, now) + OnlyIn(before, now)
  {
    hide PassSum, Limit, Sizes, SumOver, CarriedAfter, Inodes, OnlyIn;
    CarriedError(c, before, rs, now);
  }

  lemma {:induction false} OneBuffer(b: Buffer)
    ensures PassSum([b]) == b.size && PassSum([b] + [b]) == b.size
  {
    hide PassSum;
    EmptyPass([]);
    PassSumAppend([], b);
    PassSumAppend([b], b);
    assert [] + [b] == [b] && !Seen([], b.inode) && [b][0].inode == b.inode;
    FewInodes(b);
    LimitInside([b]);
    LimitAppend([], b);
  }

  lemma {:induction false} FewInodes(b: Buffer)
    ensures |Inodes([])| < MAX_DEDUPED && |Inodes([b])| < MAX_DEDUPED && Limit([]) == 0
  {
    assert [b][0].inode in Inodes([b]);
    assert Inodes([]) == {} && Inodes([b]) == {b.inode};
  }

  /** A buffer first seen mapped and then held by a descriptor is counted twice by a
      skipped sample. */
  lemma {:induction false} CarriedCountsTwice(b: Buffer, c: Carried, rss: nat, gpu: nat, peak: nat)
    requires RunsMapPass(c, Reading(rss, None, [], [b], gpu, peak)) && rss + 2 * b.size < peak
    ensures var before := Reading(rss, None, [], [b], gpu, peak);
            var now := Reading(rss, None, [b], [b], gpu, peak);
            var carried := Gated(c, before).carried;
            && SampleOf(c, before).dma == b.size
            && Skips(carried, now) && SampleOf(carried, now).dma == 2 * b.size
            && PassSum(now.fds + now.maps) == b.size
  {
    hide PassSum;
    OneBuffer(b);
    EmptyPass([]);
    assert [] + [b] == [b];
  }

  class DmaMapCache {
    var bytes: nat
    var maxBytes: nat
    var refreshes: nat
    var since: nat
    var everRan: bool

    constructor ()
      ensures State() == Carried(0, 0, 0, 0, false)
    {
      bytes, maxBytes, refreshes, since, everRan := 0, 0, 0, 0, false;
    }

    ghost function State(): Carried
      reads this
    {
      Carried(bytes, maxBytes, refreshes, since, everRan)
    }

    method Refresh(map_: nat)
      modifies this
      ensures State() == Refreshed(old(State()), map_)
    {
      bytes, everRan, since, refreshes := map_, true, 0, refreshes + 1;
      if map_ > maxBytes {
        maxBytes := map_;
      }
    }
  }

  /** The dmabuf bytes of a sample, with the mapping pass or without; always with
      it when there is no cache. */
  method ReadSelfDmaBytesGated(set_: DmaInodeSet, cache: DmaMapCache?, r: Reading)
    returns (fd: nat, map_: nat, source: DmaSource)
    requires Holds(set_, [])
    modifies set_, set_.inode, set_.stamp, cache
    ensures cache != null ==> Dma(fd, map_, source, cache.State()) == Gated(old(cache.State()), r)
    ensures cache == null ==> forall c: Carried :: !c.everRan ==>
              Gated(c, r).fd == fd && Gated(c, r).map_ == map_ && Gated(c, r).source == source
  {
    hide PassSum, Holds;
    if r.ion.Some? {
      return r.ion.value, 0, IonProcInfo;
    }
    var sawAny := r.fds != [];
    EmptyPass([]);
    assert [] + r.fds == r.fds;
    fd := SumBuffers(set_, [], r.fds);
    var runs := true;
    if cache != null {
      runs := !cache.everRan || r.rss + fd + cache.bytes >= r.peak || cache.since >= MAP_REFRESH_SAMPLES;
    }
    if runs {
      map_ := SumBuffers(set_, r.fds, r.maps);
      sawAny := sawAny || r.maps != [];
      if cache != null {
        cache.Refresh(map_);
      }
    } else {
      map_ := cache.bytes;
      cache.since := cache.since + 1;
      sawAny := sawAny || cache.maxBytes != 0;
    }
    source := if sawAny then FdAndMaps else NoSource;
  }
}
