/** The peak sampler: its fixed-rate schedule with a duty cap, its snapshot
    threshold and its loop (backtrace/src/ObservedMemory.cpp). */
module Sampler {
  import opened Wrappers

  const SIZE_MAX: nat := 0xffff_ffff_ffff_ffff
  const MIN_PEAK_STEP: nat := 64 * 1024

  // ---------- The schedule ----------

  datatype Schedule = Schedule(deadline: nat, skipped: nat, throttled: bool)

  function NextSampleSchedule(previous: nat, now: nat, work: nat, interval0: nat): (r: Schedule) {
    var interval := if interval0 == 0 then 1 else interval0;
    var next := previous + interval;
    var overrun := if next < now then (now - next) / interval + 1 else 0;
    var served := next + overrun * interval;
    var earliest := now + work;
    var capped := if served < earliest then (earliest - served + interval - 1) / interval else 0;
    Schedule(served + capped * interval, overrun + capped, served < earliest)
  }

  lemma {:induction false} DivBounds(x: nat, d: nat)
    requires d > 0
    ensures x / d * d <= x < (x / d + 1) * d
  {
  }

  /** The grid slot a sample may start in: not before its predecessor's work has
      been paid for, and, unless it is the very next slot, after `now`. */
  predicate Suitable(previous: nat, now: nat, work: nat, interval: nat, k: nat) {
    var slot := previous + k * interval;
    now + work <= slot && (k == 1 || now < slot)
  }

  lemma {:induction false} Overrun(previous: nat, now: nat, interval: nat)
    requires interval > 0
    ensures var next := previous + interval;
            var overrun := if next < now then (now - next) / interval + 1 else 0;
            && now <= next + overrun * interval && (overrun > 0 ==> now < next + overrun * interval)
            && (overrun > 0 ==> next + (overrun - 1) * interval <= now)
  {
    var next := previous + interval;
    if next < now {
      DivBounds(now - next, interval);
    }
  }

  lemma {:induction false} Capped(served: nat, earliest: nat, interval: nat)
    requires interval > 0
    ensures var capped := if served < earliest then (earliest - served + interval - 1) / interval else 0;
            && earliest <= served + capped * interval
            && (capped > 0 ==> served + (capped - 1) * interval < earliest)
  {
    if served < earliest {
      DivBounds(earliest - served + interval - 1, interval);
      var capped := (earliest - served + interval - 1) / interval;
      assert (capped + 1) * interval == capped * interval + interval;
      assert (capped - 1) * interval == capped * interval - interval;
    }
  }

  lemma {:induction false} SlotsGrow(j: nat, k: nat, interval: nat)
    requires j <= k
    ensures j * interval <= k * interval
  {
  }

  /** The deadline is the first suitable slot of the grid, and every slot passed
      over is counted. */
  lemma {:induction false} NextIsFirstSuitable(previous: nat, now: nat, work: nat, interval: nat)
    requires interval > 0
    ensures var r := NextSampleSchedule(previous, now, work, interval);
            && r.deadline == previous + (1 + r.skipped) * interval
            && Suitable(previous, now, work, interval, 1 + r.skipped)
            && forall k :: 1 <= k <= r.skipped ==> !Suitable(previous, now, work, interval, k)
  {
    var r := NextSampleSchedule(previous, now, work, interval);
    var next := previous + interval;
    var overrun := if next < now then (now - next) / interval + 1 else 0;
    var served := next + overrun * interval;
    var capped := r.skipped - overrun;
    Overrun(previous, now, interval);
    Capped(served, now + work, interval);
    assert r.deadline == served + capped * interval;
    assert r.deadline == previous + (1 + r.skipped) * interval by {
      Spread(previous, overrun, capped, interval);
    }
    if r.skipped > 0 && capped == 0 {
      assert overrun > 0;
    }
    assert Suitable(previous, now, work, interval, 1 + r.skipped) by {
      if r.skipped > 0 {
        SlotsGrow(0, capped, interval);
      }
    }
    forall k | 1 <= k <= r.skipped ensures !Suitable(previous, now, work, interval, k) {
      if k <= overrun {
        SlotsGrow(k, overrun, interval);
        EarlierThanOverrun(previous, now, overrun, interval, k);
      } else {
        SlotsGrow(k, overrun + capped, interval);
        EarlierThanCapped(previous, served, now + work, overrun, capped, interval, k);
      }
    }
  }

  /** Throttled means the cadence alone would have started the sample too soon. */
  lemma {:induction false} ThrottledIff(previous: nat, now: nat, work: nat, interval: nat)
    requires interval > 0
    ensures NextSampleSchedule(previous, now, work, interval).throttled <==>
            NextSampleSchedule(previous, now, 0, interval).deadline < now + work
  {
    Overrun(previous, now, interval);
    var next := previous + interval;
    var served := next + (if next < now then (now - next) / interval + 1 else 0) * interval;
    assert 0 * interval == 0;
    assert NextSampleSchedule(previous, now, 0, interval).deadline == served;
  }

  lemma {:induction false} Spread(previous: nat, overrun: nat, capped: nat, interval: nat)
    ensures previous + interval + overrun * interval + capped * interval ==
            previous + (1 + (overrun + capped)) * interval
  {
  }

  lemma {:induction false} EarlierThanOverrun(previous: nat, now: nat, overrun: nat, interval: nat, k: nat)
    requires interval > 0 && 1 <= k <= overrun && previous + interval < now
    requires previous + interval + (overrun - 1) * interval <= now
    ensures previous + k * interval <= now && (k == 1 ==> previous + k * interval < now)
  {
    SlotsGrow(k - 1, overrun - 1, interval);
    assert previous + k * interval == previous + interval + (k - 1) * interval;
  }

  lemma {:induction false} EarlierThanCapped(previous: nat, served: nat, earliest: nat, overrun: nat, capped: nat,
                                             interval: nat, k: nat)
    requires interval > 0 && overrun < k <= overrun + capped
    requires served == previous + interval + overrun * interval && served + (capped - 1) * interval < earliest
    ensures previous + k * interval < earliest
  {
    SlotsGrow(k - 1 - overrun, capped - 1, interval);
    assert previous + k * interval == previous + interval + overrun * interval + (k - 1 - overrun) * interval;
  }

  // ---------- Whole runs of the schedule ----------

  /** When a sample began and when its work was done, by the monotonic clock. */
  datatype Timing = Timing(begin: nat, done: nat)

  function DeadlineAfter(start: nat, interval: nat, ts: seq<Timing>): (r: nat)
    requires Clocked(ts)
  {
    if ts == [] then start else
    var n := |ts| - 1;
    NextSampleSchedule(DeadlineAfter(start, interval, ts[..n]), ts[n].done, ts[n].done - ts[n].begin, interval).deadline
  }

  function SkippedAfter(start: nat, interval: nat, ts: seq<Timing>): (r: nat)
    requires Clocked(ts)
  {
    if ts == [] then 0 else
    var n := |ts| - 1;
    SkippedAfter(start, interval, ts[..n]) +
    NextSampleSchedule(DeadlineAfter(start, interval, ts[..n]), ts[n].done, ts[n].done - ts[n].begin, interval).skipped
  }

  /** How many samples the duty cap, not the cadence, put off. */
  function ThrottledAfter(start: nat, interval: nat, ts: seq<Timing>): (r: nat)
    requires Clocked(ts)
  {
    if ts == [] then 0 else
    var n := |ts| - 1;
    var before := DeadlineAfter(start, interval, ts[..n]);
    ThrottledAfter(start, interval, ts[..n]) +
    if NextSampleSchedule(before, ts[n].done, ts[n].done - ts[n].begin, interval).throttled then 1 else 0
  }

  predicate Clocked(ts: seq<Timing>) {
    forall i :: 0 <= i < |ts| ==> ts[i].begin <= ts[i].done
  }

  /** A sample begins once the clock has reached its deadline. */
  ghost predicate Paced(start: nat, interval: nat, ts: seq<Timing>) {
    && Clocked(ts)
    && forall i :: 0 <= i < |ts| ==> Clocked(ts[..i]) && DeadlineAfter(start, interval, ts[..i]) <= ts[i].begin
  }

  /** The grid never drifts: the deadline is exact after any number of samples. */
  lemma {:induction false} GridIsExact(start: nat, interval: nat, ts: seq<Timing>)
    requires interval > 0 && Clocked(ts)
    ensures DeadlineAfter(start, interval, ts) == start + (|ts| + SkippedAfter(start, interval, ts)) * interval
  {
    hide NextSampleSchedule;
    if ts == [] {
      assert 0 * interval == 0;
    } else {
      var n := |ts| - 1;
      GridIsExact(start, interval, ts[..n]);
      var before, t := DeadlineAfter(start, interval, ts[..n]), ts[n];
      NextIsFirstSuitable(before, t.done, t.done - t.begin, interval);
      var r := NextSampleSchedule(before, t.done, t.done - t.begin, interval);
      AddSlots(start, n, SkippedAfter(start, interval, ts[..n]), r.skipped, interval);
    }
  }

  lemma {:induction false} AddSlots(start: nat, n: nat, s: nat, more: nat, interval: nat)
    ensures start + (n + s) * interval + (1 + more) * interval == start + (n + 1 + (s + more)) * interval
  {
  }

  lemma {:induction false} DeadlinesRise(start: nat, interval: nat, ts: seq<Timing>, t: Timing)
    requires interval > 0 && Clocked(ts + [t])
    ensures Clocked(ts)
    ensures var after := DeadlineAfter(start, interval, ts + [t]);
            DeadlineAfter(start, interval, ts) < after && t.done + (t.done - t.begin) <= after
  {
    hide NextSampleSchedule;
    var all := ts + [t];
    assert all[..|ts|] == ts && all[|ts|] == t;
    var before := DeadlineAfter(start, interval, ts);
    NextIsFirstSuitable(before, t.done, t.done - t.begin, interval);
    var r := NextSampleSchedule(before, t.done, t.done - t.begin, interval);
    SlotsGrow(1, 1 + r.skipped, interval);
  }

  function Work(ts: seq<Timing>): (r: nat)
    requires Clocked(ts)
  {
    if ts == [] then 0 else Work(ts[..|ts| - 1]) + (ts[|ts| - 1].done - ts[|ts| - 1].begin)
  }

  /** Each sample starts at least as long after the last one ended as that one took. */
  lemma {:induction false} RestsAsLongAsItWorks(start: nat, interval: nat, ts: seq<Timing>, i: nat)
    requires interval > 0 && Paced(start, interval, ts) && i + 1 < |ts|
    ensures ts[i].done - ts[i].begin <= ts[i + 1].begin - ts[i].done
  {
    assert ts[..i + 1] == ts[..i] + [ts[i]];
    DeadlinesRise(start, interval, ts[..i], ts[i]);
  }

  /** Half of the time at most goes into sampling, over every run. */
  lemma {:induction false} HalfAtMost(start: nat, interval: nat, ts: seq<Timing>, n: nat)
    requires interval > 0 && Paced(start, interval, ts) && n < |ts|
    ensures Clocked(ts[..n]) && ts[0].begin + 2 * Work(ts[..n]) <= ts[n].begin
  {
    if n > 0 {
      HalfAtMost(start, interval, ts, n - 1);
      RestsAsLongAsItWorks(start, interval, ts, n - 1);
      assert ts[..n][..n - 1] == ts[..n - 1];
    }
  }

  // ---------- The threshold ----------

  function NextPeakThreshold(peak: nat, step: nat): (r: nat) {
    if step == 0 then peak else
    var quarter := peak / 4;
    var increment := if quarter > step then step else quarter;
    peak + if increment < MIN_PEAK_STEP then MIN_PEAK_STEP else increment
  }

  function Max(a: nat, b: nat): (r: nat) {
    if a < b then b else a
  }

  function Min(a: nat, b: nat): (r: nat) {
    if a < b then a else b
  }

  // ---------- The loop ----------

  datatype Sample = Sample(rss: nat, dma: nat, dmaFd: nat, dmaMap: nat, gpu: nat, valid: bool) {
    function Total(): (r: nat) { rss + dma + gpu }
  }

  const NO_SAMPLE: Sample := Sample(0, 0, 0, 0, 0, false)

  /** One turn of the loop: what was read, when, and, should a snapshot be asked
      for, whether the callback retained it. */
  datatype Turn = Turn(timing: Timing, sample: Sample, retains: bool)

  datatype Config = Config(interval: nat, floor: nat, step: nat, oneShot: bool, hasCallback: bool)

  datatype Call = Call(total: nat, retained: bool)

  predicate Fits(t: Turn) {
    t.timing.begin <= t.timing.done && t.sample.Total() <= SIZE_MAX
  }

  predicate AllFit(ts: seq<Turn>) {
    forall i :: 0 <= i < |ts| ==> Fits(ts[i])
  }

  /** The largest valid total so far. */
  function Peak(ts: seq<Turn>): (r: nat) {
    if ts == [] then 0 else
    var n := |ts| - 1;
    Max(Peak(ts[..n]), if ts[n].sample.valid then ts[n].sample.Total() else 0)
  }

  /** The peak is the total of some valid sample, and of none less; or there is no
      valid sample with a total, and it is zero. */
  lemma {:induction false} PeakIsLargest(ts: seq<Turn>)
    ensures forall i :: 0 <= i < |ts| && ts[i].sample.valid ==> ts[i].sample.Total() <= Peak(ts)
    ensures Peak(ts) > 0 ==> exists i :: 0 <= i < |ts| && ts[i].sample.valid && ts[i].sample.Total() == Peak(ts)
  {
    if ts != [] {
      var n := |ts| - 1;
      PeakIsLargest(ts[..n]);
      if Peak(ts) > 0 && Peak(ts) == Peak(ts[..n]) {
        var i :| 0 <= i < |ts[..n]| && ts[..n][i].sample.valid && ts[..n][i].sample.Total() == Peak(ts[..n]);
        assert ts[i].sample.Total() == Peak(ts);
      }
    }
  }

  /** The first valid sample that reached it. */
  function PeakSample(ts: seq<Turn>): (r: Sample)
    ensures r.Total() == Peak(ts)
  {
    if ts == [] then NO_SAMPLE else
    var n := |ts| - 1;
    if ts[n].sample.valid && Peak(ts[..n]) < ts[n].sample.Total() then ts[n].sample else PeakSample(ts[..n])
  }

  /** The callbacks of a run, and the threshold it is left with. */
  datatype Snapshots = Snapshots(calls: seq<Call>, threshold: nat)

  function SnapshotsAfter(c: Config, ts: seq<Turn>): (r: Snapshots) {
    if ts == [] then Snapshots([], c.floor) else
    var n := |ts| - 1;
    Snap(c, SnapshotsAfter(c, ts[..n]), Peak(ts[..n]), ts[n])
  }

  function Snap(c: Config, before: Snapshots, peak: nat, t: Turn): (r: Snapshots) {
    if t.sample.valid && peak < t.sample.Total() && c.hasCallback && before.threshold < t.sample.Total() then
      Snapshots(before.calls + [Call(t.sample.Total(), t.retains)],
                if !c.oneShot then NextPeakThreshold(t.sample.Total(), c.step)
                else if t.retains then SIZE_MAX else before.threshold)
    else before
  }

  /** The total of the last snapshot. */
  function LastTotal(calls: seq<Call>): (r: Option<nat>) {
    if calls == [] then None else Some(calls[|calls| - 1].total)
  }

  /** While chasing, the peak never gets past the threshold the last snapshot set. */
  lemma {:induction false} ChaseNeverLags(c: Config, ts: seq<Turn>)
    requires c.hasCallback && !c.oneShot
    ensures var s := SnapshotsAfter(c, ts);
            var last := LastTotal(s.calls);
            && s.threshold == (if last.None? then c.floor else NextPeakThreshold(last.value, c.step))
            && Peak(ts) <= s.threshold
            && (last.Some? ==> last.value <= Peak(ts))
  {
    if ts != [] {
      ChaseNeverLags(c, ts[..|ts| - 1]);
    }
  }

  /** So the last snapshot is short of the peak by a bounded amount. */
  lemma {:induction false} LagIsBounded(c: Config, ts: seq<Turn>)
    requires c.hasCallback && !c.oneShot
    ensures var last := LastTotal(SnapshotsAfter(c, ts).calls);
            && (last.None? ==> Peak(ts) <= c.floor)
            && (last.Some? && c.step == 0 ==> Peak(ts) == last.value)
            && (last.Some? && c.step > 0 ==>
                  last.value <= Peak(ts) <= last.value + Max(MIN_PEAK_STEP, Min(last.value / 4, c.step)))
  {
    hide SnapshotsAfter, Peak;
    ChaseNeverLags(c, ts);
  }

  /** Nor are snapshots refreshed more often than the step allows: each is past the
      threshold its predecessor set. */
  lemma {:induction false} SnapshotsAreSpaced(c: Config, ts: seq<Turn>, i: nat)
    requires c.hasCallback && !c.oneShot && c.step > 0 && i + 1 < |SnapshotsAfter(c, ts).calls|
    ensures var calls := SnapshotsAfter(c, ts).calls;
            calls[i].total + Max(MIN_PEAK_STEP, Min(calls[i].total / 4, c.step)) < calls[i + 1].total
  {
    var n := |ts| - 1;
    ChaseNeverLags(c, ts[..n]);
    var before := SnapshotsAfter(c, ts[..n]).calls;
    if i + 1 < |before| {
      SnapshotsAreSpaced(c, ts[..n], i);
    }
  }

  /** In a one-shot run nothing follows a retained callback. */
  ghost predicate OneRetained(s: Snapshots, floor: nat) {
    && (forall i :: 0 <= i < |s.calls| && s.calls[i].retained ==> i == |s.calls| - 1)
    && s.threshold == if s.calls != [] && s.calls[|s.calls| - 1].retained then SIZE_MAX else floor
  }

  ghost predicate Rising(s: Snapshots, floor: nat, peak: nat) {
    && floor <= s.threshold
    && (forall i :: 0 <= i < |s.calls| ==> floor < s.calls[i].total <= peak)
    && (forall i, j :: 0 <= i < j < |s.calls| ==> s.calls[i].total < s.calls[j].total)
  }

  /** Snapshots are taken at ever larger totals, all above the floor, and a one-shot
      run asks for none after one was retained. */
  lemma {:induction false} CallsRise(c: Config, ts: seq<Turn>)
    requires c.floor <= SIZE_MAX && AllFit(ts)
    ensures Rising(SnapshotsAfter(c, ts), c.floor, Peak(ts))
    ensures !c.hasCallback ==> SnapshotsAfter(c, ts).calls == []
    ensures c.oneShot ==> OneRetained(SnapshotsAfter(c, ts), c.floor)
  {
    if ts != [] {
      assert Fits(ts[|ts| - 1]);
      CallsRise(c, ts[..|ts| - 1]);
    }
  }

  // ---------- The thread ----------

  /** What the thread meets: the n-th reading of the monotonic clock, how often the
      running flag is still seen set before Stop() clears it, the n-th sample and
      what the callback says of it; both depend on when they are asked for, that
      is, on how many times the clock has been read by then. */
  datatype World = World(clock: nat -> nat, stopAt: nat, sample: (nat, nat) -> Sample, retains: (nat, nat) -> bool)

  ghost predicate Steady(w: World) {
    && (forall i: nat, j: nat :: i <= j ==> w.clock(i) <= w.clock(j))
    && (forall i: nat, at: nat :: w.sample(i, at).Total() <= SIZE_MAX)
  }

  /** How often the clock has been read and the flag loaded. */
  datatype Mark = Mark(ticks: nat, loads: nat)

  /** Turn `i`, from `b` to `e`: the first reading is its begin and the last its end,
      the sample is read right after the first, the callback asked right after the
      second. */
  ghost predicate Witnessed(w: World, i: nat, t: Turn, b: Mark, e: Mark) {
    && b.ticks + 3 <= e.ticks <= b.ticks + 4 && e.loads == b.loads
    && t.timing == Timing(w.clock(b.ticks), w.clock(e.ticks - 1))
    && t.sample == w.sample(i, b.ticks + 1) && t.retains == w.retains(i, b.ticks + 2)
  }

  /** The thread slept from `e` to `b`: the last reading is the first one at or past
      the deadline, and the flag was seen set before each and after the last. */
  ghost predicate Resumes(w: World, deadline: nat, e: Mark, b: Mark) {
    && e.ticks < b.ticks && b.loads == e.loads + (b.ticks - e.ticks) + 1 && b.loads <= w.stopAt
    && deadline <= w.clock(b.ticks - 1)
    && forall n :: e.ticks <= n < b.ticks - 1 ==> w.clock(n) < deadline
  }

  /** The clock reaches the deadline before Stop() is seen. */
  ghost predicate Due(w: World, deadline: nat, e: Mark) {
    exists n: nat :: e.ticks <= n && deadline <= w.clock(n) && e.loads + (n - e.ticks) + 2 <= w.stopAt
  }

  lemma {:induction false} ResumesIsDue(w: World, deadline: nat, e: Mark, b: Mark)
    requires Resumes(w, deadline, e, b)
    ensures Due(w, deadline, e)
  {
    var n := b.ticks - 1;
    assert deadline <= w.clock(n);
  }

  /** Sleeping past every reading made, with no load left, means it was not due. */
  lemma {:induction false} NotDue(w: World, deadline: nat, e: Mark, upto: nat)
    requires e.ticks <= upto && (forall n :: e.ticks <= n < upto ==> w.clock(n) < deadline)
    requires w.stopAt < e.loads + (upto - e.ticks) + 2
    ensures !Due(w, deadline, e)
  {
    }

  /** The deadline after the first `i` turns. */
  ghost function DeadlineAt(c: Config, start: nat, turns: seq<Turn>, i: nat): nat {
    if i <= |turns| && AllFit(turns[..i]) then DeadlineAfter(start, c.interval, Timings(turns[..i])) else 0
  }

  ghost predicate ToldAt(c: Config, w: World, start: nat, turns: seq<Turn>, begins: seq<Mark>, ends: seq<Mark>, i: nat)
    requires i < |turns| == |begins| == |ends|
  {
    && Witnessed(w, i, turns[i], begins[i], ends[i])
    && (if i == 0 then begins[i] == Mark(1, 1)
        else Resumes(w, DeadlineAt(c, start, turns, i), ends[i - 1], begins[i]))
  }

  /** The turns are what the clock, the samples and the callback made them, one
      after the other from the first reading on. */
  ghost predicate Told(c: Config, w: World, start: nat, turns: seq<Turn>, begins: seq<Mark>, ends: seq<Mark>) {
    && |turns| == |begins| == |ends| && start == w.clock(0)
    && forall i :: 0 <= i < |turns| ==> ToldAt(c, w, start, turns, begins, ends, i)
  }

  /** Where the next turn would begin. */
  ghost predicate NextAt(c: Config, w: World, start: nat, turns: seq<Turn>, ends: seq<Mark>, b: Mark)
    requires |turns| == |ends|
  {
    if turns == [] then b == Mark(1, 1) && b.loads <= w.stopAt
    else Resumes(w, DeadlineAt(c, start, turns, |turns|), ends[|ends| - 1], b)
  }

  lemma {:induction false} NothingTold(c: Config, w: World, start: nat, turns: seq<Turn>, b: seq<Mark>, e: seq<Mark>)
    requires |turns| == |b| == |e| == 0 && start == w.clock(0)
    ensures Told(c, w, start, turns, b, e)
  {
  }

  lemma {:induction false} ToldMore(c: Config, w: World, start: nat, turns: seq<Turn>, begins: seq<Mark>,
                                    ends: seq<Mark>, t: Turn, b: Mark, e: Mark)
    requires Told(c, w, start, turns, begins, ends) && NextAt(c, w, start, turns, ends, b)
    requires Witnessed(w, |turns|, t, b, e)
    ensures Told(c, w, start, turns + [t], begins + [b], ends + [e])
  {
    hide Witnessed, Resumes, DeadlineAfter, Timings, AllFit;
    var turns', begins', ends' := turns + [t], begins + [b], ends + [e];
    forall i | 0 <= i < |turns'| ensures ToldAt(c, w, start, turns', begins', ends', i) {
      assert turns'[..i] == turns[..i];
      if i < |turns| {
        assert ToldAt(c, w, start, turns, begins, ends, i);
      }
    }
  }

  /** Another sample is taken exactly when the clock reached the deadline before the
      stop was seen. */
  ghost predicate AsManyAsDue(c: Config, w: World, start: nat, turns: seq<Turn>, ends: seq<Mark>)
    requires |turns| == |ends|
  {
    && (turns != [] <==> 0 < w.stopAt)
    && forall i :: 0 <= i < |turns| ==> (i + 1 < |turns| <==> Due(w, DeadlineAt(c, start, turns, i + 1), ends[i]))
  }

  lemma {:induction false} ToldIsDue(c: Config, w: World, start: nat, turns: seq<Turn>, begins: seq<Mark>,
                                     ends: seq<Mark>)
    requires Told(c, w, start, turns, begins, ends) && (turns != [] <==> 0 < w.stopAt)
    requires turns != [] ==> !Due(w, DeadlineAt(c, start, turns, |turns|), ends[|ends| - 1])
    ensures AsManyAsDue(c, w, start, turns, ends)
  {
    hide Witnessed, Resumes, DeadlineAt, Due;
    forall i | 0 <= i < |turns|
      ensures i + 1 < |turns| <==> Due(w, DeadlineAt(c, start, turns, i + 1), ends[i])
    {
      if i + 1 < |turns| {
        assert ToldAt(c, w, start, turns, begins, ends, i + 1);
        ResumesIsDue(w, DeadlineAt(c, start, turns, i + 1), ends[i], begins[i + 1]);
      }
    }
  }

  function Timings(turns: seq<Turn>): (r: seq<Timing>)
    requires AllFit(turns)
    ensures |r| == |turns| && Clocked(r) && forall i :: 0 <= i < |r| ==> r[i] == turns[i].timing
  {
    seq(|turns|, i requires 0 <= i < |turns| => turns[i].timing)
  }

  lemma {:induction false} NoTurns(c: Config, ts: seq<Turn>)
    requires |ts| == 0
    ensures SnapshotsAfter(c, ts) == Snapshots([], c.floor) && Peak(ts) == 0 && PeakSample(ts) == NO_SAMPLE
  {
  }

  lemma {:induction false} NoneFit(ts: seq<Turn>)
    requires |ts| == 0
    ensures AllFit(ts)
  {
  }

  lemma {:induction false} NoDeadlines(start: nat, interval: nat, ts: seq<Timing>)
    requires |ts| == 0
    ensures DeadlineAfter(start, interval, ts) == start && Paced(start, interval, ts)
    ensures SkippedAfter(start, interval, ts) == 0 && ThrottledAfter(start, interval, ts) == 0
  {
    hide NextSampleSchedule;
  }

  lemma {:induction false} OneTurn(c: Config, before: seq<Turn>, t: Turn)
    requires AllFit(before) && Fits(t)
    ensures var after := before + [t];
            && AllFit(after)
            && SnapshotsAfter(c, after) == Snap(c, SnapshotsAfter(c, before), Peak(before), t)
            && Peak(after) == Max(Peak(before), if t.sample.valid then t.sample.Total() else 0)
            && PeakSample(after) ==
                 (if t.sample.valid && Peak(before) < t.sample.Total() then t.sample else PeakSample(before))
            && Timings(after) == Timings(before) + [t.timing]
  {
    assert (before + [t])[..|before|] == before;
  }

  lemma {:induction false} OneDeadline(start: nat, interval: nat, ts: seq<Timing>, t: Timing)
    requires Clocked(ts) && t.begin <= t.done
    ensures var r := NextSampleSchedule(DeadlineAfter(start, interval, ts), t.done, t.done - t.begin, interval);
            var after := ts + [t];
            && Clocked(after) && DeadlineAfter(start, interval, after) == r.deadline
            && SkippedAfter(start, interval, after) == SkippedAfter(start, interval, ts) + r.skipped
            && ThrottledAfter(start, interval, after) ==
                 ThrottledAfter(start, interval, ts) + if r.throttled then 1 else 0
  {
    hide NextSampleSchedule;
    assert (ts + [t])[..|ts|] == ts;
  }

  lemma {:induction false} PacedMore(start: nat, interval: nat, ts: seq<Timing>, t: Timing)
    requires Paced(start, interval, ts) && t.begin <= t.done && DeadlineAfter(start, interval, ts) <= t.begin
    ensures Paced(start, interval, ts + [t])
  {
    hide NextSampleSchedule, DeadlineAfter;
    var after := ts + [t];
    assert after[..|ts|] == ts;
    assert forall i :: 0 <= i < |ts| ==> after[..i] == ts[..i];
  }

  datatype Counters = Counters(samples: nat, snapshots: nat, peakTotal: nat, peakSample: Sample,
                               deadline: nat, skipped: nat, throttled: nat)

  /** What a run of `turns`, anchored at `start`, leaves behind. */
  ghost predicate Tracked(c: Config, start: nat, turns: seq<Turn>, calls: seq<Call>, threshold: nat, n: Counters) {
    && AllFit(turns) && n.samples == |turns| && n.snapshots == |calls|
    && SnapshotsAfter(c, turns) == Snapshots(calls, threshold)
    && n.peakTotal == Peak(turns) && n.peakSample == PeakSample(turns)
    && var ts := Timings(turns);
    && Paced(start, c.interval, ts)
    && n.deadline == DeadlineAfter(start, c.interval, ts)
    && n.skipped == SkippedAfter(start, c.interval, ts)
    && n.throttled == ThrottledAfter(start, c.interval, ts)
  }

  lemma {:induction false} NothingTracked(c: Config, start: nat, turns: seq<Turn>, calls: seq<Call>)
    requires |turns| == 0 && |calls| == 0
    ensures Tracked(c, start, turns, calls, c.floor, Counters(0, 0, 0, NO_SAMPLE, start, 0, 0))
  {
    hide NextSampleSchedule, NextPeakThreshold, Snap;
    NoTurns(c, turns);
    NoneFit(turns);
    NoDeadlines(start, c.interval, Timings(turns));
  }

  class ObservedPeakSampler {
    const config: Config
    const world: World
    var clockReads: nat
    var flagLoads: nat
    var deadline: nat
    var skipped: nat
    var throttled: nat
    var samples: nat
    var snapshots: nat
    var peakTotal: nat
    var peakSample: Sample
    ghost var latest: nat

    /** The latest clock reading is not after any reading to come. */
    ghost predicate Valid()
      reads this
    {
      Steady(world) && forall n: nat :: clockReads <= n ==> latest <= world.clock(n)
    }

    constructor (config: Config, world: World)
      requires Steady(world)
      ensures Valid() && this.config == config && this.world == world && flagLoads == 0 && clockReads == 0
      ensures skipped == 0 && throttled == 0 && samples == 0 && snapshots == 0
      ensures peakTotal == 0 && peakSample == NO_SAMPLE
    {
      this.config, this.world := config, world;
      clockReads, flagLoads, latest, deadline, skipped, throttled, samples, snapshots := 0, 0, 0, 0, 0, 0, 0, 0;
      peakTotal, peakSample := 0, NO_SAMPLE;
    }

    method Now() returns (t: nat)
      requires Valid()
      modifies this`clockReads, this`latest
      ensures Valid() && old(latest) <= latest == t
      ensures clockReads == old(clockReads) + 1 && t == world.clock(old(clockReads))
    {
      t := world.clock(clockReads);
      clockReads, latest := clockReads + 1, t;
    }

    method Running() returns (running: bool)
      modifies this`flagLoads
      ensures flagLoads == old(flagLoads) + 1 && running == (flagLoads <= world.stopAt)
    {
      running := flagLoads < world.stopAt;
      flagLoads := flagLoads + 1;
    }

    ghost function Here(): Mark
      reads this
    {
      Mark(clockReads, flagLoads)
    }

    /** Sleeps in slices until the clock has reached the deadline, which ends it at
        once, or Stop() is seen. */
    method Wait()
      requires Valid()
      modifies this`clockReads, this`latest, this`flagLoads
      ensures Valid() && old(latest) <= latest && old(flagLoads) < flagLoads && old(clockReads) <= clockReads
      ensures forall n :: old(clockReads) <= n < clockReads - 1 ==> world.clock(n) < deadline
      ensures if clockReads > old(clockReads) && deadline <= world.clock(clockReads - 1)
              then flagLoads - old(flagLoads) == clockReads - old(clockReads) && flagLoads <= world.stopAt
                   && deadline <= latest
              else flagLoads - old(flagLoads) == clockReads - old(clockReads) + 1 && world.stopAt < flagLoads
    {
      var running := Running();
      while running
        invariant Valid() && old(latest) <= latest && old(flagLoads) < flagLoads && old(clockReads) <= clockReads
        invariant running == (flagLoads <= world.stopAt)
        invariant flagLoads - old(flagLoads) == clockReads - old(clockReads) + 1
        invariant forall n :: old(clockReads) <= n < clockReads ==> world.clock(n) < deadline
        decreases world.stopAt - flagLoads
      {
        var now := Now();
        if now >= deadline {
          return;
        }
        running := Running();
      }
    }

    /** Records a sample; a new peak past the threshold asks for a snapshot. */
    method Record(turn: Turn, threshold0: nat, calls0: seq<Call>) returns (threshold: nat, calls: seq<Call>)
      requires snapshots == |calls0|
      modifies this`peakTotal, this`peakSample, this`snapshots
      ensures Snapshots(calls, threshold) == Snap(config, Snapshots(calls0, threshold0), old(peakTotal), turn)
      ensures snapshots == |calls| && |calls0| <= |calls| <= |calls0| + 1
      ensures peakTotal == Max(old(peakTotal), if turn.sample.valid then turn.sample.Total() else 0)
      ensures peakSample == if turn.sample.valid && old(peakTotal) < turn.sample.Total() then turn.sample
                else old(peakSample)
    {
      threshold, calls := threshold0, calls0;
      if turn.sample.valid {
        var total := turn.sample.Total();
        if total > peakTotal {
          peakTotal, peakSample := total, turn.sample;
          if config.hasCallback && total > threshold {
            snapshots := snapshots + 1;
            calls := calls + [Call(total, turn.retains)];
            if config.oneShot {
              if turn.retains {
                threshold := SIZE_MAX;
              }
            } else {
              threshold := NextPeakThreshold(total, config.step);
            }
          }
        }
      }
    }

    /** The counters are those of the turns taken. */
    ghost predicate Tracks(start: nat, turns: seq<Turn>, calls: seq<Call>, threshold: nat)
      reads this
    {
      Tracked(config, start, turns, calls, threshold,
              Counters(samples, snapshots, peakTotal, peakSample, deadline, skipped, throttled))
    }

    /** Reads a sample between two looks at the clock, and what the callback would say. */
    method Measure() returns (timing: Timing, sample: Sample, retains: bool)
      requires Valid()
      modifies this`clockReads, this`latest, this`samples
      ensures Valid() && old(latest) <= timing.begin <= timing.done == latest
      ensures timing == Timing(world.clock(old(clockReads)), world.clock(old(clockReads) + 1))
      ensures clockReads == old(clockReads) + 2 && samples == old(samples) + 1
      ensures sample == world.sample(old(samples), old(clockReads) + 1) && sample.Total() <= SIZE_MAX
      ensures retains == world.retains(old(samples), old(clockReads) + 2)
    {
      hide Steady;
      var begin := Now();
      sample := world.sample(samples, clockReads);
      SamplesFit(world, samples, clockReads);
      var readDone := Now();
      samples := samples + 1;
      retains := world.retains(samples - 1, clockReads);
      timing := Timing(begin, readDone);
    }

    /** When the work is done: after a look at the clock for the snapshot, if there was one. */
    method WorkDone(snapshot: bool) returns (done: nat)
      requires Valid()
      modifies this`clockReads, this`latest
      ensures Valid() && old(latest) <= done == latest
      ensures clockReads == old(clockReads) + (if snapshot then 2 else 1) && done == world.clock(clockReads - 1)
    {
      hide Steady;
      if snapshot {
        var snapshotDone := Now();
      }
      done := Now();
    }

    method Reschedule(timing: Timing)
      requires timing.begin <= timing.done
      modifies this`deadline, this`skipped, this`throttled
      ensures var r := NextSampleSchedule(old(deadline), timing.done, timing.done - timing.begin, config.interval);
              && deadline == r.deadline && skipped == old(skipped) + r.skipped
              && throttled == old(throttled) + if r.throttled then 1 else 0
    {
      hide NextSampleSchedule;
      var schedule := NextSampleSchedule(deadline, timing.done, timing.done - timing.begin, config.interval);
      deadline, skipped := schedule.deadline, skipped + schedule.skipped;
      if schedule.throttled {
        throttled := throttled + 1;
      }
    }

    /** One sample: read, recorded, and the next one scheduled. */
    method TakeSample(ghost start: nat, ghost turns0: seq<Turn>, threshold0: nat, calls0: seq<Call>)
      returns (turn: Turn, threshold: nat, calls: seq<Call>)
      requires Valid() && Tracks(start, turns0, calls0, threshold0) && deadline <= latest
      modifies this
      ensures Valid() && Tracks(start, turns0 + [turn], calls, threshold)
      ensures Witnessed(world, old(samples), turn, old(Here()), Here()) && flagLoads == old(flagLoads)
      ensures clockReads == old(clockReads) + 3 + |calls| - |calls0| && |calls0| <= |calls| <= |calls0| + 1
    {
      hide Snap, SnapshotsAfter, Peak, PeakSample, Timings, Paced, DeadlineAfter, SkippedAfter, ThrottledAfter;
      hide NextSampleSchedule, NextPeakThreshold, AllFit, Fits, Clocked, Max, Steady, HalfTime;
      var timing, sample, retains := Measure();
      ghost var readDone := timing.done;
      threshold, calls := Record(Turn(timing, sample, retains), threshold0, calls0);
      var done := WorkDone(|calls| != |calls0|);
      turn := Turn(Timing(timing.begin, done), sample, retains);
      SnapIgnoresTiming(config, Snapshots(calls0, threshold0), Peak(turns0), turn, readDone);
      FitsIs(turn);
      OneTurn(config, turns0, turn);
      OneDeadline(start, config.interval, Timings(turns0), turn.timing);
      PacedMore(start, config.interval, Timings(turns0), turn.timing);
      Reschedule(turn.timing);
    }

    /** Anchors the grid at the first clock reading, and looks at the flag. */
    method Anchor(turns: seq<Turn>, calls: seq<Call>) returns (ghost start: nat, running: bool)
      requires Valid() && |turns| == 0 && |calls| == 0 && peakTotal == 0 && peakSample == NO_SAMPLE
      requires skipped == 0 && throttled == 0 && samples == 0 && snapshots == 0
      modifies this`clockReads, this`latest, this`deadline, this`flagLoads
      ensures start == world.clock(old(clockReads))
      ensures Here() == Mark(old(clockReads) + 1, old(flagLoads) + 1)
      ensures running == (flagLoads <= world.stopAt)
      ensures Valid() && Tracks(start, turns, calls, config.floor) && deadline <= latest
    {
      hide Tracked, Steady;
      deadline := Now();
      start := deadline;
      NothingTracked(config, start, turns, calls);
      running := Running();
    }

    /** The thread, until Stop() is seen. */
    method Run() returns (ghost start: nat, turns: seq<Turn>, calls: seq<Call>, ghost begins: seq<Mark>,
                          ghost ends: seq<Mark>)
      requires Valid() && flagLoads == 0 && clockReads == 0
      requires skipped == 0 && throttled == 0 && samples == 0 && snapshots == 0
      requires peakTotal == 0 && peakSample == NO_SAMPLE
      modifies this
      ensures Valid() && world.stopAt < flagLoads
      ensures exists threshold :: Tracks(start, turns, calls, threshold)
      ensures Told(config, world, start, turns, begins, ends) && AsManyAsDue(config, world, start, turns, ends)
      ensures config.interval > 0 ==> AllFit(turns) && HalfTime(Timings(turns))
    {
      hide *;
      turns, calls, begins, ends := [], [], [], [];
      var threshold, running := config.floor, true;
      start, running := Anchor(turns, calls);
      NothingTold(config, world, start, turns, begins, ends);
      StartsAt(start, turns, ends, running);
      while running
        invariant Valid() && Tracks(start, turns, calls, threshold)
        invariant Told(config, world, start, turns, begins, ends) && |turns| == |begins| == |ends|
        invariant turns != [] || running ==> 0 < world.stopAt
        invariant turns == [] && !running ==> world.stopAt == 0
        invariant running == (flagLoads <= world.stopAt)
        invariant running ==> deadline <= latest && NextAt(config, world, start, turns, ends, Here())
        invariant !running && turns != [] ==>
                    !Due(world, DeadlineAt(config, start, turns, |turns|), ends[|ends| - 1])
        decreases world.stopAt - flagLoads
      {
        var turn;
        ghost var b := Here();
        TracksSize(start, turns, calls, threshold);
        turn, threshold, calls := TakeSample(start, turns, threshold, calls);
        ghost var e := Here();
        ToldMore(config, world, start, turns, begins, ends, turn, b, e);
        turns, begins, ends := turns + [turn], begins + [b], ends + [e];
        running := WaitAndAsk(start, turns, calls, threshold, ends);
      }
      ToldIsDue(config, world, start, turns, begins, ends);
      HalfOfTracked(start, turns, calls, threshold);
    }

    lemma StartsAt(start: nat, turns: seq<Turn>, ends: seq<Mark>, running: bool)
      requires |turns| == |ends| == 0 && Here() == Mark(1, 1) && running == (flagLoads <= world.stopAt)
      ensures running ==> NextAt(config, world, start, turns, ends, Here())
      ensures running <==> 0 < world.stopAt
    {
    }

    /** The wait, and the outer loop's look at the flag. */
    method WaitAndAsk(ghost start: nat, ghost turns: seq<Turn>, ghost calls: seq<Call>, ghost threshold: nat,
                      ghost ends: seq<Mark>)
      returns (running: bool)
      requires Valid() && Tracks(start, turns, calls, threshold)
      requires |turns| == |ends| > 0 && ends[|ends| - 1] == Here()
      modifies this`clockReads, this`latest, this`flagLoads
      ensures Valid() && Tracks(start, turns, calls, threshold)
      ensures old(flagLoads) < flagLoads && running == (flagLoads <= world.stopAt) && (running ==> deadline <= latest)
      ensures running ==> NextAt(config, world, start, turns, ends, Here())
      ensures !running ==> !Due(world, DeadlineAt(config, start, turns, |turns|), ends[|ends| - 1])
    {
      hide Tracked, Steady, DeadlineAt, Due;
      DeadlineIs(start, turns, calls, threshold);
      ghost var e := Here();
      Wait();
      ghost var woke := clockReads > e.ticks && deadline <= world.clock(clockReads - 1);
      running := Running();
      if !running {
        NotDue(world, deadline, e, if woke then clockReads - 1 else clockReads);
      }
    }

    lemma DeadlineIs(start: nat, turns: seq<Turn>, calls: seq<Call>, threshold: nat)
      requires Tracks(start, turns, calls, threshold)
      ensures deadline == DeadlineAt(config, start, turns, |turns|)
    {
      hide SnapshotsAfter, Peak, PeakSample, Paced, DeadlineAfter, SkippedAfter, ThrottledAfter;
      assert turns[..|turns|] == turns;
    }

    lemma HalfOfTracked(start: nat, turns: seq<Turn>, calls: seq<Call>, threshold: nat)
      requires Tracks(start, turns, calls, threshold)
      ensures config.interval > 0 ==> AllFit(turns) && HalfTime(Timings(turns))
    {
      hide Snap, SnapshotsAfter, Peak, PeakSample, Timings, Paced, DeadlineAfter, SkippedAfter, ThrottledAfter,
             HalfTime;
      if config.interval > 0 {
        HalfOfRun(start, config.interval, Timings(turns));
      }
    }

    lemma TracksSize(start: nat, turns: seq<Turn>, calls: seq<Call>, threshold: nat)
      requires Tracks(start, turns, calls, threshold)
      ensures samples == |turns|
    {
    }
  }

  /** At the start of every sample at most half of the time since the first went
      into sampling. */
  ghost predicate HalfTime(ts: seq<Timing>) {
    forall n :: 0 <= n < |ts| ==> Clocked(ts[..n]) && ts[0].begin + 2 * Work(ts[..n]) <= ts[n].begin
  }

  lemma {:induction false} HalfOfRun(start: nat, interval: nat, ts: seq<Timing>)
    requires interval > 0 && Paced(start, interval, ts)
    ensures HalfTime(ts)
  {
    hide Paced;
    forall n | 0 <= n < |ts| ensures Clocked(ts[..n]) && ts[0].begin + 2 * Work(ts[..n]) <= ts[n].begin {
      HalfAtMost(start, interval, ts, n);
    }
  }

  lemma {:induction false} SamplesFit(w: World, n: nat, at: nat)
    requires Steady(w)
    ensures w.sample(n, at).Total() <= SIZE_MAX
  {
  }

  lemma {:induction false} FitsIs(t: Turn)
    ensures Fits(t) <==> t.timing.begin <= t.timing.done && t.sample.Total() <= SIZE_MAX
  {
  }

  lemma {:induction false} SnapIgnoresTiming(c: Config, before: Snapshots, peak: nat, t: Turn, done: nat)
    ensures Snap(c, before, peak, t) == Snap(c, before, peak, t.(timing := t.timing.(done := done)))
  {
  }
}
