/** The unwinder's row cache (DwarfSection::Step in unwindstack/DwarfSection.cpp).
    Rows are kept by the address they end at and answer later lookups without
    running any call frame program. */
module RowCache {
  import opened Wrappers
  import opened OrderedMap
  import opened CfaProgram
  import FdeIndex

  datatype Cie = Cie(codeAlign: nat, dataAlign: int, program: seq<Instr>)

  /** A section as parsed: FDEs in section order, each with its program, and the
      CIEs by offset. */
  datatype Section = Section(fdes: seq<FdeIndex.Located>, programs: map<nat, seq<Instr>>,
                             cies: map<nat, Cie>, isArm64: bool, addresses: nat)
  {
    predicate Valid() {
      && (addresses == TWO_32 || addresses == TWO_64)
      && forall i :: 0 <= i < |fdes| ==> fdes[i].offset in programs
    }

    function MachineOf(cie: Cie): (m: Machine)
      requires Valid()
      ensures m.Valid()
    {
      Machine(cie.codeAlign, cie.dataAlign, isArm64, addresses)
    }
  }

  datatype Row = Row(locs: Locations, cieOffset: nat)

  datatype Cache = Cache(rows: map<nat, Row>, cies: map<nat, Rules>)

  const EMPTY := Cache(map[], map[])

  /** The FDE that describes `pc`, if it and its CIE are there. */
  function Find(sec: Section, pc: nat): (f: Option<FdeIndex.Located>)
    requires sec.Valid()
    ensures f.Some? ==> f.value.offset in sec.programs && f.value.fde.cieOffset in sec.cies
  {
    FdeIndex.FirstCoveringIsFirst(sec.fdes, pc);
    match FdeIndex.FirstCovering(sec.fdes, pc)
    case None => None
    case Some(f) => if f.fde.cieOffset in sec.cies then Some(f) else None
  }

  /** Runs a CIE's program, or an FDE's, on top of what was computed before. */
  function RunProgram(sec: Section, f: FdeIndex.Located, pc: nat, prog: seq<Instr>, locs: Locations,
                      stack: seq<Locations>, cie: Option<Rules>): Option<State>
    requires sec.Valid() && f.fde.cieOffset in sec.cies
  {
    var start := f.fde.pcStart % sec.addresses;
    var rules := if cie.Some? then locs.rules + cie.value else locs.rules;
    Run(prog, State(start, locs.(rules := rules, pcStart := start), stack), pc, f.fde.pcEnd,
        sec.MachineOf(sec.cies[f.fde.cieOffset]), cie)
  }

  const NO_ROW := Locations(map[], 0, 0)

  /** GetCfaLocationInfo: the CIE's rules come from the cache or from running
      its program, which leaves remembered rows behind for the FDE's program. */
  function LocationInfo(sec: Section, cies: map<nat, Rules>, f: FdeIndex.Located, pc: nat)
    : (r: (map<nat, Rules>, Option<Locations>))
    requires sec.Valid() && f.fde.cieOffset in sec.cies && f.offset in sec.programs
  {
    var o := f.fde.cieOffset;
    if o in cies then
      match RunProgram(sec, f, pc, sec.programs[f.offset], NO_ROW, [], Some(cies[o]))
      case None => (cies, None)
      case Some(s) => (cies, Some(s.locs))
    else
      match RunProgram(sec, f, pc, sec.cies[o].program, NO_ROW, [], None)
      case None => (cies, None)
      case Some(c) =>
        match RunProgram(sec, f, pc, sec.programs[f.offset], c.locs, c.stack, Some(c.locs.rules))
        case None => (cies[o := c.locs.rules], None)
        case Some(s) => (cies[o := c.locs.rules], Some(s.locs))
  }

  /** The reference: run the CIE's and the FDE's programs, caching nothing. */
  function Fresh(sec: Section, pc: nat): Option<Row>
    requires sec.Valid()
  {
    match Find(sec, pc)
    case None => None
    case Some(f) =>
      match LocationInfo(sec, map[], f, pc).1
      case None => None
      case Some(locs) => Some(Row(locs, f.fde.cieOffset))
  }

  predicate Hit(c: Cache, pc: nat) {
    var k := UpperBound(c.rows, pc);
    k.Some? && c.rows[k.value].locs.pcStart <= pc
  }

  function Insert(rows: map<nat, Row>, row: Row): map<nat, Row> {
    if row.locs.pcEnd in rows then rows else rows[row.locs.pcEnd := row]
  }

  /** The lookup half of Step: the new cache and the row that is evaluated. A
      row that is computed is answered by whatever its key holds afterwards. */
  function Lookup(sec: Section, c: Cache, pc: nat): (r: (Cache, Option<Row>))
    requires sec.Valid()
  {
    if Hit(c, pc) then (c, Some(c.rows[UpperBound(c.rows, pc).value]))
    else
      match Find(sec, pc)
      case None => (c, None)
      case Some(f) =>
        var (cies, locs) := LocationInfo(sec, c.cies, f, pc);
        match locs
        case None => (Cache(c.rows, cies), None)
        case Some(l) =>
          var rows := Insert(c.rows, Row(l, f.fde.cieOffset));
          (Cache(rows, cies), Some(rows[l.pcEnd]))
  }

  function After(sec: Section, history: seq<nat>): Cache
    requires sec.Valid()
  {
    if history == [] then EMPTY
    else Lookup(sec, After(sec, history[..|history| - 1]), history[|history| - 1]).0
  }

  /** Same failure, or same register rules under the same CIE. */
  predicate SameAnswer(a: Option<Row>, b: Option<Row>) {
    && a.Some? == b.Some?
    && (a.Some? ==> a.value.locs.rules == b.value.locs.rules && a.value.cieOffset == b.value.cieOffset)
  }

  /** After any lookups whatever, a lookup answers as running afresh does. */
  ghost predicate Transparent(sec: Section)
    requires sec.Valid()
  {
    forall history, pc :: SameAnswer(Lookup(sec, After(sec, history), pc).1, Fresh(sec, pc))
  }

  // ---------- The CIE cache ----------

  /** Programs that only set rules: no moves, no remembering. */
  predicate RuleOnly(prog: seq<Instr>) {
    forall i :: 0 <= i < |prog| ==>
      !prog[i].SetLoc? && !prog[i].AdvanceLoc? && !prog[i].RememberState? && !prog[i].RestoreState?
  }

  predicate RuleOnlyCies(sec: Section) {
    forall o :: o in sec.cies ==> RuleOnly(sec.cies[o].program)
  }

  function RulesOf(prog: seq<Instr>, rules: Rules, m: Machine): Option<Rules>
    requires m.Valid()
  {
    if prog == [] then Some(rules)
    else
      match ExecRule(prog[0], rules, m, None)
      case None => None
      case Some(r) => RulesOf(prog[1..], r, m)
  }

  /** A rule-only program reaches the same rules whatever address it is run for. */
  lemma {:induction false} RuleOnlyRun(prog: seq<Instr>, s: State, pc: nat, end: nat, m: Machine)
    requires m.Valid() && RuleOnly(prog) && s.curPc <= pc
    ensures var r := Run(prog, s, pc, end, m, None);
            var rules := RulesOf(prog, s.locs.rules, m);
            && r.Some? == rules.Some?
            && (r.Some? ==> r.value.locs.rules == rules.value && r.value.stack == s.stack)
    decreases |prog|
  {
    if prog != [] && Step(prog[0], s, m, None).Some? {
      RuleOnlyRun(prog[1..], Step(prog[0], s, m, None).value, pc, end, m);
    }
  }

  predicate CieCacheSound(sec: Section, cies: map<nat, Rules>)
    requires sec.Valid()
  {
    forall o :: o in cies ==>
      o in sec.cies && RulesOf(sec.cies[o].program, map[], sec.MachineOf(sec.cies[o])) == Some(cies[o])
  }

  // The end of a row under construction is written last, so it never matters before.
  function Blur(l: Locations): Locations {
    l.(pcEnd := 0)
  }

  function BlurState(s: State): State {
    State(s.curPc, Blur(s.locs), seq(|s.stack|, i requires 0 <= i < |s.stack| => Blur(s.stack[i])))
  }

  lemma {:induction false} StepBlurred(i: Instr, s: State, m: Machine, cie: Option<Rules>)
    requires m.Valid()
    ensures Step(i, BlurState(s), m, cie) ==
            match Step(i, s, m, cie) case None => None case Some(s') => Some(BlurState(s'))
  {
    hide ExecRule;
    if Step(i, s, m, cie).Some? {
      var a, b := Step(i, BlurState(s), m, cie).value, BlurState(Step(i, s, m, cie).value);
      assert a.stack == b.stack;
    }
  }

  lemma {:induction false} RunBlurred(prog: seq<Instr>, s: State, pc: nat, end: nat, m: Machine, cie: Option<Rules>)
    requires m.Valid()
    ensures var a, b := Run(prog, BlurState(s), pc, end, m, cie), Run(prog, s, pc, end, m, cie);
            a.Some? == b.Some? && (a.Some? ==> a.value.locs == b.value.locs)
    decreases |prog|
  {
    if s.curPc <= pc && prog != [] {
      StepBlurred(prog[0], s, m, cie);
      if Step(prog[0], s, m, cie).Some? {
        RunBlurred(prog[1..], Step(prog[0], s, m, cie).value, pc, end, m, cie);
      }
    }
  }

  /** Taking the CIE's rules from the cache changes no row. */
  lemma {:induction false} CieCacheTransparent(sec: Section, cies: map<nat, Rules>, f: FdeIndex.Located, pc: nat)
    requires sec.Valid() && RuleOnlyCies(sec) && CieCacheSound(sec, cies)
    requires f.fde.cieOffset in sec.cies && f.offset in sec.programs && f.fde.pcStart <= pc
    ensures CieCacheSound(sec, LocationInfo(sec, cies, f, pc).0)
    ensures LocationInfo(sec, cies, f, pc).1 == LocationInfo(sec, map[], f, pc).1
  {
    var o := f.fde.cieOffset;
    var m := sec.MachineOf(sec.cies[o]);
    var start := f.fde.pcStart % sec.addresses;
    RuleOnlyRun(sec.cies[o].program, State(start, NO_ROW.(pcStart := start), []), pc, f.fde.pcEnd, m);
    if o in cies {
      var c := RunProgram(sec, f, pc, sec.cies[o].program, NO_ROW, [], None).value;
      var rules := cies[o];
      assert c.locs.rules == rules && rules + rules == rules && map[] + rules == rules;
      var cached := State(start, Locations(rules, start, 0), []);
      var rerun := State(start, c.locs.(rules := rules, pcStart := start), []);
      assert BlurState(rerun) == BlurState(cached) == cached;
      RunBlurred(sec.programs[f.offset], rerun, pc, f.fde.pcEnd, m, Some(rules));
    }
  }

  // ---------- The row cache ----------

  /** What any two rows must satisfy: an address one row claims, or whose own
      row ends at the same place, is answered by the same rules. */
  ghost predicate RowsAgree(sec: Section)
    requires sec.Valid()
  {
    forall p, q :: Fresh(sec, p).Some? && Clashes(sec, Fresh(sec, p).value, q) ==>
      SameAnswer(Fresh(sec, p), Fresh(sec, q))
  }

  predicate Clashes(sec: Section, row: Row, q: nat)
    requires sec.Valid()
  {
    || row.locs.pcStart <= q < row.locs.pcEnd
    || (Fresh(sec, q).Some? && Fresh(sec, q).value.locs.pcEnd == row.locs.pcEnd)
  }

  ghost predicate CameFresh(sec: Section, row: Row)
    requires sec.Valid()
  {
    exists p :: Fresh(sec, p) == Some(row)
  }

  /** Every cached row was computed by a fresh run and sits under its own end. */
  ghost predicate RowsSound(sec: Section, rows: map<nat, Row>)
    requires sec.Valid()
  {
    forall k :: k in rows ==> rows[k].locs.pcEnd == k && CameFresh(sec, rows[k])
  }

  ghost predicate Sound(sec: Section, c: Cache)
    requires sec.Valid()
  {
    RowsSound(sec, c.rows) && CieCacheSound(sec, c.cies)
  }

  /** On a sound cache a miss computes exactly the fresh row. */
  lemma {:induction false} MissIsFresh(sec: Section, c: Cache, pc: nat)
    requires sec.Valid() && RuleOnlyCies(sec) && Sound(sec, c) && !Hit(c, pc)
    ensures Sound(sec, Lookup(sec, c, pc).0)
    ensures Lookup(sec, c, pc).1 ==
            match Fresh(sec, pc) case None => None case Some(row) => Some(Insert(c.rows, row)[row.locs.pcEnd])
  {
    FdeIndex.FirstCoveringIsFirst(sec.fdes, pc);
    if Find(sec, pc).Some? {
      CieCacheTransparent(sec, c.cies, Find(sec, pc).value, pc);
      if Fresh(sec, pc).Some? {
        assert CameFresh(sec, Fresh(sec, pc).value);
      }
    }
  }

  lemma {:induction false} LookupKeepsSound(sec: Section, c: Cache, pc: nat)
    requires sec.Valid() && RuleOnlyCies(sec) && Sound(sec, c)
    ensures Sound(sec, Lookup(sec, c, pc).0)
  {
    if !Hit(c, pc) {
      MissIsFresh(sec, c, pc);
    }
  }

  lemma {:induction false} AfterIsSound(sec: Section, history: seq<nat>)
    requires sec.Valid() && RuleOnlyCies(sec)
    ensures Sound(sec, After(sec, history))
    decreases |history|
  {
    if history != [] {
      AfterIsSound(sec, history[..|history| - 1]);
      LookupKeepsSound(sec, After(sec, history[..|history| - 1]), history[|history| - 1]);
    }
  }

  lemma {:induction false} SoundLookupAgrees(sec: Section, c: Cache, pc: nat)
    requires sec.Valid() && RuleOnlyCies(sec) && RowsAgree(sec) && Sound(sec, c)
    ensures SameAnswer(Lookup(sec, c, pc).1, Fresh(sec, pc))
  {
    if Hit(c, pc) {
      var row := c.rows[UpperBound(c.rows, pc).value];
      assert CameFresh(sec, row);
      var p :| Fresh(sec, p) == Some(row);
      assert Clashes(sec, Fresh(sec, p).value, pc);
    } else {
      MissIsFresh(sec, c, pc);
      if Fresh(sec, pc).Some? && Fresh(sec, pc).value.locs.pcEnd in c.rows {
        var row := c.rows[Fresh(sec, pc).value.locs.pcEnd];
        assert CameFresh(sec, row);
        var p :| Fresh(sec, p) == Some(row);
        assert Clashes(sec, Fresh(sec, p).value, pc);
      }
    }
  }

  lemma {:induction false} AfterOne(sec: Section, p: nat)
    requires sec.Valid()
    ensures After(sec, [p]) == Lookup(sec, EMPTY, p).0 && After(sec, []) == EMPTY
  {
    hide Lookup;
    assert [p][..0] == [];
  }

  /** Looking up `p` and then `q` is enough to expose any disagreement. */
  lemma {:induction false} TwoLookupsExpose(sec: Section, p: nat, q: nat)
    requires sec.Valid() && RuleOnlyCies(sec) && Transparent(sec)
    requires Fresh(sec, p).Some? && Clashes(sec, Fresh(sec, p).value, q)
    ensures SameAnswer(Fresh(sec, p), Fresh(sec, q))
  {
    var row := Fresh(sec, p).value;
    AfterOne(sec, p);
    assert Sound(sec, EMPTY);
    MissIsFresh(sec, EMPTY, p);
    var c := After(sec, [p]);
    assert c.rows == map[row.locs.pcEnd := row];
    AfterIsSound(sec, [p]);
    if Hit(c, q) {
      assert Lookup(sec, c, q).1 == Some(row);
    } else {
      MissIsFresh(sec, c, q);
      assert Lookup(sec, c, q).1 == Some(row);
    }
    assert SameAnswer(Lookup(sec, After(sec, [p]), q).1, Fresh(sec, q));
  }

  /** Exactly when the cache is invisible over every history of lookups. */
  lemma {:induction false} TransparentIffRowsAgree(sec: Section)
    requires sec.Valid() && RuleOnlyCies(sec)
    ensures Transparent(sec) <==> RowsAgree(sec)
  {
    if Transparent(sec) {
      forall p, q | Fresh(sec, p).Some? && Clashes(sec, Fresh(sec, p).value, q)
        ensures SameAnswer(Fresh(sec, p), Fresh(sec, q))
      {
        TwoLookupsExpose(sec, p, q);
      }
    }
    if RowsAgree(sec) {
      forall history, pc
        ensures SameAnswer(Lookup(sec, After(sec, history), pc).1, Fresh(sec, pc))
      {
        AfterIsSound(sec, history);
        SoundLookupAgrees(sec, After(sec, history), pc);
      }
    }
  }

  // ---------- Sections for which rows agree ----------

  ghost predicate DisjointFdes(sec: Section) {
    forall i, j, pc :: 0 <= i < |sec.fdes| && 0 <= j < |sec.fdes|
                       && FdeIndex.Covers(sec.fdes[i].fde, pc) && FdeIndex.Covers(sec.fdes[j].fde, pc)
                       ==> sec.fdes[i] == sec.fdes[j]
  }

  predicate WellFormedFde(sec: Section, f: FdeIndex.Located)
    requires sec.Valid() && f.offset in sec.programs && f.fde.cieOffset in sec.cies
  {
    && f.fde.pcStart < sec.addresses
    && ForwardInside(sec.programs[f.offset], f.fde.pcStart, f.fde.pcEnd, sec.MachineOf(sec.cies[f.fde.cieOffset]))
    && !EndsInRestoreState(sec.programs[f.offset])
  }

  /** Disjoint FDEs, CIE programs that only set rules, and FDE programs that only
      move forward inside their FDE and do not end by putting back a remembered
      row. */
  ghost predicate WellFormed(sec: Section)
    requires sec.Valid()
  {
    && DisjointFdes(sec) && RuleOnlyCies(sec)
    && forall i :: 0 <= i < |sec.fdes| && sec.fdes[i].fde.cieOffset in sec.cies ==> WellFormedFde(sec, sec.fdes[i])
  }

  function CieRules(sec: Section, f: FdeIndex.Located): Option<Rules>
    requires sec.Valid() && f.fde.cieOffset in sec.cies
  {
    var cie := sec.cies[f.fde.cieOffset];
    RulesOf(cie.program, map[], sec.MachineOf(cie))
  }

  /** The FDE's program run from the CIE's rules, which do not depend on `pc`. */
  function FdeRun(sec: Section, f: FdeIndex.Located, pc: nat): Option<State>
    requires sec.Valid() && f.fde.cieOffset in sec.cies && f.offset in sec.programs && CieRules(sec, f).Some?
  {
    Run(sec.programs[f.offset], State(f.fde.pcStart, Locations(CieRules(sec, f).value, f.fde.pcStart, 0), []), pc,
        f.fde.pcEnd, sec.MachineOf(sec.cies[f.fde.cieOffset]), CieRules(sec, f))
  }

  lemma {:induction false} FreshIsFdeRun(sec: Section, pc: nat)
    requires sec.Valid() && RuleOnlyCies(sec) && Find(sec, pc).Some?
    requires Find(sec, pc).value.fde.pcStart < sec.addresses
    ensures var f := Find(sec, pc).value;
            && f in sec.fdes && FdeIndex.Covers(f.fde, pc)
            && Fresh(sec, pc) ==
               if CieRules(sec, f).None? || FdeRun(sec, f, pc).None? then None
               else Some(Row(FdeRun(sec, f, pc).value.locs, f.fde.cieOffset))
  {
    FdeIndex.FirstCoveringIsFirst(sec.fdes, pc);
    var f := Find(sec, pc).value;
    var o := f.fde.cieOffset;
    var m := sec.MachineOf(sec.cies[o]);
    var start := f.fde.pcStart;
    assert start % sec.addresses == start;
    RuleOnlyRun(sec.cies[o].program, State(start, NO_ROW.(pcStart := start), []), pc, f.fde.pcEnd, m);
    if CieRules(sec, f).Some? {
      var rules := CieRules(sec, f).value;
      CieCacheTransparent(sec, map[o := rules], f, pc);
      assert map[] + rules == rules;
    }
  }

  /** The row of `p` stays inside the FDE of `p`, contains `p`, and an address it
      claims belongs to the same FDE. */
  lemma {:induction false} RowInsideFde(sec: Section, p: nat, q: nat)
    requires sec.Valid() && WellFormed(sec) && Fresh(sec, p).Some?
    ensures var row := Fresh(sec, p).value.locs;
            && row.pcStart <= p < row.pcEnd
            && (row.pcStart <= q < row.pcEnd ==> Find(sec, q) == Find(sec, p))
  {
    FdeIndex.FirstCoveringIsFirst(sec.fdes, p);
    FreshIsFdeRun(sec, p);
    FdeIndex.FirstCoveringIsFirst(sec.fdes, q);
    var f := Find(sec, p).value;
    var m := sec.MachineOf(sec.cies[f.fde.cieOffset]);
    var start := State(f.fde.pcStart, Locations(CieRules(sec, f).value, f.fde.pcStart, 0), []);
    var prog := sec.programs[f.offset];
    RowContainsPc(prog, start, p, f.fde.pcEnd, m, CieRules(sec, f));
    if prog != [] {
      RowStartsForward(prog, start, p, f.fde.pcEnd, m, CieRules(sec, f));
    }
    var row := Fresh(sec, p).value.locs;
    if row.pcStart <= q < row.pcEnd {
      assert FdeIndex.Covers(f.fde, q);
      var i :| 0 <= i < |sec.fdes| && sec.fdes[i] == f;
      var j :| 0 <= j < |sec.fdes| && sec.fdes[j] == FdeIndex.FirstCovering(sec.fdes, q).value
               && FdeIndex.Covers(sec.fdes[j].fde, q);
    }
  }

  lemma {:induction false} ClaimedAgrees(sec: Section, p: nat, q: nat)
    requires sec.Valid() && WellFormed(sec) && Fresh(sec, p).Some?
    requires Fresh(sec, p).value.locs.pcStart <= q < Fresh(sec, p).value.locs.pcEnd
    ensures SameAnswer(Fresh(sec, p), Fresh(sec, q))
  {
    RowInsideFde(sec, p, q);
    FdeIndex.FirstCoveringIsFirst(sec.fdes, p);
    FreshIsFdeRun(sec, p);
    FreshIsFdeRun(sec, q);
    var f := Find(sec, p).value;
    var start := State(f.fde.pcStart, Locations(CieRules(sec, f).value, f.fde.pcStart, 0), []);
    RowAgrees(sec.programs[f.offset], start, p, q, f.fde.pcEnd, sec.MachineOf(sec.cies[f.fde.cieOffset]),
        CieRules(sec, f));
  }

  lemma {:induction false} WellFormedRowsAgree(sec: Section)
    requires sec.Valid() && WellFormed(sec)
    ensures RowsAgree(sec)
  {
    forall p: nat, q: nat | Fresh(sec, p).Some? && Clashes(sec, Fresh(sec, p).value, q)
      ensures SameAnswer(Fresh(sec, p), Fresh(sec, q))
    {
      RowInsideFde(sec, p, p);
      var row := Fresh(sec, p).value.locs;
      if row.pcStart <= q < row.pcEnd {
        ClaimedAgrees(sec, p, q);
      } else {
        var shared := row.pcEnd - 1;
        RowInsideFde(sec, p, shared);
        RowInsideFde(sec, q, shared);
        ClaimedAgrees(sec, p, shared);
        ClaimedAgrees(sec, q, shared);
      }
    }
  }

  /** The row cache of a well-formed section is invisible: after any lookups,
      every answer has the rules a fresh run gives. */
  lemma {:induction false} WellFormedIsTransparent(sec: Section)
    requires sec.Valid() && WellFormed(sec)
    ensures Transparent(sec)
  {
    WellFormedRowsAgree(sec);
    TransparentIffRowsAgree(sec);
  }

  /** Later addresses of the same row have the same row. */
  lemma {:induction false} LaterSameFresh(sec: Section, pc: nat, q: nat)
    requires sec.Valid() && WellFormed(sec) && Fresh(sec, pc).Some?
    requires pc <= q < Fresh(sec, pc).value.locs.pcEnd
    ensures Fresh(sec, q) == Fresh(sec, pc)
  {
    RowInsideFde(sec, pc, q);
    FdeIndex.FirstCoveringIsFirst(sec.fdes, pc);
    FreshIsFdeRun(sec, pc);
    FreshIsFdeRun(sec, q);
    var f := Find(sec, pc).value;
    var start := State(f.fde.pcStart, Locations(CieRules(sec, f).value, f.fde.pcStart, 0), []);
    LaterSameRow(sec.programs[f.offset], start, pc, q, f.fde.pcEnd, sec.MachineOf(sec.cies[f.fde.cieOffset]),
        CieRules(sec, f));
  }

  /** A miss never computes a row whose key is taken. */
  lemma {:induction false} MissNeverCollides(sec: Section, c: Cache, pc: nat)
    requires sec.Valid() && WellFormed(sec) && Sound(sec, c) && !Hit(c, pc) && Fresh(sec, pc).Some?
    ensures Fresh(sec, pc).value.locs.pcEnd !in c.rows
  {
    var row := Fresh(sec, pc).value.locs;
    if row.pcEnd in c.rows {
      RowInsideFde(sec, pc, pc);
      var k := UpperBound(c.rows, pc).value;
      assert CameFresh(sec, c.rows[k]);
      var p: nat :| Fresh(sec, p) == Some(c.rows[k]);
      RowInsideFde(sec, p, p);
      assert pc < p < k <= row.pcEnd;
      LaterSameFresh(sec, pc, p);
    }
  }

  /** A saved register and a move are factored by the CIE of the FDE found: the row
      ends the advance times its code factor on, and the offset is the operand
      times its data factor. */
  lemma {:induction false} FactorsAreTheCies(sec: Section, pc: nat, f: FdeIndex.Located, reg: nat, n: nat, delta: nat)
    requires sec.Valid() && Find(sec, pc) == Some(f) && f.offset in sec.programs
    requires sec.programs[f.offset] == [OffsetRule(reg, n), AdvanceLoc(delta)]
    requires sec.cies[f.fde.cieOffset].program == []
    requires var end := f.fde.pcStart + delta * sec.cies[f.fde.cieOffset].codeAlign;
             f.fde.pcStart <= pc < end < sec.addresses
    ensures var cie := sec.cies[f.fde.cieOffset];
            var m := Machine(cie.codeAlign, cie.dataAlign, sec.isArm64, sec.addresses);
            Fresh(sec, pc) ==
            Some(Row(Locations(map[reg % TWO_32 := Loc(Offset, m.Factored(n), 0)], f.fde.pcStart,
                               f.fde.pcStart + delta * cie.codeAlign), f.fde.cieOffset))
  {
    var cie := sec.cies[f.fde.cieOffset];
    var m := sec.MachineOf(cie);
    var start, end := f.fde.pcStart, f.fde.pcStart + delta * cie.codeAlign;
    CieOfNothing(sec, f, pc);
    var none: Rules := map[];
    assert none + none == none;
    var s := State(start, Locations(none, start, f.fde.pcEnd), []);
    var s1 := s.(locs := s.locs.(rules := map[reg % TWO_32 := Loc(Offset, m.Factored(n), 0)]));
    var s2 := s1.(curPc := end);
    assert Step(OffsetRule(reg, n), s, m, Some(none)) == Some(s1);
    assert Step(AdvanceLoc(delta), s1, m, Some(none)) == Some(s2);
    var p := [OffsetRule(reg, n), AdvanceLoc(delta)];
    assert p[1..] == [AdvanceLoc(delta)] && [AdvanceLoc(delta)][1..] == [];
    assert Run([AdvanceLoc(delta)], s1, pc, f.fde.pcEnd, m, Some(none)) ==
           Run([], s2, pc, f.fde.pcEnd, m, Some(none));
  }

  lemma {:induction false} CieOfNothing(sec: Section, f: FdeIndex.Located, pc: nat)
    requires sec.Valid() && f.fde.cieOffset in sec.cies && sec.cies[f.fde.cieOffset].program == []
    requires f.fde.pcStart <= pc && f.fde.pcStart < sec.addresses
    ensures RunProgram(sec, f, pc, [], NO_ROW, [], None) ==
            Some(State(f.fde.pcStart, Locations(map[], f.fde.pcStart, f.fde.pcEnd), []))
  {
  }

  // ---------- Sections for which they do not ----------

  lemma {:induction false} Visible(sec: Section, p: nat, q: nat)
    requires sec.Valid() && RuleOnlyCies(sec)
    requires Fresh(sec, p).Some? && Clashes(sec, Fresh(sec, p).value, q)
    requires !SameAnswer(Fresh(sec, p), Fresh(sec, q))
    ensures !Transparent(sec)
  {
    TransparentIffRowsAgree(sec);
  }

  function OneCie(fdes: seq<FdeIndex.Located>, programs: map<nat, seq<Instr>>): Section {
    Section(fdes, programs, map[0 := Cie(1, 1, [])], false, TWO_64)
  }

  /** Ends by putting back the row remembered at the start of the FDE. */
  const RESTORES_LAST := [RememberState, AdvanceLoc(4), UndefinedRule(1), AdvanceLoc(4), RestoreState]

  const RESTORES_LAST_SECTION :=
    OneCie([FdeIndex.Located(1, FdeIndex.Fde(0x100, 0x200, 0))], map[1 := RESTORES_LAST])

  lemma {:induction false} RestoresLastRuns(m: Machine)
    requires m == Machine(1, 1, false, TWO_64)
    ensures var s := State(0x100, Locations(map[], 0x100, 0), []);
            && Run(RESTORES_LAST, s, 0x108, 0x200, m, Some(map[])) == Some(State(0x108, s.locs.(pcEnd := 0x200), []))
            && Run(RESTORES_LAST, s, 0x105, 0x200, m, Some(map[])) ==
               Some(State(0x108, Locations(map[1 := Loc(Undefined, 0, 0)], 0x104, 0x108), [s.locs]))
  {
    var s := State(0x100, Locations(map[], 0x100, 0), []);
    var s1 := s.(stack := [s.locs]);
    var s2 := s1.(curPc := 0x104);
    var s3 := State(0x104, Locations(map[1 := Loc(Undefined, 0, 0)], 0x104, 0), [s.locs]);
    var s4 := s3.(curPc := 0x108);
    var s5 := State(0x108, s.locs, []);
    assert s.stack + [s.locs] == [s.locs];
    assert Step(RememberState, s, m, Some(map[])) == Some(s1);
    assert Step(AdvanceLoc(4), s1, m, Some(map[])) == Some(s2);
    assert Step(UndefinedRule(1), s2, m, Some(map[])) == Some(s3);
    assert Step(AdvanceLoc(4), s3, m, Some(map[])) == Some(s4);
    assert Step(RestoreState, s4, m, Some(map[])) == Some(s5);
    var p4, p3, p2, p1 := [RestoreState], [AdvanceLoc(4), RestoreState],
        [UndefinedRule(1), AdvanceLoc(4), RestoreState],
                          [AdvanceLoc(4), UndefinedRule(1), AdvanceLoc(4), RestoreState];
    assert RESTORES_LAST[1..] == p1 && p1[1..] == p2 && p2[1..] == p3 && p3[1..] == p4 && p4[1..] == [];
    assert Run(p4, s4, 0x108, 0x200, m, Some(map[])) == Run([], s5, 0x108, 0x200, m, Some(map[]));
    assert Run(p3, s3, 0x108, 0x200, m, Some(map[])) == Run(p4, s4, 0x108, 0x200, m, Some(map[]));
    assert Run(p2, s2, 0x108, 0x200, m, Some(map[])) == Run(p3, s3, 0x108, 0x200, m, Some(map[]));
    assert Run(p3, s3, 0x105, 0x200, m, Some(map[])) == Some(s4.(locs := s4.locs.(pcEnd := 0x108)));
    assert Run(p2, s2, 0x105, 0x200, m, Some(map[])) == Run(p3, s3, 0x105, 0x200, m, Some(map[]));
  }

  /** Putting back a remembered row as the last instruction also puts back where
      that row started, so the last row claims addresses before it: a lookup at
      0x108 makes a later one at 0x105 lose the rule for register 1. */
  lemma {:induction false} RestoringLastIsVisible()
    ensures var sec := RESTORES_LAST_SECTION;
            && sec.Valid() && RuleOnlyCies(sec) && DisjointFdes(sec) && !Transparent(sec)
  {
    var sec := RESTORES_LAST_SECTION;
    RestoresLastRuns(Machine(1, 1, false, TWO_64));
    FreshIsFdeRun(sec, 0x108);
    FreshIsFdeRun(sec, 0x105);
    assert Fresh(sec, 0x108) == Some(Row(Locations(map[], 0x100, 0x200), 0));
    assert 1 !in Fresh(sec, 0x108).value.locs.rules && 1 in Fresh(sec, 0x105).value.locs.rules;
    Visible(sec, 0x108, 0x105);
  }

  const OVERLAP_SECTION :=
    OneCie([FdeIndex.Located(1, FdeIndex.Fde(0x100, 0x110, 0)), FdeIndex.Located(2, FdeIndex.Fde(0, 0x200, 0))],
           map[1 := [], 2 := [UndefinedRule(1)]])

  /** Where FDEs overlap, a row of a later one claims addresses an earlier one
      describes. */
  lemma {:induction false} OverlapIsVisible()
    ensures var sec := OVERLAP_SECTION;
            && sec.Valid() && RuleOnlyCies(sec) && !Transparent(sec)
            && WellFormedFde(sec, sec.fdes[0]) && WellFormedFde(sec, sec.fdes[1])
  {
    var sec := OVERLAP_SECTION;
    assert sec.fdes[1..] == [sec.fdes[1]] && [UndefinedRule(1)][1..] == [];
    assert Find(sec, 0x50) == Some(sec.fdes[1]) && Find(sec, 0x105) == Some(sec.fdes[0]);
    FreshIsFdeRun(sec, 0x50);
    FreshIsFdeRun(sec, 0x105);
    assert Fresh(sec, 0x50) == Some(Row(Locations(map[1 := Loc(Undefined, 0, 0)], 0, 0x200), 0));
    assert Fresh(sec, 0x105) == Some(Row(Locations(map[], 0x100, 0x110), 0));
    assert 1 in Fresh(sec, 0x50).value.locs.rules && 1 !in Fresh(sec, 0x105).value.locs.rules;
    Visible(sec, 0x50, 0x105);
  }

  const OVERRUN_SECTION :=
    OneCie([FdeIndex.Located(1, FdeIndex.Fde(0x100, 0x110, 0)), FdeIndex.Located(2, FdeIndex.Fde(0x110, 0x200, 0))],
           map[1 := [UndefinedRule(1), AdvanceLoc(0x20)], 2 := []])

  /** A program that moves past the end of its FDE leaves a row that claims
      addresses of the next one. */
  lemma {:induction false} OverrunIsVisible()
    ensures var sec := OVERRUN_SECTION;
            sec.Valid() && RuleOnlyCies(sec) && DisjointFdes(sec) && !Transparent(sec)
  {
    var sec := OVERRUN_SECTION;
    assert sec.fdes[1..] == [sec.fdes[1]];
    assert [UndefinedRule(1), AdvanceLoc(0x20)][1..] == [AdvanceLoc(0x20)];
    assert Find(sec, 0x100) == Some(sec.fdes[0]) && Find(sec, 0x115) == Some(sec.fdes[1]);
    FreshIsFdeRun(sec, 0x100);
    FreshIsFdeRun(sec, 0x115);
    assert Fresh(sec, 0x100) == Some(Row(Locations(map[1 := Loc(Undefined, 0, 0)], 0x100, 0x120), 0));
    assert Fresh(sec, 0x115) == Some(Row(Locations(map[], 0x110, 0x200), 0));
    assert 1 in Fresh(sec, 0x100).value.locs.rules && 1 !in Fresh(sec, 0x115).value.locs.rules;
    Visible(sec, 0x100, 0x115);
  }

  const GOES_BACK := [UndefinedRule(1), RestoreState, Nop]

  const REMEMBERING_SECTION :=
    Section([FdeIndex.Located(1, FdeIndex.Fde(0x100, 0x200, 0)), FdeIndex.Located(2, FdeIndex.Fde(0x200, 0x300, 0))],
            map[1 := GOES_BACK, 2 := GOES_BACK], map[0 := Cie(1, 1, [RememberState])], false, TWO_64)

  /** The rule goes where a row was remembered, and stays where none was. */
  lemma {:induction false} GoesBackRuns(l: Locations, stack: seq<Locations>, m: Machine, pc: nat, end: nat)
    requires m.Valid() && l.rules == map[] && |stack| <= 1 && (stack != [] ==> stack[0].rules == map[])
    ensures var r := Run(GOES_BACK, State(pc, l, stack), pc, end, m, Some(map[]));
            r.Some? && r.value.locs.pcEnd == end && (1 in r.value.locs.rules <==> stack == [])
  {
    var s, ruled := State(pc, l, stack), Loc(Undefined, 0, 0);
    var s1 := State(pc, Locations(map[1 := ruled], pc, l.pcEnd), stack);
    assert Step(UndefinedRule(1), s, m, Some(map[])) == Some(s1);
    var s2 := Step(RestoreState, s1, m, Some(map[])).value;
    var s3 := Step(Nop, s2, m, Some(map[])).value;
    assert 1 in s2.locs.rules <==> stack == [];
    assert s3.locs.rules == s2.locs.rules && s2.curPc == s3.curPc == pc;
    assert GOES_BACK[1..] == [RestoreState, Nop] && [RestoreState, Nop][1..] == [Nop] && [Nop][1..] == [];
    assert Run([Nop], s2, pc, end, m, Some(map[])) == Run([], s3, pc, end, m, Some(map[]));
    assert Run([RestoreState, Nop], s1, pc, end, m, Some(map[])) == Run([Nop], s2, pc, end, m, Some(map[]));
  }

  lemma {:induction false} RemembersRuns(m: Machine, pc: nat, end: nat)
    requires m.Valid()
    ensures Run([RememberState], State(pc, Locations(map[], pc, 0), []), pc, end, m, None) ==
            Some(State(pc, Locations(map[], pc, end), [Locations(map[], pc, 0)]))
  {
    var s := State(pc, Locations(map[], pc, 0), []);
    assert s.stack + [s.locs] == [s.locs];
    assert [RememberState][1..] == [];
  }

  /** What the CIE's program remembers is there only when that program is run, and
      not when its rules come from the cache. */
  lemma {:induction false} RememberingCieIsVisible()
    ensures var sec := REMEMBERING_SECTION;
            && sec.Valid() && DisjointFdes(sec) && !Transparent(sec)
            && WellFormedFde(sec, sec.fdes[0]) && WellFormedFde(sec, sec.fdes[1])
  {
    hide Run, LocationInfo, Find;
    var sec := REMEMBERING_SECTION;
    assert GOES_BACK[1..] == [RestoreState, Nop] && [RestoreState, Nop][1..] == [Nop] && [Nop][1..] == [];
    RememberingAnswers(sec, 0x100);
    RememberingAnswers(sec, 0x200);
    var c := After(sec, [0x100]);
    AfterOne(sec, 0x100);
    assert !Hit(EMPTY, 0x100);
    assert c.cies == map[0 := map[]] && forall k :: k in c.rows ==> k == 0x200;
    assert !Hit(c, 0x200);
    assert !SameAnswer(Lookup(sec, c, 0x200).1, Fresh(sec, 0x200));
  }

  /** With the CIE's program and without it. */
  lemma {:induction false} RememberingAnswers(sec: Section, pc: nat)
    requires sec == REMEMBERING_SECTION && (pc == 0x100 || pc == 0x200)
    ensures sec.Valid() && Find(sec, pc) == Some(sec.fdes[if pc == 0x100 then 0 else 1])
    ensures var (cies, locs) := LocationInfo(sec, map[], Find(sec, pc).value, pc);
            cies == map[0 := map[]] && locs.Some? && 1 !in locs.value.rules && locs.value.pcEnd == pc + 0x100
    ensures var (cies, locs) := LocationInfo(sec, map[0 := map[]], Find(sec, pc).value, pc);
            locs.Some? && 1 in locs.value.rules && locs.value.pcEnd == pc + 0x100
  {
    var m := Machine(1, 1, false, TWO_64);
    var none: Rules := map[];
    assert sec.fdes[1..] == [sec.fdes[1]] && none + none == none;
    RemembersRuns(m, pc, pc + 0x100);
    GoesBackRuns(Locations(map[], pc, 0), [], m, pc, pc + 0x100);
    GoesBackRuns(Locations(map[], pc, pc + 0x100), [Locations(map[], pc, 0)], m, pc, pc + 0x100);
  }

  // ---------- The section object ----------

  class DwarfSection {
    const section: Section
    var locRegs: map<nat, Row>
    var cieLocRegs: map<nat, Rules>

    constructor (section: Section)
      requires section.Valid()
      ensures this.section == section && locRegs == map[] && cieLocRegs == map[]
    {
      this.section := section;
      locRegs, cieLocRegs := map[], map[];
    }

    ghost function State(): Cache
      reads this
    {
      Cache(locRegs, cieLocRegs)
    }

    method GetCfaLocationInfo(pc: nat, f: FdeIndex.Located) returns (ok: bool, row: Locations)
      requires section.Valid() && f.fde.cieOffset in section.cies && f.offset in section.programs
      modifies this`cieLocRegs
      ensures var (cies, locs) := old(LocationInfo(section, cieLocRegs, f, pc));
              cieLocRegs == cies && ok == locs.Some? && (ok ==> row == locs.value)
    {
      var cie := section.cies[f.fde.cieOffset];
      var cfa := new DwarfCfa(section.MachineOf(cie), f.fde.pcStart, f.fde.pcEnd);
      row := NO_ROW;
      if f.fde.cieOffset !in cieLocRegs {
        ok, row := cfa.GetLocationInfo(pc, cie.program, row);
        if !ok {
          return;
        }
        cieLocRegs := cieLocRegs[f.fde.cieOffset := row.rules];
      }
      cfa.cieLocRegs := Some(cieLocRegs[f.fde.cieOffset]);
      ok, row := cfa.GetLocationInfo(pc, section.programs[f.offset], row);
    }

    /** The row Step evaluates for `pc`. */
    method StepRow(pc: nat) returns (r: Option<Row>)
      requires section.Valid()
      modifies this
      ensures var (cache, row) := old(Lookup(section, State(), pc));
              State() == cache && r == row
    {
      var it := UpperBound(locRegs, pc);
      if it.None? || pc < locRegs[it.value].locs.pcStart {
        var f := Find(section, pc);
        if f.None? {
          return None;
        }
        var ok, row := GetCfaLocationInfo(pc, f.value);
        if !ok {
          return None;
        }
        if row.pcEnd !in locRegs {
          locRegs := locRegs[row.pcEnd := Row(row, f.value.fde.cieOffset)];
        }
        return Some(locRegs[row.pcEnd]);
      }
      r := Some(locRegs[it.value]);
    }

    /** On a well-formed section a step answers as a fresh run does and keeps
        the caches sound. */
    method StepWellFormed(pc: nat) returns (r: Option<Row>)
      requires section.Valid() && WellFormed(section) && Sound(section, State())
      modifies this
      ensures Sound(section, State())
      ensures SameAnswer(r, Fresh(section, pc))
    {
      WellFormedRowsAgree(section);
      LookupKeepsSound(section, State(), pc);
      SoundLookupAgrees(section, State(), pc);
      r := StepRow(pc);
    }
  }
}
