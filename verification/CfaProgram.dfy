/** Call frame programs (unwindstack/DwarfCfa.cpp; sections 6.4.1 and 6.4.2 of
    the DWARF Debugging Information Format, version 4): the instruction
    handlers, the interpreter loop and what a row it returns stands for. */
module CfaProgram {
  import opened Wrappers

  const CFA_REG := 65535
  const RA_SIGN_STATE_REG := 34
  const TWO_32 := 0x1_0000_0000
  const TWO_64 := 0x1_0000_0000_0000_0000

  datatype LocKind = Undefined | Offset | ValOffset | Register | Expression | ValExpression | PseudoRegister

  datatype Loc = Loc(kind: LocKind, v0: nat, v1: nat)

  type Rules = map<nat, Loc>

  /** A row: the register rules and the range of addresses it claims. */
  datatype Locations = Locations(rules: Rules, pcStart: nat, pcEnd: nat)

  /** One decoded instruction with its operands. Expression operands carry the
      block length and the offset just behind the block. */
  datatype Instr =
    | Nop
    | SetLoc(pc: nat)
    | AdvanceLoc(delta: nat)
    | OffsetRule(reg: nat, factored: nat)
    | OffsetExtended(reg: nat, offset: nat)
    | Restore(reg: nat)
    | UndefinedRule(reg: nat)
    | SameValue(reg: nat)
    | RegisterRule(reg: nat, dst: nat)
    | RememberState
    | RestoreState
    | DefCfa(reg: nat, offset: nat)
    | DefCfaRegister(reg: nat)
    | DefCfaOffset(offset: nat)
    | DefCfaExpression(length: nat, end: nat)
    | ExpressionRule(reg: nat, length: nat, end: nat)
    | OffsetExtendedSf(reg: nat, factored: nat)
    | DefCfaSf(reg: nat, factored: nat)
    | DefCfaOffsetSf(factored: nat)
    | ValOffsetRule(reg: nat, factored: nat)
    | ValExpressionRule(reg: nat, length: nat, end: nat)
    | GnuNegativeOffset(reg: nat, offset: nat)
    | NegateRaState
    | Illegal
    | Unreadable

  /** What the handlers read besides the instruction: the CIE's alignment
      factors, the architecture and the number of addresses it has. */
  datatype Machine = Machine(codeAlign: nat, dataAlign: int, isArm64: bool, addresses: nat) {
    predicate Valid() { addresses == TWO_32 || addresses == TWO_64 }

    /** An address-sized value read as a signed number. */
    function Signed(v: nat): int
      requires Valid()
    {
      var w := v % addresses;
      if w < addresses / 2 then w else w - addresses
    }

    /** A signed number stored into an address-sized field and widened to 64 bits. */
    function Widened(x: int): nat
      requires Valid()
    {
      Signed(x % addresses) % TWO_64
    }

    function Factored(v: nat): nat
      requires Valid()
    {
      Widened(Signed(v) * dataAlign)
    }
  }

  predicate CfaIsRegister(rules: Rules) {
    CFA_REG in rules && rules[CFA_REG].kind == Register
  }

  function FlipLowBit(v: nat): nat {
    if v % 2 == 0 then v + 1 else v - 1
  }

  /** The handlers that change register rules. `None` is a reported error.
      `cie` is absent while the CIE's own program runs. */
  function ExecRule(i: Instr, rules: Rules, m: Machine, cie: Option<Rules>): Option<Rules>
    requires m.Valid()
  {
    match i
    case OffsetRule(reg, v) => Some(rules[reg % TWO_32 := Loc(Offset, m.Factored(v), 0)])
    case OffsetExtended(reg, v) => Some(rules[reg % TWO_32 := Loc(Offset, v, 0)])
    case Restore(reg) =>
      if cie.None? then None
      else if reg % TWO_32 in cie.value then Some(rules[reg % TWO_32 := cie.value[reg % TWO_32]])
      else Some(rules - {reg % TWO_32})
    case UndefinedRule(reg) => Some(rules[reg % TWO_32 := Loc(Undefined, 0, 0)])
    case SameValue(reg) => Some(rules - {reg % TWO_32})
    case RegisterRule(reg, dst) => Some(rules[reg % TWO_32 := Loc(Register, dst % m.addresses, 0)])
    case DefCfa(reg, v) => Some(rules[CFA_REG := Loc(Register, reg, v)])
    case DefCfaRegister(reg) =>
      if CfaIsRegister(rules) then Some(rules[CFA_REG := rules[CFA_REG].(v0 := reg)]) else None
    case DefCfaOffset(v) =>
      if CfaIsRegister(rules) then Some(rules[CFA_REG := rules[CFA_REG].(v1 := v)]) else None
    case DefCfaExpression(length, end) => Some(rules[CFA_REG := Loc(ValExpression, length, end)])
    case ExpressionRule(reg, length, end) => Some(rules[reg % TWO_32 := Loc(Expression, length, end)])
    case OffsetExtendedSf(reg, v) => Some(rules[reg % TWO_32 := Loc(Offset, m.Factored(v), 0)])
    case DefCfaSf(reg, v) => Some(rules[CFA_REG := Loc(Register, reg, m.Factored(v))])
    case DefCfaOffsetSf(v) =>
      if CfaIsRegister(rules) then Some(rules[CFA_REG := rules[CFA_REG].(v1 := m.Factored(v))]) else None
    case ValOffsetRule(reg, v) => Some(rules[reg % TWO_32 := Loc(ValOffset, m.Factored(v), 0)])
    case ValExpressionRule(reg, length, end) => Some(rules[reg % TWO_32 := Loc(ValExpression, length, end)])
    case GnuNegativeOffset(reg, v) => Some(rules[reg % TWO_32 := Loc(Offset, m.Widened(-m.Signed(v)), 0)])
    case NegateRaState =>
      if !m.isArm64 then None
      else if RA_SIGN_STATE_REG in rules then
        var loc := rules[RA_SIGN_STATE_REG];
        Some(rules[RA_SIGN_STATE_REG := loc.(v0 := FlipLowBit(loc.v0))])
      else Some(rules[RA_SIGN_STATE_REG := Loc(PseudoRegister, 1, 0)])
    case Illegal => None
    case Unreadable => None
    case _ => Some(rules)
  }

  /** The register whose rule an instruction may change. */
  function Target(i: Instr): Option<nat> {
    if i.OffsetRule? || i.OffsetExtended? || i.Restore? || i.UndefinedRule? || i.SameValue? || i.RegisterRule?
       || i.ExpressionRule? || i.OffsetExtendedSf? || i.ValOffsetRule? || i.ValExpressionRule? || i.GnuNegativeOffset?
    then Some(i.reg % TWO_32)
    else if i.DefCfa? || i.DefCfaRegister? || i.DefCfaOffset? || i.DefCfaExpression? || i.DefCfaSf? || i.DefCfaOffsetSf?
    then Some(CFA_REG)
    else if i.NegateRaState? then Some(RA_SIGN_STATE_REG)
    else None
  }

  predicate SameRule(a: Rules, b: Rules, r: nat) {
    (r in a <==> r in b) && (r in a ==> a[r] == b[r])
  }

  /** An instruction changes the rule of its own register or of the CFA, and no other. */
  lemma {:induction false} OneRuleAtMost(i: Instr, rules: Rules, m: Machine, cie: Option<Rules>, r: nat)
    requires m.Valid() && ExecRule(i, rules, m, cie).Some? && Target(i) != Some(r)
    ensures SameRule(ExecRule(i, rules, m, cie).value, rules, r)
  {
  }

  /** Instructions that set different registers commute. */
  lemma {:induction false} DisjointRulesCommute(i: Instr, j: Instr, rules: Rules, m: Machine, cie: Option<Rules>)
    requires m.Valid() && Target(i).Some? && Target(j).Some? && Target(i) != Target(j)
    requires ExecRule(i, rules, m, cie).Some? && ExecRule(j, rules, m, cie).Some?
    ensures var a, b := ExecRule(j, ExecRule(i, rules, m, cie).value, m, cie),
              ExecRule(i, ExecRule(j, rules, m, cie).value, m, cie);
            a.Some? && b.Some? && forall r: nat :: SameRule(a.value, b.value, r)
  {
    hide ExecRule, Target;
    var ri, rj := ExecRule(i, rules, m, cie).value, ExecRule(j, rules, m, cie).value;
    OneRuleAtMost(j, rules, m, cie, Target(i).value);
    OneRuleAtMost(i, rules, m, cie, Target(j).value);
    OwnRuleOnly(i, rules, rj, m, cie);
    OwnRuleOnly(j, rules, ri, m, cie);
    forall r: nat ensures SameRule(ExecRule(j, ri, m, cie).value, ExecRule(i, rj, m, cie).value, r) {
      if Target(i) != Some(r) {
        OneRuleAtMost(i, rules, m, cie, r);
        OneRuleAtMost(i, rj, m, cie, r);
      }
      if Target(j) != Some(r) {
        OneRuleAtMost(j, rules, m, cie, r);
        OneRuleAtMost(j, ri, m, cie, r);
      }
    }
  }

  /** What an instruction makes of its register depends on that register's rule alone. */
  lemma {:induction false} OwnRuleOnly(i: Instr, a: Rules, b: Rules, m: Machine, cie: Option<Rules>)
    requires m.Valid() && Target(i).Some? && SameRule(a, b, Target(i).value) && ExecRule(i, a, m, cie).Some?
    ensures ExecRule(i, b, m, cie).Some?
    ensures SameRule(ExecRule(i, a, m, cie).value, ExecRule(i, b, m, cie).value, Target(i).value)
  {
  }

  /** The CFA's register and offset can be set together or one after the other
      (section 6.4.2.2 of DWARF 4). */
  lemma {:induction false} CfaInParts(reg: nat, offset: nat, reg0: nat, offset0: nat, rules: Rules, m: Machine,
                                      cie: Option<Rules>)
    requires m.Valid()
    ensures var whole := ExecRule(DefCfa(reg, offset), rules, m, cie);
            var from := ExecRule(DefCfa(reg0, offset0), rules, m, cie).value;
            && ExecRule(DefCfaRegister(reg), from, m, cie).Some? && ExecRule(DefCfaOffset(offset), from, m, cie).Some?
            && ExecRule(DefCfaOffset(offset), ExecRule(DefCfaRegister(reg), from, m, cie).value, m, cie) == whole
            && ExecRule(DefCfaRegister(reg), ExecRule(DefCfaOffset(offset), from, m, cie).value, m, cie) == whole
  {
    var from := ExecRule(DefCfa(reg0, offset0), rules, m, cie).value;
    var l := Loc(Register, reg, offset);
    assert from[CFA_REG := l] == rules[CFA_REG := l];
    assert from[CFA_REG := from[CFA_REG].(v0 := reg)][CFA_REG := l] == rules[CFA_REG := l];
    assert from[CFA_REG := from[CFA_REG].(v1 := offset)][CFA_REG := l] == rules[CFA_REG := l];
  }

  datatype State = State(curPc: nat, locs: Locations, stack: seq<Locations>)

  /** One instruction: a move of the current address, a push or pop of the
      remembered rows, or a change of rules. */
  function Exec(i: Instr, s: State, m: Machine, cie: Option<Rules>): Option<State>
    requires m.Valid()
  {
    if i.SetLoc? then Some(s.(curPc := i.pc % m.addresses))
    else if i.AdvanceLoc? then Some(s.(curPc := (s.curPc + i.delta * m.codeAlign) % m.addresses))
    else if i.RememberState? then Some(s.(stack := s.stack + [s.locs]))
    else if i.RestoreState? then
      if s.stack == [] then Some(s)
      else Some(s.(locs := s.stack[|s.stack| - 1], stack := s.stack[..|s.stack| - 1]))
    else
      match ExecRule(i, s.locs.rules, m, cie)
      case None => None
      case Some(rules) => Some(s.(locs := s.locs.(rules := rules)))
  }

  /** Executes one instruction the way the loop does: the row under
      construction starts at the current address first. */
  function Step(i: Instr, s: State, m: Machine, cie: Option<Rules>): Option<State>
    requires m.Valid()
  {
    Exec(i, s.(locs := s.locs.(pcStart := s.curPc)), m, cie)
  }

  /** The loop: stop once the current address passes `pc`, or at the end of the
      program, where the row extends to `pcEnd`. */
  function Run(prog: seq<Instr>, s: State, pc: nat, pcEnd: nat, m: Machine, cie: Option<Rules>): Option<State>
    requires m.Valid()
  {
    if pc < s.curPc then Some(s.(locs := s.locs.(pcEnd := s.curPc)))
    else if prog == [] then Some(s.(locs := s.locs.(pcEnd := pcEnd)))
    else
      match Step(prog[0], s, m, cie)
      case None => None
      case Some(s') => Run(prog[1..], s', pc, pcEnd, m, cie)
  }

  // ---------- A forward program claims only addresses its row is right for ----------

  /** Where an instruction leaves the current address, were addresses unbounded. */
  function Moved(i: Instr, cur: nat, m: Machine): nat {
    if i.SetLoc? then i.pc else if i.AdvanceLoc? then cur + i.delta * m.codeAlign else cur
  }

  /** Executing from `cur`, every move of the current address is forward and
      stays at or below `end`. */
  predicate ForwardInside(prog: seq<Instr>, cur: nat, end: nat, m: Machine) {
    prog != [] ==>
      var next := Moved(prog[0], cur, m);
      cur <= next <= end && next < m.addresses && ForwardInside(prog[1..], next, end, m)
  }

  predicate EndsInRestoreState(prog: seq<Instr>) {
    prog != [] && prog[|prog| - 1].RestoreState?
  }

  /** One instruction of a forward program: only a move changes the address, a
      move changes nothing else, and the row keeps starting at `s.curPc` unless
      a remembered row is put back. */
  lemma {:induction false} StepShape(prog: seq<Instr>, s: State, end: nat, m: Machine, cie: Option<Rules>)
    requires m.Valid() && prog != [] && ForwardInside(prog, s.curPc, end, m)
    requires Step(prog[0], s, m, cie).Some?
    ensures var s' := Step(prog[0], s, m, cie).value;
            && s.curPc <= s'.curPc
            && (s.curPc <= end ==> s'.curPc <= end)
            && ForwardInside(prog[1..], s'.curPc, end, m)
            && (s'.curPc != s.curPc ==> s'.locs == s.locs.(pcStart := s.curPc) && s'.stack == s.stack)
            && (!prog[0].RestoreState? ==> s'.locs.pcStart == s.curPc)
  {
    hide ExecRule;
    var next := Moved(prog[0], s.curPc, m);
    assert next % m.addresses == next;
  }

  lemma {:induction false} TailEndsAlike(prog: seq<Instr>)
    requires |prog| > 1
    ensures EndsInRestoreState(prog[1..]) == EndsInRestoreState(prog)
  {
    assert prog[1..][|prog| - 2] == prog[|prog| - 1];
  }

  /** A non-empty program that does not end by putting back a remembered row
      returns a row that starts no earlier than where the program began. */
  lemma {:induction false} RowStartsForward(prog: seq<Instr>, s: State, pc: nat, end: nat, m: Machine,
                                            cie: Option<Rules>)
    requires m.Valid() && prog != [] && !EndsInRestoreState(prog)
    requires ForwardInside(prog, s.curPc, end, m) && s.curPc <= pc < end
    requires Run(prog, s, pc, end, m, cie).Some?
    ensures s.curPc <= Run(prog, s, pc, end, m, cie).value.locs.pcStart
    decreases |prog|
  {
    StepShape(prog, s, end, m, cie);
    var s' := Step(prog[0], s, m, cie).value;
    if s'.curPc <= pc && |prog| > 1 {
      TailEndsAlike(prog);
      RowStartsForward(prog[1..], s', pc, end, m, cie);
    }
  }

  /** The range a row claims contains `pc` and lies inside the FDE. */
  lemma {:induction false} RowContainsPc(prog: seq<Instr>, s: State, pc: nat, end: nat, m: Machine, cie: Option<Rules>)
    requires m.Valid() && !EndsInRestoreState(prog)
    requires ForwardInside(prog, s.curPc, end, m) && s.curPc <= pc < end
    requires prog == [] ==> s.locs.pcStart <= pc
    requires Run(prog, s, pc, end, m, cie).Some?
    ensures var row := Run(prog, s, pc, end, m, cie).value.locs;
            row.pcStart <= pc < row.pcEnd <= end
    decreases |prog|
  {
    if prog != [] {
      StepShape(prog, s, end, m, cie);
      var s' := Step(prog[0], s, m, cie).value;
      if s'.curPc <= pc {
        if |prog| > 1 { TailEndsAlike(prog); }
        RowContainsPc(prog[1..], s', pc, end, m, cie);
      }
    }
  }

  /** Every address the row of `pc` claims is answered by the same rules when
      the program is run afresh for it. */
  lemma {:induction false} RowAgrees(prog: seq<Instr>, s: State, pc: nat, q: nat, end: nat, m: Machine,
                                     cie: Option<Rules>)
    requires m.Valid() && !EndsInRestoreState(prog)
    requires ForwardInside(prog, s.curPc, end, m) && s.curPc <= pc < end && s.curPc <= q < end
    requires Run(prog, s, pc, end, m, cie).Some?
    requires var row := Run(prog, s, pc, end, m, cie).value.locs; row.pcStart <= q < row.pcEnd
    ensures Run(prog, s, q, end, m, cie).Some?
    ensures Run(prog, s, q, end, m, cie).value.locs.rules == Run(prog, s, pc, end, m, cie).value.locs.rules
    decreases |prog|
  {
    if prog != [] {
      StepShape(prog, s, end, m, cie);
      var s' := Step(prog[0], s, m, cie).value;
      if s'.curPc <= pc {
        if |prog| > 1 {
          TailEndsAlike(prog);
          RowStartsForward(prog[1..], s', pc, end, m, cie);
        }
        if s'.curPc <= q {
          RowAgrees(prog[1..], s', pc, q, end, m, cie);
        }
      }
    }
  }

  /** A later address below the end of the row is answered by the same run. */
  lemma {:induction false} LaterSameRow(prog: seq<Instr>, s: State, pc: nat, q: nat, end: nat, m: Machine,
                                        cie: Option<Rules>)
    requires m.Valid() && s.curPc <= pc <= q
    requires Run(prog, s, pc, end, m, cie).Some? && q < Run(prog, s, pc, end, m, cie).value.locs.pcEnd
    ensures Run(prog, s, q, end, m, cie) == Run(prog, s, pc, end, m, cie)
    decreases |prog|
  {
    if prog != [] {
      var s' := Step(prog[0], s, m, cie).value;
      if s'.curPc <= pc {
        LaterSameRow(prog[1..], s', pc, q, end, m, cie);
      }
    }
  }

  // ---------- The row is the one the location table defines ----------

  /** The state after a whole prefix, with no address to stop at. */
  function ExecAll(prog: seq<Instr>, s: State, m: Machine, cie: Option<Rules>): Option<State>
    requires m.Valid()
  {
    if prog == [] then Some(s)
    else
      match Step(prog[0], s, m, cie)
      case None => None
      case Some(s') => ExecAll(prog[1..], s', m, cie)
  }

  /** `n` instructions can be executed without passing `pc`, and the next one,
      if there is one, moves past it. */
  predicate LongestPrefix(prog: seq<Instr>, s: State, pc: nat, n: nat, m: Machine, cie: Option<Rules>)
    requires m.Valid()
  {
    && n <= |prog|
    && ExecAll(prog[..n], s, m, cie).Some?
    && var before := ExecAll(prog[..n], s, m, cie).value;
      && before.curPc <= pc
      && (n < |prog| ==> Step(prog[n], before, m, cie).Some? && pc < Step(prog[n], before, m, cie).value.curPc)
  }

  lemma {:induction false} ExecAllCons(prog: seq<Instr>, s: State, n: nat, m: Machine, cie: Option<Rules>)
    requires m.Valid() && prog != [] && n <= |prog| - 1
    ensures ExecAll(prog[..n + 1], s, m, cie) ==
            match Step(prog[0], s, m, cie) case None => None case Some(s') => ExecAll(prog[1..][..n], s', m, cie)
  {
    assert prog[..n + 1][1..] == prog[1..][..n];
  }

  /** Early stopping is exact: the interpreter answers `pc` with the rules in
      force after the longest prefix of the program that does not move past
      `pc`, which is the table row section 6.4.1 of DWARF 4 assigns to it. */
  lemma {:induction false} RunIsLongestPrefix(prog: seq<Instr>, s: State, pc: nat, end: nat, m: Machine,
                                              cie: Option<Rules>)
    returns (n: nat)
    requires m.Valid() && ForwardInside(prog, s.curPc, end, m) && s.curPc <= pc < end
    requires Run(prog, s, pc, end, m, cie).Some?
    ensures LongestPrefix(prog, s, pc, n, m, cie)
    ensures Run(prog, s, pc, end, m, cie).value.locs.rules == ExecAll(prog[..n], s, m, cie).value.locs.rules
    decreases |prog|
  {
    if prog == [] {
      n := 0;
    } else {
      StepShape(prog, s, end, m, cie);
      var s' := Step(prog[0], s, m, cie).value;
      if pc < s'.curPc {
        n := 0;
        assert prog[..0] == [];
      } else {
        var k := RunIsLongestPrefix(prog[1..], s', pc, end, m, cie);
        n := k + 1;
        ExecAllCons(prog, s, k, m, cie);
      }
    }
  }

  // ---------- Restoring undoes ----------

  /** Neither pops a state it did not push nor leaves one behind. */
  predicate Balanced(prog: seq<Instr>, depth: nat) {
    if prog == [] then depth == 0
    else if prog[0].RememberState? then Balanced(prog[1..], depth + 1)
    else if prog[0].RestoreState? then depth > 0 && Balanced(prog[1..], depth - 1)
    else Balanced(prog[1..], depth)
  }

  lemma {:induction false} BalancedKeepsStack(prog: seq<Instr>, depth: nat, s: State, m: Machine, cie: Option<Rules>)
    requires m.Valid() && Balanced(prog, depth) && depth <= |s.stack|
    requires ExecAll(prog, s, m, cie).Some?
    ensures ExecAll(prog, s, m, cie).value.stack == s.stack[..|s.stack| - depth]
    decreases |prog|
  {
    if prog != [] {
      var s' := Step(prog[0], s, m, cie).value;
      if prog[0].RememberState? {
        BalancedKeepsStack(prog[1..], depth + 1, s', m, cie);
        assert s'.stack[..|s'.stack| - (depth + 1)] == s.stack[..|s.stack| - depth];
      } else if prog[0].RestoreState? {
        BalancedKeepsStack(prog[1..], depth - 1, s', m, cie);
        assert s'.stack[..|s'.stack| - (depth - 1)] == s.stack[..|s.stack| - depth];
      } else {
        BalancedKeepsStack(prog[1..], depth, s', m, cie);
      }
    }
  }

  lemma {:induction false} ExecAllConcat(a: seq<Instr>, b: seq<Instr>, s: State, m: Machine, cie: Option<Rules>)
    requires m.Valid()
    ensures ExecAll(a + b, s, m, cie) ==
            match ExecAll(a, s, m, cie) case None => None case Some(s') => ExecAll(b, s', m, cie)
    decreases |a|
  {
    if a == [] {
      assert a + b == b;
    } else {
      assert (a + b)[0] == a[0] && (a + b)[1..] == a[1..] + b;
      if Step(a[0], s, m, cie).Some? {
        ExecAllConcat(a[1..], b, Step(a[0], s, m, cie).value, m, cie);
      }
    }
  }

  /** Remember, any balanced program, restore: every register rule is back. */
  lemma {:induction false} RestoreStateUndoes(body: seq<Instr>, s: State, m: Machine, cie: Option<Rules>)
    requires m.Valid() && Balanced(body, 0)
    requires ExecAll([RememberState] + body + [RestoreState], s, m, cie).Some?
    ensures ExecAll([RememberState] + body + [RestoreState], s, m, cie).value.locs.rules == s.locs.rules
    ensures ExecAll([RememberState] + body + [RestoreState], s, m, cie).value.stack == s.stack
  {
    ExecAllConcat([RememberState] + body, [RestoreState], s, m, cie);
    ExecAllConcat([RememberState], body, s, m, cie);
    var remembered := Step(RememberState, s, m, cie).value;
    assert [RememberState][1..] == [];
    var inner := ExecAll(body, remembered, m, cie).value;
    BalancedKeepsStack(body, 0, remembered, m, cie);
    assert inner.stack == remembered.stack;
    assert [RestoreState][1..] == [];
  }

  /** Restores the registers one after the other. */
  function Restores(regs: seq<nat>): (r: seq<Instr>) {
    if regs == [] then [] else [Restore(regs[0])] + Restores(regs[1..])
  }

  predicate TargetsIn(prog: seq<Instr>, regs: seq<nat>) {
    forall i :: 0 <= i < |prog| && Target(prog[i]).Some? ==> Target(prog[i]).value in regs
  }

  /** The row and every remembered row have the rule of `rules` for `r`. */
  predicate AgreesAt(s: State, rules: Rules, r: nat) {
    SameRule(s.locs.rules, rules, r) && forall k :: 0 <= k < |s.stack| ==> SameRule(s.stack[k].rules, rules, r)
  }

  lemma {:induction false} KeepsOthers(prog: seq<Instr>, regs: seq<nat>, s: State, m: Machine, cie: Option<Rules>,
                                       rules: Rules, r: nat)
    requires m.Valid() && TargetsIn(prog, regs) && r !in regs && AgreesAt(s, rules, r) && ExecAll(prog, s, m, cie).Some?
    ensures AgreesAt(ExecAll(prog, s, m, cie).value, rules, r)
    decreases |prog|
  {
    hide ExecRule, Target;
    if prog != [] {
      var i, s' := prog[0], Step(prog[0], s, m, cie).value;
      if ExecRule(i, s.locs.rules, m, cie).Some? {
        OneRuleAtMost(i, s.locs.rules, m, cie, r);
      }
      KeepsOthers(prog[1..], regs, s', m, cie, rules, r);
    }
  }

  lemma {:induction false} RestoresGiveCie(regs: seq<nat>, s: State, m: Machine, cie: Rules, r: nat)
    requires m.Valid() && forall k :: 0 <= k < |regs| ==> regs[k] < TWO_32
    ensures ExecAll(Restores(regs), s, m, Some(cie)).Some?
    ensures SameRule(ExecAll(Restores(regs), s, m, Some(cie)).value.locs.rules,
                     if r in regs then cie else s.locs.rules, r)
    decreases |regs|
  {
    if regs != [] {
      var reg, s' := regs[0], Step(Restore(regs[0]), s, m, Some(cie)).value;
      assert Restores(regs)[0] == Restore(reg) && Restores(regs)[1..] == Restores(regs[1..]);
      assert SameRule(s'.locs.rules, if r == reg then cie else s.locs.rules, r);
      RestoresGiveCie(regs[1..], s', m, cie, r);
    }
  }

  /** From the CIE's rules, any program followed by a restore of every register it
      sets is back at the CIE's rules, whatever rows it remembers and goes back to:
      only rows left from before have to agree on the other registers. */
  lemma {:induction false} RestoresUndoProgram(prog: seq<Instr>, regs: seq<nat>, s: State, m: Machine, cie: Rules)
    requires m.Valid() && TargetsIn(prog, regs) && s.locs.rules == cie
    requires forall k, r: nat :: 0 <= k < |s.stack| && r !in regs ==> SameRule(s.stack[k].rules, cie, r)
    requires forall k :: 0 <= k < |regs| ==> regs[k] < TWO_32
    requires ExecAll(prog, s, m, Some(cie)).Some?
    ensures var after := ExecAll(prog + Restores(regs), s, m, Some(cie));
            after.Some? && after.value.locs.rules == cie
  {
    hide ExecAll, SameRule, Restores, TargetsIn;
    ExecAllConcat(prog, Restores(regs), s, m, Some(cie));
    var ran := ExecAll(prog, s, m, Some(cie)).value;
    RestoresGiveCie(regs, ran, m, cie, 0);
    var after := ExecAll(Restores(regs), ran, m, Some(cie)).value.locs.rules;
    forall r: nat ensures (r in after <==> r in cie) && (r in cie ==> after[r] == cie[r]) {
      RestoresGiveCie(regs, ran, m, cie, r);
      SameRuleMeans(cie, cie, r);
      if r !in regs {
        KeepsOthers(prog, regs, s, m, Some(cie), cie, r);
      }
      SameRuleMeans(after, if r in regs then cie else ran.locs.rules, r);
      SameRuleMeans(ran.locs.rules, cie, r);
    }
    assert after == cie;
  }

  lemma {:induction false} SameRuleMeans(a: Rules, b: Rules, r: nat)
    ensures SameRule(a, b, r) <==> (r in a <==> r in b) && (r in a ==> a[r] == b[r])
  {
  }

  // ---------- The interpreter object ----------

  class DwarfCfa {
    const machine: Machine
    const pcStart: nat
    const pcEnd: nat
    var curPc: nat
    var cieLocRegs: Option<Rules>
    var locRegState: seq<Locations>

    constructor (machine: Machine, pcStart: nat, pcEnd: nat)
      requires machine.Valid()
      ensures this.machine == machine && this.pcStart == pcStart && this.pcEnd == pcEnd
      ensures cieLocRegs == None && locRegState == []
    {
      this.machine, this.pcStart, this.pcEnd := machine, pcStart, pcEnd;
      curPc, cieLocRegs, locRegState := 0, None, [];
    }

    /** The state the loop starts in. */
    function Entry(locRegs: Locations): State
      requires machine.Valid()
      reads this
    {
      var start := pcStart % machine.addresses;
      var rules := if cieLocRegs.Some? then locRegs.rules + cieLocRegs.value else locRegs.rules;
      State(start, locRegs.(rules := rules, pcStart := start), locRegState)
    }

    /** Runs a program for `pc`. */
    method GetLocationInfo(pc: nat, program: seq<Instr>, locRegs: Locations) returns (ok: bool, row: Locations)
      requires machine.Valid()
      modifies this`curPc, this`locRegState
      ensures var r := old(Run(program, Entry(locRegs), pc, pcEnd, machine, cieLocRegs));
              && ok == r.Some?
              && (ok ==> row == r.value.locs && locRegState == r.value.stack && curPc == r.value.curPc)
    {
      ghost var whole := Run(program, Entry(locRegs), pc, pcEnd, machine, cieLocRegs);
      var start := Entry(locRegs);
      row, curPc, locRegState := start.locs, start.curPc, start.stack;
      var i := 0;
      while true
        invariant 0 <= i <= |program|
        invariant Run(program[i..], State(curPc, row, locRegState), pc, pcEnd, machine, cieLocRegs) == whole
        decreases |program| - i
      {
        if pc < curPc {
          row := row.(pcEnd := curPc);
          return true, row;
        }
        if |program| <= i {
          row := row.(pcEnd := pcEnd);
          return true, row;
        }
        var s' := Step(program[i], State(curPc, row, locRegState), machine, cieLocRegs);
        assert program[i..][1..] == program[i + 1..];
        if s'.None? {
          return false, locRegs;
        }
        row, curPc, locRegState := s'.value.locs, s'.value.curPc, s'.value.stack;
        i := i + 1;
      }
    }
  }
}
