/** What a row says: the registers of the caller (section 6.4.1 of DWARF 4), and the
    evaluation that writes them over the callee's (unwindstack/DwarfSection.cpp,
    Eval and EvalRegister; unwindstack/RegsInfo.h). */
module RowMeaning {
  import opened Wrappers
  import opened CfaProgram
  import opened OffsetExtended

  /** The callee's registers, the words of memory, and the value of the expression
      between two offsets of the section. */
  datatype Frame = Frame(regs: seq<nat>, memory: nat -> Option<nat>, expression: (nat, nat) -> Option<nat>)

  /** The value a register had in the caller; `Lost` cannot be recovered. */
  datatype Recovered = Known(value: nat) | Lost | Failed

  function Load(f: Frame, address: nat): (r: Recovered) {
    if f.memory(address).None? then Failed else Known(f.memory(address).value)
  }

  /** The expression of `length` bytes that ends at `end`. */
  function Block(f: Frame, length: nat, end: nat): (r: Option<nat>) {
    f.expression((end - length) % TWO_64, end)
  }

  /** The value of a register under its rule, of which there are seven kinds and none. */
  function RuleValue(rule: Option<Loc>, reg: nat, cfa: nat, f: Frame, addresses: nat): (r: Recovered)
    requires reg < |f.regs| && addresses > 0
  {
    if rule.None? then Known(f.regs[reg]) else
    var loc := rule.value;
    match loc.kind
    case Undefined => Lost
    case Offset => Load(f, (cfa + loc.v0) % TWO_64)
    case ValOffset => Known((cfa + loc.v0) % addresses)
    case Register =>
      if loc.v0 % TWO_32 < |f.regs| then Known((f.regs[loc.v0 % TWO_32] + loc.v1) % addresses) else Failed
    case Expression => (var a := Block(f, loc.v0, loc.v1); if a.None? then Failed else Load(f, a.value))
    case ValExpression => (var a := Block(f, loc.v0, loc.v1); if a.None? then Failed else Known(a.value))
    case PseudoRegister => Failed
  }

  function RuleFor(rules: Rules, reg: nat): (r: Option<Loc>) {
    if reg in rules then Some(rules[reg]) else None
  }

  function CallerValue(rules: Rules, reg: nat, cfa: nat, f: Frame, addresses: nat): (r: Recovered)
    requires reg < |f.regs| && addresses > 0
  {
    RuleValue(RuleFor(rules, reg), reg, cfa, f, addresses)
  }

  function CfaValue(rules: Rules, f: Frame, addresses: nat): (r: Option<nat>)
    requires addresses > 0
  {
    if CFA_REG !in rules then None else
    var loc := rules[CFA_REG];
    match loc.kind
    case Register => RegisterPlus(f, loc.v0, loc.v1, addresses)
    case ValExpression => Block(f, loc.v0, loc.v1)
    case _ => None
  }

  function RegisterPlus(f: Frame, reg: nat, offset: int, addresses: nat): (r: Option<nat>)
    requires addresses > 0
  {
    if reg < |f.regs| then Some((f.regs[reg] + offset) % addresses) else None
  }

  /** Whether the return address is signed in the caller's frame. */
  predicate ReturnIsSigned(rules: Rules) {
    RA_SIGN_STATE_REG in rules && rules[RA_SIGN_STATE_REG].v0 % 2 == 1
  }

  // ---------- What each instruction says ----------

  /** A number as a signed address-sized register holds it. */
  function Wrapped(m: Machine, x: int): (r: int)
    requires m.Valid()
    ensures 0 - m.addresses / 2 <= r < m.addresses / 2
  {
    (x + m.addresses / 2) % m.addresses - m.addresses / 2
  }

  predicate SetsRegister(i: Instr) {
    i.OffsetRule? || i.OffsetExtended? || i.Restore? || i.UndefinedRule? || i.SameValue? || i.RegisterRule?
    || i.ExpressionRule? || i.OffsetExtendedSf? || i.ValOffsetRule? || i.ValExpressionRule? || i.GnuNegativeOffset?
  }

  /** What the standard says an instruction tells of its register; offset_extended
      alone is taken as the handler has it, without the alignment factor. */
  function Denoted(i: Instr, reg: nat, m: Machine, cie: Rules, cfa: nat, f: Frame): (r: Recovered)
    requires m.Valid() && SetsRegister(i) && reg < |f.regs|
  {
    match i
    case OffsetRule(_, n) => Load(f, (cfa + Wrapped(m, n * m.dataAlign)) % 0x1_0000_0000_0000_0000)
    case OffsetExtendedSf(_, n) => Load(f, (cfa + Wrapped(m, n * m.dataAlign)) % 0x1_0000_0000_0000_0000)
    case OffsetExtended(_, n) => Load(f, (cfa + n) % 0x1_0000_0000_0000_0000)
    case GnuNegativeOffset(_, n) => Load(f, (cfa + Wrapped(m, 0 - n)) % 0x1_0000_0000_0000_0000)
    case ValOffsetRule(_, n) => Known((cfa + n * m.dataAlign) % m.addresses)
    case RegisterRule(_, other) =>
      if other % 0x1_0000_0000 < |f.regs| then Known(f.regs[other % 0x1_0000_0000] % m.addresses) else Failed
    case ExpressionRule(_, length, end) =>
      (var a := f.expression((end - length) % TWO_64, end); if a.None? then Failed else Load(f, a.value))
    case ValExpressionRule(_, length, end) =>
      (var a := f.expression((end - length) % TWO_64, end); if a.None? then Failed else Known(a.value))
    case Restore(_) => CallerValue(cie, reg, cfa, f, m.addresses)
    case UndefinedRule(_) => Lost
    case SameValue(_) => Known(f.regs[reg])
  }

  /** Whole turns do not show. */
  lemma {:induction false} SameTurn(x: int, y: int, k: int, c: nat)
    requires c > 0 && x == y + k * c
    ensures x % c == y % c
  {
    var q, r := y / c, y % c;
    assert x == (q + k) * c + r by {
      assert y == q * c + r;
    }
    RemainderIs(q + k, r, c);
  }

  lemma {:induction false} SameSum(base: int, x: int, y: int, c: nat)
    requires c > 0 && x % c == y % c
    ensures (base + x) % c == (base + y) % c
  {
    var k := x / c - y / c;
    assert x - y == k * c by {
      assert x == (x / c) * c + x % c && y == (y / c) * c + y % c;
    }
    SameTurn(base + x, base + y, k, c);
  }

  /** Arithmetic at 64 bits is arithmetic at the width of an address. */
  lemma {:induction false} Narrowed(m: Machine, x: int)
    requires m.Valid()
    ensures x % TWO_64 % m.addresses == x % m.addresses
  {
    var q := x / TWO_64;
    assert x % TWO_64 == x - q * TWO_64;
    if m.addresses == TWO_32 {
      SameTurn(x % TWO_64, x, -q * TWO_32, TWO_32);
    } else {
      SameTurn(x % TWO_64, x, -q, TWO_64);
    }
  }

  lemma {:induction false} WrappedIs(m: Machine, x: int)
    requires m.Valid()
    ensures Wrapped(m, x) % m.addresses == x % m.addresses
  {
    var half, y := m.addresses / 2, x + m.addresses / 2;
    var q := y / m.addresses;
    assert y % m.addresses == y - q * m.addresses;
    SameTurn(Wrapped(m, x), x, -q, m.addresses);
  }

  lemma {:induction false} WidenedIsWrapped(m: Machine, x: int)
    requires m.Valid()
    ensures m.Widened(x) == Wrapped(m, x) % TWO_64
  {
    var y, k := x % m.addresses, Wrapped(m, x);
    WrappedIs(m, x);
    var signed := m.Signed(y);
    assert y % m.addresses == y;
    assert signed == if y < m.addresses / 2 then y else y - m.addresses;
    assert k == signed by {
      SmallIs(m, k, y);
    }
  }

  lemma {:induction false} SmallIs(m: Machine, k: int, y: nat)
    requires m.Valid() && 0 - m.addresses / 2 <= k < m.addresses / 2 && y < m.addresses && k % m.addresses == y
    ensures k == if y < m.addresses / 2 then y else y - m.addresses
  {
    if m.addresses == TWO_32 {
      assert k % TWO_32 == if k >= 0 then k else k + TWO_32;
    } else {
      assert k % TWO_64 == if k >= 0 then k else k + TWO_64;
    }
  }

  lemma {:induction false} WrappedSame(m: Machine, x: int, y: int)
    requires m.Valid() && x % m.addresses == y % m.addresses
    ensures Wrapped(m, x) == Wrapped(m, y)
  {
    SameSum(m.addresses / 2, x, y, m.addresses);
  }

  lemma {:induction false} FactoredIsWrapped(m: Machine, n: nat)
    requires m.Valid()
    ensures m.Factored(n) == Wrapped(m, n * m.dataAlign) % TWO_64
  {
    hide Wrapped;
    SignedTimes(m, n);
    WidenedIsWrapped(m, m.Signed(n) * m.dataAlign);
    WrappedSame(m, m.Signed(n) * m.dataAlign, n * m.dataAlign);
  }

  lemma {:induction false} NegatedIsWrapped(m: Machine, n: nat)
    requires m.Valid()
    ensures m.Widened(-m.Signed(n)) == Wrapped(m, 0 - n) % TWO_64
  {
    hide Wrapped;
    WidenedIsWrapped(m, -m.Signed(n));
    SignedNegated(m, n);
    WrappedSame(m, -m.Signed(n), 0 - n);
  }

  lemma {:induction false} SignedNegated(m: Machine, n: nat)
    requires m.Valid()
    ensures -m.Signed(n) % m.addresses == (0 - n) % m.addresses
  {
    var k := SignedTurns(m, n);
    SameTurn(-m.Signed(n), 0 - n, k, m.addresses);
  }

  lemma {:induction false} AddWrapped(m: Machine, base: nat, x: int)
    requires m.Valid()
    ensures (base + Wrapped(m, x) % TWO_64) % TWO_64 == (base + Wrapped(m, x)) % TWO_64
    ensures (base + Wrapped(m, x) % TWO_64) % m.addresses == (base + x) % m.addresses
  {
    hide Wrapped;
    var k := Wrapped(m, x);
    assert k % TWO_64 % TWO_64 == k % TWO_64;
    SameSum(base, k % TWO_64, k, TWO_64);
    Narrowed(m, k);
    WrappedIs(m, x);
    SameSum(base, k % TWO_64, x, m.addresses);
  }

  lemma {:induction false} AddFactored(m: Machine, base: nat, n: nat)
    requires m.Valid()
    ensures (base + m.Factored(n)) % TWO_64 == (base + Wrapped(m, n * m.dataAlign)) % TWO_64
    ensures (base + m.Factored(n)) % m.addresses == (base + n * m.dataAlign) % m.addresses
  {
    hide Wrapped;
    FactoredIsWrapped(m, n);
    AddWrapped(m, base, n * m.dataAlign);
  }

  lemma {:induction false} AddNegated(m: Machine, base: nat, n: nat)
    requires m.Valid()
    ensures (base + m.Widened(-m.Signed(n))) % TWO_64 == (base + Wrapped(m, 0 - n)) % TWO_64
  {
    hide Wrapped;
    NegatedIsWrapped(m, n);
    AddWrapped(m, base, 0 - n);
  }

  lemma {:induction false} RegisterNumber(m: Machine, n: nat)
    requires m.Valid()
    ensures n % m.addresses % TWO_32 == n % TWO_32
  {
    if m.addresses == TWO_64 {
      var q := n / TWO_64;
      assert n % TWO_64 == n - q * TWO_64;
      SameTurn(n % TWO_64, n, -q * TWO_32, TWO_32);
    } else {
      assert n % TWO_32 % TWO_32 == n % TWO_32;
    }
  }

  /** The rule an instruction leaves its register, as the handlers write it. */
  function Written(i: Instr, m: Machine, cie: Rules): (r: Option<Loc>)
    requires m.Valid() && SetsRegister(i)
  {
    match i
    case OffsetRule(_, n) => Some(Loc(Offset, m.Factored(n), 0))
    case OffsetExtendedSf(_, n) => Some(Loc(Offset, m.Factored(n), 0))
    case OffsetExtended(_, n) => Some(Loc(Offset, n, 0))
    case GnuNegativeOffset(_, n) => Some(Loc(Offset, m.Widened(-m.Signed(n)), 0))
    case ValOffsetRule(_, n) => Some(Loc(ValOffset, m.Factored(n), 0))
    case RegisterRule(_, other) => Some(Loc(Register, other % m.addresses, 0))
    case ExpressionRule(_, length, end) => Some(Loc(Expression, length, end))
    case ValExpressionRule(_, length, end) => Some(Loc(ValExpression, length, end))
    case Restore(_) => RuleFor(cie, i.reg % TWO_32)
    case UndefinedRule(_) => Some(Loc(Undefined, 0, 0))
    case SameValue(_) => None
  }

  lemma {:induction false} RuleIsWritten(i: Instr, rules: Rules, m: Machine, cie: Rules)
    requires m.Valid() && SetsRegister(i)
    ensures var after := ExecRule(i, rules, m, Some(cie));
            after.Some? && RuleFor(after.value, i.reg % TWO_32) == Written(i, m, cie)
  {
    hide Machine.Widened, Machine.Factored, Machine.Signed;
  }

  lemma {:induction false} WrittenMeans(i: Instr, m: Machine, cie: Rules, cfa: nat, f: Frame, reg: nat)
    requires m.Valid() && SetsRegister(i) && i.reg % TWO_32 == reg < |f.regs|
    ensures RuleValue(Written(i, m, cie), reg, cfa, f, m.addresses) == Denoted(i, reg, m, cie, cfa, f)
  {
    hide Wrapped, Machine.Widened, Machine.Factored, Machine.Signed, Load, RuleFor;
    if i.OffsetRule? || i.OffsetExtendedSf? || i.ValOffsetRule? {
      AddFactored(m, cfa, i.factored);
    } else if i.GnuNegativeOffset? {
      AddNegated(m, cfa, i.offset);
    } else if i.RegisterRule? {
      RegisterNumber(m, i.dst);
    }
  }

  /** After an instruction its register has in the caller the value the standard
      says, for every callee and memory. */
  lemma {:induction false} InstructionMeans(i: Instr, rules: Rules, m: Machine, cie: Rules, cfa: nat, f: Frame)
    requires m.Valid() && SetsRegister(i) && i.reg % TWO_32 < |f.regs|
    ensures var after := ExecRule(i, rules, m, Some(cie));
            after.Some? &&
            CallerValue(after.value, i.reg % TWO_32, cfa, f, m.addresses) ==
            Denoted(i, i.reg % TWO_32, m, cie, cfa, f)
  {
    hide Written, ExecRule, Denoted, RuleValue;
    RuleIsWritten(i, rules, m, cie);
    WrittenMeans(i, m, cie, cfa, f, i.reg % TWO_32);
  }

  /** Every other register keeps its value. */
  lemma {:induction false} OthersKeepValue(i: Instr, rules: Rules, m: Machine, cie: Option<Rules>, cfa: nat, f: Frame,
                                           reg: nat)
    requires m.Valid() && ExecRule(i, rules, m, cie).Some? && Target(i) != Some(reg) && reg < |f.regs|
    ensures CallerValue(ExecRule(i, rules, m, cie).value, reg, cfa, f, m.addresses) ==
            CallerValue(rules, reg, cfa, f, m.addresses)
  {
    hide ExecRule, Target;
    OneRuleAtMost(i, rules, m, cie, reg);
  }

  /** What the instructions that set the CFA make of it. */
  lemma {:induction false} CfaIsSet(rules: Rules, m: Machine, cie: Option<Rules>, f: Frame, reg: nat, n: nat, end: nat)
    requires m.Valid()
    ensures var a := m.addresses;
            && CfaValue(Ran(DefCfa(reg, n), rules, m, cie), f, a) == RegisterPlus(f, reg, n, a)
            && CfaValue(Ran(DefCfaSf(reg, n), rules, m, cie), f, a) == RegisterPlus(f, reg, n * m.dataAlign, a)
            && CfaValue(Ran(DefCfaExpression(n, end), rules, m, cie), f, a) ==
                 f.expression((end - n) % TWO_64, end)
  {
    hide Wrapped, Machine.Widened, Machine.Factored, Machine.Signed;
    if reg < |f.regs| {
      AddFactored(m, f.regs[reg], n);
    }
  }

  /** And those that change its register or its offset. */
  lemma {:induction false} CfaIsChanged(rules: Rules, m: Machine, cie: Option<Rules>, f: Frame, reg: nat, n: nat)
    requires m.Valid() && CfaIsRegister(rules)
    ensures var a, loc := m.addresses, rules[CFA_REG];
            && CfaValue(Ran(DefCfaRegister(reg), rules, m, cie), f, a) == RegisterPlus(f, reg, loc.v1, a)
            && CfaValue(Ran(DefCfaOffset(n), rules, m, cie), f, a) == RegisterPlus(f, loc.v0, n, a)
            && CfaValue(Ran(DefCfaOffsetSf(n), rules, m, cie), f, a) ==
                 RegisterPlus(f, loc.v0, n * m.dataAlign, a)
  {
    hide Wrapped, Machine.Widened, Machine.Factored, Machine.Signed;
    if rules[CFA_REG].v0 < |f.regs| {
      AddFactored(m, f.regs[rules[CFA_REG].v0], n);
    }
  }

  /** The rules an instruction leaves, or those it found if it fails. */
  function Ran(i: Instr, rules: Rules, m: Machine, cie: Option<Rules>): (r: Rules)
    requires m.Valid()
  {
    var after := ExecRule(i, rules, m, cie);
    if after.None? then rules else after.value
  }

  /** Which instructions fail: those for arm64 elsewhere, restore in a CIE, a change
      of half of a CFA that is no register, and what cannot be decoded. */
  lemma {:induction false} FailsIff(i: Instr, rules: Rules, m: Machine, cie: Option<Rules>)
    requires m.Valid()
    ensures ExecRule(i, rules, m, cie).None? <==>
            || (i.NegateRaState? && !m.isArm64)
            || (i.Restore? && cie.None?)
            || ((i.DefCfaRegister? || i.DefCfaOffset? || i.DefCfaOffsetSf?) && !CfaIsRegister(rules))
            || i.Illegal? || i.Unreadable?
  {
  }

  /** Each negation turns the state of the return address round, from unsigned where
      there is no rule; two leave it, and a rule that was there, as they were. */
  lemma {:induction false} NegateTurnsRound(rules: Rules, m: Machine, cie: Option<Rules>)
    requires m.Valid() && m.isArm64
    ensures var once := Ran(NegateRaState, rules, m, cie);
            var twice := Ran(NegateRaState, once, m, cie);
            && ReturnIsSigned(once) == !ReturnIsSigned(rules) && ReturnIsSigned(twice) == ReturnIsSigned(rules)
            && (RA_SIGN_STATE_REG in rules ==> twice == rules)
            && (RA_SIGN_STATE_REG !in rules ==> once == rules[34 := Loc(PseudoRegister, 1, 0)])
  {
    var once := Ran(NegateRaState, rules, m, cie);
    var twice := Ran(NegateRaState, once, m, cie);
    if RA_SIGN_STATE_REG in rules {
      assert twice[RA_SIGN_STATE_REG] == rules[RA_SIGN_STATE_REG];
      assert twice == rules;
    }
  }

  // ---------- Evaluation in place ----------

  const MAX_REGISTERS := 64

  /** Remembers what a register held before it was written. */
  class RegsInfo {
    const regs: array<nat>
    var saved: map<nat, nat>
    ghost const original: seq<nat>

    ghost predicate Valid()
      reads this, regs
    {
      && |original| == regs.Length
      && forall k: nat :: k < regs.Length ==> original[k] == if k in saved then saved[k] else regs[k]
    }

    constructor (regs: array<nat>)
      ensures Valid() && this.regs == regs && saved == map[] && original == regs[..]
    {
      this.regs, saved, original := regs, map[], regs[..];
    }

    method Get(reg: nat) returns (value: nat)
      requires Valid() && reg < regs.Length
      ensures value == original[reg]
    {
      if reg in saved {
        return saved[reg];
      }
      return regs[reg];
    }

    /** From now on the register may be written. */
    method Save(reg: nat)
      requires Valid() && reg < regs.Length && reg !in saved
      modifies this`saved
      ensures Valid() && saved == old(saved)[reg := regs[reg]]
    {
      saved := saved[reg := regs[reg]];
    }
  }

  function ValueOr(r: Recovered, otherwise: nat): (v: nat) {
    if r.Known? then r.value else otherwise
  }

  /** Writes one register, from what the registers held at the start. */
  method EvalRegister(info: RegsInfo, loc: Loc, reg: nat, cfa: nat, memory: nat -> Option<nat>,
                      expression: (nat, nat) -> Option<nat>, addresses: nat) returns (ok: bool)
    requires info.Valid() && reg < info.regs.Length && addresses > 0 && reg in info.saved
    modifies info.regs
    ensures info.Valid()
    ensures var value := RuleValue(Some(loc), reg, cfa, Frame(info.original, memory, expression), addresses);
            && ok == !value.Failed?
            && (ok ==> info.regs[reg] == ValueOr(value, old(info.regs[reg])))
    ensures forall k :: 0 <= k < info.regs.Length && k != reg ==> info.regs[k] == old(info.regs[k])
  {
    ok := true;
    match loc.kind {
      case Offset =>
        var word := memory((cfa + loc.v0) % TWO_64);
        if word.None? { return false; }
        info.regs[reg] := word.value;
      case ValOffset =>
        info.regs[reg] := (cfa + loc.v0) % addresses;
      case Register =>
        var from := loc.v0 % TWO_32;
        if from >= info.regs.Length { return false; }
        var value := info.Get(from);
        info.regs[reg] := (value + loc.v1) % addresses;
      case Expression =>
        var address := expression((loc.v1 - loc.v0) % TWO_64, loc.v1);
        if address.None? { return false; }
        var word := memory(address.value);
        if word.None? { return false; }
        info.regs[reg] := word.value;
      case ValExpression =>
        var value := expression((loc.v1 - loc.v0) % TWO_64, loc.v1);
        if value.None? { return false; }
        info.regs[reg] := value.value;
      case Undefined =>
      case PseudoRegister => return false;
    }
  }

  predicate IsPseudo(reg: nat, isArm64: bool) {
    isArm64 && reg == RA_SIGN_STATE_REG
  }

  /** The rule for `reg` can be evaluated. */
  ghost predicate Evaluates(rules: Rules, reg: nat, cfa: nat, f: Frame, addresses: nat, isArm64: bool)
    requires reg in rules && addresses > 0
  {
    if reg == CFA_REG then true
    else if reg < |f.regs| then !CallerValue(rules, reg, cfa, f, addresses).Failed?
    else rules[reg].kind.PseudoRegister? ==> IsPseudo(reg, isArm64)
  }

  /** The registers while rules remain to be evaluated: those done have the caller's
      values, the others the callee's. */
  ghost predicate Halfway(now: seq<nat>, todo: set<nat>, rules: Rules, cfa: nat, f: Frame, addresses: nat)
    requires addresses > 0
  {
    && |now| == |f.regs| && todo <= rules.Keys
    && forall k: nat :: k < |now| ==>
         now[k] == if k in todo || k == CFA_REG then f.regs[k]
                   else ValueOr(CallerValue(rules, k, cfa, f, addresses), f.regs[k])
  }

  lemma {:induction false} NothingDone(rules: Rules, cfa: nat, f: Frame, addresses: nat)
    requires addresses > 0
    ensures Halfway(f.regs, rules.Keys, rules, cfa, f, addresses)
  {
  }

  /** Evaluates every rule, in any order, over the registers it reads from. */
  method EvalAll(regs: array<nat>, rules: Rules, cfa: nat, memory: nat -> Option<nat>,
                 expression: (nat, nat) -> Option<nat>, addresses: nat, isArm64: bool)
    returns (ok: bool, raSignState: nat)
    requires addresses > 0
    modifies regs
    ensures var f := Frame(old(regs[..]), memory, expression);
            && (ok <==> forall r :: r in rules ==> Evaluates(rules, r, cfa, f, addresses, isArm64))
            && (ok ==> Halfway(regs[..], {}, rules, cfa, f, addresses))
            && (ok && isArm64 && regs.Length <= RA_SIGN_STATE_REG ==> (raSignState % 2 == 1 <==> Signs(rules)))
  {
    hide RuleValue;
    ghost var f := Frame(regs[..], memory, expression);
    var info := new RegsInfo(regs);
    var todo := rules.Keys;
    NothingDone(rules, cfa, f, addresses);
    raSignState := 0;
    ok := true;
    while todo != {}
      invariant info.Valid() && info.regs == regs && info.original == f.regs && fresh(info)
      invariant info.saved.Keys !! todo
      invariant Halfway(regs[..], todo, rules, cfa, f, addresses)
      invariant forall r :: r in rules && r !in todo ==> Evaluates(rules, r, cfa, f, addresses, isArm64)
      invariant raSignState == if isArm64 && regs.Length <= RA_SIGN_STATE_REG && RA_SIGN_STATE_REG in rules.Keys - todo
                                  && rules[RA_SIGN_STATE_REG].kind.PseudoRegister?
                               then rules[RA_SIGN_STATE_REG].v0 else 0
      decreases |todo|
    {
      var reg :| reg in todo;
      if reg == CFA_REG {
      } else if reg >= regs.Length {
        if rules[reg].kind.PseudoRegister? {
          if !IsPseudo(reg, isArm64) {
            assert !Evaluates(rules, reg, cfa, f, addresses, isArm64);
            return false, 0;
          }
          raSignState := rules[reg].v0;
        }
      } else {
        info.Save(reg);
        ok := EvalRegister(info, rules[reg], reg, cfa, memory, expression, addresses);
        if !ok {
          assert !Evaluates(rules, reg, cfa, f, addresses, isArm64);
          return;
        }
      }
      todo := todo - {reg};
    }
  }

  predicate Signs(rules: Rules) {
    ReturnIsSigned(rules) && rules[RA_SIGN_STATE_REG].kind.PseudoRegister?
  }

  /** Where the registers are, and what the CIE says besides rules. */
  datatype Layout = Layout(pc: nat, sp: nat, returnAddress: nat, isSignalFrame: bool, isArm64: bool)

  /** What the caller's registers are: each by its rule, the program counter from
      the return address and the stack pointer from the CFA. */
  ghost function CallerRegister(rules: Rules, reg: nat, cfa: nat, f: Frame, addresses: nat, l: Layout): nat
    requires addresses > 0 && reg < |f.regs| && l.returnAddress < |f.regs|
  {
    if reg == l.sp then cfa
    else if reg == l.pc then
      var back := CallerValue(rules, l.returnAddress, cfa, f, addresses);
      if back.Lost? then 0 else ValueOr(back, f.regs[l.returnAddress])
    else ValueOr(CallerValue(rules, reg, cfa, f, addresses), f.regs[reg])
  }

  /** Turns the callee's registers into the caller's, in place and as if all at once. */
  method Eval(regs: array<nat>, rules: Rules, l: Layout, memory: nat -> Option<nat>,
              expression: (nat, nat) -> Option<nat>, addresses: nat)
    returns (ok: bool, finished: bool, raSignState: nat)
    requires addresses > 0 && regs.Length <= MAX_REGISTERS && l.pc < regs.Length && l.sp < regs.Length && l.pc != l.sp
    modifies regs
    ensures var f := Frame(old(regs[..]), memory, expression);
            var cfa := CfaValue(rules, f, addresses);
            && (ok <==> l.returnAddress < regs.Length && cfa.Some?
                        && forall r :: r in rules ==> Evaluates(rules, r, cfa.value, f, addresses, l.isArm64))
            && (ok ==> forall r :: 0 <= r < regs.Length ==>
                         regs[r] == CallerRegister(rules, r, cfa.value, f, addresses, l))
    ensures ok ==> (finished <==> regs[l.pc] == 0 && !l.isSignalFrame)
    ensures ok && l.isArm64 && regs.Length <= RA_SIGN_STATE_REG ==> (raSignState % 2 == 1 <==> Signs(rules))
  {
    hide RuleValue;
    ghost var f := Frame(regs[..], memory, expression);
    ok, finished, raSignState := false, false, 0;
    if l.returnAddress >= regs.Length || CFA_REG !in rules {
      return;
    }
    var loc, cfa := rules[CFA_REG], 0;
    if loc.kind.Register? {
      if loc.v0 >= regs.Length { return; }
      cfa := (regs[loc.v0] + loc.v1) % addresses;
    } else if loc.kind.ValExpression? {
      var value := expression((loc.v1 - loc.v0) % TWO_64, loc.v1);
      if value.None? { return; }
      cfa := value.value;
    } else {
      return;
    }
    assert CfaValue(rules, f, addresses) == Some(cfa);
    ok, raSignState := EvalAll(regs, rules, cfa, memory, expression, addresses, l.isArm64);
    if !ok { return; }
    LostIsUndefined(rules, l.returnAddress, cfa, f, addresses);
    regs[l.pc] := if l.returnAddress in rules && rules[l.returnAddress].kind.Undefined? then 0
                  else regs[l.returnAddress];
    finished := regs[l.pc] == 0 && !l.isSignalFrame;
    regs[l.sp] := cfa;
  }

  lemma {:induction false} LostIsUndefined(rules: Rules, reg: nat, cfa: nat, f: Frame, addresses: nat)
    requires addresses > 0 && reg < |f.regs|
    ensures CallerValue(rules, reg, cfa, f, addresses).Lost? <==> reg in rules && rules[reg].kind.Undefined?
  {
  }
}
