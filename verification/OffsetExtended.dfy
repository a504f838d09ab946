/** The operand of DW_CFA_offset_extended, which its handler leaves unfactored
    (unwindstack/DwarfCfa.cpp). */
module OffsetExtended {
  import opened Wrappers
  import opened CfaProgram

  /** `v` is what sign-extending an address-sized number to 64 bits gives. */
  predicate SignExtended(m: Machine, v: nat) {
    v < m.addresses / 2 || TWO_64 - m.addresses / 2 <= v < TWO_64
  }

  lemma {:induction false} SignedTimes(m: Machine, v: nat)
    requires m.Valid()
    ensures m.Signed(v) * m.dataAlign % m.addresses == v * m.dataAlign % m.addresses
  {
    var k := SignedTurns(m, v);
    Expand(v, k, m.addresses, m.dataAlign);
    WholeTurns(m, v * m.dataAlign, k * m.dataAlign);
  }

  lemma {:induction false} SignedTurns(m: Machine, v: nat) returns (k: nat)
    requires m.Valid()
    ensures m.Signed(v) == v - k * m.addresses
  {
    k := v / m.addresses + if v % m.addresses < m.addresses / 2 then 0 else 1;
  }

  lemma {:induction false} RemainderIs(p: int, r: nat, c: nat)
    requires r < c
    ensures (p * c + r) % c == r
  {
    var y := p * c + r;
    var q, s := y / c, y % c;
    assert y == q * c + s;
    assert (q - p) * c == r - s;
    assert q - p >= 1 ==> (q - p) * c >= c;
    assert q - p <= -1 ==> (q - p) * c + c <= 0;
  }

  lemma {:induction false} WholeTurns(m: Machine, x: int, q: int)
    requires m.Valid()
    ensures (x - q * m.addresses) % m.addresses == x % m.addresses
  {
    var a := m.addresses;
    var p, r := x / a, x % a;
    assert x - q * a == (p - q) * a + r by {
      assert x == p * a + r;
    }
    RemainderIs(p - q, r, a);
  }

  lemma {:induction false} Expand(v: int, k: int, a: int, d: int)
    ensures (v - k * a) * d == v * d - (k * d) * a
  {
  }

  lemma {:induction false} WidenedIs(m: Machine, x: int, v: nat)
    requires m.Valid()
    ensures m.Widened(x) == v <==> x % m.addresses == v % m.addresses && SignExtended(m, v)
  {
    var y := x % m.addresses;
    assert y % m.addresses == y;
    if m.addresses == TWO_32 {
      assert m.Widened(x) == if y < TWO_32 / 2 then y else TWO_64 - TWO_32 + y;
    } else {
      assert m.Widened(x) == y;
    }
  }

  lemma {:induction false} SameModulo(m: Machine, x: int, v: int)
    requires m.Valid()
    ensures x % m.addresses == v % m.addresses <==> (x - v) % m.addresses == 0
  {
  }

  /** The handler of offset_extended does what the standard asks of it (section
      6.4.2.3 of DWARF 4), as the compact form does, exactly when multiplying by
      the data alignment factor changes nothing at the width of an address. */
  lemma {:induction false} OffsetExtendedIff(reg: nat, v: nat, rules: Rules, m: Machine, cie: Option<Rules>)
    requires m.Valid()
    ensures ExecRule(OffsetExtended(reg, v), rules, m, cie) == ExecRule(OffsetRule(reg, v), rules, m, cie) <==>
            SignExtended(m, v) && v * (m.dataAlign - 1) % m.addresses == 0
  {
    FactorChangesNothing(m, v);
    PutTwice(rules, reg % TWO_32, Loc(Offset, v, 0), Loc(Offset, m.Factored(v), 0));
  }

  lemma {:induction false} PutTwice(rules: Rules, r: nat, a: Loc, b: Loc)
    ensures rules[r := a] == rules[r := b] <==> a == b
  {
    assert rules[r := a][r] == a && rules[r := b][r] == b;
  }

  lemma {:induction false} FactorChangesNothing(m: Machine, v: nat)
    requires m.Valid()
    ensures m.Factored(v) == v <==> SignExtended(m, v) && v * (m.dataAlign - 1) % m.addresses == 0
  {
    hide SignExtended;
    var x, y := m.Signed(v) * m.dataAlign, v * m.dataAlign;
    SignedTimes(m, v);
    WidenedIs(m, x, v);
    SameModulo(m, y, v);
    assert y - v == v * (m.dataAlign - 1);
  }

  /** With the usual factor of -8, a save two slots below the CFA becomes one two
      bytes above it. */
  lemma {:induction false} OffsetExtendedIsUnfactored(reg: nat, rules: Rules, isArm64: bool)
    requires reg < TWO_32
    ensures var m := Machine(4, -8, isArm64, TWO_64);
            && ExecRule(OffsetRule(reg, 2), rules, m, None) == Some(rules[reg := Loc(Offset, TWO_64 - 16, 0)])
            && ExecRule(OffsetExtended(reg, 2), rules, m, None) == Some(rules[reg := Loc(Offset, 2, 0)])
            && ExecRule(OffsetExtended(reg, 2), rules, m, None) != ExecRule(OffsetRule(reg, 2), rules, m, None)
  {
    var m := Machine(4, -8, isArm64, TWO_64);
    assert m.Factored(2) == TWO_64 - 16;
    assert rules[reg := Loc(Offset, 2, 0)][reg] != rules[reg := Loc(Offset, TWO_64 - 16, 0)][reg];
  }
}
