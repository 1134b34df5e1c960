// MacroAssembler::load(Register, long): the code it emits, and for which
// values running that code leaves exactly the value in the register.
//
// Registers hold signed numbers of the register's width.
module LoadImmediate {
  import opened Bits

  // li, lis, ori, oris and sldi by 32, all on one register
  datatype Instr = Li(imm: int) | Lis(imm: int) | Ori(uimm: nat) | Oris(uimm: nat) | Sldi32

  type Code = seq<Instr>

  // The low sixteen bits, as the signed number a D form means by them
  function Immediate(imm: int): (x: int) { SignExtend(Low(imm, 16), 16) }

  lemma ImmediateIs(imm: int)
    requires -0x8000 <= imm < 0x1_0000
    ensures Immediate(imm) == if imm < 0x8000 then imm else imm - 0x1_0000
  {
    hide Low, SignExtend, Shl;
    Powers();
    assert Shl(1, 16) == Pow2(16);
    hide Pow2;
    if imm < 0x8000 {
      SignExtendLow(imm, 16);
    } else {
      LowPeriodic(imm - 0x1_0000, 1, 16);
      SignExtendLow(imm - 0x1_0000, 16);
    }
  }

  const TWO31 := 0x8000_0000
  const TWO63 := 0x8000_0000_0000_0000

  function Wrap(wide: bool, x: int): int {
    if wide then (x + TWO63) % (2 * TWO63) - TWO63 else (x + TWO31) % (2 * TWO31) - TWO31
  }

  function Step(wide: bool, i: Instr, r: int): int {
    match i
    case Li(imm) => Immediate(imm)
    case Lis(imm) => Wrap(wide, Immediate(imm) * 0x1_0000)
    case Ori(imm) => r - r % 0x1_0000 + Or(r % 0x1_0000, imm)
    case Oris(imm) => r - r % 0x1_0000_0000 + Or(r % 0x1_0000_0000 / 0x1_0000, imm) * 0x1_0000 + r % 0x1_0000
    case Sldi32 => Wrap(wide, r * 0x1_0000_0000)
  }

  function Run(wide: bool, code: Code, r: int): int {
    if code == [] then r else Run(wide, code[1..], Step(wide, code[0], r))
  }

  lemma {:induction false} RunConcat(wide: bool, x: Code, y: Code, r: int)
    ensures Run(wide, x + y, r) == Run(wide, y, Run(wide, x, r))
  {
    hide Step;
    if x == [] {
      assert x + y == y;
    } else {
      assert (x + y)[1..] == x[1..] + y;
      RunConcat(wide, x[1..], y, Step(wide, x[0], r));
    }
  }

  lemma Run1(wide: bool, i: Instr, r: int)
    ensures Run(wide, [i], r) == Step(wide, i, r)
  {
    hide Step;
    assert [i][1..] == [];
  }

  lemma Run2(wide: bool, i: Instr, j: Instr, r: int)
    ensures Run(wide, [i, j], r) == Step(wide, j, Step(wide, i, r))
  {
    hide Step;
    assert [i, j][1..] == [j];
    Run1(wide, j, Step(wide, i, r));
  }

  // What each instruction leaves when no bits collide and nothing overflows
  lemma StepLis(wide: bool, imm: int, r: int)
    requires -0x8000 <= imm < 0x1_0000
    ensures Step(wide, Lis(imm), r) == Immediate(imm) * 0x1_0000
  {
    hide Immediate;
    ImmediateIs(imm);
  }

  lemma StepLi(wide: bool, imm: int, r: int)
    ensures Step(wide, Li(imm), r) == Immediate(imm)
  {
    hide Immediate;
  }

  lemma Multiples(r: int, c: int)
    ensures (c * 0x1_0000) % 0x1_0000 == 0
    ensures r % 0x1_0000_0000 == 0 ==> r % 0x1_0000 == 0 && (r + c * 0x1_0000) % 0x1_0000 == 0
  {
  }

  lemma StepOri(wide: bool, imm: nat, r: int)
    requires r % 0x1_0000 == 0
    ensures Step(wide, Ori(imm), r) == r + imm
  {
  }

  lemma StepOris(wide: bool, imm: nat, r: int)
    requires r % 0x1_0000_0000 == 0
    ensures Step(wide, Oris(imm), r) == r + imm * 0x1_0000
  {
  }

  lemma StepSldi(r: int)
    requires -TWO31 <= r < TWO31
    ensures Step(true, Sldi32, r) == r * 0x1_0000_0000
  {
  }

  // ---- PPC64 ---------------------------------------------------------

  // The halfwords of a long, the top one signed
  function Half3(value: int): int { value / 0x1_0000_0000_0000 }
  function Half2(value: int): nat { value / 0x1_0000_0000 % 0x1_0000 }
  function Half1(value: int): nat { value / 0x1_0000 % 0x1_0000 }
  function Half0(value: int): nat { value % 0x1_0000 }

  function Upper64(a: int, b: nat): Code {
    (if a != 0 then [Lis(a)] + (if b != 0 then [Ori(b)] else [])
     else if b != 0 then [Li(b)] else [])
    + (if a != 0 || b != 0 then [Sldi32] else [])
  }

  function Lower64(upper: bool, c: nat, d: nat): Code {
    if c != 0 then [if upper then Oris(c) else Lis(c)] + (if d != 0 then [Ori(d)] else [])
    else if d != 0 || !upper then [if upper then Ori(d) else Li(d)]
    else []
  }

  function Load64(value: int): Code {
    var a, b := Half3(value), Half2(value);
    Upper64(a, b) + Lower64(a != 0 || b != 0, Half1(value), Half0(value))
  }

  // li and lis sign-extend what they load.  So the value comes out right when
  // its sign has been loaded with its top halfword, or its first halfword that
  // is not zero does not look negative.
  predicate Loadable64(value: int) {
    || value < 0 || value >= 0x1_0000_0000_0000
    || 0x1_0000_0000 <= value < 0x8000_0000_0000
    || 0x1_0000 <= value < 0x8000_0000
    || value < 0x8000
  }

  // Otherwise every bit above that halfword is set.
  function Smeared64(value: int): int {
    if value >= 0x1_0000_0000 then value - 0x1_0000_0000_0000
    else if value >= 0x1_0000 then value - 0x1_0000_0000
    else value - 0x1_0000
  }

  // What the two parts leave in the register
  function UpperWord(a: int, b: nat, r: int): int {
    if a != 0 then (a * 0x1_0000 + b) * 0x1_0000_0000 else if b != 0 then Immediate(b) * 0x1_0000_0000 else r
  }

  function LowerWord(upper: bool, c: nat, d: nat, r: int): int {
    if upper then r + c * 0x1_0000 + d else if c != 0 then Immediate(c) * 0x1_0000 + d else Immediate(d)
  }

  lemma UpperRuns(a: int, b: nat, r: int)
    requires -0x8000 <= a < 0x8000 && b < 0x1_0000
    ensures Run(true, Upper64(a, b), r) == UpperWord(a, b, r)
  {
    hide Step, Immediate, UpperWord;
    if a != 0 && b != 0 {
      UpperBoth(a, b, r);
    } else {
      UpperOne(a, b, r);
    }
  }

  lemma UpperBoth(a: int, b: nat, r: int)
    requires -0x8000 <= a < 0x8000 && b < 0x1_0000 && a != 0 && b != 0
    ensures Run(true, Upper64(a, b), r) == UpperWord(a, b, r)
  {
    hide Step, Immediate, Run;
    var x := a * 0x1_0000;
    TopSteps(a, b, r, x);
    assert Upper64(a, b) == [Lis(a), Ori(b)] + [Sldi32];
    hide Upper64;
    Run2(true, Lis(a), Ori(b), r);
    RunConcat(true, [Lis(a), Ori(b)], [Sldi32], r);
    Run1(true, Sldi32, x + b);
  }

  lemma TopSteps(a: int, b: nat, r: int, x: int)
    requires -0x8000 <= a < 0x8000 && b < 0x1_0000 && x == a * 0x1_0000
    ensures Step(true, Lis(a), r) == x && Step(true, Ori(b), x) == x + b
    ensures Step(true, Sldi32, x + b) == (x + b) * 0x1_0000_0000 && Step(true, Sldi32, x) == x * 0x1_0000_0000
  {
    hide Step, Immediate;
    Multiples(r, a);
    StepLis(true, a, r);
    ImmediateIs(a);
    StepOri(true, b, x);
    StepSldi(x + b);
    StepSldi(x);
  }

  lemma UpperOne(a: int, b: nat, r: int)
    requires -0x8000 <= a < 0x8000 && b < 0x1_0000 && (a == 0 || b == 0)
    ensures Run(true, Upper64(a, b), r) == UpperWord(a, b, r)
  {
    hide Immediate;
    if a != 0 {
      assert Upper64(a, b) == [Lis(a), Sldi32];
      hide Upper64, Step;
      Run2(true, Lis(a), Sldi32, r);
      StepLis(true, a, r);
      ImmediateIs(a);
      StepSldi(a * 0x1_0000);
    } else if b != 0 {
      assert Upper64(a, b) == [Li(b), Sldi32];
      assert Step(true, Li(b), r) == Immediate(b);
      hide Upper64, Step;
      Run2(true, Li(b), Sldi32, r);
      ImmediateIs(b);
      StepSldi(Immediate(b));
    }
  }

  lemma LowerRuns(upper: bool, c: nat, d: nat, r: int)
    requires c < 0x1_0000 && d < 0x1_0000 && (upper ==> r % 0x1_0000_0000 == 0)
    ensures Run(true, Lower64(upper, c, d), r) == LowerWord(upper, c, d, r)
  {
    hide Immediate, Step, Run;
    var first := if upper then Oris(c) else Lis(c);
    var x := if upper then r + c * 0x1_0000 else Immediate(c) * 0x1_0000;
    Multiples(r, c);
    Multiples(r, Immediate(c));
    if upper {
      StepOris(true, c, r);
      StepOri(true, d, r);
    } else {
      StepLis(true, c, r);
      StepLi(true, d, r);
    }
    if c != 0 && d != 0 {
      assert Lower64(upper, c, d) == [first, Ori(d)];
      hide Lower64;
      Run2(true, first, Ori(d), r);
      StepOri(true, d, x);
    } else if c != 0 {
      assert Lower64(upper, c, d) == [first];
      hide Lower64;
      Run1(true, first, r);
    } else if d != 0 || !upper {
      Run1(true, if upper then Ori(d) else Li(d), r);
    } else {
      RunNothing(true, r);
    }
  }

  lemma RunNothing(wide: bool, r: int)
    ensures Run(wide, [], r) == r
  {
  }

  lemma Quotients(x: int)
    ensures x / 0x1_0000 / 0x1_0000 == x / 0x1_0000_0000
    ensures x / 0x1_0000_0000 / 0x1_0000 == x / 0x1_0000_0000_0000
  {
  }

  lemma HalvesMakeValue(value: int)
    requires -TWO63 <= value < TWO63
    ensures -0x8000 <= Half3(value) < 0x8000 && Half2(value) < 0x1_0000 && Half1(value) < 0x1_0000 && Half0(value) < 0x1_0000
    ensures value == ((Half3(value) * 0x1_0000 + Half2(value)) * 0x1_0000 + Half1(value)) * 0x1_0000 + Half0(value)
  {
    var q1, q2 := value / 0x1_0000, value / 0x1_0000_0000;
    Quotients(value);
    assert value == q1 * 0x1_0000 + Half0(value);
    assert q1 == q2 * 0x1_0000 + Half1(value);
    assert q2 == Half3(value) * 0x1_0000 + Half2(value);
  }

  lemma UpperIsMultiple(a: int, b: nat, r: int)
    requires a != 0 || b != 0
    ensures UpperWord(a, b, r) % 0x1_0000_0000 == 0
  {
    hide Immediate;
  }

  lemma WordsMakeValue(value: int, a: int, b: nat, c: nat, d: nat, r: int)
    requires value == ((a * 0x1_0000 + b) * 0x1_0000 + c) * 0x1_0000 + d
    requires -0x8000 <= a < 0x8000 && b < 0x1_0000 && c < 0x1_0000 && d < 0x1_0000
    ensures LowerWord(a != 0 || b != 0, c, d, UpperWord(a, b, r)) == if Loadable64(value) then value else Smeared64(value)
  {
    hide Immediate;
    ImmediateIs(b);
    ImmediateIs(c);
    ImmediateIs(d);
  }

  lemma Load64Leaves(value: int, r: int)
    requires -TWO63 <= value < TWO63
    ensures Run(true, Load64(value), r) == if Loadable64(value) then value else Smeared64(value)
  {
    HalvesMakeValue(value);
    hide Half3, Half2, Half1, Half0, Upper64, Lower64, Run, UpperWord, LowerWord, Loadable64, Smeared64;
    var a, b, c, d := Half3(value), Half2(value), Half1(value), Half0(value);
    RunConcat(true, Upper64(a, b), Lower64(a != 0 || b != 0, c, d), r);
    UpperRuns(a, b, r);
    WordsMakeValue(value, a, b, c, d, r);
    if a != 0 || b != 0 {
      UpperIsMultiple(a, b, r);
    }
    LowerRuns(a != 0 || b != 0, c, d, UpperWord(a, b, r));
  }

  lemma Load64Iff(value: int, r: int)
    requires -TWO63 <= value < TWO63
    ensures Run(true, Load64(value), r) == value <==> Loadable64(value)
  {
    Load64Leaves(value, r);
  }

  // ---- PPC32 ---------------------------------------------------------

  function Load32(value: int): Code {
    var a, b := value / 0x1_0000, value % 0x1_0000;
    if a != 0 then [Lis(a)] + (if b != 0 then [Ori(b)] else []) else [Li(b)]
  }

  lemma Load32Leaves(value: int, r: int)
    requires -TWO31 <= value < TWO31
    ensures Run(false, Load32(value), r) == if 0x8000 <= value <= 0xffff then value - 0x1_0000 else value
  {
    var a, b := value / 0x1_0000, value % 0x1_0000;
    assert value == a * 0x1_0000 + b && -0x8000 <= a < 0x8000 && b < 0x1_0000;
    hide Immediate, Step, Run;
    StepLis(false, a, r);
    StepLi(false, b, r);
    ImmediateIs(a);
    ImmediateIs(b);
    Multiples(r, a);
    if a != 0 && b != 0 {
      assert Load32(value) == [Lis(a), Ori(b)];
      hide Load32;
      Run2(false, Lis(a), Ori(b), r);
      StepOri(false, b, a * 0x1_0000);
    } else {
      Run1(false, if a != 0 then Lis(a) else Li(b), r);
    }
  }

  lemma Load32Iff(value: int, r: int)
    requires -TWO31 <= value < TWO31
    ensures Run(false, Load32(value), r) == value <==> !(0x8000 <= value <= 0xffff)
  {
    Load32Leaves(value, r);
  }

  // ---- the emission --------------------------------------------------

  class MacroAssembler {
    var code: Code

    constructor ()
      ensures code == []
    {
      code := [];
    }

    method Emit(i: Instr)
      modifies this
      ensures code == old(code) + [i]
    {
      code := code + [i];
    }

    method LoadWord(value: int)
      modifies this
      ensures code == old(code) + Load32(value)
    {
      var a, b := value / 0x1_0000, value % 0x1_0000;
      if a != 0 {
        Emit(Lis(a));
        if b != 0 {
          Emit(Ori(b));
        }
      } else {
        Emit(Li(b));
      }
    }

    method LoadDoubleword(value: int)
      modifies this
      ensures code == old(code) + Load64(value)
    {
      hide Half3, Half2, Half1, Half0;
      var a, b, c, d := Half3(value), Half2(value), Half1(value), Half0(value);
      if a != 0 {
        Emit(Lis(a));
        if b != 0 {
          Emit(Ori(b));
        }
      } else if b != 0 {
        Emit(Li(b));
      }
      if a != 0 || b != 0 {
        Emit(Sldi32);
      }
      assert code == old(code) + Upper64(a, b);
      hide Upper64;
      if c != 0 {
        if a != 0 || b != 0 {
          Emit(Oris(c));
        } else {
          Emit(Lis(c));
        }
        if d != 0 {
          Emit(Ori(d));
        }
      } else if d != 0 || !(a != 0 || b != 0) {
        if a != 0 || b != 0 {
          Emit(Ori(d));
        } else {
          Emit(Li(d));
        }
      }
    }
  }
}
