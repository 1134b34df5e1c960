// Branches to labels: a forward branch is emitted to its own address and
// patched in place when its label is bound.  The words left are those that
// would have been emitted had every label been bound before.
//
// Addresses are counted in words from the start of the code.
module Branches {
  import opened Bits
  import opened Encoding

  // b or bl, and bc or bcl
  datatype Kind = Unconditional(lk: nat) | Conditional(bo: nat, bi: nat, link: nat)

  datatype Stmt = Plain(word: nat) | Bind(bound: nat) | Jump(kind: Kind, label_: nat)

  predicate ValidKind(k: Kind) {
    match k
    case Unconditional(lk) => lk < 2
    case Conditional(bo, bi, lk) => bo < 32 && bi < 32 && lk < 2
  }

  function DispBits(k: Kind): nat { if k.Unconditional? then 24 else 14 }

  // The branch with a given displacement field
  function Branch(k: Kind, field: nat): Instruction {
    match k
    case Unconditional(lk) => I(18, field, 0, lk)
    case Conditional(bo, bi, lk) => B(16, bo, bi, field, 0, lk)
  }

  lemma BranchIsValid(k: Kind, field: nat)
    requires ValidKind(k) && field < Pow2(DispBits(k))
    ensures Valid(Branch(k, field))
  {
    Powers();
    hide Pow2;
  }

  // ---- branch_target -------------------------------------------------

  // The asserts of branch_target: the bits above the field are all ones if its
  // top bit is, and all zeros if not.
  predicate Accepts(disp: int, bits: nat)
    requires bits > 0
  {
    if Bit(disp, bits - 1) then Shr(disp, bits) == -1 else Shr(disp, bits) == 0
  }

  // They accept exactly the displacements that fit.
  lemma AcceptsIff(disp: int, bits: nat)
    requires bits > 0
    ensures Accepts(disp, bits) <==> -Pow2(bits - 1) <= disp < Pow2(bits - 1)
  {
    SignedIff(disp, bits);
    ShrShr(disp, bits - 1, 1);
    assert Shr(Shr(disp, bits - 1), 1) == Shr(disp, bits - 1) / 2;
  }

  predicate InRange(k: Kind, disp: int) { IsSigned(disp, DispBits(k)) }

  // ---- direct emission -----------------------------------------------

  function DirectWord(s: Stmt, at: nat, bound: map<nat, nat>): nat
    requires Emits(s)
  {
    match s
    case Plain(word) => word
    case Jump(k, l) =>
      BranchIsValid(k, Low(if l in bound then bound[l] - at else 0, DispBits(k)));
      Word(Branch(k, Low(if l in bound then bound[l] - at else 0, DispBits(k))))
    case Bind(_) => 0
  }

  // A statement that stands for a word, with valid operands
  predicate Emits(s: Stmt) {
    match s
    case Plain(_) => true
    case Bind(_) => false
    case Jump(k, _) => ValidKind(k)
  }

  // The statements that stand for words, and where the labels are
  function Emitted(program: seq<Stmt>): seq<Stmt> {
    if program == [] then []
    else
      var last := program[|program| - 1];
      Emitted(program[..|program| - 1]) + if last.Bind? then [] else [last]
  }

  function Labels(program: seq<Stmt>): map<nat, nat> {
    if program == [] then map[]
    else
      var front, last := program[..|program| - 1], program[|program| - 1];
      if last.Bind? then Labels(front)[last.bound := |Emitted(front)|] else Labels(front)
  }

  predicate BindsOnce(program: seq<Stmt>) {
    forall i, j :: 0 <= i < j < |program| && program[i].Bind? && program[j].Bind? ==> program[i].bound != program[j].bound
  }

  // Operands are valid, no label is bound twice, and every branch to a bound
  // label is in range.
  predicate WellFormed(program: seq<Stmt>) {
    && (forall s :: s in program ==> s.Bind? || Emits(s))
    && BindsOnce(program)
    && var emitted, labels := Emitted(program), Labels(program);
       forall j :: 0 <= j < |emitted| ==> Reaches(emitted[j], j, labels)
  }

  predicate Reaches(s: Stmt, at: nat, bound: map<nat, nat>) {
    s.Jump? && s.label_ in bound ==> InRange(s.kind, bound[s.label_] - at)
  }

  // ---- patching ------------------------------------------------------

  // A branch is its upper bits, its displacement field and its lower two bits.
  function Above(k: Kind): seq<Field> {
    match k
    case Unconditional(_) => []
    case Conditional(bo, bi, _) => [Field(bo, 5), Field(bi, 5)]
  }

  function Below(k: Kind): seq<Field> {
    [Field(0, 1), Field(if k.Unconditional? then k.lk else k.link, 1)]
  }

  function UpperBits(k: Kind): nat {
    Shl(if k.Unconditional? then 18 else 16, Width(Above(k))) + Packed(Above(k))
  }

  lemma BranchParts(k: Kind, field: nat)
    requires ValidKind(k) && Valid(Branch(k, field))
    ensures Word(Branch(k, field)) == Shl(Shl(UpperBits(k), DispBits(k)) + field, 2) + Packed(Below(k)) && Packed(Below(k)) < Pow2(2)
  {
    hide Word, Valid, Packed, Join, Shl, Above, Below, Fitting, Width, Pow2;
    var opcode := if k.Unconditional? then 18 else 16;
    var xs, f, ys := Above(k), Field(field, DispBits(k)), Below(k);
    FieldsOfBranch(k, field);
    BelowFits(k);
    JoinAdds(opcode, xs + [f] + ys);
    PackedFits(ys);
    SplitAround(opcode, xs, f, ys);
  }

  lemma FieldsOfBranch(k: Kind, field: nat)
    requires ValidKind(k) && Valid(Branch(k, field))
    ensures var fs := Above(k) + [Field(field, DispBits(k))] + Below(k);
      && Word(Branch(k, field)) == Join(Shl(if k.Unconditional? then 18 else 16, 26), fs)
      && Fitting(fs) && Width(fs) == 26
  {
    OperandsFit(Branch(k, field));
    OperandWidths(Branch(k, field));
    FormTotal(FormOf(OpcodeOf(Branch(k, field))));
    WordIs(Branch(k, field));
    hide Join, Shl, Fitting, Width, Widths;
    assert Above(k) + [Field(field, DispBits(k))] + Below(k) == Operands(Branch(k, field));
  }

  lemma BelowFits(k: Kind)
    requires ValidKind(k)
    ensures Fitting(Below(k)) && Width(Below(k)) == 2
  {
    Powers();
    Join2(0, Below(k));
  }

  lemma SplitAround(high: nat, xs: seq<Field>, f: Field, ys: seq<Field>)
    ensures var fs := xs + [f] + ys;
      Shl(high, Width(fs)) + Packed(fs) == Shl(Shl(Shl(high, Width(xs)) + Packed(xs), f.width) + f.value, Width(ys)) + Packed(ys)
  {
    hide Shl;
    PackedConcat(xs, [f]);
    PackedConcat(xs + [f], ys);
    assert Width([f]) == f.width && Packed([f]) == f.value by {
      assert [f][1..] == [];
      ShlPlain(f.value);
    }
    hide Packed, Width;
    ShlShl(high, Width(xs), f.width);
    ShlSum(Shl(high, Width(xs)), Packed(xs), f.width);
    ShlShl(high, Width(xs) + f.width, Width(ys));
    ShlSum(Shl(high, Width(xs) + f.width), Packed(xs + [f]), Width(ys));
  }

  // Oring the field into the branch whose field is zero makes the branch with
  // that field.
  lemma PatchesField(k: Kind, field: nat)
    requires ValidKind(k) && field < Pow2(DispBits(k))
    ensures Valid(Branch(k, 0)) && Valid(Branch(k, field))
    ensures Extract(Word(Branch(k, 0)), 2, DispBits(k)) == 0
    ensures Or(Word(Branch(k, 0)), Shl(field, 2)) == Word(Branch(k, field))
  {
    hide Valid, Word, UpperBits;
    BranchIsValid(k, 0);
    BranchIsValid(k, field);
    BranchParts(k, 0);
    BranchParts(k, field);
    hide *;
    OrsIntoZeros(UpperBits(k), field, DispBits(k), Packed(Below(k)), 2);
  }

  lemma OrsIntoZeros(high: nat, field: nat, n: nat, low: nat, m: nat)
    requires field < Pow2(n) && low < Pow2(m)
    ensures Extract(Shl(Shl(high, n) + 0, m) + low, m, n) == 0
    ensures Or(Shl(Shl(high, n) + 0, m) + low, Shl(field, m)) == Shl(Shl(high, n) + field, m) + low
  {
    hide Shl, Shr, Low, Or, Pow2;
    ShrParts(Shl(high, n), low, m);
    ShrParts(high, 0, n);
    ShlNegative(m);
    OrParts(Shl(high, n), low, field, 0, m);
    OrAdds(high, field, n);
    OrZero(low);
  }

  // ---- what the assembler keeps --------------------------------------

  type Patches = map<nat, seq<nat>>

  // Every word is what direct emission would leave, given the labels bound so
  // far.
  ghost predicate Direct(code: seq<nat>, emitted: seq<Stmt>, bound: map<nat, nat>) {
    && |emitted| == |code|
    && (forall j :: 0 <= j < |code| ==> Emits(emitted[j]) && code[j] == DirectWord(emitted[j], j, bound))
  }

  // Exactly the branches to unbound labels wait to be patched, each once.
  ghost predicate Waiting(patches: Patches, emitted: seq<Stmt>, bound: map<nat, nat>) {
    && (forall l :: l in patches ==> l !in bound && Distinct(patches[l]))
    && (forall l, i :: l in patches && 0 <= i < |patches[l]| ==> JumpsTo(emitted, patches[l][i], l))
    && (forall j :: 0 <= j < |emitted| && emitted[j].Jump? && emitted[j].label_ !in bound ==>
          emitted[j].label_ in patches && j in patches[emitted[j].label_])
  }

  predicate JumpsTo(emitted: seq<Stmt>, j: nat, l: nat) {
    j < |emitted| && emitted[j].Jump? && emitted[j].label_ == l
  }

  ghost predicate Distinct(s: seq<nat>) {
    forall i, j :: 0 <= i < j < |s| ==> s[i] != s[j]
  }

  function Pending(patches: Patches, l: nat): seq<nat> { if l in patches then patches[l] else [] }

  lemma DirectSnoc(code: seq<nat>, emitted: seq<Stmt>, bound: map<nat, nat>, s: Stmt)
    requires Direct(code, emitted, bound) && Emits(s)
    ensures Direct(code + [DirectWord(s, |code|, bound)], emitted + [s], bound)
  {
    hide DirectWord, Emits;
  }

  lemma WaitingSnoc(patches: Patches, emitted: seq<Stmt>, bound: map<nat, nat>, s: Stmt)
    requires Waiting(patches, emitted, bound)
    ensures var patches' := if s.Jump? && s.label_ !in bound then patches[s.label_ := Pending(patches, s.label_) + [|emitted|]] else patches;
      Waiting(patches', emitted + [s], bound)
  {
    var patches' := if s.Jump? && s.label_ !in bound then patches[s.label_ := Pending(patches, s.label_) + [|emitted|]] else patches;
    forall l | l in patches' ensures l !in bound && Distinct(patches'[l]) {
      assert forall i :: 0 <= i < |Pending(patches, l)| ==> JumpsTo(emitted, Pending(patches, l)[i], l);
    }
    forall l, i | l in patches' && 0 <= i < |patches'[l]| ensures JumpsTo(emitted + [s], patches'[l][i], l) {
      if i < |Pending(patches, l)| {
        assert JumpsTo(emitted, Pending(patches, l)[i], l);
      }
    }
    forall j | 0 <= j < |emitted + [s]| && (emitted + [s])[j].Jump? && (emitted + [s])[j].label_ !in bound
      ensures (emitted + [s])[j].label_ in patches' && j in patches'[(emitted + [s])[j].label_]
    {
      if j == |emitted| {
        assert (Pending(patches, s.label_) + [j])[|Pending(patches, s.label_)|] == j;
      }
    }
  }

  // Binding a label changes what direct emission leaves only at the branches
  // that wait for it.
  lemma BoundElsewhere(s: Stmt, at: nat, bound: map<nat, nat>, l: nat, target: nat)
    requires Emits(s) && !(s.Jump? && s.label_ == l)
    ensures DirectWord(s, at, bound[l := target]) == DirectWord(s, at, bound)
  {
    hide Word, Low, Pow2;
  }

  lemma WaitingBound(patches: Patches, emitted: seq<Stmt>, bound: map<nat, nat>, l: nat, target: nat)
    requires Waiting(patches, emitted, bound) && l !in bound
    ensures Waiting(patches - {l}, emitted, bound[l := target])
  {
  }

  // ---- the assembler -------------------------------------------------

  class Assembler {
    var code: seq<nat>
    var bound: map<nat, nat>     // the labels that are bound, and where
    var patches: Patches         // the branches waiting for the others
    ghost var emitted: seq<Stmt>

    ghost predicate Valid()
      reads this
    {
      Direct(code, emitted, bound) && Waiting(patches, emitted, bound)
    }

    constructor ()
      ensures Valid() && code == [] && emitted == [] && bound == map[]
    {
      code, bound, patches, emitted := [], map[], map[], [];
    }

    // branch_target
    method BranchTarget(branch: int, target: int, bits: nat) returns (disp: int)
      requires bits > 0 && Accepts(target - branch, bits)
      ensures disp == Low(target - branch, bits)
    {
      disp := target - branch;
      PartsOf(disp, bits);
      if Bit(disp, bits - 1) {
        disp := Low(disp, bits);
      } else {
        ShlNegative(bits);
      }
    }

    method EmitWord(word: nat)
      requires Valid()
      modifies this
      ensures Valid() && bound == old(bound) && emitted == old(emitted) + [Plain(word)]
    {
      DirectSnoc(code, emitted, bound, Plain(word));
      WaitingSnoc(patches, emitted, bound, Plain(word));
      hide Direct, Waiting;
      code := code + [word];
      emitted := emitted + [Plain(word)];
    }

    // b, bl, bc or bcl to a label: to its address if it is bound, and else to
    // the branch itself
    method EmitBranch(k: Kind, l: nat)
      requires Valid() && ValidKind(k) && Reaches(Jump(k, l), |code|, bound)
      modifies this
      ensures Valid() && bound == old(bound) && emitted == old(emitted) + [Jump(k, l)]
    {
      hide DirectWord, Word;
      assert |emitted| == |code|;
      DirectSnoc(code, emitted, bound, Jump(k, l));
      WaitingSnoc(patches, emitted, bound, Jump(k, l));
      hide Direct, Waiting;
      var target := TargetOf(l);
      EmitBranchTo(k, l, target);
      emitted := emitted + [Jump(k, l)];
    }

    method TargetOf(l: nat) returns (target: nat)
      modifies `patches
      ensures target == if l in bound then bound[l] else |code|
      ensures patches == if l in bound then old(patches) else old(patches)[l := Pending(old(patches), l) + [|code|]]
    {
      if l in bound {
        target := bound[l];
      } else {
        patches := patches[l := Pending(patches, l) + [|code|]];
        target := |code|;
      }
    }

    method EmitBranchTo(k: Kind, ghost l: nat, target: nat)
      requires ValidKind(k) && Reaches(Jump(k, l), |code|, bound) && target == if l in bound then bound[l] else |code|
      modifies `code
      ensures code == old(code) + [DirectWord(Jump(k, l), |old(code)|, bound)]
    {
      hide *;
      TargetAccepted(k, l, |code|, target, bound);
      var disp := BranchTarget(|code|, target, DispBits(k));
      code := code + [Word(Branch(k, disp))];
    }

    // pd_patch_instruction
    method PatchInstruction(ghost k: Kind, branch: nat, target: nat)
      requires branch < |code| && ValidKind(k) && Encoding.Valid(Branch(k, 0)) && code[branch] == Word(Branch(k, 0))
      requires InRange(k, target - branch)
      modifies `code
      ensures Encoding.Valid(Branch(k, Low(target - branch, DispBits(k))))
      ensures code == old(code)[branch := Word(Branch(k, Low(target - branch, DispBits(k))))]
    {
      var instruction := code[branch];
      AcceptsInRange(k, target - branch);
      PatchesField(k, Low(target - branch, DispBits(k)));
      OpcodeOfBranch(k);
      hide Word, Encoding.Valid, Extract, Low, Shl, Or, Accepts, InRange;
      var opcode := Extract(instruction, 26, 6);
      var bits := if opcode == 16 then 14 else 24;
      assert Extract(instruction, 2, bits) == 0;          // should be zeroed
      var disp := BranchTarget(branch, target, bits);
      code := code[branch := Or(code[branch], Shl(disp, 2))];
    }

    method PatchWaiting(branch: nat, ghost l: nat, target: nat)
      requires |emitted| == |code| && JumpsTo(emitted, branch, l) && Emits(emitted[branch]) && l !in bound
      requires code[branch] == DirectWord(emitted[branch], branch, bound)
      requires Reaches(emitted[branch], branch, bound[l := target])
      modifies `code
      ensures code == old(code)[branch := DirectWord(emitted[branch], branch, bound[l := target])]
    {
      ghost var k := emitted[branch].kind;
      assert emitted[branch] == Jump(k, l) && ValidKind(k);
      hide *;
      WordPatched(k, l, branch, target, bound);
      PatchInstruction(k, branch, target);
    }

    method PatchAll(waiting: seq<nat>, ghost l: nat, target: nat)
      requires Direct(code, emitted, bound) && Distinct(waiting) && l !in bound
      requires forall j :: j in waiting ==> JumpsTo(emitted, j, l)
      requires forall j :: 0 <= j < |emitted| ==> Reaches(emitted[j], j, bound[l := target])
      modifies `code
      ensures |code| == |emitted|
      ensures forall j :: 0 <= j < |code| ==>
        && Emits(emitted[j])
        && code[j] == DirectWord(emitted[j], j, if j in waiting then bound[l := target] else bound)
    {
      hide DirectWord, Reaches, Emits;
      var i := 0;
      while i < |waiting|
        invariant 0 <= i <= |waiting| && |code| == |emitted|
        invariant forall j :: 0 <= j < |code| ==>
          code[j] == DirectWord(emitted[j], j, if j in waiting[..i] then bound[l := target] else bound)
      {
        var branch := waiting[i];
        assert branch in waiting && branch !in waiting[..i];
        PatchWaiting(branch, l, target);
        assert waiting[..i + 1] == waiting[..i] + [branch];
        i := i + 1;
      }
      assert waiting[..i] == waiting;
    }

    // Binding a label patches every branch that waits for it.
    method Bind(l: nat)
      requires Valid() && l !in bound
      requires forall j :: 0 <= j < |emitted| ==> Reaches(emitted[j], j, bound[l := |code|])
      modifies this
      ensures Valid() && bound == old(bound)[l := |code|] && emitted == old(emitted) && |code| == |old(code)|
    {
      hide Waiting, DirectWord, Reaches, Emits, Distinct;
      ghost var target := |code|;
      assert |emitted| == |code|;
      WaitingBound(patches, emitted, bound, l, |code|);
      WaitingForLabel(patches, emitted, bound, l);
      PatchAll(Pending(patches, l), l, |code|);
      forall j | 0 <= j < |code| ensures code[j] == DirectWord(emitted[j], j, bound[l := target]) {
        if !JumpsTo(emitted, j, l) {
          BoundElsewhere(emitted[j], j, bound, l, target);
        }
      }
      bound := bound[l := |code|];
      patches := patches - {l};
    }

    // A whole program, in one pass
    method Assemble(program: seq<Stmt>)
      requires Valid() && emitted == [] && bound == map[] && WellFormed(program)
      modifies this
      ensures Valid() && Direct(code, Emitted(program), Labels(program)) && bound == Labels(program)
    {
      var i := 0;
      while i < |program|
        invariant 0 <= i <= |program|
        invariant Valid() && emitted == Emitted(program[..i]) && bound == Labels(program[..i])
      {
        assert |emitted| == |code|;
        hide Direct, Waiting, WellFormed, Reaches, Emits;
        NextStatement(program, i);
        match program[i] {
          case Plain(word) => EmitWord(word);
          case Bind(l) => Bind(l);
          case Jump(k, l) => EmitBranch(k, l);
        }
        i := i + 1;
      }
      assert program[..i] == program;
    }
  }

  lemma TargetAccepted(k: Kind, l: nat, at: nat, target: nat, bound: map<nat, nat>)
    requires ValidKind(k) && Reaches(Jump(k, l), at, bound) && target == if l in bound then bound[l] else at
    ensures DispBits(k) > 0 && Emits(Jump(k, l)) && Accepts(target - at, DispBits(k))
    ensures Encoding.Valid(Branch(k, Low(target - at, DispBits(k))))
    ensures DirectWord(Jump(k, l), at, bound) == Word(Branch(k, Low(target - at, DispBits(k))))
  {
    hide InRange, Accepts, Encoding.Valid, DirectWord, Word, Low, Branch, DispBits, ValidKind;
    DirectJump(k, l, at, bound);
    ZeroInRange(k);
    AcceptsInRange(k, target - at);
  }

  // Exactly the branches to the label, and each once
  lemma WaitingForLabel(patches: Patches, emitted: seq<Stmt>, bound: map<nat, nat>, l: nat)
    requires Waiting(patches, emitted, bound) && l !in bound
    ensures Distinct(Pending(patches, l))
    ensures forall j :: j in Pending(patches, l) <==> JumpsTo(emitted, j, l)
  {
    var waiting := Pending(patches, l);
    forall j | j in waiting ensures JumpsTo(emitted, j, l) {
      var i :| 0 <= i < |waiting| && waiting[i] == j;
      assert JumpsTo(emitted, patches[l][i], l);
    }
    forall j | JumpsTo(emitted, j, l) ensures j in waiting {
    }
  }

  // What stands at a waiting branch, and what patching it should leave there
  lemma WordPatched(k: Kind, l: nat, at: nat, target: nat, bound: map<nat, nat>)
    requires ValidKind(k) && l !in bound
    ensures Encoding.Valid(Branch(k, 0)) && DirectWord(Jump(k, l), at, bound) == Word(Branch(k, 0))
    ensures Encoding.Valid(Branch(k, Low(target - at, DispBits(k))))
    ensures DirectWord(Jump(k, l), at, bound[l := target]) == Word(Branch(k, Low(target - at, DispBits(k))))
    ensures Reaches(Jump(k, l), at, bound[l := target]) <==> InRange(k, target - at)
  {
    hide Word, Low, Encoding.Valid, InRange;
    BranchIsValid(k, 0);
    BranchIsValid(k, Low(target - at, DispBits(k)));
    LowZero(DispBits(k));
  }

  lemma {:induction false} LowZero(n: nat)
    ensures Low(0, n) == 0
  {
    if n > 0 {
      LowZero(n - 1);
    }
  }

  lemma DirectJump(k: Kind, l: nat, at: nat, bound: map<nat, nat>)
    requires ValidKind(k)
    ensures var disp := if l in bound then bound[l] - at else 0;
      Encoding.Valid(Branch(k, Low(disp, DispBits(k)))) && DirectWord(Jump(k, l), at, bound) == Word(Branch(k, Low(disp, DispBits(k))))
  {
    hide Word, Low, Encoding.Valid, Pow2;
    BranchIsValid(k, Low(if l in bound then bound[l] - at else 0, DispBits(k)));
  }

  lemma ZeroInRange(k: Kind)
    ensures InRange(k, 0)
  {
  }

  lemma AcceptsInRange(k: Kind, disp: int)
    requires InRange(k, disp)
    ensures DispBits(k) > 0 && Accepts(disp, DispBits(k))
  {
    AcceptsIff(disp, DispBits(k));
  }

  lemma OpcodeOfBranch(k: Kind)
    requires ValidKind(k) && Encoding.Valid(Branch(k, 0))
    ensures Extract(Word(Branch(k, 0)), 26, 6) == if k.Unconditional? then 18 else 16
  {
    var i := Branch(k, 0);
    OperandWidths(i);
    OperandsFit(i);
    FormTotal(FormOf(OpcodeOf(i)));
    WordIs(i);
    hide Join, Shl, Fitting, Width, Widths, Extract, Word, Operands, Values, Reads, Encoding.Valid, Pow2;
    JoinedReads(OpcodeOf(i), Operands(i));
  }

  // ---- programs ------------------------------------------------------

  lemma {:induction false} LabelsAreBinds(program: seq<Stmt>, l: nat)
    ensures l in Labels(program) <==> exists k :: 0 <= k < |program| && program[k] == Bind(l)
  {
    if program != [] {
      var n := |program| - 1;
      LabelsAreBinds(program[..n], l);
      if l in Labels(program) && program[n] != Bind(l) {
        var k :| 0 <= k < n && program[..n][k] == Bind(l);
        assert program[k] == Bind(l);
      } else if exists k :: 0 <= k < |program| && program[k] == Bind(l) {
        var k :| 0 <= k < |program| && program[k] == Bind(l);
        assert k < n ==> program[..n][k] == Bind(l);
      }
    }
  }

  // What a prefix of the program has emitted and bound stays.
  lemma {:induction false} PrefixStays(program: seq<Stmt>, i: nat)
    requires i <= |program| && BindsOnce(program)
    ensures Emitted(program[..i]) <= Emitted(program)
    ensures forall l :: l in Labels(program[..i]) ==> l in Labels(program) && Labels(program)[l] == Labels(program[..i])[l]
    decreases |program|
  {
    var n := |program| - 1;
    if i == |program| {
      assert program[..i] == program;
    } else {
      assert program[..n][..i] == program[..i];
      PrefixStays(program[..n], i);
      if program[n].Bind? {
        LabelsAreBinds(program[..n], program[n].bound);
      }
    }
  }

  // The next statement may be assembled: its operands are valid, its label is
  // not bound yet if it binds one, and what is in range for the whole program
  // is in range now.
  lemma NextStatement(program: seq<Stmt>, i: nat)
    requires WellFormed(program) && i < |program|
    ensures var emitted, labels, s := Emitted(program[..i]), Labels(program[..i]), program[i];
      && (s.Bind? || Emits(s))
      && Emitted(program[..i + 1]) == emitted + (if s.Bind? then [] else [s])
      && Labels(program[..i + 1]) == (if s.Bind? then labels[s.bound := |emitted|] else labels)
      && (s.Bind? ==> s.bound !in labels && forall j :: 0 <= j < |emitted| ==> Reaches(emitted[j], j, labels[s.bound := |emitted|]))
      && (s.Jump? ==> ValidKind(s.kind) && Reaches(s, |emitted|, labels))
  {
    var s := program[i];
    assert program[..i + 1][..i] == program[..i];
    PrefixStays(program, i);
    PrefixStays(program, i + 1);
    if s.Bind? {
      LabelsAreBinds(program[..i], s.bound);
    }
    var emitted, labels := Emitted(program[..i + 1]), Labels(program[..i + 1]);
    forall j | 0 <= j < |emitted| ensures Reaches(emitted[j], j, labels) {
      assert Reaches(Emitted(program)[j], j, Labels(program));
      assert emitted[j] == Emitted(program)[j];
    }
    assert s.Jump? ==> emitted[|Emitted(program[..i])|] == s;
  }

  // The address a branch word is shown with
  function TargetShown(word: nat, at: nat): int {
    var i := Decoded(word);
    if i.I? then at + i.li else if i.B? then at + i.bd else at
  }

  // b, bl, bc and bcl, all relative to their own address
  predicate ShownAs(word: nat, k: Kind) {
    var i := Decoded(word);
    match k
    case Unconditional(lk) => i.I? && i.opcode == 18 && i.aa == 0 && i.lk == lk
    case Conditional(bo, bi, lk) => i.B? && i.opcode == 16 && i.bo == bo && i.bi == bi && i.aa == 0 && i.lk == lk
  }

  lemma JumpShown(k: Kind, at: nat, disp: int)
    requires ValidKind(k) && InRange(k, disp) && Encoding.Valid(Branch(k, Low(disp, DispBits(k))))
    ensures TargetShown(Word(Branch(k, Low(disp, DispBits(k)))), at) == at + disp && ShownAs(Word(Branch(k, Low(disp, DispBits(k)))), k)
  {
    hide Encoding.Valid, Word, Decoded, Low, SignExtend;
    DecodesEncoded(Branch(k, Low(disp, DispBits(k))));
    SignExtendLow(disp, DispBits(k));
  }

  lemma JumpReaches(s: Stmt, at: nat, labels: map<nat, nat>)
    requires Emits(s) && s.Jump? && s.label_ in labels && Reaches(s, at, labels)
    ensures TargetShown(DirectWord(s, at, labels), at) == labels[s.label_] && ShownAs(DirectWord(s, at, labels), s.kind)
  {
    hide TargetShown, ShownAs, DirectWord, InRange, ValidKind, Branch, DispBits, Encoding.Valid, Word, Low, Decoded, SignExtend, Pow2;
    DirectJump(s.kind, s.label_, at, labels);
    JumpShown(s.kind, at, labels[s.label_] - at);
  }

  // Every branch to a bound label is shown with the label's address.
  lemma BranchesReach(code: seq<nat>, program: seq<Stmt>, j: nat)
    requires WellFormed(program) && Direct(code, Emitted(program), Labels(program)) && j < |code|
    requires Emitted(program)[j].Jump? && Emitted(program)[j].label_ in Labels(program)
    ensures TargetShown(code[j], j) == Labels(program)[Emitted(program)[j].label_] && ShownAs(code[j], Emitted(program)[j].kind)
  {
    hide Emitted, Labels, TargetShown, ShownAs, DirectWord;
    JumpReaches(Emitted(program)[j], j, Labels(program));
  }
}
