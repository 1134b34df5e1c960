// SignatureHandlerGenerator on PPC32: where the arguments of a native method
// go, and the code that moves them there from the locals of its frame.
module Signature {

  import opened StackLayout

  datatype Type = Int | Long | Float | Double | Object

  const WORD := 4
  const LINK_AREA_WORDS := 2
  const MIN_PARAMS := 0
  const GP_REG_START := 4
  const GP_REG_MAX := 10
  const FP_REG_START := 1
  const FP_REG_MAX := 8

  predicate TwoWords(t: Type) { t.Long? || t.Float? || t.Double? }

  // The locals an argument takes
  function Slots(t: Type): nat { if t.Long? || t.Double? then 2 else 1 }

  function Slot(args: seq<Type>): nat { if args == [] then 0 else Slot(args[..|args| - 1]) + Slots(args[|args| - 1]) }

  // One local each, and one more for each long or double
  lemma {:induction false} SlotCounts(args: seq<Type>)
    ensures Slot(args) == |args| + |set i | 0 <= i < |args| && (args[i].Long? || args[i].Double?)|
  {
    if args != [] {
      var n := |args| - 1;
      SlotCounts(args[..n]);
      var more := set i | 0 <= i < n && (args[..n][i].Long? || args[..n][i].Double?);
      var all := set i | 0 <= i < |args| && (args[i].Long? || args[i].Double?);
      assert all == if args[n].Long? || args[n].Double? then more + {n} else more;
    }
  }

  // ---- where arguments go --------------------------------------------

  // A general register, a pair of them, a floating point register, or a word
  // of the parameter area and, for a type of two words, the next
  datatype Place = Gp(r: nat) | Pair(r: nat) | Fp(r: nat) | Stack(word: nat)

  // _gp_reg, _fp_reg and _st_arg
  datatype Counters = Counters(gp: nat, fp: nat, st: nat)

  function Start(isStatic: bool): Counters {
    Counters(if isStatic then GP_REG_START + 1 else GP_REG_START, FP_REG_START, 0)
  }

  // pass_on_stack
  function OnStack(c: Counters, t: Type): (Place, Counters) {
    var word := if c.st % 2 == 1 && TwoWords(t) then c.st + 1 else c.st;
    (Stack(word), c.(st := word + if TwoWords(t) then 2 else 1))
  }

  // pass_int, pass_object, pass_long, pass_float, pass_double
  function Pass(c: Counters, t: Type): (Place, Counters) {
    if t.Int? || t.Object? then
      if c.gp <= GP_REG_MAX then (Gp(c.gp), c.(gp := c.gp + 1)) else OnStack(c, t)
    else if t.Long? then
      if c.gp < GP_REG_MAX then
        var r := if c.gp % 2 == 0 then c.gp + 1 else c.gp;
        (Pair(r), c.(gp := r + 2))
      else OnStack(c, t)
    else
      if c.fp <= FP_REG_MAX then (Fp(c.fp), c.(fp := c.fp + 1)) else OnStack(c, t)
  }

  function After(c: Counters, args: seq<Type>): Counters {
    if args == [] then c else Pass(After(c, args[..|args| - 1]), args[|args| - 1]).1
  }

  function PlaceOf(c: Counters, args: seq<Type>, i: nat): Place
    requires i < |args|
  {
    Pass(After(c, args[..i]), args[i]).0
  }

  // The registers and words a place takes
  predicate TakesGp(p: Place, r: int) { (p.Gp? && p.r == r) || (p.Pair? && (p.r == r || p.r + 1 == r)) }

  predicate TakesFp(p: Place, r: int) { p.Fp? && p.r == r }

  predicate TakesWord(p: Place, t: Type, w: int) { p.Stack? && (p.word == w || (TwoWords(t) && p.word + 1 == w)) }

  // Passing takes what the counters leave, and no less is left after it.
  lemma PassTakes(c: Counters, t: Type)
    ensures var (p, d) := Pass(c, t);
            && c.gp <= d.gp && c.fp <= d.fp && c.st <= d.st
            && (forall r :: TakesGp(p, r) ==> c.gp <= r < d.gp && r <= GP_REG_MAX)
            && (forall r :: TakesFp(p, r) ==> c.fp <= r < d.fp && r <= FP_REG_MAX)
            && (forall w :: TakesWord(p, t, w) ==> c.st <= w < d.st)
            && (p.Pair? ==> p.r % 2 == 1)
            && (p.Stack? && TwoWords(t) ==> p.word % 2 == 0)
            && (p.Stack? ==> TakesWord(p, t, p.word))
  {
  }

  lemma {:induction false} Leaves(c: Counters, args: seq<Type>, i: nat)
    requires i <= |args|
    ensures After(c, args[..i]).gp <= After(c, args).gp
    ensures After(c, args[..i]).fp <= After(c, args).fp
    ensures After(c, args[..i]).st <= After(c, args).st
  {
    if i == |args| {
      assert args[..i] == args;
    } else {
      var n := |args| - 1;
      assert args[..n][..i] == args[..i];
      Leaves(c, args[..n], i);
      PassTakes(After(c, args[..n]), args[n]);
    }
  }

  // No two arguments share a register or a word of the stack.
  lemma PlacesDisjoint(c: Counters, args: seq<Type>, i: nat, j: nat)
    requires i < j < |args|
    ensures forall r :: !(TakesGp(PlaceOf(c, args, i), r) && TakesGp(PlaceOf(c, args, j), r))
    ensures forall r :: !(TakesFp(PlaceOf(c, args, i), r) && TakesFp(PlaceOf(c, args, j), r))
    ensures forall w :: !(TakesWord(PlaceOf(c, args, i), args[i], w) && TakesWord(PlaceOf(c, args, j), args[j], w))
  {
    PassTakes(After(c, args[..i]), args[i]);
    PassTakes(After(c, args[..j]), args[j]);
    assert args[..j][..i + 1] == args[..i + 1] && args[..i + 1][..i] == args[..i];
    Leaves(c, args[..j], i + 1);
  }

  // Arguments take only argument registers, longs an odd one and the next;
  // what is on the stack is within the words counted, and what takes two words
  // begins at an even one.
  lemma PlacesFit(isStatic: bool, args: seq<Type>, i: nat)
    requires i < |args|
    ensures var p := PlaceOf(Start(isStatic), args, i);
            && (forall r :: TakesGp(p, r) ==> GP_REG_START + (if isStatic then 1 else 0) <= r <= GP_REG_MAX)
            && (forall r :: TakesFp(p, r) ==> FP_REG_START <= r <= FP_REG_MAX)
            && (forall w :: TakesWord(p, args[i], w) ==> w < After(Start(isStatic), args).st)
            && (p.Pair? ==> p.r % 2 == 1 && 5 <= p.r <= 9)
            && (p.Stack? && TwoWords(args[i]) ==> p.word % 2 == 0)
  {
    var c := Start(isStatic);
    PassTakes(After(c, args[..i]), args[i]);
    assert args[..i][..0] == [] && args[..i + 1][..i] == args[..i];
    Leaves(c, args[..i], 0);
    Leaves(c, args, i + 1);
    var p := PlaceOf(c, args, i);
    assert p.Pair? ==> TakesGp(p, p.r) && TakesGp(p, p.r + 1);
  }

  // ---- the ABI -------------------------------------------------------

  // "Parameter Passing" in chapter 3 of the System V ABI PowerPC Processor
  // Supplement: gr, fr and starg, from the first parameter on.
  datatype Abi = Abi(gr: nat, fr: nat, starg: int)

  datatype AbiPlace = InGr(r: nat) | InGrs(r: nat) | InFr(r: nat) | At(address: int)

  function RoundUp(a: int, alignment: int): int
    requires alignment > 0
  {
    (a + alignment - 1) / alignment * alignment
  }

  function Other(s: Abi, size: int): (AbiPlace, Abi)
    requires size > 0
  {
    (At(RoundUp(s.starg, size)), s.(starg := RoundUp(s.starg, size) + size))
  }

  function AbiPass(s: Abi, t: Type): (AbiPlace, Abi) {
    match t
    case Int => if s.gr > 10 then Other(s, 4) else (InGr(s.gr), s.(gr := s.gr + 1))
    case Object => if s.gr > 10 then Other(s, 4) else (InGr(s.gr), s.(gr := s.gr + 1))
    case Float => if s.fr > 8 then Other(s, 8) else (InFr(s.fr), s.(fr := s.fr + 1))
    case Double => if s.fr > 8 then Other(s, 8) else (InFr(s.fr), s.(fr := s.fr + 1))
    case Long =>
      if s.gr > 9 then Other(s, 8)
      else
        var r := if s.gr % 2 == 0 then s.gr + 1 else s.gr;
        (InGrs(r), s.(gr := r + 2))
  }

  function AbiAfter(r1: int, args: seq<Type>): Abi {
    if args == [] then Abi(3, 1, r1 + LINK_AREA_WORDS * WORD)
    else AbiPass(AbiAfter(r1, args[..|args| - 1]), args[|args| - 1]).1
  }

  // The native function takes the JNI environment first and, where static, the
  // class; neither is in the signature.
  function NativeArgs(isStatic: bool, args: seq<Type>): seq<Type> {
    (if isStatic then [Object, Object] else [Object]) + args
  }

  function AbiPlaceOf(p: Place, r1: int): AbiPlace {
    match p
    case Gp(r) => InGr(r)
    case Pair(r) => InGrs(r)
    case Fp(r) => InFr(r)
    case Stack(word) => At(r1 + (LINK_AREA_WORDS + word) * WORD)
  }

  lemma {:induction false} CountersAgree(isStatic: bool, args: seq<Type>, r1: int)
    requires r1 % STACK_ALIGNMENT == 0
    ensures var c := After(Start(isStatic), args);
            AbiAfter(r1, NativeArgs(isStatic, args)) == Abi(c.gp, c.fp, r1 + (LINK_AREA_WORDS + c.st) * WORD)
  {
    hide RoundUp, Pass;
    var all := NativeArgs(isStatic, args);
    if args == [] {
      assert [Object][..0] == [] && [Object, Object][..1] == [Object];
      assert AbiAfter(r1, []) == Abi(3, 1, r1 + LINK_AREA_WORDS * WORD);
      assert AbiAfter(r1, [Object]) == Abi(4, 1, r1 + LINK_AREA_WORDS * WORD);
      assert AbiAfter(r1, [Object, Object]) == Abi(5, 1, r1 + LINK_AREA_WORDS * WORD);
      assert all == if isStatic then [Object, Object] else [Object];
    } else {
      var n := |args| - 1;
      assert all[..|all| - 1] == NativeArgs(isStatic, args[..n]);
      CountersAgree(isStatic, args[..n], r1);
      PassAgrees(After(Start(isStatic), args[..n]), args[n], r1);
    }
  }

  lemma Rounds(b: int)
    ensures RoundUp(4 * b, 4) == 4 * b && RoundUp(4 * b, 8) == if b % 2 == 0 then 4 * b else 4 * b + 4
  {
    assert (4 * b + 3) / 4 == b;
    var k := b / 2;
    if b % 2 == 0 {
      assert b == 2 * k && (8 * k + 7) / 8 == k;
    } else {
      assert b == 2 * k + 1 && (8 * k + 4 + 7) / 8 == k + 1;
    }
  }

  lemma PassAgrees(c: Counters, t: Type, r1: int)
    requires r1 % STACK_ALIGNMENT == 0
    ensures AbiPass(Abi(c.gp, c.fp, r1 + (LINK_AREA_WORDS + c.st) * WORD), t)
         == (AbiPlaceOf(Pass(c, t).0, r1),
             Abi(Pass(c, t).1.gp, Pass(c, t).1.fp, r1 + (LINK_AREA_WORDS + Pass(c, t).1.st) * WORD))
  {
    hide RoundUp;
    AreaRounds(r1, c.st);
  }

  // From an aligned r1, words of the parameter area are rounded as addresses
  // are.
  lemma AreaRounds(r1: int, st: nat)
    requires r1 % STACK_ALIGNMENT == 0
    ensures RoundUp(r1 + (LINK_AREA_WORDS + st) * WORD, 4) == r1 + (LINK_AREA_WORDS + st) * WORD
    ensures RoundUp(r1 + (LINK_AREA_WORDS + st) * WORD, 8) == r1 + (LINK_AREA_WORDS + st + st % 2) * WORD
  {
    hide RoundUp;
    var k := r1 / STACK_ALIGNMENT;
    var b := 4 * k + LINK_AREA_WORDS + st;
    assert r1 + (LINK_AREA_WORDS + st) * WORD == 4 * b;
    Rounds(b);
    assert b % 2 == st % 2 by {
      assert b == 2 * (2 * k + 1) + st;
    }
  }

  // Every argument is put where the called function looks for it.
  lemma AbiAgrees(isStatic: bool, args: seq<Type>, i: nat, r1: int)
    requires i < |args| && r1 % STACK_ALIGNMENT == 0
    ensures AbiPass(AbiAfter(r1, NativeArgs(isStatic, args[..i])), args[i]).0
         == AbiPlaceOf(PlaceOf(Start(isStatic), args, i), r1)
  {
    CountersAgree(isStatic, args[..i], r1);
    PassAgrees(After(Start(isStatic), args[..i]), args[i], r1);
  }

  // ---- the machine ---------------------------------------------------

  // A word; High and Low are the words of a single widened to a double.
  datatype Cell = Word(value: int) | High(single: Cell) | Low(single: Cell)

  datatype FloatValue = Narrow(single: Cell) | Wide(high: Cell, low: Cell)

  datatype Machine = Machine(gpr: map<int, Cell>, fpr: map<int, FloatValue>, r1: int, mem: map<int, Cell>)

  function Load(mem: map<int, Cell>, a: int): Cell { if a in mem then mem[a] else Word(0) }

  function Gpr(m: Machine, r: int): Cell { if r in m.gpr then m.gpr[r] else Word(0) }

  function Fpr(m: Machine, r: int): FloatValue { if r in m.fpr then m.fpr[r] else Narrow(Word(0)) }

  // Offsets are from the locals when loading and from r1 when storing.
  // LoadHandle is the load, test and address of a reference; Reserve the code
  // of maybe_extend_frame after its two loads.
  datatype Instr = LoadWord(r: nat, off: int) | LoadHandle(r: nat, off: int) | LoadSingle(r: nat, off: int)
                 | LoadDouble(r: nat, off: int) | StoreWord(r: nat, off: int) | StoreDouble(r: nat, off: int)
                 | Reserve(required: int)

  function Handle(mem: map<int, Cell>, a: int): Cell { if Load(mem, a) == Word(0) then Word(0) else Word(a) }

  // locals is Rlocals, and limit the stack limit in the interpreter state.
  datatype Frame = Frame(locals: int, limit: int)

  // What the frame has between the link area and its top
  function Available(f: Frame, r1: int): int { f.limit + (1 - LINK_AREA_WORDS) * WORD - r1 }

  function Exec(f: Frame, m: Machine, i: Instr): Machine {
    match i
    case LoadWord(r, off) => m.(gpr := m.gpr[r := Load(m.mem, f.locals + off)])
    case LoadHandle(r, off) => m.(gpr := m.gpr[r := Handle(m.mem, f.locals + off)])
    case LoadSingle(r, off) => m.(fpr := m.fpr[r := Narrow(Load(m.mem, f.locals + off))])
    case LoadDouble(r, off) => m.(fpr := m.fpr[r := Wide(Load(m.mem, f.locals + off), Load(m.mem, f.locals + off + WORD))])
    case StoreWord(r, off) => m.(mem := m.mem[m.r1 + off := Gpr(m, r)])
    case StoreDouble(r, off) => m.(mem := StoredDouble(m.mem, m.r1 + off, Fpr(m, r)))
    case Reserve(required) =>
      var bytes := ExtendBy(required, Available(f, m.r1));
      var chain := Load(m.mem, m.r1);
      if bytes == 0 then m.(gpr := m.gpr[11 := Word(required)][12 := Word(Available(f, m.r1))])
      else m.(gpr := m.gpr[11 := chain][12 := Word(m.r1)], r1 := m.r1 - bytes, mem := m.mem[m.r1 - bytes := chain])
  }

  function StoredDouble(mem: map<int, Cell>, a: int, v: FloatValue): map<int, Cell> {
    match v
    case Narrow(c) => mem[a := High(c)][a + WORD := Low(c)]
    case Wide(high, low) => mem[a := high][a + WORD := low]
  }

  function Run(f: Frame, m: Machine, code: seq<Instr>): Machine {
    if code == [] then m else Exec(f, Run(f, m, code[..|code| - 1]), code[|code| - 1])
  }

  lemma {:induction false} RunJoined(f: Frame, m: Machine, a: seq<Instr>, b: seq<Instr>)
    ensures Run(f, m, a + b) == Run(f, Run(f, m, a), b)
  {
    if b == [] {
      assert a + b == a;
    } else {
      var n := |b| - 1;
      assert (a + b)[..|a + b| - 1] == a + b[..n];
      RunJoined(f, m, a, b[..n]);
    }
  }

  // ---- the code ------------------------------------------------------

  function LocalOffset(slot: nat): int { 0 - slot * WORD }

  // where an argument that begins at a slot is read from
  function Source(t: Type, slot: nat): int { LocalOffset(if t.Long? || t.Double? then slot + 1 else slot) }

  // What pass_* emits
  function RegisterCode(p: Place, t: Type, slot: nat): seq<Instr> {
    if p.Stack? then []
    else match t
      case Int => [LoadWord(p.r, LocalOffset(slot))]
      case Long => [LoadWord(p.r, LocalOffset(slot + 1)), LoadWord(p.r + 1, LocalOffset(slot))]
      case Float => [LoadSingle(p.r, LocalOffset(slot))]
      case Double => [LoadDouble(p.r, LocalOffset(slot + 1))]
      case Object => [LoadHandle(p.r, LocalOffset(slot))]
  }

  datatype StackArgument = StackArgument(src: int, dst: int, t: Type) {

    // StackArgument::pass
    function Code(): seq<Instr> {
      match t
      case Int => [LoadWord(0, src), StoreWord(0, dst)]
      case Long => [LoadWord(0, src), StoreWord(0, dst), LoadWord(0, src + WORD), StoreWord(0, dst + WORD)]
      case Float => [LoadSingle(0, src), StoreDouble(0, dst)]
      case Double => [LoadDouble(0, src), StoreDouble(0, dst)]
      case Object => [LoadHandle(0, src), StoreWord(0, dst)]
    }
  }

  function AsStackArgument(p: Place, t: Type, slot: nat): StackArgument
    requires p.Stack?
  {
    StackArgument(Source(t, slot), (LINK_AREA_WORDS + p.word) * WORD, t)
  }

  // What pass_* adds to the arguments for the stack
  function Stacked(p: Place, t: Type, slot: nat): seq<StackArgument> {
    if p.Stack? then [AsStackArgument(p, t, slot)] else []
  }

  function LastPlace(c: Counters, args: seq<Type>): Place
    requires args != []
  {
    PlaceOf(c, args, |args| - 1)
  }

  function RegistersCode(c: Counters, args: seq<Type>): seq<Instr> {
    if args == [] then []
    else
      var n := |args| - 1;
      RegistersCode(c, args[..n]) + RegisterCode(LastPlace(c, args), args[n], Slot(args[..n]))
  }

  function StackArguments(c: Counters, args: seq<Type>): seq<StackArgument> {
    if args == [] then []
    else
      var n := |args| - 1;
      StackArguments(c, args[..n]) + Stacked(LastPlace(c, args), args[n], Slot(args[..n]))
  }

  function PassAll(list: seq<StackArgument>): seq<Instr> {
    if list == [] then [] else PassAll(list[..|list| - 1]) + list[|list| - 1].Code()
  }

  function HandlerCode(c: Counters, args: seq<Type>): seq<Instr> {
    RegistersCode(c, args)
    + if After(c, args).st > MIN_PARAMS then [Reserve(After(c, args).st * WORD)] + PassAll(StackArguments(c, args)) else []
  }

  // ---- what the code does --------------------------------------------

  // The address of the local in a slot
  function Local(f: Frame, slot: nat): int { f.locals - 4 * slot }

  // An argument of this type is at a place, as it was in the locals.
  // A reference is passed as the address of its local, and null as 0.
  predicate IsHandle(v: Cell, was: map<int, Cell>, a: int) {
    (Load(was, a) == Word(0) ==> v == Word(0)) && (Load(was, a) != Word(0) ==> v == Word(a))
  }

  ghost predicate Holds(f: Frame, was: map<int, Cell>, m: Machine, p: Place, t: Type, slot: nat) {
    if p.Stack? then
      var a := m.r1 + (LINK_AREA_WORDS + p.word) * WORD;
      if t.Int? then Load(m.mem, a) == Load(was, Local(f, slot))
      else if t.Object? then IsHandle(Load(m.mem, a), was, Local(f, slot))
      else if t.Float? then
        Load(m.mem, a) == High(Load(was, Local(f, slot))) && Load(m.mem, a + WORD) == Low(Load(was, Local(f, slot)))
      else Load(m.mem, a) == Load(was, Local(f, slot + 1)) && Load(m.mem, a + WORD) == Load(was, Local(f, slot))
    else if t.Int? then Gpr(m, p.r) == Load(was, Local(f, slot))
    else if t.Object? then IsHandle(Gpr(m, p.r), was, Local(f, slot))
    else if t.Long? then Gpr(m, p.r) == Load(was, Local(f, slot + 1)) && Gpr(m, p.r + 1) == Load(was, Local(f, slot))
    else if t.Float? then Fpr(m, p.r) == Narrow(Load(was, Local(f, slot)))
    else Fpr(m, p.r) == Wide(Load(was, Local(f, slot + 1)), Load(was, Local(f, slot)))
  }

  ghost predicate HoldsAt(f: Frame, was: map<int, Cell>, m: Machine, c: Counters, args: seq<Type>, i: nat)
    requires i < |args|
  {
    Holds(f, was, m, PlaceOf(c, args, i), args[i], Slot(args[..i]))
  }

  // Loading one argument into its registers changes those only.
  lemma LoadsArgument(f: Frame, m: Machine, c: Counters, t: Type, slot: nat)
    ensures var p := Pass(c, t).0; var m' := Run(f, m, RegisterCode(p, t, slot));
            && (!p.Stack? ==> Holds(f, m.mem, m', p, t, slot))
            && m'.r1 == m.r1 && m'.mem == m.mem
            && (forall r :: r < c.gp ==> Gpr(m', r) == Gpr(m, r))
            && (forall r :: r < c.fp ==> Fpr(m', r) == Fpr(m, r))
  {
    var p := Pass(c, t).0;
    var code := RegisterCode(p, t, slot);
    if code != [] {
      assert code[..0] == [];
      if t.Long? {
        assert code[..1][..0] == [];
        assert Run(f, m, code[..1]) == Exec(f, m, code[0]);
        assert Run(f, m, code) == Exec(f, Exec(f, m, code[0]), code[1]);
      } else {
        assert Run(f, m, code) == Exec(f, m, code[0]);
      }
    }
  }

  // A register argument is not lost when registers from the counters on, and
  // what is on the stack, change.
  lemma StaysLoaded(f: Frame, was: map<int, Cell>, m: Machine, m': Machine, c: Counters, t: Type, slot: nat, d: Counters)
    requires !Pass(c, t).0.Stack? && Holds(f, was, m, Pass(c, t).0, t, slot)
    requires Pass(c, t).1.gp <= d.gp && Pass(c, t).1.fp <= d.fp
    requires forall r :: 0 < r < d.gp ==> Gpr(m', r) == Gpr(m, r)
    requires forall r :: 0 < r < d.fp ==> Fpr(m', r) == Fpr(m, r)
    requires c.gp > 0 && c.fp > 0
    ensures Holds(f, was, m', Pass(c, t).0, t, slot)
  {
  }

  lemma {:induction false} RegistersLoaded(f: Frame, m: Machine, c: Counters, args: seq<Type>)
    requires c.gp > 0 && c.fp > 0
    ensures var m' := Run(f, m, RegistersCode(c, args));
            && m'.r1 == m.r1 && m'.mem == m.mem
            && forall i :: 0 <= i < |args| && !PlaceOf(c, args, i).Stack? ==> HoldsAt(f, m.mem, m', c, args, i)
  {
    hide Pass, Holds, RegisterCode, Exec, Slot;
    if args != [] {
      var n := |args| - 1;
      var d := After(c, args[..n]);
      var m1 := Run(f, m, RegistersCode(c, args[..n]));
      RegistersLoaded(f, m, c, args[..n]);
      RunJoined(f, m, RegistersCode(c, args[..n]), RegisterCode(LastPlace(c, args), args[n], Slot(args[..n])));
      LoadsArgument(f, m1, d, args[n], Slot(args[..n]));
      var m' := Run(f, m, RegistersCode(c, args));
      forall i | 0 <= i < |args| && !PlaceOf(c, args, i).Stack? ensures HoldsAt(f, m.mem, m', c, args, i) {
        if i < n {
          assert args[..n][..i] == args[..i];
          assert HoldsAt(f, m.mem, m1, c, args[..n], i);
          assert args[..n][..i + 1] == args[..i + 1] && args[..i + 1][..i] == args[..i];
          Leaves(c, args[..n], i + 1);
          assert args[..i][..0] == [];
          Leaves(c, args[..i], 0);
          StaysLoaded(f, m.mem, m1, m', After(c, args[..i]), args[i], Slot(args[..i]), d);
        }
      }
    }
  }

  // The top of what the handler may use; the frame's state and its locals lie
  // from there on.
  function Top(f: Frame): int { f.limit + WORD }

  ghost predicate LocalsAbove(f: Frame, n: nat) { forall slot: nat :: slot < n ==> Local(f, slot) >= Top(f) }

  ghost predicate SameAbove(was: map<int, Cell>, mem: map<int, Cell>, a: int) { forall b :: b >= a ==> Load(mem, b) == Load(was, b) }

  lemma {:induction false} SlotGrows(args: seq<Type>, i: nat)
    requires i < |args|
    ensures Slot(args[..i]) + Slots(args[i]) <= Slot(args)
  {
    var n := |args| - 1;
    if i < n {
      assert args[..n][..i] == args[..i];
      SlotGrows(args[..n], i);
    }
  }

  // The reserved words are below the top, with r1 aligned and the same caller
  // named; only scratch registers change.
  lemma ReserveMakesRoom(f: Frame, m: Machine, words: nat)
    requires m.r1 % STACK_ALIGNMENT == 0
    ensures var m' := Exec(f, m, Reserve(words * WORD));
            && m'.r1 % STACK_ALIGNMENT == 0 && m'.r1 <= m.r1
            && m'.r1 + (LINK_AREA_WORDS + words) * WORD <= Top(f)
            && Load(m'.mem, m'.r1) == Load(m.mem, m.r1)
            && (forall a :: a != m'.r1 ==> Load(m'.mem, a) == Load(m.mem, a))
            && (forall r :: r <= GP_REG_MAX ==> Gpr(m', r) == Gpr(m, r))
            && m'.fpr == m.fpr
  {
    ExtendKeepsFrame(Layout(false, 0, 0, 0), m.r1, map[], words * WORD, Available(f, m.r1));
  }

  // What a run of the code of stack arguments leaves alone
  ghost predicate StoresOnly(m: Machine, m': Machine, lo: nat, hi: nat) {
    && m'.r1 == m.r1
    && (forall r :: r > 0 ==> Gpr(m', r) == Gpr(m, r))
    && (forall r :: r > 0 ==> Fpr(m', r) == Fpr(m, r))
    && (forall a :: a < m.r1 + (LINK_AREA_WORDS + lo) * WORD || a >= m.r1 + (LINK_AREA_WORDS + hi) * WORD
          ==> Load(m'.mem, a) == Load(m.mem, a))
  }

  lemma StoresArgument(f: Frame, was: map<int, Cell>, m: Machine, c: Counters, t: Type, slot: nat)
    requires Pass(c, t).0.Stack? && SameAbove(was, m.mem, Top(f))
    requires Local(f, slot) >= Top(f) && (Slots(t) == 2 ==> Local(f, slot + 1) >= Top(f))
    requires m.r1 + (LINK_AREA_WORDS + Pass(c, t).1.st) * WORD <= Top(f)
    ensures Holds(f, was, Run(f, m, AsStackArgument(Pass(c, t).0, t, slot).Code()), Pass(c, t).0, t, slot)
    ensures StoresOnly(m, Run(f, m, AsStackArgument(Pass(c, t).0, t, slot).Code()), c.st, Pass(c, t).1.st)
  {
    hide SameAbove, Holds, StoresOnly, Run, Pass;
    PassTakes(c, t);
    var p := Pass(c, t).0;
    SourcesAbove(f, was, m, slot);
    if Slots(t) == 2 {
      SourcesAbove(f, was, m, slot + 1);
    }
    assert TwoWords(t) ==> TakesWord(p, t, p.word + 1);
    if t.Long? {
      StoresLong(f, was, m, p.word, slot, c.st, Pass(c, t).1.st);
    } else if t.Float? || t.Double? {
      StoresDouble(f, was, m, p.word, t, slot, c.st, Pass(c, t).1.st);
    } else {
      StoresOneWord(f, was, m, p.word, t, slot, c.st, Pass(c, t).1.st);
    }
  }

  lemma StoresLong(f: Frame, was: map<int, Cell>, m: Machine, word: nat, slot: nat, lo: nat, hi: nat)
    requires Load(m.mem, Local(f, slot)) == Load(was, Local(f, slot)) && Local(f, slot) >= Top(f)
    requires Load(m.mem, Local(f, slot + 1)) == Load(was, Local(f, slot + 1))
    requires lo <= word && word + 1 < hi && m.r1 + (LINK_AREA_WORDS + hi) * WORD <= Top(f)
    ensures var m' := Run(f, m, AsStackArgument(Stack(word), Long, slot).Code());
            Holds(f, was, m', Stack(word), Long, slot) && StoresOnly(m, m', lo, hi)
  {
    hide Run;
    var src, dst := LocalOffset(slot + 1), (LINK_AREA_WORDS + word) * WORD;
    var code := AsStackArgument(Stack(word), Long, slot).Code();
    assert code == [LoadWord(0, src), StoreWord(0, dst)] + [LoadWord(0, src + WORD), StoreWord(0, dst + WORD)];
    RunJoined(f, m, [LoadWord(0, src), StoreWord(0, dst)], [LoadWord(0, src + WORD), StoreWord(0, dst + WORD)]);
    CopiesWord(f, m, src, dst);
    var m1 := Run(f, m, [LoadWord(0, src), StoreWord(0, dst)]);
    CopiesWord(f, m1, src + WORD, dst + WORD);
    assert Load(m1.mem, f.locals + src + WORD) == Load(m.mem, f.locals + src + WORD);
  }

  lemma CopiesWord(f: Frame, m: Machine, src: int, dst: int)
    ensures Run(f, m, [LoadWord(0, src), StoreWord(0, dst)])
         == Machine(m.gpr[0 := Load(m.mem, f.locals + src)], m.fpr, m.r1, m.mem[m.r1 + dst := Load(m.mem, f.locals + src)])
  {
    RunTwo(f, m, LoadWord(0, src), StoreWord(0, dst));
  }

  lemma StoresOneWord(f: Frame, was: map<int, Cell>, m: Machine, word: nat, t: Type, slot: nat, lo: nat, hi: nat)
    requires (t.Int? || t.Object?) && Load(m.mem, Local(f, slot)) == Load(was, Local(f, slot)) && lo <= word < hi
    ensures var m' := Run(f, m, AsStackArgument(Stack(word), t, slot).Code());
            Holds(f, was, m', Stack(word), t, slot) && StoresOnly(m, m', lo, hi)
  {
    hide Run;
    var code := AsStackArgument(Stack(word), t, slot).Code();
    RunTwo(f, m, code[0], code[1]);
    assert code == [code[0], code[1]];
  }

  lemma DoubleStored(mem: map<int, Cell>, a: int, v: FloatValue)
    ensures var mem' := StoredDouble(mem, a, v);
            && Load(mem', a) == (if v.Wide? then v.high else High(v.single))
            && Load(mem', a + WORD) == (if v.Wide? then v.low else Low(v.single))
            && forall b :: b != a && b != a + WORD ==> Load(mem', b) == Load(mem, b)
  {
  }

  lemma StoresDouble(f: Frame, was: map<int, Cell>, m: Machine, word: nat, t: Type, slot: nat, lo: nat, hi: nat)
    requires (t.Float? || t.Double?) && Load(m.mem, Local(f, slot)) == Load(was, Local(f, slot))
    requires t.Double? ==> Load(m.mem, Local(f, slot + 1)) == Load(was, Local(f, slot + 1))
    requires lo <= word && word + 1 < hi
    ensures var m' := Run(f, m, AsStackArgument(Stack(word), t, slot).Code());
            Holds(f, was, m', Stack(word), t, slot) && StoresOnly(m, m', lo, hi)
  {
    hide Run, StoredDouble;
    DoubleStored(m.mem, m.r1 + (LINK_AREA_WORDS + word) * WORD, Narrow(Load(was, Local(f, slot))));
    DoubleStored(m.mem, m.r1 + (LINK_AREA_WORDS + word) * WORD, Wide(Load(was, Local(f, slot + 1)), Load(was, Local(f, slot))));
    var code := AsStackArgument(Stack(word), t, slot).Code();
    RunTwo(f, m, code[0], code[1]);
    assert code == [code[0], code[1]];
  }

  lemma SourcesAbove(f: Frame, was: map<int, Cell>, m: Machine, slot: nat)
    requires SameAbove(was, m.mem, Top(f)) && Local(f, slot) >= Top(f)
    ensures Load(m.mem, Local(f, slot)) == Load(was, Local(f, slot))
  {
  }

  lemma RunTwo(f: Frame, m: Machine, a: Instr, b: Instr)
    ensures Run(f, m, [a, b]) == Exec(f, Exec(f, m, a), b)
  {
    assert [a, b][..1] == [a] && [a][..0] == [];
    assert Run(f, m, [a]) == Exec(f, m, a);
  }

  // A stack argument is not lost when words counted after it change.
  lemma StaysStored(f: Frame, was: map<int, Cell>, m: Machine, m': Machine, c: Counters, t: Type, slot: nat, lo: nat, hi: nat)
    requires Pass(c, t).0.Stack? && Holds(f, was, m, Pass(c, t).0, t, slot)
    requires Pass(c, t).1.st <= lo && StoresOnly(m, m', lo, hi)
    ensures Holds(f, was, m', Pass(c, t).0, t, slot)
  {
  }

  lemma StoresJoined(m: Machine, m1: Machine, m': Machine, lo: nat, mid: nat, hi: nat)
    requires StoresOnly(m, m1, lo, mid) && StoresOnly(m1, m', mid, hi) && lo <= mid <= hi
    ensures StoresOnly(m, m', lo, hi)
  {
  }

  lemma StaysAbove(f: Frame, was: map<int, Cell>, m: Machine, m': Machine, lo: nat, hi: nat)
    requires SameAbove(was, m.mem, Top(f)) && StoresOnly(m, m', lo, hi)
    requires m.r1 + (LINK_AREA_WORDS + hi) * WORD <= Top(f)
    ensures SameAbove(was, m'.mem, Top(f)) && m'.r1 == m.r1
  {
  }

  lemma LocalsOf(f: Frame, args: seq<Type>, i: nat)
    requires i < |args| && LocalsAbove(f, Slot(args))
    ensures LocalsAbove(f, Slot(args[..i]))
    ensures Local(f, Slot(args[..i])) >= Top(f)
    ensures Slots(args[i]) == 2 ==> Local(f, Slot(args[..i]) + 1) >= Top(f)
  {
    SlotGrows(args, i);
  }

  lemma StackMore(f: Frame, m: Machine, list: seq<StackArgument>, x: StackArgument)
    ensures Run(f, m, PassAll(list + [x])) == Run(f, Run(f, m, PassAll(list)), x.Code())
  {
    hide Run;
    assert (list + [x])[..|list|] == list;
    RunJoined(f, m, PassAll(list), x.Code());
  }

  // All the stack arguments are where they go, and nothing else changed.
  ghost predicate Stored(f: Frame, was: map<int, Cell>, m: Machine, m': Machine, c: Counters, args: seq<Type>) {
    && StoresOnly(m, m', c.st, After(c, args).st)
    && forall i :: 0 <= i < |args| && PlaceOf(c, args, i).Stack? ==> HoldsAt(f, was, m', c, args, i)
  }

  lemma {:induction false} StackLoaded(f: Frame, was: map<int, Cell>, m: Machine, c: Counters, args: seq<Type>)
    requires SameAbove(was, m.mem, Top(f)) && LocalsAbove(f, Slot(args))
    requires m.r1 + (LINK_AREA_WORDS + After(c, args).st) * WORD <= Top(f)
    ensures Stored(f, was, m, Run(f, m, PassAll(StackArguments(c, args))), c, args)
  {
    hide Pass, Holds, Exec, Slot, LocalsAbove, SameAbove, Local;
    if args == [] {
      assert StoresOnly(m, m, c.st, c.st);
    } else {
      hide Stored, StoresOnly, Run, PassAll, AsStackArgument;
      var n := |args| - 1;
      AfterMore(c, args);
      LocalsOf(f, args, n);
      StackLoaded(f, was, m, c, args[..n]);
      var list := StackArguments(c, args[..n]);
      if LastPlace(c, args).Stack? {
        StackMore(f, m, list, AsStackArgument(LastPlace(c, args), args[n], Slot(args[..n])));
      } else {
        assert list + [] == list;
      }
      LastStored(f, was, m, Run(f, m, PassAll(list)), c, args);
    }
  }

  lemma AfterMore(c: Counters, args: seq<Type>)
    requires args != []
    ensures After(c, args) == Pass(After(c, args[..|args| - 1]), args[|args| - 1]).1
    ensures c.st <= After(c, args[..|args| - 1]).st <= After(c, args).st
  {
    var n := |args| - 1;
    PassTakes(After(c, args[..n]), args[n]);
    assert args[..n][..0] == [];
    Leaves(c, args[..n], 0);
  }

  lemma LastStored(f: Frame, was: map<int, Cell>, m: Machine, m1: Machine, c: Counters, args: seq<Type>)
    requires args != [] && SameAbove(was, m.mem, Top(f)) && LocalsAbove(f, Slot(args))
    requires m.r1 + (LINK_AREA_WORDS + After(c, args).st) * WORD <= Top(f)
    requires Stored(f, was, m, m1, c, args[..|args| - 1])
    ensures var p, t, slot := LastPlace(c, args), args[|args| - 1], Slot(args[..|args| - 1]);
            var m' := if p.Stack? then Run(f, m1, AsStackArgument(p, t, slot).Code()) else m1;
            Stored(f, was, m, m', c, args)
  {
    hide Pass, Holds, Exec, Slot, LocalsAbove, SameAbove, Local, StoresOnly, Run, AsStackArgument, After;
    var n := |args| - 1;
    var d := After(c, args[..n]);
    var p, t, slot := LastPlace(c, args), args[n], Slot(args[..n]);
    var m' := if p.Stack? then Run(f, m1, AsStackArgument(p, t, slot).Code()) else m1;
    AfterMore(c, args);
    LocalsOf(f, args, n);
    if p.Stack? {
      StaysAbove(f, was, m, m1, c.st, d.st);
      StoresArgument(f, was, m1, d, t, slot);
      StoresJoined(m, m1, m', c.st, d.st, After(c, args).st);
    } else {
      StoresNothing(d, t);
    }
    forall i | 0 <= i < |args| && PlaceOf(c, args, i).Stack? ensures HoldsAt(f, was, m', c, args, i) {
      if i < n {
        assert args[..n][..i] == args[..i];
        assert HoldsAt(f, was, m1, c, args[..n], i);
        if p.Stack? {
          StillStored(f, was, m1, m', c, args, i);
        }
      }
    }
  }

  lemma StoresNothing(c: Counters, t: Type)
    requires !Pass(c, t).0.Stack?
    ensures Pass(c, t).1.st == c.st
  {
  }

  lemma StillStored(f: Frame, was: map<int, Cell>, m: Machine, m': Machine, c: Counters, args: seq<Type>, i: nat)
    requires i < |args| - 1 && PlaceOf(c, args, i).Stack? && HoldsAt(f, was, m, c, args, i)
    requires StoresOnly(m, m', After(c, args[..|args| - 1]).st, After(c, args).st)
    ensures HoldsAt(f, was, m', c, args, i)
  {
    hide Pass, Holds, Slot, StoresOnly;
    var n := |args| - 1;
    assert args[..n][..i + 1] == args[..i + 1] && args[..i + 1][..i] == args[..i];
    Leaves(c, args[..n], i + 1);
    StaysStored(f, was, m, m', After(c, args[..i]), args[i], Slot(args[..i]), After(c, args[..n]).st, After(c, args).st);
  }

  // The handler puts every argument where it goes, in registers or in the
  // words it made room for, and keeps what is above them; r1 stays aligned and
  // names the same caller.
  lemma HandlerPasses(f: Frame, m: Machine, isStatic: bool, args: seq<Type>)
    requires m.r1 % STACK_ALIGNMENT == 0 && LocalsAbove(f, Slot(args))
    ensures var c := Start(isStatic); var m' := Run(f, m, HandlerCode(c, args));
            && (forall i :: 0 <= i < |args| ==> HoldsAt(f, m.mem, m', c, args, i))
            && SameAbove(m.mem, m'.mem, Top(f))
            && m'.r1 % STACK_ALIGNMENT == 0 && m'.r1 <= m.r1
            && Load(m'.mem, m'.r1) == Load(m.mem, m.r1)
            && (After(c, args).st > 0 ==> m'.r1 + (LINK_AREA_WORDS + After(c, args).st) * WORD <= Top(f))
  {
    hide Pass, Holds, Exec, Slot;
    var c := Start(isStatic);
    var st := After(c, args).st;
    var m1 := Run(f, m, RegistersCode(c, args));
    RegistersLoaded(f, m, c, args);
    assert args[..|args|] == args;
    if st == 0 {
      assert RegistersCode(c, args) + [] == RegistersCode(c, args);
      forall i | 0 <= i < |args| ensures !PlaceOf(c, args, i).Stack? {
        PlacesFit(isStatic, args, i);
        PassTakes(After(c, args[..i]), args[i]);
      }
    } else {
      var reserve := Reserve(st * WORD);
      var stack := PassAll(StackArguments(c, args));
      var m2 := Exec(f, m1, reserve);
      ReserveMakesRoom(f, m1, st);
      RunJoined(f, m, RegistersCode(c, args), [reserve] + stack);
      RunJoined(f, m1, [reserve], stack);
      assert [reserve][..0] == [];
      assert Run(f, m1, [reserve]) == m2;
      StackLoaded(f, m.mem, m2, c, args);
      var m' := Run(f, m2, stack);
      assert Stored(f, m.mem, m2, m', c, args);
      assert Run(f, m, HandlerCode(c, args)) == m';
      forall i | 0 <= i < |args| ensures HoldsAt(f, m.mem, m', c, args, i) {
        if !PlaceOf(c, args, i).Stack? {
          RegistersStay(f, m.mem, m1, m', isStatic, args, i);
        }
      }
    }
  }

  lemma RegistersStay(f: Frame, was: map<int, Cell>, m: Machine, m': Machine, isStatic: bool, args: seq<Type>, i: nat)
    requires i < |args| && !PlaceOf(Start(isStatic), args, i).Stack?
    requires HoldsAt(f, was, m, Start(isStatic), args, i)
    requires forall r :: 0 < r <= GP_REG_MAX ==> Gpr(m', r) == Gpr(m, r)
    requires forall r :: r > 0 ==> Fpr(m', r) == Fpr(m, r)
    ensures HoldsAt(f, was, m', Start(isStatic), args, i)
  {
    hide Pass, Slot;
    PlacesFit(isStatic, args, i);
    var p := PlaceOf(Start(isStatic), args, i);
    assert p.Gp? || p.Pair? ==> TakesGp(p, p.r);
    assert p.Pair? ==> TakesGp(p, p.r + 1);
    assert p.Fp? ==> TakesFp(p, p.r);
    PassKinds(After(Start(isStatic), args[..i]), args[i]);
  }

  lemma PassKinds(c: Counters, t: Type)
    ensures var p := Pass(c, t).0;
            && (p.Gp? ==> t.Int? || t.Object?)
            && (p.Pair? ==> t.Long?)
            && (p.Fp? ==> t.Float? || t.Double?)
  {
  }

  // ---- the generator -------------------------------------------------

  class SignatureHandlerGenerator {
    const isStatic: bool
    var gpReg: nat
    var fpReg: nat
    var stArg: nat
    var stArgs: seq<StackArgument>
    var code: seq<Instr>
    // the signature iterator's place in the locals
    var offset: nat

    constructor (isStatic: bool)
      ensures this.isStatic == isStatic && Passed([])
    {
      this.isStatic := isStatic;
      gpReg := if isStatic then GP_REG_START + 1 else GP_REG_START;
      fpReg, stArg, stArgs, code, offset := FP_REG_START, 0, [], [], 0;
    }

    function Counted(): Counters
      reads this
    {
      Counters(gpReg, fpReg, stArg)
    }

    // Where the generator is after these arguments
    ghost predicate Passed(args: seq<Type>)
      reads this
    {
      && Counted() == After(Start(isStatic), args)
      && stArgs == StackArguments(Start(isStatic), args)
      && code == RegistersCode(Start(isStatic), args)
      && offset == Slot(args)
    }

    method PassOnStack(src: int, t: Type)
      modifies this`stArg, this`stArgs
      ensures stArg == OnStack(old(Counted()), t).1.st
      ensures stArgs == old(stArgs) + [StackArgument(src, (LINK_AREA_WORDS + OnStack(old(Counted()), t).0.word) * WORD, t)]
    {
      if stArg % 2 == 1 {
        if t == Long || t == Float || t == Double {
          stArg := stArg + 1;
        }
      }
      stArgs := stArgs + [StackArgument(src, (LINK_AREA_WORDS + stArg) * WORD, t)];
      stArg := stArg + 1;
      if t == Long || t == Float || t == Double {
        stArg := stArg + 1;
      }
    }

    method PassInt()
      modifies this`gpReg, this`fpReg, this`stArg, this`stArgs, this`code
      ensures Counted() == Pass(old(Counted()), Int).1
      ensures code == old(code) + RegisterCode(Pass(old(Counted()), Int).0, Int, offset)
      ensures stArgs == old(stArgs) + Stacked(Pass(old(Counted()), Int).0, Int, offset)
    {
      if gpReg <= GP_REG_MAX {
        code := code + [LoadWord(gpReg, LocalOffset(offset))];
        gpReg := gpReg + 1;
      } else {
        PassOnStack(LocalOffset(offset), Int);
      }
    }

    method PassLong()
      modifies this`gpReg, this`fpReg, this`stArg, this`stArgs, this`code
      ensures Counted() == Pass(old(Counted()), Long).1
      ensures code == old(code) + RegisterCode(Pass(old(Counted()), Long).0, Long, offset)
      ensures stArgs == old(stArgs) + Stacked(Pass(old(Counted()), Long).0, Long, offset)
    {
      if gpReg < GP_REG_MAX {
        if gpReg % 2 == 0 {
          gpReg := gpReg + 1;
        }
        code := code + [LoadWord(gpReg, LocalOffset(offset + 1)), LoadWord(gpReg + 1, LocalOffset(offset))];
        gpReg := gpReg + 2;
      } else {
        PassOnStack(LocalOffset(offset + 1), Long);
      }
    }

    method PassFloat()
      modifies this`gpReg, this`fpReg, this`stArg, this`stArgs, this`code
      ensures Counted() == Pass(old(Counted()), Float).1
      ensures code == old(code) + RegisterCode(Pass(old(Counted()), Float).0, Float, offset)
      ensures stArgs == old(stArgs) + Stacked(Pass(old(Counted()), Float).0, Float, offset)
    {
      if fpReg <= FP_REG_MAX {
        code := code + [LoadSingle(fpReg, LocalOffset(offset))];
        fpReg := fpReg + 1;
      } else {
        PassOnStack(LocalOffset(offset), Float);
      }
    }

    method PassDouble()
      modifies this`gpReg, this`fpReg, this`stArg, this`stArgs, this`code
      ensures Counted() == Pass(old(Counted()), Double).1
      ensures code == old(code) + RegisterCode(Pass(old(Counted()), Double).0, Double, offset)
      ensures stArgs == old(stArgs) + Stacked(Pass(old(Counted()), Double).0, Double, offset)
    {
      if fpReg <= FP_REG_MAX {
        code := code + [LoadDouble(fpReg, LocalOffset(offset + 1))];
        fpReg := fpReg + 1;
      } else {
        PassOnStack(LocalOffset(offset + 1), Double);
      }
    }

    method PassObject()
      modifies this`gpReg, this`fpReg, this`stArg, this`stArgs, this`code
      ensures Counted() == Pass(old(Counted()), Object).1
      ensures code == old(code) + RegisterCode(Pass(old(Counted()), Object).0, Object, offset)
      ensures stArgs == old(stArgs) + Stacked(Pass(old(Counted()), Object).0, Object, offset)
    {
      if gpReg <= GP_REG_MAX {
        code := code + [LoadHandle(gpReg, LocalOffset(offset))];
        gpReg := gpReg + 1;
      } else {
        PassOnStack(LocalOffset(offset), Object);
      }
    }

    // do_int and the like: an argument is passed, and the offset moves on.
    method PassOne(ghost args: seq<Type>, t: Type)
      requires Passed(args)
      modifies this
      ensures Passed(args + [t])
    {
      hide Pass, RegisterCode, Stacked;
      ghost var all := args + [t];
      assert all[..|args|] == args;
      match t {
        case Int => PassInt();
        case Long => PassLong();
        case Float => PassFloat();
        case Double => PassDouble();
        case Object => PassObject();
      }
      offset := offset + Slots(t);
    }

    // The whole handler, up to its return; what its code does is HandlerPasses.
    method Generate(signature: seq<Type>)
      requires Passed([])
      modifies this
      ensures code == HandlerCode(Start(isStatic), if isStatic then signature else [Object] + signature)
    {
      hide StackArguments, RegistersCode, After, Slot, PassAll;
      ghost var args: seq<Type> := [];
      if !isStatic {
        PassOne(args, Object);
        args := args + [Object];
      }
      for i := 0 to |signature|
        invariant args == (if isStatic then [] else [Object]) + signature[..i]
        invariant Passed(args)
      {
        PassOne(args, signature[i]);
        args := args + [signature[i]];
      }
      assert signature[..|signature|] == signature;
      assert args == if isStatic then signature else [Object] + signature;
      ghost var loads := code;
      if stArg > MIN_PARAMS {
        code := code + [Reserve(stArg * WORD)];
        PassStackArguments();
        assert code == loads + ([Reserve(stArg * WORD)] + PassAll(stArgs));
      } else {
        assert loads + [] == loads;
      }
    }

    method PassStackArguments()
      modifies this`code
      ensures code == old(code) + PassAll(stArgs)
    {
      for i := 0 to |stArgs|
        invariant code == old(code) + PassAll(stArgs[..i])
      {
        assert stArgs[..i + 1][..i] == stArgs[..i];
        ghost var before := code;
        code := code + stArgs[i].Code();
        assert old(code) + (PassAll(stArgs[..i]) + stArgs[i].Code()) == before + stArgs[i].Code();
      }
      assert stArgs[..|stArgs|] == stArgs;
    }
  }
}
