// StackFrame: the generation of prologs and epilogs, and what running the
// generated code saves and restores.
module StackFrames {
  import opened StackLayout

  // ---- the machine ---------------------------------------------------

  // Registers by number; a double is a 64-bit number.
  type Registers = map<int, int>

  datatype Machine = Machine(gpr: Registers, fpr: Registers, lr: int, ctr: int, cr: int, mem: Memory) {
    function Gpr(r: int): int { Read(gpr, r) }
    function Fpr(f: int): int { Read(fpr, f) }
  }

  datatype Instr =
    | Mflr(r: nat) | Mtlr(r: nat) | Mfctr(r: nat) | Mtctr(r: nat) | Mfcr(r: nat) | Mtcr(r: nat)
    | Load(r: nat, disp: int) | Store(r: nat, disp: int)      // through r1
    | Lfd(f: nat, disp: int) | Stfd(f: nat, disp: int)        // through r1
    | StoreUpdate(r: nat, disp: int)                          // through r1
    | Addi(r: nat, a: nat, imm: int)

  // The int16_t an Address keeps of a displacement
  function Int16(d: int): int { (d + 0x8000) % 0x1_0000 - 0x8000 }

  function Bytes(wide: bool, words: int): int { if wide then 8 * words else 4 * words }

  // The words of k doubles
  function FprWords(w: bool, k: int): int { if w then k else 2 * k }

  // A double in memory: one word on PPC64, two on PPC32, the high one first.
  const TWO32 := 0x1_0000_0000

  function DoubleAt(w: bool, mem: Memory, a: int): int {
    if w then Read(mem, a) else Read(mem, a) * TWO32 + Read(mem, a + 4)
  }

  ghost predicate HoldsDouble(w: bool, mem: Memory, a: int, d: int) {
    if w then Read(mem, a) == d else Read(mem, a) == d / TWO32 && Read(mem, a + 4) == d % TWO32
  }

  function StoreDouble(w: bool, mem: Memory, a: int, d: int): Memory {
    if w then mem[a := d] else mem[a := d / TWO32][a + 4 := d % TWO32]
  }

  function Step(w: bool, i: Instr, m: Machine): Machine {
    match i
    case Mflr(r) => m.(gpr := m.gpr[r := m.lr])
    case Mtlr(r) => m.(lr := m.Gpr(r))
    case Mfctr(r) => m.(gpr := m.gpr[r := m.ctr])
    case Mtctr(r) => m.(ctr := m.Gpr(r))
    case Mfcr(r) => m.(gpr := m.gpr[r := m.cr])
    case Mtcr(r) => m.(cr := m.Gpr(r))
    case Load(r, d) => m.(gpr := m.gpr[r := Read(m.mem, m.Gpr(1) + d)])
    case Store(r, d) => m.(mem := m.mem[m.Gpr(1) + d := m.Gpr(r)])
    case Lfd(f, d) => m.(fpr := m.fpr[f := DoubleAt(w, m.mem, m.Gpr(1) + d)])
    case Stfd(f, d) => m.(mem := StoreDouble(w, m.mem, m.Gpr(1) + d, m.Fpr(f)))
    case StoreUpdate(r, d) => m.(mem := m.mem[m.Gpr(1) + d := m.Gpr(r)], gpr := m.gpr[1 := m.Gpr(1) + d])
    case Addi(r, a, imm) => m.(gpr := m.gpr[r := m.Gpr(a) + imm])
  }

  type Code = seq<Instr>

  function Exec(wide: bool, code: Code, m: Machine): Machine {
    if code == [] then m else Step(wide, code[|code| - 1], Exec(wide, code[..|code| - 1], m))
  }

  lemma {:induction false} ExecConcat(wide: bool, a: Code, b: Code, m: Machine)
    ensures Exec(wide, a + b, m) == Exec(wide, b, Exec(wide, a, m))
  {
    hide Step;
    if b == [] {
      assert a + b == a;
    } else {
      var n := |b| - 1;
      ExecConcat(wide, a, b[..n], m);
      assert (a + b)[..|a + b| - 1] == a + b[..n];
    }
  }

  // ---- the layout of a frame -----------------------------------------

  const MAX_GPRS := 18
  const MAX_FPRS := 18
  const MAX_CRFS := 3
  const NUM_VGPRS := 11
  const NUM_VSPRS := 1
  const NUM_VFPRS := 14

  datatype FrameLayout = FrameLayout(wide: bool, params: nat, locals: nat, crfs: nat, gprs: nat, fprs: nat, volatiles: bool) {

    function LinkAreaWords(): nat { if wide then 6 else 2 }
    function MinParams(): nat { if wide then 8 else 0 }
    function CrSave(): int { Bytes(wide, 1) }
    function LrSave(): int { Bytes(wide, if wide then 2 else 1) }

    function ParamWords(): nat { if params < MinParams() then MinParams() else params }

    // The words of the register save area but for r0's
    function VolatileWords(): nat {
      if volatiles then NUM_VGPRS - 1 + NUM_VSPRS + FprWords(wide, NUM_VFPRS) else 0
    }
    function CrWords(): nat { if crfs > 0 && !wide then 1 else 0 }
    function SavedWords(): nat { CrWords() + gprs + FprWords(wide, fprs) }

    function UnalignedWords(): nat {
      LinkAreaWords() + ParamWords() + locals + VolatileWords() + (if volatiles then 1 else 0) + SavedWords()
    }
    function UnalignedSize(): int { Bytes(wide, UnalignedWords()) }

    // The word of the frame where the register save area starts, and those
    // where its parts do
    function R0Slot(): nat { LinkAreaWords() + ParamWords() + locals }
    function CtrSlot(): nat { R0Slot() + 11 }
    function CrSlot(): nat { R0Slot() + 1 + VolatileWords() }
    function GprSlot(): nat { CrSlot() + CrWords() }
    function FprSlot(): nat { GprSlot() + gprs }
  }

  predicate ValidLayout(l: FrameLayout) {
    l.crfs <= MAX_CRFS && l.gprs <= MAX_GPRS && l.fprs <= MAX_FPRS
  }

  lemma OneMoreLocal(l: FrameLayout)
    ensures l.(locals := l.locals + 1).UnalignedSize() == Bytes(l.wide, l.UnalignedWords() + 1)
  {
    assert l.(locals := l.locals + 1).UnalignedWords() == l.UnalignedWords() + 1;
    hide FrameLayout.UnalignedWords;
  }

  lemma PaddingIs(x: int, q: int, r: int)
    requires x == STACK_ALIGNMENT * q + r && 0 <= r < STACK_ALIGNMENT
    ensures Padding(x) == if r == 0 then 0 else STACK_ALIGNMENT - r
  {
    assert x % STACK_ALIGNMENT == r;
  }

  lemma PaddingShrinks(wide: bool, words: nat)
    requires Bytes(wide, words) % STACK_ALIGNMENT != 0
    ensures Padding(Bytes(wide, words + 1)) == Padding(Bytes(wide, words)) - Bytes(wide, 1)
  {
    hide Padding;
    if wide {
      WideWordsPad(words);
    } else {
      NarrowWordsPad(words);
    }
  }

  lemma WideWordsPad(words: nat)
    requires 8 * words % STACK_ALIGNMENT != 0
    ensures Padding(8 * (words + 1)) == Padding(8 * words) - 8
  {
    hide Padding;
    var q := words / 2;
    assert words == 2 * q + 1;
    PaddingIs(8 * words, q, 8);
    PaddingIs(8 * (words + 1), q + 1, 0);
  }

  lemma NarrowWordsPad(words: nat)
    requires 4 * words % STACK_ALIGNMENT != 0
    ensures Padding(4 * (words + 1)) == Padding(4 * words) - 4
  {
    hide Padding;
    var q, r := words / 4, words % 4;
    assert words == 4 * q + r;
    assert r != 0;
    PaddingIs(4 * words, q, 4 * r);
    if r == 3 {
      PaddingIs(4 * (words + 1), q + 1, 0);
    } else {
      PaddingIs(4 * (words + 1), q, 4 * (r + 1));
    }
  }

  // The alignment loop
  function Padded(l: FrameLayout): (p: FrameLayout)
    ensures p == l.(locals := p.locals) && l.locals <= p.locals
    decreases Padding(l.UnalignedSize())
  {
    if l.UnalignedSize() % STACK_ALIGNMENT == 0 then l
    else
      OneMoreLocal(l);
      PaddingShrinks(l.wide, l.UnalignedWords());
      Padded(l.(locals := l.locals + 1))
  }

  // It adds padding to the locals and to nothing else, and no more of it than
  // the alignment needs.
  lemma {:induction false} PaddedPads(l: FrameLayout)
    ensures var l' := Padded(l);
      && l' == l.(locals := l'.locals) && l.locals <= l'.locals
      && l'.UnalignedSize() == l.UnalignedSize() + Padding(l.UnalignedSize())
    decreases Padding(l.UnalignedSize())
  {
    hide FrameLayout.UnalignedWords, Padding;
    if l.UnalignedSize() % STACK_ALIGNMENT != 0 {
      OneMoreLocal(l);
      PaddingShrinks(l.wide, l.UnalignedWords());
      PaddedPads(l.(locals := l.locals + 1));
    } else {
      assert Padding(l.UnalignedSize()) == 0 by { PaddingOfMultiple(l.UnalignedSize()); }
    }
  }

  lemma PaddingOfMultiple(size: int)
    requires size % STACK_ALIGNMENT == 0
    ensures Padding(size) == 0
  {
  }

  // ---- the code ------------------------------------------------------

  // Store or load registers lo..hi-1 in successive words from slot on
  function StoreGprs(w: bool, lo: nat, hi: nat, slot: nat): Code
    requires lo <= hi
    decreases hi
  {
    if lo == hi then [] else StoreGprs(w, lo, hi - 1, slot) + [Store(hi - 1, Int16(Bytes(w, slot + (hi - 1 - lo))))]
  }
  function LoadGprs(w: bool, lo: nat, hi: nat, slot: nat): Code
    requires lo <= hi
    decreases hi
  {
    if lo == hi then [] else LoadGprs(w, lo, hi - 1, slot) + [Load(hi - 1, Int16(Bytes(w, slot + (hi - 1 - lo))))]
  }
  function FprDisp(w: bool, slot: nat, k: nat): int { Int16(Bytes(w, slot + FprWords(w, k))) }
  function StoreFprs(w: bool, lo: nat, hi: nat, slot: nat): Code
    requires lo <= hi
    decreases hi
  {
    if lo == hi then [] else StoreFprs(w, lo, hi - 1, slot) + [Stfd(hi - 1, FprDisp(w, slot, hi - 1 - lo))]
  }
  function LoadFprs(w: bool, lo: nat, hi: nat, slot: nat): Code
    requires lo <= hi
    decreases hi
  {
    if lo == hi then [] else LoadFprs(w, lo, hi - 1, slot) + [Lfd(hi - 1, FprDisp(w, slot, hi - 1 - lo))]
  }

  function SlotDisp(l: FrameLayout, slot: nat): int { Int16(Bytes(l.wide, slot)) }

  function CrDisp(l: FrameLayout): int { if l.wide then Int16(l.CrSave()) else SlotDisp(l, l.CrSlot()) }

  function PrologFrame(l: FrameLayout): Code {
    var size := l.UnalignedSize();
    if l.volatiles then
      [StoreUpdate(1, Int16(-size)), Store(0, SlotDisp(l, l.R0Slot())), Mflr(0), Store(0, Int16(size + l.LrSave()))]
    else
      [Mflr(0), Store(0, Int16(l.LrSave())), StoreUpdate(1, Int16(-size))]
  }

  function PrologVolatiles(l: FrameLayout): Code {
    if l.volatiles then
      StoreGprs(l.wide, 3, 13, l.R0Slot() + 1)
      + [Mfctr(0), Store(0, SlotDisp(l, l.CtrSlot()))]
      + StoreFprs(l.wide, 0, NUM_VFPRS, l.CtrSlot() + 1)
    else []
  }

  function PrologSaved(l: FrameLayout): Code
    requires ValidLayout(l)
  {
    (if l.crfs > 0 then [Mfcr(0), Store(0, CrDisp(l))] else [])
    + StoreGprs(l.wide, 32 - l.gprs, 32, l.GprSlot())
    + StoreFprs(l.wide, 32 - l.fprs, 32, l.FprSlot())
  }

  function Prolog(l: FrameLayout): Code
    requires ValidLayout(l)
  {
    PrologFrame(l) + PrologVolatiles(l) + PrologSaved(l)
    + (if l.volatiles then [Load(0, SlotDisp(l, l.R0Slot()))] else [])
  }

  function EpilogVolatiles(l: FrameLayout): Code {
    if l.volatiles then
      LoadGprs(l.wide, 3, 13, l.R0Slot() + 1)
      + [Load(0, SlotDisp(l, l.CtrSlot())), Mtctr(0)]
      + LoadFprs(l.wide, 0, NUM_VFPRS, l.CtrSlot() + 1)
    else []
  }

  function EpilogSaved(l: FrameLayout): Code
    requires ValidLayout(l)
  {
    (if l.crfs > 0 then [Load(0, CrDisp(l)), Mtcr(0)] else [])
    + LoadGprs(l.wide, 32 - l.gprs, 32, l.GprSlot())
    + LoadFprs(l.wide, 32 - l.fprs, 32, l.FprSlot())
  }

  function EpilogFrame(l: FrameLayout): Code {
    var size := l.UnalignedSize();
    if l.volatiles then
      [Load(0, Int16(size + l.LrSave())), Mtlr(0), Load(0, SlotDisp(l, l.R0Slot())), Addi(1, 1, Int16(size))]
    else
      [Addi(1, 1, Int16(size)), Load(0, Int16(l.LrSave())), Mtlr(0)]
  }

  function Epilog(l: FrameLayout): Code
    requires ValidLayout(l)
  {
    EpilogVolatiles(l) + EpilogSaved(l) + EpilogFrame(l)
  }

  // ---- what the save and restore loops do ----------------------------

  const MAX_DISP := 0x7fff

  function SlotAddr(w: bool, sp: int, slot: int): int { sp + Bytes(w, slot) }

  // The k-th double of a group starting at slot
  function FprAddr(w: bool, sp: int, slot: int, k: int): int { SlotAddr(w, sp, slot + FprWords(w, k)) }

  lemma Disp(d: int)
    requires -0x8000 <= d <= MAX_DISP
    ensures Int16(d) == d
  {
  }

  lemma ExecSnoc(wide: bool, code: Code, i: Instr, m: Machine)
    ensures Exec(wide, code + [i], m) == Step(wide, i, Exec(wide, code, m))
  {
    assert (code + [i])[..|code + [i]| - 1] == code;
    hide Step;
  }

  // Memory changes only in the words from slot first up to slot end.
  ghost predicate OnlySlots(w: bool, sp: int, first: int, end: int, mem: Memory, mem': Memory) {
    forall a :: a < SlotAddr(w, sp, first) || a >= SlotAddr(w, sp, end) ==> Read(mem', a) == Read(mem, a)
  }

  ghost predicate GprsSaved(w: bool, mem: Memory, sp: int, slot: int, lo: nat, hi: nat, gpr: Registers) {
    forall i :: lo <= i < hi ==> Read(mem, SlotAddr(w, sp, slot + (i - lo))) == Read(gpr, i)
  }

  // What loading them gives
  ghost predicate FprsRead(w: bool, mem: Memory, sp: int, slot: int, lo: nat, hi: nat, fpr: Registers) {
    forall i :: lo <= i < hi ==> DoubleAt(w, mem, FprAddr(w, sp, slot, i - lo)) == Read(fpr, i)
  }

  ghost predicate FprsSaved(w: bool, mem: Memory, sp: int, slot: int, lo: nat, hi: nat, fpr: Registers) {
    forall i :: lo <= i < hi ==> HoldsDouble(w, mem, FprAddr(w, sp, slot, i - lo), Read(fpr, i))
  }

  // Words outside the changed slots keep what was saved in them.
  lemma GprsStay(w: bool, mem: Memory, mem': Memory, sp: int, first: int, end: int, slot: int, lo: nat, hi: nat, gpr: Registers)
    requires GprsSaved(w, mem, sp, slot, lo, hi, gpr) && OnlySlots(w, sp, first, end, mem, mem')
    requires slot + (hi - lo) <= first || slot >= end
    ensures GprsSaved(w, mem', sp, slot, lo, hi, gpr)
  {
    forall i | lo <= i < hi ensures Read(mem', SlotAddr(w, sp, slot + (i - lo))) == Read(gpr, i) {
    }
  }

  lemma FprsStay(w: bool, mem: Memory, mem': Memory, sp: int, first: int, end: int, slot: int, lo: nat, hi: nat, fpr: Registers)
    requires FprsSaved(w, mem, sp, slot, lo, hi, fpr) && OnlySlots(w, sp, first, end, mem, mem')
    requires slot + FprWords(w, hi - lo) <= first || slot >= end
    ensures FprsSaved(w, mem', sp, slot, lo, hi, fpr)
  {
    forall i | lo <= i < hi ensures HoldsDouble(w, mem', FprAddr(w, sp, slot, i - lo), Read(fpr, i)) {
      assert HoldsDouble(w, mem, FprAddr(w, sp, slot, i - lo), Read(fpr, i));
    }
  }

  lemma OneSlot(w: bool, mem: Memory, sp: int, slot: int, v: int)
    ensures OnlySlots(w, sp, slot, slot + 1, mem, mem[SlotAddr(w, sp, slot) := v])
  {
  }

  lemma OneDouble(w: bool, mem: Memory, sp: int, slot: int, d: int)
    ensures OnlySlots(w, sp, slot, slot + FprWords(w, 1), mem, StoreDouble(w, mem, SlotAddr(w, sp, slot), d))
    ensures HoldsDouble(w, StoreDouble(w, mem, SlotAddr(w, sp, slot), d), SlotAddr(w, sp, slot), d)
  {
  }

  lemma OnlySlotsTrans(w: bool, sp: int, a: int, b: int, c: int, d: int, m0: Memory, m1: Memory, m2: Memory, first: int, end: int)
    requires OnlySlots(w, sp, a, b, m0, m1) && OnlySlots(w, sp, c, d, m1, m2)
    requires first <= a && first <= c && b <= end && d <= end
    ensures OnlySlots(w, sp, first, end, m0, m2)
  {
  }

  ghost predicate GprsStored(w: bool, lo: nat, hi: nat, slot: nat, m: Machine, m': Machine) {
    && m' == m.(mem := m'.mem)
    && OnlySlots(w, m.Gpr(1), slot, slot + (hi - lo), m.mem, m'.mem)
    && GprsSaved(w, m'.mem, m.Gpr(1), slot, lo, hi, m.gpr)
  }

  lemma {:induction false} StoreGprsEffect(w: bool, lo: nat, hi: nat, slot: nat, m: Machine)
    requires lo <= hi && Bytes(w, slot + (hi - lo)) <= MAX_DISP
    ensures GprsStored(w, lo, hi, slot, m, Exec(w, StoreGprs(w, lo, hi, slot), m))
    decreases hi
  {
    if lo == hi {
      assert GprsStored(w, lo, hi, slot, m, m);
    }
    hide GprsStored, Step, OnlySlots;
    if lo < hi {
      StoreGprsEffect(w, lo, hi - 1, slot, m);
      OneGprStored(w, lo, hi, slot, m, Exec(w, StoreGprs(w, lo, hi - 1, slot), m));
      ExecSnoc(w, StoreGprs(w, lo, hi - 1, slot), Store(hi - 1, Int16(Bytes(w, slot + (hi - 1 - lo)))), m);
    }
  }

  lemma StoreStep(w: bool, k: nat, r: nat, m: Machine)
    requires Bytes(w, k + 1) <= MAX_DISP
    ensures Step(w, Store(r, Int16(Bytes(w, k))), m) == m.(mem := m.mem[SlotAddr(w, m.Gpr(1), k) := m.Gpr(r)])
  {
    Disp(Bytes(w, k));
  }

  lemma OneGprStored(w: bool, lo: nat, hi: nat, slot: nat, m: Machine, m1: Machine)
    requires lo < hi && Bytes(w, slot + (hi - lo)) <= MAX_DISP && GprsStored(w, lo, hi - 1, slot, m, m1)
    ensures GprsStored(w, lo, hi, slot, m, Step(w, Store(hi - 1, Int16(Bytes(w, slot + (hi - 1 - lo)))), m1))
  {
    hide OnlySlots, GprsSaved, SlotAddr, Step, Int16, Bytes;
    var sp, k := m.Gpr(1), slot + (hi - 1 - lo);
    var mem2 := m1.mem[SlotAddr(w, sp, k) := m.Gpr(hi - 1)];
    assert k + 1 == slot + (hi - lo);
    StoreStep(w, k, hi - 1, m1);
    OneSlot(w, m1.mem, sp, k, m.Gpr(hi - 1));
    OnlySlotsTrans(w, sp, slot, k, k, k + 1, m.mem, m1.mem, mem2, slot, k + 1);
    GprsStay(w, m1.mem, mem2, sp, k, k + 1, slot, lo, hi - 1, m.gpr);
    GprsSavedMore(w, mem2, sp, slot, lo, hi, m.gpr);
  }

  lemma GprsSavedMore(w: bool, mem: Memory, sp: int, slot: int, lo: nat, hi: nat, gpr: Registers)
    requires lo < hi && GprsSaved(w, mem, sp, slot, lo, hi - 1, gpr)
    requires Read(mem, SlotAddr(w, sp, slot + (hi - 1 - lo))) == Read(gpr, hi - 1)
    ensures GprsSaved(w, mem, sp, slot, lo, hi, gpr)
  {
    hide SlotAddr;
  }

  ghost predicate GprsLoaded(w: bool, lo: nat, hi: nat, slot: nat, m: Machine, m': Machine) {
    && m' == m.(gpr := m'.gpr)
    && GprsSaved(w, m.mem, m.Gpr(1), slot, lo, hi, m'.gpr)
    && (forall i :: i < lo || hi <= i ==> m'.Gpr(i) == m.Gpr(i))
  }

  lemma {:induction false} LoadGprsEffect(w: bool, lo: nat, hi: nat, slot: nat, m: Machine)
    requires 2 <= lo <= hi && Bytes(w, slot + (hi - lo)) <= MAX_DISP
    ensures GprsLoaded(w, lo, hi, slot, m, Exec(w, LoadGprs(w, lo, hi, slot), m))
    decreases hi
  {
    if lo == hi {
      assert GprsLoaded(w, lo, hi, slot, m, m);
    }
    hide GprsLoaded, Step;
    if lo < hi {
      LoadGprsEffect(w, lo, hi - 1, slot, m);
      OneGprLoaded(w, lo, hi, slot, m, Exec(w, LoadGprs(w, lo, hi - 1, slot), m));
      ExecSnoc(w, LoadGprs(w, lo, hi - 1, slot), Load(hi - 1, Int16(Bytes(w, slot + (hi - 1 - lo)))), m);
    }
  }

  lemma OneGprLoaded(w: bool, lo: nat, hi: nat, slot: nat, m: Machine, m1: Machine)
    requires 2 <= lo < hi && Bytes(w, slot + (hi - lo)) <= MAX_DISP && GprsLoaded(w, lo, hi - 1, slot, m, m1)
    ensures GprsLoaded(w, lo, hi, slot, m, Step(w, Load(hi - 1, Int16(Bytes(w, slot + (hi - 1 - lo)))), m1))
  {
    Disp(Bytes(w, slot + (hi - 1 - lo)));
    var m2 := Step(w, Load(hi - 1, Int16(Bytes(w, slot + (hi - 1 - lo)))), m1);
    assert m1.Gpr(1) == m.Gpr(1);
    assert m2 == m1.(gpr := m1.gpr[hi - 1 := Read(m.mem, SlotAddr(w, m.Gpr(1), slot + (hi - 1 - lo)))]);
    assert forall i :: i != hi - 1 ==> Read(m2.gpr, i) == Read(m1.gpr, i);
    hide Bytes;
  }

  ghost predicate FprsStored(w: bool, lo: nat, hi: nat, slot: nat, m: Machine, m': Machine) {
    && m' == m.(mem := m'.mem)
    && OnlySlots(w, m.Gpr(1), slot, slot + FprWords(w, hi - lo), m.mem, m'.mem)
    && FprsSaved(w, m'.mem, m.Gpr(1), slot, lo, hi, m.fpr)
  }

  lemma {:induction false} StoreFprsEffect(w: bool, lo: nat, hi: nat, slot: nat, m: Machine)
    requires lo <= hi && Bytes(w, slot + FprWords(w, hi - lo)) <= MAX_DISP
    ensures FprsStored(w, lo, hi, slot, m, Exec(w, StoreFprs(w, lo, hi, slot), m))
    decreases hi
  {
    if lo == hi {
      assert FprsStored(w, lo, hi, slot, m, m);
    }
    hide FprsStored, Step, OnlySlots;
    if lo < hi {
      StoreFprsEffect(w, lo, hi - 1, slot, m);
      OneFprStored(w, lo, hi, slot, m, Exec(w, StoreFprs(w, lo, hi - 1, slot), m));
      ExecSnoc(w, StoreFprs(w, lo, hi - 1, slot), Stfd(hi - 1, FprDisp(w, slot, hi - 1 - lo)), m);
    }
  }

  lemma FprsSavedMore(w: bool, mem: Memory, sp: int, slot: int, lo: nat, hi: nat, fpr: Registers)
    requires lo < hi && FprsSaved(w, mem, sp, slot, lo, hi - 1, fpr)
    requires HoldsDouble(w, mem, FprAddr(w, sp, slot, hi - 1 - lo), Read(fpr, hi - 1))
    ensures FprsSaved(w, mem, sp, slot, lo, hi, fpr)
  {
    hide HoldsDouble, FprAddr;
  }

  lemma StfdStep(w: bool, slot: nat, i: nat, f: nat, m: Machine)
    requires Bytes(w, slot + FprWords(w, i + 1)) <= MAX_DISP
    ensures Step(w, Stfd(f, FprDisp(w, slot, i)), m) == m.(mem := StoreDouble(w, m.mem, SlotAddr(w, m.Gpr(1), slot + FprWords(w, i)), m.Fpr(f)))
  {
    hide StoreDouble;
    Disp(Bytes(w, slot + FprWords(w, i)));
  }

  lemma OneFprStored(w: bool, lo: nat, hi: nat, slot: nat, m: Machine, m1: Machine)
    requires lo < hi && Bytes(w, slot + FprWords(w, hi - lo)) <= MAX_DISP && FprsStored(w, lo, hi - 1, slot, m, m1)
    ensures FprsStored(w, lo, hi, slot, m, Step(w, Stfd(hi - 1, FprDisp(w, slot, hi - 1 - lo)), m1))
  {
    hide OnlySlots, FprsSaved, StoreDouble, HoldsDouble, Step, Int16, Bytes, SlotAddr, FprDisp;
    var sp, k := m.Gpr(1), slot + FprWords(w, hi - 1 - lo);
    var mem2 := StoreDouble(w, m1.mem, SlotAddr(w, sp, k), m.Fpr(hi - 1));
    StfdStep(w, slot, hi - 1 - lo, hi - 1, m1);
    OneDouble(w, m1.mem, sp, k, m.Fpr(hi - 1));
    assert k + FprWords(w, 1) == slot + FprWords(w, hi - lo);
    OnlySlotsTrans(w, sp, slot, k, k, k + FprWords(w, 1), m.mem, m1.mem, mem2, slot, k + FprWords(w, 1));
    FprsStay(w, m1.mem, mem2, sp, k, k + FprWords(w, 1), slot, lo, hi - 1, m.fpr);
    FprsSavedMore(w, mem2, sp, slot, lo, hi, m.fpr);
  }

  ghost predicate FprsLoaded(w: bool, lo: nat, hi: nat, slot: nat, m: Machine, m': Machine) {
    && m' == m.(fpr := m'.fpr)
    && FprsRead(w, m.mem, m.Gpr(1), slot, lo, hi, m'.fpr)
    && (forall i :: i < lo || hi <= i ==> m'.Fpr(i) == m.Fpr(i))
  }

  lemma {:induction false} LoadFprsEffect(w: bool, lo: nat, hi: nat, slot: nat, m: Machine)
    requires lo <= hi && Bytes(w, slot + FprWords(w, hi - lo)) <= MAX_DISP
    ensures FprsLoaded(w, lo, hi, slot, m, Exec(w, LoadFprs(w, lo, hi, slot), m))
    decreases hi
  {
    if lo == hi {
      assert FprsLoaded(w, lo, hi, slot, m, m);
    }
    hide FprsLoaded, Step;
    if lo < hi {
      LoadFprsEffect(w, lo, hi - 1, slot, m);
      OneFprLoaded(w, lo, hi, slot, m, Exec(w, LoadFprs(w, lo, hi - 1, slot), m));
      ExecSnoc(w, LoadFprs(w, lo, hi - 1, slot), Lfd(hi - 1, FprDisp(w, slot, hi - 1 - lo)), m);
    }
  }

  lemma OneFprLoaded(w: bool, lo: nat, hi: nat, slot: nat, m: Machine, m1: Machine)
    requires lo < hi && Bytes(w, slot + FprWords(w, hi - lo)) <= MAX_DISP && FprsLoaded(w, lo, hi - 1, slot, m, m1)
    ensures FprsLoaded(w, lo, hi, slot, m, Step(w, Lfd(hi - 1, FprDisp(w, slot, hi - 1 - lo)), m1))
  {
    Disp(Bytes(w, slot + FprWords(w, hi - 1 - lo)));
    var m2 := Step(w, Lfd(hi - 1, FprDisp(w, slot, hi - 1 - lo)), m1);
    assert m2 == m1.(fpr := m1.fpr[hi - 1 := DoubleAt(w, m.mem, FprAddr(w, m.Gpr(1), slot, hi - 1 - lo))]);
    assert forall i :: i != hi - 1 ==> Read(m2.fpr, i) == Read(m1.fpr, i);
    hide Bytes, DoubleAt, FprWords;
  }

  // ---- where everything is -------------------------------------------

  // The words of the register save area end here.
  function EndSlot(l: FrameLayout): nat { l.FprSlot() + FprWords(l.wide, l.fprs) }
  function CrWord(l: FrameLayout): nat { if l.wide then 1 else l.CrSlot() }
  function LrWord(l: FrameLayout): nat { if l.wide then 2 else 1 }

  // Every displacement used fits in sixteen bits.
  predicate Fits(l: FrameLayout) { l.UnalignedSize() + l.LrSave() <= MAX_DISP }

  // Everything is saved inside the frame.
  predicate Contained(l: FrameLayout) { l.volatiles || l.SavedWords() == 0 }

  lemma SlotOrder(l: FrameLayout)
    requires ValidLayout(l)
    ensures LrWord(l) < l.LinkAreaWords() <= l.R0Slot() && CrWord(l) != LrWord(l)
    ensures l.CtrSlot() == l.R0Slot() + 11
    ensures l.CrSlot() == if l.volatiles then l.CtrSlot() + 1 + FprWords(l.wide, NUM_VFPRS) else l.R0Slot() + 1
    ensures l.CrSlot() <= l.GprSlot() && (l.crfs > 0 && !l.wide ==> l.CrSlot() + 1 == l.GprSlot())
    ensures l.GprSlot() + l.gprs == l.FprSlot() && l.FprSlot() + FprWords(l.wide, l.fprs) == EndSlot(l)
    ensures EndSlot(l) == l.UnalignedWords() + (if l.volatiles then 0 else 1)
    ensures l.SavedWords() == 0 ==> l.CrSlot() == EndSlot(l)
    ensures l.UnalignedSize() == Bytes(l.wide, l.UnalignedWords()) && l.LrSave() == Bytes(l.wide, LrWord(l))
    ensures Fits(l) ==> forall slot {:trigger Bytes(l.wide, slot)} :: 0 <= slot <= l.UnalignedWords() + LrWord(l) ==> Bytes(l.wide, slot) <= MAX_DISP
  {
  }

  // What the frame at sp keeps of machine m: LR,
  ghost predicate LrHeld(l: FrameLayout, m: Machine, sp: int, mem: Memory) {
    Read(mem, SlotAddr(l.wide, sp, l.UnalignedWords() + LrWord(l))) == m.lr
  }

  // the volatile registers,
  ghost predicate VolatilesHeld(l: FrameLayout, m: Machine, sp: int, mem: Memory)
  {
    l.volatiles ==>
      && Read(mem, SlotAddr(l.wide, sp, l.R0Slot())) == m.Gpr(0)
      && GprsSaved(l.wide, mem, sp, l.R0Slot() + 1, 3, 13, m.gpr)
      && Read(mem, SlotAddr(l.wide, sp, l.CtrSlot())) == m.ctr
      && FprsSaved(l.wide, mem, sp, l.CtrSlot() + 1, 0, NUM_VFPRS, m.fpr)
  }

  // and the non-volatile registers that were allocated.
  ghost predicate SavedHeld(l: FrameLayout, m: Machine, sp: int, mem: Memory)
    requires ValidLayout(l)
  {
    && (l.crfs > 0 ==> Read(mem, SlotAddr(l.wide, sp, CrWord(l))) == m.cr)
    && GprsSaved(l.wide, mem, sp, l.GprSlot(), 32 - l.gprs, 32, m.gpr)
    && FprsSaved(l.wide, mem, sp, l.FprSlot(), 32 - l.fprs, 32, m.fpr)
  }

  ghost predicate Held(l: FrameLayout, m: Machine, sp: int, mem: Memory)
    requires ValidLayout(l)
  {
    LrHeld(l, m, sp, mem) && VolatilesHeld(l, m, sp, mem) && SavedHeld(l, m, sp, mem)
  }

  // A change of memory that spares the save slots, the caller's link area up
  // to its LR word and, where it holds CR, the CR word.
  ghost predicate SparesSlots(l: FrameLayout, sp: int, mem: Memory, mem': Memory) {
    && SlotsKept(l.wide, sp, l.R0Slot(), l.UnalignedWords() + LrWord(l) + 1, mem, mem')
    && (l.crfs > 0 ==> Read(mem', SlotAddr(l.wide, sp, CrWord(l))) == Read(mem, SlotAddr(l.wide, sp, CrWord(l))))
  }

  ghost predicate SlotsKept(w: bool, sp: int, first: int, last: int, mem: Memory, mem': Memory) {
    forall a :: SlotAddr(w, sp, first) <= a < SlotAddr(w, sp, last) ==> Read(mem', a) == Read(mem, a)
  }

  lemma WordKept(w: bool, mem: Memory, mem': Memory, sp: int, first: int, last: int, slot: int)
    requires SlotsKept(w, sp, first, last, mem, mem') && first <= slot < last
    ensures Read(mem', SlotAddr(w, sp, slot)) == Read(mem, SlotAddr(w, sp, slot))
  {
    assert SlotAddr(w, sp, first) <= SlotAddr(w, sp, slot) < SlotAddr(w, sp, last);
  }

  lemma GprsKept(w: bool, mem: Memory, mem': Memory, sp: int, first: int, last: int, slot: int, lo: nat, hi: nat, gpr: Registers)
    requires SlotsKept(w, sp, first, last, mem, mem') && first <= slot && slot + (hi - lo) <= last
    requires GprsSaved(w, mem, sp, slot, lo, hi, gpr)
    ensures GprsSaved(w, mem', sp, slot, lo, hi, gpr)
  {
    forall i | lo <= i < hi ensures Read(mem', SlotAddr(w, sp, slot + (i - lo))) == Read(gpr, i) {
      WordKept(w, mem, mem', sp, first, last, slot + (i - lo));
    }
  }

  lemma DoubleKept(w: bool, mem: Memory, mem': Memory, sp: int, first: int, last: int, slot: int, d: int)
    requires SlotsKept(w, sp, first, last, mem, mem') && first <= slot && slot + FprWords(w, 1) <= last
    ensures HoldsDouble(w, mem, SlotAddr(w, sp, slot), d) ==> HoldsDouble(w, mem', SlotAddr(w, sp, slot), d)
  {
    WordKept(w, mem, mem', sp, first, last, slot);
    if !w {
      WordKept(w, mem, mem', sp, first, last, slot + 1);
      assert SlotAddr(w, sp, slot + 1) == SlotAddr(w, sp, slot) + 4;
    }
  }

  lemma FprsKept(w: bool, mem: Memory, mem': Memory, sp: int, first: int, last: int, slot: int, lo: nat, hi: nat, fpr: Registers)
    requires SlotsKept(w, sp, first, last, mem, mem') && first <= slot && slot + FprWords(w, hi - lo) <= last
    requires FprsSaved(w, mem, sp, slot, lo, hi, fpr)
    ensures FprsSaved(w, mem', sp, slot, lo, hi, fpr)
  {
    hide SlotsKept, HoldsDouble, SlotAddr;
    forall i | lo <= i < hi ensures HoldsDouble(w, mem', FprAddr(w, sp, slot, i - lo), Read(fpr, i)) {
      assert HoldsDouble(w, mem, FprAddr(w, sp, slot, i - lo), Read(fpr, i));
      DoubleKept(w, mem, mem', sp, first, last, slot + FprWords(w, i - lo), Read(fpr, i));
    }
  }

  lemma VolatilesKept(l: FrameLayout, m: Machine, sp: int, last: int, mem: Memory, mem': Memory)
    requires VolatilesHeld(l, m, sp, mem) && SlotsKept(l.wide, sp, l.R0Slot(), last, mem, mem')
    requires l.volatiles ==> l.CtrSlot() + 1 + FprWords(l.wide, NUM_VFPRS) <= last
    ensures VolatilesHeld(l, m, sp, mem')
  {
    var w, r0 := l.wide, l.R0Slot();
    assert l.CtrSlot() == r0 + 11;
    hide SlotsKept, GprsSaved, FprsSaved, SlotAddr, FrameLayout.R0Slot;
    if l.volatiles {
      WordKept(w, mem, mem', sp, r0, last, r0);
      WordKept(w, mem, mem', sp, r0, last, l.CtrSlot());
      GprsKept(w, mem, mem', sp, r0, last, r0 + 1, 3, 13, m.gpr);
      FprsKept(w, mem, mem', sp, r0, last, l.CtrSlot() + 1, 0, NUM_VFPRS, m.fpr);
    }
  }

  lemma SavedKept(l: FrameLayout, m: Machine, sp: int, last: int, mem: Memory, mem': Memory)
    requires ValidLayout(l) && SavedHeld(l, m, sp, mem) && SlotsKept(l.wide, sp, l.R0Slot(), last, mem, mem')
    requires EndSlot(l) <= last
    requires l.crfs > 0 ==> Read(mem', SlotAddr(l.wide, sp, CrWord(l))) == Read(mem, SlotAddr(l.wide, sp, CrWord(l)))
    ensures SavedHeld(l, m, sp, mem')
  {
    var w, r0 := l.wide, l.R0Slot();
    SlotOrder(l);
    hide SlotsKept, GprsSaved, FprsSaved, SlotAddr, FrameLayout.R0Slot, FrameLayout.GprSlot, FrameLayout.FprSlot, CrWord;
    GprsKept(w, mem, mem', sp, r0, last, l.GprSlot(), 32 - l.gprs, 32, m.gpr);
    FprsKept(w, mem, mem', sp, r0, last, l.FprSlot(), 32 - l.fprs, 32, m.fpr);
  }

  lemma SparedStayHeld(l: FrameLayout, m: Machine, sp: int, mem: Memory, mem': Memory)
    requires ValidLayout(l) && Held(l, m, sp, mem) && SparesSlots(l, sp, mem, mem')
    ensures Held(l, m, sp, mem')
  {
    hide VolatilesHeld, SavedHeld, SlotsKept, SlotAddr;
    var w, r0, last := l.wide, l.R0Slot(), l.UnalignedWords() + LrWord(l) + 1;
    SlotOrder(l);
    assert r0 <= last && EndSlot(l) <= last && (l.volatiles ==> l.CrSlot() <= last);
    hide FrameLayout.R0Slot, FrameLayout.UnalignedWords, CrWord;
    WordKept(w, mem, mem', sp, r0, last, last - 1);
    VolatilesKept(l, m, sp, last, mem, mem');
    SavedKept(l, m, sp, last, mem, mem');
  }

  // ---- the prolog ----------------------------------------------------

  // The code of one or more single instructions
  lemma Exec1(w: bool, a: Instr, m: Machine)
    ensures Exec(w, [a], m) == Step(w, a, m)
  {
    assert [a][..0] == [];
  }

  lemma Exec2(w: bool, a: Instr, b: Instr, m: Machine)
    ensures Exec(w, [a, b], m) == Step(w, b, Step(w, a, m))
  {
    Exec1(w, a, m);
    ExecSnoc(w, [a], b, m);
    assert [a] + [b] == [a, b];
  }

  lemma Exec3(w: bool, a: Instr, b: Instr, c: Instr, m: Machine)
    ensures Exec(w, [a, b, c], m) == Step(w, c, Step(w, b, Step(w, a, m)))
  {
    Exec2(w, a, b, m);
    ExecSnoc(w, [a, b], c, m);
    assert [a, b] + [c] == [a, b, c];
  }

  lemma Exec4(w: bool, a: Instr, b: Instr, c: Instr, d: Instr, m: Machine)
    ensures Exec(w, [a, b, c, d], m) == Step(w, d, Step(w, c, Step(w, b, Step(w, a, m))))
  {
    Exec3(w, a, b, c, m);
    ExecSnoc(w, [a, b, c], d, m);
    assert [a, b, c] + [d] == [a, b, c, d];
  }

  // After the first part: the new frame with its back chain, LR in the
  // caller's link area and, for volatiles, r0 in its slot.
  ghost predicate Framed(l: FrameLayout, m: Machine, m1: Machine) {
    var sp := m.Gpr(1) - l.UnalignedSize();
    && m1 == m.(gpr := m.gpr[0 := m.lr][1 := sp], mem := m1.mem)
    && LrHeld(l, m, sp, m1.mem)
    && (l.volatiles ==> Read(m1.mem, SlotAddr(l.wide, sp, l.R0Slot())) == m.Gpr(0))
    && Read(m1.mem, sp) == m.Gpr(1)
    && forall a :: (a < sp || a >= m.Gpr(1)) && a != m.Gpr(1) + l.LrSave() ==> Read(m1.mem, a) == Read(m.mem, a)
  }

  lemma FrameSteps(w: bool, m: Machine, size: int, r0: int, lr: int)
    ensures var sp := m.Gpr(1) - size;
      var gpr := m.gpr[0 := m.lr][1 := sp];
      && Step(w, Store(0, size + lr), Step(w, Mflr(0), Step(w, Store(0, r0), Step(w, StoreUpdate(1, -size), m))))
          == m.(gpr := gpr, mem := m.mem[sp := m.Gpr(1)][sp + r0 := m.Gpr(0)][m.Gpr(1) + lr := m.lr])
      && Step(w, StoreUpdate(1, -size), Step(w, Store(0, lr), Step(w, Mflr(0), m)))
          == m.(gpr := gpr, mem := m.mem[m.Gpr(1) + lr := m.lr][sp := m.Gpr(1)])
  {
    assert m.gpr[1 := m.Gpr(1) - size][0 := m.lr] == m.gpr[0 := m.lr][1 := m.Gpr(1) - size];
  }

  // The three or two stores do not overlap.
  lemma FrameStores(mem: Memory, sp: int, r1: int, r0Slot: int, lrSlot: int, r0: int, lr: int)
    requires sp < r1 < lrSlot
    ensures var mem' := mem[lrSlot := lr][sp := r1];
      && Read(mem', lrSlot) == lr && Read(mem', sp) == r1
      && forall a :: (a < sp || a >= r1) && a != lrSlot ==> Read(mem', a) == Read(mem, a)
    ensures var mem' := mem[sp := r1][r0Slot := r0][lrSlot := lr];
      sp < r0Slot < r1 ==>
        && Read(mem', lrSlot) == lr && Read(mem', sp) == r1 && Read(mem', r0Slot) == r0
        && forall a :: (a < sp || a >= r1) && a != lrSlot ==> Read(mem', a) == Read(mem, a)
  {
  }

  function FramedMachine(l: FrameLayout, m: Machine): Machine {
    var size, lr, r0 := l.UnalignedSize(), l.LrSave(), Bytes(l.wide, l.R0Slot());
    var sp, r1 := m.Gpr(1) - size, m.Gpr(1);
    m.(gpr := m.gpr[0 := m.lr][1 := sp],
       mem := if l.volatiles then m.mem[sp := r1][sp + r0 := m.Gpr(0)][r1 + lr := m.lr] else m.mem[r1 + lr := m.lr][sp := r1])
  }

  lemma PrologFrameCode(l: FrameLayout)
    requires ValidLayout(l) && Fits(l)
    ensures PrologFrame(l) == var size, lr := l.UnalignedSize(), l.LrSave();
      if l.volatiles then [StoreUpdate(1, -size), Store(0, Bytes(l.wide, l.R0Slot())), Mflr(0), Store(0, size + lr)]
      else [Mflr(0), Store(0, lr), StoreUpdate(1, -size)]
  {
    SlotOrder(l);
    Disp(-l.UnalignedSize());
    Disp(l.LrSave());
    Disp(l.UnalignedSize() + l.LrSave());
    R0Disp(l);
    hide FrameLayout.UnalignedSize, FrameLayout.LrSave, FrameLayout.R0Slot, Int16, Fits, Bytes, SlotDisp;
  }

  lemma FrameRuns(l: FrameLayout, m: Machine)
    requires ValidLayout(l) && Fits(l)
    ensures Exec(l.wide, PrologFrame(l), m) == FramedMachine(l, m)
  {
    hide Step, Exec, FrameLayout.UnalignedSize, FrameLayout.LrSave, FrameLayout.R0Slot, Bytes, PrologFrame, ValidLayout, Fits;
    var size, w, lr, r0 := l.UnalignedSize(), l.wide, l.LrSave(), Bytes(l.wide, l.R0Slot());
    PrologFrameCode(l);
    FrameSteps(w, m, size, r0, lr);
    if l.volatiles {
      Exec4(w, StoreUpdate(1, -size), Store(0, r0), Mflr(0), Store(0, size + lr), m);
    } else {
      Exec3(w, Mflr(0), Store(0, lr), StoreUpdate(1, -size), m);
    }
  }

  lemma FrameEffect(l: FrameLayout, m: Machine)
    requires ValidLayout(l) && Fits(l)
    ensures Framed(l, m, Exec(l.wide, PrologFrame(l), m))
  {
    hide Exec, PrologFrame, Framed;
    FrameRuns(l, m);
    FramedIsFramed(l, m);
  }

  lemma FramedIsFramed(l: FrameLayout, m: Machine)
    requires ValidLayout(l)
    ensures Framed(l, m, FramedMachine(l, m))
  {
    var size, w, lr, r0 := l.UnalignedSize(), l.wide, l.LrSave(), Bytes(l.wide, l.R0Slot());
    var sp, r1 := m.Gpr(1) - size, m.Gpr(1);
    SlotOrder(l);
    FrameGeometry(l, sp);
    assert 0 < size && 0 < lr && 0 < r0 && (l.volatiles ==> r0 < size);
    hide FrameLayout.UnalignedSize, FrameLayout.UnalignedWords, FrameLayout.R0Slot, FrameLayout.LrSave, Bytes, Read, EndSlot, FrameEnd;
    FrameStores(m.mem, sp, r1, sp + r0, r1 + lr, m.Gpr(0), m.lr);
  }

  // No general register but r0 changes.
  ghost predicate OnlyR0(m: Machine, m1: Machine) {
    forall i :: i != 0 ==> m1.Gpr(i) == m.Gpr(i)
  }

  // After the second part, and the third: what they save, and where they write.
  ghost predicate VolatilesSaved(l: FrameLayout, m: Machine, m1: Machine)
  {
    var sp := m.Gpr(1);
    && OnlyR0(m, m1) && m1 == m.(gpr := m1.gpr, mem := m1.mem)
    && (l.volatiles ==>
          && GprsSaved(l.wide, m1.mem, sp, l.R0Slot() + 1, 3, 13, m.gpr)
          && Read(m1.mem, SlotAddr(l.wide, sp, l.CtrSlot())) == m.ctr
          && FprsSaved(l.wide, m1.mem, sp, l.CtrSlot() + 1, 0, NUM_VFPRS, m.fpr))
    && OnlySlots(l.wide, sp, l.R0Slot() + 1, l.CrSlot(), m.mem, m1.mem)
  }

  lemma VolatilesEffect(l: FrameLayout, m: Machine)
    requires ValidLayout(l) && Fits(l)
    ensures VolatilesSaved(l, m, Exec(l.wide, PrologVolatiles(l), m))
  {
    hide StoreGprs, StoreFprs;
    if l.volatiles {
      VolatilesRun(l, m);
    } else {
      SlotOrder(l);
    }
  }

  lemma VolatilesRun(l: FrameLayout, m: Machine)
    requires ValidLayout(l) && Fits(l) && l.volatiles
    ensures VolatilesSaved(l, m, Exec(l.wide, PrologVolatiles(l), m))
  {
    hide StoreGprs, StoreFprs;
    var w := l.wide;
    var a := StoreGprs(w, 3, 13, l.R0Slot() + 1);
    var b := [Mfctr(0), Store(0, SlotDisp(l, l.CtrSlot()))];
    var c := StoreFprs(w, 0, NUM_VFPRS, l.CtrSlot() + 1);
    assert PrologVolatiles(l) == a + b + c;
    VolatileDisps(l);
    hide *;
    var m1 := Exec(w, a, m);
    var m2 := Exec(w, b, m1);
    StoreGprsEffect(w, 3, 13, l.R0Slot() + 1, m);
    Exec2(w, b[0], b[1], m1);
    CtrStored(l, m1, m2);
    StoreFprsEffect(w, 0, NUM_VFPRS, l.CtrSlot() + 1, m2);
    Exec3Parts(w, a, b, c, m);
    VolatilesStored(l, m, m1, m2, Exec(w, c, m2));
  }

  lemma VolatileDisps(l: FrameLayout)
    requires ValidLayout(l) && Fits(l) && l.volatiles
    ensures Bytes(l.wide, l.R0Slot() + 1 + (13 - 3)) <= MAX_DISP
    ensures Int16(Bytes(l.wide, l.CtrSlot())) == Bytes(l.wide, l.CtrSlot())
    ensures Bytes(l.wide, l.CtrSlot() + 1 + FprWords(l.wide, NUM_VFPRS - 0)) <= MAX_DISP
  {
    SlotOrder(l);
    Disp(Bytes(l.wide, l.CtrSlot()));
  }

  lemma Exec3Parts(w: bool, a: Code, b: Code, c: Code, m: Machine)
    ensures Exec(w, a + b + c, m) == Exec(w, c, Exec(w, b, Exec(w, a, m)))
  {
    hide *;
    ExecConcat(w, a, b, m);
    ExecConcat(w, a + b, c, m);
  }

  ghost predicate CtrIsStored(l: FrameLayout, m1: Machine, m2: Machine) {
    m2 == m1.(gpr := m1.gpr[0 := m1.ctr], mem := m1.mem[SlotAddr(l.wide, m1.Gpr(1), l.CtrSlot()) := m1.ctr])
  }

  lemma CtrStored(l: FrameLayout, m1: Machine, m2: Machine)
    requires Int16(Bytes(l.wide, l.CtrSlot())) == Bytes(l.wide, l.CtrSlot())
    requires m2 == Step(l.wide, Store(0, SlotDisp(l, l.CtrSlot())), Step(l.wide, Mfctr(0), m1))
    ensures CtrIsStored(l, m1, m2)
  {
    hide Bytes, FrameLayout.CtrSlot;
  }

  lemma VolatilesStored(l: FrameLayout, m: Machine, m1: Machine, m2: Machine, m3: Machine)
    requires ValidLayout(l) && l.volatiles
    requires GprsStored(l.wide, 3, 13, l.R0Slot() + 1, m, m1) && CtrIsStored(l, m1, m2)
    requires FprsStored(l.wide, 0, NUM_VFPRS, l.CtrSlot() + 1, m2, m3)
    ensures VolatilesSaved(l, m, m3)
  {
    var w, sp, r0, ctr := l.wide, m.Gpr(1), l.R0Slot(), l.CtrSlot();
    SlotOrder(l);
    assert m1.Gpr(1) == sp && m2.Gpr(1) == sp && m1.ctr == m.ctr && m2.fpr == m.fpr;
    assert Read(m2.mem, SlotAddr(w, sp, ctr)) == m.ctr;
    OneSlot(w, m1.mem, sp, ctr, m1.ctr);
    hide OnlySlots, GprsSaved, FprsSaved, FrameLayout.CtrSlot, FrameLayout.R0Slot, FrameLayout.CrSlot, SlotAddr, FprWords;
    VolatilesStay(w, sp, r0, ctr, ctr + 1 + FprWords(w, NUM_VFPRS), m, m1.mem, m2.mem, m3.mem);
  }

  lemma VolatilesStay(w: bool, sp: int, r0: nat, ctr: nat, end: nat, m: Machine, mem1: Memory, mem2: Memory, mem3: Memory)
    requires ctr == r0 + 11 && ctr < end && GprsSaved(w, mem1, sp, r0 + 1, 3, 13, m.gpr)
    requires OnlySlots(w, sp, r0 + 1, ctr, m.mem, mem1)
    requires OnlySlots(w, sp, ctr, ctr + 1, mem1, mem2)
    requires OnlySlots(w, sp, ctr + 1, end, mem2, mem3)
    ensures OnlySlots(w, sp, r0 + 1, end, m.mem, mem3)
    ensures GprsSaved(w, mem3, sp, r0 + 1, 3, 13, m.gpr)
    ensures Read(mem3, SlotAddr(w, sp, ctr)) == Read(mem2, SlotAddr(w, sp, ctr))
  {
    hide *;
    GprsStay(w, mem1, mem2, sp, ctr, ctr + 1, r0 + 1, 3, 13, m.gpr);
    GprsStay(w, mem2, mem3, sp, ctr + 1, end, r0 + 1, 3, 13, m.gpr);
    BelowSlots(w, sp, ctr + 1, end, mem2, mem3, ctr);
    OnlySlotsTrans(w, sp, r0 + 1, ctr, ctr, ctr + 1, m.mem, mem1, mem2, r0 + 1, ctr + 1);
    OnlySlotsTrans(w, sp, r0 + 1, ctr + 1, ctr + 1, end, m.mem, mem2, mem3, r0 + 1, end);
  }

  lemma BelowSlots(w: bool, sp: int, first: int, end: int, mem: Memory, mem': Memory, slot: int)
    requires OnlySlots(w, sp, first, end, mem, mem') && slot < first
    ensures Read(mem', SlotAddr(w, sp, slot)) == Read(mem, SlotAddr(w, sp, slot))
  {
    assert SlotAddr(w, sp, slot) < SlotAddr(w, sp, first);
  }

  ghost predicate CrIsStored(l: FrameLayout, m: Machine, m1: Machine) {
    && OnlyR0(m, m1) && m1 == m.(gpr := m1.gpr, mem := m1.mem)
    && (if l.crfs > 0
        then m1.mem == m.mem[SlotAddr(l.wide, m.Gpr(1), CrWord(l)) := m.cr]
        else m1.mem == m.mem)
  }

  function StoreCr(l: FrameLayout): Code { if l.crfs > 0 then [Mfcr(0), Store(0, CrDisp(l))] else [] }

  lemma CrDisplacement(l: FrameLayout)
    requires ValidLayout(l) && Fits(l) && l.crfs > 0
    ensures CrDisp(l) == Bytes(l.wide, CrWord(l))
  {
    SlotOrder(l);
    Disp(Bytes(l.wide, CrWord(l)));
  }

  lemma CrStored(l: FrameLayout, m: Machine)
    requires ValidLayout(l) && Fits(l)
    ensures CrIsStored(l, m, Exec(l.wide, StoreCr(l), m))
  {
    if l.crfs > 0 {
      hide Exec, Bytes, Int16, CrDisp, CrWord, ValidLayout, Fits;
      CrDisplacement(l);
      Exec2(l.wide, Mfcr(0), Store(0, CrDisp(l)), m);
    }
  }

  // After the third part: the non-volatile registers are saved, and nothing
  // else in memory has changed.
  ghost predicate SavedOnly(l: FrameLayout, sp: int, mem: Memory, mem': Memory) {
    forall a ::
      (a < SlotAddr(l.wide, sp, l.GprSlot()) || a >= SlotAddr(l.wide, sp, EndSlot(l))) && (l.crfs > 0 ==> a != SlotAddr(l.wide, sp, CrWord(l)))
      ==> Read(mem', a) == Read(mem, a)
  }

  ghost predicate SavedStored(l: FrameLayout, m: Machine, m1: Machine)
    requires ValidLayout(l)
  {
    && OnlyR0(m, m1) && m1 == m.(gpr := m1.gpr, mem := m1.mem)
    && SavedHeld(l, m, m.Gpr(1), m1.mem)
    && SavedOnly(l, m.Gpr(1), m.mem, m1.mem)
  }

  lemma SavedEffect(l: FrameLayout, m: Machine)
    requires ValidLayout(l) && Fits(l)
    ensures SavedStored(l, m, Exec(l.wide, PrologSaved(l), m))
  {
    hide StoreGprs, StoreFprs;
    var w := l.wide;
    var a, b, c := StoreCr(l), StoreGprs(w, 32 - l.gprs, 32, l.GprSlot()), StoreFprs(w, 32 - l.fprs, 32, l.FprSlot());
    assert PrologSaved(l) == a + b + c;
    SavedDisps(l);
    hide *;
    var m1 := Exec(w, a, m);
    var m2 := Exec(w, b, m1);
    CrStored(l, m);
    StoreGprsEffect(w, 32 - l.gprs, 32, l.GprSlot(), m1);
    StoreFprsEffect(w, 32 - l.fprs, 32, l.FprSlot(), m2);
    Exec3Parts(w, a, b, c, m);
    SavedIsStored(l, m, m1, m2, Exec(w, c, m2));
  }

  lemma SavedDisps(l: FrameLayout)
    requires ValidLayout(l) && Fits(l)
    ensures l.gprs <= 18 && l.fprs <= 18
    ensures Bytes(l.wide, l.GprSlot() + (32 - (32 - l.gprs))) <= MAX_DISP
    ensures Bytes(l.wide, l.FprSlot() + FprWords(l.wide, 32 - (32 - l.fprs))) <= MAX_DISP
  {
    SlotOrder(l);
  }

  lemma SavedIsStored(l: FrameLayout, m: Machine, m1: Machine, m2: Machine, m3: Machine)
    requires ValidLayout(l) && CrIsStored(l, m, m1)
    requires GprsStored(l.wide, 32 - l.gprs, 32, l.GprSlot(), m1, m2)
    requires FprsStored(l.wide, 32 - l.fprs, 32, l.FprSlot(), m2, m3)
    ensures SavedStored(l, m, m3)
  {
    var w, sp, lo := l.wide, m.Gpr(1), 32 - l.gprs;
    SlotOrder(l);
    assert l.GprSlot() + (32 - lo) == l.FprSlot() && l.FprSlot() + FprWords(w, 32 - (32 - l.fprs)) == EndSlot(l);
    hide SlotAddr, OnlySlots, FprsSaved, GprsSaved, FrameLayout.GprSlot, FrameLayout.FprSlot, EndSlot, SavedOnly, SavedHeld, CrWord, FprWords;
    assert m1.Gpr(1) == sp && m2.Gpr(1) == sp;
    SavedOnlyThose(l, sp, m, m1, m2, m3);
    CrKept(l, m, m1, m2, m3);
    SameGprsSaved(w, m2.mem, sp, l.GprSlot(), lo, 32, m1, m);
    SavedIsHeld(l, m, sp, m2.mem, m3.mem);
  }

  lemma SavedIsHeld(l: FrameLayout, m: Machine, sp: int, mem: Memory, mem': Memory)
    requires ValidLayout(l)
    requires l.crfs > 0 ==> Read(mem', SlotAddr(l.wide, sp, CrWord(l))) == m.cr
    requires GprsSaved(l.wide, mem, sp, l.GprSlot(), 32 - l.gprs, 32, m.gpr)
    requires OnlySlots(l.wide, sp, l.FprSlot(), EndSlot(l), mem, mem')
    requires FprsSaved(l.wide, mem', sp, l.FprSlot(), 32 - l.fprs, 32, m.fpr)
    ensures SavedHeld(l, m, sp, mem')
  {
    SlotOrder(l);
    hide SlotAddr, OnlySlots, FprsSaved, GprsSaved, FrameLayout.GprSlot, FrameLayout.FprSlot, EndSlot, CrWord;
    GprsStay(l.wide, mem, mem', sp, l.FprSlot(), EndSlot(l), l.GprSlot(), 32 - l.gprs, 32, m.gpr);
  }

  lemma SameGprsSaved(w: bool, mem: Memory, sp: int, slot: int, lo: nat, hi: nat, m: Machine, m1: Machine)
    requires (forall i :: lo <= i ==> m.Gpr(i) == m1.Gpr(i)) && GprsSaved(w, mem, sp, slot, lo, hi, m.gpr)
    ensures GprsSaved(w, mem, sp, slot, lo, hi, m1.gpr)
  {
    forall i | lo <= i < hi ensures Read(mem, SlotAddr(w, sp, slot + (i - lo))) == Read(m1.gpr, i) {
      assert m1.Gpr(i) == m.Gpr(i);
    }
  }

  lemma CrKept(l: FrameLayout, m: Machine, m1: Machine, m2: Machine, m3: Machine)
    requires ValidLayout(l) && CrIsStored(l, m, m1)
    requires OnlySlots(l.wide, m.Gpr(1), l.GprSlot(), l.FprSlot(), m1.mem, m2.mem)
    requires OnlySlots(l.wide, m.Gpr(1), l.FprSlot(), EndSlot(l), m2.mem, m3.mem)
    ensures l.crfs > 0 ==> Read(m3.mem, SlotAddr(l.wide, m.Gpr(1), CrWord(l))) == m.cr
  {
    SlotOrder(l);
    if l.crfs > 0 {
      assert CrWord(l) < l.GprSlot() <= l.FprSlot();
      assert SlotAddr(l.wide, m.Gpr(1), CrWord(l)) < SlotAddr(l.wide, m.Gpr(1), l.GprSlot()) <= SlotAddr(l.wide, m.Gpr(1), l.FprSlot());
    }
  }

  lemma SavedOnlyThose(l: FrameLayout, sp: int, m: Machine, m1: Machine, m2: Machine, m3: Machine)
    requires ValidLayout(l) && CrIsStored(l, m, m1) && sp == m.Gpr(1)
    requires OnlySlots(l.wide, sp, l.GprSlot(), l.FprSlot(), m1.mem, m2.mem)
    requires OnlySlots(l.wide, sp, l.FprSlot(), EndSlot(l), m2.mem, m3.mem)
    ensures SavedOnly(l, sp, m.mem, m3.mem)
  {
    SlotOrder(l);
    OnlySlotsTrans(l.wide, sp, l.GprSlot(), l.FprSlot(), l.FprSlot(), EndSlot(l), m1.mem, m2.mem, m3.mem, l.GprSlot(), EndSlot(l));
    hide FrameLayout.GprSlot, FrameLayout.FprSlot, FrameLayout.CrSlot, EndSlot, CrWord, SlotAddr;
  }

  // The words of the frame, with the word above it when something is saved
  // there
  function FrameEnd(l: FrameLayout): nat { l.UnalignedWords() + (if Contained(l) then 0 else 1) }

  // The caller's memory, but for the word LR is saved in and, when something
  // is saved outside the frame, the word of the caller's back chain.
  ghost predicate CallerKept(l: FrameLayout, sp: int, mem: Memory, mem': Memory) {
    forall a :: (a < sp || a >= SlotAddr(l.wide, sp, FrameEnd(l))) && a != SlotAddr(l.wide, sp, l.UnalignedWords() + LrWord(l))
      ==> Read(mem', a) == Read(mem, a)
  }

  // The whole prolog
  ghost predicate Prologued(l: FrameLayout, m: Machine, m': Machine)
    requires ValidLayout(l)
  {
    var sp := m.Gpr(1) - l.UnalignedSize();
    && m' == m.(gpr := m'.gpr, mem := m'.mem) && m'.Gpr(1) == sp
    && (forall i :: i != 0 && i != 1 ==> m'.Gpr(i) == m.Gpr(i))
    && (l.volatiles ==> m'.Gpr(0) == m.Gpr(0))
    && Held(l, m, sp, m'.mem)
    && Read(m'.mem, sp) == m.Gpr(1)
    && CallerKept(l, sp, m.mem, m'.mem)
  }

  lemma PrologRuns(l: FrameLayout, m: Machine)
    requires ValidLayout(l) && Fits(l)
    ensures Prologued(l, m, Exec(l.wide, Prolog(l), m))
  {
    var w := l.wide;
    hide PrologVolatiles, PrologFrame, PrologSaved;
    var a, b, c := PrologFrame(l), PrologVolatiles(l), PrologSaved(l);
    var d := if l.volatiles then [Load(0, SlotDisp(l, l.R0Slot()))] else [];
    assert Prolog(l) == a + b + c + d;
    var m1 := Exec(w, a, m);
    var m2 := Exec(w, b, m1);
    var m3 := Exec(w, c, m2);
    assert Exec(w, d, m3) == if l.volatiles then Step(w, Load(0, SlotDisp(l, l.R0Slot())), m3) else m3 by {
      if l.volatiles { Exec1(w, d[0], m3); }
    }
    hide *;
    FrameEffect(l, m);
    VolatilesEffect(l, m1);
    SavedEffect(l, m2);
    Exec3Parts(w, a, b, c, m);
    ExecConcat(w, a + b + c, d, m);
    PrologIsHeld(l, m, m1, m2, m3);
    PrologEnds(l, m, m1, m2, m3);
  }

  // Which words each of the last two parts leaves alone
  lemma PartsKeep(l: FrameLayout, sp: int, mem1: Memory, mem2: Memory, mem3: Memory)
    requires ValidLayout(l) && OnlySlots(l.wide, sp, l.R0Slot() + 1, l.CrSlot(), mem1, mem2) && SavedOnly(l, sp, mem2, mem3)
    ensures Read(mem3, sp) == Read(mem1, sp)
    ensures Read(mem2, SlotAddr(l.wide, sp, l.R0Slot())) == Read(mem1, SlotAddr(l.wide, sp, l.R0Slot()))
    ensures SlotsKept(l.wide, sp, l.R0Slot(), l.CrSlot(), mem2, mem3)
    ensures var lr := SlotAddr(l.wide, sp, l.UnalignedWords() + LrWord(l)); Read(mem3, lr) == Read(mem1, lr)
  {
    SlotOrder(l);
    assert sp == SlotAddr(l.wide, sp, 0);
    hide FrameLayout.R0Slot, FrameLayout.CrSlot, FrameLayout.GprSlot, EndSlot, FrameLayout.UnalignedWords;
  }

  lemma FrameGeometry(l: FrameLayout, sp: int)
    requires ValidLayout(l)
    ensures var w := l.wide;
      && sp < SlotAddr(w, sp, l.R0Slot() + 1) <= SlotAddr(w, sp, l.GprSlot())
      && (SlotAddr(w, sp, l.CrSlot()) <= SlotAddr(w, sp, l.R0Slot() + 1) || SlotAddr(w, sp, l.CrSlot()) <= SlotAddr(w, sp, FrameEnd(l)))
      && (SlotAddr(w, sp, EndSlot(l)) <= SlotAddr(w, sp, l.GprSlot()) || SlotAddr(w, sp, EndSlot(l)) <= SlotAddr(w, sp, FrameEnd(l)))
      && (l.crfs > 0 ==> sp < SlotAddr(w, sp, CrWord(l)) < SlotAddr(w, sp, FrameEnd(l)))
      && sp + l.UnalignedSize() == SlotAddr(w, sp, l.UnalignedWords()) <= SlotAddr(w, sp, FrameEnd(l))
      && sp + l.UnalignedSize() + l.LrSave() == SlotAddr(w, sp, l.UnalignedWords() + LrWord(l))
  {
    SlotOrder(l);
    assert l.CrSlot() <= l.R0Slot() + 1 || l.CrSlot() <= FrameEnd(l);
    assert EndSlot(l) <= l.GprSlot() || EndSlot(l) <= FrameEnd(l);
    assert l.crfs > 0 ==> 0 < CrWord(l) < FrameEnd(l);
    hide FrameLayout.UnalignedWords, FrameLayout.R0Slot, FrameLayout.CrSlot, FrameLayout.GprSlot, EndSlot, FrameEnd, CrWord;
  }

  lemma CallersKept(l: FrameLayout, m: Machine, m1: Machine, mem2: Memory, mem3: Memory)
    requires ValidLayout(l) && Framed(l, m, m1)
    requires OnlySlots(l.wide, m1.Gpr(1), l.R0Slot() + 1, l.CrSlot(), m1.mem, mem2) && SavedOnly(l, m1.Gpr(1), mem2, mem3)
    ensures CallerKept(l, m1.Gpr(1), m.mem, mem3)
  {
    var sp, w := m1.Gpr(1), l.wide;
    FrameGeometry(l, sp);
    assert m.Gpr(1) == sp + l.UnalignedSize();
    hide Framed, OnlySlots, SavedOnly, SlotAddr, FrameEnd, FrameLayout.UnalignedSize, FrameLayout.LrSave;
    forall a | (a < sp || a >= SlotAddr(w, sp, FrameEnd(l))) && a != SlotAddr(w, sp, l.UnalignedWords() + LrWord(l))
      ensures Read(mem3, a) == Read(m.mem, a)
    {
      FramedAt(l, m, m1, a);
      OnlySlotsAt(w, sp, l.R0Slot() + 1, l.CrSlot(), m1.mem, mem2, a);
      SavedOnlyAt(l, sp, mem2, mem3, a);
    }
  }

  lemma FramedAt(l: FrameLayout, m: Machine, m1: Machine, a: int)
    requires Framed(l, m, m1)
    requires (a < m1.Gpr(1) || a >= m.Gpr(1)) && a != m.Gpr(1) + l.LrSave()
    ensures Read(m1.mem, a) == Read(m.mem, a)
  {
  }

  lemma OnlySlotsAt(w: bool, sp: int, first: int, end: int, mem: Memory, mem': Memory, a: int)
    requires OnlySlots(w, sp, first, end, mem, mem') && (a < SlotAddr(w, sp, first) || a >= SlotAddr(w, sp, end))
    ensures Read(mem', a) == Read(mem, a)
  {
  }

  lemma SavedOnlyAt(l: FrameLayout, sp: int, mem: Memory, mem': Memory, a: int)
    requires SavedOnly(l, sp, mem, mem') && (a < SlotAddr(l.wide, sp, l.GprSlot()) || a >= SlotAddr(l.wide, sp, EndSlot(l)))
    requires l.crfs > 0 ==> a != SlotAddr(l.wide, sp, CrWord(l))
    ensures Read(mem', a) == Read(mem, a)
  {
  }

  // The first three parts together hold everything,
  lemma PrologIsHeld(l: FrameLayout, m: Machine, m1: Machine, m2: Machine, m3: Machine)
    requires ValidLayout(l) && Framed(l, m, m1) && VolatilesSaved(l, m1, m2) && SavedStored(l, m2, m3)
    ensures Held(l, m, m.Gpr(1) - l.UnalignedSize(), m3.mem)
  {
    var sp := m.Gpr(1) - l.UnalignedSize();
    assert m1.Gpr(1) == sp && m2.Gpr(1) == sp;
    hide FrameLayout.UnalignedSize, OnlySlots, SavedOnly, SlotsKept, GprsSaved, FprsSaved, FrameLayout.R0Slot, FrameLayout.CrSlot, SlotAddr;
    PartsKeep(l, sp, m1.mem, m2.mem, m3.mem);
    VolatilesAreHeld(l, m, m1, m2, m3);
    SavedAreHeld(l, m, m1, m2, m3);
    hide VolatilesHeld, SavedHeld;
  }

  lemma VolatilesAreHeld(l: FrameLayout, m: Machine, m1: Machine, m2: Machine, m3: Machine)
    requires ValidLayout(l) && Framed(l, m, m1) && VolatilesSaved(l, m1, m2) && SavedStored(l, m2, m3)
    ensures VolatilesHeld(l, m, m1.Gpr(1), m3.mem)
  {
    hide FrameLayout.UnalignedSize, OnlySlots, SavedOnly, SlotsKept, GprsSaved, FprsSaved, FrameLayout.R0Slot, FrameLayout.CrSlot, SlotAddr, SavedHeld, LrHeld;
    var sp := m1.Gpr(1);
    PartsKeep(l, sp, m1.mem, m2.mem, m3.mem);
    if l.volatiles {
      SameGprsSaved(l.wide, m2.mem, sp, l.R0Slot() + 1, 3, 13, m1, m);
      assert VolatilesHeld(l, m, sp, m2.mem);
      hide VolatilesHeld;
      SlotOrder(l);
      VolatilesKept(l, m, sp, l.CrSlot(), m2.mem, m3.mem);
    }
  }

  lemma SavedAreHeld(l: FrameLayout, m: Machine, m1: Machine, m2: Machine, m3: Machine)
    requires ValidLayout(l) && Framed(l, m, m1) && VolatilesSaved(l, m1, m2) && SavedStored(l, m2, m3)
    ensures SavedHeld(l, m, m1.Gpr(1), m3.mem)
  {
    hide FrameLayout.UnalignedSize, OnlySlots, SavedOnly, GprsSaved, FprsSaved, FrameLayout.GprSlot, SlotAddr, LrHeld;
    assert m2.Gpr(1) == m1.Gpr(1) && m2.cr == m.cr && m2.fpr == m.fpr;
    assert forall i :: 14 <= i ==> m2.Gpr(i) == m.Gpr(i);
    SameGprsSaved(l.wide, m3.mem, m1.Gpr(1), l.GprSlot(), 32 - l.gprs, 32, m2, m);
  }

  // and r0, which the fourth part loads again, is all that is left to see.
  lemma PrologEnds(l: FrameLayout, m: Machine, m1: Machine, m2: Machine, m3: Machine)
    requires ValidLayout(l) && Fits(l) && Framed(l, m, m1) && VolatilesSaved(l, m1, m2) && SavedStored(l, m2, m3)
    requires Held(l, m, m.Gpr(1) - l.UnalignedSize(), m3.mem)
    ensures Prologued(l, m, if l.volatiles then Step(l.wide, Load(0, SlotDisp(l, l.R0Slot())), m3) else m3)
  {
    hide *;
    R0Disp(l);
    ThreeParts(l, m, m1, m2, m3);
    CallerKeptOver(l, m, m1, m2, m3);
    R0Loaded(l, m, m1.Gpr(1), m3);
    PrologueSeen(l, m, m3, if l.volatiles then Step(l.wide, Load(0, SlotDisp(l, l.R0Slot())), m3) else m3);
  }

  lemma CallerKeptOver(l: FrameLayout, m: Machine, m1: Machine, m2: Machine, m3: Machine)
    requires ValidLayout(l) && Framed(l, m, m1) && VolatilesSaved(l, m1, m2) && SavedStored(l, m2, m3)
    ensures CallerKept(l, m1.Gpr(1), m.mem, m3.mem)
  {
    hide ValidLayout, Framed, OnlySlots, SavedOnly, CallerKept, GprsSaved, FprsSaved, SavedHeld, FrameLayout.R0Slot, FrameLayout.CrSlot;
    PartsInMemory(l, m1, m2, m3);
    CallersKept(l, m, m1, m2.mem, m3.mem);
  }

  lemma PartsInMemory(l: FrameLayout, m1: Machine, m2: Machine, m3: Machine)
    requires ValidLayout(l) && VolatilesSaved(l, m1, m2) && SavedStored(l, m2, m3)
    ensures OnlySlots(l.wide, m1.Gpr(1), l.R0Slot() + 1, l.CrSlot(), m1.mem, m2.mem) && SavedOnly(l, m1.Gpr(1), m2.mem, m3.mem)
  {
    hide OnlySlots, SavedOnly, GprsSaved, FprsSaved, SavedHeld, FrameLayout.R0Slot, FrameLayout.CrSlot;
  }

  lemma PrologueSeen(l: FrameLayout, m: Machine, m3: Machine, m4: Machine)
    requires ValidLayout(l)
    requires m3.Gpr(1) == m.Gpr(1) - l.UnalignedSize() && m3 == m.(gpr := m3.gpr, mem := m3.mem)
    requires forall i :: i != 0 && i != 1 ==> m3.Gpr(i) == m.Gpr(i)
    requires Held(l, m, m3.Gpr(1), m3.mem) && Read(m3.mem, m3.Gpr(1)) == m.Gpr(1) && CallerKept(l, m3.Gpr(1), m.mem, m3.mem)
    requires m4 == m3.(gpr := m4.gpr) && (l.volatiles ==> m4.Gpr(0) == m.Gpr(0)) && forall i :: i != 0 ==> m4.Gpr(i) == m3.Gpr(i)
    ensures Prologued(l, m, m4)
  {
    hide Held, CallerKept, FrameLayout.UnalignedSize;
  }

  lemma R0Disp(l: FrameLayout)
    requires ValidLayout(l) && Fits(l)
    ensures SlotDisp(l, l.R0Slot()) == Bytes(l.wide, l.R0Slot())
  {
    SlotOrder(l);
    Disp(Bytes(l.wide, l.R0Slot()));
  }

  lemma ThreeParts(l: FrameLayout, m: Machine, m1: Machine, m2: Machine, m3: Machine)
    requires ValidLayout(l) && Framed(l, m, m1) && VolatilesSaved(l, m1, m2) && SavedStored(l, m2, m3)
    ensures m1.Gpr(1) == m.Gpr(1) - l.UnalignedSize() == m3.Gpr(1) && m3 == m.(gpr := m3.gpr, mem := m3.mem)
    ensures forall i :: i != 0 && i != 1 ==> m3.Gpr(i) == m.Gpr(i)
    ensures Read(m3.mem, m1.Gpr(1)) == m.Gpr(1)
  {
    assert m1.Gpr(1) == m.Gpr(1) - l.UnalignedSize();
    hide OnlySlots, SavedOnly, SlotsKept, GprsSaved, FprsSaved, SavedHeld, LrHeld, FrameLayout.UnalignedSize, FrameLayout.R0Slot, FrameLayout.CrSlot;
    PartsKeep(l, m1.Gpr(1), m1.mem, m2.mem, m3.mem);
  }

  lemma R0Loaded(l: FrameLayout, m: Machine, sp: int, m3: Machine)
    requires ValidLayout(l) && Held(l, m, sp, m3.mem) && m3.Gpr(1) == sp
    requires SlotDisp(l, l.R0Slot()) == Bytes(l.wide, l.R0Slot())
    ensures var m4 := Step(l.wide, Load(0, SlotDisp(l, l.R0Slot())), m3);
      m4 == m3.(gpr := m4.gpr) && (l.volatiles ==> m4.Gpr(0) == m.Gpr(0)) && forall i :: i != 0 ==> m4.Gpr(i) == m3.Gpr(i)
  {
    hide SavedHeld, LrHeld, GprsSaved, FprsSaved, Bytes;
  }

  // ---- the epilog ----------------------------------------------------

  // The registers an epilog gives back, apart from r1
  predicate RestoredGpr(l: FrameLayout, i: int) {
    32 - l.gprs <= i < 32 || (l.volatiles && (i == 0 || 3 <= i < 13))
  }
  predicate RestoredFpr(l: FrameLayout, i: int) {
    32 - l.fprs <= i < 32 || (l.volatiles && 0 <= i < 14)
  }

  // m' is m with those registers as in m0.  r0 is lost unless it is given
  // back; every other register is as in m, and so is memory.
  ghost predicate Restored(l: FrameLayout, m0: Machine, m: Machine, m': Machine) {
    && m'.Gpr(1) == m.Gpr(1) + l.UnalignedSize()
    && m'.lr == m0.lr
    && m'.cr == (if l.crfs > 0 then m0.cr else m.cr)
    && m'.ctr == (if l.volatiles then m0.ctr else m.ctr)
    && m'.mem == m.mem
    && (forall i :: RestoredGpr(l, i) ==> m'.Gpr(i) == m0.Gpr(i))
    && (forall i :: !RestoredGpr(l, i) && i != 0 && i != 1 ==> m'.Gpr(i) == m.Gpr(i))
    && (forall i :: RestoredFpr(l, i) ==> m'.Fpr(i) == m0.Fpr(i))
    && (forall i :: !RestoredFpr(l, i) ==> m'.Fpr(i) == m.Fpr(i))
  }

  // After its first two parts
  ghost predicate VolatilesLoaded(l: FrameLayout, m0: Machine, m: Machine, m': Machine) {
    && m' == m.(gpr := m'.gpr, fpr := m'.fpr, ctr := m'.ctr)
    && m'.ctr == (if l.volatiles then m0.ctr else m.ctr)
    && (forall i :: if l.volatiles && 3 <= i < 13 then m'.Gpr(i) == m0.Gpr(i) else i != 0 ==> m'.Gpr(i) == m.Gpr(i))
    && (forall i :: m'.Fpr(i) == if l.volatiles && 0 <= i < 14 then m0.Fpr(i) else m.Fpr(i))
  }

  ghost predicate SavedLoaded(l: FrameLayout, m0: Machine, m: Machine, m': Machine) {
    && m' == m.(gpr := m'.gpr, fpr := m'.fpr, cr := m'.cr)
    && m'.cr == (if l.crfs > 0 then m0.cr else m.cr)
    && (forall i :: if 32 - l.gprs <= i < 32 then m'.Gpr(i) == m0.Gpr(i) else i != 0 ==> m'.Gpr(i) == m.Gpr(i))
    && (forall i :: m'.Fpr(i) == if 32 - l.fprs <= i < 32 then m0.Fpr(i) else m.Fpr(i))
  }

  // What two saved states have in common is what a load from one of them finds.
  lemma GprsAgree(w: bool, mem: Memory, sp: int, slot: int, lo: nat, hi: nat, m: Machine, m0: Machine)
    requires GprsSaved(w, mem, sp, slot, lo, hi, m.gpr) && GprsSaved(w, mem, sp, slot, lo, hi, m0.gpr)
    ensures forall i :: lo <= i < hi ==> m.Gpr(i) == m0.Gpr(i)
  {
    forall i | lo <= i < hi ensures m.Gpr(i) == m0.Gpr(i) {
      assert Read(mem, SlotAddr(w, sp, slot + (i - lo))) == Read(m.gpr, i);
    }
  }

  lemma FprsAgree(w: bool, mem: Memory, sp: int, slot: int, lo: nat, hi: nat, m: Machine, m0: Machine)
    requires FprsRead(w, mem, sp, slot, lo, hi, m.fpr) && FprsSaved(w, mem, sp, slot, lo, hi, m0.fpr)
    ensures forall i :: lo <= i < hi ==> m.Fpr(i) == m0.Fpr(i)
  {
    forall i | lo <= i < hi ensures m.Fpr(i) == m0.Fpr(i) {
      assert DoubleAt(w, mem, FprAddr(w, sp, slot, i - lo)) == Read(m.fpr, i);
    }
  }

  // The states a group of loads goes through, as the group finds them in the
  // frame of m0
  lemma GroupLoaded(l: FrameLayout, m0: Machine, sp: int, lo: nat, hi: nat, slot: nat, m: Machine, m': Machine)
    requires m.Gpr(1) == sp && GprsLoaded(l.wide, lo, hi, slot, m, m')
    requires GprsSaved(l.wide, m.mem, sp, slot, lo, hi, m0.gpr)
    ensures m' == m.(gpr := m'.gpr)
    ensures forall i :: m'.Gpr(i) == if lo <= i < hi then m0.Gpr(i) else m.Gpr(i)
  {
    hide GprsSaved;
    GprsAgree(l.wide, m.mem, sp, slot, lo, hi, m', m0);
  }

  lemma DoublesLoaded(l: FrameLayout, m0: Machine, sp: int, lo: nat, hi: nat, slot: nat, m: Machine, m': Machine)
    requires m.Gpr(1) == sp && FprsLoaded(l.wide, lo, hi, slot, m, m')
    requires FprsSaved(l.wide, m.mem, sp, slot, lo, hi, m0.fpr)
    ensures m' == m.(fpr := m'.fpr)
    ensures forall i :: m'.Fpr(i) == if lo <= i < hi then m0.Fpr(i) else m.Fpr(i)
  {
    hide FprsSaved, FprsRead;
    FprsAgree(l.wide, m.mem, sp, slot, lo, hi, m', m0);
  }

  lemma CtrLoaded(l: FrameLayout, m0: Machine, m: Machine)
    requires Int16(Bytes(l.wide, l.CtrSlot())) == Bytes(l.wide, l.CtrSlot())
    requires Read(m.mem, SlotAddr(l.wide, m.Gpr(1), l.CtrSlot())) == m0.ctr
    ensures var m' := Step(l.wide, Mtctr(0), Step(l.wide, Load(0, SlotDisp(l, l.CtrSlot())), m));
      m' == m.(gpr := m'.gpr, ctr := m0.ctr) && forall i :: i != 0 ==> m'.Gpr(i) == m.Gpr(i)
  {
    hide Bytes, FrameLayout.CtrSlot;
  }

  lemma EpilogVolatilesRun(l: FrameLayout, m0: Machine, m: Machine)
    requires ValidLayout(l) && Fits(l) && VolatilesHeld(l, m0, m.Gpr(1), m.mem)
    ensures VolatilesLoaded(l, m0, m, Exec(l.wide, EpilogVolatiles(l), m))
  {
    hide LoadGprs, LoadFprs, VolatilesHeld, Fits;
    if l.volatiles {
      hide VolatilesLoaded, EpilogVolatiles;
      VolatileLoads(l, m0, m);
    }
  }

  lemma VolatileLoads(l: FrameLayout, m0: Machine, m: Machine)
    requires ValidLayout(l) && Fits(l) && l.volatiles && VolatilesHeld(l, m0, m.Gpr(1), m.mem)
    ensures VolatilesLoaded(l, m0, m, Exec(l.wide, EpilogVolatiles(l), m))
  {
    hide LoadGprs, LoadFprs, VolatilesHeld, VolatilesLoaded;
    var w := l.wide;
    var a := LoadGprs(w, 3, 13, l.R0Slot() + 1);
    var b := [Load(0, SlotDisp(l, l.CtrSlot())), Mtctr(0)];
    var c := LoadFprs(w, 0, NUM_VFPRS, l.CtrSlot() + 1);
    assert EpilogVolatiles(l) == a + b + c;
    VolatileDisps(l);
    hide *;
    var m1 := Exec(w, a, m);
    var m2 := Exec(w, b, m1);
    Exec3Parts(w, a, b, c, m);
    LoadGprsEffect(w, 3, 13, l.R0Slot() + 1, m);
    Exec2(w, b[0], b[1], m1);
    LoadFprsEffect(w, 0, NUM_VFPRS, l.CtrSlot() + 1, m2);
    VolatilesAreLoaded(l, m0, m, m1, m2, Exec(w, c, m2));
  }

  lemma VolatilesAreLoaded(l: FrameLayout, m0: Machine, m: Machine, m1: Machine, m2: Machine, m3: Machine)
    requires l.volatiles && VolatilesHeld(l, m0, m.Gpr(1), m.mem)
    requires Int16(Bytes(l.wide, l.CtrSlot())) == Bytes(l.wide, l.CtrSlot())
    requires GprsLoaded(l.wide, 3, 13, l.R0Slot() + 1, m, m1)
    requires m2 == Step(l.wide, Mtctr(0), Step(l.wide, Load(0, SlotDisp(l, l.CtrSlot())), m1))
    requires FprsLoaded(l.wide, 0, NUM_VFPRS, l.CtrSlot() + 1, m2, m3)
    ensures VolatilesLoaded(l, m0, m, m3)
  {
    hide GprsLoaded, FprsLoaded, GprsSaved, FprsSaved, FprsRead, Step, Bytes, Int16, SlotAddr, SlotDisp, FrameLayout.R0Slot, FrameLayout.CtrSlot;
    GroupLoaded(l, m0, m.Gpr(1), 3, 13, l.R0Slot() + 1, m, m1);
    CtrLoaded(l, m0, m1);
    DoublesLoaded(l, m0, m.Gpr(1), 0, NUM_VFPRS, l.CtrSlot() + 1, m2, m3);
  }

  function LoadCr(l: FrameLayout): Code { if l.crfs > 0 then [Load(0, CrDisp(l)), Mtcr(0)] else [] }

  lemma CrLoaded(l: FrameLayout, m0: Machine, m: Machine)
    requires ValidLayout(l) && Fits(l)
    requires l.crfs > 0 ==> Read(m.mem, SlotAddr(l.wide, m.Gpr(1), CrWord(l))) == m0.cr
    ensures var m' := Exec(l.wide, LoadCr(l), m);
      && m' == m.(gpr := m'.gpr, cr := if l.crfs > 0 then m0.cr else m.cr)
      && forall i :: i != 0 ==> m'.Gpr(i) == m.Gpr(i)
  {
    if l.crfs > 0 {
      hide Exec, Bytes, Int16, CrDisp, CrWord, ValidLayout, Fits, Machine.Gpr;
      CrDisplacement(l);
      Exec2(l.wide, Load(0, CrDisp(l)), Mtcr(0), m);
      CrSteps(l.wide, m, CrDisp(l), m0.cr);
    }
  }

  lemma CrSteps(w: bool, m: Machine, disp: int, cr: int)
    requires Read(m.mem, m.Gpr(1) + disp) == cr
    ensures var m' := Step(w, Mtcr(0), Step(w, Load(0, disp), m));
      m' == m.(gpr := m'.gpr, cr := cr) && forall i :: i != 0 ==> m'.Gpr(i) == m.Gpr(i)
  {
  }

  lemma SavedParts(l: FrameLayout, m0: Machine, m: Machine)
    requires ValidLayout(l) && SavedHeld(l, m0, m.Gpr(1), m.mem)
    ensures l.gprs <= 32 && l.fprs <= 32
    ensures EpilogSaved(l) == LoadCr(l) + LoadGprs(l.wide, 32 - l.gprs, 32, l.GprSlot()) + LoadFprs(l.wide, 32 - l.fprs, 32, l.FprSlot())
    ensures l.crfs > 0 ==> Read(m.mem, SlotAddr(l.wide, m.Gpr(1), CrWord(l))) == m0.cr
  {
    hide LoadGprs, LoadFprs, GprsSaved, FprsSaved, SlotAddr, CrWord, FrameLayout.GprSlot, FrameLayout.FprSlot;
    var b, c := LoadGprs(l.wide, 32 - l.gprs, 32, l.GprSlot()), LoadFprs(l.wide, 32 - l.fprs, 32, l.FprSlot());
    assert EpilogSaved(l) == LoadCr(l) + b + c;
  }

  lemma EpilogSavedRun(l: FrameLayout, m0: Machine, m: Machine)
    requires ValidLayout(l) && Fits(l) && SavedHeld(l, m0, m.Gpr(1), m.mem)
    ensures SavedLoaded(l, m0, m, Exec(l.wide, EpilogSaved(l), m))
  {
    hide *;
    SavedParts(l, m0, m);
    var w, sp := l.wide, m.Gpr(1);
    var a, b, c := LoadCr(l), LoadGprs(w, 32 - l.gprs, 32, l.GprSlot()), LoadFprs(w, 32 - l.fprs, 32, l.FprSlot());
    SavedDisps(l);
    var m1 := Exec(w, a, m);
    var m2 := Exec(w, b, m1);
    var m3 := Exec(w, c, m2);
    Exec3Parts(w, a, b, c, m);
    CrLoaded(l, m0, m);
    LoadGprsEffect(w, 32 - l.gprs, 32, l.GprSlot(), m1);
    LoadFprsEffect(w, 32 - l.fprs, 32, l.FprSlot(), m2);
    SavedAreLoaded(l, m0, m, m1, m2, m3);
  }

  lemma SavedAreLoaded(l: FrameLayout, m0: Machine, m: Machine, m1: Machine, m2: Machine, m3: Machine)
    requires ValidLayout(l) && SavedHeld(l, m0, m.Gpr(1), m.mem)
    requires m1 == m.(gpr := m1.gpr, cr := if l.crfs > 0 then m0.cr else m.cr) && forall i :: i != 0 ==> m1.Gpr(i) == m.Gpr(i)
    requires GprsLoaded(l.wide, 32 - l.gprs, 32, l.GprSlot(), m1, m2)
    requires FprsLoaded(l.wide, 32 - l.fprs, 32, l.FprSlot(), m2, m3)
    ensures SavedLoaded(l, m0, m, m3)
  {
    hide GprsLoaded, FprsLoaded, GprsSaved, FprsSaved, FprsRead, SlotAddr, CrWord, FrameLayout.GprSlot, FrameLayout.FprSlot;
    GroupLoaded(l, m0, m.Gpr(1), 32 - l.gprs, 32, l.GprSlot(), m1, m2);
    assert m2.Gpr(1) == m.Gpr(1);
    DoublesLoaded(l, m0, m.Gpr(1), 32 - l.fprs, 32, l.FprSlot(), m2, m3);
  }

  // The last part: LR, r0 and r1
  ghost predicate FrameRemoved(l: FrameLayout, m0: Machine, m: Machine, m': Machine) {
    && m' == m.(gpr := m'.gpr, lr := m0.lr)
    && m'.Gpr(1) == m.Gpr(1) + l.UnalignedSize()
    && (l.volatiles ==> m'.Gpr(0) == m0.Gpr(0))
    && forall i :: i != 0 && i != 1 ==> m'.Gpr(i) == m.Gpr(i)
  }

  lemma RemoveSteps(l: FrameLayout, m0: Machine, m: Machine, size: int, r0: int, lr: int)
    requires size == l.UnalignedSize() && Read(m.mem, m.Gpr(1) + size + lr) == m0.lr
    requires l.volatiles ==> Read(m.mem, m.Gpr(1) + r0) == m0.Gpr(0)
    ensures var w := l.wide;
      FrameRemoved(l, m0, m,
        if l.volatiles then Step(w, Addi(1, 1, size), Step(w, Load(0, r0), Step(w, Mtlr(0), Step(w, Load(0, size + lr), m))))
        else Step(w, Mtlr(0), Step(w, Load(0, lr), Step(w, Addi(1, 1, size), m))))
  {
    hide FrameLayout.UnalignedSize;
  }

  lemma EpilogFrameCode(l: FrameLayout, m: Machine)
    requires ValidLayout(l) && Fits(l)
    ensures EpilogFrame(l) == var size, lr := l.UnalignedSize(), l.LrSave();
      if l.volatiles then [Load(0, size + lr), Mtlr(0), Load(0, Bytes(l.wide, l.R0Slot())), Addi(1, 1, size)]
      else [Addi(1, 1, size), Load(0, lr), Mtlr(0)]
  {
    SlotOrder(l);
    Disp(l.UnalignedSize());
    Disp(l.LrSave());
    Disp(l.UnalignedSize() + l.LrSave());
    R0Disp(l);
    hide FrameLayout.UnalignedSize, FrameLayout.LrSave, FrameLayout.R0Slot, Int16, Fits, Bytes, SlotDisp;
  }

  lemma FrameWords(l: FrameLayout, m0: Machine, m: Machine)
    requires ValidLayout(l) && LrHeld(l, m0, m.Gpr(1), m.mem)
    requires l.volatiles ==> Read(m.mem, SlotAddr(l.wide, m.Gpr(1), l.R0Slot())) == m0.Gpr(0)
    ensures Read(m.mem, m.Gpr(1) + l.UnalignedSize() + l.LrSave()) == m0.lr
    ensures l.volatiles ==> Read(m.mem, m.Gpr(1) + Bytes(l.wide, l.R0Slot())) == m0.Gpr(0)
  {
    FrameGeometry(l, m.Gpr(1));
    hide FrameLayout.UnalignedSize, FrameLayout.LrSave, FrameLayout.R0Slot, FrameLayout.UnalignedWords, Bytes, FrameEnd, EndSlot;
  }

  lemma EpilogFrameRun(l: FrameLayout, m0: Machine, m: Machine)
    requires ValidLayout(l) && Fits(l) && LrHeld(l, m0, m.Gpr(1), m.mem)
    requires l.volatiles ==> Read(m.mem, SlotAddr(l.wide, m.Gpr(1), l.R0Slot())) == m0.Gpr(0)
    ensures FrameRemoved(l, m0, m, Exec(l.wide, EpilogFrame(l), m))
  {
    hide *;
    var size, w, lr, r0 := l.UnalignedSize(), l.wide, l.LrSave(), Bytes(l.wide, l.R0Slot());
    FrameWords(l, m0, m);
    EpilogFrameCode(l, m);
    RemoveSteps(l, m0, m, size, r0, lr);
    if l.volatiles {
      Exec4(w, Load(0, size + lr), Mtlr(0), Load(0, r0), Addi(1, 1, size), m);
    } else {
      Exec3(w, Addi(1, 1, size), Load(0, lr), Mtlr(0), m);
    }
  }

  // Running the epilog in any state whose frame still holds what the prolog
  // saved of m0 gives it all back.
  lemma EpilogRuns(l: FrameLayout, m0: Machine, m: Machine)
    requires ValidLayout(l) && Fits(l) && Held(l, m0, m.Gpr(1), m.mem)
    ensures Restored(l, m0, m, Exec(l.wide, Epilog(l), m))
  {
    hide EpilogVolatiles, EpilogSaved, EpilogFrame;
    var w, a, b, c := l.wide, EpilogVolatiles(l), EpilogSaved(l), EpilogFrame(l);
    assert Epilog(l) == a + b + c;
    var m1 := Exec(w, a, m);
    var m2 := Exec(w, b, m1);
    var m3 := Exec(w, c, m2);
    hide LrHeld, SavedHeld, GprsSaved, FprsSaved, Exec, Fits, SlotAddr, Epilog, FrameLayout.R0Slot;
    Exec3Parts(w, a, b, c, m);
    EpilogVolatilesRun(l, m0, m);
    assert m1.mem == m.mem && m1.Gpr(1) == m.Gpr(1);
    EpilogSavedRun(l, m0, m1);
    assert m2.mem == m.mem && m2.Gpr(1) == m.Gpr(1);
    EpilogFrameRun(l, m0, m2);
    EpilogParts(l, m0, m, m1, m2, m3);
  }

  lemma EpilogParts(l: FrameLayout, m0: Machine, m: Machine, m1: Machine, m2: Machine, m3: Machine)
    requires ValidLayout(l) && VolatilesLoaded(l, m0, m, m1) && SavedLoaded(l, m0, m1, m2) && FrameRemoved(l, m0, m2, m3)
    ensures Restored(l, m0, m, m3)
  {
    hide FrameLayout.UnalignedSize;
  }
}
