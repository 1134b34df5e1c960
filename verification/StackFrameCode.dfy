// StackFrame as the object it is: requests bump its counters, and prolog and
// epilog append to the assembler's code.
module StackFrameCode {
  import opened StackLayout
  import opened StackFrames

  class Assembler {
    var code: seq<Instr>

    constructor ()
      ensures code == []
    {
      code := [];
    }

    method Emit(i: Instr)
      modifies this
      ensures code == old(code) + [i]
    {
      code := code + [i];
    }
  }

  datatype State = DoneNothing | DoneProlog | DoneEpilog

  class StackFrame {
    const wide: bool
    var params: nat
    var locals: nat
    var crfs: nat
    var gprs: nat
    var fprs: nat
    var state: State
    var frameSize: int
    var saveVolatiles: bool

    // The words of parameter and local slots handed out so far
    ghost var given: set<int>

    constructor (wide: bool)
      ensures this.wide == wide && Valid() && state == DoneNothing && given == {}
      ensures Layout() == FrameLayout(wide, 0, 0, 0, 0, 0, false)
    {
      this.wide := wide;
      params, locals, crfs, gprs, fprs := 0, 0, 0, 0, 0;
      state, saveVolatiles, given := DoneNothing, false, {};
    }

    function Layout(): FrameLayout
      reads this
    {
      FrameLayout(wide, params, locals, crfs, gprs, fprs, saveVolatiles)
    }

    // Every slot handed out is one the body may write.
    ghost predicate Sound()
      reads this
    {
      var l := Layout();
      ValidLayout(l) && forall s :: s in given ==> l.LinkAreaWords() <= s < l.R0Slot()
    }

    // Before the prolog, locals come above all the parameters there will be.
    ghost predicate Valid()
      reads this
    {
      var l := Layout();
      && Sound()
      && (state == DoneNothing ==>
            && (locals > 0 ==> params >= l.MinParams())
            && (forall s :: s in given ==> s < l.LinkAreaWords() + params + locals))
    }

    // ---- requests ----------------------------------------------------

    // Each request returns the word it hands out: parameters directly above the
    // link area, on PPC64 eight of them at least, and locals above them.
    method GetParameter() returns (slot: int)
      requires Valid() && state == DoneNothing && locals == 0
      modifies this
      ensures Valid() && state == DoneNothing
      ensures slot !in old(given) && given == old(given) + {slot}
      ensures slot == (if wide then 6 else 2) + old(params)
      ensures Layout() == old(Layout()).(params := old(params) + 1)
    {
      slot := Layout().LinkAreaWords() + params;
      params := params + 1;
      given := given + {slot};
    }

    method GetLocalVariable() returns (slot: int)
      requires Valid() && state == DoneNothing
      modifies this
      ensures Valid() && state == DoneNothing
      ensures slot !in old(given) && given == old(given) + {slot}
      ensures slot == (if wide then 6 + (if old(params) < 8 then 8 else old(params)) else 2 + old(params)) + old(locals)
      ensures Layout() == old(Layout()).(params := old(Layout()).ParamWords(), locals := old(locals) + 1)
    {
      if params < Layout().MinParams() {
        params := Layout().MinParams();
      }
      slot := Layout().LinkAreaWords() + params + locals;
      locals := locals + 1;
      given := given + {slot};
    }

    method GetCrField() returns (field: nat)
      requires Valid() && state == DoneNothing && crfs < 3
      modifies this
      ensures Valid() && state == DoneNothing && given == old(given)
      ensures Layout() == old(Layout()).(crfs := old(crfs) + 1)
      ensures 2 <= field <= 4 && field == 4 - old(crfs)
    {
      field := 4 - crfs;
      crfs := crfs + 1;
    }

    // The register is one the epilog will give back, and was not before.
    method GetRegister() returns (r: nat)
      requires Valid() && state == DoneNothing && gprs < 18
      modifies this
      ensures Valid() && state == DoneNothing && given == old(given)
      ensures Layout() == old(Layout()).(gprs := old(gprs) + 1)
      ensures 14 <= r < 32 && RestoredGpr(Layout(), r) && !RestoredGpr(old(Layout()), r)
    {
      r := 31 - gprs;
      gprs := gprs + 1;
    }

    method GetFloatRegister() returns (f: nat)
      requires Valid() && state == DoneNothing && fprs < 18
      modifies this
      ensures Valid() && state == DoneNothing && given == old(given)
      ensures Layout() == old(Layout()).(fprs := old(fprs) + 1)
      ensures 14 <= f < 32 && RestoredFpr(Layout(), f) && !RestoredFpr(old(Layout()), f)
    {
      f := 31 - fprs;
      fprs := fprs + 1;
    }

    method SetSaveVolatiles(value: bool)
      requires Valid() && state == DoneNothing
      modifies this
      ensures Valid() && state == DoneNothing && given == old(given)
      ensures Layout() == old(Layout()).(volatiles := value)
    {
      saveVolatiles := value;
    }

    // ---- code --------------------------------------------------------

    method StoreRegisters(masm: Assembler, lo: nat, hi: nat, start: nat) returns (offset: nat)
      requires lo <= hi
      modifies masm
      ensures masm.code == old(masm.code) + StoreGprs(wide, lo, hi, start) && offset == start + (hi - lo)
    {
      offset := start;
      var i := lo;
      while i < hi
        invariant lo <= i <= hi && offset == start + (i - lo)
        invariant masm.code == old(masm.code) + StoreGprs(wide, lo, i, start)
      {
        masm.Emit(Store(i, Int16(Bytes(wide, offset))));
        offset, i := offset + 1, i + 1;
      }
    }

    method StoreFloats(masm: Assembler, lo: nat, hi: nat, start: nat) returns (offset: nat)
      requires lo <= hi
      modifies masm
      ensures masm.code == old(masm.code) + StoreFprs(wide, lo, hi, start) && offset == start + FprWords(wide, hi - lo)
    {
      offset := start;
      var i := lo;
      while i < hi
        invariant lo <= i <= hi && offset == start + FprWords(wide, i - lo)
        invariant masm.code == old(masm.code) + StoreFprs(wide, lo, i, start)
      {
        masm.Emit(Stfd(i, Int16(Bytes(wide, offset))));
        offset, i := offset + FprWords(wide, 1), i + 1;
      }
    }

    method LoadRegisters(masm: Assembler, lo: nat, hi: nat, start: nat) returns (offset: nat)
      requires lo <= hi
      modifies masm
      ensures masm.code == old(masm.code) + LoadGprs(wide, lo, hi, start) && offset == start + (hi - lo)
    {
      offset := start;
      var i := lo;
      while i < hi
        invariant lo <= i <= hi && offset == start + (i - lo)
        invariant masm.code == old(masm.code) + LoadGprs(wide, lo, i, start)
      {
        masm.Emit(Load(i, Int16(Bytes(wide, offset))));
        offset, i := offset + 1, i + 1;
      }
    }

    method LoadFloats(masm: Assembler, lo: nat, hi: nat, start: nat) returns (offset: nat)
      requires lo <= hi
      modifies masm
      ensures masm.code == old(masm.code) + LoadFprs(wide, lo, hi, start) && offset == start + FprWords(wide, hi - lo)
    {
      offset := start;
      var i := lo;
      while i < hi
        invariant lo <= i <= hi && offset == start + FprWords(wide, i - lo)
        invariant masm.code == old(masm.code) + LoadFprs(wide, lo, i, start)
      {
        masm.Emit(Lfd(i, Int16(Bytes(wide, offset))));
        offset, i := offset + FprWords(wide, 1), i + 1;
      }
    }

    static lemma OneStepPads(l: FrameLayout)
      requires l.UnalignedSize() % STACK_ALIGNMENT != 0
      ensures var l' := l.(locals := l.locals + 1);
        && Padded(l) == Padded(l') && l'.R0Slot() == l.R0Slot() + 1
        && Padding(l'.UnalignedSize()) < Padding(l.UnalignedSize())
    {
      OneMoreLocal(l);
      PaddingShrinks(l.wide, l.UnalignedWords());
      hide Padding, FrameLayout.UnalignedWords;
    }

    method AlignSize()
      requires Valid() && state == DoneNothing
      modifies this
      ensures Sound() && state == DoneNothing && given == old(given)
      ensures Layout() == Padded(old(Layout())) && frameSize == Layout().UnalignedSize()
    {
      hide FrameLayout.UnalignedSize, FrameLayout.R0Slot, Padding, Padded;
      frameSize := Layout().UnalignedSize();
      while frameSize % STACK_ALIGNMENT != 0
        invariant Sound() && state == DoneNothing && given == old(given)
        invariant frameSize == Layout().UnalignedSize() && Padded(Layout()) == Padded(old(Layout()))
        decreases Padding(frameSize)
      {
        OneStepPads(Layout());
        locals := locals + 1;
        frameSize := Layout().UnalignedSize();
      }
      AlignedIsPadded(Layout());
    }

    static lemma AlignedIsPadded(l: FrameLayout)
      requires l.UnalignedSize() % STACK_ALIGNMENT == 0
      ensures Padded(l) == l
    {
    }

    // generate_prolog, in the parts its comments divide it into.  Each is
    // handed the running offset.
    method SaveLinkAndFrame(masm: Assembler, r0Save: int)
      requires Sound() && frameSize == Layout().UnalignedSize() && r0Save == SlotDisp(Layout(), Layout().R0Slot())
      modifies masm
      ensures masm.code == old(masm.code) + PrologFrame(Layout())
    {
      if saveVolatiles {
        masm.Emit(StoreUpdate(1, Int16(-frameSize)));
        masm.Emit(Store(0, r0Save));
        masm.Emit(Mflr(0));
        masm.Emit(Store(0, Int16(frameSize + Layout().LrSave())));
      } else {
        masm.Emit(Mflr(0));
        masm.Emit(Store(0, Int16(Layout().LrSave())));
        masm.Emit(StoreUpdate(1, Int16(-frameSize)));
      }
    }

    method StoreVolatiles(masm: Assembler, start: nat) returns (offset: nat)
      requires Sound() && start == Layout().R0Slot() + 1
      modifies masm
      ensures masm.code == old(masm.code) + PrologVolatiles(Layout()) && offset == Layout().CrSlot()
    {
      hide StoreGprs, StoreFprs, Int16;
      offset := start;
      if saveVolatiles {
        offset := StoreRegisters(masm, 3, 13, offset);
        masm.Emit(Mfctr(0));
        masm.Emit(Store(0, Int16(Bytes(wide, offset))));
        offset := offset + 1;
        offset := StoreFloats(masm, 0, NUM_VFPRS, offset);
      }
    }

    method StoreNonVolatiles(masm: Assembler, start: nat)
      requires Sound() && start == Layout().CrSlot()
      modifies masm
      ensures masm.code == old(masm.code) + PrologSaved(Layout())
    {
      hide StoreGprs, StoreFprs, Int16, FrameLayout.CrSlot;
      var offset := start;
      if crfs > 0 {
        masm.Emit(Mfcr(0));
        if wide {
          masm.Emit(Store(0, Int16(Layout().CrSave())));
        } else {
          masm.Emit(Store(0, Int16(Bytes(wide, offset))));
          offset := offset + 1;
        }
      }
      offset := StoreRegisters(masm, 32 - gprs, 32, offset);
      offset := StoreFloats(masm, 32 - fprs, 32, offset);
    }

    method EmitProlog(masm: Assembler)
      requires Sound() && frameSize == Layout().UnalignedSize()
      modifies masm
      ensures masm.code == old(masm.code) + Prolog(Layout())
    {
      ghost var l, before := Layout(), masm.code;
      hide PrologFrame, PrologVolatiles, PrologSaved, FrameLayout.UnalignedSize, FrameLayout.CrSlot, Sound, Prolog;
      var offset: nat := Layout().LinkAreaWords() + Layout().ParamWords() + locals;
      var r0Save := Int16(Bytes(wide, offset));
      offset := offset + 1;
      SaveLinkAndFrame(masm, r0Save);
      offset := StoreVolatiles(masm, offset);
      StoreNonVolatiles(masm, offset);
      if saveVolatiles {
        masm.Emit(Load(0, r0Save));
      }
      assert masm.code == before + Prolog(l) by {
        PrologInParts(l, before);
      }
    }

    static lemma PrologInParts(l: FrameLayout, before: Code)
      requires ValidLayout(l)
      ensures before + Prolog(l) ==
        before + PrologFrame(l) + PrologVolatiles(l) + PrologSaved(l) + if l.volatiles then [Load(0, SlotDisp(l, l.R0Slot()))] else []
    {
      hide PrologFrame, PrologVolatiles, PrologSaved;
    }

    method GenerateProlog(masm: Assembler)
      requires Valid() && state == DoneNothing
      modifies this, masm
      ensures Valid() && state == DoneProlog && given == old(given)
      ensures Layout() == Padded(old(Layout())) && frameSize == Layout().UnalignedSize()
      ensures masm.code == old(masm.code) + Prolog(Layout())
    {
      hide Padded, Prolog, FrameLayout.UnalignedSize;
      AlignSize();
      EmitProlog(masm);
      state := DoneProlog;
    }

    // generate_epilog, likewise
    method LoadVolatiles(masm: Assembler, start: nat) returns (offset: nat)
      requires Sound() && start == Layout().R0Slot() + 1
      modifies masm
      ensures masm.code == old(masm.code) + EpilogVolatiles(Layout()) && offset == Layout().CrSlot()
    {
      hide LoadGprs, LoadFprs, Int16;
      offset := start;
      if saveVolatiles {
        offset := LoadRegisters(masm, 3, 13, offset);
        masm.Emit(Load(0, Int16(Bytes(wide, offset))));
        offset := offset + 1;
        masm.Emit(Mtctr(0));
        offset := LoadFloats(masm, 0, NUM_VFPRS, offset);
      }
    }

    method LoadNonVolatiles(masm: Assembler, start: nat)
      requires Sound() && start == Layout().CrSlot()
      modifies masm
      ensures masm.code == old(masm.code) + EpilogSaved(Layout())
    {
      hide LoadGprs, LoadFprs, Int16, FrameLayout.CrSlot;
      var offset := start;
      if crfs > 0 {
        if wide {
          masm.Emit(Load(0, Int16(Layout().CrSave())));
        } else {
          masm.Emit(Load(0, Int16(Bytes(wide, offset))));
          offset := offset + 1;
        }
        masm.Emit(Mtcr(0));
      }
      offset := LoadRegisters(masm, 32 - gprs, 32, offset);
      offset := LoadFloats(masm, 32 - fprs, 32, offset);
    }

    method RemoveFrame(masm: Assembler, r0Save: int)
      requires Sound() && frameSize == Layout().UnalignedSize() && r0Save == SlotDisp(Layout(), Layout().R0Slot())
      modifies masm
      ensures masm.code == old(masm.code) + EpilogFrame(Layout())
    {
      if saveVolatiles {
        masm.Emit(Load(0, Int16(frameSize + Layout().LrSave())));
        masm.Emit(Mtlr(0));
        masm.Emit(Load(0, r0Save));
        masm.Emit(Addi(1, 1, Int16(frameSize)));
      } else {
        masm.Emit(Addi(1, 1, Int16(frameSize)));
        masm.Emit(Load(0, Int16(Layout().LrSave())));
        masm.Emit(Mtlr(0));
      }
    }

    method GenerateEpilog(masm: Assembler)
      requires Valid() && state != DoneNothing && frameSize == Layout().UnalignedSize()
      modifies this, masm
      ensures Valid() && state == DoneEpilog && given == old(given) && Layout() == old(Layout())
      ensures frameSize == old(frameSize)
      ensures masm.code == old(masm.code) + Epilog(Layout())
    {
      hide EpilogVolatiles, EpilogSaved, EpilogFrame, FrameLayout.UnalignedSize, FrameLayout.CrSlot;
      var offset: nat := Layout().LinkAreaWords() + Layout().ParamWords() + locals;
      var r0Save := Int16(Bytes(wide, offset));
      offset := offset + 1;
      offset := LoadVolatiles(masm, offset);
      LoadNonVolatiles(masm, offset);
      RemoveFrame(masm, r0Save);
      state := DoneEpilog;
    }
  }
}
