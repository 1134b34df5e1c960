// What StackFrame's prolog and epilog promise together: registers come back
// after any body that respects the frame, after any tree of nested calls, and
// exactly when the frame contains everything it saves.
module StackFrameCalls {
  import opened StackLayout
  import opened StackFrames

  // ---- one frame -----------------------------------------------------

  // The state after the prolog of a frame, a body that takes its state to
  // `after`, and the epilog
  ghost predicate BodyRespects(l: FrameLayout, before: Machine, after: Machine) {
    after.Gpr(1) == before.Gpr(1) && SparesSlots(l, before.Gpr(1), before.mem, after.mem)
  }

  // The frame laid out for any requests: prolog, body, epilog.
  lemma FrameRestores(requested: FrameLayout, m: Machine, after: Machine)
    requires ValidLayout(requested) && Fits(Padded(requested))
    requires BodyRespects(Padded(requested), Exec(requested.wide, Prolog(Padded(requested)), m), after)
    ensures var l := Padded(requested);
      var m' := Exec(l.wide, Epilog(l), after);
      m'.Gpr(1) == m.Gpr(1) && Restored(l, m, after, m')
  {
    PaddedPads(requested);
    OneFrame(Padded(requested), m, after);
  }

  lemma OneFrame(l: FrameLayout, m: Machine, after: Machine)
    requires ValidLayout(l) && Fits(l) && BodyRespects(l, Exec(l.wide, Prolog(l), m), after)
    ensures var m' := Exec(l.wide, Epilog(l), after);
      m'.Gpr(1) == m.Gpr(1) && Restored(l, m, after, m')
  {
    hide Exec, Prolog, Epilog, Held, SparesSlots, FrameLayout.UnalignedSize, ValidLayout, Fits;
    PrologRuns(l, m);
    SparedStayHeld(l, m, after.Gpr(1), Exec(l.wide, Prolog(l), m).mem, after.mem);
    EpilogRuns(l, m, after);
  }

  // ---- what is saved outside the frame -------------------------------

  // The last thing the prolog saves, as far as it reaches the last word
  function LastSaved(l: FrameLayout, m: Machine): int {
    if l.fprs > 0 then (if l.wide then m.Fpr(31) else m.Fpr(31) % TWO32)
    else if l.gprs > 0 then m.Gpr(31)
    else m.cr
  }

  // Without save_volatiles the slot reserved for r0 is not counted in the
  // size of the frame, and the last word saved overwrites the first word of
  // the caller's frame.
  lemma SpillsOntoBackChain(l: FrameLayout, m: Machine)
    requires ValidLayout(l) && Fits(l) && !Contained(l)
    ensures Read(Exec(l.wide, Prolog(l), m).mem, m.Gpr(1)) == LastSaved(l, m)
  {
    var mem, sp, w := Exec(l.wide, Prolog(l), m).mem, m.Gpr(1) - l.UnalignedSize(), l.wide;
    PrologRuns(l, m);
    hide Exec, Prolog, LrHeld, VolatilesHeld, SavedHeld, CallerKept, LastSaved;
    LastSlotHeld(l, m, sp, mem);
    LastSlotIs(l, m.Gpr(1));
  }

  lemma LastSlotIs(l: FrameLayout, r1: int)
    requires ValidLayout(l) && !Contained(l)
    ensures SlotAddr(l.wide, r1 - l.UnalignedSize(), EndSlot(l) - 1) == r1
  {
    SlotOrder(l);
    hide FrameLayout.UnalignedWords, EndSlot;
  }

  lemma LastSlotHeld(l: FrameLayout, m: Machine, sp: int, mem: Memory)
    requires ValidLayout(l) && !Contained(l) && SavedHeld(l, m, sp, mem)
    ensures Read(mem, SlotAddr(l.wide, sp, EndSlot(l) - 1)) == LastSaved(l, m)
  {
    var w := l.wide;
    SlotOrder(l);
    if l.fprs > 0 {
      assert HoldsDouble(w, mem, FprAddr(w, sp, l.FprSlot(), 31 - (32 - l.fprs)), Read(m.fpr, 31));
    } else if l.gprs > 0 {
      assert Read(mem, SlotAddr(w, sp, l.GprSlot() + (31 - (32 - l.gprs)))) == Read(m.gpr, 31);
    }
  }

  ghost predicate KeepsBackChain(l: FrameLayout, m: Machine)
    requires ValidLayout(l)
  {
    Read(Exec(l.wide, Prolog(l), m).mem, m.Gpr(1)) == Read(m.mem, m.Gpr(1))
  }

  // So the prolog keeps the caller's back chain in every state exactly when it
  // saves the volatile registers or has nothing else to save.
  lemma ContainedIff(l: FrameLayout)
    requires ValidLayout(l) && Fits(l)
    ensures Contained(l) <==> forall m :: KeepsBackChain(l, m)
  {
    if Contained(l) {
      forall m ensures KeepsBackChain(l, m) { ContainedKeeps(l, m); }
    } else {
      var m := Machine(map[], map[], 0, 0, 0, map[0 := 1]);
      assert m.Gpr(1) == 0 && Read(m.mem, 0) == 1 && LastSaved(l, m) == 0;
      SpillsOntoBackChain(l, m);
      assert !KeepsBackChain(l, m);
    }
  }

  lemma ContainedKeeps(l: FrameLayout, m: Machine)
    requires ValidLayout(l) && Fits(l) && Contained(l)
    ensures KeepsBackChain(l, m)
  {
    PrologRuns(l, m);
    FrameGeometry(l, m.Gpr(1) - l.UnalignedSize());
    SlotOrder(l);
    assert l.LrSave() > 0;
    hide Exec, Prolog, Held, FrameLayout.UnalignedSize, FrameLayout.LrSave, SlotAddr;
  }

  // ---- any tree of calls ---------------------------------------------

  // What the body of a frame does: steps of its own, each given by the state
  // it leaves, and calls, which set LR and run the callee's prolog, body and
  // epilog.
  datatype Act =
    | Compute(result: Machine)
    | Call(callee: FrameLayout, lr: int, body: seq<Act>)

  function After(acts: seq<Act>, m: Machine): Machine {
    if acts == [] then m else After(acts[1..], AfterAct(acts[0], m))
  }

  function AfterAct(act: Act, m: Machine): Machine {
    match act
    case Compute(result) => result
    case Call(l, lr, body) =>
      if ValidLayout(l) then Exec(l.wide, Epilog(l), After(body, Exec(l.wide, Prolog(l), m.(lr := lr)))) else m
  }

  // The registers a callee must hand back: r2, r13 and the non-volatile ones
  predicate Preserved(i: int) { i == 1 || i == 2 || 13 <= i < 32 }
  predicate PreservedFpr(i: int) { 14 <= i < 32 }

  // The memory a body may write: below the stack pointer, in its parameter and
  // local slots, and off the stack, which ends at top
  predicate MayWrite(l: FrameLayout, sp: int, top: int, a: int) {
    a < sp || a >= top || SlotAddr(l.wide, sp, l.LinkAreaWords()) <= a < SlotAddr(l.wide, sp, l.R0Slot())
  }

  ghost predicate OwnStep(l: FrameLayout, top: int, m: Machine, m': Machine) {
    && (forall i :: Preserved(i) && !(32 - l.gprs <= i < 32) ==> m'.Gpr(i) == m.Gpr(i))
    && (forall i :: PreservedFpr(i) && !(32 - l.fprs <= i < 32) ==> m'.Fpr(i) == m.Fpr(i))
    && (forall a :: !MayWrite(l, m.Gpr(1), top, a) ==> Read(m'.mem, a) == Read(m.mem, a))
  }

  // Every step of the body, and of the bodies of its callees, keeps to that.
  ghost predicate Obeys(l: FrameLayout, acts: seq<Act>, m: Machine, top: int)
    decreases acts
  {
    acts == [] || (ActObeys(l, acts[0], m, top) && Obeys(l, acts[1..], AfterAct(acts[0], m), top))
  }

  ghost predicate ActObeys(l: FrameLayout, act: Act, m: Machine, top: int)
    decreases act
  {
    match act
    case Compute(result) => OwnStep(l, top, m, result)
    case Call(callee, lr, body) =>
      && callee.wide == l.wide && ValidLayout(callee) && Fits(callee)
      && Obeys(callee, body, Exec(callee.wide, Prolog(callee), m.(lr := lr)), top)
  }

  // What a body, or a part of one, leaves of its own frame and of everything
  // above it.  A callee may have written its LR, or what its own frame does
  // not contain, into this frame's link area.
  ghost predicate BodyKeeps(l: FrameLayout, top: int, m: Machine, m': Machine) {
    && (forall i :: Preserved(i) && !(32 - l.gprs <= i < 32) ==> m'.Gpr(i) == m.Gpr(i))
    && (forall i :: PreservedFpr(i) && !(32 - l.fprs <= i < 32) ==> m'.Fpr(i) == m.Fpr(i))
    && MemoryKept(l, m.Gpr(1), top, m.mem, m'.mem)
  }

  ghost predicate MemoryKept(l: FrameLayout, sp: int, top: int, mem: Memory, mem': Memory) {
    forall a :: SlotAddr(l.wide, sp, 1) <= a < top && a != SlotAddr(l.wide, sp, LrWord(l)) && !MayWrite(l, sp, top, a)
      ==> Read(mem', a) == Read(mem, a)
  }

  // What a call leaves of its caller's frame and of everything above it
  ghost predicate CallKeeps(l: FrameLayout, lr: int, top: int, m: Machine, m': Machine) {
    && (forall i :: Preserved(i) ==> m'.Gpr(i) == m.Gpr(i))
    && (forall i :: PreservedFpr(i) ==> m'.Fpr(i) == m.Fpr(i))
    && m'.lr == lr && (l.crfs > 0 ==> m'.cr == m.cr)
    && (l.volatiles ==>
          && m'.ctr == m.ctr
          && (forall i :: 0 <= i < 32 ==> m'.Gpr(i) == m.Gpr(i))
          && (forall i :: 0 <= i < 32 ==> m'.Fpr(i) == m.Fpr(i)))
    && CallersMemoryKept(l, top, m.Gpr(1), m.mem, m'.mem)
  }

  ghost predicate CallersMemoryKept(l: FrameLayout, top: int, r1: int, mem: Memory, mem': Memory) {
    forall a :: SlotAddr(l.wide, r1, if Contained(l) then 0 else 1) <= a < top && a != SlotAddr(l.wide, r1, LrWord(l))
      ==> Read(mem', a) == Read(mem, a)
  }

  lemma BodyKeepsTrans(l: FrameLayout, top: int, m: Machine, m1: Machine, m2: Machine)
    requires ValidLayout(l) && BodyKeeps(l, top, m, m1) && BodyKeeps(l, top, m1, m2)
    ensures BodyKeeps(l, top, m, m2)
  {
    assert Preserved(1) && m1.Gpr(1) == m.Gpr(1);
    hide SlotAddr, MayWrite, LrWord;
  }

  // There is room below top for the frame and the caller's link area.
  predicate RoomBelow(l: FrameLayout, sp: int, top: int) {
    SlotAddr(l.wide, sp, l.UnalignedWords() + LrWord(l) + 1) <= top
  }

  lemma KeptSparesSlots(l: FrameLayout, sp: int, top: int, mem: Memory, mem': Memory)
    requires ValidLayout(l) && RoomBelow(l, sp, top) && MemoryKept(l, sp, top, mem, mem')
    ensures SparesSlots(l, sp, mem, mem')
  {
    var w := l.wide;
    SlotOrder(l);
    forall a | SlotAddr(w, sp, l.R0Slot()) <= a < SlotAddr(w, sp, l.UnalignedWords() + LrWord(l) + 1)
      ensures Read(mem', a) == Read(mem, a)
    {
      assert SlotAddr(w, sp, LrWord(l)) < SlotAddr(w, sp, l.R0Slot());
    }
    if l.crfs > 0 {
      assert w ==> CrWord(l) == 1;
      assert !w ==> l.R0Slot() <= CrWord(l) < l.UnalignedWords() + LrWord(l) + 1;
      assert !MayWrite(l, sp, top, SlotAddr(w, sp, CrWord(l)));
    }
  }

  lemma {:induction false} BodyRuns(l: FrameLayout, acts: seq<Act>, m: Machine, top: int)
    requires ValidLayout(l) && RoomBelow(l, m.Gpr(1), top) && Obeys(l, acts, m, top)
    ensures BodyKeeps(l, top, m, After(acts, m))
    decreases acts, 1
  {
    hide BodyKeeps, RoomBelow;
    if acts == [] {
      assert BodyKeeps(l, top, m, m) by { NothingKeeps(l, top, m); }
    } else {
      var m1 := AfterAct(acts[0], m);
      ActRuns(l, acts[0], m, top);
      SamePointer(l, top, m, m1);
      BodyRuns(l, acts[1..], m1, top);
      BodyKeepsTrans(l, top, m, m1, After(acts[1..], m1));
    }
  }

  lemma NothingKeeps(l: FrameLayout, top: int, m: Machine)
    ensures BodyKeeps(l, top, m, m)
  {
  }

  lemma SamePointer(l: FrameLayout, top: int, m: Machine, m': Machine)
    requires ValidLayout(l) && BodyKeeps(l, top, m, m')
    ensures m'.Gpr(1) == m.Gpr(1)
  {
    assert Preserved(1);
  }

  lemma {:induction false} ActRuns(l: FrameLayout, act: Act, m: Machine, top: int)
    requires ValidLayout(l) && RoomBelow(l, m.Gpr(1), top) && ActObeys(l, act, m, top)
    ensures BodyKeeps(l, top, m, AfterAct(act, m))
    decreases act, 0
  {
    match act
    case Compute(result) =>
    case Call(callee, lr, body) =>
      CallsRestore(callee, lr, body, m, top);
      CallIsStep(l, callee, lr, top, m, AfterAct(act, m));
  }

  lemma CallIsStep(l: FrameLayout, callee: FrameLayout, lr: int, top: int, m: Machine, m': Machine)
    requires callee.wide == l.wide && CallKeeps(callee, lr, top, m, m')
    ensures BodyKeeps(l, top, m, m')
  {
  }

  // Whatever the body of a frame computes and calls, to any depth, a call
  // hands back r1, LR and every register its caller may rely on, and what it
  // changes of its caller's frame is at most two words of the link area.
  lemma {:induction false} CallsRestore(callee: FrameLayout, lr: int, body: seq<Act>, m: Machine, top: int)
    requires ValidLayout(callee) && Fits(callee)
    requires SlotAddr(callee.wide, m.Gpr(1), LrWord(callee) + 1) <= top
    requires Obeys(callee, body, Exec(callee.wide, Prolog(callee), m.(lr := lr)), top)
    ensures CallKeeps(callee, lr, top, m, AfterAct(Call(callee, lr, body), m))
    decreases body, 2
  {
    var m0 := m.(lr := lr);
    var m1 := Exec(callee.wide, Prolog(callee), m0);
    var m2 := After(body, m1);
    PrologRuns(callee, m0);
    RoomForFrame(callee, m.Gpr(1), top);
    BodyRuns(callee, body, m1, top);
    SamePointer(callee, top, m1, m2);
    KeptSparesSlots(callee, m1.Gpr(1), top, m1.mem, m2.mem);
    OneFrame(callee, m0, m2);
    var m3 := Exec(callee.wide, Epilog(callee), m2);
    CallKept(callee, lr, top, m, m1, m2, m3);
  }

  lemma RoomForFrame(l: FrameLayout, r1: int, top: int)
    requires SlotAddr(l.wide, r1, LrWord(l) + 1) <= top
    ensures RoomBelow(l, r1 - l.UnalignedSize(), top)
  {
    hide FrameLayout.UnalignedWords;
  }

  lemma CallKept(l: FrameLayout, lr: int, top: int, m: Machine, m1: Machine, m2: Machine, m3: Machine)
    requires ValidLayout(l) && Prologued(l, m.(lr := lr), m1) && BodyKeeps(l, top, m1, m2)
    requires Restored(l, m.(lr := lr), m2, m3) && m3.Gpr(1) == m.Gpr(1)
    ensures CallKeeps(l, lr, top, m, m3)
  {
    hide Held, CallerKept, MemoryKept, CallersMemoryKept, FrameLayout.UnalignedSize;
    var r1 := m.Gpr(1);
    assert m1.Gpr(1) == r1 - l.UnalignedSize();
    CallersMemoryStays(l, top, r1, m.mem, m1.mem, m2.mem);
    forall i | Preserved(i) ensures m3.Gpr(i) == m.Gpr(i) {
      if i == 1 {
      } else if RestoredGpr(l, i) {
      } else {
        assert m3.Gpr(i) == m2.Gpr(i) == m1.Gpr(i);
      }
    }
    forall i | PreservedFpr(i) ensures m3.Fpr(i) == m.Fpr(i) {
      if !RestoredFpr(l, i) {
        assert m3.Fpr(i) == m2.Fpr(i) == m1.Fpr(i);
      }
    }
    if l.volatiles {
      forall i | 0 <= i < 32 ensures m3.Gpr(i) == m.Gpr(i) { assert RestoredGpr(l, i) || Preserved(i); }
      forall i | 0 <= i < 32 ensures m3.Fpr(i) == m.Fpr(i) { assert RestoredFpr(l, i) || PreservedFpr(i); }
    }
  }

  lemma CallersMemoryStays(l: FrameLayout, top: int, r1: int, mem: Memory, mem1: Memory, mem2: Memory)
    requires ValidLayout(l)
    requires CallerKept(l, r1 - l.UnalignedSize(), mem, mem1) && MemoryKept(l, r1 - l.UnalignedSize(), top, mem1, mem2)
    ensures CallersMemoryKept(l, top, r1, mem, mem2)
  {
    var w, sp := l.wide, r1 - l.UnalignedSize();
    FrameGeometry(l, sp);
    SlotOrder(l);
    var end := if Contained(l) then 0 else 1;
    assert SlotAddr(w, r1, end) == SlotAddr(w, sp, FrameEnd(l));
    assert SlotAddr(w, r1, LrWord(l)) == SlotAddr(w, sp, l.UnalignedWords() + LrWord(l));
    assert SlotAddr(w, sp, LrWord(l)) < SlotAddr(w, sp, l.R0Slot()) <= SlotAddr(w, r1, end) && SlotAddr(w, sp, 1) <= SlotAddr(w, r1, end);
    hide SlotAddr, FrameEnd, Contained, FrameLayout.UnalignedSize, FrameLayout.R0Slot, LrWord, FrameLayout.UnalignedWords, FrameLayout.LinkAreaWords;
    forall a | SlotAddr(w, r1, end) <= a < top && a != SlotAddr(w, r1, LrWord(l)) ensures Read(mem2, a) == Read(mem, a) {
      assert Read(mem1, a) == Read(mem, a);
      assert !MayWrite(l, sp, top, a);
    }
  }
}
