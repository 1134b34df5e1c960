// generate_call_stub: the code that calls into the interpreter, instruction by
// instruction, and what it hands back to its own caller after any run of the
// frame manager in between.  Volatile registers are local variables.
module CallStub {
  import opened StackLayout
  import opened FrameManager
  import opened FrameManagerRuns

  type Registers = map<int, int>

  datatype State = State(r1: int, lr: int, cr: int, gpr: Registers, mem: Memory)

  // r3 to r6, r8 to r10
  datatype Args = Args(callWrapper: int, result: int, resultType: int, method_: int, parameters: int, words: nat, thread: int)

  const RTHREAD := 31
  const RMETHOD := 30
  const RLOCALS := 29

  const T_INT := 10
  const T_LONG := 11
  const T_OBJECT := 12

  // The stub's own offsets, in words from Rlocals
  const INITIAL_OFFSET := 1
  function CrOffset(): nat { INITIAL_OFFSET + 3 }
  function RegisterOffset(c: Layout): nat { if c.wide then CrOffset() else CrOffset() + 1 }
  function FinalOffset(c: Layout): nat { RegisterOffset(c) + 18 }

  // call_stub_base_size: a StackFrame with every CR field and register taken,
  // and the three extra words
  function BaseSize(c: Layout): int {
    c.Bytes(c.LinkAreaWords() + c.MinParams() + (if c.wide then 0 else 1) + 18) + c.Bytes(3)
  }

  function FrameSize(c: Layout, words: nat): int {
    c.Bytes(words) + BaseSize(c) + Padding(c.Bytes(words) + BaseSize(c))
  }

  // set_call_wrapper_offset
  function CallWrapperOffset(c: Layout): int { c.Bytes(FinalOffset(c) - INITIAL_OFFSET) }

  // ---- what the stub promises ----------------------------------------

  // The caller's parameters are not in the frame about to be made.
  ghost predicate ParametersClear(c: Layout, r1: int, a: Args) {
    forall i :: 0 <= i < a.words ==>
      var p := a.parameters + c.Bytes(i); (p < r1 - FrameSize(c, a.words) || p >= r1) && p != r1 + c.LrSave()
  }

  // What the frame holds of s, with Rlocals where the callee leaves it
  ghost predicate Saved(c: Layout, s: State, a: Args, mem: Memory) {
    var locals := s.r1 - c.Bytes(FinalOffset(c));
    && Read(mem, s.r1 + c.LrSave()) == s.lr
    && Read(mem, locals + c.Bytes(1)) == a.callWrapper
    && Read(mem, locals + c.Bytes(2)) == a.result
    && Read(mem, locals + c.Bytes(3)) == a.resultType
    && (!c.wide ==> Read(mem, locals + c.Bytes(CrOffset())) == s.cr)
    && RegistersAt(c, locals + c.Bytes(RegisterOffset(c)), s.gpr, mem)
  }

  ghost predicate RegistersAt(c: Layout, at: int, gpr: Registers, mem: Memory) {
    forall k :: 14 <= k < 32 ==> Read(mem, at + c.Bytes(k - 14)) == Read(gpr, k)
  }

  ghost predicate ParametersAt(c: Layout, a: Args, locals: int, from: Memory, mem: Memory) {
    forall i :: 0 <= i < a.words ==> Read(mem, locals - c.Bytes(i)) == Read(from, a.parameters + c.Bytes(i))
  }

  // At the call, s' is what s has become.
  ghost predicate Called(c: Layout, s: State, a: Args, s': State) {
    var locals := s.r1 - c.Bytes(FinalOffset(c));
    && s'.r1 == s.r1 - FrameSize(c, a.words) && s'.r1 % STACK_ALIGNMENT == 0
    && Read(s'.mem, s'.r1) == s.r1
    && (c.wide ==> Read(s'.mem, s'.r1 + c.CrSave()) == s.cr)
    && Saved(c, s, a, s'.mem)
    && ParametersAt(c, a, locals, s.mem, s'.mem)
    && Read(s'.gpr, 29) == locals && Read(s'.gpr, 30) == a.method_ && Read(s'.gpr, 31) == a.thread
    && (forall x :: (x < s'.r1 || x >= s.r1) && x != s.r1 + c.LrSave() ==> Read(s'.mem, x) == Read(s.mem, x))
  }

  // On return from the call the stub finds its frame, perhaps extended, by its
  // back chain.
  ghost predicate FrameFound(c: Layout, s: State, a: Args, s': State) {
    && s'.r1 <= s.r1 - FrameSize(c, a.words)
    && Read(s'.mem, s'.r1) == s.r1
    && (c.wide ==> Read(s'.mem, s'.r1 + c.CrSave()) == s.cr)
    && Saved(c, s, a, s'.mem)
  }

  // The caller's state, as the stub gives it back
  ghost predicate HandedBack(c: Layout, s: State, s': State) {
    && s'.r1 == s.r1 && s'.lr == s.lr && s'.cr == s.cr
    && forall k :: 14 <= k < 32 ==> Read(s'.gpr, k) == Read(s.gpr, k)
  }

  function StoredResult(c: Layout, a: Args, r3: int, r4: int, mem: Memory): Memory {
    if a.resultType == T_LONG && !c.wide then mem[a.result + c.WordSize() := r4][a.result := r3]
    else mem[a.result := r3]
  }

  // The place of the result holds it, the two words of a long on PPC32 as they
  // came in r3 and r4, and nothing else has changed.
  ghost predicate ResultStored(c: Layout, a: Args, r3: int, r4: int, mem: Memory, mem': Memory) {
    && Read(mem', a.result) == r3
    && (a.resultType == T_LONG && !c.wide ==> Read(mem', a.result + 4) == r4)
    && forall x :: x != a.result && !(a.resultType == T_LONG && !c.wide && x == a.result + 4) ==> Read(mem', x) == Read(mem, x)
  }

  // The result is stored clear of what is still to be restored.
  predicate ResultClear(c: Layout, s: State, r1: int, a: Args) {
    var size := if a.resultType == T_LONG && !c.wide then c.Bytes(2) else c.Bytes(1);
    a.result + size <= r1 || a.result > s.r1 + c.LrSave()
  }

  // ---- the code ------------------------------------------------------

  class Stub {
    const c: Layout
    const pendingException: int      // Thread::pending_exception_offset()
    var r1: int
    var lr: int
    var cr: int
    var gpr: Registers
    var mem: Memory

    constructor (c: Layout, pendingException: int, s: State)
      ensures this.c == c && this.pendingException == pendingException && Now() == s
    {
      this.c, this.pendingException := c, pendingException;
      r1, lr, cr, gpr, mem := s.r1, s.lr, s.cr, s.gpr, s.mem;
    }

    function Now(): State
      reads this
    {
      State(r1, lr, cr, gpr, mem)
    }

    method SaveRegisters(at: int)
      modifies `mem
      ensures RegistersStored(c, at, gpr, old(mem), mem)
    {
      var i := 14;
      while i < 32
        invariant 14 <= i <= 32
        invariant forall k :: 14 <= k < i ==> Read(mem, at + c.Bytes(k - 14)) == Read(gpr, k)
        invariant forall x :: x < at || x >= at + c.Bytes(i - 14) ==> Read(mem, x) == Read(old(mem), x)
      {
        mem := mem[at + c.Bytes(i - 14) := Read(gpr, i)];
        i := i + 1;
      }
    }

    method LoadRegisters(at: int)
      modifies `gpr
      ensures RegistersAt(c, at, gpr, mem)
      ensures forall k :: k < 14 || k >= 32 ==> Read(gpr, k) == Read(old(gpr), k)
    {
      var i := 14;
      while i < 32
        invariant 14 <= i <= 32
        invariant forall k :: 14 <= k < i ==> Read(mem, at + c.Bytes(k - 14)) == Read(gpr, k)
        invariant forall k :: k < 14 || k >= 32 ==> Read(gpr, k) == Read(old(gpr), k)
      {
        ghost var before := gpr;
        gpr := gpr[i := Read(mem, at + c.Bytes(i - 14))];
        assert forall k :: k != i ==> Read(gpr, k) == Read(before, k);
        i := i + 1;
      }
    }

    method PassParameters(a: Args, locals: int)
      requires forall i :: 0 <= i < a.words ==>
        a.parameters + c.Bytes(i) <= locals - c.Bytes(a.words) || a.parameters + c.Bytes(i) > locals
      modifies `mem
      ensures ParametersStored(c, a, locals, old(mem), mem)
    {
      var parameterBytes := c.Bytes(a.words);
      if parameterBytes <= 0 { return; }        // compare; ble done
      var src, dst := a.parameters, locals;     // mr
      var ctr := a.words;                       // shift_right; mtctr
      ghost var done := 0;
      while true
        invariant done + ctr == a.words && 0 < ctr
        invariant src == a.parameters + c.Bytes(done) && dst == locals - c.Bytes(done)
        invariant forall i :: 0 <= i < done ==> Read(mem, locals - c.Bytes(i)) == Read(old(mem), a.parameters + c.Bytes(i))
        invariant forall x :: x <= locals - c.Bytes(done) || x > locals ==> Read(mem, x) == Read(old(mem), x)
        decreases ctr
      {
        mem := mem[dst := Read(mem, src)];
        src := src + c.WordSize();
        dst := dst - c.WordSize();
        ctr := ctr - 1;
        done := done + 1;
        if ctr == 0 { break; }                  // bdnz
      }
    }

    method MakeFrame(frameSize: int)
      requires 0 < frameSize
      modifies `r1, `mem
      ensures r1 == old(r1) - frameSize && HeaderStored(c, old(Now()), r1, mem)
    {
      var r0 := lr;                                             // mflr
      mem := mem[r1 + c.LrSave() := r0];
      r0 := -frameSize;                                         // neg
      mem := mem[r1 + r0 := r1];                                // store_update_indexed
      r1 := r1 + r0;
      if c.wide {
        r0 := cr;                                               // mfcr
        mem := mem[r1 + c.CrSave() := r0];
      }
    }

    method StoreResultWords(a: Args, locals: int) returns (offset: nat)
      modifies `mem
      ensures offset == RegisterOffset(c) && WordsStored(c, cr, a, locals, old(mem), mem)
    {
      offset := INITIAL_OFFSET;
      mem := mem[locals + c.Bytes(offset) := a.callWrapper];
      offset := offset + 1;
      mem := mem[locals + c.Bytes(offset) := a.result];
      offset := offset + 1;
      mem := mem[locals + c.Bytes(offset) := a.resultType];
      offset := offset + 1;
      if !c.wide {
        var r0 := cr;                                           // mfcr
        mem := mem[locals + c.Bytes(offset) := r0];
        offset := offset + 1;
      }
    }

    // Everything up to bctrl, which leaves the return address in LR
    method BeforeCall(a: Args, returnAddress: int)
      requires r1 % STACK_ALIGNMENT == 0 && ParametersClear(c, r1, a)
      modifies this
      ensures Called(c, old(Now()), a, Now()) && lr == returnAddress
    {
      ghost var s := Now();
      FrameShape(c, r1, a.words);
      hide Called, HeaderStored, WordsStored, RegistersStored, ParametersStored, RegistersAt, ParametersAt, ParametersClear, FrameSize, FinalOffset, RegisterOffset, Stages;
      var parameterBytes := c.Bytes(a.words);                   // shift_left
      var frameSize := parameterBytes + BaseSize(c);            // addi
      var padding := Padding(frameSize);                        // calc_padding_for_alignment
      frameSize := frameSize + padding;                         // add
      MakeFrame(frameSize);
      ghost var mem1 := mem;
      var locals := r1 + (c.EmptyFrameSize() - c.WordSize());   // addi
      locals := locals + padding;                               // add
      locals := locals + parameterBytes;                        // add
      var offset := StoreResultWords(a, locals);
      ghost var mem2 := mem;
      SaveRegisters(locals + c.Bytes(offset));
      ghost var mem3 := mem;
      ParametersOutside(c, s.r1, a);
      PassParameters(a, locals);
      gpr := gpr[RMETHOD := a.method_][RLOCALS := locals][RTHREAD := a.thread];  // mr
      lr := returnAddress;                                      // mtctr; bctrl
      hide BaseSize;
      AllStages(c, s, a, mem1, mem2, mem3, mem);
      CallIsReady(c, s, a, mem1, mem2, mem3, Now());
    }

    method StoreResult(ghost a: Args, resultAddr: int, resultType: int, r3: int, r4: int)
      requires resultType in {T_INT, T_LONG, T_OBJECT} && resultAddr == a.result && resultType == a.resultType
      modifies `mem
      ensures mem == StoredResult(c, a, r3, r4, old(mem))
    {
      if resultType == T_INT {                                  // compare; beq is_int
        mem := mem[resultAddr := r3];                           // stw
      } else if resultType == T_LONG {
        if !c.wide {
          mem := mem[resultAddr + c.WordSize() := r4];
        }
        mem := mem[resultAddr := r3];
      } else {
        mem := mem[resultAddr := r3];
      }
    }

    // Everything after bctrl, where the callee left its result in r3 and r4.
    // Without a pending exception the type is one should_not_reach_here lets by.
    method AfterCall(ghost s: State, ghost a: Args, r3: int, r4: int)
      requires FrameFound(c, s, a, Now())
      requires !Pending() ==> a.resultType in {T_INT, T_LONG, T_OBJECT} && ResultClear(c, s, r1, a)
      modifies this
      ensures HandedBack(c, s, Now())
      ensures if old(Pending()) then mem == old(mem) else ResultStored(c, a, r3, r4, old(mem), mem)
      ensures forall k :: k < 14 || k >= 32 ==> Read(gpr, k) == Read(old(gpr), k)
    {
      FrameShape(c, s.r1, a.words);
      ghost var was := Now();
      hide FrameSize, RegistersAt, ResultStored;
      var locals := Read(mem, r1);                              // load; subi
      locals := locals - c.Bytes(FinalOffset(c));
      var r0 := Read(mem, Read(gpr, RTHREAD) + pendingException);
      if r0 == 0 {                                              // compare; bne exit
        var offset := INITIAL_OFFSET + 1;
        var resultAddr := Read(mem, locals + c.Bytes(offset));
        offset := offset + 1;
        var resultType := Read(mem, locals + c.Bytes(offset));
        StoreResult(a, resultAddr, resultType, r3, r4);
        ResultIsStored(c, a, r3, r4, was.mem);
        ResultKeepsFrame(c, s, a, was, r3, r4);
      }
      assert FrameFound(c, s, a, Now());
      if !c.wide {
        r0 := Read(mem, locals + c.Bytes(CrOffset()));
        cr := r0;                                               // mtcr
      }
      LoadRegisters(locals + c.Bytes(RegisterOffset(c)));
      if c.wide {
        r0 := Read(mem, r1 + c.CrSave());
        cr := r0;                                               // mtcr
      }
      r1 := Read(mem, r1);
      r0 := Read(mem, r1 + c.LrSave());
      lr := r0;                                                 // mtlr; blr
      RegistersAgree(c, locals + c.Bytes(RegisterOffset(c)), s.gpr, gpr, mem);
    }

    // The whole stub around a run of the frame manager: run is what the callee
    // makes of the state at the call, and back the state in which it returns.
    method Call(a: Args, returnAddress: int, ghost ms: Methods, ghost entry: State -> Cpu, ghost run: State -> seq<System>, back: State -> State)
      requires r1 % STACK_ALIGNMENT == 0 && ParametersClear(c, r1, a)
      requires FrameManager.ValidLayout(c) && ValidMethods(ms)
      requires forall s1 :: Called(c, Now(), a, s1) && s1.lr == returnAddress ==>
        && CallReturns(c, ms, a, s1, entry(s1), run(s1), back(s1), pendingException)
        && ResultFits(c, Now(), a, back(s1), pendingException)
      modifies this
      ensures HandedBack(c, old(Now()), Now())
      ensures exists s1 :: Called(c, old(Now()), a, s1) && ResultOf(c, ms, a, run(s1), back(s1), pendingException, mem)
    {
      ghost var s := Now();
      hide ResultStored, ResultIsTop, ResultHanded, Called, ParametersClear, CallReturns, ResultFits, FrameFound, HandedBack, StoredResult, Run, FrameSize;
      BeforeCall(a, returnAddress);
      ghost var s1 := Now();
      var s2 := back(Now());
      r1, lr, cr, gpr, mem := s2.r1, s2.lr, s2.cr, s2.gpr, s2.mem;  // bctrl
      CallKeepsFrame(c, ms, s, a, s1, entry(s1), run(s1), s2, pendingException);
      if !Pending() {
        ResultMayBeStored(c, s, a, s2, pendingException);
      }
      AfterCall(s, a, Read(gpr, 3), Read(gpr, 4));
      if !Excepted(s2, pendingException) {
        TopIsStored(c, ms, a, run(s1), s2, mem);
      }
      assert Called(c, s, a, s1) && ResultOf(c, ms, a, run(s1), back(s1), pendingException, mem);
    }

    predicate Pending()
      reads this
    {
      Read(mem, Read(gpr, RTHREAD) + pendingException) != 0
    }
  }

  // ---- why the frame is as promised ----------------------------------

  ghost predicate HeaderStored(c: Layout, s: State, r1: int, mem: Memory) {
    && Read(mem, s.r1 + c.LrSave()) == s.lr
    && Read(mem, r1) == s.r1
    && (c.wide ==> Read(mem, r1 + c.CrSave()) == s.cr)
    && forall x :: x != r1 && x != r1 + c.CrSave() && x != s.r1 + c.LrSave() ==> Read(mem, x) == Read(s.mem, x)
  }

  ghost predicate WordsStored(c: Layout, cr: int, a: Args, locals: int, before: Memory, mem: Memory) {
    && Read(mem, locals + c.Bytes(1)) == a.callWrapper
    && Read(mem, locals + c.Bytes(2)) == a.result
    && Read(mem, locals + c.Bytes(3)) == a.resultType
    && (!c.wide ==> Read(mem, locals + c.Bytes(CrOffset())) == cr)
    && forall x :: x <= locals || x >= locals + c.Bytes(RegisterOffset(c)) ==> Read(mem, x) == Read(before, x)
  }

  ghost predicate RegistersStored(c: Layout, at: int, gpr: Registers, before: Memory, mem: Memory) {
    && RegistersAt(c, at, gpr, mem)
    && forall x :: x < at || x >= at + c.Bytes(18) ==> Read(mem, x) == Read(before, x)
  }

  ghost predicate ParametersStored(c: Layout, a: Args, locals: int, before: Memory, mem: Memory) {
    && ParametersAt(c, a, locals, before, mem)
    && forall x :: x <= locals - c.Bytes(a.words) || x > locals ==> Read(mem, x) == Read(before, x)
  }

  // The locals end where the frame ends, whatever the padding, and the last
  // parameter is clear of the link area.
  lemma FrameShape(c: Layout, r1: int, words: nat)
    ensures 0 < FrameSize(c, words) == c.Bytes(words) + BaseSize(c) + Padding(c.Bytes(words) + BaseSize(c))
    ensures var locals := r1 - c.Bytes(FinalOffset(c));
      && locals == r1 - FrameSize(c, words) + c.EmptyFrameSize() - c.WordSize() + Padding(c.Bytes(words) + BaseSize(c)) + c.Bytes(words)
      && r1 - FrameSize(c, words) + c.EmptyFrameSize() - c.WordSize() <= locals - c.Bytes(words)
      && locals + c.Bytes(RegisterOffset(c)) + c.Bytes(18) == r1
      && (r1 % STACK_ALIGNMENT == 0 ==> (r1 - FrameSize(c, words)) % STACK_ALIGNMENT == 0)
  {
    var size := c.Bytes(words) + BaseSize(c);
    assert FrameSize(c, words) % STACK_ALIGNMENT == 0;
    assert c.Bytes(FinalOffset(c)) + c.EmptyFrameSize() - c.WordSize() == BaseSize(c);
  }

  lemma ParametersOutside(c: Layout, r1: int, a: Args)
    requires ParametersClear(c, r1, a)
    ensures forall i :: 0 <= i < a.words ==> var locals := r1 - c.Bytes(FinalOffset(c));
      a.parameters + c.Bytes(i) <= locals - c.Bytes(a.words) || a.parameters + c.Bytes(i) > locals
  {
    FrameShape(c, r1, a.words);
    hide FrameSize;
  }

  ghost predicate Stages(c: Layout, s: State, a: Args, mem1: Memory, mem2: Memory, mem3: Memory, mem4: Memory) {
    var r1, locals := s.r1 - FrameSize(c, a.words), s.r1 - c.Bytes(FinalOffset(c));
    && HeaderStored(c, s, r1, mem1)
    && WordsStored(c, s.cr, a, locals, mem1, mem2)
    && RegistersStored(c, locals + c.Bytes(RegisterOffset(c)), s.gpr, mem2, mem3)
    && ParametersStored(c, a, locals, mem3, mem4)
  }

  lemma AllStages(c: Layout, s: State, a: Args, mem1: Memory, mem2: Memory, mem3: Memory, mem4: Memory)
    requires HeaderStored(c, s, s.r1 - FrameSize(c, a.words), mem1)
    requires WordsStored(c, s.cr, a, s.r1 - c.Bytes(FinalOffset(c)), mem1, mem2)
    requires RegistersStored(c, s.r1 - c.Bytes(FinalOffset(c)) + c.Bytes(RegisterOffset(c)), s.gpr, mem2, mem3)
    requires ParametersStored(c, a, s.r1 - c.Bytes(FinalOffset(c)), mem3, mem4)
    ensures Stages(c, s, a, mem1, mem2, mem3, mem4)
  {
    hide HeaderStored, WordsStored, RegistersStored, ParametersStored, FrameSize;
  }

  lemma CallIsReady(c: Layout, s: State, a: Args, mem1: Memory, mem2: Memory, mem3: Memory, s': State)
    requires Stages(c, s, a, mem1, mem2, mem3, s'.mem) && ParametersClear(c, s.r1, a) && s.r1 % STACK_ALIGNMENT == 0
    requires s'.r1 == s.r1 - FrameSize(c, a.words)
    requires Read(s'.gpr, RLOCALS) == s.r1 - c.Bytes(FinalOffset(c)) && Read(s'.gpr, RMETHOD) == a.method_ && Read(s'.gpr, RTHREAD) == a.thread
    ensures Called(c, s, a, s')
  {
    hide Stages, ParametersClear, ParametersAt, Saved, FinalOffset, Layout.Bytes;
    FrameShape(c, s.r1, a.words);
    hide FrameSize, BaseSize;
    HeaderStays(c, s, a, mem1, mem2, mem3, s'.mem);
    WordsStay(c, s, a, mem1, mem2, mem3, s'.mem);
    ParametersStay(c, s, a, mem1, mem2, mem3, s'.mem);
  }

  // Each stage leaves alone what the others wrote.
  lemma HeaderStays(c: Layout, s: State, a: Args, mem1: Memory, mem2: Memory, mem3: Memory, mem4: Memory)
    requires Stages(c, s, a, mem1, mem2, mem3, mem4)
    ensures var r1 := s.r1 - FrameSize(c, a.words);
      && Read(mem4, r1) == s.r1
      && Read(mem4, s.r1 + c.LrSave()) == s.lr
      && (c.wide ==> Read(mem4, r1 + c.CrSave()) == s.cr)
      && (forall x :: (x < r1 || x >= s.r1) && x != s.r1 + c.LrSave() ==> Read(mem4, x) == Read(s.mem, x))
  {
    hide FrameSize;
    var r1, locals := s.r1 - FrameSize(c, a.words), s.r1 - c.Bytes(FinalOffset(c));
    FrameShape(c, s.r1, a.words);
    forall x | x <= locals - c.Bytes(a.words) || x >= s.r1 ensures Read(mem4, x) == Read(mem1, x) {
    }
    assert r1 + c.CrSave() <= locals - c.Bytes(a.words);
    hide FinalOffset, RegisterOffset, RegistersAt, ParametersAt;
  }

  lemma WordsStay(c: Layout, s: State, a: Args, mem1: Memory, mem2: Memory, mem3: Memory, mem4: Memory)
    requires Stages(c, s, a, mem1, mem2, mem3, mem4) && Read(mem4, s.r1 + c.LrSave()) == s.lr
    ensures Saved(c, s, a, mem4)
  {
    var locals := s.r1 - c.Bytes(FinalOffset(c));
    forall x | locals < x < locals + c.Bytes(RegisterOffset(c)) ensures Read(mem4, x) == Read(mem2, x) {
    }
    forall x | locals < x ensures Read(mem4, x) == Read(mem3, x) {
    }
    hide FrameSize, HeaderStored, ParametersStored;
  }

  lemma OutsideStays(c: Layout, s: State, a: Args, mem1: Memory, mem2: Memory, mem3: Memory, mem4: Memory, x: int)
    requires Stages(c, s, a, mem1, mem2, mem3, mem4)
    requires (x < s.r1 - FrameSize(c, a.words) || x >= s.r1) && x != s.r1 + c.LrSave()
    ensures Read(mem3, x) == Read(s.mem, x)
  {
    FrameShape(c, s.r1, a.words);
    hide FrameSize, FinalOffset, RegisterOffset, RegistersAt, ParametersAt;
  }

  lemma StageParameters(c: Layout, s: State, a: Args, mem1: Memory, mem2: Memory, mem3: Memory, mem4: Memory)
    requires Stages(c, s, a, mem1, mem2, mem3, mem4)
    ensures ParametersAt(c, a, s.r1 - c.Bytes(FinalOffset(c)), mem3, mem4)
  {
    hide HeaderStored, WordsStored, RegistersStored, FrameSize, FinalOffset, RegisterOffset, ParametersAt;
  }

  lemma ParametersStay(c: Layout, s: State, a: Args, mem1: Memory, mem2: Memory, mem3: Memory, mem4: Memory)
    requires Stages(c, s, a, mem1, mem2, mem3, mem4) && ParametersClear(c, s.r1, a)
    ensures ParametersAt(c, a, s.r1 - c.Bytes(FinalOffset(c)), s.mem, mem4)
  {
    hide Stages, FrameSize, FinalOffset, Layout.Bytes, Layout.LrSave;
    var locals := s.r1 - c.Bytes(FinalOffset(c));
    StageParameters(c, s, a, mem1, mem2, mem3, mem4);
    forall i | 0 <= i < a.words ensures Read(mem4, locals - c.Bytes(i)) == Read(s.mem, a.parameters + c.Bytes(i)) {
      OutsideStays(c, s, a, mem1, mem2, mem3, mem4, a.parameters + c.Bytes(i));
    }
  }

  // ---- the return ----------------------------------------------------

  lemma RegistersAgree(c: Layout, at: int, gpr: Registers, gpr': Registers, mem: Memory)
    requires RegistersAt(c, at, gpr, mem) && RegistersAt(c, at, gpr', mem)
    ensures forall k :: 14 <= k < 32 ==> Read(gpr', k) == Read(gpr, k)
  {
    forall k | 14 <= k < 32 ensures Read(gpr', k) == Read(gpr, k) {
      assert Read(mem, at + c.Bytes(k - 14)) == Read(gpr, k);
    }
  }

  // Storing the result spares everything still to be restored.
  lemma ResultKeepsFrame(c: Layout, s: State, a: Args, s': State, r3: int, r4: int)
    requires FrameFound(c, s, a, s') && ResultClear(c, s, s'.r1, a)
    ensures FrameFound(c, s, a, s'.(mem := StoredResult(c, a, r3, r4, s'.mem)))
  {
    FrameShape(c, s.r1, a.words);
    var mem' := StoredResult(c, a, r3, r4, s'.mem);
    assert forall x :: s'.r1 <= x <= s.r1 + c.LrSave() ==> Read(mem', x) == Read(s'.mem, x);
    hide ResultClear, StoredResult, FrameSize, BaseSize;
    assert RegistersAt(c, s.r1 - c.Bytes(FinalOffset(c)) + c.Bytes(RegisterOffset(c)), s.gpr, mem') by {
      RegistersSpared(c, s.r1 - c.Bytes(FinalOffset(c)) + c.Bytes(RegisterOffset(c)), s.gpr, s'.mem, mem');
    }
    hide RegistersAt;
  }

  lemma RegistersSpared(c: Layout, at: int, gpr: Registers, mem: Memory, mem': Memory)
    requires RegistersAt(c, at, gpr, mem) && forall x :: at <= x < at + c.Bytes(18) ==> Read(mem', x) == Read(mem, x)
    ensures RegistersAt(c, at, gpr, mem')
  {
  }

  // ---- around any run of the frame manager ---------------------------

  // The registers the frame manager knows of
  ghost predicate EntersAs(s: State, e: Cpu) {
    e.r1 == s.r1 && e.lr == s.lr && e.mem == s.mem && e.rlocals == Read(s.gpr, RLOCALS) && e.rmethod == Read(s.gpr, RMETHOD)
  }

  // What the frame manager asks of its callers holds at the call, when the
  // stub passes as many words as the method has parameters.
  lemma ParametersAreInFrame(c: Layout, s: State, a: Args, s1: State, e: Cpu, m: Method)
    requires Called(c, s, a, s1) && EntersAs(s1, e) && m.parameters == a.words
    ensures ParametersInFrame(c, e, m)
  {
    FrameShape(c, s.r1, a.words);
    hide FrameSize, Saved, ParametersAt;
  }

  // As long as the frame manager keeps its promise to its caller, the stub's
  // frame is there to be found, with everything saved in it, and so is the
  // call wrapper from the end of that frame (entry_frame_call_wrapper).
  lemma CallerKept(c: Layout, s: State, a: Args, s1: State, e: Cpu, sp: int, s2: State)
    requires Called(c, s, a, s1) && EntersAs(s1, e) && SameCaller(c, e, sp, s2.mem) && s2.r1 == sp
    ensures FrameFound(c, s, a, s2)
    ensures Read(s2.mem, Read(s2.mem, sp) - CallWrapperOffset(c)) == a.callWrapper
  {
    var locals := s.r1 - c.Bytes(FinalOffset(c));
    var at := locals + c.Bytes(RegisterOffset(c));
    FrameShape(c, s.r1, a.words);
    hide FrameSize, ParametersAt, BaseSize;
    assert forall x :: x > locals ==> Read(s2.mem, x) == Read(s1.mem, x);
    assert at > locals;
    RegistersSpared(c, at, s.gpr, s1.mem, s2.mem);
    hide SameCaller, RegistersAt;
  }

  // The call from s1 is a run of the frame manager that returns in s2.
  ghost predicate CallReturns(c: Layout, ms: Methods, a: Args, s1: State, e: Cpu, run: seq<System>, s2: State, pendingException: int)
    requires ValidMethods(ms)
  {
    && EntersAs(s1, e) && Run(c, ms, a.thread, e, run) && run[|run| - 1].frames == []
    && s2.r1 == run[|run| - 1].cpu.r1 && s2.mem == run[|run| - 1].cpu.mem
    && (Excepted(s2, pendingException) || ResultHanded(c, ms, run, s2))
  }

  predicate Excepted(s: State, pendingException: int) { Read(s.mem, Read(s.gpr, RTHREAD) + pendingException) != 0 }

  // Without a pending exception the run has ended in return_from_method, and
  // what its converter left in r3 and r4 is still there.
  ghost predicate ResultHanded(c: Layout, ms: Methods, run: seq<System>, s2: State) {
    && |run| > 1 && run[|run| - 2].cpu.rmethod in ms
    && var last := run[|run| - 2].cpu;
      exists t :: var t' := StackToNative(c, last, ms[last.rmethod].resultWords, ms[last.rmethod].floatResult, t);
        Read(s2.gpr, 3) == t'.r3 && Read(s2.gpr, 4) == t'.r4
  }

  // The result place holds the top of the expression stack with which the
  // method has returned, when the caller's type of the result is the method's.
  ghost predicate ResultIsTop(c: Layout, ms: Methods, a: Args, run: seq<System>, mem: Memory) {
    && |run| > 1 && run[|run| - 2].cpu.rmethod in ms
    && var last := run[|run| - 2].cpu;
      var m, stack := ms[last.rmethod], Get(c, last.mem, last.rstate, Stack);
      !m.floatResult && m.resultWords == (if a.resultType == T_LONG then 2 else 1) ==>
        && Read(mem, a.result) == Read(last.mem, SlotAt(c, stack, 0))
        && (a.resultType == T_LONG && !c.wide ==> Read(mem, a.result + 4) == Read(last.mem, SlotAt(c, stack, 1)))
  }

  lemma TopIsStored(c: Layout, ms: Methods, a: Args, run: seq<System>, s2: State, mem: Memory)
    requires ResultHanded(c, ms, run, s2) && ResultStored(c, a, Read(s2.gpr, 3), Read(s2.gpr, 4), s2.mem, mem)
    ensures ResultIsTop(c, ms, a, run, mem)
  {
    var last := run[|run| - 2].cpu;
    var m := ms[last.rmethod];
    var t :| var t' := StackToNative(c, last, m.resultWords, m.floatResult, t); Read(s2.gpr, 3) == t'.r3 && Read(s2.gpr, 4) == t'.r4;
    if m.resultWords <= 2 {
      NativeIs(c, last, m.resultWords, m.floatResult, t);
    }
    hide StackToNative, Get, SlotAt;
  }

  // Without a pending exception there is a result, stored clear of the stack.
  ghost predicate ResultFits(c: Layout, s: State, a: Args, s2: State, pendingException: int) {
    !Excepted(s2, pendingException) ==>
      a.resultType in {T_INT, T_LONG, T_OBJECT} && ResultClear(c, s, s2.r1, a)
  }

  // What the call left in r3 and r4, which is the top of the stack with which
  // the method has returned, is stored as the result, or nothing if it left an
  // exception.
  ghost predicate ResultOf(c: Layout, ms: Methods, a: Args, run: seq<System>, s2: State, pendingException: int, mem: Memory) {
    if Excepted(s2, pendingException) then mem == s2.mem
    else ResultStored(c, a, Read(s2.gpr, 3), Read(s2.gpr, 4), s2.mem, mem) && ResultIsTop(c, ms, a, run, mem)
  }

  lemma ResultIsStored(c: Layout, a: Args, r3: int, r4: int, mem: Memory)
    ensures ResultStored(c, a, r3, r4, mem, StoredResult(c, a, r3, r4, mem))
  {
  }

  lemma ResultMayBeStored(c: Layout, s: State, a: Args, s2: State, pendingException: int)
    requires ResultFits(c, s, a, s2, pendingException) && !Excepted(s2, pendingException)
    ensures a.resultType in {T_INT, T_LONG, T_OBJECT} && ResultClear(c, s, s2.r1, a)
  {
  }

  lemma CallKeepsFrame(c: Layout, ms: Methods, s: State, a: Args, s1: State, e: Cpu, run: seq<System>, s2: State, pendingException: int)
    requires FrameManager.ValidLayout(c) && ValidMethods(ms)
    requires Called(c, s, a, s1) && CallReturns(c, ms, a, s1, e, run, s2, pendingException)
    ensures FrameFound(c, s, a, s2)
    ensures Excepted(s2, pendingException) || ResultHanded(c, ms, run, s2)
  {
    hide Called, FrameFound, Run, EntersAs, ResultHanded;
    RunsReturnToStub(c, ms, s, a, s1, e, run, s2);
  }

  // Any run of the frame manager entered from the stub ends, if it returns,
  // where AfterCall can restore everything.
  lemma RunsReturnToStub(c: Layout, ms: Methods, s: State, a: Args, s1: State, e: Cpu, run: seq<System>, s2: State)
    requires FrameManager.ValidLayout(c) && ValidMethods(ms)
    requires Called(c, s, a, s1) && EntersAs(s1, e) && Run(c, ms, a.thread, e, run) && run[|run| - 1].frames == []
    requires var last := run[|run| - 1].cpu; s2.r1 == last.r1 && s2.mem == last.mem
    ensures FrameFound(c, s, a, s2) && run[|run| - 1].cpu.lr == s1.lr
  {
    RunsReturn(c, ms, a.thread, e, run);
    hide Run, Called;
    CallerKept(c, s, a, s1, e, s2.r1, s2);
  }
}
