// The code emitted for the frame manager, instruction by instruction, over
// the machine's registers.  Volatile registers are local variables.
module FrameManagerCode {
  import opened StackLayout
  import opened FrameManager
  import opened FrameManagerRuns

  // andi_ with a mask of the form 2^n - 1
  function AndMask(x: int, mask: int): int
    requires mask == STACK_ALIGNMENT - 1
  {
    x % (mask + 1)
  }

  class Emitted {
    const c: Layout
    const rthread: int
    const methods: map<int, Method>
    var r1: int
    var rstate: int
    var rlocals: int
    var rmethod: int
    var rmonitor: int
    var lr: int
    var mem: Memory

    constructor (c: Layout, thread: int, methods: map<int, Method>, s: Cpu)
      ensures this.c == c && rthread == thread && this.methods == methods && Registers() == s
    {
      this.c, rthread, this.methods := c, thread, methods;
      r1, rstate, rlocals, rmethod, rmonitor, lr, mem := s.r1, s.rstate, s.rlocals, s.rmethod, s.rmonitor, s.lr, s.mem;
    }

    function Registers(): Cpu
      reads this
    {
      Cpu(r1, rstate, rlocals, rmethod, rmonitor, lr, mem)
    }

    predicate Ready()
      reads this
    {
      rmethod in methods && methods[rmethod].parameters <= methods[rmethod].locals
    }

    function CurrentMethod(): Method
      requires Ready()
      reads this
    {
      methods[rmethod]
    }

    method CalcPaddingForAlignment(src: int, align: int) returns (dst: int)
      requires align == STACK_ALIGNMENT
      ensures dst == Padding(src)
    {
      dst := AndMask(src, align - 1);   // andi_
      dst := align - dst;               // subfic
      dst := AndMask(dst, align - 1);   // andi_
    }

    method MaybeExtendFrame(required: int, available: int)
      modifies `r1, `mem
      ensures r1 == old(r1) - ExtendBy(required, available)
      ensures mem == ExtendedMemory(c, old(r1), old(mem), ExtendBy(required, available))
    {
      if required <= available { return; }        // compare; ble done
      var extraBytes := required - available;     // sub
      var padding := CalcPaddingForAlignment(extraBytes, STACK_ALIGNMENT);
      extraBytes := extraBytes + padding;         // add
      var savedR1 := r1;                          // mr
      var scratch := -extraBytes;                 // neg
      mem := mem[r1 + scratch := r1];             // store_update_indexed
      r1 := r1 + scratch;
      scratch := Read(mem, savedR1);              // load back chain
      mem := mem[r1 := scratch];                  // store back chain
      if c.wide {
        scratch := Read(mem, savedR1 + c.CrSave());
        mem := mem[r1 + c.CrSave() := scratch];
      }
    }

    // generate_adjust_callers_stack
    method AdjustCallersStackCode()
      requires Ready()
      modifies `r1, `mem
      ensures Registers() == AdjustCallersStack(c, old(Registers()), CurrentMethod())
    {
      ghost var s := Registers();
      var paramWords := methods[rmethod].parameters;       // lhz
      var localWords := methods[rmethod].locals;           // lhz
      if paramWords == localWords { return; }              // compare; beq done
      var requiredBytes := c.Bytes(localWords);            // shift_left
      var availableBytes := rlocals - r1;                  // sub
      availableBytes := availableBytes - c.HeaderSize();   // subi
      MaybeExtendFrame(requiredBytes, availableBytes);
      var dst := c.Bytes(paramWords);                      // shift_left
      dst := rlocals - dst;                                // sub
      var ctr := localWords - paramWords;                  // sub; mtctr
      ghost var extended := mem;
      ghost var first := dst;
      while true                                           // bind loop
        invariant 1 <= ctr <= localWords - paramWords
        invariant ZeroDown(c, mem, dst, ctr) == ZeroDown(c, extended, first, localWords - paramWords)
        invariant Registers() == s.(r1 := r1, mem := mem) && r1 == s.r1 - AdjustExtension(c, s, CurrentMethod())
        decreases ctr
      {
        mem := mem[dst := 0];                              // store
        dst := dst - c.WordSize();                         // subi
        ctr := ctr - 1;                                    // bdnz
        if ctr == 0 { break; }
      }
    }

    method StoreLinks(r0: int, stackLimit: int, stack: int, stackBase: int)
      modifies `mem
      ensures mem == InitLinks(c, old(mem), rstate, rlocals, rmethod, r0, stackLimit, stack, stackBase)
    {
      hide Put;
      var monitorBase := rstate;
      mem := Put(c, mem, rstate, Locals, rlocals);
      mem := Put(c, mem, rstate, MethodOop, rmethod);
      mem := Put(c, mem, rstate, SelfLink, rstate);
      mem := Put(c, mem, rstate, PrevLink, r0);
      mem := Put(c, mem, rstate, StackLimit, stackLimit);
      mem := Put(c, mem, rstate, Stack, stack);
      mem := Put(c, mem, rstate, StackBase, stackBase);
      mem := Put(c, mem, rstate, MonitorBase, monitorBase);
    }

    method StoreCode(native: bool)
      requires Ready()
      modifies `mem
      ensures mem == InitCode(c, old(mem), rstate, CurrentMethod(), native, rthread)
    {
      hide Put;
      mem := Put(c, mem, rstate, Thread, rthread);
      if !native {
        mem := Put(c, mem, rstate, Bcp, methods[rmethod].codes);
      }
      mem := Put(c, mem, rstate, Constants, methods[rmethod].cache);
      mem := Put(c, mem, rstate, Msg, METHOD_ENTRY);
      if native {
        mem := Put(c, mem, rstate, Bcp, 0);
      }
      mem := Put(c, mem, rstate, OopTemp, 0);
      mem := Put(c, mem, rstate, Mdx, 0);
      mem := Put(c, mem, rstate, Callee, 0);
    }

    // The object a synchronized method locks goes into its monitor.
    method StoreLockee(crStatic: bool)
      requires Ready() && crStatic == CurrentMethod().isStatic
      modifies `mem
      ensures mem == old(mem)[rmonitor + c.objOffset := Lockee(rlocals, CurrentMethod(), old(mem))]
    {
      var r3;
      if crStatic {
        r3 := methods[rmethod].mirror;                   // get_mirror_handle
      } else {
        r3 := Read(mem, rlocals);                        // load
      }
      mem := mem[rmonitor + c.objOffset := r3];          // store
    }

    // The frame with its padding, and the words of the expression stack
    method FrameSize(native: bool) returns (frameSize: int, padding: int, stackSize: int)
      requires Ready()
      ensures var m := CurrentMethod();
        var bytes := c.HeaderSize() + c.stateSize + c.Bytes(StackWords(m, native)) + MonitorBytes(c, m);
        frameSize == ActivationSize(c, m, native) && padding == Padding(bytes) && stackSize == c.Bytes(StackWords(m, native))
    {
      var basicFrameSize := c.EmptyFrameSize() + c.stateSize + c.Slop();
      if native {
        stackSize := 0;
        frameSize := basicFrameSize;                       // load
      } else {
        stackSize := methods[rmethod].maxStack;            // lhz
        stackSize := c.Bytes(stackSize);                   // shift_left
        frameSize := stackSize + basicFrameSize;           // addi
      }
      if methods[rmethod].isSynchronized {                 // bne CRsync
        frameSize := frameSize + c.monitorSize;            // addi
      }
      padding := CalcPaddingForAlignment(frameSize, STACK_ALIGNMENT);
      frameSize := frameSize + padding;                    // add
    }

    // Where things are in the frame, from r1 upwards
    method FrameAddresses(native: bool, padding: int, stackSize: int, ghost s: Cpu)
      returns (stackLimit: int, stack: int, stackBase: int, monitorBase: int)
      requires Ready() && r1 == s.r1 - ActivationSize(c, CurrentMethod(), native)
      requires stackSize == c.Bytes(StackWords(CurrentMethod(), native))
      requires padding == Padding(c.HeaderSize() + c.stateSize + stackSize + MonitorBytes(c, CurrentMethod()))
      ensures var m := CurrentMethod();
        && stackLimit == NewStackLimit(c, s, m, native) && stack == NewStack(c, s, m)
        && stackBase == NewStackBase(c, s, m) && monitorBase == NewState(c, s)
    {
      stackLimit := r1 + c.EmptyFrameSize() + c.Slop() - c.WordSize();      // addi
      stackLimit := stackLimit + padding;                                   // add
      stack := if native then stackLimit else stackLimit + stackSize;       // mr / add
      stackBase := stack + c.WordSize();                                    // addi
      monitorBase := stackBase;                                             // mr
      if methods[rmethod].isSynchronized {                                  // bne CRsync
        monitorBase := monitorBase + c.monitorSize;                         // addi
      }
    }

    // generate_compute_interpreter_state
    method ComputeInterpreterState(native: bool)
      requires Ready()
      modifies `r1, `rstate, `rmonitor, `mem
      ensures Registers() == Activate(c, old(Registers()), CurrentMethod(), native, rthread)
    {
      hide ActivationSize, NewState, NewStack, NewStackBase, NewStackLimit, Lockee, InitLinks, InitCode,
        Layout.Bytes, Layout.LrSave, Padding;
      ghost var s := Registers();
      var frameSize, padding, stackSize := FrameSize(native);

      // LR goes into the caller's frame, and a frame is made below it.
      var r0 := lr;                                        // mflr
      mem := mem[r1 + c.LrSave() := r0];                   // store
      r0 := -frameSize;                                    // neg
      mem := mem[r1 + r0 := r1];                           // store_update_indexed
      r1 := r1 + r0;

      var stackLimit, stack, stackBase, monitorBase := FrameAddresses(native, padding, stackSize, s);
      rmonitor := stackBase;
      r0 := rstate;                                        // mr
      rstate := monitorBase;                               // mr

      // The state object, and the monitor if there is one
      StoreLinks(r0, stackLimit, stack, stackBase);
      StoreCode(native);
      if methods[rmethod].isSynchronized {                 // bne CRsync
        StoreLockee(methods[rmethod].isStatic);
      }
    }

    // generate_more_monitors
    method MoreMonitorsCode()
      modifies `r1, `mem
      ensures Registers() == MoreMonitors(c, old(Registers()))
    {
      hide At, ExtendedMemory, ExtendBy;
      ghost var s := Registers();
      var requiredBytes := c.HeaderSize() + c.monitorSize;            // load
      var availableBytes := Read(mem, At(c, rstate, StackLimit));     // load
      availableBytes := availableBytes + c.WordSize();                // addi
      availableBytes := availableBytes - r1;                          // sub
      MaybeExtendFrame(requiredBytes, availableBytes);

      // What is on the expression stack goes down by a monitor,
      var src := Read(mem, At(c, rstate, Stack));                     // load
      src := src + c.WordSize();                                      // addi
      var end := Read(mem, At(c, rstate, StackBase));                 // load
      var dst := src - c.monitorSize;                                 // subi
      ghost var extended := mem;
      ghost var first := src;
      while src < end                                                 // compare; blt loop_start
        invariant dst == src - c.monitorSize
        invariant MoveDown(c, mem, src, end, c.monitorSize) == MoveDown(c, extended, first, end, c.monitorSize)
        invariant Registers() == s.(r1 := r1, mem := mem) && r1 == s.r1 - MonitorExtension(c, s)
        decreases end - src
      {
        var r0 := Read(mem, src);                                     // load
        mem := mem[dst := r0];                                        // store
        src := src + c.WordSize();                                    // addi
        dst := dst + c.WordSize();                                    // addi
      }

      // and so do the three pointers to it.
      var tmp := Read(mem, At(c, rstate, StackLimit));
      tmp := tmp - c.monitorSize;
      mem := mem[At(c, rstate, StackLimit) := tmp];
      tmp := Read(mem, At(c, rstate, Stack));
      tmp := tmp - c.monitorSize;
      mem := mem[At(c, rstate, Stack) := tmp];
      tmp := Read(mem, At(c, rstate, StackBase));
      tmp := tmp - c.monitorSize;
      mem := mem[At(c, rstate, StackBase) := tmp];

      // The monitor made room for is free.
      mem := mem[tmp + c.objOffset := 0];
    }

    // generate_unwind_interpreter_state
    method UnwindInterpreterState()
      modifies `r1, `rstate, `lr
      ensures Registers() == Unwind(c, old(Registers()))
    {
      rstate := Read(mem, At(c, rstate, PrevLink));    // load
      r1 := Read(mem, r1);                             // load
      var r0 := Read(mem, r1 + c.LrSave());            // load
      lr := r0;                                        // mtlr
    }

    // From re_dispatch to call_interpreter
    method DispatchCode()
      requires Ready()
      modifies `r1, `rstate, `rmonitor, `mem
      ensures Registers() == Dispatch(c, methods, old(Registers()), rthread)
    {
      hide AdjustCallersStack, Activate;
      AdjustCallersStackCode();
      ComputeInterpreterState(false);
    }

    // The start of call_method: true if the callee is interpreted
    method LoadCallee() returns (interpreted: bool)
      requires Get(c, mem, rstate, Callee) in methods
      modifies `rmethod, `rlocals
      ensures Registers() == Calling(c, methods, old(Registers()), Get(c, mem, rstate, Callee))
      ensures interpreted <==> Get(c, mem, rstate, CalleeEntry) == INTERPRETER_ENTRY
    {
      rmethod := Read(mem, At(c, rstate, Callee));    // load
      rlocals := Read(mem, At(c, rstate, Stack));     // load
      var r0 := methods[rmethod].parameters;          // lhz
      r0 := c.Bytes(r0);                              // shift_left
      rlocals := rlocals + r0;                        // add
      r0 := Read(mem, At(c, rstate, CalleeEntry));    // load
      return r0 == INTERPRETER_ENTRY;                 // compare; bne
    }

    // After a call out of the frame manager
    method ReloadState()
      modifies `rstate
      ensures Registers() == old(Registers()).(rstate := InterpreterState(c, mem, r1))
    {
      rstate := Read(mem, r1);                        // load
      rstate := rstate - c.stateSize;                 // subi
    }

    method StackToStackConverter(words: nat)
      requires words <= 2
      modifies `rlocals, `mem
      ensures Registers() == StackToStack(c, old(Registers()), words)
    {
      if words == 0 { return; }
      var stack := Read(mem, At(c, rstate, Stack));   // load
      var r0 := Read(mem, stack + c.WordSize());      // load
      if words == 1 {
        mem := mem[rlocals := r0];                    // store
        rlocals := rlocals - c.WordSize();            // subi
      } else {
        mem := mem[rlocals - c.WordSize() := r0];     // store
        if !c.wide {
          r0 := Read(mem, stack + c.WordSize() * 2);  // load
          mem := mem[rlocals := r0];                  // store
        }
        rlocals := rlocals - c.WordSize() * 2;        // subi
      }
    }

    method StoreDouble(at: int, t: Tosca)
      modifies `mem
      ensures mem == if c.wide then old(mem)[at := t.high] else old(mem)[at := t.high][at + c.WordSize() := t.low]
    {
      mem := mem[at := t.high];
      if !c.wide {
        mem := mem[at + c.WordSize() := t.low];
      }
    }

    method ToscaToStackConverter(words: nat, floating: bool, t: Tosca)
      requires words <= 2
      modifies `rlocals, `mem
      ensures Registers() == ToscaToStack(c, old(Registers()), words, floating, t)
    {
      if words == 1 {
        if floating {
          mem := mem[rlocals := t.single];            // stfs
        } else {
          mem := mem[rlocals := t.r3];                // stw / store
        }
        rlocals := rlocals - c.WordSize();            // subi
      } else if words == 2 {
        if floating {
          StoreDouble(rlocals - c.WordSize(), t);     // stfd
        } else {
          mem := mem[rlocals - c.WordSize() := t.r3]; // store
          if !c.wide {
            mem := mem[rlocals := t.r4];              // store
          }
        }
        rlocals := rlocals - c.WordSize() * 2;        // subi
      }
    }

    method LoadDouble(at: int, t: Tosca) returns (t': Tosca)
      ensures t' == t.(high := Read(mem, at), low := if c.wide then t.low else Read(mem, at + c.WordSize()))
    {
      t' := t.(high := Read(mem, at));
      if !c.wide {
        t' := t'.(low := Read(mem, at + c.WordSize()));
      }
    }

    method StackToNativeConverter(words: nat, floating: bool, t: Tosca) returns (t': Tosca)
      requires words <= 2
      ensures t' == StackToNative(c, Registers(), words, floating, t)
    {
      t' := t;
      if words == 0 { return; }
      var stack := Read(mem, At(c, rstate, Stack));            // load
      if floating {
        if words == 1 {
          t' := t'.(single := Read(mem, stack + c.WordSize())); // lfs
        } else {
          t' := LoadDouble(stack + c.WordSize(), t');           // lfd
        }
      } else {
        t' := t'.(r3 := Read(mem, stack + c.WordSize()));       // lwa / load
        if words == 2 && !c.wide {
          t' := t'.(r4 := Read(mem, stack + c.WordSize() * 2)); // load
        }
      }
    }

    // resume_interpreter
    method ResumeInterpreter()
      modifies `rlocals, `rmethod, `mem
      ensures Registers() == Resume(c, old(Registers()))
    {
      mem := Put(c, mem, rstate, Stack, rlocals);       // store
      rlocals := Read(mem, At(c, rstate, Locals));      // load
      rmethod := Read(mem, At(c, rstate, MethodOop));   // load
      mem := Put(c, mem, rstate, Msg, METHOD_RESUME);   // load; stw
    }

    // Handling return_from_method: true if the run is over, with the result then
    // in the return registers
    method ReturnFromMethod(t: Tosca) returns (done: bool, t': Tosca)
      requires Ready() && CurrentMethod().resultWords <= 2
      modifies `r1, `rstate, `rlocals, `rmethod, `lr, `mem
      ensures var s := old(Registers());
        var last := Get(c, s.mem, s.rstate, PrevLink) == 0;
        var u := Unwind(c, if last then s else StackToStack(c, s, methods[s.rmethod].resultWords));
        && done == last && Registers() == (if last then u else Resume(c, u))
        && (last ==> t' == StackToNative(c, s, methods[s.rmethod].resultWords, methods[s.rmethod].floatResult, t))
    {
      hide StackToStack, StackToNative, Resume;
      t' := t;
      var r0 := Read(mem, At(c, rstate, PrevLink));     // load
      if r0 == 0 {                                      // compare; beq
        t' := StackToNativeConverter(methods[rmethod].resultWords, methods[rmethod].floatResult, t);
        UnwindInterpreterState();
        return true, t';                                // blr
      }
      StackToStackConverter(methods[rmethod].resultWords);
      UnwindInterpreterState();
      ResumeInterpreter();
      return false, t';
    }
  }
}
