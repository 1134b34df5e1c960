// Every run of the frame manager, from its entry by the call stub to its
// return, with any depth of interpreted calls, other calls, added monitors,
// returns and exceptions in between.
module FrameManagerRuns {
  import opened StackLayout
  import opened FrameManager

  // The frame made for one interpreted method: its r1 (which moves down when
  // the frame is extended) and its state object.
  datatype Activation = Activation(sp: int, state: int)

  datatype System = System(cpu: Cpu, frames: seq<Activation>)

  type Methods = map<int, Method>

  // The LR value that marks a re-dispatched frame.
  const RECURSIVE_ACTIVATION := -4

  // The entry point of the methods that the interpreter runs itself
  const INTERPRETER_ENTRY := -8

  function Top(c: Layout, state: int): int { state + c.stateSize }

  // ---- the shape of the stack ----------------------------------------

  ghost predicate FrameOk(c: Layout, ms: Methods, mem: Memory, f: Activation) {
    && StackWithin(c, f.sp, f.state, mem)
    && f.sp > 0 && Top(c, f.state) % STACK_ALIGNMENT == 0
    && Read(mem, f.sp) == Top(c, f.state)
    && Get(c, mem, f.state, SelfLink) == f.state
    && Get(c, mem, f.state, MonitorBase) == f.state
    && Get(c, mem, f.state, MethodOop) in ms
  }

  // The lowest local variable of the method with state object st
  ghost function LowestLocal(c: Layout, ms: Methods, mem: Memory, st: int): int
    requires Get(c, mem, st, MethodOop) in ms
  {
    LocalAt(c, Get(c, mem, st, Locals), ms[Get(c, mem, st, MethodOop)].locals - 1)
  }

  // The activation st was re-dispatched from g: its locals are on g's
  // expression stack.
  ghost predicate CalledFrom(c: Layout, ms: Methods, mem: Memory, st: int, g: Activation)
    requires Get(c, mem, st, MethodOop) in ms
  {
    && g.sp == Top(c, st)
    && Get(c, mem, st, PrevLink) == g.state
    && Read(mem, g.sp + c.LrSave()) == RECURSIVE_ACTIVATION
    && g.sp + c.EmptyFrameSize() <= LowestLocal(c, ms, mem, st)
    && Get(c, mem, g.state, StackLimit) <= Get(c, mem, st, Locals)
    && Get(c, mem, st, Locals) + c.WordSize() <= Get(c, mem, g.state, StackBase)
  }

  // The activation st was entered with registers e: the initial caller's frame, possibly
  // extended, still has its back chain, its LR and everything above the locals.
  ghost predicate EnteredFrom(c: Layout, ms: Methods, mem: Memory, st: int, e: Cpu)
    requires Get(c, mem, st, MethodOop) in ms
  {
    && Get(c, mem, st, PrevLink) == 0
    && Get(c, mem, st, Locals) == e.rlocals && Get(c, mem, st, MethodOop) == e.rmethod
    && Top(c, st) + c.EmptyFrameSize() <= LowestLocal(c, ms, mem, st)
    && Top(c, st) + c.EmptyFrameSize() <= e.rlocals + c.WordSize()
    && Read(mem, Top(c, st) + c.LrSave()) == e.lr
    && SameCaller(c, e, Top(c, st), mem)
  }

  ghost predicate SameCaller(c: Layout, e: Cpu, r1: int, mem: Memory) {
    && r1 <= e.r1 && r1 % STACK_ALIGNMENT == 0
    && Read(mem, r1) == Read(e.mem, e.r1)
    && (c.wide ==> Read(mem, r1 + c.CrSave()) == Read(e.mem, e.r1 + c.CrSave()))
    && forall a :: a > e.rlocals ==> Read(mem, a) == Read(e.mem, a)
  }

  // The activation st lies on the frames gs, and these on the initial caller
  ghost predicate Below(c: Layout, ms: Methods, mem: Memory, st: int, gs: seq<Activation>, e: Cpu)
    decreases |gs|, 1
  {
    && Get(c, mem, st, MethodOop) in ms
    && if gs == [] then EnteredFrom(c, ms, mem, st, e) else CalledFrom(c, ms, mem, st, gs[0]) && Chain(c, ms, mem, gs, e)
  }

  ghost predicate Chain(c: Layout, ms: Methods, mem: Memory, fs: seq<Activation>, e: Cpu)
    decreases |fs|, 0
  {
    |fs| > 0 && FrameOk(c, ms, mem, fs[0]) && Below(c, ms, mem, fs[0].state, fs[1..], e)
  }

  // What a callee gives back: the caller's frame, perhaps extended, with the
  // same back chain (and CR save word); Rlocals, Rmethod and everything above
  // the arguments.
  ghost predicate Returned(c: Layout, e: Cpu, s: Cpu) {
    SameCaller(c, e, s.r1, s.mem) && s.rlocals == e.rlocals && s.rmethod == e.rmethod && s.r1 > 0
  }

  ghost predicate Invariant(c: Layout, ms: Methods, s: System, e: Cpu) {
    if s.frames == [] then Returned(c, e, s.cpu) && s.cpu.lr == e.lr && s.cpu.rstate == 0
    else
      && s.cpu.r1 == s.frames[0].sp && s.cpu.rstate == s.frames[0].state
      && s.cpu.rlocals == Get(c, s.cpu.mem, s.cpu.rstate, Locals)
      && s.cpu.rmethod == Get(c, s.cpu.mem, s.cpu.rstate, MethodOop)
      && Chain(c, ms, s.cpu.mem, s.frames, e)
  }

  // ---- the steps -----------------------------------------------------

  function Current(s: Cpu): Activation { Activation(s.r1, s.rstate) }

  ghost predicate ValidMethods(ms: Methods) { forall m :: m in ms ==> ValidMethod(ms[m]) }

  // From re_dispatch to call_interpreter
  function Dispatch(c: Layout, ms: Methods, s: Cpu, thread: int): Cpu
    requires s.rmethod in ms && ms[s.rmethod].parameters <= ms[s.rmethod].locals
  {
    Activate(c, AdjustCallersStack(c, s, ms[s.rmethod]), ms[s.rmethod], false, thread)
  }

  // The call stub, or other compiled code, enters at start.
  ghost predicate Enters(c: Layout, ms: Methods, thread: int, e: Cpu, s': System)
    requires ValidMethods(ms)
  {
    && e.rmethod in ms && ParametersInFrame(c, e, ms[e.rmethod])
    && s'.cpu == Dispatch(c, ms, e.(rstate := 0), thread)
    && s'.frames == [Current(s'.cpu)]
    && s'.cpu.r1 > 0   // the stack has not overflowed
  }

  // BytecodeInterpreter::run and what it calls: anything below the state
  // object but the back chain, any field but the ones the frame manager owns,
  // and the method's own locals.
  ghost predicate Interprets(c: Layout, ms: Methods, s: System, s': System) {
    var st := s.cpu.rstate;
    && |s.frames| > 0 && s.cpu.rmethod in ms
    && s'.frames == s.frames
    && s'.cpu == s.cpu.(mem := s'.cpu.mem, lr := s'.cpu.lr, rmonitor := s'.cpu.rmonitor)
    && (forall f :: OwnedField(f) ==> Get(c, s'.cpu.mem, st, f) == Get(c, s.cpu.mem, st, f))
    && (forall a :: (a == s.cpu.r1 || a >= st + c.stateSize)
          && !(LocalAt(c, s.cpu.rlocals, ms[s.cpu.rmethod].locals - 1) <= a <= s.cpu.rlocals)
          ==> Read(s'.cpu.mem, a) == Read(s.cpu.mem, a))
    && Get(c, s'.cpu.mem, st, StackLimit) <= Get(c, s'.cpu.mem, st, Stack)
    && Get(c, s'.cpu.mem, st, Stack) + c.WordSize() <= Get(c, s'.cpu.mem, st, StackBase)
  }

  predicate OwnedField(f: Field) {
    f == Locals || f == MethodOop || f == SelfLink || f == PrevLink || f == StackLimit || f == StackBase || f == MonitorBase
  }

  // call_method, up to the comparison of entry points: the registers with
  // which the callee is reached.
  function Calling(c: Layout, ms: Methods, s: Cpu, callee: int): Cpu
    requires callee in ms
  {
    s.(rmethod := callee, rlocals := Get(c, s.mem, s.rstate, Stack) + c.Bytes(ms[callee].parameters))
  }

  predicate IsInterpreted(c: Layout, s: Cpu) { Get(c, s.mem, s.rstate, CalleeEntry) == INTERPRETER_ENTRY }

  // The callee is the one the interpreter named, and its arguments are on the
  // caller's expression stack.
  ghost predicate Calls(c: Layout, ms: Methods, s: System, callee: int) {
    && |s.frames| > 0 && callee in ms && callee == Get(c, s.cpu.mem, s.cpu.rstate, Callee)
    && Get(c, s.cpu.mem, s.cpu.rstate, StackLimit) <= Get(c, s.cpu.mem, s.cpu.rstate, Stack)
    && Calling(c, ms, s.cpu, callee).rlocals + c.WordSize() <= Get(c, s.cpu.mem, s.cpu.rstate, StackBase)
  }

  ghost predicate CallsInterpreted(c: Layout, ms: Methods, thread: int, s: System, callee: int, s': System)
    requires ValidMethods(ms)
  {
    && Calls(c, ms, s, callee) && IsInterpreted(c, s.cpu)
    && var called := Calling(c, ms, s.cpu, callee).(lr := RECURSIVE_ACTIVATION);
      && s'.cpu == Dispatch(c, ms, called, thread)
      && s'.frames == [Current(s'.cpu), Activation(AdjustCallersStack(c, called, ms[callee]).r1, s.cpu.rstate)] + s.frames[1..]
      && s'.cpu.r1 > 0
  }

  // Code that is not the frame manager's is called through CTR; afterwards
  // Rstate is found again from the back chain.
  ghost predicate CallsOther(c: Layout, ms: Methods, s: System, callee: int, back: Cpu, t: Tosca, thrown: bool, s': System) {
    && Calls(c, ms, s, callee) && !IsInterpreted(c, s.cpu)
    && Returned(c, Calling(c, ms, s.cpu, callee), back)
    && var found := back.(rstate := Read(back.mem, back.r1) - c.stateSize);
      && s'.cpu == Resume(c, if thrown then found else ToscaToStack(c, found, ms[callee].resultWords, ms[callee].floatResult, t))
      && s'.frames == [Activation(back.r1, s'.cpu.rstate)] + s.frames[1..]
  }

  function GotMonitors(c: Layout, s: Cpu): Cpu {
    s.(mem := Put(c, s.mem, s.rstate, Msg, GOT_MONITORS))
  }

  ghost predicate AddsMonitor(c: Layout, s: System, s': System) {
    && |s.frames| > 0
    && s'.cpu == GotMonitors(c, MoreMonitors(c, s.cpu))
    && s'.frames == [Current(s'.cpu)] + s.frames[1..]
    && s'.cpu.r1 > 0
  }

  // return_from_method and throwing_exception
  ghost predicate Returns(c: Layout, ms: Methods, s: System, thrown: bool, s': System) {
    && |s.frames| > 0 && s.cpu.rmethod in ms
    && var last := Get(c, s.cpu.mem, s.cpu.rstate, PrevLink) == 0;
      var u := Unwind(c, if thrown || last then s.cpu else StackToStack(c, s.cpu, ms[s.cpu.rmethod].resultWords));
      && s'.cpu == (if u.rstate == 0 then u else Resume(c, u))
      && s'.frames == s.frames[1..]
  }

  ghost predicate Next(c: Layout, ms: Methods, thread: int, s: System, s': System)
    requires ValidMethods(ms)
  {
    || Interprets(c, ms, s, s')
    || (exists callee :: CallsInterpreted(c, ms, thread, s, callee, s'))
    || (exists callee, back, t, thrown :: CallsOther(c, ms, s, callee, back, t, thrown, s'))
    || AddsMonitor(c, s, s')
    || (exists thrown :: Returns(c, ms, s, thrown, s'))
  }

  // ---- what keeps the chain ------------------------------------------

  // The words of frame g that its callees must leave alone: the back chain
  // and everything from the state object upwards.
  ghost predicate SameBase(g: Activation, mem: Memory, mem': Memory) {
    forall a :: a == g.sp || a >= g.state ==> Read(mem', a) == Read(mem, a)
  }

  lemma SameFields(c: Layout, st: int, mem: Memory, mem': Memory)
    requires forall a :: a >= st ==> Read(mem', a) == Read(mem, a)
    ensures forall f :: Get(c, mem', st, f) == Get(c, mem, st, f)
  {
    forall f ensures Get(c, mem', st, f) == Get(c, mem, st, f) {
      FieldsDiffer(c, st, f, f);
    }
  }

  lemma FrameBounds(c: Layout, ms: Methods, mem: Memory, f: Activation)
    requires ValidLayout(c) && FrameOk(c, ms, mem, f)
    ensures f.sp + c.EmptyFrameSize() <= f.state < Top(c, f.state)
    ensures f.sp < f.sp + c.LrSave() < f.sp + c.EmptyFrameSize()
  {
  }

  lemma {:induction false} ChainKept(c: Layout, ms: Methods, mem: Memory, mem': Memory, fs: seq<Activation>, e: Cpu)
    requires ValidLayout(c) && Chain(c, ms, mem, fs, e)
    requires SameBase(fs[0], mem, mem')
    ensures Chain(c, ms, mem', fs, e)
    decreases |fs|, 1
  {
    var f := fs[0];
    FrameBounds(c, ms, mem, f);
    SameFields(c, f.state, mem, mem');
    hide Get;
    assert FrameOk(c, ms, mem', f);
    BelowKept(c, ms, mem, mem', f.state, fs[1..], e);
  }

  // Writes into the own frame and the own locals do not disturb what lies above.
  lemma {:induction false} BelowKept(c: Layout, ms: Methods, mem: Memory, mem': Memory, st: int, gs: seq<Activation>, e: Cpu)
    requires ValidLayout(c) && Below(c, ms, mem, st, gs, e)
    requires forall x :: x == Locals || x == MethodOop || x == PrevLink ==> Get(c, mem', st, x) == Get(c, mem, st, x)
    requires forall a :: a >= Top(c, st) && !(LowestLocal(c, ms, mem, st) <= a <= Get(c, mem, st, Locals)) ==> Read(mem', a) == Read(mem, a)
    ensures Below(c, ms, mem', st, gs, e)
    decreases |gs|, 2
  {
    if gs != [] {
      var g := gs[0];
      FrameBounds(c, ms, mem, g);
      SameFields(c, g.state, mem, mem');
      ChainKept(c, ms, mem, mem', gs, e);
    }
    hide Get;
  }

  // ---- each step keeps the invariant ---------------------------------

  lemma InterpretsKeeps(c: Layout, ms: Methods, s: System, s': System, e: Cpu)
    requires ValidLayout(c) && s.frames != [] && Invariant(c, ms, s, e) && Interprets(c, ms, s, s')
    ensures Invariant(c, ms, s', e)
  {
    var f, mem, mem' := s.frames[0], s.cpu.mem, s'.cpu.mem;
    FrameBounds(c, ms, mem, f);
    hide Get;
    BelowKept(c, ms, mem, mem', f.state, s.frames[1..], e);
    hide Below;
  }

  lemma AddsMonitorKeeps(c: Layout, ms: Methods, s: System, s': System, e: Cpu)
    requires ValidLayout(c) && s.frames != [] && Invariant(c, ms, s, e) && AddsMonitor(c, s, s')
    ensures Invariant(c, ms, s', e) && Get(c, s'.cpu.mem, s'.cpu.rstate, Msg) == GOT_MONITORS
  {
    MoreMonitorsMakesRoom(c, s.cpu);
    assert Current(s.cpu) == s.frames[0];
    RoomKeepsFrame(c, ms, s.cpu, MoreMonitors(c, s.cpu));
    hide MoreMonitors, Get, FrameOk, RoomMade;
    BelowKept(c, ms, s.cpu.mem, s'.cpu.mem, s.cpu.rstate, s.frames[1..], e);
    hide Below;
  }

  lemma RoomKeepsFrame(c: Layout, ms: Methods, s: Cpu, made: Cpu)
    requires ValidLayout(c) && FrameOk(c, ms, s.mem, Current(s)) && RoomMade(c, s, made) && made.r1 > 0
    ensures var mem := GotMonitors(c, made).mem;
      && FrameOk(c, ms, mem, Current(made))
      && (forall x :: x == Locals || x == MethodOop || x == PrevLink ==> Get(c, mem, s.rstate, x) == Get(c, s.mem, s.rstate, x))
      && (forall a :: a >= Top(c, s.rstate) ==> Read(mem, a) == Read(s.mem, a))
  {
    var st := s.rstate;
    FrameBounds(c, ms, s.mem, Current(s));
    MonitorFields(c, st, s.mem, made.mem);
    FieldsDiffer(c, st, StackLimit, Stack);
    FieldsDiffer(c, st, StackBase, Stack);
    hide Get, Put;
  }

  lemma MonitorFields(c: Layout, st: int, mem: Memory, mem': Memory)
    requires forall a :: a >= st && !StackPointer(c, st, a) ==> Read(mem', a) == Read(mem, a)
    ensures forall f :: f != StackLimit && f != Stack && f != StackBase ==> Get(c, mem', st, f) == Get(c, mem, st, f)
  {
    forall f | f != StackLimit && f != Stack && f != StackBase
      ensures Get(c, mem', st, f) == Get(c, mem, st, f)
    {
      FieldsDiffer(c, st, f, StackLimit);
      FieldsDiffer(c, st, f, Stack);
      FieldsDiffer(c, st, f, StackBase);
    }
  }

  // The frame made by a dispatch,
  ghost predicate FrameMade(c: Layout, s: Cpu, r1: int, st: int, mem: Memory) {
    && StackWithin(c, r1, st, mem)
    && Read(mem, r1) == Top(c, st)
    && Get(c, mem, st, SelfLink) == st && Get(c, mem, st, MonitorBase) == st
    && Get(c, mem, st, PrevLink) == s.rstate
    && Get(c, mem, st, Locals) == s.rlocals && Get(c, mem, st, MethodOop) == s.rmethod
  }

  // and what becomes of the caller's.
  ghost predicate CallerKept(c: Layout, s: Cpu, m: Method, st: int, mem: Memory) {
    && Top(c, st) % STACK_ALIGNMENT == 0 && Top(c, st) <= s.r1
    && Read(mem, Top(c, st) + c.LrSave()) == s.lr
    && Top(c, st) + c.EmptyFrameSize() <= LocalAt(c, s.rlocals, m.locals - 1)
    && Read(mem, Top(c, st)) == Read(s.mem, s.r1)
    && (c.wide ==> Read(mem, Top(c, st) + c.CrSave()) == Read(s.mem, s.r1 + c.CrSave()))
    && forall a :: a > LocalAt(c, s.rlocals, m.parameters) ==> Read(mem, a) == Read(s.mem, a)
  }

  lemma DispatchBuildsFrame(c: Layout, ms: Methods, s: Cpu, thread: int)
    requires ValidLayout(c) && s.rmethod in ms && ValidMethod(ms[s.rmethod]) && ParametersInFrame(c, s, ms[s.rmethod])
    ensures var s' := Dispatch(c, ms, s, thread);
      && s' == s.(r1 := s'.r1, rstate := s'.rstate, rmonitor := s'.rmonitor, mem := s'.mem)
      && FrameMade(c, s, s'.r1, s'.rstate, s'.mem) && CallerKept(c, s, ms[s.rmethod], s'.rstate, s'.mem)
      && Top(c, s'.rstate) == AdjustCallersStack(c, s, ms[s.rmethod]).r1
  {
    hide AdjustCallersStack, Activate, Get, FrameMade, CallerKept, CallerAdjusted, ActivatedFrame, ActivatedState;
    var m := ms[s.rmethod];
    var adjusted := AdjustCallersStack(c, s, m);
    AdjustCallersStackKeepsCaller(c, s, m);
    AdjustedRegisters(c, s, m, adjusted);
    ActivateBuildsFrame(c, adjusted, m, false, thread);
    MadeByActivation(c, s, m, adjusted, Activate(c, adjusted, m, false, thread));
  }

  lemma AdjustedRegisters(c: Layout, s: Cpu, m: Method, adjusted: Cpu)
    requires CallerAdjusted(c, s, m, adjusted)
    ensures adjusted == s.(r1 := adjusted.r1, mem := adjusted.mem) && adjusted.r1 % STACK_ALIGNMENT == 0
  {
  }

  lemma MadeByActivation(c: Layout, s: Cpu, m: Method, adjusted: Cpu, s': Cpu)
    requires ValidLayout(c) && ValidMethod(m) && ParametersInFrame(c, s, m)
    requires CallerAdjusted(c, s, m, adjusted) && Activated(c, adjusted, m, false, s')
    ensures FrameMade(c, s, s'.r1, s'.rstate, s'.mem) && CallerKept(c, s, m, s'.rstate, s'.mem)
  {
    hide Get;
  }

  lemma MadeFrameOk(c: Layout, ms: Methods, s: Cpu, f: Activation, mem: Memory)
    requires s.rmethod in ms && f.sp > 0
    requires FrameMade(c, s, f.sp, f.state, mem) && CallerKept(c, s, ms[s.rmethod], f.state, mem)
    ensures FrameOk(c, ms, mem, f)
    ensures Get(c, mem, f.state, Locals) == s.rlocals && Get(c, mem, f.state, MethodOop) == s.rmethod
    ensures Get(c, mem, f.state, PrevLink) == s.rstate
  {
    hide Get;
  }

  lemma EnteredByDispatch(c: Layout, ms: Methods, e: Cpu, st: int, mem: Memory)
    requires e.rmethod in ms && Get(c, mem, st, MethodOop) == e.rmethod
    requires Get(c, mem, st, PrevLink) == 0 && Get(c, mem, st, Locals) == e.rlocals
    requires CallerKept(c, e, ms[e.rmethod], st, mem)
    ensures EnteredFrom(c, ms, mem, st, e)
  {
    hide Get;
  }

  lemma EntersEstablishes(c: Layout, ms: Methods, thread: int, e: Cpu, s': System)
    requires ValidLayout(c) && ValidMethods(ms) && Enters(c, ms, thread, e, s')
    ensures s'.frames != [] && Invariant(c, ms, s', e)
  {
    hide Dispatch, Get, FrameMade, FrameOk, EnteredFrom;
    var entered := e.(rstate := 0);
    DispatchBuildsFrame(c, ms, entered, thread);
    MadeFrameOk(c, ms, entered, Current(s'.cpu), s'.cpu.mem);
    EnteredByDispatch(c, ms, e, s'.cpu.rstate, s'.cpu.mem);
    hide CallerKept;
    assert s'.frames[1..] == [];
    assert Below(c, ms, s'.cpu.mem, s'.cpu.rstate, [], e);
  }

  // A frame moved down to r1 by what it called, its contents from the state
  // object upwards untouched.
  lemma CallerFrameOk(c: Layout, ms: Methods, mem: Memory, mem': Memory, f: Activation, r1: int, gs: seq<Activation>, e: Cpu)
    requires ValidLayout(c) && FrameOk(c, ms, mem, f) && Below(c, ms, mem, f.state, gs, e)
    requires 0 < r1 <= f.sp && r1 % STACK_ALIGNMENT == 0 && Read(mem', r1) == Read(mem, f.sp)
    requires forall a :: a >= f.state ==> Read(mem', a) == Read(mem, a)
    ensures FrameOk(c, ms, mem', Activation(r1, f.state))
    ensures Below(c, ms, mem', f.state, gs, e)
  {
    FrameBounds(c, ms, mem, f);
    SameFields(c, f.state, mem, mem');
    hide Get;
    BelowKept(c, ms, mem, mem', f.state, gs, e);
    hide Below;
  }

  lemma CallingArguments(c: Layout, ms: Methods, s: System, callee: int)
    requires ValidLayout(c) && ValidMethods(ms) && Calls(c, ms, s, callee)
    requires s.cpu.r1 == s.frames[0].sp && s.cpu.rstate == s.frames[0].state && FrameOk(c, ms, s.cpu.mem, s.frames[0])
    ensures var called := Calling(c, ms, s.cpu, callee);
      && ParametersInFrame(c, called, ms[callee])
      && LocalAt(c, called.rlocals, ms[callee].parameters) == Get(c, s.cpu.mem, s.cpu.rstate, Stack) < s.cpu.rstate
      && Get(c, s.cpu.mem, s.cpu.rstate, StackLimit) <= called.rlocals < s.cpu.rstate
  {
    hide Get;
  }

  lemma CallsInterpretedKeeps(c: Layout, ms: Methods, thread: int, s: System, callee: int, s': System, e: Cpu)
    requires ValidLayout(c) && ValidMethods(ms)
    requires s.frames != [] && Invariant(c, ms, s, e) && CallsInterpreted(c, ms, thread, s, callee, s')
    ensures Invariant(c, ms, s', e)
  {
    hide Dispatch, Get, FrameMade, CallerKept, FrameOk, AdjustCallersStack;
    var called := Calling(c, ms, s.cpu, callee).(lr := RECURSIVE_ACTIVATION);
    var f, mem, mem' := s'.frames[0], s.cpu.mem, s'.cpu.mem;
    CallingArguments(c, ms, s, callee);
    DispatchBuildsFrame(c, ms, called, thread);
    MadeFrameOk(c, ms, called, f, mem');
    DispatchedFrom(c, ms, s, called, f, mem', e);
    assert s'.frames[1..] == [s'.frames[1]] + s.frames[1..];
    assert s'.frames[1..][1..] == s.frames[1..];
    assert Chain(c, ms, mem', s'.frames[1..], e);
    hide CalledFrom;
    assert Below(c, ms, mem', f.state, s'.frames[1..], e);
  }

  // The caller's frame after a re-dispatch from it
  lemma DispatchedFrom(c: Layout, ms: Methods, s: System, called: Cpu, f: Activation, mem': Memory, e: Cpu)
    requires ValidLayout(c) && s.frames != [] && Invariant(c, ms, s, e)
    requires Calls(c, ms, s, called.rmethod) && called == Calling(c, ms, s.cpu, called.rmethod).(lr := RECURSIVE_ACTIVATION)
    requires Get(c, s.cpu.mem, s.cpu.rstate, StackLimit) <= called.rlocals < s.cpu.rstate
    requires LocalAt(c, called.rlocals, ms[called.rmethod].parameters) < s.cpu.rstate
    requires FrameOk(c, ms, mem', f) && CallerKept(c, called, ms[called.rmethod], f.state, mem')
    requires Get(c, mem', f.state, Locals) == called.rlocals && Get(c, mem', f.state, MethodOop) == called.rmethod
    requires Get(c, mem', f.state, PrevLink) == s.cpu.rstate
    ensures var g := Activation(Top(c, f.state), s.cpu.rstate);
      CalledFrom(c, ms, mem', f.state, g) && FrameOk(c, ms, mem', g) && Below(c, ms, mem', g.state, s.frames[1..], e)
  {
    var st := s.cpu.rstate;
    FrameBounds(c, ms, mem', f);
    assert 0 < Top(c, f.state) <= s.cpu.r1 && Read(mem', Top(c, f.state)) == Read(s.cpu.mem, s.cpu.r1);
    assert forall a :: a >= st ==> Read(mem', a) == Read(s.cpu.mem, a);
    SameFields(c, st, s.cpu.mem, mem');
    hide Get, Below;
    assert CalledFrom(c, ms, mem', f.state, Activation(Top(c, f.state), st));
    hide CalledFrom, FrameOk;
    CallerFrameOk(c, ms, s.cpu.mem, mem', s.frames[0], Top(c, f.state), s.frames[1..], e);
  }

  // resume_interpreter touches nothing but the stack pointer and the message.
  lemma ResumeWrites(c: Layout, s: Cpu)
    requires ValidLayout(c)
    ensures var s' := Resume(c, s);
      && s' == s.(rlocals := Get(c, s'.mem, s.rstate, Locals), rmethod := Get(c, s'.mem, s.rstate, MethodOop), mem := s'.mem)
      && Get(c, s'.mem, s.rstate, Stack) == s.rlocals
      && (forall f :: f != Stack && f != Msg ==> Get(c, s'.mem, s.rstate, f) == Get(c, s.mem, s.rstate, f))
      && (forall a :: a < s.rstate || a >= Top(c, s.rstate) ==> Read(s'.mem, a) == Read(s.mem, a))
  {
    hide Get, Put;
  }

  // Resuming g after a call: everything from its state object upwards is as it
  // was, and at most a two-word result was pushed below its arguments.
  lemma ResumedKeeps(c: Layout, ms: Methods, mem: Memory, g: Activation, gs: seq<Activation>, u: Cpu, e: Cpu)
    requires ValidLayout(c) && FrameOk(c, ms, mem, g) && Below(c, ms, mem, g.state, gs, e)
    requires u.rstate == g.state && 0 < u.r1 <= g.sp && u.r1 % STACK_ALIGNMENT == 0 && Read(u.mem, u.r1) == Read(mem, g.sp)
    requires forall a :: a >= g.state ==> Read(u.mem, a) == Read(mem, a)
    requires Get(c, mem, g.state, StackLimit) - c.Slop() <= u.rlocals
    requires u.rlocals + c.WordSize() <= Get(c, mem, g.state, StackBase)
    ensures Invariant(c, ms, System(Resume(c, u), [Activation(u.r1, g.state)] + gs), e)
  {
    hide FrameOk, Below, Resume, Get;
    ResumedFrame(c, ms, mem, g, gs, u, e);
    assert ([Activation(u.r1, g.state)] + gs)[1..] == gs;
  }

  lemma ResumedFrame(c: Layout, ms: Methods, mem: Memory, g: Activation, gs: seq<Activation>, u: Cpu, e: Cpu)
    requires ValidLayout(c) && FrameOk(c, ms, mem, g) && Below(c, ms, mem, g.state, gs, e)
    requires u.rstate == g.state && 0 < u.r1 <= g.sp && u.r1 % STACK_ALIGNMENT == 0 && Read(u.mem, u.r1) == Read(mem, g.sp)
    requires forall a :: a >= g.state ==> Read(u.mem, a) == Read(mem, a)
    requires Get(c, mem, g.state, StackLimit) - c.Slop() <= u.rlocals
    requires u.rlocals + c.WordSize() <= Get(c, mem, g.state, StackBase)
    ensures var r := Resume(c, u);
      && r.r1 == u.r1 && r.rstate == g.state && r.rlocals == Get(c, r.mem, g.state, Locals)
      && r.rmethod == Get(c, r.mem, g.state, MethodOop)
      && FrameOk(c, ms, r.mem, Activation(u.r1, g.state)) && Below(c, ms, r.mem, g.state, gs, e)
  {
    hide FrameOk, Below, Resume, Get;
    CallerFrameOk(c, ms, mem, u.mem, g, u.r1, gs, e);
    ResumeWrites(c, u);
    SameFields(c, g.state, mem, u.mem);
    FrameBounds(c, ms, u.mem, Activation(u.r1, g.state));
    ResumedOk(c, ms, u);
    BelowKept(c, ms, u.mem, Resume(c, u).mem, g.state, gs, e);
  }

  lemma ResumedOk(c: Layout, ms: Methods, u: Cpu)
    requires ValidLayout(c) && FrameOk(c, ms, u.mem, Activation(u.r1, u.rstate))
    requires Get(c, u.mem, u.rstate, StackLimit) - c.Slop() <= u.rlocals
    requires u.rlocals + c.WordSize() <= Get(c, u.mem, u.rstate, StackBase)
    ensures FrameOk(c, ms, Resume(c, u).mem, Activation(u.r1, u.rstate))
  {
    hide Resume, Get;
    ResumeWrites(c, u);
    FrameBounds(c, ms, u.mem, Activation(u.r1, u.rstate));
  }

  // A pushed result is written at rlocals and below, and lowers rlocals by
  // its size.
  lemma PushedResult(c: Layout, s: Cpu, words: nat, floating: bool, t: Tosca)
    requires words <= 2
    ensures var s' := ToscaToStack(c, s, words, floating, t);
      && s' == s.(rlocals := s.rlocals - c.Bytes(words), mem := s'.mem)
      && forall a :: a > s.rlocals || a < s.rlocals - c.WordSize() ==> Read(s'.mem, a) == Read(s.mem, a)
  {
  }

  lemma CopiedResult(c: Layout, s: Cpu, words: nat)
    requires words <= 2
    ensures var s' := StackToStack(c, s, words);
      && s' == s.(rlocals := s.rlocals - c.Bytes(words), mem := s'.mem)
      && (words == 0 ==> s' == s)
      && forall a :: a > s.rlocals || a < s.rlocals - c.WordSize() ==> Read(s'.mem, a) == Read(s.mem, a)
  {
  }

  lemma CallsOtherKeeps(c: Layout, ms: Methods, s: System, callee: int, back: Cpu, t: Tosca, thrown: bool, s': System, e: Cpu)
    requires ValidLayout(c) && ValidMethods(ms)
    requires s.frames != [] && Invariant(c, ms, s, e) && CallsOther(c, ms, s, callee, back, t, thrown, s')
    ensures Invariant(c, ms, s', e) && s'.cpu.rstate == s.cpu.rstate
  {
    hide ToscaToStack, Resume, Get, Below, Returned;
    var g, mem := s.frames[0], s.cpu.mem;
    var found := back.(rstate := Read(back.mem, back.r1) - c.stateSize);
    var words, floating := if thrown then 0 else ms[callee].resultWords, ms[callee].floatResult;
    var u := ToscaToStack(c, found, words, floating, t);
    CallingArguments(c, ms, s, callee);
    FrameBounds(c, ms, mem, g);
    PushedResult(c, found, words, floating, t);
    NothingPushed(c, found, floating, t);
    PushedBack(c, ms, s, callee, back, u, words, e);
    ResumedKeeps(c, ms, mem, g, s.frames[1..], u, e);
    assert s' == System(Resume(c, u), [Activation(u.r1, g.state)] + s.frames[1..]);
  }

  lemma NothingPushed(c: Layout, s: Cpu, floating: bool, t: Tosca)
    ensures ToscaToStack(c, s, 0, floating, t) == s
  {
  }

  // The caller's frame as a callee and its result leave it
  lemma PushedBack(c: Layout, ms: Methods, s: System, callee: int, back: Cpu, u: Cpu, words: nat, e: Cpu)
    requires ValidLayout(c) && ValidMethods(ms)
    requires s.frames != [] && Invariant(c, ms, s, e) && Calls(c, ms, s, callee) && words <= 2
    requires Returned(c, Calling(c, ms, s.cpu, callee), back)
    requires u == back.(rstate := Read(back.mem, back.r1) - c.stateSize, rlocals := back.rlocals - c.Bytes(words), mem := u.mem)
    requires forall a :: a > back.rlocals || a < back.rlocals - c.WordSize() ==> Read(u.mem, a) == Read(back.mem, a)
    ensures var g, mem := s.frames[0], s.cpu.mem;
      && u.rstate == g.state && 0 < u.r1 <= g.sp && u.r1 % STACK_ALIGNMENT == 0 && Read(u.mem, u.r1) == Read(mem, g.sp)
      && (forall a :: a >= g.state ==> Read(u.mem, a) == Read(mem, a))
      && Get(c, mem, g.state, StackLimit) - c.Slop() <= u.rlocals
      && u.rlocals + c.WordSize() <= Get(c, mem, g.state, StackBase)
  {
    hide Get;
    CallingArguments(c, ms, s, callee);
    FrameBounds(c, ms, s.cpu.mem, s.frames[0]);
  }

  lemma {:induction false} ChainParts(c: Layout, ms: Methods, mem: Memory, fs: seq<Activation>, e: Cpu)
    requires Chain(c, ms, mem, fs, e)
    ensures FrameOk(c, ms, mem, fs[0])
    ensures if |fs| == 1 then EnteredFrom(c, ms, mem, fs[0].state, e)
      else CalledFrom(c, ms, mem, fs[0].state, fs[1]) && Chain(c, ms, mem, fs[1..], e) && FrameOk(c, ms, mem, fs[1])
  {
    assert Below(c, ms, mem, fs[0].state, fs[1..], e);
    if |fs| > 1 {
      assert Chain(c, ms, mem, fs[1..], e);
    }
  }

  lemma ReturnsKeeps(c: Layout, ms: Methods, s: System, thrown: bool, s': System, e: Cpu)
    requires ValidLayout(c) && ValidMethods(ms)
    requires s.frames != [] && Invariant(c, ms, s, e) && Returns(c, ms, s, thrown, s')
    ensures Invariant(c, ms, s', e)
  {
    ChainParts(c, ms, s.cpu.mem, s.frames, e);
    if |s.frames| == 1 {
      ReturnsToInitialCaller(c, ms, s.cpu, e);
      hide FrameOk, Get, Resume, StackToStack, Unwind, Chain;
    } else {
      hide Get, FrameOk, CalledFrom, Unwind, Chain;
      ReturnsToCaller(c, ms, s, thrown, e);
    }
  }

  lemma ReturnsToCaller(c: Layout, ms: Methods, s: System, thrown: bool, e: Cpu)
    requires ValidLayout(c) && ValidMethods(ms) && |s.frames| > 1 && s.cpu.rmethod in ms
    requires FrameOk(c, ms, s.cpu.mem, s.frames[0]) && FrameOk(c, ms, s.cpu.mem, s.frames[1])
    requires CalledFrom(c, ms, s.cpu.mem, s.frames[0].state, s.frames[1]) && Chain(c, ms, s.cpu.mem, s.frames[1..], e)
    requires s.cpu.r1 == s.frames[0].sp && s.cpu.rstate == s.frames[0].state
    requires s.cpu.rlocals == Get(c, s.cpu.mem, s.cpu.rstate, Locals)
    ensures var u := Unwind(c, if thrown then s.cpu else StackToStack(c, s.cpu, ms[s.cpu.rmethod].resultWords));
      && Get(c, s.cpu.mem, s.cpu.rstate, PrevLink) != 0 && u.rstate != 0
      && Invariant(c, ms, System(Resume(c, u), s.frames[1..]), e)
  {
    hide Get, FrameOk, CalledFrom, Chain, Below, Unwind, StackToStack, Resume, Invariant;
    var mem, gs := s.cpu.mem, s.frames[1..];
    var words := if thrown then 0 else ms[s.cpu.rmethod].resultWords;
    var copied := StackToStack(c, s.cpu, words);
    CopiedResult(c, s.cpu, words);
    UnwoundTo(c, ms, s.cpu, s.frames[0], copied, words, gs[0]);
    ChainBelow(c, ms, mem, gs, e);
    ResumedKeeps(c, ms, mem, gs[0], gs[1..], Unwind(c, copied), e);
    assert [gs[0]] + gs[1..] == gs;
  }

  lemma {:induction false} ChainBelow(c: Layout, ms: Methods, mem: Memory, fs: seq<Activation>, e: Cpu)
    requires Chain(c, ms, mem, fs, e)
    ensures Below(c, ms, mem, fs[0].state, fs[1..], e)
  {
  }

  lemma ReturnsToInitialCaller(c: Layout, ms: Methods, s: Cpu, e: Cpu)
    requires ValidLayout(c) && FrameOk(c, ms, s.mem, Current(s)) && EnteredFrom(c, ms, s.mem, s.rstate, e)
    requires s.rlocals == Get(c, s.mem, s.rstate, Locals) && s.rmethod == Get(c, s.mem, s.rstate, MethodOop)
    ensures var u := Unwind(c, s);
      Returned(c, e, u) && u.lr == e.lr && u.rstate == 0
  {
    FrameBounds(c, ms, s.mem, Current(s));
    hide Get;
  }

  // Unwinding f, after its result has been copied, finds the caller g.
  lemma UnwoundTo(c: Layout, ms: Methods, s: Cpu, f: Activation, copied: Cpu, words: nat, g: Activation)
    requires ValidLayout(c) && words <= 2
    requires FrameOk(c, ms, s.mem, f) && FrameOk(c, ms, s.mem, g) && CalledFrom(c, ms, s.mem, f.state, g)
    requires s.r1 == f.sp && s.rstate == f.state && s.rlocals == Get(c, s.mem, f.state, Locals)
    requires copied == s.(rlocals := s.rlocals - c.Bytes(words), mem := copied.mem)
    requires forall a :: a > s.rlocals || a < s.rlocals - c.WordSize() ==> Read(copied.mem, a) == Read(s.mem, a)
    ensures var u := Unwind(c, copied);
      && u.rstate == g.state && u.r1 == g.sp && u.rlocals == copied.rlocals && u.mem == copied.mem
      && Read(u.mem, u.r1) == Read(s.mem, g.sp) && g.state != 0 && Get(c, s.mem, s.rstate, PrevLink) != 0
      && 0 < u.r1 && u.r1 % STACK_ALIGNMENT == 0
      && (forall a :: a >= g.state ==> Read(u.mem, a) == Read(s.mem, a))
      && Get(c, s.mem, g.state, StackLimit) - c.Slop() <= u.rlocals
      && u.rlocals + c.WordSize() <= Get(c, s.mem, g.state, StackBase)
  {
    FrameBounds(c, ms, s.mem, f);
    FrameBounds(c, ms, s.mem, g);
    FieldsDiffer(c, f.state, PrevLink, PrevLink);
    assert Get(c, copied.mem, f.state, PrevLink) == Get(c, s.mem, f.state, PrevLink);
    hide Get;
  }

  // ---- what the caller finds on its stack ----------------------------

  // st is to resume, and its expression stack is empty down to the arguments, which begin at
  // `arguments`, but for a result of so many words; its top slots hold first
  // and, on PPC32, second; and of what lies above the arguments only the two
  // fields that resume_interpreter stores have changed.
  ghost predicate ResultOnTop(c: Layout, st: int, arguments: int, words: nat, first: int, second: int, mem: Memory, mem': Memory) {
    var stack := Get(c, mem', st, Stack);
    && stack == arguments - c.Bytes(words) && Get(c, mem', st, Msg) == METHOD_RESUME
    && (words >= 1 ==> Read(mem', SlotAt(c, stack, 0)) == first)
    && (words == 2 && !c.wide ==> Read(mem', SlotAt(c, stack, 1)) == second)
    && forall a :: a > arguments && a != At(c, st, Stack) && a != At(c, st, Msg) ==> Read(mem', a) == Read(mem, a)
  }

  // What a converter leaves before the interpreter is resumed
  ghost predicate ResultAt(c: Layout, s: Cpu, words: nat, first: int, second: int, s': Cpu) {
    && s'.rlocals == s.rlocals - c.Bytes(words)
    && (words >= 1 ==> Read(s'.mem, SlotAt(c, s'.rlocals, 0)) == first)
    && (words == 2 && !c.wide ==> Read(s'.mem, SlotAt(c, s'.rlocals, 1)) == second)
    && forall a :: a > s.rlocals ==> Read(s'.mem, a) == Read(s.mem, a)
  }

  lemma ResumedResult(c: Layout, s: Cpu, words: nat, first: int, second: int, u: Cpu)
    requires words <= 2 && ResultAt(c, s, words, first, second, u) && s.rlocals < u.rstate
    ensures ResultOnTop(c, u.rstate, s.rlocals, words, first, second, s.mem, Resume(c, u).mem)
  {
    FieldsDiffer(c, u.rstate, Stack, Msg);
    FieldsDiffer(c, u.rstate, Msg, Msg);
    var mem := u.mem[At(c, u.rstate, Stack) := u.rlocals];
    assert Resume(c, u).mem == mem[At(c, u.rstate, Msg) := METHOD_RESUME];
    hide Resume, At, FieldIndex;
  }

  // The stack-to-stack converter pushes the top of the returning method's own
  // expression stack.
  lemma CopiedIs(c: Layout, s: Cpu, words: nat)
    requires words <= 2 && SlotAt(c, Get(c, s.mem, s.rstate, Stack), 1) < s.rlocals - c.WordSize()
    ensures var stack := Get(c, s.mem, s.rstate, Stack);
      ResultAt(c, s, words, Read(s.mem, SlotAt(c, stack, 0)), Read(s.mem, SlotAt(c, stack, 1)), StackToStack(c, s, words))
  {
    hide Get;
  }

  // The other pushes what the return registers hold.
  lemma PushedIs(c: Layout, s: Cpu, words: nat, floating: bool, t: Tosca)
    requires words <= 2
    ensures ResultAt(c, s, words, if !floating then t.r3 else if words == 1 then t.single else t.high, if floating then t.low else t.r4,
      ToscaToStack(c, s, words, floating, t))
  {
  }

  // The last return gives the initial caller the top of the stack, in the
  // registers of the result's class.
  lemma NativeIs(c: Layout, s: Cpu, words: nat, floating: bool, t: Tosca)
    requires words <= 2
    ensures var stack, t' := Get(c, s.mem, s.rstate, Stack), StackToNative(c, s, words, floating, t);
      && (words == 1 ==> (if floating then t'.single else t'.r3) == Read(s.mem, SlotAt(c, stack, 0)))
      && (words == 2 ==> (if floating then t'.high else t'.r3) == Read(s.mem, SlotAt(c, stack, 0)))
      && (words == 2 && !c.wide ==> (if floating then t'.low else t'.r4) == Read(s.mem, SlotAt(c, stack, 1)))
  {
    hide Get;
  }

  // Where a method returns to a calling frame, the top of that frame's
  // expression stack is what the top of the method's own was, in place of the
  // arguments; nothing else of the stack above them has changed.
  lemma ReturnsPush(c: Layout, ms: Methods, s: System, thrown: bool, s': System, e: Cpu)
    requires ValidLayout(c) && ValidMethods(ms)
    requires |s.frames| > 1 && Invariant(c, ms, s, e) && Returns(c, ms, s, thrown, s')
    ensures s'.cpu.rstate == s.frames[1].state
    ensures var mem := s.cpu.mem;
      var stack := Get(c, mem, s.cpu.rstate, Stack);
      ResultOnTop(c, s'.cpu.rstate, Get(c, mem, s.cpu.rstate, Locals), if thrown then 0 else ms[s.cpu.rmethod].resultWords,
        Read(mem, SlotAt(c, stack, 0)), Read(mem, SlotAt(c, stack, 1)), mem, s'.cpu.mem)
  {
    ChainParts(c, ms, s.cpu.mem, s.frames, e);
    hide FrameOk, CalledFrom, Get, Unwind, StackToStack, Resume, Chain, ResultOnTop, ResultAt, SlotAt, ValidLayout;
    var words := if thrown then 0 else ms[s.cpu.rmethod].resultWords;
    var copied := StackToStack(c, s.cpu, words);
    ReturningStack(c, ms, s.cpu, s.frames[0], s.frames[1]);
    CopiedResult(c, s.cpu, words);
    CopiedIs(c, s.cpu, words);
    UnwoundTo(c, ms, s.cpu, s.frames[0], copied, words, s.frames[1]);
    UnwindKeeps(c, s.cpu, words, Read(s.cpu.mem, SlotAt(c, Get(c, s.cpu.mem, s.cpu.rstate, Stack), 0)),
      Read(s.cpu.mem, SlotAt(c, Get(c, s.cpu.mem, s.cpu.rstate, Stack), 1)), copied);
    ResumedResult(c, s.cpu, words, Read(s.cpu.mem, SlotAt(c, Get(c, s.cpu.mem, s.cpu.rstate, Stack), 0)),
      Read(s.cpu.mem, SlotAt(c, Get(c, s.cpu.mem, s.cpu.rstate, Stack), 1)), Unwind(c, copied));
  }

  lemma UnwindKeeps(c: Layout, s: Cpu, words: nat, first: int, second: int, copied: Cpu)
    requires ResultAt(c, s, words, first, second, copied)
    ensures ResultAt(c, s, words, first, second, Unwind(c, copied))
  {
    hide Get, SlotAt;
  }

  // The returning method's stack lies below the caller's.
  lemma ReturningStack(c: Layout, ms: Methods, s: Cpu, f: Activation, g: Activation)
    requires ValidLayout(c) && FrameOk(c, ms, s.mem, f) && FrameOk(c, ms, s.mem, g) && CalledFrom(c, ms, s.mem, f.state, g)
    requires s.rstate == f.state && s.rlocals == Get(c, s.mem, f.state, Locals)
    ensures SlotAt(c, Get(c, s.mem, s.rstate, Stack), 1) < s.rlocals - c.WordSize()
    ensures s.rlocals < g.state
  {
    FrameBounds(c, ms, s.mem, f);
    FrameBounds(c, ms, s.mem, g);
    hide Get;
  }

  // The same for a call out of the frame manager, with the return registers
  lemma CallsOtherPush(c: Layout, ms: Methods, s: System, callee: int, back: Cpu, t: Tosca, thrown: bool, s': System, e: Cpu)
    requires ValidLayout(c) && ValidMethods(ms)
    requires s.frames != [] && Invariant(c, ms, s, e) && CallsOther(c, ms, s, callee, back, t, thrown, s')
    ensures s'.cpu.rstate == s.cpu.rstate
    ensures var m := ms[callee];
      ResultOnTop(c, s.cpu.rstate, Get(c, s.cpu.mem, s.cpu.rstate, Stack) + c.Bytes(m.parameters), if thrown then 0 else m.resultWords,
        if !m.floatResult then t.r3 else if m.resultWords == 1 then t.single else t.high, if m.floatResult then t.low else t.r4,
        s.cpu.mem, s'.cpu.mem)
  {
    hide Get, ToscaToStack, Resume, ResultOnTop, ResultAt, Chain, FrameOk, SlotAt, ValidLayout;
    ChainParts(c, ms, s.cpu.mem, s.frames, e);
    CallsOtherKeeps(c, ms, s, callee, back, t, thrown, s', e);
    var m, called := ms[callee], Calling(c, ms, s.cpu, callee);
    var words := if thrown then 0 else m.resultWords;
    var found := back.(rstate := Read(back.mem, back.r1) - c.stateSize);
    var u := ToscaToStack(c, found, words, m.floatResult, t);
    var first, second := if !m.floatResult then t.r3 else if m.resultWords == 1 then t.single else t.high, if m.floatResult then t.low else t.r4;
    PushedResult(c, found, words, m.floatResult, t);
    NothingPushed(c, found, m.floatResult, t);
    CallingArguments(c, ms, s, callee);
    if thrown {
      NothingAt(c, found, first, second);
    } else {
      PushedIs(c, found, words, m.floatResult, t);
    }
    ResumedState(c, u);
    ResumedResult(c, found, words, first, second, u);
    BeforeCallSame(c, s.cpu.rstate, called.rlocals, words, first, second, s.cpu.mem, found.mem, s'.cpu.mem);
  }

  lemma NothingAt(c: Layout, s: Cpu, first: int, second: int)
    ensures ResultAt(c, s, 0, first, second, s)
  {
  }

  lemma ResumedState(c: Layout, u: Cpu)
    ensures Resume(c, u).rstate == u.rstate
  {
  }

  lemma BeforeCallSame(c: Layout, st: int, arguments: int, words: nat, first: int, second: int, mem: Memory, mem1: Memory, mem2: Memory)
    requires ResultOnTop(c, st, arguments, words, first, second, mem1, mem2) && forall a :: a > arguments ==> Read(mem1, a) == Read(mem, a)
    ensures ResultOnTop(c, st, arguments, words, first, second, mem, mem2)
  {
    hide Get, SlotAt;
  }

  // ---- whole runs ----------------------------------------------------

  lemma NextKeeps(c: Layout, ms: Methods, thread: int, s: System, s': System, e: Cpu)
    requires ValidLayout(c) && ValidMethods(ms)
    requires s.frames != [] && Invariant(c, ms, s, e) && Next(c, ms, thread, s, s')
    ensures Invariant(c, ms, s', e)
  {
    hide Invariant, Interprets, CallsInterpreted, CallsOther, AddsMonitor, Returns;
    if Interprets(c, ms, s, s') {
      InterpretsKeeps(c, ms, s, s', e);
    } else if callee :| CallsInterpreted(c, ms, thread, s, callee, s') {
      CallsInterpretedKeeps(c, ms, thread, s, callee, s', e);
    } else if callee, back, t, thrown :| CallsOther(c, ms, s, callee, back, t, thrown, s') {
      CallsOtherKeeps(c, ms, s, callee, back, t, thrown, s', e);
    } else if AddsMonitor(c, s, s') {
      AddsMonitorKeeps(c, ms, s, s', e);
    } else {
      var thrown :| Returns(c, ms, s, thrown, s');
      ReturnsKeeps(c, ms, s, thrown, s', e);
    }
  }

  // A run starts with an entry and stops when the initial caller is reached.
  ghost predicate Run(c: Layout, ms: Methods, thread: int, e: Cpu, run: seq<System>)
    requires ValidMethods(ms)
  {
    && |run| > 0 && Enters(c, ms, thread, e, run[0])
    && forall i :: 0 <= i < |run| - 1 ==> run[i].frames != [] && Next(c, ms, thread, run[i], run[i + 1])
  }

  lemma {:induction false} RunsKeepInvariant(c: Layout, ms: Methods, thread: int, e: Cpu, run: seq<System>)
    requires ValidLayout(c) && ValidMethods(ms) && Run(c, ms, thread, e, run)
    ensures forall i :: 0 <= i < |run| ==> Invariant(c, ms, run[i], e)
  {
    hide Invariant, Next, Enters;
    EntersEstablishes(c, ms, thread, e, run[0]);
    var n := 1;
    while n < |run|
      invariant 1 <= n <= |run|
      invariant forall i :: 0 <= i < n ==> Invariant(c, ms, run[i], e)
    {
      NextKeeps(c, ms, thread, run[n - 1], run[n], e);
      n := n + 1;
    }
  }

  // ---- walking the stack ---------------------------------------------

  // frame::sender_sp, n times over
  function SenderSp(mem: Memory, sp: int, n: nat): int
    decreases n
  {
    if n == 0 then sp else SenderSp(mem, Read(mem, sp), n - 1)
  }

  // frame::get_interpreterState
  function InterpreterState(c: Layout, mem: Memory, sp: int): int { Read(mem, sp) - c.stateSize }

  // Walking back from r1 visits the frames in order, each aligned and above
  // the last, and finds in each the state object that links to itself.
  lemma {:induction false} WalkVisitsFrames(c: Layout, ms: Methods, mem: Memory, fs: seq<Activation>, e: Cpu, i: nat)
    requires ValidLayout(c) && Chain(c, ms, mem, fs, e) && i < |fs|
    ensures SenderSp(mem, fs[0].sp, i) == fs[i].sp && fs[i].sp % STACK_ALIGNMENT == 0
    ensures fs[i].sp < Read(mem, fs[i].sp)
    ensures InterpreterState(c, mem, fs[i].sp) == fs[i].state == Get(c, mem, fs[i].state, SelfLink)
    ensures Get(c, mem, fs[i].state, PrevLink) == if i == |fs| - 1 then 0 else fs[i + 1].state
    decreases i
  {
    ChainParts(c, ms, mem, fs, e);
    FrameBounds(c, ms, mem, fs[0]);
    if i > 0 {
      WalkVisitsFrames(c, ms, mem, fs[1..], e, i - 1);
    }
  }

  lemma RunsCanBeWalked(c: Layout, ms: Methods, thread: int, e: Cpu, run: seq<System>, k: nat, i: nat)
    requires ValidLayout(c) && ValidMethods(ms) && Run(c, ms, thread, e, run)
    requires k < |run| && i < |run[k].frames|
    ensures var mem, fs := run[k].cpu.mem, run[k].frames;
      && SenderSp(mem, run[k].cpu.r1, i) == fs[i].sp && fs[i].sp % STACK_ALIGNMENT == 0 && fs[i].sp < Read(mem, fs[i].sp)
      && InterpreterState(c, mem, fs[i].sp) == fs[i].state == Get(c, mem, fs[i].state, SelfLink)
      && Get(c, mem, fs[i].state, PrevLink) == if i == |fs| - 1 then 0 else fs[i + 1].state
  {
    RunsKeepInvariant(c, ms, thread, e, run);
    WalkVisitsFrames(c, ms, run[k].cpu.mem, run[k].frames, e, i);
  }

  // When the initial caller is reached it finds its own frame (perhaps
  // extended), its LR, Rlocals and Rmethod, and everything above the locals.
  // This is also what a run may assume of a callee of its own.
  lemma RunsReturn(c: Layout, ms: Methods, thread: int, e: Cpu, run: seq<System>)
    requires ValidLayout(c) && ValidMethods(ms) && Run(c, ms, thread, e, run)
    ensures var last := run[|run| - 1];
      last.frames == [] ==> Returned(c, e, last.cpu) && last.cpu.lr == e.lr && last.cpu.rstate == 0
  {
    RunsKeepInvariant(c, ms, thread, e, run);
    hide Run;
  }
}
