// The frame manager of the C++ interpreter: what the code emitted by
// generate_adjust_callers_stack, generate_compute_interpreter_state,
// generate_more_monitors, generate_unwind_interpreter_state and the result
// converters does to the registers and the stack.
//
// Each piece is given twice: as a function on values saying what it leaves
// behind, and in class Emitted as the sequence of emitted instructions, one
// statement an instruction, proved to do exactly that.
module FrameManager {
  import opened StackLayout

  // What the generators read from a methodOop.
  datatype Method = Method(
    parameters: nat, locals: nat, maxStack: nat,
    isSynchronized: bool, isStatic: bool, resultWords: nat, floatResult: bool,
    codes: int, cache: int, mirror: int)

  // The fields of class BytecodeInterpreter that the frame manager uses.  The
  // class is not part of the repository; only that the fields are distinct
  // words inside the state object matters here.
  datatype Field =
    | Thread | Bcp | Locals | Constants | MethodOop | Mdx | Stack | Msg
    | Callee | CalleeEntry | PrevLink | OopTemp | StackBase | StackLimit | MonitorBase | SelfLink

  const FIELDS := 16

  function FieldIndex(f: Field): nat {
    match f
    case Thread => 0 case Bcp => 1 case Locals => 2 case Constants => 3 case MethodOop => 4
    case Mdx => 5 case Stack => 6 case Msg => 7 case Callee => 8 case PrevLink => 9
    case OopTemp => 10 case StackBase => 11 case StackLimit => 12 case MonitorBase => 13 case SelfLink => 14 case CalleeEntry => 15
  }

  function At(c: Layout, state: int, f: Field): int { state + c.Bytes(FieldIndex(f)) }

  function Get(c: Layout, mem: Memory, state: int, f: Field): int { Read(mem, At(c, state, f)) }

  // BytecodeInterpreter::interpreter_msg values
  const METHOD_ENTRY := 1
  const METHOD_RESUME := 2
  const GOT_MONITORS := 3

  ghost predicate ValidLayout(c: Layout) {
    && c.stateSize >= c.Bytes(FIELDS) && c.Aligned(c.stateSize)
    && c.monitorSize >= c.Bytes(2) && c.Aligned(c.monitorSize)
    && c.objOffset <= c.monitorSize - c.WordSize() && c.Aligned(c.objOffset)
  }

  // size_of_parameters, size_of_locals and max_stack are halfwords; a
  // method's locals include its parameters.
  ghost predicate ValidMethod(m: Method) {
    m.parameters <= m.locals < 0x1_0000 && m.maxStack < 0x1_0000 && m.resultWords <= 2
  }

  datatype Cpu = Cpu(r1: int, rstate: int, rlocals: int, rmethod: int, rmonitor: int, lr: int, mem: Memory)

  // ---- generate_adjust_callers_stack ---------------------------------

  // k zero words from dst downwards
  function ZeroDown(c: Layout, mem: Memory, dst: int, k: nat): Memory
    decreases k
  {
    if k == 0 then mem else ZeroDown(c, mem[dst := 0], dst - c.WordSize(), k - 1)
  }

  function AdjustExtension(c: Layout, s: Cpu, m: Method): int {
    if m.parameters == m.locals then 0
    else ExtendBy(c.Bytes(m.locals), s.rlocals - s.r1 - c.HeaderSize())
  }

  function AdjustCallersStack(c: Layout, s: Cpu, m: Method): Cpu
    requires m.parameters <= m.locals
  {
    if m.parameters == m.locals then s
    else
      var bytes := AdjustExtension(c, s, m);
      var mem := ExtendedMemory(c, s.r1, s.mem, bytes);
      s.(r1 := s.r1 - bytes,
         mem := ZeroDown(c, mem, s.rlocals - c.Bytes(m.parameters), m.locals - m.parameters))
  }

  // The address of local variable i
  function LocalAt(c: Layout, rlocals: int, i: int): int { rlocals - c.Bytes(i) }

  lemma {:induction false} ZeroDownFrame(c: Layout, mem: Memory, dst: int, k: nat, a: int)
    requires a > dst || a <= dst - c.Bytes(k)
    ensures Read(ZeroDown(c, mem, dst, k), a) == Read(mem, a)
    decreases k
  {
    if k > 0 {
      ZeroDownFrame(c, mem[dst := 0], dst - c.WordSize(), k - 1, a);
    }
  }

  lemma {:induction false} ZeroDownZeroes(c: Layout, mem: Memory, dst: int, k: nat, i: nat)
    requires i < k
    ensures Read(ZeroDown(c, mem, dst, k), dst - c.Bytes(i)) == 0
    decreases k
  {
    if i == 0 {
      ZeroDownFrame(c, mem[dst := 0], dst - c.WordSize(), k - 1, dst);
    } else {
      ZeroDownZeroes(c, mem[dst := 0], dst - c.WordSize(), k - 1, i - 1);
    }
  }

  // The parameters lie in the caller's frame, clear of its link area and
  // parameter list space.
  predicate ParametersInFrame(c: Layout, s: Cpu, m: Method) {
    && s.r1 % STACK_ALIGNMENT == 0
    && s.r1 + c.EmptyFrameSize() <= LocalAt(c, s.rlocals, m.parameters - 1)
  }

  // The parameters and everything above them stay; locals n..m-1 are zero;
  // when there are such locals, every local lies above the link area, the
  // parameter list space and the slop; r1 stays aligned and its back chain
  // (and CR save word) still name the same caller; nothing else in the old
  // frame changes.
  ghost predicate CallerAdjusted(c: Layout, s: Cpu, m: Method, s': Cpu) {
    && s' == s.(r1 := s'.r1, mem := s'.mem)
    && s'.r1 <= s.r1 && s'.r1 % STACK_ALIGNMENT == 0
    && (forall a :: a > LocalAt(c, s.rlocals, m.parameters) ==> Read(s'.mem, a) == Read(s.mem, a))
    && (forall a :: s.r1 <= a <= LocalAt(c, s.rlocals, m.locals) ==> Read(s'.mem, a) == Read(s.mem, a))
    && (forall i :: m.parameters <= i < m.locals ==> Read(s'.mem, LocalAt(c, s.rlocals, i)) == 0)
    && s'.r1 + c.EmptyFrameSize() <= LocalAt(c, s.rlocals, m.locals - 1)
    && (m.parameters < m.locals ==> s'.r1 + c.HeaderSize() <= LocalAt(c, s.rlocals, m.locals))
    && Read(s'.mem, s'.r1) == Read(s.mem, s.r1)
    && (c.wide ==> Read(s'.mem, s'.r1 + c.CrSave()) == Read(s.mem, s.r1 + c.CrSave()))
    && OnlyAsNeeded(s.r1, s'.r1, LocalAt(c, s.rlocals, m.locals) - c.HeaderSize())
  }

  // The frame is extended only if r1 was above the address it must reach, and
  // then to it but for alignment.
  predicate OnlyAsNeeded(r1: int, r1': int, address: int) {
    (r1 <= address ==> r1' == r1) && (r1' < r1 ==> address < r1' + 16)
  }

  lemma AdjustCallersStackKeepsCaller(c: Layout, s: Cpu, m: Method)
    requires ValidMethod(m) && ParametersInFrame(c, s, m)
    ensures CallerAdjusted(c, s, m, AdjustCallersStack(c, s, m))
  {
    if m.parameters < m.locals {
      var mem := ExtendedMemory(c, s.r1, s.mem, AdjustExtension(c, s, m));
      var dst, k := LocalAt(c, s.rlocals, m.parameters), m.locals - m.parameters;
      ExtendedForLocals(c, s, m);
      hide ExtendedMemory, AdjustExtension;
      LocalsZeroed(c, mem, s.rlocals, m.parameters, m.locals);
      hide ZeroDown;
    } else {
      hide ExtendedMemory, ZeroDown;
    }
  }

  // The caller's frame as extended for the locals
  lemma ExtendedForLocals(c: Layout, s: Cpu, m: Method)
    requires m.parameters < m.locals && s.r1 % STACK_ALIGNMENT == 0
    ensures var r1 := s.r1 - AdjustExtension(c, s, m);
      var mem := ExtendedMemory(c, s.r1, s.mem, AdjustExtension(c, s, m));
      && r1 <= s.r1 && r1 % STACK_ALIGNMENT == 0 && r1 + c.HeaderSize() <= LocalAt(c, s.rlocals, m.locals)
      && OnlyAsNeeded(s.r1, r1, LocalAt(c, s.rlocals, m.locals) - c.HeaderSize())
      && Read(mem, r1) == Read(s.mem, s.r1) && (c.wide ==> Read(mem, r1 + c.CrSave()) == Read(s.mem, s.r1 + c.CrSave()))
      && forall a :: a >= s.r1 ==> Read(mem, a) == Read(s.mem, a)
  {
    ExtendKeepsFrame(c, s.r1, s.mem, c.Bytes(m.locals), s.rlocals - s.r1 - c.HeaderSize());
    hide ExtendedMemory;
  }

  lemma LocalsZeroed(c: Layout, mem: Memory, rlocals: int, lo: nat, hi: nat)
    requires lo < hi
    ensures var mem' := ZeroDown(c, mem, LocalAt(c, rlocals, lo), hi - lo);
      && (forall a :: a > LocalAt(c, rlocals, lo) || a <= LocalAt(c, rlocals, hi) ==> Read(mem', a) == Read(mem, a))
      && forall i :: lo <= i < hi ==> Read(mem', LocalAt(c, rlocals, i)) == 0
  {
    hide ZeroDown;
    var dst := LocalAt(c, rlocals, lo);
    forall a | a > dst || a <= LocalAt(c, rlocals, hi) ensures Read(ZeroDown(c, mem, dst, hi - lo), a) == Read(mem, a) {
      ZeroDownFrame(c, mem, dst, hi - lo, a);
    }
    forall i | lo <= i < hi ensures Read(ZeroDown(c, mem, dst, hi - lo), LocalAt(c, rlocals, i)) == 0 {
      ZeroDownZeroes(c, mem, dst, hi - lo, i - lo);
    }
  }

  // ---- generate_compute_interpreter_state ----------------------------

  function MonitorBytes(c: Layout, m: Method): int { if m.isSynchronized then c.monitorSize else 0 }
  function StackWords(m: Method, native: bool): nat { if native then 0 else m.maxStack }

  function ActivationSize(c: Layout, m: Method, native: bool): int {
    var bytes := c.HeaderSize() + c.stateSize + c.Bytes(StackWords(m, native)) + MonitorBytes(c, m);
    bytes + Padding(bytes)
  }

  // The new frame, laid out downwards from the caller's r1: the state object,
  // the monitor if there is one, the expression stack.
  function NewState(c: Layout, s: Cpu): int { s.r1 - c.stateSize }
  function NewStackBase(c: Layout, s: Cpu, m: Method): int { NewState(c, s) - MonitorBytes(c, m) }
  function NewStack(c: Layout, s: Cpu, m: Method): int { NewStackBase(c, s, m) - c.WordSize() }
  function NewStackLimit(c: Layout, s: Cpu, m: Method, native: bool): int {
    NewStack(c, s, m) - c.Bytes(StackWords(m, native))
  }

  lemma FieldsDiffer(c: Layout, state: int, f: Field, g: Field)
    ensures At(c, state, f) == At(c, state, g) <==> f == g
    ensures state <= At(c, state, f) < state + c.Bytes(FIELDS)
  {
  }

  // A store into one field leaves the other fields and everything outside
  // the state object alone.
  function Put(c: Layout, mem: Memory, state: int, f: Field, v: int): (stored: Memory)
    ensures forall g :: Get(c, stored, state, g) == if g == f then v else Get(c, mem, state, g)
    ensures forall a :: a < state || a >= state + c.Bytes(FIELDS) ==> Read(stored, a) == Read(mem, a)
  {
    FieldsDiffer(c, state, f, f);
    assert forall g :: At(c, state, g) == At(c, state, f) <==> g == f by {
      forall g ensures At(c, state, g) == At(c, state, f) <==> g == f { FieldsDiffer(c, state, g, f); }
    }
    mem[At(c, state, f) := v]
  }

  // The state object's initial contents, in the order they are stored: first
  // the links and the stack, then the method's code and the message.
  function InitLinks(c: Layout, mem: Memory, st: int, locals: int, oop: int, prev: int, limit: int, stack: int, base: int): Memory {
    var mem := Put(c, mem, st, Locals, locals);
    var mem := Put(c, mem, st, MethodOop, oop);
    var mem := Put(c, mem, st, SelfLink, st);
    var mem := Put(c, mem, st, PrevLink, prev);
    var mem := Put(c, mem, st, StackLimit, limit);
    var mem := Put(c, mem, st, Stack, stack);
    var mem := Put(c, mem, st, StackBase, base);
    Put(c, mem, st, MonitorBase, st)
  }

  function InitCode(c: Layout, mem: Memory, st: int, m: Method, native: bool, thread: int): Memory {
    var mem := Put(c, mem, st, Thread, thread);
    var mem := if native then mem else Put(c, mem, st, Bcp, m.codes);
    var mem := Put(c, mem, st, Constants, m.cache);
    var mem := Put(c, mem, st, Msg, METHOD_ENTRY);
    var mem := if native then Put(c, mem, st, Bcp, 0) else mem;
    var mem := Put(c, mem, st, OopTemp, 0);
    var mem := Put(c, mem, st, Mdx, 0);
    Put(c, mem, st, Callee, 0)
  }

  function InitState(c: Layout, mem: Memory, st: int, s: Cpu, m: Method, native: bool, thread: int): Memory {
    InitCode(c,
      InitLinks(c, mem, st, s.rlocals, s.rmethod, s.rstate, NewStackLimit(c, s, m, native), NewStack(c, s, m), NewStackBase(c, s, m)),
      st, m, native, thread)
  }

  // The object locked by the activation: the mirror or the receiver.
  function Lockee(rlocals: int, m: Method, mem: Memory): int {
    if m.isStatic then m.mirror else Read(mem, rlocals)
  }

  function Activate(c: Layout, s: Cpu, m: Method, native: bool, thread: int): Cpu {
    var sp := s.r1 - ActivationSize(c, m, native);
    var base := NewStackBase(c, s, m);
    var mem := s.mem[s.r1 + c.LrSave() := s.lr][sp := s.r1];
    var mem1 := InitState(c, mem, NewState(c, s), s, m, native, thread);
    var mem2 := if m.isSynchronized then mem1[base + c.objOffset := Lockee(s.rlocals, m, mem1)] else mem1;
    s.(r1 := sp, rstate := NewState(c, s), rmonitor := base, mem := mem2)
  }

  ghost predicate StateWritten(c: Layout, s: Cpu, m: Method, native: bool, mem': Memory) {
    var st := NewState(c, s);
    && Get(c, mem', st, SelfLink) == st && Get(c, mem', st, MonitorBase) == st
    && Get(c, mem', st, PrevLink) == s.rstate
    && Get(c, mem', st, Locals) == s.rlocals && Get(c, mem', st, MethodOop) == s.rmethod
    && Get(c, mem', st, Msg) == METHOD_ENTRY
    && Get(c, mem', st, StackBase) == NewStackBase(c, s, m)
    && Get(c, mem', st, Stack) == NewStack(c, s, m)
    && Get(c, mem', st, StackLimit) == NewStackLimit(c, s, m, native)
  }

  ghost predicate CodeWritten(c: Layout, st: int, m: Method, native: bool, thread: int, mem': Memory) {
    && Get(c, mem', st, Thread) == thread
    && Get(c, mem', st, Bcp) == (if native then 0 else m.codes)
    && Get(c, mem', st, Constants) == m.cache
    && Get(c, mem', st, Msg) == METHOD_ENTRY
    && Get(c, mem', st, OopTemp) == 0 && Get(c, mem', st, Mdx) == 0 && Get(c, mem', st, Callee) == 0
  }

  lemma InitLinksWrites(c: Layout, mem: Memory, st: int, locals: int, oop: int, prev: int, limit: int, stack: int, base: int)
    ensures var mem' := InitLinks(c, mem, st, locals, oop, prev, limit, stack, base);
      && Get(c, mem', st, SelfLink) == st && Get(c, mem', st, MonitorBase) == st
      && Get(c, mem', st, PrevLink) == prev
      && Get(c, mem', st, Locals) == locals && Get(c, mem', st, MethodOop) == oop
      && Get(c, mem', st, StackBase) == base && Get(c, mem', st, Stack) == stack && Get(c, mem', st, StackLimit) == limit
      && forall a :: a < st || a >= st + c.Bytes(FIELDS) ==> Read(mem', a) == Read(mem, a)
  {
    hide Put, Get, Layout.Bytes;
  }

  predicate CodeField(f: Field) {
    f == Thread || f == Bcp || f == Constants || f == Msg || f == OopTemp || f == Mdx || f == Callee
  }

  lemma InitCodeWrites(c: Layout, mem: Memory, st: int, m: Method, native: bool, thread: int)
    ensures var mem' := InitCode(c, mem, st, m, native, thread);
      && CodeWritten(c, st, m, native, thread, mem')
      && (forall f :: !CodeField(f) ==> Get(c, mem', st, f) == Get(c, mem, st, f))
      && forall a :: a < st || a >= st + c.Bytes(FIELDS) ==> Read(mem', a) == Read(mem, a)
  {
    hide Put, Get, Layout.Bytes;
  }

  lemma InitStateWrites(c: Layout, mem: Memory, s: Cpu, m: Method, native: bool, thread: int)
    ensures var mem' := InitState(c, mem, NewState(c, s), s, m, native, thread);
      && StateWritten(c, s, m, native, mem') && CodeWritten(c, NewState(c, s), m, native, thread, mem')
      && forall a :: a < NewState(c, s) || a >= NewState(c, s) + c.Bytes(FIELDS) ==> Read(mem', a) == Read(mem, a)
  {
    hide Get, InitLinks, InitCode;
    var st := NewState(c, s);
    var limit, stack, base := NewStackLimit(c, s, m, native), NewStack(c, s, m), NewStackBase(c, s, m);
    InitLinksWrites(c, mem, st, s.rlocals, s.rmethod, s.rstate, limit, stack, base);
    InitCodeWrites(c, InitLinks(c, mem, st, s.rlocals, s.rmethod, s.rstate, limit, stack, base), st, m, native, thread);
  }

  lemma ActivationSizeFits(c: Layout, s: Cpu, m: Method, native: bool)
    requires ValidLayout(c) && s.r1 % STACK_ALIGNMENT == 0
    ensures var sp := s.r1 - ActivationSize(c, m, native);
      && sp % STACK_ALIGNMENT == 0
      && sp + c.HeaderSize() <= NewStackLimit(c, s, m, native) + c.WordSize() < sp + c.HeaderSize() + STACK_ALIGNMENT
  {
  }

  // What an activation sets up: the frame,
  ghost predicate ActivatedFrame(c: Layout, s: Cpu, m: Method, r1: int, mem: Memory) {
    var base := s.r1 - c.stateSize - (if m.isSynchronized then c.monitorSize else 0);
    && r1 % STACK_ALIGNMENT == 0
    && Read(mem, r1) == s.r1
    && Read(mem, s.r1 + c.LrSave()) == s.lr
    && (m.isSynchronized && s.rlocals > s.r1 + c.LrSave() ==>
          Read(mem, base + c.objOffset) == (if m.isStatic then m.mirror else Read(s.mem, s.rlocals)))
    && forall a :: a >= s.r1 && a != s.r1 + c.LrSave() ==> Read(mem, a) == Read(s.mem, a)
  }

  // and the state object with an empty expression stack.
  ghost predicate ActivatedState(c: Layout, s: Cpu, m: Method, native: bool, r1: int, mem: Memory) {
    var st, base := s.r1 - c.stateSize, s.r1 - c.stateSize - (if m.isSynchronized then c.monitorSize else 0);
    && Get(c, mem, st, SelfLink) == st && Get(c, mem, st, MonitorBase) == st
    && Get(c, mem, st, PrevLink) == s.rstate
    && Get(c, mem, st, Locals) == s.rlocals && Get(c, mem, st, MethodOop) == s.rmethod
    && Get(c, mem, st, Msg) == METHOD_ENTRY
    && Get(c, mem, st, StackBase) == base && Get(c, mem, st, Stack) == base - c.WordSize()
    && Get(c, mem, st, StackLimit) == base - c.WordSize() - c.Bytes(if native then 0 else m.maxStack)
    && r1 + c.HeaderSize() <= Get(c, mem, st, StackLimit) + c.WordSize() < r1 + c.HeaderSize() + STACK_ALIGNMENT
  }

  ghost predicate Activated(c: Layout, s: Cpu, m: Method, native: bool, s': Cpu) {
    && s' == s.(r1 := s'.r1, rstate := s.r1 - c.stateSize, rmonitor := s.r1 - c.stateSize - MonitorBytes(c, m), mem := s'.mem)
    && ActivatedFrame(c, s, m, s'.r1, s'.mem)
    && ActivatedState(c, s, m, native, s'.r1, s'.mem)
  }

  lemma ActivateBuildsFrame(c: Layout, s: Cpu, m: Method, native: bool, thread: int)
    requires ValidLayout(c) && s.r1 % STACK_ALIGNMENT == 0
    ensures Activated(c, s, m, native, Activate(c, s, m, native, thread))
    ensures CodeWritten(c, s.r1 - c.stateSize, m, native, thread, Activate(c, s, m, native, thread).mem)
  {
    hide ActivatedFrame, ActivatedState, StateWritten, InitState, ActivationSize, Layout.Bytes, Lockee;
    var sp := s.r1 - ActivationSize(c, m, native);
    var base := NewStackBase(c, s, m);
    var mem := s.mem[s.r1 + c.LrSave() := s.lr][sp := s.r1];
    ActivationSizeFits(c, s, m, native);
    InitStateWrites(c, mem, s, m, native, thread);
    var mem1 := InitState(c, mem, NewState(c, s), s, m, native, thread);
    var mem2 := if m.isSynchronized then mem1[base + c.objOffset := Lockee(s.rlocals, m, mem1)] else mem1;
    MonitorInit(c, s, m, mem1, NewState(c, s), base, mem2);
    FrameActivated(c, s, m, native, sp, mem, mem1, mem2);
    StateActivated(c, s, m, native, sp, mem1, mem2);
  }

  lemma MonitorInit(c: Layout, s: Cpu, m: Method, mem: Memory, state: int, base: int, mem': Memory)
    requires ValidLayout(c) && base == state - MonitorBytes(c, m)
    requires mem' == if m.isSynchronized then mem[base + c.objOffset := Lockee(s.rlocals, m, mem)] else mem
    ensures forall a :: a < base || a >= state ==> Read(mem', a) == Read(mem, a)
    ensures forall f :: Get(c, mem', state, f) == Get(c, mem, state, f)
  {
    forall f ensures Get(c, mem', state, f) == Get(c, mem, state, f) {
      FieldsDiffer(c, state, f, f);
    }
  }

  lemma FrameActivated(c: Layout, s: Cpu, m: Method, native: bool, sp: int, mem: Memory, mem1: Memory, mem2: Memory)
    requires ValidLayout(c) && sp % STACK_ALIGNMENT == 0
    requires sp + c.HeaderSize() <= NewStackLimit(c, s, m, native) + c.WordSize()
    requires mem == s.mem[s.r1 + c.LrSave() := s.lr][sp := s.r1]
    requires forall a :: a < NewState(c, s) || a >= NewState(c, s) + c.Bytes(FIELDS) ==> Read(mem1, a) == Read(mem, a)
    requires forall a :: a < NewStackBase(c, s, m) || a >= NewState(c, s) ==> Read(mem2, a) == Read(mem1, a)
    requires m.isSynchronized ==> Read(mem2, NewStackBase(c, s, m) + c.objOffset) == Lockee(s.rlocals, m, mem1)
    ensures ActivatedFrame(c, s, m, sp, mem2)
  {
    assert sp + c.LrSave() < NewStackBase(c, s, m) <= NewState(c, s);
  }

  lemma StateActivated(c: Layout, s: Cpu, m: Method, native: bool, sp: int, mem1: Memory, mem2: Memory)
    requires sp + c.HeaderSize() <= NewStackLimit(c, s, m, native) + c.WordSize() < sp + c.HeaderSize() + STACK_ALIGNMENT
    requires StateWritten(c, s, m, native, mem1)
    requires forall f :: Get(c, mem2, NewState(c, s), f) == Get(c, mem1, NewState(c, s), f)
    ensures ActivatedState(c, s, m, native, sp, mem2)
  {
    hide Get;
  }

  // ---- generate_more_monitors ----------------------------------------

  // The ascending word-by-word move of [src, end) down by d bytes.
  function MoveDown(c: Layout, mem: Memory, src: int, end: int, d: int): Memory
    decreases end - src
  {
    if src < end then MoveDown(c, mem[src - d := Read(mem, src)], src + c.WordSize(), end, d) else mem
  }

  lemma {:induction false} MoveDownFrame(c: Layout, mem: Memory, src: int, end: int, d: int, a: int)
    requires a < src - d || a >= end - d
    ensures Read(MoveDown(c, mem, src, end, d), a) == Read(mem, a)
    decreases end - src
  {
    if src < end {
      MoveDownFrame(c, mem[src - d := Read(mem, src)], src + c.WordSize(), end, d, a);
    }
  }

  // Source and destination may overlap: no word is overwritten before it has
  // been copied.
  lemma {:induction false} MoveDownCopies(c: Layout, mem: Memory, src: int, end: int, d: int, i: nat)
    requires d > 0 && src + c.Bytes(i) < end
    ensures Read(MoveDown(c, mem, src, end, d), src + c.Bytes(i) - d) == Read(mem, src + c.Bytes(i))
    decreases i
  {
    var mem1 := mem[src - d := Read(mem, src)];
    if i == 0 {
      MoveDownFrame(c, mem1, src + c.WordSize(), end, d, src - d);
    } else {
      MoveDownCopies(c, mem1, src + c.WordSize(), end, d, i - 1);
    }
  }

  function MonitorExtension(c: Layout, s: Cpu): int {
    ExtendBy(c.HeaderSize() + c.monitorSize, Get(c, s.mem, s.rstate, StackLimit) + c.WordSize() - s.r1)
  }

  function MoreMonitors(c: Layout, s: Cpu): Cpu {
    var st := s.rstate;
    var d := c.monitorSize;
    var bytes := MonitorExtension(c, s);
    var mem := ExtendedMemory(c, s.r1, s.mem, bytes);
    var stack, base := Get(c, mem, st, Stack), Get(c, mem, st, StackBase);
    var moved := MoveDown(c, mem, stack + c.WordSize(), base, d);
    s.(r1 := s.r1 - bytes, mem := FreeMonitor(c, MovePointers(c, moved, st, d), st))
  }

  function MovePointers(c: Layout, mem: Memory, st: int, d: int): Memory {
    var mem1 := mem[At(c, st, StackLimit) := Get(c, mem, st, StackLimit) - d];
    var mem2 := mem1[At(c, st, Stack) := Get(c, mem1, st, Stack) - d];
    mem2[At(c, st, StackBase) := Get(c, mem2, st, StackBase) - d]
  }

  function FreeMonitor(c: Layout, mem: Memory, st: int): Memory {
    mem[Get(c, mem, st, StackBase) + c.objOffset := 0]
  }

  // The address of the i-th word of the expression stack, counted from its top
  function SlotAt(c: Layout, stack: int, i: nat): int { stack + c.Bytes(i + 1) }

  predicate StackPointer(c: Layout, st: int, a: int) {
    a == At(c, st, StackLimit) || a == At(c, st, Stack) || a == At(c, st, StackBase)
  }

  lemma MovePointersWrites(c: Layout, mem: Memory, st: int, d: int)
    ensures var mem' := MovePointers(c, mem, st, d);
      && (forall f :: f == StackLimit || f == Stack || f == StackBase ==> Get(c, mem', st, f) == Get(c, mem, st, f) - d)
      && (forall a :: !StackPointer(c, st, a) ==> Read(mem', a) == Read(mem, a))
  {
    FieldsDiffer(c, st, StackLimit, Stack);
    FieldsDiffer(c, st, StackLimit, StackBase);
    FieldsDiffer(c, st, Stack, StackBase);
  }

  // An expression stack lies between the frame header and the state object.
  // A result may have been pushed into the slop.
  predicate StackWithin(c: Layout, sp: int, st: int, mem: Memory) {
    && sp % STACK_ALIGNMENT == 0
    && sp + c.HeaderSize() <= Get(c, mem, st, StackLimit) + c.WordSize()
    && Get(c, mem, st, StackLimit) - c.Slop() <= Get(c, mem, st, Stack)
    && Get(c, mem, st, Stack) + c.WordSize() <= Get(c, mem, st, StackBase) <= st
  }

  predicate ExpressionStackOk(c: Layout, s: Cpu) { StackWithin(c, s.r1, s.rstate, s.mem) }

  // One more monitor: the three pointers go down by the monitor's size, every
  // live stack slot goes with them, the new monitor at the new stack base is
  // free, the frame still clears its header and names the same caller, and
  // nothing from the old stack base upwards changes but the three pointers.
  ghost predicate RoomMade(c: Layout, s: Cpu, s': Cpu) {
    && s' == s.(r1 := s'.r1, mem := s'.mem)
    && PointersLowered(c, s, s') && StackLowered(c, s, s')
    && OnlyAsNeeded(s.r1, s'.r1, Get(c, s.mem, s.rstate, StackLimit) + c.WordSize() - c.HeaderSize() - c.monitorSize)
  }

  ghost predicate PointersLowered(c: Layout, s: Cpu, s': Cpu) {
    var st, d := s.rstate, c.monitorSize;
    && s'.rstate == st && s'.r1 <= s.r1 && ExpressionStackOk(c, s')
    && Read(s'.mem, s'.r1) == Read(s.mem, s.r1)
    && Get(c, s'.mem, st, StackLimit) == Get(c, s.mem, st, StackLimit) - d
    && Get(c, s'.mem, st, Stack) == Get(c, s.mem, st, Stack) - d
    && Get(c, s'.mem, st, StackBase) == Get(c, s.mem, st, StackBase) - d
  }

  ghost predicate StackLowered(c: Layout, s: Cpu, s': Cpu) {
    var st, d := s.rstate, c.monitorSize;
    var stack, base := Get(c, s.mem, st, Stack), Get(c, s.mem, st, StackBase);
    && Read(s'.mem, base - d + c.objOffset) == 0
    && (forall i: nat :: SlotAt(c, stack, i) < base ==> Read(s'.mem, SlotAt(c, stack, i) - d) == Read(s.mem, SlotAt(c, stack, i)))
    && (forall a :: a >= base && !StackPointer(c, st, a) ==> Read(s'.mem, a) == Read(s.mem, a))
  }

  ghost predicate Extended(c: Layout, s: Cpu, r1: int, mem: Memory) {
    && r1 <= s.r1 && r1 % STACK_ALIGNMENT == 0
    && r1 + c.HeaderSize() + c.monitorSize <= Get(c, s.mem, s.rstate, StackLimit) + c.WordSize()
    && OnlyAsNeeded(s.r1, r1, Get(c, s.mem, s.rstate, StackLimit) + c.WordSize() - c.HeaderSize() - c.monitorSize)
    && Read(mem, r1) == Read(s.mem, s.r1)
    && (forall a :: a >= s.r1 ==> Read(mem, a) == Read(s.mem, a))
  }

  ghost predicate MovedDown(c: Layout, mem: Memory, stack: int, base: int, d: int, moved: Memory) {
    && (forall a :: a < stack + c.WordSize() - d || a >= base - d ==> Read(moved, a) == Read(mem, a))
    && (forall i: nat :: SlotAt(c, stack, i) < base ==> Read(moved, SlotAt(c, stack, i) - d) == Read(mem, SlotAt(c, stack, i)))
  }

  ghost predicate Moved(c: Layout, s: Cpu, r1: int, mem: Memory, moved: Memory) {
    && Extended(c, s, r1, mem)
    && MovedDown(c, mem, Get(c, s.mem, s.rstate, Stack), Get(c, s.mem, s.rstate, StackBase), c.monitorSize, moved)
  }

  lemma MovedFields(c: Layout, s: Cpu, r1: int, mem: Memory, moved: Memory)
    requires ValidLayout(c) && ExpressionStackOk(c, s) && Moved(c, s, r1, mem, moved)
    ensures forall f :: Get(c, moved, s.rstate, f) == Get(c, s.mem, s.rstate, f) && s.rstate <= At(c, s.rstate, f)
  {
    forall f ensures Get(c, moved, s.rstate, f) == Get(c, s.mem, s.rstate, f) && s.rstate <= At(c, s.rstate, f) {
      FieldsDiffer(c, s.rstate, f, f);
    }
  }

  lemma PointersAfterMove(c: Layout, s: Cpu, r1: int, mem: Memory, moved: Memory)
    requires ValidLayout(c) && ExpressionStackOk(c, s) && Moved(c, s, r1, mem, moved)
    ensures PointersLowered(c, s, s.(r1 := r1, mem := FreeMonitor(c, MovePointers(c, moved, s.rstate, c.monitorSize), s.rstate)))
  {
    MovedFields(c, s, r1, mem, moved);
    MovePointersWrites(c, moved, s.rstate, c.monitorSize);
    hide MovePointers;
  }

  lemma StackAfterMove(c: Layout, s: Cpu, r1: int, mem: Memory, moved: Memory)
    requires ValidLayout(c) && ExpressionStackOk(c, s) && Moved(c, s, r1, mem, moved)
    ensures StackLowered(c, s, s.(r1 := r1, mem := FreeMonitor(c, MovePointers(c, moved, s.rstate, c.monitorSize), s.rstate)))
  {
    MovedFields(c, s, r1, mem, moved);
    MovePointersWrites(c, moved, s.rstate, c.monitorSize);
    hide MovePointers;
  }

  lemma MonitorExtensionKeepsFrame(c: Layout, s: Cpu)
    requires ValidLayout(c) && ExpressionStackOk(c, s)
    ensures var bytes := MonitorExtension(c, s);
      var mem := ExtendedMemory(c, s.r1, s.mem, bytes);
      && Extended(c, s, s.r1 - bytes, mem)
      && forall f :: Get(c, mem, s.rstate, f) == Get(c, s.mem, s.rstate, f)
  {
    var mem := ExtendedMemory(c, s.r1, s.mem, MonitorExtension(c, s));
    ExtendKeepsFrame(c, s.r1, s.mem, c.HeaderSize() + c.monitorSize, Get(c, s.mem, s.rstate, StackLimit) + c.WordSize() - s.r1);
    forall f ensures Get(c, mem, s.rstate, f) == Get(c, s.mem, s.rstate, f) {
      FieldsDiffer(c, s.rstate, f, f);
    }
  }

  lemma MoveLowersStack(c: Layout, mem: Memory, stack: int, base: int, d: int)
    requires d > 0
    ensures MovedDown(c, mem, stack, base, d, MoveDown(c, mem, stack + c.WordSize(), base, d))
  {
    var moved := MoveDown(c, mem, stack + c.WordSize(), base, d);
    forall a | a < stack + c.WordSize() - d || a >= base - d ensures Read(moved, a) == Read(mem, a) {
      MoveDownFrame(c, mem, stack + c.WordSize(), base, d, a);
    }
    forall i: nat | SlotAt(c, stack, i) < base
      ensures Read(moved, SlotAt(c, stack, i) - d) == Read(mem, SlotAt(c, stack, i))
    {
      MoveDownCopies(c, mem, stack + c.WordSize(), base, d, i);
    }
  }

  lemma MoreMonitorsMakesRoom(c: Layout, s: Cpu)
    requires ValidLayout(c) && ExpressionStackOk(c, s)
    ensures RoomMade(c, s, MoreMonitors(c, s))
  {
    hide ExpressionStackOk, Extended, MovedDown, PointersLowered, StackLowered,
      ExtendedMemory, MoveDown, MovePointers, FreeMonitor, MonitorExtension, Get;
    var st, d := s.rstate, c.monitorSize;
    var bytes := MonitorExtension(c, s);
    var mem := ExtendedMemory(c, s.r1, s.mem, bytes);
    var stack, base := Get(c, s.mem, st, Stack), Get(c, s.mem, st, StackBase);
    MonitorExtensionKeepsFrame(c, s);
    var moved := MoveDown(c, mem, stack + c.WordSize(), base, d);
    MoveLowersStack(c, mem, stack, base, d);
    PointersAfterMove(c, s, s.r1 - bytes, mem, moved);
    StackAfterMove(c, s, s.r1 - bytes, mem, moved);
  }

  // ---- the result converters -----------------------------------------

  // generate_stack_to_stack_converter: the result, zero to two words, from the
  // returning method's expression stack onto its caller's.
  function StackToStack(c: Layout, s: Cpu, words: nat): Cpu {
    var stack := Get(c, s.mem, s.rstate, Stack);
    if words == 0 then s
    else if words == 1 then
      s.(mem := s.mem[s.rlocals := Read(s.mem, stack + c.WordSize())], rlocals := s.rlocals - c.WordSize())
    else
      var mem := s.mem[s.rlocals - c.WordSize() := Read(s.mem, stack + c.WordSize())];
      s.(mem := if c.wide then mem else mem[s.rlocals := Read(mem, stack + c.Bytes(2))], rlocals := s.rlocals - c.Bytes(2))
  }

  // The return registers: r3 and r4, and f1 by what stfs stores of it (single)
  // and what stfd does (high and, on PPC32, low).
  datatype Tosca = Tosca(r3: int, r4: int, single: int, high: int, low: int)

  // generate_tosca_to_stack_converter: the result from the return registers.
  function ToscaToStack(c: Layout, s: Cpu, words: nat, floating: bool, t: Tosca): Cpu {
    if words == 0 then s
    else if words == 1 then s.(mem := s.mem[s.rlocals := if floating then t.single else t.r3], rlocals := s.rlocals - c.WordSize())
    else
      var mem := s.mem[s.rlocals - c.WordSize() := if floating then t.high else t.r3];
      s.(mem := if c.wide then mem else mem[s.rlocals := if floating then t.low else t.r4], rlocals := s.rlocals - c.Bytes(2))
  }

  // generate_stack_to_native_abi_converter: the result into the return registers
  // of its class.
  function StackToNative(c: Layout, s: Cpu, words: nat, floating: bool, t: Tosca): Tosca {
    var stack := Get(c, s.mem, s.rstate, Stack);
    if words == 0 then t
    else if words == 1 then
      var w := Read(s.mem, stack + c.WordSize());
      if floating then t.(single := w) else t.(r3 := w)
    else
      var w, v := Read(s.mem, stack + c.WordSize()), Read(s.mem, stack + c.Bytes(2));
      if floating then t.(high := w, low := if c.wide then t.low else v) else t.(r3 := w, r4 := if c.wide then t.r4 else v)
  }

  // resume_interpreter
  function Resume(c: Layout, s: Cpu): Cpu {
    var mem := Put(c, s.mem, s.rstate, Stack, s.rlocals);
    s.(rlocals := Get(c, mem, s.rstate, Locals), rmethod := Get(c, mem, s.rstate, MethodOop),
       mem := Put(c, mem, s.rstate, Msg, METHOD_RESUME))
  }

  // ---- generate_unwind_interpreter_state -----------------------------

  function Unwind(c: Layout, s: Cpu): Cpu {
    var r1 := Read(s.mem, s.r1);
    s.(rstate := Get(c, s.mem, s.rstate, PrevLink), r1 := r1, lr := Read(s.mem, r1 + c.LrSave()))
  }
}
