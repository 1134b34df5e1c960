# Verified models of IcedTea components

IcedTea carries its own ports and tools beside OpenJDK. This project models
three of them in Dafny and proves what they are relied on for.

**The PowerPC back end of the template-generated HotSpot port**
(`contrib/templater/hotspot`). Emitted code is modelled as what it does to
registers and memory, one statement per instruction, and each emitter is
proved to have exactly the effect that the theorems speak of.

- `StackLayout`, `FrameManager`, `FrameManagerCode`, `FrameManagerRuns`: the
  frame manager of the C++ interpreter. The main theorem is about every run of
  calls, re-dispatches to interpreted methods, calls out of the frame manager,
  new monitors, returns and exceptions, to any depth: the frames form a chain
  of aligned frames that can be walked, each with the state object it links to,
  and the initial caller gets its frame back.
- `CallStub`: the way in. The stub's frame holds what the frame manager asks of
  its callers, every run returns to where the stub can restore everything, and
  the stub around any run hands its caller's registers back.
- `StackFrames`, `StackFrameCalls`, `StackFrameCode`: prologs and epilogs. For
  every set of requests, every body and call trees of any depth, calls hand
  back what their callers rely on. `ContainedIff` says exactly when a frame
  stays within its bounds.
- `ThinLock`: `lock_object` and `unlock_object` as a protocol over
  load-reserve and store-conditional, for any number of threads and objects and
  any interleaving, with reservations lost at any time.
- `Bits`, `LoadImmediate`, `Encoding`, `Branches`: the assembler and the
  disassembler. Encoding and decoding undo each other in both directions; one
  pass with patching equals direct emission; loading an immediate is right
  exactly where `Load64Iff` and `Load32Iff` say.
- `Signature`: the handlers that move the arguments of native methods from the
  interpreter's locals, on PPC32, checked against the parameter passing
  algorithm of the System V ABI PowerPC Processor Supplement, chapter 3. The
  instruction layouts of `Encoding` are those of section 1.6 of Power ISA 2.07
  Book I; the link areas of `StackLayout` are those of section 3.2.2 of the
  64-bit PowerPC ELF ABI Supplement and of "The Stack Frame" in chapter 3 of
  the System V supplement.

**The interview engine of jtreg** (`test/jtreg/com/sun/interview`).

- `InterviewPath`: cursors in a tree of paths. Along every run of successful
  moves the current question goes through the flattened path one by one.
- `InterviewJump`: setting the current question, and what the path to it then
  shows, for any cursors.
- `PredictPath`: which questions are on the path. The answers determine one
  path; an update keeps it up to the changed question, repeats nothing, and
  equals a fresh prediction exactly when `UpdateIsFreshIff` says; prediction
  ends exactly when `PredictionEndsIff` says.
- `InterviewSet`: dependencies between child interviews and the order of calls.
- `ListQuestion`: positions, tags and default names of loop bodies.
- `Properties2`: writing and reading property files.

**The templater's preprocessor** (`contrib/templater/generate.py`), in
`Preprocess`: a partial evaluator of conditional directives that keeps the
meaning of the text.

Code that works by changing things is a class or a method with loops, proved
against a function on values; the lemmas are about those functions.

Where the code does not do what its comments or callers expect, the model
follows the code, and a lemma says for all inputs when the expectation is met;
where the middle column names a lemma, it gives a concrete input:

| what is expected | where it fails | met exactly when |
|---|---|---|
| an immediate is loaded as it is | the values `Load64Leaves` and `Load32Leaves` give | `Load64Iff`, `Load32Iff` |
| a frame stays within its bounds (the save word of r0 is skipped and not counted) | `SpillsOntoBackChain` | `ContainedIff` |
| only balanced texts are accepted | `AcceptsUnbalanced` | `AcceptsIff`, `AcceptedBalancedIff` |
| the residual is balanced and reads the same (an opaque `#if` in a discarded region) | `DiscardedIfUnbalances` | `ResidualBalancedIff`, `ReadTheSameIff` |
| a definition means the same with `_LP64` replaced | `MergedNamesDiffer` | `DefineRenamedIff` |
| a move that fails leaves the current question | a root that begins with a nested interview | `PrevFails` (for next, where `NextAtEnd` says) |
| `getPathToCurrent` gives the path up to the current question (cursors that `setCurrentQuestion` leaves behind or past an end) | `JumpLosesPath` | `PathToCurrentIff`, `JumpShowsIff`, `ThrowsIff` |
| an updated path is the one found from the beginning | any path `UpdateIsFreshIff` excludes | `UpdateIsFreshIff` |
| prediction ends | `DisabledCycleNeverEnds` | `PredictionEndsIff`, `StuckIff` |
| a child is listed once | `FirstListedTwice` | `ListsOnceIff` |
| searching dependencies ends (a child that depends on itself is not rejected) | a child made to depend on itself | `CollectsIff`, `AddedAcyclicIff` |
| bodies have different default names | `Rejoin` | `SetDiffersIff`, `NamesDifferIff` |
| a saved table comes back (keys are not escaped, spaces that values start with are lost) | any table `RoundTripIff` excludes | `RoundTripIff` |
| a header of several lines is a comment | `HeaderLeaks` | `RoundTripHeaderIff`, `HeaderHarmlessIff` |

## Model

| member | source | states |
|---|---|---|
| StackLayout.ExtendKeepsFrame | contrib/templater/hotspot/src/cpu/CPU/vm/assembler_CPU.cpp:1341-1373 | Extending a frame gives at least the bytes asked for and no more than alignment adds, keeps r1 aligned and the same caller (and CR save word) named, and moves nothing at or above the old r1 |
| StackLayout.Padding | contrib/templater/hotspot/src/cpu/CPU/vm/assembler_CPU.cpp:1326-1339 | The padding is less than the alignment and completes it |
| StackLayout.Sizes | contrib/templater/hotspot/src/cpu/CPU/vm/assembler_CPU.hpp:264-292 | The word size, the smallest frame, the interpreter frame header, and the offsets of the CR and LR save words, in bytes, on PPC32 and PPC64 |
| FrameManager.ZeroDownZeroes | contrib/templater/hotspot/src/cpu/CPU/vm/cppInterpreter_CPU.cpp:1029-1037 | The zeroing loop zeroes each of its k words |
| FrameManager.AdjustCallersStackKeepsCaller | contrib/templater/hotspot/src/cpu/CPU/vm/cppInterpreter_CPU.cpp:995-1040 | Parameters and all above them stay, exactly locals n..m-1 become zero, the locals clear the link area (and the slop where there are such locals), r1 stays aligned and names the same caller |
| FrameManager.ActivateBuildsFrame | contrib/templater/hotspot/src/cpu/CPU/vm/cppInterpreter_CPU.cpp:1078-1202 | An activation makes an aligned frame whose back chain is the caller's r1, saves LR in the caller, links the state object to itself and to the previous one, sets up an empty expression stack, the monitor, the thread, the byte codes and the constant pool, and keeps everything above |
| FrameManager.InitStateWrites | contrib/templater/hotspot/src/cpu/CPU/vm/cppInterpreter_CPU.cpp:1149-1190 | Every field of the state object holds its initial value, and nothing else is written |
| FrameManager.MoveDownCopies | contrib/templater/hotspot/src/cpu/CPU/vm/cppInterpreter_CPU.cpp:1240-1248 | The overlapping word-by-word move copies every word: none is overwritten before it was read |
| FrameManager.MoreMonitorsMakesRoom | contrib/templater/hotspot/src/cpu/CPU/vm/cppInterpreter_CPU.cpp:1210-1269 | The three stack pointers go down by the monitor size, every live slot goes with them, the new monitor is free, the frame still clears its header and names the same caller, nothing from the old base up changes |
| FrameManagerRuns.InterpretsKeeps | contrib/templater/hotspot/src/cpu/CPU/vm/cppInterpreter_CPU.cpp:807-826 | What the interpreter may write keeps the stack invariant |
| FrameManagerRuns.EntersEstablishes | contrib/templater/hotspot/src/cpu/CPU/vm/cppInterpreter_CPU.cpp:795-804 | An entry from outside establishes the stack invariant |
| FrameManagerRuns.CallsInterpretedKeeps | contrib/templater/hotspot/src/cpu/CPU/vm/cppInterpreter_CPU.cpp:842-860 | A re-dispatch to an interpreted method keeps the stack invariant, one frame deeper |
| FrameManagerRuns.CallsOtherKeeps | contrib/templater/hotspot/src/cpu/CPU/vm/cppInterpreter_CPU.cpp:863-878 | A call out of the frame manager, which may extend the frame and push a result or throw, keeps the invariant: Rstate is found again from the back chain |
| FrameManagerRuns.AddsMonitorKeeps | contrib/templater/hotspot/src/cpu/CPU/vm/cppInterpreter_CPU.cpp:911-917 | more_monitors keeps the stack invariant |
| FrameManagerRuns.ReturnsKeeps | contrib/templater/hotspot/src/cpu/CPU/vm/cppInterpreter_CPU.cpp:881-938 | Returning and throwing find exactly the previous frame and state, or the initial caller, and keep the invariant |
| FrameManagerRuns.ReturnsToInitialCaller | contrib/templater/hotspot/src/cpu/CPU/vm/cppInterpreter_CPU.cpp:903-908 | The last unwind gives the initial caller its frame, LR, Rlocals and Rmethod |
| FrameManagerRuns.RunsKeepInvariant | contrib/templater/hotspot/src/cpu/CPU/vm/cppInterpreter_CPU.cpp:779-939 | The invariant holds in every state of every run of calls, re-dispatches, monitors, returns and throws, to any depth |
| FrameManagerRuns.WalkVisitsFrames | contrib/templater/hotspot/src/cpu/CPU/vm/frame_CPU.inline.hpp:72-96 | Walking sender_sp from r1 visits the frames in order, each aligned and strictly above the last; get_interpreterState finds in each the state that links to itself |
| FrameManagerRuns.RunsCanBeWalked | contrib/templater/hotspot/src/cpu/CPU/vm/frame_CPU.inline.hpp:72-96 | The same in every state of every run |
| FrameManagerRuns.RunsReturn | contrib/templater/hotspot/src/cpu/CPU/vm/cppInterpreter_CPU.cpp:779-939 | A run that reaches its initial caller hands back its frame (perhaps extended) with its back chain, LR, Rlocals, Rmethod and everything above the arguments |
| FrameManagerRuns.ReturnsPush | contrib/templater/hotspot/src/cpu/CPU/vm/cppInterpreter_CPU.cpp:881-901 | After a return into a calling frame the top slots of its expression stack hold what the top slots of the returning method's held, in place of the arguments; after a throw nothing; of what lies above the arguments only the stack pointer and the message have changed |
| FrameManagerRuns.CallsOtherPush | contrib/templater/hotspot/src/cpu/CPU/vm/cppInterpreter_CPU.cpp:863-878 | After a call out of the frame manager they hold r3 and r4, or f1, in the same way |
| FrameManagerRuns.NativeIs | contrib/templater/hotspot/src/cpu/CPU/vm/cppInterpreter_CPU.cpp:903-908 | The last return leaves the top slots in the return registers of the result's class |
| FrameManagerCode.Emitted.CalcPaddingForAlignment | contrib/templater/hotspot/src/cpu/CPU/vm/assembler_CPU.cpp:1326-1339 | The three instructions leave the padding |
| FrameManagerCode.Emitted.MaybeExtendFrame | contrib/templater/hotspot/src/cpu/CPU/vm/assembler_CPU.cpp:1341-1373 | The emitted code has exactly the effect of the extension |
| FrameManagerCode.Emitted.AdjustCallersStackCode | contrib/templater/hotspot/src/cpu/CPU/vm/cppInterpreter_CPU.cpp:995-1040 | The emitted code, instruction by instruction, has exactly the effect AdjustCallersStackKeepsCaller speaks of |
| FrameManagerCode.Emitted.ComputeInterpreterState | contrib/templater/hotspot/src/cpu/CPU/vm/cppInterpreter_CPU.cpp:1078-1202 | The emitted code has exactly the effect ActivateBuildsFrame speaks of |
| FrameManagerCode.Emitted.MoreMonitorsCode | contrib/templater/hotspot/src/cpu/CPU/vm/cppInterpreter_CPU.cpp:1210-1269 | The emitted code, with its copy loop, has exactly the effect MoreMonitorsMakesRoom speaks of |
| FrameManagerCode.Emitted.UnwindInterpreterState | contrib/templater/hotspot/src/cpu/CPU/vm/cppInterpreter_CPU.cpp:1291-1297 | The emitted code leaves the previous Rstate and the caller's r1 and LR |
| FrameManagerCode.Emitted.DispatchCode | contrib/templater/hotspot/src/cpu/CPU/vm/cppInterpreter_CPU.cpp:797-804 | The emitted code has the effect of one dispatch in the run theorems |
| FrameManagerCode.Emitted.LoadCallee | contrib/templater/hotspot/src/cpu/CPU/vm/cppInterpreter_CPU.cpp:843-855 | The emitted code loads the callee from the state object, leaves the registers the run theorems assume, and tells by the entry point whether the callee is interpreted |
| FrameManagerCode.Emitted.ReloadState | contrib/templater/hotspot/src/cpu/CPU/vm/cppInterpreter_CPU.cpp:863-878 | After a call Rstate is the back chain less the size of the state object |
| FrameManagerCode.Emitted.StackToStackConverter | contrib/templater/hotspot/src/cpu/CPU/vm/cppInterpreter_CPU.cpp:234-283 | The emitted code moves a result of zero to two words to the caller's stack |
| FrameManagerCode.Emitted.ToscaToStackConverter | contrib/templater/hotspot/src/cpu/CPU/vm/cppInterpreter_CPU.cpp:173-222 | The emitted code pushes a result of zero to two words from r3 and r4, or from f1 |
| FrameManagerCode.Emitted.StackToNativeConverter | contrib/templater/hotspot/src/cpu/CPU/vm/cppInterpreter_CPU.cpp:292-338 | The emitted code loads a result of zero to two words into r3 and r4, or f1 |
| FrameManagerCode.Emitted.ResumeInterpreter | contrib/templater/hotspot/src/cpu/CPU/vm/cppInterpreter_CPU.cpp:893-901 | The emitted code gives the resumed method its stack pointer and message |
| FrameManagerCode.Emitted.ReturnFromMethod | contrib/templater/hotspot/src/cpu/CPU/vm/cppInterpreter_CPU.cpp:881-908 | The emitted code converts the result and unwinds, and is done, with the result in the return registers, exactly when there is no previous state |
| ThinLock.AcquireKeeps | contrib/templater/hotspot/src/cpu/CPU/vm/interp_masm_CPU.cpp:91-132 | The conditional store of lock_object succeeds only on an object that nobody holds |
| ThinLock.ReleaseKeeps | contrib/templater/hotspot/src/cpu/CPU/vm/interp_masm_CPU.cpp:134-178 | The conditional store of unlock_object puts the original mark back and keeps the invariant |
| ThinLock.RunsKeepInvariant | contrib/templater/hotspot/src/cpu/CPU/vm/interp_masm_CPU.cpp:91-178 | The protocol invariant holds in every state of every interleaving of any number of threads |
| ThinLock.MutualExclusion | contrib/templater/hotspot/src/cpu/CPU/vm/interp_masm_CPU.cpp:91-178 | In every interleaving at most one thread holds an object, with one entry; while it does, the mark is its lock's address and the displaced header the original mark; while nobody does, the mark is the original one |
| ThinLock.UnlockNeverFails | contrib/templater/hotspot/src/cpu/CPU/vm/interp_masm_CPU.cpp:134-178 | A holder's unlock never ends in unimplemented() |
| ThinLock.ComparedWith | contrib/templater/hotspot/src/cpu/CPU/vm/assembler_CPU.cpp:1164-1179 | In every interleaving, however many conditional stores have failed, a thread that gives up has read at its last load-and-reserve another mark than the one it compares with |
| ThinLock.LockFailsOnlyIfHeld | contrib/templater/hotspot/src/cpu/CPU/vm/interp_masm_CPU.cpp:91-132 | In every interleaving, however many conditional stores have failed, lock_object ends in unimplemented() only if somebody held the object when it loaded the mark or at its last load-and-reserve |
| ThinLock.CallsEndWell | contrib/templater/hotspot/src/cpu/CPU/vm/interp_masm_CPU.cpp:91-178 | In every interleaving lock_object returns only with the lock and unlock_object only without it, nothing else being gained or lost |
| ThinLock.SetUnlockedSets | contrib/templater/hotspot/src/cpu/CPU/vm/interp_masm_CPU.cpp:111-113 | The mark compared with has its low bit set and every other bit as loaded |
| ThinLock.LockAloneSucceedsIffFree | contrib/templater/hotspot/src/cpu/CPU/vm/assembler_CPU.cpp:1164-1179 | Run alone, lock_object succeeds exactly when nobody holds the object, and otherwise changes no mark |
| ThinLock.UnlockAloneRestores | contrib/templater/hotspot/src/cpu/CPU/vm/assembler_CPU.cpp:1164-1179 | Run alone, a holder's unlock_object succeeds and changes exactly the one mark, to the original |
| StackFrames.PrologRuns | contrib/templater/hotspot/src/cpu/CPU/vm/assembler_CPU.cpp:786-848 | Running the prolog makes the frame, saves everything asked for in its slots, leaves the body's registers as they were and, of the caller's memory, writes the LR word and at most one more |
| StackFrames.EpilogRuns | contrib/templater/hotspot/src/cpu/CPU/vm/assembler_CPU.cpp:849-900 | Running the epilog in any state whose frame still holds what the prolog saved gives it all back |
| StackFrameCalls.FrameRestores | contrib/templater/hotspot/src/cpu/CPU/vm/assembler_CPU.cpp:786-900 | For any requests, prolog, a body that respects the frame, and epilog give back r1, LR and exactly the registers asked for: with the volatiles also r0, r3 to r12, CTR and f0 to f13 |
| StackFrameCalls.SpillsOntoBackChain | contrib/templater/hotspot/src/cpu/CPU/vm/assembler_CPU.cpp:761-798 | Where r0's slot is skipped but not counted, the last register saved overwrites the caller's back chain |
| StackFrameCalls.ContainedIff | contrib/templater/hotspot/src/cpu/CPU/vm/assembler_CPU.cpp:761-841 | The prolog keeps the caller's back chain in every state exactly when volatiles are saved or nothing is saved in the register area |
| StackFrameCalls.CallsRestore | contrib/templater/hotspot/src/cpu/CPU/vm/assembler_CPU.cpp:786-900 | Over call trees of any depth, a call hands back r1, LR and every register its caller relies on, and keeps the caller's memory but for its LR word (and the back chain where the frame is not contained) |
| StackFrameCode.StackFrame.GetParameter | contrib/templater/hotspot/src/cpu/CPU/vm/assembler_CPU.cpp:712-717 | The next word of the parameter area, directly above the link area, different from every slot given before |
| StackFrameCode.StackFrame.GetLocalVariable | contrib/templater/hotspot/src/cpu/CPU/vm/assembler_CPU.cpp:718-724 | The next word above all parameters (on PPC64 eight at least), different from every slot given before |
| StackFrameCode.StackFrame.GetCrField | contrib/templater/hotspot/src/cpu/CPU/vm/assembler_CPU.cpp:725-730 | A field of cr2..cr4, and one more to be saved |
| StackFrameCode.StackFrame.GetRegister | contrib/templater/hotspot/src/cpu/CPU/vm/assembler_CPU.cpp:731-736 | A non-volatile register that was not given back before and will be now |
| StackFrameCode.StackFrame.GetFloatRegister | contrib/templater/hotspot/src/cpu/CPU/vm/assembler_CPU.cpp:737-742 | A non-volatile floating point register that was not given back before and will be now |
| StackFrameCode.StackFrame.SetSaveVolatiles | contrib/templater/hotspot/src/cpu/CPU/vm/assembler_CPU.cpp:743-747 | Only the choice to save volatiles changes |
| StackFrameCode.StackFrame.AlignSize | contrib/templater/hotspot/src/cpu/CPU/vm/assembler_CPU.cpp:790-796 | The alignment loop ends, with the least locals that align the frame |
| StackFrameCode.StackFrame.GenerateProlog | contrib/templater/hotspot/src/cpu/CPU/vm/assembler_CPU.cpp:786-848 | The loops emit exactly the prolog the lemmas are about |
| StackFrameCode.StackFrame.GenerateEpilog | contrib/templater/hotspot/src/cpu/CPU/vm/assembler_CPU.cpp:849-900 | The loops emit exactly the epilog the lemmas are about |
| CallStub.Stub.BeforeCall | contrib/templater/hotspot/src/cpu/CPU/vm/stubGenerator_CPU.cpp:164-272 | At the call parameter i is at locals - i words, the frame holds LR, CR, r14-r31, the call wrapper and the result place, r1 is aligned and linked |
| CallStub.Stub.AfterCall | contrib/templater/hotspot/src/cpu/CPU/vm/stubGenerator_CPU.cpp:277-355 | From a frame found by its back chain, extended or not, the code hands back r1, LR, CR and r14-r31; without a pending exception the result place holds r3, for a long on PPC32 also r4 in the next word, and nothing else has changed; with one nothing is stored |
| CallStub.ParametersAreInFrame | contrib/templater/hotspot/src/cpu/CPU/vm/stubGenerator_CPU.cpp:164-272 | What the frame manager requires of its callers holds at the call |
| CallStub.CallerKept | contrib/templater/hotspot/src/cpu/CPU/vm/frame_CPU.inline.hpp:170-178 | After anything that keeps the frame manager's promise the stub's frame is found, and entry_frame_call_wrapper finds the call wrapper |
| CallStub.RunsReturnToStub | contrib/templater/hotspot/src/cpu/CPU/vm/stubGenerator_CPU.cpp:164-355 | Any run of the frame manager entered from the stub returns to a state in which AfterCall restores everything |
| CallStub.Stub.Call | contrib/templater/hotspot/src/cpu/CPU/vm/stubGenerator_CPU.cpp:164-355 | The stub around any run of the frame manager: whatever the run, if it returns, the stub's caller has r1, LR, CR and r14 to r31 back, and without a pending exception the result place holds the top of the expression stack with which the method returned |
| LoadImmediate.Load64Iff | contrib/templater/hotspot/src/cpu/CPU/vm/assembler_CPU.cpp:1018-1064 | On 64 bits the code leaves exactly value in dst if and only if the top halfword is non-zero, or the first non-zero lower halfword is below 0x8000, or value is 0 |
| LoadImmediate.Load64Leaves | contrib/templater/hotspot/src/cpu/CPU/vm/assembler_CPU.cpp:1018-1064 | What it leaves otherwise: value with the sign of that halfword smeared over those above it |
| LoadImmediate.Load32Iff | contrib/templater/hotspot/src/cpu/CPU/vm/assembler_CPU.cpp:1018-1064 | On 32 bits it does so exactly for values outside 0x8000..0xffff |
| LoadImmediate.Load32Leaves | contrib/templater/hotspot/src/cpu/CPU/vm/assembler_CPU.cpp:1018-1064 | For those values it leaves value - 0x10000 |
| LoadImmediate.MacroAssembler.LoadWord | contrib/templater/hotspot/src/cpu/CPU/vm/assembler_CPU.cpp:1018-1064 | The branches emit exactly the code the 32-bit lemmas are about |
| LoadImmediate.MacroAssembler.LoadDoubleword | contrib/templater/hotspot/src/cpu/CPU/vm/assembler_CPU.cpp:1018-1064 | The branches emit exactly the code the 64-bit lemmas are about |
| Encoding.DecodesEncoded | contrib/templater/hotspot/src/cpu/CPU/vm/assembler_CPU.cpp:42-129 | For all valid operands of the I, B, D, DS, X, M and MD forms the word fits 32 bits and decoding it gives the operands back |
| Encoding.EncodesDecoded | contrib/templater/hotspot/src/cpu/CPU/vm/disassembler_CPU.cpp:217-577 | Encoding what was decoded from any word gives the word back |
| Encoding.DisplacementsShown | contrib/templater/hotspot/src/cpu/CPU/vm/assembler_CPU.cpp:146-157 | A displacement put through Address is shown as it is by a D form, and by a DS form times four exactly when it is a multiple of four |
| Encoding.ImmediatesShown | contrib/templater/hotspot/src/cpu/CPU/vm/disassembler_CPU.cpp:175-577 | Immediates of D forms are shown as emitted, unsigned for ori, oris and andi. and signed for the others |
| Encoding.Assembler.EmitI | contrib/templater/hotspot/src/cpu/CPU/vm/assembler_CPU.cpp:42-48 | The ors and shifts emit exactly the word of the I form that is decoded above |
| Encoding.Assembler.EmitB | contrib/templater/hotspot/src/cpu/CPU/vm/assembler_CPU.cpp:49-57 | The ors and shifts emit exactly the word of the B form that is decoded above |
| Encoding.Assembler.EmitD | contrib/templater/hotspot/src/cpu/CPU/vm/assembler_CPU.cpp:58-71 | The ors and shifts emit exactly the word of the D form that is decoded above |
| Encoding.Assembler.EmitDS | contrib/templater/hotspot/src/cpu/CPU/vm/assembler_CPU.cpp:72-86 | The ors and shifts emit exactly the word of the DS form that is decoded above |
| Encoding.Assembler.EmitX | contrib/templater/hotspot/src/cpu/CPU/vm/assembler_CPU.cpp:87-96 | The ors and shifts emit exactly the word of the X form that is decoded above |
| Encoding.Assembler.EmitM | contrib/templater/hotspot/src/cpu/CPU/vm/assembler_CPU.cpp:97-112 | The ors and shifts emit exactly the word of the M form that is decoded above |
| Encoding.Assembler.EmitMD | contrib/templater/hotspot/src/cpu/CPU/vm/assembler_CPU.cpp:113-129 | The ors and shifts emit exactly the word of the MD form that is decoded above |
| Encoding.InstructionParser.Read | contrib/templater/hotspot/src/cpu/CPU/vm/disassembler_CPU.cpp:74-78 | The next bits, counted down from the opcode |
| Encoding.InstructionParser.ReadSigned | contrib/templater/hotspot/src/cpu/CPU/vm/disassembler_CPU.cpp:80-85 | The next bits as a signed number |
| Encoding.InstructionParser.Parse | contrib/templater/hotspot/src/cpu/CPU/vm/disassembler_CPU.cpp:175-577 | The reads of each form's printer give its operands, use up exactly the 26 operand bits (but the last two of a DS form, its extended opcode), and agree with extended_opcode |
| Branches.AcceptsIff | contrib/templater/hotspot/src/cpu/CPU/vm/assembler_CPU.cpp:199-217 | branch_target accepts exactly the displacements from -2^(n-1) up to but not including 2^(n-1) |
| Branches.PatchesField | contrib/templater/hotspot/src/cpu/CPU/vm/assembler_CPU.cpp:628-650 | A branch to itself has a zero field, and oring a field into it gives the branch with that field |
| Branches.JumpReaches | contrib/templater/hotspot/src/cpu/CPU/vm/disassembler_CPU.cpp:175-215 | A branch emitted to a bound label is decoded to the label's address, as a relative branch with its own condition and link bit |
| Branches.BranchesReach | contrib/templater/hotspot/src/cpu/CPU/vm/disassembler_CPU.cpp:175-215 | In an assembled program every branch to a bound label is decoded to the label's address, as a relative branch with its own condition and link bit |
| Branches.Assembler.BranchTarget | contrib/templater/hotspot/src/cpu/CPU/vm/assembler_CPU.cpp:199-217 | The masked displacement |
| Branches.Assembler.EmitBranch | contrib/templater/hotspot/src/cpu/CPU/vm/assembler_CPU.cpp:595-625 | A branch to a bound label is emitted as such, and one to an unbound label so that patching it will do |
| Branches.Assembler.PatchInstruction | contrib/templater/hotspot/src/cpu/CPU/vm/assembler_CPU.cpp:628-650 | Patching one branch leaves bit for bit the word of a branch emitted to the target, and no other word changes |
| Branches.Assembler.Bind | contrib/templater/hotspot/src/cpu/CPU/vm/assembler_CPU.cpp:595-650 | Binding a label leaves every branch to it as if the label had been bound when the branch was emitted |
| Branches.Assembler.Assemble | contrib/templater/hotspot/src/cpu/CPU/vm/assembler_CPU.cpp:595-650 | For every program whose branches are in range, one pass with patching leaves exactly the words of direct emission with all labels known |
| Preprocess.Preprocess | contrib/templater/generate.py:32-104 | The loop over the mode stack computes the residual the lemmas are about |
| Preprocess.Turn | contrib/templater/generate.py:60-98 | One turn of the loop for a directive has the effect of one step, and fails where that does |
| Preprocess.SucceedsIff | contrib/templater/generate.py:65-101 | A balanced text is accepted exactly when every directive in it is understood |
| Preprocess.AcceptsIff | contrib/templater/generate.py:32-101 | Any text, balanced or not, is accepted exactly when every directive is understood, no #else or #endif finds the mode stack empty, as many groups are closed as opened, and the group that took the place of the bottom element, if any, is not on a CPU name |
| Preprocess.BalancedIff | contrib/templater/generate.py:38-101 | A text is balanced exactly when as many groups are closed as opened, no #endif comes outside a group, and every #else is the first in a group |
| Preprocess.AcceptedBalancedIff | contrib/templater/generate.py:38-101 | An accepted text is balanced exactly when no #endif pops the bottom of the mode stack and no #else stands outside the groups or second in one |
| Preprocess.AcceptsUnbalanced | contrib/templater/generate.py:38-101 | Three texts that are accepted and not balanced: a stray #endif with a later open group, an #else outside a group, and a second #else in one |
| Preprocess.RunKnows | contrib/templater/generate.py:38-101 | The mode stack is what is known of the open groups |
| Preprocess.ResidualBalancedIff | contrib/templater/generate.py:81-96 | The residual is balanced exactly when no opaque #if lies in a discarded region |
| Preprocess.DiscardedIfUnbalances | contrib/templater/generate.py:81-85 | A concrete text whose residual is not balanced |
| Preprocess.ResidualMeansTheSame | contrib/templater/generate.py:32-101 | With any meaning of the opaque conditions and headers, the residual selects the lines of the original in order and leaves the same macros |
| Preprocess.ReadTheSameIff | contrib/templater/generate.py:32-101 | For every balanced and accepted text, reading the residual gives all that reading the original does exactly when no opaque condition lies in a discarded region |
| Preprocess.NoCpuLeft | contrib/templater/generate.py:68-85 | No #ifdef or #ifndef on a CPU name and no test of one is left |
| Preprocess.ResidualIsFixed | contrib/templater/generate.py:32-101 | Preprocessing the residual again changes nothing |
| Preprocess.RenamedReplaces | contrib/templater/generate.py:102-103 | Every _LP64 of a string becomes PPC64, and no other character changes |
| Preprocess.ItemReplaced | contrib/templater/generate.py:102-103 | It is replaced in texts, headers, macros, bodies, operands and conditions alike |
| Preprocess.RenamingMeansTheSame | contrib/templater/generate.py:102-103 | A text with the names replaced selects the replaced lines, where the conditions and headers that occur in it mean after the replacement what they meant before and no macro it defines or undefines becomes the same as another name |
| Preprocess.DefineRenamedIff | contrib/templater/generate.py:102-103 | A definition means the same after the replacement, whatever was defined before, exactly when its macro becomes the same as no other name |
| Preprocess.MergedNamesDiffer | contrib/templater/generate.py:102-103 | A text that defines _LP64 and tests PPC64 selects a line after the replacement that it did not select before |
| Preprocess.PpcMeansTheSame | contrib/templater/generate.py:101-104 | What is returned for PPC, read where PPC64 stands for _LP64, selects the lines of the original with the name replaced, in the same groups, and leaves the same macros, where that holds of the conditions and headers of the residual |
| Preprocess.ValueRenamed | contrib/templater/generate.py:102-103 | The replacement does not change the value of a condition made of tests defined(n), !, && and || and parentheses |
| Preprocess.TruthfulIsSame | contrib/templater/generate.py:102-103 | Any two compilers that give such conditions their value agree on those of a text before and after the replacement |
| Preprocess.PpcSelectsTheSame | contrib/templater/generate.py:101-104 | For every text whose opaque conditions are such, and any compilers that give them their value: what is returned for PPC selects the lines of the original with the name replaced |
| Preprocess.PlainIsTruthful | contrib/templater/generate.py:101-104 | There are such compilers, and one may read both texts |
| Preprocess.NoCpuNameComesBack | contrib/templater/generate.py:102-103 | The replacement brings no CPU name back: neither an #ifdef or #ifndef on one nor a test of one in an #if is in what is returned for PPC |
| InterviewPath.NextMoves | test/jtreg/com/sun/interview/Interview.java:522-559 | A next that succeeds moves exactly one question on; where nothing follows an unfinished interview, it succeeds exactly when the current question is not the last |
| InterviewPath.PrevMoves | test/jtreg/com/sun/interview/Interview.java:567-607 | A prev that succeeds moves exactly one question back, and it succeeds exactly when the current question is not the first |
| InterviewPath.PrevFails | test/jtreg/com/sun/interview/Interview.java:567-607 | A prev that fails, at the first question, leaves every cursor as it was exactly when the root does not begin with a nested interview; otherwise there is no current question afterwards |
| InterviewPath.NextAtEnd | test/jtreg/com/sun/interview/Interview.java:522-559 | At the last entry of an interview that has not ended, or of the root, next fails and leaves every cursor as it was |
| InterviewPath.ForwardArrives | test/jtreg/com/sun/interview/Interview.java:537-555 | The loop of next stops at the question its start position stands for |
| InterviewPath.BackwardArrives | test/jtreg/com/sun/interview/Interview.java:582-603 | The loop of prev stops at the question before its start position, or at the beginning |
| InterviewPath.CurrentOnPath | test/jtreg/com/sun/interview/Interview.java:762-772 | The current question is the one at its position in getPath, and getPathToCurrent is getPath up to there |
| InterviewPath.RunsMove | test/jtreg/com/sun/interview/Interview.java:522-607 | Along every run of successful moves position, current question and path to current follow the moves one by one, and the path does not change |
| InterviewPath.MovesUndone | test/jtreg/com/sun/interview/Interview.java:522-607 | prev undoes next, and next undoes prev where nothing follows an unfinished interview |
| InterviewPath.ResetPositions | test/jtreg/com/sun/interview/Interview.java:472-485 | After reset the first question is the current one, wherever the other cursors were left |
| InterviewPath.Interviews.SetCurrentQuestion0 | test/jtreg/com/sun/interview/Interview.java:738-755 | The recursive loop finds the question exactly where Jump does, and moves exactly the cursors Jump moves |
| InterviewJump.JumpFailsIff | test/jtreg/com/sun/interview/Interview.java:738-755 | setCurrentQuestion0 fails exactly when the question is not on the path of any interview |
| InterviewJump.JumpLands | test/jtreg/com/sun/interview/Interview.java:738-755 | Where it succeeds, the cursors from the root down to an interview with the question lead to it, and all others are as they were |
| InterviewJump.ThrowsIff | test/jtreg/com/sun/interview/Interview.java:871-888 | For any cursors, getPathToCurrent throws exactly where listing comes to an interview whose cursor is past its end, a nested one that ends in a FinalQuestion excepted |
| InterviewJump.PathToCurrentIff | test/jtreg/com/sun/interview/Interview.java:822-888 | For any cursors, getPathToCurrent gives the path up to the current question exactly when every earlier interview has its cursor at its last question or after it and none that listing comes to has it past its end; it throws exactly for one of those, and never gives more |
| InterviewJump.AtEndIff | test/jtreg/com/sun/interview/Interview.java:871-888 | Where every entry but a FinalQuestion stands for a question, that is to be at the last entry that is no FinalQuestion, or after it |
| InterviewJump.JumpShowsIff | test/jtreg/com/sun/interview/Interview.java:738-755 | After a jump from any cursors the question is the current one, earlier interviews have their cursors where they were, and getPathToCurrent gives the path up to it exactly when those cursors are as PathToCurrentIff says |
| InterviewJump.JumpLosesPath | test/jtreg/com/sun/interview/Interview.java:738-755 | From the beginning, a jump past a nested interview leaves its second question out of getPathToCurrent |
| InterviewPath.Interviews.Next | test/jtreg/com/sun/interview/Interview.java:522-559 | The loops over the cursors have exactly the effect NextMoves speaks of |
| InterviewPath.Interviews.Prev | test/jtreg/com/sun/interview/Interview.java:567-607 | The loops over the cursors have exactly the effect PrevMoves speaks of |
| InterviewPath.Interviews.StepIn | test/jtreg/com/sun/interview/Interview.java:525-531 | The interview the current question is in |
| InterviewPath.Interviews.GetCurrentQuestion | test/jtreg/com/sun/interview/Interview.java:762-772 | The question at the current position of the path |
| InterviewPath.Interviews.IteratePath0 | test/jtreg/com/sun/interview/Interview.java:871-888 | For any cursors, the recursive listing throws exactly where the specification says, and otherwise appends what it lists |
| InterviewPath.Interviews.GetPath | test/jtreg/com/sun/interview/Interview.java:807-813 | The whole path |
| InterviewPath.Interviews.GetPathToCurrent | test/jtreg/com/sun/interview/Interview.java:822-828 | For any cursors, what ToCurrent says, or an exception; where there is a current question, the path up to and including it |
| PredictPath.WalkDistinct | test/jtreg/com/sun/interview/Interview.java:2041-2089 | No question and no nested interview is on a predicted path twice |
| PredictPath.PredictedFollows | test/jtreg/com/sun/interview/Interview.java:2041-2089 | Prediction keeps what is there, follows the answers at every step after it, and adds nothing more only where they lead no further |
| PredictPath.SuccessorIff | test/jtreg/com/sun/interview/Interview.java:2041-2089 | What the loop adds next is q exactly when a chain of getNext answers, through disabled questions off the path only, leads to q, and q may be added; it begins with the answer of the last question, the first question of the interview that it stands for, or what follows the question that stands for the interview it ends |
| PredictPath.TracedIff | test/jtreg/com/sun/interview/Interview.java:2041-2089 | The path is, from the first question on, what comes next in that sense, as far as anything does |
| PredictPath.PredictedComesNext | test/jtreg/com/sun/interview/Interview.java:2041-2089 | Prediction from any walk keeps it, adds what comes next in that sense, and goes on as far as anything does |
| PredictPath.PathIsUnique | test/jtreg/com/sun/interview/Interview.java:2041-2089 | The answers determine the path |
| PredictPath.FreshPathIsPath | test/jtreg/com/sun/interview/Interview.java:472-485 | reset finds the path the answers make from the first question, and there is such a path exactly when prediction from there ends |
| PredictPath.UpdateIsFreshIff | test/jtreg/com/sun/interview/Interview.java:1960-1991 | Trimming and predicting gives the path found from the beginning exactly when the questions up to the changed one still follow the answers, and end there if that is a FinalQuestion |
| PredictPath.UpdateKeeps | test/jtreg/com/sun/interview/Interview.java:1983-1984 | An update keeps the path up to the changed question, and a second one with the same answers changes nothing |
| PredictPath.StuckIff | test/jtreg/com/sun/interview/Interview.java:2083-2087 | Looking for the next question goes on for ever exactly when the next candidates, one more than there are questions, are all disabled and off the path |
| PredictPath.StuckCycleIff | test/jtreg/com/sun/interview/Interview.java:2083-2087 | and exactly when it comes, past such candidates only, to a cycle of them |
| PredictPath.StuckSomewhereIff | test/jtreg/com/sun/interview/Interview.java:2083-2087 | There is a question from which it goes on for ever exactly when there is a cycle of disabled questions off the path |
| PredictPath.PredictionEndsIff | test/jtreg/com/sun/interview/Interview.java:2041-2089 | The whole loop of predictPath breaks off after some number of turns exactly when, after the questions the answers add, it comes to no cycle of disabled questions off the path: not all of the next candidates, one more than there are questions, are disabled and off it |
| PredictPath.NoCycleEnds | test/jtreg/com/sun/interview/Interview.java:2041-2089 | Without a cycle of disabled questions off the path prediction ends from every walk |
| PredictPath.DisabledCycleNeverEnds | test/jtreg/com/sun/interview/Interview.java:2083-2087 | In such a cycle the loop never breaks off |
| PredictPath.FoundIff | test/jtreg/com/sun/interview/Interview.java:922-942 | The recursive search from the root finds exactly what is on the path |
| PredictPath.StackLinked | test/jtreg/com/sun/interview/Interview.java:2049-2081 | The caller links of the open interviews form the stack of the path; interviews not on it have ended or have no path |
| PredictPath.WalkIsNavigable | test/jtreg/com/sun/interview/Interview.java:2041-2089 | A predicted path is one next and prev can be used on exactly when each nested interview on it has a question; nothing follows an unfinished interview |
| PredictPath.ResetIsNavigable | test/jtreg/com/sun/interview/Interview.java:472-485 | After reset the moves work on the predicted path, from its first question |
| PredictPath.Predictor.Reset | test/jtreg/com/sun/interview/Interview.java:472-485 | The path and caller fields represent the path found from the beginning |
| PredictPath.Predictor.PathContains0 | test/jtreg/com/sun/interview/Interview.java:922-942 | True exactly when what is sought is found below the interview |
| PredictPath.Predictor.PathContains | test/jtreg/com/sun/interview/Interview.java:909-920 | True exactly when what is sought is on the path |
| PredictPath.Predictor.Find | test/jtreg/com/sun/interview/Interview.java:2016-2027 | The first entry that matches, or -1 exactly when there is none |
| PredictPath.Predictor.TrimPath | test/jtreg/com/sun/interview/Interview.java:2012-2039 | Cutting each open interview's path leaves exactly the path up to the question |
| PredictPath.Predictor.PredictPath | test/jtreg/com/sun/interview/Interview.java:2041-2089 | The loop leaves exactly the predicted extension of the path, and the path as it is after a FinalQuestion; where prediction ends, so does the loop |
| PredictPath.Predictor.UpdatePath | test/jtreg/com/sun/interview/Interview.java:1960-1991 | The path updated for the question, or no change where the question is not on the path |
| InterviewSet.AddedAcyclicIff | test/jtreg/com/sun/interview/InterviewSet.java:111-116 | A new dependency makes a cycle exactly when the dependency is the child or depends on it |
| InterviewSet.RemovedAcyclic | test/jtreg/com/sun/interview/InterviewSet.java:134-140 | Removing takes away exactly the one dependency and makes no cycle |
| InterviewSet.DependenciesComeFirst | test/jtreg/com/sun/interview/InterviewSet.java:194-212 | In any list addToList builds, every dependency of a child, direct or not, comes before each of its occurrences |
| InterviewSet.InOrderKeeps | test/jtreg/com/sun/interview/InterviewSet.java:199-206 | The dependencies of a child are gone through in the order of the children |
| InterviewSet.SortOrders | test/jtreg/com/sun/interview/InterviewSet.java:176-192 | sortChildren lists the children, all of them and nothing else, each after all it depends on |
| InterviewSet.SortSucceedsIff | test/jtreg/com/sun/interview/InterviewSet.java:194-198 | sortChildren throws exactly when some child depends on itself, directly or not |
| InterviewSet.ListsOnceIff | test/jtreg/com/sun/interview/InterviewSet.java:179-210 | It lists no child twice exactly when no child has two dependents and each that has one comes after some child that depends on it |
| InterviewSet.FirstListedTwice | test/jtreg/com/sun/interview/InterviewSet.java:179-184 | Two children, the second depending on the first: the first is listed twice |
| InterviewSet.CollectsIff | test/jtreg/com/sun/interview/InterviewSet.java:162-174 | getAllDependencies ends exactly when no cycle lies below the child, and then gives exactly what the child depends on, directly or not |
| InterviewSet.Interviews.Add | test/jtreg/com/sun/interview/InterviewSet.java:80-84 | A child is added last; the sorted calls are dropped |
| InterviewSet.Interviews.GetAllDependencies | test/jtreg/com/sun/interview/InterviewSet.java:162-174 | The recursion adds exactly what the child depends on to a set that is closed |
| InterviewSet.Interviews.AddDependency | test/jtreg/com/sun/interview/InterviewSet.java:102-119 | A fault exactly when the dependency depends on the child; otherwise exactly that dependency is added, and the graph stays acyclic exactly when it is not the child itself |
| InterviewSet.Interviews.RemoveDependency | test/jtreg/com/sun/interview/InterviewSet.java:127-143 | A null pointer failure exactly when the child has no dependencies; otherwise exactly the one is removed |
| InterviewSet.Interviews.AddToList | test/jtreg/com/sun/interview/InterviewSet.java:194-212 | Succeeds exactly where the specification does, with its list, and the cycle set as before |
| InterviewSet.Interviews.SortChildren | test/jtreg/com/sun/interview/InterviewSet.java:176-192 | Computes the order SortOrders speaks of, or fails |
| InterviewSet.Interviews.GetNext | test/jtreg/com/sun/interview/InterviewSet.java:219-231 | The calls kept or sorted anew: none exactly when there is a cycle, and otherwise ordered and complete for the dependencies as they are now |
| ListQuestion.TagsDiffer | test/jtreg/com/sun/interview/ListQuestion.java:70-75 | Bodies at different positions have different tags |
| ListQuestion.SomeNameIsFree | test/jtreg/com/sun/interview/ListQuestion.java:138-157 | With fewer default summaries in use than bodies, one of the names tried is free |
| ListQuestion.FreeIff | test/jtreg/com/sun/interview/ListQuestion.java:138-157 | The search succeeds exactly when some name it tries is free, with a free one |
| ListQuestion.GivenUpIsFree | test/jtreg/com/sun/interview/ListQuestion.java:129-150 | A name given up by a body with a summary of its own is free for the next, when names differed |
| ListQuestion.Body.SetIndex | test/jtreg/com/sun/interview/ListQuestion.java:107-112 | The index and the tag move together |
| ListQuestion.Body.GetDefaultSummary | test/jtreg/com/sun/interview/ListQuestion.java:126-161 | A name already there stays; otherwise the first free name after recycling, different from every other body's; a body in the list always gets one; distinctness is kept |
| ListQuestion.Question.Recycle | test/jtreg/com/sun/interview/ListQuestion.java:129-135 | A default summary is given up exactly where the body has a different summary of its own |
| ListQuestion.Question.HasDefault | test/jtreg/com/sun/interview/ListQuestion.java:144-150 | True exactly when some body has the name |
| ListQuestion.Question.Unused | test/jtreg/com/sun/interview/ListQuestion.java:138-159 | The first of the names that no other body has |
| ListQuestion.Question.SetBodies | test/jtreg/com/sun/interview/ListQuestion.java:473-503 | The bodies become the given ones; each records its position, with its own tag, exactly when no body is given twice; edited says whether anything changed; default names that differed still do exactly when no body enters with one in use |
| ListQuestion.Question.Place | test/jtreg/com/sun/interview/ListQuestion.java:473-503 | The loop over the bodies, with the slots that come and go |
| ListQuestion.SetDiffersIff | test/jtreg/com/sun/interview/ListQuestion.java:473-503 | After a change of bodies the default names differ exactly when no entering body holds the name of a staying or another entering one |
| ListQuestion.NamesDifferIff | test/jtreg/com/sun/interview/ListQuestion.java:126-161 | Over every sequence of getDefaultSummary and setBodies, summaries changing in between, the default names always differ exactly when every change of bodies meets that condition |
| ListQuestion.Rejoin | test/jtreg/com/sun/interview/ListQuestion.java:126-161 | A body taken out and put back can have the same default summary as another |
| Properties2.ReadsPrinted | test/jtreg/com/sun/interview/Properties2.java:211-241 | A printed value is read back as it was |
| Properties2.ReadsEitherCase | test/jtreg/com/sun/interview/Properties2.java:141-166 | An escape of four hexadecimal digits, of either case each, is read as their number |
| Properties2.HexValueIff | test/jtreg/com/sun/interview/Properties2.java:149-166 | Just the digits and the letters a to f in either case are hexadecimal digits, with their values |
| Properties2.EscapedIsAscii | test/jtreg/com/sun/interview/Properties2.java:211-241 | Values are written in printable ASCII, and what is that already but for the backslash is written as it is |
| Properties2.PlainIff | test/jtreg/com/sun/interview/Properties2.java:96-117 | Plain keys are those without =, :, blanks and line ends that do not begin with # or ! |
| Properties2.LoadsPlainKeys | test/jtreg/com/sun/interview/Properties2.java:112-117 | Only keys without separators, blanks and line ends, not beginning a comment, are ever read |
| Properties2.LoadsSaved | test/jtreg/com/sun/interview/Properties2.java:195-244 | For plain keys, in any order, loading what was saved gives the entries without the spaces their values start with |
| Properties2.RoundTripIff | test/jtreg/com/sun/interview/Properties2.java:89-182 | Under a header of one line, or none, loading what was saved gives the same table exactly when every key is plain and no value starts with a space; RoundTripHeaderIff has the other headers |
| Properties2.RoundTripHeaderIff | test/jtreg/com/sun/interview/Properties2.java:89-182 | Under any header the table comes back exactly when every key is plain, no value starts with a space, and each key that loading finds in the header is one of the table |
| Properties2.LoadsUnderHeader | test/jtreg/com/sun/interview/Properties2.java:195-244 | Under any header, loading what was saved is loading the entries over those found in the header |
| Properties2.HeadSilentIff | test/jtreg/com/sun/interview/Properties2.java:195-202 | Loading finds nothing in the header exactly when each of its later lines is blank or, after blanks, a comment |
| Properties2.HeaderHarmlessIff | test/jtreg/com/sun/interview/Properties2.java:195-244 | Every table with plain keys and no leading spaces comes back, in every order, exactly under such headers |
| Properties2.HeaderLeaks | test/jtreg/com/sun/interview/Properties2.java:199-202 | A header of more than one line is loaded from its second line on |
| Properties2.Reader.SkipLine | test/jtreg/com/sun/interview/Properties2.java:96-101 | The loop skips to the end of the line |
| Properties2.Reader.SkipBlanks | test/jtreg/com/sun/interview/Properties2.java:118-126 | The loop skips blanks |
| Properties2.Reader.ReadKey | test/jtreg/com/sun/interview/Properties2.java:112-117 | The loop reads the key the specification reads |
| Properties2.Reader.ReadHex | test/jtreg/com/sun/interview/Properties2.java:149-166 | The digit loop gives the specified number and position, also where it ends early |
| Properties2.Reader.ReadEscape | test/jtreg/com/sun/interview/Properties2.java:133-171 | Every escape, line continuation included, gives what the specification says |
| Properties2.Reader.ReadValue | test/jtreg/com/sun/interview/Properties2.java:129-177 | The loop reads the value the specification reads |
| Properties2.Properties.LoadEntry | test/jtreg/com/sun/interview/Properties2.java:111-180 | One line gives one entry |
| Properties2.Properties.Load | test/jtreg/com/sun/interview/Properties2.java:89-182 | The loop over the reader loads exactly what the specification loads |
| Properties2.Properties.Save | test/jtreg/com/sun/interview/Properties2.java:195-244 | The loops write exactly the text the lemmas are about, for any enumeration order |
| Signature.PlacesDisjoint | contrib/templater/hotspot/src/cpu/CPU/vm/interpreterRT_CPU.cpp:33-171 | No two arguments share a general register, a floating point register or a word of the stack |
| Signature.PlacesFit | contrib/templater/hotspot/src/cpu/CPU/vm/interpreterRT_CPU.cpp:33-171 | Only argument registers are used, a long takes an odd one of r5..r9 and the next, stack words lie within the words counted, and two words begin at an even one |
| Signature.SlotCounts | contrib/templater/hotspot/src/cpu/CPU/vm/interpreterRT_CPU.cpp:33-147 | An argument begins after one local for each argument before it, and one more for each long or double |
| Signature.AbiAgrees | contrib/templater/hotspot/src/cpu/CPU/vm/interpreterRT_CPU.cpp:33-171 | For every signature every argument is where the ABI's parameter passing algorithm, run from the JNI environment on, puts it |
| Signature.ReserveMakesRoom | contrib/templater/hotspot/src/cpu/CPU/vm/interpreterRT_CPU.cpp:239-254 | The words reserved lie between the link area and the top of the frame, with r1 aligned and the same caller named |
| Signature.HandlerPasses | contrib/templater/hotspot/src/cpu/CPU/vm/interpreterRT_CPU.cpp:173-258 | Run from any frame, the handler puts each argument's value at its place, keeps everything above the reserved words, and leaves r1 aligned with the same caller |
| Signature.SignatureHandlerGenerator.constructor | contrib/templater/hotspot/src/cpu/CPU/vm/interpreterRT_CPU.hpp:93-113 | The initial counters |
| Signature.SignatureHandlerGenerator.PassInt | contrib/templater/hotspot/src/cpu/CPU/vm/interpreterRT_CPU.cpp:33-50 | Counters, code and stack arguments change as the place the argument gets says |
| Signature.SignatureHandlerGenerator.PassLong | contrib/templater/hotspot/src/cpu/CPU/vm/interpreterRT_CPU.cpp:52-82 | Counters, code and stack arguments change as the place the argument gets says |
| Signature.SignatureHandlerGenerator.PassFloat | contrib/templater/hotspot/src/cpu/CPU/vm/interpreterRT_CPU.cpp:84-101 | Counters, code and stack arguments change as the place the argument gets says |
| Signature.SignatureHandlerGenerator.PassDouble | contrib/templater/hotspot/src/cpu/CPU/vm/interpreterRT_CPU.cpp:103-120 | Counters, code and stack arguments change as the place the argument gets says |
| Signature.SignatureHandlerGenerator.PassObject | contrib/templater/hotspot/src/cpu/CPU/vm/interpreterRT_CPU.cpp:122-147 | Counters, code and stack arguments change as the place the argument gets says |
| Signature.SignatureHandlerGenerator.PassOnStack | contrib/templater/hotspot/src/cpu/CPU/vm/interpreterRT_CPU.cpp:150-171 | A two-word argument goes to an even word; the counter passes the words taken |
| Signature.SignatureHandlerGenerator.Generate | contrib/templater/hotspot/src/cpu/CPU/vm/interpreterRT_CPU.cpp:227-258 | The loops emit exactly the handler HandlerPasses is about |

## Left out

- Addresses in the stack models are unbounded integers and memory is word-granular: wrap-around of addresses, and the bytes of a word, are not modelled. Widths are exact in `Bits`, `LoadImmediate`, `Encoding` and `Branches`.
- Displacements of emitted loads and stores are taken to fit 16 bits in the frame manager, the call stub and the signature handlers, as the assembler asserts; `StackFrames` states it as `Fits`.
- The interpreter itself (`BytecodeInterpreter::run`) and code called out of the frame manager are any code that keeps the conventions written in `FrameManagerRuns.Interprets` and `FrameManagerRuns.Returned`.
- The native entry of the frame manager, safepoint polling and thread state transitions rest on VM code that is not part of this model.
- ThinLock.MutualExclusion: memory is sequentially consistent, which the sync and isync around the exchange stand for; recursive, inflated and biased locks end in unimplemented() as in the source.
- FrameManagerCode.Emitted.ToscaToStackConverter: a float register is given by the words that storing it writes.
- CallStub.Stub.Call: the run in between is given as what the callee makes of the state at the call.
- `unlock_object` loads the object field where its comment says it is cleared (interp_masm_CPU.cpp:163-165); that field is not part of the lock property.
- StackFrameCalls.CallsRestore: a frame that is not contained overwrites its caller's back chain, so what is kept of the caller's memory begins above that word for such frames.
- Encoding.EncodesDecoded: the decoder of the model reads the operands of every opcode by the form the opcode has; mnemonics, the text of the printers and the assertions of single printers are not modelled.
- Encoding.InstructionParser.Parse: as for EncodesDecoded.
- Signature.HandlerPasses: PPC32 only. On PPC64 float arguments on the stack are written one word after their slot (interpreterRT_CPU.cpp:202-203), and the load, test and address of an object argument are one instruction here.
- Signature.SignatureHandlerGenerator.PassObject: as for HandlerPasses.
- Signature.SignatureHandlerGenerator.Generate: as for HandlerPasses.
- The slow signature handler and `java_calling_convention` are unfinished in the source.
- Preprocess.Preprocess: starts from a text already split into lines, comments and directives; the regular expression that splits it, directives indented by blanks, which it leaves as text, and file access are not modelled.
- Preprocess.PpcMeansTheSame: `_LP64` is replaced within each name, word of a directive and line of text rather than in the text as one string; that differs only where an occurrence would span two of them. The headers of the text are taken to leave the same macros before and after.
- Preprocess.PpcSelectsTheSame: conditions are made of `defined(n)` without blanks, `!`, `&&`, `||` and parentheses, each a word of its own but for `!defined(n)`; other conditions (numbers, comparisons, macros that are expanded) are left to PpcMeansTheSame, which asks of the compilers that they mean the same.
- InterviewPath.Interviews.Next: as for Prev, the interviews of a tree are one object with a map from interview to each field, rather than an object each; observers are not modelled; a next that fails further on, inside a nested interview or after one, may leave cursors moved, and nothing is said of the state after it but that.
- InterviewPath.Interviews.IteratePath0: nested interviews are flattened, as `getPath` and `getPathToCurrent` ask for; the listing that leaves them folded, and `last`, are not modelled.
- InterviewPath.Interviews.SetCurrentQuestion0: `setCurrentQuestion` calls it from the root, and not at all where the question is the current one already; questions are equal where the values of the model are.
- InterviewJump.JumpShowsIff: the question is one that can be current: it stands for no nested interview, and a FinalQuestion is the root's. For other questions `JumpLands` says where the cursors are left.
- InterviewPath.ResetPositions: the path is given; `PredictPath.ResetIsNavigable` is about the one that reset predicts.
- PredictPath.UpdateIsFreshIff: about a changed question that stands for no nested interview. For an InterviewQuestion `updatePath` goes on with its `getNext` and never enters the nested interview, whose own path stays what it was (Interview.java:2091-2123); such paths are not walks of the model.
- PredictPath.UpdateKeeps: the same.
- PredictPath.Predictor.TrimPath: the same; a changed InterviewQuestion is left out.
- PredictPath.Predictor.PredictPath: the same, and interviews without list questions. It is required that prediction ends where there is something to predict, since otherwise the call does not return (`PredictionEndsIff`).
- PredictPath.Predictor.Reset: for the same reasons, a root whose first question is an InterviewQuestion is left out, and prediction is required to end.
- PredictPath.Predictor.UpdatePath: as for PredictPath; the repair of the current question afterwards, switching updates off, and observers are not modelled. `getNext` is an answer that stays in its interview.
- InterviewSet.Interviews.AddDependency: null arguments, and dependencies that are not children, which the comparator of the source refuses, are not modelled; it is required that no cycle lies below the dependency, since otherwise the call does not return (`CollectsIff`).
- ListQuestion.NamesDifferIff: the bodies and the summaries of a state are values; `GetDefaultSummary` and `SetBodies` are proved to take one such state to the next.
- ListQuestion.Question.SetBodies: the update of the path after the selected body changed, and the count of incomplete bodies, are not modelled. `getSummary` is a field that does not change during a call, and the number format only has to be injective.
- Properties2.Properties.Save: the date, one line without a backslash, and the line separator are parameters; the default properties, copying from a `java.util.Properties`, and the path that leaves localized characters unescaped, which no public method takes, are not modelled.
- Test probes, process drivers, option checkers, atomic and memory-barrier wrappers, and every emitter whose body is `Unimplemented()`: no state of their own.
- Resource bundles, localisation, images and the value-holder question classes would only add easy members.
