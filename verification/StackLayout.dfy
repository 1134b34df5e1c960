// The stack conventions shared by every piece of emitted code: the word
// size, the link area, the alignment of frames, and the extension of a frame
// in place (MacroAssembler::calc_padding_for_alignment and
// MacroAssembler::maybe_extend_frame).
//
// Addresses are unbounded integers; memory maps the address of a word, or of
// a sub-word field, to its contents.
module StackLayout {

  type Memory = map<int, int>

  function Read(mem: Memory, a: int): int {
    if a in mem then mem[a] else 0
  }

  // The build parameters.  wide selects PPC64.
  datatype Layout = Layout(wide: bool, stateSize: nat, monitorSize: nat, objOffset: nat) {

    // words * wordSize, or equally words << LogBytesPerWord.
    function Bytes(words: int): int {
      if wide then 8 * words else 4 * words
    }

    function WordSize(): int { Bytes(1) }

    predicate Aligned(a: int) {
      if wide then a % 8 == 0 else a % 4 == 0
    }

    // StackFrame::LinkArea and StackFrame::Constants
    function LinkAreaWords(): nat { if wide then 6 else 2 }
    function MinParams(): nat { if wide then 8 else 0 }
    function CrSave(): int { Bytes(1) }
    function LrSave(): int { Bytes(if wide then 2 else 1) }

    // unaligned_size() and start_of_locals() of an empty StackFrame
    function EmptyFrameSize(): int { Bytes(LinkAreaWords() + MinParams()) }

    function Slop(): int { Bytes(2) }

    function HeaderSize(): int { EmptyFrameSize() + Slop() }
  }

  // The sizes of the ABIs, in bytes: of a word, of the smallest frame and of the
  // header of an interpreter frame, and where the CR and LR save words are.
  lemma Sizes(c: Layout, words: int)
    ensures c.Bytes(words) == words * c.WordSize() && c.Aligned(c.Bytes(words))
    ensures c.wide ==> c.WordSize() == 8 && c.CrSave() == 8 && c.LrSave() == 16 && c.EmptyFrameSize() == 112 && c.HeaderSize() == 128
    ensures !c.wide ==> c.WordSize() == 4 && c.LrSave() == 4 && c.EmptyFrameSize() == 8 && c.HeaderSize() == 16
  {
  }

  const STACK_ALIGNMENT := 16

  // What andi_, subfic, andi_ leave in dst.  Every caller passes
  // StackAlignmentInBytes; the mask is align - 1 with align a power of two,
  // so each andi_ is a remainder.
  function Padding(x: int): (p: int)
    ensures 0 <= p < STACK_ALIGNMENT && (x + p) % STACK_ALIGNMENT == 0
  {
    (STACK_ALIGNMENT - x % STACK_ALIGNMENT) % STACK_ALIGNMENT
  }

  // maybe_extend_frame: the stack pointer and memory after the extension.
  function ExtendBy(required: int, available: int): (bytes: int) {
    if required <= available then 0
    else required - available + Padding(required - available)
  }

  function ExtendedMemory(c: Layout, r1: int, mem: Memory, bytes: int): Memory {
    if bytes == 0 then mem
    else
      var mem1 := mem[r1 - bytes := Read(mem, r1)];
      if c.wide then mem1[r1 - bytes + c.CrSave() := Read(mem, r1 + c.CrSave())] else mem1
  }

  // The extension gives room for the request, no more than alignment needs;
  // r1 stays aligned; the new frame names the same caller; and nothing at or
  // above the old r1 moves.
  lemma ExtendKeepsFrame(c: Layout, r1: int, mem: Memory, required: int, available: int)
    requires r1 % STACK_ALIGNMENT == 0
    ensures var bytes := ExtendBy(required, available);
      var mem' := ExtendedMemory(c, r1, mem, bytes);
      && 0 <= bytes
      && required <= available + bytes
      && (required <= available ==> bytes == 0)
      && (required > available ==> bytes < required - available + STACK_ALIGNMENT)
      && (r1 - bytes) % STACK_ALIGNMENT == 0
      && Read(mem', r1 - bytes) == Read(mem, r1)
      && (c.wide ==> Read(mem', r1 - bytes + c.CrSave()) == Read(mem, r1 + c.CrSave()))
      && forall a :: a >= r1 || (a > r1 - bytes && a != r1 - bytes + c.CrSave()) ==> Read(mem', a) == Read(mem, a)
  {
    if required > available {
      assert ExtendBy(required, available) >= STACK_ALIGNMENT;
    }
  }
}
