// Instruction words: the assembler's emitters for the various forms, and the
// disassembler's parser, which reads their fields back.
module Encoding {
  import opened Bits

  datatype Instruction =
    | I(opcode: nat, li: int, aa: nat, lk: nat)
    | B(opcode: nat, bo: nat, bi: nat, bd: int, aa: nat, lk: nat)
    | D(opcode: nat, a: nat, b: nat, c: int)
    | DS(opcode: nat, a: nat, b: nat, c: int, d: nat)
    | X(opcode: nat, a: nat, b: nat, x: nat, xo: nat, rc: nat)
    | M(a: nat, b: nat, x: nat, y: nat, z: nat, rc: nat)
    | MD(a: nat, b: nat, x: nat, y: nat, z: nat, rc: nat)

  // ---- fields packed in a word ---------------------------------------

  datatype Field = Field(value: nat, width: nat)

  function Width(fs: seq<Field>): nat {
    if fs == [] then 0 else fs[0].width + Width(fs[1..])
  }

  // word | f0 << w0 | f1 << w1 | ..., each field above the next
  function Join(word: nat, fs: seq<Field>): nat
    decreases fs
  {
    if fs == [] then word else Join(Or(word, Shl(fs[0].value, Width(fs[1..]))), fs[1..])
  }

  // Successive reads of the parser, from the given number of bits down
  function Reads(word: nat, bits: nat, widths: seq<nat>): seq<nat>
    requires Total(widths) <= bits
    decreases widths
  {
    if widths == [] then []
    else [Extract(word, bits - widths[0], widths[0])] + Reads(word, bits - widths[0], widths[1..])
  }

  function Total(widths: seq<nat>): nat {
    if widths == [] then 0 else widths[0] + Total(widths[1..])
  }

  predicate Fitting(fs: seq<Field>) { forall k :: 0 <= k < |fs| ==> fs[k].value < Pow2(fs[k].width) }

  function Widths(fs: seq<Field>): (ws: seq<nat>)
    ensures |ws| == |fs| && Total(ws) == Width(fs) && forall k :: 0 <= k < |fs| ==> ws[k] == fs[k].width
  {
    if fs == [] then [] else [fs[0].width] + Widths(fs[1..])
  }

  function Values(fs: seq<Field>): (vs: seq<nat>)
    ensures |vs| == |fs| && forall k :: 0 <= k < |fs| ==> vs[k] == fs[k].value
  {
    if fs == [] then [] else [fs[0].value] + Values(fs[1..])
  }

  // The fields as one number
  function Packed(fs: seq<Field>): nat {
    if fs == [] then 0 else Shl(fs[0].value, Width(fs[1..])) + Packed(fs[1..])
  }

  lemma {:induction false} PackedFits(fs: seq<Field>)
    requires Fitting(fs)
    ensures Packed(fs) < Pow2(Width(fs))
  {
    if fs != [] {
      var rest := Width(fs[1..]);
      PackedFits(fs[1..]);
      ShlMono(fs[0].value + 1, Pow2(fs[0].width), rest);
      ShlSum(fs[0].value, 1, rest);
      ShlShl(1, fs[0].width, rest);
    } 
  }

  lemma {:induction false} ShlMono(x: int, y: int, n: nat)
    requires x <= y
    ensures Shl(x, n) <= Shl(y, n)
  {
    if n > 0 {
      ShlMono(x, y, n - 1);
    }
  }

  // The ors meet no common bits, so they add.
  lemma {:induction false} JoinAdds(high: nat, fs: seq<Field>)
    requires Fitting(fs)
    ensures Join(Shl(high, Width(fs)), fs) == Shl(high, Width(fs)) + Packed(fs)
    decreases fs
  {
    hide Shl, Or, Pow2;
    if fs == [] {
      assert Shl(high, 0) == high by { ShlPlain(high); }
    } else {
      var v, w, rest := fs[0].value, fs[0].width, Width(fs[1..]);
      OrShifted(high, v, w, rest);
      JoinAdds(Shl(high, w) + v, fs[1..]);
    }
  }

  lemma ShlPlain(x: int)
    ensures Shl(x, 0) == x
  {
  }

  lemma OrShifted(high: nat, v: nat, w: nat, rest: nat)
    requires v < Pow2(w)
    ensures Or(Shl(high, w + rest), Shl(v, rest)) == Shl(Shl(high, w) + v, rest) == Shl(high, w + rest) + Shl(v, rest)
  {
    hide Or, Shl;
    ShlShl(high, w, rest);
    ShlSum(Shl(high, w), v, rest);
    OrParts(Shl(high, w), 0, v, 0, rest);
    OrParts(high, 0, 0, v, w);
    OrZero(high);
    OrZero(v);
    OrZero(0);
    ShlNegative(w);
    hide Pow2;
  }

  // The parser reads back every field, whatever stands above them.
  lemma {:induction false} ReadsFields(high: nat, fs: seq<Field>)
    requires Fitting(fs)
    ensures Reads(Shl(high, Width(fs)) + Packed(fs), Width(fs), Widths(fs)) == Values(fs)
    decreases fs
  {
    if fs != [] {
      var v, w, rest := fs[0].value, fs[0].width, Width(fs[1..]);
      var word := Shl(high, Width(fs)) + Packed(fs);
      var high' := Shl(high, w) + v;
      ShlShl(high, w, rest);
      ShlSum(Shl(high, w), v, rest);
      PackedFits(fs[1..]);
      assert word == Shl(high', rest) + Packed(fs[1..]);
      hide Extract, Packed, Pow2, Shl;
      assert Extract(word, rest, w) == v by { ExtractField(high, v, Packed(fs[1..]), rest, w, word); }
      ReadsFields(high', fs[1..]);
    }
  }

  lemma ExtractField(high: nat, v: nat, below: nat, low: nat, width: nat, word: nat)
    requires v < Pow2(width) && below < Pow2(low) && word == Shl(Shl(high, width) + v, low) + below
    ensures Extract(word, low, width) == v
  {
    ShrParts(Shl(high, width) + v, below, low);
    ShrParts(high, v, width);
  }

  // Any word is its fields, joined again.
  function Zip(values: seq<nat>, widths: seq<nat>): (fs: seq<Field>)
    requires |values| == |widths|
    ensures |fs| == |widths| && Width(fs) == Total(widths)
    ensures forall k :: 0 <= k < |fs| ==> fs[k] == Field(values[k], widths[k])
  {
    if widths == [] then [] else [Field(values[0], widths[0])] + Zip(values[1..], widths[1..])
  }

  lemma {:induction false} ReadsLength(word: nat, bits: nat, widths: seq<nat>)
    requires Total(widths) <= bits
    ensures |Reads(word, bits, widths)| == |widths|
    decreases widths
  {
    if widths != [] {
      ReadsLength(word, bits - widths[0], widths[1..]);
    }
  }

  lemma {:induction false} FieldsMakeWord(word: nat, widths: seq<nat>)
    ensures |Reads(word, Total(widths), widths)| == |widths|
    ensures var fs := Zip(Reads(word, Total(widths), widths), widths);
      Fitting(fs) && Packed(fs) == Low(word, Total(widths))
  {
    hide Low, Shr, Shl, Pow2, Reads;
    ReadsLength(word, Total(widths), widths);
    if widths != [] {
      var w, rest := widths[0], Total(widths[1..]);
      FieldsMakeWord(word, widths[1..]);
      var vs := Reads(word, Total(widths), widths);
      var fs := Zip(vs, widths);
      FirstRead(word, widths);
      LowParts(word, w, rest);
      hide Extract;
      assert fs[1..] == Zip(vs[1..], widths[1..]);
      FirstPacked(fs);
      assert forall k :: 0 < k < |fs| ==> fs[k] == fs[1..][k - 1];
    } else {
      NoReads(word);
    }
  }

  lemma NoReads(word: nat)
    ensures Packed(Zip([], [])) == 0 == Low(word, 0) && Reads(word, 0, []) == []
  {
  }

  lemma FirstRead(word: nat, widths: seq<nat>)
    requires widths != [] && |Reads(word, Total(widths), widths)| == |widths|
    ensures var vs := Reads(word, Total(widths), widths);
      vs[0] == Low(Shr(word, Total(widths[1..])), widths[0]) && vs[0] < Pow2(widths[0])
      && vs[1..] == Reads(word, Total(widths[1..]), widths[1..])
  {
    hide Low, Shr, Pow2;
  }

  lemma FirstPacked(fs: seq<Field>)
    requires fs != []
    ensures Packed(fs) == Shl(fs[0].value, Width(fs[1..])) + Packed(fs[1..])
  {
  }

  lemma {:induction false} LowParts(x: int, m: nat, n: nat)
    ensures Low(x, m + n) == Shl(Low(Shr(x, n), m), n) + Low(x, n)
    decreases n
  {
    if n > 0 {
      LowParts(x / 2, m, n - 1);
    }
  }

  // ---- the forms -----------------------------------------------------

  datatype Form = IForm | BForm | DForm | DSForm | XForm | MForm | MDForm

  // The form each opcode of the instruction table is printed in
  function FormOf(opcode: nat): Form {
    if opcode == 18 then IForm
    else if opcode == 16 || opcode == 17 then BForm   // sc has the B form here
    else if opcode == 58 || opcode == 62 then DSForm
    else if opcode == 19 || opcode == 31 || opcode == 63 then XForm
    else if opcode == 21 then MForm
    else if opcode == 30 then MDForm
    else DForm
  }

  // ori, oris and andi. are printed with an unsigned immediate.
  predicate Unsigned(opcode: nat) { opcode == 24 || opcode == 25 || opcode == 28 }

  function OpcodeOf(i: Instruction): nat {
    match i
    case I(opcode, _, _, _) => opcode
    case B(opcode, _, _, _, _, _) => opcode
    case D(opcode, _, _, _) => opcode
    case DS(opcode, _, _, _, _) => opcode
    case X(opcode, _, _, _, _, _) => opcode
    case M(_, _, _, _, _, _) => 21
    case MD(_, _, _, _, _, _) => 30
  }

  predicate HasForm(i: Instruction, f: Form) {
    match i
    case I(_, _, _, _) => f == IForm
    case B(_, _, _, _, _, _) => f == BForm
    case D(_, _, _, _) => f == DForm
    case DS(_, _, _, _, _) => f == DSForm
    case X(_, _, _, _, _, _) => f == XForm
    case M(_, _, _, _, _, _) => f == MForm
    case MD(_, _, _, _, _, _) => f == MDForm
  }

  // What the emitters assert of their operands, for the opcodes used in each
  // form
  predicate Valid(i: Instruction) {
    && OpcodeOf(i) < 64 && HasForm(i, FormOf(OpcodeOf(i)))
    && match i
       case I(_, li, aa, lk) => 0 <= li < 0x100_0000 && aa < 2 && lk < 2
       case B(_, bo, bi, bd, aa, lk) => bo < 32 && bi < 32 && 0 <= bd < 0x4000 && aa < 2 && lk < 2
       case D(_, a, b, c) => a < 32 && b < 32 && -0x1_0000 <= c < 0x1_0000
       case DS(_, a, b, c, d) => a < 32 && b < 32 && -0x4000 <= c < 0x4000 && d < 4
       case X(_, a, b, x, xo, rc) => a < 32 && b < 32 && x < 32 && xo < 0x400 && rc < 2
       case M(a, b, x, y, z, rc) => a < 32 && b < 32 && x < 32 && y < 32 && z < 32 && rc < 2
       case MD(a, b, x, y, z, rc) => a < 32 && b < 32 && x < 64 && y < 64 && z < 8 && rc < 2
  }

  // The fields after the opcode.  An MD form's two six-bit operands are split,
  // low five bits first.
  function Operands(i: Instruction): seq<Field>
    requires Valid(i)
  {
    match i
    case I(_, li, aa, lk) => [Field(li, 24), Field(aa, 1), Field(lk, 1)]
    case B(_, bo, bi, bd, aa, lk) => [Field(bo, 5), Field(bi, 5), Field(bd, 14), Field(aa, 1), Field(lk, 1)]
    case D(_, a, b, c) => [Field(a, 5), Field(b, 5), Field(Low(c, 16), 16)]
    case DS(_, a, b, c, d) => [Field(a, 5), Field(b, 5), Field(Low(c, 14), 14), Field(d, 2)]
    case X(_, a, b, x, xo, rc) => [Field(a, 5), Field(b, 5), Field(x, 5), Field(xo, 10), Field(rc, 1)]
    case M(a, b, x, y, z, rc) => [Field(a, 5), Field(b, 5), Field(x, 5), Field(y, 5), Field(z, 5), Field(rc, 1)]
    case MD(a, b, x, y, z, rc) =>
      [Field(a, 5), Field(b, 5), Field(Low(x, 5), 5), Field(Low(y, 5), 5), Field(Shr(y, 5), 1), Field(z, 3), Field(Shr(x, 5), 1), Field(rc, 1)]
  }

  function Word(i: Instruction): nat
    requires Valid(i)
  {
    Join(Shl(OpcodeOf(i), 26), Operands(i))
  }

  function FormWidths(f: Form): seq<nat> {
    match f
    case IForm => [24, 1, 1]
    case BForm => [5, 5, 14, 1, 1]
    case DForm => [5, 5, 16]
    case DSForm => [5, 5, 14, 2]
    case XForm => [5, 5, 5, 10, 1]
    case MForm => [5, 5, 5, 5, 5, 1]
    case MDForm => [5, 5, 5, 5, 1, 3, 1, 1]
  }

  lemma FormTotal(f: Form)
    ensures Total(FormWidths(f)) == 26
  {
    hide Total;
    match f
    case IForm => Total3([24, 1, 1]);
    case BForm => Total3([5, 5, 14]); Total2([1, 1]); TotalConcat([5, 5, 14], [1, 1]);
      assert [5, 5, 14] + [1, 1] == [5, 5, 14, 1, 1];
    case DForm => Total3([5, 5, 16]);
    case DSForm => Total2([5, 5]); Total2([14, 2]); TotalConcat([5, 5], [14, 2]);
      assert [5, 5] + [14, 2] == [5, 5, 14, 2];
    case XForm => Total3([5, 5, 5]); Total2([10, 1]); TotalConcat([5, 5, 5], [10, 1]);
      assert [5, 5, 5] + [10, 1] == [5, 5, 5, 10, 1];
    case MForm => Total3([5, 5, 5]); Total3([5, 5, 1]); TotalConcat([5, 5, 5], [5, 5, 1]);
      assert [5, 5, 5] + [5, 5, 1] == [5, 5, 5, 5, 5, 1];
    case MDForm => Total3([5, 5, 5]); Total2([5, 1]); Total3([3, 1, 1]);
      TotalConcat([5, 5, 5], [5, 1]); TotalConcat([5, 5, 5, 5, 1], [3, 1, 1]);
      assert [5, 5, 5] + [5, 1] == [5, 5, 5, 5, 1];
      assert [5, 5, 5, 5, 1] + [3, 1, 1] == [5, 5, 5, 5, 1, 3, 1, 1];
  }

  lemma Total2(ws: seq<nat>)
    requires |ws| == 2
    ensures Total(ws) == ws[0] + ws[1]
  {
    TailTotals(ws, 0);
    TailTotals(ws, 1);
    assert ws[0..] == ws;
  }

  lemma Total3(ws: seq<nat>)
    requires |ws| == 3
    ensures Total(ws) == ws[0] + ws[1] + ws[2]
  {
    TailTotals(ws, 0);
    TailTotals(ws, 1);
    TailTotals(ws, 2);
    assert ws[0..] == ws;
  }

  lemma {:induction false} TotalConcat(a: seq<nat>, b: seq<nat>)
    ensures Total(a + b) == Total(a) + Total(b)
  {
    if a == [] {
      assert a + b == b;
    } else {
      assert (a + b)[1..] == a[1..] + b;
      TotalConcat(a[1..], b);
    }
  }

  lemma TailTotals(ws: seq<nat>, k: int)
    requires 0 <= k < |ws|
    ensures Total(ws[k..]) == ws[k] + Total(ws[k + 1..])
    ensures k + 1 == |ws| ==> Total(ws[k + 1..]) == 0
  {
    assert ws[k..][1..] == ws[k + 1..];
  }

  // An instruction as the printers see it, given what they read
  function Seen(opcode: nat, vs: seq<nat>): Instruction
    requires |vs| == |FormWidths(FormOf(opcode))|
  {
    match FormOf(opcode)
    case IForm => I(opcode, SignExtend(vs[0], 24), vs[1], vs[2])
    case BForm => B(opcode, vs[0], vs[1], SignExtend(vs[2], 14), vs[3], vs[4])
    case DForm => D(opcode, vs[0], vs[1], if Unsigned(opcode) then vs[2] else SignExtend(vs[2], 16))
    case DSForm => DS(opcode, vs[0], vs[1], SignExtend(vs[2], 14), vs[3])
    case XForm => X(opcode, vs[0], vs[1], vs[2], vs[3], vs[4])
    case MForm => M(vs[0], vs[1], vs[2], vs[3], vs[4], vs[5])
    case MDForm => MD(vs[0], vs[1], Shl(vs[6], 5) + vs[2], Shl(vs[4], 5) + vs[3], vs[5], vs[7])
  }

  function Decoded(word: nat): Instruction {
    var opcode := Extract(word, 26, 6);
    FormTotal(FormOf(opcode));
    ReadsLength(word, 26, FormWidths(FormOf(opcode)));
    Seen(opcode, Reads(word, 26, FormWidths(FormOf(opcode))))
  }

  // Signed operands as the printers show them, and as the branch emitters and
  // branch_target pass them on
  function Shown(i: Instruction): Instruction
    requires Valid(i)
  {
    match i
    case I(opcode, li, aa, lk) => I(opcode, SignExtend(li, 24), aa, lk)
    case B(opcode, bo, bi, bd, aa, lk) => B(opcode, bo, bi, SignExtend(bd, 14), aa, lk)
    case D(opcode, a, b, c) => D(opcode, a, b, if Unsigned(opcode) then Low(c, 16) else SignExtend(Low(c, 16), 16))
    case DS(opcode, a, b, c, d) => DS(opcode, a, b, SignExtend(Low(c, 14), 14), d)
    case _ => i
  }

  function Masked(i: Instruction): Instruction {
    match i
    case I(opcode, li, aa, lk) => I(opcode, Low(li, 24), aa, lk)
    case B(opcode, bo, bi, bd, aa, lk) => B(opcode, bo, bi, Low(bd, 14), aa, lk)
    case _ => i
  }

  lemma OperandWidths(i: Instruction)
    requires Valid(i)
    ensures Widths(Operands(i)) == FormWidths(FormOf(OpcodeOf(i)))
  {
    hide Widths, Total, Width;
    var fs := Operands(i);
    assert |fs| == |FormWidths(FormOf(OpcodeOf(i)))|;
    assert forall k :: 0 <= k < |fs| ==> fs[k].width == FormWidths(FormOf(OpcodeOf(i)))[k];
  }

  lemma OperandsFit(i: Instruction)
    requires Valid(i)
    ensures Fitting(Operands(i))
  {
    Powers();
    hide Pow2, Shr, Low;
    match i
    case MD(_, _, x, y, _, _) =>
      SixBits(x);
      SixBits(y);
    case _ =>
  }

  lemma SixBits(x: nat)
    requires x < 64
    ensures Shr(x, 5) < 2 && x == Shl(Shr(x, 5), 5) + Low(x, 5)
  {
    PartsOf(x, 5);
  }

  lemma JoinedReads(opcode: nat, fs: seq<Field>)
    requires opcode < 64 && Fitting(fs) && Width(fs) == 26
    ensures var word := Join(Shl(opcode, 26), fs);
      word < Pow2(32) && Extract(word, 26, 6) == opcode && Reads(word, 26, Widths(fs)) == Values(fs)
  {
    hide *;
    JoinAdds(opcode, fs);
    PackedFits(fs);
    WordFits(opcode, Packed(fs));
    ReadsFields(opcode, fs);
  }

  // Decoding an emitted word gives back what was emitted.
  lemma DecodesEncoded(i: Instruction)
    requires Valid(i)
    ensures Word(i) < Pow2(32) && Decoded(Word(i)) == Shown(i)
  {
    assert OpcodeOf(i) < 64;
    hide *;
    FormTotal(FormOf(OpcodeOf(i)));
    OperandWidths(i);
    OperandsFit(i);
    JoinedReads(OpcodeOf(i), Operands(i));
    SeenIsShown(i);
    WordIs(i);
    DecodedIs(Word(i));
  }

  lemma WordIs(i: Instruction)
    requires Valid(i)
    ensures Word(i) == Join(Shl(OpcodeOf(i), 26), Operands(i))
  {
    hide Join, Shl, Operands, Valid, OpcodeOf;
  }

  lemma DecodedIs(word: nat)
    ensures var widths := FormWidths(FormOf(Extract(word, 26, 6)));
      Total(widths) <= 26 && |Reads(word, 26, widths)| == |widths|
      && Decoded(word) == Seen(Extract(word, 26, 6), Reads(word, 26, widths))
  {
    hide FormWidths, FormOf, Extract, Reads, Total, Seen;
    FormTotal(FormOf(Extract(word, 26, 6)));
    ReadsLength(word, 26, FormWidths(FormOf(Extract(word, 26, 6))));
  }

  lemma WordFits(opcode: nat, low: nat)
    requires opcode < 64 && low < Pow2(26)
    ensures Shl(opcode, 26) + low < Pow2(32) && Extract(Shl(opcode, 26) + low, 26, 6) == opcode
  {
    hide Shl, Pow2, Low, Shr;
    ShrParts(opcode, low, 26);
    LowSmall(opcode);
    ShlMono(opcode + 1, Pow2(6), 26);
    ShlSum(opcode, 1, 26);
    ShlPow(6, 26);
    ShlPow(0, 26);
  }

  lemma ShlPow(m: nat, n: nat)
    ensures Shl(Pow2(m), n) == Pow2(m + n) && Pow2(0) == 1
  {
    ShlShl(1, m, n);
  }

  lemma LowSmall(opcode: nat)
    requires opcode < 64
    ensures Low(opcode, 6) == opcode < Pow2(6)
  {
    Powers();
    ShlNegative(6);
    ShrParts(0, opcode, 6);
  }

  lemma SeenIsShown(i: Instruction)
    requires Valid(i) && |Values(Operands(i))| == |FormWidths(FormOf(OpcodeOf(i)))|
    ensures Seen(OpcodeOf(i), Values(Operands(i))) == Shown(i)
  {
    hide Values, SignExtend, Low, Shr, Shl;
    match i
    case MD(_, _, x, y, _, _) =>
      SixBits(x);
      SixBits(y);
    case _ =>
  }

  // Encoding what the parser read gives back the word it read it from.
  lemma EncodesDecoded(word: nat)
    requires word < Pow2(32)
    ensures Valid(Masked(Decoded(word))) && Word(Masked(Decoded(word))) == word
  {
    hide *;
    var opcode := Extract(word, 26, 6);
    var widths := FormWidths(FormOf(opcode));
    DecodedIs(word);
    FormTotal(FormOf(opcode));
    var vs := Reads(word, 26, widths);
    FieldsMakeWord(word, widths);
    WordOpcode(word);
    SeenIsValid(opcode, vs);
    JoinAdds(opcode, Zip(vs, widths));
    PartsOf(word, 26);
    WordIs(Masked(Decoded(word)));
  }

  lemma WordOpcode(word: nat)
    requires word < Pow2(32)
    ensures Extract(word, 26, 6) == Shr(word, 26) < 64
  {
    hide Shr, Low;
    ShrShr(word, 26, 6);
    ShrIs(word, 32);
    PartsOf(Shr(word, 26), 6);
    ShlNegative(6);
    Powers();
    hide Shl, Pow2;
  }

  // What was read is what the masked operands are.
  ghost predicate Recovers(opcode: nat, vs: seq<nat>)
    requires |vs| == |FormWidths(FormOf(opcode))|
  {
    var i, widths := Masked(Seen(opcode, vs)), FormWidths(FormOf(opcode));
    && Valid(i) && OpcodeOf(i) == opcode && |Operands(i)| == |vs|
    && forall k :: 0 <= k < |vs| ==> Operands(i)[k] == Field(vs[k], widths[k])
  }

  ghost predicate InWidth(opcode: nat, vs: seq<nat>) {
    var widths := FormWidths(FormOf(opcode));
    && opcode < 64 && |vs| == |widths|
    && forall k :: 0 <= k < |vs| ==> vs[k] < Pow2(widths[k])
  }

  lemma SeenIsValid(opcode: nat, vs: seq<nat>)
    requires opcode < 64 && |vs| == |FormWidths(FormOf(opcode))| && Fitting(Zip(vs, FormWidths(FormOf(opcode))))
    ensures var i := Masked(Seen(opcode, vs));
      Valid(i) && OpcodeOf(i) == opcode && Operands(i) == Zip(vs, FormWidths(FormOf(opcode)))
  {
    hide Zip, Fitting, InWidth, Pow2, Masked, Seen, FormWidths, FormOf, OpcodeOf, Operands, Valid;
    var widths := FormWidths(FormOf(opcode));
    FittingInWidth(opcode, vs);
    SeenRecovers(opcode, vs);
    ZipIs(Operands(Masked(Seen(opcode, vs))), vs, widths);
  }

  lemma ZipIs(fs: seq<Field>, vs: seq<nat>, widths: seq<nat>)
    requires |fs| == |vs| == |widths| && forall k :: 0 <= k < |vs| ==> fs[k] == Field(vs[k], widths[k])
    ensures fs == Zip(vs, widths)
  {
    hide Zip;
    assert forall k :: 0 <= k < |vs| ==> Zip(vs, widths)[k] == Field(vs[k], widths[k]);
  }

  lemma FittingInWidth(opcode: nat, vs: seq<nat>)
    requires opcode < 64 && |vs| == |FormWidths(FormOf(opcode))| && Fitting(Zip(vs, FormWidths(FormOf(opcode))))
    ensures InWidth(opcode, vs)
  {
    hide Zip, Pow2, FormWidths, FormOf;
    var widths := FormWidths(FormOf(opcode));
    assert forall k :: 0 <= k < |vs| ==> Zip(vs, widths)[k].value < Pow2(Zip(vs, widths)[k].width);
  }

  lemma SeenRecovers(opcode: nat, vs: seq<nat>)
    requires InWidth(opcode, vs)
    ensures Recovers(opcode, vs)
  {
    hide Recovers, InWidth, FormOf, FormWidths;
    match FormOf(opcode)
    case IForm => RecoversBranch(opcode, vs);
    case BForm => RecoversBranch(opcode, vs);
    case DForm => RecoversImmediate(opcode, vs);
    case DSForm => RecoversImmediate(opcode, vs);
    case XForm => RecoversFields(opcode, vs);
    case MForm => RecoversFields(opcode, vs);
    case MDForm => RecoversFields(opcode, vs);
  }

  lemma RecoversBranch(opcode: nat, vs: seq<nat>)
    requires InWidth(opcode, vs) && (FormOf(opcode) == IForm || FormOf(opcode) == BForm)
    ensures Recovers(opcode, vs)
  {
    Powers();
    hide Pow2, SignExtend, Low;
    if FormOf(opcode) == IForm {
      ReadSigned(vs[0], 24);
    } else {
      ReadSigned(vs[2], 14);
    }
  }

  lemma RecoversImmediate(opcode: nat, vs: seq<nat>)
    requires InWidth(opcode, vs) && (FormOf(opcode) == DForm || FormOf(opcode) == DSForm)
    ensures Recovers(opcode, vs)
  {
    Powers();
    hide Pow2, SignExtend, Low;
    if FormOf(opcode) == DForm {
      ReadSigned(vs[2], 16);
    } else {
      ReadSigned(vs[2], 14);
    }
  }

  lemma RecoversFields(opcode: nat, vs: seq<nat>)
    requires InWidth(opcode, vs) && FormOf(opcode) in {XForm, MForm, MDForm}
    ensures Recovers(opcode, vs)
  {
    Powers();
    hide Pow2, SignExtend, Low, Shl, Shr;
    if FormOf(opcode) == MDForm {
      SixBitsRead(vs[6], vs[2]);
      SixBitsRead(vs[4], vs[3]);
    }
  }

  lemma ReadSigned(v: nat, n: nat)
    requires n > 0 && v < Pow2(n)
    ensures Low(v, n) == v == Low(SignExtend(v, n), n) && -Pow2(n - 1) <= SignExtend(v, n) < Pow2(n - 1)
  {
    hide Low, Pow2, SignExtend;
    ShrParts(0, v, n);
    ShlNegative(n);
    SignExtendLow(v, n);
  }

  lemma SixBitsRead(high: nat, low: nat)
    requires high < 2 && low < 32
    ensures Shl(high, 5) + low < 64 && Shr(Shl(high, 5) + low, 5) == high && Low(Shl(high, 5) + low, 5) == low
  {
    Powers();
    ShrParts(high, low, 5);
  }

  // ---- displacements of addresses ------------------------------------

  // Address::displacement() of an int16_t: all sixteen bits, unsigned
  function Displacement(d: int): (n: nat)
    ensures n < 0x1_0000 && Shr(n, 2) < 0x4000
  {
    Powers();
    Low(d, 16)
  }

  // ori, oris and andi. are shown with the number from 0 to 0xffff that was
  // emitted, and every other D form with the signed one.
  lemma ImmediatesShown(opcode: nat, a: nat, b: nat, c: int)
    requires opcode < 64 && FormOf(opcode) == DForm && a < 32 && b < 32
    requires if opcode in {24, 25, 28} then 0 <= c < 0x1_0000 else -0x8000 <= c < 0x8000
    ensures Decoded(Word(D(opcode, a, b, c))) == D(opcode, a, b, c)
  {
    hide Word, Decoded, Low, SignExtend;
    Powers();
    hide Pow2;
    DecodesEncoded(D(opcode, a, b, c));
    if opcode in {24, 25, 28} {
      LowNonNegative(c, 16);
    } else {
      SignExtendLow(c, 16);
    }
  }

  // A displacement passed to a D form is shown as it is; passed on without its
  // low two bits to a DS form it is shown, times four, exactly when it is a
  // multiple of four.
  lemma DisplacementsShown(d: int, opcode: nat, dsOpcode: nat, a: nat, b: nat, xo: nat)
    requires IsSigned(d, 16) && a < 32 && b < 32 && xo < 4
    requires opcode < 64 && FormOf(opcode) == DForm && !Unsigned(opcode) && dsOpcode in {58, 62}
    ensures Decoded(Word(D(opcode, a, b, Displacement(d)))) == D(opcode, a, b, d)
    ensures var i := Decoded(Word(DS(dsOpcode, a, b, Shr(Displacement(d), 2), xo)));
      i.DS? && (4 * i.c == d <==> d % 4 == 0)
  {
    hide Word, Decoded, Low, Shr, Pow2, SignExtend;
    Powers();
    DecodesEncoded(D(opcode, a, b, Displacement(d)));
    SignExtendLow(d, 16);
    LowLow(d, 16);
    QuarterDisplacement(d);
    DecodesEncoded(DS(dsOpcode, a, b, Shr(Displacement(d), 2), xo));
  }

  lemma LowLow(x: int, n: nat)
    ensures Low(Low(x, n), n) == Low(x, n)
  {
    hide Low;
    ShrParts(0, Low(x, n), n);
    ShlNegative(n);
  }

  // x >> 2 of the sixteen bits is the fourteen bits of d >> 2.
  lemma QuarterDisplacement(d: int)
    requires IsSigned(d, 16)
    ensures Shr(Low(d, 16), 2) == Low(Shr(d, 2), 14) < 0x4000
    ensures SignExtend(Low(Shr(Low(d, 16), 2), 14), 14) == Shr(d, 2) == d / 4
  {
    hide Low, SignExtend;
    LowParts(d, 14, 2);
    ShrParts(Low(Shr(d, 2), 14), Low(d, 2), 2);
    LowLow(Shr(d, 2), 14);
    Powers();
    hide Pow2;
    assert Shr(d, 2) == d / 2 / 2 == d / 4;
    assert IsSigned(d / 4, 14);
    SignExtendLow(d / 4, 14);
  }

  // The sum of widths below each field is its position.
  lemma Join1(word: nat, fs: seq<Field>)
    requires |fs| == 1
    ensures Join(word, fs) == Or(word, fs[0].value) && Width(fs) == fs[0].width
  {
    assert fs[1..] == [];
  }

  lemma Join2(word: nat, fs: seq<Field>)
    requires |fs| == 2
    ensures Width(fs) == fs[0].width + fs[1].width
    ensures Join(word, fs) ==
      Or(Or(word, Shl(fs[0].value, fs[1].width)), fs[1].value)
  {
    Join1(Or(word, Shl(fs[0].value, Width(fs[1..]))), fs[1..]);
    hide Shl, Or;
  }

  lemma Join3(word: nat, fs: seq<Field>)
    requires |fs| == 3
    ensures Width(fs) == fs[0].width + fs[1].width + fs[2].width
    ensures Join(word, fs) ==
      Or(Or(Or(word, Shl(fs[0].value, fs[1].width + fs[2].width)), Shl(fs[1].value, fs[2].width)), fs[2].value)
  {
    Join2(Or(word, Shl(fs[0].value, Width(fs[1..]))), fs[1..]);
    hide Shl, Or;
  }

  lemma Join4(word: nat, fs: seq<Field>)
    requires |fs| == 4
    ensures Width(fs) == fs[0].width + fs[1].width + fs[2].width + fs[3].width
    ensures Join(word, fs) ==
      Or(Or(Or(Or(word, Shl(fs[0].value, fs[1].width + fs[2].width + fs[3].width)), Shl(fs[1].value, fs[2].width + fs[3].width)), Shl(fs[2].value, fs[3].width)), fs[3].value)
  {
    Join3(Or(word, Shl(fs[0].value, Width(fs[1..]))), fs[1..]);
    hide Shl, Or;
  }

  lemma Join5(word: nat, fs: seq<Field>)
    requires |fs| == 5
    ensures Width(fs) == fs[0].width + fs[1].width + fs[2].width + fs[3].width + fs[4].width
    ensures Join(word, fs) ==
      Or(Or(Or(Or(Or(word, Shl(fs[0].value, fs[1].width + fs[2].width + fs[3].width + fs[4].width)), Shl(fs[1].value, fs[2].width + fs[3].width + fs[4].width)), Shl(fs[2].value, fs[3].width + fs[4].width)), Shl(fs[3].value, fs[4].width)), fs[4].value)
  {
    Join4(Or(word, Shl(fs[0].value, Width(fs[1..]))), fs[1..]);
    hide Shl, Or;
  }

  lemma Join6(word: nat, fs: seq<Field>)
    requires |fs| == 6
    ensures Width(fs) == fs[0].width + fs[1].width + fs[2].width + fs[3].width + fs[4].width + fs[5].width
    ensures Join(word, fs) ==
      Or(Or(Or(Or(Or(Or(word, Shl(fs[0].value, fs[1].width + fs[2].width + fs[3].width + fs[4].width + fs[5].width)), Shl(fs[1].value, fs[2].width + fs[3].width + fs[4].width + fs[5].width)), Shl(fs[2].value, fs[3].width + fs[4].width + fs[5].width)), Shl(fs[3].value, fs[4].width + fs[5].width)), Shl(fs[4].value, fs[5].width)), fs[5].value)
  {
    Join5(Or(word, Shl(fs[0].value, Width(fs[1..]))), fs[1..]);
    hide Shl, Or;
  }

  lemma LowNonNegative(c: int, n: nat)
    ensures 0 <= c < Pow2(n) ==> Low(c, n) == c
  {
    hide Low;
    if 0 <= c < Pow2(n) {
      ShrParts(0, c, n);
      ShlNegative(n);
    }
  }

  lemma {:induction false} PackedConcat(xs: seq<Field>, ys: seq<Field>)
    ensures Width(xs + ys) == Width(xs) + Width(ys)
    ensures Packed(xs + ys) == Shl(Packed(xs), Width(ys)) + Packed(ys)
  {
    if xs == [] {
      assert xs + ys == ys;
      ShlNegative(Width(ys));
    } else {
      assert (xs + ys)[1..] == xs[1..] + ys;
      PackedConcat(xs[1..], ys);
      ShlShl(xs[0].value, Width(xs[1..]), Width(ys));
      ShlSum(Shl(xs[0].value, Width(xs[1..])), Packed(xs[1..]), Width(ys));
    }
  }

  // A field may stand for the fields packed in it.
  lemma PackedInField(xs: seq<Field>, ys: seq<Field>, f: Field, zs: seq<Field>)
    requires f == Field(Packed(ys), Width(ys))
    ensures Packed(xs + [f] + zs) == Packed(xs + ys + zs) && Width(xs + [f] + zs) == Width(xs + ys + zs)
  {
    hide Shl;
    PackedConcat(xs, [f]);
    PackedConcat(xs, ys);
    PackedConcat(xs + [f], zs);
    PackedConcat(xs + ys, zs);
    assert [f][1..] == [] && Packed([f]) == f.value by { ShlPlain(f.value); }
  }

  function SplitHigh(c: nat, d: nat, e: nat): seq<Field> { [Field(Shr(d, 5), 1), Field(e, 3), Field(Shr(c, 5), 1)] }

  lemma SplitOperands(a: nat, b: nat, c: nat, d: nat, e: nat, rc: nat, E: nat)
    requires Valid(MD(a, b, c, d, e, rc))
    requires E == Or(Or(Shl(Shr(d, 5), 4), Shl(e, 1)), Shr(c, 5))
    ensures Word(MD(a, b, c, d, e, rc)) ==
      Or(Or(Or(Or(Or(Or(Shl(30, 26), Shl(a, 21)), Shl(b, 16)), Shl(Low(c, 5), 11)), Shl(Low(d, 5), 6)), Shl(E, 1)), rc)
  {
    hide *;
    var xs, ys, zs := [Field(a, 5), Field(b, 5), Field(Low(c, 5), 5), Field(Low(d, 5), 5)], SplitHigh(c, d, e), [Field(rc, 1)];
    var f := Field(E, 5);
    SplitParts(MD(a, b, c, d, e, rc), xs, ys, zs);
    SplitIs(c, d, e, E);
    WordIs(MD(a, b, c, d, e, rc));
    PackedInField(xs, ys, f, zs);
    SplitFits(xs, f, zs);
    JoinAdds(30, xs + ys + zs);
    JoinAdds(30, xs + [f] + zs);
    Join6(Shl(30, 26), xs + [f] + zs);
    assert xs + [f] + zs == [Field(a, 5), Field(b, 5), Field(Low(c, 5), 5), Field(Low(d, 5), 5), f, Field(rc, 1)];
  }

  lemma SplitParts(i: Instruction, xs: seq<Field>, ys: seq<Field>, zs: seq<Field>)
    requires Valid(i) && i.MD? && ys == SplitHigh(i.x, i.y, i.z) && zs == [Field(i.rc, 1)]
    requires xs == [Field(i.a, 5), Field(i.b, 5), Field(Low(i.x, 5), 5), Field(Low(i.y, 5), 5)]
    ensures Operands(i) == xs + ys + zs && OpcodeOf(i) == 30
    ensures Fitting(xs) && Fitting(ys) && Fitting(zs) && Fitting(xs + ys + zs)
  {
    hide Shr, Low, Pow2, Fitting;
    OperandsFit(i);
    assert Operands(i) == xs + ys + zs;
    PartsFit(xs, ys, zs);
  }

  lemma PartsFit(xs: seq<Field>, ys: seq<Field>, zs: seq<Field>)
    requires Fitting(xs + ys + zs)
    ensures Fitting(xs) && Fitting(ys) && Fitting(zs)
  {
    hide Pow2;
    var fs := xs + ys + zs;
    assert forall k :: 0 <= k < |xs| ==> xs[k] == fs[k];
    assert forall k :: 0 <= k < |ys| ==> ys[k] == fs[|xs| + k];
    assert forall k :: 0 <= k < |zs| ==> zs[k] == fs[|xs| + |ys| + k];
  }

  lemma SplitIs(c: nat, d: nat, e: nat, E: nat)
    requires Fitting(SplitHigh(c, d, e)) && E == Or(Or(Shl(Shr(d, 5), 4), Shl(e, 1)), Shr(c, 5))
    ensures Field(E, 5) == Field(Packed(SplitHigh(c, d, e)), Width(SplitHigh(c, d, e))) && E < Pow2(5)
  {
    var ys := SplitHigh(c, d, e);
    assert ys == [Field(Shr(d, 5), 1), Field(e, 3), Field(Shr(c, 5), 1)];
    ZeroOr(ys);
    hide *;
    Join3(0, ys);
    PackedFits(ys);
  }

  lemma ZeroOr(ys: seq<Field>)
    requires Fitting(ys)
    ensures Join(0, ys) == Packed(ys) && forall x: nat :: Or(0, x) == x
  {
    JoinAdds(0, ys);
    ShlNegative(Width(ys));
  }

  lemma SplitFits(xs: seq<Field>, f: Field, zs: seq<Field>)
    requires Fitting(xs) && Fitting(zs) && f.value < Pow2(f.width)
    ensures Fitting(xs + [f] + zs)
  {
    hide Pow2;
  }

  // ---- the assembler and the parser ----------------------------------

  class Assembler {
    var code: seq<nat>

    constructor ()
      ensures code == []
    {
      code := [];
    }

    method EmitLong(word: nat)
      modifies this
      ensures code == old(code) + [word]
    {
      code := code + [word];
    }

    // emit_instruction, form by form: the word is the one or of the shifted
    // operands.
    method EmitI(opcode: nat, li: nat, aa: nat, lk: nat)
      requires Valid(I(opcode, li, aa, lk))
      modifies this
      ensures code == old(code) + [Word(I(opcode, li, aa, lk))]
    {
      Join3(Shl(opcode, 26), [Field(li, 24), Field(aa, 1), Field(lk, 1)]);
      EmitLong(Or(Or(Or(Shl(opcode, 26), Shl(li, 2)), Shl(aa, 1)), lk));
    }

    method EmitB(opcode: nat, bo: nat, bi: nat, bd: nat, aa: nat, lk: nat)
      requires Valid(B(opcode, bo, bi, bd, aa, lk))
      modifies this
      ensures code == old(code) + [Word(B(opcode, bo, bi, bd, aa, lk))]
    {
      Join5(Shl(opcode, 26), [Field(bo, 5), Field(bi, 5), Field(bd, 14), Field(aa, 1), Field(lk, 1)]);
      EmitLong(Or(Or(Or(Or(Or(Shl(opcode, 26), Shl(bo, 21)), Shl(bi, 16)), Shl(bd, 2)), Shl(aa, 1)), lk));
    }

    method EmitD(opcode: nat, a: nat, b: nat, c: int)
      requires Valid(D(opcode, a, b, c))
      modifies this
      ensures code == old(code) + [Word(D(opcode, a, b, c))]
    {
      hide Low, Shl, Or, Pow2;
      Powers();
      LowNonNegative(c, 16);
      var c16 := if c < 0 then Low(c, 16) else c;
      assert Operands(D(opcode, a, b, c)) == [Field(a, 5), Field(b, 5), Field(c16, 16)];
      Join3(Shl(opcode, 26), [Field(a, 5), Field(b, 5), Field(c16, 16)]);
      EmitLong(Or(Or(Or(Shl(opcode, 26), Shl(a, 21)), Shl(b, 16)), c16));
    }

    method EmitDS(opcode: nat, a: nat, b: nat, c: int, d: nat)
      requires Valid(DS(opcode, a, b, c, d))
      modifies this
      ensures code == old(code) + [Word(DS(opcode, a, b, c, d))]
    {
      hide Low, Shl, Or, Pow2;
      Powers();
      LowNonNegative(c, 14);
      var c14 := if c < 0 then Low(c, 14) else c;
      assert Operands(DS(opcode, a, b, c, d)) == [Field(a, 5), Field(b, 5), Field(c14, 14), Field(d, 2)];
      Join4(Shl(opcode, 26), [Field(a, 5), Field(b, 5), Field(c14, 14), Field(d, 2)]);
      EmitLong(Or(Or(Or(Or(Shl(opcode, 26), Shl(a, 21)), Shl(b, 16)), Shl(c14, 2)), d));
    }

    method EmitX(opcode: nat, a: nat, b: nat, c: nat, xo: nat, rc: nat)
      requires Valid(X(opcode, a, b, c, xo, rc))
      modifies this
      ensures code == old(code) + [Word(X(opcode, a, b, c, xo, rc))]
    {
      Join5(Shl(opcode, 26), [Field(a, 5), Field(b, 5), Field(c, 5), Field(xo, 10), Field(rc, 1)]);
      EmitLong(Or(Or(Or(Or(Or(Shl(opcode, 26), Shl(a, 21)), Shl(b, 16)), Shl(c, 11)), Shl(xo, 1)), rc));
    }

    method EmitM(a: nat, b: nat, c: nat, d: nat, e: nat, rc: nat)
      requires Valid(M(a, b, c, d, e, rc))
      modifies this
      ensures code == old(code) + [Word(M(a, b, c, d, e, rc))]
    {
      Join6(Shl(21, 26), [Field(a, 5), Field(b, 5), Field(c, 5), Field(d, 5), Field(e, 5), Field(rc, 1)]);
      EmitLong(Or(Or(Or(Or(Or(Or(Shl(21, 26), Shl(a, 21)), Shl(b, 16)), Shl(c, 11)), Shl(d, 6)), Shl(e, 1)), rc));
    }

    method EmitMD(a: nat, b: nat, c: nat, d: nat, e: nat, rc: nat)
      requires Valid(MD(a, b, c, d, e, rc))
      modifies this
      ensures code == old(code) + [Word(MD(a, b, c, d, e, rc))]
    {
      // E is (d & 0x20) >> 1 | e << 1 | (c & 0x20) >> 5
      var C, D := Low(c, 5), Low(d, 5);
      var E := Or(Or(Shl(Shr(d, 5), 4), Shl(e, 1)), Shr(c, 5));
      SplitOperands(a, b, c, d, e, rc, E);
      EmitLong(Or(Or(Or(Or(Or(Or(Shl(30, 26), Shl(a, 21)), Shl(b, 16)), Shl(C, 11)), Shl(D, 6)), Shl(E, 1)), rc));
    }
  }

  lemma OrAdds(high: nat, low: nat, k: nat)
    requires low < Pow2(k)
    ensures Or(Shl(high, k), low) == Shl(high, k) + low
  {
    hide Shl, Or;
    OrParts(high, 0, 0, low, k);
    OrZero(high);
    OrZero(low);
    ShlNegative(k);
  }

  // The operand fields of each form, top down
  function OperandBits(word: nat, f: Form): seq<nat> {
    match f
    case IForm => [Extract(word, 2, 24), Extract(word, 1, 1), Extract(word, 0, 1)]
    case BForm => [Extract(word, 21, 5), Extract(word, 16, 5), Extract(word, 2, 14), Extract(word, 1, 1), Extract(word, 0, 1)]
    case DForm => [Extract(word, 21, 5), Extract(word, 16, 5), Extract(word, 0, 16)]
    case DSForm => [Extract(word, 21, 5), Extract(word, 16, 5), Extract(word, 2, 14), Extract(word, 0, 2)]
    case XForm => [Extract(word, 21, 5), Extract(word, 16, 5), Extract(word, 11, 5), Extract(word, 1, 10), Extract(word, 0, 1)]
    case MForm => [Extract(word, 21, 5), Extract(word, 16, 5), Extract(word, 11, 5), Extract(word, 6, 5), Extract(word, 1, 5), Extract(word, 0, 1)]
    case MDForm => [Extract(word, 21, 5), Extract(word, 16, 5), Extract(word, 11, 5), Extract(word, 6, 5), Extract(word, 5, 1), Extract(word, 2, 3), Extract(word, 1, 1), Extract(word, 0, 1)]
  }

  lemma {:induction false} ReadsConcat(word: nat, bits: nat, a: seq<nat>, b: seq<nat>)
    requires Total(a) + Total(b) <= bits
    ensures Total(a + b) == Total(a) + Total(b)
    ensures Reads(word, bits, a + b) == Reads(word, bits, a) + Reads(word, bits - Total(a), b)
    decreases a
  {
    hide Extract;
    TotalConcat(a, b);
    if a == [] {
      assert a + b == b;
    } else {
      assert (a + b)[1..] == a[1..] + b && (a + b)[0] == a[0];
      TailTotals(a, 0);
      assert a[0..] == a;
      hide Total;
      ReadsConcat(word, bits - a[0], a[1..], b);
    }
  }

  lemma Reads1(word: nat, bits: nat, ws: seq<nat>)
    requires |ws| == 1 && ws[0] <= bits
    ensures Total(ws) == ws[0] && Reads(word, bits, ws) == [Extract(word, bits - ws[0], ws[0])]
  {
    hide Extract;
    TailTotals(ws, 0);
    assert ws[0..] == ws && ws[1..] == [];
  }

  lemma Reads2(word: nat, bits: nat, ws: seq<nat>)
    requires |ws| == 2 && ws[0] + ws[1] <= bits
    ensures Total(ws) == ws[0] + ws[1]
    ensures Reads(word, bits, ws) == [Extract(word, bits - ws[0], ws[0]), Extract(word, bits - ws[0] - ws[1], ws[1])]
  {
    hide Extract, Reads, Total;
    Reads1(word, bits, ws[..1]);
    Reads1(word, bits - ws[0], ws[1..]);
    ReadsConcat(word, bits, ws[..1], ws[1..]);
    assert ws[..1] + ws[1..] == ws;
  }

  lemma Reads3(word: nat, bits: nat, ws: seq<nat>)
    requires |ws| == 3 && ws[0] + ws[1] + ws[2] <= bits
    ensures Total(ws) == ws[0] + ws[1] + ws[2]
    ensures Reads(word, bits, ws) ==
      [Extract(word, bits - ws[0], ws[0]), Extract(word, bits - ws[0] - ws[1], ws[1]), Extract(word, bits - ws[0] - ws[1] - ws[2], ws[2])]
  {
    hide Extract, Reads, Total;
    Reads2(word, bits, ws[..2]);
    Reads1(word, bits - ws[0] - ws[1], ws[2..]);
    ReadsConcat(word, bits, ws[..2], ws[2..]);
    assert ws[..2] + ws[2..] == ws;
  }

  lemma ReadsAre(word: nat)
    ensures var f := FormOf(Extract(word, 26, 6));
      Total(FormWidths(f)) <= 26 && Reads(word, 26, FormWidths(f)) == OperandBits(word, f)
  {
    hide Extract, Reads, Total, FormOf;
    var f := FormOf(Extract(word, 26, 6));
    FormTotal(f);
    Reads3(word, 26, [5, 5, 5]);
    match f
    case IForm => Reads3(word, 26, [24, 1, 1]);
    case BForm => Reads3(word, 26, [5, 5, 14]); Reads2(word, 2, [1, 1]); ReadsConcat(word, 26, [5, 5, 14], [1, 1]);
      assert [5, 5, 14] + [1, 1] == [5, 5, 14, 1, 1];
    case DForm => Reads3(word, 26, [5, 5, 16]);
    case DSForm => Reads2(word, 26, [5, 5]); Reads2(word, 16, [14, 2]); ReadsConcat(word, 26, [5, 5], [14, 2]);
      assert [5, 5] + [14, 2] == [5, 5, 14, 2];
    case XForm => Reads2(word, 11, [10, 1]); ReadsConcat(word, 26, [5, 5, 5], [10, 1]);
      assert [5, 5, 5] + [10, 1] == [5, 5, 5, 10, 1];
    case MForm => Reads3(word, 11, [5, 5, 1]); ReadsConcat(word, 26, [5, 5, 5], [5, 5, 1]);
      assert [5, 5, 5] + [5, 5, 1] == [5, 5, 5, 5, 5, 1];
    case MDForm => Reads2(word, 11, [5, 1]); Reads3(word, 5, [3, 1, 1]);
      ReadsConcat(word, 26, [5, 5, 5], [5, 1]);
      assert [5, 5, 5] + [5, 1] == [5, 5, 5, 5, 1];
      ReadsConcat(word, 26, [5, 5, 5, 5, 1], [3, 1, 1]);
      assert [5, 5, 5, 5, 1] + [3, 1, 1] == [5, 5, 5, 5, 1, 3, 1, 1];
  }

  class InstructionParser {
    const instruction: nat
    var bits: nat

    constructor (word: nat)
      ensures instruction == word && bits == 26
    {
      instruction, bits := word, 26;
    }

    function Opcode(): nat { Extract(instruction, 26, 6) }

    function ExtendedOpcode(): int {
      match FormOf(Opcode())
      case XForm => Extract(instruction, 1, 10)
      case MDForm => Extract(instruction, 2, 3)
      case DSForm => Extract(instruction, 0, 2)
      case _ => -1
    }

    method Read(n: nat) returns (v: nat)
      requires n <= bits
      modifies this
      ensures bits == old(bits) - n && v == Extract(instruction, bits, n)
    {
      bits := bits - n;
      v := Extract(instruction, bits, n);
    }

    method ReadSigned(n: nat) returns (v: int)
      requires 0 < n <= bits
      modifies this
      ensures bits == old(bits) - n && v == SignExtend(Extract(instruction, bits, n), n)
    {
      var u := Read(n);
      v := if Bit(u, n - 1) then u - Pow2(n) else u;
    }

    // The fields in the order the printers of each form read them.  A DS form
    // leaves its last two bits, which are its extended opcode.
    method Parse() returns (i: Instruction)
      requires bits == 26
      modifies this
      ensures i == Decoded(instruction) && bits == if FormOf(Opcode()) == DSForm then 2 else 0
      ensures i.X? ==> i.xo == ExtendedOpcode()
      ensures i.MD? ==> i.z == ExtendedOpcode()
      ensures i.DS? ==> i.d == ExtendedOpcode()
    {
      hide Extract, SignExtend, Shl;
      ReadsAre(instruction);
      match FormOf(Opcode()) {
        case IForm =>
          var li := ReadSigned(24);
          var aa := Read(1);
          var lk := Read(1);
          i := I(Opcode(), li, aa, lk);
        case BForm =>
          var bo := Read(5);
          var bi := Read(5);
          var bd := ReadSigned(14);
          var aa := Read(1);
          var lk := Read(1);
          i := B(Opcode(), bo, bi, bd, aa, lk);
        case DForm =>
          var a := Read(5);
          var b := Read(5);
          var c: int;
          if Unsigned(Opcode()) {
            c := Read(16);
          } else {
            c := ReadSigned(16);
          }
          i := D(Opcode(), a, b, c);
        case DSForm =>
          var a := Read(5);
          var b := Read(5);
          var c := ReadSigned(14);
          i := DS(Opcode(), a, b, c, Extract(instruction, 0, 2));
        case XForm =>
          var a := Read(5);
          var b := Read(5);
          var x := Read(5);
          var xo := Read(10);
          var rc := Read(1);
          i := X(Opcode(), a, b, x, xo, rc);
        case MForm =>
          var a := Read(5);
          var b := Read(5);
          var sh := Read(5);
          var mb := Read(5);
          var me := Read(5);
          var rc := Read(1);
          i := M(a, b, sh, mb, me, rc);
        case MDForm =>
          var a := Read(5);
          var b := Read(5);
          var shl := Read(5);
          var mel := Read(5);
          var meh := Read(1);
          var xo := Read(3);
          var shh := Read(1);
          var rc := Read(1);
          OrAdds(shh, shl, 5);
          OrAdds(meh, mel, 5);
          i := MD(a, b, Or(Shl(shh, 5), shl), Or(Shl(meh, 5), mel), xo, rc);
      }
    }
  }
}
