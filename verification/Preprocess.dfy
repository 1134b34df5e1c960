// preprocess in the templater: a partial evaluator that resolves the
// conditionals on CPU names and leaves every other directive for the C
// preprocessor.
//
// The source is taken already split into the pieces the tokenizer finds: text
// and comments, and one piece for each directive.
module Preprocess {

  datatype Item =
    | Text(text: string)
    | Include(header: string)
    | Define(macro: string, body: string)
    | Undef(undefined: string)
    | Ifdef(args: seq<string>)
    | Ifndef(nargs: seq<string>)
    | If(tokens: seq<string>)
    | Else
    | Endif
    | Other(command: string)  // any other directive

  datatype Mode = COPY | COND_TRUE | COND_FALSE

  datatype Option<+T> = None | Some(value: T)

  // modes.keys(), in upper case
  const KNOWN_CPUS: set<string> := {"IA64", "PPC", "S390"}

  function OtherCpus(cpu: string): set<string> { KNOWN_CPUS - {cpu} }

  predicate CpuName(cpu: string, name: string) { name == cpu || name in KNOWN_CPUS }

  function DefinedToken(name: string): string { "defined(" + name + ")" }

  predicate MentionsCpu(cpu: string, tokens: seq<string>) {
    DefinedToken(cpu) in tokens || exists other :: other in OtherCpus(cpu) && DefinedToken(other) in tokens
  }

  // ---- the partial evaluator -----------------------------------------

  datatype Progress = Progress(mode: seq<Mode>, dst: seq<Item>)

  function Copied(p: Progress, it: Item): seq<Item> {
    if COND_FALSE in p.mode then p.dst else p.dst + [it]
  }

  function Conditional(cpu: string, p: Progress, it: Item, args: seq<string>, us: Mode, them: Mode): Option<Progress> {
    if |args| != 1 then None
    else if args[0] == cpu then Some(p.(mode := p.mode + [us]))
    else if args[0] in OtherCpus(cpu) then Some(p.(mode := p.mode + [them]))
    else Some(Progress(p.mode + [COPY], Copied(p, it)))
  }

  // One turn of the loop; None where an assertion or an unpacking fails, or
  // the mode stack is empty
  function Step(cpu: string, p: Progress, it: Item): Option<Progress> {
    match it
    case Text(_) => Some(p.(dst := Copied(p, it)))
    case Include(_) => Some(p.(dst := Copied(p, it)))
    case Define(_, _) => Some(p.(dst := Copied(p, it)))
    case Undef(_) => Some(p.(dst := Copied(p, it)))
    case Ifdef(args) => Conditional(cpu, p, it, args, COND_TRUE, COND_FALSE)
    case Ifndef(args) => Conditional(cpu, p, it, args, COND_FALSE, COND_TRUE)
    case If(tokens) =>
      if MentionsCpu(cpu, tokens) then None else Some(Progress(p.mode + [COPY], p.dst + [it]))
    case Else =>
      if p.mode == [] then None
      else
        var top := |p.mode| - 1;
        if p.mode[top] == COND_TRUE then Some(p.(mode := p.mode[top := COND_FALSE]))
        else if p.mode[top] == COND_FALSE then Some(p.(mode := p.mode[top := COND_TRUE]))
        else Some(p.(dst := Copied(p, it)))
    case Endif =>
      if p.mode == [] then None
      else Some(Progress(p.mode[..|p.mode| - 1], if p.mode[|p.mode| - 1] == COPY then Copied(p, it) else p.dst))
    case Other(_) => None
  }

  function Run(cpu: string, src: seq<Item>): Option<Progress> {
    if src == [] then Some(Progress([COPY], []))
    else
      match Run(cpu, src[..|src| - 1])
      case None => None
      case Some(p) => Step(cpu, p, src[|src| - 1])
  }

  // The residual before the last replacement
  function Residual(cpu: string, src: seq<Item>): Option<seq<Item>> {
    match Run(cpu, src)
    case None => None
    case Some(p) => if p.mode == [COPY] then Some(p.dst) else None
  }

  // str.replace("_LP64", "PPC64")
  function Renamed(s: string): string {
    if |s| < 5 then s
    else if s[..5] == "_LP64" then "PPC64" + Renamed(s[5..])
    else [s[0]] + Renamed(s[1..])
  }

  function RenamedAll(ss: seq<string>): (r: seq<string>)
    ensures |r| == |ss| && forall k :: 0 <= k < |ss| ==> r[k] == Renamed(ss[k])
  {
    if ss == [] then [] else [Renamed(ss[0])] + RenamedAll(ss[1..])
  }

  function RenamedItem(it: Item): Item {
    match it
    case Text(text) => Text(Renamed(text))
    case Include(header) => Include(Renamed(header))
    case Define(macro, body) => Define(Renamed(macro), Renamed(body))
    case Undef(macro) => Undef(Renamed(macro))
    case Ifdef(args) => Ifdef(RenamedAll(args))
    case Ifndef(args) => Ifndef(RenamedAll(args))
    case If(tokens) => If(RenamedAll(tokens))
    case Other(command) => Other(Renamed(command))
    case _ => it
  }

  function RenamedItems(items: seq<Item>): (r: seq<Item>)
    ensures |r| == |items| && forall k :: 0 <= k < |items| ==> r[k] == RenamedItem(items[k])
  {
    if items == [] then [] else RenamedItems(items[..|items| - 1]) + [RenamedItem(items[|items| - 1])]
  }

  function Preprocessed(cpu: string, src: seq<Item>): Option<seq<Item>> {
    match Residual(cpu, src)
    case None => None
    case Some(dst) => Some(if cpu == "PPC" then RenamedItems(dst) else dst)
  }

  // The loop, with the mode stack and the output as variables
  method Preprocess(input: seq<Item>, cpu: string) returns (r: Option<seq<Item>>)
    ensures r == Preprocessed(cpu, input)
  {
    assert Run(cpu, []) == Some(Progress([COPY], []));
    hide Step, Run, RenamedItem, RenamedItems;
    var otherCpus := OtherCpus(cpu);
    var mode: seq<Mode> := [COPY];
    var dst: seq<Item> := [];
    var src := input;
    ghost var done: seq<Item> := [];
    assert done + src == input;
    while src != []
      invariant done + src == input
      invariant Run(cpu, done) == Some(Progress(mode, dst))
      decreases |src|
    {
      var thing := src[0];
      RunSnoc(cpu, done, thing);
      NoneStays(cpu, done + [thing], src[1..]);
      assert done + [thing] + src[1..] == input;
      done := done + [thing];
      src := src[1..];
      var ok;
      ok, mode, dst := Turn(cpu, otherCpus, mode, dst, thing);
      if !ok { return None; }
    }
    assert done == input;
    if mode != [COPY] { return None; }
    if cpu == "PPC" {
      dst := RenamedItems(dst);
    }
    return Some(dst);
  }

  // One turn; not ok where an assertion or an unpacking fails, or the mode
  // stack is empty
  method Turn(cpu: string, otherCpus: set<string>, mode: seq<Mode>, dst: seq<Item>, thing: Item)
    returns (ok: bool, mode': seq<Mode>, dst': seq<Item>)
    requires otherCpus == OtherCpus(cpu)
    ensures Step(cpu, Progress(mode, dst), thing) == if ok then Some(Progress(mode', dst')) else None
  {
    hide MentionsCpu, OtherCpus, Copied, Conditional;
    ok, mode', dst' := true, mode, dst;
    match thing {
      case Text(_) => dst' := Emit(mode, dst, thing);
      case Include(_) => dst' := Emit(mode, dst, thing);
      case Define(_, _) => dst' := Emit(mode, dst, thing);
      case Undef(_) => dst' := Emit(mode, dst, thing);
      case Ifdef(args) =>
        if |args| != 1 {
          OneOperand(cpu, Progress(mode, dst), thing, args);
          return false, mode, dst;
        }
        mode', dst' := Enter(cpu, otherCpus, mode, dst, thing, args[0], COND_TRUE, COND_FALSE);
        assert args == [args[0]];
      case Ifndef(args) =>
        if |args| != 1 {
          OneOperand(cpu, Progress(mode, dst), thing, args);
          return false, mode, dst;
        }
        mode', dst' := Enter(cpu, otherCpus, mode, dst, thing, args[0], COND_FALSE, COND_TRUE);
        assert args == [args[0]];
      case If(tokens) =>
        if MentionsCpu(cpu, tokens) { return false, mode, dst; }
        mode' := mode + [COPY];
        dst' := dst + [thing];
      case Else =>
        if mode == [] { return false, mode, dst; }
        if mode[|mode| - 1] == COND_TRUE {
          mode' := mode[|mode| - 1 := COND_FALSE];
        } else if mode[|mode| - 1] == COND_FALSE {
          mode' := mode[|mode| - 1 := COND_TRUE];
        } else {
          dst' := Emit(mode, dst, thing);
        }
      case Endif =>
        if mode == [] { return false, mode, dst; }
        if mode[|mode| - 1] == COPY {
          dst' := Emit(mode, dst, thing);
        }
        mode' := mode[..|mode| - 1];
      case Other(_) => return false, mode, dst;
    }
  }

  lemma OneOperand(cpu: string, p: Progress, it: Item, args: seq<string>)
    requires |args| != 1
    ensures forall us, them :: Conditional(cpu, p, it, args, us, them) == None
  {
  }

  // if COND_FALSE not in mode: dst += thing
  method Emit(mode: seq<Mode>, dst: seq<Item>, thing: Item) returns (dst': seq<Item>)
    ensures dst' == Copied(Progress(mode, dst), thing)
  {
    dst' := dst;
    if COND_FALSE !in mode {
      dst' := dst' + [thing];
    }
  }

  // #ifdef and #ifndef
  method Enter(cpu: string, otherCpus: set<string>, mode: seq<Mode>, dst: seq<Item>, thing: Item, what: string, us: Mode, them: Mode)
    returns (mode': seq<Mode>, dst': seq<Item>)
    requires otherCpus == OtherCpus(cpu)
    ensures Conditional(cpu, Progress(mode, dst), thing, [what], us, them) == Some(Progress(mode', dst'))
  {
    dst' := dst;
    if what == cpu {
      mode' := mode + [us];
    } else if what in otherCpus {
      mode' := mode + [them];
    } else {
      mode' := mode + [COPY];
      dst' := Emit(mode, dst, thing);
    }
  }

  // A failure is final.
  lemma {:induction false} NoneStays(cpu: string, src: seq<Item>, rest: seq<Item>)
    ensures Run(cpu, src) == None ==> Run(cpu, src + rest) == None
    decreases |rest|
  {
    if rest == [] {
      assert src + rest == src;
    } else {
      var n := |rest| - 1;
      assert (src + rest)[..|src + rest| - 1] == src + rest[..n];
      NoneStays(cpu, src, rest[..n]);
    }
  }

  // ---- what the C preprocessor makes of a text -----------------------

  type Macros = map<string, string>

  // What this model does not decide: the value of an opaque condition, and
  // which macros a header leaves.
  datatype Outside = Outside(holds: (seq<string>, Macros) -> bool, after: (string, Macros) -> Macros)

  datatype Compiler = Compiler(macros: Macros, on: seq<bool>, lines: seq<Item>)

  predicate Selecting(on: seq<bool>) { forall k :: 0 <= k < |on| ==> on[k] }

  function Name(args: seq<string>): string { if args == [] then "" else args[0] }

  // A line is selected when all the groups around it are; only then does it
  // act.
  function Read(o: Outside, c: Compiler, it: Item): Compiler {
    match it
    case Ifdef(args) => c.(on := c.on + [Name(args) in c.macros])
    case Ifndef(args) => c.(on := c.on + [Name(args) !in c.macros])
    case If(tokens) => c.(on := c.on + [o.holds(tokens, c.macros)])
    case Else => if c.on == [] then c else c.(on := c.on[|c.on| - 1 := !c.on[|c.on| - 1]])
    case Endif => if c.on == [] then c else c.(on := c.on[..|c.on| - 1])
    case _ => if Selecting(c.on) then Line(o, c, it) else c
  }

  function Line(o: Outside, c: Compiler, it: Item): Compiler {
    var macros :=
      match it
      case Include(header) => o.after(header, c.macros)
      case Define(macro, body) => c.macros[macro := body]
      case Undef(macro) => c.macros - {macro}
      case _ => c.macros;
    Compiler(macros, c.on, c.lines + [it])
  }

  function Compile(o: Outside, src: seq<Item>, macros: Macros): Compiler {
    if src == [] then Compiler(macros, [], [])
    else Read(o, Compile(o, src[..|src| - 1], macros), src[|src| - 1])
  }

  // ---- balance -------------------------------------------------------

  predicate Opens(it: Item) { it.Ifdef? || it.Ifndef? || it.If? }

  // The open groups, each with whether its #else has been seen; None when a
  // directive has no group to belong to.
  function Group(flags: seq<bool>, it: Item): Option<seq<bool>> {
    if Opens(it) then Some(flags + [false])
    else if it.Else? then
      if flags == [] || flags[|flags| - 1] then None else Some(flags[|flags| - 1 := true])
    else if it.Endif? then
      if flags == [] then None else Some(flags[..|flags| - 1])
    else Some(flags)
  }

  function Groups(src: seq<Item>): Option<seq<bool>> {
    if src == [] then Some([])
    else
      match Groups(src[..|src| - 1])
      case None => None
      case Some(flags) => Group(flags, src[|src| - 1])
  }

  predicate Balanced(src: seq<Item>) { Groups(src) == Some([]) }

  // Every directive is one the templater knows, with the operands it expects.
  predicate Understood(cpu: string, it: Item) {
    match it
    case Ifdef(args) => |args| == 1
    case Ifndef(args) => |args| == 1
    case If(tokens) => !MentionsCpu(cpu, tokens)
    case Other(_) => false
    case _ => true
  }

  // ---- regions -------------------------------------------------------

  // What is known of the groups around the end of a text: taken, not taken, or
  // left to the C preprocessor.
  function Known(cpu: string, src: seq<Item>): seq<Mode> {
    if src == [] then [] else KnownAfter(cpu, Known(cpu, src[..|src| - 1]), src[|src| - 1])
  }

  function KnownAfter(cpu: string, ms: seq<Mode>, it: Item): seq<Mode> {
    match it
    case Ifdef(args) => ms + [Test(cpu, Name(args), COND_TRUE, COND_FALSE)]
    case Ifndef(args) => ms + [Test(cpu, Name(args), COND_FALSE, COND_TRUE)]
    case If(_) => ms + [COPY]
    case Else => if ms == [] then ms else ms[|ms| - 1 := Opposite(ms[|ms| - 1])]
    case Endif => if ms == [] then ms else ms[..|ms| - 1]
    case _ => ms
  }

  function Test(cpu: string, name: string, us: Mode, them: Mode): Mode {
    if name == cpu then us else if name in OtherCpus(cpu) then them else COPY
  }

  function Opposite(m: Mode): Mode {
    match m case COND_TRUE => COND_FALSE case COND_FALSE => COND_TRUE case COPY => COPY
  }

  // The number of opaque conditions in discarded regions
  function DiscardedIfs(cpu: string, src: seq<Item>): nat {
    if src == [] then 0
    else
      var front := src[..|src| - 1];
      DiscardedIfs(cpu, front) + if src[|src| - 1].If? && COND_FALSE in Known(cpu, front) then 1 else 0
  }

  // What belongs to the groups that are left in the residual
  function Kept<T>(ms: seq<Mode>, xs: seq<T>): seq<T>
    requires |ms| == |xs|
  {
    if ms == [] then []
    else
      var n := |ms| - 1;
      Kept(ms[..n], xs[..n]) + if ms[n] == COPY && COND_FALSE !in ms[..n] then [xs[n]] else []
  }

  lemma KeptSnoc<T>(ms: seq<Mode>, xs: seq<T>, m: Mode, x: T)
    requires |ms| == |xs|
    ensures Kept(ms + [m], xs + [x]) == Kept(ms, xs) + if m == COPY && COND_FALSE !in ms then [x] else []
  {
    assert (ms + [m])[..|ms|] == ms && (xs + [x])[..|xs|] == xs;
  }

  lemma KeptTop<T>(ms: seq<Mode>, xs: seq<T>, m: Mode, x: T)
    requires |ms| == |xs| > 0
    ensures var n := |ms| - 1;
      Kept(ms[n := m], xs[n := x]) == Kept(ms[..n], xs[..n]) + if m == COPY && COND_FALSE !in ms[..n] then [x] else []
  {
    var n := |ms| - 1;
    assert ms[n := m] == ms[..n] + [m] && xs[n := x] == xs[..n] + [x];
    KeptSnoc(ms[..n], xs[..n], m, x);
  }

  // ---- the run of the templater --------------------------------------

  ghost predicate AllUnderstood(cpu: string, src: seq<Item>) { forall it :: it in src ==> Understood(cpu, it) }

  lemma StepKnows(cpu: string, p: Progress, it: Item, ms: seq<Mode>, flags: seq<bool>)
    requires Group(flags, it).Some? && |ms| == |flags| && p.mode == [COPY] + ms
    ensures Understood(cpu, it) ==> Step(cpu, p, it).Some? && Step(cpu, p, it).value.mode == [COPY] + KnownAfter(cpu, ms, it)
    ensures !Understood(cpu, it) ==> Step(cpu, p, it) == None
    ensures |KnownAfter(cpu, ms, it)| == |Group(flags, it).value|
  {
    hide MentionsCpu;
    if it.Endif? {
      assert p.mode[..|p.mode| - 1] == [COPY] + ms[..|ms| - 1];
    } else if it.Else? {
      assert p.mode[|p.mode| - 1] == ms[|ms| - 1];
    }
  }

  // On a text whose groups are in order the evaluator fails only at a
  // directive it does not understand, and its mode stack is what is known of
  // the open groups, above a bottom element.
  lemma {:induction false} RunKnows(cpu: string, src: seq<Item>)
    requires Groups(src).Some?
    ensures Run(cpu, src).Some? <==> AllUnderstood(cpu, src)
    ensures Run(cpu, src).Some? ==> Run(cpu, src).value.mode == [COPY] + Known(cpu, src)
    ensures |Known(cpu, src)| == |Groups(src).value|
  {
    hide Understood, Step, Group, KnownAfter;
    if src != [] {
      var front, it := src[..|src| - 1], src[|src| - 1];
      RunKnows(cpu, front);
      assert src == front + [it];
      if Run(cpu, front).Some? {
        StepKnows(cpu, Run(cpu, front).value, it, Known(cpu, front), Groups(front).value);
      } else {
        assert exists bad :: bad in front && !Understood(cpu, bad);
        StepKnows(cpu, Progress([COPY] + Known(cpu, front), []), it, Known(cpu, front), Groups(front).value);
      }
    }
  }

  // A balanced text is preprocessed exactly when every directive in it is
  // understood.
  lemma SucceedsIff(cpu: string, src: seq<Item>)
    requires Balanced(src)
    ensures Preprocessed(cpu, src).Some? <==> AllUnderstood(cpu, src)
  {
    RunKnows(cpu, src);
  }

  lemma RunSnoc(cpu: string, src: seq<Item>, it: Item)
    ensures Run(cpu, src + [it]) == match Run(cpu, src) case None => None case Some(p) => Step(cpu, p, it)
  {
    assert (src + [it])[..|src|] == src;
  }

  lemma GroupsFail(src: seq<Item>, it: Item)
    requires Groups(src) == None || Group(Groups(src).value, it) == None
    ensures Groups(src + [it]) == None
  {
    assert (src + [it])[..|src|] == src;
  }

  // ---- balance of the residual ---------------------------------------

  // Open groups, counted without regard to order
  function Depth(src: seq<Item>): int {
    if src == [] then 0
    else
      var it := src[|src| - 1];
      Depth(src[..|src| - 1]) + if Opens(it) then 1 else if it.Endif? then -1 else 0
  }

  lemma DepthSnoc(src: seq<Item>, it: Item)
    ensures Depth(src + [it]) == Depth(src) + if Opens(it) then 1 else if it.Endif? then -1 else 0
  {
    assert (src + [it])[..|src|] == src;
  }

  lemma {:induction false} GroupsDepth(src: seq<Item>)
    requires Groups(src).Some?
    ensures Depth(src) == |Groups(src).value|
  {
    if src != [] {
      GroupsDepth(src[..|src| - 1]);
    }
  }

  lemma GroupsSnoc(src: seq<Item>, it: Item)
    requires Groups(src).Some?
    ensures Groups(src + [it]) == Group(Groups(src).value, it)
  {
    assert (src + [it])[..|src|] == src;
  }

  // ---- which texts are accepted --------------------------------------

  // A directive that tests a CPU name
  predicate OnCpu(cpu: string, it: Item) { (it.Ifdef? && CpuName(cpu, Name(it.args))) || (it.Ifndef? && CpuName(cpu, Name(it.nargs))) }

  // Every #else and #endif finds an element on the mode stack, if only the
  // bottom one.
  ghost predicate Supplied(src: seq<Item>) {
    forall k :: 0 <= k < |src| && (src[k].Else? || src[k].Endif?) ==> Depth(src[..k]) >= 0
  }

  // The last group opened when the bottom element had been popped
  function AtBottom(src: seq<Item>): Option<Item> {
    if src == [] then None
    else
      var front, it := src[..|src| - 1], src[|src| - 1];
      if Opens(it) && Depth(front) == -1 then Some(it) else AtBottom(front)
  }

  predicate BottomIsCopy(cpu: string, src: seq<Item>) { AtBottom(src).None? || !OnCpu(cpu, AtBottom(src).value) }

  lemma {:induction false} SuppliedSnoc(src: seq<Item>, it: Item)
    ensures Supplied(src + [it]) <==> Supplied(src) && (it.Else? || it.Endif? ==> Depth(src) >= 0)
  {
    var all := src + [it];
    assert all[..|src|] == src && all[|src|] == it;
    assert forall k :: 0 <= k < |src| ==> all[k] == src[k] && all[..k] == src[..k];
  }

  // What is known of the mode stack after any text that has not failed
  ghost predicate StackIs(cpu: string, src: seq<Item>, mode: seq<Mode>) {
    && |mode| == Depth(src) + 1
    && (mode != [] ==> (mode[0] == COPY <==> BottomIsCopy(cpu, src)))
  }

  lemma {:induction false} RunSucceedsIff(cpu: string, src: seq<Item>)
    ensures Run(cpu, src).Some? <==> AllUnderstood(cpu, src) && Supplied(src)
    ensures Run(cpu, src).Some? ==> StackIs(cpu, src, Run(cpu, src).value.mode)
  {
    if src != [] {
      var front, it := src[..|src| - 1], src[|src| - 1];
      assert src == front + [it];
      RunSucceedsIff(cpu, front);
      SuppliedSnoc(front, it);
      assert AllUnderstood(cpu, src) <==> AllUnderstood(cpu, front) && Understood(cpu, it);
      hide AllUnderstood, Supplied;
      if Run(cpu, front).Some? {
        StepStack(cpu, front, Run(cpu, front).value, it);
      }
    }
  }

  lemma StepStack(cpu: string, src: seq<Item>, p: Progress, it: Item)
    requires StackIs(cpu, src, p.mode)
    ensures Step(cpu, p, it).Some? <==> Understood(cpu, it) && (it.Else? || it.Endif? ==> Depth(src) >= 0)
    ensures Step(cpu, p, it).Some? ==> StackIs(cpu, src + [it], Step(cpu, p, it).value.mode)
  {
    hide MentionsCpu, Depth, AtBottom;
    DepthSnoc(src, it);
    AtBottomSnoc(src, it);
  }

  lemma AtBottomSnoc(src: seq<Item>, it: Item)
    ensures AtBottom(src + [it]) == if Opens(it) && Depth(src) == -1 then Some(it) else AtBottom(src)
  {
    assert (src + [it])[..|src|] == src;
  }

  // A text is accepted exactly when every directive in it is understood, no
  // #else or #endif finds the mode stack empty, as many groups are closed as
  // opened, and the group that took the place of the bottom element, if any,
  // is not on a CPU name.
  lemma AcceptsIff(cpu: string, src: seq<Item>)
    ensures Preprocessed(cpu, src).Some?
       <==> AllUnderstood(cpu, src) && Supplied(src) && Depth(src) == 0 && BottomIsCopy(cpu, src)
  {
    hide AllUnderstood, Supplied, Depth, BottomIsCopy;
    RunSucceedsIff(cpu, src);
    if Run(cpu, src).Some? {
      var mode := Run(cpu, src).value.mode;
      assert |mode| == 1 ==> mode == [mode[0]];
    }
  }

  // ---- which of them are balanced ------------------------------------

  // Each #endif closes a group.
  ghost predicate NeverPopsBottom(src: seq<Item>) { forall k :: 0 <= k <= |src| ==> Depth(src[..k]) >= 0 }

  // An #else stands in the innermost open group of depth d, which is still
  // open.
  ghost predicate ElseSeen(src: seq<Item>, d: int) {
    exists j :: 0 <= j < |src| && ElseAt(src, j, d)
  }

  ghost predicate ElseAt(src: seq<Item>, j: int, d: int)
    requires 0 <= j < |src|
  {
    src[j].Else? && Depth(src[..j]) == d && forall i :: j <= i <= |src| ==> Depth(src[..i]) >= d
  }

  // Each #else stands in a group, and is the first of its group.
  ghost predicate ElsesInPlace(src: seq<Item>) {
    forall k :: 0 <= k < |src| && src[k].Else? ==> Depth(src[..k]) > 0 && !ElseSeen(src[..k], Depth(src[..k]))
  }

  lemma ElseSeenSnoc(src: seq<Item>, it: Item, d: int)
    ensures var all := src + [it];
      ElseSeen(all, d) <==> Depth(all) >= d && (ElseSeen(src, d) || (it.Else? && Depth(src) == d))
  {
    hide Depth;
    var all, n := src + [it], |src|;
    assert all[..n] == src && all[..n + 1] == all && all[n] == it && src[..n] == src;
    assert forall k :: 0 <= k <= n ==> all[..k] == src[..k];
    if ElseSeen(src, d) && Depth(all) >= d {
      var j :| 0 <= j < n && ElseAt(src, j, d);
      assert ElseAt(all, j, d);
    }
    if it.Else? && Depth(src) == d && Depth(all) >= d {
      assert ElseAt(all, n, d);
    }
    if ElseSeen(all, d) {
      var j :| 0 <= j < |all| && ElseAt(all, j, d);
      assert j < n ==> ElseAt(src, j, d);
    }
  }

  lemma InPlaceSnoc(src: seq<Item>, it: Item)
    ensures var all := src + [it];
      && (NeverPopsBottom(all) <==> NeverPopsBottom(src) && Depth(all) >= 0)
      && (ElsesInPlace(all) <==> ElsesInPlace(src) && (it.Else? ==> Depth(src) > 0 && !ElseSeen(src, Depth(src))))
  {
    hide Depth, ElseSeen;
    var all, n := src + [it], |src|;
    assert all[..n] == src && all[..n + 1] == all && all[n] == it;
    assert forall k :: 0 <= k <= n ==> all[..k] == src[..k];
    if NeverPopsBottom(all) {
      forall k | 0 <= k <= n ensures Depth(src[..k]) >= 0 {
        assert all[..k] == src[..k];
      }
    }
    if ElsesInPlace(all) {
      forall k | 0 <= k < n && src[k].Else? ensures Depth(src[..k]) > 0 && !ElseSeen(src[..k], Depth(src[..k])) {
        assert all[k] == src[k] && all[..k] == src[..k];
      }
    }
  }

  // The flags of the open groups say which have had their #else.
  ghost predicate FlagsAre(src: seq<Item>, flags: seq<bool>) {
    |flags| == Depth(src) && forall d :: 0 < d <= |flags| ==> (flags[d - 1] <==> ElseSeen(src, d))
  }

  lemma {:induction false} GroupsIff(src: seq<Item>)
    ensures Groups(src).Some? <==> NeverPopsBottom(src) && ElsesInPlace(src)
    ensures Groups(src).Some? ==> FlagsAre(src, Groups(src).value)
  {
    if src == [] {
      assert src[..0] == [];
    } else {
      var front, it := src[..|src| - 1], src[|src| - 1];
      assert src == front + [it];
      GroupsIff(front);
      InPlaceSnoc(front, it);
      hide NeverPopsBottom, ElsesInPlace;
      if Groups(front).Some? {
        FlagsFollow(front, it, Groups(front).value);
      }
    }
  }

  lemma FlagsFollow(src: seq<Item>, it: Item, flags: seq<bool>)
    requires FlagsAre(src, flags)
    ensures Group(flags, it).Some? <==> Depth(src + [it]) >= 0 && (it.Else? ==> Depth(src) > 0 && !ElseSeen(src, Depth(src)))
    ensures Group(flags, it).Some? ==> FlagsAre(src + [it], Group(flags, it).value)
  {
    hide Depth, ElseSeen;
    DepthSnoc(src, it);
    if Group(flags, it).Some? {
      var flags' := Group(flags, it).value;
      assert |flags'| == Depth(src + [it]);
      forall d | 0 < d <= |flags'| ensures flags'[d - 1] <==> ElseSeen(src + [it], d) {
        ElseSeenSnoc(src, it, d);
        if d > |flags| {
          NoneDeeper(src, d);
        }
      }
    }
  }

  lemma NoneDeeper(src: seq<Item>, d: int)
    requires Depth(src) < d
    ensures !ElseSeen(src, d)
  {
    hide Depth;
    assert src[..|src|] == src;
  }

  lemma BalancedIff(src: seq<Item>)
    ensures Balanced(src) <==> Depth(src) == 0 && NeverPopsBottom(src) && ElsesInPlace(src)
  {
    GroupsIff(src);
  }

  // An accepted text is balanced exactly when no #endif pops the bottom element
  // and no #else stands outside the groups or second in one.
  lemma AcceptedBalancedIff(cpu: string, src: seq<Item>)
    requires Preprocessed(cpu, src).Some?
    ensures Balanced(src) <==> NeverPopsBottom(src) && ElsesInPlace(src)
  {
    AcceptsIff(cpu, src);
    BalancedIff(src);
  }

  // Texts that are accepted and not balanced, one for each way
  lemma AcceptsUnbalanced()
    ensures var popped, outside, second := [Endif, Ifdef(["X"])], [Else], [Ifdef(["X"]), Else, Else, Endif];
      && Preprocessed("IA64", popped) == Some(popped) && !Balanced(popped)
      && Preprocessed("IA64", outside) == Some(outside) && !Balanced(outside)
      && Preprocessed("IA64", second) == Some(second) && !Balanced(second)
  {
    hide Preprocessed, Balanced;
    AcceptsPopped();
    AcceptsOutside();
    AcceptsSecond();
  }

  lemma AcceptsPopped()
    ensures var src := [Endif, Ifdef(["X"])];
      Preprocessed("IA64", src) == Some(src) && !Balanced(src)
  {
    var x := Ifdef(["X"]);
    assert [] + [Endif] == [Endif] && [Endif] + [x] == [Endif, x];
    assert Run("IA64", []) == Some(Progress([COPY], []));
    hide *;
    PoppedSteps(x);
    PoppedFails(x);
    RunSnoc("IA64", [], Endif);
    RunSnoc("IA64", [Endif], x);
    AcceptedAs("IA64", [Endif] + [x], [Endif] + [x]);
  }

  lemma PoppedSteps(x: Item)
    requires x == Ifdef(["X"])
    ensures Step("IA64", Progress([COPY], []), Endif) == Some(Progress([], [Endif]))
    ensures Step("IA64", Progress([], [Endif]), x) == Some(Progress([COPY], [Endif, x]))
  {
    assert [COPY][..0] == [] && [] + [COPY] == [COPY] && [] + [Endif] == [Endif] && [Endif] + [x] == [Endif, x];
  }

  lemma PoppedFails(x: Item)
    ensures !Balanced([Endif, x])
  {
    assert [] + [Endif] == [Endif] && [Endif] + [x] == [Endif, x];
    GroupsFail([], Endif);
    GroupsFail([Endif], x);
  }

  lemma AcceptsOutside()
    ensures Preprocessed("IA64", [Else]) == Some([Else]) && !Balanced([Else])
  {
    assert [] + [Else] == [Else];
    RunSnoc("IA64", [], Else);
    GroupsFail([], Else);
  }

  lemma AcceptsSecond()
    ensures var src := [Ifdef(["X"]), Else, Else, Endif];
      Preprocessed("IA64", src) == Some(src) && !Balanced(src)
  {
    var x := Ifdef(["X"]);
    var s2, s3 := [x, Else], [x, Else, Else];
    assert [] + [x] == [x] && [x] + [Else] == s2 && s2 + [Else] == s3 && s3 + [Endif] == [x, Else, Else, Endif];
    assert Run("IA64", []) == Some(Progress([COPY], []));
    hide *;
    SecondSteps(x);
    SecondElseFails(x);
    RunSnoc("IA64", [], x);
    RunSnoc("IA64", [x], Else);
    RunSnoc("IA64", s2, Else);
    RunSnoc("IA64", s3, Endif);
    AcceptedAs("IA64", s3 + [Endif], s3 + [Endif]);
  }

  lemma AcceptedAs(cpu: string, src: seq<Item>, dst: seq<Item>)
    requires cpu != "PPC" && Run(cpu, src) == Some(Progress([COPY], dst))
    ensures Preprocessed(cpu, src) == Some(dst)
  {
  }

  lemma SecondSteps(x: Item)
    requires x == Ifdef(["X"])
    ensures var mode := [COPY, COPY];
      && Step("IA64", Progress([COPY], []), x) == Some(Progress(mode, [x]))
      && Step("IA64", Progress(mode, [x]), Else) == Some(Progress(mode, [x, Else]))
      && Step("IA64", Progress(mode, [x, Else]), Else) == Some(Progress(mode, [x, Else, Else]))
      && Step("IA64", Progress(mode, [x, Else, Else]), Endif) == Some(Progress([COPY], [x, Else, Else, Endif]))
  {
    var mode := [COPY, COPY];
    assert [COPY] + [COPY] == mode && mode[..1] == [COPY] && [] + [x] == [x];
    assert [x] + [Else] == [x, Else] && [x, Else] + [Else] == [x, Else, Else];
    assert [x, Else, Else] + [Endif] == [x, Else, Else, Endif];
  }

  lemma SecondElseFails(x: Item)
    requires Opens(x)
    ensures !Balanced([x, Else, Else, Endif])
  {
    var s2, s3 := [x, Else], [x, Else, Else];
    assert [] + [x] == [x] && [x] + [Else] == s2 && s2 + [Else] == s3 && s3 + [Endif] == [x, Else, Else, Endif];
    GroupsSnoc([], x);
    GroupsSnoc([x], Else);
    GroupsFail(s2, Else);
    GroupsFail(s3, Endif);
  }

  // Each opaque condition in a discarded region leaves one more group open.
  lemma {:induction false} DepthOfResidual(cpu: string, src: seq<Item>)
    requires Groups(src).Some? && AllUnderstood(cpu, src)
    ensures Run(cpu, src).Some?
    ensures Depth(Run(cpu, src).value.dst) == |Kept(Known(cpu, src), Known(cpu, src))| + DiscardedIfs(cpu, src)
  {
    RunKnows(cpu, src);
    if src != [] {
      var front, it := src[..|src| - 1], src[|src| - 1];
      assert src == front + [it] && it in src && Understood(cpu, it);
      RunKnows(cpu, front);
      DepthOfResidual(cpu, front);
      hide AllUnderstood, MentionsCpu;
      var p, ms := Run(cpu, front).value, Known(cpu, front);
      DepthStep(cpu, p, it, ms, Groups(front).value);
    }
  }

  lemma DepthStep(cpu: string, p: Progress, it: Item, ms: seq<Mode>, flags: seq<bool>)
    requires Group(flags, it).Some? && |ms| == |flags| && p.mode == [COPY] + ms && Understood(cpu, it)
    ensures Step(cpu, p, it).Some?
    ensures var ms' := KnownAfter(cpu, ms, it);
      Depth(Step(cpu, p, it).value.dst) - |Kept(ms', ms')| ==
      Depth(p.dst) - |Kept(ms, ms)| + if it.If? && COND_FALSE in ms then 1 else 0
  {
    hide MentionsCpu, Depth, Kept;
    StepKnows(cpu, p, it, ms, flags);
    DepthSnoc(p.dst, it);
    var ms' := KnownAfter(cpu, ms, it);
    if Opens(it) {
      var m := ms'[|ms|];
      KeptSnoc(ms, ms, m, m);
    } else if it.Else? || it.Endif? {
      var n := |ms| - 1;
      assert ms[n := ms[n]] == ms && p.mode[..|p.mode| - 1] == [COPY] + ms[..n];
      KeptTop(ms, ms, ms[n], ms[n]);
      KeptTop(ms, ms, Opposite(ms[n]), Opposite(ms[n]));
      assert COND_FALSE in p.mode <==> ms[n] == COND_FALSE || COND_FALSE in ms[..n];
    }
  }

  // What the evaluator does with a directive, by what is known of the groups
  predicate EmitsIn(cpu: string, ms: seq<Mode>, it: Item) {
    if Opens(it) then it.If? || (KnownAfter(cpu, ms, it)[|ms|] == COPY && COND_FALSE !in ms)
    else if it.Else? || it.Endif? then ms != [] && ms[|ms| - 1] == COPY && COND_FALSE !in ms
    else COND_FALSE !in ms
  }

  lemma StepEmits(cpu: string, p: Progress, it: Item, ms: seq<Mode>)
    requires p.mode == [COPY] + ms && Understood(cpu, it) && (it.Else? || it.Endif? ==> ms != [])
    ensures Step(cpu, p, it).Some?
    ensures Step(cpu, p, it).value.dst == if EmitsIn(cpu, ms, it) then p.dst + [it] else p.dst
  {
    hide MentionsCpu;
    assert COND_FALSE in p.mode <==> COND_FALSE in ms;
    assert ms != [] ==> p.mode[|p.mode| - 1] == ms[|ms| - 1];
  }

  // The groups of the residual
  lemma {:induction false} GroupsOfResidual(cpu: string, src: seq<Item>)
    requires Groups(src).Some? && AllUnderstood(cpu, src) && DiscardedIfs(cpu, src) == 0
    ensures Run(cpu, src).Some? && |Known(cpu, src)| == |Groups(src).value|
    ensures Groups(Run(cpu, src).value.dst) == Some(Kept(Known(cpu, src), Groups(src).value))
  {
    RunKnows(cpu, src);
    if src != [] {
      var front, it := src[..|src| - 1], src[|src| - 1];
      assert src == front + [it] && it in src && Understood(cpu, it);
      RunKnows(cpu, front);
      GroupsOfResidual(cpu, front);
      GroupsStep(cpu, Run(cpu, front).value, it, Known(cpu, front), Groups(front).value);
    }
  }

  lemma GroupsStep(cpu: string, p: Progress, it: Item, ms: seq<Mode>, flags: seq<bool>)
    requires Group(flags, it).Some? && |ms| == |flags| && p.mode == [COPY] + ms && Understood(cpu, it)
    requires Groups(p.dst) == Some(Kept(ms, flags)) && !(it.If? && COND_FALSE in ms)
    ensures Step(cpu, p, it).Some? && |KnownAfter(cpu, ms, it)| == |Group(flags, it).value|
    ensures Groups(Step(cpu, p, it).value.dst) == Some(Kept(KnownAfter(cpu, ms, it), Group(flags, it).value))
  {
    StepKnows(cpu, p, it, ms, flags);
    GroupNeeds(flags, it);
    StepEmits(cpu, p, it, ms);
    GroupsSnoc(p.dst, it);
    GroupKept(cpu, ms, flags, it);
    hide *;
  }

  lemma GroupNeeds(flags: seq<bool>, it: Item)
    requires Group(flags, it).Some?
    ensures it.Else? || it.Endif? ==> flags != []
  {
  }

  lemma GroupKept(cpu: string, ms: seq<Mode>, flags: seq<bool>, it: Item)
    requires Group(flags, it).Some? && |ms| == |flags| && !(it.If? && COND_FALSE in ms)
    ensures |KnownAfter(cpu, ms, it)| == |Group(flags, it).value|
    ensures Some(Kept(KnownAfter(cpu, ms, it), Group(flags, it).value)) ==
      if EmitsIn(cpu, ms, it) then Group(Kept(ms, flags), it) else Some(Kept(ms, flags))
  {
    hide Kept;
    if Opens(it) {
      KeptSnoc(ms, flags, KnownAfter(cpu, ms, it)[|ms|], false);
      assert Kept(ms, flags) + [] == Kept(ms, flags);
    } else if it.Else? || it.Endif? {
      var n := |ms| - 1;
      var rest := Kept(ms[..n], flags[..n]);
      assert ms[n := ms[n]] == ms && flags[n := flags[n]] == flags;
      KeptTop(ms, flags, ms[n], flags[n]);
      KeptTop(ms, flags, Opposite(ms[n]), true);
      assert (rest + [flags[n]])[..|rest|] == rest && (rest + [flags[n]])[|rest| := true] == rest + [true] && rest + [] == rest;
      assert COND_FALSE in ms <==> ms[n] == COND_FALSE || COND_FALSE in ms[..n];
    }
  }

  // The residual of a balanced text is balanced exactly when no opaque
  // condition lies in a discarded region.
  lemma ResidualBalancedIff(cpu: string, src: seq<Item>)
    requires Balanced(src) && Residual(cpu, src).Some?
    ensures Balanced(Residual(cpu, src).value) <==> DiscardedIfs(cpu, src) == 0
  {
    RunKnows(cpu, src);
    var dst := Residual(cpu, src).value;
    DepthOfResidual(cpu, src);
    if DiscardedIfs(cpu, src) == 0 {
      GroupsOfResidual(cpu, src);
    } else if Groups(dst).Some? {
      GroupsDepth(dst);
    }
  }

  // A discarded #if keeps its place in the residual, and loses its #endif.
  lemma DiscardedIfUnbalances(cpu: string, other: string, tokens: seq<string>)
    requires other in OtherCpus(cpu) && !MentionsCpu(cpu, tokens)
    ensures var src := [Ifdef([other]), If(tokens), Endif, Endif];
      Balanced(src) && Residual(cpu, src) == Some([If(tokens)]) && !Balanced([If(tokens)])
  {
    var outer, inner := Ifdef([other]), If(tokens);
    NestedBalance(outer, inner);
    DiscardedSteps(cpu, other, tokens);
    var s2, s3 := [outer, inner], [outer, inner, Endif];
    assert [] + [outer] == [outer] && [outer] + [inner] == s2 && s2 + [Endif] == s3 && s3 + [Endif] == [outer, inner, Endif, Endif];
    assert Run(cpu, []) == Some(Progress([COPY], []));
    hide *;
    RunSnoc(cpu, [], outer);
    RunSnoc(cpu, [outer], inner);
    RunSnoc(cpu, s2, Endif);
    RunSnoc(cpu, s3, Endif);
    ResidualOf(cpu, s3 + [Endif], [inner]);
  }

  lemma ResidualOf(cpu: string, src: seq<Item>, dst: seq<Item>)
    requires Run(cpu, src) == Some(Progress([COPY], dst))
    ensures Residual(cpu, src) == Some(dst)
  {
  }

  lemma DiscardedSteps(cpu: string, other: string, tokens: seq<string>)
    requires other in OtherCpus(cpu) && !MentionsCpu(cpu, tokens)
    ensures var outer, inner := Ifdef([other]), If(tokens);
      && Step(cpu, Progress([COPY], []), outer) == Some(Progress([COPY, COND_FALSE], []))
      && Step(cpu, Progress([COPY, COND_FALSE], []), inner) == Some(Progress([COPY, COND_FALSE, COPY], [inner]))
      && Step(cpu, Progress([COPY, COND_FALSE, COPY], [inner]), Endif) == Some(Progress([COPY, COND_FALSE], [inner]))
      && Step(cpu, Progress([COPY, COND_FALSE], [inner]), Endif) == Some(Progress([COPY], [inner]))
  {
    hide MentionsCpu;
    var ms := [COPY, COND_FALSE, COPY];
    assert [COPY] + [COND_FALSE] == [COPY, COND_FALSE] && [COPY, COND_FALSE] + [COPY] == ms;
    assert ms[1] in ms && ms[..2] == [COPY, COND_FALSE] && [COPY, COND_FALSE][..1] == [COPY];
    assert [] + [If(tokens)] == [If(tokens)];
  }

  lemma NestedBalance(outer: Item, inner: Item)
    requires Opens(outer) && Opens(inner)
    ensures Balanced([outer, inner, Endif, Endif]) && !Balanced([inner])
  {
    var s2, s3 := [outer, inner], [outer, inner, Endif];
    assert [] + [outer] == [outer] && [outer] + [inner] == s2 && s2 + [Endif] == s3 && s3 + [Endif] == [outer, inner, Endif, Endif];
    assert [] + [inner] == [inner];
    GroupsSnoc([], outer);
    GroupsSnoc([outer], inner);
    GroupsSnoc(s2, Endif);
    GroupsSnoc(s3, Endif);
    GroupsSnoc([], inner);
  }

  // ---- meaning -------------------------------------------------------

  // This CPU's name is defined and the others are not.
  predicate CpuMacros(cpu: string, macros: Macros) {
    cpu in macros && forall other :: other in OtherCpus(cpu) ==> other !in macros
  }

  // No header of the text and no line of it redefines a CPU name.
  ghost predicate HeaderKeepsCpu(o: Outside, cpu: string, it: Item) {
    it.Include? ==> forall macros :: CpuMacros(cpu, macros) ==> CpuMacros(cpu, o.after(it.header, macros))
  }

  ghost predicate HeadersKeepCpu(o: Outside, cpu: string, src: seq<Item>) { forall it :: it in src ==> HeaderKeepsCpu(o, cpu, it) }

  predicate LineKeepsCpu(cpu: string, it: Item) {
    match it
    case Define(macro, _) => !CpuName(cpu, macro)
    case Undef(macro) => !CpuName(cpu, macro)
    case _ => true
  }

  ghost predicate LinesKeepCpu(cpu: string, src: seq<Item>) { forall it :: it in src ==> LineKeepsCpu(cpu, it) }

  // What is known of a group is so.
  ghost predicate True(ms: seq<Mode>, on: seq<bool>) {
    && |on| == |ms|
    && forall k :: 0 <= k < |ms| ==> (ms[k] == COND_TRUE ==> on[k]) && (ms[k] == COND_FALSE ==> !on[k])
  }

  // The compiler reading the residual is where it would be in the original,
  // but for the groups that have been resolved.
  ghost predicate Simulates(cpu: string, ms: seq<Mode>, c: Compiler, r: Compiler) {
    && True(ms, c.on) && r.on == Kept(ms, c.on)
    && r.macros == c.macros && r.lines == c.lines && CpuMacros(cpu, c.macros)
  }

  lemma {:induction false} KeptSelects(ms: seq<Mode>, on: seq<bool>)
    requires True(ms, on)
    ensures Selecting(on) <==> COND_FALSE !in ms && Selecting(Kept(ms, on))
  {
    if ms != [] {
      var n := |ms| - 1;
      KeptSelects(ms[..n], on[..n]);
      assert ms == ms[..n] + [ms[n]] && on == on[..n] + [on[n]];
      SelectingSnoc(on[..n], on[n]);
      var rest := Kept(ms[..n], on[..n]);
      SelectingSnoc(rest, on[n]);
      assert rest + [] == rest;
    }
  }

  lemma SelectingSnoc(on: seq<bool>, x: bool)
    ensures Selecting(on + [x]) <==> Selecting(on) && x
  {
    if Selecting(on + [x]) {
      assert forall k :: 0 <= k < |on| ==> on[k] == (on + [x])[k];
      assert (on + [x])[|on|];
    }
  }

  lemma CompileSnoc(o: Outside, src: seq<Item>, it: Item, macros: Macros)
    ensures Compile(o, src + [it], macros) == Read(o, Compile(o, src, macros), it)
  {
    assert (src + [it])[..|src|] == src;
  }

  // A line of text, or a directive that is not a conditional
  lemma LineSimulates(cpu: string, o: Outside, ms: seq<Mode>, c: Compiler, r: Compiler, it: Item)
    requires Simulates(cpu, ms, c, r) && HeaderKeepsCpu(o, cpu, it) && LineKeepsCpu(cpu, it)
    requires !Opens(it) && !it.Else? && !it.Endif?
    ensures Simulates(cpu, ms, Read(o, c, it), if COND_FALSE in ms then r else Read(o, r, it))
  {
    hide Kept, True, Selecting;
    KeptSelects(ms, c.on);
  }

  lemma OpenSimulates(cpu: string, o: Outside, ms: seq<Mode>, c: Compiler, r: Compiler, it: Item)
    requires Simulates(cpu, ms, c, r) && Opens(it) && Understood(cpu, it) && !(it.If? && COND_FALSE in ms)
    ensures var ms' := KnownAfter(cpu, ms, it);
      Simulates(cpu, ms', Read(o, c, it), if ms'[|ms|] != COPY || COND_FALSE in ms then r else Read(o, r, it))
  {
    hide Kept;
    var ms' := KnownAfter(cpu, ms, it);
    KeptSnoc(ms, c.on, ms'[|ms|], Read(o, c, it).on[|ms|]);
  }

  lemma ElseSimulates(cpu: string, o: Outside, ms: seq<Mode>, c: Compiler, r: Compiler)
    requires Simulates(cpu, ms, c, r) && ms != []
    ensures Simulates(cpu, KnownAfter(cpu, ms, Else), Read(o, c, Else), if ms[|ms| - 1] != COPY || COND_FALSE in ms then r else Read(o, r, Else))
  {
    hide Kept;
    var n := |ms| - 1;
    assert ms[n := ms[n]] == ms && c.on[n := c.on[n]] == c.on;
    KeptTop(ms, c.on, ms[n], c.on[n]);
    KeptTop(ms, c.on, Opposite(ms[n]), !c.on[n]);
    var rest := Kept(ms[..n], c.on[..n]);
    assert (rest + [c.on[n]])[|rest| := !c.on[n]] == rest + [!c.on[n]];
    assert COND_FALSE in ms <==> ms[n] == COND_FALSE || COND_FALSE in ms[..n];
  }

  lemma EndifSimulates(cpu: string, o: Outside, ms: seq<Mode>, c: Compiler, r: Compiler)
    requires Simulates(cpu, ms, c, r) && ms != []
    ensures Simulates(cpu, KnownAfter(cpu, ms, Endif), Read(o, c, Endif), if ms[|ms| - 1] != COPY || COND_FALSE in ms then r else Read(o, r, Endif))
  {
    hide Kept;
    var n := |ms| - 1;
    assert ms[n := ms[n]] == ms && c.on[n := c.on[n]] == c.on;
    KeptTop(ms, c.on, ms[n], c.on[n]);
    var rest := Kept(ms[..n], c.on[..n]);
    assert (rest + [c.on[n]])[..|rest|] == rest;
    assert COND_FALSE in ms <==> ms[n] == COND_FALSE || COND_FALSE in ms[..n];
  }

  lemma ItemSimulates(cpu: string, o: Outside, ms: seq<Mode>, c: Compiler, r: Compiler, it: Item)
    requires Simulates(cpu, ms, c, r) && HeaderKeepsCpu(o, cpu, it) && LineKeepsCpu(cpu, it) && Understood(cpu, it)
    requires !(it.If? && COND_FALSE in ms) && (it.Else? || it.Endif? ==> ms != [])
    ensures Simulates(cpu, KnownAfter(cpu, ms, it), Read(o, c, it), if EmitsIn(cpu, ms, it) then Read(o, r, it) else r)
  {
    hide Simulates, Read, HeaderKeepsCpu, Understood, LineKeepsCpu;
    if Opens(it) {
      OpenSimulates(cpu, o, ms, c, r, it);
    } else if it.Else? {
      ElseSimulates(cpu, o, ms, c, r);
    } else if it.Endif? {
      EndifSimulates(cpu, o, ms, c, r);
    } else {
      LineSimulates(cpu, o, ms, c, r, it);
    }
  }

  // Wherever the reading of the original is, the reading of its residual is
  // there too.
  lemma {:induction false} ResidualSimulates(cpu: string, o: Outside, src: seq<Item>, macros: Macros)
    requires Groups(src).Some? && AllUnderstood(cpu, src) && DiscardedIfs(cpu, src) == 0
    requires LinesKeepCpu(cpu, src) && HeadersKeepCpu(o, cpu, src) && CpuMacros(cpu, macros)
    ensures Run(cpu, src).Some?
    ensures Simulates(cpu, Known(cpu, src), Compile(o, src, macros), Compile(o, Run(cpu, src).value.dst, macros))
  {
    RunKnows(cpu, src);
    if src != [] {
      var front, it := src[..|src| - 1], src[|src| - 1];
      assert src == front + [it] && it in src;
      RunKnows(cpu, front);
      ResidualSimulates(cpu, o, front, macros);
      var p, ms := Run(cpu, front).value, Known(cpu, front);
      StepEmits(cpu, p, it, ms);
      CompileSnoc(o, p.dst, it, macros);
      hide Simulates, Read, EmitsIn, Step, HeaderKeepsCpu;
      ItemSimulates(cpu, o, ms, Compile(o, front, macros), Compile(o, p.dst, macros), it);
    }
  }

  // Whatever conditions and headers mean, the residual selects the lines that
  // the original does, in the same order, and leaves the same macros.
  lemma ResidualMeansTheSame(cpu: string, o: Outside, src: seq<Item>, macros: Macros)
    requires Balanced(src) && Residual(cpu, src).Some? && DiscardedIfs(cpu, src) == 0
    requires LinesKeepCpu(cpu, src) && HeadersKeepCpu(o, cpu, src) && CpuMacros(cpu, macros)
    ensures Compile(o, Residual(cpu, src).value, macros) == Compile(o, src, macros)
  {
    RunKnows(cpu, src);
    ResidualSimulates(cpu, o, src, macros);
  }

  // ---- no CPU name is left -------------------------------------------

  predicate CpuFree(cpu: string, it: Item) {
    match it
    case Ifdef(args) => !CpuName(cpu, Name(args))
    case Ifndef(args) => !CpuName(cpu, Name(args))
    case If(tokens) => !MentionsCpu(cpu, tokens)
    case _ => true
  }

  // A reader has at least as many groups open as have not been closed.
  lemma {:induction false} OpenAtLeast(o: Outside, src: seq<Item>, macros: Macros)
    ensures |Compile(o, src, macros).on| >= Depth(src)
    ensures Groups(src).Some? ==> |Compile(o, src, macros).on| == |Groups(src).value|
  {
    if src != [] {
      OpenAtLeast(o, src[..|src| - 1], macros);
    }
  }

  // In full the reading is the same exactly when no opaque condition lies in a
  // discarded region: otherwise the residual leaves a group open.
  lemma ReadTheSameIff(cpu: string, o: Outside, src: seq<Item>, macros: Macros)
    requires Balanced(src) && Residual(cpu, src).Some?
    requires LinesKeepCpu(cpu, src) && HeadersKeepCpu(o, cpu, src) && CpuMacros(cpu, macros)
    ensures Compile(o, Residual(cpu, src).value, macros) == Compile(o, src, macros) <==> DiscardedIfs(cpu, src) == 0
  {
    if DiscardedIfs(cpu, src) == 0 {
      ResidualMeansTheSame(cpu, o, src, macros);
    } else {
      RunKnows(cpu, src);
      DepthOfResidual(cpu, src);
      OpenAtLeast(o, src, macros);
      OpenAtLeast(o, Residual(cpu, src).value, macros);
    }
  }

  // Neither an #ifdef or #ifndef on a CPU name nor a test of one in an #if is
  // ever left.
  lemma {:induction false} NoCpuLeft(cpu: string, src: seq<Item>)
    requires Run(cpu, src).Some?
    ensures forall it :: it in Run(cpu, src).value.dst ==> Understood(cpu, it) && CpuFree(cpu, it)
  {
    hide MentionsCpu;
    if src != [] {
      NoCpuLeft(cpu, src[..|src| - 1]);
    }
  }

  // ---- a second pass -------------------------------------------------

  lemma CpuFreeStep(cpu: string, p: Progress, it: Item, ms: seq<Mode>, flags: seq<bool>)
    requires Group(flags, it).Some? && |ms| == |flags| && p.mode == [COPY] + ms
    requires Understood(cpu, it) && CpuFree(cpu, it) && AllCopy(ms)
    ensures Step(cpu, p, it).Some? && Step(cpu, p, it).value.dst == p.dst + [it]
    ensures AllCopy(KnownAfter(cpu, ms, it))
  {
    GroupNeeds(flags, it);
    StepEmits(cpu, p, it, ms);
    hide Step, Understood, MentionsCpu, Group;
  }

  predicate AllCopy(ms: seq<Mode>) { forall k :: 0 <= k < |ms| ==> ms[k] == COPY }

  lemma {:induction false} CpuFreeIsCopied(cpu: string, src: seq<Item>)
    requires Groups(src).Some? && forall it :: it in src ==> Understood(cpu, it) && CpuFree(cpu, it)
    ensures Run(cpu, src).Some? && Run(cpu, src).value.dst == src
    ensures AllCopy(Known(cpu, src))
  {
    RunKnows(cpu, src);
    if src != [] {
      var front, it := src[..|src| - 1], src[|src| - 1];
      assert src == front + [it] && it in src;
      CpuFreeIsCopied(cpu, front);
      RunKnows(cpu, front);
      hide Step, Group, KnownAfter, Understood, CpuFree;
      CpuFreeStep(cpu, Run(cpu, front).value, it, Known(cpu, front), Groups(front).value);
    }
  }

  // Preprocessing again changes nothing.
  lemma ResidualIsFixed(cpu: string, src: seq<Item>)
    requires Balanced(src) && Residual(cpu, src).Some? && DiscardedIfs(cpu, src) == 0
    ensures Residual(cpu, Residual(cpu, src).value) == Residual(cpu, src)
  {
    var dst := Residual(cpu, src).value;
    ResidualBalancedIff(cpu, src);
    NoCpuLeft(cpu, src);
    CpuFreeIsCopied(cpu, dst);
    RunKnows(cpu, dst);
  }

  // ---- the replacement for PPC ---------------------------------------

  // The same macros under the new names
  ghost predicate SameMacros(names: set<string>, macros: Macros, renamed: Macros) {
    forall n :: n in names ==>
      (Renamed(n) in renamed <==> n in macros) && (n in macros ==> renamed[Renamed(n)] == Renamed(macros[n]))
  }

  // A macro that the text defines or undefines becomes the same as no other of
  // the names.
  ghost predicate Distinguished(names: set<string>, items: seq<Item>) { forall it :: it in items ==> DistinguishedIn(names, it) }

  predicate DistinguishedIn(names: set<string>, it: Item) {
    match it
    case Define(macro, _) => Alone(names, macro)
    case Undef(macro) => Alone(names, macro)
    case _ => true
  }

  predicate Alone(names: set<string>, n: string) { forall m :: m in names && Renamed(m) == Renamed(n) ==> m == n }

  // The conditions and headers of the text mean after the replacement what they
  // meant before.
  ghost predicate SameOutside(names: set<string>, items: seq<Item>, o: Outside, o': Outside) {
    forall it :: it in items ==> SameHolds(names, it, o, o') && SameAfter(names, it, o, o')
  }

  ghost predicate SameHolds(names: set<string>, it: Item, o: Outside, o': Outside) {
    it.If? ==> forall macros, macros' :: SameMacros(names, macros, macros') ==>
      o'.holds(RenamedAll(it.tokens), macros') == o.holds(it.tokens, macros)
  }

  ghost predicate SameAfter(names: set<string>, it: Item, o: Outside, o': Outside) {
    it.Include? ==> forall macros, macros' :: SameMacros(names, macros, macros') ==>
      SameMacros(names, o.after(it.header, macros), o'.after(Renamed(it.header), macros'))
  }

  predicate NameIn(names: set<string>, it: Item) {
    match it
    case Define(macro, _) => macro in names
    case Undef(macro) => macro in names
    case Ifdef(args) => args != [] && args[0] in names
    case Ifndef(args) => args != [] && args[0] in names
    case _ => true
  }

  ghost predicate SameCompiler(names: set<string>, c: Compiler, r: Compiler) {
    && r.on == c.on && r.lines == RenamedItems(c.lines) && SameMacros(names, c.macros, r.macros)
  }

  lemma RenamedSnoc(items: seq<Item>, it: Item)
    ensures RenamedItems(items + [it]) == RenamedItems(items) + [RenamedItem(it)]
  {
    assert (items + [it])[..|items|] == items;
  }

  lemma DefineRenamed(names: set<string>, macros: Macros, renamed: Macros, n: string, body: string)
    requires Alone(names, n) && SameMacros(names, macros, renamed)
    ensures SameMacros(names, macros[n := body], renamed[Renamed(n) := Renamed(body)])
    ensures SameMacros(names, macros - {n}, renamed - {Renamed(n)})
  {
    hide Renamed;
  }

  // A definition means the same whatever has been defined before exactly when
  // the macro becomes the same as no other of the names.
  lemma DefineRenamedIff(names: set<string>, n: string, body: string)
    ensures Alone(names, n) <==>
      forall macros, renamed :: SameMacros(names, macros, renamed) ==> SameMacros(names, macros[n := body], renamed[Renamed(n) := Renamed(body)])
  {
    hide Renamed;
    if Alone(names, n) {
      forall macros, renamed | SameMacros(names, macros, renamed)
        ensures SameMacros(names, macros[n := body], renamed[Renamed(n) := Renamed(body)])
      {
        DefineRenamed(names, macros, renamed, n, body);
      }
    } else {
      var m :| m in names && Renamed(m) == Renamed(n) && m != n;
      var none: Macros := map[];
      assert SameMacros(names, none, none);
      assert !SameMacros(names, none[n := body], none[Renamed(n) := Renamed(body)]);
    }
  }

  lemma ReadRenamed(names: set<string>, o: Outside, o': Outside, c: Compiler, r: Compiler, it: Item)
    requires DistinguishedIn(names, it) && SameHolds(names, it, o, o') && SameAfter(names, it, o, o')
    requires NameIn(names, it) && SameCompiler(names, c, r)
    ensures SameCompiler(names, Read(o, c, it), Read(o', r, RenamedItem(it)))
  {
    RenamedSnoc(c.lines, it);
    match it {
      case Define(macro, body) => DefineRenamed(names, c.macros, r.macros, macro, body);
      case Undef(macro) => DefineRenamed(names, c.macros, r.macros, macro, "");
      case _ =>
    }
    hide RenamedItems, Renamed, Selecting, Alone;
  }

  // The renamed text selects the renamed lines.
  lemma {:induction false} RenamingMeansTheSame(names: set<string>, o: Outside, o': Outside, items: seq<Item>, macros: Macros, macros': Macros)
    requires Distinguished(names, items) && SameOutside(names, items, o, o') && SameMacros(names, macros, macros')
    requires forall it :: it in items ==> NameIn(names, it)
    ensures SameCompiler(names, Compile(o, items, macros), Compile(o', RenamedItems(items), macros'))
  {
    if items != [] {
      var front, it := items[..|items| - 1], items[|items| - 1];
      assert items == front + [it] && it in items;
      hide SameHolds, SameAfter, DistinguishedIn, NameIn, SameMacros;
      RenamingMeansTheSame(names, o, o', front, macros, macros');
      RenamedSnoc(front, it);
      CompileSnoc(o', RenamedItems(front), RenamedItem(it), macros');
      hide SameCompiler, Read, RenamedItems, RenamedItem;
      ReadRenamed(names, o, o', Compile(o, front, macros), Compile(o', RenamedItems(front), macros'), it);
    }
  }

  lemma {:induction false} ResidualIsSelected(cpu: string, src: seq<Item>)
    requires Run(cpu, src).Some?
    ensures forall it :: it in Run(cpu, src).value.dst ==> it in src
  {
    hide MentionsCpu, OtherCpus;
    if src != [] {
      assert src == src[..|src| - 1] + [src[|src| - 1]];
      ResidualIsSelected(cpu, src[..|src| - 1]);
    }
  }

  // What preprocess returns for "PPC", read where PPC64 is what _LP64 was,
  // selects the lines of the original with the names replaced, and leaves the
  // same macros under the new names.
  lemma PpcMeansTheSame(names: set<string>, o: Outside, o': Outside, src: seq<Item>, macros: Macros, macros': Macros)
    requires Balanced(src) && Residual("PPC", src).Some? && DiscardedIfs("PPC", src) == 0
    requires LinesKeepCpu("PPC", src) && HeadersKeepCpu(o, "PPC", src) && CpuMacros("PPC", macros)
    requires var dst := Residual("PPC", src).value;
      Distinguished(names, dst) && SameOutside(names, dst, o, o') && forall it :: it in dst ==> NameIn(names, it)
    requires SameMacros(names, macros, macros')
    ensures Preprocessed("PPC", src).Some?
    ensures SameCompiler(names, Compile(o, src, macros), Compile(o', Preprocessed("PPC", src).value, macros'))
  {
    hide Balanced, DiscardedIfs, LinesKeepCpu, HeadersKeepCpu, CpuMacros, Distinguished, SameOutside, NameIn, SameMacros, SameCompiler,
      Compile, RenamedItems, Residual;
    ResidualMeansTheSame("PPC", o, src, macros);
    RenamingMeansTheSame(names, o, o', Residual("PPC", src).value, macros, macros');
  }

  // ---- the value of a condition --------------------------------------

  // defined(n) and !defined(n), each in one piece
  predicate IsTest(token: string) { "defined(" <= token && token[|token| - 1] == ')' }

  predicate IsNegated(token: string) { "!" <= token && IsTest(token[1..]) }

  function Tested(token: string): string
    requires IsTest(token)
  {
    if |token| < 9 then "" else token[8..|token| - 1]
  }

  datatype Reading = Reading(value: bool, rest: seq<string>)

  // The C preprocessor on the operators !, && and ||, parentheses and tests of
  // macros: the value of what the tokens start with, and what is left of them;
  // None where they start with no such condition
  function Disjunction(tokens: seq<string>, macros: Macros): (r: Option<Reading>)
    ensures r.Some? ==> |r.value.rest| < |tokens|
    decreases |tokens|, 2
  {
    match Conjunction(tokens, macros)
    case None => None
    case Some(a) =>
      if a.rest == [] || a.rest[0] != "||" then Some(a)
      else
        match Disjunction(a.rest[1..], macros)
        case None => None
        case Some(b) => Some(Reading(a.value || b.value, b.rest))
  }

  function Conjunction(tokens: seq<string>, macros: Macros): (r: Option<Reading>)
    ensures r.Some? ==> |r.value.rest| < |tokens|
    decreases |tokens|, 1
  {
    match Factor(tokens, macros)
    case None => None
    case Some(a) =>
      if a.rest == [] || a.rest[0] != "&&" then Some(a)
      else
        match Conjunction(a.rest[1..], macros)
        case None => None
        case Some(b) => Some(Reading(a.value && b.value, b.rest))
  }

  function Factor(tokens: seq<string>, macros: Macros): (r: Option<Reading>)
    ensures r.Some? ==> |r.value.rest| < |tokens|
    decreases |tokens|, 0
  {
    if tokens == [] then None
    else if tokens[0] == "!" then
      match Factor(tokens[1..], macros)
      case None => None
      case Some(a) => Some(Reading(!a.value, a.rest))
    else if tokens[0] == "(" then
      match Disjunction(tokens[1..], macros)
      case None => None
      case Some(a) => if a.rest == [] || a.rest[0] != ")" then None else Some(Reading(a.value, a.rest[1..]))
    else if IsTest(tokens[0]) then Some(Reading(Tested(tokens[0]) in macros, tokens[1..]))
    else if IsNegated(tokens[0]) then Some(Reading(Tested(tokens[0][1..]) !in macros, tokens[1..]))
    else None
  }

  function Value(tokens: seq<string>, macros: Macros): Option<bool> {
    match Disjunction(tokens, macros)
    case None => None
    case Some(a) => if a.rest == [] then Some(a.value) else None
  }

  // A compiler that gives these conditions their value
  ghost predicate Truthful(o: Outside) {
    forall tokens, macros :: Value(tokens, macros).Some? ==> o.holds(tokens, macros) == Value(tokens, macros).value
  }

  // The macros that a list of tokens tests
  predicate TestsIn(names: set<string>, tokens: seq<string>) {
    forall k :: 0 <= k < |tokens| ==>
      && (IsTest(tokens[k]) ==> Tested(tokens[k]) in names)
      && (IsNegated(tokens[k]) ==> Tested(tokens[k][1..]) in names)
  }

  // Every #if of the text has a condition of this kind, on the names.
  ghost predicate ConditionsOn(names: set<string>, items: seq<Item>) { forall it :: it in items ==> ConditionOn(names, it) }

  ghost predicate ConditionOn(names: set<string>, it: Item) { it.If? ==> Value(it.tokens, map[]).Some? && TestsIn(names, it.tokens) }

  ghost predicate SameHeaders(names: set<string>, items: seq<Item>, o: Outside, o': Outside) {
    forall it :: it in items ==> SameAfter(names, it, o, o')
  }

  lemma {:induction false} RenamedLength(s: string)
    ensures |Renamed(s)| == |s|
    ensures s != [] ==> Renamed(s)[|s| - 1] == s[|s| - 1]
  {
    if |s| >= 5 {
      RenamedLength(s[5..]);
      RenamedLength(s[1..]);
    }
  }

  // Replacing neither makes nor spoils a beginning that has nothing to do with
  // the two names.
  lemma {:induction false} RenamedPrefix(p: string, s: string)
    requires '_' !in p && 'P' !in p
    ensures p <= Renamed(s) <==> p <= s
    ensures p <= s ==> Renamed(s) == p + Renamed(s[|p|..])
  {
    RenamedLength(s);
    if p != [] && s != [] {
      assert p[0] in p;
      if |s| >= 5 && s[..5] == "_LP64" {
        assert s[0] == '_' && Renamed(s)[0] == 'P';
      } else {
        assert forall c :: c in p[1..] ==> c in p;
        RenamedPrefix(p[1..], s[1..]);
        assert Renamed(s) == [s[0]] + Renamed(s[1..]);
        assert p == [p[0]] + p[1..];
        assert p <= s ==> s[1..][|p| - 1..] == s[|p|..];
        assert p <= Renamed(s) <==> p[0] == s[0] && p[1..] <= Renamed(s[1..]);
        assert p <= s <==> p[0] == s[0] && p[1..] <= s[1..];
      }
    }
  }

  lemma {:induction false} RenamedClose(s: string)
    ensures Renamed(s + ")") == Renamed(s) + ")"
  {
    if |s| >= 4 {
      assert (s + ")")[1..] == s[1..] + ")";
      RenamedClose(s[1..]);
      if |s| >= 5 {
        assert (s + ")")[..5] == s[..5] && (s + ")")[5..] == s[5..] + ")";
        RenamedClose(s[5..]);
      } else {
        assert (s + ")")[4] == ')';
      }
    }
  }

  // A test stays a test, of the macro under its new name.
  lemma TestRenamed(token: string)
    ensures IsTest(Renamed(token)) <==> IsTest(token)
    ensures IsTest(token) ==> Tested(Renamed(token)) == Renamed(Tested(token))
  {
    hide Renamed;
    RenamedLength(token);
    RenamedPrefix("defined(", token);
    if IsTest(token) {
      var n := Tested(token);
      assert |token| >= 9;
      assert token[8..] == n + ")";
      RenamedClose(n);
      RenamedLength(n);
      assert Renamed(token) == "defined(" + (Renamed(n) + ")");
    }
  }

  lemma NegationRenamed(token: string)
    ensures IsNegated(Renamed(token)) <==> IsNegated(token)
    ensures IsNegated(token) ==> Tested(Renamed(token)[1..]) == Renamed(Tested(token[1..]))
  {
    hide Renamed, IsTest;
    RenamedPrefix("!", token);
    if "!" <= token {
      assert Renamed(token)[1..] == Renamed(token[1..]);
      TestRenamed(token[1..]);
    }
  }

  lemma ShortRenamed(token: string, t: string)
    requires |t| < 5
    ensures Renamed(token) == t <==> token == t
  {
    RenamedLength(token);
  }

  function RenamedReading(r: Option<Reading>): Option<Reading> {
    match r
    case None => None
    case Some(a) => Some(Reading(a.value, RenamedAll(a.rest)))
  }

  lemma RenamedTail(tokens: seq<string>)
    requires tokens != []
    ensures RenamedAll(tokens)[0] == Renamed(tokens[0]) && RenamedAll(tokens)[1..] == RenamedAll(tokens[1..])
  {
  }

  // The rest of a condition tests no other macros.
  lemma TestsInRest(names: set<string>, tokens: seq<string>)
    requires tokens != [] && TestsIn(names, tokens)
    ensures TestsIn(names, tokens[1..])
  {
    hide IsTest, IsNegated, Tested;
    forall k | 0 <= k < |tokens[1..]| ensures tokens[1..][k] == tokens[k + 1] {
    }
  }

  lemma {:induction false} DisjunctionRenamed(names: set<string>, tokens: seq<string>, macros: Macros, macros': Macros)
    requires SameMacros(names, macros, macros') && TestsIn(names, tokens)
    ensures Disjunction(RenamedAll(tokens), macros') == RenamedReading(Disjunction(tokens, macros))
    ensures Disjunction(tokens, macros).Some? ==> TestsIn(names, Disjunction(tokens, macros).value.rest)
    decreases |tokens|, 2
  {
    hide SameMacros, TestsIn, Renamed, Conjunction;
    ConjunctionRenamed(names, tokens, macros, macros');
    if Conjunction(tokens, macros).Some? {
      var a := Conjunction(tokens, macros).value;
      if a.rest != [] {
        RenamedTail(a.rest);
        ShortRenamed(a.rest[0], "||");
        TestsInRest(names, a.rest);
        DisjunctionRenamed(names, a.rest[1..], macros, macros');
      }
    }
  }

  lemma {:induction false} ConjunctionRenamed(names: set<string>, tokens: seq<string>, macros: Macros, macros': Macros)
    requires SameMacros(names, macros, macros') && TestsIn(names, tokens)
    ensures Conjunction(RenamedAll(tokens), macros') == RenamedReading(Conjunction(tokens, macros))
    ensures Conjunction(tokens, macros).Some? ==> TestsIn(names, Conjunction(tokens, macros).value.rest)
    decreases |tokens|, 1
  {
    hide SameMacros, TestsIn, Renamed, Factor;
    FactorRenamed(names, tokens, macros, macros');
    if Factor(tokens, macros).Some? {
      var a := Factor(tokens, macros).value;
      if a.rest != [] {
        RenamedTail(a.rest);
        ShortRenamed(a.rest[0], "&&");
        TestsInRest(names, a.rest);
        ConjunctionRenamed(names, a.rest[1..], macros, macros');
      }
    }
  }

  lemma {:induction false} FactorRenamed(names: set<string>, tokens: seq<string>, macros: Macros, macros': Macros)
    requires SameMacros(names, macros, macros') && TestsIn(names, tokens)
    ensures Factor(RenamedAll(tokens), macros') == RenamedReading(Factor(tokens, macros))
    ensures Factor(tokens, macros).Some? ==> TestsIn(names, Factor(tokens, macros).value.rest)
    decreases |tokens|, 0
  {
    hide TestsIn, Renamed, Disjunction, IsTest, IsNegated, Tested, SameMacros;
    if tokens != [] {
      RenamedTail(tokens);
      TestsInRest(names, tokens);
      ShortRenamed(tokens[0], "!");
      ShortRenamed(tokens[0], "(");
      TestRenamed(tokens[0]);
      NegationRenamed(tokens[0]);
      TestsSame(names, tokens, macros, macros');
      if tokens[0] == "!" {
        FactorRenamed(names, tokens[1..], macros, macros');
      } else if tokens[0] == "(" {
        DisjunctionRenamed(names, tokens[1..], macros, macros');
        if Disjunction(tokens[1..], macros).Some? {
          var rest := Disjunction(tokens[1..], macros).value.rest;
          if rest != [] {
            RenamedTail(rest);
            ShortRenamed(rest[0], ")");
            TestsInRest(names, rest);
          }
        }
      }
    }
  }

  lemma TestsSame(names: set<string>, tokens: seq<string>, macros: Macros, macros': Macros)
    requires SameMacros(names, macros, macros') && TestsIn(names, tokens) && tokens != []
    ensures IsTest(tokens[0]) ==> (Renamed(Tested(tokens[0])) in macros' <==> Tested(tokens[0]) in macros)
    ensures IsNegated(tokens[0]) ==> (Renamed(Tested(tokens[0][1..])) in macros' <==> Tested(tokens[0][1..]) in macros)
  {
    hide IsTest, IsNegated, Renamed, Tested;
  }

  // The replacement does not change the value of a condition on the names.
  lemma ValueRenamed(names: set<string>, tokens: seq<string>, macros: Macros, macros': Macros)
    requires SameMacros(names, macros, macros') && TestsIn(names, tokens)
    ensures Value(RenamedAll(tokens), macros') == Value(tokens, macros)
  {
    hide SameMacros, TestsIn, Disjunction;
    DisjunctionRenamed(names, tokens, macros, macros');
  }

  // Which tokens make a condition does not depend on the macros.
  lemma {:induction false} DisjunctionShape(tokens: seq<string>, macros: Macros, macros': Macros)
    ensures SameRest(Disjunction(tokens, macros), Disjunction(tokens, macros'))
    decreases |tokens|, 2
  {
    hide Conjunction;
    ConjunctionShape(tokens, macros, macros');
    if Conjunction(tokens, macros).Some? && Conjunction(tokens, macros).value.rest != [] {
      DisjunctionShape(Conjunction(tokens, macros).value.rest[1..], macros, macros');
    }
  }

  lemma {:induction false} ConjunctionShape(tokens: seq<string>, macros: Macros, macros': Macros)
    ensures SameRest(Conjunction(tokens, macros), Conjunction(tokens, macros'))
    decreases |tokens|, 1
  {
    hide Factor;
    FactorShape(tokens, macros, macros');
    if Factor(tokens, macros).Some? && Factor(tokens, macros).value.rest != [] {
      ConjunctionShape(Factor(tokens, macros).value.rest[1..], macros, macros');
    }
  }

  lemma {:induction false} FactorShape(tokens: seq<string>, macros: Macros, macros': Macros)
    ensures SameRest(Factor(tokens, macros), Factor(tokens, macros'))
    decreases |tokens|, 0
  {
    hide Disjunction, IsTest, IsNegated, Tested;
    if tokens != [] {
      FactorShape(tokens[1..], macros, macros');
      DisjunctionShape(tokens[1..], macros, macros');
    }
  }

  predicate SameRest(a: Option<Reading>, b: Option<Reading>) {
    (a.Some? <==> b.Some?) && (a.Some? ==> a.value.rest == b.value.rest)
  }

  // Where all conditions of a text are of this kind, on the names, any two
  // compilers that give them their value agree on them.
  lemma TruthfulIsSame(names: set<string>, items: seq<Item>, o: Outside, o': Outside)
    requires Truthful(o) && Truthful(o') && ConditionsOn(names, items) && SameHeaders(names, items, o, o')
    ensures SameOutside(names, items, o, o')
  {
    hide Truthful, SameAfter, SameMacros, TestsIn, Value;
    forall it | it in items ensures SameHolds(names, it, o, o') && SameAfter(names, it, o, o') {
      assert ConditionOn(names, it);
      if it.If? {
        forall macros, macros' | SameMacros(names, macros, macros')
          ensures o'.holds(RenamedAll(it.tokens), macros') == o.holds(it.tokens, macros)
        {
          TruthfulAgree(names, it.tokens, o, o', macros, macros');
        }
      }
    }
  }

  lemma TruthfulAgree(names: set<string>, tokens: seq<string>, o: Outside, o': Outside, macros: Macros, macros': Macros)
    requires Truthful(o) && Truthful(o') && Value(tokens, map[]).Some? && TestsIn(names, tokens) && SameMacros(names, macros, macros')
    ensures o'.holds(RenamedAll(tokens), macros') == o.holds(tokens, macros)
  {
    DisjunctionShape(tokens, macros, map[]);
    hide Disjunction, TestsIn, SameMacros;
    ValueRenamed(names, tokens, macros, macros');
  }

  // For every text whose opaque conditions are made of tests of macros, and any
  // compilers that give such conditions their value: what preprocess returns
  // for "PPC" selects the lines of the original with the names replaced.
  lemma PpcSelectsTheSame(names: set<string>, o: Outside, o': Outside, src: seq<Item>, macros: Macros, macros': Macros)
    requires Balanced(src) && Residual("PPC", src).Some? && DiscardedIfs("PPC", src) == 0
    requires LinesKeepCpu("PPC", src) && HeadersKeepCpu(o, "PPC", src) && CpuMacros("PPC", macros)
    requires Distinguished(names, src) && ConditionsOn(names, src) && forall it :: it in src ==> NameIn(names, it)
    requires Truthful(o) && Truthful(o') && SameHeaders(names, src, o, o') && SameMacros(names, macros, macros')
    ensures Preprocessed("PPC", src).Some?
    ensures SameCompiler(names, Compile(o, src, macros), Compile(o', Preprocessed("PPC", src).value, macros'))
  {
    hide Balanced, DiscardedIfs, LinesKeepCpu, HeadersKeepCpu, CpuMacros, DistinguishedIn, ConditionOn, SameAfter, SameHolds, NameIn,
      SameMacros, SameCompiler, Compile, RenamedItems, Run, Truthful;
    ResidualIsSelected("PPC", src);
    TruthfulIsSame(names, src, o, o');
    PpcMeansTheSame(names, o, o', src, macros, macros');
  }

  // There are such compilers, and the same one may read both texts.
  function Plain(): Outside {
    Outside(
      (tokens: seq<string>, macros: Macros) => Value(tokens, macros) == Some(true),
      (header: string, macros: Macros) => macros)
  }

  lemma PlainIsTruthful(names: set<string>, src: seq<Item>, cpu: string)
    ensures Truthful(Plain()) && SameHeaders(names, src, Plain(), Plain()) && HeadersKeepCpu(Plain(), cpu, src)
  {
    hide Value, CpuMacros, SameMacros;
  }

  // A macro that the text defines may become the same as one that it tests:
  // then a line is selected that was not.
  lemma MergedNamesDiffer()
    ensures var src := [Define("_LP64", "1"), Ifdef(["PPC64"]), Text("x"), Endif];
      var macros: Macros := map["PPC" := "1"];
      && Balanced(src) && Preprocessed("PPC", src).Some? && !Distinguished({"_LP64", "PPC64"}, src)
      && Text("x") !in Compile(Plain(), src, macros).lines
      && Text("x") in Compile(Plain(), Preprocessed("PPC", src).value, macros).lines
  {
    var d, i, t := Define("_LP64", "1"), Ifdef(["PPC64"]), Text("x");
    var src, macros := [d, i, t, Endif], map["PPC" := "1"];
    var d' := Define("PPC64", "1");
    hide *;
    MergedItems(d, d', i, t);
    NotDistinguished({"_LP64", "PPC64"}, src);
    GroupOf(d, i, t);
    CopiedForPpc(d, i, t);
    ReadGroup(Plain(), d, i, t, macros);
    ReadGroup(Plain(), d', i, t, macros);
    MergedReads(d, d', i, t, macros);
  }

  lemma MergedItems(d: Item, d': Item, i: Item, t: Item)
    requires d == Define("_LP64", "1") && d' == Define("PPC64", "1") && i == Ifdef(["PPC64"]) && t == Text("x")
    ensures RenamedItems([d, i, t, Endif]) == [d', i, t, Endif]
  {
    hide Renamed;
    NewNames();
    var names := RenamedAll(i.args);
    assert names == i.args;
    assert RenamedItem(d) == d' && RenamedItem(i) == i && RenamedItem(t) == t && RenamedItem(Endif) == Endif;
    hide *;
    ItemsRenamed(d, i, t);
  }

  lemma ItemsRenamed(d: Item, i: Item, t: Item)
    ensures RenamedItems([d, i, t, Endif]) == [RenamedItem(d), RenamedItem(i), RenamedItem(t), RenamedItem(Endif)]
  {
    hide RenamedItem;
  }

  lemma NotDistinguished(names: set<string>, src: seq<Item>)
    requires "_LP64" in names && "PPC64" in names && Define("_LP64", "1") in src
    ensures !Distinguished(names, src)
  {
    hide Renamed;
    NewNames();
    assert !Alone(names, "_LP64");
    assert !DistinguishedIn(names, Define("_LP64", "1"));
  }

  lemma NewNames()
    ensures Renamed("_LP64") == "PPC64" && Renamed("PPC64") == "PPC64" && Renamed("1") == "1" && Renamed("x") == "x"
  {
    assert Renamed("_LP64"[5..]) == "";
    RenamedFixed("PPC64");
  }

  lemma {:induction false} RenamedFixed(s: string)
    requires '_' !in s
    ensures Renamed(s) == s
  {
    if |s| >= 5 {
      assert s[0] in s && forall c :: c in s[1..] ==> c in s;
      assert "_LP64"[0] == '_';
      RenamedFixed(s[1..]);
    }
  }

  lemma GroupOf(d: Item, i: Item, t: Item)
    requires d.Define? && i.Ifdef? && t.Text?
    ensures Balanced([d, i, t, Endif])
  {
    var s1, s2, s3, s4 := [d], [d, i], [d, i, t], [d, i, t, Endif];
    assert [] + [d] == s1 && s1 + [i] == s2 && s2 + [t] == s3 && s3 + [Endif] == s4;
    GroupsSnoc([], d);
    GroupsSnoc(s1, i);
    GroupsSnoc(s2, t);
    GroupsSnoc(s3, Endif);
    assert [] + [false] == [false] && [false][..0] == [];
  }

  lemma CopiedForPpc(d: Item, i: Item, t: Item)
    requires d.Define? && i == Ifdef(["PPC64"]) && t.Text?
    ensures Preprocessed("PPC", [d, i, t, Endif]) == Some(RenamedItems([d, i, t, Endif]))
  {
    var src := [d, i, t, Endif];
    GroupOf(d, i, t);
    assert !CpuName("PPC", "PPC64");
    assert forall it :: it in src ==> it == d || it == i || it == t || it == Endif;
    CpuFreeIsCopied("PPC", src);
    RunKnows("PPC", src);
  }

  lemma ReadGroup(o: Outside, d: Item, i: Item, t: Item, macros: Macros)
    ensures Compile(o, [d, i, t, Endif], macros) == Read(o, Read(o, Read(o, Read(o, Compiler(macros, [], []), d), i), t), Endif)
  {
    var s1, s2, s3, s4 := [d], [d, i], [d, i, t], [d, i, t, Endif];
    assert [] + [d] == s1 && s1 + [i] == s2 && s2 + [t] == s3 && s3 + [Endif] == s4;
    assert Compile(o, [], macros) == Compiler(macros, [], []);
    hide *;
    CompileSnoc(o, [], d, macros);
    CompileSnoc(o, s1, i, macros);
    CompileSnoc(o, s2, t, macros);
    CompileSnoc(o, s3, Endif, macros);
  }

  lemma MergedReads(d: Item, d': Item, i: Item, t: Item, macros: Macros)
    requires d == Define("_LP64", "1") && d' == Define("PPC64", "1") && i == Ifdef(["PPC64"]) && t.Text? && macros == map["PPC" := "1"]
    ensures var o, c := Plain(), Compiler(macros, [], []);
      && t !in Read(o, Read(o, Read(o, Read(o, c, d), i), t), Endif).lines
      && t in Read(o, Read(o, Read(o, Read(o, c, d'), i), t), Endif).lines
  {
    var o, c := Plain(), Compiler(macros, [], []);
    var off, on := Read(o, c, d), Read(o, c, d');
    assert off == Compiler(macros["_LP64" := "1"], [], [d]) && on == Compiler(macros["PPC64" := "1"], [], [d']);
    assert "PPC64" != "_LP64" by { assert "PPC64"[0] != "_LP64"[0]; }
    assert "PPC64" != "PPC" by { assert |"PPC64"| != |"PPC"|; }
    assert Name(i.args) !in off.macros && Name(i.args) in on.macros;
    hide Plain;
    ReadOff(o, off, i, t);
    ReadOn(o, on, i, t);
  }

  lemma ReadOff(o: Outside, c: Compiler, i: Item, t: Item)
    requires i.Ifdef? && Name(i.args) !in c.macros && t.Text? && c.on == [] && t !in c.lines
    ensures t !in Read(o, Read(o, Read(o, c, i), t), Endif).lines
  {
    assert Read(o, c, i) == c.(on := [false]);
    assert !Selecting([false]) by { assert ![false][0]; }
    assert Read(o, c.(on := [false]), t) == c.(on := [false]);
  }

  lemma ReadOn(o: Outside, c: Compiler, i: Item, t: Item)
    requires i.Ifdef? && Name(i.args) in c.macros && t.Text? && c.on == []
    ensures t in Read(o, Read(o, Read(o, c, i), t), Endif).lines
  {
    assert Read(o, c, i) == c.(on := [true]);
    assert Selecting([true]);
    assert Read(o, c.(on := [true]), t) == c.(on := [true], lines := c.lines + [t]);
  }

  // ---- what the replacement replaces ---------------------------------

  predicate OldNameAt(s: string, k: nat) { k + 5 <= |s| && s[k..k + 5] == "_LP64" }

  // r is s with every _LP64 replaced by PPC64, and nothing else changed.
  ghost predicate Replaces(s: string, r: string) {
    && |r| == |s|
    && (forall k: nat :: OldNameAt(s, k) ==> NewNameAt(r, k))
    && (forall k :: 0 <= k < |s| && !Covered(s, k) ==> r[k] == s[k])
  }

  ghost predicate Covered(s: string, k: nat) { exists j: nat :: j <= k < j + 5 && OldNameAt(s, j) }

  // Both read on after d characters, which agree with what is to be replaced.
  lemma ReplacesOn(s: string, r: string, d: nat)
    requires d <= |s| == |r| && Replaces(s[d..], r[d..])
    requires forall k: nat | k < d :: (OldNameAt(s, k) ==> NewNameAt(r, k)) && (!Covered(s, k) ==> r[k] == s[k])
    ensures Replaces(s, r)
  {
    hide NewNameAt, OldNameAt, Covered;
    forall k: nat | OldNameAt(s, k) ensures NewNameAt(r, k) {
      if k >= d {
        NameOn(s, r, d, k);
      }
    }
    forall k | 0 <= k < |s| && !Covered(s, k) ensures r[k] == s[k] {
      if k >= d {
        CoveredOn(s, d, k);
      }
    }
  }

  lemma NameOn(s: string, r: string, d: nat, k: nat)
    requires d <= k && d <= |s| == |r|
    ensures OldNameAt(s[d..], k - d) <==> OldNameAt(s, k)
    ensures NewNameAt(r[d..], k - d) <==> NewNameAt(r, k)
  {
    if k + 5 <= |s| {
      assert s[d..][k - d..k - d + 5] == s[k..k + 5] && r[d..][k - d..k - d + 5] == r[k..k + 5];
    }
  }

  lemma CoveredOn(s: string, d: nat, k: nat)
    requires d <= k < |s|
    ensures Covered(s[d..], k - d) ==> Covered(s, k)
  {
    hide OldNameAt;
    if Covered(s[d..], k - d) {
      var j: nat :| j <= k - d < j + 5 && OldNameAt(s[d..], j);
      NameOn(s, s, d, j + d);
    }
  }

  lemma {:induction false} RenamedReplaces(s: string)
    ensures Replaces(s, Renamed(s))
  {
    RenamedLength(s);
    var r := Renamed(s);
    if |s| < 5 {
      assert forall k: nat :: !OldNameAt(s, k);
    } else if s[..5] == "_LP64" {
      RenamedReplaces(s[5..]);
      assert r[5..] == Renamed(s[5..]);
      assert s[0..5] == s[..5] && r[0..5] == "PPC64";
      OnlyOnce(s);
      hide Replaces, Renamed, Covered;
      forall k: nat | k < 5 ensures (OldNameAt(s, k) ==> NewNameAt(r, k)) && Covered(s, k) {
        CoveredBy(s, 0, k);
      }
      ReplacesOn(s, r, 5);
    } else {
      RenamedReplaces(s[1..]);
      assert r[1..] == Renamed(s[1..]) && s[0..5] == s[..5];
      hide Replaces, Renamed, Covered;
      ReplacesOn(s, r, 1);
    }
  }

  lemma CoveredBy(s: string, j: nat, k: nat)
    requires j <= k < j + 5 && OldNameAt(s, j)
    ensures Covered(s, k)
  {
    hide OldNameAt;
  }

  // The name does not overlap itself.
  lemma OnlyOnce(s: string)
    requires |s| >= 5 && s[..5] == "_LP64"
    ensures forall k: nat :: 0 < k < 5 ==> !OldNameAt(s, k)
  {
    forall k: nat | 0 < k < 5 ensures !OldNameAt(s, k) {
      if k + 5 <= |s| {
        assert s[k..k + 5][0] == s[k] == s[..5][k];
      }
    }
  }

  // It is replaced in everything the text says.
  lemma ItemReplaced(it: Item)
    ensures match it
      case Text(text) => RenamedItem(it).Text? && Replaces(text, RenamedItem(it).text)
      case Include(header) => RenamedItem(it).Include? && Replaces(header, RenamedItem(it).header)
      case Define(macro, body) => RenamedItem(it).Define? && Replaces(macro, RenamedItem(it).macro) && Replaces(body, RenamedItem(it).body)
      case Undef(macro) => RenamedItem(it).Undef? && Replaces(macro, RenamedItem(it).undefined)
      case Ifdef(args) => RenamedItem(it).Ifdef? && AllReplaced(args, RenamedItem(it).args)
      case Ifndef(args) => RenamedItem(it).Ifndef? && AllReplaced(args, RenamedItem(it).nargs)
      case If(tokens) => RenamedItem(it).If? && AllReplaced(tokens, RenamedItem(it).tokens)
      case Other(command) => RenamedItem(it).Other? && Replaces(command, RenamedItem(it).command)
      case Else => RenamedItem(it) == it
      case Endif => RenamedItem(it) == it
  {
    hide Renamed, Replaces;
    forall s: string ensures Replaces(s, Renamed(s)) {
      RenamedReplaces(s);
    }
  }

  ghost predicate AllReplaced(ss: seq<string>, rs: seq<string>) {
    |rs| == |ss| && forall k :: 0 <= k < |ss| ==> Replaces(ss[k], rs[k])
  }

  // ---- what is left of CPU names after the replacement ---------------

  predicate NewNameAt(s: string, k: nat) { k + 5 <= |s| && s[k..k + 5] == "PPC64" }

  // Where replacing changes anything, it leaves PPC64.
  lemma {:induction false} RenamedShows(s: string) returns (k: nat)
    requires Renamed(s) != s
    ensures NewNameAt(Renamed(s), k)
  {
    RenamedLength(s);
    if s[..5] == "_LP64" {
      k := 0;
    } else {
      k := RenamedShows(s[1..]);
      k := k + 1;
    }
  }

  // The replacement puts no CPU name and no test of one back.
  lemma NoCpuNameComesBack(src: seq<Item>)
    requires Preprocessed("PPC", src).Some?
    ensures forall it :: it in Preprocessed("PPC", src).value ==> Understood("PPC", it) && CpuFree("PPC", it)
  {
    NoCpuLeft("PPC", src);
    var dst := Residual("PPC", src).value;
    hide Understood, CpuFree, MentionsCpu, CpuName;
    forall it | it in RenamedItems(dst) ensures Understood("PPC", it) && CpuFree("PPC", it) {
      var k :| 0 <= k < |dst| && RenamedItems(dst)[k] == it;
      assert dst[k] in dst && it == RenamedItem(dst[k]);
      ItemStaysFree(dst[k]);
    }
  }

  lemma ItemStaysFree(it: Item)
    requires Understood("PPC", it) && CpuFree("PPC", it)
    ensures Understood("PPC", RenamedItem(it)) && CpuFree("PPC", RenamedItem(it))
  {
    hide MentionsCpu, CpuName, Renamed;
    match it {
      case Ifdef(args) => NotACpuName(args);
      case Ifndef(args) => NotACpuName(args);
      case If(tokens) => NotACpuTest(tokens);
      case _ =>
    }
  }

  lemma NotACpuTest(tokens: seq<string>)
    requires !MentionsCpu("PPC", tokens)
    ensures !MentionsCpu("PPC", RenamedAll(tokens))
  {
    hide Renamed;
    forall k, n | 0 <= k < |tokens| && n in KNOWN_CPUS && Renamed(tokens[k]) == DefinedToken(n) ensures tokens[k] == DefinedToken(n) {
      TestComesBack(tokens[k], n);
    }
    assert "PPC" in KNOWN_CPUS;
    forall n | n in KNOWN_CPUS ensures DefinedToken(n) !in RenamedAll(tokens) {
      assert DefinedToken(n) !in tokens;
    }
  }

  // No test of a CPU name contains PPC64.
  lemma TestComesBack(token: string, n: string)
    requires n in KNOWN_CPUS && Renamed(token) == DefinedToken(n)
    ensures token == DefinedToken(n)
  {
    hide Renamed;
    var t := DefinedToken(n);
    assert t == "defined(PPC)" || t == "defined(IA64)" || t == "defined(S390)";
    forall k: nat ensures !NewNameAt(t, k) {
      if k + 5 <= |t| {
        assert t[k..k + 5][0] == t[k] && t[k..k + 5][3] == t[k + 3];
      }
    }
    if Renamed(token) != token {
      var k := RenamedShows(token);
      assert false;
    }
  }

  lemma NotACpuName(args: seq<string>)
    requires !CpuName("PPC", Name(args))
    ensures !CpuName("PPC", Name(RenamedAll(args)))
  {
    if args != [] {
      RenamedLength(args[0]);
      if |args[0]| < 5 {
        assert Renamed(args[0]) == args[0];
      } else {
        assert |Renamed(args[0])| >= 5;
      }
    }
  }
}
