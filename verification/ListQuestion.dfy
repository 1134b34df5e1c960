// ListQuestion: the bodies of a loop, the position each one records, and the
// names given to bodies that have none of their own.
module ListQuestion {

  datatype Option<+T> = None | Some(value: T)

  // ---- tags ----------------------------------------------------------

  function Digit(n: nat): char
    requires n < 10
  {
    "0123456789"[n]
  }

  function Digits(n: nat): (s: string)
    ensures |s| > 0 && forall c :: c in s ==> c != '-'
  {
    if n < 10 then [Digit(n)] else Digits(n / 10) + [Digit(n % 10)]
  }

  function Decimal(n: int): string { if n < 0 then "-" + Digits(-n) else Digits(n) }

  lemma {:induction false} DigitsDiffer(m: nat, n: nat)
    requires Digits(m) == Digits(n)
    ensures m == n
  {
    var s, t := Digits(m), Digits(n);
    assert s[|s| - 1] == Digit(m % 10) && t[|t| - 1] == Digit(n % 10);
    assert m % 10 == n % 10;
    if m >= 10 && n >= 10 {
      assert s[..|s| - 1] == Digits(m / 10) && t[..|t| - 1] == Digits(n / 10);
      DigitsDiffer(m / 10, n / 10);
    }
  }

  function TagOf(base: string, index: int): string { base + "." + Decimal(index) }

  lemma DecimalsDiffer(i: int, j: int)
    requires Decimal(i) == Decimal(j)
    ensures i == j
  {
    hide Digits;
    if i < 0 && j < 0 {
      assert Decimal(i)[1..] == Digits(-i) && Decimal(j)[1..] == Digits(-j);
      DigitsDiffer(-i, -j);
    } else if i >= 0 && j >= 0 {
      DigitsDiffer(i, j);
    } else {
      var n := if i < 0 then j else i;
      assert Digits(n)[0] in Digits(n);
    }
  }

  // Bodies at different positions have different tags.
  lemma TagsDiffer(base: string, i: int, j: int)
    requires TagOf(base, i) == TagOf(base, j)
    ensures i == j
  {
    hide Decimal;
    assert TagOf(base, i)[|base| + 1..] == Decimal(i) && TagOf(base, j)[|base| + 1..] == Decimal(j);
    DecimalsDiffer(i, j);
  }

  // ---- names ---------------------------------------------------------

  // The localized "new value" with a number; different numbers read
  // differently.
  ghost predicate Injective(name: nat -> string) { forall v, w :: name(v) == name(w) ==> v == w }

  // A default summary is given up where the body has a summary of its own, but
  // not when that is the same.
  function Recycled(byDefault: Option<string>, own: Option<string>): Option<string> {
    if byDefault.Some? && own.Some? && byDefault != own then None else byDefault
  }

  // The first of n names, from the vth on, that is not taken
  function FirstFree(name: nat -> string, taken: set<string>, v: nat, n: nat): Option<string>
    decreases n - v
  {
    if v >= n then None
    else if name(v) !in taken then Some(name(v))
    else FirstFree(name, taken, v + 1, n)
  }

  function Names(name: nat -> string, n: nat): set<string> { set v: nat | v < n :: name(v) }

  lemma {:induction false} NamesDiffer(name: nat -> string, n: nat)
    requires Injective(name)
    ensures |Names(name, n)| == n
  {
    if n == 0 {
      assert Names(name, 0) == {};
    } else {
      NamesDiffer(name, n - 1);
      assert Names(name, n) == Names(name, n - 1) + {name(n - 1)};
      assert name(n - 1) !in Names(name, n - 1);
    }
  }

  lemma {:induction false} FitsIn(a: set<string>, b: set<string>)
    requires a <= b
    ensures |a| <= |b|
  {
    if a != {} {
      var x :| x in a;
      FitsIn(a - {x}, b - {x});
    }
  }

  lemma {:induction false} FreeIff(name: nat -> string, taken: set<string>, v: nat, n: nat)
    ensures FirstFree(name, taken, v, n).Some? <==> exists w: nat :: v <= w < n && name(w) !in taken
    ensures FirstFree(name, taken, v, n).Some? ==> FirstFree(name, taken, v, n).value !in taken
    decreases n - v
  {
    if v < n && name(v) in taken {
      FreeIff(name, taken, v + 1, n);
    }
  }

  // With fewer names taken than there are to choose from, one is free.
  lemma SomeNameIsFree(name: nat -> string, taken: set<string>, n: nat)
    requires Injective(name) && |taken| < n
    ensures FirstFree(name, taken, 0, n).Some?
  {
    FreeIff(name, taken, 0, n);
    if FirstFree(name, taken, 0, n).None? {
      NamesDiffer(name, n);
      FitsIn(Names(name, n), taken);
    }
  }

  // The values in a list, and how many there can be
  function Present(l: seq<Option<string>>): set<string> { set i | 0 <= i < |l| && l[i].Some? :: l[i].value }

  lemma {:induction false} PresentFew(l: seq<Option<string>>)
    ensures |Present(l)| <= |l|
    ensures None in l ==> |Present(l)| < |l|
  {
    if l != [] {
      var n := |l| - 1;
      PresentFew(l[..n]);
      var more := if l[n].Some? then {l[n].value} else {};
      forall s ensures s in Present(l) <==> s in Present(l[..n]) + more {
        if s in Present(l[..n]) {
          var i :| 0 <= i < n && l[..n][i] == Some(s);
          assert l[i] == Some(s);
        }
        if s in Present(l) {
          var i :| 0 <= i < |l| && l[i] == Some(s);
          assert i < n ==> l[..n][i] == Some(s);
        }
      }
      assert Present(l) == Present(l[..n]) + more;
      assert l == l[..n] + [l[n]];
    }
  }

  // ---- names over time -----------------------------------------------

  // The bodies in the list, and what is known of all the bodies there are:
  // their default summaries and their own.
  datatype Naming = Naming(bodies: seq<Body>, defaults: map<Body, Option<string>>, own: map<Body, Option<string>>)

  function Lookup(m: map<Body, Option<string>>, b: Body): Option<string> { if b in m then m[b] else None }

  // No two bodies in the list have the same default summary.
  ghost predicate Differ(s: Naming) {
    forall b, c :: b in s.bodies && c in s.bodies && b != c && Lookup(s.defaults, b).Some? ==> Lookup(s.defaults, b) != Lookup(s.defaults, c)
  }

  // A body that enters the list brings no name that another in the new list
  // has, be it one that stays or one that enters too.
  ghost predicate EntersWell(s: Naming, newBodies: seq<Body>) {
    forall b, c :: b in newBodies && b !in s.bodies && c in newBodies && b != c && Lookup(s.defaults, b).Some?
      ==> Lookup(s.defaults, b) != Lookup(s.defaults, c)
  }

  // Default summaries after those that are not needed have been given up
  ghost function Kept(s: Naming): map<Body, Option<string>> {
    map b | b in s.defaults :: if b in s.bodies then Recycled(s.defaults[b], Lookup(s.own, b)) else s.defaults[b]
  }

  ghost function TakenIn(bodies: seq<Body>, defaults: map<Body, Option<string>>, body: Body): set<string> {
    set b | b in bodies && b != body && Lookup(defaults, b).Some? :: Lookup(defaults, b).value
  }

  // A name that a body with a summary of its own has given up, and no other in
  // the list has, can be given again.
  lemma GivenUpIsFree(s: Naming, a: Body, body: Body)
    requires a in s.bodies && a in s.defaults && a in s.own && Differ(s)
    requires s.defaults[a].Some? && s.own[a].Some? && s.own[a] != s.defaults[a]
    ensures s.defaults[a].value !in TakenIn(s.bodies, Kept(s), body)
  {
    forall b | b in s.bodies && Lookup(Kept(s), b).Some? ensures Lookup(Kept(s), b) != s.defaults[a] {
      if b != a {
        assert Lookup(s.defaults, b) != Lookup(s.defaults, a);
      }
    }
  }

  // getDefaultSummary
  ghost function Named(name: nat -> string, s: Naming, body: Body): Naming {
    if Lookup(s.defaults, body).Some? then s
    else s.(defaults := Kept(s)[body := FirstFree(name, TakenIn(s.bodies, Kept(s), body), 0, |s.bodies|)])
  }

  datatype Act =
    | GetDefault(body: Body)
    | SetTo(newBodies: seq<Body>)
    | Summarize(who: Body, summary: Option<string>)  // getSummary changes its answer

  ghost function After(name: nat -> string, s: Naming, a: Act): Naming {
    match a
    case GetDefault(body) => Named(name, s, body)
    case SetTo(newBodies) => s.(bodies := newBodies)
    case Summarize(who, summary) => s.(own := s.own[who := summary])
  }

  ghost predicate Run(name: nat -> string, states: seq<Naming>, acts: seq<Act>) {
    |states| == |acts| + 1 && forall k :: 0 <= k < |acts| ==> states[k + 1] == After(name, states[k], acts[k])
  }

  lemma NamedDiffers(name: nat -> string, s: Naming, body: Body)
    requires Differ(s)
    ensures Differ(Named(name, s, body))
  {
    var taken := TakenIn(s.bodies, Kept(s), body);
    FreeIff(name, taken, 0, |s.bodies|);
    hide FirstFree;
    var s' := Named(name, s, body);
    if Lookup(s.defaults, body).None? {
      forall b | b in s.bodies && b != body && Lookup(Kept(s), b).Some?
        ensures Lookup(Kept(s), b) != FirstFree(name, taken, 0, |s.bodies|) && Lookup(Kept(s), b) == Lookup(s.defaults, b)
      {
        assert Lookup(Kept(s), b).value in taken;
      }
    }
  }

  // After a change of bodies the names differ exactly when the bodies that
  // enter bring no name that is in use.
  lemma SetDiffersIff(s: Naming, newBodies: seq<Body>)
    requires Differ(s)
    ensures Differ(s.(bodies := newBodies)) <==> EntersWell(s, newBodies)
  {
  }

  // Over any sequence of calls, summaries changing in between, the names
  // always differ exactly when every change of bodies lets none enter with a
  // name that is in use.
  lemma {:induction false} NamesDifferIff(name: nat -> string, states: seq<Naming>, acts: seq<Act>)
    requires Run(name, states, acts) && Differ(states[0])
    ensures (forall k :: 0 <= k < |states| ==> Differ(states[k]))
       <==> (forall k :: 0 <= k < |acts| && acts[k].SetTo? ==> EntersWell(states[k], acts[k].newBodies))
  {
    hide Differ, EntersWell, Named;
    if forall k :: 0 <= k < |states| ==> Differ(states[k]) {
      forall k | 0 <= k < |acts| && acts[k].SetTo? ensures EntersWell(states[k], acts[k].newBodies) {
        assert states[k + 1] == After(name, states[k], acts[k]);
        SetDiffersIff(states[k], acts[k].newBodies);
      }
    }
    if forall k :: 0 <= k < |acts| && acts[k].SetTo? ==> EntersWell(states[k], acts[k].newBodies) {
      var n := 0;
      while n < |acts|
        invariant 0 <= n <= |acts|
        invariant forall k :: 0 <= k <= n ==> Differ(states[k])
      {
        assert states[n + 1] == After(name, states[n], acts[n]);
        ActDiffers(name, states[n], acts[n]);
        n := n + 1;
      }
    }
  }

  lemma ActDiffers(name: nat -> string, s: Naming, a: Act)
    requires Differ(s) && (a.SetTo? ==> EntersWell(s, a.newBodies))
    ensures Differ(After(name, s, a))
  {
    hide Named;
    if a.GetDefault? {
      NamedDiffers(name, s, a.body);
    }
  }

  // ---- bodies --------------------------------------------------------

  class Body {
    const question: Question
    var index: int
    var baseTag: string
    var summary: Option<string>
    var defaultSummary: Option<string>

    ghost predicate Tagged()
      reads this`index, this`baseTag
    {
      baseTag == TagOf(question.baseTag, index)
    }

    constructor (question: Question, index: int, summary: Option<string>)
      ensures Tagged() && this.question == question && this.index == index
      ensures this.summary == summary && defaultSummary == None
    {
      this.question, this.index, this.summary, this.defaultSummary := question, index, summary, None;
      this.baseTag := TagOf(question.baseTag, index);
    }

    method SetIndex(newIndex: int)
      requires Tagged()
      modifies this`index, this`baseTag
      ensures Tagged() && index == newIndex
    {
      if newIndex != index {
        index := newIndex;
        baseTag := TagOf(question.baseTag, index);
      }
    }

    // The name kept, or the first name that no body in the list has after those
    // with a summary of their own gave theirs up.  A body in the list always
    // gets one.
    method GetDefaultSummary(name: nat -> string, ghost all: set<Body>) returns (r: Option<string>)
      requires Injective(name) && this in all && forall b :: b in question.bodies ==> b in all
      modifies this`defaultSummary, question.bodies`defaultSummary
      ensures r == defaultSummary
      ensures old(defaultSummary).Some? ==> r == old(defaultSummary)
      ensures old(defaultSummary).None? && r.Some? ==> forall b :: b in question.bodies && b != this ==> b.defaultSummary != r
      ensures this in question.bodies ==> r.Some?
      ensures question.Names(all) == Named(name, old(question.Names(all)), this)
      ensures old(question.DefaultsDiffer()) ==> question.DefaultsDiffer()
    {
      hide FirstFree, Injective, Named, Question.DefaultsDiffer, Differ;
      ghost var before := question.Names(all);
      question.DifferIs(all);
      if defaultSummary == None {
        FindDefault(name, all);
      } else {
        NamedIs(name, before, this, before);
      }
      r := defaultSummary;
      question.DifferIs(all);
      NamedDiffersToo(name, before, this);
    }

    // Recycle, then search
    method FindDefault(name: nat -> string, ghost all: set<Body>)
      requires defaultSummary == None && Injective(name) && this in all && forall b :: b in question.bodies ==> b in all
      modifies this`defaultSummary, question.bodies`defaultSummary
      ensures defaultSummary.Some? ==> forall b :: b in question.bodies && b != this ==> b.defaultSummary != defaultSummary
      ensures this in question.bodies ==> defaultSummary.Some?
      ensures question.Names(all) == Named(name, old(question.Names(all)), this)
    {
      hide FirstFree, Injective, Named, Kept, TakenIn, Question.Taken;
      ghost var before := question.Names(all);
      question.Recycle();
      KeptIs(before, question.Names(all));
      var unused := question.Unused(name, this);
      question.UnusedIsNew(name, this);
      question.TakenIs(this, all);
      defaultSummary := unused;
      NamedIs(name, before, this, question.Names(all));
    }
  }

  lemma KeptIs(s: Naming, t: Naming)
    requires t.bodies == s.bodies && t.own == s.own && t.defaults.Keys == s.defaults.Keys == s.own.Keys
    requires forall b :: b in s.defaults ==> t.defaults[b] == if b in s.bodies then Recycled(s.defaults[b], s.own[b]) else s.defaults[b]
    ensures t.defaults == Kept(s)
  {
  }

  lemma NamedIs(name: nat -> string, s: Naming, body: Body, t: Naming)
    requires t.bodies == s.bodies && t.own == s.own && body in s.defaults
    requires t.defaults == if s.defaults[body].Some? then s.defaults
                           else Kept(s)[body := FirstFree(name, TakenIn(s.bodies, Kept(s), body), 0, |s.bodies|)]
    ensures t == Named(name, s, body)
  {
  }

  lemma NamedDiffersToo(name: nat -> string, s: Naming, body: Body)
    ensures Differ(s) ==> Differ(Named(name, s, body))
  {
    if Differ(s) {
      NamedDiffers(name, s, body);
    }
  }

  class Question {
    const baseTag: string
    var bodies: seq<Body>
    var value: int

    constructor (baseTag: string)
      ensures this.baseTag == baseTag && bodies == []
    {
      this.baseTag, this.bodies, this.value := baseTag, [], 0;
    }

    ghost function Defaults(): (l: seq<Option<string>>)
      reads this, bodies
      ensures |l| == |bodies| && forall i :: 0 <= i < |bodies| ==> l[i] == bodies[i].defaultSummary
    {
      seq(|bodies|, i requires 0 <= i < |bodies| reads this, bodies => bodies[i].defaultSummary)
    }

    // The default summaries of the bodies in the list, but for one
    ghost function Taken(body: Body): set<string>
      reads this, bodies
    {
      set b | b in bodies && b != body && b.defaultSummary.Some? :: b.defaultSummary.value
    }

    lemma TakenIsPresent(body: Body)
      requires body.defaultSummary == None
      ensures Taken(body) == Present(Defaults())
    {
      var l := Defaults();
      forall s ensures s in Taken(body) <==> s in Present(l) {
        if s in Taken(body) {
          var b :| b in bodies && b.defaultSummary == Some(s);
          var i :| 0 <= i < |bodies| && bodies[i] == b;
          assert l[i] == Some(s);
        }
        if s in Present(l) {
          var i :| 0 <= i < |l| && l[i] == Some(s);
          assert bodies[i] in bodies;
        }
      }
    }

    // No two bodies in the list have the same default summary.
    ghost predicate DefaultsDiffer()
      reads this`bodies, bodies`defaultSummary
    {
      forall b, c :: b in bodies && c in bodies && b != c && b.defaultSummary.Some? ==> b.defaultSummary != c.defaultSummary
    }

    method Recycle()
      modifies bodies`defaultSummary
      ensures forall b :: b in bodies ==> b.defaultSummary == Recycled(old(b.defaultSummary), b.summary)
      ensures forall b :: b in bodies && b.summary.Some? && b.defaultSummary.Some? ==> b.defaultSummary == b.summary
      ensures forall b :: b in bodies && (b.summary.None? || b.summary == old(b.defaultSummary)) ==> b.defaultSummary == old(b.defaultSummary)
    {
      for i := 0 to |bodies|
        invariant forall b :: b in bodies[..i] ==> b.defaultSummary == Recycled(old(b.defaultSummary), b.summary)
        invariant forall b :: b in bodies && b !in bodies[..i] ==> b.defaultSummary == old(b.defaultSummary)
      {
        var b := bodies[i];
        if b.defaultSummary != None && b.summary != None && b.defaultSummary != b.summary {
          b.defaultSummary := None;
        }
        assert bodies[..i + 1] == bodies[..i] + [b];
      }
      assert bodies[..|bodies|] == bodies;
    }

    method HasDefault(s: string) returns (r: bool)
      ensures r <==> exists b :: b in bodies && b.defaultSummary == Some(s)
    {
      r := false;
      for i := 0 to |bodies|
        invariant !r
        invariant forall j :: 0 <= j < i ==> bodies[j].defaultSummary != Some(s)
      {
        if bodies[i].defaultSummary == Some(s) {
          return true;
        }
      }
    }

    method Unused(name: nat -> string, body: Body) returns (r: Option<string>)
      requires body.defaultSummary == None
      ensures r == FirstFree(name, Taken(body), 0, |bodies|)
    {
      for v := 0 to |bodies|
        invariant FirstFree(name, Taken(body), 0, |bodies|) == FirstFree(name, Taken(body), v, |bodies|)
      {
        var used := HasDefault(name(v));
        if !used {
          return Some(name(v));
        }
      }
      return None;
    }

    // An unused name is new, and there is one for a body in the list.
    lemma UnusedIsNew(name: nat -> string, body: Body)
      requires Injective(name) && body.defaultSummary == None
      ensures body in bodies ==> FirstFree(name, Taken(body), 0, |bodies|).Some?
      ensures forall b :: b in bodies && b.defaultSummary.Some? ==> b.defaultSummary != FirstFree(name, Taken(body), 0, |bodies|)
    {
      hide FirstFree, Injective;
      FreeIff(name, Taken(body), 0, |bodies|);
      if body in bodies {
        TakenIsPresent(body);
        PresentFew(Defaults());
        var i :| 0 <= i < |bodies| && bodies[i] == body;
        assert Defaults()[i] == None;
        SomeNameIsFree(name, Taken(body), |bodies|);
      }
    }

    ghost function Names(all: set<Body>): Naming
      reads this`bodies, all`defaultSummary, all`summary
    {
      Naming(bodies, map b | b in all :: b.defaultSummary, map b | b in all :: b.summary)
    }

    lemma TakenIs(body: Body, all: set<Body>)
      requires forall b :: b in bodies ==> b in all
      ensures Taken(body) == TakenIn(bodies, Names(all).defaults, body)
    {
    }

    lemma DifferIs(all: set<Body>)
      requires forall b :: b in bodies ==> b in all
      ensures DefaultsDiffer() <==> Differ(Names(all))
    {
    }

    // Each body records where it is.
    ghost predicate Positioned()
      reads this`bodies, bodies`index
    {
      forall i :: 0 <= i < |bodies| ==> bodies[i].index == i
    }

    ghost predicate TagsUnique()
      reads this`bodies, bodies`baseTag
    {
      forall i, j :: 0 <= i < j < |bodies| ==> bodies[i].baseTag != bodies[j].baseTag
    }

    // Each body records its new position, and has its own tag, exactly when no
    // body is given twice.  Names that differed still do exactly when no body
    // enters with one that is in use.
    method SetBodies(newBodies: seq<Body>, newValue: int, ghost all: set<Body>) returns (edited: bool)
      requires Positioned() && forall b :: b in newBodies ==> b.question == this && b.Tagged()
      requires forall b :: b in bodies || b in newBodies ==> b in all
      modifies this`bodies, this`value, newBodies`index, newBodies`baseTag
      ensures bodies == newBodies && value == newValue
      ensures edited <==> newBodies != old(bodies)
      ensures Positioned() <==> Distinct(newBodies)
      ensures TagsUnique() <==> Distinct(newBodies)
      ensures forall b :: b in newBodies ==> b.Tagged()
      ensures Names(all) == old(Names(all)).(bodies := newBodies)
      ensures old(DefaultsDiffer()) ==> (DefaultsDiffer() <==> EntersWell(old(Names(all)), newBodies))
    {
      hide Positioned, TagsUnique, DefaultsDiffer, Differ, Body.Tagged, Distinct, EntersWell;
      ghost var before := Names(all);
      DifferIs(all);
      edited := Place(newBodies);
      value := newValue;
      assert Names(all) == before.(bodies := newBodies);
      DifferIs(all);
      SetDiffersToo(before, newBodies);
    }

    // Its loop over the bodies
    method Place(newBodies: seq<Body>) returns (edited: bool)
      requires Positioned() && forall b :: b in newBodies ==> b.question == this && b.Tagged()
      modifies this`bodies, newBodies`index, newBodies`baseTag
      ensures bodies == newBodies
      ensures edited <==> newBodies != old(bodies)
      ensures Positioned() <==> Distinct(newBodies)
      ensures TagsUnique() <==> Distinct(newBodies)
      ensures forall b :: b in newBodies ==> b.Tagged()
    {
      hide TagOf, Resized;
      ghost var was := bodies;
      edited := false;
      var slots: seq<Body?> := bodies;
      if |newBodies| != |bodies| {
        slots := Resized(bodies, |newBodies|);
        edited := true;
      }
      for i := 0 to |newBodies|
        invariant |slots| == |newBodies| && slots[..i] == newBodies[..i]
        invariant forall j :: i <= j < |newBodies| ==> slots[j] == if j < |was| then was[j] else null
        invariant edited <==> |newBodies| != |was| || newBodies[..i] != was[..i]
        invariant forall b :: b in newBodies ==> b.Tagged()
        invariant Distinct(newBodies) ==> forall j :: 0 <= j < i ==> newBodies[j].index == j
        invariant Distinct(newBodies) ==> forall j :: i <= j < |newBodies| && j < |was| && newBodies[j] == was[j] ==> newBodies[j].index == j
      {
        var b := newBodies[i];
        if b != slots[i] {
          b.SetIndex(i);
          slots := slots[i := b];
          edited := true;
        }
        assert newBodies[..i + 1] == newBodies[..i] + [b];
        assert |newBodies| == |was| ==> was[..i + 1] == was[..i] + [was[i]];
      }
      bodies := newBodies;
      assert newBodies[..|newBodies|] == newBodies && was[..|was|] == was;
      TagsFollow();
    }

    // Where distinct bodies record where they are, their tags differ.
    lemma TagsFollow()
      requires Distinct(bodies) ==> Positioned()
      requires forall b :: b in bodies ==> b.question == this && b.Tagged()
      ensures Positioned() <==> Distinct(bodies)
      ensures TagsUnique() <==> Distinct(bodies)
    {
      hide TagOf;
      forall i, j | 0 <= i < j < |bodies| && bodies[i].baseTag == bodies[j].baseTag ensures bodies[i].index == bodies[j].index {
        assert bodies[i] in bodies && bodies[j] in bodies;
        TagsDiffer(baseTag, bodies[i].index, bodies[j].index);
      }
    }
  }

  lemma SetDiffersToo(s: Naming, newBodies: seq<Body>)
    ensures Differ(s) ==> (Differ(s.(bodies := newBodies)) <==> EntersWell(s, newBodies))
  {
    if Differ(s) {
      SetDiffersIff(s, newBodies);
    }
  }

  ghost predicate Distinct(s: seq<Body>) { forall i, j :: 0 <= i < j < |s| ==> s[i] != s[j] }

  // Vector.setSize
  function Resized(s: seq<Body>, n: nat): (r: seq<Body?>)
    ensures |r| == n && forall i :: 0 <= i < n ==> r[i] == if i < |s| then s[i] else null
  {
    if n <= |s| then s[..n] else s + seq(n - |s|, i => null)
  }

  // A body taken out keeps its name while another gets the same one; put back,
  // the two are not told apart.
  lemma Rejoin(name: nat -> string, s: Naming, a: Body, b: Body)
    requires a != b && s.bodies == [a, b] && a in s.defaults && b in s.defaults
    requires s.defaults[a] == None && s.defaults[b] == None && Lookup(s.own, a) == None
    ensures var out := Named(name, s, a).(bodies := [b]);
      var back := Named(name, out, b).(bodies := [a, b]);
      Lookup(back.defaults, a) == Lookup(back.defaults, b) == Some(name(0)) && !EntersWell(Named(name, out, b), [a, b])
  {
    hide FirstFree;
    var named := Named(name, s, a);
    var out := named.(bodies := [b]);
    FirstIsFree(name, TakenIn(s.bodies, Kept(s), a), 2);
    FirstIsFree(name, TakenIn(out.bodies, Kept(out), b), 1);
    assert a in [a, b] && b in [a, b];
  }

  lemma FirstIsFree(name: nat -> string, taken: set<string>, n: nat)
    requires taken == {} && n > 0
    ensures FirstFree(name, taken, 0, n) == Some(name(0))
  {
  }
}
