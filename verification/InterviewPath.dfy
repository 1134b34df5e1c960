// Moving through an interview: next, prev, getCurrentQuestion, getPath and
// getPathToCurrent.  The path of an interview lists its questions; a question
// that stands for a nested interview has a path of its own below it, and each
// interview has a cursor into its path.
//
// An interview is known by a number; path, caller and currIndex, the fields of
// every interview, are maps from it.
module InterviewPath {

  type Id = nat

  datatype Question = Plain(name: nat) | Final(name: nat) | Nested(name: nat, target: Id)

  datatype Option<+T> = None | Some(value: T)

  type Cursors = map<Id, int>

  // The interviews on the path of root.  depth says how deep they are nested,
  // and height bounds it.
  datatype Shape = Shape(root: Id, path: map<Id, seq<Question>>, caller: map<Id, Id>, depth: map<Id, nat>, height: nat)

  predicate NestedAt(sh: Shape, i: Id, k: int, t: Id) {
    i in sh.path && 0 <= k < |sh.path[i]| && sh.path[i][k].Nested? && sh.path[i][k].target == t
  }

  // The interview that called i
  predicate CalledBy(sh: Shape, t: Id, i: Id) {
    && t in sh.path && i in sh.path && t in sh.caller && sh.caller[t] == i
    && t in sh.depth && i in sh.depth && sh.depth[t] == sh.depth[i] + 1
  }

  ghost predicate Rooted(sh: Shape) {
    && sh.root in sh.path && sh.root !in sh.caller && sh.depth.Keys == sh.path.Keys && sh.depth[sh.root] == 0
    && (forall i :: i in sh.path ==> sh.path[i] != [] && sh.depth[i] <= sh.height)
    && (forall t :: t in sh.path && t != sh.root ==> t in sh.caller && exists k :: NestedAt(sh, sh.caller[t], k, t))
  }

  // The paths are not empty, a FinalQuestion is only the last of one, each
  // interview on them but the root is nested in exactly one place, and its
  // caller is set to that place.
  ghost predicate WellFormed(sh: Shape) {
    && Rooted(sh)
    && (forall i, k, t :: NestedAt(sh, i, k, t) ==> CalledBy(sh, t, i))
    && (forall i, k, l, t :: NestedAt(sh, i, k, t) && NestedAt(sh, i, l, t) ==> k == l)
    && (forall i, k :: i in sh.path && 0 <= k < |sh.path[i]| - 1 ==> !sh.path[i][k].Final?)
  }

  // Prediction goes on after a nested interview only when that has ended.
  ghost predicate Ended(sh: Shape) {
    forall i, k, t :: NestedAt(sh, i, k, t) && k < |sh.path[i]| - 1 && t in sh.path && sh.path[t] != [] ==> sh.path[t][|sh.path[t]| - 1].Final?
  }

  // ---- counting ------------------------------------------------------

  // With e == 0, how many questions an entry of a path stands for when nested
  // interviews are expanded; with e == 1, how many steps it takes to walk over
  // it, entering and leaving being steps.
  function Weight(sh: Shape, e: nat, i: Id, k: nat): nat
    requires WellFormed(sh) && i in sh.path && k < |sh.path[i]|
    decreases sh.height - sh.depth[i], k, 0
  {
    match sh.path[i][k]
    case Plain(_) => 1
    case Final(_) => e
    case Nested(_, t) =>
      assert NestedAt(sh, i, k, t) && CalledBy(sh, t, i);
      2 * e + Before(sh, e, t, |sh.path[t]|)
  }

  function Before(sh: Shape, e: nat, i: Id, k: nat): nat
    requires WellFormed(sh) && i in sh.path && k <= |sh.path[i]|
    decreases sh.height - sh.depth[i], k, 1
  {
    if k == 0 then 0 else Before(sh, e, i, k - 1) + Weight(sh, e, i, k - 1)
  }

  function Total(sh: Shape, e: nat, i: Id): nat
    requires WellFormed(sh) && i in sh.path
  {
    Before(sh, e, i, |sh.path[i]|)
  }

  // Where a nested interview stands in its caller's path
  ghost function Index(sh: Shape, t: Id): (k: nat)
    requires WellFormed(sh) && t in sh.path && t != sh.root
    ensures t in sh.caller && NestedAt(sh, sh.caller[t], k, t) && CalledBy(sh, t, sh.caller[t])
  {
    var k :| NestedAt(sh, sh.caller[t], k, t);
    k
  }

  // What comes before an interview
  ghost function Start(sh: Shape, e: nat, i: Id): nat
    requires WellFormed(sh) && i in sh.path
    decreases sh.depth[i]
  {
    if i == sh.root then 0
    else Start(sh, e, sh.caller[i]) + Before(sh, e, sh.caller[i], Index(sh, i)) + e
  }

  lemma {:induction false} BeforeMono(sh: Shape, e: nat, i: Id, j: nat, k: nat)
    requires WellFormed(sh) && i in sh.path && j <= k <= |sh.path[i]|
    ensures Before(sh, e, i, j) <= Before(sh, e, i, k)
    ensures forall l :: j <= l < k ==> Before(sh, e, i, j) <= Before(sh, e, i, l)
    decreases k
  {
    hide WellFormed, Weight;
    if j < k {
      BeforeMono(sh, e, i, j, k - 1);
    }
  }

  lemma NestedWeight(sh: Shape, e: nat, t: Id)
    requires WellFormed(sh) && t in sh.path && t != sh.root
    ensures var i, k := sh.caller[t], Index(sh, t);
      && Before(sh, e, i, k + 1) == Before(sh, e, i, k) + 2 * e + Total(sh, e, t)
      && Start(sh, e, t) == Start(sh, e, i) + Before(sh, e, i, k) + e
      && Start(sh, e, i) <= Start(sh, e, t) && Start(sh, e, t) + Total(sh, e, t) + e <= Start(sh, e, i) + Total(sh, e, i)
  {
    var i, k := sh.caller[t], Index(sh, t);
    BeforeMono(sh, e, i, k + 1, |sh.path[i]|);
  }

  // Everything below the root lies within it.
  lemma {:induction false} WithinRoot(sh: Shape, e: nat, i: Id)
    requires WellFormed(sh) && i in sh.path
    ensures Start(sh, e, i) + Total(sh, e, i) <= Total(sh, e, sh.root)
    decreases sh.depth[i]
  {
    if i != sh.root {
      NestedWeight(sh, e, i);
      assert CalledBy(sh, i, sh.caller[i]);
      hide WellFormed;
      WithinRoot(sh, e, sh.caller[i]);
    }
  }

  // ---- where the cursors are -----------------------------------------

  ghost predicate HasCursors(sh: Shape, cur: Cursors) { sh.path.Keys <= cur.Keys }

  // Each cursor from the root down points at the next interview, down to i.
  ghost predicate Chain(sh: Shape, cur: Cursors, i: Id)
    requires WellFormed(sh) && HasCursors(sh, cur) && i in sh.path
    decreases sh.depth[i]
  {
    i == sh.root || (cur[sh.caller[i]] == Index(sh, i) && Chain(sh, cur, sh.caller[i]))
  }

  // The place before entry k of interview i
  ghost function Place(sh: Shape, e: nat, i: Id, k: nat): nat
    requires WellFormed(sh) && i in sh.path && k <= |sh.path[i]|
  {
    Start(sh, e, i) + Before(sh, e, i, k)
  }

  // Below an interview that has been left behind, every cursor is at the end.
  ghost predicate Settled(sh: Shape, cur: Cursors, place: nat)
    requires WellFormed(sh) && HasCursors(sh, cur)
  {
    forall t :: t in sh.path && Start(sh, 1, t) + Total(sh, 1, t) < place ==> cur[t] == |sh.path[t]| - 1
  }

  // The current question is entry cur[i] of i.
  ghost predicate Located(sh: Shape, cur: Cursors, i: Id)
    requires WellFormed(sh)
  {
    && HasCursors(sh, cur) && i in sh.path && Chain(sh, cur, i) && 0 <= cur[i] < |sh.path[i]|
    && !sh.path[i][cur[i]].Nested? && (sh.path[i][cur[i]].Final? ==> i == sh.root)
    && Settled(sh, cur, Place(sh, 1, i, cur[i]))
  }

  // The places of an interview's entries lie between its start and its end.
  lemma PlaceWithin(sh: Shape, e: nat, i: Id, k: nat)
    requires WellFormed(sh) && i in sh.path && k <= |sh.path[i]|
    ensures Start(sh, e, i) <= Place(sh, e, i, k) <= Start(sh, e, i) + Total(sh, e, i) <= Total(sh, e, sh.root)
  {
    hide WellFormed;
    BeforeMono(sh, e, i, k, |sh.path[i]|);
    WithinRoot(sh, e, i);
  }

  // The cursors below and beside the chain do not matter to it.
  lemma {:induction false} ChainKept(sh: Shape, cur: Cursors, i: Id, x: Id, v: int)
    requires WellFormed(sh) && HasCursors(sh, cur) && i in sh.path && x in sh.path && Chain(sh, cur, i) && sh.depth[i] <= sh.depth[x]
    ensures Chain(sh, cur[x := v], i)
    decreases sh.depth[i]
  {
    if i != sh.root {
      assert CalledBy(sh, i, sh.caller[i]);
      hide WellFormed;
      ChainKept(sh, cur, sh.caller[i], x, v);
    }
  }

  lemma SettledKept(sh: Shape, cur: Cursors, place: nat, i: Id, k: nat, v: int)
    requires WellFormed(sh) && HasCursors(sh, cur) && Settled(sh, cur, place) && i in sh.path && k <= |sh.path[i]|
    requires place <= Place(sh, 1, i, k)
    ensures Settled(sh, cur[i := v], place)
  {
    hide WellFormed;
    PlaceWithin(sh, 1, i, k);
  }

  // ---- no two interviews overlap -------------------------------------

  // Walking the paths, an interview lies within one entry of another, or
  // beside it.
  lemma {:induction false} Separate(sh: Shape, u: Id, i: Id) returns (l: int)
    requires WellFormed(sh) && u in sh.path && i in sh.path && sh.depth[u] >= sh.depth[i]
    ensures u == i || Start(sh, 1, u) + Total(sh, 1, u) < Start(sh, 1, i) || Start(sh, 1, i) + Total(sh, 1, i) < Start(sh, 1, u)
      || (sh.depth[u] > sh.depth[i] && 0 <= l < |sh.path[i]|
          && Place(sh, 1, i, l) < Start(sh, 1, u) && Start(sh, 1, u) + Total(sh, 1, u) < Place(sh, 1, i, l + 1))
    decreases sh.depth[u]
  {
    l := 0;
    if u != i && u != sh.root {
      var c, k := sh.caller[u], Index(sh, u);
      NestedWeight(sh, 1, u);
      if sh.depth[u] > sh.depth[i] {
        l := Separate(sh, c, i);
        l := if c == i then k else l;
      } else if i != sh.root {
        BesideEqual(sh, u, i);
      }
    }
  }

  lemma {:induction false} BesideEqual(sh: Shape, u: Id, i: Id)
    requires WellFormed(sh) && u in sh.path && i in sh.path && sh.depth[u] == sh.depth[i] && u != i && u != sh.root && i != sh.root
    ensures Start(sh, 1, u) + Total(sh, 1, u) < Start(sh, 1, i) || Start(sh, 1, i) + Total(sh, 1, i) < Start(sh, 1, u)
    decreases sh.depth[u]
  {
    var c, k, d, j := sh.caller[u], Index(sh, u), sh.caller[i], Index(sh, i);
    assert CalledBy(sh, u, c) && CalledBy(sh, i, d);
    NestedWeight(sh, 1, u);
    NestedWeight(sh, 1, i);
    if c == d {
      if k < j {
        BeforeMono(sh, 1, c, k + 1, j);
      } else if j < k {
        BeforeMono(sh, 1, c, j + 1, k);
      }
    } else if c != sh.root && d != sh.root {
      hide WellFormed;
      BesideEqual(sh, c, d);
    } else {
      AtDepthZero(sh, c);
      AtDepthZero(sh, d);
    }
  }

  lemma AtDepthZero(sh: Shape, i: Id)
    requires WellFormed(sh) && i in sh.path
    ensures sh.depth[i] == 0 <==> i == sh.root
  {
    if i != sh.root {
      assert CalledBy(sh, i, sh.caller[i]) by { var k := Index(sh, i); }
    }
  }

  lemma OneStep(sh: Shape, i: Id, k: nat)
    requires WellFormed(sh) && i in sh.path && k < |sh.path[i]|
    ensures Place(sh, 1, i, k) < Place(sh, 1, i, k + 1) <= Start(sh, 1, i) + Total(sh, 1, i)
  {
    BeforeMono(sh, 1, i, k + 1, |sh.path[i]|);
  }

  lemma OneQuestion(sh: Shape, e: nat, i: Id, k: nat)
    requires WellFormed(sh) && i in sh.path && k < |sh.path[i]| && !sh.path[i][k].Nested?
    ensures Place(sh, e, i, k + 1) == Place(sh, e, i, k) + if sh.path[i][k].Plain? then 1 else e
  {
    assert Weight(sh, e, i, k) == if sh.path[i][k].Plain? then 1 else e;
    assert Before(sh, e, i, k + 1) == Before(sh, e, i, k) + Weight(sh, e, i, k);
  }

  // No interview ends where an entry is.
  lemma EndsElsewhere(sh: Shape, u: Id, i: Id, k: nat)
    requires WellFormed(sh) && u in sh.path && i in sh.path && k < |sh.path[i]|
    ensures Start(sh, 1, u) + Total(sh, 1, u) != Place(sh, 1, i, k)
  {
    assert u in sh.depth && i in sh.depth;
    hide WellFormed, Before, Weight, Start, Total, Place;
    OneStep(sh, i, k);
    PlaceWithin(sh, 1, i, k);
    PlaceWithin(sh, 1, u, 0);
    if sh.depth[u] >= sh.depth[i] {
      var l := Separate(sh, u, i);
      if 0 <= l < |sh.path[i]| {
        PlaceMono(sh, i, l, k);
      }
    } else {
      var l := Separate(sh, i, u);
      if 0 <= l < |sh.path[u]| {
        OneStep(sh, u, l);
      }
    }
  }

  lemma PlaceMono(sh: Shape, i: Id, j: nat, k: nat)
    requires WellFormed(sh) && i in sh.path && j < |sh.path[i]| && k <= |sh.path[i]|
    ensures if k <= j then Place(sh, 1, i, k) <= Place(sh, 1, i, j) else Place(sh, 1, i, j + 1) <= Place(sh, 1, i, k)
  {
    if k <= j {
      BeforeMono(sh, 1, i, k, j);
    } else {
      BeforeMono(sh, 1, i, j + 1, k);
    }
  }

  lemma EndsDiffer(sh: Shape, u: Id, t: Id)
    requires WellFormed(sh) && u in sh.path && t in sh.path && u != t
    ensures Start(sh, 1, u) + Total(sh, 1, u) != Start(sh, 1, t) + Total(sh, 1, t)
  {
    if sh.depth[u] >= sh.depth[t] {
      DeeperEndsElsewhere(sh, u, t);
    } else {
      DeeperEndsElsewhere(sh, t, u);
    }
  }

  lemma DeeperEndsElsewhere(sh: Shape, u: Id, t: Id)
    requires WellFormed(sh) && u in sh.path && t in sh.path && u != t && sh.depth[u] >= sh.depth[t]
    ensures Start(sh, 1, u) + Total(sh, 1, u) != Start(sh, 1, t) + Total(sh, 1, t)
  {
    hide WellFormed, Before, Weight, Start, Total, Place;
    var l := Separate(sh, u, t);
    PlaceWithin(sh, 1, u, 0);
    PlaceWithin(sh, 1, t, 0);
    if 0 <= l < |sh.path[t]| {
      OneStep(sh, t, l);
    }
  }

  // ---- next ----------------------------------------------------------

  // Where next has got to: entry cur[i] of i is to be looked at.
  ghost predicate Walking(sh: Shape, cur: Cursors, i: Id)
    requires WellFormed(sh)
  {
    && HasCursors(sh, cur) && i in sh.path && Chain(sh, cur, i) && 0 <= cur[i] <= |sh.path[i]|
    && Settled(sh, cur, Place(sh, 1, i, cur[i]))
  }

  // One place on, nothing more is left behind.
  lemma SettledOn(sh: Shape, cur: Cursors, i: Id, k: nat)
    requires WellFormed(sh) && HasCursors(sh, cur) && i in sh.path && k < |sh.path[i]| && Settled(sh, cur, Place(sh, 1, i, k))
    ensures Settled(sh, cur, Place(sh, 1, i, k) + 1)
  {
    forall t | t in sh.path && Start(sh, 1, t) + Total(sh, 1, t) < Place(sh, 1, i, k) + 1 ensures cur[t] == |sh.path[t]| - 1 {
      EndsElsewhere(sh, t, i, k);
    }
  }

  // i.currIndex++ past a question
  lemma StepOver(sh: Shape, cur: Cursors, i: Id)
    requires WellFormed(sh) && Walking(sh, cur, i) && cur[i] < |sh.path[i]| && !sh.path[i][cur[i]].Nested?
    ensures Walking(sh, cur[i := cur[i] + 1], i)
    ensures Place(sh, 0, i, cur[i] + 1) == Place(sh, 0, i, cur[i]) + if sh.path[i][cur[i]].Plain? then 1 else 0
  {
    hide WellFormed, Before, Weight, Start, Settled, Chain, Place;
    OneQuestion(sh, 0, i, cur[i]);
    OneQuestion(sh, 1, i, cur[i]);
    SettledOn(sh, cur, i, cur[i]);
    ChainKept(sh, cur, i, i, cur[i] + 1);
    SettledKept(sh, cur, Place(sh, 1, i, cur[i] + 1), i, cur[i] + 1, cur[i] + 1);
  }

  // Into a nested interview
  lemma Enter(sh: Shape, cur: Cursors, i: Id)
    requires WellFormed(sh) && Walking(sh, cur, i) && cur[i] < |sh.path[i]| && sh.path[i][cur[i]].Nested?
    ensures var t := sh.path[i][cur[i]].target;
      && t in sh.path && Walking(sh, cur[t := 0], t)
      && Place(sh, 0, t, 0) == Place(sh, 0, i, cur[i]) && Place(sh, 1, t, 0) == Place(sh, 1, i, cur[i]) + 1
  {
    var t := sh.path[i][cur[i]].target;
    assert NestedAt(sh, i, cur[i], t) && CalledBy(sh, t, i) && t != sh.root && Index(sh, t) == cur[i];
    hide WellFormed;
    NestedWeight(sh, 0, t);
    NestedWeight(sh, 1, t);
    ChainKept(sh, cur, t, t, 0);
    SettledOn(sh, cur, i, cur[i]);
    SettledKept(sh, cur, Place(sh, 1, t, 0), t, 0, 0);
  }

  // Out of one, at its FinalQuestion
  lemma Leave(sh: Shape, cur: Cursors, i: Id)
    requires WellFormed(sh) && Walking(sh, cur, i) && i != sh.root && cur[i] == |sh.path[i]| - 1 && sh.path[i][cur[i]].Final?
    ensures var c := sh.caller[i];
      && c in sh.path && cur[c] == Index(sh, i) && Walking(sh, cur[c := cur[c] + 1], c)
      && Place(sh, 0, c, cur[c] + 1) == Place(sh, 0, i, cur[i]) && Place(sh, 1, c, cur[c] + 1) > Place(sh, 1, i, cur[i])
  {
    hide WellFormed, Before, Weight, Start, Total, Settled, Chain, Place;
    WalkedTo(sh, cur, i);
    LeavePlaces(sh, i);
    LeaveSettles(sh, cur, i);
    WalkFrom(sh, cur, sh.caller[i], Index(sh, i) + 1);
  }

  // The cursor of the caller
  lemma WalkedTo(sh: Shape, cur: Cursors, i: Id)
    requires WellFormed(sh) && HasCursors(sh, cur) && i in sh.path && i != sh.root && Chain(sh, cur, i)
    ensures i in sh.caller && sh.caller[i] in sh.path && sh.caller[i] in cur
    ensures cur[sh.caller[i]] == Index(sh, i) < |sh.path[sh.caller[i]]| && Chain(sh, cur, sh.caller[i])
  {
    assert NestedAt(sh, sh.caller[i], Index(sh, i), i);
  }

  lemma WalkFrom(sh: Shape, cur: Cursors, i: Id, k: nat)
    requires WellFormed(sh) && HasCursors(sh, cur) && i in sh.path && Chain(sh, cur, i) && k <= |sh.path[i]|
    requires Settled(sh, cur, Place(sh, 1, i, k))
    ensures Walking(sh, cur[i := k], i)
  {
    hide WellFormed, Before, Weight, Start, Place;
    ChainKept(sh, cur, i, i, k);
    SettledKept(sh, cur, Place(sh, 1, i, k), i, k, k);
  }

  lemma LeaveSettles(sh: Shape, cur: Cursors, i: Id)
    requires WellFormed(sh) && Walking(sh, cur, i) && i != sh.root && cur[i] == |sh.path[i]| - 1 && sh.path[i][cur[i]].Final?
    ensures Settled(sh, cur, Place(sh, 1, sh.caller[i], Index(sh, i) + 1))
  {
    LeavePlaces(sh, i);
    SettledOn(sh, cur, i, cur[i]);
    hide WellFormed, Before, Weight, Start, Chain, Place;
    var place := Place(sh, 1, sh.caller[i], Index(sh, i) + 1);
    forall u | u in sh.path && Start(sh, 1, u) + Total(sh, 1, u) < place ensures cur[u] == |sh.path[u]| - 1 {
      if u != i {
        EndsDiffer(sh, u, i);
      }
    }
  }

  lemma LeavePlaces(sh: Shape, i: Id)
    requires WellFormed(sh) && i in sh.path && i != sh.root && sh.path[i][|sh.path[i]| - 1].Final?
    ensures var c, k, last := sh.caller[i], Index(sh, i), |sh.path[i]| - 1;
      && Place(sh, 0, c, k + 1) == Place(sh, 0, i, last)
      && Place(sh, 1, c, k + 1) == Place(sh, 1, i, last) + 2 == Start(sh, 1, i) + Total(sh, 1, i) + 1
  {
    NestedWeight(sh, 0, i);
    NestedWeight(sh, 1, i);
    OneQuestion(sh, 0, i, |sh.path[i]| - 1);
    OneQuestion(sh, 1, i, |sh.path[i]| - 1);
    hide WellFormed, Before, Weight, Start;
  }

  // What a move leaves in the cursors, and whether it succeeds
  datatype Moved = Moved(cur: Cursors, ok: bool)

  // The interview reached by stepping in from interview a
  function Bottom(sh: Shape, cur: Cursors, a: Id): (i: Id)
    requires WellFormed(sh) && HasCursors(sh, cur) && a in sh.path
    ensures i in sh.path
    decreases sh.height - sh.depth[a]
  {
    if 0 <= cur[a] < |sh.path[a]| && sh.path[a][cur[a]].Nested? then
      assert NestedAt(sh, a, cur[a], sh.path[a][cur[a]].target);
      Bottom(sh, cur, sh.path[a][cur[a]].target)
    else a
  }

  // There is a current question.
  ghost predicate Positioned(sh: Shape, cur: Cursors)
    requires WellFormed(sh)
  {
    HasCursors(sh, cur) && Located(sh, cur, Bottom(sh, cur, sh.root))
  }

  lemma {:induction false} ChainReaches(sh: Shape, cur: Cursors, i: Id)
    requires WellFormed(sh) && HasCursors(sh, cur) && i in sh.path && Chain(sh, cur, i)
    ensures Bottom(sh, cur, sh.root) == Bottom(sh, cur, i)
    decreases sh.depth[i]
  {
    if i != sh.root {
      WalkedTo(sh, cur, i);
      assert NestedAt(sh, sh.caller[i], Index(sh, i), i) && CalledBy(sh, i, sh.caller[i]);
      ChainReaches(sh, cur, sh.caller[i]);
    }
  }

  lemma LocatedIsBottom(sh: Shape, cur: Cursors, i: Id)
    requires WellFormed(sh) && Located(sh, cur, i)
    ensures Bottom(sh, cur, sh.root) == i && Positioned(sh, cur)
  {
    ChainReaches(sh, cur, i);
  }

  // How many questions are before the current one
  ghost function Position(sh: Shape, cur: Cursors): nat
    requires WellFormed(sh) && Positioned(sh, cur)
  {
    var i := Bottom(sh, cur, sh.root);
    Place(sh, 0, i, cur[i])
  }

  // The loop that normalizes the result of next
  ghost function Forward(sh: Shape, cur: Cursors, i: Id): Moved
    requires WellFormed(sh) && Walking(sh, cur, i)
    decreases Total(sh, 1, sh.root) - Place(sh, 1, i, cur[i])
  {
    if cur[i] == |sh.path[i]| then Moved(cur[i := cur[i] - 1], false)
    else
      match sh.path[i][cur[i]]
      case Nested(_, t) =>
        Enter(sh, cur, i);
        PlaceWithin(sh, 1, t, 0);
        Forward(sh, cur[t := 0], t)
      case Final(_) =>
        if i in sh.caller then
          FinalIsLast(sh, i, cur[i]);
          Leave(sh, cur, i);
          PlaceWithin(sh, 1, sh.caller[i], cur[sh.caller[i]] + 1);
          Forward(sh, cur[sh.caller[i] := cur[sh.caller[i]] + 1], sh.caller[i])
        else Moved(cur, true)
      case Plain(_) => Moved(cur, true)
  }

  lemma FinalIsLast(sh: Shape, i: Id, k: nat)
    requires WellFormed(sh) && i in sh.path && k < |sh.path[i]| && sh.path[i][k].Final?
    ensures k == |sh.path[i]| - 1
    ensures i in sh.caller <==> i != sh.root
  {
  }

  ghost function NextMove(sh: Shape, cur: Cursors): Moved
    requires WellFormed(sh) && Positioned(sh, cur)
  {
    var i := Bottom(sh, cur, sh.root);
    StepOver(sh, cur, i);
    Forward(sh, cur[i := cur[i] + 1], i)
  }

  // Where next stops is the question it looks for.
  lemma {:induction false} ForwardArrives(sh: Shape, cur: Cursors, i: Id)
    requires WellFormed(sh) && Walking(sh, cur, i)
    ensures var m := Forward(sh, cur, i);
      m.ok ==> Positioned(sh, m.cur) && Position(sh, m.cur) == Place(sh, 0, i, cur[i])
    decreases Total(sh, 1, sh.root) - Place(sh, 1, i, cur[i])
  {
    hide WellFormed, Before, Weight, Start, Total, Settled, Chain, Place;
    if cur[i] < |sh.path[i]| {
      match sh.path[i][cur[i]] {
        case Nested(_, t) =>
          Enter(sh, cur, i);
          PlaceWithin(sh, 1, t, 0);
          ForwardArrives(sh, cur[t := 0], t);
        case Final(_) =>
          FinalIsLast(sh, i, cur[i]);
          if i in sh.caller {
            Leave(sh, cur, i);
            PlaceWithin(sh, 1, sh.caller[i], cur[sh.caller[i]] + 1);
            ForwardArrives(sh, cur[sh.caller[i] := cur[sh.caller[i]] + 1], sh.caller[i]);
          } else {
            LocatedIsBottom(sh, cur, i);
          }
        case Plain(_) => LocatedIsBottom(sh, cur, i);
      }
    }
  }

  // The number of questions on the path
  function PathLength(sh: Shape): nat
    requires WellFormed(sh)
  {
    Total(sh, 0, sh.root) + if sh.path[sh.root][|sh.path[sh.root]| - 1].Final? then 1 else 0
  }

  // What has not ended has nothing after it.
  lemma {:induction false} UnendedIsLast(sh: Shape, i: Id)
    requires WellFormed(sh) && Ended(sh) && i in sh.path && !sh.path[i][|sh.path[i]| - 1].Final?
    ensures Place(sh, 0, i, |sh.path[i]|) == PathLength(sh)
    decreases sh.depth[i]
  {
    if i != sh.root {
      var c, k := sh.caller[i], Index(sh, i);
      assert NestedAt(sh, c, k, i) && CalledBy(sh, i, c);
      assert k == |sh.path[c]| - 1;
      NestedWeight(sh, 0, i);
      UnendedIsLast(sh, c);
    }
  }

  lemma NotEmpty(sh: Shape, i: Id)
    requires WellFormed(sh) && i in sh.path
    ensures sh.path[i] != []
  {
  }

  lemma {:induction false} ForwardFails(sh: Shape, cur: Cursors, i: Id)
    requires WellFormed(sh) && Walking(sh, cur, i) && Ended(sh) && (cur[i] > 0 ==> !sh.path[i][cur[i] - 1].Final?)
    ensures !Forward(sh, cur, i).ok ==> Place(sh, 0, i, cur[i]) == PathLength(sh)
    decreases Total(sh, 1, sh.root) - Place(sh, 1, i, cur[i])
  {
    hide WellFormed, Before, Weight, Start, Total, Settled, Chain, Place, Ended, PathLength;
    if cur[i] == |sh.path[i]| {
      NotEmpty(sh, i);
      UnendedIsLast(sh, i);
    } else {
      match sh.path[i][cur[i]] {
        case Nested(_, t) =>
          Enter(sh, cur, i);
          PlaceWithin(sh, 1, t, 0);
          ForwardFails(sh, cur[t := 0], t);
        case Final(_) =>
          FinalIsLast(sh, i, cur[i]);
          if i in sh.caller {
            Leave(sh, cur, i);
            WalkedTo(sh, cur, i);
            PlaceWithin(sh, 1, sh.caller[i], cur[sh.caller[i]] + 1);
            ForwardFails(sh, cur[sh.caller[i] := cur[sh.caller[i]] + 1], sh.caller[i]);
          }
        case Plain(_) =>
      }
    }
  }

  lemma PositionWithin(sh: Shape, cur: Cursors)
    requires WellFormed(sh) && Positioned(sh, cur)
    ensures Position(sh, cur) < PathLength(sh)
    ensures var i := Bottom(sh, cur, sh.root);
      && (sh.path[i][cur[i]].Final? ==> Position(sh, cur) == PathLength(sh) - 1)
  {
    var i := Bottom(sh, cur, sh.root);
    if sh.path[i][cur[i]].Final? {
      FinalIsLast(sh, i, cur[i]);
      OneQuestion(sh, 0, i, cur[i]);
    } else {
      OneQuestion(sh, 0, i, cur[i]);
      PlaceWithin(sh, 0, i, cur[i] + 1);
    }
  }

  lemma RootOnPath(sh: Shape)
    requires WellFormed(sh)
    ensures sh.root in sh.path && sh.path[sh.root] != []
  {
  }

  lemma ForwardAtEnd(sh: Shape, cur: Cursors, i: Id)
    requires WellFormed(sh) && Walking(sh, cur, i) && cur[i] == |sh.path[i]|
    ensures !Forward(sh, cur, i).ok
  {
  }

  // At the end of an interview that has not ended, or of the root, next fails
  // and leaves every cursor as it was.
  lemma NextAtEnd(sh: Shape, cur: Cursors)
    requires WellFormed(sh) && Positioned(sh, cur)
    requires var i := Bottom(sh, cur, sh.root); cur[i] == |sh.path[i]| - 1
    ensures var i := Bottom(sh, cur, sh.root);
      (i == sh.root || !sh.path[i][cur[i]].Final?) && NextMove(sh, cur) == Moved(cur, false)
  {
    var i := Bottom(sh, cur, sh.root);
    StepOver(sh, cur, i);
    hide WellFormed, Before, Weight, Start, Total, Settled, Chain, Place;
    assert cur[i := cur[i] + 1][i := cur[i]] == cur;
  }

  // A next that succeeds moves by one question; when prediction has gone on
  // only after interviews that ended, it fails exactly at the last question.
  lemma NextMoves(sh: Shape, cur: Cursors)
    requires WellFormed(sh) && Positioned(sh, cur)
    ensures var m := NextMove(sh, cur);
      && (m.ok ==> Positioned(sh, m.cur) && Position(sh, m.cur) == Position(sh, cur) + 1)
      && (Ended(sh) ==> (m.ok <==> Position(sh, cur) + 1 < PathLength(sh)))
  {
    RootOnPath(sh);
    hide WellFormed, Before, Weight, Start, Total, Settled, Chain, Place, Forward, Bottom, PathLength;
    var i := Bottom(sh, cur, sh.root);
    var cur1 := cur[i := cur[i] + 1];
    PositionWithin(sh, cur);
    StepOver(sh, cur, i);
    ForwardArrives(sh, cur1, i);
    if sh.path[i][cur[i]].Final? {
      FinalIsLast(sh, i, cur[i]);
      ForwardAtEnd(sh, cur1, i);
    } else if Ended(sh) {
      ForwardFails(sh, cur1, i);
    }
    if NextMove(sh, cur).ok {
      PositionWithin(sh, NextMove(sh, cur).cur);
    }
  }

  // ---- prev ----------------------------------------------------------

  // Where prev has got to: entry cur[i] of i is to be looked at.
  ghost predicate Returning(sh: Shape, cur: Cursors, i: Id)
    requires WellFormed(sh)
  {
    && HasCursors(sh, cur) && i in sh.path && Chain(sh, cur, i) && -1 <= cur[i] < |sh.path[i]|
    && Settled(sh, cur, Place(sh, 1, i, cur[i] + 1))
  }

  // What prev has still to walk over
  ghost function BackLeft(sh: Shape, cur: Cursors, i: Id): nat
    requires WellFormed(sh) && Returning(sh, cur, i)
  {
    Place(sh, 1, i, cur[i] + 1)
  }

  lemma ReturnFrom(sh: Shape, cur: Cursors, i: Id, k: nat, place: nat)
    requires WellFormed(sh) && HasCursors(sh, cur) && i in sh.path && Chain(sh, cur, i) && k <= |sh.path[i]|
    requires Settled(sh, cur, place) && Place(sh, 1, i, k) <= place
    ensures Returning(sh, cur[i := k - 1], i)
  {
    hide WellFormed, Before, Weight, Start, Place;
    ChainKept(sh, cur, i, i, k - 1);
    SettledKept(sh, cur, Place(sh, 1, i, k), i, k, k - 1);
  }

  // Up to the caller, at the beginning of a nested interview
  lemma Rise(sh: Shape, cur: Cursors, i: Id)
    requires WellFormed(sh) && Returning(sh, cur, i) && i != sh.root && cur[i] == -1
    ensures i in sh.caller && sh.caller[i] in sh.path && sh.caller[i] in cur
    ensures var c := sh.caller[i];
      && 0 <= cur[c] < |sh.path[c]| && Returning(sh, cur[c := cur[c] - 1], c)
      && Place(sh, 0, c, cur[c]) == Place(sh, 0, i, 0) && Place(sh, 1, c, cur[c]) < Place(sh, 1, i, 0)
  {
    hide WellFormed, Weight, Total, Settled, Chain;
    WalkedTo(sh, cur, i);
    NestedWeight(sh, 0, i);
    NestedWeight(sh, 1, i);
    ReturnFrom(sh, cur, sh.caller[i], Index(sh, i), Place(sh, 1, i, 0));
  }

  // Into a nested interview from behind
  lemma Sink(sh: Shape, cur: Cursors, i: Id)
    requires WellFormed(sh) && Returning(sh, cur, i) && cur[i] >= 0 && sh.path[i][cur[i]].Nested?
    ensures var t := sh.path[i][cur[i]].target;
      && t in sh.path && Returning(sh, cur[t := |sh.path[t]| - 1], t)
      && Place(sh, 0, t, |sh.path[t]|) == Place(sh, 0, i, cur[i] + 1)
      && BackLeft(sh, cur[t := |sh.path[t]| - 1], t) < BackLeft(sh, cur, i)
  {
    var t := sh.path[i][cur[i]].target;
    assert NestedAt(sh, i, cur[i], t) && CalledBy(sh, t, i) && t != sh.root && Index(sh, t) == cur[i] && Chain(sh, cur, t);
    hide WellFormed, Weight, Settled, Chain;
    NestedWeight(sh, 0, t);
    NestedWeight(sh, 1, t);
    ReturnFrom(sh, cur, t, |sh.path[t]|, Place(sh, 1, i, cur[i] + 1));
  }

  lemma StepBack(sh: Shape, cur: Cursors, i: Id)
    requires WellFormed(sh) && Returning(sh, cur, i) && cur[i] >= 0 && !sh.path[i][cur[i]].Nested?
    ensures Returning(sh, cur[i := cur[i] - 1], i) && Settled(sh, cur, Place(sh, 1, i, cur[i]))
    ensures Place(sh, 0, i, cur[i]) + (if sh.path[i][cur[i]].Plain? then 1 else 0) == Place(sh, 0, i, cur[i] + 1)
    ensures BackLeft(sh, cur[i := cur[i] - 1], i) < BackLeft(sh, cur, i)
  {
    hide WellFormed, Before, Weight, Start, Total, Chain, Place;
    OneQuestion(sh, 0, i, cur[i]);
    OneQuestion(sh, 1, i, cur[i]);
    ReturnFrom(sh, cur, i, cur[i], Place(sh, 1, i, cur[i] + 1));
  }

  // One turn of the loop that normalizes the result of prev
  datatype Turn = Stop(cur: Cursors, ok: bool) | GoOn(cur: Cursors, i: Id)

  function BackTurn(sh: Shape, cur: Cursors, i: Id): Turn
    requires i in cur && i in sh.path && -1 <= cur[i] < |sh.path[i]|
  {
    if cur[i] < 0 then
      if i !in sh.caller || sh.caller[i] !in cur then Stop(cur[i := 0], false)
      else GoOn(cur[sh.caller[i] := cur[sh.caller[i]] - 1], sh.caller[i])
    else
      var q := sh.path[i][cur[i]];
      if q.Nested? && q.target in sh.path then GoOn(cur[q.target := |sh.path[q.target]| - 1], q.target)
      else if q.Final? then GoOn(cur[i := cur[i] - 1], i)
      else Stop(cur, true)
  }

  lemma BackLeftIs(sh: Shape, cur: Cursors, i: Id)
    requires WellFormed(sh) && Returning(sh, cur, i)
    ensures BackLeft(sh, cur, i) == Place(sh, 1, i, cur[i] + 1)
  {
  }

  lemma BackTurns(sh: Shape, cur: Cursors, i: Id)
    requires WellFormed(sh) && Returning(sh, cur, i)
    ensures var s := BackTurn(sh, cur, i);
      s.GoOn? ==> Returning(sh, s.cur, s.i) && BackLeft(sh, s.cur, s.i) < BackLeft(sh, cur, i)
  {
    hide WellFormed, Before, Weight, Start, Total, Settled, Chain, Place, BackLeft;
    CallerOrRoot(sh, i);
    if cur[i] < 0 {
      if i in sh.caller {
        Rise(sh, cur, i);
        BackLeftIs(sh, cur, i);
        BackLeftIs(sh, cur[sh.caller[i] := cur[sh.caller[i]] - 1], sh.caller[i]);
      }
    } else if sh.path[i][cur[i]].Nested? {
      Sink(sh, cur, i);
    } else if sh.path[i][cur[i]].Final? {
      StepBack(sh, cur, i);
    }
  }

  // The loop
  ghost function Backward(sh: Shape, cur: Cursors, i: Id): Moved
    requires WellFormed(sh) && Returning(sh, cur, i)
    decreases BackLeft(sh, cur, i)
  {
    BackTurns(sh, cur, i);
    match BackTurn(sh, cur, i)
    case Stop(cur', ok) => Moved(cur', ok)
    case GoOn(cur', i') => Backward(sh, cur', i')
  }

  ghost function PrevMove(sh: Shape, cur: Cursors): Moved
    requires WellFormed(sh) && Positioned(sh, cur)
  {
    var i := Bottom(sh, cur, sh.root);
    StepsBack(sh, cur, i);
    Backward(sh, cur[i := cur[i] - 1], i)
  }

  lemma StepsBack(sh: Shape, cur: Cursors, i: Id)
    requires WellFormed(sh) && Located(sh, cur, i)
    ensures Returning(sh, cur[i := cur[i] - 1], i)
  {
    hide WellFormed, Before, Weight, Start, Total, Settled, Chain, Place;
    ReturnFrom(sh, cur, i, cur[i], Place(sh, 1, i, cur[i]));
  }

  lemma {:induction false} BackwardArrives(sh: Shape, cur: Cursors, i: Id)
    requires WellFormed(sh) && Returning(sh, cur, i)
    ensures var m := Backward(sh, cur, i);
      && (m.ok ==> Positioned(sh, m.cur) && Position(sh, m.cur) + 1 == Place(sh, 0, i, cur[i] + 1))
      && (!m.ok ==> Place(sh, 0, i, cur[i] + 1) == 0)
    decreases BackLeft(sh, cur, i)
  {
    hide WellFormed, Before, Weight, Start, Total, Settled, Chain, Place;
    CallerOrRoot(sh, i);
    if cur[i] < 0 {
      if i in sh.caller {
        Rise(sh, cur, i);
        BackwardArrives(sh, cur[sh.caller[i] := cur[sh.caller[i]] - 1], sh.caller[i]);
      }
    } else {
      match sh.path[i][cur[i]] {
        case Nested(_, t) =>
          Sink(sh, cur, i);
          BackwardArrives(sh, cur[t := |sh.path[t]| - 1], t);
        case Final(_) =>
          StepBack(sh, cur, i);
          BackwardArrives(sh, cur[i := cur[i] - 1], i);
        case Plain(_) =>
          StepBack(sh, cur, i);
          LocatedIsBottom(sh, cur, i);
      }
    }
  }

  lemma CallerOrRoot(sh: Shape, i: Id)
    requires WellFormed(sh) && i in sh.path
    ensures i in sh.caller <==> i != sh.root
    ensures i == sh.root ==> Place(sh, 0, i, 0) == 0
  {
  }

  // Where the loop of prev fails, the root's cursor is set to its first entry;
  // if that is a nested interview, its own cursor is left before the beginning,
  // and if it is a question, the loop has begun before that.
  ghost predicate FailedAs(sh: Shape, cur: Cursors, i: Id, r: Cursors)
    requires WellFormed(sh) && HasCursors(sh, cur) && i in sh.path && sh.root in sh.path && sh.path[sh.root] != []
  {
    var q := sh.path[sh.root][0];
    && HasCursors(sh, r) && r[sh.root] == 0
    && (q.Nested? && !(i == sh.root && cur[i] == -1) ==> q.target in sh.path && r[q.target] == -1)
    && (!q.Nested? ==> i == sh.root && (cur[i] == -1 || q.Final?))
    && (i == sh.root && cur[i] == -1 ==> r == cur[i := 0])
  }

  lemma FailedBefore(sh: Shape, cur: Cursors, i: Id, r: Cursors)
    requires WellFormed(sh) && Returning(sh, cur, i) && BackTurn(sh, cur, i).GoOn? && sh.root in sh.path && sh.path[sh.root] != []
    requires var s := BackTurn(sh, cur, i); HasCursors(sh, s.cur) && s.i in sh.path && FailedAs(sh, s.cur, s.i, r)
    ensures FailedAs(sh, cur, i, r)
  {
    CallerOrRoot(sh, i);
    if cur[i] < 0 {
      RisesFrom(sh, cur, i);
      hide WellFormed, Chain, Settled, Place, Before, Weight;
    } else if sh.path[i][cur[i]].Nested? {
      NotTheRoot(sh, i, cur[i]);
      hide WellFormed, Chain, Settled, Place, Before, Weight;
    } else {
      FinalAtEnd(sh, i, cur[i]);
      hide WellFormed, Chain, Settled, Place, Before, Weight;
    }
  }

  lemma FailedHere(sh: Shape, cur: Cursors, i: Id)
    requires WellFormed(sh) && Returning(sh, cur, i) && sh.root in sh.path && sh.path[sh.root] != []
    requires BackTurn(sh, cur, i).Stop? && !BackTurn(sh, cur, i).ok
    ensures FailedAs(sh, cur, i, BackTurn(sh, cur, i).cur)
  {
    CallerOrRoot(sh, i);
    if i != sh.root {
      RisesFrom(sh, cur, i);
    }
    hide WellFormed, Chain, Settled, Place, Before, Weight;
  }

  lemma {:induction false} BackwardFails(sh: Shape, cur: Cursors, i: Id)
    requires WellFormed(sh) && Returning(sh, cur, i) && !Backward(sh, cur, i).ok
    ensures sh.root in sh.path && sh.path[sh.root] != []
    ensures FailedAs(sh, cur, i, Backward(sh, cur, i).cur)
    decreases BackLeft(sh, cur, i)
  {
    RootHasFirst(sh);
    BackTurns(sh, cur, i);
    hide WellFormed, BackTurn, FailedAs, BackLeft, Chain, Settled, Place;
    match BackTurn(sh, cur, i) {
      case Stop(_, _) => FailedHere(sh, cur, i);
      case GoOn(cur', i') =>
        BackwardFails(sh, cur', i');
        FailedBefore(sh, cur, i, Backward(sh, cur, i).cur);
    }
  }

  lemma RootHasFirst(sh: Shape)
    requires WellFormed(sh)
    ensures sh.root in sh.path && sh.path[sh.root] != []
  {
  }

  lemma RisesFrom(sh: Shape, cur: Cursors, i: Id)
    requires WellFormed(sh) && HasCursors(sh, cur) && i in sh.path && Chain(sh, cur, i) && i != sh.root
    ensures i in sh.caller && sh.caller[i] in sh.path && sh.caller[i] in cur && 0 <= cur[sh.caller[i]] < |sh.path[sh.caller[i]]|
    ensures sh.path[sh.caller[i]][cur[sh.caller[i]]].Nested? && sh.path[sh.caller[i]][cur[sh.caller[i]]].target == i
  {
    WalkedTo(sh, cur, i);
  }

  lemma NotTheRoot(sh: Shape, i: Id, k: nat)
    requires WellFormed(sh) && i in sh.path && k < |sh.path[i]| && sh.path[i][k].Nested?
    ensures sh.path[i][k].target != sh.root
  {
    assert NestedAt(sh, i, k, sh.path[i][k].target);
  }

  lemma FinalAtEnd(sh: Shape, i: Id, k: nat)
    requires WellFormed(sh) && i in sh.path && k < |sh.path[i]| && sh.path[i][k].Final?
    ensures k == |sh.path[i]| - 1
  {
  }

  // A prev that fails leaves every cursor as it was, unless the root begins
  // with a nested interview: then there is no current question afterwards.
  lemma PrevFails(sh: Shape, cur: Cursors)
    requires WellFormed(sh) && Positioned(sh, cur) && !PrevMove(sh, cur).ok
    ensures sh.root in sh.path && sh.path[sh.root] != []
    ensures var r := PrevMove(sh, cur).cur;
      && (r == cur <==> !sh.path[sh.root][0].Nested?)
      && (Positioned(sh, r) <==> !sh.path[sh.root][0].Nested?)
  {
    RootOnPath(sh);
    RootHasFirst(sh);
    var i := Bottom(sh, cur, sh.root);
    StepsBack(sh, cur, i);
    BackwardFails(sh, cur[i := cur[i] - 1], i);
    var r, q := PrevMove(sh, cur).cur, sh.path[sh.root][0];
    hide Before, Weight, Start, Total, Settled, Place, Backward, WellFormed;
    if q.Nested? {
      NotTheRoot(sh, sh.root, 0);
      BottomInto(sh, r, q.target);
    } else {
      if q.Final? { FinalAtEnd(sh, sh.root, 0); }
      assert cur[i := cur[i] - 1][i := 0] == cur;
    }
  }

  // With the root's cursor at a nested interview whose own is before its
  // beginning, that is where the cursors lead.
  lemma BottomInto(sh: Shape, r: Cursors, t: Id)
    requires WellFormed(sh) && HasCursors(sh, r) && sh.root in sh.path && t in sh.path && r[t] == -1
    requires sh.path[sh.root] != [] && r[sh.root] == 0 && sh.path[sh.root][0].Nested? && sh.path[sh.root][0].target == t
    ensures Bottom(sh, r, sh.root) == t
  {
    assert NestedAt(sh, sh.root, 0, t);
    assert Bottom(sh, r, t) == t;
  }

  // prev moves back by one question, and fails exactly at the first.
  lemma PrevMoves(sh: Shape, cur: Cursors)
    requires WellFormed(sh) && Positioned(sh, cur)
    ensures var m := PrevMove(sh, cur);
      && (m.ok ==> Positioned(sh, m.cur) && Position(sh, m.cur) == Position(sh, cur) - 1)
      && (m.ok <==> Position(sh, cur) > 0)
  {
    RootOnPath(sh);
    hide WellFormed, Before, Weight, Start, Total, Settled, Chain, Place, Backward, Bottom;
    var i := Bottom(sh, cur, sh.root);
    StepsBack(sh, cur, i);
    BackwardArrives(sh, cur[i := cur[i] - 1], i);
  }

  // ---- the questions on the path -------------------------------------

  // The first k entries of an interview, with nested interviews expanded and
  // without their FinalQuestions
  function Body(sh: Shape, i: Id, k: nat): (qs: seq<Question>)
    requires WellFormed(sh) && i in sh.path && k <= |sh.path[i]|
    ensures |qs| == Before(sh, 0, i, k)
    decreases sh.height - sh.depth[i], k
  {
    if k == 0 then []
    else
      var q := sh.path[i][k - 1];
      Body(sh, i, k - 1) +
        match q
        case Plain(_) => [q]
        case Final(_) => []
        case Nested(_, t) =>
          assert NestedAt(sh, i, k - 1, t);
          Body(sh, t, |sh.path[t]|)
  }

  // iteratePath0 from entry k on
  function Listed(sh: Shape, cur: Cursors, i: Id, k: nat, all: bool, addFinal: bool): seq<Question>
    requires WellFormed(sh) && HasCursors(sh, cur) && i in sh.path && k <= |sh.path[i]|
    decreases sh.height - sh.depth[i], |sh.path[i]| - k
  {
    if k >= (if all then |sh.path[i]| else cur[i] + 1) || k == |sh.path[i]| then []
    else
      var q := sh.path[i][k];
      match q
      case Nested(_, t) =>
        assert NestedAt(sh, i, k, t);
        Listed(sh, cur, t, 0, all, false) + Listed(sh, cur, i, k + 1, all, addFinal)
      case Final(_) => if addFinal then [q] + Listed(sh, cur, i, k + 1, all, addFinal) else []
      case Plain(_) => [q] + Listed(sh, cur, i, k + 1, all, addFinal)
  }

  function Path(sh: Shape, cur: Cursors): seq<Question>
    requires WellFormed(sh) && HasCursors(sh, cur)
  {
    Listed(sh, cur, sh.root, 0, true, true)
  }

  function PathToCurrent(sh: Shape, cur: Cursors): seq<Question>
    requires WellFormed(sh) && HasCursors(sh, cur)
  {
    Listed(sh, cur, sh.root, 0, false, true)
  }

  function Current(sh: Shape, cur: Cursors): Question
    requires WellFormed(sh) && Positioned(sh, cur)
  {
    var i := Bottom(sh, cur, sh.root);
    sh.path[i][cur[i]]
  }

  function EndOf(sh: Shape, i: Id): seq<Question>
    requires WellFormed(sh) && i in sh.path
  {
    var q := sh.path[i][|sh.path[i]| - 1];
    if q.Final? then [q] else []
  }

  lemma PlainListed(sh: Shape, cur: Cursors, i: Id, k: nat, all: bool, addFinal: bool)
    requires WellFormed(sh) && HasCursors(sh, cur) && i in sh.path && k < |sh.path[i]| && (all || k <= cur[i]) && sh.path[i][k].Plain?
    ensures Body(sh, i, k + 1) == Body(sh, i, k) + [sh.path[i][k]]
    ensures Listed(sh, cur, i, k, all, addFinal) == [sh.path[i][k]] + Listed(sh, cur, i, k + 1, all, addFinal)
  {
    hide WellFormed, Before;
  }

  lemma FinalListed(sh: Shape, cur: Cursors, i: Id, k: nat, all: bool, addFinal: bool)
    requires WellFormed(sh) && HasCursors(sh, cur) && i in sh.path && k < |sh.path[i]| && (all || k <= cur[i]) && sh.path[i][k].Final?
    ensures k == |sh.path[i]| - 1 && Body(sh, i, k + 1) == Body(sh, i, k)
    ensures Listed(sh, cur, i, k, all, addFinal) == if addFinal then [sh.path[i][k]] else []
  {
    hide WellFormed, Before;
    FinalIsLast(sh, i, k);
  }

  lemma NestedListed(sh: Shape, cur: Cursors, i: Id, k: nat, all: bool, addFinal: bool)
    requires WellFormed(sh) && HasCursors(sh, cur) && i in sh.path && k < |sh.path[i]| && sh.path[i][k].Nested?
    requires all || k <= cur[i]
    ensures var t := sh.path[i][k].target;
      && t in sh.path && NestedAt(sh, i, k, t) && CalledBy(sh, t, i) && sh.depth[t] <= sh.height
      && Body(sh, i, k + 1) == Body(sh, i, k) + Body(sh, t, |sh.path[t]|)
      && Listed(sh, cur, i, k, all, addFinal) == Listed(sh, cur, t, 0, all, false) + Listed(sh, cur, i, k + 1, all, addFinal)
      && Body(sh, t, 0) == []
  {
    assert NestedAt(sh, i, k, sh.path[i][k].target);
  }

  lemma NoneListed(sh: Shape, cur: Cursors, i: Id, all: bool, addFinal: bool)
    requires WellFormed(sh) && HasCursors(sh, cur) && i in sh.path
    ensures Listed(sh, cur, i, |sh.path[i]|, all, addFinal) == []
  {
  }

  lemma EndIs(sh: Shape, i: Id, k: nat)
    requires WellFormed(sh) && i in sh.path && k < |sh.path[i]|
    ensures sh.path[i][k].Final? ==> k == |sh.path[i]| - 1
    ensures k == |sh.path[i]| - 1 ==> EndOf(sh, i) == if sh.path[i][k].Final? then [sh.path[i][k]] else []
  {
  }

  lemma {:induction false} ListsAll(sh: Shape, cur: Cursors, i: Id, k: nat, addFinal: bool)
    requires WellFormed(sh) && HasCursors(sh, cur) && i in sh.path && k <= |sh.path[i]|
    ensures Body(sh, i, k) + Listed(sh, cur, i, k, true, addFinal) ==
      Body(sh, i, |sh.path[i]|) + if addFinal && k < |sh.path[i]| then EndOf(sh, i) else []
    decreases sh.height - sh.depth[i], |sh.path[i]| - k
  {
    hide WellFormed, Body, Listed, Before, EndOf;
    if k == |sh.path[i]| {
      NoneListed(sh, cur, i, true, addFinal);
    } else {
      DepthBound(sh, i);
      EndIs(sh, i, k);
      ListsAll(sh, cur, i, k + 1, addFinal);
      var q, body, rest := sh.path[i][k], Body(sh, i, k), Listed(sh, cur, i, k + 1, true, addFinal);
      if q.Nested? {
        NestedListed(sh, cur, i, k, true, addFinal);
        ListsAll(sh, cur, q.target, 0, false);
        var inner := Body(sh, q.target, |sh.path[q.target]|);
        assert [] + Listed(sh, cur, q.target, 0, true, false) == Listed(sh, cur, q.target, 0, true, false) == inner;
        assert body + (inner + rest) == (body + inner) + rest;
      } else if q.Plain? {
        PlainListed(sh, cur, i, k, true, addFinal);
        assert body + ([q] + rest) == (body + [q]) + rest;
      } else {
        FinalListed(sh, cur, i, k, true, addFinal);
        assert body + [] == body;
      }
    }
  }

  lemma DepthBound(sh: Shape, i: Id)
    requires WellFormed(sh) && i in sh.path
    ensures i in sh.depth && sh.depth[i] <= sh.height
  {
  }

  // The path is the body of the root, and its FinalQuestion if it has one.
  lemma PathIs(sh: Shape, cur: Cursors)
    requires WellFormed(sh) && HasCursors(sh, cur)
    ensures sh.root in sh.path && Path(sh, cur) == Body(sh, sh.root, |sh.path[sh.root]|) + EndOf(sh, sh.root)
    ensures |Path(sh, cur)| == PathLength(sh)
  {
    RootOnPath(sh);
    ListsAll(sh, cur, sh.root, 0, true);
  }

  lemma {:induction false} BodyPrefix(sh: Shape, i: Id, j: nat, k: nat)
    requires WellFormed(sh) && i in sh.path && j <= k <= |sh.path[i]|
    ensures Body(sh, i, j) <= Body(sh, i, k)
    decreases k
  {
    hide WellFormed, Before;
    if j < k {
      BodyPrefix(sh, i, j, k - 1);
    }
  }

  lemma LeftAtEnd(sh: Shape, cur: Cursors, i: Id, place: nat)
    requires WellFormed(sh) && HasCursors(sh, cur) && i in sh.path && Settled(sh, cur, place) && Start(sh, 1, i) + Total(sh, 1, i) < place
    ensures i in cur && cur[i] == |sh.path[i]| - 1
  {
    hide Start, Total;
  }

  // What has been left behind is listed to its end.
  lemma {:induction false} SettledListed(sh: Shape, cur: Cursors, i: Id, k: nat, place: nat, addFinal: bool)
    requires WellFormed(sh) && HasCursors(sh, cur) && i in sh.path && k <= |sh.path[i]|
    requires Settled(sh, cur, place) && Start(sh, 1, i) + Total(sh, 1, i) < place
    ensures Listed(sh, cur, i, k, false, addFinal) == Listed(sh, cur, i, k, true, addFinal)
    decreases sh.height - sh.depth[i], |sh.path[i]| - k
  {
    hide *;
    DepthBound(sh, i);
    LeftAtEnd(sh, cur, i, place);
    if k == |sh.path[i]| {
      NoneListed(sh, cur, i, false, addFinal);
      NoneListed(sh, cur, i, true, addFinal);
    } else {
      SettledListed(sh, cur, i, k + 1, place, addFinal);
      if sh.path[i][k].Nested? {
        NestedListed(sh, cur, i, k, true, addFinal);
        NestedListed(sh, cur, i, k, false, addFinal);
        WithinEntry(sh, i, k);
        SettledListed(sh, cur, sh.path[i][k].target, 0, place, false);
      } else if sh.path[i][k].Plain? {
        PlainListed(sh, cur, i, k, true, addFinal);
        PlainListed(sh, cur, i, k, false, addFinal);
      } else {
        FinalListed(sh, cur, i, k, true, addFinal);
        FinalListed(sh, cur, i, k, false, addFinal);
      }
    }
  }

  lemma WithinEntry(sh: Shape, i: Id, k: nat)
    requires WellFormed(sh) && i in sh.path && k < |sh.path[i]| && sh.path[i][k].Nested?
    ensures var t := sh.path[i][k].target;
      && t in sh.path && t != sh.root && t in sh.caller && sh.caller[t] == i && Index(sh, t) == k
      && Start(sh, 1, t) + Total(sh, 1, t) < Place(sh, 1, i, k + 1) <= Start(sh, 1, i) + Total(sh, 1, i)
      && Start(sh, 0, t) == Place(sh, 0, i, k)
  {
    var t := sh.path[i][k].target;
    assert NestedAt(sh, i, k, t) && CalledBy(sh, t, i) && Index(sh, t) == k;
    NestedWeight(sh, 1, t);
    NestedWeight(sh, 0, t);
    OneStep(sh, i, k);
  }

  // The entries before the cursor are listed in full.
  lemma {:induction false} BeforeCursorListed(sh: Shape, cur: Cursors, i: Id, k: nat, place: nat, addFinal: bool)
    requires WellFormed(sh) && HasCursors(sh, cur) && i in sh.path && k <= cur[i] < |sh.path[i]|
    requires Settled(sh, cur, place) && Place(sh, 1, i, k) <= place
    ensures Listed(sh, cur, i, 0, false, addFinal) == Body(sh, i, k) + Listed(sh, cur, i, k, false, addFinal)
    decreases k
  {
    hide WellFormed, Listed, Before, Weight, Start, Total, Body, EndOf, Settled, Place, Index, NestedAt, CalledBy;
    NoBody(sh, i);
    if k == 0 {
      assert [] + Listed(sh, cur, i, 0, false, addFinal) == Listed(sh, cur, i, 0, false, addFinal);
    } else {
      OneStep(sh, i, k - 1);
      BeforeCursorListed(sh, cur, i, k - 1, place, addFinal);
      var q, body, rest := sh.path[i][k - 1], Body(sh, i, k - 1), Listed(sh, cur, i, k, false, addFinal);
      if q.Nested? {
        NestedListed(sh, cur, i, k - 1, false, addFinal);
        WithinEntry(sh, i, k - 1);
        SettledListed(sh, cur, q.target, 0, place, false);
        ListsAll(sh, cur, q.target, 0, false);
        var inner := Body(sh, q.target, |sh.path[q.target]|);
        assert [] + Listed(sh, cur, q.target, 0, true, false) == Listed(sh, cur, q.target, 0, true, false) == inner + [] == inner;
        assert body + (inner + rest) == (body + inner) + rest;
      } else if q.Plain? {
        PlainListed(sh, cur, i, k - 1, false, addFinal);
        assert body + ([q] + rest) == (body + [q]) + rest;
      } else {
        FinalListed(sh, cur, i, k - 1, false, addFinal);
      }
    }
  }

  lemma NoBody(sh: Shape, i: Id)
    requires WellFormed(sh) && i in sh.path
    ensures Body(sh, i, 0) == []
  {
  }

  lemma PastCursor(sh: Shape, cur: Cursors, i: Id, addFinal: bool)
    requires WellFormed(sh) && HasCursors(sh, cur) && i in sh.path && 0 <= cur[i] < |sh.path[i]|
    ensures Listed(sh, cur, i, cur[i] + 1, false, addFinal) == []
  {
  }

  // What is listed of interview a, on the way to the current question: its
  // questions up to the current one.
  ghost predicate ListedTo(sh: Shape, a: Id, n: int, q: Question, listed: seq<Question>)
    requires WellFormed(sh) && a in sh.path
  {
    var body := Body(sh, a, |sh.path[a]|);
    && 0 <= n <= |body| && listed == body[..n] + [q]
    && (q.Plain? ==> n < |body| && body[n] == q) && (q.Final? ==> n == |body| && EndOf(sh, a) == [q])
  }

  lemma ListedHere(sh: Shape, cur: Cursors, i: Id, addFinal: bool)
    requires WellFormed(sh) && Located(sh, cur, i) && (addFinal || i != sh.root)
    ensures ListedTo(sh, i, Before(sh, 0, i, cur[i]), sh.path[i][cur[i]], Listed(sh, cur, i, 0, false, addFinal))
  {
    hide WellFormed, Before, Weight, Start, Total, Body, EndOf, Listed, Place;
    var k, q := cur[i], sh.path[i][cur[i]];
    BeforeCursorListed(sh, cur, i, k, Place(sh, 1, i, k), addFinal);
    PastCursor(sh, cur, i, addFinal);
    EndIs(sh, i, k);
    BodyPrefix(sh, i, k, |sh.path[i]|);
    if q.Plain? {
      PlainListed(sh, cur, i, k, false, addFinal);
      BodyPrefix(sh, i, k + 1, |sh.path[i]|);
      assert Body(sh, i, k + 1)[Before(sh, 0, i, k)] == q;
    } else {
      FinalListed(sh, cur, i, k, false, addFinal);
    }
  }

  lemma ListedBelow(sh: Shape, cur: Cursors, a: Id, addFinal: bool, place: nat, n: int, q: Question)
    requires WellFormed(sh) && HasCursors(sh, cur) && a in sh.path && 0 <= cur[a] < |sh.path[a]| && sh.path[a][cur[a]].Nested?
    requires Settled(sh, cur, place) && Place(sh, 1, a, cur[a]) <= place && !q.Final?
    requires var t := sh.path[a][cur[a]].target; t in sh.path && ListedTo(sh, t, n, q, Listed(sh, cur, t, 0, false, false))
    ensures ListedTo(sh, a, Before(sh, 0, a, cur[a]) + n, q, Listed(sh, cur, a, 0, false, addFinal))
  {
    hide WellFormed, Before, Weight, Start, Total, EndOf, Body, Listed, Place, Settled;
    var k, t := cur[a], sh.path[a][cur[a]].target;
    BeforeCursorListed(sh, cur, a, k, place, addFinal);
    PastCursor(sh, cur, a, addFinal);
    NestedListed(sh, cur, a, k, false, addFinal);
    BodyPrefix(sh, a, k + 1, |sh.path[a]|);
    var body, inner, all := Body(sh, a, k), Body(sh, t, |sh.path[t]|), Body(sh, a, |sh.path[a]|);
    assert all[..|body| + n] == body + inner[..n];
    assert q.Plain? ==> all[|body| + n] == (body + inner)[|body| + n] == inner[n];
  }

  lemma {:induction false} ListedDown(sh: Shape, cur: Cursors, a: Id, i: Id, addFinal: bool)
    requires WellFormed(sh) && Located(sh, cur, i) && a in sh.path && Chain(sh, cur, a) && Bottom(sh, cur, a) == i && (addFinal || a != sh.root)
    ensures ListedTo(sh, a, Place(sh, 0, i, cur[i]) - Start(sh, 0, a), sh.path[i][cur[i]], Listed(sh, cur, a, 0, false, addFinal))
    ensures Place(sh, 1, i, cur[i]) >= Start(sh, 1, a)
    decreases sh.height - sh.depth[a]
  {
    hide WellFormed, Before, Weight, Start, Total, Body, EndOf, Listed, Bottom, Chain, ListedTo, Settled, Index, NestedAt, CalledBy;
    DepthBound(sh, a);
    BottomStep(sh, cur, a);
    if a == i {
      ListedHere(sh, cur, i, addFinal);
    } else {
      var t := sh.path[a][cur[a]].target;
      WithinEntry(sh, a, cur[a]);
      NestedListed(sh, cur, a, cur[a], false, addFinal);
      ListedDown(sh, cur, t, i, false);
      StartsAfter(sh, t);
      FinalAtRoot(sh, cur, t, i);
      ListedBelow(sh, cur, a, addFinal, Place(sh, 1, i, cur[i]), Place(sh, 0, i, cur[i]) - Start(sh, 0, t), sh.path[i][cur[i]]);
    }
  }

  lemma BottomStep(sh: Shape, cur: Cursors, a: Id)
    requires WellFormed(sh) && HasCursors(sh, cur) && a in sh.path && Chain(sh, cur, a)
    ensures Bottom(sh, cur, a) != a ==>
      && 0 <= cur[a] < |sh.path[a]| && sh.path[a][cur[a]].Nested?
      && var t := sh.path[a][cur[a]].target;
         t in sh.path && t != sh.root && Chain(sh, cur, t) && Bottom(sh, cur, t) == Bottom(sh, cur, a)
  {
    if Bottom(sh, cur, a) != a {
      var t := sh.path[a][cur[a]].target;
      assert NestedAt(sh, a, cur[a], t) && CalledBy(sh, t, a) && Index(sh, t) == cur[a];
    }
  }

  lemma StartsAfter(sh: Shape, t: Id)
    requires WellFormed(sh) && t in sh.path && t != sh.root
    ensures Place(sh, 1, sh.caller[t], Index(sh, t)) < Start(sh, 1, t)
  {
    NestedWeight(sh, 1, t);
  }

  lemma FinalAtRoot(sh: Shape, cur: Cursors, t: Id, i: Id)
    requires WellFormed(sh) && Located(sh, cur, i) && t in sh.path && t != sh.root && Bottom(sh, cur, t) == i
    ensures !sh.path[i][cur[i]].Final?
  {
    if i == sh.root {
      BelowRoot(sh, cur, t);
    }
  }

  lemma {:induction false} BelowRoot(sh: Shape, cur: Cursors, t: Id)
    requires WellFormed(sh) && HasCursors(sh, cur) && t in sh.path && t != sh.root
    ensures Bottom(sh, cur, t) != sh.root
    decreases sh.height - sh.depth[t]
  {
    if 0 <= cur[t] < |sh.path[t]| && sh.path[t][cur[t]].Nested? {
      assert NestedAt(sh, t, cur[t], sh.path[t][cur[t]].target);
      BelowRoot(sh, cur, sh.path[t][cur[t]].target);
    }
  }

  // The current question stands at its position in the path, and the path to
  // it is the part of the path that ends there.
  lemma CurrentOnPath(sh: Shape, cur: Cursors)
    requires WellFormed(sh) && Positioned(sh, cur)
    ensures var p, path := Position(sh, cur), Path(sh, cur);
      p < |path| == PathLength(sh) && path[p] == Current(sh, cur) && PathToCurrent(sh, cur) == path[..p + 1]
  {
    hide WellFormed, Body, Listed, Bottom, Before, Weight, PathLength;
    RootOnPath(sh);
    PathIs(sh, cur);
    RootStart(sh);
    ListedDown(sh, cur, sh.root, Bottom(sh, cur, sh.root), true);
  }

  lemma RootStart(sh: Shape)
    requires WellFormed(sh)
    ensures sh.root in sh.path && Start(sh, 0, sh.root) == 0
  {
  }

  // ---- whole runs ----------------------------------------------------

  datatype Move = ToNext | ToPrev

  ghost function Apply(sh: Shape, cur: Cursors, m: Move): Moved
    requires WellFormed(sh) && Positioned(sh, cur)
  {
    if m.ToNext? then NextMove(sh, cur) else PrevMove(sh, cur)
  }

  // Successful moves, one after the other
  ghost predicate Run(sh: Shape, states: seq<Cursors>, moves: seq<Move>)
    requires WellFormed(sh)
  {
    && |states| == |moves| + 1 && Positioned(sh, states[0])
    && forall k :: 0 <= k < |moves| ==> Positioned(sh, states[k]) && Apply(sh, states[k], moves[k]) == Moved(states[k + 1], true)
  }

  function Displacement(moves: seq<Move>): int {
    if moves == [] then 0
    else Displacement(moves[..|moves| - 1]) + if moves[|moves| - 1].ToNext? then 1 else -1
  }

  // Along every run each next goes one question on in the path and each prev
  // one back; the current question is the one at that position, and the path
  // to it is the path up to there.
  lemma {:induction false} RunsMove(sh: Shape, states: seq<Cursors>, moves: seq<Move>, k: nat)
    requires WellFormed(sh) && Run(sh, states, moves) && k < |states|
    ensures Positioned(sh, states[k]) && Path(sh, states[k]) == Path(sh, states[0])
    ensures var p, path := Position(sh, states[0]) + Displacement(moves[..k]), Path(sh, states[0]);
      Position(sh, states[k]) == p && 0 <= p < |path| && path[p] == Current(sh, states[k]) && PathToCurrent(sh, states[k]) == path[..p + 1]
  {
    hide WellFormed, Path, PathToCurrent, Current, Position, Positioned, NextMove, PrevMove, PathLength;
    if k > 0 {
      RunsMove(sh, states, moves, k - 1);
      assert moves[..k][..k - 1] == moves[..k - 1] && Apply(sh, states[k - 1], moves[k - 1]) == Moved(states[k - 1 + 1], true);
      NextMoves(sh, states[k - 1]);
      PrevMoves(sh, states[k - 1]);
      SamePath(sh, states[k - 1], states[k]);
    }
    CurrentOnPath(sh, states[k]);
  }

  lemma SamePath(sh: Shape, cur: Cursors, cur': Cursors)
    requires WellFormed(sh) && Positioned(sh, cur) && Positioned(sh, cur')
    ensures Path(sh, cur) == Path(sh, cur')
  {
    hide WellFormed, Path, Body, EndOf, PathLength;
    PathIs(sh, cur);
    PathIs(sh, cur');
  }

  ghost predicate SamePlace(sh: Shape, cur: Cursors, cur': Cursors)
    requires WellFormed(sh) && Positioned(sh, cur)
  {
    && Positioned(sh, cur') && Position(sh, cur') == Position(sh, cur)
    && Current(sh, cur') == Current(sh, cur) && PathToCurrent(sh, cur') == PathToCurrent(sh, cur)
  }

  // prev undoes next, and next undoes prev if nothing follows an interview
  // that has not ended.
  lemma MovesUndone(sh: Shape, cur: Cursors)
    requires WellFormed(sh) && Positioned(sh, cur)
    ensures NextMove(sh, cur).ok ==>
      && Positioned(sh, NextMove(sh, cur).cur)
      && PrevMove(sh, NextMove(sh, cur).cur).ok && SamePlace(sh, cur, PrevMove(sh, NextMove(sh, cur).cur).cur)
    ensures PrevMove(sh, cur).ok && Ended(sh) ==>
      && Positioned(sh, PrevMove(sh, cur).cur)
      && NextMove(sh, PrevMove(sh, cur).cur).ok && SamePlace(sh, cur, NextMove(sh, PrevMove(sh, cur).cur).cur)
  {
    hide WellFormed, Path, PathToCurrent, Current, Position, Positioned, NextMove, PrevMove, PathLength, Ended;
    CurrentOnPath(sh, cur);
    NextMoves(sh, cur);
    if NextMove(sh, cur).ok {
      var c1 := NextMove(sh, cur).cur;
      PrevMoves(sh, c1);
      SamePositionSamePlace(sh, cur, PrevMove(sh, c1).cur);
    }
    PrevMoves(sh, cur);
    if PrevMove(sh, cur).ok && Ended(sh) {
      var c1 := PrevMove(sh, cur).cur;
      NextMoves(sh, c1);
      SamePositionSamePlace(sh, cur, NextMove(sh, c1).cur);
    }
  }

  lemma SamePositionSamePlace(sh: Shape, cur: Cursors, cur': Cursors)
    requires WellFormed(sh) && Positioned(sh, cur) && Positioned(sh, cur') && Position(sh, cur') == Position(sh, cur)
    ensures SamePlace(sh, cur, cur')
  {
    hide WellFormed, Path, PathToCurrent, Current, Position, Positioned, PathLength;
    CurrentOnPath(sh, cur);
    CurrentOnPath(sh, cur');
    SamePath(sh, cur, cur');
  }

  // After reset, with the cursor of the root at its first question and the
  // others anywhere, that question is the current one.
  lemma ResetPositions(sh: Shape, cur: Cursors)
    requires WellFormed(sh) && HasCursors(sh, cur) && cur[sh.root] == 0
    requires sh.path[sh.root] != [] && !sh.path[sh.root][0].Nested?
    ensures Positioned(sh, cur) && Position(sh, cur) == 0
  {
    LocatedIsBottom(sh, cur, sh.root);
  }

  // ---- jumping -------------------------------------------------------

  // setCurrentQuestion0 from entry k of interview i on: the cursors after it,
  // or None where q is not found
  function Jump(sh: Shape, cur: Cursors, i: Id, k: nat, q: Question): (r: Option<Cursors>)
    requires WellFormed(sh) && HasCursors(sh, cur) && i in sh.path && k <= |sh.path[i]|
    ensures r.Some? ==> HasCursors(sh, r.value)
    decreases sh.height - sh.depth[i], |sh.path[i]| - k
  {
    if k == |sh.path[i]| then None
    else
      var qq := sh.path[i][k];
      if qq == q then Some(cur[i := k])
      else if qq.Nested? then
        assert NestedAt(sh, i, k, qq.target);
        match Jump(sh, cur, qq.target, 0, q)
        case Some(below) => Some(below[i := k])
        case None => Jump(sh, cur, i, k + 1, q)
      else Jump(sh, cur, i, k + 1, q)
  }

  // ---- the interviews ------------------------------------------------

  // Listing up to the current question, from entry k of interview i on, asks
  // for an entry past the end of a path.
  predicate Throws(sh: Shape, cur: Cursors, i: Id, k: nat, addFinal: bool)
    requires WellFormed(sh) && HasCursors(sh, cur) && i in sh.path && k <= |sh.path[i]|
    decreases sh.height - sh.depth[i], |sh.path[i]| - k
  {
    if k > cur[i] then false
    else if k == |sh.path[i]| then true
    else
      match sh.path[i][k]
      case Nested(_, t) =>
        assert NestedAt(sh, i, k, t);
        Throws(sh, cur, t, 0, false) || Throws(sh, cur, i, k + 1, addFinal)
      case Final(_) => addFinal && Throws(sh, cur, i, k + 1, addFinal)
      case Plain(_) => Throws(sh, cur, i, k + 1, addFinal)
  }

  // getPathToCurrent; None where it throws
  function ToCurrent(sh: Shape, cur: Cursors): Option<seq<Question>>
    requires WellFormed(sh) && HasCursors(sh, cur) && sh.root in sh.path
  {
    if Throws(sh, cur, sh.root, 0, true) then None else Some(PathToCurrent(sh, cur))
  }

  lemma {:induction false} SettledListable(sh: Shape, cur: Cursors, i: Id, k: nat, place: nat, addFinal: bool)
    requires WellFormed(sh) && HasCursors(sh, cur) && i in sh.path && k <= |sh.path[i]|
    requires Settled(sh, cur, place) && Start(sh, 1, i) + Total(sh, 1, i) < place
    ensures !Throws(sh, cur, i, k, addFinal)
    decreases sh.height - sh.depth[i], |sh.path[i]| - k
  {
    hide WellFormed, Before, Weight, Start, Total, Settled, Index, CalledBy, Place;
    DepthBound(sh, i);
    LeftAtEnd(sh, cur, i, place);
    if k < |sh.path[i]| {
      if sh.path[i][k].Nested? {
        NestedListed(sh, cur, i, k, true, false);
        WithinEntry(sh, i, k);
        SettledListable(sh, cur, sh.path[i][k].target, 0, place, false);
      }
      SettledListable(sh, cur, i, k + 1, place, addFinal);
    }
  }

  lemma {:induction false} ChainListable(sh: Shape, cur: Cursors, a: Id, i: Id, k: nat, addFinal: bool)
    requires WellFormed(sh) && Located(sh, cur, i) && a in sh.path && Chain(sh, cur, a) && Bottom(sh, cur, a) == i && k <= |sh.path[a]|
    ensures !Throws(sh, cur, a, k, addFinal)
    decreases sh.height - sh.depth[a], |sh.path[a]| - k
  {
    hide WellFormed, Before, Weight, Start, Total, Settled, Index, CalledBy, Chain, Bottom;
    DepthBound(sh, a);
    BottomStep(sh, cur, a);
    if k <= cur[a] {
      if sh.path[a][k].Nested? {
        NestedListed(sh, cur, a, k, true, false);
        if k == cur[a] {
          ChainListable(sh, cur, sh.path[a][k].target, i, 0, false);
        } else {
          WithinEntry(sh, a, k);
          PlaceMono(sh, a, k, cur[a]);
          ListedDown(sh, cur, a, i, true);
          CursorBefore(sh, cur, a, i);
          SettledListable(sh, cur, sh.path[a][k].target, 0, Place(sh, 1, i, cur[i]), false);
        }
      }
      ChainListable(sh, cur, a, i, k + 1, addFinal);
    }
  }

  // The cursors of the chain do not run ahead of the current question.
  lemma CursorBefore(sh: Shape, cur: Cursors, a: Id, i: Id)
    requires WellFormed(sh) && Located(sh, cur, i) && a in sh.path && Chain(sh, cur, a) && Bottom(sh, cur, a) == i
    ensures 0 <= cur[a] < |sh.path[a]| && Place(sh, 1, a, cur[a]) <= Place(sh, 1, i, cur[i])
  {
    hide WellFormed, Before, Weight, Start, Total, Settled, Chain, Bottom, Place;
    BottomStep(sh, cur, a);
    if a != i {
      var t := sh.path[a][cur[a]].target;
      WithinEntry(sh, a, cur[a]);
      StartsAfter(sh, t);
      ListedDown(sh, cur, t, i, false);
    }
  }

  class Interviews {
    const root: Id
    var path: map<Id, seq<Question>>
    var caller: map<Id, Id>
    var currIndex: Cursors
    ghost var depth: map<Id, nat>
    ghost var height: nat

    constructor (root: Id, path: map<Id, seq<Question>>, caller: map<Id, Id>, currIndex: Cursors, ghost depth: map<Id, nat>, ghost height: nat)
      ensures Sh() == Shape(root, path, caller, depth, height) && this.currIndex == currIndex
    {
      this.root, this.path, this.caller, this.currIndex, this.depth, this.height := root, path, caller, currIndex, depth, height;
    }

    ghost function Sh(): Shape
      reads this
    {
      Shape(root, path, caller, depth, height)
    }

    ghost predicate Valid()
      reads this
    {
      WellFormed(Sh()) && Positioned(Sh(), currIndex)
    }

    // The innermost interview open at the cursors
    method StepIn() returns (i: Id)
      requires Valid()
      ensures i == Bottom(Sh(), currIndex, root)
    {
      hide WellFormed, Settled, Chain, Place;
      RootOnPath(Sh());
      DepthBound(Sh(), root);
      i := root;
      while path[i][currIndex[i]].Nested?
        invariant i in path && i in depth && depth[i] <= height && Bottom(Sh(), currIndex, i) == Bottom(Sh(), currIndex, root) && 0 <= currIndex[i] < |path[i]|
        decreases height - depth[i]
      {
        InnerOf(Sh(), currIndex, i);
        i := path[i][currIndex[i]].target;
      }
    }

    method Next() returns (ok: bool)
      requires Valid()
      modifies `currIndex
      ensures Moved(currIndex, ok) == NextMove(Sh(), old(currIndex))
    {
      hide WellFormed, Before, Weight, Start, Total, Settled, Chain, Place, Bottom;
      ghost var sh := Sh();
      var i := StepIn();
      RootOnPath(sh);
      StepOver(sh, currIndex, i);
      currIndex := currIndex[i := currIndex[i] + 1];
      while true
        invariant Sh() == sh && WellFormed(sh) && root in path && Walking(sh, currIndex, i) && Forward(sh, currIndex, i) == NextMove(sh, old(currIndex))
        decreases Total(sh, 1, root) - Place(sh, 1, i, currIndex[i])
      {
        if currIndex[i] == |path[i]| {
          currIndex := currIndex[i := currIndex[i] - 1];
          return false;
        }
        var q := path[i][currIndex[i]];
        if q.Nested? {
          Enter(sh, currIndex, i);
          PlaceWithin(sh, 1, q.target, 0);
          i := q.target;
          currIndex := currIndex[i := 0];
        } else if q.Final? && i in caller {
          FinalIsLast(sh, i, currIndex[i]);
          Leave(sh, currIndex, i);
          PlaceWithin(sh, 1, caller[i], currIndex[caller[i]] + 1);
          i := caller[i];
          currIndex := currIndex[i := currIndex[i] + 1];
        } else {
          return true;
        }
      }
    }

    method Prev() returns (ok: bool)
      requires Valid()
      modifies `currIndex
      ensures Moved(currIndex, ok) == PrevMove(Sh(), old(currIndex))
    {
      hide WellFormed, Before, Weight, Start, Total, Settled, Chain, Place, Bottom;
      ghost var sh := Sh();
      var i := StepIn();
      StepsBack(sh, currIndex, i);
      currIndex := currIndex[i := currIndex[i] - 1];
      while true
        invariant Sh() == sh && WellFormed(sh) && Returning(sh, currIndex, i) && Backward(sh, currIndex, i) == PrevMove(sh, old(currIndex))
        decreases BackLeft(sh, currIndex, i)
      {
        CallerOrRoot(sh, i);
        if currIndex[i] < 0 {
          if i !in caller {
            currIndex := currIndex[i := 0];
            return false;
          }
          Rise(sh, currIndex, i);
          i := caller[i];
          currIndex := currIndex[i := currIndex[i] - 1];
        } else if path[i][currIndex[i]].Nested? {
          Sink(sh, currIndex, i);
          i := path[i][currIndex[i]].target;
          currIndex := currIndex[i := |path[i]| - 1];
        } else if path[i][currIndex[i]].Final? {
          StepBack(sh, currIndex, i);
          currIndex := currIndex[i := currIndex[i] - 1];
        } else {
          return true;
        }
      }
    }

    method GetCurrentQuestion() returns (q: Question)
      requires Valid()
      ensures q == Current(Sh(), currIndex)
      ensures Position(Sh(), currIndex) < |Path(Sh(), currIndex)| && q == Path(Sh(), currIndex)[Position(Sh(), currIndex)]
    {
      CurrentOnPath(Sh(), currIndex);
      hide WellFormed, Bottom, Path, Position;
      var i := StepIn();
      q := path[i][currIndex[i]];
    }

    method SetCurrentQuestion0(i: Id, q: Question) returns (ok: bool)
      requires WellFormed(Sh()) && HasCursors(Sh(), currIndex) && i in path
      modifies `currIndex
      ensures ok <==> Jump(Sh(), old(currIndex), i, 0, q).Some?
      ensures currIndex == if ok then Jump(Sh(), old(currIndex), i, 0, q).value else old(currIndex)
      decreases height - depth[i]
    {
      hide WellFormed;
      ghost var sh := Sh();
      DepthBound(sh, i);
      for k := 0 to |path[i]|
        invariant currIndex == old(currIndex) && Sh() == sh
        invariant Jump(sh, currIndex, i, 0, q) == Jump(sh, currIndex, i, k, q)
      {
        var qq := path[i][k];
        if qq == q {
          currIndex := currIndex[i := k];
          return true;
        }
        if qq.Nested? {
          NestedListed(sh, currIndex, i, k, true, true);
          ok := SetCurrentQuestion0(qq.target, q);
          if ok {
            currIndex := currIndex[i := k];
            return true;
          }
        }
      }
      return false;
    }

    // with nested interviews expanded
    // ok where no exception is thrown
    method IteratePath0(l: seq<Question>, i: Id, all: bool, addFinal: bool) returns (listed: seq<Question>, ok: bool)
      requires WellFormed(Sh()) && HasCursors(Sh(), currIndex) && i in path
      ensures ok <==> all || !Throws(Sh(), currIndex, i, 0, addFinal)
      ensures ok ==> listed == l + Listed(Sh(), currIndex, i, 0, all, addFinal)
      decreases height - depth[i]
    {
      hide WellFormed, Body, Before;
      ghost var sh := Sh();
      DepthBound(sh, i);
      listed, ok := l, true;
      var n := if all then |path[i]| else currIndex[i] + 1;
      var k := 0;
      while k < n
        invariant 0 <= k <= |path[i]| && ok
        invariant all || (Throws(sh, currIndex, i, 0, addFinal) <==> Throws(sh, currIndex, i, k, addFinal))
        invariant listed + Listed(sh, currIndex, i, k, all, addFinal) == l + Listed(sh, currIndex, i, 0, all, addFinal)
        decreases n - k
      {
        if k >= |path[i]| { return listed, false; }   // questionAt
        var q := path[i][k];
        ghost var rest := Listed(sh, currIndex, i, k + 1, all, addFinal);
        if q.Nested? {
          NestedListed(sh, currIndex, i, k, all, addFinal);
          ghost var before := listed;
          listed, ok := IteratePath0(listed, q.target, all, false);
          if !ok { return; }
          assert before + (Listed(sh, currIndex, q.target, 0, all, false) + rest) == listed + rest;
        } else if !addFinal && q.Final? {
          return;
        } else {
          assert listed + ([q] + rest) == (listed + [q]) + rest;
          listed := listed + [q];
        }
        k := k + 1;
      }
    }

    method GetPath() returns (p: seq<Question>)
      requires Valid()
      ensures p == Path(Sh(), currIndex)
    {
      var ok;
      RootOnPath(Sh());
      p, ok := IteratePath0([], root, true, true);
    }

    // None where an exception is thrown, which is not where there is a current
    // question
    method GetPathToCurrent() returns (p: Option<seq<Question>>)
      requires WellFormed(Sh()) && HasCursors(Sh(), currIndex) && root in path
      ensures p == ToCurrent(Sh(), currIndex)
      ensures Positioned(Sh(), currIndex) ==>
        && Position(Sh(), currIndex) < |Path(Sh(), currIndex)|
        && p == Some(Path(Sh(), currIndex)[..Position(Sh(), currIndex) + 1])
    {
      if Positioned(Sh(), currIndex) {
        CurrentReturned(Sh(), currIndex);
      }
      hide WellFormed, Path, Position, Listed, Throws, Positioned;
      var listed, ok := IteratePath0([], root, false, true);
      assert [] + PathToCurrent(Sh(), currIndex) == PathToCurrent(Sh(), currIndex);
      p := if ok then Some(listed) else None;
    }
  }

  lemma CurrentReturned(sh: Shape, cur: Cursors)
    requires WellFormed(sh) && Positioned(sh, cur)
    ensures sh.root in sh.path && Position(sh, cur) < |Path(sh, cur)|
    ensures ToCurrent(sh, cur) == Some(Path(sh, cur)[..Position(sh, cur) + 1])
  {
    CurrentOnPath(sh, cur);
    hide WellFormed, Path, Position, Listed, Throws;
    RootOnPath(sh);
    ChainListable(sh, cur, sh.root, Bottom(sh, cur, sh.root), 0, true);
  }

  lemma InnerOf(sh: Shape, cur: Cursors, i: Id)
    requires WellFormed(sh) && Positioned(sh, cur) && i in sh.path && 0 <= cur[i] < |sh.path[i]| && sh.path[i][cur[i]].Nested?
    requires Bottom(sh, cur, i) == Bottom(sh, cur, sh.root)
    ensures var t := sh.path[i][cur[i]].target;
      t in sh.path && Bottom(sh, cur, t) == Bottom(sh, cur, sh.root) && 0 <= cur[t] < |sh.path[t]|
      && t in sh.depth && i in sh.depth && sh.depth[i] < sh.depth[t] <= sh.height
  {
    assert NestedAt(sh, i, cur[i], sh.path[i][cur[i]].target);
  }
}
