// Predicting the path of an interview from the answers given so far: reset,
// updatePath, trimPath, predictPath and pathContains.
//
// The questions on the path, nested ones below the question that stands for
// their interview, are given by a walk: all of them in the order in which they
// have been added.  The path of an interview is what the walk has of it.
module PredictPath {
  import opened InterviewPath

  // The questions and interviews, and what the answers make of them: next is
  // what predictNext gives for a question with a valid value, and what getNext
  // gives for one that stands for a nested interview; a question not in it has
  // no successor.
  datatype Form = Form(
    root: Id,
    first: map<Id, Question>,       // getFirstQuestion
    home: map<Question, Id>,        // getInterview
    next: map<Question, Question>,
    enabled: set<Question>)

  predicate Skipped(f: Form, q: Question) { q.Plain? && q !in f.enabled }

  // Successors stay in their interview.
  ghost predicate Closed(f: Form) {
    && f.root in f.first
    && (forall i :: i in f.first ==> f.first[i] in f.home && f.home[f.first[i]] == i)
    && (forall q :: q in f.next ==> q in f.home && !q.Final? && f.next[q] in f.home && f.home[f.next[q]] == f.home[q])
    && (forall q :: q in f.home && q.Nested? ==> q.target in f.first && q.target != f.root && q in f.next)
  }

  type Walk = seq<Question>

  function Targets(w: Walk): set<Id> { set q | q in w && q.Nested? :: q.target }

  function NextOf(f: Form, q: Question): Option<Question> { if q in f.next then Some(f.next[q]) else None }

  // The question that stands for interview i on the walk
  function CallerOf(w: Walk, i: Id): Option<Question> {
    if w == [] then None
    else
      var last := w[|w| - 1];
      if last.Nested? && last.target == i then Some(last) else CallerOf(w[..|w| - 1], i)
  }

  // ---- well-formed walks ---------------------------------------------

  // The interviews that have been entered and not left
  function Stack(f: Form, w: Walk): seq<Id> {
    if w == [] then [f.root] else StackAfter(Stack(f, w[..|w| - 1]), w[|w| - 1])
  }

  function StackAfter(st: seq<Id>, q: Question): seq<Id> {
    if q.Plain? then st
    else if q.Nested? then st + [q.target]
    else if st == [] then st
    else st[..|st| - 1]
  }

  // q may come next: it is of the interview being walked, and neither it nor
  // its target is there already.
  predicate Extends(f: Form, w: Walk, q: Question) {
    && q in f.home && q !in w && (q.Nested? ==> q.target !in Targets(w) && q.target != f.root)
    && Stack(f, w) != [] && f.home[q] == Stack(f, w)[|Stack(f, w)| - 1]
  }

  predicate WalkOk(f: Form, w: Walk) {
    w == [] || (WalkOk(f, w[..|w| - 1]) && Extends(f, w[..|w| - 1], w[|w| - 1]))
  }

  // What the walk has of interview i
  function Filter(f: Form, w: Walk, i: Id): seq<Question> {
    if w == [] then []
    else
      var last := w[|w| - 1];
      Filter(f, w[..|w| - 1], i) + if last in f.home && f.home[last] == i then [last] else []
  }

  predicate Attached(f: Form, w: Walk, i: Id) { i == f.root || i in Targets(w) }

  // ---- prediction ----------------------------------------------------

  // The loop passes over q without adding anything.
  predicate Passes(f: Form, w: Walk, q: Option<Question>) { q.Some? && q.value !in w && Skipped(f, q.value) }

  // The successor of a candidate
  function NextOne(f: Form, q: Option<Question>): Option<Question> { if q.None? then None else NextOf(f, q.value) }

  // The first candidate from q on, among the next n, that is not passed over;
  // None where the path ends.
  function SkipIn(f: Form, w: Walk, q: Option<Question>, n: nat): Option<Question>
    decreases n
  {
    if q.None? || q.value in w then None
    else if q.value.Final? then q
    else if q.value.Nested? then if q.value.target in Targets(w) then None else q
    else if q.value in f.enabled then q
    else if n == 0 then None
    else SkipIn(f, w, NextOf(f, q.value), n - 1)
  }

  // No more candidates than there are questions need be looked at.
  function Skip(f: Form, w: Walk, q: Option<Question>): Option<Question> { SkipIn(f, w, q, |f.home|) }

  // What comes after the last question of the walk
  ghost function Following(f: Form, w: Walk): (q: Option<Question>)
    requires Closed(f) && w != [] && WalkOk(f, w)
    ensures q.Some? ==> q.value in f.home
  {
    var last := w[|w| - 1];
    match last
    case Plain(_) => NextOf(f, last)
    case Nested(_, t) => Some(f.first[t])
    case Final(_) =>
      match CallerOf(w, f.home[last])
      case None => None
      case Some(c) => NextOf(f, c)
  }

  ghost function Successor(f: Form, w: Walk): Option<Question>
    requires Closed(f) && w != [] && WalkOk(f, w)
  {
    Skip(f, w, Following(f, w))
  }

  lemma WalkSnoc(f: Form, w: Walk, q: Question)
    ensures WalkOk(f, w + [q]) <==> WalkOk(f, w) && Extends(f, w, q)
    ensures Stack(f, w + [q]) == StackAfter(Stack(f, w), q)
    ensures forall i :: Filter(f, w + [q], i) == Filter(f, w, i) + if q in f.home && f.home[q] == i then [q] else []
    ensures forall i :: CallerOf(w + [q], i) == if q.Nested? && q.target == i then Some(q) else CallerOf(w, i)
    ensures Targets(w + [q]) == Targets(w) + if q.Nested? then {q.target} else {}
  {
    assert (w + [q])[..|w|] == w;
  }

  // The questions and interviews of a walk are on it once.
  lemma {:induction false} WalkDistinct(f: Form, w: Walk, j: nat, k: nat)
    requires WalkOk(f, w) && j < k < |w|
    ensures w[j] in f.home && w[k] in f.home && w[j] != w[k] && (w[j].Nested? && w[k].Nested? ==> w[j].target != w[k].target)
  {
    var n := |w| - 1;
    var front := w[..n];
    if k < n {
      WalkDistinct(f, front, j, k);
    } else {
      assert front[j] in front;
      assert w[j].Nested? ==> w[j].target in Targets(front);
      if j > 0 {
        WalkDistinct(f, front, 0, j);
      } else {
        InHome(f, w, 0);
      }
    }
  }

  lemma {:induction false} InHome(f: Form, w: Walk, k: nat)
    requires WalkOk(f, w) && k < |w|
    ensures w[k] in f.home
  {
    if k < |w| - 1 {
      InHome(f, w[..|w| - 1], k);
    }
  }

  lemma {:induction false} CallerIsTarget(f: Form, w: Walk, i: Id)
    requires WalkOk(f, w)
    ensures CallerOf(w, i).Some? <==> i in Targets(w)
    ensures CallerOf(w, i).Some? ==> var c := CallerOf(w, i).value; c in w && c.Nested? && c.target == i && c in f.home && i != f.root
    ensures forall q :: q in w && q.Nested? && q.target == i ==> CallerOf(w, i) == Some(q)
  {
    if w != [] {
      var n := |w| - 1;
      CallerIsTarget(f, w[..n], i);
      assert w == w[..n] + [w[n]];
      WalkSnoc(f, w[..n], w[n]);
    }
  }

  // The interviews on the stack are each called from the one below, by the
  // last question so far of that; they are distinct, and the others that have
  // been called have ended.
  ghost predicate Linked(f: Form, w: Walk, st: seq<Id>) {
    && (forall h :: 0 <= h < |st| ==> Attached(f, w, st[h]))
    && (forall h :: 0 <= h < |st| - 1 ==> LinkedAt(f, w, st[h], st[h + 1]))
    && (forall h, g :: 0 <= h < g < |st| ==> st[h] != st[g])
    && (st != [] ==> st[0] == f.root)
  }

  predicate LinkedAt(f: Form, w: Walk, i: Id, t: Id) {
    && CallerOf(w, t).Some? && CallerOf(w, t).value in f.home && f.home[CallerOf(w, t).value] == i
    && Filter(f, w, i) != [] && Filter(f, w, i)[|Filter(f, w, i)| - 1] == CallerOf(w, t).value
  }

  ghost predicate EndedAt(f: Form, w: Walk, t: Id) {
    Filter(f, w, t) != [] && Filter(f, w, t)[|Filter(f, w, t)| - 1].Final?
  }

  lemma {:induction false} StackLinked(f: Form, w: Walk)
    requires Closed(f) && WalkOk(f, w)
    ensures Linked(f, w, Stack(f, w))
    ensures forall t :: Attached(f, w, t) && t !in Stack(f, w) ==> EndedAt(f, w, t)
    ensures forall t :: !Attached(f, w, t) ==> Filter(f, w, t) == []
  {
    if w != [] {
      var n := |w| - 1;
      var front, q := w[..n], w[n];
      assert w == front + [q];
      StackLinked(f, front);
      WalkSnoc(f, front, q);
      LinkedSnoc(f, front, q);
    }
  }

  lemma LinkedSnoc(f: Form, w: Walk, q: Question)
    requires Closed(f) && WalkOk(f, w) && Extends(f, w, q) && Linked(f, w, Stack(f, w))
    requires forall t :: Attached(f, w, t) && t !in Stack(f, w) ==> EndedAt(f, w, t)
    requires forall t :: !Attached(f, w, t) ==> Filter(f, w, t) == []
    ensures var w' := w + [q];
      && Linked(f, w', Stack(f, w'))
      && (forall t :: Attached(f, w', t) && t !in Stack(f, w') ==> EndedAt(f, w', t))
      && (forall t :: !Attached(f, w', t) ==> Filter(f, w', t) == [])
  {
    hide Stack, Filter, CallerOf, Targets, Linked, EndedAt, Closed;
    WalkSnoc(f, w, q);
    LinksKept(f, w, q);
    EndsKept(f, w, q);
    assert Attached(f, w, Stack(f, w)[|Stack(f, w)| - 1]) by {
      TopAttached(f, w);
    }
  }

  lemma TopAttached(f: Form, w: Walk)
    requires Linked(f, w, Stack(f, w)) && Stack(f, w) != []
    ensures Attached(f, w, Stack(f, w)[|Stack(f, w)| - 1])
  {
  }

  lemma LinksKept(f: Form, w: Walk, q: Question)
    requires WalkOk(f, w) && Extends(f, w, q) && Linked(f, w, Stack(f, w))
    ensures Linked(f, w + [q], Stack(f, w + [q]))
  {
    hide Stack, Filter, CallerOf, Targets;
    var w', st := w + [q], Stack(f, w);
    WalkSnoc(f, w, q);
    var st' := Stack(f, w');
    forall h | 0 <= h < |st'| - 1 ensures LinkedAt(f, w', st'[h], st'[h + 1]) {
      if h + 1 < |st| {
        assert LinkedAt(f, w, st[h], st[h + 1]);
        CallerIsTarget(f, w, st[h + 1]);
      }
    }
  }

  lemma EndsKept(f: Form, w: Walk, q: Question)
    requires WalkOk(f, w) && Extends(f, w, q)
    requires forall t :: Attached(f, w, t) && t !in Stack(f, w) ==> EndedAt(f, w, t)
    ensures forall t :: Attached(f, w + [q], t) && t !in Stack(f, w + [q]) ==> EndedAt(f, w + [q], t)
  {
    hide Stack, Filter, CallerOf, Targets;
    var w', st := w + [q], Stack(f, w);
    WalkSnoc(f, w, q);
    assert q.Nested? ==> Stack(f, w')[|st|] == q.target;
    forall t | Attached(f, w', t) && t !in Stack(f, w') ensures EndedAt(f, w', t) {
      if t in st {
        assert q.Final? && t == st[|st| - 1];
      } else {
        assert EndedAt(f, w, t);
        assert f.home[q] in st;
      }
    }
  }

  // ---- the successor may be added ------------------------------------

  lemma {:induction false} SkipInStays(f: Form, w: Walk, q: Option<Question>, n: nat)
    requires Closed(f) && (q.Some? ==> q.value in f.home)
    ensures var r := SkipIn(f, w, q, n);
      r.Some? ==>
        && q.Some? && r.value in f.home && f.home[r.value] == f.home[q.value] && r.value !in w
        && (r.value.Nested? ==> r.value.target !in Targets(w) && r.value.target != f.root)
    decreases n
  {
    if n > 0 && Passes(f, w, q) {
      SkipInStays(f, w, NextOf(f, q.value), n - 1);
    }
  }

  lemma SkipStays(f: Form, w: Walk, q: Option<Question>)
    requires Closed(f) && (q.Some? ==> q.value in f.home)
    ensures var r := Skip(f, w, q);
      r.Some? ==>
        && q.Some? && r.value in f.home && f.home[r.value] == f.home[q.value] && r.value !in w
        && (r.value.Nested? ==> r.value.target !in Targets(w) && r.value.target != f.root)
  {
    SkipInStays(f, w, q, |f.home|);
  }

  lemma FollowingIsHere(f: Form, w: Walk)
    requires Closed(f) && w != [] && WalkOk(f, w) && Following(f, w).Some?
    ensures Stack(f, w) != [] && f.home[Following(f, w).value] == Stack(f, w)[|Stack(f, w)| - 1]
  {
    var front, last := w[..|w| - 1], w[|w| - 1];
    assert w == front + [last];
    WalkSnoc(f, front, last);
    StackLinked(f, front);
    var st := Stack(f, front);
    if last.Final? {
      CallerIsTarget(f, front, f.home[last]);
      assert |st| > 1 ==> LinkedAt(f, front, st[|st| - 2], st[|st| - 1]);
    }
    hide Stack, Filter, WalkOk, CallerOf, Targets;
  }

  lemma SuccessorExtends(f: Form, w: Walk)
    requires Closed(f) && w != [] && WalkOk(f, w) && Successor(f, w).Some?
    ensures Extends(f, w, Successor(f, w).value) && WalkOk(f, w + [Successor(f, w).value])
  {
    hide Stack, WalkOk, Skip, Following;
    SkipStays(f, w, Following(f, w));
    FollowingIsHere(f, w);
    WalkSnoc(f, w, Successor(f, w).value);
  }

  function Asked(w: Walk): set<Question> { set q | q in w }

  lemma FewerLeft(f: Form, w: Walk, q: Question)
    requires WalkOk(f, w) && Extends(f, w, q)
    ensures |f.home.Keys - Asked(w + [q])| < |f.home.Keys - Asked(w)|
  {
    hide WalkOk, Stack, Targets;
    var left, left' := f.home.Keys - Asked(w), f.home.Keys - Asked(w + [q]);
    assert Asked(w + [q]) == Asked(w) + {q};
    assert left' == left - {q} && q in left;
  }

  // The path from a walk on
  ghost function Predicted(f: Form, w: Walk): Walk
    requires Closed(f) && w != [] && WalkOk(f, w)
    decreases |f.home.Keys - Asked(w)|
  {
    match Successor(f, w)
    case None => w
    case Some(q) =>
      SuccessorExtends(f, w);
      FewerLeft(f, w, q);
      Predicted(f, w + [q])
  }

  // ---- the path an interview's answers make --------------------------

  // Each question of the walk from the n-th on is determined by those before.
  ghost predicate FollowsFrom(f: Form, w: Walk, n: nat)
    requires Closed(f) && n > 0
  {
    forall k :: n <= k < |w| ==> WalkOk(f, w[..k]) && Successor(f, w[..k]) == Some(w[k])
  }

  ghost predicate Follows(f: Form, w: Walk)
    requires Closed(f)
  {
    FollowsFrom(f, w, 1)
  }

  // From the first question of the root, each question determines the next, to
  // one after which nothing can be added.
  ghost predicate Traced(f: Form, w: Walk)
    requires Closed(f)
  {
    w != [] && WalkOk(f, w) && w[0] == f.first[f.root] && Follows(f, w) && Successor(f, w) == None
  }

  // The whole path: what is traced, where the last question has no successor
  // but disabled questions, or one already there.
  ghost predicate IsPath(f: Form, w: Walk)
    requires Closed(f)
  {
    Traced(f, w) && !Stuck(f, w, Following(f, w))
  }

  lemma {:induction false} PredictedFollows(f: Form, w: Walk)
    requires Closed(f) && w != [] && WalkOk(f, w)
    ensures var p := Predicted(f, w);
      w <= p && WalkOk(f, p) && FollowsFrom(f, p, |w|) && Successor(f, p) == None
    decreases |f.home.Keys - Asked(w)|
  {
    hide Closed, WalkOk, Extends, Skip, Following, Asked;
    match Successor(f, w)
    case None =>
    case Some(q) =>
      SuccessorExtends(f, w);
      FewerLeft(f, w, q);
      PredictedFollows(f, w + [q]);
      var p := Predicted(f, w);
      assert p == Predicted(f, w + [q]) && p[..|w|] == w && p[|w|] == q;
  }

  // The answers allow only one.
  lemma {:induction false} PathsAgree(f: Form, a: Walk, b: Walk, k: nat)
    requires Closed(f) && Traced(f, a) && Traced(f, b) && k <= |a|
    ensures k <= |b| && a[..k] == b[..k]
  {
    hide Closed, WalkOk, Skip, Following, Successor;
    if k == 1 {
      assert a[..1] == [a[0]] && b[..1] == [b[0]];
    } else if k > 1 {
      PathsAgree(f, a, b, k - 1);
      assert Successor(f, a[..k - 1]) == Some(a[k - 1]);
      assert b[..|b|] == b;
      assert k - 1 < |b|;
      assert Successor(f, b[..k - 1]) == Some(b[k - 1]);
      assert a[..k] == a[..k - 1] + [a[k - 1]];
    }
  }

  lemma PathIsUnique(f: Form, a: Walk, b: Walk)
    requires Closed(f) && Traced(f, a) && Traced(f, b)
    ensures a == b
  {
    PathsAgree(f, a, b, |a|);
    PathsAgree(f, b, a, |b|);
    assert a[..|a|] == a && b[..|b|] == b;
  }

  // reset
  ghost function FreshPath(f: Form): Walk
    requires Closed(f)
  {
    StartOk(f);
    Predicted(f, [f.first[f.root]])
  }

  lemma StartOk(f: Form)
    requires Closed(f)
    ensures WalkOk(f, [f.first[f.root]])
  {
    assert [f.first[f.root]] == [] + [f.first[f.root]];
    var q := f.first[f.root];
    assert Stack(f, []) == [f.root];
    WalkSnoc(f, [], q);
  }

  // Prediction from the first question of the root ends.
  ghost predicate StartEnds(f: Form)
    requires Closed(f)
  {
    StartOk(f);
    Ends(f, [f.first[f.root]])
  }

  lemma StartFinal(f: Form)
    requires Closed(f)
    ensures WalkOk(f, [f.first[f.root]])
    ensures f.first[f.root].Final? ==> Predicted(f, [f.first[f.root]]) == [f.first[f.root]]
  {
    var q := f.first[f.root];
    StartOk(f);
    assert [q][..0] == [];
    assert q.Final? ==> CallerOf([q], f.root) == CallerOf([], f.root);
  }

  // reset finds the path, exactly when there is one.
  lemma FreshPathIsPath(f: Form)
    requires Closed(f)
    ensures Traced(f, FreshPath(f))
    ensures (exists w :: IsPath(f, w)) <==> StartEnds(f)
    ensures forall w :: IsPath(f, w) ==> w == FreshPath(f)
  {
    var w := [f.first[f.root]];
    StartOk(f);
    PredictedFollows(f, w);
    assert Predicted(f, w)[..1] == w;
    hide Stuck, Traced, Predicted, WalkOk, Closed;
    assert FreshPath(f) == Predicted(f, w);
    forall v | IsPath(f, v) ensures v == FreshPath(f) {
      PathIsUnique(f, v, FreshPath(f));
    }
    if Ends(f, w) {
      assert IsPath(f, FreshPath(f));
    }
  }

  // updatePath for a changed question q: the walk up to q, and what the new
  // answers make follow.  A FinalQuestion has no successor of its own, so
  // nothing follows it then, not even in the interview that called.
  ghost function Updated(f: Form, w: Walk, p: nat): Walk
    requires Closed(f) && WalkOk(f, w) && p < |w|
  {
    PrefixOk(f, w, p + 1);
    if w[p].Final? then w[..p + 1] else Predicted(f, w[..p + 1])
  }

  lemma {:induction false} PrefixOk(f: Form, w: Walk, k: nat)
    requires WalkOk(f, w) && k <= |w|
    ensures WalkOk(f, w[..k])
  {
    if k == |w| {
      assert w[..k] == w;
    } else {
      assert w[..|w| - 1][..k] == w[..k];
      PrefixOk(f, w[..|w| - 1], k);
    }
  }

  // The update of a path for a changed question is the path found from the
  // beginning, exactly when the questions up to the changed one are still
  // those that the answers make, and end there if that is a FinalQuestion.
  lemma UpdateIsFreshIff(f: Form, w: Walk, p: nat)
    requires Closed(f) && WalkOk(f, w) && p < |w| && w[0] == f.first[f.root]
    ensures WalkOk(f, w[..p + 1])
    ensures Updated(f, w, p) == FreshPath(f)
       <==> Follows(f, w[..p + 1]) && (w[p].Final? ==> Successor(f, w[..p + 1]) == None)
  {
    PrefixOk(f, w, p + 1);
    var v := w[..p + 1];
    hide WalkOk, Skip, Following, Successor, Predicted, FreshPath, Closed;
    FreshPathIsPath(f);
    if w[p].Final? {
      if Follows(f, v) && Successor(f, v) == None {
        PathIsUnique(f, v, FreshPath(f));
      }
    } else {
      ExtensionIsFreshIff(f, v);
    }
  }

  lemma ExtensionIsFreshIff(f: Form, v: Walk)
    requires Closed(f) && v != [] && WalkOk(f, v) && v[0] == f.first[f.root]
    ensures Predicted(f, v) == FreshPath(f) <==> Follows(f, v)
  {
    hide WalkOk, Skip, Following, Successor, Predicted, FreshPath, Closed;
    var u := Predicted(f, v);
    PredictedFollows(f, v);
    FreshPathIsPath(f);
    assert u[..|v|] == v;
    if u == FreshPath(f) {
      forall k | 1 <= k < |v| ensures WalkOk(f, v[..k]) && Successor(f, v[..k]) == Some(v[k]) {
        assert u[..k] == v[..k] && u[k] == v[k];
      }
    } else if Follows(f, v) {
      forall k | 1 <= k < |u| ensures WalkOk(f, u[..k]) && Successor(f, u[..k]) == Some(u[k]) {
        if k < |v| {
          assert u[..k] == v[..k] && u[k] == v[k];
        }
      }
      assert u[0] == v[0];
      PathIsUnique(f, u, FreshPath(f));
    }
  }

  // The update keeps the walk up to the changed question, and updating again
  // with the same answers changes nothing.
  lemma UpdateKeeps(f: Form, w: Walk, p: nat)
    requires Closed(f) && WalkOk(f, w) && p < |w|
    ensures var u := Updated(f, w, p);
      WalkOk(f, u) && p < |u| && u[..p + 1] == w[..p + 1] && Updated(f, u, p) == u
  {
    PrefixOk(f, w, p + 1);
    PredictedFollows(f, w[..p + 1]);
  }

  // ---- when looking for the successor ends ---------------------------

  // The n-th candidate from q on
  function Nth(f: Form, q: Option<Question>, n: nat): Option<Question> { if n == 0 then q else NextOne(f, Nth(f, q, n - 1)) }

  // Every candidate from q on is passed over.
  ghost predicate Stuck(f: Form, w: Walk, q: Option<Question>) { forall n: nat :: Passes(f, w, Nth(f, q, n)) }

  lemma {:induction false} NthShift(f: Form, q: Option<Question>, m: nat, n: nat)
    ensures Nth(f, q, m + n) == Nth(f, Nth(f, q, m), n)
  {
    if n > 0 {
      NthShift(f, q, m, n - 1);
    }
  }

  lemma {:induction false} NthHome(f: Form, q: Option<Question>, n: nat)
    requires Closed(f) && (q.Some? ==> q.value in f.home)
    ensures Nth(f, q, n).Some? ==> Nth(f, q, n).value in f.home
  {
    if n > 0 {
      NthHome(f, q, n - 1);
    }
  }

  lemma {:induction false} DistinctFits(s: seq<Question>, all: set<Question>)
    requires (forall q :: q in s ==> q in all) && forall i, j :: 0 <= i < j < |s| ==> s[i] != s[j]
    ensures |s| <= |all|
  {
    if s != [] {
      var n := |s| - 1;
      assert s[n] !in s[..n];
      DistinctFits(s[..n], all - {s[n]});
    }
  }

  // Where a candidate comes again, the loop is in a cycle.
  lemma {:induction false} RepeatsStuck(f: Form, w: Walk, q: Option<Question>, i: nat, j: nat, n: nat)
    requires i < j && Nth(f, q, i) == Nth(f, q, j) && forall k :: 0 <= k < j ==> Passes(f, w, Nth(f, q, k))
    ensures Passes(f, w, Nth(f, q, n))
    decreases n
  {
    if n >= j {
      NthShift(f, q, j, n - j);
      NthShift(f, q, i, n - j);
      RepeatsStuck(f, w, q, i, j, i + (n - j));
    }
  }

  // The n candidates from q on, and one more, are passed over.
  ghost predicate PassedTo(f: Form, w: Walk, q: Option<Question>, n: nat) {
    forall k :: 0 <= k <= n ==> Passes(f, w, Nth(f, q, k))
  }

  // Looking for the successor goes on for ever exactly when no more candidates
  // than there are questions, and one, are all disabled and off the path.
  lemma StuckIff(f: Form, w: Walk, q: Option<Question>)
    requires Closed(f) && (q.Some? ==> q.value in f.home)
    ensures Stuck(f, w, q) <==> PassedTo(f, w, q, |f.home|)
  {
    if PassedTo(f, w, q, |f.home|) {
      var i, j := Repeats(f, w, q);
      forall n: nat ensures Passes(f, w, Nth(f, q, n)) {
        RepeatsStuck(f, w, q, i, j, n);
      }
      assert Stuck(f, w, q);
    }
  }

  lemma Repeats(f: Form, w: Walk, q: Option<Question>) returns (i: nat, j: nat)
    requires Closed(f) && (q.Some? ==> q.value in f.home)
    requires PassedTo(f, w, q, |f.home|)
    ensures i < j <= |f.home| && Nth(f, q, i) == Nth(f, q, j)
  {
    var s := seq(|f.home| + 1, n requires 0 <= n <= |f.home| => Nth(f, q, n).value);
    forall x | x in s ensures x in f.home.Keys {
      var n :| 0 <= n < |s| && s[n] == x;
      NthHome(f, q, n);
    }
    if forall i, j :: 0 <= i < j < |s| ==> s[i] != s[j] {
      DistinctFits(s, f.home.Keys);
      assert false;
    }
    i, j :| 0 <= i < j < |s| && s[i] == s[j];
  }

  // What is skipped does not depend on how far is looked, when that is far
  // enough.
  lemma {:induction false} SkipInEnough(f: Form, w: Walk, q: Option<Question>, n: nat, m: nat)
    requires n <= m && !Passes(f, w, Nth(f, q, n))
    ensures SkipIn(f, w, q, m) == SkipIn(f, w, q, n) && Count(f, w, q, m) == Count(f, w, q, n)
    decreases n
  {
    if n > 0 && Passes(f, w, q) {
      NthShift(f, q, 1, n - 1);
      assert Nth(f, q, 1) == NextOne(f, Nth(f, q, 0));
      SkipInEnough(f, w, NextOf(f, q.value), n - 1, m - 1);
    }
  }

  lemma {:induction false} SkipInNone(f: Form, w: Walk, q: Option<Question>, n: nat)
    requires PassedTo(f, w, q, n)
    ensures SkipIn(f, w, q, n) == None
    decreases n
  {
    assert Passes(f, w, Nth(f, q, 0));
    if n > 0 {
      var next := NextOf(f, q.value);
      forall k | 0 <= k <= n - 1 ensures Passes(f, w, Nth(f, next, k)) {
        NthShift(f, q, 1, k);
        assert Nth(f, q, 1) == NextOne(f, Nth(f, q, 0));
        assert Passes(f, w, Nth(f, q, 1 + k));
      }
      SkipInNone(f, w, next, n - 1);
    }
  }

  // How many candidates are passed over
  function Count(f: Form, w: Walk, q: Option<Question>, n: nat): nat
    decreases n
  {
    if n == 0 || !Passes(f, w, q) then 0 else 1 + Count(f, w, NextOf(f, q.value), n - 1)
  }

  function SkipsLeft(f: Form, w: Walk, q: Option<Question>): nat { Count(f, w, q, |f.home|) }

  // Passing over one candidate
  lemma PassOne(f: Form, w: Walk, q: Question)
    requires Closed(f) && q in f.home && Passes(f, w, Some(q))
    ensures Stuck(f, w, Some(q)) <==> Stuck(f, w, NextOf(f, q))
    ensures Skip(f, w, Some(q)) == Skip(f, w, NextOf(f, q))
    ensures !Stuck(f, w, Some(q)) ==> SkipsLeft(f, w, NextOf(f, q)) < SkipsLeft(f, w, Some(q))
  {
    var next, h := NextOf(f, q), |f.home|;
    assert Nth(f, Some(q), 0) == Some(q) && Nth(f, Some(q), 1) == NextOne(f, Nth(f, Some(q), 0)) == next;
    forall n: nat ensures Nth(f, next, n) == Nth(f, Some(q), n + 1) {
      NthShift(f, Some(q), 1, n);
    }
    if Stuck(f, w, next) {
      forall n: nat ensures Passes(f, w, Nth(f, Some(q), n)) {
        if n > 0 {
          assert Passes(f, w, Nth(f, next, n - 1));
        }
      }
    }
    if Stuck(f, w, Some(q)) {
      forall n: nat ensures Passes(f, w, Nth(f, next, n)) {
        assert Passes(f, w, Nth(f, Some(q), n + 1));
      }
      SkipInNone(f, w, Some(q), h);
      SkipInNone(f, w, next, h);
    } else {
      StuckIff(f, w, Some(q));
      var n :| 0 <= n <= h && !Passes(f, w, Nth(f, Some(q), n));
      assert n > 0 && Nth(f, next, n - 1) == Nth(f, Some(q), n);
      SkipInEnough(f, w, Some(q), n, h);
      SkipInEnough(f, w, next, n - 1, h);
    }
  }

  // What is found was looked for to an end.
  lemma FoundNotStuck(f: Form, w: Walk, q: Option<Question>)
    requires Skip(f, w, q).Some?
    ensures !Stuck(f, w, q)
  {
    if Stuck(f, w, q) {
      SkipInNone(f, w, q, |f.home|);
    }
  }

  // Prediction from a walk on ends.
  ghost predicate Ends(f: Form, w: Walk)
    requires Closed(f) && w != [] && WalkOk(f, w)
  {
    PredictedFollows(f, w);
    !Stuck(f, Predicted(f, w), Following(f, Predicted(f, w)))
  }

  // ---- cycles of disabled questions ----------------------------------

  ghost predicate DisabledCycle(f: Form, cycle: seq<Question>) {
    && |cycle| > 0
    && forall k :: 0 <= k < |cycle| ==> Skipped(f, cycle[k]) && NextOf(f, cycle[k]) == Some(cycle[if k + 1 < |cycle| then k + 1 else 0])
  }

  ghost predicate OffPath(w: Walk, cycle: seq<Question>) { forall k :: 0 <= k < |cycle| ==> cycle[k] !in w }

  lemma {:induction false} CyclePasses(f: Form, w: Walk, cycle: seq<Question>, at: nat, n: nat)
    requires DisabledCycle(f, cycle) && OffPath(w, cycle) && at < |cycle|
    ensures Passes(f, w, Nth(f, Some(cycle[at]), n)) && Nth(f, Some(cycle[at]), n).value in cycle
  {
    if n > 0 {
      CyclePasses(f, w, cycle, at, n - 1);
      var k :| 0 <= k < |cycle| && cycle[k] == Nth(f, Some(cycle[at]), n - 1).value;
      assert Nth(f, Some(cycle[at]), n) == Some(cycle[if k + 1 < |cycle| then k + 1 else 0]);
    }
  }

  // The n-th candidate from q on, those before being passed over, is in a cycle
  // of disabled questions off the path.
  ghost predicate ComesTo(f: Form, w: Walk, q: Option<Question>, cycle: seq<Question>, n: nat) {
    && DisabledCycle(f, cycle) && OffPath(w, cycle) && Nth(f, q, n) == Some(cycle[0])
    && forall k :: 0 <= k < n ==> Passes(f, w, Nth(f, q, k))
  }

  lemma CycleOfStuck(f: Form, w: Walk, q: Option<Question>) returns (cycle: seq<Question>, i: nat)
    requires Closed(f) && Stuck(f, w, q) && (q.Some? ==> q.value in f.home)
    ensures ComesTo(f, w, q, cycle, i)
  {
    var j;
    i, j := Repeats(f, w, q);
    assert Passes(f, w, Nth(f, q, i));
    cycle := seq(j - i, k requires 0 <= k < j - i => assert Passes(f, w, Nth(f, q, i + k)); Nth(f, q, i + k).value);
    forall k | 0 <= k < |cycle|
      ensures Skipped(f, cycle[k]) && cycle[k] !in w && NextOf(f, cycle[k]) == Some(cycle[if k + 1 < |cycle| then k + 1 else 0])
    {
      assert Passes(f, w, Nth(f, q, i + k)) && Passes(f, w, Nth(f, q, i + k + 1));
      assert Nth(f, q, i + k + 1) == NextOne(f, Nth(f, q, i + k));
    }
  }

  // Looking for the successor goes on for ever exactly when it comes to such a
  // cycle.
  lemma StuckCycleIff(f: Form, w: Walk, q: Option<Question>)
    requires Closed(f) && (q.Some? ==> q.value in f.home)
    ensures Stuck(f, w, q) <==> exists cycle, n: nat :: ComesTo(f, w, q, cycle, n)
  {
    if Stuck(f, w, q) {
      var cycle, n := CycleOfStuck(f, w, q);
    }
    if cycle, n: nat :| ComesTo(f, w, q, cycle, n) {
      forall k: nat ensures Passes(f, w, Nth(f, q, k)) {
        if k >= n {
          NthShift(f, q, n, k - n);
          CyclePasses(f, w, cycle, 0, k - n);
        }
      }
      assert Stuck(f, w, q);
    }
  }

  lemma CycleAtHome(f: Form, cycle: seq<Question>)
    requires Closed(f) && DisabledCycle(f, cycle)
    ensures cycle[0] in f.home
  {
    var q, k := cycle[0], 0;
    assert Skipped(f, cycle[k]) && NextOf(f, cycle[k]) == Some(cycle[if k + 1 < |cycle| then k + 1 else 0]);
    assert q in f.next;
  }

  // From some question looking for the successor goes on for ever exactly when
  // there is a cycle of disabled questions off the path.
  lemma StuckSomewhereIff(f: Form, w: Walk)
    requires Closed(f)
    ensures (exists q :: q in f.home && Stuck(f, w, Some(q))) <==> exists cycle :: DisabledCycle(f, cycle) && OffPath(w, cycle)
  {
    if q :| q in f.home && Stuck(f, w, Some(q)) {
      var cycle, n := CycleOfStuck(f, w, Some(q));
    }
    if cycle :| DisabledCycle(f, cycle) && OffPath(w, cycle) {
      forall n: nat ensures Passes(f, w, Nth(f, Some(cycle[0]), n)) {
        CyclePasses(f, w, cycle, 0, n);
      }
      CycleAtHome(f, cycle);
      assert Stuck(f, w, Some(cycle[0]));
    }
  }

  // Without such a cycle prediction ends, from every walk.
  lemma NoCycleEnds(f: Form, w: Walk)
    requires Closed(f) && w != [] && WalkOk(f, w)
    requires forall cycle :: DisabledCycle(f, cycle) ==> !OffPath(w, cycle)
    ensures Ends(f, w)
  {
    PredictedFollows(f, w);
    var p := Predicted(f, w);
    if Stuck(f, p, Following(f, p)) {
      var cycle, n := CycleOfStuck(f, p, Following(f, p));
      assert OffPath(w, cycle);
    }
  }

  // ---- what comes next, told by the answers alone --------------------

  // x is the first candidate after the last question of the walk: its answer's
  // successor, the first question of the interview it stands for, or, after
  // the end of an interview, what follows the question that stands for that.
  ghost predicate Leads(f: Form, w: Walk, x: Question)
    requires w != []
  {
    var last := w[|w| - 1];
    match last
    case Plain(_) => last in f.next && x == f.next[last]
    case Nested(_, t) => t in f.first && x == f.first[t]
    case Final(_) =>
      exists c :: c in w && c.Nested? && last in f.home && c.target == f.home[last] && c in f.next && x == f.next[c]
  }

  // Each of xs but the last is disabled and off the walk, and followed by the
  // successor its answer gives.
  ghost predicate PassesAlong(f: Form, w: Walk, xs: seq<Question>) {
    forall i :: 0 <= i < |xs| - 1 ==>
      xs[i].Plain? && xs[i] !in f.enabled && xs[i] !in w && xs[i] in f.next && xs[i + 1] == f.next[xs[i]]
  }

  ghost predicate Addable(f: Form, w: Walk, q: Question) {
    && q !in w && (q.Plain? ==> q in f.enabled)
    && (q.Nested? ==> forall c :: c in w && c.Nested? ==> c.target != q.target)
  }

  ghost predicate LeadsAlong(f: Form, w: Walk, xs: seq<Question>, q: Question)
    requires w != []
  {
    xs != [] && Leads(f, w, xs[0]) && PassesAlong(f, w, xs) && xs[|xs| - 1] == q && Addable(f, w, q)
  }

  // q comes next on the path.
  ghost predicate ComesNext(f: Form, w: Walk, q: Question)
    requires w != []
  {
    exists xs :: LeadsAlong(f, w, xs, q)
  }

  lemma FollowingIff(f: Form, w: Walk, x: Question)
    requires Closed(f) && w != [] && WalkOk(f, w)
    ensures Following(f, w) == Some(x) <==> Leads(f, w, x)
  {
    var last := w[|w| - 1];
    assert w == w[..|w| - 1] + [last];
    InHome(f, w, |w| - 1);
    CallerIsTarget(f, w, f.home[last]);
    hide WalkOk, CallerOf, Targets;
  }

  lemma AddableIs(f: Form, w: Walk, q: Question)
    ensures Addable(f, w, q) <==> q !in w && !Skipped(f, q) && (q.Nested? ==> q.target !in Targets(w))
  {
  }

  lemma {:induction false} SkipInAlong(f: Form, w: Walk, q: Option<Question>, n: nat) returns (xs: seq<Question>)
    requires SkipIn(f, w, q, n).Some?
    ensures q.Some? && xs != [] && xs[0] == q.value && PassesAlong(f, w, xs) && xs[|xs| - 1] == SkipIn(f, w, q, n).value
    ensures Addable(f, w, xs[|xs| - 1])
    decreases n
  {
    AddableIs(f, w, q.value);
    if Passes(f, w, q) {
      var rest := SkipInAlong(f, w, NextOf(f, q.value), n - 1);
      xs := [q.value] + rest;
      forall i | 0 <= i < |xs| - 1
        ensures xs[i].Plain? && xs[i] !in f.enabled && xs[i] !in w && xs[i] in f.next && xs[i + 1] == f.next[xs[i]]
      {
        assert i > 0 ==> xs[i] == rest[i - 1] && xs[i + 1] == rest[i];
      }
    } else {
      xs := [q.value];
    }
  }

  lemma {:induction false} AlongIsNth(f: Form, w: Walk, xs: seq<Question>, i: nat)
    requires PassesAlong(f, w, xs) && i < |xs|
    ensures Nth(f, Some(xs[0]), i) == Some(xs[i])
    ensures i < |xs| - 1 ==> Passes(f, w, Nth(f, Some(xs[0]), i))
  {
    if i > 0 {
      AlongIsNth(f, w, xs, i - 1);
      assert xs[i - 1] in f.next;
    }
  }

  lemma {:induction false} SkipInHits(f: Form, w: Walk, q: Option<Question>, l: nat, n: nat, x: Question)
    requires (forall i :: 0 <= i < l ==> Passes(f, w, Nth(f, q, i))) && Nth(f, q, l) == Some(x) && l <= n
    requires Addable(f, w, x)
    ensures SkipIn(f, w, q, n) == Some(x)
    decreases l
  {
    AddableIs(f, w, x);
    if l > 0 {
      assert Passes(f, w, Nth(f, q, 0));
      var next := NextOf(f, q.value);
      forall i | 0 <= i <= l - 1 ensures Nth(f, next, i) == Nth(f, q, i + 1) {
        NthShift(f, q, 1, i);
        assert Nth(f, q, 1) == NextOne(f, Nth(f, q, 0));
      }
      SkipInHits(f, w, next, l - 1, n - 1, x);
    }
  }

  // What is found is what comes next.
  lemma SuccessorIff(f: Form, w: Walk, q: Question)
    requires Closed(f) && w != [] && WalkOk(f, w)
    ensures Successor(f, w) == Some(q) <==> ComesNext(f, w, q)
  {
    hide WalkOk, Closed, Leads, Addable;
    if Successor(f, w) == Some(q) {
      var xs := SkipInAlong(f, w, Following(f, w), |f.home|);
      FollowingIff(f, w, xs[0]);
      assert LeadsAlong(f, w, xs, q);
    }
    if xs :| LeadsAlong(f, w, xs, q) {
      FollowingIff(f, w, xs[0]);
      AlongReaches(f, w, xs);
    }
  }

  lemma AlongReaches(f: Form, w: Walk, xs: seq<Question>)
    requires Closed(f) && xs != [] && xs[0] in f.home && PassesAlong(f, w, xs) && Addable(f, w, xs[|xs| - 1])
    ensures Skip(f, w, Some(xs[0])) == Some(xs[|xs| - 1])
  {
    hide Closed;
    var q, l := Some(xs[0]), |xs| - 1;
    AddableIs(f, w, xs[l]);
    forall i | 0 <= i <= l ensures Nth(f, q, i) == Some(xs[i]) && (i < l ==> Passes(f, w, Nth(f, q, i))) {
      AlongIsNth(f, w, xs, i);
    }
    hide PassesAlong, Addable;
    assert !Passes(f, w, Nth(f, q, l));
    if l > |f.home| {
      assert PassedTo(f, w, q, |f.home|);
      StuckIff(f, w, q);
      assert false;
    }
    SkipInHits(f, w, q, l, |f.home|, xs[l]);
  }

  // The path is, from the first question of the root on, what comes next by the
  // answers, as far as anything does.
  lemma TracedIff(f: Form, w: Walk)
    requires Closed(f)
    ensures Traced(f, w) <==>
      && w != [] && w[0] == f.first[f.root]
      && (forall k :: 1 <= k < |w| ==> ComesNext(f, w[..k], w[k]))
      && (forall q :: !ComesNext(f, w, q))
  {
    hide WalkOk, Successor, ComesNext;
    if w != [] && w[0] == f.first[f.root] {
      if WalkOk(f, w) && Follows(f, w) {
        forall k | 1 <= k < |w| ensures ComesNext(f, w[..k], w[k]) {
          assert WalkOk(f, w[..k]) && Successor(f, w[..k]) == Some(w[k]);
          SuccessorIff(f, w[..k], w[k]);
        }
        NothingNextIff(f, w);
      }
      if forall k :: 1 <= k < |w| ==> ComesNext(f, w[..k], w[k]) {
        assert w[..|w|] == w;
        NextsFollow(f, w, |w|);
        NothingNextIff(f, w);
      }
    }
  }

  lemma NothingNextIff(f: Form, w: Walk)
    requires Closed(f) && w != [] && WalkOk(f, w)
    ensures Successor(f, w) == None <==> forall q :: !ComesNext(f, w, q)
  {
    hide Closed, WalkOk, Successor, ComesNext;
    if Successor(f, w).Some? {
      SuccessorIff(f, w, Successor(f, w).value);
    } else {
      forall q ensures !ComesNext(f, w, q) {
        SuccessorIff(f, w, q);
      }
    }
  }

  lemma {:induction false} NextsFollow(f: Form, w: Walk, n: nat)
    requires Closed(f) && 1 <= n <= |w| && w[0] == f.first[f.root] && forall k :: 1 <= k < |w| ==> ComesNext(f, w[..k], w[k])
    ensures WalkOk(f, w[..n]) && forall k :: 1 <= k < n ==> WalkOk(f, w[..k]) && Successor(f, w[..k]) == Some(w[k])
  {
    hide WalkOk, Successor, ComesNext;
    if n == 1 {
      StartOk(f);
      assert w[..1] == [f.first[f.root]];
    } else {
      NextsFollow(f, w, n - 1);
      SuccessorIff(f, w[..n - 1], w[n - 1]);
      SuccessorExtends(f, w[..n - 1]);
      assert w[..n] == w[..n - 1] + [w[n - 1]];
    }
  }

  // Prediction from any walk keeps it, adds what comes next by the answers, and
  // goes on as far as anything does.
  lemma PredictedComesNext(f: Form, w: Walk)
    requires Closed(f) && w != [] && WalkOk(f, w)
    ensures var p := Predicted(f, w);
      && w <= p && (forall k :: |w| <= k < |p| ==> ComesNext(f, p[..k], p[k]))
      && forall q :: !ComesNext(f, p, q)
  {
    hide Closed, WalkOk, Successor, ComesNext, Predicted;
    PredictedFollows(f, w);
    var p := Predicted(f, w);
    forall k | |w| <= k < |p| ensures ComesNext(f, p[..k], p[k]) {
      assert WalkOk(f, p[..k]) && Successor(f, p[..k]) == Some(p[k]);
      SuccessorIff(f, p[..k], p[k]);
    }
    NothingNextIff(f, p);
  }

  // ---- the paths and callers of the interviews -----------------------

  ghost predicate Represents(f: Form, w: Walk, path: map<Id, seq<Question>>, caller: map<Id, Question>) {
    && (forall i :: Attached(f, w, i) ==> i in path && path[i] == Filter(f, w, i))
    && (forall t :: t in Targets(w) ==> t in caller && CallerOf(w, t) == Some(caller[t]))
    && f.root !in caller
  }

  lemma HomeAttached(f: Form, w: Walk, q: Question)
    requires Closed(f) && WalkOk(f, w) && Extends(f, w, q)
    ensures Attached(f, w, f.home[q]) && Linked(f, w, Stack(f, w))
  {
    hide Stack, Filter, CallerOf, Targets, EndedAt;
    StackLinked(f, w);
  }

  // What adding a question does to them
  lemma RepresentsSnoc(f: Form, w: Walk, path: map<Id, seq<Question>>, caller: map<Id, Question>, q: Question)
    requires Closed(f) && WalkOk(f, w) && Extends(f, w, q) && Represents(f, w, path, caller)
    ensures f.home[q] in path
    ensures !q.Nested? ==> Represents(f, w + [q], path[f.home[q] := path[f.home[q]] + [q]], caller)
    ensures q.Nested? ==>
      && f.home[q] != q.target
      && Represents(f, w + [q], path[q.target := []][f.home[q] := path[f.home[q]] + [q]], caller[q.target := q])
  {
    hide Stack, Filter, CallerOf, Targets, EndedAt, Linked, Closed, WalkOk;
    HomeAttached(f, w, q);
    if q.Nested? {
      NotYetFiltered(f, w, q.target);
      NotItsOwn(f, w, q);
    }
    WalkSnoc(f, w, q);
  }

  datatype Thing = AQuestion(question: Question) | AnInterview(interview: Id)

  // o == q, or o is the target of q
  predicate Matches(q: Question, o: Thing) {
    match o
    case AQuestion(x) => q == x
    case AnInterview(t) => q.Nested? && q.target == t
  }

  predicate OnWalk(w: Walk, o: Thing) { exists k :: 0 <= k < |w| && Matches(w[k], o) }

  // Where the walk enters an interview
  function Entry(w: Walk, i: Id): nat {
    if w == [] then 0
    else if w[|w| - 1].Nested? && w[|w| - 1].target == i then |w|
    else Entry(w[..|w| - 1], i)
  }

  // The questions of an interview come after it is entered.
  lemma {:induction false} FilterAfterEntry(f: Form, w: Walk, i: Id, m: nat) returns (k: nat)
    requires Closed(f) && WalkOk(f, w) && m < |Filter(f, w, i)|
    ensures Entry(w, i) <= k < |w| && w[k] == Filter(f, w, i)[m] && w[k] in f.home && f.home[w[k]] == i
    ensures w[k].Nested? ==> Entry(w, w[k].target) == k + 1
  {
    var n := |w| - 1;
    var front, q := w[..n], w[n];
    assert w == front + [q];
    if m < |Filter(f, front, i)| {
      k := FilterAfterEntry(f, front, i, m);
      assert front[k] == w[k];
      if q.Nested? {
        NotYetFiltered(f, front, q.target);
        assert w[k].Nested? ==> w[k].target in Targets(front);
      }
    } else {
      k := n;
      EntryWithin(front, i);
      if q.Nested? && q.target == i {
        NotItsOwn(f, front, q);
      }
    }
  }

  lemma EntryWithin(w: Walk, i: Id)
    ensures Entry(w, i) <= |w|
  {
  }

  lemma NotYetFiltered(f: Form, w: Walk, t: Id)
    requires Closed(f) && WalkOk(f, w) && !Attached(f, w, t)
    ensures Filter(f, w, t) == []
  {
    StackLinked(f, w);
  }

  lemma NotItsOwn(f: Form, w: Walk, q: Question)
    requires Closed(f) && WalkOk(f, w) && Extends(f, w, q) && q.Nested?
    ensures f.home[q] != q.target
  {
    HomeAttached(f, w, q);
  }

  // pathContains0
  ghost predicate Found(f: Form, w: Walk, i: Id, o: Thing)
    requires Closed(f) && WalkOk(f, w)
    decreases |w| - Entry(w, i)
  {
    exists m :: 0 <= m < |Filter(f, w, i)| && FoundAt(f, w, i, m, o)
  }

  ghost predicate FoundAt(f: Form, w: Walk, i: Id, m: nat, o: Thing)
    requires Closed(f) && WalkOk(f, w) && m < |Filter(f, w, i)|
    decreases |w| - Entry(w, i), 0
  {
    var q := Filter(f, w, i)[m];
    Matches(q, o) || (q.Nested? && (var k := FilterAfterEntryIndex(f, w, i, m); Found(f, w, q.target, o)))
  }

  ghost predicate IsEntryAt(f: Form, w: Walk, i: Id, m: nat, k: nat)
    requires m < |Filter(f, w, i)|
  {
    && Entry(w, i) <= k < |w| && w[k] == Filter(f, w, i)[m] && w[k] in f.home && f.home[w[k]] == i
    && (w[k].Nested? ==> Entry(w, w[k].target) == k + 1)
  }

  ghost function FilterAfterEntryIndex(f: Form, w: Walk, i: Id, m: nat): (k: nat)
    requires Closed(f) && WalkOk(f, w) && m < |Filter(f, w, i)|
    ensures IsEntryAt(f, w, i, m, k)
  {
    assert exists k: nat :: IsEntryAt(f, w, i, m, k) by {
      var k := FilterAfterEntry(f, w, i, m);
      assert IsEntryAt(f, w, i, m, k);
    }
    var k: nat :| IsEntryAt(f, w, i, m, k);
    k
  }

  lemma {:induction false} InFilter(f: Form, w: Walk, k: nat) returns (m: nat)
    requires WalkOk(f, w) && k < |w|
    ensures w[k] in f.home && m < |Filter(f, w, f.home[w[k]])| && Filter(f, w, f.home[w[k]])[m] == w[k]
  {
    var n := |w| - 1;
    if k < n {
      m := InFilter(f, w[..n], k);
    } else {
      m := |Filter(f, w[..n], f.home[w[n]])|;
    }
  }

  // What is found below an interview is found from the root.
  lemma {:induction false} FoundFromRoot(f: Form, w: Walk, i: Id, o: Thing)
    requires Closed(f) && WalkOk(f, w) && Attached(f, w, i) && Found(f, w, i, o)
    ensures Found(f, w, f.root, o)
    decreases Entry(w, i)
  {
    hide Filter, Stack, WalkOk, Entry;
    if i != f.root {
      CallerIsTarget(f, w, i);
      var c := CallerOf(w, i).value;
      var k :| 0 <= k < |w| && w[k] == c;
      var m := InFilter(f, w, k);
      var h := f.home[c];
      var j := FilterAfterEntryIndex(f, w, h, m);
      assert FoundAt(f, w, h, m, o) && Found(f, w, h, o);
      HomesAttached(f, w, k);
      FoundFromRoot(f, w, h, o);
    }
  }

  lemma {:induction false} HomesAttached(f: Form, w: Walk, k: nat)
    requires Closed(f) && WalkOk(f, w) && k < |w|
    ensures w[k] in f.home && Attached(f, w, f.home[w[k]])
  {
    var n := |w| - 1;
    assert w == w[..n] + [w[n]];
    if k < n {
      HomesAttached(f, w[..n], k);
    } else {
      HomeAttached(f, w[..n], w[n]);
    }
    WalkSnoc(f, w[..n], w[n]);
  }

  lemma {:induction false} FoundIsOnWalk(f: Form, w: Walk, i: Id, o: Thing)
    requires Closed(f) && WalkOk(f, w) && Found(f, w, i, o)
    ensures OnWalk(w, o)
    decreases |w| - Entry(w, i)
  {
    hide Filter, Stack, WalkOk, Entry, Closed;
    var m: nat :| m < |Filter(f, w, i)| && FoundAt(f, w, i, m, o);
    var k := FilterAfterEntryIndex(f, w, i, m);
    if !Matches(w[k], o) {
      FoundIsOnWalk(f, w, w[k].target, o);
    }
  }

  // pathContains finds exactly what is on the walk.
  lemma FoundIff(f: Form, w: Walk, o: Thing)
    requires Closed(f) && WalkOk(f, w)
    ensures Found(f, w, f.root, o) <==> OnWalk(w, o)
  {
    if Found(f, w, f.root, o) {
      FoundIsOnWalk(f, w, f.root, o);
    } else if OnWalk(w, o) {
      hide Filter, Stack, WalkOk, Entry, Closed;
      var k :| 0 <= k < |w| && Matches(w[k], o);
      var m := InFilter(f, w, k);
      assert FoundAt(f, w, f.home[w[k]], m, o);
      HomesAttached(f, w, k);
      FoundFromRoot(f, w, f.home[w[k]], o);
    }
  }

  lemma OnWalkIs(w: Walk)
    ensures forall q :: OnWalk(w, AQuestion(q)) <==> q in w
    ensures forall t :: OnWalk(w, AnInterview(t)) <==> t in Targets(w)
  {
    forall q ensures OnWalk(w, AQuestion(q)) <==> q in w {
      if q in w {
        var k :| 0 <= k < |w| && w[k] == q;
        assert Matches(w[k], AQuestion(q));
      }
    }
    forall t ensures OnWalk(w, AnInterview(t)) <==> t in Targets(w) {
      if t in Targets(w) {
        var q :| q in w && q.Nested? && q.target == t;
        var k :| 0 <= k < |w| && w[k] == q;
        assert Matches(w[k], AnInterview(t));
      }
    }
  }

  // ---- trimming ------------------------------------------------------

  lemma {:induction false} FilterPrefix(f: Form, w: Walk, k: nat, i: Id)
    requires k <= |w|
    ensures Filter(f, w[..k], i) <= Filter(f, w, i)
  {
    if k == |w| {
      assert w[..k] == w;
    } else {
      assert w[..|w| - 1][..k] == w[..k];
      FilterPrefix(f, w[..|w| - 1], k, i);
    }
  }

  // An interview that has ended gets no more questions.
  lemma {:induction false} EndedStays(f: Form, w: Walk, k: nat, i: Id)
    requires Closed(f) && WalkOk(f, w) && k <= |w| && Attached(f, w[..k], i) && i !in Stack(f, w[..k])
    ensures Filter(f, w, i) == Filter(f, w[..k], i) && Attached(f, w, i) && i !in Stack(f, w)
  {
    if k == |w| {
      assert w[..k] == w;
    } else {
      var n := |w| - 1;
      assert w[..n][..k] == w[..k] && w == w[..n] + [w[n]];
      EndedStays(f, w[..n], k, i);
      WalkSnoc(f, w[..n], w[n]);
      hide Stack, Filter, WalkOk, Targets;
      assert Extends(f, w[..n], w[n]);
    }
  }

  lemma {:induction false} FilterDistinct(f: Form, w: Walk, i: Id, a: nat, b: nat)
    requires WalkOk(f, w) && a < b < |Filter(f, w, i)|
    ensures Filter(f, w, i)[a] != Filter(f, w, i)[b]
    ensures Filter(f, w, i)[a] in w && Filter(f, w, i)[b] in w
  {
    var n := |w| - 1;
    var front := w[..n];
    assert w == front + [w[n]];
    if b < |Filter(f, front, i)| {
      FilterDistinct(f, front, i, a, b);
    } else {
      FilterIn(f, front, i, a);
    }
  }

  lemma {:induction false} FilterIn(f: Form, w: Walk, i: Id, a: nat)
    requires WalkOk(f, w) && a < |Filter(f, w, i)|
    ensures Filter(f, w, i)[a] in w
  {
    var n := |w| - 1;
    assert w == w[..n] + [w[n]];
    if a < |Filter(f, w[..n], i)| {
      FilterIn(f, w[..n], i, a);
    }
  }

  // In an interview's path no other question matches what one matches.
  lemma MatchIsUnique(f: Form, w: Walk, i: Id, a: nat, b: nat, o: Thing)
    requires WalkOk(f, w) && a < |Filter(f, w, i)| && b < |Filter(f, w, i)|
    requires Matches(Filter(f, w, i)[a], o) && Matches(Filter(f, w, i)[b], o)
    ensures a == b
  {
    hide WalkOk, Filter, CallerOf, Targets;
    FilterIn(f, w, i, a);
    FilterIn(f, w, i, b);
    if o.AnInterview? {
      CallerIsTarget(f, w, o.interview);
    }
    if a < b {
      FilterDistinct(f, w, i, a, b);
    } else if b < a {
      FilterDistinct(f, w, i, b, a);
    }
  }

  // The interviews being walked at question p, the outermost first
  function Open(f: Form, w: Walk, p: nat): seq<Id>
    requires p < |w|
  {
    Stack(f, w[..p])
  }

  // What trimming looks for in each of them
  function SoughtAt(f: Form, w: Walk, p: nat, h: nat): Thing
    requires p < |w| && h < |Open(f, w, p)|
  {
    if h == |Open(f, w, p)| - 1 then AQuestion(w[p]) else AnInterview(Open(f, w, p)[h + 1])
  }

  predicate Trimmable(f: Form, q: Question) { q in f.home && !q.Nested? }

  lemma OpenAt(f: Form, w: Walk, p: nat)
    requires Closed(f) && WalkOk(f, w) && p < |w| && !w[p].Nested?
    ensures var st := Open(f, w, p);
      && WalkOk(f, w[..p]) && WalkOk(f, w[..p + 1]) && Extends(f, w[..p], w[p]) && st != [] && Linked(f, w[..p], st)
      && w[p] in f.home && f.home[w[p]] == st[|st| - 1]
      && Targets(w[..p + 1]) == Targets(w[..p])
      && (forall i :: Filter(f, w[..p + 1], i) == Filter(f, w[..p], i) + if i == st[|st| - 1] then [w[p]] else [])
      && (forall i :: CallerOf(w[..p + 1], i) == CallerOf(w[..p], i))
  {
    PrefixOk(f, w, p);
    PrefixOk(f, w, p + 1);
    assert w[..p + 1] == w[..p] + [w[p]] && w[..p + 1][..p] == w[..p];
    WalkSnoc(f, w[..p], w[p]);
    StackLinked(f, w[..p]);
  }

  // Each open interview's path, cut after what is sought in it, is what the
  // walk up to the question has of it.
  lemma SoughtIsLast(f: Form, w: Walk, p: nat, h: nat)
    requires Closed(f) && WalkOk(f, w) && p < |w| && !w[p].Nested? && h < |Open(f, w, p)|
    ensures var st, w' := Open(f, w, p), w[..p + 1];
      var last := |Filter(f, w', st[h])| - 1;
      && last >= 0 && Filter(f, w', st[h]) <= Filter(f, w, st[h]) && Matches(Filter(f, w, st[h])[last], SoughtAt(f, w, p, h))
      && Attached(f, w', st[h]) && Attached(f, w, st[h])
  {
    hide WalkOk, Filter, CallerOf, Targets, Stack;
    var st := Open(f, w, p);
    OpenAt(f, w, p);
    FilterPrefix(f, w, p + 1, st[h]);
    TargetsPrefix(w, p);
    TargetsPrefix(w, p + 1);
    assert Attached(f, w[..p], st[h]);
    if h < |st| - 1 {
      assert LinkedAt(f, w[..p], st[h], st[h + 1]);
      CallerIsTarget(f, w[..p], st[h + 1]);
      assert st[h] != st[|st| - 1];
      assert Filter(f, w[..p + 1], st[h]) == Filter(f, w[..p], st[h]) + [];
    } else {
      assert Filter(f, w[..p + 1], st[h]) == Filter(f, w[..p], st[h]) + [w[p]];
    }
  }

  lemma TargetsPrefix(w: Walk, k: nat)
    requires k <= |w|
    ensures Targets(w[..k]) <= Targets(w)
  {
  }

  lemma CallerInPrefix(f: Form, w: Walk, k: nat, t: Id)
    requires Closed(f) && WalkOk(f, w) && k <= |w| && t in Targets(w[..k])
    ensures t in Targets(w) && CallerOf(w[..k], t) == CallerOf(w, t)
  {
    hide Filter, Stack, WalkOk;
    PrefixOk(f, w, k);
    CallerIsTarget(f, w[..k], t);
    CallerIsTarget(f, w, t);
  }

  // The caller of an open interview belongs to the one below it.
  lemma CallerBelow(f: Form, w: Walk, p: nat, h: nat)
    requires Closed(f) && WalkOk(f, w) && p < |w| && !w[p].Nested? && h < |Open(f, w, p)|
    ensures var st := Open(f, w, p);
      && (h == 0 ==> st[h] == f.root)
      && (h > 0 ==>
            && st[h] in Targets(w) && CallerOf(w, st[h]).Some?
            && CallerOf(w, st[h]).value in f.home && f.home[CallerOf(w, st[h]).value] == st[h - 1])
  {
    OpenAt(f, w, p);
    hide Filter, WalkOk, Targets, CallerOf, Stack;
    var st := Open(f, w, p);
    if h > 0 {
      assert LinkedAt(f, w[..p], st[h - 1], st[h]);
      CallerIsTarget(f, w[..p], st[h]);
      CallerInPrefix(f, w, p, st[h]);
    }
  }

  // While the open interviews from h down are still to be trimmed
  ghost predicate TrimmedTo(f: Form, w: Walk, p: nat, h: nat, path: map<Id, seq<Question>>)
    requires p < |w| && h <= |Open(f, w, p)|
  {
    forall i :: Attached(f, w[..p + 1], i) ==>
      i in path && path[i] == Filter(f, if i in Open(f, w, p)[..h] then w else w[..p + 1], i)
  }

  lemma TrimStarts(f: Form, w: Walk, p: nat, path: map<Id, seq<Question>>, caller: map<Id, Question>)
    requires Closed(f) && WalkOk(f, w) && p < |w| && !w[p].Nested? && Represents(f, w, path, caller)
    ensures TrimmedTo(f, w, p, |Open(f, w, p)|, path)
  {
    var st := Open(f, w, p);
    assert st[..|st|] == st;
    OpenAt(f, w, p);
    TargetsPrefix(w, p + 1);
    hide Filter, WalkOk, Targets, CallerOf, Stack;
    forall i | Attached(f, w[..p + 1], i)
      ensures i in path && path[i] == Filter(f, if i in st then w else w[..p + 1], i)
    {
      if i !in st {
        EndedStays(f, w, p, i);
      }
    }
  }

  lemma TrimStep(f: Form, w: Walk, p: nat, h: nat, path: map<Id, seq<Question>>, last: nat)
    requires Closed(f) && WalkOk(f, w) && p < |w| && !w[p].Nested? && h < |Open(f, w, p)|
    requires TrimmedTo(f, w, p, h + 1, path) && Open(f, w, p)[h] in path && path[Open(f, w, p)[h]] == Filter(f, w, Open(f, w, p)[h])
    requires last < |path[Open(f, w, p)[h]]| && Matches(path[Open(f, w, p)[h]][last], SoughtAt(f, w, p, h))
    ensures TrimmedTo(f, w, p, h, path[Open(f, w, p)[h] := path[Open(f, w, p)[h]][..last + 1]])
  {
    hide Filter, WalkOk, Targets, CallerOf, Stack, Open, TrimmedTo, SoughtAt, Linked, Closed;
    var i := Open(f, w, p)[h];
    SoughtIsLast(f, w, p, h);
    MatchIsUnique(f, w, i, last, |Filter(f, w[..p + 1], i)| - 1, SoughtAt(f, w, p, h));
    OpenDistinct(f, w, p, h);
    OneTrimmed(f, w, p, h, path, path[i][..last + 1]);
  }

  lemma OpenDistinct(f: Form, w: Walk, p: nat, h: nat)
    requires Closed(f) && WalkOk(f, w) && p < |w| && !w[p].Nested? && h < |Open(f, w, p)|
    ensures var st := Open(f, w, p); st[..h + 1] == st[..h] + [st[h]] && st[h] !in st[..h]
  {
    hide Filter, WalkOk, Targets, CallerOf, Stack;
    OpenAt(f, w, p);
  }

  lemma OneTrimmed(f: Form, w: Walk, p: nat, h: nat, path: map<Id, seq<Question>>, cut: seq<Question>)
    requires p < |w| && h < |Open(f, w, p)| && TrimmedTo(f, w, p, h + 1, path) && cut == Filter(f, w[..p + 1], Open(f, w, p)[h])
    requires Open(f, w, p)[..h + 1] == Open(f, w, p)[..h] + [Open(f, w, p)[h]] && Open(f, w, p)[h] !in Open(f, w, p)[..h]
    ensures TrimmedTo(f, w, p, h, path[Open(f, w, p)[h] := cut])
  {
    hide Filter, Targets, Stack;
  }

  lemma TrimEnds(f: Form, w: Walk, p: nat, path: map<Id, seq<Question>>, caller: map<Id, Question>)
    requires Closed(f) && WalkOk(f, w) && p < |w| && TrimmedTo(f, w, p, 0, path)
    requires forall t :: t in Targets(w) ==> t in caller && CallerOf(w, t) == Some(caller[t])
    requires f.root !in caller
    ensures Represents(f, w[..p + 1], path, caller)
  {
    hide Filter, WalkOk, Targets, CallerOf, Stack;
    forall t | t in Targets(w[..p + 1]) ensures t in caller && CallerOf(w[..p + 1], t) == Some(caller[t]) {
      CallerInPrefix(f, w, p + 1, t);
    }
  }

  // ---- the loop of predictPath ---------------------------------------

  // q may be the next question: it is of the interview being walked.
  ghost predicate Candidate(f: Form, w: Walk, q: Option<Question>) {
    q.Some? ==> q.value in f.home && Stack(f, w) != [] && f.home[q.value] == Stack(f, w)[|Stack(f, w)| - 1]
  }

  lemma SkipExtends(f: Form, w: Walk, q: Option<Question>)
    requires Closed(f) && WalkOk(f, w) && Candidate(f, w, q) && Skip(f, w, q).Some?
    ensures Extends(f, w, Skip(f, w, q).value) && WalkOk(f, w + [Skip(f, w, q).value])
  {
    hide Skip, WalkOk, Stack, Targets, Closed;
    SkipStays(f, w, q);
    WalkSnoc(f, w, Skip(f, w, q).value);
  }

  // The path from a walk on, with q to be looked at
  ghost function Rest(f: Form, w: Walk, q: Option<Question>): Walk
    requires Closed(f) && WalkOk(f, w) && Candidate(f, w, q)
  {
    match Skip(f, w, q)
    case None => w
    case Some(x) =>
      SkipExtends(f, w, q);
      Predicted(f, w + [x])
  }

  // Going on from there ends.
  ghost predicate RestEnds(f: Form, w: Walk, q: Option<Question>)
    requires Closed(f) && WalkOk(f, w) && Candidate(f, w, q)
  {
    && !Stuck(f, w, q)
    && match Skip(f, w, q)
       case None => true
       case Some(x) =>
         SkipExtends(f, w, q);
         Ends(f, w + [x])
  }

  lemma RestOfPredicted(f: Form, w: Walk)
    requires Closed(f) && w != [] && WalkOk(f, w)
    ensures Candidate(f, w, Following(f, w)) && Predicted(f, w) == Rest(f, w, Following(f, w))
    ensures Ends(f, w) <==> RestEnds(f, w, Following(f, w))
  {
    hide Skip, WalkOk, Stack, Following, Closed, Stuck;
    if Following(f, w).Some? {
      FollowingIsHere(f, w);
    }
    if Successor(f, w).Some? {
      FoundNotStuck(f, w, Following(f, w));
    }
  }

  lemma RestStops(f: Form, w: Walk, q: Option<Question>)
    requires Closed(f) && WalkOk(f, w) && Candidate(f, w, q)
    requires q.None? || q.value in w || (q.value.Nested? && q.value.target in Targets(w))
    ensures Rest(f, w, q) == w && RestEnds(f, w, q)
  {
    hide WalkOk, Stack;
    assert !Passes(f, w, Nth(f, q, 0));
  }

  lemma RestSkips(f: Form, w: Walk, q: Question)
    requires Closed(f) && WalkOk(f, w) && Candidate(f, w, Some(q)) && q !in w && Skipped(f, q)
    ensures Candidate(f, w, NextOf(f, q)) && Rest(f, w, Some(q)) == Rest(f, w, NextOf(f, q))
    ensures RestEnds(f, w, Some(q)) <==> RestEnds(f, w, NextOf(f, q))
    ensures RestEnds(f, w, Some(q)) ==> SkipsLeft(f, w, NextOf(f, q)) < SkipsLeft(f, w, Some(q))
  {
    hide WalkOk, Stack, Predicted, Skip, Stuck, SkipsLeft;
    PassOne(f, w, q);
  }

  lemma RestAdds(f: Form, w: Walk, q: Question)
    requires Closed(f) && WalkOk(f, w) && Candidate(f, w, Some(q)) && q !in w && !Skipped(f, q)
    requires q.Nested? ==> q.target !in Targets(w)
    ensures Extends(f, w, q) && WalkOk(f, w + [q]) && Candidate(f, w + [q], Following(f, w + [q]))
    ensures Rest(f, w, Some(q)) == Rest(f, w + [q], Following(f, w + [q]))
    ensures RestEnds(f, w, Some(q)) <==> RestEnds(f, w + [q], Following(f, w + [q]))
    ensures |f.home.Keys - Asked(w + [q])| < |f.home.Keys - Asked(w)|
  {
    hide WalkOk, Stack, Predicted, Following, Targets, Stuck;
    assert Skip(f, w, Some(q)) == Some(q);
    FoundNotStuck(f, w, Some(q));
    SkipExtends(f, w, Some(q));
    RestOfPredicted(f, w + [q]);
    FewerLeft(f, w, q);
  }

  // ---- the turns of the loop -----------------------------------------

  // What predictPath has added and is to look at next
  datatype Pending = Pending(w: Walk, q: Option<Question>)

  // One turn of its loop; None where it breaks
  function Turn(f: Form, s: Pending): Option<Pending> {
    if s.q.None? || s.q.value in s.w then None
    else
      var q := s.q.value;
      var w := s.w + [q];
      match q
      case Plain(_) => Some(Pending(if q in f.enabled then w else s.w, NextOf(f, q)))
      case Nested(_, t) => if t in Targets(s.w) then None else Some(Pending(w, if t in f.first then Some(f.first[t]) else None))
      case Final(_) =>
        match CallerOf(w, if q in f.home then f.home[q] else f.root)
        case None => Some(Pending(w, None))
        case Some(c) => Some(Pending(w, NextOf(f, c)))
  }

  // n turns; None when it has broken off before
  function Turns(f: Form, s: Pending, n: nat): Option<Pending>
    decreases n
  {
    if n == 0 then Some(s)
    else match Turn(f, s) case None => None case Some(s') => Turns(f, s', n - 1)
  }

  ghost predicate PendingOk(f: Form, s: Pending) { Closed(f) && WalkOk(f, s.w) && Candidate(f, s.w, s.q) }

  lemma TurnKeeps(f: Form, s: Pending)
    requires PendingOk(f, s)
    ensures Turn(f, s).None? ==> RestEnds(f, s.w, s.q)
    ensures Turn(f, s).Some? ==>
      var s' := Turn(f, s).value;
      && PendingOk(f, s')
      && (RestEnds(f, s.w, s.q) <==> RestEnds(f, s'.w, s'.q))
      && (|f.home.Keys - Asked(s'.w)| < |f.home.Keys - Asked(s.w)| || s'.w == s.w)
      && (s'.w == s.w && RestEnds(f, s.w, s.q) ==> SkipsLeft(f, s'.w, s'.q) < SkipsLeft(f, s.w, s.q))
  {
    hide *;
    if Turn(f, s).None? {
      TurnStops(f, s);
    } else {
      TurnGoes(f, s);
      if Skipped(f, s.q.value) {
        TurnSkips(f, s);
      } else {
        TurnAdds(f, s);
      }
    }
  }

  lemma TurnGoes(f: Form, s: Pending)
    requires Turn(f, s).Some?
    ensures s.q.Some? && s.q.value !in s.w && (s.q.value.Nested? ==> s.q.value.target !in Targets(s.w))
  {
    hide CallerOf, Targets;
  }

  lemma TurnStops(f: Form, s: Pending)
    requires PendingOk(f, s) && Turn(f, s).None?
    ensures RestEnds(f, s.w, s.q)
  {
    hide WalkOk, Stack, Closed, CallerOf, Targets, RestEnds, Candidate;
    RestStops(f, s.w, s.q);
  }

  lemma TurnSkips(f: Form, s: Pending)
    requires PendingOk(f, s) && s.q.Some? && s.q.value !in s.w && Skipped(f, s.q.value)
    ensures var s' := Pending(s.w, NextOf(f, s.q.value));
      && Turn(f, s) == Some(s') && PendingOk(f, s')
      && (RestEnds(f, s.w, s.q) <==> RestEnds(f, s'.w, s'.q))
      && (RestEnds(f, s.w, s.q) ==> SkipsLeft(f, s'.w, s'.q) < SkipsLeft(f, s.w, s.q))
  {
    hide WalkOk, Stack, Closed, CallerOf, Targets, RestEnds, SkipsLeft, Candidate;
    RestSkips(f, s.w, s.q.value);
  }

  lemma TurnAdds(f: Form, s: Pending)
    requires PendingOk(f, s) && s.q.Some? && s.q.value !in s.w && !Skipped(f, s.q.value)
    requires s.q.value.Nested? ==> s.q.value.target !in Targets(s.w)
    ensures var w' := s.w + [s.q.value];
      && WalkOk(f, w') && Closed(f) && Turn(f, s) == Some(Pending(w', Following(f, w'))) && PendingOk(f, Turn(f, s).value)
      && (RestEnds(f, s.w, s.q) <==> RestEnds(f, w', Following(f, w')))
      && |f.home.Keys - Asked(w')| < |f.home.Keys - Asked(s.w)|
  {
    hide WalkOk, Stack, Closed, CallerOf, Targets, RestEnds, Following, Asked, Candidate, Extends, Turn;
    assert s == Pending(s.w, Some(s.q.value));
    CandidateHome(f, s.w, s.q.value);
    RestAdds(f, s.w, s.q.value);
    TurnFollows(f, s.w, s.q.value);
  }

  lemma CandidateHome(f: Form, w: Walk, q: Question)
    requires Candidate(f, w, Some(q))
    ensures q in f.home
  {
  }

  lemma TurnFollows(f: Form, w: Walk, q: Question)
    requires Closed(f) && q in f.home && WalkOk(f, w + [q]) && q !in w && !Skipped(f, q) && (q.Nested? ==> q.target !in Targets(w))
    ensures Turn(f, Pending(w, Some(q))) == Some(Pending(w + [q], Following(f, w + [q])))
  {
    hide CallerOf, Targets, Stack, WalkOk;
  }

  // The loop breaks off exactly when going on from its state ends.
  lemma {:induction false} TurnsEnd(f: Form, s: Pending) returns (n: nat)
    requires PendingOk(f, s) && RestEnds(f, s.w, s.q)
    ensures Turns(f, s, n).None?
    decreases |f.home.Keys - Asked(s.w)|, SkipsLeft(f, s.w, s.q)
  {
    hide PendingOk, RestEnds, SkipsLeft, Asked, Turn;
    TurnKeeps(f, s);
    n := 0;
    if Turn(f, s).Some? {
      n := TurnsEnd(f, Turn(f, s).value);
    }
    n := n + 1;
  }

  lemma {:induction false} TurnsGoOn(f: Form, s: Pending, n: nat)
    requires PendingOk(f, s) && !RestEnds(f, s.w, s.q)
    ensures Turns(f, s, n).Some?
    decreases n
  {
    hide PendingOk, RestEnds, Turn;
    if n > 0 {
      TurnKeeps(f, s);
      TurnsGoOn(f, Turn(f, s).value, n - 1);
    }
  }

  // predictPath ends exactly when, after the questions that the answers add to
  // the path, not all of the next candidates, one more than there are
  // questions, are disabled and off it: when no cycle of such is come to.
  lemma PredictionEndsIff(f: Form, w: Walk)
    requires Closed(f) && w != [] && WalkOk(f, w)
    ensures var p := Predicted(f, w);
      && WalkOk(f, p) && p != []
      && ((exists n: nat :: Turns(f, Pending(w, Following(f, w)), n).None?) <==> Ends(f, w))
      && (Ends(f, w) <==> !PassedTo(f, p, Following(f, p), |f.home|))
      && (Ends(f, w) <==> forall cycle, n: nat :: !ComesTo(f, p, Following(f, p), cycle, n))
  {
    hide WalkOk, Stack, Predicted, Following, RestEnds, Closed, Candidate, PassedTo, ComesTo, Stuck;
    PredictedFollows(f, w);
    RestOfPredicted(f, w);
    var s, p := Pending(w, Following(f, w)), Predicted(f, w);
    assert PendingOk(f, s);
    if RestEnds(f, w, Following(f, w)) {
      var n := TurnsEnd(f, s);
    } else {
      forall n: nat ensures Turns(f, s, n).Some? {
        TurnsGoOn(f, s, n);
      }
    }
    StuckIff(f, p, Following(f, p));
    StuckCycleIff(f, p, Following(f, p));
  }

  // Once in a cycle of disabled questions off the path, the loop goes round for
  // ever.
  lemma {:induction false} DisabledCycleNeverEnds(f: Form, w: Walk, cycle: seq<Question>, at: nat, n: nat)
    requires DisabledCycle(f, cycle) && OffPath(w, cycle) && at < |cycle|
    ensures Turns(f, Pending(w, Some(cycle[at])), n).Some?
    decreases n
  {
    if n > 0 {
      DisabledCycleNeverEnds(f, w, cycle, if at + 1 < |cycle| then at + 1 else 0, n - 1);
    }
  }

  // ---- the root interview --------------------------------------------

  class Predictor {
    var form: Form
    var path: map<Id, seq<Question>>
    var caller: map<Id, Question>
    ghost var walk: Walk

    ghost predicate Valid()
      reads this
    {
      Closed(form) && WalkOk(form, walk) && walk != [] && Represents(form, walk, path, caller)
    }

    constructor (form: Form)
      requires Closed(form) && !form.first[form.root].Nested? && StartEnds(form)
      ensures this.form == form && Valid() && walk == FreshPath(form)
    {
      this.form, path, caller, walk := form, map[], map[], [];
      new;
      Reset();
    }

    // Answers to questions change; the questions and interviews do not.
    method Answer(next: map<Question, Question>, enabled: set<Question>)
      requires Valid() && Closed(form.(next := next, enabled := enabled))
      modifies `form
      ensures form == old(form).(next := next, enabled := enabled) && Valid()
    {
      SameForm(form, form.(next := next, enabled := enabled), walk);
      form := form.(next := next, enabled := enabled);
    }

    method Reset()
      requires Closed(form) && !form.first[form.root].Nested? && StartEnds(form)
      modifies `path, `caller, `walk
      ensures Valid() && walk == FreshPath(form)
    {
      var q := form.first[form.root];
      caller := map t | t in caller && t != form.root :: caller[t];
      path := path[form.root := []];
      path := path[form.root := path[form.root] + [q]];
      walk := [q];
      StartOk(form);
      StartRepresented(form, path, caller);
      StartFinal(form);
      hide WalkOk, Represents, Closed, Predicted, Ends;
      assert [q][0] == q;
      assert forall p :: 0 <= p < |walk| && walk[p] == q ==> walk[..p + 1] == [q];
      UpdatePath(q);
      ghost var p :| 0 <= p < |[q]| && [q][p] == q && walk == Updated(form, [q], p);
    }

    // pathContains0
    method PathContains0(i: Id, o: Thing) returns (b: bool)
      requires Valid() && Attached(form, walk, i)
      ensures b <==> Found(form, walk, i, o)
      decreases |walk| - Entry(walk, i)
    {
      hide WalkOk, Filter, Stack, Targets, Entry, Closed, CallerOf;
      var index := 0;
      while index < |path[i]|
        invariant 0 <= index <= |path[i]|
        invariant forall m :: 0 <= m < index ==> !FoundAt(form, walk, i, m, o)
      {
        var q := path[i][index];
        if Matches(q, o) {
          assert FoundAt(form, walk, i, index, o);
          return true;
        }
        if q.Nested? {
          ghost var k := FilterAfterEntryIndex(form, walk, i, index);
          TargetAttached(form, walk, k);
          var below := PathContains0(q.target, o);
          if below {
            assert FoundAt(form, walk, i, index, o);
            return true;
          }
        }
        index := index + 1;
      }
      return false;
    }

    method PathContains(o: Thing) returns (b: bool)
      requires Valid()
      ensures b <==> OnWalk(walk, o)
    {
      hide WalkOk, Closed, Represents;
      FoundIff(form, walk, o);
      b := PathContains0(form.root, o);
    }

    // updatePath0, but for the cursor
    method UpdatePath(q: Question)
      requires Valid() && Trimmable(form, q)
      requires forall p :: 0 <= p < |walk| && walk[p] == q && !q.Final? ==> WalkOk(form, walk[..p + 1]) && Ends(form, walk[..p + 1])
      modifies `path, `caller, `walk
      ensures Valid()
      ensures if exists p :: 0 <= p < |old(walk)| && old(walk)[p] == q
        then exists p :: 0 <= p < |old(walk)| && old(walk)[p] == q && walk == Updated(form, old(walk), p)
        else walk == old(walk)
    {
      hide WalkOk, Represents, Closed, Predicted;
      OnWalkIs(walk);
      var onPath := PathContains(AQuestion(q));
      if !onPath {
        return;
      }
      ghost var p :| 0 <= p < |walk| && walk[p] == q;
      TrimPath(q, p);
      PredictPath(q);
      assert walk == Updated(form, old(walk), p);
    }

    // The place of o in the path of i, or -1
    method Find(i: Id, o: Thing) returns (oIndex: int)
      requires i in path
      ensures -1 <= oIndex < |path[i]|
      ensures oIndex == -1 ==> forall k :: 0 <= k < |path[i]| ==> !Matches(path[i][k], o)
      ensures oIndex >= 0 ==> Matches(path[i][oIndex], o) && forall k :: 0 <= k < oIndex ==> !Matches(path[i][k], o)
    {
      oIndex := -1;
      var pi := 0;
      while pi < |path[i]|
        invariant 0 <= pi <= |path[i]| && oIndex == -1
        invariant forall k :: 0 <= k < pi ==> !Matches(path[i][k], o)
      {
        if Matches(path[i][pi], o) {
          oIndex := pi;
          break;
        }
        pi := pi + 1;
      }
    }

    method TrimPath(q: Question, ghost p: nat)
      requires Valid() && Trimmable(form, q) && p < |walk| && walk[p] == q
      modifies `path, `walk
      ensures Valid() && walk == old(walk)[..p + 1]
    {
      hide WalkOk, Filter, Stack, Targets, CallerOf, Closed, Linked;
      ghost var w, st := walk, Open(form, walk, p);
      OpenAt(form, w, p);
      TrimStarts(form, w, p, path, caller);
      var o := AQuestion(q);
      var i := Some(form.home[q]);
      ghost var h := |st|;
      while i.Some?
        invariant 0 <= h <= |st| && (if h == 0 then i == None else i == Some(st[h - 1]) && o == SoughtAt(form, w, p, h - 1))
        invariant TrimmedTo(form, w, p, h, path)
        decreases h
      {
        SoughtIsLast(form, w, p, h - 1);
        CallerBelow(form, w, p, h - 1);
        StillWhole(form, w, p, h - 1, path);
        var oIndex := Find(i.value, o);
        if oIndex == -1 {
          assert false;
        }
        TrimStep(form, w, p, h - 1, path, oIndex);
        path := path[i.value := path[i.value][..oIndex + 1]];
        o := AnInterview(i.value);
        i := if i.value !in caller then None else Some(form.home[caller[i.value]]);
        h := h - 1;
      }
      TrimEnds(form, w, p, path, caller);
      walk := w[..p + 1];
    }

    method PredictPath(q0: Question)
      requires Valid() && Trimmable(form, q0) && walk[|walk| - 1] == q0 && (!q0.Final? ==> Ends(form, walk))
      modifies `path, `caller, `walk
      ensures Valid() && walk == if q0.Final? then old(walk) else Predicted(form, old(walk))
    {
      hide WalkOk, Filter, Stack, Targets, CallerOf, Skip, Represents, Rest, Predicted, Following, Linked, Closed, Extends, Asked;
      var i := form.home[q0];
      var q := NextOf(form, q0);
      if q0.Final? {
        // a FinalQuestion has no successor, and the loop does not turn
        FinalEnds(form, q0);
        return;
      }
      AfterTrimmable(form, walk);
      RestOfPredicted(form, walk);
      while true
        invariant Valid() && Candidate(form, walk, q) && (q.Some? ==> form.home[q.value] == i)
        invariant Rest(form, walk, q) == Predicted(form, old(walk)) && RestEnds(form, walk, q)
        decreases |form.home.Keys - Asked(walk)|, SkipsLeft(form, walk, q)
      {
        OnWalkIs(walk);
        if q.None? {
          RestStops(form, walk, q);
          break;
        }
        var on := PathContains(AQuestion(q.value));
        if on {
          RestStops(form, walk, q);
          break;
        }
        if q.value.Nested? {
          on := PathContains(AnInterview(q.value.target));
          if on {
            RestStops(form, walk, q);
            break;
          }
        }
        ghost var w := walk;
        if q.value.Final? {
          RestAdds(form, w, q.value);
          RepresentsSnoc(form, w, path, caller, q.value);
          path := path[i := path[i] + [q.value]];
          walk := w + [q.value];
          AfterFinal(form, w, q.value, path, caller);
          if i !in caller {
            RestStops(form, walk, None);
            break;
          }
          q := NextOf(form, caller[i]);
          i := form.home[caller[i]];
        } else if q.value.Nested? {
          var i2 := q.value.target;
          RestAdds(form, w, q.value);
          RepresentsSnoc(form, w, path, caller, q.value);
          caller := caller[i2 := q.value];
          path := path[i2 := []];
          path := path[i := path[i] + [q.value]];
          walk := w + [q.value];
          AfterNested(form, w, q.value);
          i := i2;
          q := Some(form.first[i2]);
        } else if q.value in form.enabled {
          RestAdds(form, w, q.value);
          RepresentsSnoc(form, w, path, caller, q.value);
          path := path[i := path[i] + [q.value]];
          walk := w + [q.value];
          AfterPlain(form, w, q.value);
          q := NextOf(form, q.value);
        } else {
          RestSkips(form, w, q.value);
          NextIsHome(form, q.value);
          q := NextOf(form, q.value);
        }
      }
    }
  }

  lemma NextIsHome(f: Form, q: Question)
    requires Closed(f) && q in f.home
    ensures NextOf(f, q).Some? ==> NextOf(f, q).value in f.home && f.home[NextOf(f, q).value] == f.home[q]
  {
  }

  lemma AfterPlain(f: Form, w: Walk, q: Question)
    requires Closed(f) && WalkOk(f, w + [q]) && q.Plain? && q in f.home
    ensures Following(f, w + [q]) == NextOf(f, q)
    ensures NextOf(f, q).Some? ==> NextOf(f, q).value in f.home && f.home[NextOf(f, q).value] == f.home[q]
  {
    hide WalkOk;
  }

  lemma AfterNested(f: Form, w: Walk, q: Question)
    requires Closed(f) && WalkOk(f, w + [q]) && q.Nested? && q in f.home
    ensures q.target in f.first && Following(f, w + [q]) == Some(f.first[q.target])
    ensures f.first[q.target] in f.home && f.home[f.first[q.target]] == q.target
  {
    hide WalkOk;
  }

  lemma AfterFinal(f: Form, w: Walk, q: Question, path: map<Id, seq<Question>>, caller: map<Id, Question>)
    requires Closed(f) && WalkOk(f, w) && Extends(f, w, q) && WalkOk(f, w + [q]) && q.Final? && Represents(f, w + [q], path, caller)
    ensures f.home[q] !in caller ==> Following(f, w + [q]) == None
    ensures f.home[q] in caller ==>
      && var c := caller[f.home[q]];
      && c in f.home && Following(f, w + [q]) == NextOf(f, c)
      && (NextOf(f, c).Some? ==> NextOf(f, c).value in f.home && f.home[NextOf(f, c).value] == f.home[c])
  {
    hide WalkOk, Filter, Stack, Targets, CallerOf;
    WalkSnoc(f, w, q);
    HomeAttached(f, w, q);
    CallerIsTarget(f, w + [q], f.home[q]);
    if f.home[q] == f.root {
      CallerIsTarget(f, w + [q], f.root);
    }
  }

  lemma FinalEnds(f: Form, q: Question)
    requires Closed(f) && q.Final?
    ensures NextOf(f, q) == None
  {
  }

  lemma AfterTrimmable(f: Form, w: Walk)
    requires Closed(f) && WalkOk(f, w) && w != [] && Trimmable(f, w[|w| - 1]) && !w[|w| - 1].Final?
    ensures Following(f, w) == NextOf(f, w[|w| - 1])
    ensures NextOf(f, w[|w| - 1]).Some? ==> NextOf(f, w[|w| - 1]).value in f.home && f.home[NextOf(f, w[|w| - 1]).value] == f.home[w[|w| - 1]]
  {
    hide WalkOk, CallerOf;
  }

  lemma TargetAttached(f: Form, w: Walk, k: nat)
    requires k < |w| && w[k].Nested?
    ensures Attached(f, w, w[k].target)
  {
  }

  lemma StillWhole(f: Form, w: Walk, p: nat, h: nat, path: map<Id, seq<Question>>)
    requires p < |w| && h < |Open(f, w, p)| && TrimmedTo(f, w, p, h + 1, path) && Attached(f, w[..p + 1], Open(f, w, p)[h])
    ensures Open(f, w, p)[h] in path && path[Open(f, w, p)[h]] == Filter(f, w, Open(f, w, p)[h])
  {
    hide Filter, Targets, Stack;
    assert Open(f, w, p)[..h + 1][h] == Open(f, w, p)[h];
  }

  lemma StartRepresented(f: Form, path: map<Id, seq<Question>>, caller: map<Id, Question>)
    requires Closed(f) && !f.first[f.root].Nested? && f.root in path && path[f.root] == [f.first[f.root]] && f.root !in caller
    ensures Represents(f, [f.first[f.root]], path, caller)
  {
    var q := f.first[f.root];
    assert [] + [q] == [q];
    WalkSnoc(f, [], q);
  }

  // A walk, and what represents it, depend on the questions and interviews
  // only.
  lemma {:induction false} SameForm(f: Form, g: Form, w: Walk)
    requires f.root == g.root && f.home == g.home
    ensures WalkOk(g, w) <==> WalkOk(f, w)
    ensures Stack(g, w) == Stack(f, w) && forall i :: Filter(g, w, i) == Filter(f, w, i)
  {
    if w != [] {
      SameForm(f, g, w[..|w| - 1]);
    }
  }

  // ---- moving along a predicted path ---------------------------------

  function CallerHome(f: Form, w: Walk, t: Id): Id {
    match CallerOf(w, t)
    case None => f.root
    case Some(c) => if c in f.home then f.home[c] else f.root
  }

  function DepthOf(f: Form, w: Walk, i: Id): nat {
    if w == [] then 0
    else if w[|w| - 1].Nested? && w[|w| - 1].target == i then |Stack(f, w[..|w| - 1])|
    else DepthOf(f, w[..|w| - 1], i)
  }

  // The interviews on the walk, as next and prev see them
  function ShapeOf(f: Form, w: Walk): Shape {
    var ids := {f.root} + Targets(w);
    Shape(f.root, map i | i in ids :: Filter(f, w, i), map t | t in Targets(w) :: CallerHome(f, w, t),
      map i | i in ids :: DepthOf(f, w, i), |w|)
  }

  ghost predicate DepthsOk(f: Form, w: Walk) {
    && (forall h :: 0 <= h < |Stack(f, w)| ==> DepthOf(f, w, Stack(f, w)[h]) == h)
    && (forall c :: c in w && c.Nested? && c in f.home ==> DepthOf(f, w, c.target) == DepthOf(f, w, f.home[c]) + 1)
    && (forall i :: DepthOf(f, w, i) <= |w|) && |Stack(f, w)| <= |w| + 1
  }

  lemma DepthSnoc(f: Form, w: Walk, q: Question, i: Id)
    ensures DepthOf(f, w + [q], i) == if q.Nested? && q.target == i then |Stack(f, w)| else DepthOf(f, w, i)
  {
    assert (w + [q])[..|w|] == w;
  }

  lemma {:induction false} DepthsAreOk(f: Form, w: Walk)
    requires Closed(f) && WalkOk(f, w)
    ensures DepthsOk(f, w)
  {
    if w != [] {
      var front, q := w[..|w| - 1], w[|w| - 1];
      assert w == front + [q];
      DepthsAreOk(f, front);
      hide Filter, CallerOf, EndedAt, WalkOk;
      DepthsGrow(f, front, q);
    }
  }

  lemma DepthsGrow(f: Form, w: Walk, q: Question)
    requires Closed(f) && WalkOk(f, w) && Extends(f, w, q) && DepthsOk(f, w)
    ensures DepthsOk(f, w + [q])
  {
    hide Filter, CallerOf, EndedAt, WalkOk, Stack, DepthOf, Closed;
    WalkSnoc(f, w, q);
    HomeAttached(f, w, q);
    var w', st := w + [q], Stack(f, w);
    forall i ensures DepthOf(f, w', i) == (if q.Nested? && q.target == i then |st| else DepthOf(f, w, i)) {
      DepthSnoc(f, w, q, i);
    }
    forall c | c in w' && c.Nested? && c in f.home ensures DepthOf(f, w', c.target) == DepthOf(f, w', f.home[c]) + 1 {
      if c in w {
        var k :| 0 <= k < |w| && w[k] == c;
        HomesAttached(f, w, k);
        assert c.target in Targets(w);
      } else {
        NotItsOwn(f, w, q);
      }
    }
  }

  predicate FinalLast(qs: seq<Question>) { forall k :: 0 <= k < |qs| - 1 ==> !qs[k].Final? }

  predicate NoFinal(qs: seq<Question>) { forall k :: 0 <= k < |qs| ==> !qs[k].Final? }

  lemma {:induction false} FinalsAreLast(f: Form, w: Walk)
    requires Closed(f) && WalkOk(f, w)
    ensures forall i :: FinalLast(Filter(f, w, i)) && (i in Stack(f, w) ==> NoFinal(Filter(f, w, i)))
  {
    if w != [] {
      var front, q := w[..|w| - 1], w[|w| - 1];
      assert w == front + [q];
      FinalsAreLast(f, front);
      StackLinked(f, front);
      WalkSnoc(f, front, q);
      hide Filter, CallerOf, EndedAt, WalkOk, Stack, Closed, Targets;
      var st := Stack(f, front);
      assert f.home[q] == st[|st| - 1] && f.home[q] in st;
      forall i ensures FinalLast(Filter(f, w, i)) && (i in Stack(f, w) ==> NoFinal(Filter(f, w, i))) {
        assert FinalLast(Filter(f, front, i)) && (i in st ==> NoFinal(Filter(f, front, i)));
        if q.Nested? && i == q.target && i !in st {
          NotYetFiltered(f, front, i);
        }
      }
    }
  }

  lemma NestedInShape(f: Form, w: Walk, i: Id, k: int, t: Id)
    requires Closed(f) && WalkOk(f, w) && NestedAt(ShapeOf(f, w), i, k, t)
    ensures Attached(f, w, i) && 0 <= k < |Filter(f, w, i)| && Matches(Filter(f, w, i)[k], AnInterview(t))
    ensures var q := Filter(f, w, i)[k];
      q in w && q.Nested? && q.target == t && t in Targets(w) && CallerOf(w, t) == Some(q) && q in f.home && f.home[q] == i
    ensures CalledBy(ShapeOf(f, w), t, i)
  {
    hide Filter, CallerOf, Stack, WalkOk, Closed;
    var q := Filter(f, w, i)[k];
    FilterIn(f, w, i, k);
    var m := FilterAfterEntry(f, w, i, k);
    CallerIsTarget(f, w, t);
    DepthsAreOk(f, w);
  }

  // What stands for an interview that another question has followed
  lemma PassedHasEnded(f: Form, w: Walk, i: Id, k: int, t: Id)
    requires Closed(f) && WalkOk(f, w) && NestedAt(ShapeOf(f, w), i, k, t) && k < |Filter(f, w, i)| - 1
    ensures EndedAt(f, w, t)
  {
    hide Filter, CallerOf, Stack, WalkOk, Closed, ShapeOf, EndedAt, Targets;
    NestedInShape(f, w, i, k, t);
    StackLinked(f, w);
    var st := Stack(f, w);
    if t in st {
      var h :| 0 <= h < |st| && st[h] == t;
      CallerIsTarget(f, w, t);
      assert LinkedAt(f, w, st[h - 1], st[h - 1 + 1]);
      var last := |Filter(f, w, i)| - 1;
      FilterDistinct(f, w, i, k, last);
      assert false;
    }
  }

  lemma RootAsked(f: Form, w: Walk)
    requires Closed(f) && WalkOk(f, w) && w != []
    ensures Filter(f, w, f.root) != []
    ensures w[0] in f.home && f.home[w[0]] == f.root && Filter(f, w, f.root)[0] == w[0]
  {
    hide WalkOk, Filter, Stack, Targets, CallerOf, Closed;
    PrefixOk(f, w, 1);
    FilterPrefix(f, w, 1, f.root);
    FirstAsked(f, w[0]);
    assert w[..1] == [w[0]];
  }

  lemma FirstAsked(f: Form, q: Question)
    requires WalkOk(f, [q])
    ensures q in f.home && f.home[q] == f.root && Filter(f, [q], f.root) == [q]
  {
    assert [q] == [] + [q];
    WalkSnoc(f, [], q);
  }

  // A predicted path may be moved along exactly when each nested interview on
  // it has a question; and nothing follows an interview on it that has not
  // ended.
  lemma WalkIsNavigable(f: Form, w: Walk)
    requires Closed(f) && WalkOk(f, w) && w != []
    ensures WellFormed(ShapeOf(f, w)) <==> forall t :: t in Targets(w) ==> Filter(f, w, t) != []
    ensures Ended(ShapeOf(f, w))
  {
    hide Filter, CallerOf, Stack, WalkOk, Closed, ShapeOf, Targets, Rooted;
    ShapeIs(f, w);
    WalkHasEnded(f, w);
    WalkIsLinked(f, w);
    if forall t :: t in Targets(w) ==> Filter(f, w, t) != [] {
      ShapeIsRooted(f, w);
    }
  }

  lemma WalkHasEnded(f: Form, w: Walk)
    requires Closed(f) && WalkOk(f, w) && w != []
    ensures Ended(ShapeOf(f, w))
  {
    hide Filter, CallerOf, Stack, WalkOk, Closed, ShapeOf, Targets;
    ShapeIs(f, w);
    var sh := ShapeOf(f, w);
    forall i, k, t | NestedAt(sh, i, k, t) && k < |sh.path[i]| - 1 && t in sh.path && sh.path[t] != [] ensures sh.path[t][|sh.path[t]| - 1].Final? {
      NestedInShape(f, w, i, k, t);
      PassedHasEnded(f, w, i, k, t);
    }
  }

  lemma WalkIsLinked(f: Form, w: Walk)
    requires Closed(f) && WalkOk(f, w) && w != []
    ensures var sh := ShapeOf(f, w);
      && (forall i, k, t :: NestedAt(sh, i, k, t) ==> CalledBy(sh, t, i))
      && (forall i, k, l, t :: NestedAt(sh, i, k, t) && NestedAt(sh, i, l, t) ==> k == l)
      && (forall i, k :: i in sh.path && 0 <= k < |sh.path[i]| - 1 ==> !sh.path[i][k].Final?)
  {
    hide Filter, CallerOf, Stack, WalkOk, Closed, ShapeOf, Targets;
    ShapeIs(f, w);
    var sh := ShapeOf(f, w);
    forall i, k, t | NestedAt(sh, i, k, t) ensures CalledBy(sh, t, i) {
      NestedInShape(f, w, i, k, t);
    }
    forall i, k, l, t | NestedAt(sh, i, k, t) && NestedAt(sh, i, l, t) ensures k == l {
      NestedInShape(f, w, i, k, t);
      NestedInShape(f, w, i, l, t);
      MatchIsUnique(f, w, i, k, l, AnInterview(t));
    }
    FinalsAreLast(f, w);
    assert forall i :: FinalLast(Filter(f, w, i));
  }

  lemma ShapeIs(f: Form, w: Walk)
    requires Closed(f) && WalkOk(f, w) && w != []
    ensures var sh := ShapeOf(f, w);
      && (forall i :: i in sh.path <==> Attached(f, w, i)) && (forall i :: i in sh.path ==> sh.path[i] == Filter(f, w, i))
      && (forall t :: t in Targets(w) ==> t in sh.path)
      && (WellFormed(sh) ==> forall t :: t in Targets(w) ==> Filter(f, w, t) != [])
  {
    hide Filter, CallerOf, Stack, WalkOk, Closed, DepthOf;
  }

  lemma ShapeIsRooted(f: Form, w: Walk)
    requires Closed(f) && WalkOk(f, w) && w != [] && forall t :: t in Targets(w) ==> Filter(f, w, t) != []
    ensures Rooted(ShapeOf(f, w))
  {
    hide Filter, CallerOf, Stack, WalkOk, Closed, DepthOf, Targets;
    var sh := ShapeOf(f, w);
    RootAsked(f, w);
    DepthsAreOk(f, w);
    RootIsZero(f, w);
    CallerIsTarget(f, w, f.root);
    forall t | t in sh.path && t != sh.root ensures t in sh.caller && exists k :: NestedAt(sh, sh.caller[t], k, t) {
      CallerIsTarget(f, w, t);
      var c := CallerOf(w, t).value;
      var k :| 0 <= k < |w| && w[k] == c;
      HomesAttached(f, w, k);
      var m := InFilter(f, w, k);
      assert NestedAt(sh, sh.caller[t], m, t);
    }
  }

  lemma {:induction false} RootIsZero(f: Form, w: Walk)
    requires WalkOk(f, w)
    ensures DepthOf(f, w, f.root) == 0
  {
    if w != [] {
      RootIsZero(f, w[..|w| - 1]);
    }
  }

  // After reset the path is the one the answers make, its first question is
  // the current one, and next and prev move along it one question at a time.
  lemma ResetIsNavigable(f: Form, cur: Cursors)
    requires Closed(f) && !f.first[f.root].Nested?
    requires forall t :: t in Targets(FreshPath(f)) ==> Filter(f, FreshPath(f), t) != []
    requires {f.root} + Targets(FreshPath(f)) <= cur.Keys && cur[f.root] == 0
    ensures var sh := ShapeOf(f, FreshPath(f));
      && WellFormed(sh) && Ended(sh) && Positioned(sh, cur) && Position(sh, cur) == 0
      && Current(sh, cur) == f.first[f.root]
  {
    var w := FreshPath(f);
    FreshPathIsPath(f);
    WalkIsNavigable(f, w);
    RootAsked(f, w);
    ShapeIs(f, w);
    hide WellFormed, FreshPath, Filter, Targets, WalkOk, Closed;
    var sh := ShapeOf(f, w);
    ResetPositions(sh, cur);
    LocatedIsBottom(sh, cur, sh.root);
  }
}
