// Jumping to a question of an interview: where setCurrentQuestion leaves the
// cursors, and when the path to the current question is then the whole path up
// to it.
module InterviewJump {
  import opened InterviewPath

  // ---- the path to the current question, whatever the cursors --------

  // How many entries of an interview its cursor lets through
  function Shown(sh: Shape, cur: Cursors, i: Id): nat
    requires HasCursors(sh, cur) && i in sh.path
  {
    if cur[i] < 0 then 0 else if cur[i] >= |sh.path[i]| then |sh.path[i]| else cur[i] + 1
  }

  // No question of the interview, in a nested one or not, comes after its
  // cursor.
  ghost predicate AtEnd(sh: Shape, cur: Cursors, i: Id)
    requires WellFormed(sh) && HasCursors(sh, cur) && i in sh.path
  {
    Before(sh, 0, i, Shown(sh, cur, i)) == Total(sh, 0, i)
  }

  // An interview lies within the first k entries of another.
  ghost predicate Inside(sh: Shape, u: Id, i: Id, k: nat)
    requires WellFormed(sh) && u in sh.path && i in sh.path && k <= |sh.path[i]|
  {
    Start(sh, 1, i) < Start(sh, 1, u) && Start(sh, 1, u) + Total(sh, 1, u) < Place(sh, 1, i, k)
  }

  // What is listed of the first k entries of an interview, when its own cursor
  // lets them through
  function Span(sh: Shape, cur: Cursors, i: Id, k: nat): seq<Question>
    requires WellFormed(sh) && HasCursors(sh, cur) && i in sh.path && k <= |sh.path[i]|
  {
    if k == 0 then []
    else
      var q := sh.path[i][k - 1];
      Span(sh, cur, i, k - 1) +
        match q
        case Plain(_) => [q]
        case Final(_) => []
        case Nested(_, t) =>
          assert NestedAt(sh, i, k - 1, t);
          Listed(sh, cur, t, 0, false, false)
  }

  // What is listed of one entry
  function Entry(sh: Shape, cur: Cursors, i: Id, k: nat): seq<Question>
    requires WellFormed(sh) && HasCursors(sh, cur) && i in sh.path && k < |sh.path[i]|
  {
    match sh.path[i][k]
    case Plain(_) => [sh.path[i][k]]
    case Final(_) => []
    case Nested(_, t) =>
      assert NestedAt(sh, i, k, t);
      Listed(sh, cur, t, 0, false, false)
  }

  lemma SpanSnoc(sh: Shape, cur: Cursors, i: Id, k: nat)
    requires WellFormed(sh) && HasCursors(sh, cur) && i in sh.path && k < |sh.path[i]|
    ensures Span(sh, cur, i, k + 1) == Span(sh, cur, i, k) + Entry(sh, cur, i, k)
  {
  }

  lemma SpanStarts(sh: Shape, cur: Cursors, i: Id)
    requires WellFormed(sh) && HasCursors(sh, cur) && i in sh.path
    ensures Span(sh, cur, i, 0) == []
  {
  }

  // Listing is a span, and what is left.
  lemma {:induction false} ListedIsSpan(sh: Shape, cur: Cursors, i: Id, k: nat, addFinal: bool)
    requires WellFormed(sh) && HasCursors(sh, cur) && i in sh.path && k <= Shown(sh, cur, i)
    requires addFinal ==> k < |sh.path[i]|
    ensures Listed(sh, cur, i, 0, false, addFinal) ==
      Span(sh, cur, i, k) + if k > 0 && k == |sh.path[i]| && sh.path[i][k - 1].Final? then [] else Listed(sh, cur, i, k, false, addFinal)
  {
    hide WellFormed, Listed, Before, Span, Entry, Body;
    if k == 0 {
      SpanStarts(sh, cur, i);
      assert [] + Listed(sh, cur, i, 0, false, addFinal) == Listed(sh, cur, i, 0, false, addFinal);
    } else {
      ListedIsSpan(sh, cur, i, k - 1, addFinal);
      SpanSnoc(sh, cur, i, k - 1);
      EntryListed(sh, cur, i, k - 1, addFinal);
      NotFinalBefore(sh, i, k - 1);
      var span, entry, rest := Span(sh, cur, i, k - 1), Entry(sh, cur, i, k - 1), Listed(sh, cur, i, k, false, addFinal);
      assert span + (entry + rest) == (span + entry) + rest && span + [] == span;
    }
  }

  lemma EntryListed(sh: Shape, cur: Cursors, i: Id, k: nat, addFinal: bool)
    requires WellFormed(sh) && HasCursors(sh, cur) && i in sh.path && k < Shown(sh, cur, i)
    ensures !sh.path[i][k].Final? ==>
      Listed(sh, cur, i, k, false, addFinal) == Entry(sh, cur, i, k) + Listed(sh, cur, i, k + 1, false, addFinal)
    ensures sh.path[i][k].Final? ==> Entry(sh, cur, i, k) == []
    ensures sh.path[i][k].Final? ==> k + 1 == |sh.path[i]| && (!addFinal ==> Listed(sh, cur, i, k, false, addFinal) == [])
  {
    hide WellFormed, Listed, Before, Body;
    if sh.path[i][k].Nested? {
      NestedListed(sh, cur, i, k, false, addFinal);
    } else if sh.path[i][k].Plain? {
      PlainListed(sh, cur, i, k, false, addFinal);
    } else {
      FinalListed(sh, cur, i, k, false, addFinal);
    }
  }

  lemma NotFinalBefore(sh: Shape, i: Id, k: nat)
    requires WellFormed(sh) && i in sh.path && k < |sh.path[i]|
    ensures k > 0 ==> !sh.path[i][k - 1].Final?
  {
  }

  lemma NestedIsSpan(sh: Shape, cur: Cursors, i: Id)
    requires WellFormed(sh) && HasCursors(sh, cur) && i in sh.path
    ensures Listed(sh, cur, i, 0, false, false) == Span(sh, cur, i, Shown(sh, cur, i))
  {
    hide WellFormed, Before, Span;
    var k := Shown(sh, cur, i);
    ListedIsSpan(sh, cur, i, k, false);
    assert Listed(sh, cur, i, k, false, false) == [];
    assert Span(sh, cur, i, k) + [] == Span(sh, cur, i, k);
  }

  // ---- which interviews lie where ------------------------------------

  // An interview within the first k entries is that of one of them, or within
  // it.
  lemma EntryOf(sh: Shape, u: Id, i: Id, k: nat) returns (l: nat)
    requires WellFormed(sh) && u in sh.path && i in sh.path && k <= |sh.path[i]| && Inside(sh, u, i, k)
    ensures l < k && sh.path[i][l].Nested?
    ensures var t := sh.path[i][l].target;
      t in sh.path && (u == t || Inside(sh, u, t, |sh.path[t]|))
  {
    hide WellFormed, Before, Weight, Start, Total, Place;
    assert u in sh.depth && i in sh.depth by { DepthBound(sh, u); DepthBound(sh, i); }
    PlaceWithin(sh, 1, i, k);
    PlaceWithin(sh, 1, u, 0);
    var m: int;
    if sh.depth[u] >= sh.depth[i] {
      m := Separate(sh, u, i);
    } else {
      m := Separate(sh, i, u);
      if 0 <= m < |sh.path[u]| {
        PlaceAfterStart(sh, u, m);
      }
      assert false;
    }
    l := m;
    if l >= k {
      PlaceMono(sh, i, l, k);
      assert false;
    }
    InEntry(sh, u, i, l);
  }

  lemma InEntry(sh: Shape, u: Id, i: Id, l: nat)
    requires WellFormed(sh) && u in sh.path && i in sh.path && l < |sh.path[i]|
    requires Place(sh, 1, i, l) < Start(sh, 1, u) && Start(sh, 1, u) + Total(sh, 1, u) < Place(sh, 1, i, l + 1)
    ensures sh.path[i][l].Nested?
    ensures var t := sh.path[i][l].target;
      t in sh.path && (u == t || Inside(sh, u, t, |sh.path[t]|))
  {
    hide WellFormed, Before, Weight, Start, Total, Place;
    if !sh.path[i][l].Nested? {
      OneQuestion(sh, 1, i, l);
      assert false;
    }
    var t := sh.path[i][l].target;
    EntrySpan(sh, i, l);
    DepthBound(sh, u);
    DepthBound(sh, t);
    TotalPlace(sh, 1, t);
    if sh.depth[u] >= sh.depth[t] {
      var m := Separate(sh, u, t);
      if 0 <= m < |sh.path[t]| {
        PlaceWithin(sh, 1, t, m);
        PlaceWithin(sh, 1, t, m + 1);
      }
    } else {
      var m := Separate(sh, t, u);
      if 0 <= m < |sh.path[u]| {
        PlaceAfterStart(sh, u, m);
      }
    }
  }

  lemma PlaceAfterStart(sh: Shape, i: Id, k: int)
    requires WellFormed(sh) && i in sh.path && 0 <= k < |sh.path[i]|
    ensures Start(sh, 1, i) <= Place(sh, 1, i, k) < Place(sh, 1, i, k + 1) <= Start(sh, 1, i) + Total(sh, 1, i)
  {
    OneStep(sh, i, k);
  }

  lemma TotalPlace(sh: Shape, e: nat, i: Id)
    requires WellFormed(sh) && i in sh.path
    ensures Place(sh, e, i, |sh.path[i]|) == Start(sh, e, i) + Total(sh, e, i) && Place(sh, e, i, 0) == Start(sh, e, i)
  {
  }

  // Where the interview of an entry lies
  lemma EntrySpan(sh: Shape, i: Id, l: nat)
    requires WellFormed(sh) && i in sh.path && l < |sh.path[i]| && sh.path[i][l].Nested?
    ensures var t := sh.path[i][l].target;
      && t in sh.path && t in sh.depth && i in sh.depth && sh.depth[t] == sh.depth[i] + 1 && sh.depth[t] <= sh.height
      && Start(sh, 1, t) == Place(sh, 1, i, l) + 1 && Start(sh, 1, t) + Total(sh, 1, t) + 1 == Place(sh, 1, i, l + 1)
      && Start(sh, 0, t) == Place(sh, 0, i, l) && Before(sh, 0, i, l + 1) == Before(sh, 0, i, l) + Total(sh, 0, t)
  {
    var t := sh.path[i][l].target;
    assert NestedAt(sh, i, l, t) && CalledBy(sh, t, i) && Index(sh, t) == l;
    NestedWeight(sh, 1, t);
    NestedWeight(sh, 0, t);
  }

  // The interviews within entry k, besides those within the first k
  lemma InsideSnoc(sh: Shape, u: Id, i: Id, k: nat)
    requires WellFormed(sh) && u in sh.path && i in sh.path && k < |sh.path[i]|
    ensures !sh.path[i][k].Nested? ==> (Inside(sh, u, i, k + 1) <==> Inside(sh, u, i, k))
    ensures sh.path[i][k].Nested? ==>
      var t := sh.path[i][k].target;
      t in sh.path && (Inside(sh, u, i, k + 1) <==> Inside(sh, u, i, k) || u == t || Inside(sh, u, t, |sh.path[t]|))
  {
    hide WellFormed, Before, Weight, Start, Total, Place;
    OneStep(sh, i, k);
    PlaceWithin(sh, 1, i, k);
    if sh.path[i][k].Nested? {
      EntrySpan(sh, i, k);
      TotalPlace(sh, 1, sh.path[i][k].target);
    }
    if Inside(sh, u, i, k + 1) && !Inside(sh, u, i, k) {
      var l := EntryOf(sh, u, i, k + 1);
      if l < k {
        EntrySpan(sh, i, l);
        PlaceMono(sh, i, l, k);
        TotalPlace(sh, 1, sh.path[i][l].target);
      }
    }
  }

  // An interview within another has no more questions than it.
  lemma {:induction false} FewerInside(sh: Shape, u: Id, i: Id, k: nat, n: nat)
    requires WellFormed(sh) && u in sh.path && i in sh.path && k <= n <= |sh.path[i]|
    requires Inside(sh, u, i, n) && !Inside(sh, u, i, k)
    ensures Total(sh, 0, u) <= Before(sh, 0, i, n) - Before(sh, 0, i, k)
    decreases sh.height - sh.depth[i], n
  {
    hide WellFormed, Weight, Start, Total, Place, Inside, Before;
    DepthBound(sh, i);
    BeforeMono(sh, 0, i, k, n);
    InsideSnoc(sh, u, i, n - 1);
    BeforeMono(sh, 0, i, n - 1, n);
    BeforeMono(sh, 0, i, k, n - 1);
    if Inside(sh, u, i, n - 1) {
      FewerInside(sh, u, i, k, n - 1);
    } else {
      EntrySpan(sh, i, n - 1);
      var t := sh.path[i][n - 1].target;
      if u != t {
        NotInsideNothing(sh, u, t);
        FewerInside(sh, u, t, 0, |sh.path[t]|);
        NoneBefore(sh, t);
      }
    }
  }

  lemma NotInsideNothing(sh: Shape, u: Id, i: Id)
    requires WellFormed(sh) && u in sh.path && i in sh.path
    ensures !Inside(sh, u, i, 0)
  {
  }

  lemma NoneBefore(sh: Shape, i: Id)
    requires WellFormed(sh) && i in sh.path
    ensures Before(sh, 0, i, 0) == 0 && Total(sh, 0, i) == Before(sh, 0, i, |sh.path[i]|)
  {
  }

  // ---- what spans show -----------------------------------------------

  // All interviews within the first k entries have their cursors at the end.
  ghost predicate AllAtEnd(sh: Shape, cur: Cursors, i: Id, k: nat)
    requires WellFormed(sh) && HasCursors(sh, cur) && i in sh.path && k <= |sh.path[i]|
  {
    forall u :: u in sh.path && Inside(sh, u, i, k) ==> AtEnd(sh, cur, u)
  }

  // A span is what there is exactly when the cursors within it are at the end;
  // otherwise it is shorter.
  lemma {:induction false} SpanIff(sh: Shape, cur: Cursors, i: Id, k: nat)
    requires WellFormed(sh) && HasCursors(sh, cur) && i in sh.path && k <= |sh.path[i]|
    ensures |Span(sh, cur, i, k)| <= Before(sh, 0, i, k)
    ensures |Span(sh, cur, i, k)| == Before(sh, 0, i, k) <==> AllAtEnd(sh, cur, i, k)
    ensures |Span(sh, cur, i, k)| == Before(sh, 0, i, k) ==> Span(sh, cur, i, k) == Body(sh, i, k)
    decreases sh.height - sh.depth[i], k, 1
  {
    hide WellFormed, Weight, Start, Total, Place, Inside, Listed, AtEnd;
    DepthBound(sh, i);
    if k == 0 {
      forall u | u in sh.path ensures !Inside(sh, u, i, 0) {
        NotInsideNothing(sh, u, i);
      }
    } else {
      hide AllAtEnd, NewAtEnd, Before, Body, Span, Entry;
      SpanIff(sh, cur, i, k - 1);
      EntryShown(sh, cur, i, k - 1);
      SpanSnoc(sh, cur, i, k - 1);
      AtEndSnoc(sh, cur, i, k - 1);
    }
  }

  // All interviews within entry k have.
  ghost predicate NewAtEnd(sh: Shape, cur: Cursors, i: Id, k: nat)
    requires WellFormed(sh) && HasCursors(sh, cur) && i in sh.path && k < |sh.path[i]|
  {
    forall u :: u in sh.path && Inside(sh, u, i, k + 1) && !Inside(sh, u, i, k) ==> AtEnd(sh, cur, u)
  }

  lemma AtEndSnoc(sh: Shape, cur: Cursors, i: Id, k: nat)
    requires WellFormed(sh) && HasCursors(sh, cur) && i in sh.path && k < |sh.path[i]|
    ensures AllAtEnd(sh, cur, i, k + 1) <==> AllAtEnd(sh, cur, i, k) && NewAtEnd(sh, cur, i, k)
  {
    hide WellFormed, Weight, Start, Total, Place, AtEnd, Before;
    OneStep(sh, i, k);
  }

  lemma {:induction false} EntryShown(sh: Shape, cur: Cursors, i: Id, k: nat)
    requires WellFormed(sh) && HasCursors(sh, cur) && i in sh.path && k < |sh.path[i]|
    ensures |Entry(sh, cur, i, k)| <= Before(sh, 0, i, k + 1) - Before(sh, 0, i, k)
    ensures |Entry(sh, cur, i, k)| == Before(sh, 0, i, k + 1) - Before(sh, 0, i, k) <==> NewAtEnd(sh, cur, i, k)
    ensures |Entry(sh, cur, i, k)| == Before(sh, 0, i, k + 1) - Before(sh, 0, i, k)
        ==> Body(sh, i, k + 1) == Body(sh, i, k) + Entry(sh, cur, i, k)
    decreases sh.height - sh.depth[i], k, 0
  {
    hide WellFormed, Weight, Start, Total, Place, Inside, Listed, AtEnd, Before, Body, AllAtEnd, Span;
    forall u | u in sh.path && !sh.path[i][k].Nested? ensures Inside(sh, u, i, k + 1) <==> Inside(sh, u, i, k) {
      InsideSnoc(sh, u, i, k);
    }
    if sh.path[i][k].Nested? {
      var t := sh.path[i][k].target;
      EntrySpan(sh, i, k);
      DepthBound(sh, i);
      var m := Shown(sh, cur, t);
      SpanIff(sh, cur, t, m);
      NestedIsSpan(sh, cur, t);
      NestedListed(sh, cur, i, k, true, false);
      NestedShown(sh, cur, i, k);
    } else {
      QuestionShown(sh, cur, i, k);
    }
  }

  lemma QuestionShown(sh: Shape, cur: Cursors, i: Id, k: nat)
    requires WellFormed(sh) && HasCursors(sh, cur) && i in sh.path && k < |sh.path[i]| && !sh.path[i][k].Nested?
    ensures |Entry(sh, cur, i, k)| == Before(sh, 0, i, k + 1) - Before(sh, 0, i, k)
    ensures Body(sh, i, k + 1) == Body(sh, i, k) + Entry(sh, cur, i, k)
  {
  }

  lemma NestedShown(sh: Shape, cur: Cursors, i: Id, k: nat)
    requires WellFormed(sh) && HasCursors(sh, cur) && i in sh.path && k < |sh.path[i]| && sh.path[i][k].Nested?
    ensures var t := sh.path[i][k].target;
      && t in sh.path
      && Before(sh, 0, t, Shown(sh, cur, t)) <= Total(sh, 0, t)
      && (NewAtEnd(sh, cur, i, k) <==> AtEnd(sh, cur, t) && AllAtEnd(sh, cur, t, Shown(sh, cur, t)))
      && (AtEnd(sh, cur, t) <==> Before(sh, 0, t, Shown(sh, cur, t)) == Total(sh, 0, t))
      && (AtEnd(sh, cur, t) ==> Body(sh, t, Shown(sh, cur, t)) == Body(sh, t, |sh.path[t]|))
  {
    hide WellFormed, Weight, Start, Total, Place, Inside, AtEnd, Before, Body;
    EntrySpan(sh, i, k);
    var t := sh.path[i][k].target;
    var m, n := Shown(sh, cur, t), |sh.path[t]|;
    BeforeMono(sh, 0, t, m, n);
    NoneBefore(sh, t);
    AtEndIs(sh, cur, t);
    BodyPrefix(sh, t, m, n);
    forall u | u in sh.path ensures (Inside(sh, u, i, k + 1) && !Inside(sh, u, i, k)) <==> (u == t || Inside(sh, u, t, n)) {
      InsideSnoc(sh, u, i, k);
      NotInsideBefore(sh, u, i, k);
    }
    if AtEnd(sh, cur, t) && AllAtEnd(sh, cur, t, m) {
      forall u | u in sh.path && Inside(sh, u, t, n) ensures AtEnd(sh, cur, u) {
        if !Inside(sh, u, t, m) {
          FewerInside(sh, u, t, m, n);
          NoneAtEnd(sh, cur, u);
        }
      }
    }
    if NewAtEnd(sh, cur, i, k) {
      forall u | u in sh.path && Inside(sh, u, t, m) ensures AtEnd(sh, cur, u) {
        InsideMono(sh, u, t, m, n);
      }
    }
  }

  lemma AtEndIs(sh: Shape, cur: Cursors, i: Id)
    requires WellFormed(sh) && HasCursors(sh, cur) && i in sh.path
    ensures AtEnd(sh, cur, i) <==> Before(sh, 0, i, Shown(sh, cur, i)) == Total(sh, 0, i)
  {
  }

  // Where every entry but a FinalQuestion stands for a question, a cursor is at
  // the end exactly when it is at the last of them or after it.
  lemma AtEndIff(sh: Shape, cur: Cursors, i: Id)
    requires WellFormed(sh) && HasCursors(sh, cur) && i in sh.path && cur[i] >= -1
    requires forall k :: 0 <= k < |sh.path[i]| && !sh.path[i][k].Final? ==> Weight(sh, 0, i, k) > 0
    ensures AtEnd(sh, cur, i) <==> cur[i] + 1 >= if sh.path[i][|sh.path[i]| - 1].Final? then |sh.path[i]| - 1 else |sh.path[i]|
  {
    var n := |sh.path[i]|;
    var k, m := Shown(sh, cur, i), if sh.path[i][n - 1].Final? then n - 1 else n;
    assert Before(sh, 0, i, m) == Total(sh, 0, i) by {
      assert sh.path[i][n - 1].Final? ==> Weight(sh, 0, i, n - 1) == 0;
    }
    if k < m {
      NotFinalBefore(sh, i, m - 1);
      NotFinalYet(sh, i, k);
      assert Before(sh, 0, i, k + 1) == Before(sh, 0, i, k) + Weight(sh, 0, i, k);
      BeforeMono(sh, 0, i, k + 1, m);
    } else {
      BeforeMono(sh, 0, i, m, k);
      BeforeMono(sh, 0, i, k, n);
    }
  }

  lemma NotFinalYet(sh: Shape, i: Id, k: nat)
    requires WellFormed(sh) && i in sh.path && k < |sh.path[i]| && (k == |sh.path[i]| - 1 ==> !sh.path[i][k].Final?)
    ensures !sh.path[i][k].Final?
  {
  }

  lemma NoneAtEnd(sh: Shape, cur: Cursors, i: Id)
    requires WellFormed(sh) && HasCursors(sh, cur) && i in sh.path && Total(sh, 0, i) == 0
    ensures AtEnd(sh, cur, i)
  {
    hide WellFormed, Weight, Before;
    BeforeMono(sh, 0, i, Shown(sh, cur, i), |sh.path[i]|);
  }

  lemma InsideMono(sh: Shape, u: Id, i: Id, k: nat, n: nat)
    requires WellFormed(sh) && u in sh.path && i in sh.path && k <= n <= |sh.path[i]| && Inside(sh, u, i, k)
    ensures Inside(sh, u, i, n)
  {
    hide WellFormed, Weight, Start, Total, Before;
    BeforeMono(sh, 1, i, k, n);
  }

  lemma NotInsideBefore(sh: Shape, u: Id, i: Id, k: nat)
    requires WellFormed(sh) && u in sh.path && i in sh.path && k < |sh.path[i]| && sh.path[i][k].Nested?
    ensures var t := sh.path[i][k].target;
      t in sh.path && (u == t || Inside(sh, u, t, |sh.path[t]|) ==> !Inside(sh, u, i, k))
  {
    hide WellFormed, Weight, Start, Total, Before, Place;
    EntrySpan(sh, i, k);
  }

  // ---- the path to the current question ------------------------------

  // The cursors point down to entry cur[i] of i, which is on the path; the
  // other cursors are anywhere.
  ghost predicate Pointed(sh: Shape, cur: Cursors, i: Id)
    requires WellFormed(sh)
  {
    && HasCursors(sh, cur) && i in sh.path && Chain(sh, cur, i) && 0 <= cur[i] < |sh.path[i]|
    && !sh.path[i][cur[i]].Nested? && (sh.path[i][cur[i]].Final? ==> i == sh.root)
  }

  // Every interview below a that lies wholly before the current question has
  // its cursor at the end.
  ghost predicate BeforeAtEnd(sh: Shape, cur: Cursors, a: Id, i: Id)
    requires WellFormed(sh) && HasCursors(sh, cur) && a in sh.path && i in sh.path && 0 <= cur[i] < |sh.path[i]|
  {
    forall u :: u in sh.path && Start(sh, 1, a) < Start(sh, 1, u) && Start(sh, 1, u) + Total(sh, 1, u) < Place(sh, 1, i, cur[i])
      ==> AtEnd(sh, cur, u)
  }

  // What listing interview a shows of the path to the current question
  ghost predicate ShowsIff(sh: Shape, cur: Cursors, a: Id, i: Id, listed: seq<Question>)
    requires WellFormed(sh) && Pointed(sh, cur, i) && a in sh.path
  {
    var n := Place(sh, 0, i, cur[i]) - Start(sh, 0, a);
    && |listed| <= n + 1
    && (|listed| == n + 1 <==> BeforeAtEnd(sh, cur, a, i))
    && (|listed| == n + 1 ==> ListedTo(sh, a, n, sh.path[i][cur[i]], listed))
  }

  lemma ShowsHere(sh: Shape, cur: Cursors, i: Id, addFinal: bool)
    requires WellFormed(sh) && Pointed(sh, cur, i) && (addFinal || i != sh.root)
    ensures ShowsIff(sh, cur, i, i, Listed(sh, cur, i, 0, false, addFinal))
  {
    hide WellFormed, Before, Weight, Start, Total, Body, EndOf, Listed, Span, AtEnd, Chain;
    var k, q := cur[i], sh.path[i][cur[i]];
    ListedIsSpan(sh, cur, i, k, addFinal);
    NotFinalBefore(sh, i, k);
    PastCursor(sh, cur, i, addFinal);
    SpanIff(sh, cur, i, k);
    EndIs(sh, i, k);
    BodyPrefix(sh, i, k, |sh.path[i]|);
    if q.Plain? {
      PlainListed(sh, cur, i, k, false, addFinal);
      BodyPrefix(sh, i, k + 1, |sh.path[i]|);
      assert Body(sh, i, k + 1)[Before(sh, 0, i, k)] == q;
    } else {
      FinalListed(sh, cur, i, k, false, addFinal);
    }
    var listed := Listed(sh, cur, i, 0, false, addFinal);
    assert listed == Span(sh, cur, i, k) + [q];
  }

  // The interviews before the current question, as seen from a: those within
  // the entries before its cursor, and those below the one it points at.
  lemma BeforeSplits(sh: Shape, cur: Cursors, a: Id, i: Id)
    requires WellFormed(sh) && Pointed(sh, cur, i) && a in sh.path && Chain(sh, cur, a) && Bottom(sh, cur, a) == i && a != i
    ensures 0 <= cur[a] < |sh.path[a]| && sh.path[a][cur[a]].Nested?
    ensures var t := sh.path[a][cur[a]].target;
      && t in sh.path && Chain(sh, cur, t) && Bottom(sh, cur, t) == i && t != sh.root
      && (BeforeAtEnd(sh, cur, a, i) <==> AllAtEnd(sh, cur, a, cur[a]) && BeforeAtEnd(sh, cur, t, i))
  {
    hide WellFormed, Before, Weight, Start, Total, Chain, Bottom, AtEnd, Place, Inside;
    BottomStep(sh, cur, a);
    var k, t := cur[a], sh.path[a][cur[a]].target;
    EntrySpan(sh, a, k);
    PlacesDown(sh, cur, t, i);
    forall u | u in sh.path
      ensures (Start(sh, 1, a) < Start(sh, 1, u) && Start(sh, 1, u) + Total(sh, 1, u) < Place(sh, 1, i, cur[i]))
         <==> Inside(sh, u, a, k) || (Start(sh, 1, t) < Start(sh, 1, u) && Start(sh, 1, u) + Total(sh, 1, u) < Place(sh, 1, i, cur[i]))
    {
      SplitOne(sh, u, a, k, Place(sh, 1, i, cur[i]));
    }
  }

  lemma SplitOne(sh: Shape, u: Id, a: Id, k: nat, place: int)
    requires WellFormed(sh) && u in sh.path && a in sh.path && k < |sh.path[a]| && sh.path[a][k].Nested?
    requires var t := sh.path[a][k].target; t in sh.path && Start(sh, 1, t) <= place <= Start(sh, 1, t) + Total(sh, 1, t)
    ensures var t := sh.path[a][k].target;
      (Start(sh, 1, a) < Start(sh, 1, u) && Start(sh, 1, u) + Total(sh, 1, u) < place)
      <==> Inside(sh, u, a, k) || (Start(sh, 1, t) < Start(sh, 1, u) && Start(sh, 1, u) + Total(sh, 1, u) < place)
  {
    hide WellFormed, Before, Weight, Start, Total;
    EntrySpan(sh, a, k);
    var t := sh.path[a][k].target;
    PlaceAfterStart(sh, a, k);
    if Start(sh, 1, a) < Start(sh, 1, u) && Start(sh, 1, u) + Total(sh, 1, u) < place {
      assert Inside(sh, u, a, k + 1);
      InsideSnoc(sh, u, a, k);
    }
  }

  // The current question lies within each interview on the way to it.
  lemma {:induction false} PlacesDown(sh: Shape, cur: Cursors, a: Id, i: Id)
    requires WellFormed(sh) && Pointed(sh, cur, i) && a in sh.path && Chain(sh, cur, a) && Bottom(sh, cur, a) == i
    ensures Start(sh, 1, a) <= Place(sh, 1, i, cur[i]) <= Start(sh, 1, a) + Total(sh, 1, a)
    ensures Start(sh, 0, a) <= Place(sh, 0, i, cur[i])
    decreases sh.height - sh.depth[a]
  {
    hide WellFormed, Before, Weight, Start, Total, Chain, Bottom, Place;
    DepthBound(sh, a);
    if a == i {
      PlaceWithin(sh, 1, i, cur[i]);
      PlaceWithin(sh, 0, i, cur[i]);
    } else {
      BottomStep(sh, cur, a);
      var t := sh.path[a][cur[a]].target;
      EntrySpan(sh, a, cur[a]);
      PlacesDown(sh, cur, t, i);
      PlaceAfterStart(sh, a, cur[a]);
      PlaceWithin(sh, 0, a, cur[a]);
    }
  }

  lemma {:induction false} ShowsDown(sh: Shape, cur: Cursors, a: Id, i: Id, addFinal: bool)
    requires WellFormed(sh) && Pointed(sh, cur, i) && a in sh.path && Chain(sh, cur, a) && Bottom(sh, cur, a) == i
    requires addFinal || a != sh.root
    ensures ShowsIff(sh, cur, a, i, Listed(sh, cur, a, 0, false, addFinal))
    decreases sh.height - sh.depth[a]
  {
    hide WellFormed, Before, Weight, Start, Total, Body, EndOf, Listed, Bottom, Chain, AtEnd, Span, ShowsIff, BeforeAtEnd, AllAtEnd;
    DepthBound(sh, a);
    if a == i {
      ShowsHere(sh, cur, i, addFinal);
    } else {
      BeforeSplits(sh, cur, a, i);
      var t := sh.path[a][cur[a]].target;
      EntrySpan(sh, a, cur[a]);
      ShowsDown(sh, cur, t, i, false);
      ShowsBelow(sh, cur, a, i, addFinal);
    }
  }

  lemma ShowsBelow(sh: Shape, cur: Cursors, a: Id, i: Id, addFinal: bool)
    requires WellFormed(sh) && Pointed(sh, cur, i) && a in sh.path && Chain(sh, cur, a) && Bottom(sh, cur, a) == i && a != i
    requires 0 <= cur[a] < |sh.path[a]| && sh.path[a][cur[a]].Nested?
    requires var t := sh.path[a][cur[a]].target;
      && t in sh.path && t != sh.root && Bottom(sh, cur, t) == i
      && ShowsIff(sh, cur, t, i, Listed(sh, cur, t, 0, false, false))
      && (BeforeAtEnd(sh, cur, a, i) <==> AllAtEnd(sh, cur, a, cur[a]) && BeforeAtEnd(sh, cur, t, i))
    ensures ShowsIff(sh, cur, a, i, Listed(sh, cur, a, 0, false, addFinal))
  {
    hide WellFormed, Before, Weight, Start, Total, Body, EndOf, Listed, Bottom, Chain, AtEnd, Span, BeforeAtEnd, AllAtEnd, ListedTo;
    var k, t, q := cur[a], sh.path[a][cur[a]].target, sh.path[i][cur[i]];
    ListedIsSpan(sh, cur, a, k, addFinal);
    NotFinalBefore(sh, a, k);
    NestedListed(sh, cur, a, k, false, addFinal);
    PastCursor(sh, cur, a, addFinal);
    SpanIff(sh, cur, a, k);
    EntrySpan(sh, a, k);
    NotFinalBelow(sh, cur, t, i);
    var span, inner := Span(sh, cur, a, k), Listed(sh, cur, t, 0, false, false);
    assert Listed(sh, cur, a, 0, false, addFinal) == span + inner by {
      assert inner + [] == inner;
    }
    if |span + inner| == Place(sh, 0, i, cur[i]) - Start(sh, 0, a) + 1 {
      ListedToBelow(sh, a, k, Place(sh, 0, i, cur[i]) - Start(sh, 0, t), q, span, inner);
    }
  }

  lemma NotFinalBelow(sh: Shape, cur: Cursors, t: Id, i: Id)
    requires WellFormed(sh) && Pointed(sh, cur, i) && t in sh.path && t != sh.root && Bottom(sh, cur, t) == i
    ensures !sh.path[i][cur[i]].Final?
  {
    if i == sh.root {
      BelowRoot(sh, cur, t);
    }
  }

  lemma ListedToBelow(sh: Shape, a: Id, k: nat, n: int, q: Question, body: seq<Question>, listed: seq<Question>)
    requires WellFormed(sh) && a in sh.path && k < |sh.path[a]| && sh.path[a][k].Nested? && !q.Final?
    requires var t := sh.path[a][k].target; t in sh.path && ListedTo(sh, t, n, q, listed)
    requires body == Body(sh, a, k)
    ensures ListedTo(sh, a, |body| + n, q, body + listed)
  {
    hide WellFormed, Before, Weight, Start, Total, EndOf, Body;
    var t := sh.path[a][k].target;
    BodyNested(sh, a, k);
    BodyPrefix(sh, a, k + 1, |sh.path[a]|);
    var inner, all := Body(sh, t, |sh.path[t]|), Body(sh, a, |sh.path[a]|);
    assert all[..|body| + n] == body + inner[..n];
    assert body + (inner[..n] + [q]) == (body + inner[..n]) + [q];
    assert q.Plain? ==> all[|body| + n] == (body + inner)[|body| + n] == inner[n];
  }

  lemma BodyNested(sh: Shape, a: Id, k: nat)
    requires WellFormed(sh) && a in sh.path && k < |sh.path[a]| && sh.path[a][k].Nested?
    ensures var t := sh.path[a][k].target; t in sh.path && Body(sh, a, k + 1) == Body(sh, a, k) + Body(sh, t, |sh.path[t]|)
  {
    assert NestedAt(sh, a, k, sh.path[a][k].target);
  }

  // The current question stands at its place in the path.  What is listed up
  // to it is the path up to there exactly when every interview wholly before it
  // has its cursor at its last question or after it; otherwise it is shorter.
  lemma ListedToCurrentIff(sh: Shape, cur: Cursors, i: Id)
    requires WellFormed(sh) && Pointed(sh, cur, i)
    ensures Bottom(sh, cur, sh.root) == i
    ensures var p, path := Place(sh, 0, i, cur[i]), Path(sh, cur);
      && p < |path| && path[p] == sh.path[i][cur[i]]
      && |PathToCurrent(sh, cur)| <= p + 1
      && (PathToCurrent(sh, cur) == path[..p + 1] <==>
            forall u :: u in sh.path && Start(sh, 1, u) + Total(sh, 1, u) < Place(sh, 1, i, cur[i]) ==> AtEnd(sh, cur, u))
  {
    hide WellFormed, Body, EndOf, Listed, Before, Weight, PathLength, AtEnd, Bottom;
    RootOnPath(sh);
    RootStart(sh);
    PathIs(sh, cur);
    ChainReaches(sh, cur, i);
    BottomOf(sh, cur, i);
    ShowsDown(sh, cur, sh.root, i, true);
    PlacedInPath(sh, cur, i);
    RootNotBefore(sh, cur, i);
  }

  // ---- when listing throws -------------------------------------------

  // Listing up to the current question comes to interview u.
  ghost predicate Met(sh: Shape, cur: Cursors, u: Id)
    requires WellFormed(sh) && HasCursors(sh, cur) && u in sh.path
    decreases sh.depth[u]
  {
    u == sh.root || (Index(sh, u) <= cur[sh.caller[u]] && Met(sh, cur, sh.caller[u]))
  }

  // The cursor is past the end of the path, and no FinalQuestion of a nested
  // interview stops the listing there.
  predicate Overrun(sh: Shape, cur: Cursors, u: Id)
    requires HasCursors(sh, cur) && u in sh.path
  {
    cur[u] >= |sh.path[u]| && (u == sh.root || sh.path[u] == [] || !sh.path[u][|sh.path[u]| - 1].Final?)
  }

  ghost predicate Fails(sh: Shape, cur: Cursors, u: Id)
    requires WellFormed(sh) && HasCursors(sh, cur) && u in sh.path
  {
    Met(sh, cur, u) && Overrun(sh, cur, u)
  }

  lemma {:induction false} ThrowsAt(sh: Shape, cur: Cursors, i: Id, k: nat) returns (u: Id)
    requires WellFormed(sh) && HasCursors(sh, cur) && i in sh.path && k <= |sh.path[i]|
    requires Met(sh, cur, i) && Throws(sh, cur, i, k, i == sh.root)
    requires i == sh.root || k == 0 || !sh.path[i][k - 1].Final?
    ensures u in sh.path && Fails(sh, cur, u)
    decreases sh.height - sh.depth[i], |sh.path[i]| - k
  {
    hide WellFormed;
    DepthBound(sh, i);
    if k == |sh.path[i]| {
      u := i;
    } else if sh.path[i][k].Nested? {
      NestedListed(sh, cur, i, k, true, true);
      WithinEntry(sh, i, k);
      var t := sh.path[i][k].target;
      if Throws(sh, cur, t, 0, false) {
        u := ThrowsAt(sh, cur, t, 0);
      } else {
        u := ThrowsAt(sh, cur, i, k + 1);
      }
    } else {
      u := ThrowsAt(sh, cur, i, k + 1);
    }
  }

  // Listing that throws from an entry on throws from the earlier ones on.
  lemma {:induction false} ThrowsEarlier(sh: Shape, cur: Cursors, i: Id, j: nat, k: nat, addFinal: bool)
    requires WellFormed(sh) && HasCursors(sh, cur) && i in sh.path && j <= k <= |sh.path[i]| && Throws(sh, cur, i, k, addFinal)
    requires addFinal || k == 0 || !sh.path[i][k - 1].Final?
    ensures Throws(sh, cur, i, j, addFinal)
    decreases k - j
  {
    if j < k {
      assert j < k - 1 ==> !sh.path[i][j].Final?;
      ThrowsEarlier(sh, cur, i, j + 1, k, addFinal);
    }
  }

  lemma {:induction false} ThrowsAbove(sh: Shape, cur: Cursors, u: Id)
    requires WellFormed(sh) && HasCursors(sh, cur) && u in sh.path && Met(sh, cur, u) && Throws(sh, cur, u, 0, u == sh.root)
    ensures sh.root in sh.path && Throws(sh, cur, sh.root, 0, true)
    decreases sh.depth[u]
  {
    if u != sh.root {
      var c, k := sh.caller[u], Index(sh, u);
      assert NestedAt(sh, c, k, u) && CalledBy(sh, u, c);
      assert Throws(sh, cur, c, k, c == sh.root);
      assert k > 0 ==> !sh.path[c][k - 1].Final?;
      ThrowsEarlier(sh, cur, c, 0, k, c == sh.root);
      ThrowsAbove(sh, cur, c);
    }
  }

  // For any cursors, getPathToCurrent throws exactly where it comes to an
  // interview whose cursor is past its end.
  lemma ThrowsIff(sh: Shape, cur: Cursors)
    requires WellFormed(sh) && HasCursors(sh, cur) && sh.root in sh.path
    ensures ToCurrent(sh, cur).None? <==> exists u :: u in sh.path && Fails(sh, cur, u)
  {
    hide WellFormed;
    if ToCurrent(sh, cur).None? {
      var u := ThrowsAt(sh, cur, sh.root, 0);
    }
    if u :| u in sh.path && Fails(sh, cur, u) {
      ThrowsEarlier(sh, cur, u, 0, |sh.path[u]|, u == sh.root);
      ThrowsAbove(sh, cur, u);
    }
  }

  // What listing comes to is on the way to the current question or wholly
  // before it.
  lemma {:induction false} MetBefore(sh: Shape, cur: Cursors, i: Id, u: Id)
    requires WellFormed(sh) && Pointed(sh, cur, i) && u in sh.path && Met(sh, cur, u)
    ensures OnWay(sh, u, i) || Start(sh, 1, u) + Total(sh, 1, u) < Place(sh, 1, i, cur[i])
    decreases sh.depth[u]
  {
    if u == sh.root {
      RootOnWay(sh, i);
    } else {
      var c, k := sh.caller[u], Index(sh, u);
      assert NestedAt(sh, c, k, u) && CalledBy(sh, u, c);
      MetBefore(sh, cur, i, c);
      hide WellFormed, Before, Weight, Start, Total, Met, Place;
      WithinEntry(sh, c, k);
      if OnWay(sh, c, i) {
        WayPoints(sh, cur, c, i, Place(sh, 1, i, cur[i]));
        PlaceMono(sh, c, cur[c], k);
        PlaceMono(sh, c, k, cur[c]);
      }
    }
  }

  lemma {:induction false} RootOnWay(sh: Shape, i: Id)
    requires WellFormed(sh) && i in sh.path
    ensures OnWay(sh, sh.root, i)
    decreases sh.depth[i]
  {
    if i != sh.root {
      assert CalledBy(sh, i, sh.caller[i]) by { var k := Index(sh, i); }
      RootOnWay(sh, sh.caller[i]);
    }
  }

  // On the way to i the cursors point the way, at entries that start no later
  // than the one at the cursor of i.
  lemma {:induction false} WayPoints(sh: Shape, cur: Cursors, x: Id, i: Id, place: nat)
    requires WellFormed(sh) && HasCursors(sh, cur) && i in sh.path && Chain(sh, cur, i) && 0 <= cur[i] < |sh.path[i]|
    requires x in sh.path && OnWay(sh, x, i) && Place(sh, 1, i, cur[i]) <= place
    ensures 0 <= cur[x] < |sh.path[x]| && Place(sh, 1, x, cur[x]) <= place
    ensures x != i ==> sh.path[x][cur[x]].Nested? && sh.path[x][cur[x]].target in sh.path && OnWay(sh, sh.path[x][cur[x]].target, i)
    decreases sh.depth[i]
  {
    hide Before, Weight, Start, Total;
    if x != i {
      var c, k := sh.caller[i], Index(sh, i);
      assert NestedAt(sh, c, k, i) && CalledBy(sh, i, c);
      WalkedTo(sh, cur, i);
      StartsAfter(sh, i);
      assert Start(sh, 1, i) <= Place(sh, 1, i, cur[i]);
      WayPoints(sh, cur, x, c, place);
      assert OnWay(sh, i, i);
    }
  }

  // Interview u ends before the current question.
  ghost predicate Earlier(sh: Shape, cur: Cursors, i: Id, u: Id)
    requires WellFormed(sh) && Pointed(sh, cur, i)
  {
    u in sh.path && Start(sh, 1, u) + Total(sh, 1, u) < Place(sh, 1, i, cur[i])
  }

  lemma FailsEarlier(sh: Shape, cur: Cursors, i: Id, u: Id)
    requires WellFormed(sh) && Pointed(sh, cur, i) && u in sh.path && Fails(sh, cur, u)
    ensures Earlier(sh, cur, i, u)
  {
    hide WellFormed, Before, Weight, Start, Total, Met, Place, Chain, OnWay;
    MetBefore(sh, cur, i, u);
    if OnWay(sh, u, i) {
      WayPoints(sh, cur, u, i, Place(sh, 1, i, cur[i]));
    }
  }

  // The current question stands at its place in the path.  getPathToCurrent
  // throws exactly where it comes to an earlier interview whose cursor is past
  // its end, and gives the path up to the current question exactly when it
  // comes to none and every earlier interview has its cursor at its last
  // question or after it; it never gives more.
  lemma PathToCurrentIff(sh: Shape, cur: Cursors, i: Id)
    requires WellFormed(sh) && Pointed(sh, cur, i)
    ensures sh.root in sh.path && Bottom(sh, cur, sh.root) == i
    ensures var p, path, r := Place(sh, 0, i, cur[i]), Path(sh, cur), ToCurrent(sh, cur);
      && p < |path| && path[p] == sh.path[i][cur[i]]
      && (r.None? <==> exists u :: Earlier(sh, cur, i, u) && Fails(sh, cur, u))
      && (r.Some? ==> |r.value| <= p + 1)
      && (r == Some(path[..p + 1]) <==> forall u :: Earlier(sh, cur, i, u) ==> AtEnd(sh, cur, u) && !Fails(sh, cur, u))
  {
    hide WellFormed, Path, PathToCurrent, Start, Total, Place, AtEnd, Fails, Throws, Bottom, Chain, ToCurrent;
    RootOnPath(sh);
    ListedToCurrentIff(sh, cur, i);
    ThrowsIff(sh, cur);
    if u :| u in sh.path && Fails(sh, cur, u) {
      FailsEarlier(sh, cur, i, u);
    }
    ToCurrentIs(sh, cur);
  }

  lemma ToCurrentIs(sh: Shape, cur: Cursors)
    requires WellFormed(sh) && HasCursors(sh, cur) && sh.root in sh.path
    ensures ToCurrent(sh, cur).Some? ==> ToCurrent(sh, cur) == Some(PathToCurrent(sh, cur))
  {
    hide WellFormed, PathToCurrent, Throws;
  }

  lemma BottomOf(sh: Shape, cur: Cursors, i: Id)
    requires WellFormed(sh) && Pointed(sh, cur, i)
    ensures Bottom(sh, cur, i) == i && Chain(sh, cur, sh.root)
  {
  }

  // Every other interview starts after the root, and the root does not end
  // before a question.
  lemma RootNotBefore(sh: Shape, cur: Cursors, i: Id)
    requires WellFormed(sh) && Pointed(sh, cur, i)
    ensures Start(sh, 1, sh.root) == 0 && forall u :: u in sh.path && u != sh.root ==> Start(sh, 1, u) > 0
    ensures Start(sh, 1, sh.root) + Total(sh, 1, sh.root) >= Place(sh, 1, i, cur[i])
  {
    PlaceWithin(sh, 1, i, cur[i]);
    forall u | u in sh.path && u != sh.root ensures Start(sh, 1, u) > 0 {
      NestedWeight(sh, 1, u);
    }
  }

  // With all cursors off the way at the end, the path shows where it is.
  lemma PlacedInPath(sh: Shape, cur: Cursors, i: Id)
    requires WellFormed(sh) && Pointed(sh, cur, i)
    ensures var p, path := Place(sh, 0, i, cur[i]), Path(sh, cur); p < |path| && path[p] == sh.path[i][cur[i]]
  {
    hide WellFormed, Body, EndOf, Listed, Before, Weight, PathLength, Start, Total;
    var cur' := Straightened(sh, cur, i);
    StraightIsLocated(sh, cur, i);
    LocatedIsBottom(sh, cur', i);
    CurrentOnPath(sh, cur');
    PathIs(sh, cur);
    PathIs(sh, cur');
  }

  // The cursors as they are on the way to i, and at the end elsewhere
  ghost function Straightened(sh: Shape, cur: Cursors, i: Id): Cursors
    requires WellFormed(sh) && HasCursors(sh, cur) && i in sh.path
  {
    map x | x in sh.path :: if OnWay(sh, x, i) then cur[x] else |sh.path[x]| - 1
  }

  ghost predicate OnWay(sh: Shape, x: Id, i: Id)
    requires WellFormed(sh) && i in sh.path
    decreases sh.depth[i]
  {
    x == i || (i != sh.root && var k := Index(sh, i); OnWay(sh, x, sh.caller[i]))
  }

  lemma {:induction false} ChainSame(sh: Shape, cur: Cursors, cur': Cursors, i: Id)
    requires WellFormed(sh) && HasCursors(sh, cur) && HasCursors(sh, cur') && i in sh.path && Chain(sh, cur, i)
    requires forall x :: x in sh.path && OnWay(sh, x, i) && x != i ==> cur'[x] == cur[x]
    ensures Chain(sh, cur', i)
    decreases sh.depth[i]
  {
    if i != sh.root {
      var c, k := sh.caller[i], Index(sh, i);
      assert OnWay(sh, c, c) && OnWay(sh, c, i) && CalledBy(sh, i, c);
      forall x | x in sh.path && OnWay(sh, x, c) && x != c ensures cur'[x] == cur[x] {
        assert OnWay(sh, x, i);
        NotAboveSelf(sh, x, i);
      }
      ChainSame(sh, cur, cur', c);
    }
  }

  lemma {:induction false} WayDepth(sh: Shape, x: Id, i: Id)
    requires WellFormed(sh) && x in sh.path && i in sh.path && OnWay(sh, x, i)
    ensures x in sh.depth && i in sh.depth && (x == i || sh.depth[x] < sh.depth[i])
    ensures Start(sh, 1, i) + Total(sh, 1, i) <= Start(sh, 1, x) + Total(sh, 1, x)
    decreases sh.depth[i]
  {
    if x != i {
      var c, k := sh.caller[i], Index(sh, i);
      assert CalledBy(sh, i, c);
      NestedWeight(sh, 1, i);
      WayDepth(sh, x, c);
    }
  }

  lemma NotAboveSelf(sh: Shape, x: Id, i: Id)
    requires WellFormed(sh) && x in sh.path && i in sh.path && i != sh.root && sh.caller[i] in sh.path && OnWay(sh, x, sh.caller[i])
    ensures x != i
  {
    WayDepth(sh, x, sh.caller[i]);
    var k := Index(sh, i);
  }

  lemma StraightIsLocated(sh: Shape, cur: Cursors, i: Id)
    requires WellFormed(sh) && Pointed(sh, cur, i)
    ensures Located(sh, Straightened(sh, cur, i), i) && Straightened(sh, cur, i)[i] == cur[i]
  {
    hide WellFormed, Before, Weight, Start, Total, Place;
    var cur' := Straightened(sh, cur, i);
    assert OnWay(sh, i, i);
    ChainSame(sh, cur, cur', i);
    PlaceWithin(sh, 1, i, cur[i]);
    forall t | t in sh.path && Start(sh, 1, t) + Total(sh, 1, t) < Place(sh, 1, i, cur[i]) ensures cur'[t] == |sh.path[t]| - 1 {
      if OnWay(sh, t, i) {
        WayDepth(sh, t, i);
      }
    }
  }

  // ---- where setCurrentQuestion0 leaves the cursors ------------------

  // The cursors from i down point to q in interview h, and the others are as
  // they were.
  ghost predicate Landed(sh: Shape, cur: Cursors, after: Cursors, i: Id, h: Id, q: Question)
    requires WellFormed(sh) && HasCursors(sh, cur) && HasCursors(sh, after) && i in sh.path
  {
    && h in sh.path && OnWay(sh, i, h)
    && 0 <= after[h] < |sh.path[h]| && sh.path[h][after[h]] == q
    && ChainFrom(sh, after, i, h)
    && forall x :: x in sh.path && !(OnWay(sh, i, x) && OnWay(sh, x, h)) ==> after[x] == cur[x]
  }

  // Each cursor from i down points at the next interview, down to h.
  ghost predicate ChainFrom(sh: Shape, cur: Cursors, i: Id, h: Id)
    requires WellFormed(sh) && HasCursors(sh, cur) && h in sh.path
    decreases sh.depth[h]
  {
    h == i || (h != sh.root && cur[sh.caller[h]] == Index(sh, h) && ChainFrom(sh, cur, i, sh.caller[h]))
  }

  lemma {:induction false} JumpLands(sh: Shape, cur: Cursors, i: Id, k: nat, q: Question) returns (h: Id)
    requires WellFormed(sh) && HasCursors(sh, cur) && i in sh.path && k <= |sh.path[i]| && Jump(sh, cur, i, k, q).Some?
    ensures Landed(sh, cur, Jump(sh, cur, i, k, q).value, i, h, q)
    decreases sh.height - sh.depth[i], |sh.path[i]| - k
  {
    hide WellFormed;
    DepthBound(sh, i);
    var qq := sh.path[i][k];
    if qq == q {
      h := i;
      assert OnWay(sh, i, i);
    } else {
      if qq.Nested? {
        EntrySpan(sh, i, k);
        var t := qq.target;
        if Jump(sh, cur, t, 0, q).Some? {
          h := JumpLands(sh, cur, t, 0, q);
          LandsAbove(sh, cur, Jump(sh, cur, t, 0, q).value, i, k, h, q);
          return;
        }
      }
      h := JumpLands(sh, cur, i, k + 1, q);
    }
  }

  lemma LandsAbove(sh: Shape, cur: Cursors, below: Cursors, i: Id, k: nat, h: Id, q: Question)
    requires WellFormed(sh) && HasCursors(sh, cur) && HasCursors(sh, below) && i in sh.path && k < |sh.path[i]| && sh.path[i][k].Nested?
    requires sh.path[i][k].target in sh.path && Landed(sh, cur, below, sh.path[i][k].target, h, q)
    ensures Landed(sh, cur, below[i := k], i, h, q)
  {
    hide Start, Total, Before;
    var t := sh.path[i][k].target;
    assert NestedAt(sh, i, k, t) && CalledBy(sh, t, i) && Index(sh, t) == k && t != sh.root;
    assert OnWay(sh, i, i) && OnWay(sh, i, t);
    WayTrans(sh, i, t, h);
    WayDepth(sh, t, h);
    ChainFromAbove(sh, below, i, k, t, h);
    forall x | x in sh.path && !(OnWay(sh, i, x) && OnWay(sh, x, h)) ensures below[i := k][x] == cur[x] {
      if OnWay(sh, t, x) {
        WayTrans(sh, i, t, x);
      }
    }
  }

  lemma {:induction false} WayTrans(sh: Shape, x: Id, y: Id, z: Id)
    requires WellFormed(sh) && x in sh.path && y in sh.path && z in sh.path && OnWay(sh, x, y) && OnWay(sh, y, z)
    ensures OnWay(sh, x, z)
    decreases sh.depth[z]
  {
    if y != z {
      var c, k := sh.caller[z], Index(sh, z);
      assert CalledBy(sh, z, c);
      WayTrans(sh, x, y, c);
    }
  }

  lemma {:induction false} ChainFromAbove(sh: Shape, below: Cursors, i: Id, k: nat, t: Id, h: Id)
    requires WellFormed(sh) && HasCursors(sh, below) && i in sh.path && t in sh.path && h in sh.path && t != sh.root
    requires CalledBy(sh, t, i) && Index(sh, t) == k && OnWay(sh, t, h) && ChainFrom(sh, below, t, h)
    ensures ChainFrom(sh, below[i := k], i, h)
    decreases sh.depth[h]
  {
    if h == t {
      assert ChainFrom(sh, below[i := k], i, i);
    } else {
      var c, m := sh.caller[h], Index(sh, h);
      assert CalledBy(sh, h, c);
      WayDepth(sh, t, c);
      ChainFromAbove(sh, below, i, k, t, c);
    }
  }

  lemma {:induction false} ChainFromRoot(sh: Shape, cur: Cursors, h: Id)
    requires WellFormed(sh) && HasCursors(sh, cur) && h in sh.path && ChainFrom(sh, cur, sh.root, h)
    ensures Chain(sh, cur, h)
    decreases sh.depth[h]
  {
    if h != sh.root {
      var k := Index(sh, h);
      assert CalledBy(sh, h, sh.caller[h]);
      ChainFromRoot(sh, cur, sh.caller[h]);
    }
  }

  // It fails exactly where the question is not on the path of any interview.
  lemma JumpFailsIff(sh: Shape, cur: Cursors, q: Question)
    requires WellFormed(sh) && HasCursors(sh, cur)
    ensures sh.root in sh.path
    ensures Jump(sh, cur, sh.root, 0, q).None? <==> forall h, k :: h in sh.path && 0 <= k < |sh.path[h]| ==> sh.path[h][k] != q
  {
    RootOnPath(sh);
    if Jump(sh, cur, sh.root, 0, q).None? {
      forall h, k | h in sh.path && 0 <= k < |sh.path[h]| ensures sh.path[h][k] != q {
        NotFoundBelow(sh, cur, h, q);
        NotFoundAt(sh, cur, h, 0, k, q);
      }
    } else {
      var h := JumpLands(sh, cur, sh.root, 0, q);
    }
  }

  lemma {:induction false} NotFoundBelow(sh: Shape, cur: Cursors, h: Id, q: Question)
    requires WellFormed(sh) && HasCursors(sh, cur) && h in sh.path && Jump(sh, cur, sh.root, 0, q).None?
    ensures Jump(sh, cur, h, 0, q).None?
    decreases sh.depth[h]
  {
    if h != sh.root {
      var c, k := sh.caller[h], Index(sh, h);
      assert CalledBy(sh, h, c) && NestedAt(sh, c, k, h);
      NotFoundBelow(sh, cur, c, q);
      NotFoundAt(sh, cur, c, 0, k, q);
    }
  }

  lemma {:induction false} NotFoundAt(sh: Shape, cur: Cursors, i: Id, j: nat, k: nat, q: Question)
    requires WellFormed(sh) && HasCursors(sh, cur) && i in sh.path && j <= k < |sh.path[i]| && Jump(sh, cur, i, j, q).None?
    ensures sh.path[i][k] != q
    ensures sh.path[i][k].Nested? ==> sh.path[i][k].target in sh.path && Jump(sh, cur, sh.path[i][k].target, 0, q).None?
    decreases k - j
  {
    if j < k {
      NotFoundAt(sh, cur, i, j + 1, k, q);
    } else if sh.path[i][k].Nested? {
      assert NestedAt(sh, i, k, sh.path[i][k].target);
    }
  }

  // A jump to a question of the path makes it the current one.  getPathToCurrent
  // then gives the path up to it exactly when every earlier interview had its
  // cursor, which the jump does not move, at its last question or after it, and
  // none that listing comes to had it past its end.
  lemma JumpShowsIff(sh: Shape, cur: Cursors, q: Question) returns (h: Id)
    requires WellFormed(sh) && HasCursors(sh, cur) && sh.root in sh.path && Jump(sh, cur, sh.root, 0, q).Some?
    requires q.Plain? || (q.Final? && forall i, k :: i in sh.path && 0 <= k < |sh.path[i]| && sh.path[i][k] == q ==> i == sh.root)
    ensures var after := Jump(sh, cur, sh.root, 0, q).value;
      && Pointed(sh, after, h) && Bottom(sh, after, sh.root) == h && sh.path[h][after[h]] == q
      && (forall u :: Earlier(sh, after, h, u) ==> after[u] == cur[u])
      && var p, path := Place(sh, 0, h, after[h]), Path(sh, after);
         && p < |path| && path[p] == q
         && (ToCurrent(sh, after) == Some(path[..p + 1]) <==>
               forall u :: Earlier(sh, after, h, u) ==> AtEnd(sh, cur, u) && !(Met(sh, after, u) && Overrun(sh, cur, u)))
  {
    hide WellFormed, Before, Weight, Start, Total, Listed, Body, ToCurrent, Path, Jump, Bottom, ChainFrom, Met;
    h := JumpLands(sh, cur, sh.root, 0, q);
    var after := Jump(sh, cur, sh.root, 0, q).value;
    ChainFromRoot(sh, after, h);
    PathToCurrentIff(sh, after, h);
    PlaceWithin(sh, 1, h, after[h]);
    forall u | Earlier(sh, after, h, u)
      ensures after[u] == cur[u] && (AtEnd(sh, after, u) <==> AtEnd(sh, cur, u)) && (Overrun(sh, after, u) <==> Overrun(sh, cur, u))
    {
      if OnWay(sh, u, h) {
        WayDepth(sh, u, h);
      }
    }
  }

  // From the beginning, a jump past a nested interview that has not been gone
  // through leaves its questions out.
  lemma JumpLosesPath()
    ensures var sh, cur, after := TwoInterviews(), map[0 := 0, 1 := 0], map[0 := 2, 1 := 0];
      && WellFormed(sh) && HasCursors(sh, cur) && HasCursors(sh, after) && Positioned(sh, cur)
      && Jump(sh, cur, 0, 0, Plain(3)) == Some(after)
      && Path(sh, after) == [Plain(1), Plain(4), Plain(5), Plain(3)] && ToCurrent(sh, after) == Some([Plain(1), Plain(4), Plain(3)])
  {
    hide *;
    TwoAreWellFormed();
    ResetPositions(TwoInterviews(), map[0 := 0, 1 := 0]);
    TwoJump();
    TwoPaths();
  }

  function TwoInterviews(): Shape {
    Shape(0, map[0 := [Plain(1), Nested(2, 1), Plain(3)], 1 := [Plain(4), Plain(5), Final(6)]], map[1 := 0], map[0 := 0, 1 := 1], 1)
  }

  lemma TwoAreWellFormed()
    ensures var sh := TwoInterviews();
      && WellFormed(sh) && sh.root == 0 && sh.path.Keys == {0, 1} && sh.path[0] == [Plain(1), Nested(2, 1), Plain(3)]
      && sh.path[1] == [Plain(4), Plain(5), Final(6)]
    ensures forall m: Cursors :: HasCursors(TwoInterviews(), m) <==> 0 in m && 1 in m
  {
    var sh := TwoInterviews();
    assert NestedAt(sh, 0, 1, 1);
    assert forall i, k, t :: NestedAt(sh, i, k, t) ==> i == 0 && k == 1 && t == 1;
  }

  lemma TwoJump()
    ensures WellFormed(TwoInterviews()) && HasCursors(TwoInterviews(), map[0 := 0, 1 := 0])
    ensures Jump(TwoInterviews(), map[0 := 0, 1 := 0], 0, 0, Plain(3)) == Some(map[0 := 2, 1 := 0])
  {
    TwoAreWellFormed();
    hide WellFormed, TwoInterviews, HasCursors;
    var sh, cur: Cursors := TwoInterviews(), map[0 := 0, 1 := 0];
    assert cur[0 := 2] == map[0 := 2, 1 := 0];
    assert Jump(sh, cur, 1, 2, Plain(3)) == None;
    assert Jump(sh, cur, 1, 0, Plain(3)) == None;
    assert Jump(sh, cur, 0, 2, Plain(3)) == Some(cur[0 := 2]);
    assert Jump(sh, cur, 0, 1, Plain(3)) == Some(cur[0 := 2]);
  }

  lemma TwoPaths()
    ensures WellFormed(TwoInterviews()) && HasCursors(TwoInterviews(), map[0 := 2, 1 := 0])
    ensures Path(TwoInterviews(), map[0 := 2, 1 := 0]) == [Plain(1), Plain(4), Plain(5), Plain(3)]
    ensures 0 in TwoInterviews().path && TwoInterviews().root == 0
    ensures ToCurrent(TwoInterviews(), map[0 := 2, 1 := 0]) == Some([Plain(1), Plain(4), Plain(3)])
  {
    TwoAreWellFormed();
    hide WellFormed, TwoInterviews, HasCursors;
    var sh, cur: Cursors := TwoInterviews(), map[0 := 2, 1 := 0];
    assert Listed(sh, cur, 1, 0, false, false) == [Plain(4)];
    assert Listed(sh, cur, 1, 2, true, false) == [];
    assert Listed(sh, cur, 1, 0, true, false) == [Plain(4), Plain(5)];
    assert Listed(sh, cur, 0, 2, true, true) == [Plain(3)] == Listed(sh, cur, 0, 2, false, true);
    assert Listed(sh, cur, 0, 1, true, true) == [Plain(4), Plain(5), Plain(3)];
    assert Listed(sh, cur, 0, 1, false, true) == [Plain(4), Plain(3)];
    assert !Throws(sh, cur, 1, 0, false) && !Throws(sh, cur, 0, 2, true);
    assert !Throws(sh, cur, 0, 1, true);
    assert !Throws(sh, cur, 0, 0, true);
    assert [Plain(1)] + [Plain(4), Plain(3)] == [Plain(1), Plain(4), Plain(3)];
    assert PathToCurrent(sh, cur) == [Plain(1), Plain(4), Plain(3)];
  }
}
