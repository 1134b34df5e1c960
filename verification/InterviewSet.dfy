// InterviewSet: children that depend on each other, and the order in which
// they are called.
module InterviewSet {

  type Id = nat

  // The interviews each child depends on; the source keeps each set in the
  // order of the children.
  type Graph = map<Id, set<Id>>

  datatype Option<+T> = None | Some(value: T)

  function Deps(g: Graph, x: Id): set<Id> { if x in g then g[x] else {} }

  predicate Edge(g: Graph, x: Id, y: Id) { y in Deps(g, x) }

  // ---- reachability --------------------------------------------------

  predicate IsPath(g: Graph, p: seq<Id>) { forall k :: 0 <= k < |p| - 1 ==> Edge(g, p[k], p[k + 1]) }

  ghost predicate Joins(g: Graph, p: seq<Id>, x: Id, y: Id) {
    |p| >= 2 && p[0] == x && p[|p| - 1] == y && IsPath(g, p)
  }

  // y is a dependency of x, direct or not.
  ghost predicate Reaches(g: Graph, x: Id, y: Id) { exists p :: Joins(g, p, x, y) }

  ghost predicate Acyclic(g: Graph) { forall x :: !Reaches(g, x, x) }

  lemma EdgeReaches(g: Graph, x: Id, y: Id)
    requires Edge(g, x, y)
    ensures Reaches(g, x, y)
  {
    assert Joins(g, [x, y], x, y);
  }

  lemma ReachTrans(g: Graph, x: Id, y: Id, z: Id)
    requires Reaches(g, x, y) && Reaches(g, y, z)
    ensures Reaches(g, x, z)
  {
    var p :| Joins(g, p, x, y);
    var q :| Joins(g, q, y, z);
    assert Joins(g, p + q[1..], x, z);
  }

  lemma FirstStep(g: Graph, x: Id, y: Id) returns (z: Id)
    requires Reaches(g, x, y)
    ensures Edge(g, x, z) && (z == y || Reaches(g, z, y))
  {
    var p :| Joins(g, p, x, y);
    z := p[1];
    assert Edge(g, p[0], p[0 + 1]);
    if |p| > 2 {
      assert IsPath(g, p[1..]) by {
        forall k | 0 <= k < |p[1..]| - 1 ensures Edge(g, p[1..][k], p[1..][k + 1]) {
          assert Edge(g, p[k + 1], p[k + 1 + 1]);
        }
      }
      assert Joins(g, p[1..], z, y);
    }
  }

  lemma LastStep(g: Graph, x: Id, y: Id) returns (z: Id)
    requires Reaches(g, x, y)
    ensures Edge(g, z, y) && (z == x || Reaches(g, x, z))
  {
    var p :| Joins(g, p, x, y);
    var n := |p| - 2;
    z := p[n];
    assert Edge(g, p[n], p[n + 1]);
    if |p| > 2 {
      assert Joins(g, p[..n + 1], x, z);
    }
  }

  // ---- the children --------------------------------------------------

  function Nodes(children: seq<Id>): set<Id> { set x | x in children }

  ghost predicate Distinct(s: seq<Id>) { forall i, j :: 0 <= i < j < |s| ==> s[i] != s[j] }

  // Dependencies are children, as the comparator that orders them demands.
  ghost predicate Within(g: Graph, children: seq<Id>) {
    Distinct(children) && forall x :: x in g ==> g[x] <= Nodes(children)
  }

  ghost function ReachSet(g: Graph, children: seq<Id>, x: Id): set<Id> {
    set y | y in Nodes(children) && Reaches(g, x, y)
  }

  lemma ReachStays(g: Graph, children: seq<Id>, x: Id, y: Id)
    requires Within(g, children) && Reaches(g, x, y)
    ensures y in children
  {
    var u := LastStep(g, x, y);
  }

  // Along a dependency there is less left to reach.
  lemma ReachShrinks(g: Graph, children: seq<Id>, x: Id, y: Id)
    requires Within(g, children) && !Reaches(g, y, y) && Edge(g, x, y)
    ensures y in children && ReachSet(g, children, y) < ReachSet(g, children, x)
    ensures |ReachSet(g, children, y)| < |ReachSet(g, children, x)|
  {
    EdgeReaches(g, x, y);
    ReachStays(g, children, x, y);
    var a, b := ReachSet(g, children, y), ReachSet(g, children, x);
    forall z | z in a ensures z in b {
      ReachTrans(g, x, y, z);
    }
    assert y in b && y !in a;
    Smaller(a, b, y);
  }

  lemma Smaller(a: set<Id>, b: set<Id>, y: Id)
    requires a <= b && y in b && y !in a
    ensures |a| < |b|
  {
    Larger(a, b - {y});
  }

  lemma {:induction false} Larger(a: set<Id>, b: set<Id>)
    requires a <= b
    ensures |a| <= |b|
  {
    if a != {} {
      var x :| x in a;
      Larger(a - {x}, b - {x});
    }
  }

  // ---- adding and removing -------------------------------------------

  function Added(g: Graph, child: Id, dependency: Id): Graph { g[child := Deps(g, child) + {dependency}] }

  function Removed(g: Graph, child: Id, dependency: Id): Graph {
    if child !in g then g
    else if g[child] - {dependency} == {} then g - {child}
    else g[child := g[child] - {dependency}]
  }

  lemma HasDependency(g: Graph, child: Id)
    requires child in g ==> g[child] != {}
    ensures child in g <==> exists y :: Edge(g, child, y)
  {
    if child in g {
      var y :| y in g[child];
      assert Edge(g, child, y);
    }
  }

  lemma SubgraphReaches(g: Graph, h: Graph, x: Id, y: Id)
    requires (forall a, b :: Edge(g, a, b) ==> Edge(h, a, b)) && Reaches(g, x, y)
    ensures Reaches(h, x, y)
  {
    var p :| Joins(g, p, x, y);
    assert Joins(h, p, x, y);
  }

  // A path in the larger graph uses the new dependency, or does not.
  lemma {:induction false} AddedPath(g: Graph, c: Id, d: Id, p: seq<Id>, x: Id, y: Id)
    requires Joins(Added(g, c, d), p, x, y)
    ensures Reaches(g, x, y) || ((x == c || Reaches(g, x, c)) && (d == y || Reaches(g, d, y)))
    decreases |p|
  {
    var h := Added(g, c, d);
    assert Edge(h, p[0], p[0 + 1]);
    var z := p[1];
    if Edge(g, x, z) {
      EdgeReaches(g, x, z);
    }
    if |p| > 2 {
      forall k | 0 <= k < |p[1..]| - 1 ensures Edge(h, p[1..][k], p[1..][k + 1]) {
        assert Edge(h, p[k + 1], p[k + 1 + 1]);
      }
      AddedPath(g, c, d, p[1..], z, y);
      if Edge(g, x, z) {
        if Reaches(g, z, y) {
          ReachTrans(g, x, z, y);
        } else if z != c {
          ReachTrans(g, x, z, c);
        }
      }
    }
  }

  // A new dependency makes a cycle exactly when the dependency depends on the
  // child, or is the child.
  lemma AddedAcyclicIff(g: Graph, c: Id, d: Id)
    requires Acyclic(g)
    ensures Acyclic(Added(g, c, d)) <==> c != d && !Reaches(g, d, c)
  {
    var h := Added(g, c, d);
    assert Edge(h, c, d);
    EdgeReaches(h, c, d);
    if Reaches(g, d, c) {
      SubgraphReaches(g, h, d, c);
      ReachTrans(h, c, d, c);
    }
    if c != d && !Reaches(g, d, c) {
      forall x ensures !Reaches(h, x, x) {
        if Reaches(h, x, x) {
          var p :| Joins(h, p, x, x);
          AddedPath(g, c, d, p, x, x);
          if x != c && d != x {
            ReachTrans(g, d, x, c);
          }
        }
      }
    }
  }

  lemma RemovedAcyclic(g: Graph, c: Id, d: Id)
    requires Acyclic(g)
    ensures Acyclic(Removed(g, c, d))
    ensures forall a, b :: Edge(Removed(g, c, d), a, b) <==> Edge(g, a, b) && !(a == c && b == d)
  {
    forall x ensures !Reaches(Removed(g, c, d), x, x) {
      if Reaches(Removed(g, c, d), x, x) {
        SubgraphReaches(Removed(g, c, d), g, x, x);
      }
    }
  }

  // ---- the order of calls --------------------------------------------

  // A set of children, in their order
  function InOrder(children: seq<Id>, s: set<Id>): (r: seq<Id>)
    ensures forall x :: x in r <==> x in children && x in s
  {
    if children == [] then []
    else (if children[0] in s then [children[0]] else []) + InOrder(children[1..], s)
  }

  lemma {:induction false} InOrderDistinct(children: seq<Id>, s: set<Id>)
    requires Distinct(children)
    ensures Distinct(InOrder(children, s))
  {
    if children != [] {
      InOrderDistinct(children[1..], s);
      assert forall k :: 0 <= k < |children[1..]| ==> children[1..][k] == children[k + 1];
    }
  }

  lemma {:induction false} InOrderShorter(children: seq<Id>, s: set<Id>)
    ensures |InOrder(children, s)| <= |children|
  {
    if children != [] {
      InOrderShorter(children[1..], s);
    }
  }

  // It has them in the order of the children.
  lemma {:induction false} InOrderKeeps(children: seq<Id>, s: set<Id>, i: nat, j: nat) returns (a: nat, b: nat)
    requires i < j < |InOrder(children, s)|
    ensures a < b < |children| && children[a] == InOrder(children, s)[i] && children[b] == InOrder(children, s)[j]
  {
    var first := children[0] in s;
    if first && i == 0 {
      var x := InOrder(children, s)[j];
      assert InOrder(children[1..], s)[j - 1] == x && x in InOrder(children[1..], s);
      a := 0;
      b :| 0 <= b < |children[1..]| && children[1..][b] == x;
      b := b + 1;
    } else {
      var d := if first then 1 else 0;
      a, b := InOrderKeeps(children[1..], s, i - d, j - d);
      a, b := a + 1, b + 1;
    }
  }

  function DepsInOrder(g: Graph, children: seq<Id>, x: Id): seq<Id> { InOrder(children, Deps(g, x)) }

  lemma DepsListed(g: Graph, children: seq<Id>, x: Id)
    requires Within(g, children)
    ensures forall y :: y in DepsInOrder(g, children, x) <==> Edge(g, x, y)
    ensures Distinct(DepsInOrder(g, children, x))
  {
    InOrderDistinct(children, Deps(g, x));
  }

  lemma DepsAreChildren(g: Graph, children: seq<Id>, x: Id)
    ensures forall k :: 0 <= k < |DepsInOrder(g, children, x)| ==> DepsInOrder(g, children, x)[k] in children
  {
    assert forall k :: 0 <= k < |DepsInOrder(g, children, x)| ==> DepsInOrder(g, children, x)[k] in InOrder(children, Deps(g, x));
  }

  // addToList: None where it throws.  A child that is being added may not be
  // met again.
  function Listed(g: Graph, children: seq<Id>, list: seq<Id>, child: Id, cycleSet: set<Id>): Option<seq<Id>>
    requires child in children
    decreases |Nodes(children) - cycleSet|, 0
  {
    if child in cycleSet then None
    else
      Smaller(Nodes(children) - (cycleSet + {child}), Nodes(children) - cycleSet, child);
      match ListedDeps(g, children, list, child, cycleSet + {child}, |DepsInOrder(g, children, child)|)
      case None => None
      case Some(before) => Some(before + [child])
  }

  // its loop over the first n dependencies
  function ListedDeps(g: Graph, children: seq<Id>, list: seq<Id>, child: Id, cycleSet: set<Id>, n: nat): Option<seq<Id>>
    requires n <= |DepsInOrder(g, children, child)|
    decreases |Nodes(children) - cycleSet|, 1, n
  {
    if n == 0 then Some(list)
    else
      match ListedDeps(g, children, list, child, cycleSet, n - 1)
      case None => None
      case Some(before) => Listed(g, children, before, DepsInOrder(g, children, child)[n - 1], cycleSet)
  }

  // sortChildren, over the first n children
  function Sorted(g: Graph, children: seq<Id>, n: nat): Option<seq<Id>>
    requires n <= |children|
  {
    if n == 0 then Some([])
    else
      match Sorted(g, children, n - 1)
      case None => None
      case Some(list) =>
        if children[n - 1] in list then Some(list) else Listed(g, children, list, children[n - 1], {})
  }

  // ---- what is listed comes in order ---------------------------------

  // Everything listed is a child, has its dependencies listed before it, and is
  // on no cycle.
  ghost predicate Ordered(g: Graph, children: seq<Id>, list: seq<Id>) {
    forall k :: 0 <= k < |list| ==> Placed(g, children, list, k)
  }

  ghost predicate Placed(g: Graph, children: seq<Id>, list: seq<Id>, k: int)
    requires 0 <= k < |list|
  {
    list[k] in children && Deps(g, list[k]) <= Nodes(list[..k]) && !Reaches(g, list[k], list[k])
  }

  lemma OrderedGrows(g: Graph, children: seq<Id>, list: seq<Id>, child: Id)
    requires Ordered(g, children, list)
    requires child in children && Deps(g, child) <= Nodes(list) && !Reaches(g, child, child)
    ensures Ordered(g, children, list + [child])
  {
    var more := list + [child];
    forall k | 0 <= k < |more| ensures Placed(g, children, more, k) {
      assert more[..k] == list[..k];
      if k < |list| {
        assert Placed(g, children, list, k);
      }
    }
  }

  // The whole of a successful call: it appends, the child last, and nothing
  // that is being added can be reached from the child.
  ghost predicate Appends(g: Graph, children: seq<Id>, list: seq<Id>, child: Id, cycleSet: set<Id>, list': seq<Id>) {
    && list <= list'
    && child in list'
    && Ordered(g, children, list')
    && child !in cycleSet
    && forall y :: Reaches(g, child, y) ==> y !in cycleSet
  }

  lemma {:induction false} ListedAppends(g: Graph, children: seq<Id>, list: seq<Id>, child: Id, cycleSet: set<Id>)
    requires Within(g, children) && child in children && Ordered(g, children, list)
    requires Listed(g, children, list, child, cycleSet).Some?
    ensures Appends(g, children, list, child, cycleSet, Listed(g, children, list, child, cycleSet).value)
    decreases |Nodes(children) - cycleSet|, 0
  {
    Smaller(Nodes(children) - (cycleSet + {child}), Nodes(children) - cycleSet, child);
    var ds := DepsInOrder(g, children, child);
    var before := ListedDeps(g, children, list, child, cycleSet + {child}, |ds|).value;
    ListedDepsAppend(g, children, list, child, cycleSet + {child}, |ds|);
    DepsListed(g, children, child);
    forall y | Reaches(g, child, y) ensures y !in cycleSet + {child} {
      var z := FirstStep(g, child, y);
      var k :| 0 <= k < |ds| && ds[k] == z;
    }
    OrderedGrows(g, children, before, child);
  }

  lemma {:induction false} ListedDepsAppend(g: Graph, children: seq<Id>, list: seq<Id>, child: Id, cycleSet: set<Id>, n: nat)
    requires Within(g, children) && Ordered(g, children, list)
    requires n <= |DepsInOrder(g, children, child)|
    requires ListedDeps(g, children, list, child, cycleSet, n).Some?
    ensures list <= ListedDeps(g, children, list, child, cycleSet, n).value
    ensures Ordered(g, children, ListedDeps(g, children, list, child, cycleSet, n).value)
    ensures forall k :: 0 <= k < n ==> DepsInOrder(g, children, child)[k] in ListedDeps(g, children, list, child, cycleSet, n).value
    ensures forall k :: 0 <= k < n ==> DepsInOrder(g, children, child)[k] !in cycleSet
    ensures forall k, y :: 0 <= k < n && Reaches(g, DepsInOrder(g, children, child)[k], y) ==> y !in cycleSet
    decreases |Nodes(children) - cycleSet|, 1, n
  {
    if n > 0 {
      ListedDepsAppend(g, children, list, child, cycleSet, n - 1);
      var before := ListedDeps(g, children, list, child, cycleSet, n - 1).value;
      ListedAppends(g, children, before, DepsInOrder(g, children, child)[n - 1], cycleSet);
    }
  }

  lemma {:induction false} SortedOrdered(g: Graph, children: seq<Id>, n: nat)
    requires Within(g, children) && n <= |children| && Sorted(g, children, n).Some?
    ensures Ordered(g, children, Sorted(g, children, n).value)
    ensures forall k :: 0 <= k < n ==> children[k] in Sorted(g, children, n).value
  {
    if n > 0 {
      SortedOrdered(g, children, n - 1);
      var list := Sorted(g, children, n - 1).value;
      if children[n - 1] !in list {
        ListedAppends(g, children, list, children[n - 1], {});
      }
    }
  }

  // Every dependency of a child, direct or not, comes before each of the
  // child's occurrences.
  lemma {:induction false} DependenciesComeFirst(g: Graph, children: seq<Id>, list: seq<Id>, k: nat, y: Id, p: seq<Id>)
    requires Ordered(g, children, list) && k < |list| && Joins(g, p, list[k], y)
    ensures y in list[..k]
    decreases |p|
  {
    assert Placed(g, children, list, k);
    assert Edge(g, p[0], p[0 + 1]);
    if |p| > 2 {
      var j :| 0 <= j < k && list[..k][j] == p[1];
      forall i | 0 <= i < |p[1..]| - 1 ensures Edge(g, p[1..][i], p[1..][i + 1]) {
        assert Edge(g, p[i + 1], p[i + 1 + 1]);
      }
      DependenciesComeFirst(g, children, list, j, y, p[1..]);
      assert list[..j] <= list[..k];
    }
  }

  // What sortChildren returns: the children, each with all its dependencies
  // before each of its occurrences.
  lemma SortOrders(g: Graph, children: seq<Id>)
    requires Within(g, children) && Sorted(g, children, |children|).Some?
    ensures Nodes(Sorted(g, children, |children|).value) == Nodes(children)
    ensures forall k, y ::
              0 <= k < |Sorted(g, children, |children|).value| && Reaches(g, Sorted(g, children, |children|).value[k], y)
              ==> y in Sorted(g, children, |children|).value[..k]
  {
    SortedOrdered(g, children, |children|);
    var list := Sorted(g, children, |children|).value;
    forall x | x in list ensures x in children {
      var k :| 0 <= k < |list| && list[k] == x;
      assert Placed(g, children, list, k);
    }
    forall k, y | 0 <= k < |list| && Reaches(g, list[k], y) ensures y in list[..k] {
      var p :| Joins(g, p, list[k], y);
      DependenciesComeFirst(g, children, list, k, y, p);
    }
  }

  // ---- when it throws ------------------------------------------------

  lemma {:induction false} ListedSucceeds(g: Graph, children: seq<Id>, list: seq<Id>, child: Id, cycleSet: set<Id>)
    requires Within(g, children) && Acyclic(g) && child in children
    requires forall c :: c in cycleSet ==> Reaches(g, c, child)
    ensures Listed(g, children, list, child, cycleSet) == Some(list + Post(g, children, child))
    decreases |ReachSet(g, children, child)|, 0
  {
    var n := |DepsInOrder(g, children, child)|;
    ListedDepsSucceed(g, children, list, child, cycleSet + {child}, n);
    assert (list + PostDeps(g, children, child, n)) + [child] == list + (PostDeps(g, children, child, n) + [child]);
  }

  lemma {:induction false} ListedDepsSucceed(g: Graph, children: seq<Id>, list: seq<Id>, child: Id, cycleSet: set<Id>, n: nat)
    requires Within(g, children) && Acyclic(g)
    requires forall c :: c in cycleSet ==> c == child || Reaches(g, c, child)
    requires n <= |DepsInOrder(g, children, child)|
    ensures ListedDeps(g, children, list, child, cycleSet, n) == Some(list + PostDeps(g, children, child, n))
    decreases |ReachSet(g, children, child)|, 0, n
  {
    hide Within, DepsInOrder, Reaches, Edge, ReachSet, Post, Listed;
    if n == 0 {
      assert list + [] == list;
    } else {
      ListedDepsSucceed(g, children, list, child, cycleSet, n - 1);
      var d := DepsInOrder(g, children, child)[n - 1];
      DepsListed(g, children, child);
      DepsAreChildren(g, children, child);
      ReachShrinks(g, children, child, d);
      EdgeReaches(g, child, d);
      forall c | c in cycleSet ensures Reaches(g, c, d) {
        if c != child {
          ReachTrans(g, c, child, d);
        }
      }
      ListedSucceeds(g, children, list + PostDeps(g, children, child, n - 1), d, cycleSet);
      assert (list + PostDeps(g, children, child, n - 1)) + Post(g, children, d)
          == list + (PostDeps(g, children, child, n - 1) + Post(g, children, d));
    }
  }

  // A child with everything below it, dependencies first
  ghost function Post(g: Graph, children: seq<Id>, x: Id): seq<Id>
    requires Within(g, children) && Acyclic(g)
    decreases |ReachSet(g, children, x)|, 1, 0
  {
    PostDeps(g, children, x, |DepsInOrder(g, children, x)|) + [x]
  }

  ghost function PostDeps(g: Graph, children: seq<Id>, x: Id, n: nat): seq<Id>
    requires Within(g, children) && Acyclic(g) && n <= |DepsInOrder(g, children, x)|
    decreases |ReachSet(g, children, x)|, 0, n
  {
    if n == 0 then []
    else
      var d := DepsInOrder(g, children, x)[n - 1];
      ReachShrinks(g, children, x, d);
      PostDeps(g, children, x, n - 1) + Post(g, children, d)
  }

  lemma {:induction false} SortedSucceeds(g: Graph, children: seq<Id>, n: nat)
    requires Within(g, children) && Acyclic(g) && n <= |children|
    ensures Sorted(g, children, n).Some?
  {
    if n > 0 {
      SortedSucceeds(g, children, n - 1);
      ListedSucceeds(g, children, Sorted(g, children, n - 1).value, children[n - 1], {});
    }
  }

  // sortChildren throws exactly when some child depends on itself.
  lemma SortSucceedsIff(g: Graph, children: seq<Id>)
    requires Within(g, children)
    ensures Sorted(g, children, |children|).Some? <==> Acyclic(g)
  {
    if Acyclic(g) {
      SortedSucceeds(g, children, |children|);
    }
    if Sorted(g, children, |children|).Some? {
      SortedOrdered(g, children, |children|);
      var list := Sorted(g, children, |children|).value;
      forall x | x in list ensures !Reaches(g, x, x) {
        var k :| 0 <= k < |list| && list[k] == x;
        assert Placed(g, children, list, k);
      }
      forall x ensures !Reaches(g, x, x) {
        if Reaches(g, x, x) {
          ReachStays(g, children, x, x);
        }
      }
    }
  }

  // ---- when a child is listed more than once -------------------------

  // How often a, or either of two different a and b, is in a list
  function Count(list: seq<Id>, a: Id, b: Id): nat {
    if a == b then multiset(list)[a] else multiset(list)[a] + multiset(list)[b]
  }

  lemma CountAdds(l: seq<Id>, m: seq<Id>, a: Id, b: Id)
    ensures Count(l + m, a, b) == Count(l, a, b) + Count(m, a, b)
  {
    assert multiset(l + m) == multiset(l) + multiset(m);
  }

  lemma CountPositive(l: seq<Id>, a: Id, b: Id)
    ensures Count(l, a, b) > 0 <==> a in l || b in l
  {
    assert a in l <==> a in multiset(l);
    assert b in l <==> b in multiset(l);
  }

  lemma {:induction false} PostMembers(g: Graph, children: seq<Id>, x: Id)
    requires Within(g, children) && Acyclic(g)
    ensures forall y :: y in Post(g, children, x) <==> y == x || Reaches(g, x, y)
    decreases |ReachSet(g, children, x)|, 1, 0
  {
    var ds := DepsInOrder(g, children, x);
    PostDepsMembers(g, children, x, |ds|);
    DepsListed(g, children, x);
    forall y ensures y in Post(g, children, x) <==> y == x || Reaches(g, x, y) {
      if Reaches(g, x, y) {
        var z := FirstStep(g, x, y);
        var k :| 0 <= k < |ds| && ds[k] == z;
        assert Below(g, z, y);
      }
    }
  }

  // y is x, or a dependency of it.
  ghost predicate Below(g: Graph, x: Id, y: Id) { x == y || Reaches(g, x, y) }

  lemma {:induction false} PostDepsMembers(g: Graph, children: seq<Id>, x: Id, n: nat)
    requires Within(g, children) && Acyclic(g) && n <= |DepsInOrder(g, children, x)|
    ensures forall y :: y in PostDeps(g, children, x, n) <==> exists k :: 0 <= k < n && Below(g, DepsInOrder(g, children, x)[k], y)
    ensures forall y :: y in PostDeps(g, children, x, n) ==> Reaches(g, x, y)
    decreases |ReachSet(g, children, x)|, 0, n
  {
    if n > 0 {
      PostDepsMembers(g, children, x, n - 1);
      var d := DepsInOrder(g, children, x)[n - 1];
      ReachShrinks(g, children, x, d);
      PostMembers(g, children, d);
      EdgeReaches(g, x, d);
      forall y | y in Post(g, children, d) ensures Reaches(g, x, y) {
        if y != d {
          ReachTrans(g, x, d, y);
        }
      }
    }
  }

  // A child that both a and b depend on is listed for each of them.
  lemma {:induction false} CountPost(g: Graph, children: seq<Id>, x: Id, d: Id, a: Id, b: Id)
    requires Within(g, children) && Acyclic(g) && Edge(g, a, d) && Edge(g, b, d)
    ensures multiset(Post(g, children, x))[d] >= Count(Post(g, children, x), a, b)
    decreases |ReachSet(g, children, x)|, 1, 0
  {
    var n := |DepsInOrder(g, children, x)|;
    CountPostDeps(g, children, x, d, a, b, n);
    CountAdds(PostDeps(g, children, x, n), [x], a, b);
    CountAdds(PostDeps(g, children, x, n), [x], d, d);
    if x == a || x == b {
      DepsListed(g, children, x);
    }
  }

  lemma {:induction false} CountPostDeps(g: Graph, children: seq<Id>, x: Id, d: Id, a: Id, b: Id, n: nat)
    requires Within(g, children) && Acyclic(g) && Edge(g, a, d) && Edge(g, b, d)
    requires n <= |DepsInOrder(g, children, x)|
    ensures multiset(PostDeps(g, children, x, n))[d]
         >= Count(PostDeps(g, children, x, n), a, b) + if d in DepsInOrder(g, children, x)[..n] then 1 else 0
    decreases |ReachSet(g, children, x)|, 0, n
  {
    hide Post, DepsInOrder, Reaches, ReachSet, Count, Within;
    if n == 0 {
      CountPositive([], a, b);
    }
    if n > 0 {
      var ds := DepsInOrder(g, children, x);
      var l, m := PostDeps(g, children, x, n - 1), Post(g, children, ds[n - 1]);
      CountPostDeps(g, children, x, d, a, b, n - 1);
      DepsListed(g, children, x);
      ReachShrinks(g, children, x, ds[n - 1]);
      CountAdds(l, m, a, b);
      CountAdds(l, m, d, d);
      assert ds[..n] == ds[..n - 1] + [ds[n - 1]];
      if ds[n - 1] == d {
        OwnPost(g, children, d, a, b);
        assert d !in ds[..n - 1];
      } else {
        CountPost(g, children, ds[n - 1], d, a, b);
      }
    }
  }

  // What is listed for d has d, and nothing that depends on it.
  lemma OwnPost(g: Graph, children: seq<Id>, d: Id, a: Id, b: Id)
    requires Within(g, children) && Acyclic(g) && Edge(g, a, d) && Edge(g, b, d)
    ensures multiset(Post(g, children, d))[d] >= 1 && Count(Post(g, children, d), a, b) == 0
  {
    PostMembers(g, children, d);
    EdgeReaches(g, a, d);
    EdgeReaches(g, b, d);
    if Reaches(g, d, a) {
      ReachTrans(g, d, a, d);
    }
    if Reaches(g, d, b) {
      ReachTrans(g, d, b, d);
    }
    CountPositive(Post(g, children, d), a, b);
    CountPositive(Post(g, children, d), d, d);
  }

  // Some child before the nth depends on y.
  ghost predicate Awaited(g: Graph, children: seq<Id>, n: nat, y: Id)
    requires n <= |children|
  {
    exists i :: 0 <= i < n && Reaches(g, children[i], y)
  }

  // The lists that sortChildren goes through
  lemma {:induction false} SortedMembers(g: Graph, children: seq<Id>, n: nat)
    requires Within(g, children) && Acyclic(g) && n <= |children|
    ensures Sorted(g, children, n).Some?
    ensures forall y :: y in Sorted(g, children, n).value <==> y in children[..n] || Awaited(g, children, n, y)
  {
    if n > 0 {
      SortedMembers(g, children, n - 1);
      var list, c := Sorted(g, children, n - 1).value, children[n - 1];
      assert children[..n] == children[..n - 1] + [c];
      ListedSucceeds(g, children, list, c, {});
      PostMembers(g, children, c);
      forall y ensures Awaited(g, children, n, y) <==> Awaited(g, children, n - 1, y) || Reaches(g, c, y) {
        if Reaches(g, c, y) {
          assert Reaches(g, children[n - 1], y);
        }
      }
      if c in list {
        forall y | Reaches(g, c, y) ensures Awaited(g, children, n - 1, y) {
          assert c !in children[..n - 1];
          var i :| 0 <= i < n - 1 && Reaches(g, children[i], c);
          ReachTrans(g, children[i], c, y);
        }
      }
    }
  }

  // One more of d than of what depends on it, once d was listed for itself
  lemma {:induction false} CountSorted(g: Graph, children: seq<Id>, n: nat, d: Id, a: Id, b: Id)
    requires Within(g, children) && Acyclic(g) && Edge(g, a, d) && Edge(g, b, d) && n <= |children|
    ensures Sorted(g, children, n).Some?
    ensures multiset(Sorted(g, children, n).value)[d]
         >= Count(Sorted(g, children, n).value, a, b) + if ListedForItself(g, children, n, d) then 1 else 0
  {
    hide Listed, ListedDeps, Post, PostDeps, DepsInOrder, Reaches, Acyclic, Edge, Count;
    if n == 0 {
      CountPositive([], a, b);
    } else {
      CountSorted(g, children, n - 1, d, a, b);
      SortedMembers(g, children, n - 1);
      var list, c := Sorted(g, children, n - 1).value, children[n - 1];
      ListedSucceeds(g, children, list, c, {});
      if c !in list {
        CountAdds(list, Post(g, children, c), a, b);
        CountAdds(list, Post(g, children, c), d, d);
        if c == d {
          OwnPost(g, children, d, a, b);
        } else {
          CountPost(g, children, c, d, a, b);
        }
      }
    }
  }

  // d is among the first n children, and nothing before it depends on it.
  ghost predicate ListedForItself(g: Graph, children: seq<Id>, n: nat, d: Id)
    requires n <= |children|
  {
    exists i :: 0 <= i < n && children[i] == d && !Awaited(g, children, i, d)
  }

  // No child has two dependents, and each that has one comes after some child
  // that depends on it, directly or not.
  ghost predicate ListsOnce(g: Graph, children: seq<Id>) {
    && (forall a, b, d :: a in children && b in children && Edge(g, a, d) && Edge(g, b, d) ==> a == b)
    && (forall i, a :: 0 <= i < |children| && a in children && Edge(g, a, children[i]) ==> Awaited(g, children, i, children[i]))
  }

  // sortChildren lists a child twice unless dependencies are that simple.
  lemma RepeatsUnless(g: Graph, children: seq<Id>)
    requires Within(g, children) && Acyclic(g)
    requires Sorted(g, children, |children|).Some? && Distinct(Sorted(g, children, |children|).value)
    ensures ListsOnce(g, children)
  {
    var n := |children|;
    var list := Sorted(g, children, n).value;
    SortedMembers(g, children, n);
    assert children[..n] == children;
    forall a, b, d | a in children && b in children && Edge(g, a, d) && Edge(g, b, d) ensures a == b {
      CountSorted(g, children, n, d, a, b);
      CountPositive(list, a, a);
      CountPositive(list, b, b);
      DistinctOnce(list, d);
    }
    forall i, a | 0 <= i < |children| && a in children && Edge(g, a, children[i]) ensures Awaited(g, children, i, children[i]) {
      CountSorted(g, children, n, children[i], a, a);
      CountPositive(list, a, a);
      DistinctOnce(list, children[i]);
    }
  }

  lemma {:induction false} DistinctOnce(list: seq<Id>, d: Id)
    requires Distinct(list)
    ensures multiset(list)[d] <= 1
  {
    if list != [] {
      var n := |list| - 1;
      assert list == list[..n] + [list[n]];
      DistinctOnce(list[..n], d);
      CountAdds(list[..n], [list[n]], d, d);
      CountPositive(list[..n], d, d);
    }
  }

  // With no two dependents, what two children both need is below one of them.
  lemma {:induction false} OneAbove(g: Graph, children: seq<Id>, a: Id, b: Id, y: Id, p: seq<Id>)
    requires Within(g, children) && ListsOnce(g, children) && a in children && b in children
    requires Joins(g, p, a, y) && Reaches(g, b, y) && a != b
    ensures Reaches(g, a, b) || Reaches(g, b, a)
    decreases |p|
  {
    var n := |p| - 2;
    assert Edge(g, p[n], p[n + 1]);
    var u := LastStep(g, b, y);
    if n > 0 {
      assert Joins(g, p[..n + 1], a, p[n]);
      assert Reaches(g, a, p[n]);
      ReachStays(g, children, a, p[n]);
    }
    if u != b {
      ReachStays(g, children, b, u);
    }
    assert u == p[n];
    if n > 0 && u != b {
      OneAbove(g, children, a, b, u, p[..n + 1]);
    }
  }

  lemma BothAbove(g: Graph, children: seq<Id>, a: Id, b: Id, y: Id)
    requires Within(g, children) && ListsOnce(g, children) && a in children && b in children && a != b
    requires Below(g, a, y) && Below(g, b, y)
    ensures Reaches(g, a, b) || Reaches(g, b, a)
  {
    if Reaches(g, a, y) && Reaches(g, b, y) {
      var p :| Joins(g, p, a, y);
      OneAbove(g, children, a, b, y, p);
    }
  }

  lemma DistinctAppend(l: seq<Id>, m: seq<Id>)
    requires Distinct(l) && Distinct(m) && forall y :: y in l ==> y !in m
    ensures Distinct(l + m)
  {
    forall i, j | 0 <= i < j < |l + m| ensures (l + m)[i] != (l + m)[j] {
      if i < |l| && j >= |l| {
        assert l[i] in l && m[j - |l|] in m;
      }
    }
  }

  lemma {:induction false} PostDistinct(g: Graph, children: seq<Id>, x: Id)
    requires Within(g, children) && Acyclic(g) && ListsOnce(g, children) && x in children
    ensures Distinct(Post(g, children, x))
    decreases |ReachSet(g, children, x)|, 1, 0
  {
    var n := |DepsInOrder(g, children, x)|;
    PostDepsDistinct(g, children, x, n);
    PostDepsMembers(g, children, x, n);
    DistinctAppend(PostDeps(g, children, x, n), [x]);
  }

  lemma {:induction false} PostDepsDistinct(g: Graph, children: seq<Id>, x: Id, n: nat)
    requires Within(g, children) && Acyclic(g) && ListsOnce(g, children) && x in children
    requires n <= |DepsInOrder(g, children, x)|
    ensures Distinct(PostDeps(g, children, x, n))
    decreases |ReachSet(g, children, x)|, 0, n
  {
    if n > 0 {
      var ds := DepsInOrder(g, children, x);
      var d := ds[n - 1];
      PostDepsDistinct(g, children, x, n - 1);
      ReachShrinks(g, children, x, d);
      PostDistinct(g, children, d);
      PostDepsMembers(g, children, x, n - 1);
      PostMembers(g, children, d);
      DepsListed(g, children, x);
      forall y | y in PostDeps(g, children, x, n - 1) ensures y !in Post(g, children, d) {
        var k :| 0 <= k < n - 1 && Below(g, ds[k], y);
        if y in Post(g, children, d) {
          BothAbove(g, children, ds[k], d, y);
          Siblings(g, children, x, ds[k], d);
        }
      }
      DistinctAppend(PostDeps(g, children, x, n - 1), Post(g, children, d));
    }
  }

  // Two dependencies of the same child do not depend on each other.
  lemma Siblings(g: Graph, children: seq<Id>, x: Id, a: Id, b: Id)
    requires Within(g, children) && Acyclic(g) && ListsOnce(g, children) && x in children
    requires Edge(g, x, a) && Edge(g, x, b)
    ensures !Reaches(g, a, b) && !Reaches(g, b, a)
  {
    if Reaches(g, a, b) {
      OnlyAbove(g, children, x, a, b);
    }
    if Reaches(g, b, a) {
      OnlyAbove(g, children, x, b, a);
    }
  }

  lemma OnlyAbove(g: Graph, children: seq<Id>, x: Id, a: Id, b: Id)
    requires Within(g, children) && ListsOnce(g, children) && x in children
    requires Edge(g, x, a) && Edge(g, x, b) && Reaches(g, a, b)
    ensures Reaches(g, x, x)
  {
    var u := LastStep(g, a, b);
    EdgeReaches(g, x, a);
    if u != a {
      ReachStays(g, children, a, u);
      ReachTrans(g, x, a, u);
    } else {
      ReachStays(g, children, x, a);
    }
  }

  // What an earlier child and c both depend on makes an earlier child depend
  // on c.
  lemma {:induction false} EarlierAbove(g: Graph, children: seq<Id>, i: nat, n: nat, y: Id)
    requires Within(g, children) && Acyclic(g) && ListsOnce(g, children)
    requires i < n < |children| && Reaches(g, children[i], y) && Reaches(g, children[n], y)
    ensures Awaited(g, children, n, children[n])
  {
    BothAbove(g, children, children[i], children[n], y);
    if Reaches(g, children[n], children[i]) {
      var u := LastStep(g, children[n], children[i]);
      if u != children[n] {
        ReachStays(g, children, children[n], u);
      }
      assert Awaited(g, children, i, children[i]);
      var j :| 0 <= j < i && Reaches(g, children[j], children[i]);
      ReachTrans(g, children[j], children[i], y);
      EarlierAbove(g, children, j, n, y);
    }
  }

  lemma {:induction false} SortedDistinct(g: Graph, children: seq<Id>, n: nat)
    requires Within(g, children) && Acyclic(g) && ListsOnce(g, children) && n <= |children|
    ensures Sorted(g, children, n).Some? && Distinct(Sorted(g, children, n).value)
  {
    if n > 0 {
      SortedDistinct(g, children, n - 1);
      SortedMembers(g, children, n - 1);
      var list, c := Sorted(g, children, n - 1).value, children[n - 1];
      if c !in list {
        ListedSucceeds(g, children, list, c, {});
        PostDistinct(g, children, c);
        PostMembers(g, children, c);
        forall y | y in list ensures y !in Post(g, children, c) {
          if y in Post(g, children, c) {
            NotBoth(g, children, n - 1, y);
          }
        }
        DistinctAppend(list, Post(g, children, c));
      }
    }
  }

  // What the nth child needs was not listed before, when the child was not.
  lemma NotBoth(g: Graph, children: seq<Id>, n: nat, y: Id)
    requires Within(g, children) && Acyclic(g) && ListsOnce(g, children) && n < |children|
    requires Reaches(g, children[n], y) && (y in children[..n] || Awaited(g, children, n, y))
    ensures Awaited(g, children, n, children[n])
  {
    if y in children[..n] {
      var i :| 0 <= i < n && children[..n][i] == y;
      var u := LastStep(g, children[n], y);
      if u != children[n] {
        ReachStays(g, children, children[n], u);
      }
      assert u in children && Edge(g, u, children[i]);
      assert Awaited(g, children, i, children[i]);
      var j :| 0 <= j < i && Reaches(g, children[j], children[i]);
      assert Awaited(g, children, n, y);
    }
    var i :| 0 <= i < n && Reaches(g, children[i], y);
    EarlierAbove(g, children, i, n, y);
  }

  // Each child is listed once exactly when no child has two dependents, and
  // each that has one comes after a child that depends on it.
  lemma ListsOnceIff(g: Graph, children: seq<Id>)
    requires Within(g, children) && Acyclic(g)
    ensures Sorted(g, children, |children|).Some?
    ensures Distinct(Sorted(g, children, |children|).value) <==> ListsOnce(g, children)
  {
    SortedMembers(g, children, |children|);
    if ListsOnce(g, children) {
      SortedDistinct(g, children, |children|);
    }
    if Distinct(Sorted(g, children, |children|).value) {
      RepeatsUnless(g, children);
    }
  }

  // Where the first child is a dependency of the second, it is listed twice.
  lemma FirstListedTwice(a: Id, b: Id)
    requires a != b
    ensures Sorted(map[b := {a}], [a, b], 2) == Some([a, a, b])
  {
    var g: Graph, cs := map[b := {a}], [a, b];
    assert cs[1..] == [b] && cs[1..][1..] == [];
    assert InOrder(cs[1..], {a}) == InOrder(cs[1..][1..], {a});
    assert DepsInOrder(g, cs, b) == [a];
    assert InOrder(cs[1..], {}) == InOrder(cs[1..][1..], {});
    assert DepsInOrder(g, cs, a) == [];
    NoDependencies(g, cs, [], a, {});
    NoDependencies(g, cs, [a], a, {b});
    assert [] + [a] == [a] && [a] + [a] == [a, a] && [a, a] + [b] == [a, a, b];
    assert ListedDeps(g, cs, [a], b, {b}, 0) == Some([a]);
    assert ListedDeps(g, cs, [a], b, {b}, 1) == Some([a, a]);
    assert {} + {b} == {b};
    assert Listed(g, cs, [a], b, {}) == Some([a, a, b]);
    assert Sorted(g, cs, 0) == Some([]);
    assert Sorted(g, cs, 1) == Some([a]);
  }

  lemma NoDependencies(g: Graph, children: seq<Id>, list: seq<Id>, x: Id, cycleSet: set<Id>)
    requires x in children && x !in cycleSet && DepsInOrder(g, children, x) == []
    ensures Listed(g, children, list, x, cycleSet) == Some(list + [x])
  {
    assert ListedDeps(g, children, list, x, cycleSet + {x}, 0) == Some(list);
  }

  // ---- all dependencies ----------------------------------------------

  // getAllDependencies(child, s), to a given depth of calls: None if deeper
  // calls are needed.
  function Collected(g: Graph, children: seq<Id>, child: Id, s: set<Id>, depth: nat): Option<set<Id>>
    decreases depth, 0
  {
    if child in s then Some(s)
    else if depth == 0 then None
    else CollectedDeps(g, children, child, s, depth - 1, |DepsInOrder(g, children, child)|)
  }

  function CollectedDeps(g: Graph, children: seq<Id>, child: Id, s: set<Id>, depth: nat, n: nat): Option<set<Id>>
    requires n <= |DepsInOrder(g, children, child)|
    decreases depth, 1, n
  {
    if n == 0 then Some(s)
    else
      match CollectedDeps(g, children, child, s, depth, n - 1)
      case None => None
      case Some(before) =>
        match Collected(g, children, DepsInOrder(g, children, child)[n - 1], before, depth)
        case None => None
        case Some(after) => Some(after + {DepsInOrder(g, children, child)[n - 1]})
  }

  // Nothing below x is on a cycle.
  ghost predicate CycleFree(g: Graph, x: Id) { forall y :: Below(g, x, y) ==> !Reaches(g, y, y) }

  lemma BelowTrans(g: Graph, x: Id, y: Id, z: Id)
    requires Below(g, x, y) && Below(g, y, z)
    ensures Below(g, x, z)
  {
    if x != y && y != z {
      ReachTrans(g, x, y, z);
    }
  }

  lemma DependencyCycleFree(g: Graph, x: Id, d: Id)
    requires CycleFree(g, x) && Edge(g, x, d)
    ensures CycleFree(g, d) && !Reaches(g, d, d)
  {
    assert Below(g, d, d);
    EdgeReaches(g, x, d);
    forall y | Below(g, d, y) ensures !Reaches(g, y, y) {
      BelowTrans(g, x, d, y);
    }
  }

  // A child above a cycle has a dependency above it.
  lemma CycleBelow(g: Graph, x: Id) returns (d: Id)
    requires !CycleFree(g, x)
    ensures Edge(g, x, d) && !CycleFree(g, d)
  {
    var y :| Below(g, x, y) && Reaches(g, y, y);
    d := FirstStep(g, x, y);
    assert Below(g, d, y);
  }

  // What is collected has all it depends on collected too.
  ghost predicate Closed(g: Graph, s: set<Id>) { forall x, y :: x in s && Reaches(g, x, y) ==> y in s }

  lemma {:induction false} CollectsAll(g: Graph, children: seq<Id>, x: Id, s: set<Id>, depth: nat)
    requires Within(g, children) && CycleFree(g, x) && Closed(g, s) && depth > |ReachSet(g, children, x)|
    ensures Collected(g, children, x, s, depth) == Some(s + ReachSet(g, children, x))
    decreases |ReachSet(g, children, x)|, 1, 0
  {
    if x in s {
      assert ReachSet(g, children, x) <= s;
      assert s + ReachSet(g, children, x) == s;
    } else {
      var ds := DepsInOrder(g, children, x);
      CollectsDeps(g, children, x, s, depth - 1, |ds|);
      DepsListed(g, children, x);
      var r := CollectedDeps(g, children, x, s, depth - 1, |ds|).value;
      forall y | y in ReachSet(g, children, x) ensures y in r {
        var z := FirstStep(g, x, y);
        var k :| 0 <= k < |ds| && ds[k] == z;
      }
      assert r == s + ReachSet(g, children, x);
    }
  }

  lemma {:induction false} CollectsDeps(g: Graph, children: seq<Id>, x: Id, s: set<Id>, depth: nat, n: nat)
    requires Within(g, children) && CycleFree(g, x) && Closed(g, s) && depth >= |ReachSet(g, children, x)|
    requires n <= |DepsInOrder(g, children, x)|
    ensures CollectedDeps(g, children, x, s, depth, n).Some?
    ensures s <= CollectedDeps(g, children, x, s, depth, n).value <= s + ReachSet(g, children, x)
    ensures Closed(g, CollectedDeps(g, children, x, s, depth, n).value)
    ensures forall k :: 0 <= k < n ==> DepsInOrder(g, children, x)[k] in CollectedDeps(g, children, x, s, depth, n).value
    decreases |ReachSet(g, children, x)|, 0, n
  {
    hide Reaches, CycleFree, Closed, Within, DepsInOrder, Collected;
    if n > 0 {
      CollectsDeps(g, children, x, s, depth, n - 1);
      DepsListed(g, children, x);
      var before, d := CollectedDeps(g, children, x, s, depth, n - 1).value, DepsInOrder(g, children, x)[n - 1];
      DependencyCycleFree(g, x, d);
      ReachShrinks(g, children, x, d);
      CollectsAll(g, children, d, before, depth);
      EdgeReaches(g, x, d);
      AddsClosed(g, children, before, d);
    }
  }

  lemma AddsClosed(g: Graph, children: seq<Id>, s: set<Id>, d: Id)
    requires Within(g, children) && Closed(g, s)
    ensures Closed(g, s + ReachSet(g, children, d) + {d})
  {
    forall x, y | x in s + ReachSet(g, children, d) + {d} && Reaches(g, x, y) ensures y in s + ReachSet(g, children, d) + {d} {
      if x !in s {
        if x != d {
          ReachTrans(g, d, x, y);
        }
        ReachStays(g, children, d, y);
      }
    }
  }

  // Nothing above a cycle is ever collected.
  lemma {:induction false} CollectsOrNot(g: Graph, children: seq<Id>, x: Id, s: set<Id>, depth: nat)
    requires Within(g, children) && (forall y :: y in s ==> CycleFree(g, y))
    requires Collected(g, children, x, s, depth).Some?
    ensures CycleFree(g, x) && forall y :: y in Collected(g, children, x, s, depth).value ==> CycleFree(g, y)
    decreases depth, 0
  {
    if x !in s {
      var ds := DepsInOrder(g, children, x);
      CollectsDepsOrNot(g, children, x, s, depth - 1, |ds|);
      DepsListed(g, children, x);
      forall d | Edge(g, x, d) ensures CycleFree(g, d) {
        var k :| 0 <= k < |ds| && ds[k] == d;
      }
      if !CycleFree(g, x) {
        var d := CycleBelow(g, x);
      }
    }
  }

  lemma {:induction false} CollectsDepsOrNot(g: Graph, children: seq<Id>, x: Id, s: set<Id>, depth: nat, n: nat)
    requires Within(g, children) && (forall y :: y in s ==> CycleFree(g, y))
    requires n <= |DepsInOrder(g, children, x)| && CollectedDeps(g, children, x, s, depth, n).Some?
    ensures forall k :: 0 <= k < n ==> CycleFree(g, DepsInOrder(g, children, x)[k])
    ensures forall y :: y in CollectedDeps(g, children, x, s, depth, n).value ==> CycleFree(g, y)
    decreases depth, 1, n
  {
    if n > 0 {
      CollectsDepsOrNot(g, children, x, s, depth, n - 1);
      var before := CollectedDeps(g, children, x, s, depth, n - 1).value;
      CollectsOrNot(g, children, DepsInOrder(g, children, x)[n - 1], before, depth);
    }
  }

  // getAllDependencies ends exactly where no cycle is below the child, and
  // then gives all it depends on, directly or not.
  lemma CollectsIff(g: Graph, children: seq<Id>, x: Id)
    requires Within(g, children)
    ensures (exists depth: nat :: Collected(g, children, x, {}, depth).Some?) <==> CycleFree(g, x)
    ensures forall depth: nat :: CycleFree(g, x) && depth > |ReachSet(g, children, x)|
              ==> Collected(g, children, x, {}, depth) == Some(ReachSet(g, children, x))
  {
    if depth: nat :| Collected(g, children, x, {}, depth).Some? {
      CollectsOrNot(g, children, x, {}, depth);
    }
    if CycleFree(g, x) {
      forall depth: nat | depth > |ReachSet(g, children, x)|
        ensures Collected(g, children, x, {}, depth) == Some(ReachSet(g, children, x))
      {
        CollectsAll(g, children, x, {}, depth);
        assert {} + ReachSet(g, children, x) == ReachSet(g, children, x);
      }
      assert Collected(g, children, x, {}, |ReachSet(g, children, x)| + 1).Some?;
    }
  }

  // ---- the set -------------------------------------------------------

  // The list and the set that a sort works on
  class Sort {
    var list: seq<Id>
    var cycleSet: set<Id>

    constructor ()
      ensures list == [] && cycleSet == {}
    {
      list, cycleSet := [], {};
    }
  }

  // The dependencies found so far
  class Dependencies {
    var s: set<Id>

    constructor ()
      ensures s == {}
    {
      s := {};
    }
  }

  datatype Outcome = Done | CycleFault | NullPointer

  class Interviews {
    var children: seq<Id>
    var dependencies: Graph
    var sortedCalls: Option<seq<Id>>

    // What is kept of an earlier sort is still what a sort would give.
    ghost predicate Valid()
      reads this
    {
      && Within(dependencies, children)
      && (forall c :: c in dependencies ==> dependencies[c] != {})
      && (sortedCalls.Some? ==> sortedCalls == Sorted(dependencies, children, |children|))
    }

    constructor ()
      ensures Valid() && children == [] && dependencies == map[]
    {
      children, dependencies, sortedCalls := [], map[], None;
    }

    method Add(child: Id)
      requires Valid() && child !in children
      modifies this
      ensures Valid() && children == old(children) + [child] && dependencies == old(dependencies)
    {
      children := children + [child];
      sortedCalls := None;
      assert Nodes(children) == Nodes(old(children)) + {child};
    }

    // Recursion ends: below the child there is no cycle.
    method GetAllDependencies(child: Id, found: Dependencies)
      requires Valid() && CycleFree(dependencies, child) && Closed(dependencies, found.s)
      modifies found
      ensures found.s == old(found.s) + ReachSet(dependencies, children, child)
      decreases |ReachSet(dependencies, children, child)|
    {
      hide Sorted, DepsInOrder, CycleFree, Within, Reaches;
      if child in found.s {
        assert ReachSet(dependencies, children, child) <= found.s;
        return;
      }
      ghost var all := ReachSet(dependencies, children, child);
      var ds := DepsInOrder(dependencies, children, child);
      DepsListed(dependencies, children, child);
      for k := 0 to |ds|
        invariant Closed(dependencies, found.s)
        invariant old(found.s) <= found.s <= old(found.s) + all
        invariant forall i :: 0 <= i < k ==> ds[i] in found.s
      {
        var d := ds[k];
        DependencyCycleFree(dependencies, child, d);
        ReachShrinks(dependencies, children, child, d);
        AddsClosed(dependencies, children, found.s, d);
        EdgeReaches(dependencies, child, d);
        GetAllDependencies(d, found);
        found.s := found.s + {d};
      }
      forall y | y in all ensures y in found.s {
        var z := FirstStep(dependencies, child, y);
        var i :| 0 <= i < |ds| && ds[i] == z;
      }
    }

    // A fault exactly where the dependency needs the child already; otherwise
    // the dependency is there, and a cycle only if it is the child itself.
    method AddDependency(child: Id, dependency: Id) returns (r: Outcome)
      requires Valid() && dependency in children && CycleFree(dependencies, dependency)
      modifies this
      ensures Valid() && children == old(children)
      ensures r == if child in children && Reaches(old(dependencies), dependency, child) then CycleFault else Done
      ensures dependencies == if r.CycleFault? then old(dependencies) else Added(old(dependencies), child, dependency)
      ensures Acyclic(old(dependencies)) ==> (Acyclic(dependencies) <==> r.CycleFault? || child != dependency)
    {
      var allDeps := new Dependencies();
      GetAllDependencies(dependency, allDeps);
      if Acyclic(dependencies) {
        AddedAcyclicIff(dependencies, child, dependency);
      }
      if Reaches(dependencies, dependency, child) {
        ReachStays(dependencies, children, dependency, child);
      }
      if child in allDeps.s {
        return CycleFault;
      }
      dependencies := Added(dependencies, child, dependency);
      sortedCalls := None;
      return Done;
    }

    // Fails where the child has no dependencies at all; otherwise exactly the
    // one dependency goes, and no cycle comes.
    method RemoveDependency(child: Id, dependency: Id) returns (r: Outcome)
      requires Valid() && dependency in children
      modifies this
      ensures Valid() && children == old(children)
      ensures r == if exists y :: Edge(old(dependencies), child, y) then Done else NullPointer
      ensures forall a, b :: Edge(dependencies, a, b) <==> Edge(old(dependencies), a, b) && !(a == child && b == dependency)
      ensures dependencies == if r.NullPointer? then old(dependencies) else Removed(old(dependencies), child, dependency)
      ensures Acyclic(old(dependencies)) ==> Acyclic(dependencies)
    {
      RemovedEdges(dependencies, child, dependency);
      HasDependency(dependencies, child);
      if Acyclic(dependencies) {
        RemovedAcyclic(dependencies, child, dependency);
      }
      if child !in dependencies {
        return NullPointer;
      }
      var deps := dependencies[child] - {dependency};
      dependencies := if deps == {} then dependencies - {child} else dependencies[child := deps];
      sortedCalls := None;
      return Done;
    }

    method AddToList(sort: Sort, child: Id) returns (ok: bool)
      requires Valid() && child in children
      modifies sort
      ensures ok <==> Listed(dependencies, children, old(sort.list), child, old(sort.cycleSet)).Some?
      ensures ok ==> Listed(dependencies, children, old(sort.list), child, old(sort.cycleSet)) == Some(sort.list)
      ensures ok ==> sort.cycleSet == old(sort.cycleSet)
      decreases |Nodes(children) - sort.cycleSet|
    {
      hide Within, Sorted, DepsInOrder, Edge;
      if child in sort.cycleSet {
        return false;
      }
      Smaller(Nodes(children) - (sort.cycleSet + {child}), Nodes(children) - sort.cycleSet, child);
      sort.cycleSet := sort.cycleSet + {child};
      var deps := DepsInOrder(dependencies, children, child);
      DepsAreChildren(dependencies, children, child);
      ghost var n := |deps|;
      for k := 0 to |deps|
        invariant sort.cycleSet == old(sort.cycleSet) + {child}
        invariant ListedDeps(dependencies, children, old(sort.list), child, old(sort.cycleSet) + {child}, k) == Some(sort.list)
      {
        var more := AddToList(sort, deps[k]);
        if !more {
          ListedDepsFail(dependencies, children, old(sort.list), child, old(sort.cycleSet) + {child}, k + 1, n);
          return false;
        }
      }
      sort.list := sort.list + [child];
      sort.cycleSet := sort.cycleSet - {child};
      return true;
    }

    method SortChildren() returns (r: Option<seq<Id>>)
      requires Valid()
      ensures r == Sorted(dependencies, children, |children|)
    {
      var sort := new Sort();
      for k := 0 to |children|
        invariant sort.cycleSet == {} && fresh(sort)
        invariant Sorted(dependencies, children, k) == Some(sort.list)
      {
        if children[k] !in sort.list {
          var ok := AddToList(sort, children[k]);
          if !ok {
            SortedFails(dependencies, children, k + 1, |children|);
            return None;
          }
        }
      }
      return Some(sort.list);
    }

    // The calls the sorter goes on to, from what was kept or sorted anew: None
    // exactly when a child depends on itself; otherwise all the children, each
    // with its dependencies first.
    method GetNext() returns (r: Option<seq<Id>>)
      requires Valid()
      modifies this
      ensures Valid() && children == old(children) && dependencies == old(dependencies)
      ensures r.Some? <==> Acyclic(dependencies)
      ensures r.Some? ==> Nodes(r.value) == Nodes(children)
      ensures r.Some? ==> forall k, y :: 0 <= k < |r.value| && Reaches(dependencies, r.value[k], y) ==> y in r.value[..k]
      ensures r.Some? ==> (Distinct(r.value) <==> ListsOnce(dependencies, children))
    {
      if sortedCalls.None? {
        sortedCalls := SortChildren();
      }
      SortSucceedsIff(dependencies, children);
      if sortedCalls.Some? {
        SortOrders(dependencies, children);
        ListsOnceIff(dependencies, children);
      }
      return sortedCalls;
    }
  }

  lemma RemovedEdges(g: Graph, c: Id, d: Id)
    ensures forall a, b :: Edge(Removed(g, c, d), a, b) <==> Edge(g, a, b) && !(a == c && b == d)
  {
  }

  lemma {:induction false} ListedDepsFail(g: Graph, children: seq<Id>, list: seq<Id>, child: Id, cycleSet: set<Id>, k: nat, n: nat)
    requires k <= n <= |DepsInOrder(g, children, child)| && ListedDeps(g, children, list, child, cycleSet, k).None?
    ensures ListedDeps(g, children, list, child, cycleSet, n).None?
  {
    if k < n {
      ListedDepsFail(g, children, list, child, cycleSet, k, n - 1);
    }
  }

  lemma {:induction false} SortedFails(g: Graph, children: seq<Id>, k: nat, n: nat)
    requires k <= n <= |children| && Sorted(g, children, k).None?
    ensures Sorted(g, children, n).None?
  {
    if k < n {
      SortedFails(g, children, k, n - 1);
    }
  }
}
