/**
  The forest that parent links describe, on values: who is a root, who hangs below whom, and
  which rows never appear because their chain of parents runs into a cycle.
*/
module Forests {
  import opened Basics
  import opened Options

  /** A row of a tree table: primary key, parent key, sort column. */
  datatype Rec = Rec(id: int, parent: Option<int>, sort: int)

  datatype Tree = Tree(rec: Rec, children: seq<Tree>)

  ghost predicate UniqueIds(recs: seq<Rec>) {
    forall a, b :: 0 <= a < b < |recs| ==> recs[a].id != recs[b].id
  }

  function Lookup(recs: seq<Rec>, id: int): (r: Option<Rec>)
    ensures r.Some? ==> r.value in recs && r.value.id == id
  {
    if recs == [] then None
    else if recs[0].id == id then Some(recs[0])
    else Lookup(recs[1..], id)
  }

  lemma {:induction false} LookupIs(recs: seq<Rec>, r: Rec)
    requires UniqueIds(recs) && r in recs
    ensures Lookup(recs, r.id) == Some(r)
  {
    if recs[0] != r {
      var k :| 0 <= k < |recs| && recs[k] == r;
      assert recs[0].id != recs[k].id;
      LookupIs(recs[1..], r);
    }
  }

  /** The row a parent link points at, if it points at one. */
  function ParentOf(recs: seq<Rec>, r: Rec): Option<Rec> {
    if r.parent.None? then None else Lookup(recs, r.parent.value)
  }

  /** The rows with a given parent link, in list order. */
  function Kids(recs: seq<Rec>, parent: Option<int>): seq<Rec> {
    if recs == [] then []
    else (if recs[0].parent == parent then [recs[0]] else []) + Kids(recs[1..], parent)
  }

  /** No parent link, or a link to an id that is not in `all`. */
  function Roots(recs: seq<Rec>, all: seq<Rec>): seq<Rec> {
    if recs == [] then []
    else (if ParentOf(all, recs[0]).None? then [recs[0]] else []) + Roots(recs[1..], all)
  }

  lemma {:induction false} KidsMember(recs: seq<Rec>, parent: Option<int>, r: Rec)
    ensures r in Kids(recs, parent) <==> r in recs && r.parent == parent
  {
    if recs != [] {
      KidsMember(recs[1..], parent, r);
    }
  }

  lemma KidsMembers(recs: seq<Rec>, parent: Option<int>)
    ensures forall r :: r in Kids(recs, parent) ==> r in recs && r.parent == parent
  {
    forall r | r in Kids(recs, parent)
      ensures r in recs && r.parent == parent
    {
      KidsMember(recs, parent, r);
    }
  }

  lemma {:induction false} RootsMember(recs: seq<Rec>, all: seq<Rec>, r: Rec)
    ensures r in Roots(recs, all) <==> r in recs && ParentOf(all, r).None?
  {
    if recs != [] {
      RootsMember(recs[1..], all, r);
    }
  }

  lemma RootsMembers(recs: seq<Rec>, all: seq<Rec>)
    ensures forall r :: r in Roots(recs, all) ==> r in recs && ParentOf(all, r).None?
  {
    forall r | r in Roots(recs, all)
      ensures r in recs && ParentOf(all, r).None?
    {
      RootsMember(recs, all, r);
    }
  }

  /** The tree below a row, cut off at a depth. */
  function Grow(recs: seq<Rec>, r: Rec, depth: nat): Tree
    decreases depth, 0, 1
  {
    Tree(r, if depth == 0 then [] else GrowAll(recs, Kids(recs, Some(r.id)), depth - 1))
  }

  function GrowAll(recs: seq<Rec>, list: seq<Rec>, depth: nat): (t: seq<Tree>)
    ensures |t| == |list|
    decreases depth, 1, |list|
  {
    if list == [] then [] else [Grow(recs, list[0], depth)] + GrowAll(recs, list[1..], depth)
  }

  /** The forest the in-place builder links. */
  function Forest(recs: seq<Rec>): seq<Tree> {
    GrowAll(recs, Roots(recs, recs), |recs|)
  }

  /** How often a row occurs in a forest. */
  function Occurrences(trees: seq<Tree>, x: Rec): nat
    decreases trees, 1
  {
    if trees == [] then 0 else InTree(trees[0], x) + Occurrences(trees[1..], x)
  }

  function InTree(t: Tree, x: Rec): nat
    decreases t, 0
  {
    (if t.rec == x then 1 else 0) + Occurrences(t.children, x)
  }

  // ---- the chain of parents ----

  /** The chain of parents of `r` ends after exactly `n` known parents. */
  predicate Level(recs: seq<Rec>, r: Rec, n: nat)
    decreases n
  {
    var p := ParentOf(recs, r);
    if n == 0 then p.None? else p.Some? && Level(recs, p.value, n - 1)
  }

  predicate EndsWithin(recs: seq<Rec>, r: Rec, n: nat)
    decreases n
  {
    var p := ParentOf(recs, r);
    p.None? || (n > 0 && EndsWithin(recs, p.value, n - 1))
  }

  /** The chain ends at a null link or at a missing id, rather than running into a cycle. */
  ghost predicate Grounded(recs: seq<Rec>, r: Rec) {
    exists n: nat :: EndsWithin(recs, r, n)
  }

  lemma {:induction false} LevelUnique(recs: seq<Rec>, r: Rec, m: nat, n: nat)
    requires Level(recs, r, m) && Level(recs, r, n)
    ensures m == n
    decreases m
  {
    if m > 0 && n > 0 {
      LevelUnique(recs, ParentOf(recs, r).value, m - 1, n - 1);
    }
  }

  lemma {:induction false} EndsAtLevel(recs: seq<Rec>, r: Rec, n: nat) returns (m: nat)
    requires EndsWithin(recs, r, n)
    ensures m <= n && Level(recs, r, m)
    decreases n
  {
    if ParentOf(recs, r).None? {
      m := 0;
    } else {
      m := EndsAtLevel(recs, ParentOf(recs, r).value, n - 1);
      m := m + 1;
    }
  }

  lemma {:induction false} LevelEnds(recs: seq<Rec>, r: Rec, m: nat, n: nat)
    requires Level(recs, r, m) && m <= n
    ensures EndsWithin(recs, r, n)
    decreases m
  {
    if m > 0 {
      LevelEnds(recs, ParentOf(recs, r).value, m - 1, n - 1);
    }
  }

  function SetOf<T(==)>(s: seq<T>): set<T> {
    set x | x in s
  }

  lemma {:induction false} SetOfSmall<T>(s: seq<T>)
    ensures |SetOf(s)| <= |s|
  {
    if s != [] {
      SetOfSmall(s[1..]);
      assert SetOf(s) == {s[0]} + SetOf(s[1..]);
    }
  }

  lemma EndsLater(recs: seq<Rec>, r: Rec, m: nat, n: nat)
    requires EndsWithin(recs, r, m) && m <= n
    ensures EndsWithin(recs, r, n)
  {
    var k := EndsAtLevel(recs, r, m);
    LevelEnds(recs, r, k, n);
  }

  /** The ancestors of a row are distinct rows, one a level. */
  lemma {:induction false} Ancestors(recs: seq<Rec>, r: Rec, n: nat) returns (s: set<Rec>)
    requires r in recs && Level(recs, r, n)
    ensures s <= SetOf(recs) && |s| == n + 1
    ensures forall x :: x in s ==> EndsWithin(recs, x, n)
    decreases n
  {
    LevelEnds(recs, r, n, n);
    if n == 0 {
      s := {r};
    } else {
      var rest := Ancestors(recs, ParentOf(recs, r).value, n - 1);
      if r in rest {
        var m := EndsAtLevel(recs, r, n - 1);
        LevelUnique(recs, r, m, n);
      }
      s := rest + {r};
      forall x | x in rest
        ensures EndsWithin(recs, x, n)
      {
        EndsLater(recs, x, n - 1, n);
      }
    }
  }

  lemma LevelBound(recs: seq<Rec>, r: Rec, n: nat)
    requires r in recs && Level(recs, r, n)
    ensures n < |recs|
  {
    var s := Ancestors(recs, r, n);
    SubsetSmaller(s, SetOf(recs));
    SetOfSmall(recs);
  }

  /** A chain that ends at all ends within the number of rows. */
  lemma GroundedSoon(recs: seq<Rec>, r: Rec)
    requires r in recs
    ensures Grounded(recs, r) <==> EndsWithin(recs, r, |recs|)
  {
    if Grounded(recs, r) {
      var n: nat :| EndsWithin(recs, r, n);
      var m := EndsAtLevel(recs, r, n);
      LevelBound(recs, r, m);
      LevelEnds(recs, r, m, |recs|);
    }
  }

  // ---- counting occurrences upwards ----

  /** Occurrences counted on the rows themselves. */
  function Count(recs: seq<Rec>, list: seq<Rec>, depth: nat, x: Rec): nat
    decreases depth, |list|
  {
    if list == [] then 0
    else
      One(list[0] == x)
      + (if depth == 0 then 0 else Count(recs, Kids(recs, Some(list[0].id)), depth - 1, x))
      + Count(recs, list[1..], depth, x)
  }

  lemma {:induction false} CountIs(recs: seq<Rec>, list: seq<Rec>, depth: nat, x: Rec)
    ensures Occurrences(GrowAll(recs, list, depth), x) == Count(recs, list, depth, x)
    decreases depth, |list|
  {
    if list != [] {
      var grown := GrowAll(recs, list, depth);
      CountIs(recs, list[1..], depth, x);
      assert grown[1..] == GrowAll(recs, list[1..], depth);
      if depth > 0 {
        CountIs(recs, Kids(recs, Some(list[0].id)), depth - 1, x);
      } else {
        assert grown[0].children == [] && Occurrences(grown[0].children, x) == 0;
      }
    }
  }

  lemma {:induction false} UniqueKids(recs: seq<Rec>, parent: Option<int>)
    requires UniqueIds(recs)
    ensures UniqueIds(Kids(recs, parent))
  {
    if recs != [] {
      UniqueKids(recs[1..], parent);
      forall r | r in Kids(recs[1..], parent)
        ensures r.id != recs[0].id
      {
        KidsMember(recs[1..], parent, r);
        var k :| 0 <= k < |recs[1..]| && recs[1..][k] == r;
        assert recs[k + 1] == r;
      }
    }
  }

  lemma {:induction false} UniqueRoots(recs: seq<Rec>, all: seq<Rec>)
    requires UniqueIds(recs)
    ensures UniqueIds(Roots(recs, all))
  {
    if recs != [] {
      UniqueRoots(recs[1..], all);
      forall r | r in Roots(recs[1..], all)
        ensures r.id != recs[0].id
      {
        RootsMember(recs[1..], all, r);
        var k :| 0 <= k < |recs[1..]| && recs[1..][k] == r;
        assert recs[k + 1] == r;
      }
    }
  }

  /** At the top, a list of distinct rows counts each of its rows once. */
  lemma {:induction false} CountTop(recs: seq<Rec>, list: seq<Rec>, x: Rec)
    requires UniqueIds(list)
    ensures Count(recs, list, 0, x) == One(x in list)
    decreases |list|
  {
    if list != [] {
      CountTop(recs, list[1..], x);
    }
  }

  lemma HeadOnce(list: seq<Rec>, x: Rec)
    requires UniqueIds(list) && list != []
    ensures UniqueIds(list[1..])
    ensures One(x in list) == One(x == list[0]) + One(x in list[1..])
  {
    assert list == [list[0]] + list[1..];
  }

  ghost predicate Among(list: seq<Rec>, recs: seq<Rec>) {
    forall r :: r in list ==> r in recs
  }

  lemma KidsAmong(recs: seq<Rec>, parent: Option<int>)
    ensures Among(Kids(recs, parent), recs)
  {
    KidsMembers(recs, parent);
  }

  lemma NoOrphanKid(recs: seq<Rec>, r: Rec, x: Rec)
    requires UniqueIds(recs) && r in recs && ParentOf(recs, x).None?
    ensures x !in Kids(recs, Some(r.id))
  {
    LookupIs(recs, r);
    KidsMember(recs, Some(r.id), x);
  }

  lemma KidOfParent(recs: seq<Rec>, r: Rec, x: Rec, p: Rec)
    requires UniqueIds(recs) && r in recs && x in recs && ParentOf(recs, x) == Some(p)
    ensures x in Kids(recs, Some(r.id)) <==> p == r
  {
    LookupIs(recs, r);
    KidsMember(recs, Some(r.id), x);
  }

  /** Occurrences strictly below a row. */
  function Below(recs: seq<Rec>, r: Rec, depth: nat, x: Rec): nat {
    if depth == 0 then 0 else Count(recs, Kids(recs, Some(r.id)), depth - 1, x)
  }

  lemma CountStep(recs: seq<Rec>, list: seq<Rec>, depth: nat, x: Rec)
    requires list != []
    ensures Count(recs, list, depth, x) ==
            One(list[0] == x) + Below(recs, list[0], depth, x) + Count(recs, list[1..], depth, x)
  {
  }

  /** A row without a known parent occurs only as the root of a tree. */
  lemma {:induction false} CountOrphan(recs: seq<Rec>, list: seq<Rec>, depth: nat, x: Rec)
    requires UniqueIds(list) && UniqueIds(recs) && ParentOf(recs, x).None? && Among(list, recs)
    ensures Count(recs, list, depth, x) == One(x in list)
    decreases depth, |list|
  {
    if list != [] {
      HeadOnce(list, x);
      CountStep(recs, list, depth, x);
      CountOrphan(recs, list[1..], depth, x);
      if depth > 0 {
        OrphanBelow(recs, list[0], depth, x);
      }
    }
  }

  lemma {:induction false} OrphanBelow(recs: seq<Rec>, r: Rec, depth: nat, x: Rec)
    requires UniqueIds(recs) && r in recs && ParentOf(recs, x).None? && depth > 0
    ensures Below(recs, r, depth, x) == 0
    decreases depth, 0
  {
    NoOrphanKid(recs, r, x);
    UniqueKids(recs, Some(r.id));
    KidsAmong(recs, Some(r.id));
    CountOrphan(recs, Kids(recs, Some(r.id)), depth - 1, x);
  }

  /** A row with a known parent occurs as a root, and below every occurrence of its parent. */
  lemma {:induction false} CountUp(recs: seq<Rec>, list: seq<Rec>, depth: nat, x: Rec, p: Rec)
    requires UniqueIds(recs) && UniqueIds(list) && Among(list, recs)
    requires x in recs && ParentOf(recs, x) == Some(p) && depth > 0
    ensures Count(recs, list, depth, x) == One(x in list) + Count(recs, list, depth - 1, p)
    decreases depth, |list|
  {
    if list != [] {
      HeadOnce(list, x);
      CountStep(recs, list, depth, x);
      CountStep(recs, list, depth - 1, p);
      CountUpBelow(recs, list[0], depth, x, p);
      CountUp(recs, list[1..], depth, x, p);
    }
  }

  lemma {:induction false} CountUpBelow(recs: seq<Rec>, r: Rec, depth: nat, x: Rec, p: Rec)
    requires UniqueIds(recs) && r in recs && x in recs && ParentOf(recs, x) == Some(p) && depth > 0
    ensures Below(recs, r, depth, x) == One(r == p) + Below(recs, r, depth - 1, p)
    decreases depth, 0
  {
    BelowIsKids(recs, r, Kids(recs, Some(r.id)), depth, x);
    BelowIsKids(recs, r, Kids(recs, Some(r.id)), depth - 1, p);
    CountKids(recs, r, Kids(recs, Some(r.id)), depth - 1, x, p);
  }

  lemma BelowIsKids(recs: seq<Rec>, r: Rec, kids: seq<Rec>, depth: nat, x: Rec)
    requires kids == Kids(recs, Some(r.id))
    ensures Below(recs, r, depth, x) == if depth == 0 then 0 else Count(recs, kids, depth - 1, x)
  {
  }

  lemma KidsReady(recs: seq<Rec>, r: Rec, x: Rec, p: Rec)
    requires UniqueIds(recs) && r in recs && x in recs && ParentOf(recs, x) == Some(p)
    ensures var kids := Kids(recs, Some(r.id));
            UniqueIds(kids) && Among(kids, recs) && (x in kids <==> p == r)
  {
    UniqueKids(recs, Some(r.id));
    KidsAmong(recs, Some(r.id));
    KidOfParent(recs, r, x, p);
  }

  lemma {:induction false} CountKids(recs: seq<Rec>, r: Rec, kids: seq<Rec>, depth: nat, x: Rec, p: Rec)
    requires UniqueIds(recs) && r in recs && kids == Kids(recs, Some(r.id))
    requires x in recs && ParentOf(recs, x) == Some(p)
    ensures Count(recs, kids, depth, x) == One(r == p) + if depth == 0 then 0 else Count(recs, kids, depth - 1, p)
    decreases depth, |kids| + 1
  {
    KidsReady(recs, r, x, p);
    if depth == 0 {
      CountTop(recs, kids, x);
    } else {
      CountUp(recs, kids, depth, x, p);
    }
  }

  /** The rows of a list are those without a known parent. */
  ghost predicate AreRoots(recs: seq<Rec>, roots: seq<Rec>) {
    forall r {:trigger r in roots} :: r in recs ==> (r in roots <==> ParentOf(recs, r).None?)
  }

  lemma {:induction false} CountRoots(recs: seq<Rec>, roots: seq<Rec>, depth: nat, x: Rec)
    requires UniqueIds(recs) && UniqueIds(roots) && Among(roots, recs) && AreRoots(recs, roots) && x in recs
    ensures Count(recs, roots, depth, x) == One(EndsWithin(recs, x, depth))
    decreases depth
  {
    match ParentOf(recs, x)
    case None => CountOrphan(recs, roots, depth, x);
    case Some(p) =>
      if depth == 0 {
        CountTop(recs, roots, x);
      } else {
        CountUp(recs, roots, depth, x, p);
        CountRoots(recs, roots, depth - 1, p);
      }
  }

  /** The forest of the roots, cut at a depth, holds exactly the rows whose chain ends that soon. */
  lemma CountForest(recs: seq<Rec>, depth: nat, x: Rec)
    requires UniqueIds(recs) && x in recs
    ensures Count(recs, Roots(recs, recs), depth, x) == One(EndsWithin(recs, x, depth))
  {
    RootsAmong(recs);
    forall r | r in recs
      ensures r in Roots(recs, recs) <==> ParentOf(recs, r).None?
    {
      RootsMember(recs, recs, r);
    }
    CountRoots(recs, Roots(recs, recs), depth, x);
  }

  lemma RootsAmong(recs: seq<Rec>)
    requires UniqueIds(recs)
    ensures UniqueIds(Roots(recs, recs)) && Among(Roots(recs, recs), recs)
  {
    UniqueRoots(recs, recs);
    RootsMembers(recs, recs);
  }

  /**
    In the linked forest a row occurs exactly once when its chain of parents ends, at a null
    link or at a missing id, and not at all when the chain runs into a cycle.
  */
  lemma ForestHoldsGrounded(recs: seq<Rec>, x: Rec)
    requires UniqueIds(recs) && x in recs
    ensures Occurrences(Forest(recs), x) == if Grounded(recs, x) then 1 else 0
  {
    CountIs(recs, Roots(recs, recs), |recs|, x);
    CountForest(recs, |recs|, x);
    GroundedSoon(recs, x);
  }

  // ---- the cut-off loses nothing ----

  ghost predicate AllAtLevel(recs: seq<Rec>, list: seq<Rec>, n: nat) {
    forall r :: r in list ==> r in recs && Level(recs, r, n)
  }

  lemma KidsLevel(recs: seq<Rec>, r: Rec, n: nat)
    requires UniqueIds(recs) && r in recs && Level(recs, r, n)
    ensures AllAtLevel(recs, Kids(recs, Some(r.id)), n + 1)
  {
    LookupIs(recs, r);
    KidsMembers(recs, Some(r.id));
  }

  lemma {:induction false} GrowStable(recs: seq<Rec>, list: seq<Rec>, n: nat, depth: nat)
    requires UniqueIds(recs) && n + depth + 1 >= |recs| && AllAtLevel(recs, list, n)
    ensures GrowAll(recs, list, depth) == GrowAll(recs, list, depth + 1)
    decreases depth, |list|
  {
    if list != [] {
      assert list[0] in list;
      GrowStableOne(recs, list[0], n, depth);
      GrowStable(recs, list[1..], n, depth);
    }
  }

  lemma {:induction false} GrowStableOne(recs: seq<Rec>, r: Rec, n: nat, depth: nat)
    requires UniqueIds(recs) && n + depth + 1 >= |recs| && r in recs && Level(recs, r, n)
    ensures Grow(recs, r, depth) == Grow(recs, r, depth + 1)
    decreases depth, 0
  {
    var kids := Kids(recs, Some(r.id));
    KidsLevel(recs, r, n);
    if depth > 0 {
      GrowStable(recs, kids, n + 1, depth - 1);
    } else if kids != [] {
      assert kids[0] in kids;
      LevelBound(recs, kids[0], n + 1);
    }
  }

  /** Following the links further than the number of rows finds nothing new. */
  lemma {:induction false} ForestComplete(recs: seq<Rec>, more: nat)
    requires UniqueIds(recs)
    ensures GrowAll(recs, Roots(recs, recs), |recs| + more) == Forest(recs)
  {
    if more > 0 {
      ForestComplete(recs, more - 1);
      RootsMembers(recs, recs);
      GrowStable(recs, Roots(recs, recs), 0, |recs| + more - 1);
    }
  }

  // ---- the recursive builder ----

  /** What the recursive builder returns below a parent, or None when it exceeds the recursion limit. */
  function Recursive(recs: seq<Rec>, parent: Option<int>, limit: nat): Option<seq<Tree>>
    decreases limit, 1, 0
  {
    if limit == 0 then None else RecursiveAll(recs, Kids(recs, parent), limit - 1)
  }

  function RecursiveAll(recs: seq<Rec>, list: seq<Rec>, limit: nat): (r: Option<seq<Tree>>)
    ensures r.Some? ==> |r.value| == |list|
    decreases limit, 2, |list|
  {
    if list == [] then Some([])
    else
      var below, rest := Recursive(recs, Some(list[0].id), limit), RecursiveAll(recs, list[1..], limit);
      if below.None? || rest.None? then None else Some([Tree(list[0], below.value)] + rest.value)
  }

  /** The `n`-th ancestor of an id. */
  function Up(recs: seq<Rec>, id: int, n: nat): Option<int>
    decreases n
  {
    if n == 0 then Some(id)
    else
      var r := Lookup(recs, id);
      if r.None? || r.value.parent.None? then None else Up(recs, r.value.parent.value, n - 1)
  }

  ghost predicate OnCycle(recs: seq<Rec>, id: int) {
    exists n: nat :: n > 0 && Up(recs, id, n) == Some(id)
  }

  lemma {:induction false} UpStep(recs: seq<Rec>, id: int, m: nat, n: nat)
    ensures Up(recs, id, m).Some? ==> Up(recs, id, m + n) == Up(recs, Up(recs, id, m).value, n)
    decreases m
  {
    if m > 0 && Up(recs, id, m).Some? {
      UpStep(recs, Lookup(recs, id).value.parent.value, m - 1, n);
    }
  }

  lemma {:induction false} UpDefined(recs: seq<Rec>, id: int, m: nat, n: nat)
    requires m <= n && Up(recs, id, n).Some?
    ensures Up(recs, id, m).Some?
    decreases m
  {
    if m > 0 {
      UpDefined(recs, Lookup(recs, id).value.parent.value, m - 1, n - 1);
    }
  }

  /** On a cycle there is a child on the cycle too. */
  lemma CycleChild(recs: seq<Rec>, id: int) returns (r: Rec)
    requires UniqueIds(recs) && OnCycle(recs, id)
    ensures r in Kids(recs, Some(id)) && OnCycle(recs, r.id)
  {
    var n: nat :| n > 0 && Up(recs, id, n) == Some(id);
    UpDefined(recs, id, n - 1, n);
    var child := Up(recs, id, n - 1).value;
    UpStep(recs, id, n - 1, 1);
    UpStep(recs, child, 1, n - 1);
    r := Lookup(recs, child).value;
    assert Up(recs, child, 1) == Some(id);
    assert Up(recs, child, n) == Some(child);
    KidsMember(recs, Some(id), r);
  }

  /** So the recursion never ends. */
  lemma {:induction false} CycleDiverges(recs: seq<Rec>, id: int, limit: nat)
    requires UniqueIds(recs) && OnCycle(recs, id)
    ensures Recursive(recs, Some(id), limit).None?
    decreases limit
  {
    if limit > 0 {
      var r := CycleChild(recs, id);
      CycleDiverges(recs, r.id, limit - 1);
      ListDiverges(recs, Kids(recs, Some(id)), limit - 1, r);
    }
  }

  lemma {:induction false} ListDiverges(recs: seq<Rec>, list: seq<Rec>, limit: nat, r: Rec)
    requires r in list && Recursive(recs, Some(r.id), limit).None?
    ensures RecursiveAll(recs, list, limit).None?
    decreases |list|
  {
    if list[0] != r {
      ListDiverges(recs, list[1..], limit, r);
    }
  }

  /** The parent of a chain's first row, or the row before a later one. */
  function Before(parent: Option<int>, chain: seq<Rec>, k: nat): Option<int>
    requires k <= |chain|
  {
    if k == 0 then parent else Some(chain[k - 1].id)
  }

  /** Rows leading down from a parent, each the child of the one before. */
  ghost predicate Chain(recs: seq<Rec>, parent: Option<int>, chain: seq<Rec>) {
    && (forall k :: 0 <= k < |chain| ==> chain[k] in recs)
    && (forall k {:trigger Before(parent, chain, k)} :: 0 <= k < |chain| ==>
        chain[k].parent == Before(parent, chain, k))
  }

  lemma ChainCons(recs: seq<Rec>, parent: Option<int>, r: Rec, rest: seq<Rec>)
    requires r in recs && r.parent == parent && Chain(recs, Some(r.id), rest)
    ensures Chain(recs, parent, [r] + rest)
  {
    var chain := [r] + rest;
    forall k | 0 <= k < |chain|
      ensures chain[k].parent == Before(parent, chain, k)
    {
      if k > 0 {
        assert rest[k - 1].parent == Before(Some(r.id), rest, k - 1);
      }
    }
  }

  /** A recursion that exceeds its limit has walked down a chain of that length. */
  lemma {:induction false} DeepChain(recs: seq<Rec>, parent: Option<int>, limit: nat) returns (chain: seq<Rec>)
    requires Recursive(recs, parent, limit).None?
    ensures |chain| == limit && Chain(recs, parent, chain)
    decreases limit, 1, 0
  {
    if limit == 0 {
      chain := [];
    } else {
      KidsMembers(recs, parent);
      chain := DeepList(recs, parent, Kids(recs, parent), limit - 1);
    }
  }

  lemma {:induction false} DeepList(recs: seq<Rec>, parent: Option<int>, list: seq<Rec>, limit: nat)
    returns (chain: seq<Rec>)
    requires RecursiveAll(recs, list, limit).None?
    requires forall r :: r in list ==> r in recs && r.parent == parent
    ensures |chain| == limit + 1 && Chain(recs, parent, chain)
    decreases limit, 2, |list|
  {
    if Recursive(recs, Some(list[0].id), limit).None? {
      var rest := DeepChain(recs, Some(list[0].id), limit);
      assert list[0] in list;
      ChainCons(recs, parent, list[0], rest);
      chain := [list[0]] + rest;
    } else {
      chain := DeepList(recs, parent, list[1..], limit);
    }
  }

  /** More positions than rows: two positions hold the same row. */
  lemma {:induction false} Repeats(recs: seq<Rec>, chain: seq<Rec>) returns (a: nat, b: nat)
    requires |chain| > |recs| && forall k :: 0 <= k < |chain| ==> chain[k] in recs
    ensures a < b < |chain| && chain[a] == chain[b]
  {
    if forall i, j :: 0 <= i < j < |chain| ==> chain[i] != chain[j] {
      DistinctSize(chain);
      SubsetSmaller(SetOf(chain), SetOf(recs));
      SetOfSmall(recs);
      assert false;
    }
    a, b :| 0 <= a < b < |chain| && chain[a] == chain[b];
  }

  lemma {:induction false} DistinctSize<T>(s: seq<T>)
    requires forall i, j :: 0 <= i < j < |s| ==> s[i] != s[j]
    ensures |SetOf(s)| == |s|
  {
    if s != [] {
      DistinctSize(s[1..]);
      assert SetOf(s) == {s[0]} + SetOf(s[1..]);
    }
  }

  /** Two equal ids in a chain of rows make the ids above them equal, all the way to the top. */
  lemma {:induction false} RepeatRises(recs: seq<Rec>, parent: Option<int>, chain: seq<Rec>, a: nat, b: nat)
    requires UniqueIds(recs) && Chain(recs, parent, chain)
    requires a < b <= |chain| && Before(parent, chain, a) == Before(parent, chain, b)
    ensures parent == Before(parent, chain, b - a)
    decreases a
  {
    if a > 0 {
      SameIdSameRow(recs, chain[a - 1], chain[b - 1]);
      RepeatRises(recs, parent, chain, a - 1, b - 1);
    }
  }

  lemma {:induction false} ChainUp(recs: seq<Rec>, parent: Option<int>, chain: seq<Rec>, n: nat)
    requires UniqueIds(recs) && Chain(recs, parent, chain) && n <= |chain| && parent.Some?
    ensures Up(recs, Before(parent, chain, n).value, n) == parent
    decreases n
  {
    if n > 0 {
      LookupIs(recs, chain[n - 1]);
      ChainUp(recs, parent, chain, n - 1);
    }
  }

  lemma SameIdSameRow(recs: seq<Rec>, x: Rec, y: Rec)
    requires UniqueIds(recs) && x in recs && y in recs && x.id == y.id
    ensures x == y
  {
    LookupIs(recs, x);
    LookupIs(recs, y);
  }

  lemma ChainCycles(recs: seq<Rec>, parent: Option<int>, chain: seq<Rec>, n: nat)
    requires UniqueIds(recs) && Chain(recs, parent, chain) && 0 < n <= |chain|
    requires parent == Before(parent, chain, n)
    ensures parent.Some? && OnCycle(recs, parent.value)
  {
    ChainUp(recs, parent, chain, n);
  }

  /** A chain longer than the list climbs back to its own starting point. */
  lemma LongChainCycles(recs: seq<Rec>, parent: Option<int>, chain: seq<Rec>)
    requires UniqueIds(recs) && Chain(recs, parent, chain) && |chain| == |recs| + 1
    ensures parent.Some? && OnCycle(recs, parent.value)
  {
    var a, b := Repeats(recs, chain);
    RepeatRises(recs, parent, chain, a + 1, b + 1);
    ChainCycles(recs, parent, chain, b - a);
  }

  lemma DeepMeansCycle(recs: seq<Rec>, parent: Option<int>, limit: nat)
    requires UniqueIds(recs) && limit == |recs| + 1 && Recursive(recs, parent, limit).None?
    ensures parent.Some? && OnCycle(recs, parent.value)
  {
    var chain := DeepChain(recs, parent, limit);
    LongChainCycles(recs, parent, chain);
  }

  ghost predicate Returns(recs: seq<Rec>, parent: Option<int>) {
    exists limit: nat :: Recursive(recs, parent, limit).Some?
  }

  lemma CycleNeverReturns(recs: seq<Rec>, id: int)
    requires UniqueIds(recs) && OnCycle(recs, id)
    ensures !Returns(recs, Some(id))
  {
    forall limit: nat
      ensures Recursive(recs, Some(id), limit).None?
    {
      CycleDiverges(recs, id, limit);
    }
  }

  /**
    The recursive builder returns from a parent, under some recursion limit, exactly when that
    parent is not on a cycle of parent links; the number of rows plus one is then limit enough.
  */
  lemma RecursiveTerminates(recs: seq<Rec>, parent: Option<int>, limit: nat)
    requires UniqueIds(recs) && limit == |recs| + 1
    ensures Returns(recs, parent) <==> parent.None? || !OnCycle(recs, parent.value)
    ensures Returns(recs, parent) ==> Recursive(recs, parent, limit).Some?
  {
    if Recursive(recs, parent, limit).None? {
      DeepMeansCycle(recs, parent, limit);
    }
    if parent.Some? && OnCycle(recs, parent.value) {
      CycleNeverReturns(recs, parent.value);
    }
  }

  /** When the recursion returns, it returns the trees of the parent's children. */
  lemma {:induction false} RecursiveGrows(recs: seq<Rec>, parent: Option<int>, limit: nat, depth: nat)
    requires Recursive(recs, parent, limit).Some? && depth + 1 >= limit
    ensures Recursive(recs, parent, limit).value == GrowAll(recs, Kids(recs, parent), depth)
    decreases limit, 1, 0
  {
    RecursiveListGrows(recs, Kids(recs, parent), limit - 1, depth);
  }

  lemma {:induction false} RecursiveListGrows(recs: seq<Rec>, list: seq<Rec>, limit: nat, depth: nat)
    requires RecursiveAll(recs, list, limit).Some? && depth >= limit
    ensures RecursiveAll(recs, list, limit).value == GrowAll(recs, list, depth)
    decreases limit, 2, |list|
  {
    if list != [] {
      var below := Recursive(recs, Some(list[0].id), limit);
      RecursiveGrows(recs, Some(list[0].id), limit, depth - 1);
      assert Grow(recs, list[0], depth) == Tree(list[0], below.value);
      RecursiveListGrows(recs, list[1..], limit, depth);
    }
  }

  /** A row whose parent link points at no row of the list. */
  ghost predicate NoOrphans(recs: seq<Rec>) {
    forall r :: r in recs && r.parent.Some? ==> ParentOf(recs, r).Some?
  }

  lemma {:induction false} RootsAreTopKids(recs: seq<Rec>, all: seq<Rec>)
    ensures |Kids(recs, None)| <= |Roots(recs, all)|
    ensures (forall r :: r in recs && r.parent.Some? ==> ParentOf(all, r).Some?) ==>
            Roots(recs, all) == Kids(recs, None)
    ensures |Roots(recs, all)| == |Kids(recs, None)| ==>
            forall r :: r in recs && r.parent.Some? ==> ParentOf(all, r).Some?
  {
    if recs != [] {
      RootsAreTopKids(recs[1..], all);
      assert recs == [recs[0]] + recs[1..];
    }
  }

  /** The two builders agree, from the top, exactly on lists without orphans. */
  lemma BuildersAgree(recs: seq<Rec>)
    requires UniqueIds(recs)
    ensures Recursive(recs, None, |recs| + 1).Some?
    ensures Recursive(recs, None, |recs| + 1).value == Forest(recs) <==> NoOrphans(recs)
  {
    RecursiveTerminates(recs, None, |recs| + 1);
    RecursiveGrows(recs, None, |recs| + 1, |recs|);
    RootsAreTopKids(recs, recs);
  }
}
