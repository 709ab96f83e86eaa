/**
  The stable sort the tree builders run first.  The result of a stable sort is unique, so the
  insertion order below stands for whatever stable algorithm the language runs.
*/
module StableSort {
  import opened Options
  import opened Forests

  function Insert(r: Rec, list: seq<Rec>): seq<Rec> {
    if list == [] || r.sort <= list[0].sort then [r] + list else [list[0]] + Insert(r, list[1..])
  }

  function Sort(recs: seq<Rec>): seq<Rec> {
    if recs == [] then [] else Insert(recs[0], Sort(recs[1..]))
  }

  /** The rows with one sort value, in list order. */
  function WithSort(recs: seq<Rec>, v: int): seq<Rec> {
    if recs == [] then [] else (if recs[0].sort == v then [recs[0]] else []) + WithSort(recs[1..], v)
  }

  ghost predicate Ascending(recs: seq<Rec>) {
    forall a, b :: 0 <= a < b < |recs| ==> recs[a].sort <= recs[b].sort
  }

  /** A stable ascending rearrangement: ascending, and equal sort values keep their order. */
  ghost predicate StablySorts(sorted: seq<Rec>, recs: seq<Rec>) {
    Ascending(sorted) && forall v :: WithSort(sorted, v) == WithSort(recs, v)
  }

  lemma {:induction false} InsertAscends(r: Rec, list: seq<Rec>)
    requires Ascending(list)
    ensures Ascending(Insert(r, list)) && Insert(r, list) != []
    ensures Insert(r, list)[0] == r || (list != [] && Insert(r, list)[0] == list[0])
  {
    if list != [] && r.sort > list[0].sort {
      InsertAscends(r, list[1..]);
      AscendingCons(list[0], Insert(r, list[1..]));
    }
  }

  lemma AscendingCons(r: Rec, list: seq<Rec>)
    requires Ascending(list) && (list != [] ==> r.sort <= list[0].sort)
    ensures Ascending([r] + list)
  {
  }

  lemma {:induction false} InsertKeepsOrder(r: Rec, list: seq<Rec>, v: int)
    ensures WithSort(Insert(r, list), v) == (if r.sort == v then [r] else []) + WithSort(list, v)
  {
    if list != [] && r.sort > list[0].sort {
      InsertKeepsOrder(r, list[1..], v);
      var rest := WithSort(list[1..], v);
      assert ([list[0]] + Insert(r, list[1..]))[1..] == Insert(r, list[1..]);
      assert list[0].sort != v ==> [] + rest == rest;
    } else {
      assert ([r] + list)[1..] == list;
    }
  }

  lemma {:induction false} SortIsStable(recs: seq<Rec>)
    ensures StablySorts(Sort(recs), recs)
  {
    if recs != [] {
      SortIsStable(recs[1..]);
      InsertAscends(recs[0], Sort(recs[1..]));
      forall v
        ensures WithSort(Sort(recs), v) == WithSort(recs, v)
      {
        InsertKeepsOrder(recs[0], Sort(recs[1..]), v);
      }
    }
  }

  lemma {:induction false} HeadOfAscending(a: seq<Rec>)
    requires a != [] && Ascending(a)
    ensures WithSort(a, a[0].sort) != [] && WithSort(a, a[0].sort)[0] == a[0]
    ensures forall v :: v < a[0].sort ==> WithSort(a, v) == []
  {
    forall v | v < a[0].sort
      ensures WithSort(a, v) == []
    {
      NoneBelow(a, v);
    }
  }

  lemma {:induction false} NoneBelow(a: seq<Rec>, v: int)
    requires forall k :: 0 <= k < |a| ==> v < a[k].sort
    ensures WithSort(a, v) == []
  {
    if a != [] {
      NoneBelow(a[1..], v);
    }
  }

  lemma SameHead(a: seq<Rec>, b: seq<Rec>)
    requires Ascending(a) && Ascending(b) && forall v :: WithSort(a, v) == WithSort(b, v)
    ensures a == [] <==> b == []
    ensures a != [] ==> a[0] == b[0]
  {
    if a != [] {
      HeadOfAscending(a);
      assert WithSort(b, a[0].sort) != [];
    }
    if b != [] {
      HeadOfAscending(b);
      assert WithSort(a, b[0].sort) != [];
    }
  }

  lemma {:induction false} StableSortUnique(a: seq<Rec>, b: seq<Rec>)
    requires Ascending(a) && Ascending(b) && forall v :: WithSort(a, v) == WithSort(b, v)
    ensures a == b
  {
    SameHead(a, b);
    if a != [] {
      forall v
        ensures WithSort(a[1..], v) == WithSort(b[1..], v)
      {
        var head := if a[0].sort == v then 1 else 0;
        assert WithSort(a, v)[head..] == WithSort(a[1..], v);
        assert WithSort(b, v)[head..] == WithSort(b[1..], v);
      }
      StableSortUnique(a[1..], b[1..]);
      assert a == [a[0]] + a[1..] && b == [b[0]] + b[1..];
    }
  }

  /** Any stable ascending rearrangement is the sort. */
  lemma SortIsUnique(recs: seq<Rec>, sorted: seq<Rec>)
    requires StablySorts(sorted, recs)
    ensures sorted == Sort(recs)
  {
    SortIsStable(recs);
    StableSortUnique(sorted, Sort(recs));
  }

  // ---- siblings ----

  lemma {:induction false} KidsOfInsert(r: Rec, list: seq<Rec>, parent: Option<int>)
    requires Ascending(list)
    ensures Kids(Insert(r, list), parent) ==
            if r.parent == parent then Insert(r, Kids(list, parent)) else Kids(list, parent)
  {
    if list != [] && r.sort > list[0].sort {
      KidsOfInsert(r, list[1..], parent);
      var kids := Kids(list[1..], parent);
      assert ([list[0]] + Insert(r, list[1..]))[1..] == Insert(r, list[1..]);
      assert list[0].parent == parent ==> Kids(list, parent)[1..] == kids;
      assert list[0].parent != parent ==> Kids(list, parent) == kids;
    } else {
      assert ([r] + list)[1..] == list;
      KidsAbove(list, parent, r.sort);
    }
  }

  lemma {:induction false} KidsAbove(list: seq<Rec>, parent: Option<int>, v: int)
    requires forall k :: 0 <= k < |list| ==> v <= list[k].sort
    ensures Kids(list, parent) != [] ==> v <= Kids(list, parent)[0].sort
  {
    if list != [] {
      KidsAbove(list[1..], parent, v);
      if list[0].parent != parent {
        assert Kids(list, parent) == Kids(list[1..], parent);
      }
    }
  }

  /** Sorting the whole table sorts every sibling list, stably. */
  lemma {:induction false} SiblingsSorted(recs: seq<Rec>, parent: Option<int>)
    ensures Kids(Sort(recs), parent) == Sort(Kids(recs, parent))
  {
    if recs != [] {
      SiblingsSorted(recs[1..], parent);
      SortIsStable(recs[1..]);
      KidsOfInsert(recs[0], Sort(recs[1..]), parent);
      var rest := Kids(recs[1..], parent);
      if recs[0].parent == parent {
        assert Kids(recs, parent)[1..] == rest;
      } else {
        assert Kids(recs, parent) == rest;
      }
    }
  }

  lemma {:induction false} InsertMembers(r: Rec, list: seq<Rec>)
    ensures multiset(Insert(r, list)) == multiset{r} + multiset(list)
  {
    if list != [] && r.sort > list[0].sort {
      InsertMembers(r, list[1..]);
      assert list == [list[0]] + list[1..];
    }
  }

  lemma {:induction false} SortMembers(recs: seq<Rec>)
    ensures multiset(Sort(recs)) == multiset(recs)
  {
    if recs != [] {
      SortMembers(recs[1..]);
      InsertMembers(recs[0], Sort(recs[1..]));
      assert recs == [recs[0]] + recs[1..];
    }
  }

  lemma {:induction false} UniqueByCount(recs: seq<Rec>)
    ensures UniqueIds(recs) <==>
            forall x, y :: x in multiset(recs) && y in multiset(recs) && x.id == y.id ==>
              x == y && multiset(recs)[x] == 1
  {
    if UniqueIds(recs) {
      forall x, y | x in multiset(recs) && y in multiset(recs) && x.id == y.id
        ensures x == y && multiset(recs)[x] == 1
      {
        SameIdSameRow(recs, x, y);
        CountOnce(recs, x);
      }
    } else {
      var a, b :| 0 <= a < b < |recs| && recs[a].id == recs[b].id;
      assert recs[a] in multiset(recs) && recs[b] in multiset(recs);
      if recs[a] == recs[b] {
        assert recs == recs[..b] + recs[b..];
        assert recs[a] in recs[..b] && recs[a] in recs[b..];
      }
    }
  }

  lemma {:induction false} CountOnce(recs: seq<Rec>, x: Rec)
    requires UniqueIds(recs)
    ensures multiset(recs)[x] <= 1
  {
    if recs != [] {
      assert recs == [recs[0]] + recs[1..];
      HeadOnce(recs, x);
      CountOnce(recs[1..], x);
    }
  }

  lemma SortUniqueIds(recs: seq<Rec>)
    requires UniqueIds(recs)
    ensures UniqueIds(Sort(recs)) && |Sort(recs)| == |recs|
  {
    SortMembers(recs);
    UniqueByCount(recs);
    UniqueByCount(Sort(recs));
    assert |multiset(Sort(recs))| == |multiset(recs)|;
  }
}
