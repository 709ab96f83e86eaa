/**
  The two tree builders on the heap: node dictionaries whose `children` lists are filled in
  place, by one linking loop or by recursion, proved against the forest of Forests.
*/
module TreeBuild {
  import opened Options
  import opened Forests
  import opened StableSort

  /** A node dictionary; its `children` key is absent exactly when the list is empty here. */
  class Node {
    const rec: Rec
    var children: seq<Node>

    constructor (rec: Rec)
      ensures this.rec == rec && children == []
    {
      this.rec := rec;
      children := [];
    }
  }

  function Recs(nodes: seq<Node>): (r: seq<Rec>)
    ensures |r| == |nodes|
    ensures forall k :: 0 <= k < |nodes| ==> r[k] == nodes[k].rec
  {
    seq(|nodes|, k requires 0 <= k < |nodes| => nodes[k].rec)
  }

  ghost function Objects(nodes: seq<Node>): set<Node> {
    set n | n in nodes
  }

  ghost predicate Within(list: seq<Node>, all: set<Node>) {
    forall n :: n in list ==> n in all
  }

  /** The `children` lists as a value; what a caller sees by following them is a function of it. */
  ghost function Links(nodes: seq<Node>): map<Node, seq<Node>>
    reads Objects(nodes)
  {
    map n | n in nodes :: n.children
  }

  ghost function Show(links: map<Node, seq<Node>>, n: Node, depth: nat): Tree
    decreases depth, 0, 1
  {
    Tree(n.rec, if depth == 0 || n !in links then [] else ShowAll(links, links[n], depth - 1))
  }

  ghost function ShowAll(links: map<Node, seq<Node>>, list: seq<Node>, depth: nat): seq<Tree>
    decreases depth, 1, |list|
  {
    if list == [] then [] else [Show(links, list[0], depth)] + ShowAll(links, list[1..], depth)
  }

  function IfChild(r: Rec, parent: Option<int>): seq<Rec> {
    if r.parent == parent then [r] else []
  }

  lemma KidsCons(r: Rec, rest: seq<Rec>, parent: Option<int>)
    ensures Kids([r] + rest, parent) == IfChild(r, parent) + Kids(rest, parent)
  {
    assert ([r] + rest)[1..] == rest;
  }

  lemma {:induction false} KidsAppend(recs: seq<Rec>, r: Rec, parent: Option<int>)
    ensures Kids(recs + [r], parent) == Kids(recs, parent) + IfChild(r, parent)
  {
    if recs == [] {
      assert [] + [r] == [r] + [];
      KidsCons(r, [], parent);
    } else {
      assert recs == [recs[0]] + recs[1..];
      assert recs + [r] == [recs[0]] + (recs[1..] + [r]);
      KidsCons(recs[0], recs[1..], parent);
      KidsCons(recs[0], recs[1..] + [r], parent);
      KidsAppend(recs[1..], r, parent);
    }
  }

  lemma {:induction false} RootsAppend(recs: seq<Rec>, r: Rec, all: seq<Rec>)
    ensures Roots(recs + [r], all) == Roots(recs, all) + if ParentOf(all, r).None? then [r] else []
  {
    if recs == [] {
      assert ([] + [r])[1..] == [];
    } else {
      assert (recs + [r])[1..] == recs[1..] + [r];
      RootsAppend(recs[1..], r, all);
    }
  }

  lemma PrefixStep(recs: seq<Rec>, i: nat)
    requires i < |recs|
    ensures recs[..i + 1] == recs[..i] + [recs[i]]
  {
  }

  // ---- in-place linking ----

  /** The first `i` nodes have been linked under their parents. */
  ghost predicate Linked(nodes: seq<Node>, i: nat)
    requires i <= |nodes|
    reads Objects(nodes)
  {
    forall n :: n in nodes ==>
      Recs(n.children) == Kids(Recs(nodes)[..i], Some(n.rec.id)) && Within(n.children, Objects(nodes))
  }

  method Index(nodes: seq<Node>) returns (byId: map<int, Node>)
    requires UniqueIds(Recs(nodes))
    ensures forall id :: id in byId <==> Lookup(Recs(nodes), id).Some?
    ensures forall id :: id in byId ==> byId[id] in nodes && byId[id].rec.id == id
  {
    byId := map[];
    for i := 0 to |nodes|
      invariant forall id :: id in byId ==> byId[id] in nodes && byId[id].rec.id == id
      invariant forall k :: 0 <= k < i ==> nodes[k].rec.id in byId
    {
      byId := byId[nodes[i].rec.id := nodes[i]];
    }
    forall id | id in byId
      ensures Lookup(Recs(nodes), id).Some?
    {
      var k :| 0 <= k < |nodes| && nodes[k] == byId[id];
      LookupIs(Recs(nodes), Recs(nodes)[k]);
    }
  }

  lemma SameIdSameNode(nodes: seq<Node>, n: Node, m: Node)
    requires UniqueIds(Recs(nodes)) && n in nodes && m in nodes && n.rec.id == m.rec.id
    ensures n == m
  {
    var a :| 0 <= a < |nodes| && nodes[a] == n;
    var b :| 0 <= b < |nodes| && nodes[b] == m;
    assert Recs(nodes)[a].id == Recs(nodes)[b].id;
  }

  /** A node is not among nodes drawn from the rows before it. */
  lemma NotEarlier(nodes: seq<Node>, i: nat, list: seq<Node>)
    requires UniqueIds(Recs(nodes)) && i < |nodes| && Among(Recs(list), Recs(nodes)[..i])
    ensures nodes[i] !in list
  {
    forall k | 0 <= k < |list|
      ensures list[k] != nodes[i]
    {
      assert Recs(list)[k] in Recs(list);
      var m :| 0 <= m < i && Recs(nodes)[m] == Recs(list)[k];
      assert Recs(nodes)[m].id != Recs(nodes)[i].id;
    }
  }

  /** The `else` branches: a node without a known parent changes nobody's children. */
  lemma LinkNobody(nodes: seq<Node>, i: nat)
    requires UniqueIds(Recs(nodes)) && i < |nodes| && Linked(nodes, i)
    requires ParentOf(Recs(nodes), nodes[i].rec).None?
    ensures Linked(nodes, i + 1)
  {
    var recs := Recs(nodes);
    PrefixStep(recs, i);
    forall n | n in nodes
      ensures Recs(n.children) == Kids(recs[..i + 1], Some(n.rec.id))
    {
      var k :| 0 <= k < |nodes| && nodes[k] == n;
      LookupIs(recs, recs[k]);
      KidsAppend(recs[..i], recs[i], Some(n.rec.id));
    }
  }

  method Adopt(nodes: seq<Node>, i: nat, parent: Node)
    requires UniqueIds(Recs(nodes)) && i < |nodes| && Linked(nodes, i)
    requires parent in nodes && nodes[i].rec.parent == Some(parent.rec.id)
    modifies parent
    ensures Linked(nodes, i + 1)
  {
    ghost var recs := Recs(nodes);
    KidsMembers(recs[..i], Some(parent.rec.id));
    NotEarlier(nodes, i, parent.children);
    if nodes[i] !in parent.children {
      parent.children := parent.children + [nodes[i]];
    }
    PrefixStep(recs, i);
    forall n | n in nodes
      ensures Recs(n.children) == Kids(recs[..i + 1], Some(n.rec.id)) && Within(n.children, Objects(nodes))
    {
      KidsAppend(recs[..i], recs[i], Some(n.rec.id));
      if n.rec.id == parent.rec.id {
        SameIdSameNode(nodes, n, parent);
      }
    }
  }

  /** The roots among the first `i` nodes have been collected. */
  ghost predicate Rooted(nodes: seq<Node>, i: nat, tree: seq<Node>)
    requires i <= |nodes|
  {
    Recs(tree) == Roots(Recs(nodes)[..i], Recs(nodes)) && Within(tree, Objects(nodes))
  }

  lemma RootedStep(nodes: seq<Node>, i: nat, tree: seq<Node>)
    requires UniqueIds(Recs(nodes)) && i < |nodes| && Rooted(nodes, i, tree)
    ensures nodes[i] !in tree
    ensures if ParentOf(Recs(nodes), nodes[i].rec).None? then Rooted(nodes, i + 1, tree + [nodes[i]])
            else Rooted(nodes, i + 1, tree)
  {
    var recs := Recs(nodes);
    PrefixStep(recs, i);
    RootsAppend(recs[..i], recs[i], recs);
    RootsMembers(recs[..i], recs);
    NotEarlier(nodes, i, tree);
    assert Roots(recs[..i], recs) + [] == Roots(recs[..i], recs);
  }

  method TraversalToTree(nodes: seq<Node>) returns (tree: seq<Node>)
    requires UniqueIds(Recs(nodes)) && forall n :: n in nodes ==> n.children == []
    modifies Objects(nodes)
    ensures Linked(nodes, |nodes|)
    ensures Recs(tree) == Roots(Recs(nodes), Recs(nodes)) && Within(tree, Objects(nodes))
  {
    tree := [];
    var byId := Index(nodes);
    for i := 0 to |nodes|
      invariant Linked(nodes, i) && Rooted(nodes, i, tree)
    {
      var node := nodes[i];
      RootedStep(nodes, i, tree);
      if node.rec.parent.None? {
        LinkNobody(nodes, i);
        tree := tree + [node];
      } else if node.rec.parent.value in byId {
        Adopt(nodes, i, byId[node.rec.parent.value]);
      } else {
        LinkNobody(nodes, i);
        if node !in tree {
          tree := tree + [node];
        }
      }
    }
    assert Recs(nodes)[..|nodes|] == Recs(nodes);
  }

  // ---- links that agree with the rows show the rows' trees ----

  ghost predicate Done(links: map<Node, seq<Node>>, recs: seq<Rec>, n: Node) {
    n in links && Recs(links[n]) == Kids(recs, Some(n.rec.id))
  }

  /** Everything reachable from a list within a depth is done. */
  ghost predicate DoneDown(links: map<Node, seq<Node>>, recs: seq<Rec>, list: seq<Node>, depth: nat)
    decreases depth
  {
    depth > 0 ==> forall n :: n in list ==> Done(links, recs, n) && DoneDown(links, recs, links[n], depth - 1)
  }

  lemma {:induction false} DoneShows(links: map<Node, seq<Node>>, recs: seq<Rec>, list: seq<Node>, depth: nat)
    requires DoneDown(links, recs, list, depth)
    ensures ShowAll(links, list, depth) == GrowAll(recs, Recs(list), depth)
    decreases depth, |list|
  {
    if list != [] {
      assert list[0] in list;
      if depth > 0 {
        assert Done(links, recs, list[0]);
        DoneShows(links, recs, links[list[0]], depth - 1);
      }
      DoneShows(links, recs, list[1..], depth);
      assert Recs(list)[1..] == Recs(list[1..]);
    }
  }

  lemma {:induction false} LinkedIsDone(nodes: seq<Node>, list: seq<Node>, depth: nat)
    requires Linked(nodes, |nodes|) && Within(list, Objects(nodes))
    ensures DoneDown(Links(nodes), Recs(nodes), list, depth)
    decreases depth
  {
    assert Recs(nodes)[..|nodes|] == Recs(nodes);
    if depth > 0 {
      forall n | n in list
        ensures Done(Links(nodes), Recs(nodes), n) && DoneDown(Links(nodes), Recs(nodes), Links(nodes)[n], depth - 1)
      {
        assert n in Objects(nodes);
        LinkedIsDone(nodes, n.children, depth - 1);
      }
    }
  }

  // ---- building by recursion ----

  /** Every `children` list is still empty or already complete. */
  ghost predicate Partial(links: map<Node, seq<Node>>, nodes: seq<Node>) {
    forall n {:trigger EmptyOrDone(links, nodes, n)} :: n in nodes ==> EmptyOrDone(links, nodes, n)
  }

  ghost predicate EmptyOrDone(links: map<Node, seq<Node>>, nodes: seq<Node>, n: Node) {
    n in links && Within(links[n], Objects(nodes)) && (links[n] == [] || Done(links, Recs(nodes), n))
  }

  /** No completed list has been touched. */
  ghost predicate Kept(before: map<Node, seq<Node>>, after: map<Node, seq<Node>>, recs: seq<Rec>) {
    forall n :: n in before && Done(before, recs, n) ==> n in after && after[n] == before[n]
  }

  lemma {:induction false} DoneDownKept(before: map<Node, seq<Node>>, after: map<Node, seq<Node>>, recs: seq<Rec>,
                                        list: seq<Node>, depth: nat)
    requires Kept(before, after, recs) && DoneDown(before, recs, list, depth)
    ensures DoneDown(after, recs, list, depth)
    decreases depth
  {
    if depth > 0 {
      forall n | n in list
        ensures Done(after, recs, n) && DoneDown(after, recs, after[n], depth - 1)
      {
        assert Done(before, recs, n);
        DoneDownKept(before, after, recs, before[n], depth - 1);
      }
    }
  }

  lemma {:induction false} SameRecsSameNodes(nodes: seq<Node>, a: seq<Node>, b: seq<Node>)
    requires UniqueIds(Recs(nodes)) && Within(a, Objects(nodes)) && Within(b, Objects(nodes))
    requires Recs(a) == Recs(b)
    ensures a == b
  {
    forall k | 0 <= k < |a|
      ensures a[k] == b[k]
    {
      assert Recs(a)[k] == Recs(b)[k];
      assert a[k] in a && b[k] in b;
      SameIdSameNode(nodes, a[k], b[k]);
    }
  }

  /** `if child_nodes: node['children'] = child_nodes` */
  method SetChildren(nodes: seq<Node>, node: Node, below: seq<Node>)
    requires UniqueIds(Recs(nodes)) && node in nodes && Partial(Links(nodes), nodes)
    requires Recs(below) == Kids(Recs(nodes), Some(node.rec.id)) && Within(below, Objects(nodes))
    modifies node
    ensures Partial(Links(nodes), nodes) && Done(Links(nodes), Recs(nodes), node)
    ensures Links(nodes)[node] == below
    ensures Kept(old(Links(nodes)), Links(nodes), Recs(nodes))
  {
    ghost var before := Links(nodes);
    assert EmptyOrDone(before, nodes, node);
    if Done(before, Recs(nodes), node) {
      SameRecsSameNodes(nodes, node.children, below);
    }
    if below != [] {
      node.children := below;
    }
    assert node in Links(nodes) && Links(nodes)[node] == below;
    forall n | n in nodes
      ensures EmptyOrDone(Links(nodes), nodes, n)
    {
      assert EmptyOrDone(before, nodes, n);
    }
  }

  /** Has the recursion below the first `i` nodes returned? */
  function SoFar(recs: seq<Rec>, i: nat, parent: Option<int>, limit: nat): Option<seq<Tree>>
    requires i <= |recs|
  {
    RecursiveAll(recs, Kids(recs[..i], parent), limit)
  }

  lemma {:induction false} RecursiveAppend(recs: seq<Rec>, list: seq<Rec>, r: Rec, limit: nat)
    ensures RecursiveAll(recs, list + [r], limit).Some? <==>
            RecursiveAll(recs, list, limit).Some? && Recursive(recs, Some(r.id), limit).Some?
    decreases |list|
  {
    if list == [] {
      assert ([] + [r])[1..] == [];
      assert RecursiveAll(recs, [], limit).Some?;
    } else {
      assert (list + [r])[1..] == list[1..] + [r];
      RecursiveAppend(recs, list[1..], r, limit);
    }
  }

  lemma {:induction false} PrefixFails(recs: seq<Rec>, i: nat, parent: Option<int>, limit: nat)
    requires i <= |recs| && SoFar(recs, i, parent, limit).None?
    ensures RecursiveAll(recs, Kids(recs, parent), limit).None?
    decreases |recs| - i
  {
    if i == |recs| {
      assert recs[..i] == recs;
    } else {
      PrefixStep(recs, i);
      KidsAppend(recs[..i], recs[i], parent);
      RecursiveAppend(recs, Kids(recs[..i], parent), recs[i], limit);
      assert Kids(recs[..i], parent) + [] == Kids(recs[..i], parent);
      PrefixFails(recs, i + 1, parent, limit);
    }
  }

  /** `recursive_to_tree`; None is the recursion limit exceeded. */
  method RecursiveToTree(nodes: seq<Node>, parent: Option<int>, limit: nat) returns (r: Option<seq<Node>>)
    requires UniqueIds(Recs(nodes)) && Partial(Links(nodes), nodes)
    modifies Objects(nodes)
    ensures Partial(Links(nodes), nodes) && Kept(old(Links(nodes)), Links(nodes), Recs(nodes))
    ensures r.Some? <==> Recursive(Recs(nodes), parent, limit).Some?
    ensures r.Some? ==> Recs(r.value) == Kids(Recs(nodes), parent) && Within(r.value, Objects(nodes))
    ensures r.Some? ==> DoneDown(Links(nodes), Recs(nodes), r.value, limit)
    decreases limit, 1
  {
    if limit == 0 {
      return None;
    }
    ghost var start := Links(nodes);
    var tree: seq<Node> := [];
    BuiltStart(start, nodes, parent, limit);
    for i := 0 to |nodes|
      invariant Partial(Links(nodes), nodes) && Kept(start, Links(nodes), Recs(nodes))
      invariant BuiltFrom(Links(nodes), nodes, i, parent, limit, tree)
    {
      BuiltSkip(Links(nodes), nodes, i, parent, limit, tree);
      if nodes[i].rec.parent == parent {
        var ok := Collect(nodes, i, parent, limit, tree, start);
        if !ok {
          return None;
        }
        tree := tree + [nodes[i]];
      }
    }
    BuiltWhole(Links(nodes), nodes, parent, limit, tree);
    return Some(tree);
  }

  /** The loop has collected the matching nodes among the first `i`, each complete below. */
  ghost predicate BuiltFrom(links: map<Node, seq<Node>>, nodes: seq<Node>, i: nat, parent: Option<int>, limit: nat,
                            tree: seq<Node>)
    requires i <= |nodes| && limit > 0
  {
    && Recs(tree) == Kids(Recs(nodes)[..i], parent) && Within(tree, Objects(nodes))
    && SoFar(Recs(nodes), i, parent, limit - 1).Some?
    && DoneDown(links, Recs(nodes), tree, limit)
  }

  lemma BuiltSkip(links: map<Node, seq<Node>>, nodes: seq<Node>, i: nat, parent: Option<int>, limit: nat,
                  tree: seq<Node>)
    requires i < |nodes| && limit > 0 && BuiltFrom(links, nodes, i, parent, limit, tree)
    ensures nodes[i].rec.parent != parent ==> BuiltFrom(links, nodes, i + 1, parent, limit, tree)
  {
    var recs := Recs(nodes);
    PrefixStep(recs, i);
    KidsAppend(recs[..i], recs[i], parent);
    assert Kids(recs[..i], parent) + [] == Kids(recs[..i], parent);
  }

  lemma BuiltStart(links: map<Node, seq<Node>>, nodes: seq<Node>, parent: Option<int>, limit: nat)
    requires limit > 0
    ensures BuiltFrom(links, nodes, 0, parent, limit, [])
  {
    assert Recs(nodes)[..0] == [];
  }

  lemma BuiltWhole(links: map<Node, seq<Node>>, nodes: seq<Node>, parent: Option<int>, limit: nat, tree: seq<Node>)
    requires limit > 0 && BuiltFrom(links, nodes, |nodes|, parent, limit, tree)
    ensures Recursive(Recs(nodes), parent, limit).Some?
    ensures Recs(tree) == Kids(Recs(nodes), parent)
  {
    assert Recs(nodes)[..|nodes|] == Recs(nodes);
  }

  lemma BuiltStep(before: map<Node, seq<Node>>, links: map<Node, seq<Node>>, nodes: seq<Node>, i: nat,
                  parent: Option<int>, limit: nat, tree: seq<Node>, ok: bool)
    requires i < |nodes| && limit > 0 && nodes[i].rec.parent == parent
    requires BuiltFrom(before, nodes, i, parent, limit, tree) && Kept(before, links, Recs(nodes))
    requires ok <==> Recursive(Recs(nodes), Some(nodes[i].rec.id), limit - 1).Some?
    requires ok ==> Done(links, Recs(nodes), nodes[i]) && DoneDown(links, Recs(nodes), links[nodes[i]], limit - 1)
    ensures ok ==> BuiltFrom(links, nodes, i + 1, parent, limit, tree + [nodes[i]])
    ensures !ok ==> Recursive(Recs(nodes), parent, limit).None?
  {
    var recs := Recs(nodes);
    PrefixStep(recs, i);
    KidsAppend(recs[..i], recs[i], parent);
    RecursiveAppend(recs, Kids(recs[..i], parent), recs[i], limit - 1);
    if ok {
      DoneDownKept(before, links, recs, tree, limit);
    } else {
      PrefixFails(recs, i + 1, parent, limit - 1);
    }
  }

  /** The body of the loop for a matching node: build below it, and the list may grow by it. */
  method Collect(nodes: seq<Node>, i: nat, parent: Option<int>, limit: nat, ghost tree: seq<Node>,
                 ghost start: map<Node, seq<Node>>)
    returns (ok: bool)
    requires UniqueIds(Recs(nodes)) && Partial(Links(nodes), nodes) && Kept(start, Links(nodes), Recs(nodes))
    requires i < |nodes| && limit > 0 && nodes[i].rec.parent == parent
    requires BuiltFrom(Links(nodes), nodes, i, parent, limit, tree)
    modifies Objects(nodes)
    ensures Partial(Links(nodes), nodes) && Kept(start, Links(nodes), Recs(nodes))
    ensures ok ==> BuiltFrom(Links(nodes), nodes, i + 1, parent, limit, tree + [nodes[i]])
    ensures !ok ==> Recursive(Recs(nodes), parent, limit).None?
    decreases limit, 0
  {
    ghost var before := Links(nodes);
    ok := BuildBelow(nodes, nodes[i], limit - 1);
    KeptTwice(start, before, Links(nodes), Recs(nodes));
    BuiltStep(before, Links(nodes), nodes, i, parent, limit, tree, ok);
  }

  /** The body of the loop for a matching node: recurse, then attach what came back. */
  method BuildBelow(nodes: seq<Node>, node: Node, limit: nat) returns (ok: bool)
    requires UniqueIds(Recs(nodes)) && Partial(Links(nodes), nodes) && node in nodes
    modifies Objects(nodes)
    ensures Partial(Links(nodes), nodes) && Kept(old(Links(nodes)), Links(nodes), Recs(nodes))
    ensures ok <==> Recursive(Recs(nodes), Some(node.rec.id), limit).Some?
    ensures ok ==> Done(Links(nodes), Recs(nodes), node)
                   && DoneDown(Links(nodes), Recs(nodes), Links(nodes)[node], limit)
    decreases limit, 2
  {
    ghost var before := Links(nodes);
    var below := RecursiveToTree(nodes, Some(node.rec.id), limit);
    ok := below.Some?;
    if ok {
      ghost var middle := Links(nodes);
      SetChildren(nodes, node, below.value);
      KeptTwice(before, middle, Links(nodes), Recs(nodes));
      DoneDownKept(middle, Links(nodes), Recs(nodes), below.value, limit);
    }
  }

  lemma KeptTwice(a: map<Node, seq<Node>>, b: map<Node, seq<Node>>, c: map<Node, seq<Node>>, recs: seq<Rec>)
    requires Kept(a, b, recs) && Kept(b, c, recs)
    ensures Kept(a, c, recs)
  {
    forall n | n in a && Done(a, recs, n)
      ensures n in c && c[n] == a[n]
    {
      assert Done(b, recs, n);
    }
  }

  // ---- the entry point ----

  /** Sorting and allocating the node dictionaries. */
  method GetTreeNodes(rows: seq<Rec>, isSort: bool) returns (nodes: seq<Node>)
    ensures Recs(nodes) == if isSort then Sort(rows) else rows
    ensures fresh(Objects(nodes)) && forall n :: n in nodes ==> n.children == []
  {
    var ordered := if isSort then Sort(rows) else rows;
    nodes := [];
    for i := 0 to |ordered|
      invariant Recs(nodes) == ordered[..i]
      invariant fresh(Objects(nodes)) && forall n :: n in nodes ==> n.children == []
    {
      PrefixStep(ordered, i);
      var node := new Node(ordered[i]);
      assert Objects(nodes + [node]) == Objects(nodes) + {node};
      nodes := nodes + [node];
    }
  }

  datatype BuildType = Traversal | RecursiveType

  /**
    `get_tree_data`: the nodes it allocates, followed along their `children`, show the forest; a
    recursion deeper than `limit` is the only failure.
  */
  method GetTreeData(rows: seq<Rec>, buildType: BuildType, parent: Option<int>, isSort: bool, limit: nat)
    returns (tree: Option<seq<Node>>, ghost nodes: seq<Node>)
    requires UniqueIds(rows)
    ensures fresh(Objects(nodes)) && Recs(nodes) == if isSort then Sort(rows) else rows
    ensures tree.Some? ==> Within(tree.value, Objects(nodes))
    ensures match buildType
            case Traversal => tree.Some? && ShowAll(Links(nodes), tree.value, |rows|) == Forest(Recs(nodes))
            case RecursiveType =>
              && (tree.Some? <==> Recursive(Recs(nodes), parent, limit).Some?)
              && (tree.Some? ==>
                    ShowAll(Links(nodes), tree.value, limit) == Recursive(Recs(nodes), parent, limit).value)
  {
    var all := GetTreeNodes(rows, isSort);
    nodes := all;
    SortUniqueIds(rows);
    match buildType {
      case Traversal =>
        var roots := TraversalToTree(all);
        LinkedIsDone(all, roots, |rows|);
        DoneShows(Links(all), Recs(all), roots, |rows|);
        tree := Some(roots);
      case RecursiveType =>
        tree := RecursiveToTree(all, parent, limit);
        if tree.Some? {
          DoneShows(Links(all), Recs(all), tree.value, limit);
          RecursiveGrows(Recs(all), parent, limit, limit);
        }
    }
  }
}
