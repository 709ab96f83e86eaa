/**
  The serializer inverts the join: flattening a nested forest into join rows and serializing
  the rows gives the forest back, in the same order.
*/
module JoinRoundTrip {
  import opened Options
  import opened JoinSerializer
  import opened JoinGrouping
  import opened JoinRows

  // ---- what the forest should serialize to ----

  function EdgeKey(edge: Edge): string {
    if edge.custom.Some? && edge.custom.value != "" then edge.custom.value
    else if IsList(edge.kind) then edge.to.cls + "s"
    else edge.to.cls
  }

  /** The nested dictionary of an entity, read straight off its tree. */
  function Nested(e: Ent, s: Schema): Dict
    decreases s, 2
  {
    Dict(NestedFields(e, s.edges, Columns(e.obj)))
  }

  function NestedFields(e: Ent, edges: seq<Edge>, base: map<string, Field>): map<string, Field>
    decreases edges, 0
  {
    if edges == [] then base
    else
      var last := edges[|edges| - 1];
      assert last.to < last;
      var kids := if |edges| <= |e.kids| then e.kids[|edges| - 1] else [];
      NestedFields(e, edges[..|edges| - 1], base)[EdgeKey(last) := Value(last.kind, NestedAll(kids, last.to))]
  }

  function NestedAll(es: seq<Ent>, s: Schema): (r: seq<Dict>)
    ensures |r| == |es|
    decreases s, 3, |es|
  {
    if es == [] then [] else [Nested(es[0], s)] + NestedAll(es[1..], s)
  }

  // ---- a parsed relation list that says what the schema says ----

  ghost predicate Matches(rels: Relations, s: Schema) {
    && (forall i: nat :: i < Width(s) ==> MatchesNode(rels, NodeAt(s, i)))
    && (forall cls :: cls !in Classes(s) ==> EdgesOf(rels, cls) == [])
  }

  ghost predicate MatchesNode(rels: Relations, n: Schema) {
    && |EdgesOf(rels, n.cls)| == |n.edges|
    && forall m :: 0 <= m < |n.edges| ==> MatchesEdge(rels, n.cls, n.edges[m], EdgesOf(rels, n.cls)[m])
  }

  ghost predicate MatchesEdge(rels: Relations, src: string, edge: Edge, parsed: (string, Kind)) {
    && parsed == (edge.to.cls, edge.kind)
    && edge.to.cls in rels.reverse && rels.reverse[edge.to.cls] == src
    && RelationKey(rels, src, edge.to.cls, edge.kind) == EdgeKey(edge)
  }

  ghost predicate Distinct(names: seq<string>) {
    forall a, b :: 0 <= a < b < |names| ==> names[a] != names[b]
  }

  // ---- the rows of a forest ----

  ghost predicate Forest(es: seq<Ent>, s: Schema) {
    && Distinct(Classes(s))
    && FitsEach(es, s) && EntsDistinct(es) && AddressesFree(es, s)
    && forall e :: e in es ==> ConsistentBelow(e, s)
  }

  /** The address of a root keyed 0, which then stands for its key, is no entity's key. */
  ghost predicate AddressesFree(es: seq<Ent>, s: Schema) {
    forall e, i: nat :: e in es && e.obj.id == Some(0) && i < Width(s) ==> NotAKey(EntsAtAll(es, s, i), e.obj.address)
  }

  ghost predicate NotAKey(es: seq<Ent>, id: int) {
    forall x :: x in es ==> x.obj.id != Some(id)
  }

  ghost predicate RootsDistinct(es: seq<Ent>) {
    forall a, b :: 0 <= a < b < |es| ==> ObjId(es[a].obj) != ObjId(es[b].obj)
  }

  lemma RootsApart(es: seq<Ent>, s: Schema)
    requires FitsEach(es, s) && EntsDistinct(es) && AddressesFree(es, s)
    ensures RootsDistinct(es)
  {
    forall a, b | 0 <= a < |es| && 0 <= b < |es| && es[a].obj.id != es[b].obj.id && es[a].obj.id == Some(0)
      ensures ObjId(es[a].obj) != ObjId(es[b].obj)
    {
      assert es[a] in es && es[b] in es && Fits(es[b], s);
      EntsAtAllMember(es, s, 0, es[b], es[b]);
      assert NotAKey(EntsAtAll(es, s, 0), es[a].obj.address);
    }
    assert forall a :: 0 <= a < |es| ==> es[a] in es;
  }

  lemma {:induction false} ForestRowsTyped(es: seq<Ent>, s: Schema)
    requires Distinct(Classes(s)) && FitsEach(es, s)
    ensures Typed(RowsOfAll(es, s), Classes(s))
  {
    var rows := RowsOfAll(es, s);
    forall row: Row | row in rows
      ensures TypedRow(row, Classes(s))
    {
      RowsOfAllShape(es, s);
      forall i: nat | i < |row|
        ensures TypedCell(row[i], Classes(s)[i])
      {
        var x := CellAll(es, s, row, i);
        ClassOfColumn(s, i);
        if row[i].Some? {
          EntsFitAll(es, s, i, x);
        }
      }
    }
  }

  lemma {:induction false} OfMainBeside(o: Obj, rows: seq<Row>, main: int)
    ensures OfMain(Beside([Some(o)], rows), main) == if ObjId(o) == main then Beside([Some(o)], rows) else []
  {
    if rows != [] {
      assert Beside([Some(o)], rows)[1..] == Beside([Some(o)], rows[1..]);
      OfMainBeside(o, rows[1..], main);
    }
  }

  /** Filtering the forest's rows by a main object leaves that entity's rows. */
  lemma {:induction false} OfMainForest(es: seq<Ent>, s: Schema, main: int)
    requires FitsEach(es, s) && RootsDistinct(es)
    ensures forall e :: e in es && ObjId(e.obj) == main ==> OfMain(RowsOfAll(es, s), main) == RowsOf(e, s)
    ensures (forall e :: e in es ==> ObjId(e.obj) != main) ==> OfMain(RowsOfAll(es, s), main) == []
    decreases |es|
  {
    if es != [] {
      OfMainBeside(es[0].obj, Branches(es[0].kids, s.edges), main);
      OfMainConcat(RowsOf(es[0], s), RowsOfAll(es[1..], s), main);
      OfMainForest(es[1..], s, main);
      assert es[0] in es;
      forall e | e in es && ObjId(e.obj) == main
        ensures OfMain(RowsOfAll(es, s), main) == RowsOf(e, s)
      {
        if e == es[0] {
          assert forall y :: y in es[1..] ==> ObjId(y.obj) != main;
        } else {
          assert e in es[1..];
        }
      }
    }
  }

  // ---- every nested list is rebuilt ----

  lemma {:induction false} DedupDistinct(es: seq<Ent>, seen: set<int>)
    requires EntsDistinct(es) && forall e :: e in es ==> e.obj.id.Some? && e.obj.id.value !in seen
    ensures DedupFrom(Objs(es), seen) == Objs(es)
    decreases |es|
  {
    if es != [] {
      assert Objs(es)[1..] == Objs(es[1..]);
      DedupDistinct(es[1..], seen + {es[0].obj.id.value});
    }
  }

  /** The serializer's list for relation `m` of the entity `x`: its children, object by object. */
  lemma ListIsKids(es: seq<Ent>, s: Schema, rels: Relations, e: Ent, i: nat, x: Ent, m: nat)
    requires Forest(es, s) && Matches(rels, s) && e in es
    requires i < Width(s) && x in EntsAt(e, s, i) && m < |NodeAt(s, i).edges|
    ensures x.obj.id.Some? && |x.kids| == |NodeAt(s, i).edges|
    ensures var j := Joined(rels, RowsOfAll(es, s));
            Dedup(Bucket(j, |j.rows|, (ObjId(e.obj), NodeAt(s, i).edges[m].to.cls, x.obj.id.value)))
            == Objs(x.kids[m])
  {
    var rows, cols, n := RowsOfAll(es, s), Classes(s), NodeAt(s, i);
    var k := ChildColumn(n, i, m);
    EntsFit(e, s, i, x);
    FitsAt(x.kids, n.edges, m);
    ForestRowsTyped(es, s);
    ChildNode(s, i, m);
    ClassOfColumn(s, i);
    ClassOfColumn(s, k);
    assert MatchesNode(rels, n) && MatchesEdge(rels, n.cls, n.edges[m], EdgesOf(rels, n.cls)[m]);
    assert rows[..|rows|] == rows;
    BucketIsSharing(Joined(rels, rows), cols, |rows|, ObjId(e.obj), i, k, x.obj.id.value);
    RootsApart(es, s);
    OfMainForest(es, s, ObjId(e.obj));
    SharingIsKids(e, s, i, m, x, x.obj.id.value);
    DedupDistinct(x.kids[m], {});
  }

  /** The first `m` relations of `x`, a `n` entity, are written on both sides alike. */
  ghost predicate NodeRebuilt(j: Join, main: int, n: Schema, x: Ent, m: nat, rank: map<string, nat>)
    requires Acyclic(j.rels, rank) && x.obj.id.Some? && m <= |n.edges| && m <= |EdgesOf(j.rels, n.cls)|
  {
    NestFields(j, main, n.cls, x.obj.id.value, Columns(x.obj), m, rank) ==
    NestedFields(x, n.edges[..m], Columns(x.obj))
  }

  /** So is a list of children. */
  ghost predicate KidsRebuilt(j: Join, main: int, sub: Schema, kids: seq<Ent>, rank: map<string, nat>)
    requires Acyclic(j.rels, rank)
  {
    NestAll(j, main, sub.cls, Objs(kids), rank) == NestedAll(kids, sub)
  }

  lemma NodeFacts(es: seq<Ent>, s: Schema, rels: Relations, e: Ent, i: nat, x: Ent)
    requires Forest(es, s) && Matches(rels, s) && e in es && i < Width(s) && x in EntsAt(e, s, i)
    ensures var n := NodeAt(s, i);
            x.obj.id.Some? && |x.kids| == |n.edges| && MatchesNode(rels, n) && |EdgesOf(rels, n.cls)| == |n.edges|
  {
    EntsFit(e, s, i, x);
    assert MatchesNode(rels, NodeAt(s, i));
  }

  lemma {:induction false} RebuildsNode(es: seq<Ent>, s: Schema, rels: Relations, rank: map<string, nat>,
                                        e: Ent, i: nat, x: Ent, m: nat)
    requires Forest(es, s) && Matches(rels, s) && Acyclic(rels, rank) && e in es
    requires i < Width(s) && x in EntsAt(e, s, i) && m <= |NodeAt(s, i).edges|
    ensures x.obj.id.Some? && m <= |EdgesOf(rels, NodeAt(s, i).cls)|
    ensures NodeRebuilt(Joined(rels, RowsOfAll(es, s)), ObjId(e.obj), NodeAt(s, i), x, m, rank)
    decreases NodeAt(s, i), 0, m
  {
    NodeFacts(es, s, rels, e, i, x);
    var n, j := NodeAt(s, i), Joined(rels, RowsOfAll(es, s));
    if m == 0 {
      assert n.edges[..m] == [];
    } else {
      assert n.edges[m - 1].to < n.edges[m - 1];
      RebuildsNode(es, s, rels, rank, e, i, x, m - 1);
      ListIsKids(es, s, rels, e, i, x, m - 1);
      RebuildsKids(es, s, rels, rank, e, i, x, m - 1, 0);
      WholeTail(x.kids[m - 1]);
      RelationRebuilt(j, n, rank, ObjId(e.obj), x, m - 1);
    }
  }

  /** Writing one relation on both sides, once its list is known to be rebuilt. */
  lemma RelationRebuilt(j: Join, n: Schema, rank: map<string, nat>, main: int, x: Ent, m: nat)
    requires Acyclic(j.rels, rank) && MatchesNode(j.rels, n) && |x.kids| == |n.edges| && m < |n.edges|
    requires |EdgesOf(j.rels, n.cls)| == |n.edges| && x.obj.id.Some?
    requires Dedup(Bucket(j, |j.rows|, (main, n.edges[m].to.cls, x.obj.id.value))) == Objs(x.kids[m])
    requires KidsRebuilt(j, main, n.edges[m].to, x.kids[m], rank)
    requires NodeRebuilt(j, main, n, x, m, rank)
    ensures NodeRebuilt(j, main, n, x, m + 1, rank)
  {
    var edge, pk := n.edges[m], x.obj.id.value;
    assert MatchesEdge(j.rels, n.cls, edge, EdgesOf(j.rels, n.cls)[m]);
    NestFieldsStep(j, main, n.cls, pk, Columns(x.obj), m, rank);
    assert Nest(j, main, edge.to.cls, pk, rank) == NestedAll(x.kids[m], edge.to);
    NestedStep(x, n.edges, m, Columns(x.obj));
  }

  lemma NestedStep(x: Ent, edges: seq<Edge>, m: nat, base: map<string, Field>)
    requires m < |edges| == |x.kids|
    ensures NestedFields(x, edges[..m + 1], base) ==
            NestedFields(x, edges[..m], base)
              [EdgeKey(edges[m]) := Value(edges[m].kind, NestedAll(x.kids[m], edges[m].to))]
  {
    assert edges[..m + 1][..m] == edges[..m];
  }

  lemma {:induction false} RebuildsKids(es: seq<Ent>, s: Schema, rels: Relations, rank: map<string, nat>,
                                        e: Ent, i: nat, x: Ent, m: nat, from: nat)
    requires Forest(es, s) && Matches(rels, s) && Acyclic(rels, rank) && e in es
    requires i < Width(s) && x in EntsAt(e, s, i) && m < |NodeAt(s, i).edges|
    requires m < |x.kids| && from <= |x.kids[m]|
    ensures KidsRebuilt(Joined(rels, RowsOfAll(es, s)), ObjId(e.obj), NodeAt(s, i).edges[m].to, x.kids[m][from..], rank)
    decreases NodeAt(s, i).edges[m].to, 1, |x.kids[m]| - from
  {
    if from < |x.kids[m]| {
      var y, sub, c := x.kids[m][from], NodeAt(s, i).edges[m].to, ChildColumn(NodeAt(s, i), i, m);
      KidsAt(e, s, i, x, m, y);
      ChildNode(s, i, m);
      RebuildsNode(es, s, rels, rank, e, c, y, |sub.edges|);
      NodeFacts(es, s, rels, e, c, y);
      RebuildsKids(es, s, rels, rank, e, i, x, m, from + 1);
      SplitAt(x.kids[m], from);
      KidRebuilt(Joined(rels, RowsOfAll(es, s)), rank, ObjId(e.obj), y, x.kids[m][from + 1..], sub);
    }
  }

  lemma WholeTail(es: seq<Ent>)
    ensures es[0..] == es
  {
  }

  lemma WholeSlice(edges: seq<Edge>)
    ensures edges[..|edges|] == edges
  {
  }

  lemma SplitAt(es: seq<Ent>, k: nat)
    requires k < |es|
    ensures es[k..] == [es[k]] + es[k + 1..]
  {
  }

  /** One more child, once its own relations and the children after it are known to be rebuilt. */
  lemma KidRebuilt(j: Join, rank: map<string, nat>, main: int, y: Ent, rest: seq<Ent>, sub: Schema)
    requires Acyclic(j.rels, rank) && y.obj.id.Some? && |EdgesOf(j.rels, sub.cls)| == |sub.edges|
    requires NodeRebuilt(j, main, sub, y, |sub.edges|, rank) && KidsRebuilt(j, main, sub, rest, rank)
    ensures KidsRebuilt(j, main, sub, [y] + rest, rank)
  {
    WholeSlice(sub.edges);
    assert Objs([y] + rest) == [y.obj] + Objs(rest);
    assert ([y.obj] + Objs(rest))[1..] == Objs(rest) && ([y] + rest)[1..] == rest;
  }

  // ---- the main objects are the roots ----

  lemma {:induction false} MainsSkip(rows: seq<Row>, n: nat, more: nat)
    requires n + more <= |rows|
    requires forall m :: n <= m < n + more && HasMain(rows[m]) ==> ObjId(rows[m][0].value) in MainIds(Mains(rows, n))
    ensures Mains(rows, n + more) == Mains(rows, n)
    decreases more
  {
    if more > 0 {
      MainsSkip(rows, n, more - 1);
    }
  }

  lemma {:induction false} RootCells(e: Ent, s: Schema, k: nat)
    requires k < |RowsOf(e, s)|
    ensures HasMain(RowsOf(e, s)[k]) && RowsOf(e, s)[k][0] == Some(e.obj)
  {
    BesideAt([Some(e.obj)], Branches(e.kids, s.edges), k);
  }

  lemma {:induction false} BesideAt(a: Row, rows: seq<Row>, k: nat)
    requires k < |Beside(a, rows)|
    ensures |Beside(a, rows)| == |rows| && Beside(a, rows)[k] == a + rows[k]
  {
    BesideLength(a, rows);
    if k > 0 {
      BesideAt(a, rows[1..], k - 1);
    }
  }

  lemma {:induction false} BesideLength(a: Row, rows: seq<Row>)
    ensures |Beside(a, rows)| == |rows|
  {
    if rows != [] {
      BesideLength(a, rows[1..]);
    }
  }

  lemma NewRoot(rows: seq<Row>, n: nat, roots: seq<Obj>, o: Obj)
    requires n < |rows| && HasMain(rows[n]) && rows[n][0].value == o
    requires Mains(rows, n) == roots && ObjId(o) !in MainIds(roots)
    ensures Mains(rows, n + 1) == roots + [o]
    ensures MainIds(roots + [o]) == MainIds(roots) + {ObjId(o)}
  {
    assert forall x :: x in roots + [o] <==> x in roots || x == o;
  }

  /** A run of rows of one new main object adds that object. */
  lemma RootBlock(rows: seq<Row>, n: nat, more: nat, roots: seq<Obj>, o: Obj)
    requires n + more <= |rows| && more > 0
    requires forall m :: n <= m < n + more ==> HasMain(rows[m]) && rows[m][0].value == o
    requires Mains(rows, n) == roots && ObjId(o) !in MainIds(roots)
    ensures Mains(rows, n + more) == roots + [o]
    ensures MainIds(roots + [o]) == MainIds(roots) + {ObjId(o)}
  {
    NewRoot(rows, n, roots, o);
    MainsSkip(rows, n + 1, more - 1);
  }

  lemma EntityBlock(before: seq<Row>, e: Ent, s: Schema, after: seq<Row>, roots: seq<Obj>)
    requires Fits(e, s) && ObjId(e.obj) !in MainIds(roots)
    requires Mains(before + (RowsOf(e, s) + after), |before|) == roots
    ensures Mains(before + (RowsOf(e, s) + after), |before + RowsOf(e, s)|) == roots + [e.obj]
    ensures MainIds(roots + [e.obj]) == MainIds(roots) + {ObjId(e.obj)}
  {
    var first := RowsOf(e, s);
    var rows := before + (first + after);
    RowsShape(e, s);
    forall m | |before| <= m < |before| + |first|
      ensures HasMain(rows[m]) && rows[m][0].value == e.obj
    {
      RootCells(e, s, m - |before|);
      assert rows[m] == first[m - |before|];
    }
    RootBlock(rows, |before|, |first|, roots, e.obj);
  }

  /** The rows before a block of entities have given `roots`, none of which is one of the block's. */
  ghost predicate Fresh(es: seq<Ent>, s: Schema, roots: seq<Obj>) {
    && FitsEach(es, s) && RootsDistinct(es)
    && forall e :: e in es ==> ObjId(e.obj) !in MainIds(roots)
  }

  lemma FreshTail(es: seq<Ent>, s: Schema, roots: seq<Obj>)
    requires es != [] && Fresh(es, s, roots)
    ensures Fresh(es[1..], s, roots + [es[0].obj])
  {
    assert Fits(es[0], s);
    forall e | e in es[1..]
      ensures e in es && ObjId(e.obj) != ObjId(es[0].obj)
    {
      var k :| 0 < k < |es| && es[k] == e;
    }
  }

  lemma MainsEntity(before: seq<Row>, es: seq<Ent>, s: Schema, roots: seq<Obj>)
    requires es != [] && Fresh(es, s, roots)
    requires Mains(before + RowsOfAll(es, s), |before|) == roots
    ensures var more := before + RowsOf(es[0], s);
            before + RowsOfAll(es, s) == more + RowsOfAll(es[1..], s)
            && Mains(more + RowsOfAll(es[1..], s), |more|) == roots + [es[0].obj]
  {
    assert es[0] in es;
    EntityBlock(before, es[0], s, RowsOfAll(es[1..], s), roots);
    assert before + RowsOfAll(es, s) == before + RowsOf(es[0], s) + RowsOfAll(es[1..], s);
  }

  lemma {:induction false} MainsForest(before: seq<Row>, es: seq<Ent>, s: Schema, roots: seq<Obj>)
    requires Fresh(es, s, roots)
    requires Mains(before + RowsOfAll(es, s), |before|) == roots
    ensures Mains(before + RowsOfAll(es, s), |before + RowsOfAll(es, s)|) == roots + Objs(es)
    decreases |es|
  {
    if es == [] {
      assert before + RowsOfAll(es, s) == before;
      assert roots + Objs(es) == roots;
    } else {
      MainsEntity(before, es, s, roots);
      FreshTail(es, s, roots);
      MainsForest(before + RowsOf(es[0], s), es[1..], s, roots + [es[0].obj]);
      ObjsCons(roots, es);
    }
  }

  lemma ObjsCons(roots: seq<Obj>, es: seq<Ent>)
    requires es != []
    ensures roots + [es[0].obj] + Objs(es[1..]) == roots + Objs(es)
  {
    assert Objs(es) == [es[0].obj] + Objs(es[1..]);
  }

  // ---- the theorem ----

  /** What the serializer makes of a root: one keyed 0 comes out without its children. */
  function AsServed(e: Ent): Ent {
    if e.obj.id == Some(0) then Ent(e.obj, []) else e
  }

  function AllAsServed(es: seq<Ent>): (r: seq<Ent>)
    ensures |r| == |es|
    ensures forall k :: 0 <= k < |es| ==> r[k] == AsServed(es[k])
  {
    seq(|es|, k requires 0 <= k < |es| => AsServed(es[k]))
  }

  lemma RootRebuilt(es: seq<Ent>, s: Schema, rels: Relations, rank: map<string, nat>, e: Ent)
    requires Forest(es, s) && Matches(rels, s) && Acyclic(rels, rank) && e in es
    ensures NestMain(Joined(rels, RowsOfAll(es, s)), s.cls, e.obj, rank) == Nested(AsServed(e), s)
  {
    assert NodeAt(s, 0) == s && MatchesNode(rels, NodeAt(s, 0)) && Fits(e, s);
    WholeSlice(s.edges);
    if e.obj.id == Some(0) {
      NoKey(es, s, e.obj.address, e);
      ZeroKeyLosesChildren(Joined(rels, RowsOfAll(es, s)), s.cls, e.obj, rank);
      BareIsNested(rels, s, e.obj, |s.edges|);
    } else {
      assert EntsAt(e, s, 0) == [e];
      RebuildsNode(es, s, rels, rank, e, 0, e, |s.edges|);
    }
  }

  lemma NoKey(es: seq<Ent>, s: Schema, id: int, e: Ent)
    requires AddressesFree(es, s) && e in es && e.obj.id == Some(0) && e.obj.address == id
    ensures !IsKey(RowsOfAll(es, s), id)
  {
    var rows := RowsOfAll(es, s);
    RowsOfAllShape(es, s);
    forall row: Row, k | row in rows && 0 <= k < |row| && row[k].Some?
      ensures row[k].value.id != Some(id)
    {
      var x := CellAll(es, s, row, k);
      assert NotAKey(EntsAtAll(es, s, k), id);
    }
  }

  lemma {:induction false} BareIsNested(rels: Relations, s: Schema, o: Obj, m: nat)
    requires MatchesNode(rels, s) && m <= |s.edges|
    ensures BareFields(rels, s.cls, Columns(o), m) == NestedFields(Ent(o, []), s.edges[..m], Columns(o))
    decreases m
  {
    if m > 0 {
      BareIsNested(rels, s, o, m - 1);
      assert MatchesEdge(rels, s.cls, s.edges[m - 1], EdgesOf(rels, s.cls)[m - 1]);
      assert s.edges[..m][..m - 1] == s.edges[..m - 1];
    } else {
      assert s.edges[..m] == [];
    }
  }

  lemma {:induction false} RootsRebuilt(es: seq<Ent>, s: Schema, rels: Relations, rank: map<string, nat>, n: nat)
    requires Forest(es, s) && Matches(rels, s) && Acyclic(rels, rank) && n <= |es|
    ensures NestMains(Joined(rels, RowsOfAll(es, s)), s.cls, Objs(es[..n]), rank) == NestedAll(AllAsServed(es), s)[..n]
  {
    if n > 0 {
      RootsRebuilt(es, s, rels, rank, n - 1);
      RootRebuilt(es, s, rels, rank, es[n - 1]);
      NestedAllAt(AllAsServed(es), s, n - 1);
      ObjsGrow(es, n);
      OneMoreRoot(Joined(rels, RowsOfAll(es, s)), s.cls, Objs(es[..n - 1]), es[n - 1].obj,
                  NestedAll(AllAsServed(es), s), n, rank);
    }
  }

  lemma ObjsGrow(es: seq<Ent>, n: nat)
    requires 0 < n <= |es|
    ensures Objs(es[..n]) == Objs(es[..n - 1]) + [es[n - 1].obj]
  {
  }

  lemma OneMoreRoot(j: Join, cls: string, before: seq<Obj>, o: Obj, dicts: seq<Dict>, n: nat, rank: map<string, nat>)
    requires Acyclic(j.rels, rank) && 0 < n <= |dicts|
    requires NestMains(j, cls, before, rank) == dicts[..n - 1] && NestMain(j, cls, o, rank) == dicts[n - 1]
    ensures NestMains(j, cls, before + [o], rank) == dicts[..n]
  {
    NestMainsAppend(j, cls, before, o, rank);
  }

  lemma {:induction false} NestedAllAt(es: seq<Ent>, s: Schema, k: nat)
    requires k < |es|
    ensures NestedAll(es, s)[k] == Nested(es[k], s)
    decreases |es|
  {
    if k > 0 {
      NestedAllAt(es[1..], s, k - 1);
    }
  }

  lemma FirstRow(es: seq<Ent>, s: Schema)
    requires es != [] && FitsEach(es, s)
    ensures RowsOfAll(es, s) != [] && RowsOfAll(es, s)[0] != []
    ensures RowsOfAll(es, s)[0][0].Some? && RowsOfAll(es, s)[0][0].value.cls == s.cls
  {
    RowsShape(es[0], s);
    RootCells(es[0], s, 0);
    assert RowsOfAll(es, s)[0] == RowsOf(es[0], s)[0];
    assert es[0] in es;
  }

  lemma RootsAreMains(es: seq<Ent>, s: Schema)
    requires FitsEach(es, s) && RootsDistinct(es)
    ensures Mains(RowsOfAll(es, s), |RowsOfAll(es, s)|) == Objs(es)
  {
    assert [] + RowsOfAll(es, s) == RowsOfAll(es, s);
    MainsForest([], es, s, []);
    assert [] + Objs(es) == Objs(es);
  }

  /**
    Flattening any nested forest into join rows and serializing them gives the forest, in the same
    order, but for roots keyed 0, which come without their children: for every tree-shaped relation
    list, one class a column, and equal subtrees for equal class and id below one main object.
  */
  lemma SerializeServes(es: seq<Ent>, s: Schema, rels: Relations, rank: map<string, nat>)
    requires es != [] && s.edges != []
    requires Forest(es, s) && Matches(rels, s) && Acyclic(rels, rank)
    ensures Serialize(rels, RowsOfAll(es, s), rank) == Packaged(NestedAll(AllAsServed(es), s))
  {
    FirstRow(es, s);
    assert EdgesOf(rels, s.cls) != [] by {
      assert NodeAt(s, 0) == s && MatchesNode(rels, NodeAt(s, 0));
    }
    RootsApart(es, s);
    RootsAreMains(es, s);
    RootsRebuilt(es, s, rels, rank, |es|);
    assert es[..|es|] == es;
    var nested := NestedAll(AllAsServed(es), s);
    assert nested[..|es|] == nested;
  }

  // ---- the round trip, exactly ----

  /** No later relation of the class is written under the same name. */
  ghost predicate Shown(edges: seq<Edge>, m: nat)
    requires m < |edges|
  {
    forall k :: m < k < |edges| ==> EdgeKey(edges[k]) != EdgeKey(edges[m])
  }

  /** The last relation written under a name, if any. */
  function LastUnder(edges: seq<Edge>, key: string): (m: int)
    ensures -1 <= m < |edges|
    ensures m >= 0 ==> EdgeKey(edges[m]) == key
    ensures forall k :: m < k < |edges| ==> EdgeKey(edges[k]) != key
  {
    if edges == [] then -1
    else if EdgeKey(edges[|edges| - 1]) == key then |edges| - 1
    else LastUnder(edges[..|edges| - 1], key)
  }

  function KidsOf(e: Ent, m: nat): seq<Ent> {
    if m < |e.kids| then e.kids[m] else []
  }

  /** What a nested dictionary holds under a name: the last relation written there, else the column. */
  lemma {:induction false} FieldUnder(e: Ent, edges: seq<Edge>, base: map<string, Field>, key: string)
    ensures var m := LastUnder(edges, key);
            var fields := NestedFields(e, edges, base);
            && (key in fields <==> m >= 0 || key in base)
            && (m >= 0 ==> fields[key] == Value(edges[m].kind, NestedAll(KidsOf(e, m), edges[m].to)))
            && (m == -1 && key in base ==> fields[key] == base[key])
    decreases |edges|
  {
    if edges != [] {
      FieldUnder(e, edges[..|edges| - 1], base, key);
    }
  }

  lemma ValuesDiffer(kind: Kind, es: seq<Ent>, s: Schema)
    ensures Value(kind, NestedAll(es, s)) == Value(kind, NestedAll([], s)) <==> es == []
  {
  }

  /** An entity looks like one without children exactly when no relation that shows has any. */
  lemma LooksBare(e: Ent, s: Schema)
    ensures Nested(Ent(e.obj, []), s) == Nested(e, s) <==>
            forall m :: 0 <= m < |s.edges| && Shown(s.edges, m) ==> KidsOf(e, m) == []
  {
    var bare, base := Ent(e.obj, []), Columns(e.obj);
    var without, full := NestedFields(bare, s.edges, base), NestedFields(e, s.edges, base);
    forall m | 0 <= m < |s.edges| && Shown(s.edges, m) && KidsOf(e, m) != []
      ensures without != full
    {
      var key := EdgeKey(s.edges[m]);
      assert LastUnder(s.edges, key) == m;
      FieldUnder(bare, s.edges, base, key);
      FieldUnder(e, s.edges, base, key);
      ValuesDiffer(s.edges[m].kind, KidsOf(e, m), s.edges[m].to);
    }
    if forall m :: 0 <= m < |s.edges| && Shown(s.edges, m) ==> KidsOf(e, m) == [] {
      SameFields(e, s.edges, base);
    }
  }

  lemma SameFields(e: Ent, edges: seq<Edge>, base: map<string, Field>)
    requires forall m :: 0 <= m < |edges| && Shown(edges, m) ==> KidsOf(e, m) == []
    ensures NestedFields(Ent(e.obj, []), edges, base) == NestedFields(e, edges, base)
  {
    var bare := Ent(e.obj, []);
    var without, full := NestedFields(bare, edges, base), NestedFields(e, edges, base);
    forall key
      ensures key in without <==> key in full
      ensures key in without ==> without[key] == full[key]
    {
      FieldUnder(bare, edges, base, key);
      FieldUnder(e, edges, base, key);
      var m := LastUnder(edges, key);
      if m >= 0 {
        assert Shown(edges, m) && KidsOf(e, m) == KidsOf(bare, m);
      }
    }
  }

  /** A root keyed 0 has no children that show. */
  ghost predicate BareIfZero(e: Ent, s: Schema) {
    e.obj.id == Some(0) ==> forall m :: 0 <= m < |s.edges| && Shown(s.edges, m) ==> KidsOf(e, m) == []
  }

  ghost predicate ZeroRootsBare(es: seq<Ent>, s: Schema) {
    forall e :: e in es ==> BareIfZero(e, s)
  }

  lemma RootServed(e: Ent, s: Schema)
    requires Fits(e, s)
    ensures Nested(AsServed(e), s) == Nested(e, s) <==> BareIfZero(e, s)
  {
    if e.obj.id == Some(0) {
      LooksBare(e, s);
    }
  }

  lemma {:induction false} ServedExactly(es: seq<Ent>, s: Schema)
    requires FitsEach(es, s)
    ensures NestedAll(AllAsServed(es), s) == NestedAll(es, s) <==> ZeroRootsBare(es, s)
    decreases |es|
  {
    if es != [] {
      var served, rest := AllAsServed(es), es[1..];
      assert es[0] in es && es == [es[0]] + rest;
      RootServed(es[0], s);
      ServedExactly(rest, s);
      assert served[1..] == AllAsServed(rest);
      assert NestedAll(served, s)[0] == Nested(AsServed(es[0]), s);
      assert NestedAll(served, s)[1..] == NestedAll(AllAsServed(rest), s);
      assert NestedAll(es, s)[1..] == NestedAll(rest, s);
    }
  }

  /** So the round trip is exact if and only if no root keyed 0 has children that show. */
  lemma SerializeInvertsJoin(es: seq<Ent>, s: Schema, rels: Relations, rank: map<string, nat>)
    requires es != [] && s.edges != []
    requires Forest(es, s) && Matches(rels, s) && Acyclic(rels, rank)
    ensures Serialize(rels, RowsOfAll(es, s), rank) == Packaged(NestedAll(es, s)) <==> ZeroRootsBare(es, s)
  {
    SerializeServes(es, s, rels, rank);
    ServedExactly(es, s);
    PackagedInjective(NestedAll(AllAsServed(es), s), NestedAll(es, s));
  }

  lemma PackagedInjective(a: seq<Dict>, b: seq<Dict>)
    requires |a| == |b|
    ensures Packaged(a) == Packaged(b) <==> a == b
  {
    if |a| == 1 && a[0] == b[0] {
      assert a == [a[0]] == b;
    }
  }

  // ---- relation lists written from a schema ----

  /** The relation list of a schema: each class's relations before those of its targets. */
  function RelsOf(s: Schema): seq<Rel>
    decreases s, 1
  {
    OwnRels(s.cls, s.edges) + RelsBelow(s.edges)
  }

  function OwnRels(src: string, edges: seq<Edge>): (r: seq<Rel>)
    ensures |r| == |edges|
  {
    if edges == [] then []
    else [Rel(src, edges[0].kind, edges[0].to.cls, edges[0].custom)] + OwnRels(src, edges[1..])
  }

  function RelsBelow(edges: seq<Edge>): seq<Rel>
    decreases edges, 0
  {
    if edges == [] then []
    else
      assert edges[0].to < edges[0];
      RelsOf(edges[0].to) + RelsBelow(edges[1..])
  }

  function Key(rel: Rel): string {
    if rel.custom.Some? && rel.custom.value != "" then rel.custom.value
    else if IsList(rel.kind) then rel.dst + "s"
    else rel.dst
  }

  function From(list: seq<Rel>, cls: string): Edges {
    if list == [] then []
    else FromOne(list[0], cls) + From(list[1..], cls)
  }

  function Dsts(list: seq<Rel>): (d: seq<string>)
    ensures |d| == |list|
    ensures forall k :: 0 <= k < |list| ==> d[k] == list[k].dst
  {
    seq(|list|, k requires 0 <= k < |list| => list[k].dst)
  }

  function FromOne(rel: Rel, cls: string): Edges {
    if rel.src == cls then [(rel.dst, rel.kind)] else []
  }

  lemma {:induction false} FromConcat(a: seq<Rel>, b: seq<Rel>, cls: string)
    ensures From(a + b, cls) == From(a, cls) + From(b, cls)
  {
    if a == [] {
      assert a + b == b;
      assert From(a, cls) == [];
    } else {
      var head, rest := FromOne(a[0], cls), From(a[1..], cls);
      FromConcat(a[1..], b, cls);
      ConcatCons(a, b);
      Associative(head, rest, From(b, cls));
    }
  }

  lemma Associative(a: Edges, b: Edges, c: Edges)
    ensures (a + b) + c == a + (b + c)
  {
  }

  lemma ConcatCons(a: seq<Rel>, b: seq<Rel>)
    requires a != []
    ensures a + b != [] && (a + b)[0] == a[0] && (a + b)[1..] == a[1..] + b
  {
  }

  lemma {:induction false} FromTargets(list: seq<Rel>, cls: string)
    ensures forall k :: 0 <= k < |From(list, cls)| ==> From(list, cls)[k].0 in Dsts(list)
  {
    if list != [] {
      FromTargets(list[1..], cls);
      assert Dsts(list) == [list[0].dst] + Dsts(list[1..]);
    }
  }

  lemma {:induction false} FromNothing(list: seq<Rel>, cls: string)
    requires forall r :: r in list ==> r.src != cls
    ensures From(list, cls) == []
  {
    if list != [] {
      FromNothing(list[1..], cls);
    }
  }

  lemma {:induction false} SetNewEdge(edges: Edges, dst: string, kind: Kind)
    requires forall k :: 0 <= k < |edges| ==> edges[k].0 != dst
    ensures SetEdge(edges, dst, kind) == edges + [(dst, kind)]
  {
    if edges != [] {
      SetNewEdge(edges[1..], dst, kind);
    }
  }

  lemma LastIsNew(list: seq<Rel>)
    requires list != [] && Distinct(Dsts(list))
    ensures var init, last := list[..|list| - 1], list[|list| - 1];
            Distinct(Dsts(init)) && list == init + [last] && Dsts(list) == Dsts(init) + [last.dst]
            && last.dst !in Dsts(init) && forall r :: r in init ==> r.dst in Dsts(init)
  {
    var init, last := list[..|list| - 1], list[|list| - 1];
    assert Dsts(init) == Dsts(list)[..|list| - 1];
    forall r | r in init
      ensures r.dst in Dsts(init)
    {
      var k :| 0 <= k < |init| && init[k] == r;
      assert Dsts(init)[k] == r.dst;
    }
  }

  lemma AddedEdges(rels: Relations, rel: Rel, cls: string)
    ensures EdgesOf(AddRelation(rels, rel), cls) ==
            if cls == rel.src then SetEdge(EdgesOf(rels, cls), rel.dst, rel.kind) else EdgesOf(rels, cls)
  {
  }

  lemma AddedFrom(init: seq<Rel>, last: Rel, cls: string)
    ensures From(init + [last], cls) == From(init, cls) + (if cls == last.src then [(last.dst, last.kind)] else [])
  {
    FromConcat(init, [last], cls);
    assert [last][1..] == [];
  }

  /** Parsing a list in which no class is a target twice keeps every relation, in order. */
  lemma {:induction false} ParsedEdges(list: seq<Rel>, cls: string)
    requires Distinct(Dsts(list))
    ensures EdgesOf(Parsed(list), cls) == From(list, cls)
  {
    if list != [] {
      var init, last := list[..|list| - 1], list[|list| - 1];
      LastIsNew(list);
      ParsedEdges(init, cls);
      AddedEdges(Parsed(init), last, cls);
      AddedFrom(init, last, cls);
      FromTargets(init, cls);
      if cls == last.src {
        SetNewEdge(From(init, cls), last.dst, last.kind);
      }
    }
  }

  lemma {:induction false} ParsedTargets(list: seq<Rel>)
    requires Distinct(Dsts(list))
    ensures forall r :: r in list ==> r.dst in Parsed(list).reverse && Parsed(list).reverse[r.dst] == r.src
    ensures forall r :: r in list ==> RelationKey(Parsed(list), r.src, r.dst, r.kind) == Key(r)
    ensures forall p :: p in Parsed(list).customs ==> p.1 in Dsts(list)
  {
    if list != [] {
      LastIsNew(list);
      ParsedTargets(list[..|list| - 1]);
    }
  }

  // ---- the relation list of a schema names every class once ----

  lemma {:induction false} DstsOfSchema(s: Schema)
    ensures multiset(Dsts(RelsOf(s))) == multiset(AllClasses(s.edges))
    decreases s, 1
  {
    DstsBelow(s.cls, s.edges);
    assert Dsts(RelsOf(s)) == Dsts(OwnRels(s.cls, s.edges)) + Dsts(RelsBelow(s.edges));
  }

  lemma {:induction false} DstsBelow(src: string, edges: seq<Edge>)
    ensures multiset(Dsts(OwnRels(src, edges))) + multiset(Dsts(RelsBelow(edges))) == multiset(AllClasses(edges))
    decreases edges, 0
  {
    if edges != [] {
      assert edges[0].to < edges[0];
      var to, rest := edges[0].to, edges[1..];
      DstsOfSchema(to);
      DstsBelow(src, rest);
      SplitDsts(src, edges);
      SplitClasses(edges);
      Regroup(to.cls, Dsts(OwnRels(src, rest)), Dsts(RelsOf(to)), Dsts(RelsBelow(rest)), AllClasses(to.edges),
              AllClasses(rest));
    }
  }

  lemma DstsConcat(a: seq<Rel>, b: seq<Rel>)
    ensures Dsts(a + b) == Dsts(a) + Dsts(b)
  {
  }

  lemma SplitDsts(src: string, edges: seq<Edge>)
    requires edges != []
    ensures var to, rest := edges[0].to, edges[1..];
            && Dsts(OwnRels(src, edges)) == [to.cls] + Dsts(OwnRels(src, rest))
            && Dsts(RelsBelow(edges)) == Dsts(RelsOf(to)) + Dsts(RelsBelow(rest))
  {
    var rel := Rel(src, edges[0].kind, edges[0].to.cls, edges[0].custom);
    DstsConcat([rel], OwnRels(src, edges[1..]));
    assert Dsts([rel]) == [rel.dst];
    DstsConcat(RelsOf(edges[0].to), RelsBelow(edges[1..]));
  }

  lemma SplitClasses(edges: seq<Edge>)
    requires edges != []
    ensures AllClasses(edges) == [edges[0].to.cls] + AllClasses(edges[0].to.edges) + AllClasses(edges[1..])
  {
  }

  lemma Regroup(x: string, own: seq<string>, first: seq<string>, below: seq<string>, top: seq<string>,
                rest: seq<string>)
    requires multiset(first) == multiset(top) && multiset(own) + multiset(below) == multiset(rest)
    ensures multiset([x] + own) + multiset(first + below) == multiset([x] + top + rest)
  {
  }

  lemma {:induction false} DistinctCount(names: seq<string>, name: string)
    requires Distinct(names)
    ensures multiset(names)[name] <= 1
  {
    if names != [] {
      assert names == [names[0]] + names[1..];
      DistinctCount(names[1..], name);
      if names[0] == name {
        assert name !in names[1..];
      }
    }
  }

  lemma DistinctRearranged(a: seq<string>, b: seq<string>)
    requires multiset(a) == multiset(b) && Distinct(b)
    ensures Distinct(a)
  {
    forall i, k | 0 <= i < k < |a|
      ensures a[i] != a[k]
    {
      DistinctCount(b, a[i]);
      assert a == a[..k] + a[k..];
      assert a[i] in a[..k] && a[k] in a[k..];
    }
  }

  lemma {:induction false} SourcesOfSchema(s: Schema)
    ensures forall r :: r in RelsOf(s) ==> r.src in Classes(s)
    decreases s, 1
  {
    SourcesBelow(s.cls, s.edges);
  }

  lemma {:induction false} SourcesBelow(src: string, edges: seq<Edge>)
    ensures forall r :: r in OwnRels(src, edges) ==> r.src == src
    ensures forall r :: r in RelsBelow(edges) ==> r.src in AllClasses(edges)
    decreases edges, 0
  {
    if edges != [] {
      assert edges[0].to < edges[0];
      SourcesOfSchema(edges[0].to);
      SourcesBelow(src, edges[1..]);
    }
  }

  ghost predicate Disjoint(a: seq<string>, b: seq<string>) {
    forall name :: name in a ==> name !in b
  }

  lemma DistinctParts(a: seq<string>, b: seq<string>)
    requires Distinct(a + b)
    ensures Distinct(a) && Distinct(b) && Disjoint(a, b)
  {
    assert forall k :: 0 <= k < |a| ==> (a + b)[k] == a[k];
    assert forall k :: 0 <= k < |b| ==> (a + b)[|a| + k] == b[k];
  }

  function Own(n: Schema): seq<Rel> {
    OwnRels(n.cls, n.edges)
  }

  lemma {:induction false} FromOwn(src: string, edges: seq<Edge>)
    ensures |From(OwnRels(src, edges), src)| == |edges|
    ensures forall m :: 0 <= m < |edges| ==> From(OwnRels(src, edges), src)[m] == (edges[m].to.cls, edges[m].kind)
    ensures forall m :: 0 <= m < |edges| ==>
              OwnRels(src, edges)[m] == Rel(src, edges[m].kind, edges[m].to.cls, edges[m].custom)
  {
    if edges != [] {
      FromOwn(src, edges[1..]);
    }
  }

  /** Selecting a node's class from the relation list gives the node's own relations. */
  lemma {:induction false} FromSchema(s: Schema, i: nat)
    requires i < Width(s) && Distinct(Classes(s))
    ensures From(RelsOf(s), NodeAt(s, i).cls) == From(Own(NodeAt(s, i)), NodeAt(s, i).cls)
    ensures forall r :: r in Own(NodeAt(s, i)) ==> r in RelsOf(s)
    decreases s, 1
  {
    DistinctParts([s.cls], AllClasses(s.edges));
    if i == 0 {
      FromRoot(s);
    } else {
      var cls := NodeIn(s.edges, i - 1).cls;
      ClassOfColumnIn(s.edges, i - 1);
      assert cls in AllClasses(s.edges);
      FromChildren(s, cls);
      FromBelow(s.edges, i - 1);
    }
  }

  lemma FromRoot(s: Schema)
    requires s.cls !in AllClasses(s.edges)
    ensures From(RelsOf(s), s.cls) == From(Own(s), s.cls)
  {
    SourcesBelow(s.cls, s.edges);
    FromConcat(OwnRels(s.cls, s.edges), RelsBelow(s.edges), s.cls);
    FromNothing(RelsBelow(s.edges), s.cls);
  }

  lemma FromChildren(s: Schema, cls: string)
    requires cls != s.cls
    ensures From(RelsOf(s), cls) == From(RelsBelow(s.edges), cls)
  {
    SourcesBelow(s.cls, s.edges);
    FromConcat(OwnRels(s.cls, s.edges), RelsBelow(s.edges), cls);
    FromNothing(OwnRels(s.cls, s.edges), cls);
  }

  lemma {:induction false} FromBelow(edges: seq<Edge>, i: nat)
    requires i < Widths(edges) && Distinct(AllClasses(edges))
    ensures From(RelsBelow(edges), NodeIn(edges, i).cls) == From(Own(NodeIn(edges, i)), NodeIn(edges, i).cls)
    ensures forall r :: r in Own(NodeIn(edges, i)) ==> r in RelsBelow(edges)
    decreases edges, 0
  {
    assert edges[0].to < edges[0];
    var cls, w := NodeIn(edges, i).cls, Width(edges[0].to);
    DistinctParts(Classes(edges[0].to), AllClasses(edges[1..]));
    FromConcat(RelsOf(edges[0].to), RelsBelow(edges[1..]), cls);
    SourcesOfSchema(edges[0].to);
    SourcesBelow("", edges[1..]);
    if i < w {
      ClassOfColumn(edges[0].to, i);
      assert cls in Classes(edges[0].to);
      FromSchema(edges[0].to, i);
      FromNothing(RelsBelow(edges[1..]), cls);
    } else {
      ClassOfColumnIn(edges[1..], i - w);
      assert cls in AllClasses(edges[1..]);
      FromBelow(edges[1..], i - w);
      FromNothing(RelsOf(edges[0].to), cls);
    }
  }

  lemma ParsedMatches(s: Schema)
    requires Distinct(Classes(s))
    ensures Matches(Parsed(RelsOf(s)), s)
  {
    var list := RelsOf(s);
    DistinctParts([s.cls], AllClasses(s.edges));
    DstsOfSchema(s);
    DistinctRearranged(Dsts(list), AllClasses(s.edges));
    SourcesOfSchema(s);
    forall cls | cls !in Classes(s)
      ensures EdgesOf(Parsed(list), cls) == []
    {
      ParsedEdges(list, cls);
      FromNothing(list, cls);
    }
    forall i: nat | i < Width(s)
      ensures MatchesNode(Parsed(list), NodeAt(s, i))
    {
      ParsedNode(s, i);
    }
  }

  lemma ParsedNode(s: Schema, i: nat)
    requires Distinct(Classes(s)) && Distinct(Dsts(RelsOf(s))) && i < Width(s)
    ensures MatchesNode(Parsed(RelsOf(s)), NodeAt(s, i))
  {
    var list, n := RelsOf(s), NodeAt(s, i);
    ParsedTargets(list);
    FromSchema(s, i);
    FromOwn(n.cls, n.edges);
    ParsedEdges(list, n.cls);
    forall m | 0 <= m < |n.edges|
      ensures MatchesEdge(Parsed(list), n.cls, n.edges[m], EdgesOf(Parsed(list), n.cls)[m])
    {
      assert Own(n)[m] in list;
    }
  }

  /** Widths fall along every edge of a schema. */
  function SchemaRank(s: Schema): map<string, nat> {
    map c | c in Classes(s) :: Width(NodeAt(s, Position(Classes(s), c)))
  }

  function Position(names: seq<string>, name: string): (k: nat)
    requires name in names
    ensures k < |names| && names[k] == name
  {
    if names[0] == name then 0 else 1 + Position(names[1..], name)
  }

  lemma SchemaAcyclic(s: Schema, rels: Relations)
    requires Distinct(Classes(s)) && Matches(rels, s)
    ensures Acyclic(rels, SchemaRank(s))
  {
    forall src, k | 0 <= k < |EdgesOf(rels, src)|
      ensures Rank(SchemaRank(s), EdgesOf(rels, src)[k].0) < Rank(SchemaRank(s), src)
    {
      assert src in Classes(s);
      var i := Position(Classes(s), src);
      var n := NodeAt(s, i);
      ClassOfColumn(s, i);
      assert MatchesNode(rels, n) && MatchesEdge(rels, n.cls, n.edges[k], EdgesOf(rels, n.cls)[k]);
      ChildNode(s, i, k);
      var c := ChildColumn(n, i, k);
      ClassOfColumn(s, c);
      var cls := n.edges[k].to.cls;
      assert Classes(s)[c] == cls;
      assert Position(Classes(s), cls) == c;
      WidthsPrefix(n.edges, k);
    }
  }

  /** The whole pipeline, from the relation list a schema is written down as. */
  lemma SerializeInvertsJoinOfSchema(es: seq<Ent>, s: Schema)
    requires es != [] && s.edges != [] && Forest(es, s)
    ensures Acyclic(Parsed(RelsOf(s)), SchemaRank(s))
    ensures Serialize(Parsed(RelsOf(s)), RowsOfAll(es, s), SchemaRank(s)) == Packaged(NestedAll(es, s)) <==>
            ZeroRootsBare(es, s)
  {
    ParsedMatches(s);
    SchemaAcyclic(s, Parsed(RelsOf(s)));
    SerializeInvertsJoin(es, s, Parsed(RelsOf(s)), SchemaRank(s));
  }
}
