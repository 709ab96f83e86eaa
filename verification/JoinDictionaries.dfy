/**
  What the serialized dictionaries hold, for arbitrary rows: told from the objects' columns and
  the relation list, field by field.
*/
module JoinDictionaries {
  import opened Options
  import opened JoinSerializer

  // ---- any relation list, entry by entry ----

  ghost predicate Between(rel: Rel, src: string, dst: string) {
    rel.src == src && rel.dst == dst
  }

  /** The entry is the last between the two classes. */
  ghost predicate LastBetween(list: seq<Rel>, i: nat, src: string, dst: string) {
    i < |list| && Between(list[i], src, dst) && forall k :: i < k < |list| ==> !Between(list[k], src, dst)
  }

  /** The entry is the last that leads to the class. */
  ghost predicate LastTo(list: seq<Rel>, i: nat, dst: string) {
    i < |list| && list[i].dst == dst && forall k :: i < k < |list| ==> list[k].dst != dst
  }

  ghost predicate Renames(rel: Rel, src: string, dst: string) {
    Between(rel, src, dst) && rel.custom != None && rel.custom != Some("")
  }

  /** The entry is the last that names the relation between the two classes, with a name that is not empty. */
  ghost predicate LastRenames(list: seq<Rel>, i: nat, src: string, dst: string) {
    i < |list| && Renames(list[i], src, dst) && forall k :: i < k < |list| ==> !Renames(list[k], src, dst)
  }

  ghost predicate OneEach(edges: Edges) {
    forall a, b :: 0 <= a < b < |edges| ==> edges[a].0 != edges[b].0
  }

  /** The edges are the same but for the one to `dst`, which is of this kind, in its place or last. */
  ghost predicate EdgeSet(edges: Edges, dst: string, kind: Kind, after: Edges) {
    && |after| == |edges| + (if Targets(edges, dst) then 0 else 1) && OneEach(after)
    && (forall k :: 0 <= k < |edges| ==> after[k] == if edges[k].0 == dst then (dst, kind) else edges[k])
    && (!Targets(edges, dst) ==> after[|edges|] == (dst, kind))
  }

  lemma EdgeSetBehind(edge: (string, Kind), rest: Edges, dst: string, kind: Kind, after: Edges)
    requires OneEach([edge] + rest) && edge.0 != dst && EdgeSet(rest, dst, kind, after)
    ensures EdgeSet([edge] + rest, dst, kind, [edge] + after)
  {
    var edges, all := [edge] + rest, [edge] + after;
    assert Targets(edges, dst) <==> Targets(rest, dst) by {
      if Targets(edges, dst) {
        var k :| 0 <= k < |edges| && edges[k].0 == dst;
        assert rest[k - 1].0 == dst;
      }
      if Targets(rest, dst) {
        var k :| 0 <= k < |rest| && rest[k].0 == dst;
        assert edges[k + 1].0 == dst;
      }
    }
    forall k | 0 <= k < |edges|
      ensures all[k] == if edges[k].0 == dst then (dst, kind) else edges[k]
    {
      assert k > 0 ==> all[k] == after[k - 1] && edges[k] == rest[k - 1];
    }
    forall k | 0 < k < |all|
      ensures all[k].0 != edge.0
    {
      assert all[k] == after[k - 1];
      if k < |edges| {
        assert edges[k] == rest[k - 1] && edges[0].0 != edges[k].0;
      } else {
        assert k - 1 == |rest|;
      }
    }
    assert OneEach(all) by {
      assert forall a, b :: 0 < a < b < |all| ==> all[a] == after[a - 1] && all[b] == after[b - 1];
    }
  }

  lemma {:induction false} SetEdgeExact(edges: Edges, dst: string, kind: Kind)
    requires OneEach(edges)
    ensures EdgeSet(edges, dst, kind, SetEdge(edges, dst, kind))
  {
    if edges == [] {
    } else if edges[0].0 == dst {
      assert Targets(edges, dst);
    } else {
      SetEdgeExact(edges[1..], dst, kind);
      assert [edges[0]] + edges[1..] == edges;
      EdgeSetBehind(edges[0], edges[1..], dst, kind, SetEdge(edges[1..], dst, kind));
    }
  }

  /** Some entry, the last between the two classes, gives the edge its kind. */
  ghost predicate EdgeSaid(list: seq<Rel>, src: string, edge: (string, Kind)) {
    exists i: nat :: LastBetween(list, i, src, edge.0) && edge.1 == list[i].kind
  }

  ghost predicate Leads(edges: Edges, list: seq<Rel>, i: nat, src: string) {
    i < |list| && list[i].src == src ==> Targets(edges, list[i].dst)
  }

  /** The edges of a class lead, once each, to the classes the list relates it to, by the kind given last. */
  ghost predicate EdgesSay(edges: Edges, list: seq<Rel>, src: string) {
    && OneEach(edges)
    && (forall i: nat :: Leads(edges, list, i, src))
    && (forall k :: 0 <= k < |edges| ==> EdgeSaid(list, src, edges[k]))
  }

  lemma TargetsGrow(edges: Edges, dst: string, kind: Kind, x: string)
    requires OneEach(edges)
    ensures Targets(SetEdge(edges, dst, kind), x) <==> x == dst || Targets(edges, x)
  {
    SetEdgeExact(edges, dst, kind);
    var after := SetEdge(edges, dst, kind);
    if Targets(edges, x) {
      var k :| 0 <= k < |edges| && edges[k].0 == x;
      assert after[k].0 == x;
    } else if x == dst {
      assert after[|edges|].0 == x;
    }
  }

  lemma SaidStill(list: seq<Rel>, rel: Rel, src: string, edge: (string, Kind))
    requires EdgeSaid(list, src, edge) && !Between(rel, src, edge.0)
    ensures EdgeSaid(list + [rel], src, edge)
  {
    var i: nat :| LastBetween(list, i, src, edge.0) && edge.1 == list[i].kind;
    assert LastBetween(list + [rel], i, src, edge.0);
  }

  lemma EdgesGrow(edges: Edges, list: seq<Rel>, src: string, rel: Rel)
    requires EdgesSay(edges, list, src)
    ensures EdgesSay(if rel.src == src then SetEdge(edges, rel.dst, rel.kind) else edges, list + [rel], src)
  {
    var all := list + [rel];
    var after := if rel.src == src then SetEdge(edges, rel.dst, rel.kind) else edges;
    if rel.src == src {
      SetEdgeExact(edges, rel.dst, rel.kind);
    }
    forall i: nat
      ensures Leads(after, all, i, src)
    {
      if i < |all| && rel.src == src {
        TargetsGrow(edges, rel.dst, rel.kind, all[i].dst);
      }
      assert i < |list| ==> Leads(edges, list, i, src);
    }
    forall k | 0 <= k < |after|
      ensures EdgeSaid(all, src, after[k])
    {
      if Between(rel, src, after[k].0) {
        NewestSaid(edges, list, rel, src, k);
      } else {
        SaidStill(list, rel, src, after[k]);
      }
    }
  }

  lemma NewestSaid(edges: Edges, list: seq<Rel>, rel: Rel, src: string, k: nat)
    requires OneEach(edges) && k < |SetEdge(edges, rel.dst, rel.kind)|
    requires SetEdge(edges, rel.dst, rel.kind)[k].0 == rel.dst && rel.src == src
    ensures EdgeSaid(list + [rel], src, SetEdge(edges, rel.dst, rel.kind)[k])
  {
    SetEdgeExact(edges, rel.dst, rel.kind);
    assert LastBetween(list + [rel], |list|, src, rel.dst);
  }

  /** A class's source is that of the last entry that leads to it. */
  ghost predicate ReverseSays(rels: Relations, list: seq<Rel>, dst: string) {
    && (dst in rels.reverse <==> exists i: nat :: LastTo(list, i, dst))
    && forall i: nat :: LastTo(list, i, dst) ==> rels.reverse[dst] == list[i].src
  }

  /** A relation's custom name is the last one given that is not empty. */
  ghost predicate CustomsSay(rels: Relations, list: seq<Rel>, src: string, dst: string) {
    && ((src, dst) in rels.customs <==> exists i: nat :: LastRenames(list, i, src, dst))
    && forall i: nat :: LastRenames(list, i, src, dst) ==> Some(rels.customs[(src, dst)]) == list[i].custom
  }

  lemma ReverseGrows(rels: Relations, list: seq<Rel>, rel: Rel, dst: string)
    requires ReverseSays(rels, list, dst)
    ensures ReverseSays(AddRelation(rels, rel), list + [rel], dst)
  {
    var all := list + [rel];
    if rel.dst == dst {
      assert LastTo(all, |list|, dst);
    } else {
      forall i: nat
        ensures LastTo(all, i, dst) <==> LastTo(list, i, dst)
      {
        assert i < |list| ==> all[i] == list[i];
        assert LastTo(list, i, dst) ==> forall k :: i < k < |all| ==> all[k].dst != dst;
        assert LastTo(all, i, dst) ==> forall k :: i < k < |list| ==> all[k] == list[k];
      }
    }
  }

  lemma CustomsGrow(rels: Relations, list: seq<Rel>, rel: Rel, src: string, dst: string)
    requires CustomsSay(rels, list, src, dst)
    ensures CustomsSay(AddRelation(rels, rel), list + [rel], src, dst)
  {
    var all := list + [rel];
    if Renames(rel, src, dst) {
      assert LastRenames(all, |list|, src, dst);
    } else {
      forall i: nat
        ensures LastRenames(all, i, src, dst) <==> LastRenames(list, i, src, dst)
      {
        assert i < |list| ==> all[i] == list[i];
        assert LastRenames(list, i, src, dst) ==> forall k :: i < k < |all| ==> !Renames(all[k], src, dst);
        assert LastRenames(all, i, src, dst) ==> forall k :: i < k < |list| ==> all[k] == list[k];
      }
    }
  }

  /** Whatever the list: repeated, contradictory and renamed entries included. */
  lemma {:induction false} ParsedExactly(list: seq<Rel>, src: string, dst: string)
    ensures EdgesSay(EdgesOf(Parsed(list), src), list, src)
    ensures ReverseSays(Parsed(list), list, dst) && CustomsSay(Parsed(list), list, src, dst)
  {
    if list != [] {
      var init, rel := list[..|list| - 1], list[|list| - 1];
      assert init + [rel] == list;
      ParsedExactly(init, src, dst);
      EdgesGrow(EdgesOf(Parsed(init), src), init, src, rel);
      ReverseGrows(Parsed(init), init, rel, dst);
      CustomsGrow(Parsed(init), init, rel, src, dst);
    }
  }

  lemma ParsedNothing(list: seq<Rel>)
    ensures Parsed(list).graph == map[] <==> list == []
  {
    if list != [] {
      assert list[|list| - 1].src in Parsed(list).graph;
    }
  }

  // ---- the fields of a dictionary ----

  /** The field a relation goes to: its custom name, else the class, in the plural for a to-many relation. */
  function FieldName(rels: Relations, src: string, n: nat): string
    requires n < |EdgesOf(rels, src)|
  {
    var (dst, kind) := EdgesOf(rels, src)[n];
    if (src, dst) in rels.customs then rels.customs[(src, dst)]
    else match kind
      case O2M => dst + "s"
      case M2M => dst + "s"
      case M2O => dst
      case O2O => dst
  }

  ghost predicate Names(rels: Relations, cls: string, n: nat, field: string) {
    n < |EdgesOf(rels, cls)| && FieldName(rels, cls, n) == field
  }

  /** One of the first `n` relations of the class goes to this field. */
  ghost predicate Overwritten(rels: Relations, cls: string, n: nat, field: string) {
    exists m: nat :: m < n && Names(rels, cls, m, field)
  }

  /** Of the first `n` relations, this is the last to go to its field. */
  ghost predicate LastNamed(rels: Relations, cls: string, n: nat, m: nat) {
    && m < n <= |EdgesOf(rels, cls)|
    && forall k: nat :: m < k < n ==> !Names(rels, cls, k, FieldName(rels, cls, m))
  }

  /** The objects of a class filed under a parent of a main object, each id once. */
  function Children(j: Join, main: int, cls: string, pk: int): seq<Obj> {
    Dedup(Bucket(j, |j.rows|, (main, cls, pk)))
  }

  /**
    The fields of a `cls` object once `n` relations have been written: each column no relation goes
    to holds the object's value, and each relation no later one overwrites holds its children, all
    of them for a to-many relation, the first or nothing for a to-one relation.
  */
  ghost predicate Shows(j: Join, main: int, cls: string, o: Obj, pk: int, n: nat, fields: map<string, Field>,
                        rank: map<string, nat>)
    requires Acyclic(j.rels, rank) && n <= |EdgesOf(j.rels, cls)|
    decreases Rank(rank, cls), 1
  {
    && (forall c :: c in fields <==> c in o.columns || Overwritten(j.rels, cls, n, c))
    && (forall c :: c in o.columns && !Overwritten(j.rels, cls, n, c) ==> fields[c] == Column(o.columns[c]))
    && (forall m: nat :: LastNamed(j.rels, cls, n, m) ==> ShowsRelation(j, main, cls, m, pk, fields, rank))
  }

  ghost predicate ShowsRelation(j: Join, main: int, cls: string, m: nat, pk: int, fields: map<string, Field>,
                                rank: map<string, nat>)
    requires Acyclic(j.rels, rank) && m < |EdgesOf(j.rels, cls)|
    decreases Rank(rank, cls), 0, 1
  {
    var field := FieldName(j.rels, cls, m);
    field in fields && ShowsChildren(j, main, cls, m, pk, fields[field], rank)
  }

  ghost predicate ShowsChildren(j: Join, main: int, cls: string, m: nat, pk: int, field: Field, rank: map<string, nat>)
    requires Acyclic(j.rels, rank) && m < |EdgesOf(j.rels, cls)|
    decreases Rank(rank, cls), 0, 0
  {
    var (sub, kind) := EdgesOf(j.rels, cls)[m];
    assert Rank(rank, sub) < Rank(rank, cls);
    var children := Children(j, main, sub, pk);
    if kind == O2M || kind == M2M then
      && field.Many? && |field.items| == |children|
      && forall i :: 0 <= i < |children| ==> ShowsItem(j, main, sub, children[i], field.items[i], rank)
    else
      && field.One?
      && (children == [] ==> field.item == None)
      && (children != [] ==> field.item.Some? && ShowsItem(j, main, sub, children[0], field.item.value, rank))
  }

  /** A nested object: without a key it has its columns only. */
  ghost predicate ShowsItem(j: Join, main: int, cls: string, o: Obj, d: Dict, rank: map<string, nat>)
    requires Acyclic(j.rels, rank)
    decreases Rank(rank, cls), 2
  {
    if o.id.None? then Shows(j, main, cls, o, 0, 0, d.fields, rank)
    else Shows(j, main, cls, o, o.id.value, |EdgesOf(j.rels, cls)|, d.fields, rank)
  }

  // ---- every dictionary shows its object ----

  lemma ColumnsShow(j: Join, main: int, cls: string, o: Obj, pk: int, rank: map<string, nat>)
    requires Acyclic(j.rels, rank)
    ensures Shows(j, main, cls, o, pk, 0, Columns(o), rank)
  {
  }

  lemma {:induction false} FieldsShow(j: Join, main: int, cls: string, o: Obj, pk: int, n: nat, rank: map<string, nat>)
    requires Acyclic(j.rels, rank) && n <= |EdgesOf(j.rels, cls)|
    ensures Shows(j, main, cls, o, pk, n, NestFields(j, main, cls, pk, Columns(o), n, rank), rank)
    decreases Rank(rank, cls), 0, n
  {
    if n == 0 {
      ColumnsShow(j, main, cls, o, pk, rank);
    } else {
      var (sub, kind) := EdgesOf(j.rels, cls)[n - 1];
      EdgeFalls(j.rels, cls, n - 1, rank);
      FieldsShow(j, main, cls, o, pk, n - 1, rank);
      var before := NestFields(j, main, cls, pk, Columns(o), n - 1, rank);
      var value := Value(kind, Nest(j, main, sub, pk, rank));
      NestShows(j, main, sub, pk, rank);
      assert ShowsChildren(j, main, cls, n - 1, pk, value, rank);
      OneMore(j, main, cls, o, pk, n, before, value, rank);
      NestFieldsStep(j, main, cls, pk, Columns(o), n - 1, rank);
    }
  }

  /** One more relation written. */
  lemma OneMore(j: Join, main: int, cls: string, o: Obj, pk: int, n: nat, before: map<string, Field>, value: Field,
                rank: map<string, nat>)
    requires Acyclic(j.rels, rank) && 0 < n <= |EdgesOf(j.rels, cls)|
    requires Shows(j, main, cls, o, pk, n - 1, before, rank)
    requires ShowsChildren(j, main, cls, n - 1, pk, value, rank)
    ensures Shows(j, main, cls, o, pk, n, before[FieldName(j.rels, cls, n - 1) := value], rank)
  {
    var after := before[FieldName(j.rels, cls, n - 1) := value];
    forall c
      ensures Overwritten(j.rels, cls, n, c) <==>
              Overwritten(j.rels, cls, n - 1, c) || c == FieldName(j.rels, cls, n - 1)
    {
      OneMoreName(j.rels, cls, n, c);
    }
    forall m: nat | LastNamed(j.rels, cls, n, m)
      ensures ShowsRelation(j, main, cls, m, pk, after, rank)
    {
      if m < n - 1 {
        StillLast(j.rels, cls, n, m);
        assert ShowsRelation(j, main, cls, m, pk, before, rank);
      }
    }
  }

  lemma OneMoreName(rels: Relations, cls: string, n: nat, field: string)
    requires 0 < n <= |EdgesOf(rels, cls)|
    ensures Overwritten(rels, cls, n, field) <==>
            Overwritten(rels, cls, n - 1, field) || field == FieldName(rels, cls, n - 1)
  {
    if field == FieldName(rels, cls, n - 1) {
      assert Names(rels, cls, n - 1, field);
    }
  }

  lemma StillLast(rels: Relations, cls: string, n: nat, m: nat)
    requires LastNamed(rels, cls, n, m) && m < n - 1
    ensures LastNamed(rels, cls, n - 1, m) && FieldName(rels, cls, m) != FieldName(rels, cls, n - 1)
  {
    assert !Names(rels, cls, n - 1, FieldName(rels, cls, m));
  }

  ghost predicate AllShown(j: Join, main: int, cls: string, objs: seq<Obj>, dicts: seq<Dict>, rank: map<string, nat>)
    requires Acyclic(j.rels, rank)
  {
    && |dicts| == |objs|
    && forall i :: 0 <= i < |objs| ==> ShowsItem(j, main, cls, objs[i], dicts[i], rank)
  }

  lemma {:induction false} NestShows(j: Join, main: int, cls: string, pk: int, rank: map<string, nat>)
    requires Acyclic(j.rels, rank)
    ensures AllShown(j, main, cls, Children(j, main, cls, pk), Nest(j, main, cls, pk, rank), rank)
    decreases Rank(rank, cls), 2, 0
  {
    AllShow(j, main, cls, Children(j, main, cls, pk), rank);
  }

  lemma {:induction false} AllShow(j: Join, main: int, cls: string, objs: seq<Obj>, rank: map<string, nat>)
    requires Acyclic(j.rels, rank)
    ensures AllShown(j, main, cls, objs, NestAll(j, main, cls, objs, rank), rank)
    decreases Rank(rank, cls), 1, |objs|
  {
    if objs != [] {
      ItemShows(j, main, cls, objs[0], rank);
      AllShow(j, main, cls, objs[1..], rank);
    }
  }

  lemma {:induction false} ItemShows(j: Join, main: int, cls: string, o: Obj, rank: map<string, nat>)
    requires Acyclic(j.rels, rank)
    ensures ShowsItem(j, main, cls, o, NestOne(j, main, cls, o, rank), rank)
    decreases Rank(rank, cls), 1, 0
  {
    if o.id.None? {
      ColumnsShow(j, main, cls, o, 0, rank);
    } else {
      FieldsShow(j, main, cls, o, o.id.value, |EdgesOf(j.rels, cls)|, rank);
    }
  }

  // ---- the whole result ----

  /** A main object is its own main object, under its key or, for want of one that is not 0, its address. */
  ghost predicate ShowsMain(j: Join, primary: string, o: Obj, d: Dict, rank: map<string, nat>)
    requires Acyclic(j.rels, rank)
  {
    var key := if o.id == None || o.id == Some(0) then o.address else o.id.value;
    Shows(j, key, primary, o, key, |EdgesOf(j.rels, primary)|, d.fields, rank)
  }

  ghost predicate MainsShown(j: Join, primary: string, mains: seq<Obj>, dicts: seq<Dict>, rank: map<string, nat>)
    requires Acyclic(j.rels, rank)
  {
    |dicts| == |mains| && forall i :: 0 <= i < |mains| ==> ShowsMain(j, primary, mains[i], dicts[i], rank)
  }

  lemma {:induction false} MainsShow(j: Join, primary: string, mains: seq<Obj>, rank: map<string, nat>)
    requires Acyclic(j.rels, rank)
    ensures MainsShown(j, primary, mains, NestMains(j, primary, mains, rank), rank)
  {
    if mains != [] {
      var o := mains[|mains| - 1];
      MainsShow(j, primary, mains[..|mains| - 1], rank);
      FieldsShow(j, ObjId(o), primary, o, ObjId(o), |EdgesOf(j.rels, primary)|, rank);
    }
  }

  /** The rows are served nested: there is a first main object and a relation. */
  ghost predicate Nests(rels: Relations, rows: seq<Row>) {
    rows != [] && rows[0] != [] && rows[0][0].Some? && rels.graph != map[]
  }

  /**
    For arbitrary rows and any acyclic relation list: one main object gives its dictionary, any other
    number the list of theirs, and every dictionary shows its object all the way down.  Otherwise
    there is nothing, an error for a first row without columns, or the flat form without relations.
  */
  lemma SerializeShows(rels: Relations, rows: seq<Row>, rank: map<string, nat>)
    requires Acyclic(rels, rank)
    ensures var r := Serialize(rels, rows, rank);
            && (Nests(rels, rows) ==>
                  var mains := Mains(rows, |rows|);
                  var j := Join(rels, FirstColumns(rows, |rows|), rows);
                  var primary := rows[0][0].value.cls;
                  && (|mains| == 1 ==> r.Single? && ShowsMain(j, primary, mains[0], r.item, rank))
                  && (|mains| != 1 ==> r.List? && MainsShown(j, primary, mains, r.items, rank)))
            && (r.Nothing? <==> rows == [] || (rows[0] != [] && rows[0][0].None?))
            && (r.Raised? <==> rows != [] && rows[0] == [])
            && (r.FlatMode? <==> rows != [] && rows[0] != [] && rows[0][0].Some? && rels.graph == map[])
  {
    if Nests(rels, rows) {
      var j := Join(rels, FirstColumns(rows, |rows|), rows);
      MainsShow(j, rows[0][0].value.cls, Mains(rows, |rows|), rank);
    }
  }
}
