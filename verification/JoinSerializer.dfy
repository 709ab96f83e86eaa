/**
  The join un-flattener: rows of a multi-way join, one object (or nothing) a column,
  are turned back into one nested dictionary per main object.

  The first half is the algorithm in its own shape: loops that fill grouping maps, a
  de-duplicating loop with a `seen` set, and a recursion over the relation graph.  Each is
  proved against a function of the rows, and those functions are what the
  theorems here and in JoinRoundTrip speak about.
*/
module JoinSerializer {
  import opened Options

  datatype Kind = O2M | M2O | O2O | M2M

  predicate IsList(kind: Kind) {
    kind.O2M? || kind.M2M?
  }

  /** An ORM object: lower-cased class name, primary key, address in memory, column values. */
  datatype Obj = Obj(cls: string, id: Option<int>, address: int, columns: map<string, int>)

  type Row = seq<Option<Obj>>

  datatype Dict = Dict(fields: map<string, Field>)
  datatype Field = Column(v: int) | One(item: Option<Dict>) | Many(items: seq<Dict>)

  // ---- the relation list ----

  /** One entry of the relation list, split into its lower-cased parts. */
  datatype Rel = Rel(src: string, kind: Kind, dst: string, custom: Option<string>)

  type Edges = seq<(string, Kind)>

  datatype Relations = Relations(
    graph: map<string, Edges>,
    reverse: map<string, string>,
    customs: map<(string, string), string>)

  function EdgesOf(rels: Relations, cls: string): Edges {
    if cls in rels.graph then rels.graph[cls] else []
  }

  predicate Targets(edges: Edges, dst: string) {
    exists k :: 0 <= k < |edges| && edges[k].0 == dst
  }

  /** Assignment into an insertion-ordered dictionary. */
  function SetEdge(edges: Edges, dst: string, kind: Kind): Edges {
    if edges == [] then [(dst, kind)]
    else if edges[0].0 == dst then [(dst, kind)] + edges[1..]
    else [edges[0]] + SetEdge(edges[1..], dst, kind)
  }

  function AddRelation(rels: Relations, rel: Rel): Relations {
    Relations(
      rels.graph[rel.src := SetEdge(EdgesOf(rels, rel.src), rel.dst, rel.kind)],
      rels.reverse[rel.dst := rel.src],
      if rel.custom.Some? && rel.custom.value != ""
      then rels.customs[(rel.src, rel.dst) := rel.custom.value]
      else rels.customs)
  }

  function Parsed(list: seq<Rel>): Relations {
    if list == [] then Relations(map[], map[], map[])
    else AddRelation(Parsed(list[..|list| - 1]), list[|list| - 1])
  }

  method ParseRelationships(list: seq<Rel>) returns (rels: Relations)
    ensures rels == Parsed(list)
  {
    rels := Relations(map[], map[], map[]);
    for i := 0 to |list|
      invariant rels == Parsed(list[..i])
    {
      assert list[..i + 1][..i] == list[..i];
      rels := AddRelation(rels, list[i]);
    }
    assert list[..|list|] == list;
  }

  function RelationKey(rels: Relations, src: string, dst: string, kind: Kind): string {
    if (src, dst) in rels.customs then rels.customs[(src, dst)]
    else if IsList(kind) then dst + "s"
    else dst
  }

  // ---- the join as the serializer sees it ----

  /** The rows, the parsed relations and the first column each class was met in. */
  datatype Join = Join(rels: Relations, column: map<string, nat>, rows: seq<Row>)

  /** Grouping key of the nested hierarchy: main object, child class, parent primary key. */
  type Key = (int, string, int)

  function ObjId(o: Obj): int {
    if o.id.Some? && o.id.value != 0 then o.id.value else o.address
  }

  predicate HasMain(row: Row) {
    |row| > 0 && row[0].Some?
  }

  /** The object a child in column `k` is filed under. */
  function ParentIn(j: Join, row: Row, k: nat): Option<Obj>
    requires HasMain(row) && k < |row| && row[k].Some?
  {
    var cls := row[k].value.cls;
    if cls in j.rels.reverse then
      var parent := j.rels.reverse[cls];
      if parent in j.column && j.column[parent] < |row| then row[j.column[parent]] else None
    else if Targets(EdgesOf(j.rels, row[0].value.cls), cls) then row[0]
    else None
  }

  /** The key the object in column `k` of a row is filed under, if it is filed at all. */
  function FiledUnder(j: Join, row: Row, k: nat): Option<Key>
    requires k < |row|
  {
    if !HasMain(row) || row[k].None? then None
    else
      var parent := ParentIn(j, row, k);
      if parent.None? || parent.value.id.None? then None
      else Some((ObjId(row[0].value), row[k].value.cls, parent.value.id.value))
  }

  /** What the first `n` columns of a row file under a key. */
  function RowBucket(j: Join, row: Row, n: nat, key: Key): seq<Obj>
    requires n <= |row|
  {
    if n <= 1 then []
    else RowBucket(j, row, n - 1, key)
         + if FiledUnder(j, row, n - 1) == Some(key) then [row[n - 1].value] else []
  }

  /** What the first `n` rows file under a key, in row order, duplicates included. */
  function Bucket(j: Join, n: nat, key: Key): seq<Obj>
    requires n <= |j.rows|
  {
    if n == 0 then []
    else Bucket(j, n - 1, key) + RowBucket(j, j.rows[n - 1], |j.rows[n - 1]|, key)
  }

  function At(h: map<Key, seq<Obj>>, key: Key): seq<Obj> {
    if key in h then h[key] else []
  }

  /** The hierarchy holds what the first `n` rows file. */
  ghost predicate Holds(h: map<Key, seq<Obj>>, j: Join, n: nat)
    requires n <= |j.rows|
  {
    forall key :: At(h, key) == Bucket(j, n, key)
  }

  method BuildHierarchy(j: Join) returns (h: map<Key, seq<Obj>>)
    ensures Holds(h, j, |j.rows|)
  {
    h := map[];
    for i := 0 to |j.rows|
      invariant Holds(h, j, i)
    {
      ghost var before := h;
      h := FileRow(j, j.rows[i], h);
      BucketGrows(before, h, j, i);
    }
  }

  method FileRow(j: Join, row: Row, before: map<Key, seq<Obj>>) returns (h: map<Key, seq<Obj>>)
    ensures Filed(h, before, j, row, |row|)
  {
    h := before;
    if !HasMain(row) {
      FilesNothing(before, j, row, |row|);
      return;
    }
    FilesNothing(before, j, row, 1);
    for k := 1 to |row|
      invariant Filed(h, before, j, row, k)
    {
      var filed := FiledUnder(j, row, k);
      FilesOne(h, before, j, row, k);
      if filed.Some? {
        h := h[filed.value := At(h, filed.value) + [row[k].value]];
      }
    }
  }

  lemma BucketGrows(before: map<Key, seq<Obj>>, h: map<Key, seq<Obj>>, j: Join, i: nat)
    requires i < |j.rows| && Holds(before, j, i) && Filed(h, before, j, j.rows[i], |j.rows[i]|)
    ensures Holds(h, j, i + 1)
  {
    forall key
      ensures At(h, key) == Bucket(j, i + 1, key)
    {
      assert At(before, key) == Bucket(j, i, key);
      assert At(h, key) == At(before, key) + RowBucket(j, j.rows[i], |j.rows[i]|, key);
    }
  }

  /** The hierarchy has grown by what the first `k` columns of a row file. */
  ghost predicate Filed(h: map<Key, seq<Obj>>, before: map<Key, seq<Obj>>, j: Join, row: Row, k: nat)
    requires k <= |row|
  {
    forall key :: At(h, key) == At(before, key) + RowBucket(j, row, k, key)
  }

  lemma FilesOne(h: map<Key, seq<Obj>>, before: map<Key, seq<Obj>>, j: Join, row: Row, k: nat)
    requires 0 < k < |row| && Filed(h, before, j, row, k)
    ensures var filed := FiledUnder(j, row, k);
            var after := if filed.Some? then h[filed.value := At(h, filed.value) + [row[k].value]] else h;
            Filed(after, before, j, row, k + 1)
  {
    var filed := FiledUnder(j, row, k);
    var after := if filed.Some? then h[filed.value := At(h, filed.value) + [row[k].value]] else h;
    forall key
      ensures At(after, key) == At(before, key) + RowBucket(j, row, k + 1, key)
    {
      var more := if filed == Some(key) then [row[k].value] else [];
      assert RowBucket(j, row, k + 1, key) == RowBucket(j, row, k, key) + more;
      assert At(after, key) == At(h, key) + more;
      assert (At(before, key) + RowBucket(j, row, k, key)) + more ==
             At(before, key) + (RowBucket(j, row, k, key) + more);
    }
  }

  lemma FilesNothing(before: map<Key, seq<Obj>>, j: Join, row: Row, n: nat)
    requires n <= |row| && (HasMain(row) ==> n <= 1)
    ensures Filed(before, before, j, row, n)
  {
    forall key
      ensures At(before, key) == At(before, key) + RowBucket(j, row, n, key)
    {
      EmptyBucket(j, row, n, key);
    }
  }

  lemma {:induction false} EmptyBucket(j: Join, row: Row, n: nat, key: Key)
    requires n <= |row| && (HasMain(row) ==> n <= 1)
    ensures RowBucket(j, row, n, key) == []
  {
    if n > 1 {
      EmptyBucket(j, row, n - 1, key);
    }
  }

  // ---- de-duplication ----

  function DedupFrom(objs: seq<Obj>, seen: set<int>): seq<Obj> {
    if objs == [] then []
    else if objs[0].id.Some? && objs[0].id.value !in seen
    then [objs[0]] + DedupFrom(objs[1..], seen + {objs[0].id.value})
    else DedupFrom(objs[1..], seen)
  }

  function Dedup(objs: seq<Obj>): seq<Obj> {
    DedupFrom(objs, {})
  }

  function Ids(objs: seq<Obj>): set<int> {
    set o | o in objs && o.id.Some? :: o.id.value
  }

  lemma {:induction false} DedupFromConcat(a: seq<Obj>, b: seq<Obj>, seen: set<int>)
    ensures DedupFrom(a + b, seen) == DedupFrom(a, seen) + DedupFrom(b, seen + Ids(a))
  {
    if a == [] {
      assert a + b == b && seen + Ids(a) == seen;
    } else {
      assert (a + b)[1..] == a[1..] + b;
      assert a == [a[0]] + a[1..];
      if a[0].id.Some? && a[0].id.value !in seen {
        DedupFromConcat(a[1..], b, seen + {a[0].id.value});
        assert seen + Ids(a) == seen + {a[0].id.value} + Ids(a[1..]);
      } else {
        DedupFromConcat(a[1..], b, seen);
        assert seen + Ids(a) == seen + Ids(a[1..]);
      }
    }
  }

  method DedupeObjects(objs: seq<Obj>) returns (unique: seq<Obj>)
    ensures unique == Dedup(objs)
  {
    var seen: set<int> := {};
    unique := [];
    for i := 0 to |objs|
      invariant seen == Ids(objs[..i])
      invariant unique == DedupFrom(objs[..i], {})
    {
      DedupFromConcat(objs[..i], [objs[i]], {});
      assert objs[..i + 1] == objs[..i] + [objs[i]];
      assert {} + Ids(objs[..i]) == seen;
      if objs[i].id.Some? && objs[i].id.value !in seen {
        seen := seen + {objs[i].id.value};
        unique := unique + [objs[i]];
      }
    }
    assert objs[..|objs|] == objs;
  }

  // ---- nesting ----

  /** A rank that falls along every edge: the relation graph has no cycle. */
  ghost predicate Acyclic(rels: Relations, rank: map<string, nat>) {
    forall src, k :: 0 <= k < |EdgesOf(rels, src)| ==> Rank(rank, EdgesOf(rels, src)[k].0) < Rank(rank, src)
  }

  ghost function Rank(rank: map<string, nat>, cls: string): nat {
    if cls in rank then rank[cls] else 0
  }

  function Columns(o: Obj): map<string, Field> {
    map c | c in o.columns :: Column(o.columns[c])
  }

  function Value(kind: Kind, subs: seq<Dict>): Field {
    if IsList(kind) then Many(subs)
    else One(if subs == [] then None else Some(subs[0]))
  }

  /** The nested list of class `cls` below the parent `pk` of one main object. */
  function Nest(j: Join, main: int, cls: string, pk: int, ghost rank: map<string, nat>): seq<Dict>
    requires Acyclic(j.rels, rank)
    decreases Rank(rank, cls), 2, 0
  {
    NestAll(j, main, cls, Dedup(Bucket(j, |j.rows|, (main, cls, pk))), rank)
  }

  function NestAll(j: Join, main: int, cls: string, objs: seq<Obj>, ghost rank: map<string, nat>): (r: seq<Dict>)
    requires Acyclic(j.rels, rank)
    ensures |r| == |objs|
    decreases Rank(rank, cls), 1, |objs|
  {
    if objs == [] then []
    else [NestOne(j, main, cls, objs[0], rank)] + NestAll(j, main, cls, objs[1..], rank)
  }

  function NestOne(j: Join, main: int, cls: string, o: Obj, ghost rank: map<string, nat>): Dict
    requires Acyclic(j.rels, rank)
    decreases Rank(rank, cls), 1, 0
  {
    if o.id.None? then Dict(Columns(o))
    else Dict(NestFields(j, main, cls, o.id.value, Columns(o), |EdgesOf(j.rels, cls)|, rank))
  }

  /** The dictionary of a `cls` object once its first `n` relations have been written. */
  function NestFields(j: Join, main: int, cls: string, pk: int, base: map<string, Field>, n: nat,
                      ghost rank: map<string, nat>): map<string, Field>
    requires Acyclic(j.rels, rank)
    requires n <= |EdgesOf(j.rels, cls)|
    decreases Rank(rank, cls), 0, n
  {
    if n == 0 then base
    else
      var (sub, kind) := EdgesOf(j.rels, cls)[n - 1];
      NestFields(j, main, cls, pk, base, n - 1, rank)
        [RelationKey(j.rels, cls, sub, kind) := Value(kind, Nest(j, main, sub, pk, rank))]
  }

  method RecursiveBuild(j: Join, h: map<Key, seq<Obj>>, main: int, cls: string, pk: int, ghost rank: map<string, nat>)
    returns (output: seq<Dict>)
    requires Acyclic(j.rels, rank)
    requires Holds(h, j, |j.rows|)
    ensures output == Nest(j, main, cls, pk, rank)
    decreases Rank(rank, cls), 2
  {
    var objs := DedupeObjects(At(h, (main, cls, pk)));
    output := [];
    for i := 0 to |objs|
      invariant output == NestAll(j, main, cls, objs[..i], rank)
    {
      var data := BuildItem(j, h, main, cls, objs[i], rank);
      NestAllAppend(j, main, cls, objs[..i], objs[i], rank);
      assert objs[..i + 1] == objs[..i] + [objs[i]];
      output := output + [data];
    }
    assert objs[..|objs|] == objs;
  }

  /** One turn of that loop: an object's columns and, if it has a key, its relations. */
  method BuildItem(j: Join, h: map<Key, seq<Obj>>, main: int, cls: string, item: Obj, ghost rank: map<string, nat>)
    returns (data: Dict)
    requires Acyclic(j.rels, rank)
    requires Holds(h, j, |j.rows|)
    ensures data == NestOne(j, main, cls, item, rank)
    decreases Rank(rank, cls), 1
  {
    var fields := Columns(item);
    if item.id.Some? {
      fields := WriteRelations(j, h, main, cls, item.id.value, fields, rank);
    }
    data := Dict(fields);
  }

  /** The loop over `relation_graph[cls]` that both `build_nested` and `recursive_build` run. */
  method WriteRelations(j: Join, h: map<Key, seq<Obj>>, main: int, cls: string, pk: int, base: map<string, Field>,
                        ghost rank: map<string, nat>) returns (data: map<string, Field>)
    requires Acyclic(j.rels, rank)
    requires Holds(h, j, |j.rows|)
    ensures data == NestFields(j, main, cls, pk, base, |EdgesOf(j.rels, cls)|, rank)
    decreases Rank(rank, cls), 0
  {
    var edges := EdgesOf(j.rels, cls);
    data := base;
    for n := 0 to |edges|
      invariant data == NestFields(j, main, cls, pk, base, n, rank)
    {
      var (sub, kind) := edges[n];
      EdgeFalls(j.rels, cls, n, rank);
      var subs := RecursiveBuild(j, h, main, sub, pk, rank);
      data := data[RelationKey(j.rels, cls, sub, kind) := Value(kind, subs)];
      assert data == NestFields(j, main, cls, pk, base, n + 1, rank) by {
        NestFieldsStep(j, main, cls, pk, base, n, rank);
      }
    }
  }

  lemma EdgeFalls(rels: Relations, cls: string, n: nat, rank: map<string, nat>)
    requires Acyclic(rels, rank) && n < |EdgesOf(rels, cls)|
    ensures Rank(rank, EdgesOf(rels, cls)[n].0) < Rank(rank, cls)
  {
  }

  lemma NestFieldsStep(j: Join, main: int, cls: string, pk: int, base: map<string, Field>, n: nat,
                       rank: map<string, nat>)
    requires Acyclic(j.rels, rank) && n < |EdgesOf(j.rels, cls)|
    ensures var edge := EdgesOf(j.rels, cls)[n];
            NestFields(j, main, cls, pk, base, n + 1, rank) ==
            NestFields(j, main, cls, pk, base, n, rank)
              [RelationKey(j.rels, cls, edge.0, edge.1) := Value(edge.1, Nest(j, main, edge.0, pk, rank))]
  {
  }

  lemma {:induction false} NestAllAppend(j: Join, main: int, cls: string, objs: seq<Obj>, o: Obj,
                                         rank: map<string, nat>)
    requires Acyclic(j.rels, rank)
    ensures NestAll(j, main, cls, objs + [o], rank) ==
            NestAll(j, main, cls, objs, rank) + [NestOne(j, main, cls, o, rank)]
    decreases |objs|
  {
    if objs == [] {
      assert ([] + [o])[1..] == [];
    } else {
      assert (objs + [o])[1..] == objs[1..] + [o];
      NestAllAppend(j, main, cls, objs[1..], o, rank);
    }
  }

  // ---- the whole serializer, nested mode ----

  function MainIds(mains: seq<Obj>): set<int> {
    set o | o in mains :: ObjId(o)
  }

  /** The distinct main objects of the first `n` rows, in first-appearance order. */
  function Mains(rows: seq<Row>, n: nat): seq<Obj>
    requires n <= |rows|
  {
    if n == 0 then []
    else
      var before := Mains(rows, n - 1);
      if HasMain(rows[n - 1]) && ObjId(rows[n - 1][0].value) !in MainIds(before)
      then before + [rows[n - 1][0].value] else before
  }

  /** The column each class is first met in, row by row and left to right. */
  function FirstColumns(rows: seq<Row>, n: nat): map<string, nat>
    requires n <= |rows|
  {
    if n == 0 then map[]
    else RowColumns(FirstColumns(rows, n - 1), rows[n - 1], |rows[n - 1]|)
  }

  function RowColumns(before: map<string, nat>, row: Row, k: nat): map<string, nat>
    requires k <= |row|
  {
    if k == 0 then before
    else
      var m := RowColumns(before, row, k - 1);
      if row[k - 1].Some? && row[k - 1].value.cls !in m then m[row[k - 1].value.cls := k - 1] else m
  }

  method LocateColumns(rows: seq<Row>) returns (column: map<string, nat>)
    ensures column == FirstColumns(rows, |rows|)
  {
    column := map[];
    for i := 0 to |rows|
      invariant column == FirstColumns(rows, i)
    {
      for k := 0 to |rows[i]|
        invariant column == RowColumns(FirstColumns(rows, i), rows[i], k)
      {
        if rows[i][k].Some? && rows[i][k].value.cls !in column {
          column := column[rows[i][k].value.cls := k];
        }
      }
    }
  }

  function NestMain(j: Join, primary: string, o: Obj, ghost rank: map<string, nat>): Dict
    requires Acyclic(j.rels, rank)
  {
    Dict(NestFields(j, ObjId(o), primary, ObjId(o), Columns(o), |EdgesOf(j.rels, primary)|, rank))
  }

  function NestMains(j: Join, primary: string, mains: seq<Obj>, ghost rank: map<string, nat>): (r: seq<Dict>)
    requires Acyclic(j.rels, rank)
    ensures |r| == |mains|
  {
    if mains == [] then []
    else NestMains(j, primary, mains[..|mains| - 1], rank) + [NestMain(j, primary, mains[|mains| - 1], rank)]
  }

  datatype Serialized = Nothing | Raised | FlatMode | Single(item: Dict) | List(items: seq<Dict>)

  function Packaged(results: seq<Dict>): Serialized {
    if |results| == 1 then Single(results[0]) else List(results)
  }

  /** The value `select_join_serialize` returns for rows and a parsed relation list. */
  function Serialize(rels: Relations, rows: seq<Row>, ghost rank: map<string, nat>): Serialized
    requires Acyclic(rels, rank)
  {
    if rows == [] then Nothing
    else if rows[0] == [] then Raised
    else if rows[0][0].None? then Nothing
    else if rels.graph == map[] then FlatMode
    else
      var j := Join(rels, FirstColumns(rows, |rows|), rows);
      Packaged(NestMains(j, rows[0][0].value.cls, Mains(rows, |rows|), rank))
  }

  method SelectJoinSerialize(rows: seq<Row>, relationships: seq<Rel>, ghost rank: map<string, nat>)
    returns (r: Serialized)
    requires Acyclic(Parsed(relationships), rank)
    ensures r == Serialize(Parsed(relationships), rows, rank)
  {
    if rows == [] {
      return Nothing;
    }
    if rows[0] == [] {
      return Raised;
    }
    if rows[0][0].None? {
      return Nothing;
    }
    var primary := rows[0][0].value.cls;
    var rels := ParseRelationships(relationships);
    if rels.graph == map[] {
      return FlatMode;
    }
    var column := LocateColumns(rows);
    var j := Join(rels, column, rows);
    var h := BuildHierarchy(j);
    var results := BuildMains(j, h, primary, rank);
    r := Packaged(results);
  }

  method BuildMains(j: Join, h: map<Key, seq<Obj>>, primary: string, ghost rank: map<string, nat>)
    returns (results: seq<Dict>)
    requires Acyclic(j.rels, rank) && Holds(h, j, |j.rows|)
    ensures results == NestMains(j, primary, Mains(j.rows, |j.rows|), rank)
  {
    var rows := j.rows;
    results := [];
    var processed: set<int> := {};
    for i := 0 to |rows|
      invariant processed == MainIds(Mains(rows, i))
      invariant results == NestMains(j, primary, Mains(rows, i), rank)
    {
      if HasMain(rows[i]) && ObjId(rows[i][0].value) !in processed {
        var main := rows[i][0].value;
        NewMain(j, primary, Mains(rows, i), main, rank);
        processed := processed + {ObjId(main)};
        var data := WriteRelations(j, h, ObjId(main), primary, ObjId(main), Columns(main), rank);
        results := results + [Dict(data)];
      }
    }
  }

  lemma NestMainsAppend(j: Join, primary: string, mains: seq<Obj>, o: Obj, rank: map<string, nat>)
    requires Acyclic(j.rels, rank)
    ensures NestMains(j, primary, mains + [o], rank) ==
            NestMains(j, primary, mains, rank) + [NestMain(j, primary, o, rank)]
  {
    assert (mains + [o])[..|mains|] == mains;
  }

  lemma NewMain(j: Join, primary: string, before: seq<Obj>, main: Obj, rank: map<string, nat>)
    requires Acyclic(j.rels, rank)
    ensures MainIds(before + [main]) == MainIds(before) + {ObjId(main)}
    ensures NestMains(j, primary, before + [main], rank) ==
            NestMains(j, primary, before, rank) + [NestMain(j, primary, main, rank)]
  {
    NestMainsAppend(j, primary, before, main, rank);
    assert forall o :: o in before + [main] <==> o in before || o == main;
  }
}
