/**
  Join rows of nested entities: the cartesian product over sibling branches, with one row of
  nothing for an empty branch, and what selecting from those rows gives back.
*/
module JoinRows {
  import opened Options
  import opened JoinSerializer
  import opened JoinGrouping

  /** A tree-shaped relation list: each class with its outgoing relations. */
  datatype Schema = Schema(cls: string, edges: seq<Edge>)
  datatype Edge = Edge(kind: Kind, custom: Option<string>, to: Schema)

  /** A nested entity: an object and, relation by relation, the entities below it. */
  datatype Ent = Ent(obj: Obj, kids: seq<seq<Ent>>)

  // ---- columns of a join in preorder of the schema ----

  function Width(s: Schema): (w: nat)
    ensures w >= 1
    decreases s, 1
  {
    1 + Widths(s.edges)
  }

  function Widths(edges: seq<Edge>): nat
    decreases edges, 0
  {
    if edges == [] then 0
    else
      assert edges[0].to < edges[0];
      Width(edges[0].to) + Widths(edges[1..])
  }

  function Classes(s: Schema): (c: seq<string>)
    ensures |c| == Width(s)
    decreases s, 1
  {
    [s.cls] + AllClasses(s.edges)
  }

  function AllClasses(edges: seq<Edge>): (c: seq<string>)
    ensures |c| == Widths(edges)
    decreases edges, 0
  {
    if edges == [] then []
    else
      assert edges[0].to < edges[0];
      Classes(edges[0].to) + AllClasses(edges[1..])
  }

  // ---- flattening ----

  function Nulls(n: nat): Row {
    seq(n, _ => None)
  }

  function Beside(a: Row, rows: seq<Row>): seq<Row> {
    if rows == [] then [] else [a + rows[0]] + Beside(a, rows[1..])
  }

  /** The cartesian product of two blocks of columns. */
  function Cross(a: seq<Row>, b: seq<Row>): seq<Row> {
    if a == [] then [] else Beside(a[0], b) + Cross(a[1..], b)
  }

  /** The join rows of one entity. */
  function RowsOf(e: Ent, s: Schema): seq<Row>
    decreases s, 2
  {
    Beside([Some(e.obj)], Branches(e.kids, s.edges))
  }

  /** Sibling branches multiply; an empty branch contributes one row of nothing. */
  function Branches(kids: seq<seq<Ent>>, edges: seq<Edge>): seq<Row>
    decreases edges, 0
  {
    if edges == [] then [[]]
    else
      assert edges[0].to < edges[0];
      Cross(Block(kids, edges[0].to), Branches(if kids == [] then [] else kids[1..], edges[1..]))
  }

  function Block(kids: seq<seq<Ent>>, s: Schema): seq<Row>
    decreases s, 4
  {
    if kids == [] || kids[0] == [] then [Nulls(Width(s))] else RowsOfAll(kids[0], s)
  }

  function RowsOfAll(es: seq<Ent>, s: Schema): seq<Row>
    decreases s, 3, |es|
  {
    if es == [] then [] else RowsOf(es[0], s) + RowsOfAll(es[1..], s)
  }

  // ---- well-formed entities ----

  ghost predicate Fits(e: Ent, s: Schema)
    decreases s, 2
  {
    && e.obj.cls == s.cls && e.obj.id.Some?
    && FitsAll(e.kids, s.edges)
  }

  ghost predicate FitsAll(kids: seq<seq<Ent>>, edges: seq<Edge>)
    decreases edges, 0
  {
    && |kids| == |edges|
    && (edges != [] ==>
          assert edges[0].to < edges[0];
          && (!IsList(edges[0].kind) ==> |kids[0]| <= 1)
          && EntsDistinct(kids[0])
          && FitsEach(kids[0], edges[0].to)
          && FitsAll(kids[1..], edges[1..]))
  }

  ghost predicate FitsEach(es: seq<Ent>, s: Schema)
    decreases s, 3
  {
    forall e :: e in es ==> Fits(e, s)
  }

  ghost predicate EntsDistinct(es: seq<Ent>) {
    forall a, b :: 0 <= a < b < |es| ==> es[a].obj.id != es[b].obj.id
  }

  function Objs(es: seq<Ent>): (r: seq<Obj>)
    ensures |r| == |es|
    ensures forall k :: 0 <= k < |es| ==> r[k] == es[k].obj
  {
    seq(|es|, k requires 0 <= k < |es| => es[k].obj)
  }

  // ---- shape of the rows ----

  ghost predicate Wide(rows: seq<Row>, w: nat) {
    forall r :: r in rows ==> |r| == w
  }

  lemma {:induction false} BesideShape(a: Row, rows: seq<Row>, w: nat)
    requires Wide(rows, w)
    ensures Wide(Beside(a, rows), |a| + w) && |Beside(a, rows)| == |rows|
  {
    if rows != [] {
      assert rows[0] in rows;
      BesideShape(a, rows[1..], w);
    }
  }

  lemma {:induction false} CrossShape(a: seq<Row>, b: seq<Row>, v: nat, w: nat)
    requires Wide(a, v) && Wide(b, w)
    ensures Wide(Cross(a, b), v + w)
    ensures a != [] && b != [] ==> Cross(a, b) != []
  {
    if a != [] {
      assert a[0] in a;
      BesideShape(a[0], b, w);
      CrossShape(a[1..], b, v, w);
    }
  }

  lemma {:induction false} RowsShape(e: Ent, s: Schema)
    ensures RowsOf(e, s) != [] && Wide(RowsOf(e, s), Width(s))
    decreases s, 2
  {
    BranchesShape(e.kids, s.edges);
    BesideShape([Some(e.obj)], Branches(e.kids, s.edges), Widths(s.edges));
  }

  lemma {:induction false} BlockShape(kids: seq<seq<Ent>>, s: Schema)
    ensures Block(kids, s) != [] && Wide(Block(kids, s), Width(s))
    decreases s, 4
  {
    if kids != [] && kids[0] != [] {
      RowsOfAllShape(kids[0], s);
    }
  }

  lemma {:induction false} BranchesShape(kids: seq<seq<Ent>>, edges: seq<Edge>)
    ensures Branches(kids, edges) != [] && Wide(Branches(kids, edges), Widths(edges))
    decreases edges, 0
  {
    if edges != [] {
      var rest := if kids == [] then [] else kids[1..];
      assert edges[0].to < edges[0];
      BlockShape(kids, edges[0].to);
      BranchesShape(rest, edges[1..]);
      CrossShape(Block(kids, edges[0].to), Branches(rest, edges[1..]), Width(edges[0].to), Widths(edges[1..]));
    }
  }

  lemma {:induction false} RowsOfAllShape(es: seq<Ent>, s: Schema)
    ensures Wide(RowsOfAll(es, s), Width(s)) && (es != [] ==> RowsOfAll(es, s) != [])
    decreases s, 3, |es|
  {
    if es != [] {
      RowsShape(es[0], s);
      RowsOfAllShape(es[1..], s);
    }
  }

  // ---- de-duplication swallows the repetitions a product makes ----

  lemma {:induction false} DedupSwallows(a: seq<Obj>, seen: set<int>)
    requires Ids(a) <= seen
    ensures DedupFrom(a, seen) == []
  {
    if a != [] {
      assert a == [a[0]] + a[1..];
      assert a[0].id.Some? ==> a[0].id.value in Ids(a);
      assert Ids(a[1..]) <= Ids(a);
      DedupSwallows(a[1..], seen);
    }
  }

  lemma IdsConcat(a: seq<Obj>, b: seq<Obj>)
    ensures Ids(a + b) == Ids(a) + Ids(b)
  {
    assert forall o :: o in a + b <==> o in a || o in b;
  }

  /** Two lists no de-duplication can tell apart. */
  ghost predicate Same(a: seq<Obj>, b: seq<Obj>) {
    Ids(a) == Ids(b) && forall seen :: DedupFrom(a, seen) == DedupFrom(b, seen)
  }

  lemma SameConcat(a: seq<Obj>, b: seq<Obj>, c: seq<Obj>, d: seq<Obj>)
    requires Same(a, b) && Same(c, d)
    ensures Same(a + c, b + d)
  {
    IdsConcat(a, c);
    IdsConcat(b, d);
    forall seen
      ensures DedupFrom(a + c, seen) == DedupFrom(b + d, seen)
    {
      DedupFromConcat(a, c, seen);
      DedupFromConcat(b, d, seen);
      assert DedupFrom(a, seen) == DedupFrom(b, seen);
      assert DedupFrom(c, seen + Ids(a)) == DedupFrom(d, seen + Ids(b));
    }
  }

  lemma SameRepeat(a: seq<Obj>, b: seq<Obj>)
    requires Ids(b) <= Ids(a)
    ensures Same(a + b, a)
  {
    IdsConcat(a, b);
    forall seen
      ensures DedupFrom(a + b, seen) == DedupFrom(a, seen)
    {
      DedupFromConcat(a, b, seen);
      DedupSwallows(b, seen + Ids(a));
    }
  }

  // ---- selecting from a product ----

  /** Columns `i` and `k` both lie in the left block. */
  lemma {:induction false} SharingBesideLeft(a: Row, b: seq<Row>, i: int, k: nat, pid: int)
    requires b != [] && -1 <= i < |a| && k < |a|
    ensures Same(Sharing(Beside(a, b), i, k, pid), Child(a, i, k, pid))
  {
    var here := Child(a, i, k, pid);
    var tail := Sharing(Beside(a, b[1..]), i, k, pid);
    assert Beside(a, b)[1..] == Beside(a, b[1..]);
    assert Child(a + b[0], i, k, pid) == here;
    assert Sharing(Beside(a, b), i, k, pid) == here + tail;
    if b[1..] != [] {
      SharingBesideLeft(a, b[1..], i, k, pid);
    }
    SameRepeat(here, tail);
  }

  lemma {:induction false} SharingCrossLeft(a: seq<Row>, b: seq<Row>, v: nat, i: int, k: nat, pid: int)
    requires b != [] && Wide(a, v) && -1 <= i < v && k < v
    ensures Same(Sharing(Cross(a, b), i, k, pid), Sharing(a, i, k, pid))
  {
    if a != [] {
      assert a[0] in a;
      SharingBesideLeft(a[0], b, i, k, pid);
      SharingCrossLeft(a[1..], b, v, i, k, pid);
      SharingConcat(Beside(a[0], b), Cross(a[1..], b), i, k, pid);
      SameConcat(Sharing(Beside(a[0], b), i, k, pid), Child(a[0], i, k, pid),
                 Sharing(Cross(a[1..], b), i, k, pid), Sharing(a[1..], i, k, pid));
    }
  }

  /** A column number seen from the right of a block; the outside parent stays outside. */
  function Shift(i: int, v: nat): int {
    if i == -1 then -1 else i - v
  }

  lemma {:induction false} SharingBesideRight(a: Row, b: seq<Row>, i: int, k: nat, pid: int)
    requires i == -1 || |a| <= i
    requires |a| <= k
    ensures Sharing(Beside(a, b), i, k, pid) == Sharing(b, Shift(i, |a|), k - |a|, pid)
  {
    if b != [] {
      assert Beside(a, b)[1..] == Beside(a, b[1..]);
      assert Child(a + b[0], i, k, pid) == Child(b[0], Shift(i, |a|), k - |a|, pid);
      SharingBesideRight(a, b[1..], i, k, pid);
    }
  }

  lemma {:induction false} SharingCrossRight(a: seq<Row>, b: seq<Row>, v: nat, i: int, k: nat, pid: int)
    requires a != [] && Wide(a, v) && (i == -1 || v <= i) && v <= k
    ensures Same(Sharing(Cross(a, b), i, k, pid), Sharing(b, Shift(i, v), k - v, pid))
  {
    assert a[0] in a;
    SharingBesideRight(a[0], b, i, k, pid);
    SharingConcat(Beside(a[0], b), Cross(a[1..], b), i, k, pid);
    if a[1..] != [] {
      SharingCrossRight(a[1..], b, v, i, k, pid);
    }
    SameRepeat(Sharing(b, Shift(i, v), k - v, pid), Sharing(Cross(a[1..], b), i, k, pid));
  }

  // ---- nodes of the schema, addressed by column ----

  /** The class node whose column is `i`. */
  function NodeAt(s: Schema, i: nat): Schema
    requires i < Width(s)
    decreases s, 1
  {
    if i == 0 then s else NodeIn(s.edges, i - 1)
  }

  function NodeIn(edges: seq<Edge>, i: nat): Schema
    requires i < Widths(edges)
    decreases edges, 0
  {
    assert edges[0].to < edges[0];
    if i < Width(edges[0].to) then NodeAt(edges[0].to, i) else NodeIn(edges[1..], i - Width(edges[0].to))
  }

  /** The entities in column `i` below one entity. */
  function EntsAt(e: Ent, s: Schema, i: nat): seq<Ent>
    requires i < Width(s)
    decreases s, 2
  {
    if i == 0 then [e] else EntsIn(e.kids, s.edges, i - 1)
  }

  function EntsIn(kids: seq<seq<Ent>>, edges: seq<Edge>, i: nat): seq<Ent>
    requires i < Widths(edges)
    decreases edges, 0
  {
    assert edges[0].to < edges[0];
    if kids == [] then []
    else if i < Width(edges[0].to) then EntsAtAll(kids[0], edges[0].to, i)
    else EntsIn(kids[1..], edges[1..], i - Width(edges[0].to))
  }

  function EntsAtAll(es: seq<Ent>, s: Schema, i: nat): seq<Ent>
    requires i < Width(s)
    decreases s, 3, |es|
  {
    if es == [] then [] else EntsAt(es[0], s, i) + EntsAtAll(es[1..], s, i)
  }

  /** Equal class and id, equal subtree. */
  ghost predicate Consistent(es: seq<Ent>) {
    forall x, y :: x in es && y in es && x.obj.id == y.obj.id ==> x == y
  }

  ghost predicate ConsistentBelow(e: Ent, s: Schema) {
    forall i: nat :: i < Width(s) ==> Consistent(EntsAt(e, s, i))
  }

  /** The column of the `m`-th relation of the node in column `i`. */
  function ChildColumn(n: Schema, i: nat, m: nat): nat
    requires m < |n.edges|
  {
    i + 1 + Widths(n.edges[..m])
  }

  // ---- geometry of the columns ----

  lemma {:induction false} WidthsPrefix(edges: seq<Edge>, m: nat)
    requires m < |edges|
    ensures Widths(edges[..m]) + Width(edges[m].to) <= Widths(edges)
  {
    if m > 0 {
      assert edges[..m][1..] == edges[1..][..m - 1];
      WidthsPrefix(edges[1..], m - 1);
    }
  }

  lemma {:induction false} NodeRoom(s: Schema, i: nat)
    requires i < Width(s)
    ensures i + Width(NodeAt(s, i)) <= Width(s)
    decreases s, 1
  {
    if i > 0 {
      NodeRoomIn(s.edges, i - 1);
    }
  }

  lemma {:induction false} NodeRoomIn(edges: seq<Edge>, i: nat)
    requires i < Widths(edges)
    ensures i + Width(NodeIn(edges, i)) <= Widths(edges)
    decreases edges, 0
  {
    assert edges[0].to < edges[0];
    if i < Width(edges[0].to) {
      NodeRoom(edges[0].to, i);
    } else {
      NodeRoomIn(edges[1..], i - Width(edges[0].to));
    }
  }

  lemma ChildRoom(s: Schema, i: nat, m: nat)
    requires i < Width(s) && m < |NodeAt(s, i).edges|
    ensures i < ChildColumn(NodeAt(s, i), i, m) < Width(s)
  {
    NodeRoom(s, i);
    WidthsPrefix(NodeAt(s, i).edges, m);
  }

  /** The class of a column is the class of its node. */
  lemma {:induction false} ClassOfColumn(s: Schema, i: nat)
    requires i < Width(s)
    ensures Classes(s)[i] == NodeAt(s, i).cls
    decreases s, 1
  {
    if i > 0 {
      ClassOfColumnIn(s.edges, i - 1);
    }
  }

  lemma {:induction false} ClassOfColumnIn(edges: seq<Edge>, i: nat)
    requires i < Widths(edges)
    ensures AllClasses(edges)[i] == NodeIn(edges, i).cls
    decreases edges, 0
  {
    assert edges[0].to < edges[0];
    if i < Width(edges[0].to) {
      ClassOfColumn(edges[0].to, i);
    } else {
      ClassOfColumnIn(edges[1..], i - Width(edges[0].to));
    }
  }

  /** The child column of an edge holds that edge's node. */
  lemma {:induction false} ChildNode(s: Schema, i: nat, m: nat)
    requires i < Width(s) && m < |NodeAt(s, i).edges|
    ensures ChildColumn(NodeAt(s, i), i, m) < Width(s)
    ensures NodeAt(s, ChildColumn(NodeAt(s, i), i, m)) == NodeAt(s, i).edges[m].to
    decreases s, 1
  {
    ChildRoom(s, i, m);
    if i == 0 {
      ChildNodeTop(s.edges, m);
    } else {
      ChildNodeIn(s.edges, i - 1, m);
    }
  }

  lemma {:induction false} ChildNodeTop(edges: seq<Edge>, m: nat)
    requires m < |edges|
    ensures Widths(edges[..m]) < Widths(edges) && NodeIn(edges, Widths(edges[..m])) == edges[m].to
  {
    WidthsPrefix(edges, m);
    if m > 0 {
      assert edges[..m][1..] == edges[1..][..m - 1];
      ChildNodeTop(edges[1..], m - 1);
    }
  }

  lemma {:induction false} ChildNodeIn(edges: seq<Edge>, i: nat, m: nat)
    requires i < Widths(edges) && m < |NodeIn(edges, i).edges|
    ensures ChildColumn(NodeIn(edges, i), i, m) < Widths(edges)
    ensures NodeIn(edges, ChildColumn(NodeIn(edges, i), i, m)) == NodeIn(edges, i).edges[m].to
    decreases edges, 0
  {
    assert edges[0].to < edges[0];
    var w := Width(edges[0].to);
    if i < w {
      ChildNode(edges[0].to, i, m);
    } else {
      ChildNodeIn(edges[1..], i - w, m);
    }
  }

  // ---- entities and their columns ----

  lemma {:induction false} FitsAt(kids: seq<seq<Ent>>, edges: seq<Edge>, m: nat)
    requires FitsAll(kids, edges) && m < |edges|
    ensures |kids| == |edges|
    ensures (!IsList(edges[m].kind) ==> |kids[m]| <= 1) && EntsDistinct(kids[m]) && FitsEach(kids[m], edges[m].to)
  {
    if m > 0 {
      FitsAt(kids[1..], edges[1..], m - 1);
    }
  }

  lemma {:induction false} EntsFit(e: Ent, s: Schema, i: nat, x: Ent)
    requires Fits(e, s) && i < Width(s) && x in EntsAt(e, s, i)
    ensures Fits(x, NodeAt(s, i))
    decreases s, 2
  {
    if i > 0 {
      EntsFitIn(e.kids, s.edges, i - 1, x);
    }
  }

  lemma {:induction false} EntsFitIn(kids: seq<seq<Ent>>, edges: seq<Edge>, i: nat, x: Ent)
    requires FitsAll(kids, edges) && i < Widths(edges) && x in EntsIn(kids, edges, i)
    ensures Fits(x, NodeIn(edges, i))
    decreases edges, 0
  {
    assert edges[0].to < edges[0];
    if i < Width(edges[0].to) {
      EntsFitAll(kids[0], edges[0].to, i, x);
    } else {
      EntsFitIn(kids[1..], edges[1..], i - Width(edges[0].to), x);
    }
  }

  lemma {:induction false} EntsFitAll(es: seq<Ent>, s: Schema, i: nat, x: Ent)
    requires FitsEach(es, s) && i < Width(s) && x in EntsAtAll(es, s, i)
    ensures Fits(x, NodeAt(s, i))
    decreases s, 3, |es|
  {
    if x in EntsAt(es[0], s, i) {
      EntsFit(es[0], s, i, x);
    } else {
      EntsFitAll(es[1..], s, i, x);
    }
  }

  lemma {:induction false} EntsAtAllMember(es: seq<Ent>, s: Schema, i: nat, e: Ent, x: Ent)
    requires i < Width(s) && e in es && x in EntsAt(e, s, i)
    ensures x in EntsAtAll(es, s, i)
    decreases |es|
  {
    if e != es[0] {
      EntsAtAllMember(es[1..], s, i, e, x);
    }
  }

  /** A child of an entity in column `i` is an entity of the child column. */
  lemma {:induction false} KidsAt(e: Ent, s: Schema, i: nat, x: Ent, m: nat, y: Ent)
    requires Fits(e, s) && i < Width(s) && x in EntsAt(e, s, i)
    requires m < |NodeAt(s, i).edges| && m < |x.kids| && y in x.kids[m]
    ensures ChildColumn(NodeAt(s, i), i, m) < Width(s)
    ensures y in EntsAt(e, s, ChildColumn(NodeAt(s, i), i, m))
    decreases s, 2
  {
    ChildRoom(s, i, m);
    if i == 0 {
      KidsTop(e.kids, s.edges, m, y);
    } else {
      KidsIn(e.kids, s.edges, i - 1, x, m, y);
    }
  }

  lemma {:induction false} KidsTop(kids: seq<seq<Ent>>, edges: seq<Edge>, m: nat, y: Ent)
    requires FitsAll(kids, edges) && m < |edges| && y in kids[m]
    ensures Widths(edges[..m]) < Widths(edges) && y in EntsIn(kids, edges, Widths(edges[..m]))
  {
    WidthsPrefix(edges, m);
    if m > 0 {
      assert edges[..m][1..] == edges[1..][..m - 1];
      KidsTop(kids[1..], edges[1..], m - 1, y);
    } else {
      assert EntsAt(y, edges[0].to, 0) == [y];
      EntsAtAllMember(kids[0], edges[0].to, 0, y, y);
    }
  }

  lemma {:induction false} KidsIn(kids: seq<seq<Ent>>, edges: seq<Edge>, i: nat, x: Ent, m: nat, y: Ent)
    requires FitsAll(kids, edges) && i < Widths(edges) && x in EntsIn(kids, edges, i)
    requires m < |NodeIn(edges, i).edges| && m < |x.kids| && y in x.kids[m]
    ensures ChildColumn(NodeIn(edges, i), i, m) < Widths(edges)
    ensures y in EntsIn(kids, edges, ChildColumn(NodeIn(edges, i), i, m))
    decreases edges, 0
  {
    assert edges[0].to < edges[0];
    var w := Width(edges[0].to);
    if i < w {
      ChildRoom(edges[0].to, i, m);
      KidsAll(kids[0], edges[0].to, i, x, m, y);
    } else {
      KidsIn(kids[1..], edges[1..], i - w, x, m, y);
    }
  }

  lemma {:induction false} KidsAll(es: seq<Ent>, s: Schema, i: nat, x: Ent, m: nat, y: Ent)
    requires FitsEach(es, s) && i < Width(s) && x in EntsAtAll(es, s, i)
    requires m < |NodeAt(s, i).edges| && m < |x.kids| && y in x.kids[m]
    ensures ChildColumn(NodeAt(s, i), i, m) < Width(s)
    ensures y in EntsAtAll(es, s, ChildColumn(NodeAt(s, i), i, m))
    decreases s, 3, |es|
  {
    if x in EntsAt(es[0], s, i) {
      KidsAt(es[0], s, i, x, m, y);
    } else {
      KidsAll(es[1..], s, i, x, m, y);
    }
  }

  // ---- every filled cell of a row comes from an entity of its column ----

  lemma {:induction false} BesideCell(a: Row, rows: seq<Row>, row: Row) returns (b: Row)
    requires row in Beside(a, rows)
    ensures b in rows && row == a + b
  {
    if row == a + rows[0] {
      b := rows[0];
    } else {
      b := BesideCell(a, rows[1..], row);
    }
  }

  lemma {:induction false} CrossCell(a: seq<Row>, b: seq<Row>, row: Row) returns (x: Row, y: Row)
    requires row in Cross(a, b)
    ensures x in a && y in b && row == x + y
  {
    if row in Beside(a[0], b) {
      x := a[0];
      y := BesideCell(a[0], b, row);
    } else {
      x, y := CrossCell(a[1..], b, row);
    }
  }

  lemma {:induction false} CellOf(e: Ent, s: Schema, row: Row, i: nat) returns (x: Ent)
    requires row in RowsOf(e, s) && i < Width(s)
    ensures |row| == Width(s)
    ensures row[i].Some? ==> x in EntsAt(e, s, i) && x.obj == row[i].value
    decreases s, 2
  {
    RowsShape(e, s);
    var rest := BesideCell([Some(e.obj)], Branches(e.kids, s.edges), row);
    if i == 0 {
      x := e;
    } else {
      x := CellIn(e.kids, s.edges, rest, i - 1);
    }
  }

  lemma {:induction false} CellIn(kids: seq<seq<Ent>>, edges: seq<Edge>, row: Row, i: nat) returns (x: Ent)
    requires row in Branches(kids, edges) && i < Widths(edges)
    ensures |row| == Widths(edges)
    ensures row[i].Some? ==> x in EntsIn(kids, edges, i) && x.obj == row[i].value
    decreases edges, 0
  {
    BranchesShape(kids, edges);
    assert edges[0].to < edges[0];
    var rest := if kids == [] then [] else kids[1..];
    BlockShape(kids, edges[0].to);
    var a, b := CrossCell(Block(kids, edges[0].to), Branches(rest, edges[1..]), row);
    if i < Width(edges[0].to) {
      x := CellHere(kids, edges[0].to, a, i);
    } else {
      x := CellIn(rest, edges[1..], b, i - Width(edges[0].to));
      NobodyIn(edges[1..], i - Width(edges[0].to));
    }
  }

  lemma NobodyIn(edges: seq<Edge>, i: nat)
    requires i < Widths(edges)
    ensures EntsIn([], edges, i) == []
  {
  }

  lemma {:induction false} CellHere(kids: seq<seq<Ent>>, s: Schema, row: Row, i: nat) returns (x: Ent)
    requires row in Block(kids, s) && i < Width(s)
    ensures |row| == Width(s)
    ensures row[i].Some? ==> kids != [] && x in EntsAtAll(kids[0], s, i) && x.obj == row[i].value
    decreases s, 4
  {
    if kids != [] && kids[0] != [] {
      x := CellAll(kids[0], s, row, i);
    } else {
      x := Ent(Obj("", None, 0, map[]), []);
    }
  }

  lemma {:induction false} CellAll(es: seq<Ent>, s: Schema, row: Row, i: nat) returns (x: Ent)
    requires row in RowsOfAll(es, s) && i < Width(s)
    ensures |row| == Width(s)
    ensures row[i].Some? ==> x in EntsAtAll(es, s, i) && x.obj == row[i].value
    decreases s, 3, |es|
  {
    if row in RowsOf(es[0], s) {
      x := CellOf(es[0], s, row, i);
    } else {
      x := CellAll(es[1..], s, row, i);
    }
  }

  /** A parent that is not below an entity selects nothing from its rows. */
  lemma Absent(e: Ent, s: Schema, i: nat, k: nat, pid: int)
    requires i < Width(s)
    requires forall x :: x in EntsAt(e, s, i) ==> x.obj.id != Some(pid)
    ensures Sharing(RowsOf(e, s), i, k, pid) == []
  {
    var list := Sharing(RowsOf(e, s), i, k, pid);
    if list != [] {
      SharingMember(RowsOf(e, s), i, k, pid, list[0]);
      var row :| row in RowsOf(e, s) && Holding(row, i, pid) && k < |row| && row[k] == Some(list[0]);
      var x := CellOf(e, s, row, i);
      assert false;
    }
  }

  // ---- the heart: a parent's rows give back exactly its children ----

  lemma {:induction false} SharingUnderTop(o: Obj, rows: seq<Row>, k: nat, pid: int)
    requires o.id == Some(pid) && k > 0
    ensures Sharing(Beside([Some(o)], rows), 0, k, pid) == Sharing(rows, -1, k - 1, pid)
  {
    if rows != [] {
      assert Beside([Some(o)], rows)[1..] == Beside([Some(o)], rows[1..]);
      assert Child([Some(o)] + rows[0], 0, k, pid) == Child(rows[0], -1, k - 1, pid);
      SharingUnderTop(o, rows[1..], k, pid);
    }
  }

  lemma TopCell(e: Ent, s: Schema, pid: int)
    ensures Same(Sharing(RowsOf(e, s), -1, 0, pid), [e.obj])
  {
    BranchesShape(e.kids, s.edges);
    SharingBesideLeft([Some(e.obj)], Branches(e.kids, s.edges), -1, 0, pid);
    assert Child([Some(e.obj)], -1, 0, pid) == [e.obj];
  }

  /** The first column of a block lists the block's entities. */
  lemma {:induction false} TopColumn(es: seq<Ent>, s: Schema, pid: int)
    ensures Same(Sharing(RowsOfAll(es, s), -1, 0, pid), Objs(es))
    decreases |es|
  {
    if es != [] {
      TopCell(es[0], s, pid);
      TopColumn(es[1..], s, pid);
      SharingConcat(RowsOf(es[0], s), RowsOfAll(es[1..], s), -1, 0, pid);
      SameConcat(Sharing(RowsOf(es[0], s), -1, 0, pid), [es[0].obj],
                 Sharing(RowsOfAll(es[1..], s), -1, 0, pid), Objs(es[1..]));
      assert Objs(es) == [es[0].obj] + Objs(es[1..]);
    }
  }

  lemma {:induction false} TopBranch(kids: seq<seq<Ent>>, edges: seq<Edge>, m: nat, pid: int)
    requires |kids| == |edges| && m < |edges|
    ensures Same(Sharing(Branches(kids, edges), -1, Widths(edges[..m]), pid), Objs(kids[m]))
  {
    if m == 0 {
      FirstBranch(kids, edges, pid);
    } else {
      TopBranch(kids[1..], edges[1..], m - 1, pid);
      assert edges[..m][1..] == edges[1..][..m - 1];
      BlockShape(kids, edges[0].to);
      SharingCrossRight(Block(kids, edges[0].to), Branches(kids[1..], edges[1..]), Width(edges[0].to), -1,
                        Widths(edges[..m]), pid);
    }
  }

  lemma FirstBranch(kids: seq<seq<Ent>>, edges: seq<Edge>, pid: int)
    requires |kids| == |edges| > 0
    ensures Same(Sharing(Branches(kids, edges), -1, 0, pid), Objs(kids[0]))
  {
    var block := Block(kids, edges[0].to);
    BlockShape(kids, edges[0].to);
    BranchesShape(kids[1..], edges[1..]);
    SharingCrossLeft(block, Branches(kids[1..], edges[1..]), Width(edges[0].to), -1, 0, pid);
    if kids[0] == [] {
      assert block[1..] == [] && Sharing(block, -1, 0, pid) == [];
    } else {
      TopColumn(kids[0], edges[0].to, pid);
    }
  }

  /** Below one entity: the rows that hold `x` in column `i` list exactly `x`'s children of relation `m`. */
  lemma {:induction false} SharingIsKids(e: Ent, s: Schema, i: nat, m: nat, x: Ent, pid: int)
    requires Fits(e, s) && i < Width(s) && x in EntsAt(e, s, i) && x.obj.id == Some(pid)
    requires Consistent(EntsAt(e, s, i)) && m < |NodeAt(s, i).edges|
    ensures m < |x.kids|
    ensures Same(Sharing(RowsOf(e, s), i, ChildColumn(NodeAt(s, i), i, m), pid), Objs(x.kids[m]))
    decreases s, 2
  {
    EntsFit(e, s, i, x);
    var k := ChildColumn(NodeAt(s, i), i, m);
    if i == 0 {
      SharingUnderTop(e.obj, Branches(e.kids, s.edges), k, pid);
      TopBranch(e.kids, s.edges, m, pid);
    } else {
      SharingBesideRight([Some(e.obj)], Branches(e.kids, s.edges), i, k, pid);
      BranchIsKids(e.kids, s.edges, i - 1, m, x, pid);
    }
  }

  lemma {:induction false} BranchIsKids(kids: seq<seq<Ent>>, edges: seq<Edge>, i: nat, m: nat, x: Ent, pid: int)
    requires FitsAll(kids, edges) && i < Widths(edges) && x in EntsIn(kids, edges, i) && x.obj.id == Some(pid)
    requires Consistent(EntsIn(kids, edges, i)) && m < |NodeIn(edges, i).edges|
    ensures m < |x.kids|
    ensures Same(Sharing(Branches(kids, edges), i, ChildColumn(NodeIn(edges, i), i, m), pid), Objs(x.kids[m]))
    decreases edges, 0
  {
    EntsFitIn(kids, edges, i, x);
    assert edges[0].to < edges[0];
    var w := Width(edges[0].to);
    var k := ChildColumn(NodeIn(edges, i), i, m);
    if i < w {
      ChildRoom(edges[0].to, i, m);
      BlockIsKids(kids[0], edges[0].to, i, m, x, pid);
      BranchHere(kids, edges, i, k, pid, Objs(x.kids[m]));
    } else {
      BranchIsKids(kids[1..], edges[1..], i - w, m, x, pid);
      BranchThere(kids, edges, i, k, pid, Objs(x.kids[m]));
    }
  }

  lemma BranchHere(kids: seq<seq<Ent>>, edges: seq<Edge>, i: nat, k: nat, pid: int, children: seq<Obj>)
    requires kids != [] && kids[0] != [] && edges != [] && i < Width(edges[0].to) && k < Width(edges[0].to)
    requires Same(Sharing(RowsOfAll(kids[0], edges[0].to), i, k, pid), children)
    ensures Same(Sharing(Branches(kids, edges), i, k, pid), children)
  {
    BlockShape(kids, edges[0].to);
    BranchesShape(kids[1..], edges[1..]);
    SharingCrossLeft(Block(kids, edges[0].to), Branches(kids[1..], edges[1..]), Width(edges[0].to), i, k, pid);
  }

  lemma BranchThere(kids: seq<seq<Ent>>, edges: seq<Edge>, i: nat, k: nat, pid: int, children: seq<Obj>)
    requires kids != [] && edges != [] && Width(edges[0].to) <= i && Width(edges[0].to) <= k
    requires Same(Sharing(Branches(kids[1..], edges[1..]), i - Width(edges[0].to), k - Width(edges[0].to), pid),
                  children)
    ensures Same(Sharing(Branches(kids, edges), i, k, pid), children)
  {
    BlockShape(kids, edges[0].to);
    SharingCrossRight(Block(kids, edges[0].to), Branches(kids[1..], edges[1..]), Width(edges[0].to), i, k, pid);
  }

  lemma {:induction false} BlockIsKids(es: seq<Ent>, s: Schema, i: nat, m: nat, x: Ent, pid: int)
    requires FitsEach(es, s) && i < Width(s) && x in EntsAtAll(es, s, i) && x.obj.id == Some(pid)
    requires Consistent(EntsAtAll(es, s, i)) && m < |NodeAt(s, i).edges|
    ensures m < |x.kids|
    ensures Same(Sharing(RowsOfAll(es, s), i, ChildColumn(NodeAt(s, i), i, m), pid), Objs(x.kids[m]))
    decreases s, 3, |es|
  {
    EntsFitAll(es, s, i, x);
    var k := ChildColumn(NodeAt(s, i), i, m);
    var here, there := Sharing(RowsOf(es[0], s), i, k, pid), Sharing(RowsOfAll(es[1..], s), i, k, pid);
    SharingConcat(RowsOf(es[0], s), RowsOfAll(es[1..], s), i, k, pid);
    if x in EntsAt(es[0], s, i) {
      SharingIsKids(es[0], s, i, m, x, pid);
    } else {
      Absent(es[0], s, i, k, pid);
    }
    if x in EntsAtAll(es[1..], s, i) {
      BlockIsKids(es[1..], s, i, m, x, pid);
    } else {
      AbsentAll(es[1..], s, i, k, pid);
    }
    if there == [] {
      assert here + there == here;
    } else if here == [] {
      assert here + there == there;
    } else {
      SameConcat(here, Objs(x.kids[m]), there, Objs(x.kids[m]));
      SameRepeat(Objs(x.kids[m]), Objs(x.kids[m]));
    }
  }

  lemma {:induction false} AbsentAll(es: seq<Ent>, s: Schema, i: nat, k: nat, pid: int)
    requires i < Width(s)
    requires forall x :: x in EntsAtAll(es, s, i) ==> x.obj.id != Some(pid)
    ensures Sharing(RowsOfAll(es, s), i, k, pid) == []
    decreases |es|
  {
    if es != [] {
      Absent(es[0], s, i, k, pid);
      AbsentAll(es[1..], s, i, k, pid);
      SharingConcat(RowsOf(es[0], s), RowsOfAll(es[1..], s), i, k, pid);
    }
  }
}
