/**
  What the serializer computes for arbitrary rows: every nested list is the first-occurrence
  de-duplication of the children that share a row with their parent and main object.
*/
module JoinGrouping {
  import opened Options
  import opened JoinSerializer

  /** One class a column, no class twice, and every object has a primary key. */
  ghost predicate Typed(rows: seq<Row>, cols: seq<string>) {
    && |cols| > 0
    && (forall a, b :: 0 <= a < b < |cols| ==> cols[a] != cols[b])
    && (forall row :: row in rows ==> TypedRow(row, cols))
  }

  ghost predicate TypedRow(row: Row, cols: seq<string>) {
    |row| == |cols| && forall k :: 0 <= k < |row| ==> TypedCell(row[k], cols[k])
  }

  ghost predicate TypedCell(cell: Option<Obj>, cls: string) {
    cell.Some? ==> cell.value.cls == cls && cell.value.id.Some?
  }

  // ---- the reference: filtering the rows ----

  /** The rows of one main object. */
  function OfMain(rows: seq<Row>, main: int): seq<Row> {
    if rows == [] then []
    else (if HasMain(rows[0]) && ObjId(rows[0][0].value) == main then [rows[0]] else []) + OfMain(rows[1..], main)
  }

  /** Does column `i` hold the object `pid`?  Column -1 stands for a parent outside the row. */
  predicate Holding(row: Row, i: int, pid: int) {
    i == -1 || (0 <= i < |row| && row[i].Some? && row[i].value.id == Some(pid))
  }

  function Child(row: Row, i: int, k: nat, pid: int): seq<Obj> {
    if Holding(row, i, pid) && k < |row| && row[k].Some? then [row[k].value] else []
  }

  /** The objects in column `k` of the rows that hold `pid` in column `i`. */
  function Sharing(rows: seq<Row>, i: int, k: nat, pid: int): seq<Obj> {
    if rows == [] then [] else Child(rows[0], i, k, pid) + Sharing(rows[1..], i, k, pid)
  }

  lemma {:induction false} OfMainConcat(a: seq<Row>, b: seq<Row>, main: int)
    ensures OfMain(a + b, main) == OfMain(a, main) + OfMain(b, main)
  {
    if a == [] {
      assert a + b == b;
    } else {
      assert (a + b)[1..] == a[1..] + b;
      OfMainConcat(a[1..], b, main);
    }
  }

  lemma {:induction false} SharingConcat(a: seq<Row>, b: seq<Row>, i: int, k: nat, pid: int)
    ensures Sharing(a + b, i, k, pid) == Sharing(a, i, k, pid) + Sharing(b, i, k, pid)
  {
    if a == [] {
      assert a + b == b;
    } else {
      assert (a + b)[1..] == a[1..] + b;
      SharingConcat(a[1..], b, i, k, pid);
    }
  }

  /** An object is listed exactly when some row holds it beside the parent. */
  lemma {:induction false} SharingMember(rows: seq<Row>, i: int, k: nat, pid: int, o: Obj)
    ensures o in Sharing(rows, i, k, pid) <==>
            exists row :: row in rows && Holding(row, i, pid) && k < |row| && row[k] == Some(o)
  {
    if rows != [] {
      SharingMember(rows[1..], i, k, pid, o);
      assert rows == [rows[0]] + rows[1..];
      if o in Child(rows[0], i, k, pid) {
        assert rows[0] in rows && Holding(rows[0], i, pid) && rows[0][k] == Some(o);
      }
    }
  }

  // ---- the columns ----

  lemma {:induction false} RowColumnsExact(before: map<string, nat>, row: Row, cols: seq<string>, k: nat)
    requires TypedRow(row, cols) && k <= |row|
    requires forall c :: c in before ==> before[c] < |cols| && cols[before[c]] == c
    ensures forall c :: c in before ==> c in RowColumns(before, row, k)
    ensures forall c :: c in RowColumns(before, row, k) ==>
              RowColumns(before, row, k)[c] < |cols| && cols[RowColumns(before, row, k)[c]] == c
    ensures forall a :: 0 <= a < k && row[a].Some? ==> cols[a] in RowColumns(before, row, k)
  {
    if k > 0 {
      RowColumnsExact(before, row, cols, k - 1);
      assert TypedCell(row[k - 1], cols[k - 1]);
    }
  }

  lemma {:induction false} FirstColumnsExact(rows: seq<Row>, cols: seq<string>, n: nat)
    requires Typed(rows, cols) && n <= |rows|
    ensures forall c :: c in FirstColumns(rows, n) ==>
              FirstColumns(rows, n)[c] < |cols| && cols[FirstColumns(rows, n)[c]] == c
    ensures forall m, a :: 0 <= m < n && 0 <= a < |cols| && a < |rows[m]| && rows[m][a].Some? ==>
              cols[a] in FirstColumns(rows, n)
  {
    if n > 0 {
      FirstColumnsExact(rows, cols, n - 1);
      assert rows[n - 1] in rows;
      RowColumnsExact(FirstColumns(rows, n - 1), rows[n - 1], cols, |rows[n - 1]|);
    }
  }

  function Joined(rels: Relations, rows: seq<Row>): Join {
    Join(rels, FirstColumns(rows, |rows|), rows)
  }

  // ---- every bucket is the reference list ----

  /** The parent the serializer looks up is the cell of the parent's column. */
  lemma ParentCell(j: Join, cols: seq<string>, m: nat, i: nat, k: nat)
    requires Typed(j.rows, cols) && j == Joined(j.rels, j.rows)
    requires m < |j.rows| && HasMain(j.rows[m]) && i < |cols| && k < |cols|
    requires cols[k] in j.rels.reverse && j.rels.reverse[cols[k]] == cols[i]
    requires |j.rows[m]| == |cols| && j.rows[m][k].Some?
    ensures ParentIn(j, j.rows[m], k) == j.rows[m][i]
  {
    var row := j.rows[m];
    assert row in j.rows && TypedCell(row[k], cols[k]);
    FirstColumnsExact(j.rows, cols, |j.rows|);
    if cols[i] in j.column {
      assert cols[j.column[cols[i]]] == cols[i];
    } else {
      assert row[i].None?;
    }
  }

  lemma FiledExact(j: Join, cols: seq<string>, m: nat, c: nat, main: int, i: nat, k: nat, pid: int)
    requires Typed(j.rows, cols) && j == Joined(j.rels, j.rows)
    requires m < |j.rows| && HasMain(j.rows[m]) && |j.rows[m]| == |cols|
    requires i < |cols| && k < |cols| && c < |cols|
    requires cols[k] in j.rels.reverse && j.rels.reverse[cols[k]] == cols[i]
    ensures FiledUnder(j, j.rows[m], c) == Some((main, cols[k], pid)) <==>
            c == k && j.rows[m][k].Some? && ObjId(j.rows[m][0].value) == main && Holding(j.rows[m], i, pid)
  {
    var row := j.rows[m];
    assert row in j.rows && TypedCell(row[c], cols[c]) && TypedCell(row[i], cols[i]);
    if c == k && row[k].Some? {
      ParentCell(j, cols, m, i, k);
    }
  }

  /** A row that files only column `k` under a key, and that only if `here`. */
  lemma {:induction false} RowBucketOne(j: Join, row: Row, n: nat, key: Key, k: nat, here: bool)
    requires n <= |row| && 0 < k < |row| && (here ==> row[k].Some?)
    requires forall c :: 0 < c < n ==> (FiledUnder(j, row, c) == Some(key) <==> c == k && here)
    ensures RowBucket(j, row, n, key) == if k < n && here then [row[k].value] else []
  {
    if n > 1 {
      RowBucketOne(j, row, n - 1, key, k, here);
    }
  }

  lemma RowBucketIsChild(j: Join, cols: seq<string>, m: nat, main: int, i: nat, k: nat, pid: int)
    requires Typed(j.rows, cols) && j == Joined(j.rels, j.rows)
    requires m < |j.rows| && HasMain(j.rows[m]) && |j.rows[m]| == |cols|
    requires i < |cols| && 0 < k < |cols|
    requires cols[k] in j.rels.reverse && j.rels.reverse[cols[k]] == cols[i]
    ensures RowBucket(j, j.rows[m], |cols|, (main, cols[k], pid)) ==
            if ObjId(j.rows[m][0].value) == main then Child(j.rows[m], i, k, pid) else []
  {
    var row := j.rows[m];
    var here := row[k].Some? && ObjId(row[0].value) == main && Holding(row, i, pid);
    forall c | 0 < c < |cols|
      ensures FiledUnder(j, row, c) == Some((main, cols[k], pid)) <==> c == k && here
    {
      FiledExact(j, cols, m, c, main, i, k, pid);
    }
    RowBucketOne(j, row, |cols|, (main, cols[k], pid), k, here);
  }

  lemma RowBucketIsSharing(j: Join, cols: seq<string>, m: nat, main: int, i: nat, k: nat, pid: int)
    requires Typed(j.rows, cols) && j == Joined(j.rels, j.rows)
    requires m < |j.rows| && i < |cols| && 0 < k < |cols|
    requires cols[k] in j.rels.reverse && j.rels.reverse[cols[k]] == cols[i]
    ensures RowBucket(j, j.rows[m], |j.rows[m]|, (main, cols[k], pid)) == Sharing(OfMain([j.rows[m]], main), i, k, pid)
  {
    var row := j.rows[m];
    assert row in j.rows && TypedRow(row, cols);
    assert [row][1..] == [];
    if HasMain(row) {
      RowBucketIsChild(j, cols, m, main, i, k, pid);
    } else {
      EmptyBucket(j, row, |row|, (main, cols[k], pid));
    }
  }

  /** What a row files under the key is what filtering that row alone gives. */
  ghost predicate RowAgrees(j: Join, m: nat, main: int, cls: string, i: nat, k: nat, pid: int)
    requires m < |j.rows|
  {
    RowBucket(j, j.rows[m], |j.rows[m]|, (main, cls, pid)) == Sharing(OfMain([j.rows[m]], main), i, k, pid)
  }

  lemma BucketStep(j: Join, n: nat, main: int, cls: string, i: nat, k: nat, pid: int)
    requires 0 < n <= |j.rows|
    requires Bucket(j, n - 1, (main, cls, pid)) == Sharing(OfMain(j.rows[..n - 1], main), i, k, pid)
    requires RowAgrees(j, n - 1, main, cls, i, k, pid)
    ensures Bucket(j, n, (main, cls, pid)) == Sharing(OfMain(j.rows[..n], main), i, k, pid)
  {
    AppendRow(j.rows, n, main, i, k, pid);
  }

  lemma {:induction false} BucketFromRows(j: Join, n: nat, main: int, cls: string, i: nat, k: nat, pid: int)
    requires n <= |j.rows|
    requires forall m :: 0 <= m < n ==> RowAgrees(j, m, main, cls, i, k, pid)
    ensures Bucket(j, n, (main, cls, pid)) == Sharing(OfMain(j.rows[..n], main), i, k, pid)
  {
    if n > 0 {
      BucketFromRows(j, n - 1, main, cls, i, k, pid);
      BucketStep(j, n, main, cls, i, k, pid);
    } else {
      assert j.rows[..n] == [];
    }
  }

  /** Grouping by main object, class and parent key is filtering the rows. */
  lemma BucketIsSharing(j: Join, cols: seq<string>, n: nat, main: int, i: nat, k: nat, pid: int)
    requires Typed(j.rows, cols) && j == Joined(j.rels, j.rows)
    requires n <= |j.rows| && i < |cols| && 0 < k < |cols|
    requires cols[k] in j.rels.reverse && j.rels.reverse[cols[k]] == cols[i]
    ensures Bucket(j, n, (main, cols[k], pid)) == Sharing(OfMain(j.rows[..n], main), i, k, pid)
  {
    forall m | 0 <= m < n
      ensures RowAgrees(j, m, main, cols[k], i, k, pid)
    {
      RowBucketIsSharing(j, cols, m, main, i, k, pid);
    }
    BucketFromRows(j, n, main, cols[k], i, k, pid);
  }


  lemma AppendRow(rows: seq<Row>, n: nat, main: int, i: nat, k: nat, pid: int)
    requires 0 < n <= |rows|
    ensures Sharing(OfMain(rows[..n], main), i, k, pid) ==
            Sharing(OfMain(rows[..n - 1], main), i, k, pid) + Sharing(OfMain([rows[n - 1]], main), i, k, pid)
  {
    assert rows[..n] == rows[..n - 1] + [rows[n - 1]];
    OfMainConcat(rows[..n - 1], [rows[n - 1]], main);
    SharingConcat(OfMain(rows[..n - 1], main), OfMain([rows[n - 1]], main), i, k, pid);
  }

  // ---- what de-duplication keeps ----

  /** The first position of an id. */
  function FirstAt(objs: seq<Obj>, id: int): (n: nat)
    requires id in Ids(objs)
    ensures n < |objs| && objs[n].id == Some(id)
    ensures forall m :: 0 <= m < n ==> objs[m].id != Some(id)
  {
    if objs[0].id == Some(id) then 0
    else
      assert objs == [objs[0]] + objs[1..];
      1 + FirstAt(objs[1..], id)
  }

  ghost predicate IdsDistinct(objs: seq<Obj>) {
    && (forall a :: 0 <= a < |objs| ==> objs[a].id.Some?)
    && (forall a, b :: 0 <= a < b < |objs| ==> objs[a].id != objs[b].id)
  }

  lemma IdsCons(o: Obj, rest: seq<Obj>)
    ensures Ids([o] + rest) == (if o.id.Some? then {o.id.value} else {}) + Ids(rest)
  {
    assert forall x :: x in [o] + rest <==> x == o || x in rest;
  }

  lemma {:induction false} DedupFromIds(objs: seq<Obj>, seen: set<int>)
    ensures Ids(DedupFrom(objs, seen)) == Ids(objs) - seen
  {
    if objs != [] {
      assert objs == [objs[0]] + objs[1..];
      IdsCons(objs[0], objs[1..]);
      if objs[0].id.Some? && objs[0].id.value !in seen {
        DedupFromIds(objs[1..], seen + {objs[0].id.value});
        IdsCons(objs[0], DedupFrom(objs[1..], seen + {objs[0].id.value}));
      } else {
        DedupFromIds(objs[1..], seen);
      }
    }
  }

  lemma DistinctCons(o: Obj, rest: seq<Obj>)
    requires o.id.Some? && IdsDistinct(rest) && o.id.value !in Ids(rest)
    ensures IdsDistinct([o] + rest)
  {
    forall b | 0 <= b < |rest|
      ensures rest[b].id != o.id
    {
      assert rest[b] in rest;
    }
  }

  lemma {:induction false} DedupFromDistinct(objs: seq<Obj>, seen: set<int>)
    ensures IdsDistinct(DedupFrom(objs, seen))
  {
    if objs != [] {
      if objs[0].id.Some? && objs[0].id.value !in seen {
        DedupFromDistinct(objs[1..], seen + {objs[0].id.value});
        DedupFromIds(objs[1..], seen + {objs[0].id.value});
        DistinctCons(objs[0], DedupFrom(objs[1..], seen + {objs[0].id.value}));
      } else {
        DedupFromDistinct(objs[1..], seen);
      }
    }
  }

  lemma FirstAtTail(objs: seq<Obj>, id: int)
    requires objs != [] && objs[0].id != Some(id) && id in Ids(objs[1..])
    ensures id in Ids(objs) && FirstAt(objs, id) == 1 + FirstAt(objs[1..], id)
  {
    assert objs == [objs[0]] + objs[1..];
  }

  /** Every kept object is the first of its id. */
  lemma {:induction false} DedupFromKeepsFirst(objs: seq<Obj>, seen: set<int>, o: Obj)
    requires o in DedupFrom(objs, seen)
    ensures o.id.Some? && o.id.value !in seen && o.id.value in Ids(objs) && objs[FirstAt(objs, o.id.value)] == o
  {
    if objs[0].id.Some? && objs[0].id.value !in seen {
      if o != objs[0] {
        DedupFromKeepsFirst(objs[1..], seen + {objs[0].id.value}, o);
        FirstAtTail(objs, o.id.value);
      }
    } else {
      DedupFromKeepsFirst(objs[1..], seen, o);
      FirstAtTail(objs, o.id.value);
    }
  }

  /** Positions of first appearance, read off position by position. */
  ghost predicate Ordered(objs: seq<Obj>, kept: seq<Obj>) {
    && (forall o :: o in kept ==> o.id.Some? && o.id.value in Ids(objs))
    && (forall a, b :: 0 <= a < b < |kept| ==> FirstAt(objs, kept[a].id.value) < FirstAt(objs, kept[b].id.value))
  }

  lemma OrderedTail(objs: seq<Obj>, kept: seq<Obj>)
    requires objs != [] && Ordered(objs[1..], kept)
    requires forall o :: o in kept ==> o.id != objs[0].id
    ensures Ordered(objs, kept)
  {
    forall o | o in kept
      ensures o.id.value in Ids(objs) && FirstAt(objs, o.id.value) == 1 + FirstAt(objs[1..], o.id.value)
    {
      FirstAtTail(objs, o.id.value);
    }
  }

  lemma OrderedCons(objs: seq<Obj>, kept: seq<Obj>)
    requires objs != [] && objs[0].id.Some? && Ordered(objs, kept)
    requires forall o :: o in kept ==> o.id != objs[0].id
    ensures Ordered(objs, [objs[0]] + kept)
  {
    var all := [objs[0]] + kept;
    assert objs[0] in objs;
    forall b | 0 < b < |all|
      ensures all[b] == kept[b - 1] && all[b].id.value in Ids(objs) && FirstAt(objs, all[b].id.value) > 0
    {
      assert kept[b - 1] in kept;
    }
  }

  lemma {:induction false} DedupFromOrdered(objs: seq<Obj>, seen: set<int>)
    ensures Ordered(objs, DedupFrom(objs, seen))
  {
    if objs != [] {
      var keep := objs[0].id.Some? && objs[0].id.value !in seen;
      var seen' := if keep then seen + {objs[0].id.value} else seen;
      var rest := DedupFrom(objs[1..], seen');
      DedupFromOrdered(objs[1..], seen');
      forall o | o in rest
        ensures o.id != objs[0].id
      {
        DedupFromKeepsFirst(objs[1..], seen', o);
      }
      OrderedTail(objs, rest);
      if keep {
        OrderedCons(objs, rest);
      }
    }
  }

  /** De-duplication keeps the first object of every id, in order of first appearance. */
  lemma DedupExact(objs: seq<Obj>)
    ensures IdsDistinct(Dedup(objs))
    ensures Ids(Dedup(objs)) == Ids(objs)
    ensures Ordered(objs, Dedup(objs))
    ensures forall o :: o in Dedup(objs) ==> objs[FirstAt(objs, o.id.value)] == o
  {
    DedupFromDistinct(objs, {});
    DedupFromIds(objs, {});
    DedupFromOrdered(objs, {});
    forall o | o in Dedup(objs)
      ensures objs[FirstAt(objs, o.id.value)] == o
    {
      DedupFromKeepsFirst(objs, {}, o);
    }
  }

  // ---- the theorem on arbitrary rows ----

  /** The child list the rows prescribe: id-distinct, in order of first appearance. */
  function ChildList(rows: seq<Row>, main: int, i: nat, k: nat, pid: int): seq<Obj> {
    Dedup(Sharing(OfMain(rows, main), i, k, pid))
  }

  /**
    For any typed rows and any edge of the relation list whose child class has that one source,
    the list nested below a parent has one dictionary for each object of the prescribed child
    list, in its order.
  */
  lemma NestIsChildList(rels: Relations, rows: seq<Row>, cols: seq<string>, main: int, i: nat, k: nat, pid: int,
                        rank: map<string, nat>)
    requires Typed(rows, cols) && Acyclic(rels, rank)
    requires i < |cols| && 0 < k < |cols|
    requires cols[k] in rels.reverse && rels.reverse[cols[k]] == cols[i]
    ensures Nest(Joined(rels, rows), main, cols[k], pid, rank) ==
            NestAll(Joined(rels, rows), main, cols[k], ChildList(rows, main, i, k, pid), rank)
  {
    assert rows[..|rows|] == rows;
    BucketIsSharing(Joined(rels, rows), cols, |rows|, main, i, k, pid);
  }

  /** The first row of a main object. */
  ghost predicate FirstRowOf(rows: seq<Row>, n: nat, main: int) {
    && n < |rows| && HasMain(rows[n]) && ObjId(rows[n][0].value) == main
    && forall m :: 0 <= m < n && HasMain(rows[m]) ==> ObjId(rows[m][0].value) != main
  }

  /** Which rows the first `n` rows' main objects come from. */
  ghost predicate TakenFrom(rows: seq<Row>, n: nat, mains: seq<Obj>, at: seq<nat>) {
    && |at| == |mains|
    && (forall a :: 0 <= a < |at| ==>
          at[a] < n && FirstRowOf(rows, at[a], ObjId(mains[a])) && rows[at[a]][0].value == mains[a])
    && (forall a, b :: 0 <= a < b < |at| ==> at[a] < at[b])
  }

  lemma TakeOne(rows: seq<Row>, n: nat, mains: seq<Obj>, at: seq<nat>)
    requires n < |rows| && TakenFrom(rows, n, mains, at)
    requires HasMain(rows[n]) && FirstRowOf(rows, n, ObjId(rows[n][0].value))
    ensures TakenFrom(rows, n + 1, mains + [rows[n][0].value], at + [n])
  {
  }

  ghost predicate Covered(rows: seq<Row>, n: nat, ids: set<int>)
    requires n <= |rows|
  {
    forall m :: 0 <= m < n && HasMain(rows[m]) ==> ObjId(rows[m][0].value) in ids
  }

  /** The main objects: one for each distinct id, taken from its first row, in order of those rows. */
  lemma {:induction false} MainsExact(rows: seq<Row>, n: nat) returns (at: seq<nat>)
    requires n <= |rows|
    ensures TakenFrom(rows, n, Mains(rows, n), at) && Covered(rows, n, MainIds(Mains(rows, n)))
  {
    if n == 0 {
      at := [];
    } else {
      at := MainsExact(rows, n - 1);
      var before := Mains(rows, n - 1);
      if HasMain(rows[n - 1]) && ObjId(rows[n - 1][0].value) !in MainIds(before) {
        TakeOne(rows, n - 1, before, at);
        MainIdsGrow(before, rows[n - 1][0].value);
        at := at + [n - 1];
      }
    }
  }

  lemma MainIdsGrow(before: seq<Obj>, o: Obj)
    ensures MainIds(before + [o]) == MainIds(before) + {ObjId(o)}
  {
    assert forall x :: x in before + [o] <==> x in before || x == o;
  }

  // ---- main objects keyed 0 ----

  /** Some object of the rows has this primary key. */
  ghost predicate IsKey(rows: seq<Row>, id: int) {
    exists row: Row, k :: row in rows && 0 <= k < |row| && row[k].Some? && row[k].value.id == Some(id)
  }

  lemma {:induction false} NothingInRow(j: Join, row: Row, n: nat, main: int, cls: string, pk: int)
    requires row in j.rows && n <= |row| && !IsKey(j.rows, pk)
    ensures RowBucket(j, row, n, (main, cls, pk)) == []
  {
    if n > 1 {
      NothingInRow(j, row, n - 1, main, cls, pk);
      assert forall k :: 0 <= k < |row| && row[k].Some? ==> row[k].value.id != Some(pk);
      assert FiledUnder(j, row, n - 1) != Some((main, cls, pk));
    }
  }

  lemma {:induction false} NothingFiled(j: Join, n: nat, main: int, cls: string, pk: int)
    requires n <= |j.rows| && !IsKey(j.rows, pk)
    ensures Bucket(j, n, (main, cls, pk)) == []
  {
    if n > 0 {
      NothingFiled(j, n - 1, main, cls, pk);
      NothingInRow(j, j.rows[n - 1], |j.rows[n - 1]|, main, cls, pk);
    }
  }

  /** The columns of an object and, for its first `n` relations, nothing. */
  function BareFields(rels: Relations, cls: string, base: map<string, Field>, n: nat): map<string, Field>
    requires n <= |EdgesOf(rels, cls)|
  {
    if n == 0 then base
    else
      var (sub, kind) := EdgesOf(rels, cls)[n - 1];
      BareFields(rels, cls, base, n - 1)[RelationKey(rels, cls, sub, kind) := Value(kind, [])]
  }

  lemma {:induction false} NestsBare(j: Join, main: int, cls: string, pk: int, base: map<string, Field>, n: nat,
                                     rank: map<string, nat>)
    requires Acyclic(j.rels, rank) && n <= |EdgesOf(j.rels, cls)| && !IsKey(j.rows, pk)
    ensures NestFields(j, main, cls, pk, base, n, rank) == BareFields(j.rels, cls, base, n)
    decreases n
  {
    if n > 0 {
      var sub := EdgesOf(j.rels, cls)[n - 1].0;
      NestsBare(j, main, cls, pk, base, n - 1, rank);
      NothingFiled(j, |j.rows|, main, sub, pk);
      assert Nest(j, main, sub, pk, rank) == [];
    }
  }

  /**
    For arbitrary rows: a main object keyed 0, or without a key, is looked up by its address, and
    when that is no object's key all its relations come out empty.
  */
  lemma ZeroKeyLosesChildren(j: Join, primary: string, o: Obj, rank: map<string, nat>)
    requires Acyclic(j.rels, rank) && (o.id == Some(0) || o.id == None) && !IsKey(j.rows, o.address)
    ensures NestMain(j, primary, o, rank) ==
            Dict(BareFields(j.rels, primary, Columns(o), |EdgesOf(j.rels, primary)|))
  {
    NestsBare(j, ObjId(o), primary, ObjId(o), Columns(o), |EdgesOf(j.rels, primary)|, rank);
  }
}
