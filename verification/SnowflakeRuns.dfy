/**
  Many snowflake generators, called in any order on clocks that may go back: their ids never
  repeat.
*/
module SnowflakeRuns {
  import opened Snowflake

  datatype Call = Call(gen: nat, readings: seq<int>)
  datatype Issue = Issue(gen: nat, id: int)

  function Step(gens: seq<Gen>, c: Call): seq<Gen>
    requires c.gen < |gens|
  {
    gens[c.gen := Generated(gens[c.gen], c.readings).0]
  }

  function StepLog(gens: seq<Gen>, c: Call): seq<Issue>
    requires c.gen < |gens|
  {
    var r := Generated(gens[c.gen], c.readings).1;
    if r.Issued? then [Issue(c.gen, r.id)] else []
  }

  predicate CallsOf(calls: seq<Call>, n: nat) {
    forall c :: c in calls ==> c.gen < n
  }

  /** The generators after a run. */
  function Run(gens: seq<Gen>, calls: seq<Call>): (r: seq<Gen>)
    requires CallsOf(calls, |gens|)
    ensures |r| == |gens|
  {
    if calls == [] then gens
    else Step(Run(gens, calls[..|calls| - 1]), calls[|calls| - 1])
  }

  /** Every id issued in a run, in order. */
  function Log(gens: seq<Gen>, calls: seq<Call>): seq<Issue>
    requires CallsOf(calls, |gens|)
  {
    if calls == [] then []
    else Log(gens, calls[..|calls| - 1]) + StepLog(Run(gens, calls[..|calls| - 1]), calls[|calls| - 1])
  }

  /** The processes of a deployment: each initialized one has a node of its own. */
  ghost predicate Fleet(gens: seq<Gen>) {
    && (forall i :: 0 <= i < |gens| ==> Valid(gens[i]))
    && (forall i, k :: 0 <= i < k < |gens| && gens[i].initialized && gens[k].initialized ==>
          gens[i].node != gens[k].node)
  }

  /** An entry of the log: on its generator's node, above its starting mark, not above its present one. */
  ghost predicate Marked(e: Issue, before: seq<Gen>, gens: seq<Gen>) {
    && e.gen < |gens| && e.gen < |before| && gens[e.gen].initialized
    && Parse(e.id).node == gens[e.gen].node
    && Mark(before[e.gen]) < e.id
    && (!gens[e.gen].held ==> e.id <= Mark(gens[e.gen]))
  }

  ghost predicate Increasing(log: seq<Issue>) {
    forall a, b :: 0 <= a < b < |log| && log[a].gen == log[b].gen ==> log[a].id < log[b].id
  }

  ghost predicate AllMarked(log: seq<Issue>, before: seq<Gen>, gens: seq<Gen>) {
    forall e :: e in log ==> Marked(e, before, gens)
  }

  ghost predicate Evolved(before: seq<Gen>, gens: seq<Gen>) {
    |gens| == |before| && forall i :: 0 <= i < |gens| ==> EvolvedOne(before[i], gens[i])
  }

  ghost predicate EvolvedOne(g: Gen, g': Gen) {
    && Valid(g') && g'.node == g.node && g'.initialized == g.initialized
    && (g'.initialized && !g'.held ==> Mark(g) <= Mark(g'))
  }

  lemma StepEvolves(before: seq<Gen>, gens: seq<Gen>, c: Call)
    requires c.gen < |gens| && Evolved(before, gens)
    ensures Evolved(before, Step(gens, c))
  {
    assert EvolvedOne(before[c.gen], gens[c.gen]);
    CallAdvances(gens[c.gen], c.readings);
  }

  lemma StepMarks(before: seq<Gen>, gens: seq<Gen>, log: seq<Issue>, c: Call)
    requires c.gen < |gens| && Evolved(before, gens) && AllMarked(log, before, gens)
    ensures AllMarked(log + StepLog(gens, c), before, Step(gens, c))
  {
    var g := gens[c.gen];
    assert EvolvedOne(before[c.gen], g);
    CallAdvances(g, c.readings);
    var (g', r) := Generated(g, c.readings);
    if r.Issued? {
      ParsePack(Now(g'));
      assert Marked(Issue(c.gen, r.id), before, Step(gens, c));
    }
    forall e | e in log
      ensures Marked(e, before, Step(gens, c))
    {
      assert Marked(e, before, gens);
    }
  }

  lemma StepIncreases(before: seq<Gen>, gens: seq<Gen>, log: seq<Issue>, c: Call)
    requires c.gen < |gens| && Evolved(before, gens) && AllMarked(log, before, gens) && Increasing(log)
    ensures Increasing(log + StepLog(gens, c))
  {
    assert EvolvedOne(before[c.gen], gens[c.gen]);
    CallAdvances(gens[c.gen], c.readings);
    forall a | 0 <= a < |log| && log[a].gen == c.gen
      ensures !gens[c.gen].held ==> log[a].id <= Mark(gens[c.gen])
    {
      assert Marked(log[a], before, gens);
    }
  }

  lemma {:induction false} RunSound(gens: seq<Gen>, calls: seq<Call>)
    requires CallsOf(calls, |gens|) && forall i :: 0 <= i < |gens| ==> Valid(gens[i])
    ensures Evolved(gens, Run(gens, calls))
    ensures AllMarked(Log(gens, calls), gens, Run(gens, calls)) && Increasing(Log(gens, calls))
    decreases |calls|
  {
    if calls != [] {
      var init, c := calls[..|calls| - 1], calls[|calls| - 1];
      RunSound(gens, init);
      StepEvolves(gens, Run(gens, init), c);
      StepMarks(gens, Run(gens, init), Log(gens, init), c);
      StepIncreases(gens, Run(gens, init), Log(gens, init), c);
    }
  }

  /**
    Over every interleaving of calls on generators with distinct nodes, whatever the clocks do:
    each generator's ids strictly increase and no id is issued twice.
  */
  lemma IdsUnique(gens: seq<Gen>, calls: seq<Call>)
    requires Fleet(gens) && CallsOf(calls, |gens|)
    ensures Increasing(Log(gens, calls))
    ensures forall a, b :: 0 <= a < b < |Log(gens, calls)| ==> Log(gens, calls)[a].id != Log(gens, calls)[b].id
  {
    RunSound(gens, calls);
    var log, end := Log(gens, calls), Run(gens, calls);
    forall a, b | 0 <= a < b < |log| && log[a].gen != log[b].gen
      ensures log[a].id != log[b].id
    {
      assert Marked(log[a], gens, end) && Marked(log[b], gens, end);
      assert EvolvedOne(gens[log[a].gen], end[log[a].gen]) && EvolvedOne(gens[log[b].gen], end[log[b].gen]);
    }
  }

  // ---- at most 4096 ids a node and millisecond ----

  /** Distinct values below a bound cannot outnumber it. */
  lemma {:induction false} Pigeonhole(value: map<nat, int>, n: nat)
    requires forall k :: k in value ==> 0 <= value[k] < n
    requires forall a, b :: a in value && b in value && value[a] == value[b] ==> a == b
    ensures |value| <= n
  {
    if n == 0 {
      assert value.Keys == {};
    } else {
      var top := set k | k in value && value[k] == n - 1;
      AtMostOne(top);
      Pigeonhole(value - top, n - 1);
      assert (value - top).Keys == value.Keys - top;
      assert |value.Keys| == |value.Keys - top| + |top|;
    }
  }

  lemma AtMostOne(s: set<nat>)
    requires forall a, b :: a in s && b in s ==> a == b
    ensures |s| <= 1
  {
    if s != {} {
      var a :| a in s;
      assert s == {a};
    }
  }

  /** No millisecond ever carries more than 4096 ids of one node, wherever in the log they are. */
  lemma PerMillisecond(gens: seq<Gen>, calls: seq<Call>, node: Node, ms: int, at: set<nat>)
    requires Fleet(gens) && CallsOf(calls, |gens|)
    requires var log := Log(gens, calls);
             forall k :: k in at ==>
               k < |log| && Parse(log[k].id).node == node && Parse(log[k].id).timestamp == ms
    ensures |at| <= 4096
  {
    var log := Log(gens, calls);
    IdsUnique(gens, calls);
    var value := map k | k in at :: Parse(log[k].id).sequence;
    forall k | k in value
      ensures 0 <= value[k] < 4096 && log[k].id == Pack(Info(ms, node, value[k]))
    {
      PackParse(log[k].id);
    }
    Pigeonhole(value, 4096);
    assert value.Keys == at;
  }

  /** What distinct nodes are for: two generators sharing one repeat each other's ids in the same millisecond. */
  lemma SharedNodeCollides(node: Node, ms: int)
    requires NodeInRange(node) && ms > -1
    ensures var g := Gen(node, true, 0, -1, false);
            var log := Log([g, g], [Call(0, [ms]), Call(1, [ms])]);
            |log| == 2 && log[0].gen != log[1].gen && log[0].id == log[1].id
  {
    var g := Gen(node, true, 0, -1, false);
    var calls := [Call(0, [ms]), Call(1, [ms])];
    assert calls[..1] == [Call(0, [ms])] && calls[..1][..0] == [];
    assert Log([g, g], calls[..1][..0]) == [];
    assert Log([g, g], calls[..1]) == [Issue(0, Generated(g, [ms]).1.id)];
  }
}
