/**
  Snowflake generators on leased nodes: processes take, renew, lose and hand on their leases
  while they issue ids.
*/
module LeaseRuns {
  import opened Options
  import opened Snowflake
  import L = NodeLease
  import R = SnowflakeRuns

  /**
    The leases, the generator of every process that ever had a node, the processes that ended, and all
    ids issued so far.
  */
  datatype World = World(lease: L.State, gens: map<nat, Gen>, ended: set<nat>, log: seq<R.Issue>)

  datatype Event = Lease(e: L.Event) | Generate(p: nat, readings: seq<int>)

  const START := World(L.State(0, map[], map[]), map[], {}, [])

  predicate Holds(s: L.State, p: nat) {
    L.At(s, p).Holding?
  }

  /** Releasing the node leaves the generator initialized: it goes on until its process ends. */
  predicate Runs(w: World, p: nat) {
    p in w.gens && p !in w.ended
  }

  /** A process that has just got its node starts its generator with it. */
  function Led(w: World, e: L.Event): World {
    var s := L.After(w.lease, e);
    if e.Try? && Holds(s, e.p) && !Holds(w.lease, e.p) then
      w.(lease := s, gens := w.gens[e.p := Gen(L.At(s, e.p).node, true, 0, -1, false)])
    else if e.Crash? then w.(lease := s, ended := w.ended + {e.p})
    else w.(lease := s)
  }

  function Issued(w: World, p: nat, readings: seq<int>): World {
    if !Runs(w, p) then w
    else
      var (g, r) := Generated(w.gens[p], readings);
      w.(gens := w.gens[p := g], log := w.log + if r.Issued? then [R.Issue(p, r.id)] else [])
  }

  function After(w: World, e: Event): World {
    match e
    case Lease(e) => Led(w, e)
    case Generate(p, readings) => Issued(w, p, readings)
  }

  function Run(events: seq<Event>): World {
    if events == [] then START else After(Run(events[..|events| - 1]), events[|events| - 1])
  }

  // ---- what the clocks must do ----

  /**
    `Past`: a holder's clock is `d` milliseconds past every timestamp on its node by a process that no
    longer holds it; if `quiet`, nobody generates after releasing.  `Apart`: the clock of any call,
    after a release too, is `d` milliseconds from every timestamp on its node by another process,
    unless both hold nodes.
  */
  datatype Rule = Past(d: int, quiet: bool) | Apart(d: int)

  ghost predicate Obeys(w: World, e: Event, rule: Rule) {
    e.Generate? && Runs(w, e.p) ==>
      match rule
      case Past(d, quiet) =>
        && (quiet ==> Holds(w.lease, e.p))
        && (Holds(w.lease, e.p) ==>
              forall k, i :: 0 <= k < |w.log| && 0 <= i < |e.readings| && SharesNode(w, e.p, w.log[k]) ==>
                               e.readings[i] >= Parse(w.log[k].id).timestamp + d)
      case Apart(d) =>
        forall k, i :: 0 <= k < |w.log| && 0 <= i < |e.readings| && SharesNode(w, e.p, w.log[k]) ==>
                         || e.readings[i] >= Parse(w.log[k].id).timestamp + d
                         || e.readings[i] + d <= Parse(w.log[k].id).timestamp
  }

  /** Another process put the caller's node into the id, and one of the two does not hold a node. */
  predicate SharesNode(w: World, p: nat, issue: R.Issue)
    requires p in w.gens
  {
    && issue.gen != p && Parse(issue.id).node == w.gens[p].node
    && !(Holds(w.lease, p) && Holds(w.lease, issue.gen))
  }

  /** Renewals at most `gap` seconds apart, and clocks by the rule. */
  ghost predicate Fair(events: seq<Event>, gap: int, rule: Rule) {
    events == [] || (Fair(events[..|events| - 1], gap, rule)
                     && L.Timely(Run(events).lease, gap, {})
                     && Obeys(Run(events[..|events| - 1]), events[|events| - 1], rule))
  }

  /** The rule rules out equal timestamps by different processes on a node. */
  predicate Strict(rule: Rule) {
    rule.d >= 1 && (rule.Past? ==> rule.quiet)
  }

  ghost predicate Distinct(log: seq<R.Issue>) {
    forall a, b :: 0 <= a < b < |log| ==> log[a].id != log[b].id
  }

  // ---- the invariant ----

  /** A holder's generator is on the node it holds; who has a generator holds or has held a node. */
  ghost predicate HolderOk(w: World, p: nat) {
    && (Holds(w.lease, p) ==> p in w.gens && w.gens[p].node == L.At(w.lease, p).node)
    && (p in w.gens ==> w.gens[p].initialized && (Holds(w.lease, p) || L.At(w.lease, p).Gone?))
  }

  /** An issued id is on its generator's node and not above its mark. */
  ghost predicate EntryOk(w: World, e: R.Issue) {
    && e.gen in w.gens && w.gens[e.gen].initialized && Parse(e.id).node == w.gens[e.gen].node
    && (!w.gens[e.gen].held ==> e.id <= Mark(w.gens[e.gen]))
  }

  ghost predicate Sound(w: World) {
    && L.AllOwn(w.lease)
    && (forall p :: p in w.gens ==> Valid(w.gens[p]))
    && (forall p :: HolderOk(w, p))
    && (forall k :: 0 <= k < |w.log| ==> EntryOk(w, w.log[k]))
  }

  lemma LeaseKeepsHolder(w: World, e: L.Event, p: nat)
    requires HolderOk(w, p)
    ensures HolderOk(After(w, Lease(e)), p)
  {
  }

  lemma LeaseKeepsEntry(w: World, e: L.Event, issue: R.Issue)
    requires EntryOk(w, issue) && HolderOk(w, issue.gen)
    ensures EntryOk(After(w, Lease(e)), issue)
  {
  }

  /** A generator starts valid because the node it gets is in range. */
  lemma LeaseKeepsValid(w: World, e: L.Event, p: nat)
    requires (p in w.gens ==> Valid(w.gens[p])) && L.Owns(L.After(w.lease, e), p)
    ensures p in After(w, Lease(e)).gens ==> Valid(After(w, Lease(e)).gens[p])
  {
  }

  lemma LeaseKeeps(w: World, e: L.Event, gap: int)
    requires Sound(w) && L.Timely(w.lease, gap, {}) && gap < L.NODE_TTL_SECONDS
    ensures Sound(After(w, Lease(e)))
  {
    var t := After(w, Lease(e));
    forall p: nat
      ensures L.Owns(t.lease, p) && HolderOk(t, p)
      ensures p in t.gens ==> Valid(t.gens[p])
    {
      L.EventKeepsOwner(w.lease, e, gap, p);
      LeaseKeepsHolder(w, e, p);
      LeaseKeepsValid(w, e, p);
    }
    forall k | 0 <= k < |t.log|
      ensures EntryOk(t, t.log[k])
    {
      LeaseKeepsEntry(w, e, w.log[k]);
    }
  }

  lemma GenerateKeeps(w: World, p: nat, readings: seq<int>)
    requires Sound(w)
    ensures Sound(After(w, Generate(p, readings)))
  {
    var t := After(w, Generate(p, readings));
    if Runs(w, p) {
      CallAdvances(w.gens[p], readings);
      assert HolderOk(w, p);
      forall q: nat
        ensures HolderOk(t, q)
      {
        assert HolderOk(w, q);
      }
      var r := Generated(w.gens[p], readings).1;
      if r.Issued? {
        ParsePack(Now(t.gens[p]));
      }
      forall k | 0 <= k < |t.log|
        ensures EntryOk(t, t.log[k])
      {
        assert k < |w.log| ==> t.log[k] == w.log[k] && EntryOk(w, w.log[k]);
      }
    }
  }

  // ---- a new id is new ----

  lemma {:induction false} FirstAfterReads(readings: seq<int>, last: int)
    ensures FirstAfter(readings, last).Some? ==> FirstAfter(readings, last).value in readings
  {
    if readings != [] {
      FirstAfterReads(readings[1..], last);
    }
  }

  /** The timestamp of an issued id is one of the call's clock readings. */
  lemma IssuedReads(g: Gen, readings: seq<int>)
    requires Valid(g)
    ensures var (g', r) := Generated(g, readings);
            r.Issued? ==> g'.last in readings && r.id == Pack(Now(g')) && InRange(Now(g'))
  {
    CallAdvances(g, readings);
    if readings != [] {
      FirstAfterReads(readings[1..], g.last);
    }
  }

  lemma NewIdIsNew(w: World, p: nat, readings: seq<int>, rule: Rule, k: nat)
    requires Sound(w) && L.Exclusive(w.lease) && Obeys(w, Generate(p, readings), rule) && Strict(rule)
    requires Runs(w, p) && Generated(w.gens[p], readings).1.Issued? && k < |w.log|
    ensures w.log[k].id != Generated(w.gens[p], readings).1.id
  {
    var g, e := w.gens[p], w.log[k];
    var (g', r) := Generated(g, readings);
    CallAdvances(g, readings);
    IssuedReads(g, readings);
    ParsePack(Now(g'));
    assert EntryOk(w, e) && HolderOk(w, p) && HolderOk(w, e.gen);
    if e.gen != p && Parse(e.id).node == g.node {
      HoldersApart(w, p, e.gen);
      assert SharesNode(w, p, e);
    }
  }

  lemma HoldersApart(w: World, p: nat, q: nat)
    requires L.Exclusive(w.lease) && HolderOk(w, p) && HolderOk(w, q) && p != q
    requires p in w.gens && q in w.gens && w.gens[p].node == w.gens[q].node
    ensures !(Holds(w.lease, p) && Holds(w.lease, q))
  {
  }

  lemma StepDistinct(w: World, e: Event, rule: Rule)
    requires Sound(w) && Distinct(w.log) && Obeys(w, e, rule) && Strict(rule)
    ensures Distinct(After(w, e).log)
  {
    L.OwnersDiffer(w.lease);
    if e.Generate? && Runs(w, e.p) && Generated(w.gens[e.p], e.readings).1.Issued? {
      forall k | 0 <= k < |w.log|
        ensures w.log[k].id != Generated(w.gens[e.p], e.readings).1.id
      {
        NewIdIsNew(w, e.p, e.readings, rule, k);
      }
    }
  }

  lemma {:induction false} FairRun(events: seq<Event>, gap: int, rule: Rule)
    requires Fair(events, gap, rule) && gap < L.NODE_TTL_SECONDS && Strict(rule)
    ensures Sound(Run(events)) && Distinct(Run(events).log)
  {
    if events != [] {
      var init, e := events[..|events| - 1], events[|events| - 1];
      FairRun(init, gap, rule);
      StepDistinct(Run(init), e, rule);
      match e
      case Lease(l) =>
        assert L.Timely(Run(init).lease, gap, {});
        LeaseKeeps(Run(init), l, gap);
      case Generate(p, readings) => GenerateKeeps(Run(init), p, readings);
    }
  }

  /** A crashed process issues nothing more; what it leased stays leased until it expires. */
  lemma CrashEnds(w: World, p: nat, readings: seq<int>)
    ensures var t := After(w, Lease(L.Crash(p)));
            After(t, Generate(p, readings)) == t && t.lease.leases == w.lease.leases && t.log == w.log
  {
  }

  /**
    A holder's clock may read anything, whatever the rule, as long as every id of its node was issued
    by itself or by a process that holds a node too: no rule speaks of two holders.
  */
  lemma HoldersNeedNoClock(w: World, p: nat, readings: seq<int>, rule: Rule)
    requires p in w.gens && Holds(w.lease, p)
    requires forall k :: 0 <= k < |w.log| ==>
               || w.log[k].gen == p || Holds(w.lease, w.log[k].gen)
               || Parse(w.log[k].id).node != w.gens[p].node
    ensures Obeys(w, Generate(p, readings), rule)
  {
    forall k | 0 <= k < |w.log|
      ensures !SharesNode(w, p, w.log[k])
    {
      assert w.log[k].gen == p || Holds(w.lease, w.log[k].gen) || Parse(w.log[k].id).node != w.gens[p].node;
    }
  }

  // ---- a handover within one millisecond ----

  lemma FairSnoc(events: seq<Event>, e: Event, gap: int, rule: Rule)
    requires Fair(events, gap, rule) && Obeys(Run(events), e, rule)
    requires L.Timely(After(Run(events), e).lease, gap, {})
    ensures Fair(events + [e], gap, rule) && Run(events + [e]) == After(Run(events), e)
  {
    assert (events + [e])[..|events|] == events;
  }

  /** The first node is free, and an idle process takes it. */
  lemma Enter(events: seq<Event>, p: nat, gap: int, rule: Rule) returns (longer: seq<Event>)
    requires Fair(events, gap, rule) && L.Timely(Run(events).lease, gap, {}) && gap >= 0
    requires L.At(Run(events).lease, p).Idle? && !L.Up(Run(events).lease, Node(0, 0))
    ensures Fair(longer, gap, rule)
    ensures var w := Run(events);
            Run(longer) == World(Entered(w.lease, p), w.gens[p := Gen(Node(0, 0), true, 0, -1, false)], w.ended, w.log)
  {
    var w := Run(events);
    EnterWorlds(w, p, gap);
    FairSnoc(events, Lease(L.Scan(p)), gap, rule);
    FairSnoc(events + [Lease(L.Scan(p))], Lease(L.EndScan(p)), gap, rule);
    longer := events + [Lease(L.Scan(p))] + [Lease(L.EndScan(p))];
    FairSnoc(longer, Lease(L.Try(p)), gap, rule);
    longer := longer + [Lease(L.Try(p))];
  }

  lemma EnterWorlds(w: World, p: nat, gap: int)
    requires L.Timely(w.lease, gap, {}) && gap >= 0 && L.At(w.lease, p).Idle? && !L.Up(w.lease, Node(0, 0))
    ensures var w1 := After(w, Lease(L.Scan(p)));
            var w2 := After(w1, Lease(L.EndScan(p)));
            var w3 := After(w2, Lease(L.Try(p)));
            && L.Timely(w1.lease, gap, {}) && L.Timely(w2.lease, gap, {}) && L.Timely(w3.lease, gap, {})
            && w3 == World(Entered(w.lease, p), w.gens[p := Gen(Node(0, 0), true, 0, -1, false)], w.ended, w.log)
  {
    L.EnterStates(w.lease, p, gap, {});
    var w2 := After(After(w, Lease(L.Scan(p))), Lease(L.EndScan(p)));
    assert L.After(w2.lease, L.Try(p)) == Entered(w.lease, p);
  }

  function Entered(s: L.State, p: nat): L.State {
    L.State(s.now, s.leases[Node(0, 0) := L.Lease(p, s.now + L.NODE_TTL_SECONDS)],
            s.procs[p := L.Holding(Node(0, 0), s.now)])
  }

  const FRESH := Gen(Node(0, 0), true, 0, -1, false)

  function FirstId(): int {
    Pack(Info(0, Node(0, 0), 0))
  }

  lemma FirstIssue(w: World, p: nat)
    requires Runs(w, p) && w.gens[p] == FRESH
    ensures After(w, Generate(p, [0])) ==
            World(w.lease, w.gens[p := FRESH.(last := 0)], w.ended, w.log + [R.Issue(p, FirstId())])
  {
  }

  /** The first process takes the first node, and issues an id there if `busy`. */
  lemma FirstHolds(busy: bool, gap: int, rule: Rule) returns (events: seq<Event>)
    requires gap >= 0
    ensures Fair(events, gap, rule)
    ensures Run(events) ==
            World(Entered(START.lease, 0), map[0 := if busy then FRESH.(last := 0) else FRESH], {},
                  if busy then [R.Issue(0, FirstId())] else [])
  {
    events := Enter([], 0, gap, rule);
    if busy {
      FirstIssue(Run(events), 0);
      FairSnoc(events, Generate(0, [0]), gap, rule);
      events := events + [Generate(0, [0])];
    }
  }

  lemma Left(w: World, gap: int)
    requires w.lease == Entered(START.lease, 0)
    ensures var left := After(w, Lease(L.Release(0)));
            && left == w.(lease := L.State(0, map[], map[0 := L.Gone]))
            && L.Timely(left.lease, gap, {})
  {
    assert L.At(w.lease, 0) == L.Holding(Node(0, 0), 0);
    assert w.lease.leases - {Node(0, 0)} == map[];
    assert w.lease.procs[0 := L.Gone] == map[0 := L.Gone];
  }

  /** And then it releases the node. */
  lemma FirstHolder(busy: bool, gap: int, rule: Rule) returns (events: seq<Event>)
    requires gap >= 0
    ensures Fair(events, gap, rule)
    ensures Run(events) ==
            World(L.State(0, map[], map[0 := L.Gone]), map[0 := if busy then FRESH.(last := 0) else FRESH], {},
                  if busy then [R.Issue(0, FirstId())] else [])
  {
    events := FirstHolds(busy, gap, rule);
    Left(Run(events), gap);
    FairSnoc(events, Lease(L.Release(0)), gap, rule);
    events := events + [Lease(L.Release(0))];
  }

  lemma SameReading(w: World, p: nat, id: int, rule: Rule)
    requires w.log == [R.Issue(0, id)] && Parse(id).timestamp == 0 && rule.d <= 0 && Holds(w.lease, p)
    ensures Obeys(w, Generate(p, [0]), rule)
  {
  }

  lemma NotDistinct(log: seq<R.Issue>, p: nat, q: nat, id: int)
    requires log == [R.Issue(p, id), R.Issue(q, id)]
    ensures !Distinct(log)
  {
    assert log[0].id == log[1].id;
  }

  /** The next holder of the node reads the same millisecond, and issues the same id. */
  lemma NarrowHandover(gap: int, rule: Rule) returns (events: seq<Event>)
    requires gap >= 0 && rule.d <= 0
    ensures Fair(events, gap, rule) && !Distinct(Run(events).log)
  {
    events := FirstHolder(true, gap, rule);
    events := Enter(events, 1, gap, rule);
    FirstIssue(Run(events), 1);
    ParsePack(Info(0, Node(0, 0), 0));
    SameReading(Run(events), 1, FirstId(), rule);
    var e := Generate(1, [0]);
    FairSnoc(events, e, gap, rule);
    events := events + [e];
    NotDistinct(Run(events).log, 0, 1, FirstId());
  }

  /**
    A process generates after its release: however far the next holder's clock has to be past what was
    issued before, the released one repeats what the holder has issued since.
  */
  lemma GenerateAfterRelease(gap: int, d: int) returns (events: seq<Event>)
    requires gap >= 0
    ensures Fair(events, gap, Past(d, false)) && !Distinct(Run(events).log)
  {
    var rule := Past(d, false);
    events := FirstHolder(false, gap, rule);
    events := Enter(events, 1, gap, rule);
    FirstIssue(Run(events), 1);
    FairSnoc(events, Generate(1, [0]), gap, rule);
    events := events + [Generate(1, [0])];
    FirstIssue(Run(events), 0);
    FairSnoc(events, Generate(0, [0]), gap, rule);
    events := events + [Generate(0, [0])];
    NotDistinct(Run(events).log, 1, 0, FirstId());
  }

  /**
    While renewals are timely, no id is issued twice by the generators of all processes that come and
    go exactly when clocks are at least a millisecond apart where they share a node: that is, a
    holder's past all earlier holders', provided nobody generates after releasing, or else any two.
  */
  lemma HandoverExactly(gap: int, rule: Rule)
    requires 0 <= gap < L.NODE_TTL_SECONDS
    ensures (forall events :: Fair(events, gap, rule) ==> Distinct(Run(events).log)) <==>
            rule.d >= 1 && (rule.Past? ==> rule.quiet)
  {
    if Strict(rule) {
      forall events | Fair(events, gap, rule)
        ensures Distinct(Run(events).log)
      {
        FairRun(events, gap, rule);
      }
    } else if rule.d <= 0 {
      var events := NarrowHandover(gap, rule);
    } else {
      var events := GenerateAfterRelease(gap, rule.d);
    }
  }
}
