/**
  The leases that give every process its own (datacenter, worker) pair: Redis keys set with
  SET NX EX, kept alive by a heartbeat, and lost when the heartbeat is late.
*/
module NodeLease {
  import opened Options
  import opened Snowflake

  const NODE_TTL_SECONDS := 60
  const HEARTBEAT_INTERVAL_SECONDS := 30
  const NODES: nat := 1024

  datatype Lease = Lease(owner: nat, expires: int)

  predicate Live(leases: map<Node, Lease>, now: int, n: Node) {
    n in leases && now < leases[n].expires
  }

  /** The order the candidates are tried in. */
  predicate TriedBefore(a: Node, b: Node) {
    a.datacenter < b.datacenter || (a.datacenter == b.datacenter && a.worker < b.worker)
  }

  // ---- one process acquiring, undisturbed ----

  class Redis {
    var now: int
    var leases: map<Node, Lease>

    method SetNxEx(n: Node, owner: nat, ttl: int) returns (ok: bool)
      modifies this
      ensures now == old(now) && ok == !Live(old(leases), now, n)
      ensures leases == if ok then old(leases)[n := Lease(owner, now + ttl)] else old(leases)
    {
      ok := !Live(leases, now, n);
      if ok {
        leases := leases[n := Lease(owner, now + ttl)];
      }
    }

    /** EXPIRE renews whatever key is there, whoever wrote it; a missing key stays missing. */
    method Expire(n: Node, ttl: int)
      modifies this
      ensures now == old(now)
      ensures leases == if Live(old(leases), now, n) then old(leases)[n := Lease(old(leases)[n].owner, now + ttl)]
              else old(leases)
    {
      if Live(leases, now, n) {
        leases := leases[n := Lease(leases[n].owner, now + ttl)];
      }
    }

    method Delete(n: Node)
      modifies this
      ensures now == old(now) && leases == old(leases) - {n}
    {
      leases := leases - {n};
    }
  }

  class NodeManager {
    const redis: Redis
    const pid: nat
    var node: Option<Node>

    constructor (redis: Redis, pid: nat)
      ensures this.redis == redis && this.pid == pid && node == None
    {
      this.redis, this.pid, node := redis, pid, None;
    }

    /** Undisturbed, acquisition leases the least free pair, and fails exactly when all are taken. */
    method AcquireNodeId() returns (r: Option<Node>)
      modifies redis
      ensures redis.now == old(redis.now)
      ensures r.None? <==> forall n :: NodeInRange(n) ==> Live(old(redis.leases), redis.now, n)
      ensures r.None? ==> redis.leases == old(redis.leases)
      ensures r.Some? ==>
                && NodeInRange(r.value) && !Live(old(redis.leases), redis.now, r.value)
                && (forall n :: NodeInRange(n) && TriedBefore(n, r.value) ==> Live(old(redis.leases), redis.now, n))
                && redis.leases == old(redis.leases)[r.value := Lease(pid, redis.now + NODE_TTL_SECONDS)]
    {
      var occupied := set n | n in redis.leases && Live(redis.leases, redis.now, n);
      for d := 0 to MAX_DATACENTER_ID + 1
        invariant redis.now == old(redis.now) && redis.leases == old(redis.leases)
        invariant forall n :: NodeInRange(n) && n.datacenter < d ==> Live(old(redis.leases), redis.now, n)
      {
        for w := 0 to MAX_WORKER_ID + 1
          invariant redis.now == old(redis.now) && redis.leases == old(redis.leases)
          invariant forall n :: NodeInRange(n) && TriedBefore(n, Node(d, w)) ==> Live(old(redis.leases), redis.now, n)
        {
          if Node(d, w) !in occupied {
            var ok := redis.SetNxEx(Node(d, w), pid, NODE_TTL_SECONDS);
            if ok {
              assert !Live(old(redis.leases), redis.now, Node(d, w));
              return Some(Node(d, w));
            }
          }
        }
      }
      r := None;
    }

    method Heartbeat()
      modifies redis
      ensures redis.now == old(redis.now)
      ensures node.Some? && Live(old(redis.leases), redis.now, node.value) ==>
                var renewed := old(redis.leases)[node.value].(expires := redis.now + NODE_TTL_SECONDS);
                redis.leases == old(redis.leases)[node.value := renewed]
      ensures node.None? || !Live(old(redis.leases), redis.now, node.value) ==> redis.leases == old(redis.leases)
    {
      if node.Some? {
        redis.Expire(node.value, NODE_TTL_SECONDS);
      }
    }

    /** Release deletes the key without looking who owns it. */
    method Release()
      modifies redis
      ensures redis.now == old(redis.now)
      ensures redis.leases == if node.Some? then old(redis.leases) - {node.value} else old(redis.leases)
    {
      if node.Some? {
        redis.Delete(node.value);
      }
    }
  }

  // ---- many processes ----

  /** Where a process stands; `beat` is when its lease was last acquired or renewed. */
  datatype Phase =
    | Idle
    | Scanning(occupied: set<Node>)
    | Trying(occupied: set<Node>, next: nat)
    | Holding(node: Node, beat: int)
    | Exhausted(occupied: set<Node>)
    | Gone

  datatype State = State(now: int, leases: map<Node, Lease>, procs: map<nat, Phase>)

  /** Each event is one command of one process, or time passing. */
  datatype Event = Tick(d: nat) | Scan(p: nat) | Saw(p: nat, n: Node) | EndScan(p: nat) | Try(p: nat)
    | Beat(p: nat) | Release(p: nat) | Crash(p: nat)

  function At(s: State, p: nat): Phase {
    if p in s.procs then s.procs[p] else Idle
  }

  predicate Up(s: State, n: Node) {
    Live(s.leases, s.now, n)
  }

  function Candidate(k: nat): Node {
    Node(k / 32, k % 32)
  }

  function Moved(s: State, p: nat, to: Phase): State {
    s.(procs := s.procs[p := to])
  }

  function After(s: State, e: Event): State {
    match e
    case Tick(d) => s.(now := s.now + d)
    case Scan(p) => if At(s, p).Idle? then Moved(s, p, Scanning({})) else s
    case Saw(p, n) => if At(s, p).Scanning? && Up(s, n) then Moved(s, p, Scanning(At(s, p).occupied + {n})) else s
    case EndScan(p) => if At(s, p).Scanning? then Moved(s, p, Trying(At(s, p).occupied, 0)) else s
    case Try(p) => if At(s, p).Trying? then Tried(s, p, At(s, p).occupied, At(s, p).next) else s
    case Beat(p) => if At(s, p).Holding? && Up(s, At(s, p).node) then Renewed(s, p, At(s, p).node) else s
    case Release(p) =>
      if At(s, p).Holding? then Moved(s.(leases := s.leases - {At(s, p).node}), p, Gone) else s
    case Crash(p) => Moved(s, p, Gone)
  }

  function Tried(s: State, p: nat, occupied: set<Node>, next: nat): State {
    if next >= NODES then Moved(s, p, Exhausted(occupied))
    else if Candidate(next) in occupied || Up(s, Candidate(next)) then Moved(s, p, Trying(occupied, next + 1))
    else Moved(s.(leases := s.leases[Candidate(next) := Lease(p, s.now + NODE_TTL_SECONDS)]), p,
               Holding(Candidate(next), s.now))
  }

  function Renewed(s: State, p: nat, n: Node): State
    requires n in s.leases
  {
    Moved(s.(leases := s.leases[n := s.leases[n].(expires := s.now + NODE_TTL_SECONDS)]), p, Holding(n, s.now))
  }

  function Run(events: seq<Event>): State {
    if events == [] then State(0, map[], map[])
    else After(Run(events[..|events| - 1]), events[|events| - 1])
  }

  lemma RunSnoc(events: seq<Event>, e: Event)
    ensures Run(events + [e]) == After(Run(events), e)
  {
    assert (events + [e])[..|events|] == events;
  }

  /** A pair seen leased while scanning is passed over when its turn comes, even if it is free by then. */
  lemma SeenIsSkipped(s: State, p: nat, n: Node, later: State, next: nat)
    requires At(s, p).Scanning? && Up(s, n)
    requires At(later, p) == Trying(At(After(s, Saw(p, n)), p).occupied, next) && next < NODES && Candidate(next) == n
    ensures At(After(later, Try(p)), p) == Trying(At(later, p).occupied, next + 1)
    ensures After(later, Try(p)).leases == later.leases
  {
  }

  // ---- exclusion ----

  /** No holder's last renewal lies more than `gap` seconds back, the `late` ones excepted. */
  ghost predicate Timely(s: State, gap: int, late: set<nat>) {
    forall p :: p in s.procs && p !in late && s.procs[p].Holding? ==> s.now - s.procs[p].beat <= gap
  }

  ghost predicate TimelyRun(events: seq<Event>, gap: int, late: set<nat>) {
    forall k :: 0 <= k <= |events| ==> Timely(Run(events[..k]), gap, late)
  }

  ghost predicate Exclusive(s: State) {
    forall p, q :: p in s.procs && q in s.procs && p != q && s.procs[p].Holding? && s.procs[q].Holding?
                   ==> s.procs[p].node != s.procs[q].node
  }

  ghost predicate Owns(s: State, p: nat) {
    p in s.procs && s.procs[p].Holding? ==>
      && s.procs[p].node in s.leases
      && s.leases[s.procs[p].node] == Lease(p, s.procs[p].beat + NODE_TTL_SECONDS)
      && NodeInRange(s.procs[p].node)
  }

  ghost predicate AllOwn(s: State) {
    forall p :: Owns(s, p)
  }

  lemma EventKeepsOwner(s: State, e: Event, gap: int, p: nat)
    requires AllOwn(s) && Timely(s, gap, {}) && gap < NODE_TTL_SECONDS
    ensures Owns(After(s, e), p)
  {
    assert Owns(s, p);
    match e
    case Try(q) =>
      assert Owns(s, q);
      assert p in s.procs && s.procs[p].Holding? ==> Up(s, s.procs[p].node);
    case Beat(q) =>
      assert Owns(s, q);
    case Release(q) =>
      assert Owns(s, q);
    case _ =>
  }

  lemma {:induction false} OwnershipKept(events: seq<Event>, gap: int)
    requires TimelyRun(events, gap, {}) && gap < NODE_TTL_SECONDS
    ensures AllOwn(Run(events))
  {
    if events != [] {
      var init := events[..|events| - 1];
      forall k | 0 <= k <= |init|
        ensures Timely(Run(init[..k]), gap, {})
      {
        assert init[..k] == events[..k];
      }
      OwnershipKept(init, gap);
      assert init[..|init|] == init;
      forall p: nat
        ensures Owns(Run(events), p)
      {
        EventKeepsOwner(Run(init), events[|events| - 1], gap, p);
      }
    }
  }

  lemma OwnersDiffer(s: State)
    requires AllOwn(s)
    ensures Exclusive(s)
  {
    forall p, q | p in s.procs && q in s.procs && p != q && s.procs[p].Holding? && s.procs[q].Holding?
      ensures s.procs[p].node != s.procs[q].node
    {
      assert Owns(s, p) && Owns(s, q);
    }
  }

  lemma TimelySnoc(events: seq<Event>, e: Event, gap: int, late: set<nat>)
    requires TimelyRun(events, gap, late) && Timely(After(Run(events), e), gap, late)
    ensures TimelyRun(events + [e], gap, late) && Run(events + [e]) == After(Run(events), e)
  {
    RunSnoc(events, e);
    var all := events + [e];
    forall k | 0 <= k <= |all|
      ensures Timely(Run(all[..k]), gap, late)
    {
      assert all[..k] == if k <= |events| then events[..k] else all;
    }
  }

  /** An idle process leases the first pair when nothing keeps it from it. */
  lemma EnterFirst(events: seq<Event>, p: nat, gap: int, late: set<nat>) returns (longer: seq<Event>)
    requires TimelyRun(events, gap, late) && gap >= 0 && At(Run(events), p).Idle? && !Up(Run(events), Node(0, 0))
    ensures TimelyRun(longer, gap, late)
    ensures var s := Run(events);
            Run(longer) == State(s.now, s.leases[Node(0, 0) := Lease(p, s.now + NODE_TTL_SECONDS)],
                                 s.procs[p := Holding(Node(0, 0), s.now)])
  {
    assert events[..|events|] == events;
    EnterStates(Run(events), p, gap, late);
    TimelySnoc(events, Scan(p), gap, late);
    TimelySnoc(events + [Scan(p)], EndScan(p), gap, late);
    TimelySnoc(events + [Scan(p)] + [EndScan(p)], Try(p), gap, late);
    longer := events + [Scan(p)] + [EndScan(p)] + [Try(p)];
  }

  lemma EnterStates(s: State, p: nat, gap: int, late: set<nat>)
    requires Timely(s, gap, late) && gap >= 0 && At(s, p).Idle? && !Up(s, Node(0, 0))
    ensures var s1 := After(s, Scan(p));
            var s2 := After(s1, EndScan(p));
            && Timely(s1, gap, late) && Timely(s2, gap, late) && Timely(After(s2, Try(p)), gap, late)
            && After(s2, Try(p)) == State(s.now, s.leases[Node(0, 0) := Lease(p, s.now + NODE_TTL_SECONDS)],
                                          s.procs[p := Holding(Node(0, 0), s.now)])
  {
    var s2 := After(After(s, Scan(p)), EndScan(p));
    assert s2 == Moved(s, p, Trying({}, 0)) by {
      assert s2.procs == s.procs[p := Trying({}, 0)];
    }
    assert Candidate(0) == Node(0, 0);
    assert After(s2, Try(p)).procs == s.procs[p := Holding(Node(0, 0), s.now)];
  }

  lemma StartTimely(gap: int, late: set<nat>)
    ensures TimelyRun([], gap, late) && Run([]) == State(0, map[], map[])
  {
    var none: seq<Event> := [];
    assert none[..0] == [];
  }

  /** With a gap of a whole TTL two processes come to hold the same pair. */
  lemma LateHeartbeatShares(gap: int) returns (events: seq<Event>)
    requires gap >= NODE_TTL_SECONDS
    ensures TimelyRun(events, gap, {}) && !Exclusive(Run(events))
  {
    StartTimely(gap, {});
    events := EnterFirst([], 0, gap, {});
    TimelySnoc(events, Tick(NODE_TTL_SECONDS), gap, {});
    events := EnterFirst(events + [Tick(NODE_TTL_SECONDS)], 1, gap, {});
    var s := Run(events);
    assert s.procs[0] == Holding(Node(0, 0), 0) && s.procs[1] == Holding(Node(0, 0), NODE_TTL_SECONDS);
  }

  /**
    Leases exclude on every run in which no holder goes longer than `gap` between renewals
    exactly when `gap` is below the TTL.
  */
  lemma ExclusionExactly(gap: int)
    ensures (forall events :: TimelyRun(events, gap, {}) ==> Exclusive(Run(events))) <==> gap < NODE_TTL_SECONDS
  {
    if gap < NODE_TTL_SECONDS {
      forall events | TimelyRun(events, gap, {})
        ensures Exclusive(Run(events))
      {
        OwnershipKept(events, gap);
        OwnersDiffer(Run(events));
      }
    } else {
      var events := LateHeartbeatShares(gap);
    }
  }

  /** The deployed settings leave no room: one heartbeat that fails is a whole TTL without renewal. */
  lemma OneMissedHeartbeatShares() returns (events: seq<Event>)
    ensures TimelyRun(events, 60, {}) && !Exclusive(Run(events)) && 60 == 2 * HEARTBEAT_INTERVAL_SECONDS
  {
    events := LateHeartbeatShares(2 * HEARTBEAT_INTERVAL_SECONDS);
  }

  /** No two processes outside `late` hold the same pair. */
  ghost predicate PunctualExclusive(s: State, late: set<nat>) {
    forall p, q :: p !in late && q !in late && p != q && At(s, p).Holding? && At(s, q).Holding? ==>
                     At(s, p).node != At(s, q).node
  }

  /**
    One late process can make any two punctual ones share a pair: its release deletes a lease that is
    no longer its own.
  */
  lemma LateReleaseEvicts(p: nat, q: nat, r: nat, gap: int, late: set<nat>) returns (events: seq<Event>)
    requires gap >= 0 && p in late && q !in late && r !in late && q != r
    ensures TimelyRun(events, gap, late) && !PunctualExclusive(Run(events), late)
  {
    StartTimely(gap, late);
    events := EnterFirst([], p, gap, late);
    TimelySnoc(events, Tick(NODE_TTL_SECONDS), gap, late);
    events := EnterFirst(events + [Tick(NODE_TTL_SECONDS)], q, gap, late);
    TimelySnoc(events, Release(p), gap, late);
    events := EnterFirst(events + [Release(p)], r, gap, late);
    var s := Run(events);
    assert At(s, q) == At(s, r) == Holding(Node(0, 0), NODE_TTL_SECONDS);
  }

  lemma {:induction false} Above(s: set<nat>) returns (m: nat)
    ensures forall p :: p in s ==> p < m
  {
    if s == {} {
      m := 0;
    } else {
      var p :| p in s;
      var k := Above(s - {p});
      m := if k > p then k else p + 1;
      assert forall x :: x in s ==> x == p || x in s - {p};
    }
  }

  /** While the gap is below the TTL, punctual processes exclude each other on all runs exactly when nobody is late. */
  lemma PunctualExactly(gap: int, late: set<nat>)
    requires 0 <= gap < NODE_TTL_SECONDS
    ensures (forall events :: TimelyRun(events, gap, late) ==> PunctualExclusive(Run(events), late)) <==> late == {}
  {
    if late == {} {
      forall events | TimelyRun(events, gap, {})
        ensures PunctualExclusive(Run(events), {})
      {
        OwnershipKept(events, gap);
        OwnersDiffer(Run(events));
      }
    } else {
      var p :| p in late;
      var m := Above(late);
      var events := LateReleaseEvicts(p, m, m + 1, gap, late);
    }
  }

  // ---- exhaustion ----

  /** At some moment of its own search, process `p` could find `n` leased. */
  ghost predicate Witnessed(events: seq<Event>, p: nat, n: Node) {
    exists k :: 0 <= k <= |events| && WitnessedAt(Run(events[..k]), p, n)
  }

  ghost predicate WitnessedAt(s: State, p: nat, n: Node) {
    (At(s, p).Scanning? || At(s, p).Trying?) && Up(s, n)
  }

  ghost predicate Accounted(events: seq<Event>, p: nat, phase: Phase) {
    match phase
    case Scanning(occupied) => forall n :: n in occupied ==> Witnessed(events, p, n)
    case Trying(occupied, next) =>
      && (forall n :: n in occupied ==> Witnessed(events, p, n))
      && (forall k :: 0 <= k < next && k < NODES ==> Witnessed(events, p, Candidate(k)))
    case Exhausted(_) => forall k :: 0 <= k < NODES ==> Witnessed(events, p, Candidate(k))
    case _ => true
  }

  lemma WitnessedLater(events: seq<Event>, e: Event, p: nat, n: Node)
    requires Witnessed(events, p, n)
    ensures Witnessed(events + [e], p, n)
  {
    var k :| 0 <= k <= |events| && WitnessedAt(Run(events[..k]), p, n);
    assert (events + [e])[..k] == events[..k];
  }

  lemma WitnessedNow(events: seq<Event>, e: Event, p: nat, n: Node)
    requires WitnessedAt(Run(events), p, n)
    ensures Witnessed(events + [e], p, n)
  {
    assert (events + [e])[..|events|] == events;
  }

  lemma AccountedLater(events: seq<Event>, e: Event, p: nat, phase: Phase)
    requires Accounted(events, p, phase)
    ensures Accounted(events + [e], p, phase)
  {
    forall n | Witnessed(events, p, n)
      ensures Witnessed(events + [e], p, n)
    {
      WitnessedLater(events, e, p, n);
    }
  }

  lemma EventAccounted(events: seq<Event>, e: Event, p: nat)
    requires Accounted(events, p, At(Run(events), p))
    ensures Accounted(events + [e], p, At(Run(events + [e]), p))
  {
    var s := Run(events);
    RunSnoc(events, e);
    AccountedLater(events, e, p, At(s, p));
    if e == Try(p) && At(s, p).Trying? && At(s, p).next < NODES {
      if Up(s, Candidate(At(s, p).next)) {
        WitnessedNow(events, e, p, Candidate(At(s, p).next));
      }
    } else if e.Saw? && e.p == p && WitnessedAt(s, p, e.n) {
      WitnessedNow(events, e, p, e.n);
    }
  }

  lemma {:induction false} SearchAccounted(events: seq<Event>, p: nat)
    ensures Accounted(events, p, At(Run(events), p))
    decreases |events|
  {
    if events != [] {
      var init := events[..|events| - 1];
      SearchAccounted(init, p);
      EventAccounted(init, events[|events| - 1], p);
      assert init + [events[|events| - 1]] == events;
    }
  }

  /** On every run, a process that gives up has met each of the 1024 pairs leased during its own search. */
  lemma ExhaustedMeansTaken(events: seq<Event>, p: nat, n: Node)
    requires At(Run(events), p).Exhausted? && NodeInRange(n)
    ensures Witnessed(events, p, n)
  {
    SearchAccounted(events, p);
    assert Candidate(32 * n.datacenter + n.worker) == n;
  }
}
