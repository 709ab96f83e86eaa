/**
  The circuit breaker of the LLM gateway, and what holds over every run of its operations.
*/
module Breaker {
  import opened Basics
  import opened Options

  datatype Mode = Closed | Open | HalfOpen

  datatype Config = Config(threshold: int, timeout: int, maxCalls: int)

  datatype State = State(mode: Mode, failures: nat, successes: nat, lastFailure: int, calls: nat)

  const INITIAL := State(Closed, 0, 0, 0, 0)

  /** An absent or zero setting falls back to the default. */
  function Setting(given: Option<int>, default: int): int {
    if given.Some? && given.value != 0 then given.value else default
  }

  function Checked(c: Config, b: State, now: int): State {
    if b.mode.Open? && now - b.lastFailure > c.timeout
    then b.(mode := HalfOpen, calls := 0, successes := 0) else b
  }

  function Allowed(c: Config, b: State, now: int): (State, bool) {
    var b' := Checked(c, b, now);
    match b'.mode
    case Closed => (b', true)
    case Open => (b', false)
    case HalfOpen => if b'.calls < c.maxCalls then (b'.(calls := b'.calls + 1), true) else (b', false)
  }

  function Succeeded(c: Config, b: State): State {
    match b.mode
    case Closed => b.(failures := 0)
    case Open => b
    case HalfOpen =>
      if b.successes + 1 >= c.maxCalls then b.(mode := Closed, failures := 0, successes := 0)
      else b.(successes := b.successes + 1)
  }

  function Failed(c: Config, b: State, now: int): State {
    var b' := b.(failures := b.failures + 1, lastFailure := now);
    match b.mode
    case Closed => if b'.failures >= c.threshold then b'.(mode := Open) else b'
    case Open => b'
    case HalfOpen => b'.(mode := Open, successes := 0)
  }

  class CircuitBreaker {
    const config: Config
    var mode: Mode
    var failures: nat
    var successes: nat
    var lastFailure: int
    var calls: nat

    ghost function Contents(): State
      reads this
    {
      State(mode, failures, successes, lastFailure, calls)
    }

    constructor (threshold: Option<int>, timeout: Option<int>, maxCalls: int)
      ensures config == Config(Setting(threshold, 5), Setting(timeout, 30), maxCalls)
      ensures Contents() == INITIAL
    {
      config := Config(if threshold.Some? && threshold.value != 0 then threshold.value else 5,
                       if timeout == None || timeout == Some(0) then 30 else timeout.value, maxCalls);
      mode, failures, successes, lastFailure, calls := Closed, 0, 0, 0, 0;
    }

    method CheckStateTransition(now: int)
      modifies this
      ensures Contents() == Checked(config, old(Contents()), now)
    {
      if mode.Open? && now - lastFailure > config.timeout {
        mode := HalfOpen;
        calls := 0;
        successes := 0;
      }
    }

    method AllowRequest(now: int) returns (ok: bool)
      modifies this
      ensures (Contents(), ok) == Allowed(config, old(Contents()), now)
    {
      CheckStateTransition(now);
      if mode.Closed? {
        return true;
      }
      if mode.Open? {
        return false;
      }
      if calls < config.maxCalls {
        calls := calls + 1;
        return true;
      }
      return false;
    }

    method RecordSuccess()
      modifies this
      ensures Contents() == Succeeded(config, old(Contents()))
    {
      if mode.HalfOpen? {
        successes := successes + 1;
        if successes >= config.maxCalls {
          mode := Closed;
          failures := 0;
          successes := 0;
        }
      } else if mode.Closed? {
        failures := 0;
      }
    }

    method RecordFailure(now: int)
      modifies this
      ensures Contents() == Failed(config, old(Contents()), now)
    {
      failures := failures + 1;
      lastFailure := now;
      if mode.HalfOpen? {
        mode := Open;
        successes := 0;
      } else if mode.Closed? {
        if failures >= config.threshold {
          mode := Open;
        }
      }
    }

    method Reset()
      modifies this
      ensures Contents() == INITIAL
    {
      mode, failures, successes, lastFailure, calls := Closed, 0, 0, 0, 0;
    }
  }

  // ---- runs ----

  /** A report names the grant it is about; a call may report more than once, or never. */
  datatype Op = Allow | Look | Succeed(grant: nat) | Fail(grant: nat) | Reset

  datatype Event = Event(op: Op, now: int)

  /** The breaker, the number of its grants, and those since it last became half-open that have not reported. */
  datatype Sys = Sys(b: State, granted: nat, open: set<nat>)

  const START := Sys(INITIAL, 0, {})

  function Granted(c: Config, s: Sys, e: Event): bool {
    e.op.Allow? && Allowed(c, s.b, e.now).1
  }

  /** Becoming half-open starts a new account of grants. */
  function Account(s: Sys, after: State): set<nat> {
    if s.b.mode.Open? && after.mode.HalfOpen? then {} else s.open
  }

  function After(c: Config, s: Sys, e: Event): Sys {
    match e.op
    case Allow =>
      var (b, ok) := Allowed(c, s.b, e.now);
      Sys(b, s.granted + One(ok), Account(s, b) + if ok then {s.granted} else {})
    case Look =>
      var b := Checked(c, s.b, e.now);
      Sys(b, s.granted, Account(s, b))
    case Succeed(grant) => Sys(Succeeded(c, s.b), s.granted, s.open - {grant})
    case Fail(grant) => Sys(Failed(c, s.b, e.now), s.granted, s.open - {grant})
    case Reset => s.(b := INITIAL)
  }

  function Run(c: Config, events: seq<Event>): Sys {
    if events == [] then START
    else After(c, Run(c, events[..|events| - 1]), events[|events| - 1])
  }

  // ---- no wedge when every half-open grant reports ----

  /** Half-open permits are backed by grants of this episode still out or successes already counted. */
  ghost predicate Backed(c: Config, s: Sys) {
    && (forall g :: g in s.open ==> g < s.granted)
    && (s.b.mode.HalfOpen? ==>
          && s.b.calls <= |s.open| + s.b.successes
          && (s.b.successes < c.maxCalls || s.b.successes == 0))
  }

  lemma StepBacked(c: Config, s: Sys, e: Event)
    requires Backed(c, s)
    ensures Backed(c, After(c, s, e))
  {
    match e.op
    case Allow => AllowBacked(c, s, e);
    case Succeed(grant) => SuccessBacked(c, s, grant, e.now);
    case Fail(grant) =>
    case Look =>
    case Reset =>
  }

  lemma SuccessBacked(c: Config, s: Sys, grant: nat, now: int)
    requires Backed(c, s)
    ensures Backed(c, After(c, s, Event(Succeed(grant), now)))
  {
    RemoveOne(s.open, grant);
  }

  lemma AllowBacked(c: Config, s: Sys, e: Event)
    requires Backed(c, s) && e.op.Allow?
    ensures Backed(c, After(c, s, e))
  {
    var b := Allowed(c, s.b, e.now).0;
    AddNew(Account(s, b), s.granted);
  }

  lemma {:induction false} RunBacked(c: Config, events: seq<Event>)
    ensures Backed(c, Run(c, events))
  {
    if events != [] {
      RunBacked(c, events[..|events| - 1]);
      StepBacked(c, Run(c, events[..|events| - 1]), events[|events| - 1]);
    }
  }

  /** What a request finds: the timeout over if the breaker is open, this episode's grants reported if half-open. */
  ghost predicate Recovered(c: Config, s: Sys, now: int) {
    && (s.b.mode.Open? ==> now - s.b.lastFailure > c.timeout)
    && (s.b.mode.HalfOpen? ==> s.open == {})
  }

  lemma BackedRecovers(c: Config, s: Sys, now: int)
    requires c.maxCalls >= 1 && Backed(c, s) && Recovered(c, s, now)
    ensures Allowed(c, s.b, now).1
  {
  }

  /**
    Over all runs a request is granted unless the breaker is open within its timeout, or half-open
    with a grant of this very episode unreported.  Grants lost while it was closed, open or in an
    earlier episode do no harm, and a closed breaker always grants.
  */
  lemma NoWedge(c: Config, events: seq<Event>, now: int)
    requires c.maxCalls >= 1 && Recovered(c, Run(c, events), now)
    ensures Allowed(c, Run(c, events).b, now).1
  {
    RunBacked(c, events);
  }

  lemma RunSnoc(c: Config, events: seq<Event>, e: Event)
    ensures Run(c, events + [e]) == After(c, Run(c, events), e)
  {
    assert (events + [e])[..|events|] == events;
  }

  /** The state after `n` times the same event. */
  function Times(c: Config, s: Sys, e: Event, n: nat): Sys {
    if n == 0 then s else After(c, Times(c, s, e, n - 1), e)
  }

  lemma {:induction false} RunRepeat(c: Config, before: seq<Event>, e: Event, n: nat)
    ensures Run(c, before + Repeat(e, n)) == Times(c, Run(c, before), e, n)
    decreases n
  {
    if n == 0 {
      assert before + Repeat(e, n) == before;
    } else {
      RunRepeat(c, before, e, n - 1);
      assert before + Repeat(e, n) == before + Repeat(e, n - 1) + [e];
      RunSnoc(c, before + Repeat(e, n - 1), e);
    }
  }

  /** Failures at time zero: closed below the threshold, open from there on. */
  lemma {:induction false} FailuresOpen(c: Config, n: nat)
    ensures Times(c, START, Event(Fail(0), 0), n) ==
            Sys(State(if n >= 1 && n >= c.threshold then Open else Closed, n, 0, 0, 0), 0, {})
  {
    if n > 0 {
      FailuresOpen(c, n - 1);
    }
  }

  /** A run that opens the breaker and lets its timeout pass. */
  lemma ReachHalfOpen(c: Config) returns (events: seq<Event>)
    ensures Run(c, events) == Sys(State(HalfOpen, Run(c, events).b.failures, 0, 0, 0), 0, {})
  {
    var n := if c.threshold >= 1 then c.threshold else 1;
    FailuresOpen(c, n);
    RunRepeat(c, [], Event(Fail(0), 0), n);
    var fails := [] + Repeat(Event(Fail(0), 0), n);
    events := fails + [Event(Look, c.timeout + 1)];
    RunSnoc(c, fails, Event(Look, c.timeout + 1));
  }

  /** That recovery is guaranteed on every run exactly when at least one half-open call is allowed. */
  lemma NoWedgeExactly(c: Config)
    ensures (forall events, now | Recovered(c, Run(c, events), now) :: Allowed(c, Run(c, events).b, now).1)
            <==> c.maxCalls >= 1
  {
    if c.maxCalls >= 1 {
      forall events, now | Recovered(c, Run(c, events), now)
        ensures Allowed(c, Run(c, events).b, now).1
      {
        NoWedge(c, events, now);
      }
    } else {
      var events := ReachHalfOpen(c);
      assert !Allowed(c, Run(c, events).b, c.timeout + 1).1;
    }
  }

  predicate Wedged(c: Config, b: State) {
    b.mode.HalfOpen? && b.calls >= c.maxCalls
  }

  /** A half-open breaker whose permits are used up refuses every request until a report or a reset comes. */
  lemma {:induction false} WedgedForever(c: Config, before: seq<Event>, more: seq<Event>, now: int)
    requires Wedged(c, Run(c, before).b)
    requires forall e :: e in more ==> !e.op.Succeed? && !e.op.Fail? && !e.op.Reset?
    ensures Run(c, before + more) == Run(c, before)
    ensures !Allowed(c, Run(c, before + more).b, now).1
    decreases |more|
  {
    if more == [] {
      assert before + more == before;
    } else {
      var init, last := more[..|more| - 1], more[|more| - 1];
      WedgedForever(c, before, init, now);
      assert last in more;
      assert (before + more)[..|before + more| - 1] == before + init;
    }
  }

  lemma {:induction false} AllowsUsePermits(c: Config, s: Sys, n: nat, now: int)
    requires s.b.mode.HalfOpen? && s.b.calls == 0 && n <= c.maxCalls
    ensures Times(c, s, Event(Allow, now), n).b == s.b.(calls := n)
  {
    if n > 0 {
      AllowsUsePermits(c, s, n - 1, now);
    }
  }

  /** Grants that never report do wedge the breaker, whatever its settings. */
  lemma UnreportedWedge(c: Config) returns (events: seq<Event>)
    ensures Wedged(c, Run(c, events).b)
  {
    events := ReachHalfOpen(c);
    if c.maxCalls >= 1 {
      AllowsUsePermits(c, Run(c, events), c.maxCalls, 0);
      RunRepeat(c, events, Event(Allow, 0), c.maxCalls);
      events := events + Repeat(Event(Allow, 0), c.maxCalls);
    }
  }

  lemma {:induction false} SuccessesClose(c: Config, s: Sys, n: nat, now: int)
    requires s.b.mode.HalfOpen? && s.b.successes == 0 && n < c.maxCalls
    ensures Times(c, s, Event(Succeed(0), now), n).b == s.b.(successes := n)
  {
    if n > 0 {
      SuccessesClose(c, s, n - 1, now);
    }
  }

  /**
    Any successes close a half-open breaker, even when it has granted nothing: those of calls from
    before it opened do.
  */
  lemma StaleSuccessesClose(c: Config, before: seq<Event>, now: int)
    requires Run(c, before).b.mode.HalfOpen? && Run(c, before).b.successes == 0 && c.maxCalls >= 1
    ensures Run(c, before + Repeat(Event(Succeed(0), now), c.maxCalls)).b.mode.Closed?
  {
    RunRepeat(c, before, Event(Succeed(0), now), c.maxCalls);
    SuccessesClose(c, Run(c, before), c.maxCalls - 1, now);
  }

  // ---- what the counters mean ----

  /** Failure reports since the last success report or reset. */
  function TrailingFailures(events: seq<Event>): nat {
    if events == [] then 0
    else
      var init, op := events[..|events| - 1], events[|events| - 1].op;
      if op.Succeed? || op.Reset? then 0
      else if op.Fail? then TrailingFailures(init) + 1
      else TrailingFailures(init)
  }

  /** While closed, the failure count is the trailing run of failures, and below the threshold. */
  lemma {:induction false} ClosedCountsTrailing(c: Config, events: seq<Event>)
    requires c.threshold >= 1 && Run(c, events).b.mode.Closed?
    ensures Run(c, events).b.failures == TrailingFailures(events) < c.threshold
  {
    if events != [] {
      var init := events[..|events| - 1];
      if Run(c, init).b.mode.Closed? {
        ClosedCountsTrailing(c, init);
      }
    }
  }

  /** Grants since the breaker last became half-open. */
  function EpisodeGrants(c: Config, events: seq<Event>): nat {
    if events == [] || !Run(c, events).b.mode.HalfOpen? then 0
    else
      var init := events[..|events| - 1];
      EpisodeGrants(c, init) + if Granted(c, Run(c, init), events[|events| - 1]) then 1 else 0
  }

  /** One half-open episode grants at most the configured number of calls. */
  lemma {:induction false} EpisodeBounded(c: Config, events: seq<Event>)
    ensures Run(c, events).b.mode.HalfOpen? ==> EpisodeGrants(c, events) == Run(c, events).b.calls
    ensures EpisodeGrants(c, events) <= if c.maxCalls > 0 then c.maxCalls else 0
  {
    if events != [] {
      EpisodeBounded(c, events[..|events| - 1]);
    }
  }

  // ---- timing ----

  ghost predicate Monotone(events: seq<Event>) {
    forall i, k :: 0 <= i <= k < |events| ==> events[i].now <= events[k].now
  }

  /** Open: the stored time is the latest failure.  Half-open: every failure is more than the timeout back. */
  ghost predicate Spaced(c: Config, s: Sys, events: seq<Event>) {
    forall i :: 0 <= i < |events| && events[i].op.Fail? ==> SpacedFrom(c, s, events[i].now, events[|events| - 1].now)
  }

  ghost predicate SpacedFrom(c: Config, s: Sys, failure: int, now: int) {
    && (s.b.mode.Open? ==> failure <= s.b.lastFailure)
    && (s.b.mode.HalfOpen? ==> now - failure > c.timeout)
  }

  lemma {:induction false} RunSpaced(c: Config, events: seq<Event>)
    requires Monotone(events)
    ensures Spaced(c, Run(c, events), events)
  {
    if events != [] {
      var init, e := events[..|events| - 1], events[|events| - 1];
      RunSpaced(c, init);
      forall i | 0 <= i < |events| && events[i].op.Fail?
        ensures SpacedFrom(c, Run(c, events), events[i].now, e.now)
      {
        if i < |init| {
          assert SpacedFrom(c, Run(c, init), init[i].now, init[|init| - 1].now);
          StepSpaced(c, Run(c, init), e, init[i].now, init[|init| - 1].now);
        }
      }
    }
  }

  lemma StepSpaced(c: Config, s: Sys, e: Event, failure: int, now: int)
    requires SpacedFrom(c, s, failure, now) && failure <= now <= e.now
    ensures SpacedFrom(c, After(c, s, e), failure, e.now)
  {
  }

  /** On a clock that never goes back, a half-open grant is more than the timeout after every failure before it. */
  lemma HalfOpenGrantsWait(c: Config, events: seq<Event>, i: nat)
    requires Monotone(events) && i < |events| && events[i].op.Fail?
    requires Run(c, events).b.mode.HalfOpen?
    requires Granted(c, Run(c, events[..|events| - 1]), events[|events| - 1])
    ensures events[|events| - 1].now - events[i].now > c.timeout
  {
    RunSpaced(c, events);
    assert SpacedFrom(c, Run(c, events), events[i].now, events[|events| - 1].now);
  }
}
