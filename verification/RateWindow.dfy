/**
  The requests-per-minute limit: INCR, then EXPIRE by the request that read 1, as separate
  steps that other requests may come between.
*/
module RateWindow {
  import opened Basics
  import opened Options

  const WINDOW_SECONDS := 60

  /** The counter's key in Redis; without `expires` it has no time to live. */
  datatype Counter = Absent | Present(count: nat, expires: Option<int>)

  /** The counter as a command finds it: an expired key is gone. */
  function Found(c: Counter, now: int): Counter {
    if c.Present? && c.expires.Some? && now >= c.expires.value then Absent else c
  }

  function Incremented(c: Counter, now: int): Counter {
    match Found(c, now)
    case Absent => Present(1, None)
    case Present(count, expires) => Present(count + 1, expires)
  }

  function Armed(c: Counter, now: int): Counter {
    match Found(c, now)
    case Absent => Absent
    case Present(count, _) => Present(count, Some(now + WINDOW_SECONDS))
  }

  class RateLimiter {
    var now: int
    var counter: Counter

    method Incr() returns (count: nat)
      modifies this`counter
      ensures counter == Incremented(old(counter), now) && counter.Present? && count == counter.count
    {
      counter := Incremented(counter, now);
      count := counter.count;
    }

    method Expire()
      modifies this`counter
      ensures counter == Armed(old(counter), now)
    {
      counter := Armed(counter, now);
    }

    /** Undisturbed: the request passes iff the window's count, itself included, is within the limit. */
    method CheckRpm(limit: int) returns (ok: bool)
      modifies this`counter
      ensures Found(old(counter), now).Present? && Found(old(counter), now).count > 0 ==>
                counter == Present(Found(old(counter), now).count + 1, old(counter).expires)
      ensures Found(old(counter), now).Absent? ==> counter == Present(1, Some(now + WINDOW_SECONDS))
      ensures counter.Present? && ok == (counter.count <= limit)
    {
      var count := Incr();
      if count == 1 {
        Expire();
      }
      ok := count <= limit;
    }
  }

  // ---- interleaved requests ----

  /** `Incr` starts a check; `Expire` is the first request of a window going on, `Crash` the same request dying. */
  datatype Event = Tick(d: nat) | Incr | Expire | Crash

  /** A window of the counter: when it began, and when EXPIRE armed it. */
  datatype Window = Window(start: int, armed: Option<int>)

  /** A request that was let through, at the time its last command ran. */
  datatype Pass = Pass(time: int, window: nat, first: bool)

  datatype State = State(now: int, counter: Counter, arming: bool, windows: seq<Window>, log: seq<Pass>)

  const START := State(0, Absent, false, [], [])

  function After(s: State, e: Event, limit: int): State {
    match e
    case Tick(d) => s.(now := s.now + d)
    case Incr =>
      var c := Incremented(s.counter, s.now);
      if c.count == 1 then s.(counter := c, arming := true, windows := s.windows + [Window(s.now, None)])
      else
        var passed := c.count <= limit && s.windows != [];
        s.(counter := c, log := s.log + if passed then [Pass(s.now, |s.windows| - 1, false)] else [])
    case Expire =>
      if !s.arming || s.windows == [] then s
      else s.(counter := Armed(s.counter, s.now), arming := false,
              windows := s.windows[|s.windows| - 1 := Window(s.windows[|s.windows| - 1].start, Some(s.now))],
              log := s.log + if 1 <= limit then [Pass(s.now, |s.windows| - 1, true)] else [])
    case Crash => s.(arming := false)
  }

  function Run(s: State, events: seq<Event>, limit: int): State {
    if events == [] then s else After(Run(s, events[..|events| - 1], limit), events[|events| - 1], limit)
  }

  // ---- counting ----

  predicate In(p: Pass, a: int) {
    a <= p.time < a + WINDOW_SECONDS
  }

  /** Requests let through in the half-open minute from `a`. */
  function Passed(log: seq<Pass>, a: int): nat {
    if log == [] then 0 else Passed(log[..|log| - 1], a) + if In(log[|log| - 1], a) then 1 else 0
  }

  function OfWindow(log: seq<Pass>, w: int): nat {
    if log == [] then 0 else OfWindow(log[..|log| - 1], w) + if log[|log| - 1].window == w then 1 else 0
  }

  function OfBoth(log: seq<Pass>, a: int, w: int): nat {
    if log == [] then 0
    else OfBoth(log[..|log| - 1], a, w) + if In(log[|log| - 1], a) && log[|log| - 1].window == w then 1 else 0
  }

  lemma {:induction false} PassedSplits(log: seq<Pass>, a: int, w: int)
    requires forall p :: p in log && In(p, a) ==> p.window == w || p.window == w - 1
    ensures Passed(log, a) == OfBoth(log, a, w - 1) + OfBoth(log, a, w)
  {
    if log != [] {
      PassedSplits(log[..|log| - 1], a, w);
      assert log[|log| - 1] in log;
    }
  }

  /** A window's requests within the minute are among all of its requests, fewer if one lies outside. */
  lemma {:induction false} OfBothAtMost(log: seq<Pass>, a: int, w: int)
    ensures OfBoth(log, a, w) <= OfWindow(log, w)
    ensures (exists p :: p in log && p.window == w && !In(p, a)) ==> OfBoth(log, a, w) < OfWindow(log, w)
  {
    if log != [] {
      var init, last := log[..|log| - 1], log[|log| - 1];
      OfBothAtMost(init, a, w);
      assert log == init + [last];
    }
  }

  lemma {:induction false} OfBothNone(log: seq<Pass>, a: int, w: int)
    requires forall p :: p in log && In(p, a) ==> p.window != w
    ensures OfBoth(log, a, w) == 0
  {
    if log != [] {
      OfBothNone(log[..|log| - 1], a, w);
      assert log[|log| - 1] in log;
    }
  }

  // ---- the invariant ----

  /** Windows are armed before the next begins, a minute or more later. */
  ghost predicate WindowsApart(s: State) {
    && (forall i :: 0 <= i < |s.windows| ==> s.windows[i].start <= s.now)
    && (forall i :: 0 <= i < |s.windows| && s.windows[i].armed.Some? ==>
          s.windows[i].start <= s.windows[i].armed.value <= s.now)
    && (forall i :: 0 <= i < |s.windows| - 1 ==>
          s.windows[i].armed.Some? && s.windows[i].armed.value + WINDOW_SECONDS <= s.windows[i + 1].start)
  }

  /** The key lives in the last window, and outlives its arming by a minute. */
  ghost predicate CounterTracks(s: State) {
    && (s.counter.Present? ==> s.windows != [] && s.counter.count >= 1)
    && (s.counter.Present? ==>
          s.counter.expires == match s.windows[|s.windows| - 1].armed
                               case None => None
                               case Some(t) => Some(t + WINDOW_SECONDS))
    && (s.counter.Absent? ==> s.windows == [])
    && (s.arming ==> s.windows != [] && s.windows[|s.windows| - 1].armed.None?)
  }

  ghost predicate PassFits(p: Pass, s: State) {
    && p.window < |s.windows| && s.windows[p.window].start <= p.time <= s.now
    && (p.first ==> s.windows[p.window].armed == Some(p.time))
    && (p.window < |s.windows| - 1 ==> p.time <= s.windows[p.window + 1].start)
  }

  ghost predicate PassesFit(s: State) {
    forall p :: p in s.log ==> PassFits(p, s)
  }

  function Cap(limit: int): nat {
    if limit > 0 then limit else 0
  }

  function Least(a: nat, b: nat): nat {
    if a < b then a else b
  }

  /** No window lets more through than its count and the limit allow; a pending first request keeps its place. */
  ghost predicate Budget(s: State, limit: int) {
    && (forall w :: OfWindow(s.log, w) <= Cap(limit))
    && (s.counter.Present? ==>
          var place := if s.arming then Least(1, Cap(limit)) else 0;
          OfWindow(s.log, |s.windows| - 1) + place <= Least(s.counter.count, Cap(limit)))
  }

  /** An armed window's first request was let through, when the window was armed. */
  ghost predicate FirstsLogged(s: State, limit: int) {
    limit >= 1 ==> forall i :: 0 <= i < |s.windows| && s.windows[i].armed.Some? ==> FirstLogged(s, i)
  }

  ghost predicate FirstLogged(s: State, i: nat)
    requires i < |s.windows| && s.windows[i].armed.Some?
  {
    Pass(s.windows[i].armed.value, i, true) in s.log
  }

  ghost predicate Inv(s: State, limit: int) {
    WindowsApart(s) && CounterTracks(s) && PassesFit(s) && Budget(s, limit) && FirstsLogged(s, limit)
  }

  lemma StepWindows(s: State, e: Event, limit: int)
    requires WindowsApart(s) && CounterTracks(s)
    ensures WindowsApart(After(s, e, limit))
  {
    assert e.Expire? && s.arming ==> Found(s.counter, s.now) == s.counter;
  }

  lemma StepCounter(s: State, e: Event, limit: int)
    requires CounterTracks(s)
    ensures CounterTracks(After(s, e, limit))
  {
    assert e.Expire? && s.arming ==> Found(s.counter, s.now) == s.counter;
  }

  lemma StepPasses(s: State, e: Event, limit: int)
    requires WindowsApart(s) && CounterTracks(s) && PassesFit(s)
    ensures PassesFit(After(s, e, limit))
  {
    var t := After(s, e, limit);
    forall p | p in t.log
      ensures PassFits(p, t)
    {
      if p in s.log {
        assert PassFits(p, s);
      }
    }
  }

  lemma {:induction false} NoneOfWindow(log: seq<Pass>, w: int)
    requires forall p :: p in log ==> p.window != w
    ensures OfWindow(log, w) == 0
  {
    if log != [] {
      NoneOfWindow(log[..|log| - 1], w);
      assert log[|log| - 1] in log;
    }
  }

  lemma OfWindowSnoc(log: seq<Pass>, p: Pass, w: int)
    ensures OfWindow(log + [p], w) == OfWindow(log, w) + if p.window == w then 1 else 0
  {
    assert (log + [p])[..|log|] == log;
  }

  lemma StepBudget(s: State, e: Event, limit: int)
    requires CounterTracks(s) && PassesFit(s) && Budget(s, limit)
    ensures Budget(After(s, e, limit), limit)
  {
    var t := After(s, e, limit);
    if t.windows != s.windows && |t.windows| > |s.windows| {
      forall p | p in s.log
        ensures p.window != |s.windows|
      {
        assert PassFits(p, s);
      }
      NoneOfWindow(s.log, |s.windows|);
    }
    if |t.log| > |s.log| {
      var p := t.log[|s.log|];
      assert t.log == s.log + [p];
      forall w
        ensures OfWindow(t.log, w) == OfWindow(s.log, w) + if p.window == w then 1 else 0
      {
        OfWindowSnoc(s.log, p, w);
      }
    } else {
      assert t.log == s.log;
    }
  }

  lemma StepFirsts(s: State, e: Event, limit: int)
    requires CounterTracks(s) && FirstsLogged(s, limit)
    ensures FirstsLogged(After(s, e, limit), limit)
  {
    var t := After(s, e, limit);
    forall i | 0 <= i < |t.windows| && t.windows[i].armed.Some? && limit >= 1
      ensures FirstLogged(t, i)
    {
      if i < |s.windows| && s.windows[i] == t.windows[i] {
        assert FirstLogged(s, i);
      }
    }
  }

  lemma {:induction false} RunKeeps(s: State, events: seq<Event>, limit: int)
    requires Inv(s, limit)
    ensures Inv(Run(s, events, limit), limit)
  {
    if events != [] {
      var init, e := events[..|events| - 1], events[|events| - 1];
      RunKeeps(s, init, limit);
      StepWindows(Run(s, init, limit), e, limit);
      StepCounter(Run(s, init, limit), e, limit);
      StepPasses(Run(s, init, limit), e, limit);
      StepBudget(Run(s, init, limit), e, limit);
      StepFirsts(Run(s, init, limit), e, limit);
    }
  }

  // ---- the bound ----

  lemma {:induction false} StartsRise(s: State, i: nat, k: nat)
    requires WindowsApart(s) && i <= k < |s.windows|
    ensures s.windows[i].start <= s.windows[k].start
  {
    if i < k {
      StartsRise(s, i, k - 1);
    }
  }

  lemma {:induction false} LatestWindow(log: seq<Pass>, a: int) returns (p: Pass)
    requires exists q :: q in log && In(q, a)
    ensures p in log && In(p, a) && forall q :: q in log && In(q, a) ==> q.window <= p.window
  {
    var init, last := log[..|log| - 1], log[|log| - 1];
    assert log == init + [last];
    if exists q :: q in init && In(q, a) {
      p := LatestWindow(init, a);
      if In(last, a) && last.window > p.window {
        p := last;
      }
    } else {
      p := last;
    }
  }

  /** Two windows apart is a minute apart: a minute meets at most two successive windows. */
  lemma TwoWindows(s: State, a: int, p: Pass, q: Pass)
    requires WindowsApart(s) && PassFits(p, s) && PassFits(q, s) && In(p, a) && In(q, a)
    ensures q.window >= p.window - 1
  {
    if q.window + 2 <= p.window {
      StartsRise(s, q.window + 2, p.window);
    }
  }

  /** The older window's first request lies before the minute. */
  lemma FirstIsOutside(s: State, limit: int, a: int, p: Pass)
    requires WindowsApart(s) && FirstsLogged(s, limit) && limit >= 1 && PassFits(p, s) && In(p, a) && p.window >= 1
    ensures exists f :: f in s.log && f.window == p.window - 1 && !In(f, a)
  {
    assert s.windows[p.window - 1].armed.Some?;
    assert FirstLogged(s, p.window - 1);
    var f := Pass(s.windows[p.window - 1].armed.value, p.window - 1, true);
    assert f in s.log && !In(f, a);
  }

  lemma NearWindows(s: State, a: int, p: Pass)
    requires WindowsApart(s) && PassesFit(s) && p in s.log && In(p, a)
    requires forall q :: q in s.log && In(q, a) ==> q.window <= p.window
    ensures Passed(s.log, a) == OfBoth(s.log, a, p.window - 1) + OfBoth(s.log, a, p.window)
  {
    assert PassFits(p, s);
    forall q | q in s.log && In(q, a)
      ensures q.window == p.window || q.window == p.window - 1
    {
      assert PassFits(q, s);
      TwoWindows(s, a, p, q);
    }
    PassedSplits(s.log, a, p.window);
  }

  /** The older window gives the minute at most one request less than the limit. */
  lemma OlderShare(s: State, limit: int, a: int, p: Pass)
    requires Inv(s, limit) && limit >= 1 && p in s.log && In(p, a)
    ensures OfBoth(s.log, a, p.window - 1) <= limit - 1
  {
    assert PassFits(p, s);
    if p.window >= 1 {
      FirstIsOutside(s, limit, a, p);
      OfBothAtMost(s.log, a, p.window - 1);
    } else {
      OfBothNone(s.log, a, -1);
    }
  }

  lemma MinuteBound(s: State, limit: int, a: int)
    requires Inv(s, limit)
    ensures Passed(s.log, a) <= Cap(2 * limit - 1)
  {
    if exists q :: q in s.log && In(q, a) {
      var p := LatestWindow(s.log, a);
      NearWindows(s, a, p);
      OfBothAtMost(s.log, a, p.window);
      PassedIsOfWindow(s.log, p);
      OlderShare(s, limit, a, p);
    } else {
      PassedNone(s.log, a);
    }
  }

  lemma {:induction false} PassedNone(log: seq<Pass>, a: int)
    requires forall q :: q in log ==> !In(q, a)
    ensures Passed(log, a) == 0
  {
    if log != [] {
      PassedNone(log[..|log| - 1], a);
      assert log[|log| - 1] in log;
    }
  }

  lemma {:induction false} PassedIsOfWindow(log: seq<Pass>, p: Pass)
    requires p in log
    ensures OfWindow(log, p.window) >= 1
  {
    var init, last := log[..|log| - 1], log[|log| - 1];
    assert log == init + [last];
    if last != p {
      PassedIsOfWindow(init, p);
    }
  }

  /** Over every interleaving, any half-open minute lets at most `2 * limit - 1` requests through. */
  lemma AnyMinuteBounded(events: seq<Event>, limit: int, a: int)
    ensures Passed(Run(START, events, limit).log, a) <= Cap(2 * limit - 1)
  {
    RunKeeps(START, events, limit);
    MinuteBound(Run(START, events, limit), limit, a);
  }

  // ---- the bound is reached ----

  lemma {:induction false} RunMore(s: State, a: seq<Event>, b: seq<Event>, limit: int)
    ensures Run(s, a + b, limit) == Run(Run(s, a, limit), b, limit)
    decreases |b|
  {
    if b == [] {
      assert a + b == a;
    } else {
      assert (a + b)[..|a + b| - 1] == a + b[..|b| - 1];
      RunMore(s, a, b[..|b| - 1], limit);
    }
  }

  function Copies(p: Pass, n: nat): seq<Pass> {
    if n == 0 then [] else Copies(p, n - 1) + [p]
  }

  lemma {:induction false} PassedCopies(log: seq<Pass>, p: Pass, n: nat, a: int)
    ensures Passed(log + Copies(p, n), a) == Passed(log, a) + if In(p, a) then n else 0
    decreases n
  {
    if n == 0 {
      assert log + Copies(p, n) == log;
    } else {
      PassedCopies(log, p, n - 1, a);
      assert (log + Copies(p, n))[..|log + Copies(p, n)| - 1] == log + Copies(p, n - 1);
    }
  }

  /** `n` further requests in the live, armed window of `s` have passed. */
  function Busy(s: State, n: nat): State
    requires s.counter.Present? && s.windows != []
  {
    s.(counter := s.counter.(count := s.counter.count + n),
       log := s.log + Copies(Pass(s.now, |s.windows| - 1, false), n))
  }

  lemma {:induction false} Burst(s: State, n: nat, limit: int)
    requires s.counter.Present? && s.counter.count + n <= limit && s.counter.count >= 1 && s.windows != []
    requires s.counter.expires.Some? && s.now < s.counter.expires.value
    ensures Run(s, Repeat(Incr, n), limit) == Busy(s, n)
    decreases n
  {
    if n == 0 {
      assert s.log + [] == s.log;
    } else {
      Burst(s, n - 1, limit);
      BurstStep(s, Run(s, Repeat(Incr, n - 1), limit), n, limit);
    }
  }

  lemma BurstStep(s: State, t: State, n: nat, limit: int)
    requires s.counter.Present? && s.counter.count + n <= limit && s.counter.count >= 1 && s.windows != []
    requires s.counter.expires.Some? && s.now < s.counter.expires.value
    requires n > 0 && t == Busy(s, n - 1) && t == Run(s, Repeat(Incr, n - 1), limit)
    ensures Run(s, Repeat(Incr, n), limit) == Busy(s, n)
  {
    assert Repeat(Incr, n)[..|Repeat(Incr, n)| - 1] == Repeat(Incr, n - 1);
    var p := Pass(s.now, |s.windows| - 1, false);
    assert s.log + Copies(p, n - 1) + [p] == s.log + Copies(p, n);
    assert After(t, Incr, limit).log == t.log + [p];
    assert After(t, Incr, limit).counter == Busy(s, n).counter;
  }

  /** The first request of a window, checked without interruption, and some time passing. */
  function Opened(s: State, d: nat): State {
    State(s.now + d, Present(1, Some(s.now + WINDOW_SECONDS)), false,
          s.windows + [Window(s.now, Some(s.now))], s.log + [Pass(s.now, |s.windows|, true)])
  }

  lemma Opening(s: State, d: nat, limit: int)
    requires Found(s.counter, s.now).Absent? && limit >= 1
    ensures Run(s, [Incr, Expire, Tick(d)], limit) == Opened(s, d)
  {
    var e := [Incr, Expire, Tick(d)];
    assert e[..2] == [Incr, Expire] && e[..2][..1] == [Incr] && e[..2][..1][..0] == [];
    assert Run(s, e[..2][..1], limit) == After(s, Incr, limit);
    assert Run(s, e[..2], limit) == After(After(s, Incr, limit), Expire, limit);
    assert Run(s, e, limit) == After(Run(s, e[..2], limit), Tick(d), limit);
  }

  lemma RunOne(s: State, e: Event, limit: int)
    ensures Run(s, [e], limit) == After(s, e, limit)
  {
    assert [e][..0] == [];
  }

  /** A whole window: its first request, then all the others together `d` seconds later. */
  function FullWindow(d: nat, limit: int): seq<Event>
    requires limit >= 1
  {
    [Incr, Expire, Tick(d)] + Repeat(Incr, limit - 1)
  }

  lemma WindowRuns(s: State, d: nat, limit: int)
    requires Found(s.counter, s.now).Absent? && limit >= 1 && d < WINDOW_SECONDS
    ensures Run(s, FullWindow(d, limit), limit) == Busy(Opened(s, d), limit - 1)
  {
    Opening(s, d, limit);
    Burst(Opened(s, d), limit - 1, limit);
    RunMore(s, [Incr, Expire, Tick(d)], Repeat(Incr, limit - 1), limit);
  }

  lemma WindowCounts(s: State, d: nat, limit: int, a: int)
    requires limit >= 1
    ensures Passed(Busy(Opened(s, d), limit - 1).log, a) == Passed(s.log, a)
            + (if a <= s.now < a + WINDOW_SECONDS then 1 else 0)
            + (if a <= s.now + d < a + WINDOW_SECONDS then limit - 1 else 0)
  {
    var p, q := Pass(s.now, |s.windows|, true), Pass(s.now + d, |s.windows|, false);
    PassedCopies(s.log + [p], q, limit - 1, a);
    assert (s.log + [p])[..|s.log|] == s.log;
  }

  /** Every positive limit has a run that lets exactly `2 * limit - 1` through within one minute. */
  lemma BoundReached(limit: int) returns (events: seq<Event>, a: int)
    requires limit >= 1
    ensures Passed(Run(START, events, limit).log, a) == 2 * limit - 1
  {
    a := 59;
    var first, second := FullWindow(59, limit), FullWindow(0, limit);
    WindowRuns(START, 59, limit);
    WindowCounts(START, 59, limit, a);
    var s := Busy(Opened(START, 59), limit - 1);
    RunMore(START, first, [Tick(1)], limit);
    RunOne(s, Tick(1), limit);
    assert Run(START, first + [Tick(1)], limit) == s.(now := 60);
    WindowRuns(s.(now := 60), 0, limit);
    WindowCounts(s.(now := 60), 0, limit, a);
    RunMore(START, first + [Tick(1)], second, limit);
    events := first + [Tick(1)] + second;
  }

  // ---- a lost EXPIRE ----

  /** A counter that no request will arm and that has reached the limit. */
  predicate Stuck(s: State, limit: int) {
    s.counter.Present? && s.counter.expires.None? && !s.arming && s.counter.count >= limit
  }

  lemma {:induction false} StuckForever(s: State, events: seq<Event>, limit: int)
    requires CounterTracks(s) && (Stuck(s, limit) || limit <= 0)
    ensures var t := Run(s, events, limit);
            CounterTracks(t) && (Stuck(t, limit) || limit <= 0) && t.log == s.log
  {
    if events != [] {
      StuckForever(s, events[..|events| - 1], limit);
      StepCounter(Run(s, events[..|events| - 1], limit), events[|events| - 1], limit);
    }
  }

  lemma RunTwo(s: State, e: Event, f: Event, limit: int)
    ensures Run(s, [e, f], limit) == After(After(s, e, limit), f, limit)
  {
    assert [e, f][..1] == [e] && [e][..0] == [];
    assert Run(s, [], limit) == s;
    assert Run(s, [e], limit) == After(s, e, limit);
  }

  /** However full, a window that was armed is over a minute later: the next undisturbed check passes. */
  lemma ArmedRecovers(before: seq<Event>, armed: int, limit: int)
    requires limit >= 1
    requires var s := Run(START, before, limit);
             s.windows != [] && s.windows[|s.windows| - 1].armed == Some(armed) && s.now >= armed + WINDOW_SECONDS
    ensures var s := Run(START, before, limit);
            Run(s, [Incr, Expire], limit).log == s.log + [Pass(s.now, |s.windows|, true)]
  {
    var s := Run(START, before, limit);
    RunKeeps(START, before, limit);
    NewWindow(s, limit);
    RunTwo(s, Incr, Expire, limit);
  }

  lemma NewWindow(s: State, limit: int)
    requires limit >= 1 && Found(s.counter, s.now).Absent?
    ensures After(After(s, Incr, limit), Expire, limit).log == s.log + [Pass(s.now, |s.windows|, true)]
  {
  }

  /** What lets a request through from a state that is not stuck. */
  function WayOut(s: State): seq<Event> {
    if s.arming then [Expire]
    else if s.counter.Absent? then [Incr, Expire]
    else if s.counter.expires.None? then [Incr]
    else
      var left := s.counter.expires.value - s.now;
      [Tick(if left > 0 then left else 0)] + [Incr, Expire]
  }

  lemma WayOutPasses(s: State, limit: int)
    requires CounterTracks(s) && limit >= 1 && !Stuck(s, limit)
    ensures |Run(s, WayOut(s), limit).log| == |s.log| + 1
  {
    if s.arming {
      RunOne(s, Expire, limit);
    } else if s.counter.Absent? {
      RunTwo(s, Incr, Expire, limit);
    } else if s.counter.expires.None? {
      RunOne(s, Incr, limit);
    } else {
      var left := s.counter.expires.value - s.now;
      var tick := Tick(if left > 0 then left else 0);
      RunOne(s, tick, limit);
      RunTwo(After(s, tick, limit), Incr, Expire, limit);
      RunMore(s, [tick], [Incr, Expire], limit);
    }
  }

  /** From a state of any run, some future lets a request through exactly if the limit is positive and nothing stuck. */
  lemma RecoversExactly(before: seq<Event>, limit: int)
    ensures var s := Run(START, before, limit);
            (exists events :: Run(s, events, limit).log != s.log) <==> limit >= 1 && !Stuck(s, limit)
  {
    var s := Run(START, before, limit);
    RunKeeps(START, before, limit);
    if limit >= 1 && !Stuck(s, limit) {
      WayOutPasses(s, limit);
      assert Run(s, WayOut(s), limit).log != s.log;
    } else {
      forall events
        ensures Run(s, events, limit).log == s.log
      {
        StuckForever(s, events, limit);
      }
    }
  }

  /** One request that dies between INCR and EXPIRE is enough to get there. */
  lemma CrashUnarms(s: State, limit: int)
    requires Found(s.counter, s.now).Absent?
    ensures var t := Run(s, [Incr, Crash], limit);
            t.counter == Present(1, None) && !t.arming
  {
    RunTwo(s, Incr, Crash, limit);
  }
}
