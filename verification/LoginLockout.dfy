/**
  The login lockout: a failure counter and a lock in Redis, the lock's end written down in
  whole seconds.
*/
module LoginLockout {
  import opened Basics
  import opened Options

  /** Times are in milliseconds. */
  const SECOND := 1000

  /** Failures that lock, and how many seconds a lock lasts. */
  datatype Policy = Policy(threshold: nat, seconds: nat)

  datatype Lock = Lock(until: int, expires: int)
  datatype Counter = Counter(count: nat, expires: int)

  datatype State = State(lock: Option<Lock>, counter: Option<Counter>)

  /** The lock's end as its text keeps it, without fractions of a second. */
  function WholeSeconds(t: int): int {
    t / SECOND * SECOND
  }

  function LiveLock(s: State, now: int): Option<Lock> {
    if s.lock.Some? && now < s.lock.value.expires then s.lock else None
  }

  function LiveCount(s: State, now: int): nat {
    if s.counter.Some? && now < s.counter.value.expires then s.counter.value.count else 0
  }

  predicate Locked(s: State, now: int) {
    LiveLock(s, now).Some? && LiveLock(s, now).value.until > now
  }

  /** The status check: a lock found past its end takes the counter with it. */
  function Checked(s: State, now: int): State {
    if LiveLock(s, now).Some? && !Locked(s, now) then State(None, None) else s
  }

  function Failed(p: Policy, s: State, now: int): State {
    if p.threshold == 0 then s
    else
      var count := LiveCount(s, now) + 1;
      var expires := now + p.seconds * SECOND;
      State(if count >= p.threshold then Some(Lock(WholeSeconds(expires), expires)) else s.lock,
            Some(Counter(count, expires)))
  }

  /** How a presented password turns out; a right one may still be too old to log in with. */
  datatype Password = Wrong | Outdated | Right

  datatype Verdict = Refused | WrongPassword | TooOld | LoggedIn

  function Verified(p: Policy, s: State, enabled: bool, password: Password, now: int): (State, Verdict) {
    if !enabled || Locked(s, now) then (s, Refused)
    else
      var c := Checked(s, now);
      match password
      case Wrong => (Failed(p, c, now), WrongPassword)
      case Outdated => (c, TooOld)
      case Right => (State(None, None), LoggedIn)
  }

  class PasswordSecurity {
    const policy: Policy
    var lock: Option<Lock>
    var counter: Option<Counter>

    ghost function Contents(): State
      reads this
    {
      State(lock, counter)
    }

    constructor (policy: Policy)
      ensures this.policy == policy && Contents() == State(None, None)
    {
      this.policy, lock, counter := policy, None, None;
    }

    method CheckStatus(enabled: bool, now: int) returns (ok: bool)
      modifies this
      ensures ok == (enabled && !Locked(old(Contents()), now))
      ensures Contents() == if ok then Checked(old(Contents()), now) else old(Contents())
    {
      if !enabled {
        return false;
      }
      if lock.Some? && now < lock.value.expires {
        if lock.value.until > now {
          return false;
        }
        lock := None;
        counter := None;
      }
      ok := true;
    }

    method HandleLoginFailure(now: int)
      modifies this
      ensures Contents() == Failed(policy, old(Contents()), now)
    {
      if policy.threshold == 0 {
        return;
      }
      var count := if counter.Some? && now < counter.value.expires then counter.value.count else 0;
      count := count + 1;
      counter := Some(Counter(count, now + policy.seconds * SECOND));
      if count >= policy.threshold {
        lock := Some(Lock(WholeSeconds(now + policy.seconds * SECOND), now + policy.seconds * SECOND));
      }
    }

    method HandleLoginSuccess()
      modifies this
      ensures Contents() == State(None, None)
    {
      lock := None;
      counter := None;
    }

    method UserVerify(enabled: bool, password: Password, now: int) returns (v: Verdict)
      modifies this
      ensures (Contents(), v) == Verified(policy, old(Contents()), enabled, password, now)
    {
      var ok := CheckStatus(enabled, now);
      if !ok {
        return Refused;
      }
      match password
      case Wrong =>
        HandleLoginFailure(now);
        v := WrongPassword;
      case Outdated =>
        v := TooOld;
      case Right =>
        HandleLoginSuccess();
        v := LoggedIn;
    }
  }

  // ---- attempts as they interleave ----

  /**
    Where an open attempt stands: the lock read, and then cleared in two commands if it was past its
    end; the check passed; the password found wrong, the counter read, the lock due and its end
    computed; or the password found right, and the lock deleted.
  */
  datatype Phase =
    | GotLock(lock: Option<Lock>)
    | Clearing
    | Cleared
    | Passed
    | Mistaken
    | Counted(count: nat)
    | Due
    | Locking(until: int)
    | Leaving
    | Left

  /** `Begin` reads the lock for a new attempt; `Next` is an open attempt's next command. */
  datatype Event = Tick(d: nat) | Begin(id: nat, enabled: bool) | Next(id: nat, password: Password)

  /** What matters of an attempt: a failed password check or a login, and when. */
  datatype Mark = Failure(time: int) | Success(time: int)

  datatype Sys = Sys(now: int, s: State, open: map<nat, Phase>, log: seq<Mark>)

  /** One command: the new state, where the attempt stands then, unless it is over, and what it left in the log. */
  datatype Move = Move(s: State, phase: Option<Phase>, mark: Option<Mark>)

  function Command(p: Policy, s: State, phase: Phase, password: Password, now: int): Move {
    match phase
    case GotLock(lock) =>
      Move(s, if lock.None? then Some(Passed) else if lock.value.until > now then None else Some(Clearing), None)
    case Clearing => Move(s.(lock := None), Some(Cleared), None)
    case Cleared => Move(s.(counter := None), Some(Passed), None)
    case Passed =>
      (match password
       case Wrong => Move(s, Some(Mistaken), Some(Failure(now)))
       case Outdated => Move(s, None, None)
       case Right => Move(s, Some(Leaving), Some(Success(now))))
    case Mistaken => Move(s, if p.threshold == 0 then None else Some(Counted(LiveCount(s, now))), None)
    case Counted(count) =>
      Move(s.(counter := Some(Counter(count + 1, now + p.seconds * SECOND))),
           if count + 1 >= p.threshold then Some(Due) else None, None)
    case Due => Move(s, Some(Locking(WholeSeconds(now + p.seconds * SECOND))), None)
    case Locking(until) => Move(s.(lock := Some(Lock(until, now + p.seconds * SECOND))), None, None)
    case Leaving => Move(s.(lock := None), Some(Left), None)
    case Left => Move(s.(counter := None), None, None)
  }

  function Noted(log: seq<Mark>, mark: Option<Mark>): seq<Mark> {
    if mark.Some? then log + [mark.value] else log
  }

  function Settled(open: map<nat, Phase>, id: nat, phase: Option<Phase>): map<nat, Phase> {
    if phase.Some? then open[id := phase.value] else open - {id}
  }

  function After(p: Policy, y: Sys, e: Event): Sys {
    match e
    case Tick(d) => y.(now := y.now + d)
    case Begin(id, enabled) =>
      if !enabled || id in y.open then y else y.(open := y.open[id := GotLock(LiveLock(y.s, y.now))])
    case Next(id, password) =>
      if id !in y.open then y
      else
        var m := Command(p, y.s, y.open[id], password, y.now);
        Sys(y.now, m.s, Settled(y.open, id, m.phase), Noted(y.log, m.mark))
  }

  function Run(p: Policy, start: int, events: seq<Event>): Sys {
    if events == [] then Sys(start, State(None, None), map[], [])
    else After(p, Run(p, start, events[..|events| - 1]), events[|events| - 1])
  }

  /** Never more than `k` attempts open at once; one that dies half-way stays open. */
  ghost predicate Narrow(p: Policy, start: int, events: seq<Event>, k: nat) {
    events == [] || (Narrow(p, start, events[..|events| - 1], k) && |Run(p, start, events).open| <= k)
  }

  // ---- the invariant of one attempt at a time ----

  predicate AllFailures(log: seq<Mark>, i: nat, k: nat)
    requires k <= |log|
  {
    forall j :: i <= j < k ==> log[j].Failure?
  }

  /** One second less than the lock lasts. */
  function Reach(p: Policy): int {
    (p.seconds - 1) * SECOND
  }

  /** The system with its one open attempt. */
  datatype Solo = Solo(now: int, s: State, phase: Option<Phase>, log: seq<Mark>)

  ghost predicate Timed(y: Solo) {
    && (forall i, k :: 0 <= i <= k < |y.log| ==> y.log[i].time <= y.log[k].time)
    && (forall i :: 0 <= i < |y.log| ==> y.log[i].time <= y.now)
  }

  /** A failure the counter does not hold yet. */
  function Pending(phase: Option<Phase>): nat {
    if phase.Some? && (phase.value.Mistaken? || phase.value.Counted?) then 1 else 0
  }

  predicate LockDue(phase: Option<Phase>) {
    phase.Some? && (phase.value.Due? || phase.value.Locking?)
  }

  ghost predicate InReach(p: Policy, y: Solo, i: nat)
    requires i < |y.log|
  {
    AllFailures(y.log, i, |y.log|) && y.now <= y.log[i].time + Reach(p)
  }

  /** Failures from position `i` on, the first of them within reach, are all counted, and a full counter locks. */
  ghost predicate Counts(p: Policy, y: Solo, i: nat)
    requires i < |y.log|
  {
    InReach(p, y, i) ==>
      var far := y.log[i].time + Reach(p);
      var counted := |y.log| - i - Pending(y.phase);
      && !(y.phase.Some? && (y.phase.value.Clearing? || y.phase.value.Cleared?))
      && (y.phase.Some? && y.phase.value.Counted? ==> y.phase.value.count >= counted)
      && (counted >= 1 ==>
            && y.s.counter.Some? && y.s.counter.value.count >= counted && y.s.counter.value.expires > far
            && (y.s.counter.value.count >= p.threshold && !LockDue(y.phase) ==>
                  y.s.lock.Some? && y.s.lock.value.until > far && y.s.lock.value.expires > far))
  }

  ghost predicate AllCounts(p: Policy, y: Solo) {
    forall i :: 0 <= i < |y.log| ==> Counts(p, y, i)
  }

  /** A lock in force, or read, or about to be set, ends out of reach of the last failure. */
  ghost predicate OutOfReach(p: Policy, log: seq<Mark>, until: int) {
    |log| >= 1 && until > log[|log| - 1].time + Reach(p)
  }

  ghost predicate LockFits(p: Policy, y: Solo) {
    match y.phase
    case None => LiveLock(y.s, y.now).Some? ==> OutOfReach(p, y.log, y.s.lock.value.until)
    case Some(phase) =>
      && (phase.GotLock? && phase.lock.Some? ==> OutOfReach(p, y.log, phase.lock.value.until))
      && (phase.GotLock? && phase.lock.Some? && LiveLock(y.s, y.now).Some? ==>
            OutOfReach(p, y.log, y.s.lock.value.until))
      && (LiveLock(y.s, y.now).Some? ==> (phase.GotLock? && phase.lock.Some?) || phase.Clearing?)
      && (phase.Mistaken? || phase.Counted? || phase.Due? ==> |y.log| >= 1)
      && (phase.Locking? ==> OutOfReach(p, y.log, phase.until))
      && (phase.Leaving? || phase.Left? ==> |y.log| >= 1 && y.log[|y.log| - 1].Success?)
  }

  /** More than the threshold of failures in a row reach further than the lock less one second. */
  ghost predicate Spread(p: Policy, log: seq<Mark>) {
    forall i, k :: 0 <= i < k < |log| && k - i >= p.threshold && AllFailures(log, i, k + 1) ==>
      log[k].time - log[i].time > Reach(p)
  }

  ghost predicate Inv(p: Policy, y: Solo) {
    Timed(y) && AllCounts(p, y) && LockFits(p, y) && Spread(p, y.log)
  }

  function Moved(p: Policy, y: Solo, password: Password): Solo
    requires y.phase.Some?
  {
    var m := Command(p, y.s, y.phase.value, password, y.now);
    Solo(y.now, m.s, m.phase, Noted(y.log, m.mark))
  }

  lemma WholeSecondsNear(t: int)
    ensures t - SECOND < WholeSeconds(t) <= t
  {
  }

  lemma FailuresPrefix(log: seq<Mark>, m: Mark, i: nat, k: nat)
    requires k <= |log|
    ensures AllFailures(log, i, k) <==> AllFailures(log + [m], i, k)
  {
    assert (log + [m])[..|log|] == log;
    forall j | i <= j < k
      ensures (log + [m])[j] == log[j]
    {
    }
  }

  lemma LastInReach(p: Policy, y: Solo, i: nat)
    requires Timed(y) && i < |y.log| && InReach(p, y, i)
    ensures y.log[i].time + Reach(p) <= y.log[|y.log| - 1].time + Reach(p)
  {
  }

  // each command keeps the counter and the lock in step with the log

  lemma TickKeeps(p: Policy, y: Solo, d: nat)
    requires Inv(p, y)
    ensures Inv(p, y.(now := y.now + d))
  {
    var t := y.(now := y.now + d);
    forall i | 0 <= i < |t.log|
      ensures Counts(p, t, i)
    {
      assert Counts(p, y, i);
    }
  }

  lemma BeginKeeps(p: Policy, y: Solo)
    requires Inv(p, y) && y.phase.None?
    ensures Inv(p, y.(phase := Some(GotLock(LiveLock(y.s, y.now)))))
  {
    var t := y.(phase := Some(GotLock(LiveLock(y.s, y.now))));
    forall i | 0 <= i < |t.log|
      ensures Counts(p, t, i)
    {
      assert Counts(p, y, i);
    }
  }

  lemma CheckKeeps(p: Policy, y: Solo, password: Password)
    requires Inv(p, y) && y.phase.Some? && y.phase.value.GotLock?
    ensures Inv(p, Moved(p, y, password))
  {
    var t := Moved(p, y, password);
    assert t.log == y.log && t.s == y.s;
    forall i | 0 <= i < |t.log|
      ensures Counts(p, t, i)
    {
      assert Counts(p, y, i);
      if InReach(p, y, i) {
        LastInReach(p, y, i);
      }
    }
  }

  /** A lock is cleared, and an attempt's success clears everything, when no failure is within reach. */
  lemma ClearKeeps(p: Policy, y: Solo, password: Password)
    requires Inv(p, y) && y.phase.Some?
    requires y.phase.value.Clearing? || y.phase.value.Cleared? || y.phase.value.Leaving? || y.phase.value.Left?
    ensures Inv(p, Moved(p, y, password))
  {
    var t := Moved(p, y, password);
    assert t.log == y.log;
    forall i | 0 <= i < |t.log|
      ensures Counts(p, t, i)
    {
      assert Counts(p, y, i);
      assert !InReach(p, y, i);
    }
  }

  /** A passed attempt finds the counter short of the threshold. */
  lemma NotFull(p: Policy, y: Solo, i: nat)
    requires Inv(p, y) && y.phase == Some(Passed) && i < |y.log| && InReach(p, y, i)
    ensures |y.log| - i < p.threshold
  {
    assert Counts(p, y, i);
  }

  lemma FailureKeeps(p: Policy, y: Solo)
    requires Inv(p, y) && y.phase == Some(Passed) && p.threshold >= 1
    ensures Inv(p, Moved(p, y, Wrong))
  {
    var t := Moved(p, y, Wrong);
    assert t.log == y.log + [Failure(y.now)];
    forall i | 0 <= i < |t.log|
      ensures Counts(p, t, i)
    {
      if i < |y.log| {
        FailuresPrefix(y.log, Failure(y.now), i, |y.log|);
        assert Counts(p, y, i);
      }
    }
    FailureSpreads(p, y);
  }

  lemma FailureSpreads(p: Policy, y: Solo)
    requires Inv(p, y) && y.phase == Some(Passed) && p.threshold >= 1
    ensures Spread(p, y.log + [Failure(y.now)])
  {
    var log := y.log + [Failure(y.now)];
    forall i, k | 0 <= i < k < |log| && k - i >= p.threshold && AllFailures(log, i, k + 1)
      ensures log[k].time - log[i].time > Reach(p)
    {
      FailuresPrefix(y.log, Failure(y.now), i, if k < |y.log| then k + 1 else k);
      if k == |y.log| && y.now <= y.log[i].time + Reach(p) {
        NotFull(p, y, i);
      }
    }
  }

  lemma SuccessKeeps(p: Policy, y: Solo)
    requires Inv(p, y) && y.phase == Some(Passed)
    ensures Inv(p, Moved(p, y, Right))
  {
    var t := Moved(p, y, Right);
    assert t.log == y.log + [Success(y.now)];
    forall i | 0 <= i < |t.log|
      ensures Counts(p, t, i)
    {
      assert t.log[|t.log| - 1].Success?;
    }
    forall i, k | 0 <= i < k < |t.log| && k - i >= p.threshold && AllFailures(t.log, i, k + 1)
      ensures t.log[k].time - t.log[i].time > Reach(p)
    {
      assert t.log[k].Failure?;
      FailuresPrefix(y.log, Success(y.now), i, k + 1);
    }
  }

  lemma CountKeeps(p: Policy, y: Solo, password: Password)
    requires Inv(p, y) && y.phase.Some? && p.threshold >= 1 && p.seconds >= 1
    requires y.phase.value.Mistaken? || y.phase.value.Counted?
    ensures Inv(p, Moved(p, y, password))
  {
    var t := Moved(p, y, password);
    assert t.log == y.log;
    forall i | 0 <= i < |t.log|
      ensures Counts(p, t, i)
    {
      assert Counts(p, y, i);
      if InReach(p, y, i) {
        LastInReach(p, y, i);
      }
    }
  }

  lemma LockKeeps(p: Policy, y: Solo, password: Password)
    requires Inv(p, y) && y.phase.Some? && p.seconds >= 1 && (y.phase.value.Due? || y.phase.value.Locking?)
    ensures Inv(p, Moved(p, y, password))
  {
    var t := Moved(p, y, password);
    assert t.log == y.log;
    WholeSecondsNear(y.now + p.seconds * SECOND);
    forall i | 0 <= i < |t.log|
      ensures Counts(p, t, i)
    {
      assert Counts(p, y, i);
      if InReach(p, y, i) {
        LastInReach(p, y, i);
      }
    }
  }

  lemma OutdatedKeeps(p: Policy, y: Solo)
    requires Inv(p, y) && y.phase == Some(Passed)
    ensures Inv(p, Moved(p, y, Outdated))
  {
    var t := Moved(p, y, Outdated);
    assert t.log == y.log;
    forall i | 0 <= i < |t.log|
      ensures Counts(p, t, i)
    {
      assert Counts(p, y, i);
    }
  }

  lemma CommandKeeps(p: Policy, y: Solo, password: Password)
    requires Inv(p, y) && y.phase.Some? && p.threshold >= 1 && p.seconds >= 1
    ensures Inv(p, Moved(p, y, password))
  {
    match y.phase.value
    case GotLock(_) => CheckKeeps(p, y, password);
    case Clearing => ClearKeeps(p, y, password);
    case Cleared => ClearKeeps(p, y, password);
    case Passed =>
      match password {
        case Wrong => FailureKeeps(p, y);
        case Outdated => OutdatedKeeps(p, y);
        case Right => SuccessKeeps(p, y);
      }
    case Mistaken => CountKeeps(p, y, password);
    case Counted(_) => CountKeeps(p, y, password);
    case Due => LockKeeps(p, y, password);
    case Locking(_) => LockKeeps(p, y, password);
    case Leaving => ClearKeeps(p, y, password);
    case Left => ClearKeeps(p, y, password);
  }

  // ---- runs of one attempt at a time ----

  /** The system seen as its one open attempt, if any. */
  ghost predicate Shows(y: Sys, solo: Solo) {
    && solo.now == y.now && solo.s == y.s && solo.log == y.log
    && match solo.phase
       case None => y.open == map[]
       case Some(phase) => exists id :: y.open == map[id := phase]
  }

  lemma AtMostOne(open: map<nat, Phase>, id: nat)
    requires |open| <= 1 && id in open
    ensures open == map[id := open[id]]
  {
    if k :| k in open && k != id {
      assert {id, k} <= open.Keys;
      SubsetSmaller({id, k}, open.Keys);
    }
  }

  lemma StepKeeps(p: Policy, y: Sys, solo: Solo, e: Event) returns (after: Solo)
    requires Shows(y, solo) && Inv(p, solo) && p.threshold >= 1 && p.seconds >= 1
    requires |After(p, y, e).open| <= 1
    ensures Shows(After(p, y, e), after) && Inv(p, after)
  {
    match e
    case Tick(d) =>
      TickKeeps(p, solo, d);
      after := solo.(now := y.now + d);
    case Begin(id, enabled) => after := BeginSolo(p, y, solo, id, enabled);
    case Next(id, password) => after := NextSolo(p, y, solo, id, password);
  }

  lemma BeginSolo(p: Policy, y: Sys, solo: Solo, id: nat, enabled: bool) returns (after: Solo)
    requires Shows(y, solo) && Inv(p, solo) && |After(p, y, Begin(id, enabled)).open| <= 1
    ensures Shows(After(p, y, Begin(id, enabled)), after) && Inv(p, after)
  {
    if !enabled || id in y.open {
      after := solo;
    } else {
      var phase := GotLock(LiveLock(y.s, y.now));
      AtMostOne(y.open[id := phase], id);
      assert y.open == map[] by {
        assert forall k :: k in y.open ==> k in y.open[id := phase];
      }
      BeginKeeps(p, solo);
      after := solo.(phase := Some(phase));
    }
  }

  lemma NextSolo(p: Policy, y: Sys, solo: Solo, id: nat, password: Password) returns (after: Solo)
    requires Shows(y, solo) && Inv(p, solo) && p.threshold >= 1 && p.seconds >= 1
    ensures Shows(After(p, y, Next(id, password)), after) && Inv(p, after)
  {
    if id !in y.open {
      after := solo;
    } else {
      assert solo.phase == Some(y.open[id]) && y.open == map[id := y.open[id]];
      CommandKeeps(p, solo, password);
      after := Moved(p, solo, password);
      SettledOne(id, y.open[id], after.phase);
    }
  }

  lemma SettledOne(id: nat, phase: Phase, to: Option<Phase>)
    ensures Settled(map[id := phase], id, to) == if to.Some? then map[id := to.value] else map[]
  {
  }

  lemma {:induction false} RunKeeps(p: Policy, start: int, events: seq<Event>) returns (solo: Solo)
    requires p.threshold >= 1 && p.seconds >= 1 && Narrow(p, start, events, 1)
    ensures Shows(Run(p, start, events), solo) && Inv(p, solo)
  {
    if events == [] {
      solo := Solo(start, State(None, None), None, []);
    } else {
      solo := RunKeeps(p, start, events[..|events| - 1]);
      solo := StepKeeps(p, Run(p, start, events[..|events| - 1]), solo, events[|events| - 1]);
    }
  }

  // ---- the bound ----

  /** Positions of the log inside a closed interval of time. */
  function Within(log: seq<Mark>, a: int, b: int): set<nat> {
    set i: nat | i < |log| && a <= log[i].time <= b
  }

  lemma {:induction false} CountBetween(s: set<nat>, low: nat, high: nat)
    requires forall i :: i in s ==> low <= i < high
    ensures low <= high ==> |s| <= high - low
  {
    if low < high {
      CountBetween(s - {high - 1}, low, high - 1);
      assert |s| <= |s - {high - 1}| + 1;
    } else {
      assert s == {};
    }
  }

  lemma Extremes(s: set<nat>) returns (low: nat, high: nat)
    requires s != {}
    ensures low in s && high in s && forall i :: i in s ==> low <= i <= high
    decreases |s|
  {
    var x :| x in s;
    if s == {x} {
      low, high := x, x;
    } else {
      assert s - {x} != {};
      low, high := Extremes(s - {x});
      assert forall i :: i in s ==> i == x || i in s - {x};
      low, high := if x < low then x else low, if x > high then x else high;
    }
  }

  /**
    Within any interval of at most the lock's length less one second and without a successful login
    there are at most the threshold of failed password checks.
  */
  ghost predicate Bounded(p: Policy, log: seq<Mark>) {
    forall a, b :: b - a <= Reach(p) && (forall i :: i in Within(log, a, b) ==> log[i].Failure?) ==>
                     |Within(log, a, b)| <= p.threshold
  }

  lemma SpreadBounds(p: Policy, log: seq<Mark>)
    requires p.threshold >= 1 && Spread(p, log)
    requires forall i, k :: 0 <= i <= k < |log| ==> log[i].time <= log[k].time
    ensures Bounded(p, log)
  {
    forall a, b | b - a <= Reach(p) && forall i :: i in Within(log, a, b) ==> log[i].Failure?
      ensures |Within(log, a, b)| <= p.threshold
    {
      var s := Within(log, a, b);
      if s != {} {
        var low, high := Extremes(s);
        CountBetween(s, low, high + 1);
        forall j | low <= j < high + 1
          ensures log[j].Failure?
        {
          assert j in s;
        }
        assert AllFailures(log, low, high + 1);
      }
    }
  }

  // ---- the lock's end ----

  /**
    A failure that locks: attempts are refused exactly until the written-down second, then the
    counter starts again.
  */
  lemma LockEndsAtZero(p: Policy, s: State, t: int, d: nat)
    requires p.threshold >= 1 && !Locked(s, t) && LiveCount(Checked(s, t), t) + 1 >= p.threshold
    ensures var l := Verified(p, s, true, Wrong, t).0;
            var (after, v) := Verified(p, l, true, Wrong, t + d);
            if t + d < WholeSeconds(t + p.seconds * SECOND) then v == Refused && after == l
            else v == WrongPassword && after.counter == Some(Counter(1, t + d + p.seconds * SECOND))
  {
    WholeSecondsNear(t + p.seconds * SECOND);
  }

  // ---- one attempt alone ----

  /** The most commands an attempt still has before it. */
  function CommandsLeft(phase: Phase): nat {
    match phase
    case GotLock(_) => 8
    case Clearing => 7
    case Cleared => 6
    case Passed => 5
    case Mistaken => 4
    case Counted(_) => 3
    case Due => 2
    case Locking(_) => 1
    case Leaving => 2
    case Left => 1
  }

  datatype Result = Result(s: State, log: seq<Mark>)

  /** The attempt's commands in a row. */
  function Finished(p: Policy, s: State, phase: Phase, password: Password, now: int, log: seq<Mark>): Result
    decreases CommandsLeft(phase)
  {
    var m := Command(p, s, phase, password, now);
    if m.phase.None? then Result(m.s, Noted(log, m.mark))
    else Finished(p, m.s, m.phase.value, password, now, Noted(log, m.mark))
  }

  function MarkOf(v: Verdict, now: int): Option<Mark> {
    if v.WrongPassword? then Some(Failure(now)) else if v.LoggedIn? then Some(Success(now)) else None
  }

  lemma FinishWrong(p: Policy, s: State, now: int, log: seq<Mark>)
    ensures Finished(p, s, Mistaken, Wrong, now, log) == Result(Failed(p, s, now), log)
  {
    if p.threshold > 0 {
      var count := LiveCount(s, now);
      var t := s.(counter := Some(Counter(count + 1, now + p.seconds * SECOND)));
      if count + 1 >= p.threshold {
        var until := WholeSeconds(now + p.seconds * SECOND);
        assert Finished(p, t, Locking(until), Wrong, now, log) == Result(Failed(p, s, now), log);
        assert Finished(p, t, Due, Wrong, now, log) == Result(Failed(p, s, now), log);
      }
      assert Finished(p, s, Counted(count), Wrong, now, log) == Result(Failed(p, s, now), log);
    }
  }

  lemma FinishPassed(p: Policy, s: State, password: Password, now: int, log: seq<Mark>)
    ensures Finished(p, s, Passed, password, now, log) ==
            match password
            case Wrong => Result(Failed(p, s, now), log + [Failure(now)])
            case Outdated => Result(s, log)
            case Right => Result(State(None, None), log + [Success(now)])
  {
    FinishWrong(p, s, now, log + [Failure(now)]);
    var after := log + [Success(now)];
    assert Finished(p, s.(lock := None), Left, Right, now, after) == Result(State(None, None), after);
    assert Finished(p, s, Leaving, Right, now, after) == Result(State(None, None), after);
  }

  /** Undisturbed, the commands of an attempt are the attempt as a whole. */
  lemma AloneIsVerified(p: Policy, s: State, password: Password, now: int, log: seq<Mark>)
    ensures var (end, v) := Verified(p, s, true, password, now);
            Finished(p, s, GotLock(LiveLock(s, now)), password, now, log) == Result(end, Noted(log, MarkOf(v, now)))
  {
    var none := State(None, None);
    FinishPassed(p, Checked(s, now), password, now, log);
    if LiveLock(s, now).Some? && !Locked(s, now) {
      var end := Finished(p, none, Passed, password, now, log);
      assert Finished(p, s.(lock := None), Cleared, password, now, log) == end;
      assert Finished(p, s, Clearing, password, now, log) == end;
    }
  }

  lemma NarrowSnoc(p: Policy, start: int, events: seq<Event>, e: Event, k: nat)
    requires Narrow(p, start, events, k) && |After(p, Run(p, start, events), e).open| <= k
    ensures Narrow(p, start, events + [e], k) && Run(p, start, events + [e]) == After(p, Run(p, start, events), e)
  {
    assert (events + [e])[..|events|] == events;
  }

  /** An open attempt goes on to its end with nothing in between. */
  lemma {:induction false} Finish(p: Policy, start: int, events: seq<Event>, y: Sys, id: nat, phase: Phase,
                                  password: Password, k: nat)
    returns (longer: seq<Event>)
    requires Narrow(p, start, events, k) && y == Run(p, start, events)
    requires id in y.open && y.open[id] == phase && |y.open| <= k
    ensures Narrow(p, start, longer, k)
    ensures var end := Finished(p, y.s, phase, password, y.now, y.log);
            Run(p, start, longer) == Sys(y.now, end.s, y.open - {id}, end.log)
    decreases CommandsLeft(phase)
  {
    var e := Next(id, password);
    var next := After(p, y, e);
    NextGoesOn(p, y, id, phase, password);
    NarrowSnoc(p, start, events, e, k);
    longer := events + [e];
    if id in next.open {
      longer := Finish(p, start, longer, next, id, next.open[id], password, k);
    }
  }

  /** One more command of an open attempt opens none, and leaves what the whole attempt will do. */
  lemma NextGoesOn(p: Policy, y: Sys, id: nat, phase: Phase, password: Password)
    requires id in y.open && y.open[id] == phase
    ensures var next, end := After(p, y, Next(id, password)), Finished(p, y.s, phase, password, y.now, y.log);
            && |next.open| <= |y.open| && next.open - {id} == y.open - {id} && next.now == y.now
            && (id !in next.open ==> next == Sys(y.now, end.s, y.open - {id}, end.log))
            && (id in next.open ==>
                  && CommandsLeft(next.open[id]) < CommandsLeft(phase)
                  && Finished(p, next.s, next.open[id], password, next.now, next.log) == end)
  {
    var m := Command(p, y.s, phase, password, y.now);
    OthersKept(y.open, id, m.phase);
    FinishedNext(p, y.s, phase, password, y.now, y.log);
  }

  lemma FinishedNext(p: Policy, s: State, phase: Phase, password: Password, now: int, log: seq<Mark>)
    ensures var m := Command(p, s, phase, password, now);
            var after := Noted(log, m.mark);
            && (m.phase.Some? ==> CommandsLeft(m.phase.value) < CommandsLeft(phase))
            && Finished(p, s, phase, password, now, log) ==
               if m.phase.None? then Result(m.s, after) else Finished(p, m.s, m.phase.value, password, now, after)
  {
  }

  lemma OthersKept(open: map<nat, Phase>, id: nat, phase: Option<Phase>)
    requires id in open
    ensures |Settled(open, id, phase)| <= |open| && Settled(open, id, phase) - {id} == open - {id}
    ensures phase.None? ==> Settled(open, id, phase) == open - {id}
    ensures phase.Some? ==> id in Settled(open, id, phase) && Settled(open, id, phase)[id] == phase.value
  {
    if phase.Some? {
      assert open[id := phase.value].Keys == open.Keys;
      assert open[id := phase.value] - {id} == open - {id};
    } else {
      assert (open - {id}).Keys == open.Keys - {id};
      SubsetSmaller(open.Keys - {id}, open.Keys);
    }
  }

  /** A whole attempt beside fewer than `k` open ones. */
  lemma Alone(p: Policy, start: int, events: seq<Event>, y: Sys, id: nat, password: Password, k: nat)
    returns (longer: seq<Event>)
    requires Narrow(p, start, events, k) && y == Run(p, start, events) && id !in y.open && |y.open| < k
    ensures Narrow(p, start, longer, k)
    ensures var (end, v) := Verified(p, y.s, true, password, y.now);
            Run(p, start, longer) == Sys(y.now, end, y.open, Noted(y.log, MarkOf(v, y.now)))
  {
    var phase := GotLock(LiveLock(y.s, y.now));
    var begun := y.(open := y.open[id := phase]);
    AddedOpen(y.open, id, phase);
    NarrowSnoc(p, start, events, Begin(id, true), k);
    AloneIsVerified(p, y.s, password, y.now, y.log);
    longer := Finish(p, start, events + [Begin(id, true)], begun, id, phase, password, k);
  }

  lemma AddedOpen(open: map<nat, Phase>, id: nat, phase: Phase)
    requires id !in open
    ensures |open[id := phase]| == |open| + 1 && open[id := phase] - {id} == open
  {
    assert open[id := phase].Keys == open.Keys + {id};
    AddNew(open.Keys, id);
  }

  // ---- the bound is sharp ----

  function Failures(n: nat, t: int): seq<Mark> {
    Repeat(Failure(t), n)
  }

  lemma {:induction false} FailuresAll(n: nat, t: int)
    ensures forall i :: 0 <= i < n ==> Failures(n, t)[i] == Failure(t)
  {
    if n > 0 {
      FailuresAll(n - 1, t);
      assert Failures(n, t) == Failures(n - 1, t) + [Failure(t)];
    }
  }

  /** The state after `n` counted failures at one moment. */
  function Filled(p: Policy, now: int, n: nat): State {
    if n == 0 then State(None, None)
    else
      var expires := now + p.seconds * SECOND;
      State(if n >= p.threshold then Some(Lock(WholeSeconds(expires), expires)) else None, Some(Counter(n, expires)))
  }

  lemma OneMore(p: Policy, now: int, n: nat)
    requires n < p.threshold && p.seconds >= 1
    ensures Verified(p, Filled(p, now, n), true, Wrong, now) == (Filled(p, now, n + 1), WrongPassword)
  {
  }

  /** One wrong password after the other at one moment, until the counter says `n`. */
  lemma {:induction false} FillUp(p: Policy, start: int, events: seq<Event>, now: int, m: nat, n: nat, log: seq<Mark>,
                                  k: nat)
    returns (longer: seq<Event>)
    requires m <= n <= p.threshold && p.seconds >= 1 && k >= 1
    requires Narrow(p, start, events, k) && Run(p, start, events) == Sys(now, Filled(p, now, m), map[], log)
    ensures Narrow(p, start, longer, k)
    ensures Run(p, start, longer) == Sys(now, Filled(p, now, n), map[], log + Failures(n - m, now))
    decreases n - m
  {
    if m == n {
      longer := events;
      assert log + Failures(0, now) == log;
    } else {
      longer := FillUp(p, start, events, now, m, n - 1, log, k);
      OneMore(p, now, n - 1);
      var y := Sys(now, Filled(p, now, n - 1), map[], log + Failures(n - 1 - m, now));
      longer := Alone(p, start, longer, y, 0, Wrong, k);
      OneLonger(log, n - 1 - m, now);
    }
  }

  lemma OneLonger(log: seq<Mark>, n: nat, t: int)
    ensures log + Failures(n, t) + [Failure(t)] == log + Failures(n + 1, t)
  {
  }

  function Naturals(n: nat): set<nat> {
    if n == 0 then {} else Naturals(n - 1) + {n - 1}
  }

  lemma {:induction false} NaturalsExact(n: nat)
    ensures |Naturals(n)| == n && forall i: nat :: i in Naturals(n) <==> i < n
  {
    if n > 0 {
      NaturalsExact(n - 1);
    }
  }

  lemma AllWithin(log: seq<Mark>, a: int, b: int)
    requires forall i :: 0 <= i < |log| ==> log[i].Failure? && a <= log[i].time <= b
    ensures |Within(log, a, b)| == |log|
  {
    NaturalsExact(|log|);
    assert Within(log, a, b) == Naturals(|log|);
  }

  lemma LockLifts(p: Policy)
    requires p.threshold >= 1 && p.seconds >= 1
    ensures Verified(p, Filled(p, 999, p.threshold), true, Wrong, p.seconds * SECOND).1 == WrongPassword
  {
    assert WholeSeconds(999 + p.seconds * SECOND) == p.seconds * SECOND;
  }

  /** One millisecond more admits one failure more, for every threshold and length of lock, one attempt at a time. */
  lemma BoundIsSharp(p: Policy) returns (events: seq<Event>, a: int)
    requires p.threshold >= 1 && p.seconds >= 1
    ensures Narrow(p, 999, events, 1)
    ensures var log := Run(p, 999, events).log;
            && |Within(log, a, a + Reach(p) + 1)| == p.threshold + 1
            && forall i :: 0 <= i < |log| ==> log[i].Failure?
  {
    a := 999;
    var end := p.seconds * SECOND;
    events := FillUp(p, 999, [], 999, 0, p.threshold, [], 1);
    var log := Failures(p.threshold, 999);
    assert [] + log == log;
    events := Waited(p, events, log);
    SharpCount(p, log, end);
  }

  lemma Waited(p: Policy, events: seq<Event>, log: seq<Mark>) returns (longer: seq<Event>)
    requires p.threshold >= 1 && p.seconds >= 1
    requires Narrow(p, 999, events, 1)
    requires Run(p, 999, events) == Sys(999, Filled(p, 999, p.threshold), map[], log)
    ensures Narrow(p, 999, longer, 1) && Run(p, 999, longer).log == log + [Failure(p.seconds * SECOND)]
  {
    var wait := Tick(p.seconds * SECOND - 999);
    NarrowSnoc(p, 999, events, wait, 1);
    LockLifts(p);
    var y := Sys(p.seconds * SECOND, Filled(p, 999, p.threshold), map[], log);
    longer := Alone(p, 999, events + [wait], y, 0, Wrong, 1);
  }

  lemma SharpCount(p: Policy, log: seq<Mark>, end: int)
    requires p.seconds >= 1 && log == Failures(p.threshold, 999) && end == p.seconds * SECOND
    ensures |Within(log + [Failure(end)], 999, 999 + Reach(p) + 1)| == p.threshold + 1
    ensures forall i :: 0 <= i < |log + [Failure(end)]| ==> (log + [Failure(end)])[i].Failure?
  {
    FailuresAll(p.threshold, 999);
    AllWithin(log + [Failure(end)], 999, end);
  }

  // ---- attempts that overlap ----

  /** An attempt fails its check and has read the counter, but not written it. */
  lemma HalfWay(p: Policy, start: int) returns (events: seq<Event>)
    requires p.threshold >= 1
    ensures Narrow(p, start, events, 2)
    ensures Run(p, start, events) == Sys(start, State(None, None), map[0 := Counted(0)], [Failure(start)])
  {
    events := [];
    NarrowSnoc(p, start, events, Begin(0, true), 2);
    events := events + [Begin(0, true)];
    NarrowSnoc(p, start, events, Next(0, Wrong), 2);
    events := events + [Next(0, Wrong)];
    NarrowSnoc(p, start, events, Next(0, Wrong), 2);
    events := events + [Next(0, Wrong)];
    NarrowSnoc(p, start, events, Next(0, Wrong), 2);
    events := events + [Next(0, Wrong)];
  }

  lemma LateWrite(p: Policy, now: int, log: seq<Mark>)
    requires p.threshold >= 1
    ensures Finished(p, Filled(p, now, 1), Counted(0), Wrong, now, log) == Result(Filled(p, now, 1), log)
  {
    var s := Filled(p, now, 1);
    if p.threshold == 1 {
      var until := WholeSeconds(now + p.seconds * SECOND);
      assert Finished(p, s, Locking(until), Wrong, now, log) == Result(s, log);
      assert Finished(p, s, Due, Wrong, now, log) == Result(s, log);
    }
  }

  /** Two attempts that overlap fail twice and count once. */
  lemma Overlap(p: Policy, start: int) returns (events: seq<Event>)
    requires p.threshold >= 1 && p.seconds >= 1
    ensures Narrow(p, start, events, 2)
    ensures Run(p, start, events) == Sys(start, Filled(p, start, 1), map[], [Failure(start), Failure(start)])
  {
    events := HalfWay(p, start);
    OneMore(p, start, 0);
    var half := Sys(start, State(None, None), map[0 := Counted(0)], [Failure(start)]);
    events := Alone(p, start, events, half, 1, Wrong, 2);
    var two := [Failure(start), Failure(start)];
    var both := Sys(start, Filled(p, start, 1), map[0 := Counted(0)], two);
    assert Run(p, start, events).log == two;
    assert Run(p, start, events) == both;
    LateWrite(p, start, two);
    events := Finish(p, start, events, both, 0, Counted(0), Wrong, 2);
    assert both.open - {0} == map[];
  }

  lemma OverlapCount(n: nat, t: int)
    requires n >= 1
    ensures var log := [Failure(t), Failure(t)] + Failures(n - 1, t);
            |Within(log, t, t)| == n + 1 && forall i :: 0 <= i < |log| ==> log[i].Failure?
  {
    FailuresAll(n - 1, t);
    AllWithin([Failure(t), Failure(t)] + Failures(n - 1, t), t, t);
  }

  /** So one failure more fits below the threshold, all at one instant. */
  lemma OverlapEscapes(p: Policy, start: int) returns (events: seq<Event>)
    requires p.threshold >= 1 && p.seconds >= 1
    ensures Narrow(p, start, events, 2)
    ensures var log := Run(p, start, events).log;
            |Within(log, start, start)| == p.threshold + 1 && forall i :: 0 <= i < |log| ==> log[i].Failure?
  {
    events := Overlap(p, start);
    events := FillUp(p, start, events, start, 1, p.threshold, [Failure(start), Failure(start)], 2);
    OverlapCount(p.threshold, start);
  }

  lemma {:induction false} NarrowWider(p: Policy, start: int, events: seq<Event>, j: nat, k: nat)
    requires Narrow(p, start, events, j) && j <= k
    ensures Narrow(p, start, events, k)
  {
    if events != [] {
      NarrowWider(p, start, events[..|events| - 1], j, k);
    }
  }

  /**
    The lockout bounds failed checks on every run with at most `k` attempts open at once, whatever
    happens between their commands, exactly when `k` is at most one.
  */
  lemma LockoutExactly(p: Policy, k: nat)
    requires p.threshold >= 1 && p.seconds >= 1
    ensures (forall start, events :: Narrow(p, start, events, k) ==> Bounded(p, Run(p, start, events).log)) <==> k <= 1
  {
    if k <= 1 {
      forall start, events | Narrow(p, start, events, k)
        ensures Bounded(p, Run(p, start, events).log)
      {
        NarrowWider(p, start, events, k, 1);
        var solo := RunKeeps(p, start, events);
        SpreadBounds(p, solo.log);
      }
    } else {
      var events := OverlapEscapes(p, 0);
      NarrowWider(p, 0, events, 2, k);
      var log := Run(p, 0, events).log;
      assert forall i :: i in Within(log, 0, 0) ==> log[i].Failure?;
      assert !Bounded(p, log);
    }
  }
}
