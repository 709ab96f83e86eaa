/**
  The daily and monthly token quotas: checked before a call, consumed after it, on counters
  that live in Redis a little longer than the bucket they count, beside the usage ledger.
*/
module TokenQuota {
  import opened Options

  const DAY := 86400
  const DAILY_TTL := 86400 * 2
  const MONTHLY_TTL := 86400 * 35

  /** The buckets of one API key, by day number and by month number. */
  datatype Key = Daily(day: int) | Monthly(month: int)

  datatype Entry = Entry(tokens: int, expires: Option<int>)

  type Store = map<Key, Entry>

  /** Which month each day falls in. */
  type Calendar = int -> int

  /** Months come in order and none has more than 31 days. */
  ghost predicate Sensible(cal: Calendar) {
    forall a, b :: a <= b ==> cal(a) <= cal(b) && (cal(a) == cal(b) ==> b - a <= 30)
  }

  function Today(now: int): Key {
    Daily(now / DAY)
  }

  function ThisMonth(cal: Calendar, now: int): Key {
    Monthly(cal(now / DAY))
  }

  predicate Alive(store: Store, key: Key, now: int) {
    key in store && (store[key].expires.Some? ==> now < store[key].expires.value)
  }

  function Read(store: Store, key: Key, now: int): int {
    if Alive(store, key, now) then store[key].tokens else 0
  }

  function Bumped(store: Store, key: Key, tokens: int, now: int): Store {
    if Alive(store, key, now) then store[key := Entry(store[key].tokens + tokens, store[key].expires)]
    else store[key := Entry(tokens, None)]
  }

  function Armed(store: Store, key: Key, ttl: int, now: int): Store {
    if Alive(store, key, now) then store[key := Entry(store[key].tokens, Some(now + ttl))] else store
  }

  class RateLimiter {
    var store: Store

    /** Undisturbed, consuming adds the tokens to both buckets and lets them live two and thirty-five days more. */
    method Consume(tokens: int, cal: Calendar, now: int)
      modifies this
      ensures forall key :: Read(store, key, now) == Read(old(store), key, now) +
                            if key == Today(now) || key == ThisMonth(cal, now) then tokens else 0
      ensures Today(now) in store && store[Today(now)].expires == Some(now + 172800)
      ensures ThisMonth(cal, now) in store && store[ThisMonth(cal, now)].expires == Some(now + 3024000)
      ensures forall later :: Read(store, Today(now), later) ==
                              if later < now + 172800 then Read(store, Today(now), now) else 0
    {
      store := Bumped(store, Today(now), tokens, now);
      store := Armed(store, Today(now), DAILY_TTL, now);
      store := Bumped(store, ThisMonth(cal, now), tokens, now);
      store := Armed(store, ThisMonth(cal, now), MONTHLY_TTL, now);
    }
  }

  // ---- interleaved requests ----

  /**
    Where a request stands: past the daily check, past both, answered and in the ledger, and
    through the four commands that consume.  A request can fail, or be cancelled and leave no
    record, at any of them; it remembers what it had added where.
  */
  datatype Phase =
    | Checked
    | Admitted
    | Spent(tokens: nat)
    | DayBumped(tokens: nat, key: Key)
    | DayArmed(tokens: nat)
    | MonthBumped(tokens: nat, key: Key)
    | Done(tokens: nat)
    | Failed(ledger: nat, day: nat, month: nat)

  datatype Row = Row(success: bool, tokens: nat)

  /** A command that added tokens to a bucket. */
  datatype Bump = Bump(key: Key, tokens: nat)

  datatype State = State(now: int, store: Store, reqs: seq<Phase>, ledger: seq<Row>, bumps: seq<Bump>)

  datatype Limits = Limits(day: int, month: int)

  datatype Event =
    | Tick(d: nat)
    | Arrive
    | CheckMonth(r: nat)
    | Answer(r: nat, tokens: nat)
    | Fail(r: nat, recorded: bool)
    | Consume(r: nat)

  function Weight(m: Measure, p: Phase): nat {
    match m
    case InFlight => if p.Done? || p.Failed? then 0 else 1
    case DayPending => if p.Checked? || p.Admitted? || p.Spent? then 1 else 0
    case MonthPending => if p.Admitted? || p.Spent? || p.DayBumped? || p.DayArmed? then 1 else 0
    case InLedger => if p.Checked? || p.Admitted? then 0 else if p.Failed? then p.ledger else p.tokens
    case InDay => if p.Checked? || p.Admitted? || p.Spent? then 0 else if p.Failed? then p.day else p.tokens
    case InMonth => if p.MonthBumped? || p.Done? then p.tokens else if p.Failed? then p.month else 0
  }

  datatype Measure = InFlight | DayPending | MonthPending | InLedger | InDay | InMonth

  function Sum(m: Measure, reqs: seq<Phase>): nat {
    if reqs == [] then 0 else Sum(m, reqs[..|reqs| - 1]) + Weight(m, reqs[|reqs| - 1])
  }

  function Put(s: State, r: nat, p: Phase): State
    requires r < |s.reqs|
  {
    s.(reqs := s.reqs[r := p])
  }

  function After(s: State, e: Event, limits: Limits, cal: Calendar): State {
    match e
    case Tick(d) => s.(now := s.now + d)
    case Arrive => if Read(s.store, Today(s.now), s.now) < limits.day then s.(reqs := s.reqs + [Checked]) else s
    case CheckMonth(r) =>
      if r >= |s.reqs| || !s.reqs[r].Checked? then s
      else Put(s, r, if Read(s.store, ThisMonth(cal, s.now), s.now) < limits.month then Admitted else Failed(0, 0, 0))
    case Answer(r, tokens) =>
      if r >= |s.reqs| || !s.reqs[r].Admitted? then s
      else Put(s, r, Spent(tokens)).(ledger := s.ledger + [Row(true, tokens)])
    case Fail(r, recorded) =>
      if r >= |s.reqs| || s.reqs[r].Done? || s.reqs[r].Failed? then s
      else
        var p := s.reqs[r];
        Put(s, r, Failed(Weight(InLedger, p), Weight(InDay, p), Weight(InMonth, p)))
          .(ledger := s.ledger + if recorded then [Row(false, 0)] else [])
    case Consume(r) => if r >= |s.reqs| then s else Consumed(s, r, s.reqs[r], cal)
  }

  /** The next of the four commands of `consume_tokens`. */
  function Consumed(s: State, r: nat, p: Phase, cal: Calendar): State
    requires r < |s.reqs|
  {
    match p
    case Spent(tokens) =>
      Put(s, r, DayBumped(tokens, Today(s.now)))
        .(store := Bumped(s.store, Today(s.now), tokens, s.now), bumps := s.bumps + [Bump(Today(s.now), tokens)])
    case DayBumped(tokens, key) => Put(s, r, DayArmed(tokens)).(store := Armed(s.store, key, DAILY_TTL, s.now))
    case DayArmed(tokens) =>
      var key := ThisMonth(cal, s.now);
      Put(s, r, MonthBumped(tokens, key))
        .(store := Bumped(s.store, key, tokens, s.now), bumps := s.bumps + [Bump(key, tokens)])
    case MonthBumped(tokens, key) => Put(s, r, Done(tokens)).(store := Armed(s.store, key, MONTHLY_TTL, s.now))
    case _ => s
  }

  const START := State(0, map[], [], [], [])

  function Run(events: seq<Event>, limits: Limits, cal: Calendar): State {
    if events == [] then START else After(Run(events[..|events| - 1], limits, cal), events[|events| - 1], limits, cal)
  }

  // ---- sums ----

  lemma {:induction false} SumPut(m: Measure, reqs: seq<Phase>, r: nat, p: Phase)
    requires r < |reqs|
    ensures Sum(m, reqs[r := p]) == Sum(m, reqs) - Weight(m, reqs[r]) + Weight(m, p)
    ensures Sum(m, reqs) >= Weight(m, reqs[r])
  {
    var init := reqs[..|reqs| - 1];
    if r < |init| {
      assert reqs[r := p][..|reqs| - 1] == init[r := p];
      SumPut(m, init, r, p);
    } else {
      assert reqs[r := p][..|reqs| - 1] == init;
    }
  }

  lemma SumSnoc(m: Measure, reqs: seq<Phase>, p: Phase)
    ensures Sum(m, reqs + [p]) == Sum(m, reqs) + Weight(m, p)
  {
    assert (reqs + [p])[..|reqs|] == reqs;
  }

  /** Tokens ever added to a bucket. */
  function Added(bumps: seq<Bump>, key: Key): nat {
    if bumps == [] then 0
    else Added(bumps[..|bumps| - 1], key) + if bumps[|bumps| - 1].key == key then bumps[|bumps| - 1].tokens else 0
  }

  lemma AddedSnoc(bumps: seq<Bump>, b: Bump, key: Key)
    ensures Added(bumps + [b], key) == Added(bumps, key) + if b.key == key then b.tokens else 0
  {
    assert (bumps + [b])[..|bumps|] == bumps;
  }

  lemma {:induction false} AddedNone(bumps: seq<Bump>, key: Key)
    requires forall b :: b in bumps ==> b.key != key
    ensures Added(bumps, key) == 0
  {
    if bumps != [] {
      AddedNone(bumps[..|bumps| - 1], key);
      assert bumps[|bumps| - 1] in bumps;
    }
  }

  // ---- a current bucket never expires ----

  /** No moment of the bucket's own day or month is as late as `expires`. */
  ghost predicate Outlives(cal: Calendar, key: Key, expires: int) {
    forall now :: (key == Today(now) || key == ThisMonth(cal, now)) ==> now < expires
  }

  ghost predicate EntryExact(s: State, cal: Calendar, key: Key) {
    if key in s.store then
      s.store[key].tokens == Added(s.bumps, key)
      && (s.store[key].expires.Some? ==> Outlives(cal, key, s.store[key].expires.value))
    else Added(s.bumps, key) == 0
  }

  ghost predicate Exact(s: State, cal: Calendar) {
    forall key :: EntryExact(s, cal, key)
  }

  /** A bucket that is being armed belongs to a moment already reached. */
  ghost predicate KeysPast(s: State, cal: Calendar) {
    && (forall b :: b in s.bumps ==> Past(cal, b.key, s.now))
    && (forall p :: p in s.reqs && p.DayBumped? ==> p.key.Daily? && Past(cal, p.key, s.now))
    && (forall p :: p in s.reqs && p.MonthBumped? ==> p.key.Monthly? && Past(cal, p.key, s.now))
  }

  predicate Past(cal: Calendar, key: Key, now: int) {
    match key
    case Daily(d) => d <= now / DAY
    case Monthly(m) => m <= cal(now / DAY)
  }

  lemma LongEnough(cal: Calendar, key: Key, now: int)
    requires Sensible(cal) && Past(cal, key, now)
    ensures key.Daily? ==> Outlives(cal, key, now + DAILY_TTL)
    ensures key.Monthly? ==> Outlives(cal, key, now + MONTHLY_TTL)
  {
    forall t | key.Monthly? && key == ThisMonth(cal, t)
      ensures t < now + MONTHLY_TTL
    {
      if t >= now {
        assert cal(now / DAY) <= cal(t / DAY);
        assert t / DAY - now / DAY <= 30;
      }
    }
    forall t | key.Daily? && key == Today(t)
      ensures t < now + DAILY_TTL
    {
    }
  }

  lemma ArmKeepsExact(s: State, cal: Calendar, key: Key, ttl: int)
    requires Exact(s, cal) && Outlives(cal, key, s.now + ttl)
    ensures Exact(s.(store := Armed(s.store, key, ttl, s.now)), cal)
  {
    forall k
      ensures EntryExact(s.(store := Armed(s.store, key, ttl, s.now)), cal, k)
    {
      assert EntryExact(s, cal, k) && EntryExact(s, cal, key);
    }
  }

  lemma BumpKeepsExact(s: State, cal: Calendar, key: Key, tokens: nat)
    requires Exact(s, cal) && (key == Today(s.now) || key == ThisMonth(cal, s.now))
    ensures Exact(s.(store := Bumped(s.store, key, tokens, s.now), bumps := s.bumps + [Bump(key, tokens)]), cal)
  {
    var t := s.(store := Bumped(s.store, key, tokens, s.now), bumps := s.bumps + [Bump(key, tokens)]);
    forall k
      ensures EntryExact(t, cal, k)
    {
      assert EntryExact(s, cal, k) && EntryExact(s, cal, key);
      AddedSnoc(s.bumps, Bump(key, tokens), k);
    }
  }

  lemma PastLater(cal: Calendar, key: Key, now: int, d: nat)
    requires Sensible(cal) && Past(cal, key, now)
    ensures Past(cal, key, now + d)
  {
    assert now / DAY <= (now + d) / DAY;
  }

  lemma StepKeysPast(s: State, e: Event, limits: Limits, cal: Calendar)
    requires Sensible(cal) && KeysPast(s, cal)
    ensures KeysPast(After(s, e, limits, cal), cal)
  {
    if e.Tick? {
      forall key | Past(cal, key, s.now)
        ensures Past(cal, key, s.now + e.d)
      {
        PastLater(cal, key, s.now, e.d);
      }
    }
  }

  lemma StepExact(s: State, e: Event, limits: Limits, cal: Calendar)
    requires Sensible(cal) && KeysPast(s, cal) && Exact(s, cal)
    ensures Exact(After(s, e, limits, cal), cal)
  {
    var t := After(s, e, limits, cal);
    if e.Consume? && e.r < |s.reqs| {
      var p := s.reqs[e.r];
      assert p in s.reqs;
      match p
      case Spent(tokens) => BumpKeepsExact(s, cal, Today(s.now), tokens);
      case DayArmed(tokens) => BumpKeepsExact(s, cal, ThisMonth(cal, s.now), tokens);
      case DayBumped(_, key) =>
        LongEnough(cal, key, s.now);
        ArmKeepsExact(s, cal, key, DAILY_TTL);
      case MonthBumped(_, key) =>
        LongEnough(cal, key, s.now);
        ArmKeepsExact(s, cal, key, MONTHLY_TTL);
      case _ =>
    }
    ExactFrame(if e.Consume? && e.r < |s.reqs| then s.(store := t.store, bumps := t.bumps) else s, t, cal);
  }

  lemma ExactFrame(s: State, t: State, cal: Calendar)
    requires Exact(s, cal) && t.store == s.store && t.bumps == s.bumps
    ensures Exact(t, cal)
  {
    forall key
      ensures EntryExact(t, cal, key)
    {
      assert EntryExact(s, cal, key);
    }
  }

  lemma {:induction false} RunExact(events: seq<Event>, limits: Limits, cal: Calendar)
    requires Sensible(cal)
    ensures KeysPast(Run(events, limits, cal), cal) && Exact(Run(events, limits, cal), cal)
  {
    if events != [] {
      var init := events[..|events| - 1];
      RunExact(init, limits, cal);
      StepKeysPast(Run(init, limits, cal), events[|events| - 1], limits, cal);
      StepExact(Run(init, limits, cal), events[|events| - 1], limits, cal);
    }
  }

  lemma ReadIsAdded(s: State, cal: Calendar, key: Key)
    requires Exact(s, cal) && (key == Today(s.now) || key == ThisMonth(cal, s.now))
    ensures Read(s.store, key, s.now) == Added(s.bumps, key)
  {
    assert EntryExact(s, cal, key);
  }

  /** On every run, a read of the current day or month is exactly what has been consumed in it. */
  lemma CurrentBucketsExact(events: seq<Event>, limits: Limits, cal: Calendar)
    requires Sensible(cal)
    ensures var s := Run(events, limits, cal);
            && Read(s.store, Today(s.now), s.now) == Added(s.bumps, Today(s.now))
            && Read(s.store, ThisMonth(cal, s.now), s.now) == Added(s.bumps, ThisMonth(cal, s.now))
  {
    RunExact(events, limits, cal);
    var s := Run(events, limits, cal);
    ReadIsAdded(s, cal, Today(s.now));
    ReadIsAdded(s, cal, ThisMonth(cal, s.now));
  }

  // ---- the overshoot under concurrency ----

  /** Never more than `k` requests in flight, none answered with more than `m` tokens. */
  ghost predicate Calm(events: seq<Event>, limits: Limits, cal: Calendar, k: nat, m: nat) {
    events == [] ||
    (var last := events[|events| - 1];
     && Calm(events[..|events| - 1], limits, cal, k, m)
     && Sum(InFlight, Run(events, limits, cal).reqs) <= k
     && (last.Answer? ==> last.tokens <= m))
  }

  function Cap(limit: int, k: nat, m: nat): nat {
    (if limit >= 1 then limit - 1 else 0) + k * m
  }

  /** A measure's requests could each still spend `m`: the current bucket has room for all of them. */
  ghost predicate Room(s: State, current: Key, pending: Measure, cap: nat, m: nat) {
    Added(s.bumps, current) + Sum(pending, s.reqs) * m <= cap
  }

  ghost predicate Small(s: State, m: nat) {
    forall p :: p in s.reqs ==> Weight(InLedger, p) <= m
  }

  lemma StepSmall(s: State, e: Event, limits: Limits, cal: Calendar, m: nat)
    requires Small(s, m) && (e.Answer? ==> e.tokens <= m)
    ensures Small(After(s, e, limits, cal), m)
  {
    var t := After(s, e, limits, cal);
    forall p | p in t.reqs
      ensures Weight(InLedger, p) <= m
    {
      var i :| 0 <= i < |t.reqs| && t.reqs[i] == p;
      assert i < |s.reqs| ==> s.reqs[i] in s.reqs;
    }
  }

  lemma {:induction false} PendingInFlight(pending: Measure, reqs: seq<Phase>)
    requires pending.DayPending? || pending.MonthPending?
    ensures Sum(pending, reqs) <= Sum(InFlight, reqs)
  {
    if reqs != [] {
      PendingInFlight(pending, reqs[..|reqs| - 1]);
    }
  }

  lemma TimesMonotone(a: nat, b: nat, m: nat)
    requires a <= b
    ensures a * m <= b * m
  {
    assert b * m == a * m + (b - a) * m;
  }

  /** A request admitted below the limit fits, however many are in flight beside it. */
  lemma RoomForNew(t: State, current: Key, pending: Measure, limit: int, k: nat, m: nat)
    requires pending.DayPending? || pending.MonthPending?
    requires Added(t.bumps, current) < limit && Sum(InFlight, t.reqs) <= k
    ensures Room(t, current, pending, Cap(limit, k, m), m)
  {
    PendingInFlight(pending, t.reqs);
    TimesMonotone(Sum(pending, t.reqs), k, m);
  }

  /** A fresh bucket is empty, so it has room for everything in flight. */
  lemma RoomInFresh(t: State, current: Key, pending: Measure, limit: int, k: nat, m: nat)
    requires pending.DayPending? || pending.MonthPending?
    requires forall b :: b in t.bumps ==> b.key != current
    requires Sum(InFlight, t.reqs) <= k
    ensures Room(t, current, pending, Cap(limit, k, m), m)
  {
    AddedNone(t.bumps, current);
    PendingInFlight(pending, t.reqs);
    TimesMonotone(Sum(pending, t.reqs), k, m);
  }

  /** Spending at most `m` gives one request's place back. */
  lemma RoomAfterSpending(added: nat, pending: nat, tokens: nat, cap: nat, m: nat)
    requires added + pending * m <= cap && tokens <= m && pending >= 1
    ensures added + tokens + (pending - 1) * m <= cap
  {
    assert pending * m == (pending - 1) * m + m;
  }

  function Current(cal: Calendar, now: int, pending: Measure): Key {
    if pending.DayPending? then Today(now) else ThisMonth(cal, now)
  }

  function Limit(limits: Limits, pending: Measure): int {
    if pending.DayPending? then limits.day else limits.month
  }

  /** A tick either stays in the bucket or moves on to one nothing was added to. */
  lemma TickKeepsRoom(s: State, d: nat, limits: Limits, cal: Calendar, pending: Measure, k: nat, m: nat)
    requires pending.DayPending? || pending.MonthPending?
    requires Sensible(cal) && KeysPast(s, cal) && Sum(InFlight, s.reqs) <= k
    requires Room(s, Current(cal, s.now, pending), pending, Cap(Limit(limits, pending), k, m), m)
    ensures Room(s.(now := s.now + d), Current(cal, s.now + d, pending), pending, Cap(Limit(limits, pending), k, m), m)
  {
    var t := s.(now := s.now + d);
    var current := Current(cal, t.now, pending);
    if current != Current(cal, s.now, pending) {
      PastLater(cal, ThisMonth(cal, s.now), s.now, d);
      forall b | b in t.bumps
        ensures b.key != current
      {
        assert Past(cal, b.key, s.now);
      }
      RoomInFresh(t, current, pending, Limit(limits, pending), k, m);
    }
  }

  lemma ConsumeKeepsRoom(s: State, r: nat, cal: Calendar, pending: Measure, cap: nat, m: nat)
    requires pending.DayPending? || pending.MonthPending?
    requires Small(s, m) && r < |s.reqs| && Room(s, Current(cal, s.now, pending), pending, cap, m)
    ensures Room(Consumed(s, r, s.reqs[r], cal), Current(cal, s.now, pending), pending, cap, m)
  {
    var p, t := s.reqs[r], Consumed(s, r, s.reqs[r], cal);
    assert p in s.reqs;
    match p
    case Spent(tokens) =>
      BumpKeepsRoom(s, t, r, Bump(Today(s.now), tokens), Current(cal, s.now, pending), pending, cap, m);
    case DayArmed(tokens) =>
      BumpKeepsRoom(s, t, r, Bump(ThisMonth(cal, s.now), tokens), Current(cal, s.now, pending), pending, cap, m);
    case DayBumped(_, _) => PutKeepsRoom(s, t, r, Current(cal, s.now, pending), pending, cap, m);
    case MonthBumped(_, _) => PutKeepsRoom(s, t, r, Current(cal, s.now, pending), pending, cap, m);
    case _ =>
  }

  lemma PutKeepsRoom(s: State, t: State, r: nat, current: Key, pending: Measure, cap: nat, m: nat)
    requires r < |s.reqs| == |t.reqs| && t.reqs == s.reqs[r := t.reqs[r]] && t.bumps == s.bumps
    requires Room(s, current, pending, cap, m) && Weight(pending, t.reqs[r]) <= Weight(pending, s.reqs[r])
    ensures Room(t, current, pending, cap, m)
  {
    SumPut(pending, s.reqs, r, t.reqs[r]);
    TimesMonotone(Sum(pending, t.reqs), Sum(pending, s.reqs), m);
  }

  lemma BumpKeepsRoom(s: State, t: State, r: nat, b: Bump, current: Key, pending: Measure, cap: nat, m: nat)
    requires r < |s.reqs| == |t.reqs| && t.reqs == s.reqs[r := t.reqs[r]] && t.bumps == s.bumps + [b]
    requires Room(s, current, pending, cap, m) && Weight(pending, t.reqs[r]) <= Weight(pending, s.reqs[r])
    requires b.key == current ==> b.tokens <= m && Weight(pending, t.reqs[r]) == 0 && Weight(pending, s.reqs[r]) == 1
    ensures Room(t, current, pending, cap, m)
  {
    SumPut(pending, s.reqs, r, t.reqs[r]);
    AddedSnoc(s.bumps, b, current);
    if b.key == current {
      RoomAfterSpending(Added(s.bumps, current), Sum(pending, s.reqs), b.tokens, cap, m);
    } else {
      TimesMonotone(Sum(pending, t.reqs), Sum(pending, s.reqs), m);
    }
  }

  lemma StepRoom(s: State, e: Event, limits: Limits, cal: Calendar, pending: Measure, k: nat, m: nat)
    requires pending.DayPending? || pending.MonthPending?
    requires Sensible(cal) && KeysPast(s, cal) && Exact(s, cal) && Small(s, m)
    requires Sum(InFlight, After(s, e, limits, cal).reqs) <= k
    requires Room(s, Current(cal, s.now, pending), pending, Cap(Limit(limits, pending), k, m), m)
    ensures var t := After(s, e, limits, cal);
            Room(t, Current(cal, t.now, pending), pending, Cap(Limit(limits, pending), k, m), m)
  {
    match e
    case Tick(d) => TickKeepsRoom(s, d, limits, cal, pending, k, m);
    case Consume(r) =>
      if r < |s.reqs| {
        ConsumeKeepsRoom(s, r, cal, pending, Cap(Limit(limits, pending), k, m), m);
      }
    case Arrive => ArriveKeepsRoom(s, limits, cal, pending, k, m);
    case CheckMonth(r) => CheckKeepsRoom(s, r, limits, cal, pending, k, m);
    case Answer(r, tokens) =>
      if After(s, e, limits, cal) != s {
        PutKeepsRoom(s, After(s, e, limits, cal), r, Current(cal, s.now, pending), pending,
                     Cap(Limit(limits, pending), k, m), m);
      }
    case Fail(r, _) =>
      if After(s, e, limits, cal) != s {
        PutKeepsRoom(s, After(s, e, limits, cal), r, Current(cal, s.now, pending), pending,
                     Cap(Limit(limits, pending), k, m), m);
      }
  }

  lemma ArriveKeepsRoom(s: State, limits: Limits, cal: Calendar, pending: Measure, k: nat, m: nat)
    requires pending.DayPending? || pending.MonthPending?
    requires Exact(s, cal) && Sum(InFlight, After(s, Arrive, limits, cal).reqs) <= k
    requires Room(s, Current(cal, s.now, pending), pending, Cap(Limit(limits, pending), k, m), m)
    ensures Room(After(s, Arrive, limits, cal), Current(cal, s.now, pending), pending,
                 Cap(Limit(limits, pending), k, m), m)
  {
    ReadIsAdded(s, cal, Today(s.now));
    if Read(s.store, Today(s.now), s.now) < limits.day {
      NewKeepsRoom(s, After(s, Arrive, limits, cal), limits, cal, pending, k, m);
    }
  }

  lemma NewKeepsRoom(s: State, t: State, limits: Limits, cal: Calendar, pending: Measure, k: nat, m: nat)
    requires pending.DayPending? || pending.MonthPending?
    requires t.reqs == s.reqs + [Checked] && t.bumps == s.bumps && Sum(InFlight, t.reqs) <= k
    requires Added(s.bumps, Today(s.now)) < limits.day
    requires Room(s, Current(cal, s.now, pending), pending, Cap(Limit(limits, pending), k, m), m)
    ensures Room(t, Current(cal, s.now, pending), pending, Cap(Limit(limits, pending), k, m), m)
  {
    SumSnoc(pending, s.reqs, Checked);
    if pending.DayPending? {
      RoomForNew(t, Today(s.now), pending, limits.day, k, m);
    }
  }

  lemma CheckKeepsRoom(s: State, r: nat, limits: Limits, cal: Calendar, pending: Measure, k: nat, m: nat)
    requires pending.DayPending? || pending.MonthPending?
    requires Exact(s, cal) && Sum(InFlight, After(s, CheckMonth(r), limits, cal).reqs) <= k
    requires Room(s, Current(cal, s.now, pending), pending, Cap(Limit(limits, pending), k, m), m)
    ensures Room(After(s, CheckMonth(r), limits, cal), Current(cal, s.now, pending), pending,
                 Cap(Limit(limits, pending), k, m), m)
  {
    ReadIsAdded(s, cal, ThisMonth(cal, s.now));
    var t := After(s, CheckMonth(r), limits, cal);
    if r < |s.reqs| && s.reqs[r].Checked? {
      if pending.MonthPending? && t.reqs[r].Admitted? {
        RoomForNew(t, ThisMonth(cal, s.now), pending, limits.month, k, m);
      } else {
        PutKeepsRoom(s, t, r, Current(cal, s.now, pending), pending, Cap(Limit(limits, pending), k, m), m);
      }
    }
  }

  lemma {:induction false} RunRoom(events: seq<Event>, limits: Limits, cal: Calendar, pending: Measure, k: nat, m: nat)
    requires pending.DayPending? || pending.MonthPending?
    requires Sensible(cal) && Calm(events, limits, cal, k, m)
    ensures var s := Run(events, limits, cal);
            Small(s, m) && Room(s, Current(cal, s.now, pending), pending, Cap(Limit(limits, pending), k, m), m)
  {
    if events != [] {
      var init, e := events[..|events| - 1], events[|events| - 1];
      RunRoom(init, limits, cal, pending, k, m);
      RunExact(init, limits, cal);
      StepSmall(Run(init, limits, cal), e, limits, cal, m);
      StepRoom(Run(init, limits, cal), e, limits, cal, pending, k, m);
    }
  }

  /**
    Over every interleaving of checks, calls, consumption and bucket rollover with at most `k`
    requests in flight of at most `m` tokens each: usage of the current day and month never
    exceeds the limit less one, plus `k * m`, and there is room left for all requests in flight.
  */
  lemma OvershootBounded(events: seq<Event>, limits: Limits, cal: Calendar, k: nat, m: nat)
    requires Sensible(cal) && Calm(events, limits, cal, k, m)
    ensures var s := Run(events, limits, cal);
            && Read(s.store, Today(s.now), s.now) + Sum(DayPending, s.reqs) * m <= Cap(limits.day, k, m)
            && Read(s.store, ThisMonth(cal, s.now), s.now) + Sum(MonthPending, s.reqs) * m <= Cap(limits.month, k, m)
  {
    RunRoom(events, limits, cal, DayPending, k, m);
    RunRoom(events, limits, cal, MonthPending, k, m);
    CurrentBucketsExact(events, limits, cal);
  }

  // ---- the ledger ----

  function SuccessTokens(ledger: seq<Row>): nat {
    if ledger == [] then 0
    else SuccessTokens(ledger[..|ledger| - 1]) + if ledger[|ledger| - 1].success then ledger[|ledger| - 1].tokens else 0
  }

  lemma SuccessSnoc(ledger: seq<Row>, row: Row)
    ensures SuccessTokens(ledger + [row]) == SuccessTokens(ledger) + if row.success then row.tokens else 0
  {
    assert (ledger + [row])[..|ledger|] == ledger;
  }

  /** All daily or all monthly buckets together. */
  function AddedToAll(bumps: seq<Bump>, daily: bool): nat {
    if bumps == [] then 0
    else
      AddedToAll(bumps[..|bumps| - 1], daily)
      + if bumps[|bumps| - 1].key.Daily? == daily then bumps[|bumps| - 1].tokens else 0
  }

  lemma AllSnoc(bumps: seq<Bump>, b: Bump, daily: bool)
    ensures AddedToAll(bumps + [b], daily) == AddedToAll(bumps, daily) + if b.key.Daily? == daily then b.tokens else 0
  {
    assert (bumps + [b])[..|bumps|] == bumps;
  }

  ghost predicate Balanced(s: State) {
    && SuccessTokens(s.ledger) == Sum(InLedger, s.reqs)
    && AddedToAll(s.bumps, true) == Sum(InDay, s.reqs)
    && AddedToAll(s.bumps, false) == Sum(InMonth, s.reqs)
  }

  function RowTokens(row: Option<Row>): nat {
    if row.Some? && row.value.success then row.value.tokens else 0
  }

  function BumpTokens(bump: Option<Bump>, daily: bool): nat {
    if bump.Some? && bump.value.key.Daily? == daily then bump.value.tokens else 0
  }

  /** One request moves on, and the ledger and the counters get what its new phase says. */
  lemma PutBalanced(s: State, t: State, r: nat, row: Option<Row>, bump: Option<Bump>)
    requires Balanced(s) && r < |s.reqs| == |t.reqs| && t.reqs == s.reqs[r := t.reqs[r]]
    requires t.ledger == s.ledger + if row.Some? then [row.value] else []
    requires t.bumps == s.bumps + if bump.Some? then [bump.value] else []
    requires Weight(InLedger, t.reqs[r]) == Weight(InLedger, s.reqs[r]) + RowTokens(row)
    requires Weight(InDay, t.reqs[r]) == Weight(InDay, s.reqs[r]) + BumpTokens(bump, true)
    requires Weight(InMonth, t.reqs[r]) == Weight(InMonth, s.reqs[r]) + BumpTokens(bump, false)
    ensures Balanced(t)
  {
    SumPut(InLedger, s.reqs, r, t.reqs[r]);
    SumPut(InDay, s.reqs, r, t.reqs[r]);
    SumPut(InMonth, s.reqs, r, t.reqs[r]);
    RowAppended(s.ledger, row);
    BumpAppended(s.bumps, bump, true);
    BumpAppended(s.bumps, bump, false);
  }

  lemma RowAppended(ledger: seq<Row>, row: Option<Row>)
    ensures SuccessTokens(ledger + if row.Some? then [row.value] else []) == SuccessTokens(ledger) + RowTokens(row)
  {
    if row.Some? {
      SuccessSnoc(ledger, row.value);
    } else {
      assert ledger + [] == ledger;
    }
  }

  lemma BumpAppended(bumps: seq<Bump>, bump: Option<Bump>, daily: bool)
    ensures AddedToAll(bumps + (if bump.Some? then [bump.value] else []), daily) ==
            AddedToAll(bumps, daily) + BumpTokens(bump, daily)
  {
    if bump.Some? {
      AllSnoc(bumps, bump.value, daily);
    } else {
      assert bumps + [] == bumps;
    }
  }

  lemma StepBalanced(s: State, e: Event, limits: Limits, cal: Calendar)
    requires Balanced(s)
    ensures Balanced(After(s, e, limits, cal))
  {
    match e
    case Tick(_) =>
    case Arrive => ArriveBalanced(s, limits, cal);
    case Consume(r) =>
      if r < |s.reqs| {
        ConsumeBalanced(s, r, limits, cal);
      }
    case CheckMonth(r) => CheckBalanced(s, r, limits, cal);
    case Answer(r, tokens) => AnswerBalanced(s, r, tokens, limits, cal);
    case Fail(r, recorded) => FailBalanced(s, r, recorded, limits, cal);
  }

  lemma ArriveBalanced(s: State, limits: Limits, cal: Calendar)
    requires Balanced(s)
    ensures Balanced(After(s, Arrive, limits, cal))
  {
    if Read(s.store, Today(s.now), s.now) < limits.day {
      SnocBalanced(s, After(s, Arrive, limits, cal));
    }
  }

  lemma SnocBalanced(s: State, t: State)
    requires Balanced(s) && t.reqs == s.reqs + [Checked] && t.ledger == s.ledger && t.bumps == s.bumps
    ensures Balanced(t)
  {
    SumSnoc(InLedger, s.reqs, Checked);
    SumSnoc(InDay, s.reqs, Checked);
    SumSnoc(InMonth, s.reqs, Checked);
  }

  lemma CheckBalanced(s: State, r: nat, limits: Limits, cal: Calendar)
    requires Balanced(s)
    ensures Balanced(After(s, CheckMonth(r), limits, cal))
  {
    assert s.ledger + [] == s.ledger && s.bumps + [] == s.bumps;
    if r < |s.reqs| && s.reqs[r].Checked? {
      PutBalanced(s, After(s, CheckMonth(r), limits, cal), r, None, None);
    }
  }

  lemma AnswerBalanced(s: State, r: nat, tokens: nat, limits: Limits, cal: Calendar)
    requires Balanced(s)
    ensures Balanced(After(s, Answer(r, tokens), limits, cal))
  {
    assert s.bumps + [] == s.bumps;
    if r < |s.reqs| && s.reqs[r].Admitted? {
      PutBalanced(s, After(s, Answer(r, tokens), limits, cal), r, Some(Row(true, tokens)), None);
    }
  }

  lemma FailBalanced(s: State, r: nat, recorded: bool, limits: Limits, cal: Calendar)
    requires Balanced(s)
    ensures Balanced(After(s, Fail(r, recorded), limits, cal))
  {
    assert s.bumps + [] == s.bumps;
    if r < |s.reqs| && !s.reqs[r].Done? && !s.reqs[r].Failed? {
      var row := if recorded then Some(Row(false, 0)) else None;
      PutBalanced(s, After(s, Fail(r, recorded), limits, cal), r, row, None);
    }
  }

  lemma ConsumeBalanced(s: State, r: nat, limits: Limits, cal: Calendar)
    requires Balanced(s) && r < |s.reqs|
    ensures Balanced(After(s, Consume(r), limits, cal))
  {
    var t := After(s, Consume(r), limits, cal);
    assert s.ledger + [] == s.ledger && s.bumps + [] == s.bumps;
    match s.reqs[r]
    case Spent(tokens) => PutBalanced(s, t, r, None, Some(Bump(Today(s.now), tokens)));
    case DayArmed(tokens) => PutBalanced(s, t, r, None, Some(Bump(ThisMonth(cal, s.now), tokens)));
    case DayBumped(_, _) => PutBalanced(s, t, r, None, None);
    case MonthBumped(_, _) => PutBalanced(s, t, r, None, None);
    case _ =>
  }

  lemma {:induction false} RunBalanced(events: seq<Event>, limits: Limits, cal: Calendar)
    ensures Balanced(Run(events, limits, cal))
  {
    if events != [] {
      RunBalanced(events[..|events| - 1], limits, cal);
      StepBalanced(Run(events[..|events| - 1], limits, cal), events[|events| - 1], limits, cal);
    }
  }

  ghost predicate Settled(reqs: seq<Phase>, m: Measure) {
    forall p :: p in reqs ==> Weight(m, p) == Weight(InLedger, p)
  }

  lemma {:induction false} SumsCompare(reqs: seq<Phase>, m: Measure)
    requires m.InDay? || m.InMonth?
    requires forall p :: p in reqs ==> Weight(m, p) <= Weight(InLedger, p)
    ensures Sum(m, reqs) <= Sum(InLedger, reqs)
    ensures Sum(m, reqs) == Sum(InLedger, reqs) <==> Settled(reqs, m)
  {
    if reqs != [] {
      var init, last := reqs[..|reqs| - 1], reqs[|reqs| - 1];
      assert reqs == init + [last];
      SumsCompare(init, m);
      assert Weight(m, last) <= Weight(InLedger, last);
    }
  }

  /** A failed request never counted more than its ledger row. */
  ghost predicate FailedBelow(s: State) {
    forall p :: p in s.reqs ==> Weight(InDay, p) <= Weight(InLedger, p) && Weight(InMonth, p) <= Weight(InLedger, p)
  }

  lemma {:induction false} RunFailedBelow(events: seq<Event>, limits: Limits, cal: Calendar)
    ensures FailedBelow(Run(events, limits, cal))
  {
    if events != [] {
      RunFailedBelow(events[..|events| - 1], limits, cal);
      StepFailedBelow(Run(events[..|events| - 1], limits, cal), events[|events| - 1], limits, cal);
    }
  }

  lemma StepFailedBelow(s: State, e: Event, limits: Limits, cal: Calendar)
    requires FailedBelow(s)
    ensures FailedBelow(After(s, e, limits, cal))
  {
  }

  /** The request was answered with tokens that the day's or the month's counter has yet to get. */
  predicate Uncounted(m: Measure, p: Phase) {
    && (p.Spent? || (m.InMonth? && (p.DayBumped? || p.DayArmed?)))
    && p.tokens > 0
  }

  /** The event fails a request between its answer and the command that counts its tokens. */
  predicate Loses(s: State, e: Event, m: Measure) {
    e.Fail? && e.r < |s.reqs| && Uncounted(m, s.reqs[e.r])
  }

  ghost predicate LosesNothing(events: seq<Event>, limits: Limits, cal: Calendar, m: Measure) {
    events == [] || (LosesNothing(events[..|events| - 1], limits, cal, m)
                     && !Loses(Run(events[..|events| - 1], limits, cal), events[|events| - 1], m))
  }

  /** A failed request whose ledger row has tokens that the counter never got. */
  predicate Lost(m: Measure, p: Phase) {
    p.Failed? && Weight(m, p) < p.ledger
  }

  ghost predicate NoneLost(reqs: seq<Phase>, m: Measure) {
    forall i :: 0 <= i < |reqs| ==> !Lost(m, reqs[i])
  }

  lemma PhaseSettled(m: Measure, p: Phase)
    requires m.InDay? || m.InMonth?
    requires Weight(m, p) <= Weight(InLedger, p)
    ensures Weight(m, p) == Weight(InLedger, p) <==> !Lost(m, p) && !Uncounted(m, p)
  {
  }

  lemma StepLost(s: State, e: Event, limits: Limits, cal: Calendar, m: Measure)
    requires m.InDay? || m.InMonth?
    ensures NoneLost(After(s, e, limits, cal).reqs, m) <==> NoneLost(s.reqs, m) && !Loses(s, e, m)
  {
    var t := After(s, e, limits, cal);
    assert |s.reqs| <= |t.reqs|;
    forall i | 0 <= i < |t.reqs|
      ensures Lost(m, t.reqs[i]) <==> i < |s.reqs| && (Lost(m, s.reqs[i]) || (Loses(s, e, m) && i == e.r))
    {
    }
  }

  lemma {:induction false} RunLost(events: seq<Event>, limits: Limits, cal: Calendar, m: Measure)
    requires m.InDay? || m.InMonth?
    ensures NoneLost(Run(events, limits, cal).reqs, m) <==> LosesNothing(events, limits, cal, m)
  {
    if events != [] {
      RunLost(events[..|events| - 1], limits, cal, m);
      StepLost(Run(events[..|events| - 1], limits, cal), events[|events| - 1], limits, cal, m);
    }
  }

  ghost predicate AllCounted(reqs: seq<Phase>, m: Measure) {
    forall p :: p in reqs ==> !Uncounted(m, p)
  }

  lemma SettledExactly(s: State, m: Measure)
    requires m.InDay? || m.InMonth?
    requires FailedBelow(s)
    ensures Settled(s.reqs, m) <==> NoneLost(s.reqs, m) && AllCounted(s.reqs, m)
  {
    forall p | p in s.reqs
      ensures Weight(m, p) == Weight(InLedger, p) <==> !Lost(m, p) && !Uncounted(m, p)
    {
      PhaseSettled(m, p);
    }
    if Settled(s.reqs, m) {
      forall i | 0 <= i < |s.reqs|
        ensures !Lost(m, s.reqs[i])
      {
        assert s.reqs[i] in s.reqs;
      }
    }
  }

  /**
    On every run the day counters and the month counters, each summed over all buckets, never exceed
    the tokens of the ledger's success rows.  They are equal exactly when no request failed between
    its answer and the command that counts its tokens, and none is between the two now.
  */
  lemma CountersMatchLedger(events: seq<Event>, limits: Limits, cal: Calendar, m: Measure)
    requires m.InDay? || m.InMonth?
    ensures var s := Run(events, limits, cal);
            && AddedToAll(s.bumps, m.InDay?) <= SuccessTokens(s.ledger)
            && (AddedToAll(s.bumps, m.InDay?) == SuccessTokens(s.ledger) <==>
                LosesNothing(events, limits, cal, m) && AllCounted(s.reqs, m))
  {
    var s := Run(events, limits, cal);
    RunBalanced(events, limits, cal);
    RunFailedBelow(events, limits, cal);
    SumsCompare(s.reqs, m);
    SettledExactly(s, m);
    RunLost(events, limits, cal, m);
  }
}
