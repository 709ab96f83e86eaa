/**
  Admission through the gateway: one breaker a provider, a fallback search that asks every
  candidate's breaker and uses the first, and the reports a call makes or fails to make.
*/
module Gateway {
  import opened Basics
  import opened Options
  import B = Breaker

  const BREAKER := B.Config(5, 30, 3)

  /** A provider's name: the key of its breaker. */
  datatype Name = Name(text: string)

  /** A fallback model with its provider; `usable` says both are found and enabled. */
  datatype Candidate = Candidate(model: int, provider: Name, usable: bool)

  /** How an admitted call ends: a cancelled call, or one whose client has gone, passes every handler by. */
  datatype Ending = BuildFailed | Abandoned | Answered | CallFailed | FailedLate

  predicate Reports(ending: Ending) {
    !ending.BuildFailed? && !ending.Abandoned?
  }

  type Breakers = map<Name, B.State>

  function Of(breakers: Breakers, name: Name): B.State {
    if name in breakers then breakers[name] else B.INITIAL
  }

  function Asked(breakers: Breakers, name: Name, now: int): (Breakers, bool) {
    var (b, ok) := B.Allowed(BREAKER, Of(breakers, name), now);
    (breakers[name := b], ok)
  }

  predicate Considered(x: Candidate, exclude: int) {
    x.model != exclude && x.usable
  }

  /** Every considered candidate's breaker is asked, in order and each by its own clock; the granted ones are kept. */
  function Fallbacks(breakers: Breakers, group: seq<Candidate>, exclude: int, clock: seq<int>)
    : (Breakers, seq<Candidate>)
    requires |clock| == |group|
    decreases |group|
  {
    if group == [] then (breakers, [])
    else if !Considered(group[0], exclude) then Fallbacks(breakers, group[1..], exclude, clock[1..])
    else
      var (bs, ok) := Asked(breakers, group[0].provider, clock[0]);
      var (end, got) := Fallbacks(bs, group[1..], exclude, clock[1..]);
      (end, if ok then [group[0]] + got else got)
  }

  datatype Admission = Admission(breakers: Breakers, chosen: Option<Name>, granted: seq<Candidate>)

  /** The primary's breaker first; if it refuses, the first granted fallback, though all were asked. */
  function Admitted(breakers: Breakers, model: int, provider: Name, group: seq<Candidate>, now: int, clock: seq<int>)
    : Admission
    requires |clock| == |group|
  {
    var (bs, ok) := Asked(breakers, provider, now);
    if ok then Admission(bs, Some(provider), [Candidate(model, provider, true)])
    else
      var (bs', got) := Fallbacks(bs, group, model, clock);
      Admission(bs', if got == [] then None else Some(got[0].provider), got)
  }

  function Reported(b: B.State, ending: Ending, now: int): B.State {
    match ending
    case BuildFailed => b
    case Abandoned => b
    case Answered => B.Succeeded(BREAKER, b)
    case CallFailed => B.Failed(BREAKER, b, now)
    case FailedLate => B.Failed(BREAKER, B.Succeeded(BREAKER, b), now)
  }

  class Manager {
    var breakers: Breakers

    constructor ()
      ensures breakers == map[]
    {
      breakers := map[];
    }

    method AllowRequest(name: Name, now: int) returns (ok: bool)
      modifies this
      ensures (breakers, ok) == Asked(old(breakers), name, now)
    {
      if name !in breakers {
        breakers := breakers[name := B.INITIAL];
      }
      var (b, granted) := B.Allowed(BREAKER, breakers[name], now);
      breakers := breakers[name := b];
      assert breakers == old(breakers)[name := b];
      ok := granted;
    }

    method GetFallbackModels(group: seq<Candidate>, exclude: int, clock: seq<int>) returns (got: seq<Candidate>)
      requires |clock| == |group|
      modifies this
      ensures (breakers, got) == Fallbacks(old(breakers), group, exclude, clock)
    {
      got := [];
      assert group[0..] == group && clock[0..] == clock;
      for i := 0 to |group|
        invariant var rest := Fallbacks(breakers, group[i..], exclude, clock[i..]);
                  Fallbacks(old(breakers), group, exclude, clock).0 == rest.0
                  && Fallbacks(old(breakers), group, exclude, clock).1 == got + rest.1
      {
        assert group[i..][1..] == group[i + 1..] && clock[i..][1..] == clock[i + 1..];
        if group[i].usable && group[i].model != exclude {
          var ok := AllowRequest(group[i].provider, clock[i]);
          if ok {
            got := got + [group[i]];
          }
        }
      }
      assert group[|group|..] == [] && got + [] == got;
    }

    method Admit(model: int, provider: Name, group: seq<Candidate>, now: int, clock: seq<int>)
      returns (chosen: Option<Name>)
      requires |clock| == |group|
      modifies this
      ensures var a := Admitted(old(breakers), model, provider, group, now, clock);
              breakers == a.breakers && chosen == a.chosen
    {
      var ok := AllowRequest(provider, now);
      if ok {
        return Some(provider);
      }
      var got := GetFallbackModels(group, model, clock);
      chosen := if got == [] then None else Some(got[0].provider);
    }

    method Report(name: Name, ending: Ending, now: int)
      requires name in breakers
      modifies this
      ensures breakers == old(breakers)[name := Reported(old(breakers)[name], ending, now)]
    {
      if ending.Answered? || ending.FailedLate? {
        breakers := breakers[name := B.Succeeded(BREAKER, breakers[name])];
      }
      if ending.CallFailed? || ending.FailedLate? {
        breakers := breakers[name := B.Failed(BREAKER, breakers[name], now)];
      }
    }
  }

  // ---- who is granted, told from the breakers as they stand before the search ----

  predicate IsPast(b: B.State, at: int) {
    at - b.lastFailure > BREAKER.timeout
  }

  /** The first of the readings at which an open breaker's timeout is over; their number if there is none. */
  function FirstPast(b: B.State, times: seq<int>): (n: nat)
    ensures n <= |times| && (n < |times| ==> IsPast(b, times[n]))
    ensures forall k :: 0 <= k < n ==> !IsPast(b, times[k])
  {
    if times == [] then 0
    else
      var n := FirstPast(b, times[..|times| - 1]);
      if n < |times| - 1 || IsPast(b, times[|times| - 1]) then n else |times|
  }

  /** Would the breaker grant at `now`, after earlier asks at these readings, whatever the clock does? */
  predicate HasRoom(b: B.State, now: int, earlier: seq<int>) {
    match b.mode
    case Closed => true
    case HalfOpen => b.calls + |earlier| < BREAKER.maxCalls
    case Open =>
      var past := FirstPast(b, earlier);
      if past < |earlier| then |earlier| - past < BREAKER.maxCalls else IsPast(b, now)
  }

  /** An ask of a provider's breaker at a clock reading. */
  datatype Ask = Ask(provider: Name, at: int)

  function TimesOf(asks: seq<Ask>, q: Name): seq<int> {
    if asks == [] then []
    else TimesOf(asks[..|asks| - 1], q) + if asks[|asks| - 1].provider == q then [asks[|asks| - 1].at] else []
  }

  /** The considered candidates whose breaker has room, at their own reading, left by the ones asked before them. */
  function WithRoom(breakers: Breakers, asks: seq<Ask>, group: seq<Candidate>, exclude: int, clock: seq<int>)
    : seq<Candidate>
    requires |clock| == |group|
    decreases |group|
  {
    if group == [] then []
    else if !Considered(group[0], exclude) then WithRoom(breakers, asks, group[1..], exclude, clock[1..])
    else
      var q := group[0].provider;
      var more := WithRoom(breakers, asks + [Ask(q, clock[0])], group[1..], exclude, clock[1..]);
      if HasRoom(Of(breakers, q), clock[0], TimesOf(asks, q)) then [group[0]] + more else more
  }

  function AskedAt(b: B.State, times: seq<int>): B.State {
    if times == [] then b
    else B.Allowed(BREAKER, AskedAt(b, times[..|times| - 1]), times[|times| - 1]).0
  }

  /** What asks do to a breaker that is half-open with some permits taken. */
  function Taken(b: B.State, asks: nat): B.State {
    if b.calls >= BREAKER.maxCalls then b
    else b.(calls := if b.calls + asks < BREAKER.maxCalls then b.calls + asks else BREAKER.maxCalls)
  }

  function AskedForm(b: B.State, times: seq<int>): B.State {
    match b.mode
    case Closed => b
    case HalfOpen => Taken(b, |times|)
    case Open =>
      var past := FirstPast(b, times);
      if past == |times| then b else Taken(b.(mode := B.HalfOpen, calls := 0, successes := 0), |times| - past)
  }

  lemma PastSnoc(b: B.State, times: seq<int>, now: int)
    ensures FirstPast(b, times + [now]) ==
            if FirstPast(b, times) < |times| || IsPast(b, now) then FirstPast(b, times) else |times| + 1
  {
    assert (times + [now])[..|times|] == times;
  }

  /** One more ask of a breaker in that form. */
  lemma AskOnce(b: B.State, times: seq<int>, now: int)
    ensures B.Allowed(BREAKER, AskedForm(b, times), now).0 == AskedForm(b, times + [now])
    ensures B.Allowed(BREAKER, AskedForm(b, times), now).1 <==> HasRoom(b, now, times)
  {
    PastSnoc(b, times, now);
  }

  lemma {:induction false} AskedAtForm(b: B.State, times: seq<int>)
    ensures AskedAt(b, times) == AskedForm(b, times)
  {
    if times == [] {
    } else {
      var init, last := times[..|times| - 1], times[|times| - 1];
      assert times == init + [last];
      AskedAtForm(b, init);
      AskOnce(b, init, last);
    }
  }

  /** The breakers after these asks. */
  ghost predicate AskedOf(first: Breakers, breakers: Breakers, asks: seq<Ask>) {
    forall q :: Of(breakers, q) == AskedAt(Of(first, q), TimesOf(asks, q))
  }

  /** The granted candidates are those with room, whatever the readings. */
  lemma {:induction false} GrantedHaveRoom(first: Breakers, breakers: Breakers, asks: seq<Ask>, group: seq<Candidate>,
                                           exclude: int, clock: seq<int>)
    requires |clock| == |group| && AskedOf(first, breakers, asks)
    ensures Fallbacks(breakers, group, exclude, clock).1 == WithRoom(first, asks, group, exclude, clock)
    decreases |group|
  {
    if group != [] {
      if Considered(group[0], exclude) {
        var p := group[0].provider;
        AskedAtForm(Of(first, p), TimesOf(asks, p));
        AskOnce(Of(first, p), TimesOf(asks, p), clock[0]);
        AskedOnce(first, breakers, asks, p, clock[0]);
        GrantedHaveRoom(first, Asked(breakers, p, clock[0]).0, asks + [Ask(p, clock[0])], group[1..], exclude,
                        clock[1..]);
      } else {
        GrantedHaveRoom(first, breakers, asks, group[1..], exclude, clock[1..]);
      }
    }
  }

  lemma TimesSnoc(asks: seq<Ask>, x: Ask, q: Name)
    ensures TimesOf(asks + [x], q) == TimesOf(asks, q) + if x.provider == q then [x.at] else []
  {
    assert (asks + [x])[..|asks|] == asks;
  }

  lemma AskedOnce(first: Breakers, breakers: Breakers, asks: seq<Ask>, p: Name, now: int)
    requires AskedOf(first, breakers, asks)
    ensures AskedOf(first, Asked(breakers, p, now).0, asks + [Ask(p, now)])
  {
    var after := Asked(breakers, p, now).0;
    forall q
      ensures Of(after, q) == AskedAt(Of(first, q), TimesOf(asks + [Ask(p, now)], q))
    {
      assert Of(breakers, q) == AskedAt(Of(first, q), TimesOf(asks, q));
      TimesSnoc(asks, Ask(p, now), q);
      if q == p {
        AskedAtSnoc(Of(first, q), TimesOf(asks, q), now);
      } else {
        assert TimesOf(asks, q) + [] == TimesOf(asks, q);
      }
    }
  }

  lemma AskedAtSnoc(b: B.State, times: seq<int>, now: int)
    ensures AskedAt(b, times + [now]) == B.Allowed(BREAKER, AskedAt(b, times), now).0
  {
    assert (times + [now])[..|times|] == times;
  }

  // ---- what one request leaks ----

  /** Grants a request took and nobody will report. */
  function Unreported(a: Admission, ending: Ending): int {
    |a.granted| - One(a.granted != [] && Reports(ending))
  }

  /**
    Whatever the clock reads at each ask, a request that no other disturbs leaks no grant exactly when
    nobody has room for it, or its call ends in a report and the primary has room or just one
    considered candidate has.
  */
  lemma LeaksNothingExactly(breakers: Breakers, model: int, provider: Name, group: seq<Candidate>, now: int,
                            clock: seq<int>, ending: Ending)
    requires |clock| == |group|
    ensures var a := Admitted(breakers, model, provider, group, now, clock);
            var primary := HasRoom(Of(breakers, provider), now, []);
            var others := WithRoom(breakers, [], group, model, clock);
            Unreported(a, ending) == 0 <==>
              || (!primary && others == [])
              || (Reports(ending) && (primary || |others| == 1))
  {
    AskOnce(Of(breakers, provider), [], now);
    var (bs, ok) := Asked(breakers, provider, now);
    if !ok {
      GrantedHaveRoom(bs, bs, [], group, model, clock);
      RefusalKeeps(breakers, provider, now);
      SameRoom(bs, breakers, [], group, model, clock);
    }
  }

  /** A refused ask leaves every breaker as it was. */
  lemma RefusalKeeps(breakers: Breakers, provider: Name, now: int)
    requires !Asked(breakers, provider, now).1
    ensures forall q :: Of(Asked(breakers, provider, now).0, q) == Of(breakers, q)
  {
  }

  lemma {:induction false} SameRoom(a: Breakers, b: Breakers, asks: seq<Ask>, group: seq<Candidate>, exclude: int,
                                    clock: seq<int>)
    requires |clock| == |group| && forall q :: Of(a, q) == Of(b, q)
    ensures WithRoom(a, asks, group, exclude, clock) == WithRoom(b, asks, group, exclude, clock)
    decreases |group|
  {
    if group != [] {
      SameRoom(a, b, asks, group[1..], exclude, clock[1..]);
      SameRoom(a, b, asks + [Ask(group[0].provider, clock[0])], group[1..], exclude, clock[1..]);
    }
  }

  function OpenSince(at: int): B.State {
    B.INITIAL.(mode := B.Open, lastFailure := at)
  }

  lemma RoomOfTwo(breakers: Breakers, x: Candidate, y: Candidate, exclude: int, s: int, t: int)
    requires Considered(x, exclude) && Considered(y, exclude) && x.provider != y.provider
    ensures WithRoom(breakers, [], [x, y], exclude, [s, t]) ==
            (if HasRoom(Of(breakers, x.provider), s, []) then [x] else [])
            + if HasRoom(Of(breakers, y.provider), t, []) then [y] else []
  {
    var asks := [] + [Ask(x.provider, s)];
    TimesSnoc([], Ask(x.provider, s), y.provider);
    assert [s, t][1..] == [t] && [x, y][1..] == [y] && [t][1..] == [] && [y][1..] == [];
    assert WithRoom(breakers, asks, [y], exclude, [t]) ==
           if HasRoom(Of(breakers, y.provider), t, []) then [y] else [];
  }

  /** One reading later can be one leaked grant more: the second candidate's timeout ends during the search. */
  lemma LaterReadingLeaks(primary: Name, x: Candidate, y: Candidate, t: int)
    requires primary != x.provider && primary != y.provider && x.provider != y.provider
    requires Considered(x, 0) && Considered(y, 0) && t >= 30
    ensures var breakers := map[primary := OpenSince(30), y.provider := OpenSince(0)];
            Unreported(Admitted(breakers, 0, primary, [x, y], 30, [30, t]), Answered) == if t == 30 then 0 else 1
  {
    var breakers := map[primary := OpenSince(30), y.provider := OpenSince(0)];
    var bs := Asked(breakers, primary, 30).0;
    RoomOfTwo(breakers, x, y, 0, 30, t);
    RefusalKeeps(breakers, primary, 30);
    SameRoom(bs, breakers, [], [x, y], 0, [30, t]);
    GrantedHaveRoom(bs, bs, [], [x, y], 0, [30, t]);
  }

  lemma {:induction false} RepeatTail(now: int, n: nat)
    requires n > 0
    ensures Repeat(now, n)[0] == now && Repeat(now, n)[1..] == Repeat(now, n - 1)
  {
    if n > 1 {
      RepeatTail(now, n - 1);
      assert Repeat(now, n)[1..] == Repeat(now, n - 1)[1..] + [now];
    }
  }

  // ---- overlapping requests, one command at a time ----

  /** The `number`-th grant of a provider's breaker. */
  datatype Grant = Grant(provider: Name, number: nat)

  /** Where a request stands, with the grants it holds and has not reported. */
  datatype Phase =
    | Searching(model: int, rest: seq<Candidate>, got: seq<Grant>)
    | Building(grant: Grant)
    | Running(grant: Grant)
    | Succeeded(grant: Grant)
    | Ended

  /** Every event is one command with its own clock reading; other requests come in between. */
  datatype Event =
    | Arrive(req: nat, model: int, provider: Name, group: seq<Candidate>, now: int)
    | AskNext(req: nat, now: int)
    | Build(req: nat, ok: bool)
    | Answer(req: nat)
    | Fail(req: nat, now: int)
    | Close(req: nat)
    | Abandon(req: nat)
    | Status(provider: Name, now: int)
    | Reset(provider: Name)

  datatype Gate = Gate(providers: map<Name, B.Sys>, requests: map<nat, Phase>, leaked: set<Grant>)

  const START := Gate(map[], map[], {})

  function Sys(g: Gate, q: Name): B.Sys {
    if q in g.providers then g.providers[q] else B.START
  }

  function At(g: Gate, req: nat): Phase {
    if req in g.requests then g.requests[req] else Ended
  }

  function Held(p: Phase): set<Grant> {
    match p
    case Searching(_, _, got) => set x | x in got
    case Building(grant) => {grant}
    case Running(grant) => {grant}
    case Succeeded(_) => {}
    case Ended => {}
  }

  /** One breaker takes one step. */
  function Stepped(g: Gate, q: Name, op: B.Op, now: int): Gate {
    g.(providers := g.providers[q := B.After(BREAKER, Sys(g, q), B.Event(op, now))])
  }

  predicate Grants(g: Gate, q: Name, now: int) {
    B.Granted(BREAKER, Sys(g, q), B.Event(B.Allow, now))
  }

  function Moved(g: Gate, req: nat, to: Phase): Gate {
    g.(requests := g.requests[req := to])
  }

  /** Grants the request held and does not take along are leaked. */
  function Dropping(g: Gate, req: nat, to: Phase): Gate {
    Moved(g, req, to).(leaked := g.leaked + (Held(At(g, req)) - Held(to)))
  }

  function After(g: Gate, e: Event): Gate {
    match e
    case Arrive(req, model, provider, group, now) =>
      if req in g.requests then g
      else
        var g' := Stepped(g, provider, B.Allow, now);
        if Grants(g, provider, now) then Moved(g', req, Building(Grant(provider, Sys(g, provider).granted)))
        else Moved(g', req, Searching(model, group, []))
    case AskNext(req, now) => if At(g, req).Searching? then Searched(g, req, At(g, req), now) else g
    case Build(req, ok) =>
      if !At(g, req).Building? then g
      else if ok then Moved(g, req, Running(At(g, req).grant))
      else Dropping(g, req, Ended)
    case Answer(req) =>
      if !At(g, req).Running? then g
      else
        var grant := At(g, req).grant;
        Moved(Stepped(g, grant.provider, B.Succeed(grant.number), 0), req, Succeeded(grant))
    case Fail(req, now) =>
      if !At(g, req).Running? && !At(g, req).Succeeded? then g
      else
        var grant := At(g, req).grant;
        Moved(Stepped(g, grant.provider, B.Fail(grant.number), now), req, Ended)
    case Close(req) => if At(g, req).Succeeded? then Moved(g, req, Ended) else g
    case Abandon(req) => Dropping(g, req, Ended)
    case Status(provider, now) => Stepped(g, provider, B.Look, now)
    case Reset(provider) => Stepped(g, provider, B.Reset, 0)
  }

  /** The next candidate is asked; at the end the first grant is used and the others are let go. */
  function Searched(g: Gate, req: nat, p: Phase, now: int): Gate
    requires p.Searching?
  {
    if p.rest == [] then Dropping(g, req, if p.got == [] then Ended else Building(p.got[0]))
    else if !Considered(p.rest[0], p.model) then Moved(g, req, p.(rest := p.rest[1..]))
    else
      var q := p.rest[0].provider;
      var got := if Grants(g, q, now) then p.got + [Grant(q, Sys(g, q).granted)] else p.got;
      Moved(Stepped(g, q, B.Allow, now), req, Searching(p.model, p.rest[1..], got))
  }

  function Run(events: seq<Event>): Gate {
    if events == [] then START else After(Run(events[..|events| - 1]), events[|events| - 1])
  }

  /** Every unreported grant of a breaker's present account is leaked or held by a request. */
  ghost predicate Traced(g: Gate) {
    forall q, n :: n in Sys(g, q).open ==> TracedGrant(g, Grant(q, n))
  }

  ghost predicate TracedGrant(g: Gate, x: Grant) {
    x in g.leaked || exists req :: req in g.requests && x in Held(g.requests[req])
  }

  ghost predicate AllBacked(g: Gate) {
    forall q :: B.Backed(BREAKER, Sys(g, q))
  }

  /** The step an event makes some breaker take. */
  function Touch(g: Gate, e: Event): B.Event {
    match e
    case Arrive(_, _, _, _, now) => B.Event(B.Allow, now)
    case AskNext(_, now) => B.Event(B.Allow, now)
    case Answer(req) => B.Event(B.Succeed(if At(g, req).Running? then At(g, req).grant.number else 0), 0)
    case Fail(req, now) =>
      B.Event(B.Fail(if At(g, req).Running? || At(g, req).Succeeded? then At(g, req).grant.number else 0), now)
    case Status(_, now) => B.Event(B.Look, now)
    case _ => B.Event(B.Reset, 0)
  }

  lemma OneStep(g: Gate, e: Event, q: Name)
    ensures Sys(After(g, e), q) == Sys(g, q) || Sys(After(g, e), q) == B.After(BREAKER, Sys(g, q), Touch(g, e))
  {
    match e
    case Arrive(_, _, _, _, _) =>
    case AskNext(_, _) =>
    case Answer(_) =>
    case Fail(_, _) =>
    case _ =>
  }

  lemma StepsBacked(g: Gate, e: Event)
    requires AllBacked(g)
    ensures AllBacked(After(g, e))
  {
    var g' := After(g, e);
    forall q
      ensures B.Backed(BREAKER, Sys(g', q))
    {
      OneStep(g, e, q);
      StepBacked(Sys(g, q), Sys(g', q), Touch(g, e));
    }
  }

  lemma StepBacked(s: B.Sys, s': B.Sys, e: B.Event)
    requires B.Backed(BREAKER, s) && (s' == s || s' == B.After(BREAKER, s, e))
    ensures B.Backed(BREAKER, s')
  {
    B.StepBacked(BREAKER, s, e);
  }

  /** What an event may do to one grant: a traced grant stays traced, a reported one is off the account. */
  lemma StepsTraced(g: Gate, e: Event)
    requires Traced(g)
    ensures Traced(After(g, e))
  {
    var g' := After(g, e);
    forall q, n | n in Sys(g', q).open
      ensures TracedGrant(g', Grant(q, n))
    {
      if n in Sys(g, q).open {
        OldGrantTraced(g, e, Grant(q, n));
      } else {
        NewGrantTraced(g, e, q, n);
      }
    }
  }

  lemma OldGrantTraced(g: Gate, e: Event, x: Grant)
    requires TracedGrant(g, x) && x.number in Sys(After(g, e), x.provider).open
    ensures TracedGrant(After(g, e), x)
  {
    var g' := After(g, e);
    if x !in g.leaked {
      var req :| req in g.requests && x in Held(g.requests[req]);
      assert req in g'.requests;
      assert x in g'.leaked || x in Held(g'.requests[req]);
    }
  }

  lemma NewGrantTraced(g: Gate, e: Event, q: Name, n: nat)
    requires n in Sys(After(g, e), q).open && n !in Sys(g, q).open
    ensures TracedGrant(After(g, e), Grant(q, n))
  {
    var g' := After(g, e);
    assert n == Sys(g, q).granted && (e.Arrive? || e.AskNext?);
    assert e.req in g'.requests;
    if e.AskNext? {
      var p := At(g, e.req);
      assert (p.got + [Grant(q, n)])[|p.got|] == Grant(q, n);
    }
    assert Grant(q, n) in Held(g'.requests[e.req]);
  }

  lemma {:induction false} RunInvariants(events: seq<Event>)
    ensures AllBacked(Run(events)) && Traced(Run(events))
  {
    if events != [] {
      var init, e := events[..|events| - 1], events[|events| - 1];
      RunInvariants(init);
      StepsBacked(Run(init), e);
      StepsTraced(Run(init), e);
    }
  }

  /** No grant made since `q` last became half-open is leaked, or still held by a request. */
  ghost predicate Settled(g: Gate, q: Name) {
    forall n :: n in Sys(g, q).open ==>
      && Grant(q, n) !in g.leaked
      && forall req :: req in g.requests ==> Grant(q, n) !in Held(g.requests[req])
  }

  lemma NothingOpen(g: Gate, q: Name)
    requires Traced(g) && Settled(g, q)
    ensures Sys(g, q).open == {}
  {
    forall n
      ensures n !in Sys(g, q).open
    {
      assert n in Sys(g, q).open ==> TracedGrant(g, Grant(q, n));
    }
  }

  /**
    Over every interleaving of requests, cancelled ones included: a provider is asked successfully
    when its breaker is closed, when the timeout after its last failure is over, or when it is
    half-open and every grant since then has been reported.  Grants leaked earlier do no harm.
  */
  lemma ProviderRecovers(events: seq<Event>, q: Name, now: int)
    requires var b := Sys(Run(events), q).b;
             && (b.mode.Open? ==> now - b.lastFailure > BREAKER.timeout)
             && (b.mode.HalfOpen? ==> Settled(Run(events), q))
    ensures Grants(Run(events), q, now)
  {
    RunInvariants(events);
    var g := Run(events);
    if Sys(g, q).b.mode.HalfOpen? {
      NothingOpen(g, q);
    }
    B.BackedRecovers(BREAKER, Sys(g, q), now);
  }

  // ---- one request, undisturbed, is the manager's admission ----

  function Search(g: Gate, req: nat, clock: seq<int>): Gate
    decreases |clock|
  {
    if clock == [] then g else Search(After(g, AskNext(req, clock[0])), req, clock[1..])
  }

  ghost predicate Agree(breakers: Breakers, g: Gate) {
    forall q :: Of(breakers, q) == Sys(g, q).b
  }

  function Providers(xs: seq<Candidate>): (r: seq<Name>)
    ensures |r| == |xs|
  {
    if xs == [] then [] else [xs[0].provider] + Providers(xs[1..])
  }

  function GrantNames(xs: seq<Grant>): (r: seq<Name>)
    ensures |r| == |xs|
  {
    if xs == [] then [] else GrantNames(xs[..|xs| - 1]) + [xs[|xs| - 1].provider]
  }

  lemma GotOneMore(got: seq<Grant>, grant: Grant, x: Candidate, more: seq<Candidate>)
    requires grant.provider == x.provider
    ensures GrantNames(got + [grant]) + Providers(more) == GrantNames(got) + Providers([x] + more)
  {
    assert (got + [grant])[..|got|] == got;
    assert ([x] + more)[1..] == more;
  }

  lemma AskAgrees(g: Gate, req: nat, breakers: Breakers, now: int)
    requires At(g, req).Searching? && At(g, req).rest != [] && Considered(At(g, req).rest[0], At(g, req).model)
    requires Agree(breakers, g)
    ensures Agree(Asked(breakers, At(g, req).rest[0].provider, now).0, After(g, AskNext(req, now)))
    ensures Grants(g, At(g, req).rest[0].provider, now) <==> Asked(breakers, At(g, req).rest[0].provider, now).1
  {
    var x := At(g, req).rest[0].provider;
    assert Of(breakers, x) == Sys(g, x).b;
    forall q
      ensures Of(Asked(breakers, x, now).0, q) == Sys(After(g, AskNext(req, now)), q).b
    {
      assert Of(breakers, q) == Sys(g, q).b;
    }
  }

  /** Asking the candidates one event after another gives the breakers and the grants of the search. */
  lemma {:induction false} SearchIsFallbacks(g: Gate, req: nat, breakers: Breakers, clock: seq<int>)
    requires At(g, req).Searching? && |clock| == |At(g, req).rest| && Agree(breakers, g)
    ensures var p := At(g, req);
            var g' := Search(g, req, clock);
            var so := Fallbacks(breakers, p.rest, p.model, clock);
            && Agree(so.0, g')
            && At(g', req).Searching? && At(g', req).rest == []
            && GrantNames(At(g', req).got) == GrantNames(p.got) + Providers(so.1)
    decreases |clock|
  {
    var p := At(g, req);
    if clock == [] {
      assert GrantNames(p.got) + [] == GrantNames(p.got);
    } else {
      var g1 := After(g, AskNext(req, clock[0]));
      var x := p.rest[0];
      if !Considered(x, p.model) {
        SearchIsFallbacks(g1, req, breakers, clock[1..]);
      } else {
        var (bs, ok) := Asked(breakers, x.provider, clock[0]);
        AskAgrees(g, req, breakers, clock[0]);
        SearchIsFallbacks(g1, req, bs, clock[1..]);
        if ok {
          var more := Fallbacks(bs, p.rest[1..], p.model, clock[1..]).1;
          GotOneMore(p.got, Grant(x.provider, Sys(g, x.provider).granted), x, more);
        }
      }
    }
  }

  /** The events of a whole admission: the primary is asked, then every candidate, then the first grant is used. */
  function Admitting(g: Gate, req: nat, model: int, provider: Name, group: seq<Candidate>, now: int, clock: seq<int>)
    : Gate
  {
    var g1 := After(g, Arrive(req, model, provider, group, now));
    if At(g1, req).Searching? then After(Search(g1, req, clock), AskNext(req, now)) else g1
  }

  lemma ArriveAgrees(g: Gate, req: nat, model: int, provider: Name, group: seq<Candidate>, breakers: Breakers, now: int)
    requires req !in g.requests && Agree(breakers, g)
    ensures var g1 := After(g, Arrive(req, model, provider, group, now));
            && Agree(Asked(breakers, provider, now).0, g1)
            && (Asked(breakers, provider, now).1 ==> At(g1, req).Building? && At(g1, req).grant.provider == provider)
            && (!Asked(breakers, provider, now).1 ==> At(g1, req) == Searching(model, group, []))
  {
    var g1 := After(g, Arrive(req, model, provider, group, now));
    assert Of(breakers, provider) == Sys(g, provider).b;
    forall q
      ensures Of(Asked(breakers, provider, now).0, q) == Sys(g1, q).b
    {
      assert Of(breakers, q) == Sys(g, q).b;
    }
  }

  lemma FirstName(xs: seq<Grant>)
    requires xs != []
    ensures GrantNames(xs)[0] == xs[0].provider
    decreases |xs|
  {
    if |xs| > 1 {
      FirstName(xs[..|xs| - 1]);
    }
  }

  /** An admission, event by event, is the manager's: same breakers, and the request goes to the chosen provider. */
  lemma AdmissionAgrees(g: Gate, req: nat, model: int, provider: Name, group: seq<Candidate>, breakers: Breakers,
                        now: int, clock: seq<int>)
    requires req !in g.requests && |clock| == |group| && Agree(breakers, g)
    ensures var a := Admitted(breakers, model, provider, group, now, clock);
            var g' := Admitting(g, req, model, provider, group, now, clock);
            && Agree(a.breakers, g')
            && (a.chosen == None <==> At(g', req) == Ended)
            && (a.chosen == None <==> a.granted == [])
            && (a.chosen.Some? ==> a.granted[0].provider == a.chosen.value)
            && (At(After(g, Arrive(req, model, provider, group, now)), req).Building? ==> a.granted[0].model == model)
            && (a.chosen.Some? ==> At(g', req).Building? && At(g', req).grant.provider == a.chosen.value)
  {
    ArriveAgrees(g, req, model, provider, group, breakers, now);
    var g1 := After(g, Arrive(req, model, provider, group, now));
    var (bs, ok) := Asked(breakers, provider, now);
    if !ok {
      SearchIsFallbacks(g1, req, bs, clock);
      var g2 := Search(g1, req, clock);
      var got := At(g2, req).got;
      var so := Fallbacks(bs, group, model, clock);
      assert GrantNames(At(g1, req).got) == [];
      assert GrantNames(got) == Providers(so.1);
      if got != [] {
        FirstName(got);
      }
      assert forall q :: Sys(After(g2, AskNext(req, now)), q) == Sys(g2, q);
    }
  }

  // ---- reports, one event at a time ----

  /** The events of a call's ending, from the moment it is built. */
  function EventsOf(req: nat, ending: Ending, now: int): seq<Event> {
    match ending
    case BuildFailed => [Build(req, false)]
    case Abandoned => [Build(req, true), Abandon(req)]
    case Answered => [Build(req, true), Answer(req), Close(req)]
    case CallFailed => [Build(req, true), Fail(req, now)]
    case FailedLate => [Build(req, true), Answer(req), Fail(req, now)]
  }

  function RunOn(g: Gate, events: seq<Event>): Gate
    decreases |events|
  {
    if events == [] then g else RunOn(After(g, events[0]), events[1..])
  }

  /** One breaker takes a step, and the others stay as they are. */
  lemma StepAgrees(g: Gate, q: Name, op: B.Op, now: int, breakers: Breakers, b: B.State)
    requires Agree(breakers, g) && b == B.After(BREAKER, Sys(g, q), B.Event(op, now)).b
    ensures Agree(breakers[q := b], Stepped(g, q, op, now))
  {
    var g' := Stepped(g, q, op, now);
    forall x
      ensures Of(breakers[q := b], x) == Sys(g', x).b
    {
      assert Of(breakers, x) == Sys(g, x).b;
    }
  }

  /** What the handlers report is what the events do to the breakers, and the request is over. */
  lemma ReportAgrees(g: Gate, req: nat, breakers: Breakers, ending: Ending, now: int)
    requires At(g, req).Building? && Agree(breakers, g)
    requires At(g, req).grant.provider in breakers
    ensures var q := At(g, req).grant.provider;
            var g' := RunOn(g, EventsOf(req, ending, now));
            && Agree(breakers[q := Reported(breakers[q], ending, now)], g')
            && At(g', req) == Ended
            && (Reports(ending) ==> g'.leaked == g.leaked)
            && (!Reports(ending) ==> g'.leaked == g.leaked + {At(g, req).grant})
  {
    var grant := At(g, req).grant;
    var q := grant.provider;
    assert Of(breakers, q) == Sys(g, q).b;
    var b := breakers[q];
    var g1 := After(g, Build(req, true));
    assert Agree(breakers, g1);
    assert breakers[q := b] == breakers;
    match ending {
      case BuildFailed =>
        RunOne(g, Build(req, false));
        assert Agree(breakers, After(g, Build(req, false)));
      case Abandoned =>
        RunTwo(g, Build(req, true), Abandon(req));
        assert Agree(breakers, After(g1, Abandon(req)));
      case Answered =>
        RunThree(g, Build(req, true), Answer(req), Close(req));
        AnswerAgrees(g1, req, breakers);
      case CallFailed =>
        RunTwo(g, Build(req, true), Fail(req, now));
        FailAgrees(g1, req, breakers, now);
      case FailedLate =>
        RunThree(g, Build(req, true), Answer(req), Fail(req, now));
        AnswerAgrees(g1, req, breakers);
        var after := breakers[q := B.Succeeded(BREAKER, b)];
        FailAgrees(After(g1, Answer(req)), req, after, now);
        assert after[q := B.Failed(BREAKER, after[q], now)] == breakers[q := B.Failed(BREAKER, after[q], now)];
    }
  }

  lemma AnswerAgrees(g: Gate, req: nat, breakers: Breakers)
    requires At(g, req).Running? && Agree(breakers, g) && At(g, req).grant.provider in breakers
    ensures var q, g' := At(g, req).grant.provider, After(g, Answer(req));
            && Agree(breakers[q := B.Succeeded(BREAKER, breakers[q])], g')
            && Agree(breakers[q := B.Succeeded(BREAKER, breakers[q])], After(g', Close(req)))
            && At(g', req) == Succeeded(At(g, req).grant) && g'.leaked == g.leaked
  {
    var grant := At(g, req).grant;
    assert Of(breakers, grant.provider) == Sys(g, grant.provider).b;
    StepAgrees(g, grant.provider, B.Succeed(grant.number), 0, breakers,
               B.Succeeded(BREAKER, breakers[grant.provider]));
  }

  lemma FailAgrees(g: Gate, req: nat, breakers: Breakers, now: int)
    requires At(g, req).Running? || At(g, req).Succeeded?
    requires Agree(breakers, g) && At(g, req).grant.provider in breakers
    ensures var q, g' := At(g, req).grant.provider, After(g, Fail(req, now));
            && Agree(breakers[q := B.Failed(BREAKER, breakers[q], now)], g')
            && At(g', req) == Ended && g'.leaked == g.leaked
  {
    var grant := At(g, req).grant;
    assert Of(breakers, grant.provider) == Sys(g, grant.provider).b;
    StepAgrees(g, grant.provider, B.Fail(grant.number), now, breakers,
               B.Failed(BREAKER, breakers[grant.provider], now));
  }

  lemma RunOne(g: Gate, a: Event)
    ensures RunOn(g, [a]) == After(g, a)
  {
    assert [a][1..] == [];
  }

  lemma RunTwo(g: Gate, a: Event, b: Event)
    ensures RunOn(g, [a, b]) == After(After(g, a), b)
  {
    assert [a, b][1..] == [b];
    RunOne(After(g, a), b);
  }

  lemma RunThree(g: Gate, a: Event, b: Event, c: Event)
    ensures RunOn(g, [a, b, c]) == After(After(After(g, a), b), c)
  {
    assert [a, b, c][1..] == [b, c];
    RunTwo(After(g, a), b, c);
  }

  /** Calls to one provider that fail one after another. */
  function FailedCalls(b: B.State, times: seq<int>): B.State {
    if times == [] then b else Reported(FailedCalls(b, times[..|times| - 1]), CallFailed, times[|times| - 1])
  }

  lemma {:induction false} FailedCallsCount(b: B.State, times: seq<int>)
    requires b.mode.Closed? && times != []
    ensures var after, n := FailedCalls(b, times), b.failures + |times|;
            && after.mode == (if n < BREAKER.threshold then B.Closed else B.Open)
            && after.failures == n && after.lastFailure == times[|times| - 1]
  {
    var init := times[..|times| - 1];
    if init == [] {
      assert FailedCalls(b, init) == b;
    } else {
      FailedCallsCount(b, init);
    }
  }

  /**
    From a closed breaker, calls that fail one after another shut the provider out exactly when the
    failures in a row reach the threshold, and until more than the timeout after the last.
  */
  lemma FailuresShutOut(breakers: Breakers, q: Name, times: seq<int>, now: int)
    requires Of(breakers, q).mode.Closed? && times != []
    ensures var after := breakers[q := FailedCalls(Of(breakers, q), times)];
            Asked(after, q, now).1 <==>
              || Of(breakers, q).failures + |times| < 5
              || now - times[|times| - 1] > 30
  {
    FailedCallsCount(Of(breakers, q), times);
  }

  /** Calls that are answered one after another. */
  function AnsweredCalls(b: B.State, n: nat, now: int): B.State {
    if n == 0 then b else Reported(AnsweredCalls(b, n - 1, now), Answered, now)
  }

  /** Three answers close a half-open breaker, and any answer clears the failures of a closed one. */
  lemma {:induction false} AnswersClose(b: B.State, n: nat, now: int)
    requires b.mode.HalfOpen? && b.successes == 0
    ensures AnsweredCalls(b, n, now).mode == if n < 3 then B.HalfOpen else B.Closed
    ensures n < 3 ==> AnsweredCalls(b, n, now).successes == n
    ensures n >= 3 ==> AnsweredCalls(b, n, now).failures == 0
  {
    if n > 0 {
      AnswersClose(b, n - 1, now);
    }
  }

  // ---- a wedge no call caused ----

  /** One request, admitted and answered at one moment. */
  function Served(breakers: Breakers, model: int, provider: Name, group: seq<Candidate>, now: int): Breakers {
    var a := Admitted(breakers, model, provider, group, now, Repeat(now, |group|));
    if a.chosen.None? then a.breakers
    else a.breakers[a.chosen.value := Reported(Of(a.breakers, a.chosen.value), Answered, now)]
  }

  function ServedMany(breakers: Breakers, model: int, provider: Name, group: seq<Candidate>, now: int, n: nat)
    : Breakers
  {
    if n == 0 then breakers
    else Served(ServedMany(breakers, model, provider, group, now, n - 1), model, provider, group, now)
  }

  /**
    The fallback search wedges a provider without ever calling it: while the primary is open, each
    answered request on the first fallback takes a half-open permit of the second.
  */
  lemma {:induction false} FallbackSearchWedges(breakers: Breakers, group: seq<Candidate>, model: int, primary: Name,
                                                now: int, n: nat) returns (after: Breakers)
    requires |group| == 2 && Considered(group[0], model) && Considered(group[1], model)
    requires group[0].provider != group[1].provider && primary != group[0].provider && primary != group[1].provider
    requires Of(breakers, primary).mode.Open? && now - Of(breakers, primary).lastFailure <= BREAKER.timeout
    requires Of(breakers, group[0].provider).mode.Closed?
    requires Of(breakers, group[1].provider).mode.HalfOpen? && Of(breakers, group[1].provider).calls == 0
    requires n <= BREAKER.maxCalls
    ensures after == ServedMany(breakers, model, primary, group, now, n)
    ensures Of(after, primary) == Of(breakers, primary) && Of(after, group[0].provider).mode.Closed?
    ensures Of(after, group[1].provider) == Of(breakers, group[1].provider).(calls := n)
    ensures n == BREAKER.maxCalls ==> B.Wedged(BREAKER, Of(after, group[1].provider))
  {
    after := breakers;
    if n > 0 {
      var before := FallbackSearchWedges(breakers, group, model, primary, now, n - 1);
      TwoFallbacks(before, group, model, primary, now);
      after := Served(before, model, primary, group, now);
    }
  }

  lemma TwoFallbacks(breakers: Breakers, group: seq<Candidate>, model: int, primary: Name, now: int)
    requires |group| == 2 && Considered(group[0], model) && Considered(group[1], model)
    requires group[0].provider != group[1].provider && primary != group[0].provider && primary != group[1].provider
    requires Of(breakers, primary).mode.Open? && now - Of(breakers, primary).lastFailure <= BREAKER.timeout
    requires Of(breakers, group[0].provider).mode.Closed?
    requires Of(breakers, group[1].provider).mode.HalfOpen? && Of(breakers, group[1].provider).calls < BREAKER.maxCalls
    ensures var after := Served(breakers, model, primary, group, now);
            && Of(after, primary) == Of(breakers, primary) && Of(after, group[0].provider).mode.Closed?
            && Of(after, group[1].provider) ==
               Of(breakers, group[1].provider).(calls := Of(breakers, group[1].provider).calls + 1)
  {
    var bs := Asked(breakers, primary, now).0;
    RepeatTail(now, 2);
    RepeatTail(now, 1);
    assert group[1..][1..] == [];
    var bs1 := Asked(bs, group[0].provider, now).0;
    var bs2 := Asked(bs1, group[1].provider, now).0;
    assert Fallbacks(bs1, group[1..], model, Repeat(now, 1)) == (bs2, [group[1]]) by {
      assert [group[1]] + [] == [group[1]];
    }
    assert Fallbacks(bs, group, model, Repeat(now, 2)) == (bs2, [group[0]] + [group[1]]);
    assert Admitted(breakers, model, primary, group, now, Repeat(now, 2)).chosen == Some(group[0].provider);
  }
}
