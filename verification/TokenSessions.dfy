/**
  Login sessions: access and refresh tokens kept in Redis under textual keys, single-login
  users, refresh rotation, and prefix deletion.
*/
module TokenSessions {
  import opened Options

  const ACCESS_TTL := 86400
  const REFRESH_TTL := 604800

  // ---- keys ----

  datatype Area = Access | Refresh

  /** A session's uuid. */
  datatype Session = Session(text: string)

  datatype Key = Key(area: Area, user: nat, session: Session)

  function AreaText(a: Area): string {
    if a.Access? then "fba:token" else "fba:refresh_token"
  }

  function Digit(d: nat): char
    requires d < 10
  {
    "0123456789"[d]
  }

  function Dec(n: nat): (s: string)
    ensures s != ""
  {
    if n < 10 then [Digit(n)] else Dec(n / 10) + [Digit(n % 10)]
  }

  function Prefix(a: Area, user: nat): string {
    AreaText(a) + ":" + Dec(user)
  }

  function Text(k: Key): string {
    Prefix(k.area, k.user) + ":" + k.session.text
  }

  /** `u` is `v` with some of its last digits taken off. */
  predicate Shortens(u: nat, v: nat)
    decreases v
  {
    u == v || (v >= 10 && Shortens(u, v / 10))
  }

  lemma {:induction false} DecDigits(n: nat)
    ensures forall i :: 0 <= i < |Dec(n)| ==> Dec(n)[i] in "0123456789"
  {
    if n >= 10 {
      DecDigits(n / 10);
    }
  }

  lemma DigitInjective(a: nat, b: nat)
    requires a < 10 && b < 10 && Digit(a) == Digit(b)
    ensures a == b
  {
  }

  lemma {:induction false} DecInjective(u: nat, v: nat)
    requires Dec(u) == Dec(v)
    ensures u == v
  {
    if u < 10 || v < 10 {
      assert |Dec(u)| == 1;
      LongDec(u);
      LongDec(v);
      DigitInjective(u, v);
    } else {
      var a, b := Dec(u), Dec(v);
      assert a[|a| - 1] == Digit(u % 10) && b[|b| - 1] == Digit(v % 10);
      DigitInjective(u % 10, v % 10);
      assert Dec(u / 10) == a[..|a| - 1] == b[..|b| - 1] == Dec(v / 10);
      DecInjective(u / 10, v / 10);
    }
  }

  lemma LongDec(n: nat)
    ensures n >= 10 ==> |Dec(n)| >= 2
  {
  }

  /** One number's digits begin with another's exactly when the other is it shortened. */
  lemma {:induction false} DecPrefix(u: nat, v: nat)
    ensures Dec(u) <= Dec(v) <==> Shortens(u, v)
    decreases v
  {
    if v < 10 {
      if Dec(u) <= Dec(v) {
        assert Dec(u) == Dec(v);
        DecInjective(u, v);
      }
    } else {
      var a, b := Dec(u), Dec(v);
      assert b[..|b| - 1] == Dec(v / 10);
      DecPrefix(u, v / 10);
      if a <= b && |a| == |b| {
        assert a == b;
        DecInjective(u, v);
      } else if a <= b {
        assert a == b[..|a|] == Dec(v / 10)[..|a|];
      }
    }
  }

  lemma DecThenColon(u: nat, v: nat, rest: string)
    ensures Dec(u) <= Dec(v) + ":" + rest <==> Dec(u) <= Dec(v)
  {
    var a, b, t := Dec(u), Dec(v), Dec(v) + ":" + rest;
    DecDigits(u);
    if a <= b {
      assert t[..|a|] == b[..|a|];
    }
    if a <= t {
      assert |a| <= |b| by {
        assert t[|b|] == ':';
      }
      assert a == t[..|a|] == b[..|a|];
    }
  }

  lemma SameStart(head: string, a: string, b: string)
    ensures head + a <= head + b <==> a <= b
  {
    if a <= b {
      assert (head + b)[..|head + a|] == head + b[..|a|];
    }
    if head + a <= head + b {
      assert forall i :: 0 <= i < |a| ==> a[i] == (head + a)[|head| + i] == (head + b)[|head| + i] == b[i];
    }
  }

  /**
    Deleting the keys under a user's prefix reaches another user's sessions exactly when the
    user's number is that other's with digits taken off its end.
  */
  lemma PrefixReaches(a: Area, u: nat, k: Key)
    ensures Prefix(a, u) <= Text(k) <==> a == k.area && Shortens(u, k.user)
  {
    var rest := Dec(k.user) + ":" + k.session.text;
    if a == k.area {
      assert Text(k) == AreaText(a) + ":" + rest;
      SameStart(AreaText(a) + ":", Dec(u), rest);
      DecThenColon(u, k.user, k.session.text);
      DecPrefix(u, k.user);
    } else {
      assert Prefix(a, u)[4] == AreaText(a)[4];
      assert Text(k)[4] == AreaText(k.area)[4];
      assert "fba:token"[4] == 't' && "fba:refresh_token"[4] == 'r';
    }
  }

  // ---- the store ----

  /** An encoded token: a different string for every user, session and expiry. */
  datatype Token = Token(user: nat, session: Session, exp: int)

  datatype Entry = Entry(token: Token, expires: int)

  type Store = map<Key, Entry>

  predicate Live(store: Store, k: Key, now: int) {
    k in store && now < store[k].expires
  }

  function Under(store: Store, a: Area, user: nat): set<Key> {
    set k | k in store && Prefix(a, user) <= Text(k)
  }

  function Issue(store: Store, k: Key, ttl: int, multi: bool, now: int): Store {
    var cleared := if multi then store else store - Under(store, k.area, k.user);
    cleared[k := Entry(Token(k.user, k.session, now + ttl), now + ttl)]
  }

  predicate Accepts(store: Store, t: Token, now: int) {
    now <= t.exp && Live(store, Key(Access, t.user, t.session), now) && store[Key(Access, t.user, t.session)].token == t
  }

  predicate Exchangeable(store: Store, t: Token, now: int) {
    Live(store, Key(Refresh, t.user, t.session), now) && store[Key(Refresh, t.user, t.session)].token == t
  }

  /** The entry is there, and live until this moment and no longer. */
  ghost predicate Entered(store: Store, k: Key, t: Token, expires: int) {
    k in store && store[k] == Entry(t, expires) && forall at: int :: Live(store, k, at) <==> at < expires
  }

  class TokenStore {
    var now: int
    var store: Store

    method DeletePrefix(a: Area, user: nat, exclude: Option<Key>, batchSize: nat)
      modifies this`store
      ensures store == old(store) - (Under(old(store), a, user) - if exclude.Some? then {exclude.value} else {})
    {
      DeleteInBatches(Under(store, a, user) - (if exclude.Some? then {exclude.value} else {}), batchSize);
    }

    /** The keys are scanned in any order; matching ones are collected and deleted in batches. */
    method DeleteInBatches(matching: set<Key>, batchSize: nat)
      modifies this`store
      ensures store == old(store) - matching
    {
      ghost var before := store;
      var rest := store.Keys;
      var batch: set<Key> := {};
      while rest != {}
        invariant rest <= before.Keys && batch <= matching && batch !! rest
        invariant forall k :: k in store <==> k in before && (k !in matching || k in rest || k in batch)
        invariant forall k :: k in store ==> store[k] == before[k]
        decreases |rest|
      {
        var k :| k in rest;
        rest := rest - {k};
        if k in matching {
          batch := batch + {k};
          if |batch| >= batchSize {
            store := store - batch;
            batch := {};
          }
        }
      }
      store := store - batch;
      assert store == before - matching;
    }

    method CreateAccessToken(user: nat, session: Session, multi: bool) returns (t: Token)
      modifies this`store
      ensures t == Token(user, session, now + 86400) && Entered(store, Key(Access, user, session), t, now + 86400)
      ensures store == Issue(old(store), Key(Access, user, session), ACCESS_TTL, multi, now)
    {
      t := Token(user, session, now + ACCESS_TTL);
      if !multi {
        DeletePrefix(Access, user, None, 1000);
      }
      store := store[Key(Access, user, session) := Entry(t, now + ACCESS_TTL)];
    }

    method CreateRefreshToken(user: nat, session: Session, multi: bool) returns (t: Token)
      modifies this`store
      ensures t == Token(user, session, now + 604800) && Entered(store, Key(Refresh, user, session), t, now + 604800)
      ensures store == Issue(old(store), Key(Refresh, user, session), REFRESH_TTL, multi, now)
    {
      t := Token(user, session, now + REFRESH_TTL);
      if !multi {
        DeletePrefix(Refresh, user, None, 1000);
      }
      store := store[Key(Refresh, user, session) := Entry(t, now + REFRESH_TTL)];
    }

    method CreateNewToken(t: Token, session: Session, multi: bool) returns (ok: bool)
      modifies this`store
      ensures ok == Exchangeable(old(store), t, now)
      ensures var k := Key(Refresh, t.user, t.session);
              ok <==> k in old(store) && now < old(store)[k].expires && old(store)[k].token == t
      ensures store == if ok then Exchanged(old(store), t, session, multi, now) else old(store)
    {
      var k := Key(Refresh, t.user, t.session);
      ok := k in store && now < store[k].expires && store[k].token == t;
      if ok {
        store := store - {Key(Refresh, t.user, t.session)};
        store := store - {Key(Access, t.user, t.session)};
        var access := CreateAccessToken(t.user, session, multi);
        var refresh := CreateRefreshToken(t.user, access.session, multi);
      }
    }

    /** No token of the session is accepted any more; every other token is accepted or exchanged as before. */
    method RevokeToken(user: nat, session: Session)
      modifies this`store
      ensures forall t :: Accepts(store, t, now) <==>
                          Accepts(old(store), t, now) && !(t.user == user && t.session == session)
      ensures forall t :: Exchangeable(store, t, now) <==> Exchangeable(old(store), t, now)
      ensures store == Stored(State(now, old(store), {}), Revoke(user, session))
    {
      store := store - {Key(Access, user, session)};
    }

    method JwtAuthentication(t: Token) returns (ok: bool)
      ensures ok == Accepts(store, t, now)
      ensures var k := Key(Access, t.user, t.session);
              ok <==> now <= t.exp && k in store && now < store[k].expires && store[k].token == t
    {
      if now > t.exp {
        return false;
      }
      var k := Key(Access, t.user, t.session);
      if k !in store || store[k].expires <= now {
        return false;
      }
      ok := t == store[k].token;
    }
  }

  /** A refresh token's session is closed and a new one opened. */
  function Exchanged(store: Store, t: Token, session: Session, multi: bool, now: int): Store {
    var closed := store - {Key(Refresh, t.user, t.session)} - {Key(Access, t.user, t.session)};
    Issue(Issue(closed, Key(Access, t.user, session), ACCESS_TTL, multi, now), Key(Refresh, t.user, session),
          REFRESH_TTL, multi, now)
  }

  // ---- runs ----

  /** Each operation is one step; `multi` is the user's setting at that moment. */
  datatype Event =
    | Tick(d: nat)
    | Login(user: nat, session: Session, multi: bool)
    | SwaggerLogin(user: nat, session: Session, multi: bool)
    | Rotate(t: Token, session: Session, multi: bool)
    | Logout(t: Token, cookie: bool)
    | Revoke(user: nat, revoked: Session)
    | ResetPassword(user: nat)
    | ForbidMultiLogin(user: nat, kept: Option<Session>)

  datatype State = State(now: int, store: Store, used: set<Session>)

  const START := State(0, map[], {})

  /** The refresh service: a single-login user with any live access entry is turned away. */
  predicate Rotates(s: State, e: Event)
    requires e.Rotate?
  {
    && s.now <= e.t.exp
    && (e.multi || forall k :: k in s.store && k.area.Access? && k.user == e.t.user ==> !Live(s.store, k, s.now))
    && Exchangeable(s.store, e.t, s.now)
  }

  function Stored(s: State, e: Event): Store {
    match e
    case Tick(_) => s.store
    case Login(u, session, multi) =>
      Issue(Issue(s.store, Key(Access, u, session), ACCESS_TTL, multi, s.now), Key(Refresh, u, session), REFRESH_TTL,
            multi, s.now)
    case SwaggerLogin(u, session, multi) => Issue(s.store, Key(Access, u, session), ACCESS_TTL, multi, s.now)
    case Rotate(t, session, multi) => if Rotates(s, e) then Exchanged(s.store, t, session, multi, s.now) else s.store
    case Logout(t, cookie) =>
      if s.now > t.exp then s.store
      else s.store - {Key(Access, t.user, t.session)} - (if cookie then {Key(Refresh, t.user, t.session)} else {})
    case Revoke(u, session) => s.store - {Key(Access, u, session)}
    case ResetPassword(u) => s.store - Under(s.store, Access, u) - Under(s.store, Refresh, u)
    case ForbidMultiLogin(u, kept) =>
      s.store - (Under(s.store, Access, u) - if kept.Some? then {Key(Access, u, kept.value)} else {})
  }

  function Opened(e: Event): set<Session> {
    if e.Login? || e.SwaggerLogin? || e.Rotate? then {e.session} else {}
  }

  function After(s: State, e: Event): State {
    State(if e.Tick? then s.now + e.d else s.now, Stored(s, e), s.used + Opened(e))
  }

  function Run(events: seq<Event>): State {
    if events == [] then START else After(Run(events[..|events| - 1]), events[|events| - 1])
  }

  /** Session uuids are never repeated. */
  ghost predicate FreshRun(events: seq<Event>) {
    events == [] || (FreshRun(events[..|events| - 1])
                     && Opened(events[|events| - 1]) !! Run(events[..|events| - 1]).used)
  }

  ghost predicate SessionsUsed(s: State) {
    forall k :: k in s.store ==> k.session in s.used
  }

  lemma {:induction false} RunSessionsUsed(events: seq<Event>)
    ensures SessionsUsed(Run(events))
  {
    if events != [] {
      RunSessionsUsed(events[..|events| - 1]);
    }
  }

  // ---- single login ----

  ghost predicate SingleOnly(events: seq<Event>, u: nat) {
    forall e :: e in events ==> SingleFor(e, u)
  }

  predicate SingleFor(e: Event, u: nat) {
    && (e.Login? || e.SwaggerLogin? ==> e.user == u ==> !e.multi)
    && (e.Rotate? ==> e.t.user == u ==> !e.multi)
  }

  ghost predicate AtMostOne(store: Store, a: Area, u: nat) {
    forall k, l :: k in store && l in store && k.area == a && l.area == a && k.user == u && l.user == u ==> k == l
  }

  lemma IssueKeepsOne(store: Store, k: Key, ttl: int, multi: bool, now: int, a: Area, u: nat)
    requires AtMostOne(store, a, u) && (k.user == u ==> !multi)
    ensures AtMostOne(Issue(store, k, ttl, multi, now), a, u)
  {
    forall l | l in store && k.area == l.area && k.user == l.user
      ensures l in Under(store, k.area, k.user)
    {
      PrefixReaches(k.area, k.user, l);
    }
  }

  lemma StepKeepsOne(s: State, e: Event, a: Area, u: nat)
    requires AtMostOne(s.store, a, u) && SingleFor(e, u)
    ensures AtMostOne(Stored(s, e), a, u)
  {
    match e
    case Login(v, session, multi) =>
      IssueKeepsOne(s.store, Key(Access, v, session), ACCESS_TTL, multi, s.now, a, u);
      IssueKeepsOne(Issue(s.store, Key(Access, v, session), ACCESS_TTL, multi, s.now), Key(Refresh, v, session),
                    REFRESH_TTL, multi, s.now, a, u);
    case SwaggerLogin(v, session, multi) =>
      IssueKeepsOne(s.store, Key(Access, v, session), ACCESS_TTL, multi, s.now, a, u);
    case Rotate(t, session, multi) =>
      if Rotates(s, e) {
        var closed := s.store - {Key(Refresh, t.user, t.session)} - {Key(Access, t.user, t.session)};
        IssueKeepsOne(closed, Key(Access, t.user, session), ACCESS_TTL, multi, s.now, a, u);
        IssueKeepsOne(Issue(closed, Key(Access, t.user, session), ACCESS_TTL, multi, s.now),
                      Key(Refresh, t.user, session), REFRESH_TTL, multi, s.now, a, u);
      }
    case _ =>
  }

  /** A user who never has multi-login holds at most one access entry and one refresh entry, on every run. */
  lemma {:induction false} SingleLogin(events: seq<Event>, a: Area, u: nat)
    requires SingleOnly(events, u)
    ensures AtMostOne(Run(events).store, a, u)
  {
    if events != [] {
      var init, e := events[..|events| - 1], events[|events| - 1];
      assert e in events && forall x :: x in init ==> x in events;
      SingleLogin(init, a, u);
      StepKeepsOne(Run(init), e, a, u);
    }
  }

  // ---- refresh rotation ----

  /** An entry that is gone and whose session is used never comes back. */
  lemma {:induction false} GoneForGood(before: seq<Event>, more: seq<Event>, k: Key)
    requires FreshRun(before + more) && k !in Run(before).store && k.session in Run(before).used
    ensures k !in Run(before + more).store && k.session in Run(before + more).used
    decreases |more|
  {
    if more == [] {
      assert before + more == before;
    } else {
      var all := before + more;
      assert all[..|all| - 1] == before + more[..|more| - 1];
      GoneForGood(before, more[..|more| - 1], k);
    }
  }

  /** A refresh token that was exchanged is never exchanged again, whatever happens in between. */
  lemma ExchangedOnce(before: seq<Event>, e: Event, more: seq<Event>, again: Event)
    requires e.Rotate? && again.Rotate? && again.t == e.t && Rotates(Run(before), e)
    requires FreshRun(before + [e] + more)
    ensures !Rotates(Run(before + [e] + more), again)
  {
    var k := Key(Refresh, e.t.user, e.t.session);
    RunSessionsUsed(before);
    FreshStart(before + [e], more);
    assert (before + [e])[..|before|] == before;
    ExchangeCloses(Run(before), e);
    GoneForGood(before + [e], more, k);
  }

  lemma ExchangeCloses(s: State, e: Event)
    requires e.Rotate? && Rotates(s, e) && SessionsUsed(s) && e.session !in s.used
    ensures Key(Refresh, e.t.user, e.t.session) !in After(s, e).store
    ensures Key(Access, e.t.user, e.t.session) !in After(s, e).store
    ensures e.t.session in After(s, e).used
  {
    assert Key(Refresh, e.t.user, e.t.session) in s.store;
  }

  lemma {:induction false} FreshStart(a: seq<Event>, b: seq<Event>)
    requires FreshRun(a + b)
    ensures FreshRun(a)
    decreases |b|
  {
    if b == [] {
      assert a + b == a;
    } else {
      assert (a + b)[..|a + b| - 1] == a + b[..|b| - 1];
      FreshStart(a, b[..|b| - 1]);
    }
  }

  // ---- accepted access tokens ----

  /** The event puts the token into the store. */
  predicate Issues(s: State, e: Event, t: Token) {
    && (e.Login? || e.SwaggerLogin? || (e.Rotate? && Rotates(s, e)))
    && t == Token(if e.Rotate? then e.t.user else e.user, e.session, s.now + ACCESS_TTL)
  }

  lemma AcceptedBefore(s: State, e: Event, t: Token)
    requires Accepts(After(s, e).store, t, After(s, e).now) && !Issues(s, e, t)
    ensures Accepts(s.store, t, s.now)
  {
    var k := Key(Access, t.user, t.session);
    assert k in s.store && s.store[k] == Stored(s, e)[k];
  }

  /**
    An accepted access token was issued by some event of the run and has been in force ever since:
    after no later event was it replaced, revoked or expired.
  */
  lemma {:induction false} AcceptedSinceIssued(events: seq<Event>, t: Token) returns (i: nat)
    requires Accepts(Run(events).store, t, Run(events).now)
    ensures i < |events| && Issues(Run(events[..i]), events[i], t)
    ensures forall k :: i < k <= |events| ==> Accepts(Run(events[..k]).store, t, Run(events[..k]).now)
  {
    assert events != [];
    var init, e := events[..|events| - 1], events[|events| - 1];
    if Issues(Run(init), e, t) {
      i := |init|;
    } else {
      AcceptedBefore(Run(init), e, t);
      i := AcceptedSinceIssued(init, t);
      assert forall k :: 0 <= k <= |init| ==> init[..k] == events[..k];
    }
    assert events[..|events|] == events;
  }

  // ---- where sessions end ----

  /** The event ends the session's entry; single-login operations reach whoever's number begins with the user's. */
  predicate Ends(s: State, e: Event, k: Key) {
    match e
    case Tick(_) => false
    case Login(u, _, multi) => !multi && Shortens(u, k.user)
    case SwaggerLogin(u, _, multi) => !multi && k.area.Access? && Shortens(u, k.user)
    case Rotate(t, _, multi) =>
      Rotates(s, e) && ((t.user == k.user && t.session == k.session) || (!multi && Shortens(t.user, k.user)))
    case Logout(t, cookie) =>
      s.now <= t.exp && t.user == k.user && t.session == k.session && (k.area.Access? || cookie)
    case Revoke(u, session) => k == Key(Access, u, session)
    case ResetPassword(u) => Shortens(u, k.user)
    case ForbidMultiLogin(u, kept) =>
      k.area.Access? && Shortens(u, k.user) && !(k.user == u && kept == Some(k.session))
  }

  /** Every stored entry of another session is either ended, and then gone, or untouched. */
  lemma EndsExactly(s: State, e: Event, k: Key)
    requires k in s.store && k.session !in Opened(e)
    ensures k in Stored(s, e) <==> !Ends(s, e, k)
    ensures k in Stored(s, e) ==> Stored(s, e)[k] == s.store[k]
  {
    match e
    case Login(u, session, multi) =>
      var first := Issue(s.store, Key(Access, u, session), ACCESS_TTL, multi, s.now);
      IssueEnds(s.store, Key(Access, u, session), ACCESS_TTL, multi, s.now, k);
      IssueEnds(first, Key(Refresh, u, session), REFRESH_TTL, multi, s.now, k);
    case SwaggerLogin(u, session, multi) =>
      IssueEnds(s.store, Key(Access, u, session), ACCESS_TTL, multi, s.now, k);
    case Rotate(t, session, multi) =>
      var closed := s.store - {Key(Refresh, t.user, t.session)} - {Key(Access, t.user, t.session)};
      var first := Issue(closed, Key(Access, t.user, session), ACCESS_TTL, multi, s.now);
      CloseEnds(s.store, t, k);
      IssueEnds(closed, Key(Access, t.user, session), ACCESS_TTL, multi, s.now, k);
      IssueEnds(first, Key(Refresh, t.user, session), REFRESH_TTL, multi, s.now, k);
    case ResetPassword(u) =>
      PrefixReaches(Access, u, k);
      PrefixReaches(Refresh, u, k);
    case ForbidMultiLogin(u, kept) =>
      PrefixReaches(Access, u, k);
      if kept.Some? {
        assert k == Key(Access, u, kept.value) <==> k.area.Access? && k.user == u && k.session == kept.value;
      }
    case Logout(t, _) => CloseEnds(s.store, t, k);
    case _ =>
  }

  lemma CloseEnds(store: Store, t: Token, k: Key)
    ensures k in store - {Key(Refresh, t.user, t.session)} - {Key(Access, t.user, t.session)} <==>
            k in store && !(t.user == k.user && t.session == k.session)
  {
    match k.area
    case Access => assert k == Key(Access, k.user, k.session);
    case Refresh => assert k == Key(Refresh, k.user, k.session);
  }

  lemma IssueEnds(store: Store, issued: Key, ttl: int, multi: bool, now: int, k: Key)
    requires k != issued
    ensures var after := Issue(store, issued, ttl, multi, now);
            && (k in after <==> k in store && !(!multi && k.area == issued.area && Shortens(issued.user, k.user)))
            && (k in after ==> after[k] == store[k])
  {
    PrefixReaches(issued.area, issued.user, k);
  }

  /** User 1 logging in logs user 12 out. */
  lemma CollateralLogout(a: Session, b: Session)
    requires a != b
    ensures var s := Run([Login(12, a, false)]);
            Accepts(s.store, Token(12, a, ACCESS_TTL), s.now)
            && !Accepts(After(s, Login(1, b, false)).store, Token(12, a, ACCESS_TTL), s.now)
    ensures Prefix(Access, 1) == "fba:token:1" && Text(Key(Access, 12, a)) == "fba:token:12:" + a.text
  {
    var first := Login(12, a, false);
    assert [first][..0] == [];
    assert Run([first][..0]) == START;
    var s := Run([first]);
    assert s == After(START, first);
    PrefixReaches(Refresh, 12, Key(Access, 12, a));
    assert Key(Access, 12, a) in s.store;
    assert Shortens(1, 12 / 10);
    PrefixReaches(Access, 1, Key(Access, 12, a));
    assert Dec(12) == Dec(1) + [Digit(2)];
  }

  /** A revoked session's access token is never accepted again. */
  lemma RevokedForGood(before: seq<Event>, t: Token, more: seq<Event>)
    requires t.session in Run(before).used
    requires FreshRun(before + [Revoke(t.user, t.session)] + more)
    ensures var s := Run(before + [Revoke(t.user, t.session)] + more); !Accepts(s.store, t, s.now)
  {
    var all := before + [Revoke(t.user, t.session)];
    assert all[..|before|] == before;
    GoneForGood(all, more, Key(Access, t.user, t.session));
  }

  /**
    But revoking removes the access entry only: the session's refresh token still opens a new session
    exactly when it did not expire and the user may have several sessions or has no other access entry.
  */
  lemma RevokedCanRotate(s: State, t: Token, session: Session, multi: bool)
    ensures Rotates(After(s, Revoke(t.user, t.session)), Rotate(t, session, multi)) <==>
            && Exchangeable(s.store, t, s.now) && s.now <= t.exp
            && (multi || forall k :: k in s.store && k.area.Access? && k.user == t.user && Live(s.store, k, s.now) ==>
                                     k.session == t.session)
  {
    var after := After(s, Revoke(t.user, t.session));
    var revoked := Key(Access, t.user, t.session);
    assert forall k :: k in s.store && k != revoked ==> (Live(after.store, k, s.now) <==> Live(s.store, k, s.now));
    assert forall k: Key :: k.area.Access? && k.user == t.user && k.session == t.session ==> k == revoked;
  }
}
