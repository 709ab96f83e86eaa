/**
  The quota's overshoot is reached: requests that were all checked before any was counted spend
  the limit less one and `k * m` more.
*/
module QuotaReached {
  import opened Options
  import opened TokenQuota

  /** All these runs are over at time 0, on one day and in one month. */
  datatype Setting = Setting(limits: Limits, cal: Calendar, k: nat, m: nat)

  predicate DoneUpTo(reqs: seq<Phase>, n: nat) {
    n <= |reqs| && forall i :: 0 <= i < n ==> reqs[i].Done?
  }

  /** The first `n` requests are over, and `usage` tokens are counted. */
  ghost predicate Stands(s: State, cal: Calendar, n: nat, usage: nat) {
    && s.now == 0 && DoneUpTo(s.reqs, n)
    && Added(s.bumps, Daily(0)) == usage && Added(s.bumps, Monthly(cal(0))) == usage
  }

  ghost predicate Reaches(events: seq<Event>, x: Setting, n: nat, usage: nat) {
    Calm(events, x.limits, x.cal, x.k, x.m) && Stands(At(events, x), x.cal, n, usage)
  }

  function At(events: seq<Event>, x: Setting): State {
    Run(events, x.limits, x.cal)
  }

  lemma {:induction false} InFlightAfter(reqs: seq<Phase>, n: nat)
    requires DoneUpTo(reqs, n)
    ensures Sum(InFlight, reqs) <= |reqs| - n
  {
    if reqs != [] {
      var init := reqs[..|reqs| - 1];
      InFlightAfter(init, if n == |reqs| then n - 1 else n);
    }
  }

  /** One more command, while at most `k` requests are in flight. */
  lemma CalmSnoc(events: seq<Event>, e: Event, x: Setting, n: nat)
    requires Calm(events, x.limits, x.cal, x.k, x.m) && (e.Answer? ==> e.tokens <= x.m)
    requires var t := After(At(events, x), e, x.limits, x.cal); DoneUpTo(t.reqs, n) && |t.reqs| - n <= x.k
    ensures Calm(events + [e], x.limits, x.cal, x.k, x.m)
    ensures At(events + [e], x) == After(At(events, x), e, x.limits, x.cal)
  {
    assert (events + [e])[..|events|] == events;
    InFlightAfter(After(At(events, x), e, x.limits, x.cal).reqs, n);
  }

  /** A request comes in below both limits, and is answered. */
  lemma Admit(events: seq<Event>, x: Setting, n: nat, usage: nat, tokens: nat) returns (longer: seq<Event>)
    requires Sensible(x.cal) && Reaches(events, x, n, usage)
    requires usage < x.limits.day && usage < x.limits.month && |At(events, x).reqs| - n < x.k && tokens <= x.m
    ensures Reaches(longer, x, n, usage)
    ensures At(longer, x).reqs == At(events, x).reqs + [Spent(tokens)]
  {
    var s := At(events, x);
    var r := |s.reqs|;
    CurrentBucketsExact(events, x.limits, x.cal);
    AdmitStates(s, x, tokens);
    CalmSnoc(events, Arrive, x, n);
    longer := events + [Arrive];
    CalmSnoc(longer, CheckMonth(r), x, n);
    longer := longer + [CheckMonth(r)];
    CalmSnoc(longer, Answer(r, tokens), x, n);
    longer := longer + [Answer(r, tokens)];
  }

  lemma AdmitStates(s: State, x: Setting, tokens: nat)
    requires Read(s.store, Today(s.now), s.now) < x.limits.day
    requires Read(s.store, ThisMonth(x.cal, s.now), s.now) < x.limits.month
    ensures var r := |s.reqs|;
            var s1 := After(s, Arrive, x.limits, x.cal);
            var s2 := After(s1, CheckMonth(r), x.limits, x.cal);
            var s3 := After(s2, Answer(r, tokens), x.limits, x.cal);
            && s1 == s.(reqs := s.reqs + [Checked]) && s2 == s.(reqs := s.reqs + [Admitted])
            && s3 == s.(reqs := s.reqs + [Spent(tokens)], ledger := s.ledger + [Row(true, tokens)])
  {
    var r := |s.reqs|;
    assert (s.reqs + [Checked])[r := Admitted] == s.reqs + [Admitted];
    assert (s.reqs + [Admitted])[r := Spent(tokens)] == s.reqs + [Spent(tokens)];
  }

  /** An answered request's four commands. */
  lemma Spend(events: seq<Event>, x: Setting, n: nat, usage: nat, r: nat, tokens: nat) returns (longer: seq<Event>)
    requires Reaches(events, x, n, usage)
    requires n <= r < |At(events, x).reqs| && At(events, x).reqs[r] == Spent(tokens)
    requires |At(events, x).reqs| - n <= x.k
    ensures Reaches(longer, x, n, usage + tokens)
    ensures At(longer, x).reqs == At(events, x).reqs[r := Done(tokens)]
  {
    var s := At(events, x);
    SpendStates(s, x, r, tokens);
    longer := events;
    var e := Consume(r);
    CalmSnoc(longer, e, x, n);
    longer := longer + [e];
    CalmSnoc(longer, e, x, n);
    longer := longer + [e];
    CalmSnoc(longer, e, x, n);
    longer := longer + [e];
    CalmSnoc(longer, e, x, n);
    longer := longer + [e];
    var day, month := Bump(Daily(0), tokens), Bump(Monthly(x.cal(0)), tokens);
    AddedSnoc(s.bumps, day, Daily(0));
    AddedSnoc(s.bumps, day, Monthly(x.cal(0)));
    AddedSnoc(s.bumps + [day], month, Daily(0));
    AddedSnoc(s.bumps + [day], month, Monthly(x.cal(0)));
  }

  lemma SpendStates(s: State, x: Setting, r: nat, tokens: nat)
    requires s.now == 0 && r < |s.reqs| && s.reqs[r] == Spent(tokens)
    ensures var e := Consume(r);
            var s1 := After(s, e, x.limits, x.cal);
            var s2 := After(s1, e, x.limits, x.cal);
            var s3 := After(s2, e, x.limits, x.cal);
            var s4 := After(s3, e, x.limits, x.cal);
            && s1.reqs == s.reqs[r := DayBumped(tokens, Daily(0))] && s2.reqs == s.reqs[r := DayArmed(tokens)]
            && s3.reqs == s.reqs[r := MonthBumped(tokens, Monthly(x.cal(0)))] && s4.reqs == s.reqs[r := Done(tokens)]
            && s4.bumps == s.bumps + [Bump(Daily(0), tokens)] + [Bump(Monthly(x.cal(0)), tokens)] && s4.now == 0
  {
  }

  /** Requests one after another, of one token each. */
  lemma {:induction false} Fill(x: Setting, usage: nat) returns (events: seq<Event>)
    requires Sensible(x.cal) && x.k >= 1 && x.m >= 1 && usage < x.limits.day && usage < x.limits.month
    ensures Reaches(events, x, |At(events, x).reqs|, usage)
  {
    events := [];
    if usage > 0 {
      var before := Fill(x, usage - 1);
      var n := |At(before, x).reqs|;
      events := Admit(before, x, n, usage - 1, 1);
      events := Spend(events, x, n, usage - 1, n, 1);
      assert DoneUpTo(At(events, x).reqs, n + 1);
    }
  }

  ghost predicate SpentFrom(reqs: seq<Phase>, from: nat, m: nat) {
    from <= |reqs| && forall i :: from <= i < |reqs| ==> reqs[i] == Spent(m)
  }

  /** `j` requests come in, and none is counted yet. */
  lemma {:induction false} Crowd(events: seq<Event>, x: Setting, n: nat, usage: nat, j: nat)
    returns (longer: seq<Event>)
    requires Sensible(x.cal) && Reaches(events, x, n, usage) && |At(events, x).reqs| == n && j <= x.k
    requires usage < x.limits.day && usage < x.limits.month
    ensures Reaches(longer, x, n, usage) && |At(longer, x).reqs| == n + j && SpentFrom(At(longer, x).reqs, n, x.m)
    decreases j
  {
    longer := events;
    if j > 0 {
      longer := Crowd(events, x, n, usage, j - 1);
      longer := Admit(longer, x, n, usage, x.m);
    }
  }

  ghost predicate Totals(total: nat, usage: nat, j: nat, m: nat) {
    total == usage + j * m
  }

  lemma OneLess(total: nat, usage: nat, j: nat, m: nat)
    requires Totals(total, usage, j, m)
    ensures j == 0 ==> total == usage
    ensures j > 0 ==> Totals(total, usage + m, j - 1, m)
  {
    assert j > 0 ==> m + (j - 1) * m == j * m;
  }

  /** The last `j` of them are counted. */
  lemma {:induction false} CountAll(events: seq<Event>, x: Setting, n: nat, usage: nat, j: nat, total: nat)
    returns (longer: seq<Event>)
    requires Reaches(events, x, n, usage) && n + j <= |At(events, x).reqs| <= n + x.k
    requires forall i :: n <= i < n + j ==> At(events, x).reqs[i] == Spent(x.m)
    requires Totals(total, usage, j, x.m)
    ensures Reaches(longer, x, n, total)
    decreases j
  {
    OneLess(total, usage, j, x.m);
    if j == 0 {
      longer := events;
    } else {
      longer := Spend(events, x, n, usage, n + j - 1, x.m);
      longer := CountAll(longer, x, n, usage + x.m, j - 1, total);
    }
  }

  /**
    For every positive limit, number in flight and size of a request, some run keeps to these and is
    `k * m - 1` tokens over the limit at its end, on the day and in the month.
  */
  lemma OvershootReached(limit: int, cal: Calendar, k: nat, m: nat) returns (events: seq<Event>)
    requires Sensible(cal) && limit >= 1 && k >= 1 && m >= 1
    ensures var limits := Limits(limit, limit);
            var s := Run(events, limits, cal);
            && Calm(events, limits, cal, k, m)
            && Read(s.store, Today(s.now), s.now) == limit - 1 + k * m
            && Read(s.store, ThisMonth(cal, s.now), s.now) == limit - 1 + k * m
  {
    var x := Setting(Limits(limit, limit), cal, k, m);
    events := Full(x, limit - 1, limit - 1 + k * m);
    UsageRead(events, x, limit - 1 + k * m);
  }

  lemma Full(x: Setting, usage: nat, total: nat) returns (events: seq<Event>)
    requires Sensible(x.cal) && x.k >= 1 && x.m >= 1 && usage < x.limits.day && usage < x.limits.month
    requires Totals(total, usage, x.k, x.m)
    ensures Calm(events, x.limits, x.cal, x.k, x.m) && Counts(events, x, total)
  {
    events := Fill(x, usage);
    var n := |At(events, x).reqs|;
    events := Crowd(events, x, n, usage, x.k);
    events := CountAll(events, x, n, usage, x.k, total);
  }

  ghost predicate Counts(events: seq<Event>, x: Setting, usage: nat) {
    Stands(At(events, x), x.cal, 0, usage)
  }

  lemma UsageRead(events: seq<Event>, x: Setting, usage: nat)
    requires Sensible(x.cal) && Counts(events, x, usage)
    ensures var s := At(events, x);
            && Read(s.store, Today(s.now), s.now) == usage
            && Read(s.store, ThisMonth(x.cal, s.now), s.now) == usage
  {
    CurrentBucketsExact(events, x.limits, x.cal);
  }

  // ---- rollover ----

  /** Whatever was used before, the next day, and the next month, begin with nothing counted. */
  lemma RolloverResets(events: seq<Event>, limits: Limits, cal: Calendar, d: nat)
    requires Sensible(cal)
    ensures var s, t := Run(events, limits, cal), Run(events + [Tick(d)], limits, cal);
            && t.now == s.now + d
            && (t.now / 86400 > s.now / 86400 ==> Read(t.store, Daily(t.now / 86400), t.now) == 0)
            && (cal(t.now / 86400) > cal(s.now / 86400) ==> Read(t.store, Monthly(cal(t.now / 86400)), t.now) == 0)
  {
    var s, t := Run(events, limits, cal), Run(events + [Tick(d)], limits, cal);
    assert (events + [Tick(d)])[..|events|] == events;
    RunExact(events, limits, cal);
    CurrentBucketsExact(events + [Tick(d)], limits, cal);
    if t.now / 86400 > s.now / 86400 {
      NoneYet(s, cal, Daily(t.now / 86400));
    }
    if cal(t.now / 86400) > cal(s.now / 86400) {
      NoneYet(s, cal, Monthly(cal(t.now / 86400)));
    }
  }

  lemma NoneYet(s: State, cal: Calendar, key: Key)
    requires KeysPast(s, cal) && !Past(cal, key, s.now)
    ensures Added(s.bumps, key) == 0
  {
    AddedNone(s.bumps, key);
  }
}
