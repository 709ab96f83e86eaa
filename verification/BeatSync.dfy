/**
  The beat scheduler's flush: names of tasks with unsaved state are popped and saved one by one,
  while every look at the schedule may find it changed, flush again and reload.
*/
module BeatSync {
  import opened Basics
  import opened Options

  const YEAR := 365 * 86400

  /** How often and when last a task ran, as `save` writes it; a task that never ran has no time. */
  datatype Runs = Runs(total: nat, last: Option<int>)

  datatype Row = Row(name: nat, enabled: bool, start: Option<int>, runs: Runs)

  /** The rows by id. */
  type Table = map<nat, Row>

  /** A scheduled task: the id of the row it was loaded from, and its state in memory. */
  datatype Entry = Entry(id: nat, runs: Runs)

  /** `used` holds every id ever given out; `reloads` counts the times the schedule was loaded. */
  datatype Memory = Memory(db: Table, used: set<nat>, schedule: map<nat, Entry>, dirty: set<nat>, reloads: nat)

  ghost predicate UniqueNames(db: Table) {
    forall i, k :: i in db && k in db && db[i].name == db[k].name ==> i == k
  }

  ghost predicate Proper(m: Memory) {
    && m.db.Keys <= m.used && UniqueNames(m.db)
    && (forall n :: n in m.schedule ==> m.schedule[n].id in m.used && m.schedule[n].runs.last.Some?)
    && (forall n, o :: n in m.schedule && o in m.schedule && m.schedule[n].id == m.schedule[o].id ==> n == o)
  }

  /** The row of the entry, unless it is gone, holds the entry's state. */
  predicate Written(db: Table, e: Entry) {
    e.id in db ==> db[e.id].runs == e.runs
  }

  /** Or it holds everything but the time, having none, and loading it filled one in. */
  predicate Clean(db: Table, e: Entry) {
    e.id in db ==> db[e.id].runs == e.runs || db[e.id].runs == e.runs.(last := None)
  }

  ghost predicate AllClean(m: Memory) {
    forall n :: n in m.schedule ==> Clean(m.db, m.schedule[n])
  }

  /** What an entry's constructor makes of a row: without a time it gets `now`, or a year before its start. */
  function Filled(row: Row, now: int): Runs {
    if row.runs.last.Some? then row.runs
    else row.runs.(last := Some(if row.start.Some? then row.start.value - YEAR else now))
  }

  function EnabledTasks(db: Table, now: int): map<nat, Entry>
    requires UniqueNames(db)
  {
    map id | id in db && db[id].enabled :: db[id].name := Entry(id, Filled(db[id], now))
  }

  function Stored(db: Table, e: Entry): Table {
    if e.id in db then db[e.id := db[e.id].(runs := e.runs)] else db
  }

  /** Saving an entry writes its state into its row, if there is one, and touches nothing else. */
  ghost predicate WritesOnly(before: Table, e: Entry, after: Table) {
    && after.Keys == before.Keys
    && (forall id :: id in after && id != e.id ==> after[id] == before[id])
    && (e.id in after ==>
          after[e.id].runs == e.runs && after[e.id].name == before[e.id].name
          && after[e.id].enabled == before[e.id].enabled && after[e.id].start == before[e.id].start)
  }

  /**
    What other processes may do to the table meanwhile: rename, enable, disable, delete and add
    tasks, but not touch the state of one that stays, nor use an id again.
  */
  ghost predicate Edited(m: Memory, n: Memory) {
    && n == m.(db := n.db, used := n.used) && m.used <= n.used && n.db.Keys <= n.used && UniqueNames(n.db)
    && forall id :: id in n.db && id in m.used ==> id in m.db && n.db[id].runs == m.db[id].runs
  }

  // ---- what a flush may do ----

  /** The state of a dirty name. */
  ghost predicate Pending(m: Memory, e: Entry) {
    exists n :: n in m.dirty && n in m.schedule && m.schedule[n] == e
  }

  /**
    Rows change only to the state of a dirty name, or get the time they lacked; a reload leaves the
    schedule as the rows say, but for the times it filled in.
  */
  ghost predicate Evolved(m: Memory, n: Memory) {
    && Proper(n) && m.used <= n.used && m.reloads <= n.reloads
    && (forall id :: id in n.db && id in m.used ==> id in m.db && Flows(m, n, id))
    && (n.reloads == m.reloads ==> n.schedule == m.schedule)
    && (n.reloads > m.reloads ==> AllClean(n))
  }

  /** A row without a time has been given one. */
  predicate Timed(before: Runs, after: Runs) {
    before.last.None? && after.last.Some? && after.total == before.total
  }

  /** Only a reload fills in times. */
  ghost predicate Flows(m: Memory, n: Memory, id: nat)
    requires id in m.db && id in n.db
  {
    var before, after := m.db[id].runs, n.db[id].runs;
    after == before || Pending(m, Entry(id, after)) || (n.reloads > m.reloads && Timed(before, after))
  }

  lemma FlowsOn(m: Memory, now: Memory, n: Memory, id: nat)
    requires Proper(m) && Evolved(m, now) && now.dirty <= m.dirty && Evolved(now, n)
    requires id in m.db && id in now.db && id in n.db && Flows(m, now, id) && Flows(now, n, id)
    ensures Flows(m, n, id)
  {
    var after := n.db[id].runs;
    if Pending(now, Entry(id, after)) {
      var x :| x in now.dirty && x in now.schedule && now.schedule[x] == Entry(id, after);
      if now.reloads > m.reloads {
        assert Clean(now.db, now.schedule[x]);
      }
    }
  }

  /** Without a reload the rows get only scheduled states, so a clean entry stays clean. */
  lemma CleanStays(now: Memory, n: Memory, x: nat)
    requires Proper(now) && Evolved(now, n) && n.reloads == now.reloads
    requires x in now.schedule && Clean(now.db, now.schedule[x])
    ensures Clean(n.db, now.schedule[x])
  {
    var id := now.schedule[x].id;
    if id in n.db {
      assert Flows(now, n, id);
    }
  }

  lemma EvolvesOn(m: Memory, now: Memory, n: Memory)
    requires Proper(m) && Evolved(m, now) && now.dirty <= m.dirty && Evolved(now, n)
    ensures Evolved(m, n)
  {
    forall id | id in n.db && id in m.used
      ensures id in m.db && Flows(m, n, id)
    {
      FlowsOn(m, now, n, id);
    }
    forall x | n.reloads > m.reloads && x in n.schedule
      ensures Clean(n.db, n.schedule[x])
    {
      if n.reloads == now.reloads {
        CleanStays(now, n, x);
      }
    }
  }

  lemma EditEvolves(m: Memory, now: Memory, n: Memory)
    requires Evolved(m, now) && Edited(now, n)
    ensures Evolved(m, n)
  {
    forall id | id in n.db && id in m.used
      ensures id in m.db && Flows(m, n, id)
    {
      assert id in now.db && Flows(m, now, id);
    }
  }

  /** Saving a scheduled name that was dirty; after a reload this writes at most a time the row lacked. */
  lemma SaveEvolves(m: Memory, now: Memory, name: nat)
    requires Proper(m) && Evolved(m, now) && name in m.dirty && name in now.schedule
    ensures Evolved(m, now.(db := Stored(now.db, now.schedule[name])))
  {
    var n := now.(db := Stored(now.db, now.schedule[name]));
    if now.reloads > m.reloads {
      assert Clean(now.db, now.schedule[name]);
    }
    forall id | id in n.db && id in m.used
      ensures id in m.db && Flows(m, n, id)
    {
      assert id in now.db && Flows(m, now, id);
    }
  }

  /** An entry that was clean stays written as long as no dirty name shares its row. */
  lemma WrittenStays(m: Memory, n: Memory, e: Entry)
    requires Evolved(m, n) && e.id in m.used && Written(m.db, e) && e.runs.last.Some?
    requires forall x :: x in m.dirty && x in m.schedule && m.schedule[x].id == e.id ==> Written(m.db, m.schedule[x])
    ensures Written(n.db, e)
  {
    if e.id in n.db {
      assert Flows(m, n, e.id);
    }
  }

  /**
    What a flush did: database errors met, names saved, names dropped by an error, and names whose
    unsaved state a reload may have overwritten before it was saved.
  */
  datatype Report = Report(errors: nat, saved: set<nat>, dropped: set<nat>, stale: set<nat>)

  const NOTHING := Report(0, {}, {}, {})

  function Sum(a: Report, b: Report): Report {
    Report(a.errors + b.errors, a.saved + b.saved, a.dropped + b.dropped, a.stale + b.stale)
  }

  /** Whatever happens: nothing new is dirty, and nothing is forgotten but what errors drop. */
  ghost predicate Accounted(m: Memory, n: Memory, left: set<nat>, r: Report) {
    && left <= m.dirty && r.saved <= m.dirty && r.dropped <= m.dirty && r.stale <= m.dirty
    && m.dirty <= left + r.saved + r.dropped
    && |r.dropped| <= r.errors
    && Evolved(m, n)
  }

  /** Without errors: a name is stale, or unscheduled, or still in `waiting`, or clean and written. */
  ghost predicate Delivered(m: Memory, n: Memory, waiting: set<nat>, left: set<nat>, r: Report, spare: nat) {
    r.errors == 0 ==>
      && |r.stale| + spare <= n.reloads - m.reloads
      && forall name :: name in m.dirty && name in m.schedule && name !in r.stale && name !in waiting ==>
           name !in left && Written(n.db, m.schedule[name])
  }

  // ---- the flush loop, one round at a time ----

  /** Half-way through a flush: `failed` names wait to become dirty again. */
  ghost predicate Flushing(m: Memory, now: Memory, failed: set<nat>, r: Report) {
    && Proper(m) && now.dirty !! failed
    && Accounted(m, now, now.dirty + failed, r)
    && Delivered(m, now, now.dirty, failed, r, 0)
    && Paced(m, now, failed, r)
  }

  /** Without errors: only a reload makes names stale, and then all that are still dirty. */
  ghost predicate Paced(m: Memory, now: Memory, failed: set<nat>, r: Report) {
    r.errors == 0 ==>
      && (now.reloads == m.reloads ==>
            failed !! now.schedule.Keys && r.saved <= now.schedule.Keys && r.stale == {})
      && (now.reloads > m.reloads ==> now.dirty * m.schedule.Keys <= r.stale)
  }

  /** What a look at the schedule may have done. */
  ghost predicate Looked(m: Memory, n: Memory, r: Report) {
    && Proper(m) && Accounted(m, n, n.dirty, r)
    && ((n == m && r == NOTHING) || ((r.errors == 0 ==> n.reloads > m.reloads) && Delivered(m, n, {}, n.dirty, r, 1)))
  }

  /** A round begins: the name is popped, and the look done. */
  ghost predicate Begun(m: Memory, now: Memory, failed: set<nat>, r: Report, name: nat, looked: Memory, more: Report) {
    Flushing(m, now, failed, r) && name in now.dirty && Looked(Popped(now, name), looked, more)
  }

  function Popped(now: Memory, name: nat): Memory {
    now.(dirty := now.dirty - {name})
  }

  /** The report after a look: if it reloaded, the popped name's own state may be gone. */
  function Combined(r: Report, more: Report, now: Memory, looked: Memory, name: nat): Report {
    var sum := Sum(r, more);
    sum.(stale := sum.stale + if looked.reloads > now.reloads then {name} else {})
  }

  lemma LookAccounts(m: Memory, now: Memory, failed: set<nat>, r: Report, name: nat, looked: Memory, more: Report)
    requires Begun(m, now, failed, r, name, looked, more)
    ensures var r1 := Combined(r, more, now, looked, name);
            && r1.saved <= m.dirty && r1.dropped <= m.dirty && r1.stale <= m.dirty
            && looked.dirty + failed <= m.dirty && name in m.dirty
            && m.dirty <= looked.dirty + failed + r1.saved + r1.dropped + {name}
            && |r1.dropped| <= r1.errors && Evolved(m, looked)
            && looked.dirty !! failed && name !in looked.dirty && name !in failed
  {
    var popped := Popped(now, name);
    UnionAtMost(r.dropped, more.dropped);
    EvolvesOn(m, popped, looked);
    forall x | x in m.dirty
      ensures x in looked.dirty || x in failed || x in r.saved + more.saved || x in r.dropped + more.dropped
              || x == name
    {
      assert x in now.dirty && x != name ==> x in popped.dirty;
    }
  }

  /** Without errors so far, every scheduled name but the popped one is where the invariant wants it. */
  lemma LookDelivers(m: Memory, now: Memory, failed: set<nat>, r: Report, name: nat, looked: Memory, more: Report)
    requires Begun(m, now, failed, r, name, looked, more)
    ensures var r1 := Combined(r, more, now, looked, name);
            r1.errors == 0 ==>
              && |r1.stale| <= looked.reloads - m.reloads
              && (looked.reloads > m.reloads ==>
                    looked.dirty * m.schedule.Keys <= r1.stale && (name in m.schedule ==> name in r1.stale))
              && (looked.reloads == m.reloads ==> looked == Popped(now, name) && more == NOTHING)
  {
    if looked.reloads > now.reloads {
      UnionAtMost(r.stale, more.stale);
      UnionAtMost(r.stale + more.stale, {name});
    } else {
      assert r.stale + more.stale + {} == r.stale + more.stale;
      UnionAtMost(r.stale, more.stale);
    }
  }

  lemma LookWrites(m: Memory, now: Memory, failed: set<nat>, r: Report, name: nat, looked: Memory, more: Report, n: nat)
    requires Begun(m, now, failed, r, name, looked, more)
    requires var r1 := Combined(r, more, now, looked, name);
             r1.errors == 0 && n in m.dirty && n in m.schedule && n !in r1.stale && n !in looked.dirty && n != name
    ensures n !in failed && Written(looked.db, m.schedule[n])
  {
    if n in now.dirty {
      assert n in Popped(now, name).dirty && now.schedule == m.schedule;
    } else {
      WrittenStays(Popped(now, name), looked, m.schedule[n]);
    }
  }

  /** The popped name is lost to an error. */
  lemma RoundDrops(m: Memory, now: Memory, failed: set<nat>, r: Report, name: nat, looked: Memory, more: Report,
                   r': Report)
    requires Begun(m, now, failed, r, name, looked, more)
    requires var r1 := Combined(r, more, now, looked, name);
             r'.errors >= 1 && r' == r1.(errors := r'.errors, dropped := r1.dropped + {name})
             && |more.dropped| + |r.dropped| + 1 <= r'.errors
    ensures Flushing(m, looked, failed, r')
  {
    LookAccounts(m, now, failed, r, name, looked, more);
    UnionAtMost(r.dropped, more.dropped);
    UnionAtMost(r.dropped + more.dropped, {name});
  }

  /** The popped name is not in the schedule: it will be dirty again. */
  lemma RoundFails(m: Memory, now: Memory, failed: set<nat>, r: Report, name: nat, looked: Memory, more: Report)
    requires Begun(m, now, failed, r, name, looked, more) && name !in looked.schedule
    ensures Flushing(m, looked, failed + {name}, Combined(r, more, now, looked, name))
  {
    LookAccounts(m, now, failed, r, name, looked, more);
    assert looked.dirty + (failed + {name}) == looked.dirty + failed + {name};
    FailDelivers(m, now, failed, r, name, looked, more);
    RoundPaced(m, now, failed, r, name, looked, more);
  }

  /** The pace is kept whether the name fails or is saved. */
  lemma RoundPaced(m: Memory, now: Memory, failed: set<nat>, r: Report, name: nat, looked: Memory, more: Report)
    requires Begun(m, now, failed, r, name, looked, more)
    ensures var r1 := Combined(r, more, now, looked, name);
            && (name !in looked.schedule ==> Paced(m, looked, failed + {name}, r1))
            && (name in looked.schedule ==> Paced(m, looked, failed, r1.(saved := r1.saved + {name})))
  {
    LookDelivers(m, now, failed, r, name, looked, more);
  }

  lemma FailDelivers(m: Memory, now: Memory, failed: set<nat>, r: Report, name: nat, looked: Memory, more: Report)
    requires Begun(m, now, failed, r, name, looked, more) && name !in looked.schedule
    ensures Delivered(m, looked, looked.dirty, failed + {name}, Combined(r, more, now, looked, name), 0)
  {
    var r1 := Combined(r, more, now, looked, name);
    LookDelivers(m, now, failed, r, name, looked, more);
    forall n | r1.errors == 0 && n in m.dirty && n in m.schedule && n !in r1.stale && n !in looked.dirty
      ensures n !in failed + {name} && Written(looked.db, m.schedule[n])
    {
      if n != name {
        LookWrites(m, now, failed, r, name, looked, more, n);
      }
    }
  }

  function Saved(looked: Memory, name: nat): Memory
    requires name in looked.schedule
  {
    looked.(db := Stored(looked.db, looked.schedule[name]))
  }

  /** The popped name is saved. */
  lemma RoundSaves(m: Memory, now: Memory, failed: set<nat>, r: Report, name: nat, looked: Memory, more: Report)
    requires Begun(m, now, failed, r, name, looked, more) && name in looked.schedule
    ensures var r1 := Combined(r, more, now, looked, name);
            Flushing(m, Saved(looked, name), failed, r1.(saved := r1.saved + {name}))
  {
    LookAccounts(m, now, failed, r, name, looked, more);
    SaveEvolves(m, looked, name);
    SaveDelivers(m, now, failed, r, name, looked, more);
    RoundPaced(m, now, failed, r, name, looked, more);
  }

  /** Saving one name writes no other name's row. */
  lemma SaveSpares(m: Memory, looked: Memory, name: nat, n: nat)
    requires Proper(m) && Evolved(m, looked) && name in m.dirty && name in looked.schedule
    requires n in m.schedule && n != name && Written(looked.db, m.schedule[n])
    ensures Written(Saved(looked, name).db, m.schedule[n])
  {
    SaveEvolves(m, looked, name);
  }

  lemma SaveDelivers(m: Memory, now: Memory, failed: set<nat>, r: Report, name: nat, looked: Memory, more: Report)
    requires Begun(m, now, failed, r, name, looked, more) && name in looked.schedule
    ensures Delivered(m, Saved(looked, name), looked.dirty, failed, Combined(r, more, now, looked, name), 0)
  {
    var r1 := Combined(r, more, now, looked, name);
    LookAccounts(m, now, failed, r, name, looked, more);
    LookDelivers(m, now, failed, r, name, looked, more);
    forall n | r1.errors == 0 && n in m.dirty && n in m.schedule && n !in r1.stale && n !in looked.dirty
      ensures n !in failed && Written(Saved(looked, name).db, m.schedule[n])
    {
      if n != name {
        LookWrites(m, now, failed, r, name, looked, more, n);
        SaveSpares(m, looked, name, n);
      }
    }
  }

  /** How a round ends; a database error not yet counted by the look counts `extra`. */
  datatype Outcome = Done | Missing | Broken(extra: nat)

  function Extra(outcome: Outcome): nat {
    if outcome.Broken? then outcome.extra else 0
  }

  ghost predicate Ended(looked: Memory, n: Memory, name: nat, outcome: Outcome, more: Report) {
    match outcome
    case Done => name in looked.schedule && n == Saved(looked, name)
    case Missing => name !in looked.schedule && n == looked
    case Broken(extra) => n == looked && |more.dropped| < more.errors + extra
  }

  lemma Round(m: Memory, now: Memory, failed: set<nat>, r: Report, name: nat, looked: Memory, more: Report, n: Memory,
              outcome: Outcome) returns (r': Report)
    requires Begun(m, now, failed, r, name, looked, more) && Ended(looked, n, name, outcome, more)
    ensures Flushing(m, n, if outcome.Missing? then failed + {name} else failed, r')
    ensures outcome.Broken? ==> r'.errors >= 1
    ensures r'.errors == r.errors + more.errors + Extra(outcome)
  {
    r' := Combined(r, more, now, looked, name);
    match outcome
    case Done =>
      RoundSaves(m, now, failed, r, name, looked, more);
      r' := r'.(saved := r'.saved + {name});
    case Missing =>
      RoundFails(m, now, failed, r, name, looked, more);
    case Broken(extra) =>
      r' := r'.(errors := r'.errors + extra, dropped := r'.dropped + {name});
      RoundDrops(m, now, failed, r, name, looked, more, r');
  }

  /**
    When the popped name is saved, the unsaved state it had before the look reaches its row exactly if
    the look did not reload, or the row is gone.  If nothing was unsaved, nothing but a time that
    loading had filled in can be replaced.
  */
  lemma SavedExactly(popped: Memory, looked: Memory, more: Report, name: nat)
    requires Looked(popped, looked, more) && name !in popped.dirty
    requires name in popped.schedule && name in looked.schedule
    ensures var e := popped.schedule[name];
            var db := Saved(looked, name).db;
            && (!Clean(popped.db, e) ==> (Written(db, e) <==> looked.reloads == popped.reloads || e.id !in db))
            && (Clean(popped.db, e) && e.id in db ==> db[e.id].runs.total == e.runs.total)
            && (Written(popped.db, e) ==> Written(db, e))
  {
    var e := popped.schedule[name];
    var db := Saved(looked, name).db;
    if looked.reloads > popped.reloads && e.id in db {
      assert Flows(popped, looked, e.id);
      assert Clean(looked.db, looked.schedule[name]);
    }
  }

  /** A whole flush. */
  ghost predicate Flushed(m: Memory, n: Memory, r: Report) {
    && Accounted(m, n, n.dirty, r)
    && Delivered(m, n, {}, n.dirty, r, 0)
    && (n.reloads == m.reloads && r.errors == 0 ==> n.dirty == m.dirty - n.schedule.Keys && r.stale == {})
  }

  lemma EditKeepsWritten(m: Memory, n: Memory, e: Entry)
    requires Edited(m, n) && e.id in m.used && Written(m.db, e)
    ensures Written(n.db, e)
  {
  }

  function Reloaded(m: Memory, now: int): Memory
    requires UniqueNames(m.db)
  {
    m.(schedule := EnabledTasks(m.db, now), reloads := m.reloads + 1)
  }

  /**
    The entry has the row's run count and, if the row has one, its time; otherwise the time of loading
    or, for a task with a start, the moment 365 days before it.
  */
  predicate LoadedFrom(row: Row, e: Entry, now: int) {
    && e.runs.total == row.runs.total && e.runs.last.Some?
    && (row.runs.last.Some? ==> e.runs.last == row.runs.last)
    && (row.runs.last.None? && row.start.Some? ==> e.runs.last.value + 365 * 24 * 60 * 60 == row.start.value)
    && (row.runs.last.None? && row.start.None? ==> e.runs.last.value == now)
  }

  /** The schedule has an entry for each enabled row, under its name, and no other. */
  ghost predicate Loaded(m: Memory, now: int) {
    (forall id :: Scheduled(m, id)) && (forall name :: Backed(m, name, now))
  }

  predicate Scheduled(m: Memory, id: nat) {
    id in m.db && m.db[id].enabled ==> m.db[id].name in m.schedule && m.schedule[m.db[id].name].id == id
  }

  predicate Backed(m: Memory, name: nat, now: int) {
    name in m.schedule ==>
      var e := m.schedule[name];
      e.id in m.db && m.db[e.id].enabled && m.db[e.id].name == name && LoadedFrom(m.db[e.id], e, now)
  }

  /** A scheduled name is an enabled row's, and once loaded differs from it exactly if the row lacks a time. */
  lemma LoadedExactly(m: Memory, now: int, name: nat)
    requires Proper(m) && name in Reloaded(m, now).schedule
    ensures var e := Reloaded(m, now).schedule[name];
            && e.id in m.db && m.db[e.id].enabled && m.db[e.id].name == name && LoadedFrom(m.db[e.id], e, now)
            && Clean(m.db, e) && (Written(m.db, e) <==> m.db[e.id].runs.last.Some?)
  {
    var id :| id in m.db && m.db[id].enabled && m.db[id].name == name;
    assert Reloaded(m, now).schedule[name] == Entry(id, Filled(m.db[id], now));
  }

  lemma ReloadLoads(m: Memory, now: int)
    requires Proper(m)
    ensures Loaded(Reloaded(m, now), now)
  {
    var n := Reloaded(m, now);
    forall name
      ensures Backed(n, name, now)
    {
      if name in n.schedule {
        LoadedExactly(m, now, name);
      }
    }
    forall id
      ensures Scheduled(n, id)
    {
      if id in m.db && m.db[id].enabled {
        assert m.db[id].name in n.schedule;
        LoadedExactly(m, now, m.db[id].name);
      }
    }
  }

  lemma ReloadCleans(m: Memory, now: int)
    requires Proper(m)
    ensures Proper(Reloaded(m, now)) && AllClean(Reloaded(m, now))
  {
    var n := Reloaded(m, now);
    forall name | name in n.schedule
      ensures n.schedule[name].id in m.db && m.db[n.schedule[name].id].name == name
      ensures n.schedule[name].runs.last.Some? && Clean(n.db, n.schedule[name])
    {
      LoadedExactly(m, now, name);
    }
  }

  lemma ReloadEvolves(m: Memory, flushed: Memory, now: int)
    requires Evolved(m, flushed)
    ensures Evolved(m, Reloaded(flushed, now))
  {
    ReloadCleans(flushed, now);
    forall id | id in flushed.db && id in m.used
      ensures id in m.db && Flows(m, Reloaded(flushed, now), id)
    {
      assert Flows(m, flushed, id);
    }
  }

  lemma EditDelivers(m: Memory, flushed: Memory, r: Report, edited: Memory, now: int)
    requires Proper(m) && Evolved(m, flushed) && Edited(flushed, edited)
    requires Delivered(m, flushed, {}, flushed.dirty, r, 0)
    ensures Delivered(m, Reloaded(edited, now), {}, edited.dirty, r, 1)
  {
    forall name | r.errors == 0 && name in m.dirty && name in m.schedule && name !in r.stale
      ensures Written(edited.db, m.schedule[name])
    {
      EditKeepsWritten(flushed, edited, m.schedule[name]);
    }
  }

  /** After a flush and other processes' edits, the reload succeeds or raises. */
  lemma LookReloads(m: Memory, flushed: Memory, r: Report, edited: Memory, now: int)
    requires Proper(m) && Flushed(m, flushed, r) && Edited(flushed, edited)
    ensures Looked(m, edited, r.(errors := r.errors + 1)) && |r.dropped| < r.errors + 1
    ensures Looked(m, Reloaded(edited, now), r)
  {
    EditEvolves(m, flushed, edited);
    ReloadEvolves(m, edited, now);
    EditDelivers(m, flushed, r, edited, now);
  }

  lemma FlushStarts(m: Memory)
    requires Proper(m)
    ensures Flushing(m, m, {}, NOTHING)
  {
    assert m.dirty + {} == m.dirty;
  }

  lemma FlushEnds(m: Memory, now: Memory, failed: set<nat>, r: Report)
    requires Flushing(m, now, failed, r) && (now.dirty == {} || r.errors >= 1)
    ensures Flushed(m, now.(dirty := now.dirty + failed), r)
  {
    if r.errors == 0 {
      assert now.dirty + failed == failed;
      assert r.dropped == {};
    }
  }

  // ---- what is never forgotten ----

  /** A scheduled name whose state its row does not hold is dirty, or lost to an error since the last reload. */
  ghost predicate Tracked(m: Memory, lost: set<nat>) {
    forall n :: n in m.schedule && n !in m.dirty && n !in lost ==> Clean(m.db, m.schedule[n])
  }

  lemma PopTracks(m: Memory, name: nat, lost: set<nat>, held: set<nat>)
    requires Proper(m) && Tracked(m, lost + held)
    ensures Proper(Popped(m, name)) && Tracked(Popped(m, name), lost + (held + {name}))
  {
  }

  lemma SaveTracks(m: Memory, name: nat, lost: set<nat>)
    requires Proper(m) && name in m.schedule && Tracked(m, lost + {name})
    ensures Tracked(Saved(m, name), lost)
  {
  }

  lemma ReloadTracks(m: Memory, lost: set<nat>, now: int)
    requires Proper(m)
    ensures Proper(Reloaded(m, now)) && Tracked(Reloaded(m, now), lost)
  {
    ReloadCleans(m, now);
  }

  lemma EditTracks(m: Memory, n: Memory, lost: set<nat>)
    requires Proper(m) && Edited(m, n) && Tracked(m, lost)
    ensures Tracked(n, lost)
  {
  }

  /** A flush without errors, with nothing lost before it, leaves nothing unsaved of any scheduled name. */
  lemma FlushCleans(m: Memory, n: Memory, r: Report)
    requires Flushed(m, n, r) && r.errors == 0 && Tracked(n, {})
    ensures AllClean(n)
  {
  }

  // ---- the scheduler ----

  function Faults(commands: seq<bool>): nat {
    if commands == [] then 0 else (if commands[0] then 1 else 0) + Faults(commands[1..])
  }

  /** `commands` says which of the database commands to come fail; when it is used up, none does. */
  class DatabaseScheduler {
    var db: Table
    var used: set<nat>
    var schedule: map<nat, Entry>
    var dirty: set<nat>
    var initialRead: bool
    var lastUpdate: Option<int>
    var heapInvalidated: bool
    var commands: seq<bool>
    ghost var reloads: nat
    ghost var lost: set<nat>

    ghost function State(): Memory
      reads this
    {
      Memory(db, used, schedule, dirty, reloads)
    }

    /** `held` names are popped by a flush that is still under way. */
    ghost predicate Valid(held: set<nat>)
      reads this
    {
      Proper(State()) && Tracked(State(), lost + held)
    }

    /** The first look, and every look that finds a stamp later than the last one. */
    predicate Due(stored: Option<int>)
      reads this`initialRead, this`lastUpdate
    {
      initialRead || (stored.Some? && lastUpdate.Some? && stored.value > lastUpdate.value)
    }

    constructor (db: Table, commands: seq<bool>)
      requires UniqueNames(db)
      ensures Valid({}) && lost == {} && dirty == {} && schedule == map[] && this.db == db
      ensures initialRead && lastUpdate == None && !heapInvalidated && this.commands == commands
    {
      this.commands := commands;
      this.db, used, schedule, dirty, reloads, lost := db, db.Keys, map[], {}, 0, {};
      initialRead, lastUpdate, heapInvalidated := true, None, false;
    }

    /** A run: the entry's model moves on in place; its name becomes dirty, so the new state is not forgotten. */
    method Reserve(name: nat, now: int)
      requires Valid({}) && name in schedule
      modifies this`schedule, this`dirty
      ensures Valid({}) && dirty == old(dirty) + {name}
      ensures var was := old(schedule)[name];
              schedule == old(schedule)[name := Entry(was.id, Runs(was.runs.total + 1, Some(now)))]
      ensures Clean(db, old(schedule)[name]) && old(schedule)[name].id in db ==> !Clean(db, schedule[name])
    {
      schedule := schedule[name := schedule[name].(runs := Runs(schedule[name].runs.total + 1, Some(now)))];
      dirty := dirty + {name};
    }

    /** The next database command fails or not. */
    method Command() returns (fails: bool)
      modifies this`commands
      ensures fails == (old(commands) != [] && old(commands)[0])
      ensures commands == if old(commands) == [] then [] else old(commands)[1..]
      ensures Faults(old(commands)) == Faults(commands) + if fails then 1 else 0
    {
      if commands == [] {
        return false;
      }
      fails := commands[0];
      commands := commands[1..];
    }

    /** Other processes delete a row, or write one, keeping names apart and the state of a row that is there. */
    method Edit(id: nat, row: Row, delete: bool)
      requires Proper(State())
      modifies this`db, this`used
      ensures Edited(old(State()), State())
      ensures forall lost :: Tracked(old(State()), lost) ==> Tracked(State(), lost)
      ensures delete ==> db == old(db) - {id}
      ensures !delete && (id in old(db) || id !in old(used))
              && (forall k :: k in old(db) && k != id ==> old(db)[k].name != row.name) ==>
                && db - {id} == old(db) - {id} && id in db
                && db[id] == if id in old(db) then row.(runs := old(db)[id].runs) else row
    {
      ghost var m := State();
      if delete {
        db := db - {id};
      } else if (id in db || id !in used) && (forall k :: k in db && k != id ==> db[k].name != row.name) {
        db := db[id := if id in db then row.(runs := db[id].runs) else row];
        used := used + {id};
      }
      forall lost | Tracked(m, lost)
        ensures Tracked(State(), lost)
      {
        EditTracks(m, State(), lost);
      }
    }

    /** Changed iff a stamp is stored and later than the last look; the first look only remembers the time. */
    method ScheduleChanged(stored: Option<int>, now: int) returns (changed: bool)
      modifies this`lastUpdate
      ensures changed == (stored.Some? && old(lastUpdate).Some? && stored.value > old(lastUpdate).value)
      ensures lastUpdate == if stored.Some? then Some(now) else old(lastUpdate)
    {
      if stored.None? {
        return false;
      }
      var last := if lastUpdate.Some? then lastUpdate.value else stored.value;
      changed := stored.value > last;
      lastUpdate := Some(now);
    }

    /**
      Nothing new becomes dirty, and every name dirty on entry is saved, dirty again or dropped by
      an error, an error dropping at most one.  Without errors, each reload costs at most one name
      its unsaved state, and every other scheduled name is clean and written.  Without a reload the
      names still dirty are those the schedule does not know.  Without errors, and with nothing lost
      to an earlier one, every row then holds its scheduled state, but for a time filled in at loading.
      The errors are the commands that failed.  A round that ends in one is the flush's last.
    */
    method Sync(ghost held: set<nat>) returns (ghost r: Report, ghost broken: nat)
      requires Valid(held)
      modifies this
      ensures Valid(held) && Flushed(old(State()), State(), r)
      ensures r.errors == 0 ==> lost <= old(lost)
      ensures r.errors == 0 && lost + held == {} ==> AllClean(State())
      ensures Faults(old(commands)) == Faults(commands) + r.errors
      ensures old(dirty) == {} ==> heapInvalidated == old(heapInvalidated) && lastUpdate == old(lastUpdate)
      ensures initialRead ==> old(initialRead)
      ensures broken <= 1
      decreases |dirty|, 2
    {
      ghost var m := State();
      FlushStarts(m);
      var failed: set<nat>;
      failed, r, broken := SaveAll(m, held);
      Requeue(m, failed, r, held);
    }

    /** The loop of a flush: one round a dirty name, until none is left or an error ends it. */
    method SaveAll(ghost m: Memory, ghost held: set<nat>)
      returns (failed: set<nat>, ghost r: Report, ghost broken: nat)
      requires Valid(held) && Flushing(m, State(), {}, NOTHING)
      modifies this
      ensures Valid(held) && Flushing(m, State(), failed, r) && (dirty == {} || r.errors >= 1)
      ensures r.errors == 0 ==> lost <= old(lost)
      ensures Faults(old(commands)) == Faults(commands) + r.errors
      ensures old(dirty) == {} ==> heapInvalidated == old(heapInvalidated) && lastUpdate == old(lastUpdate)
      ensures initialRead ==> old(initialRead)
      ensures broken <= 1
      decreases |dirty|, 1
    {
      failed, r, broken := {}, NOTHING, 0;
      var stop := false;
      while dirty != {} && !stop
        invariant Valid(held) && Flushing(m, State(), failed, r)
        invariant r.errors == 0 ==> !stop && lost <= old(lost)
        invariant |dirty| <= |old(dirty)|
        invariant Faults(old(commands)) == Faults(commands) + r.errors
        invariant old(dirty) == {} ==>
                    dirty == {} && heapInvalidated == old(heapInvalidated) && lastUpdate == old(lastUpdate)
        invariant initialRead ==> old(initialRead)
        invariant broken == if stop then 1 else 0
        decreases |dirty|
      {
        var name: nat, outcome: Outcome;
        name, outcome, failed, r := SaveNext(m, failed, r, held);
        stop := outcome.Broken?;
        broken := broken + if outcome.Broken? then 1 else 0;
      }
    }

    /** In the end the names that failed are dirty again. */
    method Requeue(ghost m: Memory, failed: set<nat>, ghost r: Report, ghost held: set<nat>)
      requires Valid(held) && Flushing(m, State(), failed, r) && (dirty == {} || r.errors >= 1)
      modifies this`dirty
      ensures Valid(held) && Flushed(m, State(), r) && dirty == old(dirty) + failed
      ensures r.errors == 0 && lost + held == {} ==> AllClean(State())
    {
      FlushEnds(m, State(), failed, r);
      dirty := dirty + failed;
      if r.errors == 0 && lost + held == {} {
        FlushCleans(m, State(), r);
      }
    }

    method Pop(ghost held: set<nat>) returns (name: nat)
      requires dirty != {} && Valid(held)
      modifies this`dirty
      ensures name in old(dirty) && State() == Popped(old(State()), name) && |dirty| < |old(dirty)|
      ensures Valid(held + {name})
    {
      name :| name in dirty;
      PopTracks(State(), name, lost, held);
      SubsetSmaller(dirty - {name}, dirty);
      dirty := dirty - {name};
    }

    /** One round: pop a name, look, and save. */
    method SaveNext(ghost m: Memory, failed: set<nat>, ghost r: Report, ghost held: set<nat>)
      returns (name: nat, outcome: Outcome, failed': set<nat>, ghost r': Report)
      requires dirty != {} && Valid(held) && Flushing(m, State(), failed, r)
      modifies this
      ensures failed' == if outcome.Missing? then failed + {name} else failed
      ensures Valid(held) && Flushing(m, State(), failed', r')
      ensures |dirty| < |old(dirty)|
      ensures outcome.Broken? ==> r'.errors >= 1
      ensures r'.errors == 0 ==> r.errors == 0 && lost <= old(lost)
      ensures Faults(old(commands)) + r.errors == Faults(commands) + r'.errors && !initialRead
      decreases |dirty|, 0
    {
      ghost var before := State();
      name := Pop(held);
      var stored: Option<int> := *;
      var now: int := *;
      ghost var looked: Memory, more: Report;
      outcome, looked, more := SaveOne(name, stored, now, held);
      r' := Round(m, before, failed, r, name, looked, more, State(), outcome);
      failed' := if outcome.Missing? then failed + {name} else failed;
    }

    /**
      Look the popped name up in the schedule and save its entry.  The unsaved state it had before the
      look reaches its row exactly if the look did not reload, or the row is gone.  A look that is due
      reloads, unless an error ends the round; any other does nothing.
    */
    method SaveOne(name: nat, stored: Option<int>, now: int, ghost held: set<nat>)
      returns (outcome: Outcome, ghost looked: Memory, ghost more: Report)
      requires Valid(held + {name}) && name !in dirty
      modifies this
      ensures Valid(held)
      ensures Looked(old(State()), looked, more) && Ended(looked, State(), name, outcome, more)
      ensures outcome.Done? && name in old(schedule) ==>
                var e := old(schedule)[name];
                && (!Clean(old(db), e) ==> (Written(db, e) <==> reloads == old(reloads) || e.id !in db))
                && (Clean(old(db), e) && e.id in db ==> db[e.id].runs.total == e.runs.total)
                && (Written(old(db), e) ==> Written(db, e))
      ensures more.errors == 0 && !outcome.Broken? ==> lost <= old(lost)
      ensures |dirty| <= |old(dirty)|
      ensures old(Due(stored)) ==> outcome.Broken? || reloads > old(reloads)
      ensures !old(Due(stored)) ==> looked == old(State())
      ensures outcome.Done? ==> name in schedule && WritesOnly(looked.db, schedule[name], db)
      ensures Faults(old(commands)) == Faults(commands) + more.errors + Extra(outcome) && !initialRead
      decreases |dirty|, 5
    {
      ghost var popped := State();
      var raised: bool;
      raised, more := ReadSchedule(stored, now, held + {name});
      looked := State();
      SubsetSmaller(dirty, popped.dirty);
      if raised {
        lost := lost + {name};
        return Broken(0), looked, more;
      }
      if name !in schedule {
        return Missing, looked, more;
      }
      if name in popped.schedule {
        SavedExactly(popped, looked, more, name);
      }
      outcome := SaveEntry(name, held);
    }

    /** The entry's `save`, which may raise. */
    method SaveEntry(name: nat, ghost held: set<nat>) returns (outcome: Outcome)
      requires Valid(held + {name}) && name in schedule
      modifies this`db, this`lost, this`commands
      ensures Valid(held) && outcome == if Faults(commands) < Faults(old(commands)) then Broken(1) else Done
      ensures State() == if outcome.Done? then Saved(old(State()), name) else old(State())
      ensures outcome.Done? ==> lost == old(lost) && WritesOnly(old(db), schedule[name], db)
      ensures Faults(old(commands)) == Faults(commands) + Extra(outcome)
    {
      var fails := Command();
      if fails {
        lost := lost + {name};
        return Broken(1);
      }
      StoreEntry(name, held);
      outcome := Done;
    }

    method StoreEntry(name: nat, ghost held: set<nat>)
      requires Valid(held + {name}) && name in schedule
      modifies this`db
      ensures Valid(held) && State() == Saved(old(State()), name) && WritesOnly(old(db), schedule[name], db)
    {
      assert lost + (held + {name}) == lost + held + {name};
      SaveTracks(State(), name, lost + held);
      db := Stored(db, schedule[name]);
    }

    /**
      The `schedule` property: a look that is due flushes and, unless it raises, loads exactly the
      enabled rows; every such look but the first invalidates the heap.  Any other look changes nothing
      but the time of the last look.
    */
    method ReadSchedule(stored: Option<int>, now: int, ghost held: set<nat>) returns (raised: bool, ghost r: Report)
      requires Valid(held)
      modifies this
      ensures Valid(held) && Looked(old(State()), State(), r) && !initialRead
      ensures raised ==> |r.dropped| < r.errors
      ensures r.errors == 0 ==> lost <= old(lost)
      ensures Faults(old(commands)) == Faults(commands) + r.errors
      ensures !old(Due(stored)) ==>
                && !raised && r == NOTHING && State() == old(State()) && lost == old(lost)
                && heapInvalidated == old(heapInvalidated)
                && lastUpdate == if stored.Some? then Some(now) else old(lastUpdate)
      ensures old(Due(stored)) && !raised ==>
                reloads > old(reloads) && Loaded(State(), now) && (!old(initialRead) ==> heapInvalidated)
      ensures old(initialRead) && old(dirty) == {} ==>
                heapInvalidated == old(heapInvalidated) && lastUpdate == old(lastUpdate)
      decreases |dirty|, 4
    {
      raised, r := false, NOTHING;
      var initial := initialRead;
      var update := initialRead;
      if initialRead {
        initialRead := false;
      } else {
        update := ScheduleChanged(stored, now);
      }
      if update {
        raised, r := Refresh(initial, now, held);
      }
    }

    /** Flush and load; any load but the first invalidates the heap. */
    method Refresh(initial: bool, now: int, ghost held: set<nat>) returns (raised: bool, ghost r: Report)
      requires Valid(held) && !initialRead
      modifies this
      ensures Valid(held) && Looked(old(State()), State(), r) && !initialRead
      ensures raised ==> |r.dropped| < r.errors
      ensures r.errors == 0 ==> lost <= old(lost)
      ensures Faults(old(commands)) == Faults(commands) + r.errors
      ensures !raised ==> reloads > old(reloads) && Loaded(State(), now) && (!initial ==> heapInvalidated)
      ensures initial && old(dirty) == {} ==> heapInvalidated == old(heapInvalidated) && lastUpdate == old(lastUpdate)
      decreases |dirty|, 3
    {
      ghost var m := State();
      ghost var broken: nat;
      r, broken := Sync(held);
      raised, r := Load(m, r, now, held);
      if !raised && !initial {
        heapInvalidated := true;
      }
    }

    method Assign(now: int)
      requires Proper(State())
      modifies this`schedule, this`reloads, this`lost
      ensures State() == Reloaded(old(State()), now) && lost == {} && Loaded(State(), now)
      ensures forall held :: Valid(held)
    {
      ReloadTracks(State(), {}, now);
      ReloadLoads(State(), now);
      schedule := EnabledTasks(db, now);
      reloads := reloads + 1;
      lost := {};
    }

    /** Load the enabled tasks, which may raise. */
    method Load(ghost m: Memory, ghost r: Report, now: int, ghost held: set<nat>)
      returns (raised: bool, ghost r': Report)
      requires Proper(m) && Valid(held) && Flushed(m, State(), r)
      modifies this`db, this`used, this`schedule, this`reloads, this`lost, this`commands
      ensures Valid(held) && Looked(m, State(), r') && lost <= old(lost)
      ensures raised ==> |r'.dropped| < r'.errors
      ensures !raised ==> reloads > m.reloads && Loaded(State(), now)
      ensures Faults(old(commands)) + r.errors == Faults(commands) + r'.errors
      ensures r'.errors == r.errors + if raised then 1 else 0
    {
      raised := Command();
      ghost var flushed := State();
      var id: nat, row: Row, delete: bool := *, *, *;
      Edit(id, row, delete);
      ghost var edited := State();
      LookReloads(m, flushed, r, edited, now);
      if raised {
        r' := r.(errors := r.errors + 1);
      } else {
        r' := r;
        Assign(now);
        assert State() == Reloaded(edited, now);
      }
    }
  }
}
