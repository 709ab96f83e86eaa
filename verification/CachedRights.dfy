/**
  What a cached user record is used for: the permission check reads the record's own roles and
  menus, and a cached record is not asked again whether its user may come in.
*/
module CachedRights {
  import opened Options
  import opened UserCache

  // ---- the permission check ----

  ghost predicate HasMenus(roles: map<int, RoleView>) {
    exists r, m :: r in roles && m in roles[r].menus
  }

  predicate Carries(roles: map<int, RoleView>, r: int, m: int, p: Perm) {
    r in roles && m in roles[r].menus && roles[r].menus[m].enabled && p in roles[r].menus[m].perms
  }

  ghost predicate HasPerm(roles: map<int, RoleView>, p: Perm) {
    exists r, m :: Carries(roles, r, m, p)
  }

  /**
    The check passes; `perm` is absent where the route asks for no mark, or for an excluded one.  A
    role's own status plays no part: the source compares the role itself with 0.
  */
  ghost predicate Grants(v: UserView, perm: Option<Perm>) {
    v.user.superuser
    || (HasMenus(v.roles) && v.user.staff && (perm.Some? ==> HasPerm(v.roles, perm.value)))
  }

  /** A menu reads the same wherever the record holds it. */
  ghost predicate OneRowEach(roles: map<int, RoleView>) {
    forall r, q, m :: r in roles && q in roles && m in roles[r].menus && m in roles[q].menus ==>
                        roles[r].menus[m] == roles[q].menus[m]
  }

  /** The roles' menus by id, a later role's row over an earlier one's, in any order of the roles. */
  method UniqueMenus(roles: map<int, RoleView>) returns (unique: map<int, MenuRow>)
    ensures forall m :: m in unique ==> exists r :: r in roles && m in roles[r].menus && unique[m] == roles[r].menus[m]
    ensures forall r, m :: r in roles && m in roles[r].menus ==> m in unique
  {
    unique := map[];
    var rest := roles.Keys;
    while rest != {}
      invariant rest <= roles.Keys
      invariant forall m :: m in unique ==>
                  exists r :: r in roles && m in roles[r].menus && unique[m] == roles[r].menus[m]
      invariant forall r, m :: r in roles && r !in rest && m in roles[r].menus ==> m in unique
      decreases |rest|
    {
      assert exists r :: r in rest by {
        assert (forall r :: r !in rest) ==> rest == {};
      }
      var r :| r in rest;
      rest := rest - {r};
      ghost var before := unique;
      unique := unique + roles[r].menus;
      forall m | m in unique
        ensures exists q :: q in roles && m in roles[q].menus && unique[m] == roles[q].menus[m]
      {
        if m in roles[r].menus {
          assert unique[m] == roles[r].menus[m];
        } else {
          assert unique[m] == before[m];
        }
      }
    }
  }

  /** The marks of the enabled menus. */
  method AllowedPerms(unique: map<int, MenuRow>) returns (allowed: set<Perm>)
    ensures forall p :: p in allowed <==> exists m :: m in unique && unique[m].enabled && p in unique[m].perms
  {
    allowed := {};
    var rest := unique.Keys;
    while rest != {}
      invariant rest <= unique.Keys
      invariant forall p :: p in allowed <==>
                            exists m :: m in unique && m !in rest && unique[m].enabled && p in unique[m].perms
      decreases |rest|
    {
      assert exists m :: m in rest by {
        assert (forall m :: m !in rest) ==> rest == {};
      }
      var m :| m in rest;
      rest := rest - {m};
      if unique[m].enabled {
        allowed := allowed + unique[m].perms;
      }
    }
  }

  /** On a record that reads each menu the same everywhere, the check is what `Grants` says. */
  method RbacVerify(v: UserView, perm: Option<Perm>) returns (ok: bool)
    ensures OneRowEach(v.roles) ==> ok == Grants(v, perm)
  {
    if v.user.superuser {
      return true;
    }
    var unique := UniqueMenus(v.roles);
    assert HasMenus(v.roles) <==> unique != map[] by {
      UniqueEmpty(v.roles, unique);
    }
    if unique == map[] || !v.user.staff {
      return false;
    }
    if perm.None? {
      return true;
    }
    var allowed := AllowedPerms(unique);
    ok := perm.value in allowed;
    if OneRowEach(v.roles) {
      UniqueCarries(v.roles, unique, perm.value);
    }
  }

  lemma UniqueEmpty(roles: map<int, RoleView>, unique: map<int, MenuRow>)
    requires forall m :: m in unique ==> exists r :: r in roles && m in roles[r].menus && unique[m] == roles[r].menus[m]
    requires forall r, m :: r in roles && m in roles[r].menus ==> m in unique
    ensures HasMenus(roles) <==> unique != map[]
  {
    if r, m :| r in roles && m in roles[r].menus {
      assert m in unique;
    }
    if unique != map[] {
      assert exists m :: m in unique by {
        assert (forall m :: m !in unique) ==> unique == map[];
      }
      var m :| m in unique;
      var r :| r in roles && m in roles[r].menus && unique[m] == roles[r].menus[m];
    }
  }

  lemma UniqueCarries(roles: map<int, RoleView>, unique: map<int, MenuRow>, p: Perm)
    requires OneRowEach(roles)
    requires forall m :: m in unique ==> exists r :: r in roles && m in roles[r].menus && unique[m] == roles[r].menus[m]
    requires forall r, m :: r in roles && m in roles[r].menus ==> m in unique
    ensures HasPerm(roles, p) <==> exists m :: m in unique && unique[m].enabled && p in unique[m].perms
  {
    if r, m :| Carries(roles, r, m, p) {
      assert m in unique && unique[m] == roles[r].menus[m];
    }
    if m :| m in unique && unique[m].enabled && p in unique[m].perms {
      var r :| r in roles && m in roles[r].menus && unique[m] == roles[r].menus[m];
      assert Carries(roles, r, m, p);
    }
  }

  /** Every record of every run is such a record. */
  lemma {:induction false} RecordsReadOnce(s: State, events: seq<Event>, u: int)
    requires forall x :: x in s.cache ==> OneRowEach(s.cache[x].roles)
    requires u in Run(s, events).cache
    ensures OneRowEach(Run(s, events).cache[u].roles)
    decreases |events|
  {
    if events != [] {
      RecordsReadOnce(After(s, events[0]), events[1..], u);
    }
  }

  // ---- rights, told from the database ----

  lemma SeenMenus(db: Db, u: int)
    ensures HasMenus(RolesOf(db, u)) <==> exists m :: m in db.menus && SeesMenu(db, u, m)
  {
    if r, m :| r in RolesOf(db, u) && m in RolesOf(db, u)[r].menus {
      assert (u, r) in db.userRole && (r, m) in db.roleMenu;
      assert SeesMenu(db, u, m);
    }
    if m :| m in db.menus && SeesMenu(db, u, m) {
      var r :| (u, r) in db.userRole && r in db.roles && (r, m) in db.roleMenu;
      assert m in RolesOf(db, u)[r].menus;
    }
  }

  /** An enabled menu of the user's has the mark. */
  predicate Marks(db: Db, m: int, p: Perm) {
    m in db.menus && db.menus[m].enabled && p in db.menus[m].perms
  }

  lemma SeenPerm(db: Db, u: int, p: Perm)
    ensures HasPerm(RolesOf(db, u), p) <==> exists m :: Marks(db, m, p) && SeesMenu(db, u, m)
  {
    if r, m :| Carries(RolesOf(db, u), r, m, p) {
      assert (u, r) in db.userRole && (r, m) in db.roleMenu;
      assert Marks(db, m, p) && SeesMenu(db, u, m);
    }
    if m :| Marks(db, m, p) && SeesMenu(db, u, m) {
      var r :| (u, r) in db.userRole && r in db.roles && (r, m) in db.roleMenu;
      assert Carries(RolesOf(db, u), r, m, p);
    }
  }

  // ---- when a mutation that clears nobody takes rights away ----

  /** The mark comes to the user through this menu alone. */
  ghost predicate OnlyMark(db: Db, u: int, id: int, p: Perm) {
    Marks(db, id, p) && forall m :: Marks(db, m, p) && SeesMenu(db, u, m) ==> m == id
  }

  ghost predicate OnlyMenu(db: Db, u: int, id: int) {
    forall m :: m in db.menus && SeesMenu(db, u, m) ==> m == id
  }

  /** Deleting the menu takes something from the user: their last menu, or the last that has some mark. */
  ghost predicate TakesAway(db: Db, u: int, id: int) {
    && u in db.users && !db.users[u].superuser && db.users[u].staff && id in db.menus && SeesMenu(db, u, id)
    && (OnlyMenu(db, u, id) || exists p :: OnlyMark(db, u, id, p))
  }

  /** The new row shuts the user's department. */
  predicate ShutsOut(db: Db, u: int, id: int, dept: DeptRow) {
    u in db.users && id in db.depts && id != 0 && db.users[u].dept == Some(id) && !Open(dept)
  }

  ghost predicate Wrongs(db: Db, e: Event, u: int) {
    match e
    case DeleteMenu(id) => TakesAway(db, u, id)
    case UpdateDept(id, dept) => ShutsOut(db, u, id, dept)
    case _ => false
  }

  ghost predicate SameGrants(v: UserView, w: UserView) {
    forall perm :: Grants(v, perm) <==> Grants(w, perm)
  }

  lemma SeesAfterDelete(db: Db, u: int, id: int, m: int)
    ensures var db' := Mutated(db, DeleteMenu(id));
            m in db'.menus && SeesMenu(db', u, m) <==> m in db.menus && m != id && SeesMenu(db, u, m)
  {
    var db' := Mutated(db, DeleteMenu(id));
    if m in db.menus && m != id && SeesMenu(db, u, m) {
      var r :| (u, r) in db.userRole && r in db.roles && (r, m) in db.roleMenu;
      assert (u, r) in db'.userRole && r in db'.roles && (r, m) in db'.roleMenu;
    }
    if m in db'.menus && SeesMenu(db', u, m) {
      var r :| (u, r) in db'.userRole && r in db'.roles && (r, m) in db'.roleMenu;
      assert (u, r) in db.userRole && r in db.roles && (r, m) in db.roleMenu;
    }
  }

  lemma MenusAfterDelete(db: Db, u: int, id: int)
    ensures HasMenus(RolesOf(Mutated(db, DeleteMenu(id)), u)) <==>
            exists m :: m in db.menus && SeesMenu(db, u, m) && m != id
  {
    var db' := Mutated(db, DeleteMenu(id));
    SeenMenus(db', u);
    forall m
      ensures m in db'.menus && SeesMenu(db', u, m) <==> m in db.menus && SeesMenu(db, u, m) && m != id
    {
      SeesAfterDelete(db, u, id, m);
    }
  }

  lemma PermAfterDelete(db: Db, u: int, id: int, p: Perm)
    ensures HasPerm(RolesOf(Mutated(db, DeleteMenu(id)), u), p) <==>
            exists m :: Marks(db, m, p) && SeesMenu(db, u, m) && m != id
  {
    var db' := Mutated(db, DeleteMenu(id));
    SeenPerm(db', u, p);
    forall m
      ensures Marks(db', m, p) && SeesMenu(db', u, m) <==> Marks(db, m, p) && SeesMenu(db, u, m) && m != id
    {
      SeesAfterDelete(db, u, id, m);
    }
  }

  /** Deleting a menu changes what a user is granted exactly when it takes something away. */
  lemma DeleteGrants(db: Db, u: int, id: int)
    requires u in db.users
    ensures u in Mutated(db, DeleteMenu(id)).users
    ensures SameGrants(View(db, u), View(Mutated(db, DeleteMenu(id)), u)) <==> !TakesAway(db, u, id)
  {
    var v, w := View(db, u), View(Mutated(db, DeleteMenu(id)), u);
    SeenMenus(db, u);
    MenusAfterDelete(db, u, id);
    if TakesAway(db, u, id) {
      if OnlyMenu(db, u, id) {
        assert Grants(v, None) && !Grants(w, None);
      } else {
        var p :| OnlyMark(db, u, id, p);
        SeenPerm(db, u, p);
        PermAfterDelete(db, u, id, p);
        assert Grants(v, Some(p)) && !Grants(w, Some(p));
      }
    } else {
      forall perm
        ensures Grants(v, perm) <==> Grants(w, perm)
      {
        SameWithout(db, u, id, perm);
      }
    }
  }

  lemma SameWithout(db: Db, u: int, id: int, perm: Option<Perm>)
    requires u in db.users && !TakesAway(db, u, id)
    ensures Grants(View(db, u), perm) <==> Grants(View(Mutated(db, DeleteMenu(id)), u), perm)
  {
    SeenMenus(db, u);
    MenusAfterDelete(db, u, id);
    if perm.Some? {
      SeenPerm(db, u, perm.value);
      PermAfterDelete(db, u, id, perm.value);
      assert !OnlyMark(db, u, id, perm.value) || !SeesMenu(db, u, id) || db.users[u].superuser || !db.users[u].staff;
    }
  }

  /** Whoever a mutation leaves cached, if admitted before, keeps admission and grants exactly unless it wrongs them. */
  lemma RightsExactly(db: Db, e: Event, u: int)
    requires u in db.users && Admits(View(db, u)) && FreshId(db, e) && u !in Cleared(Mutated(db, e), e)
    ensures u in Mutated(db, e).users
    ensures Admits(View(Mutated(db, e), u)) && SameGrants(View(db, u), View(Mutated(db, e), u)) <==> !Wrongs(db, e, u)
  {
    SurvivorsExactly(db, e, u);
    if e.DeleteMenu? {
      DeleteGrants(db, u, e.id);
      DeleteAdmits(db, u, e.id);
    } else if e.UpdateDept? {
      DeptView(db, e, u);
      assert SameGrants(View(db, u), View(Mutated(db, e), u));
    } else if e.Login? {
      LoginView(db, e.user, e.visit, u);
      assert SameGrants(View(db, u), View(Mutated(db, e), u));
    } else {
      assert View(Mutated(db, e), u) == View(db, u);
    }
  }

  lemma DeleteAdmits(db: Db, u: int, id: int)
    requires u in db.users
    ensures u in Mutated(db, DeleteMenu(id)).users
    ensures Admits(View(Mutated(db, DeleteMenu(id)), u)) <==> Admits(View(db, u))
  {
    var db' := Mutated(db, DeleteMenu(id));
    var before, after := RolesOf(db, u), RolesOf(db', u);
    forall r
      ensures r in before <==> r in after
      ensures r in before ==> before[r].row == after[r].row
    {
    }
    assert before == map[] <==> after == map[] by {
      assert before.Keys == after.Keys;
    }
  }

  // ---- runs ----

  /** Every cached user is admitted now, and granted by the record what the database grants now. */
  ghost predicate RightsKept(s: State) {
    forall u :: u in s.cache ==> u in s.db.users && Admits(View(s.db, u)) && SameGrants(s.cache[u], View(s.db, u))
  }

  /** No cached user is wronged. */
  ghost predicate WrongsNobody(s: State, e: Event) {
    forall u :: u in s.cache ==> !Wrongs(s.db, e, u)
  }

  lemma StepRights(s: State, e: Event)
    requires RightsKept(s) && FreshId(s.db, e)
    ensures RightsKept(After(s, e)) <==> WrongsNobody(s, e)
  {
    var t := After(s, e);
    if e.DeleteMenu? {
      MenuDeleteClearsNobody(s.db, e.id);
    }
    forall u | u in s.cache && u in t.cache
      ensures u in t.db.users
      ensures Admits(View(t.db, u)) && SameGrants(t.cache[u], View(t.db, u)) <==> !Wrongs(s.db, e, u)
    {
      RightsExactly(s.db, e, u);
      SameThrough(s.cache[u], View(s.db, u), View(t.db, u));
    }
  }

  lemma SameThrough(v: UserView, w: UserView, x: UserView)
    requires SameGrants(v, w)
    ensures SameGrants(v, x) <==> SameGrants(w, x)
  {
  }

  ghost predicate RightsThroughout(s: State, events: seq<Event>)
    decreases |events|
  {
    RightsKept(s) && (events == [] || RightsThroughout(After(s, events[0]), events[1..]))
  }

  ghost predicate NobodyWronged(s: State, events: seq<Event>)
    decreases |events|
  {
    events == [] || (WrongsNobody(s, events[0]) && NobodyWronged(After(s, events[0]), events[1..]))
  }

  /**
    On every run, records grant and admit what the database does throughout, exactly when no step
    deletes the last menu, or the last with some mark, of a cached staff user, or shuts a cached
    user's department.
  */
  lemma {:induction false} RightsExactlyThroughout(s: State, events: seq<Event>)
    requires RightsKept(s) && FreshRun(s, events)
    ensures RightsThroughout(s, events) <==> NobodyWronged(s, events)
    decreases |events|
  {
    if events != [] {
      StepRights(s, events[0]);
      if WrongsNobody(s, events[0]) {
        RightsExactlyThroughout(After(s, events[0]), events[1..]);
      } else {
        assert !RightsThroughout(After(s, events[0]), events[1..]);
      }
    }
  }

  /** The deletion: the record goes on granting the mark that the database no longer grants. */
  lemma DeletedMenuGrants(s: State, u: int, id: int, p: Perm)
    requires RightsKept(s) && u in s.cache && SeesMenu(s.db, u, id) && OnlyMark(s.db, u, id, p)
    requires !s.db.users[u].superuser && s.db.users[u].staff
    ensures var t := After(s, DeleteMenu(id));
            u in t.cache && u in t.db.users && Grants(t.cache[u], Some(p)) && !Grants(View(t.db, u), Some(p))
  {
    MenuDeleteClearsNobody(s.db, id);
    SeenMenus(s.db, u);
    SeenPerm(s.db, u, p);
    PermAfterDelete(s.db, u, id, p);
    assert Grants(View(s.db, u), Some(p));
  }

  /** The locked department: its cached users stay in, while anybody who has to be read is refused. */
  lemma ShutDeptAdmits(s: State, u: int, id: int, dept: DeptRow)
    requires u in s.cache && ShutsOut(s.db, u, id, dept)
    ensures var t := After(s, UpdateDept(id, dept));
            u in t.cache && t.cache[u] == s.cache[u] && u in t.db.users && !Admits(View(t.db, u))
  {
  }

  /** The other way round nothing goes wrong: on every run a record grants at least what the database grants. */
  lemma NeverGrantsLess(s: State, events: seq<Event>, u: int, perm: Option<Perm>)
    requires AllAgree(s) && FreshRun(s, events) && u in Run(s, events).cache
    ensures var t := Run(s, events);
            u in t.db.users && (Grants(View(t.db, u), perm) ==> Grants(t.cache[u], perm))
  {
    RolesAgree(s, events);
    var t := Run(s, events);
    if Grants(View(t.db, u), perm) {
      AtLeast(t.db, u, t.cache[u], perm);
    }
  }

  lemma AtLeast(db: Db, u: int, v: UserView, perm: Option<Perm>)
    requires AgreesButMenus(db, u, v) && Grants(View(db, u), perm)
    ensures Grants(v, perm)
  {
    var live := Live(db.menus.Keys, v.roles);
    assert live == RolesOf(db, u);
    if !v.user.superuser {
      var r, m :| r in live && m in live[r].menus;
      assert m in v.roles[r].menus;
      if perm.Some? {
        var q, n :| Carries(live, q, n, perm.value);
        assert Carries(v.roles, q, n, perm.value);
      }
    }
  }
}
