/**
  The cached user record: a five-way join of the database, and the deletions by which the
  services keep it from going stale.
*/
module UserCache {
  import opened Options

  /** A row's other columns, opaque. */
  type Row = int

  /** A permission mark, as menus carry it and routes ask for it. */
  type Perm = string

  /** `visit` is what a login writes: the login time, and the avatar a provider sends. */
  datatype UserRow =
    UserRow(columns: Row, active: bool, superuser: bool, staff: bool, visit: Row, dept: Option<int>)

  datatype DeptRow = DeptRow(columns: Row, enabled: bool, deleted: bool)
  datatype RoleRow = RoleRow(columns: Row, enabled: bool)

  /** `perms` is the mark's text split at its commas. */
  datatype MenuRow = MenuRow(columns: Row, enabled: bool, perms: set<Perm>)

  datatype Db = Db(
    users: map<int, UserRow>, depts: map<int, DeptRow>, roles: map<int, RoleRow>, menus: map<int, MenuRow>,
    scopes: map<int, Row>, rules: map<int, Row>,
    userRole: set<(int, int)>, roleMenu: set<(int, int)>, roleScope: set<(int, int)>, scopeRule: set<(int, int)>)

  // ---- the view: what a cached record holds ----

  datatype ScopeView = ScopeView(row: Row, rules: map<int, Row>)
  datatype RoleView = RoleView(row: RoleRow, menus: map<int, MenuRow>, scopes: map<int, ScopeView>)
  datatype UserView = UserView(user: UserRow, dept: Option<DeptRow>, roles: map<int, RoleView>)

  function RulesOf(db: Db, scope: int): map<int, Row> {
    map r | r in db.rules && (scope, r) in db.scopeRule :: db.rules[r]
  }

  function ScopesOf(db: Db, role: int): map<int, ScopeView> {
    map s | s in db.scopes && (role, s) in db.roleScope :: ScopeView(db.scopes[s], RulesOf(db, s))
  }

  function MenusOf(db: Db, role: int): map<int, MenuRow> {
    map m | m in db.menus && (role, m) in db.roleMenu :: db.menus[m]
  }

  function RoleOf(db: Db, role: int): RoleView
    requires role in db.roles
  {
    RoleView(db.roles[role], MenusOf(db, role), ScopesOf(db, role))
  }

  function RolesOf(db: Db, user: int): map<int, RoleView> {
    map r | r in db.roles && (user, r) in db.userRole :: RoleOf(db, r)
  }

  function DeptOf(db: Db, row: UserRow): Option<DeptRow> {
    if row.dept.Some? && row.dept.value in db.depts then Some(db.depts[row.dept.value]) else None
  }

  function View(db: Db, user: int): UserView
    requires user in db.users
  {
    UserView(db.users[user], DeptOf(db, db.users[user]), RolesOf(db, user))
  }

  predicate Open(dept: DeptRow) {
    dept.enabled && !dept.deleted
  }

  /**
    May the user come in at all: active, in no department or an open one, and without roles or with an
    enabled one.  A department id without a row raises, and 0 counts as none.
  */
  predicate Admits(v: UserView) {
    && v.user.active
    && (v.user.dept.Some? && v.user.dept.value != 0 ==> v.dept.Some? && Open(v.dept.value))
    && (v.roles == map[] || exists r :: r in v.roles && v.roles[r].row.enabled)
  }

  // ---- the record, told from the tables ----

  /** The record has exactly the rows the user is linked to, link by link, each as its table has it. */
  ghost predicate Records(db: Db, user: int, v: UserView) {
    && user in db.users && v.user == db.users[user] && RecordsDept(db, v)
    && (forall r :: r in v.roles <==> r in db.roles && (user, r) in db.userRole)
    && (forall r :: r in v.roles ==> RecordsRole(db, r, v.roles[r]))
  }

  ghost predicate RecordsDept(db: Db, v: UserView) {
    && (v.dept == None <==> v.user.dept == None || v.user.dept.value !in db.depts)
    && (v.dept != None ==> db.depts[v.user.dept.value] == v.dept.value)
  }

  ghost predicate RecordsRole(db: Db, r: int, v: RoleView) {
    && r in db.roles && v.row == db.roles[r]
    && (forall m :: m in v.menus <==> m in db.menus && (r, m) in db.roleMenu)
    && (forall m :: m in v.menus ==> v.menus[m] == db.menus[m])
    && (forall s :: s in v.scopes <==> s in db.scopes && (r, s) in db.roleScope)
    && (forall s :: s in v.scopes ==> RecordsScope(db, s, v.scopes[s]))
  }

  ghost predicate RecordsScope(db: Db, s: int, v: ScopeView) {
    && s in db.scopes && v.row == db.scopes[s]
    && (forall x :: x in v.rules <==> x in db.rules && (s, x) in db.scopeRule)
    && (forall x :: x in v.rules ==> v.rules[x] == db.rules[x])
  }

  lemma ViewRecords(db: Db, user: int)
    requires user in db.users
    ensures Records(db, user, View(db, user))
  {
    var v := View(db, user);
    forall r | r in v.roles
      ensures RecordsRole(db, r, v.roles[r])
    {
      assert v.roles[r] == RoleOf(db, r);
      forall s | s in v.roles[r].scopes
        ensures RecordsScope(db, s, v.roles[r].scopes[s])
      {
      }
    }
  }

  ghost predicate LockedOut(db: Db, user: int)
    requires user in db.users
  {
    var row := db.users[user];
    || !row.active
    || (row.dept != None && row.dept != Some(0) && !OpenDept(db, row.dept.value))
    || ((exists r :: HasRole(db, user, r)) && forall r :: HasRole(db, user, r) ==> !db.roles[r].enabled)
  }

  predicate OpenDept(db: Db, d: int) {
    d in db.depts && db.depts[d].enabled && !db.depts[d].deleted
  }

  predicate HasRole(db: Db, user: int, r: int) {
    r in db.roles && (user, r) in db.userRole
  }

  /** Who is admitted: everybody but the locked, those in a shut department, and those with shut roles only. */
  lemma AdmitsExactly(db: Db, user: int)
    requires user in db.users
    ensures Admits(View(db, user)) <==> !LockedOut(db, user)
  {
    var roles := RolesOf(db, user);
    forall r
      ensures HasRole(db, user, r) <==> r in roles
      ensures r in roles ==> roles[r].row == db.roles[r]
    {
    }
    if roles != map[] {
      assert exists r :: r in roles by {
        assert (forall r :: r !in roles) ==> roles == map[];
      }
    }
  }

  // ---- the queries of the cache manager ----

  predicate Linked(db: Db, user: int, role: int) {
    (user, role) in db.userRole
  }

  /** The left-hand ids linked to one of the right-hand ones, whether the rows still exist or not. */
  function LeftOf(links: set<(int, int)>, rights: set<int>): set<int> {
    set l | l in links && l.1 in rights :: l.0
  }

  lemma LeftOfExact(links: set<(int, int)>, rights: set<int>, left: int)
    ensures left in LeftOf(links, rights) <==> exists right :: right in rights && (left, right) in links
  {
    if left in LeftOf(links, rights) {
      var l :| l in links && l.1 in rights && l.0 == left;
      var right := l.1;
      assert l == (left, right);
      assert right in rights && (left, right) in links;
    } else {
      forall right | (left, right) in links
        ensures right !in rights
      {
        assert (left, right) in links;
      }
    }
  }

  function UsersOfRoles(db: Db, roles: set<int>): set<int> {
    LeftOf(db.userRole, roles)
  }

  function RolesOfMenus(db: Db, menus: set<int>): set<int> {
    LeftOf(db.roleMenu, menus)
  }

  function RolesOfScopes(db: Db, scopes: set<int>): set<int> {
    LeftOf(db.roleScope, scopes)
  }

  function ScopesOfRules(db: Db, rules: set<int>): set<int> {
    LeftOf(db.scopeRule, rules)
  }

  type Cache = map<int, UserView>

  class UserCacheManager {
    var cache: Cache

    method Clear(users: set<int>)
      modifies this
      ensures cache == old(cache) - users
    {
      cache := cache - users;
    }

    method ClearByRoleId(db: Db, roles: set<int>)
      modifies this
      ensures cache.Keys <= old(cache).Keys && forall u :: u in cache ==> cache[u] == old(cache)[u]
      ensures forall u :: u in old(cache) ==> (u !in cache <==> exists r :: r in roles && Linked(db, u, r))
    {
      Clear(UsersOfRoles(db, roles));
      forall u
        ensures u in UsersOfRoles(db, roles) <==> exists r :: r in roles && Linked(db, u, r)
      {
        LeftOfExact(db.userRole, roles, u);
      }
    }

    method ClearByMenuId(db: Db, menus: set<int>)
      modifies this
      ensures cache.Keys <= old(cache).Keys && forall u :: u in cache ==> cache[u] == old(cache)[u]
      ensures forall u :: u in old(cache) ==>
                (u !in cache <==> exists r, m :: m in menus && Linked(db, u, r) && (r, m) in db.roleMenu)
    {
      ClearByRoleId(db, RolesOfMenus(db, menus));
      forall r
        ensures r in RolesOfMenus(db, menus) <==> exists m :: m in menus && (r, m) in db.roleMenu
      {
        LeftOfExact(db.roleMenu, menus, r);
      }
    }

    method ClearByDataScopeId(db: Db, scopes: set<int>)
      modifies this
      ensures cache.Keys <= old(cache).Keys && forall u :: u in cache ==> cache[u] == old(cache)[u]
      ensures forall u :: u in old(cache) ==>
                (u !in cache <==> exists r, s :: s in scopes && Linked(db, u, r) && (r, s) in db.roleScope)
    {
      ClearByRoleId(db, RolesOfScopes(db, scopes));
      forall r
        ensures r in RolesOfScopes(db, scopes) <==> exists s :: s in scopes && (r, s) in db.roleScope
      {
        LeftOfExact(db.roleScope, scopes, r);
      }
    }

    method ClearByDataRuleId(db: Db, rules: set<int>)
      modifies this
      ensures cache.Keys <= old(cache).Keys && forall u :: u in cache ==> cache[u] == old(cache)[u]
      ensures forall u :: u in old(cache) ==>
                (u !in cache <==> exists r, s, x ::
                    x in rules && Linked(db, u, r) && (r, s) in db.roleScope && (s, x) in db.scopeRule)
    {
      ClearByDataScopeId(db, ScopesOfRules(db, rules));
      forall s
        ensures s in ScopesOfRules(db, rules) <==> exists x :: x in rules && (s, x) in db.scopeRule
      {
        LeftOfExact(db.scopeRule, rules, s);
      }
    }

    /** A cached record is returned as it stands; otherwise the view is read and, if it is admitted, stored. */
    method GetJwtUser(db: Db, user: int) returns (r: Option<UserView>)
      modifies this
      ensures user in old(cache) ==> r == Some(old(cache)[user]) && cache == old(cache)
      ensures user !in old(cache) && user in db.users && Admits(View(db, user)) ==>
                r == Some(View(db, user)) && cache == old(cache)[user := View(db, user)]
      ensures user !in old(cache) && !(user in db.users && Admits(View(db, user))) ==>
                r == None && cache == old(cache)
      ensures user !in old(cache) ==> (r.Some? <==> user in db.users && !LockedOut(db, user))
      ensures user !in old(cache) && r.Some? ==> Records(db, user, r.value)
    {
      if user in cache {
        return Some(cache[user]);
      }
      if user !in db.users {
        return None;
      }
      AdmitsExactly(db, user);
      ViewRecords(db, user);
      var view := View(db, user);
      if !Admits(view) {
        return None;
      }
      cache := cache[user := view];
      r := Some(view);
    }
  }

  // ---- the services' mutations ----

  datatype Event =
    | Read(user: int)
    | Expire(user: int)
    | CreateUser(user: int, profile: UserRow, roles: set<int>)
    | UpdateUser(user: int, profile: UserRow, roles: set<int>)
    | PatchUser(user: int, profile: UserRow)
    | DeleteUser(user: int)
    | CreateRole(id: int, role: RoleRow)
    | UpdateRole(id: int, role: RoleRow)
    | UpdateRoleMenus(id: int, ids: set<int>)
    | UpdateRoleScopes(id: int, ids: set<int>)
    | DeleteRoles(ids: set<int>)
    | CreateMenu(id: int, menu: MenuRow)
    | UpdateMenu(id: int, menu: MenuRow)
    | DeleteMenu(id: int)
    | CreateScope(id: int, row: Row)
    | UpdateScope(id: int, row: Row)
    | UpdateScopeRules(id: int, ids: set<int>)
    | DeleteScopes(ids: set<int>)
    | CreateRule(id: int, row: Row)
    | UpdateRule(id: int, row: Row)
    | DeleteRules(ids: set<int>)
    | CreateDept(id: int, dept: DeptRow)
    | UpdateDept(id: int, dept: DeptRow)
    | DeleteDept(id: int, dept: DeptRow)
    | Login(user: int, visit: Row)

  /** Ids are never handed out twice: a created row's id is in no table and no link. */
  ghost predicate FreshId(db: Db, e: Event) {
    && (e.CreateUser? ==> e.user !in db.users && forall l :: l in db.userRole ==> l.0 != e.user)
    && (e.CreateRole? ==> e.id !in db.roles && (forall l :: l in db.userRole ==> l.1 != e.id))
    && (e.CreateMenu? ==> e.id !in db.menus && (forall l :: l in db.roleMenu ==> l.1 != e.id))
    && (e.CreateScope? ==> e.id !in db.scopes && (forall l :: l in db.roleScope ==> l.1 != e.id))
    && (e.CreateRule? ==> e.id !in db.rules && (forall l :: l in db.scopeRule ==> l.1 != e.id))
    && (e.CreateDept? ==> e.id !in db.depts && (forall u :: u in db.users ==> db.users[u].dept != Some(e.id)))
  }

  /** Delete the links of one left-hand id and insert new ones. */
  function Relinked(links: set<(int, int)>, left: int, rights: set<int>): set<(int, int)> {
    (set l | l in links && l.0 != left) + (set r | r in rights :: (left, r))
  }

  function Unlinked(links: set<(int, int)>, right: int): set<(int, int)> {
    set l | l in links && l.1 != right
  }

  /** The database after a mutation; deleting a department sets its flag, and only if it has no users. A
   missing row makes the service raise and change nothing. */
  function Mutated(db: Db, e: Event): Db {
    match e
    case Read(_) => db
    case Expire(_) => db
    case CreateUser(u, profile, roles) =>
      db.(users := db.users[u := profile], userRole := Relinked(db.userRole, u, roles * db.roles.Keys))
    case UpdateUser(u, profile, roles) =>
      if u in db.users then db.(users := db.users[u := profile],
                                userRole := Relinked(db.userRole, u, roles * db.roles.Keys)) else db
    case PatchUser(u, profile) => if u in db.users then db.(users := db.users[u := profile]) else db
    case DeleteUser(u) => db.(users := db.users - {u}, userRole := Relinked(db.userRole, u, {}))
    case CreateRole(id, row) => db.(roles := db.roles[id := row])
    case UpdateRole(id, row) => if id in db.roles then db.(roles := db.roles[id := row]) else db
    case UpdateRoleMenus(id, ids) =>
      if id in db.roles && ids <= db.menus.Keys then db.(roleMenu := Relinked(db.roleMenu, id, ids)) else db
    case UpdateRoleScopes(id, ids) =>
      if id in db.roles && ids <= db.scopes.Keys then db.(roleScope := Relinked(db.roleScope, id, ids)) else db
    case DeleteRoles(ids) => db.(roles := db.roles - ids)
    case CreateMenu(id, row) => db.(menus := db.menus[id := row])
    case UpdateMenu(id, row) => if id in db.menus then db.(menus := db.menus[id := row]) else db
    case DeleteMenu(id) => db.(roleMenu := Unlinked(db.roleMenu, id), menus := db.menus - {id})
    case CreateScope(id, row) => db.(scopes := db.scopes[id := row])
    case UpdateScope(id, row) => if id in db.scopes then db.(scopes := db.scopes[id := row]) else db
    case UpdateScopeRules(id, ids) =>
      if id in db.scopes && ids <= db.rules.Keys then db.(scopeRule := Relinked(db.scopeRule, id, ids)) else db
    case DeleteScopes(ids) => db.(scopes := db.scopes - ids)
    case CreateRule(id, row) => db.(rules := db.rules[id := row])
    case UpdateRule(id, row) => if id in db.rules then db.(rules := db.rules[id := row]) else db
    case DeleteRules(ids) => db.(rules := db.rules - ids)
    case CreateDept(id, row) => db.(depts := db.depts[id := row])
    case UpdateDept(id, row) => if id in db.depts then db.(depts := db.depts[id := row]) else db
    case DeleteDept(id, row) =>
      if id in db.depts && (forall u :: u in db.users ==> db.users[u].dept != Some(id))
      then db.(depts := db.depts[id := row]) else db
    case Login(u, visit) => if u in db.users then db.(users := db.users[u := db.users[u].(visit := visit)]) else db
  }

  /** Whose records the service deletes, asked of the database it has just changed. */
  function Cleared(db: Db, e: Event): set<int> {
    match e
    case Expire(u) => {u}
    case UpdateUser(u, _, _) => {u}
    case PatchUser(u, _) => {u}
    case DeleteUser(u) => {u}
    case UpdateRole(id, _) => UsersOfRoles(db, {id})
    case UpdateRoleMenus(id, _) => UsersOfRoles(db, {id})
    case UpdateRoleScopes(id, _) => UsersOfRoles(db, {id})
    case DeleteRoles(ids) => UsersOfRoles(db, ids)
    case UpdateMenu(id, _) => UsersOfRoles(db, RolesOfMenus(db, {id}))
    case DeleteMenu(id) => UsersOfRoles(db, RolesOfMenus(db, {id}))
    case UpdateScope(id, _) => UsersOfRoles(db, RolesOfScopes(db, {id}))
    case UpdateScopeRules(id, _) => UsersOfRoles(db, RolesOfScopes(db, {id}))
    case DeleteScopes(ids) => UsersOfRoles(db, RolesOfScopes(db, ids))
    case UpdateRule(id, _) => UsersOfRoles(db, RolesOfScopes(db, ScopesOfRules(db, {id})))
    case DeleteRules(ids) => UsersOfRoles(db, RolesOfScopes(db, ScopesOfRules(db, ids)))
    case _ => {}
  }

  datatype State = State(db: Db, cache: Cache)

  function After(s: State, e: Event): State {
    var db := Mutated(s.db, e);
    if e.Read? then
      State(db, if e.user !in s.cache && e.user in db.users && Admits(View(db, e.user))
        then s.cache[e.user := View(db, e.user)] else s.cache)
    else State(db, s.cache - Cleared(db, e))
  }

  /** Every cached record is the view of the database as it is. */
  ghost predicate Coherent(s: State) {
    forall u :: u in s.cache ==> u in s.db.users && s.cache[u] == View(s.db, u)
  }

  // ---- what a mutation can change ----

  lemma NotOfRoles(db: Db, roles: set<int>, u: int, r: int)
    requires u !in UsersOfRoles(db, roles) && (u, r) in db.userRole
    ensures r !in roles
  {
  }

  /** A user whose links are unchanged sees the same if each linked role does. */
  lemma SameRoles(db: Db, db': Db, u: int)
    requires u in db.users && u in db'.users && db'.users[u] == db.users[u] && db'.depts == db.depts
    requires forall r :: (u, r) in db.userRole <==> (u, r) in db'.userRole
    requires forall r :: (u, r) in db.userRole ==> (r in db.roles <==> r in db'.roles)
    requires forall r :: (u, r) in db.userRole && r in db.roles ==> RoleOf(db', r) == RoleOf(db, r)
    ensures View(db', u) == View(db, u)
  {
    assert RolesOf(db', u) == RolesOf(db, u);
  }

  lemma SameScope(db: Db, db': Db, r: int)
    requires forall s :: (r, s) in db.roleScope <==> (r, s) in db'.roleScope
    requires forall s :: (r, s) in db.roleScope ==> (s in db.scopes <==> s in db'.scopes)
    requires forall s :: (r, s) in db.roleScope && s in db.scopes ==>
               db'.scopes[s] == db.scopes[s] && RulesOf(db', s) == RulesOf(db, s)
    ensures ScopesOf(db', r) == ScopesOf(db, r)
  {
  }

  lemma LinksKept(links: set<(int, int)>, left: int, rights: set<int>, other: int, right: int)
    requires other != left
    ensures (other, right) in Relinked(links, left, rights) <==> (other, right) in links
  {
  }

  lemma UserEventKeeps(db: Db, e: Event, u: int)
    requires u in db.users && FreshId(db, e) && u !in Cleared(Mutated(db, e), e)
    requires e.CreateUser? || e.UpdateUser? || e.PatchUser? || e.DeleteUser?
    ensures u in Mutated(db, e).users && View(Mutated(db, e), u) == View(db, u)
  {
    var db' := Mutated(db, e);
    assert u != e.user;
    if db' != db {
      var roles := if e.CreateUser? || e.UpdateUser? then e.roles * db.roles.Keys else {};
      forall r
        ensures (u, r) in db.userRole <==> (u, r) in db'.userRole
      {
        LinksKept(db.userRole, e.user, roles, u, r);
      }
      forall r | r in db.roles
        ensures RoleOf(db', r) == RoleOf(db, r)
      {
        SameScope(db, db', r);
      }
      SameRoles(db, db', u);
    }
  }

  lemma RoleRowKeeps(db: Db, e: Event, u: int)
    requires u in db.users && FreshId(db, e) && (e.CreateRole? || e.UpdateRole? || e.DeleteRoles?)
             && u !in Cleared(Mutated(db, e), e)
    ensures u in Mutated(db, e).users && View(Mutated(db, e), u) == View(db, u)
  {
    var db' := Mutated(db, e);
    forall r | (u, r) in db.userRole
      ensures r in db.roles <==> r in db'.roles
      ensures r in db.roles ==> RoleOf(db', r) == RoleOf(db, r)
    {
      if e.UpdateRole? {
        NotOfRoles(db', {e.id}, u, r);
      } else if e.DeleteRoles? {
        NotOfRoles(db', e.ids, u, r);
      }
      SameScope(db, db', r);
    }
    SameRoles(db, db', u);
  }

  lemma RoleLinksKeep(db: Db, e: Event, u: int)
    requires u in db.users && (e.UpdateRoleMenus? || e.UpdateRoleScopes?) && u !in Cleared(Mutated(db, e), e)
    ensures u in Mutated(db, e).users && View(Mutated(db, e), u) == View(db, u)
  {
    var db' := Mutated(db, e);
    if db' != db {
      forall r | (u, r) in db.userRole && r in db.roles
        ensures RoleOf(db', r) == RoleOf(db, r)
      {
        NotOfRoles(db', {e.id}, u, r);
        forall x
          ensures (r, x) in Relinked(if e.UpdateRoleMenus? then db.roleMenu else db.roleScope, e.id, e.ids)
                  <==> (r, x) in if e.UpdateRoleMenus? then db.roleMenu else db.roleScope
        {
          LinksKept(if e.UpdateRoleMenus? then db.roleMenu else db.roleScope, e.id, e.ids, r, x);
        }
        SameScope(db, db', r);
        assert MenusOf(db', r) == MenusOf(db, r);
      }
      SameRoles(db, db', u);
    }
  }

  lemma MenuKeeps(db: Db, e: Event, u: int)
    requires u in db.users && FreshId(db, e) && (e.CreateMenu? || e.UpdateMenu?) && u !in Cleared(Mutated(db, e), e)
    ensures u in Mutated(db, e).users && View(Mutated(db, e), u) == View(db, u)
  {
    var db' := Mutated(db, e);
    forall r | (u, r) in db.userRole && r in db.roles
      ensures RoleOf(db', r) == RoleOf(db, r)
    {
      if e.UpdateMenu? {
        NotOfRoles(db', RolesOfMenus(db', {e.id}), u, r);
      }
      assert (r, e.id) !in db.roleMenu || db' == db;
      assert MenusOf(db', r) == MenusOf(db, r);
      SameScope(db, db', r);
    }
    SameRoles(db, db', u);
  }

  lemma ScopeKeeps(db: Db, e: Event, u: int)
    requires u in db.users && FreshId(db, e) && u !in Cleared(Mutated(db, e), e)
    requires e.CreateScope? || e.UpdateScope? || e.UpdateScopeRules? || e.DeleteScopes?
    ensures u in Mutated(db, e).users && View(Mutated(db, e), u) == View(db, u)
  {
    var db' := Mutated(db, e);
    var touched := if e.DeleteScopes? then e.ids else {e.id};
    forall r | (u, r) in db.userRole && r in db.roles
      ensures RoleOf(db', r) == RoleOf(db, r)
    {
      if !e.CreateScope? {
        NotOfRoles(db', RolesOfScopes(db', touched), u, r);
      }
      forall s | (r, s) in db.roleScope
        ensures s !in touched
      {
      }
      ScopesUntouched(db, e, r, touched);
    }
    SameRoles(db, db', u);
  }

  lemma ScopesUntouched(db: Db, e: Event, r: int, touched: set<int>)
    requires e.CreateScope? || e.UpdateScope? || e.UpdateScopeRules? || e.DeleteScopes?
    requires touched == if e.DeleteScopes? then e.ids else {e.id}
    requires r in db.roles && forall s :: (r, s) in db.roleScope ==> s !in touched
    ensures RoleOf(Mutated(db, e), r) == RoleOf(db, r)
  {
    var db' := Mutated(db, e);
    forall s | s !in touched
      ensures RulesOf(db', s) == RulesOf(db, s)
    {
      if e.UpdateScopeRules? {
        forall x
          ensures (s, x) in db'.scopeRule <==> (s, x) in db.scopeRule
        {
          LinksKept(db.scopeRule, e.id, e.ids, s, x);
        }
      }
    }
    SameScope(db, db', r);
    assert MenusOf(db', r) == MenusOf(db, r);
  }

  lemma RuleKeeps(db: Db, e: Event, u: int)
    requires u in db.users && FreshId(db, e) && u !in Cleared(Mutated(db, e), e)
    requires e.CreateRule? || e.UpdateRule? || e.DeleteRules?
    ensures u in Mutated(db, e).users && View(Mutated(db, e), u) == View(db, u)
  {
    var db' := Mutated(db, e);
    var touched := if e.DeleteRules? then e.ids else {e.id};
    forall r | (u, r) in db.userRole && r in db.roles
      ensures RoleOf(db', r) == RoleOf(db, r)
    {
      if !e.CreateRule? {
        NotOfRoles(db', RolesOfScopes(db', ScopesOfRules(db', touched)), u, r);
      }
      forall s | (r, s) in db.roleScope
        ensures RulesOf(db', s) == RulesOf(db, s)
      {
        assert !e.CreateRule? ==> s !in ScopesOfRules(db', touched);
        forall x | (s, x) in db.scopeRule
          ensures x !in touched
        {
        }
      }
      SameScope(db, db', r);
      assert MenusOf(db', r) == MenusOf(db, r);
    }
    SameRoles(db, db', u);
  }

  // ---- where the code does less ----

  /** A user's own menus, through any of their roles. */
  ghost predicate SeesMenu(db: Db, u: int, id: int) {
    exists r :: (u, r) in db.userRole && r in db.roles && (r, id) in db.roleMenu
  }

  /** The mutations that change a view and clear nobody. */
  ghost predicate Changes(db: Db, e: Event, u: int) {
    u in db.users && match e
      case Login(user, visit) => u == user && visit != db.users[u].visit
      case UpdateDept(id, row) => id in db.depts && row != db.depts[id] && db.users[u].dept == Some(id)
      case DeleteMenu(id) => id in db.menus && SeesMenu(db, u, id)
      case _ => false
  }

  lemma LoginView(db: Db, user: int, visit: Row, u: int)
    requires u in db.users
    ensures u in Mutated(db, Login(user, visit)).users
    ensures RolesOf(Mutated(db, Login(user, visit)), u) == RolesOf(db, u)
    ensures View(Mutated(db, Login(user, visit)), u) == View(db, u) <==> u != user || visit == db.users[u].visit
  {
    SameLinks(db, Mutated(db, Login(user, visit)), u);
  }

  lemma DeptView(db: Db, e: Event, u: int)
    requires u in db.users && FreshId(db, e) && (e.CreateDept? || e.UpdateDept? || e.DeleteDept?)
    ensures u in Mutated(db, e).users && RolesOf(Mutated(db, e), u) == RolesOf(db, u)
    ensures View(Mutated(db, e), u) == View(db, u) <==> !Changes(db, e, u)
  {
    SameLinks(db, Mutated(db, e), u);
  }

  lemma SameLinks(db: Db, db': Db, u: int)
    requires db'.roles == db.roles && db'.menus == db.menus && db'.scopes == db.scopes && db'.rules == db.rules
    requires db'.userRole == db.userRole && db'.roleMenu == db.roleMenu && db'.roleScope == db.roleScope
    requires db'.scopeRule == db.scopeRule
    ensures RolesOf(db', u) == RolesOf(db, u)
  {
    forall r | r in db.roles
      ensures RoleOf(db', r) == RoleOf(db, r)
    {
      SameScope(db, db', r);
    }
  }

  /** Deleting a menu removes its links first, then asks who is linked to it: the answer is nobody. */
  lemma MenuDeleteClearsNobody(db: Db, id: int)
    ensures Cleared(Mutated(db, DeleteMenu(id)), DeleteMenu(id)) == {}
  {
    var db' := Mutated(db, DeleteMenu(id));
    assert RolesOfMenus(db', {id}) == {};
  }

  lemma MenuDeleteRole(db: Db, id: int, r: int)
    requires r in db.roles
    ensures var db' := Mutated(db, DeleteMenu(id));
            RoleOf(db', r) == RoleOf(db, r).(menus := MenusOf(db, r) - {id})
  {
    var db' := Mutated(db, DeleteMenu(id));
    assert MenusOf(db', r) == MenusOf(db, r) - {id};
    SameScope(db, db', r);
  }

  lemma MenuDeleteView(db: Db, id: int, u: int)
    requires u in db.users
    ensures u in Mutated(db, DeleteMenu(id)).users
    ensures View(Mutated(db, DeleteMenu(id)), u) == View(db, u) <==> !(id in db.menus && SeesMenu(db, u, id))
  {
    var db' := Mutated(db, DeleteMenu(id));
    if id in db.menus && SeesMenu(db, u, id) {
      var r :| (u, r) in db.userRole && r in db.roles && (r, id) in db.roleMenu;
      assert id in RolesOf(db, u)[r].menus;
      assert id !in RolesOf(db', u)[r].menus;
    } else {
      forall r | (u, r) in db.userRole && r in db.roles
        ensures RoleOf(db', r) == RoleOf(db, r)
      {
        MenuDeleteRole(db, id, r);
        assert id !in MenusOf(db, r);
      }
      SameRoles(db, db', u);
    }
  }

  /** A role's menus, as a record holds them, are exactly these ids. */
  ghost predicate ExactlyMenus(db: Db, r: int, ids: set<int>) {
    r in db.roles ==> RoleOf(db, r).menus.Keys == ids
  }

  ghost predicate ExactlyScopes(db: Db, r: int, ids: set<int>) {
    r in db.roles ==> RoleOf(db, r).scopes.Keys == ids
  }

  /** What a record read after the mutation holds of what was changed; a missing row changes nothing. */
  ghost predicate Shows(before: Db, e: Event, db: Db) {
    if !Hits(before, e) then db == before
    else match e
      case Read(_) => db == before
      case Expire(_) => db == before
      case CreateUser(u, profile, roles) =>
        u in db.users && View(db, u).user == profile && View(db, u).roles.Keys == roles * before.roles.Keys
      case UpdateUser(u, profile, roles) =>
        u in db.users && View(db, u).user == profile && View(db, u).roles.Keys == roles * before.roles.Keys
      case PatchUser(u, profile) => u in db.users && View(db, u).user == profile
      case DeleteUser(u) => u !in db.users
      case CreateRole(id, row) => id in db.roles && RoleOf(db, id).row == row
      case UpdateRole(id, row) => id in db.roles && RoleOf(db, id).row == row
      case UpdateRoleMenus(id, ids) => id in db.roles && ExactlyMenus(db, id, ids)
      case UpdateRoleScopes(id, ids) => id in db.roles && ExactlyScopes(db, id, ids)
      case DeleteRoles(ids) => forall u, r :: u in db.users && r in View(db, u).roles ==> r !in ids
      case CreateMenu(id, row) => id in db.menus && forall r :: id in MenusOf(db, r) ==> MenusOf(db, r)[id] == row
      case UpdateMenu(id, row) => id in db.menus && forall r :: id in MenusOf(db, r) ==> MenusOf(db, r)[id] == row
      case DeleteMenu(id) => forall r :: id !in MenusOf(db, r)
      case CreateScope(id, row) =>
        id in db.scopes && forall r :: id in ScopesOf(db, r) ==> ScopesOf(db, r)[id].row == row
      case UpdateScope(id, row) =>
        id in db.scopes && forall r :: id in ScopesOf(db, r) ==> ScopesOf(db, r)[id].row == row
      case UpdateScopeRules(id, ids) => forall r :: id in ScopesOf(db, r) ==> ScopesOf(db, r)[id].rules.Keys == ids
      case DeleteScopes(ids) => forall r, s :: s in ScopesOf(db, r) ==> s !in ids
      case CreateRule(id, row) => id in db.rules && forall s :: id in RulesOf(db, s) ==> RulesOf(db, s)[id] == row
      case UpdateRule(id, row) => id in db.rules && forall s :: id in RulesOf(db, s) ==> RulesOf(db, s)[id] == row
      case DeleteRules(ids) => forall s, x :: x in RulesOf(db, s) ==> x !in ids
      case CreateDept(id, row) => id in db.depts && db.depts[id] == row
      case UpdateDept(id, row) =>
        forall u :: u in db.users && db.users[u].dept == Some(id) ==> View(db, u).dept == Some(row)
      case DeleteDept(id, row) => id in db.depts && db.depts[id] == row
      case Login(u, visit) => u in db.users && View(db, u).user.visit == visit
  }

  /** The rows a mutation speaks of are there; a department is only deleted without users. */
  ghost predicate Hits(db: Db, e: Event) {
    match e
    case UpdateUser(u, _, _) => u in db.users
    case PatchUser(u, _) => u in db.users
    case UpdateRole(id, _) => id in db.roles
    case UpdateRoleMenus(id, ids) => id in db.roles && ids <= db.menus.Keys
    case UpdateRoleScopes(id, ids) => id in db.roles && ids <= db.scopes.Keys
    case UpdateMenu(id, _) => id in db.menus
    case UpdateScope(id, _) => id in db.scopes
    case UpdateScopeRules(id, ids) => id in db.scopes && ids <= db.rules.Keys
    case UpdateRule(id, _) => id in db.rules
    case UpdateDept(id, _) => id in db.depts
    case DeleteDept(id, _) => id in db.depts && !exists u :: u in db.users && db.users[u].dept == Some(id)
    case Login(u, _) => u in db.users
    case _ => true
  }

  lemma LinkOf(links: set<(int, int)>, left: int, rights: set<int>, right: int)
    ensures (left, right) in Relinked(links, left, rights) <==> right in rights
  {
  }

  lemma RolesShow(db: Db, u: int, profile: UserRow, roles: set<int>)
    ensures var links := Relinked(db.userRole, u, roles * db.roles.Keys);
            RolesOf(db.(users := db.users[u := profile], userRole := links), u).Keys == roles * db.roles.Keys
  {
    var kept := roles * db.roles.Keys;
    var after := RolesOf(db.(users := db.users[u := profile], userRole := Relinked(db.userRole, u, kept)), u);
    forall r
      ensures r in after <==> r in kept
    {
      LinkOf(db.userRole, u, kept, r);
    }
  }

  lemma MenusShow(db: Db, id: int, ids: set<int>)
    requires ids <= db.menus.Keys
    ensures MenusOf(db.(roleMenu := Relinked(db.roleMenu, id, ids)), id).Keys == ids
  {
    var after := MenusOf(db.(roleMenu := Relinked(db.roleMenu, id, ids)), id);
    forall m
      ensures m in after <==> m in ids
    {
      LinkOf(db.roleMenu, id, ids, m);
    }
  }

  lemma ScopesShow(db: Db, id: int, ids: set<int>)
    requires ids <= db.scopes.Keys
    ensures ScopesOf(db.(roleScope := Relinked(db.roleScope, id, ids)), id).Keys == ids
  {
    var after := ScopesOf(db.(roleScope := Relinked(db.roleScope, id, ids)), id);
    forall s
      ensures s in after <==> s in ids
    {
      LinkOf(db.roleScope, id, ids, s);
    }
  }

  lemma RulesShow(db: Db, id: int, ids: set<int>)
    requires ids <= db.rules.Keys
    ensures RulesOf(db.(scopeRule := Relinked(db.scopeRule, id, ids)), id).Keys == ids
  {
    var after := RulesOf(db.(scopeRule := Relinked(db.scopeRule, id, ids)), id);
    forall x
      ensures x in after <==> x in ids
    {
      LinkOf(db.scopeRule, id, ids, x);
    }
  }

  lemma UserShows(db: Db, e: Event)
    requires e.CreateUser? || e.UpdateUser? || e.PatchUser? || e.DeleteUser? || e.Login?
    ensures Shows(db, e, Mutated(db, e))
  {
    if e.CreateUser? || e.UpdateUser? {
      RolesShow(db, e.user, e.profile, e.roles);
    }
  }

  lemma RoleShows(db: Db, e: Event)
    requires e.CreateRole? || e.UpdateRole? || e.DeleteRoles?
    ensures Shows(db, e, Mutated(db, e))
  {
  }

  lemma RoleLinksShow(db: Db, e: Event)
    requires e.UpdateRoleMenus? || e.UpdateRoleScopes?
    ensures Shows(db, e, Mutated(db, e))
  {
    if e.UpdateRoleMenus? && e.ids <= db.menus.Keys {
      MenusShow(db, e.id, e.ids);
    } else if e.UpdateRoleScopes? && e.ids <= db.scopes.Keys {
      ScopesShow(db, e.id, e.ids);
    }
  }

  lemma MenuShows(db: Db, e: Event)
    requires e.CreateMenu? || e.UpdateMenu? || e.DeleteMenu?
    ensures Shows(db, e, Mutated(db, e))
  {
  }

  lemma ScopeShows(db: Db, e: Event)
    requires e.CreateScope? || e.UpdateScope? || e.UpdateScopeRules? || e.DeleteScopes?
    ensures Shows(db, e, Mutated(db, e))
  {
    if e.UpdateScopeRules? && e.ids <= db.rules.Keys {
      RulesShow(db, e.id, e.ids);
    }
  }

  lemma RuleShows(db: Db, e: Event)
    requires e.CreateRule? || e.UpdateRule? || e.DeleteRules?
    ensures Shows(db, e, Mutated(db, e))
  {
  }

  lemma DeptShows(db: Db, e: Event)
    requires e.CreateDept? || e.UpdateDept? || e.DeleteDept?
    ensures Shows(db, e, Mutated(db, e))
  {
  }

  /** Every mutation shows in the records read after it. */
  lemma MutationShows(db: Db, e: Event)
    ensures Shows(db, e, Mutated(db, e))
  {
    if e.Read? || e.Expire? {
      assert Mutated(db, e) == db;
    } else if e.CreateUser? || e.UpdateUser? || e.PatchUser? || e.DeleteUser? || e.Login? {
      UserShows(db, e);
    } else if e.CreateRole? || e.UpdateRole? || e.DeleteRoles? {
      RoleShows(db, e);
    } else if e.UpdateRoleMenus? || e.UpdateRoleScopes? {
      RoleLinksShow(db, e);
    } else if e.CreateMenu? || e.UpdateMenu? || e.DeleteMenu? {
      MenuShows(db, e);
    } else if e.CreateScope? || e.UpdateScope? || e.UpdateScopeRules? || e.DeleteScopes? {
      ScopeShows(db, e);
    } else if e.CreateRule? || e.UpdateRule? || e.DeleteRules? {
      RuleShows(db, e);
    } else {
      DeptShows(db, e);
    }
  }

  /**
    Whoever a mutation does not clear sees in the new database exactly what they saw in the old,
    unless it is their own login, a new row for their department, or the deletion of a menu of theirs.
   */
  lemma SurvivorsExactly(db: Db, e: Event, u: int)
    requires u in db.users && FreshId(db, e) && u !in Cleared(Mutated(db, e), e)
    ensures u in Mutated(db, e).users && (View(Mutated(db, e), u) == View(db, u) <==> !Changes(db, e, u))
  {
    match e
    case Read(_) =>
    case Expire(_) =>
    case CreateUser(_, _, _) => UserEventKeeps(db, e, u);
    case UpdateUser(_, _, _) => UserEventKeeps(db, e, u);
    case PatchUser(_, _) => UserEventKeeps(db, e, u);
    case DeleteUser(_) => UserEventKeeps(db, e, u);
    case CreateRole(_, _) => RoleRowKeeps(db, e, u);
    case UpdateRole(_, _) => RoleRowKeeps(db, e, u);
    case DeleteRoles(_) => RoleRowKeeps(db, e, u);
    case UpdateRoleMenus(_, _) => RoleLinksKeep(db, e, u);
    case UpdateRoleScopes(_, _) => RoleLinksKeep(db, e, u);
    case CreateMenu(_, _) => MenuKeeps(db, e, u);
    case UpdateMenu(_, _) => MenuKeeps(db, e, u);
    case DeleteMenu(id) => MenuDeleteView(db, id, u);
    case CreateScope(_, _) => ScopeKeeps(db, e, u);
    case UpdateScope(_, _) => ScopeKeeps(db, e, u);
    case UpdateScopeRules(_, _) => ScopeKeeps(db, e, u);
    case DeleteScopes(_) => ScopeKeeps(db, e, u);
    case CreateRule(_, _) => RuleKeeps(db, e, u);
    case UpdateRule(_, _) => RuleKeeps(db, e, u);
    case DeleteRules(_) => RuleKeeps(db, e, u);
    case CreateDept(_, _) => DeptView(db, e, u);
    case UpdateDept(_, _) => DeptView(db, e, u);
    case DeleteDept(_, _) => DeptView(db, e, u);
    case Login(user, visit) => LoginView(db, user, visit, u);
  }

  // ---- runs ----

  /** No cached record's view is changed by a mutation that leaves the record. */
  ghost predicate Harmless(s: State, e: Event) {
    forall u :: u in s.cache ==> !Changes(s.db, e, u)
  }

  lemma StepExactly(s: State, e: Event)
    requires Coherent(s) && FreshId(s.db, e)
    ensures Coherent(After(s, e)) <==> Harmless(s, e)
  {
    var t := After(s, e);
    if e.DeleteMenu? {
      MenuDeleteClearsNobody(s.db, e.id);
    }
    forall u | u in s.cache && u in t.cache
      ensures u in t.db.users && (t.cache[u] == View(t.db, u) <==> !Changes(s.db, e, u))
    {
      SurvivorsExactly(s.db, e, u);
    }
  }

  function Run(s: State, events: seq<Event>): State
    decreases |events|
  {
    if events == [] then s else Run(After(s, events[0]), events[1..])
  }

  /** A created menu's id is in no record either, not even in one read before a deletion. */
  ghost predicate Unmentioned(cache: Cache, e: Event) {
    e.CreateMenu? ==> forall u, r :: u in cache && r in cache[u].roles ==> e.id !in cache[u].roles[r].menus
  }

  ghost predicate FreshRun(s: State, events: seq<Event>)
    decreases |events|
  {
    events == [] || (FreshId(s.db, events[0]) && Unmentioned(s.cache, events[0])
                     && FreshRun(After(s, events[0]), events[1..]))
  }

  ghost predicate CoherentThroughout(s: State, events: seq<Event>)
    decreases |events|
  {
    Coherent(s) && (events == [] || CoherentThroughout(After(s, events[0]), events[1..]))
  }

  ghost predicate HarmlessThroughout(s: State, events: seq<Event>)
    decreases |events|
  {
    events == [] || (Harmless(s, events[0]) && HarmlessThroughout(After(s, events[0]), events[1..]))
  }

  /**
    The cache stays right from a right start exactly when no cached user logs in anew, no cached
    user's department gets a new row, and no menu of a cached user is deleted.
   */
  lemma {:induction false} CoherentExactly(s: State, events: seq<Event>)
    requires Coherent(s) && FreshRun(s, events)
    ensures CoherentThroughout(s, events) <==> HarmlessThroughout(s, events)
    decreases |events|
  {
    if events != [] {
      StepExactly(s, events[0]);
      if Harmless(s, events[0]) {
        CoherentExactly(After(s, events[0]), events[1..]);
      } else {
        assert !CoherentThroughout(After(s, events[0]), events[1..]);
      }
    }
  }

  // ---- what is right on every run ----

  function Known(v: RoleView, menus: set<int>): RoleView {
    v.(menus := map m | m in v.menus && m in menus :: v.menus[m])
  }

  /** Roles as recorded, without the menus that no longer exist. */
  function Live(menus: set<int>, roles: map<int, RoleView>): map<int, RoleView> {
    map r | r in roles :: Known(roles[r], menus)
  }

  /** A record agrees but for login time and avatar, the department's own row, and menus that no longer exist. */
  ghost predicate AgreesButMenus(db: Db, u: int, v: UserView) {
    && u in db.users && v.user.(visit := db.users[u].visit) == db.users[u]
    && Live(db.menus.Keys, v.roles) == RolesOf(db, u)
  }

  ghost predicate AllAgree(s: State) {
    forall u :: u in s.cache ==> AgreesButMenus(s.db, u, s.cache[u])
  }

  lemma LiveGrows(menus: set<int>, id: int, roles: map<int, RoleView>)
    requires forall r :: r in roles ==> id !in roles[r].menus
    ensures Live(menus + {id}, roles) == Live(menus, roles)
  {
    forall r | r in roles
      ensures Known(roles[r], menus + {id}) == Known(roles[r], menus)
    {
      assert Known(roles[r], menus + {id}).menus == Known(roles[r], menus).menus;
    }
  }

  lemma LiveShrinks(menus: set<int>, id: int, v: RoleView)
    ensures Known(v, menus - {id}) == Known(v, menus).(menus := Known(v, menus).menus - {id})
  {
    assert Known(v, menus - {id}).menus == Known(v, menus).menus - {id};
  }

  lemma LiveKept(db: Db, e: Event, roles: map<int, RoleView>)
    requires !e.DeleteMenu? && (e.CreateMenu? ==> forall r :: r in roles ==> e.id !in roles[r].menus)
    ensures Live(Mutated(db, e).menus.Keys, roles) == Live(db.menus.Keys, roles)
  {
    MenusKept(db, e);
    if e.CreateMenu? {
      LiveGrows(db.menus.Keys, e.id, roles);
    }
  }

  lemma MenusKept(db: Db, e: Event)
    requires !e.DeleteMenu?
    ensures Mutated(db, e).menus.Keys == if e.CreateMenu? then db.menus.Keys + {e.id} else db.menus.Keys
  {
  }

  lemma LiveWithout(db: Db, id: int, roles: map<int, RoleView>, u: int)
    requires Live(db.menus.Keys, roles) == RolesOf(db, u)
    ensures var db' := Mutated(db, DeleteMenu(id)); Live(db'.menus.Keys, roles) == RolesOf(db', u)
  {
    var db' := Mutated(db, DeleteMenu(id));
    var before := Live(db.menus.Keys, roles);
    assert db'.menus.Keys == db.menus.Keys - {id};
    assert before.Keys == roles.Keys;
    forall r | r in roles
      ensures r in db.roles && (u, r) in db.userRole && Known(roles[r], db'.menus.Keys) == RoleOf(db', r)
    {
      assert before[r] == RoleOf(db, r);
      MenuDeleteRole(db, id, r);
      LiveShrinks(db.menus.Keys, id, roles[r]);
    }
  }

  lemma LiveView(db: Db, u: int)
    requires u in db.users
    ensures AgreesButMenus(db, u, View(db, u))
  {
    forall r | r in RolesOf(db, u)
      ensures Known(RolesOf(db, u)[r], db.menus.Keys) == RolesOf(db, u)[r]
    {
      assert Known(RolesOf(db, u)[r], db.menus.Keys).menus == RolesOf(db, u)[r].menus;
    }
    assert Live(db.menus.Keys, RolesOf(db, u)) == RolesOf(db, u);
  }

  lemma RecordKept(db: Db, e: Event, u: int, v: UserView)
    requires AgreesButMenus(db, u, v) && FreshId(db, e) && u !in Cleared(Mutated(db, e), e)
    requires e.CreateMenu? ==> forall r :: r in v.roles ==> e.id !in v.roles[r].menus
    ensures AgreesButMenus(Mutated(db, e), u, v)
  {
    SurvivorsExactly(db, e, u);
    if e.DeleteMenu? {
      LiveWithout(db, e.id, v.roles, u);
    } else {
      LiveKept(db, e, v.roles);
      if e.Login? {
        LoginView(db, e.user, e.visit, u);
      } else if e.UpdateDept? {
        DeptView(db, e, u);
      } else {
        assert View(Mutated(db, e), u) == View(db, u);
      }
    }
  }

  /**
    Over every run of reads, expiries and mutations, those that clear nobody included, a record can be
    wrong only in the login time and avatar, the department's row, and menus deleted since: the user's
    own columns, department link, roles, scopes, rules and remaining menus are the database's.
  */
  lemma {:induction false} RolesAgree(s: State, events: seq<Event>)
    requires AllAgree(s) && FreshRun(s, events)
    ensures AllAgree(Run(s, events))
    decreases |events|
  {
    if events != [] {
      var t := After(s, events[0]);
      forall u | u in t.cache
        ensures AgreesButMenus(t.db, u, t.cache[u])
      {
        if u in s.cache {
          RecordKept(s.db, events[0], u, s.cache[u]);
        } else {
          LiveView(t.db, u);
        }
      }
      RolesAgree(t, events[1..]);
    }
  }
}
