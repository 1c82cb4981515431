/**
 * The requests that change the permission graph, each as its checks followed by its write
 * (backend/internal/api/admin_users.go, admin_people.go, admin_groups.go, admin_roles.go, admin_apis.go,
 * admin_directory.go, auth_handlers.go and the store methods they call).
 */
module Granting {
  import opened Strings
  import opened Rbac
  import opened Accounts
  import opened PermGraph
  import Identity
  import Portal

  ghost function ActorEngine(t: Tables, actor: int): Engine {
    EngineOf(IsAdmin(t, actor), ResolvePermissions(t, actor))
  }

  /** A delegated manager hands out only scopes they hold; administrators hand out anything. */
  ghost predicate AllowGrant(t: Tables, actor: int, scopes: set<string>) {
    forall s :: s in scopes ==> ActorEngine(t, actor).Has(s)
  }

  function Added(current: set<int>, next: seq<int>): set<int> {
    Elements(next) - current
  }

  /** Only administrators change what concerns an administrator. */
  function MayChange(t: Tables, actor: int, target: int): Reply {
    if target !in t.users then NotFound
    else if t.users[target].isAdmin && !IsAdmin(t, actor) then Forbidden
    else Done
  }

  // ---- Membership ----

  function Members(group: int, users: set<int>): set<(int, int)> {
    set u | u in users :: (u, group)
  }

  function WithoutFirst(rows: set<(int, int)>, first: int): set<(int, int)> {
    set x | x in rows && x.0 != first
  }

  function Memberships(user: int, groups: set<int>): set<(int, int)> {
    set g | g in groups :: (user, g)
  }

  ghost function SetUserGroups(t: Tables, actor: int, target: int, groups: seq<int>): (Reply, Tables) {
    if MayChange(t, actor, target) != Done then (MayChange(t, actor, target), t)
    else if !AllowGrant(t, actor, ScopesForGroups(t, Added(GroupIDs(t, target), groups))) then (Forbidden, t)
    else if exists g :: g in groups && g !in t.groups then (Invalid, t)
    else (Done, t.(userGroups := WithoutFirst(t.userGroups, target) + Memberships(target, Elements(groups))))
  }

  /** The reply to the first listed user whose groups the actor may not change; Done when there is none. */
  function MembersRefusal(t: Tables, actor: int, users: seq<int>): Reply {
    if users == [] then Done
    else
      var before := MembersRefusal(t, actor, users[..|users| - 1]);
      if before != Done then before else MayChange(t, actor, users[|users| - 1])
  }

  ghost function AddGroupMembers(t: Tables, actor: int, group: int, users: seq<int>): (Reply, Tables) {
    if group !in t.groups then (NotFound, t)
    else if |users| == 0 || |users| > 500 then (Invalid, t)
    else if MembersRefusal(t, actor, users) != Done then (MembersRefusal(t, actor, users), t)
    else if !AllowGrant(t, actor, ScopesForGroups(t, {group})) then (Forbidden, t)
    else (Done, t.(userGroups := t.userGroups + Members(group, Elements(users))))
  }

  ghost function RemoveGroupMember(t: Tables, actor: int, group: int, user: int): (Reply, Tables) {
    if group !in t.groups then (NotFound, t)
    else if MayChange(t, actor, user) != Done then (MayChange(t, actor, user), t)
    else if (user, group) !in t.userGroups then (NotFound, t)
    else (Done, t.(userGroups := t.userGroups - {(user, group)}))
  }

  /** The mapped groups whose directory group the user belongs to. */
  ghost function DirectoryGroups(t: Tables, p: Provider, memberships: set<string>): set<int> {
    set g | g in t.groups && t.groups[g].Mapping(p) != "" && MemberOf(memberships, t.groups[g].Mapping(p))
  }

  /** The user has a row, or needs no new membership. */
  ghost predicate SyncFits(t: Tables, user: int, p: Provider, memberships: set<string>) {
    user in t.users || forall g :: g in DirectoryGroups(t, p, memberships) ==> (user, g) in t.userGroups
  }

  /** Brings the user's mapped groups in line with the directory; an insert for a missing user rolls back. */
  ghost function Sync(t: Tables, user: int, p: Provider, memberships: set<string>): Tables {
    if !SyncFits(t, user, p, memberships) then t
    else
      var mapped := set g | g in t.groups && t.groups[g].Mapping(p) != "";
      t.(userGroups := (set x | x in t.userGroups && !(x.0 == user && x.1 in mapped))
                       + Memberships(user, DirectoryGroups(t, p, memberships)))
  }

  // ---- Groups ----

  predicate GroupNameTaken(t: Tables, name: string, except: set<int>) {
    exists g :: g in t.groups && g !in except && t.groups[g].name == name
  }

  function CreateGroup(t: Tables, name: string, azure: string, ldap: string): (Reply, Tables) {
    if TrimSpace(name) == "" || GroupNameTaken(t, TrimSpace(name), {}) then (Invalid, t)
    else (Done, t.(groups := t.groups[t.nextGroup := Group(TrimSpace(name), TrimSpace(azure), TrimSpace(ldap))],
                   nextGroup := t.nextGroup + 1))
  }

  /** A new mapping hands the group's scopes to the directory group's members: it is a grant. */
  ghost function UpdateGroup(t: Tables, actor: int, group: int, name: string, azure: string,
                             ldap: string): (Reply, Tables) {
    if group !in t.groups then (NotFound, t)
    else if TrimSpace(name) == "" then (Invalid, t)
    else if (TrimSpace(azure) != t.groups[group].azure || TrimSpace(ldap) != t.groups[group].ldap)
      && !AllowGrant(t, actor, ScopesForGroups(t, {group})) then (Forbidden, t)
    else if GroupNameTaken(t, TrimSpace(name), {group}) then (Invalid, t)
    else (Done, t.(groups := t.groups[group := Group(TrimSpace(name), TrimSpace(azure), TrimSpace(ldap))]))
  }

  /** Deleting a group also deletes its access grants and leaves the APIs it owned without an owner. */
  function DeleteGroup(t: Tables, group: int): Tables {
    t.(groups := t.groups - {group},
       userGroups := WithoutSecond(t.userGroups, group),
       groupRoles := WithoutFirst(t.groupRoles, group),
       apis := WithoutOwner(t.apis, group),
       access := WithoutGroup(t.access, group))
  }

  function WithoutSecond(rows: set<(int, int)>, id: int): set<(int, int)> {
    set x | x in rows && x.1 != id
  }

  function WithoutOwner(apis: map<int, Api>, group: int): map<int, Api> {
    map a | a in apis :: if apis[a].owner == Some(group) then apis[a].(owner := None) else apis[a]
  }

  function WithoutGroup(access: map<(int, int), Action>, group: int): map<(int, int), Action> {
    map x | x in access && x.1 != group :: access[x]
  }

  ghost function SetGroupRoles(t: Tables, actor: int, group: int, roles: seq<int>): (Reply, Tables) {
    if !AllowGrant(t, actor, ScopesForRoles(t, Added(RoleIDs(t, group), roles))) then (Forbidden, t)
    else if exists r :: r in roles && (r !in t.roles || group !in t.groups) then (Invalid, t)
    else (Done, t.(groupRoles := WithoutFirst(t.groupRoles, group) + Memberships(group, Elements(roles))))
  }

  // ---- Roles ----

  predicate RoleNameTaken(t: Tables, name: string, except: set<int>) {
    exists r :: r in t.roles && r !in except && t.roles[r] == name
  }

  function CreateRole(t: Tables, name: string): (Reply, Tables) {
    if RoleNameTaken(t, name, {}) then (Invalid, t)
    else (Done, t.(roles := t.roles[t.nextRole := name], nextRole := t.nextRole + 1))
  }

  function RenameRole(t: Tables, role: int, name: string): (Reply, Tables) {
    if role !in t.roles then (Done, t)
    else if RoleNameTaken(t, name, {role}) then (Invalid, t)
    else (Done, t.(roles := t.roles[role := name]))
  }

  function WithoutRole(permissions: map<int, Permission>, role: int): map<int, Permission> {
    map p | p in permissions && permissions[p].role != role :: permissions[p]
  }

  function DeleteRole(t: Tables, role: int): Tables {
    t.(roles := t.roles - {role},
       groupRoles := WithoutSecond(t.groupRoles, role),
       permissions := WithoutRole(t.permissions, role))
  }

  ghost function AddNormalized(t: Tables, actor: int, role: int, scope: string): (Reply, Tables) {
    if !ValidScope(scope) then (Invalid, t)
    else if !AllowGrant(t, actor, {scope}) then (Forbidden, t)
    else if role !in t.roles then (Invalid, t)
    else (Done, t.(permissions := t.permissions[t.nextPermission := Permission(role, Lower(scope))],
                   nextPermission := t.nextPermission + 1))
  }

  ghost function AddRolePermission(t: Tables, actor: int, role: int, scope: string): (Reply, Tables) {
    AddNormalized(t, actor, role, Normalize(scope))
  }

  function Cleaned(scope: string): string {
    Lower(TrimSpace(scope))
  }

  predicate Seen(scopes: seq<string>, scope: string) {
    exists i :: 0 <= i < |scopes| && Cleaned(scopes[i]) == scope
  }

  /** The permission rows with one row added for every new non-blank scope. */
  function InsertScopes(permissions: map<int, Permission>, next: int, role: int,
                        scopes: seq<string>): (map<int, Permission>, int) {
    if scopes == [] then (permissions, next)
    else
      var init, scope := scopes[..|scopes| - 1], Cleaned(scopes[|scopes| - 1]);
      var (before, n) := InsertScopes(permissions, next, role, init);
      if scope == "" || Seen(init, scope) then (before, n) else (before[n := Permission(role, scope)], n + 1)
  }

  function NormalizedAll(scopes: seq<string>): (r: seq<string>)
    ensures |r| == |scopes|
  {
    seq(|scopes|, i requires 0 <= i < |scopes| => Normalize(scopes[i]))
  }

  /** The listed scopes the role does not hold yet in any spelling. */
  function AddedScopes(t: Tables, role: int, scopes: seq<string>): set<string> {
    Elements(scopes) - set p | p in t.permissions && t.permissions[p].role == role :: Normalize(t.permissions[p].scope)
  }

  ghost function ReplaceRolePermissions(t: Tables, actor: int, role: int, payload: seq<string>): (Reply, Tables) {
    var scopes := NormalizedAll(payload);
    if exists i :: 0 <= i < |scopes| && !ValidScope(scopes[i]) then (Invalid, t)
    else if !AllowGrant(t, actor, AddedScopes(t, role, scopes)) then (Forbidden, t)
    else if role !in t.roles && exists i :: 0 <= i < |scopes| && Cleaned(scopes[i]) != "" then (Invalid, t)
    else
      var (permissions, next) := InsertScopes(WithoutRole(t.permissions, role), t.nextPermission, role, scopes);
      (Done, t.(permissions := permissions, nextPermission := next))
  }

  function DeletePermission(t: Tables, id: int): Tables {
    t.(permissions := t.permissions - {id})
  }

  // ---- APIs ----

  predicate SlugTaken(t: Tables, slug: string, except: set<int>) {
    exists a :: a in t.apis && a !in except && t.apis[a].slug == slug
  }

  predicate ValidApi(t: Tables, slug: string, owner: Option<int>) {
    TrimSpace(slug) != "" && (owner.Some? ==> owner.value in t.groups)
  }

  /** Naming an owner group takes the rights over all APIs. */
  ghost function CreateApi(t: Tables, actor: int, slug: string, owner: Option<int>): (Reply, Tables) {
    if !ValidApi(t, slug, owner) then (Invalid, t)
    else if owner.Some? && !ActorEngine(t, actor).ManagesAllAPIs() then (Forbidden, t)
    else if SlugTaken(t, TrimSpace(slug), {}) || t.nextApi > MAX_INT then (Invalid, t)
    else (Done, t.(apis := t.apis[t.nextApi := Api(TrimSpace(slug), owner)], nextApi := t.nextApi + 1))
  }

  ghost function UpdateApi(t: Tables, actor: int, api: int, slug: string, owner: Option<int>): (Reply, Tables) {
    if !ActorEngine(t, actor).CanManageAPI(api) then (Forbidden, t)
    else if api !in t.apis then (NotFound, t)
    else if !ValidApi(t, slug, owner) then (Invalid, t)
    else if owner != t.apis[api].owner && !ActorEngine(t, actor).ManagesAllAPIs() then (Forbidden, t)
    else if SlugTaken(t, TrimSpace(slug), {api}) then (Invalid, t)
    else (Done, t.(apis := t.apis[api := Api(TrimSpace(slug), owner)]))
  }

  /** SQLite's LIKE ignores ASCII case. */
  predicate ScopedTo(scope: string, api: int) {
    StartsWith(Lower(scope), "api:" + Decimal(api) + ":")
  }

  ghost function DeleteApi(t: Tables, actor: int, api: int): (Reply, Tables) {
    if !ActorEngine(t, actor).CanDeleteAPI(api) then (Forbidden, t)
    else if api !in t.apis then (NotFound, t)
    else (Done, t.(apis := t.apis - {api},
                   permissions := WithoutScoped(t.permissions, api),
                   access := WithoutApi(t.access, api)))
  }

  /** The rows left when the API's own scopes go. */
  function WithoutScoped(permissions: map<int, Permission>, api: int): map<int, Permission> {
    map p | p in permissions && !ScopedTo(permissions[p].scope, api) :: permissions[p]
  }

  function WithoutApi(access: map<(int, int), Action>, api: int): map<(int, int), Action> {
    map x | x in access && x.0 != api :: access[x]
  }

  predicate Level(level: string) {
    level == "view" || level == "invoke"
  }

  function LevelAction(level: string): Action {
    if level == "invoke" then Invoke else View
  }

  /** INSERT OR REPLACE in order: the last row for a group wins. */
  function InsertAccess(access: map<(int, int), Action>, api: int, rows: seq<(int, string)>): map<(int, int), Action> {
    if rows == [] then access
    else
      var (group, level) := rows[|rows| - 1];
      InsertAccess(access, api, rows[..|rows| - 1])[(api, group) := LevelAction(level)]
  }

  ghost function SetApiAccess(t: Tables, actor: int, api: int, rows: seq<(int, string)>): (Reply, Tables) {
    if !ActorEngine(t, actor).CanManageAPI(api) then (Forbidden, t)
    else if api !in t.apis then (NotFound, t)
    else if exists i :: 0 <= i < |rows| && !(Level(rows[i].1) && rows[i].0 in t.groups) then (Invalid, t)
    else (Done, t.(access := InsertAccess(WithoutApi(t.access, api), api, rows)))
  }

  // ---- Accounts ----

  /** Deleting an account deletes its memberships with it. */
  ghost function WithUsers(t: Tables, users: Users): Tables {
    t.(users := users,
       nextUser := if t.nextUser in users then t.nextUser + 1 else t.nextUser,
       userGroups := (set x | x in t.userGroups && x.0 in users))
  }

  /** Account management: the database assigns the id of a new account. */
  ghost function Account(t: Tables, actor: int, r: Accounts.Request): (Reply, Tables) {
    var (reply, users) := Apply(t.users, actor, IsAdmin(t, actor),
                                if r.CreateRequest? then r.(id := t.nextUser) else r);
    (reply, WithUsers(t, users))
  }

  /** The account of a first directory sign-in. */
  ghost function SignInCreates(t: Tables, name: string, email: string, source: Accounts.Source,
                               externalId: string): Tables {
    WithUsers(t, Insert(t.users, t.nextUser, User(name, email, source, true, false, externalId)).1)
  }

  /** A new account in the given groups. */
  ghost function Enroll(t: Tables, user: User, groups: seq<int>): (Reply, Tables) {
    var (reply, users) := Insert(t.users, t.nextUser, user);
    if reply != Done then (reply, t)
    else
      var t' := WithUsers(t, users);
      (Done, t'.(userGroups := t'.userGroups + Memberships(t.nextUser, Elements(groups))))
  }

  ghost function PreregisterAs(t: Tables, actor: int, user: User, groups: seq<int>): (Reply, Tables) {
    if exists g :: g in groups && g !in t.groups then (Invalid, t)
    else if !AllowGrant(t, actor, ScopesForGroups(t, Elements(groups))) then (Forbidden, t)
    else Enroll(t, user, groups)
  }

  ghost function Preregister(t: Tables, actor: int, emailOk: bool, enabled: bool, upn: string, email: string, now: nat,
                             groups: seq<int>): (Reply, Tables) {
    var (reply, name) := Identity.PreregisteredName(t.users, emailOk, enabled, upn, email, now);
    if reply != Done then (reply, t) else PreregisterAs(t, actor, Identity.PreregisteredUser(name, email), groups)
  }

  /** The directory accounts of the imported names; only administrators move administrators. */
  function Imported(users: Users, actorIsAdmin: bool, rows: seq<(string, string)>): set<int> {
    set id | id in users && users[id].source == Ldap && (actorIsAdmin || !users[id].isAdmin)
      && exists i :: 0 <= i < |rows| && rows[i].0 == users[id].username
  }

  ghost function ImportLDAP(t: Tables, actor: int, rows: seq<(string, string)>, groups: seq<int>): (Reply, Tables) {
    if exists g :: g in groups && g !in t.groups then (Invalid, t)
    else if !AllowGrant(t, actor, ScopesForGroups(t, Elements(groups))) then (Forbidden, t)
    else
      var (users, next) := Portal.ImportRows(t.users, t.nextUser, rows);
      var ids := Imported(users, IsAdmin(t, actor), rows);
      (Done, t.(users := users, nextUser := next,
                userGroups := t.userGroups + (set u, g | u in ids && g in Elements(groups) :: (u, g))))
  }

  // ---- Every request ----

  datatype Request =
    | AccountRequest(account: Accounts.Request)
    | SetUserGroupsRequest(target: int, groups: seq<int>)
    | AddMembersRequest(group: int, users: seq<int>)
    | RemoveMemberRequest(group: int, user: int)
    | CreateGroupRequest(name: string, azure: string, ldap: string)
    | UpdateGroupRequest(group: int, name: string, azure: string, ldap: string)
    | DeleteGroupRequest(group: int)
    | SetGroupRolesRequest(group: int, roles: seq<int>)
    | CreateRoleRequest(name: string)
    | RenameRoleRequest(role: int, name: string)
    | DeleteRoleRequest(role: int)
    | AddPermissionRequest(role: int, scope: string)
    | ReplacePermissionsRequest(role: int, scopes: seq<string>)
    | DeletePermissionRequest(permission: int)
    | CreateApiRequest(slug: string, owner: Option<int>)
    | UpdateApiRequest(api: int, slug: string, owner: Option<int>)
    | DeleteApiRequest(api: int)
    | SetAccessRequest(api: int, rows: seq<(int, string)>)
    | PreregisterRequest(emailOk: bool, enabled: bool, upn: string, email: string, now: nat, groups: seq<int>)
    | ImportRequest(entries: seq<(string, string)>, groups: seq<int>)

  ghost function Handle(t: Tables, actor: int, r: Request): (Reply, Tables) {
    match r
    case AccountRequest(account) => Account(t, actor, account)
    case SetUserGroupsRequest(target, groups) => SetUserGroups(t, actor, target, groups)
    case AddMembersRequest(group, users) => AddGroupMembers(t, actor, group, users)
    case RemoveMemberRequest(group, user) => RemoveGroupMember(t, actor, group, user)
    case CreateGroupRequest(name, azure, ldap) => CreateGroup(t, name, azure, ldap)
    case UpdateGroupRequest(group, name, azure, ldap) => UpdateGroup(t, actor, group, name, azure, ldap)
    case DeleteGroupRequest(group) => (Done, DeleteGroup(t, group))
    case SetGroupRolesRequest(group, roles) => SetGroupRoles(t, actor, group, roles)
    case CreateRoleRequest(name) => CreateRole(t, name)
    case RenameRoleRequest(role, name) => RenameRole(t, role, name)
    case DeleteRoleRequest(role) => (Done, DeleteRole(t, role))
    case AddPermissionRequest(role, scope) => AddRolePermission(t, actor, role, scope)
    case ReplacePermissionsRequest(role, scopes) => ReplaceRolePermissions(t, actor, role, scopes)
    case DeletePermissionRequest(id) => (Done, DeletePermission(t, id))
    case CreateApiRequest(slug, owner) => CreateApi(t, actor, slug, owner)
    case UpdateApiRequest(api, slug, owner) => UpdateApi(t, actor, api, slug, owner)
    case DeleteApiRequest(api) => DeleteApi(t, actor, api)
    case SetAccessRequest(api, rows) => SetApiAccess(t, actor, api, rows)
    case PreregisterRequest(emailOk, enabled, upn, email, now, groups) =>
      Preregister(t, actor, emailOk, enabled, upn, email, now, groups)
    case ImportRequest(entries, groups) => ImportLDAP(t, actor, entries, groups)
  }

  /** Requests of signed-in users, and what a sign-in does on the directory's word. */
  datatype Event =
    | Requested(actor: int, request: Request)
    | Synced(user: int, provider: Provider, memberships: set<string>)
    | Created(name: string, email: string, source: Accounts.Source, externalId: string)

  ghost function Step(t: Tables, e: Event): Tables {
    match e
    case Requested(actor, request) => Handle(t, actor, request).1
    case Synced(user, p, memberships) => Sync(t, user, p, memberships)
    case Created(name, email, source, externalId) => SignInCreates(t, name, email, source, externalId)
  }

  ghost function Run(t: Tables, log: seq<Event>): Tables {
    if log == [] then t else Step(Run(t, log[..|log| - 1]), log[|log| - 1])
  }
}
