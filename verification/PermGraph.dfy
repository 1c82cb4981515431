/**
 * Who may do what: the relations between users, groups, roles, APIs and scopes, and the three
 * queries that resolve them (backend/internal/store/roles.go, admin.go, groups.go, apis.go).
 *
 * Tables are sets and maps with the foreign keys of backend/internal/db/db.go.
 */
module PermGraph {
  import opened Strings
  import opened Rbac
  import opened Accounts

  datatype Provider = AzureDirectory | LdapDirectory

  /** azure and ldap name the directory groups a group is mapped to; "" when it is not. */
  datatype Group = Group(name: string, azure: string, ldap: string) {
    function Mapping(p: Provider): string {
      match p
      case AzureDirectory => azure
      case LdapDirectory => ldap
    }
  }

  datatype Api = Api(slug: string, owner: Option<int>)

  datatype Permission = Permission(role: int, scope: string)

  /** userGroups holds (user, group), groupRoles (group, role), access (api, group); row ids are never reused. */
  datatype Tables = Tables(
    users: Users, groups: map<int, Group>, roles: map<int, string>, apis: map<int, Api>,
    userGroups: set<(int, int)>, groupRoles: set<(int, int)>,
    permissions: map<int, Permission>, access: map<(int, int), Action>,
    nextUser: int, nextGroup: int, nextRole: int, nextApi: int, nextPermission: int)

  predicate IsAdmin(t: Tables, user: int) {
    user in t.users && t.users[user].isAdmin
  }

  /** What the foreign keys, the level check and the row counters keep. */
  ghost predicate Integrity(t: Tables) {
    && (forall x :: x in t.userGroups ==> x.0 in t.users && x.1 in t.groups)
    && (forall x :: x in t.groupRoles ==> x.0 in t.groups && x.1 in t.roles)
    && (forall p :: p in t.permissions ==> t.permissions[p].role in t.roles && p < t.nextPermission)
    && (forall a :: a in t.apis ==> 0 < a < t.nextApi && (t.apis[a].owner.Some? ==> t.apis[a].owner.value in t.groups))
    && (forall x :: x in t.access ==> x.0 in t.apis && x.1 in t.groups && (t.access[x].View? || t.access[x].Invoke?))
    && (forall u :: u in t.users ==> u < t.nextUser)
    && (forall g :: g in t.groups ==> g < t.nextGroup)
    && (forall r :: r in t.roles ==> r < t.nextRole)
    && 0 < t.nextApi <= MAX_INT + 1
  }

  // ---- The three resolvers ----

  function GroupIDs(t: Tables, user: int): set<int> {
    set x | x in t.userGroups && x.0 == user :: x.1
  }

  function RoleIDs(t: Tables, group: int): set<int> {
    set x | x in t.groupRoles && x.0 == group :: x.1
  }

  /** The scopes of one user, joined through user_groups. */
  function ResolvePermissions(t: Tables, user: int): set<string> {
    UserRoleScopes(t, user) + UserOwnerScopes(t, user) + UserAccessScopes(t, user)
  }

  function UserRoleScopes(t: Tables, user: int): set<string> {
    set p, gr, ug | p in t.permissions && gr in t.groupRoles && ug in t.userGroups
      && gr.1 == t.permissions[p].role && ug.1 == gr.0 && ug.0 == user :: t.permissions[p].scope
  }

  function UserOwnerScopes(t: Tables, user: int): set<string> {
    set a, ug | a in t.apis && ug in t.userGroups && t.apis[a].owner == Some(ug.1) && ug.0 == user
      :: APIScope(a, Manage)
  }

  function UserAccessScopes(t: Tables, user: int): set<string> {
    set x, ug | x in t.access && ug in t.userGroups && ug.1 == x.1 && ug.0 == user :: APIScope(x.0, t.access[x])
  }

  /** What membership in these groups is worth, by roles, ownership and API access. */
  function ScopesForGroups(t: Tables, groups: set<int>): set<string> {
    (set p, gr | p in t.permissions && gr in t.groupRoles && gr.1 == t.permissions[p].role && gr.0 in groups
      :: t.permissions[p].scope)
    + (set a | a in t.apis && t.apis[a].owner.Some? && t.apis[a].owner.value in groups :: APIScope(a, Manage))
    + (set x | x in t.access && x.1 in groups :: APIScope(x.0, t.access[x]))
  }

  function ScopesForRoles(t: Tables, roles: set<int>): set<string> {
    set p | p in t.permissions && t.permissions[p].role in roles :: t.permissions[p].scope
  }

  datatype Via = ViaRole(role: int) | ViaOwner | ViaAccess

  datatype Source = Source(scope: string, via: Via, group: int)

  /** Scopes with where they come from; unlike the queries above, these join the groups and roles tables too. */
  function PermissionSources(t: Tables, groups: set<int>): set<Source> {
    RoleSources(t, groups) + OwnerSources(t, groups) + AccessSources(t, groups)
  }

  function RoleSources(t: Tables, groups: set<int>): set<Source> {
    set p, gr | p in t.permissions && gr in t.groupRoles && t.permissions[p].role in t.roles
      && gr.1 == t.permissions[p].role
      && gr.0 in t.groups && gr.0 in groups :: Source(t.permissions[p].scope, ViaRole(gr.1), gr.0)
  }

  function OwnerSources(t: Tables, groups: set<int>): set<Source> {
    set a, g | a in t.apis && g in t.groups && t.apis[a].owner == Some(g) && g in groups
      :: Source(APIScope(a, Manage), ViaOwner, g)
  }

  function AccessSources(t: Tables, groups: set<int>): set<Source> {
    set x | x in t.access && x.1 in t.groups && x.1 in groups :: Source(APIScope(x.0, t.access[x]), ViaAccess, x.1)
  }

  function SourceScopes(sources: set<Source>): set<string> {
    set s | s in sources :: s.scope
  }

  // ---- What a group grants ----

  ghost predicate GrantsByRole(t: Tables, group: int, scope: string) {
    exists p, r :: p in t.permissions && (group, r) in t.groupRoles && t.permissions[p] == Permission(r, scope)
  }

  ghost predicate GrantsAsOwner(t: Tables, group: int, scope: string) {
    exists a :: a in t.apis && t.apis[a].owner == Some(group) && scope == APIScope(a, Manage)
  }

  ghost predicate GrantsByAccess(t: Tables, group: int, scope: string) {
    exists a :: (a, group) in t.access && scope == APIScope(a, t.access[(a, group)])
  }

  ghost predicate Grants(t: Tables, group: int, scope: string) {
    GrantsByRole(t, group, scope) || GrantsAsOwner(t, group, scope) || GrantsByAccess(t, group, scope)
  }

  lemma ScopesForGroupsExact(t: Tables, groups: set<int>, scope: string)
    ensures scope in ScopesForGroups(t, groups) <==> exists g :: g in groups && Grants(t, g, scope)
  {
    if scope in ScopesForGroups(t, groups) {
      if p, gr :| p in t.permissions && gr in t.groupRoles && gr.1 == t.permissions[p].role && gr.0 in groups &&
                  t.permissions[p].scope == scope {
        assert (gr.0, gr.1) in t.groupRoles && t.permissions[p] == Permission(gr.1, scope);
        assert Grants(t, gr.0, scope);
      } else if a :| a in t.apis && t.apis[a].owner.Some? && t.apis[a].owner.value in groups &&
                     APIScope(a, Manage) == scope {
        assert Grants(t, t.apis[a].owner.value, scope);
      } else {
        var x :| x in t.access && x.1 in groups && APIScope(x.0, t.access[x]) == scope;
        assert (x.0, x.1) in t.access;
        assert Grants(t, x.1, scope);
      }
    }
  }

  /** Resolving a user is resolving the groups the user is in. */
  lemma ResolveIsByGroups(t: Tables, user: int)
    ensures ResolvePermissions(t, user) == ScopesForGroups(t, GroupIDs(t, user))
  {
    forall scope ensures scope in ResolvePermissions(t, user) <==> scope in ScopesForGroups(t, GroupIDs(t, user)) {
      ScopesForGroupsExact(t, GroupIDs(t, user), scope);
      ResolveExact(t, user, scope);
      forall g ensures g in GroupIDs(t, user) <==> (user, g) in t.userGroups {
        if g in GroupIDs(t, user) {
          var x :| x in t.userGroups && x.0 == user && x.1 == g;
          assert x == (user, g);
        }
      }
    }
  }

  lemma UserRoleScopesExact(t: Tables, user: int, scope: string)
    ensures scope in UserRoleScopes(t, user) <==> exists g :: (user, g) in t.userGroups && GrantsByRole(t, g, scope)
  {
    if scope in UserRoleScopes(t, user) {
      var p, gr, ug :| p in t.permissions && gr in t.groupRoles && ug in t.userGroups && gr.1 == t.permissions[p].role
        && ug.1 == gr.0 && ug.0 == user && t.permissions[p].scope == scope;
      assert (gr.0, gr.1) in t.groupRoles && t.permissions[p] == Permission(gr.1, scope);
      assert (user, gr.0) == ug && GrantsByRole(t, gr.0, scope);
    }
    if g :| (user, g) in t.userGroups && GrantsByRole(t, g, scope) {
      var p, r :| p in t.permissions && (g, r) in t.groupRoles && t.permissions[p] == Permission(r, scope);
      var gr, ug := (g, r), (user, g);
      assert gr in t.groupRoles && ug in t.userGroups;
    }
  }

  lemma UserOwnerScopesExact(t: Tables, user: int, scope: string)
    ensures scope in UserOwnerScopes(t, user) <==> exists g :: (user, g) in t.userGroups && GrantsAsOwner(t, g, scope)
  {
    if scope in UserOwnerScopes(t, user) {
      var a, ug :| a in t.apis && ug in t.userGroups && t.apis[a].owner == Some(ug.1) && ug.0 == user
        && APIScope(a, Manage) == scope;
      assert (user, ug.1) == ug && GrantsAsOwner(t, ug.1, scope);
    }
    if g :| (user, g) in t.userGroups && GrantsAsOwner(t, g, scope) {
      var ug := (user, g);
      assert ug in t.userGroups;
    }
  }

  lemma UserAccessScopesExact(t: Tables, user: int, scope: string)
    ensures scope in UserAccessScopes(t, user) <==> exists g :: (user, g) in t.userGroups && GrantsByAccess(t, g, scope)
  {
    if scope in UserAccessScopes(t, user) {
      var x, ug :| x in t.access && ug in t.userGroups && ug.1 == x.1 && ug.0 == user
        && APIScope(x.0, t.access[x]) == scope;
      assert (x.0, x.1) in t.access && (user, x.1) == ug && GrantsByAccess(t, x.1, scope);
    }
    if g :| (user, g) in t.userGroups && GrantsByAccess(t, g, scope) {
      var a :| (a, g) in t.access && scope == APIScope(a, t.access[(a, g)]);
      var x, ug := (a, g), (user, g);
      assert x in t.access && ug in t.userGroups;
    }
  }

  lemma ResolveExact(t: Tables, user: int, scope: string)
    ensures scope in ResolvePermissions(t, user) <==> exists g :: (user, g) in t.userGroups && Grants(t, g, scope)
  {
    UserRoleScopesExact(t, user, scope);
    UserOwnerScopesExact(t, user, scope);
    UserAccessScopesExact(t, user, scope);
  }

  lemma RoleSourcesExact(t: Tables, groups: set<int>, scope: string)
    requires Integrity(t)
    ensures scope in SourceScopes(RoleSources(t, groups)) <==> exists g :: g in groups && GrantsByRole(t, g, scope)
  {
    if scope in SourceScopes(RoleSources(t, groups)) {
      var s :| s in RoleSources(t, groups) && s.scope == scope;
      var p, gr :| p in t.permissions && gr in t.groupRoles && gr.1 == t.permissions[p].role && gr.0 in groups
        && s == Source(t.permissions[p].scope, ViaRole(gr.1), gr.0);
      assert (gr.0, gr.1) in t.groupRoles && t.permissions[p] == Permission(gr.1, scope);
      assert GrantsByRole(t, gr.0, scope);
    }
    if g :| g in groups && GrantsByRole(t, g, scope) {
      var p, r :| p in t.permissions && (g, r) in t.groupRoles && t.permissions[p] == Permission(r, scope);
      var gr := (g, r);
      assert gr in t.groupRoles && Source(scope, ViaRole(r), g) in RoleSources(t, groups);
    }
  }

  lemma OwnerSourcesExact(t: Tables, groups: set<int>, scope: string)
    requires Integrity(t)
    ensures scope in SourceScopes(OwnerSources(t, groups)) <==> exists g :: g in groups && GrantsAsOwner(t, g, scope)
  {
    if g :| g in groups && GrantsAsOwner(t, g, scope) {
      assert Source(scope, ViaOwner, g) in OwnerSources(t, groups);
    }
  }

  lemma AccessSourcesExact(t: Tables, groups: set<int>, scope: string)
    requires Integrity(t)
    ensures scope in SourceScopes(AccessSources(t, groups)) <==> exists g :: g in groups && GrantsByAccess(t, g, scope)
  {
    if scope in SourceScopes(AccessSources(t, groups)) {
      var s :| s in AccessSources(t, groups) && s.scope == scope;
      var x :| x in t.access && x.1 in groups && s == Source(APIScope(x.0, t.access[x]), ViaAccess, x.1);
      assert (x.0, x.1) in t.access && GrantsByAccess(t, x.1, scope);
    }
    if g :| g in groups && GrantsByAccess(t, g, scope) {
      var a :| (a, g) in t.access && scope == APIScope(a, t.access[(a, g)]);
      var x := (a, g);
      assert x in t.access && Source(scope, ViaAccess, g) in AccessSources(t, groups);
    }
  }

  lemma SourcesExact(t: Tables, groups: set<int>, scope: string)
    requires Integrity(t)
    ensures scope in SourceScopes(PermissionSources(t, groups)) <==> exists g :: g in groups && Grants(t, g, scope)
  {
    RoleSourcesExact(t, groups, scope);
    OwnerSourcesExact(t, groups, scope);
    AccessSourcesExact(t, groups, scope);
    assert SourceScopes(PermissionSources(t, groups)) ==
      SourceScopes(RoleSources(t, groups)) + SourceScopes(OwnerSources(t, groups))
        + SourceScopes(AccessSources(t, groups));
  }

  /** While the foreign keys hold, the three resolvers give the same scopes. */
  lemma ResolversAgree(t: Tables, user: int)
    requires Integrity(t)
    ensures ResolvePermissions(t, user) == ScopesForGroups(t, GroupIDs(t, user))
    ensures ResolvePermissions(t, user) == SourceScopes(PermissionSources(t, GroupIDs(t, user)))
  {
    ResolveIsByGroups(t, user);
    SourcesAgree(t, GroupIDs(t, user));
  }

  lemma SourcesAgree(t: Tables, groups: set<int>)
    requires Integrity(t)
    ensures ScopesForGroups(t, groups) == SourceScopes(PermissionSources(t, groups))
  {
    forall scope ensures scope in ScopesForGroups(t, groups) <==> scope in SourceScopes(PermissionSources(t, groups)) {
      ScopesForGroupsExact(t, groups, scope);
      SourcesExact(t, groups, scope);
    }
  }

  // ---- Potential permissions ----

  /** The directory groups of an account at a provider. */
  type Directory = (int, Provider) -> set<string>

  predicate SameName(a: string, b: string) {
    Lower(TrimSpace(a)) == Lower(TrimSpace(b))
  }

  ghost predicate MemberOf(memberships: set<string>, mapping: string) {
    exists m :: m in memberships && SameName(m, mapping)
  }

  /** group is mapped to a directory group the user belongs to. */
  ghost predicate Mapped(g: Group, d: Directory, user: int) {
    exists p: Provider :: g.Mapping(p) != "" && MemberOf(d(user, p), g.Mapping(p))
  }

  /** The user is in the group or would join it at a sign-in. */
  ghost predicate MayJoin(t: Tables, d: Directory, user: int, group: int) {
    (user, group) in t.userGroups || (group in t.groups && Mapped(t.groups[group], d, user))
  }

  ghost function JoinableGroups(t: Tables, d: Directory, user: int): set<int> {
    GroupIDs(t, user) + set g | g in t.groups && Mapped(t.groups[g], d, user)
  }

  /** The scopes of every group the user is in or would join at a sign-in. */
  ghost function Potential(t: Tables, d: Directory, user: int): set<string> {
    ScopesForGroups(t, JoinableGroups(t, d, user))
  }

  lemma PotentialExact(t: Tables, d: Directory, user: int, scope: string)
    ensures scope in Potential(t, d, user) <==> exists g :: MayJoin(t, d, user, g) && Grants(t, g, scope)
  {
    ScopesForGroupsExact(t, JoinableGroups(t, d, user), scope);
    forall g ensures g in JoinableGroups(t, d, user) <==> MayJoin(t, d, user, g) {
      if g in GroupIDs(t, user) {
        var x :| x in t.userGroups && x.0 == user && x.1 == g;
        assert x == (user, g);
      }
    }
  }

  lemma ResolvedIsPotential(t: Tables, d: Directory, user: int)
    ensures ResolvePermissions(t, user) <= Potential(t, d, user)
  {
    forall scope | scope in ResolvePermissions(t, user) ensures scope in Potential(t, d, user) {
      ResolveExact(t, user, scope);
      PotentialExact(t, d, user, scope);
      var g :| (user, g) in t.userGroups && Grants(t, g, scope);
      assert MayJoin(t, d, user, g);
    }
  }
}
