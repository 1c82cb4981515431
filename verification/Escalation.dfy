/**
 * Delegated managers never create authority beyond their own: what every request keeps,
 * and what follows for every run.
 */
module Escalation {
  import opened Strings
  import opened Rbac
  import opened Accounts
  import opened PermGraph
  import opened Granting
  import Identity
  import Portal

  // ---- Referential integrity ----

  lemma SeenSplits(scopes: seq<string>, s: string)
    requires scopes != []
    ensures Seen(scopes, s) <==> Seen(scopes[..|scopes| - 1], s) || s == Cleaned(scopes[|scopes| - 1])
  {
    var init := scopes[..|scopes| - 1];
    if i :| 0 <= i < |init| && Cleaned(init[i]) == s {
      assert Cleaned(scopes[i]) == s;
    }
    assert Cleaned(scopes[|scopes| - 1]) == Cleaned(scopes[|scopes| - 1]);
  }

  lemma {:induction false} InsertedRows(permissions: map<int, Permission>, next: int, role: int, scopes: seq<string>)
    requires forall p :: p in permissions ==> p < next
    ensures var (after, n) := InsertScopes(permissions, next, role, scopes);
      && next <= n
      && (forall p :: p in permissions ==> p in after && after[p] == permissions[p])
      && (forall p :: p in after && p !in permissions ==>
            next <= p < n && after[p].role == role && after[p].scope != "" && Seen(scopes, after[p].scope))
  {
    if scopes != [] {
      InsertedRows(permissions, next, role, scopes[..|scopes| - 1]);
      forall s {
        SeenSplits(scopes, s);
      }
    }
  }

  lemma {:induction false} InsertedScope(permissions: map<int, Permission>, next: int, role: int, scopes: seq<string>,
                                         s: string)
    requires forall p :: p in permissions ==> p < next
    requires s != "" && Seen(scopes, s)
    ensures var (after, _) := InsertScopes(permissions, next, role, scopes);
      exists p :: p in after && p !in permissions && after[p] == Permission(role, s)
  {
    var init := scopes[..|scopes| - 1];
    SeenSplits(scopes, s);
    InsertedRows(permissions, next, role, init);
    var (before, n) := InsertScopes(permissions, next, role, init);
    var (after, _) := InsertScopes(permissions, next, role, scopes);
    if Seen(init, s) {
      InsertedScope(permissions, next, role, init, s);
      var p :| p in before && p !in permissions && before[p] == Permission(role, s);
      assert p in after && after[p] == before[p];
    } else {
      assert n in after && n !in permissions && after[n] == Permission(role, s);
    }
  }

  /** A replaced role holds exactly the listed scopes. */
  lemma ReplacedScopes(t: Tables, actor: int, role: int, payload: seq<string>, scope: string)
    requires Integrity(t)
    ensures var (reply, t') := ReplaceRolePermissions(t, actor, role, payload);
      reply == Done ==> (scope in ScopesForRoles(t', {role}) <==> scope != "" && Seen(NormalizedAll(payload), scope))
  {
    var kept, scopes := WithoutRole(t.permissions, role), NormalizedAll(payload);
    InsertedRows(kept, t.nextPermission, role, scopes);
    if scope != "" && Seen(scopes, scope) {
      InsertedScope(kept, t.nextPermission, role, scopes, scope);
    }
  }

  lemma {:induction false} InsertedAccess(access: map<(int, int), Action>, api: int, rows: seq<(int, string)>)
    ensures var after := InsertAccess(access, api, rows);
      && (forall x :: x in access && x.0 != api ==> x in after && after[x] == access[x])
      && (forall x :: x in after ==>
            || (x in access && after[x] == access[x])
            || (x.0 == api && exists i :: 0 <= i < |rows| && rows[i].0 == x.1 && after[x] == LevelAction(rows[i].1)))
  {
    if rows != [] {
      var init := rows[..|rows| - 1];
      InsertedAccess(access, api, init);
      var before, after := InsertAccess(access, api, init), InsertAccess(access, api, rows);
      forall x | x in after && !(x in access && after[x] == access[x])
        ensures x.0 == api && exists i :: 0 <= i < |rows| && rows[i].0 == x.1 && after[x] == LevelAction(rows[i].1)
      {
        if x == (api, rows[|rows| - 1].0) {
          assert after[x] == LevelAction(rows[|rows| - 1].1);
        } else {
          var i :| 0 <= i < |init| && init[i].0 == x.1 && before[x] == LevelAction(init[i].1);
          assert rows[i] == init[i];
        }
      }
    }
  }

  lemma WithUsersKeepsIntegrity(t: Tables, users: Users)
    requires Integrity(t) && users.Keys <= t.users.Keys + {t.nextUser}
    ensures Integrity(WithUsers(t, users))
  {}

  lemma {:induction false} ImportedUsers(users: Users, next: int, rows: seq<(string, string)>)
    requires forall u :: u in users ==> u < next
    ensures var (after, n) := Portal.ImportRows(users, next, rows);
      && next <= n
      && (forall u :: u in after ==> u < n && (after[u].isAdmin ==> u in users && users[u].isAdmin))
      && (forall u :: u in users ==> u in after && after[u].isAdmin == users[u].isAdmin)
  {
    if rows != [] {
      ImportedUsers(users, next, rows[..|rows| - 1]);
    }
  }

  lemma {:induction false} MembersExist(t: Tables, actor: int, users: seq<int>)
    requires MembersRefusal(t, actor, users) == Done
    ensures forall u :: u in users ==> MayChange(t, actor, u) == Done
  {
    if users != [] {
      MembersExist(t, actor, users[..|users| - 1]);
      assert users == users[..|users| - 1] + [users[|users| - 1]];
    }
  }

  lemma AddMembersKeepsIntegrity(t: Tables, actor: int, group: int, users: seq<int>)
    requires Integrity(t)
    ensures Integrity(AddGroupMembers(t, actor, group, users).1)
  {
    if MembersRefusal(t, actor, users) == Done {
      MembersExist(t, actor, users);
    }
  }

  lemma ReplaceKeepsIntegrity(t: Tables, actor: int, role: int, payload: seq<string>)
    requires Integrity(t)
    ensures Integrity(ReplaceRolePermissions(t, actor, role, payload).1)
  {
    var scopes, kept := NormalizedAll(payload), WithoutRole(t.permissions, role);
    InsertedRows(kept, t.nextPermission, role, scopes);
    var (reply, t') := ReplaceRolePermissions(t, actor, role, payload);
    if reply == Done {
      forall p | p in t'.permissions && p !in kept ensures t'.permissions[p].role in t.roles {
        var i :| 0 <= i < |scopes| && Cleaned(scopes[i]) == t'.permissions[p].scope;
      }
    }
  }

  lemma AccessRowsKeepIntegrity(t: Tables, api: int, rows: seq<(int, string)>)
    requires Integrity(t) && api in t.apis && forall i :: 0 <= i < |rows| ==> rows[i].0 in t.groups
    ensures Integrity(t.(access := InsertAccess(WithoutApi(t.access, api), api, rows)))
  {
    InsertedAccess(WithoutApi(t.access, api), api, rows);
  }

  lemma SetAccessKeepsIntegrity(t: Tables, actor: int, api: int, rows: seq<(int, string)>)
    requires Integrity(t)
    ensures Integrity(SetApiAccess(t, actor, api, rows).1)
  {
    if SetApiAccess(t, actor, api, rows).0 == Done {
      AccessRowsKeepIntegrity(t, api, rows);
    }
  }

  lemma AccountKeepsIntegrity(t: Tables, actor: int, r: Accounts.Request)
    requires Integrity(t)
    ensures Integrity(Account(t, actor, r).1)
  {
    var users := Apply(t.users, actor, IsAdmin(t, actor), if r.CreateRequest? then r.(id := t.nextUser) else r).1;
    assert users.Keys <= t.users.Keys + {t.nextUser};
    WithUsersKeepsIntegrity(t, users);
  }

  lemma EnrollKeepsIntegrity(t: Tables, user: User, groups: seq<int>)
    requires Integrity(t) && forall g :: g in groups ==> g in t.groups
    ensures Integrity(Enroll(t, user, groups).1)
  {
    WithUsersKeepsIntegrity(t, Insert(t.users, t.nextUser, user).1);
  }

  lemma PreregisterAsKeepsIntegrity(t: Tables, actor: int, user: User, groups: seq<int>)
    requires Integrity(t)
    ensures Integrity(PreregisterAs(t, actor, user, groups).1)
  {
    if forall g :: g in groups ==> g in t.groups {
      EnrollKeepsIntegrity(t, user, groups);
    }
  }

  lemma PreregisterKeepsIntegrity(t: Tables, actor: int, emailOk: bool, enabled: bool, upn: string, email: string,
                                  now: nat, groups: seq<int>)
    requires Integrity(t)
    ensures Integrity(Preregister(t, actor, emailOk, enabled, upn, email, now, groups).1)
  {
    var (_, name) := Identity.PreregisteredName(t.users, emailOk, enabled, upn, email, now);
    PreregisterAsKeepsIntegrity(t, actor, Identity.PreregisteredUser(name, email), groups);
  }

  lemma ImportKeepsIntegrity(t: Tables, actor: int, rows: seq<(string, string)>, groups: seq<int>)
    requires Integrity(t)
    ensures Integrity(ImportLDAP(t, actor, rows, groups).1)
  {
    ImportedUsers(t.users, t.nextUser, rows);
    if ImportLDAP(t, actor, rows, groups).0 == Done {
      var (users, next) := Portal.ImportRows(t.users, t.nextUser, rows);
      assert forall g :: g in Elements(groups) ==> g in groups && g in t.groups;
      ImportedKeepIntegrity(t, users, next, Imported(users, IsAdmin(t, actor), rows), Elements(groups));
    }
  }

  lemma ImportedKeepIntegrity(t: Tables, users: Users, next: int, ids: set<int>, groups: set<int>)
    requires Integrity(t) && t.users.Keys <= users.Keys && ids <= users.Keys && groups <= t.groups.Keys
    requires forall u :: u in users ==> u < next
    ensures Integrity(t.(users := users, nextUser := next,
                         userGroups := t.userGroups + (set u, g | u in ids && g in groups :: (u, g))))
  {}

  lemma SetUserGroupsKeepsIntegrity(t: Tables, actor: int, target: int, groups: seq<int>)
    requires Integrity(t)
    ensures Integrity(SetUserGroups(t, actor, target, groups).1)
  {}

  lemma SetGroupRolesKeepsIntegrity(t: Tables, actor: int, group: int, roles: seq<int>)
    requires Integrity(t)
    ensures Integrity(SetGroupRoles(t, actor, group, roles).1)
  {}

  lemma CreateGroupKeepsIntegrity(t: Tables, name: string, azure: string, ldap: string)
    requires Integrity(t)
    ensures Integrity(CreateGroup(t, name, azure, ldap).1)
  {}

  lemma UpdateGroupKeepsIntegrity(t: Tables, actor: int, group: int, name: string, azure: string, ldap: string)
    requires Integrity(t)
    ensures Integrity(UpdateGroup(t, actor, group, name, azure, ldap).1)
  {}

  lemma DeleteGroupKeepsIntegrity(t: Tables, group: int)
    requires Integrity(t)
    ensures Integrity(DeleteGroup(t, group))
  {}

  lemma CreateRoleKeepsIntegrity(t: Tables, name: string)
    requires Integrity(t)
    ensures Integrity(CreateRole(t, name).1)
  {}

  lemma RenameRoleKeepsIntegrity(t: Tables, role: int, name: string)
    requires Integrity(t)
    ensures Integrity(RenameRole(t, role, name).1)
  {}

  lemma DeleteRoleKeepsIntegrity(t: Tables, role: int)
    requires Integrity(t)
    ensures Integrity(DeleteRole(t, role))
  {}

  lemma AddPermissionKeepsIntegrity(t: Tables, actor: int, role: int, scope: string)
    requires Integrity(t)
    ensures Integrity(AddNormalized(t, actor, role, scope).1)
  {}

  lemma CreateApiKeepsIntegrity(t: Tables, actor: int, slug: string, owner: Option<int>)
    requires Integrity(t)
    ensures Integrity(CreateApi(t, actor, slug, owner).1)
  {}

  lemma UpdateApiKeepsIntegrity(t: Tables, actor: int, api: int, slug: string, owner: Option<int>)
    requires Integrity(t)
    ensures Integrity(UpdateApi(t, actor, api, slug, owner).1)
  {}

  lemma DeleteApiKeepsIntegrity(t: Tables, actor: int, api: int)
    requires Integrity(t)
    ensures Integrity(DeleteApi(t, actor, api).1)
  {}

  predicate OfGroups(r: Granting.Request) {
    || r.SetUserGroupsRequest? || r.AddMembersRequest? || r.RemoveMemberRequest? || r.SetGroupRolesRequest?
    || r.CreateGroupRequest? || r.UpdateGroupRequest? || r.DeleteGroupRequest?
  }

  predicate OfRoles(r: Granting.Request) {
    r.CreateRoleRequest? || r.RenameRoleRequest? || r.DeleteRoleRequest? || OfPermissions(r)
  }

  predicate OfPermissions(r: Granting.Request) {
    r.AddPermissionRequest? || r.ReplacePermissionsRequest? || r.DeletePermissionRequest?
  }

  lemma GroupRequestsKeepIntegrity(t: Tables, actor: int, r: Granting.Request)
    requires Integrity(t) && OfGroups(r)
    ensures Integrity(Handle(t, actor, r).1)
  {
    if r.SetUserGroupsRequest? {
      SetUserGroupsKeepsIntegrity(t, actor, r.target, r.groups);
    } else if r.AddMembersRequest? {
      AddMembersKeepsIntegrity(t, actor, r.group, r.users);
    } else if r.SetGroupRolesRequest? {
      SetGroupRolesKeepsIntegrity(t, actor, r.group, r.roles);
    } else if r.CreateGroupRequest? {
      CreateGroupKeepsIntegrity(t, r.name, r.azure, r.ldap);
    } else if r.UpdateGroupRequest? {
      UpdateGroupKeepsIntegrity(t, actor, r.group, r.name, r.azure, r.ldap);
    } else if r.DeleteGroupRequest? {
      DeleteGroupKeepsIntegrity(t, r.group);
    }
  }

  lemma RoleRequestsKeepIntegrity(t: Tables, actor: int, r: Granting.Request)
    requires Integrity(t) && OfRoles(r)
    ensures Integrity(Handle(t, actor, r).1)
  {
    if r.CreateRoleRequest? {
      CreateRoleKeepsIntegrity(t, r.name);
    } else if r.RenameRoleRequest? {
      RenameRoleKeepsIntegrity(t, r.role, r.name);
    } else if r.DeleteRoleRequest? {
      DeleteRoleKeepsIntegrity(t, r.role);
    } else {
      PermissionRequestsKeepIntegrity(t, actor, r);
    }
  }

  lemma PermissionRequestsKeepIntegrity(t: Tables, actor: int, r: Granting.Request)
    requires Integrity(t) && OfPermissions(r)
    ensures Integrity(Handle(t, actor, r).1)
  {
    if r.AddPermissionRequest? {
      assert Handle(t, actor, r) == AddNormalized(t, actor, r.role, Normalize(r.scope));
      AddPermissionKeepsIntegrity(t, actor, r.role, Normalize(r.scope));
    } else if r.ReplacePermissionsRequest? {
      assert Handle(t, actor, r) == ReplaceRolePermissions(t, actor, r.role, r.scopes);
      ReplaceKeepsIntegrity(t, actor, r.role, r.scopes);
    }
  }

  lemma OtherRequestsKeepIntegrity(t: Tables, actor: int, r: Granting.Request)
    requires Integrity(t) && !OfGroups(r) && !OfRoles(r)
    ensures Integrity(Handle(t, actor, r).1)
  {
    if r.AccountRequest? {
      AccountKeepsIntegrity(t, actor, r.account);
    } else if r.CreateApiRequest? {
      CreateApiKeepsIntegrity(t, actor, r.slug, r.owner);
    } else if r.UpdateApiRequest? {
      UpdateApiKeepsIntegrity(t, actor, r.api, r.slug, r.owner);
    } else if r.DeleteApiRequest? {
      DeleteApiKeepsIntegrity(t, actor, r.api);
    } else if r.SetAccessRequest? {
      SetAccessKeepsIntegrity(t, actor, r.api, r.rows);
    } else if r.PreregisterRequest? {
      PreregisterKeepsIntegrity(t, actor, r.emailOk, r.enabled, r.upn, r.email, r.now, r.groups);
    } else {
      ImportKeepsIntegrity(t, actor, r.entries, r.groups);
    }
  }

  lemma SyncKeepsIntegrity(t: Tables, user: int, p: Provider, memberships: set<string>)
    requires Integrity(t)
    ensures Integrity(Sync(t, user, p, memberships))
  {}

  lemma StepKeepsIntegrity(t: Tables, e: Event)
    requires Integrity(t)
    ensures Integrity(Step(t, e))
  {
    match e
    case Requested(actor, r) =>
      if OfGroups(r) {
        GroupRequestsKeepIntegrity(t, actor, r);
      } else if OfRoles(r) {
        RoleRequestsKeepIntegrity(t, actor, r);
      } else {
        OtherRequestsKeepIntegrity(t, actor, r);
      }
    case Synced(user, p, memberships) => SyncKeepsIntegrity(t, user, p, memberships);
    case Created(name, email, source, externalId) =>
      WithUsersKeepsIntegrity(t, Insert(t.users, t.nextUser, User(name, email, source, true, false, externalId)).1);
  }

  /** In every reachable state the foreign keys hold, and so the three resolvers agree for every user. */
  lemma {:induction false} ReachableResolversAgree(t: Tables, log: seq<Event>, user: int)
    requires Integrity(t)
    ensures var t' := Run(t, log);
      && Integrity(t')
      && ResolvePermissions(t', user) == ScopesForGroups(t', GroupIDs(t', user))
      && ResolvePermissions(t', user) == SourceScopes(PermissionSources(t', GroupIDs(t', user)))
  {
    if log != [] {
      ReachableResolversAgree(t, log[..|log| - 1], user);
      StepKeepsIntegrity(Run(t, log[..|log| - 1]), log[|log| - 1]);
    }
    ResolversAgree(Run(t, log), user);
  }

  lemma NoGroupsNoScopes(t: Tables)
    ensures ScopesForGroups(t, {}) == {}
  {}

  // ---- One request of a delegated manager ----

  /** The group already grants the scope in some spelling. */
  ghost predicate GrantsAlike(t: Tables, group: int, scope: string) {
    exists s :: Grants(t, group, s) && Normalize(s) == Normalize(scope)
  }

  /** Everything the given scopes imply. */
  ghost function Held(hand: set<string>): iset<string> {
    iset s | Implied(hand, s)
  }

  /** What a group grants afterwards it granted before, or it is among the held scopes. */
  ghost predicate GrantsWithin(t: Tables, t': Tables, held: iset<string>) {
    forall g, s :: Grants(t', g, s) ==> GrantsAlike(t, g, s) || s in held
  }

  /** Who may newly join a group gains nothing but held scopes. */
  ghost predicate JoinsWithin(t: Tables, t': Tables, d: Directory, held: iset<string>) {
    forall v, g, s :: MayJoin(t', d, v, g) && Grants(t, g, s) ==> MayJoin(t, d, v, g) || s in held
  }

  ghost predicate Within(t: Tables, t': Tables, d: Directory, held: iset<string>) {
    GrantsWithin(t, t', held) && JoinsWithin(t, t', d, held)
  }

  lemma AllowedIsHeld(t: Tables, actor: int, scopes: set<string>)
    requires !IsAdmin(t, actor) && AllowGrant(t, actor, scopes)
    ensures forall s :: s in scopes ==> s in Held(ResolvePermissions(t, actor))
  {}

  lemma SameNormalImplied(permissions: set<string>, a: string, b: string)
    requires Normalize(a) == Normalize(b)
    ensures Implied(permissions, a) <==> Implied(permissions, b)
  {}

  lemma WithinBounds(t: Tables, t': Tables, d: Directory, held: iset<string>, user: int, scope: string)
      returns (s: string)
    requires Within(t, t', d, held) && scope in Potential(t', d, user)
    ensures Normalize(s) == Normalize(scope) && (s in held || s in Potential(t, d, user))
  {
    PotentialExact(t', d, user, scope);
    var g :| MayJoin(t', d, user, g) && Grants(t', g, scope);
    s := scope;
    if scope !in held {
      s :| Grants(t, g, s) && Normalize(s) == Normalize(scope);
      PotentialExact(t, d, user, s);
    }
  }

  /** One step within the scopes in hand adds to nobody's potential more than those scopes imply. */
  lemma WithinBoundsPotential(t: Tables, t': Tables, d: Directory, hand: set<string>, user: int, scope: string)
    requires Within(t, t', d, Held(hand)) && scope in Potential(t', d, user)
    ensures Implied(Potential(t, d, user), scope) || Implied(hand, scope)
  {
    var s := WithinBounds(t, t', d, Held(hand), user, scope);
    SameNormalImplied(hand, s, scope);
    SameNormalImplied(Potential(t, d, user), s, scope);
    HasExtensive(Potential(t, d, user));
  }

  lemma AlikeSelf(t: Tables, group: int, scope: string)
    requires Grants(t, group, scope)
    ensures GrantsAlike(t, group, scope)
  {}

  /** Every row of t' on the way from user to scope is a row of t. */
  ghost predicate Shrinks(t: Tables, t': Tables) {
    && t'.userGroups <= t.userGroups && t'.groupRoles <= t.groupRoles
    && (forall g :: g in t'.groups ==>
      g in t.groups && t'.groups[g].azure == t.groups[g].azure && t'.groups[g].ldap == t.groups[g].ldap)
    && (forall p :: p in t'.permissions ==> p in t.permissions && t'.permissions[p] == t.permissions[p])
    && (forall a :: a in t'.apis && t'.apis[a].owner.Some? ==> a in t.apis && t'.apis[a].owner == t.apis[a].owner)
    && (forall x :: x in t'.access ==> x in t.access && t'.access[x] == t.access[x])
  }

  lemma ShrinkIsWithin(t: Tables, t': Tables, d: Directory, held: iset<string>)
    requires Shrinks(t, t')
    ensures Within(t, t', d, held)
  {
    forall g, s | Grants(t', g, s) ensures GrantsAlike(t, g, s) {
      ShrinkGrants(t, t', g, s);
      AlikeSelf(t, g, s);
    }
    forall v, g | MayJoin(t', d, v, g) ensures MayJoin(t, d, v, g) {
      if (v, g) !in t'.userGroups {
        SameMapping(t.groups[g], t'.groups[g], d, v);
      }
    }
  }

  lemma SameMapping(g: Group, g': Group, d: Directory, user: int)
    requires g.azure == g'.azure && g.ldap == g'.ldap
    ensures Mapped(g, d, user) == Mapped(g', d, user)
  {
    forall p: Provider ensures g.Mapping(p) == g'.Mapping(p) {}
  }

  lemma ShrinkGrants(t: Tables, t': Tables, g: int, s: string)
    requires Shrinks(t, t') && Grants(t', g, s)
    ensures Grants(t, g, s)
  {
    if p, r :| p in t'.permissions && (g, r) in t'.groupRoles && t'.permissions[p] == Permission(r, s) {
      assert GrantsByRole(t, g, s);
    } else if a :| a in t'.apis && t'.apis[a].owner == Some(g) && s == APIScope(a, Manage) {
      assert GrantsAsOwner(t, g, s);
    } else {
      var a :| (a, g) in t'.access && s == APIScope(a, t'.access[(a, g)]);
      assert GrantsByAccess(t, g, s);
    }
  }

  lemma SameRowsSameGrants(t: Tables, t': Tables)
    requires t'.groupRoles == t.groupRoles && t'.permissions == t.permissions && t'.apis == t.apis
      && t'.access == t.access
    ensures forall g, s :: Grants(t', g, s) ==> GrantsAlike(t, g, s)
  {
    forall g, s | Grants(t', g, s) ensures GrantsAlike(t, g, s) {
      assert Grants(t, g, s);
    }
  }

  // Each lemma below takes the held scopes as given: what the check on the actor leaves to show.

  /** A step that only adds memberships of groups whose scopes are held. */
  lemma JoinIsWithin(t: Tables, t': Tables, d: Directory, held: iset<string>, groups: set<int>)
    requires t'.groupRoles == t.groupRoles && t'.permissions == t.permissions && t'.apis == t.apis
      && t'.access == t.access
    requires t'.groups == t.groups && forall v, g :: (v, g) in t'.userGroups && (v, g) !in t.userGroups ==> g in groups
    requires forall s :: s in ScopesForGroups(t, groups) ==> s in held
    ensures Within(t, t', d, held)
  {
    SameRowsSameGrants(t, t');
    forall v, g, s | MayJoin(t', d, v, g) && Grants(t, g, s) ensures MayJoin(t, d, v, g) || s in held {
      if g in groups {
        ScopesForGroupsExact(t, groups, s);
      }
    }
  }

  lemma GroupIdsExact(t: Tables, user: int, group: int)
    ensures group in GroupIDs(t, user) <==> (user, group) in t.userGroups
  {
    if group in GroupIDs(t, user) {
      var x :| x in t.userGroups && x.0 == user && x.1 == group;
      assert x == (user, group);
    }
  }

  lemma SetUserGroupsIsWithin(t: Tables, target: int, groups: seq<int>, d: Directory, held: iset<string>)
    requires forall s :: s in ScopesForGroups(t, Added(GroupIDs(t, target), groups)) ==> s in held
    ensures Within(t, t.(userGroups := WithoutFirst(t.userGroups, target) + Memberships(target, Elements(groups))),
                   d, held)
  {
    var added := Added(GroupIDs(t, target), groups);
    var t' := t.(userGroups := WithoutFirst(t.userGroups, target) + Memberships(target, Elements(groups)));
    forall v, g | (v, g) in t'.userGroups && (v, g) !in t.userGroups ensures g in added {
      GroupIdsExact(t, target, g);
    }
    JoinIsWithin(t, t', d, held, added);
  }

  lemma AddMembersIsWithin(t: Tables, group: int, users: seq<int>, d: Directory, held: iset<string>)
    requires forall s :: s in ScopesForGroups(t, {group}) ==> s in held
    ensures Within(t, t.(userGroups := t.userGroups + Members(group, Elements(users))), d, held)
  {
    JoinIsWithin(t, t.(userGroups := t.userGroups + Members(group, Elements(users))), d, held, {group});
  }

  lemma EnrollIsWithin(t: Tables, user: User, groups: seq<int>, d: Directory, held: iset<string>)
    requires forall s :: s in ScopesForGroups(t, Elements(groups)) ==> s in held
    ensures Within(t, Enroll(t, user, groups).1, d, held)
  {
    JoinIsWithin(t, Enroll(t, user, groups).1, d, held, Elements(groups));
  }

  lemma CreateGroupIsWithin(t: Tables, name: string, azure: string, ldap: string, d: Directory, held: iset<string>)
    requires Integrity(t)
    ensures Within(t, CreateGroup(t, name, azure, ldap).1, d, held)
  {
    ShrinkIsWithin(t, t, d, held);
    NewGroupIsWithin(t, Group(TrimSpace(name), TrimSpace(azure), TrimSpace(ldap)), d, held);
  }

  lemma NewGroupIsWithin(t: Tables, group: Group, d: Directory, held: iset<string>)
    requires Integrity(t)
    ensures Within(t, t.(groups := t.groups[t.nextGroup := group], nextGroup := t.nextGroup + 1), d, held)
  {
    var t' := t.(groups := t.groups[t.nextGroup := group], nextGroup := t.nextGroup + 1);
    forall v, g, s | MayJoin(t', d, v, g) && Grants(t, g, s) ensures MayJoin(t, d, v, g) {
      assert g in t.groups;
    }
    SameRowsSameGrants(t, t');
  }

  lemma UpdateGroupIsWithin(t: Tables, group: int, after: Group, d: Directory, held: iset<string>)
    requires group in t.groups
    requires (after.azure == t.groups[group].azure && after.ldap == t.groups[group].ldap)
      || forall s :: s in ScopesForGroups(t, {group}) ==> s in held
    ensures Within(t, t.(groups := t.groups[group := after]), d, held)
  {
    var t' := t.(groups := t.groups[group := after]);
    forall v, g, s | MayJoin(t', d, v, g) && Grants(t, g, s) ensures MayJoin(t, d, v, g) || s in held {
      if g == group {
        ScopesForGroupsExact(t, {group}, s);
        if after.azure == t.groups[group].azure && after.ldap == t.groups[group].ldap {
          SameMapping(t.groups[g], after, d, v);
        }
      }
    }
    SameRowsSameGrants(t, t');
  }

  /** Only what roles grant changes, and only within the held scopes. */
  lemma RoleGrantIsWithin(t: Tables, t': Tables, d: Directory, held: iset<string>)
    requires t'.userGroups == t.userGroups && t'.groups == t.groups && t'.apis == t.apis && t'.access == t.access
    requires forall g, s :: GrantsByRole(t', g, s) ==> GrantsAlike(t, g, s) || s in held
    ensures Within(t, t', d, held)
  {
    forall g, s | Grants(t', g, s) ensures GrantsAlike(t, g, s) || s in held {
      if !GrantsByRole(t', g, s) {
        assert Grants(t, g, s);
      }
    }
  }

  lemma SetGroupRolesIsWithin(t: Tables, group: int, roles: seq<int>, d: Directory, held: iset<string>)
    requires forall s :: s in ScopesForRoles(t, Added(RoleIDs(t, group), roles)) ==> s in held
    ensures Within(t, t.(groupRoles := WithoutFirst(t.groupRoles, group) + Memberships(group, Elements(roles))),
                   d, held)
  {
    var t' := t.(groupRoles := WithoutFirst(t.groupRoles, group) + Memberships(group, Elements(roles)));
    var added := Added(RoleIDs(t, group), roles);
    forall g, s | GrantsByRole(t', g, s) ensures GrantsAlike(t, g, s) || s in held {
      var p, r :| p in t'.permissions && (g, r) in t'.groupRoles && t'.permissions[p] == Permission(r, s);
      RoleIdsExact(t, g, r);
      if (g, r) in t.groupRoles {
        assert GrantsByRole(t, g, s);
        AlikeSelf(t, g, s);
      } else {
        assert r in added && s in ScopesForRoles(t, added);
      }
    }
    RoleGrantIsWithin(t, t', d, held);
  }

  lemma RoleIdsExact(t: Tables, group: int, role: int)
    ensures role in RoleIDs(t, group) <==> (group, role) in t.groupRoles
  {
    if role in RoleIDs(t, group) {
      var x :| x in t.groupRoles && x.0 == group && x.1 == role;
      assert x == (group, role);
    }
  }

  lemma LowerOfNormal(scope: string)
    ensures Lower(Normalize(scope)) == Normalize(scope) && Cleaned(Normalize(scope)) == Normalize(scope)
  {
    LowerIdempotent(TrimSpace(scope));
    NormalIsTrimmed(scope);
  }

  lemma AddPermissionIsWithin(t: Tables, id: int, role: int, scope: string, d: Directory, held: iset<string>)
    requires id !in t.permissions && scope in held
    ensures Within(t, t.(permissions := t.permissions[id := Permission(role, scope)],
                         nextPermission := t.nextPermission + 1), d, held)
  {
    var t' := t.(permissions := t.permissions[id := Permission(role, scope)], nextPermission := t.nextPermission + 1);
    forall g, s | GrantsByRole(t', g, s) ensures GrantsAlike(t, g, s) || s in held {
      var p, r :| p in t'.permissions && (g, r) in t'.groupRoles && t'.permissions[p] == Permission(r, s);
      if p != id {
        assert GrantsByRole(t, g, s);
        AlikeSelf(t, g, s);
      }
    }
    RoleGrantIsWithin(t, t', d, held);
  }

  lemma ReplaceIsWithin(t: Tables, role: int, payload: seq<string>, d: Directory, held: iset<string>)
    requires Integrity(t)
    requires forall s :: s in AddedScopes(t, role, NormalizedAll(payload)) ==> s in held
    ensures var (permissions, next) := InsertScopes(WithoutRole(t.permissions, role), t.nextPermission, role,
      NormalizedAll(payload));
      Within(t, t.(permissions := permissions, nextPermission := next), d, held)
  {
    var scopes, kept := NormalizedAll(payload), WithoutRole(t.permissions, role);
    var (permissions, next) := InsertScopes(kept, t.nextPermission, role, scopes);
    var t' := t.(permissions := permissions, nextPermission := next);
    InsertedRows(kept, t.nextPermission, role, scopes);
    forall g, s | GrantsByRole(t', g, s) ensures GrantsAlike(t, g, s) || s in held {
      var p, r :| p in t'.permissions && (g, r) in t'.groupRoles && t'.permissions[p] == Permission(r, s);
      if p !in kept {
        ReplacedScopeIsWithin(t, role, payload, g, s, held);
      } else {
        assert GrantsByRole(t, g, s);
        AlikeSelf(t, g, s);
      }
    }
    RoleGrantIsWithin(t, t', d, held);
  }

  lemma ReplacedScopeIsWithin(t: Tables, role: int, payload: seq<string>, g: int, s: string, held: iset<string>)
    requires (g, role) in t.groupRoles && Seen(NormalizedAll(payload), s)
    requires forall x :: x in AddedScopes(t, role, NormalizedAll(payload)) ==> x in held
    ensures GrantsAlike(t, g, s) || s in held
  {
    var scopes := NormalizedAll(payload);
    var i :| 0 <= i < |scopes| && Cleaned(scopes[i]) == s;
    LowerOfNormal(payload[i]);
    NormalizeIdempotent(payload[i]);
    assert s == scopes[i] && s in scopes && Normalize(s) == s;
    if s !in AddedScopes(t, role, scopes) {
      var p :| p in t.permissions && t.permissions[p].role == role && Normalize(t.permissions[p].scope) == s;
      assert t.permissions[p] == Permission(role, t.permissions[p].scope);
      assert GrantsByRole(t, g, t.permissions[p].scope);
    }
  }

  lemma OwnerIsWithin(t: Tables, api: int, after: Api, next: int, d: Directory, held: iset<string>)
    requires APIScope(api, Manage) in held || (api in t.apis && after.owner == t.apis[api].owner) || after.owner.None?
    ensures Within(t, t.(apis := t.apis[api := after], nextApi := next), d, held)
  {
    var t' := t.(apis := t.apis[api := after], nextApi := next);
    forall g, s | Grants(t', g, s) ensures GrantsAlike(t, g, s) || s in held {
      if a :| a in t'.apis && t'.apis[a].owner == Some(g) && s == APIScope(a, Manage) {
        if a != api || (a in t.apis && t.apis[a].owner == Some(g)) {
          assert GrantsAsOwner(t, g, s);
          AlikeSelf(t, g, s);
        }
      } else {
        assert Grants(t, g, s);
      }
    }
  }

  lemma SetAccessIsWithin(t: Tables, api: int, rows: seq<(int, string)>, d: Directory, held: iset<string>)
    requires APIScope(api, View) in held && APIScope(api, Invoke) in held
    ensures Within(t, t.(access := InsertAccess(WithoutApi(t.access, api), api, rows)), d, held)
  {
    var t' := t.(access := InsertAccess(WithoutApi(t.access, api), api, rows));
    InsertedAccess(WithoutApi(t.access, api), api, rows);
    forall g, s | GrantsByAccess(t', g, s) ensures GrantsAlike(t, g, s) || s in held {
      var a :| (a, g) in t'.access && s == APIScope(a, t'.access[(a, g)]);
      if (a, g) in t.access && t'.access[(a, g)] == t.access[(a, g)] {
        assert GrantsByAccess(t, g, s);
        AlikeSelf(t, g, s);
      }
    }
    AccessGrantIsWithin(t, t', d, held);
  }

  /** Only what access rows grant changes, and only within the held scopes. */
  lemma AccessGrantIsWithin(t: Tables, t': Tables, d: Directory, held: iset<string>)
    requires t'.userGroups == t.userGroups && t'.groups == t.groups && t'.apis == t.apis
    requires t'.groupRoles == t.groupRoles && t'.permissions == t.permissions
    requires forall g, s :: GrantsByAccess(t', g, s) ==> GrantsAlike(t, g, s) || s in held
    ensures Within(t, t', d, held)
  {
    forall g, s | Grants(t', g, s) ensures GrantsAlike(t, g, s) || s in held {
      if !GrantsByAccess(t', g, s) {
        assert Grants(t, g, s);
      }
    }
  }

  lemma SyncIsWithin(t: Tables, user: int, p: Provider, memberships: set<string>, d: Directory, held: iset<string>)
    requires memberships <= d(user, p)
    ensures Within(t, Sync(t, user, p, memberships), d, held)
  {
    var t' := Sync(t, user, p, memberships);
    SameRowsSameGrants(t, t');
    forall v, g | MayJoin(t', d, v, g) ensures MayJoin(t, d, v, g) {
      if (v, g) in t'.userGroups && (v, g) !in t.userGroups {
        SyncJoins(t, user, p, memberships, v, g);
        MoreMemberships(memberships, d(v, p), t.groups[g].Mapping(p));
        assert Mapped(t.groups[g], d, v);
      }
    }
  }

  lemma SyncJoins(t: Tables, user: int, p: Provider, memberships: set<string>, v: int, g: int)
    requires (v, g) in Sync(t, user, p, memberships).userGroups && (v, g) !in t.userGroups
    ensures v == user && g in DirectoryGroups(t, p, memberships)
  {}

  lemma MoreMemberships(a: set<string>, b: set<string>, mapping: string)
    requires a <= b && MemberOf(a, mapping)
    ensures MemberOf(b, mapping)
  {}

  // ---- The checks on the actor ----

  lemma StayIsWithin(t: Tables, d: Directory, held: iset<string>)
    ensures Within(t, t, d, held)
  {
    ShrinkIsWithin(t, t, d, held);
  }

  lemma UserGroupsOutcome(t: Tables, actor: int, target: int, groups: seq<int>)
    ensures var (reply, t') := SetUserGroups(t, actor, target, groups);
      if reply == Done
      then AllowGrant(t, actor, ScopesForGroups(t, Added(GroupIDs(t, target), groups)))
        && t' == t.(userGroups := WithoutFirst(t.userGroups, target) + Memberships(target, Elements(groups)))
      else t' == t
  {}

  lemma UserGroupsAreWithin(t: Tables, actor: int, target: int, groups: seq<int>, d: Directory)
    requires !IsAdmin(t, actor)
    ensures Within(t, SetUserGroups(t, actor, target, groups).1, d, Held(ResolvePermissions(t, actor)))
  {
    var held := Held(ResolvePermissions(t, actor));
    UserGroupsOutcome(t, actor, target, groups);
    if SetUserGroups(t, actor, target, groups).0 == Done {
      AllowedIsHeld(t, actor, ScopesForGroups(t, Added(GroupIDs(t, target), groups)));
      SetUserGroupsIsWithin(t, target, groups, d, held);
    } else {
      StayIsWithin(t, d, held);
    }
  }

  lemma AddMembersOutcome(t: Tables, actor: int, group: int, users: seq<int>)
    ensures var (reply, t') := AddGroupMembers(t, actor, group, users);
      if reply == Done
      then AllowGrant(t, actor, ScopesForGroups(t, {group}))
        && t' == t.(userGroups := t.userGroups + Members(group, Elements(users)))
      else t' == t
  {}

  lemma MembersAreWithin(t: Tables, actor: int, group: int, users: seq<int>, d: Directory)
    requires !IsAdmin(t, actor)
    ensures Within(t, AddGroupMembers(t, actor, group, users).1, d, Held(ResolvePermissions(t, actor)))
  {
    var held := Held(ResolvePermissions(t, actor));
    AddMembersOutcome(t, actor, group, users);
    if AddGroupMembers(t, actor, group, users).0 == Done {
      AllowedIsHeld(t, actor, ScopesForGroups(t, {group}));
      AddMembersIsWithin(t, group, users, d, held);
    } else {
      ShrinkIsWithin(t, t, d, held);
    }
  }

  lemma GroupRolesAreWithin(t: Tables, actor: int, group: int, roles: seq<int>, d: Directory)
    requires !IsAdmin(t, actor)
    ensures Within(t, SetGroupRoles(t, actor, group, roles).1, d, Held(ResolvePermissions(t, actor)))
  {
    var held := Held(ResolvePermissions(t, actor));
    if SetGroupRoles(t, actor, group, roles).0 == Done {
      AllowedIsHeld(t, actor, ScopesForRoles(t, Added(RoleIDs(t, group), roles)));
      SetGroupRolesIsWithin(t, group, roles, d, held);
    } else {
      ShrinkIsWithin(t, t, d, held);
    }
  }

  lemma ImportIsWithin(t: Tables, actor: int, rows: seq<(string, string)>, groups: seq<int>, d: Directory)
    requires !IsAdmin(t, actor)
    ensures Within(t, ImportLDAP(t, actor, rows, groups).1, d, Held(ResolvePermissions(t, actor)))
  {
    var held := Held(ResolvePermissions(t, actor));
    var (reply, t') := ImportLDAP(t, actor, rows, groups);
    if reply == Done {
      AllowedIsHeld(t, actor, ScopesForGroups(t, Elements(groups)));
      JoinIsWithin(t, t', d, held, Elements(groups));
    } else {
      ShrinkIsWithin(t, t', d, held);
    }
  }

  lemma MappingIsWithin(t: Tables, actor: int, group: int, name: string, azure: string, ldap: string, d: Directory)
    requires !IsAdmin(t, actor)
    ensures Within(t, UpdateGroup(t, actor, group, name, azure, ldap).1, d, Held(ResolvePermissions(t, actor)))
  {
    var held := Held(ResolvePermissions(t, actor));
    var after := Group(TrimSpace(name), TrimSpace(azure), TrimSpace(ldap));
    MappingOutcome(t, actor, group, name, azure, ldap);
    if UpdateGroup(t, actor, group, name, azure, ldap).0 == Done {
      if after.azure != t.groups[group].azure || after.ldap != t.groups[group].ldap {
        AllowedIsHeld(t, actor, ScopesForGroups(t, {group}));
      }
      UpdateGroupIsWithin(t, group, after, d, held);
    } else {
      StayIsWithin(t, d, held);
    }
  }

  lemma MappingOutcome(t: Tables, actor: int, group: int, name: string, azure: string, ldap: string)
    ensures var (reply, t') := UpdateGroup(t, actor, group, name, azure, ldap);
      var after := Group(TrimSpace(name), TrimSpace(azure), TrimSpace(ldap));
      if reply == Done then
        && group in t.groups && t' == t.(groups := t.groups[group := after])
        && ((after.azure == t.groups[group].azure && after.ldap == t.groups[group].ldap)
            || AllowGrant(t, actor, ScopesForGroups(t, {group})))
      else t' == t
  {}

  lemma NormalizedIsWithin(t: Tables, actor: int, role: int, scope: string, d: Directory)
    requires Integrity(t) && !IsAdmin(t, actor) && Lower(scope) == scope
    ensures Within(t, AddNormalized(t, actor, role, scope).1, d, Held(ResolvePermissions(t, actor)))
  {
    var held := Held(ResolvePermissions(t, actor));
    var (reply, t') := AddNormalized(t, actor, role, scope);
    if reply != Done {
      ShrinkIsWithin(t, t', d, held);
    } else {
      AllowedIsHeld(t, actor, {scope});
      assert scope in {scope};
      AddPermissionIsWithin(t, t.nextPermission, role, scope, d, held);
    }
  }

  lemma NewPermissionIsWithin(t: Tables, actor: int, role: int, scope: string, d: Directory)
    requires Integrity(t) && !IsAdmin(t, actor)
    ensures Within(t, AddRolePermission(t, actor, role, scope).1, d, Held(ResolvePermissions(t, actor)))
  {
    LowerOfNormal(scope);
    NormalizedIsWithin(t, actor, role, Normalize(scope), d);
  }

  lemma NewPermissionsAreWithin(t: Tables, actor: int, role: int, payload: seq<string>, d: Directory)
    requires Integrity(t) && !IsAdmin(t, actor)
    ensures Within(t, ReplaceRolePermissions(t, actor, role, payload).1, d, Held(ResolvePermissions(t, actor)))
  {
    var held := Held(ResolvePermissions(t, actor));
    var (reply, t') := ReplaceRolePermissions(t, actor, role, payload);
    if reply != Done {
      ShrinkIsWithin(t, t', d, held);
    } else {
      AllowedIsHeld(t, actor, AddedScopes(t, role, NormalizedAll(payload)));
      ReplaceIsWithin(t, role, payload, d, held);
    }
  }

  /** Who manages an API holds every scope an owner or access row of that API grants. */
  lemma ManagerHoldsApiScopes(t: Tables, actor: int, api: int, action: Action)
    requires !IsAdmin(t, actor) && 0 <= api <= MAX_INT && ActorEngine(t, actor).CanManageAPI(api)
    requires action.Manage? || action.Invoke? || action.View?
    ensures APIScope(api, action) in Held(ResolvePermissions(t, actor))
  {
    HasAPIScope(ActorEngine(t, actor), api, action);
  }

  lemma CreateApiIsWithin(t: Tables, actor: int, slug: string, owner: Option<int>, d: Directory)
    requires Integrity(t) && !IsAdmin(t, actor)
    ensures Within(t, CreateApi(t, actor, slug, owner).1, d, Held(ResolvePermissions(t, actor)))
  {
    CreateApiOutcome(t, actor, slug, owner);
    if CreateApi(t, actor, slug, owner).0 == Done {
      NewApiIsWithin(t, actor, Api(TrimSpace(slug), owner), d);
    } else {
      StayIsWithin(t, d, Held(ResolvePermissions(t, actor)));
    }
  }

  lemma NewApiIsWithin(t: Tables, actor: int, api: Api, d: Directory)
    requires Integrity(t) && !IsAdmin(t, actor) && t.nextApi <= MAX_INT
    requires api.owner.Some? ==> ActorEngine(t, actor).CanManageAPI(t.nextApi)
    ensures Within(t, t.(apis := t.apis[t.nextApi := api], nextApi := t.nextApi + 1),
                   d, Held(ResolvePermissions(t, actor)))
  {
    if api.owner.Some? {
      ManagerHoldsApiScopes(t, actor, t.nextApi, Manage);
    }
    OwnerIsWithin(t, t.nextApi, api, t.nextApi + 1, d, Held(ResolvePermissions(t, actor)));
  }

  lemma CreateApiOutcome(t: Tables, actor: int, slug: string, owner: Option<int>)
    ensures var (reply, t') := CreateApi(t, actor, slug, owner);
      if reply == Done then
        && t' == t.(apis := t.apis[t.nextApi := Api(TrimSpace(slug), owner)], nextApi := t.nextApi + 1)
        && t.nextApi <= MAX_INT && (owner.Some? ==> ActorEngine(t, actor).CanManageAPI(t.nextApi))
      else t' == t
  {}

  lemma UpdateApiIsWithin(t: Tables, actor: int, api: int, slug: string, owner: Option<int>, d: Directory)
    requires Integrity(t) && !IsAdmin(t, actor)
    ensures Within(t, UpdateApi(t, actor, api, slug, owner).1, d, Held(ResolvePermissions(t, actor)))
  {
    var held := Held(ResolvePermissions(t, actor));
    if UpdateApi(t, actor, api, slug, owner).0 == Done {
      ManagerHoldsApiScopes(t, actor, api, Manage);
      OwnerIsWithin(t, api, Api(TrimSpace(slug), owner), t.nextApi, d, held);
    } else {
      ShrinkIsWithin(t, t, d, held);
    }
  }

  lemma ApiAccessIsWithin(t: Tables, actor: int, api: int, rows: seq<(int, string)>, d: Directory)
    requires Integrity(t) && !IsAdmin(t, actor)
    ensures Within(t, SetApiAccess(t, actor, api, rows).1, d, Held(ResolvePermissions(t, actor)))
  {
    var held := Held(ResolvePermissions(t, actor));
    if SetApiAccess(t, actor, api, rows).0 == Done {
      ManagerHoldsApiScopes(t, actor, api, View);
      ManagerHoldsApiScopes(t, actor, api, Invoke);
      SetAccessIsWithin(t, api, rows, d, held);
    } else {
      ShrinkIsWithin(t, t, d, held);
    }
  }

  lemma DeleteApiIsWithin(t: Tables, actor: int, api: int, d: Directory, held: iset<string>)
    ensures Within(t, DeleteApi(t, actor, api).1, d, held)
  {
    DeleteApiShrinks(t, actor, api);
    ShrinkIsWithin(t, DeleteApi(t, actor, api).1, d, held);
  }

  lemma DeleteApiShrinks(t: Tables, actor: int, api: int)
    ensures Shrinks(t, DeleteApi(t, actor, api).1)
  {
    assert Shrinks(t, t);
    assert Shrinks(t, t.(apis := t.apis - {api}, permissions := WithoutScoped(t.permissions, api),
                         access := WithoutApi(t.access, api)));
  }

  lemma RemovalIsWithin(t: Tables, actor: int, group: int, user: int, d: Directory, held: iset<string>)
    ensures Within(t, RemoveGroupMember(t, actor, group, user).1, d, held)
  {
    ShrinkIsWithin(t, RemoveGroupMember(t, actor, group, user).1, d, held);
  }

  lemma DeleteGroupIsWithin(t: Tables, group: int, d: Directory, held: iset<string>)
    ensures Within(t, DeleteGroup(t, group), d, held)
  {
    ShrinkIsWithin(t, DeleteGroup(t, group), d, held);
  }

  lemma CreateRoleIsWithin(t: Tables, name: string, d: Directory, held: iset<string>)
    ensures Within(t, CreateRole(t, name).1, d, held)
  {
    ShrinkIsWithin(t, CreateRole(t, name).1, d, held);
  }

  lemma RenameRoleIsWithin(t: Tables, role: int, name: string, d: Directory, held: iset<string>)
    ensures Within(t, RenameRole(t, role, name).1, d, held)
  {
    ShrinkIsWithin(t, RenameRole(t, role, name).1, d, held);
  }

  lemma DeleteRoleIsWithin(t: Tables, role: int, d: Directory, held: iset<string>)
    ensures Within(t, DeleteRole(t, role), d, held)
  {
    ShrinkIsWithin(t, DeleteRole(t, role), d, held);
  }

  lemma DeletePermissionIsWithin(t: Tables, permission: int, d: Directory, held: iset<string>)
    ensures Within(t, DeletePermission(t, permission), d, held)
  {
    ShrinkIsWithin(t, DeletePermission(t, permission), d, held);
  }

  lemma AccountIsWithin(t: Tables, actor: int, r: Accounts.Request, d: Directory, held: iset<string>)
    ensures Within(t, Account(t, actor, r).1, d, held)
  {
    var (_, users) := Apply(t.users, actor, IsAdmin(t, actor), if r.CreateRequest? then r.(id := t.nextUser) else r);
    ShrinkIsWithin(t, WithUsers(t, users), d, held);
  }

  lemma PreregisterAsIsWithin(t: Tables, actor: int, user: User, groups: seq<int>, d: Directory)
    requires !IsAdmin(t, actor)
    ensures Within(t, PreregisterAs(t, actor, user, groups).1, d, Held(ResolvePermissions(t, actor)))
  {
    var held := Held(ResolvePermissions(t, actor));
    if (forall g :: g in groups ==> g in t.groups) && AllowGrant(t, actor, ScopesForGroups(t, Elements(groups))) {
      AllowedIsHeld(t, actor, ScopesForGroups(t, Elements(groups)));
      EnrollIsWithin(t, user, groups, d, held);
    } else {
      ShrinkIsWithin(t, t, d, held);
    }
  }

  lemma PreregisterIsWithin(t: Tables, actor: int, emailOk: bool, enabled: bool, upn: string, email: string, now: nat,
                            groups: seq<int>, d: Directory)
    requires !IsAdmin(t, actor)
    ensures Within(t, Preregister(t, actor, emailOk, enabled, upn, email, now, groups).1,
                   d, Held(ResolvePermissions(t, actor)))
  {
    var (reply, name) := Identity.PreregisteredName(t.users, emailOk, enabled, upn, email, now);
    PreregisterOutcome(t, actor, emailOk, enabled, upn, email, now, groups);
    if reply == Done {
      PreregisterAsIsWithin(t, actor, Identity.PreregisteredUser(name, email), groups, d);
    } else {
      StayIsWithin(t, d, Held(ResolvePermissions(t, actor)));
    }
  }

  lemma PreregisterOutcome(t: Tables, actor: int, emailOk: bool, enabled: bool, upn: string, email: string, now: nat,
                           groups: seq<int>)
    ensures var (reply, name) := Identity.PreregisteredName(t.users, emailOk, enabled, upn, email, now);
      Preregister(t, actor, emailOk, enabled, upn, email, now, groups).1
        == if reply == Done then PreregisterAs(t, actor, Identity.PreregisteredUser(name, email), groups).1 else t
  {}

  lemma GroupRequestsAreWithin(t: Tables, actor: int, r: Granting.Request, d: Directory)
    requires Integrity(t) && !IsAdmin(t, actor) && OfGroups(r)
    ensures Within(t, Handle(t, actor, r).1, d, Held(ResolvePermissions(t, actor)))
  {
    var held := Held(ResolvePermissions(t, actor));
    if r.SetUserGroupsRequest? {
      UserGroupsAreWithin(t, actor, r.target, r.groups, d);
    } else if r.AddMembersRequest? {
      MembersAreWithin(t, actor, r.group, r.users, d);
    } else if r.RemoveMemberRequest? {
      RemovalIsWithin(t, actor, r.group, r.user, d, held);
    } else if r.SetGroupRolesRequest? {
      GroupRolesAreWithin(t, actor, r.group, r.roles, d);
    } else if r.CreateGroupRequest? {
      CreateGroupIsWithin(t, r.name, r.azure, r.ldap, d, held);
    } else if r.UpdateGroupRequest? {
      MappingIsWithin(t, actor, r.group, r.name, r.azure, r.ldap, d);
    } else {
      DeleteGroupIsWithin(t, r.group, d, held);
    }
  }

  lemma RoleRequestsAreWithin(t: Tables, actor: int, r: Granting.Request, d: Directory)
    requires Integrity(t) && !IsAdmin(t, actor) && OfRoles(r)
    ensures Within(t, Handle(t, actor, r).1, d, Held(ResolvePermissions(t, actor)))
  {
    var held := Held(ResolvePermissions(t, actor));
    if r.AddPermissionRequest? {
      AddRequestIsWithin(t, actor, r, d);
    } else if r.ReplacePermissionsRequest? {
      ReplaceRequestIsWithin(t, actor, r, d);
    } else if r.DeletePermissionRequest? {
      DeletePermissionRequestIsWithin(t, actor, r, d, held);
    } else if r.CreateRoleRequest? {
      assert Handle(t, actor, r) == CreateRole(t, r.name);
      CreateRoleIsWithin(t, r.name, d, held);
    } else if r.RenameRoleRequest? {
      assert Handle(t, actor, r) == RenameRole(t, r.role, r.name);
      RenameRoleIsWithin(t, r.role, r.name, d, held);
    } else {
      assert Handle(t, actor, r).1 == DeleteRole(t, r.role);
      DeleteRoleIsWithin(t, r.role, d, held);
    }
  }

  lemma DeletePermissionRequestIsWithin(t: Tables, actor: int, r: Granting.Request, d: Directory, held: iset<string>)
    requires r.DeletePermissionRequest?
    ensures Within(t, Handle(t, actor, r).1, d, held)
  {
    DeletePermissionIsWithin(t, r.permission, d, held);
  }

  lemma AddRequestIsWithin(t: Tables, actor: int, r: Granting.Request, d: Directory)
    requires Integrity(t) && !IsAdmin(t, actor) && r.AddPermissionRequest?
    ensures Within(t, Handle(t, actor, r).1, d, Held(ResolvePermissions(t, actor)))
  {
    AddReply(t, actor, r.role, r.scope);
    NewPermissionIsWithin(t, actor, r.role, r.scope, d);
  }

  lemma ReplaceRequestIsWithin(t: Tables, actor: int, r: Granting.Request, d: Directory)
    requires Integrity(t) && !IsAdmin(t, actor) && r.ReplacePermissionsRequest?
    ensures Within(t, Handle(t, actor, r).1, d, Held(ResolvePermissions(t, actor)))
  {
    ReplaceReply(t, actor, r.role, r.scopes);
    NewPermissionsAreWithin(t, actor, r.role, r.scopes, d);
  }

  lemma AddReply(t: Tables, actor: int, role: int, scope: string)
    ensures Handle(t, actor, AddPermissionRequest(role, scope)) == AddRolePermission(t, actor, role, scope)
  {}

  lemma ReplaceReply(t: Tables, actor: int, role: int, scopes: seq<string>)
    ensures Handle(t, actor, ReplacePermissionsRequest(role, scopes)) == ReplaceRolePermissions(t, actor, role, scopes)
  {}

  lemma OtherRequestsAreWithin(t: Tables, actor: int, r: Granting.Request, d: Directory)
    requires Integrity(t) && !IsAdmin(t, actor) && !OfGroups(r) && !OfRoles(r)
    ensures Within(t, Handle(t, actor, r).1, d, Held(ResolvePermissions(t, actor)))
  {
    var held := Held(ResolvePermissions(t, actor));
    if r.AccountRequest? {
      AccountIsWithin(t, actor, r.account, d, held);
    } else if r.CreateApiRequest? {
      CreateApiIsWithin(t, actor, r.slug, r.owner, d);
    } else if r.UpdateApiRequest? {
      UpdateApiIsWithin(t, actor, r.api, r.slug, r.owner, d);
    } else if r.DeleteApiRequest? {
      DeleteApiIsWithin(t, actor, r.api, d, held);
    } else if r.SetAccessRequest? {
      ApiAccessIsWithin(t, actor, r.api, r.rows, d);
    } else if r.PreregisterRequest? {
      PreregisterIsWithin(t, actor, r.emailOk, r.enabled, r.upn, r.email, r.now, r.groups, d);
    } else {
      ImportIsWithin(t, actor, r.entries, r.groups, d);
    }
  }

  /** Whatever a delegated manager asks for, nobody gains potential beyond what the manager holds. */
  lemma HandleIsWithin(t: Tables, actor: int, r: Granting.Request, d: Directory)
    requires Integrity(t) && !IsAdmin(t, actor)
    ensures Within(t, Handle(t, actor, r).1, d, Held(ResolvePermissions(t, actor)))
  {
    if OfGroups(r) {
      GroupRequestsAreWithin(t, actor, r, d);
    } else if OfRoles(r) {
      RoleRequestsAreWithin(t, actor, r, d);
    } else {
      OtherRequestsAreWithin(t, actor, r, d);
    }
  }

  // ---- Every run ----

  /** The run is made of requests by the given actors and of sign-ins the directory vouches for. */
  ghost predicate Delegated(log: seq<Event>, actors: set<int>, d: Directory) {
    forall i :: 0 <= i < |log| ==>
      match log[i]
      case Requested(actor, _) => actor in actors
      case Synced(user, p, memberships) => memberships <= d(user, p)
      case Created(_, _, _, _) => true
  }

  ghost predicate NoAdmins(t: Tables, users: set<int>) {
    forall u :: u in users ==> !IsAdmin(t, u)
  }

  lemma OtherRequestsKeepUsers(t: Tables, actor: int, r: Granting.Request)
    requires !r.AccountRequest? && !r.ImportRequest? && !r.PreregisterRequest?
    ensures Handle(t, actor, r).1.users == t.users
  {
    if OfGroups(r) {
      GroupRequestsKeepUsers(t, actor, r);
    }
  }

  lemma GroupRequestsKeepUsers(t: Tables, actor: int, r: Granting.Request)
    requires OfGroups(r)
    ensures Handle(t, actor, r).1.users == t.users
  {}

  lemma PreregisterMakesNoAdmins(t: Tables, actor: int, emailOk: bool, enabled: bool, upn: string, email: string,
                                 now: nat, groups: seq<int>, user: int)
    ensures IsAdmin(Preregister(t, actor, emailOk, enabled, upn, email, now, groups).1, user) ==> IsAdmin(t, user)
  {
    var (_, name) := Identity.PreregisteredName(t.users, emailOk, enabled, upn, email, now);
    assert IsAdmin(Enroll(t, Identity.PreregisteredUser(name, email), groups).1, user) ==> IsAdmin(t, user);
  }

  lemma HandleMakesNoAdmins(t: Tables, actor: int, r: Granting.Request, user: int)
    requires !IsAdmin(t, actor)
    ensures IsAdmin(Handle(t, actor, r).1, user) ==> IsAdmin(t, user)
  {
    match r
    case AccountRequest(account) =>
      OnlyAdminsChangeAdmins(t.users, actor,
                             if account.CreateRequest? then account.(id := t.nextUser) else account, user);
    case ImportRequest(entries, groups) => ImportMakesNoAdmins(t.users, t.nextUser, entries, user);
    case PreregisterRequest(emailOk, enabled, upn, email, now, groups) =>
      PreregisterMakesNoAdmins(t, actor, emailOk, enabled, upn, email, now, groups, user);
    case _ => OtherRequestsKeepUsers(t, actor, r);
  }

  lemma {:induction false} ImportMakesNoAdmins(users: Users, next: int, rows: seq<(string, string)>, user: int)
    ensures var after := Portal.ImportRows(users, next, rows).0;
      user in after && after[user].isAdmin ==> user in users && users[user].isAdmin
  {
    if rows != [] {
      ImportMakesNoAdmins(users, next, rows[..|rows| - 1], user);
    }
  }

  lemma {:induction false} NobodyBecomesAdmin(t: Tables, actors: set<int>, d: Directory, log: seq<Event>, user: int)
    requires NoAdmins(t, actors) && Delegated(log, actors, d)
    ensures IsAdmin(Run(t, log), user) ==> IsAdmin(t, user)
  {
    if log != [] {
      var init, last := log[..|log| - 1], log[|log| - 1];
      NobodyBecomesAdmin(t, actors, d, init, user);
      if last.Requested? {
        NobodyBecomesAdmin(t, actors, d, init, last.actor);
        HandleMakesNoAdmins(Run(t, init), last.actor, last.request, user);
      }
    }
  }

  ghost function Pool(t: Tables, d: Directory, actors: set<int>): set<string> {
    set c, s | c in actors && s in Potential(t, d, c) :: s
  }

  /** The initial potential of a user and of all the actors together. */
  ghost function Budget(t: Tables, d: Directory, actors: set<int>, user: int): set<string> {
    Potential(t, d, user) + Pool(t, d, actors)
  }

  lemma StepStaysWithinBudget(t: Tables, t': Tables, d: Directory, user: int, hand: set<string>,
                              own: set<string>, handBudget: set<string>)
    requires Within(t, t', d, Held(hand))
    requires ImpliesAll(own, Potential(t, d, user))
    requires ImpliesAll(handBudget, hand) && handBudget <= own
    ensures ImpliesAll(own, Potential(t', d, user))
  {
    forall s | s in Potential(t', d, user) ensures Implied(own, s) {
      WithinBoundsPotential(t, t', d, hand, user, s);
      if Implied(Potential(t, d, user), s) {
        HasIdempotent(own, Potential(t, d, user), s);
      } else {
        HasIdempotent(handBudget, hand, s);
        HasMonotone(handBudget, own, s);
      }
    }
  }

  lemma {:induction false} PotentialStaysWithinBudget(t: Tables, actors: set<int>, d: Directory, log: seq<Event>,
                                                      user: int)
    requires Integrity(t) && NoAdmins(t, actors) && Delegated(log, actors, d)
    ensures ImpliesAll(Budget(t, d, actors, user), Potential(Run(t, log), d, user))
    decreases |log|
  {
    var budget := Budget(t, d, actors, user);
    if log == [] {
      forall s | s in Potential(t, d, user) ensures Implied(budget, s) {
        HasExtensive(budget);
      }
    } else {
      var init, last := log[..|log| - 1], log[|log| - 1];
      var q := Run(t, init);
      PotentialStaysWithinBudget(t, actors, d, init, user);
      ReachableResolversAgree(t, init, user);
      match last {
        case Requested(actor, r) =>
          NobodyBecomesAdmin(t, actors, d, init, actor);
          PotentialStaysWithinBudget(t, actors, d, init, actor);
          ResolvedIsPotential(q, d, actor);
          HandleIsWithin(q, actor, r, d);
          StepStaysWithinBudget(q, Handle(q, actor, r).1, d, user, ResolvePermissions(q, actor), budget,
            Budget(t, d, actors, actor));
        case Synced(u, p, memberships) =>
          SyncIsWithin(q, u, p, memberships, d, Held({}));
          StepStaysWithinBudget(q, Sync(q, u, p, memberships), d, user, {}, budget, {});
        case Created(name, email, source, externalId) =>
          var t' := SignInCreates(q, name, email, source, externalId);
          ShrinkIsWithin(q, t', d, Held({}));
          StepStaysWithinBudget(q, t', d, user, {}, budget, {});
      }
    }
  }

  /**
   * No escalation: in any run of requests by non-administrators, mixed with sign-ins, every scope a
   * user ever holds or could get by signing in was implied at the start by what that user or one of
   * the acting users held or could get; and nobody becomes an administrator.
   */
  lemma NoEscalation(t: Tables, actors: set<int>, d: Directory, log: seq<Event>, user: int, scope: string)
    requires Integrity(t) && NoAdmins(t, actors) && Delegated(log, actors, d)
    ensures var t' := Run(t, log);
      && (IsAdmin(t', user) ==> IsAdmin(t, user))
      && (Implied(Potential(t', d, user), scope) ==>
            Implied(Potential(t, d, user), scope) || exists c :: c in actors && Implied(Potential(t, d, c), scope))
      && (!IsAdmin(t', user) && ActorEngine(t', user).Has(scope) ==> Implied(Potential(t', d, user), scope))
  {
    var t' := Run(t, log);
    NobodyBecomesAdmin(t, actors, d, log, user);
    if Implied(Potential(t', d, user), scope) {
      PotentialStaysWithinBudget(t, actors, d, log, user);
      HasIdempotent(Budget(t, d, actors, user), Potential(t', d, user), scope);
      HasDistributes(Potential(t, d, user), Pool(t, d, actors), scope);
      if Implied(Pool(t, d, actors), scope) {
        PoolImplies(t, d, actors, scope);
      }
    }
    if !IsAdmin(t', user) && ActorEngine(t', user).Has(scope) {
      ResolvedIsPotential(t', d, user);
      HasMonotone(ResolvePermissions(t', user), Potential(t', d, user), scope);
    }
  }

  lemma NothingHasNothing(s: string, parsed: Option<ApiRef>)
    ensures !Engine(false, {}).HasNormalized(s, parsed)
  {}

  lemma NothingImpliesNothing(scope: string)
    ensures !Implied({}, scope)
  {
    assert Normalized({}) == {};
    NothingHasNothing(Normalize(scope), ParseAPIScope(Normalize(scope)));
  }

  lemma PoolSplits(t: Tables, d: Directory, actors: set<int>, c: int)
    requires c in actors
    ensures Pool(t, d, actors) == Potential(t, d, c) + Pool(t, d, actors - {c})
    ensures Pool(t, d, {}) == {}
  {}

  lemma {:induction false} PoolImplies(t: Tables, d: Directory, actors: set<int>, scope: string)
    requires Implied(Pool(t, d, actors), scope)
    ensures exists c :: c in actors && Implied(Potential(t, d, c), scope)
    decreases actors
  {
    PoolSplits(t, d, {0}, 0);
    NothingImpliesNothing(scope);
    if actors != {} {
      ghost var c := Element(actors);
      var rest := actors - {c};
      PoolSplits(t, d, actors, c);
      HasDistributes(Potential(t, d, c), Pool(t, d, rest), scope);
      if Implied(Pool(t, d, rest), scope) {
        PoolImplies(t, d, rest, scope);
      }
    }
  }
}
