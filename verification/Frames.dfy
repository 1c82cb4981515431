/** What a request on the permission graph leaves as it was. */
module Frames {
  import opened Strings
  import opened Rbac
  import opened Accounts
  import opened PermGraph
  import opened Granting
  import Escalation

  /** A refused request changes nothing. */
  ghost predicate NothingWhenRefused(t: Tables, result: (Reply, Tables)) {
    result.0 != Done ==> result.1 == t
  }

  /** Changes to a user's memberships, by request or at a sign-in, touch memberships only. */
  lemma UserGroupsFrame(t: Tables, actor: int, target: int, groups: seq<int>)
    ensures var r := SetUserGroups(t, actor, target, groups);
      NothingWhenRefused(t, r) && r.1 == t.(userGroups := r.1.userGroups)
  {
    Escalation.UserGroupsOutcome(t, actor, target, groups);
  }

  lemma AddMembersFrame(t: Tables, actor: int, group: int, users: seq<int>)
    ensures var r := AddGroupMembers(t, actor, group, users);
      NothingWhenRefused(t, r) && r.1 == t.(userGroups := r.1.userGroups)
  {
    Escalation.AddMembersOutcome(t, actor, group, users);
  }

  lemma RemoveMemberFrame(t: Tables, actor: int, group: int, user: int)
    ensures var r := RemoveGroupMember(t, actor, group, user);
      NothingWhenRefused(t, r) && r.1 == t.(userGroups := r.1.userGroups)
  {}

  lemma SyncFrame(t: Tables, user: int, p: Provider, memberships: set<string>)
    ensures Sync(t, user, p, memberships) == t.(userGroups := Sync(t, user, p, memberships).userGroups)
  {}

  lemma GroupRolesFrame(t: Tables, actor: int, group: int, roles: seq<int>)
    ensures var r := SetGroupRoles(t, actor, group, roles);
      NothingWhenRefused(t, r) && r.1 == t.(groupRoles := r.1.groupRoles)
  {}

  /** Deleting a group keeps every other group with its roles and accesses, and every API under its slug. */
  lemma DeleteGroupFrame(t: Tables, group: int, other: int)
    requires other != group
    ensures var t' := DeleteGroup(t, group);
      && t' == t.(groups := t.groups - {group}, userGroups := t'.userGroups, groupRoles := t'.groupRoles,
                  apis := t'.apis, access := t'.access)
      && RoleIDs(t', other) == RoleIDs(t, other)
      && (forall a :: (a, other) in t'.access <==> (a, other) in t.access)
      && (forall a :: (a, other) in t'.access ==> t'.access[(a, other)] == t.access[(a, other)])
      && t'.apis.Keys == t.apis.Keys
      && (forall a :: a in t.apis ==> t'.apis[a].slug == t.apis[a].slug)
      && (forall a :: a in t.apis && t.apis[a].owner != Some(group) ==> t'.apis[a] == t.apis[a])
  {
    var t' := DeleteGroup(t, group);
    forall r ensures r in RoleIDs(t', other) <==> r in RoleIDs(t, other) {
      Escalation.RoleIdsExact(t, other, r);
      Escalation.RoleIdsExact(t', other, r);
    }
  }

  lemma DeleteRoleFrame(t: Tables, role: int)
    ensures var t' := DeleteRole(t, role);
      t' == t.(roles := t.roles - {role}, groupRoles := t'.groupRoles, permissions := t'.permissions)
  {}

  /** Changing one role's scopes keeps those of every other role. */
  lemma PermissionsFrame(t: Tables, actor: int, role: int, scope: string, payload: seq<string>, other: int)
    requires Integrity(t) && other != role
    ensures var r := AddRolePermission(t, actor, role, scope);
      NothingWhenRefused(t, r) && r.1 == t.(permissions := r.1.permissions, nextPermission := r.1.nextPermission)
    ensures var r := ReplaceRolePermissions(t, actor, role, payload);
      && NothingWhenRefused(t, r) && r.1 == t.(permissions := r.1.permissions, nextPermission := r.1.nextPermission)
      && ScopesForRoles(r.1, {other}) == ScopesForRoles(t, {other})
  {
    AddFrame(t, actor, role, Normalize(scope));
    ReplaceFrame(t, actor, role, payload);
    ReplaceKeepsOthers(t, actor, role, payload, other);
  }

  lemma AddFrame(t: Tables, actor: int, role: int, scope: string)
    ensures var r := AddNormalized(t, actor, role, scope);
      NothingWhenRefused(t, r) && r.1 == t.(permissions := r.1.permissions, nextPermission := r.1.nextPermission)
  {}

  lemma ReplaceFrame(t: Tables, actor: int, role: int, payload: seq<string>)
    ensures var r := ReplaceRolePermissions(t, actor, role, payload);
      NothingWhenRefused(t, r) && r.1 == t.(permissions := r.1.permissions, nextPermission := r.1.nextPermission)
  {}

  lemma ReplaceKeepsOthers(t: Tables, actor: int, role: int, payload: seq<string>, other: int)
    requires Integrity(t) && other != role
    ensures ScopesForRoles(ReplaceRolePermissions(t, actor, role, payload).1, {other}) == ScopesForRoles(t, {other})
  {
    var (reply, t') := ReplaceRolePermissions(t, actor, role, payload);
    if reply == Done {
      var kept := WithoutRole(t.permissions, role);
      Escalation.InsertedRows(kept, t.nextPermission, role, NormalizedAll(payload));
      OtherRoleScopes(t, t', kept, role, other);
    }
  }

  lemma OtherRoleScopes(t: Tables, t': Tables, kept: map<int, Permission>, role: int, other: int)
    requires other != role && kept == WithoutRole(t.permissions, role)
    requires forall p :: p in kept ==> p in t'.permissions && t'.permissions[p] == kept[p]
    requires forall p :: p in t'.permissions && p !in kept ==> t'.permissions[p].role == role
    ensures ScopesForRoles(t', {other}) == ScopesForRoles(t, {other})
  {
    forall s ensures s in ScopesForRoles(t', {other}) <==> s in ScopesForRoles(t, {other}) {
      if p :| p in t.permissions && t.permissions[p].role in {other} && t.permissions[p].scope == s {
        assert p in kept && p in t'.permissions && t'.permissions[p] == t.permissions[p];
      }
      if p :| p in t'.permissions && t'.permissions[p].role in {other} && t'.permissions[p].scope == s {
        assert p in kept && t.permissions[p] == t'.permissions[p];
      }
    }
  }

  /** Deleting one permission row removes it and no other. */
  lemma DeletePermissionFrame(t: Tables, permission: int, p: int)
    ensures var t' := DeletePermission(t, permission);
      && t' == t.(permissions := t'.permissions)
      && (p in t'.permissions <==> p in t.permissions && p != permission)
      && (p in t'.permissions ==> t'.permissions[p] == t.permissions[p])
  {}

  lemma ApisFrame(t: Tables, actor: int, api: int, slug: string, owner: Option<int>, rows: seq<(int, string)>)
    ensures var r := CreateApi(t, actor, slug, owner);
      && NothingWhenRefused(t, r)
      && (r.0 == Done ==>
            r.1 == t.(apis := t.apis[t.nextApi := Api(TrimSpace(slug), owner)], nextApi := t.nextApi + 1))
    ensures var r := UpdateApi(t, actor, api, slug, owner);
      NothingWhenRefused(t, r) && (r.0 == Done ==> r.1 == t.(apis := t.apis[api := Api(TrimSpace(slug), owner)]))
    ensures var r := SetApiAccess(t, actor, api, rows); NothingWhenRefused(t, r) && r.1 == t.(access := r.1.access)
  {
    CreateApiFrame(t, actor, slug, owner);
    UpdateApiFrame(t, actor, api, slug, owner);
    SetAccessFrame(t, actor, api, rows);
  }

  lemma CreateApiFrame(t: Tables, actor: int, slug: string, owner: Option<int>)
    ensures var r := CreateApi(t, actor, slug, owner);
      && NothingWhenRefused(t, r)
      && (r.0 == Done ==>
            r.1 == t.(apis := t.apis[t.nextApi := Api(TrimSpace(slug), owner)], nextApi := t.nextApi + 1))
  {}

  lemma UpdateApiFrame(t: Tables, actor: int, api: int, slug: string, owner: Option<int>)
    ensures var r := UpdateApi(t, actor, api, slug, owner);
      NothingWhenRefused(t, r) && (r.0 == Done ==> r.1 == t.(apis := t.apis[api := Api(TrimSpace(slug), owner)]))
  {}

  lemma SetAccessFrame(t: Tables, actor: int, api: int, rows: seq<(int, string)>)
    ensures var r := SetApiAccess(t, actor, api, rows); NothingWhenRefused(t, r) && r.1 == t.(access := r.1.access)
  {}

  lemma DeleteApiFrame(t: Tables, actor: int, api: int, a: int, g: int)
    requires a != api
    ensures var r := DeleteApi(t, actor, api);
      && NothingWhenRefused(t, r)
      && (r.0 == Done ==>
            r.1 == t.(apis := t.apis - {api}, permissions := r.1.permissions, access := r.1.access))
      && ((a, g) in r.1.access <==> (a, g) in t.access)
      && ((a, g) in t.access ==> r.1.access[(a, g)] == t.access[(a, g)])
  {}

  /** Account requests keep the memberships of everybody who stays, and nothing of those who go. */
  lemma AccountFrame(t: Tables, actor: int, r: Accounts.Request, u: int)
    requires Integrity(t)
    ensures var t' := Account(t, actor, r).1;
      && t' == t.(users := t'.users, nextUser := t'.nextUser, userGroups := t'.userGroups)
      && t'.users == Apply(t.users, actor, IsAdmin(t, actor), if r.CreateRequest? then r.(id := t.nextUser) else r).1
      && GroupIDs(t', u) == if u in t'.users then GroupIDs(t, u) else {}
  {
    WithUsersFrame(t, Account(t, actor, r).1.users, u);
  }

  lemma WithUsersFrame(t: Tables, users: Users, u: int)
    requires Integrity(t)
    ensures var t' := WithUsers(t, users);
      && t' == t.(users := users, nextUser := t'.nextUser, userGroups := t'.userGroups)
      && GroupIDs(t', u) == if u in users then GroupIDs(t, u) else {}
  {
    var t' := WithUsers(t, users);
    forall g ensures g in GroupIDs(t', u) <==> u in users && g in GroupIDs(t, u) {
      Escalation.GroupIdsExact(t, u, g);
      Escalation.GroupIdsExact(t', u, g);
    }
  }

  lemma PreregisterFrame(t: Tables, actor: int, user: User, groups: seq<int>)
    ensures var r := PreregisterAs(t, actor, user, groups);
      && NothingWhenRefused(t, r)
      && r.1 == t.(users := r.1.users, nextUser := r.1.nextUser, userGroups := r.1.userGroups)
  {}

  lemma ImportFrame(t: Tables, actor: int, rows: seq<(string, string)>, groups: seq<int>)
    ensures var r := ImportLDAP(t, actor, rows, groups);
      && NothingWhenRefused(t, r)
      && r.1 == t.(users := r.1.users, nextUser := r.1.nextUser, userGroups := r.1.userGroups)
  {}

  // ---- Scopes are stored once ----

  /** No two rows of the role have the same scope. */
  ghost predicate StoredOnce(permissions: map<int, Permission>, role: int) {
    forall p, q ::
      p in permissions && q in permissions && permissions[p] == permissions[q] && permissions[p].role == role ==> p == q
  }

  /** After a replacement every listed scope is stored once, however often and in whatever spelling it was listed. */
  lemma ReplacedOnce(t: Tables, actor: int, role: int, payload: seq<string>)
    requires Integrity(t) && ReplaceRolePermissions(t, actor, role, payload).0 == Done
    ensures StoredOnce(ReplaceRolePermissions(t, actor, role, payload).1.permissions, role)
  {
    var kept := WithoutRole(t.permissions, role);
    InsertedOnce(kept, t.nextPermission, role, NormalizedAll(payload));
  }

  lemma {:induction false} InsertedOnce(kept: map<int, Permission>, next: int, role: int, scopes: seq<string>)
    requires forall p :: p in kept ==> kept[p].role != role && p < next
    ensures var (rows, n) := InsertScopes(kept, next, role, scopes);
      && StoredOnce(rows, role) && next <= n && (forall p :: p in rows ==> p < n)
      && (forall p :: p in rows && rows[p].role == role ==> Seen(scopes, rows[p].scope))
  {
    if scopes != [] {
      var init, scope := scopes[..|scopes| - 1], Cleaned(scopes[|scopes| - 1]);
      InsertedOnce(kept, next, role, init);
      forall s ensures Seen(scopes, s) <==> Seen(init, s) || s == scope {
        Escalation.SeenSplits(scopes, s);
      }
    }
  }
}
