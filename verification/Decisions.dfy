/**
 * Exactly which requests on the permission graph are accepted, in terms of who holds and who grants what
 * (backend/internal/api/admin_users.go, admin_people.go, admin_groups.go, admin_roles.go, admin_apis.go,
 * admin_directory.go).
 */
module Decisions {
  import opened Strings
  import opened Rbac
  import opened Accounts
  import opened PermGraph
  import opened Granting
  import Escalation
  import Identity

  // ---- Holding and covering ----

  /** The user may use the scope. */
  ghost predicate Holds(t: Tables, user: int, scope: string) {
    IsAdmin(t, user) || Implied(ResolvePermissions(t, user), scope)
  }

  /** The user holds all that membership in the group gives. */
  ghost predicate Covers(t: Tables, user: int, group: int) {
    forall s :: Grants(t, group, s) ==> Holds(t, user, s)
  }

  /** The user holds all that the role gives. */
  ghost predicate CoversRole(t: Tables, user: int, role: int) {
    forall p :: p in t.permissions && t.permissions[p].role == role ==> Holds(t, user, t.permissions[p].scope)
  }

  /** Administrators' accounts are changed by administrators only. */
  ghost predicate MayTouch(t: Tables, actor: int, target: int) {
    target in t.users && (IsAdmin(t, target) ==> IsAdmin(t, actor))
  }

  lemma EngineIsHolding(t: Tables, actor: int, scope: string)
    ensures ActorEngine(t, actor).Has(scope) <==> Holds(t, actor, scope)
  {}

  lemma GroupsCovered(t: Tables, actor: int, groups: set<int>)
    ensures AllowGrant(t, actor, ScopesForGroups(t, groups)) <==> forall g :: g in groups ==> Covers(t, actor, g)
  {
    forall s ensures s in ScopesForGroups(t, groups) <==> exists g :: g in groups && Grants(t, g, s) {
      ScopesForGroupsExact(t, groups, s);
    }
    forall s ensures ActorEngine(t, actor).Has(s) <==> Holds(t, actor, s) {
      EngineIsHolding(t, actor, s);
    }
  }

  lemma RolesCovered(t: Tables, actor: int, roles: set<int>)
    ensures AllowGrant(t, actor, ScopesForRoles(t, roles)) <==> forall r :: r in roles ==> CoversRole(t, actor, r)
  {
    forall s ensures ActorEngine(t, actor).Has(s) <==> Holds(t, actor, s) {
      EngineIsHolding(t, actor, s);
    }
  }

  lemma MayChangeExact(t: Tables, actor: int, target: int)
    ensures MayChange(t, actor, target) == Done <==> MayTouch(t, actor, target)
  {}

  // ---- Membership ----

  /** A user's groups are set exactly when every group exists and whoever asks covers the ones to be added. */
  lemma SetUserGroupsDecided(t: Tables, actor: int, target: int, groups: seq<int>)
    ensures SetUserGroups(t, actor, target, groups).0 == Done <==>
      && MayTouch(t, actor, target)
      && forall g :: g in groups ==> g in t.groups && ((target, g) in t.userGroups || Covers(t, actor, g))
  {
    MayChangeExact(t, actor, target);
    var added := Added(GroupIDs(t, target), groups);
    GroupsCovered(t, actor, added);
    forall g ensures g in added <==> g in groups && (target, g) !in t.userGroups {
      Escalation.GroupIdsExact(t, target, g);
    }
  }

  lemma {:induction false} MembersRefusalExact(t: Tables, actor: int, users: seq<int>)
    ensures MembersRefusal(t, actor, users) == Done <==> forall u :: u in users ==> MayTouch(t, actor, u)
  {
    if users != [] {
      var init, last := users[..|users| - 1], users[|users| - 1];
      MembersRefusalExact(t, actor, init);
      MayChangeExact(t, actor, last);
      assert users == init + [last];
    }
  }

  lemma AddMembersDecided(t: Tables, actor: int, group: int, users: seq<int>)
    ensures AddGroupMembers(t, actor, group, users).0 == Done <==>
      && group in t.groups && 0 < |users| <= 500 && Covers(t, actor, group)
      && forall u :: u in users ==> MayTouch(t, actor, u)
  {
    MembersRefusalExact(t, actor, users);
    GroupsCovered(t, actor, {group});
    assert group in {group};
  }

  lemma RemoveMemberDecided(t: Tables, actor: int, group: int, user: int)
    ensures RemoveGroupMember(t, actor, group, user).0 == Done <==>
      group in t.groups && (user, group) in t.userGroups && MayTouch(t, actor, user)
  {
    MayChangeExact(t, actor, user);
  }

  // ---- Groups and roles ----

  /** The name is not blank, and no other row of the table has it. */
  ghost predicate NameIsFree(t: Tables, name: string, group: int) {
    name != "" && forall g :: g in t.groups && g != group ==> t.groups[g].name != name
  }

  lemma CreateGroupDecided(t: Tables, name: string, azure: string, ldap: string)
    requires Integrity(t)
    ensures var (reply, t') := CreateGroup(t, name, azure, ldap);
      && (reply == Done <==> NameIsFree(t, TrimSpace(name), t.nextGroup))
      && t' == if reply == Done
               then t.(groups := t.groups[t.nextGroup := Group(TrimSpace(name), TrimSpace(azure), TrimSpace(ldap))],
                       nextGroup := t.nextGroup + 1)
               else t
  {}

  /** A group may be renamed freely; another directory mapping takes what the group gives. */
  lemma UpdateGroupDecided(t: Tables, actor: int, group: int, name: string, azure: string, ldap: string)
    ensures var (reply, t') := UpdateGroup(t, actor, group, name, azure, ldap);
      var after := Group(TrimSpace(name), TrimSpace(azure), TrimSpace(ldap));
      && (reply == Done <==>
            && group in t.groups && NameIsFree(t, after.name, group)
            && ((t.groups[group].azure == after.azure && t.groups[group].ldap == after.ldap)
              || Covers(t, actor, group)))
      && t' == if reply == Done then t.(groups := t.groups[group := after]) else t
  {
    UpdateGroupAccepted(t, actor, group, name, azure, ldap);
    GroupsCovered(t, actor, {group});
    assert group in {group};
  }

  lemma UpdateGroupAccepted(t: Tables, actor: int, group: int, name: string, azure: string, ldap: string)
    ensures var (reply, t') := UpdateGroup(t, actor, group, name, azure, ldap);
      var after := Group(TrimSpace(name), TrimSpace(azure), TrimSpace(ldap));
      && (reply == Done <==>
            && group in t.groups && NameIsFree(t, after.name, group)
            && ((t.groups[group].azure == after.azure && t.groups[group].ldap == after.ldap)
                || AllowGrant(t, actor, ScopesForGroups(t, {group}))))
      && t' == if reply == Done then t.(groups := t.groups[group := after]) else t
  {}

  lemma SetGroupRolesDecided(t: Tables, actor: int, group: int, roles: seq<int>)
    ensures SetGroupRoles(t, actor, group, roles).0 == Done <==>
      forall r :: r in roles ==>
        r in t.roles && group in t.groups && ((group, r) in t.groupRoles || CoversRole(t, actor, r))
  {
    var added := Added(RoleIDs(t, group), roles);
    RolesCovered(t, actor, added);
    forall r ensures r in added <==> r in roles && (group, r) !in t.groupRoles {
      Escalation.RoleIdsExact(t, group, r);
    }
  }

  /** Roles are created and renamed under names no other role has. */
  lemma RoleNamesDecided(t: Tables, role: int, name: string)
    requires Integrity(t)
    ensures CreateRole(t, name) == if exists r :: r in t.roles && t.roles[r] == name then (Invalid, t)
      else (Done, t.(roles := t.roles[t.nextRole := name], nextRole := t.nextRole + 1))
    ensures RenameRole(t, role, name) ==
      (if role !in t.roles then (Done, t)
       else if exists r :: r in t.roles && r != role && t.roles[r] == name then (Invalid, t)
       else (Done, t.(roles := t.roles[role := name])))
  {}

  /** The catalog: the named scopes and, for every API number, the four per-API ones. */
  ghost predicate InCatalog(scope: string) {
    || scope in {"api.view", "api.invoke", "api.create", "api.manage", "api.delete", "user.view", "user.manage",
                 "group.manage", "role.manage", "session.manage", "idp.manage", "settings.manage", "audit.view",
                 "audit.export"}
    || exists digits, word :: PerApi(scope, digits, word)
  }

  ghost predicate PerApi(scope: string, digits: string, word: string) {
    && digits != "" && AllDigits(digits) && word in {"view", "invoke", "manage", "delete"}
    && scope == "api:" + digits + ":" + word
  }

  lemma ParsesAs(s: string, action: Action)
    ensures ApiDigits(s, Word(action)).Some? <==> exists digits :: PerApi(s, digits, Word(action))
  {
    if digits :| PerApi(s, digits, Word(action)) {
      var n := |s| - |Word(action)| - 1;
      assert s[..4] == "api:" && s[4..n] == digits && s[n..] == ":" + Word(action);
    }
    if ApiDigits(s, Word(action)).Some? {
      assert PerApi(s, ApiDigits(s, Word(action)).value, Word(action));
    }
  }

  lemma WordOf(word: string) returns (action: Action)
    requires word in {"view", "invoke", "manage", "delete"}
    ensures word == Word(action)
  {
    action := if word == "view" then View else if word == "invoke" then Invoke else if word == "manage" then Manage
      else Delete;
  }

  lemma PerApiExact(s: string)
    ensures ParseNormalized(s).Some? <==> exists digits, word :: PerApi(s, digits, word)
  {
    forall action: Action
      ensures ApiDigits(s, Word(action)).Some? <==> exists digits :: PerApi(s, digits, Word(action)) {
      ParsesAs(s, action);
    }
    if digits, word :| PerApi(s, digits, word) {
      var action := WordOf(word);
      assert PerApi(s, digits, Word(action));
    }
  }

  lemma CatalogExact(scope: string)
    ensures ValidScope(scope) <==> InCatalog(Normalize(scope))
  {
    PerApiExact(Normalize(scope));
  }

  lemma NormalInCatalog(scope: string)
    ensures ValidScope(Normalize(scope)) <==> InCatalog(Normalize(scope))
    ensures Normalize(Normalize(scope)) == Normalize(scope)
  {
    NormalizeIdempotent(scope);
    CatalogExact(Normalize(scope));
  }

  /** A scope is added to a role exactly when it is in the catalog, the role exists, and the actor holds it. */
  lemma AddPermissionDecided(t: Tables, actor: int, role: int, scope: string)
    ensures AddRolePermission(t, actor, role, scope).0 == Done <==>
      InCatalog(Normalize(scope)) && role in t.roles && Holds(t, actor, scope)
  {
    NormalInCatalog(scope);
    EngineIsHolding(t, actor, Normalize(scope));
    AddAccepted(t, actor, role, Normalize(scope));
    SameHolding(t, actor, Normalize(scope), scope);
  }

  lemma SameHolding(t: Tables, actor: int, a: string, b: string)
    requires Normalize(a) == Normalize(b)
    ensures Holds(t, actor, a) <==> Holds(t, actor, b)
  {}

  lemma AddAccepted(t: Tables, actor: int, role: int, scope: string)
    ensures AddNormalized(t, actor, role, scope).0 == Done <==>
      ValidScope(scope) && role in t.roles && ActorEngine(t, actor).Has(scope)
  {
    assert scope in {scope};
  }

  /** The role has the scope in this or another spelling. */
  ghost predicate RoleHas(t: Tables, role: int, scope: string) {
    exists p :: p in t.permissions && t.permissions[p].role == role
      && Normalize(t.permissions[p].scope) == Normalize(scope)
  }

  /** A role's scopes are replaced exactly when all are in the catalog and the actor holds those that are new. */
  lemma ReplacePermissionsDecided(t: Tables, actor: int, role: int, payload: seq<string>)
    ensures ReplaceRolePermissions(t, actor, role, payload).0 == Done <==>
      && (role in t.roles || payload == [])
      && forall i :: 0 <= i < |payload| ==>
           InCatalog(Normalize(payload[i])) && (RoleHas(t, role, payload[i]) || Holds(t, actor, payload[i]))
  {
    var scopes := NormalizedAll(payload);
    forall i | 0 <= i < |payload|
      ensures scopes[i] == Normalize(payload[i]) && (ValidScope(scopes[i]) <==> InCatalog(Normalize(payload[i])))
      ensures ActorEngine(t, actor).Has(scopes[i]) <==> Holds(t, actor, payload[i])
      ensures scopes[i] in AddedScopes(t, role, scopes) <==> !RoleHas(t, role, payload[i])
      ensures InCatalog(Normalize(payload[i])) ==> Cleaned(scopes[i]) != ""
    {
      NormalInCatalog(payload[i]);
      EngineIsHolding(t, actor, scopes[i]);
      Escalation.LowerOfNormal(payload[i]);
      assert scopes[i] in scopes;
    }
    ReplacedHeld(t, actor, role, scopes);
  }

  lemma ReplacedHeld(t: Tables, actor: int, role: int, scopes: seq<string>)
    ensures AllowGrant(t, actor, AddedScopes(t, role, scopes)) <==>
      forall i :: 0 <= i < |scopes| && scopes[i] in AddedScopes(t, role, scopes) ==>
        ActorEngine(t, actor).Has(scopes[i])
  {
    forall s ensures s in AddedScopes(t, role, scopes) ==> exists i :: 0 <= i < |scopes| && scopes[i] == s {}
  }

  // ---- APIs ----

  /** No other API has the slug, and it is not blank. */
  ghost predicate SlugIsFree(t: Tables, slug: string, api: int) {
    slug != "" && forall a :: a in t.apis && a != api ==> t.apis[a].slug != slug
  }

  lemma ManagesAllIsHolding(t: Tables, actor: int, scope: string)
    requires scope == "api.manage"
    ensures ActorEngine(t, actor).ManagesAllAPIs() <==> Holds(t, actor, scope)
  {
    EngineIsHolding(t, actor, scope);
    ManagesAllIsHas(ActorEngine(t, actor), scope);
  }

  lemma ManagesAllIsHas(e: Engine, scope: string)
    requires scope == "api.manage"
    ensures e.ManagesAllAPIs() <==> e.Has(scope)
  {
    NamedIsNormal(scope);
    NoApiScopeIsNamed(scope);
  }

  lemma NamedIsNormal(scope: string)
    requires scope == "api.manage"
    ensures Normalize(scope) == scope
  {
    TrimSpaceTrims(scope);
    assert Lower(scope) == scope by {
      assert forall i :: 0 <= i < |scope| ==> LowerChar(scope[i]) == scope[i];
    }
  }

  lemma NoApiScopeIsNamed(scope: string)
    requires |scope| > 3 && scope[3] == '.'
    ensures ParseNormalized(scope).None?
  {
    PerApiExact(scope);
    if digits, word :| PerApi(scope, digits, word) {
      ColonAtThree(scope, digits, word);
    }
  }

  lemma ColonAtThree(scope: string, digits: string, word: string)
    requires PerApi(scope, digits, word)
    ensures |scope| > 3 && scope[3] == ':'
  {}

  lemma ManagesIsHolding(t: Tables, actor: int, api: int)
    requires 0 <= api <= MAX_INT
    ensures ActorEngine(t, actor).CanManageAPI(api) <==> Holds(t, actor, APIScope(api, Manage))
    ensures ActorEngine(t, actor).CanDeleteAPI(api) <==> Holds(t, actor, APIScope(api, Delete))
  {
    HasAPIScope(ActorEngine(t, actor), api, Manage);
    HasAPIScope(ActorEngine(t, actor), api, Delete);
    EngineIsHolding(t, actor, APIScope(api, Manage));
    EngineIsHolding(t, actor, APIScope(api, Delete));
  }

  lemma CreateApiDecided(t: Tables, actor: int, slug: string, owner: Option<int>, scope: string)
    requires Integrity(t) && scope == "api.manage"
    ensures CreateApi(t, actor, slug, owner).0 == Done <==>
      && SlugIsFree(t, TrimSpace(slug), t.nextApi) && t.nextApi <= MAX_INT
      && (owner.Some? ==> owner.value in t.groups && Holds(t, actor, scope))
  {
    ManagesAllIsHolding(t, actor, scope);
  }

  lemma UpdateApiDecided(t: Tables, actor: int, api: int, slug: string, owner: Option<int>, scope: string)
    requires Integrity(t) && api in t.apis && scope == "api.manage"
    ensures UpdateApi(t, actor, api, slug, owner).0 == Done <==>
      && Holds(t, actor, APIScope(api, Manage)) && SlugIsFree(t, TrimSpace(slug), api)
      && (owner.Some? ==> owner.value in t.groups)
      && (owner == t.apis[api].owner || Holds(t, actor, scope))
  {
    UpdateApiAccepted(t, actor, api, slug, owner);
    ManagesAllIsHolding(t, actor, scope);
    ManagesIsHolding(t, actor, api);
  }

  lemma UpdateApiAccepted(t: Tables, actor: int, api: int, slug: string, owner: Option<int>)
    requires api in t.apis
    ensures UpdateApi(t, actor, api, slug, owner).0 == Done <==>
      && ActorEngine(t, actor).CanManageAPI(api) && SlugIsFree(t, TrimSpace(slug), api)
      && (owner.Some? ==> owner.value in t.groups)
      && (owner == t.apis[api].owner || ActorEngine(t, actor).ManagesAllAPIs())
  {}

  lemma DeleteApiDecided(t: Tables, actor: int, api: int)
    requires Integrity(t) && api in t.apis
    ensures DeleteApi(t, actor, api).0 == Done <==> Holds(t, actor, APIScope(api, Delete))
  {
    ManagesIsHolding(t, actor, api);
  }

  lemma SetAccessDecided(t: Tables, actor: int, api: int, rows: seq<(int, string)>)
    requires Integrity(t) && api in t.apis
    ensures SetApiAccess(t, actor, api, rows).0 == Done <==>
      && Holds(t, actor, APIScope(api, Manage))
      && forall i :: 0 <= i < |rows| ==> rows[i].0 in t.groups && (rows[i].1 == "view" || rows[i].1 == "invoke")
  {
    ManagesIsHolding(t, actor, api);
  }

  // ---- Directory accounts ----

  /** Pre-registration into groups takes what every one of them gives. */
  lemma PreregisterDecided(t: Tables, actor: int, user: User, groups: seq<int>)
    requires Integrity(t)
    ensures PreregisterAs(t, actor, user, groups).0 == Done <==>
      && (forall u :: u in t.users ==> t.users[u].username != user.username)
      && forall g :: g in groups ==> g in t.groups && Covers(t, actor, g)
  {
    PreregisterAccepted(t, actor, user, groups);
    GroupsCovered(t, actor, Elements(groups));
    assert forall g :: g in Elements(groups) <==> g in groups;
  }

  lemma PreregisterAccepted(t: Tables, actor: int, user: User, groups: seq<int>)
    requires Integrity(t)
    ensures PreregisterAs(t, actor, user, groups).0 == Done <==>
      && (forall u :: u in t.users ==> t.users[u].username != user.username)
      && (forall g :: g in groups ==> g in t.groups) && AllowGrant(t, actor, ScopesForGroups(t, Elements(groups)))
  {}

  /** The new account is in exactly the listed groups; everybody else stays where they are. */
  lemma PreregisterEffect(t: Tables, actor: int, user: User, groups: seq<int>, u: int)
    requires Integrity(t) && PreregisterAs(t, actor, user, groups).0 == Done
    ensures var t' := PreregisterAs(t, actor, user, groups).1;
      && t'.users == t.users[t.nextUser := user] && t'.nextUser == t.nextUser + 1
      && GroupIDs(t', u) == if u == t.nextUser then Elements(groups) else GroupIDs(t, u)
  {
    var t' := PreregisterAs(t, actor, user, groups).1;
    forall g ensures g in GroupIDs(t', u) <==> g in if u == t.nextUser then Elements(groups) else GroupIDs(t, u) {
      Escalation.GroupIdsExact(t, u, g);
      Escalation.GroupIdsExact(t', u, g);
    }
  }

  /** An import into groups likewise; its LDAP accounts join, administrators only when one imports. */
  lemma ImportDecided(t: Tables, actor: int, rows: seq<(string, string)>, groups: seq<int>)
    ensures ImportLDAP(t, actor, rows, groups).0 == Done <==>
      forall g :: g in groups ==> g in t.groups && Covers(t, actor, g)
  {
    GroupsCovered(t, actor, Elements(groups));
    assert forall g :: g in Elements(groups) <==> g in groups;
  }

  lemma ImportMembersEffect(t: Tables, actor: int, rows: seq<(string, string)>, groups: seq<int>, u: int)
    requires ImportLDAP(t, actor, rows, groups).0 == Done
    ensures var t' := ImportLDAP(t, actor, rows, groups).1;
      GroupIDs(t', u) == GroupIDs(t, u) +
        if u in t'.users && t'.users[u].source == Ldap && (t'.users[u].isAdmin ==> IsAdmin(t, actor))
           && exists i :: 0 <= i < |rows| && rows[i].0 == t'.users[u].username
        then Elements(groups) else {}
  {
    var t' := ImportLDAP(t, actor, rows, groups).1;
    forall g ensures g in GroupIDs(t', u) <==> (u, g) in t'.userGroups {
      Escalation.GroupIdsExact(t', u, g);
    }
    forall g ensures g in GroupIDs(t, u) <==> (u, g) in t.userGroups {
      Escalation.GroupIdsExact(t, u, g);
    }
    var ids := Imported(t'.users, IsAdmin(t, actor), rows);
    forall g ensures (u, g) in t'.userGroups <==> (u, g) in t.userGroups || (u in ids && g in Elements(groups)) {}
  }

  // ---- Names over runs ----

  /** Groups, roles and APIs are told apart by name, name and slug. */
  ghost predicate NamesDiffer(t: Tables) {
    && (forall a, b :: a in t.groups && b in t.groups && t.groups[a].name == t.groups[b].name ==> a == b)
    && (forall a, b :: a in t.roles && b in t.roles && t.roles[a] == t.roles[b] ==> a == b)
    && (forall a, b :: a in t.apis && b in t.apis && t.apis[a].slug == t.apis[b].slug ==> a == b)
  }

  lemma SameTablesNames(t: Tables, t': Tables)
    requires NamesDiffer(t) && t'.groups == t.groups && t'.roles == t.roles && t'.apis == t.apis
    ensures NamesDiffer(t')
  {}

  lemma GroupRequestsKeepNames(t: Tables, actor: int, r: Granting.Request)
    requires Integrity(t) && NamesDiffer(t) && Escalation.OfGroups(r)
    ensures NamesDiffer(Handle(t, actor, r).1)
  {
    if r.CreateGroupRequest? {
      CreateGroupDecided(t, r.name, r.azure, r.ldap);
    } else if r.UpdateGroupRequest? {
      UpdateGroupAccepted(t, actor, r.group, r.name, r.azure, r.ldap);
    } else if r.DeleteGroupRequest? {
      DeleteGroupKeepsNames(t, r.group);
    } else {
      MembershipKeepsNames(t, actor, r);
    }
  }

  lemma DeleteGroupKeepsNames(t: Tables, group: int)
    requires NamesDiffer(t)
    ensures NamesDiffer(DeleteGroup(t, group))
  {}

  lemma MembershipKeepsNames(t: Tables, actor: int, r: Granting.Request)
    requires r.SetUserGroupsRequest? || r.AddMembersRequest? || r.RemoveMemberRequest? || r.SetGroupRolesRequest?
    ensures var t' := Handle(t, actor, r).1; t'.groups == t.groups && t'.roles == t.roles && t'.apis == t.apis
  {}

  lemma RoleRequestsKeepNames(t: Tables, actor: int, r: Granting.Request)
    requires Integrity(t) && NamesDiffer(t)
    requires r.CreateRoleRequest? || r.RenameRoleRequest? || r.DeleteRoleRequest?
    ensures NamesDiffer(Handle(t, actor, r).1)
  {}

  lemma ApiRequestsKeepNames(t: Tables, actor: int, r: Granting.Request)
    requires Integrity(t) && NamesDiffer(t)
    requires r.CreateApiRequest? || r.UpdateApiRequest? || r.DeleteApiRequest?
    ensures NamesDiffer(Handle(t, actor, r).1)
  {
    if r.CreateApiRequest? {
      assert Handle(t, actor, r) == CreateApi(t, actor, r.slug, r.owner);
      CreateApiKeepsNames(t, actor, r.slug, r.owner);
    } else if r.UpdateApiRequest? {
      assert Handle(t, actor, r) == UpdateApi(t, actor, r.api, r.slug, r.owner);
      UpdateApiKeepsNames(t, actor, r.api, r.slug, r.owner);
    } else {
      assert Handle(t, actor, r) == DeleteApi(t, actor, r.api);
      DeleteApiKeepsNames(t, actor, r.api);
    }
  }

  lemma CreateApiKeepsNames(t: Tables, actor: int, slug: string, owner: Option<int>)
    requires Integrity(t) && NamesDiffer(t)
    ensures NamesDiffer(CreateApi(t, actor, slug, owner).1)
  {}

  lemma UpdateApiKeepsNames(t: Tables, actor: int, api: int, slug: string, owner: Option<int>)
    requires NamesDiffer(t)
    ensures NamesDiffer(UpdateApi(t, actor, api, slug, owner).1)
  {}

  lemma DeleteApiKeepsNames(t: Tables, actor: int, api: int)
    requires NamesDiffer(t)
    ensures NamesDiffer(DeleteApi(t, actor, api).1)
  {}

  lemma OtherRequestsKeepTables(t: Tables, actor: int, r: Granting.Request)
    requires !Escalation.OfGroups(r) && !r.CreateRoleRequest? && !r.RenameRoleRequest? && !r.DeleteRoleRequest?
    requires !r.CreateApiRequest? && !r.UpdateApiRequest? && !r.DeleteApiRequest?
    ensures var t' := Handle(t, actor, r).1; t'.groups == t.groups && t'.roles == t.roles && t'.apis == t.apis
  {
    if Escalation.OfPermissions(r) {
      PermissionRequestsKeepTables(t, actor, r);
    } else {
      PeopleRequestsKeepTables(t, actor, r);
    }
  }

  lemma PeopleRequestsKeepTables(t: Tables, actor: int, r: Granting.Request)
    requires r.AccountRequest? || r.PreregisterRequest? || r.ImportRequest? || r.SetAccessRequest?
    ensures var t' := Handle(t, actor, r).1; t'.groups == t.groups && t'.roles == t.roles && t'.apis == t.apis
  {
    if r.AccountRequest? {
      assert Handle(t, actor, r) == Account(t, actor, r.account);
    } else if r.PreregisterRequest? {
      PreregisterKeepsTables(t, actor, r.emailOk, r.enabled, r.upn, r.email, r.now, r.groups);
    }
  }

  lemma PreregisterKeepsTables(t: Tables, actor: int, emailOk: bool, enabled: bool, upn: string, email: string,
                               now: nat,
                               groups: seq<int>)
    ensures var t' := Preregister(t, actor, emailOk, enabled, upn, email, now, groups).1;
      t'.groups == t.groups && t'.roles == t.roles && t'.apis == t.apis
  {
    var (reply, name) := Identity.PreregisteredName(t.users, emailOk, enabled, upn, email, now);
    Escalation.PreregisterOutcome(t, actor, emailOk, enabled, upn, email, now, groups);
    PreregisterAsKeepsTables(t, actor, Identity.PreregisteredUser(name, email), groups);
  }

  lemma PreregisterAsKeepsTables(t: Tables, actor: int, user: User, groups: seq<int>)
    ensures var t' := PreregisterAs(t, actor, user, groups).1;
      t'.groups == t.groups && t'.roles == t.roles && t'.apis == t.apis
  {}

  lemma PermissionRequestsKeepTables(t: Tables, actor: int, r: Granting.Request)
    requires Escalation.OfPermissions(r)
    ensures var t' := Handle(t, actor, r).1; t'.groups == t.groups && t'.roles == t.roles && t'.apis == t.apis
  {
    if r.AddPermissionRequest? {
      Escalation.AddReply(t, actor, r.role, r.scope);
      AddPermissionKeepsTables(t, actor, r.role, Normalize(r.scope));
    } else if r.ReplacePermissionsRequest? {
      Escalation.ReplaceReply(t, actor, r.role, r.scopes);
      ReplaceKeepsTables(t, actor, r.role, r.scopes);
    } else {
      assert Handle(t, actor, r).1 == DeletePermission(t, r.permission);
    }
  }

  lemma AddPermissionKeepsTables(t: Tables, actor: int, role: int, scope: string)
    ensures var t' := AddNormalized(t, actor, role, scope).1;
      t'.groups == t.groups && t'.roles == t.roles && t'.apis == t.apis
  {}

  lemma ReplaceKeepsTables(t: Tables, actor: int, role: int, payload: seq<string>)
    ensures var t' := ReplaceRolePermissions(t, actor, role, payload).1;
      t'.groups == t.groups && t'.roles == t.roles && t'.apis == t.apis
  {}

  /** In every run no two groups or roles share a name and no two APIs a slug. */
  lemma {:induction false} NamesStayDifferent(t: Tables, log: seq<Event>)
    requires Integrity(t) && NamesDiffer(t)
    ensures NamesDiffer(Granting.Run(t, log))
  {
    if log != [] {
      var init, last := log[..|log| - 1], log[|log| - 1];
      var q := Granting.Run(t, init);
      NamesStayDifferent(t, init);
      Escalation.ReachableResolversAgree(t, init, 0);
      StepKeepsNames(q, last);
    }
  }

  lemma StepKeepsNames(t: Tables, e: Event)
    requires Integrity(t) && NamesDiffer(t)
    ensures NamesDiffer(Granting.Step(t, e))
  {
    match e
    case Requested(actor, r) => HandleKeepsNames(t, actor, r);
    case Synced(_, _, _) => SameTablesNames(t, Granting.Step(t, e));
    case Created(_, _, _, _) => SameTablesNames(t, Granting.Step(t, e));
  }

  lemma HandleKeepsNames(t: Tables, actor: int, r: Granting.Request)
    requires Integrity(t) && NamesDiffer(t)
    ensures NamesDiffer(Handle(t, actor, r).1)
  {
    if Escalation.OfGroups(r) {
      GroupRequestsKeepNames(t, actor, r);
    } else if r.CreateRoleRequest? || r.RenameRoleRequest? || r.DeleteRoleRequest? {
      RoleRequestsKeepNames(t, actor, r);
    } else if r.CreateApiRequest? || r.UpdateApiRequest? || r.DeleteApiRequest? {
      ApiRequestsKeepNames(t, actor, r);
    } else {
      OtherRequestsKeepTables(t, actor, r);
      SameTablesNames(t, Handle(t, actor, r).1);
    }
  }
}
