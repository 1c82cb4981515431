/** What the requests that change the permission graph achieve, in terms of who is where and who grants what. */
module Effects {
  import opened Strings
  import opened Rbac
  import opened Accounts
  import opened PermGraph
  import opened Granting
  import Escalation

  // ---- Membership ----

  lemma SetUserGroupsEffect(t: Tables, actor: int, target: int, groups: seq<int>, user: int)
    ensures var (reply, t') := SetUserGroups(t, actor, target, groups);
      GroupIDs(t', user) == if reply == Done && user == target then Elements(groups) else GroupIDs(t, user)
  {
    var (reply, t') := SetUserGroups(t, actor, target, groups);
    forall g ensures g in GroupIDs(t', user) <==>
      g in if reply == Done && user == target then Elements(groups) else GroupIDs(t, user) {
      Escalation.GroupIdsExact(t, user, g);
      Escalation.GroupIdsExact(t', user, g);
    }
  }

  lemma MembersEffect(t: Tables, actor: int, group: int, users: seq<int>, user: int)
    ensures var (reply, t') := AddGroupMembers(t, actor, group, users);
      GroupIDs(t', user) == if reply == Done && user in users then GroupIDs(t, user) + {group} else GroupIDs(t, user)
  {
    Escalation.AddMembersOutcome(t, actor, group, users);
    var (reply, t') := AddGroupMembers(t, actor, group, users);
    forall g ensures g in GroupIDs(t', user) <==>
      g in if reply == Done && user in users then GroupIDs(t, user) + {group} else GroupIDs(t, user) {
      Escalation.GroupIdsExact(t, user, g);
      Escalation.GroupIdsExact(t', user, g);
    }
  }

  lemma RemoveMemberEffect(t: Tables, actor: int, group: int, member: int, user: int)
    ensures var (reply, t') := RemoveGroupMember(t, actor, group, member);
      GroupIDs(t', user) == if reply == Done && user == member then GroupIDs(t, user) - {group} else GroupIDs(t, user)
  {
    var (reply, t') := RemoveGroupMember(t, actor, group, member);
    forall g ensures g in GroupIDs(t', user) <==>
      g in if reply == Done && user == member then GroupIDs(t, user) - {group} else GroupIDs(t, user) {
      Escalation.GroupIdsExact(t, user, g);
      Escalation.GroupIdsExact(t', user, g);
    }
  }

  /** The directory group a group is mapped to at a provider; "" when it is not. */
  function MappedTo(g: Group, p: Provider): string {
    if p == AzureDirectory then g.azure else g.ldap
  }

  /** Some membership is the directory group, up to case and the space around it. */
  ghost predicate InDirectory(memberships: set<string>, mapping: string) {
    exists m :: m in memberships && SameLetters(TrimSpace(m), TrimSpace(mapping))
  }

  /** The directory puts the user into the group. */
  ghost predicate MustJoin(t: Tables, p: Provider, memberships: set<string>, g: int) {
    g in t.groups && MappedTo(t.groups[g], p) != "" && InDirectory(memberships, MappedTo(t.groups[g], p))
  }

  /** The user exists, or would have to join no group. */
  ghost predicate SyncHolds(t: Tables, user: int, p: Provider, memberships: set<string>) {
    user in t.users || forall g :: MustJoin(t, p, memberships, g) ==> (user, g) in t.userGroups
  }

  lemma DirectoryExact(memberships: set<string>, mapping: string)
    ensures MemberOf(memberships, mapping) <==> InDirectory(memberships, mapping)
  {
    forall m ensures SameName(m, mapping) <==> SameLetters(TrimSpace(m), TrimSpace(mapping)) {
      LowerFolds(TrimSpace(m), TrimSpace(mapping));
    }
  }

  lemma SyncFitsExact(t: Tables, user: int, p: Provider, memberships: set<string>)
    ensures SyncFits(t, user, p, memberships) <==> SyncHolds(t, user, p, memberships)
  {
    forall g ensures g in DirectoryGroups(t, p, memberships) <==> MustJoin(t, p, memberships, g) {
      if g in t.groups {
        DirectoryExact(memberships, t.groups[g].Mapping(p));
      }
    }
  }

  /** After a sync the user is in a mapped group exactly when the directory says so; nothing else changes. */
  lemma SyncEffect(t: Tables, user: int, p: Provider, memberships: set<string>, u: int, g: int)
    ensures g in GroupIDs(Sync(t, user, p, memberships), u) <==>
      if u == user && g in t.groups && MappedTo(t.groups[g], p) != "" && SyncHolds(t, user, p, memberships)
      then InDirectory(memberships, MappedTo(t.groups[g], p))
      else g in GroupIDs(t, u)
  {
    SyncFitsExact(t, user, p, memberships);
    if g in t.groups {
      DirectoryExact(memberships, t.groups[g].Mapping(p));
    }
    Escalation.GroupIdsExact(t, u, g);
    Escalation.GroupIdsExact(Sync(t, user, p, memberships), u, g);
  }

  // ---- Groups and roles ----

  lemma DeletedGroupEffect(t: Tables, group: int, g: int, s: string)
    ensures Grants(DeleteGroup(t, group), g, s) <==> g != group && Grants(t, g, s)
    ensures forall u :: GroupIDs(DeleteGroup(t, group), u) == GroupIDs(t, u) - {group}
  {
    var t' := DeleteGroup(t, group);
    DeletedGroupGrants(t, group, g, s);
    forall u, h ensures h in GroupIDs(t', u) <==> h in GroupIDs(t, u) - {group} {
      Escalation.GroupIdsExact(t, u, h);
      Escalation.GroupIdsExact(t', u, h);
    }
  }

  lemma DeletedGroupGrants(t: Tables, group: int, g: int, s: string)
    ensures Grants(DeleteGroup(t, group), g, s) <==> g != group && Grants(t, g, s)
  {
    var t' := DeleteGroup(t, group);
    assert GrantsByRole(t', g, s) <==> g != group && GrantsByRole(t, g, s);
    assert GrantsByAccess(t', g, s) <==> g != group && GrantsByAccess(t, g, s);
    if a :| a in t'.apis && t'.apis[a].owner == Some(g) && s == APIScope(a, Manage) {
      assert g != group && t.apis[a].owner == Some(g);
      assert GrantsAsOwner(t, g, s);
    }
    if a :| g != group && a in t.apis && t.apis[a].owner == Some(g) && s == APIScope(a, Manage) {
      assert a in t'.apis && t'.apis[a].owner == Some(g);
      assert GrantsAsOwner(t', g, s);
    }
  }

  lemma SetGroupRolesEffect(t: Tables, actor: int, group: int, roles: seq<int>, g: int)
    ensures var (reply, t') := SetGroupRoles(t, actor, group, roles);
      RoleIDs(t', g) == if reply == Done && g == group then Elements(roles) else RoleIDs(t, g)
  {
    var (reply, t') := SetGroupRoles(t, actor, group, roles);
    forall r ensures r in RoleIDs(t', g) <==>
      r in if reply == Done && g == group then Elements(roles) else RoleIDs(t, g) {
      Escalation.RoleIdsExact(t, g, r);
      Escalation.RoleIdsExact(t', g, r);
    }
  }

  lemma DeletedRoleEffect(t: Tables, role: int, roles: set<int>)
    ensures ScopesForRoles(DeleteRole(t, role), roles) == ScopesForRoles(t, roles - {role})
    ensures forall g :: RoleIDs(DeleteRole(t, role), g) == RoleIDs(t, g) - {role}
  {
    var t' := DeleteRole(t, role);
    forall s ensures s in ScopesForRoles(t', roles) <==> s in ScopesForRoles(t, roles - {role}) {
      if p :| p in t.permissions && t.permissions[p].role in roles - {role} && t.permissions[p].scope == s {
        assert p in t'.permissions && t'.permissions[p] == t.permissions[p];
      }
    }
    forall g, r ensures r in RoleIDs(t', g) <==> r in RoleIDs(t, g) - {role} {
      Escalation.RoleIdsExact(t, g, r);
      Escalation.RoleIdsExact(t', g, r);
    }
  }

  lemma AddedPermissionEffect(t: Tables, actor: int, role: int, scope: string, r: int)
    requires Integrity(t)
    ensures var (reply, t') := AddRolePermission(t, actor, role, scope);
      ScopesForRoles(t', {r}) == ScopesForRoles(t, {r}) + if reply == Done && r == role then {Normalize(scope)} else {}
  {
    Escalation.LowerOfNormal(scope);
    AddedNormalizedEffect(t, actor, role, Normalize(scope), r);
  }

  lemma AddedNormalizedEffect(t: Tables, actor: int, role: int, scope: string, r: int)
    requires Integrity(t) && Lower(scope) == scope
    ensures var (reply, t') := AddNormalized(t, actor, role, scope);
      ScopesForRoles(t', {r}) == ScopesForRoles(t, {r}) + if reply == Done && r == role then {scope} else {}
  {
    if AddNormalized(t, actor, role, scope).0 == Done {
      OneMorePermission(t, t.nextPermission, role, scope, r);
    }
  }

  lemma OneMorePermission(t: Tables, id: int, role: int, scope: string, r: int)
    requires id !in t.permissions
    ensures var t' := t.(permissions := t.permissions[id := Permission(role, scope)],
                         nextPermission := t.nextPermission + 1);
      ScopesForRoles(t', {r}) == ScopesForRoles(t, {r}) + if r == role then {scope} else {}
  {
    var t' := t.(permissions := t.permissions[id := Permission(role, scope)], nextPermission := t.nextPermission + 1);
    assert t'.permissions[id] == Permission(role, scope);
    forall s ensures s in ScopesForRoles(t', {r}) <==> s in ScopesForRoles(t, {r}) || (r == role && s == scope) {
      if p :| p in t.permissions && t.permissions[p] == Permission(r, s) {
        assert p in t'.permissions && t'.permissions[p] == Permission(r, s);
      }
    }
  }

  // ---- APIs ----

  /** The level the last row for a group gives. */
  function LastLevel(rows: seq<(int, string)>, group: int): Option<Action> {
    if rows == [] then None
    else if rows[|rows| - 1].0 == group then Some(LevelAction(rows[|rows| - 1].1))
    else LastLevel(rows[..|rows| - 1], group)
  }

  lemma {:induction false} InsertedLevels(access: map<(int, int), Action>, api: int, rows: seq<(int, string)>, a: int,
                                          group: int)
    ensures var after := InsertAccess(access, api, rows);
      var level := if a == api then LastLevel(rows, group) else None;
      && ((a, group) in after <==> level.Some? || (a, group) in access)
      && ((a, group) in after ==> after[(a, group)] == if level.Some? then level.value else access[(a, group)])
  {
    if rows != [] {
      InsertedLevels(access, api, rows[..|rows| - 1], a, group);
    }
  }

  /** Afterwards exactly the listed groups have access, each at its last level; other APIs are as before. */
  lemma SetAccessEffect(t: Tables, actor: int, api: int, rows: seq<(int, string)>, a: int, group: int)
    requires SetApiAccess(t, actor, api, rows).0 == Done
    ensures var after := SetApiAccess(t, actor, api, rows).1.access;
      var level := if a == api then LastLevel(rows, group)
        else if (a, group) in t.access then Some(t.access[(a, group)]) else None;
      ((a, group) in after <==> level.Some?) && ((a, group) in after ==> after[(a, group)] == level.value)
  {
    InsertedLevels(WithoutApi(t.access, api), api, rows, a, group);
  }

  lemma LastRowIsStored(t: Tables, actor: int, api: int, rows: seq<(int, string)>, i: nat)
    requires SetApiAccess(t, actor, api, rows).0 == Done && i < |rows|
    requires forall j :: i < j < |rows| ==> rows[j].0 != rows[i].0
    ensures var after := SetApiAccess(t, actor, api, rows).1.access;
      (api, rows[i].0) in after && after[(api, rows[i].0)] == LevelAction(rows[i].1)
  {
    LastLevelIs(rows, i);
    SetAccessEffect(t, actor, api, rows, api, rows[i].0);
  }

  lemma AccessIsGrant(t: Tables, api: int, group: int)
    requires (api, group) in t.access
    ensures Grants(t, group, "api:" + Decimal(api) + ":" + Word(t.access[(api, group)]))
  {
    assert GrantsByAccess(t, group, APIScope(api, t.access[(api, group)]));
  }

  /** An accepted level is one of two words, and is stored as that action. */
  lemma LevelIsItsWord(t: Tables, actor: int, api: int, rows: seq<(int, string)>, i: nat)
    requires SetApiAccess(t, actor, api, rows).0 == Done && i < |rows|
    ensures Word(LevelAction(rows[i].1)) == rows[i].1
  {}

  /** The last row for a group gives it that level of the API, as a scope. */
  lemma AccessGrants(t: Tables, actor: int, api: int, rows: seq<(int, string)>, i: nat)
    requires SetApiAccess(t, actor, api, rows).0 == Done && i < |rows|
    requires forall j :: i < j < |rows| ==> rows[j].0 != rows[i].0
    ensures Grants(SetApiAccess(t, actor, api, rows).1, rows[i].0, "api:" + Decimal(api) + ":" + rows[i].1)
  {
    LastRowIsStored(t, actor, api, rows, i);
    LevelIsItsWord(t, actor, api, rows, i);
    AccessIsGrant(SetApiAccess(t, actor, api, rows).1, api, rows[i].0);
  }

  lemma {:induction false} LastLevelIs(rows: seq<(int, string)>, i: nat)
    requires i < |rows| && forall j :: i < j < |rows| ==> rows[j].0 != rows[i].0
    ensures LastLevel(rows, rows[i].0) == Some(LevelAction(rows[i].1))
    decreases |rows|
  {
    if i < |rows| - 1 {
      LastLevelIs(rows[..|rows| - 1], i);
    }
  }

  /**
   * Afterwards the group asked for owns the API and so grants the API's manage scope, which the former
   * owner no longer grants as one; every other grant stays. Only a holder of every scope of every API
   * changes the owner.
   */
  lemma OwnerEffect(t: Tables, actor: int, api: int, slug: string, owner: Option<int>, group: int, s: string,
                    other: int, action: Action)
    requires Integrity(t) && UpdateApi(t, actor, api, slug, owner).0 == Done && 0 <= other <= MAX_INT
    ensures Grants(UpdateApi(t, actor, api, slug, owner).1, group, s) <==>
      if s == APIScope(api, Manage) then owner == Some(group) || GrantsByRole(t, group, s) else Grants(t, group, s)
    ensures owner != t.apis[api].owner ==> ActorEngine(t, actor).Has(APIScope(other, action))
  {
    UpdatedApi(t, actor, api, slug, owner);
    OwnerGrants(t, UpdateApi(t, actor, api, slug, owner).1, api, owner, group, s);
    if owner != t.apis[api].owner {
      HasAPIScope(ActorEngine(t, actor), other, action);
    }
  }

  lemma UpdatedApi(t: Tables, actor: int, api: int, slug: string, owner: Option<int>)
    requires UpdateApi(t, actor, api, slug, owner).0 == Done
    ensures var t' := UpdateApi(t, actor, api, slug, owner).1;
      && api in t.apis && api in t'.apis && t'.apis[api].owner == owner
      && t' == t.(apis := t.apis[api := t'.apis[api]])
    ensures owner != t.apis[api].owner ==> ActorEngine(t, actor).ManagesAllAPIs()
  {}

  lemma OwnerGrants(t: Tables, t': Tables, api: int, owner: Option<int>, group: int, s: string)
    requires Integrity(t) && api in t.apis && api in t'.apis && t'.apis[api].owner == owner
    requires t' == t.(apis := t.apis[api := t'.apis[api]])
    ensures Grants(t', group, s) <==>
      if s == APIScope(api, Manage) then owner == Some(group) || GrantsByRole(t, group, s) else Grants(t, group, s)
  {
    forall a, b: Action | 0 <= a <= MAX_INT && APIScope(a, b) == APIScope(api, Manage) ensures a == api && b == Manage {
      PrintedIdIsUnique(a, api, b, Manage);
    }
    assert GrantsByRole(t', group, s) <==> GrantsByRole(t, group, s);
    assert GrantsByAccess(t', group, s) <==> GrantsByAccess(t, group, s);
    assert s == APIScope(api, Manage) ==> !GrantsByAccess(t, group, s);
    assert s == APIScope(api, Manage) ==> (GrantsAsOwner(t', group, s) <==> owner == Some(group)) by {
      assert t'.apis[api].owner == owner;
    }
    assert s != APIScope(api, Manage) ==> (GrantsAsOwner(t', group, s) <==> GrantsAsOwner(t, group, s)) by {
      OtherOwners(t, t', api, group, s);
    }
  }

  lemma OtherOwners(t: Tables, t': Tables, api: int, group: int, s: string)
    requires api in t.apis && api in t'.apis && t' == t.(apis := t.apis[api := t'.apis[api]])
    ensures s != APIScope(api, Manage) ==> (GrantsAsOwner(t', group, s) <==> GrantsAsOwner(t, group, s))
  {
    forall a | a in t.apis && a != api ensures a in t'.apis && t'.apis[a] == t.apis[a] {}
  }

  lemma PrintedIdIsUnique(a: int, b: int, x: Action, y: Action)
    requires 0 <= a <= MAX_INT && 0 <= b <= MAX_INT && APIScope(a, x) == APIScope(b, y)
    ensures a == b && x == y
  {
    ParseOfAPIScope(a, x);
    ParseOfAPIScope(b, y);
  }

  lemma NormalIsLower(s: string, api: int, action: Action)
    requires 0 <= api <= MAX_INT && s == APIScope(api, action)
    ensures Lower(s) == s
  {
    ParseOfAPIScope(api, action);
    Escalation.LowerOfNormal(s);
  }

  /** The scope names the API: its number, written out and closed by a colon, in any case. */
  ghost predicate OwnScope(s: string, api: int) {
    exists rest :: Lower(s) == "api:" + Decimal(api) + ":" + rest
  }

  lemma ScopedToIsOwn(s: string, api: int)
    ensures ScopedTo(s, api) <==> OwnScope(s, api)
  {
    var prefix := "api:" + Decimal(api) + ":";
    if ScopedTo(s, api) {
      assert Lower(s) == prefix + Lower(s)[|prefix|..];
    }
    if rest :| Lower(s) == prefix + rest {
      assert Lower(s)[..|prefix|] == prefix;
    }
  }

  /** A printed scope names the one API it was printed for. */
  lemma PrintedScopeIsOwn(a: int, action: Action, api: int)
    requires 0 <= a <= MAX_INT && 0 <= api
    ensures OwnScope(APIScope(a, action), api) <==> a == api
  {
    var s := APIScope(a, action);
    NormalIsLower(s, a, action);
    assert s == "api:" + Decimal(a) + ":" + Word(action);
    if rest :| s == "api:" + Decimal(api) + ":" + rest {
      OneNumber(a, Word(action), api, rest);
    }
  }

  lemma SamePrefixDropped(d: string, word: string, e: string, rest: string)
    requires "api:" + d + ":" + word == "api:" + e + ":" + rest
    ensures d + ":" + word == e + ":" + rest
  {
    assert ("api:" + d + ":" + word)[4..] == d + ":" + word;
    assert ("api:" + e + ":" + rest)[4..] == e + ":" + rest;
  }

  lemma OneNumber(a: nat, word: string, b: nat, rest: string)
    requires "api:" + Digits(a) + ":" + word == "api:" + Digits(b) + ":" + rest
    ensures a == b
  {
    SamePrefixDropped(Digits(a), word, Digits(b), rest);
    ColonSplits(Digits(a), word, Digits(b), rest);
    assert Value(Digits(a)) == Value(Digits(b));
  }

  /**
   * Deleting an API takes away the grants of its own scopes, through every path and in every spelling,
   * and no other grant; its id is not given out again.
   */
  lemma DeletedApiEffect(t: Tables, actor: int, api: int, group: int, s: string)
    requires Integrity(t) && DeleteApi(t, actor, api).0 == Done
    ensures Grants(DeleteApi(t, actor, api).1, group, s) <==> Grants(t, group, s) && !OwnScope(s, api)
    ensures api !in DeleteApi(t, actor, api).1.apis && DeleteApi(t, actor, api).1.nextApi > api
  {
    var t' := DeleteApi(t, actor, api).1;
    ScopedToIsOwn(s, api);
    DeletedApiRoles(t, t', api, group, s);
    DeletedApiRows(t, t', api, group, s);
  }

  lemma DeletedApiRoles(t: Tables, t': Tables, api: int, group: int, s: string)
    requires t'.groupRoles == t.groupRoles && t'.permissions == WithoutScoped(t.permissions, api)
    ensures GrantsByRole(t', group, s) <==> GrantsByRole(t, group, s) && !ScopedTo(s, api)
  {
    if p, r :| p in t.permissions && (group, r) in t.groupRoles && t.permissions[p] == Permission(r, s)
               && !ScopedTo(s, api) {
      assert p in t'.permissions && t'.permissions[p] == Permission(r, s);
    }
    if p, r :| p in t'.permissions && (group, r) in t'.groupRoles && t'.permissions[p] == Permission(r, s) {
      assert p in t.permissions && t.permissions[p] == Permission(r, s);
    }
  }

  lemma DeletedApiRows(t: Tables, t': Tables, api: int, group: int, s: string)
    requires Integrity(t) && api in t.apis && t'.apis == t.apis - {api} && t'.access == WithoutApi(t.access, api)
    ensures GrantsAsOwner(t', group, s) <==> GrantsAsOwner(t, group, s) && !OwnScope(s, api)
    ensures GrantsByAccess(t', group, s) <==> GrantsByAccess(t, group, s) && !OwnScope(s, api)
  {
    forall a, action: Action | 0 <= a <= MAX_INT && s == APIScope(a, action) ensures OwnScope(s, api) <==> a == api {
      PrintedScopeIsOwn(a, action, api);
    }
    if a :| a in t.apis && t.apis[a].owner == Some(group) && s == APIScope(a, Manage) && a != api {
      assert a in t'.apis && t'.apis[a].owner == Some(group);
    }
    if a :| (a, group) in t.access && s == APIScope(a, t.access[(a, group)]) && a != api {
      assert (a, group) in t'.access;
    }
  }

  /** In particular every other API keeps its scopes, also one whose number starts with the deleted one. */
  lemma OtherApisKeepScopes(t: Tables, actor: int, api: int, other: int, group: int, action: Action)
    requires Integrity(t) && DeleteApi(t, actor, api).0 == Done && 0 <= other <= MAX_INT && other != api
    ensures Grants(DeleteApi(t, actor, api).1, group, APIScope(other, action)) <==>
      Grants(t, group, APIScope(other, action))
  {
    DeletedApiEffect(t, actor, api, group, APIScope(other, action));
    PrintedScopeIsOwn(other, action, api);
  }

  lemma DeletedApiScopes(t: Tables, actor: int, api: int, group: int, action: Action)
    requires Integrity(t) && DeleteApi(t, actor, api).0 == Done
    ensures !Grants(DeleteApi(t, actor, api).1, group, APIScope(api, action))
  {
    DeletedApiEffect(t, actor, api, group, APIScope(api, action));
    PrintedScopeIsOwn(api, action, api);
  }
}
