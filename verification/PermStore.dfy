/**
 * The handlers and store methods that change the permission graph, step by step as the portal runs them
 * (backend/internal/api/admin_users.go, admin_people.go, admin_groups.go, admin_roles.go, admin_apis.go, security.go,
 * backend/internal/store/groups.go, roles.go, admin.go, apis.go).
 *
 * Every method is proved against the request function of the same name in Granting.
 */
module PermStore {
  import opened Strings
  import opened Rbac
  import opened Accounts
  import opened PermGraph
  import Granting
  import Escalation

  /** The ids in next that are not in current, in order. */
  method AddedIDs(current: seq<int>, next: seq<int>) returns (added: seq<int>)
    ensures Elements(added) == Granting.Added(Elements(current), next)
    ensures forall i, j :: 0 <= i < j < |added| && added[i] == added[j] ==>
      exists a, b :: 0 <= a < b < |next| && next[a] == next[b]
  {
    var have: set<int> := {};
    for i := 0 to |current|
      invariant have == Elements(current[..i])
    {
      have := have + {current[i]};
      ElementsSnoc(current, i);
    }
    assert current[..|current|] == current;
    added := [];
    ghost var at: seq<int> := [];
    for i := 0 to |next|
      invariant Elements(added) == Elements(next[..i]) - have
      invariant |at| == |added| && forall k :: 0 <= k < |at| ==> 0 <= at[k] < i && next[at[k]] == added[k]
      invariant forall k, l :: 0 <= k < l < |at| ==> at[k] < at[l]
    {
      ElementsSnoc(next, i);
      if next[i] !in have {
        ElementsPlus(added, next[i]);
        added := added + [next[i]];
        at := at + [i];
      }
    }
    assert next[..|next|] == next;
  }

  /** The wanted scopes the actor does not hold, in order. */
  method ScopesBeyondActor(isAdmin: bool, permissions: seq<string>, want: seq<string>) returns (missing: seq<string>)
    ensures var e := EngineOf(isAdmin, Elements(permissions));
      && (forall s :: s in missing <==> s in want && !e.Has(s))
      && (missing == [] <==> forall s :: s in Elements(want) ==> e.Has(s))
  {
    missing := [];
    if isAdmin {
      return;
    }
    var engine := New(false, permissions);
    for i := 0 to |want|
      invariant forall s :: s in missing <==> s in Elements(want[..i]) && !engine.Has(s)
    {
      if !engine.Has(want[i]) {
        missing := missing + [want[i]];
      }
      ElementsSnoc(want, i);
    }
    assert want[..|want|] == want;
    if missing != [] {
      assert missing[0] in missing;
    }
  }

  /** The rows of a query, in some order and without repetition. */
  method Rows<T(==)>(s: set<T>) returns (rows: seq<T>)
    ensures Elements(rows) == s && |rows| == |s|
  {
    rows := [];
    var rest := s;
    while rest != {}
      invariant rest <= s && Elements(rows) == s - rest && |rows| == |s| - |rest|
      decreases rest
    {
      ghost var some := Strings.Element(rest);
      var x :| x in rest;
      ElementsPlus(rows, x);
      rows := rows + [x];
      rest := rest - {x};
    }
  }

  class PermStore {
    var users: Users
    var groups: map<int, Group>
    var roles: map<int, string>
    var apis: map<int, Api>
    var userGroups: set<(int, int)>
    var groupRoles: set<(int, int)>
    var permissions: map<int, Permission>
    var access: map<(int, int), Action>
    var nextUser: int
    var nextGroup: int
    var nextRole: int
    var nextApi: int
    var nextPermission: int

    function View(): Tables
      reads this
    {
      Tables(users, groups, roles, apis, userGroups, groupRoles, permissions, access,
             nextUser, nextGroup, nextRole, nextApi, nextPermission)
    }

    constructor (t: Tables)
      ensures View() == t
    {
      users, groups, roles, apis := t.users, t.groups, t.roles, t.apis;
      userGroups, groupRoles, permissions, access := t.userGroups, t.groupRoles, t.permissions, t.access;
      nextUser, nextGroup, nextRole, nextApi, nextPermission := t.nextUser, t.nextGroup, t.nextRole, t.nextApi,
        t.nextPermission;
    }

    // ---- Queries ----

    method UserPermissions(user: int) returns (scopes: seq<string>)
      ensures Elements(scopes) == ResolvePermissions(View(), user)
    {
      scopes := Rows(ResolvePermissions(View(), user));
    }

    /** Without groups there is nothing to ask the database. */
    method GroupScopes(ids: seq<int>) returns (scopes: seq<string>)
      ensures Elements(scopes) == ScopesForGroups(View(), Elements(ids))
    {
      if |ids| == 0 {
        Escalation.NoGroupsNoScopes(View());
        return [];
      }
      scopes := Rows(ScopesForGroups(View(), Elements(ids)));
    }

    method RoleScopes(ids: seq<int>) returns (scopes: seq<string>)
      ensures Elements(scopes) == ScopesForRoles(View(), Elements(ids))
    {
      scopes := Rows(ScopesForRoles(View(), Elements(ids)));
    }

    /** Whether the actor may hand out the scopes. */
    method AllowGrant(actor: int, granted: seq<string>) returns (ok: bool)
      ensures ok <==> Granting.AllowGrant(View(), actor, Elements(granted))
    {
      if IsAdmin(View(), actor) {
        return true;
      }
      var held := UserPermissions(actor);
      var missing := ScopesBeyondActor(false, held, granted);
      ok := |missing| == 0;
    }

    method Engine(actor: int) returns (e: Engine)
      ensures e == Granting.ActorEngine(View(), actor)
    {
      var held := UserPermissions(actor);
      e := New(IsAdmin(View(), actor), held);
    }

    method MayChange(actor: int, target: int) returns (reply: Reply)
      ensures reply == Granting.MayChange(View(), actor, target)
    {
      if target !in users {
        return NotFound;
      }
      reply := if users[target].isAdmin && !IsAdmin(View(), actor) then Forbidden else Done;
    }

    // ---- Membership ----

    /** Replaces the rows in one transaction; a missing user or group rolls it back. */
    method StoreUserGroups(user: int, ids: seq<int>) returns (ok: bool)
      modifies this`userGroups
      ensures ok <==> forall g :: g in ids ==> g in groups && user in users
      ensures userGroups == if ok
        then Granting.WithoutFirst(old(userGroups), user) + Granting.Memberships(user, Elements(ids))
                            else old(userGroups)
    {
      var rows := Granting.WithoutFirst(userGroups, user);
      for i := 0 to |ids|
        invariant userGroups == old(userGroups)
        invariant forall g :: g in Elements(ids[..i]) ==> g in groups && user in users
        invariant rows == Granting.WithoutFirst(userGroups, user) + Granting.Memberships(user, Elements(ids[..i]))
      {
        ElementsSnoc(ids, i);
        MembershipsPlus(user, Elements(ids[..i]), ids[i]);
        if ids[i] !in groups || user !in users {
          OneFails(ids, ids[i], groups, user in users);
          return false;
        }
        rows := rows + {(user, ids[i])};
      }
      assert ids[..|ids|] == ids && forall x :: x in ids ==> x in Elements(ids);
      userGroups := rows;
      ok := true;
    }

    method SetUserGroups(actor: int, target: int, payload: seq<int>) returns (reply: Reply)
      modifies this
      ensures (reply, View()) == Granting.SetUserGroups(old(View()), actor, target, payload)
    {
      reply := MayChange(actor, target);
      if reply != Done {
        return;
      }
      var current := Rows(GroupIDs(View(), target));
      var added := AddedIDs(current, payload);
      var granted := GroupScopes(added);
      var allowed := AllowGrant(actor, granted);
      if !allowed {
        return Forbidden;
      }
      var ok := StoreUserGroups(target, payload);
      reply := if ok then Done else Invalid;
    }

    /** Adds the missing rows in one transaction; a missing user or group rolls it back. */
    method StoreGroupMembers(group: int, ids: seq<int>) returns (ok: bool, added: seq<int>)
      modifies this`userGroups
      ensures ok <==> forall u :: u in ids ==> (u, group) in old(userGroups) || (u in users && group in groups)
      ensures userGroups == if ok then old(userGroups) + Granting.Members(group, Elements(ids)) else old(userGroups)
      ensures ok ==> forall u :: u in added <==> u in ids && (u, group) !in old(userGroups)
    {
      added := [];
      var rows := userGroups;
      for i := 0 to |ids|
        invariant userGroups == old(userGroups) && rows == userGroups + Granting.Members(group, Elements(ids[..i]))
        invariant forall u :: u in Elements(ids[..i]) ==> (u, group) in userGroups || (u in users && group in groups)
        invariant forall u :: u in added <==> u in Elements(ids[..i]) && (u, group) !in userGroups
      {
        ElementsSnoc(ids, i);
        MembersPlus(group, Elements(ids[..i]), ids[i]);
        if (ids[i], group) !in rows {
          if ids[i] !in users || group !in groups {
            ghost var missing := ids[i];
            assert missing in ids;
            return false, added;
          }
          rows := rows + {(ids[i], group)};
          added := added + [ids[i]];
        }
      }
      assert ids[..|ids|] == ids && forall x :: x in ids ==> x in Elements(ids);
      userGroups := rows;
      ok := true;
    }

    method AddGroupMembers(actor: int, group: int, ids: seq<int>) returns (reply: Reply, added: seq<int>)
      modifies this`userGroups
      ensures (reply, View()) == Granting.AddGroupMembers(old(View()), actor, group, ids)
      ensures reply == Done ==> forall u :: u in added <==> u in ids && (u, group) !in old(userGroups)
    {
      added := [];
      if group !in groups {
        return NotFound, [];
      }
      if |ids| == 0 || |ids| > 500 {
        return Invalid, [];
      }
      for i := 0 to |ids|
        invariant Granting.MembersRefusal(View(), actor, ids[..i]) == Done && View() == old(View())
      {
        assert ids[..i + 1][..i] == ids[..i];
        reply := MayChange(actor, ids[i]);
        if reply != Done {
          FirstRefusalStays(View(), actor, ids, i + 1);
          return;
        }
      }
      assert ids[..|ids|] == ids;
      Escalation.MembersExist(View(), actor, ids);
      var granted := GroupScopes([group]);
      assert Elements([group]) == {group};
      var allowed := AllowGrant(actor, granted);
      if !allowed {
        return Forbidden, [];
      }
      var ok;
      ok, added := StoreGroupMembers(group, ids);
      reply := if ok then Done else Invalid;
    }

    method RemoveGroupMember(actor: int, group: int, user: int) returns (reply: Reply)
      modifies this`userGroups
      ensures (reply, View()) == Granting.RemoveGroupMember(old(View()), actor, group, user)
    {
      if group !in groups {
        return NotFound;
      }
      reply := MayChange(actor, user);
      if reply != Done {
        return;
      }
      if (user, group) !in userGroups {
        return NotFound;
      }
      userGroups := userGroups - {(user, group)};
    }

    /**
     * At a sign-in, in one transaction: joins and leaves the mapped groups the directory says, and reports
     * which; an insert for a user without a row rolls everything back.
     */
    method SyncDirectoryGroups(user: int, provider: Provider, memberships: seq<string>)
        returns (ok: bool, joined: seq<int>, left: seq<int>)
      modifies this`userGroups
      ensures ok <==> Granting.SyncFits(old(View()), user, provider, Elements(memberships))
      ensures View() == Granting.Sync(old(View()), user, provider, Elements(memberships))
      ensures ok ==> forall g :: g in joined <==> (user, g) !in old(userGroups) && (user, g) in userGroups
      ensures ok ==> forall g :: g in left <==> (user, g) in old(userGroups) && (user, g) !in userGroups
    {
      var rows;
      ok, rows, joined, left := SyncRows(View(), user, provider, memberships);
      if ok {
        userGroups := rows;
      }
    }

    /** The changes of one transaction; the first insert for a missing user fails. */
    static method SyncRows(t: Tables, user: int, provider: Provider, memberships: seq<string>)
        returns (ok: bool, rows: set<(int, int)>, joined: seq<int>, left: seq<int>)
      ensures ok <==> Granting.SyncFits(t, user, provider, Elements(memberships))
      ensures ok ==> rows == Granting.Sync(t, user, provider, Elements(memberships)).userGroups
      ensures ok ==> ListsTell(t.userGroups, rows, user, joined, left)
    {
      var have := GroupIDs(t, user);
      var todo := t.groups.Keys;
      ghost var names := Elements(memberships);
      rows, joined, left := t.userGroups, [], [];
      while todo != {}
        invariant todo <= t.groups.Keys
        invariant SyncedSoFar(t, rows, user, provider, names, t.groups.Keys - todo)
        invariant ListsTell(t.userGroups, rows, user, joined, left)
        invariant user in t.users || joined == []
        decreases todo
      {
        ghost var some := Strings.Element(todo);
        var g :| g in todo;
        ghost var done := t.groups.Keys - todo;
        todo := todo - {g};
        assert t.groups.Keys - todo == done + {g};
        var mapping := t.groups[g].Mapping(provider);
        if mapping == "" {
          continue;
        }
        Escalation.GroupIdsExact(t, user, g);
        var member := IsMember(memberships, mapping);
        ListsTellOneMore(t.userGroups, rows, user, g, member, joined, left);
        SyncedOneMore(t, rows, user, provider, names, done, g, member);
        if member && g !in have {
          if user !in t.users {
            NewRowMissing(t, user, provider, names, g);
            return false, rows, joined, left;
          }
          rows := rows + {(user, g)};
          joined := joined + [g];
        } else if !member && g in have {
          rows := rows - {(user, g)};
          left := left + [g];
        }
      }
      SyncDone(t, rows, user, provider, names, joined, left);
      ok := true;
    }

    static method IsMember(memberships: seq<string>, mapping: string) returns (member: bool)
      ensures member <==> MemberOf(Elements(memberships), mapping)
    {
      for i := 0 to |memberships|
        invariant forall k :: 0 <= k < i ==> !SameName(memberships[k], mapping)
      {
        if SameName(memberships[i], mapping) {
          assert memberships[i] in Elements(memberships);
          return true;
        }
      }
      member := false;
    }

    // ---- Groups ----

    method CreateGroup(name: string, azure: string, ldap: string) returns (reply: Reply)
      modifies this
      ensures (reply, View()) == Granting.CreateGroup(old(View()), name, azure, ldap)
    {
      var trimmed := TrimSpace(name);
      if trimmed == "" || Granting.GroupNameTaken(View(), trimmed, {}) {
        return Invalid;
      }
      groups := groups[nextGroup := Group(trimmed, TrimSpace(azure), TrimSpace(ldap))];
      nextGroup := nextGroup + 1;
      reply := Done;
    }

    method UpdateGroup(actor: int, group: int, name: string, azure: string, ldap: string) returns (reply: Reply)
      modifies this
      ensures (reply, View()) == Granting.UpdateGroup(old(View()), actor, group, name, azure, ldap)
    {
      if group !in groups {
        return NotFound;
      }
      var trimmed := TrimSpace(name);
      if trimmed == "" {
        return Invalid;
      }
      var before := groups[group];
      if TrimSpace(azure) != before.azure || TrimSpace(ldap) != before.ldap {
        var granted := GroupScopes([group]);
        assert Elements([group]) == {group};
        var allowed := AllowGrant(actor, granted);
        if !allowed {
          return Forbidden;
        }
      }
      if Granting.GroupNameTaken(View(), trimmed, {group}) {
        return Invalid;
      }
      groups := groups[group := Group(trimmed, TrimSpace(azure), TrimSpace(ldap))];
      reply := Done;
    }

    method DeleteGroup(group: int)
      modifies this
      ensures View() == Granting.DeleteGroup(old(View()), group)
    {
      groupRoles := Granting.WithoutFirst(groupRoles, group);
      userGroups := Granting.WithoutSecond(userGroups, group);
      groups := groups - {group};
      apis := Granting.WithoutOwner(apis, group);
      access := Granting.WithoutGroup(access, group);
    }

    method StoreGroupRoles(group: int, ids: seq<int>) returns (ok: bool)
      modifies this`groupRoles
      ensures ok <==> forall r :: r in ids ==> r in roles && group in groups
      ensures groupRoles == if ok
        then Granting.WithoutFirst(old(groupRoles), group) + Granting.Memberships(group, Elements(ids))
                            else old(groupRoles)
    {
      var rows := Granting.WithoutFirst(groupRoles, group);
      for i := 0 to |ids|
        invariant groupRoles == old(groupRoles)
        invariant forall r :: r in Elements(ids[..i]) ==> r in roles && group in groups
        invariant rows == Granting.WithoutFirst(groupRoles, group) + Granting.Memberships(group, Elements(ids[..i]))
      {
        ElementsSnoc(ids, i);
        MembershipsPlus(group, Elements(ids[..i]), ids[i]);
        if ids[i] !in roles || group !in groups {
          OneFails(ids, ids[i], roles, group in groups);
          return false;
        }
        rows := rows + {(group, ids[i])};
      }
      assert ids[..|ids|] == ids && forall x :: x in ids ==> x in Elements(ids);
      groupRoles := rows;
      ok := true;
    }

    method SetGroupRoles(actor: int, group: int, payload: seq<int>) returns (reply: Reply)
      modifies this`groupRoles
      ensures (reply, View()) == Granting.SetGroupRoles(old(View()), actor, group, payload)
    {
      var current := Rows(RoleIDs(View(), group));
      var added := AddedIDs(current, payload);
      var granted := RoleScopes(added);
      var allowed := AllowGrant(actor, granted);
      if !allowed {
        return Forbidden;
      }
      var ok := StoreGroupRoles(group, payload);
      reply := if ok then Done else Invalid;
    }

    // ---- Roles ----

    method CreateRole(name: string) returns (reply: Reply)
      modifies this
      ensures (reply, View()) == Granting.CreateRole(old(View()), name)
    {
      if Granting.RoleNameTaken(View(), name, {}) {
        return Invalid;
      }
      roles := roles[nextRole := name];
      nextRole := nextRole + 1;
      reply := Done;
    }

    method DeleteRole(role: int)
      modifies this
      ensures View() == Granting.DeleteRole(old(View()), role)
    {
      permissions := Granting.WithoutRole(permissions, role);
      groupRoles := Granting.WithoutSecond(groupRoles, role);
      roles := roles - {role};
    }

    method AddRolePermission(actor: int, role: int, scope: string) returns (reply: Reply)
      modifies this
      ensures (reply, View()) == Granting.AddRolePermission(old(View()), actor, role, scope)
    {
      var s := Normalize(scope);
      if !ValidScope(s) {
        return Invalid;
      }
      var allowed := AllowGrant(actor, [s]);
      assert Elements([s]) == {s};
      if !allowed {
        return Forbidden;
      }
      if role !in roles {
        return Invalid;
      }
      permissions := permissions[nextPermission := Permission(role, Lower(s))];
      nextPermission := nextPermission + 1;
      reply := Done;
    }

    /** Replaces the rows in one transaction, skipping blank and repeated scopes; a missing role rolls it back. */
    method StoreRolePermissions(role: int, scopes: seq<string>) returns (ok: bool)
      modifies this`permissions, this`nextPermission
      ensures ok <==> role in roles || forall i :: 0 <= i < |scopes| ==> Granting.Cleaned(scopes[i]) == ""
      ensures (permissions, nextPermission) ==
        if ok then Granting.InsertScopes(Granting.WithoutRole(old(permissions), role), old(nextPermission), role,
          scopes)
        else (old(permissions), old(nextPermission))
    {
      var rows, next;
      ok, rows, next := InsertScopes(Granting.WithoutRole(permissions, role), nextPermission, role, role in roles,
        scopes);
      if ok {
        permissions, nextPermission := rows, next;
      }
    }

    /** The inserts of one transaction; the first into a missing role fails. */
    static method InsertScopes(kept: map<int, Permission>, first: int, role: int, found: bool, scopes: seq<string>)
        returns (ok: bool, rows: map<int, Permission>, next: int)
      ensures ok <==> found || forall i :: 0 <= i < |scopes| ==> Granting.Cleaned(scopes[i]) == ""
      ensures ok ==> (rows, next) == Granting.InsertScopes(kept, first, role, scopes)
    {
      rows, next := kept, first;
      var seen: set<string> := {};
      for i := 0 to |scopes|
        invariant (rows, next) == Granting.InsertScopes(kept, first, role, scopes[..i])
        invariant SeenExactly(scopes[..i], seen)
        invariant found || forall k :: 0 <= k < i ==> Granting.Cleaned(scopes[k]) == ""
      {
        InsertStep(kept, first, role, scopes, i, seen, rows, next);
        var scope := Granting.Cleaned(scopes[i]);
        if scope != "" && scope !in seen {
          if !found {
            return false, rows, next;
          }
          seen := seen + {scope};
          rows := rows[next := Permission(role, scope)];
          next := next + 1;
        }
      }
      assert scopes[..|scopes|] == scopes;
      ok := true;
    }

    /** Normalizes the payload in place and stops at the first unknown scope. */
    static method NormalizeAll(payload: seq<string>) returns (ok: bool, scopes: seq<string>)
      ensures ok <==> forall i :: 0 <= i < |payload| ==> ValidScope(Normalize(payload[i]))
      ensures ok ==> scopes == Granting.NormalizedAll(payload)
    {
      scopes := payload;
      for i := 0 to |payload|
        invariant |scopes| == |payload|
        invariant forall k :: 0 <= k < |payload| ==> scopes[k] == if k < i then Normalize(payload[k]) else payload[k]
        invariant forall k :: 0 <= k < i ==> ValidScope(Normalize(payload[k]))
      {
        scopes := scopes[i := Normalize(scopes[i])];
        if !ValidScope(scopes[i]) {
          return false, scopes;
        }
      }
      ok := true;
    }

    method ReplaceRolePermissions(actor: int, role: int, payload: seq<string>) returns (reply: Reply)
      modifies this`permissions, this`nextPermission
      ensures (reply, View()) == Granting.ReplaceRolePermissions(old(View()), actor, role, payload)
    {
      var known, scopes := NormalizeAll(payload);
      assert forall i :: 0 <= i < |payload| ==> Granting.NormalizedAll(payload)[i] == Normalize(payload[i]);
      if !known {
        return Invalid;
      }
      var added := NewScopes(role, scopes);
      var allowed := AllowGrant(actor, added);
      if !allowed {
        return Forbidden;
      }
      var ok := StoreRolePermissions(role, scopes);
      reply := if ok then Done else Invalid;
    }

    method NewScopes(role: int, scopes: seq<string>) returns (added: seq<string>)
      ensures Elements(added) == Granting.AddedScopes(View(), role, scopes)
    {
      var existing := Rows(set p | p in permissions && permissions[p].role == role);
      var have: set<string> := {};
      for i := 0 to |existing|
        invariant have == NormalScopes(permissions, Elements(existing[..i]))
      {
        ElementsSnoc(existing, i);
        assert existing[i] in Elements(existing);
        NormalScopesPlus(permissions, Elements(existing[..i]), existing[i]);
        have := have + {Normalize(permissions[existing[i]].scope)};
      }
      assert existing[..|existing|] == existing;
      assert have == set p | p in permissions && permissions[p].role == role :: Normalize(permissions[p].scope);
      added := [];
      for i := 0 to |scopes|
        invariant Elements(added) == Elements(scopes[..i]) - have
      {
        ElementsSnoc(scopes, i);
        if scopes[i] !in have {
          ElementsPlus(added, scopes[i]);
          added := added + [scopes[i]];
        }
      }
      assert scopes[..|scopes|] == scopes;
    }

    // ---- APIs ----

    method CreateApi(actor: int, slug: string, owner: Option<int>) returns (reply: Reply)
      modifies this
      ensures (reply, View()) == Granting.CreateApi(old(View()), actor, slug, owner)
    {
      var trimmed := TrimSpace(slug);
      if trimmed == "" || (owner.Some? && owner.value !in groups) {
        return Invalid;
      }
      var engine := Engine(actor);
      if owner.Some? && !engine.ManagesAllAPIs() {
        return Forbidden;
      }
      var ok := InsertApi(trimmed, owner);
      reply := if ok then Done else Invalid;
    }

    /** Inserts the row unless the slug is taken or the ids are used up. */
    method InsertApi(slug: string, owner: Option<int>) returns (ok: bool)
      modifies this`apis, this`nextApi
      ensures ok <==> !Granting.SlugTaken(old(View()), slug, {}) && old(nextApi) <= MAX_INT
      ensures (apis, nextApi) == if ok then (old(apis)[old(nextApi) := Api(slug, owner)], old(nextApi) + 1)
        else (old(apis), old(nextApi))
    {
      ok := !Granting.SlugTaken(View(), slug, {}) && nextApi <= MAX_INT;
      if ok {
        apis := apis[nextApi := Api(slug, owner)];
        nextApi := nextApi + 1;
      }
    }

    method UpdateApi(actor: int, api: int, slug: string, owner: Option<int>) returns (reply: Reply)
      modifies this
      ensures (reply, View()) == Granting.UpdateApi(old(View()), actor, api, slug, owner)
    {
      var engine := Engine(actor);
      if !engine.CanManageAPI(api) {
        return Forbidden;
      }
      if api !in apis {
        return NotFound;
      }
      var before := apis[api];
      var trimmed := TrimSpace(slug);
      if trimmed == "" || (owner.Some? && owner.value !in groups) {
        return Invalid;
      }
      if owner != before.owner && !engine.ManagesAllAPIs() {
        return Forbidden;
      }
      if Granting.SlugTaken(View(), trimmed, {api}) {
        return Invalid;
      }
      apis := apis[api := Api(trimmed, owner)];
      reply := Done;
    }

    method DeleteApi(actor: int, api: int) returns (reply: Reply)
      modifies this
      ensures (reply, View()) == Granting.DeleteApi(old(View()), actor, api)
    {
      var engine := Engine(actor);
      if !engine.CanDeleteAPI(api) {
        return Forbidden;
      }
      if api !in apis {
        return NotFound;
      }
      permissions := Granting.WithoutScoped(permissions, api);
      apis := apis - {api};
      access := Granting.WithoutApi(access, api);
      reply := Done;
    }

    /** Replaces the rows in one transaction; an unknown level or a missing API or group rolls it back. */
    method StoreApiAccess(api: int, rows: seq<(int, string)>) returns (ok: bool)
      modifies this`access
      ensures ok <==> forall i :: 0 <= i < |rows| ==> Granting.Level(rows[i].1) && rows[i].0 in groups && api in apis
      ensures access == if ok then Granting.InsertAccess(Granting.WithoutApi(old(access), api), api, rows)
                        else old(access)
    {
      var left := Granting.WithoutApi(access, api);
      for i := 0 to |rows|
        invariant left == Granting.InsertAccess(Granting.WithoutApi(access, api), api, rows[..i])
        invariant forall k :: 0 <= k < i ==> Granting.Level(rows[k].1) && rows[k].0 in groups && api in apis
        invariant access == old(access)
      {
        assert rows[..i + 1][..i] == rows[..i];
        if !Granting.Level(rows[i].1) || rows[i].0 !in groups || api !in apis {
          return false;
        }
        left := left[(api, rows[i].0) := Granting.LevelAction(rows[i].1)];
      }
      assert rows[..|rows|] == rows;
      access := left;
      ok := true;
    }

    /** Whether every row names a known level and an existing group. */
    method ValidAccess(rows: seq<(int, string)>) returns (ok: bool)
      ensures ok <==> forall i :: 0 <= i < |rows| ==> Granting.Level(rows[i].1) && rows[i].0 in groups
    {
      for i := 0 to |rows|
        invariant forall k :: 0 <= k < i ==> Granting.Level(rows[k].1) && rows[k].0 in groups
      {
        if !Granting.Level(rows[i].1) || rows[i].0 !in groups {
          return false;
        }
      }
      ok := true;
    }

    method SetApiAccess(actor: int, api: int, rows: seq<(int, string)>) returns (reply: Reply)
      modifies this`access
      ensures (reply, View()) == Granting.SetApiAccess(old(View()), actor, api, rows)
    {
      var engine := Engine(actor);
      if !engine.CanManageAPI(api) {
        return Forbidden;
      }
      if api !in apis {
        return NotFound;
      }
      var valid := ValidAccess(rows);
      if !valid {
        return Invalid;
      }
      var ok := StoreApiAccess(api, rows);
      reply := if ok then Done else Invalid;
    }
  }

  lemma {:induction false} FirstRefusalStays(t: Tables, actor: int, ids: seq<int>, i: nat)
    requires i <= |ids| && Granting.MembersRefusal(t, actor, ids[..i]) != Done
    ensures Granting.MembersRefusal(t, actor, ids) == Granting.MembersRefusal(t, actor, ids[..i])
    decreases |ids|
  {
    if i == |ids| {
      assert ids[..i] == ids;
    } else {
      var init := ids[..|ids| - 1];
      assert init[..i] == ids[..i];
      FirstRefusalStays(t, actor, init, i);
    }
  }

  lemma OneFails<V>(ids: seq<int>, id: int, table: map<int, V>, other: bool)
    requires id in ids && !(id in table && other)
    ensures !(forall x :: x in ids ==> x in table && other)
  {}

  ghost function NormalScopes(permissions: map<int, Permission>, ids: set<int>): set<string> {
    set p | p in ids && p in permissions :: Normalize(permissions[p].scope)
  }

  lemma NormalScopesPlus(permissions: map<int, Permission>, ids: set<int>, p: int)
    requires p in permissions
    ensures NormalScopes(permissions, ids + {p}) == NormalScopes(permissions, ids) + {Normalize(permissions[p].scope)}
  {}

  lemma MembershipsPlus(user: int, groups: set<int>, g: int)
    ensures Granting.Memberships(user, groups + {g}) == Granting.Memberships(user, groups) + {(user, g)}
  {}

  lemma MembersPlus(group: int, users: set<int>, u: int)
    ensures Granting.Members(group, users + {u}) == Granting.Members(group, users) + {(u, group)}
  {}

  ghost predicate SeenExactly(scopes: seq<string>, seen: set<string>) {
    forall s :: s in seen <==> s != "" && Granting.Seen(scopes, s)
  }

  lemma InsertStep(kept: map<int, Permission>, first: int, role: int, scopes: seq<string>, i: nat, seen: set<string>,
                   rows: map<int, Permission>, next: int)
    requires i < |scopes| && SeenExactly(scopes[..i], seen)
    requires (rows, next) == Granting.InsertScopes(kept, first, role, scopes[..i])
    ensures var scope := Granting.Cleaned(scopes[i]);
      if scope == "" || scope in seen then
        SeenExactly(scopes[..i + 1], seen) && Granting.InsertScopes(kept, first, role, scopes[..i + 1]) == (rows, next)
      else
        SeenExactly(scopes[..i + 1], seen + {scope}) &&
        Granting.InsertScopes(kept, first, role, scopes[..i + 1]) == (rows[next := Permission(role, scope)], next + 1)
  {
    var longer := scopes[..i + 1];
    assert longer[..i] == scopes[..i];
    forall s ensures Granting.Seen(longer, s) <==> Granting.Seen(scopes[..i], s) || s == Granting.Cleaned(scopes[i]) {
      Escalation.SeenSplits(longer, s);
    }
  }

  /** The rows of the groups done so far mirror the memberships, all other rows are as before. */
  ghost predicate SyncedSoFar(t: Tables, rows: set<(int, int)>, user: int, p: Provider, memberships: set<string>,
                              done: set<int>) {
    forall u, g :: (u, g) in rows <==>
      if u == user && g in done && g in t.groups && t.groups[g].Mapping(p) != ""
        then MemberOf(memberships, t.groups[g].Mapping(p))
      else (u, g) in t.userGroups
  }

  /** The lists name exactly the groups the user joined or left. */
  ghost predicate ListsTell(before: set<(int, int)>, after: set<(int, int)>, user: int, joined: seq<int>,
                            left: seq<int>) {
    && (forall g :: g in joined <==> (user, g) !in before && (user, g) in after)
    && (forall g :: g in left <==> (user, g) in before && (user, g) !in after)
  }

  /** The rows with the membership brought in line. */
  ghost function Changed(rows: set<(int, int)>, user: int, group: int, member: bool): set<(int, int)> {
    if member == ((user, group) in rows) then rows
    else if member then rows + {(user, group)}
    else rows - {(user, group)}
  }

  lemma ListsTellOneMore(before: set<(int, int)>, rows: set<(int, int)>, user: int, g: int, member: bool,
                         joined: seq<int>, left: seq<int>)
    requires ListsTell(before, rows, user, joined, left) && ((user, g) in rows <==> (user, g) in before)
    ensures var after := Changed(rows, user, g, member);
      if member && (user, g) !in rows then ListsTell(before, after, user, joined + [g], left)
      else if !member && (user, g) in rows then ListsTell(before, after, user, joined, left + [g])
      else ListsTell(before, after, user, joined, left)
  {}

  lemma SyncedOneMore(t: Tables, rows: set<(int, int)>, user: int, p: Provider, memberships: set<string>,
                      done: set<int>, g: int, member: bool)
    requires SyncedSoFar(t, rows, user, p, memberships, done) && g in t.groups
    requires t.groups[g].Mapping(p) != "" && (member <==> MemberOf(memberships, t.groups[g].Mapping(p)))
    ensures SyncedSoFar(t, Changed(rows, user, g, member), user, p, memberships, done + {g})
  {}

  lemma NewRowMissing(t: Tables, user: int, p: Provider, memberships: set<string>, g: int)
    requires user !in t.users && g in t.groups && (user, g) !in t.userGroups
    requires t.groups[g].Mapping(p) != "" && MemberOf(memberships, t.groups[g].Mapping(p))
    ensures !Granting.SyncFits(t, user, p, memberships)
  {
    assert g in Granting.DirectoryGroups(t, p, memberships);
  }

  lemma SyncDone(t: Tables, rows: set<(int, int)>, user: int, p: Provider, memberships: set<string>,
                 joined: seq<int>, left: seq<int>)
    requires SyncedSoFar(t, rows, user, p, memberships, t.groups.Keys)
    requires ListsTell(t.userGroups, rows, user, joined, left) && (user in t.users || joined == [])
    ensures Granting.SyncFits(t, user, p, memberships)
    ensures rows == Granting.Sync(t, user, p, memberships).userGroups
  {
    forall g | g in Granting.DirectoryGroups(t, p, memberships) ensures user in t.users || (user, g) in t.userGroups {
      assert (user, g) in rows;
    }
    forall x ensures x in rows <==> x in Granting.Sync(t, user, p, memberships).userGroups {
      assert x == (x.0, x.1);
      SyncExact(t, user, p, memberships, x.0, x.1);
    }
  }

  lemma SyncExact(t: Tables, user: int, p: Provider, memberships: set<string>, u: int, g: int)
    requires Granting.SyncFits(t, user, p, memberships)
    ensures (u, g) in Granting.Sync(t, user, p, memberships).userGroups <==>
      if u == user && g in t.groups && t.groups[g].Mapping(p) != "" then MemberOf(memberships, t.groups[g].Mapping(p))
      else (u, g) in t.userGroups
  {}
}
