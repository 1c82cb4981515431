/**
 * Accounts and sessions as the portal changes them, row by row
 * (backend/internal/api/admin_users.go, admin_people.go, session.go, sessions_handlers.go, auth_handlers.go,
 * backend/internal/store/users.go, sessions.go). Each method is proved against its step in Portal.
 */
module PortalStore {
  import opened Strings
  import opened Accounts
  import Identity
  import Portal

  /** What the session check tells a request: go on, sign in again, or change the password first. */
  datatype Answer = Accepted | SignInAgain | PasswordDue

  class PortalStore {
    const timeouts: Portal.Timeouts
    var users: Users
    var nextUser: int
    var sessions: map<int, Portal.Session>
    var nextSession: int

    function View(): Portal.State
      reads this
    {
      Portal.State(users, nextUser, sessions, nextSession)
    }

    constructor (timeouts: Portal.Timeouts, p: Portal.State)
      ensures View() == p && this.timeouts == timeouts
    {
      this.timeouts := timeouts;
      users, nextUser, sessions, nextSession := p.users, p.nextUser, p.sessions, p.nextSession;
    }

    predicate Admin(user: int)
      reads this
    {
      user in users && users[user].isAdmin
    }

    // ---- Accounts ----

    method CountActiveAdmins() returns (count: nat)
      ensures count == |ActiveAdmins(users)|
    {
      var admins := set id | id in users && users[id].isAdmin && users[id].isActive;
      assert admins == ActiveAdmins(users);
      count := |admins|;
    }

    /** Whether the account-safety rules refuse the change; the administrators are counted only when it matters. */
    method ChangeProblem(actor: int, target: int, remainAdmin: bool, remainActive: bool) returns (problem: bool)
      requires target in users
      ensures problem <==> AdminChangeProblem(users, actor, target, remainAdmin, remainActive)
    {
      if target == actor {
        if !remainActive || (users[target].isAdmin && !remainAdmin) {
          return true;
        }
      }
      if users[target].isAdmin && users[target].isActive && (!remainAdmin || !remainActive) {
        var count := CountActiveAdmins();
        return count <= 1;
      }
      problem := false;
    }

    method UpdateUser(now: int, actor: int, target: int, change: Change, newPassword: bool) returns (reply: Reply)
      modifies this
      ensures (reply, View()) == Portal.DoUpdate(old(View()), now, actor, target, change, newPassword)
    {
      if target !in users {
        return NotFound;
      }
      var before := users[target];
      var name, email := TrimSpace(change.username), change.email;
      if before.source != Local {
        name, email := before.username, before.email;
      }
      if name == "" {
        return Invalid;
      }
      if (before.isAdmin || change.isAdmin) && !Admin(actor) {
        return Forbidden;
      }
      var problem := ChangeProblem(actor, target, change.isAdmin, change.isActive);
      if problem {
        return Conflict;
      }
      if newPassword && before.source != Local {
        return Invalid;
      }
      if exists id :: id in users && id != target && users[id].username == name {
        assert NameTaken(users, name, {target});
        return Invalid;
      }
      assert !NameTaken(users, name, {target});
      users := users[target := before.(username := name, email := email,
                                       isActive := change.isActive, isAdmin := change.isAdmin)];
      if (before.isActive && !change.isActive) || (before.isAdmin && !change.isAdmin) || newPassword {
        var _ := RevokeUserSessions(target, 0, now);
      }
      reply := Done;
    }

    method DeleteUser(actor: int, target: int) returns (reply: Reply)
      modifies this
      ensures (reply, View()) == Portal.DoDelete(old(View()), actor, target)
    {
      if target !in users {
        return NotFound;
      }
      if users[target].isAdmin && !Admin(actor) {
        return Forbidden;
      }
      var problem := ChangeProblem(actor, target, false, false);
      if problem {
        return Conflict;
      }
      users := users - {target};
      sessions := map id | id in sessions && sessions[id].user != target :: sessions[id];
      reply := Done;
    }

    /** The rows changed, in order; rows already in that state are left out. */
    method SetUsersActive(ids: seq<int>, active: bool) returns (changed: seq<int>)
      modifies this`users
      ensures users == SetActive(old(users), ids, active)
      ensures forall id :: id in changed <==> id in ids && id in old(users) && old(users)[id].isActive != active
    {
      changed := [];
      for i := 0 to |ids|
        invariant users == SetActive(old(users), ids[..i], active)
        invariant forall id :: id in changed <==>
          id in Elements(ids[..i]) && id in old(users) && old(users)[id].isActive != active
      {
        ElementsSnoc(ids, i);
        SetActivePlus(old(users), ids, i, active);
        if ids[i] in users && users[ids[i]].isActive != active {
          users := users[ids[i] := users[ids[i]].(isActive := active)];
          changed := changed + [ids[i]];
        }
      }
      assert ids[..|ids|] == ids;
    }

    method BulkStatus(now: int, actor: int, ids: seq<int>, active: bool) returns (reply: Reply, changed: seq<int>)
      modifies this
      ensures (reply, View()) == Portal.DoBulk(old(View()), now, actor, ids, active)
    {
      changed := [];
      if |ids| == 0 || |ids| > 500 {
        return Invalid, [];
      }
      var leaving: int := 0;
      for i := 0 to |ids|
        invariant View() == old(View()) && leaving == if active then 0 else Leaving(users, ids[..i])
        invariant BulkRefusal(users, actor, Admin(actor), ids[..i], active) == Done
      {
        assert ids[..i + 1][..i] == ids[..i];
        var id := ids[i];
        reply := Refusal(actor, id, active);
        if reply != Done {
          BulkRefusalStays(users, actor, Admin(actor), ids, active, i + 1);
          return;
        }
        if !active && users[id].isAdmin && users[id].isActive {
          leaving := leaving + 1;
        }
      }
      assert ids[..|ids|] == ids;
      if leaving > 0 {
        var count: int := CountActiveAdmins();
        if count - leaving < 1 {
          return Conflict, [];
        }
      }
      assert users == old(users) && sessions == old(sessions);
      changed := SetUsersActive(ids, active);
      ghost var wanted := set id | id in ids && id in old(users) && old(users)[id].isActive != active;
      assert forall id :: id in wanted <==> id in changed;
      assert Elements(changed) == wanted;
      if !active {
        RevokeAllOf(changed, now);
      }
      reply := Done;
    }

    /** The reply to one listed account. */
    method Refusal(actor: int, id: int, active: bool) returns (reply: Reply)
      ensures reply == if id !in users then NotFound
                       else if users[id].isAdmin && !Admin(actor) then Forbidden
                       else if !active && id == actor then Conflict
                       else Done
    {
      if id !in users {
        return NotFound;
      }
      if users[id].isAdmin && !Admin(actor) {
        return Forbidden;
      }
      reply := if !active && id == actor then Conflict else Done;
    }

    /** One upsert per directory entry; accounts of another source are skipped. */
    method ImportLDAPUsers(rows: seq<(string, string)>) returns (skipped: seq<string>)
      requires UniqueNames(users) && forall id :: id in users ==> id < nextUser
      modifies this`users, this`nextUser
      ensures (users, nextUser) == Portal.ImportRows(old(users), old(nextUser), rows)
      ensures skipped == Skipped(old(users), rows)
    {
      skipped := [];
      for i := 0 to |rows|
        invariant (users, nextUser) == Portal.ImportRows(old(users), old(nextUser), rows[..i])
        invariant UniqueNames(users) && forall id :: id in users ==> id < nextUser
        invariant skipped == Skipped(old(users), rows[..i])
      {
        ForeignNamesStay(old(users), old(nextUser), rows[..i], rows[i].0);
        assert rows[..i + 1][..i] == rows[..i];
        var (name, email) := rows[i];
        var row := FindByName(name);
        if row.None? {
          users := users[nextUser := User(name, email, Ldap, true, false, "")];
          nextUser := nextUser + 1;
        } else if users[row.value].source == Ldap {
          RefreshOne(users, row.value, name, email);
          users := users[row.value := users[row.value].(email := email)];
        } else {
          RefreshNone(users, row.value, name, email);
          skipped := skipped + [name];
        }
      }
      assert rows[..|rows|] == rows;
    }

    method FindByName(name: string) returns (row: Option<int>)
      ensures row.None? <==> !NameTaken(users, name, {})
      ensures row.Some? ==> row.value in users && users[row.value].username == name
    {
      var todo := users.Keys;
      while todo != {}
        invariant todo <= users.Keys && forall id :: id in users && id !in todo ==> users[id].username != name
        decreases todo
      {
        ghost var some := Strings.Element(todo);
        var id :| id in todo;
        if users[id].username == name {
          return Some(id);
        }
        todo := todo - {id};
      }
      row := None;
    }

    /** The name itself, or the first free name-N for N from 2, or the name with the Unix time. */
    method UniqueUsername(base: string, now: nat) returns (name: string)
      ensures name == Identity.UniqueUsername(users, base, now)
    {
      var row := FindByName(base);
      if row.None? {
        return base;
      }
      for i := 2 to 1000
        invariant Identity.FreeNumbered(users, base, 2, now) == Identity.FreeNumbered(users, base, i, now)
      {
        name := base + "-" + Digits(i);
        row := FindByName(name);
        if row.None? {
          return;
        }
      }
      name := base + "-" + Digits(now);
    }

    /** Scans at most 20 rows and keeps the account only when it is the only one. */
    method UniqueUnbound(order: seq<int>, where: User -> bool, keep: User -> bool) returns (row: Option<int>)
      ensures row == Identity.UniqueUnbound(users, order, where, keep)
    {
      var rows := Identity.Rows(users, order, Identity.UnboundAnd(where));
      if |rows| > 20 {
        rows := rows[..20];
      }
      var found := Kept(rows, keep);
      row := if |found| == 1 then Some(found[0]) else None;
    }

    method Kept(rows: seq<int>, keep: User -> bool) returns (found: seq<int>)
      ensures found == Identity.Rows(users, rows, keep)
    {
      found := [];
      ghost var want := Identity.Rows(users, rows, keep);
      assert rows[0..] == rows;
      for i := 0 to |rows|
        invariant found + Identity.Rows(users, rows[i..], keep) == want
      {
        var rest := rows[i..];
        assert rest[0] == rows[i] && rest[1..] == rows[i + 1..];
        if rows[i] in users && keep(users[rows[i]]) {
          assert Identity.Rows(users, rest, keep) == [rows[i]] + Identity.Rows(users, rows[i + 1..], keep);
          found := found + [rows[i]];
        } else {
          assert Identity.Rows(users, rest, keep) == Identity.Rows(users, rows[i + 1..], keep);
        }
      }
    }

    /** Finds, binds or creates the account of a Microsoft sign-in. */
    method UserForAzureLogin(order: seq<int>, login: Identity.Login, now: nat) returns (row: Option<int>)
      requires nextUser !in users
      modifies this`users, this`nextUser
      ensures (row, users) == Identity.AzureAccount(old(users), order, login, old(nextUser), now)
      ensures nextUser == if old(nextUser) in users then old(nextUser) + 1 else old(nextUser)
    {
      row := Identity.FindBound(users, order, login.externalId);
      if row.Some? {
        return;
      }
      row := GetUnbound(order, login.email, Identity.Sanitize(login.username));
      if row.Some? && row.value in users {
        users := users[row.value := users[row.value].(externalId := login.externalId)];
        return;
      }
      var base := Identity.Sanitize(login.username);
      if base == "" {
        base := Identity.Sanitize(login.email);
      }
      if base == "" {
        base := "azure-user";
      }
      var name := UniqueUsername(base, now);
      var taken := FindByName(name);
      if taken.Some? {
        return None;
      }
      row := Some(nextUser);
      users := users[nextUser := User(name, login.email, AzureAD, true, false, login.externalId)];
      nextUser := nextUser + 1;
    }

    method GetUnbound(order: seq<int>, email: string, name: string) returns (row: Option<int>)
      ensures row == Identity.FindUnbound(users, order, email, name)
    {
      if name != "" {
        var exact := Identity.Rows(users, order, Identity.UnboundAnd(Identity.NameIs(name)));
        if |exact| > 0 {
          return Some(exact[0]);
        }
        row := UniqueUnbound(order, Identity.SuffixFilter(name), Identity.SuffixKeep(name));
        if row.Some? {
          return;
        }
      }
      if email == "" {
        return None;
      }
      row := UniqueUnbound(order, Identity.EmailFilter(email), Identity.AnyUser());
    }

    // ---- Sessions ----

    method StartSession(user: int, now: int) returns (id: int)
      modifies this`sessions, this`nextSession
      ensures View() == Portal.StartSession(timeouts, old(View()), now, user)
      ensures id == old(nextSession)
    {
      id := nextSession;
      sessions := sessions[id := Portal.Session(user, now, now + timeouts.max, None)];
      nextSession := nextSession + 1;
    }

    /**
     * The session check of a request: ends the sessions of dead accounts and notes the use at most once
     * a minute. mustChange is the flag of the account's row; exempt requests are allowed before the change.
     */
    method RequireSession(id: int, now: int, mustChange: bool, exempt: bool) returns (answer: Answer)
      modifies this`sessions
      ensures answer.SignInAgain? <==> !Portal.Accepts(timeouts, old(View()), now, id)
      ensures answer.PasswordDue? <==> Portal.Accepts(timeouts, old(View()), now, id) && mustChange && !exempt
                                       && users[old(sessions)[id].user].source == Local
      ensures View() == Portal.UseSession(timeouts, old(View()), now, id)
    {
      if id !in sessions {
        return SignInAgain;
      }
      var session := sessions[id];
      if session.revokedAt.Some? || session.expiresAt <= now || now - session.lastUsedAt > timeouts.idle {
        return SignInAgain;
      }
      if session.user !in users || !users[session.user].isActive {
        sessions := sessions[id := session.(revokedAt := Some(now))];
        return SignInAgain;
      }
      if now - session.lastUsedAt > Portal.MINUTE {
        sessions := sessions[id := session.(lastUsedAt := now)];
      }
      answer := if mustChange && users[session.user].source == Local && !exempt then PasswordDue else Accepted;
    }

    method RevokeSession(id: int, now: int)
      modifies this`sessions
      ensures sessions == Portal.RevokeSession(old(sessions), id, now)
    {
      if id in sessions && sessions[id].revokedAt.None? {
        sessions := sessions[id := sessions[id].(revokedAt := Some(now))];
      }
    }

    /** Revokes what is open, apart from one session; n counts the rows it changed. */
    method RevokeUserSessions(user: int, except: int, now: int) returns (n: nat)
      modifies this`sessions
      ensures sessions == Portal.RevokeSessionsOf(old(sessions), {user}, except, now)
      ensures n == |set id | id in old(sessions) && old(sessions)[id].user == user && id != except
        && old(sessions)[id].revokedAt.None?|
    {
      var ended := set id | id in sessions && sessions[id].user == user && id != except && sessions[id].revokedAt.None?;
      n := |ended|;
      sessions := map id | id in sessions ::
        if id in ended then sessions[id].(revokedAt := Some(now)) else sessions[id];
    }

    method RevokeAllOf(ids: seq<int>, now: int)
      modifies this`sessions
      ensures sessions == Portal.RevokeSessionsOf(old(sessions), Elements(ids), 0, now)
    {
      RevokeNobody(sessions, now);
      for i := 0 to |ids|
        invariant sessions == Portal.RevokeSessionsOf(old(sessions), Elements(ids[..i]), 0, now)
      {
        ElementsSnoc(ids, i);
        RevokePlus(old(sessions), Elements(ids[..i]), ids[i], now);
        var _ := RevokeUserSessions(ids[i], 0, now);
      }
      assert ids[..|ids|] == ids;
    }

    method PurgeSessions(cutoff: int)
      modifies this`sessions
      ensures sessions == Portal.PurgeSessions(old(sessions), cutoff)
    {
      var kept := map id | id in sessions && !Portal.Ended(sessions[id], cutoff) :: sessions[id];
      assert kept == Portal.PurgeSessions(sessions, cutoff);
      sessions := kept;
    }

    /** The query leaves out revoked and expired sessions, the loop the idle ones. */
    method ActiveSessions(user: int, now: int) returns (listed: seq<int>)
      ensures Elements(listed) == Portal.ActiveSessions(timeouts, View(), now, user)
    {
      var todo := set id | id in sessions && sessions[id].revokedAt.None? && now < sessions[id].expiresAt
        && (user > 0 ==> sessions[id].user == user);
      ghost var rows := todo;
      listed := [];
      while todo != {}
        invariant todo <= rows
        invariant Elements(listed) == set id | id in rows - todo && now - sessions[id].lastUsedAt <= timeouts.idle
        decreases todo
      {
        ghost var some := Strings.Element(todo);
        var id :| id in todo;
        todo := todo - {id};
        if now - sessions[id].lastUsedAt > timeouts.idle {
          continue;
        }
        ElementsPlus(listed, id);
        listed := listed + [id];
      }
      assert rows - todo == rows;
      ghost var live := Portal.ActiveSessions(timeouts, View(), now, user);
      assert forall id :: id in live <==> id in rows && now - sessions[id].lastUsedAt <= timeouts.idle;
    }
  }

  /** The name belongs to an account of another source. */
  ghost predicate ForeignName(users: Users, name: string) {
    exists id :: id in users && users[id].username == name && users[id].source != Ldap
  }

  /** The names of an import that belong to local or Azure AD accounts, in order. */
  ghost function Skipped(users: Users, rows: seq<(string, string)>): seq<string> {
    if rows == [] then []
    else
      var name := rows[|rows| - 1].0;
      Skipped(users, rows[..|rows| - 1]) + if ForeignName(users, name) then [name] else []
  }

  /** Importing neither makes nor changes an account of another source. */
  lemma {:induction false} ForeignNamesStay(users: Users, next: int, rows: seq<(string, string)>, name: string)
    requires forall id :: id in users ==> id < next
    ensures var (after, next') := Portal.ImportRows(users, next, rows);
      && (ForeignName(after, name) <==> ForeignName(users, name))
      && next <= next' && forall id :: id in after ==> id < next'
  {
    if rows != [] {
      var init := rows[..|rows| - 1];
      ForeignNamesStay(users, next, init, name);
      var (before, n) := Portal.ImportRows(users, next, init);
      var (after, _) := Portal.ImportRows(users, next, rows);
      if id :| id in before && before[id].username == name && before[id].source != Ldap {
        assert id in after && after[id] == before[id];
      }
      if id :| id in after && after[id].username == name && after[id].source != Ldap {
        assert id in before && before[id] == after[id];
      }
    }
  }

  lemma RevokePlus(sessions: map<int, Portal.Session>, users: set<int>, user: int, now: int)
    ensures Portal.RevokeSessionsOf(Portal.RevokeSessionsOf(sessions, users, 0, now), {user}, 0, now)
      == Portal.RevokeSessionsOf(sessions, users + {user}, 0, now)
  {}

  lemma RevokeNobody(sessions: map<int, Portal.Session>, now: int)
    ensures Portal.RevokeSessionsOf(sessions, {}, 0, now) == sessions
  {
    assert forall id :: id in sessions ==> Portal.RevokeSessionsOf(sessions, {}, 0, now)[id] == sessions[id];
  }

  lemma SetActivePlus(users: Users, ids: seq<int>, i: nat, active: bool)
    requires i < |ids|
    ensures SetActive(users, ids[..i + 1], active) ==
      if ids[i] in users then SetActive(users, ids[..i], active)[ids[i] := users[ids[i]].(isActive := active)]
      else SetActive(users, ids[..i], active)
  {
    assert ids[..i + 1] == ids[..i] + [ids[i]];
  }

  lemma RefreshOne(users: Users, row: int, name: string, email: string)
    requires UniqueNames(users) && row in users && users[row].username == name && users[row].source == Ldap
    ensures users[row := users[row].(email := email)] == Refreshed(users, name, email)
  {
    assert forall id :: id in users ==>
      users[row := users[row].(email := email)][id] == Refreshed(users, name, email)[id];
  }

  lemma RefreshNone(users: Users, row: int, name: string, email: string)
    requires UniqueNames(users) && row in users && users[row].username == name && users[row].source != Ldap
    ensures users == Refreshed(users, name, email)
  {
    assert users.Keys == Refreshed(users, name, email).Keys;
    assert forall id :: id in users ==> users[id] == Refreshed(users, name, email)[id];
  }

  ghost function Refreshed(users: Users, name: string, email: string): Users {
    map id | id in users ::
      if users[id].username == name && users[id].source == Ldap then users[id].(email := email) else users[id]
  }

  lemma {:induction false} BulkRefusalStays(users: Users, actor: int, actorIsAdmin: bool, ids: seq<int>, active: bool,
                                            i: nat)
    requires i <= |ids| && BulkRefusal(users, actor, actorIsAdmin, ids[..i], active) != Done
    ensures BulkRefusal(users, actor, actorIsAdmin, ids, active)
      == BulkRefusal(users, actor, actorIsAdmin, ids[..i], active)
    decreases |ids|
  {
    if i == |ids| {
      assert ids[..i] == ids;
    } else {
      var init := ids[..|ids| - 1];
      assert init[..i] == ids[..i];
      BulkRefusalStays(users, actor, actorIsAdmin, init, active, i);
    }
  }
}
