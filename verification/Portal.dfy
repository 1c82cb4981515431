/**
 * Accounts and sessions as one state machine over time
 * (backend/internal/api/session.go, sessions_handlers.go, admin_users.go, admin_people.go,
 * auth_handlers.go, backend/internal/store/sessions.go, users.go).
 *
 * Times and durations are nanoseconds. A session is named by its row id, which stands for its token.
 */
module Portal {
  import opened Strings
  import opened Accounts
  import opened Identity

  const MINUTE: int := 60_000_000_000
  const PURGE_AFTER: int := 24 * 60 * MINUTE

  datatype Session = Session(user: int, lastUsedAt: int, expiresAt: int, revokedAt: Option<int>)

  datatype Timeouts = Timeouts(idle: nat, max: nat)

  /** Row ids are assigned in increasing order and never reused. */
  datatype State = State(users: Users, nextUser: int, sessions: map<int, Session>, nextSession: int)

  datatype Event =
    | CreateUser(actor: int, change: Change)
    | UpdateUser(actor: int, target: int, change: Change, newPassword: bool)
    | DeleteUser(actor: int, target: int)
    | BulkStatus(actor: int, ids: seq<int>, active: bool)
    | ImportLDAP(rows: seq<(string, string)>)
    | Preregister(emailOk: bool, enabled: bool, upn: string, email: string)
    | PasswordSignIn(user: int)
    | LdapFirstSignIn(name: string, email: string)
    | AzureSignIn(order: seq<int>, login: Login)
    | ResetPassword(actor: int, target: int)
    | Use(session: int)
    | Revoke(session: int)
    | RevokeAll(user: int, except: int)
    | Purge

  datatype Timed = At(now: nat, event: Event)

  ghost predicate IsAdminActor(users: Users, actor: int) {
    actor in users && users[actor].isAdmin
  }

  // ---- Sessions ----

  function RevokeSession(sessions: map<int, Session>, id: int, now: int): map<int, Session> {
    if id in sessions && sessions[id].revokedAt.None? then sessions[id := sessions[id].(revokedAt := Some(now))]
      else sessions
  }

  function RevokeSessionsOf(sessions: map<int, Session>, users: set<int>, except: int, now: int): map<int, Session> {
    map id | id in sessions ::
      var s := sessions[id];
      if s.user in users && id != except && s.revokedAt.None? then s.(revokedAt := Some(now)) else s
  }

  predicate Ended(s: Session, cutoff: int) {
    s.expiresAt < cutoff || (s.revokedAt.Some? && s.revokedAt.value < cutoff)
  }

  function PurgeSessions(sessions: map<int, Session>, cutoff: int): map<int, Session> {
    map id | id in sessions && !Ended(sessions[id], cutoff) :: sessions[id]
  }

  /** Neither revoked, expired nor idle. */
  predicate Live(s: Session, now: int, idle: int) {
    s.revokedAt.None? && now < s.expiresAt && now - s.lastUsedAt <= idle
  }

  /** Whether the session check lets a request carrying this session through. */
  predicate Accepts(t: Timeouts, p: State, now: int, id: int) {
    && id in p.sessions
    && Live(p.sessions[id], now, t.idle)
    && p.sessions[id].user in p.users
    && p.users[p.sessions[id].user].isActive
  }

  function UseSession(t: Timeouts, p: State, now: int, id: int): State {
    if id !in p.sessions || !Live(p.sessions[id], now, t.idle) then p
    else if !Accepts(t, p, now, id) then p.(sessions := RevokeSession(p.sessions, id, now))
    else if now - p.sessions[id].lastUsedAt > MINUTE then
      p.(sessions := p.sessions[id := p.sessions[id].(lastUsedAt := now)])
    else p
  }

  function StartSession(t: Timeouts, p: State, now: int, user: int): State {
    p.(sessions := p.sessions[p.nextSession := Session(user, now, now + t.max, None)], nextSession := p.nextSession + 1)
  }

  /** The sessions an administrator or the user sees listed; user 0 or less means everyone's. */
  function ActiveSessions(t: Timeouts, p: State, now: int, user: int): set<int> {
    set id | id in p.sessions && Live(p.sessions[id], now, t.idle) && (user > 0 ==> p.sessions[id].user == user)
  }

  // ---- Steps ----

  /** One listed directory user: added, or the account's e-mail brought up to date. */
  ghost function ImportRow(users: Users, next: int, name: string, email: string): (Users, int) {
    if !NameTaken(users, name, {}) then (users[next := User(name, email, Ldap, true, false, "")], next + 1)
    else
      (map id | id in users ::
        if users[id].username == name && users[id].source == Ldap then users[id].(email := email) else users[id],
       next)
  }

  ghost function ImportRows(users: Users, next: int, rows: seq<(string, string)>): (Users, int) {
    if rows == [] then (users, next)
    else
      var (users', next') := ImportRows(users, next, rows[..|rows| - 1]);
      var (name, email) := rows[|rows| - 1];
      ImportRow(users', next', name, email)
  }

  ghost function DoImport(p: State, rows: seq<(string, string)>): State {
    var (users, next) := ImportRows(p.users, p.nextUser, rows);
    p.(users := users, nextUser := next)
  }

  /** Adds the account when the name is free. */
  ghost function Add(p: State, user: User): (Reply, State) {
    var (reply, users) := Insert(p.users, p.nextUser, user);
    (reply, if reply == Done then p.(users := users, nextUser := p.nextUser + 1) else p)
  }

  ghost function DoCreate(p: State, actor: int, c: Change): (Reply, State) {
    var (reply, users) := Create(p.users, IsAdminActor(p.users, actor), p.nextUser, c);
    (reply, if reply == Done then p.(users := users, nextUser := p.nextUser + 1) else p)
  }

  /** The sessions end when the account is deactivated, demoted or given another password. */
  ghost function DoUpdate(p: State, now: int, actor: int, target: int, c: Change, newPassword: bool): (Reply, State) {
    var (reply, users) := Update(p.users, actor, IsAdminActor(p.users, actor), target, c);
    if reply == Done && newPassword && p.users[target].source != Local then (Invalid, p)
    else if reply != Done then (reply, p)
    else
      var was := p.users[target];
      var ends := (was.isActive && !c.isActive) || (was.isAdmin && !c.isAdmin) || newPassword;
      (Done, p.(users := users,
                sessions := if ends then RevokeSessionsOf(p.sessions, {target}, 0, now) else p.sessions))
  }

  /** Deleting an account deletes its sessions with it. */
  ghost function DoDelete(p: State, actor: int, target: int): (Reply, State) {
    var (reply, users) := Delete(p.users, actor, IsAdminActor(p.users, actor), target);
    (reply, p.(users := users,
               sessions := if reply == Done
                 then map id | id in p.sessions && p.sessions[id].user != target :: p.sessions[id]
                           else p.sessions))
  }

  ghost function DoBulk(p: State, now: int, actor: int, ids: seq<int>, active: bool): (Reply, State) {
    var (reply, users) := Accounts.BulkStatus(p.users, actor, IsAdminActor(p.users, actor), ids, active);
    var changed := set id | id in ids && id in p.users && p.users[id].isActive != active;
    (reply, p.(users := users,
               sessions := if reply == Done && !active then RevokeSessionsOf(p.sessions, changed, 0, now)
                 else p.sessions))
  }

  ghost function DoReset(p: State, now: int, actor: int, target: int): (Reply, State) {
    if target !in p.users then (NotFound, p)
    else if p.users[target].isAdmin && !IsAdminActor(p.users, actor) then (Forbidden, p)
    else if p.users[target].source != Local then (Invalid, p)
    else (Done, p.(sessions := RevokeSessionsOf(p.sessions, {target}, 0, now)))
  }

  /** A sign-in whose password the portal or the directory accepted. */
  ghost function DoPasswordSignIn(t: Timeouts, p: State, now: int, user: int): State {
    if user in p.users && p.users[user].isActive && p.users[user].source != AzureAD
      then StartSession(t, p, now, user) else p
  }

  ghost function IdOfName(users: Users, name: string): (id: int)
    requires NameTaken(users, name, {})
    ensures id in users && users[id].username == name
  {
    var id :| id in users && users[id].username == name;
    id
  }

  /** A directory sign-in under a name the portal does not know, with auto-create on. */
  ghost function DoLdapFirstSignIn(t: Timeouts, p: State, now: int, name: string, email: string): State {
    if NameTaken(p.users, name, {}) then
      var id := IdOfName(p.users, name);
      if p.users[id].source == Ldap then DoPasswordSignIn(t, p, now, id) else p
    else
      var (reply, p') := Add(p, User(name, email, Ldap, true, false, ""));
      if reply == Done then StartSession(t, p', now, p.nextUser) else p
  }

  ghost function DoAzureSignIn(t: Timeouts, p: State, now: nat, order: seq<int>, login: Login): (Option<int>, State) {
    var (account, users) := AzureAccount(p.users, order, login, p.nextUser, now);
    (account, SignedIn(t, p, now, account, users))
  }

  /** The accounts as the sign-in left them, and a session when its account is active. */
  ghost function SignedIn(t: Timeouts, p: State, now: int, account: Option<int>, users: Users): State {
    var p' := p.(users := users, nextUser := if p.nextUser in users then p.nextUser + 1 else p.nextUser);
    if account.Some? && account.value in users && users[account.value].isActive
    then StartSession(t, p', now, account.value) else p'
  }

  ghost function DoPreregister(p: State, now: nat, emailOk: bool, enabled: bool, upn: string,
                               email: string): (Reply, State) {
    var (reply, name) := PreregisteredName(p.users, emailOk, enabled, upn, email, now);
    if reply == Done then Add(p, PreregisteredUser(name, email)) else (reply, p)
  }

  ghost function Step(t: Timeouts, p: State, e: Timed): State {
    match e.event
    case CreateUser(actor, c) => DoCreate(p, actor, c).1
    case UpdateUser(actor, target, c, newPassword) => DoUpdate(p, e.now, actor, target, c, newPassword).1
    case DeleteUser(actor, target) => DoDelete(p, actor, target).1
    case BulkStatus(actor, ids, active) => DoBulk(p, e.now, actor, ids, active).1
    case ImportLDAP(rows) => DoImport(p, rows)
    case Preregister(emailOk, enabled, upn, email) => DoPreregister(p, e.now, emailOk, enabled, upn, email).1
    case PasswordSignIn(user) => DoPasswordSignIn(t, p, e.now, user)
    case LdapFirstSignIn(name, email) => DoLdapFirstSignIn(t, p, e.now, name, email)
    case AzureSignIn(order, login) => DoAzureSignIn(t, p, e.now, order, login).1
    case ResetPassword(actor, target) => DoReset(p, e.now, actor, target).1
    case Use(id) => UseSession(t, p, e.now, id)
    case Revoke(id) => p.(sessions := RevokeSession(p.sessions, id, e.now))
    case RevokeAll(user, except) => p.(sessions := RevokeSessionsOf(p.sessions, {user}, except, e.now))
    case Purge => p.(sessions := PurgeSessions(p.sessions, e.now - PURGE_AFTER))
  }

  ghost function Run(t: Timeouts, p: State, log: seq<Timed>): State {
    if log == [] then p else Step(t, Run(t, p, log[..|log| - 1]), log[|log| - 1])
  }

  // ---- What holds in every reachable state ----

  ghost predicate IdsBelow(users: Users, next: int) {
    forall id :: id in users ==> 0 < id < next
  }

  /** Signing an account out goes with deactivating it. */
  ghost predicate SessionsGood(p: State, now: int) {
    forall id :: id in p.sessions ==>
      && 0 < id < p.nextSession
      && p.sessions[id].user in p.users
      && p.sessions[id].lastUsedAt <= now
      && (p.users[p.sessions[id].user].isActive || p.sessions[id].revokedAt.Some?)
  }

  ghost predicate Good(p: State, now: int) {
    Sound(p.users) && IdsBelow(p.users, p.nextUser) && 0 < p.nextUser && 0 < p.nextSession && SessionsGood(p, now)
  }

  /** Account ids are never reused, and a surviving account keeps its source and its identity. */
  ghost predicate Follows(p: State, p': State) {
    && KeepsIdentity(p.users, p'.users)
    && p.nextUser <= p'.nextUser
    && (forall id :: id in p'.users && id < p.nextUser ==> id in p.users)
  }

  /** What a sign-in event may assume of the directory and the database. */
  ghost predicate Possible(p: State, e: Event) {
    e.AzureSignIn? ==> e.login.externalId != "" && RowOrder(p.users, e.order)
  }

  /** The clock does not run backwards. */
  ghost predicate ValidLog(t: Timeouts, p: State, start: int, log: seq<Timed>) {
    log == [] ||
    var init, last := log[..|log| - 1], log[|log| - 1];
    && ValidLog(t, p, start, init)
    && Latest(start, init) <= last.now
    && Possible(Run(t, p, init), last.event)
  }

  ghost function Latest(start: int, log: seq<Timed>): int {
    if log == [] then start else log[|log| - 1].now
  }

  /** An import removes no account, and changes neither identities nor which accounts are active. */
  ghost predicate Imported(users: Users, next: int, users': Users, next': int) {
    && Sound(users') && IdsBelow(users', next') && next <= next'
    && (forall id :: id in users ==> id in users' && users'[id].isActive == users[id].isActive)
    && KeepsIdentity(users, users')
    && (forall id :: id in users' && id < next ==> id in users)
  }

  lemma {:induction false} ImportIsSound(users: Users, next: int, rows: seq<(string, string)>)
    requires Sound(users) && IdsBelow(users, next) && 0 < next
    ensures var (users', next') := ImportRows(users, next, rows); Imported(users, next, users', next')
  {
    if rows != [] {
      var init := rows[..|rows| - 1];
      ImportIsSound(users, next, init);
      var (users1, next1) := ImportRows(users, next, init);
      var (name, email) := rows[|rows| - 1];
      RowIsSound(users1, next1, name, email);
    }
  }

  lemma RowIsSound(users: Users, next: int, name: string, email: string)
    requires Sound(users) && IdsBelow(users, next) && 0 < next
    ensures var (users', next') := ImportRow(users, next, name, email); Imported(users, next, users', next')
  {
    if !NameTaken(users, name, {}) {
      InsertIsSound(users, next, User(name, email, Ldap, true, false, ""));
    } else {
      EmailIsSound(users, ImportRow(users, next, name, email).0);
    }
  }

  /** Accounts that differ in their e-mail at most are as sound. */
  lemma EmailIsSound(users: Users, users': Users)
    requires Sound(users) && users'.Keys == users.Keys
    requires forall id :: id in users ==> users'[id] == users[id].(email := users'[id].email)
    ensures Sound(users') && KeepsIdentity(users, users')
  {
    var admin :| admin in users && users[admin].isAdmin && users[admin].isActive;
    assert admin in users' && users'[admin].isAdmin && users'[admin].isActive;
  }

  lemma FindBoundExact(users: Users, order: seq<int>, externalId: string)
    requires RowOrder(users, order) && BoundOnce(users) && externalId != ""
    ensures forall id :: FindBound(users, order, externalId) == Some(id) <==>
      id in users && users[id].externalId == externalId
  {
    var where := (u: User) => u.source == AzureAD && u.externalId == externalId;
    RowsExact(users, order, where);
    var rows := Rows(users, order, where);
    if rows != [] {
      var first: int := rows[0];
      assert first in rows;
    }
    forall id | id in users && users[id].externalId == externalId ensures id in rows {}
  }

  lemma AzureIsSound(users: Users, order: seq<int>, login: Login, newId: int, now: nat)
    requires Sound(users) && IdsBelow(users, newId) && login.externalId != "" && RowOrder(users, order)
    ensures var (account, users') := AzureAccount(users, order, login, newId, now);
      && Sound(users') && KeepsIdentity(users, users')
      && users.Keys <= users'.Keys <= users.Keys + {newId}
      && (forall id :: id in users ==> users'[id].isActive == users[id].isActive)
      && (account.Some? ==> account.value in users' && users'[account.value].externalId == login.externalId)
  {
    FindBoundExact(users, order, login.externalId);
    FindUnboundIsUnbound(users, order, login.email, Sanitize(login.username));
    var bound := FindBound(users, order, login.externalId);
    if bound.Some? {
      var id := bound.value;
      assert FindBound(users, order, login.externalId) == Some(id);
    } else {
      forall other | other in users ensures users[other].externalId != login.externalId {
        assert FindBound(users, order, login.externalId) != Some(other);
      }
    }
    BindOrCreateIsSound(users, bound, FindUnbound(users, order, login.email, Sanitize(login.username)), login, newId,
                        UniqueUsername(users, NewAccountBase(login), now));
  }

  lemma BindOrCreateIsSound(users: Users, bound: Option<int>, unbound: Option<int>, login: Login, newId: int,
                            name: string)
    requires Sound(users) && newId !in users && login.externalId != ""
    requires bound.Some? ==> bound.value in users && users[bound.value].externalId == login.externalId
    requires bound.None? ==> forall other :: other in users ==> users[other].externalId != login.externalId
    requires unbound.Some? ==> unbound.value in users && Unbound(users[unbound.value])
    ensures var (account, users') := BindOrCreate(users, bound, unbound, login, newId, name);
      && Sound(users') && KeepsIdentity(users, users')
      && users.Keys <= users'.Keys <= users.Keys + {newId}
      && (forall id :: id in users ==> users'[id].isActive == users[id].isActive)
      && (account.Some? ==> account.value in users' && users'[account.value].externalId == login.externalId)
  {
    if bound.None? {
      if unbound.Some? {
        BindingIsSound(users, unbound.value, login.externalId);
      } else {
        InsertIsSound(users, newId, User(name, login.email, AzureAD, true, false, login.externalId));
      }
    }
  }

  lemma BindingIsSound(users: Users, id: int, externalId: string)
    requires Sound(users) && id in users && Unbound(users[id])
    requires forall other :: other in users ==> users[other].externalId != externalId
    ensures var users' := users[id := users[id].(externalId := externalId)];
      Sound(users') && KeepsIdentity(users, users')
  {
    var users' := users[id := users[id].(externalId := externalId)];
    var admin :| admin in users && users[admin].isAdmin && users[admin].isActive;
    assert admin in users' && users'[admin].isAdmin && users'[admin].isActive;
  }

  /** Adding an account (never bound to an identity) or its refusal. */
  lemma AddIsSound(p: State, now: int, user: User)
    requires Good(p, now) && user.externalId == ""
    ensures Good(Add(p, user).1, now) && Follows(p, Add(p, user).1)
  {
    InsertIsSound(p.users, p.nextUser, user);
  }

  lemma CreateIsGood(p: State, now: int, actor: int, c: Change)
    requires Good(p, now)
    ensures Good(DoCreate(p, actor, c).1, now) && Follows(p, DoCreate(p, actor, c).1)
  {
    ApplyIsSound(p.users, actor, IsAdminActor(p.users, actor), CreateRequest(p.nextUser, c));
  }

  /** Sessions stay good when the accounts that lose access have theirs ended. */
  lemma RevokingIsGood(p: State, now: int, users: Users, changed: set<int>)
    requires SessionsGood(p, now) && p.users.Keys <= users.Keys
    requires forall id :: id in p.users && id !in changed && p.users[id].isActive ==> users[id].isActive
    ensures SessionsGood(p.(users := users, sessions := RevokeSessionsOf(p.sessions, changed, 0, now)), now)
  {}

  lemma KeepingIsGood(p: State, now: int, users: Users)
    requires SessionsGood(p, now) && p.users.Keys <= users.Keys
    requires forall id :: id in p.users && p.users[id].isActive ==> users[id].isActive
    ensures SessionsGood(p.(users := users), now)
  {}

  lemma UpdateIsGood(p: State, now: int, actor: int, target: int, c: Change, newPassword: bool)
    requires Good(p, now)
    ensures var p' := DoUpdate(p, now, actor, target, c, newPassword).1; Good(p', now) && Follows(p, p')
  {
    ApplyIsSound(p.users, actor, IsAdminActor(p.users, actor), UpdateRequest(target, c));
    var (reply, users) := Update(p.users, actor, IsAdminActor(p.users, actor), target, c);
    assert reply == Done ==> target in p.users;
    forall id | id in p.users {
      UpdateEffect(p.users, actor, IsAdminActor(p.users, actor), target, c, id);
    }
    if reply == Done {
      RevokingIsGood(p, now, users, {target});
      if c.isActive || !p.users[target].isActive {
        KeepingIsGood(p, now, users);
      }
    }
  }

  lemma DeleteIsGood(p: State, now: int, actor: int, target: int)
    requires Good(p, now)
    ensures Good(DoDelete(p, actor, target).1, now) && Follows(p, DoDelete(p, actor, target).1)
  {
    ApplyIsSound(p.users, actor, IsAdminActor(p.users, actor), DeleteRequest(target));
  }

  lemma BulkIsGood(p: State, now: int, actor: int, ids: seq<int>, active: bool)
    requires Good(p, now)
    ensures Good(DoBulk(p, now, actor, ids, active).1, now) && Follows(p, DoBulk(p, now, actor, ids, active).1)
  {
    ApplyIsSound(p.users, actor, IsAdminActor(p.users, actor), BulkRequest(ids, active));
    var (reply, users) := Accounts.BulkStatus(p.users, actor, IsAdminActor(p.users, actor), ids, active);
    var changed := set id | id in ids && id in p.users && p.users[id].isActive != active;
    forall id | id in p.users ensures id in users && users[id].isActive != p.users[id].isActive ==> id in changed {
      BulkEffect(p.users, actor, IsAdminActor(p.users, actor), ids, active, id);
    }
    assert p.users.Keys == users.Keys;
    if reply == Done && !active {
      RevokingIsGood(p, now, users, changed);
    } else {
      BulkKeepsActive(p.users, actor, ids, active);
      KeepingIsGood(p, now, users);
    }
  }

  lemma BulkKeepsActive(users: Users, actor: int, ids: seq<int>, active: bool)
    ensures var (reply, users') := Accounts.BulkStatus(users, actor, IsAdminActor(users, actor), ids, active);
      users'.Keys == users.Keys &&
      (active || reply != Done ==> forall id :: id in users && users[id].isActive ==> users'[id].isActive)
  {}

  lemma LdapFirstSignInIsGood(t: Timeouts, p: State, now: int, name: string, email: string)
    requires Good(p, now)
    ensures var p' := DoLdapFirstSignIn(t, p, now, name, email); Good(p', now) && Follows(p, p')
  {
    AddIsSound(p, now, User(name, email, Ldap, true, false, ""));
  }

  lemma SignedInIsGood(t: Timeouts, p: State, now: nat, account: Option<int>, users: Users)
    requires Good(p, now) && Sound(users)
    requires p.users.Keys <= users.Keys <= p.users.Keys + {p.nextUser}
    requires forall id :: id in p.users ==> users[id].isActive == p.users[id].isActive
    ensures Good(SignedIn(t, p, now, account, users), now)
    ensures KeepsIdentity(p.users, users) ==> Follows(p, SignedIn(t, p, now, account, users))
  {}

  lemma AzureSignInIsGood(t: Timeouts, p: State, now: nat, order: seq<int>, login: Login)
    requires Good(p, now) && login.externalId != "" && RowOrder(p.users, order)
    ensures var p' := DoAzureSignIn(t, p, now, order, login).1; Good(p', now) && Follows(p, p')
  {
    AzureIsSound(p.users, order, login, p.nextUser, now);
    var (account, users) := AzureAccount(p.users, order, login, p.nextUser, now);
    SignedInIsGood(t, p, now, account, users);
  }

  lemma ImportIsGood(p: State, now: int, rows: seq<(string, string)>)
    requires Good(p, now)
    ensures Good(DoImport(p, rows), now) && Follows(p, DoImport(p, rows))
  {
    ImportIsSound(p.users, p.nextUser, rows);
  }

  lemma PreregisterIsGood(p: State, now: nat, emailOk: bool, enabled: bool, upn: string, email: string)
    requires Good(p, now)
    ensures var p' := DoPreregister(p, now, emailOk, enabled, upn, email).1; Good(p', now) && Follows(p, p')
  {
    AddIsSound(p, now, PreregisteredUser(PreregisteredName(p.users, emailOk, enabled, upn, email, now).1, email));
  }

  /** Good is kept by every event, and surviving accounts keep their identity. */
  lemma StepIsGood(t: Timeouts, p: State, now: int, e: Timed)
    requires Good(p, now) && now <= e.now && Possible(p, e.event)
    ensures Good(Step(t, p, e), e.now) && Follows(p, Step(t, p, e))
  {
    assert Good(p, e.now);
    if e.event.CreateUser? || e.event.UpdateUser? || e.event.DeleteUser? || e.event.BulkStatus? {
      RequestIsGood(t, p, e);
    } else if e.event.ImportLDAP? {
      ImportIsGood(p, e.now, e.event.rows);
    } else if e.event.Preregister? {
      PreregisterIsGood(p, e.now, e.event.emailOk, e.event.enabled, e.event.upn, e.event.email);
    } else if e.event.LdapFirstSignIn? {
      LdapFirstSignInIsGood(t, p, e.now, e.event.name, e.event.email);
    } else if e.event.AzureSignIn? {
      AzureSignInIsGood(t, p, e.now, e.event.order, e.event.login);
    } else {
      SessionEventIsGood(t, p, e);
    }
  }

  lemma RequestIsGood(t: Timeouts, p: State, e: Timed)
    requires Good(p, e.now)
    requires e.event.CreateUser? || e.event.UpdateUser? || e.event.DeleteUser? || e.event.BulkStatus?
    ensures Good(Step(t, p, e), e.now) && Follows(p, Step(t, p, e))
  {
    match e.event
    case CreateUser(actor, c) => CreateIsGood(p, e.now, actor, c);
    case UpdateUser(actor, target, c, newPassword) => UpdateIsGood(p, e.now, actor, target, c, newPassword);
    case DeleteUser(actor, target) => DeleteIsGood(p, e.now, actor, target);
    case BulkStatus(actor, ids, active) => BulkIsGood(p, e.now, actor, ids, active);
  }

  lemma SessionEventIsGood(t: Timeouts, p: State, e: Timed)
    requires Good(p, e.now)
    requires e.event.PasswordSignIn? || e.event.ResetPassword? || e.event.Use? || e.event.Revoke?
      || e.event.RevokeAll? || e.event.Purge?
    ensures Good(Step(t, p, e), e.now) && Follows(p, Step(t, p, e))
  {
    match e.event
    case PasswordSignIn(user) => SignInIsGood(t, p, e.now, user);
    case ResetPassword(actor, target) => ResetIsGood(p, e.now, actor, target);
    case Use(id) => UseIsGood(t, p, e.now, id);
    case _ => EndingIsGood(t, p, e);
  }

  lemma EndingIsGood(t: Timeouts, p: State, e: Timed)
    requires Good(p, e.now) && (e.event.Revoke? || e.event.RevokeAll? || e.event.Purge?)
    ensures Good(Step(t, p, e), e.now) && Follows(p, Step(t, p, e))
  {
    match e.event
    case Revoke(id) => RevokeIsGood(p, e.now, id);
    case RevokeAll(user, except) => RevokeAllIsGood(p, e.now, user, except);
    case Purge => PurgeIsGood(p, e.now);
  }

  lemma ResetIsGood(p: State, now: nat, actor: int, target: int)
    requires Good(p, now)
    ensures Good(DoReset(p, now, actor, target).1, now) && Follows(p, DoReset(p, now, actor, target).1)
  {
    RevokingIsGood(p, now, p.users, {target});
  }

  lemma RevokeIsGood(p: State, now: nat, id: int)
    requires Good(p, now)
    ensures var p' := p.(sessions := RevokeSession(p.sessions, id, now)); Good(p', now) && Follows(p, p')
  {}

  lemma PurgeIsGood(p: State, now: nat)
    requires Good(p, now)
    ensures var p' := p.(sessions := PurgeSessions(p.sessions, now - PURGE_AFTER)); Good(p', now) && Follows(p, p')
  {}

  lemma SignInIsGood(t: Timeouts, p: State, now: nat, user: int)
    requires Good(p, now)
    ensures Good(DoPasswordSignIn(t, p, now, user), now) && Follows(p, DoPasswordSignIn(t, p, now, user))
  {}

  lemma UseIsGood(t: Timeouts, p: State, now: nat, id: int)
    requires Good(p, now)
    ensures Good(UseSession(t, p, now, id), now) && Follows(p, UseSession(t, p, now, id))
  {}

  lemma RevokeAllIsGood(p: State, now: nat, user: int, except: int)
    requires Good(p, now)
    ensures var p' := p.(sessions := RevokeSessionsOf(p.sessions, {user}, except, now)); Good(p', now) && Follows(p, p')
  {}

  lemma {:induction false} RunIsGood(t: Timeouts, p: State, start: int, log: seq<Timed>)
    requires Good(p, start) && ValidLog(t, p, start, log)
    ensures Good(Run(t, p, log), Latest(start, log)) && start <= Latest(start, log)
    ensures Follows(p, Run(t, p, log))
  {
    if log != [] {
      var init := log[..|log| - 1];
      RunIsGood(t, p, start, init);
      StepIsGood(t, Run(t, p, init), Latest(start, init), log[|log| - 1]);
      FollowsTransitive(p, Run(t, p, init), Run(t, p, log));
    }
  }

  lemma FollowsTransitive(p: State, q: State, r: State)
    requires Follows(p, q) && Follows(q, r) && IdsBelow(p.users, p.nextUser)
    ensures Follows(p, r)
  {}

  /** In every run an active administrator remains, and no inactive account has a session that is not revoked. */
  lemma AdminsAndSessions(t: Timeouts, p: State, start: int, log: seq<Timed>, id: int)
    requires Good(p, start) && ValidLog(t, p, start, log)
    ensures var q := Run(t, p, log);
      && SomeActiveAdmin(q.users)
      && (id in q.sessions && q.sessions[id].revokedAt.None? ==>
          q.sessions[id].user in q.users && q.users[q.sessions[id].user].isActive)
  {
    RunIsGood(t, p, start, log);
  }

  /** An identity once bound signs in to the same account in every run, for as long as that account exists. */
  lemma IdentityKeepsAccount(t: Timeouts, p: State, start: int, log: seq<Timed>, id: int, order: seq<int>, login: Login,
                             now: nat)
    requires Good(p, start) && ValidLog(t, p, start, log)
    requires id in p.users && p.users[id].externalId == login.externalId != ""
    requires var q := Run(t, p, log); id in q.users && RowOrder(q.users, order)
    ensures var q := Run(t, p, log);
      && AzureAccount(q.users, order, login, q.nextUser, now) == (Some(id), q.users)
      && q.users[id].source == p.users[id].source
  {
    RunIsGood(t, p, start, log);
    FindBoundExact(Run(t, p, log).users, order, login.externalId);
  }

  // ---- Refusal is permanent ----

  /** A known session the session check refuses from now on. */
  ghost predicate Refused(t: Timeouts, p: State, now: int, id: int) {
    id < p.nextSession && (id in p.sessions ==> !Live(p.sessions[id], now, t.idle))
  }

  lemma AcceptsIffLive(t: Timeouts, p: State, now: int, at: int, id: int)
    requires Good(p, now)
    ensures Accepts(t, p, at, id) <==> id in p.sessions && Live(p.sessions[id], at, t.idle)
  {}

  /** Nothing happened to the sessions but ends, deletions and at most one start. */
  ghost predicate OnlyEnds(p: State, p': State, now: int) {
    && p.nextSession <= p'.nextSession <= p.nextSession + 1
    && forall id :: id in p'.sessions ==>
      if id in p.sessions then
        && p'.sessions[id] == p.sessions[id].(revokedAt := p'.sessions[id].revokedAt)
        && (p.sessions[id].revokedAt.Some? ==> p'.sessions[id].revokedAt.Some?)
      else id == p.nextSession < p'.nextSession && p'.sessions[id].lastUsedAt == now
  }

  /** Every event but a use only ends, deletes or starts sessions. */
  lemma StepOnlyEnds(t: Timeouts, p: State, e: Timed)
    requires Good(p, e.now) && !e.event.Use?
    ensures OnlyEnds(p, Step(t, p, e), e.now)
  {
    if e.event.UpdateUser? || e.event.BulkStatus? {
      ChangeOnlyEnds(t, p, e);
    } else if e.event.PasswordSignIn? || e.event.LdapFirstSignIn? {
      SignInOnlyStarts(t, p, e);
    } else if e.event.ResetPassword? || e.event.Revoke? || e.event.RevokeAll? || e.event.Purge? {
      RevokingOnlyEnds(t, p, e);
    } else {
      match e.event
      case AzureSignIn(_, _) =>
      case DeleteUser(_, _) =>
      case _ =>
    }
  }

  lemma RevokingOnlyEnds(t: Timeouts, p: State, e: Timed)
    requires Good(p, e.now)
    requires e.event.ResetPassword? || e.event.Revoke? || e.event.RevokeAll? || e.event.Purge?
    ensures OnlyEnds(p, Step(t, p, e), e.now)
  {
    if e.event.ResetPassword? {
      ResetOnlyEnds(p, e.now, e.event.actor, e.event.target);
    } else if e.event.RevokeAll? {
      RevokeSessionsOnlyEnds(p, {e.event.user}, e.event.except, e.now);
    } else if e.event.Revoke? {
      RevokeOnlyEnds(p, e.event.session, e.now);
    } else {
      PurgeOnlyEnds(p, e.now);
    }
  }

  lemma ResetOnlyEnds(p: State, now: nat, actor: int, target: int)
    ensures OnlyEnds(p, DoReset(p, now, actor, target).1, now)
  {
    RevokeSessionsOnlyEnds(p, {target}, 0, now);
  }

  lemma RevokeOnlyEnds(p: State, id: int, now: int)
    ensures OnlyEnds(p, p.(sessions := RevokeSession(p.sessions, id, now)), now)
  {}

  lemma PurgeOnlyEnds(p: State, now: int)
    ensures OnlyEnds(p, p.(sessions := PurgeSessions(p.sessions, now - PURGE_AFTER)), now)
  {}

  lemma RevokeSessionsOnlyEnds(p: State, users: set<int>, except: int, now: int)
    ensures OnlyEnds(p, p.(sessions := RevokeSessionsOf(p.sessions, users, except, now)), now)
  {}

  lemma ChangeOnlyEnds(t: Timeouts, p: State, e: Timed)
    requires Good(p, e.now) && (e.event.UpdateUser? || e.event.BulkStatus?)
    ensures OnlyEnds(p, Step(t, p, e), e.now)
  {}

  lemma SignInOnlyStarts(t: Timeouts, p: State, e: Timed)
    requires Good(p, e.now) && (e.event.PasswordSignIn? || e.event.LdapFirstSignIn?)
    ensures OnlyEnds(p, Step(t, p, e), e.now)
  {}

  lemma StepKeepsRefused(t: Timeouts, p: State, now: int, e: Timed, id: int)
    requires Good(p, now) && now <= e.now && Refused(t, p, now, id)
    ensures Refused(t, Step(t, p, e), e.now, id)
  {
    assert Good(p, e.now);
    if !e.event.Use? {
      StepOnlyEnds(t, p, e);
    }
  }

  /** Under fixed timeouts a session once refused is refused at every later moment of every run. */
  lemma {:induction false} RefusedStaysRefused(t: Timeouts, p: State, start: int, log: seq<Timed>, id: int, later: int)
    requires Good(p, start) && ValidLog(t, p, start, log) && Latest(start, log) <= later
    requires id < p.nextSession && !Accepts(t, p, start, id)
    ensures !Accepts(t, Run(t, p, log), later, id)
    ensures Refused(t, Run(t, p, log), Latest(start, log), id)
  {
    RunIsGood(t, p, start, log);
    AcceptsIffLive(t, p, start, start, id);
    if log != [] {
      var init := log[..|log| - 1];
      RunIsGood(t, p, start, init);
      RefusedStaysRefused(t, p, start, init, id, Latest(start, init));
      StepKeepsRefused(t, Run(t, p, init), Latest(start, init), log[|log| - 1], id);
    }
  }

  /** The session list shows exactly the sessions that would be accepted at that moment. */
  lemma ListingIsExact(t: Timeouts, p: State, start: int, log: seq<Timed>, now: int, user: int)
    requires Good(p, start) && ValidLog(t, p, start, log)
    ensures var q := Run(t, p, log);
      ActiveSessions(t, q, now, user) ==
        set id | id in q.sessions && Accepts(t, q, now, id) && (user > 0 ==> q.sessions[id].user == user)
  {
    var q := Run(t, p, log);
    RunIsGood(t, p, start, log);
    forall id {
      AcceptsIffLive(t, q, Latest(start, log), now, id);
    }
  }

  // ---- Purging is unobservable ----

  function WithoutPurges(log: seq<Timed>): seq<Timed> {
    if log == [] then []
    else
      var init, last := log[..|log| - 1], log[|log| - 1];
      if last.event.Purge? then WithoutPurges(init) else WithoutPurges(init) + [last]
  }

  /** few is all with some sessions missing that are refused from now on. */
  ghost predicate Dropped(t: Timeouts, few: map<int, Session>, all: map<int, Session>, next: int, now: int) {
    && (forall id :: id in few ==> id in all && all[id] == few[id])
    && (forall id :: id in all && id !in few ==> id < next && !Live(all[id], now, t.idle))
  }

  /** p is q with some sessions missing that q refuses from now on. */
  ghost predicate PurgedFrom(t: Timeouts, p: State, q: State, now: int) {
    p == q.(sessions := p.sessions) && Dropped(t, p.sessions, q.sessions, q.nextSession, now)
  }

  lemma RevokedDropped(t: Timeouts, few: map<int, Session>, all: map<int, Session>, next: int, now: int,
                       users: set<int>, except: int)
    requires Dropped(t, few, all, next, now)
    ensures Dropped(t, RevokeSessionsOf(few, users, except, now), RevokeSessionsOf(all, users, except, now), next, now)
  {}

  lemma StartedDropped(t: Timeouts, few: map<int, Session>, all: map<int, Session>, next: int, now: int, s: Session)
    requires Dropped(t, few, all, next, now)
    ensures Dropped(t, few[next := s], all[next := s], next + 1, now)
  {}

  lemma UpdatePurged(t: Timeouts, p: State, q: State, now: nat, actor: int, target: int, c: Change, newPassword: bool)
    requires PurgedFrom(t, p, q, now)
    ensures PurgedFrom(t, DoUpdate(p, now, actor, target, c, newPassword).1,
                       DoUpdate(q, now, actor, target, c, newPassword).1, now)
  {
    RevokedDropped(t, p.sessions, q.sessions, q.nextSession, now, {target}, 0);
  }

  lemma DeletePurged(t: Timeouts, p: State, q: State, now: nat, actor: int, target: int)
    requires PurgedFrom(t, p, q, now)
    ensures PurgedFrom(t, DoDelete(p, actor, target).1, DoDelete(q, actor, target).1, now)
  {}

  lemma BulkPurged(t: Timeouts, p: State, q: State, now: nat, actor: int, ids: seq<int>, active: bool)
    requires PurgedFrom(t, p, q, now)
    ensures PurgedFrom(t, DoBulk(p, now, actor, ids, active).1, DoBulk(q, now, actor, ids, active).1, now)
  {
    var changed := set id | id in ids && id in p.users && p.users[id].isActive != active;
    RevokedDropped(t, p.sessions, q.sessions, q.nextSession, now, changed, 0);
  }

  lemma SignInPurged(t: Timeouts, p: State, q: State, now: nat, user: int)
    requires PurgedFrom(t, p, q, now)
    ensures PurgedFrom(t, StartSession(t, p, now, user), StartSession(t, q, now, user), now)
  {
    StartedDropped(t, p.sessions, q.sessions, q.nextSession, now, Session(user, now, now + t.max, None));
  }

  lemma LdapPurged(t: Timeouts, p: State, q: State, now: nat, name: string, email: string)
    requires PurgedFrom(t, p, q, now)
    ensures PurgedFrom(t, DoLdapFirstSignIn(t, p, now, name, email), DoLdapFirstSignIn(t, q, now, name, email), now)
  {
    if NameTaken(p.users, name, {}) {
      PasswordPurged(t, p, q, now, IdOfName(p.users, name));
    } else {
      var user := User(name, email, Ldap, true, false, "");
      SignInPurged(t, Add(p, user).1, Add(q, user).1, now, p.nextUser);
    }
  }

  lemma AzurePurged(t: Timeouts, p: State, q: State, now: nat, order: seq<int>, login: Login)
    requires PurgedFrom(t, p, q, now)
    ensures PurgedFrom(t, DoAzureSignIn(t, p, now, order, login).1, DoAzureSignIn(t, q, now, order, login).1, now)
  {
    var (account, users) := AzureAccount(p.users, order, login, p.nextUser, now);
    SignedInPurged(t, p, q, now, account, users);
  }

  lemma SignedInPurged(t: Timeouts, p: State, q: State, now: nat, account: Option<int>, users: Users)
    requires PurgedFrom(t, p, q, now)
    ensures PurgedFrom(t, SignedIn(t, p, now, account, users), SignedIn(t, q, now, account, users), now)
  {
    var next := if p.nextUser in users then p.nextUser + 1 else p.nextUser;
    if account.Some? {
      SignInPurged(t, p.(users := users, nextUser := next), q.(users := users, nextUser := next), now, account.value);
    }
  }

  lemma UsePurged(t: Timeouts, p: State, q: State, now: nat, id: int)
    requires PurgedFrom(t, p, q, now)
    ensures PurgedFrom(t, UseSession(t, p, now, id), UseSession(t, q, now, id), now)
  {}

  lemma StepPurged(t: Timeouts, p: State, q: State, now: int, e: Timed)
    requires Good(p, now) && now <= e.now && PurgedFrom(t, p, q, now)
    ensures PurgedFrom(t, Step(t, p, e), if e.event.Purge? then q else Step(t, q, e), e.now)
  {
    assert PurgedFrom(t, p, q, e.now);
    if e.event.CreateUser? || e.event.Preregister? || e.event.ImportLDAP? {
      AddingPurged(t, p, q, e);
    } else if e.event.UpdateUser? || e.event.DeleteUser? || e.event.BulkStatus? || e.event.ResetPassword? {
      ChangingPurged(t, p, q, e);
    } else if e.event.PasswordSignIn? {
      PasswordPurged(t, p, q, e.now, e.event.user);
    } else if e.event.LdapFirstSignIn? {
      LdapPurged(t, p, q, e.now, e.event.name, e.event.email);
    } else if e.event.AzureSignIn? {
      AzurePurged(t, p, q, e.now, e.event.order, e.event.login);
    } else {
      EndingPurged(t, p, q, e);
    }
  }

  lemma EndingPurged(t: Timeouts, p: State, q: State, e: Timed)
    requires Good(p, e.now) && PurgedFrom(t, p, q, e.now)
    requires e.event.Use? || e.event.Revoke? || e.event.RevokeAll? || e.event.Purge?
    ensures PurgedFrom(t, Step(t, p, e), if e.event.Purge? then q else Step(t, q, e), e.now)
  {
    match e.event
    case Use(id) => UsePurged(t, p, q, e.now, id);
    case RevokeAll(user, except) => RevokedDropped(t, p.sessions, q.sessions, q.nextSession, e.now, {user}, except);
    case Revoke(_) =>
    case Purge =>
  }

  lemma AddingPurged(t: Timeouts, p: State, q: State, e: Timed)
    requires PurgedFrom(t, p, q, e.now) && (e.event.CreateUser? || e.event.Preregister? || e.event.ImportLDAP?)
    ensures PurgedFrom(t, Step(t, p, e), Step(t, q, e), e.now)
  {}

  lemma ChangingPurged(t: Timeouts, p: State, q: State, e: Timed)
    requires PurgedFrom(t, p, q, e.now)
    requires e.event.UpdateUser? || e.event.DeleteUser? || e.event.BulkStatus? || e.event.ResetPassword?
    ensures PurgedFrom(t, Step(t, p, e), Step(t, q, e), e.now)
  {
    match e.event
    case UpdateUser(actor, target, c, newPassword) => UpdatePurged(t, p, q, e.now, actor, target, c, newPassword);
    case DeleteUser(actor, target) => DeletePurged(t, p, q, e.now, actor, target);
    case BulkStatus(actor, ids, active) => BulkPurged(t, p, q, e.now, actor, ids, active);
    case ResetPassword(actor, target) => RevokedDropped(t, p.sessions, q.sessions, q.nextSession, e.now, {target}, 0);
  }

  lemma PasswordPurged(t: Timeouts, p: State, q: State, now: nat, user: int)
    requires PurgedFrom(t, p, q, now)
    ensures PurgedFrom(t, DoPasswordSignIn(t, p, now, user), DoPasswordSignIn(t, q, now, user), now)
  {
    SignInPurged(t, p, q, now, user);
  }

  /** Removing every purge from a run changes no answer of the session check. */
  lemma {:induction false} PurgingIsUnobservable(t: Timeouts, p: State, start: int, log: seq<Timed>, now: int, id: int)
    requires Good(p, start) && ValidLog(t, p, start, log) && Latest(start, log) <= now
    ensures PurgedFrom(t, Run(t, p, log), Run(t, p, WithoutPurges(log)), Latest(start, log))
    ensures Accepts(t, Run(t, p, log), now, id) <==> Accepts(t, Run(t, p, WithoutPurges(log)), now, id)
  {
    if log != [] {
      var init, last := log[..|log| - 1], log[|log| - 1];
      RunIsGood(t, p, start, init);
      PurgingIsUnobservable(t, p, start, init, Latest(start, init), id);
      StepPurged(t, Run(t, p, init), Run(t, p, WithoutPurges(init)), Latest(start, init), last);
      assert (WithoutPurges(init) + [last])[..|WithoutPurges(init)|] == WithoutPurges(init);
    }
    RunIsGood(t, p, start, log);
  }

  // ---- Idle timeout ----

  /** When the session was last let through in the run, or started; at the outset, its recorded last use. */
  ghost function LastAccepted(t: Timeouts, p: State, log: seq<Timed>, id: int): int {
    if log == [] then if id in p.sessions then p.sessions[id].lastUsedAt else 0
    else
      var init, last := log[..|log| - 1], log[|log| - 1];
      var q := Run(t, p, init);
      if (last.event == Use(id) && Accepts(t, q, last.now, id)) || id == q.nextSession then last.now
      else LastAccepted(t, p, init, id)
  }

  /** The recorded last use, which is written at most once a minute, against the real one. */
  ghost predicate Timely(s: Session, lastAccepted: int) {
    s.lastUsedAt <= lastAccepted <= s.lastUsedAt + MINUTE
  }

  lemma StepIsTimely(t: Timeouts, p: State, now: int, e: Timed, id: int, lastAccepted: int)
    requires Good(p, now) && now <= e.now
    requires id in p.sessions ==> Timely(p.sessions[id], lastAccepted)
    requires id in Step(t, p, e).sessions
    ensures Timely(Step(t, p, e).sessions[id],
      if (e.event == Use(id) && Accepts(t, p, e.now, id)) || id == p.nextSession then e.now else lastAccepted)
  {
    if !e.event.Use? {
      StepOnlyEnds(t, p, e);
    }
  }

  lemma {:induction false} RunIsTimely(t: Timeouts, p: State, start: int, log: seq<Timed>, id: int)
    requires Good(p, start) && ValidLog(t, p, start, log) && id in Run(t, p, log).sessions
    ensures Timely(Run(t, p, log).sessions[id], LastAccepted(t, p, log, id))
  {
    if log != [] {
      var init, last := log[..|log| - 1], log[|log| - 1];
      var q := Run(t, p, init);
      RunIsGood(t, p, start, init);
      if id in q.sessions {
        RunIsTimely(t, p, start, init, id);
      }
      StepIsTimely(t, q, Latest(start, init), last, id, LastAccepted(t, p, init, id));
    }
  }

  /**
   * An accepted request comes within the idle timeout of the one before; a session refused for
   * idleness alone has been unused for more than the timeout less a minute.
   */
  lemma IdleTimeoutIsAccurate(t: Timeouts, p: State, start: int, log: seq<Timed>, id: int, now: int)
    requires Good(p, start) && ValidLog(t, p, start, log)
    requires var q := Run(t, p, log);
      id in q.sessions && q.sessions[id].revokedAt.None? && now < q.sessions[id].expiresAt
    ensures var gap := now - LastAccepted(t, p, log, id);
      && (Accepts(t, Run(t, p, log), now, id) ==> gap <= t.idle)
      && (!Accepts(t, Run(t, p, log), now, id) ==> gap > t.idle - MINUTE)
  {
    RunIsGood(t, p, start, log);
    RunIsTimely(t, p, start, log, id);
    AcceptsIffLive(t, Run(t, p, log), Latest(start, log), now, id);
  }
}
