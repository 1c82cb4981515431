/**
 * When a session is let through, over whole runs: which events end it, and until when it lasts otherwise
 * (backend/internal/api/session.go, admin_users.go, admin_people.go, sessions_handlers.go).
 */
module Sessions {
  import opened Strings
  import opened Accounts
  import opened Identity
  import opened Portal

  // ---- Which events end a session ----

  /** The change takes away access, administrator rights or the password the session was opened with. */
  ghost predicate TakesAway(before: User, c: Change, newPassword: bool) {
    newPassword || (before.isActive && !c.isActive) || (before.isAdmin && !c.isAdmin)
  }

  /** The event is an accepted one against the session or its account. */
  ghost predicate Ends(p: State, e: Timed, id: int)
    requires id in p.sessions
  {
    var owner := p.sessions[id].user;
    match e.event
    case UpdateUser(actor, target, c, newPassword) =>
      && target == owner && owner in p.users && TakesAway(p.users[owner], c, newPassword)
      && DoUpdate(p, e.now, actor, target, c, newPassword).0 == Done
    case DeleteUser(actor, target) => target == owner && DoDelete(p, actor, target).0 == Done
    case BulkStatus(actor, ids, active) => !active && owner in ids && DoBulk(p, e.now, actor, ids, active).0 == Done
    case ResetPassword(actor, target) => target == owner && DoReset(p, e.now, actor, target).0 == Done
    case Revoke(session) => session == id
    case RevokeAll(user, except) => user == owner && id != except
    case _ => false
  }

  ghost predicate OpenIn(p: State, id: int) {
    id in p.sessions && p.sessions[id].revokedAt.None?
  }

  /** An open session after a step that does not end it: only the recorded use moves, unless it is purged. */
  ghost predicate GoesOn(t: Timeouts, p: State, p': State, e: Timed, id: int)
    requires id in p.sessions
  {
    var s := p.sessions[id];
    if id in p'.sessions then p'.sessions[id] == s.(lastUsedAt := UsedAt(t, s, s.lastUsedAt, e, id))
    else s.expiresAt < e.now
  }

  /** The recorded use after an event: a use moves it when the session lasts and a minute has passed. */
  function UsedAt(t: Timeouts, s: Session, used: int, e: Timed, id: int): int {
    if e.event == Use(id) && MINUTE < e.now - used <= t.idle && e.now < s.expiresAt then e.now else used
  }

  lemma UpdateEnds(p: State, now: nat, actor: int, target: int, c: Change, newPassword: bool, id: int)
    requires Good(p, now) && OpenIn(p, id)
    ensures var (reply, p') := DoUpdate(p, now, actor, target, c, newPassword);
      && id in p'.sessions
      && p'.sessions[id] == if reply == Done && target == p.sessions[id].user
        && TakesAway(p.users[target], c, newPassword)
                            then p.sessions[id].(revokedAt := Some(now)) else p.sessions[id]
  {}

  lemma DeleteEnds(p: State, now: nat, actor: int, target: int, id: int)
    requires Good(p, now) && OpenIn(p, id)
    ensures var (reply, p') := DoDelete(p, actor, target);
      && (id in p'.sessions <==> !(reply == Done && target == p.sessions[id].user))
      && (id in p'.sessions ==> p'.sessions[id] == p.sessions[id])
  {}

  lemma BulkEnds(p: State, now: nat, actor: int, ids: seq<int>, active: bool, id: int)
    requires Good(p, now) && OpenIn(p, id)
    ensures var (reply, p') := DoBulk(p, now, actor, ids, active);
      && id in p'.sessions
      && p'.sessions[id] == if reply == Done && !active && p.sessions[id].user in ids
                            then p.sessions[id].(revokedAt := Some(now)) else p.sessions[id]
  {}

  lemma SignInsEndNothing(t: Timeouts, p: State, e: Timed, id: int)
    requires Good(p, e.now) && OpenIn(p, id)
    requires e.event.PasswordSignIn? || e.event.LdapFirstSignIn? || e.event.AzureSignIn?
    ensures id in Step(t, p, e).sessions && Step(t, p, e).sessions[id] == p.sessions[id]
  {
    match e.event
    case PasswordSignIn(_) =>
    case LdapFirstSignIn(_, _) =>
    case AzureSignIn(_, _) =>
  }

  /** One event: the session is ended exactly by the events above, and otherwise goes on. */
  lemma StepEndsExactly(t: Timeouts, p: State, e: Timed, id: int)
    requires Good(p, e.now) && OpenIn(p, id)
    ensures var p' := Step(t, p, e);
      if Ends(p, e, id) then !OpenIn(p', id) else GoesOn(t, p, p', e, id)
  {
    if e.event.UpdateUser? {
      UpdateEnds(p, e.now, e.event.actor, e.event.target, e.event.change, e.event.newPassword, id);
    } else if e.event.DeleteUser? {
      DeleteEnds(p, e.now, e.event.actor, e.event.target, id);
    } else if e.event.BulkStatus? {
      BulkEnds(p, e.now, e.event.actor, e.event.ids, e.event.active, id);
    } else if e.event.PasswordSignIn? || e.event.LdapFirstSignIn? || e.event.AzureSignIn? {
      SignInsEndNothing(t, p, e, id);
    } else {
      OtherEventsEndExactly(t, p, e, id);
    }
  }

  lemma OtherEventsEndExactly(t: Timeouts, p: State, e: Timed, id: int)
    requires Good(p, e.now) && OpenIn(p, id)
    requires e.event.CreateUser? || e.event.ImportLDAP? || e.event.Preregister? || e.event.ResetPassword?
      || e.event.Use?
      || e.event.Revoke? || e.event.RevokeAll? || e.event.Purge?
    ensures var p' := Step(t, p, e);
      if Ends(p, e, id) then !OpenIn(p', id) else GoesOn(t, p, p', e, id)
  {}

  // ---- Acceptance over runs ----

  /** No event of the run ends the session. */
  ghost predicate NoneEnds(t: Timeouts, p: State, log: seq<Timed>, id: int) {
    log == [] ||
    (var init := log[..|log| - 1];
     var q := Run(t, p, init);
     NoneEnds(t, p, init, id) && (id in q.sessions ==> !Ends(q, log[|log| - 1], id)))
  }

  /** The use recorded at the end of the run, as long as nothing ends the session. */
  function LastRecorded(t: Timeouts, s: Session, log: seq<Timed>, id: int): int {
    if log == [] then s.lastUsedAt
    else UsedAt(t, s, LastRecorded(t, s, log[..|log| - 1], id), log[|log| - 1], id)
  }

  /** What is left of an open session after a run. */
  ghost predicate LeftAfter(t: Timeouts, s: Session, q: State, log: seq<Timed>, now: int, id: int, none: bool) {
    && id < q.nextSession
    && if !none then !OpenIn(q, id)
       else if id in q.sessions then q.sessions[id] == s.(lastUsedAt := LastRecorded(t, s, log, id))
       else s.expiresAt < now
  }

  lemma EndedStaysEnded(t: Timeouts, p: State, now: int, e: Timed, id: int)
    requires Good(p, now) && now <= e.now && id < p.nextSession && !OpenIn(p, id)
    ensures !OpenIn(Step(t, p, e), id) && id < Step(t, p, e).nextSession
    ensures id !in p.sessions ==> id !in Step(t, p, e).sessions
  {
    assert Good(p, e.now);
    if !e.event.Use? {
      StepOnlyEnds(t, p, e);
    }
  }

  lemma {:induction false} LeftAfterRun(t: Timeouts, p: State, start: int, log: seq<Timed>, id: int)
    requires Good(p, start) && ValidLog(t, p, start, log) && OpenIn(p, id)
    ensures LeftAfter(t, p.sessions[id], Run(t, p, log), log, Latest(start, log), id, NoneEnds(t, p, log, id))
  {
    if log != [] {
      var init, last := log[..|log| - 1], log[|log| - 1];
      var q := Run(t, p, init);
      RunIsGood(t, p, start, init);
      LeftAfterRun(t, p, start, init, id);
      LeftAfterStep(t, p.sessions[id], q, init, Latest(start, init), last, id, NoneEnds(t, p, init, id));
      assert init + [last] == log;
    }
  }

  lemma LeftAfterStep(t: Timeouts, s: Session, q: State, init: seq<Timed>, now: int, e: Timed, id: int, none: bool)
    requires Good(q, now) && now <= e.now && s.revokedAt.None? && LeftAfter(t, s, q, init, now, id, none)
    ensures LeftAfter(t, s, Step(t, q, e), init + [e], e.now, id, none && (id in q.sessions ==> !Ends(q, e, id)))
  {
    assert Good(q, e.now);
    assert (init + [e])[..|init|] == init;
    if OpenIn(q, id) {
      StepEndsExactly(t, q, e, id);
      NextSessionGrows(t, q, e);
    } else {
      EndedStaysEnded(t, q, now, e, id);
    }
  }

  lemma NextSessionGrows(t: Timeouts, p: State, e: Timed)
    requires Good(p, e.now)
    ensures p.nextSession <= Step(t, p, e).nextSession
  {
    if !e.event.Use? {
      StepOnlyEnds(t, p, e);
    }
  }

  /**
   * A session that is open is let through at a later moment if and only if no event since has ended it,
   * its maximum lifetime is not over, and its recorded use is within the idle timeout.
   */
  lemma AcceptedExactly(t: Timeouts, p: State, start: int, log: seq<Timed>, id: int, later: int)
    requires Good(p, start) && ValidLog(t, p, start, log) && OpenIn(p, id) && Latest(start, log) <= later
    ensures Accepts(t, Run(t, p, log), later, id) <==>
      && NoneEnds(t, p, log, id)
      && later < p.sessions[id].expiresAt
      && later - LastRecorded(t, p.sessions[id], log, id) <= t.idle
  {
    RunIsGood(t, p, start, log);
    LeftAfterRun(t, p, start, log, id);
    AcceptsIffLive(t, Run(t, p, log), Latest(start, log), later, id);
  }

  // ---- Accounts and their sessions ----


  /**
   * An accepted change that deactivates or demotes the account or sets a new password ends every session of
   * the account for good; any other change, accepted or not, leaves all sessions as they were.
   */
  lemma UpdateAndSessions(t: Timeouts, p: State, start: int, now: nat, actor: int, target: int, c: Change,
                          newPassword: bool, more: seq<Timed>, id: int, later: int)
    requires Good(p, start) && start <= now
    requires ValidLog(t, DoUpdate(p, now, actor, target, c, newPassword).1, now, more) && Latest(now, more) <= later
    ensures var (reply, p') := DoUpdate(p, now, actor, target, c, newPassword);
      if reply == Done && TakesAway(p.users[target], c, newPassword)
      then id in p.sessions && p.sessions[id].user == target ==> !Accepts(t, Run(t, p', more), later, id)
      else p'.sessions == p.sessions
  {
    var (reply, p') := DoUpdate(p, now, actor, target, c, newPassword);
    assert Good(p, now);
    UpdateIsGood(p, now, actor, target, c, newPassword);
    if reply == Done && TakesAway(p.users[target], c, newPassword) && id in p.sessions
      && p.sessions[id].user == target {
      UpdateClosesAll(p, now, actor, target, c, newPassword, id);
      RefusedStaysRefused(t, p', now, more, id, later);
    }
  }

  lemma UpdateClosesAll(p: State, now: nat, actor: int, target: int, c: Change, newPassword: bool, id: int)
    requires Good(p, now) && id in p.sessions && p.sessions[id].user == target
    requires DoUpdate(p, now, actor, target, c, newPassword).0 == Done && TakesAway(p.users[target], c, newPassword)
    ensures var p' := DoUpdate(p, now, actor, target, c, newPassword).1; !OpenIn(p', id) && id < p'.nextSession
  {}

  /** An accepted password reset ends every session of the account for good; the others stay as they were. */
  lemma ResetAndSessions(t: Timeouts, p: State, start: int, now: nat, actor: int, target: int, more: seq<Timed>,
                         id: int, later: int)
    requires Good(p, start) && start <= now && id in p.sessions
    requires DoReset(p, now, actor, target).0 == Done
    requires ValidLog(t, DoReset(p, now, actor, target).1, now, more) && Latest(now, more) <= later
    ensures var p' := DoReset(p, now, actor, target).1;
      if p.sessions[id].user == target then !Accepts(t, Run(t, p', more), later, id)
      else id in p'.sessions && p'.sessions[id] == p.sessions[id]
  {
    var p' := DoReset(p, now, actor, target).1;
    assert Good(p, now);
    ResetIsGood(p, now, actor, target);
    if p.sessions[id].user == target {
      assert id < p'.nextSession && !OpenIn(p', id);
      RefusedStaysRefused(t, p', now, more, id, later);
    }
  }

  // ---- Sign-ins ----

  /** Whom the event signs in: an active account that may use this way in. */
  ghost function SignsIn(p: State, e: Timed): Option<int> {
    match e.event
    case PasswordSignIn(user) =>
      if user in p.users && p.users[user].isActive && p.users[user].source != AzureAD then Some(user) else None
    case LdapFirstSignIn(name, _) =>
      if exists u :: u in p.users && p.users[u].username == name then
        var user := IdOfName(p.users, name);
        if p.users[user].source == Ldap && p.users[user].isActive then Some(user) else None
      else if p.nextUser in p.users then None
      else Some(p.nextUser)
    case AzureSignIn(order, login) =>
      var (account, users) := AzureAccount(p.users, order, login, p.nextUser, e.now);
      if account.Some? && account.value in users && users[account.value].isActive then account else None
    case _ => None
  }

  /** A sign-in opens one session, of the maximum lifetime; without one no session is opened. */
  lemma SignInOpens(t: Timeouts, p: State, e: Timed)
    requires Good(p, e.now)
    ensures var p' := Step(t, p, e);
      if SignsIn(p, e).Some? then
        && p'.nextSession == p.nextSession + 1
        && p'.sessions == p.sessions[p.nextSession := Session(SignsIn(p, e).value, e.now, e.now + t.max, None)]
      else p'.nextSession == p.nextSession && p'.sessions.Keys <= p.sessions.Keys
  {
    match e.event
    case PasswordSignIn(_) =>
    case LdapFirstSignIn(name, email) => LdapSignInOpens(t, p, e.now, name, email);
    case AzureSignIn(_, _) =>
    case _ => NoSignInOpensNothing(t, p, e);
  }

  lemma LdapSignInOpens(t: Timeouts, p: State, now: nat, name: string, email: string)
    requires Good(p, now)
    ensures var e := At(now, LdapFirstSignIn(name, email));
      var p' := DoLdapFirstSignIn(t, p, now, name, email);
      if SignsIn(p, e).Some? then
        && p'.nextSession == p.nextSession + 1
        && p'.sessions == p.sessions[p.nextSession := Session(SignsIn(p, e).value, now, now + t.max, None)]
      else p' == p
  {
    assert NameTaken(p.users, name, {}) <==> exists u :: u in p.users && p.users[u].username == name;
  }

  lemma NoSignInOpensNothing(t: Timeouts, p: State, e: Timed)
    requires Good(p, e.now) && !e.event.PasswordSignIn? && !e.event.LdapFirstSignIn? && !e.event.AzureSignIn?
    ensures Step(t, p, e).nextSession == p.nextSession && Step(t, p, e).sessions.Keys <= p.sessions.Keys
  {
    match e.event
    case UpdateUser(_, _, _, _) =>
    case BulkStatus(_, _, _) =>
    case _ =>
  }

  /**
   * A session from its first moment on: let through exactly while nothing has ended it, less than the maximum
   * lifetime has passed since the sign-in, and the recorded use, the sign-in to begin with, is within the
   * idle timeout.
   */
  lemma LifeOfASession(t: Timeouts, p: State, start: int, e: Timed, more: seq<Timed>, later: int)
    requires Good(p, start) && start <= e.now && Possible(p, e.event) && SignsIn(p, e).Some?
    requires ValidLog(t, Step(t, p, e), e.now, more) && Latest(e.now, more) <= later
    ensures var id, q := p.nextSession, Step(t, p, e);
      var s := Session(SignsIn(p, e).value, e.now, e.now + t.max, None);
      Accepts(t, Run(t, q, more), later, id) <==>
        NoneEnds(t, q, more, id) && later - e.now < t.max && later - LastRecorded(t, s, more, id) <= t.idle
  {
    assert Good(p, e.now);
    StepIsGood(t, p, start, e);
    SignInOpens(t, p, e);
    AcceptedExactly(t, Step(t, p, e), e.now, more, p.nextSession, later);
  }

  /** A purge forgets exactly the sessions that expired or were revoked more than a day before. */
  lemma PurgedExactly(t: Timeouts, p: State, now: nat, id: int)
    ensures var p' := Step(t, p, At(now, Purge));
      && p' == p.(sessions := p'.sessions)
      && (id in p'.sessions <==>
            && id in p.sessions && now - p.sessions[id].expiresAt <= 86_400_000_000_000
            && (p.sessions[id].revokedAt.Some? ==> now - p.sessions[id].revokedAt.value <= 86_400_000_000_000))
      && (id in p'.sessions ==> p'.sessions[id] == p.sessions[id])
  {}

  // ---- Accounts ----

  /** A change that sets a password is accepted for local accounts only, and otherwise like any other. */
  lemma UpdateUserDecided(p: State, now: nat, actor: int, target: int, c: Change, newPassword: bool)
    ensures DoUpdate(p, now, actor, target, c, newPassword).0 == Done <==>
      && Update(p.users, actor, IsAdminActor(p.users, actor), target, c).0 == Done
      && (newPassword ==> p.users[target].source == Local)
  {}

  /** A password is reset for a local account exactly, an administrator's by an administrator only. */
  lemma ResetDecided(p: State, now: nat, actor: int, target: int)
    ensures DoReset(p, now, actor, target).0 == Done <==>
      && target in p.users && p.users[target].source == Local
      && (p.users[target].isAdmin ==> IsAdminActor(p.users, actor))
    ensures DoReset(p, now, actor, target).1.users == p.users
  {}

  /** The accounts an event brings about, in terms of the accounts alone. */
  ghost function AccountsAfter(p: State, e: Timed): Users {
    match e.event
    case CreateUser(actor, c) => Create(p.users, IsAdminActor(p.users, actor), p.nextUser, c).1
    case UpdateUser(actor, target, c, newPassword) =>
      if newPassword && target in p.users && p.users[target].source != Local then p.users
      else Update(p.users, actor, IsAdminActor(p.users, actor), target, c).1
    case DeleteUser(actor, target) => Delete(p.users, actor, IsAdminActor(p.users, actor), target).1
    case BulkStatus(actor, ids, active) =>
      Accounts.BulkStatus(p.users, actor, IsAdminActor(p.users, actor), ids, active).1
    case ImportLDAP(rows) => ImportRows(p.users, p.nextUser, rows).0
    case Preregister(emailOk, enabled, upn, email) =>
      var (reply, name) := PreregisteredName(p.users, emailOk, enabled, upn, email, e.now);
      if reply == Done then WithNewAccount(p, User(name, TrimSpace(email), AzureAD, true, false, "")) else p.users
    case LdapFirstSignIn(name, email) => WithNewAccount(p, User(name, email, Ldap, true, false, ""))
    case AzureSignIn(order, login) => AzureAccount(p.users, order, login, p.nextUser, e.now).1
    case _ => p.users
  }

  /** The account is added when nobody has its name. */
  ghost function WithNewAccount(p: State, user: User): Users {
    if exists id :: id in p.users && p.users[id].username == user.username then p.users else p.users[p.nextUser := user]
  }

  lemma AddedAccount(p: State, user: User)
    requires IdsBelow(p.users, p.nextUser)
    ensures Add(p, user).1.users == WithNewAccount(p, user)
  {
    assert NameTaken(p.users, user.username, {}) <==>
      exists id :: id in p.users && p.users[id].username == user.username;
  }

  lemma StepAccounts(t: Timeouts, p: State, e: Timed)
    requires Good(p, e.now)
    ensures Step(t, p, e).users == AccountsAfter(p, e)
  {
    match e.event
    case Preregister(emailOk, enabled, upn, email) =>
      var name := PreregisteredName(p.users, emailOk, enabled, upn, email, e.now).1;
      AddedAccount(p, PreregisteredUser(name, email));
    case LdapFirstSignIn(name, email) => LdapAccount(t, p, e.now, name, email);
    case AzureSignIn(_, _) =>
    case _ => AccountRequests(t, p, e);
  }

  lemma LdapAccount(t: Timeouts, p: State, now: nat, name: string, email: string)
    requires Good(p, now)
    ensures DoLdapFirstSignIn(t, p, now, name, email).users ==
      WithNewAccount(p, User(name, email, Ldap, true, false, ""))
  {
    AddedAccount(p, User(name, email, Ldap, true, false, ""));
    assert NameTaken(p.users, name, {}) <==> exists id :: id in p.users && p.users[id].username == name;
  }

  lemma AccountRequests(t: Timeouts, p: State, e: Timed)
    requires !e.event.Preregister? && !e.event.LdapFirstSignIn? && !e.event.AzureSignIn?
    ensures Step(t, p, e).users == AccountsAfter(p, e)
  {
    match e.event
    case UpdateUser(actor, target, c, newPassword) => UpdatedAccounts(p, e.now, actor, target, c, newPassword);
    case CreateUser(_, _) =>
    case BulkStatus(_, _, _) =>
    case _ =>
  }

  lemma UpdatedAccounts(p: State, now: nat, actor: int, target: int, c: Change, newPassword: bool)
    ensures DoUpdate(p, now, actor, target, c, newPassword).1.users ==
      if newPassword && target in p.users && p.users[target].source != Local then p.users
      else Update(p.users, actor, IsAdminActor(p.users, actor), target, c).1
  {}
}
