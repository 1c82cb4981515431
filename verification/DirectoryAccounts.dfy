/**
 * Which accounts the directories bring about: at a Microsoft sign-in, by pre-registration and by import
 * (backend/internal/api/auth_handlers.go, admin_directory.go, backend/internal/store/users.go).
 */
module DirectoryAccounts {
  import opened Strings
  import opened Accounts
  import opened Identity
  import opened SignInNames
  import Portal

  // ---- A Microsoft sign-in and a pre-registration ----

  /**
   * A known identity keeps its account and changes nothing; a new one takes over the never-bound account the
   * search finds; without one it gets a fresh account, active and not an administrator, bound to it.
   */
  lemma AzureAccountExact(users: Users, order: seq<int>, login: Login, newId: int, now: nat)
    requires Sound(users) && RowOrder(users, order) && login.externalId != "" && newId !in users
    ensures var (account, users') := AzureAccount(users, order, login, newId, now);
      GivenAccount(users, FindUnbound(users, order, login.email, Sanitize(login.username)), login, newId,
                   UniqueUsername(users, NewAccountBase(login), now), account, users')
  {
    BoundExact(users, order, login.externalId);
    FindUnboundIsUnbound(users, order, login.email, Sanitize(login.username));
    BoundOrGiven(users, FindBound(users, order, login.externalId),
      FindUnbound(users, order, login.email, Sanitize(login.username)), login, newId,
                 UniqueUsername(users, NewAccountBase(login), now));
  }

  lemma BoundExact(users: Users, order: seq<int>, externalId: string)
    requires Sound(users) && RowOrder(users, order) && externalId != ""
    ensures var bound := FindBound(users, order, externalId);
      && (bound.Some? ==> bound.value in users && users[bound.value].externalId == externalId)
      && (bound.None? ==> forall id :: id in users ==> users[id].externalId != externalId)
  {
    Portal.FindBoundExact(users, order, externalId);
    var bound := FindBound(users, order, externalId);
    if bound.Some? {
      var id: int := bound.value;
      assert FindBound(users, order, externalId) == Some(id);
    } else {
      forall id | id in users ensures users[id].externalId != externalId {
        assert FindBound(users, order, externalId) != Some(id);
      }
    }
  }

  /** What a sign-in with this identity may find and do, found being the never-bound account of the search. */
  ghost predicate GivenAccount(users: Users, found: Option<int>, login: Login, newId: int, name: string,
                               account: Option<int>, users': Users) {
    if exists id :: id in users && users[id].externalId == login.externalId then
      account.Some? && account.value in users && users[account.value].externalId == login.externalId && users' == users
    else if found.Some? then
      && account == found && found.value in users && Unbound(users[found.value])
      && users' == users[found.value := users[found.value].(externalId := login.externalId)]
    else if exists id :: id in users && users[id].username == name then account == None && users' == users
    else
      && account == Some(newId)
      && users' == users[newId := User(name, login.email, AzureAD, true, false, login.externalId)]
  }

  lemma BoundOrGiven(users: Users, bound: Option<int>, found: Option<int>, login: Login, newId: int, name: string)
    requires newId !in users && (found.Some? ==> found.value in users && Unbound(users[found.value]))
    requires bound.Some? ==> bound.value in users && users[bound.value].externalId == login.externalId
    requires bound.None? ==> forall id :: id in users ==> users[id].externalId != login.externalId
    ensures var (account, users') := BindOrCreate(users, bound, found, login, newId, name);
      GivenAccount(users, found, login, newId, name, account, users')
  {
    if bound.Some? {
      var id: int := bound.value;
      assert id in users && users[id].externalId == login.externalId;
    }
    assert NameTaken(users, name, {}) <==> exists id :: id in users && users[id].username == name;
  }

  /** The fresh account is named after the sign-in name, else after the e-mail address, else "azure-user". */
  lemma NewAccountBaseExact(login: Login)
    ensures var base := NewAccountBase(login);
      && base != "" && CleanName(base)
      && (Sanitize(login.username) != "" ==> base == Sanitize(login.username))
      && (Sanitize(login.username) == "" && Sanitize(login.email) != "" ==> base == Sanitize(login.email))
      && (Sanitize(login.username) == Sanitize(login.email) == "" ==> base == "azure-user")
  {
    SanitizeIsClean(login.username);
    SanitizeIsClean(login.email);
  }

  /** Exactly which pre-registrations are taken, and under which name. */
  lemma PreregisteredNameExact(users: Users, emailOk: bool, enabled: bool, upn: string, email: string, now: nat)
    ensures var (reply, name) := PreregisteredName(users, emailOk, enabled, upn, email, now);
      var given := if TrimSpace(upn) != "" then TrimSpace(upn) else TrimSpace(email);
      && (reply == Done <==>
            && emailOk && enabled && (TrimSpace(upn) == "" || '@' in TrimSpace(upn)) && Sanitize(given) != ""
            && forall id :: id in users && users[id].source == AzureAD ==>
                 !SameLetters(users[id].email, TrimSpace(email)) && users[id].username != Sanitize(given))
      && (reply == Done ==> name == UniqueUsername(users, Sanitize(given), now))
  {
    forall id | id in users ensures Lower(users[id].email) == Lower(TrimSpace(email)) <==>
                                    SameLetters(users[id].email, TrimSpace(email)) {
      LowerFolds(users[id].email, TrimSpace(email));
    }
  }

  // ---- The directory import ----

  /** The e-mail address the last row for a name gives. */
  function LastEmail(rows: seq<(string, string)>, name: string): Option<string> {
    if rows == [] then None
    else if rows[|rows| - 1].0 == name then Some(rows[|rows| - 1].1)
    else LastEmail(rows[..|rows| - 1], name)
  }

  /** What an import makes of one account: a listed LDAP account gets the address, any other stays. */
  ghost predicate ImportedAs(before: Users, rows: seq<(string, string)>, id: int, after: User) {
    if id in before then
      after == if before[id].source == Ldap && LastEmail(rows, before[id].username).Some?
               then before[id].(email := LastEmail(rows, before[id].username).value) else before[id]
    else
      && LastEmail(rows, after.username).Some? && !NameTaken(before, after.username, {})
      && after == User(after.username, LastEmail(rows, after.username).value, Ldap, true, false, "")
  }

  ghost predicate AllImported(before: Users, rows: seq<(string, string)>, after: Users) {
    (forall id :: id in before ==> id in after) && forall id :: id in after ==> ImportedAs(before, rows, id, after[id])
  }

  /** Every listed name is that of some account. */
  ghost predicate AllListed(rows: seq<(string, string)>, after: Users) {
    forall name :: LastEmail(rows, name).Some? ==> NameTaken(after, name, {})
  }

  /** An import adds an LDAP account for every listed name that nobody has, and touches nothing else but addresses. */
  lemma {:induction false} ImportExact(users: Users, next: int, rows: seq<(string, string)>)
    requires Portal.IdsBelow(users, next) && 0 < next
    ensures var (after, n) := Portal.ImportRows(users, next, rows);
      && Portal.IdsBelow(after, n) && next <= n && AllImported(users, rows, after) && AllListed(rows, after)
  {
    if rows != [] {
      var init := rows[..|rows| - 1];
      var (name, email) := rows[|rows| - 1];
      ImportExact(users, next, init);
      var (middle, m) := Portal.ImportRows(users, next, init);
      assert init + [(name, email)] == rows;
      RowExact(users, middle, m, init, name, email);
      RowListed(middle, m, init, name, email);
    }
  }

  lemma RowExact(users: Users, middle: Users, m: int, init: seq<(string, string)>, name: string, email: string)
    requires Portal.IdsBelow(middle, m) && 0 < m && AllImported(users, init, middle)
    ensures var (after, n) := Portal.ImportRow(middle, m, name, email);
      Portal.IdsBelow(after, n) && m <= n && AllImported(users, init + [(name, email)], after)
  {
    if NameTaken(middle, name, {}) {
      AddressRow(users, middle, init, name, email, m);
    } else {
      NewRow(users, middle, init, name, email, m);
    }
  }

  lemma RowListed(middle: Users, m: int, init: seq<(string, string)>, name: string, email: string)
    requires Portal.IdsBelow(middle, m) && AllListed(init, middle)
    ensures AllListed(init + [(name, email)], Portal.ImportRow(middle, m, name, email).0)
  {
    OneMoreRow(init, name, email);
    forall x | LastEmail(init + [(name, email)], x).Some?
      ensures NameTaken(Portal.ImportRow(middle, m, name, email).0, x, {})
    {
      StillNamed(middle, m, name, email, x);
    }
  }

  lemma OneMoreRow(init: seq<(string, string)>, name: string, email: string)
    ensures forall x :: LastEmail(init + [(name, email)], x) == if x == name then Some(email) else LastEmail(init, x)
  {
    assert (init + [(name, email)])[..|init|] == init;
  }

  lemma StillNamed(middle: Users, m: int, name: string, email: string, x: string)
    requires Portal.IdsBelow(middle, m) && (x == name || NameTaken(middle, x, {}))
    ensures NameTaken(Portal.ImportRow(middle, m, name, email).0, x, {})
  {
    var after := Portal.ImportRow(middle, m, name, email).0;
    if NameTaken(middle, x, {}) {
      var id :| id in middle && middle[id].username == x;
      assert id in after && after[id].username == x;
    } else {
      assert after[m].username == x;
    }
  }

  lemma AddressRow(users: Users, middle: Users, init: seq<(string, string)>, name: string, email: string, m: int)
    requires NameTaken(middle, name, {}) && forall id :: id in users ==> id in middle
    requires forall id :: id in middle ==> ImportedAs(users, init, id, middle[id])
    ensures var after, rows := Portal.ImportRow(middle, m, name, email).0, init + [(name, email)];
      after.Keys == middle.Keys && forall id :: id in after ==> ImportedAs(users, rows, id, after[id])
  {
    OneMoreRow(init, name, email);
  }

  lemma NewRow(users: Users, middle: Users, init: seq<(string, string)>, name: string, email: string, m: int)
    requires !NameTaken(middle, name, {}) && Portal.IdsBelow(middle, m) && forall id :: id in users ==> id in middle
    requires forall id :: id in middle ==> ImportedAs(users, init, id, middle[id])
    ensures var after, rows := Portal.ImportRow(middle, m, name, email).0, init + [(name, email)];
      after.Keys == middle.Keys + {m} && forall id :: id in after ==> ImportedAs(users, rows, id, after[id])
  {
    var after, rows := Portal.ImportRow(middle, m, name, email).0, init + [(name, email)];
    OneMoreRow(init, name, email);
    NotTakenBefore(users, middle, init, name);
    assert ImportedAs(users, rows, m, after[m]);
  }

  /** A name nobody has after some rows, nobody had before them. */
  lemma NotTakenBefore(users: Users, middle: Users, init: seq<(string, string)>, name: string)
    requires !NameTaken(middle, name, {}) && forall id :: id in users ==> id in middle
    requires forall id :: id in middle ==> ImportedAs(users, init, id, middle[id])
    ensures !NameTaken(users, name, {})
  {
    forall id | id in users ensures users[id].username != name {
      assert id in middle && middle[id].username == users[id].username;
    }
  }
}
