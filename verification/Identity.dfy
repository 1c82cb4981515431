/**
 * Sign-in names and the one-time binding of Azure AD identities to accounts
 * (backend/internal/api/auth_handlers.go, admin_directory.go, backend/internal/store/users.go, audit.go).
 */
module Identity {
  import opened Strings
  import opened Accounts

  // ---- SQL LIKE ----

  function EscapeLike(s: string): string {
    if s == "" then ""
    else (if s[0] == '%' || s[0] == '_' || s[0] == '\\' then ['\\', s[0]] else [s[0]]) + EscapeLike(s[1..])
  }

  /** SQLite's text LIKE pattern ESCAPE '\': '%' matches any run, '_' any character, ASCII case is ignored. */
  predicate Like(text: string, pattern: string)
    decreases |pattern|, |text|
  {
    if pattern == "" then text == ""
    else if pattern[0] == '%' then
      Like(text, pattern[1..]) || (text != "" && Like(text[1..], pattern))
    else if pattern[0] == '\\' then
      |pattern| > 1 && text != "" && LowerChar(text[0]) == LowerChar(pattern[1]) && Like(text[1..], pattern[2..])
    else
      text != "" && (pattern[0] == '_' || LowerChar(text[0]) == LowerChar(pattern[0])) && Like(text[1..], pattern[1..])
  }

  /** A pattern of one-character wildcards matches exactly the texts of its length. */
  lemma {:induction false} LikeCounts(text: string, n: nat)
    ensures Like(text, seq(n, _ => '_')) <==> |text| == n
  {
    if n > 0 && text != "" {
      assert seq(n, _ => '_')[1..] == seq(n - 1, _ => '_');
      LikeCounts(text[1..], n - 1);
    }
  }

  lemma {:induction false} LikeAnything(text: string)
    ensures Like(text, "%")
  {
    if text != "" { LikeAnything(text[1..]); }
    assert "%"[1..] == "";
  }

  /** An escaped prefix followed by '%' matches exactly the texts that start with it, up to ASCII case. */
  lemma {:induction false} LikeEscapedPrefix(text: string, prefix: string)
    ensures Like(text, EscapeLike(prefix) + "%") <==> StartsWith(Lower(text), Lower(prefix))
  {
    var pattern := EscapeLike(prefix) + "%";
    if prefix == "" {
      assert pattern == "%";
      LikeAnything(text);
    } else {
      var rest := EscapeLike(prefix[1..]) + "%";
      if prefix[0] == '%' || prefix[0] == '_' || prefix[0] == '\\' {
        assert pattern == ['\\', prefix[0]] + rest;
        assert pattern[2..] == rest;
      } else {
        assert pattern == [prefix[0]] + rest;
        assert pattern[1..] == rest;
      }
      if text != "" {
        LikeEscapedPrefix(text[1..], prefix[1..]);
        var lt, lp := Lower(text), Lower(prefix);
        assert lt[1..] == Lower(text[1..]) && lp[1..] == Lower(prefix[1..]);
        if StartsWith(lt[1..], lp[1..]) && lt[0] == lp[0] {
          assert lt[..|lp|] == [lt[0]] + lt[1..][..|lp| - 1];
        }
        if StartsWith(lt, lp) {
          assert lt[1..][..|lp| - 1] == lt[..|lp|][1..];
        }
      }
    }
  }

  // ---- Sign-in names ----

  predicate NameChar(c: char) {
    'a' <= c <= 'z' || '0' <= c <= '9' || c == '.' || c == '-' || c == '_'
  }

  predicate Separator(c: char) {
    c == '.' || c == '_' || c == '-'
  }

  function SpacesToDots(s: string): (r: string)
    ensures |r| == |s|
  {
    seq(|s|, i requires 0 <= i < |s| => if s[i] == ' ' then '.' else s[i])
  }

  function BeforeAt(s: string): (r: string)
    ensures '@' !in s ==> r == s
    ensures '@' !in r
  {
    if s == "" || s[0] == '@' then "" else [s[0]] + BeforeAt(s[1..])
  }

  function KeepNameChars(s: string): (r: string)
    ensures forall i :: 0 <= i < |r| ==> NameChar(r[i])
    ensures (forall i :: 0 <= i < |s| ==> NameChar(s[i])) ==> r == s
  {
    if s == "" then "" else (if NameChar(s[0]) then [s[0]] else "") + KeepNameChars(s[1..])
  }

  function TrimSeparatorsLeft(s: string): (r: string)
    ensures r != "" ==> s != "" && !Separator(r[0]) && r[|r| - 1] == s[|s| - 1]
    ensures s != "" && !Separator(s[0]) ==> r == s
  {
    if s != "" && Separator(s[0]) then TrimSeparatorsLeft(s[1..]) else s
  }

  function TrimSeparatorsRight(s: string): (r: string)
    ensures r != "" ==> s != "" && !Separator(r[|r| - 1]) && r[0] == s[0]
    ensures s != "" && !Separator(s[|s| - 1]) ==> r == s
  {
    if s != "" && Separator(s[|s| - 1]) then TrimSeparatorsRight(s[..|s| - 1]) else s
  }

  function Sanitize(value: string): string {
    TrimSeparatorsRight(TrimSeparatorsLeft(KeepNameChars(BeforeAt(SpacesToDots(TrimSpace(Lower(value)))))))
  }

  /** A name sanitizing leaves alone: allowed characters, no separator at either end. */
  predicate CleanName(s: string) {
    && (forall i :: 0 <= i < |s| ==> NameChar(s[i]))
    && (s != "" ==> !Separator(s[0]) && !Separator(s[|s| - 1]))
  }

  predicate Separators(s: string) {
    forall i :: 0 <= i < |s| ==> Separator(s[i])
  }

  /** Trimming cuts separators off both ends and nothing else. */
  lemma TrimmedBetween(s: string)
    returns (a: string, b: string)
    ensures var r := TrimSeparatorsRight(TrimSeparatorsLeft(s));
      && s == a + r + b && Separators(a) && Separators(b)
  {
    var left := TrimSeparatorsLeft(s);
    a := LeftCut(s);
    b := RightCut(left);
    assert s == a + (TrimSeparatorsRight(left) + b);
  }

  lemma {:induction false} LeftCut(s: string) returns (a: string)
    ensures s == a + TrimSeparatorsLeft(s) && Separators(a)
  {
    if s != "" && Separator(s[0]) {
      var rest := LeftCut(s[1..]);
      a := [s[0]] + rest;
      assert s == [s[0]] + s[1..];
    } else {
      a := "";
    }
  }

  lemma {:induction false} RightCut(s: string) returns (b: string)
    ensures s == TrimSeparatorsRight(s) + b && Separators(b)
  {
    if s != "" && Separator(s[|s| - 1]) {
      var rest := RightCut(s[..|s| - 1]);
      b := rest + [s[|s| - 1]];
      assert s == s[..|s| - 1] + [s[|s| - 1]];
    } else {
      b := "";
    }
  }

  lemma SanitizeIsClean(value: string)
    ensures CleanName(Sanitize(value))
  {
    var kept := KeepNameChars(BeforeAt(SpacesToDots(TrimSpace(Lower(value)))));
    var r := Sanitize(value);
    var a, b := TrimmedBetween(kept);
    forall i | 0 <= i < |r| ensures NameChar(r[i]) {
      assert r[i] == kept[|a| + i];
    }
  }

  lemma CleanNamesAreLower(s: string)
    requires CleanName(s)
    ensures Lower(s) == s && TrimSpace(s) == s
  {
    assert forall i :: 0 <= i < |s| ==> !IsSpace(s[i]);
  }

  lemma NoSpaceNoDots(s: string)
    requires ' ' !in s
    ensures SpacesToDots(s) == s
  {
    assert forall i :: 0 <= i < |s| ==> s[i] in s;
  }

  lemma CleanNamesStay(s: string)
    requires CleanName(s)
    ensures Sanitize(s) == s
  {
    CleanNamesAreLower(s);
    assert ' ' !in s && '@' !in s;
    NoSpaceNoDots(s);
  }

  lemma SanitizeIdempotent(value: string)
    ensures Sanitize(Sanitize(value)) == Sanitize(value)
  {
    SanitizeIsClean(value);
    CleanNamesStay(Sanitize(value));
  }

  predicate IsNumericSuffix(v: string) {
    v != "" && AllDigits(v)
  }

  function TrimPrefix(s: string, prefix: string): string {
    if StartsWith(s, prefix) then s[|prefix|..] else s
  }

  /** name with a number appended, as UniqueUsername forms it. */
  predicate NumberedName(name: string, base: string) {
    StartsWith(name, base + "-") && IsNumericSuffix(name[|base| + 1..])
  }

  /** The LIKE filter and the check after it keep exactly the numbered forms of a clean name. */
  lemma SuffixFilterIsExact(name: string, base: string)
    requires base != "" && CleanName(base)
    ensures Like(name, EscapeLike(base) + "-%") && IsNumericSuffix(TrimPrefix(name, base + "-"))
            <==> NumberedName(name, base)
  {
    EscapeAppends(base, "-");
    assert EscapeLike("-") == "-";
    assert EscapeLike(base) + "-%" == EscapeLike(base + "-") + "%";
    LikeEscapedPrefix(name, base + "-");
    if StartsWith(name, base + "-") {
      assert Lower(name)[..|base| + 1] == Lower(name[..|base| + 1]);
    } else {
      var lower, wanted := Lower(name), Lower(base + "-");
      assert StartsWith(lower, wanted) ==> lower[..|wanted|][|base|] == lower[|base|] == '-';
      assert StartsWith(lower, wanted) ==> !IsDigit(name[|base|]);
    }
  }

  lemma {:induction false} EscapeAppends(a: string, b: string)
    ensures EscapeLike(a + b) == EscapeLike(a) + EscapeLike(b)
  {
    if a == "" {
      assert a + b == b;
    } else {
      assert (a + b)[1..] == a[1..] + b;
      EscapeAppends(a[1..], b);
    }
  }

  /** Byte by byte, with a backslash before what LIKE would read as a pattern. */
  method WriteEscaped(s: string) returns (escaped: string)
    ensures escaped == EscapeLike(s)
  {
    escaped := "";
    for i := 0 to |s|
      invariant escaped == EscapeLike(s[..i])
    {
      assert s[..i + 1] == s[..i] + [s[i]];
      EscapeAppends(s[..i], [s[i]]);
      EscapeOne(s[i]);
      if s[i] == '%' || s[i] == '_' || s[i] == '\\' {
        escaped := escaped + ['\\', s[i]];
      } else {
        escaped := escaped + [s[i]];
      }
    }
    assert s[..|s|] == s;
  }

  lemma EscapeOne(c: char)
    ensures EscapeLike([c]) == if c == '%' || c == '_' || c == '\\' then ['\\', c] else [c]
  {
    assert [c][1..] == "";
    assert EscapeLike("") == "";
  }

  // ---- Choosing and finding accounts ----

  /** The order in which the database happens to return the rows of the users table. */
  ghost predicate RowOrder(users: Users, order: seq<int>) {
    && (forall id :: id in order <==> id in users)
    && Distinct(order)
  }

  predicate Unbound(u: User) {
    u.source == AzureAD && u.externalId == ""
  }

  /** The rows satisfying a condition, in row order. */
  function Rows(users: Users, order: seq<int>, where: User -> bool): seq<int> {
    if order == [] then []
    else
      (if order[0] in users && where(users[order[0]]) then [order[0]] else []) + Rows(users, order[1..], where)
  }

  /** The single row of the first 20 that pass where and keep; None when several or none do. */
  function UniqueUnbound(users: Users, order: seq<int>, where: User -> bool, keep: User -> bool): Option<int> {
    var rows := Rows(users, order, UnboundAnd(where));
    var found := Rows(users, if |rows| > 20 then rows[..20] else rows, keep);
    if |found| == 1 then Some(found[0]) else None
  }

  function SuffixFilter(base: string): User -> bool {
    (u: User) => Like(u.username, EscapeLike(base) + "-%")
  }

  function SuffixKeep(base: string): User -> bool {
    (u: User) => IsNumericSuffix(TrimPrefix(u.username, base + "-"))
  }

  function NameIs(name: string): User -> bool {
    (u: User) => u.username == name
  }

  function AnyUser(): User -> bool {
    (u: User) => true
  }

  function UnboundAnd(where: User -> bool): User -> bool {
    (u: User) => Unbound(u) && where(u)
  }

  function EmailFilter(email: string): User -> bool {
    (u: User) => Lower(u.email) == Lower(email)
  }

  function ByName(users: Users, order: seq<int>, name: string): Option<int> {
    var exact := Rows(users, order, UnboundAnd(NameIs(name)));
    if name == "" then None
    else if exact != [] then Some(exact[0])
    else UniqueUnbound(users, order, SuffixFilter(name), SuffixKeep(name))
  }

  /** The never-bound account that an identity seen for the first time takes over. */
  function FindUnbound(users: Users, order: seq<int>, email: string, name: string): Option<int> {
    if ByName(users, order, name).Some? then ByName(users, order, name)
    else if email == "" then None
    else UniqueUnbound(users, order, EmailFilter(email), AnyUser())
  }

  function FindBound(users: Users, order: seq<int>, externalId: string): Option<int> {
    var rows := Rows(users, order, (u: User) => u.source == AzureAD && u.externalId == externalId);
    if rows != [] then Some(rows[0]) else None
  }

  /** base, or the first free base-N for N from i, or base with the Unix time. */
  ghost function FreeNumbered(users: Users, base: string, i: nat, now: nat): string
    decreases 1000 - i
  {
    if i >= 1000 then base + "-" + Digits(now)
    else if NameTaken(users, base + "-" + Digits(i), {}) then FreeNumbered(users, base, i + 1, now)
    else base + "-" + Digits(i)
  }

  ghost function UniqueUsername(users: Users, base: string, now: nat): string {
    if NameTaken(users, base, {}) then FreeNumbered(users, base, 2, now) else base
  }

  datatype Login = Login(externalId: string, username: string, email: string)

  function NewAccountBase(login: Login): string {
    if Sanitize(login.username) != "" then Sanitize(login.username)
    else if Sanitize(login.email) != "" then Sanitize(login.email)
    else "azure-user"
  }

  /** Signs in to the bound account, binds the unbound one, or creates an account under a free name. */
  ghost function BindOrCreate(users: Users, bound: Option<int>, unbound: Option<int>, login: Login, newId: int,
                              name: string)
    : (Option<int>, Users)
  {
    if bound.Some? then (bound, users)
    else if unbound.Some? && unbound.value in users then
      (unbound, users[unbound.value := users[unbound.value].(externalId := login.externalId)])
    else
      var (reply, users') := Insert(users, newId, User(name, login.email, AzureAD, true, false, login.externalId));
      (if reply == Done then Some(newId) else None, users')
  }

  /** The account an Azure AD identity ends up with, and the accounts afterwards. */
  ghost function AzureAccount(users: Users, order: seq<int>, login: Login, newId: int, now: nat): (Option<int>, Users) {
    BindOrCreate(users, FindBound(users, order, login.externalId),
                 FindUnbound(users, order, login.email, Sanitize(login.username)),
                 login, newId, UniqueUsername(users, NewAccountBase(login), now))
  }

  /** The account name a pre-registration would get, or why it is refused. */
  ghost function PreregisteredName(users: Users, emailOk: bool, enabled: bool, upn: string, email: string, now: nat)
    : (Reply, string)
  {
    var base := Sanitize(if TrimSpace(upn) != "" then TrimSpace(upn) else TrimSpace(email));
    if !emailOk then (Invalid, "")
    else if TrimSpace(upn) != "" && '@' !in TrimSpace(upn) then (Invalid, "")
    else if !enabled then (Invalid, "")
    else if base == "" then (Invalid, "")
    else if exists id :: id in users && users[id].source == AzureAD && Lower(users[id].email) == Lower(TrimSpace(email))
      then (Conflict, "")
    else if exists id :: id in users && users[id].source == AzureAD && users[id].username == base then (Conflict, "")
    else (Done, UniqueUsername(users, base, now))
  }

  function PreregisteredUser(name: string, email: string): User {
    User(name, TrimSpace(email), AzureAD, true, false, "")
  }

  // ---- What the searches return ----

  predicate Distinct(ids: seq<int>) {
    forall i, j :: 0 <= i < j < |ids| ==> ids[i] != ids[j]
  }

  lemma {:induction false} RowsExact(users: Users, order: seq<int>, where: User -> bool)
    ensures forall id :: id in Rows(users, order, where) <==> id in order && id in users && where(users[id])
    ensures Distinct(order) ==> Distinct(Rows(users, order, where))
  {
    if order != [] {
      var rest := order[1..];
      RowsExact(users, rest, where);
      assert order == [order[0]] + rest;
      if Distinct(order) {
        assert Distinct(rest) && order[0] !in rest;
      }
    }
  }

  lemma OneElement(s: seq<int>, id: int)
    requires Distinct(s) && id in s && forall x :: x in s ==> x == id
    ensures s == [id]
  {
    if |s| > 1 {
      TwoElements(s);
      assert false;
    }
  }

  lemma TwoElements(s: seq<int>)
    requires Distinct(s) && |s| > 1
    ensures s[0] in s && s[1] in s && s[0] != s[1]
  {}

  /** The rows a search looks at: the first 20 never-bound accounts that pass the filter. */
  function Scanned(users: Users, order: seq<int>, where: User -> bool): seq<int> {
    var rows := Rows(users, order, UnboundAnd(where));
    if |rows| > 20 then rows[..20] else rows
  }

  ghost predicate OnlyScannedMatch(users: Users, order: seq<int>, id: int, where: User -> bool, keep: User -> bool) {
    && id in Scanned(users, order, where) && id in users && keep(users[id])
    && forall other :: other in Scanned(users, order, where) && other in users && keep(users[other]) ==> other == id
  }

  ghost predicate OnlyMatch(users: Users, id: int, where: User -> bool, keep: User -> bool) {
    && id in users && Unbound(users[id]) && where(users[id]) && keep(users[id])
    && forall other :: other in users && Unbound(users[other]) && where(users[other]) && keep(users[other]) ==>
      other == id
  }

  lemma ScannedIsDistinct(users: Users, order: seq<int>, where: User -> bool)
    requires RowOrder(users, order)
    ensures Distinct(Scanned(users, order, where))
    ensures forall id :: id in Scanned(users, order, where) ==> id in users && Unbound(users[id]) && where(users[id])
    ensures |Rows(users, order, UnboundAnd(where))| <= 20 ==>
      forall id :: id in users && Unbound(users[id]) && where(users[id]) ==> id in Scanned(users, order, where)
  {
    var rows := Rows(users, order, UnboundAnd(where));
    RowsExact(users, order, UnboundAnd(where));
    assert forall id :: id in Scanned(users, order, where) ==> id in rows;
  }

  /** The search finds exactly the only account passing both tests among the rows it looks at. */
  lemma UniqueUnboundExact(users: Users, order: seq<int>, where: User -> bool, keep: User -> bool, id: int)
    requires RowOrder(users, order)
    ensures UniqueUnbound(users, order, where, keep) == Some(id) <==> OnlyScannedMatch(users, order, id, where, keep)
  {
    var rows := Scanned(users, order, where);
    ScannedIsDistinct(users, order, where);
    RowsExact(users, rows, keep);
    var found := Rows(users, rows, keep);
    if OnlyScannedMatch(users, order, id, where, keep) {
      assert id in found;
      OneElement(found, id);
    }
    if found == [id] {
      assert id in found;
      forall other | other in rows && other in users && keep(users[other]) ensures other == id {
        assert other in found;
      }
    }
  }

  /** While at most 20 rows pass the filter, those are all the rows there are. */
  lemma FewRowsAreAllScanned(users: Users, order: seq<int>, where: User -> bool, keep: User -> bool, id: int)
    requires RowOrder(users, order) && |Rows(users, order, UnboundAnd(where))| <= 20
    ensures OnlyScannedMatch(users, order, id, where, keep) <==> OnlyMatch(users, id, where, keep)
  {
    ScannedIsDistinct(users, order, where);
  }

  lemma FreeNumberedForm(users: Users, base: string, i: nat, now: nat)
    ensures NumberedName(FreeNumbered(users, base, i, now), base)
    decreases 1000 - i
  {
    if i >= 1000 {
      assert (base + "-" + Digits(now))[|base| + 1..] == Digits(now);
    } else if !NameTaken(users, base + "-" + Digits(i), {}) {
      assert (base + "-" + Digits(i))[|base| + 1..] == Digits(i);
    } else {
      FreeNumberedForm(users, base, i + 1, now);
    }
  }

  lemma PreregisteredNameForm(users: Users, upn: string, email: string, now: nat)
    requires PreregisteredName(users, true, true, upn, email, now).0 == Done && TrimSpace(upn) != ""
    ensures var base, name := Sanitize(TrimSpace(upn)), PreregisteredName(users, true, true, upn, email, now).1;
      base != "" && CleanName(base) && (name == base || NumberedName(name, base))
  {
    var base := Sanitize(TrimSpace(upn));
    SanitizeIsClean(TrimSpace(upn));
    FreeNumberedForm(users, base, 2, now);
  }

  /** The never-bound accounts with a numbered form of the name among the rows the search looks at. */
  ghost function NumberedCandidates(users: Users, order: seq<int>, base: string): set<int> {
    set id | id in Scanned(users, order, SuffixFilter(base)) && id in users && NumberedName(users[id].username, base)
  }

  ghost predicate UnboundNamed(users: Users, name: string) {
    exists id :: id in users && Unbound(users[id]) && users[id].username == name
  }

  ghost predicate OnlyByEmail(users: Users, id: int, email: string)
    requires id in users
  {
    && email != "" && Lower(users[id].email) == Lower(email)
    && forall other :: other in users && other != id && Unbound(users[other]) ==>
      Lower(users[other].email) != Lower(email)
  }

  /**
   * The account has the name itself; or nobody never-bound has it and the account is the only
   * numbered candidate; or there is not exactly one of these either and only it has the e-mail.
   */
  ghost predicate OnlyCandidate(users: Users, order: seq<int>, id: int, base: string, email: string)
    requires id in users
  {
    var numbered := NumberedCandidates(users, order, base);
    || users[id].username == base
    || (!UnboundNamed(users, base) && (if |numbered| == 1 then id in numbered else OnlyByEmail(users, id, email)))
  }

  /** For every table of accounts: when the search for a new identity gives this account. */
  lemma FindUnboundExact(users: Users, order: seq<int>, base: string, email: string, id: int)
    requires RowOrder(users, order) && UniqueNames(users) && base != "" && CleanName(base)
    requires id in users && Unbound(users[id])
    ensures FindUnbound(users, order, email, base) == Some(id) <==> OnlyCandidate(users, order, id, base, email)
  {
    if UnboundNamed(users, base) {
      NamedIsFound(users, order, base, email, id);
    } else {
      NameSearch(users, order, base);
      NumberedSearch(users, order, base);
      if |NumberedCandidates(users, order, base)| != 1 {
        UniqueUnboundByEmail(users, order, email, id);
      } else {
        assert FindUnbound(users, order, email, base)
            == UniqueUnbound(users, order, SuffixFilter(base), SuffixKeep(base));
      }
    }
  }

  lemma NamedIsFound(users: Users, order: seq<int>, base: string, email: string, id: int)
    requires RowOrder(users, order) && UniqueNames(users) && base != "" && UnboundNamed(users, base)
    requires id in users && Unbound(users[id])
    ensures FindUnbound(users, order, email, base) == Some(id) <==> users[id].username == base
  {
    NameSearch(users, order, base);
    var exact := Rows(users, order, UnboundAnd(NameIs(base)));
    var first: int := exact[0];
    assert FindUnbound(users, order, email, base) == Some(first);
    if users[id].username == base {
      assert users[first].username == users[id].username;
    }
  }

  /**
   * Pre-registering with a UPN and signing in with it later, while the account is still there and
   * never bound, binds exactly that account if and only if it is the only candidate.
   */
  lemma PreregistrationRoundTrip(before: Users, upn: string, email: string, now: nat, id: int,
                                 users: Users, order: seq<int>, login: Login, newId: int, later: nat)
    requires TrimSpace(upn) == login.username && login.username != ""
    requires PreregisteredName(before, true, true, upn, email, now).0 == Done
    requires RowOrder(users, order) && UniqueNames(users)
    requires FindBound(users, order, login.externalId).None?
    requires id in users && Unbound(users[id])
    requires users[id].username == PreregisteredName(before, true, true, upn, email, now).1
    ensures OnlyCandidate(users, order, id, Sanitize(login.username), login.email) <==>
      AzureAccount(users, order, login, newId, later)
        == (Some(id), users[id := users[id].(externalId := login.externalId)])
  {
    PreregisteredNameForm(before, upn, email, now);
    FindUnboundExact(users, order, Sanitize(login.username), login.email, id);
    AzureAccountBinds(users, order, login, newId, later, id);
  }

  /** The pre-registered account is the only candidate when no other account could be meant by the name. */
  lemma NumberedAloneIsCandidate(users: Users, order: seq<int>, base: string, email: string, id: int)
    requires RowOrder(users, order) && base != "" && CleanName(base)
    requires id in users && Unbound(users[id]) && NumberedName(users[id].username, base)
    requires |Rows(users, order, UnboundAnd(SuffixFilter(base)))| <= 20
    requires forall other :: other in users && other != id && Unbound(users[other]) ==>
      users[other].username != base && !NumberedName(users[other].username, base)
    ensures OnlyCandidate(users, order, id, base, email)
  {
    ScannedIsDistinct(users, order, SuffixFilter(base));
    SuffixFilterIsExact(users[id].username, base);
    assert users[id].username != base;
    assert NumberedCandidates(users, order, base) == {id};
  }

  /**
   * A numbered pre-registration loses to a later one: the account that held the name is gone, and
   * a second pre-registration with the same local part takes the plain name. Signing in with the
   * first UPN then binds the second account.
   */
  lemma SecondPreregistrationWins(users: Users, order: seq<int>, upn: string, email: string, now: nat, id: int,
                                  other: int, login: Login, newId: int, later: nat)
    requires Sanitize(TrimSpace(upn)) == Sanitize(login.username) && TrimSpace(upn) != ""
    requires PreregisteredName(users, true, true, upn, email, now).0 == Done
    requires !NameTaken(users, Sanitize(login.username), {}) && other !in users && UniqueNames(users)
    requires id in users && Unbound(users[id]) && NumberedName(users[id].username, Sanitize(login.username))
    requires var after := users[other := PreregisteredUser(Sanitize(login.username), email)];
      RowOrder(after, order) && FindBound(after, order, login.externalId).None?
    ensures PreregisteredName(users, true, true, upn, email, now).1 == Sanitize(login.username)
    ensures var after := users[other := PreregisteredUser(Sanitize(login.username), email)];
      && AzureAccount(after, order, login, newId, later).0 == Some(other) != Some(id)
      && !OnlyCandidate(after, order, id, Sanitize(login.username), login.email)
  {
    var base := Sanitize(login.username);
    var after := users[other := PreregisteredUser(base, email)];
    FreeNameIsTaken(users, upn, email, now);
    AddedNameIsUnique(users, other, PreregisteredUser(base, email));
    PlainNameWins(after, order, base, login, newId, later, id, other);
  }

  /** A pre-registration takes the plain name when it is free. */
  lemma FreeNameIsTaken(users: Users, upn: string, email: string, now: nat)
    requires PreregisteredName(users, true, true, upn, email, now).0 == Done && TrimSpace(upn) != ""
    requires !NameTaken(users, Sanitize(TrimSpace(upn)), {})
    ensures PreregisteredName(users, true, true, upn, email, now).1 == Sanitize(TrimSpace(upn)) != ""
  {}

  lemma AddedNameIsUnique(users: Users, id: int, user: User)
    requires UniqueNames(users) && !NameTaken(users, user.username, {}) && id !in users
    ensures UniqueNames(users[id := user])
    ensures forall other :: other in users ==> users[other].username != user.username
  {}

  lemma PlainNameWins(users: Users, order: seq<int>, base: string, login: Login, newId: int, later: nat, id: int,
                      other: int)
    requires RowOrder(users, order) && UniqueNames(users) && FindBound(users, order, login.externalId).None?
    requires base == Sanitize(login.username) != ""
    requires other in users && Unbound(users[other]) && users[other].username == base
    requires id in users && users[id].username != base
    ensures AzureAccount(users, order, login, newId, later).0 == Some(other) != Some(id)
    ensures !OnlyCandidate(users, order, id, base, login.email)
  {
    NamedIsFound(users, order, base, login.email, other);
    AzureAccountBinds(users, order, login, newId, later, other);
  }

  /** Such a table: the sign-in name "bob" binds account 2, not the pre-registered "bob-2". */
  lemma BobGetsTheOtherAccount(users: Users, order: seq<int>, name: string, email: string)
    requires users == map[1 := PreregisteredUser("bob-2", "a@x"), 2 := PreregisteredUser("bob", "b@x")]
    requires name == "bob" && RowOrder(users, order)
    ensures FindUnbound(users, order, email, name) == Some(2)
  {
    assert |users[1].username| == 5 && |users[2].username| == |name| == 3;
    assert 2 in users && users[2].username == name && Unbound(users[2]);
    assert UnboundNamed(users, name);
    NameSearch(users, order, name);
    var exact := Rows(users, order, UnboundAnd(NameIs(name)));
    assert exact != [] && exact[0] == 2;
    assert ByName(users, order, name) == Some(2);
  }

  lemma AzureAccountBinds(users: Users, order: seq<int>, login: Login, newId: int, now: nat, id: int)
    requires FindBound(users, order, login.externalId).None? && id in users
    ensures FindUnbound(users, order, login.email, Sanitize(login.username)) == Some(id) <==>
      AzureAccount(users, order, login, newId, now)
        == (Some(id), users[id := users[id].(externalId := login.externalId)])
  {
    FindUnboundIsUnbound(users, order, login.email, Sanitize(login.username));
  }

  lemma FindUnboundIsUnbound(users: Users, order: seq<int>, email: string, name: string)
    ensures var found := FindUnbound(users, order, email, name);
      found.Some? ==> found.value in users && Unbound(users[found.value])
  {
    RowsExact(users, order, UnboundAnd(NameIs(name)));
    var exact := Rows(users, order, UnboundAnd(NameIs(name)));
    if exact != [] {
      var id: int := exact[0];
      assert id in exact;
    }
    UniqueUnboundIsUnbound(users, order, SuffixFilter(name), SuffixKeep(name));
    UniqueUnboundIsUnbound(users, order, EmailFilter(email), AnyUser());
  }

  lemma UniqueUnboundIsUnbound(users: Users, order: seq<int>, where: User -> bool, keep: User -> bool)
    ensures var found := UniqueUnbound(users, order, where, keep);
      found.Some? ==> found.value in users && Unbound(users[found.value])
  {
    var rows := Rows(users, order, UnboundAnd(where));
    var few := if |rows| > 20 then rows[..20] else rows;
    RowsExact(users, order, UnboundAnd(where));
    RowsExact(users, few, keep);
    var found := Rows(users, few, keep);
    assert forall id :: id in few ==> id in rows;
    if |found| == 1 {
      var id: int := found[0];
      assert id in found;
    }
  }

  /** The exact-name search finds the never-bound account of that name, if there is one. */
  lemma NameSearch(users: Users, order: seq<int>, name: string)
    requires RowOrder(users, order) && UniqueNames(users)
    ensures var rows := Rows(users, order, UnboundAnd(NameIs(name)));
      && (rows != [] <==> UnboundNamed(users, name))
      && (rows != [] ==> rows[0] in users && Unbound(users[rows[0]]) && users[rows[0]].username == name)
  {
    var rows := Rows(users, order, UnboundAnd(NameIs(name)));
    RowsExact(users, order, UnboundAnd(NameIs(name)));
    if rows != [] {
      var first: int := rows[0];
      assert first in rows;
    }
    if id :| id in users && Unbound(users[id]) && users[id].username == name {
      assert id in rows;
    }
  }

  lemma NumberedMatch(users: Users, order: seq<int>, base: string, id: int)
    requires RowOrder(users, order) && base != "" && CleanName(base)
    ensures OnlyScannedMatch(users, order, id, SuffixFilter(base), SuffixKeep(base))
      <==> NumberedCandidates(users, order, base) == {id}
  {
    ScannedIsDistinct(users, order, SuffixFilter(base));
    forall x | x in Scanned(users, order, SuffixFilter(base))
      ensures SuffixKeep(base)(users[x]) <==> NumberedName(users[x].username, base)
    {
      SuffixFilterIsExact(users[x].username, base);
    }
    if NumberedCandidates(users, order, base) == {id} {
      assert id in NumberedCandidates(users, order, base);
      forall other | other in Scanned(users, order, SuffixFilter(base)) && SuffixKeep(base)(users[other])
        ensures other == id {
        assert other in NumberedCandidates(users, order, base);
      }
    }
  }

  /** The search for numbered forms decides exactly when there is one candidate. */
  lemma NumberedSearch(users: Users, order: seq<int>, base: string)
    requires RowOrder(users, order) && base != "" && CleanName(base)
    ensures var found, numbered := UniqueUnbound(users, order, SuffixFilter(base), SuffixKeep(base)),
                                   NumberedCandidates(users, order, base);
      && (found.Some? <==> |numbered| == 1)
      && (found.Some? ==> numbered == {found.value})
  {
    var numbered := NumberedCandidates(users, order, base);
    forall id: int
      ensures UniqueUnbound(users, order, SuffixFilter(base), SuffixKeep(base)) == Some(id) <==> numbered == {id}
    {
      UniqueUnboundExact(users, order, SuffixFilter(base), SuffixKeep(base), id);
      NumberedMatch(users, order, base, id);
    }
    if |numbered| == 1 {
      ghost var id := Element(numbered);
      OnlyElement(numbered, id);
    }
  }

  lemma OnlyElement(s: set<int>, x: int)
    requires |s| == 1 && x in s
    ensures s == {x}
  {
    assert |s - {x}| == 0;
  }

  /** The e-mail search needs no bound on the rows: more than one row already means None. */
  lemma UniqueUnboundByEmail(users: Users, order: seq<int>, email: string, id: int)
    requires RowOrder(users, order) && id in users && Unbound(users[id])
    ensures UniqueUnbound(users, order, EmailFilter(email), AnyUser()) == Some(id) <==>
      Lower(users[id].email) == Lower(email) &&
      forall other :: other in users && other != id && Unbound(users[other]) ==>
        Lower(users[other].email) != Lower(email)
  {
    var where, keep := EmailFilter(email), AnyUser();
    var rows := Rows(users, order, UnboundAnd(where));
    RowsExact(users, order, UnboundAnd(where));
    if |rows| <= 20 {
      UniqueUnboundExact(users, order, where, keep, id);
      FewRowsAreAllScanned(users, order, where, keep, id);
    } else {
      RowsKeepAll(users, rows[..20]);
      TwoElements(rows);
    }
  }

  lemma {:induction false} RowsKeepAll(users: Users, rows: seq<int>)
    requires forall id :: id in rows ==> id in users
    ensures Rows(users, rows, AnyUser()) == rows
  {
    if rows != [] {
      var rest := rows[1..];
      var first: int := rows[0];
      assert rows == [first] + rest && first in rows;
      RowsKeepAll(users, rest);
    }
  }
}
