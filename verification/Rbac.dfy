/**
 * Permission scopes and the implications between them
 * (backend/internal/rbac/catalog.go and engine.go).
 *
 * Scopes are the strings the database stores. A per-API scope is "api:<digits>:<action>";
 * the digits may carry leading zeros, but the scopes the portal builds itself carry none.
 */
module Rbac {
  import opened Strings

  /** The largest value of Go's int; strconv.Atoi clamps to it on overflow. */
  const MAX_INT: int := 0x7fff_ffff_ffff_ffff

  datatype Action = View | Invoke | Manage | Delete

  function Word(a: Action): string {
    match a
    case View => "view"
    case Invoke => "invoke"
    case Manage => "manage"
    case Delete => "delete"
  }

  const NAMED := ["api.view", "api.invoke", "api.create", "api.manage", "api.delete",
                  "user.view", "user.manage", "group.manage", "role.manage", "session.manage",
                  "idp.manage", "settings.manage", "audit.view", "audit.export"]

  /** The stored spelling of a scope: no case, no space around it, no retired name. */
  function Normalize(scope: string): string {
    var s := Lower(TrimSpace(scope));
    if s == "ldap.manage" then "idp.manage" else s
  }

  /** The digits of s when s is "api:" digits ":" action. */
  function ApiDigits(s: string, action: string): (d: Option<string>)
    ensures d.Some? ==> d.value != "" && AllDigits(d.value) && s == "api:" + d.value + ":" + action
  {
    var n := |s| - |action| - 1;
    if n > 4 && s[..4] == "api:" && s[n..] == ":" + action && AllDigits(s[4..n])
    then
      assert s == s[..4] + s[4..n] + s[n..];
      Some(s[4..n])
    else None
  }

  function Atoi(digits: string): int
    requires AllDigits(digits)
  {
    if Value(digits) > MAX_INT then MAX_INT else Value(digits)
  }

  datatype ApiRef = ApiRef(id: int, action: Action)

  function ParseAs(s: string, action: Action): Option<ApiRef> {
    var digits := ApiDigits(s, Word(action));
    if digits.Some? then Some(ApiRef(Atoi(digits.value), action)) else None
  }

  /** What a normalized scope says when it is one of an API. */
  function ParseNormalized(s: string): Option<ApiRef> {
    if ParseAs(s, View).Some? then ParseAs(s, View)
    else if ParseAs(s, Invoke).Some? then ParseAs(s, Invoke)
    else if ParseAs(s, Manage).Some? then ParseAs(s, Manage)
    else ParseAs(s, Delete)
  }

  function ParseAPIScope(scope: string): Option<ApiRef> {
    ParseNormalized(Normalize(scope))
  }

  function APIScope(id: int, action: Action): string {
    "api:" + Decimal(id) + ":" + Word(action)
  }

  /** A named scope, or one of an API. */
  predicate ValidScope(scope: string) {
    ParseAPIScope(scope).Some? || Normalize(scope) in NAMED
  }

  /** The permissions are kept normalized, as New stores them. */
  datatype Engine = Engine(isAdmin: bool, permissions: set<string>) {

    predicate Direct(scope: string) {
      scope in permissions
    }

    predicate CanManageAPI(id: int) {
      isAdmin || Direct("api.manage") || Direct(APIScope(id, Manage))
    }

    predicate CanInvokeAPI(id: int) {
      isAdmin || Direct("api.invoke") || CanManageAPI(id) || Direct(APIScope(id, Invoke))
    }

    predicate CanViewAPI(id: int) {
      isAdmin || Direct("api.view") || CanInvokeAPI(id) || Direct(APIScope(id, View))
    }

    predicate CanDeleteAPI(id: int) {
      isAdmin || Direct("api.manage") || Direct("api.delete") || Direct(APIScope(id, Delete))
    }

    predicate ManagesAllAPIs() {
      isAdmin || Direct("api.manage")
    }

    predicate HasAction(ref: ApiRef) {
      match ref.action
      case View => CanViewAPI(ref.id)
      case Invoke => CanInvokeAPI(ref.id)
      case Manage => CanManageAPI(ref.id)
      case Delete => CanDeleteAPI(ref.id)
    }

    /** Has, for a normalized scope and what ParseAPIScope makes of it. */
    predicate HasNormalized(s: string, parsed: Option<ApiRef>) {
      || isAdmin
      || Direct(s)
      || (parsed.Some? && HasAction(parsed.value))
      || (s == "user.view" && Direct("user.manage"))
      || ((s == "api.view" || s == "api.invoke" || s == "api.create" || s == "api.delete") &&
          (Direct("api.manage") || (s == "api.view" && Direct("api.invoke"))))
    }

    /** The scope is stored or follows from a broader one. */
    predicate Has(scope: string) {
      HasNormalized(Normalize(scope), ParseAPIScope(Normalize(scope)))
    }
  }

  ghost function Normalized(permissions: set<string>): set<string> {
    set p | p in permissions :: Normalize(p)
  }

  /** The engine of an administrator or of a user with the given stored permissions. */
  ghost function EngineOf(isAdmin: bool, permissions: set<string>): Engine {
    Engine(isAdmin, Normalized(permissions))
  }

  method New(isAdmin: bool, permissions: seq<string>) returns (e: Engine)
    ensures e == EngineOf(isAdmin, set p | p in permissions)
  {
    var scopes: set<string> := {};
    for i := 0 to |permissions|
      invariant scopes == Normalized(set p | p in permissions[..i])
    {
      scopes := scopes + {Normalize(permissions[i])};
      assert permissions[..i + 1] == permissions[..i] + [permissions[i]];
    }
    assert permissions[..|permissions|] == permissions;
    e := Engine(isAdmin, scopes);
  }

  /** The scopes a non-administrator with the stored permissions holds. */
  ghost predicate Implied(permissions: set<string>, scope: string) {
    EngineOf(false, permissions).Has(scope)
  }

  lemma NormalIsTrimmed(scope: string)
    ensures TrimSpace(Normalize(scope)) == Normalize(scope)
  {
    LowerKeepsSpace(TrimSpace(scope));
    TrimSpaceTrims(scope);
    TrimSpaceTrims(Normalize(scope));
  }

  lemma NormalizeIdempotent(scope: string)
    ensures Normalize(Normalize(scope)) == Normalize(scope)
  {
    LowerIdempotent(TrimSpace(scope));
    NormalIsTrimmed(scope);
    var n := Normalize(scope);
    assert Lower(n) == n by {
      assert n == "idp.manage" ==> forall i :: 0 <= i < |n| ==> LowerChar(n[i]) == n[i];
    }
  }

  predicate Trimmed(s: string) {
    s == "" || (!IsSpace(s[0]) && !IsSpace(s[|s| - 1]))
  }

  /**
   * A scope is meant whatever its case and the space around it; a lower-case scope without such space is
   * its own stored spelling, but for the retired name.
   */
  lemma NormalizeExact(before: string, scope: string, spelled: string, after: string)
    requires AllSpaces(before) && AllSpaces(after) && SameLetters(scope, spelled) && Trimmed(scope)
    requires forall i :: 0 <= i < |scope| ==> !('A' <= scope[i] <= 'Z')
    ensures Normalize(before + spelled + after) == if scope == "ldap.manage" then "idp.manage" else scope
  {
    TrimSpaceCuts(before, spelled, after);
    TrimSpaceTrims(spelled);
    LowerStays(scope);
    LowerFolds(scope, spelled);
    assert TrimSpace(spelled) == spelled by {
      assert forall i :: 0 <= i < |scope| ==> IsSpace(scope[i]) == IsSpace(spelled[i]);
    }
  }

  /** Reading a per-API scope: a number of any length, clamped to the largest id, and one of the four words. */
  lemma ParseExact(scope: string, ref: ApiRef)
    ensures ParseAPIScope(scope) == Some(ref) <==>
      exists digits :: digits != "" && AllDigits(digits) && Normalize(scope) == "api:" + digits + ":" + Word(ref.action)
        && ref.id == if Value(digits) > MAX_INT then MAX_INT else Value(digits)
  {
    var s := Normalize(scope);
    if ParseAPIScope(scope) == Some(ref) {
      var digits := ApiDigits(s, Word(ref.action)).value;
      assert s == "api:" + digits + ":" + Word(ref.action) && ref.id == Atoi(digits);
    }
    if digits :| digits != "" && AllDigits(digits) && s == "api:" + digits + ":" + Word(ref.action)
                 && ref.id == if Value(digits) > MAX_INT then MAX_INT else Value(digits) {
      ParseOfScope(digits, ref.action);
    }
  }

  /** A digit run ends where the colon stands. */
  lemma {:induction false} ColonSplits(d: string, rest: string, d': string, rest': string)
    requires AllDigits(d) && AllDigits(d')
    requires d + ":" + rest == d' + ":" + rest'
    ensures d == d' && rest == rest'
  {
    var s, s' := d + ":" + rest, d' + ":" + rest';
    assert s[0] == if d == "" then ':' else d[0];
    assert s'[0] == if d' == "" then ':' else d'[0];
    assert (d == "") == (d' == "");
    if d == "" {
      assert s[1..] == rest && s'[1..] == rest';
    } else {
      assert s[1..] == d[1..] + ":" + rest && s'[1..] == d'[1..] + ":" + rest';
      ColonSplits(d[1..], rest, d'[1..], rest');
    }
  }

  lemma ApiDigitsOfScope(digits: string, action: string, other: string)
    requires digits != "" && AllDigits(digits)
    ensures ApiDigits("api:" + digits + ":" + action, other) == (if other == action then Some(digits) else None)
  {
    var s := "api:" + digits + ":" + action;
    assert s[4..] == digits + ":" + action;
    if ApiDigits(s, other).Some? {
      var d := ApiDigits(s, other).value;
      assert s[4..] == d + ":" + other;
      ColonSplits(digits, action, d, other);
    }
    if other == action {
      assert s[4..|s| - |action| - 1] == digits && s[|s| - |action| - 1..] == ":" + action;
    }
  }

  /** Letters a to z and full stops only: the shape of every scope that is not per-API. */
  predicate PlainName(s: string) {
    s != "" && forall i :: 0 <= i < |s| ==> s[i] == '.' || 'a' <= s[i] <= 'z'
  }

  lemma PlainNamesAreNotPerAPI(s: string)
    requires PlainName(s) && s != "ldap.manage"
    ensures Normalize(s) == s && ParseAPIScope(s).None?
  {
    assert TrimSpace(s) == s && Lower(s) == s;
    assert |s| >= 4 ==> s[..4][3] == s[3];
    assert !StartsWith(s, "api:");
  }

  lemma APIScopeIsNormal(digits: string, action: Action)
    requires AllDigits(digits)
    ensures Normalize("api:" + digits + ":" + Word(action)) == "api:" + digits + ":" + Word(action)
  {
    var w := Word(action);
    var s := "api:" + digits + ":" + w;
    assert PlainName(w);
    assert s[|s| - 1] == w[|w| - 1] && s[0] == 'a' && s[3] == ':';
    assert TrimSpace(s) == s;
    forall i | 0 <= i < |s| ensures LowerChar(s[i]) == s[i] {
      if 4 <= i < 4 + |digits| {
        assert s[i] == digits[i - 4] && IsDigit(digits[i - 4]);
      } else if 5 + |digits| <= i {
        assert s[i] == w[i - 5 - |digits|];
      }
    }
    assert Lower(s) == s;
    assert "ldap.manage"[0] != s[0];
  }

  lemma ParseOfScope(digits: string, action: Action)
    requires digits != "" && AllDigits(digits)
    ensures ParseNormalized("api:" + digits + ":" + Word(action)) == Some(ApiRef(Atoi(digits), action))
  {
    forall a: Action {
      ApiDigitsOfScope(digits, Word(action), Word(a));
    }
    assert |Word(View)| == 4 && |Word(Invoke)| == |Word(Manage)| == |Word(Delete)| == 6;
    assert Word(Invoke)[0] == 'i' && Word(Manage)[0] == 'm' && Word(Delete)[0] == 'd';
  }

  /** The scope the portal prints for an API parses back to that API. */
  lemma ParseOfAPIScope(id: int, action: Action)
    requires 0 <= id <= MAX_INT
    ensures Normalize(APIScope(id, action)) == APIScope(id, action)
    ensures ParseAPIScope(APIScope(id, action)) == Some(ApiRef(id, action))
  {
    APIScopeIsNormal(Digits(id), action);
    ParseOfScope(Digits(id), action);
  }

  lemma HasDistributesNormalized(a: set<string>, b: set<string>, s: string, parsed: Option<ApiRef>)
    ensures Engine(false, a + b).HasNormalized(s, parsed) <==>
            Engine(false, a).HasNormalized(s, parsed) || Engine(false, b).HasNormalized(s, parsed)
  {}

  lemma HasDistributes(a: set<string>, b: set<string>, scope: string)
    ensures Implied(a + b, scope) <==> Implied(a, scope) || Implied(b, scope)
  {
    assert Normalized(a + b) == Normalized(a) + Normalized(b);
    HasDistributesNormalized(Normalized(a), Normalized(b), Normalize(scope), ParseAPIScope(Normalize(scope)));
  }

  ghost predicate ImpliesAll(permissions: set<string>, scopes: set<string>) {
    forall s :: s in scopes ==> Implied(permissions, s)
  }

  lemma HasExtensive(permissions: set<string>)
    ensures ImpliesAll(permissions, permissions)
  {}

  lemma HasMonotone(a: set<string>, b: set<string>, scope: string)
    requires a <= b && Implied(a, scope)
    ensures Implied(b, scope)
  {
    HasDistributes(a, b, scope);
    assert a + b == b;
  }

  lemma HasPlainName(e: Engine, s: string)
    requires PlainName(s) && s != "ldap.manage"
    ensures e.Has(s) <==> e.HasNormalized(s, None)
  {
    PlainNamesAreNotPerAPI(s);
  }

  lemma HasAPIScope(e: Engine, id: int, action: Action)
    requires 0 <= id <= MAX_INT
    ensures e.Has(APIScope(id, action)) <==> e.HasAction(ApiRef(id, action))
  {
    var s := APIScope(id, action);
    ParseOfAPIScope(id, action);
    NotPlain(s);
  }

  lemma NotPlain(s: string)
    requires |s| > 3 && s[3] == ':'
    ensures s != "user.view" && s != "api.view" && s != "api.invoke" && s != "api.create" && s != "api.delete"
  {}

  /** What holding a direct scope of T means for the set S that implies all of T. */
  lemma LiftedDirect(s: set<string>, t: set<string>, x: string)
    requires ImpliesAll(s, t) && x in Normalized(t)
    ensures Implied(s, x)
  {
    var raw :| raw in t && Normalize(raw) == x;
    NormalizeIdempotent(raw);
  }

  lemma BroadNamesArePlain(x: string)
    requires x == "api.view" || x == "api.invoke" || x == "api.manage" || x == "api.delete" || x == "user.manage"
    ensures PlainName(x) && x != "ldap.manage"
  {
    if x == "api.view" {
    } else if x == "api.invoke" {
    } else if x == "api.manage" {
    } else if x == "api.delete" {
    }
  }

  lemma LiftedName(s: set<string>, t: set<string>, x: string)
    requires ImpliesAll(s, t) && x in Normalized(t)
    requires x == "api.view" || x == "api.invoke" || x == "api.manage" || x == "api.delete" || x == "user.manage"
    ensures Engine(false, Normalized(s)).HasNormalized(x, None)
  {
    LiftedDirect(s, t, x);
    BroadNamesArePlain(x);
    HasPlainName(Engine(false, Normalized(s)), x);
  }

  lemma LiftedAction(s: set<string>, t: set<string>, id: int, action: Action)
    requires 0 <= id <= MAX_INT
    requires ImpliesAll(s, t) && APIScope(id, action) in Normalized(t)
    ensures Engine(false, Normalized(s)).HasAction(ApiRef(id, action))
  {
    LiftedDirect(s, t, APIScope(id, action));
    HasAPIScope(Engine(false, Normalized(s)), id, action);
  }

  lemma ParsedIdInRange(s: string)
    ensures var p := ParseNormalized(s); p.Some? ==> 0 <= p.value.id <= MAX_INT
  {}

  lemma LiftedNames(s: set<string>, t: set<string>)
    requires ImpliesAll(s, t)
    ensures var e, f := Engine(false, Normalized(s)), Engine(false, Normalized(t));
      && (f.Direct("api.manage") ==> e.Direct("api.manage"))
      && (f.Direct("user.manage") ==> e.Direct("user.manage"))
      && (f.Direct("api.invoke") ==> e.Direct("api.invoke") || e.Direct("api.manage"))
      && (f.Direct("api.delete") ==> e.Direct("api.delete") || e.Direct("api.manage"))
      && (f.Direct("api.view") ==> e.Direct("api.view") || e.Direct("api.invoke") || e.Direct("api.manage"))
  {
    var f := Engine(false, Normalized(t));
    if f.Direct("api.manage") { LiftedName(s, t, "api.manage"); }
    if f.Direct("user.manage") { LiftedName(s, t, "user.manage"); }
    if f.Direct("api.invoke") { LiftedName(s, t, "api.invoke"); }
    if f.Direct("api.delete") { LiftedName(s, t, "api.delete"); }
    if f.Direct("api.view") { LiftedName(s, t, "api.view"); }
  }

  lemma LiftedEngineAction(s: set<string>, t: set<string>, ref: ApiRef)
    requires 0 <= ref.id <= MAX_INT && ImpliesAll(s, t)
    requires Engine(false, Normalized(t)).HasAction(ref)
    ensures Engine(false, Normalized(s)).HasAction(ref)
  {
    LiftedNames(s, t);
    forall a | APIScope(ref.id, a) in Normalized(t) {
      LiftedAction(s, t, ref.id, a);
    }
  }

  /** Has is idempotent: what implied scopes imply is implied already. */
  lemma HasIdempotent(s: set<string>, t: set<string>, scope: string)
    requires ImpliesAll(s, t) && Implied(t, scope)
    ensures Implied(s, scope)
  {
    var n := Normalize(scope);
    var parsed := ParseAPIScope(n);
    NormalizeIdempotent(scope);
    if n in Normalized(t) {
      LiftedDirect(s, t, n);
    } else if parsed.Some? && Engine(false, Normalized(t)).HasAction(parsed.value) {
      ParsedIdInRange(Normalize(n));
      LiftedEngineAction(s, t, parsed.value);
    } else {
      LiftedNames(s, t);
    }
  }

  // ---- The implications as a table ----

  /** What one normalized scope p gives, for a normalized scope s and its reference when it is per-API. */
  predicate Entails(p: string, s: string, ref: Option<ApiRef>) {
    || p == s
    || (p == "user.manage" && s == "user.view")
    || (p == "api.manage" && (s == "api.view" || s == "api.invoke" || s == "api.create" || s == "api.delete"))
    || (p == "api.invoke" && s == "api.view")
    || (ref.Some? && EntailsOnApi(p, ref.value))
  }

  /** What one scope gives on a single API. */
  predicate EntailsOnApi(p: string, ref: ApiRef) {
    match ref.action
    case View => p == "api.view" || p == "api.invoke" || p == "api.manage"
              || p == APIScope(ref.id, View) || p == APIScope(ref.id, Invoke) || p == APIScope(ref.id, Manage)
    case Invoke => p == "api.invoke" || p == "api.manage" || p == APIScope(ref.id, Invoke)
      || p == APIScope(ref.id, Manage)
    case Manage => p == "api.manage" || p == APIScope(ref.id, Manage)
    case Delete => p == "api.manage" || p == "api.delete" || p == APIScope(ref.id, Delete)
  }

  lemma ActionByTable(permissions: set<string>, ref: ApiRef)
    ensures Engine(false, permissions).HasAction(ref) <==> exists p :: p in permissions && EntailsOnApi(p, ref)
  {}

  lemma NormalizedByTable(permissions: set<string>, s: string, parsed: Option<ApiRef>)
    ensures Engine(false, permissions).HasNormalized(s, parsed) <==>
      exists p :: p in permissions && Entails(p, s, parsed)
  {
    if parsed.Some? {
      ActionByTable(permissions, parsed.value);
      if p :| p in permissions && EntailsOnApi(p, parsed.value) {
        assert Entails(p, s, parsed);
      }
    }
  }

  /** Holding a scope is holding one normalized scope that entails it by the table. */
  lemma HasByTable(permissions: set<string>, scope: string)
    ensures Implied(permissions, scope) <==>
      exists p :: p in Normalized(permissions) && Entails(p, Normalize(scope), ParseAPIScope(Normalize(scope)))
  {
    NormalizedByTable(Normalized(permissions), Normalize(scope), ParseAPIScope(Normalize(scope)));
  }
}
