/**
 * The users table and the account-safety rules
 * (backend/internal/store/users.go, backend/internal/api/admin_users.go, admin_people.go).
 *
 * Each function is one request: the handler's checks followed by its write.
 */
module Accounts {
  import opened Strings

  datatype Source = Local | Ldap | AzureAD

  datatype User = User(username: string, email: string, source: Source, isActive: bool, isAdmin: bool,
                       externalId: string)

  type Users = map<int, User>

  datatype Reply = Done | Invalid | Forbidden | NotFound | Conflict

  /** What a request asks an account to become. */
  datatype Change = Change(username: string, email: string, isActive: bool, isAdmin: bool)

  ghost function ActiveAdmins(users: Users): set<int> {
    set id | id in users && users[id].isAdmin && users[id].isActive
  }

  ghost predicate NameTaken(users: Users, username: string, except: set<int>) {
    exists id :: id in users && id !in except && users[id].username == username
  }

  /** usernames are unique in the table. */
  ghost predicate UniqueNames(users: Users) {
    forall a, b :: a in users && b in users && users[a].username == users[b].username ==> a == b
  }

  /** INSERT INTO users: fails when the username is taken. */
  ghost function Insert(users: Users, id: int, user: User): (Reply, Users) {
    if id in users || NameTaken(users, user.username, {}) then (Invalid, users)
    else (Done, users[id := user])
  }

  ghost function Create(users: Users, actorIsAdmin: bool, id: int, c: Change): (Reply, Users) {
    var name := TrimSpace(c.username);
    if name == "" then (Invalid, users)
    else if c.isAdmin && !actorIsAdmin then (Forbidden, users)
    else Insert(users, id, User(name, TrimSpace(c.email), Local, true, c.isAdmin, ""))
  }

  /** The change would lock its own actor out, or leave the portal without an active administrator. */
  ghost predicate AdminChangeProblem(users: Users, actor: int, target: int, remainAdmin: bool, remainActive: bool)
    requires target in users
  {
    var u := users[target];
    || (target == actor && (!remainActive || (u.isAdmin && !remainAdmin)))
    || (u.isAdmin && u.isActive && (!remainAdmin || !remainActive) && |ActiveAdmins(users)| <= 1)
  }

  ghost function Update(users: Users, actor: int, actorIsAdmin: bool, target: int, c: Change): (Reply, Users) {
    if target !in users then (NotFound, users)
    else
      var u := users[target];
      var name := if u.source == Local then TrimSpace(c.username) else u.username;
      var email := if u.source == Local then c.email else u.email;
      if name == "" then (Invalid, users)
      else if (u.isAdmin || c.isAdmin) && !actorIsAdmin then (Forbidden, users)
      else if AdminChangeProblem(users, actor, target, c.isAdmin, c.isActive) then (Conflict, users)
      else if NameTaken(users, name, {target}) then (Invalid, users)
      else (Done, users[target := u.(username := name, email := email, isActive := c.isActive, isAdmin := c.isAdmin)])
  }

  ghost function Delete(users: Users, actor: int, actorIsAdmin: bool, target: int): (Reply, Users) {
    if target !in users then (NotFound, users)
    else if users[target].isAdmin && !actorIsAdmin then (Forbidden, users)
    else if AdminChangeProblem(users, actor, target, false, false) then (Conflict, users)
    else (Done, users - {target})
  }

  /** How many entries of ids are active administrators, counting repetitions. */
  function Leaving(users: Users, ids: seq<int>): nat {
    if ids == [] then 0
    else
      var id := ids[|ids| - 1];
      Leaving(users, ids[..|ids| - 1]) + (if id in users && users[id].isAdmin && users[id].isActive then 1 else 0)
  }

  ghost function SetActive(users: Users, ids: seq<int>, active: bool): Users {
    map id | id in users :: if id in ids then users[id].(isActive := active) else users[id]
  }

  /** The reply to the first listed account the request may not touch; Done when there is none. */
  function BulkRefusal(users: Users, actor: int, actorIsAdmin: bool, ids: seq<int>, active: bool): Reply {
    if ids == [] then Done
    else
      var before := BulkRefusal(users, actor, actorIsAdmin, ids[..|ids| - 1], active);
      var id := ids[|ids| - 1];
      if before != Done then before
      else if id !in users then NotFound
      else if users[id].isAdmin && !actorIsAdmin then Forbidden
      else if !active && id == actor then Conflict
      else Done
  }

  ghost function BulkStatus(users: Users, actor: int, actorIsAdmin: bool, ids: seq<int>, active: bool): (Reply, Users) {
    var refusal := BulkRefusal(users, actor, actorIsAdmin, ids, active);
    if |ids| == 0 || |ids| > 500 then (Invalid, users)
    else if refusal != Done then (refusal, users)
    else if !active && Leaving(users, ids) > 0 && |ActiveAdmins(users)| - Leaving(users, ids) < 1 then (Conflict, users)
    else (Done, SetActive(users, ids, active))
  }

  // ---- What every accepted request keeps ----

  ghost predicate SomeActiveAdmin(users: Users) {
    exists id :: id in users && users[id].isAdmin && users[id].isActive
  }

  /** Non-empty external ids are unique and belong to Azure AD accounts. */
  ghost predicate BoundOnce(users: Users) {
    && (forall id :: id in users && users[id].externalId != "" ==> users[id].source == AzureAD)
    && (forall a, b :: a in users && b in users && users[a].externalId == users[b].externalId != "" ==> a == b)
  }

  ghost predicate Sound(users: Users) {
    UniqueNames(users) && BoundOnce(users) && SomeActiveAdmin(users)
  }

  /** Surviving accounts keep their source, and their external id once they have one. */
  ghost predicate KeepsIdentity(before: Users, after: Users) {
    forall id :: id in before && id in after ==>
      && after[id].source == before[id].source
      && (before[id].externalId != "" ==> after[id].externalId == before[id].externalId)
  }

  lemma InsertIsSound(users: Users, id: int, user: User)
    requires Sound(users) && id !in users
    requires user.externalId != "" ==>
      user.source == AzureAD && forall other :: other in users ==> users[other].externalId != user.externalId
    ensures Sound(Insert(users, id, user).1) && KeepsIdentity(users, Insert(users, id, user).1)
  {
    var users' := Insert(users, id, user).1;
    var admin :| admin in users && users[admin].isAdmin && users[admin].isActive;
    assert admin in users' && users'[admin] == users[admin];
  }

  lemma AnotherAdmin(users: Users, id: int)
    requires |ActiveAdmins(users)| > 1
    ensures exists other :: other in users && other != id && users[other].isAdmin && users[other].isActive
  {
    var others := ActiveAdmins(users) - {id};
    assert |others| >= |ActiveAdmins(users)| - 1 by {
      assert ActiveAdmins(users) <= others + {id};
      if id in ActiveAdmins(users) {
        assert ActiveAdmins(users) == others + {id};
      } else {
        assert others == ActiveAdmins(users);
      }
    }
    var other := Element(others);
  }

  lemma UpdateIsSound(users: Users, actor: int, actorIsAdmin: bool, target: int, c: Change)
    requires Sound(users)
    ensures var users' := Update(users, actor, actorIsAdmin, target, c).1;
      Sound(users') && KeepsIdentity(users, users')
  {
    var (reply, users') := Update(users, actor, actorIsAdmin, target, c);
    if reply == Done {
      if users[target].isAdmin && users[target].isActive && !(c.isAdmin && c.isActive) {
        AnotherAdmin(users, target);
        var other :| other in users && other != target && users[other].isAdmin && users[other].isActive;
        assert other in users' && users'[other] == users[other];
      } else {
        var admin :| admin in users && users[admin].isAdmin && users[admin].isActive;
        assert admin in users' && users'[admin].isAdmin && users'[admin].isActive;
      }
    }
  }

  lemma DeleteIsSound(users: Users, actor: int, actorIsAdmin: bool, target: int)
    requires Sound(users)
    ensures var users' := Delete(users, actor, actorIsAdmin, target).1;
      Sound(users') && KeepsIdentity(users, users')
  {
    var (reply, users') := Delete(users, actor, actorIsAdmin, target);
    if reply == Done {
      if users[target].isAdmin && users[target].isActive {
        AnotherAdmin(users, target);
      }
      var other :| other in users && other != target && users[other].isAdmin && users[other].isActive;
      assert other in users' && users'[other] == users[other];
    }
  }

  /** The places of the list that name an active administrator named before. */
  ghost function Repeated(users: Users, ids: seq<int>): set<nat> {
    set i: nat | i < |ids| && ids[i] in ActiveAdmins(users) && ids[i] in ids[..i]
  }

  /** Leaving counts everyone who leaves once, and every repetition again. */
  lemma {:induction false} LeavingExact(users: Users, ids: seq<int>)
    ensures Leaving(users, ids) ==
      |ActiveAdmins(users)| - |ActiveAdmins(users) - Elements(ids)| + |Repeated(users, ids)|
  {
    var admins := ActiveAdmins(users);
    if ids == [] {
      assert admins - Elements(ids) == admins;
      assert Repeated(users, ids) == {};
    } else {
      var init, last := ids[..|ids| - 1], ids[|ids| - 1];
      LeavingExact(users, init);
      assert ids == init + [last];
      StayingSnoc(admins, init, last);
      RepeatedSnoc(users, init, last);
    }
  }

  lemma StayingSnoc(admins: set<int>, ids: seq<int>, last: int)
    ensures |admins - Elements(ids + [last])| ==
      |admins - Elements(ids)| - if last in admins && last !in ids then 1 else 0
  {
    ElementsPlus(ids, last);
    assert admins - Elements(ids + [last]) == admins - Elements(ids) - {last};
    WithoutOne(admins - Elements(ids), last);
  }

  lemma RepeatedSnoc(users: Users, ids: seq<int>, last: int)
    ensures |Repeated(users, ids + [last])| ==
      |Repeated(users, ids)| + if last in ActiveAdmins(users) && last in ids then 1 else 0
  {
    var all := ids + [last];
    assert all[..|ids|] == ids;
    forall i: nat | i < |ids| ensures all[i] == ids[i] && all[..i] == ids[..i] {}
    assert Repeated(users, all) ==
      if last in ActiveAdmins(users) && last in ids then Repeated(users, ids) + {|ids|} else Repeated(users, ids);
  }

  /** The count of leaving administrators, repetitions included, covers everyone who leaves. */
  lemma LeavingCoversAll(users: Users, ids: seq<int>)
    ensures |ActiveAdmins(users)| - |ActiveAdmins(users) - Elements(ids)| <= Leaving(users, ids)
  {
    LeavingExact(users, ids);
  }

  lemma WithoutOne(s: set<int>, x: int)
    ensures |s - {x}| == |s| - (if x in s then 1 else 0)
  {
    if x in s {
      assert s == (s - {x}) + {x};
    } else {
      assert s == s - {x};
    }
  }

  lemma BulkIsSound(users: Users, actor: int, actorIsAdmin: bool, ids: seq<int>, active: bool)
    requires Sound(users)
    ensures var users' := BulkStatus(users, actor, actorIsAdmin, ids, active).1;
      Sound(users') && KeepsIdentity(users, users')
  {
    var (reply, users') := BulkStatus(users, actor, actorIsAdmin, ids, active);
    if reply == Done {
      if active {
        var admin :| admin in users && users[admin].isAdmin && users[admin].isActive;
        assert admin in users' && users'[admin].isAdmin && users'[admin].isActive;
      } else {
        var stays := SomeoneStays(users, ids);
        assert stays in users' && users'[stays].isAdmin && users'[stays].isActive;
      }
    }
  }

  lemma SomeoneStays(users: Users, ids: seq<int>) returns (id: int)
    requires SomeActiveAdmin(users)
    requires Leaving(users, ids) == 0 || |ActiveAdmins(users)| - Leaving(users, ids) >= 1
    ensures id in users && id !in ids && users[id].isAdmin && users[id].isActive
  {
    var stay := ActiveAdmins(users) - Elements(ids);
    LeavingCoversAll(users, ids);
    var admin :| admin in users && users[admin].isAdmin && users[admin].isActive;
    assert admin in ActiveAdmins(users);
    assert |stay| >= 1;
    id := Element(stay);
  }

  /** The list passes every check of a deactivation but the count of administrators. */
  ghost predicate Deactivatable(users: Users, actor: int, actorIsAdmin: bool, ids: seq<int>) {
    0 < |ids| <= 500 && BulkRefusal(users, actor, actorIsAdmin, ids, false) == Done
  }

  /**
   * When the count refuses a deactivation that would have left an active administrator: if and only if
   * no more administrators would be left than the list repeats.
   */
  lemma NeedlessConflictExact(users: Users, actor: int, actorIsAdmin: bool, ids: seq<int>)
    requires Deactivatable(users, actor, actorIsAdmin, ids)
    ensures (BulkStatus(users, actor, actorIsAdmin, ids, false).0 == Conflict &&
             SomeActiveAdmin(SetActive(users, ids, false))) <==>
      0 < |ActiveAdmins(users) - Elements(ids)| <= |Repeated(users, ids)|
  {
    var stay := ActiveAdmins(users) - Elements(ids);
    LeavingExact(users, ids);
    RepeatedLeave(users, ids);
    StayingExact(users, ids);
  }

  lemma StayingExact(users: Users, ids: seq<int>)
    ensures SomeActiveAdmin(SetActive(users, ids, false)) <==> |ActiveAdmins(users) - Elements(ids)| > 0
  {
    var after, stay := SetActive(users, ids, false), ActiveAdmins(users) - Elements(ids);
    if SomeActiveAdmin(after) {
      var id :| id in after && after[id].isAdmin && after[id].isActive;
      assert id in stay;
    }
    if |stay| > 0 {
      var id := Element(stay);
      assert id in after && after[id].isAdmin && after[id].isActive;
    }
  }

  lemma RepeatedLeave(users: Users, ids: seq<int>)
    ensures |Repeated(users, ids)| > 0 ==> Leaving(users, ids) > 0
  {
    LeavingExact(users, ids);
    if |Repeated(users, ids)| > 0 {
      SubsetSize(ActiveAdmins(users) - Elements(ids), ActiveAdmins(users));
    }
  }

  lemma {:induction false} SubsetSize(a: set<int>, b: set<int>)
    requires a <= b
    ensures |a| <= |b|
  {
    assert b == a + (b - a);
  }

  /**
   * An acting administrator is never on an accepted list and stays: the count then refuses nothing but
   * lists that repeat administrators, and every one of its refusals is needless.
   */
  lemma AdminConflictsAreNeedless(users: Users, actor: int, ids: seq<int>)
    requires Deactivatable(users, actor, true, ids)
    requires actor in users && users[actor].isAdmin && users[actor].isActive
    ensures SomeActiveAdmin(SetActive(users, ids, false))
    ensures BulkStatus(users, actor, true, ids, false).0 == Conflict <==>
      |ActiveAdmins(users) - Elements(ids)| <= |Repeated(users, ids)|
  {
    BulkSparesTheActor(users, actor, true, ids);
    assert actor in ActiveAdmins(users) - Elements(ids);
    StayingExact(users, ids);
    NeedlessConflictExact(users, actor, true, ids);
  }

  /** Such a request: of two administrators one lists the other twice. */
  lemma ListedTwice(users: Users, actor: int, other: int)
    requires ActiveAdmins(users) == {actor, other} && actor != other
    ensures BulkStatus(users, actor, true, [other], false).0 == Done
    ensures BulkStatus(users, actor, true, [other, other], false).0 == Conflict
    ensures SetActive(users, [other], false) == SetActive(users, [other, other], false)
  {
    assert actor in ActiveAdmins(users) && other in ActiveAdmins(users);
    assert [other, other][..1] == [other] && [other][..0] == [];
    assert BulkRefusal(users, actor, true, [other], false) == Done;
    assert BulkRefusal(users, actor, true, [other, other], false) == Done;
    assert Leaving(users, [other]) == 1 && Leaving(users, [other, other]) == 2;
  }

  lemma {:induction false} BulkSparesTheActor(users: Users, actor: int, actorIsAdmin: bool, ids: seq<int>)
    requires BulkRefusal(users, actor, actorIsAdmin, ids, false) == Done
    ensures actor !in ids
  {
    if ids != [] {
      var init := ids[..|ids| - 1];
      BulkSparesTheActor(users, actor, actorIsAdmin, init);
      assert ids == init + [ids[|ids| - 1]];
    }
  }

  datatype Request =
    | CreateRequest(id: int, change: Change)
    | UpdateRequest(target: int, change: Change)
    | DeleteRequest(target: int)
    | BulkRequest(ids: seq<int>, active: bool)

  ghost function Apply(users: Users, actor: int, actorIsAdmin: bool, r: Request): (Reply, Users) {
    match r
    case CreateRequest(id, c) => Create(users, actorIsAdmin, id, c)
    case UpdateRequest(target, c) => Update(users, actor, actorIsAdmin, target, c)
    case DeleteRequest(target) => Delete(users, actor, actorIsAdmin, target)
    case BulkRequest(ids, active) => BulkStatus(users, actor, actorIsAdmin, ids, active)
  }

  lemma ApplyIsSound(users: Users, actor: int, actorIsAdmin: bool, r: Request)
    requires Sound(users)
    ensures Sound(Apply(users, actor, actorIsAdmin, r).1)
    ensures KeepsIdentity(users, Apply(users, actor, actorIsAdmin, r).1)
  {
    match r
    case CreateRequest(id, c) =>
      if id !in users {
        InsertIsSound(users, id, User(TrimSpace(c.username), TrimSpace(c.email), Local, true, c.isAdmin, ""));
      }
    case UpdateRequest(target, c) => UpdateIsSound(users, actor, actorIsAdmin, target, c);
    case DeleteRequest(target) => DeleteIsSound(users, actor, actorIsAdmin, target);
    case BulkRequest(ids, active) => BulkIsSound(users, actor, actorIsAdmin, ids, active);
  }

  /** Whatever an acting administrator asks for, they stay an active administrator. */
  lemma ActorStaysAdmin(users: Users, actor: int, r: Request)
    requires actor in users && users[actor].isAdmin && users[actor].isActive
    ensures var users' := Apply(users, actor, true, r).1;
      actor in users' && users'[actor].isAdmin && users'[actor].isActive
  {
    if r.BulkRequest? && !r.active && BulkRefusal(users, actor, true, r.ids, r.active) == Done {
      BulkSparesTheActor(users, actor, true, r.ids);
    }
  }

  /** Only administrators make administrators, or change the account of one. */
  lemma OnlyAdminsChangeAdmins(users: Users, actor: int, r: Request, id: int)
    ensures var users' := Apply(users, actor, false, r).1;
      && (id in users' && users'[id].isAdmin ==> id in users && users[id].isAdmin)
      && (id in users && users[id].isAdmin ==> id in users' && users'[id] == users[id])
  {
    if r.BulkRequest? && BulkRefusal(users, actor, false, r.ids, r.active) == Done {
      BulkSparesAdmins(users, actor, r.ids, r.active);
    }
  }

  lemma {:induction false} BulkSparesAdmins(users: Users, actor: int, ids: seq<int>, active: bool)
    requires BulkRefusal(users, actor, false, ids, active) == Done
    ensures forall id :: id in ids ==> id in users && !users[id].isAdmin
  {
    if ids != [] {
      var init := ids[..|ids| - 1];
      BulkSparesAdmins(users, actor, init, active);
      assert ids == init + [ids[|ids| - 1]];
    }
  }

  // ---- What the requests achieve ----

  /** An accepted update changes the target only, and of a directory account neither name nor e-mail. */
  lemma UpdateEffect(users: Users, actor: int, actorIsAdmin: bool, target: int, c: Change, id: int)
    requires id in users
    ensures var (reply, users') := Update(users, actor, actorIsAdmin, target, c);
      && users'.Keys == users.Keys
      && (reply != Done || id != target ==> users'[id] == users[id])
      && (reply == Done && id == target ==>
            && users'[id].isActive == c.isActive && users'[id].isAdmin == c.isAdmin
            && (users[id].source != Local ==>
              users'[id].username == users[id].username && users'[id].email == users[id].email)
            && (users[id].source == Local ==>
              users'[id].username == TrimSpace(c.username) != "" && users'[id].email == c.email))
  {}

  /** An accepted bulk change gives exactly the listed accounts the status; a refused one changes nothing. */
  lemma BulkEffect(users: Users, actor: int, actorIsAdmin: bool, ids: seq<int>, active: bool, id: int)
    requires id in users
    ensures var (reply, users') := BulkStatus(users, actor, actorIsAdmin, ids, active);
      && users'.Keys == users.Keys
      && users'[id] == (if reply == Done && id in ids then users[id].(isActive := active) else users[id])
      && (reply == Done ==> forall listed :: listed in ids ==> listed in users)
  {
    if BulkRefusal(users, actor, actorIsAdmin, ids, active) == Done {
      AcceptedExist(users, actor, actorIsAdmin, ids, active);
    }
  }

  lemma {:induction false} AcceptedExist(users: Users, actor: int, actorIsAdmin: bool, ids: seq<int>, active: bool)
    requires BulkRefusal(users, actor, actorIsAdmin, ids, active) == Done
    ensures forall id :: id in ids ==> id in users && (users[id].isAdmin ==> actorIsAdmin) && (!active ==> id != actor)
  {
    if ids != [] {
      var init := ids[..|ids| - 1];
      AcceptedExist(users, actor, actorIsAdmin, init, active);
      assert ids == init + [ids[|ids| - 1]];
    }
  }

  /** An accepted deletion removes the account and no other; a refused one changes nothing. */
  lemma DeleteEffect(users: Users, actor: int, actorIsAdmin: bool, target: int, id: int)
    ensures var (reply, users') := Delete(users, actor, actorIsAdmin, target);
      && (id in users' <==> id in users && !(reply == Done && id == target))
      && (id in users' ==> users'[id] == users[id])
  {}

  // ---- Exactly which requests are accepted ----

  /** Nobody but the listed accounts has the name. */
  ghost predicate NameFree(users: Users, name: string, except: int) {
    name != "" && forall id :: id in users && id != except ==> users[id].username != name
  }

  lemma CreateDecided(users: Users, actorIsAdmin: bool, id: int, c: Change)
    requires id !in users
    ensures var (reply, users') := Create(users, actorIsAdmin, id, c);
      && (reply == Done <==> NameFree(users, TrimSpace(c.username), id) && (c.isAdmin ==> actorIsAdmin))
      && users' == if reply == Done
                   then users[id := User(TrimSpace(c.username), TrimSpace(c.email), Local, true, c.isAdmin, "")]
                   else users
  {}

  lemma OtherAdmins(users: Users, target: int)
    requires SomeActiveAdmin(users)
    ensures SomeActiveAdmin(users - {target}) <==>
      !(target in users && users[target].isAdmin && users[target].isActive && |ActiveAdmins(users)| <= 1)
  {
    var admins := ActiveAdmins(users);
    if target in admins {
      if |admins| > 1 {
        AnotherAdmin(users, target);
        var other :| other in users && other != target && users[other].isAdmin && users[other].isActive;
        assert other in users - {target} && (users - {target})[other] == users[other];
      } else {
        OnlyOne(admins, target);
        assert forall id :: id in users && users[id].isAdmin && users[id].isActive ==> id in admins;
      }
    } else {
      var admin :| admin in users && users[admin].isAdmin && users[admin].isActive;
      assert admin in users - {target} && (users - {target})[admin] == users[admin];
    }
  }

  lemma OnlyOne(s: set<int>, x: int)
    requires x in s && |s| <= 1
    ensures s == {x}
  {
    assert |s - {x}| == 0;
  }

  /**
   * A deletion is accepted exactly for another account, by an administrator when it is one's, and when an
   * active administrator is left.
   */
  lemma DeleteDecided(users: Users, actor: int, actorIsAdmin: bool, target: int)
    requires SomeActiveAdmin(users)
    ensures Delete(users, actor, actorIsAdmin, target).0 == Done <==>
      && target in users && target != actor && (users[target].isAdmin ==> actorIsAdmin)
      && SomeActiveAdmin(users - {target})
  {
    OtherAdmins(users, target);
  }

  /** The account after the change; the directory owns name and e-mail of the others. */
  function ChangedUser(u: User, c: Change): User {
    if u.source == Local then u.(username := TrimSpace(c.username), email := c.email, isActive := c.isActive,
                                 isAdmin := c.isAdmin)
    else u.(isActive := c.isActive, isAdmin := c.isAdmin)
  }

  /**
   * A change is accepted exactly when the name is free, administrators are made or changed by administrators
   * only, nobody locks or demotes themselves, and an active administrator is left.
   */
  lemma UpdateDecided(users: Users, actor: int, actorIsAdmin: bool, target: int, c: Change)
    requires SomeActiveAdmin(users)
    ensures var (reply, users') := Update(users, actor, actorIsAdmin, target, c);
      && (reply == Done <==>
            && target in users && NameFree(users, ChangedUser(users[target], c).username, target)
            && (users[target].isAdmin || c.isAdmin ==> actorIsAdmin)
            && !(target == actor && (!c.isActive || (users[target].isAdmin && !c.isAdmin)))
            && SomeActiveAdmin(users[target := ChangedUser(users[target], c)]))
      && users' == if reply == Done then users[target := ChangedUser(users[target], c)] else users
  {
    if target in users {
      AdminsAfterChange(users, target, ChangedUser(users[target], c));
    }
  }

  lemma AdminsAfterChange(users: Users, target: int, after: User)
    requires SomeActiveAdmin(users) && target in users
    ensures SomeActiveAdmin(users[target := after]) <==>
      !(users[target].isAdmin && users[target].isActive && (!after.isAdmin || !after.isActive)
        && |ActiveAdmins(users)| <= 1)
  {
    var users', others := users[target := after], users - {target};
    OtherAdmins(users, target);
    if SomeActiveAdmin(others) {
      var id :| id in others && others[id].isAdmin && others[id].isActive;
      assert id in users' && users'[id] == others[id];
    }
    if after.isAdmin && after.isActive {
      assert target in users' && users'[target] == after;
    } else if SomeActiveAdmin(users') {
      TheOthersAreLeft(users, target, after);
    }
  }

  lemma TheOthersAreLeft(users: Users, target: int, after: User)
    requires target in users && !(after.isAdmin && after.isActive) && SomeActiveAdmin(users[target := after])
    ensures SomeActiveAdmin(users - {target})
  {
    var users', others := users[target := after], users - {target};
    var id :| id in users' && users'[id].isAdmin && users'[id].isActive;
    assert id in others && others[id] == users'[id];
  }

  lemma {:induction false} BulkRefusalExact(users: Users, actor: int, actorIsAdmin: bool, ids: seq<int>, active: bool)
    ensures BulkRefusal(users, actor, actorIsAdmin, ids, active) == Done <==>
      forall id :: id in ids ==> id in users && (users[id].isAdmin ==> actorIsAdmin) && (!active ==> id != actor)
  {
    if ids != [] {
      var init := ids[..|ids| - 1];
      BulkRefusalExact(users, actor, actorIsAdmin, init, active);
      assert ids == init + [ids[|ids| - 1]];
    }
  }

  /** A bulk change is accepted exactly when every listed account may be changed and the count allows it. */
  lemma BulkDecided(users: Users, actor: int, actorIsAdmin: bool, ids: seq<int>, active: bool)
    ensures BulkStatus(users, actor, actorIsAdmin, ids, active).0 == Done <==>
      && 0 < |ids| <= 500
      && (forall id :: id in ids ==> id in users && (users[id].isAdmin ==> actorIsAdmin) && (!active ==> id != actor))
      && (!active && (exists id :: id in ids && id in ActiveAdmins(users)) ==>
            |ActiveAdmins(users) - Elements(ids)| > |Repeated(users, ids)|)
  {
    BulkRefusalExact(users, actor, actorIsAdmin, ids, active);
    LeavingExact(users, ids);
    LeavingSome(users, ids);
  }

  lemma {:induction false} LeavingSome(users: Users, ids: seq<int>)
    ensures Leaving(users, ids) > 0 <==> exists id :: id in ids && id in ActiveAdmins(users)
  {
    if ids != [] {
      var init, last := ids[..|ids| - 1], ids[|ids| - 1];
      LeavingSome(users, init);
      assert ids == init + [last];
      assert last in ids;
      assert forall id :: id in init ==> id in ids;
    }
  }
}
