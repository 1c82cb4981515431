/**
 * The sign-in brute-force gate (backend/internal/api/security.go, used by handleLogin in
 * backend/internal/api/auth_handlers.go).
 *
 * Times are nanoseconds since some start before every sign-in; NEVER stands for Go's zero time.
 */
module LoginGate {
  import opened Strings

  const MAX_FAILURES: nat := 5
  const SECOND: int := 1_000_000_000
  const LOCKOUT: int := 5 * 60 * SECOND
  const WINDOW: int := 15 * 60 * SECOND
  const PRUNE_AT: nat := 1024
  const NEVER: int := -1

  datatype Attempt = Attempt(failures: nat, firstFailed: int, lockedUntil: int)

  type Gate = map<string, Attempt>

  // ---- One key ----

  function Remaining(a: Option<Attempt>, now: int): int {
    if a.Some? && a.value.lockedUntil - now > 0 then a.value.lockedUntil - now else 0
  }

  function FailOnce(a: Option<Attempt>, now: int): (Attempt, bool) {
    var attempt := if a.None? || now - a.value.firstFailed > WINDOW then Attempt(0, now, NEVER) else a.value;
    if attempt.failures + 1 >= MAX_FAILURES then (Attempt(0, now, now + LOCKOUT), true)
    else (attempt.(failures := attempt.failures + 1), false)
  }

  function Stale(a: Attempt, now: int): bool {
    now > a.lockedUntil && now - a.firstFailed > WINDOW
  }

  function Get(g: Gate, key: string): Option<Attempt> {
    if key in g then Some(g[key]) else None
  }

  // ---- The gate ----

  function Pruned(g: Gate, now: int): Gate {
    if |g| < PRUNE_AT then g else map key | key in g && !Stale(g[key], now) :: g[key]
  }

  /** Recording a failure, with or without the clean-up of stale entries. */
  function Fail(g: Gate, key: string, now: int, prune: bool): (Gate, bool) {
    var kept := if prune then Pruned(g, now) else g;
    var (attempt, locks) := FailOnce(Get(kept, key), now);
    (kept[key := attempt], locks)
  }

  function Succeed(g: Gate, key: string): Gate {
    g - {key}
  }

  class Gatekeeper {
    var attempts: Gate

    constructor ()
      ensures attempts == map[]
    {
      attempts := map[];
    }

    /** The nanoseconds until the key is free again, 0 when it is. */
    method Locked(key: string, now: int) returns (wait: int)
      ensures wait == Remaining(Get(attempts, key), now)
    {
      wait := 0;
      if key in attempts {
        if attempts[key].lockedUntil - now > 0 {
          wait := attempts[key].lockedUntil - now;
        }
      }
    }

    /** Counts one more failure; locks tells whether it was the last one allowed. */
    method Failed(key: string, now: int) returns (locks: bool)
      modifies this
      ensures (attempts, locks) == Fail(old(attempts), key, now, true)
    {
      Prune(now);
      var attempt: Attempt;
      if key !in attempts || now - attempts[key].firstFailed > WINDOW {
        attempt := Attempt(0, now, NEVER);
      } else {
        attempt := attempts[key];
      }
      attempt := attempt.(failures := attempt.failures + 1);
      if attempt.failures >= MAX_FAILURES {
        attempt := Attempt(0, now, now + LOCKOUT);
        locks := true;
      } else {
        locks := false;
      }
      attempts := attempts[key := attempt];
    }

    method Succeeded(key: string)
      modifies this
      ensures attempts == Succeed(old(attempts), key)
    {
      attempts := attempts - {key};
    }

    /** One sign-in: a locked key is turned away before the password check, whose verdict is ok. */
    method SignIn(key: string, now: nat, ok: bool) returns (admitted: bool)
      modifies this
      ensures attempts == Step(old(attempts), Try(key, now, ok), true)
      ensures admitted <==> Remaining(Get(old(attempts), key), now) == 0
    {
      var wait := Locked(key, now);
      admitted := wait == 0;
      if admitted {
        if ok {
          Succeeded(key);
        } else {
          var _ := Failed(key, now);
        }
      }
    }

    /** Drops stale entries once there are many. */
    method Prune(now: int)
      modifies this
      ensures attempts == Pruned(old(attempts), now)
    {
      if |attempts| < PRUNE_AT {
        return;
      }
      var todo := attempts.Keys;
      var before := attempts;
      while todo != {}
        invariant todo <= before.Keys && attempts.Keys <= before.Keys && todo <= attempts.Keys
        invariant forall key :: key in before && key !in todo ==> (key in attempts <==> !Stale(before[key], now))
        invariant forall key :: key in attempts ==> attempts[key] == before[key]
        decreases todo
      {
        var key := Element(todo);
        todo := todo - {key};
        if now > attempts[key].lockedUntil && now - attempts[key].firstFailed > WINDOW {
          attempts := attempts - {key};
        }
      }
    }

    /** Go ranges over the map in no particular order. */
    method Element(keys: set<string>) returns (key: string)
      requires keys != {}
      ensures key in keys
    {
      ghost var some := Strings.Element(keys);
      key :| key in keys;
    }
  }

  // ---- Pruning is unobservable ----

  /** From 1024 entries on, what is left is locked or began within the last 15 minutes. */
  lemma PrunedExactly(g: Gate, now: int, key: string)
    ensures key in Pruned(g, now) <==>
      key in g && (|g| < 1024 || g[key].lockedUntil >= now || now - g[key].firstFailed <= 900_000_000_000)
    ensures key in Pruned(g, now) ==> Pruned(g, now)[key] == g[key]
  {}

  /** A call that changes the gate, on any key, locked or not. */
  datatype Call = Fails(key: string, now: nat) | Succeeds(key: string, now: nat)

  function Apply(g: Gate, c: Call, prune: bool): Gate {
    match c
    case Fails(key, now) => Fail(g, key, now, prune).0
    case Succeeds(key, _) => Succeed(g, key)
  }

  function After(calls: seq<Call>, prune: bool): Gate {
    if calls == [] then map[] else Apply(After(calls[..|calls| - 1], prune), calls[|calls| - 1], prune)
  }

  function LastCall(calls: seq<Call>): nat {
    if calls == [] then 0 else calls[|calls| - 1].now
  }

  /** The clock does not run backwards. */
  predicate InOrder(calls: seq<Call>) {
    calls == [] ||
    (InOrder(calls[..|calls| - 1]) && LastCall(calls[..|calls| - 1]) <= calls[|calls| - 1].now)
  }

  /** g is h with some entries missing that are stale at now. */
  ghost predicate PrunedFrom(g: Gate, h: Gate, now: int) {
    && (forall key :: key in g ==> key in h && g[key] == h[key])
    && (forall key :: key in h && key !in g ==> Stale(h[key], now))
  }

  lemma ApplyPrunedFrom(g: Gate, h: Gate, now: int, c: Call)
    requires PrunedFrom(g, h, now) && now <= c.now
    ensures PrunedFrom(Apply(g, c, true), Apply(h, c, false), c.now)
  {}

  lemma {:induction false} AfterPrunedFrom(calls: seq<Call>)
    requires InOrder(calls)
    ensures PrunedFrom(After(calls, true), After(calls, false), LastCall(calls))
  {
    if calls != [] {
      var init := calls[..|calls| - 1];
      AfterPrunedFrom(init);
      ApplyPrunedFrom(After(init, true), After(init, false), LastCall(init), calls[|calls| - 1]);
    }
  }

  /**
   * After any sequence of recorded failures and successes on any keys, a gate that prunes gives
   * every later question the answer of a gate that never prunes: how long a key stays locked, and
   * whether a failure now locks it.
   */
  lemma PruningIsUnobservable(calls: seq<Call>, key: string, now: nat)
    requires InOrder(calls) && LastCall(calls) <= now
    ensures Remaining(Get(After(calls, true), key), now) == Remaining(Get(After(calls, false), key), now)
    ensures Fail(After(calls, true), key, now, true).1 == Fail(After(calls, false), key, now, false).1
  {
    AfterPrunedFrom(calls);
  }

  // ---- Sequential sign-ins ----

  /** A sign-in attempt under a key; ok tells whether the password check would accept it. */
  datatype Try = Try(key: string, now: nat, ok: bool)

  /** The gate first: a locked key is turned away before the password check. */
  function Step(g: Gate, t: Try, prune: bool): Gate {
    if Remaining(Get(g, t.key), t.now) > 0 then g
    else if t.ok then Succeed(g, t.key)
    else Fail(g, t.key, t.now, prune).0
  }

  function Run(log: seq<Try>, prune: bool): Gate {
    if log == [] then map[] else Step(Run(log[..|log| - 1], prune), log[|log| - 1], prune)
  }

  predicate Ordered(log: seq<Try>) {
    forall i, j :: 0 <= i < j < |log| ==> log[i].now <= log[j].now
  }

  /** The answer the last attempt of the log gets from the gate. */
  predicate Admits(log: seq<Try>, t: Try, prune: bool) {
    Remaining(Get(Run(log, prune), t.key), t.now) == 0
  }

  /** The calls sign-ins make on a gate that never prunes: none while the key is locked. */
  function CallsOf(log: seq<Try>): seq<Call> {
    if log == [] then []
    else
      var init, t := log[..|log| - 1], log[|log| - 1];
      CallsOf(init) +
        if !Admits(init, t, false) then [] else if t.ok then [Succeeds(t.key, t.now)] else [Fails(t.key, t.now)]
  }

  lemma AfterOneMoreCall(calls: seq<Call>, c: Call, prune: bool)
    ensures After(calls + [c], prune) == Apply(After(calls, prune), c, prune)
    ensures InOrder(calls) && LastCall(calls) <= c.now ==> InOrder(calls + [c])
    ensures LastCall(calls + [c]) == c.now
  {
    assert (calls + [c])[..|calls|] == calls;
  }

  /** Sign-ins drive the gate through these calls, with pruning and without. */
  lemma {:induction false} SignInsAreCalls(log: seq<Try>)
    requires Ordered(log)
    ensures InOrder(CallsOf(log)) && LastCall(CallsOf(log)) <= if log == [] then 0 else log[|log| - 1].now
    ensures Run(log, false) == After(CallsOf(log), false) && Run(log, true) == After(CallsOf(log), true)
  {
    if log != [] {
      var init, t := log[..|log| - 1], log[|log| - 1];
      assert forall i :: 0 <= i < |init| ==> init[i] == log[i];
      SignInsAreCalls(init);
      PruningIsUnobservable(CallsOf(init), t.key, t.now);
      AfterOneMoreCall(CallsOf(init), if t.ok then Succeeds(t.key, t.now) else Fails(t.key, t.now), false);
      AfterOneMoreCall(CallsOf(init), if t.ok then Succeeds(t.key, t.now) else Fails(t.key, t.now), true);
      assert CallsOf(init) + [] == CallsOf(init);
    }
  }

  /** Pruning changes no answer to a sign-in. */
  lemma SignInsDoNotSeePruning(log: seq<Try>, t: Try)
    requires Ordered(log + [t])
    ensures Admits(log, t, true) <==> Admits(log, t, false)
  {
    assert forall i :: 0 <= i < |log| ==> log[i] == (log + [t])[i];
    assert (log + [t])[|log|] == t;
    SignInsAreCalls(log);
    PruningIsUnobservable(CallsOf(log), t.key, t.now);
  }

  // ---- What the gate remembers of a key ----

  /** The attempts under the key. */
  function Own(log: seq<Try>, key: string): seq<Try> {
    if log == [] then []
    else Own(log[..|log| - 1], key) + if log[|log| - 1].key == key then [log[|log| - 1]] else []
  }

  lemma RunSnoc(log: seq<Try>, t: Try, prune: bool)
    ensures Run(log + [t], prune) == Step(Run(log, prune), t, prune)
  {
    assert (log + [t])[..|log|] == log;
  }

  /** A gate that never prunes remembers of a key what it would if there were no other keys. */
  lemma {:induction false} KeysAreSeparate(log: seq<Try>, key: string)
    ensures Get(Run(log, false), key) == Get(Run(Own(log, key), false), key)
  {
    if log != [] {
      var init, t := log[..|log| - 1], log[|log| - 1];
      KeysAreSeparate(init, key);
      if t.key == key {
        RunSnoc(Own(init, key), t, false);
      } else {
        assert Own(init, key) + [] == Own(init, key);
      }
    }
  }

  /** What a key is told does not depend on the attempts under other keys. */
  lemma OtherKeysDoNotMatter(log: seq<Try>, t: Try)
    requires Ordered(log + [t])
    ensures Admits(log, t, true) <==> Admits(Own(log, t.key), t, false)
  {
    KeysAreSeparate(log, t.key);
    SignInsDoNotSeePruning(log, t);
  }

  /** An admitted success leaves nothing of the key; afterwards it is as in an empty gate. */
  lemma {:induction false} SuccessForgets(log: seq<Try>, s: Try, more: seq<Try>)
    requires s.ok && Admits(log, s, false)
    ensures Get(Run(log + [s] + more, false), s.key) == Get(Run(more, false), s.key)
    decreases |more|
  {
    if more == [] {
      RunSnoc(log, s, false);
      assert log + [s] + more == log + [s];
    } else {
      var init, t := more[..|more| - 1], more[|more| - 1];
      SuccessForgets(log, s, init);
      assert log + [s] + more == log + [s] + init + [t];
      RunSnoc(log + [s] + init, t, false);
    }
  }

  /**
   * After a sign-in that succeeds, every later attempt under the key gets the answer it would get from a
   * gate that had seen only what came after.
   */
  lemma SuccessStartsAfresh(log: seq<Try>, s: Try, more: seq<Try>, t: Try)
    requires s.ok && Admits(log, s, true) && t.key == s.key && Ordered(log + [s] + more + [t])
    ensures Admits(log + [s] + more, t, true) <==> Admits(more, t, true)
  {
    var all := log + [s] + more + [t];
    assert forall i :: 0 <= i < |log + [s]| ==> (log + [s])[i] == all[i];
    assert forall i :: 0 <= i < |more + [t]| ==> (more + [t])[i] == all[|log| + 1 + i];
    SignInsDoNotSeePruning(log, s);
    SignInsDoNotSeePruning(log + [s] + more, t);
    SignInsDoNotSeePruning(more, t);
    SuccessForgets(log, s, more);
  }

  /** Fewer than five attempts lock nothing. */
  lemma {:induction false} FewAttempts(log: seq<Try>, key: string)
    requires |log| < MAX_FAILURES
    ensures var a := Get(Run(log, false), key);
      a.Some? ==> a.value.failures <= |log| && a.value.lockedUntil == NEVER
  {
    if log != [] {
      FewAttempts(log[..|log| - 1], key);
      FewAttempts(log[..|log| - 1], log[|log| - 1].key);
    }
  }

  /** So up to four failures, after a success or at the start, leave the key free, whatever went before. */
  lemma FourFailuresAreFree(log: seq<Try>, s: Try, more: seq<Try>, t: Try)
    requires s.ok && Admits(log, s, true) && t.key == s.key && Ordered(log + [s] + more + [t])
    requires |Own(more, t.key)| < MAX_FAILURES
    ensures Admits(log + [s] + more, t, true)
  {
    SuccessStartsAfresh(log, s, more, t);
    var all := log + [s] + more + [t];
    assert forall i :: 0 <= i < |more + [t]| ==> (more + [t])[i] == all[|log| + 1 + i];
    OtherKeysDoNotMatter(more, t);
    FewAttempts(Own(more, t.key), t.key);
  }
}
