/**
 * How many failed sign-ins under one key reach the password check
 * (backend/internal/api/security.go, backend/internal/api/auth_handlers.go).
 */
module LoginBound {
  import opened Strings
  import opened LoginGate

  /** The failed attempts under key in [from, to] that the gate lets through to the password check. */
  function Admitted(log: seq<Try>, key: string, from: int, to: int, prune: bool): nat {
    if log == [] then 0
    else
      var init, t := log[..|log| - 1], log[|log| - 1];
      Admitted(init, key, from, to, prune) +
        (if t.key == key && !t.ok && from <= t.now <= to && Admits(init, t, prune) then 1 else 0)
  }

  /** The most failures an interval of length t can see. */
  function Limit(t: nat): nat {
    if t % LOCKOUT == 0 then 5 + 5 * (t / LOCKOUT) else 9 + 5 * (t / LOCKOUT)
  }

  predicate NoSuccess(log: seq<Try>, key: string) {
    forall i :: 0 <= i < |log| && log[i].key == key ==> !log[i].ok
  }

  function Latest(log: seq<Try>): nat {
    if log == [] then 0 else log[|log| - 1].now
  }

  // ---- The upper bound ----

  /** What an entry looks like after any number of failures up to now. */
  ghost predicate Shape(a: Option<Attempt>, now: int) {
    a.Some? ==>
      var v := a.value;
      && v.failures < MAX_FAILURES && 0 <= v.firstFailed <= now
      && (v.lockedUntil == NEVER || v.lockedUntil == v.firstFailed + LOCKOUT)
      && (v.failures == 0 ==> v.lockedUntil != NEVER)
      && (v.failures > 0 ==> v.lockedUntil <= now)
  }

  /** The moment from which the present run of failures counts. */
  function Anchor(a: Attempt): int {
    if a.lockedUntil > a.firstFailed then a.lockedUntil else a.firstFailed
  }

  /** How many failures may still come before the end. */
  function Potential(a: Attempt, end: int): int {
    MAX_FAILURES - a.failures + 5 * ((end - Anchor(a)) / LOCKOUT)
  }

  /**
   * What n admitted failures in [from, end] so far say of the entry: either its window began in the
   * interval and the rest is bounded by its potential, or it began before and all n are among its failures.
   */
  ghost predicate Accounted(a: Option<Attempt>, n: nat, from: int, end: int)
    requires from <= end
  {
    || (n == 0 && (a.Some? ==> a.value.firstFailed < from))
    || (a.Some? && a.value.firstFailed < from <= a.value.firstFailed + WINDOW && 0 < n <= a.value.failures)
    || (a.Some? && from <= a.value.firstFailed && n + Potential(a.value, end) <= Limit(end - from))
  }

  lemma FailKeepsShape(a: Option<Attempt>, now: nat)
    requires Shape(a, now) && Remaining(a, now) == 0
    ensures Shape(Some(FailOnce(a, now).0), now)
  {}

  lemma FailIsAccounted(a: Option<Attempt>, before: int, now: nat, n: nat, from: int, end: int)
    requires from <= end && now <= end && before <= now
    requires Shape(a, before) && Remaining(a, now) == 0 && Accounted(a, n, from, end)
    requires now < from ==> n == 0
    ensures Accounted(Some(FailOnce(a, now).0), if from <= now then n + 1 else n, from, end)
  {
    var v := FailOnce(a, now).0;
    if from <= now {
      assert (end - now) / LOCKOUT <= (end - from) / LOCKOUT;
      assert (end - (now + LOCKOUT)) / LOCKOUT == (end - now) / LOCKOUT - 1;
      if a.Some? && now - a.value.firstFailed > WINDOW && n > 0 {
        // A window that ended inside the interval: at most four failures came before.
        if from <= a.value.firstFailed {
          assert (end - now) / LOCKOUT <= (end - Anchor(a.value)) / LOCKOUT - 1;
        } else {
          assert (end - now) / LOCKOUT <= (end - from - 1) / LOCKOUT;
        }
      }
    }
  }

  lemma AccountedWithinLimit(a: Option<Attempt>, now: int, n: nat, from: int, end: int)
    requires from <= end && now <= end && Shape(a, now) && Accounted(a, n, from, end)
    ensures n <= Limit(end - from)
  {}

  lemma {:induction false} RunIsAccounted(log: seq<Try>, key: string, from: nat, end: nat)
    requires Ordered(log) && NoSuccess(log, key) && from <= end && Latest(log) <= end
    ensures Shape(Get(Run(log, false), key), Latest(log))
    ensures Accounted(Get(Run(log, false), key), Admitted(log, key, from, end, false), from, end)
    ensures Latest(log) < from ==> Admitted(log, key, from, end, false) == 0
  {
    if log != [] {
      var init, t := log[..|log| - 1], log[|log| - 1];
      assert init == [] || init[|init| - 1] == log[|init| - 1];
      RunIsAccounted(init, key, from, end);
      var a := Get(Run(init, false), key);
      if t.key == key && Remaining(a, t.now) == 0 {
        FailKeepsShape(a, t.now);
        FailIsAccounted(a, Latest(init), t.now, Admitted(init, key, from, end, false), from, end);
      }
    }
  }

  lemma {:induction false} PruningKeepsCount(log: seq<Try>, key: string, from: int, to: int)
    requires Ordered(log)
    ensures Admitted(log, key, from, to, true) == Admitted(log, key, from, to, false)
  {
    if log != [] {
      var init, t := log[..|log| - 1], log[|log| - 1];
      assert init + [t] == log;
      PruningKeepsCount(init, key, from, to);
      SignInsDoNotSeePruning(init, t);
    }
  }

  lemma {:induction false} CountStopsAtEnd(log: seq<Try>, key: string, from: nat, end: nat)
    requires Ordered(log) && NoSuccess(log, key) && from <= end
    ensures Admitted(log, key, from, end, false) <= Limit(end - from)
  {
    if log != [] && Latest(log) > end {
      CountStopsAtEnd(log[..|log| - 1], key, from, end);
    } else {
      RunIsAccounted(log, key, from, end);
      AccountedWithinLimit(Get(Run(log, false), key), Latest(log), Admitted(log, key, from, end, false), from, end);
    }
  }

  /**
   * However the attempts under all keys are timed, at most Limit(T) failures under one key that
   * never succeeds reach the password check in any closed interval of length T.
   */
  lemma AdmittedWithinLimit(log: seq<Try>, key: string, from: nat, end: nat)
    requires Ordered(log) && NoSuccess(log, key) && from <= end
    ensures Admitted(log, key, from, end, true) <= Limit(end - from) <= 9 + 5 * ((end - from) / LOCKOUT)
  {
    PruningKeepsCount(log, key, from, end);
    CountStopsAtEnd(log, key, from, end);
  }

  // ---- The bound is attained ----

  function Failures(key: string, now: nat, n: nat): seq<Try> {
    if n == 0 then [] else Failures(key, now, n - 1) + [Try(key, now, false)]
  }

  /** Five failures, and five more each time the lock ends, k times. */
  function Bursts(key: string, now: nat, k: nat): seq<Try>
    decreases k
  {
    if k == 0 then Failures(key, now, MAX_FAILURES)
    else Failures(key, now, MAX_FAILURES) + Bursts(key, now + LOCKOUT, k - 1)
  }

  /** A log reaching Limit(t) in the interval of length t from WINDOW on. */
  function Worst(key: string, t: nat): seq<Try> {
    if t % LOCKOUT == 0 then Bursts(key, WINDOW, t / LOCKOUT)
    else Failures(key, 0, MAX_FAILURES) + Failures(key, WINDOW, 4) + Bursts(key, WINDOW + 1, t / LOCKOUT)
  }

  /** The window a failure at now falls into. */
  function Window(a: Option<Attempt>, now: int): Attempt {
    if a.None? || now - a.value.firstFailed > WINDOW then Attempt(0, now, NEVER) else a.value
  }

  /** The entry after n > 0 failures at one moment, none of which is turned away. */
  function After(a: Option<Attempt>, now: int, n: nat): Attempt
    requires n > 0
  {
    var w := Window(a, now);
    if w.failures + n >= MAX_FAILURES then Attempt(0, now, now + LOCKOUT) else w.(failures := w.failures + n)
  }

  lemma AppendOne(log: seq<Try>, key: string, now: nat, from: int, to: int)
    requires Remaining(Get(Run(log, false), key), now) == 0
    ensures var log' := log + [Try(key, now, false)];
      && Get(Run(log', false), key) == Some(After(Get(Run(log, false), key), now, 1))
      && Admitted(log', key, from, to, false)
        == Admitted(log, key, from, to, false) + (if from <= now <= to then 1 else 0)
  {
    var t := Try(key, now, false);
    var log' := log + [t];
    assert log'[..|log'| - 1] == log && log'[|log'| - 1] == t;
    assert Admits(log, t, false);
    assert Run(log', false) == Step(Run(log, false), t, false);
    assert Get(Run(log', false), key) == Some(After(Get(Run(log, false), key), now, 1));
    assert Admitted(log', key, from, to, false) ==
       Admitted(log, key, from, to, false)
         + (if t.key == key && !t.ok && from <= t.now <= to && Admits(log, t, false) then 1 else 0);
  }

  lemma AfterOneMore(a: Option<Attempt>, now: nat, n: nat)
    requires n > 0 && Window(a, now).failures + n < MAX_FAILURES && Remaining(a, now) == 0
    ensures var b := Some(After(a, now, n)); Remaining(b, now) == 0 && After(b, now, 1) == After(a, now, n + 1)
  {
    assert Window(Some(After(a, now, n)), now) == After(a, now, n);
  }

  lemma {:induction false} AppendFailures(log: seq<Try>, key: string, now: nat, n: nat, from: int, to: int)
    requires var a := Get(Run(log, false), key); Remaining(a, now) == 0 && Window(a, now).failures + n <= MAX_FAILURES
    ensures var log' := log + Failures(key, now, n);
      && Admitted(log', key, from, to, false)
        == Admitted(log, key, from, to, false) + (if from <= now <= to then n else 0)
      && (n > 0 ==> Get(Run(log', false), key) == Some(After(Get(Run(log, false), key), now, n)))
  {
    if n == 0 {
      assert log + [] == log;
    } else {
      AppendFailures(log, key, now, n - 1, from, to);
      var log1 := log + Failures(key, now, n - 1);
      assert log + Failures(key, now, n) == log1 + [Try(key, now, false)];
      if n == 1 {
        assert log1 == log;
      } else {
        AfterOneMore(Get(Run(log, false), key), now, n - 1);
      }
      AppendOne(log1, key, now, from, to);
    }
  }

  lemma AppendBurst(log: seq<Try>, key: string, now: nat, from: int, to: int)
    requires var a := Get(Run(log, false), key); Remaining(a, now) == 0 && Window(a, now).failures == 0
    requires from <= now <= to
    ensures var log' := log + Failures(key, now, MAX_FAILURES);
      && Admitted(log', key, from, to, false) == Admitted(log, key, from, to, false) + 5
      && Get(Run(log', false), key) == Some(Attempt(0, now, now + LOCKOUT))
  {
    AppendFailures(log, key, now, MAX_FAILURES, from, to);
  }

  lemma LockExpires(now: nat)
    ensures var a := Some(Attempt(0, now, now + LOCKOUT));
      Remaining(a, now + LOCKOUT) == 0 && Window(a, now + LOCKOUT).failures == 0
  {}

  /** Every failure of k + 1 bursts is counted. */
  lemma {:induction false} AppendBursts(log: seq<Try>, key: string, now: nat, k: nat, from: int, to: int)
    requires var a := Get(Run(log, false), key); Remaining(a, now) == 0 && Window(a, now).failures == 0
    requires from <= now && now + k * LOCKOUT <= to
    ensures Admitted(log + Bursts(key, now, k), key, from, to, false) == Admitted(log, key, from, to, false) + 5 + 5 * k
    decreases k
  {
    AppendBurst(log, key, now, from, to);
    BurstsUnfold(log, key, now, k);
    if k > 0 {
      assert now + k * LOCKOUT == now + LOCKOUT + (k - 1) * LOCKOUT;
      LockExpires(now);
      AppendBursts(log + Failures(key, now, MAX_FAILURES), key, now + LOCKOUT, k - 1, from, to);
    }
  }

  lemma BurstsUnfold(log: seq<Try>, key: string, now: nat, k: nat)
    ensures var log1 := log + Failures(key, now, MAX_FAILURES);
      log + Bursts(key, now, k) == if k == 0 then log1 else log1 + Bursts(key, now + LOCKOUT, k - 1)
  {}

  lemma {:induction false} FailuresInOrder(key: string, now: nat, n: nat)
    ensures |Failures(key, now, n)| == n
    ensures forall i :: 0 <= i < n ==> Failures(key, now, n)[i] == Try(key, now, false)
  {
    if n > 0 { FailuresInOrder(key, now, n - 1); }
  }

  /** Every attempt of the log fails under the key, in order, between two moments. */
  ghost predicate AllBetween(log: seq<Try>, key: string, from: int, to: int) {
    && Ordered(log)
    && forall i :: 0 <= i < |log| ==> log[i].key == key && !log[i].ok && from <= log[i].now <= to
  }

  lemma BetweenAppend(a: seq<Try>, b: seq<Try>, key: string, from: int, mid: int, mid': int, to: int)
    requires AllBetween(a, key, from, mid) && AllBetween(b, key, mid', to) && from <= mid <= mid' <= to
    ensures AllBetween(a + b, key, from, to)
  {}

  lemma {:induction false} BurstsInOrder(key: string, now: nat, k: nat)
    ensures AllBetween(Bursts(key, now, k), key, now, now + k * LOCKOUT)
    decreases k
  {
    FailuresInOrder(key, now, MAX_FAILURES);
    assert AllBetween(Failures(key, now, MAX_FAILURES), key, now, now);
    if k > 0 {
      var next := now + LOCKOUT;
      assert now + k * LOCKOUT == next + (k - 1) * LOCKOUT;
      BurstsInOrder(key, next, k - 1);
      BetweenAppend(Failures(key, now, MAX_FAILURES), Bursts(key, next, k - 1), key, now, now, next, now + k * LOCKOUT);
    }
  }

  lemma AttainedAtMultiples(key: string, k: nat, t: nat)
    requires t == k * LOCKOUT
    ensures Admitted(Bursts(key, WINDOW, k), key, WINDOW, WINDOW + t, false) == 5 + 5 * k
    ensures AllBetween(Bursts(key, WINDOW, k), key, WINDOW, WINDOW + t)
  {
    BurstsInOrder(key, WINDOW, k);
    AppendBursts([], key, WINDOW, k, WINDOW, WINDOW + t);
    assert [] + Bursts(key, WINDOW, k) == Bursts(key, WINDOW, k);
  }

  lemma AttainedBetween(key: string, k: nat, t: nat)
    requires k * LOCKOUT < t
    ensures var log := Failures(key, 0, MAX_FAILURES) + Failures(key, WINDOW, 4) + Bursts(key, WINDOW + 1, k);
      && Admitted(log, key, WINDOW, WINDOW + t, false) == 9 + 5 * k
      && AllBetween(log, key, 0, WINDOW + 1 + k * LOCKOUT)
  {
    WorstInOrder(key, k);
    FiveThenFour(key, t);
    AppendBursts(Failures(key, 0, MAX_FAILURES) + Failures(key, WINDOW, 4), key, WINDOW + 1, k, WINDOW, WINDOW + t);
  }

  lemma UnprunedAttains(key: string, t: nat)
    ensures Admitted(Worst(key, t), key, WINDOW, WINDOW + t, false) == Limit(t)
    ensures AllBetween(Worst(key, t), key, 0, WINDOW + 1 + t)
  {
    if t % LOCKOUT == 0 {
      AttainedAtMultiples(key, t / LOCKOUT, t);
    } else {
      AttainedBetween(key, t / LOCKOUT, t);
    }
  }

  /** The limit is reached for every interval length, so no smaller bound holds. */
  lemma LimitIsAttained(key: string, t: nat)
    ensures var log := Worst(key, t);
      && Ordered(log) && NoSuccess(log, key)
      && Admitted(log, key, WINDOW, WINDOW + t, true) == Limit(t)
  {
    UnprunedAttains(key, t);
    PruningKeepsCount(Worst(key, t), key, WINDOW, WINDOW + t);
  }

  lemma WorstInOrder(key: string, k: nat)
    ensures AllBetween(Failures(key, 0, MAX_FAILURES) + Failures(key, WINDOW, 4) + Bursts(key, WINDOW + 1, k), key, 0,
                       WINDOW + 1 + k * LOCKOUT)
  {
    FailuresInOrder(key, 0, MAX_FAILURES);
    FailuresInOrder(key, WINDOW, 4);
    BurstsInOrder(key, WINDOW + 1, k);
    BetweenAppend(Failures(key, 0, MAX_FAILURES), Failures(key, WINDOW, 4), key, 0, 0, WINDOW, WINDOW);
    BetweenAppend(Failures(key, 0, MAX_FAILURES) + Failures(key, WINDOW, 4), Bursts(key, WINDOW + 1, k),
                  key, 0, WINDOW, WINDOW + 1, WINDOW + 1 + k * LOCKOUT);
  }

  /** Four failures at the very end of a lock's window do not carry over to the next one. */
  lemma FiveThenFour(key: string, t: nat)
    ensures var log := Failures(key, 0, MAX_FAILURES) + Failures(key, WINDOW, 4);
      && Admitted(log, key, WINDOW, WINDOW + t, false) == 4
      && Get(Run(log, false), key) == Some(Attempt(4, 0, LOCKOUT))
  {
    AppendFailures([], key, 0, MAX_FAILURES, WINDOW, WINDOW + t);
    assert [] + Failures(key, 0, MAX_FAILURES) == Failures(key, 0, MAX_FAILURES);
    AppendFailures(Failures(key, 0, MAX_FAILURES), key, WINDOW, 4, WINDOW, WINDOW + t);
  }
}
