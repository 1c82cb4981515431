/** What every run of refreshes keeps of the index and its history. */
module SpecHistory {
  import opened Strings
  import opened Ordering
  import opened SpecIndex

  // ---- The history is bounded and free of repeats ----

  ghost predicate InOrder(h: seq<Entry>) {
    forall i, j :: 0 <= i < j < |h| ==> h[i].at <= h[j].at
  }

  predicate SameFailure(a: Entry, b: Entry) {
    a.kind.FailedRefresh? && b.kind.FailedRefresh? && a.error == b.error
  }

  ghost predicate NoRepeatedFailure(h: seq<Entry>) {
    forall i, j :: 0 <= i < |h| && j == i + 1 < |h| ==> !SameFailure(h[i], h[j])
  }

  ghost predicate GoodHistory(h: seq<Entry>, now: int) {
    && InOrder(h) && |h| <= HISTORY_KEEP
    && (forall i :: 0 <= i < |h| ==> h[i].at <= now)
    && NoRepeatedFailure(h)
  }

  function LastRows(h: seq<Entry>): seq<Entry> {
    if |h| <= HISTORY_KEEP then h else h[|h| - HISTORY_KEEP..]
  }

  predicate From(lo: nat, j: nat) {
    lo <= j
  }

  lemma {:induction false} RangeSize(lo: nat, hi: nat)
    requires lo <= hi
    ensures |set j: nat | j < hi && From(lo, j)| == hi - lo
    decreases hi
  {
    var range := set j: nat | j < hi && From(lo, j);
    if lo < hi {
      RangeSize(lo, hi - 1);
      assert range == (set j: nat | j < hi - 1 && From(lo, j)) + {hi - 1};
    } else {
      assert range == {};
    }
  }

  lemma RankInOrder(h: seq<Entry>, i: nat)
    requires InOrder(h) && i < |h|
    ensures Rank(h, i) == |h| - 1 - i
  {
    var lo := i + 1;
    RangeSize(lo, |h|);
    assert (set j: nat | j < |h| && Later(h, j, i)) == set j: nat | j < |h| && From(lo, j);
  }

  lemma {:induction false} KeptInOrder(h: seq<Entry>, i: nat)
    requires InOrder(h) && i <= |h|
    ensures KeptFrom(h, i) == if |h| - HISTORY_KEEP <= i then h[i..] else h[|h| - HISTORY_KEEP..]
    decreases |h| - i
  {
    if i < |h| {
      KeptInOrder(h, i + 1);
      RankInOrder(h, i);
      assert h[i..] == [h[i]] + h[i + 1..];
    }
  }

  /** With a clock that does not run backwards, an insert keeps exactly the 50 newest rows. */
  lemma InsertKeepsNewest(h: seq<Entry>, e: Entry)
    requires InOrder(h + [e])
    ensures InsertHistory(h, e) == LastRows(h + [e])
  {
    KeptInOrder(h + [e], 0);
  }

  lemma {:induction false} NewestOfInOrder(h: seq<Entry>, n: nat)
    requires InOrder(h) && 0 < n <= |h|
    ensures NewestOf(h, n) == n - 1
  {
    if n > 1 {
      NewestOfInOrder(h, n - 1);
    }
  }

  lemma InsertIsGood(h: seq<Entry>, e: Entry, before: int)
    requires GoodHistory(h, before) && before <= e.at
    requires h != [] ==> !SameFailure(h[|h| - 1], e)
    ensures GoodHistory(InsertHistory(h, e), e.at) && InsertHistory(h, e) == LastRows(h + [e])
  {
    var all := h + [e];
    assert InOrder(all);
    InsertKeepsNewest(h, e);
    LastRowsNoRepeats(h, e);
    var kept := LastRows(all);
    forall i | 0 <= i < |kept| ensures kept[i].at <= e.at {
      assert kept[i] in all;
    }
  }

  lemma LastRowsNoRepeats(h: seq<Entry>, e: Entry)
    requires NoRepeatedFailure(h) && (h != [] ==> !SameFailure(h[|h| - 1], e))
    ensures NoRepeatedFailure(LastRows(h + [e]))
  {
    var all := h + [e];
    var shift := if |all| <= HISTORY_KEEP then 0 else |all| - HISTORY_KEEP;
    forall i, j | 0 <= i < |LastRows(all)| && j == i + 1 < |LastRows(all)|
      ensures !SameFailure(LastRows(all)[i], LastRows(all)[j]) {
      assert LastRows(all)[i] == h[shift + i] && LastRows(all)[j] == all[shift + j];
      if shift + j < |h| {
        assert !SameFailure(h[shift + i], h[shift + j]);
      }
    }
  }

  lemma FailureIsGood(h: seq<Entry>, before: int, now: int, message: string)
    requires GoodHistory(h, before) && before <= now
    ensures GoodHistory(RecordFailure(h, now, message), now)
  {
    if h != [] {
      NewestOfInOrder(h, |h|);
    }
    if RecordFailure(h, now, message) != h {
      InsertIsGood(h, Failure(now, message), before);
    }
  }

  ghost function Latest(start: int, log: seq<Timed>): int {
    if log == [] then start else log[|log| - 1].now
  }

  /** The clock does not run backwards. */
  ghost predicate Ordered(start: int, log: seq<Timed>) {
    log == [] || (Ordered(start, log[..|log| - 1]) && Latest(start, log[..|log| - 1]) <= log[|log| - 1].now)
  }

  lemma StepKeepsHistory(r: Reader, st: State, before: int, e: Timed)
    requires GoodHistory(st.history, before) && before <= e.now
    ensures GoodHistory(Step(r, st, e).history, e.now)
  {
    if e.event.FetchFailed? {
      FailureIsGood(st.history, before, e.now, e.event.message);
    } else if Step(r, st, e).history != st.history {
      var spec := if e.event.Fetched? then e.event.spec else st.cache.value;
      var from := if e.event.Fetched? then st.(cache := Some(spec)) else st;
      InsertIsGood(st.history, NewEntry(from, e.now, r.hash(spec), r.version(spec), r.ops(spec)), before);
    }
  }

  /** In every reachable state: at most 50 rows, oldest first, and no failure right after the same failure. */
  lemma {:induction false} HistoryStaysGood(r: Reader, st: State, start: int, log: seq<Timed>)
    requires GoodHistory(st.history, start) && Ordered(start, log)
    ensures GoodHistory(Run(r, st, log).history, Latest(start, log))
  {
    if log != [] {
      var init := log[..|log| - 1];
      HistoryStaysGood(r, st, start, init);
      StepKeepsHistory(r, Run(r, st, init), Latest(start, init), log[|log| - 1]);
    }
  }

  // ---- The index holds the spec it names ----

  /** The stored operations, version and count are those of the spec whose hash is stored. */
  ghost predicate Faithful(r: Reader, st: State) {
    forall s :: r.hash(s) == st.specHash ==>
      st.ops == r.ops(s) && st.version == r.version(s) && st.count == Some(|r.ops(s)|)
  }

  lemma StepIsFaithful(r: Reader, st: State, e: Timed)
    requires Dependable(r) && Faithful(r, st)
    ensures Faithful(r, Step(r, st, e))
    ensures e.event.FetchFailed? ==> Step(r, st, e) == st.(history := Step(r, st, e).history)
    ensures e.event.Fetched? && e.event.indexed ==>
      var st' := Step(r, st, e);
      st'.specHash == r.hash(e.event.spec) && st'.ops == r.ops(e.event.spec) && st'.cache == Some(e.event.spec)
    ensures e.event.Fetched? && !e.event.indexed ==> Step(r, st, e) == st.(cache := Some(e.event.spec))
    ensures e.event.Backfill? ==>
      var st' := Step(r, st, e);
      if st.count.None? && st.cache.Some? && st.cache.value != ""
      then st'.specHash == r.hash(st.cache.value) && st'.ops == r.ops(st.cache.value) && st'.cache == st.cache
      else st' == st
  {}

  /** In every reachable state the index is faithful to the spec it names, whatever failed on the way. */
  lemma {:induction false} IndexStaysFaithful(r: Reader, st: State, log: seq<Timed>)
    requires Dependable(r) && Faithful(r, st)
    ensures Faithful(r, Run(r, st, log))
  {
    if log != [] {
      IndexStaysFaithful(r, st, log[..|log| - 1]);
      StepIsFaithful(r, Run(r, st, log[..|log| - 1]), log[|log| - 1]);
    }
  }

  lemma {:induction false} OwnKeys(ops: seq<Operation>)
    ensures forall i :: 0 <= i < |ops| ==> Key(ops[i]) in Fingerprints(ops)
    ensures forall k :: k in Fingerprints(ops) ==> exists i :: 0 <= i < |ops| && Key(ops[i]) == k
  {
    if ops != [] {
      var init := ops[..|ops| - 1];
      OwnKeys(init);
      assert forall i :: 0 <= i < |init| ==> init[i] == ops[i];
    }
  }

  lemma {:induction false} OwnFingerprints(ops: seq<Operation>)
    requires DistinctKeys(ops)
    ensures forall i :: 0 <= i < |ops| ==>
      Key(ops[i]) in Fingerprints(ops) && Fingerprints(ops)[Key(ops[i])] == ops[i].fingerprint
  {
    if ops != [] {
      var init := ops[..|ops| - 1];
      LastKeyIsNew(ops);
      OwnFingerprints(init);
      forall i | 0 <= i < |init|
        ensures Key(ops[i]) in Fingerprints(ops) && Fingerprints(ops)[Key(ops[i])] == ops[i].fingerprint {
        assert init[i] == ops[i];
        OwnKeys(init);
      }
    }
  }

  lemma {:induction false} AddedExact(before: map<string, string>, ops: seq<Operation>)
    ensures Elements(AddedKeys(before, ops)) == Fingerprints(ops).Keys - before.Keys
  {
    if ops != [] {
      var init, op := ops[..|ops| - 1], ops[|ops| - 1];
      AddedExact(before, init);
      ElementsPlus(AddedKeys(before, init), Key(op));
      assert AddedKeys(before, ops) == if Key(op) !in before then AddedKeys(before, init) + [Key(op)]
        else AddedKeys(before, init);
      assert Fingerprints(ops).Keys == Fingerprints(init).Keys + {Key(op)};
    } else {
      assert Elements(AddedKeys(before, ops)) == {} && Fingerprints(ops).Keys == {};
    }
  }

  lemma LastKeyIsNew(ops: seq<Operation>)
    requires DistinctKeys(ops) && ops != []
    ensures DistinctKeys(ops[..|ops| - 1]) && Key(ops[|ops| - 1]) !in Fingerprints(ops[..|ops| - 1])
  {
    var init := ops[..|ops| - 1];
    assert forall i :: 0 <= i < |init| ==> init[i] == ops[i];
    OwnKeys(init);
  }

  lemma {:induction false} AddedOnce(before: map<string, string>, ops: seq<Operation>)
    requires DistinctKeys(ops)
    ensures NoRepeats(AddedKeys(before, ops))
  {
    if ops != [] {
      var init, op := ops[..|ops| - 1], ops[|ops| - 1];
      LastKeyIsNew(ops);
      AddedOnce(before, init);
      AddedExact(before, init);
      NoRepeatsPlus(AddedKeys(before, init), Key(op));
      assert AddedKeys(before, ops) == AddedKeys(before, init) + if Key(op) !in before then [Key(op)] else [];
    }
  }

  lemma {:induction false} ChangedExact(before: map<string, string>, ops: seq<Operation>)
    requires DistinctKeys(ops)
    ensures Elements(ChangedKeys(before, ops)) ==
      set k | k in before.Keys && k in Fingerprints(ops) && before[k] != "" && before[k] != Fingerprints(ops)[k]
    ensures NoRepeats(ChangedKeys(before, ops))
  {
    if ops != [] {
      var init, op := ops[..|ops| - 1], ops[|ops| - 1];
      LastKeyIsNew(ops);
      ChangedExact(before, init);
      assert Key(op) !in Elements(ChangedKeys(before, init));
      ElementsPlus(ChangedKeys(before, init), Key(op));
      NoRepeatsPlus(ChangedKeys(before, init), Key(op));
      assert Fingerprints(ops) == Fingerprints(init)[Key(op) := op.fingerprint];
      var news := Key(op) in before && before[Key(op)] != "" && before[Key(op)] != op.fingerprint;
      assert ChangedKeys(before, ops) == if news then ChangedKeys(before, init) + [Key(op)]
        else ChangedKeys(before, init);
    } else {
      assert Elements(ChangedKeys(before, ops)) == {} && Fingerprints(ops).Keys == {};
    }
  }

  lemma NoRepeatsPlus(s: seq<string>, x: string)
    requires NoRepeats(s) && x !in Elements(s)
    ensures NoRepeats(s + [x])
  {
    forall i | 0 <= i < |s| ensures s[i] != x {
      assert s[i] in Elements(s);
    }
  }

  lemma {:induction false} CountOfDistinct(s: seq<string>)
    requires NoRepeats(s)
    ensures |Elements(s)| == |s|
  {
    if s == [] {
      assert Elements(s) == {};
    } else {
      var init, last := s[..|s| - 1], s[|s| - 1];
      CountOfDistinct(init);
      ElementsPlus(init, last);
      assert s == init + [last] && last !in Elements(init);
    }
  }

  // ---- Skipping an unchanged spec ----

  lemma NoDifference(ops: seq<Operation>)
    requires DistinctKeys(ops)
    ensures var before := Fingerprints(ops);
      AddedKeys(before, ops) == [] && RemovedKeys(before, ops) == [] && ChangedKeys(before, ops) == []
  {
    var before := Fingerprints(ops);
    AddedExact(before, ops);
    ChangedExact(before, ops);
    EmptyElements(AddedKeys(before, ops));
    EmptyElements(RemovedKeys(before, ops));
    EmptyElements(ChangedKeys(before, ops));
  }

  lemma EmptyElements(s: seq<string>)
    ensures Elements(s) == {} <==> s == []
  {
    assert s != [] ==> s[0] in Elements(s);
  }

  /**
   * Skipping a spec whose hash is stored is the same as replacing everything anyway, except
   * that replacing would record a first index again once no entry but failures is left.
   */
  lemma SkippingIsReplacing(r: Reader, st: State, start: int, now: int, spec: string)
    requires Dependable(r) && Faithful(r, st) && GoodHistory(st.history, start) && start <= now
    ensures var skipped, replaced := Index(r, st, now, spec),
      Replace(st, now, r.hash(spec), r.version(spec), r.ops(spec));
      && skipped == replaced.(history := skipped.history)
      && (skipped == replaced <==> !(st.specHash == r.hash(spec) && !SomeIndexed(st.history)))
  {
    if st.specHash == r.hash(spec) {
      NoDifference(r.ops(spec));
      var e := NewEntry(st, now, r.hash(spec), r.version(spec), r.ops(spec));
      if !SomeIndexed(st.history) {
        InsertIsGood(st.history, e, start);
        var h := InsertHistory(st.history, e);
        assert h[|h| - 1] == e;
        assert SomeIndexed(h);
      }
    }
  }

  /** The step of an index that replaces everything even when the spec is unchanged. */
  ghost function StepReplacing(r: Reader, st: State, e: Timed): State {
    match e.event
    case Fetched(spec, indexed) =>
      var cached := st.(cache := Some(spec));
      if indexed then Replace(cached, e.now, r.hash(spec), r.version(spec), r.ops(spec)) else cached
    case _ => Step(r, st, e)
  }

  ghost function RunReplacing(r: Reader, st: State, log: seq<Timed>): State {
    if log == [] then st else StepReplacing(r, RunReplacing(r, st, log[..|log| - 1]), log[|log| - 1])
  }

  lemma StepsAlike(r: Reader, st: State, replaced: State, e: Timed)
    requires Dependable(r) && Faithful(r, st) && st == replaced.(history := st.history)
    ensures var st', replaced' := Step(r, st, e), StepReplacing(r, replaced, e);
      st' == replaced'.(history := st'.history)
  {}

  /** Over every run, skipping unchanged specs leaves all but the history as replacing them would. */
  lemma {:induction false} RunsAlike(r: Reader, st: State, log: seq<Timed>)
    requires Dependable(r) && Faithful(r, st)
    ensures Run(r, st, log) == RunReplacing(r, st, log).(history := Run(r, st, log).history)
  {
    if log != [] {
      var init := log[..|log| - 1];
      RunsAlike(r, st, init);
      IndexStaysFaithful(r, st, init);
      StepsAlike(r, Run(r, st, init), RunReplacing(r, st, init), log[|log| - 1]);
    }
  }

  /** The event indexes an unchanged spec while no entry but failures is left. */
  ghost predicate SkipsAmongFailures(r: Reader, st: State, e: Timed) {
    e.event.Fetched? && e.event.indexed && st.specHash == r.hash(e.event.spec) && !SomeIndexed(st.history)
  }

  ghost predicate NeverSkipsAmongFailures(r: Reader, st: State, log: seq<Timed>) {
    log == [] ||
    (var init := log[..|log| - 1];
     NeverSkipsAmongFailures(r, st, init) && !SkipsAmongFailures(r, Run(r, st, init), log[|log| - 1]))
  }

  /** The two runs are in the same state, history included, after every event. */
  ghost predicate SameThroughout(r: Reader, st: State, log: seq<Timed>) {
    Run(r, st, log) == RunReplacing(r, st, log) && (log == [] || SameThroughout(r, st, log[..|log| - 1]))
  }

  lemma StepsSame(r: Reader, st: State, start: int, e: Timed)
    requires Dependable(r) && Faithful(r, st) && GoodHistory(st.history, start) && start <= e.now
    ensures Step(r, st, e) == StepReplacing(r, st, e) <==> !SkipsAmongFailures(r, st, e)
  {
    if e.event.Fetched? && e.event.indexed {
      SkippingIsReplacing(r, st.(cache := Some(e.event.spec)), start, e.now, e.event.spec);
    }
  }

  /** The histories of the two runs agree throughout if and only if nothing is skipped while only failures are left. */
  lemma {:induction false} RunsSameExactly(r: Reader, st: State, start: int, log: seq<Timed>)
    requires Dependable(r) && Faithful(r, st) && GoodHistory(st.history, start) && Ordered(start, log)
    ensures SameThroughout(r, st, log) <==> NeverSkipsAmongFailures(r, st, log)
  {
    if log != [] {
      var init := log[..|log| - 1];
      RunsSameExactly(r, st, start, init);
      IndexStaysFaithful(r, st, init);
      HistoryStaysGood(r, st, start, init);
      StepsSame(r, Run(r, st, init), Latest(start, init), log[|log| - 1]);
    }
  }

  // ---- Replaying the differences ----

  /** Once a hash is stored, the stored operations have distinct keys and known fingerprints. */
  ghost predicate Fingerprinted(st: State) {
    st.specHash != "" ==> DistinctKeys(st.ops) && forall i :: 0 <= i < |st.ops| ==> st.ops[i].fingerprint != ""
  }

  datatype Delta = Delta(added: set<string>, removed: set<string>, changed: set<string>)

  ghost function DeltaOf(before: map<string, string>, after: map<string, string>): Delta {
    Delta(after.Keys - before.Keys, before.Keys - after.Keys,
          set k | k in before.Keys && k in after && before[k] != after[k])
  }

  lemma FingerprintsKnown(st: State)
    requires Fingerprinted(st) && st.specHash != ""
    ensures forall k :: k in Fingerprints(st.ops) ==> Fingerprints(st.ops)[k] != ""
  {
    OwnKeys(st.ops);
    OwnFingerprints(st.ops);
    forall k | k in Fingerprints(st.ops) ensures Fingerprints(st.ops)[k] != "" {
      var i :| 0 <= i < |st.ops| && Key(st.ops[i]) == k;
    }
  }

  /** The three lists, as the sets they stand for. */
  lemma ListsAreDelta(before: map<string, string>, ops: seq<Operation>)
    requires DistinctKeys(ops) && forall k :: k in before ==> before[k] != ""
    ensures var d := DeltaOf(before, Fingerprints(ops));
      && Elements(AddedKeys(before, ops)) == d.added && |AddedKeys(before, ops)| == |d.added|
      && Elements(RemovedKeys(before, ops)) == d.removed && |RemovedKeys(before, ops)| == |d.removed|
      && Elements(ChangedKeys(before, ops)) == d.changed && |ChangedKeys(before, ops)| == |d.changed|
  {
    AddedExact(before, ops);
    AddedOnce(before, ops);
    ChangedExact(before, ops);
    CountOfDistinct(AddedKeys(before, ops));
    CountOfDistinct(ChangedKeys(before, ops));
  }

  /** A `changed` entry tells exactly the difference: full counts, lists cut at 200. */
  lemma EntryTellsDelta(r: Reader, st: State, now: int, spec: string)
    requires Dependable(r) && Fingerprinted(st) && !FirstIndex(st)
    ensures var e := NewEntry(st, now, r.hash(spec), r.version(spec), r.ops(spec));
      var d := DeltaOf(Fingerprints(st.ops), Fingerprints(r.ops(spec)));
      && e.kind == Changed && e.operationCount == |Fingerprints(r.ops(spec)).Keys|
      && (e.addedCount, e.removedCount, e.changedCount) == (|d.added|, |d.removed|, |d.changed|)
      && TellsUpTo(e.added, d.added) && TellsUpTo(e.removed, d.removed) && TellsUpTo(e.changed, d.changed)
  {
    var before, ops := Fingerprints(st.ops), r.ops(spec);
    FingerprintsKnown(st);
    ListsAreDelta(before, ops);
    KeyCount(ops);
    CapTells(AddedKeys(before, ops));
    CapTells(RemovedKeys(before, ops));
    CapTells(ChangedKeys(before, ops));
  }

  /** Nothing is recorded exactly when every key keeps its fingerprint. */
  lemma NothingToTellExact(st: State, ops: seq<Operation>)
    requires DistinctKeys(ops) && Fingerprinted(st) && !FirstIndex(st)
    ensures NothingToTell(st, ops) <==> Fingerprints(st.ops) == Fingerprints(ops)
  {
    var before := Fingerprints(st.ops);
    FingerprintsKnown(st);
    ListsAreDelta(before, ops);
    EmptyElements(AddedKeys(before, ops));
    EmptyElements(RemovedKeys(before, ops));
    EmptyElements(ChangedKeys(before, ops));
    var d := DeltaOf(before, Fingerprints(ops));
    assert before == Fingerprints(ops) ==> d.added == {} && d.removed == {} && d.changed == {};
    if NothingToTell(st, ops) {
      assert d.added == {} && d.removed == {} && d.changed == {};
      forall k | k in before ensures k in Fingerprints(ops) && before[k] == Fingerprints(ops)[k] {
        assert k !in d.removed && k !in d.changed;
      }
      forall k | k in Fingerprints(ops) ensures k in before {
        assert k !in d.added;
      }
    }
  }

  /** The list names members of all, all of them unless there are more than 200. */
  ghost predicate TellsUpTo(list: seq<string>, all: set<string>) {
    && Elements(list) <= all
    && (|all| <= LIST_CAP ==> Elements(list) == all)
    && (|all| > LIST_CAP ==> |list| == LIST_CAP)
  }

  lemma CapTells(s: seq<string>)
    ensures |Elements(s)| == |s| ==> TellsUpTo(Cap(s), Elements(s))
  {}

  lemma {:induction false} KeyCount(ops: seq<Operation>)
    requires DistinctKeys(ops)
    ensures |Fingerprints(ops).Keys| == |ops|
  {
    if ops != [] {
      var init, op := ops[..|ops| - 1], ops[|ops| - 1];
      assert forall i :: 0 <= i < |init| ==> init[i] == ops[i];
      assert DistinctKeys(init);
      KeyCount(init);
      OwnKeys(init);
      assert Fingerprints(ops).Keys == Fingerprints(init).Keys + {Key(op)};
    }
  }
}
