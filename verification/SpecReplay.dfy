/** The differences a run of refreshes records, and when an entry counts as a first index. */
module SpecReplay {
  import opened Strings
  import opened Ordering
  import opened SpecIndex
  import opened SpecHistory

  /** The spec an event indexes anew, if it does. */
  ghost function Reindexed(r: Reader, st: State, e: Timed): Option<string> {
    match e.event
    case Fetched(spec, indexed) =>
      if indexed && !(st.specHash == r.hash(spec) && st.count.Some?) then Some(spec) else None
    case FetchFailed(_) => None
    case Backfill => if st.count.None? && st.cache.Some? && st.cache.value != "" then st.cache else None
  }

  /** The event adds an entry that is not a failure. */
  ghost predicate Records(r: Reader, st: State, e: Timed) {
    Reindexed(r, st, e).Some? && !NothingToTell(st, r.ops(Reindexed(r, st, e).value))
  }

  /** The entry a recorded event adds. */
  ghost function Recorded(r: Reader, st: State, e: Timed): Entry
    requires Reindexed(r, st, e).Some?
  {
    var spec := Reindexed(r, st, e).value;
    NewEntry(st, e.now, r.hash(spec), r.version(spec), r.ops(spec))
  }

  /** What an event writes: the rows of the spec it indexes, and an entry exactly when it records one. */
  lemma StepWrites(r: Reader, st: State, start: int, e: Timed)
    requires GoodHistory(st.history, start) && start <= e.now
    ensures var st', spec := Step(r, st, e), Reindexed(r, st, e);
      && st'.ops == (if spec.Some? then r.ops(spec.value) else st.ops)
      && (Records(r, st, e) ==> st'.history == LastRows(st.history + [Recorded(r, st, e)]))
      && (!Records(r, st, e) && !e.event.FetchFailed? ==> st'.history == st.history)
  {
    if Reindexed(r, st, e).Some? {
      IndexWrites(r, st, start, e.now, Reindexed(r, st, e).value);
      StepIndexes(r, st, e);
    }
  }

  lemma StepIndexes(r: Reader, st: State, e: Timed)
    requires Reindexed(r, st, e).Some?
    ensures var st', indexed := Step(r, st, e), Index(r, st, e.now, Reindexed(r, st, e).value);
      st'.ops == indexed.ops && st'.history == indexed.history
  {}

  lemma IndexWrites(r: Reader, st: State, start: int, now: int, spec: string)
    requires GoodHistory(st.history, start) && start <= now
    requires !(st.specHash == r.hash(spec) && st.count.Some?)
    ensures var ops := r.ops(spec);
      var row, st' := NewEntry(st, now, r.hash(spec), r.version(spec), ops), Index(r, st, now, spec);
      st'.ops == ops && st'.history == if NothingToTell(st, ops) then st.history else LastRows(st.history + [row])
  {
    var row := NewEntry(st, now, r.hash(spec), r.version(spec), r.ops(spec));
    InsertIsGood(st.history, row, start);
  }

  lemma {:induction false} StaysFingerprinted(r: Reader, st: State, log: seq<Timed>)
    requires Dependable(r) && Fingerprinted(st)
    ensures Fingerprinted(Run(r, st, log))
  {
    if log != [] {
      StaysFingerprinted(r, st, log[..|log| - 1]);
    }
  }

  // ---- Which entry an event adds ----

  ghost predicate OnlyFailures(h: seq<Entry>) {
    forall i :: 0 <= i < |h| ==> h[i].kind.FailedRefresh?
  }

  /**
   * In every reachable state, indexing a spec adds an `initial` row exactly when no hash is stored
   * or only failures are left, else a `changed` row exactly when some key or fingerprint differs.
   */
  lemma EntryKinds(r: Reader, st: State, start: int, log: seq<Timed>, e: Timed)
    requires Dependable(r) && Fingerprinted(st) && GoodHistory(st.history, start)
    requires Ordered(start, log) && Latest(start, log) <= e.now
    requires Reindexed(r, Run(r, st, log), e).Some?
    ensures var q := Run(r, st, log);
      var ops, row := r.ops(Reindexed(r, q, e).value), Recorded(r, q, e);
      var first := q.specHash == "" || OnlyFailures(q.history);
      && Step(r, q, e).history ==
         (if first || Fingerprints(q.ops) != Fingerprints(ops) then LastRows(q.history + [row]) else q.history)
      && row.kind == (if first then Initial else Changed)
      && row.at == e.now && row.operationCount == |ops|
      && row.hash == r.hash(Reindexed(r, q, e).value) && row.version == r.version(Reindexed(r, q, e).value)
      && (first ==> row.addedCount == row.removedCount == row.changedCount == 0)
  {
    var q := Run(r, st, log);
    HistoryStaysGood(r, st, start, log);
    StaysFingerprinted(r, st, log);
    StepWrites(r, q, Latest(start, log), e);
    if !FirstIndex(q) {
      NothingToTellExact(q, r.ops(Reindexed(r, q, e).value));
    }
  }

  /** A failure is the last row after it is recorded, unless the last row is that failure. */
  lemma RecordedFailure(h: seq<Entry>, before: int, now: int, message: string)
    requires GoodHistory(h, before) && before <= now
    ensures var h' := RecordFailure(h, now, message);
      if h != [] && h[|h| - 1].kind.FailedRefresh? && h[|h| - 1].error == message then h' == h
      else h' == LastRows(h + [Failure(now, message)])
  {
    if h != [] {
      NewestOfInOrder(h, |h|);
    }
    if !(h != [] && h[|h| - 1].kind.FailedRefresh? && h[|h| - 1].error == message) {
      InsertIsGood(h, Failure(now, message), before);
    }
  }

  /** In every reachable state, a failed refresh adds a row with its message unless the newest row is that failure. */
  lemma FailureRow(r: Reader, st: State, start: int, log: seq<Timed>, now: int, message: string)
    requires GoodHistory(st.history, start) && Ordered(start, log) && Latest(start, log) <= now
    ensures var h, h' := Run(r, st, log).history, Step(r, Run(r, st, log), At(now, FetchFailed(message))).history;
      if h != [] && h[|h| - 1].kind.FailedRefresh? && h[|h| - 1].error == message then h' == h
      else exists row: Entry :: row.kind.FailedRefresh? && row.error == message && row.at == now
             && h' == LastRows(h + [row])
  {
    HistoryStaysGood(r, st, start, log);
    RecordedFailure(Run(r, st, log).history, Latest(start, log), now, message);
    var row := Failure(now, message);
    assert row.kind.FailedRefresh? && row.error == message && row.at == now;
  }

  // ---- The recorded lists replay ----

  /** The three lists computed for a new set of operations. */
  ghost function ListedDelta(st: State, ops: seq<Operation>): Delta {
    var before := Fingerprints(st.ops);
    Delta(Elements(AddedKeys(before, ops)), Elements(RemovedKeys(before, ops)), Elements(ChangedKeys(before, ops)))
  }

  /** The lists of the differences the run records, in order and not cut. */
  ghost function Deltas(r: Reader, st: State, log: seq<Timed>): seq<Delta> {
    if log == [] then []
    else
      var q, e := Run(r, st, log[..|log| - 1]), log[|log| - 1];
      Deltas(r, st, log[..|log| - 1])
      + (if Records(r, q, e) then [ListedDelta(q, r.ops(Reindexed(r, q, e).value))] else [])
  }

  /** The differences between the states before and after each event, where there are any. */
  ghost function Differences(r: Reader, st: State, log: seq<Timed>): seq<Delta> {
    if log == [] then []
    else
      var before, after := Fingerprints(Run(r, st, log[..|log| - 1]).ops), Fingerprints(Run(r, st, log).ops);
      Differences(r, st, log[..|log| - 1]) + (if before != after then [DeltaOf(before, after)] else [])
  }

  /** No entry of the run is a first index. */
  ghost predicate NoFirstIndex(r: Reader, st: State, log: seq<Timed>) {
    log == [] ||
    (var q := Run(r, st, log[..|log| - 1]);
     NoFirstIndex(r, st, log[..|log| - 1]) && (Reindexed(r, q, log[|log| - 1]).Some? ==> !FirstIndex(q)))
  }

  ghost function Replay(keys: set<string>, deltas: seq<Delta>): set<string> {
    if deltas == [] then keys
    else
      var d := deltas[|deltas| - 1];
      Replay(keys, deltas[..|deltas| - 1]) - d.removed + d.added
  }

  ghost predicate Mentioned(k: string, deltas: seq<Delta>) {
    exists i :: 0 <= i < |deltas| && (k in deltas[i].added || k in deltas[i].removed || k in deltas[i].changed)
  }

  lemma MentionedMore(k: string, deltas: seq<Delta>, d: Delta)
    ensures Mentioned(k, deltas + [d]) <==> Mentioned(k, deltas) || k in d.added || k in d.removed || k in d.changed
  {
    var all := deltas + [d];
    assert all[|deltas|] == d && forall i :: 0 <= i < |deltas| ==> all[i] == deltas[i];
  }

  /** An event that records no difference leaves keys and fingerprints as they were. */
  lemma UnrecordedIsUnchanged(r: Reader, st: State, start: int, e: Timed)
    requires Dependable(r) && Fingerprinted(st) && !Records(r, st, e)
    requires GoodHistory(st.history, start) && start <= e.now
    ensures Fingerprints(Step(r, st, e).ops) == Fingerprints(st.ops)
  {
    StepWrites(r, st, start, e);
    if Reindexed(r, st, e).Some? {
      NothingToTellExact(st, r.ops(Reindexed(r, st, e).value));
    }
  }

  /** The lists of a recorded event are the difference it made. */
  lemma RecordedListsAreDelta(r: Reader, st: State, start: int, e: Timed)
    requires Dependable(r) && Fingerprinted(st) && GoodHistory(st.history, start) && start <= e.now
    requires Records(r, st, e) && !FirstIndex(st)
    ensures var before, after := Fingerprints(st.ops), Fingerprints(Step(r, st, e).ops);
      before != after && ListedDelta(st, r.ops(Reindexed(r, st, e).value)) == DeltaOf(before, after)
  {
    var ops := r.ops(Reindexed(r, st, e).value);
    StepWrites(r, st, start, e);
    FingerprintsKnown(st);
    NothingToTellExact(st, ops);
    ListsAreDelta(Fingerprints(st.ops), ops);
  }

  /** k is a key with fingerprint f. */
  predicate Holds(m: map<string, string>, k: string, f: string) {
    k in m && m[k] == f
  }

  /** In order the lists turn the keys of before into those of after; a key no list mentions keeps its fingerprint. */
  ghost predicate Leads(before: map<string, string>, lists: seq<Delta>, after: map<string, string>) {
    && Replay(before.Keys, lists) == after.Keys
    && forall k :: k in before && !Mentioned(k, lists) ==> Holds(after, k, before[k])
  }

  lemma {:induction false} DeltasAreDifferences(r: Reader, st: State, start: int, log: seq<Timed>)
    requires Dependable(r) && Fingerprinted(st) && NoFirstIndex(r, st, log)
    requires GoodHistory(st.history, start) && Ordered(start, log)
    ensures Deltas(r, st, log) == Differences(r, st, log)
  {
    if log != [] {
      var init, last := log[..|log| - 1], log[|log| - 1];
      DeltasAreDifferences(r, st, start, init);
      StaysFingerprinted(r, st, init);
      HistoryStaysGood(r, st, start, init);
      var q := Run(r, st, init);
      if Records(r, q, last) {
        RecordedListsAreDelta(r, q, Latest(start, init), last);
      } else {
        UnrecordedIsUnchanged(r, q, Latest(start, init), last);
      }
    }
  }

  lemma {:induction false} StatesReplay(r: Reader, st: State, log: seq<Timed>)
    ensures Leads(Fingerprints(st.ops), Differences(r, st, log), Fingerprints(Run(r, st, log).ops))
  {
    if log != [] {
      var init := log[..|log| - 1];
      var before, after := Fingerprints(Run(r, st, init).ops), Fingerprints(Run(r, st, log).ops);
      StatesReplay(r, st, init);
      OneMoreLeads(Fingerprints(st.ops), Differences(r, st, init), before, after);
      assert Differences(r, st, init) + [] == Differences(r, st, init);
    }
  }

  lemma OneMoreLeads(first: map<string, string>, lists: seq<Delta>, before: map<string, string>,
                     after: map<string, string>)
    requires Leads(first, lists, before)
    ensures Leads(first, lists + [DeltaOf(before, after)], after)
  {
    var d := DeltaOf(before, after);
    assert (lists + [d])[..|lists|] == lists;
    forall k | k in first && !Mentioned(k, lists + [d]) ensures Holds(after, k, first[k]) {
      MentionedMore(k, lists, d);
      assert Holds(before, k, first[k]);
    }
  }

  /**
   * Over any stretch without a first index, the lists computed at the recorded changes are exactly the
   * differences the events made; in order they turn the earlier operation keys into the later ones, and
   * an operation no list mentions keeps its fingerprint.
   */
  lemma DifferencesReplay(r: Reader, st: State, start: int, log: seq<Timed>)
    requires Dependable(r) && Fingerprinted(st) && NoFirstIndex(r, st, log)
    requires GoodHistory(st.history, start) && Ordered(start, log)
    ensures Deltas(r, st, log) == Differences(r, st, log)
    ensures Leads(Fingerprints(st.ops), Deltas(r, st, log), Fingerprints(Run(r, st, log).ops))
  {
    DeltasAreDifferences(r, st, start, log);
    StatesReplay(r, st, log);
  }

  // ---- The stored rows replay ----

  /** The rows a run writes, in order. */
  ghost function Written(r: Reader, st: State, log: seq<Timed>): seq<Entry> {
    if log == [] then []
    else
      Written(r, st, log[..|log| - 1]) + WrittenBy(r, Run(r, st, log[..|log| - 1]), log[|log| - 1])
  }

  ghost function WrittenBy(r: Reader, st: State, e: Timed): seq<Entry> {
    if Records(r, st, e) then [Recorded(r, st, e)]
    else if e.event.FetchFailed? && RecordFailure(st.history, e.now, e.event.message) != st.history
      then [Failure(e.now, e.event.message)]
    else []
  }

  lemma StepAppends(r: Reader, st: State, start: int, e: Timed)
    requires GoodHistory(st.history, start) && start <= e.now
    ensures Step(r, st, e).history == LastRows(st.history + WrittenBy(r, st, e))
  {
    StepWrites(r, st, start, e);
    assert st.history + [] == st.history;
    if e.event.FetchFailed? && st.history != [] {
      NewestOfInOrder(st.history, |st.history|);
    }
    if e.event.FetchFailed? && RecordFailure(st.history, e.now, e.event.message) != st.history {
      InsertIsGood(st.history, Failure(e.now, e.event.message), start);
    }
  }

  lemma LastRowsAppend(h: seq<Entry>, rows: seq<Entry>)
    requires |rows| <= 1
    ensures LastRows(LastRows(h) + rows) == LastRows(h + rows)
  {
    if rows == [] {
      assert LastRows(h) + rows == LastRows(h) && h + rows == h;
    } else {
      assert rows == [rows[0]];
      LastRowsOfLastRows(h, rows[0]);
    }
  }

  lemma Reassociates(a: seq<Entry>, b: seq<Entry>, c: seq<Entry>)
    ensures a + (b + c) == a + b + c
  {}

  /** The history is the newest 50 of the earlier rows and the rows written since. */
  lemma {:induction false} HistoryIsWritten(r: Reader, st: State, start: int, log: seq<Timed>)
    requires GoodHistory(st.history, start) && Ordered(start, log)
    ensures Run(r, st, log).history == LastRows(st.history + Written(r, st, log))
  {
    if log == [] {
      assert st.history + [] == st.history;
    } else {
      var init, last := log[..|log| - 1], log[|log| - 1];
      HistoryIsWritten(r, st, start, init);
      HistoryStaysGood(r, st, start, init);
      var q := Run(r, st, init);
      StepAppends(r, q, Latest(start, init), last);
      LastRowsAppend(st.history + Written(r, st, init), WrittenBy(r, q, last));
      Reassociates(st.history, Written(r, st, init), WrittenBy(r, q, last));
    }
  }

  /** The lists the rows hold, failures left out. */
  function RowDeltas(rows: seq<Entry>): seq<Delta> {
    if rows == [] then []
    else
      var row := rows[|rows| - 1];
      RowDeltas(rows[..|rows| - 1])
      + (if row.kind.Changed? then [Delta(Elements(row.added), Elements(row.removed), Elements(row.changed))] else [])
  }

  /** The row is no first index and its lists are complete. */
  predicate TellsAll(row: Entry) {
    && !row.kind.Initial?
    && row.addedCount <= LIST_CAP && row.removedCount <= LIST_CAP && row.changedCount <= LIST_CAP
  }

  lemma RowDeltasAppend(rows: seq<Entry>, more: seq<Entry>)
    requires |more| <= 1
    ensures RowDeltas(rows + more) == RowDeltas(rows) + RowDeltas(more)
  {
    if more == [] {
      assert rows + more == rows;
    } else {
      assert (rows + more)[..|rows|] == rows && more[..0] == [];
    }
  }

  /** A complete row holds the lists computed for its event. */
  lemma CompleteRow(r: Reader, st: State, e: Timed)
    requires Records(r, st, e) && TellsAll(Recorded(r, st, e))
    ensures !FirstIndex(st)
    ensures RowDeltas([Recorded(r, st, e)]) == [ListedDelta(st, r.ops(Reindexed(r, st, e).value))]
  {
    assert [Recorded(r, st, e)][..0] == [];
  }

  /** The rows one event writes hold the lists computed for it. */
  lemma WrittenByTells(r: Reader, st: State, e: Timed)
    requires forall row :: row in WrittenBy(r, st, e) ==> TellsAll(row)
    ensures RowDeltas(WrittenBy(r, st, e)) ==
      if Records(r, st, e) then [ListedDelta(st, r.ops(Reindexed(r, st, e).value))] else []
    ensures Reindexed(r, st, e).Some? ==> !FirstIndex(st)
  {
    var written := WrittenBy(r, st, e);
    if Records(r, st, e) {
      assert Recorded(r, st, e) in written;
      CompleteRow(r, st, e);
    } else if written != [] {
      assert written[..0] == [];
    }
  }

  lemma {:induction false} WrittenRowsTell(r: Reader, st: State, log: seq<Timed>)
    requires forall row :: row in Written(r, st, log) ==> TellsAll(row)
    ensures NoFirstIndex(r, st, log) && RowDeltas(Written(r, st, log)) == Deltas(r, st, log)
  {
    if log != [] {
      var init, last := log[..|log| - 1], log[|log| - 1];
      var q := Run(r, st, init);
      WrittenRowsTell(r, st, init);
      WrittenByTells(r, q, last);
      RowDeltasAppend(Written(r, st, init), WrittenBy(r, q, last));
    }
  }

  /**
   * The stored history replays: as long as the run wrote at most 50 rows, none of them a first index
   * and none with a list cut at 200, the lists in the newest rows of the history are exactly the
   * differences the events made, turn the earlier operation keys into the later ones, and do not
   * mention an operation only if it keeps its fingerprint.
   */
  lemma StoredHistoryReplays(r: Reader, st: State, start: int, log: seq<Timed>)
    requires Dependable(r) && Fingerprinted(st) && GoodHistory(st.history, start) && Ordered(start, log)
    requires |Written(r, st, log)| <= HISTORY_KEEP && forall row :: row in Written(r, st, log) ==> TellsAll(row)
    ensures |Written(r, st, log)| <= |Run(r, st, log).history|
    ensures var h, n := Run(r, st, log).history, |Written(r, st, log)|;
      var lists := RowDeltas(h[|h| - n..]);
      && lists == Differences(r, st, log)
      && Leads(Fingerprints(st.ops), lists, Fingerprints(Run(r, st, log).ops))
  {
    HistoryIsWritten(r, st, start, log);
    WrittenRowsTell(r, st, log);
    DifferencesReplay(r, st, start, log);
    NewestAreWritten(st.history, Written(r, st, log));
  }

  lemma NewestAreWritten(h: seq<Entry>, rows: seq<Entry>)
    requires |rows| <= HISTORY_KEEP
    ensures var kept := LastRows(h + rows); |rows| <= |kept| && kept[|kept| - |rows|..] == rows
  {}

  // ---- A first index can be recorded again ----

  /** Consecutive refreshes that fail with these messages. */
  ghost function Failures(now: int, messages: seq<string>): seq<Timed> {
    seq(|messages|, i requires 0 <= i < |messages| => At(now, FetchFailed(messages[i])))
  }

  /** No message comes twice in a row. */
  ghost predicate Varied(messages: seq<string>) {
    forall i, j :: 0 <= i < |messages| && j == i + 1 < |messages| ==> messages[i] != messages[j]
  }

  function FailureRows(now: int, messages: seq<string>): (rows: seq<Entry>)
    ensures |rows| == |messages| && forall i :: 0 <= i < |rows| ==> rows[i].kind.FailedRefresh?
  {
    seq(|messages|, i requires 0 <= i < |messages| => Failure(now, messages[i]))
  }

  lemma LastRowsOfLastRows(h: seq<Entry>, e: Entry)
    ensures LastRows(LastRows(h) + [e]) == LastRows(h + [e])
    ensures h != [] ==> LastRows(h) != [] && LastRows(h)[|LastRows(h)| - 1] == h[|h| - 1]
  {}

  /** A run that ends in one more failure, the failures so far being in rows. */
  lemma OneFailure(r: Reader, st: State, log: seq<Timed>, rows: seq<Entry>, now: int, message: string)
    requires log != [] && log[|log| - 1] == At(now, FetchFailed(message))
    requires Run(r, st, log[..|log| - 1]) == st.(history := LastRows(rows)) && GoodHistory(LastRows(rows), now)
    requires rows != [] ==> !SameFailure(rows[|rows| - 1], Failure(now, message))
    ensures var st' := Run(r, st, log);
      st' == st.(history := LastRows(rows + [Failure(now, message)])) && GoodHistory(st'.history, now)
  {
    var h := LastRows(rows);
    if h != [] {
      NewestOfInOrder(h, |h|);
    }
    LastRowsOfLastRows(rows, Failure(now, message));
    InsertIsGood(h, Failure(now, message), now);
  }

  lemma FailureRowsSnoc(h: seq<Entry>, now: int, messages: seq<string>)
    requires messages != []
    ensures var init, last := messages[..|messages| - 1], messages[|messages| - 1];
      && h + FailureRows(now, messages) == (h + FailureRows(now, init)) + [Failure(now, last)]
      && Failures(now, messages)[..|messages| - 1] == Failures(now, init)
      && Failures(now, messages)[|messages| - 1] == At(now, FetchFailed(last))
      && var all := h + FailureRows(now, init);
        (all != [] ==> all[|all| - 1] == if init != [] then Failure(now, init[|init| - 1]) else h[|h| - 1])
  {}

  lemma VariedSnoc(messages: seq<string>)
    requires Varied(messages) && messages != []
    ensures var init, last := messages[..|messages| - 1], messages[|messages| - 1];
      Varied(init) && (init != [] ==> init[|init| - 1] != last)
  {}

  lemma {:induction false} FailuresFill(r: Reader, st: State, now: int, messages: seq<string>)
    requires GoodHistory(st.history, now)
    requires Varied(messages)
    requires messages != [] && st.history != [] ==>
      !SameFailure(st.history[|st.history| - 1], Failure(now, messages[0]))
    ensures var st' := Run(r, st, Failures(now, messages));
      st' == st.(history := LastRows(st.history + FailureRows(now, messages))) && GoodHistory(st'.history, now)
    decreases |messages|
  {
    if messages == [] {
      assert st.history + FailureRows(now, messages) == st.history;
    } else {
      var init, last := messages[..|messages| - 1], messages[|messages| - 1];
      VariedSnoc(messages);
      FailuresFill(r, st, now, init);
      FailureRowsSnoc(st.history, now, messages);
      OneFailure(r, st, Failures(now, messages), st.history + FailureRows(now, init), now, last);
    }
  }

  /**
   * After 50 refreshes that fail with changing messages, no entry but failures is left, and the
   * next different spec is recorded as a first index although the old one is still stored.
   */
  lemma FirstIndexRecurs(r: Reader, st: State, now: int, messages: seq<string>, spec: string)
    requires Dependable(r) && GoodHistory(st.history, now) && |messages| >= HISTORY_KEEP
    requires Varied(messages)
    requires st.history != [] ==> !SameFailure(st.history[|st.history| - 1], Failure(now, messages[0]))
    requires r.hash(spec) != st.specHash
    ensures var q := Run(r, st, Failures(now, messages));
      && OnlyFailures(q.history) && q.specHash == st.specHash && q.ops == st.ops
      && var h := Index(r, q, now, spec).history; h != [] && h[|h| - 1].kind == Initial
  {
    FailuresFill(r, st, now, messages);
    var q := Run(r, st, Failures(now, messages));
    FailuresPushOut(st.history, now, messages);
    NextIsFirstIndex(r, q, now, spec);
  }

  lemma FailuresPushOut(h: seq<Entry>, now: int, messages: seq<string>)
    requires |messages| >= HISTORY_KEEP
    ensures OnlyFailures(LastRows(h + FailureRows(now, messages)))
  {
    var all := h + FailureRows(now, messages);
    assert forall i :: |h| <= i < |all| ==> all[i].kind.FailedRefresh?;
    var first := if |all| <= HISTORY_KEEP then 0 else |all| - HISTORY_KEEP;
    var kept := LastRows(all);
    forall i | 0 <= i < |kept| ensures kept[i].kind.FailedRefresh? {
      assert kept[i] == all[first + i];
    }
  }

  lemma NextIsFirstIndex(r: Reader, q: State, now: int, spec: string)
    requires GoodHistory(q.history, now) && OnlyFailures(q.history) && r.hash(spec) != q.specHash
    ensures var h := Index(r, q, now, spec).history; h != [] && h[|h| - 1].kind == Initial
  {
    assert !SomeIndexed(q.history);
    InsertIsGood(q.history, NewEntry(q, now, r.hash(spec), r.version(spec), r.ops(spec)), now);
  }
}
