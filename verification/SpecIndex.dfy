/**
 * The operation index of an API and the history of its specs
 * (backend/internal/store/catalog.go and apis.go, backend/internal/openapi/service.go and operations.go).
 */
module SpecIndex {
  import opened Strings
  import opened Ordering

  const HISTORY_KEEP: nat := 50
  const LIST_CAP: nat := 200

  /** details stands for the columns that are stored and never compared. */
  datatype Operation = Operation(verb: string, path: string, fingerprint: string, details: string)

  function Key(op: Operation): string {
    op.verb + " " + op.path
  }

  datatype Kind = Initial | Changed | FailedRefresh

  datatype Entry = Entry(at: int, kind: Kind, hash: string, version: string, operationCount: nat,
                         addedCount: nat, removedCount: nat, changedCount: nat,
                         added: seq<string>, removed: seq<string>, changed: seq<string>, error: string)

  /** One API: its cached spec, its row and operations, and its history rows in id order. */
  datatype State = State(cache: Option<string>, specHash: string, version: string, count: Option<nat>,
                         ops: seq<Operation>, history: seq<Entry>)

  /** What is read off a spec in its canonical JSON form. */
  datatype Reader = Reader(hash: string -> string, version: string -> string, ops: string -> seq<Operation>)

  ghost predicate DistinctKeys(ops: seq<Operation>) {
    forall i, j :: 0 <= i < j < |ops| ==> Key(ops[i]) != Key(ops[j])
  }

  /** SHA-256 is taken to be injective; a fingerprint is never empty. */
  ghost predicate Dependable(r: Reader) {
    && (forall a, b :: r.hash(a) == r.hash(b) ==> a == b)
    && (forall s :: r.hash(s) != "")
    && (forall s :: DistinctKeys(r.ops(s)))
    && (forall s, i :: 0 <= i < |r.ops(s)| ==> r.ops(s)[i].fingerprint != "")
  }

  // ---- Differences ----

  /** The fingerprint stored under each key. */
  function Fingerprints(ops: seq<Operation>): map<string, string> {
    if ops == [] then map[]
    else Fingerprints(ops[..|ops| - 1])[Key(ops[|ops| - 1]) := ops[|ops| - 1].fingerprint]
  }

  function AddedKeys(before: map<string, string>, ops: seq<Operation>): seq<string> {
    if ops == [] then []
    else
      var op := ops[|ops| - 1];
      AddedKeys(before, ops[..|ops| - 1]) + (if Key(op) !in before then [Key(op)] else [])
  }

  function ChangedKeys(before: map<string, string>, ops: seq<Operation>): seq<string> {
    if ops == [] then []
    else
      var op := ops[|ops| - 1];
      ChangedKeys(before, ops[..|ops| - 1])
      + (if Key(op) in before && before[Key(op)] != "" && before[Key(op)] != op.fingerprint then [Key(op)] else [])
  }

  ghost function RemovedKeys(before: map<string, string>, ops: seq<Operation>): seq<string> {
    Listed(before.Keys - Fingerprints(ops).Keys)
  }

  function Cap(values: seq<string>): seq<string> {
    if |values| > LIST_CAP then values[..LIST_CAP] else values
  }

  // ---- History ----

  predicate Later(h: seq<Entry>, i: nat, j: nat)
    requires i < |h| && j < |h|
  {
    h[i].at > h[j].at || (h[i].at == h[j].at && i > j)
  }

  /** How many rows come before row i when the newest comes first. */
  function Rank(h: seq<Entry>, i: nat): nat
    requires i < |h|
  {
    |set j: nat | j < |h| && Later(h, j, i)|
  }

  /** The rows among the newest 50, from row i on. */
  function KeptFrom(h: seq<Entry>, i: nat): seq<Entry>
    requires i <= |h|
    decreases |h| - i
  {
    if i == |h| then [] else (if Rank(h, i) < HISTORY_KEEP then [h[i]] else []) + KeptFrom(h, i + 1)
  }

  function InsertHistory(h: seq<Entry>, e: Entry): seq<Entry> {
    KeptFrom(h + [e], 0)
  }

  predicate SomeIndexed(h: seq<Entry>) {
    exists i :: 0 <= i < |h| && !h[i].kind.FailedRefresh?
  }

  /** The newest row. */
  function Newest(h: seq<Entry>): nat
    requires h != []
    ensures Newest(h) < |h|
  {
    NewestOf(h, |h|)
  }

  function NewestOf(h: seq<Entry>, n: nat): (r: nat)
    requires 0 < n <= |h|
    ensures r < n
  {
    if n == 1 then 0
    else
      var r := NewestOf(h, n - 1);
      if Later(h, n - 1, r) then n - 1 else r
  }

  function Failure(now: int, message: string): Entry {
    Entry(now, FailedRefresh, "", "", 0, 0, 0, 0, [], [], [], message)
  }

  /** A failed refresh, unless the newest row is the same failure. */
  function RecordFailure(h: seq<Entry>, now: int, message: string): seq<Entry> {
    if h != [] && h[Newest(h)].kind.FailedRefresh? && h[Newest(h)].error == message then h
    else InsertHistory(h, Failure(now, message))
  }

  // ---- Indexing ----

  predicate FirstIndex(st: State) {
    !SomeIndexed(st.history) || st.specHash == ""
  }

  ghost function NewEntry(st: State, now: int, hash: string, version: string, ops: seq<Operation>): Entry {
    if FirstIndex(st) then Entry(now, Initial, hash, version, |ops|, 0, 0, 0, [], [], [], "")
    else
      var before := Fingerprints(st.ops);
      var added, removed, changed := AddedKeys(before, ops), RemovedKeys(before, ops), ChangedKeys(before, ops);
      Entry(now, Changed, hash, version, |ops|, |added|, |removed|, |changed|,
            Cap(added), Cap(removed), Cap(changed), "")
  }

  ghost predicate NothingToTell(st: State, ops: seq<Operation>) {
    var before := Fingerprints(st.ops);
    !FirstIndex(st) && AddedKeys(before, ops) == [] && RemovedKeys(before, ops) == [] && ChangedKeys(before, ops) == []
  }

  /** Replaces the operations and records what changed. */
  ghost function Replace(st: State, now: int, hash: string, version: string, ops: seq<Operation>): State {
    st.(specHash := hash, version := version, count := Some(|ops|), ops := ops,
        history := if NothingToTell(st, ops) then st.history
          else InsertHistory(st.history, NewEntry(st, now, hash, version, ops)))
  }

  /** An unchanged spec changes nothing. */
  ghost function ApplySpecIndex(st: State, now: int, hash: string, version: string, ops: seq<Operation>): State {
    if st.specHash == hash && st.count.Some? then st else Replace(st, now, hash, version, ops)
  }

  /** A refresh that fetched a spec (its index transaction may fail), one that did not, and the start-up backfill. */
  datatype Event = Fetched(spec: string, indexed: bool) | FetchFailed(message: string) | Backfill

  datatype Timed = At(now: int, event: Event)

  ghost function Index(r: Reader, st: State, now: int, spec: string): State {
    ApplySpecIndex(st, now, r.hash(spec), r.version(spec), r.ops(spec))
  }

  ghost function Step(r: Reader, st: State, e: Timed): State {
    match e.event
    case Fetched(spec, indexed) =>
      var cached := st.(cache := Some(spec));
      if indexed then Index(r, cached, e.now, spec) else cached
    case FetchFailed(message) => st.(history := RecordFailure(st.history, e.now, message))
    case Backfill =>
      if st.count.None? && st.cache.Some? && st.cache.value != "" then Index(r, st, e.now, st.cache.value) else st
  }

  ghost function Run(r: Reader, st: State, log: seq<Timed>): State {
    if log == [] then st else Step(r, Run(r, st, log[..|log| - 1]), log[|log| - 1])
  }
}
