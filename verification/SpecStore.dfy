/**
 * The index and history of one API as the portal updates them, row by row
 * (backend/internal/store/catalog.go and apis.go, backend/internal/openapi/service.go).
 * Each method is proved against its step in SpecIndex.
 */
module SpecStore {
  import opened Strings
  import opened Ordering
  import opened SpecIndex
  import SpecHistory

  class SpecStore {
    const reader: Reader
    var cache: Option<string>
    var specHash: string
    var version: string
    var count: Option<nat>
    var ops: seq<Operation>
    var history: seq<Entry>

    function View(): State
      reads this
    {
      State(cache, specHash, version, count, ops, history)
    }

    constructor (reader: Reader, st: State)
      ensures View() == st && this.reader == reader
    {
      this.reader := reader;
      cache, specHash, version, count, ops, history := st.cache, st.specHash, st.version, st.count, st.ops, st.history;
    }

    method StoredFingerprints() returns (known: map<string, string>)
      ensures known == Fingerprints(ops)
    {
      known := map[];
      for i := 0 to |ops|
        invariant known == Fingerprints(ops[..i])
      {
        assert ops[..i + 1][..i] == ops[..i];
        known := known[Key(ops[i]) := ops[i].fingerprint];
      }
      assert ops[..|ops|] == ops;
    }

    /** Compares the new operations with the stored fingerprints, and the other way round. */
    static method Differences(known: map<string, string>, next: seq<Operation>)
      returns (added: seq<string>, removed: seq<string>, changed: seq<string>)
      ensures added == AddedKeys(known, next)
      ensures removed == RemovedKeys(known, next)
      ensures changed == ChangedKeys(known, next)
    {
      added, changed := [], [];
      var seen: set<string> := {};
      for i := 0 to |next|
        invariant added == AddedKeys(known, next[..i]) && changed == ChangedKeys(known, next[..i])
        invariant seen == Fingerprints(next[..i]).Keys
      {
        assert next[..i + 1][..i] == next[..i];
        var key := Key(next[i]);
        seen := seen + {key};
        if key !in known {
          added := added + [key];
        } else if known[key] != "" && known[key] != next[i].fingerprint {
          changed := changed + [key];
        }
      }
      assert next[..|next|] == next;
      removed := Unseen(known, seen);
    }

    /** The known keys that were not seen, sorted; Go walks the map in no particular order. */
    static method Unseen(known: map<string, string>, seen: set<string>) returns (removed: seq<string>)
      ensures removed == Listed(known.Keys - seen)
    {
      removed := [];
      var todo := known.Keys;
      while todo != {}
        invariant todo <= known.Keys && NoRepeats(removed)
        invariant Elements(removed) == known.Keys - todo - seen
        decreases todo
      {
        ghost var some := Strings.Element(todo);
        var key :| key in todo;
        if key !in seen {
          ElementsPlus(removed, key);
          SpecHistory.NoRepeatsPlus(removed, key);
          removed := removed + [key];
        }
        todo := todo - {key};
      }
      assert Elements(removed) == known.Keys - seen;
      DistinctStringsSort(removed);
      LessIsStrict();
      AscendingIsUnique(Less, Sort(Less, removed), Listed(known.Keys - seen));
      removed := Sort(Less, removed);
    }

    /** Adds the row, then deletes all but the newest 50. */
    method InsertEntry(e: Entry)
      modifies this`history
      ensures history == InsertHistory(old(history), e)
    {
      var rows := history + [e];
      var kept: seq<Entry> := [];
      for i := 0 to |rows|
        invariant kept + KeptFrom(rows, i) == KeptFrom(rows, 0)
      {
        if Rank(rows, i) < HISTORY_KEEP {
          kept := kept + [rows[i]];
        }
      }
      history := kept;
    }

    method ReplaceOperations(version: string, next: seq<Operation>)
      modifies this`ops, this`version, this`count
      ensures ops == next && this.version == version && count == Some(|next|)
    {
      ops := [];
      for i := 0 to |next|
        invariant ops == next[..i]
      {
        ops := ops + [next[i]];
      }
      this.version := version;
      count := Some(|next|);
    }

    method ApplySpecIndex(now: int, hash: string, version: string, next: seq<Operation>)
      modifies this
      ensures View() == SpecIndex.ApplySpecIndex(old(View()), now, hash, version, next)
    {
      if specHash == hash && count.Some? {
        return;
      }
      var known := StoredFingerprints();
      var previous := |set i: nat | i < |history| && !history[i].kind.FailedRefresh?|;
      CountsIndexed(history);
      var first := previous == 0 || specHash == "";
      var added, removed, changed := Differences(known, next);
      ReplaceOperations(version, next);
      specHash := hash;
      if !first && |added| + |removed| + |changed| == 0 {
        return;
      }
      if first {
        added, removed, changed := [], [], [];
      }
      InsertEntry(Entry(now, if first then Initial else Changed, hash, version, |next|,
                        |added|, |removed|, |changed|, Cap(added), Cap(removed), Cap(changed), ""));
    }

    method MarkFailure(now: int, message: string)
      modifies this`history
      ensures history == RecordFailure(old(history), now, message)
    {
      if |history| > 0 {
        var newest := 0;
        for i := 1 to |history|
          invariant newest == NewestOf(history, i) && history == old(history)
        {
          if Later(history, i, newest) {
            newest := i;
          }
        }
        if history[newest].kind.FailedRefresh? && history[newest].error == message {
          return;
        }
      }
      InsertEntry(Failure(now, message));
    }

    /** Caches a fetched spec, then indexes it in a transaction of its own; a failed fetch touches neither. */
    method Refresh(now: int, fetched: Option<string>, message: string, indexed: bool)
      modifies this
      ensures View()
        == Step(reader, old(View()),
          At(now, if fetched.Some? then Fetched(fetched.value, indexed) else FetchFailed(message)))
    {
      if fetched.None? {
        MarkFailure(now, message);
        return;
      }
      cache := fetched;
      if indexed {
        ApplySpecIndex(now, reader.hash(fetched.value), reader.version(fetched.value), reader.ops(fetched.value));
      }
    }

    /** At start-up: indexes a cached spec that never was. */
    method IndexMissing(now: int)
      modifies this
      ensures View() == Step(reader, old(View()), At(now, Backfill))
    {
      if count.None? && cache.Some? && |cache.value| > 0 {
        ApplySpecIndex(now, reader.hash(cache.value), reader.version(cache.value), reader.ops(cache.value));
      }
    }
  }

  lemma CountsIndexed(h: seq<Entry>)
    ensures |set i: nat | i < |h| && !h[i].kind.FailedRefresh?| == 0 <==> !SomeIndexed(h)
  {
    var indexed := set i: nat | i < |h| && !h[i].kind.FailedRefresh?;
    if i :| 0 <= i < |h| && !h[i].kind.FailedRefresh? {
      assert i in indexed;
    }
    if |indexed| > 0 {
      ghost var i := Strings.Element(indexed);
      assert !h[i].kind.FailedRefresh?;
    }
  }
}
