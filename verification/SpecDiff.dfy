/**
 * What the recorded differences say about two documents
 * (backend/internal/openapi/operations.go, backend/internal/store/catalog.go).
 */
module SpecDiff {
  import opened Strings
  import opened Ordering
  import opened SpecIndex
  import opened SpecHistory
  import opened Operations

  /** The document has a readable operation there. */
  predicate HasOperation(x: Extractor, paths: Paths, path: string, verb: string) {
    path in paths && verb in paths[path] && x.parse(paths[path][verb]).Some?
  }

  /** What a client could notice of an operation: the shared parameters of its path, and its own text. */
  function Covered(paths: Paths, path: string, verb: string): string
    requires path in paths && verb in paths[path]
  {
    (if "parameters" in paths[path] then paths[path]["parameters"] else "") + paths[path][verb]
  }

  /** The operations are listed under these names. */
  lemma VerbNames()
    ensures VERBS == ["get", "put", "post", "delete", "options", "head", "patch", "trace"]
    ensures forall i :: 0 <= i < |VERBS| ==>
      Upper(VERBS[i]) == ["GET", "PUT", "POST", "DELETE", "OPTIONS", "HEAD", "PATCH", "TRACE"][i]
  {
    var names := ["GET", "PUT", "POST", "DELETE", "OPTIONS", "HEAD", "PATCH", "TRACE"];
    forall i | 0 <= i < |VERBS| ensures Upper(VERBS[i]) == names[i] {
      assert |Upper(VERBS[i])| == |names[i]|;
      assert forall k :: 0 <= k < |VERBS[i]| ==> UpperChar(VERBS[i][k]) == names[i][k];
    }
  }

  /** An extraction lists an operation exactly for the readable members, with what was read of each. */
  lemma ExtractedExactly(x: Extractor, paths: Paths, ops: seq<Operation>, path: string, verb: string)
    requires Extracted(x, paths, ops) && verb in VERBS
    ensures (exists op :: op in ops && op.path == path && op.verb == Upper(verb)) <==>
      HasOperation(x, paths, path, verb)
    ensures forall op :: op in ops && op.path == path && op.verb == Upper(verb) ==>
      && HasOperation(x, paths, path, verb)
      && op.details == x.parse(paths[path][verb]).value
      && op.fingerprint == x.digest(path + "\0" + Covered(paths, path, verb))
  {
    if HasOperation(x, paths, path, verb) {
      var op := OperationOf(x, path, paths[path], verb).value;
      assert op in AllOperations(x, paths);
      assert op in Elements(ops);
    }
    forall op | op in ops && op.path == path && op.verb == Upper(verb)
      ensures OperationOf(x, path, if path in paths then paths[path] else map[], verb) == Some(op)
    {
      assert op in Elements(ops);
      var p, v :| p in paths && v in VERBS && OperationOf(x, p, paths[p], v) == Some(op);
      VerbsAreLetters(v);
      VerbsAreLetters(verb);
      UpperDistinguishes(v, verb);
    }
    if path in paths && verb in paths[path] {
      var parameters := Parameters(paths[path]);
      assert path + "\0" + parameters + paths[path][verb] == path + "\0" + (parameters + paths[path][verb]);
    }
  }

  /** The list goes by path and, within a path, by verb, in the order of their bytes. */
  lemma ExtractedInOrder(x: Extractor, paths: Paths, ops: seq<Operation>, i: nat, j: nat)
    requires Extracted(x, paths, ops) && i < j < |ops|
    ensures Less(ops[i].path, ops[j].path) || (ops[i].path == ops[j].path && Less(ops[i].verb, ops[j].verb))
  {}

  ghost predicate Injective(digest: string -> string) {
    forall a, b :: digest(a) == digest(b) ==> a == b
  }

  /** Two fingerprints of one path and verb agree exactly when shared parameters and operation text do. */
  lemma FingerprintExact(x: Extractor, a: Paths, b: Paths, opsA: seq<Operation>, opsB: seq<Operation>,
                         path: string, verb: string, opA: Operation, opB: Operation)
    requires Injective(x.digest) && Extracted(x, a, opsA) && Extracted(x, b, opsB) && verb in VERBS
    requires opA in opsA && opB in opsB && opA.path == opB.path == path && opA.verb == opB.verb == Upper(verb)
    ensures HasOperation(x, a, path, verb) && HasOperation(x, b, path, verb)
    ensures opA.fingerprint == opB.fingerprint <==> Covered(a, path, verb) == Covered(b, path, verb)
  {
    ExtractedExactly(x, a, opsA, path, verb);
    ExtractedExactly(x, b, opsB, path, verb);
    var ca, cb := path + "\0" + Covered(a, path, verb), path + "\0" + Covered(b, path, verb);
    assert ca[|path| + 1..] == Covered(a, path, verb) && cb[|path| + 1..] == Covered(b, path, verb);
  }

  /** The key an operation is listed under is that of its path and verb alone. */
  lemma KeyOfOperation(x: Extractor, paths: Paths, ops: seq<Operation>, path: string, verb: string)
    requires Extracted(x, paths, ops) && verb in VERBS
    ensures Upper(verb) + " " + path in Fingerprints(ops) <==> HasOperation(x, paths, path, verb)
  {
    var key := Upper(verb) + " " + path;
    ExtractedExactly(x, paths, ops, path, verb);
    OwnKeys(ops);
    if key in Fingerprints(ops) {
      var i :| 0 <= i < |ops| && Key(ops[i]) == key;
      KeyTells(x, paths, ops, ops[i], path, verb);
      assert ops[i] in ops;
    }
    if op :| op in ops && op.path == path && op.verb == Upper(verb) {
      var i :| 0 <= i < |ops| && ops[i] == op;
      assert Key(ops[i]) == key;
    }
  }

  lemma KeyTells(x: Extractor, paths: Paths, ops: seq<Operation>, op: Operation, path: string, verb: string)
    requires Extracted(x, paths, ops) && op in ops && verb in VERBS && Key(op) == Upper(verb) + " " + path
    ensures op.path == path && op.verb == Upper(verb)
  {
    assert op in Elements(ops);
    var p, v :| p in paths && v in VERBS && OperationOf(x, p, paths[p], v) == Some(op);
    VerbsAreLetters(v);
    VerbsAreLetters(verb);
    NoSpaceInUpper(v);
    NoSpaceInUpper(verb);
    SpaceSplits(op.verb, op.path, Upper(verb), path);
  }

  lemma FingerprintOfKey(x: Extractor, paths: Paths, ops: seq<Operation>, path: string, verb: string)
      returns (op: Operation)
    requires Extracted(x, paths, ops) && verb in VERBS && (forall s :: x.digest(s) != "")
    requires HasOperation(x, paths, path, verb)
    ensures op in ops && op.path == path && op.verb == Upper(verb)
    ensures var key := Upper(verb) + " " + path; key in Fingerprints(ops) && Fingerprints(ops)[key] == op.fingerprint
  {
    ExtractedExactly(x, paths, ops, path, verb);
    op :| op in ops && op.path == path && op.verb == Upper(verb);
    ExtractionIsKeyed(x, paths, ops);
    OwnFingerprints(ops);
    var i :| 0 <= i < |ops| && ops[i] == op;
    assert Key(ops[i]) == Upper(verb) + " " + path;
  }

  /**
   * The three lists for two documents: a path and verb is added or removed exactly when only the later or
   * only the earlier document has a readable operation there, and changed exactly when both have one and the
   * shared parameters or the operation's text differ.
   */
  lemma ListsOfDocuments(x: Extractor, a: Paths, b: Paths, opsA: seq<Operation>, opsB: seq<Operation>,
                         path: string, verb: string)
    requires Injective(x.digest) && (forall s :: x.digest(s) != "") && verb in VERBS
    requires Extracted(x, a, opsA) && Extracted(x, b, opsB)
    ensures var before, key := Fingerprints(opsA), Upper(verb) + " " + path;
      var was, has := HasOperation(x, a, path, verb), HasOperation(x, b, path, verb);
      && (key in AddedKeys(before, opsB) <==> !was && has)
      && (key in RemovedKeys(before, opsB) <==> was && !has)
      && (key in ChangedKeys(before, opsB) <==> was && has && Covered(a, path, verb) != Covered(b, path, verb))
  {
    var before, key := Fingerprints(opsA), Upper(verb) + " " + path;
    ExtractionIsKeyed(x, b, opsB);
    KeyOfOperation(x, a, opsA, path, verb);
    KeyOfOperation(x, b, opsB, path, verb);
    AddedExact(before, opsB);
    ChangedExact(before, opsB);
    assert key in AddedKeys(before, opsB) <==> key in Elements(AddedKeys(before, opsB));
    assert key in RemovedKeys(before, opsB) <==> key in Elements(RemovedKeys(before, opsB));
    assert key in ChangedKeys(before, opsB) <==> key in Elements(ChangedKeys(before, opsB));
    if HasOperation(x, a, path, verb) && HasOperation(x, b, path, verb) {
      var opA := FingerprintOfKey(x, a, opsA, path, verb);
      var opB := FingerprintOfKey(x, b, opsB, path, verb);
      ExtractedExactly(x, a, opsA, path, verb);
      FingerprintExact(x, a, b, opsA, opsB, path, verb, opA, opB);
    }
  }

  /** Both documents have the same readable operations, each with the same text and shared parameters. */
  ghost predicate SameOperations(x: Extractor, a: Paths, b: Paths) {
    forall path, verb {:trigger HasOperation(x, a, path, verb)} {:trigger HasOperation(x, b, path, verb)} ::
      verb in VERBS ==>
        && (HasOperation(x, a, path, verb) <==> HasOperation(x, b, path, verb))
        && (HasOperation(x, a, path, verb) && HasOperation(x, b, path, verb) ==>
              Covered(a, path, verb) == Covered(b, path, verb))
  }

  /** Every key is that of some readable operation. */
  lemma KeyIsOfOperation(x: Extractor, paths: Paths, ops: seq<Operation>, key: string)
      returns (path: string, verb: string)
    requires Extracted(x, paths, ops) && key in Fingerprints(ops)
    ensures verb in VERBS && HasOperation(x, paths, path, verb) && key == Upper(verb) + " " + path
  {
    OwnKeys(ops);
    var i :| 0 <= i < |ops| && Key(ops[i]) == key;
    assert ops[i] in Elements(ops);
    path, verb :| path in paths && verb in VERBS && OperationOf(x, path, paths[path], verb) == Some(ops[i]);
  }

  lemma SameKeyAlike(x: Extractor, a: Paths, b: Paths, opsA: seq<Operation>, opsB: seq<Operation>, key: string)
    requires Injective(x.digest) && (forall s :: x.digest(s) != "")
    requires Extracted(x, a, opsA) && Extracted(x, b, opsB) && SameOperations(x, a, b) && key in Fingerprints(opsA)
    ensures key in Fingerprints(opsB) && Fingerprints(opsB)[key] == Fingerprints(opsA)[key]
  {
    var path, verb := KeyIsOfOperation(x, a, opsA, key);
    assert HasOperation(x, b, path, verb);
    var opA := FingerprintOfKey(x, a, opsA, path, verb);
    var opB := FingerprintOfKey(x, b, opsB, path, verb);
    FingerprintExact(x, a, b, opsA, opsB, path, verb, opA, opB);
  }

  lemma SameSwapped(x: Extractor, a: Paths, b: Paths)
    requires SameOperations(x, a, b)
    ensures SameOperations(x, b, a)
  {}

  /** The index sees no difference between two documents exactly when an API user would see none. */
  lemma NoDifferenceExact(x: Extractor, a: Paths, b: Paths, opsA: seq<Operation>, opsB: seq<Operation>)
    requires Injective(x.digest) && (forall s :: x.digest(s) != "")
    requires Extracted(x, a, opsA) && Extracted(x, b, opsB)
    ensures Fingerprints(opsA) == Fingerprints(opsB) <==> SameOperations(x, a, b)
  {
    if SameOperations(x, a, b) {
      SameSwapped(x, a, b);
      forall key | key in Fingerprints(opsA) {
        SameKeyAlike(x, a, b, opsA, opsB, key);
      }
      forall key | key in Fingerprints(opsB) {
        SameKeyAlike(x, b, a, opsB, opsA, key);
      }
    }
    if Fingerprints(opsA) == Fingerprints(opsB) {
      forall path, verb | verb in VERBS
        ensures HasOperation(x, a, path, verb) <==> HasOperation(x, b, path, verb)
        ensures HasOperation(x, a, path, verb) && HasOperation(x, b, path, verb) ==>
          Covered(a, path, verb) == Covered(b, path, verb)
      {
        SameHere(x, a, b, opsA, opsB, path, verb);
      }
    }
  }

  lemma SameHere(x: Extractor, a: Paths, b: Paths, opsA: seq<Operation>, opsB: seq<Operation>, path: string,
                 verb: string)
    requires Injective(x.digest) && (forall s :: x.digest(s) != "") && verb in VERBS
    requires Extracted(x, a, opsA) && Extracted(x, b, opsB) && Fingerprints(opsA) == Fingerprints(opsB)
    ensures HasOperation(x, a, path, verb) <==> HasOperation(x, b, path, verb)
    ensures HasOperation(x, a, path, verb) && HasOperation(x, b, path, verb) ==>
      Covered(a, path, verb) == Covered(b, path, verb)
  {
    KeyOfOperation(x, a, opsA, path, verb);
    KeyOfOperation(x, b, opsB, path, verb);
    if HasOperation(x, a, path, verb) {
      var opA := FingerprintOfKey(x, a, opsA, path, verb);
      var opB := FingerprintOfKey(x, b, opsB, path, verb);
      FingerprintExact(x, a, b, opsA, opsB, path, verb, opA, opB);
    }
  }
}
