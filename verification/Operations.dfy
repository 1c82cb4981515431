/** Reading the operations off a spec (backend/internal/openapi/operations.go). */
module Operations {
  import opened Strings
  import opened Ordering
  import opened SpecIndex

  /** The members of each path item, as raw JSON by name. */
  type Paths = map<string, map<string, string>>

  /** A declared version is text, a number in its decimal form, or nothing usable. */
  datatype Version = Text(text: string) | Number(decimal: string) | NoVersion

  datatype Document = Malformed | Document(version: Version, paths: Paths)

  const VERSION_LIMIT: nat := 64

  const VERBS := ["get", "put", "post", "delete", "options", "head", "patch", "trace"]

  function UpperChar(c: char): char {
    if 'a' <= c <= 'z' then (c as int - 32) as char else c
  }

  function Upper(s: string): string {
    seq(|s|, i requires 0 <= i < |s| => UpperChar(s[i]))
  }

  function VersionText(v: Version): string {
    match v
    case Text(text) => text
    case Number(decimal) => decimal
    case NoVersion => ""
  }

  /** The text, or its first n - 1 characters and an ellipsis. */
  function Limit(s: string, n: nat): (r: string)
    requires n > 0
    ensures Shortened(s, n, r)
  {
    if |s| <= n then s else s[..n - 1] + ['\U{2026}']
  }

  /** r is s when that is short enough, and else n characters: those of s but for a last ellipsis. */
  predicate Shortened(s: string, n: nat, r: string)
    requires n > 0
  {
    if |s| <= n then r == s
    else |r| == n && r[n - 1] == '\U{2026}' && forall i :: 0 <= i < n - 1 ==> r[i] == s[i]
  }

  /** parse reads the described fields of an operation, None when malformed; digest is the shortened SHA-256. */
  datatype Extractor = Extractor(parse: string -> Option<string>, digest: string -> string)

  function Parameters(item: map<string, string>): string {
    if "parameters" in item then item["parameters"] else ""
  }

  /** The fingerprint covers the path, its shared parameters and the operation. */
  function OperationOf(x: Extractor, path: string, item: map<string, string>, verb: string): Option<Operation> {
    if verb !in item || x.parse(item[verb]).None? then None
    else Some(Operation(Upper(verb), path, x.digest(path + "\0" + Parameters(item) + item[verb]),
      x.parse(item[verb]).value))
  }

  ghost function AllOperations(x: Extractor, paths: Paths): set<Operation> {
    set path, verb | path in paths && verb in VERBS && OperationOf(x, path, paths[path], verb).Some?
      :: OperationOf(x, path, paths[path], verb).value
  }

  predicate OpLess(a: Operation, b: Operation) {
    Less(a.path, b.path) || (a.path == b.path && Less(a.verb, b.verb))
  }

  /** What extraction returns: the operations of the document, by path and then verb. */
  ghost predicate Extracted(x: Extractor, paths: Paths, ops: seq<Operation>) {
    Ascending(OpLess, ops) && Elements(ops) == AllOperations(x, paths)
  }

  lemma OpLessIsStrict()
    ensures Strict(OpLess)
  {
    forall a: string {
      LessIrreflexive(a);
    }
    forall a: Operation, b: Operation, c: Operation | OpLess(a, b) && OpLess(b, c) ensures OpLess(a, c) {
      if Less(a.path, b.path) && Less(b.path, c.path) {
        LessTransitive(a.path, b.path, c.path);
      } else if Less(a.verb, b.verb) && Less(b.verb, c.verb) {
        LessTransitive(a.verb, b.verb, c.verb);
      }
    }
  }

  predicate Letters(s: string) {
    forall i :: 0 <= i < |s| ==> 'a' <= s[i] <= 'z'
  }

  lemma VerbsAreLetters(verb: string)
    requires verb in VERBS
    ensures Letters(verb)
  {
    var k :| 0 <= k < |VERBS| && VERBS[k] == verb;
    assert k in {0, 1, 2, 3, 4, 5, 6, 7};
  }

  lemma UpperDistinguishes(a: string, b: string)
    requires Letters(a) && Letters(b) && Upper(a) == Upper(b)
    ensures a == b
  {
    assert |Upper(a)| == |a| && |Upper(b)| == |b|;
    forall i | 0 <= i < |a| ensures a[i] == b[i] {
      assert Upper(a)[i] == UpperChar(a[i]) && Upper(b)[i] == UpperChar(b[i]);
    }
  }

  lemma VerbsDiffer()
    ensures forall i, j :: 0 <= i < j < |VERBS| ==> VERBS[i] != VERBS[j]
  {
    assert |VERBS| == 8;
    assert VERBS[0][0] == 'g' && VERBS[1][1] == 'u' && VERBS[2][1] == 'o' && VERBS[3][0] == 'd';
    assert VERBS[4][0] == 'o' && VERBS[5][0] == 'h' && VERBS[6][1] == 'a' && VERBS[7][0] == 't';
    assert VERBS[1][0] == VERBS[2][0] == VERBS[6][0] == 'p';
  }

  /** No two operations share path and verb. */
  ghost predicate Separate(ops: seq<Operation>) {
    forall i, j :: 0 <= i < j < |ops| ==> ops[i].path != ops[j].path || ops[i].verb != ops[j].verb
  }

  /** Where the operations of the items done so far came from. */
  ghost predicate FromItems(x: Extractor, paths: Paths, ops: seq<Operation>, done: set<string>, path: string,
                            verbs: nat)
    requires done <= paths.Keys && path in paths && verbs <= |VERBS|
  {
    forall op :: op in Elements(ops) <==>
      || (exists p, verb :: p in done && verb in VERBS && OperationOf(x, p, paths[p], verb) == Some(op))
      || (exists k :: 0 <= k < verbs && OperationOf(x, path, paths[path], VERBS[k]) == Some(op))
  }

  /** The declared version, at most 64 characters of it, and the operations; nothing of a malformed document. */
  method ExtractOperations(x: Extractor, doc: Document) returns (version: string, ops: seq<Operation>)
    ensures doc.Malformed? ==> version == "" && ops == []
    ensures doc.Document? ==>
      Extracted(x, doc.paths, ops) && Shortened(VersionText(doc.version), VERSION_LIMIT, version)
  {
    if doc.Malformed? {
      return "", [];
    }
    ops := ListOperations(x, doc.paths);
    version := Limit(VersionText(doc.version), VERSION_LIMIT);
  }

  method ListOperations(x: Extractor, paths: Paths) returns (ops: seq<Operation>)
    ensures Extracted(x, paths, ops)
  {
    ops := [];
    var todo := paths.Keys;
    while todo != {}
      invariant todo <= paths.Keys && Separate(ops)
      invariant forall op :: op in Elements(ops) <==>
        exists p, verb :: p in paths.Keys - todo && verb in VERBS && OperationOf(x, p, paths[p], verb) == Some(op)
      decreases todo
    {
      ghost var some := Strings.Element(todo);
      var path :| path in todo;
      ghost var done := paths.Keys - todo;
      for k := 0 to |VERBS|
        invariant Separate(ops) && FromItems(x, paths, ops, done, path, k)
      {
        var op := OperationOf(x, path, paths[path], VERBS[k]);
        if op.Some? {
          NewOperation(x, paths, ops, done, path, k);
          ElementsPlus(ops, op.value);
          ops := ops + [op.value];
        }
      }
      todo := todo - {path};
      ItemDone(x, paths, ops, done, path);
      assert paths.Keys - todo == done + {path};
    }
    OpLessIsStrict();
    forall i, j | 0 <= i < j < |ops| ensures OpLess(ops[i], ops[j]) || OpLess(ops[j], ops[i]) {
      LessTotal(ops[i].path, ops[j].path);
      LessTotal(ops[i].verb, ops[j].verb);
    }
    SortSorts(OpLess, ops);
    forall op ensures op in Elements(ops) <==> op in AllOperations(x, paths) {}
    ops := Sort(OpLess, ops);
  }

  lemma NewOperation(x: Extractor, paths: Paths, ops: seq<Operation>, done: set<string>, path: string, k: nat)
    requires done <= paths.Keys && path in paths && path !in done && k < |VERBS|
    requires Separate(ops) && FromItems(x, paths, ops, done, path, k)
    requires OperationOf(x, path, paths[path], VERBS[k]).Some?
    ensures var op := OperationOf(x, path, paths[path], VERBS[k]).value;
      Separate(ops + [op]) && FromItems(x, paths, ops + [op], done, path, k + 1)
  {
    var op := OperationOf(x, path, paths[path], VERBS[k]).value;
    ElementsPlus(ops, op);
    forall i | 0 <= i < |ops| ensures ops[i].path != op.path || ops[i].verb != op.verb {
      assert ops[i] in Elements(ops);
      if j :| 0 <= j < k && OperationOf(x, path, paths[path], VERBS[j]) == Some(ops[i]) {
        VerbsDiffer();
        VerbsAreLetters(VERBS[j]);
        VerbsAreLetters(VERBS[k]);
        assert VERBS[j] != VERBS[k];
        if Upper(VERBS[j]) == Upper(VERBS[k]) {
          UpperDistinguishes(VERBS[j], VERBS[k]);
        }
      }
    }
  }

  lemma ItemDone(x: Extractor, paths: Paths, ops: seq<Operation>, done: set<string>, path: string)
    requires done <= paths.Keys && path in paths && FromItems(x, paths, ops, done, path, |VERBS|)
    ensures forall op :: op in Elements(ops) <==>
      exists p, verb :: p in done + {path} && verb in VERBS && OperationOf(x, p, paths[p], verb) == Some(op)
  {
    forall op ensures op in Elements(ops) <==>
      exists p, verb :: p in done + {path} && verb in VERBS && OperationOf(x, p, paths[p], verb) == Some(op)
    {
      if k :| 0 <= k < |VERBS| && OperationOf(x, path, paths[path], VERBS[k]) == Some(op) {
        assert VERBS[k] in VERBS;
      }
      if verb :| verb in VERBS && OperationOf(x, path, paths[path], verb) == Some(op) {
        var k :| 0 <= k < |VERBS| && VERBS[k] == verb;
      }
    }
  }

  /** The order in which Go walks the maps does not matter. */
  lemma ExtractionIsDetermined(x: Extractor, paths: Paths, a: seq<Operation>, b: seq<Operation>)
    requires Extracted(x, paths, a) && Extracted(x, paths, b)
    ensures a == b
  {
    OpLessIsStrict();
    AscendingIsUnique(OpLess, a, b);
  }

  /** Every operation has a key of its own and a fingerprint, as the index expects. */
  lemma ExtractionIsKeyed(x: Extractor, paths: Paths, ops: seq<Operation>)
    requires Extracted(x, paths, ops) && forall s :: x.digest(s) != ""
    ensures DistinctKeys(ops)
    ensures forall i :: 0 <= i < |ops| ==> ops[i].fingerprint != ""
  {
    forall i | 0 <= i < |ops| ensures ops[i].fingerprint != "" && ' ' !in ops[i].verb {
      assert ops[i] in Elements(ops);
      var path, verb :| path in paths && verb in VERBS && OperationOf(x, path, paths[path], verb) == Some(ops[i]);
      VerbsAreLetters(verb);
      NoSpaceInUpper(verb);
    }
    OpLessIsStrict();
    forall i, j | 0 <= i < j < |ops| ensures Key(ops[i]) != Key(ops[j]) {
      if Key(ops[i]) == Key(ops[j]) {
        KeysSplit(ops[i], ops[j]);
        assert OpLess(ops[i], ops[j]);
        LessIrreflexive(ops[i].path);
        LessIrreflexive(ops[i].verb);
        assert false;
      }
    }
  }

  lemma NoSpaceInUpper(verb: string)
    requires Letters(verb)
    ensures ' ' !in Upper(verb)
  {}

  lemma KeysSplit(a: Operation, b: Operation)
    requires ' ' !in a.verb && ' ' !in b.verb && Key(a) == Key(b)
    ensures a.verb == b.verb && a.path == b.path
  {
    SpaceSplits(a.verb, a.path, b.verb, b.path);
  }

  lemma {:induction false} SpaceSplits(v: string, p: string, w: string, q: string)
    requires ' ' !in v && ' ' !in w && v + " " + p == w + " " + q
    ensures v == w && p == q
  {
    var s, t := v + " " + p, w + " " + q;
    assert s[0] == if v == "" then ' ' else v[0];
    assert t[0] == if w == "" then ' ' else w[0];
    assert (v == "") == (w == "");
    if v == "" {
      assert s[1..] == p && t[1..] == q;
    } else {
      assert s[1..] == v[1..] + " " + p && t[1..] == w[1..] + " " + q;
      SpaceSplits(v[1..], p, w[1..], q);
    }
  }

  // ---- The reader an extractor makes ----

  lemma AllOperationsDiffer(x: Extractor, paths: Paths, a: Operation, b: Operation)
    requires a in AllOperations(x, paths) && b in AllOperations(x, paths) && a != b
    ensures OpLess(a, b) || OpLess(b, a)
  {
    var p, v :| p in paths && v in VERBS && OperationOf(x, p, paths[p], v) == Some(a);
    var q, w :| q in paths && w in VERBS && OperationOf(x, q, paths[q], w) == Some(b);
    VerbsAreLetters(v);
    VerbsAreLetters(w);
    if p == q && Upper(v) == Upper(w) {
      UpperDistinguishes(v, w);
    }
    LessTotal(a.path, b.path);
    LessTotal(a.verb, b.verb);
  }

  lemma ExtractionExists(x: Extractor, paths: Paths)
    ensures exists ops :: Extracted(x, paths, ops)
  {
    OpLessIsStrict();
    forall a, b | a in AllOperations(x, paths) && b in AllOperations(x, paths) && a != b
      ensures OpLess(a, b) || OpLess(b, a)
    {
      AllOperationsDiffer(x, paths, a, b);
    }
    ListExists(OpLess, AllOperations(x, paths));
    var ops :| Ascending(OpLess, ops) && Elements(ops) == AllOperations(x, paths);
    assert Extracted(x, paths, ops);
  }

  ghost function OperationList(x: Extractor, paths: Paths): (ops: seq<Operation>)
    ensures Extracted(x, paths, ops)
  {
    ExtractionExists(x, paths);
    var ops :| Extracted(x, paths, ops);
    ops
  }

  ghost function VersionRead(doc: Document): string {
    if doc.Malformed? then "" else Limit(VersionText(doc.version), VERSION_LIMIT)
  }

  ghost function OperationsRead(x: Extractor, doc: Document): seq<Operation> {
    if doc.Malformed? then [] else OperationList(x, doc.paths)
  }

  /** How a spec is hashed, parsed and read; parse and hash are json.Unmarshal and SHA-256. */
  ghost function ReaderOf(x: Extractor, hash: string -> string, parse: string -> Document): Reader {
    Reader(hash, spec => VersionRead(parse(spec)), spec => OperationsRead(x, parse(spec)))
  }

  /** The extraction is a reader the index can depend on, when hashes are injective and digests not empty. */
  lemma ReaderIsDependable(x: Extractor, hash: string -> string, parse: string -> Document)
    requires forall a, b :: hash(a) == hash(b) ==> a == b
    requires forall s :: hash(s) != "" && x.digest(s) != ""
    ensures Dependable(ReaderOf(x, hash, parse))
  {
    var r := ReaderOf(x, hash, parse);
    forall s: string
      ensures DistinctKeys(r.ops(s)) && forall i :: 0 <= i < |r.ops(s)| ==> r.ops(s)[i].fingerprint != ""
    {
      var doc := parse(s);
      if doc.Document? {
        ExtractionIsKeyed(x, doc.paths, OperationList(x, doc.paths));
      }
    }
  }

  /** Whatever ExtractOperations returns for a spec is what that reader reads. */
  lemma ExtractionIsRead(x: Extractor, hash: string -> string, parse: string -> Document, spec: string,
                         version: string, ops: seq<Operation>)
    requires parse(spec).Malformed? ==> version == "" && ops == []
    requires parse(spec).Document? ==>
      Extracted(x, parse(spec).paths, ops) && Shortened(VersionText(parse(spec).version), VERSION_LIMIT, version)
    ensures ReaderOf(x, hash, parse).version(spec) == version && ReaderOf(x, hash, parse).ops(spec) == ops
  {
    var doc := parse(spec);
    if doc.Document? {
      ExtractionIsDetermined(x, doc.paths, ops, OperationList(x, doc.paths));
      assert version == Limit(VersionText(doc.version), VERSION_LIMIT);
    }
  }
}
