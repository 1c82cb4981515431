/**
 * Counters and histograms keyed by rendered labels (backend/internal/metrics/metrics.go).
 * Values are reals: floating-point rounding is not modelled.
 */
module Metrics {
  import opened Strings

  // ---- Rendering labels ----

  /** strings.ReplaceAll for a single byte. */
  function ReplaceAll(s: string, c: char, with: string): string {
    if s == "" then "" else (if s[0] == c then with else [s[0]]) + ReplaceAll(s[1..], c, with)
  }

  function Escape(value: string): string {
    ReplaceAll(ReplaceAll(ReplaceAll(value, '\\', "\\\\"), '\n', "\\n"), '"', "\\\"")
  }

  /** What Escape makes of one byte. */
  function EscapedChar(c: char): string {
    if c == '\\' then "\\\\" else if c == '\n' then "\\n" else if c == '"' then "\\\"" else [c]
  }

  function EscapedBytes(s: string): string {
    if s == "" then "" else EscapedChar(s[0]) + EscapedBytes(s[1..])
  }

  function Unescape(s: string): string {
    if |s| >= 2 && s[0] == '\\' then [if s[1] == 'n' then '\n' else s[1]] + Unescape(s[2..])
    else if s == "" then ""
    else [s[0]] + Unescape(s[1..])
  }

  lemma {:induction false} ReplaceAppends(a: string, b: string, c: char, with: string)
    ensures ReplaceAll(a + b, c, with) == ReplaceAll(a, c, with) + ReplaceAll(b, c, with)
  {
    if a == "" {
      assert a + b == b;
    } else {
      assert (a + b)[1..] == a[1..] + b;
      ReplaceAppends(a[1..], b, c, with);
    }
  }

  lemma ReplaceOne(x: char, c: char, with: string)
    ensures ReplaceAll([x], c, with) == if x == c then with else [x]
  {
    assert [x][1..] == "";
    assert ReplaceAll("", c, with) == "";
  }

  lemma EscapeOne(x: char)
    ensures Escape([x]) == EscapedChar(x)
  {
    ReplaceOne(x, '\\', "\\\\");
    if x == '\\' {
      ReplaceAppends("\\", "\\", '\n', "\\n");
      ReplaceOne('\\', '\n', "\\n");
      assert "\\" + "\\" == "\\\\";
      ReplaceAppends("\\", "\\", '"', "\\\"");
      ReplaceOne('\\', '"', "\\\"");
    } else {
      ReplaceOne(x, '\n', "\\n");
      if x == '\n' {
        ReplaceAppends("\\", "n", '"', "\\\"");
        ReplaceOne('\\', '"', "\\\"");
        ReplaceOne('n', '"', "\\\"");
        assert "\\" + "n" == "\\n";
      } else {
        ReplaceOne(x, '"', "\\\"");
      }
    }
  }

  /** The three passes escape byte by byte. */
  lemma {:induction false} EscapeIsBytewise(s: string)
    ensures Escape(s) == EscapedBytes(s)
  {
    if s != "" {
      var first, rest := [s[0]], s[1..];
      assert s == first + rest;
      EscapeAppends(first, rest);
      EscapeOne(s[0]);
      EscapeIsBytewise(rest);
    }
  }

  lemma EscapeAppends(a: string, b: string)
    ensures Escape(a + b) == Escape(a) + Escape(b)
  {
    ReplaceAppends(a, b, '\\', "\\\\");
    var a1, b1 := ReplaceAll(a, '\\', "\\\\"), ReplaceAll(b, '\\', "\\\\");
    ReplaceAppends(a1, b1, '\n', "\\n");
    ReplaceAppends(ReplaceAll(a1, '\n', "\\n"), ReplaceAll(b1, '\n', "\\n"), '"', "\\\"");
  }

  lemma {:induction false} BytesUnescape(s: string)
    ensures Unescape(EscapedBytes(s)) == s
  {
    if s != "" {
      BytesUnescape(s[1..]);
      var e := EscapedBytes(s);
      assert e[|EscapedChar(s[0])|..] == EscapedBytes(s[1..]);
      assert s == [s[0]] + s[1..];
      assert e[0] == EscapedChar(s[0])[0];
      if |EscapedChar(s[0])| == 2 {
        assert e[1] == EscapedChar(s[0])[1];
      }
    }
  }

  /** Escaping loses nothing. */
  lemma EscapeRoundTrip(value: string)
    ensures Unescape(Escape(value)) == value
  {
    EscapeIsBytewise(value);
    BytesUnescape(value);
  }

  /** Where the first quote that no backslash escapes stands. */
  function BareQuote(s: string): nat {
    if s == "" || s[0] == '"' then 0
    else if s[0] == '\\' && |s| >= 2 then 2 + BareQuote(s[2..])
    else 1 + BareQuote(s[1..])
  }

  lemma {:induction false} QuoteAfterValue(a: string, x: string)
    ensures BareQuote(EscapedBytes(a) + "\"" + x) == |EscapedBytes(a)|
  {
    var s := EscapedBytes(a) + "\"" + x;
    if a != "" {
      var e := EscapedChar(a[0]);
      QuoteAfterValue(a[1..], x);
      assert s == e + (EscapedBytes(a[1..]) + "\"" + x);
      assert s[|e|..] == EscapedBytes(a[1..]) + "\"" + x;
      assert s[0] == e[0] && (|e| == 2 ==> e[0] == '\\');
    }
  }

  /** An escaped value ends where the first bare quote stands. */
  lemma QuoteEnds(a: string, x: string, b: string, y: string)
    requires EscapedBytes(a) + "\"" + x == EscapedBytes(b) + "\"" + y
    ensures a == b && x == y
  {
    var s, t := EscapedBytes(a) + "\"" + x, EscapedBytes(b) + "\"" + y;
    QuoteAfterValue(a, x);
    QuoteAfterValue(b, y);
    var n := |EscapedBytes(a)|;
    assert s[..n] == EscapedBytes(a) && t[..n] == EscapedBytes(b);
    assert s[n + 1..] == x && t[n + 1..] == y;
    BytesUnescape(a);
    BytesUnescape(b);
  }

  /** The values for n declared labels: missing ones are empty, further ones are ignored. */
  function Padded(n: nat, values: seq<string>): (r: seq<string>)
    ensures |r| == n
  {
    seq(n, i requires 0 <= i < n => if i < |values| then values[i] else "")
  }

  /** A missing value is an empty one, and values beyond the declared labels are ignored. */
  lemma PaddingExact(n: nat, values: seq<string>, more: string)
    ensures |values| < n ==> Padded(n, values) == Padded(n, values + [""])
    ensures |values| >= n ==> Padded(n, values) == values[..n] == Padded(n, values + [more])
  {}

  /** An escaped value stays on its line. */
  lemma EscapeHasNoNewline(value: string)
    ensures '\n' !in Escape(value)
  {
    EscapeIsBytewise(value);
    BytesHaveNoNewline(value);
  }

  lemma {:induction false} BytesHaveNoNewline(value: string)
    ensures '\n' !in EscapedBytes(value)
  {
    if value != "" {
      BytesHaveNoNewline(value[1..]);
    }
  }

  function Part(name: string, value: string): string {
    name + "=\"" + Escape(value) + "\""
  }

  function Body(names: seq<string>, values: seq<string>): string
    requires |names| == |values|
  {
    if names == [] then ""
    else if |names| == 1 then Part(names[0], values[0])
    else Part(names[0], values[0]) + "," + Body(names[1..], values[1..])
  }

  function LabelKey(names: seq<string>, values: seq<string>): string {
    if names == [] then "" else "{" + Body(names, Padded(|names|, values)) + "}"
  }

  lemma PartSplits(name: string, v: string, x: string, w: string, y: string)
    requires Part(name, v) + x == Part(name, w) + y
    ensures v == w && x == y
  {
    EscapeIsBytewise(v);
    EscapeIsBytewise(w);
    var head := name + "=\"";
    var s, t := Part(name, v) + x, Part(name, w) + y;
    assert s == head + (EscapedBytes(v) + "\"" + x) && t == head + (EscapedBytes(w) + "\"" + y);
    assert s[|head|..] == EscapedBytes(v) + "\"" + x && t[|head|..] == EscapedBytes(w) + "\"" + y;
    QuoteEnds(v, x, w, y);
  }

  lemma Regroups(a: string, b: string, x: string)
    ensures (a + "," + b) + x == a + ("," + (b + x))
  {}

  lemma BodyHead(names: seq<string>, v: seq<string>, x: string)
    requires |names| == |v| > 1
    ensures Body(names, v) + x == Part(names[0], v[0]) + ("," + (Body(names[1..], v[1..]) + x))
  {
    Regroups(Part(names[0], v[0]), Body(names[1..], v[1..]), x);
  }

  lemma CommaCancels(a: string, b: string)
    requires "," + a == "," + b
    ensures a == b
  {
    assert ("," + a)[1..] == a && ("," + b)[1..] == b;
  }

  lemma {:induction false} BodySplits(names: seq<string>, v: seq<string>, w: seq<string>, x: string, y: string)
    requires |v| == |w| == |names| && names != [] && Body(names, v) + x == Body(names, w) + y
    ensures v == w && x == y
    decreases |names|
  {
    if |names| == 1 {
      PartSplits(names[0], v[0], x, w[0], y);
    } else {
      var rv, rw := Body(names[1..], v[1..]) + x, Body(names[1..], w[1..]) + y;
      BodyHead(names, v, x);
      BodyHead(names, w, y);
      PartSplits(names[0], v[0], "," + rv, w[0], "," + rw);
      CommaCancels(rv, rw);
      BodySplits(names[1..], v[1..], w[1..], x, y);
      assert v == [v[0]] + v[1..] && w == [w[0]] + w[1..];
    }
  }

  lemma BraceCancels(a: string, b: string)
    requires "{" + a + "}" == "{" + b + "}"
    ensures a + "}" == b + "}"
  {
    assert ("{" + a + "}")[1..] == a + "}" && ("{" + b + "}")[1..] == b + "}";
  }

  /** strings.Join with commas. */
  function Joined(parts: seq<string>): string {
    if parts == [] then "" else if |parts| == 1 then parts[0] else parts[0] + "," + Joined(parts[1..])
  }

  lemma {:induction false} BodyIsJoined(names: seq<string>, values: seq<string>, parts: seq<string>)
    requires |names| == |values| == |parts| && forall i :: 0 <= i < |parts| ==> parts[i] == Part(names[i], values[i])
    ensures Body(names, values) == Joined(parts)
  {
    if |names| > 1 {
      BodyIsJoined(names[1..], values[1..], parts[1..]);
    }
  }

  /** Renders one part per declared label; missing values are empty. */
  method RenderLabels(names: seq<string>, values: seq<string>) returns (key: string)
    ensures key == LabelKey(names, values)
  {
    if |names| == 0 {
      return "";
    }
    var parts: seq<string> := [];
    for i := 0 to |names|
      invariant |parts| == i && forall k :: 0 <= k < i ==> parts[k] == Part(names[k], Padded(|names|, values)[k])
    {
      var value := "";
      if i < |values| {
        value := values[i];
      }
      parts := parts + [Part(names[i], value)];
    }
    BodyIsJoined(names, Padded(|names|, values), parts);
    key := "{" + Joined(parts) + "}";
  }

  /** Two series share a key exactly when their values for the declared labels agree. */
  lemma SeriesNeverCollide(names: seq<string>, v: seq<string>, w: seq<string>)
    ensures LabelKey(names, v) == LabelKey(names, w) <==> Padded(|names|, v) == Padded(|names|, w)
  {
    if LabelKey(names, v) == LabelKey(names, w) && names != [] {
      var pv, pw := Padded(|names|, v), Padded(|names|, w);
      BraceCancels(Body(names, pv), Body(names, pw));
      BodySplits(names, pv, pw, "}", "}");
    }
  }

  function WithLabel(key: string, name: string, value: string): string {
    var extra := name + "=\"" + value + "\"";
    if key == "" then "{" + extra + "}"
    else (if key[|key| - 1] == '}' then key[..|key| - 1] else key) + "," + extra + "}"
  }

  lemma {:induction false} BodySnoc(names: seq<string>, values: seq<string>, name: string, value: string)
    requires |names| == |values| && names != []
    ensures Body(names + [name], values + [value]) == Body(names, values) + "," + Part(name, value)
  {
    var ns, vs := names + [name], values + [value];
    assert ns[1..] == names[1..] + [name] && vs[1..] == values[1..] + [value];
    if |names| == 1 {
      assert ns[1..] == [name] && vs[1..] == [value];
    } else {
      BodySnoc(names[1..], values[1..], name, value);
    }
  }

  lemma WithLabelInBraces(body: string, name: string, value: string)
    ensures WithLabel("{" + body + "}", name, value) == "{" + (body + "," + (name + "=\"" + value + "\"")) + "}"
  {
    assert ("{" + body + "}")[..|body| + 1] == "{" + body;
  }

  /** Adding a label whose value needs no escaping is declaring one more label. */
  lemma WithLabelExtends(names: seq<string>, values: seq<string>, name: string, value: string)
    requires Escape(value) == value
    ensures WithLabel(LabelKey(names, values), name, value)
      == LabelKey(names + [name], Padded(|names|, values) + [value])
  {
    var padded := Padded(|names|, values);
    PaddedIsSame(padded + [value]);
    if names == [] {
      assert names + [name] == [name] && padded + [value] == [value];
      FirstLabel(name, value);
    } else {
      OneMoreLabel(names, padded, name, value);
    }
  }

  lemma OneMoreLabel(names: seq<string>, values: seq<string>, name: string, value: string)
    requires Escape(value) == value && |names| == |values| && names != []
    ensures WithLabel("{" + Body(names, values) + "}", name, value)
      == "{" + Body(names + [name], values + [value]) + "}"
  {
    BodySnoc(names, values, name, value);
    WithLabelInBraces(Body(names, values), name, value);
  }

  lemma FirstLabel(name: string, value: string)
    requires Escape(value) == value
    ensures WithLabel("", name, value) == "{" + Body([name], [value]) + "}"
  {}

  // ---- Counters ----

  /** The total of each tuple of label values. */
  type Totals = map<seq<string>, real>

  function Total(totals: Totals, tuple: seq<string>): real {
    if tuple in totals then totals[tuple] else 0.0
  }

  /** The key of each tuple of the declared length. */
  type Keys = imap<seq<string>, string>

  ghost function KeysFor(names: seq<string>): Keys {
    imap tuple: seq<string> | |tuple| == |names| :: LabelKey(names, tuple)
  }

  ghost predicate Renders(names: seq<string>, keys: Keys) {
    forall tuple {:trigger LabelKey(names, tuple)} :: |tuple| == |names| ==>
      tuple in keys && keys[tuple] == LabelKey(names, tuple)
  }

  ghost predicate Separates(keys: Keys) {
    forall a, b :: a in keys && b in keys && keys[a] == keys[b] ==> a == b
  }

  lemma KeysSeparate(names: seq<string>)
    ensures Renders(names, KeysFor(names)) && Separates(KeysFor(names))
  {
    forall a, b | |a| == |b| == |names| && LabelKey(names, a) == LabelKey(names, b) ensures a == b {
      TuplesNeverCollide(names, a, b);
    }
  }

  /** The string-keyed values are the tuple-keyed ones, rendered. */
  ghost predicate Agree<V>(keys: Keys, values: map<string, V>, byTuple: map<seq<string>, V>) {
    && (forall tuple :: tuple in byTuple ==> tuple in keys)
    && (forall tuple :: tuple in keys ==> (tuple in byTuple <==> keys[tuple] in values))
    && (forall tuple :: tuple in byTuple ==> values[keys[tuple]] == byTuple[tuple])
  }

  lemma SetAgrees<V>(keys: Keys, values: map<string, V>, byTuple: map<seq<string>, V>, tuple: seq<string>, v: V)
    requires Separates(keys) && Agree(keys, values, byTuple) && tuple in keys
    ensures tuple in byTuple <==> keys[tuple] in values
    ensures tuple in byTuple ==> values[keys[tuple]] == byTuple[tuple]
    ensures Agree(keys, values[keys[tuple] := v], byTuple[tuple := v])
  {}

  class CounterVec {
    const labels: seq<string>
    var values: map<string, real>
    ghost const keys: Keys
    ghost var totals: Totals

    ghost predicate Valid()
      reads this
    {
      Renders(labels, keys) && Separates(keys) && Agree(keys, values, totals)
    }

    constructor (labels: seq<string>)
      ensures Valid() && this.labels == labels && totals == map[]
    {
      this.labels := labels;
      values := map[];
      keys := KeysFor(labels);
      totals := map[];
      KeysSeparate(labels);
    }

    /** Adds to the total of the values' tuple and to no other. */
    method Add(delta: real, vs: seq<string>)
      requires Valid()
      modifies this
      ensures Valid()
      ensures var tuple := Padded(|labels|, vs);
        totals == old(totals)[tuple := Total(old(totals), tuple) + delta]
    {
      var key := LabelKey(labels, vs);
      KeyOfPadded(labels, vs);
      AddTo(key, delta, Padded(|labels|, vs));
    }

    method AddTo(key: string, delta: real, ghost tuple: seq<string>)
      requires Valid() && tuple in keys && keys[tuple] == key
      modifies this
      ensures Valid() && totals == old(totals)[tuple := Total(old(totals), tuple) + delta]
    {
      SetAgrees(keys, values, totals, tuple, Total(totals, tuple) + delta);
      var now := if key in values then values[key] else 0.0;
      values := values[key := now + delta];
      totals := totals[tuple := now + delta];
    }

    method Value(vs: seq<string>) returns (v: real)
      requires Valid()
      ensures v == Total(totals, Padded(|labels|, vs))
    {
      var key := LabelKey(labels, vs);
      KeyOfPadded(labels, vs);
      SetAgrees(keys, values, totals, Padded(|labels|, vs), 0.0);
      v := if key in values then values[key] else 0.0;
    }
  }

  lemma PaddedIsSame(tuple: seq<string>)
    ensures Padded(|tuple|, tuple) == tuple
  {}

  lemma KeyOfPadded(names: seq<string>, vs: seq<string>)
    ensures LabelKey(names, Padded(|names|, vs)) == LabelKey(names, vs)
  {
    PaddedIsSame(Padded(|names|, vs));
    SeriesNeverCollide(names, Padded(|names|, vs), vs);
  }

  lemma TuplesNeverCollide(names: seq<string>, a: seq<string>, b: seq<string>)
    requires |a| == |b| == |names|
    ensures LabelKey(names, a) == LabelKey(names, b) <==> a == b
  {
    SeriesNeverCollide(names, a, b);
    PaddedIsSame(a);
    PaddedIsSame(b);
  }

  // ---- Histograms ----

  /** How many observed values are at most bound. */
  function AtMost(observed: seq<real>, bound: real): nat {
    if observed == [] then 0
    else AtMost(observed[..|observed| - 1], bound) + (if observed[|observed| - 1] <= bound then 1 else 0)
  }

  function Sum(observed: seq<real>): real {
    if observed == [] then 0.0 else Sum(observed[..|observed| - 1]) + observed[|observed| - 1]
  }

  /** The observations with one more value under k. */
  ghost function Noted<K>(observed: map<K, seq<real>>, k: K, value: real): map<K, seq<real>> {
    observed[k := (if k in observed then observed[k] else []) + [value]]
  }

  ghost function Known<K>(observed: map<K, seq<real>>, k: K): map<K, seq<real>> {
    if k in observed then observed else observed[k := []]
  }

  lemma KnownIsNoted<K>(observed: map<K, seq<real>>, k: K, value: real)
    ensures Noted(Known(observed, k), k, value) == Noted(observed, k, value)
  {}

  lemma NotedAgrees(keys: Keys, rendered: map<string, seq<real>>, observed: map<seq<string>, seq<real>>,
      tuple: seq<string>, value: real)
    requires Separates(keys) && Agree(keys, rendered, observed) && tuple in keys
    ensures Agree(keys, Noted(rendered, keys[tuple], value), Noted(observed, tuple, value))
  {
    SetAgrees(keys, rendered, observed, tuple, Noted(observed, tuple, value)[tuple]);
  }

  class Series {
    const counts: array<nat>
    var sum: real
    var count: nat

    constructor (buckets: nat)
      ensures fresh(counts) && counts.Length == buckets && sum == 0.0 && count == 0
      ensures forall i :: 0 <= i < buckets ==> counts[i] == 0
    {
      counts := new nat[buckets](_ => 0);
      sum, count := 0.0, 0;
    }
  }

  class HistogramVec {
    const labels: seq<string>
    const buckets: seq<real>
    var series: map<string, Series>
    ghost const keys: Keys
    ghost var rendered: map<string, seq<real>>
    ghost var observed: map<seq<string>, seq<real>>

    /** The series of each tuple of label values holds exactly what was observed for that tuple. */
    ghost predicate Valid()
      reads this, series.Values, set s: Series | s in series.Values :: s.counts
    {
      Counted() && Renders(labels, keys) && Separates(keys) && Agree(keys, rendered, observed)
    }

    ghost predicate Counted()
      reads this`series, this`rendered, series.Values, set s: Series | s in series.Values :: s.counts
    {
      && rendered.Keys == series.Keys
      && (forall k :: k in series ==> Holds(series[k], rendered[k]))
      && (forall k, l :: k in series && l in series && k != l ==>
            series[k] != series[l] && series[k].counts != series[l].counts)
    }

    ghost predicate Holds(s: Series, seen: seq<real>)
      reads s, s.counts
    {
      && s.counts.Length == |buckets|
      && s.count == |seen| && s.sum == Sum(seen)
      && (forall i :: 0 <= i < |buckets| ==> s.counts[i] == AtMost(seen, buckets[i]))
    }

    constructor (labels: seq<string>, buckets: seq<real>)
      ensures Valid() && this.labels == labels && this.buckets == buckets && observed == map[]
    {
      this.labels, this.buckets := labels, buckets;
      series := map[];
      keys := KeysFor(labels);
      rendered, observed := map[], map[];
      KeysSeparate(labels);
    }

    /** Counts the value, for the values' own tuple only, in every bucket whose bound it does not exceed. */
    method Observe(value: real, vs: seq<string>)
      requires Valid()
      modifies this, series.Values, set s: Series | s in series.Values :: s.counts
      ensures Valid()
      ensures observed == Noted(old(observed), Padded(|labels|, vs), value)
    {
      KeyOfPadded(labels, vs);
      ObserveTuple(LabelKey(labels, vs), value, Padded(|labels|, vs));
    }

    method ObserveTuple(key: string, value: real, ghost tuple: seq<string>)
      requires Counted() && Separates(keys) && Agree(keys, rendered, observed) && tuple in keys && keys[tuple] == key
      modifies this, series.Values, set s: Series | s in series.Values :: s.counts
      ensures Counted() && Agree(keys, rendered, observed) && observed == Noted(old(observed), tuple, value)
    {
      NotedAgrees(keys, rendered, observed, tuple, value);
      observed := Noted(observed, tuple, value);
      ObserveKey(key, value);
    }

    method ObserveKey(key: string, value: real)
      requires Counted()
      modifies this`series, this`rendered, series.Values, set s: Series | s in series.Values :: s.counts
      ensures Counted() && rendered == Noted(old(rendered), key, value)
    {
      KnownIsNoted(rendered, key, value);
      EnsureSeries(key);
      Record(key, value);
    }

    /** Counts the value in the key's own series. */
    method Record(key: string, value: real)
      requires Counted() && key in series
      modifies this`rendered, series[key], series[key].counts
      ensures Counted() && rendered == Noted(old(rendered), key, value)
    {
      var s := series[key];
      ghost var seen := rendered[key];
      Count(s, value, seen);
      assert (seen + [value])[..|seen|] == seen;
      s.sum := s.sum + value;
      s.count := s.count + 1;
      rendered := Noted(rendered, key, value);
    }

    /** Gives the key a series, an empty one unless it has one. */
    method EnsureSeries(key: string)
      requires Counted()
      modifies this`series, this`rendered
      ensures Counted() && rendered == Known(old(rendered), key) && key in series
      ensures series[key] in old(series.Values) || (fresh(series[key]) && fresh(series[key].counts))
    {
      if key !in series {
        var s := new Series(|buckets|);
        series := series[key := s];
        rendered := Known(rendered, key);
      }
    }

    method Count(s: Series, value: real, ghost seen: seq<real>)
      requires Holds(s, seen)
      modifies s.counts
      ensures s.counts.Length == |buckets|
      ensures forall i :: 0 <= i < |buckets| ==> s.counts[i] == AtMost(seen + [value], buckets[i])
    {
      assert (seen + [value])[..|seen|] == seen;
      for i := 0 to |buckets|
        invariant s.counts.Length == |buckets|
        invariant forall k :: 0 <= k < i ==> s.counts[k] == AtMost(seen + [value], buckets[k])
        invariant forall k :: i <= k < |buckets| ==> s.counts[k] == AtMost(seen, buckets[k])
      {
        if value <= buckets[i] {
          s.counts[i] := s.counts[i] + 1;
        }
      }
    }
  }

  /** With ascending bounds the bucket counts ascend, up to the number of values. */
  lemma {:induction false} BucketsAscend(observed: seq<real>, low: real, high: real)
    requires low <= high
    ensures AtMost(observed, low) <= AtMost(observed, high) <= |observed|
  {
    if observed != [] {
      BucketsAscend(observed[..|observed| - 1], low, high);
    }
  }

  /** A bucket counts exactly the positions whose value is at most its bound. */
  lemma {:induction false} AtMostCounts(observed: seq<real>, bound: real)
    ensures AtMost(observed, bound) == |set i: nat | i < |observed| && observed[i] <= bound|
  {
    var these := set i: nat | i < |observed| && observed[i] <= bound;
    if observed == [] {
      assert these == {};
    } else {
      var init, last := observed[..|observed| - 1], |observed| - 1;
      AtMostCounts(init, bound);
      var before := set i: nat | i < |init| && init[i] <= bound;
      assert forall i: nat :: i < |init| ==> init[i] == observed[i];
      assert these == if observed[last] <= bound then before + {last} else before;
    }
  }
}
