/** Sorting by a strict order, and Go's order on strings. */
module Ordering {
  import opened Strings

  type Order<!T> = (T, T) -> bool

  ghost predicate Strict<T(!new)>(less: Order<T>) {
    (forall a :: !less(a, a)) && (forall a, b, c :: less(a, b) && less(b, c) ==> less(a, c))
  }

  ghost predicate Comparable<T>(less: Order<T>, s: seq<T>) {
    forall i, j :: 0 <= i < j < |s| ==> less(s[i], s[j]) || less(s[j], s[i])
  }

  ghost predicate Ascending<T>(less: Order<T>, s: seq<T>) {
    forall i, j :: 0 <= i < j < |s| ==> less(s[i], s[j])
  }

  function InsertSorted<T>(less: Order<T>, x: T, s: seq<T>): (r: seq<T>)
    ensures |r| == |s| + 1
  {
    if s == [] then [x] else if less(x, s[0]) then [x] + s else [s[0]] + InsertSorted(less, x, s[1..])
  }

  function Sort<T>(less: Order<T>, s: seq<T>): (r: seq<T>)
    ensures |r| == |s|
  {
    if s == [] then [] else InsertSorted(less, s[|s| - 1], Sort(less, s[..|s| - 1]))
  }

  lemma ElementsHead<T>(x: T, s: seq<T>)
    ensures Elements([x] + s) == Elements(s) + {x}
  {}

  lemma {:induction false} InsertKeepsElements<T>(less: Order<T>, x: T, s: seq<T>)
    ensures Elements(InsertSorted(less, x, s)) == Elements(s) + {x}
  {
    ElementsHead(x, s);
    if s != [] {
      InsertKeepsElements(less, x, s[1..]);
      assert s == [s[0]] + s[1..];
      ElementsHead(s[0], InsertSorted(less, x, s[1..]));
      ElementsHead(s[0], s[1..]);
    }
  }

  lemma AscendingHead<T>(less: Order<T>, x: T, s: seq<T>)
    requires Ascending(less, s) && forall y :: y in s ==> less(x, y)
    ensures Ascending(less, [x] + s)
  {
    var r := [x] + s;
    forall i, j | 0 <= i < j < |r| ensures less(r[i], r[j]) {
      assert r[j] == s[j - 1] && s[j - 1] in s;
    }
  }

  lemma {:induction false} InsertKeepsOrder<T(!new)>(less: Order<T>, x: T, s: seq<T>)
    requires Strict(less) && Ascending(less, s) && forall y :: y in s ==> less(x, y) || less(y, x)
    ensures Ascending(less, InsertSorted(less, x, s))
  {
    if s != [] {
      if less(x, s[0]) {
        AscendingHead(less, x, s);
      } else {
        assert s == [s[0]] + s[1..];
        InsertKeepsOrder(less, x, s[1..]);
        InsertKeepsElements(less, x, s[1..]);
        var rest := InsertSorted(less, x, s[1..]);
        forall y | y in rest ensures less(s[0], y) {
          assert y in Elements(rest);
          assert y == x || y in Elements(s[1..]);
          assert s[0] in s;
        }
        AscendingHead(less, s[0], rest);
      }
    }
  }

  lemma {:induction false} SortSorts<T(!new)>(less: Order<T>, s: seq<T>)
    requires Strict(less) && Comparable(less, s)
    ensures Ascending(less, Sort(less, s)) && Elements(Sort(less, s)) == Elements(s)
  {
    if s != [] {
      var init, last := s[..|s| - 1], s[|s| - 1];
      assert forall i :: 0 <= i < |init| ==> init[i] == s[i];
      SortSorts(less, init);
      assert s == init + [last];
      ElementsPlus(init, last);
      forall y | y in Sort(less, init) ensures less(last, y) || less(y, last) {
        assert y in Elements(Sort(less, init));
        assert y in init;
      }
      InsertKeepsOrder(less, last, Sort(less, init));
      InsertKeepsElements(less, last, Sort(less, init));
    }
  }

  /** There is only one ascending list of a set. */
  lemma {:induction false} AscendingIsUnique<T(!new)>(less: Order<T>, a: seq<T>, b: seq<T>)
    requires Strict(less) && Ascending(less, a) && Ascending(less, b) && Elements(a) == Elements(b)
    ensures a == b
  {
    assert a != [] ==> a[0] in Elements(a);
    assert b != [] ==> b[0] in Elements(b);
    if a != [] {
      LeastIsFirst(less, a, b[0]);
      LeastIsFirst(less, b, a[0]);
      TailElements(less, a);
      TailElements(less, b);
      AscendingIsUnique(less, a[1..], b[1..]);
      assert a == [a[0]] + a[1..] && b == [b[0]] + b[1..];
    }
  }

  lemma LeastIsFirst<T>(less: Order<T>, a: seq<T>, x: T)
    requires Ascending(less, a) && x in Elements(a)
    ensures x == a[0] || less(a[0], x)
  {}

  lemma TailElements<T(!new)>(less: Order<T>, a: seq<T>)
    requires Strict(less) && a != [] && Ascending(less, a)
    ensures Elements(a[1..]) == Elements(a) - {a[0]}
  {
    assert a == [a[0]] + a[1..];
    ElementsHead(a[0], a[1..]);
    forall i | 0 <= i < |a[1..]| ensures a[1..][i] != a[0] {
      assert less(a[0], a[i + 1]);
    }
  }

  // ---- Strings ----

  predicate Less(a: string, b: string) {
    b != "" && (a == "" || a[0] < b[0] || (a[0] == b[0] && Less(a[1..], b[1..])))
  }

  /** a comes before b exactly when b goes on where a ends, or has the larger character where they first differ. */
  lemma {:induction false} LessExact(a: string, b: string)
    ensures Less(a, b) <==>
      exists k :: 0 <= k <= |a| && k < |b| && a[..k] == b[..k] && (k == |a| || a[k] < b[k])
  {
    if b != "" && a != "" && a[0] == b[0] {
      LessExact(a[1..], b[1..]);
      if k :| 0 <= k <= |a[1..]| && k < |b[1..]| && a[1..][..k] == b[1..][..k] &&
              (k == |a[1..]| || a[1..][k] < b[1..][k]) {
        assert a[..k + 1] == [a[0]] + a[1..][..k] && b[..k + 1] == [b[0]] + b[1..][..k];
      }
      if k :| 0 <= k <= |a| && k < |b| && a[..k] == b[..k] && (k == |a| || a[k] < b[k]) {
        assert k > 0 && a[1..][..k - 1] == a[..k][1..] && b[1..][..k - 1] == b[..k][1..];
      }
    } else if b != "" && (a == "" || a[0] < b[0]) {
      assert a[..0] == b[..0];
    } else if k :| 0 <= k <= |a| && k < |b| && a[..k] == b[..k] && (k == |a| || a[k] < b[k]) {
      assert k > 0 ==> a[..k][0] == b[..k][0];
    }
  }

  lemma {:induction false} LessIrreflexive(a: string)
    ensures !Less(a, a)
  {
    if a != "" {
      LessIrreflexive(a[1..]);
    }
  }

  lemma {:induction false} LessTransitive(a: string, b: string, c: string)
    requires Less(a, b) && Less(b, c)
    ensures Less(a, c)
  {
    if a != "" && a[0] == b[0] && b[0] == c[0] {
      LessTransitive(a[1..], b[1..], c[1..]);
    }
  }

  lemma {:induction false} LessTotal(a: string, b: string)
    ensures a == b || Less(a, b) || Less(b, a)
  {
    if a != "" && b != "" && a[0] == b[0] {
      LessTotal(a[1..], b[1..]);
      assert a == [a[0]] + a[1..] && b == [b[0]] + b[1..];
    }
  }

  lemma LessIsStrict()
    ensures Strict(Less)
  {
    forall a {
      LessIrreflexive(a);
    }
    forall a, b, c | Less(a, b) && Less(b, c) {
      LessTransitive(a, b, c);
    }
  }

  ghost predicate NoRepeats<T>(s: seq<T>) {
    forall i, j :: 0 <= i < j < |s| ==> s[i] != s[j]
  }

  lemma DistinctStringsSort(s: seq<string>)
    requires NoRepeats(s)
    ensures Ascending(Less, Sort(Less, s)) && Elements(Sort(Less, s)) == Elements(s)
  {
    LessIsStrict();
    forall i, j | 0 <= i < j < |s| ensures Less(s[i], s[j]) || Less(s[j], s[i]) {
      LessTotal(s[i], s[j]);
    }
    SortSorts(Less, s);
  }

  /** A finite set has an ascending list when any two of its elements are ordered. */
  lemma {:induction false} ListExists<T(!new)>(less: Order<T>, s: set<T>)
    requires Strict(less) && forall x, y :: x in s && y in s && x != y ==> less(x, y) || less(y, x)
    ensures exists r :: Ascending(less, r) && Elements(r) == s && |r| == |s|
    decreases s
  {
    if s == {} {
      var none: seq<T> := [];
      assert Ascending(less, none) && Elements(none) == s && |none| == |s|;
    } else {
      ghost var x := Strings.Element(s);
      ListExists(less, s - {x});
      var r :| Ascending(less, r) && Elements(r) == s - {x} && |r| == |s - {x}|;
      forall y | y in r ensures less(x, y) || less(y, x) {
        assert y in Elements(r);
      }
      InsertKeepsOrder(less, x, r);
      InsertKeepsElements(less, x, r);
      assert Ascending(less, InsertSorted(less, x, r));
    }
  }

  /** The ascending list of a set of strings. */
  ghost function Listed(s: set<string>): (r: seq<string>)
    ensures Ascending(Less, r) && Elements(r) == s && |r| == |s|
  {
    StringListExists(s);
    var r :| Ascending(Less, r) && Elements(r) == s && |r| == |s|;
    r
  }

  lemma StringListExists(s: set<string>)
    ensures exists r :: Ascending(Less, r) && Elements(r) == s && |r| == |s|
  {
    LessIsStrict();
    forall x, y | x in s && y in s && x != y ensures Less(x, y) || Less(y, x) {
      LessTotal(x, y);
    }
    ListExists(Less, s);
  }
}
