/** Text helpers the portal takes from Go's strings and strconv packages, for ASCII text. */
module Strings {

  datatype Option<+T> = None | Some(value: T)

  function LowerChar(c: char): char {
    if 'A' <= c <= 'Z' then (c as int + 32) as char else c
  }

  function Lower(s: string): (r: string)
    ensures |r| == |s|
  {
    seq(|s|, i requires 0 <= i < |s| => LowerChar(s[i]))
  }

  predicate IsSpace(c: char) {
    c == ' ' || 9 <= c as int <= 13
  }

  function TrimLeft(s: string): (r: string)
  {
    if s != "" && IsSpace(s[0]) then TrimLeft(s[1..]) else s
  }

  function TrimRight(s: string): (r: string)
  {
    if s != "" && IsSpace(s[|s| - 1]) then TrimRight(s[..|s| - 1]) else s
  }

  function TrimSpace(s: string): (r: string)
  {
    TrimRight(TrimLeft(s))
  }

  predicate StartsWith(s: string, p: string) {
    |p| <= |s| && s[..|p|] == p
  }

  predicate IsDigit(c: char) {
    '0' <= c <= '9'
  }

  predicate AllDigits(s: string) {
    forall i :: 0 <= i < |s| ==> IsDigit(s[i])
  }

  /** The number a run of decimal digits spells. */
  function Value(digits: string): nat
    requires AllDigits(digits)
  {
    if digits == "" then 0
    else 10 * Value(digits[..|digits| - 1]) + (digits[|digits| - 1] as int - '0' as int)
  }

  /** strconv.Itoa: no leading zeros, a minus sign for negative numbers. */
  function Digits(n: nat): (s: string)
    ensures s != "" && AllDigits(s) && Value(s) == n
  {
    var d := ('0' as int + n % 10) as char;
    if n < 10 then
      assert [d][..0] == "";
      [d]
    else
      var s := Digits(n / 10) + [d];
      assert s[..|s| - 1] == Digits(n / 10);
      s
  }

  function Decimal(n: int): string {
    if n < 0 then "-" + Digits(-n) else Digits(n)
  }

  lemma {:induction false} TrimLeftDrops(s: string)
    ensures var r := TrimLeft(s);
      && |r| <= |s| && r == s[|s| - |r|..]
      && (r != "" ==> !IsSpace(r[0]))
      && (s != "" && !IsSpace(s[0]) ==> r == s)
      && (s != "" && !IsSpace(s[|s| - 1]) ==> r != "")
  {
    if s != "" && IsSpace(s[0]) {
      TrimLeftDrops(s[1..]);
    }
  }

  lemma {:induction false} TrimRightDrops(s: string)
    ensures var r := TrimRight(s);
      && |r| <= |s| && r == s[..|r|]
      && (r != "" ==> !IsSpace(r[|r| - 1]))
      && (s != "" && !IsSpace(s[|s| - 1]) ==> r == s)
  {
    if s != "" && IsSpace(s[|s| - 1]) {
      TrimRightDrops(s[..|s| - 1]);
    }
  }

  /** A trimmed text has no space at its ends, and trimming leaves such a text alone. */
  lemma TrimSpaceTrims(s: string)
    ensures var r := TrimSpace(s);
      && (r == "" || (!IsSpace(r[0]) && !IsSpace(r[|r| - 1])))
      && (s == "" || (!IsSpace(s[0]) && !IsSpace(s[|s| - 1])) ==> r == s)
      && (forall c :: c in r ==> c in s)
  {
    var left := TrimLeft(s);
    TrimLeftDrops(s);
    TrimRightDrops(left);
    var r, n := TrimSpace(s), |s| - |left|;
    forall c | c in r ensures c in s {
      var k :| 0 <= k < |r| && r[k] == c;
      assert s[n + k] == left[k] == c;
    }
  }

  predicate AllSpaces(s: string) {
    forall i :: 0 <= i < |s| ==> IsSpace(s[i])
  }

  lemma {:induction false} TrimLeftSkips(spaces: string, s: string)
    requires AllSpaces(spaces)
    ensures TrimLeft(spaces + s) == TrimLeft(s)
  {
    if spaces == "" {
      assert spaces + s == s;
    } else {
      assert (spaces + s)[1..] == spaces[1..] + s;
      TrimLeftSkips(spaces[1..], s);
    }
  }

  lemma {:induction false} TrimRightSkips(s: string, spaces: string)
    requires AllSpaces(spaces)
    ensures TrimRight(s + spaces) == TrimRight(s)
  {
    if spaces == "" {
      assert s + spaces == s;
    } else {
      assert (s + spaces)[..|s + spaces| - 1] == s + spaces[..|spaces| - 1];
      TrimRightSkips(s, spaces[..|spaces| - 1]);
    }
  }

  lemma {:induction false} TrimLeftOf(s: string, spaces: string)
    requires AllSpaces(spaces)
    ensures TrimLeft(s + spaces) == if TrimLeft(s) == "" then "" else TrimLeft(s) + spaces
  {
    if s == "" {
      assert s + spaces == spaces + "";
      TrimLeftSkips(spaces, "");
    } else if IsSpace(s[0]) {
      assert (s + spaces)[1..] == s[1..] + spaces;
      TrimLeftOf(s[1..], spaces);
    }
  }

  /** Space around a text is cut off, whatever there is of it. */
  lemma TrimSpaceCuts(before: string, s: string, after: string)
    requires AllSpaces(before) && AllSpaces(after)
    ensures TrimSpace(before + s + after) == TrimSpace(s)
  {
    assert before + s + after == before + (s + after);
    TrimLeftSkips(before, s + after);
    TrimLeftOf(s, after);
    TrimRightSkips(TrimLeft(s), after);
  }

  lemma {:induction false} TrimLeftParts(s: string)
    ensures var n := |s| - |TrimLeft(s)|; 0 <= n <= |s| && AllSpaces(s[..n]) && TrimLeft(s) == s[n..]
  {
    if s != "" && IsSpace(s[0]) {
      TrimLeftParts(s[1..]);
    }
  }

  lemma {:induction false} TrimRightParts(s: string)
    ensures var n := |TrimRight(s)|; n <= |s| && AllSpaces(s[n..]) && TrimRight(s) == s[..n]
  {
    if s != "" && IsSpace(s[|s| - 1]) {
      TrimRightParts(s[..|s| - 1]);
    }
  }

  /** Where the trimmed text stands: between spaces. */
  lemma TrimSpaceParts(s: string) returns (i: nat, j: nat)
    ensures i <= j <= |s| && TrimSpace(s) == s[i..j] && AllSpaces(s[..i]) && AllSpaces(s[j..])
  {
    var left := TrimLeft(s);
    TrimLeftParts(s);
    TrimRightParts(left);
    i := |s| - |left|;
    j := i + |TrimSpace(s)|;
    assert left[..j - i] == s[i..j] && left[j - i..] == s[j..];
  }

  /** The letters differ in case at most. */
  predicate SameLetter(c: char, d: char) {
    || c == d
    || ('A' <= c <= 'Z' && d as int == c as int + 32)
    || ('A' <= d <= 'Z' && c as int == d as int + 32)
  }

  predicate SameLetters(s: string, t: string) {
    |s| == |t| && forall i :: 0 <= i < |s| ==> SameLetter(s[i], t[i])
  }

  /** Lower-casing makes equal exactly what differs in case at most. */
  lemma LowerFolds(s: string, t: string)
    ensures Lower(s) == Lower(t) <==> SameLetters(s, t)
  {
    if Lower(s) == Lower(t) {
      forall i | 0 <= i < |s| ensures SameLetter(s[i], t[i]) {
        assert Lower(s)[i] == Lower(t)[i];
      }
    }
    if SameLetters(s, t) {
      assert forall i :: 0 <= i < |s| ==> Lower(s)[i] == Lower(t)[i];
    }
  }

  lemma LowerStays(s: string)
    ensures Lower(s) == s <==> forall i :: 0 <= i < |s| ==> !('A' <= s[i] <= 'Z')
  {
    if Lower(s) == s {
      forall i | 0 <= i < |s| ensures !('A' <= s[i] <= 'Z') {
        assert Lower(s)[i] == s[i];
      }
    }
  }

  lemma LowerIdempotent(s: string)
    ensures Lower(Lower(s)) == Lower(s)
  {}

  lemma LowerKeepsSpace(s: string)
    ensures forall i :: 0 <= i < |s| ==> IsSpace(Lower(s)[i]) == IsSpace(s[i])
  {}

  lemma NoElements<T>(s: set<T>)
    requires forall x :: x !in s
    ensures s == {}
  {}

  lemma Element<T>(s: set<T>) returns (x: T)
    requires |s| > 0
    ensures x in s
  {
    if !exists y :: y in s {
      NoElements(s);
      assert false;
    }
    x :| x in s;
  }

  function Elements<T(==)>(s: seq<T>): set<T> {
    set x | x in s
  }

  lemma ElementsSnoc<T>(s: seq<T>, i: nat)
    requires i < |s|
    ensures Elements(s[..i + 1]) == Elements(s[..i]) + {s[i]}
    ensures s[i] in s && s[..|s|] == s
  {
    assert s[..i + 1] == s[..i] + [s[i]];
  }

  lemma ElementsPlus<T>(s: seq<T>, x: T)
    ensures Elements(s + [x]) == Elements(s) + {x}
  {}
}
