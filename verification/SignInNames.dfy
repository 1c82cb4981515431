/**
 * Which account name a sign-in name stands for, and which free form of it a new account is given
 * (backend/internal/api/auth_handlers.go).
 */
module SignInNames {
  import opened Strings
  import opened Accounts
  import opened Identity

  // ---- What is left of a sign-in name ----

  /** What a character of a sign-in name becomes: letters lose their case, a blank turns into a dot, few others stay. */
  function Written(c: char): string {
    if 'A' <= c <= 'Z' then [(c as int + 32) as char]
    else if c == ' ' then "."
    else if 'a' <= c <= 'z' || '0' <= c <= '9' || c in "._-" then [c]
    else ""
  }

  function WrittenAll(s: string): string {
    if s == "" then "" else Written(s[0]) + WrittenAll(s[1..])
  }

  lemma {:induction false} WrittenAppends(a: string, b: string)
    ensures WrittenAll(a + b) == WrittenAll(a) + WrittenAll(b)
  {
    if a == "" {
      assert a + b == b;
    } else {
      assert (a + b)[1..] == a[1..] + b;
      WrittenAppends(a[1..], b);
    }
  }

  lemma {:induction false} SpacesAreSeparators(s: string)
    requires AllSpaces(s)
    ensures Separators(WrittenAll(s))
  {
    if s != "" {
      SpacesAreSeparators(s[1..]);
    }
  }

  /** The first character, and what follows. */
  lemma DottedHead(s: string)
    requires s != ""
    ensures var t, c := SpacesToDots(Lower(s)), LowerChar(s[0]);
      t == [if c == ' ' then '.' else c] + SpacesToDots(Lower(s[1..]))
  {
    var t := SpacesToDots(Lower(s));
    assert t[1..] == SpacesToDots(Lower(s[1..])) by {
      assert Lower(s)[1..] == Lower(s[1..]);
    }
    assert t == [t[0]] + t[1..];
  }

  /** Lower-casing and then replacing blanks, cutting and filtering is writing character by character. */
  lemma {:induction false} KeptIsWritten(s: string)
    requires '@' !in s
    ensures KeepNameChars(BeforeAt(SpacesToDots(Lower(s)))) == WrittenAll(s)
  {
    NoAt(s);
    if s != "" {
      assert forall c :: c in s[1..] ==> c in s;
      KeptIsWritten(s[1..]);
      NoAt(s[1..]);
      DottedHead(s);
      KeptHead(SpacesToDots(Lower(s)), s[0], SpacesToDots(Lower(s[1..])));
    }
  }

  lemma KeptHead(t: string, c: char, rest: string)
    requires t == [if LowerChar(c) == ' ' then '.' else LowerChar(c)] + rest
    ensures KeepNameChars(t) == Written(c) + KeepNameChars(rest)
  {
    assert t[1..] == rest;
  }

  lemma NoAt(s: string)
    requires '@' !in s
    ensures '@' !in SpacesToDots(Lower(s)) && BeforeAt(SpacesToDots(Lower(s))) == SpacesToDots(Lower(s))
  {
    var t := SpacesToDots(Lower(s));
    forall i | 0 <= i < |t| ensures t[i] != '@' {
      assert s[i] in s;
    }
  }

  lemma {:induction false} CutsAtFirst(local: string, domain: string)
    requires '@' !in local
    ensures BeforeAt(SpacesToDots(Lower(local + "@" + domain))) == SpacesToDots(Lower(local))
  {
    var s := local + "@" + domain;
    DottedHead(s);
    if local == "" {
      assert s[0] == '@';
      assert SpacesToDots(Lower(local)) == "";
    } else {
      assert local[0] in local && s[0] == local[0] && s[1..] == local[1..] + "@" + domain;
      assert forall c :: c in local[1..] ==> c in local;
      CutsAtFirst(local[1..], domain);
      DottedHead(local);
      CutHead(SpacesToDots(Lower(s)), s[0], SpacesToDots(Lower(s[1..])));
    }
  }

  lemma CutHead(t: string, c: char, rest: string)
    requires c != '@' && t == [if LowerChar(c) == ' ' then '.' else LowerChar(c)] + rest
    ensures BeforeAt(t) == [if LowerChar(c) == ' ' then '.' else LowerChar(c)] + BeforeAt(rest)
  {
    assert t[1..] == rest;
  }

  /**
   * The account name of a sign-in name is what stands before its first at sign, written character by
   * character, without the separators at its ends.
   */
  lemma SanitizeExact(value: string, local: string, domain: string) returns (a: string, b: string)
    requires '@' !in local && (value == local || value == local + "@" + domain)
    ensures WrittenAll(local) == a + Sanitize(value) + b && Separators(a) && Separators(b) && CleanName(Sanitize(value))
  {
    SanitizeIsClean(value);
    var i, j := InsideOf(value);
    a, b := WrittenParts(value, local, domain, i, j);
  }

  lemma InsideOf(value: string) returns (i: nat, j: nat)
    ensures i <= j <= |value| && TrimSpace(Lower(value)) == Lower(value[i..j])
    ensures AllSpaces(value[..i]) && AllSpaces(value[j..])
  {
    i, j := TrimSpaceParts(Lower(value));
    SpacesOf(value, 0, i);
    SpacesOf(value, j, |value|);
    assert value[0..i] == value[..i] && value[j..|value|] == value[j..];
  }

  lemma WrittenParts(value: string, local: string, domain: string, i: nat, j: nat) returns (a: string, b: string)
    requires '@' !in local && (value == local || value == local + "@" + domain)
    requires i <= j <= |value| && TrimSpace(Lower(value)) == Lower(value[i..j])
    requires AllSpaces(value[..i]) && AllSpaces(value[j..])
    ensures WrittenAll(local) == a + Sanitize(value) + b && Separators(a) && Separators(b)
  {
    SpacesAreSeparators(value[..i]);
    SpacesAreSeparators(value[j..]);
    if value == local {
      a, b := WithoutAt(value, i, j);
    } else {
      a, b := BeforeTheAt(value, local, domain, i, j);
    }
  }

  lemma WithoutAt(value: string, i: nat, j: nat) returns (a: string, b: string)
    requires '@' !in value && i <= j <= |value| && TrimSpace(Lower(value)) == Lower(value[i..j])
    requires Separators(WrittenAll(value[..i])) && Separators(WrittenAll(value[j..]))
    ensures WrittenAll(value) == a + Sanitize(value) + b && Separators(a) && Separators(b)
  {
    var m := value[i..j];
    assert forall c :: c in m ==> c in value;
    KeptIsWritten(m);
    a, b := TrimmedBetween(WrittenAll(m));
    InThree(value, i, j);
    Regroup(WrittenAll(value[..i]), a, Sanitize(value), b, WrittenAll(value[j..]));
    a, b := WrittenAll(value[..i]) + a, b + WrittenAll(value[j..]);
  }

  lemma InThree(value: string, i: nat, j: nat)
    requires i <= j <= |value|
    ensures WrittenAll(value) == WrittenAll(value[..i]) + WrittenAll(value[i..j]) + WrittenAll(value[j..])
  {
    Cut(value, j);
    Cut(value[..j], i);
    assert value[..j][..i] == value[..i] && value[..j][i..] == value[i..j];
  }

  lemma Cut(s: string, i: nat)
    requires i <= |s|
    ensures WrittenAll(s) == WrittenAll(s[..i]) + WrittenAll(s[i..])
  {
    assert s == s[..i] + s[i..];
    WrittenAppends(s[..i], s[i..]);
  }

  lemma BeforeTheAt(value: string, local: string, domain: string, i: nat, j: nat) returns (a: string, b: string)
    requires '@' !in local && value == local + "@" + domain
    requires i <= j <= |value| && TrimSpace(Lower(value)) == Lower(value[i..j])
    requires AllSpaces(value[..i]) && AllSpaces(value[j..])
    ensures WrittenAll(local) == a + Sanitize(value) + b && Separators(a) && Separators(b)
  {
    InTheMiddle(value, |local|, i, j);
    var m := local[i..];
    PartsAroundAt(value, local, domain, i, j);
    a, b := WrittenBeforeAt(value, m, value[|local| + 1..j]);
    SpacesAreSeparators(local[..i]);
    WrittenAppends(local[..i], m);
    Regroup(WrittenAll(local[..i]), a, Sanitize(value), b, "");
    a := WrittenAll(local[..i]) + a;
  }

  lemma PartsAroundAt(value: string, local: string, domain: string, i: nat, j: nat)
    requires '@' !in local && value == local + "@" + domain && i <= |local| < j <= |value|
    ensures value[i..j] == local[i..] + "@" + value[|local| + 1..j]
    ensures value[..i] == local[..i] && local == local[..i] + local[i..] && '@' !in local[i..]
  {}

  lemma WrittenBeforeAt(value: string, m: string, d: string) returns (a: string, b: string)
    requires '@' !in m && TrimSpace(Lower(value)) == Lower(m + "@" + d)
    ensures WrittenAll(m) == a + Sanitize(value) + b && Separators(a) && Separators(b)
  {
    CutsAtFirst(m, d);
    NoAt(m);
    KeptIsWritten(m);
    a, b := TrimmedBetween(WrittenAll(m));
  }

  lemma InTheMiddle(s: string, n: nat, i: nat, j: nat)
    requires i <= j <= |s| && n < |s| && !IsSpace(s[n]) && AllSpaces(s[..i]) && AllSpaces(s[j..])
    ensures i <= n < j
  {
    assert forall k :: 0 <= k < i ==> s[..i][k] == s[k];
    assert forall k :: j <= k < |s| ==> s[j..][k - j] == s[k];
  }

  lemma Regroup(before: string, a: string, r: string, b: string, after: string)
    ensures before + (a + r + b) + after == (before + a) + r + (b + after)
    ensures before + (a + r + b) == (before + a) + r + b
  {}

  lemma SpacesOf(value: string, i: nat, j: nat)
    requires i <= j <= |value| && AllSpaces(Lower(value)[i..j])
    ensures AllSpaces(value[i..j])
  {
    LowerKeepsSpace(value);
    forall k | 0 <= k < j - i ensures IsSpace(value[i..j][k]) {
      assert IsSpace(Lower(value)[i..j][k]);
    }
  }

  lemma {:induction false} CleanIsWritten(name: string)
    requires forall i :: 0 <= i < |name| ==> NameChar(LowerChar(name[i])) && name[i] != ' '
    ensures WrittenAll(name) == Lower(name)
  {
    if name != "" {
      assert Lower(name) == [LowerChar(name[0])] + Lower(name[1..]);
      CleanIsWritten(name[1..]);
    }
  }

  lemma NothingToCut(written: string, a: string, r: string, b: string)
    requires CleanName(written) && written == a + r + b && Separators(a) && Separators(b) && CleanName(r)
    ensures r == written
  {
    EndsOf(a, r, b);
  }

  lemma EndsOf(a: string, r: string, b: string)
    ensures a != "" ==> a + r + b != "" && (a + r + b)[0] == a[0]
    ensures b != "" ==> a + r + b != "" && (a + r + b)[|a + r + b| - 1] == b[|b| - 1]
  {}

  /** A local part that is a clean name in some case is the account name, in lower case and whatever the domain. */
  lemma LocalPartIsTheName(local: string, domain: string)
    requires CleanName(Lower(local))
    ensures Sanitize(local + "@" + domain) == Sanitize(local) == Lower(local)
  {
    forall i | 0 <= i < |local| ensures NameChar(LowerChar(local[i])) && local[i] != ' ' && local[i] != '@' {
      assert NameChar(Lower(local)[i]);
    }
    CleanIsWritten(local);
    var a, b := SanitizeExact(local, local, domain);
    NothingToCut(Lower(local), a, Sanitize(local), b);
    a, b := SanitizeExact(local + "@" + domain, local, domain);
    NothingToCut(Lower(local), a, Sanitize(local + "@" + domain), b);
  }

  /** Two sign-in names with such local parts stand for one account name only when these differ in case at most. */
  lemma NamesDoNotMix(local: string, domain: string, other: string, elsewhere: string)
    requires CleanName(Lower(local)) && CleanName(Lower(other))
    ensures Sanitize(local + "@" + domain) == Sanitize(other + "@" + elsewhere) <==> SameLetters(local, other)
  {
    LocalPartIsTheName(local, domain);
    LocalPartIsTheName(other, elsewhere);
    LowerFolds(local, other);
  }

  // ---- Choosing a free name ----

  /** k is the first number from i on whose form of the name is free. */
  ghost predicate FirstFree(users: Users, base: string, i: nat, k: nat) {
    && i <= k && !NameTaken(users, base + "-" + Digits(k), {})
    && forall j: nat :: i <= j < k ==> NameTaken(users, base + "-" + Digits(j), {})
  }

  lemma {:induction false} FreeNumberedExact(users: Users, base: string, i: nat, now: nat) returns (k: nat)
    requires i <= 1000
    ensures i <= k <= 1000 && forall j: nat :: i <= j < k ==> NameTaken(users, base + "-" + Digits(j), {})
    ensures k < 1000 ==> FirstFree(users, base, i, k)
    ensures FreeNumbered(users, base, i, now) == base + "-" + Digits(if k < 1000 then k else now)
    decreases 1000 - i
  {
    if i < 1000 && NameTaken(users, base + "-" + Digits(i), {}) {
      k := FreeNumberedExact(users, base, i + 1, now);
    } else {
      k := i;
    }
  }

  /**
   * A new account gets the name itself when it is free, else its first free form from 2 to 999; with all of
   * these taken it carries the time.
   */
  lemma UniqueUsernameExact(users: Users, base: string, now: nat) returns (k: nat)
    ensures !NameTaken(users, base, {}) ==> UniqueUsername(users, base, now) == base
    ensures NameTaken(users, base, {}) ==>
      && UniqueUsername(users, base, now) == base + "-" + Digits(if k < 1000 then k else now)
      && (if k < 1000 then FirstFree(users, base, 2, k)
          else forall j: nat :: 2 <= j < 1000 ==> NameTaken(users, base + "-" + Digits(j), {}))
  {
    k := FreeNumberedExact(users, base, 2, now);
  }
}
