/**
 * The path policy of the try-it proxy (backend/internal/proxy/service.go).
 *
 * Strings are byte strings: one char for each byte.
 */
module ProxyPath {
  import opened Strings

  // ---- Percent-encoding and segments ----

  predicate IsHex(c: char) {
    IsDigit(c) || 'a' <= c <= 'f' || 'A' <= c <= 'F'
  }

  function HexValue(c: char): (n: nat)
    requires IsHex(c)
    ensures n < 16
  {
    if IsDigit(c) then c as int - '0' as int
    else if 'a' <= c <= 'f' then c as int - 'a' as int + 10
    else c as int - 'A' as int + 10
  }

  /** The byte a percent-escape stands for. */
  function Byte(high: char, low: char): char
    requires IsHex(high) && IsHex(low)
  {
    (16 * HexValue(high) + HexValue(low)) as char
  }

  predicate EscapeAt(s: string) {
    |s| >= 3 && s[0] == '%' && IsHex(s[1]) && IsHex(s[2])
  }

  /** url.PathUnescape. */
  function Unescape(s: string): Option<string> {
    if s == "" then Some("")
    else if s[0] == '%' then
      if !EscapeAt(s) || Unescape(s[3..]).None? then None
      else Some([Byte(s[1], s[2])] + Unescape(s[3..]).value)
    else if Unescape(s[1..]).None? then None
    else Some([s[0]] + Unescape(s[1..]).value)
  }

  /** strings.Split(s, "/"). */
  function Split(s: string): (r: seq<string>)
    ensures r != [] && forall seg :: seg in r ==> '/' !in seg
  {
    if s == "" then [""]
    else
      var rest := Split(s[1..]);
      assert forall k :: 0 <= k < |rest| ==> rest[k] in rest;
      if s[0] == '/' then [""] + rest else [[s[0]] + rest[0]] + rest[1..]
  }

  function TrimSlash(s: string): string {
    if s != "" && s[|s| - 1] == '/' then s[..|s| - 1] else s
  }

  predicate Contains(s: string, part: string) {
    exists i :: 0 <= i <= |s| - |part| && s[i..][..|part|] == part
  }

  predicate Control(c: char) {
    c as int < 0x20 || c as int == 0x7f
  }

  predicate DotSegment(seg: string) {
    seg == "." || seg == ".."
  }

  /** The path as sent and its decoded form; None when the policy refuses it. */
  function ParseRequestPath(raw: string): Option<(string, string)> {
    var trimmed := TrimSpace(raw);
    var escaped := if StartsWith(trimmed, "/") then trimmed else "/" + trimmed;
    if trimmed == "" then None
    else if '?' in escaped || '#' in escaped then None
    else if Unescape(escaped).None? then None
    else
      var decoded := Unescape(escaped).value;
      if '\\' in decoded || Contains(decoded, "//") then None
      else if exists seg :: seg in Split(decoded) && DotSegment(seg) then None
      else if exists c :: c in decoded && Control(c) then None
      else Some((escaped, decoded))
  }

  // ---- Accepted paths are normal ----

  /** Section 5.2.4 of RFC 3986, with its input and output buffers. */
  function RemoveDotSegments(input: string, output: string): string
    decreases |input|
  {
    if input == "" then output
    else if StartsWith(input, "../") then RemoveDotSegments(input[3..], output)
    else if StartsWith(input, "./") then RemoveDotSegments(input[2..], output)
    else if StartsWith(input, "/./") then RemoveDotSegments(input[2..], output)
    else if input == "/." then RemoveDotSegments("/", output)
    else if StartsWith(input, "/../") then RemoveDotSegments(input[3..], WithoutLast(output))
    else if input == "/.." then RemoveDotSegments("/", WithoutLast(output))
    else if DotSegment(input) then RemoveDotSegments("", output)
    else
      var n := SegmentEnd(input, 1);
      RemoveDotSegments(input[n..], output + input[..n])
  }

  /** The output without its last segment and the slash before it. */
  function WithoutLast(output: string): string {
    if output == "" || output[|output| - 1] == '/' then TrimSlash(output) else WithoutLast(output[..|output| - 1])
  }

  /** Where the first slash from position i on stands, or the end. */
  function SegmentEnd(s: string, i: nat): (n: nat)
    requires i <= |s|
    ensures i <= n <= |s| && (n < |s| ==> s[n] == '/') && forall k :: i <= k < n ==> s[k] != '/'
    decreases |s| - i
  {
    if i == |s| || s[i] == '/' then i else SegmentEnd(s, i + 1)
  }

  /** s starts with a complete dot segment. */
  predicate DotsFirst(s: string) {
    DotSegment(s) || StartsWith(s, "./") || StartsWith(s, "../")
  }

  /** No slash of s is followed by a dot segment. */
  ghost predicate DotFree(s: string) {
    forall i :: 0 <= i < |s| && s[i] == '/' ==> !DotsFirst(s[i + 1..])
  }

  lemma RestIsDotFree(input: string, n: nat)
    requires DotFree(input) && n <= |input|
    ensures DotFree(input[n..])
  {
    var rest := input[n..];
    forall i | 0 <= i < |rest| && rest[i] == '/' ensures !DotsFirst(rest[i + 1..]) {
      assert input[n + i] == '/' && rest[i + 1..] == input[n + i + 1..];
    }
  }

  /** A path without dot segments passes its first segment on as it is. */
  lemma FirstSegmentStays(input: string, output: string)
    requires DotFree(input) && input != "" && input[0] == '/'
    ensures var n := SegmentEnd(input, 1);
      RemoveDotSegments(input, output) == RemoveDotSegments(input[n..], output + input[..n])
  {
    assert !DotsFirst(input[1..]);
    NoDotPrefix(input);
  }

  lemma {:induction false} DotFreeStays(input: string, output: string)
    requires DotFree(input) && (input == "" || input[0] == '/')
    ensures RemoveDotSegments(input, output) == output + input
    decreases |input|
  {
    if input != "" {
      var n := SegmentEnd(input, 1);
      RestIsDotFree(input, n);
      FirstSegmentStays(input, output);
      DotFreeStays(input[n..], output + input[..n]);
      CutRejoins(output, input, n);
    }
  }

  lemma CutRejoins(before: string, s: string, n: nat)
    requires n <= |s|
    ensures before + s[..n] + s[n..] == before + s
  {}

  lemma Extends(c: char, s: string, part: string)
    ensures StartsWith([c] + s, [c] + part) <==> StartsWith(s, part)
  {
    assert ([c] + s)[1..] == s && ([c] + part)[1..] == part;
    assert |part| <= |s| ==> ([c] + s)[..|part| + 1] == [c] + s[..|part|];
  }

  lemma StartsAlike(s: string, part: string)
    requires s != "" && part != ""
    ensures StartsWith(s, part) ==> s[0] == part[0]
  {
    assert |part| <= |s| ==> s[..|part|][0] == s[0];
  }

  lemma NoDotPrefix(input: string)
    requires input != "" && input[0] == '/' && !DotsFirst(input[1..])
    ensures !StartsWith(input, "../") && !StartsWith(input, "./") && !StartsWith(input, "/./") && input != "/."
    ensures !StartsWith(input, "/../") && input != "/.." && !DotSegment(input)
  {
    var t := input[1..];
    assert input == ['/'] + t;
    Extends('/', t, "./");
    Extends('/', t, "../");
    assert ['/'] + "./" == "/./" && ['/'] + "../" == "/../";
    assert ("/.")[1..] == "." && ("/..")[1..] == "..";
    StartsAlike(input, "./");
    StartsAlike(input, "../");
  }

  /** Splitting starts with the text up to the first slash. */
  lemma {:induction false} SplitAtSlash(seg: string, rest: string)
    requires '/' !in seg
    ensures Split(seg) == [seg] && Split(seg + "/" + rest) == [seg] + Split(rest)
  {
    var s := seg + "/" + rest;
    if seg == "" {
      assert s[0] == '/' && s[1..] == rest;
    } else {
      assert s[0] == seg[0] && s[1..] == seg[1..] + "/" + rest;
      SplitAtSlash(seg[1..], rest);
      assert [seg[0]] + seg[1..] == seg;
    }
  }

  lemma {:induction false} SegmentsAfterSlash(s: string, i: nat)
    requires i < |s| && s[i] == '/'
    ensures forall seg :: seg in Split(s[i + 1..]) ==> seg in Split(s)
  {
    var tail := Split(s[1..]);
    assert forall k :: 1 <= k < |Split(s)| ==> Split(s)[k] in Split(s);
    if i == 0 {
      assert Split(s) == [""] + tail;
    } else if s[0] == '/' {
      SegmentsAfterSlash(s[1..], i - 1);
      assert s[1..][i..] == s[i + 1..];
      assert Split(s) == [""] + tail;
    } else {
      var n := SegmentEnd(s, 0);
      assert s == s[..n] + "/" + s[n + 1..];
      SplitAtSlash(s[..n], s[n + 1..]);
      if n < i {
        SegmentsAfterSlash(s[n + 1..], i - n - 1);
        assert s[n + 1..][i - n..] == s[i + 1..];
      }
      assert Split(s) == [s[..n]] + Split(s[n + 1..]);
    }
  }

  lemma FirstSegment(s: string)
    requires DotsFirst(s)
    ensures exists seg :: seg in Split(s) && DotSegment(seg)
  {
    if DotSegment(s) {
      SplitAtSlash(s, "");
      assert s in Split(s);
    } else {
      var seg := if StartsWith(s, "./") then "." else "..";
      assert s == seg + "/" + s[|seg| + 1..];
      SplitAtSlash(seg, s[|seg| + 1..]);
      assert seg in Split(s);
    }
  }

  /** A text none of whose segments is a dot segment is free of them after every slash. */
  lemma NoDotSegments(s: string)
    requires forall seg :: seg in Split(s) ==> !DotSegment(seg)
    ensures DotFree(s)
  {
    forall i | 0 <= i < |s| && s[i] == '/' ensures !DotsFirst(s[i + 1..]) {
      SegmentsAfterSlash(s, i);
      if DotsFirst(s[i + 1..]) {
        FirstSegment(s[i + 1..]);
      }
    }
  }

  /** Decoding goes segment by segment: a literal slash is never part of an escape. */
  lemma {:induction false} UnescapeSplits(a: string, b: string)
    requires Unescape(a + "/" + b).Some?
    ensures Unescape(a).Some? && Unescape(b).Some?
    ensures Unescape(a + "/" + b).value == Unescape(a).value + "/" + Unescape(b).value
  {
    var s := a + "/" + b;
    assert s[|a|] == '/';
    if a == "" {
      assert s[1..] == b;
    } else if s[0] == '%' {
      assert IsHex(s[1]) && IsHex(s[2]) && !IsHex('/');
      assert |a| != 1 && |a| != 2;
      assert s[3..] == a[3..] + "/" + b;
      UnescapeSplits(a[3..], b);
    } else {
      assert s[1..] == a[1..] + "/" + b;
      UnescapeSplits(a[1..], b);
    }
  }

  lemma {:induction false} PlainDecodes(s: string)
    requires '%' !in s
    ensures Unescape(s) == Some(s)
  {
    if s != "" {
      PlainDecodes(s[1..]);
      assert s == [s[0]] + s[1..];
    }
  }

  lemma DotsDecode(s: string)
    requires DotsFirst(s) && Unescape(s).Some?
    ensures DotsFirst(Unescape(s).value)
  {
    if DotSegment(s) {
      PlainDecodes(s);
    } else {
      var seg := if StartsWith(s, "./") then "." else "..";
      assert "./" == "." + "/" && "../" == ".." + "/";
      DotsDecodeAt(s, seg);
    }
  }

  lemma DotsDecodeAt(s: string, seg: string)
    requires DotSegment(seg) && StartsWith(s, seg + "/") && Unescape(s).Some?
    ensures StartsWith(Unescape(s).value, seg + "/") && DotsFirst(Unescape(s).value)
  {
    var rest := s[|seg| + 1..];
    assert s[..|seg| + 1] == seg + "/";
    assert s == s[..|seg| + 1] + rest;
    UnescapeSplits(seg, rest);
    PlainDecodes(seg);
    var decoded := Unescape(s).value;
    assert decoded == seg + "/" + Unescape(rest).value;
    assert decoded[..|seg| + 1] == seg + "/";
  }

  lemma SplitsAt(s: string, i: nat)
    requires i < |s| && s[i] == '/'
    ensures s == s[..i] + "/" + s[i + 1..]
  {
    assert s == s[..i] + [s[i]] + s[i + 1..];
    assert [s[i]] == "/";
  }

  /** Decoding hides no dot segment of the escaped form. */
  lemma EscapedIsDotFree(escaped: string, decoded: string)
    requires Unescape(escaped) == Some(decoded) && DotFree(decoded)
    ensures DotFree(escaped)
  {
    forall i | 0 <= i < |escaped| && escaped[i] == '/' ensures !DotsFirst(escaped[i + 1..]) {
      var a, b := escaped[..i], escaped[i + 1..];
      SplitsAt(escaped, i);
      UnescapeSplits(a, b);
      var at := |Unescape(a).value|;
      assert decoded[at] == '/' && decoded[at + 1..] == Unescape(b).value;
      if DotsFirst(b) {
        DotsDecode(b);
      }
    }
  }

  /** Removing dot segments changes neither form of an accepted path. */
  lemma AcceptedPathsAreNormal(raw: string)
    requires ParseRequestPath(raw).Some?
    ensures var (escaped, decoded) := ParseRequestPath(raw).value;
      && escaped[0] == '/' && decoded[0] == '/' && Unescape(escaped) == Some(decoded)
      && RemoveDotSegments(escaped, "") == escaped
      && RemoveDotSegments(decoded, "") == decoded
  {
    var (escaped, decoded) := ParseRequestPath(raw).value;
    assert escaped[0] == '/' && decoded[0] == '/';
    NoDotSegments(decoded);
    EscapedIsDotFree(escaped, decoded);
    DotFreeStays(escaped, "");
    DotFreeStays(decoded, "");
    assert "" + escaped == escaped && "" + decoded == decoded;
  }

  /** An accepted path has no empty segment but possibly its last, no dot segment, no backslash and no control byte. */
  lemma AcceptedSegments(raw: string, k: nat)
    requires ParseRequestPath(raw).Some?
    requires k < |Segments(ParseRequestPath(raw).value.1)|
    ensures var decoded := ParseRequestPath(raw).value.1;
      var seg := Segments(decoded)[k];
      && !DotSegment(seg) && (seg == "" ==> k == |Segments(decoded)| - 1)
      && forall c :: c in decoded ==> c != '\\' && !Control(c)
  {
    var (escaped, decoded) := ParseRequestPath(raw).value;
    AcceptedPathsAreNormal(raw);
    assert Segments(decoded)[k] == Split(decoded)[k + 1] && Split(decoded)[k + 1] in Split(decoded);
    if Split(decoded)[k + 1] == "" {
      InnerSegmentsNonempty(decoded, k + 1);
    }
  }

  /** Every percent sign is followed by two hexadecimal digits. */
  ghost predicate WellEscaped(s: string) {
    forall i :: 0 <= i < |s| && s[i] == '%' ==> i + 2 < |s| && IsHex(s[i + 1]) && IsHex(s[i + 2])
  }

  /** Exactly the well-escaped texts can be decoded. */
  lemma {:induction false} DecodableExact(s: string)
    ensures Unescape(s).Some? <==> WellEscaped(s)
  {
    if s != "" {
      var k := if s[0] == '%' && EscapeAt(s) then 3 else 1;
      DecodableExact(s[k..]);
      WellEscapedTail(s, k);
    }
  }

  lemma WellEscapedTail(s: string, k: nat)
    requires s != "" && k == if s[0] == '%' && EscapeAt(s) then 3 else 1
    ensures WellEscaped(s) <==> (s[0] == '%' ==> EscapeAt(s)) && WellEscaped(s[k..])
  {
    var rest := s[k..];
    assert forall i :: 0 <= i < |rest| ==> rest[i] == s[k + i];
    assert forall i :: k <= i < |s| ==> s[i] == rest[i - k];
    assert k == 3 ==> s[1] != '%' && s[2] != '%';
  }

  /** No two slashes follow each other, said of the segments: only the first and the last can be empty. */
  ghost predicate InnerSegmentsFilled(s: string) {
    forall k :: 0 < k < |Split(s)| - 1 ==> Split(s)[k] != ""
  }

  lemma DoubleSlashExact(s: string)
    ensures Contains(s, "//") <==> !InnerSegmentsFilled(s)
  {
    if Contains(s, "//") {
      EmptySegment(s);
    } else {
      forall k | 0 < k < |Split(s)| - 1 ensures Split(s)[k] != "" {
        if Split(s)[k] == "" {
          InnerSegmentsNonempty(s, k);
        }
      }
    }
  }

  lemma {:induction false} EmptySegment(s: string)
    requires Contains(s, "//")
    ensures !InnerSegmentsFilled(s)
  {
    var i :| 0 <= i <= |s| - 2 && s[i..][..2] == "//";
    assert s[i] == s[i..][..2][0] == '/' && s[i + 1] == s[i..][..2][1] == '/';
    if i == 0 {
      assert Split(s) == [""] + Split(s[1..]) && Split(s[1..]) == [""] + Split(s[2..]);
      assert Split(s)[1] == "";
    } else {
      assert s[1..][i - 1..] == s[i..];
      EmptySegment(s[1..]);
      var k :| 0 < k < |Split(s[1..])| - 1 && Split(s[1..])[k] == "";
      if s[0] == '/' {
        assert Split(s)[k + 1] == "";
      } else {
        assert Split(s)[k] == "";
      }
    }
  }

  /** No dot segment, no empty segment inside, no backslash and no control byte. */
  ghost predicate Harmless(decoded: string) {
    && InnerSegmentsFilled(decoded) && (forall seg :: seg in Split(decoded) ==> seg != "." && seg != "..")
    && forall c :: c in decoded ==> c != '\\' && c as int >= 0x20 && c as int != 0x7f
  }

  lemma HarmlessExact(decoded: string)
    ensures Harmless(decoded) <==>
      && '\\' !in decoded && !Contains(decoded, "//")
      && !(exists seg :: seg in Split(decoded) && DotSegment(seg)) && !(exists c :: c in decoded && Control(c))
  {
    DoubleSlashExact(decoded);
    NoDotsExact(Split(decoded));
    NoControlExact(decoded);
  }

  lemma NoDotsExact(segs: seq<string>)
    ensures (forall seg :: seg in segs ==> seg != "." && seg != "..") <==>
      !(exists seg :: seg in segs && DotSegment(seg))
  {
    if !(exists seg :: seg in segs && DotSegment(seg)) {
      forall seg | seg in segs ensures seg != "." && seg != ".." {
        assert !DotSegment(seg);
      }
    }
  }

  lemma NoControlExact(s: string)
    ensures (forall c :: c in s ==> c != '\\' && c as int >= 0x20 && c as int != 0x7f) <==>
      '\\' !in s && !(exists c :: c in s && Control(c))
  {
    if '\\' !in s && !(exists c :: c in s && Control(c)) {
      forall c | c in s ensures c != '\\' && c as int >= 0x20 && c as int != 0x7f {
        assert !Control(c);
      }
    }
  }

  /**
   * The path policy: a path that is not blank is accepted exactly when, with a slash before it, it has no
   * query and no fragment, is well escaped, and decodes to a harmless path.
   */
  lemma AcceptedExactly(raw: string, escaped: string, decoded: string)
    ensures ParseRequestPath(raw) == Some((escaped, decoded)) <==>
      && TrimSpace(raw) != ""
      && escaped == (if TrimSpace(raw)[0] == '/' then TrimSpace(raw) else "/" + TrimSpace(raw))
      && '?' !in escaped && '#' !in escaped
      && WellEscaped(escaped) && Unescape(escaped) == Some(decoded) && Harmless(decoded)
  {
    DecodableExact(escaped);
    HarmlessExact(decoded);
    if TrimSpace(raw) != "" {
      StartsWithSlash(TrimSpace(raw));
    }
  }

  lemma StartsWithSlash(s: string)
    requires s != ""
    ensures StartsWith(s, "/") <==> s[0] == '/'
  {
    assert s[..1] == [s[0]];
  }

  /** Without "//" only the first and the last segment can be empty. */
  lemma {:induction false} InnerSegmentsNonempty(s: string, k: nat)
    requires !Contains(s, "//") && 0 < k < |Split(s)| && Split(s)[k] == ""
    ensures k == |Split(s)| - 1
    decreases |s|
  {
    var n := SegmentEnd(s, 0);
    SplitFirst(s);
    if n < |s| {
      var rest := s[n + 1..];
      assert Split(s)[k] == Split(rest)[k - 1];
      TailContains(s, n + 1);
      if k == 1 {
        var m := SegmentEnd(rest, 0);
        SplitFirst(rest);
        assert rest[..m] == "" && m == 0;
        if rest != "" {
          DoubleSlash(s, n);
        }
      } else {
        InnerSegmentsNonempty(rest, k - 1);
      }
    }
  }

  lemma TailContains(s: string, n: nat)
    requires n <= |s|
    ensures Contains(s[n..], "//") ==> Contains(s, "//")
  {
    var rest := s[n..];
    if i :| 0 <= i <= |rest| - 2 && rest[i..][..2] == "//" {
      assert s[n + i..][..2] == rest[i..][..2];
    }
  }

  lemma DoubleSlash(s: string, n: nat)
    requires n + 1 < |s| && s[n] == '/' && s[n + 1] == '/'
    ensures Contains(s, "//")
  {
    assert s[n..][..2] == "//";
  }

  function HexDigit(n: nat): (c: char)
    requires n < 16
    ensures IsHex(c) && HexValue(c) == n
  {
    if n < 10 then (n + '0' as int) as char else (n - 10 + 'A' as int) as char
  }

  /** Every byte percent-encoded. */
  function Encode(bytes: string): string
    requires forall c :: c in bytes ==> c as int < 256
  {
    if bytes == "" then ""
    else
      assert forall c :: c in bytes[1..] ==> c in bytes;
      assert bytes[0] in bytes;
      ['%', HexDigit(bytes[0] as int / 16), HexDigit(bytes[0] as int % 16)] + Encode(bytes[1..])
  }

  /** Decoding undoes encoding, for every byte string. */
  lemma {:induction false} EncodedDecodes(bytes: string)
    requires forall c :: c in bytes ==> c as int < 256
    ensures Unescape(Encode(bytes)) == Some(bytes)
  {
    if bytes != "" {
      assert forall c :: c in bytes[1..] ==> c in bytes;
      assert bytes[0] in bytes;
      EncodedDecodes(bytes[1..]);
      var e := Encode(bytes);
      assert e[3..] == Encode(bytes[1..]);
      assert Byte(e[1], e[2]) == bytes[0];
      assert bytes == [bytes[0]] + bytes[1..];
    }
  }

  // ---- Allowed prefixes ----

  function CleanSegments(segs: seq<string>, out: seq<string>): (r: seq<string>)
    requires forall seg :: seg in out ==> Plain(seg)
    requires forall seg :: seg in segs ==> '/' !in seg
    ensures forall seg :: seg in r ==> Plain(seg)
    decreases |segs|
  {
    if segs == [] then out
    else
      assert forall k :: 0 <= k < |out| ==> out[k] in out;
      var seg, rest := segs[0], segs[1..];
      if seg == "" || seg == "." then CleanSegments(rest, out)
      else if seg == ".." then CleanSegments(rest, if out == [] then out else out[..|out| - 1])
      else CleanSegments(rest, out + [seg])
  }

  /** A segment that names something. */
  predicate Plain(seg: string) {
    seg != "" && !DotSegment(seg) && '/' !in seg
  }

  lemma {:induction false} CleanAppends(a: seq<string>, b: seq<string>, out: seq<string>)
    requires (forall seg :: seg in out ==> Plain(seg)) && forall seg :: seg in a + b ==> '/' !in seg
    ensures (forall seg :: seg in a ==> '/' !in seg) && (forall seg :: seg in b ==> '/' !in seg)
    ensures CleanSegments(a + b, out) == CleanSegments(b, CleanSegments(a, out))
    decreases |a|
  {
    assert forall seg :: seg in a ==> seg in a + b;
    assert forall seg :: seg in b ==> seg in a + b;
    if a == [] {
      assert a + b == b;
    } else {
      assert (a + b)[1..] == a[1..] + b && (a + b)[0] == a[0] && a[0] in a;
      assert forall seg :: seg in a[1..] + b ==> seg in a + b;
      assert forall k :: 0 <= k < |out| ==> out[k] in out;
      CleanAppends(a[1..], b, if a[0] == "" || a[0] == "." then out
                              else if a[0] == ".." then (if out == [] then out else out[..|out| - 1])
                                else out + [a[0]]);
    }
  }

  lemma {:induction false} PlainSegmentsStay(segs: seq<string>, out: seq<string>)
    requires forall seg :: seg in out + segs ==> Plain(seg)
    ensures (forall seg :: seg in out ==> Plain(seg)) && (forall seg :: seg in segs ==> '/' !in seg)
    ensures CleanSegments(segs, out) == out + segs
    decreases |segs|
  {
    assert forall seg :: seg in out ==> seg in out + segs;
    assert forall seg :: seg in segs ==> seg in out + segs;
    if segs == [] {
      assert out + segs == out;
    } else {
      assert segs[0] in segs;
      assert (out + [segs[0]]) + segs[1..] == out + segs;
      PlainSegmentsStay(segs[1..], out + [segs[0]]);
    }
  }

  /** What cleaning means, first: empty segments and "." go. */
  lemma BlankSegmentsGo(a: seq<string>, x: string, b: seq<string>)
    requires (x == "" || x == ".") && (forall seg :: seg in a ==> '/' !in seg)
      && (forall seg :: seg in b ==> '/' !in seg)
    ensures (forall seg :: seg in a + [x] + b ==> '/' !in seg) && (forall seg :: seg in a + b ==> '/' !in seg)
    ensures CleanSegments(a + [x] + b, []) == CleanSegments(a + b, [])
  {
    CleanAppends(a, b, []);
    CleanAppends(a, [x] + b, []);
    assert a + ([x] + b) == a + [x] + b;
    OneDropped(x, b, CleanSegments(a, []));
  }

  /** Second: ".." goes together with the plain segment before it. */
  lemma ParentsGo(a: seq<string>, x: string, b: seq<string>)
    requires Plain(x) && (forall seg :: seg in a ==> '/' !in seg) && (forall seg :: seg in b ==> '/' !in seg)
    ensures (forall seg :: seg in a + [x, ".."] + b ==> '/' !in seg) && (forall seg :: seg in a + b ==> '/' !in seg)
    ensures CleanSegments(a + [x, ".."] + b, []) == CleanSegments(a + b, [])
  {
    CleanAppends(a, b, []);
    CleanAppends(a, [x, ".."] + b, []);
    assert a + ([x, ".."] + b) == a + [x, ".."] + b;
    OneDropped(x, b, CleanSegments(a, []));
  }

  /** Third: ".." at the start goes; and a path of plain segments only is clean already. */
  lemma TopHasNoParent(segs: seq<string>)
    requires forall seg :: seg in segs ==> '/' !in seg
    ensures (forall seg :: seg in [".."] + segs ==> '/' !in seg)
      && CleanSegments([".."] + segs, []) == CleanSegments(segs, [])
    ensures (forall seg :: seg in segs ==> Plain(seg)) ==> CleanSegments(segs, []) == segs
  {
    assert ([".."] + segs)[1..] == segs;
    assert [] + segs == segs;
    if forall seg :: seg in segs ==> Plain(seg) {
      PlainSegmentsStay(segs, []);
    }
  }

  lemma OneDropped(x: string, b: seq<string>, out: seq<string>)
    requires (forall seg :: seg in out ==> Plain(seg)) && (forall seg :: seg in b ==> '/' !in seg) && '/' !in x
    ensures x == "" || x == "." ==> CleanSegments([x] + b, out) == CleanSegments(b, out)
    ensures Plain(x) ==> CleanSegments([x, ".."] + b, out) == CleanSegments(b, out)
  {
    assert ([x] + b)[1..] == b;
    var two := [x, ".."] + b;
    assert two[1..] == [".."] + b && two[1..][1..] == b;
    assert (out + [x])[..|out + [x]| - 1] == out;
  }

  function Join(segs: seq<string>): string {
    if segs == [] then "" else if |segs| == 1 then segs[0] else segs[0] + "/" + Join(segs[1..])
  }

  /** The segments path.Clean leaves of a prefix made absolute. */
  function PrefixSegments(prefix: string): seq<string> {
    CleanSegments(Split("/" + TrimSpace(prefix)), [])
  }

  function NormalizePath(prefix: string): string {
    if TrimSpace(prefix) == "" then "" else "/" + Join(PrefixSegments(prefix))
  }

  predicate MatchesOne(path: string, normalized: string) {
    normalized != "" && (normalized == "/" || path == normalized || StartsWith(path, normalized + "/"))
  }

  predicate MatchesPrefix(path: string, prefixes: seq<string>) {
    if prefixes == [] then false
    else MatchesOne(path, NormalizePath(prefixes[0])) || MatchesPrefix(path, prefixes[1..])
  }

  /** Tries one prefix after the other, skipping blank ones. */
  method IsAllowed(path: string, prefixes: seq<string>) returns (allowed: bool)
    ensures allowed <==> MatchesPrefix(path, prefixes)
  {
    assert prefixes[0..] == prefixes;
    for i := 0 to |prefixes|
      invariant MatchesPrefix(path, prefixes) <==> MatchesPrefix(path, prefixes[i..])
    {
      assert prefixes[i..][1..] == prefixes[i + 1..];
      var normalized := NormalizePath(prefixes[i]);
      if normalized == "" {
        continue;
      }
      if normalized == "/" || path == normalized || StartsWith(path, normalized + "/") {
        return true;
      }
    }
    allowed := false;
  }

  /** The segments of a path, without the empty one before its leading slash. */
  function Segments(path: string): seq<string> {
    Split(path)[1..]
  }

  /** p is the joined segments, or continues them after a slash. */
  predicate Continues(p: string, segs: seq<string>) {
    p == Join(segs) || StartsWith(p, Join(segs) + "/")
  }

  lemma SplitWhole(p: string)
    requires '/' !in p
    ensures Split(p) == [p]
  {
    SplitAtSlash(p, "");
  }

  lemma SplitAtIndex(p: string, n: nat)
    requires n < |p| && p[n] == '/' && '/' !in p[..n]
    ensures Split(p) == [p[..n]] + Split(p[n + 1..])
  {
    assert p == p[..n] + "/" + p[n + 1..];
    SplitAtSlash(p[..n], p[n + 1..]);
  }

  lemma SplitFirst(p: string)
    ensures var n := SegmentEnd(p, 0);
      Split(p) == if n == |p| then [p] else [p[..n]] + Split(p[n + 1..])
  {
    if SegmentEnd(p, 0) == |p| {
      SplitWhole(p);
    } else {
      SplitAtIndex(p, SegmentEnd(p, 0));
    }
  }

  lemma {:induction false} ContinuesIsPrefix(p: string, segs: seq<string>)
    requires segs != [] && forall seg :: seg in segs ==> Plain(seg)
    ensures Continues(p, segs) <==> segs <= Split(p)
    decreases |segs|
  {
    var first, rest := segs[0], segs[1..];
    var n := SegmentEnd(p, 0);
    SplitFirst(p);
    assert segs == [first] + rest && forall seg :: seg in rest ==> seg in segs;
    assert first in segs && Plain(first);
    HeadIsFirst(p, first);
    if rest == [] {
      assert Join(segs) == first;
    } else {
      var joined := first + "/" + Join(rest);
      assert Join(segs) == joined;
      ContinuesHead(p, first, Join(rest));
      if p[..n] == first && n < |p| {
        var after := p[n + 1..];
        assert p == first + "/" + after;
        ContinuesIsPrefix(after, rest);
        Prepend(first, after, Join(rest));
        assert segs <= Split(p) <==> rest <= Split(after);
      }
    }
  }

  lemma ContinuesHead(p: string, first: string, tail: string)
    requires '/' !in first
    ensures p == first + "/" + tail || StartsWith(p, first + "/" + tail + "/") ==>
      SegmentEnd(p, 0) == |first| < |p| && p[..|first|] == first
  {
    var joined := first + "/" + tail;
    if p == joined || StartsWith(p, joined + "/") {
      assert p[..|joined|] == joined by {
        assert (joined + "/")[..|joined|] == joined;
        assert StartsWith(p, joined + "/") ==> p[..|joined|] == p[..|joined| + 1][..|joined|];
      }
      assert p[..|first| + 1] == p[..|joined|][..|first| + 1] == joined[..|first| + 1] == first + "/";
      HeadMeans(p, first);
    }
  }

  lemma Prepend(first: string, after: string, tail: string)
    ensures first + "/" + after == first + "/" + tail <==> after == tail
    ensures StartsWith(first + "/" + after, first + "/" + tail + "/") <==> StartsWith(after, tail + "/")
  {
    var p, q := first + "/" + after, first + "/" + tail + "/";
    assert p[|first| + 1..] == after && (first + "/" + tail)[|first| + 1..] == tail;
    assert |q| <= |p| ==> p[..|q|] == first + "/" + after[..|q| - |first| - 1];
    assert q == first + "/" + (tail + "/");
    assert q[|first| + 1..] == tail + "/";
  }

  lemma HeadMeans(p: string, first: string)
    requires '/' !in first && |p| > |first| && p[..|first| + 1] == first + "/"
    ensures SegmentEnd(p, 0) == |first| && p[..|first|] == first
  {
    assert p[|first|] == p[..|first| + 1][|first|] == (first + "/")[|first|] == '/';
    assert p[..|first|] == p[..|first| + 1][..|first|] == first;
    forall k | 0 <= k < |first| ensures p[k] != '/' {
      assert p[k] == p[..|first|][k] && first[k] in first;
    }
  }

  lemma HeadIsFirst(p: string, first: string)
    requires '/' !in first
    ensures (p == first || StartsWith(p, first + "/")) <==> p[..SegmentEnd(p, 0)] == first
  {
    var n := SegmentEnd(p, 0);
    assert n == |p| ==> p[..n] == p;
    assert n < |p| ==> p[..n + 1] == p[..n] + "/";
    if StartsWith(p, first + "/") {
      HeadMeans(p, first);
    }
    if p == first {
      forall k | 0 <= k < |p| ensures p[k] != '/' {
        assert p[k] in p;
      }
    }
  }

  /** One prefix allows a path exactly when its segments are an initial run of the path's. */
  lemma OnePrefix(path: string, prefix: string)
    requires path != "" && path[0] == '/'
    ensures MatchesOne(path, NormalizePath(prefix)) <==>
      TrimSpace(prefix) != "" && PrefixSegments(prefix) <= Segments(path)
  {
    var segs := PrefixSegments(prefix);
    assert Split(path) == [""] + Split(path[1..]);
    assert Segments(path) == Split(path[1..]);
    if segs != [] {
      ContinuesIsPrefix(path[1..], segs);
      assert segs[0] in segs;
      JoinIsLonger(segs);
      var joined := Join(segs);
      assert path == "/" + path[1..];
      assert path == "/" + joined <==> path[1..] == joined by {
        assert ("/" + joined)[1..] == joined;
      }
      assert StartsWith(path, "/" + joined + "/") <==> StartsWith(path[1..], joined + "/") by {
        var q := "/" + joined + "/";
        assert q == "/" + (joined + "/") && q[1..] == joined + "/";
        assert |q| <= |path| ==> path[..|q|] == "/" + path[1..][..|q| - 1];
      }
    }
  }

  lemma JoinIsLonger(segs: seq<string>)
    requires segs != [] && segs[0] != ""
    ensures Join(segs) != "" && "/" + Join(segs) != "/"
  {
    assert |"/" + Join(segs)| > 1;
  }

  /** The allow-list admits exactly the paths under one of its non-blank prefixes. */
  lemma {:induction false} MatchesPrefixExact(path: string, prefixes: seq<string>)
    requires path != "" && path[0] == '/'
    ensures MatchesPrefix(path, prefixes) <==>
      exists i :: 0 <= i < |prefixes| && TrimSpace(prefixes[i]) != "" && PrefixSegments(prefixes[i]) <= Segments(path)
  {
    if prefixes != [] {
      var rest := prefixes[1..];
      OnePrefix(path, prefixes[0]);
      MatchesPrefixExact(path, rest);
      if i :| 0 <= i < |rest| && TrimSpace(rest[i]) != "" && PrefixSegments(rest[i]) <= Segments(path) {
        assert prefixes[i + 1] == rest[i];
      }
      if i :| 0 <= i < |prefixes| && TrimSpace(prefixes[i]) != "" && PrefixSegments(prefixes[i]) <= Segments(path) {
        assert i > 0 ==> rest[i - 1] == prefixes[i];
      }
    }
  }

  // ---- The upstream address ----

  function JoinURLPath(base: string, request: string): string {
    if request == "/" then TrimSlash(base) else TrimSlash(base) + request
  }

  predicate EndsInEncodedSlash(s: string) {
    |s| >= 3 && s[|s| - 3] == '%' && s[|s| - 2] == '2' && (s[|s| - 1] == 'F' || s[|s| - 1] == 'f')
  }

  lemma {:induction false} DecodedEnd(s: string)
    requires Unescape(s).Some?
    ensures var d := Unescape(s).value;
      && (d == "" <==> s == "")
      && (d != "" ==> (d[|d| - 1] == '/' <==> s[|s| - 1] == '/' || EndsInEncodedSlash(s)))
    decreases |s|
  {
    if s != "" {
      var k := if s[0] == '%' then 3 else 1;
      var rest := s[k..];
      DecodedEnd(rest);
      if rest != "" {
        assert s[|s| - 1] == rest[|rest| - 1];
        RestEnds(s, k);
      }
    }
  }

  /** An escape at the end of a decodable text lies wholly in what follows the first character or escape. */
  lemma RestEnds(s: string, k: nat)
    requires Unescape(s).Some? && s != "" && k == (if s[0] == '%' then 3 else 1) && k < |s|
    ensures EndsInEncodedSlash(s) <==> EndsInEncodedSlash(s[k..])
  {
    var rest := s[k..];
    if |rest| >= 3 {
      assert rest[|rest| - 3] == s[|s| - 3] && rest[|rest| - 2] == s[|s| - 2] && rest[|rest| - 1] == s[|s| - 1];
    } else {
      ShortTail(rest);
    }
  }

  lemma ShortTail(s: string)
    requires Unescape(s).Some? && |s| < 3
    ensures '%' !in s
  {
    if |s| == 2 {
      assert s[1..] == [s[1]];
      assert Unescape([s[1]]).Some?;
    }
  }

  lemma JoinDecodes(escapedBase: string, base: string, escaped: string, decoded: string)
    requires Unescape(escapedBase) == Some(base) && Unescape(escaped) == Some(decoded) && escaped != ""
      && escaped[0] == '/'
    ensures Unescape(JoinURLPath(escapedBase, escaped)) == Some(JoinURLPath(base, decoded)) <==>
      !EndsInEncodedSlash(escapedBase)
  {
    TrimmedBase(escapedBase, base);
    RootOnly(escaped, decoded);
    if escaped != "/" {
      UnescapeRequest(TrimSlash(escapedBase), escaped, decoded);
      assert |TrimSlash(base)| < |base| ==> |base + decoded| != |TrimSlash(base) + decoded|;
    }
  }

  lemma Regroups(a: string, b: string)
    ensures a + "/" + b == a + ("/" + b)
  {
    var left, right := a + "/" + b, a + ("/" + b);
    assert |left| == |right| && forall i :: 0 <= i < |left| ==> left[i] == right[i];
  }

  lemma UnescapeSlash(s: string)
    requires Unescape(s).Some? && s != "" && s[0] == '/'
    ensures Unescape(s[1..]).Some? && Unescape(s).value == "/" + Unescape(s[1..]).value
  {}

  lemma UnescapeRequest(trimmed: string, escaped: string, decoded: string)
    requires Unescape(trimmed).Some? && Unescape(escaped) == Some(decoded) && escaped != "" && escaped[0] == '/'
    ensures Unescape(trimmed + escaped) == Some(Unescape(trimmed).value + decoded)
  {
    var rest := escaped[1..];
    UnescapeSlash(escaped);
    assert escaped == "/" + rest;
    UnescapeJoins(trimmed, rest);
    Regroups(trimmed, rest);
    Regroups(Unescape(trimmed).value, Unescape(rest).value);
  }

  /** Decoding the upstream's escaped path gives its path, unless the base ends in an encoded slash. */
  lemma JoinedPathDecodes(escapedBase: string, base: string, raw: string)
    requires Unescape(escapedBase) == Some(base) && ParseRequestPath(raw).Some?
    ensures var (escaped, decoded) := ParseRequestPath(raw).value;
      Unescape(JoinURLPath(escapedBase, escaped)) == Some(JoinURLPath(base, decoded)) <==>
        !EndsInEncodedSlash(escapedBase)
  {
    var (escaped, decoded) := ParseRequestPath(raw).value;
    AcceptedPathsAreNormal(raw);
    JoinDecodes(escapedBase, base, escaped, decoded);
  }

  /** A failing base: the escaped address decodes to "/a//v1" while the checked path is "/a/v1". */
  lemma EncodedSlashBase(escapedBase: string, base: string, request: string)
    requires escapedBase == "/a%2F" && base == "/a/" && request == "/v1"
    ensures Unescape(escapedBase) == Some(base) && JoinURLPath(base, request) == "/a/v1"
    ensures Unescape(JoinURLPath(escapedBase, request)) == Some("/a//v1")
  {
    EncodedSlashDecodes(escapedBase[2..]);
    PlainFirst(escapedBase[1..]);
    PlainFirst(escapedBase);
    assert escapedBase[1..][1..] == escapedBase[2..];
    assert base == ['/'] + (['a'] + "/");
    PlainDecodes(request);
    UnescapeRequest(escapedBase, request, request);
    assert TrimSlash(escapedBase) == escapedBase && TrimSlash(base) == "/a";
    assert base + request == "/a//v1";
  }

  lemma EncodedSlashDecodes(s: string)
    requires s == "%2F"
    ensures Unescape(s) == Some("/")
  {
    assert s[3..] == "";
    assert Unescape(s[3..]) == Some("");
    assert HexValue(s[1]) == 2 && HexValue(s[2]) == 15;
    assert Byte(s[1], s[2]) == '/';
    assert [Byte(s[1], s[2])] + "" == "/";
  }

  lemma PlainFirst(s: string)
    requires s != "" && s[0] != '%' && Unescape(s[1..]).Some?
    ensures Unescape(s) == Some([s[0]] + Unescape(s[1..]).value)
  {}

  lemma {:induction false} UnescapeJoins(a: string, b: string)
    requires Unescape(a).Some? && Unescape(b).Some?
    ensures Unescape(a + "/" + b) == Some(Unescape(a).value + "/" + Unescape(b).value)
  {
    var s := a + "/" + b;
    if a == "" {
      assert s[0] == '/' && s[1..] == b;
      assert Unescape(s).value == "" + "/" + Unescape(b).value;
    } else if a[0] == '%' {
      assert s[1] == a[1] && s[2] == a[2] && s[3..] == a[3..] + "/" + b;
      UnescapeJoins(a[3..], b);
      assert Unescape(s).value == Unescape(a).value + "/" + Unescape(b).value;
    } else {
      assert s[1..] == a[1..] + "/" + b;
      UnescapeJoins(a[1..], b);
      assert Unescape(s).value == Unescape(a).value + "/" + Unescape(b).value;
    }
  }

  lemma TrimmedBase(escapedBase: string, base: string)
    requires Unescape(escapedBase) == Some(base)
    ensures Unescape(TrimSlash(escapedBase)).Some?
    ensures Unescape(TrimSlash(escapedBase)).value == if EndsInEncodedSlash(escapedBase) then base else TrimSlash(base)
    ensures EndsInEncodedSlash(escapedBase) ==> |TrimSlash(base)| < |base|
  {
    DecodedEnd(escapedBase);
    if escapedBase != "" && escapedBase[|escapedBase| - 1] == '/' {
      var t := escapedBase[..|escapedBase| - 1];
      assert escapedBase == t + "/" + "";
      assert TrimSlash(escapedBase) == t;
      UnescapeSplits(t, "");
      assert base == Unescape(t).value + "/" + "" == Unescape(t).value + "/";
      assert TrimSlash(base) == Unescape(t).value;
    }
  }

  /** The root is the only accepted path that decodes to the root. */
  lemma RootOnly(escaped: string, decoded: string)
    requires Unescape(escaped) == Some(decoded) && escaped != "" && escaped[0] == '/'
    ensures escaped == "/" <==> decoded == "/"
  {
    var rest := escaped[1..];
    assert escaped == "/" + rest;
    DecodedEnd(rest);
  }
}
