/**
 * The java.lang.String and java.util.regex operations the ingestion code
 * relies on, restated as explicit functions over `seq<char>`.
 *
 * Characters are Unicode scalar values; Java strings are UTF-16 code units.
 * None of the character classes below contains a surrogate, so every
 * operation here agrees with its Java counterpart on the characters it
 * inspects.
 */
module Text {

  /** Java's regex class `\s`: [ \t\n\x0B\f\r]. */
  predicate IsRegexSpace(c: char) {
    c == ' ' || c == '\t' || c == '\n' || c == '\U{000B}' || c == '\U{000C}' || c == '\r'
  }

  /** `Character.isWhitespace`: the Unicode space separators except the
    * no-break spaces, plus the ASCII and information-separator controls. */
  predicate IsJavaWhitespace(c: char) {
    || ('\t' <= c <= '\r')
    || ('\U{001C}' <= c <= ' ')
    || c == '\U{1680}'
    || ('\U{2000}' <= c <= '\U{2006}')
    || ('\U{2008}' <= c <= '\U{200A}')
    || c == '\U{2028}' || c == '\U{2029}' || c == '\U{205F}' || c == '\U{3000}'
  }

  predicate IsAsciiLetter(c: char) { ('a' <= c <= 'z') || ('A' <= c <= 'Z') }

  predicate IsAsciiDigit(c: char) { '0' <= c <= '9' }

  /** The characters of `s` that satisfy `keep`, in order; this is what
    * `s.replaceAll("[^...]", "")` computes for a character class. */
  function Filter(s: string, keep: char -> bool): (r: string)
    ensures |r| <= |s|
    ensures forall i :: 0 <= i < |r| ==> keep(r[i])
  {
    if s == [] then []
    else
      var rest := Filter(s[1..], keep);
      assert forall i :: 1 <= i < |s| ==> s[i] == s[1..][i - 1];
      if keep(s[0]) then [s[0]] + rest else rest
  }

  /** Every character left by the filter comes from the input. */
  lemma {:induction false} FilterFromInput(s: string, keep: char -> bool)
    ensures forall i :: 0 <= i < |Filter(s, keep)| ==> Filter(s, keep)[i] in s
  {
    if s != [] {
      FilterFromInput(s[1..], keep);
      assert forall c :: c in s[1..] ==> c in s;
    }
  }

  /** A string whose every character is kept passes unchanged. */
  lemma {:induction false} FilterKeepsAll(s: string, keep: char -> bool)
    requires forall i :: 0 <= i < |s| ==> keep(s[i])
    ensures Filter(s, keep) == s
  {
    if s != [] {
      assert forall i :: 0 <= i < |s[1..]| ==> s[1..][i] == s[i + 1];
      FilterKeepsAll(s[1..], keep);
      assert [s[0]] + s[1..] == s;
    }
  }

  /** A string none of whose characters is kept filters to nothing. */
  lemma {:induction false} FilterDropsAll(s: string, keep: char -> bool)
    requires forall i :: 0 <= i < |s| ==> !keep(s[i])
    ensures Filter(s, keep) == []
  {
    if s != [] {
      assert forall i :: 0 <= i < |s[1..]| ==> s[1..][i] == s[i + 1];
      FilterDropsAll(s[1..], keep);
    }
  }

  /** Filtering distributes over concatenation. */
  lemma {:induction false} FilterConcat(a: string, b: string, keep: char -> bool)
    ensures Filter(a + b, keep) == Filter(a, keep) + Filter(b, keep)
  {
    if a == [] {
      assert a + b == b;
    } else {
      var ab := a + b;
      assert ab[0] == a[0] && ab[1..] == a[1..] + b;
      FilterConcat(a[1..], b, keep);
    }
  }

  /** `s.replaceAll("\\s+", "")`: every regex space removed. */
  function StripSpaces(s: string): (r: string)
    ensures forall i :: 0 <= i < |r| ==> !IsRegexSpace(r[i])
  {
    Filter(s, c => !IsRegexSpace(c))
  }

  /** `sub` occurs in `s` starting at index `i`. */
  predicate OccursAt(s: string, sub: string, i: nat) {
    i + |sub| <= |s| && s[i..i + |sub|] == sub
  }

  /** `s.contains(sub)`. */
  predicate Contains(s: string, sub: string) {
    exists i: nat :: i <= |s| && OccursAt(s, sub, i)
  }

  lemma ContainsAt(s: string, sub: string, i: nat)
    requires OccursAt(s, sub, i)
    ensures Contains(s, sub)
  {
  }

  /** Every string contains itself, and a string contains whatever its
    * parts contain. */
  lemma {:induction false} ContainsInConcat(a: string, b: string, sub: string)
    requires Contains(b, sub)
    ensures Contains(a + b, sub) && Contains(b + a, sub)
  {
    var i: nat :| i <= |b| && OccursAt(b, sub, i);
    assert (a + b)[|a| + i..|a| + i + |sub|] == b[i..i + |sub|];
    ContainsAt(a + b, sub, |a| + i);
    assert (b + a)[i..i + |sub|] == b[i..i + |sub|];
    ContainsAt(b + a, sub, i);
  }

  /** The number of leading chars <= U+0020. */
  function LeadingBlanks(s: string): (n: nat)
    ensures n <= |s| && (n == |s| || s[n] > ' ')
    ensures forall k :: 0 <= k < n ==> s[k] <= ' '
  {
    if s != [] && s[0] <= ' ' then 1 + LeadingBlanks(s[1..]) else 0
  }

  /** The length of `s` without its trailing chars <= U+0020. */
  function WithoutTrailingBlanks(s: string): (n: nat)
    ensures n <= |s| && (n == 0 || s[n - 1] > ' ')
    ensures forall k :: n <= k < |s| ==> s[k] <= ' '
  {
    if s != [] && s[|s| - 1] <= ' ' then WithoutTrailingBlanks(s[..|s| - 1]) else |s|
  }

  /** `r` is the slice of `s` at `i`, and only characters <= U+0020 lie
    * outside it. */
  ghost predicate IsTrimAt(s: string, r: string, i: nat) {
    && i + |r| <= |s|
    && r == s[i..i + |r|]
    && (forall k :: 0 <= k < i ==> s[k] <= ' ')
    && (forall k :: i + |r| <= k < |s| ==> s[k] <= ' ')
  }

  /** A slice of `s` that leaves out only characters <= U+0020 at either end. */
  ghost predicate IsTrimOf(s: string, r: string) {
    exists i: nat :: IsTrimAt(s, r, i)
  }

  /** `s.trim()`: removes every leading and trailing char whose code is at
    * most U+0020 (this includes control characters that `\s` does not). */
  function Trim(s: string): (r: string)
    ensures r == [] || (r[0] > ' ' && r[|r| - 1] > ' ')
    ensures IsTrimOf(s, r)
    ensures (s == [] || (s[0] > ' ' && s[|s| - 1] > ' ')) ==> r == s
  {
    var i := LeadingBlanks(s);
    var n := WithoutTrailingBlanks(s[i..]);
    TrimSlice(s, i, n);
    s[i..i + n]
  }

  /** Cutting `i` blank chars off the front and, from what is left, the
    * blank chars after its first `n` leaves a trim of `s`. */
  lemma TrimSlice(s: string, i: nat, n: nat)
    requires i <= |s| && forall k :: 0 <= k < i ==> s[k] <= ' '
    requires n <= |s| - i && forall k :: n <= k < |s[i..]| ==> s[i..][k] <= ' '
    ensures IsTrimAt(s, s[i..i + n], i)
  {
    var t := s[i..];
    forall k | i + n <= k < |s| ensures s[k] <= ' ' {
      assert s[k] == t[k - i];
    }
    assert |s[i..i + n]| == n;
  }

  /** Blanks around a string with printable ends are what `trim` removes. */
  lemma TrimPadded(p: string, c: string, q: string)
    requires forall k :: 0 <= k < |p| ==> p[k] <= ' '
    requires forall k :: 0 <= k < |q| ==> q[k] <= ' '
    requires c != [] && c[0] > ' ' && c[|c| - 1] > ' '
    ensures Trim(p + c + q) == c
  {
    var s := p + c + q;
    var i := LeadingBlanks(s);
    assert s[|p|] == c[0];
    assert forall k :: 0 <= k < |p| ==> s[k] == p[k];
    assert i == |p|;
    var t := s[i..];
    assert t == c + q;
    var n := WithoutTrailingBlanks(t);
    assert t[|c| - 1] == c[|c| - 1];
    assert forall k :: |c| <= k < |t| ==> t[k] == q[k - |c|];
    assert n == |c|;
    assert s[i..i + n] == c;
  }

  /** Trimming a trimmed string changes nothing. */
  lemma TrimIdempotent(s: string)
    ensures Trim(Trim(s)) == Trim(s)
  {
  }

  function LowerChar(c: char): (r: char)
    ensures 'A' <= c <= 'Z' ==> r as int == c as int + 32
    ensures !('A' <= c <= 'Z') ==> r == c
  {
    if 'A' <= c <= 'Z' then (c as int + 32) as char else c
  }

  /** `s.toLowerCase()`, restricted to ASCII letters: all other characters,
    * including non-ASCII letters, are left unchanged. */
  function ToLowerAscii(s: string): (r: string)
    ensures |r| == |s|
    ensures forall i :: 0 <= i < |s| ==> r[i] == LowerChar(s[i])
  {
    seq(|s|, i requires 0 <= i < |s| => LowerChar(s[i]))
  }

  /** Lower-casing is idempotent, so a lowered string is its own lower case. */
  lemma ToLowerIdempotent(s: string)
    ensures ToLowerAscii(ToLowerAscii(s)) == ToLowerAscii(s)
  {
  }

  /** `s.replace(pat, "")`: removes the non-overlapping occurrences of `pat`
    * found scanning from left to right. */
  function RemoveAll(s: string, pat: string): (r: string)
    requires pat != []
    ensures |r| <= |s|
    ensures !Contains(s, pat) ==> r == s
    decreases |s|
  {
    if |s| < |pat| then s
    else if s[..|pat|] == pat then
      assert OccursAt(s, pat, 0);
      RemoveAll(s[|pat|..], pat)
    else
      NotContainsTail(s, pat);
      [s[0]] + RemoveAll(s[1..], pat)
  }

  /** If `s` does not contain `pat`, neither does its tail. */
  lemma NotContainsTail(s: string, pat: string)
    requires s != []
    ensures Contains(s[1..], pat) ==> Contains(s, pat)
  {
    if Contains(s[1..], pat) {
      var i: nat :| i <= |s[1..]| && OccursAt(s[1..], pat, i);
      assert s[i + 1..i + 1 + |pat|] == s[1..][i..i + |pat|];
      ContainsAt(s, pat, i + 1);
    }
  }

  /** Every character of `s` in `seps` splits it: the fields between
    * separators, including empty ones (Java's `split` before it drops
    * trailing empty strings). */
  function Fields(s: string, seps: set<char>): (r: seq<string>)
    ensures |r| >= 1
    ensures |r| == 1 <==> forall i :: 0 <= i < |s| ==> s[i] !in seps
    ensures |r| == 1 ==> r[0] == s
    ensures forall k, i :: 0 <= k < |r| && 0 <= i < |r[k]| ==> r[k][i] !in seps && r[k][i] in s
  {
    if s == [] then [[]]
    else
      var rest := Fields(s[1..], seps);
      assert forall i :: 1 <= i < |s| ==> s[i] == s[1..][i - 1];
      if s[0] in seps then [[]] + rest
      else
        var head := [s[0]] + rest[0];
        assert forall i :: 1 <= i < |head| ==> head[i] == rest[0][i - 1];
        [head] + rest[1..]
  }

  /** The fields joined back with `c` between consecutive ones. */
  function JoinWith(parts: seq<string>, c: char): string {
    if parts == [] then []
    else if |parts| == 1 then parts[0]
    else parts[0] + [c] + JoinWith(parts[1..], c)
  }

  /** Splitting on one character and joining with it gives the input back. */
  lemma {:induction false} FieldsJoin(s: string, c: char)
    ensures JoinWith(Fields(s, {c}), c) == s
  {
    if s != [] {
      FieldsJoin(s[1..], c);
      var rest := Fields(s[1..], {c});
      if s[0] != c {
        var head := [s[0]] + rest[0];
        if |rest| == 1 {
          assert Fields(s, {c}) == [head];
        } else {
          assert Fields(s, {c}) == [head] + rest[1..];
          assert JoinWith(rest, c) == rest[0] + [c] + JoinWith(rest[1..], c);
          assert ([head] + rest[1..])[1..] == rest[1..];
        }
      } else {
        assert Fields(s, {c}) == [[]] + rest;
        assert ([[]] + rest)[1..] == rest;
      }
    }
  }

  /** Splitting into exactly two fields cuts `s` at its one separator. */
  lemma FieldsTwo(s: string, c: char)
    requires |Fields(s, {c})| == 2
    ensures s == Fields(s, {c})[0] + [c] + Fields(s, {c})[1]
  {
    FieldsJoin(s, c);
  }

  /** Fields of `a`, the separator, then `b`, where neither holds it. */
  lemma {:induction false} FieldsOfConcat(a: string, b: string, c: char)
    requires forall i :: 0 <= i < |a| ==> a[i] != c
    requires forall i :: 0 <= i < |b| ==> b[i] != c
    ensures Fields(a + [c] + b, {c}) == [a, b]
  {
    if a == [] {
      assert (a + [c] + b)[1..] == b;
    } else {
      FieldsOfConcat(a[1..], b, c);
      assert (a + [c] + b)[1..] == a[1..] + [c] + b;
      assert [a[0]] + a[1..] == a;
    }
  }

  /** `parts` with its run of trailing empty strings removed. */
  function DropTrailingEmpty(parts: seq<string>): (r: seq<string>)
    ensures |r| <= |parts| && r == parts[..|r|]
    ensures r == [] || r[|r| - 1] != []
    ensures forall k :: |r| <= k < |parts| ==> parts[k] == []
  {
    if parts != [] && parts[|parts| - 1] == [] then DropTrailingEmpty(parts[..|parts| - 1]) else parts
  }

  /** `s.split(regex)` for a regex that matches exactly one character of
    * `seps`: an input without separator gives `[s]` (so `""` gives `[""]`),
    * otherwise the fields with trailing empty ones dropped. */
  function JavaSplit(s: string, seps: set<char>): (r: seq<string>)
    ensures (forall i :: 0 <= i < |s| ==> s[i] !in seps) ==> r == [s]
    ensures |r| <= |Fields(s, seps)| && r == Fields(s, seps)[..|r|]
    ensures forall k, i :: 0 <= k < |r| && 0 <= i < |r[k]| ==> r[k][i] !in seps
  {
    if s == [] then [s] else DropTrailingEmpty(Fields(s, seps))
  }

  /** The last index of `c` in `s`, or -1 (`s.lastIndexOf(c)`). */
  function LastIndexOf(s: string, c: char): (r: int)
    ensures -1 <= r < |s|
    ensures r >= 0 ==> s[r] == c
    ensures forall k :: r < k < |s| ==> s[k] != c
  {
    if s == [] then -1
    else if s[|s| - 1] == c then |s| - 1
    else LastIndexOf(s[..|s| - 1], c)
  }

  /** The last occurrence is the position holding `c` with no `c` after it. */
  lemma LastIndexOfAt(s: string, c: char, p: nat)
    requires p < |s| && s[p] == c
    requires forall k :: p < k < |s| ==> s[k] != c
    ensures LastIndexOf(s, c) == p
  {
    var r := LastIndexOf(s, c);
    assert r >= p;
  }
}
