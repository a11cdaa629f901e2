/**
 * How the sync service splits a switch name for the search index
 * (`extractKoreanFromName` and `containsKorean` of SwitchSyncService): the
 * name is cut into tokens at whitespace and at the characters ()[]{},/;
 * tokens holding a Hangul character become extra nicknames, the others are
 * joined back into the indexed name.
 */
module SwitchNames {
  import opened Wrappers
  import opened Text

  /** The Hangul syllables block U+AC00..U+D7AF and the compatibility jamo
    * block U+3130..U+318F. */
  predicate IsHangul(c: char) {
    ('\U{AC00}' <= c <= '\U{D7AF}') || ('\U{3130}' <= c <= '\U{318F}')
  }

  predicate HasHangul(s: string) {
    exists i :: 0 <= i < |s| && IsHangul(s[i])
  }

  predicate NoHangul(s: string) {
    !HasHangul(s)
  }

  /** `containsKorean(text)`: scans the characters and stops at the first
    * Hangul one. */
  method ContainsKorean(text: string) returns (b: bool)
    ensures b <==> HasHangul(text)
  {
    for i := 0 to |text|
      invariant forall j :: 0 <= j < i ==> !IsHangul(text[j])
    {
      if IsHangul(text[i]) {
        return true;
      }
    }
    return false;
  }

  /** The characters of the class `[()\[\]{},/]`. */
  predicate IsNameSeparator(c: char) {
    c == '(' || c == ')' || c == '[' || c == ']' || c == '{' || c == '}' || c == ',' || c == '/'
  }

  /** The characters of the regex class `\s`, as a set. */
  const RegexSpaces: set<char> := {' ', '\t', '\n', '\U{000B}', '\U{000C}', '\r'}

  lemma RegexSpacesAreSpaces(c: char)
    ensures c in RegexSpaces <==> IsRegexSpace(c)
  {
  }

  /** `name.replaceAll("[()\\[\\]{},/]", " ")`. */
  function Spaced(name: string): string {
    seq(|name|, i requires 0 <= i < |name| => if IsNameSeparator(name[i]) then ' ' else name[i])
  }

  /** The elements of `xs` that satisfy `keep`, in order. */
  function Select<T>(xs: seq<T>, keep: T -> bool): (r: seq<T>)
    ensures |r| <= |xs|
    ensures forall k :: 0 <= k < |r| ==> keep(r[k])
    ensures (forall k :: 0 <= k < |xs| ==> !keep(xs[k])) ==> r == []
  {
    if xs == [] then [] else Select(xs[..|xs| - 1], keep) + (if keep(xs[|xs| - 1]) then [xs[|xs| - 1]] else [])
  }

  /** What is selected comes from `xs`. */
  lemma {:induction false} SelectFrom<T>(xs: seq<T>, keep: T -> bool, k: nat)
    requires k < |Select(xs, keep)|
    ensures Select(xs, keep)[k] in xs
  {
    var init := xs[..|xs| - 1];
    if k < |Select(init, keep)| {
      SelectFrom(init, keep, k);
      assert forall x :: x in init ==> x in xs;
    }
  }

  /** Selecting from `xs` extended by one element. */
  lemma SelectSnoc<T>(xs: seq<T>, x: T, keep: T -> bool)
    ensures Select(xs + [x], keep) == Select(xs, keep) + (if keep(x) then [x] else [])
  {
    assert (xs + [x])[..|xs|] == xs;
  }

  /** Two complementary selections share out the elements between them:
    * every element goes to exactly one side, as often as it occurs. */
  lemma {:induction false} SelectPartition<T>(xs: seq<T>, keep: T -> bool, drop: T -> bool)
    requires forall x :: drop(x) == !keep(x)
    ensures multiset(Select(xs, keep)) + multiset(Select(xs, drop)) == multiset(xs)
  {
    if xs != [] {
      var init, last := xs[..|xs| - 1], xs[|xs| - 1];
      SelectPartition(init, keep, drop);
      MultisetSnoc(xs);
      assert drop(last) == !keep(last);
      var kept, dropped := Select(init, keep), Select(init, drop);
      if keep(last) {
        assert Select(xs, keep) == kept + [last] && Select(xs, drop) == dropped;
        assert multiset(kept + [last]) == multiset(kept) + multiset{last};
      } else {
        assert Select(xs, keep) == kept && Select(xs, drop) == dropped + [last];
        assert multiset(dropped + [last]) == multiset(dropped) + multiset{last};
      }
    }
  }

  /** A non-empty sequence holds its last element and the ones before. */
  lemma MultisetSnoc<T>(xs: seq<T>)
    requires xs != []
    ensures multiset(xs) == multiset(xs[..|xs| - 1]) + multiset{xs[|xs| - 1]}
  {
    assert xs == xs[..|xs| - 1] + [xs[|xs| - 1]];
  }

  predicate IsToken(t: string) {
    t != []
  }

  /** `name.replaceAll(...)` cut at every whitespace character. */
  function Pieces(name: string): seq<string> {
    Fields(Spaced(name), RegexSpaces)
  }

  /** The non-empty pieces of the separated name between whitespace.
    * `split("\\s+")` cuts at runs of whitespace and can leave one empty
    * leading piece; the loop skips empty pieces, so cutting at every single
    * whitespace character and dropping the empty pieces gives the same
    * tokens. */
  function Tokens(name: string): (r: seq<string>)
    ensures forall k :: 0 <= k < |r| ==> IsToken(r[k])
    ensures forall k, i :: 0 <= k < |r| && 0 <= i < |r[k]| ==>
              !IsRegexSpace(r[k][i]) && !IsNameSeparator(r[k][i])
  {
    var parts := Pieces(name);
    var r := Select(parts, IsToken);
    forall k, i | 0 <= k < |r| && 0 <= i < |r[k]|
      ensures !IsRegexSpace(r[k][i]) && !IsNameSeparator(r[k][i])
    {
      SelectFrom(parts, IsToken, k);
      var j :| 0 <= j < |parts| && parts[j] == r[k];
      assert parts[j][i] !in RegexSpaces && parts[j][i] in Spaced(name);
    }
    r
  }

  function KoreanTokens(tokens: seq<string>): seq<string> {
    Select(tokens, HasHangul)
  }

  function OtherTokens(tokens: seq<string>): seq<string> {
    Select(tokens, NoHangul)
  }

  /** The Hangul list after one more piece: only a Hangul token joins it. */
  function KoreanAfter(korean: seq<string>, token: string): seq<string> {
    if token != [] && HasHangul(token) then korean + [token] else korean
  }

  /** The name after one more piece: only a non-empty token without Hangul
    * joins it, after a space unless it is the first. */
  function EnglishAfter(english: string, token: string): string {
    if token == [] || HasHangul(token) then english
    else if english == [] then token
    else english + " " + token
  }

  /** The Hangul tokens among `parts`, piece by piece. */
  function KoreanOf(parts: seq<string>): seq<string> {
    if parts == [] then [] else KoreanAfter(KoreanOf(parts[..|parts| - 1]), parts[|parts| - 1])
  }

  /** The other tokens among `parts`, piece by piece. */
  function EnglishOf(parts: seq<string>): string {
    if parts == [] then [] else EnglishAfter(EnglishOf(parts[..|parts| - 1]), parts[|parts| - 1])
  }

  /** The name the index receives: the tokens without Hangul, in order,
    * one space apart, then trimmed. */
  function CleanedName(name: string): string {
    Trim(EnglishOf(Pieces(name)))
  }

  /** The Hangul tokens of the name, in order. */
  function HangulTokens(name: string): seq<string> {
    KoreanOf(Pieces(name))
  }

  /** Joining one more part. */
  lemma {:induction false} JoinWithSnoc(parts: seq<string>, t: string, c: char)
    ensures JoinWith(parts + [t], c) == if parts == [] then t else JoinWith(parts, c) + [c] + t
  {
    if |parts| >= 2 {
      JoinWithSnoc(parts[1..], t, c);
      assert (parts + [t])[1..] == parts[1..] + [t];
    } else if |parts| == 1 {
      assert (parts + [t])[1..] == [t];
    }
  }

  /** Non-empty parts join to a non-empty string exactly when there is one. */
  lemma JoinWithEmpty(parts: seq<string>, c: char)
    requires forall k :: 0 <= k < |parts| ==> parts[k] != []
    ensures JoinWith(parts, c) == [] <==> parts == []
  {
  }

  /** Every character of a join is the separator or a character of a part. */
  lemma {:induction false} JoinWithChars(parts: seq<string>, c: char, i: nat)
    requires i < |JoinWith(parts, c)|
    ensures JoinWith(parts, c)[i] == c || exists k, j :: 0 <= k < |parts| && 0 <= j < |parts[k]| && parts[k][j] == JoinWith(parts, c)[i]
  {
    if |parts| > 1 {
      var s := JoinWith(parts, c);
      assert s == parts[0] + [c] + JoinWith(parts[1..], c);
      if i > |parts[0]| {
        JoinWithChars(parts[1..], c, i - |parts[0]| - 1);
        assert s[i] == JoinWith(parts[1..], c)[i - |parts[0]| - 1];
        if s[i] != c {
          var k, j :| 0 <= k < |parts[1..]| && 0 <= j < |parts[1..][k]| && parts[1..][k][j] == s[i];
          assert parts[k + 1][j] == s[i];
        }
      } else if i < |parts[0]| {
        assert parts[0][i] == s[i];
      }
    } else {
      assert parts[0][i] == JoinWith(parts, c)[i];
    }
  }

  /** Parts without the separator split back out of their join. */
  lemma {:induction false} FieldsOfJoin(parts: seq<string>, c: char)
    requires parts != []
    requires forall k, j :: 0 <= k < |parts| && 0 <= j < |parts[k]| ==> parts[k][j] != c
    ensures Fields(JoinWith(parts, c), {c}) == parts
  {
    if |parts| == 1 {
    } else {
      var rest := parts[1..];
      FieldsOfJoin(rest, c);
      var tail := JoinWith(rest, c);
      assert JoinWith(parts, c) == parts[0] + [c] + tail;
      FieldsPrefix(parts[0], c, tail, {c});
      assert [parts[0]] + rest == parts;
    }
  }

  /** Fields of a separator-free head, a separator and a tail. */
  lemma {:induction false} FieldsPrefix(a: string, c: char, tail: string, seps: set<char>)
    requires c in seps
    requires forall j :: 0 <= j < |a| ==> a[j] !in seps
    ensures Fields(a + [c] + tail, seps) == [a] + Fields(tail, seps)
  {
    if a == [] {
      assert a + [c] + tail == [c] + tail;
      FieldsAtSeparator(c, tail, seps);
    } else {
      var s := a[1..] + [c] + tail;
      ConsSplit(a, c, tail);
      FieldsPrefix(a[1..], c, tail, seps);
      var rest := Fields(s, seps);
      assert rest[0] == a[1..] && rest[1..] == Fields(tail, seps);
      FieldsOfCons(a[0], s, seps);
    }
  }

  /** A non-empty head splits into its first char and the rest. */
  lemma ConsSplit(a: string, c: char, tail: string)
    requires a != []
    ensures a + [c] + tail == [a[0]] + (a[1..] + [c] + tail)
    ensures [a[0]] + a[1..] == a
  {
    assert a == [a[0]] + a[1..];
  }

  /** A leading separator closes an empty field. */
  lemma FieldsAtSeparator(c: char, s: string, seps: set<char>)
    requires c in seps
    ensures Fields([c] + s, seps) == [[]] + Fields(s, seps)
  {
    assert ([c] + s)[1..] == s;
  }

  /** A leading non-separator joins the first field. */
  lemma FieldsOfCons(x: char, s: string, seps: set<char>)
    requires x !in seps
    ensures Fields([x] + s, seps) == [[x] + Fields(s, seps)[0]] + Fields(s, seps)[1..]
  {
    assert ([x] + s)[1..] == s;
  }

  /** One more piece: only a Hangul token joins the Hangul tokens. */
  lemma KoreanStep(parts: seq<string>, token: string)
    ensures KoreanTokens(Select(parts + [token], IsToken)) == KoreanAfter(KoreanTokens(Select(parts, IsToken)), token)
  {
    var before := Select(parts, IsToken);
    SelectSnoc(parts, token, IsToken);
    if token != [] {
      assert Select(parts + [token], IsToken) == before + [token];
      SelectSnoc(before, token, HasHangul);
    } else {
      assert Select(parts + [token], IsToken) == before;
    }
  }

  /** One more piece: only a token without Hangul joins the others. */
  lemma EnglishStep(parts: seq<string>, token: string)
    ensures JoinWith(OtherTokens(Select(parts + [token], IsToken)), ' ')
            == EnglishAfter(JoinWith(OtherTokens(Select(parts, IsToken)), ' '), token)
  {
    var before := Select(parts, IsToken);
    var others := OtherTokens(before);
    SelectSnoc(parts, token, IsToken);
    if token != [] {
      assert Select(parts + [token], IsToken) == before + [token];
      SelectSnoc(before, token, NoHangul);
      if NoHangul(token) {
        assert OtherTokens(before + [token]) == others + [token];
        JoinWithSnoc(others, token, ' ');
        forall k | 0 <= k < |others| ensures others[k] != [] {
          SelectFrom(before, NoHangul, k);
        }
        JoinWithEmpty(others, ' ');
      } else {
        assert OtherTokens(before + [token]) == others;
      }
    } else {
      assert Select(parts + [token], IsToken) == before;
    }
  }

  /** Taken piece by piece, the Hangul list is the Hangul tokens. */
  lemma {:induction false} KoreanOfTokens(parts: seq<string>)
    ensures KoreanOf(parts) == KoreanTokens(Select(parts, IsToken))
  {
    if parts != [] {
      var init := parts[..|parts| - 1];
      KoreanOfTokens(init);
      KoreanStep(init, parts[|parts| - 1]);
      assert init + [parts[|parts| - 1]] == parts;
    }
  }

  /** Taken piece by piece, the name is the other tokens one space apart. */
  lemma {:induction false} EnglishOfTokens(parts: seq<string>)
    ensures EnglishOf(parts) == JoinWith(OtherTokens(Select(parts, IsToken)), ' ')
  {
    if parts != [] {
      var init := parts[..|parts| - 1];
      EnglishOfTokens(init);
      EnglishStep(init, parts[|parts| - 1]);
      assert init + [parts[|parts| - 1]] == parts;
    }
  }

  /** Both results in terms of the tokens of the name. */
  lemma PiecesGiveTokens(name: string)
    ensures HangulTokens(name) == KoreanTokens(Tokens(name))
    ensures CleanedName(name) == Trim(JoinWith(OtherTokens(Tokens(name)), ' '))
  {
    KoreanOfTokens(Pieces(name));
    EnglishOfTokens(Pieces(name));
  }

  /** `extractKoreanFromName(name, koreanTokens)`: returns the cleaned
    * name and `koreanTokens` with the Hangul tokens appended (the list the
    * caller passes in, as it stands afterwards). */
  method ExtractKoreanFromName(name: Option<string>, koreanTokens: seq<string>)
    returns (cleaned: Option<string>, korean: seq<string>)
    ensures name.None? ==> cleaned.None? && korean == koreanTokens
    ensures name.Some? ==> cleaned == Some(CleanedName(name.value))
    ensures name.Some? ==> korean == koreanTokens + HangulTokens(name.value)
  {
    if name.None? {
      return None, koreanTokens;
    }
    var parts := Pieces(name.value);
    var english;
    english, korean := SortTokens(parts, koreanTokens);
    cleaned := Some(Trim(english));
  }

  /** The token loop of `extractKoreanFromName`: skips empty pieces, appends
    * Hangul tokens to `koreanTokens` and the others to the name, a space
    * before each but the first. */
  method SortTokens(parts: seq<string>, koreanTokens: seq<string>) returns (english: string, korean: seq<string>)
    ensures english == EnglishOf(parts)
    ensures korean == koreanTokens + KoreanOf(parts)
  {
    english := [];
    korean := koreanTokens;
    for i := 0 to |parts|
      invariant english == EnglishOf(parts[..i])
      invariant korean == koreanTokens + KoreanOf(parts[..i])
    {
      var token := parts[i];
      assert parts[..i + 1][..i] == parts[..i];
      if token != [] {
        var isKorean := ContainsKorean(token);
        if isKorean {
          korean := korean + [token];
        } else {
          if english != [] {
            english := english + " ";
          }
          english := english + token;
        }
      }
    }
    assert parts[..|parts|] == parts;
  }

  /** Every token lands on exactly one side: the Hangul tokens and the
    * others together are the tokens of the name. */
  lemma TokensShared(name: string)
    ensures multiset(KoreanTokens(Tokens(name))) + multiset(OtherTokens(Tokens(name))) == multiset(Tokens(name))
    ensures forall k :: 0 <= k < |KoreanTokens(Tokens(name))| ==> HasHangul(KoreanTokens(Tokens(name))[k])
    ensures forall k :: 0 <= k < |OtherTokens(Tokens(name))| ==> !HasHangul(OtherTokens(Tokens(name))[k])
  {
    SelectPartition(Tokens(name), HasHangul, NoHangul);
  }

  /** The cleaned name holds no Hangul character. */
  lemma CleanedNameHasNoHangul(name: string)
    ensures !HasHangul(CleanedName(name))
  {
    PiecesGiveTokens(name);
    var others := OtherTokens(Tokens(name));
    JoinedNoHangul(others);
    TrimNoHangul(JoinWith(others, ' '));
  }

  /** Parts without Hangul, joined with a space, have none. */
  lemma JoinedNoHangul(parts: seq<string>)
    requires forall k :: 0 <= k < |parts| ==> NoHangul(parts[k])
    ensures NoHangul(JoinWith(parts, ' '))
  {
    var joined := JoinWith(parts, ' ');
    forall i | 0 <= i < |joined|
      ensures !IsHangul(joined[i])
    {
      JoinWithChars(parts, ' ', i);
      if joined[i] != ' ' {
        var k, j :| 0 <= k < |parts| && 0 <= j < |parts[k]| && parts[k][j] == joined[i];
        assert NoHangul(parts[k]);
      }
    }
  }

  /** Trimming adds no Hangul. */
  lemma TrimNoHangul(s: string)
    requires NoHangul(s)
    ensures NoHangul(Trim(s))
  {
    var r := Trim(s);
    var at: nat :| IsTrimAt(s, r, at);
    forall i | 0 <= i < |r|
      ensures !IsHangul(r[i])
    {
      assert r[i] == s[at + i];
    }
  }

  /** In a name whose characters below U+0021 are all whitespace, the
    * tokens have only characters above U+0020. */
  lemma TokensPrintable(name: string, k: nat, j: nat)
    requires forall i :: 0 <= i < |name| ==> name[i] > ' ' || IsRegexSpace(name[i])
    requires k < |Tokens(name)| && j < |Tokens(name)[k]|
    ensures Tokens(name)[k][j] > ' '
  {
    var parts := Fields(Spaced(name), RegexSpaces);
    var t := Tokens(name)[k];
    SelectFrom(parts, IsToken, k);
    var p :| 0 <= p < |parts| && parts[p] == t;
    assert t[j] in Spaced(name);
    var x :| 0 <= x < |Spaced(name)| && Spaced(name)[x] == t[j];
    assert !IsRegexSpace(t[j]);
  }

  /** Non-empty parts of characters above U+0020 join to a string that
    * starts and ends with one. */
  lemma JoinWithEnds(parts: seq<string>, c: char)
    requires parts != []
    requires forall k :: 0 <= k < |parts| ==> parts[k] != [] && parts[k][0] > ' ' && parts[k][|parts[k]| - 1] > ' '
    ensures JoinWith(parts, c) != []
    ensures JoinWith(parts, c)[0] > ' ' && JoinWith(parts, c)[|JoinWith(parts, c)| - 1] > ' '
  {
    var n := |parts|;
    JoinWithSnoc(parts[..n - 1], parts[n - 1], c);
    assert parts[..n - 1] + [parts[n - 1]] == parts;
    if n > 1 {
      assert JoinWith(parts, c) == parts[0] + [c] + JoinWith(parts[1..], c);
    }
  }

  /** For a name whose characters below U+0021 are all whitespace, with a
    * token outside Hangul: the cleaned name is those tokens one space
    * apart, and splitting it at spaces gives them back. */
  lemma CleanedNameSplitsBack(name: string)
    requires forall i :: 0 <= i < |name| ==> name[i] > ' ' || IsRegexSpace(name[i])
    requires OtherTokens(Tokens(name)) != []
    ensures CleanedName(name) == JoinWith(OtherTokens(Tokens(name)), ' ')
    ensures Fields(CleanedName(name), {' '}) == OtherTokens(Tokens(name))
  {
    PiecesGiveTokens(name);
    var others := OtherTokens(Tokens(name));
    forall k | 0 <= k < |others|
      ensures others[k] != [] && others[k][0] > ' ' && others[k][|others[k]| - 1] > ' '
      ensures forall j :: 0 <= j < |others[k]| ==> others[k][j] != ' '
    {
      OtherTokenPrintable(name, k);
    }
    JoinWithEnds(others, ' ');
    FieldsOfJoin(others, ' ');
  }

  /** A token outside Hangul of such a name is non-empty, starts and ends
    * above U+0020 and holds no space. */
  lemma OtherTokenPrintable(name: string, k: nat)
    requires forall i :: 0 <= i < |name| ==> name[i] > ' ' || IsRegexSpace(name[i])
    requires k < |OtherTokens(Tokens(name))|
    ensures var w := OtherTokens(Tokens(name))[k];
            w != [] && w[0] > ' ' && w[|w| - 1] > ' ' && forall j :: 0 <= j < |w| ==> w[j] != ' '
  {
    var tokens := Tokens(name);
    var w := OtherTokens(tokens)[k];
    SelectFrom(tokens, NoHangul, k);
    var t :| 0 <= t < |tokens| && tokens[t] == w;
    assert IsToken(tokens[t]);
    TokensPrintable(name, t, 0);
    TokensPrintable(name, t, |tokens[t]| - 1);
    forall j | 0 <= j < |w|
      ensures w[j] != ' '
    {
      assert !IsRegexSpace(tokens[t][j]);
    }
  }

  /** A string of characters below U+3130 holds no Hangul. */
  lemma BelowHangul(s: string)
    requires forall i :: 0 <= i < |s| ==> s[i] < '\U{3130}'
    ensures NoHangul(s)
  {
  }

  /** The example in the doc comment of `extractKoreanFromName`, with its
    * brackets turned into spaces. */
  lemma ExampleSpaced()
    ensures Spaced("MX Brown(체갈)") == "MX Brown 체갈 "
  {
  }

  /** The example in the doc comment of `extractKoreanFromName`, cut at
    * whitespace once its bracket is a space. */
  lemma ExamplePieces()
    ensures Pieces("MX Brown(체갈)") == ["MX", "Brown", "체갈", ""]
  {
    ExampleSpaced();
    assert "MX Brown 체갈 " == "MX" + [' '] + ("Brown" + [' '] + ("체갈" + [' '] + []));
    FieldsOfThreeWords("MX", "Brown", "체갈", ' ', RegexSpaces);
  }

  /** Three words, each followed by a separator, cut into the words and a
    * last empty field. */
  lemma FieldsOfThreeWords(a: string, b: string, c: string, sep: char, seps: set<char>)
    requires sep in seps
    requires forall j :: 0 <= j < |a| ==> a[j] !in seps
    requires forall j :: 0 <= j < |b| ==> b[j] !in seps
    requires forall j :: 0 <= j < |c| ==> c[j] !in seps
    ensures Fields(a + [sep] + (b + [sep] + (c + [sep] + [])), seps) == [a, b, c, []]
  {
    var t1 := c + [sep] + [];
    var t2 := b + [sep] + t1;
    var none: string := [];
    assert Fields(none, seps) == [none];
    FieldsPrefix(c, sep, none, seps);
    assert Fields(t1, seps) == [c, none];
    FieldsPrefix(b, sep, t1, seps);
    assert Fields(t2, seps) == [b, c, none];
    FieldsPrefix(a, sep, t2, seps);
  }

  /** The tokens of the example name. */
  lemma ExampleTokens()
    ensures Tokens("MX Brown(체갈)") == ["MX", "Brown", "체갈"]
  {
    ExamplePieces();
    SelectThreeTokens("MX", "Brown", "체갈");
  }

  /** Of three non-empty pieces and an empty one, the three are tokens. */
  lemma SelectThreeTokens(a: string, b: string, c: string)
    requires a != [] && b != [] && c != []
    ensures Select([a, b, c, []], IsToken) == [a, b, c]
  {
    var p1: seq<string> := [a];
    var p2: seq<string> := [a, b];
    var p3: seq<string> := [a, b, c];
    var p4: seq<string> := [a, b, c, []];
    assert p4[..3] == p3 && p3[..2] == p2 && p2[..1] == p1 && p1[..0] == [];
    assert Select(p1, IsToken) == p1;
    assert Select(p2, IsToken) == p2;
    assert Select(p3, IsToken) == p3;
  }

  /** How the example's tokens are shared out. */
  lemma ExampleShares()
    ensures KoreanTokens(["MX", "Brown", "체갈"]) == ["체갈"]
    ensures OtherTokens(["MX", "Brown", "체갈"]) == ["MX", "Brown"]
  {
    var k: string := "체갈";
    assert IsHangul(k[0]);
    BelowHangul("MX");
    BelowHangul("Brown");
    ShareThree("MX", "Brown", k);
  }

  /** Two tokens without Hangul and one with: the last goes to the Hangul
    * list, the first two stay. */
  lemma ShareThree(a: string, b: string, c: string)
    requires NoHangul(a) && NoHangul(b) && HasHangul(c)
    ensures KoreanTokens([a, b, c]) == [c]
    ensures OtherTokens([a, b, c]) == [a, b]
  {
    var p1: seq<string> := [a];
    var p2: seq<string> := [a, b];
    var p3: seq<string> := [a, b, c];
    assert p3[..2] == p2 && p2[..1] == p1 && p1[..0] == [];
    assert Select(p2, HasHangul) == [] && Select(p2, NoHangul) == p2;
  }

  /** The example's other tokens, joined and trimmed. */
  lemma ExampleJoin()
    ensures Trim(JoinWith(["MX", "Brown"], ' ')) == "MX Brown"
  {
    var m: string := "MX";
    var b: string := "Brown";
    var joined := JoinWith([m, b], ' ');
    assert [m, b][1..] == [b];
    assert JoinWith([b], ' ') == b;
    assert joined == m + [' '] + b;
    assert joined == "MX Brown";
  }

  /** "MX Brown(체갈)" is indexed as "MX Brown" with the nickname "체갈". */
  lemma ExtractExample()
    ensures HangulTokens("MX Brown(체갈)") == ["체갈"]
    ensures CleanedName("MX Brown(체갈)") == "MX Brown"
  {
    ExampleTokens();
    ExampleShares();
    PiecesGiveTokens("MX Brown(체갈)");
    ExampleJoin();
  }
}
