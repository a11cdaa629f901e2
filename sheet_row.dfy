/**
 * One data row of a sheet tab (SwitchSheetRow): column lookup by header
 * keyword, the split of the combined force and material cells, the
 * category taken from the tab title, and the lenient conversion of the
 * text cells into a switch record.
 */
module SheetRow {
  import opened Wrappers
  import opened Text
  import opened Numbers
  import opened SwitchEntity

  /** The text cells of one row, trimmed; `None` is a Java null. */
  datatype SwitchSheetRow = SwitchSheetRow(
    rowNumber: int,
    name: Option<string>,
    switchType: Option<string>,
    category: string,
    weight: Option<string>,
    manufacturer: Option<string>,
    price: Option<string>,
    actuationForce: Option<string>,
    bottomOutForce: Option<string>,
    travelDistance: Option<string>,
    preTravel: Option<string>,
    springType: Option<string>,
    stemMaterial: Option<string>,
    housingMaterial: Option<string>,
    soundProfile: Option<string>,
    isLubed: Option<string>,
    description: Option<string>)

  /** The header keywords columns are looked up by. */
  const NameKey := "스위치이름"
  const TypeKey := "스위치타입"
  const ForceKey := "키압"
  const MaterialKey := "소재"
  const SpringKey := "스프링"
  const TravelKey := "총이동거리"
  const PreTravelKey := "입력이동거리"
  const UnlubedKey := "비윤활버전유무"
  const ManufacturerKey := "제조사"
  const PriceKey := "가격"
  const SoundKey := "소리특성"
  const DescriptionKey := "설명"

  /** The labels of the two parts of a labelled material cell. */
  const HousingLabel := "상하부"
  const StemLabel := "스템"

  /** Header text (spaces removed) to column index. */
  type HeaderMap = map<string, nat>

  /** The trimmed cell at `index`, or `None` past the end of the row. */
  function CellAt(values: seq<string>, index: nat): (r: Option<string>)
    ensures r.Some? <==> index < |values|
    ensures r.Some? ==> r.value == Trim(values[index])
  {
    if index < |values| then Some(Trim(values[index])) else None
  }

  /** `order` lists exactly the keys of `headerMap`: the order in which a
    * `HashMap` happens to hand out its entries, which the program does not
    * choose and this model leaves open. */
  predicate IsIterationOrder(headerMap: HeaderMap, order: seq<string>) {
    && (forall i :: 0 <= i < |order| ==> order[i] in headerMap)
    && (forall k :: k in headerMap ==> k in order)
  }

  /** The index of the first key in `order` containing `keyword`, or -1. */
  function FirstContaining(order: seq<string>, keyword: string): (r: int)
    ensures -1 <= r < |order|
    ensures r >= 0 ==> Contains(order[r], keyword)
    ensures forall j :: 0 <= j < |order| && (r < 0 || j < r) ==> !Contains(order[j], keyword)
  {
    if order == [] then -1
    else if Contains(order[0], keyword) then 0
    else
      var t := FirstContaining(order[1..], keyword);
      assert forall j :: 1 <= j < |order| ==> order[j] == order[1..][j - 1];
      if t < 0 then -1 else t + 1
  }

  /** What `getStringValue(values, headerMap, keyword)` returns when the map
    * iterates in `order`: the cell of the header equal to the keyword, else
    * of the first header met that contains it, else nothing. */
  function Lookup(values: seq<string>, headerMap: HeaderMap, order: seq<string>, keyword: string): (r: Option<string>)
    requires IsIterationOrder(headerMap, order)
    ensures r.Some? ==> Trim(r.value) == r.value
  {
    var i := FirstContaining(order, keyword);
    if keyword in headerMap then TrimmedCell(values, headerMap[keyword])
    else if i >= 0 then TrimmedCell(values, headerMap[order[i]])
    else None
  }

  /** `CellAt` with the fact that its value is trimmed. */
  function TrimmedCell(values: seq<string>, index: nat): (r: Option<string>)
    ensures r == CellAt(values, index)
    ensures r.Some? ==> Trim(r.value) == r.value
  {
    if index < |values| then TrimIdempotent(values[index]); CellAt(values, index) else None
  }

  /** `getStringValue(values, headerMap, keyword)`, the map iterating in `order`. */
  method GetStringValue(values: seq<string>, headerMap: HeaderMap, order: seq<string>, keyword: string)
      returns (r: Option<string>)
    requires IsIterationOrder(headerMap, order)
    ensures r == Lookup(values, headerMap, order, keyword)
  {
    var index: Option<nat> := if keyword in headerMap then Some(headerMap[keyword]) else None;
    if index.None? {
      var i := 0;
      while i < |order|
        invariant 0 <= i <= |order|
        invariant forall j :: 0 <= j < i ==> !Contains(order[j], keyword)
        invariant index.None?
      {
        if Contains(order[i], keyword) {
          index := Some(headerMap[order[i]]);
          assert FirstContaining(order, keyword) == i;
          break;
        }
        i := i + 1;
      }
    }
    if index.None? || index.value >= |values| {
      r := None;
    } else {
      r := Some(Trim(values[index.value]));
    }
  }

  /** The first-match search over a complete order succeeds exactly when
    * some header contains the keyword. */
  lemma FirstContainingFound(headerMap: HeaderMap, order: seq<string>, keyword: string)
    requires IsIterationOrder(headerMap, order)
    ensures FirstContaining(order, keyword) >= 0 <==> exists k :: k in headerMap && Contains(k, keyword)
  {
    if exists k :: k in headerMap && Contains(k, keyword) {
      var k :| k in headerMap && Contains(k, keyword);
      var j :| 0 <= j < |order| && order[j] == k;
    }
    var i := FirstContaining(order, keyword);
    if i >= 0 {
      assert order[i] in headerMap;
    }
  }

  /** The header-containing fallback picks SOME header containing the
    * keyword, and finds nothing only when no header contains it. */
  lemma LookupFallback(values: seq<string>, headerMap: HeaderMap, order: seq<string>, keyword: string)
    requires IsIterationOrder(headerMap, order) && keyword !in headerMap
    ensures (exists k :: k in headerMap && Contains(k, keyword)) ==>
              exists k :: k in headerMap && Contains(k, keyword)
                          && Lookup(values, headerMap, order, keyword) == CellAt(values, headerMap[k])
    ensures (forall k :: k in headerMap ==> !Contains(k, keyword)) ==> Lookup(values, headerMap, order, keyword).None?
  {
    FirstContainingFound(headerMap, order, keyword);
    var i := FirstContaining(order, keyword);
    if i >= 0 {
      assert order[i] in headerMap;
    }
  }

  /** Every header containing the keyword is the one used under some
    * iteration order, so the model fixes none of them. */
  lemma LookupAnyHeader(values: seq<string>, headerMap: HeaderMap, keyword: string, k: string)
    requires keyword !in headerMap && k in headerMap && Contains(k, keyword)
    ensures exists order :: IsIterationOrder(headerMap, order)
                            && Lookup(values, headerMap, order, keyword) == CellAt(values, headerMap[k])
  {
    var order := [k] + KeysOf(headerMap);
    assert order[0] == k;
    assert IsIterationOrder(headerMap, order) && FirstContaining(order, keyword) == 0;
  }

  /** Some enumeration of the keys of a map. */
  ghost function KeysOf(headerMap: HeaderMap): (r: seq<string>)
    ensures IsIterationOrder(headerMap, r)
    decreases |headerMap|
  {
    if headerMap == map[] then []
    else
      var k :| k in headerMap;
      var rest := KeysOf(headerMap - {k});
      assert forall i :: 1 <= i < |[k] + rest| ==> ([k] + rest)[i] == rest[i - 1];
      [k] + rest
  }

  /** An exact header wins whatever the order. */
  lemma LookupExactWins(values: seq<string>, headerMap: HeaderMap, order1: seq<string>, order2: seq<string>, keyword: string)
    requires keyword in headerMap
    requires IsIterationOrder(headerMap, order1) && IsIterationOrder(headerMap, order2)
    ensures Lookup(values, headerMap, order1, keyword) == Lookup(values, headerMap, order2, keyword)
                                                     == CellAt(values, headerMap[keyword])
  {
  }

  /** When every header containing the keyword names the same column, the
    * result does not depend on the order. */
  lemma LookupDeterminedByColumn(values: seq<string>, headerMap: HeaderMap, order1: seq<string>, order2: seq<string>,
                                 keyword: string, col: nat)
    requires IsIterationOrder(headerMap, order1) && IsIterationOrder(headerMap, order2)
    requires forall k :: k in headerMap && Contains(k, keyword) ==> headerMap[k] == col
    ensures Lookup(values, headerMap, order1, keyword) == Lookup(values, headerMap, order2, keyword)
  {
    FirstContainingFound(headerMap, order1, keyword);
    FirstContainingFound(headerMap, order2, keyword);
    var i1, i2 := FirstContaining(order1, keyword), FirstContaining(order2, keyword);
    if i1 >= 0 {
      assert order1[i1] in headerMap && order2[i2] in headerMap;
    }
  }

  // ---- forces: "45/60", "?/70", "55g" ----

  /** What survives `replaceAll("[a-zA-Z\\s]", "")`. */
  predicate IsForceChar(c: char) {
    !IsAsciiLetter(c) && !IsRegexSpace(c)
  }

  function ForceText(s: string): (r: string)
    ensures forall i :: 0 <= i < |r| ==> IsForceChar(r[i])
  {
    Filter(s, IsForceChar)
  }

  /** `parseForces`: (actuation, bottom-out) from the force cell. */
  function ParseForces(value: Option<string>): (r: (Option<string>, Option<string>))
    ensures value.None? || value.value == [] ==> r == (None, None)
    ensures r.0.Some? ==> value.Some? && '/' in ForceText(value.value)
    ensures r.0 != Some("?") && r.1 != Some("?")
    ensures r.0.Some? ==> forall i :: 0 <= i < |r.0.value| ==> IsForceChar(r.0.value[i]) && r.0.value[i] != '/'
    ensures r.1.Some? ==> forall i :: 0 <= i < |r.1.value| ==> IsForceChar(r.1.value[i]) && r.1.value[i] != '/'
  {
    if value.None? || value.value == [] then (None, None)
    else
      var cleaned := ForceText(value.value);
      if '/' in cleaned then
        var parts := JavaSplit(cleaned, {'/'});
        assert forall k, i :: 0 <= k < |parts| && 0 <= i < |parts[k]| ==> parts[k][i] in cleaned by {
          forall k, i | 0 <= k < |parts| && 0 <= i < |parts[k]| ensures parts[k][i] in cleaned {
            assert parts[k] == Fields(cleaned, {'/'})[k];
          }
        }
        (if |parts| > 0 && parts[0] != "?" then Some(parts[0]) else None,
         if |parts| > 1 && parts[1] != "?" then Some(parts[1]) else None)
      else if cleaned != "?" then (None, Some(cleaned))
      else (None, None)
  }

  /** Force text without '/' is the bottom-out force alone ("?" is unknown). */
  lemma ForcesSingle(v: string)
    requires v != [] && '/' !in ForceText(v)
    ensures ParseForces(Some(v)).0.None?
    ensures ParseForces(Some(v)).1 == if ForceText(v) == "?" then None else Some(ForceText(v))
  {
  }

  /** "a/b" gives a and b, a "?" side gives nothing, and Java's `split`
    * drops a trailing empty field, so "45/" has no bottom-out force and
    * "/" has neither. */
  lemma ForcesPair(a: string, b: string)
    requires forall i :: 0 <= i < |a| ==> IsForceChar(a[i]) && a[i] != '/'
    requires forall i :: 0 <= i < |b| ==> IsForceChar(b[i]) && b[i] != '/'
    ensures ParseForces(Some(a + "/" + b)) ==
      (if a == "?" || (a == [] && b == []) then None else Some(a),
       if b == "?" || b == [] then None else Some(b))
  {
    var s := a + "/" + b;
    assert forall i :: 0 <= i < |s| ==> IsForceChar(s[i]) by {
      forall i | 0 <= i < |s| ensures IsForceChar(s[i]) {
        if i < |a| { assert s[i] == a[i]; } else if i > |a| { assert s[i] == b[i - |a| - 1]; }
      }
    }
    FilterKeepsAll(s, IsForceChar);
    assert ForceText(s) == s;
    assert s[|a|] == '/';
    assert '/' in ForceText(s);
    var parts := JavaSplit(s, {'/'});
    SplitPair(a, b);
    assert ParseForces(Some(s)) ==
      (if |parts| > 0 && parts[0] != "?" then Some(parts[0]) else None,
       if |parts| > 1 && parts[1] != "?" then Some(parts[1]) else None);
  }

  /** `(a + "/" + b).split("/")` for sides without '/': both sides, or
    * fewer when trailing sides are empty. */
  lemma SplitPair(a: string, b: string)
    requires forall i :: 0 <= i < |a| ==> a[i] != '/'
    requires forall i :: 0 <= i < |b| ==> b[i] != '/'
    ensures JavaSplit(a + "/" + b, {'/'}) == if b != [] then [a, b] else if a != [] then [a] else []
  {
    var s := a + "/" + b;
    FieldsOfConcat(a, b, '/');
    assert a + ['/'] + b == s;
    assert Fields(s, {'/'}) == [a, b];
    assert JavaSplit(s, {'/'}) == DropTrailingEmpty([a, b]);
    if b == [] {
      assert [a, b][..1] == [a];
      assert DropTrailingEmpty([a, b]) == DropTrailingEmpty([a]);
      if a == [] {
        assert [a][..0] == [];
        assert DropTrailingEmpty([a]) == DropTrailingEmpty([]);
      }
    }
  }

  /** Units and spaces do not matter: the cell parses as its force text. */
  lemma ForcesIgnoreUnits(v: string)
    requires ForceText(v) != []
    ensures ParseForces(Some(v)) == ParseForces(Some(ForceText(v)))
  {
    FilterKeepsAll(ForceText(v), IsForceChar);
  }

  // ---- materials: "상하부: PC / 스템: POM", "PC-Mixed-POM" ----

  /** A labelled part with its label and ':' removed, then trimmed. */
  function CleanLabelled(part: string, tag: string): (r: string)
    requires tag != []
    ensures r == [] || (r[0] > ' ' && r[|r| - 1] > ' ')
  {
    Trim(RemoveAll(RemoveAll(part, tag), ":"))
  }

  /** The index of the last part that contains `tag`, or -1. */
  function LastContaining(parts: seq<string>, tag: string): (r: int)
    ensures -1 <= r < |parts|
    ensures r >= 0 ==> Contains(parts[r], tag)
    ensures forall j :: r < j < |parts| ==> !Contains(parts[j], tag)
  {
    if parts == [] then -1
    else if Contains(parts[|parts| - 1], tag) then |parts| - 1
    else LastContaining(parts[..|parts| - 1], tag)
  }

  /** The cleaned last part that contains `tag`, if any. */
  function LabelledValue(parts: seq<string>, tag: string): (r: Option<string>)
    requires tag != []
    ensures r.None? <==> forall k :: 0 <= k < |parts| ==> !Contains(parts[k], tag)
  {
    var i := LastContaining(parts, tag);
    if i >= 0 then Some(CleanLabelled(parts[i], tag)) else None
  }

  /** One more part either supplies the labelled value or leaves it. */
  lemma LabelledValueStep(parts: seq<string>, k: nat, tag: string)
    requires k < |parts| && tag != []
    ensures LabelledValue(parts[..k + 1], tag) ==
              if Contains(parts[k], tag) then Some(CleanLabelled(parts[k], tag)) else LabelledValue(parts[..k], tag)
  {
    var p := parts[..k + 1];
    assert p[..|p| - 1] == parts[..k];
    assert p[|p| - 1] == parts[k];
  }

  /** Whether the material cell is in the labelled form. */
  predicate IsLabelledMaterial(v: string) {
    Contains(v, HousingLabel) || Contains(v, StemLabel)
  }

  /** The (housing, stem) pair `parseMaterials` returns. */
  function Materials(value: Option<string>): (r: (Option<string>, Option<string>))
    ensures value.None? || value.value == [] ==> r == (None, None)
    ensures value.Some? && value.value != [] && !IsLabelledMaterial(value.value) ==> r.0.Some?
    ensures value.Some? && value.value != [] && !IsLabelledMaterial(value.value) && r.1.None? ==> r.0 == value
  {
    if value.None? || value.value == [] then (None, None)
    else
      var v := value.value;
      if IsLabelledMaterial(v) then
        var parts := JavaSplit(v, {'\n', '/'});
        (LabelledValue(parts, HousingLabel), LabelledValue(parts, StemLabel))
      else if Contains(v, "-") then
        var i := LastIndexOf(v, '-');
        if i > 0 then (Some(Trim(v[..i])), Some(Trim(v[i + 1..]))) else (Some(v), None)
      else (Some(v), None)
  }

  /** `parseMaterials`: the loop over the split parts, where a later part
    * with a tag overwrites an earlier one. */
  method ParseMaterials(value: Option<string>) returns (housing: Option<string>, stem: Option<string>)
    ensures (housing, stem) == Materials(value)
  {
    housing, stem := None, None;
    if value.Some? && value.value != [] {
      var v := value.value;
      if Contains(v, HousingLabel) || Contains(v, StemLabel) {
        var parts := JavaSplit(v, {'\n', '/'});
        var k := 0;
        while k < |parts|
          invariant 0 <= k <= |parts|
          invariant housing == LabelledValue(parts[..k], HousingLabel)
          invariant stem == LabelledValue(parts[..k], StemLabel)
        {
          var part := parts[k];
          LabelledValueStep(parts, k, HousingLabel);
          LabelledValueStep(parts, k, StemLabel);
          if Contains(part, HousingLabel) {
            housing := Some(CleanLabelled(part, HousingLabel));
          }
          if Contains(part, StemLabel) {
            stem := Some(CleanLabelled(part, StemLabel));
          }
          k := k + 1;
        }
        assert parts[..|parts|] == parts;
      } else if Contains(v, "-") {
        var lastHyphen := LastIndexOf(v, '-');
        if lastHyphen > 0 {
          housing := Some(Trim(v[..lastHyphen]));
          stem := Some(Trim(v[lastHyphen + 1..]));
        } else {
          housing := value;
        }
      } else {
        housing := value;
      }
    }
  }

  /** The hyphen form splits at the last hyphen: "PC-Mixed-POM" has housing
    * "PC-Mixed" and stem "POM". */
  lemma MaterialsAtLastHyphen(h: string, s: string)
    requires h != [] && forall i :: 0 <= i < |s| ==> s[i] != '-'
    requires !IsLabelledMaterial(h + "-" + s)
    ensures Materials(Some(h + "-" + s)) == (Some(Trim(h)), Some(Trim(s)))
  {
    var v := h + "-" + s;
    LastHyphenAt(h, s);
    assert v[..|h|] == h && v[|h| + 1..] == s;
  }

  /** In `h + "-" + s` with no hyphen in `s`, the last hyphen is the one
    * after `h`. */
  lemma LastHyphenAt(h: string, s: string)
    requires forall i :: 0 <= i < |s| ==> s[i] != '-'
    ensures Contains(h + "-" + s, "-") && LastIndexOf(h + "-" + s, '-') == |h|
  {
    var v := h + "-" + s;
    OnlyHyphenAt(h, s);
    LastIndexOfAt(v, '-', |h|);
    assert OccursAt(v, "-", |h|) by {
      assert v[|h|..|h| + 1] == "-";
    }
    ContainsAt(v, "-", |h|);
  }

  /** The hyphen after `h` is the only one from there on. */
  lemma OnlyHyphenAt(h: string, s: string)
    requires forall i :: 0 <= i < |s| ==> s[i] != '-'
    ensures var v := h + "-" + s; v[|h|] == '-' && forall k :: |h| < k < |v| ==> v[k] != '-'
  {
    var v := h + "-" + s;
    assert v[|h|] == '-';
    forall k | |h| < k < |v|
      ensures v[k] != '-'
    {
      var a := h + "-";
      assert v == a + s && |a| == |h| + 1;
      assert v[k] == s[k - |a|];
    }
  }

  /** A leading hyphen is no split point: the whole value is the housing. */
  lemma MaterialsLeadingHyphen(s: string)
    requires forall i :: 0 <= i < |s| ==> s[i] != '-'
    requires !IsLabelledMaterial("-" + s)
    ensures Materials(Some("-" + s)) == (Some("-" + s), None)
  {
    var v := "-" + s;
    assert OccursAt(v, "-", 0);
    assert forall k :: 0 < k < |v| ==> v[k] == s[k - 1];
    LastIndexOfAt(v, '-', 0);
  }

  // ---- category: "체리(9)" -> "체리" ----

  /** The characters `java.util.regex` treats as line terminators when
    * UNIX_LINES is off (the pair "\r\n" counts as one terminator). */
  predicate IsLineTerminator(c: char) {
    c == '\n' || c == '\r' || c == '\U{0085}' || c == '\U{2028}' || c == '\U{2029}'
  }

  /** Where `$` matches without MULTILINE: at the end of the input, before
    * a final "\r\n", or before a final line terminator that is not the
    * '\n' of an "\r\n". */
  predicate DollarAt(s: string, e: nat) {
    || e == |s|
    || (e + 2 == |s| && s[e] == '\r' && s[e + 1] == '\n')
    || (e + 1 == |s| && IsLineTerminator(s[e]) && !(s[e] == '\n' && e > 0 && s[e - 1] == '\r'))
  }

  /** `s[i..e]` is "(" digits ")" and `$` matches at `e`. */
  predicate HasCountSuffixAt(s: string, i: nat, e: nat) {
    i + 3 <= e <= |s| && DollarAt(s, e) && s[i] == '(' && s[e - 1] == ')' && AllDigits(s[i + 1..e - 1])
  }

  /** Where a count group must end: before a final "\r\n", before another
    * final line terminator, or at the end. */
  function SuffixEnd(s: string): (e: nat)
    ensures e <= |s| && DollarAt(s, e)
    ensures e < |s| ==> IsLineTerminator(s[e])
  {
    if |s| >= 2 && s[|s| - 2] == '\r' && s[|s| - 1] == '\n' then |s| - 2
    else if |s| >= 1 && IsLineTerminator(s[|s| - 1]) then |s| - 1
    else |s|
  }

  /** The length of the run of digits ending `s`. */
  function TrailingDigits(s: string): (n: nat)
    ensures n <= |s|
    ensures forall k :: |s| - n <= k < |s| ==> IsAsciiDigit(s[k])
    ensures n < |s| ==> !IsAsciiDigit(s[|s| - n - 1])
  {
    if s != [] && IsAsciiDigit(s[|s| - 1]) then 1 + TrailingDigits(s[..|s| - 1]) else 0
  }

  /** A count group at `j` ends where `SuffixEnd` says, and is exactly the
    * digit run before its ')' and the '(' in front of it. */
  lemma CountSuffixShape(s: string, j: nat, e: nat)
    requires HasCountSuffixAt(s, j, e)
    ensures e == SuffixEnd(s)
    ensures TrailingDigits(s[..e - 1]) == e - 2 - j
  {
    var body := s[..e - 1];
    assert forall k :: j < k < |body| ==> IsAsciiDigit(body[k]) by {
      forall k | j < k < |body| ensures IsAsciiDigit(body[k]) {
        assert body[k] == s[j + 1..e - 1][k - j - 1];
      }
    }
    assert !IsAsciiDigit(body[j]);
  }

  lemma CountSuffixShapes(s: string)
    ensures forall j: nat, e: nat :: HasCountSuffixAt(s, j, e) ==>
              e == SuffixEnd(s) && TrailingDigits(s[..e - 1]) == e - 2 - j
  {
    forall j: nat, e: nat | HasCountSuffixAt(s, j, e)
      ensures e == SuffixEnd(s) && TrailingDigits(s[..e - 1]) == e - 2 - j
    {
      CountSuffixShape(s, j, e);
    }
  }

  /** The start and end of the count group `$` finds in `s`; there is at
    * most one. */
  function CountSuffix(s: string): (r: Option<(nat, nat)>)
    ensures forall i: nat, e: nat :: HasCountSuffixAt(s, i, e) <==> r == Some((i, e))
  {
    CountSuffixShapes(s);
    var e := SuffixEnd(s);
    if e >= 3 && s[e - 1] == ')' then
      var body := s[..e - 1];
      var n := TrailingDigits(body);
      if n > 0 && n < |body| && body[|body| - n - 1] == '(' then
        var i := |body| - n - 1;
        assert forall k :: i < k < e - 1 ==> s[k] == body[k];
        assert s[i + 1..e - 1] == body[i + 1..];
        Some((i, e))
      else None
    else None
  }

  /** `s.replaceAll("\\([0-9]+\\)$", "")`: the group `$` finds is cut out,
    * and a line terminator after it stays. */
  function StripCountSuffix(s: string): (r: string)
    ensures |r| <= |s|
    ensures forall i: nat, e: nat :: HasCountSuffixAt(s, i, e) ==> r == s[..i] + s[e..]
    ensures (forall i: nat, e: nat :: !HasCountSuffixAt(s, i, e)) ==> r == s
  {
    match CountSuffix(s)
    case None => s
    case Some((i, e)) => s[..i] + s[e..]
  }

  /** A title ending in a count group loses exactly that group. */
  lemma {:induction false} StripCountSuffixOf(t: string, d: string)
    requires d != [] && AllDigits(d)
    ensures StripCountSuffix(t + "(" + d + ")") == t
  {
    var s := t + "(" + d + ")";
    assert s[|t| + 1..|s| - 1] == d;
    assert HasCountSuffixAt(s, |t|, |s|);
    assert s[..|t|] == t;
  }

  /** A count group before a final line terminator is cut too; the
    * terminator stays. */
  lemma {:induction false} StripCountSuffixBeforeTerminator(t: string, d: string, z: string)
    requires d != [] && AllDigits(d)
    requires z == "\r\n" || (|z| == 1 && IsLineTerminator(z[0]))
    ensures StripCountSuffix(t + "(" + d + ")" + z) == t + z
  {
    var g := t + "(" + d + ")";
    var s := g + z;
    assert s[|t| + 1..|g| - 1] == d;
    assert s[|g| - 1] == ')';
    assert DollarAt(s, |g|);
    assert HasCountSuffixAt(s, |t|, |g|);
    assert s[..|t|] == t && s[|g|..] == z;
  }

  /** A title in which `$` finds no count group is kept. */
  lemma StripCountSuffixKeeps(s: string)
    requires forall i: nat, e: nat :: !HasCountSuffixAt(s, i, e)
    ensures StripCountSuffix(s) == s
  {
  }

  /** The category stored for a tab. */
  function CleanCategory(sheetTitle: string): (r: string)
    ensures IsTrimOf(StripCountSuffix(sheetTitle), r)
  {
    Trim(StripCountSuffix(sheetTitle))
  }

  /** A title with printable ends followed by a count group gives the
    * title as category. */
  lemma {:induction false} CategoryOfCounted(t: string, d: string)
    requires t != [] && t[0] > ' ' && t[|t| - 1] > ' '
    requires d != [] && AllDigits(d)
    ensures CleanCategory(t + "(" + d + ")") == t
  {
    StripCountSuffixOf(t, d);
    assert Trim(t) == t;
  }

  /** The same with a final line terminator that `trim` removes. */
  lemma {:induction false} CategoryOfCountedLine(t: string, d: string, z: string)
    requires t != [] && t[0] > ' ' && t[|t| - 1] > ' '
    requires d != [] && AllDigits(d)
    requires z == "\r\n" || z == "\n" || z == "\r"
    ensures CleanCategory(t + "(" + d + ")" + z) == t
  {
    StripCountSuffixBeforeTerminator(t, d, z);
    TrimPadded([], t, z);
    assert [] + t + z == t + z;
  }

  /** A tab title from the comment on `from`'s category cleaning: "체리(9)"
    * gives "체리". */
  lemma CategoryExample(title: string)
    requires title == "체리(9)"
    ensures CleanCategory(title) == "체리"
  {
    assert title == "체리" + "(" + "9" + ")";
    CategoryOfCounted("체리", "9");
  }

  /** A tab title from the comment on `from`'s category cleaning: only the
    * final count group goes, and the bracketed name stays. */
  lemma CategoryExampleMixed(title: string)
    requires title == "Outemu(오테뮤)&Gazzew(4)"
    ensures CleanCategory(title) == "Outemu(오테뮤)&Gazzew"
  {
    assert title == "Outemu(오테뮤)&Gazzew" + "(" + "4" + ")";
    CategoryOfCounted("Outemu(오테뮤)&Gazzew", "4");
  }

  /** "체리(9)" followed by a newline still gives "체리": the group before
    * the final '\n' is cut and `trim` removes the '\n'. */
  lemma CategoryBeforeNewline(title: string)
    requires title == "체리(9)\n"
    ensures CleanCategory(title) == "체리"
  {
    assert title == "체리" + "(" + "9" + ")" + "\n";
    CategoryOfCountedLine("체리", "9", "\n");
  }

  /** The row `from(rowNumber, values, headerMap, sheetTitle)` builds when the
    * header map iterates in `order`. */
  function RowOf(rowNumber: int, values: seq<string>, headerMap: HeaderMap, order: seq<string>, sheetTitle: string): SwitchSheetRow
    requires IsIterationOrder(headerMap, order)
  {
    var forces := ParseForces(Lookup(values, headerMap, order, ForceKey));
    var materials := Materials(Lookup(values, headerMap, order, MaterialKey));
    SwitchSheetRow(
      rowNumber, Lookup(values, headerMap, order, NameKey), Lookup(values, headerMap, order, TypeKey),
      CleanCategory(sheetTitle), None, Lookup(values, headerMap, order, ManufacturerKey),
      Lookup(values, headerMap, order, PriceKey), forces.0, forces.1,
      Lookup(values, headerMap, order, TravelKey), Lookup(values, headerMap, order, PreTravelKey),
      Lookup(values, headerMap, order, SpringKey), materials.1, materials.0,
      Lookup(values, headerMap, order, SoundKey), Lookup(values, headerMap, order, UnlubedKey),
      Lookup(values, headerMap, order, DescriptionKey))
  }

  /** `SwitchSheetRow.from`. The "unlubed version available" column is
    * stored as `isLubed` as it is; no column fills `weight`. */
  method From(rowNumber: int, values: seq<string>, headerMap: HeaderMap, order: seq<string>, sheetTitle: string)
      returns (row: SwitchSheetRow)
    requires IsIterationOrder(headerMap, order)
    ensures row == RowOf(rowNumber, values, headerMap, order, sheetTitle)
  {
    var keyPressure := GetStringValue(values, headerMap, order, ForceKey);
    var materialsRaw := GetStringValue(values, headerMap, order, MaterialKey);
    var forces := ParseForces(keyPressure);
    var housing, stem := ParseMaterials(materialsRaw);
    var cleanCategory := CleanCategory(sheetTitle);
    var name := GetStringValue(values, headerMap, order, NameKey);
    var switchType := GetStringValue(values, headerMap, order, TypeKey);
    var springType := GetStringValue(values, headerMap, order, SpringKey);
    var travelDistance := GetStringValue(values, headerMap, order, TravelKey);
    var preTravel := GetStringValue(values, headerMap, order, PreTravelKey);
    var isLubed := GetStringValue(values, headerMap, order, UnlubedKey);
    var manufacturer := GetStringValue(values, headerMap, order, ManufacturerKey);
    var price := GetStringValue(values, headerMap, order, PriceKey);
    var soundProfile := GetStringValue(values, headerMap, order, SoundKey);
    var description := GetStringValue(values, headerMap, order, DescriptionKey);
    row := SwitchSheetRow(rowNumber, name, switchType, cleanCategory, None, manufacturer, price,
                          forces.0, forces.1, travelDistance, preTravel, springType, stem, housing,
                          soundProfile, isLubed, description);
  }

  /** A sheet whose headers include every keyword exactly yields the same
    * row whatever order its map iterates in. */
  lemma RowOfExactHeaders(rowNumber: int, values: seq<string>, headerMap: HeaderMap,
                          order1: seq<string>, order2: seq<string>, sheetTitle: string)
    requires IsIterationOrder(headerMap, order1) && IsIterationOrder(headerMap, order2)
    requires NameKey in headerMap && TypeKey in headerMap && ForceKey in headerMap && MaterialKey in headerMap
    requires SpringKey in headerMap && TravelKey in headerMap && PreTravelKey in headerMap && UnlubedKey in headerMap
    requires ManufacturerKey in headerMap && PriceKey in headerMap && SoundKey in headerMap && DescriptionKey in headerMap
    ensures RowOf(rowNumber, values, headerMap, order1, sheetTitle) == RowOf(rowNumber, values, headerMap, order2, sheetTitle)
  {
  }

  /** Every text cell of a built row is trimmed, and the two force cells
    * come from the one "키압" cell. */
  lemma RowOfCells(rowNumber: int, values: seq<string>, headerMap: HeaderMap, order: seq<string>, sheetTitle: string)
    requires IsIterationOrder(headerMap, order)
    ensures var row := RowOf(rowNumber, values, headerMap, order, sheetTitle);
      && row.rowNumber == rowNumber && row.weight.None?
      && (row.name.Some? ==> Trim(row.name.value) == row.name.value)
      && (row.switchType.Some? ==> Trim(row.switchType.value) == row.switchType.value)
      && (Lookup(values, headerMap, order, ForceKey).None? ==> row.actuationForce.None? && row.bottomOutForce.None?)
      && (Lookup(values, headerMap, order, MaterialKey).None? ==> row.housingMaterial.None? && row.stemMaterial.None?)
  {
  }

  // ---- lenient conversions used by toEntity ----

  /** `SwitchType.fromString` and `SoundProfile.fromString`, whose bodies
    * are not part of this model: `None` stands for IllegalArgumentException. */
  datatype EnumParsers = EnumParsers(
    switchType: string -> Option<SwitchType>,
    soundProfile: string -> Option<SoundProfile>)

  function ParseType(value: Option<string>, parsers: EnumParsers): (r: Option<SwitchType>)
    ensures value.None? || value.value == [] ==> r.None?
    ensures value.Some? && value.value != [] ==> r == parsers.switchType(value.value)
  {
    if value.None? || value.value == [] then None else parsers.switchType(value.value)
  }

  function ParseSoundProfile(value: Option<string>, parsers: EnumParsers): (r: Option<SoundProfile>)
    ensures value.None? || value.value == [] ==> r.None?
    ensures value.Some? && value.value != [] ==> r == parsers.soundProfile(value.value)
  {
    if value.None? || value.value == [] then None else parsers.soundProfile(value.value)
  }

  /** What survives `replaceAll("[^0-9-]", "")`. */
  predicate IsIntegerChar(c: char) { IsAsciiDigit(c) || c == '-' }

  /** `parseInteger`: digits and '-' kept, then `Integer.parseInt`;
    * nothing left, or an unparsable remainder, is null. */
  function ParseInteger(value: Option<string>): (r: Option<int>)
    ensures r.Some? ==> IntMin <= r.value <= IntMax
    ensures r.Some? ==> value.Some? && HasDigit(value.value)
  {
    if value.None? || value.value == [] then None
    else
      var cleaned := Filter(value.value, IsIntegerChar);
      if cleaned == [] then None
      else
        ParsedIntegerHasDigit(value.value);
        ParseJavaInt(cleaned)
  }

  lemma ParsedIntegerHasDigit(v: string)
    ensures ParseJavaInt(Filter(v, IsIntegerChar)).Some? ==> HasDigit(v)
  {
    var cleaned := Filter(v, IsIntegerChar);
    FilterFromInput(v, IsIntegerChar);
    if ParseJavaInt(cleaned).Some? {
      var j := if cleaned[0] == '-' then 1 else 0;
      assert IsAsciiDigit(cleaned[j]);
      assert cleaned[j] in v;
    }
  }

  /** A number followed by a unit parses as the number: "50g" is 50. */
  lemma ParseIntegerWithUnit(n: int, unit: string)
    requires IntMin <= n <= IntMax
    requires forall i :: 0 <= i < |unit| ==> !IsIntegerChar(unit[i])
    ensures ParseInteger(Some(IntToString(n) + unit)) == Some(n)
  {
    var s := IntToString(n);
    FilterConcat(s, unit, IsIntegerChar);
    FilterKeepsAll(s, IsIntegerChar);
    FilterDropsAll(unit, IsIntegerChar);
    assert Filter(s + unit, IsIntegerChar) == s;
    IntRoundTrip(n);
  }

  /** A value beyond the `int` range has no integer. */
  lemma ParseIntegerOverflow(n: nat)
    requires n > IntMax
    ensures ParseInteger(Some(IntToString(n))).None?
  {
    var s := IntToString(n);
    FilterKeepsAll(s, IsIntegerChar);
  }

  lemma IntegerWithUnitExample()
    ensures ParseInteger(Some("50g")) == Some(50)
  {
    assert NatToDigits(5) == "5";
    assert NatToDigits(50) == "5" + [DigitChar(0)];
    ParseIntegerWithUnit(50, "g");
    assert IntToString(50) + "g" == "50g";
  }

  /** A lone '-', an inner '-' and a cell without digits have no integer. */
  lemma IntegerRejectExamples()
    ensures ParseInteger(Some("-")).None?
    ensures ParseInteger(Some("1-2")).None?
    ensures ParseInteger(Some("gf")).None?
  {
    assert Filter("-", IsIntegerChar) == "-";
    assert Filter("1-2", IsIntegerChar) == "1-2";
    InnerMinusRejected("1", "2");
    assert "1" + "-" + "2" == "1-2";
    assert Filter("gf", IsIntegerChar) == [];
  }

  /** What survives `replaceAll("[^0-9.]", "")`. */
  predicate IsDecimalChar(c: char) { IsAsciiDigit(c) || c == '.' }

  function DecimalText(s: string): (r: string)
    ensures IsDecimalAlphabet(r)
  {
    Filter(s, IsDecimalChar)
  }

  /** `parseBigDecimal`: digits and '.' kept, then `new BigDecimal`; it
    * parses exactly when at most one '.' is left beside some digit. */
  function ParseBigDecimal(value: Option<string>): (r: Option<Decimal>)
    ensures value.None? || value.value == [] ==> r.None?
    ensures value.Some? && value.value != [] ==>
              (r.Some? <==> |Fields(DecimalText(value.value), {'.'})| <= 2 && HasDigit(DecimalText(value.value)))
  {
    if value.None? || value.value == [] then None
    else
      var cleaned := DecimalText(value.value);
      if cleaned == [] then None else ParseDecimal(cleaned)
  }

  /** "digits.digits" followed by a unit parses as the number, with the
    * fraction's length as its scale. */
  lemma ParseBigDecimalWithUnit(a: string, b: string, unit: string)
    requires AllDigits(a) && AllDigits(b) && |a| + |b| > 0
    requires forall i :: 0 <= i < |unit| ==> !IsDecimalChar(unit[i])
    ensures ParseBigDecimal(Some(a + "." + b + unit)) == Some(Decimal(DigitsValue(a + b), |b|))
  {
    var d := a + "." + b;
    assert forall i :: 0 <= i < |d| ==> IsDecimalChar(d[i]) by {
      forall i | 0 <= i < |d| ensures IsDecimalChar(d[i]) {
        if i < |a| { assert d[i] == a[i]; } else if i > |a| { assert d[i] == b[i - |a| - 1]; }
      }
    }
    FilterConcat(d, unit, IsDecimalChar);
    FilterKeepsAll(d, IsDecimalChar);
    FilterDropsAll(unit, IsDecimalChar);
    assert DecimalText(d + unit) == d;
    ParseDecimalForm(a, b);
  }

  lemma DecimalWithUnitExample()
    ensures ParseBigDecimal(Some("4.0mm")) == Some(Decimal(40, 1))
  {
    ParseBigDecimalWithUnit("4", "0", "mm");
    assert "4" + "." + "0" + "mm" == "4.0mm";
    assert DigitsValue("4" + "0") == 40 by {
      assert "4" + "0" == "40";
      assert "40"[..1] == "4";
    }
  }

  lemma DecimalTwoDotsExample()
    ensures ParseBigDecimal(Some("1.2.3")).None?
  {
    assert DecimalText("1.2.3") == "1.2.3";
    TwoDotsRejected();
  }

  /** The texts `parseBoolean` reads as true, once lower-cased and trimmed. */
  const TrueWords: set<string> := {"true", "yes", "o", "1", "윤활"}

  /** `parseBoolean`. */
  function ParseBoolean(value: Option<string>): (b: bool)
    ensures value.None? || value.value == [] ==> !b
    ensures b ==> Trim(ToLowerAscii(value.value)) in TrueWords
    ensures value.Some? && value.value != [] && Trim(ToLowerAscii(value.value)) in TrueWords ==> b
  {
    if value.None? || value.value == [] then false
    else Trim(ToLowerAscii(value.value)) in TrueWords
  }

  /** Letter case never changes the answer. */
  lemma ParseBooleanCaseInsensitive(s: string)
    ensures ParseBoolean(Some(s)) == ParseBoolean(Some(ToLowerAscii(s)))
  {
    ToLowerIdempotent(s);
  }

  lemma BooleanExample()
    ensures ParseBoolean(Some("O"))
  {
    assert ToLowerAscii("O") == "o";
    assert Trim("o") == "o";
  }

  /** A true word in any letter case, with blanks around it, reads as true. */
  lemma BooleanAroundTrueWord(p: string, s: string, q: string)
    requires forall k :: 0 <= k < |p| ==> p[k] <= ' '
    requires forall k :: 0 <= k < |q| ==> q[k] <= ' '
    requires ToLowerAscii(s) in TrueWords
    ensures ParseBoolean(Some(p + s + q))
  {
    var w := ToLowerAscii(s);
    assert w != [] && w[0] > ' ' && w[|w| - 1] > ' ';
    var v := p + s + q;
    assert ToLowerAscii(v) == p + w + q by {
      var l := ToLowerAscii(v);
      forall k | 0 <= k < |v|
        ensures l[k] == (p + w + q)[k]
      {
        if k < |p| {
          assert v[k] == p[k];
        } else if k < |p| + |s| {
          assert v[k] == s[k - |p|];
        } else {
          assert v[k] == q[k - |p| - |s|];
        }
      }
    }
    TrimPadded(p, w, q);
  }

  /** " YES " reads as true. */
  lemma BooleanPaddedExample()
    ensures ParseBoolean(Some(" YES "))
  {
    assert ToLowerAscii("YES") == "yes";
    assert " YES " == " " + "YES" + " ";
    BooleanAroundTrueWord(" ", "YES", " ");
  }

  /** `toEntity`: the row's text converted column by column. */
  function ToEntity(row: SwitchSheetRow, parsers: EnumParsers): (r: SwitchRecord)
    ensures r.id.None? && r.switchVideos == [] && r.googleSheetsRow == Some(row.rowNumber)
    ensures r.attrs.name == row.name && r.attrs.category == Some(row.category)
    ensures r.attrs.manufacturer == row.manufacturer && r.attrs.description == row.description
    ensures r.attrs.stemMaterial == row.stemMaterial && r.attrs.housingMaterial == row.housingMaterial
    ensures r.attrs.springType == row.springType
    ensures r.attrs.isLubed == Some(ParseBoolean(row.isLubed))
    ensures r.attrs.price.Some? ==> IntMin <= r.attrs.price.value <= IntMax
    ensures r.attrs.switchType.Some? ==> row.switchType.Some? && row.switchType.value != []
    ensures r.attrs.switchType == ParseType(row.switchType, parsers)
    ensures r.attrs.soundProfile == ParseSoundProfile(row.soundProfile, parsers)
    ensures r.attrs.weight == ParseInteger(row.weight) && r.attrs.price == ParseInteger(row.price)
    ensures r.attrs.actuationForce == ParseInteger(row.actuationForce)
    ensures r.attrs.bottomOutForce == ParseInteger(row.bottomOutForce)
    ensures r.attrs.travelDistance == ParseBigDecimal(row.travelDistance)
    ensures r.attrs.preTravel == ParseBigDecimal(row.preTravel)
  {
    NewSwitch(
      SwitchAttributes(
        row.name, ParseType(row.switchType, parsers), Some(row.category), ParseInteger(row.weight),
        row.manufacturer, ParseInteger(row.price), ParseInteger(row.actuationForce),
        ParseInteger(row.bottomOutForce), ParseBigDecimal(row.travelDistance),
        ParseBigDecimal(row.preTravel), row.springType, row.stemMaterial, row.housingMaterial,
        ParseSoundProfile(row.soundProfile, parsers), Some(ParseBoolean(row.isLubed)),
        row.description),
      Some(row.rowNumber))
  }

  /** Rows built by `from` carry no weight, so their entities have none. */
  lemma EntityOfParsedRowHasNoWeight(rowNumber: int, values: seq<string>, headerMap: HeaderMap, order: seq<string>,
                                     sheetTitle: string, parsers: EnumParsers)
    requires IsIterationOrder(headerMap, order)
    ensures ToEntity(RowOf(rowNumber, values, headerMap, order, sheetTitle), parsers).attrs.weight.None?
    ensures ToEntity(RowOf(rowNumber, values, headerMap, order, sheetTitle), parsers).googleSheetsRow == Some(rowNumber)
  {
  }
}
