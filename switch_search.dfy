/**
 * The switch search of SwitchService: a conjunctive JPA Specification over
 * the `switches` table, optionally restricted to the ids the search index
 * returns for a keyword, and the lookup of one switch by id.
 *
 * Page size, page number and sort order are the framework's; a result is
 * modelled as the set of matching records. The index's relevance and
 * analysis are unknowable here, so its answer to a keyword is an input:
 * the list of ids of the documents it returns.
 */
module SwitchSearch {
  import opened Wrappers
  import opened Text
  import opened Numbers
  import opened SwitchEntity
  import opened SwitchSync

  /** `StringUtils.hasText`: present and holding a character that is not
    * whitespace. */
  predicate HasText(s: Option<string>) {
    s.Some? && exists i :: 0 <= i < |s.value| && !IsJavaWhitespace(s.value[i])
  }

  /** One predicate of a Specification. */
  type Criterion = SwitchRecord -> bool

  /** `root.get("id").in(switchIds)`. */
  function IdIn(ids: seq<int>): Criterion {
    (r: SwitchRecord) => r.id.Some? && r.id.value in ids
  }

  /** `criteriaBuilder.equal(root.get("type"), type)`. */
  function TypeIs(t: SwitchType): Criterion {
    (r: SwitchRecord) => r.attrs.switchType == Some(t)
  }

  /** `criteriaBuilder.equal(root.get("manufacturer"), manufacturer)`. */
  function ManufacturerIs(m: string): Criterion {
    (r: SwitchRecord) => r.attrs.manufacturer == Some(m)
  }

  /** The `predicates` list a Specification builds: the id restriction when
    * `ids` is given, then the type when it is not null, then the
    * manufacturer when it has text. */
  function Criteria(ids: Option<seq<int>>, switchType: Option<SwitchType>, manufacturer: Option<string>): (ps: seq<Criterion>)
    ensures |ps| <= 3
    ensures ids.None? && switchType.None? && !HasText(manufacturer) ==> ps == []
  {
    (if ids.Some? then [IdIn(ids.value)] else [])
    + (if switchType.Some? then [TypeIs(switchType.value)] else [])
    + (if HasText(manufacturer) then [ManufacturerIs(manufacturer.value)] else [])
  }

  /** `criteriaBuilder.and(predicates)`: every predicate holds (so an empty
    * list admits every row). */
  predicate AllHold(ps: seq<Criterion>, r: SwitchRecord) {
    forall i :: 0 <= i < |ps| ==> ps[i](r)
  }

  /** The rows `findAll(spec)` returns. */
  function FindAll(table: Table, ps: seq<Criterion>): set<SwitchRecord> {
    set s | s in table && AllHold(ps, s)
  }

  /** `searchSwitches(type, manufacturer, keyword)`: `hits` are the ids of
    * the documents the index returns for the keyword. */
  function SearchSwitches(table: Table, switchType: Option<SwitchType>, manufacturer: Option<string>,
                          keyword: Option<string>, hits: seq<int>): (r: set<SwitchRecord>)
    ensures HasText(keyword) && hits == [] ==> r == {}
    ensures forall s :: s in r ==> s in table
  {
    if HasText(keyword) then
      if hits == [] then {} else FindAll(table, Criteria(Some(hits), switchType, manufacturer))
    else FindAll(table, Criteria(None, switchType, manufacturer))
  }

  /** The type and manufacturer filters: a null type and a manufacturer
    * without text impose nothing. */
  predicate PassesFilters(s: SwitchRecord, switchType: Option<SwitchType>, manufacturer: Option<string>) {
    && (switchType.None? || s.attrs.switchType == switchType)
    && (!HasText(manufacturer) || s.attrs.manufacturer == manufacturer)
  }

  /** The conjunction of the built predicates is the id restriction (when
    * given) and the two filters. */
  lemma CriteriaMeaning(ids: Option<seq<int>>, switchType: Option<SwitchType>, manufacturer: Option<string>, s: SwitchRecord)
    ensures AllHold(Criteria(ids, switchType, manufacturer), s)
            <==> PassesFilters(s, switchType, manufacturer) && (ids.Some? ==> s.id.Some? && s.id.value in ids.value)
  {
    var a := if ids.Some? then [IdIn(ids.value)] else [];
    var b := if switchType.Some? then [TypeIs(switchType.value)] else [];
    var c := if HasText(manufacturer) then [ManufacturerIs(manufacturer.value)] else [];
    AllHoldConcat(a + b, c, s);
    AllHoldConcat(a, b, s);
    assert AllHold(a, s) <==> (ids.Some? ==> s.id.Some? && s.id.value in ids.value) by {
      if ids.Some? { assert a[0] == IdIn(ids.value); }
    }
    assert AllHold(b, s) <==> (switchType.None? || s.attrs.switchType == switchType) by {
      if switchType.Some? { assert b[0] == TypeIs(switchType.value); }
    }
    assert AllHold(c, s) <==> (!HasText(manufacturer) || s.attrs.manufacturer == manufacturer) by {
      if HasText(manufacturer) { assert c[0] == ManufacturerIs(manufacturer.value); }
    }
  }

  /** A conjunction over two lists is the conjunction of the two. */
  lemma AllHoldConcat(a: seq<Criterion>, b: seq<Criterion>, s: SwitchRecord)
    ensures AllHold(a + b, s) <==> AllHold(a, s) && AllHold(b, s)
  {
    var ab := a + b;
    assert forall i :: 0 <= i < |a| ==> ab[i] == a[i];
    assert forall i :: 0 <= i < |b| ==> ab[|a| + i] == b[i];
    if AllHold(a, s) && AllHold(b, s) {
      forall i | 0 <= i < |ab| ensures ab[i](s) {
        if i >= |a| {
          assert ab[i] == b[i - |a|];
        }
      }
    }
  }

  /** With a keyword, the result is exactly the stored switches among the
    * hits that pass the filters; no hits give an empty result. */
  lemma SearchWithKeyword(table: Table, switchType: Option<SwitchType>, manufacturer: Option<string>,
                          keyword: Option<string>, hits: seq<int>, s: SwitchRecord)
    requires HasText(keyword)
    ensures s in SearchSwitches(table, switchType, manufacturer, keyword, hits)
            <==> s in table && s.id.Some? && s.id.value in hits && PassesFilters(s, switchType, manufacturer)
  {
    CriteriaMeaning(Some(hits), switchType, manufacturer, s);
  }

  /** Without a keyword, the result is exactly the stored switches that
    * pass the filters. */
  lemma SearchWithoutKeyword(table: Table, switchType: Option<SwitchType>, manufacturer: Option<string>,
                             keyword: Option<string>, hits: seq<int>, s: SwitchRecord)
    requires !HasText(keyword)
    ensures s in SearchSwitches(table, switchType, manufacturer, keyword, hits)
            <==> s in table && PassesFilters(s, switchType, manufacturer)
  {
    CriteriaMeaning(None, switchType, manufacturer, s);
  }

  /** Filters are conjoined: a type, a manufacturer or a keyword never
    * enlarges the result. */
  lemma SearchNarrows(table: Table, t: SwitchType, m: string, switchType: Option<SwitchType>, manufacturer: Option<string>,
                      keyword: Option<string>, hits: seq<int>)
    ensures SearchSwitches(table, Some(t), manufacturer, keyword, hits) <= SearchSwitches(table, None, manufacturer, keyword, hits)
    ensures SearchSwitches(table, switchType, Some(m), keyword, hits) <= SearchSwitches(table, switchType, None, keyword, hits)
    ensures SearchSwitches(table, switchType, manufacturer, keyword, hits) <= SearchSwitches(table, switchType, manufacturer, None, hits)
  {
    forall s | s in SearchSwitches(table, Some(t), manufacturer, keyword, hits)
      ensures s in SearchSwitches(table, None, manufacturer, keyword, hits)
    {
      Characterize(table, Some(t), manufacturer, keyword, hits, s);
      Characterize(table, None, manufacturer, keyword, hits, s);
    }
    forall s | s in SearchSwitches(table, switchType, Some(m), keyword, hits)
      ensures s in SearchSwitches(table, switchType, None, keyword, hits)
    {
      Characterize(table, switchType, Some(m), keyword, hits, s);
      Characterize(table, switchType, None, keyword, hits, s);
    }
    forall s | s in SearchSwitches(table, switchType, manufacturer, keyword, hits)
      ensures s in SearchSwitches(table, switchType, manufacturer, None, hits)
    {
      Characterize(table, switchType, manufacturer, keyword, hits, s);
      Characterize(table, switchType, manufacturer, None, hits, s);
    }
  }

  /** Both branches at once. */
  lemma Characterize(table: Table, switchType: Option<SwitchType>, manufacturer: Option<string>,
                     keyword: Option<string>, hits: seq<int>, s: SwitchRecord)
    ensures s in SearchSwitches(table, switchType, manufacturer, keyword, hits)
            <==> s in table && PassesFilters(s, switchType, manufacturer)
                 && (HasText(keyword) ==> s.id.Some? && s.id.value in hits)
  {
    if HasText(keyword) {
      SearchWithKeyword(table, switchType, manufacturer, keyword, hits, s);
    } else {
      SearchWithoutKeyword(table, switchType, manufacturer, keyword, hits, s);
    }
  }

  /** A blank keyword is no keyword: the index is not consulted. */
  lemma BlankKeywordIgnored(table: Table, switchType: Option<SwitchType>, manufacturer: Option<string>,
                            keyword: Option<string>, hits: seq<int>, otherHits: seq<int>)
    requires !HasText(keyword)
    ensures SearchSwitches(table, switchType, manufacturer, keyword, hits)
            == SearchSwitches(table, switchType, manufacturer, None, otherHits)
  {
  }

  /** The answer of `findSwitchById`: the switch, or the
    * IllegalArgumentException it throws, with its message. */
  datatype ById = Found(record: SwitchRecord) | NotFound(message: string)

  /** `findSwitchById(id)` over a table whose ids follow positions. */
  function FindSwitchById(table: Table, id: int): (r: ById)
    requires ValidTable(table)
    ensures r.Found? <==> exists i :: 0 <= i < |table| && table[i].id == Some(id)
    ensures r.Found? ==> r.record in table && r.record.id == Some(id)
    ensures r.NotFound? ==> r.message == "스위치를 찾을 수 없습니다: " + IntToString(id)
  {
    if 1 <= id <= |table| then Found(table[id - 1])
    else NotFound("스위치를 찾을 수 없습니다: " + IntToString(id))
  }
}
