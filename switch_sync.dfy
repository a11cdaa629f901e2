/**
 * The sheet-to-database synchronisation (SwitchSyncService): every sheet
 * row with a name and a type is upserted into the `switches` table,
 * matched first by (sheet row, tab) and then by name, and the stored
 * switch is indexed for search; single rows can also be synchronised by
 * row number alone.
 *
 * The table and the search index are modelled as values held by the
 * service: the table as the sequence of stored records, the record with the
 * generated id i + 1 at position i; the index as a map from id to document.
 * Whether a save fails for a reason the model does not see (a lost
 * connection, a column too long, an index outage) is an input: the set of
 * row positions whose table save fails and the set whose index save fails.
 */
module SwitchSync {
  import opened Wrappers
  import opened SwitchEntity
  import opened SheetRow
  import opened Nicknames
  import opened SwitchNames

  /** A document of the `switches` search index. */
  datatype SwitchDocument = SwitchDocument(
    id: Option<int>,
    name: Option<string>,
    brand: Option<string>,
    category: Option<string>,
    nicknames: seq<string>)

  /** The `switches` table, by position: position i holds id i + 1. */
  type Table = seq<SwitchRecord>

  /** Ids follow positions and every stored row meets the NOT NULL
    * constraints. */
  predicate ValidTable(t: Table) {
    forall i :: 0 <= i < |t| ==> t[i].id == Some(i + 1) && SatisfiesNotNull(t[i])
  }

  /** The answer of a derived query returning `Optional`: no row, the one
    * matching row (by position), or several rows, which Spring reports by
    * throwing IncorrectResultSizeDataAccessException. */
  datatype Found = NoMatch | Match(index: nat) | NonUnique

  /** Runs a query with the condition `p` over the table. */
  function FindOne(t: Table, p: SwitchRecord -> bool): (r: Found)
    ensures r.Match? ==> r.index < |t| && p(t[r.index])
  {
    if t == [] then NoMatch
    else
      var last := |t| - 1;
      var rest := FindOne(t[..last], p);
      if !p(t[last]) then rest
      else if rest.NoMatch? then Match(last)
      else NonUnique
  }

  /** The query finds nothing exactly when no row satisfies the
    * condition, the one row when exactly one does, and throws when two
    * do. */
  lemma {:induction false} FindOneMeaning(t: Table, p: SwitchRecord -> bool)
    ensures FindOne(t, p).NoMatch? <==> forall i :: 0 <= i < |t| ==> !p(t[i])
    ensures FindOne(t, p).Match? ==> forall i :: 0 <= i < |t| && i != FindOne(t, p).index ==> !p(t[i])
    ensures FindOne(t, p).NonUnique? ==> exists i, j :: 0 <= i < j < |t| && p(t[i]) && p(t[j])
  {
    if t != [] {
      var last := |t| - 1;
      FindOneMeaning(t[..last], p);
      assert forall i :: 0 <= i < last ==> t[..last][i] == t[i];
      var rest := FindOne(t[..last], p);
      if p(t[last]) && !rest.NoMatch? {
        assert exists i :: 0 <= i < last && p(t[i]);
      }
    }
  }

  /** `findByGoogleSheetsRowAndCategory(row, category)`. */
  function ByRowAndCategory(rowNumber: int, category: string): SwitchRecord -> bool {
    (r: SwitchRecord) => r.googleSheetsRow == Some(rowNumber) && r.attrs.category == Some(category)
  }

  /** `findByName(name)`. */
  function ByName(name: string): SwitchRecord -> bool {
    (r: SwitchRecord) => r.attrs.name == Some(name)
  }

  /** `findByGoogleSheetsRow(row)`. */
  function ByRow(rowNumber: int): SwitchRecord -> bool {
    (r: SwitchRecord) => r.googleSheetsRow == Some(rowNumber)
  }

  /** The existing switch `processSingleSwitch` picks for a row: the one
    * stored for the same sheet row of the same tab, or else, when there is
    * none and the row has a name, the one stored under that name. */
  function Existing(t: Table, row: SwitchSheetRow): (r: Found)
    ensures r.Match? ==> r.index < |t|
  {
    var byRow := FindOne(t, ByRowAndCategory(row.rowNumber, row.category));
    if byRow.NoMatch? && row.name.Some? then FindOne(t, ByName(row.name.value)) else byRow
  }

  /** The switch picked is stored for the row and tab, or else none is
    * and it carries the row's name; nothing is picked exactly when neither
    * lookup finds a row. */
  lemma ExistingMeaning(t: Table, row: SwitchSheetRow)
    ensures var r := Existing(t, row);
            r.Match? ==>
              || (t[r.index].googleSheetsRow == Some(row.rowNumber) && t[r.index].attrs.category == Some(row.category))
              || ((forall i :: 0 <= i < |t| ==> !ByRowAndCategory(row.rowNumber, row.category)(t[i]))
                  && t[r.index].attrs.name == row.name)
    ensures Existing(t, row).NoMatch? <==>
              (forall i :: 0 <= i < |t| ==> !ByRowAndCategory(row.rowNumber, row.category)(t[i]))
              && (row.name.None? || forall i :: 0 <= i < |t| ==> t[i].attrs.name != row.name)
  {
    FindOneMeaning(t, ByRowAndCategory(row.rowNumber, row.category));
    if row.name.Some? {
      FindOneMeaning(t, ByName(row.name.value));
    }
  }

  /** A successful save: the new table and the stored record. */
  datatype Saved = Saved(table: Table, record: SwitchRecord)

  /** `switchRepository.save(r)`: a record with an id overwrites the row
    * with that id, one without is inserted under the next id; a record
    * breaking NOT NULL, or a save that fails, throws (`None`). */
  function Save(t: Table, r: SwitchRecord, fails: bool): (s: Option<Saved>)
    requires ValidTable(t)
    requires r.id.Some? ==> 1 <= r.id.value <= |t|
    ensures s.Some? <==> !fails && SatisfiesNotNull(r)
    ensures s.Some? ==> ValidTable(s.value.table)
    ensures s.Some? ==> s.value.record == r.(id := s.value.record.id)
    ensures s.Some? && r.id.Some? ==> s.value.record.id == r.id && |s.value.table| == |t|
    ensures s.Some? && r.id.None? ==> s.value.record.id == Some(|t| + 1) && |s.value.table| == |t| + 1
    ensures s.Some? ==> s.value.table[s.value.record.id.value - 1] == s.value.record
    ensures s.Some? ==> forall i :: 0 <= i < |t| && i != s.value.record.id.value - 1 ==> s.value.table[i] == t[i]
  {
    if fails || !SatisfiesNotNull(r) then None
    else if r.id.Some? then Some(Saved(t[r.id.value - 1 := r], r))
    else
      var stored := r.(id := Some(|t| + 1));
      Some(Saved(t + [stored], stored))
  }

  /** The document `saveToElasticsearch` builds for a stored switch: its
    * id, the cleaned name, the manufacturer as brand, the category, and the
    * rule nicknames of the full name followed by the Hangul tokens of the
    * name. */
  function DocumentOf(r: SwitchRecord, rules: seq<NicknameRule>): (d: SwitchDocument)
    ensures d.id == r.id && d.brand == r.attrs.manufacturer && d.category == r.attrs.category
    ensures r.attrs.name.None? ==> d.name.None? && d.nicknames == []
    ensures r.attrs.name.Some? ==> d.name == Some(CleanedName(r.attrs.name.value))
    ensures r.attrs.name.Some? ==>
              d.nicknames == NicknamesOf(rules, r.attrs.name) + HangulTokens(r.attrs.name.value)
  {
    var name := r.attrs.name;
    SwitchDocument(
      r.id,
      if name.None? then None else Some(CleanedName(name.value)),
      r.attrs.manufacturer,
      r.attrs.category,
      NicknamesOf(rules, name) + (if name.None? then [] else HangulTokens(name.value)))
  }

  /** The document builder of the nickname table `rules`. */
  function Documents(rules: seq<NicknameRule>): SwitchRecord -> SwitchDocument {
    (r: SwitchRecord) => DocumentOf(r, rules)
  }

  /** The index after `saveToElasticsearch` with the document builder
    * `document`: the document replaces the one under the same id, unless
    * indexing fails, which is swallowed. */
  function Indexed(docs: map<int, SwitchDocument>, r: SwitchRecord, document: SwitchRecord -> SwitchDocument, fails: bool): map<int, SwitchDocument>
    requires r.id.Some?
  {
    if fails then docs else docs[r.id.value := document(r)]
  }

  /** Everything the synchronisation changes. */
  datatype SyncState = SyncState(table: Table, documents: map<int, SwitchDocument>)

  /** A document builder that files each record under the record's id. */
  ghost predicate KeepsId(document: SwitchRecord -> SwitchDocument) {
    forall r: SwitchRecord :: document(r).id == r.id
  }

  /** The service's documents carry the ids of their switches. */
  lemma DocumentsKeepId(rules: seq<NicknameRule>)
    ensures KeepsId(Documents(rules))
  {
  }

  /** The index holds documents only for stored switches, under their ids. */
  predicate ValidState(st: SyncState) {
    && ValidTable(st.table)
    && forall id :: id in st.documents ==> 1 <= id <= |st.table| && st.documents[id].id == Some(id)
  }

  /** The record `processSingleSwitch` saves for a row whose converted
    * entity is `entity`: the existing switch with the entity's sixteen
    * columns, or the entity itself. */
  function Upserted(t: Table, entity: SwitchRecord, found: Found): (r: SwitchRecord)
    requires found.Match? ==> found.index < |t|
    ensures r.attrs == entity.attrs
    ensures found.Match? ==> r.id == t[found.index].id && r.googleSheetsRow == t[found.index].googleSheetsRow
    ensures !found.Match? ==> r == entity
  {
    if found.Match? then ApplySheetUpdate(t[found.index], entity.attrs) else entity
  }

  /** Entities as conversion gives them: not yet stored. */
  predicate Unsaved(entities: seq<SwitchRecord>) {
    forall i :: 0 <= i < |entities| ==> entities[i].id.None?
  }

  /** The converted entity of every sheet row (`row.toEntity()`). */
  function Entities(rows: seq<SwitchSheetRow>, parsers: EnumParsers): (es: seq<SwitchRecord>)
    ensures |es| == |rows|
    ensures forall i :: 0 <= i < |rows| ==> es[i] == ToEntity(rows[i], parsers)
    ensures Unsaved(es)
  {
    seq(|rows|, i requires 0 <= i < |rows| => ToEntity(rows[i], parsers))
  }

  /** `processSingleSwitch(row)`, `entity` being the row's converted
    * entity: the new state, or `None` when it throws (an ambiguous lookup
    * or a failed table save), in which case nothing has changed. */
  function ProcessRow(st: SyncState, row: SwitchSheetRow, entity: SwitchRecord, document: SwitchRecord -> SwitchDocument,
                      saveFails: bool, indexFails: bool): (r: Option<SyncState>)
    requires ValidTable(st.table)
    requires entity.id.None?
    ensures r.Some? ==> ValidTable(r.value.table)
  {
    var found := Existing(st.table, row);
    if found.NonUnique? then None
    else
      var saved := Save(st.table, Upserted(st.table, entity, found), saveFails);
      if saved.None? then None
      else Some(SyncState(saved.value.table, Indexed(st.documents, saved.value.record, document, indexFails)))
  }

  /** `syncAllSwitches` over the first `k` rows, `entities` holding their
    * converted entities: the state and the count. A row without name or
    * type is skipped; a row whose processing throws leaves the state as it
    * was and is not counted; either way the next row is processed.
    * `saveFails` and `indexFails` hold the positions of the rows whose
    * table save and index save fail. */
  function SyncRows(st0: SyncState, rows: seq<SwitchSheetRow>, entities: seq<SwitchRecord>, k: nat, document: SwitchRecord -> SwitchDocument,
                    saveFails: set<nat>, indexFails: set<nat>): (r: (SyncState, nat))
    requires k <= |rows| == |entities| && Unsaved(entities) && ValidTable(st0.table)
    ensures ValidTable(r.0.table)
    ensures r.1 <= k
  {
    if k == 0 then (st0, 0)
    else
      SyncStep(SyncRows(st0, rows, entities, k - 1, document, saveFails, indexFails),
               rows[k - 1], entities[k - 1], document, k - 1 in saveFails, k - 1 in indexFails)
  }

  /** One turn of the loop of `syncAllSwitches` from state and count
    * `before`: a row without name or type is skipped, a row whose
    * processing throws changes nothing, any other row is counted. */
  function SyncStep(before: (SyncState, nat), row: SwitchSheetRow, entity: SwitchRecord, document: SwitchRecord -> SwitchDocument,
                    saveFails: bool, indexFails: bool): (r: (SyncState, nat))
    requires ValidTable(before.0.table) && entity.id.None?
    ensures ValidTable(r.0.table)
    ensures r.1 <= before.1 + 1
    ensures row.name.None? || row.switchType.None? ==> r == before
  {
    if row.name.None? || row.switchType.None? then before
    else
      var next := ProcessRow(before.0, row, entity, document, saveFails, indexFails);
      if next.None? then before else (next.value, before.1 + 1)
  }

  /** Without rows nothing is stored and the count is zero. */
  lemma SyncNoRows(st0: SyncState, rows: seq<SwitchSheetRow>, entities: seq<SwitchRecord>,
                   document: SwitchRecord -> SwitchDocument, saveFails: set<nat>, indexFails: set<nat>)
    requires |rows| == 0 == |entities| && ValidTable(st0.table)
    ensures SyncRows(st0, rows, entities, |rows|, document, saveFails, indexFails) == (st0, 0)
  {
  }

  /** One more row with a name and a type: the state `after` and the
    * success `ok` of processing it from the state so far give the next
    * state and count. */
  lemma SyncRowsNext(st0: SyncState, rows: seq<SwitchSheetRow>, entities: seq<SwitchRecord>, k: nat,
                     document: SwitchRecord -> SwitchDocument, saveFails: set<nat>, indexFails: set<nat>,
                     before: SyncState, count: nat, after: SyncState, ok: bool)
    requires k < |rows| == |entities| && Unsaved(entities) && ValidTable(st0.table)
    requires SyncRows(st0, rows, entities, k, document, saveFails, indexFails) == (before, count)
    requires rows[k].name.Some? && rows[k].switchType.Some?
    requires ok == ProcessRow(before, rows[k], entities[k], document, k in saveFails, k in indexFails).Some?
    requires ok ==> after == ProcessRow(before, rows[k], entities[k], document, k in saveFails, k in indexFails).value
    requires !ok ==> after == before
    ensures SyncRows(st0, rows, entities, k + 1, document, saveFails, indexFails) == (after, if ok then count + 1 else count)
  {
  }

  /** The number of rows among the first `k` that have a name and a type. */
  function CompleteRows(rows: seq<SwitchSheetRow>, k: nat): (n: nat)
    requires k <= |rows|
    ensures n <= k
  {
    if k == 0 then 0
    else CompleteRows(rows, k - 1) + (if rows[k - 1].name.Some? && rows[k - 1].switchType.Some? then 1 else 0)
  }

  /** The outcome of `syncSwitchByRow`. */
  datatype RowSync = NoRow | Stored(table: Table) | Thrown

  /** The position of the first row with the given row number. */
  function FirstNumbered(rows: seq<SwitchSheetRow>, rowNumber: int): (r: Option<nat>)
    ensures r.Some? ==> r.value < |rows| && rows[r.value].rowNumber == rowNumber
    ensures r.Some? ==> forall j :: 0 <= j < r.value ==> rows[j].rowNumber != rowNumber
    ensures r.None? ==> forall j :: 0 <= j < |rows| ==> rows[j].rowNumber != rowNumber
  {
    if rows == [] then None
    else if rows[0].rowNumber == rowNumber then Some(0)
    else
      var rest := FirstNumbered(rows[1..], rowNumber);
      if rest.None? then None else Some(rest.value + 1)
  }

  /** `syncSwitchByRow(rowNumber)`: the first sheet row with that number
    * is upserted, matched by sheet row only; there is no check of the
    * required fields and no indexing. The method is transactional, so when
    * it throws nothing is stored. */
  function SyncByRow(t: Table, rows: seq<SwitchSheetRow>, rowNumber: int, parsers: EnumParsers, saveFails: bool): (r: RowSync)
    requires ValidTable(t)
    ensures r.Stored? ==> ValidTable(r.table)
  {
    var target := FirstNumbered(rows, rowNumber);
    if target.None? then NoRow
    else
      var row := rows[target.value];
      var found := FindOne(t, ByRow(rowNumber));
      if found.NonUnique? then Thrown
      else
        var saved := Save(t, Upserted(t, ToEntity(row, parsers), found), saveFails);
        if saved.None? then Thrown else Stored(saved.value.table)
  }

  /** A converted row can be stored exactly when it has a name and its
    * type text names a switch type: a row that passes the skip check with
    * a blank or unknown type still breaks NOT NULL. */
  lemma StorableEntity(row: SwitchSheetRow, parsers: EnumParsers)
    ensures SatisfiesNotNull(ToEntity(row, parsers)) <==> row.name.Some? && ParseType(row.switchType, parsers).Some?
  {
  }

  /** Processing succeeds exactly when the lookup is unambiguous, the
    * table save does not fail and the entity meets NOT NULL. */
  lemma ProcessRowSucceeds(st: SyncState, row: SwitchSheetRow, entity: SwitchRecord, document: SwitchRecord -> SwitchDocument,
                           saveFails: bool, indexFails: bool)
    requires ValidTable(st.table) && entity.id.None?
    ensures ProcessRow(st, row, entity, document, saveFails, indexFails).Some?
            <==> !Existing(st.table, row).NonUnique? && !saveFails && SatisfiesNotNull(entity)
  {
  }

  /** An existing switch is updated in place: it keeps its position, id,
    * sheet row and videos and takes the entity's sixteen columns; nothing
    * else in the table changes. */
  lemma ProcessRowUpdates(st: SyncState, row: SwitchSheetRow, entity: SwitchRecord, document: SwitchRecord -> SwitchDocument,
                          saveFails: bool, indexFails: bool, i: nat)
    requires ValidTable(st.table) && entity.id.None?
    requires Existing(st.table, row) == Match(i)
    requires ProcessRow(st, row, entity, document, saveFails, indexFails).Some?
    ensures ProcessRow(st, row, entity, document, saveFails, indexFails).value.table
            == st.table[i := ApplySheetUpdate(st.table[i], entity.attrs)]
  {
    var t := st.table;
    var s := Save(t, Upserted(t, entity, Match(i)), saveFails).value;
    assert s.record.id == Some(i + 1);
    assert s.table == t[i := ApplySheetUpdate(t[i], entity.attrs)];
  }

  /** Without an existing switch, the entity is appended under the next
    * id. */
  lemma ProcessRowInserts(st: SyncState, row: SwitchSheetRow, entity: SwitchRecord, document: SwitchRecord -> SwitchDocument,
                          saveFails: bool, indexFails: bool)
    requires ValidTable(st.table) && entity.id.None?
    requires Existing(st.table, row) == NoMatch
    requires ProcessRow(st, row, entity, document, saveFails, indexFails).Some?
    ensures ProcessRow(st, row, entity, document, saveFails, indexFails).value.table
            == st.table + [entity.(id := Some(|st.table| + 1))]
  {
    var t := st.table;
    var s := Save(t, entity, saveFails).value;
    assert s.table == t + [entity.(id := Some(|t| + 1))];
  }

  /** After a successful row the index holds the stored switch's document
    * under its id, unless indexing failed; the failure does not undo the
    * table save. */
  lemma ProcessRowIndexes(st: SyncState, row: SwitchSheetRow, entity: SwitchRecord, document: SwitchRecord -> SwitchDocument,
                          saveFails: bool, indexFails: bool)
    requires ValidTable(st.table) && entity.id.None?
    requires ProcessRow(st, row, entity, document, saveFails, indexFails).Some?
    ensures var r := ProcessRow(st, row, entity, document, saveFails, indexFails).value;
            && (indexFails ==> r.documents == st.documents)
            && (!indexFails && Existing(st.table, row).Match? ==>
                  var i := Existing(st.table, row).index;
                  r.documents == st.documents[i + 1 := document(r.table[i])])
            && (!indexFails && Existing(st.table, row).NoMatch? ==>
                  r.documents == st.documents[|st.table| + 1 := document(r.table[|st.table|])])
  {
    var t := st.table;
    var s := Save(t, Upserted(t, entity, Existing(t, row)), saveFails).value;
    var id := s.record.id.value;
    assert s.table[id - 1] == s.record;
  }

  /** Processing a row keeps the index pointing at stored switches only. */
  lemma ProcessRowKeepsValid(st: SyncState, row: SwitchSheetRow, entity: SwitchRecord, document: SwitchRecord -> SwitchDocument,
                             saveFails: bool, indexFails: bool)
    requires ValidState(st) && entity.id.None? && KeepsId(document)
    requires ProcessRow(st, row, entity, document, saveFails, indexFails).Some?
    ensures ValidState(ProcessRow(st, row, entity, document, saveFails, indexFails).value)
  {
    var t := st.table;
    var s := Save(t, Upserted(t, entity, Existing(t, row)), saveFails).value;
    assert |s.table| >= |t|;
    assert s.record.id == Some(s.record.id.value);
  }

  /** A whole run keeps the index pointing at stored switches only. */
  lemma {:induction false} SyncRowsKeepsValid(st0: SyncState, rows: seq<SwitchSheetRow>, entities: seq<SwitchRecord>, k: nat,
                                              document: SwitchRecord -> SwitchDocument, saveFails: set<nat>, indexFails: set<nat>)
    requires k <= |rows| == |entities| && Unsaved(entities) && ValidState(st0) && KeepsId(document)
    ensures ValidState(SyncRows(st0, rows, entities, k, document, saveFails, indexFails).0)
  {
    if k > 0 {
      SyncRowsKeepsValid(st0, rows, entities, k - 1, document, saveFails, indexFails);
      var before := SyncRows(st0, rows, entities, k - 1, document, saveFails, indexFails);
      StepKeepsValid(before, rows[k - 1], entities[k - 1], document, k - 1 in saveFails, k - 1 in indexFails);
      assert SyncRows(st0, rows, entities, k, document, saveFails, indexFails)
             == SyncStep(before, rows[k - 1], entities[k - 1], document, k - 1 in saveFails, k - 1 in indexFails);
    }
  }

  /** One turn of the loop keeps the index pointing at stored switches only. */
  lemma StepKeepsValid(before: (SyncState, nat), row: SwitchSheetRow, entity: SwitchRecord, document: SwitchRecord -> SwitchDocument,
                       saveFails: bool, indexFails: bool)
    requires ValidState(before.0) && entity.id.None? && KeepsId(document)
    ensures ValidState(SyncStep(before, row, entity, document, saveFails, indexFails).0)
  {
    if row.name.Some? && row.switchType.Some? && ProcessRow(before.0, row, entity, document, saveFails, indexFails).Some? {
      ProcessRowKeepsValid(before.0, row, entity, document, saveFails, indexFails);
    }
  }

  /** The count never exceeds the number of rows with a name and a type. */
  lemma SyncCountAtMostComplete(st0: SyncState, rows: seq<SwitchSheetRow>, entities: seq<SwitchRecord>, k: nat,
                                 document: SwitchRecord -> SwitchDocument, saveFails: set<nat>, indexFails: set<nat>)
    requires k <= |rows| == |entities| && Unsaved(entities) && ValidTable(st0.table)
    ensures SyncRows(st0, rows, entities, k, document, saveFails, indexFails).1 <= CompleteRows(rows, k)
  {
    var i := 0;
    while i < k
      invariant i <= k
      invariant SyncRows(st0, rows, entities, i, document, saveFails, indexFails).1 <= CompleteRows(rows, i)
    {
      NextRowCount(st0, rows, entities, i, document, saveFails, indexFails);
      i := i + 1;
    }
  }

  /** Row `j` adds one to the count only when it has a name and a type. */
  lemma NextRowCount(st0: SyncState, rows: seq<SwitchSheetRow>, entities: seq<SwitchRecord>, j: nat,
                     document: SwitchRecord -> SwitchDocument, saveFails: set<nat>, indexFails: set<nat>)
    requires j < |rows| == |entities| && Unsaved(entities) && ValidTable(st0.table)
    requires SyncRows(st0, rows, entities, j, document, saveFails, indexFails).1 <= CompleteRows(rows, j)
    ensures SyncRows(st0, rows, entities, j + 1, document, saveFails, indexFails).1 <= CompleteRows(rows, j + 1)
  {
    var before := SyncRows(st0, rows, entities, j, document, saveFails, indexFails);
    assert SyncRows(st0, rows, entities, j + 1, document, saveFails, indexFails)
           == SyncStep(before, rows[j], entities[j], document, j in saveFails, j in indexFails);
  }

  /** `after` still holds every switch of `before`, each with its sheet
    * row and its videos. */
  predicate KeepsRecords(before: Table, after: Table) {
    && |after| >= |before|
    && forall i :: 0 <= i < |before| ==>
         after[i].googleSheetsRow == before[i].googleSheetsRow && after[i].switchVideos == before[i].switchVideos
  }

  lemma KeepsRecordsTrans(a: Table, b: Table, c: Table)
    requires KeepsRecords(a, b) && KeepsRecords(b, c)
    ensures KeepsRecords(a, c)
  {
  }

  /** Processing a row removes no switch and changes no stored switch's
    * sheet row or videos. */
  lemma ProcessRowKeepsRecords(st: SyncState, row: SwitchSheetRow, entity: SwitchRecord, document: SwitchRecord -> SwitchDocument,
                               saveFails: bool, indexFails: bool)
    requires ValidTable(st.table) && entity.id.None?
    requires ProcessRow(st, row, entity, document, saveFails, indexFails).Some?
    ensures KeepsRecords(st.table, ProcessRow(st, row, entity, document, saveFails, indexFails).value.table)
  {
    var found := Existing(st.table, row);
    var up := Upserted(st.table, entity, found);
    var s := Save(st.table, up, saveFails).value;
    assert found.Match? ==> s.table[found.index] == ApplySheetUpdate(st.table[found.index], up.attrs);
  }

  /** Stored switches are never removed, and each keeps its id, its sheet
    * row and its videos: later rows only overwrite the sheet columns. */
  lemma {:induction false} SyncRowsKeepsRecords(st0: SyncState, rows: seq<SwitchSheetRow>, entities: seq<SwitchRecord>, k: nat,
                                                document: SwitchRecord -> SwitchDocument, saveFails: set<nat>, indexFails: set<nat>)
    requires k <= |rows| == |entities| && Unsaved(entities) && ValidTable(st0.table)
    ensures KeepsRecords(st0.table, SyncRows(st0, rows, entities, k, document, saveFails, indexFails).0.table)
  {
    if k > 0 {
      SyncRowsKeepsRecords(st0, rows, entities, k - 1, document, saveFails, indexFails);
      NextRowKeepsRecords(st0, rows, entities, k, document, saveFails, indexFails, st0.table);
    }
  }

  /** Row `k` of a run removes no switch and changes no stored switch's
    * sheet row or videos, so what the first `k - 1` rows kept of `base`
    * the first `k` keep too. */
  lemma NextRowKeepsRecords(st0: SyncState, rows: seq<SwitchSheetRow>, entities: seq<SwitchRecord>, k: nat,
                            document: SwitchRecord -> SwitchDocument, saveFails: set<nat>, indexFails: set<nat>, base: Table)
    requires 0 < k <= |rows| == |entities| && Unsaved(entities) && ValidTable(st0.table)
    requires KeepsRecords(base, SyncRows(st0, rows, entities, k - 1, document, saveFails, indexFails).0.table)
    ensures KeepsRecords(base, SyncRows(st0, rows, entities, k, document, saveFails, indexFails).0.table)
  {
    var st := SyncRows(st0, rows, entities, k - 1, document, saveFails, indexFails).0;
    var row := rows[k - 1];
    if row.name.Some? && row.switchType.Some? && ProcessRow(st, row, entities[k - 1], document, k - 1 in saveFails, k - 1 in indexFails).Some? {
      ProcessRowKeepsRecords(st, row, entities[k - 1], document, k - 1 in saveFails, k - 1 in indexFails);
    }
    KeepsRecordsTrans(base, st.table, SyncRows(st0, rows, entities, k, document, saveFails, indexFails).0.table);
  }

  /** When every table save fails, a run stores nothing, indexes nothing
    * and counts nothing. */
  lemma {:induction false} SyncWithoutDatabase(st0: SyncState, rows: seq<SwitchSheetRow>, entities: seq<SwitchRecord>, k: nat,
                                               document: SwitchRecord -> SwitchDocument, saveFails: set<nat>, indexFails: set<nat>)
    requires k <= |rows| == |entities| && Unsaved(entities) && ValidTable(st0.table)
    requires forall i: nat :: i < k ==> i in saveFails
    ensures SyncRows(st0, rows, entities, k, document, saveFails, indexFails) == (st0, 0)
  {
    if k > 0 {
      SyncWithoutDatabase(st0, rows, entities, k - 1, document, saveFails, indexFails);
    }
  }

  /** A row that is skipped or throws changes neither the state nor the
    * count, and the rows after it are processed from that state. */
  lemma SyncPastFailedRow(st0: SyncState, rows: seq<SwitchSheetRow>, entities: seq<SwitchRecord>, k: nat,
                          document: SwitchRecord -> SwitchDocument, saveFails: set<nat>, indexFails: set<nat>)
    requires 0 < k <= |rows| == |entities| && Unsaved(entities) && ValidTable(st0.table)
    requires var st := SyncRows(st0, rows, entities, k - 1, document, saveFails, indexFails).0;
             || rows[k - 1].name.None? || rows[k - 1].switchType.None?
             || ProcessRow(st, rows[k - 1], entities[k - 1], document, k - 1 in saveFails, k - 1 in indexFails).None?
    ensures SyncRows(st0, rows, entities, k, document, saveFails, indexFails)
            == SyncRows(st0, rows, entities, k - 1, document, saveFails, indexFails)
  {
  }

  /** The single-row path matches by sheet row regardless of the tab: a
    * switch stored from another tab under the same row number is
    * overwritten with this row's columns, including its category, where
    * the batch path looks that switch up by (row, tab) and does not find
    * it. */
  lemma ByRowIgnoresTab(t: Table, rows: seq<SwitchSheetRow>, rowNumber: int, parsers: EnumParsers, saveFails: bool, i: nat)
    requires ValidTable(t)
    requires FirstNumbered(rows, rowNumber).Some?
    requires FindOne(t, ByRow(rowNumber)) == Match(i)
    requires SyncByRow(t, rows, rowNumber, parsers, saveFails).Stored?
    ensures var row := rows[FirstNumbered(rows, rowNumber).value];
            && SyncByRow(t, rows, rowNumber, parsers, saveFails).table[i].attrs == ToEntity(row, parsers).attrs
            && (t[i].attrs.category != Some(row.category) ==>
                  FindOne(t, ByRowAndCategory(rowNumber, row.category)) != Match(i))
  {
    var row := rows[FirstNumbered(rows, rowNumber).value];
    var e := ToEntity(row, parsers);
    assert SyncByRow(t, rows, rowNumber, parsers, saveFails) == Stored(Save(t, Upserted(t, e, Match(i)), saveFails).value.table);
    UpdateKeepsAttrs(t, e, i, saveFails);
    if FindOne(t, ByRowAndCategory(rowNumber, row.category)) == Match(i) {
      assert ByRowAndCategory(rowNumber, row.category)(t[i]);
    }
  }

  /** Proof helper for `ByRowIgnoresTab`: saving an entity over the match
    * at `i` stores its columns at `i`. */
  lemma UpdateKeepsAttrs(t: Table, e: SwitchRecord, i: nat, fails: bool)
    requires ValidTable(t) && i < |t|
    requires Save(t, Upserted(t, e, Match(i)), fails).Some?
    ensures Save(t, Upserted(t, e, Match(i)), fails).value.table[i].attrs == e.attrs
  {
    var s := Save(t, Upserted(t, e, Match(i)), fails).value;
    assert s.record.id == Some(i + 1);
  }

  /** The single-row path does not skip a row without a name: the NOT NULL
    * constraint makes it throw. */
  lemma ByRowWithoutName(t: Table, rows: seq<SwitchSheetRow>, rowNumber: int, parsers: EnumParsers, saveFails: bool)
    requires ValidTable(t)
    requires FirstNumbered(rows, rowNumber).Some?
    requires rows[FirstNumbered(rows, rowNumber).value].name.None?
    ensures SyncByRow(t, rows, rowNumber, parsers, saveFails) == Thrown
  {
  }

  /** The service object with the table and the index it writes. */
  class SwitchSyncService {
    var table: Table
    var documents: map<int, SwitchDocument>
    const nicknameService: SwitchNicknameService
    const parsers: EnumParsers

    function State(): SyncState
      reads this
    {
      SyncState(table, documents)
    }

    constructor (nicknameService: SwitchNicknameService, parsers: EnumParsers, initial: SyncState)
      ensures State() == initial
      ensures this.nicknameService == nicknameService && this.parsers == parsers
    {
      table, documents := initial.table, initial.documents;
      this.nicknameService := nicknameService;
      this.parsers := parsers;
    }

    /** `switchRepository.save(entity)`; on an insert the generated id is
      * written back into the entity. */
    method SaveEntity(entity: Switch, fails: bool) returns (saved: Option<SwitchRecord>)
      requires ValidTable(table)
      requires entity.id.Some? ==> 1 <= entity.id.value <= |table|
      modifies this, entity
      ensures var s := Save(old(table), old(entity.Record()), fails);
              && (s.None? ==> saved.None? && table == old(table) && entity.Record() == old(entity.Record()))
              && (s.Some? ==> saved == Some(s.value.record) && table == s.value.table && entity.Record() == s.value.record)
      ensures documents == old(documents)
    {
      if fails || !SatisfiesNotNull(entity.Record()) {
        return None;
      }
      if entity.id.Some? {
        table := table[entity.id.value - 1 := entity.Record()];
      } else {
        entity.id := Some(|table| + 1);
        table := table + [entity.Record()];
      }
      return Some(entity.Record());
    }

    /** `saveToElasticsearch(entity)`. */
    method SaveToElasticsearch(entity: Switch, fails: bool)
      requires entity.id.Some?
      modifies this
      ensures documents == Indexed(old(documents), entity.Record(), Documents(nicknameService.rules), fails)
      ensures table == old(table)
    {
      var originalName := entity.attrs.name;
      var cleanedName, koreanFromName := ExtractKoreanFromName(originalName, []);
      var nicknames := nicknameService.GetNicknames(originalName);
      nicknames := nicknames + koreanFromName;
      var doc := SwitchDocument(entity.id, cleanedName, entity.attrs.manufacturer, entity.attrs.category, nicknames);
      assert originalName.Some? ==> koreanFromName == HangulTokens(originalName.value);
      assert doc == DocumentOf(entity.Record(), nicknameService.rules);
      if !fails {
        documents := documents[entity.id.value := doc];
      }
    }

    /** A fresh entity object holding the row's converted columns (the
      * repeated `row.toEntity()` calls all give the same values). */
    method NewEntity(row: SwitchSheetRow) returns (entity: Switch)
      ensures fresh(entity) && entity.Record() == ToEntity(row, parsers)
    {
      var e := ToEntity(row, parsers);
      var a := e.attrs;
      entity := new Switch(a.name, a.switchType, a.category, a.weight, a.manufacturer, a.price,
                           a.actuationForce, a.bottomOutForce, a.travelDistance, a.preTravel,
                           a.springType, a.stemMaterial, a.housingMaterial, a.soundProfile,
                           a.isLubed, a.description, e.googleSheetsRow);
    }

    /** The loaded switch at `index` with the row's sixteen columns. */
    method UpdatedEntity(index: nat, row: SwitchSheetRow) returns (entity: Switch)
      requires index < |table|
      ensures fresh(entity) && entity.Record() == ApplySheetUpdate(table[index], ToEntity(row, parsers).attrs)
    {
      var a := ToEntity(row, parsers).attrs;
      entity := new Switch.Load(table[index]);
      entity.UpdateFromGoogleSheets(a.name, a.switchType, a.category, a.weight, a.manufacturer, a.price,
                                    a.actuationForce, a.bottomOutForce, a.travelDistance, a.preTravel,
                                    a.springType, a.stemMaterial, a.housingMaterial, a.soundProfile,
                                    a.isLubed, a.description);
    }

    /** `processSingleSwitch(row)`; `ok` is false when it throws. */
    method ProcessSingleSwitch(row: SwitchSheetRow, saveFails: bool, indexFails: bool) returns (ok: bool)
      requires ValidTable(table)
      modifies this
      ensures var r := ProcessRow(old(State()), row, ToEntity(row, parsers), Documents(nicknameService.rules), saveFails, indexFails);
              && ok == r.Some?
              && (ok ==> State() == r.value)
              && (!ok ==> State() == old(State()))
    {
      ghost var st := State();
      var existing := FindOne(table, ByRowAndCategory(row.rowNumber, row.category));
      if existing.NoMatch? && row.name.Some? {
        existing := FindOne(table, ByName(row.name.value));
      }
      assert existing == Existing(st.table, row);
      if existing.NonUnique? {
        return false;
      }
      ghost var s := Save(st.table, Upserted(st.table, ToEntity(row, parsers), existing), saveFails);
      var entity, saved := Upsert(row, existing, saveFails);
      if !saved {
        return false;
      }
      SaveToElasticsearch(entity, indexFails);
      assert State() == SyncState(s.value.table, Indexed(st.documents, s.value.record, Documents(nicknameService.rules), indexFails));
      assert ProcessRow(st, row, ToEntity(row, parsers), Documents(nicknameService.rules), saveFails, indexFails) == Some(State());
      return true;
    }

    /** The update of the switch `found` with the row, or the insert of the
      * row's new entity, and its table save. */
    method Upsert(row: SwitchSheetRow, found: Found, saveFails: bool) returns (entity: Switch, saved: bool)
      requires ValidTable(table)
      requires found.Match? ==> found.index < |table|
      modifies this
      ensures fresh(entity)
      ensures var s := Save(old(table), Upserted(old(table), ToEntity(row, parsers), found), saveFails);
              && saved == s.Some?
              && (saved ==> table == s.value.table && entity.Record() == s.value.record)
              && (!saved ==> table == old(table))
      ensures documents == old(documents)
    {
      if found.Match? {
        entity := UpdatedEntity(found.index, row);
      } else {
        entity := NewEntity(row);
      }
      var stored := SaveEntity(entity, saveFails);
      saved := stored.Some?;
    }

    /** `syncAllSwitches()` over the rows the sheet yields. */
    method SyncAllSwitches(rows: seq<SwitchSheetRow>, saveFails: set<nat>, indexFails: set<nat>) returns (count: nat)
      requires ValidTable(table)
      modifies this
      ensures (State(), count) == SyncRows(old(State()), rows, Entities(rows, parsers), |rows|, Documents(nicknameService.rules), saveFails, indexFails)
      ensures count <= CompleteRows(rows, |rows|)
      ensures ValidState(old(State())) ==> ValidState(State())
    {
      ghost var st0 := State();
      if |rows| == 0 {
        SyncNoRows(st0, rows, Entities(rows, parsers), Documents(nicknameService.rules), saveFails, indexFails);
        return 0;
      }
      count := SyncEachRow(rows, saveFails, indexFails);
      SyncCountAtMostComplete(st0, rows, Entities(rows, parsers), |rows|, Documents(nicknameService.rules), saveFails, indexFails);
      if ValidState(st0) {
        DocumentsKeepId(nicknameService.rules);
        SyncRowsKeepsValid(st0, rows, Entities(rows, parsers), |rows|, Documents(nicknameService.rules), saveFails, indexFails);
      }
    }

    /** The loop of `syncAllSwitches()` over the rows. */
    method SyncEachRow(rows: seq<SwitchSheetRow>, saveFails: set<nat>, indexFails: set<nat>) returns (count: nat)
      requires ValidTable(table)
      modifies this
      ensures (State(), count) == SyncRows(old(State()), rows, Entities(rows, parsers), |rows|, Documents(nicknameService.rules), saveFails, indexFails)
    {
      count := 0;
      for i := 0 to |rows|
        invariant ValidTable(table)
        invariant (State(), count) == SyncRows(old(State()), rows, Entities(rows, parsers), i, Documents(nicknameService.rules), saveFails, indexFails)
      {
        var ok := SyncRowAt(rows, i, saveFails, indexFails, old(State()), count);
        if ok {
          count := count + 1;
        }
      }
    }

    /** One pass of the loop of `syncAllSwitches()`: the row at position
      * `i` is skipped or processed; `ok` says whether it was counted. */
    method SyncRowAt(rows: seq<SwitchSheetRow>, i: nat, saveFails: set<nat>, indexFails: set<nat>,
                     ghost st0: SyncState, ghost count: nat) returns (ok: bool)
      requires i < |rows| && ValidTable(table) && ValidTable(st0.table)
      requires (State(), count) == SyncRows(st0, rows, Entities(rows, parsers), i, Documents(nicknameService.rules), saveFails, indexFails)
      modifies this
      ensures ValidTable(table)
      ensures (State(), if ok then count + 1 else count)
              == SyncRows(st0, rows, Entities(rows, parsers), i + 1, Documents(nicknameService.rules), saveFails, indexFails)
    {
      var row := rows[i];
      if row.name.None? || row.switchType.None? {
        return false;
      }
      ghost var entities := Entities(rows, parsers);
      assert entities[i] == ToEntity(row, parsers);
      ghost var before := State();
      ok := ProcessSingleSwitch(row, i in saveFails, i in indexFails);
      SyncRowsNext(st0, rows, entities, i, Documents(nicknameService.rules), saveFails, indexFails, before, count, State(), ok);
    }

    /** `syncSwitchByRow(rowNumber)` over the rows the sheet yields. */
    method SyncSwitchByRow(rowNumber: int, rows: seq<SwitchSheetRow>, saveFails: bool) returns (outcome: RowSync)
      requires ValidTable(table)
      modifies this
      ensures outcome == SyncByRow(old(table), rows, rowNumber, parsers, saveFails)
      ensures outcome.Stored? ==> table == outcome.table
      ensures !outcome.Stored? ==> table == old(table)
      ensures documents == old(documents)
    {
      var target := FirstNumbered(rows, rowNumber);
      if target.None? {
        return NoRow;
      }
      var row := rows[target.value];
      var existing := FindOne(table, ByRow(rowNumber));
      if existing.NonUnique? {
        return Thrown;
      }
      var entity, saved := Upsert(row, existing, saveFails);
      if !saved {
        return Thrown;
      }
      return Stored(table);
    }
  }
}
