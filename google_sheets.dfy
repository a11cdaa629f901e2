/**
 * The parsing of one sheet tab (GoogleSheetsService.parseSheetValues):
 * find the header row, map header texts to columns, and turn every later
 * row with a name into a sheet row. The fetching of the tabs themselves is
 * not part of this model; a tab arrives as its title and rows of cells.
 */
module GoogleSheets {
  import opened Wrappers
  import opened Text
  import opened SheetRow

  /** A row is the header row when one of its cells, spaces removed,
    * contains the name header. */
  predicate IsHeaderRow(row: seq<string>) {
    exists j :: 0 <= j < |row| && Contains(StripSpaces(row[j]), NameKey)
  }

  /** The first header row at or after `from`. */
  function FirstHeaderRow(values: seq<seq<string>>, from: nat): (r: Option<nat>)
    ensures r.Some? ==> from <= r.value < |values| && IsHeaderRow(values[r.value])
    ensures r.Some? ==> forall i :: from <= i < r.value ==> !IsHeaderRow(values[i])
    ensures r.None? ==> forall i :: from <= i < |values| ==> !IsHeaderRow(values[i])
    decreases |values| - from
  {
    if from >= |values| then None
    else if IsHeaderRow(values[from]) then Some(from)
    else FirstHeaderRow(values, from + 1)
  }

  /** Each key to the position of its last occurrence in `keys`. */
  function LastPositions(keys: seq<string>): (m: map<string, nat>)
    ensures forall j :: 0 <= j < |keys| ==> keys[j] in m
    ensures forall k :: k in m ==> m[k] < |keys| && keys[m[k]] == k
  {
    if keys == [] then map[]
    else
      var last := |keys| - 1;
      var init := keys[..last];
      var m := LastPositions(init);
      assert forall j :: 0 <= j < last ==> init[j] == keys[j];
      m[keys[last] := last]
  }

  /** A key maps to its LAST position: no later position holds it. */
  lemma {:induction false} LastPositionsIsLast(keys: seq<string>)
    ensures forall k, j :: k in LastPositions(keys) && LastPositions(keys)[k] < j < |keys| ==> keys[j] != k
  {
    if keys != [] {
      var last := |keys| - 1;
      var init := keys[..last];
      LastPositionsIsLast(init);
      assert forall j :: 0 <= j < last ==> init[j] == keys[j];
    }
  }

  /** The header texts of a header row, spaces removed. */
  function HeaderKeys(header: seq<string>): (r: seq<string>)
    ensures |r| == |header| && forall j :: 0 <= j < |header| ==> r[j] == StripSpaces(header[j])
  {
    seq(|header|, j requires 0 <= j < |header| => StripSpaces(header[j]))
  }

  /** The header map of a header row: each cell's text without spaces to
    * its column, a later equal text overwriting an earlier one. */
  function HeaderMapOf(header: seq<string>): HeaderMap {
    LastPositions(HeaderKeys(header))
  }

  /** `from` keeps a row only when its name is present and not empty. */
  predicate IsNamed(row: SwitchSheetRow) {
    row.name.Some? && row.name.value != []
  }

  /** The named rows of `rows`, in their order. */
  function Named(rows: seq<SwitchSheetRow>): (r: seq<SwitchSheetRow>)
    ensures |r| <= |rows|
  {
    if rows == [] then []
    else
      var init := Named(rows[..|rows| - 1]);
      if IsNamed(rows[|rows| - 1]) then init + [rows[|rows| - 1]] else init
  }

  /** Filtering one more row keeps it exactly when it is named. */
  lemma NamedSnoc(rows: seq<SwitchSheetRow>, row: SwitchSheetRow)
    ensures Named(rows + [row]) == if IsNamed(row) then Named(rows) + [row] else Named(rows)
  {
    assert (rows + [row])[..|rows|] == rows;
  }

  /** The rows `build` makes of the data rows `lo` to `hi - 1`, in sheet
    * order; the row at index `i` gets the 1-based number `i + 1`. */
  function BuiltRows(values: seq<seq<string>>, lo: nat, hi: nat, build: (int, seq<string>) -> SwitchSheetRow)
      : (r: seq<SwitchSheetRow>)
    requires lo <= hi <= |values|
    ensures |r| == hi - lo
    decreases hi - lo
  {
    if hi == lo then [] else BuiltRows(values, lo, hi - 1, build) + [build(hi, values[hi - 1])]
  }

  /** One more data row adds its row to the named rows when it is named. */
  lemma BuiltRowsStep(values: seq<seq<string>>, lo: nat, k: nat, build: (int, seq<string>) -> SwitchSheetRow,
                      row: SwitchSheetRow)
    requires lo <= k < |values| && row == build(k + 1, values[k])
    ensures Named(BuiltRows(values, lo, k + 1, build))
            == if IsNamed(row) then Named(BuiltRows(values, lo, k, build)) + [row] else Named(BuiltRows(values, lo, k, build))
  {
    NamedSnoc(BuiltRows(values, lo, k, build), row);
  }

  /** `SwitchSheetRow.from` with the tab's header map, its iteration order
    * and the tab title fixed. */
  function RowBuilder(headerMap: HeaderMap, order: seq<string>, sheetTitle: string): (build: (int, seq<string>) -> SwitchSheetRow)
    requires IsIterationOrder(headerMap, order)
    ensures forall n, cells :: build(n, cells).rowNumber == n
  {
    (n, cells) => RowOf(n, cells, headerMap, order, sheetTitle)
  }

  /** The builder applies `from`. */
  lemma RowBuilderIsFrom(headerMap: HeaderMap, order: seq<string>, sheetTitle: string, n: int, cells: seq<string>)
    requires IsIterationOrder(headerMap, order)
    ensures RowBuilder(headerMap, order, sheetTitle)(n, cells) == RowOf(n, cells, headerMap, order, sheetTitle)
  {
  }

  /** The orders a `HashMap` may iterate in, one per map: the model takes
    * the iteration order as a parameter instead of fixing one. */
  ghost predicate IsOrdering(iterationOrder: HeaderMap -> seq<string>) {
    forall m: HeaderMap :: IsIterationOrder(m, iterationOrder(m))
  }

  /** What `parseSheetValues(values, sheetTitle)` returns when every header
    * map iterates as `iterationOrder` says. */
  function SheetRows(values: seq<seq<string>>, sheetTitle: string, iterationOrder: HeaderMap -> seq<string>)
      : seq<SwitchSheetRow>
    requires IsOrdering(iterationOrder)
  {
    match FirstHeaderRow(values, 0)
    case None => []
    case Some(h) =>
      var headerMap := HeaderMapOf(values[h]);
      DataRowsOf(values, h, headerMap, iterationOrder(headerMap), sheetTitle)
  }

  /** The rows after header row `h`: `from` on each, the unnamed ones dropped. */
  function DataRowsOf(values: seq<seq<string>>, h: nat, headerMap: HeaderMap, order: seq<string>, sheetTitle: string)
      : seq<SwitchSheetRow>
    requires h < |values| && IsIterationOrder(headerMap, order)
  {
    Named(BuiltRows(values, h + 1, |values|, RowBuilder(headerMap, order, sheetTitle)))
  }

  /** A header map sends every header text of the row to a column holding
    * it, and to the last such column. */
  lemma HeaderMapOfColumns(header: seq<string>)
    ensures forall j :: 0 <= j < |header| ==> StripSpaces(header[j]) in HeaderMapOf(header)
    ensures forall k :: k in HeaderMapOf(header) ==>
              HeaderMapOf(header)[k] < |header| && StripSpaces(header[HeaderMapOf(header)[k]]) == k
    ensures forall k, j :: k in HeaderMapOf(header) && HeaderMapOf(header)[k] < j < |header| ==>
              StripSpaces(header[j]) != k
  {
    LastPositionsIsLast(HeaderKeys(header));
  }

  /** Row numbers strictly increase along `rows`. */
  predicate Increasing(rows: seq<SwitchSheetRow>) {
    forall a, b :: 0 <= a < b < |rows| ==> rows[a].rowNumber < rows[b].rowNumber
  }

  /** A sheet without any row, or without a header row, gives no rows. */
  lemma SheetRowsWithoutHeader(values: seq<seq<string>>, sheetTitle: string, iterationOrder: HeaderMap -> seq<string>)
    requires IsOrdering(iterationOrder)
    requires values == [] || forall i :: 0 <= i < |values| ==> !IsHeaderRow(values[i])
    ensures SheetRows(values, sheetTitle, iterationOrder) == []
  {
  }

  /** The kept rows are named. */
  lemma KeptRowsNamed(values: seq<seq<string>>, lo: nat, hi: nat,
                      build: (int, seq<string>) -> SwitchSheetRow)
    requires lo <= hi <= |values|
    ensures forall a :: 0 <= a < |Named(BuiltRows(values, lo, hi, build))| ==> IsNamed(Named(BuiltRows(values, lo, hi, build))[a])
  {
    NamedAreNamed(BuiltRows(values, lo, hi, build));
  }

  /** Every row `Named` keeps is named. */
  lemma {:induction false} NamedAreNamed(rows: seq<SwitchSheetRow>)
    ensures forall a :: 0 <= a < |Named(rows)| ==> IsNamed(Named(rows)[a])
  {
    if rows != [] {
      NamedAreNamed(rows[..|rows| - 1]);
    }
  }

  /** The kept rows are numbered within `lo + 1 .. hi`. */
  lemma KeptRowsNumbered(values: seq<seq<string>>, lo: nat, hi: nat,
                          build: (int, seq<string>) -> SwitchSheetRow)
    requires lo <= hi <= |values|
    requires forall n, cells :: build(n, cells).rowNumber == n
    ensures forall a :: 0 <= a < |Named(BuiltRows(values, lo, hi, build))| ==>
              lo + 1 <= Named(BuiltRows(values, lo, hi, build))[a].rowNumber <= hi
  {
    NamedFromRows(BuiltRows(values, lo, hi, build));
    BuiltRowsNumbered(values, lo, hi, build);
  }

  /** The named rows are rows of the input. */
  lemma {:induction false} NamedFromRows(rows: seq<SwitchSheetRow>)
    ensures forall a :: 0 <= a < |Named(rows)| ==> Named(rows)[a] in rows
  {
    if rows != [] {
      var init := rows[..|rows| - 1];
      NamedFromRows(init);
      assert forall r :: r in init ==> r in rows;
    }
  }

  /** Every built row is numbered within `lo + 1 .. hi`. */
  lemma {:induction false} BuiltRowsNumbered(values: seq<seq<string>>, lo: nat, hi: nat,
                                             build: (int, seq<string>) -> SwitchSheetRow)
    requires lo <= hi <= |values|
    requires forall n, cells :: build(n, cells).rowNumber == n
    ensures forall r :: r in BuiltRows(values, lo, hi, build) ==> lo + 1 <= r.rowNumber <= hi
    decreases hi - lo
  {
    if hi > lo {
      BuiltRowsNumbered(values, lo, hi - 1, build);
      assert build(hi, values[hi - 1]).rowNumber == hi;
    }
  }

  /** The kept rows are in increasing row order. */
  lemma {:induction false} KeptRowsIncreasing(values: seq<seq<string>>, lo: nat, hi: nat,
                                              build: (int, seq<string>) -> SwitchSheetRow)
    requires lo <= hi <= |values|
    requires forall n, cells :: build(n, cells).rowNumber == n
    ensures Increasing(Named(BuiltRows(values, lo, hi, build)))
    decreases hi - lo
  {
    if hi > lo {
      KeptRowsIncreasing(values, lo, hi - 1, build);
      KeptRowsNumbered(values, lo, hi - 1, build);
      NamedSnoc(BuiltRows(values, lo, hi - 1, build), build(hi, values[hi - 1]));
    }
  }

  /** Each kept row is the row built from the data row its number names. */
  lemma KeptRowsBuilt(values: seq<seq<string>>, lo: nat, hi: nat,
                      build: (int, seq<string>) -> SwitchSheetRow)
    requires lo <= hi <= |values|
    requires forall n, cells :: build(n, cells).rowNumber == n
    ensures forall a :: 0 <= a < |Named(BuiltRows(values, lo, hi, build))| ==>
              Built(Named(BuiltRows(values, lo, hi, build))[a], values, lo, hi, build)
  {
    NamedFromRows(BuiltRows(values, lo, hi, build));
    BuiltRowsBuilt(values, lo, hi, build);
  }

  /** Every built row is the row built from the data row its number names. */
  lemma {:induction false} BuiltRowsBuilt(values: seq<seq<string>>, lo: nat, hi: nat,
                                          build: (int, seq<string>) -> SwitchSheetRow)
    requires lo <= hi <= |values|
    requires forall n, cells :: build(n, cells).rowNumber == n
    ensures forall r :: r in BuiltRows(values, lo, hi, build) ==> Built(r, values, lo, hi, build)
    decreases hi - lo
  {
    if hi > lo {
      var prev := BuiltRows(values, lo, hi - 1, build);
      var last := build(hi, values[hi - 1]);
      BuiltRowsBuilt(values, lo, hi - 1, build);
      assert BuiltRows(values, lo, hi, build) == prev + [last];
      assert last.rowNumber == hi;
      forall r | r in prev
        ensures Built(r, values, lo, hi, build)
      {
        assert Built(r, values, lo, hi - 1, build);
      }
    }
  }

  /** `row` is the row built from data row `row.rowNumber - 1`, within
    * `lo .. hi - 1`. */
  predicate Built(row: SwitchSheetRow, values: seq<seq<string>>, lo: nat, hi: nat,
                  build: (int, seq<string>) -> SwitchSheetRow)
    requires hi <= |values|
  {
    lo + 1 <= row.rowNumber <= hi && row == build(row.rowNumber, values[row.rowNumber - 1])
  }

  /** Every data row whose built row is named is kept. */
  lemma KeptRowsComplete(values: seq<seq<string>>, lo: nat, hi: nat,
                         build: (int, seq<string>) -> SwitchSheetRow)
    requires lo <= hi <= |values|
    ensures forall i :: lo <= i < hi && IsNamed(build(i + 1, values[i])) ==>
              build(i + 1, values[i]) in Named(BuiltRows(values, lo, hi, build))
  {
    BuiltRowsHave(values, lo, hi, build);
    NamedKeepsNamed(BuiltRows(values, lo, hi, build));
  }

  /** Every data row from `lo` to `hi - 1` has its row built. */
  lemma {:induction false} BuiltRowsHave(values: seq<seq<string>>, lo: nat, hi: nat,
                                         build: (int, seq<string>) -> SwitchSheetRow)
    requires lo <= hi <= |values|
    ensures forall i :: lo <= i < hi ==> build(i + 1, values[i]) in BuiltRows(values, lo, hi, build)
    decreases hi - lo
  {
    if hi > lo {
      var prev := BuiltRows(values, lo, hi - 1, build);
      BuiltRowsHave(values, lo, hi - 1, build);
      assert BuiltRows(values, lo, hi, build) == prev + [build(hi, values[hi - 1])];
    }
  }

  /** `Named` keeps every named row. */
  lemma {:induction false} NamedKeepsNamed(rows: seq<SwitchSheetRow>)
    ensures forall r :: r in rows && IsNamed(r) ==> r in Named(rows)
  {
    if rows != [] {
      var init := rows[..|rows| - 1];
      NamedKeepsNamed(init);
      assert rows == init + [rows[|rows| - 1]];
    }
  }

  /** `parseSheetValues(values, sheetTitle)`. */
  method ParseSheetValues(values: seq<seq<string>>, sheetTitle: string, iterationOrder: HeaderMap -> seq<string>)
      returns (rows: seq<SwitchSheetRow>)
    requires IsOrdering(iterationOrder)
    ensures rows == SheetRows(values, sheetTitle, iterationOrder)
  {
    rows := [];
    if |values| == 0 {
      return;
    }
    var headerRowIndex := -1;
    var headerMap: HeaderMap := map[];
    var i := 0;
    while i < |values|
      invariant 0 <= i <= |values|
      invariant FirstHeaderRow(values, 0) == FirstHeaderRow(values, i)
      invariant headerRowIndex == -1
    {
      var row := values[i];
      if IsHeaderRow(row) {
        headerRowIndex := i;
        headerMap := PutHeaders(row);
        break;
      }
      i := i + 1;
    }
    if headerRowIndex == -1 {
      return;
    }
    var order := iterationOrder(headerMap);
    rows := DataRows(values, headerRowIndex, headerMap, order, sheetTitle);
  }

  /** The loop over a header row's cells, each put into an empty map under
    * its text without spaces. */
  method PutHeaders(row: seq<string>) returns (headerMap: HeaderMap)
    ensures headerMap == HeaderMapOf(row)
  {
    headerMap := map[];
    ghost var keys := HeaderKeys(row);
    var j := 0;
    while j < |row|
      invariant 0 <= j <= |row|
      invariant headerMap == LastPositions(keys[..j])
    {
      assert keys[..j + 1][..j] == keys[..j];
      headerMap := headerMap[StripSpaces(row[j]) := j];
      j := j + 1;
    }
    assert keys[..|row|] == keys;
  }

  /** The `IntStream` over the rows after the header: `from` on each, the
    * unnamed ones dropped. */
  method DataRows(values: seq<seq<string>>, h: nat, headerMap: HeaderMap, order: seq<string>, sheetTitle: string)
      returns (rows: seq<SwitchSheetRow>)
    requires h < |values| && IsIterationOrder(headerMap, order)
    ensures rows == DataRowsOf(values, h, headerMap, order, sheetTitle)
  {
    rows := [];
    ghost var build := RowBuilder(headerMap, order, sheetTitle);
    var k := h + 1;
    while k < |values|
      invariant h + 1 <= k <= |values|
      invariant rows == Named(BuiltRows(values, h + 1, k, build))
    {
      var row := From(k + 1, values[k], headerMap, order, sheetTitle);
      BuiltRowsStep(values, h + 1, k, build, row);
      if row.name.Some? && row.name.value != [] {
        rows := rows + [row];
      }
      k := k + 1;
    }
  }
}
