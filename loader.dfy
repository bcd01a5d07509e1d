/**
 * `load_data`: the steps that rebind the frame one after another, and the
 * loop that overwrites the four money columns with their cleaned values.
 */
module Loader {
  import opened Wrappers
  import opened Amounts
  import opened Dates
  import opened Table

  /** `pd.to_numeric(df[col].astype(str).str.replace(",", ""), errors="coerce").fillna(0)`. */
  function CleanColumn(table: seq<Dated>, col: nat): (amounts: seq<real>)
    ensures |amounts| == |table|
    ensures forall i :: 0 <= i < |table| ==> amounts[i] == CleanAmount(Cell(table[i].cells, col))
  {
    seq(|table|, i requires 0 <= i < |table| => CleanAmount(Cell(table[i].cells, col)))
  }

  /** The rows of the frame once the four money columns hold their cleaned values. */
  function Assemble(table: seq<Dated>, columns: seq<seq<real>>): (r: seq<Record>)
    requires |columns| == 4 && forall k :: 0 <= k < 4 ==> |columns[k]| == |table|
    ensures |r| == |table|
  {
    seq(|table|, i requires 0 <= i < |table| =>
      Record(table[i].date, columns[0][i], columns[1][i], columns[2][i], columns[3][i]))
  }

  /**
   * The `for col in [...]` loop: looks each money column up in turn and
   * replaces it by its cleaned amounts. The first column that is missing or
   * duplicated ends the load with that error.
   */
  method CleanMoneyColumns(header: seq<string>, table: seq<Dated>) returns (result: Result<seq<Record>, LoadError>)
    ensures LookupAll(header, MoneyColumns).Err? ==> result == Err(LookupAll(header, MoneyColumns).error)
    ensures LookupAll(header, MoneyColumns).Ok? ==> result == Ok(CleanAll(table, LookupAll(header, MoneyColumns).value))
  {
    var columns: seq<seq<real>> := [];
    var cols: seq<nat> := [];
    for k := 0 to |MoneyColumns|
      invariant |cols| == k && |columns| == k
      invariant LookupAll(header, MoneyColumns[..k]) == Ok(cols)
      invariant forall j :: 0 <= j < k ==> columns[j] == CleanColumn(table, cols[j])
    {
      var c := Lookup(header, MoneyColumns[k]);
      if c.Err? {
        assert forall j :: 0 <= j < k ==> MoneyColumns[..k][j] == MoneyColumns[j];
        LookupAllMeaning(header, MoneyColumns[..k]);
        LookupAllStopsAtFirstFailure(header, MoneyColumns, k);
        return Err(c.error);
      }
      LookupAllStep(header, MoneyColumns, k, cols, c.value);
      columns := columns + [CleanColumn(table, c.value)];
      cols := cols + [c.value];
    }
    assert MoneyColumns[..|MoneyColumns|] == MoneyColumns;
    AssembleCleans(table, cols, columns);
    return Ok(Assemble(table, columns));
  }

  /** Putting the cleaned columns back together cleans every row. */
  lemma AssembleCleans(table: seq<Dated>, cols: seq<nat>, columns: seq<seq<real>>)
    requires |cols| == 4 && |columns| == 4
    requires forall j :: 0 <= j < 4 ==> columns[j] == CleanColumn(table, cols[j]) && |columns[j]| == |table|
    ensures Assemble(table, columns) == CleanAll(table, cols)
  {
    var r, c := Assemble(table, columns), CleanAll(table, cols);
    forall i | 0 <= i < |table| ensures r[i] == c[i] {
      assert columns[0][i] == CleanAmount(Cell(table[i].cells, cols[0]));
      assert columns[1][i] == CleanAmount(Cell(table[i].cells, cols[1]));
      assert columns[2][i] == CleanAmount(Cell(table[i].cells, cols[2]));
      assert columns[3][i] == CleanAmount(Cell(table[i].cells, cols[3]));
    }
  }

  /**
   * Loads the fetched sheet. It fails exactly when the sheet-order load
   * `InputOrder` fails, with the same error; otherwise the rows come back
   * sorted by date and are a permutation of the sheet's rows, each cleaned:
   * sorting before cleaning, as the code does, gives what cleaning first
   * and sorting afterwards would.
   */
  method LoadData(raw: RawTable) returns (result: Result<seq<Record>, LoadError>)
    ensures result.Err? <==> InputOrder(raw).Err?
    ensures result.Err? ==> result == InputOrder(raw)
    ensures result.Ok? ==> |result.value| == |raw.rows|
    ensures result.Ok? ==> RecordsSorted(result.value)
    ensures result.Ok? ==> multiset(result.value) == multiset(InputOrder(raw).value)
    ensures result.Ok? ==> forall i :: 0 <= i < |result.value| ==>
      result.value[i].date.NaT? || result.value[i].date.year == DefaultYear
  {
    var header := StripHeader(raw.header);
    var dateCol := Lookup(header, "date");
    if dateCol.Err? {
      return Err(dateCol.error);
    }
    var dates := ParseDates(raw.rows, dateCol.value);
    if dates.Err? {
      return Err(dates.error);
    }
    var unsorted := Attach(dates.value, raw.rows);
    var table := SortByDate(unsorted);
    result := CleanMoneyColumns(header, table);
    if result.Ok? {
      var cols := LookupAll(header, MoneyColumns).value;
      assert InputOrder(raw) == Ok(CleanAll(unsorted, cols));
      CleanCommutesWithPermutation(table, unsorted, cols);
      CleanKeepsOrder(table, cols);
      LoadedDatesInDefaultYear(raw);
      forall i | 0 <= i < |result.value|
        ensures result.value[i].date.NaT? || result.value[i].date.year == DefaultYear
      {
        assert result.value[i] in multiset(InputOrder(raw).value);
      }
    }
  }
}
