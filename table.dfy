/**
 * The table `load_data` works on: the fetched rows as text, the column
 * lookup on stripped headers, the parsed `date` column, the sort by date,
 * and the typed records the dashboard reads once the money columns are clean.
 */
module Table {
  import opened Wrappers
  import opened Text
  import opened Amounts
  import opened Dates
  import Perm

  /** The fetched sheet: a header of column names and rows of cell text. */
  datatype RawTable = RawTable(header: seq<string>, rows: seq<seq<string>>)

  /**
   * Why a load fails: a column the code reads is absent (`KeyError`) or,
   * once headers are stripped, present more than once; or a `date` cell
   * does not parse (`ValueError`, reported for the first such row).
   */
  datatype LoadError = MissingColumn(name: string) | DuplicateColumn(name: string) | BadDate(row: nat, text: string)

  /** One loaded row: the date and the four cleaned amounts. */
  datatype Record = Record(date: Stamp, moneyIn: real, gainLoss: real, moneyOut: real, overallMoney: real)

  /** A row once its date is parsed, before its money cells are cleaned. */
  datatype Dated = Dated(date: Stamp, cells: seq<string>)

  /** The money columns, in the order the cleaning loop visits them. */
  const MoneyColumns: seq<string> := ["money in", "gain/loss", "money out", "overall money"]

  /** A cell of a row; past the end of a short row it is missing, as `read_csv` fills it. */
  function Cell(row: seq<string>, col: nat): string {
    if col < |row| then row[col] else ""
  }

  /** `df.columns = [c.strip() for c in df.columns]`. */
  function StripHeader(header: seq<string>): (h: seq<string>)
    ensures |h| == |header|
    ensures forall i :: 0 <= i < |h| ==> h[i] == Strip(header[i])
  {
    seq(|header|, i requires 0 <= i < |header| => Strip(header[i]))
  }

  /** The positions of the columns called `name`, in increasing order. */
  function Positions(h: seq<string>, name: string): seq<nat>
  {
    if h == [] then []
    else Positions(h[..|h| - 1], name) + (if h[|h| - 1] == name then [|h| - 1] else [])
  }

  /** The positions are exactly the columns called `name`, each once, in increasing order. */
  lemma {:induction false} PositionsMeaning(h: seq<string>, name: string)
    ensures forall k :: 0 <= k < |Positions(h, name)| ==> Positions(h, name)[k] < |h| && h[Positions(h, name)[k]] == name
    ensures forall i :: 0 <= i < |h| && h[i] == name ==> i in Positions(h, name)
    ensures forall a, b :: 0 <= a < b < |Positions(h, name)| ==> Positions(h, name)[a] < Positions(h, name)[b]
  {
    if h != [] {
      var front := h[..|h| - 1];
      PositionsMeaning(front, name);
      assert forall i :: 0 <= i < |front| ==> front[i] == h[i];
    }
  }

  /** `df[name]`: the one column with that name, or why there is none. */
  function Lookup(h: seq<string>, name: string): (r: Result<nat, LoadError>)
    ensures r.Ok? || r == Err(MissingColumn(name)) || r == Err(DuplicateColumn(name))
    ensures r.Ok? ==> r.value < |h| && h[r.value] == name
  {
    PositionsMeaning(h, name);
    var ps := Positions(h, name);
    if |ps| == 0 then Err(MissingColumn(name))
    else if |ps| == 1 then Ok(ps[0])
    else Err(DuplicateColumn(name))
  }

  /**
   * The lookup finds the column exactly when one header has that name; it
   * reports the name as missing when no header has it, and as duplicated
   * when two or more do.
   */
  lemma LookupMeaning(h: seq<string>, name: string)
    ensures Lookup(h, name).Ok? ==> forall j :: 0 <= j < |h| && h[j] == name ==> j == Lookup(h, name).value
    ensures Lookup(h, name) == Err(MissingColumn(name)) <==> name !in h
    ensures Lookup(h, name) == Err(DuplicateColumn(name)) <==> exists i, j :: 0 <= i < j < |h| && h[i] == name && h[j] == name
  {
    PositionsMeaning(h, name);
    var ps := Positions(h, name);
    if |ps| == 0 {
      assert forall i :: 0 <= i < |h| ==> h[i] != name;
    } else {
      assert h[ps[0]] == name;
    }
    if |ps| >= 2 {
      assert ps[0] < ps[1] && h[ps[0]] == name && h[ps[1]] == name;
    } else if |ps| == 1 {
      assert forall i :: 0 <= i < |h| && h[i] == name ==> i == ps[0];
    }
  }

  /** A name that heads exactly one column is looked up as that column. */
  lemma LookupFindsUnique(h: seq<string>, name: string, c: nat)
    requires c < |h| && h[c] == name && forall j :: 0 <= j < |h| && h[j] == name ==> j == c
    ensures Lookup(h, name) == Ok(c)
  {
    LookupMeaning(h, name);
  }

  /** Looks the columns up in order; the first that fails decides the error. */
  function LookupAll(h: seq<string>, names: seq<string>): (r: Result<seq<nat>, LoadError>)
    ensures r.Ok? ==> |r.value| == |names|
  {
    if names == [] then Ok([])
    else
      var front := names[..|names| - 1];
      match LookupAll(h, front)
      case Err(e) => Err(e)
      case Ok(cols) =>
        match Lookup(h, names[|names| - 1])
        case Err(e) => Err(e)
        case Ok(c) => Ok(cols + [c])
  }

  /**
   * Looking the columns up succeeds exactly when every one of them can be
   * looked up, and then yields each column's position in order.
   */
  lemma {:induction false} LookupAllMeaning(h: seq<string>, names: seq<string>)
    ensures LookupAll(h, names).Ok? <==> forall k :: 0 <= k < |names| ==> Lookup(h, names[k]).Ok?
    ensures LookupAll(h, names).Ok? ==> forall k :: 0 <= k < |names| ==> Lookup(h, names[k]) == Ok(LookupAll(h, names).value[k])
  {
    if names != [] {
      var front := names[..|names| - 1];
      assert forall k :: 0 <= k < |front| ==> front[k] == names[k];
      LookupAllMeaning(h, front);
    }
  }

  /** Looking up one more column extends the columns found so far. */
  lemma LookupAllStep(h: seq<string>, names: seq<string>, k: nat, cols: seq<nat>, c: nat)
    requires k < |names| && LookupAll(h, names[..k]) == Ok(cols) && Lookup(h, names[k]) == Ok(c)
    ensures LookupAll(h, names[..k + 1]) == Ok(cols + [c])
  {
    var next := names[..k + 1];
    assert next[..k] == names[..k] && next[k] == names[k];
  }

  /** The first column that cannot be looked up decides the error of the whole lookup. */
  lemma {:induction false} LookupAllStopsAtFirstFailure(h: seq<string>, names: seq<string>, k: nat)
    requires k < |names| && Lookup(h, names[k]).Err?
    requires forall j :: 0 <= j < k ==> Lookup(h, names[j]).Ok?
    ensures LookupAll(h, names) == Err(Lookup(h, names[k]).error)
  {
    var front := names[..|names| - 1];
    if k < |names| - 1 {
      assert forall j :: 0 <= j < k ==> front[j] == names[j];
      assert front[k] == names[k];
      LookupAllStopsAtFirstFailure(h, front, k);
    } else {
      assert forall j :: 0 <= j < |front| ==> front[j] == names[j];
      LookupAllMeaning(h, front);
    }
  }

  /**
   * `pd.to_datetime(df["date"], format="%d %b")`: every cell of the column
   * parsed, or the first row whose cell does not parse.
   */
  function ParseDates(rows: seq<seq<string>>, col: nat): (r: Result<seq<Stamp>, LoadError>)
    ensures r.Ok? <==> forall i :: 0 <= i < |rows| ==> ParseDate(Cell(rows[i], col)).Some?
    ensures r.Ok? ==> |r.value| == |rows|
    ensures r.Ok? ==> forall i :: 0 <= i < |rows| ==> ParseDate(Cell(rows[i], col)) == Some(r.value[i])
    ensures r.Err? ==> && r.error.BadDate?
                       && r.error.row < |rows|
                       && r.error.text == Cell(rows[r.error.row], col)
                       && ParseDate(r.error.text).None?
                       && forall j :: 0 <= j < r.error.row ==> ParseDate(Cell(rows[j], col)).Some?
  {
    if rows == [] then Ok([])
    else match ParseDate(Cell(rows[0], col))
      case None => Err(BadDate(0, Cell(rows[0], col)))
      case Some(d) =>
        match ParseDates(rows[1..], col)
        case Err(e) => Err(BadDate(e.row + 1, e.text))
        case Ok(ds) => Ok([d] + ds)
  }

  /** The rows with their parsed dates attached. */
  function Attach(dates: seq<Stamp>, rows: seq<seq<string>>): (r: seq<Dated>)
    requires |dates| == |rows|
    ensures |r| == |rows|
    ensures forall i :: 0 <= i < |r| ==> r[i] == Dated(dates[i], rows[i])
  {
    seq(|rows|, i requires 0 <= i < |rows| => Dated(dates[i], rows[i]))
  }

  ghost predicate SortedByDate(s: seq<Dated>) {
    forall i, j :: 0 <= i < j < |s| ==> StampLe(s[i].date, s[j].date)
  }

  ghost predicate RecordsSorted(s: seq<Record>) {
    forall i, j :: 0 <= i < j < |s| ==> StampLe(s[i].date, s[j].date)
  }

  function InsertByDate(x: Dated, s: seq<Dated>): (r: seq<Dated>)
    requires SortedByDate(s)
    ensures SortedByDate(r)
    ensures |r| == |s| + 1
    ensures multiset(r) == multiset(s) + multiset{x}
  {
    if s == [] then [x]
    else if StampLe(x.date, s[0].date) then
      forall k | 0 <= k < |s| ensures StampLe(x.date, s[k].date) {
        StampLeTransitive(x.date, s[0].date, s[k].date);
      }
      ConsSorted(x, s);
      [x] + s
    else
      var t := InsertByDate(x, s[1..]);
      assert s == [s[0]] + s[1..];
      HeadBelowInsert(s[0], x, s[1..], t);
      [s[0]] + t
  }

  /**
   * A row dated no later than `x` and than every row of `s` can head `t`,
   * a sorted permutation of `s` with `x` added.
   */
  lemma HeadBelowInsert(h: Dated, x: Dated, s: seq<Dated>, t: seq<Dated>)
    requires StampLe(h.date, x.date)
    requires forall j :: 0 <= j < |s| ==> StampLe(h.date, s[j].date)
    requires multiset(t) == multiset(s) + multiset{x} && SortedByDate(t)
    ensures SortedByDate([h] + t)
  {
    forall k | 0 <= k < |t| ensures StampLe(h.date, t[k].date) {
      assert t[k] in multiset(t);
      if t[k] != x {
        assert t[k] in multiset(s);
        var j :| 0 <= j < |s| && s[j] == t[k];
      }
    }
    ConsSorted(h, t);
  }

  lemma ConsSorted(h: Dated, t: seq<Dated>)
    requires SortedByDate(t) && forall k :: 0 <= k < |t| ==> StampLe(h.date, t[k].date)
    ensures SortedByDate([h] + t)
  {
    var r := [h] + t;
    forall i, j | 0 <= i < j < |r| ensures StampLe(r[i].date, r[j].date) {
      assert r[j] == t[j - 1];
      if i > 0 {
        assert r[i] == t[i - 1];
      }
    }
  }

  /**
   * `df.sort_values("date")`: the rows in date order. Which of several rows
   * with the same date comes first is not promised.
   */
  function SortByDate(s: seq<Dated>): (r: seq<Dated>)
    ensures SortedByDate(r)
    ensures |r| == |s|
    ensures multiset(r) == multiset(s)
  {
    if s == [] then []
    else
      assert s == [s[0]] + s[1..];
      InsertByDate(s[0], SortByDate(s[1..]))
  }

  /** One row with its four money cells cleaned; `cols` are the money columns in `MoneyColumns` order. */
  function CleanRecord(d: Dated, cols: seq<nat>): (r: Record)
    requires |cols| == 4
    ensures r.date == d.date
  {
    Record(d.date,
           CleanAmount(Cell(d.cells, cols[0])), CleanAmount(Cell(d.cells, cols[1])),
           CleanAmount(Cell(d.cells, cols[2])), CleanAmount(Cell(d.cells, cols[3])))
  }

  /** Every row cleaned, in the same order. */
  function CleanAll(s: seq<Dated>, cols: seq<nat>): (r: seq<Record>)
    requires |cols| == 4
    ensures |r| == |s|
    ensures forall i :: 0 <= i < |s| ==> r[i] == CleanRecord(s[i], cols)
  {
    if s == [] then [] else [CleanRecord(s[0], cols)] + CleanAll(s[1..], cols)
  }

  lemma {:induction false} CleanAllAppend(a: seq<Dated>, b: seq<Dated>, cols: seq<nat>)
    requires |cols| == 4
    ensures CleanAll(a + b, cols) == CleanAll(a, cols) + CleanAll(b, cols)
  {
    if a == [] {
      assert a + b == b;
    } else {
      assert (a + b)[0] == a[0] && (a + b)[1..] == a[1..] + b;
      CleanAllAppend(a[1..], b, cols);
    }
  }

  /**
   * Cleaning works row by row, so it commutes with any reordering: cleaning
   * two permutations of the same rows gives permutations of the same records.
   */
  lemma {:induction false} CleanCommutesWithPermutation(a: seq<Dated>, b: seq<Dated>, cols: seq<nat>)
    requires |cols| == 4
    requires multiset(a) == multiset(b)
    ensures multiset(CleanAll(a, cols)) == multiset(CleanAll(b, cols))
  {
    if a != [] {
      assert a[0] in multiset(b);
      var j :| 0 <= j < |b| && b[j] == a[0];
      Perm.RemoveMatching(a, b, j);
      CleanCommutesWithPermutation(a[1..], b[..j] + b[j + 1..], cols);
      CleanAllRemove(b, j, cols);
      assert CleanAll(a, cols) == [CleanRecord(a[0], cols)] + CleanAll(a[1..], cols);
    }
  }

  lemma CleanAllRemove(b: seq<Dated>, j: nat, cols: seq<nat>)
    requires |cols| == 4 && j < |b|
    ensures multiset(CleanAll(b, cols))
         == multiset{CleanRecord(b[j], cols)} + multiset(CleanAll(b[..j] + b[j + 1..], cols))
  {
    assert b == b[..j] + [b[j]] + b[j + 1..];
    CleanAllAppend(b[..j] + [b[j]], b[j + 1..], cols);
    CleanAllAppend(b[..j], [b[j]], cols);
    CleanAllAppend(b[..j], b[j + 1..], cols);
  }

  /** Cleaning keeps the dates, so a table sorted before cleaning is sorted after. */
  lemma CleanKeepsOrder(s: seq<Dated>, cols: seq<nat>)
    requires |cols| == 4
    requires SortedByDate(s)
    ensures RecordsSorted(CleanAll(s, cols))
  {
  }

  /**
   * The records a load produces, in the order of the sheet: strip the
   * headers, find and parse the `date` column, find the money columns, and
   * clean every row. `load_data` returns these sorted by date.
   */
  function InputOrder(raw: RawTable): (r: Result<seq<Record>, LoadError>)
    ensures r.Ok? <==>
      var h := StripHeader(raw.header);
      && Lookup(h, "date").Ok?
      && (forall i :: 0 <= i < |raw.rows| ==> ParseDate(Cell(raw.rows[i], Lookup(h, "date").value)).Some?)
      && (forall k :: 0 <= k < |MoneyColumns| ==> Lookup(h, MoneyColumns[k]).Ok?)
    ensures r.Ok? ==> |r.value| == |raw.rows|
  {
    var h := StripHeader(raw.header);
    LookupAllMeaning(h, MoneyColumns);
    match Lookup(h, "date")
    case Err(e) => Err(e)
    case Ok(dc) =>
      match ParseDates(raw.rows, dc)
      case Err(e) => Err(e)
      case Ok(ds) =>
        match LookupAll(h, MoneyColumns)
        case Err(e) => Err(e)
        case Ok(cols) => Ok(CleanAll(Attach(ds, raw.rows), cols))
  }

  /** The one column whose stripped header is `name`. */
  ghost predicate IsColumn(raw: RawTable, name: string, c: nat) {
    && c < |raw.header| && Strip(raw.header[c]) == name
    && forall j :: 0 <= j < |raw.header| && Strip(raw.header[j]) == name ==> j == c
  }

  /** The column whose stripped header alone is `name` is the one `df[name]` finds. */
  lemma ColumnLookup(raw: RawTable, name: string, c: nat)
    requires IsColumn(raw, name, c)
    ensures Lookup(StripHeader(raw.header), name) == Ok(c)
  {
    LookupFindsUnique(StripHeader(raw.header), name, c);
  }

  /**
   * Every loaded row carries its parsed `date` cell and the cleaned cells of
   * the columns headed `money in`, `gain/loss`, `money out` and
   * `overall money` (whitespace around a header does not matter).
   */
  lemma LoadedRowContents(raw: RawTable, i: nat, dc: nat, cin: nat, cgl: nat, cout: nat, cov: nat)
    requires InputOrder(raw).Ok? && i < |raw.rows|
    requires IsColumn(raw, "date", dc)
    requires IsColumn(raw, "money in", cin) && IsColumn(raw, "gain/loss", cgl)
    requires IsColumn(raw, "money out", cout) && IsColumn(raw, "overall money", cov)
    ensures var rec := InputOrder(raw).value[i];
      && ParseDate(Cell(raw.rows[i], dc)) == Some(rec.date)
      && rec.moneyIn == CleanAmount(Cell(raw.rows[i], cin))
      && rec.gainLoss == CleanAmount(Cell(raw.rows[i], cgl))
      && rec.moneyOut == CleanAmount(Cell(raw.rows[i], cout))
      && rec.overallMoney == CleanAmount(Cell(raw.rows[i], cov))
  {
    var h := StripHeader(raw.header);
    var cols := LookupAll(h, MoneyColumns).value;
    LookupAllMeaning(h, MoneyColumns);
    ColumnLookup(raw, "date", dc);
    ColumnLookup(raw, "money in", cin);
    ColumnLookup(raw, "gain/loss", cgl);
    ColumnLookup(raw, "money out", cout);
    ColumnLookup(raw, "overall money", cov);
    assert Lookup(h, MoneyColumns[0]) == Ok(cols[0]);
    assert Lookup(h, MoneyColumns[1]) == Ok(cols[1]);
    assert Lookup(h, MoneyColumns[2]) == Ok(cols[2]);
    assert Lookup(h, MoneyColumns[3]) == Ok(cols[3]);
  }

  /**
   * Every loaded date is NaT or a valid day of the default year, so the
   * sort orders the days by (month, day).
   */
  lemma LoadedDatesInDefaultYear(raw: RawTable)
    requires InputOrder(raw).Ok?
    ensures forall rec :: rec in InputOrder(raw).value ==>
      rec.date.NaT? || (rec.date.year == DefaultYear && ValidDate(rec.date.year, rec.date.month, rec.date.day))
  {
    var h := StripHeader(raw.header);
    var dc := Lookup(h, "date").value;
    var ds := ParseDates(raw.rows, dc).value;
    forall rec | rec in InputOrder(raw).value
      ensures rec.date.NaT? || (rec.date.year == DefaultYear && ValidDate(rec.date.year, rec.date.month, rec.date.day))
    {
      var i :| 0 <= i < |InputOrder(raw).value| && InputOrder(raw).value[i] == rec;
      assert ParseDate(Cell(raw.rows[i], dc)) == Some(rec.date);
    }
  }

  /** Without a column headed `date` the load fails with that name. */
  lemma LoadNeedsDateColumn(raw: RawTable)
    requires forall c :: 0 <= c < |raw.header| ==> Strip(raw.header[c]) != "date"
    ensures InputOrder(raw) == Err(MissingColumn("date"))
  {
    LookupMeaning(StripHeader(raw.header), "date");
  }

  /**
   * Date parsing is strict: the first row whose `date` cell does not parse
   * makes the whole load fail, and no table is produced.
   */
  lemma LoadFailsOnBadDate(raw: RawTable, dc: nat, i: nat)
    requires IsColumn(raw, "date", dc)
    requires i < |raw.rows| && ParseDate(Cell(raw.rows[i], dc)).None?
    requires forall j :: 0 <= j < i ==> ParseDate(Cell(raw.rows[j], dc)).Some?
    ensures InputOrder(raw) == Err(BadDate(i, Cell(raw.rows[i], dc)))
  {
    ColumnLookup(raw, "date", dc);
    ParseDatesStopsAtFirstFailure(raw.rows, dc, i);
  }

  /** The first row whose cell does not parse decides the error of the whole column. */
  lemma {:induction false} ParseDatesStopsAtFirstFailure(rows: seq<seq<string>>, col: nat, i: nat)
    requires i < |rows| && ParseDate(Cell(rows[i], col)).None?
    requires forall j :: 0 <= j < i ==> ParseDate(Cell(rows[j], col)).Some?
    ensures ParseDates(rows, col) == Err(BadDate(i, Cell(rows[i], col)))
  {
    if i > 0 {
      var d := ParseDate(Cell(rows[0], col)).value;
      assert forall j :: 0 <= j < i - 1 ==> rows[1..][j] == rows[j + 1];
      assert rows[1..][i - 1] == rows[i];
      ParseDatesStopsAtFirstFailure(rows[1..], col, i - 1);
      assert ParseDates(rows, col) == Err(BadDate(i - 1 + 1, Cell(rows[i], col)));
    }
  }

  /** Whitespace around a column name changes nothing about the load. */
  lemma PaddedHeaderLoadsAlike(raw: RawTable, c: nat, l: string, r: string)
    requires c < |raw.header| && AllSpace(l) && AllSpace(r)
    ensures InputOrder(RawTable(raw.header[c := l + raw.header[c] + r], raw.rows)) == InputOrder(raw)
  {
    var padded := RawTable(raw.header[c := l + raw.header[c] + r], raw.rows);
    StripIgnoresPadding(l, raw.header[c], r);
    assert forall i :: 0 <= i < |raw.header| ==> Strip(padded.header[i]) == Strip(raw.header[i]);
    assert StripHeader(padded.header) == StripHeader(raw.header);
    LoadSeesStrippedHeader(padded, raw);
  }

  /** The load reads the header only through its stripped form. */
  lemma LoadSeesStrippedHeader(a: RawTable, b: RawTable)
    requires StripHeader(a.header) == StripHeader(b.header) && a.rows == b.rows
    ensures InputOrder(a) == InputOrder(b)
  {
  }
}
