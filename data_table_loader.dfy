/**
 * The table builder: it attaches a CSV reader (reading it if it has not been
 * read yet), chooses the column names (the header's, or "1".."N" when there
 * is no header) and loads the non-empty data rows. A DataTable is modelled as
 * its column names and its rows of cells.
 */
module DataTables {
  import opened Wrappers
  import opened Text
  import opened CsvReading

  /** What a DataTable holds: column names and rows of cells. */
  datatype Table = Table(columns: seq<string>, rows: seq<seq<string>>)

  /** Every row has one cell per column. */
  predicate WellFormed(t: Table)
  {
    forall i :: 0 <= i < |t.rows| ==> |t.rows[i]| == |t.columns|
  }

  /** The table object the loader fills in place. */
  class DataTable {
    var columns: seq<string>
    var rows: seq<seq<string>>

    constructor ()
      ensures columns == [] && rows == []
    {
      columns, rows := [], [];
    }

    /** The table's current contents. */
    function View(): (r: Table)
      reads this
    {
      Table(columns, rows)
    }

    /** `Columns.Add(name)`. */
    method AddColumn(name: string)
      modifies this
      ensures columns == old(columns) + [name] && rows == old(rows)
    {
      columns := columns + [name];
    }

    /** `LoadDataRow(values, false)` for a row of exactly one value per column. */
    method LoadDataRow(values: seq<string>)
      requires |values| == |columns|
      modifies this
      ensures rows == old(rows) + [values] && columns == old(columns)
    {
      rows := rows + [values];
    }
  }

  /** `Header != null && Header.Any()`. */
  predicate HasCells(header: Option<seq<string>>)
  {
    header.Some? && |header.value| > 0
  }

  /** `Data != null && Data.Any()`. */
  predicate HasRows(data: Option<seq<seq<string>>>)
  {
    data.Some? && |data.value| > 0
  }

  /** The synthetic column names "1", "2", ..., "n". */
  function SyntheticNames(n: nat): (r: seq<string>)
  {
    seq(n, i requires 0 <= i < n => NatToString(i + 1))
  }

  /** The synthetic names are the numerals of 1..n, and no two are equal. */
  lemma SyntheticNamesDistinct(n: nat)
    ensures |SyntheticNames(n)| == n
    ensures forall i :: 0 <= i < n ==>
      AllDigits(SyntheticNames(n)[i]) && ParseNat(SyntheticNames(n)[i]) == i + 1
    ensures forall i, j :: 0 <= i < j < n ==> SyntheticNames(n)[i] != SyntheticNames(n)[j]
  {
    var names := SyntheticNames(n);
    forall i | 0 <= i < n
      ensures AllDigits(names[i]) && ParseNat(names[i]) == i + 1
    {
      NatToStringRoundTrip(i + 1);
    }
  }

  /** The column names the loader adds: the header's, else one synthetic name per cell of the first row. */
  function ColumnNames(header: Option<seq<string>>, data: Option<seq<seq<string>>>): (r: seq<string>)
  {
    if HasCells(header) then header.value
    else if HasRows(data) then SyntheticNames(|data.value[0]|)
    else []
  }

  /** The rows in order, dropping empty ones. */
  function NonEmptyRows(rows: seq<seq<string>>): (r: seq<seq<string>>)
  {
    if |rows| == 0 then []
    else
      var last := rows[|rows| - 1];
      NonEmptyRows(rows[..|rows| - 1]) + if |last| > 0 then [last] else []
  }

  /** No row is empty. */
  predicate AllNonEmpty(rows: seq<seq<string>>)
  {
    forall i :: 0 <= i < |rows| ==> |rows[i]| > 0
  }

  /** Dropping empty rows keeps every non-empty row and nothing else. */
  lemma {:induction false} NonEmptyRowsMembers(rows: seq<seq<string>>)
    ensures forall r :: r in NonEmptyRows(rows) <==> r in rows && |r| > 0
  {
    if |rows| > 0 {
      var init, last := rows[..|rows| - 1], rows[|rows| - 1];
      NonEmptyRowsMembers(init);
      assert rows == init + [last];
      var tail: seq<seq<string>> := if |last| > 0 then [last] else [];
      assert NonEmptyRows(rows) == NonEmptyRows(init) + tail;
      forall r
        ensures r in NonEmptyRows(rows) <==> r in rows && |r| > 0
      {
        assert r in NonEmptyRows(rows) <==> r in NonEmptyRows(init) || r in tail;
        assert r in rows <==> r in init || r == last;
      }
    }
  }

  /** Rows with no empty row among them are loaded as they are. */
  lemma {:induction false} NonEmptyRowsKeepsAll(rows: seq<seq<string>>)
    requires AllNonEmpty(rows)
    ensures NonEmptyRows(rows) == rows
  {
    if |rows| > 0 {
      var init := rows[..|rows| - 1];
      assert AllNonEmpty(init);
      NonEmptyRowsKeepsAll(init);
      assert rows == init + [rows[|rows| - 1]];
    }
  }

  /** The rows the loader adds: none without columns or data, else the non-empty data rows. */
  function LoadedRows(columns: seq<string>, data: Option<seq<seq<string>>>): (r: seq<seq<string>>)
  {
    if |columns| == 0 || !HasRows(data) then [] else NonEmptyRows(data.value)
  }

  /** The table a loader builds from a reader's Header and Data. */
  function TableOf(header: Option<seq<string>>, data: Option<seq<seq<string>>>): (r: Table)
  {
    var columns := ColumnNames(header, data);
    Table(columns, LoadedRows(columns, data))
  }

  /**
   * The table built from a successful read: every row has one cell per
   * column; the rows are the data rows, in order, none skipped; the columns
   * are the header's names, or "1".."W" (W the first line's cell count) when
   * there is no header but there are rows; with neither, the table is empty.
   */
  lemma TableOfRead(lines: seq<string>, hasHeader: bool)
    requires Parse(lines, hasHeader).Success?
    ensures var p := Parse(lines, hasHeader).value;
      var t := TableOf(p.header, Some(p.data));
      WellFormed(t) && t.rows == p.data &&
      (p.header.Some? ==> t.columns == p.header.value) &&
      (p.header.None? && |p.data| > 0 ==> t.columns == SyntheticNames(Width(lines[0]))) &&
      (p.header.None? && |p.data| == 0 ==> t == Table([], []))
  {
    ParseFailsOnFirstMismatch(lines, hasHeader);
    ParseSucceeds(lines, hasHeader);
    var p := Parse(lines, hasHeader).value;
    assert AllNonEmpty(p.data);
    NonEmptyRowsKeepsAll(p.data);
    var columns := ColumnNames(p.header, Some(p.data));
    if |p.data| > 0 {
      assert |columns| == Width(lines[0]) > 0;
      assert LoadedRows(columns, Some(p.data)) == p.data;
    }
  }

  /** The position of the first column with this name (DataTable column lookup). */
  function IndexOf(names: seq<string>, name: string): (r: Option<nat>)
    ensures r.None? <==> name !in names
    ensures r.Some? ==> r.value < |names| && names[r.value] == name && name !in names[..r.value]
  {
    if |names| == 0 then None
    else if names[0] == name then Some(0)
    else match IndexOf(names[1..], name)
      case None => None
      case Some(k) => assert names[..k + 1] == [names[0]] + names[1..][..k]; Some(k + 1)
  }

  /** The index of a name's first occurrence is the one IndexOf finds. */
  lemma IndexOfFirst(names: seq<string>, name: string, k: nat)
    requires k < |names| && names[k] == name && name !in names[..k]
    ensures IndexOf(names, name) == Some(k)
  {
  }

  /**
   * `rows.Select(x => x.Field<string>(name))`: the named column's cell of
   * every row, in row order. The name is resolved per row, so a missing
   * column is only an error when there is at least one row.
   */
  function ColumnValues(t: Table, name: string): (r: Option<seq<string>>)
    requires WellFormed(t)
    ensures r.None? <==> |t.rows| > 0 && name !in t.columns
    ensures r.Some? ==> |r.value| == |t.rows|
    ensures r.Some? && |t.rows| > 0 ==>
      var k := IndexOf(t.columns, name).value;
      forall i :: 0 <= i < |t.rows| ==> r.value[i] == t.rows[i][k]
  {
    if |t.rows| == 0 then Some([])
    else match IndexOf(t.columns, name)
      case None => None
      case Some(k) => Some(seq(|t.rows|, i requires 0 <= i < |t.rows| => t.rows[i][k]))
  }

  /** The loader's failures: a null reader, or the reader's own mismatch. */
  datatype LoaderError = ArgumentNull(paramName: string) | ReaderMismatch(mismatch: Mismatch)

  class DataTableLoader {
    var containsHeader: bool
    var containsData: bool
    var reader: CsvReader?

    /** Attached to a read reader, with the two flags describing its Header and Data. */
    ghost predicate Attached()
      reads this, reader
    {
      reader != null && reader.Valid() && reader.isPopulated
      && containsHeader == HasCells(reader.header) && containsData == HasRows(reader.data)
    }

    /** The parameterless constructor: no reader yet. */
    constructor ()
      ensures reader == null && !containsHeader && !containsData
    {
      reader := null;
      containsHeader, containsData := false, false;
    }

    /**
     * The constructor taking a reader: a null reader is an argument-null
     * error; otherwise the reader is attached as by the Reader setter.
     */
    static method New(reader: CsvReader?) returns (r: Result<DataTableLoader, LoaderError>)
      requires reader != null ==> reader.Valid()
      modifies reader
      ensures reader == null ==> r == Failure(ArgumentNull("reader"))
      ensures reader != null ==> reader.Valid() && reader.header == HeaderOf(reader.csvData, reader.containsHeader)
      ensures reader != null && old(reader.isPopulated) ==> r.Success? && unchanged(reader)
      ensures reader != null && !old(reader.isPopulated) ==>
        match Parse(reader.csvData, reader.containsHeader)
        case Success(_) => r.Success?
        case Failure(m) => r == Failure(ReaderMismatch(m)) && reader.data == old(reader.data) && !reader.isPopulated
      ensures r.Success? ==> fresh(r.value) && r.value.reader == reader && r.value.Attached()
    {
      if reader == null {
        return Failure(ArgumentNull("reader"));
      }
      var attached := Attach(reader);
      match attached
      case Success(loader) => r := Success(loader);
      case Failure(m) => r := Failure(ReaderMismatch(m));
    }

    /** Construction with a non-null reader: the parameterless constructor followed by the Reader setter. */
    static method Attach(reader: CsvReader) returns (r: Result<DataTableLoader, Mismatch>)
      requires reader.Valid()
      modifies reader
      ensures reader.Valid() && reader.header == HeaderOf(reader.csvData, reader.containsHeader)
      ensures old(reader.isPopulated) ==> r.Success? && unchanged(reader)
      ensures !old(reader.isPopulated) ==>
        r.ErrorOption() == Parse(reader.csvData, reader.containsHeader).ErrorOption()
      ensures r.Failure? ==> reader.data == old(reader.data) && !reader.isPopulated
      ensures r.Success? ==> fresh(r.value) && r.value.reader == reader && r.value.Attached()
    {
      var loader := new DataTableLoader();
      var err := loader.SetReader(reader);
      if err.Some? {
        return Failure(err.value);
      }
      return Success(loader);
    }

    /** The Reader setter: stores the reader, then initialises from it. */
    method SetReader(value: CsvReader) returns (err: Option<Mismatch>)
      requires value.Valid()
      modifies this, value
      ensures reader == value && value.Valid() && value.header == HeaderOf(value.csvData, value.containsHeader)
      ensures old(value.isPopulated) ==> err.None? && unchanged(value)
      ensures !old(value.isPopulated) ==> err == Parse(value.csvData, value.containsHeader).ErrorOption()
      ensures err.None? ==> Attached()
      ensures err.Some? ==> value.data == old(value.data) && !value.isPopulated
      ensures err.Some? ==> containsHeader == old(containsHeader) && containsData == old(containsData)
    {
      reader := value;
      err := InitReader();
    }

    /** Reads the reader only if it is not populated yet, then records whether it has a header and data. */
    method InitReader() returns (err: Option<Mismatch>)
      requires reader != null && reader.Valid()
      modifies this, reader
      ensures reader == old(reader) && reader.Valid() && reader.header == HeaderOf(reader.csvData, reader.containsHeader)
      ensures old(reader.isPopulated) ==> err.None? && unchanged(reader)
      ensures !old(reader.isPopulated) ==> err == Parse(reader.csvData, reader.containsHeader).ErrorOption()
      ensures err.None? ==> Attached()
      ensures err.Some? ==> reader.data == old(reader.data) && !reader.isPopulated
      ensures err.Some? ==> containsHeader == old(containsHeader) && containsData == old(containsData)
    {
      err := None;
      if !reader.isPopulated {
        err := reader.Read();
        if err.Some? {
          return;
        }
      }
      containsHeader := reader.header.Some? && |reader.header.value| > 0;
      containsData := reader.data.Some? && |reader.data.value| > 0;
    }

    /** Builds the table: columns first, then rows. */
    method Load() returns (dt: DataTable)
      requires Attached()
      ensures fresh(dt)
      ensures dt.View() == TableOf(reader.header, reader.data)
      ensures WellFormed(dt.View())
    {
      dt := new DataTable();
      PopulateColumns(dt);
      PopulateData(dt);
      TableOfRead(reader.csvData, reader.containsHeader);
    }

    /** Adds every non-empty data row, provided the table has columns and the reader has data. */
    method PopulateData(dt: DataTable)
      requires Attached()
      requires dt.columns == ColumnNames(reader.header, reader.data) && dt.rows == []
      modifies dt
      ensures dt.columns == old(dt.columns)
      ensures dt.rows == LoadedRows(dt.columns, reader.data)
    {
      if |dt.columns| == 0 || !containsData {
        return;
      }
      var data := reader.data.value;
      TableOfRead(reader.csvData, reader.containsHeader);
      for i := 0 to |data|
        invariant dt.columns == old(dt.columns)
        invariant dt.rows == NonEmptyRows(data[..i])
      {
        var lineData := data[i];
        assert data[..i + 1][..i] == data[..i];
        if |lineData| == 0 {
          continue;
        }
        assert |lineData| == |dt.columns|;
        dt.LoadDataRow(lineData);
      }
      assert data[..|data|] == data;
    }

    /** Adds the header's names, or one synthetic name per cell of the first data row. */
    method PopulateColumns(dt: DataTable)
      requires Attached()
      modifies dt
      ensures dt.columns == old(dt.columns) + ColumnNames(reader.header, reader.data)
      ensures dt.rows == old(dt.rows)
    {
      if containsHeader {
        PopulateColumnsFromList(dt, reader.header.value);
      } else {
        if !containsData {
          return;
        }
        var dummyColumns := SyntheticNames(|reader.data.value[0]|);
        PopulateColumnsFromList(dt, dummyColumns);
      }
    }

    /** Adds the given column names in order. */
    method PopulateColumnsFromList(dt: DataTable, columns: seq<string>)
      modifies dt
      ensures dt.columns == old(dt.columns) + columns
      ensures dt.rows == old(dt.rows)
    {
      for i := 0 to |columns|
        invariant dt.columns == old(dt.columns) + columns[..i]
        invariant dt.rows == old(dt.rows)
      {
        dt.AddColumn(columns[i]);
        assert columns[..i + 1] == columns[..i] + [columns[i]];
      }
      assert columns[..|columns|] == columns;
    }
  }

  /** `CsvReader.AsDataTable()`: a loader over the reader, then its table. */
  method AsDataTable(reader: CsvReader) returns (r: Result<DataTable, Mismatch>)
    requires reader.Valid()
    modifies reader
    ensures reader.Valid() && reader.header == HeaderOf(reader.csvData, reader.containsHeader)
    ensures old(reader.isPopulated) ==> r.Success? && unchanged(reader)
    ensures !old(reader.isPopulated) ==>
      r.ErrorOption() == Parse(reader.csvData, reader.containsHeader).ErrorOption()
    ensures r.Failure? ==> reader.data == old(reader.data) && !reader.isPopulated
    ensures r.Success? ==>
      (fresh(r.value) && reader.isPopulated &&
       r.value.View() == TableOf(reader.header, reader.data) && WellFormed(r.value.View()))
  {
    var loader := DataTableLoader.Attach(reader);
    match loader
    case Failure(m) => r := Failure(m);
    case Success(l) =>
      var dt := l.Load();
      r := Success(dt);
  }
}
