/**
 * The repository's own test data (Importer.Test/TestCsvImport.cs) run
 * through the model: the nine test lines give exactly the two expected
 * report files and the ReportOutput the test compares against, and the
 * mismatch lines fail at line 6 with a column count mismatch.
 */
module Scenarios {
  import opened Wrappers
  import opened Text
  import opened CsvReading
  import opened DataTables
  import opened CustomImporters

  /** The test's input lines: a header and eight people, each line written as its fields joined by ",". */
  const TestData: seq<string> := [
    "FirstName" + "," + "LastName" + "," + "Address" + "," + "PhoneNumber",
    "Jimmy" + "," + "Smith" + "," + "102 Long Lane" + "," + "29384857",
    "Clive" + "," + "Owen" + "," + "65 Ambling Way" + "," + "31214788",
    "James" + "," + "Brown" + "," + "82 Stewart St" + "," + "32114566",
    "Graham" + "," + "Howe" + "," + "12 Howard St" + "," + "8766556",
    "John" + "," + "Howe" + "," + "78 Short Lane" + "," + "29384857",
    "Clive" + "," + "Smith" + "," + "49 Sutherland St" + "," + "31214788",
    "James" + "," + "Owen" + "," + "8 Crimson Rd" + "," + "32114566",
    "Graham" + "," + "Brown" + "," + "94 Roland St" + "," + "8766556"
  ]

  /** The first expected report file: both frequency reports with the " " line between. */
  const ExpectedFile1: seq<string> := [
    "Clive, 2", "Graham, 2", "James, 2", "Jimmy, 1", "John, 1",
    " ",
    "Brown, 2", "Howe, 2", "Owen, 2", "Smith, 2"
  ]

  /** The second expected report file: the addresses sorted from the street name on. */
  const ExpectedFile2: seq<string> := [
    "65 Ambling Way", "8 Crimson Rd", "12 Howard St", "102 Long Lane",
    "94 Roland St", "78 Short Lane", "82 Stewart St", "49 Sutherland St"
  ]

  /** The test's input with one line of five cells, written the same way. */
  const MismatchData: seq<string> := [
    "FirstName" + "," + "LastName" + "," + "Address" + "," + "PhoneNumber",
    "Jimmy" + "," + "Smith" + "," + "102 Long Lane" + "," + "29384857",
    "Clive" + "," + "Owen" + "," + "65 Ambling Way" + "," + "31214788",
    "James" + "," + "Brown" + "," + "82 Stewart St" + "," + "32114566",
    "Graham" + "," + "Howe" + "," + "12 Howard St" + "," + "8766556",
    "John" + "," + "Howe" + "," + "78 Short Lane" + "," + "29384857" + "," + "blahblahblahblahblahblah",
    "Clive" + "," + "Smith" + "," + "49 Sutherland St" + "," + "31214788",
    "James" + "," + "Owen" + "," + "8 Crimson Rd" + "," + "32114566",
    "Graham" + "," + "Brown" + "," + "94 Roland St" + "," + "8766556"
  ]

  /** The cells of each test line. */
  const TestCells: seq<seq<string>> := [
    ["FirstName", "LastName", "Address", "PhoneNumber"],
    ["Jimmy", "Smith", "102 Long Lane", "29384857"],
    ["Clive", "Owen", "65 Ambling Way", "31214788"],
    ["James", "Brown", "82 Stewart St", "32114566"],
    ["Graham", "Howe", "12 Howard St", "8766556"],
    ["John", "Howe", "78 Short Lane", "29384857"],
    ["Clive", "Smith", "49 Sutherland St", "31214788"],
    ["James", "Owen", "8 Crimson Rd", "32114566"],
    ["Graham", "Brown", "94 Roland St", "8766556"]
  ]

  /** The FirstName, LastName and Address columns of the test data, in line order. */
  const FirstNames: seq<string> := ["Jimmy", "Clive", "James", "Graham", "John", "Clive", "James", "Graham"]
  const LastNames: seq<string> := ["Smith", "Owen", "Brown", "Howe", "Howe", "Smith", "Owen", "Brown"]
  const Addresses: seq<string> := [
    "102 Long Lane", "65 Ambling Way", "82 Stewart St", "12 Howard St",
    "78 Short Lane", "49 Sutherland St", "8 Crimson Rd", "94 Roland St"
  ]

  /** The words of each address of the second expected file: number, street name, street kind. */
  const AddressWords: seq<seq<string>> := [
    ["65", "Ambling", "Way"], ["8", "Crimson", "Rd"], ["12", "Howard", "St"], ["102", "Long", "Lane"],
    ["94", "Roland", "St"], ["78", "Short", "Lane"], ["82", "Stewart", "St"], ["49", "Sutherland", "St"]
  ]

  const FirstNameEntries: seq<Entry> :=
    [Entry("Clive", 2), Entry("Graham", 2), Entry("James", 2), Entry("Jimmy", 1), Entry("John", 1)]

  const LastNameEntries: seq<Entry> :=
    [Entry("Brown", 2), Entry("Howe", 2), Entry("Owen", 2), Entry("Smith", 2)]

  // ---------------------------------------------------------------------
  // Reading and loading the test lines
  // ---------------------------------------------------------------------

  /** A line made of four comma-free fields splits into exactly those fields. */
  lemma FourCells(line: string, a: string, b: string, c: string, d: string)
    requires ',' !in a && ',' !in b && ',' !in c && ',' !in d
    requires line == a + "," + b + "," + c + "," + d
    ensures Cells(line) == [a, b, c, d]
  {
    assert line == a + [','] + (b + [','] + (c + [','] + d));
    SplitAfterPart(a, ',', b + [','] + (c + [','] + d));
    SplitAfterPart(b, ',', c + [','] + d);
    SplitAfterPart(c, ',', d);
    SplitWithoutSeparator(d, ',');
  }

  /** A line made of five comma-free fields splits into exactly those fields. */
  lemma FiveCells(line: string, a: string, b: string, c: string, d: string, e: string)
    requires ',' !in a && ',' !in b && ',' !in c && ',' !in d && ',' !in e
    requires line == a + "," + b + "," + c + "," + d + "," + e
    ensures Cells(line) == [a, b, c, d, e]
  {
    var rest := b + "," + c + "," + d + "," + e;
    assert line == a + [','] + rest;
    SplitAfterPart(a, ',', rest);
    FourCells(rest, b, c, d, e);
  }

  /** The line is the four comma-free cells c joined by commas. */
  predicate RowOf(line: string, c: seq<string>)
  {
    |c| == 4 && SeparatorFree(c, ',') && line == c[0] + "," + c[1] + "," + c[2] + "," + c[3]
  }

  /** A row's line splits into the row's cells. */
  lemma RowCells(line: string, c: seq<string>)
    requires RowOf(line, c)
    ensures Cells(line) == c
  {
    FourCells(line, c[0], c[1], c[2], c[3]);
  }

  /**
   * No cell of the test lines holds a comma. The nine lines are checked three
   * at a time, because a single lemma over all of them is costly for the solver.
   */
  lemma TestCellsCommaFree012()
    ensures SeparatorFree(TestCells[0], ',') && SeparatorFree(TestCells[1], ',') && SeparatorFree(TestCells[2], ',')
  {
  }

  lemma TestCellsCommaFree345()
    ensures SeparatorFree(TestCells[3], ',') && SeparatorFree(TestCells[4], ',') && SeparatorFree(TestCells[5], ',')
  {
  }

  lemma TestCellsCommaFree678()
    ensures SeparatorFree(TestCells[6], ',') && SeparatorFree(TestCells[7], ',') && SeparatorFree(TestCells[8], ',')
  {
  }

  /** Each test line is its cells joined by commas. */
  lemma TestRows(lines: seq<string>)
    requires lines == TestData
    ensures |lines| == |TestCells| && forall i :: 0 <= i < |lines| ==> RowOf(lines[i], TestCells[i])
  {
    TestCellsCommaFree012();
    TestCellsCommaFree345();
    TestCellsCommaFree678();
  }

  /**
   * Lines that are rows of four cells each read as a header and data rows,
   * and load into the table with the header's columns and those rows.
   */
  lemma ReadRows(lines: seq<string>, cells: seq<seq<string>>)
    requires |lines| == |cells| > 0
    requires forall i :: 0 <= i < |lines| ==> RowOf(lines[i], cells[i])
    ensures Parse(lines, true) == Success(Parsed(Some(cells[0]), cells[1..]))
    ensures TableOf(Some(cells[0]), Some(cells[1..])) == Table(cells[0], cells[1..])
  {
    forall i | 0 <= i < |lines|
      ensures Cells(lines[i]) == cells[i]
    {
      RowCells(lines[i], cells[i]);
    }
    assert Uniform(lines);
    ParseSucceeds(lines, true);
    var p := Parse(lines, true).value;
    assert p.data == cells[1..];
    TableOfRead(lines, true);
  }

  /** Reading the test lines gives the header and the eight rows of cells. */
  lemma TestDataParsed(lines: seq<string>)
    requires lines == TestData
    ensures Parse(lines, true) == Success(Parsed(Some(TestCells[0]), TestCells[1..]))
    ensures TableOf(Some(TestCells[0]), Some(TestCells[1..])) == Table(TestCells[0], TestCells[1..])
  {
    TestRows(lines);
    ReadRows(lines, TestCells);
  }

  /** The column at index k, first of its name, holds col. */
  lemma ColumnAt(t: Table, name: string, k: nat, col: seq<string>)
    requires WellFormed(t) && k < |t.columns| && t.columns[k] == name && name !in t.columns[..k]
    requires |col| == |t.rows| && forall i :: 0 <= i < |t.rows| ==> col[i] == t.rows[i][k]
    ensures ColumnValues(t, name) == Some(col)
  {
    IndexOfFirst(t.columns, name, k);
    if |t.rows| > 0 {
      assert ColumnValues(t, name).value == col;
    }
  }

  /** The FirstName, LastName and Address columns of the test table. */
  lemma TestColumns(t: Table)
    requires t == Table(TestCells[0], TestCells[1..])
    ensures WellFormed(t)
    ensures ColumnValues(t, "FirstName") == Some(FirstNames)
    ensures ColumnValues(t, "LastName") == Some(LastNames)
    ensures ColumnValues(t, "Address") == Some(Addresses)
  {
    ColumnAt(t, "FirstName", 0, FirstNames);
    ColumnAt(t, "LastName", 1, LastNames);
    ColumnAt(t, "Address", 2, Addresses);
  }

  // ---------------------------------------------------------------------
  // The name report
  // ---------------------------------------------------------------------

  lemma FirstNameCounts(values: seq<string>)
    requires values == FirstNames
    ensures forall x :: x in values <==> x in ["Clive", "Graham", "James", "Jimmy", "John"]
    ensures multiset(values)["Clive"] == 2 && multiset(values)["Graham"] == 2
    ensures multiset(values)["James"] == 2 && multiset(values)["Jimmy"] == 1
    ensures multiset(values)["John"] == 1
  {
  }

  lemma LastNameCounts(values: seq<string>)
    requires values == LastNames
    ensures forall x :: x in values <==> x in ["Brown", "Howe", "Owen", "Smith"]
    ensures multiset(values)["Brown"] == 2 && multiset(values)["Howe"] == 2
    ensures multiset(values)["Owen"] == 2 && multiset(values)["Smith"] == 2
  {
  }

  /** Any column with the FirstName counts of the test data has these report entries. */
  lemma FirstNameEntriesExact(values: seq<string>)
    requires forall x :: x in values <==> x in ["Clive", "Graham", "James", "Jimmy", "John"]
    requires multiset(values)["Clive"] == 2 && multiset(values)["Graham"] == 2
    requires multiset(values)["James"] == 2 && multiset(values)["Jimmy"] == 1
    requires multiset(values)["John"] == 1
    ensures FrequencyEntries(values) == FirstNameEntries
  {
    assert Ordered(FirstNameEntries) by {
      assert OrdinalLess("Clive", "Graham") && OrdinalLess("Graham", "James");
      OrdinalTransitive("Clive", "Graham", "James");
      assert OrdinalLess("Jimmy", "John");
    }
    forall e
      ensures e in FirstNameEntries <==> e.key in values && e.count == multiset(values)[e.key]
    {
      if e.key in values {
        assert e.key in ["Clive", "Graham", "James", "Jimmy", "John"];
      }
    }
    FrequencyEntriesUnique(values, FirstNameEntries);
  }

  /** Any column with the LastName counts of the test data has these report entries. */
  lemma LastNameEntriesExact(values: seq<string>)
    requires forall x :: x in values <==> x in ["Brown", "Howe", "Owen", "Smith"]
    requires multiset(values)["Brown"] == 2 && multiset(values)["Howe"] == 2
    requires multiset(values)["Owen"] == 2 && multiset(values)["Smith"] == 2
    ensures FrequencyEntries(values) == LastNameEntries
  {
    assert Ordered(LastNameEntries) by {
      assert OrdinalLess("Brown", "Howe") && OrdinalLess("Howe", "Owen") && OrdinalLess("Owen", "Smith");
      OrdinalTransitive("Brown", "Howe", "Owen");
      OrdinalTransitive("Brown", "Owen", "Smith");
      OrdinalTransitive("Howe", "Owen", "Smith");
    }
    forall e
      ensures e in LastNameEntries <==> e.key in values && e.count == multiset(values)[e.key]
    {
      if e.key in values {
        assert e.key in ["Brown", "Howe", "Owen", "Smith"];
      }
    }
    FrequencyEntriesUnique(values, LastNameEntries);
  }

  lemma FirstNameRendered()
    ensures Render(FirstNameEntries) == ExpectedFile1[..5]
  {
    assert NatToString(2) == "2" && NatToString(1) == "1";
    assert RenderEntry(Entry("Clive", 2)) == "Clive, 2";
    assert RenderEntry(Entry("Graham", 2)) == "Graham, 2";
    assert RenderEntry(Entry("James", 2)) == "James, 2";
    assert RenderEntry(Entry("Jimmy", 1)) == "Jimmy, 1";
    assert RenderEntry(Entry("John", 1)) == "John, 1";
  }

  lemma LastNameRendered()
    ensures Render(LastNameEntries) == ExpectedFile1[6..]
  {
    assert NatToString(2) == "2";
    assert RenderEntry(Entry("Brown", 2)) == "Brown, 2";
    assert RenderEntry(Entry("Howe", 2)) == "Howe, 2";
    assert RenderEntry(Entry("Owen", 2)) == "Owen, 2";
    assert RenderEntry(Entry("Smith", 2)) == "Smith, 2";
  }

  /** The FirstName column of the test data gives the first half of the first report file. */
  lemma FirstNameFrequencyExample()
    ensures FrequencyReport(FirstNames) == ExpectedFile1[..5]
  {
    FirstNameCounts(FirstNames);
    FirstNameEntriesExact(FirstNames);
    FirstNameRendered();
  }

  /** The LastName column of the test data gives the second half of the first report file. */
  lemma LastNameFrequencyExample()
    ensures FrequencyReport(LastNames) == ExpectedFile1[6..]
  {
    LastNameCounts(LastNames);
    LastNameEntriesExact(LastNames);
    LastNameRendered();
  }

  /** The two halves with the " " line between are the whole first report file. */
  lemma NameReportExample()
    ensures FrequencyReport(FirstNames) + [LineDelimiter] + FrequencyReport(LastNames) == ExpectedFile1
  {
    FirstNameFrequencyExample();
    LastNameFrequencyExample();
  }

  // ---------------------------------------------------------------------
  // The address list
  // ---------------------------------------------------------------------

  /** The sort key from word 2 of "<number> <name> <kind>" is " <name> <kind>". */
  lemma AddressKey(value: string, number: string, name: string, kind: string)
    requires ' ' !in number && ' ' !in name && ' ' !in kind
    requires value == number + " " + name + " " + kind
    ensures SortKey(value, 2) == " " + name + " " + kind
  {
    ThreeWords(value, number, name, kind);
    var words := [number, name, kind];
    assert Skip(words, 1) == [name, kind];
    AggregateJoins("", [name, kind]);
    assert [name, kind][1..] == [kind];
  }

  /** Three space-free words joined by spaces split back into those words. */
  lemma ThreeWords(value: string, number: string, name: string, kind: string)
    requires ' ' !in number && ' ' !in name && ' ' !in kind
    requires value == number + " " + name + " " + kind
    ensures Split(value, ' ') == [number, name, kind]
  {
    assert value == number + [' '] + (name + [' '] + kind);
    SplitAfterPart(number, ' ', name + [' '] + kind);
    SplitAfterPart(name, ' ', kind);
    SplitWithoutSeparator(kind, ' ');
  }

  /** The address is the three space-free words w joined by spaces. */
  predicate AddressOf(value: string, w: seq<string>)
  {
    |w| == 3 && SeparatorFree(w, ' ') && value == w[0] + " " + w[1] + " " + w[2]
  }

  /** The sort key of an address with words w, from word 2 on. */
  function StreetKey(w: seq<string>): (r: string)
    requires |w| == 3
  {
    " " + w[1] + " " + w[2]
  }

  /** Addresses whose street keys ascend step by step are in ascending sort-key order. */
  lemma AddressesAscending(s: seq<string>, words: seq<seq<string>>)
    requires |s| == |words| && forall i :: 0 <= i < |s| ==> AddressOf(s[i], words[i])
    requires forall i :: 0 <= i < |words| ==> |words[i]| == 3
    requires forall i :: 0 <= i < |s| - 1 ==> OrdinalLess(StreetKey(words[i]), StreetKey(words[i + 1]))
    ensures SortKeysAscending(s, 2)
  {
    forall i | 0 <= i < |s|
      ensures SortKey(s[i], 2) == StreetKey(words[i])
    {
      var w := words[i];
      AddressKey(s[i], w[0], w[1], w[2]);
    }
    SortKeysAscendingFromAdjacent(s, 2);
  }

  /**
   * Each address of the second expected file is its three words joined by
   * spaces. There is one lemma per address, because comparing literal strings
   * is costly and each lemma keeps one comparison in view.
   */
  lemma File2Address0(value: string)
    requires value == ExpectedFile2[0]
    ensures AddressOf(value, AddressWords[0])
  {
  }

  lemma File2Address1(value: string)
    requires value == ExpectedFile2[1]
    ensures AddressOf(value, AddressWords[1])
  {
  }

  lemma File2Address2(value: string)
    requires value == ExpectedFile2[2]
    ensures AddressOf(value, AddressWords[2])
  {
  }

  lemma File2Address3(value: string)
    requires value == ExpectedFile2[3]
    ensures AddressOf(value, AddressWords[3])
  {
  }

  lemma File2Address4(value: string)
    requires value == ExpectedFile2[4]
    ensures AddressOf(value, AddressWords[4])
  {
  }

  lemma File2Address5(value: string)
    requires value == ExpectedFile2[5]
    ensures AddressOf(value, AddressWords[5])
  {
  }

  lemma File2Address6(value: string)
    requires value == ExpectedFile2[6]
    ensures AddressOf(value, AddressWords[6])
  {
  }

  lemma File2Address7(value: string)
    requires value == ExpectedFile2[7]
    ensures AddressOf(value, AddressWords[7])
  {
  }

  lemma File2Words(sorted: seq<string>)
    requires sorted == ExpectedFile2
    ensures |sorted| == |AddressWords| && forall i :: 0 <= i < |sorted| ==> AddressOf(sorted[i], AddressWords[i])
  {
    File2Address0(sorted[0]);
    File2Address1(sorted[1]);
    File2Address2(sorted[2]);
    File2Address3(sorted[3]);
    File2Address4(sorted[4]);
    File2Address5(sorted[5]);
    File2Address6(sorted[6]);
    File2Address7(sorted[7]);
  }

  /** The street keys of the second expected file ascend in ordinal order. */
  lemma StreetKeysAscend(words: seq<seq<string>>)
    requires words == AddressWords
    ensures forall i :: 0 <= i < |words| ==> |words[i]| == 3
    ensures forall i :: 0 <= i < |words| - 1 ==> OrdinalLess(StreetKey(words[i]), StreetKey(words[i + 1]))
  {
    forall i | 0 <= i < |words| - 1
      ensures OrdinalLess(StreetKey(words[i]), StreetKey(words[i + 1]))
    {
      if i == 0 { assert OrdinalLess(" Ambling Way", " Crimson Rd"); }
      else if i == 1 { assert OrdinalLess(" Crimson Rd", " Howard St"); }
      else if i == 2 { assert OrdinalLess(" Howard St", " Long Lane"); }
      else if i == 3 { assert OrdinalLess(" Long Lane", " Roland St"); }
      else if i == 4 { assert OrdinalLess(" Roland St", " Short Lane"); }
      else if i == 5 { assert OrdinalLess(" Short Lane", " Stewart St"); }
      else { assert OrdinalLess(" Stewart St", " Sutherland St"); }
    }
  }

  /** p lists each index below n exactly once. */
  predicate IsIndexPermutation(p: seq<int>, n: int)
  {
    |p| == n &&
    (forall i :: 0 <= i < n ==> 0 <= p[i] < n) &&
    (forall i, j :: 0 <= i < j < n ==> p[i] != p[j])
  }

  /** A sequence that picks the elements of a by an index permutation has a's multiset. */
  lemma {:induction false} PermutedByIndex<T>(a: seq<T>, b: seq<T>, p: seq<int>)
    requires |a| == |b| && IsIndexPermutation(p, |a|)
    requires forall i :: 0 <= i < |b| ==> b[i] == a[p[i]]
    ensures multiset(a) == multiset(b)
    decreases |b|
  {
    if |b| > 0 {
      var k := |b| - 1;
      var m := p[k];
      var a' := a[..m] + a[m + 1..];
      var b' := b[..k];
      var p' := seq(k, i requires 0 <= i < k => if p[i] < m then p[i] else p[i] - 1);
      forall i | 0 <= i < k
        ensures 0 <= p'[i] < k && b'[i] == a'[p'[i]]
      {
        assert p[i] != m;
      }
      forall i, j | 0 <= i < j < k
        ensures p'[i] != p'[j]
      {
        assert p[i] != m && p[j] != m && p[i] != p[j];
      }
      PermutedByIndex(a', b', p');
      assert a == a[..m] + [a[m]] + a[m + 1..];
      assert b == b' + [b[k]];
    }
  }

  /** The second expected file rearranges the Address column. */
  lemma File2Rearranges(values: seq<string>, sorted: seq<string>)
    requires values == Addresses && sorted == ExpectedFile2
    ensures multiset(sorted) == multiset(values)
  {
    var p := [1, 6, 3, 0, 7, 4, 2, 5];
    assert IsIndexPermutation(p, 8);
    PermutedByIndex(values, sorted, p);
  }

  /** The Address column of the test data sorted from word 2 is the second expected file. */
  lemma AddressListExample(values: seq<string>)
    requires values == Addresses
    ensures SortedOnWord(values, 2) == Success(ExpectedFile2)
  {
    var sorted := ExpectedFile2;
    File2Words(sorted);
    StreetKeysAscend(AddressWords);
    AddressesAscending(sorted, AddressWords);
    File2Rearranges(values, sorted);
    SortedOnWordOfArrangement(values, sorted, 2);
  }

  // ---------------------------------------------------------------------
  // The whole import
  // ---------------------------------------------------------------------

  /**
   * Processing the test lines gives the two expected report files, and in
   * return mode the output is file 1, a " " line, then file 2.
   */
  lemma TestDataReports(lines: seq<string>)
    requires lines == TestData
    ensures ProcessedReports(lines) == Success([ExpectedFile1, ExpectedFile2])
    ensures Join(ProcessedReports(lines).value, LineDelimiter) == ExpectedFile1 + [" "] + ExpectedFile2
  {
    TestDataParsed(lines);
    var t := Table(TestCells[0], TestCells[1..]);
    TestTableReports(t);
    ReportsOfRead(lines, Parsed(Some(TestCells[0]), TestCells[1..]), t);
    JoinPair(ExpectedFile1, ExpectedFile2, LineDelimiter);
  }

  /** The table of the test data gives the two expected report files. */
  lemma TestTableReports(t: Table)
    requires t == Table(TestCells[0], TestCells[1..])
    ensures WellFormed(t) && Reports(t) == Success([ExpectedFile1, ExpectedFile2])
  {
    TestColumns(t);
    NameReportExample();
    AddressListExample(Addresses);
    assert FrequencyOfColumn(t, "FirstName") == Success(FrequencyReport(FirstNames));
    assert FrequencyOfColumn(t, "LastName") == Success(FrequencyReport(LastNames));
    assert NameReport(t) == Success(ExpectedFile1);
    assert SortedColumn(t, "Address", 2) == Success(ExpectedFile2);
  }

  /** Lines that read as p are processed into the reports of the table loaded from p. */
  lemma ReportsOfRead(lines: seq<string>, p: Parsed, t: Table)
    requires Parse(lines, true) == Success(p) && t == TableOf(p.header, Some(p.data))
    ensures WellFormed(t) && ProcessedReports(lines) == Reports(t)
  {
    TableOfRead(lines, true);
  }

  /** Joining two lists with a separator puts the separator line between them. */
  lemma JoinPair(a: seq<string>, b: seq<string>, sep: string)
    ensures Join([a, b], sep) == a + [sep] + b
  {
    assert [a, b][1..] == [b];
  }

  // ---------------------------------------------------------------------
  // The mismatch data
  // ---------------------------------------------------------------------

  /** A row of four cells with one more comma-free cell has five cells. */
  lemma OneMoreCell(line: string, row: string, c: seq<string>, extra: string)
    requires RowOf(row, c) && ',' !in extra && line == row + "," + extra
    ensures Width(line) == 5
  {
    FiveCells(line, c[0], c[1], c[2], c[3], extra);
  }

  /** Lines whose first m are rows of four cells, line m not four cells wide, fail to read at line m + 1. */
  lemma WiderLine(lines: seq<string>, cells: seq<seq<string>>, m: nat)
    requires 0 < m < |lines| && m <= |cells|
    requires forall i :: 0 <= i < m ==> RowOf(lines[i], cells[i])
    requires Width(lines[m]) != 4
    ensures Parse(lines, true) == Failure(Mismatch(4, Width(lines[m]), m + 1, lines[m]))
  {
    forall i | 0 <= i < m
      ensures Width(lines[i]) == 4
    {
      RowCells(lines[i], cells[i]);
    }
    FirstMismatchAt(lines, m);
  }

  /** Reading the mismatch lines fails at line 6, which has five cells where line 1 has four. */
  lemma MismatchExample(lines: seq<string>)
    requires lines == MismatchData
    ensures Parse(lines, true) == Failure(Mismatch(4, 5, 6, lines[5]))
    ensures ProcessedReports(lines) == Failure(ColumnsMismatch(Mismatch(4, 5, 6, lines[5])))
  {
    TestCellsCommaFree012();
    TestCellsCommaFree345();
    OneMoreCell(lines[5], TestData[5], TestCells[5], "blahblahblahblahblahblah");
    WiderLine(lines, TestCells, 5);
  }

  // ---------------------------------------------------------------------
  // The two tests of the importer in return mode
  // ---------------------------------------------------------------------

  /** The test without files: ReportOutput is file 1, a " " line, then file 2. */
  method ImportCsvNoFiles() returns (output: Option<seq<string>>)
    ensures output == Some(ExpectedFile1 + [" "] + ExpectedFile2)
  {
    var lines := TestData;
    TestDataReports(lines);
    var importer, err := ReturnModeRun(lines);
    output := importer.reportOutput;
  }

  /** The mismatch test: the run fails with a message containing "column count mismatch". */
  method ImportCsvColumnMismatch() returns (err: Option<ImportError>)
    ensures err == Some(ColumnsMismatch(Mismatch(4, 5, 6, MismatchData[5])))
    ensures IsInfix(MismatchPhrase, Message(err.value.mismatch))
  {
    var lines := MismatchData;
    MismatchExample(lines);
    var importer;
    importer, err := ReturnModeRun(lines);
  }
}
