/**
 * The CSV reader: every line is split on ',' (no quoting, no trimming); with
 * the header flag set, line 0 becomes the header and the other lines the
 * data rows; every line must have as many cells as line 0, and the first one
 * that does not raises a column-count mismatch.
 */
module CsvReading {
  import opened Wrappers
  import opened Text

  /** ColumnsMismatchException: the first line whose cell count differs from line 0's. */
  datatype Mismatch = Mismatch(expectedCount: nat, foundCount: nat, lineNumber: nat, line: string)

  /** The phrase by which callers recognise a mismatch message. */
  const MismatchPhrase: string := "column count mismatch"

  /** The exception's message text. */
  function Message(m: Mismatch): (r: string)
  {
    "Csv " + MismatchPhrase + ". Expecting " + NatToString(m.expectedCount)
    + " columns but found a row with " + NatToString(m.foundCount)
    + " columns at line number " + NatToString(m.lineNumber) + " - " + m.line
  }

  /** The message names the failure as a column count mismatch. */
  lemma MessageMentionsMismatch(m: Mismatch)
    ensures IsInfix(MismatchPhrase, Message(m))
  {
    var msg := Message(m);
    var tail := msg[4 + |MismatchPhrase|..];
    assert msg == "Csv " + MismatchPhrase + tail;
    assert msg[4..4 + |MismatchPhrase|] == MismatchPhrase;
    assert OccursAt(MismatchPhrase, msg, 4);
  }

  /** `line.Split(',')`. */
  function Cells(line: string): (r: seq<string>)
  {
    Split(line, ',')
  }

  /** The number of cells of a line. */
  function Width(line: string): (r: nat)
  {
    |Cells(line)|
  }

  /**
   * A line has one cell more than it has commas, no cell holds a comma, and
   * joining the cells with ',' gives back the line.
   */
  lemma CellsOfLine(line: string)
    ensures Width(line) == multiset(line)[','] + 1
    ensures SeparatorFree(Cells(line), ',')
    ensures Join(Cells(line), ',') == line
  {
    SplitCount(line, ',');
    SplitSeparatorFree(line, ',');
    JoinSplit(line, ',');
  }

  /** Every line has line 0's cell count. */
  predicate Uniform(lines: seq<string>)
  {
    forall i :: 0 <= i < |lines| ==> Width(lines[i]) == Width(lines[0])
  }

  /** The first index at or after k whose cell count differs from line 0's. */
  function FirstMismatchFrom(lines: seq<string>, k: nat): (r: Option<nat>)
    requires 0 < k <= |lines|
    ensures r.Some? ==> k <= r.value < |lines|
    decreases |lines| - k
  {
    if k == |lines| then None
    else if Width(lines[k]) != Width(lines[0]) then Some(k)
    else FirstMismatchFrom(lines, k + 1)
  }

  /** The first line whose cell count differs from line 0's, if any. */
  function FirstMismatch(lines: seq<string>): (r: Option<nat>)
    ensures r.Some? ==> 0 < r.value < |lines|
  {
    if |lines| == 0 then None else FirstMismatchFrom(lines, 1)
  }

  /** How many leading lines are consumed as the header. */
  function HeaderLines(lines: seq<string>, hasHeader: bool): (r: nat)
  {
    if hasHeader && |lines| > 0 then 1 else 0
  }

  /** The header a read assigns: line 0's cells, when there is a header line. */
  function HeaderOf(lines: seq<string>, hasHeader: bool): (r: Option<seq<string>>)
  {
    if hasHeader && |lines| > 0 then Some(Cells(lines[0])) else None
  }

  /** The data rows: the cells of every line after the header line. */
  function DataOf(lines: seq<string>, hasHeader: bool): (r: seq<seq<string>>)
  {
    var skip := HeaderLines(lines, hasHeader);
    seq(|lines| - skip, i requires 0 <= i < |lines| - skip => Cells(lines[i + skip]))
  }

  /** What a read produces: the header (if any) and the data rows. */
  datatype Parsed = Parsed(header: Option<seq<string>>, data: seq<seq<string>>)

  /** The reader's whole computation on a sequence of lines. */
  function Parse(lines: seq<string>, hasHeader: bool): (r: Result<Parsed, Mismatch>)
  {
    match FirstMismatch(lines)
    case Some(i) => Failure(Mismatch(Width(lines[0]), Width(lines[i]), i + 1, lines[i]))
    case None => Success(Parsed(HeaderOf(lines, hasHeader), DataOf(lines, hasHeader)))
  }

  lemma {:induction false} FirstMismatchFromSpec(lines: seq<string>, k: nat)
    requires 0 < k <= |lines|
    ensures FirstMismatchFrom(lines, k).None? <==>
      forall j :: k <= j < |lines| ==> Width(lines[j]) == Width(lines[0])
    ensures FirstMismatchFrom(lines, k).Some? ==>
      var i := FirstMismatchFrom(lines, k).value;
      Width(lines[i]) != Width(lines[0]) &&
      forall j :: k <= j < i ==> Width(lines[j]) == Width(lines[0])
    decreases |lines| - k
  {
    if k < |lines| && Width(lines[k]) == Width(lines[0]) {
      FirstMismatchFromSpec(lines, k + 1);
    }
  }

  /** A line that differs while all earlier ones agree is the first mismatch. */
  lemma FirstMismatchAt(lines: seq<string>, i: nat)
    requires 0 < i < |lines| && Width(lines[i]) != Width(lines[0])
    requires forall j :: 0 <= j < i ==> Width(lines[j]) == Width(lines[0])
    ensures FirstMismatch(lines) == Some(i)
  {
    FirstMismatchFromSpec(lines, 1);
  }

  /** Uniform lines have no mismatch. */
  lemma UniformHasNoMismatch(lines: seq<string>)
    requires Uniform(lines)
    ensures FirstMismatch(lines) == None
  {
    if |lines| > 0 {
      FirstMismatchFromSpec(lines, 1);
    }
  }

  /**
   * A read fails exactly when some line's cell count differs from line 0's,
   * and then it reports the first such line: line 0's count as expected, that
   * line's count as found, its 1-based number and its text.
   */
  lemma ParseFailsOnFirstMismatch(lines: seq<string>, hasHeader: bool)
    ensures Parse(lines, hasHeader).Failure? <==> !Uniform(lines)
    ensures Parse(lines, hasHeader).Failure? ==>
      var m := Parse(lines, hasHeader).error;
      var i := m.lineNumber - 1;
      1 <= i < |lines| &&
      m.expectedCount == Width(lines[0]) && m.foundCount == Width(lines[i]) &&
      m.foundCount != m.expectedCount && m.line == lines[i] &&
      forall j :: 0 <= j < i ==> Width(lines[j]) == Width(lines[0])
  {
    if |lines| > 0 {
      FirstMismatchFromSpec(lines, 1);
    }
  }

  /** A read examines no line after the first mismatch: later lines cannot change the error. */
  lemma ParseStopsAtFirstMismatch(lines: seq<string>, hasHeader: bool, rest: seq<string>)
    requires Parse(lines, hasHeader).Failure?
    ensures var m := Parse(lines, hasHeader).error;
      m.lineNumber <= |lines| &&
      Parse(lines[..m.lineNumber] + rest, hasHeader) == Failure(m)
  {
    ParseFailsOnFirstMismatch(lines, hasHeader);
    var m := Parse(lines, hasHeader).error;
    var i := m.lineNumber - 1;
    var other := lines[..m.lineNumber] + rest;
    assert other[0] == lines[0] && other[i] == lines[i];
    forall j | 0 <= j < i
      ensures Width(other[j]) == Width(other[0])
    {
      assert other[j] == lines[j];
    }
    FirstMismatchAt(other, i);
  }

  /**
   * A successful read: with a header line, the header is line 0's cells and
   * the data rows are the cells of lines 1.., so there is one row fewer than
   * lines; without the header flag there is no header and every line is a
   * row; header and rows all have line 0's cell count.
   */
  lemma ParseSucceeds(lines: seq<string>, hasHeader: bool)
    requires Uniform(lines)
    ensures Parse(lines, hasHeader).Success?
    ensures var p := Parse(lines, hasHeader).value;
      (hasHeader && |lines| > 0 ==>
        p.header == Some(Cells(lines[0])) && |p.data| == |lines| - 1 &&
        forall i :: 0 <= i < |p.data| ==> p.data[i] == Cells(lines[i + 1])) &&
      (!hasHeader ==>
        p.header == None && |p.data| == |lines| &&
        forall i :: 0 <= i < |p.data| ==> p.data[i] == Cells(lines[i])) &&
      (|lines| == 0 ==> p.header == None && p.data == []) &&
      (p.header.Some? ==> |p.header.value| == Width(lines[0])) &&
      (forall i :: 0 <= i < |p.data| ==> |p.data[i]| == Width(lines[0]) > 0)
  {
    UniformHasNoMismatch(lines);
    var p := Parse(lines, hasHeader).value;
    var skip := HeaderLines(lines, hasHeader);
    forall i | 0 <= i < |p.data|
      ensures |p.data[i]| == Width(lines[0]) > 0
    {
      assert p.data[i] == Cells(lines[i + skip]);
    }
  }

  /**
   * The reader. Header, Data and IsPopulated are assigned only by Read; the
   * lines are the in-memory lines given at construction.
   */
  class CsvReader {
    const csvData: seq<string>
    const containsHeader: bool
    var header: Option<seq<string>>
    var data: Option<seq<seq<string>>>
    var isPopulated: bool

    /**
     * A header, once assigned, is line 0's cells from a header-bearing input;
     * a populated reader holds exactly what a successful read of its lines gives.
     */
    ghost predicate Valid()
      reads this
    {
      (header.Some? ==> header == HeaderOf(csvData, containsHeader))
      && (isPopulated ==> data.Some? && Parse(csvData, containsHeader) == Success(Parsed(header, data.value)))
    }

    constructor (csvData: seq<string>, containsHeader: bool)
      ensures Valid()
      ensures this.csvData == csvData && this.containsHeader == containsHeader
      ensures header == None && data == None && !isPopulated
    {
      this.csvData := csvData;
      this.containsHeader := containsHeader;
      header, data, isPopulated := None, None, false;
    }

    /**
     * Reads the lines. On success Data and IsPopulated are assigned; on a
     * mismatch they keep their previous values, while Header has already
     * been assigned from line 0.
     */
    method Read() returns (err: Option<Mismatch>)
      requires Valid()
      modifies this
      ensures Valid()
      ensures err == Parse(csvData, containsHeader).ErrorOption()
      ensures header == HeaderOf(csvData, containsHeader)
      ensures err.None? ==> isPopulated && data == Some(Parse(csvData, containsHeader).value.data)
      ensures err.Some? ==> data == old(data) && isPopulated == old(isPopulated)
    {
      var results;
      results, err := ProcessLines(csvData);
      if err.Some? {
        return;
      }
      data := Some(results);
      isPopulated := true;
    }

    /** Reads the lines one by one, stopping at the first cell-count mismatch. */
    method ProcessLines(fileLines: seq<string>) returns (results: seq<seq<string>>, err: Option<Mismatch>)
      modifies this`header
      ensures err == Parse(fileLines, containsHeader).ErrorOption()
      ensures err.None? ==> results == Parse(fileLines, containsHeader).value.data
      ensures header == if HeaderOf(fileLines, containsHeader).Some? then HeaderOf(fileLines, containsHeader) else old(header)
    {
      var expectedColumnCount: int := -1;
      var skip := HeaderLines(fileLines, containsHeader);
      results := [];
      for i := 0 to |fileLines|
        invariant expectedColumnCount == if i == 0 then -1 else Width(fileLines[0])
        invariant forall k :: 0 <= k < i ==> Width(fileLines[k]) == Width(fileLines[0])
        invariant |results| == if i == 0 then 0 else i - skip
        invariant forall k :: 0 <= k < |results| ==> results[k] == Cells(fileLines[k + skip])
        invariant header == if i > 0 && containsHeader then Some(Cells(fileLines[0])) else old(header)
      {
        var line := fileLines[i];
        var columnCount;
        results, columnCount := ReadLine(line, i, results);
        if expectedColumnCount == -1 {
          expectedColumnCount := columnCount;
        } else if columnCount != expectedColumnCount {
          FirstMismatchAt(fileLines, i);
          err := Some(Mismatch(expectedColumnCount, columnCount, i + 1, line));
          return;
        }
      }
      UniformHasNoMismatch(fileLines);
      err := None;
    }

    /** Splits one line; line 0 of a header-bearing input becomes the header, any other line a row. */
    method ReadLine(line: string, lineNumber: nat, results: seq<seq<string>>)
      returns (newResults: seq<seq<string>>, columnCount: nat)
      modifies this`header
      ensures columnCount == Width(line)
      ensures lineNumber == 0 && containsHeader ==> header == Some(Cells(line)) && newResults == results
      ensures !(lineNumber == 0 && containsHeader) ==> header == old(header) && newResults == results + [Cells(line)]
    {
      var lineColumnValues := Cells(line);
      if lineNumber == 0 && containsHeader {
        header := Some(lineColumnValues);
        newResults := results;
      } else {
        newResults := results + [lineColumnValues];
      }
      columnCount := |lineColumnValues|;
    }
  }

  /** Reading twice over the same lines gives the same outcome and leaves the same Header and Data. */
  method ReadTwice(reader: CsvReader)
    returns (first: Option<Mismatch>, second: Option<Mismatch>,
             firstHeader: Option<seq<string>>, firstData: Option<seq<seq<string>>>)
    requires reader.Valid()
    modifies reader
    ensures first == second
    ensures reader.header == firstHeader && reader.data == firstData
    ensures second.None? ==> reader.isPopulated
  {
    first := reader.Read();
    firstHeader, firstData := reader.header, reader.data;
    second := reader.Read();
  }
}
