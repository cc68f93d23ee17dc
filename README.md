# CsvImportCustom in Dafny

This project models the core of CsvImportCustom, a small C# tool. The tool reads comma-separated lines with a header, loads them into a `DataTable`, and produces two plain-text reports:

- the FirstName/LastName frequency report: each distinct value with its count, the higher count first and equal counts by name,
- the address list sorted on the street name, that is, from the second word of the address on.

When no target folder is given, the tool returns both reports in its `ReportOutput` property, with a `" "` line between them.

The project has three layers, one per source class:

- `csv_reader.dfy` (module `CsvReading`) models `CsvReader`.
  - Each line is split on `,` with no quoting or trimming.
  - Line 0 is the header when the header flag is set.
  - Every line must have line 0's cell count. The first line that does not raises `ColumnsMismatchException`, here the `Mismatch` value.
  - The `CsvReader` class keeps the `Header`, `Data` and `IsPopulated` state that `Read` assigns. Its `Valid()` invariant ties that state to the pure function `Parse(lines, hasHeader)`.
- `data_table_loader.dfy` (module `DataTables`) models `DataTableLoader`.
  - The `DataTable` is modelled as its column names and its rows of cells. The `DataTable` class is filled in place by `Columns.Add` and `LoadDataRow`, and `TableOf` specifies its final contents.
  - The columns are the header's names, or `"1".."N"` when there is no header.
  - Empty rows are skipped.
  - A null reader is an argument-null error.
- `custom_import.dfy` (module `CustomImporters`) models `CustomImport`.
  - The frequency count. The `Dictionary` loop is modelled as a `map` plus an order of its keys. The model uses key-insertion order, but .NET leaves a `Dictionary`'s enumeration order unspecified. `OrderedUnique` and `FrequencyEntriesUnique` show that the report does not depend on that order.
  - The ordering and rendering (`OrderByDescending`/`ThenBy`/`Select`).
  - The word-suffix sort key (`Split`/`Skip`/`Aggregate`).
  - The `SortedDictionary` loop, modelled as a sequence of key/value pairs with strictly ascending keys.
  - The report assembly, and the `CustomImport` class with its `ReportOutput` field.

Two more files hold the shared parts:

- `text.dfy` (module `Text`) holds the string primitives:
  - `String.Split(char)` and joining with a separator, generic over sequences;
  - decimal rendering of counts and its inverse;
  - ordinal string order;
  - `string.IsNullOrWhiteSpace`.
- `wrappers.dfy` holds `Option` and `Result`. Null references and thrown exceptions are modelled as `None` and `Failure` values.

`scenarios.dfy` (module `Scenarios`) applies the general lemmas to the data of the repository's own unit test. The test lines are written as their cells joined by `,`, which are the same strings as the test's literals. From those lines the scenarios derive:

- the read (`Parse`), the loaded table (`TableOf`) and its FirstName, LastName and Address columns (`ColumnValues`);
- both expected report files, and the `ReportOutput` of the test without files;
- the failure of the mismatch data at line 6, and its message.

## Model

| member | source | states |
|---|---|---|
| Text.Split | CsvUtilities/CsvReader.cs:106 | Splitting on one separator always yields at least one part (an empty line is one empty cell). |
| Text.SplitCount | CsvUtilities/CsvReader.cs:106 | The number of parts is the number of separators plus one. |
| Text.SplitSeparatorFree | CsvUtilities/CsvReader.cs:106 | No part contains the separator. |
| Text.JoinSplit | CsvUtilities/CsvReader.cs:106 | Joining the parts with the separator gives back the original line. |
| Text.SplitWithoutSeparator | Importer/CustomImporters/CustomImport.cs:158 | A text without the separator splits into itself alone. |
| Text.SplitAfterPart | Importer/CustomImporters/CustomImport.cs:158 | A separator-free prefix followed by the separator becomes the first part, and the rest splits independently. |
| Text.SplitJoin | CsvUtilities/CsvReader.cs:106 | Splitting a join of separator-free parts recovers exactly those parts. |
| Text.Join | Importer/CustomImporters/CustomImport.cs:83-89 | The parts in order with one separator between neighbours and none after the last. JoinAppend, JoinLength and JoinLayout state what it contains and where; JoinSplit and SplitJoin make it the inverse of Split. |
| Text.JoinAppend | Importer/CustomImporters/CustomImport.cs:83-89 | Appending one more report adds exactly one separator line and then that report's lines. |
| Text.JoinLength | Importer/CustomImporters/CustomImport.cs:83-89 | The joined output of n ≥ 1 reports has the sum of their lengths plus n-1 lines. |
| Text.TotalLengthPrefix | Importer/CustomImporters/CustomImport.cs:83-89 | The total length of the first k reports is the first report's length plus the total of the next k-1. |
| Text.JoinLayout | Importer/CustomImporters/CustomImport.cs:83-89 | Report k appears intact at its start position in the output; a separator line follows every report but the last; the last one ends the output. |
| Text.NatToString | Importer/CustomImporters/CustomImport.cs:139 | `int.ToString()` for a count or a column counter; NatToStringRoundTrip and NatToStringInjective state that it is canonical decimal, reads back as the number, and differs for different numbers. |
| Text.NatToStringRoundTrip | Importer/CustomImporters/CustomImport.cs:139 | A rendered count is a non-empty digit string with no leading zero, and it reads back as the count. |
| Text.NatToStringInjective | CsvUtilities/DataTableLoader.cs:75-78 | Different numbers render differently. |
| Text.OrdinalLess | Importer/CustomImporters/CustomImport.cs:138 | The string order of `ThenBy(x => x.Key)` and of the `SortedDictionary` keys, as ordinal order; OrdinalIrreflexive, OrdinalTransitive, OrdinalTotal and OrdinalAsymmetric state that it is a strict total order. |
| Text.OrdinalIrreflexive | Importer/CustomImporters/CustomImport.cs:138 | No key is ordered before itself. |
| Text.OrdinalTransitive | Importer/CustomImporters/CustomImport.cs:138 | The key order is transitive. |
| Text.OrdinalTotal | Importer/CustomImporters/CustomImport.cs:138 | Any two different keys are ordered one way or the other. |
| Text.OrdinalAsymmetric | Importer/CustomImporters/CustomImport.cs:154 | Two keys are never ordered both ways. |
| Text.IsWhiteSpace | Importer/CustomImporters/CustomImport.cs:64 | `Char.IsWhiteSpace`, the character test inside `string.IsNullOrWhiteSpace`; IsNullOrWhiteSpaceCases states that no visible ASCII character is white space. |
| Text.IsNullOrWhiteSpace | Importer/CustomImporters/CustomImport.cs:64 | Holds for null, for the empty text and for text made only of white-space characters; IsNullOrWhiteSpaceCases states it. |
| Text.IsNullOrWhiteSpaceCases | Importer/CustomImporters/CustomImport.cs:64 | Null and the empty text select return mode; a folder name holding any visible ASCII character selects write mode. |
| CsvReading.Width | CsvUtilities/CsvReader.cs:111 | The cell count ReadLine returns; CellsOfLine states it is one more than the line's commas, and ParseFailsOnFirstMismatch compares it with line 0's width. |
| CsvReading.Message | CsvUtilities/Exceptions/ColumnsMismatchException.cs:17-19 | The exception's text, built from the expected count, the found count, the line number and the line; MessageMentionsMismatch states that it names a column count mismatch. |
| Text.IsInfix | Importer.Test/TestCsvImport.cs:83 | `StringAssert.Contains`, the test's check on the message; MessageMentionsMismatch states that every mismatch message contains "column count mismatch". |
| CsvReading.MessageMentionsMismatch | CsvUtilities/Exceptions/ColumnsMismatchException.cs:17-19 | Every mismatch message contains "column count mismatch". |
| CsvReading.Cells | CsvUtilities/CsvReader.cs:106 | The cells of a line split on ","; CellsOfLine states their count, that none holds a comma, and that joining them gives the line back. |
| CsvReading.CellsOfLine | CsvUtilities/CsvReader.cs:106 | A line has one cell more than it has commas; no cell holds a comma; the cells joined with "," are the line. |
| CsvReading.FirstMismatchFrom | CsvUtilities/CsvReader.cs:83-93 | A reported mismatch index lies in the scanned range. |
| CsvReading.FirstMismatch | CsvUtilities/CsvReader.cs:83-93 | A mismatch is never line 0, and it is always a real line. |
| CsvReading.FirstMismatchFromSpec | CsvUtilities/CsvReader.cs:83-93 | There is no mismatch from k on iff every line from k on has line 0's count. A found index differs from line 0, and every line before it agrees. |
| CsvReading.FirstMismatchAt | CsvUtilities/CsvReader.cs:87-92 | A differing line preceded only by agreeing lines is the one reported. |
| CsvReading.UniformHasNoMismatch | CsvUtilities/CsvReader.cs:83-94 | Lines that all have line 0's count give no mismatch. |
| CsvReading.HeaderOf | CsvUtilities/CsvReader.cs:107-108 | The Header a read assigns: line 0's cells when the header flag is set and there is a line 0, else null. ParseSucceeds states that a successful read's header has this content, and Read, ImportData, ProcessOutput and the loader's methods ensure the reader's Header equals it. |
| CsvReading.DataOf | CsvUtilities/CsvReader.cs:109-110 | The rows a read collects: the cells of every line after the header line, in order; ParseSucceeds states that a successful read's rows have this number and content for both flag values. |
| CsvReading.Parse | CsvUtilities/CsvReader.cs:80-112 | The outcome of the read loop over all lines; ParseFailsOnFirstMismatch, ParseStopsAtFirstMismatch and ParseSucceeds state when it fails, with which error, and what header and rows it gives otherwise. |
| CsvReading.ParseFailsOnFirstMismatch | CsvUtilities/CsvReader.cs:82-94 | A read fails iff some line's cell count differs from line 0's. The error carries line 0's count, the first differing line's count, its 1-based number and its text. |
| CsvReading.ParseStopsAtFirstMismatch | CsvUtilities/CsvReader.cs:91-92 | Lines after the first mismatch are never examined: replacing them leaves the same error. |
| CsvReading.ParseSucceeds | CsvUtilities/CsvReader.cs:104-111 | With the header flag and at least one line: the header is line 0's cells and the rows are lines 1.. in order, one fewer than the lines. Without the flag: no header and every line is a row. Empty input gives no rows. Every row has line 0's cell count. |
| CsvReading.CsvReader.constructor | CsvUtilities/CsvReader.cs:54-58 | A new reader has the given lines and flag, with no header, no data and not populated. |
| CsvReading.CsvReader.Read | CsvUtilities/CsvReader.cs:64-72 | The error is exactly the parse error. When the header flag is set and there is a line 0, Header is assigned line 0's cells, whether or not the read succeeds; otherwise it is null. On success Data is the parsed rows and the reader is populated. On failure Data and IsPopulated keep their previous values. |
| CsvReading.CsvReader.ProcessLines | CsvUtilities/CsvReader.cs:80-95 | The loop reports the parse error or returns the parsed rows. Header changes only when the input has a header line. |
| CsvReading.CsvReader.ReadLine | CsvUtilities/CsvReader.cs:104-112 | Returns the line's cell count. Line 0 of a header-bearing input becomes the header; any other line is appended to the rows and leaves the header alone. |
| CsvReading.ReadTwice | CsvUtilities/CsvReader.cs:64-72 | A second read over the same lines has the same outcome and leaves the same Header and Data as the first. |
| DataTables.DataTable.constructor | CsvUtilities/DataTableLoader.cs:48 | A new table has no columns and no rows. |
| DataTables.DataTable.AddColumn | CsvUtilities/DataTableLoader.cs:87 | Appends one column name and leaves the rows alone. |
| DataTables.DataTable.LoadDataRow | CsvUtilities/DataTableLoader.cs:60-62 | Appends one row with one cell per column and leaves the columns alone. |
| DataTables.HasCells | CsvUtilities/DataTableLoader.cs:42 | `Header != null && Header.Any()`; InitReader ensures the header flag equals it on success. |
| DataTables.HasRows | CsvUtilities/DataTableLoader.cs:43 | `Data != null && Data.Any()`; InitReader ensures the data flag equals it on success. |
| DataTables.SyntheticNames | CsvUtilities/DataTableLoader.cs:75-78 | The names the counter produces for a table without a header; SyntheticNamesDistinct states they are "1".."N" and pairwise distinct. |
| DataTables.SyntheticNamesDistinct | CsvUtilities/DataTableLoader.cs:75-78 | The synthetic column names are N digit strings that read as 1..N, and no two are equal. |
| DataTables.NonEmptyRows | CsvUtilities/DataTableLoader.cs:57-59 | The data rows in order with the empty ones skipped; NonEmptyRowsMembers and NonEmptyRowsKeepsAll state which rows it keeps. |
| DataTables.NonEmptyRowsMembers | CsvUtilities/DataTableLoader.cs:57-63 | The loaded rows are exactly the non-empty data rows. |
| DataTables.NonEmptyRowsKeepsAll | CsvUtilities/DataTableLoader.cs:57-63 | When no row is empty, all rows are loaded, in order. |
| DataTables.ColumnNames | CsvUtilities/DataTableLoader.cs:66-81 | The columns the loader adds; TableOfRead states they are the header's names, or the synthetic names for the row width, or none. |
| DataTables.LoadedRows | CsvUtilities/DataTableLoader.cs:54-64 | The rows the loader adds; NonEmptyRowsMembers and NonEmptyRowsKeepsAll state they are the non-empty data rows, all of them after a successful read. |
| DataTables.TableOf | CsvUtilities/DataTableLoader.cs:46-89 | The table the loader builds from a reader's Header and Data; TableOfRead states its columns and rows after a successful read and that it is well-formed. |
| DataTables.TableOfRead | CsvUtilities/DataTableLoader.cs:46-89 | The table built from a successful read is well-formed and its rows are exactly the data rows. Its columns are the header's names; or "1".."W" (W the line width) when there is no header but there are rows; with neither, the table is empty. |
| DataTables.IndexOf | Importer/CustomImporters/CustomImport.cs:124-125 | Column lookup finds nothing iff the name is absent; a found index is the first column of that name. |
| DataTables.IndexOfFirst | Importer/CustomImporters/CustomImport.cs:124-125 | A column that is the first of its name is the one lookup finds. |
| DataTables.ColumnValues | Importer/CustomImporters/CustomImport.cs:124-125 | A column read fails iff the table has rows and lacks the name. Otherwise it yields one cell per row, in row order, taken from the named column. |
| DataTables.DataTableLoader.constructor | CsvUtilities/DataTableLoader.cs:25-27 | A parameterless loader has no reader and both flags clear. |
| DataTables.DataTableLoader.New | CsvUtilities/DataTableLoader.cs:29-35 | A null reader fails with an argument-null error for "reader". A populated reader is attached without being read again. An unread reader is read, and its mismatch is the loader's error. Afterwards a non-null reader's Header is the header of its lines, even after a failed read. |
| DataTables.DataTableLoader.Attach | CsvUtilities/DataTableLoader.cs:34 | Construction with a reader is the parameterless constructor followed by the Reader setter, with the same outcomes as New for a non-null reader, including the reader's Header. |
| DataTables.DataTableLoader.SetReader | CsvUtilities/DataTableLoader.cs:15-22 | Stores the reader, then initialises from it. A populated reader is left unchanged. On success the flags describe the reader's Header and Data. Afterwards the reader's Header is the header of its lines, even after a failed read. |
| DataTables.DataTableLoader.InitReader | CsvUtilities/DataTableLoader.cs:37-44 | Reads only an unpopulated reader. On a mismatch the reader stays unpopulated and the flags keep their values. Otherwise the flags say whether Header and Data are non-empty. Afterwards the reader's Header is the header of its lines, even after a failed read. |
| DataTables.DataTableLoader.Load | CsvUtilities/DataTableLoader.cs:46-52 | Returns a fresh, well-formed table whose contents are TableOf the reader's Header and Data. |
| DataTables.DataTableLoader.PopulateData | CsvUtilities/DataTableLoader.cs:54-64 | Adds no rows when there are no columns or no data; otherwise it adds the non-empty data rows in order. |
| DataTables.DataTableLoader.PopulateColumns | CsvUtilities/DataTableLoader.cs:66-81 | Adds the header's names; or, with no header, one numeric name per cell of the first data row; or nothing. |
| DataTables.DataTableLoader.PopulateColumnsFromList | CsvUtilities/DataTableLoader.cs:83-89 | Appends the given names in order. |
| DataTables.AsDataTable | CsvUtilities/CsvReader.cs:117-121 | A populated reader is used as it is. Afterwards the reader's Header is the header of its lines, even after a failed read. Otherwise the read's mismatch is the error, and on success the result is a fresh well-formed table equal to TableOf the reader's Header and Data. |
| CustomImporters.Bump | Importer/CustomImporters/CustomImport.cs:129-134 | One step of the counting loop; BumpExisting, BumpNew and BumpSum state its effect on present and new values and on the total. |
| CustomImporters.BumpExisting | Importer/CustomImporters/CustomImport.cs:131-132 | Counting a value already present increments its entry and changes nothing else. |
| CustomImporters.BumpNew | Importer/CustomImporters/CustomImport.cs:133-134 | Counting a new value appends it with count 1 at the end of the insertion order. |
| CustomImporters.BumpSum | Importer/CustomImporters/CustomImport.cs:129-135 | Each counted value raises the total count by one. |
| CustomImporters.Tally | Importer/CustomImporters/CustomImport.cs:127-135 | The counting dictionary after every value; TallySpec and TallySum state its keys and counts. |
| CustomImporters.TallySpec | Importer/CustomImporters/CustomImport.cs:127-135 | The counting dictionary has distinct keys: exactly the column's values, each with its number of occurrences. |
| CustomImporters.TallySum | Importer/CustomImporters/CustomImport.cs:129-135 | The counts add up to the number of values. |
| CustomImporters.Precedes | Importer/CustomImporters/CustomImport.cs:137-138 | Report order: higher count first, equal counts by key; PrecedesTransitive, PrecedesTotal and PrecedesAsymmetric state that it is a strict total order on distinct entries. |
| CustomImporters.PrecedesTransitive | Importer/CustomImporters/CustomImport.cs:137-138 | Report order (count descending, then key ascending) is transitive. |
| CustomImporters.PrecedesTotal | Importer/CustomImporters/CustomImport.cs:137-138 | Any two different entries are ordered one way or the other. |
| CustomImporters.PrecedesAsymmetric | Importer/CustomImporters/CustomImport.cs:137-138 | Two entries are never ordered both ways. |
| CustomImporters.Insert | Importer/CustomImporters/CustomImport.cs:137-138 | One step of the ordering, placing an entry before the first entry it precedes; InsertContents and InsertOrdered state what it adds and that order is kept. |
| CustomImporters.InsertContents | Importer/CustomImporters/CustomImport.cs:137-138 | Inserting an entry adds exactly that entry and its count. |
| CustomImporters.InsertAfterHead | Importer/CustomImporters/CustomImport.cs:137-138 | Insertion after the head keeps the head before everything that follows. |
| CustomImporters.InsertOrdered | Importer/CustomImporters/CustomImport.cs:137-138 | Inserting a new entry into an ordered list keeps it ordered. |
| CustomImporters.SortEntries | Importer/CustomImporters/CustomImport.cs:136-138 | The entries in report order; SortEntriesSpec and OrderedUnique state that the result is the unique strictly ordered permutation of the entries. |
| CustomImporters.SortEntriesSpec | Importer/CustomImporters/CustomImport.cs:136-138 | Ordering the distinct entries gives a permutation of them, strictly in report order, with the same total count. |
| CustomImporters.OrderedUnique | Importer/CustomImporters/CustomImport.cs:136-138 | Two strictly ordered lists with the same entries are equal, so the order fixes the report. |
| CustomImporters.FrequencyEntries | Importer/CustomImporters/CustomImport.cs:127-138 | The counted values in report order; FrequencyEntriesSpec and FrequencyEntriesUnique state exactly which list it is. |
| CustomImporters.FrequencyEntriesSpec | Importer/CustomImporters/CustomImport.cs:127-140 | The report entries are exactly the distinct values with their occurrence counts, each at least 1. They are ordered by count descending, then key ascending, and the counts sum to the number of values. |
| CustomImporters.RenderEntry | Importer/CustomImporters/CustomImport.cs:139 | The line for one entry; FrequencyReportLines states it is the key, ", " and the count in decimal. |
| CustomImporters.Render | Importer/CustomImporters/CustomImport.cs:139 | The `Select` that renders each entry; FrequencyReportLines states that line i renders entry i. |
| CustomImporters.FrequencyReport | Importer/CustomImporters/CustomImport.cs:127-140 | The frequency report of a column; FrequencyEntriesSpec, FrequencyReportLines, FrequencyReportPermutation and FrequencyEntriesUnique state its entries, order and lines. |
| CustomImporters.FrequencyReportLines | Importer/CustomImporters/CustomImport.cs:139-140 | Line i is the key, ", " and the count of entry i. The report is empty iff the column is empty. |
| CustomImporters.FrequencyReportPermutation | Importer/CustomImporters/CustomImport.cs:127-140 | The frequency report depends only on the multiset of values: reordering the column leaves it unchanged. |
| CustomImporters.FrequencyEntriesUnique | Importer/CustomImporters/CustomImport.cs:136-138 | Any strictly ordered list holding exactly the distinct values with their counts is the report. |
| CustomImporters.CountedExisting | Importer/CustomImporters/CustomImport.cs:131-132 | Incrementing a present key in the map matches incrementing its entry. |
| CustomImporters.CountedNew | Importer/CustomImporters/CustomImport.cs:133-134 | Adding a new key with count 1 matches appending its entry. |
| CustomImporters.FrequencyOfColumn | Importer/CustomImporters/CustomImport.cs:122-141 | The frequency report of a named column, or ColumnNotFound; GetDataFrequency is proved equal to it, and NameReportSpec states it for both name columns. |
| CustomImporters.GetDataFrequency | Importer/CustomImporters/CustomImport.cs:122-141 | The dictionary loop and the ordering give the frequency report of the named column, or a missing-column error. |
| CustomImporters.Skip | Importer/CustomImporters/CustomImport.cs:159 | Drops the first n words, none for n ≤ 0 and all of them for n at least the count; SortKeySpec states its effect on the key. |
| CustomImporters.Aggregate | Importer/CustomImporters/CustomImport.cs:160 | The fold that appends " " and each word; AggregateJoins states it equals a space join. |
| CustomImporters.SortKey | Importer/CustomImporters/CustomImport.cs:158-160 | The sort key of a value; SortKeySpec states it for every word number. |
| CustomImporters.AggregateJoins | Importer/CustomImporters/CustomImport.cs:160 | Folding words onto a prefix appends a space and the words joined by single spaces. |
| CustomImporters.SortKeySpec | Importer/CustomImporters/CustomImport.cs:158-160 | The key is empty iff no word remains after skipping. A word number of 1 or less gives " " plus the whole value. Otherwise the key is " " plus the remaining words joined by spaces. |
| CustomImporters.InsertPair | Importer/CustomImporters/CustomImport.cs:161 | SortedDictionary insertion of a new key; InsertPairSpec and the InsertPair lemmas state what it adds and that keys stay ascending. |
| CustomImporters.InsertPairPairs | Importer/CustomImporters/CustomImport.cs:161 | Insertion adds exactly the new pair. |
| CustomImporters.ProjectionsCons | Importer/CustomImporters/CustomImport.cs:164-166 | Keys and values of a dictionary with a pair in front start with that pair's key and value. |
| CustomImporters.Keys | Importer/CustomImporters/CustomImport.cs:161 | The keys of the sorted dictionary, which `Add` checks; InsertPairKeys and AddAllSucceeds state how they grow and when `Add` fails. |
| CustomImporters.Values | Importer/CustomImporters/CustomImport.cs:164-166 | `Select(x => x.Value)` over the sorted dictionary; ProjectionsCons, InsertPairValues and AddAllResult state that it holds exactly the added values in key order. |
| CustomImporters.InsertPairKeys | Importer/CustomImporters/CustomImport.cs:161 | Insertion adds exactly the new key. |
| CustomImporters.InsertPairValues | Importer/CustomImporters/CustomImport.cs:161 | Insertion adds exactly the new value. |
| CustomImporters.InsertPairContents | Importer/CustomImporters/CustomImport.cs:161 | Insertion adds exactly the new pair, key and value. |
| CustomImporters.InsertPairAscending | Importer/CustomImporters/CustomImport.cs:154-161 | Inserting an absent key keeps the keys strictly ascending. |
| CustomImporters.InsertPairSpec | Importer/CustomImporters/CustomImport.cs:161 | Inserting a value under its absent sort key keeps the dictionary sorted, with every key the sort key of its value. The keys gain exactly the new key and the values gain exactly the new value. |
| CustomImporters.InsertPairKeyMembership | Importer/CustomImporters/CustomImport.cs:161 | After insertion the keys are the old keys plus the new one. |
| CustomImporters.AddAll | Importer/CustomImporters/CustomImport.cs:154-162 | Adds every value under its sort key, stopping at a key already present; AddAllSucceeds, AddAllResult and AddAllFailure state when it succeeds and with what. |
| CustomImporters.AddAllSucceeds | Importer/CustomImporters/CustomImport.cs:156-162 | Adding all values succeeds iff their sort keys are pairwise distinct and none is already a key. |
| CustomImporters.AddAllResult | Importer/CustomImporters/CustomImport.cs:156-162 | A successful add keeps keys strictly ascending and equal to their values' sort keys, and adds exactly the values. |
| CustomImporters.AddAllFailure | Importer/CustomImporters/CustomImport.cs:161 | A failed add names the sort key of one value that is already a key or shared with an earlier value. |
| CustomImporters.SortedOnWord | Importer/CustomImporters/CustomImport.cs:149-167 | The values in sort-key order, or a shared key; SortedOnWordSpec, SortedOnWordUnique and SortedOnWordPermutation state what it is. |
| CustomImporters.SortedOnWordSpec | Importer/CustomImporters/CustomImport.cs:149-167 | The sorted list exists iff no two values share a sort key. It is then a permutation of the values in strictly ascending key order; otherwise the error is a key that two values share. |
| CustomImporters.SortKeysAscendingTail | Importer/CustomImporters/CustomImport.cs:164-166 | The tail of a list with ascending keys has ascending keys. |
| CustomImporters.SortKeysAscendingHead | Importer/CustomImporters/CustomImport.cs:164-166 | Two key-ascending lists whose first elements occur in each other start with the same value. |
| CustomImporters.MultisetTail | Importer/CustomImporters/CustomImport.cs:164-166 | Equal multisets with equal heads have equal tails. |
| CustomImporters.MultisetHeads | Importer/CustomImporters/CustomImport.cs:164-166 | Each of two equal multisets holds the other's first element. |
| CustomImporters.SortKeysAscendingUnique | Importer/CustomImporters/CustomImport.cs:164-166 | Two arrangements of the same values with strictly ascending keys are equal. |
| CustomImporters.SortedOnWordUnique | Importer/CustomImporters/CustomImport.cs:149-167 | With distinct keys, the sorted list is the only key-ascending permutation of the values. |
| CustomImporters.SortKeysAscendingDistinct | Importer/CustomImporters/CustomImport.cs:154-166 | A list with strictly ascending sort keys has pairwise distinct keys. |
| CustomImporters.SortKeysAscendingFromAdjacent | Importer/CustomImporters/CustomImport.cs:164-166 | Keys that ascend between every pair of neighbours ascend throughout the list. |
| CustomImporters.TwoPositions | Importer/CustomImporters/CustomImport.cs:161 | A value that occurs twice in the multiset occurs at two different positions. |
| CustomImporters.TwoPositionsCounted | Importer/CustomImporters/CustomImport.cs:161 | A value at two different positions occurs at least twice in the multiset. |
| CustomImporters.SortKeysDistinctByMultiset | Importer/CustomImporters/CustomImport.cs:156-162 | The sort keys are pairwise distinct iff no value repeats and different values have different keys, which depends on the multiset of values alone. |
| CustomImporters.SortedOnWordPermutation | Importer/CustomImporters/CustomImport.cs:149-167 | Reordering the values does not change whether the word sort succeeds, nor the sorted list. |
| CustomImporters.SortedOnWordOfArrangement | Importer/CustomImporters/CustomImport.cs:149-167 | Any arrangement of the values with strictly ascending sort keys is the word-sorted list. |
| CustomImporters.SortedColumn | Importer/CustomImporters/CustomImport.cs:149-167 | The word-sorted list of a named column, ColumnNotFound, or DuplicateSortKey; GetListSortedOnWordX is proved equal to it, and ReportsSpec states it for the Address column. |
| CustomImporters.GetListSortedOnWordX | Importer/CustomImporters/CustomImport.cs:149-167 | The SortedDictionary loop gives the word-sorted list of the named column. A key already present is a duplicate-key error; a missing column is a missing-column error. |
| CustomImporters.NameReport | Importer/CustomImporters/CustomImport.cs:92-101 | The name report of a table, or its column error; NameReportSpec states it. |
| CustomImporters.NameReportSpec | Importer/CustomImporters/CustomImport.cs:92-101 | The name report exists iff both name columns can be read, and is then the FirstName report, " ", the LastName report. A missing FirstName column is reported before a missing LastName column. |
| CustomImporters.Reports | Importer/CustomImporters/CustomImport.cs:59-62 | The two reports of a table, or the first error; ReportsSpec states it. |
| CustomImporters.ReportsSpec | Importer/CustomImporters/CustomImport.cs:59-62 | The reports exist iff the three columns can be read and no two addresses share a sort key; they are then the name report and the address list. Otherwise the error is the first missing column in the order FirstName, LastName, Address, or the shared key. |
| CustomImporters.ProcessedReports | Importer/CustomImporters/CustomImport.cs:57-62 | The outcome of processing a header-bearing input; ProcessedReportsSpec and ReturnModeLayout state it. |
| CustomImporters.ProcessedReportsSpec | Importer/CustomImporters/CustomImport.cs:57-62 | A failed read stops processing with ColumnsMismatch of its mismatch; a successful read gives the reports of the well-formed table loaded from it. |
| CustomImporters.GetFirstNameLastNameReport | Importer/CustomImporters/CustomImport.cs:92-101 | The result is the FirstName frequency report, a " " line, then the LastName frequency report, or the first column error. |
| CustomImporters.ReturnModeLayout | Importer/CustomImporters/CustomImport.cs:57-90 | After a successful run, column lookup succeeds for all three names, so each of them is a column whenever the table has rows. The output is the FirstName report, " ", the LastName report, " ", then the address list sorted from word 2. |
| CustomImporters.CustomImport.constructor | Importer/CustomImporters/CustomImport.cs:35-44 | The importer holds a fresh, unread, header-bearing reader over the lines and no output yet. |
| CustomImporters.CustomImport.ImportData | Importer/CustomImporters/CustomImport.cs:49-52 | Runs the reader; the error is exactly the parse error. The reader's header is line 0's cells when there is a line 0, and null for empty input, whether or not the read succeeds. On success the reader is populated with the parsed rows; on failure its data and populated flag are unchanged. |
| CustomImporters.CustomImport.ProcessOutput | Importer/CustomImporters/CustomImport.cs:57-73 | The error is the mismatch or column error of the whole import. A populated reader is not read again. An unread reader is read: after a successful read it is populated, and after a failed one its data and populated flag are unchanged. In both cases its Header is line 0's cells, or null for empty input. On success in return mode, ReportOutput is the reports joined with " " lines; in write mode, or on failure, ReportOutput is unchanged. |
| CustomImporters.CustomImport.SetReportOutput | Importer/CustomImporters/CustomImport.cs:79-90 | ReportOutput becomes the reports in order with one " " line between neighbours and none after the last. |
| CustomImporters.ReturnModeRun | Importer.Test/TestCsvImport.cs:108-116 | ImportData then ProcessOutput with no target folder. A mismatch stops the run with ColumnsMismatch, whose message contains "column count mismatch", and leaves no output. Success leaves the joined reports in ReportOutput. |
| Scenarios.RowCells | Importer.Test/TestCsvImport.cs:13-24 | A line made of four comma-free cells joined by "," splits into exactly those cells. |
| Scenarios.TestRows | Importer.Test/TestCsvImport.cs:13-24 | Each of the nine test lines is a row of four comma-free cells, the cells listed for it. |
| Scenarios.ReadRows | CsvUtilities/CsvReader.cs:82-111 | Lines that are each a row of four cells read, with the header flag, as line 0's cells for the header and the other lines' cells as data; the loaded table has the header's columns and those rows. |
| Scenarios.TestDataParsed | Importer.Test/TestCsvImport.cs:13-24 | Reading the test lines gives the header FirstName, LastName, Address, PhoneNumber and the eight rows of cells, and the table loaded from them has those columns and rows. |
| Scenarios.ColumnAt | Importer/CustomImporters/CustomImport.cs:124-125 | Reading a column by name gives the cells of the first column of that name, row by row. |
| Scenarios.TestColumns | Importer.Test/TestCsvImport.cs:13-24 | The FirstName, LastName and Address columns of the test table are the test's names and addresses in line order. |
| Scenarios.FirstNameEntriesExact | Importer.Test/TestCsvImport.cs:28-32 | A column with the test data's FirstName counts has the entries Clive 2, Graham 2, James 2, Jimmy 1, John 1 in that order. |
| Scenarios.LastNameEntriesExact | Importer.Test/TestCsvImport.cs:34-37 | A column with the test data's LastName counts has the entries Brown 2, Howe 2, Owen 2, Smith 2 in that order. |
| Scenarios.FirstNameRendered | Importer.Test/TestCsvImport.cs:28-32 | Those FirstName entries render as the first five expected lines. |
| Scenarios.LastNameRendered | Importer.Test/TestCsvImport.cs:34-37 | Those LastName entries render as the last four expected lines. |
| Scenarios.FirstNameFrequencyExample | Importer.Test/TestCsvImport.cs:13-32 | The FirstName column of the test lines gives exactly the first five lines of the first expected file. |
| Scenarios.LastNameFrequencyExample | Importer.Test/TestCsvImport.cs:13-37 | The LastName column of the test lines gives exactly the last four lines of the first expected file. |
| Scenarios.NameReportExample | Importer.Test/TestCsvImport.cs:26-38 | The two reports with the " " line between are exactly the first expected file. |
| Scenarios.AddressKey | Importer/CustomImporters/CustomImport.cs:158-160 | The sort key from word 2 of an address "<number> <name> <kind>" is " <name> <kind>". |
| Scenarios.ThreeWords | Importer/CustomImporters/CustomImport.cs:158 | Three space-free words joined by spaces split back into those words. |
| Scenarios.AddressesAscending | Importer/CustomImporters/CustomImport.cs:154-166 | Addresses whose street name and kind ascend from each address to the next are in strictly ascending sort-key order. |
| Scenarios.File2Words | Importer.Test/TestCsvImport.cs:40-50 | Each address of the second expected file is its number, street name and kind joined by spaces. |
| Scenarios.StreetKeysAscend | Importer.Test/TestCsvImport.cs:40-50 | The street names and kinds of the second expected file ascend in ordinal order. |
| Scenarios.PermutedByIndex | Importer.Test/TestCsvImport.cs:40-50 | A sequence that takes the elements of another through an index permutation has the same multiset. |
| Scenarios.File2Rearranges | Importer.Test/TestCsvImport.cs:40-50 | The second expected file is an arrangement of the test's Address column. |
| Scenarios.AddressListExample | Importer.Test/TestCsvImport.cs:40-50 | The Address column of the test lines, sorted from word 2, is exactly the second expected file. |
| Scenarios.TestTableReports | Importer.Test/TestCsvImport.cs:26-50 | The table loaded from the test lines gives exactly the two expected report files. |
| Scenarios.ReportsOfRead | Importer/CustomImporters/CustomImport.cs:59-62 | Lines that read successfully are processed into the reports of the table loaded from that read. |
| Scenarios.TestDataReports | Importer.Test/TestCsvImport.cs:13-50 | Processing the test lines gives exactly the two expected report files, and joined in return mode they are the first file, a " " line, then the second. |
| Scenarios.JoinPair | Importer/CustomImporters/CustomImport.cs:83-89 | Joining two reports puts one separator line between them. |
| Scenarios.OneMoreCell | Importer.Test/TestCsvImport.cs:59 | A row of four cells followed by "," and one more comma-free cell is five cells wide. |
| Scenarios.WiderLine | CsvUtilities/CsvReader.cs:87-92 | When line m is the first line whose width is not four, the read fails with expected count 4, line m's width, line number m+1 and line m's text. |
| Scenarios.MismatchExample | Importer.Test/TestCsvImport.cs:52-63 | Reading the mismatch data fails at line 6, which has five cells where line 1 has four, and processing it fails with that ColumnsMismatch. |
| Scenarios.ImportCsvNoFiles | Importer.Test/TestCsvImport.cs:65-71 | An importer run in return mode (ImportData then ProcessOutput, as GetReportOutput does) over the test lines leaves ReportOutput equal to the first expected file, a " " line, then the second. |
| Scenarios.ImportCsvColumnMismatch | Importer.Test/TestCsvImport.cs:73-87 | An importer run over the mismatch data fails with the ColumnsMismatch of line 6, and its message contains "column count mismatch". |

## Left out

- The path constructor of `CsvReader`, `File.Exists` and `File.ReadAllLines` (CsvUtilities/CsvReader.cs:40-47, 67-68) are file I/O. The reader always works on in-memory lines.
- The `CustomImport` constructor taking a file path (Importer/CustomImporters/CustomImport.cs:29-33) is file I/O.
- Write mode (`WriteReport`, `Path.Combine`, `File.WriteAllLines`, Importer/CustomImporters/CustomImport.cs:64-68 and 109-113) writes files. The model only states that ReportOutput is left unchanged in that mode.
- Importer/Program.cs is command-line plumbing (arguments, console, directories, exit codes) and is not part of this model.
- The interfaces `ICsvReader`, `IDataTableLoader` and `ICustomImporter` hold no logic. The classes are modelled directly.
- Thrown exceptions are modelled as returned error values:
  - `ColumnsMismatchException` is `Mismatch`;
  - `ArgumentNullException` is `ArgumentNull`;
  - the `DataTable` column exception is `ColumnNotFound`;
  - the `SortedDictionary` duplicate-key exception is `DuplicateSortKey`.

  Callers stop at the first error, as an exception would stop them.
- `System.Data.DataTable` internals are left out:
  - name lookup is exact and finds the first column of that name; the case-insensitive fallback, automatic naming of empty column names, the duplicate-column-name exception, and cell typing are not modelled;
  - `DataTable.LoadDataRow` is modelled only for a row with one cell per column, which is proved to hold for every row the loader adds.
- String order is ordinal comparison of Dafny characters (Unicode scalar values). In the source, `OrderBy`/`ThenBy` and `SortedDictionary<string, string>` use the default string comparer, which orders by the current culture's collation. The two orders agree on the names and sort keys of the test data.
- `Int32` overflow of a count or of the synthetic column counter is not modelled; counts are unbounded naturals.
- A parameterless `DataTableLoader` followed by `Load` without a reader (a null dereference in the source) is not modelled; `Load` requires an attached reader.
- A missing column is an error only when the table has at least one row, because the source resolves the name row by row (`Field<string>` inside `Select`). An empty table gives an empty report for any column name.
- Two addresses with the same sort key, including two identical addresses, make the word sort fail, because `SortedDictionary.Add` throws on a present key. The model keeps that failure (`DuplicateSortKey`) rather than emitting both values.
