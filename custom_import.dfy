/**
 * The custom importer: from the table of a header-bearing CSV input it
 * builds the FirstName/LastName frequency report and the address list sorted
 * from the street name on, and in return mode joins both into ReportOutput
 * with a " " line between them.
 */
module CustomImporters {
  import opened Wrappers
  import opened Text
  import opened CsvReading
  import opened DataTables

  /** The line that separates two reports. */
  const LineDelimiter: string := " "

  /** The importer's failures. */
  datatype ImportError =
    | ColumnsMismatch(mismatch: Mismatch)   // the reader's ColumnsMismatchException
    | ColumnNotFound(name: string)          // Field<string> on a column the table lacks
    | DuplicateSortKey(key: string)         // SortedDictionary.Add on a key already present

  // =====================================================================
  // Frequency report
  // =====================================================================

  /** A distinct value and its number of occurrences. */
  datatype Entry = Entry(key: string, count: nat)

  /** Counting one more occurrence of x: increments x's entry, or appends a new entry with count 1. */
  function Bump(t: seq<Entry>, x: string): (r: seq<Entry>)
  {
    if |t| == 0 then [Entry(x, 1)]
    else if t[0].key == x then [Entry(x, t[0].count + 1)] + t[1..]
    else [t[0]] + Bump(t[1..], x)
  }

  /** The counting dictionary after all values, in insertion order of the keys. */
  function Tally(values: seq<string>): (r: seq<Entry>)
  {
    if |values| == 0 then []
    else Bump(Tally(values[..|values| - 1]), values[|values| - 1])
  }

  predicate DistinctKeys(t: seq<Entry>)
  {
    forall i, j :: 0 <= i < j < |t| ==> t[i].key != t[j].key
  }

  function SumCounts(t: seq<Entry>): (r: nat)
  {
    if |t| == 0 then 0 else t[0].count + SumCounts(t[1..])
  }

  lemma {:induction false} BumpExisting(t: seq<Entry>, x: string, j: nat)
    requires DistinctKeys(t) && j < |t| && t[j].key == x
    ensures Bump(t, x) == t[j := Entry(x, t[j].count + 1)]
  {
    if j > 0 {
      assert DistinctKeys(t[1..]);
      BumpExisting(t[1..], x, j - 1);
    }
  }

  lemma {:induction false} BumpNew(t: seq<Entry>, x: string)
    requires forall i :: 0 <= i < |t| ==> t[i].key != x
    ensures Bump(t, x) == t + [Entry(x, 1)]
  {
    if |t| > 0 {
      BumpNew(t[1..], x);
    }
  }

  lemma {:induction false} BumpSum(t: seq<Entry>, x: string)
    ensures SumCounts(Bump(t, x)) == SumCounts(t) + 1
  {
    if |t| > 0 && t[0].key != x {
      BumpSum(t[1..], x);
    }
  }

  /**
   * The counting dictionary has one entry per distinct value, and each
   * entry's count is that value's number of occurrences.
   */
  lemma {:induction false} TallySpec(values: seq<string>)
    ensures DistinctKeys(Tally(values))
    ensures forall i :: 0 <= i < |Tally(values)| ==>
      Tally(values)[i].key in values && Tally(values)[i].count == multiset(values)[Tally(values)[i].key]
    ensures forall x :: x in values ==> exists i :: 0 <= i < |Tally(values)| && Tally(values)[i].key == x
  {
    if |values| > 0 {
      var init, x := values[..|values| - 1], values[|values| - 1];
      TallySpec(init);
      assert values == init + [x];
      assert multiset(values) == multiset(init) + multiset{x};
      var t := Tally(init);
      var t' := Tally(values);
      if j :| 0 <= j < |t| && t[j].key == x {
        BumpExisting(t, x, j);
        forall y | y in values
          ensures exists i :: 0 <= i < |t'| && t'[i].key == y
        {
          if y == x {
            assert t'[j].key == y;
          } else {
            assert y in init;
            var i :| 0 <= i < |t| && t[i].key == y;
            assert t'[i].key == y;
          }
        }
      } else {
        assert x !in init;
        BumpNew(t, x);
        forall y | y in values
          ensures exists i :: 0 <= i < |t'| && t'[i].key == y
        {
          if y == x {
            assert t'[|t|].key == y;
          } else {
            assert y in init;
            var i :| 0 <= i < |t| && t[i].key == y;
            assert t'[i].key == y;
          }
        }
      }
    }
  }

  /** The counts add up to the number of values. */
  lemma {:induction false} TallySum(values: seq<string>)
    ensures SumCounts(Tally(values)) == |values|
  {
    if |values| > 0 {
      TallySum(values[..|values| - 1]);
      BumpSum(Tally(values[..|values| - 1]), values[|values| - 1]);
    }
  }

  /** Report order: larger count first, equal counts by key in ordinal order. */
  predicate Precedes(a: Entry, b: Entry)
  {
    a.count > b.count || (a.count == b.count && OrdinalLess(a.key, b.key))
  }

  /** Strictly ascending in report order. */
  predicate Ordered(s: seq<Entry>)
  {
    forall i, j :: 0 <= i < j < |s| ==> Precedes(s[i], s[j])
  }

  lemma PrecedesTransitive(a: Entry, b: Entry, c: Entry)
    requires Precedes(a, b) && Precedes(b, c)
    ensures Precedes(a, c)
  {
    if a.count == b.count == c.count {
      OrdinalTransitive(a.key, b.key, c.key);
    }
  }

  lemma PrecedesTotal(a: Entry, b: Entry)
    ensures a == b || Precedes(a, b) || Precedes(b, a)
  {
    OrdinalTotal(a.key, b.key);
  }

  lemma PrecedesAsymmetric(a: Entry, b: Entry)
    requires Precedes(a, b)
    ensures !Precedes(b, a) && a != b
  {
    OrdinalIrreflexive(a.key);
    if a.count == b.count {
      OrdinalAsymmetric(a.key, b.key);
    }
  }

  /** Inserts an entry before the first entry it precedes. */
  function Insert(e: Entry, s: seq<Entry>): (r: seq<Entry>)
  {
    if |s| == 0 then [e]
    else if Precedes(s[0], e) then [s[0]] + Insert(e, s[1..])
    else [e] + s
  }

  /** `OrderByDescending(count).ThenBy(key)`, as an insertion sort. */
  function SortEntries(s: seq<Entry>): (r: seq<Entry>)
  {
    if |s| == 0 then [] else Insert(s[0], SortEntries(s[1..]))
  }

  lemma {:induction false} InsertContents(e: Entry, s: seq<Entry>)
    ensures multiset(Insert(e, s)) == multiset(s) + multiset{e}
    ensures SumCounts(Insert(e, s)) == SumCounts(s) + e.count
  {
    if |s| > 0 && Precedes(s[0], e) {
      InsertContents(e, s[1..]);
      assert s == [s[0]] + s[1..];
    }
  }

  /** Every entry of the sorted tail, and the inserted one, comes after the head it follows. */
  lemma InsertAfterHead(e: Entry, s: seq<Entry>)
    requires |s| > 0 && Ordered(s) && Precedes(s[0], e)
    ensures forall k :: 0 <= k < |Insert(e, s[1..])| ==> Precedes(s[0], Insert(e, s[1..])[k])
  {
    InsertContents(e, s[1..]);
    var r := Insert(e, s[1..]);
    forall k | 0 <= k < |r|
      ensures Precedes(s[0], r[k])
    {
      assert r[k] in multiset(s[1..]) + multiset{e};
      if r[k] != e {
        var m :| 0 <= m < |s[1..]| && s[1..][m] == r[k];
        assert s[m + 1] == r[k];
      }
    }
  }

  lemma {:induction false} InsertOrdered(e: Entry, s: seq<Entry>)
    requires Ordered(s) && e !in s
    ensures Ordered(Insert(e, s))
  {
    if |s| > 0 {
      if Precedes(s[0], e) {
        assert Ordered(s[1..]);
        InsertOrdered(e, s[1..]);
        InsertAfterHead(e, s);
      } else {
        PrecedesTotal(s[0], e);
        forall k | 0 < k < |s|
          ensures Precedes(e, s[k])
        {
          PrecedesTransitive(e, s[0], s[k]);
        }
      }
    }
  }

  lemma {:induction false} SortEntriesSpec(s: seq<Entry>)
    requires forall i, j :: 0 <= i < j < |s| ==> s[i] != s[j]
    ensures Ordered(SortEntries(s))
    ensures multiset(SortEntries(s)) == multiset(s)
    ensures SumCounts(SortEntries(s)) == SumCounts(s)
  {
    if |s| > 0 {
      SortEntriesSpec(s[1..]);
      assert s == [s[0]] + s[1..];
      assert s[0] !in multiset(s[1..]);
      InsertContents(s[0], SortEntries(s[1..]));
      InsertOrdered(s[0], SortEntries(s[1..]));
    }
  }

  /** Two strictly ordered sequences with the same elements are equal. */
  lemma {:induction false} OrderedUnique(a: seq<Entry>, b: seq<Entry>)
    requires Ordered(a) && Ordered(b)
    requires forall e :: e in a <==> e in b
    ensures a == b
  {
    if |a| > 0 {
      assert a[0] in a;
    }
    if |b| > 0 {
      assert b[0] in b;
    }
    if |a| > 0 && |b| > 0 {
      assert a[0] == b[0] by {
        assert a[0] in a && b[0] in b;
        var i :| 0 <= i < |a| && a[i] == b[0];
        var j :| 0 <= j < |b| && b[j] == a[0];
        if i != 0 && j != 0 {
          PrecedesAsymmetric(a[0], a[i]);
        }
      }
      forall e
        ensures e in a[1..] <==> e in b[1..]
      {
        if e in a[1..] {
          var i :| 1 <= i < |a| && a[i] == e;
          PrecedesAsymmetric(a[0], a[i]);
          assert e in b;
        }
        if e in b[1..] {
          var j :| 1 <= j < |b| && b[j] == e;
          PrecedesAsymmetric(b[0], b[j]);
          assert e in a;
        }
      }
      OrderedUnique(a[1..], b[1..]);
      assert a == [a[0]] + a[1..] && b == [b[0]] + b[1..];
    }
  }

  /** The report entries: the counted values in report order. */
  function FrequencyEntries(values: seq<string>): (r: seq<Entry>)
  {
    SortEntries(Tally(values))
  }

  /** `$"{key}, {count}"`. */
  function RenderEntry(e: Entry): (r: string)
  {
    e.key + ", " + NatToString(e.count)
  }

  function Render(entries: seq<Entry>): (r: seq<string>)
  {
    seq(|entries|, i requires 0 <= i < |entries| => RenderEntry(entries[i]))
  }

  /** The frequency report of a column's values. */
  function FrequencyReport(values: seq<string>): (r: seq<string>)
  {
    Render(FrequencyEntries(values))
  }

  /**
   * The report entries are exactly the distinct values, each with its number
   * of occurrences (at least one); they are ordered by count descending and
   * then by key ascending; their counts add up to the number of values.
   */
  lemma FrequencyEntriesSpec(values: seq<string>)
    ensures Ordered(FrequencyEntries(values))
    ensures forall e :: e in FrequencyEntries(values) <==>
      e.key in values && e.count == multiset(values)[e.key]
    ensures forall e :: e in FrequencyEntries(values) ==> e.count >= 1
    ensures SumCounts(FrequencyEntries(values)) == |values|
  {
    var t := Tally(values);
    TallySpec(values);
    TallySum(values);
    SortEntriesSpec(t);
    var entries := FrequencyEntries(values);
    forall e
      ensures e in entries <==> e.key in values && e.count == multiset(values)[e.key]
    {
      assert e in entries <==> e in multiset(t);
      if e.key in values && e.count == multiset(values)[e.key] {
        var i :| 0 <= i < |t| && t[i].key == e.key;
        assert t[i] == e;
      }
    }
  }

  /**
   * Each report line is `"{key}, {count}"` for the entry at that position;
   * an empty column gives an empty report.
   */
  lemma FrequencyReportLines(values: seq<string>)
    ensures |FrequencyReport(values)| == |FrequencyEntries(values)|
    ensures forall i :: 0 <= i < |FrequencyReport(values)| ==>
      FrequencyReport(values)[i] ==
        FrequencyEntries(values)[i].key + ", " + NatToString(FrequencyEntries(values)[i].count)
    ensures values == [] <==> FrequencyReport(values) == []
  {
    FrequencyEntriesSpec(values);
    if values != [] {
      var x := values[0];
      assert Entry(x, multiset(values)[x]) in FrequencyEntries(values);
    }
  }

  /** The frequency report depends only on the multiset of values: reordering the column changes nothing. */
  lemma FrequencyReportPermutation(a: seq<string>, b: seq<string>)
    requires multiset(a) == multiset(b)
    ensures FrequencyReport(a) == FrequencyReport(b)
  {
    FrequencyEntriesSpec(a);
    FrequencyEntriesSpec(b);
    forall e
      ensures e in FrequencyEntries(a) <==> e in FrequencyEntries(b)
    {
      assert e.key in a <==> e.key in multiset(a);
      assert e.key in b <==> e.key in multiset(b);
    }
    OrderedUnique(FrequencyEntries(a), FrequencyEntries(b));
  }

  /**
   * The report entries are the only strictly ordered sequence holding
   * exactly the distinct values with their occurrence counts.
   */
  lemma FrequencyEntriesUnique(values: seq<string>, expected: seq<Entry>)
    requires Ordered(expected)
    requires forall e :: e in expected <==> e.key in values && e.count == multiset(values)[e.key]
    ensures FrequencyEntries(values) == expected
  {
    FrequencyEntriesSpec(values);
    OrderedUnique(FrequencyEntries(values), expected);
  }

  /** The frequency report of a named column of the table. */
  function FrequencyOfColumn(table: Table, fieldName: string): (r: Result<seq<string>, ImportError>)
    requires WellFormed(table)
  {
    match ColumnValues(table, fieldName)
    case None => Failure(ColumnNotFound(fieldName))
    case Some(values) => Success(FrequencyReport(values))
  }

  /**
   * The dictionary `counts`, enumerated in key-insertion order `order`, holds
   * exactly the entries of t.
   */
  predicate Counted(t: seq<Entry>, counts: map<string, nat>, order: seq<string>)
  {
    |order| == |t| &&
    (forall k :: 0 <= k < |order| ==> order[k] in counts && t[k] == Entry(order[k], counts[order[k]])) &&
    (forall x :: x in counts ==> x in order)
  }

  lemma CountedExisting(t: seq<Entry>, counts: map<string, nat>, order: seq<string>, x: string)
    requires Counted(t, counts, order) && DistinctKeys(t) && x in counts
    ensures Counted(Bump(t, x), counts[x := counts[x] + 1], order)
  {
    var j :| 0 <= j < |order| && order[j] == x;
    BumpExisting(t, x, j);
    forall k | 0 <= k < |order| && k != j
      ensures order[k] != x
    {
    }
  }

  lemma CountedNew(t: seq<Entry>, counts: map<string, nat>, order: seq<string>, x: string)
    requires Counted(t, counts, order) && x !in counts
    ensures Counted(Bump(t, x), counts[x := 1], order + [x])
  {
    BumpNew(t, x);
  }

  /** Counts the column's values in a dictionary, then orders and renders the counts. */
  method GetDataFrequency(table: Table, fieldName: string) returns (r: Result<seq<string>, ImportError>)
    requires WellFormed(table)
    ensures r == FrequencyOfColumn(table, fieldName)
  {
    var column := ColumnValues(table, fieldName);
    if column.None? {
      return Failure(ColumnNotFound(fieldName));
    }
    var allDataForColumn := column.value;
    var dataWithFrequency: map<string, nat> := map[];
    var keyOrder: seq<string> := [];
    for i := 0 to |allDataForColumn|
      invariant Counted(Tally(allDataForColumn[..i]), dataWithFrequency, keyOrder)
    {
      var value := allDataForColumn[i];
      ghost var before := Tally(allDataForColumn[..i]);
      assert allDataForColumn[..i + 1][..i] == allDataForColumn[..i];
      TallySpec(allDataForColumn[..i]);
      if value in dataWithFrequency {
        CountedExisting(before, dataWithFrequency, keyOrder, value);
        dataWithFrequency := dataWithFrequency[value := dataWithFrequency[value] + 1];
      } else {
        CountedNew(before, dataWithFrequency, keyOrder, value);
        dataWithFrequency := dataWithFrequency[value := 1];
        keyOrder := keyOrder + [value];
      }
    }
    assert allDataForColumn[..|allDataForColumn|] == allDataForColumn;
    var entries := seq(|keyOrder|, k requires 0 <= k < |keyOrder| && keyOrder[k] in dataWithFrequency =>
      Entry(keyOrder[k], dataWithFrequency[keyOrder[k]]));
    assert entries == Tally(allDataForColumn);
    r := Success(Render(SortEntries(entries)));
  }

  // =====================================================================
  // Word-suffix sort
  // =====================================================================

  /** `words.Skip(n)`: drops the first n elements (none when n <= 0, all when n >= length). */
  function Skip<T>(s: seq<T>, n: int): (r: seq<T>)
  {
    if n <= 0 then s else if n >= |s| then [] else s[n..]
  }

  /** `words.Aggregate(acc, (current, w) => current + " " + w)`. */
  function Aggregate(acc: string, words: seq<string>): (r: string)
    decreases |words|
  {
    if |words| == 0 then acc else Aggregate(acc + " " + words[0], words[1..])
  }

  /** The sort key: the words from word number `wordNumber` on, each prefixed with " ". */
  function SortKey(value: string, wordNumber: int): (r: string)
  {
    Aggregate("", Skip(Split(value, ' '), wordNumber - 1))
  }

  /** Folding words onto acc appends a space and the words joined by single spaces. */
  lemma {:induction false} AggregateJoins(acc: string, words: seq<string>)
    requires |words| > 0
    ensures Aggregate(acc, words) == acc + " " + Join(words, ' ')
    decreases |words|
  {
    if |words| > 1 {
      AggregateJoins(acc + " " + words[0], words[1..]);
      assert acc + " " + words[0] + " " + Join(words[1..], ' ')
          == acc + " " + (words[0] + [' '] + Join(words[1..], ' '));
    }
  }

  /**
   * The sort key is empty exactly when no word is left after skipping;
   * skipping nothing (word number at most 1) gives " " followed by the whole
   * value; otherwise it is " " followed by the remaining words joined by spaces.
   */
  lemma SortKeySpec(value: string, wordNumber: int)
    ensures var words := Split(value, ' ');
      (SortKey(value, wordNumber) == "" <==> wordNumber - 1 >= |words|) &&
      (wordNumber <= 1 ==> SortKey(value, wordNumber) == " " + value) &&
      (1 < wordNumber <= |words| ==> SortKey(value, wordNumber) == " " + Join(words[wordNumber - 1..], ' '))
  {
    var words := Split(value, ' ');
    var rest := Skip(words, wordNumber - 1);
    if |rest| > 0 {
      AggregateJoins("", rest);
    }
    if wordNumber <= 1 {
      JoinSplit(value, ' ');
    }
  }

  /** The keys of a sorted dictionary. */
  function Keys(d: seq<(string, string)>): (r: seq<string>)
  {
    seq(|d|, i requires 0 <= i < |d| => d[i].0)
  }

  /** The values of a sorted dictionary, in key order. */
  function Values(d: seq<(string, string)>): (r: seq<string>)
  {
    seq(|d|, i requires 0 <= i < |d| => d[i].1)
  }

  /** A SortedDictionary's invariant: keys strictly ascending in ordinal order. */
  predicate KeysAscending(d: seq<(string, string)>)
  {
    forall i, j :: 0 <= i < j < |d| ==> OrdinalLess(d[i].0, d[j].0)
  }

  /** Every key is the sort key of its value. */
  predicate KeysOfValues(d: seq<(string, string)>, wordNumber: int)
  {
    forall i :: 0 <= i < |d| ==> d[i].0 == SortKey(d[i].1, wordNumber)
  }

  /** SortedDictionary insertion of a new key: before the first larger key. */
  function InsertPair(d: seq<(string, string)>, key: string, value: string): (r: seq<(string, string)>)
  {
    if |d| == 0 then [(key, value)]
    else if OrdinalLess(d[0].0, key) then [d[0]] + InsertPair(d[1..], key, value)
    else [(key, value)] + d
  }

  lemma {:induction false} InsertPairPairs(d: seq<(string, string)>, key: string, value: string)
    ensures multiset(InsertPair(d, key, value)) == multiset(d) + multiset{(key, value)}
  {
    if |d| > 0 && OrdinalLess(d[0].0, key) {
      InsertPairPairs(d[1..], key, value);
      assert d == [d[0]] + d[1..];
    }
  }

  lemma ProjectionsCons(p: (string, string), d: seq<(string, string)>)
    ensures Keys([p] + d) == [p.0] + Keys(d)
    ensures Values([p] + d) == [p.1] + Values(d)
  {
    assert Keys([p] + d)[1..] == Keys(d);
    assert Values([p] + d)[1..] == Values(d);
  }

  lemma {:induction false} InsertPairKeys(d: seq<(string, string)>, key: string, value: string)
    ensures multiset(Keys(InsertPair(d, key, value))) == multiset(Keys(d)) + multiset{key}
  {
    if |d| == 0 {
      ProjectionsCons((key, value), d);
    } else if OrdinalLess(d[0].0, key) {
      var tail := d[1..];
      var rt := InsertPair(tail, key, value);
      assert InsertPair(d, key, value) == [d[0]] + rt;
      InsertPairKeys(tail, key, value);
      assert d == [d[0]] + tail;
      ProjectionsCons(d[0], tail);
      ProjectionsCons(d[0], rt);
    } else {
      ProjectionsCons((key, value), d);
    }
  }

  lemma {:induction false} InsertPairValues(d: seq<(string, string)>, key: string, value: string)
    ensures multiset(Values(InsertPair(d, key, value))) == multiset(Values(d)) + multiset{value}
  {
    if |d| == 0 {
      ProjectionsCons((key, value), d);
    } else if OrdinalLess(d[0].0, key) {
      var tail := d[1..];
      var rt := InsertPair(tail, key, value);
      assert InsertPair(d, key, value) == [d[0]] + rt;
      InsertPairValues(tail, key, value);
      assert d == [d[0]] + tail;
      ProjectionsCons(d[0], tail);
      ProjectionsCons(d[0], rt);
    } else {
      ProjectionsCons((key, value), d);
    }
  }

  lemma InsertPairContents(d: seq<(string, string)>, key: string, value: string)
    ensures multiset(InsertPair(d, key, value)) == multiset(d) + multiset{(key, value)}
    ensures multiset(Keys(InsertPair(d, key, value))) == multiset(Keys(d)) + multiset{key}
    ensures multiset(Values(InsertPair(d, key, value))) == multiset(Values(d)) + multiset{value}
  {
    InsertPairPairs(d, key, value);
    InsertPairKeys(d, key, value);
    InsertPairValues(d, key, value);
  }

  lemma {:induction false} InsertPairAscending(d: seq<(string, string)>, key: string, value: string)
    requires KeysAscending(d) && key !in Keys(d)
    ensures KeysAscending(InsertPair(d, key, value))
  {
    var r := InsertPair(d, key, value);
    if |d| == 0 {
    } else if OrdinalLess(d[0].0, key) {
      var tail := d[1..];
      assert KeysAscending(tail);
      assert Keys(d) == [d[0].0] + Keys(tail);
      InsertPairAscending(tail, key, value);
      InsertPairContents(tail, key, value);
      var rt := InsertPair(tail, key, value);
      forall k | 0 < k < |r|
        ensures OrdinalLess(d[0].0, r[k].0)
      {
        assert r[k] == rt[k - 1];
        assert rt[k - 1] in multiset(tail) + multiset{(key, value)};
        if rt[k - 1] != (key, value) {
          var m :| 0 <= m < |tail| && tail[m] == rt[k - 1];
          assert d[m + 1] == tail[m];
        }
      }
    } else {
      assert key != d[0].0 by {
        assert Keys(d)[0] == d[0].0;
      }
      OrdinalTotal(key, d[0].0);
      forall k | 0 < k < |r|
        ensures OrdinalLess(key, r[k].0)
      {
        if k > 1 {
          OrdinalTransitive(key, d[0].0, d[k - 1].0);
        }
      }
    }
  }

  /** Inserting a new key keeps the dictionary invariant and adds exactly that key and value. */
  lemma InsertPairSpec(d: seq<(string, string)>, key: string, value: string, wordNumber: int)
    requires KeysAscending(d) && KeysOfValues(d, wordNumber)
    requires key !in Keys(d) && key == SortKey(value, wordNumber)
    ensures KeysAscending(InsertPair(d, key, value))
    ensures KeysOfValues(InsertPair(d, key, value), wordNumber)
    ensures forall x :: x in Keys(InsertPair(d, key, value)) <==> x in Keys(d) || x == key
    ensures multiset(Values(InsertPair(d, key, value))) == multiset(Values(d)) + multiset{value}
  {
    InsertPairAscending(d, key, value);
    InsertPairContents(d, key, value);
    var r := InsertPair(d, key, value);
    forall i | 0 <= i < |r|
      ensures r[i].0 == SortKey(r[i].1, wordNumber)
    {
      assert r[i] in multiset(d) + multiset{(key, value)};
      if r[i] != (key, value) {
        var m :| 0 <= m < |d| && d[m] == r[i];
      }
    }
    forall x
      ensures x in Keys(r) <==> x in Keys(d) || x == key
    {
      assert x in Keys(r) <==> x in multiset(Keys(r));
      assert x in Keys(d) <==> x in multiset(Keys(d));
    }
  }

  /** Adds every value under its sort key, failing at the first key already present. */
  function AddAll(d: seq<(string, string)>, values: seq<string>, wordNumber: int): (r: Result<seq<(string, string)>, string>)
    decreases |values|
  {
    if |values| == 0 then Success(d)
    else
      var key := SortKey(values[0], wordNumber);
      if key in Keys(d) then Failure(key)
      else AddAll(InsertPair(d, key, values[0]), values[1..], wordNumber)
  }

  /** No two values have the same sort key. */
  predicate SortKeysDistinct(values: seq<string>, wordNumber: int)
  {
    forall i, j :: 0 <= i < j < |values| ==> SortKey(values[i], wordNumber) != SortKey(values[j], wordNumber)
  }

  lemma InsertPairKeyMembership(d: seq<(string, string)>, key: string, value: string)
    ensures forall x :: x in Keys(InsertPair(d, key, value)) <==> x in Keys(d) || x == key
  {
    InsertPairContents(d, key, value);
    var r := InsertPair(d, key, value);
    forall x
      ensures x in Keys(r) <==> x in Keys(d) || x == key
    {
      assert x in Keys(r) <==> x in multiset(Keys(r));
      assert x in Keys(d) <==> x in multiset(Keys(d));
    }
  }

  /** Adding succeeds exactly when the new sort keys are distinct and none is already a key. */
  lemma {:induction false} AddAllSucceeds(d: seq<(string, string)>, values: seq<string>, wordNumber: int)
    ensures AddAll(d, values, wordNumber).Success? <==>
      SortKeysDistinct(values, wordNumber) &&
      forall i :: 0 <= i < |values| ==> SortKey(values[i], wordNumber) !in Keys(d)
    decreases |values|
  {
    if |values| > 0 {
      var key, rest := SortKey(values[0], wordNumber), values[1..];
      if key !in Keys(d) {
        var d' := InsertPair(d, key, values[0]);
        InsertPairKeyMembership(d, key, values[0]);
        AddAllSucceeds(d', rest, wordNumber);
        assert forall i :: 0 <= i < |rest| ==> rest[i] == values[i + 1];
        if SortKeysDistinct(rest, wordNumber) && (forall i :: 0 <= i < |rest| ==> SortKey(rest[i], wordNumber) !in Keys(d')) {
          forall i, j | 0 <= i < j < |values|
            ensures SortKey(values[i], wordNumber) != SortKey(values[j], wordNumber)
          {
            assert values[j] == rest[j - 1];
            if i > 0 {
              assert values[i] == rest[i - 1];
            }
          }
        }
      }
    }
  }

  /** A successful add keeps the dictionary invariant and adds exactly the values. */
  lemma {:induction false} AddAllResult(d: seq<(string, string)>, values: seq<string>, wordNumber: int)
    requires KeysAscending(d) && KeysOfValues(d, wordNumber)
    requires AddAll(d, values, wordNumber).Success?
    ensures var r := AddAll(d, values, wordNumber).value;
      KeysAscending(r) && KeysOfValues(r, wordNumber) &&
      multiset(Values(r)) == multiset(Values(d)) + multiset(values)
    decreases |values|
  {
    if |values| > 0 {
      var key, rest := SortKey(values[0], wordNumber), values[1..];
      assert values == [values[0]] + rest;
      InsertPairSpec(d, key, values[0], wordNumber);
      AddAllResult(InsertPair(d, key, values[0]), rest, wordNumber);
    }
  }

  /** A failed add names a sort key of one of the values that is already a key or belongs to an earlier value. */
  lemma {:induction false} AddAllFailure(d: seq<(string, string)>, values: seq<string>, wordNumber: int)
    requires AddAll(d, values, wordNumber).Failure?
    ensures var key := AddAll(d, values, wordNumber).error;
      exists i :: 0 <= i < |values| && SortKey(values[i], wordNumber) == key &&
        (key in Keys(d) || exists j :: 0 <= j < i && SortKey(values[j], wordNumber) == key)
    decreases |values|
  {
    var key, rest := SortKey(values[0], wordNumber), values[1..];
    if key !in Keys(d) {
      var d' := InsertPair(d, key, values[0]);
      InsertPairKeyMembership(d, key, values[0]);
      AddAllFailure(d', rest, wordNumber);
      var k := AddAll(d, values, wordNumber).error;
      var i :| 0 <= i < |rest| && SortKey(rest[i], wordNumber) == k &&
        (k in Keys(d') || exists j :: 0 <= j < i && SortKey(rest[j], wordNumber) == k);
      assert values[i + 1] == rest[i];
      if k !in Keys(d) && k == key {
        assert SortKey(values[0], wordNumber) == k;
      } else if k !in Keys(d) {
        var j :| 0 <= j < i && SortKey(rest[j], wordNumber) == k;
        assert values[j + 1] == rest[j];
      }
    }
  }

  /** The values in ascending sort-key order, or the first sort key seen twice. */
  function SortedOnWord(values: seq<string>, wordNumber: int): (r: Result<seq<string>, string>)
  {
    match AddAll([], values, wordNumber)
    case Success(d) => Success(Values(d))
    case Failure(key) => Failure(key)
  }

  /**
   * The word-sorted list exists exactly when no two values share a sort key;
   * it is then a permutation of the values in strictly ascending sort-key
   * order; otherwise the error names a sort key that two of the values share.
   */
  lemma SortedOnWordSpec(values: seq<string>, wordNumber: int)
    ensures SortedOnWord(values, wordNumber).Success? <==> SortKeysDistinct(values, wordNumber)
    ensures SortedOnWord(values, wordNumber).Success? ==>
      var sorted := SortedOnWord(values, wordNumber).value;
      multiset(sorted) == multiset(values) &&
      forall i, j :: 0 <= i < j < |sorted| ==>
        OrdinalLess(SortKey(sorted[i], wordNumber), SortKey(sorted[j], wordNumber))
    ensures SortedOnWord(values, wordNumber).Failure? ==>
      var key := SortedOnWord(values, wordNumber).error;
      exists i, j :: 0 <= j < i < |values| &&
        SortKey(values[i], wordNumber) == key && SortKey(values[j], wordNumber) == key
  {
    AddAllSucceeds([], values, wordNumber);
    match AddAll([], values, wordNumber)
    case Success(d) =>
      AddAllResult([], values, wordNumber);
      assert Values([]) == [];
      var sorted := Values(d);
      forall i, j | 0 <= i < j < |sorted|
        ensures OrdinalLess(SortKey(sorted[i], wordNumber), SortKey(sorted[j], wordNumber))
      {
        assert d[i].0 == SortKey(sorted[i], wordNumber);
        assert d[j].0 == SortKey(sorted[j], wordNumber);
      }
    case Failure(key) =>
      AddAllFailure([], values, wordNumber);
  }

  /** Strictly ascending sort keys. */
  predicate SortKeysAscending(s: seq<string>, wordNumber: int)
  {
    forall i, j :: 0 <= i < j < |s| ==> OrdinalLess(SortKey(s[i], wordNumber), SortKey(s[j], wordNumber))
  }

  lemma SortKeysAscendingTail(a: seq<string>, wordNumber: int)
    requires |a| > 0 && SortKeysAscending(a, wordNumber)
    ensures SortKeysAscending(a[1..], wordNumber)
  {
    forall i, j | 0 <= i < j < |a| - 1
      ensures OrdinalLess(SortKey(a[1..][i], wordNumber), SortKey(a[1..][j], wordNumber))
    {
      assert a[1..][i] == a[i + 1] && a[1..][j] == a[j + 1];
    }
  }

  lemma SortKeysAscendingHead(a: seq<string>, b: seq<string>, wordNumber: int)
    requires SortKeysAscending(a, wordNumber) && SortKeysAscending(b, wordNumber)
    requires |a| > 0 && |b| > 0 && a[0] in b && b[0] in a
    ensures a[0] == b[0]
  {
    var i :| 0 <= i < |a| && a[i] == b[0];
    var j :| 0 <= j < |b| && b[j] == a[0];
    if i != 0 && j != 0 {
      OrdinalAsymmetric(SortKey(a[0], wordNumber), SortKey(a[i], wordNumber));
    }
  }

  lemma MultisetTail(a: seq<string>, b: seq<string>)
    requires |a| > 0 && |b| > 0 && a[0] == b[0] && multiset(a) == multiset(b)
    ensures multiset(a[1..]) == multiset(b[1..])
  {
    assert a == [a[0]] + a[1..] && b == [b[0]] + b[1..];
    var ta, tb := multiset(a[1..]), multiset(b[1..]);
    assert multiset(a) == multiset{a[0]} + ta;
    assert multiset(b) == multiset{a[0]} + tb;
    forall x
      ensures ta[x] == tb[x]
    {
      assert multiset(a)[x] == multiset{a[0]}[x] + ta[x];
      assert multiset(b)[x] == multiset{a[0]}[x] + tb[x];
    }
    assert ta == tb;
  }

  lemma MultisetHeads(a: seq<string>, b: seq<string>)
    requires |a| > 0 && |b| > 0 && multiset(a) == multiset(b)
    ensures a[0] in b && b[0] in a
  {
    assert a[0] in multiset(b);
    assert b[0] in multiset(a);
  }

  /** Two arrangements of the same values with strictly ascending sort keys are equal. */
  lemma {:induction false} SortKeysAscendingUnique(a: seq<string>, b: seq<string>, wordNumber: int)
    requires SortKeysAscending(a, wordNumber) && SortKeysAscending(b, wordNumber)
    requires multiset(a) == multiset(b)
    ensures a == b
  {
    if |a| > 0 && |b| > 0 {
      MultisetHeads(a, b);
      SortKeysAscendingHead(a, b, wordNumber);
      MultisetTail(a, b);
      SortKeysAscendingTail(a, wordNumber);
      SortKeysAscendingTail(b, wordNumber);
      SortKeysAscendingUnique(a[1..], b[1..], wordNumber);
      assert a == [a[0]] + a[1..] && b == [b[0]] + b[1..];
    } else {
      assert |a| == |multiset(a)| && |b| == |multiset(b)|;
    }
  }

  /**
   * When no two values share a sort key, the word-sorted list is the only
   * arrangement of the values with strictly ascending sort keys.
   */
  lemma SortedOnWordUnique(values: seq<string>, wordNumber: int, sorted: seq<string>)
    requires SortKeysDistinct(values, wordNumber)
    requires multiset(sorted) == multiset(values) && SortKeysAscending(sorted, wordNumber)
    ensures SortedOnWord(values, wordNumber) == Success(sorted)
  {
    SortedOnWordSpec(values, wordNumber);
    SortKeysAscendingUnique(SortedOnWord(values, wordNumber).value, sorted, wordNumber);
  }

  /** Strictly ascending sort keys are pairwise distinct. */
  lemma SortKeysAscendingDistinct(s: seq<string>, wordNumber: int)
    requires SortKeysAscending(s, wordNumber)
    ensures SortKeysDistinct(s, wordNumber)
  {
    forall i, j | 0 <= i < j < |s|
      ensures SortKey(s[i], wordNumber) != SortKey(s[j], wordNumber)
    {
      OrdinalIrreflexive(SortKey(s[i], wordNumber));
    }
  }

  /** Keys ascending between neighbours are ascending throughout. */
  lemma {:induction false} SortKeysAscendingFromAdjacent(s: seq<string>, wordNumber: int)
    requires forall i :: 0 <= i < |s| - 1 ==> OrdinalLess(SortKey(s[i], wordNumber), SortKey(s[i + 1], wordNumber))
    ensures SortKeysAscending(s, wordNumber)
  {
    if |s| > 1 {
      var t := s[1..];
      assert forall i :: 0 <= i < |t| ==> t[i] == s[i + 1];
      SortKeysAscendingFromAdjacent(t, wordNumber);
      forall j | 1 < j < |s|
        ensures OrdinalLess(SortKey(s[0], wordNumber), SortKey(s[j], wordNumber))
      {
        assert OrdinalLess(SortKey(t[0], wordNumber), SortKey(t[j - 1], wordNumber));
        OrdinalTransitive(SortKey(s[0], wordNumber), SortKey(s[1], wordNumber), SortKey(s[j], wordNumber));
      }
    }
  }

  /** A value counted at least twice occurs at two positions. */
  lemma {:induction false} TwoPositions(s: seq<string>, v: string)
    requires multiset(s)[v] >= 2
    ensures exists i, j :: 0 <= i < j < |s| && s[i] == v && s[j] == v
  {
    var t := s[1..];
    assert s == [s[0]] + t;
    assert multiset(s) == multiset{s[0]} + multiset(t);
    if s[0] == v {
      assert v in multiset(t);
      var j :| 0 <= j < |t| && t[j] == v;
      assert s[j + 1] == v;
    } else {
      TwoPositions(t, v);
      var i, j :| 0 <= i < j < |t| && t[i] == v && t[j] == v;
      assert s[i + 1] == v && s[j + 1] == v;
    }
  }

  /** A value at two positions is counted at least twice. */
  lemma TwoPositionsCounted(s: seq<string>, i: nat, j: nat)
    requires i < j < |s| && s[i] == s[j]
    ensures multiset(s)[s[i]] >= 2
  {
    var v := s[i];
    assert s == s[..j] + s[j..];
    assert s[..j][i] == v && s[j..][0] == v;
    assert multiset(s) == multiset(s[..j]) + multiset(s[j..]);
    assert v in multiset(s[..j]) && v in multiset(s[j..]);
  }

  /** No value occurs twice and different values have different sort keys. */
  predicate KeysSeparate(m: multiset<string>, wordNumber: int)
  {
    (forall v :: v in m ==> m[v] == 1) &&
    (forall v, w :: v in m && w in m && v != w ==> SortKey(v, wordNumber) != SortKey(w, wordNumber))
  }

  /** Distinct sort keys is a property of the multiset of values alone. */
  lemma SortKeysDistinctByMultiset(s: seq<string>, wordNumber: int)
    ensures SortKeysDistinct(s, wordNumber) <==> KeysSeparate(multiset(s), wordNumber)
  {
    var m := multiset(s);
    if SortKeysDistinct(s, wordNumber) {
      forall v | v in m
        ensures m[v] == 1
      {
        if m[v] >= 2 {
          TwoPositions(s, v);
        }
      }
      forall v, w | v in m && w in m && v != w
        ensures SortKey(v, wordNumber) != SortKey(w, wordNumber)
      {
        var i :| 0 <= i < |s| && s[i] == v;
        var j :| 0 <= j < |s| && s[j] == w;
        assert i != j;
      }
    }
    if KeysSeparate(m, wordNumber) {
      forall i, j | 0 <= i < j < |s|
        ensures SortKey(s[i], wordNumber) != SortKey(s[j], wordNumber)
      {
        assert s[i] in m && s[j] in m;
        if s[i] == s[j] {
          TwoPositionsCounted(s, i, j);
        }
      }
    }
  }

  /**
   * The word sort does not depend on the order of the values: it succeeds
   * for every arrangement or for none, and then gives the same list.
   */
  lemma SortedOnWordPermutation(a: seq<string>, b: seq<string>, wordNumber: int)
    requires multiset(a) == multiset(b)
    ensures SortedOnWord(a, wordNumber).Success? <==> SortedOnWord(b, wordNumber).Success?
    ensures SortedOnWord(a, wordNumber).Success? ==> SortedOnWord(a, wordNumber) == SortedOnWord(b, wordNumber)
  {
    SortedOnWordSpec(a, wordNumber);
    SortedOnWordSpec(b, wordNumber);
    SortKeysDistinctByMultiset(a, wordNumber);
    SortKeysDistinctByMultiset(b, wordNumber);
    if SortedOnWord(a, wordNumber).Success? {
      SortedOnWordUnique(b, wordNumber, SortedOnWord(a, wordNumber).value);
    }
  }

  /** Any arrangement of the values with strictly ascending sort keys is the word-sorted list. */
  lemma SortedOnWordOfArrangement(values: seq<string>, sorted: seq<string>, wordNumber: int)
    requires multiset(sorted) == multiset(values) && SortKeysAscending(sorted, wordNumber)
    ensures SortedOnWord(values, wordNumber) == Success(sorted)
  {
    SortKeysAscendingDistinct(sorted, wordNumber);
    SortKeysDistinctByMultiset(sorted, wordNumber);
    SortKeysDistinctByMultiset(values, wordNumber);
    SortedOnWordUnique(values, wordNumber, sorted);
  }

  /** The word-sorted list of a named column of the table. */
  function SortedColumn(table: Table, fieldName: string, wordNumber: int): (r: Result<seq<string>, ImportError>)
    requires WellFormed(table)
  {
    match ColumnValues(table, fieldName)
    case None => Failure(ColumnNotFound(fieldName))
    case Some(values) =>
      match SortedOnWord(values, wordNumber)
      case Success(sorted) => Success(sorted)
      case Failure(key) => Failure(DuplicateSortKey(key))
  }

  /** Adds every value of the column to a sorted dictionary under its sort key, then lists the values in key order. */
  method GetListSortedOnWordX(table: Table, fieldName: string, wordNumber: int)
    returns (r: Result<seq<string>, ImportError>)
    requires WellFormed(table)
    ensures r == SortedColumn(table, fieldName, wordNumber)
  {
    var column := ColumnValues(table, fieldName);
    if column.None? {
      return Failure(ColumnNotFound(fieldName));
    }
    var allDataForColumn := column.value;
    var sortedDict: seq<(string, string)> := [];
    for i := 0 to |allDataForColumn|
      invariant AddAll(sortedDict, allDataForColumn[i..], wordNumber) == AddAll([], allDataForColumn, wordNumber)
    {
      var value := allDataForColumn[i];
      var words := Split(value, ' ');
      var wordsToSort := Skip(words, wordNumber - 1);
      var phraseToSort := Aggregate("", wordsToSort);
      assert allDataForColumn[i..][1..] == allDataForColumn[i + 1..];
      if phraseToSort in Keys(sortedDict) {
        return Failure(DuplicateSortKey(phraseToSort));
      }
      sortedDict := InsertPair(sortedDict, phraseToSort, value);
    }
    r := Success(Values(sortedDict));
  }

  // =====================================================================
  // Report assembly
  // =====================================================================

  /** The FirstName frequency report, a " " line, then the LastName frequency report. */
  function NameReport(table: Table): (r: Result<seq<string>, ImportError>)
    requires WellFormed(table)
  {
    match FrequencyOfColumn(table, "FirstName")
    case Failure(e) => Failure(e)
    case Success(first) =>
      match FrequencyOfColumn(table, "LastName")
      case Failure(e) => Failure(e)
      case Success(last) => Success(first + [LineDelimiter] + last)
  }

  /**
   * The name report exists iff both name columns can be read; it is then the
   * FirstName report, " " and the LastName report. A missing FirstName column
   * is reported before a missing LastName column.
   */
  lemma NameReportSpec(table: Table)
    requires WellFormed(table)
    ensures NameReport(table).Success? <==>
      ColumnValues(table, "FirstName").Some? && ColumnValues(table, "LastName").Some?
    ensures NameReport(table).Success? ==>
      NameReport(table).value == FrequencyReport(ColumnValues(table, "FirstName").value) + [LineDelimiter]
        + FrequencyReport(ColumnValues(table, "LastName").value)
    ensures ColumnValues(table, "FirstName").None? ==> NameReport(table) == Failure(ColumnNotFound("FirstName"))
    ensures ColumnValues(table, "FirstName").Some? && ColumnValues(table, "LastName").None? ==>
      NameReport(table) == Failure(ColumnNotFound("LastName"))
  {
  }

  method GetFirstNameLastNameReport(table: Table) returns (r: Result<seq<string>, ImportError>)
    requires WellFormed(table)
    ensures r == NameReport(table)
  {
    var reportFirstNamesFrequency := GetDataFrequency(table, "FirstName");
    if reportFirstNamesFrequency.Failure? {
      return Failure(reportFirstNamesFrequency.error);
    }
    var reportLastNamesFrequency := GetDataFrequency(table, "LastName");
    if reportLastNamesFrequency.Failure? {
      return Failure(reportLastNamesFrequency.error);
    }
    var firstNameLastNameReport := reportFirstNamesFrequency.value;
    firstNameLastNameReport := firstNameLastNameReport + [LineDelimiter];
    firstNameLastNameReport := firstNameLastNameReport + reportLastNamesFrequency.value;
    r := Success(firstNameLastNameReport);
  }

  /** The two reports the importer produces from a table: the name report, then the address list. */
  function Reports(table: Table): (r: Result<seq<seq<string>>, ImportError>)
    requires WellFormed(table)
  {
    match NameReport(table)
    case Failure(e) => Failure(e)
    case Success(names) =>
      match SortedColumn(table, "Address", 2)
      case Failure(e) => Failure(e)
      case Success(addresses) => Success([names, addresses])
  }

  /**
   * The reports exist iff the three columns can be read and no two addresses
   * share a sort key; they are then the name report and the address list.
   * Otherwise the error is the first missing column, in the order FirstName,
   * LastName, Address, or the shared sort key.
   */
  lemma ReportsSpec(table: Table)
    requires WellFormed(table)
    ensures Reports(table).Success? <==>
      ColumnValues(table, "FirstName").Some? && ColumnValues(table, "LastName").Some? &&
      ColumnValues(table, "Address").Some? && SortedOnWord(ColumnValues(table, "Address").value, 2).Success?
    ensures Reports(table).Success? ==>
      Reports(table).value == [NameReport(table).value, SortedOnWord(ColumnValues(table, "Address").value, 2).value]
    ensures ColumnValues(table, "FirstName").None? ==> Reports(table) == Failure(ColumnNotFound("FirstName"))
    ensures ColumnValues(table, "FirstName").Some? && ColumnValues(table, "LastName").None? ==>
      Reports(table) == Failure(ColumnNotFound("LastName"))
    ensures NameReport(table).Success? && ColumnValues(table, "Address").None? ==>
      Reports(table) == Failure(ColumnNotFound("Address"))
    ensures (NameReport(table).Success? && ColumnValues(table, "Address").Some? &&
             SortedOnWord(ColumnValues(table, "Address").value, 2).Failure?) ==>
      Reports(table) == Failure(DuplicateSortKey(SortedOnWord(ColumnValues(table, "Address").value, 2).error))
  {
    NameReportSpec(table);
  }

  /** What processing a header-bearing input produces: the reports, or the first error. */
  function ProcessedReports(lines: seq<string>): (r: Result<seq<seq<string>>, ImportError>)
  {
    match Parse(lines, true)
    case Failure(m) => Failure(ColumnsMismatch(m))
    case Success(p) =>
      TableOfRead(lines, true);
      Reports(TableOf(p.header, Some(p.data)))
  }

  /**
   * A read that fails stops processing with its mismatch; a read that
   * succeeds is processed into the reports of the table loaded from it.
   */
  lemma ProcessedReportsSpec(lines: seq<string>)
    ensures Parse(lines, true).Failure? ==>
      ProcessedReports(lines) == Failure(ColumnsMismatch(Parse(lines, true).error))
    ensures Parse(lines, true).Success? ==>
      var p := Parse(lines, true).value;
      var t := TableOf(p.header, Some(p.data));
      WellFormed(t) && ProcessedReports(lines) == Reports(t)
  {
    if Parse(lines, true).Success? {
      TableOfRead(lines, true);
    }
  }

  /**
   * In return mode the assembled output is the FirstName frequency report,
   * " ", the LastName frequency report, " ", then the address list.
   */
  lemma ReturnModeLayout(lines: seq<string>)
    requires ProcessedReports(lines).Success?
    ensures var p := Parse(lines, true).value;
      var t := TableOf(p.header, Some(p.data));
      WellFormed(t) &&
      (|t.rows| > 0 ==> "FirstName" in t.columns && "LastName" in t.columns && "Address" in t.columns) &&
      ColumnValues(t, "FirstName").Some? && ColumnValues(t, "LastName").Some? &&
      ColumnValues(t, "Address").Some? &&
      SortedOnWord(ColumnValues(t, "Address").value, 2).Success? &&
      Join(ProcessedReports(lines).value, LineDelimiter) ==
        FrequencyReport(ColumnValues(t, "FirstName").value) + [LineDelimiter]
        + FrequencyReport(ColumnValues(t, "LastName").value) + [LineDelimiter]
        + SortedOnWord(ColumnValues(t, "Address").value, 2).value
  {
    TableOfRead(lines, true);
    var reports := ProcessedReports(lines).value;
    assert reports[1..] == [reports[1]];
  }

  /** The importer over in-memory lines with an optional target folder. */
  class CustomImport {
    const csvReader: CsvReader
    const targetFolderOutput: Option<string>
    var reportOutput: Option<seq<string>>

    ghost predicate Valid()
      reads this, csvReader
    {
      csvReader.Valid() && csvReader.containsHeader
    }

    /** A header-bearing reader over the lines; no target folder means return mode. */
    constructor (csvData: seq<string>, targetFolderOutput: Option<string>)
      ensures Valid() && fresh(csvReader)
      ensures csvReader.csvData == csvData && !csvReader.isPopulated
      ensures this.targetFolderOutput == targetFolderOutput && reportOutput == None
    {
      csvReader := new CsvReader(csvData, true);
      this.targetFolderOutput := targetFolderOutput;
      reportOutput := None;
    }

    /** Runs the reader. */
    method ImportData() returns (err: Option<Mismatch>)
      requires Valid()
      modifies csvReader
      ensures Valid()
      ensures err == Parse(csvReader.csvData, true).ErrorOption()
      ensures csvReader.header == HeaderOf(csvReader.csvData, true)
      ensures err.None? ==> csvReader.isPopulated && csvReader.data == Some(Parse(csvReader.csvData, true).value.data)
      ensures err.Some? ==> csvReader.data == old(csvReader.data) && csvReader.isPopulated == old(csvReader.isPopulated)
    {
      err := csvReader.Read();
    }

    /**
     * Builds the table (reading first if the reader is not populated), then
     * both reports; in return mode (target folder null or white space)
     * ReportOutput becomes the assembled reports, in write mode it is left as it was.
     */
    method ProcessOutput() returns (err: Option<ImportError>)
      requires Valid()
      modifies this, csvReader
      ensures Valid()
      ensures old(csvReader.isPopulated) ==> unchanged(csvReader)
      ensures csvReader.header == HeaderOf(csvReader.csvData, true)
      ensures Parse(csvReader.csvData, true).Success? ==> csvReader.isPopulated
      ensures Parse(csvReader.csvData, true).Failure? ==>
        csvReader.data == old(csvReader.data) && csvReader.isPopulated == old(csvReader.isPopulated)
      ensures err == ProcessedReports(csvReader.csvData).ErrorOption()
      ensures match ProcessedReports(csvReader.csvData)
        case Success(reports) =>
          reportOutput == if IsNullOrWhiteSpace(targetFolderOutput) then Some(Join(reports, LineDelimiter)) else old(reportOutput)
        case Failure(_) => reportOutput == old(reportOutput)
    {
      var table := AsDataTable(csvReader);
      if table.Failure? {
        return Some(ColumnsMismatch(table.error));
      }
      TableOfRead(csvReader.csvData, true);
      var rows := table.value.View();
      var firstNameLastNameReport := GetFirstNameLastNameReport(rows);
      if firstNameLastNameReport.Failure? {
        return Some(firstNameLastNameReport.error);
      }
      var addressListSortedOnStreetName := GetListSortedOnWordX(rows, "Address", 2);
      if addressListSortedOnStreetName.Failure? {
        return Some(addressListSortedOnStreetName.error);
      }
      if !IsNullOrWhiteSpace(targetFolderOutput) {
        // Write mode: each report goes to its own file; file output is not part of this model.
      } else {
        SetReportOutput([firstNameLastNameReport.value, addressListSortedOnStreetName.value]);
      }
      err := None;
    }

    /** Appends every report to ReportOutput, with a " " line after each report but the last. */
    method SetReportOutput(lists: seq<seq<string>>)
      modifies this`reportOutput
      ensures reportOutput == Some(Join(lists, LineDelimiter))
    {
      var output: seq<string> := [];
      for i := 0 to |lists|
        invariant output == if i == 0 then [] else Join(lists[..i], LineDelimiter) + if i < |lists| then [LineDelimiter] else []
      {
        var list := lists[i];
        if i > 0 {
          JoinAppend(lists[..i], list, LineDelimiter);
        }
        assert lists[..i + 1] == lists[..i] + [list];
        output := output + list;
        if i < |lists| - 1 {
          output := output + [LineDelimiter];
        }
      }
      if |lists| > 0 {
        assert lists[..|lists|] == lists;
        assert output == Join(lists, LineDelimiter);
      } else {
        assert output == [];
        assert Join(lists, LineDelimiter) == [];
      }
      reportOutput := Some(output);
    }
  }

  /**
   * An importer over in-memory lines with no target folder, run as the
   * repository's tests run it: ImportData, then ProcessOutput. A column-count
   * mismatch stops the run at ImportData, with a message naming the mismatch;
   * otherwise ReportOutput is the two reports joined with a " " line.
   */
  method ReturnModeRun(lines: seq<string>) returns (importer: CustomImport, err: Option<ImportError>)
    ensures fresh(importer) && importer.Valid() && importer.csvReader.csvData == lines
    ensures err == ProcessedReports(lines).ErrorOption()
    ensures Parse(lines, true).Failure? ==>
      err == Some(ColumnsMismatch(Parse(lines, true).error)) &&
      IsInfix(MismatchPhrase, Message(err.value.mismatch)) && importer.reportOutput == None
    ensures ProcessedReports(lines).Success? ==>
      importer.reportOutput == Some(Join(ProcessedReports(lines).value, LineDelimiter))
  {
    importer := new CustomImport(lines, None);
    var readErr := importer.ImportData();
    if readErr.Some? {
      MessageMentionsMismatch(readErr.value);
      return importer, Some(ColumnsMismatch(readErr.value));
    }
    err := importer.ProcessOutput();
  }
}
