/**
 * The string primitives the importer relies on: splitting on a single
 * separator (`String.Split(char)`), joining with a separator, rendering a
 * number in decimal (`int.ToString()`), ordinal string comparison and
 * `string.IsNullOrWhiteSpace`.
 */
module Text {
  import opened Wrappers

  // ---------------------------------------------------------------------
  // Splitting and joining on one separator element
  // ---------------------------------------------------------------------

  /**
   * `s.Split(sep)`: the maximal runs of `s` between separators, in order.
   * There is no quoting and no trimming; `n` separators give `n + 1` parts,
   * so the empty sequence gives one empty part.
   */
  function Split<T(==)>(s: seq<T>, sep: T): (parts: seq<seq<T>>)
    ensures |parts| > 0
  {
    if |s| == 0 then [[]]
    else
      var rest := Split(s[1..], sep);
      if s[0] == sep then [[]] + rest
      else [[s[0]] + rest[0]] + rest[1..]
  }

  /** `String.Join(sep, parts)`: the parts with one separator between neighbours. */
  function Join<T>(parts: seq<seq<T>>, sep: T): (r: seq<T>)
  {
    if |parts| == 0 then []
    else if |parts| == 1 then parts[0]
    else parts[0] + [sep] + Join(parts[1..], sep)
  }

  /** No part contains the separator. */
  predicate SeparatorFree<T(==)>(parts: seq<seq<T>>, sep: T)
  {
    forall i :: 0 <= i < |parts| ==> sep !in parts[i]
  }

  /** Total length of all parts. */
  function TotalLength<T>(parts: seq<seq<T>>): (r: nat)
  {
    if |parts| == 0 then 0 else |parts[0]| + TotalLength(parts[1..])
  }

  /** The number of parts is the number of separators plus one. */
  lemma {:induction false} SplitCount<T>(s: seq<T>, sep: T)
    ensures |Split(s, sep)| == multiset(s)[sep] + 1
  {
    if |s| > 0 {
      SplitCount(s[1..], sep);
      assert s == [s[0]] + s[1..];
      assert multiset(s) == multiset{s[0]} + multiset(s[1..]);
    }
  }

  /** Splitting removes every separator: no part contains one. */
  lemma {:induction false} SplitSeparatorFree<T>(s: seq<T>, sep: T)
    ensures SeparatorFree(Split(s, sep), sep)
  {
    if |s| > 0 {
      SplitSeparatorFree(s[1..], sep);
      var rest := Split(s[1..], sep);
      if s[0] != sep {
        assert sep !in rest[0];
        assert sep !in [s[0]] + rest[0];
      }
    }
  }

  /** Joining the parts of a split gives back the original sequence. */
  lemma {:induction false} JoinSplit<T>(s: seq<T>, sep: T)
    ensures Join(Split(s, sep), sep) == s
  {
    if |s| > 0 {
      JoinSplit(s[1..], sep);
      var rest := Split(s[1..], sep);
      if s[0] == sep {
        assert ([[]] + rest)[1..] == rest;
        assert Join([[]] + rest, sep) == [] + [sep] + Join(rest, sep);
      } else {
        var first := [s[0]] + rest[0];
        if |rest| == 1 {
          assert Join([first] + rest[1..], sep) == first;
        } else {
          assert ([first] + rest[1..])[1..] == rest[1..];
          assert Join([first] + rest[1..], sep) == first + [sep] + Join(rest[1..], sep);
          assert Join(rest, sep) == rest[0] + [sep] + Join(rest[1..], sep);
        }
        assert s == [s[0]] + s[1..];
      }
    }
  }

  /** A sequence without the separator splits into itself alone. */
  lemma {:induction false} SplitWithoutSeparator<T>(p: seq<T>, sep: T)
    requires sep !in p
    ensures Split(p, sep) == [p]
  {
    if |p| > 0 {
      SplitWithoutSeparator(p[1..], sep);
      assert [p[0]] + p[1..] == p;
    }
  }

  /** Splitting `p + [sep] + t` peels `p` off as the first part. */
  lemma {:induction false} SplitAfterPart<T>(p: seq<T>, sep: T, t: seq<T>)
    requires sep !in p
    ensures Split(p + [sep] + t, sep) == [p] + Split(t, sep)
  {
    var s := p + [sep] + t;
    if |p| == 0 {
      assert s == [sep] + t;
      assert s[1..] == t;
    } else {
      SplitAfterPart(p[1..], sep, t);
      assert s[0] == p[0];
      assert s[1..] == p[1..] + [sep] + t;
      assert [p[0]] + p[1..] == p;
    }
  }

  /** Splitting a join of separator-free parts gives back the parts. */
  lemma {:induction false} SplitJoin<T>(parts: seq<seq<T>>, sep: T)
    requires |parts| > 0 && SeparatorFree(parts, sep)
    ensures Split(Join(parts, sep), sep) == parts
  {
    if |parts| == 1 {
      SplitWithoutSeparator(parts[0], sep);
    } else {
      SplitJoin(parts[1..], sep);
      SplitAfterPart(parts[0], sep, Join(parts[1..], sep));
      assert [parts[0]] + parts[1..] == parts;
    }
  }

  /** Appending one more part adds one separator and that part. */
  lemma {:induction false} JoinAppend<T>(parts: seq<seq<T>>, x: seq<T>, sep: T)
    requires |parts| > 0
    ensures Join(parts + [x], sep) == Join(parts, sep) + [sep] + x
  {
    if |parts| == 1 {
      assert (parts + [x])[1..] == [x];
    } else {
      JoinAppend(parts[1..], x, sep);
      assert (parts + [x])[1..] == parts[1..] + [x];
    }
  }

  /** The join is as long as the parts together plus one separator per gap. */
  lemma {:induction false} JoinLength<T>(parts: seq<seq<T>>, sep: T)
    requires |parts| > 0
    ensures |Join(parts, sep)| == TotalLength(parts) + |parts| - 1
  {
    if |parts| > 1 {
      JoinLength(parts[1..], sep);
    }
  }

  /** Where part `k` starts in the join: the lengths before it plus k separators. */
  function PartStart<T>(parts: seq<seq<T>>, k: nat): (r: nat)
    requires k <= |parts|
  {
    TotalLength(parts[..k]) + k
  }

  lemma {:induction false} TotalLengthPrefix<T>(parts: seq<seq<T>>, k: nat)
    requires 0 < k <= |parts|
    ensures TotalLength(parts[..k]) == |parts[0]| + TotalLength(parts[1..][..k - 1])
  {
    assert parts[..k][1..] == parts[1..][..k - 1];
  }

  /**
   * The join holds every part, in order, at its start position, and exactly
   * one separator right after every part except the last.
   */
  lemma {:induction false} JoinLayout<T>(parts: seq<seq<T>>, sep: T, k: nat)
    requires k < |parts|
    ensures PartStart(parts, k) + |parts[k]| <= |Join(parts, sep)|
    ensures Join(parts, sep)[PartStart(parts, k)..PartStart(parts, k) + |parts[k]|] == parts[k]
    ensures k + 1 < |parts| ==>
      PartStart(parts, k) + |parts[k]| < |Join(parts, sep)| &&
      Join(parts, sep)[PartStart(parts, k) + |parts[k]|] == sep
    ensures k + 1 == |parts| ==> PartStart(parts, k) + |parts[k]| == |Join(parts, sep)|
  {
    var j := Join(parts, sep);
    if k == 0 {
      assert parts[..0] == [];
      if |parts| > 1 {
        assert j == parts[0] + [sep] + Join(parts[1..], sep);
      }
    } else {
      JoinLayout(parts[1..], sep, k - 1);
      TotalLengthPrefix(parts, k);
      var tail := Join(parts[1..], sep);
      assert j == parts[0] + [sep] + tail;
      var s := PartStart(parts[1..], k - 1);
      assert PartStart(parts, k) == |parts[0]| + 1 + s;
      assert j[PartStart(parts, k)..PartStart(parts, k) + |parts[k]|] == tail[s..s + |parts[k]|];
    }
  }

  /** `t` occurs in `s` as a contiguous block (`String.Contains`). */
  ghost predicate IsInfix<T>(t: seq<T>, s: seq<T>)
  {
    exists i :: OccursAt(t, s, i)
  }

  /** `t` occurs in `s` starting at position i. */
  predicate OccursAt<T(==)>(t: seq<T>, s: seq<T>, i: int)
  {
    0 <= i && i + |t| <= |s| && s[i..i + |t|] == t
  }

  // ---------------------------------------------------------------------
  // Decimal rendering of natural numbers
  // ---------------------------------------------------------------------

  predicate IsDigit(c: char)
  {
    '0' <= c <= '9'
  }

  predicate AllDigits(s: string)
  {
    forall i :: 0 <= i < |s| ==> IsDigit(s[i])
  }

  function DigitChar(d: nat): (c: char)
    requires d < 10
    ensures IsDigit(c)
  {
    (48 + d) as char
  }

  function DigitValue(c: char): (d: nat)
    requires IsDigit(c)
    ensures d < 10
  {
    c as int - 48
  }

  /** `n.ToString()`: the shortest decimal numeral of `n`. */
  function NatToString(n: nat): (s: string)
    decreases n
  {
    if n < 10 then [DigitChar(n)]
    else NatToString(n / 10) + [DigitChar(n % 10)]
  }

  /** The value of a decimal numeral (the inverse of NatToString). */
  function ParseNat(s: string): (r: nat)
    requires AllDigits(s)
  {
    if |s| == 0 then 0
    else ParseNat(s[..|s| - 1]) * 10 + DigitValue(s[|s| - 1])
  }

  /**
   * A numeral is a non-empty string of digits with no leading zero that
   * reads back as the number it renders.
   */
  lemma {:induction false} NatToStringRoundTrip(n: nat)
    ensures |NatToString(n)| > 0 && AllDigits(NatToString(n))
    ensures |NatToString(n)| > 1 ==> NatToString(n)[0] != '0'
    ensures ParseNat(NatToString(n)) == n
  {
    if n >= 10 {
      NatToStringRoundTrip(n / 10);
      var s := NatToString(n);
      assert s[..|s| - 1] == NatToString(n / 10);
    }
  }

  /** Distinct numbers have distinct numerals. */
  lemma NatToStringInjective(a: nat, b: nat)
    requires NatToString(a) == NatToString(b)
    ensures a == b
  {
    NatToStringRoundTrip(a);
    NatToStringRoundTrip(b);
  }

  // ---------------------------------------------------------------------
  // Ordinal order on strings
  // ---------------------------------------------------------------------

  /**
   * Ordinal (character by character) lexicographic order: a proper prefix
   * comes first, otherwise the first differing character decides.
   */
  predicate OrdinalLess(a: string, b: string)
  {
    if |a| == 0 then |b| > 0
    else |b| > 0 && (a[0] < b[0] || (a[0] == b[0] && OrdinalLess(a[1..], b[1..])))
  }

  lemma {:induction false} OrdinalIrreflexive(a: string)
    ensures !OrdinalLess(a, a)
  {
    if |a| > 0 {
      OrdinalIrreflexive(a[1..]);
    }
  }

  lemma {:induction false} OrdinalTransitive(a: string, b: string, c: string)
    requires OrdinalLess(a, b) && OrdinalLess(b, c)
    ensures OrdinalLess(a, c)
  {
    if |a| > 0 && a[0] == b[0] && b[0] == c[0] {
      OrdinalTransitive(a[1..], b[1..], c[1..]);
    }
  }

  lemma {:induction false} OrdinalTotal(a: string, b: string)
    ensures a == b || OrdinalLess(a, b) || OrdinalLess(b, a)
  {
    if |a| > 0 && |b| > 0 && a[0] == b[0] {
      OrdinalTotal(a[1..], b[1..]);
      if a[1..] == b[1..] {
        assert a == [a[0]] + a[1..] && b == [b[0]] + b[1..];
      }
    }
  }

  lemma OrdinalAsymmetric(a: string, b: string)
    requires OrdinalLess(a, b)
    ensures !OrdinalLess(b, a)
  {
    if OrdinalLess(b, a) {
      OrdinalTransitive(a, b, a);
      OrdinalIrreflexive(a);
    }
  }

  // ---------------------------------------------------------------------
  // White space
  // ---------------------------------------------------------------------

  /** `Char.IsWhiteSpace`: the Unicode space, line and paragraph separators and the C0/C1 controls U+0009..U+000D, U+0085. */
  predicate IsWhiteSpace(c: char)
  {
    c == ' ' || ('\t' <= c <= '\r') || c == '\U{0085}' || c == '\U{00A0}' || c == '\U{1680}'
    || ('\U{2000}' <= c <= '\U{200A}') || c == '\U{2028}' || c == '\U{2029}'
    || c == '\U{202F}' || c == '\U{205F}' || c == '\U{3000}'
  }

  /** `string.IsNullOrWhiteSpace`: absent, empty, or white space only. */
  predicate IsNullOrWhiteSpace(s: Option<string>)
  {
    s.None? || forall i :: 0 <= i < |s.value| ==> IsWhiteSpace(s.value[i])
  }

  /** Null and empty count as white space; a text holding a visible ASCII character does not. */
  lemma IsNullOrWhiteSpaceCases(s: string, i: nat)
    requires i < |s| && '!' <= s[i] <= '~'
    ensures IsNullOrWhiteSpace(None) && IsNullOrWhiteSpace(Some(""))
    ensures !IsNullOrWhiteSpace(Some(s))
  {
  }
}
