/**
 The two string operations the spider uses, as Python defines them:
 `str.split` with a non-empty separator, and the decimal rendering of a
 non-negative `int` inside an f-string. `Join`, `ParseDecimal` and
 `SplitTrailingDigits` are not used by the spider; they exist only to state
 the round-trip properties of those two operations.
 */
module Text {
  import opened Wrappers

  /** `sep` occurs in `s` starting at index `i`. */
  predicate OccursAt(s: string, i: nat, sep: string) {
    i + |sep| <= |s| && s[i..i + |sep|] == sep
  }

  /** `sep` occurs nowhere in `s`. */
  ghost predicate Free(s: string, sep: string) {
    forall i: nat :: !OccursAt(s, i, sep)
  }

  lemma OccursAtShift(s: string, i: nat, sep: string)
    requires |s| > 0
    ensures OccursAt(s, i + 1, sep) <==> OccursAt(s[1..], i, sep)
  {
    if i + 1 + |sep| <= |s| {
      assert s[1..][i..i + |sep|] == s[i + 1..i + 1 + |sep|];
    }
  }

  /** The leftmost index at which `sep` occurs in `s` (Python's `str.find`). */
  function Find(s: string, sep: string): (r: Option<nat>)
    decreases |s|
    ensures r.Some? ==> OccursAt(s, r.value, sep)
    ensures r.Some? ==> forall j: nat :: j < r.value ==> !OccursAt(s, j, sep)
    ensures r.None? ==> Free(s, sep)
  {
    if |s| < |sep| then
      None
    else if sep <= s then
      Some(0)
    else
      var r := Find(s[1..], sep);
      assert forall j: nat :: OccursAt(s, j + 1, sep) <==> OccursAt(s[1..], j, sep) by {
        forall j: nat ensures OccursAt(s, j + 1, sep) <==> OccursAt(s[1..], j, sep) {
          OccursAtShift(s, j, sep);
        }
      }
      if r.None? then
        assert forall j: nat :: !OccursAt(s, j, sep) by {
          forall j: nat ensures !OccursAt(s, j, sep) {
            if j > 0 {
              assert !OccursAt(s[1..], j - 1, sep);
            }
          }
        }
        None
      else
        assert forall j: nat :: j < r.value + 1 ==> !OccursAt(s, j, sep) by {
          forall j: nat | j < r.value + 1 ensures !OccursAt(s, j, sep) {
            if j > 0 {
              assert !OccursAt(s[1..], j - 1, sep);
            }
          }
        }
        Some(r.value + 1)
  }

  /**
   Python's `s.split(sep)` for a non-empty separator: the pieces between the
   occurrences of `sep` found by a left-to-right, non-overlapping scan.
   */
  function Split(s: string, sep: string): seq<string>
    requires |sep| > 0
    decreases |s|
  {
    match Find(s, sep)
    case None => [s]
    case Some(i) => [s[..i]] + Split(s[i + |sep|..], sep)
  }

  /** Python's `sep.join(pieces)`. */
  function Join(pieces: seq<string>, sep: string): string
    requires |pieces| > 0
  {
    if |pieces| == 1 then pieces[0] else pieces[0] + sep + Join(pieces[1..], sep)
  }

  function Last<T>(xs: seq<T>): T
    requires |xs| > 0
  {
    xs[|xs| - 1]
  }

  /** Splitting loses nothing: joining the pieces back gives the original string. */
  lemma {:induction false} JoinSplit(s: string, sep: string)
    requires |sep| > 0
    ensures |Split(s, sep)| > 0
    ensures Join(Split(s, sep), sep) == s
    decreases |s|
  {
    match Find(s, sep)
    case None =>
    case Some(i) =>
      var rest := s[i + |sep|..];
      JoinSplit(rest, sep);
      assert Split(s, sep) == [s[..i]] + Split(rest, sep);
      assert Split(s, sep)[1..] == Split(rest, sep);
      assert s == s[..i] + sep + rest by {
        assert s[i..i + |sep|] == sep;
      }
  }

  /** No piece of a split contains the separator. */
  lemma {:induction false} SplitPiecesFree(s: string, sep: string)
    requires |sep| > 0
    ensures forall k :: 0 <= k < |Split(s, sep)| ==> Free(Split(s, sep)[k], sep)
    decreases |s|
  {
    match Find(s, sep)
    case None =>
    case Some(i) =>
      var rest := s[i + |sep|..];
      SplitPiecesFree(rest, sep);
      assert Free(s[..i], sep) by {
        forall j: nat ensures !OccursAt(s[..i], j, sep) {
          if OccursAt(s[..i], j, sep) {
            assert s[..i][j..j + |sep|] == s[j..j + |sep|];
            assert OccursAt(s, j, sep);
            assert false;
          }
        }
      }
  }

  /** A split yields a single piece exactly when the separator is absent. */
  lemma SplitSingleIffFree(s: string, sep: string)
    requires |sep| > 0
    ensures |Split(s, sep)| == 1 <==> Free(s, sep)
  {
    match Find(s, sep)
    case None =>
    case Some(i) =>
      JoinSplit(s[i + |sep|..], sep);
  }

  /** The last piece of a split is preceded by the separator whenever there is more than one piece. */
  lemma {:induction false} JoinLast(pieces: seq<string>, sep: string)
    requires |pieces| > 1
    ensures Join(pieces, sep) == Join(pieces[..|pieces| - 1], sep) + sep + Last(pieces)
  {
    if |pieces| > 2 {
      JoinLast(pieces[1..], sep);
      assert pieces[1..][..|pieces| - 2] == pieces[..|pieces| - 1][1..];
    }
  }

  /** An occurrence with none before it is the one `Find` reports. */
  lemma FindFirst(s: string, sep: string, i: nat)
    requires OccursAt(s, i, sep)
    requires forall j: nat :: j < i ==> !OccursAt(s, j, sep)
    ensures Find(s, sep) == Some(i)
  {
  }

  /** Finding in `a + b` finds the same occurrence as in `a` when `a` holds one. */
  lemma FindAppend(a: string, b: string, sep: string)
    requires Find(a, sep).Some?
    ensures Find(a + b, sep) == Find(a, sep)
  {
    var i := Find(a, sep).value;
    assert (a + b)[i..i + |sep|] == a[i..i + |sep|];
    assert i + |sep| <= |a|;
    forall j: nat | j < i ensures !OccursAt(a + b, j, sep) {
      assert !OccursAt(a, j, sep);
      assert (a + b)[j..j + |sep|] == a[j..j + |sep|];
    }
    FindFirst(a + b, sep, i);
  }

  /** A string that lacks one of the separator's characters cannot contain the separator. */
  lemma FreeOfMissingChar(s: string, sep: string, c: char)
    requires c in sep && c !in s
    ensures Free(s, sep)
  {
  }

  predicate IsDigit(c: char) {
    '0' <= c <= '9'
  }

  predicate AllDigits(s: string) {
    forall i :: 0 <= i < |s| ==> IsDigit(s[i])
  }

  function DigitChar(d: nat): (c: char)
    requires d < 10
    ensures IsDigit(c)
  {
    "0123456789"[d]
  }

  function DigitValue(c: char): (d: nat)
    requires IsDigit(c)
    ensures d < 10
    ensures DigitChar(d) == c
  {
    (c as int - '0' as int) as nat
  }

  /** Python's `str(n)` for a non-negative integer: decimal digits, no leading zero. */
  function Decimal(n: nat): (s: string)
    ensures |s| > 0
    ensures AllDigits(s)
    ensures |s| > 1 ==> s[0] != '0'
  {
    if n < 10 then [DigitChar(n)] else Decimal(n / 10) + [DigitChar(n % 10)]
  }

  /** Reads a string of decimal digits back as a number. */
  function ParseDecimal(s: string): nat
    requires AllDigits(s)
  {
    if s == [] then 0 else ParseDecimal(s[..|s| - 1]) * 10 + DigitValue(s[|s| - 1])
  }

  /** Rendering a number in decimal and reading it back gives the number. */
  lemma {:induction false} ParseDecimalOfDecimal(n: nat)
    ensures ParseDecimal(Decimal(n)) == n
  {
    var s := Decimal(n);
    if n < 10 {
      assert s[..0] == [];
      assert DigitValue(DigitChar(n)) == n by {
        assert "0123456789"[n] as int == '0' as int + n;
      }
    } else {
      ParseDecimalOfDecimal(n / 10);
      assert s[..|s| - 1] == Decimal(n / 10);
      assert DigitValue(DigitChar(n % 10)) == n % 10 by {
        assert "0123456789"[n % 10] as int == '0' as int + n % 10;
      }
    }
  }

  /** Splits off the longest run of decimal digits at the end of `s`. */
  function SplitTrailingDigits(s: string): (r: (string, string))
    ensures r.0 + r.1 == s
    ensures AllDigits(r.1)
    ensures r.0 == [] || !IsDigit(Last(r.0))
  {
    if |s| > 0 && IsDigit(Last(s)) then
      var (head, digits) := SplitTrailingDigits(s[..|s| - 1]);
      assert head + (digits + [Last(s)]) == s[..|s| - 1] + [Last(s)];
      (head, digits + [Last(s)])
    else
      (s, [])
  }

  /** A digit run behind a non-digit is split off whole. */
  lemma {:induction false} SplitTrailingDigitsOf(head: string, digits: string)
    requires head == [] || !IsDigit(Last(head))
    requires AllDigits(digits)
    ensures SplitTrailingDigits(head + digits) == (head, digits)
    decreases |digits|
  {
    if digits == [] {
      assert head + digits == head;
    } else {
      var init := digits[..|digits| - 1];
      SplitTrailingDigitsOf(head, init);
      assert (head + digits)[..|head + digits| - 1] == head + init;
      assert init + [Last(digits)] == digits;
    }
  }
}
