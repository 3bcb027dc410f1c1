/**
 * Month labels in the form MM-YY (strftime "%m-%y") and their chronological
 * sort key, recovered by parsing the label back with strptime's two-digit-year
 * rule: 69-99 are read as 19xx, 00-68 as 20xx.
 */
module MonthLabels {
  import opened Records

  predicate IsDigit(c: char) {
    '0' <= c <= '9'
  }

  function DigitValue(c: char): int {
    c as int - '0' as int
  }

  function DigitChar(d: int): (c: char)
    requires 0 <= d <= 9
    ensures IsDigit(c) && DigitValue(c) == d
  {
    (d + '0' as int) as char
  }

  /** A number below 100, zero-padded to two digits. */
  function TwoDigits(n: int): (s: string)
    requires 0 <= n < 100
    ensures |s| == 2 && IsDigit(s[0]) && IsDigit(s[1])
    ensures 10 * DigitValue(s[0]) + DigitValue(s[1]) == n
  {
    [DigitChar(n / 10), DigitChar(n % 10)]
  }

  /** The number written by the first two characters of a label. */
  function MonthOf(s: string): int
    requires |s| == 5
  {
    10 * DigitValue(s[0]) + DigitValue(s[1])
  }

  /** The number written by the last two characters of a label. */
  function YearDigits(s: string): int
    requires |s| == 5
  {
    10 * DigitValue(s[3]) + DigitValue(s[4])
  }

  /** A label of the form MM-YY with a month from 01 to 12. */
  predicate WellFormed(s: string) {
    && |s| == 5
    && IsDigit(s[0]) && IsDigit(s[1]) && s[2] == '-' && IsDigit(s[3]) && IsDigit(s[4])
    && 1 <= MonthOf(s) <= 12
  }

  /** The label of a month: zero-padded month, a dash, the year modulo 100 zero-padded. */
  function Label(ym: YearMonth): (s: string)
    ensures WellFormed(s)
    ensures MonthOf(s) == ym.month && YearDigits(s) == ym.year % 100
  {
    TwoDigits(ym.month) + "-" + TwoDigits(ym.year % 100)
  }

  /** strptime's reading of a two-digit year. */
  function CenturyYear(yy: int): (y: nat)
    requires 0 <= yy < 100
    ensures 1969 <= y <= 2068 && y % 100 == yy
  {
    if yy < 69 then 2000 + yy else 1900 + yy
  }

  /** The first day of the month a label is read back as; the day is implicit. */
  function SortDate(s: string): (d: YearMonth)
    requires WellFormed(s)
    ensures d.month == MonthOf(s)
    ensures 1969 <= d.year <= 2068 && d.year % 100 == YearDigits(s)
  {
    YearMonth(CenturyYear(YearDigits(s)), MonthOf(s))
  }

  /** Months counted from year 0, so that comparing indices compares dates. */
  function MonthIndex(ym: YearMonth): int {
    ym.year * 12 + ym.month - 1
  }

  function SortKey(s: string): int
    requires WellFormed(s)
  {
    MonthIndex(SortDate(s))
  }

  /** Two labels with the same month and the same two year digits are the same label. */
  lemma {:induction false} SameDigitsSameLabel(s: string, t: string)
    requires WellFormed(s) && WellFormed(t)
    requires MonthOf(s) == MonthOf(t) && YearDigits(s) == YearDigits(t)
    ensures s == t
  {
    assert DigitValue(s[0]) == DigitValue(t[0]) && DigitValue(s[1]) == DigitValue(t[1]);
    assert DigitValue(s[3]) == DigitValue(t[3]) && DigitValue(s[4]) == DigitValue(t[4]);
    assert s[2] == t[2];
  }

  /** Reading a label back and writing it again gives the same label. */
  lemma LabelOfSortDate(s: string)
    requires WellFormed(s)
    ensures Label(SortDate(s)) == s
  {
    SameDigitsSameLabel(Label(SortDate(s)), s);
  }

  /** Reading a label back recovers the month exactly when its year lies in 1969..2068. */
  lemma SortDateOfLabel(ym: YearMonth)
    ensures SortDate(Label(ym)) == ym <==> 1969 <= ym.year <= 2068
  {
    var yy := ym.year % 100;
    if 1969 <= ym.year <= 1999 {
      assert yy == ym.year - 1900;
    } else if 2000 <= ym.year <= 2068 {
      assert yy == ym.year - 2000;
    }
  }

  /** Distinct labels have distinct sort keys, so sorting by date never ties. */
  lemma SortKeyInjective(s: string, t: string)
    requires WellFormed(s) && WellFormed(t)
    requires SortKey(s) == SortKey(t)
    ensures s == t
  {
    MonthIndexInjective(SortDate(s), SortDate(t));
    SameDigitsSameLabel(s, t);
  }

  /** Distinct months have distinct indices. */
  lemma MonthIndexInjective(a: YearMonth, b: YearMonth)
    requires MonthIndex(a) == MonthIndex(b)
    ensures a == b
  {
  }

  /** Date order is not label order: December 2019 sorts before January 2020, whose label is smaller as text. */
  lemma DateOrderIsNotTextOrder()
    ensures WellFormed("12-19") && WellFormed("01-20")
    ensures SortKey("12-19") < SortKey("01-20")
    ensures "01-20"[0] < "12-19"[0]
  {
  }
}
