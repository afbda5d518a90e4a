/** The billing-month choices offered by the entry form: next month, the
    current month and the three months before it, each labelled like
    "Jul-25". The clock is a parameter: the current full year and month
    index (0 for January). */
module MonthOptions {
  import opened Decimal

  /** The `en-US` short name of a month index. */
  function ShortName(m: int): (name: string)
    requires 0 <= m < 12
    ensures |name| == 3 && 'A' <= name[0] <= 'Z'
  {
    match m
    case 0 => "Jan" case 1 => "Feb" case 2 => "Mar" case 3 => "Apr"
    case 4 => "May" case 5 => "Jun" case 6 => "Jul" case 7 => "Aug"
    case 8 => "Sep" case 9 => "Oct" case 10 => "Nov" case _ => "Dec"
  }

  /** A calendar month: a full year and a month index. */
  datatype Period = Period(year: int, month: int)

  predicate ValidPeriod(p: Period) {
    0 <= p.month < 12
  }

  /** The number of months since January of year 0. */
  function Index(p: Period): int {
    p.year * 12 + p.month
  }

  /** The year the `Date(year, month, day)` constructor works with: a year
      argument 0..99 stands for 1900..1999. */
  function FullYear(year: int): (full: int)
    ensures 0 <= year <= 99 ==> full == 1900 + year
    ensures !(0 <= year <= 99) ==> full == year
    ensures !(0 <= full <= 99)
  {
    if 0 <= year <= 99 then 1900 + year else year
  }

  /** The year and month of `new Date(year, monthIndex, 1)`: a month index
      outside 0..11 is carried into the year. */
  function PeriodOf(year: int, monthIndex: int): (p: Period)
    ensures ValidPeriod(p)
    ensures Index(p) == FullYear(year) * 12 + monthIndex
  {
    Period(FullYear(year) + monthIndex / 12, monthIndex % 12)
  }

  /** The month after `p`, by the calendar. */
  function Next(p: Period): (q: Period)
    ensures ValidPeriod(p) ==> ValidPeriod(q) && Index(q) == Index(p) + 1
  {
    if p.month == 11 then Period(p.year + 1, 0) else Period(p.year, p.month + 1)
  }

  /** The month before `p`, by the calendar. */
  function Prev(p: Period): (q: Period)
    ensures ValidPeriod(p) ==> ValidPeriod(q) && Index(q) == Index(p) - 1
  {
    if p.month == 0 then Period(p.year - 1, 11) else Period(p.year, p.month - 1)
  }

  /** The option text: short month name, a dash, and the last two characters
      of the year's decimal text. */
  function Label(p: Period): (text: string)
    requires ValidPeriod(p)
    ensures 5 <= |text| <= 6 && text[..3] == ShortName(p.month) && text[3] == '-'
    ensures p.year >= 10 ==> |text| == 6
  {
    var name, suffix := ShortName(p.month), LastTwo(IntToString(p.year));
    SuffixLength(p.year);
    assert (name + "-" + suffix)[..3] == name;
    name + "-" + suffix
  }

  /** The year suffix has one or two characters, and two once the year has
      two digits. */
  lemma SuffixLength(y: int)
    ensures 1 <= |LastTwo(IntToString(y))| <= 2
    ensures y >= 10 ==> |LastTwo(IntToString(y))| == 2
  {
    if y >= 0 {
      assert IntToString(y) == NatToString(y);
    }
  }

  /** The option the source's loop produces at position `k`, offset
      `k - 1`: the month `k - 1` months before the current one, found by
      month-index arithmetic. */
  function OptionAt(year: int, month: int, k: int): (text: string)
    ensures 5 <= |text| <= 6 && text[3] == '-'
    ensures text[..3] == ShortName((month - (k - 1)) % 12)
  {
    Label(PeriodOf(year, month - (k - 1)))
  }

  /** The first `n` options the loop has pushed. */
  function OptionsUpTo(year: int, month: int, n: nat): (opts: seq<string>)
    ensures |opts| == n
    ensures forall k :: 0 <= k < n ==> opts[k] == OptionAt(year, month, k)
  {
    seq(n, k requires 0 <= k < n => OptionAt(year, month, k))
  }

  /** One more iteration pushes the next option. */
  lemma OptionsUpToStep(year: int, month: int, n: nat)
    ensures OptionsUpTo(year, month, n + 1) == OptionsUpTo(year, month, n) + [OptionAt(year, month, n)]
  {
    var longer, shorter := OptionsUpTo(year, month, n + 1), OptionsUpTo(year, month, n);
    assert forall k :: 0 <= k < n ==> longer[k] == shorter[k];
  }

  /** `getMonthOptions`: five labels, for offsets -1..3 from the current
      month, no two alike (each keys its own entry in the month selector). */
  method GetMonthOptions(year: int, month: int) returns (options: seq<string>)
    requires 0 <= month < 12
    ensures options == OptionsUpTo(year, month, 5)
    ensures forall j, k :: 0 <= j < k < 5 ==> options[j] != options[k]
  {
    options := [];
    for i := -1 to 4
      invariant options == OptionsUpTo(year, month, i + 1)
    {
      var text := Label(PeriodOf(year, month - i));
      assert text == OptionAt(year, month, i + 1);
      OptionsUpToStep(year, month, i + 1);
      options := options + [text];
    }
    FiveOptionsDistinct(year, month);
  }

  /** No two of the five options are alike. */
  lemma FiveOptionsDistinct(year: int, month: int)
    ensures forall j, k :: 0 <= j < k < 5 ==> OptionsUpTo(year, month, 5)[j] != OptionsUpTo(year, month, 5)[k]
  {
    var opts := OptionsUpTo(year, month, 5);
    forall j, k | 0 <= j < k < 5 ensures opts[j] != opts[k] {
      OptionsDistinct(year, month, j, k);
    }
  }

  /** The five positions, stated by the calendar: next month, this month,
      then one, two and three months back. */
  lemma {:induction false} OptionsInCalendarOrder(year: int, month: int)
    requires 0 <= month < 12
    ensures var c := Period(FullYear(year), month);
      OptionAt(year, month, 0) == Label(Next(c)) && OptionAt(year, month, 1) == Label(c) &&
      OptionAt(year, month, 2) == Label(Prev(c)) && OptionAt(year, month, 3) == Label(Prev(Prev(c))) &&
      OptionAt(year, month, 4) == Label(Prev(Prev(Prev(c))))
  {
    OffsetsAreCalendarMonths(year, month);
  }

  /** Any two of the five options differ. */
  lemma {:induction false} OptionsDistinct(year: int, month: int, j: int, k: int)
    requires 0 <= j < k < 5
    ensures OptionAt(year, month, j) != OptionAt(year, month, k)
  {
    LabelsOfNearMonths(PeriodOf(year, month - (j - 1)), PeriodOf(year, month - (k - 1)));
  }

  /** Two valid periods with the same month count are the same period. */
  lemma PeriodUnique(a: Period, b: Period)
    requires ValidPeriod(a) && ValidPeriod(b)
    requires Index(a) == Index(b)
    ensures a == b
  {
  }

  /** Stepping the month index by one moves one calendar month, across a
      year boundary as well. */
  lemma {:induction false} PeriodStep(year: int, m: int)
    ensures PeriodOf(year, m + 1) == Next(PeriodOf(year, m))
    ensures PeriodOf(year, m - 1) == Prev(PeriodOf(year, m))
  {
    var p := PeriodOf(year, m);
    PeriodUnique(PeriodOf(year, m + 1), Next(p));
    PeriodUnique(PeriodOf(year, m - 1), Prev(p));
  }

  /** The offsets -1..3 of the source land on next month, this month and
      the three months before. */
  lemma {:induction false} OffsetsAreCalendarMonths(year: int, month: int)
    requires 0 <= month < 12
    ensures PeriodOf(year, month) == Period(FullYear(year), month)
    ensures PeriodOf(year, month + 1) == Next(Period(FullYear(year), month))
    ensures PeriodOf(year, month - 1) == Prev(Period(FullYear(year), month))
    ensures PeriodOf(year, month - 2) == Prev(Prev(Period(FullYear(year), month)))
    ensures PeriodOf(year, month - 3) == Prev(Prev(Prev(Period(FullYear(year), month))))
  {
    PeriodUnique(PeriodOf(year, month), Period(FullYear(year), month));
    PeriodStep(year, month);
    PeriodStep(year, month - 1);
    PeriodStep(year, month - 2);
  }

  /** Next and Prev undo each other. */
  lemma NextPrev(p: Period)
    requires ValidPeriod(p)
    ensures Next(Prev(p)) == p && Prev(Next(p)) == p
  {
  }

  /** Year rollover: in January the month before is December of the
      previous year; in December the month after is January of the next. */
  lemma Rollover(year: int)
    ensures PeriodOf(year, 0 - 1) == Period(FullYear(year) - 1, 11)
    ensures PeriodOf(year, 11 + 1) == Period(FullYear(year) + 1, 0)
  {
    PeriodUnique(PeriodOf(year, -1), Period(FullYear(year) - 1, 11));
    PeriodUnique(PeriodOf(year, 12), Period(FullYear(year) + 1, 0));
  }

  /** The month index a short month name stands for, or -1. */
  function MonthIndexOf(name: string): (m: int)
    ensures -1 <= m < 12
  {
    if name == "Jan" then 0 else if name == "Feb" then 1 else if name == "Mar" then 2
    else if name == "Apr" then 3 else if name == "May" then 4 else if name == "Jun" then 5
    else if name == "Jul" then 6 else if name == "Aug" then 7 else if name == "Sep" then 8
    else if name == "Oct" then 9 else if name == "Nov" then 10 else if name == "Dec" then 11
    else -1
  }

  /** Reading a short month name back gives its month index. */
  lemma NameRoundTrip(m: int)
    requires 0 <= m < 12
    ensures |ShortName(m)| == 3 && MonthIndexOf(ShortName(m)) == m
  {
    if m < 6 {
      assert m == 0 || m == 1 || m == 2 || m == 3 || m == 4 || m == 5;
    } else {
      assert m == 6 || m == 7 || m == 8 || m == 9 || m == 10 || m == 11;
    }
  }

  /** A label starts with the name of its month. */
  lemma LabelMonth(p: Period)
    requires ValidPeriod(p)
    ensures |Label(p)| >= 4 && MonthIndexOf(Label(p)[..3]) == p.month
  {
    NameRoundTrip(p.month);
    assert Label(p)[..3] == ShortName(p.month);
  }

  /** Labels of periods fewer than twelve months apart differ. */
  lemma LabelsOfNearMonths(p: Period, q: Period)
    requires ValidPeriod(p) && ValidPeriod(q)
    requires 0 < Index(p) - Index(q) < 12
    ensures Label(p) != Label(q)
  {
    assert p.month != q.month;
    LabelMonth(p);
    LabelMonth(q);
  }

  /** For a year of at least two digits the label is the short month name,
      a dash and the year modulo 100 in two digits. */
  lemma LabelShape(p: Period)
    requires ValidPeriod(p) && p.year >= 10
    ensures Label(p) == ShortName(p.month) + "-" + [DigitChar(p.year % 100 / 10), DigitChar(p.year % 10)]
  {
    LastTwoOfYear(p.year);
  }

  /** What a label says when read back: a month index and the year's last
      two digits. */
  datatype LabelParts = Malformed | Parts(month: int, yearSuffix: nat)

  /** Reads a label of the form "Mmm-yy". */
  function ParseLabel(s: string): LabelParts {
    if |s| == 6 && s[3] == '-' && MonthIndexOf(s[..3]) >= 0 && AllDigits(s[4..])
    then Parts(MonthIndexOf(s[..3]), DigitsValue(s[4..]))
    else Malformed
  }

  /** A label reads back as its month and its year modulo 100, for every
      year of at least two digits. */
  lemma LabelRoundTrip(p: Period)
    requires ValidPeriod(p) && p.year >= 10
    ensures ParseLabel(Label(p)) == Parts(p.month, p.year % 100)
  {
    var tens, units := p.year % 100 / 10, p.year % 10;
    LabelShape(p);
    NameRoundTrip(p.month);
    TwoDigits(tens, units);
    ParseShaped(ShortName(p.month), [DigitChar(tens), DigitChar(units)]);
    YearSuffixDigits(p.year);
  }

  /** The tens and units digits of a year make up the year modulo 100. */
  lemma YearSuffixDigits(y: int)
    ensures y % 100 / 10 * 10 + y % 10 == y % 100
  {
    var a, r := y / 100, y % 100;
    var t, u := r / 10, r % 10;
    assert r == 10 * t + u && 0 <= u < 10;
    assert y == 10 * (10 * a + t) + u;
    assert y % 10 == u;
  }

  /** A known month name, a dash and two digits read back as that month and
      the digits' value. */
  lemma ParseShaped(name: string, d: string)
    requires |name| == 3 && MonthIndexOf(name) >= 0
    requires |d| == 2 && AllDigits(d)
    ensures ParseLabel(name + "-" + d) == Parts(MonthIndexOf(name), DigitsValue(d))
  {
    var s := name + "-" + d;
    assert s[..3] == name;
    assert s[4..] == d;
  }

  /** Two digit characters read back as their two-digit number. */
  lemma TwoDigits(a: nat, b: nat)
    requires a < 10 && b < 10
    ensures AllDigits([DigitChar(a), DigitChar(b)])
    ensures DigitsValue([DigitChar(a), DigitChar(b)]) == a * 10 + b
  {
    var d := [DigitChar(a), DigitChar(b)];
    assert d[..1] == [DigitChar(a)];
    assert [DigitChar(a)][..0] == [];
    assert DigitsValue([DigitChar(a)]) == a;
  }

  /** The option at offset `k - 1` from a known calendar month. */
  lemma OptionIs(year: int, month: int, k: int, y: int, m: int)
    requires 0 <= m < 12 && y >= 10
    requires Index(Period(y, m)) == FullYear(year) * 12 + month - (k - 1)
    ensures OptionAt(year, month, k) == ShortName(m) + "-" + [DigitChar(y % 100 / 10), DigitChar(y % 10)]
  {
    PeriodUnique(PeriodOf(year, month - (k - 1)), Period(y, m));
    LabelShape(Period(y, m));
  }

  /** In mid-July 2025 the first option is next month, Aug-25. */
  lemma July2025First()
    ensures OptionAt(2025, 6, 0) == "Aug-25"
  {
    OptionIs(2025, 6, 0, 2025, 7);
  }

  /** In mid-July 2025 the second option is the current month, Jul-25. */
  lemma July2025Current()
    ensures OptionAt(2025, 6, 1) == "Jul-25"
  {
    OptionIs(2025, 6, 1, 2025, 6);
  }

  /** In mid-July 2025 the last option is three months back, Apr-25. */
  lemma July2025Last()
    ensures OptionAt(2025, 6, 4) == "Apr-25"
  {
    OptionIs(2025, 6, 4, 2025, 3);
  }

  /** In mid-January 2025 the third option rolls back into 2024: Dec-24. */
  lemma January2025Back()
    ensures OptionAt(2025, 0, 2) == "Dec-24"
  {
    OptionIs(2025, 0, 2, 2024, 11);
  }

  /** In mid-January 2025 the last option is Oct-24. */
  lemma January2025Last()
    ensures OptionAt(2025, 0, 4) == "Oct-24"
  {
    OptionIs(2025, 0, 4, 2024, 9);
  }

  /** In mid-December 2025 the first option rolls forward into 2026: Jan-26. */
  lemma December2025First()
    ensures OptionAt(2025, 11, 0) == "Jan-26"
  {
    OptionIs(2025, 11, 0, 2026, 0);
  }
}
