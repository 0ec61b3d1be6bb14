/** dates.go: the calendar arithmetic of Go's time package that the helpers
    rely on (time.Date normalisation, AddDate, daysInMonth, the "01-2006"
    layout) over dates in one fixed zone, and the DateDiff* helpers over
    instants counted in nanoseconds. */
module Dates {
  import opened Seqs
  import opened GoArith

  /** Days before each month of a common year, as in Go's daysBefore table. */
  const DaysBefore: seq<int> := [0, 31, 59, 90, 120, 151, 181, 212, 243, 273, 304, 334, 365]

  predicate IsLeap(year: int)
  {
    year % 4 == 0 && (year % 100 != 0 || year % 400 == 0)
  }

  /** Go's daysIn: the table difference, with February's leap day added. */
  function MonthLength(year: int, month: int): int
    requires 1 <= month <= 12
  {
    if month == 2 && IsLeap(year) then 29 else DaysBefore[month] - DaysBefore[month - 1]
  }

  /** The Gregorian month lengths, stated month by month. */
  function GregorianLength(year: int, month: int): int
    requires 1 <= month <= 12
  {
    if month == 2 then (if IsLeap(year) then 29 else 28)
    else if month == 4 || month == 6 || month == 9 || month == 11 then 30
    else 31
  }

  lemma MonthLengthGregorian(year: int, month: int)
    requires 1 <= month <= 12
    ensures MonthLength(year, month) == GregorianLength(year, month)
    ensures 28 <= MonthLength(year, month) <= 31
  {
  }

  /** A calendar date; the time of day and the zone are not modelled. */
  datatype Date = Date(year: int, month: int, day: int)

  predicate ValidDate(t: Date)
  {
    1 <= t.month <= 12 && 1 <= t.day <= MonthLength(t.year, t.month)
  }

  /** time.Date's month normalisation: the month is brought into 1..12 and
      the whole years it carried are added to the year. */
  function NormMonth(year: int, month: int): (r: (int, int))
    ensures 1 <= r.1 <= 12
    ensures 12 * r.0 + r.1 == 12 * year + month
  {
    (year + (month - 1) / 12, (month - 1) % 12 + 1)
  }

  function PrevMonth(year: int, month: int): (r: (int, int))
    requires 1 <= month <= 12
    ensures 1 <= r.1 <= 12 && 12 * r.0 + r.1 == 12 * year + month - 1
  {
    if month == 1 then (year - 1, 12) else (year, month - 1)
  }

  function NextMonth(year: int, month: int): (r: (int, int))
    requires 1 <= month <= 12
    ensures 1 <= r.1 <= 12 && 12 * r.0 + r.1 == 12 * year + month + 1
  {
    if month == 12 then (year + 1, 1) else (year, month + 1)
  }

  /** A day number below 1 borrows the length of the previous month. */
  function Backward(year: int, month: int, day: int): (r: Date)
    requires 1 <= month <= 12 && day <= MonthLength(year, month)
    ensures ValidDate(r)
    decreases -day
  {
    if day >= 1 then Date(year, month, day)
    else
      var p := PrevMonth(year, month);
      Backward(p.0, p.1, day + MonthLength(p.0, p.1))
  }

  /** A day number past the month's end carries into the next month. */
  function Forward(year: int, month: int, day: int): (r: Date)
    requires 1 <= month <= 12 && day >= 1
    ensures ValidDate(r)
    decreases day
  {
    if day <= MonthLength(year, month) then Date(year, month, day)
    else
      var n := NextMonth(year, month);
      Forward(n.0, n.1, day - MonthLength(year, month))
  }

  /** time.Date(year, month, day, …): the month is normalised first, then the
      day overflows into neighbouring months, so the result is the day
      `day - 1` days after the first of the normalised month. */
  function DateOf(year: int, month: int, day: int): (r: Date)
    ensures ValidDate(r)
  {
    var m := NormMonth(year, month);
    if day < 1 then Backward(m.0, m.1, day) else Forward(m.0, m.1, day)
  }

  /** A valid date is left as it is. */
  lemma DateOfValid(t: Date)
    requires ValidDate(t)
    ensures DateOf(t.year, t.month, t.day) == t
  {
    assert NormMonth(t.year, t.month) == (t.year, t.month);
  }

  /** daysInMonth: day 0 of the next month is the last day of this one, so
      the result is the Gregorian length of the date's month. */
  function DaysInMonth(t: Date): (r: int)
    requires 1 <= t.month <= 12
    ensures r == GregorianLength(t.year, t.month)
    ensures 28 <= r <= 31
  {
    var n := NormMonth(t.year, t.month + 1);
    assert n == NextMonth(t.year, t.month);
    assert PrevMonth(n.0, n.1) == (t.year, t.month);
    MonthLengthGregorian(t.year, t.month);
    DateOf(t.year, t.month + 1, 0).day
  }

  /** time.Time.AddDate on the date part. */
  function AddDate(t: Date, years: int, months: int, days: int): (r: Date)
    ensures ValidDate(r)
  {
    DateOf(t.year + years, t.month + months, t.day + days)
  }

  /** AddDate(0, -1, 0), the step of GetDateInfo's loop. */
  function MonthBack(t: Date): (r: Date)
    ensures ValidDate(r)
  {
    AddDate(t, 0, -1, 0)
  }

  /** A day that exists in every month moves to the same day of the
      previous month. */
  lemma MonthBackEarlyDay(t: Date)
    requires 1 <= t.month <= 12 && 1 <= t.day <= 28
    ensures MonthBack(t) == Date(PrevMonth(t.year, t.month).0, PrevMonth(t.year, t.month).1, t.day)
  {
    var p := PrevMonth(t.year, t.month);
    assert NormMonth(t.year, t.month - 1) == p;
    MonthLengthGregorian(p.0, p.1);
  }

  /** A day past the end of the previous month overflows back into the
      same month: AddDate(0, -1, 0) on 31 March gives 3 March (or 2 March in
      a leap year), not a February date. */
  lemma MonthBackOverflow(t: Date)
    requires ValidDate(t)
    requires t.day > MonthLength(PrevMonth(t.year, t.month).0, PrevMonth(t.year, t.month).1)
    ensures MonthBack(t) == Date(t.year, t.month, t.day - MonthLength(PrevMonth(t.year, t.month).0, PrevMonth(t.year, t.month).1))
  {
    var p := PrevMonth(t.year, t.month);
    assert NormMonth(t.year, t.month - 1) == p;
    assert NextMonth(p.0, p.1) == (t.year, t.month);
    MonthLengthGregorian(p.0, p.1);
    MonthLengthGregorian(t.year, t.month);
    var d := t.day - MonthLength(p.0, p.1);
    assert 1 <= d <= MonthLength(t.year, t.month);
    assert Forward(t.year, t.month, d) == Date(t.year, t.month, d);
  }

  lemma MarchThirtyFirst()
    ensures MonthBack(Date(2023, 3, 31)) == Date(2023, 3, 3)
    ensures MonthBack(Date(2024, 3, 31)) == Date(2024, 3, 2)
  {
    assert !IsLeap(2023) && IsLeap(2024);
    assert PrevMonth(2023, 3) == (2023, 2) && MonthLength(2023, 2) == 28;
    assert PrevMonth(2024, 3) == (2024, 2) && MonthLength(2024, 2) == 29;
    assert ValidDate(Date(2023, 3, 31)) && ValidDate(Date(2024, 3, 31));
    MonthBackOverflow(Date(2023, 3, 31));
    MonthBackOverflow(Date(2024, 3, 31));
  }

  /** The date `i` loop rounds after `t`. */
  function MonthsBack(t: Date, i: nat): Date
  {
    if i == 0 then t else MonthBack(MonthsBack(t, i - 1))
  }

  /** From a day that exists in every month, the loop walks through `i`
      consecutive calendar months keeping the day: the date `i` steps back
      is the month whose index 12 * year + month is `i` less. */
  lemma {:induction false} MonthsBackEarlyDay(t: Date, i: nat)
    requires 1 <= t.month <= 12 && 1 <= t.day <= 28
    ensures 1 <= MonthsBack(t, i).month <= 12 && MonthsBack(t, i).day == t.day
    ensures 12 * MonthsBack(t, i).year + MonthsBack(t, i).month == 12 * t.year + t.month - i
  {
    if i > 0 {
      var u := MonthsBack(t, i - 1);
      MonthsBackEarlyDay(t, i - 1);
      MonthBackIndex(u);
      assert MonthsBack(t, i) == MonthBack(u);
    }
  }

  /** One step back from an early day, in terms of the month index. */
  lemma MonthBackIndex(u: Date)
    requires 1 <= u.month <= 12 && 1 <= u.day <= 28
    ensures 1 <= MonthBack(u).month <= 12 && MonthBack(u).day == u.day
    ensures 12 * MonthBack(u).year + MonthBack(u).month == 12 * u.year + u.month - 1
  {
    MonthBackEarlyDay(u);
  }

  function Zeros(n: nat): (r: string)
    ensures |r| == n && forall i :: 0 <= i < n ==> r[i] == '0'
  {
    if n == 0 then [] else Zeros(n - 1) + "0"
  }

  /** The numeric fields of time.Format: a '-' for a negative value, then
      the decimal digits zero-padded to `width`. */
  function PadInt(x: int, width: nat): string
  {
    var digits := Decimal(Abs(x));
    (if x < 0 then "-" else "") + Zeros(if |digits| < width then width - |digits| else 0) + digits
  }

  lemma {:induction false} ParseLeadingZeros(k: nat, s: string)
    requires forall i :: 0 <= i < |s| ==> IsDigit(s[i])
    ensures forall i :: 0 <= i < |Zeros(k) + s| ==> IsDigit((Zeros(k) + s)[i])
    ensures ParseDecimal(Zeros(k) + s) == ParseDecimal(s)
  {
    var z := Zeros(k) + s;
    assert forall i :: 0 <= i < |z| ==> IsDigit(z[i]) by {
      forall i | 0 <= i < |z|
        ensures IsDigit(z[i])
      {
        if i >= k {
          assert z[i] == s[i - k];
        }
      }
    }
    if s == [] {
      assert z == Zeros(k);
      if k > 0 {
        assert z[..|z| - 1] == Zeros(k - 1) + [];
        ParseLeadingZeros(k - 1, []);
        assert ParseDecimal(z) == ParseDecimal(Zeros(k - 1)) * 10 + 0;
      }
    } else {
      var init := s[..|s| - 1];
      assert z[..|z| - 1] == Zeros(k) + init;
      assert z[|z| - 1] == s[|s| - 1];
      ParseLeadingZeros(k, init);
      assert ParseDecimal(z) == ParseDecimal(Zeros(k) + init) * 10 + (s[|s| - 1] as int - '0' as int);
    }
  }

  /** A padded non-negative field is at least `width` long and reads back
      as the value. */
  lemma PadIntRoundTrip(x: nat, width: nat)
    ensures |PadInt(x, width)| >= width
    ensures forall i :: 0 <= i < |PadInt(x, width)| ==> IsDigit(PadInt(x, width)[i])
    ensures ParseDecimal(PadInt(x, width)) == x
  {
    var digits := Decimal(x);
    var k := if |digits| < width then width - |digits| else 0;
    assert PadInt(x, width) == Zeros(k) + digits;
    ParseLeadingZeros(k, digits);
    DecimalRoundTrip(x);
  }

  /** t.Format("01-2006"). */
  function MonthYear(t: Date): string
  {
    PadInt(t.month, 2) + "-" + PadInt(t.year, 4)
  }

  /** GetDateInfo's EMI label: the "01-2006" rendering without its first
      character. */
  function EmiLabel(t: Date): string
  {
    MonthYear(t)[1..]
  }

  /** The label keeps only the last digit of the month: for January to
      September that is the month itself, for October to December it is
      "0", "1" or "2". */
  lemma EmiLabelForm(t: Date)
    requires 1 <= t.month <= 12
    ensures EmiLabel(t) == [DigitChar(t.month % 10)] + "-" + PadInt(t.year, 4)
    ensures t.month <= 9 ==> EmiLabel(t) == Decimal(t.month) + "-" + PadInt(t.year, 4)
    ensures t.month >= 10 ==> EmiLabel(t)[0] == DigitChar(t.month - 10)
  {
    var mm, yy := PadInt(t.month, 2), PadInt(t.year, 4);
    PadMonth(t.month);
    assert MonthYear(t) == [mm[0]] + ([mm[1]] + "-" + yy);
  }

  /** A month is rendered as two digits, the first '0' or '1'. */
  lemma PadMonth(month: int)
    requires 1 <= month <= 12
    ensures PadInt(month, 2) == [if month <= 9 then '0' else '1', DigitChar(month % 10)]
    ensures month <= 9 ==> PadInt(month, 2) == "0" + Decimal(month)
  {
    if month <= 9 {
      assert PadInt(month, 2) == "0" + Decimal(month) == "0" + [DigitChar(month % 10)];
    } else {
      assert Decimal(month) == Decimal(1) + [DigitChar(month % 10)];
      assert PadInt(month, 2) == Decimal(month) == "1" + [DigitChar(month % 10)];
    }
  }

  /** Hence November and January (and December and February) of one year get
      the same label. */
  lemma EmiLabelCollision(year: int, month: int, d1: int, d2: int)
    requires 1 <= month <= 2
    ensures EmiLabel(Date(year, month, d1)) == EmiLabel(Date(year, month + 10, d2))
  {
    EmiLabelForm(Date(year, month, d1));
    EmiLabelForm(Date(year, month + 10, d2));
  }

  /** The reading loop of GetDateInfo: twelve dates, the first the current
      one and each later one a month before the previous one, with their EMI
      labels. */
  method GetDateInfo(currTime: Date) returns (months: seq<Date>, emiMonths: seq<string>)
    ensures |months| == 12 && |emiMonths| == 12
    ensures months[0] == currTime
    ensures forall i :: 0 < i < 12 ==> months[i] == MonthBack(months[i - 1])
    ensures forall i :: 0 <= i < 12 ==> emiMonths[i] == EmiLabel(months[i])
  {
    months, emiMonths := [], [];
    var tempDate := currTime;
    for i := 0 to 12
      invariant |months| == i && Chain(months, emiMonths, currTime)
      invariant tempDate == if i == 0 then currTime else MonthBack(months[i - 1])
    {
      ChainExtend(months, emiMonths, currTime, tempDate);
      months := months + [tempDate];
      var emiTempDate := MonthYear(tempDate);
      emiTempDate := emiTempDate[1..];
      emiMonths := emiMonths + [emiTempDate];
      tempDate := MonthBack(tempDate);
    }
  }

  /** Dates each a month before the previous one, from `t` on, with their
      EMI labels. */
  predicate Chain(months: seq<Date>, emiMonths: seq<string>, t: Date)
  {
    |months| == |emiMonths|
    && (|months| > 0 ==> months[0] == t)
    && (forall k :: 0 < k < |months| ==> months[k] == MonthBack(months[k - 1]))
    && (forall k :: 0 <= k < |months| ==> emiMonths[k] == EmiLabel(months[k]))
  }

  lemma ChainExtend(months: seq<Date>, emiMonths: seq<string>, t: Date, next: Date)
    requires Chain(months, emiMonths, t)
    requires next == if |months| == 0 then t else MonthBack(months[|months| - 1])
    ensures Chain(months + [next], emiMonths + [MonthYear(next)[1..]], t)
  {
    var m, e := months + [next], emiMonths + [MonthYear(next)[1..]];
    forall k | 0 < k < |m|
      ensures m[k] == MonthBack(m[k - 1])
    {
      if k < |months| {
        assert m[k] == months[k] && m[k - 1] == months[k - 1];
      }
    }
    forall k | 0 <= k < |m|
      ensures e[k] == EmiLabel(m[k])
    {
      if k < |months| {
        assert e[k] == emiMonths[k] && m[k] == months[k];
      }
    }
  }

  /** A sequence built that way holds the dates 0, 1, 2, … months back. */
  lemma {:induction false} ChainIsMonthsBack(months: seq<Date>, t: Date, n: nat)
    requires n <= |months| && |months| > 0 && months[0] == t
    requires forall i :: 0 < i < |months| ==> months[i] == MonthBack(months[i - 1])
    ensures forall i :: 0 <= i < n ==> months[i] == MonthsBack(t, i)
  {
    if n > 1 {
      ChainIsMonthsBack(months, t, n - 1);
      assert months[n - 1] == MonthBack(months[n - 2]);
    }
  }

  const Millisecond := 1_000_000
  const Second := 1_000_000_000
  const Hour := 3600 * Second
  const Day := 24 * Hour

  /** `r` whole units of `u` in the duration `d`, the fraction dropped toward
      zero. */
  predicate WholeUnits(r: int, d: int, u: nat)
  {
    Abs(d - u * r) < u && (d >= 0 ==> 0 <= u * r <= d) && (d <= 0 ==> d <= u * r <= 0)
  }

  lemma WholeUnitsUnique(r1: int, r2: int, d: int, u: nat)
    requires u > 0 && WholeUnits(r1, d, u) && WholeUnits(r2, d, u)
    ensures r1 == r2
  {
    if r1 < r2 {
      MulLess(u, r1, r2);
    } else if r2 < r1 {
      MulLess(u, r2, r1);
    }
  }

  lemma MulLess(u: nat, a: int, b: int)
    requires u > 0 && a < b
    ensures u * a + u <= u * b
  {
    MulMonotone(u, 1, b - a);
    assert u * b - u * a == u * (b - a);
  }

  lemma TruncDivWhole(d: int, u: nat)
    requires u > 0
    ensures WholeUnits(TruncDiv(d, u), d, u)
  {
    var q, rem := TruncDiv(d, u), TruncRem(d, u);
    TruncDivMod(d, u);
    assert d - u * q == rem;
    if d >= 0 {
      assert q == d / u;
      MulMonotone(u, 0, q);
    } else {
      assert q == -((-d) / u);
      MulMonotone(u, 0, -q);
      assert u * q == -(u * -q);
    }
  }

  /** time.Time.Sub over instants in nanoseconds: the difference, saturated
      to the int64 range of a Duration. */
  function Sub(start: int, end: int): (d: int)
    ensures MinInt64 <= d <= MaxInt64
    ensures MinInt64 <= end - start <= MaxInt64 ==> d == end - start
    ensures end - start > MaxInt64 ==> d == MaxInt64
    ensures end - start < MinInt64 ==> d == MinInt64
  {
    Clamp64(end - start)
  }

  function DateDiffInSeconds(start: int, end: int): (r: int)
    ensures WholeUnits(r, Sub(start, end), Second)
  {
    TruncDivWhole(Sub(start, end), Second);
    TruncDiv(Sub(start, end), Second)
  }

  function DateDiffInMilliseconds(start: int, end: int): (r: int)
    ensures WholeUnits(r, Sub(start, end), Millisecond)
  {
    TruncDivWhole(Sub(start, end), Millisecond);
    TruncDiv(Sub(start, end), Millisecond)
  }

  function DateDiffInDays(start: int, end: int): (r: int)
    ensures WholeUnits(r, Sub(start, end), Day)
  {
    TruncDivWhole(Sub(start, end), Day);
    TruncDiv(Sub(start, end), Day)
  }

  /** DateDiffInHours as written: the days converted to hours plus the whole
      hours of the seconds. */
  function DateDiffInHours(start: int, end: int): int
  {
    24 * DateDiffInDays(start, end) + TruncDiv(DateDiffInSeconds(start, end), 3600)
  }

  /** The whole hours between the instants. */
  function ElapsedHours(start: int, end: int): (r: int)
    ensures WholeUnits(r, Sub(start, end), Hour)
  {
    TruncDivWhole(Sub(start, end), Hour);
    TruncDiv(Sub(start, end), Hour)
  }

  /** Whole hours of whole seconds are whole hours. */
  lemma WholeUnitsNest(d: int, s: int, h: int)
    requires WholeUnits(s, d, Second) && WholeUnits(h, s, 3600)
    ensures WholeUnits(h, d, Hour)
  {
    assert d - Hour * h == (d - Second * s) + Second * (s - 3600 * h);
    if d >= 0 {
      assert 0 <= s - 3600 * h <= 3599;
    } else {
      assert -3599 <= s - 3600 * h <= 0;
    }
  }

  lemma HoursOfSeconds(d: int)
    ensures TruncDiv(TruncDiv(d, Second), 3600) == TruncDiv(d, Hour)
  {
    var s := TruncDiv(d, Second);
    var h := TruncDiv(s, 3600);
    TruncDivWhole(d, Second);
    TruncDivWhole(s, 3600);
    TruncDivWhole(d, Hour);
    WholeUnitsNest(d, s, h);
    WholeUnitsUnique(h, TruncDiv(d, Hour), d, Hour);
  }

  /** DateDiffInHours counts the whole days twice: it is the elapsed hours
      plus 24 for every whole day. */
  lemma HoursCountDaysTwice(start: int, end: int)
    ensures DateDiffInHours(start, end) == ElapsedHours(start, end) + 24 * DateDiffInDays(start, end)
  {
    HoursOfSeconds(Sub(start, end));
  }

  /** Two instants exactly one day apart: 48 as written, 24 elapsed. */
  lemma OneDayApart(start: int)
    ensures DateDiffInHours(start, start + Day) == 48
    ensures ElapsedHours(start, start + Day) == 24
  {
    HoursCountDaysTwice(start, start + Day);
    var r := DateDiffInDays(start, start + Day);
    assert WholeUnits(1, Day, Day);
    WholeUnitsUnique(r, 1, Day, Day);
    var h := ElapsedHours(start, start + Day);
    assert WholeUnits(24, Day, Hour);
    WholeUnitsUnique(h, 24, Day, Hour);
  }
}
