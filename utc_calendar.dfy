/** The proleptic Gregorian calendar in UTC, as `SimpleDateFormat("yyyy-MM-dd")`
    with time zone "UTC" renders an instant at or after the Unix epoch. */
module UtcCalendar {
  import opened JavaText

  const MillisPerDay: nat := 86_400_000

  datatype Date = Date(year: int, month: int, day: int)

  predicate IsLeap(y: int) {
    y % 4 == 0 && (y % 100 != 0 || y % 400 == 0)
  }

  function YearLength(y: int): nat {
    if IsLeap(y) then 366 else 365
  }

  function MonthLength(y: int, m: int): (n: nat)
    requires 1 <= m <= 12
    ensures 28 <= n <= 31
  {
    if m == 2 then (if IsLeap(y) then 29 else 28)
    else if m == 4 || m == 6 || m == 9 || m == 11 then 30
    else 31
  }

  predicate ValidDate(d: Date) {
    1970 <= d.year && 1 <= d.month <= 12 && 1 <= d.day <= MonthLength(d.year, d.month)
  }

  /** Days in months `m` through December of year `y`. */
  function RemainingDays(y: int, m: int): nat
    requires 1 <= m <= 12
    decreases 12 - m
  {
    if m == 12 then 31 else MonthLength(y, m) + RemainingDays(y, m + 1)
  }

  lemma RemainingDaysOfYear(y: int)
    ensures RemainingDays(y, 1) == YearLength(y)
  {
    assert RemainingDays(y, 12) == 31;
    assert RemainingDays(y, 11) == 61;
    assert RemainingDays(y, 10) == 92;
    assert RemainingDays(y, 9) == 122;
    assert RemainingDays(y, 8) == 153;
    assert RemainingDays(y, 7) == 184;
    assert RemainingDays(y, 6) == 214;
    assert RemainingDays(y, 5) == 245;
    assert RemainingDays(y, 4) == 275;
    assert RemainingDays(y, 3) == 306;
  }

  /** The date `days` days after the first day of month `m` of year `y`. */
  function FromMonth(days: nat, y: int, m: int): (d: Date)
    requires 1 <= m <= 12 && days < RemainingDays(y, m)
    ensures d.year == y && m <= d.month <= 12 && 1 <= d.day <= MonthLength(y, d.month)
    decreases 12 - m
  {
    if days < MonthLength(y, m) then Date(y, m, days + 1)
    else FromMonth(days - MonthLength(y, m), y, m + 1)
  }

  /** The date `days` days after January 1st of year `y`. */
  function FromYear(days: nat, y: int): (d: Date)
    requires 1970 <= y
    ensures ValidDate(d) && y <= d.year
    decreases days
  {
    if days < YearLength(y) then
      RemainingDaysOfYear(y);
      FromMonth(days, y, 1)
    else FromYear(days - YearLength(y), y + 1)
  }

  /** The calendar day that lies `days` whole days after 1970-01-01. */
  function CivilFromDays(days: nat): (d: Date)
    ensures ValidDate(d)
  {
    FromYear(days, 1970)
  }

  // The inverse: counting the days from the epoch to a date.

  function DaysBeforeYear(y: int): nat
    requires 1970 <= y
    decreases y - 1970
  {
    if y == 1970 then 0 else DaysBeforeYear(y - 1) + YearLength(y - 1)
  }

  function DaysBeforeMonth(y: int, m: int): nat
    requires 1 <= m <= 12
  {
    if m == 1 then 0 else DaysBeforeMonth(y, m - 1) + MonthLength(y, m - 1)
  }

  function DaysFromCivil(d: Date): nat
    requires ValidDate(d)
  {
    DaysBeforeYear(d.year) + DaysBeforeMonth(d.year, d.month) + d.day - 1
  }

  lemma {:induction false} FromMonthCounts(days: nat, y: int, m: int)
    requires 1 <= m <= 12 && days < RemainingDays(y, m)
    ensures DaysBeforeMonth(y, FromMonth(days, y, m).month) + FromMonth(days, y, m).day - 1
            == DaysBeforeMonth(y, m) + days
    decreases 12 - m
  {
    if days >= MonthLength(y, m) {
      FromMonthCounts(days - MonthLength(y, m), y, m + 1);
    }
  }

  lemma {:induction false} FromYearCounts(days: nat, y: int)
    requires 1970 <= y
    ensures DaysFromCivil(FromYear(days, y)) == DaysBeforeYear(y) + days
    decreases days
  {
    var n := YearLength(y);
    if days < n {
      RemainingDaysOfYear(y);
      assert FromYear(days, y) == FromMonth(days, y, 1);
      FromMonthCounts(days, y, 1);
    } else {
      assert FromYear(days, y) == FromYear(days - n, y + 1);
      assert DaysBeforeYear(y + 1) == DaysBeforeYear(y) + n;
      FromYearCounts(days - n, y + 1);
    }
  }

  /** Counting the days back from the computed date gives the day number:
      the conversion loses nothing. */
  lemma CivilFromDaysRoundTrip(days: nat)
    ensures DaysFromCivil(CivilFromDays(days)) == days
  {
    FromYearCounts(days, 1970);
  }

  /** Two different day numbers never fall on the same calendar date. */
  lemma CivilFromDaysInjective(a: nat, b: nat)
    requires CivilFromDays(a) == CivilFromDays(b)
    ensures a == b
  {
    CivilFromDaysRoundTrip(a);
    CivilFromDaysRoundTrip(b);
  }

  // Rendering.

  /** Left-pads with '0' to at least `width` characters, as SimpleDateFormat
      does for a numeric field of `width` pattern letters. */
  function ZeroPad(s: string, width: nat): (r: string)
    ensures |r| == if |s| < width then width else |s|
    ensures r[|r| - |s|..] == s
    ensures forall i :: 0 <= i < |r| - |s| ==> r[i] == '0'
    ensures AllDigits(s) ==> AllDigits(r)
  {
    if |s| < width then seq(width - |s|, _ => '0') + s else s
  }

  /** The `yyyy-MM-dd` rendering of a date. */
  function FormatDate(d: Date): string
    requires ValidDate(d)
  {
    ZeroPad(NatToDecimal(d.year), 4) + "-" + ZeroPad(NatToDecimal(d.month), 2) + "-"
    + ZeroPad(NatToDecimal(d.day), 2)
  }

  /** `yyyy-MM-dd` in UTC of an instant given in epoch milliseconds. */
  function UtcDate(millis: nat): string {
    FormatDate(CivilFromDays(millis / MillisPerDay))
  }

  lemma {:induction false} DecimalLength(n: nat)
    ensures n < 10 ==> |NatToDecimal(n)| == 1
    ensures n < 100 ==> |NatToDecimal(n)| <= 2
    ensures n < 1000 ==> |NatToDecimal(n)| <= 3
    ensures n < 10000 ==> |NatToDecimal(n)| <= 4
  {
    if n >= 10 {
      DecimalLength(n / 10);
    }
  }

  lemma FieldsShape(y: string, m: string, dd: string)
    requires |y| == 4 && |m| == 2 && |dd| == 2
    requires AllDigits(y) && AllDigits(m) && AllDigits(dd)
    ensures |y + "-" + m + "-" + dd| == 10
    ensures (y + "-" + m + "-" + dd)[4] == '-' && (y + "-" + m + "-" + dd)[7] == '-'
    ensures forall i :: 0 <= i < 10 && i != 4 && i != 7 ==> IsDigit((y + "-" + m + "-" + dd)[i])
  {
    var f := y + "-" + m + "-" + dd;
    forall i | 0 <= i < 10 && i != 4 && i != 7 ensures IsDigit(f[i]) {
      if i < 4 { assert f[i] == y[i]; }
      else if i < 7 { assert f[i] == m[i - 5]; }
      else { assert f[i] == dd[i - 8]; }
    }
  }

  /** The rendered date consists of digits and the two dashes, at fixed
      places for every year up to 9999: `dddd-dd-dd`. */
  lemma FormatDateShape(d: Date)
    requires ValidDate(d) && d.year <= 9999
    ensures |FormatDate(d)| == 10
    ensures FormatDate(d)[4] == '-' && FormatDate(d)[7] == '-'
    ensures forall i :: 0 <= i < 10 && i != 4 && i != 7 ==> IsDigit(FormatDate(d)[i])
  {
    var ys, ms, ds := NatToDecimal(d.year), NatToDecimal(d.month), NatToDecimal(d.day);
    DecimalLength(d.year);
    DecimalLength(d.month);
    DecimalLength(d.day);
    assert |ys| <= 4 && |ms| <= 2 && |ds| <= 2;
    var y, m, dd := ZeroPad(ys, 4), ZeroPad(ms, 2), ZeroPad(ds, 2);
    assert |y| == 4 && |m| == 2 && |dd| == 2;
    FieldsShape(y, m, dd);
    assert FormatDate(d) == y + "-" + m + "-" + dd;
  }

  /** Every character of a rendered date is a digit or '-'. */
  lemma FormatDateChars(d: Date)
    requires ValidDate(d)
    ensures forall i :: 0 <= i < |FormatDate(d)| ==> IsDigit(FormatDate(d)[i]) || FormatDate(d)[i] == '-'
  {
    DashJoinChars(ZeroPad(NatToDecimal(d.year), 4), ZeroPad(NatToDecimal(d.month), 2),
                  ZeroPad(NatToDecimal(d.day), 2));
  }

  lemma DashJoinChars(y: string, m: string, dd: string)
    requires AllDigits(y) && AllDigits(m) && AllDigits(dd)
    ensures forall i :: 0 <= i < |y + "-" + m + "-" + dd| ==>
              IsDigit((y + "-" + m + "-" + dd)[i]) || (y + "-" + m + "-" + dd)[i] == '-'
  {
    var f := y + "-" + m + "-" + dd;
    forall i | 0 <= i < |f| ensures IsDigit(f[i]) || f[i] == '-' {
      if i < |y| { assert f[i] == y[i]; }
      else if i == |y| { }
      else if i < |y| + 1 + |m| { assert f[i] == m[i - |y| - 1]; }
      else if i == |y| + 1 + |m| { }
      else { assert f[i] == dd[i - |y| - |m| - 2]; }
    }
  }

  /** The epoch itself is 1970-01-01. */
  lemma EpochDate()
    ensures UtcDate(0) == "1970-01-01"
  {
    EpochDay();
    EpochFormat();
  }

  lemma EpochDay()
    ensures CivilFromDays(0 / MillisPerDay) == Date(1970, 1, 1)
  {
  }

  lemma EpochFormat()
    ensures FormatDate(Date(1970, 1, 1)) == "1970-01-01"
  {
    EpochFieldTexts();
    var y, m := ZeroPad(NatToDecimal(1970), 4), ZeroPad(NatToDecimal(1), 2);
    PaddedFields();
    assert FormatDate(Date(1970, 1, 1)) == y + "-" + m + "-" + m;
  }

  lemma PaddedFields()
    ensures ZeroPad("1970", 4) == "1970" && ZeroPad("1", 2) == "01"
  {
  }

  lemma EpochFieldTexts()
    ensures NatToDecimal(1970) == "1970" && NatToDecimal(1) == "1"
  {
    assert NatToDecimal(1) == "1";
    assert NatToDecimal(19) == "19";
    assert NatToDecimal(197) == "197";
  }
}
