/** The date of a man page (src/shell.rs): days since 1970-01-01 turned into a Gregorian date. */
module RoffDate {
  import opened Text

  // ----- the calendar: month lengths and leap years as in RFC 3339, section 5.7 and appendix C -----

  predicate IsLeap(year: nat) {
    (year % 4 == 0 && year % 100 != 0) || year % 400 == 0
  }

  function DaysInYear(year: nat): nat {
    if IsLeap(year) then 366 else 365
  }

  function MonthLength(year: nat, month: nat): nat
    requires 1 <= month <= 12
  {
    if month == 2 then (if IsLeap(year) then 29 else 28)
    else if month in {4, 6, 9, 11} then 30
    else 31
  }

  datatype Date = Date(year: nat, month: nat, day: nat)

  predicate Valid(d: Date) {
    1970 <= d.year && 1 <= d.month <= 12 && 1 <= d.day <= MonthLength(d.year, d.month)
  }

  function DaysBeforeYear(year: nat): nat {
    if year <= 1970 then 0 else DaysBeforeYear(year - 1) + DaysInYear(year - 1)
  }

  function DaysBeforeMonth(year: nat, month: nat): nat
    requires 1 <= month <= 13
  {
    if month == 1 then 0 else DaysBeforeMonth(year, month - 1) + MonthLength(year, month - 1)
  }

  /** Days from 1970-01-01 to the date. */
  function DayNumber(d: Date): nat
    requires Valid(d)
  {
    DaysBeforeYear(d.year) + DaysBeforeMonth(d.year, d.month) + d.day - 1
  }

  lemma MonthsFillYear(year: nat)
    ensures DaysBeforeMonth(year, 13) == DaysInYear(year)
  {
    // month by month, one step of the sum at a time
    assert DaysBeforeMonth(year, 2) == 31;
    assert DaysBeforeMonth(year, 3) == DaysInYear(year) - 306;
    assert DaysBeforeMonth(year, 4) == DaysInYear(year) - 275;
    assert DaysBeforeMonth(year, 5) == DaysInYear(year) - 245;
    assert DaysBeforeMonth(year, 6) == DaysInYear(year) - 214;
    assert DaysBeforeMonth(year, 7) == DaysInYear(year) - 184;
    assert DaysBeforeMonth(year, 8) == DaysInYear(year) - 153;
    assert DaysBeforeMonth(year, 9) == DaysInYear(year) - 122;
    assert DaysBeforeMonth(year, 10) == DaysInYear(year) - 92;
    assert DaysBeforeMonth(year, 11) == DaysInYear(year) - 61;
    assert DaysBeforeMonth(year, 12) == DaysInYear(year) - 31;
  }

  // ----- the conversion -----

  method DateOfDays(days: nat) returns (d: Date)
    ensures Valid(d) && DayNumber(d) == days
    ensures d.year <= 1970 + days / 365
  {
    var remaining: nat, year: nat := days, 1970;
    while true
      invariant year >= 1970 && DaysBeforeYear(year) + remaining == days
      invariant 365 * (year - 1970) <= days - remaining
      decreases remaining
    {
      var daysInYear := DaysInYear(year);
      if remaining < daysInYear {
        break;
      }
      remaining := remaining - daysInYear;
      year := year + 1;
    }
    MonthsFillYear(year);
    var leap := IsLeap(year);
    var monthDays := [31, if leap then 29 else 28, 31, 30, 31, 30, 31, 31, 30, 31, 30, 31];
    var month: nat := 1;
    ghost var inYear := remaining;
    while month <= 12
      invariant 1 <= month <= 13
      invariant DaysBeforeMonth(year, month) + remaining == inYear
    {
      var length := monthDays[month - 1];
      assert length == MonthLength(year, month);
      if remaining < length {
        break;
      }
      remaining := remaining - length;
      month := month + 1;
    }
    d := Date(year, month, remaining + 1);
  }

  // ----- order -----

  predicate Before(p: Date, q: Date) {
    || p.year < q.year
    || (p.year == q.year && (p.month < q.month || (p.month == q.month && p.day < q.day)))
  }

  lemma {:induction false} YearsGrow(a: nat, b: nat)
    requires 1970 <= a < b
    ensures DaysBeforeYear(a) + DaysInYear(a) <= DaysBeforeYear(b)
  {
    if a < b - 1 {
      YearsGrow(a, b - 1);
    }
  }

  lemma {:induction false} MonthsGrow(year: nat, a: nat, b: nat)
    requires 1 <= a < b <= 13
    ensures DaysBeforeMonth(year, a) + MonthLength(year, a) <= DaysBeforeMonth(year, b)
  {
    if a < b - 1 {
      MonthsGrow(year, a, b - 1);
    }
  }

  lemma DayInYear(d: Date)
    requires Valid(d)
    ensures DaysBeforeYear(d.year) <= DayNumber(d) < DaysBeforeYear(d.year) + DaysInYear(d.year)
  {
    MonthsFillYear(d.year);
    MonthsGrow(d.year, d.month, 13);
  }

  /** Later days have later dates, and no two dates are the same day. */
  lemma DayNumberIsOrder(p: Date, q: Date)
    requires Valid(p) && Valid(q)
    ensures DayNumber(p) < DayNumber(q) <==> Before(p, q)
    ensures DayNumber(p) == DayNumber(q) <==> p == q
  {
    DayInYear(p);
    DayInYear(q);
    if p.year < q.year {
      YearsGrow(p.year, q.year);
    } else if q.year < p.year {
      YearsGrow(q.year, p.year);
    } else if p.month < q.month {
      MonthsGrow(p.year, p.month, q.month);
    } else if q.month < p.month {
      MonthsGrow(p.year, q.month, p.month);
    }
  }

  // ----- the year counter -----

  /** Leap years up to and including `year`. */
  function LeapYears(year: nat): int {
    year / 4 - year / 100 + year / 400
  }

  lemma OneMoreYear(year: nat)
    ensures LeapYears(year + 1) == LeapYears(year) + (if IsLeap(year + 1) then 1 else 0)
  {
    var y := year + 1;
    assert y / 4 == year / 4 + (if y % 4 == 0 then 1 else 0);
    assert y / 100 == year / 100 + (if y % 100 == 0 then 1 else 0);
    assert y / 400 == year / 400 + (if y % 400 == 0 then 1 else 0);
    assert y % 100 == 0 ==> y % 4 == 0;
    assert y % 400 == 0 ==> y % 100 == 0;
  }

  /** The sum of year lengths in closed form. */
  lemma {:induction false} DaysBeforeYearClosed(year: nat)
    requires year >= 1970
    ensures DaysBeforeYear(year) == 365 * (year - 1970) + LeapYears(year - 1) - 477
  {
    if year > 1970 {
      DaysBeforeYearClosed(year - 1);
      OneMoreYear(year - 2);
    }
  }

  const U32_MAX: nat := 0xFFFF_FFFF

  /** The 32-bit year counter holds every year up to day 1568703873081 and no later one. */
  lemma YearFitsU32(d: Date)
    requires Valid(d)
    ensures d.year <= U32_MAX <==> DayNumber(d) <= 1568703873081
  {
    DaysBeforeYearClosed(U32_MAX + 1);
    DayInYear(d);
    if d.year <= U32_MAX {
      YearsGrow(d.year, U32_MAX + 1);
    } else if d.year > U32_MAX + 1 {
      YearsGrow(U32_MAX + 1, d.year);
    }
  }

  // ----- the text -----

  function Zeros(n: nat): string {
    if n == 0 then "" else "0" + Zeros(n - 1)
  }

  /** `{n:0width}`. */
  function Padded(n: nat, width: nat): string {
    var s := Decimal(n);
    if |s| < width then Zeros(width - |s|) + s else s
  }

  function DateText(d: Date): string {
    Padded(d.year, 4) + "-" + Padded(d.month, 2) + "-" + Padded(d.day, 2)
  }

  method FormatRoffDate(days: nat) returns (s: string)
    ensures exists d :: Valid(d) && DayNumber(d) == days && s == DateText(d)
  {
    var d := DateOfDays(days);
    s := DateText(d);
  }

  lemma {:induction false} ValueOfZeros(n: nat, s: string)
    ensures Value(Zeros(n) + s) == Value(s)
  {
    if s != [] {
      assert (Zeros(n) + s)[..|Zeros(n) + s| - 1] == Zeros(n) + s[..|s| - 1];
      ValueOfZeros(n, s[..|s| - 1]);
    } else if n > 0 {
      assert "0" + Zeros(n - 1) + [] == Zeros(n) == Zeros(n - 1) + "0" by { ZerosFromRight(n - 1); }
      var t := Zeros(n);
      assert t[..|t| - 1] == Zeros(n - 1);
      ValueOfZeros(n - 1, []);
      assert Zeros(n - 1) + [] == Zeros(n - 1) && t + [] == t;
    }
  }

  lemma {:induction false} ZerosFromRight(n: nat)
    ensures "0" + Zeros(n) == Zeros(n) + "0"
  {
    if n > 0 {
      ZerosFromRight(n - 1);
    }
  }

  lemma TwoDigits(n: nat)
    requires n < 100
    ensures |Padded(n, 2)| == 2 && Value(Padded(n, 2)) == n
  {
    ValueOfDecimal(n);
    ValueOfZeros(1, Decimal(n));
    assert Zeros(1) == "0" by { assert Zeros(0) == ""; }
  }

  lemma {:induction false} ZerosLength(n: int)
    ensures n >= 0 ==> |Zeros(n)| == n
  {
    if n > 0 {
      ZerosLength(n - 1);
    }
  }

  lemma FourDigits(n: nat)
    ensures |Padded(n, 4)| >= 4 && Value(Padded(n, 4)) == n
  {
    hide Decimal, Value, Zeros;
    ZerosLength(4 - |Decimal(n)|);
    ValueOfDecimal(n);
    if |Decimal(n)| < 4 {
      ValueOfZeros(4 - |Decimal(n)|, Decimal(n));
    }
  }

  /** The text reads as the date: its last two fields have two digits, the year has the rest. */
  predicate ReadsAs(s: string, d: Date) {
    var n := |s|;
    && n >= 10 && s[n - 6] == '-' && s[n - 3] == '-'
    && Value(s[..n - 6]) == d.year && Value(s[n - 5..n - 3]) == d.month && Value(s[n - 2..]) == d.day
  }

  lemma Parts(year: string, month: string, day: string)
    requires |month| == 2 && |day| == 2
    ensures var s := year + "-" + month + "-" + day;
            && |s| == |year| + 6 && s[..|s| - 6] == year && s[|s| - 5..|s| - 3] == month && s[|s| - 2..] == day
            && s[|s| - 6] == '-' && s[|s| - 3] == '-'
  {
    var s := year + "-" + month + "-" + day;
    assert s[..|s| - 6] == year;
    assert s[|s| - 5..|s| - 3] == month;
    assert s[|s| - 2..] == day;
  }

  /** The printed date is read back field by field, so different dates print differently. */
  lemma DateTextReadsBack(d: Date)
    requires Valid(d)
    ensures ReadsAs(DateText(d), d)
  {
    hide Padded, Value;
    FourDigits(d.year);
    TwoDigits(d.month);
    TwoDigits(d.day);
    Parts(Padded(d.year, 4), Padded(d.month, 2), Padded(d.day, 2));
  }
}
