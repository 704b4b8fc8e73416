/**
 The calendar arithmetic of the timestamp formatter (core/extensions/common/src/dtf.cpp)
 against the closed formula of section 4.16, "Seconds Since the Epoch", of
 IEEE Std 1003.1-2017, Base Definitions.
 */
module DtfCalendar {
  import opened DtfNumerals

  /** A UTC date and time; months count from 0 and days from 1, as the formatter keeps them. */
  datatype DateTime = DateTime(year: nat, month: nat, day: nat, hour: nat, minute: nat, second: nat)

  // ---------------------------------------------------------------- the Gregorian calendar

  predicate IsLeap(y: nat) {
    y % 4 == 0 && (y % 100 != 0 || y % 400 == 0)
  }

  function YearLength(y: nat): nat {
    if IsLeap(y) then 366 else 365
  }

  function DaysInMonth(y: nat, m: nat): nat {
    if m == 1 then (if IsLeap(y) then 29 else 28)
    else if m == 3 || m == 5 || m == 8 || m == 10 then 30
    else 31
  }

  /** Days of the year before its m-th month. */
  function DaysBeforeMonth(y: nat, m: nat): nat {
    if m == 0 then 0 else DaysBeforeMonth(y, m - 1) + DaysInMonth(y, m - 1)
  }

  predicate Valid(dt: DateTime) {
    && dt.year >= 1970 && dt.month < 12
    && 1 <= dt.day <= DaysInMonth(dt.year, dt.month)
    && dt.hour < 24 && dt.minute < 60 && dt.second < 60
  }

  function YearDay(dt: DateTime): nat
    requires dt.day >= 1
  {
    DaysBeforeMonth(dt.year, dt.month) + dt.day - 1
  }

  /** Section 4.16 with tm_year = year - 1900. */
  function Posix(dt: DateTime): int
    requires dt.day >= 1
  {
    var y := dt.year - 1900;
    dt.second + dt.minute * 60 + dt.hour * 3600 + YearDay(dt) * 86400
    + (y - 70) * 31536000 + ((y - 69) / 4) * 86400 - ((y - 1) / 100) * 86400 + ((y + 299) / 400) * 86400
  }

  /** The days the formula counts before a year. */
  function DaysBeforeYear(y: int): int {
    365 * (y - 1970) + (y - 1969) / 4 - (y - 1901) / 100 + (y - 1601) / 400
  }

  // ---------------------------------------------------------------- the formula orders dates

  lemma FourthYears(y: nat)
    ensures (y - 1968) / 4 == (y - 1969) / 4 + if y % 4 == 0 then 1 else 0
  {
  }

  lemma Centuries(y: nat)
    ensures (y - 1900) / 100 == (y - 1901) / 100 + if y % 100 == 0 then 1 else 0
  {
  }

  lemma FourthCenturies(y: nat)
    ensures (y - 1600) / 400 == (y - 1601) / 400 + if y % 400 == 0 then 1 else 0
  {
  }

  lemma FoldMultiple(a: nat, b: nat, k: nat)
    requires a > 0
    ensures (a * b * k) % a == 0
  {
    assert a * b * k == a * (b * k);
    MultipleHasNoRest(a, b * k);
  }

  lemma MultipleHasNoRest(a: nat, k: nat)
    requires a > 0
    ensures (a * k) % a == 0
  {
    ModUnique(a * k, a, k, 0);
  }

  lemma CenturyIsFourth(y: nat)
    requires y % 100 == 0
    ensures y % 4 == 0
  {
    FoldMultiple(4, 25, y / 100);
  }

  lemma FourthCenturyIsCentury(y: nat)
    requires y % 400 == 0
    ensures y % 100 == 0
  {
    FoldMultiple(100, 4, y / 400);
  }

  lemma NextYear(y: nat)
    requires y >= 1970
    ensures DaysBeforeYear(y + 1) == DaysBeforeYear(y) + YearLength(y)
  {
    FourthYears(y);
    Centuries(y);
    FourthCenturies(y);
    if y % 100 == 0 { CenturyIsFourth(y); }
    if y % 400 == 0 { FourthCenturyIsCentury(y); }
  }

  lemma {:induction false} YearsMonotone(a: nat, b: nat)
    requires 1970 <= a <= b
    ensures DaysBeforeYear(a) <= DaysBeforeYear(b)
  {
    if a < b {
      YearsMonotone(a, b - 1);
      NextYear(b - 1);
    }
  }

  lemma {:induction false} MonthsMonotone(y: nat, a: nat, b: nat)
    requires a <= b
    ensures DaysBeforeMonth(y, a) <= DaysBeforeMonth(y, b)
  {
    if a < b { MonthsMonotone(y, a, b - 1); }
  }

  /** Days of a common year before each month. */
  const SPM: seq<nat> := [0, 31, 59, 90, 120, 151, 181, 212, 243, 273, 304, 334, 365]

  lemma {:induction false} TableIsCumulative(y: nat, m: nat)
    requires m <= 12
    ensures DaysBeforeMonth(y, m) == SPM[m] + if IsLeap(y) && m >= 2 then 1 else 0
  {
    if m > 0 { TableIsCumulative(y, m - 1); }
  }

  lemma TwelveMonths(y: nat)
    ensures DaysBeforeMonth(y, 12) == YearLength(y)
  {
    TableIsCumulative(y, 12);
  }

  function SecondOfDay(dt: DateTime): nat {
    dt.second + dt.minute * 60 + dt.hour * 3600
  }

  lemma PosixSplits(dt: DateTime)
    requires Valid(dt)
    ensures Posix(dt) == (DaysBeforeYear(dt.year) + YearDay(dt)) * 86400 + SecondOfDay(dt)
    ensures SecondOfDay(dt) < 86400
    ensures YearDay(dt) < YearLength(dt.year)
  {
    MonthsMonotone(dt.year, dt.month + 1, 12);
    TwelveMonths(dt.year);
  }

  /** Earlier by calendar and clock. */
  predicate Before(a: DateTime, b: DateTime) {
    if a.year != b.year then a.year < b.year
    else if a.month != b.month then a.month < b.month
    else if a.day != b.day then a.day < b.day
    else if a.hour != b.hour then a.hour < b.hour
    else if a.minute != b.minute then a.minute < b.minute
    else a.second < b.second
  }

  lemma EarlierDay(a: DateTime, b: DateTime)
    requires Valid(a) && Valid(b) && Before(a, b)
    requires (a.year, a.month, a.day) != (b.year, b.month, b.day)
    ensures DaysBeforeYear(a.year) + YearDay(a) < DaysBeforeYear(b.year) + YearDay(b)
  {
    if a.year < b.year {
      PosixSplits(a);
      NextYear(a.year);
      YearsMonotone(a.year + 1, b.year);
    } else if a.month < b.month {
      MonthsMonotone(a.year, a.month + 1, b.month);
    }
  }

  lemma BeforeIsLess(a: DateTime, b: DateTime)
    requires Valid(a) && Valid(b) && Before(a, b)
    ensures Posix(a) < Posix(b)
  {
    PosixSplits(a);
    PosixSplits(b);
    var x, y := DaysBeforeYear(a.year) + YearDay(a), DaysBeforeYear(b.year) + YearDay(b);
    if (a.year, a.month, a.day) == (b.year, b.month, b.day) {
      assert x == y && SecondOfDay(a) < SecondOfDay(b);
    } else {
      EarlierDay(a, b);
    }
  }

  /** The formula is one-to-one and increasing on valid dates. */
  lemma PosixOrders(a: DateTime, b: DateTime)
    requires Valid(a) && Valid(b)
    ensures Posix(a) < Posix(b) <==> Before(a, b)
    ensures Posix(a) == Posix(b) <==> a == b
  {
    if Before(a, b) { BeforeIsLess(a, b); }
    if Before(b, a) { BeforeIsLess(b, a); }
    if !Before(a, b) && !Before(b, a) { assert a == b; }
  }

  // ---------------------------------------------------------------- the date of a second

  function YearFrom(y: nat, days: nat): (r: nat)
    requires y >= 1970 && DaysBeforeYear(y) <= days
    ensures r >= y && DaysBeforeYear(r) <= days < DaysBeforeYear(r + 1)
    decreases days - DaysBeforeYear(y)
  {
    NextYear(y);
    if days < DaysBeforeYear(y + 1) then y else YearFrom(y + 1, days)
  }

  function MonthFrom(y: nat, m: nat, day: nat): (r: nat)
    requires m < 12 && DaysBeforeMonth(y, m) <= day < DaysBeforeMonth(y, 12)
    ensures m <= r < 12 && DaysBeforeMonth(y, r) <= day < DaysBeforeMonth(y, r + 1)
    decreases 12 - m
  {
    if day < DaysBeforeMonth(y, m + 1) then m else MonthFrom(y, m + 1, day)
  }

  lemma ClockSplits(tod: nat)
    requires tod < 86400
    ensures tod / 3600 < 24
    ensures tod % 60 + (tod / 60 % 60) * 60 + (tod / 3600) * 3600 == tod
  {
    assert tod / 3600 == tod / 60 / 60;
  }

  /** The date and time a number of seconds since the Epoch stands for. */
  function Civil(ss: nat): (dt: DateTime)
    ensures Valid(dt) && Posix(dt) == ss
  {
    var days, tod := ss / 86400, ss % 86400;
    var year := YearFrom(1970, days);
    var yday := days - DaysBeforeYear(year);
    NextYear(year);
    TwelveMonths(year);
    var month := MonthFrom(year, 0, yday);
    var dt := DateTime(year, month, yday - DaysBeforeMonth(year, month) + 1, tod / 3600, tod / 60 % 60, tod % 60);
    ClockSplits(tod);
    PosixSplits(dt);
    dt
  }

  /** A valid date with that formula value is the date. */
  lemma CivilUnique(ss: nat, dt: DateTime)
    requires Valid(dt) && Posix(dt) == ss
    ensures dt == Civil(ss)
  {
    PosixOrders(dt, Civil(ss));
  }

  // ---------------------------------------------------------------- the formatter's arithmetic

  /** Takes whole years off a number of days since the Epoch. */
  method YearLoop(days: nat) returns (year: nat, yday: nat)
    ensures year >= 1970 && DaysBeforeYear(year) + yday == days && yday < YearLength(year)
  {
    var work, i := days, 1970;
    while true
      invariant i >= 1970
      invariant DaysBeforeYear(i) + work == days
      decreases work
    {
      var k := if IsLeap(i) then 366 else 365;
      if work >= k { work := work - k; } else { break; }
      NextYear(i);
      i := i + 1;
    }
    return i, work;
  }

  /** The leap-day shift, then the scan of a common year's table. */
  method MonthAndDay(year: nat, yday: nat) returns (mon: nat, day: nat)
    requires yday < YearLength(year)
    ensures mon < 12 && 1 <= day <= DaysInMonth(year, mon)
    ensures DaysBeforeMonth(year, mon) + day - 1 == yday
  {
    var work := yday;
    day := 1;
    if IsLeap(year) && work > 58 {
      if work == 59 { day := 2; }
      work := work - 1;
    }
    var i := 11;
    while i != 0 && SPM[i] > work
      invariant 0 <= i <= 11
      invariant i == 11 || SPM[i + 1] > work
    {
      i := i - 1;
    }
    mon := i;
    day := day + work - SPM[i];
    TableIsCumulative(year, i);
  }

  method CivilFields(ss: nat) returns (dt: DateTime)
    requires ss <= 18_446_744_073
    ensures dt == Civil(ss)
    ensures 1970 <= dt.year <= 2554
  {
    var work := ss % 86400;
    var secs := work % 60;
    work := work / 60;
    var mins := work % 60;
    var hours := work / 60;
    work := ss / 86400;
    var years, yday := YearLoop(work);
    var mons, days := MonthAndDay(years, yday);
    dt := DateTime(years, mons, days, hours, mins, secs);
    PosixSplits(dt);
    CivilUnique(ss, dt);
    YearRange(ss, dt);
  }

  /** Every second a 64-bit nanosecond count reaches has one valid date, between 1970 and 2554. */
  lemma YearRange(ss: nat, dt: DateTime)
    requires ss <= 18_446_744_073
    requires Valid(dt) && Posix(dt) == ss
    ensures 1970 <= dt.year <= 2554
  {
    PosixSplits(dt);
    if dt.year > 2554 { YearsMonotone(2555, dt.year); }
  }
}
