/**
  Timestamps and civil dates.  The reference is the expression for "Seconds Since
  the Epoch" in section 4.16 of IEEE Std 1003.1-2017 (Base Definitions).
 */
module DateTimes {
  import opened MachineTypes

  const SECONDS_PER_MINUTE := 60
  const SECONDS_PER_HOUR := 3600
  const SECONDS_PER_DAY := 86400
  const EPOCH_START_YEAR := 1970
  /** The last year for which the 8-bit counters of the conversion do not wrap: modulo 2^32 it is right up to there. */
  const LAST_EXACT_YEAR := 2306

  const DAYS_PER_MONTH: seq<seq<uint8>> := [
    [31, 28, 31, 30, 31, 30, 31, 31, 30, 31, 30, 31],
    [31, 29, 31, 30, 31, 30, 31, 31, 30, 31, 30, 31]]

  predicate IsLeapYear(year: int) {
    (year % 4 == 0 && year % 100 != 0) || year % 400 == 0
  }

  function DaysPerYear(year: int): nat {
    if IsLeapYear(year) then 366 else 365
  }

  function DaysPerMonth(leap: bool, month: int): nat
    requires 1 <= month <= 12
  {
    DAYS_PER_MONTH[if leap then 1 else 0][month - 1]
  }

  /** A broken-down time as a value. */
  datatype Civil = Civil(year: int, month: int, day: int, hour: int, minute: int, second: int)

  predicate ValidCivil(c: Civil) {
    && EPOCH_START_YEAR <= c.year
    && 1 <= c.month <= 12
    && 1 <= c.day <= DaysPerMonth(IsLeapYear(c.year), c.month)
    && 0 <= c.hour < 24 && 0 <= c.minute < 60 && 0 <= c.second < 60
  }

  /** Days of the year before the first of the month. */
  function DaysBeforeMonth(leap: bool, month: int): nat
    requires 1 <= month <= 13
    decreases month
  {
    if month == 1 then 0 else DaysBeforeMonth(leap, month - 1) + DaysPerMonth(leap, month - 1)
  }

  /** Days from the epoch to the first of January, year by year. */
  function DaysBeforeYear(year: int): nat
    requires EPOCH_START_YEAR <= year
    decreases year
  {
    if year == EPOCH_START_YEAR then 0 else DaysBeforeYear(year - 1) + DaysPerYear(year - 1)
  }

  /** The day of the year of the first of the month, counted from 0: 30 or 31 days a month, and a short February. */
  function MonthStart(leap: bool, month: int): int {
    (367 * month - 362) / 12 - if month <= 2 then 0 else if leap then 1 else 2
  }

  /** The standard's expression, with tm_year = year - 1900 and tm_yday counted from 0. */
  function PosixSeconds(c: Civil): int
    requires 1 <= c.month <= 13
  {
    var tmYear := c.year - 1900;
    var tmYday := MonthStart(IsLeapYear(c.year), c.month) + c.day - 1;
    c.second + c.minute * 60 + c.hour * 3600 + tmYday * 86400
    + (tmYear - 70) * 31536000 + (tmYear - 69) / 4 * 86400
    - (tmYear - 1) / 100 * 86400 + (tmYear + 299) / 400 * 86400
  }

  function SecondsInDay(c: Civil): int {
    c.hour * SECONDS_PER_HOUR + c.minute * SECONDS_PER_MINUTE + c.second
  }

  function DayOfYear(c: Civil): int
    requires 1 <= c.month <= 13
  {
    DaysBeforeMonth(IsLeapYear(c.year), c.month) + c.day - 1
  }

  // ------------------------------------------------------------ closed forms

  /** The standard's count of leap days before a year, tm_year written out. */
  function LeapTerms(year: int): int {
    (year - 1969) / 4 - (year - 1901) / 100 + (year - 1601) / 400
  }

  lemma LeapTermsStep(y: int)
    ensures LeapTerms(y + 1) == LeapTerms(y) + if IsLeapYear(y) then 1 else 0
  {
    FourthYear(y);
    HundredthYear(y);
    FourHundredthYear(y);
  }

  /** Counting year by year agrees with the standard's leap-year terms. */
  lemma {:induction false} DaysBeforeYearClosed(year: int)
    requires EPOCH_START_YEAR <= year
    ensures DaysBeforeYear(year) == (year - 1970) * 365 + LeapTerms(year)
    decreases year
  {
    if year > EPOCH_START_YEAR {
      hide LeapTerms, IsLeapYear;
      DaysBeforeYearClosed(year - 1);
      LeapTermsStep(year - 1);
    }
  }

  lemma FourthYear(y: int)
    ensures (y - 1968) / 4 == (y - 1969) / 4 + if y % 4 == 0 then 1 else 0
  {
  }

  lemma HundredthYear(y: int)
    ensures (y - 1900) / 100 == (y - 1901) / 100 + if y % 100 == 0 then 1 else 0
    ensures y % 100 == 0 ==> y % 4 == 0
  {
  }

  lemma FourHundredthYear(y: int)
    ensures (y - 1600) / 400 == (y - 1601) / 400 + if y % 400 == 0 then 1 else 0
    ensures y % 400 == 0 ==> y % 100 == 0
  {
  }

  lemma PosixIsDays(c: Civil)
    requires ValidCivil(c)
    ensures PosixSeconds(c) == (DaysBeforeYear(c.year) + DayOfYear(c)) * SECONDS_PER_DAY + SecondsInDay(c)
  {
    hide MonthStart, DaysBeforeMonth;
    MonthStartIsTable(IsLeapYear(c.year), c.month);
    DaysBeforeYearClosed(c.year);
  }

  /** The lengths of the months: alternating around 30 with a break after July, and February. */
  lemma MonthLengths(leap: bool, m: int)
    requires 1 <= m <= 12
    ensures DaysPerMonth(leap, m) == 30 + (m + m / 8) % 2 - (if m == 2 then (if leap then 1 else 2) else 0)
  {
  }

  lemma MonthStartStep(leap: bool, m: int)
    requires 1 <= m <= 12
    ensures MonthStart(leap, m + 1) == MonthStart(leap, m) + DaysPerMonth(leap, m)
  {
    hide DaysPerMonth;
    MonthLengths(leap, m);
    if m <= 4 { assert m == 1 || m == 2 || m == 3 || m == 4; }
    else if m <= 8 { assert m == 5 || m == 6 || m == 7 || m == 8; }
    else { assert m == 9 || m == 10 || m == 11 || m == 12; }
  }

  /** The table adds up to the closed form. */
  lemma {:induction false} MonthStartIsTable(leap: bool, month: int)
    requires 1 <= month <= 13
    ensures MonthStart(leap, month) == DaysBeforeMonth(leap, month)
    decreases month
  {
    hide DaysPerMonth;
    if month > 1 {
      MonthStartIsTable(leap, month - 1);
      MonthStartStep(leap, month - 1);
    }
  }

  lemma MonthTable(leap: bool)
    ensures DaysBeforeMonth(leap, 12) == if leap then 335 else 334
    ensures DaysBeforeMonth(leap, 13) == if leap then 366 else 365
  {
    assert DaysBeforeMonth(leap, 4) == if leap then 91 else 90;
    assert DaysBeforeMonth(leap, 7) == if leap then 182 else 181;
    assert DaysBeforeMonth(leap, 10) == if leap then 274 else 273;
  }

  lemma {:induction false} MonthsMonotone(leap: bool, m: int, n: int)
    requires 1 <= m < n <= 13
    ensures DaysBeforeMonth(leap, m) + DaysPerMonth(leap, m) <= DaysBeforeMonth(leap, n)
    decreases n
  {
    if m < n - 1 { MonthsMonotone(leap, m, n - 1); }
  }

  lemma {:induction false} YearsMonotone(y: int, z: int)
    requires EPOCH_START_YEAR <= y < z
    ensures DaysBeforeYear(y) + DaysPerYear(y) <= DaysBeforeYear(z)
    decreases z
  {
    if y < z - 1 { YearsMonotone(y, z - 1); }
  }

  lemma DayWithinYear(c: Civil)
    requires ValidCivil(c)
    ensures 0 <= DayOfYear(c) < DaysPerYear(c.year)
  {
    var leap := IsLeapYear(c.year);
    MonthTable(leap);
    MonthsMonotone(leap, c.month, 13);
  }

  lemma SameYear(c: Civil, d: Civil)
    requires ValidCivil(c) && ValidCivil(d)
    requires DaysBeforeYear(c.year) + DayOfYear(c) == DaysBeforeYear(d.year) + DayOfYear(d)
    ensures c.year == d.year && DayOfYear(c) == DayOfYear(d)
  {
    hide ValidCivil, DayOfYear, DaysBeforeYear, DaysPerYear;
    assert c.year >= EPOCH_START_YEAR && d.year >= EPOCH_START_YEAR && 1 <= c.month <= 13 && 1 <= d.month <= 13 by {
      ValidBounds(c);
      ValidBounds(d);
    }
    DayWithinYear(c);
    DayWithinYear(d);
    if c.year < d.year { YearsMonotone(c.year, d.year); }
    if d.year < c.year { YearsMonotone(d.year, c.year); }
  }

  lemma ValidBounds(c: Civil)
    requires ValidCivil(c)
    ensures c.year >= EPOCH_START_YEAR && 1 <= c.month <= 12
    ensures 0 <= SecondsInDay(c) < SECONDS_PER_DAY
  {
  }

  lemma SameMonth(c: Civil, d: Civil)
    requires ValidCivil(c) && ValidCivil(d) && c.year == d.year && DayOfYear(c) == DayOfYear(d)
    ensures c.month == d.month && c.day == d.day
  {
    hide IsLeapYear, DaysPerMonth, DaysBeforeMonth;
    var leap := IsLeapYear(c.year);
    if c.month < d.month { MonthsMonotone(leap, c.month, d.month); }
    if d.month < c.month { MonthsMonotone(leap, d.month, c.month); }
  }

  lemma SameClock(c: Civil, d: Civil)
    requires 0 <= c.minute < 60 && 0 <= c.second < 60 && 0 <= d.minute < 60 && 0 <= d.second < 60
    requires SecondsInDay(c) == SecondsInDay(d)
    ensures c.hour == d.hour && c.minute == d.minute && c.second == d.second
  {
  }

  /** Every second has one civil date: the standard's expression is injective on valid dates. */
  lemma PosixInjective(c: Civil, d: Civil)
    requires ValidCivil(c) && ValidCivil(d)
    ensures PosixSeconds(c) == PosixSeconds(d) <==> c == d
  {
    hide PosixSeconds, DaysBeforeYear, DayOfYear, SecondsInDay, IsLeapYear, DaysPerMonth;
    if PosixSeconds(c) == PosixSeconds(d) {
      PosixIsDays(c);
      PosixIsDays(d);
      ValidBounds(c);
      ValidBounds(d);
      SameDay(DaysBeforeYear(c.year) + DayOfYear(c), SecondsInDay(c),
              DaysBeforeYear(d.year) + DayOfYear(d), SecondsInDay(d));
      SameYear(c, d);
      SameMonth(c, d);
      SameClock(c, d);
    }
  }

  lemma SameDay(a: int, s: int, b: int, t: int)
    requires 0 <= s < SECONDS_PER_DAY && 0 <= t < SECONDS_PER_DAY
    requires a * SECONDS_PER_DAY + s == b * SECONDS_PER_DAY + t
    ensures a == b && s == t
  {
  }

  // ----------------------------------------------------- the 8-bit counters

  /** A uint32_t keeps its value modulo 2^32. */
  function Wrap(x: int): uint32 {
    x % TWO_TO_32
  }

  lemma WrapAdd(a: int, b: int)
    ensures Wrap(Wrap(a) + b) == Wrap(a + b)
  {
  }

  lemma WrapEqual(a: int, b: int)
    ensures Wrap(a) == Wrap(b) <==> Wrap(a - b) == 0
  {
  }

  /** Non-leap years in [1970, year). */
  function PlainYears(year: int): nat
    decreases year
  {
    if year <= EPOCH_START_YEAR then 0 else PlainYears(year - 1) + if IsLeapYear(year - 1) then 0 else 1
  }

  function LeapYears(year: int): nat
    decreases year
  {
    if year <= EPOCH_START_YEAR then 0 else LeapYears(year - 1) + if IsLeapYear(year - 1) then 1 else 0
  }

  /** The day count the conversion computes from its two uint8_t counters. */
  function CountedDays(year: int): nat {
    PlainYears(year) % 0x100 * 365 + LeapYears(year) % 0x100 * 366
  }

  lemma {:induction false} YearsSplit(year: int)
    requires EPOCH_START_YEAR <= year
    ensures PlainYears(year) + LeapYears(year) == year - EPOCH_START_YEAR
    ensures DaysBeforeYear(year) == PlainYears(year) * 365 + LeapYears(year) * 366
    ensures LeapYears(year) == LeapTerms(year)
    decreases year
  {
    if year > EPOCH_START_YEAR {
      hide LeapTerms, IsLeapYear;
      YearsSplit(year - 1);
      LeapTermsStep(year - 1);
    }
  }

  /** The counters are exact, modulo 2^32 seconds, exactly up to 2306. */
  lemma CountersExactIff(year: int)
    requires EPOCH_START_YEAR <= year < 0x1_0000
    ensures Wrap((DaysBeforeYear(year) - CountedDays(year)) * SECONDS_PER_DAY) == 0 <==> year <= LAST_EXACT_YEAR
    ensures year <= LAST_EXACT_YEAR ==> CountedDays(year) == DaysBeforeYear(year)
  {
    hide DaysBeforeYear, PlainYears, LeapYears, Wrap, LeapTerms;
    YearsSplit(year);
    WrapZero();
    var p, l := PlainYears(year), LeapYears(year);
    LostDays(p, l);
    PlainYearBounds(year);
    LostMultiples(p, l);
    var x := 365 * (p / 0x100) + 366 * (l / 0x100);
    assert (DaysBeforeYear(year) - CountedDays(year)) * SECONDS_PER_DAY == 0x100 * x * SECONDS_PER_DAY;
    if year > LAST_EXACT_YEAR {
      LostDaysShow(x);
    }
  }

  lemma WrapZero()
    ensures Wrap(0) == 0
  {
  }

  lemma LostDays(p: nat, l: nat)
    ensures p * 365 + l * 366 - (p % 0x100 * 365 + l % 0x100 * 366) == 0x100 * (365 * (p / 0x100) + 366 * (l / 0x100))
  {
  }

  lemma LostMultiples(p: nat, l: nat)
    requires p < 0xC000 && l < 0x4000
    ensures 365 * (p / 0x100) + 366 * (l / 0x100) < 0x2_0000
    ensures p >= 0x100 ==> 365 * (p / 0x100) + 366 * (l / 0x100) > 0
    ensures p < 0x100 && l < 0x100 ==> 365 * (p / 0x100) + 366 * (l / 0x100) == 0
  {
  }

  lemma PlainYearBounds(year: int)
    requires EPOCH_START_YEAR <= year < 0x1_0000
    ensures PlainYears(year) < 0x100 <==> year <= LAST_EXACT_YEAR
    ensures year <= LAST_EXACT_YEAR ==> LeapYears(year) < 0x100
    ensures PlainYears(year) < 0xC000 && LeapYears(year) < 0x4000
  {
    hide DaysBeforeYear, PlainYears, LeapYears;
    YearsSplit(year);
  }

  /** Fewer than 2^17 lost multiples of 256 days never add up to a multiple of 2^32 seconds. */
  lemma LostDaysShow(x: int)
    requires 0 < x < 0x2_0000
    ensures Wrap(0x100 * x * SECONDS_PER_DAY) != 0
  {
    if Wrap(0x100 * x * SECONDS_PER_DAY) == 0 {
      Invert675(x, 0x100 * x * SECONDS_PER_DAY / TWO_TO_32);
    }
  }

  /** 675 = SECONDS_PER_DAY / 128 is invertible modulo 2^17. */
  lemma Invert675(x: int, q: int)
    requires 0x100 * x * SECONDS_PER_DAY == TWO_TO_32 * q
    ensures x % 0x2_0000 == 0
  {
    assert 675 * x == 0x2_0000 * q;
    assert x == 0x2_0000 * (114955 * q - 592 * x);
  }

  // ----------------------------------------------------------------- methods

  class DateTime {
    var hour: uint8
    var minute: uint8
    var second: uint8
    var day: uint8
    var month: uint8
    var year: uint16
    var weekday: uint8

    function Value(): Civil
      reads this
    {
      Civil(year, month, day, hour, minute, second)
    }

    constructor ()
    {
    }

    /** The year loop of datetime_timestamp_to_datetime. */
    method SplitYears(total: nat) returns (days: nat)
      requires total <= TWO_TO_32 / SECONDS_PER_DAY
      modifies `year
      ensures EPOCH_START_YEAR <= year && DaysBeforeYear(year) + days == total && days < DaysPerYear(year)
    {
      hide IsLeapYear;
      days := total;
      year := EPOCH_START_YEAR;
      while days >= DaysPerYear(year)
        invariant EPOCH_START_YEAR <= year && days <= total
        invariant DaysBeforeYear(year) + days == total
        invariant (year - EPOCH_START_YEAR) * 365 + days <= total
        decreases days
      {
        days := days - DaysPerYear(year);
        year := year + 1;
      }
    }

    /** The month loop: the month index never leaves 1..12. */
    method SplitMonths(yday: nat) returns (days: nat)
      requires yday < DaysPerYear(year)
      modifies `month
      ensures 1 <= month <= 12
      ensures DaysBeforeMonth(IsLeapYear(year), month) + days == yday
      ensures days < DaysPerMonth(IsLeapYear(year), month)
    {
      ghost var leap := IsLeapYear(year);
      days := yday;
      month := 1;
      while days >= DaysPerMonth(IsLeapYear(year), month)
        invariant 1 <= month <= 12
        invariant DaysBeforeMonth(leap, month) + days == yday
        decreases days
      {
        NextMonth(leap, month, yday);
        days := days - DaysPerMonth(IsLeapYear(year), month);
        month := month + 1;
      }
    }

    /** datetime_timestamp_to_datetime; weekdays run from 1 for Monday, and day 0 was a Thursday. */
    method FromTimestamp(timestamp: uint32)
      modifies this
      ensures ValidCivil(Value()) && PosixSeconds(Value()) == timestamp
      ensures weekday == (timestamp / SECONDS_PER_DAY + 3) % 7 + 1
    {
      hide PosixSeconds, IsLeapYear;
      var days := timestamp / SECONDS_PER_DAY;
      var secondsInDay := timestamp % SECONDS_PER_DAY;
      weekday := (days + 3) % 7 + 1;
      days := SplitYears(days);
      days := SplitMonths(days);
      day := days + 1;
      hour := secondsInDay / SECONDS_PER_HOUR;
      minute := secondsInDay % SECONDS_PER_HOUR / SECONDS_PER_MINUTE;
      second := secondsInDay % SECONDS_PER_MINUTE;
      ClockParts(secondsInDay);
      PosixIsDays(Value());
    }

    /** The year loop of datetime_datetime_to_timestamp, with its two uint8_t counters. */
    method CountYears() returns (years: uint8, leapYears: uint8)
      ensures years == PlainYears(year) % 0x100 && leapYears == LeapYears(year) % 0x100
    {
      hide IsLeapYear;
      years, leapYears := 0, 0;
      var y := EPOCH_START_YEAR;
      while y < year
        invariant EPOCH_START_YEAR <= y && (y <= year || y == EPOCH_START_YEAR)
        invariant years == PlainYears(y) % 0x100 && leapYears == LeapYears(y) % 0x100
      {
        if IsLeapYear(y) {
          leapYears := (leapYears + 1) % 0x100;
        } else {
          years := (years + 1) % 0x100;
        }
        y := y + 1;
      }
    }

    /**
      datetime_datetime_to_timestamp, in 32-bit wrapping arithmetic.  Months above
      13 would read past the month table.
     */
    method ToTimestamp() returns (timestamp: uint32)
      requires month <= 13
      ensures month >= 1 ==>
        timestamp == Wrap((CountedDays(year) + DayOfYear(Value())) * SECONDS_PER_DAY + SecondsInDay(Value()))
      ensures ValidCivil(Value()) ==>
        (timestamp == Wrap(PosixSeconds(Value())) <==> year <= LAST_EXACT_YEAR)
      ensures ValidCivil(Value()) ==>
        (timestamp == PosixSeconds(Value()) <==> PosixSeconds(Value()) < TWO_TO_32)
    {
      hide Wrap, PosixSeconds, IsLeapYear, PlainYears, LeapYears, DaysPerMonth;
      var years, leapYears := CountYears();
      ghost var counted := CountedDays(year);
      timestamp := Wrap((years * 365 + leapYears * 366) * SECONDS_PER_DAY);
      var leapYear := IsLeapYear(year);
      var m := 1;
      while m < month
        invariant 1 <= m && (m <= month || m == 1)
        invariant timestamp == Wrap((counted + DaysBeforeMonth(leapYear, m)) * SECONDS_PER_DAY)
      {
        timestamp := Advance(timestamp, (counted + DaysBeforeMonth(leapYear, m)) * SECONDS_PER_DAY,
                             DaysPerMonth(leapYear, m) * SECONDS_PER_DAY);
        m := m + 1;
      }
      ghost var days := (counted + DaysBeforeMonth(leapYear, m)) * SECONDS_PER_DAY;
      timestamp := AddClock(timestamp, days);
      if ValidCivil(Value()) {
        ExactIff(Value());
        FitsIff(Value());
      }
    }

    /** `timestamp += more`. */
    static method Advance(timestamp: uint32, ghost sum: int, more: int) returns (next: uint32)
      requires timestamp == Wrap(sum)
      ensures next == Wrap(sum + more)
    {
      WrapAdd(sum, more);
      next := Wrap(timestamp + more);
    }

    /** The last four additions. */
    method AddClock(timestamp: uint32, ghost sum: int) returns (next: uint32)
      requires timestamp == Wrap(sum)
      ensures next == Wrap(sum + (day - 1) * SECONDS_PER_DAY + SecondsInDay(Value()))
    {
      hide Wrap;
      next := Advance(timestamp, sum, (day - 1) * SECONDS_PER_DAY);
      ghost var s := sum + (day - 1) * SECONDS_PER_DAY;
      next := Advance(next, s, hour * SECONDS_PER_HOUR);
      s := s + hour * SECONDS_PER_HOUR;
      next := Advance(next, s, minute * SECONDS_PER_MINUTE);
      s := s + minute * SECONDS_PER_MINUTE;
      next := Advance(next, s, second);
    }
  }

  /** With 8-bit year counters the computed seconds are the standard's exactly up to 2306. */
  lemma ExactIff(c: Civil)
    requires ValidCivil(c) && c.year < 0x1_0000
    ensures Wrap((CountedDays(c.year) + DayOfYear(c)) * SECONDS_PER_DAY + SecondsInDay(c)) == Wrap(PosixSeconds(c))
      <==> c.year <= LAST_EXACT_YEAR
  {
    hide Wrap, PosixSeconds, CountedDays, DaysBeforeYear;
    PosixIsDays(c);
    CountersExactIff(c.year);
    var counted := (CountedDays(c.year) + DayOfYear(c)) * SECONDS_PER_DAY + SecondsInDay(c);
    assert PosixSeconds(c) - counted == (DaysBeforeYear(c.year) - CountedDays(c.year)) * SECONDS_PER_DAY;
    WrapEqual(PosixSeconds(c), counted);
  }

  /** ... and modulo nothing, exactly when the seconds fit 32 bits. */
  lemma FitsIff(c: Civil)
    requires ValidCivil(c) && c.year < 0x1_0000
    ensures Wrap((CountedDays(c.year) + DayOfYear(c)) * SECONDS_PER_DAY + SecondsInDay(c)) == PosixSeconds(c)
      <==> PosixSeconds(c) < TWO_TO_32
  {
    hide PosixSeconds, CountedDays, DayOfYear, SecondsInDay;
    ValidBounds(c);
    ExactIff(c);
    if PosixSeconds(c) < TWO_TO_32 { YearInRange(c); }
  }

  /** A valid date whose seconds do not fit: the conversion is right modulo 2^32 only. */
  lemma NewYear2200()
    ensures var c := Civil(2200, 1, 1, 0, 0, 0);
      ValidCivil(c) && c.year <= LAST_EXACT_YEAR && PosixSeconds(c) == 7_258_118_400 > TWO_TO_32
  {
    assert DaysBeforeMonth(IsLeapYear(2200), 1) == 0;
  }

  lemma NextMonth(leap: bool, month: int, yday: int)
    requires 1 <= month <= 12 && yday < (if leap then 366 else 365)
    requires DaysBeforeMonth(leap, month) + DaysPerMonth(leap, month) <= yday
    ensures month < 12
    ensures DaysBeforeMonth(leap, month + 1) == DaysBeforeMonth(leap, month) + DaysPerMonth(leap, month)
  {
    MonthTable(leap);
  }

  lemma ClockParts(s: int)
    requires 0 <= s < SECONDS_PER_DAY
    ensures var h, m, r := s / SECONDS_PER_HOUR, s % SECONDS_PER_HOUR / SECONDS_PER_MINUTE, s % SECONDS_PER_MINUTE;
      0 <= h < 24 && 0 <= m < 60 && 0 <= r < 60 && h * SECONDS_PER_HOUR + m * SECONDS_PER_MINUTE + r == s
  {
  }

  /** Every 32-bit timestamp survives the trip to a date and back. */
  method RoundTrip(timestamp: uint32) returns (back: uint32)
    ensures back == timestamp
  {
    hide PosixSeconds, ValidCivil, CountedDays, DayOfYear;
    var date := new DateTime();
    date.FromTimestamp(timestamp);
    YearInRange(date.Value());
    ValidBounds(date.Value());
    back := date.ToTimestamp();
  }

  /** A date whose seconds fit 32 bits lies before 2107. */
  lemma YearInRange(c: Civil)
    requires ValidCivil(c) && PosixSeconds(c) < TWO_TO_32
    ensures c.year <= 2106 && 0 <= PosixSeconds(c)
  {
    hide PosixSeconds;
    PosixIsDays(c);
    DaysBeforeYearClosed(c.year);
    DayWithinYear(c);
  }

  /** A valid date whose seconds fit 32 bits survives the trip to a timestamp and back. */
  method DateRoundTrip(date: DateTime) returns (back: DateTime)
    requires ValidCivil(date.Value()) && PosixSeconds(date.Value()) < TWO_TO_32
    ensures back.Value() == date.Value()
  {
    hide PosixSeconds;
    YearInRange(date.Value());
    var timestamp := date.ToTimestamp();
    back := new DateTime();
    back.FromTimestamp(timestamp);
    PosixInjective(back.Value(), date.Value());
  }
}
