/** Date and TimeZone: day numbers of the proleptic Gregorian calendar (ISO 8601:2004 section
    3.2.1) and seconds since the Epoch (IEEE Std 1003.1-2017, Base Definitions section 4.16).
    Arithmetic is that of C: division truncates, and int has 32 bits. */
module Calendar {
  import opened Basics

  /** A C int: a value of this type shows that a computation did not overflow. */
  type Int = x: int | -0x8000_0000 <= x <= 0x7FFF_FFFF

  function Div(a: int, b: int): int
    requires b > 0
  {
    if a >= 0 then a / b else -(-a / b)
  }

  function Mod(a: int, b: int): int
    requires b > 0
  {
    a - b * Div(a, b)
  }

  datatype YearMonthDay = YearMonthDay(year: int, month: int, day: int)

  // ---- The calendar itself ----

  predicate IsLeap(year: int) {
    year % 4 == 0 && (year % 100 != 0 || year % 400 == 0)
  }

  function DaysInMonth(year: int, month: int): int {
    if month == 2 then (if IsLeap(year) then 29 else 28)
    else if month == 4 || month == 6 || month == 9 || month == 11 then 30
    else 31
  }

  predicate ValidDate(d: YearMonthDay) {
    1 <= d.month <= 12 && 1 <= d.day <= DaysInMonth(d.year, d.month)
  }

  function NextDate(d: YearMonthDay): YearMonthDay {
    if d.day < DaysInMonth(d.year, d.month) then d.(day := d.day + 1)
    else if d.month < 12 then YearMonthDay(d.year, d.month + 1, 1)
    else YearMonthDay(d.year + 1, 1, 1)
  }

  predicate Earlier(a: YearMonthDay, b: YearMonthDay) {
    || a.year < b.year
    || (a.year == b.year && a.month < b.month)
    || (a.year == b.year && a.month == b.month && a.day < b.day)
  }

  /** From -4800-03-01 on, where the source divides no negative number, to far beyond the last
      day number getYearMonthDay can take. */
  predicate InRange(d: YearMonthDay) {
    ValidDate(d) && d.year <= 5_000_000 && !Earlier(d, YearMonthDay(-4800, 3, 1))
  }

  // ---- The source ----

  function GetJulianDayNumber(year: int, month: int, day: int): Int
    requires 1 <= month <= 12 && 1 <= day <= 31 && -4800 <= year <= 5_000_000
  {
    var a: Int := Div(14 - month, 12);
    var y: Int := year + 4800 - a;
    var m: Int := month + 12 * a - 3;
    var days: Int := y * 365;
    day + Div(153 * m + 2, 5) + days + Div(y, 4) - Div(y, 100) + Div(y, 400) - 32045
  }

  /** The last day number for which 4 * a + 3 fits an int. */
  const MAX_JDN: int := (0x7FFF_FFFF - 3) / 4 - 32044

  function GetYearMonthDay(julianDayNumber: int): YearMonthDay
    requires -32044 <= julianDayNumber <= MAX_JDN
  {
    var a: Int := julianDayNumber + 32044;
    var a4: Int := 4 * a + 3;
    var b: Int := Div(a4, 146097);
    var b1: Int := b * 146097;
    var c: Int := a - Div(b1, 4);
    var d: Int := Div(4 * c + 3, 1461);
    var e: Int := c - Div(1461 * d, 4);
    var m: Int := Div(5 * e + 2, 153);
    YearMonthDay(b * 100 + d - 4800 + Div(m, 10), m + 3 - 12 * Div(m, 10), e - Div(153 * m + 2, 5) + 1)
  }

  function Jdn(d: YearMonthDay): int
    requires InRange(d)
  {
    GetJulianDayNumber(d.year, d.month, d.day)
  }

  // ---- Years that begin in March ----

  /** Years counted from March of -4800. */
  function MarchYear(d: YearMonthDay): int {
    d.year + 4800 - (if d.month <= 2 then 1 else 0)
  }

  /** Days of such a year before a month; March is month 0. */
  function MonthStart(m: int): int
    requires 0 <= m <= 12
  {
    (153 * m + 2) / 5
  }

  function MarchMonth(month: int): int {
    if month <= 2 then month + 9 else month - 3
  }

  function DayOfMarchYear(d: YearMonthDay): int
    requires ValidDate(d)
  {
    MonthStart(MarchMonth(d.month)) + d.day - 1
  }

  /** Days before a March year. */
  function YearStart(y: int): int
    requires y >= 0
  {
    365 * y + y / 4 - y / 100 + y / 400
  }

  lemma JdnIs(d: YearMonthDay)
    requires InRange(d)
    ensures MarchYear(d) >= 0
    ensures Jdn(d) == YearStart(MarchYear(d)) + DayOfMarchYear(d) - 32044
  {
    hide Div, IsLeap;
    MonthShift(d.month);
    var y := MarchYear(d);
    DivIs(153 * MarchMonth(d.month) + 2, 5);
    DivIs(y, 4);
    DivIs(y, 100);
    DivIs(y, 400);
  }

  /** The first division of the source: January and February belong to the year before. */
  lemma MonthShift(month: int)
    requires 1 <= month <= 12
    ensures Div(14 - month, 12) == if month <= 2 then 1 else 0
  {
  }

  /** The February that ends March year `y` belongs to calendar year `y - 4799`. */
  function YearLength(y: int): int {
    if IsLeap(y - 4799) then 366 else 365
  }

  lemma DivStep4(y: int)
    requires y >= 0
    ensures (y + 1) / 4 == y / 4 + (if (y + 1) % 4 == 0 then 1 else 0)
    ensures (y - 4799) % 4 == (y + 1) % 4
  {
  }

  lemma DivStep100(y: int)
    requires y >= 0
    ensures (y + 1) / 100 == y / 100 + (if (y + 1) % 100 == 0 then 1 else 0)
    ensures (y - 4799) % 100 == (y + 1) % 100
  {
  }

  lemma DivStep400(y: int)
    requires y >= 0
    ensures (y + 1) / 400 == y / 400 + (if (y + 1) % 400 == 0 then 1 else 0)
    ensures (y - 4799) % 400 == (y + 1) % 400
  {
  }

  lemma Centuries(y: int)
    ensures y % 400 == 0 ==> y % 100 == 0
    ensures y % 100 == 0 ==> y % 4 == 0
  {
    if y % 400 == 0 { Hundreds(4 * (y / 400)); }
    if y % 100 == 0 { Fours(25 * (y / 100)); }
  }

  lemma Hundreds(k: int)
    ensures (100 * k) % 100 == 0
  {
  }

  lemma Fours(k: int)
    ensures (4 * k) % 4 == 0
  {
  }

  lemma YearStartStep(y: int)
    requires y >= 0
    ensures YearStart(y + 1) == YearStart(y) + YearLength(y)
  {
    DivStep4(y);
    DivStep100(y);
    DivStep400(y);
    Centuries(y + 1);
  }

  lemma MonthLengths(year: int, month: int)
    requires 1 <= month <= 12 && month != 2
    ensures MonthStart(MarchMonth(month) + 1) == MonthStart(MarchMonth(month)) + DaysInMonth(year, month)
  {
  }

  lemma DayOfMarchYearBound(d: YearMonthDay)
    requires ValidDate(d)
    ensures 0 <= DayOfMarchYear(d) < YearLength(MarchYear(d))
  {
  }

  /** Consecutive dates have consecutive numbers. */
  lemma NextDateIsNextNumber(d: YearMonthDay)
    requires InRange(d) && d.year < 5_000_000
    ensures InRange(NextDate(d)) && Jdn(NextDate(d)) == Jdn(d) + 1
  {
    hide Jdn, YearStart, IsLeap;
    JdnIs(d);
    JdnIs(NextDate(d));
    if d.day == DaysInMonth(d.year, d.month) {
      if d.month == 2 {
        YearStartStep(MarchYear(d));
      } else {
        MonthLengths(d.year, d.month);
      }
    }
  }

  /** With the step above this fixes every number: the Epoch is day 2440588. */
  lemma EpochNumber()
    ensures GetJulianDayNumber(1970, 1, 1) == 2440588
  {
  }

  // ---- getYearMonthDay inverts it ----

  lemma YearStartSplit(b: int, q: int)
    requires b >= 0 && 0 <= q <= 99
    ensures YearStart(100 * b + q) == (146097 * b) / 4 + (1461 * q) / 4
  {
    var y := 100 * b + q;
    assert y / 4 == 25 * b + q / 4;
    assert y / 100 == b;
    assert y / 400 == b / 4;
    assert (146097 * b) / 4 == 36524 * b + b / 4;
    assert (1461 * q) / 4 == 365 * q + q / 4;
  }

  /** The two divisions that find the year within the century, and the day within the year. */
  lemma YearInCentury(q: int, e: int)
    requires 0 <= q <= 99 && 0 <= e <= 365 && (e == 365 ==> q % 4 == 3)
    ensures var c := (1461 * q) / 4 + e; (4 * c + 3) / 1461 == q && 0 <= c <= 36524
    ensures (1461 * q) / 4 + e == 36524 ==> q == 99 && e == 365
  {
    var f := (1461 * q) / 4;
    assert 1461 * q - 3 <= 4 * f <= 1461 * q;
    assert q % 4 == 3 ==> 4 * f == 1461 * q - 3;
    QuotientIs(4 * (f + e) + 3, 1461, q);
  }

  /** The two that find the century. */
  lemma CenturyOf(b: int, c: int)
    requires b >= 0 && 0 <= c <= 36524 && (c == 36524 ==> b % 4 == 3)
    ensures (4 * ((146097 * b) / 4 + c) + 3) / 146097 == b
  {
    var f := (146097 * b) / 4;
    assert 146097 * b - 3 <= 4 * f <= 146097 * b;
    assert b % 4 == 3 ==> 4 * f == 146097 * b - 3;
    QuotientIs(4 * (f + c) + 3, 146097, b);
  }

  lemma QuotientIs(x: int, n: int, q: int)
    requires n > 0 && n * q <= x < n * q + n
    ensures x / n == q
  {
    assert x == n * (x / n) + x % n;
    assert n * (x / n - q) == n * (x / n) - n * q;
    MulBound(n, x / n - q);
  }

  lemma MonthOf(month: int, day: int)
    requires 1 <= month <= 12 && 1 <= day <= 31
    requires MonthStart(MarchMonth(month)) + day - 1 < MonthStart(MarchMonth(month) + 1)
    ensures (5 * (MonthStart(MarchMonth(month)) + day - 1) + 2) / 153 == MarchMonth(month)
  {
  }

  lemma InMonth(d: YearMonthDay)
    requires ValidDate(d)
    ensures DayOfMarchYear(d) < MonthStart(MarchMonth(d.month) + 1)
  {
    hide IsLeap;
  }

  lemma LastDigits(b: int, q: int)
    requires b >= 0 && 0 <= q <= 99
    ensures (100 * b + q + 1) % 4 == 0 ==> q % 4 == 3
    ensures q == 99 ==> (100 * b + q + 1) % 100 == 0
    ensures q == 99 && (100 * b + q + 1) % 400 == 0 ==> b % 4 == 3
  {
  }

  /** A leap day ends a March year whose last two digits, or whose century, say so. */
  lemma LeapDigits(b: int, q: int, e: int)
    requires b >= 0 && 0 <= q <= 99 && 0 <= e < YearLength(100 * b + q)
    ensures e == 365 ==> q % 4 == 3
    ensures e == 365 && q == 99 ==> b % 4 == 3
  {
    var y := 100 * b + q;
    DivStep4(y);
    DivStep100(y);
    DivStep400(y);
    LastDigits(b, q);
  }

  /** Reading a date's number back gives the date, for every date in range whose number the
      inverse accepts. */
  lemma DateRoundTrip(d: YearMonthDay)
    requires InRange(d) && Jdn(d) <= MAX_JDN
    ensures Jdn(d) >= -32044 && GetYearMonthDay(Jdn(d)) == d
  {
    hide Jdn, YearStart, IsLeap, MonthStart, GetYearMonthDay;
    JdnIs(d);
    var y, e := MarchYear(d), DayOfMarchYear(d);
    DayOfMarchYearBound(d);
    var b, q := y / 100, y % 100;
    YearStartSplit(b, q);
    LeapDigits(b, q, e);
    YearInCentury(q, e);
    var c := (1461 * q) / 4 + e;
    CenturyOf(b, c);
    InMonth(d);
    MonthOf(d.month, d.day);
    Digits(Jdn(d), b, c, q, e, MarchMonth(d.month));
  }

  /** What getYearMonthDay computes, once its divisions are known. */
  lemma Digits(j: int, b: int, c: int, q: int, e: int, m: int)
    requires -32044 <= j <= MAX_JDN
    requires j + 32044 == (146097 * b) / 4 + c && (4 * (j + 32044) + 3) / 146097 == b && b >= 0
    requires c >= 0 && (4 * c + 3) / 1461 == q && q >= 0 && c == (1461 * q) / 4 + e && e >= 0
    requires (5 * e + 2) / 153 == m && 0 <= m <= 11
    ensures GetYearMonthDay(j) ==
            YearMonthDay(100 * b + q - 4800 + m / 10, m + 3 - 12 * (m / 10), e - MonthStart(m) + 1)
  {
    hide Div;
    DivIs(4 * (j + 32044) + 3, 146097);
    DivIs(b * 146097, 4);
    DivIs(4 * c + 3, 1461);
    DivIs(1461 * q, 4);
    DivIs(5 * e + 2, 153);
    DivIs(153 * m + 2, 5);
    DivIs(m, 10);
  }

  lemma DivIs(a: int, b: int)
    requires a >= 0 && b > 0
    ensures Div(a, b) == a / b
  {
  }

  /** Every day number is that of a date. */
  lemma {:induction false} EveryNumberIsADate(j: int) returns (d: YearMonthDay)
    requires -32044 <= j <= MAX_JDN
    ensures InRange(d) && Jdn(d) == j
    decreases j + 32044
  {
    if j == -32044 {
      d := YearMonthDay(-4800, 3, 1);
      JdnIs(d);
    } else {
      var p := EveryNumberIsADate(j - 1);
      YearBound(p);
      NextDateIsNextNumber(p);
      d := NextDate(p);
    }
  }

  lemma YearBound(d: YearMonthDay)
    requires InRange(d) && Jdn(d) <= MAX_JDN
    ensures d.year < 1_500_000
  {
    JdnIs(d);
  }

  /** Turning a number into a date gives a valid date with that number. */
  lemma NumberRoundTrip(j: int)
    requires -32044 <= j <= MAX_JDN
    ensures InRange(GetYearMonthDay(j)) && Jdn(GetYearMonthDay(j)) == j
  {
    var d := EveryNumberIsADate(j);
    DateRoundTrip(d);
  }

  /** There is no other numbering: whatever counts the days one by one from the Epoch on, and back,
      counts as the source does. */
  lemma {:induction false} NumberingIsUnique(count: YearMonthDay -> int, d: YearMonthDay)
    requires count(YearMonthDay(1970, 1, 1)) == 2440588
    requires forall p :: InRange(p) && p.year < 5_000_000 ==> count(NextDate(p)) == count(p) + 1
    requires InRange(d) && Jdn(d) < MAX_JDN
    ensures count(d) == Jdn(d)
    decreases if Jdn(d) >= 2440588 then Jdn(d) - 2440588 else 2440588 - Jdn(d)
  {
    hide Jdn, InRange, NextDate;
    YearBound(d);
    if Jdn(d) == 2440588 {
      OnEpoch();
      SameNumber(d, YearMonthDay(1970, 1, 1));
    } else if Jdn(d) > 2440588 {
      var p := EveryNumberIsADate(Jdn(d) - 1);
      YearBound(p);
      NextDateIsNextNumber(p);
      SameNumber(d, NextDate(p));
      NumberingIsUnique(count, p);
    } else {
      NextDateIsNextNumber(d);
      NumberingIsUnique(count, NextDate(d));
    }
  }

  lemma OnEpoch()
    ensures InRange(YearMonthDay(1970, 1, 1)) && Jdn(YearMonthDay(1970, 1, 1)) == 2440588
  {
    EpochNumber();
  }

  lemma SameNumber(a: YearMonthDay, b: YearMonthDay)
    requires InRange(a) && InRange(b) && Jdn(a) == Jdn(b) <= MAX_JDN
    ensures a == b
  {
    hide Jdn, InRange, GetYearMonthDay;
    DateRoundTrip(a);
    DateRoundTrip(b);
  }

  /** Day numbers are ordered as the calendar is: operator< on Date compares dates. */
  lemma OrderIsCalendarOrder(a: YearMonthDay, b: YearMonthDay)
    requires InRange(a) && InRange(b)
    ensures Jdn(a) < Jdn(b) <==> Earlier(a, b)
  {
    hide Jdn, GetJulianDayNumber, IsLeap, YearStart;
    if Earlier(a, b) {
      EarlierIsLess(a, b);
    } else if Earlier(b, a) {
      EarlierIsLess(b, a);
    }
  }

  lemma EarlierIsLess(a: YearMonthDay, b: YearMonthDay)
    requires InRange(a) && InRange(b) && Earlier(a, b)
    ensures Jdn(a) < Jdn(b)
  {
    hide Jdn, IsLeap, YearStart;
    JdnIs(a);
    JdnIs(b);
    DayOfMarchYearBound(a);
    DayOfMarchYearBound(b);
    InMonth(a);
    if MarchYear(a) < MarchYear(b) {
      YearStartStep(MarchYear(a));
      YearStartMonotone(MarchYear(a) + 1, MarchYear(b));
    }
  }

  lemma {:induction false} YearStartMonotone(y: int, z: int)
    requires 0 <= y <= z
    ensures YearStart(y) <= YearStart(z)
    decreases z
  {
    if y < z {
      YearStartMonotone(y, z - 1);
      YearStartStep(z - 1);
    }
  }

  // ---- Weekday ----

  function WeekDay(julianDayNumber: int): int {
    Mod(julianDayNumber + 1, 7)
  }

  /** Sunday is 0.  From day -1 on the weekday follows the calendar, one step a day, and the Epoch
      was a Thursday; before that it is a weekday number only on Sundays. */
  lemma WeekDayFollowsDays(j: int)
    ensures 0 <= WeekDay(j) <= 6 <==> j >= -1 || (j + 1) % 7 == 0
    ensures j >= -1 ==> WeekDay(j + 1) == (WeekDay(j) + 1) % 7
    ensures WeekDay(2440588) == 4
  {
  }

  // ---- Coordinated Universal Time ----

  const SECONDS_PER_DAY: int := 86400
  const JULIAN_DAY_OF_1970_01_01: int := 2440588

  /** struct tm, with its offsets for year and month removed. */
  datatype Tm = Tm(date: YearMonthDay, hour: int, min: int, sec: int, wday: int, yday: int)

  ghost predicate ValidTm(tm: Tm) {
    InRange(tm.date) && 0 <= tm.hour < 24 && 0 <= tm.min < 60 && 0 <= tm.sec < 60
  }

  function FromUtcTime(tm: Tm): int
    requires InRange(tm.date)
  {
    var secondsInDay := tm.hour * 3600 + tm.min * 60 + tm.sec;
    (Jdn(tm.date) - JULIAN_DAY_OF_1970_01_01) * SECONDS_PER_DAY + secondsInDay
  }

  /** The seconds whose day getYearMonthDay can take, negative ones included. */
  predicate SecondsInRange(t: int) {
    -32044 <= t / SECONDS_PER_DAY + JULIAN_DAY_OF_1970_01_01 <= MAX_JDN
  }

  /** Days since January 1st. */
  function DayOfYear(d: YearMonthDay): int
    requires ValidDate(d)
    decreases d.month
  {
    if d.month == 1 then d.day - 1
    else DaysInMonth(d.year, d.month - 1) + DayOfYear(YearMonthDay(d.year, d.month - 1, 1)) + d.day - 1
  }

  method ToUtcTime(secondsSinceEpoch: int) returns (utc: Tm)
    requires SecondsInRange(secondsSinceEpoch)
    ensures ValidTm(utc) && FromUtcTime(utc) == secondsSinceEpoch
    ensures utc.wday == WeekDay(Jdn(utc.date))
    ensures utc.date.year > -4800 ==> utc.yday == DayOfYear(utc.date)
    ensures utc.date.year == -4800 ==> utc.yday == DayOfYear(utc.date) - 1
  {
    hide GetYearMonthDay, Jdn, DayOfYear;
    var seconds := Mod(secondsSinceEpoch, SECONDS_PER_DAY);
    var days := Div(secondsSinceEpoch, SECONDS_PER_DAY);
    if seconds < 0 {
      seconds := seconds + SECONDS_PER_DAY;
      days := days - 1;
    }
    FloorIs(secondsSinceEpoch, days, seconds);
    var sec := seconds % 60;
    var minutes := seconds / 60;
    var min := minutes % 60;
    var hour := minutes / 60;
    var number: Int := days + JULIAN_DAY_OF_1970_01_01;
    NumberRoundTrip(number);
    var ymd := GetYearMonthDay(number);
    YearBound(ymd);
    DayOfYearIs(ymd);
    utc := Tm(ymd, hour, min, sec, WeekDay(number), number - GetJulianDayNumber(ymd.year, 1, 1));
  }

  /** The adjusted truncating division is the flooring one. */
  lemma FloorIs(t: int, days: int, seconds: int)
    requires t == days * SECONDS_PER_DAY + seconds && 0 <= seconds < SECONDS_PER_DAY
    ensures t / SECONDS_PER_DAY == days
  {
  }

  lemma {:induction false} DayOfYearClosed(d: YearMonthDay)
    requires ValidDate(d)
    ensures d.month <= 2 ==> DayOfYear(d) == 31 * (d.month - 1) + d.day - 1
    ensures d.month >= 3 ==>
              DayOfYear(d) == MonthStart(d.month - 3) + (if IsLeap(d.year) then 60 else 59) + d.day - 1
    decreases d.month
  {
    hide IsLeap;
    if d.month > 1 {
      DayOfYearClosed(YearMonthDay(d.year, d.month - 1, 1));
      if d.month > 3 { MonthLengths(d.year, d.month - 1); }
    }
  }

  /** January 1st of -4800 is before March of that year: there the truncating divisions of the
      source come out one too high. */
  lemma NewYear(year: int)
    requires -4800 <= year <= 5_000_000
    ensures year > -4800 ==> GetJulianDayNumber(year, 1, 1) == YearStart(year + 4799) + 306 - 32044
    ensures year == -4800 ==> GetJulianDayNumber(year, 1, 1) == -32103
  {
  }

  lemma DayOfYearIs(d: YearMonthDay)
    requires InRange(d)
    ensures Jdn(d) - GetJulianDayNumber(d.year, 1, 1) == DayOfYear(d) - (if d.year == -4800 then 1 else 0)
  {
    hide Jdn, GetJulianDayNumber, IsLeap, YearStart, DayOfYear;
    JdnIs(d);
    NewYear(d.year);
    DayOfYearClosed(d);
    if d.year > -4800 {
      YearStartStep(d.year + 4799);
    } else {
      FirstYear();
    }
  }

  lemma FirstYear()
    ensures IsLeap(-4800) && YearStart(0) == 0
  {
  }

  /** No two different times of day on valid dates have the same seconds: with the method above,
      fromUtcTime and toUtcTime invert each other. */
  lemma FromUtcTimeInjective(a: Tm, b: Tm)
    requires ValidTm(a) && ValidTm(b) && FromUtcTime(a) == FromUtcTime(b)
    requires Jdn(a.date) <= MAX_JDN
    ensures a.date == b.date && a.hour == b.hour && a.min == b.min && a.sec == b.sec
  {
    hide Jdn, GetYearMonthDay;
    DateRoundTrip(a.date);
    var sa, sb := a.hour * 3600 + a.min * 60 + a.sec, b.hour * 3600 + b.min * 60 + b.sec;
    FloorIs(FromUtcTime(a), Jdn(a.date) - JULIAN_DAY_OF_1970_01_01, sa);
    FloorIs(FromUtcTime(b), Jdn(b.date) - JULIAN_DAY_OF_1970_01_01, sb);
    DateRoundTrip(b.date);
  }

  /** One second later on the clock. */
  function NextSecond(tm: Tm): Tm {
    if tm.sec < 59 then tm.(sec := tm.sec + 1)
    else if tm.min < 59 then tm.(min := tm.min + 1, sec := 0)
    else if tm.hour < 23 then tm.(hour := tm.hour + 1, min := 0, sec := 0)
    else tm.(date := NextDate(tm.date), hour := 0, min := 0, sec := 0)
  }

  /** fromUtcTime counts the seconds of the clock from midnight of January 1st, 1970: it is 0 there, and a
      second, a minute and an hour are what they are on a clock. */
  lemma SecondsOfTheClock(tm: Tm)
    requires ValidTm(tm) && tm.date.year < 5_000_000
    ensures ValidTm(NextSecond(tm)) && FromUtcTime(NextSecond(tm)) == FromUtcTime(tm) + 1
    ensures FromUtcTime(tm.(date := YearMonthDay(1970, 1, 1), hour := 0, min := 0, sec := 0)) == 0
    ensures FromUtcTime(tm.(date := YearMonthDay(1970, 1, 1), hour := 0, min := 1, sec := 0)) == 60
    ensures FromUtcTime(tm.(date := YearMonthDay(1970, 1, 1), hour := 1, min := 0, sec := 0)) == 3600
  {
    hide Jdn, NextDate;
    OnEpoch();
    NextDateIsNextNumber(tm.date);
  }
}
