/**
  * Day numbers to calendar dates: music-api/src/vault.rs, `civil_from_days`, over every
  * integer day number, against the proleptic Gregorian calendar.
  */
module CivilCalendar {
  datatype Date = Date(year: int, month: nat, day: nat)

  // ---------------------------------------------------------------- the calendar

  predicate IsLeap(y: int) {
    y % 4 == 0 && (y % 100 != 0 || y % 400 == 0)
  }

  function DaysInMonth(y: int, m: nat): nat {
    if m == 2 then (if IsLeap(y) then 29 else 28)
    else if m == 4 || m == 6 || m == 9 || m == 11 then 30
    else 31
  }

  predicate ValidDate(x: Date) {
    1 <= x.month <= 12 && 1 <= x.day <= DaysInMonth(x.year, x.month)
  }

  function NextDay(x: Date): Date {
    if x.day < DaysInMonth(x.year, x.month) then Date(x.year, x.month, x.day + 1)
    else if x.month < 12 then Date(x.year, x.month + 1, 1)
    else Date(x.year + 1, 1, 1)
  }

  /** Days before the first of January of year `y`, counted from the first of January, year 1. */
  function DaysBeforeYear(y: int): int {
    365 * (y - 1) + (y - 1) / 4 - (y - 1) / 100 + (y - 1) / 400
  }

  function DaysBeforeMonth(y: int, m: nat): nat {
    if m <= 1 then 0 else DaysBeforeMonth(y, m - 1) + DaysInMonth(y, m - 1)
  }

  /** The day number of a date, by counting whole years and whole months; 1970-01-01 is day 0. */
  function DayNumber(x: Date): int {
    DaysBeforeYear(x.year) - DaysBeforeYear(1970) + DaysBeforeMonth(x.year, x.month) + x.day - 1
  }

  predicate Earlier(x: Date, y: Date) {
    x.year < y.year
    || (x.year == y.year && (x.month < y.month || (x.month == y.month && x.day < y.day)))
  }

  // ---------------------------------------------------------------- the program's arithmetic

  /** Division that drops the fraction, as the program's integers divide. */
  function Truncated(a: int, b: int): int
    requires b > 0
  {
    if a >= 0 then a / b else -((-a) / b)
  }

  /**
    * Every value the program holds in an unsigned integer is a `nat` here, so each of its
    * subtractions is shown not to run below zero.
    */
  function CivilFromDays(day: int): Date {
    var z := day + 719468;
    var era := Truncated(if z >= 0 then z else z - 146096, 146097);
    EraIsFloor(z);
    var (yoe, doy) := YearInEra(z - era * 146097);
    FromMarch(yoe + era * 400, doy)
  }

  /** Day of the 400-year era to year of the era and day of that year. */
  function YearInEra(doe: nat): (yearAndDay: (nat, nat))
    requires doe < 146097
    ensures yearAndDay.1 < 366
  {
    var (c, q, r, n) := Split(doe);
    YearOfEra(doe, c, q, r, n);
    var less: nat := doe - doe / 1460;
    var yoe: nat := (less + doe / 36524 - doe / 146096) / 365;
    var before: nat := 365 * yoe + yoe / 4 - yoe / 100;
    var doy: nat := doe - before;
    (yoe, doy)
  }

  /** The date on day `n` of the year that starts in March of year `y`. */
  function FromMarch(y: int, n: nat): Date
    requires n < 366
  {
    var mp: nat := (5 * n + 2) / 153;
    MonthOfYear(n, mp);
    var inMonth: nat := n - (153 * mp + 2) / 5;
    var m: nat := if mp < 10 then mp + 3 else mp - 9;
    Date(if m <= 2 then y + 1 else y, m, inMonth + 1)
  }

  /** The conditional is the dividend, so the truncating division becomes a floor. */
  lemma EraIsFloor(z: int)
    ensures Truncated(if z >= 0 then z else z - 146096, 146097) == z / 146097
  {
    if z < 0 {
      var k := z / 146097;
      assert z == 146097 * k + z % 146097;
      assert -(z - 146096) == 146097 * (-k) + (146096 - z % 146097);
    }
  }

  // ---------------------------------------------------------------- eras, in centuries, quadrennia, years

  /** Years here start in March, so that a leap day is the last day of its year. */
  predicate SplitOf(doe: nat, c: nat, q: nat, r: nat, n: nat) {
    && c < 4 && q < 25 && r < 4
    && doe == 36524 * c + 1461 * q + 365 * r + n
    && n < (if r == 3 && (q < 24 || c == 3) then 366 else 365)
  }

  function Split(doe: nat): (s: (nat, nat, nat, nat))
    requires doe < 146097
    ensures SplitOf(doe, s.0, s.1, s.2, s.3)
  {
    var c := if doe / 36524 < 4 then doe / 36524 else 3;
    var inCentury := doe - 36524 * c;
    var q := inCentury / 1461;
    var inQuad := inCentury - 1461 * q;
    var r := if inQuad / 365 < 4 then inQuad / 365 else 3;
    (c, q, r, inQuad - 365 * r)
  }

  /** The corrected division by 365 finds the year, and its first day. */
  lemma YearOfEra(doe: nat, c: nat, q: nat, r: nat, n: nat)
    requires doe < 146097 && SplitOf(doe, c, q, r, n)
    ensures var yoe := 100 * c + 4 * q + r;
      && (doe - doe / 1460 + doe / 36524 - doe / 146096) / 365 == yoe
      && 365 * yoe + yoe / 4 - yoe / 100 == 36524 * c + 1461 * q + 365 * r
  {
    var e := if 24 * c + q + 365 * r + n >= 1460 then 1 else 0;
    QuotientByQuad(doe, c, q, r, n);
    QuotientByCentury(doe, c, q, r, n);
    var yoe := 100 * c + 4 * q + r;
    assert doe - doe / 1460 + doe / 36524 - doe / 146096 == 365 * yoe + (n - e);
    assert yoe / 4 == 25 * c + q && yoe / 100 == c;
  }

  lemma QuotientByQuad(doe: nat, c: nat, q: nat, r: nat, n: nat)
    requires SplitOf(doe, c, q, r, n)
    ensures doe / 1460 == 25 * c + q + if 24 * c + q + 365 * r + n >= 1460 then 1 else 0
  {
    assert doe == 1460 * (25 * c + q) + (24 * c + q + 365 * r + n);
  }

  lemma QuotientByCentury(doe: nat, c: nat, q: nat, r: nat, n: nat)
    requires doe < 146097 && SplitOf(doe, c, q, r, n)
    ensures doe / 36524 - doe / 146096 == c
  {
  }

  /** The month formula, checked month by month. */
  lemma MonthOfYear(doy: nat, mp: nat)
    requires doy < 366 && mp == (5 * doy + 2) / 153
    ensures mp <= 11
    ensures (153 * mp + 2) / 5 <= doy
    ensures mp < 11 ==> doy < (153 * (mp + 1) + 2) / 5
  {
  }

  // ---------------------------------------------------------------- years that start in March

  /** The first of March of year `y`, on the count that `DaysBeforeYear` starts. */
  function MarchStart(y: int): int {
    DaysBeforeYear(y + 1) - 306
  }

  function MarchLength(y: int): nat {
    if IsLeap(y + 1) then 366 else 365
  }

  lemma FloorSteps(y: int)
    ensures (y + 1) / 4 == y / 4 + if (y + 1) % 4 == 0 then 1 else 0
    ensures (y + 1) / 100 == y / 100 + if (y + 1) % 100 == 0 then 1 else 0
    ensures (y + 1) / 400 == y / 400 + if (y + 1) % 400 == 0 then 1 else 0
  {
  }

  lemma YearStep(y: int)
    ensures DaysBeforeYear(y + 1) == DaysBeforeYear(y) + if IsLeap(y) then 366 else 365
  {
    var x := y - 1;
    FloorSteps(x);
    LeapCount(y);
    assert DaysBeforeYear(x + 1) == 365 * x + x / 4 - x / 100 + x / 400;
    assert DaysBeforeYear(y + 1) == 365 * y + y / 4 - y / 100 + y / 400;
  }

  lemma LeapCount(y: int)
    ensures (if y % 4 == 0 then 1 else 0) - (if y % 100 == 0 then 1 else 0) + (if y % 400 == 0 then 1 else 0)
         == if IsLeap(y) then 1 else 0
  {
  }

  /** Months before March by count, months after it by the formula. */
  lemma MonthStarts(y: int, m: nat)
    requires 1 <= m <= 12
    ensures DaysBeforeMonth(y, m)
         == if m == 1 then 0 else if m == 2 then 31
            else (153 * (m - 3) + 2) / 5 + if IsLeap(y) then 60 else 59
  {
    if m > 1 {
      MonthStarts(y, m - 1);
    }
  }

  lemma MarchDate(y: int, n: nat)
    requires n < MarchLength(y)
    ensures ValidDate(FromMarch(y, n))
    ensures DayNumber(FromMarch(y, n)) == MarchStart(y) + n - DaysBeforeYear(1970)
  {
    var x := FromMarch(y, n);
    MonthStarts(x.year, x.month);
    YearStep(y);
    MonthOfYear(n, (5 * n + 2) / 153);
  }

  lemma CivilIsMarch(day: int) returns (y: int, n: nat)
    ensures n < MarchLength(y)
    ensures MarchStart(y) + n - DaysBeforeYear(1970) == day
    ensures CivilFromDays(day) == FromMarch(y, n)
  {
    var era, doe := (day + 719468) / 146097, (day + 719468) % 146097;
    var (c, q, r, k) := Split(doe);
    y, n := 100 * c + 4 * q + r + 400 * era, k;
    YearInEraBySplit(doe, c, q, r, k);
    CivilByEra(day, era, doe);
    MarchYearOfSplit(era, c, q, r);
    EpochOffset();
  }

  lemma EpochOffset()
    ensures DaysBeforeYear(1970) == 719162
  {
  }

  lemma YearInEraBySplit(doe: nat, c: nat, q: nat, r: nat, n: nat)
    requires doe < 146097 && SplitOf(doe, c, q, r, n)
    ensures YearInEra(doe) == (100 * c + 4 * q + r, n)
  {
    YearOfEra(doe, c, q, r, n);
  }

  lemma CivilByEra(day: int, era: int, doe: nat)
    requires doe < 146097 && day + 719468 == 146097 * era + doe
    ensures var (yoe, doy) := YearInEra(doe); CivilFromDays(day) == FromMarch(yoe + era * 400, doy)
  {
    var z := day + 719468;
    EraIsFloor(z);
    DayOfEra(z, era, doe);
  }

  lemma DayOfEra(z: int, era: int, doe: nat)
    requires doe < 146097 && z == 146097 * era + doe
    ensures z / 146097 == era && z - era * 146097 == doe
  {
  }

  lemma MarchYearOfSplit(era: int, c: nat, q: nat, r: nat)
    requires c < 4 && q < 25 && r < 4
    ensures var y := 100 * c + 4 * q + r + 400 * era;
      && MarchStart(y) == 146097 * era + 36524 * c + 1461 * q + 365 * r - 306
      && (MarchLength(y) == 366 <==> r == 3 && (q < 24 || c == 3))
  {
    var y := 100 * c + 4 * q + r + 400 * era;
    assert y / 4 == 25 * c + q + 100 * era;
    assert y / 100 == c + 4 * era;
    assert y / 400 == era;
    FloorSteps(y);
  }

  // ---------------------------------------------------------------- the order of dates

  lemma {:induction false} YearsAreOrdered(y: int, k: nat)
    ensures DaysBeforeYear(y + k) >= DaysBeforeYear(y) + 365 * k
  {
    if k > 0 {
      YearsAreOrdered(y, k - 1);
      YearStep(y + k - 1);
    }
  }

  lemma {:induction false} MonthsAreOrdered(y: int, m: nat, m': nat)
    requires 1 <= m < m'
    ensures DaysBeforeMonth(y, m) + DaysInMonth(y, m) <= DaysBeforeMonth(y, m')
    decreases m'
  {
    if m < m' - 1 {
      MonthsAreOrdered(y, m, m' - 1);
    }
  }

  /** A valid date falls inside its own year. */
  lemma WithinYear(x: Date)
    requires ValidDate(x)
    ensures DaysBeforeYear(x.year) <= DayNumber(x) + DaysBeforeYear(1970) < DaysBeforeYear(x.year + 1)
  {
    YearStep(x.year);
    MonthStarts(x.year, x.month);
  }

  /** Later dates have larger numbers. */
  lemma NumbersFollowDates(x: Date, y: Date)
    requires ValidDate(x) && ValidDate(y) && Earlier(x, y)
    ensures DayNumber(x) < DayNumber(y)
  {
    if x.year < y.year {
      WithinYear(x);
      WithinYear(y);
      YearsAreOrdered(x.year + 1, y.year - x.year - 1);
    } else if x.month < y.month {
      MonthsAreOrdered(x.year, x.month, y.month);
    }
  }

  lemma NumbersAreDistinct(x: Date, y: Date)
    requires ValidDate(x) && ValidDate(y) && DayNumber(x) == DayNumber(y)
    ensures x == y
  {
    if Earlier(x, y) {
      NumbersFollowDates(x, y);
    } else if Earlier(y, x) {
      NumbersFollowDates(y, x);
    }
  }

  lemma NextDayIsNumberedNext(x: Date)
    requires ValidDate(x)
    ensures ValidDate(NextDay(x))
    ensures DayNumber(NextDay(x)) == DayNumber(x) + 1
  {
    YearStep(x.year);
    MonthStarts(x.year, 12);
  }

  // ---------------------------------------------------------------- the main results

  /** Every day number yields a real date, and counting that date's days gives the number back. */
  lemma NumberOfCivil(day: int)
    ensures ValidDate(CivilFromDays(day))
    ensures DayNumber(CivilFromDays(day)) == day
  {
    var y, n := CivilIsMarch(day);
    MarchDate(y, n);
  }

  /** Every real date is the date of the number that counting its days yields. */
  lemma CivilOfNumber(x: Date)
    requires ValidDate(x)
    ensures CivilFromDays(DayNumber(x)) == x
  {
    var n := DayNumber(x);
    NumberOfCivil(n);
    NumbersAreDistinct(CivilFromDays(n), x);
  }

  /** Consecutive day numbers have consecutive dates, starting from the Unix epoch. */
  lemma DaysFollowTheCalendar(day: int)
    ensures CivilFromDays(day + 1) == NextDay(CivilFromDays(day))
  {
    var x, y := CivilFromDays(day), CivilFromDays(day + 1);
    NumberOfCivil(day);
    NumberOfCivil(day + 1);
    NextDayIsNumberedNext(x);
    NumbersAreDistinct(NextDay(x), y);
  }

  lemma EpochIsDayZero()
    ensures CivilFromDays(0) == Date(1970, 1, 1)
  {
  }

  lemma DatesFollowDays(a: int, b: int)
    requires a < b
    ensures Earlier(CivilFromDays(a), CivilFromDays(b))
  {
    NumberOfCivil(a);
    NumberOfCivil(b);
    NotEarlier(CivilFromDays(a), CivilFromDays(b));
  }

  lemma NotEarlier(x: Date, y: Date)
    requires ValidDate(x) && ValidDate(y) && DayNumber(x) < DayNumber(y)
    ensures Earlier(x, y)
  {
    if Earlier(y, x) {
      NumbersFollowDates(y, x);
    }
  }
}
