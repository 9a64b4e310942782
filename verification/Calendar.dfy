/** Days of the proleptic Gregorian calendar, as `toISOString().slice(0, 10)` prints them. */
module Calendar {
  import opened Domain
  import opened Text

  function Min(a: int, b: int): int { if a < b then a else b }

  /** Years begin on 1 March here, so that a leap day ends its year; an era is 400 years. The year of the era
      a day of the era falls in: whole centuries, whole four-year blocks, whole years. */
  function YearOfEra(dayOfEra: int): int {
    var c := Min(dayOfEra / 36524, 3);
    var q := Min((dayOfEra - 36524 * c) / 1461, 24);
    var y := Min((dayOfEra - 36524 * c - 1461 * q) / 365, 3);
    100 * c + 4 * q + y
  }

  /** The first day of a year of the era. */
  function YearStart(yearOfEra: int): int {
    365 * yearOfEra + yearOfEra / 4 - yearOfEra / 100
  }

  lemma YearOfEraIsRight(dayOfEra: int)
    requires 0 <= dayOfEra < 146097
    ensures 0 <= YearOfEra(dayOfEra) < 400
    ensures YearStart(YearOfEra(dayOfEra)) <= dayOfEra <= YearStart(YearOfEra(dayOfEra)) + 365
  {
    hide YearStart;
    var c := Min(dayOfEra / 36524, 3);
    var q := Min((dayOfEra - 36524 * c) / 1461, 24);
    var y := Min((dayOfEra - 36524 * c - 1461 * q) / 365, 3);
    YearStartOfParts(c, q, y);
  }

  lemma YearStartOfParts(c: int, q: int, y: int)
    requires 0 <= c <= 3 && 0 <= q <= 24 && 0 <= y <= 3
    ensures YearStart(100 * c + 4 * q + y) == 36524 * c + 1461 * q + 365 * y
  {
    assert (100 * c + 4 * q + y) / 4 == 25 * c + q;
    assert (100 * c + 4 * q + y) / 100 == c;
  }

  /** Year, month and day of a day number counted from 1 January 1970. */
  function Civil(day: int): (int, int, int) {
    var z := day + 719468;
    var era, dayOfEra := z / 146097, z % 146097;
    var yearOfEra := YearOfEra(dayOfEra);
    var dayOfYear := dayOfEra - YearStart(yearOfEra);
    var mp := (5 * dayOfYear + 2) / 153;
    var m := if mp < 10 then mp + 3 else mp - 9;
    (yearOfEra + era * 400 + (if m <= 2 then 1 else 0), m, dayOfYear - (153 * mp + 2) / 5 + 1)
  }

  /** The day number of a date. */
  function DayNumber(y: int, m: int, d: int): int {
    var marchYear := if m <= 2 then y - 1 else y;
    var mp := if m > 2 then m - 3 else m + 9;
    (marchYear / 400) * 146097 + YearStart(marchYear % 400) + (153 * mp + 2) / 5 + d - 1 - 719468
  }

  lemma MonthInRange(dayOfYear: int)
    requires 0 <= dayOfYear <= 365
    ensures var mp := (5 * dayOfYear + 2) / 153; 0 <= mp <= 11 && 0 <= dayOfYear - (153 * mp + 2) / 5 <= 30
  {
  }

  lemma EraSplits(era: int, yearOfEra: int)
    requires 0 <= yearOfEra < 400
    ensures (yearOfEra + era * 400) / 400 == era && (yearOfEra + era * 400) % 400 == yearOfEra
  {
  }

  /** Every day has one date. */
  lemma CivilInverts(day: int)
    ensures var (y, m, d) := Civil(day); 1 <= m <= 12 && 1 <= d <= 31 && DayNumber(y, m, d) == day
  {
    hide YearOfEra, YearStart;
    var z := day + 719468;
    var era, yearOfEra := z / 146097, YearOfEra(z % 146097);
    YearOfEraIsRight(z % 146097);
    MonthInRange(z % 146097 - YearStart(yearOfEra));
    EraSplits(era, yearOfEra);
  }

  // ------------------------------------------------ the calendar as one counts it

  /** Every fourth year but the centuries, and every fourth century. */
  predicate IsLeap(y: int) { y % 4 == 0 && (y % 100 != 0 || y % 400 == 0) }

  function DaysInMonth(y: int, m: int): int {
    if m == 2 then (if IsLeap(y) then 29 else 28)
    else if m == 4 || m == 6 || m == 9 || m == 11 then 30 else 31
  }

  predicate IsDate(y: int, m: int, d: int) { 1 <= m <= 12 && 1 <= d <= DaysInMonth(y, m) }

  function NextDate(y: int, m: int, d: int): (int, int, int) {
    if d < DaysInMonth(y, m) then (y, m, d + 1) else if m < 12 then (y, m + 1, 1) else (y + 1, 1, 1)
  }

  /** A day of the era that is the 366th of its year, counted from March, closes a leap year. */
  lemma LeapDayIsInLeapYear(dayOfEra: int, era: int)
    requires 0 <= dayOfEra < 146097 && dayOfEra - YearStart(YearOfEra(dayOfEra)) == 365
    ensures IsLeap(YearOfEra(dayOfEra) + era * 400 + 1)
  {
    hide YearStart;
    var c := Min(dayOfEra / 36524, 3);
    var q := Min((dayOfEra - 36524 * c) / 1461, 24);
    var y := Min((dayOfEra - 36524 * c - 1461 * q) / 365, 3);
    YearStartOfParts(c, q, y);
    assert y == 3;
    assert q == 24 ==> c == 3;
    LeapParts(c, q, era);
  }

  lemma LeapParts(c: int, q: int, era: int)
    requires 0 <= c <= 3 && 0 <= q <= 24 && (q == 24 ==> c == 3)
    ensures IsLeap(100 * c + 4 * q + 3 + era * 400 + 1)
  {
    var y := 100 * c + 4 * q + 3 + era * 400 + 1;
    assert y == 4 * (25 * c + q + 1 + 100 * era);
    assert y == 100 * (c + 4 * era) + 4 * (q + 1);
  }

  /** What `Civil` names is a date of the calendar. */
  lemma CivilIsDate(day: int)
    ensures var (y, m, d) := Civil(day); IsDate(y, m, d)
  {
    hide YearOfEra, YearStart, IsLeap;
    var z := day + 719468;
    var yearOfEra := YearOfEra(z % 146097);
    var dayOfYear := z % 146097 - YearStart(yearOfEra);
    YearOfEraIsRight(z % 146097);
    if dayOfYear == 365 {
      LeapDayIsInLeapYear(z % 146097, z / 146097);
    }
    MonthHolds(dayOfYear);
  }

  /** The month a day of the year counted from March falls in, and how far into it: 29 February is day 365. */
  lemma MonthHolds(dayOfYear: int)
    requires 0 <= dayOfYear <= 365
    ensures var mp := (5 * dayOfYear + 2) / 153;
            var d := dayOfYear - (153 * mp + 2) / 5 + 1;
            var m := if mp < 10 then mp + 3 else mp - 9;
            && 0 <= mp <= 11 && 1 <= d <= 31
            && (m == 4 || m == 6 || m == 9 || m == 11 ==> d <= 30)
            && (m == 2 ==> d <= 29 && (d == 29 ==> dayOfYear == 365))
  {
  }

  /** The first day of a year counted from March. */
  function YearDay(marchYear: int): int {
    (marchYear / 400) * 146097 + YearStart(marchYear % 400)
  }

  function LeapDay(y: int): int { if IsLeap(y) then 1 else 0 }

  lemma YearLength(marchYear: int)
    ensures YearDay(marchYear + 1) == YearDay(marchYear) + 365 + LeapDay(marchYear + 1)
  {
    var era, y := marchYear / 400, marchYear % 400;
    NextYearOfEra(era, y);
    LeapOfEra(era, y + 1);
    assert marchYear == y + era * 400;
  }

  lemma LeapOfEra(era: int, y: int)
    ensures IsLeap(y + era * 400) == IsLeap(y)
  {
    By4(y, 100 * era);
    By100(y, 4 * era);
    By400(y, era);
  }

  lemma By4(y: int, k: int)
    ensures (y + 4 * k) % 4 == y % 4
  {
  }

  lemma By100(y: int, k: int)
    ensures (y + 100 * k) % 100 == y % 100
  {
  }

  lemma By400(y: int, k: int)
    ensures (y + 400 * k) % 400 == y % 400
  {
  }

  lemma NextYearOfEra(era: int, y: int)
    requires 0 <= y < 400
    ensures YearDay(y + era * 400 + 1) == era * 146097 + YearStart(y) + 365 + LeapDay(y + 1)
  {
    hide YearStart, IsLeap;
    if y < 399 {
      EraSplits(era, y + 1);
      YearStartNext(y);
    } else {
      EraSplits(era + 1, 0);
      LastYearOfEra();
    }
  }

  lemma YearStartNext(y: int)
    requires 0 <= y < 399
    ensures YearStart(y + 1) == YearStart(y) + 365 + LeapDay(y + 1)
  {
    assert (y + 1) % 4 == 0 <==> (y + 1) / 4 == y / 4 + 1;
    assert (y + 1) % 100 == 0 <==> (y + 1) / 100 == y / 100 + 1;
  }

  lemma LastYearOfEra()
    ensures YearStart(0) + 146097 == YearStart(399) + 365 + LeapDay(400)
  {
  }

  lemma {:induction false} YearsFollow(a: int, b: int)
    requires a < b
    ensures YearDay(a) + 365 + LeapDay(a + 1) <= YearDay(b)
    decreases b - a
  {
    hide YearDay, IsLeap;
    YearLength(b - 1);
    if a < b - 1 {
      YearsFollow(a, b - 1);
    }
  }

  function MarchYear(y: int, m: int): int { if m <= 2 then y - 1 else y }

  /** The place of a date in its year counted from March. */
  function DayOfMarchYear(m: int, d: int): int {
    (153 * (if m > 2 then m - 3 else m + 9) + 2) / 5 + d - 1
  }

  lemma DayNumberParts(y: int, m: int, d: int)
    ensures DayNumber(y, m, d) == YearDay(MarchYear(y, m)) + DayOfMarchYear(m, d) - 719468
  {
  }

  lemma DayFitsItsYear(y: int, m: int, d: int)
    requires IsDate(y, m, d)
    ensures 0 <= DayOfMarchYear(m, d) < 365 + LeapDay(MarchYear(y, m) + 1)
  {
    hide IsLeap;
  }

  /** Within a year counted from March. */
  lemma DaysOfAYearFollow(y: int, m: int, d: int, y': int, m': int, d': int)
    requires IsDate(y, m, d) && IsDate(y', m', d') && MarchYear(y, m) == MarchYear(y', m')
    requires y < y' || (y == y' && (m < m' || (m == m' && d < d')))
    ensures DayOfMarchYear(m, d) < DayOfMarchYear(m', d')
  {
    hide IsLeap;
  }

  /** Days count in the order of the calendar. */
  lemma LaterDateLaterDay(y: int, m: int, d: int, y': int, m': int, d': int)
    requires IsDate(y, m, d) && IsDate(y', m', d')
    requires y < y' || (y == y' && (m < m' || (m == m' && d < d')))
    ensures DayNumber(y, m, d) < DayNumber(y', m', d')
  {
    hide IsDate, YearDay, DayOfMarchYear, DayNumber, IsLeap;
    DayNumberParts(y, m, d);
    DayNumberParts(y', m', d');
    DayFitsItsYear(y, m, d);
    DayFitsItsYear(y', m', d');
    if MarchYear(y, m) < MarchYear(y', m') {
      YearsFollow(MarchYear(y, m), MarchYear(y', m'));
    } else {
      MonthsInRange(y, m, d);
      MonthsInRange(y', m', d');
      DaysOfAYearFollow(y, m, d, y', m', d');
    }
  }

  lemma MonthsInRange(y: int, m: int, d: int)
    requires IsDate(y, m, d)
    ensures 1 <= m <= 12
  {
  }

  lemma NextDateIsNextDay(y: int, m: int, d: int)
    requires IsDate(y, m, d)
    ensures var (y', m', d') := NextDate(y, m, d); IsDate(y', m', d') && DayNumber(y', m', d') == DayNumber(y, m, d) + 1
  {
    hide YearDay, DayNumber, IsLeap;
    var (y', m', d') := NextDate(y, m, d);
    DayNumberParts(y, m, d);
    DayNumberParts(y', m', d');
    if m == 2 && m' == 3 {
      YearLength(y - 1);
    }
  }

  /** The civil calendar: day after day, the dates follow one another as on a calendar, from 1 January 1970. */
  lemma DatesFollow(day: int)
    ensures var (y, m, d) := Civil(day); Civil(day + 1) == NextDate(y, m, d)
    ensures Civil(0) == (1970, 1, 1)
  {
    hide Civil, DayNumber, IsDate, NextDate;
    var (y, m, d) := Civil(day);
    var (y', m', d') := Civil(day + 1);
    var (a, b, c) := NextDate(y, m, d);
    CivilIsDate(day);
    CivilIsDate(day + 1);
    CivilInverts(day);
    CivilInverts(day + 1);
    NextDateIsNextDay(y, m, d);
    SameDaySameDate(y', m', d', a, b, c);
    Epoch();
  }

  lemma Epoch()
    ensures Civil(0) == (1970, 1, 1)
  {
    hide Civil;
    assert DayNumber(1970, 1, 1) == 0;
    DateRoundTrip(1970, 1, 1);
  }

  /** Each date of the calendar has a day of its own. */
  lemma SameDaySameDate(y: int, m: int, d: int, y': int, m': int, d': int)
    requires IsDate(y, m, d) && IsDate(y', m', d') && DayNumber(y, m, d) == DayNumber(y', m', d')
    ensures (y, m, d) == (y', m', d')
  {
    hide IsDate, DayNumber;
    if (y, m, d) != (y', m', d') {
      if y < y' || (y == y' && (m < m' || (m == m' && d < d'))) {
        LaterDateLaterDay(y, m, d, y', m', d');
      } else {
        LaterDateLaterDay(y', m', d', y, m, d);
      }
    }
  }

  /** Dates and days correspond one to one. */
  lemma DateRoundTrip(y: int, m: int, d: int)
    requires IsDate(y, m, d)
    ensures Civil(DayNumber(y, m, d)) == (y, m, d)
  {
    hide IsDate, DayNumber, Civil;
    var (y', m', d') := Civil(DayNumber(y, m, d));
    CivilIsDate(DayNumber(y, m, d));
    CivilInverts(DayNumber(y, m, d));
    SameDaySameDate(y, m, d, y', m', d');
  }

  // -------------------------------------------------------------- printing

  predicate IsDateChar(c: char) { IsDigit(c) || c == '-' || c == '+' }

  function PrintedYear(y: int): (s: string)
    ensures |s| >= 4 && forall c :: c in s ==> IsDateChar(c)
  {
    if 0 <= y <= 9999 then Padded(y, 4) else (if y < 0 then "-" else "+") + Padded(Abs(y), 6)
  }

  /** `toISOString().slice(0, 10)`: years outside 0..9999 are printed with a sign and six digits. */
  function IsoDay(ms: int): (s: string)
    ensures |s| == 10 && forall c :: c in s ==> IsDateChar(c)
  {
    var (y, m, d) := Civil(ms / DAY_MS);
    (PrintedYear(y) + "-" + Padded(Abs(m), 2) + "-" + Padded(Abs(d), 2))[..10]
  }

  /** Reading a four-digit-year date. */
  function ParseDay(s: string): int
    requires |s| == 10
  {
    DayNumber(Value(s[..4]), Value(s[5..7]), Value(s[8..]))
  }

  lemma {:induction false} DigitCount(n: nat, width: nat, bound: nat)
    requires n < bound && bound == Power10(width) && width > 0
    ensures |DecNat(n)| <= width
  {
    if n >= 10 {
      assert width > 1;
      DigitCount(n / 10, width - 1, bound / 10);
    }
  }

  function Power10(k: nat): nat {
    if k == 0 then 1 else 10 * Power10(k - 1)
  }

  lemma PaddedLength(n: nat, width: nat)
    requires n < Power10(width) && width > 0
    ensures |Padded(n, width)| == width
  {
    DigitCount(n, width, Power10(width));
  }

  /** Midnight of 1 January of the years 0 and 10000. */
  const YEAR_0: int := -719528 * DAY_MS
  const YEAR_10000: int := 2932897 * DAY_MS

  lemma YearBounds(y: int, m: int, d: int)
    requires 1 <= m <= 12 && 1 <= d <= 31
    ensures DayNumber(y, m, d) >= -719528 <==> y >= 0
    ensures DayNumber(y, m, d) < 2932897 <==> y < 10000
  {
    var marchYear := if m <= 2 then y - 1 else y;
    var mp := if m > 2 then m - 3 else m + 9;
    var era, yearOfEra := marchYear / 400, marchYear % 400;
    assert 0 <= YearStart(yearOfEra) <= 145731;
    assert mp <= 9 ==> (153 * mp + 2) / 5 + d - 1 <= 305;
    assert mp >= 10 ==> 306 <= (153 * mp + 2) / 5 + d - 1 <= 367;
  }

  /** The printed day reads back as the day, in the years 0 to 9999. */
  lemma DayRoundTrip(ms: int)
    requires YEAR_0 <= ms < YEAR_10000
    ensures ParseDay(IsoDay(ms)) == ms / DAY_MS
  {
    hide Civil, DayNumber, Value, DecNat;
    var (y, m, d) := Civil(ms / DAY_MS);
    CivilInverts(ms / DAY_MS);
    YearBounds(y, m, d);
    assert Power10(4) == 10000 && Power10(2) == 100;
    PaddedLength(y, 4);
    PaddedLength(m, 2);
    PaddedLength(d, 2);
    ValueOfPadded(y, 4);
    ValueOfPadded(m, 2);
    ValueOfPadded(d, 2);
    var s := Padded(y, 4) + "-" + Padded(m, 2) + "-" + Padded(d, 2);
    assert s[..10] == s;
    assert s[..4] == Padded(y, 4) && s[5..7] == Padded(m, 2) && s[8..] == Padded(d, 2);
  }

  /** Outside the years 0 to 9999 the year takes a sign and six digits, and the day of the month is cut off. */
  lemma ExtendedYearIsPrinted(ms: int)
    requires var (y, m, d) := Civil(ms / DAY_MS);
             -1_000_000 < y < 0 || 9999 < y < 1_000_000
    ensures var (y, m, d) := Civil(ms / DAY_MS);
            && IsoDay(ms)[0] == (if y < 0 then '-' else '+')
            && Value(IsoDay(ms)[1..7]) == Abs(y) && IsoDay(ms)[7] == '-' && Value(IsoDay(ms)[8..]) == m
  {
    hide Civil, DayNumber, Value, DecNat;
    var (y, m, d) := Civil(ms / DAY_MS);
    CivilIsDate(ms / DAY_MS);
    assert Power10(6) == 1_000_000 && Power10(2) == 100;
    PaddedLength(Abs(y), 6);
    PaddedLength(m, 2);
    ValueOfPadded(Abs(y), 6);
    ValueOfPadded(m, 2);
    var s := (if y < 0 then "-" else "+") + Padded(Abs(y), 6) + "-" + Padded(m, 2) + "-" + Padded(d, 2);
    assert IsoDay(ms) == s[..10];
    assert s[..10] == (if y < 0 then "-" else "+") + Padded(Abs(y), 6) + "-" + Padded(m, 2);
    assert s[..10][1..7] == Padded(Abs(y), 6) && s[..10][8..] == Padded(m, 2);
  }

  /** In those years, two instants print the same day exactly when they fall on the same day. */
  lemma SameDayPrintedExactlyWhenSameDay(a: int, b: int)
    requires YEAR_0 <= a < YEAR_10000 && YEAR_0 <= b < YEAR_10000
    ensures IsoDay(a) == IsoDay(b) <==> DayStart(a) == DayStart(b)
  {
    hide Civil, IsoDay, ParseDay;
    DayRoundTrip(a);
    DayRoundTrip(b);
    if a / DAY_MS == b / DAY_MS {
      SameDaySamePrint(a, b);
    }
  }

  lemma SameDaySamePrint(a: int, b: int)
    requires a / DAY_MS == b / DAY_MS
    ensures IsoDay(a) == IsoDay(b)
  {
  }
}
