/**
 The proleptic Gregorian calendar of ECMA-262: the date abstract operations of section
 21.4.1 and `Date.UTC` of section 21.4.3.4.  Times are milliseconds since 1970-01-01.
 */
module Calendar {
  const MS_PER_DAY: int := 86_400_000

  /** A time value further than this from the epoch is not a date (TimeClip). */
  const MAX_TIME: int := 8_640_000_000_000_000

  predicate IsLeap(y: int) {
    (y % 4 == 0 && y % 100 != 0) || y % 400 == 0
  }

  function DaysInYear(y: int): int {
    if IsLeap(y) then 366 else 365
  }

  /** The number of the first day of year `y`, counted year by year from the epoch. */
  function DayFromYear(y: int): int
    decreases if y >= 1970 then y - 1970 else 1970 - y
  {
    if y == 1970 then 0
    else if y > 1970 then DayFromYear(y - 1) + DaysInYear(y - 1)
    else DayFromYear(y + 1) - DaysInYear(y)
  }

  lemma YearLength(y: int)
    ensures DayFromYear(y + 1) == DayFromYear(y) + DaysInYear(y)
  {
  }

  /** The closed form of the standard. */
  function DayNumber(y: int): int {
    365 * (y - 1970) + (y - 1969) / 4 - (y - 1901) / 100 + (y - 1601) / 400
  }

  lemma DayNumberStep(y: int)
    ensures DayNumber(y + 1) == DayNumber(y) + DaysInYear(y)
  {
    Quotient(y - 1969, 4);
    Quotient(y - 1901, 100);
    Quotient(y - 1601, 400);
  }

  lemma {:induction false} DayFromYearIsDayNumber(y: int)
    ensures DayFromYear(y) == DayNumber(y)
    decreases if y >= 1970 then y - 1970 else 1970 - y
  {
    if y > 1970 {
      DayFromYearIsDayNumber(y - 1);
      DayNumberStep(y - 1);
    } else if y < 1970 {
      DayFromYearIsDayNumber(y + 1);
      DayNumberStep(y);
    }
  }

  /** A floored quotient steps up exactly at the multiples of its divisor. */
  lemma Quotient(x: int, d: int)
    requires d > 0
    ensures (x + 1) / d == x / d + (if (x + 1) % d == 0 then 1 else 0)
  {
    var q, r := x / d, x % d;
    assert x == q * d + r;
    if r == d - 1 {
      assert x + 1 == (q + 1) * d;
      Divided(x + 1, d, q + 1, 0);
    } else {
      Divided(x + 1, d, q, r + 1);
    }
  }

  lemma Divided(x: int, d: int, q: int, r: int)
    requires d > 0 && x == q * d + r && 0 <= r < d
    ensures x / d == q && x % d == r
  {
    var k := x / d - q;
    assert x % d == r - k * d;
    assert k >= 1 ==> k * d >= d;
    assert k <= -1 ==> k * d <= -d;
  }

  lemma {:induction false} YearsOrdered(y: int, z: int)
    requires y <= z
    ensures 365 * (z - y) <= DayFromYear(z) - DayFromYear(y) <= 366 * (z - y)
    decreases z - y
  {
    if y < z {
      YearLength(z - 1);
      YearsOrdered(y, z - 1);
    }
  }

  /** The year a day falls in: the largest whose first day is not after it. */
  function YearFromDay(day: int): (y: int)
    ensures DayFromYear(y) <= day < DayFromYear(y + 1)
  {
    var guess := 1970 + (if day >= 0 then day / 366 else day / 365);
    YearsOrdered(if day >= 0 then 1970 else guess, if day >= 0 then guess else 1970);
    YearAtOrAfter(day, guess)
  }

  function YearAtOrAfter(day: int, guess: int): (y: int)
    requires DayFromYear(guess) <= day
    ensures DayFromYear(y) <= day < DayFromYear(y + 1)
    decreases day - DayFromYear(guess)
  {
    YearLength(guess);
    if day < DayFromYear(guess + 1) then guess else YearAtOrAfter(day, guess + 1)
  }

  /** No other year fits. */
  lemma YearIsUnique(day: int, y: int)
    requires DayFromYear(y) <= day < DayFromYear(y + 1)
    ensures YearFromDay(day) == y
  {
    var z := YearFromDay(day);
    if z < y {
      YearsOrdered(z + 1, y);
    } else if y < z {
      YearsOrdered(y + 1, z);
    }
  }

  /** Days before month `m` (0 is January) within its year. */
  function MonthStart(leap: bool, m: int): (d: int)
    requires 0 <= m <= 12
    ensures 0 <= d <= 366
  {
    var extra := if leap then 1 else 0;
    if m == 0 then 0
    else if m == 1 then 31
    else if m == 2 then 59 + extra
    else if m == 3 then 90 + extra
    else if m == 4 then 120 + extra
    else if m == 5 then 151 + extra
    else if m == 6 then 181 + extra
    else if m == 7 then 212 + extra
    else if m == 8 then 243 + extra
    else if m == 9 then 273 + extra
    else if m == 10 then 304 + extra
    else if m == 11 then 334 + extra
    else 365 + extra
  }

  function DaysInMonth(y: int, m: int): int
    requires 0 <= m < 12
  {
    MonthStart(IsLeap(y), m + 1) - MonthStart(IsLeap(y), m)
  }

  lemma MonthLength(leap: bool, m: int)
    requires 0 <= m < 12
    ensures MonthStart(leap, m + 1) - MonthStart(leap, m) ==
            if m == 1 then (if leap then 29 else 28) else if m == 3 || m == 5 || m == 8 || m == 10 then 30 else 31
  {
  }

  lemma LeapYears(y: int)
    ensures IsLeap(y) <==> y % 4 == 0 && (y % 100 == 0 ==> y % 400 == 0)
  {
    if y % 400 == 0 {
      var q := y / 400;
      Divided(y, 4, 100 * q, 0);
      Divided(y, 100, 4 * q, 0);
    }
  }

  /** Thirty days have September, April, June and November. */
  lemma MonthLengths(y: int, m: int)
    requires 0 <= m < 12
    ensures DaysInMonth(y, m) ==
            if m == 1 then (if y % 4 == 0 && (y % 100 == 0 ==> y % 400 == 0) then 29 else 28)
            else if m == 3 || m == 5 || m == 8 || m == 10 then 30
            else 31
  {
    LeapYears(y);
    MonthLength(IsLeap(y), m);
  }

  function MonthFromDayInYear(leap: bool, d: int): (m: int)
    requires 0 <= d < (if leap then 366 else 365)
    ensures 0 <= m < 12 && MonthStart(leap, m) <= d < MonthStart(leap, m + 1)
  {
    MonthAtOrAfter(leap, d, 0)
  }

  function MonthAtOrAfter(leap: bool, d: int, from: int): (m: int)
    requires 0 <= from < 12 && MonthStart(leap, from) <= d < MonthStart(leap, 12)
    ensures 0 <= m < 12 && MonthStart(leap, m) <= d < MonthStart(leap, m + 1)
    decreases 12 - from
  {
    if d < MonthStart(leap, from + 1) then from else MonthAtOrAfter(leap, d, from + 1)
  }

  // ---- Time values and their fields ----

  datatype Fields = Fields(year: int, month: int, day: int, hour: int, minute: int, second: int)

  /** A moment of the calendar: month from 0, day of the month from 1. */
  predicate ValidFields(f: Fields) {
    && 0 <= f.month < 12
    && 1 <= f.day <= DaysInMonth(f.year, f.month)
    && 0 <= f.hour < 24 && 0 <= f.minute < 60 && 0 <= f.second < 60
  }

  function Day(t: int): int { t / MS_PER_DAY }

  /** The fields of a moment given as day number and milliseconds into the day. */
  function FieldsOf(day: int, clock: int): (f: Fields)
    requires 0 <= clock < MS_PER_DAY
    ensures ValidFields(f)
  {
    var y := YearFromDay(day);
    YearLength(y);
    var inYear := day - DayFromYear(y);
    var m := MonthFromDayInYear(IsLeap(y), inYear);
    Fields(y, m, inYear - MonthStart(IsLeap(y), m) + 1,
           clock / 3_600_000, clock / 60_000 % 60, clock / 1000 % 60)
  }

  /** The UTC getters. */
  function UtcFields(t: int): (f: Fields)
    ensures ValidFields(f)
  {
    FieldsOf(Day(t), t % MS_PER_DAY)
  }

  /** MakeDay: out-of-range months and days carry over. */
  function MakeDay(year: int, month: int, date: int): int {
    var y := year + month / 12;
    var m := month % 12;
    DayFromYear(y) + MonthStart(IsLeap(y), m) + date - 1
  }

  /** A month twelve too high is the same month of the next year. */
  lemma MonthsCarryOver(y: int, next: int, m: int, higher: int, d: int)
    requires next == y + 1 && higher == m + 12
    ensures MakeDay(y, higher, d) == MakeDay(next, m, d)
  {
    Divided(higher, 12, m / 12 + 1, m % 12);
  }

  /** A day past a month's end is one of the next month. */
  lemma DaysCarryOver(y: int, next: int, m: int, following: int, d: int)
    requires next == y + 1 && 0 <= m < 12 && following == m + 1
    ensures MakeDay(y, m, d + DaysInMonth(y, m)) == MakeDay(y, following, d)
  {
    Divided(m, 12, 0, m);
    if following < 12 {
      Divided(following, 12, 0, following);
    } else {
      Divided(following, 12, 1, 0);
      assert MakeDay(y, following, d) == DayFromYear(next) + d - 1;
    }
    YearLength(y);
  }

  function MakeTime(hour: int, minute: int, second: int): int {
    hour * 3_600_000 + minute * 60_000 + second * 1000
  }

  /** The time value of calendar fields. */
  function TimeOf(f: Fields): int {
    MakeDay(f.year, f.month, f.day) * MS_PER_DAY + MakeTime(f.hour, f.minute, f.second)
  }

  /** `Date.UTC`: years 0 to 99 mean 1900 to 1999. */
  function DateUTC(f: Fields): int {
    TimeOf(if 0 <= f.year <= 99 then f.(year := 1900 + f.year) else f)
  }

  lemma RebuiltTime(f: Fields, rebuilt: Fields)
    requires rebuilt == if 0 <= f.year <= 99 then f.(year := 1900 + f.year) else f
    ensures DateUTC(f) == TimeOf(rebuilt)
  {
  }

  lemma UtcFieldsOfTime(f: Fields)
    requires ValidFields(f)
    ensures UtcFields(TimeOf(f)) == f
  {
    var day, clock := MakeDay(f.year, f.month, f.day), MakeTime(f.hour, f.minute, f.second);
    FieldsOfParts(f);
    UtcFieldsOfParts(day, clock, TimeOf(f));
  }

  lemma UtcFieldsOfParts(day: int, clock: int, t: int)
    requires 0 <= clock < MS_PER_DAY && t == day * MS_PER_DAY + clock
    ensures UtcFields(t) == FieldsOf(day, clock)
  {
    DayAndClock(day, clock);
    assert Day(t) == day && t % MS_PER_DAY == clock;
  }

  lemma FieldsOfDay(f: Fields)
    requires ValidFields(f)
    ensures var day := MakeDay(f.year, f.month, f.day);
            var inYear := day - DayFromYear(f.year);
            && YearFromDay(day) == f.year
            && 0 <= inYear < DaysInYear(f.year)
            && MonthFromDayInYear(IsLeap(f.year), inYear) == f.month
            && inYear - MonthStart(IsLeap(f.year), f.month) + 1 == f.day
  {
    var day := MakeDay(f.year, f.month, f.day);
    DayWithinYear(f);
    YearLength(f.year);
    YearIsUnique(day, f.year);
    MonthIsUnique(IsLeap(f.year), day - DayFromYear(f.year), f.month);
  }

  lemma FieldsOfParts(f: Fields)
    requires ValidFields(f)
    ensures 0 <= MakeTime(f.hour, f.minute, f.second) < MS_PER_DAY
    ensures FieldsOf(MakeDay(f.year, f.month, f.day), MakeTime(f.hour, f.minute, f.second)) == f
  {
    ClockFields(f.hour, f.minute, f.second);
    FieldsOfDay(f);
  }

  lemma DayAndClock(day: int, clock: int)
    requires 0 <= clock < MS_PER_DAY
    ensures Day(day * MS_PER_DAY + clock) == day && (day * MS_PER_DAY + clock) % MS_PER_DAY == clock
  {
  }

  lemma DayWithinYear(f: Fields)
    requires ValidFields(f)
    ensures DayFromYear(f.year) <= MakeDay(f.year, f.month, f.day) < DayFromYear(f.year + 1)
    ensures MakeDay(f.year, f.month, f.day) == DayFromYear(f.year) + MonthStart(IsLeap(f.year), f.month) + f.day - 1
  {
    YearLength(f.year);
    MonthsOrdered(IsLeap(f.year), f.month);
  }

  lemma MonthsOrdered(leap: bool, m: int)
    requires 0 <= m < 12
    ensures 0 <= MonthStart(leap, m) < MonthStart(leap, m + 1) <= (if leap then 366 else 365)
  {
  }

  lemma MonthIsUnique(leap: bool, d: int, m: int)
    requires 0 <= m < 12 && MonthStart(leap, m) <= d < MonthStart(leap, m + 1)
    requires 0 <= d < (if leap then 366 else 365)
    ensures MonthFromDayInYear(leap, d) == m
  {
    var found := MonthFromDayInYear(leap, d);
    if found < m {
      MonthStartGrows(leap, found, m);
    } else if m < found {
      MonthStartGrows(leap, m, found);
    }
  }

  lemma MonthStartGrows(leap: bool, m: int, n: int)
    requires 0 <= m < n <= 12
    ensures MonthStart(leap, m + 1) <= MonthStart(leap, n)
  {
  }

  lemma ClockFields(h: int, m: int, s: int)
    requires 0 <= h < 24 && 0 <= m < 60 && 0 <= s < 60
    ensures var t := MakeTime(h, m, s);
            0 <= t < MS_PER_DAY && t / 3_600_000 == h && t / 60_000 % 60 == m && t / 1000 % 60 == s
  {
    var t := MakeTime(h, m, s);
    assert t / 60_000 == h * 60 + m;
    assert t / 1000 == (h * 60 + m) * 60 + s;
  }

  lemma ClockOfFields(c: int)
    requires 0 <= c < MS_PER_DAY
    ensures MakeTime(c / 3_600_000, c / 60_000 % 60, c / 1000 % 60) == c - c % 1000
  {
    var seconds := c / 1000;
    var minutes := seconds / 60;
    assert c / 60_000 == minutes;
    assert c / 3_600_000 == minutes / 60;
    assert minutes == minutes / 60 * 60 + minutes % 60;
    assert seconds == minutes * 60 + seconds % 60;
  }

  lemma DayOfUtcFields(t: int, f: Fields)
    requires f == UtcFields(t)
    ensures MakeDay(f.year, f.month, f.day) == Day(t)
  {
    DayWithinYear(f);
  }

  lemma ClockOfDayFields(day: int, clock: int, f: Fields)
    requires 0 <= clock < MS_PER_DAY && f == FieldsOf(day, clock)
    ensures MakeTime(f.hour, f.minute, f.second) == clock - clock % 1000
  {
    ClockOfFields(clock);
  }

  lemma MillisOfDay(t: int)
    ensures t % MS_PER_DAY % 1000 == t % 1000
  {
  }

  /** Reading the fields back and rebuilding gives the time, cut to the second. */
  lemma TimeOfUtcFields(t: int)
    ensures TimeOf(UtcFields(t)) == t - t % 1000
  {
    var f := UtcFields(t);
    DayOfUtcFields(t, f);
    ClockOfDayFields(Day(t), t % MS_PER_DAY, f);
    MillisOfDay(t);
  }

  lemma DateUtcRoundTrip(t: int)
    requires !(0 <= UtcFields(t).year <= 99)
    ensures DateUTC(UtcFields(t)) == t - t % 1000
  {
    TimeOfUtcFields(t);
  }

  // ---- Order ----

  predicate Before(f: Fields, g: Fields) {
    if f.year != g.year then f.year < g.year
    else if f.month != g.month then f.month < g.month
    else if f.day != g.day then f.day < g.day
    else if f.hour != g.hour then f.hour < g.hour
    else if f.minute != g.minute then f.minute < g.minute
    else f.second < g.second
  }

  lemma EarlierDay(f: Fields, g: Fields)
    requires ValidFields(f) && ValidFields(g)
    requires f.year < g.year || (f.year == g.year && (f.month < g.month || (f.month == g.month && f.day < g.day)))
    ensures MakeDay(f.year, f.month, f.day) < MakeDay(g.year, g.month, g.day)
  {
    DayWithinYear(f);
    DayWithinYear(g);
    if f.year < g.year {
      YearsOrdered(f.year + 1, g.year);
    } else if f.month < g.month {
      MonthStartGrows(IsLeap(f.year), f.month, g.month);
    }
  }

  lemma EarlierIsSmaller(f: Fields, g: Fields)
    requires ValidFields(f) && ValidFields(g) && Before(f, g)
    ensures TimeOf(f) < TimeOf(g)
  {
    if f.year == g.year && f.month == g.month && f.day == g.day {
      assert MakeTime(f.hour, f.minute, f.second) < MakeTime(g.hour, g.minute, g.second);
    } else {
      EarlierDay(f, g);
      assert 0 <= MakeTime(f.hour, f.minute, f.second) < MS_PER_DAY;
      assert 0 <= MakeTime(g.hour, g.minute, g.second);
    }
  }

  /** Time values order calendar moments. */
  lemma TimeOrdersFields(f: Fields, g: Fields)
    requires ValidFields(f) && ValidFields(g)
    ensures TimeOf(f) < TimeOf(g) <==> Before(f, g)
  {
    if Before(f, g) {
      EarlierIsSmaller(f, g);
    } else if Before(g, f) {
      EarlierIsSmaller(g, f);
    } else {
      assert f == g;
    }
  }
}
