/**
 From a device's timestamp text to an instant: parsing (src/adms/parsers/attlog.ts), then the zone
 conversion (src/adms/timezone.ts).
 */
module Readings {
  import opened Options
  import opened Calendar
  import opened Datetime
  import opened JsText
  import opened Timezone

  lemma ParsedFrom(text: string, s: string)
    requires s == Trim(text) && ParseDeviceDatetime(text).Some?
    ensures Matches(s) && ParseDeviceDatetime(text).value == DateUTC(Captured(s))
  {
  }

  lemma DateUtcIsWhole(f: Fields, rebuilt: Fields)
    requires rebuilt == if 0 <= f.year <= 99 then f.(year := 1900 + f.year) else f
    ensures Whole(DateUTC(f))
  {
    RebuiltTime(f, rebuilt);
    WholeTime(rebuilt, MakeDay(rebuilt.year, rebuilt.month, rebuilt.day));
  }

  lemma ParsedTimesAreWhole(text: string)
    requires ParseDeviceDatetime(text).Some?
    ensures Whole(ParseDeviceDatetime(text).value)
  {
    var s := Trim(text);
    ParsedFrom(text, s);
    var f := Captured(s);
    DateUtcIsWhole(f, if 0 <= f.year <= 99 then f.(year := 1900 + f.year) else f);
  }

  // ---- Texts that parse to a time before the year 100 ----

  lemma NotBeforeYear100(f: Fields, day: int)
    requires f.hour >= 0 && f.minute >= 0 && f.second >= 0
    requires day == MakeDay(f.year, f.month, f.day) && day >= DayFromYear(100)
    ensures TimeOf(f) >= YEAR_100
  {
    Year100Begins();
  }

  /** Out-of-range months and days carry forward; a zero goes back by less than a year. */
  lemma CarriesBackAYearAtMost(year: int, month: int, date: int, y: int)
    requires month >= -1 && date >= 0 && y == year + month / 12
    ensures MakeDay(year, month, date) >= DayFromYear(year - 1)
    ensures month >= 0 && date >= 1 ==> MakeDay(year, month, date) >= DayFromYear(year)
  {
    YearsOrdered(year - 1, y);
    if month >= 0 {
      YearsOrdered(year, y);
    }
    if month == -1 {
      Divided(-1, 12, -1, 11);
    } else {
      YearsOrdered(year - 1, year);
    }
  }

  lemma RebuiltNotBeforeYear100(f: Fields)
    requires InDigits(f) && f.year >= 100 && (f.year == 100 ==> f.month >= 0 && f.day >= 1)
    ensures TimeOf(f) >= YEAR_100
  {
    CarriesBackAYearAtMost(f.year, f.month, f.day, f.year + f.month / 12);
    if f.year > 100 {
      YearsOrdered(100, f.year - 1);
    }
    NotBeforeYear100(f, MakeDay(f.year, f.month, f.day));
  }

  /** Only the year 100 with a month or a day of zero goes back past its beginning. */
  lemma OnlyAZeroGoesBack(s: string, t: int)
    requires Matches(s) && ParseDeviceDatetime(s) == Some(t) && t < YEAR_100
    ensures Captured(s).year == 100 && (Captured(s).month == -1 || Captured(s).day == 0)
  {
    var f := Captured(s);
    MatchingTextIsADate(s);
    CapturedInDigits(s);
    var rebuilt := if 0 <= f.year <= 99 then f.(year := 1900 + f.year) else f;
    RebuiltTime(f, rebuilt);
    if !(f.year == 100 && (f.month == -1 || f.day == 0)) {
      RebuiltNotBeforeYear100(rebuilt);
    }
  }

  // ---- Texts whose instant is lost ----

  lemma NumOfText100()
    ensures Num("0100") == 100 && Num("00") == 0 && Num("01") == 1
  {
    Num2("00");
    Num2("01");
    Num2("10");
    assert "0100"[..3] == "010" && "010"[..2] == "01";
  }

  lemma DateParses(s: string, year: string, month: string, day: string, midnight: string, f: Fields, t: int)
    requires |year| == 4 && |month| == |day| == |midnight| == 2
    requires AllDigits(year) && AllDigits(month) && AllDigits(day) && AllDigits(midnight)
    requires s == year + "-" + month + "-" + day + " " + midnight + ":" + midnight + ":" + midnight
    requires f == Fields(Num(year), Num(month) - 1, Num(day), Num(midnight), Num(midnight), Num(midnight))
    requires t == DateUTC(f)
    ensures ParseDeviceDatetime(s) == Some(t)
  {
    TimestampParts(s, year, month, day, midnight, midnight, midnight);
    CapturedTextParses(s, f, t);
  }

  lemma DayInJanuary(f: Fields, day: int)
    requires f.month == 0 && day == DayFromYear(f.year) + f.day - 1
    ensures MakeDay(f.year, f.month, f.day) == day
  {
  }

  lemma PartsOfTime(f: Fields, day: int, clock: int)
    requires day == MakeDay(f.year, f.month, f.day) && clock == MakeTime(f.hour, f.minute, f.second)
    ensures TimeOf(f) == day * MS_PER_DAY + clock
  {
  }

  lemma NoClock(f: Fields)
    requires f.hour == f.minute == f.second == 0
    ensures MakeTime(f.hour, f.minute, f.second) == 0
  {
  }

  lemma DateOfParts(f: Fields, day: int)
    requires f.year >= 100 && day == MakeDay(f.year, f.month, f.day) && MakeTime(f.hour, f.minute, f.second) == 0
    ensures DateUTC(f) == day * MS_PER_DAY
  {
    RebuiltTime(f, f);
    PartsOfTime(f, day, 0);
  }

  lemma MidnightInJanuary(f: Fields, day: int)
    requires f.year >= 100 && f.month == 0 && f.hour == f.minute == f.second == 0
    requires day == DayFromYear(f.year) + f.day - 1
    ensures DateUTC(f) == day * MS_PER_DAY
  {
    DayInJanuary(f, day);
    NoClock(f);
    DateOfParts(f, day);
  }

  lemma MidnightOf100(f: Fields, year: int, date: int)
    requires f == Fields(year, 0, date, 0, 0, 0) && year == 100
    ensures DateUTC(f) == YEAR_100 + (date - 1) * MS_PER_DAY
  {
    Year100Begins();
    MidnightInJanuary(f, DayFromYear(year) + date - 1);
  }

  lemma JanuaryParses(s: string, year: string, month: string, day: string, zero: string, date: int)
    requires |year| == 4 && |month| == |day| == |zero| == 2
    requires AllDigits(year) && AllDigits(month) && AllDigits(day) && AllDigits(zero)
    requires Num(year) == 100 && Num(month) == 1 && Num(day) == date && Num(zero) == 0
    requires s == year + "-" + month + "-" + day + " " + zero + ":" + zero + ":" + zero
    ensures ParseDeviceDatetime(s) == Some(YEAR_100 + (date - 1) * MS_PER_DAY)
  {
    var f := Fields(Num(year), Num(month) - 1, date, Num(zero), Num(zero), Num(zero));
    MidnightOf100(f, Num(year), date);
    DateParses(s, year, month, day, zero, f, DateUTC(f));
  }

  /** A text a device may send: midnight of a day of January of the year 100. */
  lemma JanuaryOf100Parses(day: string, date: int) returns (s: string)
    requires |day| == 2 && AllDigits(day) && date == Num(day)
    ensures s == "0100" + "-" + "01" + "-" + day + " " + "00" + ":" + "00" + ":" + "00"
    ensures ParseDeviceDatetime(s) == Some(YEAR_100 + (date - 1) * MS_PER_DAY)
  {
    var year, month, zero := "0100", "01", "00";
    NumOfText100();
    s := year + "-" + month + "-" + day + " " + zero + ":" + zero + ":" + zero;
    JanuaryParses(s, year, month, day, zero, date);
  }

  lemma NotSinceYear100(z: Zone, w: int, o1: int)
    requires |z.offsets| == |z.transitions| + 1 && o1 == OffsetAt(z, w) && (w < YEAR_100 || w + o1 < YEAR_100)
    ensures !SinceYear100(z, w)
  {
  }

  /** Midnight of January 1 is lost in every zone behind UTC, that of January 0 in every zone at all. */
  lemma EarlyReadingsAreLost(z: Zone, bound: int, w: int, o1: int)
    requires ValidZone(z, bound) && bound <= MS_PER_DAY && Whole(w)
    requires o1 == OffsetAt(z, w) && (w < YEAR_100 || (w == YEAR_100 && o1 < 0))
    ensures !Shows(z, ZonedWallClockToUtc(z, w), w)
  {
    NotSinceYear100(z, w, o1);
    NothingShownBefore(z, bound, w, UtcFields(w).year);
  }
}
