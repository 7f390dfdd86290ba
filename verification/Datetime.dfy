/**
 Device timestamps: parsing (src/adms/parsers/attlog.ts) and the Frappe format
 (src/webhooks/dispatcher.ts), which is its inverse on calendar dates.
 */
module Datetime {
  import opened Options
  import opened Calendar
  import opened JsText

  /** `dddd-dd-dd[ T]dd:dd:dd`, and nothing else. */
  predicate Matches(s: string) {
    && |s| == 19
    && AllDigits(s[0..4]) && s[4] == '-' && AllDigits(s[5..7]) && s[7] == '-' && AllDigits(s[8..10])
    && (s[10] == ' ' || s[10] == 'T')
    && AllDigits(s[11..13]) && s[13] == ':' && AllDigits(s[14..16]) && s[16] == ':' && AllDigits(s[17..19])
  }

  function Captured(s: string): Fields
    requires Matches(s)
  {
    Fields(Num(s[0..4]), Num(s[5..7]) - 1, Num(s[8..10]), Num(s[11..13]), Num(s[14..16]), Num(s[17..19]))
  }

  /** `None` for text that does not match, or for a time no date can hold. */
  function ParseDeviceDatetime(value: string): Option<int> {
    var s := Trim(value);
    if !Matches(s) then None
    else
      var t := DateUTC(Captured(s));
      if -MAX_TIME <= t <= MAX_TIME then Some(t) else None
  }

  function Layout(year: string, month: string, day: string, hour: string, minute: string, second: string): string {
    year + "-" + month + "-" + day + " " + hour + ":" + minute + ":" + second + ".000000"
  }

  function FormatFields(f: Fields): string
    requires ValidFields(f)
  {
    Layout(JsString(f.year), Pad2(f.month + 1), Pad2(f.day), Pad2(f.hour), Pad2(f.minute), Pad2(f.second))
  }

  function FormatFrappeTimestamp(t: int): string {
    FormatFields(UtcFields(t))
  }

  /** The same digits with a space and six zero decimals. */
  function Expected(s: string): string
    requires Matches(s)
  {
    s[..10] + " " + s[11..] + ".000000"
  }

  lemma ExpectedLayout(s: string)
    requires Matches(s)
    ensures Expected(s) == Layout(s[0..4], s[5..7], s[8..10], s[11..13], s[14..16], s[17..19])
  {
  }

  lemma LayoutParts(year: string, month: string, day: string, hour: string, minute: string, second: string)
    requires |year| == 4 && |month| == |day| == |hour| == |minute| == |second| == 2
    ensures var l := Layout(year, month, day, hour, minute, second);
            && |l| == 26
            && l[0..4] == year && l[5..7] == month && l[8..10] == day
            && l[11..13] == hour && l[14..16] == minute && l[17..19] == second
  {
  }

  /** The format gives the digits back exactly for calendar dates of the years 1000 to 9999. */
  ghost predicate RoundTrips(s: string)
    requires Matches(s)
  {
    ParseDeviceDatetime(s).Some? && FormatFrappeTimestamp(ParseDeviceDatetime(s).value) == Expected(s)
  }

  lemma MatchedIsTrimmed(s: string)
    requires Matches(s)
    ensures Trim(s) == s
  {
    assert IsDigit(s[0..4][0]) && IsDigit(s[17..19][1]);
    TrimKeepsTrimmed(s);
  }

  /** What a text of the right shape can say, month and day possibly out of range. */
  predicate InDigits(f: Fields) {
    && 0 <= f.year < 10_000 && -1 <= f.month < 99 && 0 <= f.day < 100
    && 0 <= f.hour < 100 && 0 <= f.minute < 100 && 0 <= f.second < 100
  }

  lemma CapturedInDigits(s: string)
    requires Matches(s)
    ensures InDigits(Captured(s))
  {
    NumBelow10000(s[0..4]);
    NumBelow100(s[5..7]);
    NumBelow100(s[8..10]);
    NumBelow100(s[11..13]);
    NumBelow100(s[14..16]);
    NumBelow100(s[17..19]);
  }

  lemma DigitsAreInRange(f: Fields, rebuilt: Fields, t: int)
    requires InDigits(f) && rebuilt == (if 0 <= f.year <= 99 then f.(year := 1900 + f.year) else f)
    requires t == DateUTC(f)
    ensures -MAX_TIME <= t <= MAX_TIME
  {
    RebuiltTime(f, rebuilt);
    SmallFieldsAreInRange(rebuilt);
  }

  lemma ParsesTo(s: string, f: Fields, t: int)
    requires Trim(s) == s && Matches(s) && f == Captured(s) && t == DateUTC(f) && -MAX_TIME <= t <= MAX_TIME
    ensures ParseDeviceDatetime(s) == Some(t)
  {
  }

  /** A matching text always yields a date: the widest carry stays far inside the range of time values. */
  lemma MatchingTextIsADate(s: string)
    requires Matches(s)
    ensures ParseDeviceDatetime(s) == Some(DateUTC(Captured(s)))
  {
    var f := Captured(s);
    MatchedIsTrimmed(s);
    CapturedInDigits(s);
    DigitsAreInRange(f, if 0 <= f.year <= 99 then f.(year := 1900 + f.year) else f, DateUTC(f));
    ParsesTo(s, f, DateUTC(f));
  }

  lemma NumBelow100(u: string)
    requires |u| == 2 && AllDigits(u)
    ensures Num(u) < 100
  {
    Num2(u);
  }

  lemma NumBelow10000(u: string)
    requires |u| == 4 && AllDigits(u)
    ensures Num(u) < 10_000
  {
    NumBound(u);
    assert Pow10(4) == 10 * (10 * (10 * Pow10(1)));
  }

  lemma SmallFieldsAreInRange(f: Fields)
    requires InDigits(f)
    ensures -MAX_TIME <= TimeOf(f) <= MAX_TIME
  {
    var day := MakeDay(f.year, f.month, f.day);
    DayInRange(f.year, f.month, f.day, f.year + f.month / 12);
    RangeOfTime(f, day);
  }

  lemma DayInRange(year: int, month: int, date: int, y: int)
    requires 0 <= year < 10_000 && -1 <= month < 99 && 0 <= date < 100 && y == year + month / 12
    ensures -800_000 <= MakeDay(year, month, date) <= 3_000_000
  {
    DayFromYearNearEpoch(y);
  }

  lemma RangeOfTime(f: Fields, day: int)
    requires InDigits(f) && day == MakeDay(f.year, f.month, f.day) && -800_000 <= day <= 3_000_000
    ensures -MAX_TIME <= TimeOf(f) <= MAX_TIME
  {
  }

  lemma DayFromYearNearEpoch(y: int)
    requires -1 <= y <= 10_010
    ensures -366 * 1971 <= DayFromYear(y) <= 366 * 8040
  {
    if y <= 1970 {
      YearsOrdered(y, 1970);
    } else {
      YearsOrdered(1970, y);
    }
  }

  lemma ValidDateFormatsBack(s: string)
    requires Matches(s) && ValidFields(Captured(s)) && Captured(s).year >= 1000
    ensures FormatFields(Captured(s)) == Expected(s)
  {
    var year := s[0..4];
    NumBelow1000IfLeadingZero(year);
    DecimalOfNum(year);
    Pad2OfNum(s[5..7]);
    Pad2OfNum(s[8..10]);
    Pad2OfNum(s[11..13]);
    Pad2OfNum(s[14..16]);
    Pad2OfNum(s[17..19]);
    ExpectedLayout(s);
  }

  lemma NumBelow1000IfLeadingZero(u: string)
    requires |u| == 4 && AllDigits(u)
    ensures u[0] == '0' <==> Num(u) < 1000
  {
    if u[0] == '0' {
      DropLeadingZero(u);
      NumBound(u[1..]);
      assert Pow10(3) == 10 * (10 * Pow10(1));
    } else {
      LeadingDigitCounts(u);
      assert Pow10(3) == 10 * (10 * Pow10(1));
    }
  }

  lemma {:induction false} DropLeadingZero(u: string)
    requires u != [] && AllDigits(u) && u[0] == '0'
    ensures Num(u) == Num(u[1..])
  {
    if |u| > 1 {
      DropLeadingZero(u[..|u| - 1]);
      assert u[..|u| - 1][1..] == u[1..][..|u| - 2];
    } else {
      assert u[..0] == [];
    }
  }

  /** Only the captured fields can format to the expected text. */
  lemma FormatDeterminesFields(s: string, g: Fields)
    requires Matches(s) && ValidFields(g) && FormatFields(g) == Expected(s)
    ensures g == Captured(s) && g.year >= 1000
  {
    ExpectedLayout(s);
    MonthLengthsFit(g);
    var year := JsString(g.year);
    Pad2IsTwoDigits(g.month + 1);
    Pad2IsTwoDigits(g.day);
    Pad2IsTwoDigits(g.hour);
    Pad2IsTwoDigits(g.minute);
    Pad2IsTwoDigits(g.second);
    assert |FormatFields(g)| == |year| + 22 && |Expected(s)| == 26;
    LayoutParts(year, Pad2(g.month + 1), Pad2(g.day), Pad2(g.hour), Pad2(g.minute), Pad2(g.second));
    LayoutParts(s[0..4], s[5..7], s[8..10], s[11..13], s[14..16], s[17..19]);
    assert year == s[0..4];
    FourDigitYear(g.year);
  }

  lemma FourDigitYear(y: int)
    requires |JsString(y)| == 4 && AllDigits(JsString(y))
    ensures y >= 1000 && Num(JsString(y)) == y
  {
    assert y < 0 ==> JsString(y)[0] == '-';
    assert IsDigit(JsString(y)[0]);
    DecimalLength(y, 4);
    assert Pow10(3) == 10 * (10 * Pow10(1));
    assert |Decimal(0)| == 1;
  }

  lemma MonthLengthsFit(g: Fields)
    requires ValidFields(g)
    ensures g.day < 100
  {
  }

  /**
   The Frappe format inverts the parser on a matching text if and only if the text names a
   moment of the calendar and its year has no leading zero.
   */
  lemma RoundTripsExactly(s: string)
    requires Matches(s)
    ensures RoundTrips(s) <==> ValidFields(Captured(s)) && Captured(s).year >= 1000
  {
    MatchingTextIsADate(s);
    var t := DateUTC(Captured(s));
    if ValidFields(Captured(s)) && Captured(s).year >= 1000 {
      UtcFieldsOfTime(Captured(s));
      ValidDateFormatsBack(s);
    }
    if RoundTrips(s) {
      FormatDeterminesFields(s, UtcFields(t));
    }
  }

  // ---- Which texts are timestamps ----

  /** Character by character: digits, hyphens, one space or T, and colons. */
  predicate TimestampShaped(s: string) {
    && |s| == 19
    && (forall k :: 0 <= k < 19 && k != 4 && k != 7 && k != 10 && k != 13 && k != 16 ==> '0' <= s[k] <= '9')
    && s[4] == s[7] == '-' && (s[10] == ' ' || s[10] == 'T') && s[13] == s[16] == ':'
  }

  lemma ShapedPart(s: string, from: nat, to: nat)
    requires from <= to <= |s|
    ensures AllDigits(s[from..to]) <==> forall k :: from <= k < to ==> '0' <= s[k] <= '9'
  {
    if AllDigits(s[from..to]) {
      forall k | from <= k < to ensures '0' <= s[k] <= '9' {
        assert IsDigit(s[from..to][k - from]);
      }
    }
  }

  lemma ShapedMatches(s: string)
    ensures Matches(s) <==> TimestampShaped(s)
  {
    if |s| == 19 {
      ShapedPart(s, 0, 4);
      ShapedPart(s, 5, 7);
      ShapedPart(s, 8, 10);
      ShapedPart(s, 11, 13);
      ShapedPart(s, 14, 16);
      ShapedPart(s, 17, 19);
    }
  }

  /** A text is a timestamp exactly if, white space around it apart, it has that shape. */
  lemma ParsesExactlyTimestamps(left: string, s: string, right: string)
    requires AllSpaces(left) && Trimmed(s) && AllSpaces(right)
    ensures ParseDeviceDatetime(left + s + right).Some? <==> TimestampShaped(s)
    ensures ParseDeviceDatetime(left + s + right) == ParseDeviceDatetime(s)
  {
    TrimOfPadded(left, s, right);
    TrimKeepsTrimmed(s);
    ShapedMatches(s);
    if Matches(s) {
      MatchingTextIsADate(s);
    }
  }

  /** A T between date and time reads as a space does. */
  lemma SeparatorsReadAlike(s: string, u: string)
    requires TimestampShaped(s) && TimestampShaped(u) && s[..10] == u[..10] && s[11..] == u[11..]
    ensures ParseDeviceDatetime(s) == ParseDeviceDatetime(u)
  {
    ShapedMatches(s);
    ShapedMatches(u);
    MatchingTextIsADate(s);
    MatchingTextIsADate(u);
    SameParts(s, u);
  }

  lemma SameParts(s: string, u: string)
    requires Matches(s) && Matches(u) && s[..10] == u[..10] && s[11..] == u[11..]
    ensures Captured(s) == Captured(u)
  {
    assert s[0..4] == s[..10][0..4] && s[5..7] == s[..10][5..7] && s[8..10] == s[..10][8..10];
    assert u[0..4] == u[..10][0..4] && u[5..7] == u[..10][5..7] && u[8..10] == u[..10][8..10];
    assert s[11..13] == s[11..][..2] && s[14..16] == s[11..][3..5] && s[17..19] == s[11..][6..8];
    assert u[11..13] == u[11..][..2] && u[14..16] == u[11..][3..5] && u[17..19] == u[11..][6..8];
  }

  // ---- Order ----

  function DigitsOf(s: string): string
    requires Matches(s)
  {
    s[0..4] + (s[5..7] + (s[8..10] + (s[11..13] + (s[14..16] + s[17..19]))))
  }

  lemma DigitOrderIsFieldOrder(s: string, u: string)
    requires Matches(s) && Matches(u)
    ensures LexLess(DigitsOf(s), DigitsOf(u)) <==> Before(Captured(s), Captured(u))
  {
    LexIsNumeric(s[0..4], u[0..4]);
    LexIsNumeric(s[5..7], u[5..7]);
    LexIsNumeric(s[8..10], u[8..10]);
    LexIsNumeric(s[11..13], u[11..13]);
    LexIsNumeric(s[14..16], u[14..16]);
    LexIsNumeric(s[17..19], u[17..19]);
    LexConcat(s[14..16], s[17..19], u[14..16], u[17..19]);
    LexConcat(s[11..13], s[14..16] + s[17..19], u[11..13], u[14..16] + u[17..19]);
    LexConcat(s[8..10], s[11..13] + (s[14..16] + s[17..19]), u[8..10], u[11..13] + (u[14..16] + u[17..19]));
    LexConcat(s[5..7], s[8..10] + (s[11..13] + (s[14..16] + s[17..19])),
              u[5..7], u[8..10] + (u[11..13] + (u[14..16] + u[17..19])));
    LexConcat(s[0..4], s[5..7] + (s[8..10] + (s[11..13] + (s[14..16] + s[17..19]))),
              u[0..4], u[5..7] + (u[8..10] + (u[11..13] + (u[14..16] + u[17..19]))));
  }

  /** On calendar dates from the year 100 on, parsed times are ordered as the digits read. */
  lemma ParsingKeepsOrder(s: string, u: string)
    requires Matches(s) && ValidFields(Captured(s)) && Captured(s).year >= 100
    requires Matches(u) && ValidFields(Captured(u)) && Captured(u).year >= 100
    ensures ParseDeviceDatetime(s).Some? && ParseDeviceDatetime(u).Some?
    ensures ParseDeviceDatetime(s).value < ParseDeviceDatetime(u).value <==> LexLess(DigitsOf(s), DigitsOf(u))
  {
    MatchingTextIsADate(s);
    MatchingTextIsADate(u);
    DigitOrderIsFieldOrder(s, u);
    TimeOrdersFields(Captured(s), Captured(u));
  }

  // ---- Printing a timestamp as a device sends it ----

  function PrintTimestamp(f: Fields): string
    requires ValidFields(f) && 1000 <= f.year <= 9999
  {
    Decimal(f.year) + "-" + Pad2(f.month + 1) + "-" + Pad2(f.day) + " "
    + Pad2(f.hour) + ":" + Pad2(f.minute) + ":" + Pad2(f.second)
  }

  lemma YearHasFourDigits(y: int)
    requires 1000 <= y <= 9999
    ensures |Decimal(y)| == 4
  {
    var k := |Decimal(y)|;
    DecimalLength(y, k);
    assert Pow10(3) == 10 * (10 * Pow10(1)) && Pow10(4) == 10 * Pow10(3);
    if k < 4 {
      Pow10Grows(k, 3);
    } else if k > 4 {
      Pow10Grows(4, k - 1);
    }
  }

  lemma {:induction false} Pow10Grows(m: nat, n: nat)
    requires m <= n
    ensures Pow10(m) <= Pow10(n)
  {
    if m < n {
      Pow10Grows(m, n - 1);
    }
  }

  lemma CapturedTextParses(s: string, f: Fields, t: int)
    requires Matches(s) && Captured(s) == f && DateUTC(f) == t
    ensures ParseDeviceDatetime(s) == Some(t)
  {
    MatchingTextIsADate(s);
  }

  lemma PrintedTimestampParses(t: int, f: Fields, s: string)
    requires t % 1000 == 0 && f == UtcFields(t) && 1000 <= f.year <= 9999 && s == PrintTimestamp(f)
    ensures ParseDeviceDatetime(s) == Some(t)
  {
    PrintedFieldsAreCaptured(f);
    DateUtcRoundTrip(t);
    CapturedTextParses(s, f, t);
  }

  lemma TimestampParts(s: string, year: string, month: string, day: string, hour: string, minute: string, second: string)
    requires |year| == 4 && |month| == |day| == |hour| == |minute| == |second| == 2
    requires s == year + "-" + month + "-" + day + " " + hour + ":" + minute + ":" + second
    ensures |s| == 19 && s[4] == s[7] == '-' && s[10] == ' ' && s[13] == s[16] == ':'
    ensures s[0..4] == year && s[5..7] == month && s[8..10] == day
    ensures s[11..13] == hour && s[14..16] == minute && s[17..19] == second
  {
    var layout := Layout(year, month, day, hour, minute, second);
    LayoutParts(year, month, day, hour, minute, second);
    assert layout == s + ".000000";
    assert layout[11..13] == s[11..13] && layout[14..16] == s[14..16] && layout[17..19] == s[17..19];
    assert layout[0..4] == s[0..4] && layout[5..7] == s[5..7] && layout[8..10] == s[8..10];
  }

  lemma PrintedFieldsAreCaptured(f: Fields)
    requires ValidFields(f) && 1000 <= f.year <= 9999
    ensures Matches(PrintTimestamp(f)) && Captured(PrintTimestamp(f)) == f
  {
    MonthLengthsFit(f);
    YearHasFourDigits(f.year);
    Pad2IsTwoDigits(f.month + 1);
    Pad2IsTwoDigits(f.day);
    Pad2IsTwoDigits(f.hour);
    Pad2IsTwoDigits(f.minute);
    Pad2IsTwoDigits(f.second);
    TimestampParts(PrintTimestamp(f), Decimal(f.year), Pad2(f.month + 1), Pad2(f.day),
                   Pad2(f.hour), Pad2(f.minute), Pad2(f.second));
  }
}
