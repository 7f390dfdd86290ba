/**
 Wall-clock digits to UTC: the two-pass offset resolution of src/adms/timezone.ts over an
 abstract zone, a step function from instants to offsets.
 */
module Timezone {
  import opened Calendar

  /** `offsets[k]` holds from `transitions[k - 1]` on, up to `transitions[k]`. */
  datatype Zone = Zone(transitions: seq<int>, offsets: seq<int>)

  /** Offsets stay within `bound`, and transitions lie further apart than twice the bound. */
  ghost predicate Spaced(z: Zone, bound: int) {
    && bound >= 0
    && |z.offsets| == |z.transitions| + 1
    && (forall k :: 0 <= k < |z.offsets| ==> -bound <= z.offsets[k] <= bound)
    && (forall j, k :: 0 <= j < k < |z.transitions| ==> z.transitions[j] + 2 * bound < z.transitions[k])
  }

  predicate Whole(t: int) {
    t % 1000 == 0
  }

  ghost predicate ValidZone(z: Zone, bound: int) {
    Spaced(z, bound) && forall k :: 0 <= k < |z.offsets| ==> Whole(z.offsets[k])
  }

  /** How many transitions an instant has behind it. */
  function Segment(transitions: seq<int>, t: int): (k: nat)
    ensures k <= |transitions|
    ensures k > 0 ==> transitions[k - 1] <= t
    ensures k < |transitions| ==> t < transitions[k]
  {
    if transitions == [] || t < transitions[0] then 0 else 1 + Segment(transitions[1..], t)
  }

  function OffsetAt(z: Zone, t: int): int
    requires |z.offsets| == |z.transitions| + 1
  {
    z.offsets[Segment(z.transitions, t)]
  }

  /** The formatter prints a year before 1 by its era. */
  function PrintedYear(f: Fields): Fields {
    if f.year >= 1 then f else f.(year := 1 - f.year)
  }

  function LocalTime(z: Zone, t: int): int
    requires |z.offsets| == |z.transitions| + 1
  {
    t + OffsetAt(z, t)
  }

  /** What the formatted parts rebuild to. */
  function ZonedWallClockNow(z: Zone, t: int): int
    requires |z.offsets| == |z.transitions| + 1
  {
    DateUTC(PrintedYear(UtcFields(LocalTime(z, t))))
  }

  function OffsetMs(z: Zone, t: int): int
    requires |z.offsets| == |z.transitions| + 1
  {
    ZonedWallClockNow(z, t) - t
  }

  function Estimate(z: Zone, guess: int): int
    requires |z.offsets| == |z.transitions| + 1
  {
    guess - OffsetMs(z, guess)
  }

  function ZonedWallClockToUtc(z: Zone, wallClockDigits: int): int
    requires |z.offsets| == |z.transitions| + 1
  {
    var guess := DateUTC(UtcFields(wallClockDigits));
    var offset1 := OffsetMs(z, guess);
    var estimate := Estimate(z, guess);
    var offset2 := OffsetMs(z, estimate);
    if offset2 == offset1 then estimate else guess - offset2
  }

  /** The instant's local time is `w`. */
  predicate Shows(z: Zone, t: int, w: int)
    requires |z.offsets| == |z.transitions| + 1
  {
    t + OffsetAt(z, t) == w
  }

  // ---- The formatted clock is the local time, from the year 100 on ----

  /** Midnight of 1 January 100; `Date.UTC` gives another meaning to the years just before. */
  const YEAR_100: int := -59_011_459_200_000

  lemma YearHolds(t: int, y: int)
    requires y == UtcFields(t).year
    ensures DayFromYear(y) <= Day(t) < DayFromYear(y + 1)
  {
  }

  lemma Year100Begins()
    ensures DayFromYear(100) * MS_PER_DAY == YEAR_100
  {
    DayFromYearIsDayNumber(100);
    assert DayNumber(100) == -683_003;
  }

  lemma DayBounds(t: int, first: int, last: int)
    requires first <= Day(t) < last
    ensures first * MS_PER_DAY <= t < last * MS_PER_DAY
  {
  }

  /** The year is below 100 exactly before `YEAR_100`. */
  lemma YearsBelow100(t: int, y: int)
    requires y == UtcFields(t).year
    ensures y < 100 <==> t < YEAR_100
    ensures y < 0 ==> t < YEAR_100 - MS_PER_DAY
  {
    Year100Begins();
    YearHolds(t, y);
    DayBounds(t, DayFromYear(y), DayFromYear(y + 1));
    if y < 100 {
      YearsOrdered(y + 1, 100);
    } else {
      YearsOrdered(100, y);
    }
  }

  lemma NowFrom(z: Zone, t: int, local: int, now: int)
    requires |z.offsets| == |z.transitions| + 1
    requires local == LocalTime(z, t) && now == DateUTC(PrintedYear(UtcFields(local)))
    ensures ZonedWallClockNow(z, t) == now
  {
  }

  lemma PrintedAsIs(f: Fields)
    requires f.year >= 1
    ensures PrintedYear(f) == f
  {
  }

  lemma ClockIsLocalTime(z: Zone, t: int, local: int)
    requires |z.offsets| == |z.transitions| + 1
    requires local == LocalTime(z, t) && local >= YEAR_100
    ensures ZonedWallClockNow(z, t) == local - local % 1000
  {
    YearsBelow100(local, UtcFields(local).year);
    DateUtcRoundTrip(local);
    PrintedAsIs(UtcFields(local));
    NowFrom(z, t, local, local - local % 1000);
  }

  lemma OffsetMsIsOffset(z: Zone, t: int, local: int)
    requires |z.offsets| == |z.transitions| + 1
    requires local == LocalTime(z, t) && local >= YEAR_100 && Whole(local)
    ensures OffsetMs(z, t) == OffsetAt(z, t)
    ensures ZonedWallClockNow(z, t) == local
  {
    ClockIsLocalTime(z, t, local);
  }

  lemma GuessIsTheDigits(w: int)
    requires Whole(w) && w >= YEAR_100
    ensures DateUTC(UtcFields(w)) == w
  {
    YearsBelow100(w, UtcFields(w).year);
    DateUtcRoundTrip(w);
  }

  /** What the two passes compute, once formatting is out of the way. */
  function TwoPass(z: Zone, w: int): int
    requires |z.offsets| == |z.transitions| + 1
  {
    w - OffsetAt(z, w - OffsetAt(z, w))
  }

  lemma TwoPassVia(z: Zone, w: int, o1: int, estimate: int)
    requires |z.offsets| == |z.transitions| + 1
    requires OffsetAt(z, w) == o1 && estimate == w - o1
    ensures TwoPass(z, w) == w - OffsetAt(z, estimate)
  {
  }

  /** The digits and the local times the two passes format are of the year 100 or later. */
  predicate SinceYear100(z: Zone, w: int)
    requires |z.offsets| == |z.transitions| + 1
  {
    var estimate := w - OffsetAt(z, w);
    w >= YEAR_100 && LocalTime(z, w) >= YEAR_100 && LocalTime(z, estimate) >= YEAR_100
  }

  lemma SinceWhen(z: Zone, w: int, o1: int, estimate: int, o2: int)
    requires |z.offsets| == |z.transitions| + 1
    requires o1 == OffsetAt(z, w) && estimate == w - o1 && o2 == OffsetAt(z, estimate)
    ensures SinceYear100(z, w) <==> w >= YEAR_100 && w + o1 >= YEAR_100 && estimate + o2 >= YEAR_100
  {
  }

  lemma OffsetInBounds(z: Zone, bound: int, t: int, offset: int)
    requires Spaced(z, bound) && offset == OffsetAt(z, t)
    ensures -bound <= offset <= bound
  {
  }

  lemma LaterReadingsFrom(z: Zone, bound: int, w: int, o1: int, estimate: int, o2: int)
    requires |z.offsets| == |z.transitions| + 1
    requires o1 == OffsetAt(z, w) && estimate == w - o1 && o2 == OffsetAt(z, estimate)
    requires -bound <= o1 <= bound && -bound <= o2 <= bound && w >= YEAR_100 + 2 * bound
    ensures SinceYear100(z, w)
  {
    SinceWhen(z, w, o1, estimate, o2);
  }

  /** Only readings of the first days of the year 100 are in doubt. */
  lemma LaterReadingsAreSince(z: Zone, bound: int, w: int)
    requires Spaced(z, bound) && w >= YEAR_100 + 2 * bound
    ensures SinceYear100(z, w)
  {
    var o1 := OffsetAt(z, w);
    var estimate := w - o1;
    var o2 := OffsetAt(z, estimate);
    OffsetInBounds(z, bound, w, o1);
    OffsetInBounds(z, bound, estimate, o2);
    LaterReadingsFrom(z, bound, w, o1, estimate, o2);
  }

  lemma WholeSum(a: int, b: int)
    requires Whole(a) && Whole(b)
    ensures Whole(a + b) && Whole(a - b)
  {
  }

  lemma WholeOffset(z: Zone, bound: int, t: int, offset: int)
    requires ValidZone(z, bound) && offset == OffsetAt(z, t)
    ensures Whole(offset)
  {
  }

  lemma ToUtcIsTwoPass(z: Zone, bound: int, w: int)
    requires ValidZone(z, bound) && Whole(w) && SinceYear100(z, w)
    ensures ZonedWallClockToUtc(z, w) == TwoPass(z, w)
  {
    var o1 := OffsetAt(z, w);
    var estimate := w - o1;
    var o2 := OffsetAt(z, estimate);
    SinceWhen(z, w, o1, estimate, o2);
    WholeOffset(z, bound, w, o1);
    WholeOffset(z, bound, estimate, o2);
    WholeSum(w, o1);
    WholeSum(estimate, o2);
    TwoPassVia(z, w, o1, estimate);
    ToUtcFromOffsets(z, w, o1, estimate, o2, w + o1, estimate + o2);
  }

  lemma ToUtcFromOffsets(z: Zone, w: int, o1: int, estimate: int, o2: int, shown1: int, shown2: int)
    requires |z.offsets| == |z.transitions| + 1
    requires o1 == OffsetAt(z, w) && estimate == w - o1 && o2 == OffsetAt(z, estimate)
    requires shown1 == w + o1 && shown2 == estimate + o2
    requires Whole(w) && Whole(shown1) && Whole(shown2)
    requires w >= YEAR_100 && shown1 >= YEAR_100 && shown2 >= YEAR_100
    ensures ZonedWallClockToUtc(z, w) == w - o2
  {
    OffsetMsIsOffset(z, w, shown1);
    EstimateFrom(z, w, o1, estimate);
    OffsetMsIsOffset(z, estimate, shown2);
    GuessIsTheDigits(w);
    TwoPasses(z, w, w, o1, estimate, o2);
  }

  lemma EstimateFrom(z: Zone, guess: int, offset1: int, estimate: int)
    requires |z.offsets| == |z.transitions| + 1
    requires OffsetMs(z, guess) == offset1 && estimate == guess - offset1
    ensures Estimate(z, guess) == estimate
  {
  }

  /** Either way the second offset is the one taken off. */
  lemma TwoPasses(z: Zone, w: int, guess: int, offset1: int, estimate: int, offset2: int)
    requires |z.offsets| == |z.transitions| + 1
    requires guess == DateUTC(UtcFields(w)) && offset1 == OffsetMs(z, guess)
    requires estimate == Estimate(z, guess) && offset2 == OffsetMs(z, estimate)
    ensures ZonedWallClockToUtc(z, w) == guess - offset2
  {
  }

  // ---- Around one wall-clock reading there is at most one transition ----

  /** Within `bound` of `w` the offset is `before` up to `at`, and `after` from there. */
  ghost predicate Nearby(z: Zone, bound: int, w: int, at: int, before: int, after: int)
    requires |z.offsets| == |z.transitions| + 1
  {
    forall t :: w - bound <= t <= w + bound ==> OffsetAt(z, t) == (if t < at then before else after)
  }

  lemma SegmentIsUnique(transitions: seq<int>, t: int, k: nat)
    requires forall i, j :: 0 <= i < j < |transitions| ==> transitions[i] < transitions[j]
    requires k <= |transitions|
    requires k > 0 ==> transitions[k - 1] <= t
    requires k < |transitions| ==> t < transitions[k]
    ensures Segment(transitions, t) == k
  {
  }

  /** Either the offset is constant near `w`, or it steps once, at a transition of the zone. */
  lemma OneTransitionNearby(z: Zone, bound: int, w: int) returns (k: nat, at: int, before: int, after: int)
    requires Spaced(z, bound)
    ensures Nearby(z, bound, w, at, before, after)
    ensures -bound <= before <= bound && -bound <= after <= bound
    ensures before == after
         || (k < |z.transitions| && at == z.transitions[k] && before == z.offsets[k] && after == z.offsets[k + 1])
  {
    k := Segment(z.transitions, w - bound);
    before := z.offsets[k];
    if k < |z.transitions| {
      at, after := z.transitions[k], z.offsets[k + 1];
    } else {
      at, after := w - bound, before;
    }
    forall t | w - bound <= t <= w + bound ensures OffsetAt(z, t) == (if t < at then before else after) {
      SegmentIsUnique(z.transitions, t, if t < at || k == |z.transitions| then k else k + 1);
    }
  }

  // ---- The two passes ----

  lemma TwoPassBeforeStep(z: Zone, bound: int, w: int, at: int, before: int, after: int, t: int)
    requires Spaced(z, bound) && Nearby(z, bound, w, at, before, after) && w < at
    requires -bound <= before <= bound && w - bound <= t <= w + bound && Shows(z, t, w)
    ensures Shows(z, TwoPass(z, w), w)
  {
    var early := w - before;
    assert OffsetAt(z, w) == before;
    assert OffsetAt(z, t) == if t < at then before else after;
    TwoPassVia(z, w, before, early);
    assert OffsetAt(z, early) == if early < at then before else after;
  }

  lemma TwoPassAfterStep(z: Zone, bound: int, w: int, at: int, before: int, after: int, t: int)
    requires Spaced(z, bound) && Nearby(z, bound, w, at, before, after) && at <= w
    requires -bound <= after <= bound && w - bound <= t <= w + bound && Shows(z, t, w)
    ensures Shows(z, TwoPass(z, w), w)
  {
    var late := w - after;
    assert OffsetAt(z, w) == after;
    assert OffsetAt(z, t) == if t < at then before else after;
    TwoPassVia(z, w, after, late);
    assert OffsetAt(z, late) == if late < at then before else after;
  }

  lemma TwoPassShowsTheReading(z: Zone, bound: int, w: int, t: int)
    requires Spaced(z, bound) && Shows(z, t, w)
    ensures Shows(z, TwoPass(z, w), w)
  {
    var k, at, before, after := OneTransitionNearby(z, bound, w);
    OffsetInBounds(z, bound, t, OffsetAt(z, t));
    if w < at {
      TwoPassBeforeStep(z, bound, w, at, before, after, t);
    } else {
      TwoPassAfterStep(z, bound, w, at, before, after, t);
    }
  }

  /** `first` and `second` lie on the two sides of transition `k`. */
  predicate Straddles(z: Zone, k: int, first: int, second: int) {
    0 <= k < |z.transitions| && first < z.transitions[k] <= second
  }

  lemma TwoPassInOverlap(z: Zone, bound: int, w: int, first: int, second: int) returns (k: nat)
    requires Spaced(z, bound) && first < second && Shows(z, first, w) && Shows(z, second, w)
    ensures Straddles(z, k, first, second)
    ensures TwoPass(z, w) == if w < z.transitions[k] then first else second
  {
    var at, before, after;
    k, at, before, after := OneTransitionNearby(z, bound, w);
    assert w - bound <= first <= w + bound && w - bound <= second <= w + bound;
    assert first == w - before && second == w - after && first < at <= second;
    TwoPassVia(z, w, if w < at then before else after, if w < at then first else second);
  }

  lemma TwoPassInGap(z: Zone, bound: int, w: int) returns (k: nat)
    requires Spaced(z, bound) && forall t :: !Shows(z, t, w)
    ensures k < |z.transitions|
    ensures Straddles(z, k, w - z.offsets[k + 1], w - z.offsets[k])
    ensures TwoPass(z, w) == w - (if w < z.transitions[k] then z.offsets[k + 1] else z.offsets[k])
  {
    var at, before, after;
    k, at, before, after := OneTransitionNearby(z, bound, w);
    assert !Shows(z, w - before, w) && !Shows(z, w - after, w);
    assert w - bound <= w - before <= w + bound && w - bound <= w - after <= w + bound;
    assert OffsetAt(z, w) == if w < at then before else after;
  }

  // ---- Before the year 100 ----

  lemma DayNotBeforeYear(year: int, month: int, date: int)
    requires 0 <= month < 12 && date >= 1
    ensures MakeDay(year, month, date) >= DayFromYear(year)
  {
    Divided(month, 12, 0, month);
  }

  lemma TimeNotBeforeDay(f: Fields, day: int, made: int)
    requires made == MakeDay(f.year, f.month, f.day) && day <= made
    requires f.hour >= 0 && f.minute >= 0 && f.second >= 0
    ensures TimeOf(f) >= day * MS_PER_DAY
  {
  }

  /** More than the offsets of both passes and a reading's distance from its instant together. */
  const FAR: int := 3 * MS_PER_DAY

  /** The same date of a year at least 199 years later, even if February 29 overflows. */
  lemma LaterYearIsFar(t: int, f: Fields, year: int)
    requires f == UtcFields(t) && f.year + 199 <= year
    ensures TimeOf(f.(year := year)) > t + FAR
    ensures TimeOf(f.(year := year)) >= DayFromYear(year) * MS_PER_DAY
  {
    YearHolds(t, f.year);
    DayBounds(t, DayFromYear(f.year), DayFromYear(f.year + 1));
    YearsOrdered(f.year + 1, year);
    DayNotBeforeYear(year, f.month, f.day);
    TimeNotBeforeDay(f.(year := year), DayFromYear(year), MakeDay(year, f.month, f.day));
  }

  /** The year `Date.UTC` takes the printed year for. */
  function RebuiltYear(year: int): int {
    var printed := if year >= 1 then year else 1 - year;
    if printed <= 99 then 1900 + printed else printed
  }

  lemma RemapIsRebuild(f: Fields, printed: Fields, rebuilt: Fields)
    requires printed == PrintedYear(f)
    requires rebuilt == if 0 <= printed.year <= 99 then printed.(year := 1900 + printed.year) else printed
    ensures rebuilt == f.(year := RebuiltYear(f.year))
  {
  }

  lemma ClockRebuilds(z: Zone, t: int, local: int, f: Fields, rebuilt: Fields)
    requires |z.offsets| == |z.transitions| + 1 && local == LocalTime(z, t)
    requires f == UtcFields(local) && rebuilt == f.(year := RebuiltYear(f.year))
    ensures ZonedWallClockNow(z, t) == TimeOf(rebuilt)
  {
    var printed := PrintedYear(f);
    RemapIsRebuild(f, printed, if 0 <= printed.year <= 99 then printed.(year := 1900 + printed.year) else printed);
    NowFrom(z, t, local, DateUTC(printed));
    RebuiltTime(printed, rebuilt);
  }

  /** Printed and rebuilt, a local time before the year 100 lands far later. */
  lemma ClockRunsAhead(z: Zone, t: int, local: int)
    requires |z.offsets| == |z.transitions| + 1 && local == LocalTime(z, t) && local < YEAR_100
    ensures OffsetMs(z, t) > local - t + FAR
  {
    var f := UtcFields(local);
    YearsBelow100(local, f.year);
    ClockRebuilds(z, t, local, f, f.(year := RebuiltYear(f.year)));
    LaterYearIsFar(local, f, RebuiltYear(f.year));
  }

  lemma FarResultShowsNothing(z: Zone, bound: int, t: int, w: int)
    requires Spaced(z, bound) && (t < w - bound || w + bound < t)
    ensures !Shows(z, t, w)
  {
    OffsetInBounds(z, bound, t, OffsetAt(z, t));
  }

  /** The local time of the estimate is before the year 100. */
  lemma SecondPassRunsAway(z: Zone, bound: int, w: int, offset1: int, estimate: int)
    requires Spaced(z, bound) && bound <= MS_PER_DAY && w == DateUTC(UtcFields(w))
    requires offset1 == OffsetMs(z, w) && estimate == w - offset1 && LocalTime(z, estimate) < YEAR_100
    ensures !Shows(z, ZonedWallClockToUtc(z, w), w)
  {
    EstimateFrom(z, w, offset1, estimate);
    OffsetInBounds(z, bound, estimate, OffsetAt(z, estimate));
    ClockRunsAhead(z, estimate, LocalTime(z, estimate));
    TwoPasses(z, w, w, offset1, estimate, OffsetMs(z, estimate));
    FarResultShowsNothing(z, bound, ZonedWallClockToUtc(z, w), w);
  }

  /** The local time of the digits taken as UTC is; then so is that of the estimate. */
  lemma FirstPassRunsAway(z: Zone, bound: int, w: int)
    requires Spaced(z, bound) && bound <= MS_PER_DAY && w == DateUTC(UtcFields(w)) && LocalTime(z, w) < YEAR_100
    ensures !Shows(z, ZonedWallClockToUtc(z, w), w)
  {
    var offset1 := OffsetMs(z, w);
    var estimate := w - offset1;
    OffsetInBounds(z, bound, w, OffsetAt(z, w));
    ClockRunsAhead(z, w, LocalTime(z, w));
    OffsetInBounds(z, bound, estimate, OffsetAt(z, estimate));
    SecondPassRunsAway(z, bound, w, offset1, estimate);
  }

  lemma WholeTime(f: Fields, day: int)
    requires day == MakeDay(f.year, f.month, f.day)
    ensures Whole(TimeOf(f))
  {
    var seconds := day * 86_400 + f.hour * 3600 + f.minute * 60 + f.second;
    assert TimeOf(f) == 1000 * seconds;
    Divided(1000 * seconds, 1000, seconds, 0);
  }

  lemma RemappedGuess(w: int, f: Fields, guess: int)
    requires f == UtcFields(w) && 0 <= f.year <= 99 && guess == DateUTC(f)
    ensures Whole(guess) && guess > w + FAR && guess >= YEAR_100 + 2 * MS_PER_DAY
  {
    var year := 1900 + f.year;
    RebuiltTime(f, f.(year := year));
    LaterYearIsFar(w, f, year);
    Year100Begins();
    YearsOrdered(100, year);
    WholeTime(f.(year := year), MakeDay(year, f.month, f.day));
  }

  lemma SameGuess(z: Zone, w: int, guess: int)
    requires |z.offsets| == |z.transitions| + 1
    requires guess == DateUTC(UtcFields(w)) && guess == DateUTC(UtcFields(guess))
    ensures ZonedWallClockToUtc(z, w) == ZonedWallClockToUtc(z, guess)
  {
  }

  /** Digits of the years 0 to 99 are taken for 1900 to 1999. */
  lemma RemappedDigitsShowNothing(z: Zone, bound: int, w: int, guess: int)
    requires ValidZone(z, bound) && bound <= MS_PER_DAY
    requires 0 <= UtcFields(w).year <= 99 && guess == DateUTC(UtcFields(w))
    ensures !Shows(z, ZonedWallClockToUtc(z, w), w)
  {
    RemappedGuess(w, UtcFields(w), guess);
    GuessIsTheDigits(guess);
    SameGuess(z, w, guess);
    LaterReadingsAreSince(z, bound, guess);
    ToUtcIsTwoPass(z, bound, guess);
    var estimate := guess - OffsetAt(z, guess);
    OffsetInBounds(z, bound, estimate, OffsetAt(z, estimate));
    FarResultShowsNothing(z, bound, ZonedWallClockToUtc(z, w), w);
  }

  lemma NothingShownFrom(z: Zone, bound: int, w: int, o1: int, shown1: int, estimate: int, o2: int)
    requires Spaced(z, bound) && bound <= MS_PER_DAY && Whole(shown1) && w == DateUTC(UtcFields(w))
    requires o1 == OffsetAt(z, w) && shown1 == w + o1 && estimate == w - o1 && o2 == OffsetAt(z, estimate)
    requires shown1 < YEAR_100 || estimate + o2 < YEAR_100
    ensures !Shows(z, ZonedWallClockToUtc(z, w), w)
  {
    if shown1 < YEAR_100 {
      FirstPassRunsAway(z, bound, w);
    } else {
      OffsetMsIsOffset(z, w, shown1);
      SecondPassRunsAway(z, bound, w, o1, estimate);
    }
  }

  lemma NothingShownAsRead(z: Zone, bound: int, w: int, o1: int)
    requires Spaced(z, bound) && bound <= MS_PER_DAY && Whole(w) && w == DateUTC(UtcFields(w))
    requires o1 == OffsetAt(z, w) && Whole(o1) && o1 <= MS_PER_DAY
    requires !SinceYear100(z, w) && (w >= YEAR_100 || w < YEAR_100 - MS_PER_DAY)
    ensures !Shows(z, ZonedWallClockToUtc(z, w), w)
  {
    var estimate := w - o1;
    var o2 := OffsetAt(z, estimate);
    SinceWhen(z, w, o1, estimate, o2);
    WholeSum(w, o1);
    NothingShownFrom(z, bound, w, o1, w + o1, estimate, o2);
  }

  lemma NothingShownBefore(z: Zone, bound: int, w: int, y: int)
    requires ValidZone(z, bound) && bound <= MS_PER_DAY && Whole(w) && y == UtcFields(w).year && !SinceYear100(z, w)
    ensures !Shows(z, ZonedWallClockToUtc(z, w), w)
  {
    if 0 <= y <= 99 {
      RemappedDigitsShowNothing(z, bound, w, DateUTC(UtcFields(w)));
    } else {
      YearsBelow100(w, y);
      DateUtcRoundTrip(w);
      var o1 := OffsetAt(z, w);
      OffsetInBounds(z, bound, w, o1);
      WholeOffset(z, bound, w, o1);
      NothingShownAsRead(z, bound, w, o1);
    }
  }

  // ---- The result ----

  /** The result shows the reading exactly when some instant does and the year 100 has begun. */
  lemma ToUtcShowsTheReading(z: Zone, bound: int, w: int)
    requires ValidZone(z, bound) && bound <= MS_PER_DAY && Whole(w)
    ensures Shows(z, ZonedWallClockToUtc(z, w), w) <==> SinceYear100(z, w) && exists t :: Shows(z, t, w)
  {
    if !SinceYear100(z, w) {
      NothingShownBefore(z, bound, w, UtcFields(w).year);
    } else {
      ToUtcIsTwoPass(z, bound, w);
      if t :| Shows(z, t, w) {
        TwoPassShowsTheReading(z, bound, w, t);
      }
    }
  }

  /** A reading shown by one instant alone converts to that instant exactly from the year 100 on. */
  lemma ToUtcInvertsUniqueReadings(z: Zone, bound: int, t: int, w: int)
    requires ValidZone(z, bound) && bound <= MS_PER_DAY && Whole(w)
    requires forall u :: Shows(z, u, w) <==> u == t
    ensures ZonedWallClockToUtc(z, w) == t <==> SinceYear100(z, w)
  {
    assert Shows(z, t, w);
    ToUtcShowsTheReading(z, bound, w);
  }

  /** A reading shown twice: the earlier instant if the reading, taken as UTC, precedes the step, else the later. */
  lemma OverlapPicksOneOfTheTwo(z: Zone, bound: int, w: int, first: int, second: int)
    requires ValidZone(z, bound) && Whole(w) && SinceYear100(z, w)
    requires first < second && Shows(z, first, w) && Shows(z, second, w)
    ensures exists k :: Straddles(z, k, first, second)
                        && ZonedWallClockToUtc(z, w) == if w < z.transitions[k] then first else second
  {
    ToUtcIsTwoPass(z, bound, w);
    var k := TwoPassInOverlap(z, bound, w, first, second);
  }

  /** A reading no instant shows lies in a step forward; it is read with one of the two offsets around the step. */
  lemma GapUsesAnAdjacentOffset(z: Zone, bound: int, w: int)
    requires ValidZone(z, bound) && Whole(w) && SinceYear100(z, w)
    requires forall t :: !Shows(z, t, w)
    ensures exists k :: 0 <= k < |z.transitions|
                        && Straddles(z, k, w - z.offsets[k + 1], w - z.offsets[k])
                        && ZonedWallClockToUtc(z, w) ==
                             w - (if w < z.transitions[k] then z.offsets[k + 1] else z.offsets[k])
  {
    ToUtcIsTwoPass(z, bound, w);
    var k := TwoPassInGap(z, bound, w);
  }

  /** Instant to clock to UTC to clock: the reading survives. */
  lemma ReadingsSurviveTheRoundTrip(z: Zone, bound: int, t: int, w: int)
    requires ValidZone(z, bound) && Shows(z, t, w) && Whole(w) && SinceYear100(z, w)
    ensures ZonedWallClockNow(z, t) == w
    ensures ZonedWallClockNow(z, ZonedWallClockToUtc(z, w)) == w
  {
    OffsetMsIsOffset(z, t, w);
    ToUtcIsTwoPass(z, bound, w);
    TwoPassShowsTheReading(z, bound, w, t);
    OffsetMsIsOffset(z, TwoPass(z, w), w);
  }

  /** A zone that is always on UTC. */
  const UTC: Zone := Zone([], [0])

  lemma OnUtc(w: int)
    ensures OffsetAt(UTC, w) == 0
    ensures SinceYear100(UTC, w) <==> w >= YEAR_100
  {
  }

  lemma ExactOnUtc(w: int)
    requires Whole(w)
    ensures ZonedWallClockToUtc(UTC, w) == w <==> w >= YEAR_100
  {
    forall t ensures Shows(UTC, t, w) <==> t == w { OnUtc(t); }
    ToUtcInvertsUniqueReadings(UTC, 0, w, w);
    OnUtc(w);
  }

  /** Even on UTC itself the conversion is the identity from the year 100 on, and never before. */
  lemma ExactFromTheYear100On(w: int, year: int)
    requires Whole(w) && year == UtcFields(w).year
    ensures ZonedWallClockToUtc(UTC, w) == w <==> year >= 100
  {
    YearsBelow100(w, year);
    ExactOnUtc(w);
  }
}
