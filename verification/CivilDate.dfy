/**
 Epoch seconds as a civil date and time, in UTC. The conversion is straight-line
 arithmetic; the calendar it is held against counts years and months one by one.
 */
module CivilDate {
  import opened Wrappers

  datatype DateTime = DateTime(year: int, month: int, day: int, hour: int, minute: int, second: int)

  /** Division as the source does it: towards zero. */
  function TruncDiv(a: int, b: int): int
    requires b > 0
  {
    if a >= 0 then a / b else -((-a) / b)
  }

  function Era(z: int): int {
    TruncDiv(if z >= 0 then z else z - 146096, 146097)
  }

  function YearOfEra(doe: int): int {
    TruncDiv(doe - TruncDiv(doe, 1460) + TruncDiv(doe, 36524) - TruncDiv(doe, 146096), 365)
  }

  function DayOfYear(doe: int, yoe: int): int {
    doe - (365 * yoe + TruncDiv(yoe, 4) - TruncDiv(yoe, 100))
  }

  function ShiftedMonth(doy: int): int {
    TruncDiv(5 * doy + 2, 153)
  }

  /** Year, month and day of a day counted from 1970-01-01. */
  function CivilFromDays(days: int): (int, int, int) {
    var z := days + 719468;
    var era := Era(z);
    var doe := z - era * 146097;
    var yoe := YearOfEra(doe);
    FromShifted(era, yoe, DayOfYear(doe, yoe))
  }

  /** From a year of an era that starts in March, and a day of it, to the calendar. */
  function FromShifted(era: int, yoe: int, doy: int): (int, int, int) {
    var mp := ShiftedMonth(doy);
    var day := doy - TruncDiv(153 * mp + 2, 5) + 1;
    var month := if mp < 10 then mp + 3 else mp - 9;
    var year := yoe + era * 400;
    (if month <= 2 then year + 1 else year, month, day)
  }

  function FromEpoch(secs: nat): DateTime {
    var (year, month, day) := CivilFromDays(secs / 86400);
    var tod := secs % 86400;
    DateTime(year, month, day, tod / 3600, (tod % 3600) / 60, tod % 60)
  }

  // --- the calendar ----------------------------------------------------------------

  /** Appendix C of RFC 3339. */
  predicate IsLeap(y: int) {
    y % 4 == 0 && (y % 100 != 0 || y % 400 == 0)
  }

  /** Section 5.7 of RFC 3339. */
  function DaysInMonth(y: int, m: int): int {
    if m == 4 || m == 6 || m == 9 || m == 11 then 30
    else if m == 2 then if IsLeap(y) then 29 else 28
    else 31
  }

  function DaysInYear(y: int): int {
    if IsLeap(y) then 366 else 365
  }

  /** Days of the years 0 up to but not including `y`. */
  function DaysBeforeYear(y: nat): int {
    if y == 0 then 0 else DaysBeforeYear(y - 1) + DaysInYear(y - 1)
  }

  /** Days of the months of `y` before `m`. */
  function DaysBeforeMonth(y: int, m: int): int
    decreases m
  {
    if m <= 1 then 0 else DaysBeforeMonth(y, m - 1) + DaysInMonth(y, m - 1)
  }

  predicate ValidDate(y: int, m: int, d: int) {
    y >= 0 && 1 <= m <= 12 && 1 <= d <= DaysInMonth(y, m)
  }

  predicate Valid(t: DateTime) {
    ValidDate(t.year, t.month, t.day) && 0 <= t.hour < 24 && 0 <= t.minute < 60 && 0 <= t.second < 60
  }

  /** Days from 1970-01-01, by counting. */
  function DayNumber(y: int, m: int, d: int): int
    requires y >= 0
  {
    DaysBeforeYear(y) + DaysBeforeMonth(y, m) + d - 1 - DaysBeforeYear(1970)
  }

  function ToEpoch(t: DateTime): int
    requires t.year >= 0
  {
    DayNumber(t.year, t.month, t.day) * 86400 + t.hour * 3600 + t.minute * 60 + t.second
  }

  // --- the count of days, in closed form -------------------------------------------

  function LeapsThrough(y: int): int {
    y / 4 - y / 100 + y / 400
  }

  lemma {:induction false} DaysBeforeYearClosed(y: nat)
    ensures DaysBeforeYear(y) == 365 * y + LeapsThrough(y - 1) + 1
  {
    if y > 0 {
      DaysBeforeYearClosed(y - 1);
      LeapStep(y - 1);
    }
  }

  lemma LeapStep(y: int)
    ensures LeapsThrough(y) == LeapsThrough(y - 1) + if IsLeap(y) then 1 else 0
  {
    assert (y / 4 == (y - 1) / 4 + 1) <==> y % 4 == 0;
    assert (y / 100 == (y - 1) / 100 + 1) <==> y % 100 == 0;
    assert (y / 400 == (y - 1) / 400 + 1) <==> y % 400 == 0;
    assert y % 100 == 0 ==> y % 4 == 0;
    assert y % 400 == 0 ==> y % 100 == 0;
  }

  /** Days before each month, March first: the offset the shifted month stands for. */
  function MarchOffset(mp: int): int {
    (153 * mp + 2) / 5
  }

  lemma DaysBeforeMonthClosed(y: int, m: int)
    requires 1 <= m <= 12
    ensures m >= 3 ==> DaysBeforeMonth(y, m) == MarchOffset(m - 3) + 59 + if IsLeap(y) then 1 else 0
    ensures m <= 2 ==> DaysBeforeMonth(y, m) == MarchOffset(m + 9) - 306
  {
    assert DaysBeforeMonth(y, 1) == 0;
    assert DaysBeforeMonth(y, 2) == 31;
    var feb := if IsLeap(y) then 29 else 28;
    assert DaysBeforeMonth(y, 3) == 31 + feb;
    assert DaysBeforeMonth(y, 4) == 62 + feb;
    assert DaysBeforeMonth(y, 5) == 92 + feb;
    assert DaysBeforeMonth(y, 6) == 123 + feb;
    assert DaysBeforeMonth(y, 7) == 153 + feb;
    assert DaysBeforeMonth(y, 8) == 184 + feb;
    assert DaysBeforeMonth(y, 9) == 215 + feb;
    assert DaysBeforeMonth(y, 10) == 245 + feb;
    assert DaysBeforeMonth(y, 11) == 276 + feb;
    assert DaysBeforeMonth(y, 12) == 306 + feb;
  }

  // --- within an era -----------------------------------------------------------------

  /** A day of an era, as century, four-year cycle, and day of that cycle. */
  predicate Splits(doe: int, c: int, k: int, t: int) {
    && doe == 36524 * c + 1461 * k + t && 0 <= c <= 3 && 0 <= k <= 24 && 0 <= t <= 1460
    && (k == 24 && t == 1460 ==> c == 3)
  }

  lemma SplitEra(doe: int) returns (c: int, k: int, t: int)
    requires 0 <= doe <= 146096
    ensures Splits(doe, c, k, t)
  {
    c := if doe == 146096 then 3 else doe / 36524;
    var r := doe - 36524 * c;
    k := if r == 36524 then 24 else r / 1461;
    t := r - 1461 * k;
  }

  lemma YearWithin(doe: int, c: int, k: int, t: int)
    requires Splits(doe, c, k, t)
    ensures YearOfEra(doe) == 100 * c + 4 * k + if t == 1460 then 3 else t / 365
  {
    var last := c == 3 && k == 24 && t == 1460;
    assert doe / 36524 == if last then 4 else c;
    assert doe / 146096 == if last then 1 else 0;
    var e := if 24 * c + k + t >= 1460 then 1 else 0;
    assert doe == 1460 * (25 * c + k) + (24 * c + k + t);
    assert doe / 1460 == 25 * c + k + e;
    var rest := doe - doe / 1460 + doe / 36524 - doe / 146096;
    assert rest == 365 * (100 * c + 4 * k) + (t - e);
    assert rest / 365 == 100 * c + 4 * k + (t - e) / 365;
  }

  lemma CycleEndsLeap(c: int, k: int)
    requires 0 <= c <= 3 && 0 <= k <= 24 && (k == 24 ==> c == 3)
    ensures IsLeap(100 * c + 4 * k + 4)
  {
    var y := 100 * c + 4 * k + 4;
    assert y == 4 * (25 * c + k + 1);
    if k < 24 {
      assert y == 100 * c + 4 * (k + 1) && 0 < 4 * (k + 1) < 100;
    }
  }

  lemma YearParts(c: int, k: int, j: int)
    requires 0 <= c <= 3 && 0 <= k <= 24 && 0 <= j <= 3
    ensures var y := 100 * c + 4 * k + j; 0 <= y <= 399 && y / 4 == 25 * c + k && y / 100 == c
  {
    var y := 100 * c + 4 * k + j;
    assert y == 4 * (25 * c + k) + j;
  }

  /** The day of the March-based year, and when there is a 366th. */
  lemma DayWithin(doe: int, c: int, k: int, t: int)
    requires Splits(doe, c, k, t)
    ensures var yoe := YearOfEra(doe);
            && 0 <= yoe <= 399
            && DayOfYear(doe, yoe) == t - 365 * (if t == 1460 then 3 else t / 365)
            && 0 <= DayOfYear(doe, yoe) <= 365
            && (DayOfYear(doe, yoe) == 365 ==> IsLeap(yoe + 1))
  {
    YearWithin(doe, c, k, t);
    var j := if t == 1460 then 3 else t / 365;
    YearParts(c, k, j);
    if t == 1460 { CycleEndsLeap(c, k); }
  }

  /** A day of the March-based year has its month and its day in that month. */
  lemma MonthWithin(doy: int)
    requires 0 <= doy <= 365
    ensures var mp := ShiftedMonth(doy);
            && 0 <= mp <= 11 && MarchOffset(mp) <= doy
            && doy - MarchOffset(mp) < (if mp == 11 then 29 else MarchOffset(mp + 1) - MarchOffset(mp))
            && (mp == 11 && doy - MarchOffset(mp) == 28 ==> doy == 365)
            && (mp >= 10 <==> doy >= 306)
  {
    var mp := (5 * doy + 2) / 153;
    assert 153 * mp <= 5 * doy + 2 < 153 * mp + 153;
    assert 0 <= mp <= 11;
    assert MarchOffset(0) == 0 && MarchOffset(1) == 31 && MarchOffset(2) == 61 && MarchOffset(3) == 92;
    assert MarchOffset(4) == 122 && MarchOffset(5) == 153 && MarchOffset(6) == 184 && MarchOffset(7) == 214;
    assert MarchOffset(8) == 245 && MarchOffset(9) == 275 && MarchOffset(10) == 306 && MarchOffset(11) == 337;
    assert mp == 0 || mp == 1 || mp == 2 || mp == 3 || mp == 4 || mp == 5
           || mp == 6 || mp == 7 || mp == 8 || mp == 9 || mp == 10 || mp == 11;
  }

  // --- the conversion ----------------------------------------------------------------

  /** Leap years repeat with the era. */
  lemma LeapInEra(era: int, y: int)
    ensures IsLeap(y + 400 * era) == IsLeap(y)
  {
    Mod4(y, 100 * era);
    Mod100(y, 4 * era);
    Mod400(y, era);
  }

  lemma Mod4(y: int, n: int)
    ensures (y + 4 * n) % 4 == y % 4
  {
  }

  lemma Mod100(y: int, n: int)
    ensures (y + 100 * n) % 100 == y % 100
  {
  }

  lemma Mod400(y: int, n: int)
    ensures (y + 400 * n) % 400 == y % 400
  {
  }

  lemma LeapsInEra(era: int, yoe: int)
    requires 0 <= yoe <= 399
    ensures LeapsThrough(yoe + 400 * era) == 97 * era + yoe / 4 - yoe / 100
  {
    var y := yoe + 400 * era;
    assert y / 4 == 100 * era + yoe / 4;
    assert y / 100 == 4 * era + yoe / 100;
    assert y / 400 == era;
  }

  lemma EpochCount()
    ensures DaysBeforeYear(1970) == 719528
  {
    DaysBeforeYearClosed(1970);
  }

  /** The date made of a year of an era and a day of the March-based year is valid and has the right number. */
  lemma ShiftedDate(era: int, yoe: int, doy: int)
    requires era >= 0 && 0 <= yoe <= 399 && 0 <= doy <= 365 && (doy == 365 ==> IsLeap(yoe + 1))
    ensures var (year, month, day) := FromShifted(era, yoe, doy);
            && ValidDate(year, month, day)
            && DayNumber(year, month, day) == era * 146097 + 365 * yoe + yoe / 4 - yoe / 100 + doy - 719468
  {
    var mp := ShiftedMonth(doy);
    var (y, day, month) := (yoe + era * 400, doy - MarchOffset(mp) + 1, if mp < 10 then mp + 3 else mp - 9);
    MonthWithin(doy);
    MonthLengths(mp, if month <= 2 then y + 1 else y);
    EpochCount();
    LeapsInEra(era, yoe);
    LeapInEra(era, yoe + 1);
    DaysBeforeYearClosed(y + 1);
    DaysBeforeYearClosed(y);
    LeapStep(y);
    DaysBeforeMonthClosed(if month <= 2 then y + 1 else y, month);
  }

  /** A shifted month is as long as the month it stands for, short of the leap day. */
  lemma MonthLengths(mp: int, y: int)
    requires 0 <= mp <= 11
    ensures DaysInMonth(y, if mp < 10 then mp + 3 else mp - 9)
         == if mp == 11 then (if IsLeap(y) then 29 else 28) else MarchOffset(mp + 1) - MarchOffset(mp)
  {
    assert MarchOffset(0) == 0 && MarchOffset(1) == 31 && MarchOffset(2) == 61 && MarchOffset(3) == 92;
    assert MarchOffset(4) == 122 && MarchOffset(5) == 153 && MarchOffset(6) == 184 && MarchOffset(7) == 214;
    assert MarchOffset(8) == 245 && MarchOffset(9) == 275 && MarchOffset(10) == 306 && MarchOffset(11) == 337;
    assert mp == 0 || mp == 1 || mp == 2 || mp == 3 || mp == 4 || mp == 5
           || mp == 6 || mp == 7 || mp == 8 || mp == 9 || mp == 10 || mp == 11;
  }

  /** Every day from the epoch on becomes a valid date, and counting back gives that day. */
  lemma DaysRoundTrip(days: nat)
    ensures var (y, m, d) := CivilFromDays(days); ValidDate(y, m, d) && DayNumber(y, m, d) == days
  {
    var z := days + 719468;
    var era := z / 146097;
    var doe := z - era * 146097;
    assert Era(z) == era;
    var c, k, t := SplitEra(doe);
    DayWithin(doe, c, k, t);
    ShiftedDate(era, YearOfEra(doe), DayOfYear(doe, YearOfEra(doe)));
  }

  lemma TimeOfDay(tod: int)
    requires 0 <= tod < 86400
    ensures 0 <= tod / 3600 < 24 && 0 <= (tod % 3600) / 60 < 60 && 0 <= tod % 60 < 60
    ensures (tod / 3600) * 3600 + ((tod % 3600) / 60) * 60 + tod % 60 == tod
  {
    assert tod == 3600 * (tod / 3600) + tod % 3600;
    assert tod % 3600 == 60 * ((tod % 3600) / 60) + (tod % 3600) % 60;
    assert tod == 60 * (60 * (tod / 3600) + (tod % 3600) / 60) + (tod % 3600) % 60;
  }

  /** For every second from the epoch on: a valid date and time of day, and converting back gives the input. */
  lemma EpochRoundTrip(secs: nat)
    ensures Valid(FromEpoch(secs)) && ToEpoch(FromEpoch(secs)) == secs
  {
    var (days, tod) := (secs / 86400, secs % 86400);
    DaysRoundTrip(days);
    TimeOfDay(tod);
    var (y, m, d) := CivilFromDays(days);
    var t := DateTime(y, m, d, tod / 3600, (tod % 3600) / 60, tod % 60);
    assert FromEpoch(secs) == t;
    assert DayNumber(t.year, t.month, t.day) == days;
    assert secs == days * 86400 + tod;
  }

  // --- the order of dates --------------------------------------------------------------

  /** Earlier in the calendar. */
  predicate Before(a: DateTime, b: DateTime) {
    if a.year != b.year then a.year < b.year
    else if a.month != b.month then a.month < b.month
    else if a.day != b.day then a.day < b.day
    else if a.hour != b.hour then a.hour < b.hour
    else if a.minute != b.minute then a.minute < b.minute
    else a.second < b.second
  }

  lemma {:induction false} YearsAdd(a: nat, b: nat)
    requires a < b
    ensures DaysBeforeYear(a) + DaysInYear(a) <= DaysBeforeYear(b)
  {
    if b > a + 1 {
      YearsAdd(a, b - 1);
    }
  }

  lemma {:induction false} MonthsAdd(y: int, a: int, b: int)
    requires 1 <= a < b <= 13
    ensures DaysBeforeMonth(y, a) + DaysInMonth(y, a) <= DaysBeforeMonth(y, b)
    decreases b
  {
    if b > a + 1 {
      MonthsAdd(y, a, b - 1);
    }
  }

  /** The months of a year make up its days. */
  lemma MonthsFillYear(y: int)
    ensures DaysBeforeMonth(y, 13) == DaysInYear(y)
  {
    DaysBeforeMonthClosed(y, 12);
    assert MarchOffset(9) == 275;
  }

  lemma EarlierDay(a: DateTime, b: DateTime)
    requires Valid(a) && Valid(b) && Before(a, b)
    ensures DayNumber(a.year, a.month, a.day) <= DayNumber(b.year, b.month, b.day)
    ensures (a.year, a.month, a.day) != (b.year, b.month, b.day) ==>
              DayNumber(a.year, a.month, a.day) < DayNumber(b.year, b.month, b.day)
  {
    if a.year < b.year {
      YearsAdd(a.year, b.year);
      MonthsFillYear(a.year);
      MonthsAdd(a.year, a.month, 13);
      assert DaysBeforeMonth(b.year, b.month) >= 0 by { if b.month > 1 { MonthsAdd(b.year, 1, b.month); } }
    } else if a.month < b.month {
      MonthsAdd(a.year, a.month, b.month);
    }
  }

  /** Seconds order dates and times the way the calendar does. */
  lemma ToEpochIsMonotone(a: DateTime, b: DateTime)
    requires Valid(a) && Valid(b) && Before(a, b)
    ensures ToEpoch(a) < ToEpoch(b)
  {
    EarlierDay(a, b);
  }

  lemma Trichotomy(a: DateTime, b: DateTime)
    ensures a == b || Before(a, b) || Before(b, a)
  {
  }

  /** Later seconds make later dates, so different seconds make different dates. */
  lemma FromEpochIsMonotone(s: nat, t: nat)
    ensures s < t <==> Before(FromEpoch(s), FromEpoch(t))
  {
    EpochRoundTrip(s);
    EpochRoundTrip(t);
    var (a, b) := (FromEpoch(s), FromEpoch(t));
    Trichotomy(a, b);
    if Before(a, b) { ToEpochIsMonotone(a, b); }
    if Before(b, a) { ToEpochIsMonotone(b, a); }
  }

  /** Every valid date from the epoch on is the date of its own second, and of no other. */
  lemma EveryDateIsReached(t: DateTime)
    requires Valid(t) && ToEpoch(t) >= 0
    ensures FromEpoch(ToEpoch(t)) == t
  {
    var u := FromEpoch(ToEpoch(t));
    EpochRoundTrip(ToEpoch(t));
    Trichotomy(t, u);
    if Before(t, u) { ToEpochIsMonotone(t, u); }
    if Before(u, t) { ToEpochIsMonotone(u, t); }
  }

  // --- machine integers ----------------------------------------------------------------

  predicate FitsI64(n: int) {
    -0x8000_0000_0000_0000 <= n <= 0x7FFF_FFFF_FFFF_FFFF
  }

  /** No intermediate leaves 64 bits, for any 64-bit number of seconds: the cast to signed and every sum and product. */
  lemma IntermediatesFit(secs: nat)
    requires secs <= U64_MAX
    ensures var z := secs / 86400 + 719468;
            var doe := z - Era(z) * 146097;
            var yoe := YearOfEra(doe);
            var doy := DayOfYear(doe, yoe);
            && 0 <= doe <= 146096 && 0 <= yoe <= 399 && 0 <= doy <= 365
            && FitsI64(secs / 86400) && FitsI64(z) && FitsI64(Era(z) * 146097) && FitsI64(yoe + Era(z) * 400 + 1)
            && FitsI64(5 * doy + 2) && FitsI64(153 * ShiftedMonth(doy) + 2)
  {
    var z := secs / 86400 + 719468;
    assert z <= 213_503_982_334_601 + 719468;
    assert Era(z) == z / 146097;
    var doe := z - Era(z) * 146097;
    var c, k, t := SplitEra(doe);
    DayWithin(doe, c, k, t);
    MonthWithin(DayOfYear(doe, YearOfEra(doe)));
  }
}
