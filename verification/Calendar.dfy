/** Civil-from-days: the two date conversions of the repository against the Gregorian
    calendar (month lengths in section 5.7, leap years in Appendix C of RFC 3339). */
module Calendar {

  newtype I64 = x: int | -0x8000_0000_0000_0000 <= x < 0x8000_0000_0000_0000
  newtype I32 = x: int | -0x8000_0000 <= x < 0x8000_0000
  newtype U32 = x: int | 0 <= x < 0x1_0000_0000

  datatype Date = Date(year: int, month: int, day: int)

  // ---- The Gregorian calendar ----

  predicate Leap(y: int) { y % 4 == 0 && (y % 100 != 0 || y % 400 == 0) }

  function MonthLength(y: int, m: int): int {
    if m == 2 then (if Leap(y) then 29 else 28)
    else if m == 4 || m == 6 || m == 9 || m == 11 then 30
    else 31
  }

  predicate ValidDate(d: Date) {
    1 <= d.month <= 12 && 1 <= d.day <= MonthLength(d.year, d.month)
  }

  function NextDay(d: Date): Date {
    if d.day < MonthLength(d.year, d.month) then Date(d.year, d.month, d.day + 1)
    else if d.month < 12 then Date(d.year, d.month + 1, 1)
    else Date(d.year + 1, 1, 1)
  }

  // ---- The conversion on unbounded integers ----

  /** Days before March-based year `y`, counted from 1 March of year 0. */
  function YearStart(y: int): int { 365 * y + y / 4 - y / 100 + y / 400 }

  /** Days before month `mp` of a March-based year. */
  function MonthStart(mp: int): int { (153 * mp + 2) / 5 }

  function YearOfEra(doe: int): int { (doe - doe / 1460 + doe / 36524 - doe / 146096) / 365 }

  function MonthOfYear(doy: int): int { (5 * doy + 2) / 153 }

  /** A day given as March-based year and day of that year. */
  function MarchDate(y: int, doy: int): Date {
    var mp := MonthOfYear(doy);
    var m := if mp < 10 then mp + 3 else mp - 9;
    Date(if m <= 2 then y + 1 else y, m, doy - MonthStart(mp) + 1)
  }

  function DayOfYear(doe: int, yoe: int): int { doe - (365 * yoe + yoe / 4 - yoe / 100) }

  /** The calendar date of day `doe` of a 400-year era. */
  function EraDate(era: int, doe: int): Date {
    MarchDate(YearOfEra(doe) + 400 * era, DayOfYear(doe, YearOfEra(doe)))
  }

  /** The calendar date of a day number since 1970-01-01. */
  function Civil(days: int): Date {
    EraDate((days + 719_468) / 146_097, (days + 719_468) % 146_097)
  }

  /** The day number of a date: the inverse conversion. */
  function DayNumber(d: Date): int {
    var y := if d.month <= 2 then d.year - 1 else d.year;
    var mp := if d.month <= 2 then d.month + 9 else d.month - 3;
    YearStart(y) + MonthStart(mp) + d.day - 1 - 719_468
  }

  // ---- Brackets ----

  /** Centuries, four-year cycles and years of a day of the 400-year era. */
  lemma EraParts(doe: int) returns (c: int, f: int, g: int, h: int)
    requires 0 <= doe < 146_097
    ensures 0 <= c <= 3 && 0 <= f <= 24 && 0 <= g <= 3 && 0 <= h <= 365
    ensures doe == 36524 * c + 1461 * f + 365 * g + h
    ensures h == 365 ==> g == 3 && (f < 24 || c == 3)
  {
    c := if doe >= 109572 then 3 else doe / 36524;
    var r := doe - 36524 * c;
    f := r / 1461;
    var s := r - 1461 * f;
    g := if s >= 1095 then 3 else s / 365;
    h := s - 365 * g;
  }

  lemma PartsStart(c: int, f: int, g: int)
    requires 0 <= c <= 3 && 0 <= f <= 24 && 0 <= g <= 3
    ensures YearStart(100 * c + 4 * f + g) == 36524 * c + 1461 * f + 365 * g
  {
    var y := 100 * c + 4 * f + g;
    assert y / 4 == 25 * c + f;
    assert y / 100 == c;
    assert y / 400 == 0;
  }

  lemma PartsNext(c: int, f: int, g: int)
    requires 0 <= c <= 3 && 0 <= f <= 24 && 0 <= g <= 3
    ensures YearStart(100 * c + 4 * f + g + 1) ==
      36524 * c + 1461 * f + 365 * g + if g == 3 && (f < 24 || c == 3) then 366 else 365
  {
    if g < 3 {
      PartsStart(c, f, g + 1);
    } else if f < 24 {
      PartsStart(c, f + 1, 0);
    } else if c < 3 {
      PartsStart(c + 1, 0, 0);
    }
  }

  lemma PartsYear(doe: int, c: int, f: int, g: int, h: int)
    requires 0 <= c <= 3 && 0 <= f <= 24 && 0 <= g <= 3 && 0 <= h <= 365
    requires doe == 36524 * c + 1461 * f + 365 * g + h
    requires h == 365 ==> g == 3 && (f < 24 || c == 3)
    ensures YearOfEra(doe) == 100 * c + 4 * f + g
  {
    var e := if 24 * c + f + 365 * g + h >= 1460 then 1 else 0;
    assert doe / 1460 == 25 * c + f + e;
    var last := if doe == 146_096 then 1 else 0;
    assert doe / 36524 == c + last && doe / 146_096 == last;
    assert 0 <= h - e <= 364;
    assert doe - doe / 1460 + doe / 36524 - doe / 146_096 == 365 * (100 * c + 4 * f + g) + (h - e);
  }

  lemma YearBracket(doe: int)
    requires 0 <= doe < 146_097
    ensures var y := YearOfEra(doe); 0 <= y < 400 && YearStart(y) <= doe < YearStart(y + 1)
  {
    var c, f, g, h := EraParts(doe);
    PartsStart(c, f, g);
    PartsNext(c, f, g);
    PartsYear(doe, c, f, g, h);
  }

  lemma MonthBracket(doy: int)
    requires 0 <= doy < 366
    ensures var mp := MonthOfYear(doy); 0 <= mp < 12 && MonthStart(mp) <= doy < MonthStart(mp + 1)
  {
  }

  lemma YearStartMonotone(a: int, b: int)
    requires a < b
    ensures YearStart(a + 1) <= YearStart(b)
  {
  }

  lemma QuotientStep(y: int, c: int)
    requires c == 4 || c == 100 || c == 400
    ensures (y + 1) / c == y / c + if (y + 1) % c == 0 then 1 else 0
  {
    if c == 4 {
      assert (y + 1) / 4 == y / 4 + if (y + 1) % 4 == 0 then 1 else 0;
    } else if c == 100 {
      assert (y + 1) / 100 == y / 100 + if (y + 1) % 100 == 0 then 1 else 0;
    } else {
      assert (y + 1) / 400 == y / 400 + if (y + 1) % 400 == 0 then 1 else 0;
    }
  }

  lemma YearLength(y: int)
    ensures YearStart(y + 1) - YearStart(y) == if Leap(y + 1) then 366 else 365
  {
    QuotientStep(y, 4);
    QuotientStep(y, 100);
    QuotientStep(y, 400);
    Multiples(y + 1);
  }

  lemma Multiples(n: int)
    ensures n % 400 == 0 ==> n % 100 == 0
    ensures n % 100 == 0 ==> n % 4 == 0
  {
  }

  lemma EraShift(era: int, r: int)
    requires 0 <= r <= 400
    ensures YearStart(400 * era + r) == 146_097 * era + YearStart(r)
  {
    assert (400 * era + r) / 4 == 100 * era + r / 4;
    assert (400 * era + r) / 100 == 4 * era + r / 100;
    assert (400 * era + r) / 400 == era + r / 400;
  }

  // ---- The two conversions are inverse ----

  /** Day `doy` of March-based year `y` is a calendar date with the right number. */
  lemma MarchDateMeaning(y: int, doy: int)
    requires 0 <= doy < YearStart(y + 1) - YearStart(y)
    ensures ValidDate(MarchDate(y, doy))
    ensures DayNumber(MarchDate(y, doy)) == YearStart(y) + doy - 719_468
  {
    YearLength(y);
    MonthBracket(doy);
    var mp := MonthOfYear(doy);
    MonthLengths(y, mp);
    if mp == 11 {
      assert MonthStart(11) == 337;
    }
  }

  /** The month table behind `(153 * mp + 2) / 5`. */
  lemma MonthLengths(y: int, mp: int)
    requires 0 <= mp < 12
    ensures var m := if mp < 10 then mp + 3 else mp - 9;
      mp < 11 ==> MonthLength(if m <= 2 then y + 1 else y, m) == MonthStart(mp + 1) - MonthStart(mp)
    ensures MonthStart(11) == 337 && MonthStart(0) == 0
  {
  }

  lemma DayOfYearMeaning(doe: int)
    requires 0 <= doe < 146_097
    ensures var y := YearOfEra(doe);
      0 <= y < 400 && DayOfYear(doe, y) == doe - YearStart(y) && 0 <= DayOfYear(doe, y) < YearStart(y + 1) - YearStart(y)
  {
    YearBracket(doe);
    assert YearOfEra(doe) / 400 == 0;
  }

  lemma EraDateParts(era: int, doe: int) returns (y: int, doy: int)
    requires 0 <= doe < 146_097
    ensures EraDate(era, doe) == MarchDate(y, doy)
    ensures 0 <= doy < YearStart(y + 1) - YearStart(y) && 146_097 * era + doe == YearStart(y) + doy
  {
    DayOfYearMeaning(doe);
    y, doy := ShiftedYear(era, doe, YearOfEra(doe), DayOfYear(doe, YearOfEra(doe)));
  }

  lemma ShiftedYear(era: int, doe: int, yoe: int, dayOfYear: int) returns (y: int, doy: int)
    requires 0 <= yoe < 400 && dayOfYear == doe - YearStart(yoe) && 0 <= dayOfYear < YearStart(yoe + 1) - YearStart(yoe)
    ensures y == yoe + 400 * era && doy == dayOfYear
    ensures 0 <= doy < YearStart(y + 1) - YearStart(y) && 146_097 * era + doe == YearStart(y) + doy
  {
    ShiftedBracket(era, yoe);
    y, doy := yoe + 400 * era, dayOfYear;
  }

  lemma ShiftedBracket(era: int, yoe: int)
    requires 0 <= yoe < 400
    ensures YearStart(400 * era + yoe) == 146_097 * era + YearStart(yoe)
    ensures YearStart(400 * era + yoe + 1) == 146_097 * era + YearStart(yoe + 1)
  {
    EraShift(era, yoe);
    EraShift(era, yoe + 1);
    assert 400 * era + (yoe + 1) == 400 * era + yoe + 1;
  }

  lemma CivilParts(days: int) returns (y: int, doy: int)
    ensures Civil(days) == MarchDate(y, doy)
    ensures 0 <= doy < YearStart(y + 1) - YearStart(y) && days + 719_468 == YearStart(y) + doy
  {
    var z := days + 719_468;
    y, doy := EraDateParts(z / 146_097, z % 146_097);
  }

  /** Every day number is converted to a real date whose number it is. */
  lemma CivilMeaning(days: int)
    ensures ValidDate(Civil(days)) && DayNumber(Civil(days)) == days
  {
    var y, doy := CivilParts(days);
    MarchDateMeaning(y, doy);
  }

  /** Every real date comes back from its number. */
  lemma CivilInverse(d: Date)
    requires ValidDate(d)
    ensures Civil(DayNumber(d)) == d
  {
    CivilMeaning(DayNumber(d));
    SameNumber(Civil(DayNumber(d)), d);
  }

  /** Year and day of year, March-based, of a date. */
  lemma DateParts(d: Date) returns (y: int, doy: int)
    requires ValidDate(d)
    ensures y == (if d.month <= 2 then d.year - 1 else d.year)
    ensures doy == MonthStart(if d.month <= 2 then d.month + 9 else d.month - 3) + d.day - 1
    ensures DayNumber(d) == YearStart(y) + doy - 719_468 && 0 <= doy < YearStart(y + 1) - YearStart(y)
    ensures MarchDate(y, doy) == d
  {
    y := if d.month <= 2 then d.year - 1 else d.year;
    var mp := if d.month <= 2 then d.month + 9 else d.month - 3;
    doy := MonthStart(mp) + d.day - 1;
    YearLength(y);
    MonthLengths(y, mp);
    MonthOf(mp, doy, if mp < 11 then MonthStart(mp + 1) else 366);
  }

  lemma MonthOf(mp: int, doy: int, next: int)
    requires 0 <= mp < 12 && MonthStart(mp) <= doy < next && next == if mp < 11 then MonthStart(mp + 1) else 366
    ensures MonthOfYear(doy) == mp
  {
  }

  /** Two real dates with one number are the same date. */
  lemma SameNumber(a: Date, b: Date)
    requires ValidDate(a) && ValidDate(b) && DayNumber(a) == DayNumber(b)
    ensures a == b
  {
    var y, doy := DateParts(a);
    var y', doy' := DateParts(b);
    SameDay(y, doy, y', doy');
  }

  lemma SameDay(y: int, doy: int, y': int, doy': int)
    requires 0 <= doy < YearStart(y + 1) - YearStart(y) && 0 <= doy' < YearStart(y' + 1) - YearStart(y')
    requires YearStart(y) + doy == YearStart(y') + doy'
    ensures y == y' && doy == doy'
  {
    if y < y' { YearStartMonotone(y, y'); }
    if y' < y { YearStartMonotone(y', y); }
  }

  lemma NextDayMeaning(d: Date)
    requires ValidDate(d)
    ensures ValidDate(NextDay(d)) && DayNumber(NextDay(d)) == DayNumber(d) + 1
  {
    var y := if d.month <= 2 then d.year - 1 else d.year;
    var mp := if d.month <= 2 then d.month + 9 else d.month - 3;
    YearLength(y);
    MonthLengths(y, mp);
  }

  /** Day d+1 is the calendar day after day d, for every d. */
  lemma CivilSuccessor(days: int)
    ensures Civil(days + 1) == NextDay(Civil(days))
  {
    CivilMeaning(days);
    NextDayMeaning(Civil(days));
    CivilInverse(NextDay(Civil(days)));
  }

  lemma EpochDay()
    ensures Civil(0) == Date(1970, 1, 1)
  {
    assert DayNumber(Date(1970, 1, 1)) == 0;
    CivilInverse(Date(1970, 1, 1));
  }

  lemma OnlyEpoch(days: int)
    requires days != 0
    ensures Civil(days) != Date(1970, 1, 1)
  {
    CivilMeaning(days);
    NotEpoch(Civil(days));
  }

  lemma NotEpoch(d: Date)
    requires DayNumber(d) != 0
    ensures d != Date(1970, 1, 1)
  {
    assert DayNumber(Date(1970, 1, 1)) == 0;
  }

  /** Walking the calendar forward from 1970-01-01. */
  function Walk(n: nat): Date {
    if n == 0 then Date(1970, 1, 1) else NextDay(Walk(n - 1))
  }

  /** The formula agrees with counting days one by one on the calendar. */
  lemma {:induction false} CivilCounts(n: nat)
    ensures Civil(n) == Walk(n)
  {
    if n == 0 {
      EpochDay();
    } else {
      CivilCounts(n - 1);
      CivilStep(n);
    }
  }

  lemma CivilStep(n: int)
    ensures Civil(n) == NextDay(Civil(n - 1))
  {
    CivilSuccessor(n - 1);
    assert n - 1 + 1 == n;
  }

  // ---- The two fixed-width implementations ----

  /** Days of an i64 count of milliseconds, rounded toward the past. */
  function DaysOf(millis: I64): I64 { millis / 86_400_000 }

  /** The day counts `short_ts` and `format_date` can meet. */
  predicate DayRange(days: I64) { -106_751_991_168 <= days <= 106_751_991_167 }

  lemma DaysInRange(millis: I64)
    ensures DayRange(DaysOf(millis))
  {
  }

  /** Rust's `/` truncates toward zero; the shift makes it the era below zero as well. */
  function EraOf(z: I64): (era: I64)
    requires -200_000_000_000 <= z <= 200_000_000_000
    ensures era as int == z as int / 146_097 && -2_000_000 <= era <= 2_000_000
  {
    if z >= 0 then z / 146_097 else -((146_096 - z) / 146_097)
  }

  lemma EraSteps(doe: int)
    requires 0 <= doe < 146_097
    ensures 0 <= doe / 1460 <= doe && 0 <= doe / 36_524 && doe - doe / 1460 + doe / 36_524 - doe / 146_096 >= 0
    ensures var y := YearOfEra(doe);
      0 <= y < 400 && 0 <= 365 * y + y / 4 - y / 100 <= doe && 0 <= DayOfYear(doe, y) < 366
  {
    DayOfYearMeaning(doe);
    YearLength(YearOfEra(doe));
  }

  lemma MonthSteps(doy: int)
    requires 0 <= doy < 366
    ensures 0 <= MonthOfYear(doy) < 12 && 0 <= MonthStart(MonthOfYear(doy)) <= doy
  {
    MonthBracket(doy);
  }

  /** Month and day in u32: every intermediate value fits. */
  function MonthDay(doy: U32): (r: (U32, U32))
    requires doy < 366
    ensures var mp := MonthOfYear(doy as int);
      r.0 as int == (if mp < 10 then mp + 3 else mp - 9) && r.1 as int == doy as int - MonthStart(mp) + 1
  {
    MonthSteps(doy as int);
    var mp := (5 * doy + 2) / 153;
    var d := doy - (153 * mp + 2) / 5 + 1;
    (if mp < 10 then mp + 3 else mp - 9, d)
  }

  /** Year of era and day of year in u32: no subtraction goes below zero. */
  function YearDay(doe: U32): (r: (U32, U32))
    requires doe < 146_097
    ensures r.0 as int == YearOfEra(doe as int) && r.1 as int == DayOfYear(doe as int, YearOfEra(doe as int))
    ensures r.0 < 400 && r.1 < 366
  {
    EraSteps(doe as int);
    var yoe := (doe - doe / 1460 + doe / 36_524 - doe / 146_096) / 365;
    (yoe, doe - (365 * yoe + yoe / 4 - yoe / 100))
  }

  lemma Assemble(days: int, era: int, doe: int, yoe: int, doy: int, m: int, d: int)
    requires era == (days + 719_468) / 146_097 && doe == (days + 719_468) % 146_097
    requires yoe == YearOfEra(doe) && doy == DayOfYear(doe, yoe)
    requires m == (if MonthOfYear(doy) < 10 then MonthOfYear(doy) + 3 else MonthOfYear(doy) - 9)
    requires d == doy - MonthStart(MonthOfYear(doy)) + 1
    ensures Civil(days) == Date(if m <= 2 then yoe + 400 * era + 1 else yoe + 400 * era, m, d)
  {
  }

  lemma EraRemainder(z: int, era: int)
    requires era == z / 146_097
    ensures z - era * 146_097 == z % 146_097
  {
  }

  /** The u32/i32 steps of `days_to_ymd`: every intermediate value fits its type. */
  function DaysToYmd(days: I64): (r: (I32, U32, U32))
    requires DayRange(days)
    ensures Date(r.0 as int, r.1 as int, r.2 as int) == Civil(days as int)
  {
    var z := days + 719_468;
    var era := EraOf(z);
    EraRemainder(z as int, era as int);
    var doe := (z - era * 146_097) as U32;
    var (yoe, doy) := YearDay(doe);
    var y := yoe as I32 + era as I32 * 400;
    var (m, d) := MonthDay(doy);
    Assemble(days as int, era as int, doe as int, yoe as int, doy as int, m as int, d as int);
    (if m <= 2 then y + 1 else y, m, d)
  }

  /** Month and day in i64, as `format_date` computes them. */
  function MonthDayWide(doy: I64): (r: (I64, I64))
    requires 0 <= doy < 366
    ensures var mp := MonthOfYear(doy as int);
      r.0 as int == (if mp < 10 then mp + 3 else mp - 9) && r.1 as int == doy as int - MonthStart(mp) + 1
  {
    MonthSteps(doy as int);
    var mp := (5 * doy + 2) / 153;
    var d := doy - (153 * mp + 2) / 5 + 1;
    (if mp < 10 then mp + 3 else mp - 9, d)
  }

  function YearDayWide(doe: I64): (r: (I64, I64))
    requires 0 <= doe < 146_097
    ensures r.0 as int == YearOfEra(doe as int) && r.1 as int == DayOfYear(doe as int, YearOfEra(doe as int))
    ensures 0 <= r.0 < 400 && 0 <= r.1 < 366
  {
    EraSteps(doe as int);
    var yoe := (doe - doe / 1460 + doe / 36_524 - doe / 146_096) / 365;
    (yoe, doe - (365 * yoe + yoe / 4 - yoe / 100))
  }

  /** The i64 steps of `format_date`. */
  function DateOf(millis: I64): (r: (I64, I64, I64))
    ensures Date(r.0 as int, r.1 as int, r.2 as int) == Civil(DaysOf(millis) as int)
  {
    DaysInRange(millis);
    var z := DaysOf(millis) + 719_468;
    var era, doe := z / 146_097, z % 146_097;
    var (yoe, doy) := YearDayWide(doe);
    var y := yoe + era * 400;
    var (m, d) := MonthDayWide(doy);
    Assemble(DaysOf(millis) as int, era as int, doe as int, yoe as int, doy as int, m as int, d as int);
    (if m <= 2 then y + 1 else y, m, d)
  }

  /** The date `short_ts` prints: anything up to the epoch is shown as the epoch. */
  function ShortDate(millis: I64): Date {
    if millis <= 0 then Date(1970, 1, 1) else
      DaysInRange(millis);
      var (y, m, d) := DaysToYmd(DaysOf(millis));
      Date(y as int, m as int, d as int)
  }

  function FormatDate(millis: I64): Date {
    var (y, m, d) := DateOf(millis);
    Date(y as int, m as int, d as int)
  }

  /** The two printed dates agree exactly from the epoch on: before it, `short_ts` is clamped. */
  lemma DatesAgree(millis: I64)
    ensures ShortDate(millis) == FormatDate(millis) <==> millis >= 0
  {
    EpochDay();
    if millis < 0 {
      assert DaysOf(millis) < 0;
      OnlyEpoch(DaysOf(millis) as int);
    }
  }

  /** What both dates say of a timestamp: the day that contains the millisecond, counted from the
      epoch, as a valid Gregorian date; up to the epoch the short one says the epoch. */
  lemma DateOfMillisecond(millis: I64, day: int)
    requires day * 86_400_000 <= millis as int < (day + 1) * 86_400_000
    ensures ValidDate(FormatDate(millis)) && DayNumber(FormatDate(millis)) == day
    ensures millis > 0 ==> ShortDate(millis) == FormatDate(millis)
    ensures millis <= 0 ==> ShortDate(millis) == Date(1970, 1, 1)
  {
    assert DaysOf(millis) as int == day;
    CivilMeaning(day);
  }
}
