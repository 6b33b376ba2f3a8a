/** The two calendar conversions, one per crate, against the calendar itself. */
module Calendar {

  datatype Date = Date(year: int, month: int, day: int)

  /** Integer division of the program: it truncates toward zero. */
  function Quotient(a: int, b: int): int
    requires b > 0
  {
    if a >= 0 then a / b else -((-a) / b)
  }

  predicate Leap(year: int) {
    year % 4 == 0 && (year % 100 != 0 || year % 400 == 0)
  }

  function MonthLength(year: int, month: int): int {
    match month
    case 1 | 3 | 5 | 7 | 8 | 10 | 12 => 31
    case 4 | 6 | 9 | 11 => 30
    case 2 => if Leap(year) then 29 else 28
    case _ => 0
  }

  predicate OnCalendar(d: Date) {
    1 <= d.day <= MonthLength(d.year, d.month)
  }

  /** `valid_calendar_date` on the numbers it parses: four digits make the year. */
  predicate ValidCalendarDate(d: Date) {
    1 <= d.year <= 9999 && OnCalendar(d)
  }

  /** The day after, straight from the month lengths. */
  function NextDay(d: Date): Date {
    if d.day < MonthLength(d.year, d.month) then d.(day := d.day + 1)
    else if d.month < 12 then Date(d.year, d.month + 1, 1)
    else Date(d.year + 1, 1, 1)
  }

  // ----- the day count of `timestamp_epoch`

  function YearIndex(d: Date): int {
    d.year - if d.month <= 2 then 1 else 0
  }

  function DayOfYear(month: int, day: int): int {
    Quotient(153 * (month + if month > 2 then -3 else 9) + 2, 5) + day - 1
  }

  function DayCount(d: Date): int {
    var y := YearIndex(d);
    var era := Quotient(if y >= 0 then y else y - 399, 400);
    var yearOfEra := y - era * 400;
    var dayOfEra := yearOfEra * 365 + Quotient(yearOfEra, 4) - Quotient(yearOfEra, 100) + DayOfYear(d.month, d.day);
    era * 146097 + dayOfEra - 719468
  }

  // ----- `civil_date`

  function YearOfEra(doe: int): int {
    Quotient(doe - Quotient(doe, 1460) + Quotient(doe, 36524) - Quotient(doe, 146096), 365)
  }

  function CivilDate(days: int): Date {
    var z := days + 719468;
    var era := Quotient(if z >= 0 then z else z - 146096, 146097);
    var doe := z - era * 146097;
    var yoe := YearOfEra(doe);
    var year := yoe + era * 400;
    var doy := doe - (365 * yoe + Quotient(yoe, 4) - Quotient(yoe, 100));
    var mp := Quotient(5 * doy + 2, 153);
    var day := doy - Quotient(153 * mp + 2, 5) + 1;
    var month := mp + if mp < 10 then 3 else -9;
    Date(year + if month <= 2 then 1 else 0, month, day)
  }

  // ----- eras: both conversions take the floor

  lemma YearEraIsFloor(y: int)
    ensures Quotient(if y >= 0 then y else y - 399, 400) == y / 400
  {
  }

  lemma DayEraIsFloor(z: int)
    ensures Quotient(if z >= 0 then z else z - 146096, 146097) == z / 146097
  {
  }

  // ----- inside one era, years start in March

  /** The leap day is the last day of a year that starts in March. */
  predicate LongYear(yoe: int) {
    (yoe + 1) % 4 == 0 && ((yoe + 1) % 100 != 0 || (yoe + 1) % 400 == 0)
  }

  function YearStart(yoe: int): int {
    365 * yoe + yoe / 4 - yoe / 100
  }

  /** Position in the era: century c, four-year block q, year r of the block. */
  lemma YearOfEraAt(c: int, q: int, r: int, doy: int)
    requires 0 <= c < 4 && 0 <= q < 25 && 0 <= r < 4 && 0 <= doy <= 365
    requires doy == 365 ==> r == 3 && (q == 24 ==> c == 3)
    ensures YearOfEra(36524 * c + 1461 * q + 365 * r + doy) == 100 * c + 4 * q + r
  {
    var doe := 36524 * c + 1461 * q + 365 * r + doy;
    var k := (24 * c + q + 365 * r + doy) / 1460;
    assert 0 <= k <= 1 && (k == 1 ==> doy >= 1) && (doy == 365 ==> k == 1);
    assert doe / 1460 == 25 * c + q + k;
    var last := if doe == 146096 then 1 else 0;
    assert doe / 146096 == last;
    assert doe / 36524 == c + last by {
      assert 0 <= 1461 * q + 365 * r + doy <= 36524;
      assert 1461 * q + 365 * r + doy == 36524 ==> c == 3 && doe == 146096;
    }
    assert doe - doe / 1460 + doe / 36524 - doe / 146096 == 365 * (100 * c + 4 * q + r) + (doy - k);
  }

  lemma YearOfEraInverts(yoe: int, doy: int)
    requires 0 <= yoe < 400 && 0 <= doy < (if LongYear(yoe) then 366 else 365)
    ensures 0 <= YearStart(yoe) + doy < 146097
    ensures YearOfEra(YearStart(yoe) + doy) == yoe
  {
    var c, q, r := yoe / 100, yoe % 100 / 4, yoe % 4;
    assert yoe == 100 * c + 4 * q + r;
    YearOfEraAt(c, q, r, doy);
  }

  /** Where a day of an era lies: century, four-year block, year of the block, day of the year. */
  lemma PositionOf(doe: int) returns (c: int, q: int, r: int, doy: int)
    requires 0 <= doe < 146097
    ensures 0 <= c < 4 && 0 <= q < 25 && 0 <= r < 4 && 0 <= doy <= 365
    ensures doe == 36524 * c + 1461 * q + 365 * r + doy
    ensures doy == 365 ==> r == 3 && (q == 24 ==> c == 3)
  {
    var last := if doe == 146096 then 1 else 0;
    c := doe / 36524 - last;
    var w := doe - 36524 * c;
    assert 0 <= c < 4 && 0 <= w <= 36524 && (w == 36524 ==> c == 3);
    q := if w == 36524 then 24 else w / 1461;
    var v := w - 1461 * q;
    assert 0 <= q < 25 && 0 <= v <= 1460 && (v == 1460 && q == 24 ==> c == 3);
    r := if v == 1460 then 3 else v / 365;
    doy := v - 365 * r;
  }

  lemma LongYearAt(c: int, q: int, r: int)
    requires 0 <= c < 4 && 0 <= q < 25 && 0 <= r < 4
    ensures LongYear(100 * c + 4 * q + r) <==> r == 3 && (q == 24 ==> c == 3)
    ensures YearStart(100 * c + 4 * q + r) == 36524 * c + 1461 * q + 365 * r
  {
    var yoe := 100 * c + 4 * q + r;
    assert yoe / 4 == 25 * c + q && yoe / 100 == c;
    assert (yoe + 1) % 4 == 0 <==> r == 3;
    assert (yoe + 1) % 100 == 0 <==> q == 24 && r == 3;
    assert (yoe + 1) % 400 == 0 <==> c == 3 && q == 24 && r == 3;
  }

  /** Every day of an era lies in exactly one of its years. */
  lemma YearOfEraCovers(doe: int)
    requires 0 <= doe < 146097
    ensures var yoe := YearOfEra(doe);
      0 <= yoe < 400 && 0 <= doe - YearStart(yoe) < (if LongYear(yoe) then 366 else 365)
  {
    hide YearOfEra;
    hide YearStart;
    hide LongYear;
    var c, q, r, doy := PositionOf(doe);
    YearOfEraAt(c, q, r, doy);
    LongYearAt(c, q, r);
  }

  // ----- inside one year

  /** Length of the March-based year that month and day index into. */
  function ShiftedLength(yoe: int): int {
    if LongYear(yoe) then 366 else 365
  }

  /** The calendar date at a day of a March-based year. */
  function MonthDay(doy: int): (int, int) {
    var mp := (5 * doy + 2) / 153;
    (mp + if mp < 10 then 3 else -9, doy - (153 * mp + 2) / 5 + 1)
  }

  lemma DayOfYearInverts(month: int, day: int)
    requires 1 <= month <= 12 && 1 <= day <= (if month == 2 then 29 else MonthLength(1, month))
    ensures 0 <= DayOfYear(month, day) <= 365 && (DayOfYear(month, day) == 365 <==> month == 2 && day == 29)
    ensures MonthDay(DayOfYear(month, day)) == (month, day)
  {
  }

  lemma MonthDayInverts(doy: int)
    requires 0 <= doy <= 365
    ensures var (month, day) := MonthDay(doy);
      && 1 <= month <= 12 && 1 <= day <= (if month == 2 then 29 else MonthLength(1, month))
      && DayOfYear(month, day) == doy && (month == 2 && day == 29 <==> doy == 365)
  {
  }

  // ----- main results

  lemma LeapMatches(yoe: int, era: int)
    requires 0 <= yoe < 400
    ensures LongYear(yoe) <==> Leap(yoe + 400 * era + 1)
  {
    var n, year := yoe + 1, yoe + 400 * era + 1;
    assert year / 4 == 100 * era + n / 4;
    assert year / 100 == 4 * era + n / 100;
    assert year / 400 == era + n / 400;
  }

  /** The year with era and year of era taken apart. */
  lemma CountOf(d: Date)
    ensures var y := YearIndex(d);
      DayCount(d) == y / 400 * 146097 + YearStart(y % 400) + DayOfYear(d.month, d.day) - 719468
  {
    YearEraIsFloor(YearIndex(d));
    hide DayOfYear;
  }

  lemma DateOf(days: int)
    ensures var z := days + 719468;
      var yoe := YearOfEra(z % 146097);
      var doy := z % 146097 - YearStart(yoe);
      && 0 <= yoe < 400 && 0 <= doy < ShiftedLength(yoe)
      && CivilDate(days) == Date(yoe + z / 146097 * 400 + (if MonthDay(doy).0 <= 2 then 1 else 0), MonthDay(doy).0,
        MonthDay(doy).1)
  {
    hide YearOfEra;
    hide LongYear;
    hide Quotient;
    var z := days + 719468;
    DayEraIsFloor(z);
    var era, doe := z / 146097, z % 146097;
    YearOfEraCovers(doe);
    var yoe := YearOfEra(doe);
    var doy := doe - YearStart(yoe);
    assert z - era * 146097 == doe;
    QuotientOfNonNegative(yoe, 4);
    QuotientOfNonNegative(yoe, 100);
    assert doy >= 0;
    var mp := (5 * doy + 2) / 153;
    QuotientOfNonNegative(5 * doy + 2, 153);
    assert mp >= 0;
    QuotientOfNonNegative(153 * mp + 2, 5);
    assert doe - (365 * yoe + yoe / 4 - yoe / 100) == doy;
  }

  lemma QuotientOfNonNegative(a: int, b: int)
    requires a >= 0 && b > 0
    ensures Quotient(a, b) == a / b
  {
  }

  lemma YearSplit(era: int, yoe: int)
    requires 0 <= yoe < 400
    ensures (yoe + era * 400) / 400 == era && (yoe + era * 400) % 400 == yoe
  {
  }

  lemma EraSplit(era: int, doe: int)
    requires 0 <= doe < 146097
    ensures (era * 146097 + doe) / 146097 == era && (era * 146097 + doe) % 146097 == doe
  {
  }

  /** Every day number is the count of the date that `civil_date` gives it, and that date is on the calendar. */
  lemma CountOfCivilDate(days: int)
    ensures OnCalendar(CivilDate(days)) && DayCount(CivilDate(days)) == days
  {
    hide CivilDate;
    hide YearOfEra;
    hide DayCount;
    hide MonthDay;
    hide DayOfYear;
    hide YearStart;
    hide Leap;
    hide LongYear;
    var z := days + 719468;
    var era, doe := z / 146097, z % 146097;
    var yoe := YearOfEra(doe);
    DateOf(days);
    MonthDayInverts(doe - YearStart(yoe));
    LeapMatches(yoe, era);
    CountOf(CivilDate(days));
    YearSplit(era, yoe);
  }

  /** Every date on the calendar comes back from its count. */
  lemma CivilDateOfCount(d: Date)
    requires OnCalendar(d)
    ensures CivilDate(DayCount(d)) == d
  {
    hide CivilDate;
    hide YearOfEra;
    hide DayCount;
    hide MonthDay;
    hide DayOfYear;
    hide YearStart;
    hide Leap;
    hide LongYear;
    var y := YearIndex(d);
    var era, yoe := y / 400, y % 400;
    var doy := DayOfYear(d.month, d.day);
    DayOfYearInverts(d.month, d.day);
    LeapMatches(yoe, era);
    YearOfEraInverts(yoe, doy);
    CountOf(d);
    DateOf(DayCount(d));
    EraSplit(era, YearStart(yoe) + doy);
  }

  /** The count goes up by one from each date to the next. */
  lemma CountStepsByDay(d: Date)
    requires OnCalendar(d)
    ensures OnCalendar(NextDay(d)) && DayCount(NextDay(d)) == DayCount(d) + 1
  {
    CountOf(d);
    CountOf(NextDay(d));
    NextDayOfYear(d);
    var y := YearIndex(d);
    LeapMatches(y % 400, y / 400);
    NextYearStart(y);
    hide *;
  }

  /** From day to day the day of the March-based year goes up by one, or starts again after February. */
  lemma NextDayOfYear(d: Date)
    requires OnCalendar(d)
    ensures OnCalendar(NextDay(d))
    ensures var n := NextDay(d); var doy, next := DayOfYear(d.month, d.day), DayOfYear(n.month, n.day);
      if d.month == 2 && n.month == 3 then
        YearIndex(n) == YearIndex(d) + 1 == d.year && next == 0 && doy == (if Leap(d.year) then 365 else 364)
      else
        YearIndex(n) == YearIndex(d) && next == doy + 1
  {
    hide Leap;
  }

  lemma NextStartInEra(yoe: int)
    requires 0 <= yoe < 399
    ensures YearStart(yoe + 1) == YearStart(yoe) + ShiftedLength(yoe)
  {
    assert (yoe + 1) / 4 == yoe / 4 + if (yoe + 1) % 4 == 0 then 1 else 0;
    assert (yoe + 1) / 100 == yoe / 100 + if (yoe + 1) % 100 == 0 then 1 else 0;
    assert (yoe + 1) % 100 == 0 ==> (yoe + 1) % 4 == 0;
    assert (yoe + 1) % 400 == yoe + 1;
  }

  /** A March-based year is followed by the start of the next. */
  lemma NextYearStart(y: int)
    ensures (y + 1) / 400 * 146097 + YearStart((y + 1) % 400)
      == y / 400 * 146097 + YearStart(y % 400) + ShiftedLength(y % 400)
  {
    var era, yoe := y / 400, y % 400;
    if yoe < 399 {
      YearSplit(era, yoe + 1);
      assert y + 1 == yoe + 1 + era * 400;
      NextStartInEra(yoe);
      hide YearStart;
      hide ShiftedLength;
    } else {
      YearSplit(era + 1, 0);
      assert YearStart(399) + ShiftedLength(399) == 146097 && YearStart(0) == 0;
    }
  }

  predicate Before(a: Date, b: Date) {
    a.year < b.year || (a.year == b.year && (a.month < b.month || (a.month == b.month && a.day < b.day)))
  }

  lemma NextDayIsAfter(d: Date)
    requires OnCalendar(d)
    ensures Before(d, NextDay(d))
  {
  }

  lemma {:induction false} CivilDateIncreases(m: int, n: int)
    requires m < n
    ensures Before(CivilDate(m), CivilDate(n))
    decreases n - m
  {
    hide CivilDate;
    hide DayCount;
    var d := CivilDate(n - 1);
    CountOfCivilDate(n - 1);
    CountStepsByDay(d);
    CivilDateOfCount(NextDay(d));
    NextDayIsAfter(d);
    if m < n - 1 {
      CivilDateIncreases(m, n - 1);
    }
  }

  /** The day count strictly increases with date order, in both directions. */
  lemma CountIsMonotone(a: Date, b: Date)
    requires OnCalendar(a) && OnCalendar(b)
    ensures DayCount(a) < DayCount(b) <==> Before(a, b)
  {
    hide CivilDate;
    hide DayCount;
    CivilDateOfCount(a);
    CivilDateOfCount(b);
    if DayCount(a) < DayCount(b) {
      CivilDateIncreases(DayCount(a), DayCount(b));
    } else if DayCount(b) < DayCount(a) {
      CivilDateIncreases(DayCount(b), DayCount(a));
    }
  }

  lemma KnownCounts()
    ensures DayCount(Date(1970, 1, 1)) == 0
    ensures DayCount(Date(1, 1, 1)) == -719162 && DayCount(Date(9999, 12, 31)) == 2932896
  {
    CountOf(Date(1970, 1, 1));
    CountOf(Date(1, 1, 1));
    CountOf(Date(9999, 12, 31));
    hide DayCount;
  }

  /** `civil_date` yields dates that validation accepts exactly from 0001-01-01 to 9999-12-31. */
  lemma CivilDateIsValid(days: int)
    ensures ValidCalendarDate(CivilDate(days)) <==> -719162 <= days <= 2932896
  {
    hide CivilDate;
    KnownCounts();
    hide DayCount;
    CountOfCivilDate(days);
    CountIsMonotone(CivilDate(days), Date(1, 1, 1));
    CountIsMonotone(Date(9999, 12, 31), CivilDate(days));
  }
}
