/** The calendar arithmetic of core/src/audit.rs: `civil_from_unix_days` and `unix_ms_to_utc`. */
module Calendar {
  import opened Common

  datatype Date = Date(year: int, month: int, day: int)

  /* ---- The Gregorian calendar ---- */

  predicate Leap(y: int) {
    y % 4 == 0 && (y % 100 != 0 || y % 400 == 0)
  }

  function DaysInMonth(y: int, m: int): int {
    if m == 2 then (if Leap(y) then 29 else 28)
    else if m == 4 || m == 6 || m == 9 || m == 11 then 30
    else 31
  }

  predicate IsDate(d: Date) {
    1 <= d.month <= 12 && 1 <= d.day <= DaysInMonth(d.year, d.month)
  }

  function NextDay(d: Date): Date {
    if d.day < DaysInMonth(d.year, d.month) then d.(day := d.day + 1)
    else if d.month < 12 then Date(d.year, d.month + 1, 1)
    else Date(d.year + 1, 1, 1)
  }

  /** The days between 0001-01-01 and the first of January of year `y`. */
  function DaysBeforeYear(y: int): int {
    365 * (y - 1) + (y - 1) / 4 - (y - 1) / 100 + (y - 1) / 400
  }

  function DaysBeforeMonth(y: int, m: int): int
    requires 1 <= m <= 12
    decreases m
  {
    if m == 1 then 0 else DaysBeforeMonth(y, m - 1) + DaysInMonth(y, m - 1)
  }

  /** The number of days from 1970-01-01 to `d`. */
  function DayNumber(d: Date): int
    requires IsDate(d)
  {
    DaysBeforeYear(d.year) - 719162 + DaysBeforeMonth(d.year, d.month) + d.day - 1
  }

  lemma YearLength(y: int)
    ensures DaysBeforeYear(y + 1) == DaysBeforeYear(y) + if Leap(y) then 366 else 365
  {
    LeapsBetween(y);
  }

  lemma Fours(y: int)
    ensures y / 4 - (y - 1) / 4 == if y % 4 == 0 then 1 else 0
  {
  }

  lemma Hundreds(y: int)
    ensures y / 100 - (y - 1) / 100 == if y % 100 == 0 then 1 else 0
  {
    assert y - 1 == 100 * (y / 100) + (y % 100 - 1);
  }

  lemma FourHundreds(y: int)
    ensures y / 400 - (y - 1) / 400 == if y % 400 == 0 then 1 else 0
  {
    assert y - 1 == 400 * (y / 400) + (y % 400 - 1);
  }

  lemma HundredIsFour(y: int)
    ensures y % 100 == 0 ==> y % 4 == 0
  {
    assert y == 4 * (25 * (y / 100)) + y % 100;
  }

  lemma FourHundredIsHundred(y: int)
    ensures y % 400 == 0 ==> y % 100 == 0
  {
    assert y == 100 * (4 * (y / 400)) + y % 400;
  }

  /** The closed form counts a leap day exactly in leap years. */
  lemma LeapsBetween(y: int)
    ensures (y / 4 - y / 100 + y / 400) - ((y - 1) / 4 - (y - 1) / 100 + (y - 1) / 400) == if Leap(y) then 1 else 0
  {
    Fours(y);
    Hundreds(y);
    FourHundreds(y);
    HundredIsFour(y);
    FourHundredIsHundred(y);
  }

  lemma MonthsOfYear(y: int)
    ensures DaysBeforeMonth(y, 12) + 31 == if Leap(y) then 366 else 365
  {
    assert DaysBeforeMonth(y, 4) == 90 + if Leap(y) then 1 else 0;
    assert DaysBeforeMonth(y, 7) == DaysBeforeMonth(y, 4) + 91;
    assert DaysBeforeMonth(y, 10) == DaysBeforeMonth(y, 7) + 92;
  }

  /** Day numbers count days. */
  lemma DayNumberNext(d: Date)
    requires IsDate(d)
    ensures IsDate(NextDay(d)) && DayNumber(NextDay(d)) == DayNumber(d) + 1
  {
    if d.month == 12 && d.day == 31 {
      YearLength(d.year);
      MonthsOfYear(d.year);
    }
  }

  /* ---- The conversion ---- */

  /** Division of signed integers as the source does it, towards zero. */
  function TruncDiv(a: int, b: int): int
    requires b > 0
  {
    if a >= 0 then a / b else -((-a) / b)
  }

  function YearOfEra(doe: int): int {
    (doe - doe / 1460 + doe / 36524 - doe / 146096) / 365
  }

  function CivilFromUnixDays(days: int): Date {
    var z := days + 719_468;
    var era := TruncDiv(if z >= 0 then z else z - 146_096, 146_097);
    CivilInEra(era, z - era * 146_097)
  }

  function CivilInEra(era: int, doe: int): Date {
    var yoe := YearOfEra(doe);
    var y := yoe + era * 400;
    var doy := doe - (365 * yoe + yoe / 4 - yoe / 100);
    var mp := (5 * doy + 2) / 153;
    var d := doy - (153 * mp + 2) / 5 + 1;
    var m := if mp < 10 then mp + 3 else mp - 9;
    Date(y + if m <= 2 then 1 else 0, m, d)
  }

  /** Days from the first of March of year 0 of an era to the first of March of its year `yoe`. */
  function YearStart(yoe: int): int {
    365 * yoe + yoe / 4 - yoe / 100 + yoe / 400
  }

  /** The date on day `doy` of the year that starts on the first of March of year `y`. */
  function FromYearDay(y: int, doy: int): Date {
    var mp := (5 * doy + 2) / 153;
    var m := if mp < 10 then mp + 3 else mp - 9;
    Date(y + if m <= 2 then 1 else 0, m, doy - (153 * mp + 2) / 5 + 1)
  }

  /** Centuries, four-year cycles and the days left over. */
  predicate Parts(doe: int, c: int, q: int, t: int) {
    && 0 <= c <= 3 && 0 <= q <= 24 && 0 <= t <= 1460 && (q == 24 && c < 3 ==> t <= 1459)
    && doe == 36524 * c + 1461 * q + t
  }

  lemma Decompose(doe: int) returns (c: int, q: int, t: int)
    requires 0 <= doe < 146_097
    ensures Parts(doe, c, q, t)
  {
    c := if doe == 146_096 then 3 else doe / 36524;
    var r := doe - 36524 * c;
    q, t := r / 1461, r % 1461;
  }

  function YearInCycle(t: int): int {
    if t >= 1095 then 3 else t / 365
  }

  /** The corrections of the formula: one day too many for every 1460, one too few per century. */
  lemma Corrections(doe: int, c: int, q: int, t: int)
    requires Parts(doe, c, q, t)
    ensures doe / 36524 - doe / 146096 == c
    ensures doe / 1460 == 25 * c + q + (24 * c + q + t) / 1460
    ensures 0 <= (24 * c + q + t) / 1460 <= 1
  {
  }

  lemma YearOfEraParts(doe: int, c: int, q: int, t: int)
    requires Parts(doe, c, q, t)
    ensures YearOfEra(doe) == 100 * c + 4 * q + YearInCycle(t)
  {
    Corrections(doe, c, q, t);
    var e := (24 * c + q + t) / 1460;
    assert doe - doe / 1460 + doe / 36524 - doe / 146096 == 365 * (100 * c + 4 * q) + (t - e);
  }

  lemma YearOfParts(doe: int, c: int, q: int, t: int)
    requires Parts(doe, c, q, t)
    ensures IsYearOf(100 * c + 4 * q + YearInCycle(t), doe)
  {
    YearStartParts(c, q, YearInCycle(t));
  }

  lemma YearOfEraCorrect(doe: int)
    requires 0 <= doe < 146_097
    ensures IsYearOf(YearOfEra(doe), doe)
  {
    var c, q, t := Decompose(doe);
    YearOfEraParts(doe, c, q, t);
    YearOfParts(doe, c, q, t);
  }

  lemma YearStartParts(c: int, q: int, a: int)
    requires 0 <= c <= 3 && 0 <= q <= 24 && 0 <= a <= 3
    ensures YearStart(100 * c + 4 * q + a) == 36524 * c + 1461 * q + 365 * a
    ensures YearStart(100 * c + 4 * q + a + 1) == 36524 * c + 1461 * q + 365 * (a + 1)
      + (if a == 3 && (q < 24 || c == 3) then 1 else 0)
  {
    var y := 100 * c + 4 * q + a;
    assert y / 4 == 25 * c + q && y / 100 == c && y / 400 == 0;
    assert (y + 1) / 4 == 25 * c + q + if a == 3 then 1 else 0;
    assert (y + 1) / 100 == c + if a == 3 && q == 24 then 1 else 0;
    assert (y + 1) / 400 == if a == 3 && q == 24 && c == 3 then 1 else 0;
  }

  lemma {:induction false} YearStartMonotone(a: int, b: int)
    requires 0 <= a < b
    ensures YearStart(a) + 365 <= YearStart(b)
    decreases b - a
  {
    if a + 1 < b {
      YearStartMonotone(a + 1, b);
    }
    LeapsBetween(a + 1);
  }

  lemma EraIsFloor(z: int, era: int, doe: int)
    requires z == era * 146_097 + doe && 0 <= doe < 146_097
    ensures TruncDiv(if z >= 0 then z else z - 146_096, 146_097) == era
  {
  }

  predicate IsYearOf(yoe: int, doe: int) {
    0 <= yoe <= 399 && YearStart(yoe) <= doe < YearStart(yoe + 1)
  }

  lemma YearUnique(a: int, b: int, doe: int)
    requires IsYearOf(a, doe) && IsYearOf(b, doe)
    ensures a == b
  {
    if a < b {
      YearLater(a, b);
    } else if b < a {
      YearLater(b, a);
    }
  }

  lemma YearLater(a: int, b: int)
    requires 0 <= a < b
    ensures YearStart(a + 1) <= YearStart(b)
  {
    if a + 1 < b {
      YearStartMonotone(a + 1, b);
    }
  }

  lemma YearStartInEra(yoe: int)
    requires 0 <= yoe <= 399
    ensures YearStart(yoe) == 365 * yoe + yoe / 4 - yoe / 100
  {
  }

  lemma EraParts(era: int, yoe: int, doe: int)
    requires 0 <= doe < 146_097 && IsYearOf(yoe, doe)
    ensures CivilInEra(era, doe) == FromYearDay(yoe + era * 400, doe - YearStart(yoe))
  {
    YearOfEraCorrect(doe);
    YearUnique(yoe, YearOfEra(doe), doe);
    YearStartInEra(yoe);
  }

  lemma EraOfDay(days: int, era: int, doe: int)
    requires days + 719_468 == era * 146_097 + doe && 0 <= doe < 146_097
    ensures CivilFromUnixDays(days) == CivilInEra(era, doe)
  {
    EraIsFloor(days + 719_468, era, doe);
  }

  /** Day `days` is day `doe` of an era, in its year `yoe`. */
  predicate Located(days: int, era: int, yoe: int, doe: int) {
    days + 719_468 == era * 146_097 + doe && 0 <= doe < 146_097 && IsYearOf(yoe, doe)
  }

  /** Era, year of era and day of era determine the date, for any sign. */
  lemma CivilParts(days: int, era: int, yoe: int, doe: int)
    requires Located(days, era, yoe, doe)
    ensures CivilFromUnixDays(days) == FromYearDay(yoe + era * 400, doe - YearStart(yoe))
  {
    EraOfDay(days, era, doe);
    EraParts(era, yoe, doe);
  }

  /* ---- One day later ---- */

  /** The last day, counted from 0, of the year that starts on the first of March of year `y`. */
  function LastDay(y: int): int {
    if Leap(y + 1) then 365 else 364
  }

  lemma FirstOfMarch(y: int)
    ensures FromYearDay(y, 0) == Date(y, 3, 1)
  {
  }

  /** Days from the first of March to the first day of the `mp`-th month after it. */
  function MonthStart(mp: int): int {
    (153 * mp + 2) / 5
  }

  lemma MonthOf(doy: int)
    requires 0 <= doy <= 365
    ensures var mp := (5 * doy + 2) / 153; 0 <= mp <= 11 && MonthStart(mp) <= doy < MonthStart(mp + 1)
  {
  }

  lemma MonthLengths(mp: int, y: int)
    requires 0 <= mp <= 10
    ensures MonthStart(mp + 1) - MonthStart(mp) == DaysInMonth(y, if mp < 10 then mp + 3 else mp - 9)
  {
    assert mp == 0 || mp == 1 || mp == 2 || mp == 3 || mp == 4 || mp == 5 || mp == 6 || mp == 7 || mp == 8 || mp == 9 || mp == 10;
  }

  lemma SameOrNextMonth(doy: int)
    requires 0 <= doy < 365
    ensures var mp := (5 * doy + 2) / 153;
      (5 * (doy + 1) + 2) / 153 == if doy + 1 < MonthStart(mp + 1) then mp else mp + 1
    ensures doy + 1 <= MonthStart((5 * doy + 2) / 153 + 1)
  {
  }

  lemma DayInYear(y: int, doy: int)
    requires 0 <= doy <= LastDay(y)
    ensures Follows(FromYearDay(y, doy),
                    if doy < LastDay(y) then FromYearDay(y, doy + 1) else FromYearDay(y + 1, 0))
  {
    var mp := (5 * doy + 2) / 153;
    MonthOf(doy);
    assert MonthStart(11) == 337;
    if mp <= 10 {
      MonthLengths(mp, y + if mp < 10 then 0 else 1);
      SameOrNextMonth(doy);
    } else if doy < LastDay(y) {
      SameOrNextMonth(doy);
    } else {
      FirstOfMarch(y + 1);
    }
  }

  lemma Mod4Shift(n: int, k: int)
    ensures (n + 4 * k) % 4 == n % 4
  {
  }

  lemma Mod100Shift(n: int, k: int)
    ensures (n + 100 * k) % 100 == n % 100
  {
  }

  lemma Mod400Shift(n: int, k: int)
    ensures (n + 400 * k) % 400 == n % 400
  {
  }

  lemma LeapShift(n: int, era: int)
    ensures Leap(n + era * 400) == Leap(n)
  {
    Mod4Shift(n, 100 * era);
    Mod100Shift(n, 4 * era);
    Mod400Shift(n, era);
  }

  lemma YearLengthOfEra(yoe: int, era: int)
    requires 0 <= yoe <= 399
    ensures YearStart(yoe + 1) - YearStart(yoe) == LastDay(yoe + era * 400) + 1
  {
    LeapShift(yoe + 1, era);
    LeapsBetween(yoe + 1);
  }

  /** `civil` names a day by its March-based year and day of year, as `from` does. */
  ghost predicate Places<T>(civil: int -> T, from: (int, int) -> T) {
    forall days, era, yoe, doe :: Located(days, era, yoe, doe) ==> civil(days) == from(yoe + era * 400, doe - YearStart(yoe))
  }

  predicate InYear(y: int, doy: int) {
    0 <= doy <= LastDay(y)
  }

  function YearOfNext(y: int, doy: int): int {
    if doy < LastDay(y) then y else y + 1
  }

  function DayOfNext(y: int, doy: int): int {
    if doy < LastDay(y) then doy + 1 else 0
  }

  ghost predicate StepsThroughYears<T>(from: (int, int) -> T, follows: (T, T) -> bool) {
    forall y, doy :: InYear(y, doy) ==> follows(from(y, doy), from(YearOfNext(y, doy), DayOfNext(y, doy)))
  }

  lemma NamedDaysFollow<T>(civil: int -> T, from: (int, int) -> T, follows: (T, T) -> bool, days: int)
    requires Places(civil, from) && StepsThroughYears(from, follows)
    ensures follows(civil(days), civil(days + 1))
  {
    var era, yoe, doe := Locate(days);
    var era', yoe', doe' := NextPlace(era, yoe, doe);
    LastDayOfYear(era, yoe, doe);
    assert Located(days, era, yoe, doe) && Located(days + 1, era', yoe', doe');
    assert InYear(yoe + era * 400, doe - YearStart(yoe));
  }

  lemma CivilPlaces()
    ensures Places(CivilFromUnixDays, FromYearDay)
  {
    var civil, from := CivilFromUnixDays, FromYearDay;
    forall days, era, yoe, doe | Located(days, era, yoe, doe)
      ensures civil(days) == from(yoe + era * 400, doe - YearStart(yoe))
    {
      CivilParts(days, era, yoe, doe);
    }
  }

  lemma YearDaysFollow()
    ensures StepsThroughYears(FromYearDay, Follows)
  {
    var from, follows := FromYearDay, Follows;
    forall y, doy | InYear(y, doy)
      ensures follows(from(y, doy), from(YearOfNext(y, doy), DayOfNext(y, doy)))
    {
      DayInYear(y, doy);
    }
  }

  /** Days map to dates one after the other, without a gap or an overlap, before and after 1970. */
  lemma ConsecutiveDays(days: int)
    ensures Follows(CivilFromUnixDays(days), CivilFromUnixDays(days + 1))
  {
    CivilPlaces();
    YearDaysFollow();
    NamedDaysFollow(CivilFromUnixDays, FromYearDay, Follows, days);
  }

  lemma Locate(days: int) returns (era: int, yoe: int, doe: int)
    ensures Located(days, era, yoe, doe)
  {
    var z := days + 719_468;
    era, doe := z / 146_097, z % 146_097;
    YearOfEraCorrect(doe);
    yoe := YearOfEra(doe);
  }

  lemma LastDayOfYear(era: int, yoe: int, doe: int)
    requires IsYearOf(yoe, doe)
    ensures 0 <= doe - YearStart(yoe) <= LastDay(yoe + era * 400)
    ensures doe - YearStart(yoe) == LastDay(yoe + era * 400) <==> doe + 1 == YearStart(yoe + 1)
  {
    YearLengthOfEra(yoe, era);
  }

  lemma NextPlace(era: int, yoe: int, doe: int) returns (era': int, yoe': int, doe': int)
    requires 0 <= doe < 146_097 && IsYearOf(yoe, doe)
    ensures era' * 146_097 + doe' == era * 146_097 + doe + 1 && 0 <= doe' < 146_097 && IsYearOf(yoe', doe')
    ensures doe + 1 == YearStart(yoe + 1) ==> yoe' + era' * 400 == yoe + era * 400 + 1 && doe' == YearStart(yoe')
    ensures doe + 1 < YearStart(yoe + 1) ==> yoe' == yoe && era' == era && doe' == doe + 1
  {
    if doe + 1 < YearStart(yoe + 1) {
      era', yoe', doe' := era, yoe, doe + 1;
      InsideEra(yoe, doe + 1);
    } else if yoe < 399 {
      era', yoe', doe' := era, yoe + 1, doe + 1;
      InsideEra(yoe + 1, doe + 1);
    } else {
      era', yoe', doe' := era + 1, 0, 0;
    }
  }

  lemma InsideEra(yoe: int, doe: int)
    requires 0 <= yoe <= 399 && YearStart(yoe) <= doe
    ensures doe < YearStart(yoe + 1) ==> doe < 146_097
    ensures doe == YearStart(yoe) ==> doe < YearStart(yoe + 1)
  {
    YearStartMonotone(yoe, yoe + 1);
    YearLater(yoe, 400);
    assert YearStart(400) == 146_097;
  }

  predicate Follows(a: Date, b: Date) {
    IsDate(a) && b == NextDay(a)
  }

  ghost predicate OneDayAtATime(name: int -> Date) {
    && name(0) == Date(1970, 1, 1)
    && (forall y, z :: z == y + 1 ==> Follows(name(y), name(z)))
  }

  /** Any way of naming days that starts at 1970-01-01 and moves one day at a time counts days. */
  lemma {:induction false} NamesCountDays(name: int -> Date, days: int)
    requires OneDayAtATime(name)
    ensures IsDate(name(days)) && DayNumber(name(days)) == days
    decreases if days >= 0 then days else -days
  {
    assert Follows(name(days), name(days + 1));
    if days > 0 {
      NamesCountDays(name, days - 1);
      assert Follows(name(days - 1), name(days));
      DayNumberNext(name(days - 1));
    } else if days < 0 {
      NamesCountDays(name, days + 1);
      DayNumberNext(name(days));
    }
  }

  lemma Epoch()
    ensures CivilFromUnixDays(0) == Date(1970, 1, 1)
  {
  }

  lemma CivilOneDayAtATime()
    ensures OneDayAtATime(CivilFromUnixDays)
  {
    var name := CivilFromUnixDays;
    Epoch();
    forall y, z | z == y + 1 ensures Follows(name(y), name(z)) {
      ConsecutiveDays(y);
    }
  }

  /** The conversion is the inverse of counting days from 1970-01-01, for every day of every year. */
  lemma CivilIsInverse(days: int)
    ensures IsDate(CivilFromUnixDays(days)) && DayNumber(CivilFromUnixDays(days)) == days
  {
    CivilOneDayAtATime();
    NamesCountDays(CivilFromUnixDays, days);
  }

  /* ---- Fixed-width arithmetic ---- */

  const U64_MAX: nat := 0xFFFF_FFFF_FFFF_FFFF

  predicate I64(x: int) {
    -0x8000_0000_0000_0000 <= x < 0x8000_0000_0000_0000
  }

  predicate U32(x: int) {
    0 <= x < 0x1_0000_0000
  }

  predicate I32(x: int) {
    -0x8000_0000 <= x < 0x8000_0000
  }

  /** The conversion with every intermediate value checked against its type in the source. */
  function CivilChecked(days: int): Option<Date> {
    var z := days + 719_468;
    var num := if z >= 0 then z else z - 146_096;
    var era := TruncDiv(num, 146_097);
    var doe := z - era * 146_097;
    if I64(z) && I64(num) && I64(era * 146_097) && U32(doe) && I32(era) then CheckedInEra(era, doe) else None
  }

  function CheckedInEra(era: int, doe: int): Option<Date> {
    var a := doe - doe / 1_460;
    var yoe := (a + doe / 36_524 - doe / 146_096) / 365;
    var leaps := 365 * yoe + yoe / 4;
    if && U32(a) && U32(a + doe / 36_524) && U32(a + doe / 36_524 - doe / 146_096)
       && I32(yoe) && I32(era * 400) && I32(yoe + era * 400)
       && U32(365 * yoe) && U32(leaps) && U32(leaps - yoe / 100) && U32(doe - (leaps - yoe / 100))
    then CheckedInYear(yoe + era * 400, doe - (leaps - yoe / 100)) else None
  }

  function CheckedInYear(y: int, doy: int): Option<Date> {
    var mp := (5 * doy + 2) / 153;
    var d := doy - (153 * mp + 2) / 5;
    var m := if mp < 10 then mp + 3 else mp - 9;
    var year := y + if m <= 2 then 1 else 0;
    if U32(5 * doy + 2) && U32(153 * mp + 2) && U32(d) && U32(d + 1) && U32(m) && I32(year) then Some(Date(year, m, d + 1)) else None
  }

  lemma CheckedYearDay(y: int, doy: int)
    requires 0 <= y < 0x7FFF_0000 && 0 <= doy <= 365
    ensures CheckedInYear(y, doy) == Some(FromYearDay(y, doy))
  {
    var mp := (5 * doy + 2) / 153;
    assert 0 <= mp <= 11;
  }

  lemma CheckedEraDay(era: int, yoe: int, doe: int)
    requires 0 <= era < 5_000_000 && 0 <= doe < 146_097 && IsYearOf(yoe, doe)
    ensures CheckedInEra(era, doe) == Some(FromYearDay(yoe + era * 400, doe - YearStart(yoe)))
  {
    YearOfEraCorrect(doe);
    YearUnique(yoe, YearOfEra(doe), doe);
    YearLengthOfEra(yoe, era);
    assert yoe / 400 == 0;
    CheckedYearDay(yoe + era * 400, doe - YearStart(yoe));
  }

  /** For the day of every `u64` millisecond timestamp no step over- or underflows its type. */
  lemma NoOverflow(ts: nat)
    requires ts <= U64_MAX
    ensures var days := ts / 1000 / 86_400; CivilChecked(days) == Some(CivilFromUnixDays(days))
  {
    var days := ts / 1000 / 86_400;
    DayRange(ts);
    CheckedDay(days);
  }

  lemma DayRange(ts: nat)
    requires ts <= U64_MAX
    ensures 0 <= ts / 1000 / 86_400 <= 213_503_982_335
  {
  }

  lemma CheckedDay(days: int)
    requires 0 <= days <= 213_503_982_335
    ensures CivilChecked(days) == Some(CivilFromUnixDays(days))
  {
    var era, yoe, doe := Locate(days);
    EraRange(days, era, yoe, doe);
    CheckedEra(days, era, doe);
    CheckedEraDay(era, yoe, doe);
    CivilParts(days, era, yoe, doe);
  }

  lemma EraRange(days: int, era: int, yoe: int, doe: int)
    requires 0 <= days <= 213_503_982_335 && Located(days, era, yoe, doe)
    ensures 0 <= era < 5_000_000
  {
  }

  lemma CheckedEra(days: int, era: int, doe: int)
    requires days + 719_468 == era * 146_097 + doe && 0 <= doe < 146_097 && 0 <= era < 5_000_000
    ensures CivilChecked(days) == CheckedInEra(era, doe)
  {
    EraIsFloor(days + 719_468, era, doe);
  }

  /** Years after 1970 are not negative. */
  lemma YearNotNegative(days: nat)
    ensures CivilFromUnixDays(days).year >= 0
  {
    var era, yoe, doe := Locate(days);
    CivilParts(days, era, yoe, doe);
    assert era >= 0;
  }

  datatype Utc = Utc(date: Date, hh: nat, mm: nat, ss: nat, millis: nat)

  function UnixMsToUtc(ts: nat): Utc {
    var secs := ts / 1000;
    var rem := secs % 86_400;
    Utc(CivilFromUnixDays(secs / 86_400), rem / 3_600, rem % 3_600 / 60, rem % 60, ts % 1000)
  }

  /** The printed fields are a valid time of a valid date, and determine the timestamp. */
  lemma UtcRoundTrip(ts: nat)
    ensures var u := UnixMsToUtc(ts);
      && IsDate(u.date) && u.hh < 24 && u.mm < 60 && u.ss < 60 && u.millis < 1000
      && (((DayNumber(u.date) * 24 + u.hh) * 60 + u.mm) * 60 + u.ss) * 1000 + u.millis == ts
  {
    CivilIsInverse(ts / 1000 / 86_400);
    TimeOfDay(ts);
  }

  lemma TimeOfDay(ts: nat)
    ensures var rem := ts / 1000 % 86_400;
      && rem / 3_600 < 24
      && (((ts / 1000 / 86_400 * 24 + rem / 3_600) * 60 + rem % 3_600 / 60) * 60 + rem % 60) * 1000 + ts % 1000 == ts
  {
    var rem := ts / 1000 % 86_400;
    SecondsOfDay(rem);
    assert ts / 1000 == ts / 1000 / 86_400 * 86_400 + rem;
  }

  lemma SecondsOfDay(rem: nat)
    requires rem < 86_400
    ensures rem / 3_600 < 24 && (rem / 3_600 * 60 + rem % 3_600 / 60) * 60 + rem % 60 == rem
  {
    assert rem % 60 == rem % 3_600 % 60;
  }
}
