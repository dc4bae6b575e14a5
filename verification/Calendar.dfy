// Civil dates and day numbers: the two closed forms against the Gregorian rule of ISO 8601:2004, section 3.2.1.

module Calendar {
  import opened Arith
  import opened Base

  const I32_MAX := 0x7fff_ffff
  const I32_MIN := -0x8000_0000

  type int32 = x: int | I32_MIN <= x <= I32_MAX

  /** A civil date. */
  datatype Date = Date(y: int, m: int, d: int)

  /** `as i32` on a 64-bit year. */
  function WrapToI32(y: int): int32 {
    (y + 0x8000_0000) % 0x1_0000_0000 - 0x8000_0000
  }

  /** Division on `i64` truncates toward zero. */
  function Quotient(a: int, b: int): int
    requires b > 0
  {
    if a >= 0 then a / b else -((-a) / b)
  }

  // ----- The two closed forms -----

  /** The 400-year era of a day counted from 1 March of year 0, the day within it, and the year of the era. */
  function EraOf(z: int): int {
    Quotient(if z >= 0 then z else z - 146_096, 146_097)
  }

  function YearOfEra(doe: int): int {
    (doe - doe / 1460 + doe / 36524 - doe / 146_096) / 365
  }

  /** `civil_from_days` with its year before the cast. */
  function WideCivil(shifted: int): Date {
    var era := EraOf(shifted);
    var doe := shifted - era * 146_097;
    var yoe := YearOfEra(doe);
    var doy := doe - (365 * yoe + yoe / 4 - yoe / 100);
    var mp := (5 * doy + 2) / 153;
    var d := doy - (153 * mp + 2) / 5 + 1;
    var m := if mp < 10 then mp + 3 else mp - 9;
    var y := yoe + era * 400;
    Date(if m <= 2 then y + 1 else y, m, d)
  }

  /** `civil_from_days`; the shift of the epoch is overflow-checked, and then there is no date. */
  function CivilFromDays(z: int64): Option<Date> {
    if z + 719_468 > I64_MAX then None
    else
      var date := WideCivil(z + 719_468);
      Some(date.(y := WrapToI32(date.y)))
  }

  /** `days_from_civil`: months and days are checked one by one, not together. */
  function DaysFromCivil(y: int32, m: int, d: int): Option<int> {
    if !(1 <= m <= 12) || !(1 <= d <= 31) then None else Some(DayOf(y, m, d))
  }

  function DayOf(y: int, m: int, d: int): int {
    var y1 := if m <= 2 then y - 1 else y;
    var era := Quotient(if y1 >= 0 then y1 else y1 - 399, 400);
    var yoe := y1 - era * 400;
    var mp := if m > 2 then m - 3 else m + 9;
    var doy := (153 * mp + 2) / 5 + d - 1;
    var doe := yoe * 365 + yoe / 4 - yoe / 100 + doy;
    era * 146_097 + doe - 719_468
  }

  // ----- The Gregorian calendar -----

  predicate Leap(y: int) {
    y % 4 == 0 && (y % 100 != 0 || y % 400 == 0)
  }

  function YearLength(y: int): int {
    if Leap(y) then 366 else 365
  }

  function MonthLength(y: int, m: int): int
    requires 1 <= m <= 12
  {
    if m == 2 then (if Leap(y) then 29 else 28)
    else if m == 4 || m == 6 || m == 9 || m == 11 then 30
    else 31
  }

  predicate Valid(date: Date) {
    1 <= date.m <= 12 && 1 <= date.d <= MonthLength(date.y, date.m)
  }

  /** Days from 1 January 1970 to 1 January of year y, year by year. */
  function YearStart(y: int): int
    decreases if y < 1970 then 1970 - y else y - 1970
  {
    if y == 1970 then 0
    else if y > 1970 then YearStart(y - 1) + YearLength(y - 1)
    else YearStart(y + 1) - YearLength(y)
  }

  /** Days from 1 January to the first of month m, month by month. */
  function MonthStart(y: int, m: int): int
    requires 1 <= m <= 12
    decreases m
  {
    if m == 1 then 0 else MonthStart(y, m - 1) + MonthLength(y, m - 1)
  }

  /** The day number of a date: counting. */
  function Count(date: Date): int
    requires Valid(date)
  {
    YearStart(date.y) + MonthStart(date.y, date.m) + date.d - 1
  }

  // ----- The closed form is the count -----

  /** The leap days of the years up to y. */
  function LeapDays(y: int): int {
    y / 4 - y / 100 + y / 400
  }

  lemma LeapDaysStep(y: int)
    ensures LeapDays(y) == LeapDays(y - 1) + if Leap(y) then 1 else 0
  {
    QuotientStep(y, 4);
    QuotientStep(y, 100);
    QuotientStep(y, 400);
    MultiplesOf(y);
  }

  lemma MultiplesOf(y: int)
    ensures y % 400 == 0 ==> y % 100 == 0
    ensures y % 100 == 0 ==> y % 4 == 0
  {
  }

  lemma QuotientStep(y: int, n: int)
    requires n == 4 || n == 100 || n == 400
    ensures y / n == (y - 1) / n + if y % n == 0 then 1 else 0
  {
  }

  lemma {:induction false} YearStartClosed(y: int)
    ensures YearStart(y) == 365 * (y - 1970) + LeapDays(y - 1) - LeapDays(1969)
    decreases if y < 1970 then 1970 - y else y - 1970
  {
    hide LeapDays;
    if y > 1970 {
      YearStartClosed(y - 1);
      LeapDaysStep(y - 1);
    } else if y < 1970 {
      YearStartClosed(y + 1);
      LeapDaysStep(y);
    }
  }

  lemma MonthStarts(y: int, m: int)
    requires 1 <= m <= 12
    ensures m <= 2 ==> MonthStart(y, m) == 31 * (m - 1)
    ensures m > 2 ==> MonthStart(y, m) == (153 * (m - 3) + 2) / 5 + 59 + if Leap(y) then 1 else 0
  {
    hide Leap;
    if m > 1 {
      MonthStarts(y, m - 1);
    }
  }

  /** The truncating division of the shifted year is the floor. */
  lemma EraIsFloor(y: int)
    ensures Quotient(if y >= 0 then y else y - 399, 400) == y / 400
  {
  }

  lemma EraLeapDays(era: int, yoe: int)
    requires 0 <= yoe < 400
    ensures LeapDays(400 * era + yoe) == 97 * era + yoe / 4 - yoe / 100
  {
    Shifted(yoe, 100 * era, 4);
    Shifted(yoe, 4 * era, 100);
    Shifted(yoe, era, 400);
  }

  lemma Shifted(x: int, k: int, n: int)
    requires n == 4 || n == 100 || n == 400
    ensures (n * k + x) / n == k + x / n
  {
  }

  lemma EpochLeapDays()
    ensures LeapDays(1969) == 477
  {
  }

  /** `days_from_civil` counts: on every date of the Gregorian calendar, before and after year zero, it is the number of days
      since 1 January 1970. */
  lemma DaysFromCivilCounts(date: Date)
    requires Valid(date)
    ensures DayOf(date.y, date.m, date.d) == Count(date)
  {
    hide LeapDays, YearStart, MonthStart, DayOf, Leap;
    DayOfClosed(date.y, date.m, date.d);
    YearStartClosed(date.y);
    LeapDaysStep(date.y);
    MonthStarts(date.y, date.m);
    EpochLeapDays();
  }

  // ----- Years of an era -----

  /** A day of the era as centuries, four-year cycles, years and days, each counted from March. */
  datatype Place = Place(c: int, q: int, s: int, doy: int)

  predicate InEra(p: Place) {
    && 0 <= p.c <= 3 && 0 <= p.q <= 24 && 0 <= p.s <= 3 && 0 <= p.doy <= 365
    && (p.doy == 365 ==> p.s == 3 && (p.q != 24 || p.c == 3))
  }

  function Doe(p: Place): int {
    36524 * p.c + 1461 * p.q + 365 * p.s + p.doy
  }

  function Yoe(p: Place): int {
    100 * p.c + 4 * p.q + p.s
  }

  lemma {:induction false} YearParts(p: Place)
    requires InEra(p)
    ensures Yoe(p) / 4 == 25 * p.c + p.q && Yoe(p) / 100 == p.c && 0 <= Yoe(p) < 400
    ensures 0 <= Doe(p) < 146_097
    ensures Doe(p) == 365 * Yoe(p) + Yoe(p) / 4 - Yoe(p) / 100 + p.doy
    ensures Leap(Yoe(p) + 1) <==> p.s == 3 && (p.q != 24 || p.c == 3)
  {
  }

  lemma QuotientIs(x: int, d: int, q: int)
    requires d > 0 && q * d <= x < q * d + d
    ensures x / d == q
  {
    Distribute(q, 1, d);
    DivUnique(x, d, q);
  }

  /** The correction terms of the closed form remove exactly the leap days before the day. */
  lemma YearOfEraIs(p: Place)
    requires InEra(p)
    ensures YearOfEra(Doe(p)) == Yoe(p)
  {
    var doe := Doe(p);
    var spill := if p.q + 365 * p.s + p.doy + 24 * p.c >= 1460 then 1 else 0;
    QuotientIs(doe, 1460, 25 * p.c + p.q + spill);
    if doe == 146_096 {
      assert YearOfEra(doe) == 399;
    } else {
      QuotientIs(doe, 36524, p.c);
      QuotientIs(doe, 146_096, 0);
      QuotientIs(doe - (25 * p.c + p.q + spill) + p.c, 365, Yoe(p));
    }
  }

  function PlaceOf(doe: int): (p: Place)
    requires 0 <= doe < 146_097
    ensures InEra(p) && Doe(p) == doe
  {
    var c := if doe == 146_096 then 3 else doe / 36524;
    var r := doe - 36524 * c;
    var q := if r == 36524 then 24 else r / 1461;
    var t := r - 1461 * q;
    var s := if t == 1460 then 3 else t / 365;
    Place(c, q, s, t - 365 * s)
  }

  // ----- Months of a March year -----

  function MonthOf(doy: int): int {
    (5 * doy + 2) / 153
  }

  function MarchStart(mp: int): int {
    (153 * mp + 2) / 5
  }

  function CivilMonth(mp: int): int {
    if mp < 10 then mp + 3 else mp - 9
  }

  /** A day of the March year falls within its month; 29 February only where the year that follows is a leap year. */
  lemma MonthHolds(doy: int, y: int)
    requires 0 <= doy <= 365 && (doy == 365 ==> Leap(y + 1))
    ensures var mp := MonthOf(doy);
            var m := CivilMonth(mp);
            && 0 <= mp <= 11 && 1 <= m <= 12
            && 1 <= doy - MarchStart(mp) + 1 <= MonthLength(if m <= 2 then y + 1 else y, m)
  {
    hide Leap;
  }

  lemma MonthInverts(mp: int, d: int, y: int)
    requires 0 <= mp <= 11
    requires var m := CivilMonth(mp); 1 <= d <= MonthLength(if m <= 2 then y + 1 else y, m)
    ensures 0 <= MarchStart(mp) + d - 1 <= 365 && MonthOf(MarchStart(mp) + d - 1) == mp
    ensures MarchStart(mp) + d - 1 == 365 ==> Leap(y + 1)
  {
    hide Leap;
  }

  // ----- The two forms invert each other -----

  lemma EraOfIs(era: int, doe: int)
    requires 0 <= doe < 146_097
    ensures EraOf(era * 146_097 + doe) == era
  {
    var z := era * 146_097 + doe;
    if era < 0 {
      QuotientIs(146_096 - z, 146_097, -era);
    } else {
      QuotientIs(z, 146_097, era);
    }
  }

  lemma EraExists(z: int)
    ensures EraOf(z) == z / 146_097 && 0 <= z - EraOf(z) * 146_097 < 146_097
  {
    EraOfIs(z / 146_097, z % 146_097);
  }

  lemma LeapShift(era: int, x: int)
    ensures Leap(400 * era + x) <==> Leap(x)
  {
    SameRemainder(x, 100 * era, 4);
    SameRemainder(x, 4 * era, 100);
    SameRemainder(x, era, 400);
  }

  lemma SameRemainder(x: int, k: int, n: int)
    requires n == 4 || n == 100 || n == 400
    ensures (n * k + x) % n == x % n
  {
    Shifted(x, k, n);
  }

  /** A March year, a day in it, and the civil date they make. */
  function CivilDate(y: int, doy: int): Date {
    var m := CivilMonth(MonthOf(doy));
    Date(if m <= 2 then y + 1 else y, m, doy - MarchStart(MonthOf(doy)) + 1)
  }

  lemma WideCivilParts(era: int, doe: int, doy: int)
    requires EraOf(era * 146_097 + doe) == era
    requires doy == doe - (365 * YearOfEra(doe) + YearOfEra(doe) / 4 - YearOfEra(doe) / 100)
    ensures WideCivil(era * 146_097 + doe) == CivilDate(400 * era + YearOfEra(doe), doy)
  {
    hide EraOf, YearOfEra;
  }

  lemma CivilDateValid(y: int, doy: int)
    requires 0 <= doy <= 365 && (doy == 365 ==> Leap(y + 1))
    ensures Valid(CivilDate(y, doy))
  {
    hide Leap, MonthOf, MarchStart;
    MonthHolds(doy, y);
  }

  lemma WideCivilIs(era: int, p: Place)
    requires InEra(p)
    ensures WideCivil(era * 146_097 + Doe(p)) == CivilDate(400 * era + Yoe(p), p.doy)
    ensures Valid(CivilDate(400 * era + Yoe(p), p.doy))
  {
    hide WideCivil, CivilDate, YearOfEra, Leap, Doe, Yoe;
    YearParts(p);
    EraOfIs(era, Doe(p));
    YearOfEraIs(p);
    WideCivilParts(era, Doe(p), p.doy);
    LeapShift(era, Yoe(p) + 1);
    CivilDateValid(400 * era + Yoe(p), p.doy);
  }

  lemma DayOfCivil(y: int, doy: int)
    requires 0 <= doy <= 365
    ensures var date := CivilDate(y, doy);
            DayOf(date.y, date.m, date.d)
            == y / 400 * 146_097 + (y % 400 * 365 + y % 400 / 4 - y % 400 / 100 + doy) - 719_468
  {
    hide Quotient;
    EraIsFloor(y);
    assert y - y / 400 * 400 == y % 400;
  }

  lemma DayOfIs(era: int, p: Place)
    requires InEra(p)
    ensures var date := CivilDate(400 * era + Yoe(p), p.doy);
            DayOf(date.y, date.m, date.d) == era * 146_097 + Doe(p) - 719_468
  {
    hide CivilDate, DayOf, Doe, Yoe;
    YearParts(p);
    Shifted(Yoe(p), era, 400);
    SameRemainder(Yoe(p), era, 400);
    QuotientIs(Yoe(p), 400, 0);
    DayOfCivil(400 * era + Yoe(p), p.doy);
  }

  /** Every day number is some date's, and that date leads back to it. */
  lemma DayOfWideCivil(z: int)
    ensures var date := WideCivil(z + 719_468); Valid(date) && DayOf(date.y, date.m, date.d) == z
  {
    hide EraOf, WideCivil, DayOf, Doe, Valid;
    var x := z + 719_468;
    EraExists(x);
    var p := PlaceOf(x - EraOf(x) * 146_097);
    WideCivilIs(EraOf(x), p);
    DayOfIs(EraOf(x), p);
  }

  lemma YearPlace(yoe: int, doy: int) returns (p: Place)
    requires 0 <= yoe < 400 && 0 <= doy <= 365 && (doy == 365 ==> Leap(yoe + 1))
    ensures InEra(p) && Yoe(p) == yoe && p.doy == doy
  {
    hide Leap;
    var r := yoe % 100;
    p := Place(yoe / 100, r / 4, r % 4, 0);
    YearParts(p);
    p := p.(doy := doy);
  }

  /** Every date leads to a day number that leads back to it. */
  lemma WideCivilOfDay(date: Date)
    requires Valid(date)
    ensures WideCivil(DayOf(date.y, date.m, date.d) + 719_468) == date
  {
    hide EraOf, WideCivil, DayOf, Doe, Leap, Yoe;
    var y := if date.m <= 2 then date.y - 1 else date.y;
    var mp := if date.m > 2 then date.m - 3 else date.m + 9;
    MonthInverts(mp, date.d, y);
    var doy := MarchStart(mp) + date.d - 1;
    LeapShift(y / 400, y % 400 + 1);
    var p := YearPlace(y % 400, doy);
    WideCivilIs(y / 400, p);
    DayOfIs(y / 400, p);
  }

  // ----- Within the machine's years -----

  const FIRST_DAY := DayOf(I32_MIN, 1, 1)
  const LAST_DAY := DayOf(I32_MAX, 12, 31)

  lemma DayOfClosed(y: int, m: int, d: int)
    requires 1 <= m <= 12
    ensures var y1 := if m <= 2 then y - 1 else y;
            DayOf(y, m, d) == 365 * y1 + LeapDays(y1) + MarchStart(if m > 2 then m - 3 else m + 9) + d - 719_469
  {
    hide LeapDays, Quotient;
    var y1 := if m <= 2 then y - 1 else y;
    EraIsFloor(y1);
    EraLeapDays(y1 / 400, y1 % 400);
  }

  lemma {:induction false} LeapDaysMonotone(a: int, b: int)
    requires a <= b
    ensures LeapDays(a) <= LeapDays(b)
    decreases b - a
  {
    hide LeapDays, Leap;
    if a == b {
    } else {
      LeapDaysMonotone(a, b - 1);
      LeapDaysStep(b);
    }
  }

  /** Years do not overlap, whatever the day of the month says. */
  lemma YearsAreApart(y: int, m: int, d: int, bound: int)
    requires 1 <= m <= 12 && 1 <= d <= 31
    ensures y <= bound ==> DayOf(y, m, d) <= DayOf(bound, 12, 31)
    ensures y >= bound ==> DayOf(y, m, d) >= DayOf(bound, 1, 1)
    ensures DayOf(bound + 1, 1, 1) == DayOf(bound, 12, 31) + 1
  {
    hide LeapDays, DayOf;
    DayOfClosed(y, m, d);
    DayOfClosed(bound, 12, 31);
    DayOfClosed(bound, 1, 1);
    DayOfClosed(bound + 1, 1, 1);
    var y1 := if m <= 2 then y - 1 else y;
    if y <= bound {
      LeapDaysMonotone(y1, bound);
    }
    if y >= bound {
      LeapDaysMonotone(bound - 1, y1);
    }
  }

  lemma MachineDays()
    ensures -0x100_0000_0000 < FIRST_DAY < LAST_DAY < 0x100_0000_0000
  {
  }

  /** Exactly the days whose year fits 32 bits survive the trip through a civil date. */
  lemma CivilRoundTrip(z: int64)
    ensures var date := CivilFromDays(z);
            date.Some? && DaysFromCivil(date.value.y, date.value.m, date.value.d) == Some(z) <==> FIRST_DAY <= z <= LAST_DAY
  {
    hide WideCivil, DayOf, Valid;
    MachineDays();
    var wide := WideCivil(z + 719_468);
    DayOfWideCivil(z);
    ValidMeans(wide);
    if FIRST_DAY <= z <= LAST_DAY {
      YearsAreApart(wide.y, wide.m, wide.d, I32_MAX + 1);
      YearsAreApart(wide.y, wide.m, wide.d, I32_MIN - 1);
      YearsAreApart(I32_MAX, 12, 31, I32_MAX);
      YearsAreApart(I32_MIN - 1, 12, 31, I32_MIN - 1);
    } else {
      YearsAreApart(WrapToI32(wide.y), wide.m, wide.d, I32_MAX);
      YearsAreApart(WrapToI32(wide.y), wide.m, wide.d, I32_MIN);
    }
  }

  /** Beyond, the year wraps around 32 bits, month and day stay, and only where the shift of the epoch overflows is there no date. */
  lemma YearsWrap(z: int64)
    ensures CivilFromDays(z).None? <==> z > 0x7fff_ffff_ffff_ffff - 719_468
    ensures CivilFromDays(z).Some? ==>
              var date, wide := CivilFromDays(z).value, WideCivil(z + 719_468);
              && date.m == wide.m && date.d == wide.d && -0x8000_0000 <= date.y < 0x8000_0000
              && (wide.y - date.y) % 0x1_0000_0000 == 0
  {
    hide WideCivil;
  }

  lemma ValidMeans(date: Date)
    requires Valid(date)
    ensures 1 <= date.m <= 12 && 1 <= date.d <= 31
  {
  }

  /** Every Gregorian date with a 32-bit year survives the trip through its day number, and that number is the count of days
      since 1 January 1970. */
  lemma DateRoundTrip(date: Date)
    requires Valid(date) && I32_MIN <= date.y <= I32_MAX
    ensures DaysFromCivil(date.y, date.m, date.d) == Some(Count(date))
    ensures -I64_MAX - 1 <= Count(date) <= I64_MAX && CivilFromDays(Count(date)) == Some(date)
  {
    hide WideCivil, DayOf, Count;
    MachineDays();
    ValidMeans(date);
    DaysFromCivilCounts(date);
    YearsAreApart(date.y, date.m, date.d, I32_MAX);
    YearsAreApart(date.y, date.m, date.d, I32_MIN);
    WideCivilOfDay(date);
  }

  /** `unix_to_utc_day`, up to its text: the day of a second, rounded down before the epoch too. */
  function UtcDate(secs: int64): Option<Date> {
    CivilFromDays(secs / 86_400)
  }

  /** Every second of a day has that day's date. */
  lemma SecondsOfDay(date: Date, t: int)
    requires Valid(date) && I32_MIN <= date.y <= I32_MAX && 0 <= t < 86_400
    requires -I64_MAX - 1 <= Count(date) * 86_400 + t <= I64_MAX
    ensures UtcDate(Count(date) * 86_400 + t) == Some(date)
  {
    hide Count, CivilFromDays;
    DateRoundTrip(date);
    QuotientIs(Count(date) * 86_400 + t, 86_400, Count(date));
  }

  /** The parts are checked separately, so a day that its month does not have is accepted and counted on into the next. */
  lemma DaysOverrun(y: int32, m: int, d: int)
    requires 1 <= m <= 12 && 1 <= d <= 31
    ensures DaysFromCivil(y, m, d) == Some(Count(Date(y, m, 1)) + d - 1)
  {
    DaysFromCivilCounts(Date(y, m, 1));
  }
}
