/** The proleptic Gregorian calendar: `civil_from_days` against the calendar's
own rules, leap years, month lengths and the day after a given day. */
module Calendar {

  datatype Date = Date(year: int, month: int, day: int)

  // ---------------------------------------------------------------- The calendar

  predicate IsLeap(y: int) { y % 4 == 0 && (y % 100 != 0 || y % 400 == 0) }

  function DaysInMonth(y: int, m: int): int {
    if m == 2 then (if IsLeap(y) then 29 else 28)
    else if m == 4 || m == 6 || m == 9 || m == 11 then 30
    else 31
  }

  predicate ValidDate(x: Date) {
    1 <= x.month <= 12 && 1 <= x.day <= DaysInMonth(x.year, x.month)
  }

  function NextDay(x: Date): Date {
    if x.day < DaysInMonth(x.year, x.month) then Date(x.year, x.month, x.day + 1)
    else if x.month < 12 then Date(x.year, x.month + 1, 1)
    else Date(x.year + 1, 1, 1)
  }

  const UNIX_EPOCH := Date(1970, 1, 1)

  // ---------------------------------------------------------------- The algorithm

  const ERA_DAYS := 146_097
  const CIVIL_TO_UNIX := 719_468

  /** Division as the machine does it, toward zero. */
  function TruncDiv(a: int, b: int): int
    requires b > 0
  {
    if a >= 0 then a / b else -(-a / b)
  }

  function EraOf(z: int): int {
    if z >= 0 then TruncDiv(z, ERA_DAYS) else TruncDiv(z - 146_096, ERA_DAYS)
  }

  /** A day counted from the first of March: era of 400 years, year and day in it. */
  datatype MarchDay = MarchDay(era: int, yoe: int, doy: int)

  function YearOfEra(doe: int): int { (doe - doe / 1_460 + doe / 36_524 - doe / 146_096) / 365 }

  function YearStart(yoe: int): int { 365 * yoe + yoe / 4 - yoe / 100 }

  function MarchFromDays(days: int): MarchDay {
    var z := days + CIVIL_TO_UNIX;
    var era := EraOf(z);
    var doe := z - era * ERA_DAYS;
    var yoe := YearOfEra(doe);
    MarchDay(era, yoe, doe - YearStart(yoe))
  }

  function MonthPosition(doy: int): int { (5 * doy + 2) / 153 }

  function MonthStart(mp: int): int { (153 * mp + 2) / 5 }

  function CivilFromMarch(x: MarchDay): Date {
    var mp := MonthPosition(x.doy);
    var d := x.doy - MonthStart(mp) + 1;
    var m := if mp < 10 then mp + 3 else mp - 9;
    Date(x.yoe + x.era * 400 + (if m <= 2 then 1 else 0), m, d)
  }

  /** `civil_from_days`. */
  function CivilFromDays(days: int): Date { CivilFromMarch(MarchFromDays(days)) }

  // ---------------------------------------------------------------- Eras and years

  lemma EraIsFloor(z: int)
    ensures EraOf(z) == z / ERA_DAYS
  {
  }

  function YearLength(yoe: int): int { if IsLeap(yoe + 1) then 366 else 365 }

  predicate ValidMarch(x: MarchDay) { 0 <= x.yoe < 400 && 0 <= x.doy < YearLength(x.yoe) }

  /** A day of the era, by century, four-year cycle and year of the cycle. */
  predicate InCycles(c: int, q: int, k: int, d: int) {
    && 0 <= c <= 3 && 0 <= q <= 24 && 0 <= k <= 3 && 0 <= d <= 365
    && (d == 365 ==> k == 3 && (q < 24 || c == 3))
  }

  lemma LeapDaysPassed(c: int, q: int, k: int, d: int, doe: int)
    requires InCycles(c, q, k, d) && doe == 36_524 * c + 1_461 * q + 365 * k + d
    ensures doe / 1_460 == 25 * c + q + if 24 * c + q + 365 * k + d >= 1_460 then 1 else 0
  {
  }

  lemma CenturiesPassed(c: int, q: int, k: int, d: int, doe: int)
    requires InCycles(c, q, k, d) && doe == 36_524 * c + 1_461 * q + 365 * k + d
    ensures doe / 36_524 - doe / 146_096 == c
  {
  }

  lemma YearFormula(c: int, q: int, k: int, d: int)
    requires InCycles(c, q, k, d)
    ensures YearOfEra(36_524 * c + 1_461 * q + 365 * k + d) == 100 * c + 4 * q + k
  {
    var doe := 36_524 * c + 1_461 * q + 365 * k + d;
    LeapDaysPassed(c, q, k, d, doe);
    CenturiesPassed(c, q, k, d, doe);
  }

  lemma CyclesOfYear(yoe: int)
    requires 0 <= yoe < 400
    ensures var c, q, k := yoe / 100, yoe % 100 / 4, yoe % 4;
            && 0 <= c <= 3 && 0 <= q <= 24 && 0 <= k <= 3 && yoe == 100 * c + 4 * q + k
            && YearStart(yoe) == 36_524 * c + 1_461 * q + 365 * k
            && (IsLeap(yoe + 1) <==> k == 3 && (q < 24 || c == 3))
  {
  }

  /** The formula finds the year of every day of that year. */
  lemma YearFound(yoe: int, doy: int)
    requires 0 <= yoe < 400 && 0 <= doy < YearLength(yoe)
    ensures 0 <= YearStart(yoe) + doy < ERA_DAYS
    ensures YearOfEra(YearStart(yoe) + doy) == yoe
  {
    CyclesOfYear(yoe);
    YearFormula(yoe / 100, yoe % 100 / 4, yoe % 4, doy);
  }

  lemma CyclesOfDay(doe: int) returns (c: int, q: int, k: int, d: int)
    requires 0 <= doe < ERA_DAYS
    ensures InCycles(c, q, k, d) && doe == 36_524 * c + 1_461 * q + 365 * k + d
  {
    c := if doe / 36_524 < 3 then doe / 36_524 else 3;
    var r := doe - 36_524 * c;
    q := r / 1_461;
    var s := r - 1_461 * q;
    k := if s / 365 < 3 then s / 365 else 3;
    d := s - 365 * k;
  }

  lemma YearOfCycles(c: int, q: int, k: int)
    requires 0 <= c <= 3 && 0 <= q <= 24 && 0 <= k <= 3
    ensures var yoe := 100 * c + 4 * q + k;
            YearStart(yoe) == 36_524 * c + 1_461 * q + 365 * k
            && (IsLeap(yoe + 1) <==> k == 3 && (q < 24 || c == 3))
  {
    var yoe := 100 * c + 4 * q + k;
    assert yoe / 100 == c && yoe % 100 / 4 == q && yoe % 4 == k;
    CyclesOfYear(yoe);
  }

  /** Every day of the era lies in the year the formula gives. */
  lemma YearCovers(doe: int)
    requires 0 <= doe < ERA_DAYS
    ensures ValidMarch(MarchDay(0, YearOfEra(doe), doe - YearStart(YearOfEra(doe))))
  {
    var c, q, k, d := CyclesOfDay(doe);
    YearFormula(c, q, k, d);
    YearOfCycles(c, q, k);
  }

  /** Days and March days correspond, both ways. */
  function DaysFromMarch(x: MarchDay): int { x.era * ERA_DAYS + YearStart(x.yoe) + x.doy - CIVIL_TO_UNIX }

  lemma MarchIsValid(days: int)
    ensures ValidMarch(MarchFromDays(days)) && DaysFromMarch(MarchFromDays(days)) == days
  {
    var z := days + CIVIL_TO_UNIX;
    EraIsFloor(z);
    YearCovers(z - EraOf(z) * ERA_DAYS);
  }

  lemma MarchRoundTrip(x: MarchDay)
    requires ValidMarch(x)
    ensures MarchFromDays(DaysFromMarch(x)) == x
  {
    YearFound(x.yoe, x.doy);
    EraIsFloor(x.era * ERA_DAYS + YearStart(x.yoe) + x.doy);
  }

  function NextMarch(x: MarchDay): MarchDay {
    if x.doy + 1 < YearLength(x.yoe) then x.(doy := x.doy + 1)
    else if x.yoe < 399 then MarchDay(x.era, x.yoe + 1, 0)
    else MarchDay(x.era + 1, 0, 0)
  }

  lemma YearEnds(yoe: int)
    requires 0 <= yoe < 400
    ensures YearStart(yoe) + YearLength(yoe) == if yoe < 399 then YearStart(yoe + 1) else ERA_DAYS
  {
    CyclesOfYear(yoe);
    if yoe < 399 { CyclesOfYear(yoe + 1); }
  }

  lemma NextMarchIsNext(x: MarchDay)
    requires ValidMarch(x)
    ensures ValidMarch(NextMarch(x)) && DaysFromMarch(NextMarch(x)) == DaysFromMarch(x) + 1
  {
    YearEnds(x.yoe);
  }

  // ---------------------------------------------------------------- Months

  /** Lengths of the months from March on; February is bounded by the year's end. */
  function MarchMonthLength(mp: int): int {
    if mp == 1 || mp == 3 || mp == 6 || mp == 8 then 30 else 31
  }

  lemma MonthLengths(mp: int)
    requires 0 <= mp <= 11
    ensures mp < 11 ==> MonthStart(mp + 1) == MonthStart(mp) + MarchMonthLength(mp)
    ensures mp == 11 ==> MonthStart(mp) == 337
  {
  }

  lemma MonthFound(doy: int)
    requires 0 <= doy < 366
    ensures var mp := MonthPosition(doy);
            && 0 <= mp <= 11 && MonthStart(mp) <= doy
            && (mp < 11 ==> doy < MonthStart(mp + 1) == MonthStart(mp) + MarchMonthLength(mp))
            && (mp == 11 ==> MonthStart(mp) == 337)
  {
    var mp := MonthPosition(doy);
    assert 153 * mp <= 5 * doy + 2 < 153 * (mp + 1);
    MonthLengths(mp);
  }

  lemma LeapRepeats(y: int, era: int)
    ensures IsLeap(y + era * 400) <==> IsLeap(y)
  {
    assert (y + era * 400) % 4 == y % 4 by { ModFour(y, era * 100); }
    assert (y + era * 400) % 100 == y % 100 by { ModHundred(y, era * 4); }
  }

  lemma ModFour(y: int, j: int)
    ensures (y + 4 * j) % 4 == y % 4
  {
  }

  lemma ModHundred(y: int, j: int)
    ensures (y + 100 * j) % 100 == y % 100
  {
  }

  lemma MarchToCivilIsValid(x: MarchDay)
    requires ValidMarch(x)
    ensures ValidDate(CivilFromMarch(x))
  {
    MonthFound(x.doy);
    LeapRepeats(x.yoe + 1, x.era);
  }

  /** Within a month. */
  lemma SameMonth(x: MarchDay)
    requires ValidMarch(x) && x.doy + 1 < YearLength(x.yoe) && MonthPosition(x.doy + 1) == MonthPosition(x.doy)
    ensures CivilFromMarch(NextMarch(x)) == NextDay(CivilFromMarch(x))
  {
    MonthFound(x.doy);
    MonthFound(x.doy + 1);
    LeapRepeats(x.yoe + 1, x.era);
  }

  /** From the end of a month to the next, within the March year. */
  lemma NewMonth(x: MarchDay)
    requires ValidMarch(x) && x.doy + 1 < YearLength(x.yoe) && MonthPosition(x.doy + 1) != MonthPosition(x.doy)
    ensures CivilFromMarch(NextMarch(x)) == NextDay(CivilFromMarch(x))
  {
    MonthFound(x.doy);
    MonthFound(x.doy + 1);
    LeapRepeats(x.yoe + 1, x.era);
  }

  /** From the end of February to the first of March. */
  lemma NewYear(x: MarchDay)
    requires ValidMarch(x) && x.doy + 1 == YearLength(x.yoe)
    ensures CivilFromMarch(NextMarch(x)) == NextDay(CivilFromMarch(x))
  {
    MonthFound(x.doy);
    LeapRepeats(x.yoe + 1, x.era);
  }

  lemma MarchToCivilSteps(x: MarchDay)
    requires ValidMarch(x)
    ensures CivilFromMarch(NextMarch(x)) == NextDay(CivilFromMarch(x))
  {
    if x.doy + 1 == YearLength(x.yoe) { NewYear(x); }
    else if MonthPosition(x.doy + 1) == MonthPosition(x.doy) { SameMonth(x); }
    else { NewMonth(x); }
  }

  // ---------------------------------------------------------------- Main results

  /** Every day number gives a real date. */
  lemma CivilIsValid(days: int)
    ensures ValidDate(CivilFromDays(days))
  {
    MarchIsValid(days);
    MarchToCivilIsValid(MarchFromDays(days));
  }

  /** The next day number gives the next day of the calendar, over month ends,
  leap days and era boundaries alike. */
  lemma CivilSteps(days: int)
    ensures CivilFromDays(days + 1) == NextDay(CivilFromDays(days))
  {
    var x := MarchFromDays(days);
    MarchIsValid(days);
    NextMarchIsNext(x);
    MarchRoundTrip(NextMarch(x));
    MarchToCivilSteps(x);
  }

  /** The calendar walked day by day. */
  function Walk(from: Date, n: nat): Date {
    if n == 0 then from else NextDay(Walk(from, n - 1))
  }

  lemma EpochIsDayZero()
    ensures CivilFromDays(0) == UNIX_EPOCH
  {
    assert EraOf(719_468) == 4;
    assert YearOfEra(135_080) == 369 && YearStart(369) == 134_774;
    assert MarchFromDays(0) == MarchDay(4, 369, 306);
    assert MonthPosition(306) == 10 && MonthStart(10) == 306;
  }

  ghost predicate Follows(date: int -> Date, d: int) { date(d + 1) == NextDay(date(d)) }

  lemma {:induction false} FollowsMeansWalk(date: int -> Date, a: int, n: nat)
    requires forall d :: Follows(date, d)
    ensures date(a + n) == Walk(date(a), n)
    decreases n
  {
    if n > 0 {
      FollowsMeansWalk(date, a, n - 1);
      assert Follows(date, a + n - 1);
    }
  }

  /** The date of day `a + n` is reached from the date of day `a` by walking the
  calendar `n` days; with day zero, this fixes the function. */
  lemma CivilIsTheCalendar(a: int, n: nat)
    ensures CivilFromDays(a + n) == Walk(CivilFromDays(a), n)
  {
    forall d ensures Follows(CivilFromDays, d) { CivilSteps(d); }
    FollowsMeansWalk(CivilFromDays, a, n);
  }

  /** Days from civil, the inverse. */
  function MarchFromCivil(x: Date): MarchDay {
    var y := if x.month <= 2 then x.year - 1 else x.year;
    var mp := if x.month > 2 then x.month - 3 else x.month + 9;
    MarchDay(y / 400, y % 400, MonthStart(mp) + x.day - 1)
  }

  function DaysFromCivil(x: Date): int { DaysFromMarch(MarchFromCivil(x)) }

  lemma MarchFromCivilIsValid(x: Date)
    requires ValidDate(x)
    ensures ValidMarch(MarchFromCivil(x)) && CivilFromMarch(MarchFromCivil(x)) == x
  {
    var w := MarchFromCivil(x);
    LeapRepeats(w.yoe + 1, w.era);
    MonthFound(w.doy);
  }

  lemma MarchFromCivilInverts(x: MarchDay)
    requires ValidMarch(x)
    ensures MarchFromCivil(CivilFromMarch(x)) == x
  {
    MonthFound(x.doy);
  }

  /** Day numbers and valid dates correspond one to one. */
  lemma CivilRoundTrip(days: int, x: Date)
    ensures DaysFromCivil(CivilFromDays(days)) == days
    ensures ValidDate(x) ==> CivilFromDays(DaysFromCivil(x)) == x
  {
    MarchIsValid(days);
    MarchFromCivilInverts(MarchFromDays(days));
    if ValidDate(x) {
      MarchFromCivilIsValid(x);
      MarchRoundTrip(MarchFromCivil(x));
    }
  }

  /** Calendar order. */
  predicate Earlier(x: Date, y: Date) {
    x.year < y.year || (x.year == y.year && (x.month < y.month || (x.month == y.month && x.day < y.day)))
  }

  lemma {:induction false} WalkIsLater(x: Date, n: nat)
    requires n > 0
    ensures Earlier(x, Walk(x, n))
    decreases n
  {
    if n > 1 { WalkIsLater(x, n - 1); }
  }

  lemma FollowsMeansOrder(date: int -> Date, a: int, b: int)
    requires forall d :: Follows(date, d)
    ensures Earlier(date(a), date(b)) <==> a < b
    ensures date(a) == date(b) <==> a == b
  {
    if a < b {
      FollowsMeansWalk(date, a, b - a);
      WalkIsLater(date(a), b - a);
    } else if b < a {
      FollowsMeansWalk(date, b, a - b);
      WalkIsLater(date(b), a - b);
    }
  }

  /** Day numbers and dates sort alike. */
  lemma CivilOrder(a: int, b: int)
    ensures Earlier(CivilFromDays(a), CivilFromDays(b)) <==> a < b
    ensures CivilFromDays(a) == CivilFromDays(b) <==> a == b
  {
    forall d ensures Follows(CivilFromDays, d) { CivilSteps(d); }
    FollowsMeansOrder(CivilFromDays, a, b);
  }
}
