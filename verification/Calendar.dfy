/** The three Gregorian conversions of the controller, and the calendar they must agree on.

    The reference is the calendar itself, counted day by day: day 0 is 1970-01-01 and day n + 1 is
    the day after day n. The two loops and the closed form are each proved to compute it. */
module Calendar {

  datatype Date = Date(y: nat, m: nat, d: nat)

  const EPOCH := Date(1970, 1, 1)

  predicate IsLeap(y: nat) {
    (y % 4 == 0 && y % 100 != 0) || y % 400 == 0
  }

  function DaysInYear(y: nat): nat {
    if IsLeap(y) then 366 else 365
  }

  /** The month table both loops build for the year at hand. */
  function Months(leap: bool): (months: seq<nat>)
    ensures |months| == 12
  {
    [31, if leap then 29 else 28, 31, 30, 31, 30, 31, 31, 30, 31, 30, 31]
  }

  predicate ValidDate(t: Date) {
    1970 <= t.y && 1 <= t.m <= 12 && 1 <= t.d <= Months(IsLeap(t.y))[t.m - 1]
  }

  lemma DayOfMonthBound(t: Date)
    requires ValidDate(t)
    ensures t.m <= 12 && t.d <= 31
  {
  }

  // ---------------------------------------------------------------------------
  // The reference calendar
  // ---------------------------------------------------------------------------

  /** The day after t (RFC 3339, section 5.7 and Appendix C). */
  function NextDay(t: Date): (r: Date)
    requires ValidDate(t)
    ensures ValidDate(r)
  {
    if t.d < Months(IsLeap(t.y))[t.m - 1] then Date(t.y, t.m, t.d + 1)
    else if t.m < 12 then Date(t.y, t.m + 1, 1)
    else Date(t.y + 1, 1, 1)
  }

  /** The date that n steps of NextDay reach from the epoch. */
  function CivilDate(n: nat): (t: Date)
    ensures ValidDate(t)
  {
    if n == 0 then EPOCH else NextDay(CivilDate(n - 1))
  }

  predicate Before(a: Date, b: Date) {
    a.y < b.y || (a.y == b.y && (a.m < b.m || (a.m == b.m && a.d < b.d)))
  }

  // ---------------------------------------------------------------------------
  // Counting the days of a date: the sums the loops build up
  // ---------------------------------------------------------------------------

  function DaysBeforeYear(y: nat): nat {
    if y <= 1970 then 0 else DaysBeforeYear(y - 1) + DaysInYear(y - 1)
  }

  function DaysBeforeMonth(leap: bool, m: nat): nat
    requires m <= 12
  {
    if m == 0 then 0 else DaysBeforeMonth(leap, m - 1) + Months(leap)[m - 1]
  }

  function DayNumber(t: Date): nat
    requires ValidDate(t)
  {
    DaysBeforeYear(t.y) + DaysBeforeMonth(IsLeap(t.y), t.m - 1) + t.d - 1
  }

  lemma {:induction false} YearsAddUp(a: nat, b: nat)
    requires 1970 <= a < b
    ensures DaysBeforeYear(a) + DaysInYear(a) <= DaysBeforeYear(b)
    decreases b
  {
    if a < b - 1 {
      YearsAddUp(a, b - 1);
    }
  }

  lemma MonthTable(leap: bool)
    ensures DaysBeforeMonth(leap, 0) == 0
    ensures DaysBeforeMonth(leap, 1) == 31
    ensures var x := if leap then 1 else 0;
      && DaysBeforeMonth(leap, 2) == 59 + x && DaysBeforeMonth(leap, 3) == 90 + x
      && DaysBeforeMonth(leap, 4) == 120 + x && DaysBeforeMonth(leap, 5) == 151 + x
      && DaysBeforeMonth(leap, 6) == 181 + x && DaysBeforeMonth(leap, 7) == 212 + x
      && DaysBeforeMonth(leap, 8) == 243 + x && DaysBeforeMonth(leap, 9) == 273 + x
      && DaysBeforeMonth(leap, 10) == 304 + x && DaysBeforeMonth(leap, 11) == 334 + x
      && DaysBeforeMonth(leap, 12) == 365 + x
  {
    assert DaysBeforeMonth(leap, 1) == 31;
    assert DaysBeforeMonth(leap, 2) == 59 + if leap then 1 else 0;
    assert DaysBeforeMonth(leap, 4) == 120 + if leap then 1 else 0;
    assert DaysBeforeMonth(leap, 6) == 181 + if leap then 1 else 0;
    assert DaysBeforeMonth(leap, 8) == 243 + if leap then 1 else 0;
    assert DaysBeforeMonth(leap, 10) == 304 + if leap then 1 else 0;
  }

  lemma MonthsAddUp(leap: bool, a: nat, b: nat)
    requires a < b <= 12
    ensures DaysBeforeMonth(leap, a) + Months(leap)[a] <= DaysBeforeMonth(leap, b) <= DaysBeforeMonth(leap, 12)
    ensures DaysBeforeMonth(leap, 12) == if leap then 366 else 365
  {
    MonthTable(leap);
  }

  lemma DayWithinYear(t: Date)
    requires ValidDate(t)
    ensures DaysBeforeYear(t.y) <= DayNumber(t) < DaysBeforeYear(t.y) + DaysInYear(t.y)
  {
    MonthsAddUp(IsLeap(t.y), t.m - 1, t.m);
    MonthsAddUp(IsLeap(t.y), t.m - 1, 12);
  }

  /** Both directions of order preservation: a date is earlier exactly when its day number is smaller. */
  lemma DayNumberKeepsOrder(a: Date, b: Date)
    requires ValidDate(a) && ValidDate(b)
    ensures Before(a, b) <==> DayNumber(a) < DayNumber(b)
    ensures a == b <==> DayNumber(a) == DayNumber(b)
  {
    DayNumberStep(a, b);
    DayNumberStep(b, a);
  }

  lemma DayNumberStep(a: Date, b: Date)
    requires ValidDate(a) && ValidDate(b)
    ensures Before(a, b) ==> DayNumber(a) < DayNumber(b)
  {
    if a.y < b.y {
      YearsAddUp(a.y, b.y);
      DayWithinYear(a);
      DayWithinYear(b);
    } else if a.y == b.y && a.m < b.m {
      MonthsAddUp(IsLeap(a.y), a.m - 1, b.m - 1);
    }
  }

  /** The day number is what day-by-day counting gives: the two reference readings agree. */
  lemma {:induction false} CivilDateHasItsNumber(n: nat)
    ensures DayNumber(CivilDate(n)) == n
  {
    if n == 0 {
      assert DaysBeforeMonth(true, 0) == 0;
    } else {
      CivilDateHasItsNumber(n - 1);
      NextDayNumber(CivilDate(n - 1));
    }
  }

  lemma NextDayNumber(t: Date)
    requires ValidDate(t)
    ensures DayNumber(NextDay(t)) == DayNumber(t) + 1
  {
    MonthTable(IsLeap(t.y));
    MonthTable(IsLeap(t.y + 1));
  }

  /** A valid date is the civil date of its own number, and of no other. */
  lemma CivilDateIsUnique(t: Date, n: nat)
    requires ValidDate(t)
    ensures CivilDate(n) == t <==> DayNumber(t) == n
  {
    CivilDateHasItsNumber(n);
    DayNumberKeepsOrder(CivilDate(n), t);
  }

  lemma CivilDateKeepsOrder(m: nat, n: nat)
    ensures Before(CivilDate(m), CivilDate(n)) <==> m < n
  {
    CivilDateHasItsNumber(m);
    CivilDateHasItsNumber(n);
    DayNumberKeepsOrder(CivilDate(m), CivilDate(n));
  }

  // ---------------------------------------------------------------------------
  // state_store.rs: subtract whole years, then whole months
  // ---------------------------------------------------------------------------

  method DaysToYmd(days: nat) returns (y: nat, mo: nat, d: nat)
    ensures Date(y, mo, d) == CivilDate(days)
  {
    y := 1970;
    var remaining := days;
    while true
      invariant 1970 <= y && DaysBeforeYear(y) + remaining == days
      decreases remaining
    {
      var daysInYear := if IsLeap(y) then 366 else 365;
      if remaining < daysInYear {
        break;
      }
      remaining := remaining - daysInYear;
      y := y + 1;
    }
    var leap := IsLeap(y);
    var months := Months(leap);
    ghost var inYear := remaining;
    mo := 1;
    var i := 0;
    MonthTable(leap);
    while i < |months|
      invariant i < 12 && mo == i + 1
      invariant DaysBeforeMonth(leap, i) + remaining == inYear
    {
      if remaining < months[i] {
        break;
      }
      remaining := remaining - months[i];
      mo := mo + 1;
      i := i + 1;
    }
    d := remaining + 1;
    CivilDateIsUnique(Date(y, mo, d), days);
  }

  // ---------------------------------------------------------------------------
  // ha_ws.rs: add the years and months back up
  // ---------------------------------------------------------------------------

  /** The dates date_to_epoch_days accepts without an index out of range or an underflow. It takes more
      than the valid dates: a year before 1970 counts as 1970, month 13 as the whole year, any day. */
  predicate Summable(y: nat, m: nat, d: nat) {
    1 <= m <= 13 && (d == 0 ==> 1970 < y || 1 < m)
  }

  function SummedDays(y: nat, m: nat, d: nat): int
    requires 1 <= m <= 13
  {
    DaysBeforeYear(y) + DaysBeforeMonth(IsLeap(y), m - 1) + d - 1
  }

  lemma SummedDaysIsNatural(y: nat, m: nat, d: nat)
    requires Summable(y, m, d)
    ensures 0 <= SummedDays(y, m, d)
  {
    MonthTable(IsLeap(y));
    if 1970 < y {
      YearsAddUp(1970, y);
    }
  }

  method DateToEpochDays(y: nat, m: nat, d: nat) returns (days: nat)
    requires Summable(y, m, d)
    ensures days == SummedDays(y, m, d)
    ensures ValidDate(Date(y, m, d)) ==> CivilDate(days) == Date(y, m, d)
  {
    var total := 0;
    var yr := 1970;
    while yr < y
      invariant yr == 1970 || yr <= y
      invariant total == DaysBeforeYear(yr)
    {
      total := total + if (yr % 4 == 0 && yr % 100 != 0) || yr % 400 == 0 then 366 else 365;
      yr := yr + 1;
    }
    assert total == DaysBeforeYear(y);
    var leap := (y % 4 == 0 && y % 100 != 0) || y % 400 == 0;
    var months := Months(leap);
    var mi := 0;
    while mi < m - 1
      invariant 0 <= mi <= m - 1
      invariant total == DaysBeforeYear(y) + DaysBeforeMonth(leap, mi)
    {
      total := total + months[mi];
      mi := mi + 1;
    }
    SummedDaysIsNatural(y, m, d);
    days := total + d - 1;
    if ValidDate(Date(y, m, d)) {
      CivilDateIsUnique(Date(y, m, d), days);
    }
  }

  /** The two loops are mutual inverses between all day counts and all valid dates. */
  method RoundTrips(days: nat, t: Date) returns (n: nat, u: Date)
    requires ValidDate(t)
    ensures n == days && u == t
  {
    var y, m, d := DaysToYmd(days);
    n := DateToEpochDays(y, m, d);
    CivilDateIsUnique(Date(y, m, d), days);
    CivilDateIsUnique(Date(y, m, d), n);
    var k := DateToEpochDays(t.y, t.m, t.d);
    var y', m', d' := DaysToYmd(k);
    u := Date(y', m', d');
  }

  // ---------------------------------------------------------------------------
  // long_lived_token_store.rs: the closed form with 400-year eras
  // ---------------------------------------------------------------------------

  /** Year, month and day by the closed form. Its years start in March, so that a leap day is the last
      day of a year. The count of days is unsigned, so the era is never negative. */
  function ClosedForm(days: nat): (int, int, int) {
    var z := days + 719468;
    var era := z / 146097;
    var doe := z - era * 146097;
    var yoe := YearOfEra(doe);
    FromMarch(yoe + era * 400, doe - MarchYearStart(yoe))
  }

  /** Day doy of the year that starts on 1 March of year y, put back into January-based months. */
  function FromMarch(y: int, doy: int): (int, int, int) {
    var mp := (5 * doy + 2) / 153;
    var d := doy - (153 * mp + 2) / 5 + 1;
    var m := if mp < 10 then mp + 3 else mp - 9;
    (if m <= 2 then y + 1 else y, m, d)
  }

  function YearOfEra(doe: nat): int {
    (doe - doe / 1460 + doe / 36524 - doe / 146096) / 365
  }

  /** Days of an era before its March-based year y. */
  function MarchYearStart(y: int): int {
    365 * y + y / 4 - y / 100
  }

  /** The estimate of the year of an era is exact: no off-by-one in any of the 146097 days. The last day
      of the era, 29 February of its year 400, is the one day that belongs to year 399 all the same. */
  lemma YearOfEraIsExact(doe: nat)
    requires doe < 146097
    ensures var y := YearOfEra(doe);
      && 0 <= y < 400
      && MarchYearStart(y) <= doe <= MarchYearStart(y) + 365
      && (doe == MarchYearStart(y) + 365 ==> IsLeap(y + 1))
  {
    var c := doe / 36524;
    if c == 4 {
      assert doe == 146096;
    } else {
      var r := doe - 36524 * c;
      var q := r / 1461;
      YearFromCycles(c, q, r - 1461 * q, doe);
    }
  }

  /** Day s of four-year cycle q of century c: the corrections by 1460 and 36524 cancel exactly. */
  lemma YearFromCycles(c: nat, q: nat, s: nat, doe: nat)
    requires c <= 3 && s <= 1460 && 1461 * q + s < 36524 && doe == 36524 * c + 1461 * q + s
    ensures var j := if s < 1460 then s / 365 else 3;
      && YearOfEra(doe) == 100 * c + 4 * q + j
      && MarchYearStart(100 * c + 4 * q + j) == doe - s + 365 * j
      && 4 * q + j < 100
      && (s == 1460 ==> IsLeap(100 * c + 4 * q + 4))
  {
    var j := if s < 1460 then s / 365 else 3;
    DivisionsCancel(c, q, s, doe, j);
    Quotient(100 * c + 4 * q + j, 4, 25 * c + q);
    Quotient(100 * c + 4 * q + j, 100, c);
    if s == 1460 {
      assert q < 24;
      Quotient(100 * c + 4 * q + 4, 100, c);
      Quotient(100 * c + 4 * q + 4, 4, 25 * c + q + 1);
    }
  }

  lemma DivisionsCancel(c: nat, q: nat, s: nat, doe: nat, j: nat)
    requires c <= 3 && s <= 1460 && 1461 * q + s < 36524 && doe == 36524 * c + 1461 * q + s
    requires j == if s < 1460 then s / 365 else 3
    ensures YearOfEra(doe) == 100 * c + 4 * q + j
  {
    var b := if 24 * c + q + s >= 1460 then 1 else 0;
    Quotient(doe, 1460, 25 * c + q + b);
    Quotient(doe, 36524, c);
    Quotient(doe, 146096, 0);
    Quotient(365 * (100 * c + 4 * q) + s - b, 365, 100 * c + 4 * q + j);
  }

  lemma Quotient(a: int, b: int, q: int)
    requires 0 < b && b * q <= a < b * q + b
    ensures a / b == q
  {
    var p := a / b;
    assert p < q ==> b * (p + 1) <= b * q;
    assert q < p ==> b * (q + 1) <= b * p;
  }

  /** Leap years counted by division: the loops' sum of year lengths in closed form. */
  lemma {:induction false} DaysBeforeYearClosed(y: nat)
    requires 1970 <= y
    ensures DaysBeforeYear(y) == 365 * y + (y - 1) / 4 - (y - 1) / 100 + (y - 1) / 400 - 719527
    decreases y
  {
    if y > 1970 {
      DaysBeforeYearClosed(y - 1);
      LeapByDivision(y - 1);
    }
  }

  lemma MultiplesOfCenturies(y: nat)
    ensures y % 100 == 0 ==> y % 4 == 0
    ensures y % 400 == 0 ==> y % 100 == 0
  {
    if y % 100 == 0 {
      Quotient(y, 4, 25 * (y / 100));
    }
    if y % 400 == 0 {
      Quotient(y, 100, 4 * (y / 400));
    }
  }

  lemma LeapByDivision(y: nat)
    requires 1 <= y
    ensures DaysInYear(y) - 365 ==
            (y / 4 - (y - 1) / 4) - (y / 100 - (y - 1) / 100) + (y / 400 - (y - 1) / 400)
  {
    MultiplesOfCenturies(y);
    QuotientStep(y, 4);
    QuotientStep(y, 100);
    QuotientStep(y, 400);
  }

  lemma QuotientStep(y: nat, k: int)
    requires 1 <= y && 1 < k
    ensures y / k - (y - 1) / k == if y % k == 0 then 1 else 0
  {
    var q := y / k;
    assert y == k * q + y % k;
    if y % k == 0 {
      assert k * (q - 1) == k * q - k;
      Quotient(y - 1, k, q - 1);
    } else {
      Quotient(y - 1, k, q);
    }
  }

  /** The era formula and the subtraction loops give the same date for every day count. */
  lemma ClosedFormIsCivil(days: nat)
    ensures var t := CivilDate(days); ClosedForm(days) == (t.y, t.m, t.d)
  {
    var z := days + 719468;
    var era := z / 146097;
    var doe := z - era * 146097;
    assert 0 <= doe < 146097;
    YearOfEraIsExact(doe);
    var yoe := YearOfEra(doe);
    var doy := doe - MarchYearStart(yoe);
    EraYears(era, yoe);
    assert ClosedForm(days) == FromMarch(yoe + era * 400, doy);
    MarchDate(days, yoe + era * 400, doy);
  }

  lemma EraYears(era: nat, yoe: nat)
    requires yoe < 400
    ensures var y := yoe + era * 400;
      && 365 * y + y / 4 - y / 100 + y / 400 == 146097 * era + MarchYearStart(yoe)
      && IsLeap(y + 1) == IsLeap(yoe + 1)
  {
    var y := yoe + era * 400;
    Quotient(y, 4, yoe / 4 + 100 * era);
    Quotient(y, 100, yoe / 100 + 4 * era);
    Quotient(y, 400, era);
    Quotient(y + 1, 4, (yoe + 1) / 4 + 100 * era);
    Quotient(y + 1, 100, (yoe + 1) / 100 + 4 * era);
    Quotient(y + 1, 400, (yoe + 1) / 400 + era);
  }

  lemma MarchDate(days: nat, y: nat, doy: nat)
    requires days + 719468 == 365 * y + y / 4 - y / 100 + y / 400 + doy
    requires doy <= 365 && (doy == 365 ==> IsLeap(y + 1))
    ensures var t := CivilDate(days); FromMarch(y, doy) == (t.y, t.m, t.d)
  {
    NewYear(days, y, doy);
    if doy < 306 {
      MarchToDecember(days, y, doy);
    } else {
      JanuaryOrFebruary(days, y, doy);
    }
  }

  lemma MarchToDecember(days: nat, y: nat, doy: nat)
    requires 1970 <= y && DaysBeforeYear(y + 1) == days + 306 - doy && doy < 306
    ensures var t := CivilDate(days); FromMarch(y, doy) == (t.y, t.m, t.d)
  {
    var mp := (5 * doy + 2) / 153;
    MonthFromMarch(IsLeap(y), doy);
    assert DaysBeforeYear(y + 1) == DaysBeforeYear(y) + DaysInYear(y);
    CivilDateIsUnique(Date(y, mp + 3, doy - (153 * mp + 2) / 5 + 1), days);
  }

  lemma JanuaryOrFebruary(days: nat, y: nat, doy: nat)
    requires 1969 <= y && DaysBeforeYear(y + 1) == days + 306 - doy
    requires 306 <= doy <= 365 && (doy == 365 ==> IsLeap(y + 1))
    ensures var t := CivilDate(days); FromMarch(y, doy) == (t.y, t.m, t.d)
  {
    var mp, start := if doy < 337 then 10 else 11, if doy < 337 then 306 else 337;
    Quotient(5 * doy + 2, 153, mp);
    assert FromMarch(y, doy) == (y + 1, mp - 9, doy - start + 1);
    assert DaysBeforeMonth(IsLeap(y + 1), 0) == 0 && DaysBeforeMonth(IsLeap(y + 1), 1) == 31;
    CivilDateIsUnique(Date(y + 1, mp - 9, doy - start + 1), days);
  }

  /** 1 January of year y + 1 lies 306 days after 1 March of year y. */
  lemma NewYear(days: nat, y: nat, doy: nat)
    requires days + 719468 == 365 * y + y / 4 - y / 100 + y / 400 + doy
    requires doy <= 365
    ensures 1969 <= y && (doy < 306 ==> 1970 <= y)
    ensures DaysBeforeYear(y + 1) == days + 306 - doy
  {
    YearBound(y);
    DaysBeforeYearClosed(y + 1);
  }

  lemma YearBound(y: nat)
    ensures y <= 1968 ==> 365 * y + y / 4 - y / 100 + y / 400 <= 718797
    ensures y == 1969 ==> 365 * y + y / 4 - y / 100 + y / 400 == 719162
  {
    if y < 1968 {
      assert y / 4 <= 491 && 0 <= y / 100 && y / 400 <= 4;
    }
  }

  /** The 153/5 line passes through every month start counted from 1 March. */
  lemma MonthFromMarch(leap: bool, doy: nat)
    requires doy < 306
    ensures var mp := (5 * doy + 2) / 153;
      var start := (153 * mp + 2) / 5;
      && 0 <= mp < 10 && start <= doy < start + Months(leap)[mp + 2]
      && DaysBeforeMonth(leap, mp + 2) == start + if leap then 60 else 59
  {
    MonthTable(leap);
  }
}
