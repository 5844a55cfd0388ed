/** The calendar of `rfc3339_utc` (dispatch.rs): the Gregorian date of a day
    number, checked against the calendar's own rules.

    Dafny's `/` and `%` round down for the positive divisors used here. The source
    divides signed 64-bit values with `div_euclid`, which agrees, and with `/`,
    which cuts toward zero and is written `Cut` below. */
module Calendar {
  import opened Common

  datatype Date = Date(year: int, month: int, day: int)

  // --------------------------------------------------------- the calendar's rules

  predicate Leap(y: int) {
    y % 4 == 0 && (y % 100 != 0 || y % 400 == 0)
  }

  function DaysIn(y: int, m: int): int {
    if m == 2 then (if Leap(y) then 29 else 28)
    else if m == 4 || m == 6 || m == 9 || m == 11 then 30
    else 31
  }

  predicate Valid(d: Date) {
    1 <= d.month <= 12 && 1 <= d.day <= DaysIn(d.year, d.month)
  }

  function NextDay(d: Date): Date {
    if d.day < DaysIn(d.year, d.month) then d.(day := d.day + 1)
    else if d.month < 12 then Date(d.year, d.month + 1, 1)
    else Date(d.year + 1, 1, 1)
  }

  /** Days from the first day of year 0 to the first day of year `y`. */
  function DaysBeforeYear(y: int): int {
    365 * y + (y + 3) / 4 - (y + 99) / 100 + (y + 399) / 400
  }

  function DaysBeforeMonth(y: int, m: int): int
    decreases m
  {
    if m <= 1 then 0 else DaysBeforeMonth(y, m - 1) + DaysIn(y, m - 1)
  }

  /** Days since 1970-01-01, from a date: the reference. */
  function DayNumber(d: Date): int {
    DaysBeforeYear(d.year) + DaysBeforeMonth(d.year, d.month) + d.day - 1 - 719_528
  }

  lemma QuarterStep(y: int)
    ensures (y + 4) / 4 == (y + 3) / 4 + (if y % 4 == 0 then 1 else 0)
  {
  }

  lemma CenturyStep(y: int)
    ensures (y + 100) / 100 == (y + 99) / 100 + (if y % 100 == 0 then 1 else 0)
    ensures y % 100 == 0 ==> y % 4 == 0
  {
  }

  lemma EraStep(y: int)
    ensures (y + 400) / 400 == (y + 399) / 400 + (if y % 400 == 0 then 1 else 0)
    ensures y % 400 == 0 ==> y % 100 == 0
  {
  }

  lemma YearLength(y: int)
    ensures DaysBeforeYear(y + 1) == DaysBeforeYear(y) + (if Leap(y) then 366 else 365)
  {
    QuarterStep(y);
    CenturyStep(y);
    EraStep(y);
  }

  lemma MonthOffsets(y: int)
    ensures var l := if Leap(y) then 1 else 0;
            && DaysBeforeMonth(y, 1) == 0 && DaysBeforeMonth(y, 2) == 31
            && DaysBeforeMonth(y, 3) == 59 + l && DaysBeforeMonth(y, 4) == 90 + l
            && DaysBeforeMonth(y, 5) == 120 + l && DaysBeforeMonth(y, 6) == 151 + l
            && DaysBeforeMonth(y, 7) == 181 + l && DaysBeforeMonth(y, 8) == 212 + l
            && DaysBeforeMonth(y, 9) == 243 + l && DaysBeforeMonth(y, 10) == 273 + l
            && DaysBeforeMonth(y, 11) == 304 + l && DaysBeforeMonth(y, 12) == 334 + l
  {
    assert DaysBeforeMonth(y, 4) == DaysBeforeMonth(y, 3) + DaysIn(y, 3);
    assert DaysBeforeMonth(y, 6) == DaysBeforeMonth(y, 5) + DaysIn(y, 5);
    assert DaysBeforeMonth(y, 8) == DaysBeforeMonth(y, 7) + DaysIn(y, 7);
    assert DaysBeforeMonth(y, 10) == DaysBeforeMonth(y, 9) + DaysIn(y, 9);
  }

  predicate Earlier(a: Date, b: Date) {
    || a.year < b.year
    || (a.year == b.year && (a.month < b.month || (a.month == b.month && a.day < b.day)))
  }

  /** Later dates have larger day numbers. */
  lemma {:induction false} YearsGrow(a: int, b: int)
    requires a < b
    ensures DaysBeforeYear(a) + (if Leap(a) then 366 else 365) <= DaysBeforeYear(b)
    decreases b - a
  {
    YearLength(b - 1);
    if a < b - 1 { YearsGrow(a, b - 1); }
  }

  lemma DayNumberGrows(a: Date, b: Date)
    requires Valid(a) && Valid(b) && Earlier(a, b)
    ensures DayNumber(a) < DayNumber(b)
  {
    MonthOffsets(a.year);
    MonthOffsets(b.year);
    if a.year < b.year { YearsGrow(a.year, b.year); }
  }

  lemma NewYearIsNext(d: Date)
    requires Valid(d) && d.month == 12 && d.day == 31
    ensures DayNumber(Date(d.year + 1, 1, 1)) == DayNumber(d) + 1
  {
    YearLength(d.year);
    MonthOffsets(d.year);
    MonthOffsets(d.year + 1);
  }

  lemma NextDayIsNext(d: Date)
    requires Valid(d)
    ensures Valid(NextDay(d)) && DayNumber(NextDay(d)) == DayNumber(d) + 1
  {
    if d.day == DaysIn(d.year, d.month) && d.month == 12 {
      NewYearIsNext(d);
    } else if d.day == DaysIn(d.year, d.month) {
      assert DaysBeforeMonth(d.year, d.month + 1) == DaysBeforeMonth(d.year, d.month) + DaysIn(d.year, d.month);
    }
  }

  // --------------------------------------------------------------- the algorithm

  /** Division that cuts toward zero. */
  function Cut(a: int, b: int): int
    requires b > 0
  {
    if a >= 0 then a / b else -((-a) / b)
  }

  /** The March-based year, within an era of 400, of a day of that era. */
  function YearIn(doe: int): int {
    (doe - doe / 1460 + doe / 36_524 - doe / 146_096) / 365
  }

  /** First day of a March-based year within its era. */
  function StartOf(yoe: int): int {
    365 * yoe + yoe / 4 - yoe / 100
  }

  /** The date of a day of a March-based year. */
  function OfYear(y: int, doy: int): Date {
    var mp := (5 * doy + 2) / 153;
    var day := doy - (153 * mp + 2) / 5 + 1;
    var month := if mp < 10 then mp + 3 else mp - 9;
    Date(if month <= 2 then y + 1 else y, month, day)
  }

  /** The date computed from days since 1970-01-01. */
  function Civil(days: int): Date {
    var z := days + 719_468;
    var era := Cut(if z >= 0 then z else z - 146_096, 146_097);
    var doe := z - era * 146_097;
    var yoe := YearIn(doe);
    OfYear(yoe + era * 400, doe - StartOf(yoe))
  }

  lemma EraIsFloor(z: int)
    ensures Cut(if z >= 0 then z else z - 146_096, 146_097) == z / 146_097
  {
  }

  /** The March-based year holds a 29 February at its end. */
  predicate EndsLeap(yoe: int) {
    Leap(yoe + 1)
  }

  /** Four years of 365, 365, 365 and up to 366 days. */
  lemma QuadYear(q: int, s: int, c: int)
    requires 0 <= q <= 24 && 0 <= s <= 1460 && 0 <= c <= 3
    ensures var r := 1461 * q + s;
            var k := (r - (r + 24 * c) / 1460) / 365;
            4 * q <= k <= 4 * q + 3 && 365 * (k - 4 * q) <= s <= 365 * (k - 4 * q) + (if k % 4 == 3 then 365 else 364)
  {
    var r := 1461 * q + s;
    var b := if q + s + 24 * c >= 1460 then 1 else 0;
    assert (r + 24 * c) / 1460 == q + b;
    assert r - (r + 24 * c) / 1460 == 1460 * q + (s - b);
    assert (1460 * q + (s - b)) / 365 == 4 * q + (s - b) / 365;
  }

  lemma YearInCentury(c: int, r: int)
    requires 0 <= c <= 3 && 0 <= r < 36_524
    ensures YearIn(36_524 * c + r) == 100 * c + (r - (r + 24 * c) / 1460) / 365
  {
    var doe := 36_524 * c + r;
    assert doe / 36_524 == c && doe / 146_096 == 0;
    assert doe / 1460 == 25 * c + (r + 24 * c) / 1460;
    var x := r - (r + 24 * c) / 1460;
    assert (36_500 * c + x) / 365 == 100 * c + x / 365;
  }

  lemma StartInCentury(c: int, k: int)
    requires 0 <= c <= 3 && 0 <= k <= 99
    ensures StartOf(100 * c + k) == 36_524 * c + 365 * k + k / 4
  {
    assert (100 * c + k) / 4 == 25 * c + k / 4;
    assert (100 * c + k) / 100 == c;
  }

  /** `yoe` is the year, within its era, that day `doe` lies in. */
  predicate InYear(yoe: int, doe: int) {
    0 <= yoe <= 399 && 0 <= doe - StartOf(yoe) <= (if EndsLeap(yoe) then 365 else 364)
  }

  lemma YearOfQuad(c: int, q: int, s: int)
    requires 0 <= c <= 3 && 0 <= q <= 24 && 0 <= s <= 1460 && 1461 * q + s < 36_524
    ensures InYear(YearIn(36_524 * c + (1461 * q + s)), 36_524 * c + (1461 * q + s))
  {
    var r := 1461 * q + s;
    YearInCentury(c, r);
    QuadYear(q, s, c);
    var k := (r - (r + 24 * c) / 1460) / 365;
    FinishQuad(c, q, s, k);
  }

  lemma FinishQuad(c: int, q: int, s: int, k: int)
    requires 0 <= c <= 3 && 0 <= q <= 24 && 0 <= s <= 1460 && 1461 * q + s < 36_524
    requires 4 * q <= k <= 4 * q + 3
    requires 365 * (k - 4 * q) <= s <= 365 * (k - 4 * q) + (if k % 4 == 3 then 365 else 364)
    ensures InYear(100 * c + k, 36_524 * c + (1461 * q + s))
  {
    assert k / 4 == q && k <= 99;
    StartInCentury(c, k);
    LeapInCentury(c, k);
  }

  /** Within an era the formula finds the year the day lies in. */
  lemma YearOfEra(doe: int)
    requires 0 <= doe <= 146_096
    ensures InYear(YearIn(doe), doe)
  {
    if doe == 146_096 {
      assert YearIn(doe) == 399 && EndsLeap(399);
    } else {
      var c, r := doe / 36_524, doe % 36_524;
      assert doe == 36_524 * c + (1461 * (r / 1461) + r % 1461);
      YearOfQuad(c, r / 1461, r % 1461);
    }
  }

  lemma LeapInCentury(c: int, k: int)
    requires 0 <= c <= 3 && 0 <= k <= 99
    ensures EndsLeap(100 * c + k) <==> k % 4 == 3 && (k != 99 || c == 3)
  {
    if c == 0 {} else if c == 1 {} else if c == 2 {} else {}
  }

  lemma QuartersOfEra(era: int, yoe: int)
    ensures (400 * era + yoe + 4) / 4 == 100 * era + yoe / 4 + 1
    ensures (400 * era + yoe + 1) % 4 == (yoe + 1) % 4
  {
  }

  lemma CenturiesOfEra(era: int, yoe: int)
    ensures (400 * era + yoe + 100) / 100 == 4 * era + yoe / 100 + 1
    ensures (400 * era + yoe + 1) % 100 == (yoe + 1) % 100
  {
  }

  lemma ErasOfEra(era: int, yoe: int)
    requires 0 <= yoe <= 399
    ensures (400 * era + yoe + 400) / 400 == era + 1
    ensures (400 * era + yoe + 1) % 400 == (yoe + 1) % 400
  {
  }

  /** 1 March of year `y` is day `StartOf` of its era, counted from 0000-03-01. */
  lemma MarchFirst(era: int, yoe: int)
    requires 0 <= yoe <= 399
    ensures var y := 400 * era + yoe;
            DaysBeforeYear(y) + DaysBeforeMonth(y, 3) == 146_097 * era + StartOf(yoe) + 60
    ensures Leap(400 * era + yoe + 1) == EndsLeap(yoe)
  {
    var y := 400 * era + yoe;
    MonthOffsets(y);
    YearLength(y);
    QuartersOfEra(era, yoe);
    CenturiesOfEra(era, yoe);
    ErasOfEra(era, yoe);
  }

  /** The month and day of a day of a March-based year. */
  lemma MonthOfYear(y: int, doy: int)
    requires 0 <= doy <= (if Leap(y + 1) then 365 else 364)
    ensures var d := OfYear(y, doy);
            && Valid(d)
            && DaysBeforeYear(d.year) + DaysBeforeMonth(d.year, d.month) + d.day - 1
               == DaysBeforeYear(y) + DaysBeforeMonth(y, 3) + doy
  {
    MonthOffsets(y);
    MonthOffsets(y + 1);
    YearLength(y);
    var mp := (5 * doy + 2) / 153;
    assert 0 <= mp <= 11;
    if mp == 0 {} else if mp == 1 {} else if mp == 2 {} else if mp == 3 {} else if mp == 4 {} else if mp == 5 {}
    else if mp == 6 {} else if mp == 7 {} else if mp == 8 {} else if mp == 9 {} else if mp == 10 {} else {}
  }

  // --------------------------------------------------------------- main theorems

  lemma CivilByEra(days: int, era: int, doe: int)
    requires days + 719_468 == 146_097 * era + doe && era == (days + 719_468) / 146_097
    ensures Civil(days) == OfYear(YearIn(doe) + era * 400, doe - StartOf(YearIn(doe)))
  {
    EraIsFloor(days + 719_468);
  }

  lemma SplitByEra(days: int) returns (era: int, doe: int, yoe: int)
    ensures 0 <= doe <= 146_096 && days + 719_468 == 146_097 * era + doe && yoe == YearIn(doe)
    ensures Civil(days) == OfYear(yoe + era * 400, doe - StartOf(yoe))
  {
    var z := days + 719_468;
    era, doe := z / 146_097, z % 146_097;
    yoe := YearIn(doe);
    CivilByEra(days, era, doe);
  }

  /** The day number of a date, if it is one. */
  function NumberOf(d: Date): Option<int> {
    if Valid(d) then Some(DayNumber(d)) else None
  }

  /** The day of a March-based year that day `doe` of an era is. */
  lemma DayOfMarchYear(era: int, yoe: int, doe: int)
    requires InYear(yoe, doe)
    ensures var y, doy := yoe + era * 400, doe - StartOf(yoe);
            && 0 <= doy <= (if Leap(y + 1) then 365 else 364)
            && DaysBeforeYear(y) + DaysBeforeMonth(y, 3) + doy - 719_528 == 146_097 * era + doe - 719_468
  {
    MarchFirst(era, yoe);
  }

  lemma NumberedFromMarch(y: int, doy: int, n: int)
    requires 0 <= doy <= (if Leap(y + 1) then 365 else 364)
    requires n == DaysBeforeYear(y) + DaysBeforeMonth(y, 3) + doy - 719_528
    ensures NumberOf(OfYear(y, doy)) == Some(n)
  {
    MonthOfYear(y, doy);
  }

  lemma NumberedInYear(era: int, yoe: int, doe: int)
    requires InYear(yoe, doe)
    ensures NumberOf(OfYear(yoe + era * 400, doe - StartOf(yoe))) == Some(146_097 * era + doe - 719_468)
  {
    DayOfMarchYear(era, yoe, doe);
    NumberedFromMarch(yoe + era * 400, doe - StartOf(yoe), 146_097 * era + doe - 719_468);
  }

  /** Every date is right: for every day number the result is a date of the
      Gregorian calendar, and it is the date with that number. */
  lemma EveryDateIsRight(days: int)
    ensures Valid(Civil(days)) && DayNumber(Civil(days)) == days
  {
    var era, doe, yoe := SplitByEra(days);
    assert InYear(yoe, doe) by { YearOfEra(doe); }
    assert NumberOf(Civil(days)) == Some(days) by { NumberedInYear(era, yoe, doe); }
  }

  lemma DayNumberIsInjective(a: Date, b: Date)
    requires Valid(a) && Valid(b) && DayNumber(a) == DayNumber(b)
    ensures a == b
  {
    if a != b {
      if Earlier(a, b) { DayNumberGrows(a, b); } else { DayNumberGrows(b, a); }
    }
  }

  /** And the other way round: the conversion undoes days-from-date. */
  lemma CivilUndoesDayNumber(d: Date)
    requires Valid(d)
    ensures Civil(DayNumber(d)) == d
  {
    EveryDateIsRight(DayNumber(d));
    DayNumberIsInjective(Civil(DayNumber(d)), d);
  }

  lemma OnlyDateWithNumber(d: Date, days: int)
    requires NumberOf(d) == Some(days)
    ensures Civil(days) == d
  {
    CivilUndoesDayNumber(d);
  }

  lemma EpochIsDayZero()
    ensures Civil(0) == Date(1970, 1, 1)
  {
    assert DayNumber(Date(1970, 1, 1)) == 0;
    CivilUndoesDayNumber(Date(1970, 1, 1));
  }

  lemma NextDayNumbered(d: Date, days: int)
    requires NumberOf(d) == Some(days)
    ensures NumberOf(NextDay(d)) == Some(days + 1)
  {
    NextDayIsNext(d);
  }

  /** Consecutive days give consecutive dates, from 1970-01-01 in both directions;
      these two facts alone determine the calendar. */
  lemma ConsecutiveDays(days: int)
    ensures Civil(0) == Date(1970, 1, 1)
    ensures Civil(days + 1) == NextDay(Civil(days))
  {
    EpochIsDayZero();
    assert NumberOf(Civil(days)) == Some(days) by { EveryDateIsRight(days); }
    NextDayNumbered(Civil(days), days);
    OnlyDateWithNumber(NextDay(Civil(days)), days + 1);
  }

  /** Dates are ordered as their day numbers. */
  lemma EarlierIff(a: int, b: int)
    ensures a < b <==> Earlier(Civil(a), Civil(b))
  {
    EveryDateIsRight(a);
    EveryDateIsRight(b);
    if a < b && !Earlier(Civil(a), Civil(b)) {
      if Civil(a) != Civil(b) { DayNumberGrows(Civil(b), Civil(a)); }
    } else if Earlier(Civil(a), Civil(b)) {
      DayNumberGrows(Civil(a), Civil(b));
    }
  }

  const I64: int := 0x8000_0000_0000_0000

  /** The unsigned part of the conversion: from the day of the era on, nothing is
      subtracted that is not there, and everything stays small. */
  lemma NoUnsignedUnderflow(doe: int)
    requires 0 <= doe <= 146_096
    ensures var yoe := YearIn(doe);
            var doy := doe - StartOf(yoe);
            var mp := (5 * doy + 2) / 153;
            && 0 <= doe - doe / 1460 && doe - doe / 1460 + doe / 36_524 <= 146_096
            && 0 <= doe - doe / 1460 + doe / 36_524 - doe / 146_096
            && 0 <= yoe <= 399
            && 0 <= yoe / 100 <= 365 * yoe + yoe / 4 <= 146_097 && StartOf(yoe) <= doe
            && 0 <= doy <= 365 && 5 * doy + 2 <= 1827
            && 0 <= mp <= 11 && 153 * mp + 2 <= 1685 && (153 * mp + 2) / 5 <= doy
            && 1 <= doy - (153 * mp + 2) / 5 + 1 <= 31
            && (mp >= 10 ==> 1 <= mp - 9) && mp + 3 <= 14
  {
    YearOfEra(doe);
    UnsignedYear(doe);
    MonthStep(doe - StartOf(YearIn(doe)));
  }

  lemma UnsignedYear(doe: int)
    requires 0 <= doe <= 146_096
    ensures 0 <= doe - doe / 1460 && doe - doe / 1460 + doe / 36_524 <= 146_096
    ensures 0 <= doe - doe / 1460 + doe / 36_524 - doe / 146_096
  {
    assert doe / 36_524 <= doe / 1460;
  }

  lemma MonthStep(doy: int)
    requires 0 <= doy <= 365
    ensures var mp := (5 * doy + 2) / 153;
            0 <= mp <= 11 && (153 * mp + 2) / 5 <= doy && doy - (153 * mp + 2) / 5 + 1 <= 31
  {
  }

  /** For every signed 64-bit timestamp each intermediate of the source stays in
      its machine type: the signed ones here, the unsigned ones by
      `NoUnsignedUnderflow` at the day of the era named here. */
  lemma NoIntermediateOverflows(t: int)
    requires -I64 <= t < I64
    ensures var z := t / 86_400 + 719_468;
            var era := Cut(if z >= 0 then z else z - 146_096, 146_097);
            var doe := z - era * 146_097;
            var yoe := YearIn(doe);
            && -I64 <= z - 146_096 && z < I64
            && -I64 <= era * 146_097 < I64
            && 0 <= doe <= 146_096 && 0 <= yoe <= 399
            && -I64 <= era * 400 && -I64 <= yoe + era * 400 && yoe + era * 400 + 1 < I64
  {
    var z := t / 86_400 + 719_468;
    EraIsFloor(z);
    var era := z / 146_097;
    YearOfEra(z - era * 146_097);
  }
}
