/** The clock's day-number conversion, checked against the Gregorian calendar itself. */
module Civil {
  const INT64_MIN := -0x8000_0000_0000_0000
  const INT64_MAX := 0x7FFF_FFFF_FFFF_FFFF
  const EPOCH_SHIFT := 719468

  datatype Date = Date(year: int, month: int, day: int)

  // ---------------------------------------------------------------- the calendar

  predicate IsLeap(y: int) {
    y % 4 == 0 && (y % 100 != 0 || y % 400 == 0)
  }

  function DaysInMonth(y: int, m: int): int
    requires 1 <= m <= 12
  {
    if m == 2 then (if IsLeap(y) then 29 else 28)
    else if m == 4 || m == 6 || m == 9 || m == 11 then 30
    else 31
  }

  predicate ValidDate(d: Date) {
    1 <= d.month <= 12 && 1 <= d.day <= DaysInMonth(d.year, d.month)
  }

  /** The day after `d`, read off the wall calendar. */
  function NextDay(d: Date): Date
    requires ValidDate(d)
  {
    if d.day < DaysInMonth(d.year, d.month) then d.(day := d.day + 1)
    else if d.month < 12 then Date(d.year, d.month + 1, 1)
    else Date(d.year + 1, 1, 1)
  }

  predicate Earlier(a: Date, b: Date) {
    a.year < b.year || (a.year == b.year && (a.month < b.month || (a.month == b.month && a.day < b.day)))
  }

  // ---------------------------------------------------------------- the code

  /** C's integer division, which truncates toward zero. */
  function TruncDiv(a: int, b: int): int
    requires b > 0
  {
    if a >= 0 then a / b else -((-a) / b)
  }

  /** The conversion of a value to C's 32-bit `int`. */
  function ToInt32(v: int): int {
    (v + 0x8000_0000) % 0x1_0000_0000 - 0x8000_0000
  }

  /** `civil_from_days` before the year is narrowed to `int`. */
  function CivilWide(day: int): Date {
    var z := day + EPOCH_SHIFT;
    var era := TruncDiv(if z >= 0 then z else z - 146096, 146097);
    CivilInEra(z - era * 146097, era)
  }

  /** The part of `civil_from_days` after the day of the era is known. */
  function CivilInEra(doe: int, era: int): Date {
    var yoe := (doe - doe / 1460 + doe / 36524 - doe / 146096) / 365;
    var yr := yoe + era * 400;
    var doy := doe - (365 * yoe + yoe / 4 - yoe / 100);
    var mp := (5 * doy + 2) / 153;
    var d := doy - (153 * mp + 2) / 5 + 1;
    var m := if mp < 10 then mp + 3 else mp - 9;
    Date(yr + (if m <= 2 then 1 else 0), m, d)
  }

  /** `civil_from_days`: the arguments for which none of its 64-bit steps overflows. */
  function CivilFromDays(z: int): Date
    requires INT64_MIN <= z <= INT64_MAX - EPOCH_SHIFT
  {
    var wide := CivilWide(z);
    wide.(year := ToInt32(wide.year))
  }

  // ---------------------------------------------------------------- the arithmetic, step by step

  /** Days before March-based year `y` of an era. */
  function YearStart(y: int): int { 365 * y + y / 4 - y / 100 }

  /** Days before March-based month `mp` of a year. */
  function MonthStart(mp: int): int { (153 * mp + 2) / 5 }

  /** The branch on the sign makes truncation agree with the floor. */
  lemma EraIsFloor(z: int)
    ensures TruncDiv(if z >= 0 then z else z - 146096, 146097) == z / 146097
  {}

  /** The days of March-based year `yoe`: it ends with February of calendar year `yoe + 1`. */
  function YearLength(yoe: int): int {
    if IsLeap(yoe + 1) then 366 else 365
  }

  /** Day `doe` of an era, as a century, a four-year group, and a day `s` of that group. */
  lemma Groups(doe: int) returns (c: int, q: int, s: int)
    requires 0 <= doe < 146097
    ensures doe == 36524 * c + 1461 * q + s
    ensures 0 <= c <= 3 && 0 <= q <= 24 && 0 <= s <= 1460
    ensures q == 24 && s == 1460 ==> c == 3
    ensures doe / 36524 == (if doe == 146096 then 4 else c)
  {
    c := if doe == 146096 then 3 else doe / 36524;
    var r := doe - 36524 * c;
    q := r / 1461;
    s := r - 1461 * q;
  }

  /** The numerator the code divides by 365, once the corrections are applied. */
  lemma Numerator(doe: int, c: int, q: int, s: int) returns (e: int)
    requires 0 <= doe < 146097
    requires doe == 36524 * c + 1461 * q + s
    requires 0 <= c <= 3 && 0 <= q <= 24 && 0 <= s <= 1460
    requires doe / 36524 == (if doe == 146096 then 4 else c)
    ensures e == 0 || (e == 1 && s >= 1364)
    ensures s == 1460 ==> e == 1
    ensures doe - doe / 1460 + doe / 36524 - doe / 146096 == 365 * (100 * c + 4 * q) + (s - e)
  {
    e := (24 * c + q + s) / 1460;
    assert doe == 1460 * (25 * c + q) + (24 * c + q + s);
    assert doe / 1460 == 25 * c + q + e;
  }

  /** The divisions find the one year of the era that contains day `doe`. */
  lemma YearOfEra(doe: int)
    requires 0 <= doe < 146097
    ensures var yoe := (doe - doe / 1460 + doe / 36524 - doe / 146096) / 365;
            0 <= yoe < 400 && YearStart(yoe) <= doe < YearStart(yoe) + YearLength(yoe)
  {
    hide IsLeap, YearStart;
    var c, q, s := Groups(doe);
    var e := Numerator(doe, c, q, s);
    var k := (s - e) / 365;
    assert s - e == 365 * k + (s - e) % 365 && 0 <= k <= 3;
    assert (365 * (100 * c + 4 * q) + (s - e)) / 365 == 100 * c + 4 * q + k;
    YearStartAt(c, q, k);
    LeapAt(c, q, k);
  }

  lemma YearStartAt(c: int, q: int, k: int)
    requires 0 <= c <= 3 && 0 <= q <= 24 && 0 <= k <= 3
    ensures YearStart(100 * c + 4 * q + k) == 36524 * c + 1461 * q + 365 * k
  {
    var yoe := 100 * c + 4 * q + k;
    assert yoe / 4 == 25 * c + q;
    assert yoe / 100 == c;
  }

  /** The fourth year of a group ends with a leap day, except at the end of the first three centuries. */
  lemma LeapAt(c: int, q: int, k: int)
    requires 0 <= c <= 3 && 0 <= q <= 24 && 0 <= k <= 3
    ensures IsLeap(100 * c + 4 * q + k + 1) <==> k == 3 && (q < 24 || c == 3)
  {
    var y := 100 * c + 4 * q + k + 1;
    assert y % 4 == (k + 1) % 4;
    assert y % 100 == if q == 24 && k == 3 then 0 else 4 * q + k + 1;
  }

  /** Days from the first of March of year 0 to the first of March of year `y`. */
  function MarchYear(y: int): int { 365 * y + y / 4 - y / 100 + y / 400 }

  /** The month of March-based index `mp`. */
  function MonthOf(mp: int): int { if mp < 10 then mp + 3 else mp - 9 }

  /** What the whole computation does: a March-based year, a month of it, a day of that. */
  lemma Shape(z: int) returns (y: int, mp: int, d0: int)
    ensures z + EPOCH_SHIFT == MarchYear(y) + MonthStart(mp) + d0
    ensures 0 <= mp <= 11
    ensures 0 <= d0 < DaysInMonth(if mp < 10 then y else y + 1, MonthOf(mp))
    ensures CivilWide(z) == Date(if mp < 10 then y else y + 1, MonthOf(mp), d0 + 1)
  {
    hide MarchYear, MonthStart, DaysInMonth, MonthOf, CivilInEra;
    var t := z + EPOCH_SHIFT;
    EraIsFloor(t);
    y, mp, d0 := ShapeInEra(t - t / 146097 * 146097, t / 146097);
  }

  lemma ShapeInEra(doe: int, era: int) returns (y: int, mp: int, d0: int)
    requires 0 <= doe < 146097
    ensures doe + 146097 * era == MarchYear(y) + MonthStart(mp) + d0
    ensures 0 <= mp <= 11
    ensures 0 <= d0 < DaysInMonth(if mp < 10 then y else y + 1, MonthOf(mp))
    ensures CivilInEra(doe, era) == Date(if mp < 10 then y else y + 1, MonthOf(mp), d0 + 1)
  {
    hide IsLeap, MarchYear, DaysInMonth;
    YearOfEra(doe);
    var yoe := (doe - doe / 1460 + doe / 36524 - doe / 146096) / 365;
    y := yoe + 400 * era;
    EraYears(yoe, era);
    var doy := doe - YearStart(yoe);
    mp, d0 := MonthOfDay(doy, y);
  }

  /** The linear month formula finds the month of a March-based year that contains day `doy`. */
  lemma MonthOfDay(doy: int, y: int) returns (mp: int, d0: int)
    requires 0 <= doy < (if IsLeap(y + 1) then 366 else 365)
    ensures mp == (5 * doy + 2) / 153 && d0 == doy - MonthStart(mp)
    ensures 0 <= mp <= 11
    ensures 0 <= d0 < DaysInMonth(if mp < 10 then y else y + 1, MonthOf(mp))
  {
    mp := (5 * doy + 2) / 153;
    d0 := doy - MonthStart(mp);
  }

  /** Eras repeat: 400 years are 146097 days, and leap years have the same places in each. */
  lemma EraYears(yoe: int, era: int)
    requires 0 <= yoe < 400
    ensures MarchYear(yoe + 400 * era) == 146097 * era + YearStart(yoe)
    ensures IsLeap(yoe + 400 * era + 1) == IsLeap(yoe + 1)
  {
    hide IsLeap;
    var y := yoe + 400 * era;
    assert y / 4 == yoe / 4 + 100 * era;
    assert y / 100 == yoe / 100 + 4 * era;
    assert y / 400 == era;
    EraLeap(yoe, era);
  }

  lemma EraLeap(yoe: int, era: int)
    ensures IsLeap(yoe + 400 * era + 1) == IsLeap(yoe + 1)
  {
    FourYears(yoe + 1, 100 * era);
    Centuries(yoe + 1, 4 * era);
    Eras(yoe + 1, era);
    assert yoe + 1 + 4 * (100 * era) == yoe + 400 * era + 1;
    assert yoe + 1 + 100 * (4 * era) == yoe + 400 * era + 1;
  }

  lemma FourYears(a: int, k: int)
    ensures (a + 4 * k) % 4 == a % 4 && a / 4 == (a - 1) / 4 + (if a % 4 == 0 then 1 else 0)
  {}

  lemma Centuries(a: int, k: int)
    ensures (a + 100 * k) % 100 == a % 100 && a / 100 == (a - 1) / 100 + (if a % 100 == 0 then 1 else 0)
  {}

  lemma Eras(a: int, k: int)
    ensures (a + 400 * k) % 400 == a % 400 && a / 400 == (a - 1) / 400 + (if a % 400 == 0 then 1 else 0)
  {}

  lemma EraIsCentury(a: int)
    ensures a % 400 == 0 ==> a % 100 == 0
  {}

  lemma CenturyIsFourYears(a: int)
    ensures a % 100 == 0 ==> a % 4 == 0
  {}

  // ---------------------------------------------------------------- the reference conversion

  /** Days before month `m` of year `y`: the lengths of the earlier months, added up. */
  function DaysBeforeMonth(y: int, m: int): int
    requires 1 <= m <= 12
  {
    if m == 1 then 0 else DaysBeforeMonth(y, m - 1) + DaysInMonth(y, m - 1)
  }

  /** Days from 1970-01-01 to the start of year `y`: the lengths of the years between, added up. */
  function DaysBeforeYear(y: int): int
    decreases if y >= 1970 then y - 1970 else 1970 - y
  {
    if y == 1970 then 0
    else if y > 1970 then DaysBeforeYear(y - 1) + (if IsLeap(y - 1) then 366 else 365)
    else DaysBeforeYear(y + 1) - (if IsLeap(y) then 366 else 365)
  }

  /** Days from 1970-01-01 to `d`, by counting. */
  function DaysFromCivil(d: Date): int
    requires ValidDate(d)
  {
    DaysBeforeYear(d.year) + DaysBeforeMonth(d.year, d.month) + d.day - 1
  }

  lemma {:induction false} YearsCounted(y: int)
    ensures DaysBeforeYear(y) == MarchYear(y - 1) + 306 - EPOCH_SHIFT
    decreases if y >= 1970 then y - 1970 else 1970 - y
  {
    if y > 1970 {
      YearsCounted(y - 1);
      MarchYearStep(y - 2);
    } else if y < 1970 {
      YearsCounted(y + 1);
      MarchYearStep(y - 1);
    }
  }

  lemma MarchYearStep(y: int)
    ensures MarchYear(y + 1) - MarchYear(y) == (if IsLeap(y + 1) then 366 else 365)
  {
    FourYears(y + 1, 0);
    Centuries(y + 1, 0);
    Eras(y + 1, 0);
    EraIsCentury(y + 1);
    CenturyIsFourYears(y + 1);
  }

  lemma MonthsCounted(y: int, m: int)
    requires 1 <= m <= 12
    ensures DaysBeforeMonth(y, m) ==
            (if m == 1 then 0 else if m == 2 then 31
             else MonthStart(m - 3) + (if IsLeap(y) then 60 else 59))
  {
    if m > 1 { MonthsCounted(y, m - 1); }
  }

  /** Counting days from the epoch to the date the clock shows gives back the day number. */
  lemma CivilInvertsCount(z: int)
    ensures ValidDate(CivilWide(z))
    ensures DaysFromCivil(CivilWide(z)) == z
  {
    var y, mp, d0 := Shape(z);
    ShapeCounts(y, mp, d0);
  }

  lemma ShapeCounts(y: int, mp: int, d0: int)
    requires 0 <= mp <= 11
    requires 0 <= d0 < DaysInMonth(if mp < 10 then y else y + 1, MonthOf(mp))
    ensures DaysFromCivil(Date(if mp < 10 then y else y + 1, MonthOf(mp), d0 + 1))
            == MarchYear(y) + MonthStart(mp) + d0 - EPOCH_SHIFT
  {
    var year := if mp < 10 then y else y + 1;
    YearsCounted(year);
    MonthsCounted(year, MonthOf(mp));
    if mp < 10 { MarchYearStep(y - 1); }
  }

  lemma CountIsMonotone(a: Date, b: Date)
    requires ValidDate(a) && ValidDate(b) && Earlier(a, b)
    ensures DaysFromCivil(a) < DaysFromCivil(b)
  {
    if a.year == b.year {
      MonthsCounted(a.year, a.month);
      MonthsCounted(b.year, b.month);
    } else {
      WithinYear(a);
      WithinYear(b);
      YearsGrow(a.year + 1, b.year);
    }
  }

  lemma WithinYear(a: Date)
    requires ValidDate(a)
    ensures DaysBeforeYear(a.year) <= DaysFromCivil(a) < DaysBeforeYear(a.year + 1)
  {
    MonthsCounted(a.year, a.month);
    YearsCounted(a.year);
    YearsCounted(a.year + 1);
    MarchYearStep(a.year - 1);
  }

  lemma YearsGrow(y: int, y': int)
    requires y <= y'
    ensures DaysBeforeYear(y) <= DaysBeforeYear(y')
  {
    YearsCounted(y);
    YearsCounted(y');
  }

  /** Every valid date is the one shown for exactly one day number. */
  lemma CountInvertsCivil(d: Date)
    requires ValidDate(d)
    ensures CivilWide(DaysFromCivil(d)) == d
  {
    var e := CivilWide(DaysFromCivil(d));
    CivilInvertsCount(DaysFromCivil(d));
    if e != d {
      if Earlier(e, d) { CountIsMonotone(e, d); } else { CountIsMonotone(d, e); }
    }
  }

  /** One day later the clock shows the next date of the calendar; day 0 is the Unix epoch. */
  lemma CivilFollowsCalendar(z: int)
    ensures CivilWide(0) == Date(1970, 1, 1)
    ensures ValidDate(CivilWide(z)) && CivilWide(z + 1) == NextDay(CivilWide(z))
  {
    CivilInvertsCount(z);
    ShownNext(CivilWide(z), z);
    CountInvertsCivil(Date(1970, 1, 1));
  }

  lemma ShownNext(d: Date, z: int)
    requires ValidDate(d) && DaysFromCivil(d) == z
    ensures CivilWide(z + 1) == NextDay(d)
  {
    hide NextDay, ValidDate, DaysFromCivil, CivilWide;
    NextDayCounts(d);
    CountInvertsCivil(NextDay(d));
  }

  lemma NextDayCounts(d: Date)
    requires ValidDate(d)
    ensures ValidDate(NextDay(d)) && DaysFromCivil(NextDay(d)) == DaysFromCivil(d) + 1
  {
    if d.day == DaysInMonth(d.year, d.month) && d.month == 12 {
      MonthsCounted(d.year, 12);
      YearsCounted(d.year);
      YearsCounted(d.year + 1);
      MarchYearStep(d.year - 1);
    }
  }

  /**
   * `civil_from_days` is exact precisely when the year fits the 32-bit `int` it is stored in;
   * the day and the month are exact always.
   */
  lemma CivilFromDaysExact(z: int)
    requires INT64_MIN <= z <= INT64_MAX - EPOCH_SHIFT
    ensures var d := CivilFromDays(z);
            d.month == CivilWide(z).month && d.day == CivilWide(z).day
    ensures var d := CivilFromDays(z);
            (ValidDate(d) && DaysFromCivil(d) == z) <==>
            DaysBeforeYear(-0x8000_0000) <= z < DaysBeforeYear(0x8000_0000)
  {
    CivilInvertsCount(z);
    NarrowingExact(CivilWide(z), z);
  }

  lemma NarrowingExact(w: Date, z: int)
    requires ValidDate(w) && DaysFromCivil(w) == z
    ensures var d := w.(year := ToInt32(w.year));
            (ValidDate(d) && DaysFromCivil(d) == z) <==>
            DaysBeforeYear(-0x8000_0000) <= z < DaysBeforeYear(0x8000_0000)
  {
    var d := w.(year := ToInt32(w.year));
    WithinYear(w);
    if -0x8000_0000 <= w.year < 0x8000_0000 {
      YearsGrow(-0x8000_0000, w.year);
      YearsGrow(w.year + 1, 0x8000_0000);
      assert d == w;
    } else {
      if w.year < -0x8000_0000 { YearsGrow(w.year + 1, -0x8000_0000); }
      else { YearsGrow(0x8000_0000, w.year); }
      assert d.year != w.year;
      if ValidDate(d) {
        if Earlier(w, d) { CountIsMonotone(w, d); } else { CountIsMonotone(d, w); }
      }
    }
  }
}
