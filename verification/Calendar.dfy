/** Civil dates of audit timestamps: the era arithmetic refines a day-by-day Gregorian calendar. */
module Calendar {

  datatype Date = Date(year: int, month: int, day: int)

  // ------------------------------------------------------------------ the calendar, day by day

  /** Leap rule and month lengths of section 5.7 and Appendix C of RFC 3339. */
  predicate Leap(year: int) {
    year % 4 == 0 && (year % 100 != 0 || year % 400 == 0)
  }

  function MonthLength(year: int, month: int): int {
    if month == 2 then (if Leap(year) then 29 else 28)
    else if month in {4, 6, 9, 11} then 30
    else 31
  }

  predicate ValidDate(a: Date) {
    1 <= a.month <= 12 && 1 <= a.day <= MonthLength(a.year, a.month)
  }

  function Tomorrow(a: Date): Date {
    if a.day < MonthLength(a.year, a.month) then Date(a.year, a.month, a.day + 1)
    else if a.month < 12 then Date(a.year, a.month + 1, 1)
    else Date(a.year + 1, 1, 1)
  }

  /** The date `n` days after 1970-01-01, counted one day at a time. */
  function DayByDay(n: nat): Date {
    if n == 0 then Date(1970, 1, 1) else Tomorrow(DayByDay(n - 1))
  }

  // ------------------------------------------------------------------ the era arithmetic

  const ERA := 146097
  const SHIFT := 719468

  /** Year of the era from the day of the era. */
  function YearOfEra(doe: int): int {
    (doe - doe / 1460 + doe / 36524 - doe / 146096) / 365
  }

  /** The first day of a year of the era; years begin in March. */
  function YearStart(yoe: int): int {
    365 * yoe + yoe / 4 - yoe / 100
  }

  /** Month, counted from March, of a day of such a year. */
  function MonthOfYear(doy: int): int {
    (5 * doy + 2) / 153
  }

  function MonthStart(mp: int): int {
    (153 * mp + 2) / 5
  }

  function Civil(era: int, yoe: int, doy: int): Date {
    var mp := MonthOfYear(doy);
    var month := if mp < 10 then mp + 3 else mp - 9;
    var y := yoe + era * 400;
    Date(if month <= 2 then y + 1 else y, month, doy - MonthStart(mp) + 1)
  }

  /** The civil date of a day number, as `format_epoch_iso` computes it. */
  function FromDays(days: nat): Date {
    var z := days + SHIFT;
    var era := z / ERA;
    var doe := z - era * ERA;
    var yoe := YearOfEra(doe);
    Civil(era, yoe, doe - YearStart(yoe))
  }

  /** The day number of a civil date, as `parse_timestamp_to_epoch_secs` computes it. Rust division truncates. */
  function ToDays(a: Date): int {
    var y := if a.month <= 2 then a.year - 1 else a.year;
    var era := Truncate(if y >= 0 then y else y - 399, 400);
    var yoe := y - era * 400;
    var mp := if a.month > 2 then a.month - 3 else a.month + 9;
    var doy := MonthStart(mp) + a.day - 1;
    era * ERA + yoe * 365 + yoe / 4 - yoe / 100 + doy - SHIFT
  }

  function Truncate(a: int, b: int): int
    requires b > 0
  {
    if a >= 0 then a / b else -(-a / b)
  }

  // ------------------------------------------------------------------ years of an era

  /** A day between two year starts belongs to that year. */
  lemma YearOf(yoe: int, doe: int)
    requires 0 <= yoe < 400 && YearStart(yoe) <= doe < YearEnd(yoe)
    ensures YearOfEra(doe) == yoe
  {
    var c, q, r := yoe / 100, yoe % 100 / 4, yoe % 4;
    var t := doe - YearStart(yoe);
    YearStartParts(yoe);
    hide YearOfEra;
    YearParts(c, q, r, t);
  }

  lemma YearStartParts(yoe: int)
    requires 0 <= yoe < 400
    ensures
      var c, q, r := yoe / 100, yoe % 100 / 4, yoe % 4;
      && yoe == 100 * c + 4 * q + r && YearStart(yoe) == 36524 * c + 1461 * q + 365 * r
      && YearEnd(yoe) <= YearStart(yoe) + (if r == 3 && (q == 24 ==> c == 3) then 366 else 365)
  {
    var c, q, r := yoe / 100, yoe % 100 / 4, yoe % 4;
    assert yoe == 100 * c + 4 * q + r;
    assert yoe / 4 == 25 * c + q;
    assert (yoe + 1) / 4 == 25 * c + q + if r == 3 then 1 else 0;
    assert (yoe + 1) / 100 == if r == 3 && q == 24 then c + 1 else c;
  }

  /** Centuries, four-year cycles and years: the corrections of `YearOfEra` cancel the leap days before the year. */
  lemma YearParts(c: int, q: int, r: int, t: int)
    requires 0 <= c < 4 && 0 <= q < 25 && 0 <= r < 4 && 0 <= t <= 365
    requires t == 365 ==> r == 3 && (q == 24 ==> c == 3)
    ensures YearOfEra(36524 * c + 1461 * q + 365 * r + t) == 100 * c + 4 * q + r
  {
    var doe := 36524 * c + 1461 * q + 365 * r + t;
    var carry := if 24 * c + q + 365 * r + t >= 1460 then 1 else 0;
    assert doe == 1460 * (25 * c + q) + 24 * c + q + 365 * r + t;
    assert doe / 1460 == 25 * c + q + carry;
    assert doe / 36524 - doe / 146096 == c;
    assert doe - doe / 1460 + doe / 36524 - doe / 146096 == 365 * (100 * c + 4 * q + r) + t - carry;
  }

  function YearEnd(yoe: int): int {
    if yoe == 399 then ERA else YearStart(yoe + 1)
  }

  /** Every day of the era lies in the year computed for it. */
  lemma {:induction false} YearOfEraOk(doe: nat)
    requires doe < ERA
    ensures 0 <= YearOfEra(doe) < 400 && YearStart(YearOfEra(doe)) <= doe < YearEnd(YearOfEra(doe))
  {
    hide YearOfEra, YearStart, YearEnd;
    if doe == 0 {
      EraStart();
      YearBounds(0);
    } else {
      YearOfEraOk(doe - 1);
      NextYearOfEra(doe, YearOfEra(doe - 1));
    }
  }

  lemma NextYearOfEra(doe: nat, yoe: int)
    requires 0 <= yoe < 400 && YearStart(yoe) <= doe - 1 < YearEnd(yoe) && doe < ERA
    ensures 0 <= YearOfEra(doe) < 400 && YearStart(YearOfEra(doe)) <= doe < YearEnd(YearOfEra(doe))
  {
    hide YearOfEra, YearStart;
    if doe < YearEnd(yoe) {
      YearOf(yoe, doe);
    } else {
      YearBounds(yoe + 1);
      YearOf(yoe + 1, doe);
    }
  }

  /** A year of the era is a day longer exactly when the February it ends with is. */
  lemma YearLength(era: int, yoe: int)
    requires 0 <= yoe < 400
    ensures YearEnd(yoe) - YearStart(yoe) == 337 + MonthLength(yoe + era * 400 + 1, 2)
  {
    LeapInEra(era, yoe);
    LengthInEra(yoe);
  }

  /** The leap rule repeats every era. */
  lemma LeapInEra(era: int, yoe: int)
    ensures Leap(yoe + era * 400 + 1) == Leap(yoe + 1)
  {
    var y := yoe + 1;
    assert yoe + era * 400 + 1 == y + 4 * (100 * era) == y + 100 * (4 * era) == y + 400 * era;
    Mod4(y, 100 * era);
    Mod100(y, 4 * era);
    Mod400(y, era);
  }

  lemma Mod4(y: int, k: int)
    ensures (y + 4 * k) % 4 == y % 4
  {
  }

  lemma Mod100(y: int, k: int)
    ensures (y + 100 * k) % 100 == y % 100
  {
  }

  lemma Mod400(y: int, k: int)
    ensures (y + 400 * k) % 400 == y % 400
  {
  }

  lemma LengthInEra(yoe: int)
    requires 0 <= yoe < 400
    ensures YearEnd(yoe) - YearStart(yoe) == if Leap(yoe + 1) then 366 else 365
  {
    var c, q, r := yoe / 100, yoe % 100 / 4, yoe % 4;
    assert yoe == 100 * c + 4 * q + r;
    assert yoe / 4 == 25 * c + q;
    if r == 3 {
      assert (yoe + 1) / 4 == 25 * c + q + 1;
    } else {
      assert (yoe + 1) / 4 == 25 * c + q;
    }
    assert (yoe + 1) / 100 == if r == 3 && q == 24 then c + 1 else c;
  }

  // ------------------------------------------------------------------ months of a year

  lemma MonthOk(doy: int)
    requires 0 <= doy <= 365
    ensures 0 <= MonthOfYear(doy) <= 11 && MonthStart(MonthOfYear(doy)) <= doy < MonthStart(MonthOfYear(doy) + 1)
  {
  }

  /** The months from March on have their calendar lengths. */
  lemma MonthLengths(year: int, mp: int)
    requires 0 <= mp < 11
    ensures MonthStart(mp + 1) - MonthStart(mp) == MonthLength(year, if mp < 10 then mp + 3 else mp - 9)
  {
  }

  lemma MonthOf(mp: int, doy: int)
    requires 0 <= mp <= 11 && MonthStart(mp) <= doy < MonthStart(mp + 1)
    ensures MonthOfYear(doy) == mp
  {
  }

  // ------------------------------------------------------------------ one day to the next

  lemma SameYear(era: int, yoe: int, doy: int)
    requires 0 <= yoe < 400 && 0 <= doy && doy + 1 < YearEnd(yoe) - YearStart(yoe)
    ensures Civil(era, yoe, doy + 1) == Tomorrow(Civil(era, yoe, doy))
  {
    var mp, year := MonthOfYear(doy), yoe + era * 400;
    YearLength(era, yoe);
    MonthOk(doy);
    if mp < 11 {
      MonthLengths(if mp >= 10 then year + 1 else year, mp);
    }
    MonthOf(if doy + 1 < MonthStart(mp + 1) then mp else mp + 1, doy + 1);
  }

  lemma NextYear(era: int, yoe: int)
    requires 0 <= yoe < 400
    ensures
      var last := YearEnd(yoe) - YearStart(yoe) - 1;
      Date(yoe + 1 + era * 400, 3, 1) == Tomorrow(Civil(era, yoe, last))
  {
    YearLength(era, yoe);
    MonthOf(11, YearEnd(yoe) - YearStart(yoe) - 1);
  }

  lemma MarchFirst(era: int, yoe: int)
    ensures Civil(era, yoe, 0) == Date(yoe + era * 400, 3, 1)
  {
  }

  lemma EraStart()
    ensures YearOfEra(0) == 0 && YearStart(0) == 0
  {
  }

  /** The date at a place of an era is the one its day number is given. */
  lemma AtPlace(era: nat, yoe: int, doy: int)
    requires 0 <= yoe < 400 && 0 <= doy < YearEnd(yoe) - YearStart(yoe) && era * ERA + YearStart(yoe) + doy >= SHIFT
    ensures FromDays(era * ERA + YearStart(yoe) + doy - SHIFT) == Civil(era, yoe, doy)
  {
    hide YearOfEra, Civil;
    YearBounds(yoe);
    var doe := YearStart(yoe) + doy;
    YearOf(yoe, doe);
    InEra(era, doe);
  }

  lemma YearBounds(yoe: int)
    requires 0 <= yoe < 400
    ensures 0 <= YearStart(yoe) < YearEnd(yoe) <= ERA
  {
  }

  lemma InEra(era: nat, doe: nat)
    requires doe < ERA
    ensures (era * ERA + doe) / ERA == era
  {
  }

  /** Every day number is a place of an era. */
  lemma PlaceOf(days: nat) returns (era: nat, yoe: int, doy: int)
    ensures 0 <= yoe < 400 && 0 <= doy < YearEnd(yoe) - YearStart(yoe)
    ensures days == era * ERA + YearStart(yoe) + doy - SHIFT
    ensures FromDays(days) == Civil(era, yoe, doy)
  {
    hide YearOfEra, Civil, YearStart, YearEnd;
    var z := days + SHIFT;
    era := z / ERA;
    YearOfEraOk(z - era * ERA);
    yoe := YearOfEra(z - era * ERA);
    doy := z - era * ERA - YearStart(yoe);
  }

  /** The place after a place, and that its date is tomorrow's. */
  lemma NextPlace(era: int, yoe: int, doy: int) returns (era': int, yoe': int, doy': int)
    requires 0 <= yoe < 400 && 0 <= doy < YearEnd(yoe) - YearStart(yoe)
    ensures 0 <= yoe' < 400 && 0 <= doy' < YearEnd(yoe') - YearStart(yoe') && era <= era'
    ensures era' * ERA + YearStart(yoe') + doy' == era * ERA + YearStart(yoe) + doy + 1
    ensures Civil(era', yoe', doy') == Tomorrow(Civil(era, yoe, doy))
  {
    hide Civil, YearStart, Tomorrow;
    era', yoe', doy' := era, yoe, doy + 1;
    if doy + 1 < YearEnd(yoe) - YearStart(yoe) {
      SameYear(era, yoe, doy);
    } else {
      NextYear(era, yoe);
      EraStart();
      era', yoe', doy' := if yoe == 399 then era + 1 else era, if yoe == 399 then 0 else yoe + 1, 0;
      MarchFirst(era', yoe');
      YearBounds(yoe');
    }
  }

  /** The arithmetic moves through the calendar one day at a time. */
  lemma NextDay(days: nat)
    ensures FromDays(days + 1) == Tomorrow(FromDays(days))
  {
    hide Civil, YearStart, YearEnd, Tomorrow, FromDays;
    var era, yoe, doy := PlaceOf(days);
    var era', yoe', doy' := NextPlace(era, yoe, doy);
    AtPlace(era', yoe', doy');
  }

  lemma Epoch()
    ensures FromDays(0) == Date(1970, 1, 1)
  {
  }

  lemma TomorrowValid(a: Date)
    requires ValidDate(a)
    ensures ValidDate(Tomorrow(a))
  {
  }

  /** For every day, the arithmetic gives the date a day-by-day count from 1970-01-01 gives. */
  lemma {:induction false} ArithmeticIsCalendar(days: nat)
    ensures FromDays(days) == DayByDay(days) && ValidDate(FromDays(days))
  {
    hide FromDays, Tomorrow;
    if days == 0 {
      Epoch();
    } else {
      ArithmeticIsCalendar(days - 1);
      NextDay(days - 1);
      TomorrowValid(FromDays(days - 1));
    }
  }

  // ------------------------------------------------------------------ and back

  lemma EraOf(era: int, yoe: int)
    requires 0 <= yoe < 400
    ensures
      var y := yoe + era * 400;
      Truncate(if y >= 0 then y else y - 399, 400) == era
  {
    if era < 0 {
      var y := yoe + era * 400;
      assert -(y - 399) == 399 - yoe + 400 * -era;
    }
  }

  /** The number of the date at a place of an era, before or after 1970. */
  lemma PlaceNumber(era: int, yoe: int, doy: int)
    requires 0 <= yoe < 400 && 0 <= doy < YearEnd(yoe) - YearStart(yoe)
    ensures ToDays(Civil(era, yoe, doy)) == era * ERA + YearStart(yoe) + doy - SHIFT
  {
    hide MonthStart, MonthOfYear, Truncate;
    YearLength(era, yoe);
    MonthOk(doy);
    EraOf(era, yoe);
  }

  /** Every valid date, of any year, is at a place of an era. */
  lemma DatePlace(a: Date) returns (era: int, yoe: int, doy: int)
    requires ValidDate(a)
    ensures 0 <= yoe < 400 && 0 <= doy < YearEnd(yoe) - YearStart(yoe) && Civil(era, yoe, doy) == a
  {
    var y := if a.month <= 2 then a.year - 1 else a.year;
    var mp := if a.month > 2 then a.month - 3 else a.month + 9;
    era, yoe := y / 400, y % 400;
    doy := MonthStart(mp) + a.day - 1;
    YearLength(era, yoe);
    hide YearStart, YearEnd, MonthLength;
    MonthPlace(a.year, mp, a.day);
  }

  lemma MonthPlace(year: int, mp: int, day: int)
    requires 0 <= mp <= 11 && 1 <= day <= MonthLength(year, if mp < 10 then mp + 3 else mp - 9)
    ensures MonthOfYear(MonthStart(mp) + day - 1) == mp
    ensures 0 <= MonthStart(mp) + day - 1 < (if mp < 11 then 337 else 337 + MonthLength(year, 2))
  {
    if mp < 11 {
      MonthLengths(year, mp);
      MonthOf(mp, MonthStart(mp) + day - 1);
    } else {
      MonthOf(mp, MonthStart(mp) + day - 1);
    }
  }

  /** Reading a computed date back gives the day number. */
  lemma DaysRoundTrip(days: nat)
    ensures ToDays(FromDays(days)) == days
  {
    hide Civil, YearStart, YearEnd, FromDays, ToDays;
    var era, yoe, doy := PlaceOf(days);
    PlaceNumber(era, yoe, doy);
  }

  /** Every valid date from 1970-01-01 on is the date of its number. */
  lemma DateRoundTrip(a: Date)
    requires ValidDate(a) && ToDays(a) >= 0
    ensures FromDays(ToDays(a)) == a
  {
    hide Civil, FromDays, ToDays, ValidDate;
    var era, yoe, doy := DatePlace(a);
    PlaceNumber(era, yoe, doy);
    YearBounds(yoe);
    assert era >= 0 by { EraSign(era, YearStart(yoe) + doy); }
    AtPlace(era, yoe, doy);
  }

  lemma EraSign(era: int, doe: int)
    requires 0 <= doe < ERA && era * ERA + doe - SHIFT >= 0
    ensures era >= 0
  {
  }

  /** Tomorrow's number is one more, for every date before or after 1970. */
  lemma TomorrowNumber(a: Date)
    requires ValidDate(a)
    ensures ToDays(Tomorrow(a)) == ToDays(a) + 1
  {
    hide Civil, YearStart, YearEnd, ToDays, Tomorrow, ValidDate;
    var era, yoe, doy := DatePlace(a);
    PlaceNumber(era, yoe, doy);
    var era', yoe', doy' := NextPlace(era, yoe, doy);
    PlaceNumber(era', yoe', doy');
  }
}
