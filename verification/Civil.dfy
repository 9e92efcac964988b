/**
 The calendar of the build stamp: days since 1970-01-01 to a date of the proleptic
 Gregorian calendar (leap rule as in Appendix C of RFC 3339), for every day number.
 */
module Civil {
  import opened Arith

  datatype Date = Date(year: int, month: int, day: int)

  predicate IsLeap(y: int)
  {
    y % 4 == 0 && (y % 100 != 0 || y % 400 == 0)
  }

  function DaysInMonth(y: int, m: int): (n: int)
  {
    if m == 2 then (if IsLeap(y) then 29 else 28)
    else if m == 4 || m == 6 || m == 9 || m == 11 then 30
    else 31
  }

  predicate IsDate(d: Date)
  {
    1 <= d.month <= 12 && 1 <= d.day <= DaysInMonth(d.year, d.month)
  }

  /** The next day of the calendar. */
  function Successor(d: Date): (s: Date)
  {
    if d.day < DaysInMonth(d.year, d.month) then d.(day := d.day + 1)
    else if d.month < 12 then Date(d.year, d.month + 1, 1)
    else Date(d.year + 1, 1, 1)
  }

  /** Year of a 400-year era that starts on 1 March, from the day of the era. */
  function YearOfEra(doe: int): (y: int)
  {
    (doe - doe / 1460 + doe / 36524 - doe / 146096) / 365
  }

  /** Days since 1970-01-01 to a civil date. */
  function CivilFromDays(days: int): (r: Date)
  {
    var shifted := days + 719468;
    var era := shifted / 146097;
    var doe := shifted % 146097;
    var yoe := YearOfEra(doe);
    var year := yoe + era * 400;
    var doy := doe - (365 * yoe + yoe / 4 - yoe / 100);
    var mp := (5 * doy + 2) / 153;
    var day := doy - (153 * mp + 2) / 5 + 1;
    var month := if mp < 10 then mp + 3 else mp - 9;
    Date(if month <= 2 then year + 1 else year, month, day)
  }

  // Years counted from 1 March, so that the leap day is the last of its year.

  /** Days before 1 March of year y, counted from 1 March of year 0. */
  function Start(y: int): (d: int)
  {
    365 * y + y / 4 - y / 100 + y / 400
  }

  /** Days of the year that begins on 1 March of year y. */
  function Length(y: int): (n: int)
  {
    if IsLeap(y + 1) then 366 else 365
  }

  lemma StartNext(y: int)
    ensures Start(y + 1) == Start(y) + Length(y)
  {
    assert (y + 1) / 4 == y / 4 + if (y + 1) % 4 == 0 then 1 else 0;
    assert (y + 1) / 100 == y / 100 + if (y + 1) % 100 == 0 then 1 else 0;
    assert (y + 1) / 400 == y / 400 + if (y + 1) % 400 == 0 then 1 else 0;
  }

  lemma {:induction false} StartMonotone(x: int, y: int)
    requires x < y
    ensures Start(x) + Length(x) <= Start(y)
    decreases y - x
  {
    StartNext(x);
    if x + 1 < y {
      StartMonotone(x + 1, y);
    }
  }

  /** Days before month position mp, March being 0. */
  function MonthStart(mp: int): (d: int)
  {
    (153 * mp + 2) / 5
  }

  /** The calendar month at a month position. */
  function MonthOf(mp: int): (m: int)
  {
    if mp < 10 then mp + 3 else mp - 9
  }

  /** The date of day doy of the year that begins on 1 March of year y. */
  function DateOf(y: int, doy: int): (d: Date)
  {
    var mp := (5 * doy + 2) / 153;
    Date(if MonthOf(mp) <= 2 then y + 1 else y, MonthOf(mp), doy - MonthStart(mp) + 1)
  }

  /** Century, four-year cycle, year and day of a day of the era. */
  lemma EraParts(doe: int) returns (c: int, q: int, r: int, d: int)
    requires 0 <= doe < 146097
    ensures 0 <= c < 4 && 0 <= q < 25 && 0 <= r < 4 && 0 <= d <= 365
    ensures doe == 36524 * c + 1461 * q + 365 * r + d
    ensures d == 365 ==> r == 3 && (q < 24 || c == 3)
  {
    c := if doe / 36524 < 4 then doe / 36524 else 3;
    var x := doe - 36524 * c;
    q := x / 1461;
    var z := x - 1461 * q;
    r := if z / 365 < 4 then z / 365 else 3;
    d := z - 365 * r;
  }

  function Div(x: int, m: int): (q: int)
    requires m > 0
  {
    x / m
  }

  lemma Quotient(x: int, m: int, q: int)
    requires m > 0 && m * q <= x < m * q + m
    ensures Div(x, m) == q
  {
    DivModUnique(q, x - m * q, m);
    Commutes(m, q);
  }

  /** The era's last day counts into a century of its own, and is taken back. */
  lemma CenturyOf(c: int, x: int)
    requires 0 <= c < 4 && 0 <= x <= 36524 && (x == 36524 ==> c == 3)
    ensures Div(36524 * c + x, 36524) - Div(36524 * c + x, 146096) == c
  {
    if x < 36524 {
      Quotient(36524 * c + x, 36524, c);
    }
  }

  /** Whether the day counts into a four-year cycle too many, which then is a day of the year less. */
  lemma LateBy(c: int, q: int, r: int, d: int) returns (late: int)
    requires 0 <= c < 4 && 0 <= q < 25 && 0 <= r < 4 && 0 <= d <= 365
    requires d == 365 ==> r == 3 && (q < 24 || c == 3)
    ensures 0 <= d - late < 365
    ensures var x := 1461 * q + 365 * r + d; 0 <= x <= 36524 && (x == 36524 ==> c == 3)
    ensures var doe := 36524 * c + 1461 * q + 365 * r + d;
      1460 * (25 * c + q + late) <= doe < 1460 * (25 * c + q + late) + 1460
  {
    late := if 24 * c + q + 365 * r + d >= 1460 then 1 else 0;
  }

  lemma YearOfEraBy(doe: int, cycles: int, century: int)
    requires Div(doe, 1460) == cycles && Div(doe, 36524) - Div(doe, 146096) == century
    ensures YearOfEra(doe) == Div(doe - cycles + century, 365)
  {
  }

  /** The closed form finds the year of the era. */
  lemma YearOfEraIs(c: int, q: int, r: int, d: int)
    requires 0 <= c < 4 && 0 <= q < 25 && 0 <= r < 4 && 0 <= d <= 365
    requires d == 365 ==> r == 3 && (q < 24 || c == 3)
    ensures YearOfEra(36524 * c + 1461 * q + 365 * r + d) == 100 * c + 4 * q + r
  {
    hide YearOfEra, Div;
    var doe := 36524 * c + 1461 * q + 365 * r + d;
    var late := LateBy(c, q, r, d);
    Quotient(doe, 1460, 25 * c + q + late);
    CenturyOf(c, 1461 * q + 365 * r + d);
    Quotient(doe - (25 * c + q + late) + c, 365, 100 * c + 4 * q + r);
    YearOfEraBy(doe, 25 * c + q + late, c);
  }

  lemma StartOfEraYear(era: int, c: int, q: int, r: int)
    requires 0 <= c < 4 && 0 <= q < 25 && 0 <= r < 4
    ensures Start(400 * era + 100 * c + 4 * q + r) == 146097 * era + 36524 * c + 1461 * q + 365 * r
  {
    var y := 400 * era + 100 * c + 4 * q + r;
    assert y / 4 == 100 * era + 25 * c + q by { DivModUnique(100 * era + 25 * c + q, r, 4); }
    assert y / 100 == 4 * era + c by { DivModUnique(4 * era + c, 4 * q + r, 100); }
    assert y / 400 == era by { DivModUnique(era, 100 * c + 4 * q + r, 400); }
  }

  /** The year after the last of a four-year cycle is leap, but for three century ends out of four. */
  lemma LeapOfEraYear(era: int, c: int, q: int)
    requires 0 <= c < 4 && 0 <= q < 25 && (q < 24 || c == 3)
    ensures IsLeap(400 * era + 100 * c + 4 * q + 4)
  {
    var y := 400 * era + 100 * c + 4 * q + 4;
    assert y % 4 == 0 by { DivModUnique(100 * era + 25 * c + q + 1, 0, 4); }
    if q < 24 {
      assert y % 100 == 4 * q + 4 by { DivModUnique(4 * era + c, 4 * q + 4, 100); }
    } else {
      assert y % 400 == 0 by { DivModUnique(era + 1, 0, 400); }
    }
  }

  /** Every day lies in a March year, and the date is read off there. */
  lemma Parts(days: int) returns (y: int, doy: int)
    ensures days + 719468 == Start(y) + doy && 0 <= doy < Length(y)
    ensures CivilFromDays(days) == DateOf(y, doy)
  {
    hide IsLeap, Start, YearOfEra, CivilFromDays, DateOf;
    var era, doe := (days + 719468) / 146097, (days + 719468) % 146097;
    var c, q, r, d := EraParts(doe);
    YearOfEraIs(c, q, r, d);
    StartOfEraYear(era, c, q, r);
    if d == 365 {
      LeapOfEraYear(era, c, q);
    }
    y, doy := 400 * era + 100 * c + 4 * q + r, d;
    var yoe := 100 * c + 4 * q + r;
    Quotient(yoe, 4, 25 * c + q);
    Quotient(yoe, 100, c);
    ReadOff(days, era, doe, yoe, d);
  }

  /** The date is read off the year and day of the era. */
  lemma ReadOff(days: int, era: int, doe: int, yoe: int, doy: int)
    requires (days + 719468) / 146097 == era && (days + 719468) % 146097 == doe && YearOfEra(doe) == yoe
    requires doe - (365 * yoe + yoe / 4 - yoe / 100) == doy
    ensures CivilFromDays(days) == DateOf(yoe + 400 * era, doy)
  {
    hide YearOfEra;
  }

  lemma PartsUnique(y: int, doy: int, y': int, doy': int)
    requires 0 <= doy < Length(y) && 0 <= doy' < Length(y') && Start(y) + doy == Start(y') + doy'
    ensures y == y' && doy == doy'
  {
    if y < y' {
      StartMonotone(y, y');
    } else if y' < y {
      StartMonotone(y', y);
    }
  }

  /** Dates of a March year: valid, in calendar order, ending on the last day of February. */
  lemma DateOfValid(y: int, doy: int)
    requires 0 <= doy < Length(y)
    ensures IsDate(DateOf(y, doy))
  {
  }

  /** The month position a day of the year falls in. */
  lemma MonthAt(doy: int) returns (mp: int)
    requires 0 <= doy <= 365
    ensures 0 <= mp <= 11 && MonthStart(mp) <= doy < MonthStart(mp + 1)
    ensures forall y :: DateOf(y, doy) == Date(if MonthOf(mp) <= 2 then y + 1 else y, MonthOf(mp), doy - MonthStart(mp) + 1)
  {
    mp := (5 * doy + 2) / 153;
  }

  /** Month starts are a month's length apart, but for February, which ends the year. */
  lemma MonthsApart(mp: int, y: int)
    requires 0 <= mp < 11
    ensures MonthStart(mp + 1) - MonthStart(mp) == DaysInMonth(y, MonthOf(mp))
    ensures MonthOf(mp) < 12 ==> MonthOf(mp + 1) == MonthOf(mp) + 1
    ensures MonthOf(mp) == 12 ==> mp == 9
  {
    hide IsLeap;
  }

  /** The month position of the next day is the same, or the next on its first day. */
  lemma NextMonth(doy: int, mp: int, next: int)
    requires 0 <= doy < 365 && 0 <= mp <= 11 && 0 <= next <= 11
    requires MonthStart(mp) <= doy < MonthStart(mp + 1) && MonthStart(next) <= doy + 1 < MonthStart(next + 1)
    ensures if doy + 1 < MonthStart(mp + 1) then next == mp else next == mp + 1 && MonthStart(next) == doy + 1
  {
  }

  lemma DateOfNext(y: int, doy: int)
    requires 0 <= doy < Length(y)
    ensures Successor(DateOf(y, doy)) == if doy + 1 < Length(y) then DateOf(y, doy + 1) else DateOf(y + 1, 0)
  {
    hide IsLeap, DateOf;
    var mp := MonthAt(doy);
    if doy + 1 < Length(y) {
      var next := MonthAt(doy + 1);
      NextMonth(doy, mp, next);
      if mp < 11 {
        MonthsApart(mp, if MonthOf(mp) <= 2 then y + 1 else y);
      }
    } else {
      var next := MonthAt(0);
    }
  }

  /** Every day number has a valid date. */
  lemma CivilValid(days: int)
    ensures IsDate(CivilFromDays(days))
  {
    var y, doy := Parts(days);
    DateOfValid(y, doy);
  }

  /** Day 0 is 1 January 1970. */
  lemma CivilEpoch()
    ensures CivilFromDays(0) == Date(1970, 1, 1)
  {
    assert 719468 / 146097 == 4 && 719468 % 146097 == 135080;
    assert YearOfEra(135080) == 369;
  }

  /** The date of the next day is the calendar's next date, over month, year, century and era ends. */
  lemma CivilSuccessor(days: int)
    ensures CivilFromDays(days + 1) == Successor(CivilFromDays(days))
  {
    var y, doy := Parts(days);
    var y', doy' := Parts(days + 1);
    hide CivilFromDays, Start, DateOf, Successor;
    DateOfNext(y, doy);
    if doy + 1 < Length(y) {
      PartsUnique(y, doy + 1, y', doy');
    } else {
      StartNext(y);
      PartsUnique(y + 1, 0, y', doy');
    }
  }

  /** The day number of a date: days counted from 1970-01-01. */
  function DayNumber(d: Date): (n: int)
  {
    var y := if d.month <= 2 then d.year - 1 else d.year;
    var mp := if d.month <= 2 then d.month + 9 else d.month - 3;
    Start(y) + MonthStart(mp) + d.day - 1 - 719468
  }

  /** The date's place in its March year. */
  lemma Place(d: Date) returns (y: int, doy: int)
    requires IsDate(d)
    ensures 0 <= doy < Length(y) && DateOf(y, doy) == d && DayNumber(d) == Start(y) + doy - 719468
  {
    y := if d.month <= 2 then d.year - 1 else d.year;
    var mp := if d.month <= 2 then d.month + 9 else d.month - 3;
    doy := MonthStart(mp) + d.day - 1;
    assert (5 * doy + 2) / 153 == mp;
  }

  /** Counting days and reading dates are inverse: the conversion is a bijection onto the valid dates. */
  lemma CivilInverse(days: int, d: Date)
    ensures DayNumber(CivilFromDays(days)) == days
    ensures IsDate(d) ==> CivilFromDays(DayNumber(d)) == d
  {
    var y, doy := Parts(days);
    CivilValid(days);
    var y', doy' := Place(CivilFromDays(days));
    DateOfInjective(y, doy, y', doy');
    if IsDate(d) {
      var u, k := Place(d);
      var u', k' := Parts(DayNumber(d));
      PartsUnique(u, k, u', k');
    }
  }

  /** The day number counts: 0 at the epoch, one more at every next date. */
  lemma DayNumberCounts(d: Date)
    ensures DayNumber(Date(1970, 1, 1)) == 0
    ensures IsDate(d) ==> IsDate(Successor(d)) && DayNumber(Successor(d)) == DayNumber(d) + 1
  {
    hide CivilFromDays, DayNumber, Successor, IsDate;
    CivilEpoch();
    CivilInverse(0, d);
    if IsDate(d) {
      CivilSuccessor(DayNumber(d));
      CivilValid(DayNumber(d) + 1);
      CivilInverse(DayNumber(d) + 1, d);
    }
  }

  lemma DateOfInjective(y: int, doy: int, y': int, doy': int)
    requires 0 <= doy < Length(y) && 0 <= doy' < Length(y') && DateOf(y, doy) == DateOf(y', doy')
    ensures y == y' && doy == doy'
  {
  }
}
