/**
 UTC calendar arithmetic: days since the epoch and civil dates of the proleptic
 Gregorian calendar.
 */
module Calendar {
  const SECS_PER_DAY := 86_400

  /** Division as the machine does it: the quotient is truncated towards zero. */
  function TruncDiv(a: int, b: int): int
    requires b > 0
  {
    if a >= 0 then a / b else -((-a) / b)
  }

  /** The remainder of `TruncDiv`. */
  function TruncMod(a: int, b: int): int
    requires b > 0
  {
    a - TruncDiv(a, b) * b
  }

  datatype Date = Date(year: int, month: int, day: int)

  predicate IsLeapYear(year: int) {
    (TruncMod(year, 4) == 0 && TruncMod(year, 100) != 0) || TruncMod(year, 400) == 0
  }

  /** Number of days in `month` of `year`; 0 for an invalid month. */
  function DaysInMonth(year: int, month: int): int {
    if month == 2 then (if IsLeapYear(year) then 29 else 28)
    else if month == 4 || month == 6 || month == 9 || month == 11 then 30
    else if 1 <= month <= 12 then 31
    else 0
  }

  predicate IsDate(d: Date) {
    1 <= d.month <= 12 && 1 <= d.day <= DaysInMonth(d.year, d.month)
  }

  /** Days since the epoch to a civil date. */
  function CivilFromDays(z0: int): Date {
    var z := z0 + 719_468;
    var era := TruncDiv(if z >= 0 then z else z - 146_096, 146_097);
    CivilInEra(era, z - era * 146_097)
  }

  /** The civil date of the day `doe` of an era of 400 years. */
  function CivilInEra(era: int, doe: int): Date {
    var yoe := TruncDiv(doe - TruncDiv(doe, 1460) + TruncDiv(doe, 36_524) - TruncDiv(doe, 146_096), 365);
    var y := yoe + era * 400;
    var doy := doe - (365 * yoe + TruncDiv(yoe, 4) - TruncDiv(yoe, 100));
    var mp := TruncDiv(5 * doy + 2, 153);
    var d := doy - TruncDiv(153 * mp + 2, 5) + 1;
    var m := if mp < 10 then mp + 3 else mp - 9;
    Date(if m <= 2 then y + 1 else y, m, d)
  }

  /** A civil date to days since the epoch. */
  function DaysFromCivil(date: Date): int {
    var y := if date.month <= 2 then date.year - 1 else date.year;
    var era := TruncDiv(if y >= 0 then y else y - 399, 400);
    var yoe := y - era * 400;
    var doy := TruncDiv(153 * (if date.month > 2 then date.month - 3 else date.month + 9) + 2, 5) + date.day - 1;
    var doe := yoe * 365 + TruncDiv(yoe, 4) - TruncDiv(yoe, 100) + doy;
    era * 146_097 + doe - 719_468
  }

  // ── The computational year, which begins in March ────────────────────────

  /** Days of an era before its year `yoe`. */
  function YearStart(yoe: int): int {
    365 * yoe + yoe / 4 - yoe / 100
  }

  /** Length of the year `yoe` of an era: a leap day ends the year before a leap year. */
  function YearLength(yoe: int): int {
    if (yoe + 1) % 4 == 0 && ((yoe + 1) % 100 != 0 || yoe == 399) then 366 else 365
  }

  /** Days of a March-based year before its month `mp`. */
  function MonthStart(mp: int): int {
    (153 * mp + 2) / 5
  }

  function YearOfEra(doe: int): int {
    (doe - doe / 1460 + doe / 36_524 - doe / 146_096) / 365
  }

  lemma DivUnique(a: int, d: int, q: int, r: int)
    requires d > 0 && a == d * q + r && 0 <= r < d
    ensures a / d == q
  {
    var q' := a / d;
    assert d * (q - q') < d && d * (q' - q) < d;
    assert q - q' >= 1 ==> d * (q - q') >= d;
    assert q' - q >= 1 ==> d * (q' - q) >= d;
  }

  /** The machine's guarded division is a division rounding down. */
  lemma EraIsFloor(n: int, d: int)
    requires d > 0
    ensures TruncDiv(if n >= 0 then n else n - (d - 1), d) == n / d
  {
    if n < 0 {
      DivUnique(d - 1 - n, d, -(n / d), d - 1 - n % d);
    }
  }

  /** A year of an era by its century, its four-year cycle and its rank there. */
  ghost predicate YearParts(c: int, q: int, k: int, doy: int) {
    && 0 <= c <= 3 && 0 <= q <= 24 && 0 <= k <= 3
    && 0 <= doy <= (if k == 3 && (q < 24 || c == 3) then 365 else 364)
  }

  lemma PartsOfYear(c: int, q: int, k: int, doy: int)
    requires YearParts(c, q, k, doy)
    ensures var y := 100 * c + 4 * q + k;
      && 0 <= y <= 399 && YearStart(y) == 36_524 * c + 1461 * q + 365 * k
      && YearLength(y) == (if k == 3 && (q < 24 || c == 3) then 366 else 365)
  {
    var y := 100 * c + 4 * q + k;
    DivUnique(y, 4, 25 * c + q, k);
    DivUnique(y, 100, c, 4 * q + k);
    if k == 3 {
      DivUnique(y + 1, 4, 25 * c + q + 1, 0);
      if q == 24 {
        DivUnique(y + 1, 100, c + 1, 0);
      } else {
        DivUnique(y + 1, 100, c, 4 * q + 4);
      }
    } else {
      DivUnique(y + 1, 4, 25 * c + q, k + 1);
    }
  }

  /** The closed formula finds the year of every day of the era. */
  lemma YearOfEraOfParts(c: int, q: int, k: int, doy: int)
    requires YearParts(c, q, k, doy)
    ensures YearOfEra(36_524 * c + 1461 * q + 365 * k + doy) == 100 * c + 4 * q + k
  {
    var y, delta := 100 * c + 4 * q + k, if Overrun(c, q, k, doy) >= 1460 then 1 else 0;
    var last := if c == 3 && q == 24 && k == 3 && doy == 365 then 1 else 0;
    CyclesOfParts(c, q, k, doy, delta);
    CenturiesOfParts(c, q, k, doy, last);
    LeapDayLeft(c, q, k, doy, delta);
    DivUnique(365 * y + doy - delta, 365, y, doy - delta);
  }

  /** What is left of a day of the era when its cycles count 1460 days. */
  ghost function Overrun(c: int, q: int, k: int, doy: int): int {
    24 * c + q + 365 * k + doy
  }

  lemma CyclesOfParts(c: int, q: int, k: int, doy: int, delta: int)
    requires YearParts(c, q, k, doy) && delta == (if Overrun(c, q, k, doy) >= 1460 then 1 else 0)
    ensures (36_524 * c + 1461 * q + 365 * k + doy) / 1460 == 25 * c + q + delta
  {
    DivUnique(
      36_524 * c + 1461 * q + 365 * k + doy, 1460, 25 * c + q + delta, Overrun(c, q, k, doy) - 1460 * delta);
  }

  lemma CenturiesOfParts(c: int, q: int, k: int, doy: int, last: int)
    requires YearParts(c, q, k, doy) && last == (if c == 3 && q == 24 && k == 3 && doy == 365 then 1 else 0)
    ensures (36_524 * c + 1461 * q + 365 * k + doy) / 36_524 == c + last
    ensures (36_524 * c + 1461 * q + 365 * k + doy) / 146_096 == last
  {
    var doe := 36_524 * c + 1461 * q + 365 * k + doy;
    DivUnique(doe, 146_096, last, doe - 146_096 * last);
    DivUnique(doe, 36_524, c + last, doe - 36_524 * (c + last));
  }

  lemma LeapDayLeft(c: int, q: int, k: int, doy: int, delta: int)
    requires YearParts(c, q, k, doy) && delta == (if Overrun(c, q, k, doy) >= 1460 then 1 else 0)
    ensures 0 <= doy - delta < 365
  {
  }

  lemma PartsOfDay(doe: int) returns (c: int, q: int, k: int, doy: int)
    requires 0 <= doe < 146_097
    ensures YearParts(c, q, k, doy) && doe == 36_524 * c + 1461 * q + 365 * k + doy
  {
    c := if doe / 36_524 < 4 then doe / 36_524 else 3;
    var r := doe - 36_524 * c;
    q := r / 1461;
    var s := r - 1461 * q;
    k := if s / 365 < 4 then s / 365 else 3;
    doy := s - 365 * k;
  }

  lemma PartsOfYearNumber(y: int) returns (c: int, q: int, k: int)
    requires 0 <= y <= 399
    ensures 0 <= c <= 3 && 0 <= q <= 24 && 0 <= k <= 3 && y == 100 * c + 4 * q + k
  {
    c := y / 100;
    q := (y - 100 * c) / 4;
    k := y - 100 * c - 4 * q;
  }

  /** The year of era is the one whose days contain `doe`. */
  lemma YearOfEraContains(doe: int)
    requires 0 <= doe < 146_097
    ensures 0 <= YearOfEra(doe) <= 399
    ensures YearStart(YearOfEra(doe)) <= doe < YearStart(YearOfEra(doe)) + YearLength(YearOfEra(doe))
  {
    var c, q, k, doy := PartsOfDay(doe);
    YearOfEraContainsParts(c, q, k, doy);
  }

  lemma YearOfEraContainsParts(c: int, q: int, k: int, doy: int)
    requires YearParts(c, q, k, doy)
    ensures
      var doe := 36_524 * c + 1461 * q + 365 * k + doy;
      var y := YearOfEra(doe);
      0 <= y <= 399 && YearStart(y) <= doe < YearStart(y) + YearLength(y)
  {
    YearOfEraOfParts(c, q, k, doy);
    PartsOfYear(c, q, k, doy);
  }

  /** Conversely a day of a year of the era finds that year. */
  lemma YearOfEraFinds(y: int, doy: int)
    requires 0 <= y <= 399 && 0 <= doy < YearLength(y)
    ensures YearOfEra(YearStart(y) + doy) == y
    ensures 0 <= YearStart(y) + doy < 146_097
  {
    var c, q, k := PartsOfYearNumber(y);
    PartsOfYear(c, q, k, 0);
    PartsOfYear(c, q, k, doy);
    YearOfEraOfParts(c, q, k, doy);
  }

  // ── Months of the March-based year ───────────────────────────────────────

  /** Length of the month `mp`, February (11) being as long as its year leaves it. */
  function MonthLength(mp: int, yearLength: int): int {
    if mp == 11 then yearLength - 337
    else if mp == 1 || mp == 3 || mp == 6 || mp == 8 then 30
    else 31
  }

  lemma MonthContains(doy: int, yearLength: int)
    requires 365 <= yearLength <= 366 && 0 <= doy < yearLength
    ensures var mp := (5 * doy + 2) / 153;
      0 <= mp <= 11 && MonthStart(mp) <= doy < MonthStart(mp) + MonthLength(mp, yearLength)
  {
  }

  lemma MonthFinds(mp: int, day: int, yearLength: int)
    requires 365 <= yearLength <= 366 && 0 <= mp <= 11 && 0 <= day < MonthLength(mp, yearLength)
    ensures (5 * (MonthStart(mp) + day) + 2) / 153 == mp
    ensures 0 <= MonthStart(mp) + day < yearLength
  {
  }

  // ── Places in the March-based calendar ───────────────────────────────────

  /** A day by its era, year of era, month and day of month, all but the era from 0. */
  datatype Place = Place(era: int, yoe: int, mp: int, dom: int)

  ghost predicate IsPlace(p: Place) {
    && 0 <= p.yoe <= 399 && 0 <= p.mp <= 11
    && 0 <= p.dom < MonthLength(p.mp, YearLength(p.yoe))
  }

  ghost function DateOf(p: Place): Date {
    var m := if p.mp < 10 then p.mp + 3 else p.mp - 9;
    Date(400 * p.era + p.yoe + (if m <= 2 then 1 else 0), m, p.dom + 1)
  }

  ghost function DayOf(p: Place): int {
    146_097 * p.era + YearStart(p.yoe) + MonthStart(p.mp) + p.dom - 719_468
  }

  lemma SameRemainder(n: int, d: int)
    requires d > 0
    ensures TruncMod(n, d) == 0 <==> n % d == 0
  {
    if n < 0 {
      assert -n == d * ((-n) / d) + (-n) % d;
      if TruncMod(n, d) == 0 {
        DivUnique(n, d, -((-n) / d), 0);
      }
      if n % d == 0 {
        DivUnique(-n, d, -(n / d), 0);
      }
    }
  }

  lemma LeapByEra(era: int, yoe: int)
    requires 0 <= yoe <= 399
    ensures IsLeapYear(400 * era + yoe + 1) <==> YearLength(yoe) == 366
  {
    var y := 400 * era + yoe + 1;
    SameRemainder(y, 4);
    SameRemainder(y, 100);
    SameRemainder(y, 400);
    DivUnique(y, 4, 100 * era + (yoe + 1) / 4, (yoe + 1) % 4);
    DivUnique(y, 100, 4 * era + (yoe + 1) / 100, (yoe + 1) % 100);
    DivUnique(y, 400, era + (yoe + 1) / 400, (yoe + 1) % 400);
  }

  /** The months of a place are as long as the civil months they are. */
  lemma MonthsAgree(p: Place)
    requires 0 <= p.yoe <= 399 && 0 <= p.mp <= 11
    ensures DaysInMonth(DateOf(p).year, DateOf(p).month) == MonthLength(p.mp, YearLength(p.yoe))
  {
    LeapByEra(p.era, p.yoe);
  }

  lemma DayOfYear(p: Place)
    requires IsPlace(p)
    ensures 0 <= MonthStart(p.mp) + p.dom < YearLength(p.yoe)
    ensures (5 * (MonthStart(p.mp) + p.dom) + 2) / 153 == p.mp
  {
    MonthFinds(p.mp, p.dom, YearLength(p.yoe));
  }

  /** A day number has one place. */
  lemma DayHasOnePlace(p: Place, q: Place)
    requires IsPlace(p) && IsPlace(q) && DayOf(p) == DayOf(q)
    ensures p == q
  {
    DayOfYear(p);
    DayOfYear(q);
    var i, j := MonthStart(p.mp) + p.dom, MonthStart(q.mp) + q.dom;
    YearOfEraFinds(p.yoe, i);
    YearOfEraFinds(q.yoe, j);
    assert p.era == q.era;
  }

  /** A date has one place. */
  lemma DateHasOnePlace(p: Place, q: Place)
    requires IsPlace(p) && IsPlace(q) && DateOf(p) == DateOf(q)
    ensures p == q
  {
  }

  lemma PlaceOfCivil(z: int) returns (p: Place)
    ensures IsPlace(p) && DayOf(p) == z && DateOf(p) == CivilFromDays(z)
  {
    var n := z + 719_468;
    var era, doe := n / 146_097, n % 146_097;
    YearOfEraContains(doe);
    var yoe := YearOfEra(doe);
    var doy := doe - YearStart(yoe);
    MonthContains(doy, YearLength(yoe));
    var mp := (5 * doy + 2) / 153;
    p := Place(era, yoe, mp, doy - MonthStart(mp));
    EraOfDay(z, era, doe);
    CivilInEraByParts(era, doe, p);
  }

  lemma EraOfDay(z: int, era: int, doe: int)
    requires doe == z + 719_468 - era * 146_097 && 0 <= doe < 146_097
    ensures CivilFromDays(z) == CivilInEra(era, doe)
  {
    EraByFloor(z + 719_468, era, doe);
  }

  lemma EraByFloor(n: int, era: int, doe: int)
    requires n == 146_097 * era + doe && 0 <= doe < 146_097
    ensures TruncDiv(if n >= 0 then n else n - 146_096, 146_097) == era
  {
    EraIsFloor(n, 146_097);
    DivUnique(n, 146_097, era, doe);
  }

  lemma CivilInEraByParts(era: int, doe: int, p: Place)
    requires 0 <= doe && p.era == era && p.yoe == YearOfEra(doe) && 0 <= p.yoe && 0 <= doe - YearStart(p.yoe)
    requires p.mp == (5 * (doe - YearStart(p.yoe)) + 2) / 153 && p.dom == doe - YearStart(p.yoe) - MonthStart(p.mp)
    ensures CivilInEra(era, doe) == DateOf(p)
  {
    YearByTruncation(doe);
  }

  lemma YearByTruncation(doe: int)
    requires 0 <= doe
    ensures TruncDiv(doe - TruncDiv(doe, 1460) + TruncDiv(doe, 36_524) - TruncDiv(doe, 146_096), 365)
      == YearOfEra(doe)
  {
  }

  lemma PlaceOfDate(d: Date) returns (p: Place)
    requires IsDate(d)
    ensures IsPlace(p) && DateOf(p) == d && DayOf(p) == DaysFromCivil(d)
  {
    var y := if d.month <= 2 then d.year - 1 else d.year;
    EraIsFloor(y, 400);
    p := Place(y / 400, y % 400, if d.month > 2 then d.month - 3 else d.month + 9, d.day - 1);
    assert DateOf(p) == d;
    MonthsAgree(p);
  }

  lemma YearEnds(yoe: int)
    requires 0 <= yoe <= 399
    ensures YearStart(yoe) + YearLength(yoe) == if yoe < 399 then YearStart(yoe + 1) else 146_097
  {
    var c, q, k := PartsOfYearNumber(yoe);
    PartsOfYear(c, q, k, 0);
    if yoe < 399 {
      if k < 3 {
        PartsOfYear(c, q, k + 1, 0);
      } else if q < 24 {
        PartsOfYear(c, q + 1, 0, 0);
      } else {
        PartsOfYear(c + 1, 0, 0, 0);
      }
    }
  }

  /** The day after, by the calendar alone. */
  function NextDay(d: Date): Date {
    if d.day < DaysInMonth(d.year, d.month) then d.(day := d.day + 1)
    else if d.month < 12 then Date(d.year, d.month + 1, 1)
    else Date(d.year + 1, 1, 1)
  }

  /** The place after a place is the next date and the next day number. */
  lemma NextPlace(p: Place) returns (q: Place)
    requires IsPlace(p)
    ensures IsPlace(q) && DayOf(q) == DayOf(p) + 1 && DateOf(q) == NextDay(DateOf(p))
  {
    MonthsAgree(p);
    if p.dom + 1 < MonthLength(p.mp, YearLength(p.yoe)) {
      q := p.(dom := p.dom + 1);
    } else if p.mp < 11 {
      q := Place(p.era, p.yoe, p.mp + 1, 0);
    } else {
      YearEnds(p.yoe);
      q := if p.yoe < 399 then Place(p.era, p.yoe + 1, 0, 0) else Place(p.era + 1, 0, 0, 0);
    }
  }

  predicate Before(a: Date, b: Date) {
    || a.year < b.year
    || (a.year == b.year && a.month < b.month)
    || (a.year == b.year && a.month == b.month && a.day < b.day)
  }

  lemma {:induction false} LaterPlaceLaterDate(p: Place, q: Place)
    requires IsPlace(p) && IsPlace(q) && DayOf(p) < DayOf(q)
    ensures Before(DateOf(p), DateOf(q))
    decreases DayOf(q) - DayOf(p)
  {
    var r := NextPlace(p);
    if DayOf(r) == DayOf(q) {
      DayHasOnePlace(r, q);
    } else {
      LaterPlaceLaterDate(r, q);
    }
  }

  // ── The theorems ─────────────────────────────────────────────────────────

  /** Every day number is a real date, and the date gives the number back. */
  lemma CivilRoundTrip(z: int)
    ensures IsDate(CivilFromDays(z)) && DaysFromCivil(CivilFromDays(z)) == z
  {
    var p := PlaceOfCivil(z);
    MonthsAgree(p);
    var q := PlaceOfDate(DateOf(p));
    DateHasOnePlace(p, q);
  }

  /** Every real date is the date of its day number. */
  lemma DaysRoundTrip(d: Date)
    requires IsDate(d)
    ensures CivilFromDays(DaysFromCivil(d)) == d
  {
    var p := PlaceOfDate(d);
    var q := PlaceOfCivil(DayOf(p));
    DayHasOnePlace(p, q);
  }

  /** The conversion is the calendar counted day by day: each number's
      successor is the next date. */
  lemma CountsTheCalendar(z: int)
    ensures CivilFromDays(z + 1) == NextDay(CivilFromDays(z))
  {
    var p := PlaceOfCivil(z);
    var q := NextPlace(p);
    var r := PlaceOfCivil(z + 1);
    DayHasOnePlace(q, r);
  }

  lemma EpochPlace(q: Place)
    requires IsPlace(q)
    ensures DayOf(q) == 0 <==> DateOf(q) == Date(1970, 1, 1)
  {
    var p := Place(4, 369, 10, 0);
    if DayOf(q) == 0 {
      DayHasOnePlace(p, q);
    }
    if DateOf(q) == Date(1970, 1, 1) {
      DateHasOnePlace(p, q);
    }
  }

  /** Day 0 is 1970-01-01, and only it. */
  lemma Epoch(z: int)
    ensures z == 0 <==> CivilFromDays(z) == Date(1970, 1, 1)
  {
    var q := PlaceOfCivil(z);
    EpochPlace(q);
  }

  /** Dates are ordered as their day numbers are. */
  lemma KeepsOrder(a: Date, b: Date)
    requires IsDate(a) && IsDate(b)
    ensures Before(a, b) <==> DaysFromCivil(a) < DaysFromCivil(b)
  {
    var p := PlaceOfDate(a);
    var q := PlaceOfDate(b);
    PlacesKeepOrder(p, q);
  }

  lemma PlacesKeepOrder(p: Place, q: Place)
    requires IsPlace(p) && IsPlace(q)
    ensures Before(DateOf(p), DateOf(q)) <==> DayOf(p) < DayOf(q)
  {
    if DayOf(p) < DayOf(q) {
      LaterPlaceLaterDate(p, q);
    } else if DayOf(q) < DayOf(p) {
      LaterPlaceLaterDate(q, p);
    } else {
      DayHasOnePlace(p, q);
    }
  }
}
