/** Instants as ISO-8601 text, and back. */
module IsoText {
  import opened Prelude
  import opened Text
  import opened Calendar

  const MAX_YEAR := 999_999

  datatype Clock = Clock(date: Date, hour: int, minute: int, second: int)

  /** Unix milliseconds to a UTC date and time; before the epoch is the epoch. */
  function MsToCivil(ms: int): Clock {
    var whole := ms / 1000;
    var secs := if whole > 0 then whole else 0;
    ClockOf(secs / SECS_PER_DAY, secs % SECS_PER_DAY)
  }

  function ClockOf(days: int, rem: int): Clock {
    Clock(CivilFromDays(days), rem / 3600, (rem % 3600) / 60, rem % 60)
  }

  /** The text of a date and time of year 0 or later. */
  function IsoOf(c: Clock): string
    requires c.date.year >= 0 && c.date.month >= 0 && c.date.day >= 0
    requires c.hour >= 0 && c.minute >= 0 && c.second >= 0
  {
    Padded(c.date.year, 4) + "-" + Padded(c.date.month, 2) + "-" + Padded(c.date.day, 2) + "T"
    + Padded(c.hour, 2) + ":" + Padded(c.minute, 2) + ":" + Padded(c.second, 2) + "Z"
  }

  /** `day as u32`: the low 32 bits. */
  function U32(n: int): int {
    n % 0x1_0000_0000
  }

  function CheckedMul(a: Option<int>, b: int): Option<int> {
    if a.None? then None else CheckedI64(a.value * b)
  }

  function CheckedAdd(a: Option<int>, b: int): Option<int> {
    if a.None? then None else CheckedI64(a.value + b)
  }

  /** The numbers a datetime text may be made of, the day of 32 bits. */
  predicate Accepts(year: int, month: int, day: int, hour: int, minute: int, second: int) {
    && 0 <= year <= MAX_YEAR && 1 <= month <= 12
    && 1 <= day <= DaysInMonth(year, month)
    && 0 <= hour <= 23 && 0 <= minute <= 59 && 0 <= second <= 60
  }

  /** Days and seconds scaled to milliseconds, each step checked for overflow. */
  function Scaled(days: int, seconds: int): Option<int> {
    CheckedMul(CheckedAdd(CheckedMul(Some(days), SECS_PER_DAY), seconds), 1000)
  }

  /** The instant of the numbers a datetime text is made of; the day is cast. */
  function FieldsToMs(year: int, month: int, day: int, hour: int, minute: int, second: int): Option<int> {
    CastToMs(year, month, U32(day), hour, minute, second)
  }

  function CastToMs(year: int, month: int, day: int, hour: int, minute: int, second: int): Option<int> {
    if !Accepts(year, month, day, hour, minute, second) then None
    else Scaled(DaysFromCivil(Date(year, month, day)), hour * 3600 + minute * 60 + second)
  }

  /** Index of the first `T` or space. */
  function DateEnd(s: string): (i: nat)
    ensures i <= |s|
    ensures forall j :: 0 <= j < i ==> s[j] != 'T' && s[j] != ' '
    ensures i < |s| ==> s[i] == 'T' || s[i] == ' '
  {
    if s == "" || s[0] == 'T' || s[0] == ' ' then 0 else 1 + DateEnd(s[1..])
  }

  /** The pieces of the date and those of the time. */
  function IsoPieces(input: string): (r: (seq<string>, seq<string>))
    ensures |r.0| >= 1 && |r.1| >= 1
  {
    var trimmed := Trim(input);
    var s := if trimmed != "" && trimmed[|trimmed| - 1] == 'Z' then trimmed[..|trimmed| - 1] else trimmed;
    var k := DateEnd(s);
    var (date, time) := if k < |s| then (s[..k], s[k + 1..]) else (s, "00:00:00");
    (Split(date, '-'), Split(time, ':'))
  }

  /** Minimal ISO-8601 to Unix milliseconds. */
  function IsoToMs(input: string): Option<int> {
    var (d, t) := IsoPieces(input);
    PiecesToMs(d, t)
  }

  function PiecesToMs(d: seq<string>, t: seq<string>): Option<int>
    requires |d| >= 1 && |t| >= 1
  {
    var year := ParseI64(d[0]);
    var month := if |d| > 1 then ParseI64(d[1]) else Some(1);
    var day := if |d| > 2 then ParseI64(d[2]) else Some(1);
    var hour := ParseI64(t[0]);
    var minute := ParseI64(if |t| > 1 then t[1] else "0");
    var second := ParseI64(if |t| > 2 then t[2] else "0");
    if |d| > 3 || |t| > 3 then None
    else if year.None? || month.None? || day.None? || hour.None? || minute.None? || second.None? then None
    else FieldsToMs(year.value, month.value, day.value, hour.value, minute.value, second.value)
  }

  // ── The numbers ──────────────────────────────────────────────────────────

  lemma DayBounds(d: Date)
    requires IsDate(d) && 0 <= d.year <= MAX_YEAR
    ensures -1_000_000 <= DaysFromCivil(d) <= 366_000_000
  {
    var p := PlaceOfDate(d);
    PlaceBounds(p);
  }

  lemma PlaceBounds(p: Place)
    requires IsPlace(p) && 0 <= DateOf(p).year <= MAX_YEAR
    ensures -1_000_000 <= DayOf(p) <= 366_000_000
  {
    DayOfYear(p);
    YearOfEraFinds(p.yoe, MonthStart(p.mp) + p.dom);
  }

  /** No step of the scaling overflows. */
  lemma ScaledFits(days: int, seconds: int)
    requires -1_000_000 <= days <= 366_000_000 && 0 <= seconds <= 100_000
    ensures Scaled(days, seconds) == Some(1000 * (SECS_PER_DAY * days + seconds))
  {
  }

  /** A real day is read as it is. */
  lemma DayFits(d: Date)
    requires IsDate(d)
    ensures 1 <= d.day <= 31 && U32(d.day) == d.day
  {
    assert DaysInMonth(d.year, d.month) <= 31;
    LowBits(d.day, 0);
  }

  /** The instant of a real date and time, a leap second allowed. */
  lemma FieldsOfDate(d: Date, hour: int, minute: int, second: int)
    requires IsDate(d) && 0 <= d.year <= MAX_YEAR && 0 <= hour <= 23 && 0 <= minute <= 59 && 0 <= second <= 60
    ensures FieldsToMs(d.year, d.month, d.day, hour, minute, second)
         == Some(1000 * (SECS_PER_DAY * DaysFromCivil(d) + (hour * 3600 + minute * 60 + second)))
  {
    DayFits(d);
    assert Date(d.year, d.month, U32(d.day)) == d;
    DayBounds(d);
    ScaledFits(DaysFromCivil(d), hour * 3600 + minute * 60 + second);
  }

  /** The numbers refused, exactly: those that name no date or time once the
      day is read modulo 2^32. */
  lemma FieldsAccepted(year: int, month: int, day: int, hour: int, minute: int, second: int)
    ensures FieldsToMs(year, month, day, hour, minute, second).Some? <==>
      (&& 0 <= year <= MAX_YEAR && IsDate(Date(year, month, U32(day)))
       && 0 <= hour <= 23 && 0 <= minute <= 59 && 0 <= second <= 60)
  {
    var d := Date(year, month, U32(day));
    if Accepts(year, month, U32(day), hour, minute, second) {
      LowBits(U32(day), 0);
      FieldsOfDate(d, hour, minute, second);
    }
  }

  lemma LowBits(n: int, k: int)
    requires 0 <= n < 0x1_0000_0000
    ensures U32(n + k * 0x1_0000_0000) == n
  {
    DivUnique(n + k * 0x1_0000_0000, 0x1_0000_0000, k, n);
  }

  /** A day beyond its month is not always refused: one larger by a multiple of
      2^32 is no day of any month, and reads as the smaller. */
  lemma OversizedDayAccepted(d: Date, k: nat, hour: int, minute: int, second: int)
    requires IsDate(d) && 0 <= d.year <= MAX_YEAR && k > 0
    requires 0 <= hour <= 23 && 0 <= minute <= 59 && 0 <= second <= 60
    ensures !IsDate(Date(d.year, d.month, d.day + k * 0x1_0000_0000))
    ensures FieldsToMs(d.year, d.month, d.day + k * 0x1_0000_0000, hour, minute, second).Some?
    ensures FieldsToMs(d.year, d.month, d.day + k * 0x1_0000_0000, hour, minute, second)
         == FieldsToMs(d.year, d.month, d.day, hour, minute, second)
  {
    DayFits(d);
    LowBits(d.day, k);
    FieldsOfDate(d, hour, minute, second);
  }

  /** The clock of a second of a day holds that day and that second. */
  lemma ClockParts(days: int, rem: int)
    requires 0 <= rem < SECS_PER_DAY
    ensures var c := ClockOf(days, rem);
      && IsDate(c.date) && DaysFromCivil(c.date) == days
      && 0 <= c.hour <= 23 && 0 <= c.minute <= 59 && 0 <= c.second <= 59
      && rem == c.hour * 3600 + c.minute * 60 + c.second
  {
    CivilRoundTrip(days);
    SecondOfDay(rem);
  }

  lemma SecondOfDay(rem: int)
    requires 0 <= rem < SECS_PER_DAY
    ensures 0 <= rem / 3600 <= 23 && 0 <= (rem % 3600) / 60 <= 59 && 0 <= rem % 60 <= 59
    ensures rem == (rem / 3600) * 3600 + ((rem % 3600) / 60) * 60 + rem % 60
  {
  }

  lemma FieldsOf(c: Clock, days: int, rem: int)
    requires IsDate(c.date) && 0 <= c.date.year <= MAX_YEAR && DaysFromCivil(c.date) == days
    requires 0 <= c.hour <= 23 && 0 <= c.minute <= 59 && 0 <= c.second <= 59
    requires rem == c.hour * 3600 + c.minute * 60 + c.second
    ensures FieldsToMs(c.date.year, c.date.month, c.date.day, c.hour, c.minute, c.second)
      == Some(1000 * (SECS_PER_DAY * days + rem))
  {
    FieldsOfDate(c.date, c.hour, c.minute, c.second);
  }

  // ── The text ─────────────────────────────────────────────────────────────

  lemma {:induction false} DateEndAt(a: string, b: string)
    requires (forall i :: 0 <= i < |a| ==> a[i] != 'T' && a[i] != ' ')
    ensures DateEnd(a + "T" + b) == |a|
  {
    if a != "" {
      assert (a + "T" + b)[1..] == a[1..] + "T" + b;
      DateEndAt(a[1..], b);
    }
  }

  lemma TrimNothing(s: string)
    requires s != "" && !IsWhitespace(s[0]) && !IsWhitespace(s[|s| - 1])
    ensures Trim(s) == s
  {
  }

  /** Two or three numbers joined by a separator split back. */
  lemma SplitThree(a: string, b: string, c: string, sep: char)
    requires sep !in a && sep !in b && sep !in c
    ensures Split(a + [sep] + b + [sep] + c, sep) == [a, b, c]
  {
    assert a + [sep] + b + [sep] + c == a + [sep] + (b + [sep] + c);
    SplitAtFirst(a, sep, b + [sep] + c);
    SplitAtFirst(b, sep, c);
    SplitPlain(c, sep);
  }

  lemma PiecesOfText(date: string, time: string)
    requires date != "" && time != "" && !IsWhitespace(date[0])
    requires forall i :: 0 <= i < |date| ==> date[i] != 'T' && date[i] != ' '
    ensures IsoPieces(date + "T" + time + "Z") == (Split(date, '-'), Split(time, ':'))
  {
    var text, s := date + "T" + time + "Z", date + "T" + time;
    TrimNothing(text);
    assert text[..|text| - 1] == s;
    DateEndAt(date, time);
    assert s[..|date|] == date && s[|date| + 1..] == time;
  }

  lemma DateText(c: Clock)
    requires c.date.year >= 0 && c.date.month >= 0 && c.date.day >= 0
    ensures var date := Padded(c.date.year, 4) + "-" + Padded(c.date.month, 2) + "-" + Padded(c.date.day, 2);
      && date != "" && !IsWhitespace(date[0]) && (forall i :: 0 <= i < |date| ==> date[i] != 'T' && date[i] != ' ')
      && Split(date, '-') == [Padded(c.date.year, 4), Padded(c.date.month, 2), Padded(c.date.day, 2)]
  {
    var y, mo, d := Padded(c.date.year, 4), Padded(c.date.month, 2), Padded(c.date.day, 2);
    SplitThree(y, mo, d, '-');
    assert IsDigit(y[0]);
  }

  lemma ParsePieces(c: Clock)
    requires 0 <= c.date.year <= MAX_YEAR && 0 <= c.date.month <= 99 && 0 <= c.date.day <= 99
    requires 0 <= c.hour <= 99 && 0 <= c.minute <= 99 && 0 <= c.second <= 99
    ensures PiecesToMs([Padded(c.date.year, 4), Padded(c.date.month, 2), Padded(c.date.day, 2)],
                       [Padded(c.hour, 2), Padded(c.minute, 2), Padded(c.second, 2)])
         == FieldsToMs(c.date.year, c.date.month, c.date.day, c.hour, c.minute, c.second)
  {
    ParsePadded(c.date.year, 4);
    ParsePadded(c.date.month, 2);
    ParsePadded(c.date.day, 2);
    ParsePadded(c.hour, 2);
    ParsePadded(c.minute, 2);
    ParsePadded(c.second, 2);
  }

  /** The text of a date and time reads as its numbers. */
  lemma IsoReads(c: Clock)
    requires 0 <= c.date.year <= MAX_YEAR && 0 <= c.date.month <= 99 && 0 <= c.date.day <= 99
    requires 0 <= c.hour <= 99 && 0 <= c.minute <= 99 && 0 <= c.second <= 99
    ensures IsoToMs(IsoOf(c)) == FieldsToMs(c.date.year, c.date.month, c.date.day, c.hour, c.minute, c.second)
  {
    PiecesOfIso(c);
    ParsePieces(c);
  }

  lemma PiecesOfIso(c: Clock)
    requires c.date.year >= 0 && c.date.month >= 0 && c.date.day >= 0
    requires c.hour >= 0 && c.minute >= 0 && c.second >= 0
    ensures IsoPieces(IsoOf(c)) ==
      ([Padded(c.date.year, 4), Padded(c.date.month, 2), Padded(c.date.day, 2)],
       [Padded(c.hour, 2), Padded(c.minute, 2), Padded(c.second, 2)])
  {
    var y, mo, d := Padded(c.date.year, 4), Padded(c.date.month, 2), Padded(c.date.day, 2);
    var h, mi, sec := Padded(c.hour, 2), Padded(c.minute, 2), Padded(c.second, 2);
    DateText(c);
    SplitThree(h, mi, sec, ':');
    IsoParts(y, mo, d, h, mi, sec);
    PiecesOfText(y + "-" + mo + "-" + d, h + ":" + mi + ":" + sec);
  }

  lemma IsoParts(y: string, mo: string, d: string, h: string, mi: string, sec: string)
    ensures y + "-" + mo + "-" + d + "T" + h + ":" + mi + ":" + sec + "Z"
         == (y + "-" + mo + "-" + d) + "T" + (h + ":" + mi + ":" + sec) + "Z"
  {
  }

  lemma SinceEpoch(days: int)
    requires days >= 0
    ensures CivilFromDays(days).year >= 1970
  {
    var p := PlaceOfCivil(days);
    var epoch := Place(4, 369, 10, 0);
    PlacesKeepOrder(p, epoch);
  }

  lemma ClockIsNatural(ms: int)
    ensures var c := MsToCivil(ms);
      && c.date.year >= 1970 && 1 <= c.date.month <= 12 && 1 <= c.date.day <= 31
      && 0 <= c.hour <= 23 && 0 <= c.minute <= 59 && 0 <= c.second <= 59
  {
    var secs := if ms / 1000 > 0 then ms / 1000 else 0;
    var days, rem := secs / SECS_PER_DAY, secs % SECS_PER_DAY;
    SinceEpoch(days);
    ClockParts(days, rem);
  }

  /** Unix milliseconds as `YYYY-MM-DDTHH:MM:SSZ`. */
  function Iso8601FromMs(ms: int): string {
    ClockIsNatural(ms);
    IsoOf(MsToCivil(ms))
  }

  /** Unix milliseconds written as ISO-8601 read back rounded down to the
      second, for every instant from the epoch to the end of year 999999;
      an instant before the epoch reads back as the epoch. */
  lemma IsoRoundTrip(ms: int)
    requires MsToCivil(ms).date.year <= MAX_YEAR
    ensures IsoToMs(Iso8601FromMs(ms)) == Some(if ms >= 0 then ms - ms % 1000 else 0)
  {
    ClockIsNatural(ms);
    var secs := if ms / 1000 > 0 then ms / 1000 else 0;
    var days, rem := secs / SECS_PER_DAY, secs % SECS_PER_DAY;
    ClockParts(days, rem);
    IsoOfClock(MsToCivil(ms), days, rem);
    WholeSeconds(ms, secs, days, rem);
  }

  lemma IsoOfClock(c: Clock, days: int, rem: int)
    requires IsDate(c.date) && 0 <= c.date.year <= MAX_YEAR && DaysFromCivil(c.date) == days
    requires 0 <= c.hour <= 23 && 0 <= c.minute <= 59 && 0 <= c.second <= 59
    requires rem == c.hour * 3600 + c.minute * 60 + c.second
    ensures IsoToMs(IsoOf(c)) == Some(1000 * (SECS_PER_DAY * days + rem))
  {
    IsoReads(c);
    FieldsOf(c, days, rem);
  }

  lemma WholeSeconds(ms: int, secs: int, days: int, rem: int)
    requires secs == (if ms / 1000 > 0 then ms / 1000 else 0) && days == secs / SECS_PER_DAY
    requires rem == secs % SECS_PER_DAY
    ensures 1000 * (SECS_PER_DAY * days + rem) == if ms >= 0 then ms - ms % 1000 else 0
  {
  }

  /** Reading a text of the epoch or later and splitting the instant again
      gives back its date and time. */
  lemma FieldsRoundTrip(c: Clock)
    requires IsDate(c.date) && 1970 <= c.date.year <= MAX_YEAR
    requires 0 <= c.hour <= 23 && 0 <= c.minute <= 59 && 0 <= c.second <= 59
    ensures var ms := FieldsToMs(c.date.year, c.date.month, c.date.day, c.hour, c.minute, c.second);
      ms.Some? && MsToCivil(ms.value) == c
  {
    var days, rem := DaysFromCivil(c.date), c.hour * 3600 + c.minute * 60 + c.second;
    FieldsOf(c, days, rem);
    NotBeforeEpoch(c.date);
    ClockOfParts(c, days, rem);
    MsSplits(days, rem);
  }

  lemma NotBeforeEpoch(d: Date)
    requires IsDate(d) && d.year >= 1970
    ensures DaysFromCivil(d) >= 0
  {
    var p := PlaceOfDate(d);
    PlacesKeepOrder(p, Place(4, 369, 10, 0));
  }

  lemma ClockOfParts(c: Clock, days: int, rem: int)
    requires IsDate(c.date) && days == DaysFromCivil(c.date) && rem == c.hour * 3600 + c.minute * 60 + c.second
    requires 0 <= c.hour <= 23 && 0 <= c.minute <= 59 && 0 <= c.second <= 59
    ensures ClockOf(days, rem) == c
  {
    DaysRoundTrip(c.date);
    DivUnique(rem, 3600, c.hour, c.minute * 60 + c.second);
    DivUnique(rem % 3600, 60, c.minute, c.second);
    DivUnique(rem, 60, c.hour * 60 + c.minute, c.second);
  }

  lemma MsSplits(days: int, rem: int)
    requires days >= 0 && 0 <= rem < SECS_PER_DAY
    ensures MsToCivil(1000 * (SECS_PER_DAY * days + rem)) == ClockOf(days, rem)
  {
    var secs := SECS_PER_DAY * days + rem;
    DivUnique(1000 * secs, 1000, secs, 0);
    DivUnique(secs, SECS_PER_DAY, days, rem);
  }

  // ── Abbreviated texts ────────────────────────────────────────────────────

  /** Numbers of at least two digits, joined. */
  function Numbers(ns: seq<nat>, sep: char): string {
    if ns == [] then ""
    else if |ns| == 1 then Padded(ns[0], 2)
    else Padded(ns[0], 2) + [sep] + Numbers(ns[1..], sep)
  }

  function Texts(ns: seq<nat>): seq<string> {
    seq(|ns|, i requires 0 <= i < |ns| => Padded(ns[i], 2))
  }

  lemma {:induction false} NumbersSplit(ns: seq<nat>, sep: char)
    requires ns != [] && !IsDigit(sep)
    ensures Split(Numbers(ns, sep), sep) == Texts(ns)
    ensures Numbers(ns, sep) != "" && IsDigit(Numbers(ns, sep)[0])
    ensures IsDigit(Numbers(ns, sep)[|Numbers(ns, sep)| - 1])
    ensures forall i :: 0 <= i < |Numbers(ns, sep)| ==> IsDigit(Numbers(ns, sep)[i]) || Numbers(ns, sep)[i] == sep
    decreases |ns|
  {
    var n := Padded(ns[0], 2);
    if |ns| == 1 {
      SplitPlain(n, sep);
    } else {
      NumbersSplit(ns[1..], sep);
      SplitAtFirst(n, sep, Numbers(ns[1..], sep));
      assert Texts(ns) == [n] + Texts(ns[1..]);
    }
  }

  lemma {:induction false} TrimBefore(before: string, s: string)
    requires forall i :: 0 <= i < |before| ==> IsWhitespace(before[i])
    requires s != "" && !IsWhitespace(s[0])
    ensures TrimStart(before + s) == s
  {
    if before == "" {
      assert before + s == s;
    } else {
      assert (before + s)[1..] == before[1..] + s;
      TrimBefore(before[1..], s);
    }
  }

  lemma {:induction false} TrimAfter(s: string, after: string)
    requires forall i :: 0 <= i < |after| ==> IsWhitespace(after[i])
    requires s != "" && !IsWhitespace(s[|s| - 1])
    ensures TrimEnd(s + after) == s
  {
    if after == "" {
      assert s + after == s;
    } else {
      var n := |after| - 1;
      assert (s + after)[..|s + after| - 1] == s + after[..n];
      TrimAfter(s, after[..n]);
    }
  }

  lemma {:induction false} DateEndNowhere(s: string)
    requires forall i :: 0 <= i < |s| ==> s[i] != 'T' && s[i] != ' '
    ensures DateEnd(s) == |s|
  {
    if s != "" {
      DateEndNowhere(s[1..]);
    }
  }

  lemma {:induction false} DateEndsAt(a: string, sep: char, b: string)
    requires (forall i :: 0 <= i < |a| ==> a[i] != 'T' && a[i] != ' ') && (sep == 'T' || sep == ' ')
    ensures DateEnd(a + [sep] + b) == |a|
  {
    if a != "" {
      assert (a + [sep] + b)[1..] == a[1..] + [sep] + b;
      DateEndsAt(a[1..], sep, b);
    }
  }

  function Wrapped(s: string, z: bool, before: string, after: string): string {
    before + s + (if z then "Z" else "") + after
  }

  /** What is left once surrounding whitespace and a final `Z` are gone. */
  lemma Unwrapped(s: string, z: bool, before: string, after: string)
    requires s != "" && IsDigit(s[0]) && IsDigit(s[|s| - 1])
    requires forall i :: 0 <= i < |before| ==> IsWhitespace(before[i])
    requires forall i :: 0 <= i < |after| ==> IsWhitespace(after[i])
    ensures
      var trimmed := Trim(Wrapped(s, z, before, after));
      s == if trimmed != "" && trimmed[|trimmed| - 1] == 'Z' then trimmed[..|trimmed| - 1] else trimmed
  {
    var body := s + if z then "Z" else "";
    assert before + s + (if z then "Z" else "") + after == before + (body + after);
    TrimBefore(before, body + after);
    TrimAfter(body, after);
    assert z ==> body[..|body| - 1] == s;
  }

  function DateAndTime(d: seq<nat>, t: seq<nat>, sep: char): string {
    Numbers(d, '-') + if t == [] then "" else [sep] + Numbers(t, ':')
  }

  lemma DatePieces(d: seq<nat>)
    requires d != []
    ensures
      var s := Numbers(d, '-');
      s != "" && IsDigit(s[0]) && IsDigit(s[|s| - 1]) && Split(s, '-') == Texts(d) && DateEnd(s) == |s|
  {
    NumbersSplit(d, '-');
    DateEndNowhere(Numbers(d, '-'));
  }

  lemma TimeOff(date: string, sep: char, time: string)
    requires date != "" && time != "" && (sep == 'T' || sep == ' ')
    requires forall i :: 0 <= i < |date| ==> date[i] != 'T' && date[i] != ' '
    ensures
      var (s, k) := (date + [sep] + time, |date|);
      && DateEnd(s) == k && k < |s| && s[..k] == date && s[k + 1..] == time
      && s[0] == date[0] && s[|s| - 1] == time[|time| - 1]
  {
    DateEndsAt(date, sep, time);
    assert (date + [sep] + time)[|date| + 1..] == time;
  }

  lemma TimePieces(d: seq<nat>, t: seq<nat>, sep: char)
    requires d != [] && t != [] && (sep == 'T' || sep == ' ')
    ensures
      var (s, k) := (Numbers(d, '-') + [sep] + Numbers(t, ':'), |Numbers(d, '-')|);
      && DateEnd(s) == k && k < |s| && s[..k] == Numbers(d, '-') && Split(s[k + 1..], ':') == Texts(t)
      && IsDigit(s[0]) && IsDigit(s[|s| - 1])
  {
    NumbersSplit(d, '-');
    NumbersSplit(t, ':');
    TimeOff(Numbers(d, '-'), sep, Numbers(t, ':'));
  }

  lemma Midnight()
    ensures Split("00:00:00", ':') == ["00", "00", "00"]
    ensures ParseI64("00") == Some(0) && ParseI64("0") == Some(0)
  {
    SplitThree("00", "00", "00", ':');
    assert "00" + [':'] + "00" + [':'] + "00" == "00:00:00";
    assert DigitsValue("0") == 0 && DigitsValue("00") == 0;
  }

  /** The pieces of a text, whatever of it is left out. */
  lemma AbbreviatedPieces(d: seq<nat>, t: seq<nat>, sep: char, z: bool, before: string, after: string)
    requires d != [] && (sep == 'T' || sep == ' ')
    requires forall i :: 0 <= i < |before| ==> IsWhitespace(before[i])
    requires forall i :: 0 <= i < |after| ==> IsWhitespace(after[i])
    ensures IsoPieces(Wrapped(DateAndTime(d, t, sep), z, before, after))
         == (Texts(d), if t == [] then ["00", "00", "00"] else Texts(t))
  {
    DateAndTimePieces(d, t, sep);
    WrappedPieces(DateAndTime(d, t, sep), z, before, after);
  }

  lemma WrappedPieces(s: string, z: bool, before: string, after: string)
    requires s != "" && IsDigit(s[0]) && IsDigit(s[|s| - 1])
    requires forall i :: 0 <= i < |before| ==> IsWhitespace(before[i])
    requires forall i :: 0 <= i < |after| ==> IsWhitespace(after[i])
    ensures IsoPieces(Wrapped(s, z, before, after)) == RestPieces(s)
  {
    Unwrapped(s, z, before, after);
    PiecesOfRest(Wrapped(s, z, before, after), s);
  }

  /** The pieces of what is left of a text. */
  function RestPieces(s: string): (seq<string>, seq<string>) {
    var k := DateEnd(s);
    (Split(s[..k], '-'), Split(if k < |s| then s[k + 1..] else "00:00:00", ':'))
  }

  lemma PiecesOfRest(text: string, s: string)
    requires
      var trimmed := Trim(text);
      s == if trimmed != "" && trimmed[|trimmed| - 1] == 'Z' then trimmed[..|trimmed| - 1] else trimmed
    ensures IsoPieces(text) == RestPieces(s)
  {
    assert DateEnd(s) == |s| ==> s[..DateEnd(s)] == s;
  }

  lemma DateAndTimePieces(d: seq<nat>, t: seq<nat>, sep: char)
    requires d != [] && (sep == 'T' || sep == ' ')
    ensures
      var s := DateAndTime(d, t, sep);
      && s != "" && IsDigit(s[0]) && IsDigit(s[|s| - 1])
      && RestPieces(s) == (Texts(d), if t == [] then ["00", "00", "00"] else Texts(t))
  {
    if t == [] {
      DateAlonePieces(d);
      assert DateAndTime(d, t, sep) == Numbers(d, '-');
    } else {
      assert DateAndTime(d, t, sep) == Numbers(d, '-') + [sep] + Numbers(t, ':');
      TimePieces(d, t, sep);
      DatePieces(d);
    }
  }

  lemma DateAlonePieces(d: seq<nat>)
    requires d != []
    ensures
      var s := Numbers(d, '-');
      && s != "" && IsDigit(s[0]) && IsDigit(s[|s| - 1])
      && RestPieces(s) == (Texts(d), ["00", "00", "00"])
  {
    DatePieces(d);
    Midnight();
    assert Numbers(d, '-')[..|Numbers(d, '-')|] == Numbers(d, '-');
  }

  lemma AbbreviatedNumbers(d: seq<nat>, t: seq<nat>)
    requires 1 <= |d| <= 3 && |t| <= 3
    requires (forall i :: 0 <= i < |d| ==> d[i] <= I64_MAX) && (forall i :: 0 <= i < |t| ==> t[i] <= I64_MAX)
    ensures PiecesToMs(Texts(d), if t == [] then ["00", "00", "00"] else Texts(t))
         == FieldsToMs(d[0], if |d| > 1 then d[1] else 1, if |d| > 2 then d[2] else 1,
                       if |t| > 0 then t[0] else 0, if |t| > 1 then t[1] else 0, if |t| > 2 then t[2] else 0)
  {
    Midnight();
    forall i | 0 <= i < |d| ensures ParseI64(Texts(d)[i]) == Some(d[i]) {
      ParsePadded(d[i], 2);
    }
    forall i | 0 <= i < |t| ensures ParseI64(Texts(t)[i]) == Some(t[i]) {
      ParsePadded(t[i], 2);
    }
  }

  /** A month and a day left out are 1, a time or its end left out is 0; a space may
      stand for the `T`, the `Z` may be missing, and whitespace around is ignored. */
  lemma AbbreviatedReads(d: seq<nat>, t: seq<nat>, sep: char, z: bool, before: string, after: string)
    requires 1 <= |d| <= 3 && |t| <= 3 && (sep == 'T' || sep == ' ')
    requires (forall i :: 0 <= i < |d| ==> d[i] <= I64_MAX) && (forall i :: 0 <= i < |t| ==> t[i] <= I64_MAX)
    requires forall i :: 0 <= i < |before| ==> IsWhitespace(before[i])
    requires forall i :: 0 <= i < |after| ==> IsWhitespace(after[i])
    ensures IsoToMs(Wrapped(DateAndTime(d, t, sep), z, before, after))
         == FieldsToMs(d[0], if |d| > 1 then d[1] else 1, if |d| > 2 then d[2] else 1,
                       if |t| > 0 then t[0] else 0, if |t| > 1 then t[1] else 0, if |t| > 2 then t[2] else 0)
  {
    AbbreviatedPieces(d, t, sep, z, before, after);
    AbbreviatedNumbers(d, t);
  }

  lemma TwoDigits(n: nat)
    requires n < 100
    ensures Padded(n, 2) == [Digit(n / 10), Digit(n % 10)]
  {
    if n < 10 {
      assert Decimal(n) == [Digit(n)] && Zeros(1) == [Digit(0)];
    } else {
      assert Decimal(n / 10) == [Digit(n / 10)];
    }
  }

  lemma YearDigits()
    ensures Padded(2024, 4) == "2024"
  {
    assert Decimal(2) == "2" && Decimal(20) == "20" && Decimal(202) == "202" && Decimal(2024) == "2024";
  }

  lemma IsoIs(c: Clock, y: string, mo: string, d: string, h: string, mi: string, sec: string)
    requires c.date.year >= 0 && c.date.month >= 0 && c.date.day >= 0
    requires c.hour >= 0 && c.minute >= 0 && c.second >= 0
    requires Padded(c.date.year, 4) == y && Padded(c.date.month, 2) == mo && Padded(c.date.day, 2) == d
    requires Padded(c.hour, 2) == h && Padded(c.minute, 2) == mi && Padded(c.second, 2) == sec
    ensures IsoOf(c) == y + "-" + mo + "-" + d + "T" + h + ":" + mi + ":" + sec + "Z"
  {
  }

  /** A text in full. */
  lemma TextInFull()
    ensures IsoOf(Clock(Date(2024, 2, 29), 13, 5, 9)) == "2024-02-29T13:05:09Z"
  {
    YearDigits();
    TwoDigits(2);
    TwoDigits(29);
    TwoDigits(13);
    TwoDigits(5);
    TwoDigits(9);
    IsoIs(Clock(Date(2024, 2, 29), 13, 5, 9), "2024", "02", "29", "13", "05", "09");
    IsoParts("2024", "02", "29", "13", "05", "09");
    assert "2024" + "-" + "02" + "-" + "29" == "2024-02-29";
    assert "13" + ":" + "05" + ":" + "09" == "13:05:09";
  }
}
