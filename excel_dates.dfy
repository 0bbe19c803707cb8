/** The date handling of services/excelService.ts: how a date cell becomes the
    `dd/mm/yyyy` text that `toLocaleDateString('pt-BR')` writes, how such text
    is read back through `new Date(y, m - 1, d)`, and the Monday that opens its
    week.  Day numbers count from 1970-01-01 and dates are read in UTC;
    SerialDateInZone shows what a runtime in another time zone writes. */
module ExcelDates {
  import opened Outcomes
  import opened Types
  import opened JsText
  import opened Calendar

  /** What `toLocaleDateString` returns for a date whose time value is NaN. */
  const InvalidDate: string := "Invalid Date"

  /** The year as the pt-BR format writes it: the year of the era, so that
      years before 1 CE are counted backwards from 1 BCE. */
  function YearText(y: int): (s: string)
    ensures |s| >= 1 && AllDigits(s)
    ensures y >= 1 ==> DigitsValue(s) == y
  {
    if y >= 1 then NatToDecimal(y) else NatToDecimal(1 - y)
  }

  /** Day, month and year texts of a calendar date. */
  function DateParts(c: Civil): (parts: seq<string>)
    requires ValidDate(c.year, c.month, c.day)
  {
    [Pad2(c.day), Pad2(c.month), YearText(c.year)]
  }

  /** `toLocaleDateString('pt-BR')` of the day numbered `n`: day and month
      padded to two digits, then the year, separated by `/`. */
  function FormatDate(n: int): string {
    Join(DateParts(CivilFromDays(n)), '/')
  }

  lemma DigitsAreTrimmed(s: string)
    requires AllDigits(s) && |s| >= 1
    ensures Trim(s) == s
  {
    assert !IsJsWhitespace(s[0]) && !IsJsWhitespace(s[|s| - 1]);
  }

  /** `Number(part)` when the part, once trimmed, is ASCII digits (the empty
      text reads as 0) or a sign followed by at least one digit; `None` stands
      for NaN. */
  function PartNumber(p: string): Option<int> {
    var t := Trim(p);
    if AllDigits(t) then Some(DigitsValue(t))
    else if |t| >= 2 && (t[0] == '+' || t[0] == '-') && AllDigits(t[1..]) then
      Some(if t[0] == '-' then -(DigitsValue(t[1..]) as int) else DigitsValue(t[1..]))
    else None
  }

  /** A signed part reads as its digits, negated after a minus: "-3" is -3 and "+05" is 5. */
  lemma SignedPartNumber(sign: char, w: string)
    requires sign == '+' || sign == '-'
    requires AllDigits(w) && |w| >= 1
    ensures PartNumber([sign] + w) == Some(if sign == '-' then -(DigitsValue(w) as int) else DigitsValue(w))
  {
    var t := [sign] + w;
    SignedIsTrimmed(sign, w);
    assert !IsDigit(t[0]);
    assert t[1..] == w;
  }

  lemma SignedIsTrimmed(sign: char, w: string)
    requires sign == '+' || sign == '-'
    requires AllDigits(w) && |w| >= 1
    ensures Trim([sign] + w) == [sign] + w
  {
    var t := [sign] + w;
    assert t[|t| - 1] == w[|w| - 1];
    assert SkipWhitespace(t, 0) == 0;
    assert DropTrailing(t, |t|) == |t|;
  }

  /** A part made of digits reads as their decimal value. */
  lemma DigitPartNumber(p: string)
    requires AllDigits(p) && |p| >= 1
    ensures PartNumber(p) == Some(DigitsValue(p))
  {
    DigitsAreTrimmed(p);
  }

  /** The day number that `new Date(y, m - 1, d)` gives for a text split on
      `/` into day, month and year; `None` when the date is invalid. */
  function DateValue(s: string): (r: Option<int>)
    ensures r.Some? ==> InTimeRange(r.value)
  {
    var parts := Split(s, '/');
    if |parts| < 3 then None
    else
      match (PartNumber(parts[0]), PartNumber(parts[1]), PartNumber(parts[2]))
      case (Some(d), Some(m), Some(y)) => JsDate(y, m, d)
      case _ => None
  }

  /** The helper that maps a date text to the text of the Monday on or
      before it; an unreadable date, or a Monday beyond the time range,
      gives "Invalid Date". */
  function GetWeekStart(s: string): (r: string)
    ensures DateValue(s).None? ==> r == InvalidDate
  {
    match DateValue(s)
    case None => InvalidDate
    case Some(n) =>
      var w := WeekStart(n);
      if InTimeRange(w) then FormatDate(w) else InvalidDate
  }

  lemma DigitsHaveNoSlash(s: string, c: char)
    requires AllDigits(s) && !IsDigit(c)
    ensures c !in s
  {
  }

  /** The formatted date splits back into its day, month and year texts. */
  lemma FormatDateParts(n: int)
    ensures Split(FormatDate(n), '/') == DateParts(CivilFromDays(n))
  {
    var parts := DateParts(CivilFromDays(n));
    DigitsHaveNoSlash(parts[0], '/');
    DigitsHaveNoSlash(parts[1], '/');
    DigitsHaveNoSlash(parts[2], '/');
    SplitJoin(parts, '/');
  }

  /** Reading a formatted date back gives the same day, from year 100 on
      (the `Date` constructor takes years 0 to 99 as 1900 to 1999). */
  lemma FormatDateReadsBack(n: int)
    requires InTimeRange(n) && CivilFromDays(n).year >= 100
    ensures DateValue(FormatDate(n)) == Some(n)
  {
    var c := CivilFromDays(n);
    FormatDateParts(n);
    var parts := DateParts(c);
    DigitPartNumber(parts[0]);
    DigitPartNumber(parts[1]);
    DigitPartNumber(parts[2]);
    assert FullYear(c.year) == c.year;
  }

  /** Distinct days from year 100 on are written differently. */
  lemma FormatDateInjective(a: int, b: int)
    requires InTimeRange(a) && CivilFromDays(a).year >= 100
    requires InTimeRange(b) && CivilFromDays(b).year >= 100
    requires FormatDate(a) == FormatDate(b)
    ensures a == b
  {
    FormatDateReadsBack(a);
    FormatDateReadsBack(b);
  }

  lemma InvalidDateIsNoDate()
    ensures DateValue(InvalidDate) == None
  {
    assert '/' !in InvalidDate;
    SplitPart(InvalidDate, [], '/');
    assert InvalidDate + [] == InvalidDate;
  }

  /** The week start of a readable date names the Monday on or before it, at
      most six days earlier. */
  lemma WeekStartNamesMonday(s: string, n: int)
    requires DateValue(s) == Some(n)
    requires InTimeRange(WeekStart(n)) && CivilFromDays(WeekStart(n)).year >= 100
    ensures DateValue(GetWeekStart(s)).Some?
    ensures var w := DateValue(GetWeekStart(s)).value; WeekDay(w) == 1 && n - 6 <= w <= n
  {
    FormatDateReadsBack(WeekStart(n));
  }

  /** Taking the week start of a week start changes nothing (from year 100 on). */
  lemma GetWeekStartIdempotent(s: string)
    requires DateValue(s).Some? ==> CivilFromDays(WeekStart(DateValue(s).value)).year >= 100
    ensures GetWeekStart(GetWeekStart(s)) == GetWeekStart(s)
  {
    InvalidDateIsNoDate();
    match DateValue(s)
    case None =>
    case Some(n) =>
      var w := WeekStart(n);
      if InTimeRange(w) {
        FormatDateReadsBack(w);
        WeekStartIdempotent(n);
      }
  }

  /** Dates of one Monday-to-Sunday week share their week-start text. */
  lemma SameWeekSameWeekStart(s: string, t: string, a: int, b: int)
    requires DateValue(s) == Some(a) && DateValue(t) == Some(b)
    requires WeekStart(a) <= b <= WeekStart(a) + 6
    ensures GetWeekStart(s) == GetWeekStart(t)
  {
    SameWeekSameStart(a, b);
  }

  /** Dates of different weeks get different week-start texts (from year 100 on). */
  lemma OtherWeekOtherWeekStart(s: string, t: string, a: int, b: int)
    requires DateValue(s) == Some(a) && DateValue(t) == Some(b)
    requires WeekStart(a) != WeekStart(b)
    requires InTimeRange(WeekStart(a)) && CivilFromDays(WeekStart(a)).year >= 100
    requires InTimeRange(WeekStart(b)) && CivilFromDays(WeekStart(b)).year >= 100
    ensures GetWeekStart(s) != GetWeekStart(t)
  {
    if GetWeekStart(s) == GetWeekStart(t) {
      FormatDateInjective(WeekStart(a), WeekStart(b));
    }
  }

  /** `Math.round((v - 25569) * 86400 * 1000)`: the time value in
      milliseconds of spreadsheet serial `v` (days since 1899-12-30, 25569
      being 1970-01-01), rounded half up.  A day has 86400000 ms. */
  function RoundedMs(v: real): int {
    ((v - 25569.0) * 86400000.0 + 0.5).Floor
  }

  /** A time value within 8.64e15 ms (10^8 days) of the epoch; beyond it a `Date` is NaN. */
  predicate InMsRange(ms: int) {
    -8640000000000000 <= ms <= 8640000000000000
  }

  /** A numeric date cell: the serial's time value formatted as a date, read in UTC. */
  function SerialDate(v: real): string {
    var ms := RoundedMs(v);
    if InMsRange(ms) then FormatDate(ms / 86400000) else InvalidDate
  }

  /** The ISO form `\d{4}-\d{2}-\d{2}` matched against the whole text. */
  predicate IsIsoDate(t: string) {
    && |t| == 10
    && AllDigits(t[..4]) && t[4] == '-'
    && AllDigits(t[5..7]) && t[7] == '-'
    && AllDigits(t[8..])
  }

  /** An ISO text splits on `-` into its year, month and day. */
  lemma IsoParts(t: string)
    requires IsIsoDate(t)
    ensures Split(t, '-') == [t[..4], t[5..7], t[8..]]
  {
    var parts := [t[..4], t[5..7], t[8..]];
    DigitsHaveNoSlash(parts[0], '-');
    DigitsHaveNoSlash(parts[1], '-');
    DigitsHaveNoSlash(parts[2], '-');
    JoinThree(parts[0], parts[1], parts[2], '-');
    assert t == parts[0] + ['-'] + parts[1] + ['-'] + parts[2];
    SplitJoin(parts, '-');
  }

  lemma JoinThree(a: string, b: string, c: string, sep: char)
    ensures Join([a, b, c], sep) == a + [sep] + b + [sep] + c
  {
    assert [a, b, c][1..] == [b, c];
    assert [b, c][1..] == [c];
    assert Join([b, c], sep) == b + [sep] + c;
    assert Join([a, b, c], sep) == a + [sep] + (b + [sep] + c);
  }

  /** The rewrite of an ISO date into day/month/year order. */
  function IsoToBrazilian(t: string): string
    requires IsIsoDate(t)
  {
    IsoParts(t);
    var p := Split(t, '-');
    p[2] + "/" + p[1] + "/" + p[0]
  }

  /** The date text a truthy date cell yields: a number is a serial date; a
      text is trimmed, and an ISO date is rewritten as day/month/year. */
  function DateText(c: Cell): string {
    match c
    case Num(v) => SerialDate(v)
    case Str(s) =>
      var t := Trim(s);
      if IsIsoDate(t) then IsoToBrazilian(t) else t
  }

  /** The floor of an integer plus a fraction. */
  lemma FloorShift(i: int, f: real)
    ensures (i as real + f).Floor == i + f.Floor
  {
  }

  /** A millisecond count within day `day` belongs to that day. */
  lemma MsOfDay(day: int, r: int)
    requires 0 <= r < 86400000
    ensures (day * 86400000 + r) / 86400000 == day
  {
  }

  /** The time value of a time on serial day `k` is that day's start plus the rounded time of day. */
  lemma SerialMs(k: int, v: real)
    ensures RoundedMs(v) == (k - 25569) * 86400000 + ((v - k as real) * 86400000.0 + 0.5).Floor
  {
    var f := (v - k as real) * 86400000.0 + 0.5;
    var start := (k - 25569) * 86400000;
    assert (v - 25569.0) * 86400000.0 + 0.5 == start as real + f;
    FloorShift(start, f);
  }

  /** Any time of day on serial day `k` (up to half a millisecond before
      midnight) gives the date of day `k - 25569`. */
  lemma SerialDayDate(k: int, v: real)
    requires k as real <= v && (v - k as real) * 86400000.0 + 0.5 < 86400000.0
    requires -100000000 <= k - 25569 < 100000000
    ensures DateText(Num(v)) == FormatDate(k - 25569)
  {
    SerialMs(k, v);
    var r := ((v - k as real) * 86400000.0 + 0.5).Floor;
    assert 0 <= r < 86400000;
    MsOfDay(k - 25569, r);
    assert RoundedMs(v) / 86400000 == k - 25569;
    assert InMsRange(RoundedMs(v));
    assert DateText(Num(v)) == SerialDate(v);
  }

  /** The numeric branch as written: `toLocaleDateString` formats the instant
      in the runtime's own time zone, `offsetMs` milliseconds from UTC
      (local time is UTC plus the offset). */
  function SerialDateInZone(v: real, offsetMs: int): string {
    var ms := RoundedMs(v);
    if InMsRange(ms) then FormatDate((ms + offsetMs) / 86400000) else InvalidDate
  }

  /** In Brasília time (UTC-3, an offset of -10800000 ms), a serial time in
      the first three hours of its day (a bare date is midnight) is written
      as the day before, where the UTC reading gives the sheet's own day. */
  lemma SerialDateInBrasiliaIsDayBefore(k: int, v: real)
    requires k as real <= v && (v - k as real) * 86400000.0 + 0.5 < 10800000.0
    requires -100000000 < k - 25569 < 100000000
    requires CivilFromDays(k - 25570).year >= 100 && CivilFromDays(k - 25569).year >= 100
    ensures SerialDateInZone(v, -10800000) == FormatDate(k - 25570)
    ensures SerialDate(v) == FormatDate(k - 25569)
    ensures SerialDateInZone(v, -10800000) != SerialDate(v)
  {
    SerialDayDate(k, v);
    SerialMs(k, v);
    var r := ((v - k as real) * 86400000.0 + 0.5).Floor;
    MsOfDay(k - 25570, r + 86400000 - 10800000);
    assert (RoundedMs(v) + -10800000) / 86400000 == k - 25570;
    if FormatDate(k - 25570) == FormatDate(k - 25569) {
      FormatDateInjective(k - 25570, k - 25569);
    }
  }

  /** A text ISO date reads back as the year, month and day it spells. */
  lemma IsoDateKeepsDay(s: string)
    requires IsIsoDate(Trim(s))
    ensures var t := Trim(s);
            DateValue(DateText(Str(s))) == JsDate(DigitsValue(t[..4]), DigitsValue(t[5..7]), DigitsValue(t[8..]))
  {
    var t := Trim(s);
    IsoParts(t);
    var parts := [t[8..], t[5..7], t[..4]];
    JoinThree(parts[0], parts[1], parts[2], '/');
    assert DateText(Str(s)) == Join(parts, '/');
    DigitsHaveNoSlash(parts[0], '/');
    DigitsHaveNoSlash(parts[1], '/');
    DigitsHaveNoSlash(parts[2], '/');
    SplitJoin(parts, '/');
    DigitPartNumber(parts[0]);
    DigitPartNumber(parts[1]);
    DigitPartNumber(parts[2]);
  }
}
