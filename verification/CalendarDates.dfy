/**
 * The dates a recurrence may end on (apps/mcp-server/src/input-validation.ts): a date is set
 * on a Date object and read back, and must not have rolled over.  The arithmetic of Date is
 * that of section 21.4.1 of ECMA-262, on whole days.
 */
module CalendarDates {
  import opened Options

  // ---- the proleptic Gregorian calendar ----

  predicate Leap(y: int) {
    y % 4 == 0 && (y % 100 != 0 || y % 400 == 0)
  }

  /** The length of a month, from 1. */
  function MonthLength(m: int, leap: bool): nat {
    if m == 2 then (if leap then 29 else 28) else if m == 4 || m == 6 || m == 9 || m == 11 then 30 else 31
  }

  predicate RealDate(y: int, m: int, d: int) {
    1 <= m <= 12 && 1 <= d <= MonthLength(m, Leap(y))
  }

  // ---- days since 1970, as ECMA-262 counts them ----

  /** The number of the first day of a year. */
  function DayFromYear(y: int): int {
    365 * (y - 1970) + (y - 1969) / 4 - (y - 1901) / 100 + (y - 1601) / 400
  }

  function DaysInYear(y: int): int {
    if Leap(y) then 366 else 365
  }

  /** The first day of a month (0 to 11) within its year; 12 is the end of the year. */
  function MonthStart(m: nat, leap: bool): (r: nat)
    requires m <= 12
  {
    if m == 0 then 0 else MonthStart(m - 1, leap) + MonthLength(m, leap)
  }

  /** The table of section 21.4.1.11 of ECMA-262. */
  lemma MonthTable(leap: bool)
    ensures var l := if leap then 1 else 0;
      seq(13, m requires 0 <= m < 13 => MonthStart(m, leap)) ==
        [0, 31, 59 + l, 90 + l, 120 + l, 151 + l, 181 + l, 212 + l, 243 + l, 273 + l, 304 + l, 334 + l, 365 + l]
  {
    assert MonthStart(0, leap) == 0 && MonthStart(1, leap) == 31;
    assert MonthStart(2, leap) == 59 + if leap then 1 else 0;
    assert MonthStart(4, leap) == 120 + if leap then 1 else 0;
    assert MonthStart(6, leap) == 181 + if leap then 1 else 0;
    assert MonthStart(8, leap) == 243 + if leap then 1 else 0;
    assert MonthStart(10, leap) == 304 + if leap then 1 else 0;
    assert MonthStart(12, leap) == 365 + if leap then 1 else 0;
  }

  lemma YearEnds(y: int)
    ensures MonthStart(12, Leap(y)) == DaysInYear(y)
  {
    MonthTable(Leap(y));
    assert seq(13, m requires 0 <= m < 13 => MonthStart(m, Leap(y)))[12] == MonthStart(12, Leap(y));
  }

  lemma Multiples(y: int)
    ensures y % 400 == 0 ==> y % 100 == 0
    ensures y % 100 == 0 ==> y % 4 == 0
  {
  }

  lemma FourYears(y: int)
    ensures (y - 1968) / 4 - (y - 1969) / 4 == if y % 4 == 0 then 1 else 0
  {
  }

  lemma HundredYears(y: int)
    ensures (y - 1900) / 100 - (y - 1901) / 100 == if y % 100 == 0 then 1 else 0
  {
  }

  lemma FourHundredYears(y: int)
    ensures (y - 1600) / 400 - (y - 1601) / 400 == if y % 400 == 0 then 1 else 0
  {
  }

  lemma YearsFollow(y: int)
    ensures DayFromYear(y + 1) == DayFromYear(y) + DaysInYear(y)
  {
    FourYears(y);
    HundredYears(y);
    FourHundredYears(y);
    Multiples(y);
  }

  lemma {:induction false} YearsAscend(y: int, z: int)
    requires y < z
    ensures DayFromYear(y) < DayFromYear(z)
    decreases z - y
  {
    YearsFollow(y);
    if y + 1 < z { YearsAscend(y + 1, z); }
  }

  /** The last year that starts on or before a day, searched from `y` on. */
  function LastYearFrom(day: int, y: int): (r: int)
    requires DayFromYear(y) <= day
    ensures DayFromYear(r) <= day < DayFromYear(r + 1)
    decreases day - DayFromYear(y)
  {
    YearsFollow(y);
    if DayFromYear(y + 1) <= day then LastYearFrom(day, y + 1) else y
  }

  /** YearFromTime: the largest year that starts on or before the day. */
  function YearFromDay(day: int): (y: int)
    ensures DayFromYear(y) <= day < DayFromYear(y + 1)
  {
    LastYearFrom(day, if day >= 0 then 1970 else 1970 + day / 365)
  }

  lemma YearIsUnique(day: int, y: int)
    requires DayFromYear(y) <= day < DayFromYear(y + 1)
    ensures YearFromDay(day) == y
  {
    var r := YearFromDay(day);
    if r + 1 < y { YearsAscend(r + 1, y); }
    if y + 1 < r { YearsAscend(y + 1, r); }
  }

  function LastMonthFrom(dayInYear: int, leap: bool, m: int): (r: int)
    requires 0 <= m <= 11 && MonthStart(m, leap) <= dayInYear < MonthStart(12, leap)
    ensures 0 <= r <= 11 && MonthStart(r, leap) <= dayInYear < MonthStart(r + 1, leap)
    decreases 12 - m
  {
    if MonthStart(m + 1, leap) <= dayInYear then LastMonthFrom(dayInYear, leap, m + 1) else m
  }

  function DayWithinYear(day: int): (r: int)
    ensures 0 <= r < MonthStart(12, Leap(YearFromDay(day)))
  {
    YearEnds(YearFromDay(day));
    YearsFollow(YearFromDay(day));
    day - DayFromYear(YearFromDay(day))
  }

  /** MonthFromTime, 0 to 11. */
  function MonthFromDay(day: int): (m: int)
    ensures 0 <= m <= 11
    ensures MonthStart(m, Leap(YearFromDay(day))) <= DayWithinYear(day) < MonthStart(m + 1, Leap(YearFromDay(day)))
  {
    LastMonthFrom(DayWithinYear(day), Leap(YearFromDay(day)), 0)
  }

  /** DateFromTime, from 1. */
  function DateFromDay(day: int): int {
    DayWithinYear(day) - MonthStart(MonthFromDay(day), Leap(YearFromDay(day))) + 1
  }

  /** MakeDay: months beyond 0 to 11 carry into the year, and the date counts on from the first. */
  function MakeDay(year: int, month: int, date: int): int {
    var y, m := year + month / 12, month % 12;
    DayFromYear(y) + MonthStart(m, Leap(y)) + date - 1
  }

  lemma {:induction false} MonthsAscend(a: int, b: int, leap: bool)
    requires 0 <= a < b <= 12
    ensures MonthStart(a, leap) < MonthStart(b, leap)
    decreases b - a
  {
    if a + 1 < b { MonthsAscend(a + 1, b, leap); }
  }

  /** Whatever the day, its fields make a real date. */
  lemma FieldsAreReal(day: int)
    ensures RealDate(YearFromDay(day), MonthFromDay(day) + 1, DateFromDay(day))
  {
  }

  /** What the getters of a Date read, with months from 1. */
  predicate ReadsBack(day: int, y: int, m: int, d: int) {
    YearFromDay(day) == y && MonthFromDay(day) == m - 1 && DateFromDay(day) == d
  }

  /** Set to a year, a month (from 1) and a date, a Date reads back the same. */
  predicate Settles(y: int, m: int, d: int) {
    ReadsBack(MakeDay(y, m - 1, d), y, m, d)
  }

  lemma MonthIsUnique(k: int, leap: bool, m: nat, r: nat)
    requires m < 12 && r < 12
    requires MonthStart(m, leap) <= k < MonthStart(m + 1, leap)
    requires MonthStart(r, leap) <= k < MonthStart(r + 1, leap)
    ensures r == m
  {
    if r + 1 < m { MonthsAscend(r + 1, m, leap); }
    if m + 1 < r { MonthsAscend(m + 1, r, leap); }
  }

  lemma InTheYear(k: int, leap: bool, m: nat)
    requires m < 12 && MonthStart(m, leap) <= k < MonthStart(m + 1, leap)
    ensures 0 <= k < MonthStart(12, leap)
  {
    if m + 1 < 12 { MonthsAscend(m + 1, 12, leap); }
  }

  lemma MadeDay(y: int, m: int, d: int)
    requires 1 <= m <= 12
    ensures MakeDay(y, m - 1, d) == DayFromYear(y) + MonthStart(m - 1, Leap(y)) + d - 1
  {
    assert (m - 1) / 12 == 0 && (m - 1) % 12 == m - 1;
  }

  lemma YearOfDayInYear(day: int, y: int, k: int)
    requires 0 <= k < DaysInYear(y) && day == DayFromYear(y) + k
    ensures YearFromDay(day) == y && DayWithinYear(day) == k
  {
    YearsFollow(y);
    YearIsUnique(day, y);
  }

  /** The fields of a day whose year and place in it are known. */
  lemma FieldsOfDayInYear(day: int, k: int, m: nat, leap: bool)
    requires m < 12 && MonthStart(m, leap) <= k < MonthStart(m + 1, leap)
    requires Leap(YearFromDay(day)) == leap && DayWithinYear(day) == k
    ensures MonthFromDay(day) == m && DateFromDay(day) == k - MonthStart(m, leap) + 1
  {
    MonthIsUnique(k, leap, m, MonthFromDay(day));
  }

  /** A real date's place in its year. */
  lemma PlaceInYear(y: int, m: int, d: int) returns (k: int)
    requires RealDate(y, m, d)
    ensures MonthStart(m - 1, Leap(y)) <= k < MonthStart(m, Leap(y)) && k - MonthStart(m - 1, Leap(y)) + 1 == d
    ensures 0 <= k < DaysInYear(y)
  {
    k := MonthStart(m - 1, Leap(y)) + d - 1;
    InTheYear(k, Leap(y), m - 1);
    YearEnds(y);
  }

  lemma PlaceReadsBack(day: int, y: int, k: int, m: int, d: int)
    requires 1 <= m <= 12 && YearFromDay(day) == y && DayWithinYear(day) == k
    requires MonthStart(m - 1, Leap(y)) <= k < MonthStart(m, Leap(y)) && k - MonthStart(m - 1, Leap(y)) + 1 == d
    ensures ReadsBack(day, y, m, d)
  {
    FieldsOfDayInYear(day, k, m - 1, Leap(y));
  }

  lemma RealDayReadsBack(day: int, y: int, m: int, d: int)
    requires RealDate(y, m, d) && day == DayFromYear(y) + MonthStart(m - 1, Leap(y)) + d - 1
    ensures ReadsBack(day, y, m, d)
  {
    var k := PlaceInYear(y, m, d);
    YearOfDayInYear(day, y, k);
    PlaceReadsBack(day, y, k, m, d);
  }

  /** The fields of the day made from a real date are that date. */
  lemma RealDateComesBack(y: int, m: int, d: int)
    requires RealDate(y, m, d)
    ensures Settles(y, m, d)
  {
    MadeDay(y, m, d);
    RealDayReadsBack(MakeDay(y, m - 1, d), y, m, d);
  }

  /** Days and real dates are one to one: making a day from its own fields gives it back. */
  lemma DayComesBack(day: int)
    ensures MakeDay(YearFromDay(day), MonthFromDay(day), DateFromDay(day)) == day
  {
    MadeDay(YearFromDay(day), MonthFromDay(day) + 1, DateFromDay(day));
  }

  /** Setting a date and reading it back gives the same fields exactly for the real dates. */
  lemma SettlesExactlyWhenReal(y: int, m: int, d: int)
    ensures Settles(y, m, d) <==> RealDate(y, m, d)
  {
    if Settles(y, m, d) { FieldsAreReal(MakeDay(y, m - 1, d)); }
    if RealDate(y, m, d) { RealDateComesBack(y, m, d); }
  }

  // ---- texts ----

  predicate Digits(s: string) {
    forall i | 0 <= i < |s| :: '0' <= s[i] <= '9'
  }

  function Number(s: string): nat
    requires Digits(s)
  {
    if s == [] then 0 else 10 * Number(s[..|s| - 1]) + (s[|s| - 1] - '0') as nat
  }

  /** A number of so many digits. */
  predicate Field(s: string, width: nat) {
    |s| == width && Digits(s)
  }

  type Digits2 = s: string | Field(s, 2) witness "00"

  type Digits4 = s: string | Field(s, 4) witness "0000"

  datatype Clock = Clock(hour: Digits2, minute: Digits2, second: Digits2)

  datatype Until = Until(year: Digits4, month: Digits2, day: Digits2, time: Option<Clock>)

  predicate Fraction(f: string) {
    f == [] || (f[0] == '.' && 2 <= |f| <= 4 && Digits(f[1..]))
  }

  predicate Zone(z: string) {
    z == [] || z == "Z" || (|z| == 6 && (z[0] == '+' || z[0] == '-') && Digits(z[1..3]) && z[3] == ':' && Digits(z[4..]))
  }

  /** What may follow the seconds. */
  predicate Tail(t: string) {
    Zone(t) || exists k | 2 <= k <= 4 :: k <= |t| && Fraction(t[..k]) && Zone(t[k..])
  }

  predicate DateShape(s: string) {
    |s| >= 10 && Digits(s[..4]) && s[4] == '-' && Digits(s[5..7]) && s[7] == '-' && Digits(s[8..10])
  }

  predicate ClockShape(s: string) {
    |s| >= 9 && s[0] == 'T' && Digits(s[1..3]) && s[3] == ':' && Digits(s[4..6]) && s[6] == ':' && Digits(s[7..9]) && Tail(s[9..])
  }

  /** recurrenceUntilPattern. */
  function UntilMatch(s: string): Option<Until> {
    if !DateShape(s) then None
    else if |s| == 10 then Some(Until(s[..4], s[5..7], s[8..10], None))
    else if !ClockShape(s[10..]) then None
    else
      var t := s[10..];
      Some(Until(s[..4], s[5..7], s[8..10], Some(Clock(t[1..3], t[4..6], t[7..9]))))
  }

  predicate ClockInRange(c: Clock) {
    Number(c.hour) <= 23 && Number(c.minute) <= 59 && Number(c.second) <= 59
  }

  predicate NamesRealDate(year: Digits4, month: Digits2, day: Digits2) {
    RealDate(Number(year), Number(month), Number(day))
  }

  /** The texts a recurrence may end on; `parses` is whether Date.parse gives a finite number. */
  predicate UntilAccepted(value: string, parses: string -> bool) {
    match UntilMatch(value)
    case None => false
    case Some(u) => NamesRealDate(u.year, u.month, u.day) && (u.time.Some? ==> ClockInRange(u.time.value) && parses(value))
  }

  // ---- the checks ----

  /** A Date, as its day and the milliseconds into it. */
  class JsDate {
    var day: int
    var time: int

    constructor ()
      ensures day == 0 && time == 0
    {
      day, time := 0, 0;
    }

    method SetUTCFullYear(year: int, month: int, date: int)
      modifies this`day
      ensures day == MakeDay(year, month, date)
    {
      day := MakeDay(year, month, date);
    }

    method SetUTCHours(ms: int)
      modifies this`time
      ensures time == ms
    {
      time := ms;
    }
  }

  /** Sets a Date and compares what it reads back. */
  method SurvivesRollover(year: int, month: int, day: int) returns (ok: bool)
    ensures ok <==> RealDate(year, month, day)
  {
    var date := new JsDate();
    date.SetUTCFullYear(year, month - 1, day);
    date.SetUTCHours(0);
    var made := date.day;
    assert made == MakeDay(year, month - 1, day);
    ok := ReadsBack(made, year, month, day);
    assert ok == Settles(year, month, day);
    SettlesExactlyWhenReal(year, month, day);
  }

  /** isValidRecurrenceUntil. */
  method IsValidRecurrenceUntil(value: string, parses: string -> bool) returns (ok: bool)
    ensures ok <==> UntilAccepted(value, parses)
  {
    var found := UntilMatch(value);
    if found.None? { return false; }
    var u := found.value;
    ok := SurvivesRollover(Number(u.year), Number(u.month), Number(u.day));
    if !ok { return; }
    if u.time.None? { return true; }
    var c := u.time.value;
    if Number(c.hour) > 23 || Number(c.minute) > 59 || Number(c.second) > 59 { return false; }
    ok := parses(value);
  }

  // ---- the compact form of RFC 5545, section 3.3.10 ----

  datatype Compact = Compact(year: Digits4, month: Digits2, day: Digits2, time: Option<CompactTime>)

  datatype CompactTime = CompactTime(hour: Digits2, minute: Digits2, second: Option<Digits2>, utc: string)

  predicate Utc(s: string) {
    s == "" || s == "Z" || s == "z"
  }

  /** The part from the T on. */
  function CompactTimeMatch(s: string): Option<CompactTime> {
    if |s| < 5 || (s[0] != 'T' && s[0] != 't') || !Digits(s[1..3]) || !Digits(s[3..5]) then None
    else if |s| >= 7 && Digits(s[5..7]) then
      if Utc(s[7..]) then Some(CompactTime(s[1..3], s[3..5], Some(s[5..7]), s[7..])) else None
    else if Utc(s[5..]) then Some(CompactTime(s[1..3], s[3..5], None, s[5..]))
    else None
  }

  function CompactMatch(s: string): Option<Compact> {
    if |s| < 8 || !Digits(s[..4]) || !Digits(s[4..6]) || !Digits(s[6..8]) then None
    else if |s| == 8 then Some(Compact(s[..4], s[4..6], s[6..8], None))
    else
      var t := CompactTimeMatch(s[8..]);
      if t.None? then None else Some(Compact(s[..4], s[4..6], s[6..8], Some(t.value)))
  }

  function Seconds(t: CompactTime): Digits2 {
    if t.second.Some? then t.second.value else "00"
  }

  function DateText(year: Digits4, month: Digits2, day: Digits2): (s: string)
    ensures |s| == 10
  {
    year + "-" + month + "-" + day
  }

  function ClockText(t: CompactTime): string {
    "T" + t.hour + ":" + t.minute + ":" + Seconds(t) + t.utc
  }

  /** The text handed on to isValidRecurrenceUntil. */
  function Rebuilt(c: Compact): string {
    DateText(c.year, c.month, c.day) + if c.time.Some? then ClockText(c.time.value) else ""
  }

  lemma DateTextMatches(year: Digits4, month: Digits2, day: Digits2, rest: string)
    ensures var s := DateText(year, month, day) + rest;
      DateShape(s) && s[..4] == year && s[5..7] == month && s[8..10] == day && s[10..] == rest
  {
  }

  lemma ClockTextMatches(t: CompactTime)
    requires Utc(t.utc)
    ensures ClockShape(ClockText(t)) <==> t.utc != "z"
    ensures ClockText(t)[1..3] == t.hour && ClockText(t)[4..6] == t.minute && ClockText(t)[7..9] == Seconds(t)
  {
    var s := ClockText(t);
    assert s[1..3] == t.hour && s[4..6] == t.minute && s[7..9] == Seconds(t) && s[9..] == t.utc;
    assert s[0] == 'T' && s[3] == ':' && s[6] == ':';
    if t.utc == "z" {
      assert !Zone("z");
      assert !Tail("z");
    }
  }

  /** The rebuilt text has the fields of the compact one, but does not match when it ends in a small z. */
  lemma RebuiltMatches(c: Compact)
    requires c.time.Some? ==> Utc(c.time.value.utc)
    ensures UntilMatch(Rebuilt(c)) ==
      if c.time.None? then Some(Until(c.year, c.month, c.day, None))
      else if c.time.value.utc == "z" then None
      else Some(Until(c.year, c.month, c.day, Some(Clock(c.time.value.hour, c.time.value.minute, Seconds(c.time.value)))))
  {
    var rest := if c.time.Some? then ClockText(c.time.value) else "";
    DateTextMatches(c.year, c.month, c.day, rest);
    var s := Rebuilt(c);
    assert s == DateText(c.year, c.month, c.day) + rest;
    if c.time.Some? {
      ClockTextMatches(c.time.value);
    }
  }

  lemma CompactUtc(s: string)
    requires CompactMatch(s).Some? && CompactMatch(s).value.time.Some?
    ensures Utc(CompactMatch(s).value.time.value.utc)
  {
  }

  /** The compact texts accepted: real dates, and with a time, one in range and not in a small z. */
  predicate CompactAccepted(value: string, parses: string -> bool) {
    match CompactMatch(value)
    case None => false
    case Some(c) =>
      && NamesRealDate(c.year, c.month, c.day)
      && (c.time.Some? ==>
        && c.time.value.utc != "z"
        && ClockInRange(Clock(c.time.value.hour, c.time.value.minute, Seconds(c.time.value)))
        && parses(Rebuilt(c)))
  }

  /** isValidRRuleUntil. */
  method IsValidRRuleUntil(value: string, parses: string -> bool) returns (ok: bool)
    ensures ok <==> CompactAccepted(value, parses)
  {
    var found := CompactMatch(value);
    if found.None? { return false; }
    if found.value.time.Some? { CompactUtc(value); }
    RebuiltMatches(found.value);
    ok := IsValidRecurrenceUntil(Rebuilt(found.value), parses);
  }

  /** Eight digits are accepted exactly when the dashed date is, that is, when the date is real. */
  lemma CompactDatesAreTheSame(year: Digits4, month: Digits2, day: Digits2, parses: string -> bool)
    ensures CompactAccepted(year + month + day, parses) <==> UntilAccepted(DateText(year, month, day), parses)
    ensures UntilAccepted(DateText(year, month, day), parses) <==> NamesRealDate(year, month, day)
  {
    var s := year + month + day;
    assert s[..4] == year && s[4..6] == month && s[6..8] == day;
    RebuiltMatches(Compact(year, month, day, None));
    assert DateText(year, month, day) + "" == DateText(year, month, day);
  }

  /** With a time, the compact form is accepted exactly when its dashed form is and the Z, if any, is a capital. */
  lemma CompactTimesAreTheSame(value: string, parses: string -> bool)
    requires CompactMatch(value).Some? && CompactMatch(value).value.time.Some?
    ensures CompactAccepted(value, parses) <==>
      CompactMatch(value).value.time.value.utc != "z" && UntilAccepted(Rebuilt(CompactMatch(value).value), parses)
  {
    CompactUtc(value);
    RebuiltMatches(CompactMatch(value).value);
  }

  /** Nothing that ends in a small z is accepted, although the compact pattern allows it. */
  lemma SmallZIsRefused(s: string, parses: string -> bool)
    ensures !CompactAccepted(s + "z", parses)
  {
    var v := s + "z";
    assert v[|v| - 1] == 'z';
    if CompactMatch(v).Some? && CompactMatch(v).value.time.Some? {
      CompactTimeEnds(v[8..]);
    }
  }

  lemma CompactTimeEnds(t: string)
    requires CompactTimeMatch(t).Some? && t[|t| - 1] == 'z'
    ensures CompactTimeMatch(t).value.utc == "z"
  {
  }

  /** The pattern's own answer to a text with a small t and a small z. */
  lemma SmallLettersMatch()
    ensures CompactMatch("20260131t000000z").Some?
  {
    var s := "20260131t000000z";
    var t := "t000000z";
    assert s[8..] == t && s[..4] == "2026" && s[4..6] == "01" && s[6..8] == "31";
    assert t[1..3] == "00" && t[3..5] == "00" && t[5..7] == "00" && t[7..] == "z";
  }
}
