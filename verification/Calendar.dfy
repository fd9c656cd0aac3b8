/** Days since 1970-01-01 for a civil date, by the arithmetic both time parsers share. */
module Calendar {
  import opened Prelude
  import opened Texts

  datatype Date = Date(year: int, month: int, day: int)

  /** The parsers' own range check: any month may have 31 days. */
  predicate InRange(d: Date) {
    1 <= d.month <= 12 && 1 <= d.day <= 31
  }

  predicate RealDay(d: Date) {
    1 <= d.month <= 12 && 1 <= d.day <= DaysInMonth(d.year, d.month)
  }

  // ---------------------------------------------------------------------------
  // The arithmetic of the source
  // ---------------------------------------------------------------------------

  /** Division that rounds toward zero. */
  function Truncated(a: int, b: nat): int
    requires b > 0
  {
    if a >= 0 then a / b else -(-a / b)
  }

  /** Era, year of era and day of era for years that begin in March. */
  function FromMarch(year: int, monthOfYear: int, day: int): int {
    var era := Truncated(if year >= 0 then year else year - 399, 400);
    var yearOfEra := year - era * 400;
    var dayOfYear := Truncated(153 * monthOfYear + 2, 5) + day - 1;
    var dayOfEra := yearOfEra * 365 + Truncated(yearOfEra, 4) - Truncated(yearOfEra, 100) + dayOfYear;
    era * 146_097 + dayOfEra - 719_468
  }

  /** `days_from_civil`. */
  function DaysFromCivil(d: Date): int {
    FromMarch(if d.month <= 2 then d.year - 1 else d.year, if d.month > 2 then d.month - 3 else d.month + 9, d.day)
  }

  /** The same count inside `parse_amz_timestamp`. */
  function AmzDays(d: Date): int {
    FromMarch(if d.month <= 2 then d.year - 1 else d.year, (d.month + 9) % 12, d.day)
  }

  lemma AmzAgrees(d: Date)
    requires InRange(d)
    ensures AmzDays(d) == DaysFromCivil(d)
  {
    assert d.month > 2 ==> (d.month + 9) % 12 == d.month - 3;
  }

  // ---------------------------------------------------------------------------
  // Years and months
  // ---------------------------------------------------------------------------

  /** Days before the first of March of `year`, in the era-free form. */
  function YearStart(year: int): int {
    365 * year + year / 4 - year / 100 + year / 400
  }

  function MonthOffset(monthOfYear: int): int {
    (153 * monthOfYear + 2) / 5
  }

  lemma EraSplits(year: int)
    ensures Truncated(if year >= 0 then year else year - 399, 400) == year / 400
    ensures YearStart(year) == year / 400 * 146_097 + YearStart(year % 400)
  {
    var era, rest := year / 400, year % 400;
    assert year == 400 * era + rest;
    assert year / 4 == 100 * era + rest / 4 && year / 100 == 4 * era + rest / 100;
  }

  /** The count without eras. */
  function Count(d: Date): int {
    if d.month <= 2 then YearStart(d.year - 1) + MonthOffset(d.month + 9) + d.day - 719_469
    else YearStart(d.year) + MonthOffset(d.month - 3) + d.day - 719_469
  }

  lemma EraFree(d: Date)
    requires d.month >= 1
    ensures DaysFromCivil(d) == Count(d)
  {
    var year := if d.month <= 2 then d.year - 1 else d.year;
    EraSplits(year);
    assert year - year / 400 * 400 == year % 400;
  }

  lemma QuotientStep(year: int)
    ensures year / 4 - (year - 1) / 4 == if year % 4 == 0 then 1 else 0
    ensures year / 100 - (year - 1) / 100 == if year % 100 == 0 then 1 else 0
    ensures year / 400 - (year - 1) / 400 == if year % 400 == 0 then 1 else 0
  {
  }

  lemma YearLength(year: int)
    ensures YearStart(year) - YearStart(year - 1) == if IsLeapYear(year) then 366 else 365
  {
    QuotientStep(year);
    assert year % 400 == 0 ==> year % 100 == 0;
    assert year % 100 == 0 ==> year % 4 == 0;
  }

  function NextMonth(d: Date): Date {
    if d.month == 12 then Date(d.year + 1, 1, d.day) else Date(d.year, d.month + 1, d.day)
  }

  lemma NextMonthCounts(d: Date)
    requires InRange(d)
    ensures Count(NextMonth(d)) == Count(d) + DaysInMonth(d.year, d.month)
  {
    if d.month == 2 { YearLength(d.year); }
  }

  // ---------------------------------------------------------------------------
  // The count is the calendar's
  // ---------------------------------------------------------------------------

  function NextDay(d: Date): (r: Date)
    requires RealDay(d)
    ensures RealDay(r)
  {
    if d.day < DaysInMonth(d.year, d.month) then d.(day := d.day + 1)
    else if d.month < 12 then Date(d.year, d.month + 1, 1)
    else Date(d.year + 1, 1, 1)
  }

  function DaysLater(d: Date, n: nat): (r: Date)
    requires RealDay(d)
    ensures RealDay(r)
  {
    if n == 0 then d else NextDay(DaysLater(d, n - 1))
  }

  lemma EpochIsZero()
    ensures DaysFromCivil(Date(1970, 1, 1)) == 0
  {
  }

  lemma DayShift(d: Date, day: int)
    ensures Count(d.(day := day)) == Count(d) + day - d.day
  {
  }

  lemma NextDayIsOneMore(d: Date)
    requires RealDay(d)
    ensures Count(NextDay(d)) == Count(d) + 1
  {
    if d.day < DaysInMonth(d.year, d.month) {
      DayShift(d, d.day + 1);
    } else {
      NextMonthCounts(d.(day := 1));
      DayShift(d, 1);
    }
  }

  lemma {:induction false} WalkCounts(d: Date, n: nat)
    requires RealDay(d)
    ensures Count(DaysLater(d, n)) == Count(d) + n
  {
    if n > 0 {
      WalkCounts(d, n - 1);
      NextDayIsOneMore(DaysLater(d, n - 1));
    }
  }

  /** Walking the calendar for `n` days moves the count by `n`, before the epoch and after it. */
  lemma CountsDays(d: Date, n: nat)
    requires RealDay(d)
    ensures DaysFromCivil(DaysLater(d, n)) == DaysFromCivil(d) + n
  {
    WalkCounts(d, n);
    EraFree(d);
    EraFree(DaysLater(d, n));
  }

  ghost predicate Earlier(a: Date, b: Date) {
    a.year < b.year || (a.year == b.year && (a.month < b.month || (a.month == b.month && a.day < b.day)))
  }

  /** The first day of the `k`-th month, counted from January of year 0. */
  function FirstOf(k: int): Date {
    Date(k / 12, k % 12 + 1, 1)
  }

  lemma MonthAfter(k: int)
    ensures Count(FirstOf(k + 1)) == Count(FirstOf(k)) + DaysInMonth(k / 12, k % 12 + 1)
  {
    assert NextMonth(FirstOf(k)) == FirstOf(k + 1);
    NextMonthCounts(FirstOf(k));
  }

  lemma {:induction false} MonthsInOrder(k: int, l: int)
    requires k < l
    ensures Count(FirstOf(k)) + DaysInMonth(k / 12, k % 12 + 1) <= Count(FirstOf(l))
    decreases l - k
  {
    MonthAfter(l - 1);
    if k < l - 1 { MonthsInOrder(k, l - 1); }
  }

  lemma EarlierCountsLess(a: Date, b: Date)
    requires RealDay(a) && RealDay(b) && Earlier(a, b)
    ensures Count(a) < Count(b)
  {
    var k, l := 12 * a.year + a.month - 1, 12 * b.year + b.month - 1;
    assert FirstOf(k) == a.(day := 1) && FirstOf(l) == b.(day := 1);
    DayShift(a, 1);
    DayShift(b, 1);
    if k < l { MonthsInOrder(k, l); }
  }

  /** Real days are ordered by their counts, so no two share one. */
  lemma CountOrdersDays(a: Date, b: Date)
    requires RealDay(a) && RealDay(b)
    ensures Earlier(a, b) <==> DaysFromCivil(a) < DaysFromCivil(b)
    ensures a == b <==> DaysFromCivil(a) == DaysFromCivil(b)
  {
    EraFree(a);
    EraFree(b);
    if Earlier(a, b) { EarlierCountsLess(a, b); }
    if Earlier(b, a) { EarlierCountsLess(b, a); }
  }

  /** The day of the next month that follows the end of this one as `d` does. */
  function RolledOver(d: Date): Date
    requires InRange(d)
  {
    Date(d.year, d.month + 1, d.day - DaysInMonth(d.year, d.month))
  }

  /** A day its month does not have counts as a day of the next month. */
  lemma ImpossibleDayRollsOver(d: Date)
    requires InRange(d) && !RealDay(d)
    ensures d.month < 12 && RealDay(RolledOver(d))
    ensures DaysFromCivil(d) == DaysFromCivil(RolledOver(d))
  {
    NextMonthCounts(d);
    DayShift(NextMonth(d), RolledOver(d).day);
    EraFree(d);
    EraFree(RolledOver(d));
  }

  // ---------------------------------------------------------------------------
  // Times
  // ---------------------------------------------------------------------------

  datatype Clock = Clock(hour: int, minute: int, second: int)

  predicate ValidClock(c: Clock) {
    0 <= c.hour < 24 && 0 <= c.minute < 60 && 0 <= c.second < 60
  }

  /** The end of `parse_at`: nothing before the epoch is told apart. */
  function SecondsAt(d: Date, c: Clock): nat {
    var seconds := DaysFromCivil(d) * 86_400 + c.hour * 3_600 + c.minute * 60 + c.second;
    if seconds < 0 then 0 else seconds
  }

  /** What `parse_at` makes of the numbers in a date, with or without a time of day. */
  function ReadAt(d: Date, c: Option<Clock>): Option<nat> {
    if !InRange(d) || (c.Some? && !ValidClock(c.value)) then None
    else Some(SecondsAt(d, if c.Some? then c.value else Clock(0, 0, 0)))
  }

  ghost predicate EarlierTime(a: Date, c: Clock, b: Date, e: Clock) {
    || Earlier(a, b)
    || (a == b && c.hour < e.hour)
    || (a == b && c.hour == e.hour && c.minute < e.minute)
    || (a == b && c.hour == e.hour && c.minute == e.minute && c.second < e.second)
  }

  lemma ClockInDay(days: int, c: Clock, more: int, e: Clock)
    requires ValidClock(c) && ValidClock(e) && days < more
    ensures days * 86_400 + c.hour * 3_600 + c.minute * 60 + c.second
            < more * 86_400 + e.hour * 3_600 + e.minute * 60 + e.second
  {
  }

  /** Later instants never parse to fewer seconds, and to strictly more from 1970 on. */
  lemma SecondsOrderTimes(a: Date, c: Clock, b: Date, e: Clock)
    requires RealDay(a) && RealDay(b) && ValidClock(c) && ValidClock(e) && EarlierTime(a, c, b, e)
    ensures SecondsAt(a, c) <= SecondsAt(b, e)
    ensures a.year >= 1970 ==> SecondsAt(a, c) < SecondsAt(b, e)
  {
    CountOrdersDays(a, b);
    CountOrdersDays(a, Date(1970, 1, 1));
    EpochIsZero();
    if Earlier(a, b) { ClockInDay(DaysFromCivil(a), c, DaysFromCivil(b), e); }
  }

  // ---------------------------------------------------------------------------
  // The `YYYYMMDDTHHMMSSZ` form
  // ---------------------------------------------------------------------------

  /** Two characters as a number; any byte from `0` upward is taken for a digit. */
  function Pair(s: seq<byte>, i: nat): Option<nat>
    requires i + 1 < |s|
  {
    if s[i] < 48 || s[i + 1] < 48 then None else Some((s[i] - 48) as int * 10 + (s[i + 1] - 48))
  }

  /** `parse_amz_timestamp`, in seconds since the epoch; a leap second is let through. */
  function ParseAmz(s: seq<byte>): Option<nat> {
    if |s| != 16 || s[8] != 84 || s[15] != 90 then None
    else if Pair(s, 0).None? || Pair(s, 2).None? || Pair(s, 4).None? || Pair(s, 6).None?
            || Pair(s, 9).None? || Pair(s, 11).None? || Pair(s, 13).None? then None
    else
      var d := Date(Pair(s, 0).value * 100 + Pair(s, 2).value, Pair(s, 4).value, Pair(s, 6).value);
      var c := Clock(Pair(s, 9).value, Pair(s, 11).value, Pair(s, 13).value);
      if !InRange(d) || c.hour > 23 || c.minute > 59 || c.second > 60 then None
      else
        var seconds := AmzDays(d) * 86_400 + c.hour * 3_600 + c.minute * 60 + c.second;
        if seconds < 0 then None else Some(seconds)
  }

  function TwoDigits(n: nat): seq<byte>
    requires n < 100
  {
    [48 + n / 10, 48 + n % 10]
  }

  function FormatAmz(d: Date, c: Clock): seq<byte>
    requires 0 <= d.year < 10_000 && InRange(d) && ValidClock(c)
  {
    TwoDigits(d.year / 100) + TwoDigits(d.year % 100) + TwoDigits(d.month) + TwoDigits(d.day) + [84]
    + TwoDigits(c.hour) + TwoDigits(c.minute) + TwoDigits(c.second) + [90]
  }

  lemma PairReads(n: nat, s: seq<byte>, i: nat)
    requires n < 100 && i + 1 < |s| && s[i] == 48 + n / 10 && s[i + 1] == 48 + n % 10
    ensures Pair(s, i) == Some(n)
  {
  }

  lemma DatePairsRead(d: Date, c: Clock, s: seq<byte>)
    requires 0 <= d.year < 10_000 && InRange(d) && ValidClock(c) && s == FormatAmz(d, c)
    ensures |s| == 16 && s[8] == 84 && s[15] == 90
    ensures Pair(s, 0) == Some(d.year / 100) && Pair(s, 2) == Some(d.year % 100)
    ensures Pair(s, 4) == Some(d.month) && Pair(s, 6) == Some(d.day)
  {
    PairReads(d.year / 100, s, 0);
    PairReads(d.year % 100, s, 2);
    PairReads(d.month, s, 4);
    PairReads(d.day, s, 6);
  }

  lemma ClockPairsRead(d: Date, c: Clock, s: seq<byte>)
    requires 0 <= d.year < 10_000 && InRange(d) && ValidClock(c) && s == FormatAmz(d, c)
    ensures |s| == 16
    ensures Pair(s, 9) == Some(c.hour) && Pair(s, 11) == Some(c.minute) && Pair(s, 13) == Some(c.second)
  {
    PairReads(c.hour, s, 9);
    PairReads(c.minute, s, 11);
    PairReads(c.second, s, 13);
  }

  /** From 1970 to 9999 both parsers read a signing time as the same instant. */
  lemma AmzReadsTimestamps(d: Date, c: Clock)
    requires 1970 <= d.year < 10_000 && InRange(d) && ValidClock(c)
    ensures ParseAmz(FormatAmz(d, c)) == Some(SecondsAt(d, c))
  {
    DatePairsRead(d, c, FormatAmz(d, c));
    ClockPairsRead(d, c, FormatAmz(d, c));
    AmzAgrees(d);
    FromEpochOn(d);
  }

  /** Both parsers accept such a day, and read it as the real day it counts as. */
  lemma ImpossibleDayIsRead(d: Date, c: Option<Clock>)
    requires InRange(d) && !RealDay(d) && (c.Some? ==> ValidClock(c.value))
    ensures RealDay(RolledOver(d)) && ReadAt(d, c).Some? && ReadAt(d, c) == ReadAt(RolledOver(d), c)
    ensures c.Some? && 1970 <= d.year < 10_000 ==>
              ParseAmz(FormatAmz(d, c.value)) == ParseAmz(FormatAmz(RolledOver(d), c.value)) == ReadAt(d, c)
  {
    ImpossibleDayRollsOver(d);
    if c.Some? && 1970 <= d.year < 10_000 {
      AmzReadsTimestamps(d, c.value);
      AmzReadsTimestamps(RolledOver(d), c.value);
    }
  }

  lemma FromEpochOn(d: Date)
    requires d.year >= 1970 && InRange(d)
    ensures DaysFromCivil(d) >= 0
  {
    var first := d.(day := 1);
    DayShift(d, 1);
    EraFree(d);
    EraFree(first);
    EpochIsZero();
    CountOrdersDays(Date(1970, 1, 1), first);
  }
}
