/** The textual forms of dates, times, timestamps and UUIDs that values may carry. */
module Texts {
  import opened Decimals

  predicate IsLeapYear(year: int) {
    year % 4 == 0 && (year % 100 != 0 || year % 400 == 0)
  }

  function DaysInMonth(year: int, month: int): (days: int)
    requires 1 <= month <= 12
    ensures 28 <= days <= 31
  {
    if month in {4, 6, 9, 11} then 30
    else if month == 2 then (if IsLeapYear(year) then 29 else 28)
    else 31
  }

  /** `validate_date`: YYYY-MM-DD, a real calendar day of a year from 1 on. */
  predicate ValidDate(s: string) {
    && |s| == 10 && s[4] == '-' && s[7] == '-'
    && AllDigits(s[0..4]) && AllDigits(s[5..7]) && AllDigits(s[8..10])
    && var year, month, day := FromDigits(s[0..4]), FromDigits(s[5..7]), FromDigits(s[8..10]);
       year != 0 && 1 <= month <= 12 && 1 <= day <= DaysInMonth(year, month)
  }

  /** `validate_time`: HH:MM:SS with up to nine fractional digits and no trailing zero. */
  predicate ValidTime(s: string) {
    && |s| >= 8 && s[2] == ':' && s[5] == ':'
    && AllDigits(s[0..2]) && AllDigits(s[3..5]) && AllDigits(s[6..8])
    && FromDigits(s[0..2]) <= 23 && FromDigits(s[3..5]) <= 59 && FromDigits(s[6..8]) <= 59
    && (|s| > 8 ==> s[8] == '.' && 10 <= |s| <= 18 && AllDigits(s[9..]) && s[|s| - 1] != '0')
  }

  function IndexOfT(s: string): (i: nat)
    ensures i <= |s| && (i < |s| ==> s[i] == 'T')
  {
    if s == [] || s[0] == 'T' then 0 else 1 + IndexOfT(s[1..])
  }

  predicate ValidTimestamp(s: string) {
    && s != [] && s[|s| - 1] == 'Z'
    && var t := IndexOfT(s[..|s| - 1]);
       t < |s| - 1 && 'T' !in s[t + 1..|s| - 1] && ValidDate(s[..t]) && ValidTime(s[t + 1..|s| - 1])
  }

  predicate ValidUuid(s: string) {
    && |s| == 36
    && forall i :: 0 <= i < 36 ==> if i in {8, 13, 18, 23} then s[i] == '-' else IsDigit(s[i]) || 'a' <= s[i] <= 'f'
  }
}
