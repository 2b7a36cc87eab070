/**
 * The date test behind `Date.strptime(s, '%Y%m%d')`, taken strictly: exactly
 * eight ASCII digits spelling a year, a month 01..12 and a day that exists in
 * that month of the proleptic Gregorian calendar.
 */
module Dates {
  import opened RubyCore

  predicate IsLeapYear(y: nat) {
    y % 4 == 0 && (y % 100 != 0 || y % 400 == 0)
  }

  /** The length of month `m` of year `y`: February has 29 days in leap years. */
  function DaysInMonth(y: nat, m: nat): (n: nat)
    requires 1 <= m <= 12
    ensures 28 <= n <= 31
    ensures n == 31 <==> m in {1, 3, 5, 7, 8, 10, 12}
    ensures n == 30 <==> m in {4, 6, 9, 11}
    ensures n == 29 <==> m == 2 && IsLeapYear(y)
    ensures n == 28 <==> m == 2 && !IsLeapYear(y)
  {
    if m == 2 then (if IsLeapYear(y) then 29 else 28)
    else if m == 4 || m == 6 || m == 9 || m == 11 then 30
    else 31
  }

  /** `s` parses as a `%Y%m%d` date. */
  predicate IsYmdDate(s: string) {
    |s| == 8 && AllDigits(s) &&
    var year, month, day := DecimalValue(s[..4]), DecimalValue(s[4..6]), DecimalValue(s[6..]);
    1 <= month <= 12 && 1 <= day <= DaysInMonth(year, month)
  }

  /** A date field is eight digits, so it has no `_` and is not empty. */
  lemma DateIsPlainField(s: string)
    requires IsYmdDate(s)
    ensures s != "" && '_' !in s && AllDigits(s)
  {
    assert forall i :: 0 <= i < |s| ==> s[i] != '_' by {
      forall i | 0 <= i < |s| ensures s[i] != '_' {
        assert IsDigit(s[i]);
      }
    }
  }

  function Digit(c: char): nat requires IsDigit(c) { c as int - '0' as int }

  lemma DecimalValueOfTwo(s: string)
    requires |s| == 2 && AllDigits(s)
    ensures DecimalValue(s) == 10 * Digit(s[0]) + Digit(s[1])
  {
    assert s[..1][..0] == [];
    assert DecimalValue(s[..1]) == Digit(s[0]);
  }

  lemma DecimalValueOfFour(s: string)
    requires |s| == 4 && AllDigits(s)
    ensures DecimalValue(s) == 1000 * Digit(s[0]) + 100 * Digit(s[1]) + 10 * Digit(s[2]) + Digit(s[3])
  {
    assert s[..3][..2] == s[..2];
    DecimalValueOfTwo(s[..2]);
  }

  /** The year, month and day an eight-digit string spells. */
  lemma YmdFields(s: string)
    requires |s| == 8 && AllDigits(s)
    ensures DecimalValue(s[..4]) == 1000 * Digit(s[0]) + 100 * Digit(s[1]) + 10 * Digit(s[2]) + Digit(s[3])
    ensures DecimalValue(s[4..6]) == 10 * Digit(s[4]) + Digit(s[5])
    ensures DecimalValue(s[6..]) == 10 * Digit(s[6]) + Digit(s[7])
  {
    DecimalValueOfFour(s[..4]);
    DecimalValueOfTwo(s[4..6]);
    DecimalValueOfTwo(s[6..]);
  }

  lemma ValidDateExamples()
    ensures IsYmdDate("20230101") && IsYmdDate("20230102")
  {
    YmdFields("20230101");
    YmdFields("20230102");
  }

  /** 29 February exists in a leap year. */
  lemma LeapDayExample()
    ensures IsYmdDate("20240229")
  {
    YmdFields("20240229");
  }

  /** Eight digits are no guarantee: month 99 and 29 February of a common year are rejected. */
  lemma InvalidDateExamples()
    ensures !IsYmdDate("99999999") && !IsYmdDate("20230229") && !IsYmdDate("123") && !IsYmdDate("*")
  {
    YmdFields("99999999");
    YmdFields("20230229");
  }
}
