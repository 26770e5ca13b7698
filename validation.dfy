/**
 * The form rules of the date-remembering page: an event name is required, a
 * day and a month may be left empty but otherwise must match their patterns,
 * and a year of one to four digits is required. The day and month patterns are
 * written out as their alternatives and proved equal to a plain digit-and-range
 * condition; the year pattern is read as a digit count, and its range is proved.
 */
module Validation {
  import opened Common

  /** `string().required()`: present and not empty. */
  predicate EventValid(event: Option<string>) {
    !Blank(event)
  }

  /** `/^(0?[1-9]|[12][0-9]|3[01])$/`, alternative by alternative. */
  predicate MatchesDayPattern(s: string) {
    (|s| == 1 && '1' <= s[0] <= '9')
    || (|s| == 2 && s[0] == '0' && '1' <= s[1] <= '9')
    || (|s| == 2 && (s[0] == '1' || s[0] == '2') && IsDigit(s[1]))
    || (|s| == 2 && s[0] == '3' && (s[1] == '0' || s[1] == '1'))
  }

  /** `/^(0?[1-9]|1[0-2])$/`. */
  predicate MatchesMonthPattern(s: string) {
    (|s| == 1 && '1' <= s[0] <= '9')
    || (|s| == 2 && s[0] == '0' && '1' <= s[1] <= '9')
    || (|s| == 2 && s[0] == '1' && '0' <= s[1] <= '2')
  }

  /** `/^\d{1,4}$/`. */
  predicate MatchesYearPattern(s: string) {
    1 <= |s| <= 4 && AllDigits(s)
  }

  /** The `day-range` test: an empty day passes. */
  predicate DayValid(day: Option<string>) {
    Blank(day) || MatchesDayPattern(day.value)
  }

  /** The `month-range` test: an empty month passes. */
  predicate MonthValid(month: Option<string>) {
    Blank(month) || MatchesMonthPattern(month.value)
  }

  /** `matches(...)` and `required()`: a missing or empty year fails. */
  predicate YearValid(year: Option<string>) {
    year.Some? && MatchesYearPattern(year.value)
  }

  /** One or two ASCII digits whose value lies in `lo..hi`. */
  predicate InRange(s: string, lo: nat, hi: nat) {
    1 <= |s| <= 2 && AllDigits(s) && lo <= DigitsValue(s) <= hi
  }

  /** The day pattern accepts exactly the one- or two-digit spellings of 1..31. */
  lemma DayPatternIsRange(s: string)
    ensures MatchesDayPattern(s) <==> InRange(s, 1, 31)
  {
    if |s| == 1 {
      assert s[..0] == [];
    } else if |s| == 2 && AllDigits(s) {
      TwoDigitsValue(s);
    }
  }

  /** The month pattern accepts exactly the one- or two-digit spellings of 1..12. */
  lemma MonthPatternIsRange(s: string)
    ensures MatchesMonthPattern(s) <==> InRange(s, 1, 12)
  {
    if |s| == 1 {
      assert s[..0] == [];
    } else if |s| == 2 && AllDigits(s) {
      TwoDigitsValue(s);
    }
  }

  /** A leading zero is accepted only in front of 1..9. */
  lemma LeadingZero(d: char)
    ensures MatchesDayPattern(['0', d]) <==> '1' <= d <= '9'
    ensures MatchesMonthPattern(['0', d]) <==> '1' <= d <= '9'
  {
  }

  function Pow10(k: nat): nat {
    if k == 0 then 1 else 10 * Pow10(k - 1)
  }

  /** A string of `k` digits spells a number below `10^k`. */
  lemma {:induction false} DigitsValueBelow(s: string)
    requires AllDigits(s)
    ensures DigitsValue(s) < Pow10(|s|)
  {
    if s != [] {
      var init := s[..|s| - 1];
      assert AllDigits(init);
      DigitsValueBelow(init);
      assert DigitsValue(init) + 1 <= Pow10(|init|);
      assert DigitsValue(s) <= DigitsValue(init) * 10 + 9;
    }
  }

  /** A number below `10^k` has a decimal spelling of at most `k` digits. */
  lemma {:induction false} NatToStringShort(n: nat, k: nat)
    requires 1 <= k && n < Pow10(k)
    ensures |NatToString(n)| <= k
  {
    if n >= 10 {
      assert k >= 2;
      NatToStringShort(n / 10, k - 1);
    }
  }

  /** The year pattern accepts only spellings of 0..9999, and the decimal spelling of every such year. */
  lemma YearPatternIsRange(s: string, n: nat)
    ensures MatchesYearPattern(s) ==> DigitsValue(s) <= 9999
    ensures n <= 9999 ==> MatchesYearPattern(NatToString(n))
  {
    assert Pow10(4) == 10000;
    if MatchesYearPattern(s) {
      DigitsValueBelow(s);
      assert Pow10(|s|) <= Pow10(4);
    }
    if n <= 9999 {
      NatToStringShort(n, 4);
    }
  }

  lemma ValidationExamples()
    ensures !EventValid(None) && !EventValid(Some("")) && EventValid(Some("Moon landing"))
    ensures DayValid(None) && DayValid(Some("")) && DayValid(Some("07")) && DayValid(Some("31"))
    ensures !DayValid(Some("0")) && !DayValid(Some("00")) && !DayValid(Some("32")) && !DayValid(Some("123"))
    ensures MonthValid(Some("9")) && MonthValid(Some("12"))
    ensures !MonthValid(Some("0")) && !MonthValid(Some("13"))
    ensures YearValid(Some("1969")) && YearValid(Some("7"))
    ensures !YearValid(None) && !YearValid(Some("")) && !YearValid(Some("12345")) && !YearValid(Some("19a9"))
  {
    assert "19a9"[2] == 'a';
  }
}
