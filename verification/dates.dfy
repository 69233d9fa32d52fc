/** Calendar days and their "yyyy-MM-dd" text, as written inside
    `<lastmod>` by both the item and the sitemap renderers. */
module Dates {
  import opened Options

  /** A calendar day: year of era, month of year, day of month. The
      conversion from an instant in time to a day is not modelled. */
  datatype Date = Date(year: nat, month: nat, day: nat)

  predicate IsCalendarDay(d: Date) {
    1 <= d.year && 1 <= d.month <= 12 && 1 <= d.day <= 31
  }

  type CalendarDate = d: Date | IsCalendarDay(d) witness Date(1970, 1, 1)

  predicate IsDigit(c: char) {
    '0' <= c <= '9'
  }

  predicate AllDigits(s: string) {
    forall i | 0 <= i < |s| :: IsDigit(s[i])
  }

  function DigitChar(d: nat): (c: char)
    requires d < 10
    ensures IsDigit(c)
  {
    (48 + d) as char
  }

  function DigitValue(c: char): (d: nat)
    requires IsDigit(c)
    ensures d < 10
  {
    c as int - 48
  }

  function Pow10(k: nat): (p: nat)
    ensures p >= 1
  {
    if k == 0 then 1 else 10 * Pow10(k - 1)
  }

  /** The number a string of decimal digits denotes. */
  function Value(s: string): nat
    requires AllDigits(s)
  {
    if s == [] then 0 else 10 * Value(s[..|s| - 1]) + DigitValue(s[|s| - 1])
  }

  /** The shortest decimal numeral of `n`. */
  function Decimal(n: nat): (s: string)
    ensures 1 <= |s| && AllDigits(s)
    ensures Value(s) == n
    ensures |s| > 1 ==> s[0] != '0'
  {
    if n < 10 then
      [DigitChar(n)]
    else
      var prefix := Decimal(n / 10);
      var s := prefix + [DigitChar(n % 10)];
      assert s[..|s| - 1] == prefix;
      s
  }

  lemma {:induction false} DecimalFits(n: nat, k: nat)
    requires 1 <= k && n < Pow10(k)
    ensures |Decimal(n)| <= k
  {
    if n >= 10 {
      DecimalFits(n / 10, k - 1);
    }
  }

  /** `k` zero digits. */
  function Zeros(k: nat): (s: string)
    ensures |s| == k && AllDigits(s)
    ensures forall i | 0 <= i < k :: s[i] == '0'
  {
    if k == 0 then [] else Zeros(k - 1) + ['0']
  }

  lemma {:induction false} LeadingZerosKeepValue(k: nat, s: string)
    requires AllDigits(s)
    ensures AllDigits(Zeros(k) + s)
    ensures Value(Zeros(k) + s) == Value(s)
  {
    var z := Zeros(k);
    if s == [] {
      assert z + s == z;
      ZerosHaveNoValue(k);
    } else {
      var init := s[..|s| - 1];
      assert (z + s)[..|z + s| - 1] == z + init;
      LeadingZerosKeepValue(k, init);
    }
  }

  lemma {:induction false} ZerosHaveNoValue(k: nat)
    ensures Value(Zeros(k)) == 0
  {
    if k > 0 {
      assert Zeros(k)[..k - 1] == Zeros(k - 1);
      ZerosHaveNoValue(k - 1);
    }
  }

  /** Decimal numeral of `n` left-padded with zeros to at least `width`
      digits: a SimpleDateFormat number field of that many pattern letters. */
  function Padded(n: nat, width: nat): (s: string)
    ensures AllDigits(s) && Value(s) == n
    ensures width <= |s|
    ensures 1 <= width && n < Pow10(width) ==> |s| == width
    ensures |s| > width && |s| > 1 ==> s[0] != '0'
  {
    var digits := Decimal(n);
    var fill := if |digits| < width then width - |digits| else 0;
    LeadingZerosKeepValue(fill, digits);
    assert 1 <= width && n < Pow10(width) ==> |digits| <= width by {
      if 1 <= width && n < Pow10(width) {
        DecimalFits(n, width);
      }
    }
    Zeros(fill) + digits
  }

  /** Where the three fields sit in `y-m-dd` when month and day take two
      characters each. */
  /** Where the three fields and the two dashes sit in the joined text. */
  lemma JoinedLayout(y: string, m: string, dd: string)
    requires |m| == 2 && |dd| == 2
    ensures var s := y + "-" + m + "-" + dd;
            && |s| == |y| + 6
            && s[..|s| - 6] == y && s[|s| - 6] == '-'
            && s[|s| - 5..|s| - 3] == m && s[|s| - 3] == '-'
            && s[|s| - 2..] == dd
  {
  }

  /** Joining digit fields with dashes gives only digits and dashes. */
  lemma JoinedCharacters(y: string, m: string, dd: string)
    requires AllDigits(y) && AllDigits(m) && AllDigits(dd)
    ensures var s := y + "-" + m + "-" + dd;
            forall i | 0 <= i < |s| :: IsDigit(s[i]) || s[i] == '-'
  {
    var s := y + "-" + m + "-" + dd;
    forall i | 0 <= i < |s|
      ensures IsDigit(s[i]) || s[i] == '-'
    {
      if i < |y| {
        assert s[i] == y[i];
      } else if |y| < i < |y| + 1 + |m| {
        assert s[i] == m[i - |y| - 1];
      } else if |y| + 1 + |m| < i {
        assert s[i] == dd[i - |y| - 2 - |m|];
      }
    }
  }

  /** Three digit fields joined by dashes, the last two two wide, read back
      as those fields. */
  lemma JoinedFields(d: CalendarDate, y: string, m: string, dd: string)
    requires AllDigits(y) && |y| >= 4 && Value(y) == d.year
    requires AllDigits(m) && |m| == 2 && Value(m) == d.month
    requires AllDigits(dd) && |dd| == 2 && Value(dd) == d.day
    ensures ParseDay(y + "-" + m + "-" + dd) == Some(d)
  {
    JoinedLayout(y, m, dd);
  }

  /** The "yyyy-MM-dd" text of a day. */
  function Format(d: CalendarDate): (s: string)
    ensures ParseDay(s) == Some(d)
    ensures d.year < 10000 ==> |s| == 10
    ensures |s| > 10 ==> s[0] != '0'
    ensures forall i | 0 <= i < |s| :: IsDigit(s[i]) || s[i] == '-'
  {
    var y := Padded(d.year, 4);
    var m := Padded(d.month, 2);
    var dd := Padded(d.day, 2);
    assert |m| == 2 && |dd| == 2 by {
      assert Pow10(2) == 100;
    }
    JoinedLayout(y, m, dd);
    JoinedCharacters(y, m, dd);
    JoinedFields(d, y, m, dd);
    var s := y + "-" + m + "-" + dd;
    assert |s| > 10 ==> s[0] == y[0];
    s
  }


  /** Reads "yyyy-MM-dd" text back: a year of four or more digits, then
      two-digit month and day, separated by dashes. */
  function ParseDay(s: string): Option<Date> {
    if |s| >= 10 && s[|s| - 6] == '-' && s[|s| - 3] == '-'
       && AllDigits(s[..|s| - 6]) && AllDigits(s[|s| - 5..|s| - 3]) && AllDigits(s[|s| - 2..])
    then
      Some(Date(Value(s[..|s| - 6]), Value(s[|s| - 5..|s| - 3]), Value(s[|s| - 2..])))
    else
      None
  }

  lemma FormatInjective(a: CalendarDate, b: CalendarDate)
    requires Format(a) == Format(b)
    ensures a == b
  {
  }

  lemma {:induction false} ZeroValueMeansZeros(s: string)
    requires AllDigits(s) && Value(s) == 0
    ensures forall i | 0 <= i < |s| :: s[i] == '0'
  {
    if s != [] {
      ZeroValueMeansZeros(s[..|s| - 1]);
      assert forall i | 0 <= i < |s| - 1 :: s[i] == s[..|s| - 1][i];
    }
  }

  /** A digit string without a leading zero is the shortest numeral of its
      value: the two agree character for character. */
  /** Dividing off the last decimal digit. */
  lemma DivModOfLastDigit(a: nat, d: nat)
    requires d < 10
    ensures (10 * a + d) / 10 == a && (10 * a + d) % 10 == d
  {
  }

  lemma {:induction false} NumeralIsDecimal(s: string)
    requires 1 <= |s| && AllDigits(s)
    requires |s| > 1 ==> s[0] != '0'
    ensures s == Decimal(Value(s))
  {
    var v := Value(s);
    var last := s[|s| - 1];
    assert DigitChar(DigitValue(last)) == last;
    if |s| == 1 {
      assert s[..0] == [];
    } else {
      var init := s[..|s| - 1];
      assert init[0] == s[0];
      assert Value(init) >= 1 by {
        if Value(init) == 0 {
          ZeroValueMeansZeros(init);
        }
      }
      assert s[..|s| - 1] == init;
      DivModOfLastDigit(Value(init), DigitValue(last));
      NumeralIsDecimal(init);
      assert s == init + [last];
    }
  }

  /** A year too wide for its four-letter field is written as its plain
      numeral, with no padding. */
  lemma WideYearIsDecimal(d: CalendarDate)
    ensures var s := Format(d);
            |s| > 10 ==> s[..|s| - 6] == Decimal(d.year)
  {
  }

  /** Likewise for any field: a number wider than its field is not padded.
      Together with `NumeralIsDecimal`, this is what `Padded`'s no-leading-zero
      clause amounts to. */
  lemma WideFieldIsDecimal(n: nat, width: nat)
    ensures var s := Padded(n, width);
            |s| > width ==> s == Decimal(n)
  {
  }
}
