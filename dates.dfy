/**
  Calendar dates as the due-date sort reads them: datetime.strptime(s, '%Y-%m-%d')
  on the canonical, zero-padded form, and the chronological order of the result.
*/
module Dates {
  import opened Wrappers
  import opened Sorting

  datatype Date = Date(year: int, month: int, day: int)

  predicate IsLeapYear(y: int) {
    y % 4 == 0 && (y % 100 != 0 || y % 400 == 0)
  }

  function DaysInMonth(y: int, m: int): int
    requires 1 <= m <= 12
  {
    if m == 2 then (if IsLeapYear(y) then 29 else 28)
    else if m == 4 || m == 6 || m == 9 || m == 11 then 30
    else 31
  }

  /** The dates Python's datetime accepts: years 1 to 9999, Gregorian month lengths. */
  predicate ValidDate(d: Date) {
    1 <= d.year <= 9999 && 1 <= d.month <= 12 && 1 <= d.day <= DaysInMonth(d.year, d.month)
  }

  predicate IsDigit(c: char) {
    '0' <= c <= '9'
  }

  predicate AllDigits(s: string) {
    forall i :: 0 <= i < |s| ==> IsDigit(s[i])
  }

  function Pow10(n: nat): nat {
    if n == 0 then 1 else 10 * Pow10(n - 1)
  }

  /** The number a string of decimal digits spells. */
  function Number(s: string): (n: nat)
    requires AllDigits(s)
    ensures n < Pow10(|s|)
  {
    if s == [] then 0 else Number(s[..|s| - 1]) * 10 + (s[|s| - 1] as int - '0' as int)
  }

  /** The last `width` decimal digits of `n`, zero-padded on the left. */
  function Digits(n: nat, width: nat): (s: string)
    ensures |s| == width && AllDigits(s)
  {
    if width == 0 then [] else Digits(n / 10, width - 1) + [('0' as int + n % 10) as char]
  }

  lemma {:induction false} NumberOfDigits(n: nat, width: nat)
    requires n < Pow10(width)
    ensures Number(Digits(n, width)) == n
  {
    if width > 0 {
      var s := Digits(n, width);
      assert s[..|s| - 1] == Digits(n / 10, width - 1);
      NumberOfDigits(n / 10, width - 1);
    }
  }

  /** Dividing `10 * q + d` by ten recovers `q` and the digit `d`. */
  lemma DivModTen(q: nat, d: int)
    requires 0 <= d < 10
    ensures (q * 10 + d) / 10 == q && (q * 10 + d) % 10 == d
  {
  }

  lemma {:induction false} DigitsOfNumber(s: string)
    requires AllDigits(s)
    ensures Digits(Number(s), |s|) == s
  {
    if s != [] {
      var init, last := s[..|s| - 1], s[|s| - 1];
      var d := last as int - '0' as int;
      assert AllDigits(init);
      DigitsOfNumber(init);
      DivModTen(Number(init), d);
      assert Number(s) == Number(init) * 10 + d;
      assert Digits(Number(s), |s|) == Digits(Number(init), |init|) + [('0' as int + d) as char];
      assert s == init + [last];
    }
  }

  /** The canonical ISO 8601 text `YYYY-MM-DD` of a date. */
  function FormatIsoDate(d: Date): (s: string)
    requires ValidDate(d)
    ensures |s| == 10
  {
    Digits(d.year, 4) + "-" + Digits(d.month, 2) + "-" + Digits(d.day, 2)
  }

  /** `s` has the `YYYY-MM-DD` layout: ten characters, digits around two dashes. */
  predicate IsoShape(s: string) {
    |s| == 10 && s[4] == '-' && s[7] == '-' && AllDigits(s[..4]) && AllDigits(s[5..7]) && AllDigits(s[8..])
  }

  /** The year, month and day an ISO-shaped text spells, not yet checked as a date. */
  function ShapeDate(s: string): Date
    requires IsoShape(s)
  {
    Date(Number(s[..4]), Number(s[5..7]), Number(s[8..]))
  }

  /** Formatting the date an ISO-shaped text spells gives back the text. */
  lemma FormatShapeDate(s: string)
    requires IsoShape(s) && ValidDate(ShapeDate(s))
    ensures FormatIsoDate(ShapeDate(s)) == s
  {
    DigitsOfNumber(s[..4]);
    DigitsOfNumber(s[5..7]);
    DigitsOfNumber(s[8..]);
    assert s == s[..4] + "-" + s[5..7] + "-" + s[8..];
  }

  /** strptime(s, '%Y-%m-%d'), on zero-padded input; None stands for its ValueError. */
  function ParseIsoDate(s: string): (r: Option<Date>)
    ensures r.Some? ==> ValidDate(r.value) && FormatIsoDate(r.value) == s
  {
    if IsoShape(s) && ValidDate(ShapeDate(s)) then
      FormatShapeDate(s);
      Some(ShapeDate(s))
    else None
  }

  /** Every valid date reads back from its ISO text, so parsing inverts formatting. */
  lemma ParseFormat(d: Date)
    requires ValidDate(d)
    ensures ParseIsoDate(FormatIsoDate(d)) == Some(d)
  {
    var s := FormatIsoDate(d);
    assert s[..4] == Digits(d.year, 4);
    assert s[5..7] == Digits(d.month, 2);
    assert s[8..] == Digits(d.day, 2);
    NumberOfDigits(d.year, 4);
    NumberOfDigits(d.month, 2);
    NumberOfDigits(d.day, 2);
  }

  /** Chronological order on dates: by year, then month, then day. */
  predicate DateLe(a: Date, b: Date) {
    a.year < b.year
    || (a.year == b.year && a.month < b.month)
    || (a.year == b.year && a.month == b.month && a.day <= b.day)
  }

  lemma DateLeTotalOrder()
    ensures TotalOrder(DateLe)
  {
  }
}
