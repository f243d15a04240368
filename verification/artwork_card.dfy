/** The list number shown on each gallery card
    (src/components/gallery/ArtworkCard.tsx): `String(index + 1).padStart(2, "0")`. */
module ArtworkCard {

  function DigitChar(d: nat): (c: char)
    requires d < 10
    ensures '0' <= c <= '9'
  {
    ('0' as int + d) as char
  }

  function DigitValue(c: char): (d: nat)
    requires '0' <= c <= '9'
    ensures d < 10 && DigitChar(d) == c
  {
    (c as int - '0' as int) as nat
  }

  predicate AllDigits(s: string) {
    forall i :: 0 <= i < |s| ==> '0' <= s[i] <= '9'
  }

  /** `String(n)` for a natural number: its decimal digits, no leading zero. */
  function Decimal(n: nat): (r: string)
    ensures |r| >= 1 && AllDigits(r)
    ensures (n < 10) == (|r| == 1)
    ensures n >= 10 ==> r[0] != '0'
  {
    if n < 10 then [DigitChar(n)] else Decimal(n / 10) + [DigitChar(n % 10)]
  }

  /** Reads a string of digits as a decimal number. */
  function ParseDecimal(s: string): nat
    requires AllDigits(s)
  {
    if |s| == 0 then 0 else ParseDecimal(s[..|s| - 1]) * 10 + DigitValue(s[|s| - 1])
  }

  /** Reading the decimal text of `n` gives `n` back. */
  lemma {:induction false} ParseDecimalRoundTrip(n: nat)
    ensures ParseDecimal(Decimal(n)) == n
  {
    if n >= 10 {
      var s := Decimal(n);
      assert s[..|s| - 1] == Decimal(n / 10);
      ParseDecimalRoundTrip(n / 10);
    }
  }

  /** A leading zero does not change the value read. */
  lemma {:induction false} ParseLeadingZero(s: string)
    requires AllDigits(s)
    ensures ParseDecimal(['0'] + s) == ParseDecimal(s)
  {
    if |s| > 0 {
      var t := ['0'] + s;
      assert t[..|t| - 1] == ['0'] + s[..|s| - 1];
      ParseLeadingZero(s[..|s| - 1]);
    }
  }

  /** `s.padStart(width, "0")`. */
  function PadStart(s: string, width: nat): (r: string)
    ensures |r| == if |s| >= width then |s| else width
    ensures |s| >= width ==> r == s
    ensures |s| < width ==> r[width - |s|..] == s && forall i :: 0 <= i < width - |s| ==> r[i] == '0'
    decreases width - |s|
  {
    if |s| >= width then s else PadStart(['0'] + s, width)
  }

  /** The card number of the card at position `index` (0-based). */
  function FormattedIndex(index: nat): (r: string)
    ensures |r| >= 2 && AllDigits(r)
    ensures index < 9 ==> r == ['0', DigitChar(index + 1)]
    ensures index >= 9 ==> r == Decimal(index + 1)
  {
    PadStart(Decimal(index + 1), 2)
  }

  /** The card number reads as `index + 1`. */
  lemma FormattedIndexValue(index: nat)
    ensures ParseDecimal(FormattedIndex(index)) == index + 1
  {
    ParseDecimalRoundTrip(index + 1);
    if index < 9 {
      ParseLeadingZero(Decimal(index + 1));
    }
  }

  /** Distinct cards carry distinct numbers. */
  lemma FormattedIndexInjective(i: nat, j: nat)
    requires FormattedIndex(i) == FormattedIndex(j)
    ensures i == j
  {
    FormattedIndexValue(i);
    FormattedIndexValue(j);
  }
}
