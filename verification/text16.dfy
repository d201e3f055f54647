/** Text as the source sees it: .NET strings are sequences of UTF-16 code
    units, and every parser position counts code units. */
module Text16 {

  /** One UTF-16 code unit, the source's `char` (surrogate halves included). */
  newtype Char16 = x: int | 0 <= x < 0x1_0000

  type Text = seq<Char16>

  /** The code unit of a character of the Basic Multilingual Plane. */
  function Unit(c: char): Char16
    requires c as int < 0x1_0000
  {
    c as int as Char16
  }

  /** The code units of a string of Basic Multilingual Plane characters,
      such as a message or a literal in the source. */
  function Lit(s: string): (r: Text)
    requires forall i | 0 <= i < |s| :: s[i] as int < 0x1_0000
    ensures |r| == |s|
    ensures forall i | 0 <= i < |s| :: r[i] == Unit(s[i])
  {
    seq(|s|, i requires 0 <= i < |s| => Unit(s[i]))
  }

  lemma LitConcat(a: string, b: string)
    requires forall i | 0 <= i < |a| :: a[i] as int < 0x1_0000
    requires forall i | 0 <= i < |b| :: b[i] as int < 0x1_0000
    ensures Lit(a) + Lit(b) == Lit(a + b)
  {
  }

  predicate IsDigit(c: Char16) {
    Unit('0') <= c <= Unit('9')
  }

  predicate AllDigits(t: Text) {
    forall i | 0 <= i < |t| :: IsDigit(t[i])
  }

  function DigitValue(c: Char16): nat
    requires IsDigit(c)
  {
    (c - Unit('0')) as nat
  }

  function DigitChar(d: nat): (c: Char16)
    requires d < 10
    ensures IsDigit(c) && DigitValue(c) == d
  {
    (Unit('0') as int + d) as Char16
  }

  /** The value of a decimal digit string, most significant digit first. */
  function DigitsValue(t: Text): nat
    requires AllDigits(t)
  {
    if |t| == 0 then 0 else DigitsValue(t[..|t| - 1]) * 10 + DigitValue(t[|t| - 1])
  }

  /** Decimal rendering of a non-negative int, as `int.ToString()` gives it. */
  function DecimalText(n: nat): (r: Text)
    ensures |r| > 0 && AllDigits(r)
    ensures DigitsValue(r) == n
    ensures |r| > 1 ==> r[0] != Unit('0')
  {
    if n < 10 then [DigitChar(n)]
    else
      var prefix := DecimalText(n / 10);
      var r := prefix + [DigitChar(n % 10)];
      assert r[..|r| - 1] == prefix;
      r
  }
}
