/** Decimal digit strings: what `parseInt(digits, 10)` computes on a string of ASCII
    digits, and the canonical decimal spelling of a natural number. */
module Decimal {

  /** The regular-expression class `\d`: the ASCII digits only. */
  predicate IsDigit(c: char) {
    '0' <= c <= '9'
  }

  predicate AllDigits(ds: string) {
    forall i :: 0 <= i < |ds| ==> IsDigit(ds[i])
  }

  function DigitValue(c: char): (d: nat)
    requires IsDigit(c)
    ensures d < 10
  {
    c as int - '0' as int
  }

  function DigitChar(d: nat): (c: char)
    requires d < 10
    ensures IsDigit(c) && DigitValue(c) == d
  {
    ('0' as int + d) as char
  }

  /** 10 to the power k. */
  function Pow10(k: nat): (r: nat)
    ensures r > 0
  {
    if k == 0 then 1 else 10 * Pow10(k - 1)
  }

  /** The value of a digit string read in base 10 (the empty string reads as 0); k digits
      read as less than 10 to the power k. */
  function Value(ds: string): (v: nat)
    requires AllDigits(ds)
    ensures v < Pow10(|ds|)
    decreases |ds|
  {
    if |ds| == 0 then 0 else Value(ds[..|ds| - 1]) * 10 + DigitValue(ds[|ds| - 1])
  }

  /** The shortest decimal spelling of n, as `String(n)` writes it. */
  function Spell(n: nat): (ds: string)
    ensures |ds| > 0 && AllDigits(ds)
    decreases n
  {
    if n < 10 then [DigitChar(n)] else Spell(n / 10) + [DigitChar(n % 10)]
  }

  /** Reading back a spelled number gives the number. */
  lemma {:induction false} ValueOfSpell(n: nat)
    ensures Value(Spell(n)) == n
    decreases n
  {
    var ds := Spell(n);
    if n < 10 {
      assert ds[..|ds| - 1] == [];
    } else {
      ValueOfSpell(n / 10);
      assert ds[..|ds| - 1] == Spell(n / 10);
    }
  }

  /** Leading zeros do not change the value read. */
  lemma {:induction false} ValueLeadingZero(ds: string)
    requires AllDigits(ds)
    ensures AllDigits("0" + ds) && Value("0" + ds) == Value(ds)
    decreases |ds|
  {
    var zs := "0" + ds;
    if |ds| > 0 {
      assert zs[..|zs| - 1] == "0" + ds[..|ds| - 1];
      ValueLeadingZero(ds[..|ds| - 1]);
    }
  }
}
