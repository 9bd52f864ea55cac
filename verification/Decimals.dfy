/** Decimal numerals. */
module Decimals {

  function Digit(d: nat): char
    requires d < 10
  {
    '0' + d as char
  }

  predicate IsDigit(c: char) {
    '0' <= c <= '9'
  }

  predicate AllDigits(text: string) {
    forall i :: 0 <= i < |text| ==> IsDigit(text[i])
  }

  function Decimal(n: nat): string {
    if n < 10 then [Digit(n)] else Decimal(n / 10) + [Digit(n % 10)]
  }

  function ValueOf(text: string): nat
    requires AllDigits(text)
  {
    if text == "" then 0 else ValueOf(text[..|text| - 1]) * 10 + (text[|text| - 1] as nat - '0' as nat)
  }

  function Power10(k: nat): nat {
    if k == 0 then 1 else 10 * Power10(k - 1)
  }

  /** Reading inverts printing, so distinct numbers are printed differently. */
  lemma {:induction false} ValueOfDecimal(n: nat)
    ensures AllDigits(Decimal(n)) && ValueOf(Decimal(n)) == n && Decimal(n) != ""
  {
    if n >= 10 {
      ValueOfDecimal(n / 10);
      var front := Decimal(n / 10);
      assert (front + [Digit(n % 10)])[..|front|] == front;
    }
  }

  lemma {:induction false} DecimalLength(n: nat, k: nat)
    requires 1 <= k && n < Power10(k)
    ensures |Decimal(n)| <= k
    decreases k
  {
    assert Power10(0) == 1;
    if n >= 10 {
      DecimalLength(n / 10, k - 1);
    }
  }

  /** A leading zero does not change a value. */
  lemma {:induction false} LeadingZero(text: string)
    requires AllDigits(text)
    ensures AllDigits("0" + text) && ValueOf("0" + text) == ValueOf(text)
    decreases |text|
  {
    if text != "" {
      var front := text[..|text| - 1];
      LeadingZero(front);
      assert ("0" + text)[..|text|] == "0" + front;
    } else {
      assert "0" + text == "0";
      assert "0"[..0] == "";
    }
  }

  /** No number but zero is printed with a zero in front. */
  lemma {:induction false} FirstDigit(n: nat)
    ensures Decimal(n) != "" && (n > 0 ==> Decimal(n)[0] != '0') && (n >= 10 ==> |Decimal(n)| >= 2)
    decreases n
  {
    if n >= 10 {
      FirstDigit(n / 10);
    }
  }

  lemma KnownNumerals()
    ensures Decimal(0) == "0" && Decimal(7) == "7" && Decimal(12) == "12" && Decimal(305) == "305"
    ensures ValueOf("305") == 305
  {
    assert Decimal(3) == "3" && Decimal(30) == "30";
    ValueOfDecimal(305);
  }
}
