/** printf's "%u" for unsigned integers. */
module Decimals {
  const UINT64: nat := 0x1_0000_0000_0000_0000
  const UINT32: nat := 0x1_0000_0000

  predicate IsDigit(c: char) {
    '0' <= c <= '9'
  }

  function Digit(d: nat): (c: char)
    requires d < 10
    ensures IsDigit(c) && c as nat - '0' as nat == d
  {
    ('0' as nat + d) as char
  }

  function Decimal(n: nat): (s: string)
    ensures s != "" && forall i :: 0 <= i < |s| ==> IsDigit(s[i])
  {
    if n < 10 then [Digit(n)] else Decimal(n / 10) + [Digit(n % 10)]
  }

  predicate AllDigits(s: string) {
    forall i :: 0 <= i < |s| ==> IsDigit(s[i])
  }

  /** The number that a run of digits denotes. */
  function Number(digits: string): nat
    requires AllDigits(digits)
  {
    if digits == "" then 0
    else Number(digits[..|digits| - 1]) * 10 + (digits[|digits| - 1] as nat - '0' as nat)
  }

  lemma NumberOfNothing()
    ensures Number("") == 0
  {
  }

  lemma {:induction false} NumberOfDecimal(n: nat)
    ensures AllDigits(Decimal(n)) && Number(Decimal(n)) == n
  {
    var s := Decimal(n);
    if n < 10 {
      assert s[..0] == "";
    } else {
      NumberOfDecimal(n / 10);
      assert s[..|s| - 1] == Decimal(n / 10);
    }
  }

  /** Decimal means decimal. */
  lemma DecimalNumerals()
    ensures Decimal(0) == "0" && Decimal(9072) == "9072"
    ensures Number("0") == 0 && Number("9072") == 9072
  {
    assert Decimal(90) == "90" && Decimal(907) == "907";
    NumberOfDecimal(0);
    NumberOfDecimal(9072);
  }

  function Pow10(k: nat): nat {
    if k == 0 then 1 else 10 * Pow10(k - 1)
  }

  lemma {:induction false} DecimalLength(n: nat, k: nat)
    requires k > 0 && n < Pow10(k)
    ensures |Decimal(n)| <= k
  {
    if n >= 10 {
      DecimalLength(n / 10, k - 1);
    }
  }

  lemma {:induction false} DecimalOfPow10(k: nat)
    ensures Pow10(k) > 0 && |Decimal(Pow10(k))| == k + 1
  {
    if k > 0 {
      DecimalOfPow10(k - 1);
      assert Pow10(k) / 10 == Pow10(k - 1);
    }
  }

  /** A 64-bit number has at most 20 digits. */
  lemma DecimalOfUint64(n: nat)
    requires n < UINT64
    ensures |Decimal(n)| <= 20
  {
    assert Pow10(5) == 100_000;
    assert Pow10(10) == 10_000_000_000;
    assert Pow10(15) == 1_000_000_000_000_000;
    assert Pow10(20) == 100_000_000_000_000_000_000;
    DecimalLength(n, 20);
  }

  /** A non-negative signed 64-bit number has at most 19, and one below a billion at most 9. */
  lemma DecimalOfMain(value: nat, timer: nat)
    ensures timer < 0x8000_0000_0000_0000 ==> |Decimal(timer)| <= 19
    ensures value < 1_000_000_000 ==> |Decimal(value)| <= 9
  {
    assert Pow10(4) == 10_000;
    assert Pow10(9) == 1_000_000_000;
    assert Pow10(14) == 100_000_000_000_000;
    assert Pow10(19) == 10_000_000_000_000_000_000;
    if timer < 0x8000_0000_0000_0000 {
      DecimalLength(timer, 19);
    }
    if value < 1_000_000_000 {
      DecimalLength(value, 9);
    }
  }
}
