/** Printing an int with %d. */
module Printf {

  const INT_MIN := -0x8000_0000
  const INT_MAX := 0x7fff_ffff

  function Digits(n: nat): (d: string) {
    if n < 10 then [('0' as int + n) as char]
    else Digits(n / 10) + [('0' as int + n % 10) as char]
  }

  /** printf %d */
  function Decimal(n: int): (d: string) {
    if n < 0 then "-" + Digits(-n) else Digits(n)
  }

  predicate IsDigit(c: char) { '0' <= c <= '9' }

  lemma {:induction false} DigitsAreDigits(n: nat)
    ensures Digits(n) != [] && forall i | 0 <= i < |Digits(n)| :: IsDigit(Digits(n)[i])
  {
    if n >= 10 { DigitsAreDigits(n / 10); }
  }

  lemma DigitsLength(n: nat, k: nat, bound: nat)
    requires 1 <= k && n < bound && bound == Power10(k)
    ensures |Digits(n)| <= k
  {
    if n >= 10 {
      DigitsLength(n / 10, k - 1, Power10(k - 1));
    }
  }

  function Power10(k: nat): nat { if k == 0 then 1 else 10 * Power10(k - 1) }

  lemma DecimalLength(n: int)
    requires INT_MIN <= n <= INT_MAX
    ensures |Decimal(n)| <= 11
  {
    var m := if n < 0 then -n else n;
    assert Power10(10) == 10_000_000_000 by {
      assert Power10(5) == 100_000;
    }
    DigitsLength(m, 10, Power10(10));
  }
}
