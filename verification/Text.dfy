/** Decimal numerals, as `toString()` and `padStart` print them. */
module Text {

  predicate IsDigit(c: char) { '0' <= c <= '9' }

  predicate AllDigits(s: string) { forall c :: c in s ==> IsDigit(c) }

  function Digit(d: nat): (c: char)
    requires d < 10
    ensures IsDigit(c) && DigitValue(c) == d
  {
    '0' + d as char
  }

  function DigitValue(c: char): nat {
    if IsDigit(c) then c as int - '0' as int else 0
  }

  function DecNat(n: nat): (s: string)
    ensures s != "" && AllDigits(s)
  {
    if n < 10 then [Digit(n)] else DecNat(n / 10) + [Digit(n % 10)]
  }

  /** `BigInt.prototype.toString` */
  function Dec(n: int): string {
    if n < 0 then "-" + DecNat(-n) else DecNat(n)
  }

  /** The number a string of digits denotes. */
  function Value(s: string): nat {
    if s == "" then 0 else 10 * Value(s[..|s| - 1]) + DigitValue(s[|s| - 1])
  }

  lemma {:induction false} ValueOfDecNat(n: nat)
    ensures Value(DecNat(n)) == n
  {
    if n < 10 {
      assert DecNat(n)[..0] == "";
    } else {
      ValueOfDecNat(n / 10);
      assert DecNat(n)[..|DecNat(n)| - 1] == DecNat(n / 10);
    }
  }

  function Repeat(c: char, n: nat): (s: string)
    ensures |s| == n && forall x :: x in s ==> x == c
  {
    if n == 0 then "" else [c] + Repeat(c, n - 1)
  }

  /** `padStart(width, "0")` of a numeral */
  function Padded(n: nat, width: nat): (s: string)
    ensures |s| >= width && s != "" && AllDigits(s)
  {
    PadStart(DecNat(n), width)
  }

  function PadStart(d: string, width: nat): (s: string)
    requires d != "" && AllDigits(d)
    ensures |s| >= width && s != "" && AllDigits(s)
  {
    if |d| >= width then d else Repeat('0', width - |d|) + d
  }

  lemma {:induction false} ValueOfPadded(n: nat, width: nat)
    ensures Value(Padded(n, width)) == n
  {
    ValueOfDecNat(n);
    var d := DecNat(n);
    if |d| < width {
      ValueSkipsZeros(width - |d|, d);
    }
  }

  lemma {:induction false} ValueSkipsZeros(k: nat, d: string)
    ensures Value(Repeat('0', k) + d) == Value(d)
  {
    var z := Repeat('0', k);
    if d == "" {
      assert z + d == z;
      if k > 0 {
        assert z[..k - 1] == Repeat('0', k - 1) by { RepeatIsUniform('0', k); }
        ValueSkipsZeros(k - 1, "");
        assert Repeat('0', k - 1) + "" == Repeat('0', k - 1);
      }
    } else {
      assert (z + d)[..|z + d| - 1] == z + d[..|d| - 1];
      ValueSkipsZeros(k, d[..|d| - 1]);
    }
  }

  lemma RepeatIsUniform(c: char, k: nat)
    requires k > 0
    ensures Repeat(c, k)[..k - 1] == Repeat(c, k - 1)
  {
    var a, b := Repeat(c, k)[..k - 1], Repeat(c, k - 1);
    forall i | 0 <= i < k - 1 ensures a[i] == b[i] {
      assert Repeat(c, k)[i] in Repeat(c, k) && b[i] in b;
    }
  }

  function Abs(n: int): nat { if n < 0 then -n else n }
}
