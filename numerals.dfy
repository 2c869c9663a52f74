/**
 * Rendering of natural numbers as digit strings, as Python's format
 * specifications `{n}` (decimal) and `{n:02X}` (upper-case hexadecimal, at
 * least two digits, zero-filled) do, and the value a digit string denotes.
 */
module Numerals {

  /** '0'..'9', then the upper-case letters 'A'..'F'. */
  predicate IsDigitChar(c: char) {
    '0' <= c <= '9' || 'A' <= c <= 'F'
  }

  /** The value of a digit character. */
  function DigitValue(c: char): nat
    requires IsDigitChar(c)
  {
    if c <= '9' then (c as int) - ('0' as int) else (c as int) - ('A' as int) + 10
  }

  /** `c` is a digit of `base`. */
  predicate IsDigit(c: char, base: nat) {
    IsDigitChar(c) && DigitValue(c) < base
  }

  predicate AllDigits(s: string, base: nat) {
    forall i :: 0 <= i < |s| ==> IsDigit(s[i], base)
  }

  /**
   * `s` has at least `width` characters and no leading zero beyond those
   * needed to reach `width`: Python zero-fills up to the width it is asked
   * for and never further.
   */
  predicate Canonical(s: string, width: nat) {
    |s| >= width && (|s| > width ==> s[0] != '0')
  }

  /** The character for digit `d`, whose value is `d`; letters are upper case, as `X` asks. */
  function DigitChar(d: nat): (c: char)
    requires d < 16
    ensures IsDigitChar(c) && DigitValue(c) == d
  {
    if d < 10 then ('0' as int + d) as char else ('A' as int + d - 10) as char
  }

  /** Every digit character is the character of its own value. */
  lemma DigitCharOfValue(c: char)
    requires IsDigitChar(c)
    ensures DigitChar(DigitValue(c)) == c
  {
  }

  /** The number a string of digits denotes, most significant digit first. */
  function ValueOf(s: string, base: nat): nat
    requires AllDigits(s, base)
  {
    if s == [] then 0
    else ValueOf(s[..|s| - 1], base) * base + DigitValue(s[|s| - 1])
  }

  /** The shortest digit string of `n` in `base` (a single "0" for zero). */
  function Numeral(n: nat, base: nat): (s: string)
    requires 2 <= base <= 16
    ensures |s| >= 1 && (|s| == 1 <==> n < base)
    decreases n
  {
    if n < base then [DigitChar(n)]
    else Numeral(n / base, base) + [DigitChar(n % base)]
  }

  /** Python's `{n}` for a non-negative integer. */
  function Decimal(n: nat): (r: string)
    ensures |r| >= 1 && (|r| == 1 <==> n < 10)
  {
    Numeral(n, 10)
  }

  /** Python's `{n:02X}` for a non-negative integer: at least two digits. */
  function Hex02(n: nat): (r: string)
    ensures |r| >= 2
  {
    if n < 16 then ['0', DigitChar(n)] else Numeral(n, 16)
  }

  /** Appending a digit shifts the value by one place. */
  lemma ValueOfAppend(p: string, d: nat, base: nat)
    requires d < base <= 16 && AllDigits(p, base)
    ensures AllDigits(p + [DigitChar(d)], base)
    ensures ValueOf(p + [DigitChar(d)], base) == ValueOf(p, base) * base + d
  {
    var s := p + [DigitChar(d)];
    assert s[..|s| - 1] == p;
  }

  lemma DivMod(n: nat, base: nat)
    requires 2 <= base <= n
    ensures n == (n / base) * base + n % base && n % base < base && 1 <= n / base < n
  {
  }

  lemma MulAtLeast(k: nat, base: nat)
    requires k >= 1
    ensures k * base >= base
  {
  }

  lemma MulSplit(q: nat, k: nat, base: nat)
    ensures (q + k) * base == q * base + k * base
  {
  }

  /** A quotient and remainder are determined by the number they make up. */
  lemma DivModOf(a: nat, d: nat, base: nat)
    requires d < base && 2 <= base
    ensures (a * base + d) / base == a && (a * base + d) % base == d
  {
    var n := a * base + d;
    var q, r := n / base, n % base;
    assert n == q * base + r && r < base;
    if q < a {
      MulSplit(q, a - q, base);
      MulAtLeast(a - q, base);
    } else if q > a {
      MulSplit(a, q - a, base);
      MulAtLeast(q - a, base);
    }
  }

  /**
   * A numeral is a non-empty string of digits of its base that denotes `n`,
   * with a leading zero only when it is the single digit of zero.
   */
  lemma {:induction false} NumeralDenotes(n: nat, base: nat)
    requires 2 <= base <= 16
    ensures |Numeral(n, base)| >= 1 && AllDigits(Numeral(n, base), base)
    ensures ValueOf(Numeral(n, base), base) == n
    ensures (|Numeral(n, base)| == 1 <==> n < base) && Canonical(Numeral(n, base), 1)
    ensures n >= base ==> Numeral(n, base)[0] != '0'
    decreases n
  {
    if n < base {
      var s := Numeral(n, base);
      assert s[..|s| - 1] == [];
    } else {
      DivMod(n, base);
      var m := n / base;
      NumeralDenotes(m, base);
      NumeralStep(n, base);
      var p := Numeral(m, base);
      assert Numeral(n, base)[0] == p[0];
      if m < base {
        assert p[0] == DigitChar(m) && DigitValue(p[0]) == m;
      }
    }
  }

  /** One step of the recursion of `Numeral`, given what the quotient's numeral denotes. */
  lemma NumeralStep(n: nat, base: nat)
    requires 2 <= base <= 16 && base <= n
    requires AllDigits(Numeral(n / base, base), base)
    requires ValueOf(Numeral(n / base, base), base) == n / base
    ensures AllDigits(Numeral(n, base), base) && ValueOf(Numeral(n, base), base) == n
  {
    DivMod(n, base);
    var p, r := Numeral(n / base, base), n % base;
    assert Numeral(n, base) == p + [DigitChar(r)];
    ValueOfAppend(p, r, base);
  }

  /**
   * The decimal rendering is a non-empty digit string denoting `n`, with no
   * leading zero unless it is "0" itself.
   */
  lemma DecimalDenotes(n: nat)
    ensures |Decimal(n)| >= 1 && AllDigits(Decimal(n), 10)
    ensures ValueOf(Decimal(n), 10) == n
    ensures Canonical(Decimal(n), 1) && (n >= 10 ==> Decimal(n)[0] != '0')
  {
    NumeralDenotes(n, 10);
  }

  /**
   * `{n:02X}` is a string of at least two upper-case hex digits denoting
   * `n`, zero-filled to two digits and no further.
   */
  lemma Hex02Denotes(n: nat)
    ensures |Hex02(n)| >= 2 && AllDigits(Hex02(n), 16)
    ensures ValueOf(Hex02(n), 16) == n
    ensures Canonical(Hex02(n), 2) && (n >= 16 ==> Hex02(n)[0] != '0')
  {
    var s := Hex02(n);
    if n < 16 {
      assert s[..1] == ['0'];
      assert ValueOf(['0'], 16) == 0 by { assert ['0'][..0] == []; }
    } else {
      NumeralDenotes(n, 16);
      assert Numeral(n, 16) == Numeral(n / 16, 16) + [DigitChar(n % 16)];
      NumeralDenotes(n / 16, 16);
    }
  }

  /** A byte renders as exactly two hex digits, high nibble first. */
  lemma Hex02OfByte(n: nat)
    requires n < 256
    ensures Hex02(n) == [DigitChar(n / 16), DigitChar(n % 16)]
    ensures ValueOf(Hex02(n), 16) == n
  {
    if n >= 16 {
      assert Numeral(n / 16, 16) == [DigitChar(n / 16)];
    }
    Hex02Denotes(n);
  }

  /** Past a byte, `{n:02X}` widens beyond two digits. */
  lemma Hex02Widens(n: nat)
    requires n >= 256
    ensures |Hex02(n)| > 2
  {
    var hi := Numeral(n / 16 / 16, 16);
    assert |hi| >= 1;
    assert Numeral(n / 16, 16) == hi + [DigitChar(n / 16 % 16)];
  }

  /** A digit string whose first digit is not zero denotes a positive number. */
  lemma {:induction false} ValueOfPositive(s: string, base: nat)
    requires 2 <= base && |s| >= 1 && AllDigits(s, base) && s[0] != '0'
    ensures ValueOf(s, base) >= 1
    decreases |s|
  {
    var p := s[..|s| - 1];
    if |s| == 1 {
      assert p == [] && ValueOf(p, base) == 0;
      assert IsDigit(s[0], base) && DigitValue(s[0]) >= 1;
    } else {
      assert p[0] == s[0];
      ValueOfPositive(p, base);
      MulAtLeast(ValueOf(p, base), base);
    }
  }

  /** The numeral of `a * base + d`, for a positive `a`, is `a`'s numeral and the digit `d`. */
  lemma NumeralOf(a: nat, d: nat, base: nat)
    requires 2 <= base <= 16 && a >= 1 && d < base
    ensures Numeral(a * base + d, base) == Numeral(a, base) + [DigitChar(d)]
  {
    DivModOf(a, d, base);
    MulAtLeast(a, base);
  }

  /**
   * The converse of `NumeralDenotes`: a digit string without a superfluous
   * leading zero is the numeral of the value it denotes.
   */
  lemma {:induction false} NumeralUnique(s: string, base: nat)
    requires 2 <= base <= 16 && AllDigits(s, base) && Canonical(s, 1)
    ensures s == Numeral(ValueOf(s, base), base)
    decreases |s|
  {
    var c := s[|s| - 1];
    DigitCharOfValue(c);
    if |s| == 1 {
      assert s[..0] == [];
    } else {
      var p := s[..|s| - 1];
      assert p[0] == s[0];
      var a, d := ValueOf(p, base), DigitValue(c);
      assert ValueOf(s, base) == a * base + d;
      ValueOfPositive(p, base);
      NumeralUnique(p, base);
      NumeralOf(a, d, base);
      assert s == p + [c];
    }
  }

  /** A decimal digit string without a superfluous leading zero is `{n}` of its value. */
  lemma DecimalUnique(s: string)
    requires AllDigits(s, 10) && Canonical(s, 1)
    ensures s == Decimal(ValueOf(s, 10))
  {
    NumeralUnique(s, 10);
  }

  /** A hex digit string zero-filled to two digits and no further is `{n:02X}` of its value. */
  lemma Hex02Unique(s: string)
    requires AllDigits(s, 16) && Canonical(s, 2)
    ensures s == Hex02(ValueOf(s, 16))
  {
    var n := ValueOf(s, 16);
    if s[0] == '0' {
      assert |s| == 2;
      var d := DigitValue(s[1]);
      assert s[..1] == ['0'];
      assert ValueOf(['0'], 16) == 0 by { assert ['0'][..0] == []; }
      DigitCharOfValue(s[1]);
      assert s == ['0', DigitChar(d)];
    } else {
      NumeralUnique(s, 16);
      ValueOfPositive(s[..|s| - 1], 16);
      assert s[..|s| - 1][0] == s[0];
    }
  }
}
