/** What decimal numerals are, without reference to how they are read, and that Rust's `parse` reads
    exactly those: any number of leading zeros, and a sign where one is allowed. */
module Numerals {
  import opened Basics
  import opened Text

  function Zeros(k: nat): (s: Bytes)
    ensures |s| == k && AllDigits(s)
  {
    if k == 0 then [] else [ZERO] + Zeros(k - 1)
  }

  /** The spelling of `n` without sign or leading zeros, behind some zeros. */
  ghost predicate Numeral(s: Bytes, n: nat) {
    exists k: nat :: s == Zeros(k) + Decimal(n)
  }

  /** A numeral, or one behind a plus. */
  ghost predicate Unsigned(s: Bytes, n: nat) {
    Numeral(s, n) || (s != [] && s[0] == PLUS && Numeral(s[1..], n))
  }

  /** The same, or one behind a minus; minus zero is zero. */
  ghost predicate Signed(s: Bytes, n: int) {
    if s != [] && s[0] == MINUS then n <= 0 && Numeral(s[1..], -n) else n >= 0 && Unsigned(s, n)
  }

  lemma {:induction false} DigitsAppend(a: Bytes, b: Byte)
    requires AllDigits(a) && IsDigit(b)
    ensures AllDigits(a + [b]) && DigitValue(a + [b]) == 10 * DigitValue(a) + (b - ZERO) as nat
  {
    assert (a + [b])[..|a|] == a;
  }

  lemma {:induction false} LeadingZero(s: Bytes)
    requires AllDigits(s)
    ensures AllDigits([ZERO] + s) && DigitValue([ZERO] + s) == DigitValue(s)
  {
    if s == [] {
      assert [ZERO] + s == [ZERO] && [ZERO][..0] == [];
    } else {
      var n := |s| - 1;
      LeadingZero(s[..n]);
      assert [ZERO] + s == ([ZERO] + s[..n]) + [s[n]];
      DigitsAppend([ZERO] + s[..n], s[n]);
    }
  }

  lemma {:induction false} LeadingZeros(k: nat, s: Bytes)
    requires AllDigits(s)
    ensures AllDigits(Zeros(k) + s) && DigitValue(Zeros(k) + s) == DigitValue(s)
  {
    if k == 0 {
      EmptyConcat(s);
    } else {
      LeadingZeros(k - 1, s);
      LeadingZero(Zeros(k - 1) + s);
      ConcatAssoc([ZERO], Zeros(k - 1), s);
    }
  }

  lemma {:induction false} Positive(s: Bytes)
    requires AllDigits(s) && s != [] && s[0] != ZERO
    ensures DigitValue(s) >= 1
  {
    if |s| > 1 {
      Positive(s[..|s| - 1]);
    } else {
      assert s[..0] == [];
    }
  }

  lemma DecimalShift(v: nat, d: nat)
    requires v >= 1 && d < 10
    ensures Decimal(10 * v + d) == Decimal(v) + [d as Byte + ZERO]
  {
    assert (10 * v + d) / 10 == v && (10 * v + d) % 10 == d;
  }

  /** Digits without a leading zero are the decimal spelling of their value. */
  lemma {:induction false} Canonical(s: Bytes)
    requires AllDigits(s) && s != [] && (s[0] != ZERO || |s| == 1)
    ensures Decimal(DigitValue(s)) == s
  {
    var n := |s| - 1;
    if n == 0 {
      assert s[..0] == [] && s == [s[0]];
    } else {
      Positive(s[..n]);
      Canonical(s[..n]);
      DecimalShift(DigitValue(s[..n]), (s[n] - ZERO) as nat);
      assert s == s[..n] + [s[n]];
    }
  }

  lemma OneMoreZero(s: Bytes, n: nat)
    requires Numeral(s, n)
    ensures Numeral([ZERO] + s, n)
  {
    hide Decimal;
    var k: nat :| s == Zeros(k) + Decimal(n);
    ConcatAssoc([ZERO], Zeros(k), Decimal(n));
    assert [ZERO] + s == Zeros(k + 1) + Decimal(n);
  }

  lemma NoZeros(n: nat)
    ensures Numeral(Decimal(n), n)
  {
    hide Decimal;
    EmptyConcat(Decimal(n));
    assert Decimal(n) == Zeros(0) + Decimal(n);
  }

  lemma {:induction false} DigitsAreNumeral(s: Bytes)
    requires AllDigits(s) && s != []
    ensures Numeral(s, DigitValue(s))
  {
    hide Numeral, DigitValue, Decimal;
    if s[0] != ZERO || |s| == 1 {
      Canonical(s);
      NoZeros(DigitValue(s));
    } else {
      DigitsAreNumeral(s[1..]);
      assert s == [ZERO] + s[1..];
      LeadingZero(s[1..]);
      OneMoreZero(s[1..], DigitValue(s));
    }
  }

  lemma NumeralIff(s: Bytes, n: nat)
    ensures Numeral(s, n) <==> s != [] && AllDigits(s) && DigitValue(s) == n
  {
    if Numeral(s, n) {
      var k: nat :| s == Zeros(k) + Decimal(n);
      LeadingZeros(k, Decimal(n));
    }
    if s != [] && AllDigits(s) {
      DigitsAreNumeral(s);
    }
  }

  /** `str::parse` of an unsigned type reads exactly the unsigned numerals in range. */
  lemma ParseUnsignedIff(s: Bytes, max: nat, n: nat)
    ensures ParseUnsigned(s, max) == Some(n) <==> Unsigned(s, n) && n <= max
  {
    hide Numeral, DigitValue;
    NumeralIff(s, n);
    if s != [] && s[0] == PLUS {
      NumeralIff(s[1..], n);
    }
  }

  /** `str::parse::<i64>` reads exactly the signed numerals in range. */
  lemma ParseI64Iff(s: Bytes, n: int)
    ensures ParseI64(s) == Some(n) <==> Signed(s, n) && I64_MIN <= n <= I64_MAX
  {
    hide Numeral, DigitValue;
    if s != [] && s[0] == MINUS {
      if n <= 0 {
        NumeralIff(s[1..], -n);
      }
    } else if n >= 0 {
      NumeralIff(s, n);
      if s != [] && s[0] == PLUS {
        NumeralIff(s[1..], n);
      }
    }
  }

  /** Nothing but digits, with at most a sign in front. */
  lemma NumeralBytes(s: Bytes, n: int, b: Byte)
    requires Signed(s, n) && !IsDigit(b) && b != PLUS && b != MINUS
    ensures s != [] && b !in s
  {
    hide Numeral, DigitValue;
    if s != [] && s[0] == MINUS {
      NumeralIff(s[1..], -n);
      assert s == [s[0]] + s[1..];
    } else {
      NumeralIff(s, n);
      if s != [] && s[0] == PLUS {
        NumeralIff(s[1..], n);
        assert s == [s[0]] + s[1..];
      }
    }
  }
}
