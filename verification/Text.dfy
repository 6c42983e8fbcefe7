/** The textual forms the store and the bencode decoder rely on: byte search, decimal numbers as
    Rust's `parse` reads them, and fixed-width hexadecimal digests. */
module Text {
  import opened Basics

  const TAB: Byte := 9
  const NEWLINE: Byte := 10
  const RETURN: Byte := 13
  const PLUS: Byte := 43
  const MINUS: Byte := 45
  const ZERO: Byte := 48
  const NINE: Byte := 57

  /** Position of the first `b`, or the length if there is none. */
  function Find(s: Bytes, b: Byte): (i: nat)
    ensures i <= |s|
    ensures i < |s| ==> s[i] == b
    ensures b !in s[..i]
  {
    if s == [] || s[0] == b then 0
    else
      var i := 1 + Find(s[1..], b);
      assert s[..i] == [s[0]] + s[1..][..i - 1];
      i
  }

  lemma {:induction false} FindAfter(a: Bytes, b: Byte, c: Bytes)
    requires b !in a
    ensures Find(a + [b] + c, b) == |a|
  {
    if a == [] {
      assert a + [b] + c == [b] + c;
    } else {
      assert (a + [b] + c)[1..] == a[1..] + [b] + c;
      FindAfter(a[1..], b, c);
    }
  }

  // ---- decimal ----

  predicate IsDigit(b: Byte) { ZERO <= b <= NINE }

  predicate AllDigits(s: Bytes) { forall i :: 0 <= i < |s| ==> IsDigit(s[i]) }

  function DigitValue(s: Bytes): nat
    requires AllDigits(s)
  {
    if s == [] then 0
    else 10 * DigitValue(s[..|s| - 1]) + (s[|s| - 1] - ZERO) as nat
  }

  /** The decimal spelling Rust's formatting produces: no sign, no leading zero. */
  function Decimal(n: nat): (s: Bytes)
    ensures |s| >= 1 && AllDigits(s)
    ensures DigitValue(s) == n
  {
    if n < 10 then
      var d := [n as Byte + ZERO];
      assert d[..0] == [];
      d
    else
      var s := Decimal(n / 10) + [(n % 10) as Byte + ZERO];
      assert s[..|s| - 1] == Decimal(n / 10);
      s
  }

  /** `str::parse` for unsigned types: an optional plus, then at least one digit, in range. */
  function ParseUnsigned(s: Bytes, max: nat): (r: Option<nat>)
    ensures r.Some? ==> r.value <= max
  {
    var body := if s != [] && s[0] == PLUS then s[1..] else s;
    if body != [] && AllDigits(body) && DigitValue(body) <= max then Some(DigitValue(body)) else None
  }

  lemma ParseDecimal(n: nat, max: nat)
    requires n <= max
    ensures ParseUnsigned(Decimal(n), max) == Some(n)
  {
    assert IsDigit(Decimal(n)[0]);
  }

  const I64_MIN: int := -0x8000_0000_0000_0000
  const I64_MAX: int := 0x7FFF_FFFF_FFFF_FFFF

  /** `str::parse::<i64>`: an optional sign, then at least one digit, in range. */
  function ParseI64(s: Bytes): (r: Option<int>)
    ensures r.Some? ==> I64_MIN <= r.value <= I64_MAX
  {
    var negative := s != [] && s[0] == MINUS;
    var body := if s != [] && (s[0] == MINUS || s[0] == PLUS) then s[1..] else s;
    if body == [] || !AllDigits(body) then None
    else
      var v: int := if negative then 0 - DigitValue(body) else DigitValue(body);
      if I64_MIN <= v <= I64_MAX then Some(v) else None
  }

  function SignedDecimal(n: int): (s: Bytes)
    ensures |s| >= 1
    ensures forall i :: 0 <= i < |s| ==> IsDigit(s[i]) || s[i] == MINUS
  {
    if n < 0 then [MINUS] + Decimal(-n) else Decimal(n)
  }

  lemma ParseSignedDecimal(n: int)
    requires I64_MIN <= n <= I64_MAX
    ensures ParseI64(SignedDecimal(n)) == Some(n)
  {
    if n < 0 {
      assert ([MINUS] + Decimal(-n))[1..] == Decimal(-n);
    } else {
      assert IsDigit(Decimal(n)[0]);
    }
  }

  // ---- hexadecimal digests ----

  function HexDigit(v: nat): (b: Byte)
    requires v < 16
    ensures HexNibble(b) == Some(v)
  {
    if v < 10 then v as Byte + ZERO else v as Byte - 10 + 97
  }

  function HexNibble(b: Byte): (r: Option<nat>)
    ensures r.Some? ==> r.value < 16
  {
    if IsDigit(b) then Some((b - ZERO) as nat)
    else if 97 <= b <= 102 then Some((b - 97) as nat + 10)
    else if 65 <= b <= 70 then Some((b - 65) as nat + 10)
    else None
  }

  predicate AllHex(s: Bytes) { forall i :: 0 <= i < |s| ==> HexNibble(s[i]).Some? }

  function Pow16(k: nat): nat {
    if k == 0 then 1 else 16 * Pow16(k - 1)
  }

  function HexValue(s: Bytes): (v: nat)
    requires AllHex(s)
    ensures v < Pow16(|s|)
  {
    if s == [] then 0 else 16 * HexValue(s[..|s| - 1]) + HexNibble(s[|s| - 1]).value
  }

  function HexDigits(n: nat, k: nat): (s: Bytes)
    ensures |s| == k && AllHex(s)
  {
    if k == 0 then [] else HexDigits(n / 16, k - 1) + [HexDigit(n % 16)]
  }

  lemma {:induction false} HexRoundTrip(n: nat, k: nat)
    requires n < Pow16(k)
    ensures HexValue(HexDigits(n, k)) == n
  {
    if k > 0 {
      var s := HexDigits(n, k);
      HexRoundTrip(n / 16, k - 1);
      assert s[..k - 1] == HexDigits(n / 16, k - 1);
    }
  }

  lemma {:induction false} Pow16Is256(k: nat)
    ensures Pow16(2 * k) == Pow256(k)
  {
    if k > 0 {
      Pow16Is256(k - 1);
      assert Pow16(2 * k) == 16 * (16 * Pow16(2 * k - 2));
    }
  }

  lemma HexSpace()
    ensures Pow16(64) == 0x1_0000000000000000_0000000000000000_0000000000000000_0000000000000000
  {
    Pow16Is256(32);
    DigestSpace();
  }

  /** `Hash::to_hex`: 64 lower-case digits. */
  function ToHex(d: Digest): (s: Bytes)
    ensures |s| == 64 && AllHex(s)
  {
    HexDigits(d as nat, 64)
  }

  /** `Hash::from_hex`: exactly 64 digits, either case. */
  function FromHex(s: Bytes): Option<Digest> {
    if |s| == 64 && AllHex(s) then HexSpace(); Some(HexValue(s) as Digest) else None
  }

  lemma FromHexToHex(d: Digest)
    ensures FromHex(ToHex(d)) == Some(d)
  {
    hide HexDigits, HexValue, Pow16;
    HexSpace();
    HexRoundTrip(d as nat, 64);
  }
}
