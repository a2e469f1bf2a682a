/** Binary-coded decimals and the increment/decrement of
    hwdb/platform/buildplatform.cpp. `w` is the width of the C type
    `unsigned int` in hexadecimal digits (8 on the target, where
    `unsigned long long` has 2 * w of them). */
module Bcd {
  import opened Digits

  /** Decimal value of the n low digits of v; a digit above 9 counts as 9. */
  function FromBcd(v: nat, n: nat): nat {
    if n == 0 then 0
    else (if v % 16 > 9 then 9 else v % 16) + 10 * FromBcd(v / 16, n - 1)
  }

  /** The n low decimal digits of d as a binary-coded decimal. */
  function ToBcd(d: nat, n: nat): nat {
    if n == 0 then 0 else d % 10 + 16 * ToBcd(d / 10, n - 1)
  }

  /** What one call of the increment leaves in the counter. */
  function Incremented(v: nat, inc: int, max: nat, chars: nat, w: nat): nat {
    if max > 9 then Unsigned(v + inc, w)
    else ToBcd(Unsigned(FromBcd(v, chars) + inc, 2 * w), chars)
  }

  /** An `unsigned int` variable whose address is passed around. */
  class Counter {
    var value: nat

    constructor (v: nat)
      ensures value == v
    {
      value := v;
    }
  }

  method IncBcd(bcd: Counter, inc: int, max: nat, chars: nat, w: nat) returns (init: nat)
    requires bcd.value < Pow16(w) && chars <= w
    modifies bcd
    ensures init == old(bcd.value)
    ensures bcd.value == Incremented(old(bcd.value), inc, max, chars, w)
    ensures bcd.value < Pow16(w)
  {
    init := bcd.value;
    UnsignedBound(bcd.value + inc, w);
    if max > 0x9 {
      bcd.value := Unsigned(bcd.value + inc, w);
      return;
    }
    var dec := ReadDecimal(bcd.value, chars);
    dec := Unsigned(dec + inc, 2 * w);
    bcd.value := WriteDecimal(dec, chars);
    ToBcdIsBcd(dec, chars);
    DigitsBound(bcd.value, chars, 9);
    Pow16Monotone(chars, w);
  }

  method ReadDecimal(bcd: nat, chars: nat) returns (dec: nat)
    ensures dec == FromBcd(bcd, chars) < Pow10(chars)
  {
    dec := 0;
    var rest := bcd;
    for i := 0 to chars
      invariant rest == Drop16(bcd, i)
      invariant dec + Scale10(FromBcd(rest, chars - i), i) == FromBcd(bcd, chars)
    {
      var c := rest % 16;
      c := if c > 9 then 9 else c;
      ghost var digit := c;
      for j := 0 to i
        invariant c == Scale10(digit, j)
      {
        c := c * 10;
      }
      Scale10Split(digit, FromBcd(rest / 16, chars - i - 1), i);
      Drop16Last(bcd, i);
      dec := dec + c;
      rest := rest / 16;
    }
    Scale10Zero(chars);
    FromBcdBound(bcd, chars);
  }

  method WriteDecimal(dec: nat, chars: nat) returns (bcd: nat)
    ensures bcd == ToBcd(dec, chars)
  {
    bcd := 0;
    for i := 0 to chars
      invariant bcd + Scale16(ToBcd(Drop10(dec, i), chars - i), i) == ToBcd(dec, chars)
    {
      var c := 1;
      for j := 0 to i
        invariant c == Pow10(j)
      {
        c := c * 10;
      }
      Drop10IsDivision(dec, i);
      Drop10Last(dec, i);
      c := (dec / c) % 10;
      Scale16Split(c, ToBcd(Drop10(dec, i + 1), chars - i - 1), i);
      bcd := bcd + ShiftLeft(c, i);
    }
    Scale16Zero(chars);
  }

  function ShiftLeft(c: nat, digits: nat): (r: nat)
    ensures r == Scale16(c, digits)
  {
    if digits == 0 then c else 16 * ShiftLeft(c, digits - 1)
  }

  lemma {:induction false} Scale10Split(a: nat, b: nat, i: nat)
    ensures Scale10(a + 10 * b, i) == Scale10(a, i) + Scale10(b, i + 1)
  {
    if i > 0 { Scale10Split(a, b, i - 1); }
  }

  lemma {:induction false} Scale16Split(a: nat, b: nat, i: nat)
    ensures Scale16(a + 16 * b, i) == Scale16(a, i) + Scale16(b, i + 1)
  {
    if i > 0 { Scale16Split(a, b, i - 1); }
  }

  lemma {:induction false} Scale10Zero(i: nat)
    ensures Scale10(0, i) == 0
  {
    if i > 0 { Scale10Zero(i - 1); }
  }

  lemma {:induction false} Scale16Zero(i: nat)
    ensures Scale16(0, i) == 0
  {
    if i > 0 { Scale16Zero(i - 1); }
  }

  lemma {:induction false} FromBcdBound(v: nat, n: nat)
    ensures FromBcd(v, n) < Pow10(n)
  {
    if n > 0 { FromBcdBound(v / 16, n - 1); }
  }

  lemma {:induction false} ToBcdIsBcd(d: nat, n: nat)
    ensures DigitsLe(ToBcd(d, n), n, 9)
  {
    if n > 0 { ToBcdIsBcd(d / 10, n - 1); }
  }

  lemma {:induction false} DecodeEncodeSplit(d: nat, n: nat)
    ensures FromBcd(ToBcd(d, n), n) + Scale10(Drop10(d, n), n) == d
  {
    if n > 0 {
      DecodeEncodeSplit(d / 10, n - 1);
      var t := ToBcd(d, n);
      assert t % 16 == d % 10 && t / 16 == ToBcd(d / 10, n - 1);
      assert FromBcd(t, n) == d % 10 + 10 * FromBcd(t / 16, n - 1);
      assert Scale10(Drop10(d, n), n) == 10 * Scale10(Drop10(d / 10, n - 1), n - 1);
    }
  }

  /** Encoding then decoding keeps the n low decimal digits. */
  lemma DecodeEncode(d: nat, n: nat)
    ensures Pow10(n) > 0 && FromBcd(ToBcd(d, n), n) == d % Pow10(n)
  {
    PowBounds(n);
    DecodeEncodeSplit(d, n);
    Scale10Product(Drop10(d, n), n);
    FromBcdBound(ToBcd(d, n), n);
    RemainderIs(d, Pow10(n), Drop10(d, n), FromBcd(ToBcd(d, n), n));
  }

  lemma {:induction false} EncodeDecode(v: nat, n: nat)
    requires DigitsLe(v, n, 9)
    ensures ToBcd(FromBcd(v, n), n) == v
  {
    if n > 0 { EncodeDecode(v / 16, n - 1); }
  }

  /** Comparing two BCD numbers as integers compares their decimal values. */
  lemma {:induction false} BcdOrder(a: nat, b: nat, n: nat)
    requires DigitsLe(a, n, 9) && DigitsLe(b, n, 9)
    ensures a < b <==> FromBcd(a, n) < FromBcd(b, n)
    ensures a == b <==> FromBcd(a, n) == FromBcd(b, n)
  {
    if n > 0 { BcdOrder(a / 16, b / 16, n - 1); }
  }

  /** On a BCD number the increment adds in decimal, modulo 10^chars,
      whenever the sum is not negative and fits the wide type. */
  lemma IncrementAdds(v: nat, inc: int, chars: nat, w: nat)
    requires DigitsLe(v, chars, 9) && chars <= w
    requires 0 <= FromBcd(v, chars) + inc < Pow16(2 * w)
    ensures Pow10(chars) > 0
    ensures var r := Incremented(v, inc, 9, chars, w);
      DigitsLe(r, chars, 9) && FromBcd(r, chars) == (FromBcd(v, chars) + inc) % Pow10(chars)
  {
    var d := FromBcd(v, chars) + inc;
    UnsignedFits(d, 2 * w);
    ToBcdIsBcd(d, chars);
    DecodeEncode(d, chars);
  }

  lemma SmallModulo(d: nat, m: nat)
    requires d < m
    ensures d % m == d
  {
  }

  /** +1 and -1 undo each other away from 99..9 and 0. */
  lemma IncrementUndo(v: nat, chars: nat, w: nat)
    requires DigitsLe(v, chars, 9) && chars <= w
    ensures FromBcd(v, chars) + 1 < Pow10(chars) ==>
      Incremented(Incremented(v, 1, 9, chars, w), -1, 9, chars, w) == v
    ensures FromBcd(v, chars) > 0 ==>
      Incremented(Incremented(v, -1, 9, chars, w), 1, 9, chars, w) == v
  {
    var d := FromBcd(v, chars);
    FromBcdBound(v, chars);
    FitsLong(chars, w);
    EncodeDecode(v, chars);
    if d + 1 < Pow10(chars) {
      IncrementAdds(v, 1, chars, w);
      SmallModulo(d + 1, Pow10(chars));
      UnsignedFits(d, 2 * w);
    }
    if d > 0 {
      IncrementAdds(v, -1, chars, w);
      SmallModulo(d - 1, Pow10(chars));
      UnsignedFits(d, 2 * w);
    }
  }

  /** At the ends it wraps: 99..9 + 1 is 0 when the counter has no spare digit. */
  lemma IncrementWraps(chars: nat, w: nat)
    requires 0 < chars <= w
    ensures Incremented(Repeat(9, chars), 1, 9, chars, w) == 0
  {
    FitsLong(chars, w);
    DigitsRepeat(chars, 9);
    NinesValue(chars);
    var p := Pow10(chars);
    UnsignedFits(p, 2 * w);
    ToBcdIsBcd(p, chars);
    DecodeEncode(p, chars);
    assert p % p == 0;
    ZeroDigits(chars);
    BcdOrder(ToBcd(p, chars), 0, chars);
  }

  lemma {:induction false} ZeroDigits(n: nat)
    ensures DigitsLe(0, n, 9) && FromBcd(0, n) == 0
  {
    if n > 0 { ZeroDigits(n - 1); }
  }

  lemma {:induction false} NinesValue(n: nat)
    ensures FromBcd(Repeat(9, n), n) == Pow10(n) - 1
  {
    if n > 0 { NinesValue(n - 1); }
  }

  /** A decimal of at most w digits plus one fits the wide type. */
  lemma FitsLong(chars: nat, w: nat)
    requires chars <= w
    ensures Pow10(chars) <= Pow16(chars) <= Pow16(w) <= Pow16(2 * w)
    ensures chars > 0 ==> Pow10(chars) < Pow16(2 * w)
  {
    PowBounds(chars);
    Pow16Monotone(chars, w);
    Pow16Monotone(w, 2 * w);
    if chars > 0 {
      PowBounds(chars - 1);
    }
  }

  /** v has fewer digits than n: reading more of them changes nothing. */
  lemma {:induction false} FromBcdWiden(v: nat, n: nat, m: nat)
    requires n <= m && DigitsLe(v, n, 9)
    ensures FromBcd(v, m) == FromBcd(v, n)
  {
    if n > 0 { FromBcdWiden(v / 16, n - 1, m - 1); }
    else { ZeroDigits(m); }
  }
}
