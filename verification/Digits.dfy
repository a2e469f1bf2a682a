/** Hexadecimal and decimal digit arithmetic: shifts by whole digits and the
    bound "at most n digits, each at most max". */
module Digits {

  function Pow10(n: nat): nat {
    if n == 0 then 1 else 10 * Pow10(n - 1)
  }

  function Pow16(n: nat): nat {
    if n == 0 then 1 else 16 * Pow16(n - 1)
  }

  /** v as an unsigned machine number of w hexadecimal digits: it wraps around. */
  function Unsigned(v: int, w: nat): nat
    decreases w
  {
    if w == 0 then 0 else v % 16 + 16 * Unsigned(v / 16, w - 1)
  }

  lemma {:induction false} UnsignedFits(v: nat, w: nat)
    requires v < Pow16(w)
    ensures Unsigned(v, w) == v
  {
    if w > 0 { UnsignedFits(v / 16, w - 1); }
  }

  lemma {:induction false} UnsignedBound(v: int, w: nat)
    ensures Unsigned(v, w) < Pow16(w)
    decreases w
  {
    if w > 0 { UnsignedBound(v / 16, w - 1); }
  }

  /** c times 10^j, one digit at a time. */
  function Scale10(c: nat, j: nat): nat {
    if j == 0 then c else 10 * Scale10(c, j - 1)
  }

  /** c << (4 * j). */
  function Scale16(c: nat, j: nat): nat {
    if j == 0 then c else 16 * Scale16(c, j - 1)
  }

  /** v >> (4 * k). */
  function Drop16(v: nat, k: nat): nat {
    if k == 0 then v else Drop16(v / 16, k - 1)
  }

  function Drop10(v: nat, k: nat): nat {
    if k == 0 then v else Drop10(v / 10, k - 1)
  }

  /** v has at most n hexadecimal digits and none of them exceeds max. */
  predicate DigitsLe(v: nat, n: nat, max: nat) {
    if n == 0 then v == 0 else v % 16 <= max && DigitsLe(v / 16, n - 1, max)
  }

  /** The number whose n digits are all d. */
  function Repeat(d: nat, n: nat): nat {
    if n == 0 then 0 else d + 16 * Repeat(d, n - 1)
  }

  lemma {:induction false} PowBounds(n: nat)
    ensures 1 <= Pow10(n) <= Pow16(n)
  {
    if n > 0 { PowBounds(n - 1); }
  }

  lemma {:induction false} Pow16Monotone(m: nat, n: nat)
    requires m <= n
    ensures Pow16(m) <= Pow16(n)
    decreases n - m
  {
    PowBounds(m);
    if m < n { Pow16Monotone(m + 1, n); }
  }

  lemma {:induction false} Scale16Pow(k: nat)
    ensures Scale16(1, k) == Pow16(k)
  {
    if k > 0 { Scale16Pow(k - 1); }
  }

  lemma {:induction false} Drop16Last(v: nat, k: nat)
    ensures Drop16(v, k + 1) == Drop16(v, k) / 16
  {
    if k > 0 { Drop16Last(v / 16, k - 1); }
  }

  lemma {:induction false} Drop10Last(v: nat, k: nat)
    ensures Drop10(v, k + 1) == Drop10(v, k) / 10
  {
    if k > 0 { Drop10Last(v / 10, k - 1); }
  }

  lemma {:induction false} Drop10IsDivision(v: nat, k: nat)
    ensures Pow10(k) > 0 && Drop10(v, k) == v / Pow10(k)
  {
    PowBounds(k);
    if k > 0 {
      Drop10IsDivision(v / 10, k - 1);
      DivideTwice(v, Pow10(k - 1));
    }
  }

  lemma DivideTwice(v: nat, p: nat)
    requires p > 0
    ensures v / (10 * p) == v / 10 / p
  {
    var q, r := v / 10 / p, v / 10 % p;
    assert v == q * (10 * p) + (10 * r + v % 10);
    QuotientIs(v, 10 * p, q, 10 * r + v % 10);
  }

  lemma QuotientIs(v: nat, m: nat, q: nat, r: nat)
    requires 0 <= r < m && v == q * m + r
    ensures v / m == q
  {
    var d := v / m - q;
    assert v == (v / m) * m + v % m;
    assert d * m == r - v % m;
    MultipleBound(d, m);
  }

  lemma MultipleBound(d: int, m: int)
    requires m > 0
    ensures d >= 1 ==> d * m >= m
    ensures d <= -1 ==> d * m <= -m
  {
  }

  lemma RemainderIs(v: nat, m: nat, q: nat, r: nat)
    requires 0 <= r < m && v == q * m + r
    ensures v % m == r
  {
    QuotientIs(v, m, q, r);
    assert v == (v / m) * m + v % m;
  }

  lemma {:induction false} Scale10Product(c: nat, j: nat)
    ensures Scale10(c, j) == c * Pow10(j)
  {
    if j > 0 { Scale10Product(c, j - 1); }
  }

  lemma {:induction false} DigitsBound(v: nat, n: nat, max: nat)
    requires max <= 15 && DigitsLe(v, n, max)
    ensures v <= Repeat(max, n) && v < Pow16(n)
  {
    if n > 0 { DigitsBound(v / 16, n - 1, max); }
  }

  lemma {:induction false} BoundGivesDigits(v: nat, n: nat)
    requires v < Pow16(n)
    ensures DigitsLe(v, n, 15)
  {
    if n > 0 { BoundGivesDigits(v / 16, n - 1); }
  }

  lemma {:induction false} DigitsWiden(v: nat, n: nat, m: nat, max: nat)
    requires n <= m && DigitsLe(v, n, max)
    ensures DigitsLe(v, m, max)
  {
    if n > 0 { DigitsWiden(v / 16, n - 1, m - 1, max); }
    else if m > 0 { DigitsWiden(0, 0, m - 1, max); }
  }

  lemma {:induction false} DigitsNarrow(v: nat, n: nat, m: nat, max: nat)
    requires n <= m && DigitsLe(v, m, max) && v < Pow16(n)
    ensures DigitsLe(v, n, max)
  {
    if n > 0 { DigitsNarrow(v / 16, n - 1, m - 1, max); }
  }

  lemma {:induction false} DigitsRepeat(n: nat, max: nat)
    requires max <= 15
    ensures DigitsLe(Repeat(max, n), n, max)
  {
    if n > 0 { DigitsRepeat(n - 1, max); }
  }

  lemma {:induction false} RepeatF(n: nat)
    ensures Repeat(15, n) == Pow16(n) - 1
  {
    if n > 0 { RepeatF(n - 1); }
  }
}
