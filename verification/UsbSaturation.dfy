/** BCD mode with an explicit upper bound above 99..9: such a bound passes the
    BCD test of hwdb/platform/buildplatform.cpp because it is truncated there,
    but the peeling loop then works on its untruncated digits. */
module UsbSaturation {
  import opened Digits
  import opened Bcd
  import opened UsbRange

  /** 99..90..0: nd - k nines above k + 1 zeros. */
  function Floor(nd: nat, k: nat): nat
    requires k <= nd
  {
    Scale16(Repeat(9, nd - k), k + 1)
  }

  /** Each low digit of hi stands for 9, or lo is above every value the round
      at that digit would lose. */
  ghost predicate Saturates(lo: nat, hi: nat, nd: nat) {
    forall k :: 0 <= k <= nd ==> Drop16(hi, k) % 16 >= 9 || lo > Floor(nd, k)
  }

  lemma {:induction false} FloorBounds(nd: nat, k: nat)
    requires k <= nd
    ensures Floor(nd, k) <= 16 * Repeat(9, nd) && DigitsLe(Floor(nd, k), nd + 1, 9)
  {
    var x := if k == 0 then Repeat(9, nd) else Floor(nd - 1, k - 1);
    FloorPeel(nd, k);
    if k == 0 { DigitsRepeat(nd, 9); } else { FloorBounds(nd - 1, k - 1); }
    assert DigitsLe(x, nd, 9) && x <= Repeat(9, nd);
    assert Floor(nd, k) % 16 == 0 && Floor(nd, k) / 16 == x;
  }

  lemma FloorPeel(nd: nat, k: nat)
    requires k <= nd
    ensures Floor(nd, k) == 16 * if k == 0 then Repeat(9, nd) else Floor(nd - 1, k - 1)
  {
    assert Scale16(Repeat(9, nd - k), k + 1) == 16 * Scale16(Repeat(9, nd - k), k);
  }

  lemma {:induction false} NineDigits(n: nat, k: nat)
    requires k < n
    ensures Drop16(Repeat(9, n), k) % 16 == 9
  {
    if k > 0 { NineDigits(n - 1, k - 1); }
  }

  /** Lowering a prefix that is not BCD leaves a BCD number below 99..9. */
  lemma ClampedBelow(h: nat, k: nat, n: nat, w: nat)
    requires k < n < w && DigitsLe(h, k, 15) && h > Repeat(9, k)
    ensures var r := Incremented(h, -1, 9, n, w); DigitsLe(r, k, 9) && r < Repeat(9, k)
  {
    ReadClamped(h, k, n);
    ReadPositive(h, k);
    FitsLong(n, w);
    TenfoldRoom(k, n);
    var d := FromBcd(h, n) - 1;
    UnsignedFits(d, 2 * w);
    SmallModulo(d, Pow10(n));
    DecodeEncode(d, n);
    ToBcdIsBcd(d, n);
    DigitsRepeat(k, 9);
    DigitsWiden(Repeat(9, k), k, n, 9);
    NinesValue(k);
    FromBcdWiden(Repeat(9, k), k, n);
    BcdOrder(ToBcd(d, n), Repeat(9, k), n);
    DigitsBound(Repeat(9, k), k, 9);
    DigitsNarrow(ToBcd(d, n), k, n, 9);
  }

  lemma {:induction false} ReadClamped(h: nat, k: nat, n: nat)
    requires k <= n && DigitsLe(h, k, 15)
    ensures FromBcd(h, n) == FromBcd(h, k) < Pow10(k)
  {
    FromBcdBound(h, k);
    if k > 0 { ReadClamped(h / 16, k - 1, n - 1); } else { ZeroDigits(n); }
  }

  lemma {:induction false} ReadPositive(h: nat, k: nat)
    requires DigitsLe(h, k, 15) && h > 0
    ensures FromBcd(h, k) > 0
  {
    if h % 16 == 0 { ReadPositive(h / 16, k - 1); }
  }

  /** The round at a digit below 9: everything above lo's own decade is lost. */
  lemma LosingRound(lo: nat, hi: nat, u: nat, nd: nat, n: nat, w: nat)
    requires nd < n < w && DigitsLe(lo, nd + 1, 9) && DigitsLe(hi, nd + 1, 15) && DigitsLe(u, nd + 1, 9)
    requires hi > Repeat(9, nd + 1) && hi % 16 < 9
    ensures lo > 16 * Repeat(9, nd) ==> Hits(lo, hi, u, nd, 9, n, w) == Bit(u >= lo)
    ensures lo <= 16 * Repeat(9, nd) && u == Repeat(9, nd + 1) ==> Hits(lo, hi, u, nd, 9, n, w) == 0
  {
    var (h, h') := (hi / 16, Incremented(hi / 16, -1, 9, n, w));
    var l' := Bump(lo / 16, lo % 16, 9, n, w);
    DigitsBound(lo, nd + 1, 9);
    DigitsBound(lo / 16, nd, 9);
    ClampedBelow(h, nd, n, w);
    BumpCases(lo, u, l', nd, 9, n, w);
    DigitsBound(h', nd, 9);
    if DigitsLe(l', nd, 9) {
      RangeExact(l', h', u / 16, nd - 1, 9, n, w);
    }
    LosingSum(lo, hi, u, l', h', nd);
    assert Hits(lo, hi, u, nd, 9, n, w) ==
      LoHit(lo, u, 9) + HiHit(hi, u, 9) + Hits(l', h', u / 16, nd - 1, 9, n, w);
  }

  lemma LosingSum(lo: nat, hi: nat, u: nat, l': nat, h': nat, nd: nat)
    requires DigitsLe(lo, nd + 1, 9) && DigitsLe(u, nd + 1, 9) && hi > Repeat(9, nd + 1) && hi % 16 < 9
    requires if lo % 16 > 0 && lo / 16 == Repeat(9, nd) then l' == Pow16(nd) else DigitsLe(l', nd, 9)
    requires h' < Repeat(9, nd) && Bit(u >= lo) == LoHit(lo, u, 9) + Bit(u / 16 >= l')
    ensures HiHit(hi, u, 9) == 0
    ensures lo > 16 * Repeat(9, nd) ==> l' == Pow16(nd) > u / 16 && Bit(u >= lo) == LoHit(lo, u, 9)
    ensures lo <= 16 * Repeat(9, nd) ==> DigitsLe(l', nd, 9)
    ensures lo <= 16 * Repeat(9, nd) && u == Repeat(9, nd + 1) ==> LoHit(lo, u, 9) == 0 && u / 16 > h'
  {
    DigitsBound(u / 16, nd, 9);
    DigitsBound(lo / 16, nd, 9);
  }

  /** The round at a digit of 9 or more passes the question to the next digit. */
  lemma SaturatesStep(lo: nat, hi: nat, nd: nat, n: nat, w: nat)
    requires 0 < nd < n < w && DigitsLe(lo, nd + 1, 9) && hi % 16 >= 9
    ensures Saturates(lo, hi, nd) <==> Saturates(Bump(lo / 16, lo % 16, 9, n, w), hi / 16, nd - 1)
  {
    var l' := Bump(lo / 16, lo % 16, 9, n, w);
    if Saturates(lo, hi, nd) {
      forall k | 0 <= k <= nd - 1
        ensures Drop16(hi / 16, k) % 16 >= 9 || l' > Floor(nd - 1, k)
      {
        assert Drop16(hi, k + 1) % 16 >= 9 || lo > Floor(nd, k + 1);
        FloorStep(lo, nd, k, n, w);
      }
    }
    if Saturates(l', hi / 16, nd - 1) {
      forall k | 0 <= k <= nd
        ensures Drop16(hi, k) % 16 >= 9 || lo > Floor(nd, k)
      {
        if k > 0 {
          assert Drop16(hi / 16, k - 1) % 16 >= 9 || l' > Floor(nd - 1, k - 1);
          FloorStep(lo, nd, k - 1, n, w);
        }
      }
    }
  }

  lemma FloorStep(lo: nat, nd: nat, k: nat, n: nat, w: nat)
    requires k < nd < n < w && DigitsLe(lo, nd + 1, 9)
    ensures lo > Floor(nd, k + 1) <==> Bump(lo / 16, lo % 16, 9, n, w) > Floor(nd - 1, k)
  {
    FloorPeel(nd, k + 1);
    FloorBounds(nd - 1, k);
    BumpOrder(lo / 16, Floor(nd - 1, k), nd, 9, n, w);
  }

  /** All nines above a low digit of at least 9, or lo in the last decade. */
  lemma SaturatesEasily(lo: nat, hi: nat, nd: nat)
    requires (hi % 16 >= 9 && hi / 16 == Repeat(9, nd)) || lo > 16 * Repeat(9, nd)
    ensures Saturates(lo, hi, nd)
  {
    forall k | 0 <= k <= nd
      ensures Drop16(hi, k) % 16 >= 9 || lo > Floor(nd, k)
    {
      FloorBounds(nd, k);
      if k > 0 && hi / 16 == Repeat(9, nd) { NineDigits(nd, k - 1); }
    }
  }

  /** With an upper bound above 99..9 every value from lo up is covered once,
      and none below, if the bound saturates; otherwise 99..9 is lost. */
  lemma {:induction false} RangeSaturated(lo: nat, hi: nat, u: nat, nd: nat, n: nat, w: nat)
    requires nd < n < w && DigitsLe(lo, nd + 1, 9) && DigitsLe(hi, nd + 1, 15) && DigitsLe(u, nd + 1, 9)
    requires hi > Repeat(9, nd + 1)
    ensures Saturates(lo, hi, nd) ==>
      Hits(lo, hi, u, nd, 9, n, w) == Bit(u >= lo)
    ensures !Saturates(lo, hi, nd) && u == Repeat(9, nd + 1) ==>
      Hits(lo, hi, u, nd, 9, n, w) == 0
    decreases nd
  {
    var l', h := Bump(lo / 16, lo % 16, 9, n, w), hi / 16;
    if hi % 16 < 9 {
      LosingRound(lo, hi, u, nd, n, w);
      SaturatesAtLoss(lo, hi, nd);
    } else if nd == 0 || h == lo / 16 {
      SaturatedStop(lo, hi, u, nd, n, w);
    } else {
      SaturatingRound(lo, hi, u, nd, n, w);
      if DigitsLe(l', nd, 9) && h > Repeat(9, nd) {
        SaturatesStep(lo, hi, nd, n, w);
        RangeSaturated(l', h, u / 16, nd - 1, n, w);
      } else {
        SaturatedEnd(lo, hi, u, nd, n, w);
      }
    }
  }

  lemma SaturatesAtLoss(lo: nat, hi: nat, nd: nat)
    requires hi % 16 < 9
    ensures Saturates(lo, hi, nd) <==> lo > 16 * Repeat(9, nd)
  {
    FloorPeel(nd, 0);
    if Saturates(lo, hi, nd) {
      assert Drop16(hi, 0) % 16 >= 9 || lo > Floor(nd, 0);
    }
    if lo > 16 * Repeat(9, nd) { SaturatesEasily(lo, hi, nd); }
  }

  /** The loop ends on an equal prefix, or has no digit left. */
  lemma SaturatedStop(lo: nat, hi: nat, u: nat, nd: nat, n: nat, w: nat)
    requires nd < n < w && DigitsLe(lo, nd + 1, 9) && DigitsLe(hi, nd + 1, 15) && DigitsLe(u, nd + 1, 9)
    requires hi > Repeat(9, nd + 1) && hi % 16 >= 9 && (nd == 0 || hi / 16 == lo / 16)
    ensures Saturates(lo, hi, nd)
    ensures Hits(lo, hi, u, nd, 9, n, w) == Bit(u >= lo)
  {
    DigitsBound(lo, nd + 1, 9);
    DigitsBound(lo / 16, nd, 9);
    DigitsBound(u / 16, nd, 9);
    SaturatesEasily(lo, hi, nd);
  }

  /** A round at a digit of 9 or more: only lo makes an entry. */
  lemma SaturatingRound(lo: nat, hi: nat, u: nat, nd: nat, n: nat, w: nat)
    requires 0 < nd < n < w && DigitsLe(lo, nd + 1, 9) && DigitsLe(hi, nd + 1, 15) && DigitsLe(u, nd + 1, 9)
    requires hi > Repeat(9, nd + 1) && hi % 16 >= 9 && hi / 16 != lo / 16
    ensures var (l', count) := (Bump(lo / 16, lo % 16, 9, n, w), Hits(lo, hi, u, nd, 9, n, w));
      var rest := Hits(l', hi / 16, u / 16, nd - 1, 9, n, w);
      && hi / 16 >= Repeat(9, nd) && DigitsLe(hi / 16, nd, 15)
      && (DigitsLe(l', nd, 9) || (l' == Pow16(nd) && lo > 16 * Repeat(9, nd)))
      && count == rest + (if u >= lo && u / 16 < l' then 1 else 0)
      && (u / 16 >= l' ==> u >= lo)
      && (DigitsLe(l', nd, 9) && u == Repeat(9, nd + 1) ==> count == rest)
  {
    var l' := Bump(lo / 16, lo % 16, 9, n, w);
    DigitsBound(lo, nd + 1, 9);
    BumpCases(lo, u, l', nd, 9, n, w);
    DigitsBound(lo / 16, nd, 9);
    NotPower(nd);
    assert Hits(lo, hi, u, nd, 9, n, w) == LoHit(lo, u, 9) + Hits(l', hi / 16, u / 16, nd - 1, 9, n, w);
  }

  lemma NotPower(nd: nat)
    ensures !DigitsLe(Pow16(nd), nd, 9)
  {
    if DigitsLe(Pow16(nd), nd, 9) { DigitsBound(Pow16(nd), nd, 9); }
  }

  lemma SaturatedEnd(lo: nat, hi: nat, u: nat, nd: nat, n: nat, w: nat)
    requires 0 < nd < n < w && DigitsLe(lo, nd + 1, 9) && DigitsLe(hi, nd + 1, 15) && DigitsLe(u, nd + 1, 9)
    requires hi > Repeat(9, nd + 1) && hi % 16 >= 9 && hi / 16 != lo / 16
    requires !DigitsLe(Bump(lo / 16, lo % 16, 9, n, w), nd, 9) || hi / 16 <= Repeat(9, nd)
    ensures Saturates(lo, hi, nd)
    ensures var l' := Bump(lo / 16, lo % 16, 9, n, w);
      Hits(l', hi / 16, u / 16, nd - 1, 9, n, w) == Bit(u / 16 >= l')
  {
    var (l', h) := (Bump(lo / 16, lo % 16, 9, n, w), hi / 16);
    SaturatingRound(lo, hi, u, nd, n, w);
    SaturatesEasily(lo, hi, nd);
    DigitsBound(u / 16, nd, 9);
    if DigitsLe(l', nd, 9) {
      DigitsRepeat(nd, 9);
      RangeExact(l', h, u / 16, nd - 1, 9, n, w);
    } else {
      DigitsBound(h, nd, 15);
      assert l' > h;
    }
  }

  /** Whether or not the bound saturates, no value is covered twice, and none
      below lo at all. */
  lemma {:induction false} RangeSaturatedAtMost(lo: nat, hi: nat, u: nat, nd: nat, n: nat, w: nat)
    requires nd < n < w && DigitsLe(lo, nd + 1, 9) && DigitsLe(hi, nd + 1, 15) && DigitsLe(u, nd + 1, 9)
    requires hi > Repeat(9, nd + 1)
    ensures Hits(lo, hi, u, nd, 9, n, w) <= Bit(u >= lo)
    decreases nd
  {
    var l', h := Bump(lo / 16, lo % 16, 9, n, w), hi / 16;
    if hi % 16 < 9 {
      LosingAtMost(lo, hi, u, nd, n, w);
    } else if nd == 0 || h == lo / 16 {
      SaturatedStop(lo, hi, u, nd, n, w);
    } else {
      SaturatingRound(lo, hi, u, nd, n, w);
      if DigitsLe(l', nd, 9) && h > Repeat(9, nd) {
        RangeSaturatedAtMost(l', h, u / 16, nd - 1, n, w);
      } else {
        SaturatedEnd(lo, hi, u, nd, n, w);
      }
    }
  }

  lemma LosingAtMost(lo: nat, hi: nat, u: nat, nd: nat, n: nat, w: nat)
    requires nd < n < w && DigitsLe(lo, nd + 1, 9) && DigitsLe(hi, nd + 1, 15) && DigitsLe(u, nd + 1, 9)
    requires hi > Repeat(9, nd + 1) && hi % 16 < 9
    ensures Hits(lo, hi, u, nd, 9, n, w) <= Bit(u >= lo)
  {
    var (h, h') := (hi / 16, Incremented(hi / 16, -1, 9, n, w));
    var l' := Bump(lo / 16, lo % 16, 9, n, w);
    DigitsBound(lo, nd + 1, 9);
    DigitsBound(lo / 16, nd, 9);
    ClampedBelow(h, nd, n, w);
    BumpCases(lo, u, l', nd, 9, n, w);
    DigitsBound(h', nd, 9);
    if DigitsLe(l', nd, 9) {
      RangeExact(l', h', u / 16, nd - 1, 9, n, w);
    }
    LosingSum(lo, hi, u, l', h', nd);
    assert Hits(lo, hi, u, nd, 9, n, w) ==
      LoHit(lo, u, 9) + HiHit(hi, u, 9) + Hits(l', h', u / 16, nd - 1, 9, n, w);
  }

  function Max(a: nat, b: nat): nat { if a < b then b else a }

  /** The last value covered when the bound does not saturate: the rounds end at
      the clamped and lowered bound, or in lo's own decade. */
  function LastCovered(lo: nat, hi: nat, nd: nat, n: nat, w: nat): nat
    decreases nd
  {
    var rest := if hi % 16 < 9 || nd == 0 then Incremented(hi / 16, -1, 9, n, w)
                else LastCovered(Bump(lo / 16, lo % 16, 9, n, w), hi / 16, nd - 1, n, w);
    16 * Max(rest, if lo % 16 > 0 then lo / 16 else 0) + 9
  }

  /** A round's part of an interval: lo's decade and what the later rounds cover. */
  lemma LastOfRound(lo: nat, u: nat, l': nat, rest: nat)
    requires Bit(u >= lo) == LoHit(lo, u, 9) + Bit(u / 16 >= l') && u % 16 <= 9
    requires if lo % 16 > 0 then l' > lo / 16 else l' == lo / 16
    ensures LoHit(lo, u, 9) + Bit(l' <= u / 16 <= rest) ==
      Bit(lo <= u <= 16 * Max(rest, if lo % 16 > 0 then lo / 16 else 0) + 9)
  {
    assert u == u / 16 * 16 + u % 16;
  }

  lemma BumpAbove(lo: nat, nd: nat, n: nat, w: nat)
    requires nd < n < w && DigitsLe(lo, nd + 1, 9)
    ensures var l' := Bump(lo / 16, lo % 16, 9, n, w);
      if lo % 16 > 0 then l' > lo / 16 else l' == lo / 16
  {
    BumpOrder(lo / 16, lo / 16, nd, 9, n, w);
  }

  /** When the bound does not saturate, the values from lo to LastCovered are
      covered once and no others. */
  lemma {:induction false} RangeUnsaturated(lo: nat, hi: nat, u: nat, nd: nat, n: nat, w: nat)
    requires nd < n < w && DigitsLe(lo, nd + 1, 9) && DigitsLe(hi, nd + 1, 15) && DigitsLe(u, nd + 1, 9)
    requires hi > Repeat(9, nd + 1) && !Saturates(lo, hi, nd)
    ensures Hits(lo, hi, u, nd, 9, n, w) == Bit(lo <= u <= LastCovered(lo, hi, nd, n, w))
    decreases nd
  {
    var l', h := Bump(lo / 16, lo % 16, 9, n, w), hi / 16;
    BumpAbove(lo, nd, n, w);
    if hi % 16 < 9 {
      LosingExactly(lo, hi, u, nd, n, w);
    } else if nd == 0 || h == lo / 16 {
      SaturatedStop(lo, hi, u, nd, n, w);
    } else if DigitsLe(l', nd, 9) && h > Repeat(9, nd) {
      SaturatesStep(lo, hi, nd, n, w);
      RangeUnsaturated(l', h, u / 16, nd - 1, n, w);
      DigitsBound(lo, nd + 1, 9);
      KeepingRound(lo, hi, u, nd, n, w);
      BumpCases(lo, u, l', nd, 9, n, w);
      LastOfRound(lo, u, l', LastCovered(l', h, nd - 1, n, w));
    } else {
      SaturatedEnd(lo, hi, u, nd, n, w);
    }
  }

  lemma KeepingRound(lo: nat, hi: nat, u: nat, nd: nat, n: nat, w: nat)
    requires 0 < nd && lo <= hi && hi % 16 >= 9 && hi / 16 != lo / 16
    ensures Hits(lo, hi, u, nd, 9, n, w) ==
      LoHit(lo, u, 9) + Hits(Bump(lo / 16, lo % 16, 9, n, w), hi / 16, u / 16, nd - 1, 9, n, w)
  {
  }

  lemma LosingExactly(lo: nat, hi: nat, u: nat, nd: nat, n: nat, w: nat)
    requires nd < n < w && DigitsLe(lo, nd + 1, 9) && DigitsLe(hi, nd + 1, 15) && DigitsLe(u, nd + 1, 9)
    requires hi > Repeat(9, nd + 1) && hi % 16 < 9 && !Saturates(lo, hi, nd)
    ensures Hits(lo, hi, u, nd, 9, n, w) == Bit(lo <= u <= LastCovered(lo, hi, nd, n, w))
  {
    var (h', l') := (Incremented(hi / 16, -1, 9, n, w), Bump(lo / 16, lo % 16, 9, n, w));
    SaturatesAtLoss(lo, hi, nd);
    DigitsBound(lo, nd + 1, 9);
    DigitsBound(lo / 16, nd, 9);
    ClampedBelow(hi / 16, nd, n, w);
    BumpCases(lo, u, l', nd, 9, n, w);
    BumpAbove(lo, nd, n, w);
    LosingSum(lo, hi, u, l', h', nd);
    RangeExact(l', h', u / 16, nd - 1, 9, n, w);
    LastOfRound(lo, u, l', h');
    assert Hits(lo, hi, u, nd, 9, n, w) ==
      LoHit(lo, u, 9) + HiHit(hi, u, 9) + Hits(l', h', u / 16, nd - 1, 9, n, w);
  }
}
