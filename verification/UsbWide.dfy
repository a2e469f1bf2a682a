/** The patterns of `dump_usb_id` (hwdb/platform/buildplatform.cpp) on all
    device values, also those with a digit above 9, when the range is taken to
    be decimal: only decimal digits are peeled, but a free digit is matched by a
    `*`. */
module UsbWide {
  import opened Digits
  import opened Bcd
  import opened UsbRange
  import opened UsbSaturation
  import opened UsbText

  ghost predicate SomeMatch(es: seq<Entry>, u: nat, nd: nat, max: nat, free: bool) {
    exists e <- es :: Matches(e, u, nd, max, free)
  }

  /** u ends the digits of lo's own round. */
  predicate LoPart(lo: nat, u: nat) { lo % 16 > 0 && u / 16 == lo / 16 && lo % 16 <= u % 16 <= 9 }

  predicate HiPart(hi: nat, u: nat) { hi % 16 < 9 && u / 16 == hi / 16 && u % 16 <= hi % 16 }

  /** The loop ends in this round with one entry. */
  predicate LastPart(lo: nat, hi: nat, u: nat, nd: nat, free: bool) {
    && (nd > 0 ==> u / 16 == lo / 16)
    && if lo % 16 == 0 && hi % 16 >= 9 then free else lo % 16 <= u % 16 <= Truncate(hi % 16, 9)
  }

  /** Whether some entry of a decimal range matches u, by arithmetic alone. */
  predicate Wide(lo: nat, hi: nat, u: nat, nd: nat, free: bool, n: nat, w: nat)
    decreases nd
  {
    if lo > hi then false
    else if lo / 16 == hi / 16 || nd == 0 then LastPart(lo, hi, u, nd, free)
    else
      LoPart(lo, u) || HiPart(hi, u) ||
      Wide(Bump(lo / 16, lo % 16, 9, n, w), Lower(hi / 16, Truncate(hi % 16, 9), 9, n, w), u / 16, nd - 1, true, n, w)
  }

  lemma SomeConcat(a: seq<Entry>, b: seq<Entry>, u: nat, nd: nat, max: nat, free: bool)
    ensures SomeMatch(a + b, u, nd, max, free) <==> SomeMatch(a, u, nd, max, free) || SomeMatch(b, u, nd, max, free)
  {
    assert forall e :: e in a + b <==> e in a || e in b;
  }

  /** Entries with fewer digits see the value without its last digit. */
  lemma SomePeel(es: seq<Entry>, u: nat, nd: nat, max: nat, free: bool)
    requires nd > 0 && forall e <- es :: e.digits <= nd - 1
    ensures SomeMatch(es, u, nd, max, free) <==> SomeMatch(es, u / 16, nd - 1, max, true)
  {
    forall e | e in es
      ensures Matches(e, u, nd, max, free) <==> Matches(e, u / 16, nd - 1, max, true)
    {
      assert Drop16(u, nd - e.digits) == Drop16(u / 16, nd - 1 - e.digits);
    }
  }

  lemma SomeOfRound(lo: nat, hi: nat, u: nat, nd: nat, free: bool)
    requires nd > 0
    ensures SomeMatch(RoundEntries(lo, hi, nd, 9), u, nd, 9, free) <==> LoPart(lo, u) || HiPart(hi, u)
  {
    var a := if lo % 16 > 0 then [Entry(lo / 16, nd, lo % 16, 9)] else [];
    var b := if Truncate(hi % 16, 9) < 9 then [Entry(hi / 16, nd, 0, hi % 16)] else [];
    SomeConcat(a, b, u, nd, 9, free);
    if a != [] { assert a[0] in a && (Matches(a[0], u, nd, 9, free) <==> LoPart(lo, u)); }
    if b != [] { assert b[0] in b && (Matches(b[0], u, nd, 9, free) <==> HiPart(hi, u)); }
  }

  lemma SomeLast(lo: nat, hi: nat, u: nat, nd: nat, free: bool)
    ensures SomeMatch([Entry(lo / 16, nd, lo % 16, Truncate(hi % 16, 9))], u, nd, 9, free) <==>
      LastPart(lo, hi, u, nd, free)
  {
    var e := Entry(lo / 16, nd, lo % 16, Truncate(hi % 16, 9));
    assert e in [e] && (Matches(e, u, nd, 9, free) <==> LastPart(lo, hi, u, nd, free));
  }

  lemma SomeStep(lo: nat, hi: nat, u: nat, l': nat, h': nat, nd: nat, free: bool, n: nat, w: nat)
    requires nd > 0 && lo <= hi && lo / 16 != hi / 16
    requires l' == Bump(lo / 16, lo % 16, 9, n, w) && h' == Lower(hi / 16, Truncate(hi % 16, 9), 9, n, w)
    ensures SomeMatch(Ranges(lo, hi, nd, 9, n, w), u, nd, 9, free) <==>
      LoPart(lo, u) || HiPart(hi, u) || SomeMatch(Ranges(l', h', nd - 1, 9, n, w), u / 16, nd - 1, 9, true)
  {
    var rest := Ranges(l', h', nd - 1, 9, n, w);
    assert Ranges(lo, hi, nd, 9, n, w) == RoundEntries(lo, hi, nd, 9) + rest;
    SomeConcat(RoundEntries(lo, hi, nd, 9), rest, u, nd, 9, free);
    SomeOfRound(lo, hi, u, nd, free);
    RangesBound(l', h', nd - 1, 9, n, w);
    SomePeel(rest, u, nd, 9, free);
  }

  lemma {:induction false} SomeIsWide(lo: nat, hi: nat, u: nat, nd: nat, free: bool, n: nat, w: nat)
    ensures SomeMatch(Ranges(lo, hi, nd, 9, n, w), u, nd, 9, free) <==> Wide(lo, hi, u, nd, free, n, w)
    decreases nd
  {
    if lo <= hi {
      if lo / 16 == hi / 16 || nd == 0 {
        SomeLast(lo, hi, u, nd, free);
      } else {
        var (l', h') := (Bump(lo / 16, lo % 16, 9, n, w), Lower(hi / 16, Truncate(hi % 16, 9), 9, n, w));
        SomeStep(lo, hi, u, l', h', nd, free, n, w);
        SomeIsWide(l', h', u / 16, nd - 1, true, n, w);
      }
    }
  }

  /** On decimal values followed by free digits this is being covered. */
  lemma {:induction false} WideIsHits(lo: nat, hi: nat, u: nat, nd: nat, n: nat, w: nat)
    requires DigitsLe(u, nd + 1, 9)
    ensures Wide(lo, hi, u, nd, true, n, w) <==> Hits(lo, hi, u, nd, 9, n, w) > 0
    decreases nd
  {
    if lo <= hi && lo / 16 != hi / 16 && nd > 0 {
      WideIsHits(Bump(lo / 16, lo % 16, 9, n, w), Lower(hi / 16, Truncate(hi % 16, 9), 9, n, w), u / 16, nd - 1, n, w);
    }
  }

  /** top is hi with some of the 9s at its end replaced by F. */
  predicate Lowered(hi: nat, top: nat)
    decreases top
  {
    hi == top || (hi % 16 == 9 && top % 16 == 15 && Lowered(hi / 16, top / 16))
  }

  ghost predicate HiOk(hi: nat, nd: nat) {
    DigitsLe(hi, nd + 1, 9) || (hi > Repeat(9, nd + 1) && DigitsLe(hi, nd + 1, 15))
  }

  /** What the bounds are inside the loop. The values asked for are lo..top: top
      is above hi after hi was lowered from a number that ends in 0. */
  ghost predicate InLoop(lo: nat, hi: nat, top: nat, nd: nat) {
    DigitsLe(lo, nd + 1, 9) && HiOk(hi, nd) && hi <= top < Pow16(nd + 1) && Lowered(hi, top)
  }

  /** Decimal values are matched as they are covered. */
  lemma DecimalWide(lo: nat, hi: nat, u: nat, nd: nat, n: nat, w: nat)
    requires nd < n < w && DigitsLe(lo, nd + 1, 9) && HiOk(hi, nd) && DigitsLe(u, nd + 1, 9)
    ensures u < lo ==> !Wide(lo, hi, u, nd, true, n, w)
    ensures DigitsLe(hi, nd + 1, 9) && u > hi ==> !Wide(lo, hi, u, nd, true, n, w)
  {
    WideIsHits(lo, hi, u, nd, n, w);
    if DigitsLe(hi, nd + 1, 9) {
      RangeExact(lo, hi, u, nd, 9, n, w);
    } else {
      RangeSaturatedAtMost(lo, hi, u, nd, n, w);
    }
  }

  lemma NextHi(hi: nat, nd: nat, n: nat, w: nat)
    requires 0 < nd < n < w && HiOk(hi, nd) && hi / 16 > 0
    ensures var h' := Lower(hi / 16, Truncate(hi % 16, 9), 9, n, w);
      && HiOk(h', nd - 1) && h' <= hi / 16 < Pow16(nd)
      && (hi % 16 < 9 && DigitsLe(hi / 16, nd, 9) ==> DigitsLe(h', nd, 9) && h' < hi / 16)
      && (hi % 16 < 9 && !DigitsLe(hi / 16, nd, 9) ==> DigitsLe(h', nd, 9) && h' < Repeat(9, nd) < hi / 16)
  {
    var h := hi / 16;
    if DigitsLe(hi, nd + 1, 9) {
      DigitsBound(h, nd, 9);
      LowerOrder(h, h, nd, 9, n, w);
    } else {
      DigitsBound(h, nd, 15);
      if hi % 16 < 9 {
        DigitsRepeat(nd, 9);
        ClampedBelow(h, nd, n, w);
      } else if h == Repeat(9, nd) {
        DigitsRepeat(nd, 9);
      }
    }
  }

  lemma LowerDigit(h: nat, k: nat, n: nat, w: nat)
    requires k < n < w && DigitsLe(h, k, 9) && h % 16 > 0
    ensures Incremented(h, -1, 9, n, w) == h - 1
  {
    var y := Incremented(h, -1, 9, n, w);
    LowerOrder(h, h, k, 9, n, w);
    LowerOrder(h, y, k, 9, n, w);
    LowerOrder(h, h - 1, k, 9, n, w);
  }

  lemma LowerBorrows(h: nat, k: nat, n: nat, w: nat)
    requires 0 < k < n < w && DigitsLe(h, k, 9) && h > 0 && h % 16 == 0
    ensures Incremented(h, -1, 9, n, w) == 16 * Incremented(h / 16, -1, 9, n, w) + 9
  {
    var (y, x) := (Incremented(h, -1, 9, n, w), Incremented(h / 16, -1, 9, n, w));
    LowerOrder(h, h, k, 9, n, w);
    LowerOrder(h, y, k, 9, n, w);
    BorrowedIs(h, x, y, k, n, w);
  }

  lemma BorrowedIs(h: nat, x: nat, y: nat, k: nat, n: nat, w: nat)
    requires 0 < k < n < w && DigitsLe(h, k, 9) && h > 0 && h % 16 == 0
    requires y == Incremented(h, -1, 9, n, w) && DigitsLe(y, k, 9) && y < h
    requires x == Incremented(h / 16, -1, 9, n, w)
    ensures y == 16 * x + 9
  {
    LowerOrder(h / 16, h / 16, k - 1, 9, n, w);
    LowerOrder(h / 16, y / 16, k - 1, 9, n, w);
    assert y / 16 <= x < h / 16 && y % 16 <= 9;
    var z := 16 * x + 9;
    assert z % 16 == 9 && z / 16 == x && z < h;
    LowerOrder(h, z, k, 9, n, w);
  }

  /** Lowering borrows from the digits that end in 0. */
  lemma {:induction false} LoweredByOne(h: nat, k: nat, n: nat, w: nat)
    requires k < n < w && DigitsLe(h, k, 9) && h > 0
    ensures Lowered(Incremented(h, -1, 9, n, w), h - 1)
    decreases k
  {
    if h % 16 > 0 {
      LowerDigit(h, k, n, w);
    } else {
      var x := Incremented(h / 16, -1, 9, n, w);
      LowerBorrows(h, k, n, w);
      LoweredByOne(h / 16, k - 1, n, w);
      assert (16 * x + 9) % 16 == 9 && (16 * x + 9) / 16 == x;
      assert (h - 1) % 16 == 15 && (h - 1) / 16 == h / 16 - 1;
    }
  }

  ghost predicate Asked(lo: nat, hi: nat, top: nat, nd: nat, free: bool, n: nat, w: nat) {
    forall u: nat :: u < Pow16(nd + 1) ==> (Wide(lo, hi, u, nd, free, n, w) <==> lo <= u <= top)
  }

  /** The entries match exactly lo..top, decided round by round. */
  predicate Tight(lo: nat, hi: nat, top: nat, nd: nat, free: bool, n: nat, w: nat)
    decreases nd
  {
    if lo > hi then lo > top
    else if lo / 16 == hi / 16 || nd == 0 then TightLast(lo, hi, top, free)
    else
      lo % 16 == 0 &&
      if hi % 16 < 9 then
        DigitsLe(hi / 16, nd, 9) && Tight(lo / 16, Incremented(hi / 16, -1, 9, n, w), hi / 16 - 1, nd - 1, true, n, w)
      else
        top % 16 == 15 && Tight(lo / 16, hi / 16, top / 16, nd - 1, true, n, w)
  }

  predicate TightLast(lo: nat, hi: nat, top: nat, free: bool) {
    if lo % 16 == 0 && hi % 16 >= 9 then free && top == lo / 16 * 16 + 15
    else top == lo / 16 * 16 + Truncate(hi % 16, 9)
  }

  lemma LastTight(lo: nat, hi: nat, top: nat, u: nat, nd: nat, free: bool)
    requires lo / 16 == hi / 16 && TightLast(lo, hi, top, free) && (nd == 0 ==> u / 16 == lo / 16)
    ensures LastPart(lo, hi, u, nd, free) <==> lo <= u <= top
  {
    assert u == u / 16 * 16 + u % 16 && lo == lo / 16 * 16 + lo % 16;
  }

  lemma LastLoose(lo: nat, hi: nat, top: nat, nd: nat, free: bool) returns (u: nat)
    requires lo <= hi <= top < Pow16(nd + 1) && lo / 16 == hi / 16 && !TightLast(lo, hi, top, free)
    ensures u < Pow16(nd + 1) && LastPart(lo, hi, u, nd, free) != (lo <= u <= top)
  {
    var end := lo / 16 * 16 + 15;
    assert end < 16 * Pow16(nd);
    if lo % 16 == 0 && hi % 16 >= 9 && !free {
      u := lo;
    } else if lo % 16 == 0 && hi % 16 >= 9 && top < end {
      u := end;
    } else {
      u := top;
    }
  }

  /** Without leading digits a value is its last digit. */
  lemma OneDigit(a: nat, b: nat, nd: nat)
    requires a < Pow16(nd + 1) && b < Pow16(nd + 1) && (nd == 0 || a / 16 == b / 16)
    ensures a / 16 == b / 16 && (nd == 0 ==> a / 16 == 0)
  {
    if nd == 0 { assert Pow16(nd + 1) == 16 * Pow16(nd) && Pow16(nd) == 1; }
  }

  lemma AskedLast(lo: nat, hi: nat, top: nat, nd: nat, free: bool, n: nat, w: nat)
    requires InLoop(lo, hi, top, nd) && lo <= hi && (lo / 16 == hi / 16 || nd == 0)
    ensures Asked(lo, hi, top, nd, free, n, w) <==> TightLast(lo, hi, top, free)
  {
    OneDigit(lo, hi, nd);
    if TightLast(lo, hi, top, free) {
      forall u: nat | u < Pow16(nd + 1)
        ensures Wide(lo, hi, u, nd, free, n, w) <==> lo <= u <= top
      {
        OneDigit(u, u, nd);
        LastTight(lo, hi, top, u, nd, free);
      }
    } else {
      var u := LastLoose(lo, hi, top, nd, free);
      assert Wide(lo, hi, u, nd, free, n, w) <==> LastPart(lo, hi, u, nd, free);
    }
  }

  /** After a low digit that made an entry, lo's decade has a gap: its hexadecimal
      digits are asked for, and no later entry goes back to them. */
  lemma GapAboveLow(lo: nat, hi: nat, top: nat, nd: nat, free: bool, n: nat, w: nat)
    requires 0 < nd < n < w && InLoop(lo, hi, top, nd) && lo <= hi && lo / 16 != hi / 16 && lo % 16 > 0
    ensures !Asked(lo, hi, top, nd, free, n, w)
  {
    var (l, u) := (lo / 16, lo / 16 * 16 + 10);
    var l' := Bump(l, lo % 16, 9, n, w);
    var h' := Lower(hi / 16, Truncate(hi % 16, 9), 9, n, w);
    NextHi(hi, nd, n, w);
    BumpOrder(l, l, nd, 9, n, w);
    BumpCarry(l, nd, 9, n, w);
    if DigitsLe(l', nd, 9) { DecimalWide(l', h', l, nd - 1, n, w); }
    assert !Wide(l', h', l, nd - 1, true, n, w);
    assert u / 16 == l && u % 16 == 10;
    assert !Wide(lo, hi, u, nd, free, n, w);
    assert lo <= u <= top < Pow16(nd + 1);
  }

  /** An upper bound above 99..9 with a low digit below 9 loses 99..90. */
  lemma GapBelowHigh(lo: nat, hi: nat, nd: nat, free: bool, n: nat, w: nat)
    requires 0 < nd < n < w && InLoop(lo, hi, hi, nd) && lo <= hi && lo / 16 != hi / 16 && lo % 16 == 0
    requires hi % 16 < 9 && !DigitsLe(hi / 16, nd, 9)
    ensures !Asked(lo, hi, hi, nd, free, n, w)
  {
    var (p, h') := (Repeat(9, nd), Incremented(hi / 16, -1, 9, n, w));
    NextHi(hi, nd, n, w);
    DigitsRepeat(nd, 9);
    DigitsBound(lo / 16, nd, 9);
    DecimalWide(lo / 16, h', p, nd - 1, n, w);
    assert (p * 16) / 16 == p;
    assert !Wide(lo, hi, p * 16, nd, free, n, w);
  }

  /** The last digit of a round that makes at most hi's entry. */
  lemma RoundAt(lo: nat, hi: nat, u: nat, p: nat, c: nat, nd: nat, free: bool, n: nat, w: nat)
    requires nd > 0 && lo <= hi && lo / 16 != hi / 16 && lo % 16 == 0 && u == 16 * p + c && c < 16
    ensures Wide(lo, hi, u, nd, free, n, w) <==>
      HiPart(hi, u) || Wide(lo / 16, Lower(hi / 16, Truncate(hi % 16, 9), 9, n, w), p, nd - 1, true, n, w)
    ensures u / 16 == p && u % 16 == c && (u < Pow16(nd + 1) <==> p < Pow16(nd))
  {
  }

  lemma AskedDown(lo: nat, hi: nat, nd: nat, free: bool, n: nat, w: nat)
    requires 0 < nd < n < w && InLoop(lo, hi, hi, nd) && lo <= hi && lo / 16 != hi / 16 && lo % 16 == 0
    requires hi % 16 < 9 && DigitsLe(hi / 16, nd, 9)
    ensures Asked(lo, hi, hi, nd, free, n, w) <==>
      Asked(lo / 16, Incremented(hi / 16, -1, 9, n, w), hi / 16 - 1, nd - 1, true, n, w)
  {
    var (l, h, h', k: nat) := (lo / 16, hi / 16, Incremented(hi / 16, -1, 9, n, w), nd - 1);
    if Asked(l, h', h - 1, k, true, n, w) {
      forall u: nat | u < Pow16(nd + 1)
        ensures Wide(lo, hi, u, nd, free, n, w) <==> lo <= u <= hi
      {
        RoundAt(lo, hi, u, u / 16, u % 16, nd, free, n, w);
        assert Wide(l, h', u / 16, k, true, n, w) <==> l <= u / 16 <= h - 1;
      }
    }
    if Asked(lo, hi, hi, nd, free, n, w) {
      forall p: nat | p < Pow16(nd)
        ensures Wide(l, h', p, k, true, n, w) <==> l <= p <= h - 1
      {
        AskedDownAt(lo, hi, p, nd, free, n, w);
      }
    }
  }

  lemma AskedDownAt(lo: nat, hi: nat, p: nat, nd: nat, free: bool, n: nat, w: nat)
    requires 0 < nd < n < w && InLoop(lo, hi, hi, nd) && lo <= hi && lo / 16 != hi / 16 && lo % 16 == 0
    requires hi % 16 < 9 && DigitsLe(hi / 16, nd, 9) && p < Pow16(nd) && Asked(lo, hi, hi, nd, free, n, w)
    ensures Wide(lo / 16, Incremented(hi / 16, -1, 9, n, w), p, nd - 1, true, n, w) <==> lo / 16 <= p <= hi / 16 - 1
  {
    if p == hi / 16 {
      NextHi(hi, nd, n, w);
      DecimalWide(lo / 16, Incremented(hi / 16, -1, 9, n, w), p, nd - 1, n, w);
    } else {
      RoundAt(lo, hi, 16 * p, p, 0, nd, free, n, w);
      assert Wide(lo, hi, 16 * p, nd, free, n, w) <==> lo <= 16 * p <= hi;
    }
  }

  lemma AskedUp(lo: nat, hi: nat, top: nat, nd: nat, free: bool, n: nat, w: nat)
    requires 0 < nd < n < w && InLoop(lo, hi, top, nd) && lo <= hi && lo / 16 != hi / 16 && lo % 16 == 0
    requires hi % 16 >= 9
    ensures Asked(lo, hi, top, nd, free, n, w) <==>
      top % 16 == 15 && Asked(lo / 16, hi / 16, top / 16, nd - 1, true, n, w)
  {
    var (l, h, t, k: nat) := (lo / 16, hi / 16, top / 16, nd - 1);
    if top % 16 == 15 && Asked(l, h, t, k, true, n, w) {
      forall u: nat | u < Pow16(nd + 1)
        ensures Wide(lo, hi, u, nd, free, n, w) <==> lo <= u <= top
      {
        RoundAt(lo, hi, u, u / 16, u % 16, nd, free, n, w);
        assert Wide(l, h, u / 16, k, true, n, w) <==> l <= u / 16 <= t;
      }
    }
    if Asked(lo, hi, top, nd, free, n, w) {
      AskedUpAt(lo, hi, top, t, 0, nd, free, n, w);
      AskedUpAt(lo, hi, top, t, 15, nd, free, n, w);
      forall p: nat | p < Pow16(nd)
        ensures Wide(l, h, p, k, true, n, w) <==> l <= p <= t
      {
        AskedUpAt(lo, hi, top, p, 0, nd, free, n, w);
      }
    }
  }

  lemma AskedUpAt(lo: nat, hi: nat, top: nat, p: nat, c: nat, nd: nat, free: bool, n: nat, w: nat)
    requires 0 < nd < n < w && lo <= hi && lo / 16 != hi / 16 && lo % 16 == 0 && hi % 16 >= 9
    requires p < Pow16(nd) && c < 16 && Asked(lo, hi, top, nd, free, n, w)
    ensures Wide(lo / 16, hi / 16, p, nd - 1, true, n, w) <==> lo <= 16 * p + c <= top
  {
    RoundAt(lo, hi, 16 * p + c, p, c, nd, free, n, w);
    assert Wide(lo, hi, 16 * p + c, nd, free, n, w) <==> lo <= 16 * p + c <= top;
  }

  lemma InLoopUp(lo: nat, hi: nat, top: nat, nd: nat, n: nat, w: nat)
    requires 0 < nd < n < w && InLoop(lo, hi, top, nd) && hi / 16 > 0 && hi % 16 >= 9
    ensures InLoop(lo / 16, hi / 16, top / 16, nd - 1)
  {
    NextHi(hi, nd, n, w);
  }

  lemma InLoopDown(lo: nat, hi: nat, nd: nat, n: nat, w: nat)
    requires 0 < nd < n < w && InLoop(lo, hi, hi, nd) && hi / 16 > 0 && hi % 16 < 9 && DigitsLe(hi / 16, nd, 9)
    ensures InLoop(lo / 16, Incremented(hi / 16, -1, 9, n, w), hi / 16 - 1, nd - 1)
  {
    NextHi(hi, nd, n, w);
    LoweredByOne(hi / 16, nd, n, w);
  }

  lemma {:induction false} AskedIsTight(lo: nat, hi: nat, top: nat, nd: nat, free: bool, n: nat, w: nat)
    requires nd < n < w && InLoop(lo, hi, top, nd)
    ensures Asked(lo, hi, top, nd, free, n, w) <==> Tight(lo, hi, top, nd, free, n, w)
    decreases nd
  {
    if lo > hi {
      AskedNothing(lo, hi, top, nd, free, n, w);
    } else if lo / 16 == hi / 16 || nd == 0 {
      AskedLast(lo, hi, top, nd, free, n, w);
    } else if lo % 16 > 0 {
      GapAboveLow(lo, hi, top, nd, free, n, w);
    } else if hi % 16 >= 9 {
      AskedUp(lo, hi, top, nd, free, n, w);
      InLoopUp(lo, hi, top, nd, n, w);
      AskedIsTight(lo / 16, hi / 16, top / 16, nd - 1, true, n, w);
    } else if !DigitsLe(hi / 16, nd, 9) {
      GapBelowHigh(lo, hi, nd, free, n, w);
    } else {
      AskedDown(lo, hi, nd, free, n, w);
      InLoopDown(lo, hi, nd, n, w);
      AskedIsTight(lo / 16, Incremented(hi / 16, -1, 9, n, w), hi / 16 - 1, nd - 1, true, n, w);
    }
  }

  lemma AskedNothing(lo: nat, hi: nat, top: nat, nd: nat, free: bool, n: nat, w: nat)
    requires lo > hi && top < Pow16(nd + 1)
    ensures Asked(lo, hi, top, nd, free, n, w) <==> lo > top
  {
    if lo <= top { assert !Wide(lo, hi, lo, nd, free, n, w); }
  }
}
