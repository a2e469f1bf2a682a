/** When the patterns of a decimal range agree with it on every device value,
    also those with a digit above 9 (hwdb/platform/buildplatform.cpp). */
module UsbAllDigits {
  import opened Digits
  import opened Bcd
  import opened UsbRange
  import opened Glob
  import opened UsbText
  import opened UsbWide
  import opened UsbDump
  import opened UsbExact

  /** lo has only zeros below the highest digit in which it differs from hi. */
  predicate Aligned(lo: nat, hi: nat)
    decreases hi
  {
    lo / 16 == hi / 16 || (hi >= 16 && lo % 16 == 0 && Aligned(lo / 16, hi / 16))
  }

  /** lo and hi are the ends of one block: equal leading digits, then a digit
      c..9 with c > 0 or a free digit, then only free digits. `free` tells
      whether free digits have been passed. */
  predicate OneBlock(lo: nat, hi: nat, free: bool)
    decreases hi
  {
    || (free && lo < hi && lo / 16 == hi / 16 && lo % 16 > 0 && hi % 16 == 9)
    || (lo % 16 == 0 && hi % 16 == 15 && ((free && lo / 16 == hi / 16) || OneBlock(lo / 16, hi / 16, true)))
  }

  /** The decimal ranges that their patterns match on all values. */
  predicate Closes(r: DeviceRange, n: nat) {
    if !r.matchHi then r.Lo() == 0 && n > 1
    else if r.Lo() > r.bcdHi then true
    else if r.bcdHi > Repeat(9, n) then OneBlock(r.Lo(), r.bcdHi, false)
    else Aligned(r.Lo(), r.bcdHi) && (r.bcdHi % 16 < 9 || (r.Lo() / 16 == r.bcdHi / 16 && r.Lo() % 16 > 0))
  }

  /** The rounds after hi was lowered from h. */
  lemma {:induction false} TightLowered(l: nat, h: nat, nd: nat, n: nat, w: nat)
    requires nd < n < w && DigitsLe(l, nd + 1, 9) && DigitsLe(h, nd + 1, 9) && l < h && nd + 1 < n
    ensures Tight(l, Incremented(h, -1, 9, n, w), h - 1, nd, true, n, w) <==> Aligned(l, h)
    decreases nd
  {
    LowerOrder(h, l, nd + 1, 9, n, w);
    if h % 16 > 0 {
      LowerDigit(h, nd + 1, n, w);
      assert (h - 1) / 16 == h / 16 && (h - 1) % 16 == h % 16 - 1;
      if l / 16 != h / 16 && nd > 0 {
        TightLowered(l / 16, h / 16, nd - 1, n, w);
      }
    } else {
      TightBorrowed(l, h, nd, n, w);
      if l / 16 != Incremented(h / 16, -1, 9, n, w) && nd > 0 {
        TightLowered(l / 16, h / 16, nd - 1, n, w);
      }
    }
  }

  lemma TightBorrowed(l: nat, h: nat, nd: nat, n: nat, w: nat)
    requires nd < n < w && DigitsLe(l, nd + 1, 9) && DigitsLe(h, nd + 1, 9) && l < h && nd + 1 < n
    requires h % 16 == 0
    ensures nd > 0 && l / 16 < h / 16
    ensures var (k, x) := (h / 16, Incremented(h / 16, -1, 9, n, w));
      Tight(l, Incremented(h, -1, 9, n, w), h - 1, nd, true, n, w) <==>
      l % 16 == 0 && if l / 16 == x then x == k - 1 else Tight(l / 16, x, k - 1, nd - 1, true, n, w)
    ensures l / 16 == Incremented(h / 16, -1, 9, n, w) ==>
      (Aligned(l / 16, h / 16) <==> l / 16 == h / 16 - 1)
  {
    var (k, x, y) := (h / 16, Incremented(h / 16, -1, 9, n, w), Incremented(h, -1, 9, n, w));
    LowerBorrows(h, nd + 1, n, w);
    LowerOrder(h, l, nd + 1, 9, n, w);
    assert y % 16 == 9 && y / 16 == x && (h - 1) % 16 == 15 && (h - 1) / 16 == k - 1;
    if l / 16 == x { AlignedBorrowed(k, nd, n, w); }
  }

  lemma AlignedBorrowed(k: nat, nd: nat, n: nat, w: nat)
    requires 0 < nd < n < w && DigitsLe(k, nd, 9) && k > 0
    ensures var x := Incremented(k, -1, 9, n, w); Aligned(x, k) <==> x == k - 1
  {
    if k % 16 > 0 {
      LowerDigit(k, nd, n, w);
      assert (k - 1) / 16 == k / 16;
    } else {
      LowerBorrows(k, nd, n, w);
      LowerOrder(k / 16, k / 16, nd - 1, 9, n, w);
      var z := Incremented(k / 16, -1, 9, n, w);
      assert (16 * z + 9) % 16 == 9 && (16 * z + 9) / 16 == z && z < k / 16;
    }
  }

  lemma TightDecimal(lo: nat, hi: nat, n: nat, w: nat)
    requires 0 < n < w && DigitsLe(lo, n, 9) && DigitsLe(hi, n, 9) && lo <= hi
    ensures Tight(lo, hi, hi, n - 1, false, n, w) <==>
      Aligned(lo, hi) && (hi % 16 < 9 || (lo / 16 == hi / 16 && lo % 16 > 0))
  {
    if lo / 16 != hi / 16 && n > 1 && hi % 16 < 9 {
      TightLowered(lo / 16, hi / 16, n - 2, n, w);
    }
  }

  /** The rounds that are left with 99..9. */
  lemma TightNines(lo: nat, nd: nat, n: nat, w: nat)
    requires nd < n < w && DigitsLe(lo, nd + 1, 9) && lo < Repeat(9, nd + 1)
    ensures var hi := Repeat(9, nd + 1);
      Tight(lo, hi, hi, nd, true, n, w) <==> OneBlock(lo, hi, true)
  {
    var hi := Repeat(9, nd + 1);
    assert hi % 16 == 9 && hi / 16 == Repeat(9, nd);
  }

  lemma {:induction false} TightOver(lo: nat, hi: nat, nd: nat, free: bool, n: nat, w: nat)
    requires nd < n < w && DigitsLe(lo, nd + 1, 9) && DigitsLe(hi, nd + 1, 15) && hi > Repeat(9, nd + 1)
    ensures Tight(lo, hi, hi, nd, free, n, w) <==> OneBlock(lo, hi, free)
    decreases nd
  {
    DigitsBound(lo, nd + 1, 9);
    DigitsBound(lo / 16, nd, 9);
    var (l, h) := (lo / 16, hi / 16);
    if l == h || nd == 0 {
      assert l == h && hi % 16 > 9;
      assert !OneBlock(l, l, true);
    } else if hi % 16 < 9 {
      if DigitsLe(h, nd, 9) { DigitsBound(h, nd, 9); }
    } else if h == Repeat(9, nd) {
      TightNines(l, nd - 1, n, w);
    } else {
      TightOver(l, h, nd - 1, true, n, w);
    }
  }

  /** Without bounds everything is matched, if a star is left to print. */
  lemma {:induction false} OpenFromZero(m: nat, u: nat, nd: nat, free: bool, n: nat, w: nat)
    requires nd + 2 <= m
    ensures Wide(0, Repeat(15, m), u, nd, free, n, w) <==> free || nd > 0
    decreases nd
  {
    var hi := Repeat(15, m);
    assert hi % 16 == 15 && hi / 16 == Repeat(15, m - 1) > 0;
    if nd > 0 { OpenFromZero(m - 1, u / 16, nd - 1, true, n, w); }
  }

  /** With a lower bound only, some hexadecimal digit above it is lost. */
  lemma {:induction false} OpenGap(lo: nat, m: nat, nd: nat, free: bool, n: nat, w: nat) returns (u: nat)
    requires nd < n < w && nd + 2 <= m && DigitsLe(lo, nd + 1, 9) && 0 < lo <= Scale16(9, nd)
    ensures lo <= u < Pow16(nd + 1) && !Wide(lo, Repeat(15, m), u, nd, free, n, w)
    decreases nd
  {
    var hi := Repeat(15, m);
    OpenAbove(lo, m, nd, 9);
    assert hi % 16 == 15 && hi / 16 == Repeat(15, m - 1);
    DigitsBound(lo, nd + 1, 9);
    if nd == 0 {
      u := 15;
    } else if lo % 16 > 0 {
      u := lo / 16 * 16 + 10;
      OpenGapHere(lo, m, nd, n, w);
      assert u / 16 == lo / 16 && u % 16 == 10 && u < 16 * Pow16(nd);
    } else {
      var p := OpenGap(lo / 16, m - 1, nd - 1, true, n, w);
      u := 16 * p;
      assert u / 16 == p;
    }
  }

  lemma OpenGapHere(lo: nat, m: nat, nd: nat, n: nat, w: nat)
    requires 0 < nd < n < w && nd + 2 <= m && DigitsLe(lo, nd + 1, 9) && lo % 16 > 0 && lo <= Scale16(9, nd)
    ensures !Wide(Incremented(lo / 16, 1, 9, n, w), Repeat(15, m - 1), lo / 16, nd - 1, true, n, w)
    ensures lo / 16 < Pow16(nd)
  {
    var (l, l') := (lo / 16, Incremented(lo / 16, 1, 9, n, w));
    BumpThreshold(lo, l', nd, 9, n, w);
    OpenSum(lo, lo, l', nd, 9, n, w);
    BumpOrder(l, l, nd, 9, n, w);
    DigitsBound(l, nd, 9);
    TopDigitOnly(9, nd - 1);
    DigitsBound(Scale16(9, nd - 1), nd, 9);
    WideIsHits(l', Repeat(15, m - 1), l, nd - 1, n, w);
    RangeOpen(l', m - 1, l, nd - 1, 9, n, w);
  }

  /** The patterns of a range match a value, whatever its digits, exactly when
      some entry matches it. */
  lemma PatternsMatch(r: DeviceRange, lines: seq<string>, v: nat, n: nat, w: nat)
    requires 0 < n < w && r.Valid(n) && v < Pow16(n)
    requires Printed(lines, DeviceEntries(r, n, w), MaxDigit(r, n, w), n)
    ensures MatchedBy(lines, v, n) <==> SomeMatch(DeviceEntries(r, n, w), v, n - 1, MaxDigit(r, n, w), false)
  {
    var (es, max) := (DeviceEntries(r, n, w), MaxDigit(r, n, w));
    RangesBound(r.Lo(), r.Hi(w), n - 1, max, n, w);
    forall i | 0 <= i < |es|
      ensures GlobMatch(lines[i], Hex(v, n)) <==> Matches(es[i], v, n - 1, max, false)
    {
      assert Prints(lines[i], es[i], max, n);
      GlobDenotesAll(es[i], v, max, n);
    }
    if MatchedBy(lines, v, n) {
      var i :| 0 <= i < |lines| && GlobMatch(lines[i], Hex(v, n));
      assert es[i] in es;
    }
  }

  ghost predicate MatchesAll(r: DeviceRange, lines: seq<string>, n: nat) {
    forall v: nat :: v < Pow16(n) ==> (MatchedBy(lines, v, n) <==> r.Has(v))
  }

  /** A decimal range, value by value. */
  lemma MatchedIsWide(r: DeviceRange, lines: seq<string>, v: nat, nd: nat, n: nat, w: nat)
    requires 0 < n < w && nd == n - 1 && r.Valid(n) && v < Pow16(n) && MaxDigit(r, n, w) == 9
    requires Printed(lines, DeviceEntries(r, n, w), 9, n)
    ensures MatchedBy(lines, v, n) <==> Wide(r.Lo(), r.Hi(w), v, nd, false, n, w)
  {
    PatternsMatch(r, lines, v, n, w);
    SomeIsWide(r.Lo(), r.Hi(w), v, nd, false, n, w);
  }

  lemma BoundedIsAsked(r: DeviceRange, lines: seq<string>, nd: nat, n: nat, w: nat)
    requires 0 < n < w && nd == n - 1 && r.Valid(n) && r.matchHi && MaxDigit(r, n, w) == 9
    requires Printed(lines, DeviceEntries(r, n, w), 9, n)
    ensures MatchesAll(r, lines, n) <==> Asked(r.Lo(), r.bcdHi, r.bcdHi, nd, false, n, w)
  {
    var (lo, hi) := (r.Lo(), r.bcdHi);
    assert Pow16(nd + 1) == Pow16(n);
    forall v: nat | v < Pow16(n)
      ensures MatchedBy(lines, v, n) <==> Wide(lo, hi, v, nd, false, n, w)
    {
      MatchedIsWide(r, lines, v, nd, n, w);
    }
    assert forall v: nat :: r.Has(v) <==> lo <= v <= hi;
  }

  lemma BoundedAgrees(r: DeviceRange, lines: seq<string>, n: nat, w: nat)
    requires 0 < n < w && r.Valid(n) && r.matchHi && MaxDigit(r, n, w) == 9
    requires Printed(lines, DeviceEntries(r, n, w), 9, n)
    ensures MatchesAll(r, lines, n) <==> Closes(r, n)
  {
    var (lo, hi) := (r.Lo(), r.bcdHi);
    ModeDigits(lo, hi, n);
    BoundGivesDigits(hi, n);
    BoundedIsAsked(r, lines, n - 1, n, w);
    AskedIsTight(lo, hi, hi, n - 1, false, n, w);
    TightCloses(r, n, w);
  }

  lemma TightCloses(r: DeviceRange, n: nat, w: nat)
    requires 0 < n < w && r.matchHi && DigitsLe(r.Lo(), n, 9) && DigitsLe(r.bcdHi, n, 15)
    requires r.bcdHi > Repeat(9, n) || DigitsLe(r.bcdHi, n, 9)
    ensures Tight(r.Lo(), r.bcdHi, r.bcdHi, n - 1, false, n, w) <==> Closes(r, n)
  {
    var (lo, hi) := (r.Lo(), r.bcdHi);
    if lo > hi {
    } else if hi > Repeat(9, n) {
      TightOver(lo, hi, n - 1, false, n, w);
    } else {
      TightDecimal(lo, hi, n, w);
    }
  }

  lemma OpenAgrees(r: DeviceRange, lines: seq<string>, n: nat, w: nat)
    requires 0 < n < w && r.Valid(n) && !r.matchHi && MaxDigit(r, n, w) == 9
    requires Printed(lines, DeviceEntries(r, n, w), 9, n)
    ensures MatchesAll(r, lines, n) <==> Closes(r, n)
  {
    var lo := r.Lo();
    ModeDigits(lo, Repeat(15, w), n);
    PowBounds(n);
    if lo == 0 {
      forall v: nat | v < Pow16(n)
        ensures r.Has(v) && (MatchedBy(lines, v, n) <==> n > 1)
      {
        MatchedIsWide(r, lines, v, n - 1, n, w);
        OpenFromZero(w, v, n - 1, false, n, w);
      }
      assert MatchesAll(r, lines, n) ==> (MatchedBy(lines, 0, n) <==> r.Has(0));
    } else {
      var v := OpenMisjudged(r, lines, n, w);
    }
  }

  lemma OpenMisjudged(r: DeviceRange, lines: seq<string>, n: nat, w: nat) returns (v: nat)
    requires 0 < n < w && r.Valid(n) && !r.matchHi && MaxDigit(r, n, w) == 9 && r.Lo() > 0
    requires Printed(lines, DeviceEntries(r, n, w), 9, n)
    ensures v < Pow16(n) && (MatchedBy(lines, v, n) <==> !r.Has(v))
  {
    var lo := r.Lo();
    ModeDigits(lo, Repeat(15, w), n);
    if lo > Scale16(9, n - 1) {
      v := Misjudged(r, lines, n, w);
      DigitsBound(v, n, 9);
    } else {
      v := OpenGap(lo, w, n - 1, false, n, w);
      MatchedIsWide(r, lines, v, n - 1, n, w);
    }
  }

  /** On all values of n digits: a hexadecimal range agrees with its patterns
      exactly outside the three families, a decimal one exactly when it closes. */
  lemma AllDigitsAgree(r: DeviceRange, lines: seq<string>, n: nat, w: nat)
    requires 0 < n < w && r.Valid(n)
    ensures Printed(lines, DeviceEntries(r, n, w), MaxDigit(r, n, w), n) ==>
      (MatchesAll(r, lines, n) <==> if MaxDigit(r, n, w) == 9 then Closes(r, n) else Faithful(r, n, w))
  {
    ModeDigits(r.Lo(), r.Hi(w), n);
    if Printed(lines, DeviceEntries(r, n, w), MaxDigit(r, n, w), n) {
      if MaxDigit(r, n, w) == 15 {
        HexAgrees(r, lines, n, w);
      } else if r.matchHi {
        BoundedAgrees(r, lines, n, w);
      } else {
        OpenAgrees(r, lines, n, w);
      }
    }
  }

  lemma HexAgrees(r: DeviceRange, lines: seq<string>, n: nat, w: nat)
    requires 0 < n < w && r.Valid(n) && MaxDigit(r, n, w) == 15
    requires Printed(lines, DeviceEntries(r, n, w), 15, n)
    ensures MatchesAll(r, lines, n) <==> Faithful(r, n, w)
  {
    DumpIsFaithful(r, lines, n, w);
    forall v: nat
      ensures DigitsLe(v, n, 15) <==> v < Pow16(n)
    {
      if v < Pow16(n) { BoundGivesDigits(v, n); }
      if DigitsLe(v, n, 15) { DigitsBound(v, n, 15); }
    }
  }

  lemma ExamplesAreDecimal()
    ensures MaxDigit(DeviceRange(true, 0x0100, true, 0x9999), 4, 8) == 9
    ensures MaxDigit(DeviceRange(true, 0x1000, true, 0x1999), 4, 8) == 9
  {
    assert Pow16(4) == 0x10000;
    ModeDigits(0x0100, 0x9999, 4);
    ModeDigits(0x1000, 0x1999, 4);
    assert DigitsLe(0x0100, 4, 9) && DigitsLe(0x9999, 4, 9) && DigitsLe(0x1000, 4, 9) && DigitsLe(0x1999, 4, 9);
  }

  ghost predicate PrintedFor(r: DeviceRange, lines: seq<string>) {
    Printed(lines, DeviceEntries(r, 4, 8), 9, 4)
  }

  /** d0100-d9999 is in none of the families and yet misses d0A00. */
  lemma MissedExample()
    ensures Faithful(DeviceRange(true, 0x0100, true, 0x9999), 4, 8)
    ensures forall lines :: PrintedFor(DeviceRange(true, 0x0100, true, 0x9999), lines) ==> !MatchedBy(lines, 0x0A00, 4)
  {
    var r := DeviceRange(true, 0x0100, true, 0x9999);
    ExamplesAreDecimal();
    assert Repeat(9, 4) == 0x9999;
    MissesA();
    forall lines | PrintedFor(r, lines)
      ensures !MatchedBy(lines, 0x0A00, 4)
    {
      MatchedIsWide(r, lines, 0x0A00, 3, 4, 8);
    }
  }

  /** d1000-d1999 is in none either, and matches d1FFF. */
  lemma AddedExample()
    ensures Faithful(DeviceRange(true, 0x1000, true, 0x1999), 4, 8)
    ensures forall lines :: PrintedFor(DeviceRange(true, 0x1000, true, 0x1999), lines) ==> MatchedBy(lines, 0x1FFF, 4)
  {
    var r := DeviceRange(true, 0x1000, true, 0x1999);
    ExamplesAreDecimal();
    assert Repeat(9, 4) == 0x9999;
    AddsF();
    forall lines | PrintedFor(r, lines)
      ensures MatchedBy(lines, 0x1FFF, 4)
    {
      MatchedIsWide(r, lines, 0x1FFF, 3, 4, 8);
    }
  }

  lemma MissesA()
    ensures !Wide(0x0100, 0x9999, 0x0A00, 3, false, 4, 8)
  {
    assert DigitsLe(0, 1, 9) && DigitsLe(1, 2, 9);
    var l := Incremented(0, 1, 9, 4, 8);
    BumpOrder(0, 0, 1, 9, 4, 8);
    BumpCarry(0, 1, 9, 4, 8);
    assert Repeat(9, 1) == 9;
    assert l > 0 && DigitsLe(l, 1, 9);
    assert !Wide(l, 9, 0, 0, true, 4, 8);
    assert !Wide(0x01, 0x99, 0x0A, 1, true, 4, 8);
    assert !Wide(0x010, 0x999, 0x0A0, 2, true, 4, 8);
  }

  lemma AddsF()
    ensures Wide(0x1000, 0x1999, 0x1FFF, 3, false, 4, 8)
  {
    assert Wide(0x10, 0x19, 0x1F, 1, true, 4, 8);
    assert Wide(0x100, 0x199, 0x1FF, 2, true, 4, 8);
  }
}
