/** Which device values the patterns of `dump_usb_id`
    (hwdb/platform/buildplatform.cpp) match: exactly the requested range,
    except for three families of ranges that are characterized here. */
module UsbExact {
  import opened Digits
  import opened UsbRange
  import opened UsbSaturation
  import opened Glob
  import opened UsbText
  import opened UsbDump

  ghost predicate MatchedBy(lines: seq<string>, v: nat, n: nat) {
    exists i :: 0 <= i < |lines| && GlobMatch(lines[i], Hex(v, n))
  }

  function MaxDigit(r: DeviceRange, n: nat, w: nat): nat { ModeOf(r.Lo(), r.Hi(w), n) }

  /** The range is a full decade in the last digit: the only entry prints
      neither a class nor a star. */
  predicate LosesLastDigit(r: DeviceRange, n: nat, w: nat) {
    var (lo, hi, max) := (r.Lo(), r.Hi(w), MaxDigit(r, n, w));
    lo <= hi && lo % 16 == 0 && hi % 16 >= max && (lo / 16 == hi / 16 || n == 1)
  }

  /** No upper bound, and rounding lo up carries out of the top digit. */
  predicate CarriesOut(r: DeviceRange, n: nat, w: nat)
    requires n > 0
  {
    !r.matchHi && r.Lo() > Scale16(MaxDigit(r, n, w), n - 1)
  }

  /** BCD mode, an upper bound above 99..9 and a low digit of it below 9. */
  ghost predicate Undershoots(r: DeviceRange, n: nat, w: nat)
    requires n > 0
  {
    r.matchHi && MaxDigit(r, n, w) == 9 && r.bcdHi > Repeat(9, n) && !Saturates(r.Lo(), r.bcdHi, n - 1)
  }

  ghost predicate Faithful(r: DeviceRange, n: nat, w: nat)
    requires n > 0
  {
    !LosesLastDigit(r, n, w) && !CarriesOut(r, n, w) && !Undershoots(r, n, w)
  }

  lemma {:induction false} CountWitness(es: seq<Entry>, u: nat, nd: nat)
    ensures CoverCount(es, u, nd) > 0 <==> exists e <- es :: Covers(e, u, nd)
  {
    if es != [] {
      CountWitness(es[1..], u, nd);
      assert forall e :: e in es <==> e == es[0] || e in es[1..];
    }
  }

  /** How often the entries cover a value with digits of the mode, over all
      ranges. The third family covers the range up to some value once; it loses
      at least 99..9. */
  lemma DeviceCount(r: DeviceRange, v: nat, n: nat, w: nat)
    requires 0 < n < w && r.Valid(n) && DigitsLe(v, n, MaxDigit(r, n, w))
    ensures !Undershoots(r, n, w) ==>
      CoverCount(DeviceEntries(r, n, w), v, n - 1) ==
      Bit(r.Has(v)) + Bit(CarriesOut(r, n, w))
    ensures Undershoots(r, n, w) ==>
      CoverCount(DeviceEntries(r, n, w), v, n - 1) ==
      Bit(r.Has(v) && v <= LastCovered(r.Lo(), r.bcdHi, n - 1, n, w))
    ensures Undershoots(r, n, w) && v == Repeat(9, n) ==>
      r.Has(v) && CoverCount(DeviceEntries(r, n, w), v, n - 1) == 0
  {
    var (lo, hi, max) := (r.Lo(), r.Hi(w), MaxDigit(r, n, w));
    ModeDigits(lo, hi, n);
    CountIsHits(lo, hi, v, n - 1, max, n, w);
    if !r.matchHi {
      RangeOpen(lo, w, v, n - 1, max, n, w);
      assert Bit(r.Has(v)) == Bit(v >= lo);
    } else if max == 9 && hi > Repeat(9, n) {
      BoundGivesDigits(hi, n);
      DigitsBound(v, n, 9);
      DigitsBound(lo, n, 9);
      RangeSaturated(lo, hi, v, n - 1, n, w);
      if Undershoots(r, n, w) { RangeUnsaturated(lo, hi, v, n - 1, n, w); }
      assert Bit(r.Has(v)) == Bit(v >= lo);
    } else {
      BoundGivesDigits(hi, n);
      RangeExact(lo, hi, v, n - 1, max, n, w);
      assert Bit(r.Has(v)) == Bit(lo <= v <= hi);
    }
  }

  /** A full range on the last digit is then the only entry. */
  lemma FullEntry(r: DeviceRange, n: nat, w: nat)
    requires 0 < n < w && r.Valid(n)
    ensures forall e <- DeviceEntries(r, n, w) :: FullOnLast(e, MaxDigit(r, n, w), n) <==> LosesLastDigit(r, n, w)
  {
    var (lo, hi, max, nd) := (r.Lo(), r.Hi(w), MaxDigit(r, n, w), n - 1);
    if lo <= hi && lo / 16 != hi / 16 && nd > 0 {
      var first := RoundEntries(lo, hi, nd, max);
      var (l', h') := (Bump(lo / 16, lo % 16, max, n, w), Lower(hi / 16, Truncate(hi % 16, max), max, n, w));
      var rest := Ranges(l', h', nd - 1, max, n, w);
      RangesBound(l', h', nd - 1, max, n, w);
      assert DeviceEntries(r, n, w) == first + rest;
      assert forall e <- first :: !FullOnLast(e, max, n);
    }
  }

  lemma PatternsDenote(r: DeviceRange, lines: seq<string>, v: nat, n: nat, w: nat)
    requires 0 < n < w && r.Valid(n) && DigitsLe(v, n, MaxDigit(r, n, w))
    requires Printed(lines, DeviceEntries(r, n, w), MaxDigit(r, n, w), n)
    ensures MatchedBy(lines, v, n) <==>
      !LosesLastDigit(r, n, w) && CoverCount(DeviceEntries(r, n, w), v, n - 1) > 0
  {
    RangesBound(r.Lo(), r.Hi(w), n - 1, MaxDigit(r, n, w), n, w);
    FullEntry(r, n, w);
    LinesDenote(DeviceEntries(r, n, w), lines, v, MaxDigit(r, n, w), n);
    CountUnless(DeviceEntries(r, n, w), v, LosesLastDigit(r, n, w), MaxDigit(r, n, w), n);
  }

  lemma CountUnless(es: seq<Entry>, v: nat, lost: bool, max: nat, n: nat)
    requires n > 0 && forall e <- es :: FullOnLast(e, max, n) <==> lost
    ensures (exists e <- es :: Covers(e, v, n - 1) && !FullOnLast(e, max, n)) <==>
      !lost && CoverCount(es, v, n - 1) > 0
  {
    CountWitness(es, v, n - 1);
    if e :| e in es && Covers(e, v, n - 1) {
      assert FullOnLast(e, max, n) <==> lost;
    }
  }

  lemma LinesDenote(es: seq<Entry>, lines: seq<string>, v: nat, max: nat, n: nat)
    requires n > 0 && Mode(max) && Printed(lines, es, max, n) && DigitsLe(v, n, max)
    requires forall e <- es :: e.digits <= n - 1
    ensures MatchedBy(lines, v, n) <==> exists e <- es :: Covers(e, v, n - 1) && !FullOnLast(e, max, n)
  {
    forall i | 0 <= i < |es|
      ensures GlobMatch(lines[i], Hex(v, n)) <==> Covers(es[i], v, n - 1) && !FullOnLast(es[i], max, n)
    {
      assert Prints(lines[i], es[i], max, n);
      GlobDenotes(es[i], v, max, n);
    }
    if MatchedBy(lines, v, n) {
      var i :| 0 <= i < |lines| && GlobMatch(lines[i], Hex(v, n));
      assert es[i] in es;
    }
  }

  /** On the values with digits of the mode: up to 9 in a decimal range. */
  ghost predicate MatchesRange(r: DeviceRange, lines: seq<string>, n: nat, w: nat) {
    forall v :: DigitsLe(v, n, MaxDigit(r, n, w)) ==> (MatchedBy(lines, v, n) <==> r.Has(v))
  }

  /** The printed patterns match a device value with digits of the mode exactly
      when it lies in the range, for every range but those of the three families. */
  lemma DumpIsFaithful(r: DeviceRange, lines: seq<string>, n: nat, w: nat)
    requires 0 < n < w && r.Valid(n)
    requires Printed(lines, DeviceEntries(r, n, w), MaxDigit(r, n, w), n)
    ensures MatchesRange(r, lines, n, w) <==> Faithful(r, n, w)
  {
    if Faithful(r, n, w) {
      forall v | DigitsLe(v, n, MaxDigit(r, n, w))
        ensures MatchedBy(lines, v, n) <==> r.Has(v)
      {
        DeviceCount(r, v, n, w);
        PatternsDenote(r, lines, v, n, w);
      }
    } else {
      var v := Misjudged(r, lines, n, w);
    }
  }

  /** A value that an unfaithful range misses or adds. */
  lemma Misjudged(r: DeviceRange, lines: seq<string>, n: nat, w: nat) returns (v: nat)
    requires 0 < n < w && r.Valid(n) && !Faithful(r, n, w)
    requires Printed(lines, DeviceEntries(r, n, w), MaxDigit(r, n, w), n)
    ensures DigitsLe(v, n, MaxDigit(r, n, w)) && (MatchedBy(lines, v, n) <==> !r.Has(v))
  {
    ModeDigits(r.Lo(), r.Hi(w), n);
    if LosesLastDigit(r, n, w) {
      v := r.Lo();
    } else if CarriesOut(r, n, w) {
      v := 0;
      DigitsWiden(0, 0, n, MaxDigit(r, n, w));
    } else {
      v := Repeat(9, n);
      DigitsRepeat(n, 9);
    }
    DeviceCount(r, v, n, w);
    PatternsDenote(r, lines, v, n, w);
  }

  /** At most 2(n - 1) + 1 entries, whatever the range. */
  lemma EntryBound(r: DeviceRange, n: nat, w: nat)
    requires 0 < n
    ensures |DeviceEntries(r, n, w)| <= 2 * (n - 1) + 1
  {
    RangesBound(r.Lo(), r.Hi(w), n - 1, MaxDigit(r, n, w), n, w);
  }

  /** No value is covered by two entries unless the carry was lost. */
  lemma EntriesDisjoint(r: DeviceRange, v: nat, i: nat, j: nat, n: nat, w: nat)
    requires 0 < n < w && r.Valid(n) && DigitsLe(v, n, MaxDigit(r, n, w)) && !CarriesOut(r, n, w)
    requires i < j < |DeviceEntries(r, n, w)|
    ensures !(Covers(DeviceEntries(r, n, w)[i], v, n - 1) && Covers(DeviceEntries(r, n, w)[j], v, n - 1))
  {
    DeviceCount(r, v, n, w);
    TwoCovers(DeviceEntries(r, n, w), i, j, v, n - 1);
  }

  lemma {:induction false} TwoCovers(es: seq<Entry>, i: nat, j: nat, u: nat, nd: nat)
    requires i < j < |es|
    ensures Covers(es[i], u, nd) && Covers(es[j], u, nd) ==> CoverCount(es, u, nd) >= 2
  {
    if i > 0 {
      TwoCovers(es[1..], i - 1, j - 1, u, nd);
    } else {
      CountWitness(es[1..], u, nd);
      assert es[j] == es[1..][j - 1];
    }
  }

  /** On the target (n == 4, w == 8) each family has members: d1230-d1239,
      everything from d9991, and d0000-dA003. */
  lemma UnfaithfulExamples()
    ensures LosesLastDigit(DeviceRange(true, 0x1230, true, 0x1239), 4, 8)
    ensures CarriesOut(DeviceRange(true, 0x9991, false, 0), 4, 8)
    ensures Undershoots(DeviceRange(false, 0, true, 0xA003), 4, 8)
  {
    assert Pow16(4) == 0x10000;
    assert Repeat(9, 4) == 0x9999;
    ModeDigits(0x1230, 0x1239, 4);
    assert DigitsLe(0x1239, 4, 9);
    RepeatF(8);
    ModeDigits(0x9991, Repeat(15, 8), 4);
    assert Scale16(9, 3) == 0x9000;
    ModeDigits(0, 0xA003, 4);
    assert Drop16(0xA003, 0) % 16 == 3 && !(0 > Floor(3, 0));
  }
}
