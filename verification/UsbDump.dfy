/** From a bcdDevice range to the printed patterns, and exactly when those
    patterns denote the range (hwdb/platform/buildplatform.cpp, `dump_usb_id`). */
module UsbDump {
  import opened Digits
  import opened Bcd
  import opened UsbRange
  import opened UsbSaturation
  import opened UsbText

  /** The range of one table entry; an absent bound is not matched on. */
  datatype DeviceRange = DeviceRange(matchLo: bool, bcdLo: nat, matchHi: bool, bcdHi: nat) {
    ghost predicate Valid(n: nat) { bcdLo < Pow16(n) && bcdHi < Pow16(n) }

    function Lo(): nat { if matchLo then bcdLo else 0 }

    /** Without an upper bound, all bits of the w-digit `unsigned int` are set. */
    function Hi(w: nat): nat { if matchHi then bcdHi else Repeat(15, w) }

    ghost predicate Has(v: nat) { (matchLo ==> bcdLo <= v) && (matchHi ==> v <= bcdHi) }
  }

  /** BCD unless some digit of lo, or of hi cut down to 99..9, is above 9. */
  function ModeOf(lo: nat, hi: nat, n: nat): nat {
    var cut := if hi > Repeat(9, n) then Repeat(9, n) else hi;
    if EachDigit(lo, n, 9) && EachDigit(cut, n, 9) then 9 else 15
  }

  predicate EachDigit(v: nat, n: nat, max: nat) {
    forall k | 0 <= k < n :: Drop16(v, k) % 16 <= max
  }

  method FindMode(lo: nat, hi: nat, n: nat) returns (max: nat)
    ensures max == ModeOf(lo, hi, n)
  {
    max := 0x9;
    var cut := if hi > Repeat(9, n) then Repeat(9, n) else hi;
    var i := 0;
    while i < n
      invariant 0 <= i <= n && max == 9
      invariant EachDigit(lo, i, 9) && EachDigit(cut, i, 9)
    {
      var clo, chi := Drop16(lo, i) % 16, Drop16(cut, i) % 16;
      if clo > max || chi > max {
        max := 0xf;
        break;
      }
      i := i + 1;
    }
  }

  lemma {:induction false} DigitsEverywhere(v: nat, n: nat, max: nat)
    requires v < Pow16(n)
    ensures DigitsLe(v, n, max) <==> EachDigit(v, n, max)
  {
    if n > 0 {
      DigitsEverywhere(v / 16, n - 1, max);
      EachDigitStep(v, n, max);
    }
  }

  lemma EachDigitStep(v: nat, n: nat, max: nat)
    requires n > 0
    ensures EachDigit(v, n, max) <==> v % 16 <= max && EachDigit(v / 16, n - 1, max)
  {
    if EachDigit(v, n, max) {
      assert Drop16(v, 0) % 16 <= max;
      forall k | 0 <= k < n - 1 ensures Drop16(v / 16, k) % 16 <= max {
        assert Drop16(v, k + 1) % 16 <= max;
      }
    }
    if v % 16 <= max && EachDigit(v / 16, n - 1, max) {
      forall k | 0 <= k < n ensures Drop16(v, k) % 16 <= max {
        if k > 0 { assert Drop16(v / 16, k - 1) % 16 <= max; }
      }
    }
  }

  lemma ModeDigits(lo: nat, hi: nat, n: nat)
    requires lo < Pow16(n)
    ensures Mode(ModeOf(lo, hi, n)) && DigitsLe(lo, n, ModeOf(lo, hi, n))
    ensures ModeOf(lo, hi, n) == 9 <==>
      DigitsLe(lo, n, 9) && (hi > Repeat(9, n) || DigitsLe(hi, n, 9))
  {
    var cut := if hi > Repeat(9, n) then Repeat(9, n) else hi;
    DigitsRepeat(n, 9);
    DigitsBound(Repeat(9, n), n, 9);
    DigitsEverywhere(lo, n, 9);
    DigitsEverywhere(cut, n, 9);
    BoundGivesDigits(lo, n);
  }

  /** What a lower bound can be after some rounds. */
  ghost predicate LoInLoop(lo: nat, nd: nat, max: nat) {
    DigitsLe(lo, nd + 1, max) || lo == Pow16(nd + 1)
  }

  /** What an upper bound can be: in range, above 99..9, or all F. */
  ghost predicate HiInLoop(hi: nat, nd: nat, max: nat) {
    || DigitsLe(hi, nd + 1, max)
    || (max == 9 && DigitsLe(hi, nd + 1, 15) && hi > Repeat(9, nd + 1))
    || AllF(hi, nd + 2)
  }

  ghost predicate AllF(hi: nat, least: nat) {
    exists m :: m >= least && hi == Repeat(15, m)
  }

  lemma RoundKeeps(lo: nat, hi: nat, nd: nat, max: nat, n: nat, w: nat)
    requires Mode(max) && 0 < nd < n < w && LoInLoop(lo, nd, max) && HiInLoop(hi, nd, max)
    requires lo <= hi && lo / 16 != hi / 16
    ensures LoInLoop(Bump(lo / 16, lo % 16, max, n, w), nd - 1, max)
    ensures HiInLoop(Lower(hi / 16, Truncate(hi % 16, max), max, n, w), nd - 1, max)
    ensures lo % 16 > 0 ==> lo / 16 < Pow16(nd)
    ensures Truncate(hi % 16, max) < max ==> hi / 16 < Pow16(nd)
  {
    var h := hi / 16;
    if lo != Pow16(nd + 1) {
      BumpCarry(lo / 16, nd, max, n, w);
      DigitsBound(lo / 16, nd, max);
    }
    if DigitsLe(hi, nd + 1, max) {
      LowerOrder(h, h, nd, max, n, w);
      DigitsBound(h, nd, max);
    } else if AllF(hi, nd + 2) {
      var m :| m >= nd + 2 && hi == Repeat(15, m);
      assert h == Repeat(15, m - 1) && hi % 16 == 15;
      assert AllF(h, nd + 1);
    } else {
      DigitsBound(h, nd, 15);
      if hi % 16 < 9 {
        ClampedBelow(h, nd, n, w);
      } else if h == Repeat(9, nd) {
        DigitsRepeat(nd, 9);
      }
    }
  }

  /** Every entry prints digits in order and a prefix of its own length. */
  lemma {:induction false} EntriesShaped(lo: nat, hi: nat, nd: nat, max: nat, n: nat, w: nat)
    requires Mode(max) && nd < n < w && LoInLoop(lo, nd, max) && HiInLoop(hi, nd, max)
    ensures forall e <- Ranges(lo, hi, nd, max, n, w) :: Shaped(e, max)
    decreases nd
  {
    if lo <= hi {
      var (clo, chi, l, h) := (lo % 16, Truncate(hi % 16, max), lo / 16, hi / 16);
      if l != h && nd > 0 {
        RoundKeeps(lo, hi, nd, max, n, w);
        EntriesShaped(Bump(l, clo, max, n, w), Lower(h, chi, max, n, w), nd - 1, max, n, w);
        assert clo <= max by { LowDigit(lo, nd, max); }
      } else {
        LastShaped(lo, hi, nd, max);
      }
    }
  }

  lemma LowDigit(lo: nat, nd: nat, max: nat)
    requires LoInLoop(lo, nd, max)
    ensures lo % 16 <= max
  {
  }

  lemma LastShaped(lo: nat, hi: nat, nd: nat, max: nat)
    requires Mode(max) && LoInLoop(lo, nd, max) && HiInLoop(hi, nd, max)
    requires lo <= hi && (lo / 16 == hi / 16 || nd == 0)
    ensures Shaped(Entry(lo / 16, nd, lo % 16, Truncate(hi % 16, max)), max)
  {
    LowDigit(lo, nd, max);
    if AllF(hi, nd + 2) {
      var m :| m >= nd + 2 && hi == Repeat(15, m);
      OpenAbove(lo, m, nd, max);
      assert hi / 16 == Repeat(15, m - 1) && hi % 16 == 15;
    } else {
      BoundedHi(hi, nd, max);
    }
  }

  lemma BoundedHi(hi: nat, nd: nat, max: nat)
    requires Mode(max) && HiInLoop(hi, nd, max) && !AllF(hi, nd + 2)
    ensures hi < Pow16(nd + 1) && hi / 16 < Pow16(nd)
  {
    if DigitsLe(hi, nd + 1, max) {
      DigitsBound(hi, nd + 1, max);
      BoundGivesDigits(hi, nd + 1);
    }
    DigitsBound(hi, nd + 1, 15);
  }

  ghost predicate AllShaped(es: seq<Entry>, max: nat) {
    forall e <- es :: Shaped(e, max)
  }

  /** The lines are the printed patterns of the entries, in order. */
  ghost predicate Printed(lines: seq<string>, es: seq<Entry>, max: nat, n: nat)
    requires Mode(max)
  {
    |lines| == |es| && forall i :: 0 <= i < |es| ==> Prints(lines[i], es[i], max, n)
  }

  ghost predicate Prints(line: string, e: Entry, max: nat, n: nat)
    requires Mode(max)
  {
    Shaped(e, max) && line == DeviceGlob(e, max, n)
  }

  lemma LoopBounds(r: DeviceRange, n: nat, w: nat)
    requires 0 < n < w && r.Valid(n)
    ensures var (lo, hi) := (r.Lo(), r.Hi(w)); var max := ModeOf(lo, hi, n);
      && Mode(max) && LoInLoop(lo, n - 1, max) && HiInLoop(hi, n - 1, max)
      && lo < Pow16(w) && hi < Pow16(w)
      && AllShaped(Ranges(lo, hi, n - 1, max, n, w), max)
  {
    var (lo, hi) := (r.Lo(), r.Hi(w));
    PowBounds(n);
    Pow16Monotone(n, w);
    ModeDigits(lo, hi, n);
    if r.matchHi {
      BoundGivesDigits(hi, n);
    } else {
      RepeatF(w);
      assert AllF(hi, n + 1);
    }
    EntriesShaped(lo, hi, n - 1, ModeOf(lo, hi, n), n, w);
  }

  function DeviceEntries(r: DeviceRange, n: nat, w: nat): seq<Entry>
    requires 0 < n
  {
    Ranges(r.Lo(), r.Hi(w), n - 1, ModeOf(r.Lo(), r.Hi(w), n), n, w)
  }

  method PrintEntry(initial: nat, digits: nat, lo: nat, hi: nat, max: nat, n: nat) returns (line: string)
    requires Mode(max) && Shaped(Entry(initial, digits, lo, hi), max)
    ensures Prints(line, Entry(initial, digits, lo, hi), max, n)
  {
    var output := new Output();
    DoUsbEntry(output, initial, digits, lo, hi, max, n);
    var text := DeviceGlob(Entry(initial, digits, lo, hi), max, n);
    assert "" + text == text;
    line := output.text;
  }

  /** The entries of one round that does not end the loop. */
  method Peel(devlo: Counter, devhi: Counter, clo: nat, chi: nat, digits: nat, max: nat, n: nat, w: nat)
    returns (lines: seq<string>, ghost es: seq<Entry>)
    requires devlo != devhi && devlo.value < Pow16(w) && devhi.value < Pow16(w) && n <= w
    requires Mode(max) && clo <= max && chi <= max
    requires clo > 0 && digits > 0 ==> devlo.value < Pow16(digits)
    requires chi < max && digits > 0 ==> devhi.value < Pow16(digits)
    modifies devlo, devhi
    ensures devlo.value == Bump(old(devlo.value), clo, max, n, w) < Pow16(w)
    ensures devhi.value == Lower(old(devhi.value), chi, max, n, w) < Pow16(w)
    ensures es == (if clo > 0 then [Entry(old(devlo.value), digits, clo, max)] else [])
                  + (if chi < max then [Entry(old(devhi.value), digits, 0, chi)] else [])
    ensures Printed(lines, es, max, n)
  {
    lines, es := [], [];
    if clo > 0x0 {
      var init := IncBcd(devlo, 1, max, n, w);
      var line := PrintEntry(init, digits, clo, max, max, n);
      lines, es := [line], [Entry(init, digits, clo, max)];
    }
    if chi < max {
      var init := IncBcd(devhi, -1, max, n, w);
      var line := PrintEntry(init, digits, 0x0, chi, max, n);
      lines, es := lines + [line], es + [Entry(init, digits, 0, chi)];
    }
  }

  /** One iteration; `last` reports that it broke out of the loop. */
  method Round(devlo: Counter, devhi: Counter, ndigits: nat, max: nat, n: nat, w: nat)
    returns (last: bool, lines: seq<string>, ghost es: seq<Entry>)
    requires devlo != devhi && devlo.value <= devhi.value < Pow16(w) && Mode(max) && ndigits < n < w
    requires LoInLoop(devlo.value, ndigits, max) && HiInLoop(devhi.value, ndigits, max)
    modifies devlo, devhi
    ensures Printed(lines, es, max, n)
    ensures devlo.value < Pow16(w) && devhi.value < Pow16(w)
    ensures last ==> Ranges(old(devlo.value), old(devhi.value), ndigits, max, n, w) == es
    ensures !last ==>
      ndigits > 0 && LoInLoop(devlo.value, ndigits - 1, max) && HiInLoop(devhi.value, ndigits - 1, max)
    ensures !last ==>
      Ranges(old(devlo.value), old(devhi.value), ndigits, max, n, w) ==
         es + Ranges(devlo.value, devhi.value, ndigits - 1, max, n, w)
  {
    ghost var lo, hi := devlo.value, devhi.value;
    var clo, chi := devlo.value % 16, devhi.value % 16;
    if chi > max {
      chi := max;
    }
    devlo.value := devlo.value / 16;
    devhi.value := devhi.value / 16;
    LowDigit(lo, ndigits, max);
    if devlo.value == devhi.value || ndigits == 0 {
      LastShaped(lo, hi, ndigits, max);
      var line := PrintEntry(devlo.value, ndigits, clo, chi, max, n);
      return true, [line], [Entry(devlo.value, ndigits, clo, chi)];
    }
    RoundKeeps(lo, hi, ndigits, max, n, w);
    lines, es := Peel(devlo, devhi, clo, chi, ndigits, max, n, w);
    assert es == RoundEntries(lo, hi, ndigits, max);
    last := false;
  }

  /** The bcdDevice patterns of one table entry, in the order printed. */
  method DumpUsbId(r: DeviceRange, n: nat, w: nat) returns (lines: seq<string>)
    requires 0 < n < w && r.Valid(n)
    ensures Printed(lines, DeviceEntries(r, n, w), ModeOf(r.Lo(), r.Hi(w), n), n)
  {
    LoopBounds(r, n, w);
    var devlo := new Counter(r.Lo());
    var devhi := new Counter(r.Hi(w));
    var max := FindMode(devlo.value, devhi.value, n);
    lines := [];
    ghost var all := DeviceEntries(r, n, w);
    ghost var done, rest: seq<Entry> := [], all;
    var ndigits := n - 1;
    var last := false;
    while !last && devlo.value <= devhi.value
      invariant devlo != devhi && fresh(devlo) && fresh(devhi)
      invariant devlo.value < Pow16(w) && devhi.value < Pow16(w)
      invariant Printed(lines, done, max, n) && done + rest == all
      invariant if last then rest == [] else
        0 <= ndigits < n && LoInLoop(devlo.value, ndigits, max) && HiInLoop(devhi.value, ndigits, max)
        && rest == Ranges(devlo.value, devhi.value, ndigits, max, n, w)
      decreases !last, ndigits
    {
      var more;
      ghost var es;
      last, more, es := Round(devlo, devhi, ndigits, max, n, w);
      rest := if last then [] else Ranges(devlo.value, devhi.value, ndigits - 1, max, n, w);
      JoinRound(done, es, rest, lines, more, max, n);
      lines, done := lines + more, done + es;
      ndigits := ndigits - 1;
    }
  }

  lemma JoinRound(done: seq<Entry>, es: seq<Entry>, rest: seq<Entry>, lines: seq<string>, more: seq<string>,
                  max: nat, n: nat)
    requires Mode(max) && Printed(lines, done, max, n) && Printed(more, es, max, n)
    ensures done + (es + rest) == done + es + rest && Printed(lines + more, done + es, max, n)
  {
    forall i | 0 <= i < |done + es|
      ensures Prints((lines + more)[i], (done + es)[i], max, n)
    {
      assert if i < |done| then Prints(lines[i], done[i], max, n) else Prints(more[i - |done|], es[i - |done|], max, n);
    }
  }
}
