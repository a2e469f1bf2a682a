/** Turning a bcdDevice range into fnmatch entries by peeling digits from both
    ends (hwdb/platform/buildplatform.cpp, `dump_usb_id`). `n` is the number of
    digits of a device value and `w` that of `unsigned int`; the source has
    n == 4 and w == 8. */
module UsbRange {
  import opened Digits
  import opened Bcd

  /** `digits` leading digits spelled out in `prefix`, then one digit in
      lo..hi, then free digits. */
  datatype Entry = Entry(prefix: nat, digits: nat, lo: nat, hi: nat)

  /** The counter after passing the low digit c: bumped when c made an entry. */
  function Bump(l: nat, c: nat, max: nat, n: nat, w: nat): nat {
    if c > 0 then Incremented(l, 1, max, n, w) else l
  }

  function Lower(h: nat, c: nat, max: nat, n: nat, w: nat): nat {
    if c < max then Incremented(h, -1, max, n, w) else h
  }

  function Truncate(digit: nat, max: nat): nat {
    if digit > max then max else digit
  }

  function Ranges(lo: nat, hi: nat, nd: nat, max: nat, n: nat, w: nat): seq<Entry>
    decreases nd
  {
    if lo > hi then [] else
    var (clo, chi) := (lo % 16, Truncate(hi % 16, max));
    var (l, h) := (lo / 16, hi / 16);
    if l == h || nd == 0 then [Entry(l, nd, clo, chi)]
    else
      RoundEntries(lo, hi, nd, max)
      + Ranges(Bump(l, clo, max, n, w), Lower(h, chi, max, n, w), nd - 1, max, n, w)
  }

  /** The entries of a round that does not end the loop. */
  function RoundEntries(lo: nat, hi: nat, nd: nat, max: nat): seq<Entry> {
    (if lo % 16 > 0 then [Entry(lo / 16, nd, lo % 16, max)] else [])
    + (if Truncate(hi % 16, max) < max then [Entry(hi / 16, nd, 0, hi % 16)] else [])
  }

  lemma {:induction false} RangesBound(lo: nat, hi: nat, nd: nat, max: nat, n: nat, w: nat)
    ensures |Ranges(lo, hi, nd, max, n, w)| <= 2 * nd + 1
    ensures forall e <- Ranges(lo, hi, nd, max, n, w) :: e.digits <= nd
    decreases nd
  {
    if lo <= hi && lo / 16 != hi / 16 && nd > 0 {
      var (l', h') := (Bump(lo / 16, lo % 16, max, n, w), Lower(hi / 16, Truncate(hi % 16, max), max, n, w));
      RangesBound(l', h', nd - 1, max, n, w);
    }
  }

  /** a spells out more digits than b, or as many of a lower number. */
  predicate Earlier(a: Entry, b: Entry) {
    a.digits > b.digits || (a.digits == b.digits && a.prefix < b.prefix)
  }

  predicate InOrder(es: seq<Entry>) {
    forall i, j :: 0 <= i < j < |es| ==> Earlier(es[i], es[j])
  }

  lemma OrderedRound(round: seq<Entry>, rest: seq<Entry>, nd: nat)
    requires InOrder(round) && InOrder(rest) && nd > 0
    requires (forall e <- round :: e.digits == nd) && forall e <- rest :: e.digits <= nd - 1
    ensures InOrder(round + rest)
  {
    var es := round + rest;
    forall i, j | 0 <= i < j < |es|
      ensures Earlier(es[i], es[j])
    {
      if i < |round| <= j { assert es[i] in round && es[j] in rest; }
    }
  }

  /** Entries are printed with ever fewer digits spelled out, at most two with the
      same number, of which the lower one comes first. */
  lemma {:induction false} RangesOrdered(lo: nat, hi: nat, nd: nat, max: nat, n: nat, w: nat)
    ensures InOrder(Ranges(lo, hi, nd, max, n, w))
    decreases nd
  {
    if lo <= hi && lo / 16 != hi / 16 && nd > 0 {
      var (l', h') := (Bump(lo / 16, lo % 16, max, n, w), Lower(hi / 16, Truncate(hi % 16, max), max, n, w));
      RangesBound(l', h', nd - 1, max, n, w);
      RangesOrdered(l', h', nd - 1, max, n, w);
      OrderedRound(RoundEntries(lo, hi, nd, max), Ranges(l', h', nd - 1, max, n, w), nd);
    }
  }

  /** u is the leading nd + 1 digits of a device value. */
  predicate Covers(e: Entry, u: nat, nd: nat) {
    e.digits <= nd &&
    var d := Drop16(u, nd - e.digits);
    e.lo <= d % 16 <= e.hi && (e.digits > 0 ==> d / 16 == e.prefix)
  }

  /** How many entries cover u: 0 or 1 for every u means pairwise disjoint. */
  function CoverCount(es: seq<Entry>, u: nat, nd: nat): nat {
    if es == [] then 0
    else (if Covers(es[0], u, nd) then 1 else 0) + CoverCount(es[1..], u, nd)
  }

  lemma {:induction false} CountConcat(a: seq<Entry>, b: seq<Entry>, u: nat, nd: nat)
    ensures CoverCount(a + b, u, nd) == CoverCount(a, u, nd) + CoverCount(b, u, nd)
  {
    if a == [] {
      assert a + b == b;
    } else {
      assert (a + b)[1..] == a[1..] + b;
      CountConcat(a[1..], b, u, nd);
    }
  }

  lemma {:induction false} CountPeel(es: seq<Entry>, u: nat, nd: nat)
    requires nd > 0
    requires forall e <- es :: e.digits <= nd - 1
    ensures CoverCount(es, u, nd) == CoverCount(es, u / 16, nd - 1)
  {
    if es != [] { CountPeel(es[1..], u, nd); }
  }

  function Bit(b: bool): nat { if b then 1 else 0 }

  /** Whether the entry made for lo in a round covers u, as 0 or 1. */
  function LoHit(lo: nat, u: nat, max: nat): nat {
    if lo % 16 > 0 && u / 16 == lo / 16 && lo % 16 <= u % 16 <= max then 1 else 0
  }

  function HiHit(hi: nat, u: nat, max: nat): nat {
    if hi % 16 < max && u / 16 == hi / 16 && u % 16 <= hi % 16 then 1 else 0
  }

  /** How many entries of the range cover u, by arithmetic alone. */
  function Hits(lo: nat, hi: nat, u: nat, nd: nat, max: nat, n: nat, w: nat): nat
    decreases nd
  {
    if lo > hi then 0
    else if lo / 16 == hi / 16 || nd == 0 then
      Bit(lo % 16 <= u % 16 <= Truncate(hi % 16, max) && (nd > 0 ==> u / 16 == lo / 16))
    else
      LoHit(lo, u, max) + HiHit(hi, u, max)
      + Hits(Bump(lo / 16, lo % 16, max, n, w), Lower(hi / 16, Truncate(hi % 16, max), max, n, w),
             u / 16, nd - 1, max, n, w)
  }

  lemma {:induction false} CountIsHits(lo: nat, hi: nat, u: nat, nd: nat, max: nat, n: nat, w: nat)
    ensures CoverCount(Ranges(lo, hi, nd, max, n, w), u, nd) == Hits(lo, hi, u, nd, max, n, w)
    decreases nd
  {
    if lo > hi || lo / 16 == hi / 16 || nd == 0 {
      CountLast(lo, hi, u, nd, max, n, w);
    } else {
      var (l', h') := (Bump(lo / 16, lo % 16, max, n, w), Lower(hi / 16, Truncate(hi % 16, max), max, n, w));
      CountIsHits(l', h', u / 16, nd - 1, max, n, w);
      CountStep(lo, hi, u, l', h', nd, max, n, w);
    }
  }

  lemma CountLast(lo: nat, hi: nat, u: nat, nd: nat, max: nat, n: nat, w: nat)
    requires lo > hi || lo / 16 == hi / 16 || nd == 0
    ensures CoverCount(Ranges(lo, hi, nd, max, n, w), u, nd) == Hits(lo, hi, u, nd, max, n, w)
  {
    if lo <= hi {
      var e := Entry(lo / 16, nd, lo % 16, Truncate(hi % 16, max));
      assert Ranges(lo, hi, nd, max, n, w) == [e];
      CountOne(e, u, nd);
    }
  }

  lemma CountOne(e: Entry, u: nat, nd: nat)
    requires e.digits == nd
    ensures CoverCount([e], u, nd) == Bit(e.lo <= u % 16 <= e.hi && (nd > 0 ==> u / 16 == e.prefix))
  {
    assert CoverCount([e][1..], u, nd) == 0;
  }

  /** The count of one round of peeling; l' and h' are the bounds it leaves. */
  lemma CountStep(lo: nat, hi: nat, u: nat, l': nat, h': nat, nd: nat, max: nat, n: nat, w: nat)
    requires nd > 0 && lo <= hi && lo / 16 != hi / 16
    requires l' == Bump(lo / 16, lo % 16, max, n, w) && h' == Lower(hi / 16, Truncate(hi % 16, max), max, n, w)
    ensures CoverCount(Ranges(lo, hi, nd, max, n, w), u, nd) ==
      LoHit(lo, u, max) + HiHit(hi, u, max) + CoverCount(Ranges(l', h', nd - 1, max, n, w), u / 16, nd - 1)
  {
    var (es, rest) := (RoundEntries(lo, hi, nd, max), Ranges(l', h', nd - 1, max, n, w));
    assert Ranges(lo, hi, nd, max, n, w) == es + rest;
    CountConcat(es, rest, u, nd);
    CountRound(lo, hi, u, nd, max);
    RangesBound(l', h', nd - 1, max, n, w);
    CountPeel(rest, u, nd);
  }

  lemma CountRound(lo: nat, hi: nat, u: nat, nd: nat, max: nat)
    requires nd > 0
    ensures CoverCount(RoundEntries(lo, hi, nd, max), u, nd) == LoHit(lo, u, max) + HiHit(hi, u, max)
  {
    var a := if lo % 16 > 0 then [Entry(lo / 16, nd, lo % 16, max)] else [];
    var b := if Truncate(hi % 16, max) < max then [Entry(hi / 16, nd, 0, hi % 16)] else [];
    CountConcat(a, b, u, nd);
    if a != [] { CountOne(a[0], u, nd); }
    if b != [] { CountOne(b[0], u, nd); }
  }

  ghost predicate Mode(max: nat) { max == 9 || max == 15 }

  /** The increment steps to the next number whose digits are all <= max. */
  lemma BumpOrder(l: nat, u: nat, k: nat, max: nat, n: nat, w: nat)
    requires Mode(max) && k < n < w && DigitsLe(l, k, max) && DigitsLe(u, k, max)
    ensures u > l <==> u >= Incremented(l, 1, max, n, w)
  {
    FitsLong(n, w);
    if max == 15 {
      DigitsBound(l, k, max);
      Pow16Monotone(k + 1, w);
      UnsignedFits(l + 1, w);
    } else {
      DecimalStep(l, 1, k, n, w);
      DigitsWiden(l, k, n, 9);
      DigitsWiden(u, k, n, 9);
      BcdOrder(l, u, n);
      BcdOrder(u, Incremented(l, 1, max, n, w), n);
    }
  }

  lemma LowerOrder(h: nat, u: nat, k: nat, max: nat, n: nat, w: nat)
    requires Mode(max) && k < n < w && DigitsLe(h, k, max) && DigitsLe(u, k, max) && h > 0
    ensures u < h <==> u <= Incremented(h, -1, max, n, w)
    ensures DigitsLe(Incremented(h, -1, max, n, w), k, max)
  {
    if max == 15 { LowerHex(h, k, n, w); } else { LowerBcd(h, u, k, n, w); }
  }

  lemma LowerHex(h: nat, k: nat, n: nat, w: nat)
    requires k < w && DigitsLe(h, k, 15) && h > 0
    ensures Incremented(h, -1, 15, n, w) == h - 1 && DigitsLe(h - 1, k, 15)
  {
    DigitsBound(h, k, 15);
    Pow16Monotone(k, w);
    UnsignedFits(h + -1, w);
    BoundGivesDigits(h - 1, k);
  }

  lemma LowerBcd(h: nat, u: nat, k: nat, n: nat, w: nat)
    requires k < n < w && DigitsLe(h, k, 9) && DigitsLe(u, k, 9) && h > 0
    ensures u < h <==> u <= Incremented(h, -1, 9, n, w)
    ensures DigitsLe(Incremented(h, -1, 9, n, w), k, 9)
  {
    var p := Incremented(h, -1, 9, n, w);
    DigitsWiden(h, k, n, 9);
    DigitsWiden(u, k, n, 9);
    ZeroDigits(n);
    BcdOrder(0, h, n);
    DecimalStep(h, -1, k, n, w);
    BcdOrder(u, h, n);
    BcdOrder(p, h, n);
    BcdOrder(p, u, n);
    DigitsBound(h, k, 9);
    DigitsNarrow(p, k, n, 9);
  }

  /** One decimal step on a number with at least one spare digit. */
  lemma DecimalStep(v: nat, inc: int, k: nat, n: nat, w: nat)
    requires k < n < w && DigitsLe(v, k, 9) && (inc == 1 || inc == -1)
    requires FromBcd(v, n) + inc >= 0
    ensures var r := Incremented(v, inc, 9, n, w);
      DigitsLe(r, n, 9) && FromBcd(r, n) == FromBcd(v, n) + inc
  {
    DigitsWiden(v, k, n, 9);
    FromBcdWiden(v, k, n);
    FromBcdBound(v, k);
    TenfoldRoom(k, n);
    FitsLong(n, w);
    IncrementAdds(v, inc, n, w);
    SmallModulo(FromBcd(v, n) + inc, Pow10(n));
  }

  lemma {:induction false} TenfoldRoom(k: nat, n: nat)
    requires k < n
    ensures Pow10(k) + 1 <= Pow10(n)
    decreases n
  {
    PowBounds(n - 1);
    if k < n - 1 { TenfoldRoom(k, n - 1); }
  }

  /** Bumping keeps k digits unless they are all max; then it carries. */
  lemma BumpCarry(l: nat, k: nat, max: nat, n: nat, w: nat)
    requires Mode(max) && k < n < w && DigitsLe(l, k, max)
    ensures l != Repeat(max, k) ==> DigitsLe(Incremented(l, 1, max, n, w), k, max)
    ensures l == Repeat(max, k) ==> Incremented(l, 1, max, n, w) == Pow16(k)
  {
    var s := Incremented(l, 1, max, n, w);
    FitsLong(n, w);
    DigitsBound(l, k, max);
    DigitsRepeat(k, max);
    DigitsBound(Repeat(max, k), k, max);
    BumpOrder(l, Repeat(max, k), k, max, n, w);
    if max == 15 {
      Pow16Monotone(k + 1, w);
      UnsignedFits(l + 1, w);
      RepeatF(k);
      if l != Repeat(max, k) { BoundGivesDigits(s, k); }
    } else {
      DecimalStep(l, 1, k, n, w);
      if l != Repeat(max, k) {
        DigitsNarrow(s, k, n, 9);
      } else {
        NinesValue(k);
        FromBcdWiden(l, k, n);
        PowerIsBcd(k, n);
        BcdOrder(s, Pow16(k), n);
      }
    }
  }

  lemma {:induction false} PowerIsBcd(k: nat, n: nat)
    requires k < n
    ensures DigitsLe(Pow16(k), n, 9) && FromBcd(Pow16(k), n) == Pow10(k)
  {
    if k > 0 { PowerIsBcd(k - 1, n - 1); } else { ZeroDigits(n - 1); }
  }

  /** How one round moves the lower bound, as comparisons only. */
  lemma BumpCases(lo: nat, u: nat, l': nat, nd: nat, max: nat, n: nat, w: nat)
    requires Mode(max) && 0 < nd < n < w && DigitsLe(lo, nd + 1, max) && DigitsLe(u, nd + 1, max)
    requires l' == Bump(lo / 16, lo % 16, max, n, w)
    ensures if lo % 16 > 0 && lo / 16 == Repeat(max, nd) then l' == Pow16(nd) else DigitsLe(l', nd, max)
    ensures u / 16 < Pow16(nd)
    ensures Bit(u >= lo) == LoHit(lo, u, max) + Bit(u / 16 >= l')
  {
    DigitsBound(u / 16, nd, max);
    if lo % 16 > 0 {
      BumpOrder(lo / 16, u / 16, nd, max, n, w);
      BumpCarry(lo / 16, nd, max, n, w);
    }
  }

  /** The same for an upper bound within the digit range. */
  lemma LowerCases(hi: nat, u: nat, h': nat, nd: nat, max: nat, n: nat, w: nat)
    requires Mode(max) && 0 < nd < n < w && DigitsLe(hi, nd + 1, max) && DigitsLe(u, nd + 1, max) && hi / 16 > 0
    requires h' == Lower(hi / 16, Truncate(hi % 16, max), max, n, w)
    ensures DigitsLe(h', nd, max)
    ensures Bit(u <= hi) == HiHit(hi, u, max) + Bit(u / 16 <= h')
  {
    LowerOrder(hi / 16, u / 16, nd, max, n, w);
  }

  /** The loop ends in this round. */
  lemma RangeLast(lo: nat, hi: nat, u: nat, nd: nat, max: nat, n: nat, w: nat)
    requires DigitsLe(u, nd + 1, max)
    requires DigitsLe(lo, nd + 1, 15) && DigitsLe(hi, nd + 1, 15)
    requires lo > hi || lo / 16 == hi / 16 || nd == 0
    ensures Hits(lo, hi, u, nd, max, n, w) == Bit(lo <= u <= hi)
  {
    assert u % 16 <= max;
  }

  /** Both bounds within the digit range: every value is covered once when it
      lies between them and never otherwise. */
  lemma {:induction false} RangeExact(lo: nat, hi: nat, u: nat, nd: nat, max: nat, n: nat, w: nat)
    requires Mode(max) && nd < n < w
    requires DigitsLe(lo, nd + 1, max) && DigitsLe(hi, nd + 1, max) && DigitsLe(u, nd + 1, max)
    ensures Hits(lo, hi, u, nd, max, n, w) == Bit(lo <= u <= hi)
    decreases nd
  {
    DigitsRelax(lo, nd + 1, max);
    DigitsRelax(hi, nd + 1, max);
    if lo > hi || lo / 16 == hi / 16 || nd == 0 {
      RangeLast(lo, hi, u, nd, max, n, w);
    } else {
      var l' := Bump(lo / 16, lo % 16, max, n, w);
      var h' := Lower(hi / 16, Truncate(hi % 16, max), max, n, w);
      BumpCases(lo, u, l', nd, max, n, w);
      LowerCases(hi, u, h', nd, max, n, w);
      DigitsBound(hi / 16, nd, max);
      assert DigitsLe(l', nd, max);
      RangeExact(l', h', u / 16, nd - 1, max, n, w);
      SumRound(lo, hi, u, l', h', max);
    }
  }

  lemma SumRound(lo: nat, hi: nat, u: nat, l': nat, h': nat, max: nat)
    requires lo <= hi && lo / 16 != hi / 16
    requires Bit(u >= lo) == LoHit(lo, u, max) + Bit(u / 16 >= l')
    requires Bit(u <= hi) == HiHit(hi, u, max) + Bit(u / 16 <= h')
    ensures Bit(lo <= u <= hi) == LoHit(lo, u, max) + HiHit(hi, u, max) + Bit(l' <= u / 16 <= h')
  {
    assert LoHit(lo, u, max) == 1 ==> u <= hi;
    assert HiHit(hi, u, max) == 1 ==> u >= lo;
  }

  lemma {:induction false} DigitsRelax(v: nat, k: nat, max: nat)
    requires max <= 15 && DigitsLe(v, k, max)
    ensures DigitsLe(v, k, 15)
  {
    if k > 0 { DigitsRelax(v / 16, k - 1, max); }
  }

  lemma {:induction false} TopDigitOnly(max: nat, nd: nat)
    requires max <= 15
    ensures DigitsLe(Scale16(max, nd), nd + 1, max)
  {
    if nd > 0 { TopDigitOnly(max, nd - 1); }
  }

  /** One round when the upper bound is all F: it never makes an entry. */
  lemma OpenStep(lo: nat, m: nat, u: nat, l': nat, nd: nat, max: nat, n: nat, w: nat)
    requires Mode(max) && 0 < nd && nd + 2 <= m
    requires DigitsLe(lo, nd + 1, max) || lo == Pow16(nd + 1)
    requires l' == Bump(lo / 16, lo % 16, max, n, w)
    ensures Hits(lo, Repeat(15, m), u, nd, max, n, w) ==
      LoHit(lo, u, max) + Hits(l', Repeat(15, m - 1), u / 16, nd - 1, max, n, w)
  {
    OpenAbove(lo, m, nd, max);
    var hi := Repeat(15, m);
    assert hi / 16 == Repeat(15, m - 1) && hi % 16 == 15;
  }

  lemma OpenLast(lo: nat, m: nat, u: nat, max: nat, n: nat, w: nat)
    requires Mode(max) && 2 <= m && lo <= 16 && DigitsLe(u, 1, max)
    ensures Hits(lo, Repeat(15, m), u, 0, max, n, w) == Bit(lo % 16 <= u)
  {
    var hi := Repeat(15, m);
    assert hi % 16 == 15 && hi / 16 == Repeat(15, m - 1) > 0;
    assert u < 16;
  }

  /** Once the carry has left the top digit, one last entry covers everything. */
  lemma {:induction false} RangeCarried(m: nat, u: nat, nd: nat, max: nat, n: nat, w: nat)
    requires Mode(max) && nd + 2 <= m && DigitsLe(u, nd + 1, max)
    ensures Hits(Pow16(nd + 1), Repeat(15, m), u, nd, max, n, w) == 1
    decreases nd
  {
    var lo := Pow16(nd + 1);
    assert lo % 16 == 0 && lo / 16 == Pow16(nd);
    if nd > 0 {
      OpenStep(lo, m, u, Pow16(nd), nd, max, n, w);
      RangeCarried(m - 1, u / 16, nd - 1, max, n, w);
    } else {
      OpenLast(lo, m, u, max, n, w);
    }
  }

  /** The carry threshold moves with the lower bound. */
  lemma BumpThreshold(lo: nat, l': nat, nd: nat, max: nat, n: nat, w: nat)
    requires Mode(max) && 0 < nd < n < w && DigitsLe(lo, nd + 1, max)
    requires l' == Bump(lo / 16, lo % 16, max, n, w)
    ensures lo > Scale16(max, nd) <==> l' > Scale16(max, nd - 1)
  {
    TopDigitOnly(max, nd - 1);
    BumpOrder(lo / 16, Scale16(max, nd - 1), nd, max, n, w);
  }

  /** No upper bound (all m digits of hi are F, more than a value has): values
      from lo up are covered once more than values below it, and everything is
      covered one extra time exactly when the carry leaves the top digit. */
  lemma {:induction false} RangeOpen(lo: nat, m: nat, u: nat, nd: nat, max: nat, n: nat, w: nat)
    requires Mode(max) && nd < n < w && nd + 2 <= m
    requires DigitsLe(lo, nd + 1, max) && DigitsLe(u, nd + 1, max)
    ensures Hits(lo, Repeat(15, m), u, nd, max, n, w) ==
      Bit(u >= lo) + Bit(lo > Scale16(max, nd))
    decreases nd
  {
    if nd == 0 {
      OpenLast(lo, m, u, max, n, w);
    } else {
      var l' := Bump(lo / 16, lo % 16, max, n, w);
      OpenStep(lo, m, u, l', nd, max, n, w);
      OpenSum(lo, u, l', nd, max, n, w);
      if l' == Pow16(nd) {
        RangeCarried(m - 1, u / 16, nd - 1, max, n, w);
      } else {
        RangeOpen(l', m - 1, u / 16, nd - 1, max, n, w);
      }
    }
  }

  lemma OpenSum(lo: nat, u: nat, l': nat, nd: nat, max: nat, n: nat, w: nat)
    requires Mode(max) && 0 < nd < n < w && DigitsLe(lo, nd + 1, max) && DigitsLe(u, nd + 1, max)
    requires l' == Bump(lo / 16, lo % 16, max, n, w)
    ensures l' == Pow16(nd) || DigitsLe(l', nd, max)
    ensures Bit(u >= lo) + Bit(lo > Scale16(max, nd)) == LoHit(lo, u, max) +
      if l' == Pow16(nd) then 1 else Bit(u / 16 >= l') + Bit(l' > Scale16(max, nd - 1))
  {
    BumpCases(lo, u, l', nd, max, n, w);
    BumpThreshold(lo, l', nd, max, n, w);
    TopDigitOnly(max, nd - 1);
    DigitsBound(Scale16(max, nd - 1), nd, max);
  }

  lemma OpenAbove(lo: nat, m: nat, nd: nat, max: nat)
    requires Mode(max) && nd + 2 <= m
    requires DigitsLe(lo, nd + 1, max) || lo == Pow16(nd + 1)
    ensures lo <= Repeat(15, m)
    ensures nd > 0 ==> lo / 16 != Repeat(15, m - 1)
  {
    RepeatF(m);
    RepeatF(m - 1);
    PowBounds(nd + 1);
    Pow16Monotone(nd + 1, m - 1);
    if lo != Pow16(nd + 1) {
      DigitsBound(lo, nd + 1, max);
    }
  }
}
