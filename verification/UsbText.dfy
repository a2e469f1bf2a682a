/** The text of a range entry, as the macro `do_usb_entry` of
    hwdb/platform/buildplatform.cpp prints it, read as a shell pattern. */
module UsbText {
  import opened Digits
  import opened UsbRange
  import opened Glob

  function HexDigit(d: nat): char
    requires d < 16
  {
    if d < 10 then '0' + d as char else 'A' + (d - 10) as char
  }

  /** Upper-case hexadecimal, zero-filled to n characters, longer if needed. */
  function Hex(v: nat, n: nat): string
    decreases v, n
  {
    if n == 0 && v == 0 then ""
    else Hex(v / 16, if n == 0 then 0 else n - 1) + [HexDigit(v % 16)]
  }

  /** The list of the bracket for the digits lo..hi; it never spans the
      characters between `9` and `A`. */
  function ClassBody(lo: nat, hi: nat): string
    requires lo < hi < 16
  {
    if lo > 9 || hi < 10 then [HexDigit(lo), '-', HexDigit(hi)]
    else (if lo < 9 then [HexDigit(lo), '-', '9'] else "9")
         + (if hi > 10 then ['A', '-', HexDigit(hi)] else "A")
  }

  function DigitGlob(lo: nat, hi: nat, max: nat): string
    requires lo <= hi < 16
  {
    if lo == hi then [HexDigit(lo)]
    else if lo > 0 || hi < max then "[" + ClassBody(lo, hi) + "]"
    else ""
  }

  ghost predicate Shaped(e: Entry, max: nat) {
    e.lo <= e.hi <= max && (e.digits > 0 ==> e.prefix < Pow16(e.digits))
  }

  function DeviceGlob(e: Entry, max: nat, n: nat): string
    requires e.lo <= e.hi < 16
  {
    PrefixGlob(e.prefix, e.digits) + DigitGlob(e.lo, e.hi, max) + TailGlob(e.digits, n)
  }

  function PrefixGlob(prefix: nat, digits: nat): string {
    if digits > 0 then Hex(prefix, digits) else ""
  }

  function TailGlob(digits: nat, n: nat): string {
    if digits < n - 1 then "*" else ""
  }

  /** An output stream. */
  class Output {
    var text: string

    constructor ()
      ensures text == ""
    {
      text := "";
    }

    method Print(s: string)
      modifies this
      ensures text == old(text) + s
    {
      text := text + s;
    }
  }

  method DoUsbEntry(output: Output, initial: nat, digits: nat, lo: nat, hi: nat, max: nat, n: nat)
    requires lo <= hi < 16
    modifies output
    ensures output.text == old(output.text) + DeviceGlob(Entry(initial, digits, lo, hi), max, n)
  {
    if digits > 0 {
      output.Print(Hex(initial, digits));
    }
    assert output.text == old(output.text) + PrefixGlob(initial, digits);
    PrintRange(output, lo, hi, max);
    label Last:
    if digits < n - 1 {
      output.Print("*");
    }
    assert output.text == old@Last(output.text) + TailGlob(digits, n);
    Regroup(old(output.text), PrefixGlob(initial, digits), DigitGlob(lo, hi, max), TailGlob(digits, n));
  }

  lemma Regroup(a: string, b: string, c: string, d: string)
    ensures a + b + c + d == a + (b + c + d)
  {
  }

  method PrintRange(output: Output, lo: nat, hi: nat, max: nat)
    requires lo <= hi < 16
    modifies output
    ensures output.text == old(output.text) + DigitGlob(lo, hi, max)
  {
    if lo == hi {
      output.Print([HexDigit(lo)]);
    } else if lo > 0 || hi < max {
      ghost var before := output.text;
      if lo > 0x9 || hi < 0xA {
        output.Print(['[', HexDigit(lo), '-', HexDigit(hi), ']']);
        assert ['[', HexDigit(lo), '-', HexDigit(hi), ']'] == "[" + ClassBody(lo, hi) + "]";
      } else {
        if lo < 0x9 {
          output.Print(['[', HexDigit(lo), '-', '9']);
        } else {
          output.Print(['[', HexDigit(lo)]);
        }
        assert output.text == before + ("[" + if lo < 9 then [HexDigit(lo), '-', '9'] else "9");
        if hi > 0xA {
          output.Print(['A', '-', HexDigit(hi), ']']);
        } else {
          output.Print([HexDigit(hi), ']']);
        }
        assert output.text == before + ("[" + ClassBody(lo, hi) + "]");
      }
    }
  }

  lemma RangeMember(a: char, b: char, rest: string, c: char)
    ensures InClass([a, '-', b] + rest, c) <==> a <= c <= b || InClass(rest, c)
  {
    assert ([a, '-', b] + rest)[3..] == rest;
  }

  lemma SingleMember(a: char, rest: string, c: char)
    requires |rest| < 2 || rest[0] != '-'
    ensures InClass([a] + rest, c) <==> c == a || InClass(rest, c)
  {
    assert ([a] + rest)[1..] == rest;
  }

  /** The members of the class are exactly the digits lo..hi. */
  lemma ClassMembers(lo: nat, hi: nat, c: char)
    requires lo < hi < 16
    ensures InClass(ClassBody(lo, hi), c) <==> exists d :: lo <= d <= hi && c == HexDigit(d)
  {
    var digit := if '0' <= c <= '9' then c as int - '0' as int
                 else if 'A' <= c <= 'F' then c as int - 'A' as int + 10 else -1;
    assert forall d :: 0 <= d < 16 ==> (c == HexDigit(d) <==> d == digit);
    var rest := if hi > 10 then ['A', '-', HexDigit(hi)] else "A";
    if lo > 9 || hi < 10 {
      RangeMember(HexDigit(lo), HexDigit(hi), "", c);
      assert ClassBody(lo, hi) == [HexDigit(lo), '-', HexDigit(hi)] + "";
    } else {
      if hi > 10 {
        RangeMember('A', HexDigit(hi), "", c);
        assert rest == ['A', '-', HexDigit(hi)] + "";
      } else {
        SingleMember('A', "", c);
        assert rest == ['A'] + "";
      }
      if lo < 9 {
        RangeMember(HexDigit(lo), '9', rest, c);
      } else {
        SingleMember('9', rest, c);
      }
    }
    assert InClass(ClassBody(lo, hi), c) <==> lo <= digit <= hi;
    if lo <= digit <= hi { assert c == HexDigit(digit); }
  }

  lemma {:induction false} HexLength(v: nat, n: nat)
    requires v < Pow16(n)
    ensures |Hex(v, n)| == n
  {
    if n > 0 { HexLength(v / 16, n - 1); }
  }

  lemma {:induction false} HexInjective(a: nat, b: nat, n: nat)
    requires a < Pow16(n) && b < Pow16(n)
    ensures Hex(a, n) == Hex(b, n) <==> a == b
  {
    if n > 0 {
      HexInjective(a / 16, b / 16, n - 1);
      HexLength(a / 16, n - 1);
      HexLength(b / 16, n - 1);
      var (x, y) := (Hex(a, n), Hex(b, n));
      assert x[..n - 1] == Hex(a / 16, n - 1) && y[..n - 1] == Hex(b / 16, n - 1);
      assert x[n - 1] == HexDigit(a % 16) && y[n - 1] == HexDigit(b % 16);
    }
  }

  lemma {:induction false} HexOrdinary(v: nat, n: nat)
    ensures forall c <- Hex(v, n) :: Ordinary(c)
    decreases v, n
  {
    if n > 0 || v > 0 { HexOrdinary(v / 16, if n == 0 then 0 else n - 1); }
  }

  /** The first j characters are the j leading digits, and the next one the
      digit after them. */
  lemma {:induction false} HexSplit(v: nat, n: nat, j: nat)
    requires v < Pow16(n) && j < n
    ensures |Hex(v, n)| == n
    ensures Hex(v, n)[..j] == Hex(Drop16(v, n - 1 - j) / 16, j)
    ensures Hex(v, n)[j] == HexDigit(Drop16(v, n - 1 - j) % 16)
    ensures Drop16(v, n - 1 - j) / 16 < Pow16(j)
  {
    HexLength(v, n);
    HexLength(v / 16, n - 1);
    if j == n - 1 {
      assert Hex(v, n)[..j] == Hex(v / 16, j);
    } else {
      HexSplit(v / 16, n - 1, j);
      assert Hex(v, n)[..j] == Hex(v / 16, n - 1)[..j];
    }
  }

  predicate IsFull(e: Entry, max: nat) { e.lo == 0 && e.hi == max }

  ghost predicate FullOnLast(e: Entry, max: nat, n: nat) {
    e.digits == n - 1 && IsFull(e, max)
  }

  /** u is the leading nd + 1 digits of a device value, of any digits; `free`
      tells whether more follow. A full range leaves its digit free as well, but
      needs a star to stand for it. */
  predicate Matches(e: Entry, u: nat, nd: nat, max: nat, free: bool) {
    e.digits <= nd &&
    var d := Drop16(u, nd - e.digits);
    && (e.digits > 0 ==> d / 16 == e.prefix)
    && if IsFull(e, max) then free || e.digits < nd else e.lo <= d % 16 <= e.hi
  }

  /** On digits up to max the free digit of a full range makes no difference. */
  lemma MatchesWithin(e: Entry, u: nat, nd: nat, max: nat, free: bool)
    requires e.digits <= nd && Drop16(u, nd - e.digits) % 16 <= max
    ensures Matches(e, u, nd, max, free) <==> Covers(e, u, nd) && (free || e.digits < nd || !IsFull(e, max))
  {
  }

  /** The printed pattern matches the device values its entry covers, except
      that a full range on the last digit prints nothing and matches none. */
  lemma GlobDenotes(e: Entry, v: nat, max: nat, n: nat)
    requires Mode(max) && Shaped(e, max) && e.digits <= n - 1 && DigitsLe(v, n, max)
    ensures GlobMatch(DeviceGlob(e, max, n), Hex(v, n)) <==> Covers(e, v, n - 1) && !FullOnLast(e, max, n)
  {
    DigitsBound(v, n, max);
    DropDigits(v, n, n - 1 - e.digits, max);
    MatchesWithin(e, v, n - 1, max, false);
    GlobDenotesAll(e, v, max, n);
  }

  /** The prefix is matched literally. */
  lemma PrefixFirst(e: Entry, s: string, max: nat, n: nat)
    requires e.lo <= e.hi < 16 && |PrefixGlob(e.prefix, e.digits)| == e.digits
    ensures GlobMatch(DeviceGlob(e, max, n), s) <==>
      PrefixGlob(e.prefix, e.digits) <= s &&
      GlobMatch(DigitGlob(e.lo, e.hi, max) + TailGlob(e.digits, n), s[e.digits..])
  {
    var (prefix, tail) := (PrefixGlob(e.prefix, e.digits), DigitGlob(e.lo, e.hi, max) + TailGlob(e.digits, n));
    assert DeviceGlob(e, max, n) == prefix + tail;
    HexOrdinary(e.prefix, e.digits);
    LiteralPrefix(prefix, tail, s);
  }

  /** The same on every value of n digits, also those above max. */
  lemma GlobDenotesAll(e: Entry, v: nat, max: nat, n: nat)
    requires Mode(max) && Shaped(e, max) && e.digits <= n - 1 && v < Pow16(n)
    ensures GlobMatch(DeviceGlob(e, max, n), Hex(v, n)) <==> Matches(e, v, n - 1, max, false)
  {
    var (j, s) := (e.digits, Hex(v, n));
    var d := Drop16(v, n - 1 - j);
    HexSplit(v, n, j);
    PrefixDenotes(e, v, n);
    PrefixFirst(e, s, max, n);
    TailDenotes(e, d % 16, s[j..], max, n);
  }

  lemma PrefixDenotes(e: Entry, v: nat, n: nat)
    requires e.digits <= n - 1 && v < Pow16(n) && (e.digits > 0 ==> e.prefix < Pow16(e.digits))
    ensures |PrefixGlob(e.prefix, e.digits)| == e.digits
    ensures PrefixGlob(e.prefix, e.digits) <= Hex(v, n)
      <==> (e.digits > 0 ==> Drop16(v, n - 1 - e.digits) / 16 == e.prefix)
  {
    var (j, s) := (e.digits, Hex(v, n));
    if j > 0 {
      HexSplit(v, n, j);
      HexLength(e.prefix, j);
      HexInjective(e.prefix, Drop16(v, n - 1 - j) / 16, j);
    }
  }

  lemma {:induction false} DropDigits(v: nat, n: nat, k: nat, max: nat)
    requires k < n && DigitsLe(v, n, max)
    ensures Drop16(v, k) % 16 <= max
  {
    if k > 0 { DropDigits(v / 16, n - 1, k - 1, max); }
  }

  /** A class, then anything. */
  lemma ClassDenotes(lo: nat, hi: nat, d: nat, tail: string, s: string)
    requires lo < hi < 16 && d < 16 && s != "" && s[0] == HexDigit(d) && GlobMatch(tail, s[1..])
    ensures GlobMatch("[" + ClassBody(lo, hi) + "]" + tail, s) <==> lo <= d <= hi
  {
    var body := ClassBody(lo, hi);
    assert ']' !in body && body[0] != '!';
    BracketThen(body, tail, s);
    ClassMembers(lo, hi, s[0]);
    assert forall x | lo <= x <= hi :: HexDigit(x) == HexDigit(d) <==> x == d;
  }

  lemma TailDenotes(e: Entry, d: nat, s: string, max: nat, n: nat)
    requires Mode(max) && e.lo <= e.hi <= max && e.digits <= n - 1
    requires |s| == n - e.digits && d < 16 && s[0] == HexDigit(d)
    ensures GlobMatch(DigitGlob(e.lo, e.hi, max) + TailGlob(e.digits, n), s)
      <==> if IsFull(e, max) then e.digits < n - 1 else e.lo <= d <= e.hi
  {
    var tail := TailGlob(e.digits, n);
    StarMatchesAll(s);
    StarMatchesAll(s[1..]);
    assert GlobMatch(tail, s[1..]);
    assert HexDigit(d) == HexDigit(e.lo) <==> d == e.lo;
    if e.lo == e.hi {
      assert Ordinary(HexDigit(e.lo));
      LiteralPrefix([HexDigit(e.lo)], tail, s);
    } else if e.lo > 0 || e.hi < max {
      ClassDenotes(e.lo, e.hi, d, tail, s);
    } else {
      assert "" + tail == tail;
    }
  }
}
