/** From the database to the matcher: a device whose version lies in a range of
    the driver's table (hwdb/platform/buildplatform.cpp) is recognized by the
    rewritten aliases (kernel_patch/hwfilter.py). */
module UsbDetect {
  import opened Digits
  import opened Glob
  import opened AliasDb
  import opened AliasFields
  import opened UsbRange
  import opened UsbText
  import opened UsbDump
  import opened UsbExact
  import opened UsbAllDigits

  lemma {:induction false} DigitsArePlain(s: string)
    requires forall c <- s :: Digit(c)
    ensures PlainAlias(s)
  {
    if s != "" {
      assert s[0] in s && Digit(s[0]);
      DigitsArePlain(s[1..]);
    }
  }

  lemma {:induction false} HexDigits(v: nat, n: nat)
    ensures forall c <- Hex(v, n) :: Digit(c)
    decreases v, n
  {
    if n != 0 || v != 0 { HexDigits(v / 16, if n == 0 then 0 else n - 1); }
  }

  lemma BodyIsPlain(lo: nat, hi: nat)
    requires lo < hi < 16
    ensures PlainClass(ClassBody(lo, hi)) && ']' !in ClassBody(lo, hi)
  {
    var body := ClassBody(lo, hi);
    assert forall i :: 0 <= i < |body| ==> Digit(body[i]) || body[i] == '-';
    assert Digit(body[0]);
  }

  lemma ListedIsPlain(body: string)
    requires PlainClass(body) && ']' !in body
    ensures PlainAlias("[" + body + "]" + "")
  {
    BracketShape(body, "");
  }

  lemma DigitGlobIsPlain(lo: nat, hi: nat, max: nat)
    requires lo <= hi < 16
    ensures PlainAlias(DigitGlob(lo, hi, max))
  {
    if lo == hi {
      DigitsArePlain([HexDigit(lo)]);
    } else if lo > 0 || hi < max {
      var body := ClassBody(lo, hi);
      BodyIsPlain(lo, hi);
      ListedIsPlain(body);
      assert "[" + body + "]" + "" == "[" + body + "]";
    }
  }

  lemma DeviceGlobIsPlain(e: Entry, max: nat, n: nat)
    requires e.lo <= e.hi < 16
    ensures PlainAlias(DeviceGlob(e, max, n))
  {
    var (a, b, c) := (PrefixGlob(e.prefix, e.digits), DigitGlob(e.lo, e.hi, max), TailGlob(e.digits, n));
    HexDigits(e.prefix, e.digits);
    DigitsArePlain(a);
    DigitGlobIsPlain(e.lo, e.hi, max);
    TailIsPlain(e.digits, n);
    PlainConcat(a, b);
    PlainConcat(a + b, c);
  }

  lemma TailIsPlain(digits: nat, n: nat)
    ensures PlainAlias(TailGlob(digits, n))
  {
    assert "*"[1..] == "";
  }

  /** A version that some printed pattern matches is matched by the regular
      expression of that alias, whatever plain text stands around the version. */
  lemma MatchedIsDetected(r: DeviceRange, lines: seq<string>, v: nat, n: nat, w: nat,
                          before: string, after: string, a: string, b: string) returns (i: nat)
    requires 0 < n < w && r.Valid(n) && MatchedBy(lines, v, n)
    requires Printed(lines, DeviceEntries(r, n, w), MaxDigit(r, n, w), n)
    requires PlainAlias(before) && PlainAlias(after) && GlobMatch(before, a) && GlobMatch(after, b)
    requires '\n' !in a && '\n' !in b
    ensures i < |lines| && PlainAlias(before + lines[i] + after)
    ensures GlobMatch(before + lines[i] + after, a + Hex(v, n) + b)
    ensures RegexMatch(Rewrite(before + lines[i] + after), a + Hex(v, n) + b)
  {
    i :| 0 <= i < |lines| && GlobMatch(lines[i], Hex(v, n));
    LineIsPlain(r, lines, i, n, w);
    PlainConcat(before, lines[i]);
    PlainConcat(before + lines[i], after);
    GlobConcat(before, lines[i], a, Hex(v, n));
    GlobConcat(before + lines[i], after, a + Hex(v, n), b);
    HexDigits(v, n);
    GlobImpliesRegex(before + lines[i] + after, a + Hex(v, n) + b);
  }

  /** Every version of the range is detected if its digits are those of the mode
      and the range loses none of these, or if the range is decimal and agrees
      with its patterns on all values. */
  lemma RangeIsDetected(r: DeviceRange, lines: seq<string>, v: nat, n: nat, w: nat,
                        before: string, after: string, a: string, b: string) returns (i: nat)
    requires 0 < n < w && r.Valid(n) && v < Pow16(n) && r.Has(v)
    requires Printed(lines, DeviceEntries(r, n, w), MaxDigit(r, n, w), n)
    requires (DigitsLe(v, n, MaxDigit(r, n, w)) && !LosesLastDigit(r, n, w) && !Undershoots(r, n, w))
      || (MaxDigit(r, n, w) == 9 && Closes(r, n))
    requires PlainAlias(before) && PlainAlias(after) && GlobMatch(before, a) && GlobMatch(after, b)
    requires '\n' !in a && '\n' !in b
    ensures i < |lines| && RegexMatch(Rewrite(before + lines[i] + after), a + Hex(v, n) + b)
  {
    if MaxDigit(r, n, w) == 9 && Closes(r, n) {
      AllDigitsAgree(r, lines, n, w);
      assert MatchedBy(lines, v, n) <==> r.Has(v);
    } else {
      DeviceCount(r, v, n, w);
      PatternsDenote(r, lines, v, n, w);
    }
    i := MatchedIsDetected(r, lines, v, n, w, before, after, a, b);
  }

  lemma LineIsPlain(r: DeviceRange, lines: seq<string>, i: nat, n: nat, w: nat)
    requires 0 < n < w && r.Valid(n) && i < |lines|
    requires Printed(lines, DeviceEntries(r, n, w), MaxDigit(r, n, w), n)
    ensures PlainAlias(lines[i])
  {
    var e := DeviceEntries(r, n, w)[i];
    assert Prints(lines[i], e, MaxDigit(r, n, w), n);
    DeviceGlobIsPlain(e, MaxDigit(r, n, w), n);
  }
}
