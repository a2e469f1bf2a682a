/** A whole alias of a USB table entry, as `do_usb_entry` and `_add` of
    hwdb/platform/buildplatform.cpp print it, and the devices that its rewritten
    form (kernel_patch/hwfilter.py) recognizes. */
module UsbLine {
  import opened Options
  import opened Digits
  import opened Glob
  import opened AliasDb
  import opened AliasFields
  import opened UsbRange
  import opened UsbText
  import opened UsbDump
  import opened UsbExact
  import opened UsbAllDigits
  import UsbDetect

  /** The values of a table entry beside the version; None is not matched on. */
  datatype UsbId = UsbId(
    vendor: Option<nat>, product: Option<nat>,
    devClass: Option<nat>, devSubClass: Option<nat>, devProtocol: Option<nat>,
    intClass: Option<nat>, intSubClass: Option<nat>, intProtocol: Option<nat>, intNumber: Option<nat>)
  {
    ghost predicate Valid() {
      && Fits(vendor, 2) && Fits(product, 2)
      && Fits(devClass, 1) && Fits(devSubClass, 1) && Fits(devProtocol, 1)
      && Fits(intClass, 1) && Fits(intSubClass, 1) && Fits(intProtocol, 1) && Fits(intNumber, 1)
    }
  }

  ghost predicate Fits(x: Option<nat>, bytes: nat) { x.Some? ==> x.value < Pow16(2 * bytes) }

  datatype UsbDevice = UsbDevice(
    vendor: nat, product: nat, version: nat, devClass: nat, devSubClass: nat, devProtocol: nat,
    intClass: nat, intSubClass: nat, intProtocol: nat, intNumber: nat)
  {
    ghost predicate Valid(n: nat) {
      && vendor < Pow16(4) && product < Pow16(4) && version < Pow16(n)
      && devClass < Pow16(2) && devSubClass < Pow16(2) && devProtocol < Pow16(2)
      && intClass < Pow16(2) && intSubClass < Pow16(2) && intProtocol < Pow16(2) && intNumber < Pow16(2)
    }

    /** The signature that the kernel gives the device. */
    function Text(n: nat): string { InterfaceText(ClassText(FrontText("", n))) }

    function FrontText(s: string, n: nat): string {
      s + "usb:v" + Hex(vendor, 4) + "p" + Hex(product, 4) + "d" + Hex(version, n)
    }

    function ClassText(s: string): string {
      s + "dc" + Hex(devClass, 2) + "dsc" + Hex(devSubClass, 2) + "dp" + Hex(devProtocol, 2)
    }

    function InterfaceText(s: string): string {
      s + "ic" + Hex(intClass, 2) + "isc" + Hex(intSubClass, 2) + "ip" + Hex(intProtocol, 2) + "in" + Hex(intNumber, 2)
    }
  }

  predicate Is(x: Option<nat>, y: nat) { x.Some? ==> x.value == y }

  /** The device has every value that the entry asks for. */
  predicate Agrees(id: UsbId, dev: UsbDevice) {
    && Is(id.vendor, dev.vendor) && Is(id.product, dev.product)
    && Is(id.devClass, dev.devClass) && Is(id.devSubClass, dev.devSubClass) && Is(id.devProtocol, dev.devProtocol)
    && Is(id.intClass, dev.intClass) && Is(id.intSubClass, dev.intSubClass) && Is(id.intProtocol, dev.intProtocol)
    && Is(id.intNumber, dev.intNumber)
  }

  /** What `_add` prints after the tag. */
  function Value(x: Option<nat>, bytes: nat): string { if x.Some? then Hex(x.value, 2 * bytes) else "*" }

  function NumberTail(id: UsbId): string { if id.intNumber.Some? then "*" else "" }

  /** The alias around the pattern of one version entry. */
  function AliasText(id: UsbId, glob: string): string {
    WithInterface(WithClasses(WithFront("", id, glob), id), id)
  }

  function WithFront(s: string, id: UsbId, glob: string): string {
    s + "usb:" + "v" + Value(id.vendor, 2) + "p" + Value(id.product, 2) + "d" + glob
  }

  function WithClasses(s: string, id: UsbId): string {
    s + "dc" + Value(id.devClass, 1) + "dsc" + Value(id.devSubClass, 1) + "dp" + Value(id.devProtocol, 1)
  }

  function WithInterface(s: string, id: UsbId): string {
    s + "ic" + Value(id.intClass, 1) + "isc" + Value(id.intSubClass, 1) + "ip" + Value(id.intProtocol, 1)
    + "in" + Value(id.intNumber, 1) + NumberTail(id)
  }

  method AddField(output: Output, del: string, x: Option<nat>, bytes: nat)
    modifies output
    ensures output.text == old(output.text) + del + Value(x, bytes)
  {
    output.Print(del);
    if x.Some? {
      output.Print(Hex(x.value, 2 * bytes));
    } else {
      output.Print("*");
    }
  }

  method AddFront(output: Output, id: UsbId, initial: nat, digits: nat, lo: nat, hi: nat, max: nat, n: nat)
    requires lo <= hi < 16
    modifies output
    ensures output.text == WithFront(old(output.text), id, DeviceGlob(Entry(initial, digits, lo, hi), max, n))
  {
    output.Print("usb:");
    AddField(output, "v", id.vendor, 2);
    AddField(output, "p", id.product, 2);
    output.Print("d");
    DoUsbEntry(output, initial, digits, lo, hi, max, n);
  }

  method AddClasses(output: Output, id: UsbId)
    modifies output
    ensures output.text == WithClasses(old(output.text), id)
  {
    AddField(output, "dc", id.devClass, 1);
    AddField(output, "dsc", id.devSubClass, 1);
    AddField(output, "dp", id.devProtocol, 1);
  }

  method AddInterface(output: Output, id: UsbId)
    modifies output
    ensures output.text == WithInterface(old(output.text), id)
  {
    AddField(output, "ic", id.intClass, 1);
    AddField(output, "isc", id.intSubClass, 1);
    AddField(output, "ip", id.intProtocol, 1);
    AddField(output, "in", id.intNumber, 1);
    if id.intNumber.Some? {
      output.Print("*");
    } else {
      assert output.text + "" == output.text;
    }
  }

  /** The alias of one version entry. */
  method PrintAlias(output: Output, id: UsbId, initial: nat, digits: nat, lo: nat, hi: nat, max: nat, n: nat)
    requires lo <= hi < 16 && output.text == ""
    modifies output
    ensures output.text == AliasText(id, DeviceGlob(Entry(initial, digits, lo, hi), max, n))
  {
    AddFront(output, id, initial, digits, lo, hi, max, n);
    AddClasses(output, id);
    AddInterface(output, id);
  }

  /** The alias and a device's signature, field by field. */
  function Fields(id: UsbId, glob: string, dev: UsbDevice, n: nat): (fs: seq<Field>)
    ensures |fs| == 10
  {
    [Field("usb:v", Value(id.vendor, 2), Hex(dev.vendor, 4)),
     Field("p", Value(id.product, 2), Hex(dev.product, 4)),
     Field("d", glob, Hex(dev.version, n)),
     Field("dc", Value(id.devClass, 1), Hex(dev.devClass, 2)),
     Field("dsc", Value(id.devSubClass, 1), Hex(dev.devSubClass, 2)),
     Field("dp", Value(id.devProtocol, 1), Hex(dev.devProtocol, 2)),
     Field("ic", Value(id.intClass, 1), Hex(dev.intClass, 2)),
     Field("isc", Value(id.intSubClass, 1), Hex(dev.intSubClass, 2)),
     Field("ip", Value(id.intProtocol, 1), Hex(dev.intProtocol, 2)),
     Field("in", Value(id.intNumber, 1), Hex(dev.intNumber, 2))]
  }

  /** One field more, behind acc. */
  lemma FieldStep(acc: string, fs: seq<Field>, k: nat)
    requires k < |fs|
    ensures acc + Pattern(fs[k..]) == acc + fs[k].tag + fs[k].glob + Pattern(fs[k + 1..])
    ensures acc + Signature(fs[k..]) == acc + fs[k].tag + fs[k].text + Signature(fs[k + 1..])
  {
    assert fs[k..][1..] == fs[k + 1..];
    Ungroup(acc, fs[k].tag, fs[k].glob, Pattern(fs[k + 1..]));
    Ungroup(acc, fs[k].tag, fs[k].text, Signature(fs[k + 1..]));
  }

  lemma FrontFields(s: string, id: UsbId, glob: string, dev: UsbDevice, n: nat)
    ensures var fs := Fields(id, glob, dev, n);
      s + Pattern(fs) == WithFront(s, id, glob) + Pattern(fs[3..])
  {
    var fs := Fields(id, glob, dev, n);
    assert s + "usb:" + "v" == s + "usb:v" && fs[0..] == fs;
    var v := s + "usb:v" + Value(id.vendor, 2);
    var p := v + "p" + Value(id.product, 2);
    FieldStep(s, fs, 0);
    FieldStep(v, fs, 1);
    FieldStep(p, fs, 2);
  }

  lemma ClassFields(s: string, id: UsbId, glob: string, dev: UsbDevice, n: nat)
    ensures var fs := Fields(id, glob, dev, n);
      s + Pattern(fs[3..]) == WithClasses(s, id) + Pattern(fs[6..])
  {
    var fs := Fields(id, glob, dev, n);
    assert fs[3] == Field("dc", Value(id.devClass, 1), Hex(dev.devClass, 2));
    assert fs[4] == Field("dsc", Value(id.devSubClass, 1), Hex(dev.devSubClass, 2));
    assert fs[5] == Field("dp", Value(id.devProtocol, 1), Hex(dev.devProtocol, 2));
    var c := s + "dc" + Value(id.devClass, 1);
    var b := c + "dsc" + Value(id.devSubClass, 1);
    FieldStep(s, fs, 3);
    FieldStep(c, fs, 4);
    FieldStep(b, fs, 5);
  }

  lemma InterfaceFields(s: string, id: UsbId, glob: string, dev: UsbDevice, n: nat)
    ensures var fs := Fields(id, glob, dev, n);
      s + Pattern(fs[6..]) + NumberTail(id) == WithInterface(s, id)
  {
    var fs := Fields(id, glob, dev, n);
    var c := s + "ic" + Value(id.intClass, 1);
    var b := c + "isc" + Value(id.intSubClass, 1);
    var p := b + "ip" + Value(id.intProtocol, 1);
    FieldStep(s, fs, 6);
    FieldStep(c, fs, 7);
    FieldStep(b, fs, 8);
    FieldStep(p, fs, 9);
    var last := p + "in" + Value(id.intNumber, 1);
    assert Pattern(fs[10..]) == "" && last + "" == last;
  }

  lemma AliasIsPattern(id: UsbId, glob: string, dev: UsbDevice, n: nat)
    ensures AliasText(id, glob) == Pattern(Fields(id, glob, dev, n)) + NumberTail(id)
  {
    var front := WithFront("", id, glob);
    FrontFields("", id, glob, dev, n);
    ClassFields(front, id, glob, dev, n);
    InterfaceFields(WithClasses(front, id), id, glob, dev, n);
    assert "" + Pattern(Fields(id, glob, dev, n)) == Pattern(Fields(id, glob, dev, n));
  }

  lemma FrontTexts(s: string, id: UsbId, glob: string, dev: UsbDevice, n: nat)
    ensures var fs := Fields(id, glob, dev, n);
      s + Signature(fs) == dev.FrontText(s, n) + Signature(fs[3..])
  {
    var fs := Fields(id, glob, dev, n);
    assert fs[0..] == fs;
    var v := s + "usb:v" + Hex(dev.vendor, 4);
    var p := v + "p" + Hex(dev.product, 4);
    FieldStep(s, fs, 0);
    FieldStep(v, fs, 1);
    FieldStep(p, fs, 2);
  }

  lemma ClassTexts(s: string, id: UsbId, glob: string, dev: UsbDevice, n: nat)
    ensures var fs := Fields(id, glob, dev, n);
      s + Signature(fs[3..]) == dev.ClassText(s) + Signature(fs[6..])
  {
    var fs := Fields(id, glob, dev, n);
    assert fs[3] == Field("dc", Value(id.devClass, 1), Hex(dev.devClass, 2));
    assert fs[4] == Field("dsc", Value(id.devSubClass, 1), Hex(dev.devSubClass, 2));
    assert fs[5] == Field("dp", Value(id.devProtocol, 1), Hex(dev.devProtocol, 2));
    var c := s + "dc" + Hex(dev.devClass, 2);
    var b := c + "dsc" + Hex(dev.devSubClass, 2);
    FieldStep(s, fs, 3);
    FieldStep(c, fs, 4);
    FieldStep(b, fs, 5);
  }

  lemma InterfaceTexts(s: string, id: UsbId, glob: string, dev: UsbDevice, n: nat)
    ensures var fs := Fields(id, glob, dev, n);
      s + Signature(fs[6..]) == dev.InterfaceText(s)
  {
    var fs := Fields(id, glob, dev, n);
    var c := s + "ic" + Hex(dev.intClass, 2);
    var b := c + "isc" + Hex(dev.intSubClass, 2);
    var p := b + "ip" + Hex(dev.intProtocol, 2);
    FieldStep(s, fs, 6);
    FieldStep(c, fs, 7);
    FieldStep(b, fs, 8);
    FieldStep(p, fs, 9);
    var last := p + "in" + Hex(dev.intNumber, 2);
    assert Signature(fs[10..]) == "" && last + "" == last;
  }

  lemma TextIsSignature(id: UsbId, glob: string, dev: UsbDevice, n: nat)
    ensures dev.Text(n) == Signature(Fields(id, glob, dev, n))
  {
    var front := dev.FrontText("", n);
    FrontTexts("", id, glob, dev, n);
    ClassTexts(front, id, glob, dev, n);
    InterfaceTexts(dev.ClassText(front), id, glob, dev, n);
    assert "" + Signature(Fields(id, glob, dev, n)) == Signature(Fields(id, glob, dev, n));
  }

  /** Some character of t is not in w, or t is too long. */
  predicate Lacks(w: string, t: string) { |t| > |w| || exists c <- t :: c !in w }

  lemma OccursWhole(w: string, t: string)
    ensures Occurs(t, w) ==> !Lacks(w, t)
  {
    if a :| 0 <= a <= |w| && t <= w[a..] {
      forall c | c in t
        ensures c in w
      {
        var k :| 0 <= k < |t| && t[k] == c;
        assert w[a..][k] == c;
      }
    }
  }

  lemma TagsDiffer(i: nat, j: nat, id: UsbId, glob: string, dev: UsbDevice, n: nat)
    requires i < j < 10
    ensures var fs := Fields(id, glob, dev, n); Lacks(fs[i].tag, fs[j].tag)
  {
    var fs := Fields(id, glob, dev, n);
    var (w, t) := (fs[i].tag, fs[j].tag);
    if j == 1 || j == 5 || j == 8 { assert 'p' in t; }
    if j == 2 || j == 4 { assert 'd' in t; }
    if j == 3 { assert 'c' in t; }
    if j >= 6 { assert 'i' in t; }
    if j == 9 { assert 'n' in t; }
  }

  lemma DigitText(tag: string, glob: string, v: nat, n: nat)
    requires tag != "" && (forall c <- tag :: TagChar(c)) && Steady(glob) && n > 0
    ensures WellFormed(Field(tag, glob, Hex(v, n)))
  {
    UsbDetect.HexDigits(v, n);
    assert Hex(v, n) != "";
  }

  lemma ValueIsSteady(x: Option<nat>, bytes: nat)
    ensures Steady(Value(x, bytes))
  {
    if x.Some? {
      UsbDetect.HexDigits(x.value, 2 * bytes);
      UsbDetect.DigitsArePlain(Hex(x.value, 2 * bytes));
    } else {
      assert "*"[1..] == "";
    }
    SteadyChars(Value(x, bytes));
  }

  lemma {:induction false} GlobIsSteady(e: Entry, max: nat, n: nat)
    requires e.lo <= e.hi < 16
    ensures Steady(DeviceGlob(e, max, n))
  {
    UsbDetect.DeviceGlobIsPlain(e, max, n);
    UsbDetect.HexDigits(e.prefix, e.digits);
    var d := DigitGlob(e.lo, e.hi, max);
    assert '?' !in d && '.' !in d;
    SteadyChars(DeviceGlob(e, max, n));
  }

  /** A tag of the alias. */
  predicate Word(t: string) { t != "" && forall c <- t :: TagChar(c) }

  lemma ValueField(tag: string, x: Option<nat>, y: nat, bytes: nat)
    requires Word(tag) && bytes > 0
    ensures WellFormed(Field(tag, Value(x, bytes), Hex(y, 2 * bytes)))
  {
    ValueIsSteady(x, bytes);
    DigitText(tag, Value(x, bytes), y, 2 * bytes);
  }

  predicate Letter(c: char) { 'a' <= c <= 'z' || c == ':' }

  predicate Letters(t: string) { t != "" && forall c <- t :: Letter(c) }

  lemma LettersAreWord(t: string)
    requires Letters(t)
    ensures Word(t)
  {
    assert forall c :: Letter(c) ==> TagChar(c);
  }

  lemma TagsAreWords(id: UsbId, glob: string, dev: UsbDevice, n: nat)
    ensures forall f <- Fields(id, glob, dev, n) :: Word(f.tag)
  {
    forall f | f in Fields(id, glob, dev, n)
      ensures Word(f.tag)
    {
      assert Letters("usb:v") && Letters("p") && Letters("d") && Letters("dc") && Letters("dsc") && Letters("dp");
      assert Letters("ic") && Letters("isc") && Letters("ip") && Letters("in");
      LettersAreWord(f.tag);
    }
  }

  lemma FieldFormed(id: UsbId, glob: string, dev: UsbDevice, n: nat, f: Field)
    requires n > 0 && Steady(glob) && Word(f.tag) && f in Fields(id, glob, dev, n)
    ensures WellFormed(f)
  {
    var fs := Fields(id, glob, dev, n);
    var k :| 0 <= k < 10 && fs[k] == f;
    if k == 0 {
      ValueField(f.tag, id.vendor, dev.vendor, 2);
    } else if k == 1 {
      ValueField(f.tag, id.product, dev.product, 2);
    } else if k == 2 {
      DigitText(f.tag, glob, dev.version, n);
    } else {
      var x := [id.devClass, id.devSubClass, id.devProtocol, id.intClass, id.intSubClass, id.intProtocol, id.intNumber];
      var y := [dev.devClass, dev.devSubClass, dev.devProtocol, dev.intClass, dev.intSubClass, dev.intProtocol,
                dev.intNumber];
      ValueField(f.tag, x[k - 3], y[k - 3], 1);
    }
  }

  lemma FieldsFormed(id: UsbId, glob: string, dev: UsbDevice, n: nat)
    requires n > 0 && Steady(glob)
    ensures forall f <- Fields(id, glob, dev, n) :: WellFormed(f)
  {
    TagsAreWords(id, glob, dev, n);
    forall f | f in Fields(id, glob, dev, n) ensures WellFormed(f) { FieldFormed(id, glob, dev, n, f); }
  }

  lemma FieldsDistinguished(id: UsbId, glob: string, dev: UsbDevice, n: nat)
    requires n > 0 && Steady(glob)
    ensures Distinguished(Fields(id, glob, dev, n))
  {
    var fs := Fields(id, glob, dev, n);
    FieldsFormed(id, glob, dev, n);
    forall i, j | 0 <= i < j < 10
      ensures !Occurs(fs[j].tag, fs[i].tag)
    {
      TagsDiffer(i, j, id, glob, dev, n);
      OccursWhole(fs[i].tag, fs[j].tag);
    }
  }

  lemma ValueMatches(x: Option<nat>, y: nat, bytes: nat)
    requires Fits(x, bytes) && y < Pow16(2 * bytes)
    ensures GlobMatch(Value(x, bytes), Hex(y, 2 * bytes)) <==> Is(x, y)
    ensures PrefixMatch(Value(x, bytes), Hex(y, 2 * bytes)) <==> Is(x, y)
  {
    var (p, s) := (Value(x, bytes), Hex(y, 2 * bytes));
    HexLength(y, 2 * bytes);
    if x.Some? {
      UsbDetect.HexDigits(x.value, 2 * bytes);
      HexLength(x.value, 2 * bytes);
      HexInjective(x.value, y, 2 * bytes);
      forall t ensures GlobMatch(p, t) <==> p == t { LiteralText(p, t); }
      assert s[..|s|] == s;
    } else {
      StarMatchesAll(s);
      assert s[..|s|] == s;
    }
  }

  lemma LiteralText(p: string, t: string)
    requires forall c <- p :: Ordinary(c)
    ensures GlobMatch(p, t) <==> p == t
  {
    LiteralPrefix(p, "", t);
    assert p + "" == p;
  }

  /** Fields k and following are matched. */
  predicate MatchFrom(fs: seq<Field>, k: nat)
    requires k < |fs|
    decreases |fs| - k
  {
    if k == |fs| - 1 then PrefixMatch(fs[k].glob, fs[k].text)
    else GlobMatch(fs[k].glob, fs[k].text) && MatchFrom(fs, k + 1)
  }

  lemma {:induction false} MatchFromIs(fs: seq<Field>, k: nat)
    requires k < |fs|
    ensures MatchFrom(fs, k) <==> FieldsMatch(fs[k..])
    decreases |fs| - k
  {
    if k < |fs| - 1 {
      MatchFromIs(fs, k + 1);
      assert fs[k..][1..] == fs[k + 1..];
    }
  }

  /** The rewritten form of a printed alias recognizes a device exactly when the
      device has the values asked for and its version is matched. */
  lemma LineMatches(id: UsbId, e: Entry, max: nat, dev: UsbDevice, n: nat)
    requires n > 0 && id.Valid() && dev.Valid(n) && e.lo <= e.hi < 16
    ensures var glob := DeviceGlob(e, max, n);
      RegexMatch(Rewrite(AliasText(id, glob)), dev.Text(n)) <==> Agrees(id, dev) && GlobMatch(glob, Hex(dev.version, n))
  {
    var glob := DeviceGlob(e, max, n);
    var fs := Fields(id, glob, dev, n);
    GlobIsSteady(e, max, n);
    FieldsDistinguished(id, glob, dev, n);
    AliasIsPattern(id, glob, dev, n);
    TextIsSignature(id, glob, dev, n);
    MatchesFieldwise(fs, NumberTail(id));
    MatchFromIs(fs, 0);
    assert fs[0..] == fs;
    FieldsAgree(id, glob, dev, n);
  }

  lemma FieldsAgree(id: UsbId, glob: string, dev: UsbDevice, n: nat)
    requires id.Valid() && dev.Valid(n)
    ensures MatchFrom(Fields(id, glob, dev, n), 0) <==> Agrees(id, dev) && GlobMatch(glob, Hex(dev.version, n))
  {
    var fs := Fields(id, glob, dev, n);
    ValueMatches(id.vendor, dev.vendor, 2);
    ValueMatches(id.product, dev.product, 2);
    assert MatchFrom(fs, 0) <==> Is(id.vendor, dev.vendor) && MatchFrom(fs, 1);
    assert MatchFrom(fs, 1) <==> Is(id.product, dev.product) && MatchFrom(fs, 2);
    assert MatchFrom(fs, 2) <==> GlobMatch(glob, Hex(dev.version, n)) && MatchFrom(fs, 3);
    ValuesAgree(id, glob, dev, n);
  }

  lemma ValuesAgree(id: UsbId, glob: string, dev: UsbDevice, n: nat)
    requires id.Valid() && dev.Valid(n)
    ensures MatchFrom(Fields(id, glob, dev, n), 3) <==>
      && Is(id.devClass, dev.devClass) && Is(id.devSubClass, dev.devSubClass) && Is(id.devProtocol, dev.devProtocol)
      && Is(id.intClass, dev.intClass) && Is(id.intSubClass, dev.intSubClass) && Is(id.intProtocol, dev.intProtocol)
      && Is(id.intNumber, dev.intNumber)
  {
    var fs := Fields(id, glob, dev, n);
    ValueMatches(id.devClass, dev.devClass, 1);
    ValueMatches(id.devSubClass, dev.devSubClass, 1);
    ValueMatches(id.devProtocol, dev.devProtocol, 1);
    assert MatchFrom(fs, 3) <==> Is(id.devClass, dev.devClass) && MatchFrom(fs, 4);
    assert MatchFrom(fs, 4) <==> Is(id.devSubClass, dev.devSubClass) && MatchFrom(fs, 5);
    assert MatchFrom(fs, 5) <==> Is(id.devProtocol, dev.devProtocol) && MatchFrom(fs, 6);
    InterfaceAgrees(id, glob, dev, n);
  }

  lemma InterfaceAgrees(id: UsbId, glob: string, dev: UsbDevice, n: nat)
    requires id.Valid() && dev.Valid(n)
    ensures MatchFrom(Fields(id, glob, dev, n), 6) <==>
      && Is(id.intClass, dev.intClass) && Is(id.intSubClass, dev.intSubClass) && Is(id.intProtocol, dev.intProtocol)
      && Is(id.intNumber, dev.intNumber)
  {
    var fs := Fields(id, glob, dev, n);
    ValueMatches(id.intClass, dev.intClass, 1);
    ValueMatches(id.intSubClass, dev.intSubClass, 1);
    ValueMatches(id.intProtocol, dev.intProtocol, 1);
    ValueMatches(id.intNumber, dev.intNumber, 1);
    assert MatchFrom(fs, 6) <==> Is(id.intClass, dev.intClass) && MatchFrom(fs, 7);
    assert MatchFrom(fs, 7) <==> Is(id.intSubClass, dev.intSubClass) && MatchFrom(fs, 8);
    assert MatchFrom(fs, 8) <==> Is(id.intProtocol, dev.intProtocol) && MatchFrom(fs, 9);
    assert MatchFrom(fs, 9) <==> Is(id.intNumber, dev.intNumber);
  }

  /** Some printed alias of the entry recognizes the device. */
  ghost predicate Recognized(id: UsbId, lines: seq<string>, dev: UsbDevice, n: nat) {
    exists i :: 0 <= i < |lines| && RegexMatch(Rewrite(AliasText(id, lines[i])), dev.Text(n))
  }

  lemma EntryRecognizes(id: UsbId, r: DeviceRange, lines: seq<string>, dev: UsbDevice, n: nat, w: nat)
    requires 0 < n < w && r.Valid(n) && id.Valid() && dev.Valid(n)
    requires Printed(lines, DeviceEntries(r, n, w), MaxDigit(r, n, w), n)
    ensures Recognized(id, lines, dev, n) <==> Agrees(id, dev) && MatchedBy(lines, dev.version, n)
  {
    forall i | 0 <= i < |lines|
      ensures RegexMatch(Rewrite(AliasText(id, lines[i])), dev.Text(n))
        <==> Agrees(id, dev) && GlobMatch(lines[i], Hex(dev.version, n))
    {
      var e := DeviceEntries(r, n, w)[i];
      assert Prints(lines[i], e, MaxDigit(r, n, w), n);
      LineMatches(id, e, MaxDigit(r, n, w), dev, n);
    }
  }

  /** The entry means: these values, and a version in this range. */
  ghost predicate Wanted(id: UsbId, r: DeviceRange, dev: UsbDevice) { Agrees(id, dev) && r.Has(dev.version) }

  /** A device that agrees with the entry, of any version. */
  function Sample(id: UsbId, version: nat): UsbDevice {
    UsbDevice(Or0(id.vendor), Or0(id.product), version,
              Or0(id.devClass), Or0(id.devSubClass), Or0(id.devProtocol),
              Or0(id.intClass), Or0(id.intSubClass), Or0(id.intProtocol), Or0(id.intNumber))
  }

  function Or0(x: Option<nat>): nat { if x.Some? then x.value else 0 }

  /** Recognized are exactly the wanted devices, among those with digits of the
      mode in their version. */
  ghost predicate EntryIsFaithful(id: UsbId, r: DeviceRange, lines: seq<string>, n: nat, w: nat) {
    forall dev: UsbDevice :: dev.Valid(n) && DigitsLe(dev.version, n, MaxDigit(r, n, w)) ==>
      (Recognized(id, lines, dev, n) <==> Wanted(id, r, dev))
  }

  ghost predicate EntryIsExact(id: UsbId, r: DeviceRange, lines: seq<string>, n: nat) {
    forall dev: UsbDevice :: dev.Valid(n) ==> (Recognized(id, lines, dev, n) <==> Wanted(id, r, dev))
  }

  lemma SampleAgrees(id: UsbId, v: nat, n: nat)
    requires id.Valid() && v < Pow16(n)
    ensures Sample(id, v).Valid(n) && Agrees(id, Sample(id, v)) && Sample(id, v).version == v
  {
    assert Pow16(2) == 256 && Pow16(4) == 65536;
  }

  /** From a table entry to the devices it is recognized for: exactly the wanted
      ones, unless the range is in one of the three families. */
  lemma EntryFaithfulIff(id: UsbId, r: DeviceRange, lines: seq<string>, n: nat, w: nat)
    requires 0 < n < w && r.Valid(n) && id.Valid()
    requires Printed(lines, DeviceEntries(r, n, w), MaxDigit(r, n, w), n)
    ensures EntryIsFaithful(id, r, lines, n, w) <==> Faithful(r, n, w)
  {
    DumpIsFaithful(r, lines, n, w);
    if Faithful(r, n, w) {
      forall dev: UsbDevice | dev.Valid(n) && DigitsLe(dev.version, n, MaxDigit(r, n, w))
        ensures Recognized(id, lines, dev, n) <==> Wanted(id, r, dev)
      {
        EntryRecognizes(id, r, lines, dev, n, w);
      }
    } else {
      var v :| DigitsLe(v, n, MaxDigit(r, n, w)) && !(MatchedBy(lines, v, n) <==> r.Has(v));
      DigitsBound(v, n, MaxDigit(r, n, w));
      SampleAgrees(id, v, n);
      EntryRecognizes(id, r, lines, Sample(id, v), n, w);
    }
  }

  /** The same over all devices. */
  lemma EntryExactIff(id: UsbId, r: DeviceRange, lines: seq<string>, n: nat, w: nat)
    requires 0 < n < w && r.Valid(n) && id.Valid()
    requires Printed(lines, DeviceEntries(r, n, w), MaxDigit(r, n, w), n)
    ensures EntryIsExact(id, r, lines, n) <==> if MaxDigit(r, n, w) == 9 then Closes(r, n) else Faithful(r, n, w)
  {
    AllDigitsAgree(r, lines, n, w);
    if MatchesAll(r, lines, n) {
      forall dev: UsbDevice | dev.Valid(n)
        ensures Recognized(id, lines, dev, n) <==> Wanted(id, r, dev)
      {
        EntryRecognizes(id, r, lines, dev, n, w);
      }
    } else {
      var v: nat :| v < Pow16(n) && !(MatchedBy(lines, v, n) <==> r.Has(v));
      SampleAgrees(id, v, n);
      EntryRecognizes(id, r, lines, Sample(id, v), n, w);
    }
  }

  const HUB := UsbDevice(0x1D6B, 2, 0x515, 9, 0, 1, 9, 0, 0, 0)
  const HUB_ID := UsbId(Some(0x1D6B), None, Some(9), None, None, None, None, None, None)

  /** A root hub: the signature that the kernel gives it, part by part. */
  lemma HubText(s: string)
    ensures HUB.FrontText(s, 4) == s + "usb:v" + "1D6B" + "p" + "0002" + "d" + "0515"
    ensures HUB.ClassText(s) == s + "dc" + "09" + "dsc" + "00" + "dp" + "01"
    ensures HUB.InterfaceText(s) == s + "ic" + "09" + "isc" + "00" + "ip" + "00" + "in" + "00"
  {
    HubHex();
  }

  /** The alias of an entry that asks for its vendor and for hubs, part by part. */
  lemma HubAlias(s: string, glob: string)
    ensures WithFront(s, HUB_ID, glob) == s + "usb:" + "v" + "1D6B" + "p" + "*" + "d" + glob
    ensures WithClasses(s, HUB_ID) == s + "dc" + "09" + "dsc" + "*" + "dp" + "*"
    ensures WithInterface(s, HUB_ID) == s + "ic" + "*" + "isc" + "*" + "ip" + "*" + "in" + "*"
    ensures WithInterface(s, HUB_ID.(intNumber := Some(1))) ==
      s + "ic" + "*" + "isc" + "*" + "ip" + "*" + "in" + "01" + "*"
  {
    HubHex();
  }

  lemma HubHex()
    ensures Hex(0x1D6B, 4) == "1D6B" && Hex(2, 4) == "0002" && Hex(0x515, 4) == "0515"
    ensures Hex(9, 2) == "09" && Hex(0, 2) == "00" && Hex(1, 2) == "01"
  {
    HexFour(0x1D6B);
    HexFour(2);
    HexFour(0x515);
    HexTwo(9);
    HexTwo(0);
    HexTwo(1);
  }

  lemma HexTwo(v: nat)
    requires v < 256
    ensures Hex(v, 2) == [HexDigit(v / 16), HexDigit(v % 16)]
  {
    assert Hex(v / 16 / 16, 0) == "";
    assert Hex(v / 16, 1) == "" + [HexDigit(v / 16)];
  }

  lemma HexFour(v: nat)
    requires v < 65536
    ensures Hex(v, 4) ==
      [HexDigit(v / 16 / 16 / 16), HexDigit(v / 16 / 16 % 16), HexDigit(v / 16 % 16), HexDigit(v % 16)]
  {
    HexTwo(v / 16 / 16);
    assert Hex(v / 16, 3) == Hex(v / 16 / 16, 2) + [HexDigit(v / 16 % 16)];
  }
}
