/** The overlapping ranges of `PatchOrder` as results of the entry scan
    (kernel_patch/disasm.py) of one image. */
module PatchScans {
  import opened Options
  import opened PatchKernel
  import opened PatchOrder
  import Disasm

  /** Three instructions from `start` on, none of them a jump or a return. */
  ghost predicate Straight(dec: Disasm.Decoder, start: nat) {
    && Disasm.Decodes(dec, start, 3)
    && forall i: nat :: i < 3 ==> Plain(Disasm.At(dec, start, i))
  }

  predicate Plain(x: Disasm.Insn) { !("j" <= x.mnemonic) && !("ret" <= x.mnemonic) }

  /** The one outcome of a scan of straight code. */
  lemma StraightScan(dec: Disasm.Decoder, start: nat, text: Disasm.Text, m: map<nat, nat>)
    requires Straight(dec, start)
    ensures Disasm.EntryRange(dec, start, text, 3, m) <==> m == Disasm.Entry(start, Disasm.Offset(dec, start, 3))
    ensures !Disasm.ScanFails(dec, start, text, 3)
  {
    forall i: nat | i < 3
      ensures Disasm.Quiet(dec, start, text, i)
    {
      assert Plain(Disasm.At(dec, start, i));
    }
    assert Disasm.Keeps(dec, start, text, 3, 3);
    forall n: nat
      ensures Disasm.Keeps(dec, start, text, 3, n) ==> n == 3
      ensures !Disasm.Fails(dec, start, text, 3, n)
    {
      Disasm.OutcomeIsUnique(dec, start, text, 3, 3, n);
    }
  }

  /** An x86 decoder, as far as the examples go: endbr and push. */
  function Decode(d: seq<Byte>): Disasm.Decoder {
    (o: nat) =>
      if IsEndbr(d, o) then Some(Disasm.Insn(4, "endbr64", false, None))
      else if o < |d| && d[o] == 0x55 then Some(Disasm.Insn(1, "push", false, None))
      else None
  }

  lemma DecodedIsPlain(d: seq<Byte>, o: nat)
    ensures Decode(d)(o).Some? ==> Plain(Decode(d)(o).value)
  {
    assert "j"[0] == 'j' && "ret"[0] == 'r' && "endbr64"[0] == 'e' && "push"[0] == 'p';
  }

  /** r is what a scan of d from r's start yields, and nothing else is. */
  ghost predicate IsScanned(d: seq<Byte>, text: Disasm.Text, r: Range) {
    && (forall m :: Disasm.EntryRange(Decode(d), r.start, text, 3, m) <==> m == map[r.start := r.len])
    && !Disasm.ScanFails(Decode(d), r.start, text, 3)
  }

  lemma DecodedScan(d: seq<Byte>, text: Disasm.Text, r: Range)
    requires Straight(Decode(d), r.start) && r.len > 0 && Disasm.Offset(Decode(d), r.start, 3) == r.start + r.len
    ensures IsScanned(d, text, r)
  {
    forall m ensures Disasm.EntryRange(Decode(d), r.start, text, 3, m) <==> m == map[r.start := r.len] {
      StraightScan(Decode(d), r.start, text, m);
    }
    StraightScan(Decode(d), r.start, text, map[]);
  }

  /** Three instructions of sizes a, b and c. */
  lemma ThreeInsns(d: seq<Byte>, text: Disasm.Text, o: nat, a: nat, b: nat, c: nat)
    requires forall x <- [(o, a), (o + a, b), (o + a + b, c)] ::
      Decode(d)(x.0).Some? && Decode(d)(x.0).value.size == x.1
    ensures a + b + c > 0 ==> IsScanned(d, text, Range(o, a + b + c))
  {
    var dec := Decode(d);
    var xs := [(o, a), (o + a, b), (o + a + b, c)];
    forall x: nat { DecodedIsPlain(d, x); }
    assert xs[0] in xs && xs[1] in xs && xs[2] in xs;
    assert Disasm.Offset(dec, o, 0) == o;
    assert Disasm.Offset(dec, o, 1) == o + a;
    assert Disasm.Offset(dec, o, 2) == o + a + b;
    assert Disasm.Offset(dec, o, 3) == o + a + b + c;
    if a + b + c > 0 { DecodedScan(d, text, Range(o, a + b + c)); }
  }

  /** Both ranges come from scans of one image, and the order matters. */
  lemma ScannedDoNotCommute(text: Disasm.Text)
    ensures var (d, q, r) := ([0x55, 0xf3, 0x0f, 0x1e, 0xfa, 0x55, 0x55], Range(0, 6), Range(1, 6));
      IsScanned(d, text, q) && IsScanned(d, text, r) && !Commute(d, q, r)
  {
    var d: seq<Byte> := [0x55, 0xf3, 0x0f, 0x1e, 0xfa, 0x55, 0x55];
    assert IsEndbr(d, 1) && !IsEndbr(d, 0) && !IsEndbr(d, 5) && !IsEndbr(d, 6);
    ThreeInsns(d, text, 0, 1, 4, 1);
    ThreeInsns(d, text, 1, 4, 1, 1);
    OverlapsDoNotCommute();
  }

  /** Both ranges come from scans of one image, overlap and commute. */
  lemma ScannedMayCommute(text: Disasm.Text)
    ensures var (d, q, r) := ([0xf3, 0x0f, 0x1e, 0xfa, 0x55, 0x55, 0x55], Range(0, 6), Range(4, 3));
      IsScanned(d, text, q) && IsScanned(d, text, r) && Commute(d, q, r)
  {
    var d: seq<Byte> := [0xf3, 0x0f, 0x1e, 0xfa, 0x55, 0x55, 0x55];
    assert IsEndbr(d, 0) && !IsEndbr(d, 4) && !IsEndbr(d, 5) && !IsEndbr(d, 6);
    ThreeInsns(d, text, 0, 4, 1, 1);
    ThreeInsns(d, text, 4, 1, 1, 1);
    OverlapsMayCommute();
  }
}
