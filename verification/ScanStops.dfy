/** Where the entry scan of kernel_patch/disasm.py stops, said on the mnemonics
    and operands of the instructions. */
module ScanStops {
  import opened Intervals
  import opened Disasm

  /** The mnemonic of instruction i begins with p. */
  ghost predicate Begins(dec: Decoder, start: nat, i: nat, p: string)
    requires dec(Offset(dec, start, i)).Some?
  {
    p <= dec(Offset(dec, start, i)).value.mnemonic
  }

  /** None of the first n mnemonics begins with p. */
  ghost predicate NoneBegins(dec: Decoder, start: nat, n: nat, p: string)
    requires Decodes(dec, start, n)
  {
    forall i: nat :: i < n ==> !Begins(dec, start, i, p)
  }

  /** Instruction i jumps forward to where no instruction up to n starts. */
  ghost predicate JumpsPast(dec: Decoder, start: nat, text: Text, i: nat, n: nat)
    requires dec(Offset(dec, start, i)).Some?
  {
    var x := dec(Offset(dec, start, i)).value;
    && Begins(dec, start, i, "j") && x.target.Some? && x.target.value > text.va
    && forall k: nat :: i < k <= n ==> Offset(dec, start, k) != x.target.value - text.va + text.off
  }

  lemma MnemonicHeads(x: Insn)
    ensures IsJump(x) <==> "j" <= x.mnemonic
    ensures IsRet(x) <==> "ret" <= x.mnemonic
  {
  }

  /** Instruction n ends the scan: it returns, or jumps to what is no decimal
      number, and no jump before it leads past it. It makes the scan fail if it
      jumps to what is no number at all and does not end the scan. */
  lemma EndsIff(dec: Decoder, start: nat, text: Text, n: nat)
    requires Decodes(dec, start, n + 1)
    ensures Ends(dec, start, text, n) <==>
      && (Begins(dec, start, n, "ret") || (Begins(dec, start, n, "j") && !dec(Offset(dec, start, n)).value.numeric))
      && forall i: nat :: i < n ==> !JumpsPast(dec, start, text, i, n)
    ensures Raises(dec, start, text, n) <==>
      && Begins(dec, start, n, "j") && dec(Offset(dec, start, n)).value.target.None?
      && !Ends(dec, start, text, n)
  {
    MnemonicHeads(At(dec, start, n));
    if Settled(dec, start, text, n, n + 1) {
      forall i: nat | i < n
        ensures !JumpsPast(dec, start, text, i, n)
      {
        JumpAwaits(dec, start, text, i, n);
      }
    } else {
      var t: int :| Awaited(dec, start, text, n, n + 1, t);
      var i: nat :| i < n && Outstanding(dec, start, text, i, n + 1, t);
      MnemonicHeads(At(dec, start, i));
      assert JumpsPast(dec, start, text, i, n);
    }
  }

  lemma JumpAwaits(dec: Decoder, start: nat, text: Text, i: nat, n: nat)
    requires Decodes(dec, start, n + 1) && i < n && Settled(dec, start, text, n, n + 1)
    ensures !JumpsPast(dec, start, text, i, n)
  {
    var x := At(dec, start, i);
    MnemonicHeads(x);
    if x.target.Some? {
      var t := x.target.value - text.va + text.off;
      assert !Awaited(dec, start, text, n, n + 1, t);
      assert !Outstanding(dec, start, text, i, n + 1, t);
    }
  }

  /** Instruction n returns, or jumps to what is no decimal number. */
  ghost predicate Last(dec: Decoder, start: nat, n: nat)
    requires dec(Offset(dec, start, n)).Some?
  {
    Begins(dec, start, n, "ret") || (Begins(dec, start, n, "j") && !dec(Offset(dec, start, n)).value.numeric)
  }

  lemma KeptUpTo(dec: Decoder, start: nat, text: Text, n: nat, limit: nat, c: nat)
    requires Decodes(dec, start, n + 1) && Last(dec, start, n)
    requires NoneBegins(dec, start, n, "j")
    requires Keeps(dec, start, text, limit, c)
    ensures c <= n + 1
  {
    EndsIff(dec, start, text, n);
    assert !Quiet(dec, start, text, n);
  }

  /** After code without jumps, a return or such a jump is the last instruction
      of the interval. */
  lemma IntervalEndsBy(dec: Decoder, start: nat, text: Text, n: nat, limit: nat, m: map<nat, nat>)
    requires Sound(dec) && Decodes(dec, start, n + 1) && Last(dec, start, n)
    requires NoneBegins(dec, start, n, "j")
    requires EntryRange(dec, start, text, limit, m)
    ensures forall b: nat :: Covers(m, b) ==> start <= b < Offset(dec, start, n + 1)
  {
    var c := KeptCount(dec, start, text, limit, m);
    KeptUpTo(dec, start, text, n, limit, c);
    EntryWithin(dec, start, c, n + 1, m);
  }

  lemma KeptCount(dec: Decoder, start: nat, text: Text, limit: nat, m: map<nat, nat>) returns (c: nat)
    requires EntryRange(dec, start, text, limit, m)
    ensures c <= limit && Keeps(dec, start, text, limit, c) && m == Entry(start, Offset(dec, start, c))
  {
    c :| c <= limit && Keeps(dec, start, text, limit, c) && m == Entry(start, Offset(dec, start, c));
  }

  lemma EntryWithin(dec: Decoder, start: nat, c: nat, n: nat, m: map<nat, nat>)
    requires Sound(dec) && Decodes(dec, start, n) && c <= n && m == Entry(start, Offset(dec, start, c))
    ensures forall b: nat :: Covers(m, b) ==> start <= b < Offset(dec, start, n)
  {
    if c < n { OffsetsGrow(dec, start, n, c, n); }
    EntryShape(start, Offset(dec, start, c));
  }

  lemma FirstLast(dec: Decoder, start: nat, text: Text, n: nat, limit: nat)
    requires Decodes(dec, start, n + 1) && Last(dec, start, n) && n < limit
    requires NoneBegins(dec, start, n, "j") && NoneBegins(dec, start, n, "ret")
    ensures Keeps(dec, start, text, limit, n + 1)
  {
    EndsIff(dec, start, text, n);
    forall i: nat | i < n
      ensures Quiet(dec, start, text, i)
    {
      EndsIff(dec, start, text, i);
    }
  }

  /** What a scan yields that keeps n instructions. */
  lemma OnlyRange(dec: Decoder, start: nat, text: Text, limit: nat, n: nat, m: map<nat, nat>)
    requires Keeps(dec, start, text, limit, n) && n <= limit
    ensures EntryRange(dec, start, text, limit, m) <==> m == Entry(start, Offset(dec, start, n))
    ensures !ScanFails(dec, start, text, limit)
  {
    forall c: nat
      ensures Keeps(dec, start, text, limit, c) ==> c == n
      ensures !Fails(dec, start, text, limit, c)
    {
      OutcomeIsUnique(dec, start, text, limit, n, c);
    }
  }

  /** Exactly there, if it is the first such instruction and the limit allows. */
  lemma IntervalIs(dec: Decoder, start: nat, text: Text, n: nat, limit: nat, m: map<nat, nat>)
    requires Sound(dec) && Decodes(dec, start, n + 1) && Last(dec, start, n) && n < limit
    requires NoneBegins(dec, start, n, "j") && NoneBegins(dec, start, n, "ret")
    ensures EntryRange(dec, start, text, limit, m) <==> m == map[start := Offset(dec, start, n + 1) - start]
    ensures !ScanFails(dec, start, text, limit)
  {
    FirstLast(dec, start, text, n, limit);
    OnlyRange(dec, start, text, limit, n + 1, m);
    EntryOf(dec, start, n);
  }

  lemma EntryOf(dec: Decoder, start: nat, n: nat)
    requires Sound(dec) && Decodes(dec, start, n + 1)
    ensures Entry(start, Offset(dec, start, n + 1)) == map[start := Offset(dec, start, n + 1) - start]
  {
    OffsetsGrow(dec, start, n + 1, 0, n + 1);
  }

  /** A function that is a single return takes no byte of the next one. */
  lemma SingleReturn(dec: Decoder, start: nat, text: Text, m: map<nat, nat>)
    requires Sound(dec) && dec(start).Some? && dec(start).value.mnemonic == "ret"
    ensures EntryRange(dec, start, text, 3, m) <==> m == map[start := dec(start).value.size]
  {
    assert Offset(dec, start, 0) == start && Offset(dec, start, 1) == start + dec(start).value.size;
    IntervalIs(dec, start, text, 0, 3, m);
  }

  /** A jump past a return keeps the scan going behind it. */
  lemma ReturnJumpedOver(dec: Decoder, start: nat, text: Text, i: nat, n: nat, m: map<nat, nat>)
    requires Sound(dec) && Decodes(dec, start, n + 2) && i < n && JumpsPast(dec, start, text, i, n) && n < 2
    requires forall j: nat :: j < n ==> !Last(dec, start, j)
    requires !Begins(dec, start, n, "j") && EntryRange(dec, start, text, 3, m)
    ensures Covers(m, Offset(dec, start, n + 1))
  {
    var c: nat :| c <= 3 && Keeps(dec, start, text, 3, c) && m == Entry(start, Offset(dec, start, c));
    if c <= n + 1 { NotBefore(dec, start, text, i, n, c); }
    OffsetsGrow(dec, start, n + 2, n + 1, n + 2);
    OffsetsGrow(dec, start, n + 2, 0, n + 1);
    EntryShape(start, Offset(dec, start, c));
  }

  lemma NotBefore(dec: Decoder, start: nat, text: Text, i: nat, n: nat, c: nat)
    requires Decodes(dec, start, n + 2) && i < n < 2 && JumpsPast(dec, start, text, i, n) && c <= n + 1
    requires forall j: nat :: j < n ==> !Last(dec, start, j)
    requires !Begins(dec, start, n, "j")
    ensures !Keeps(dec, start, text, 3, c)
  {
    assert dec(Offset(dec, start, c)).Some?;
    if c == n + 1 {
      EndsIff(dec, start, text, n);
      assert !Ends(dec, start, text, c - 1);
    } else if c > 0 {
      EndsIff(dec, start, text, c - 1);
      assert !Last(dec, start, c - 1);
    }
  }
}
