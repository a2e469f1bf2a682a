/** kernel_patch/disasm.py: how many bytes at a function's entry get patched.
    The decoder is arbitrary: it maps a file offset to the instruction there,
    or to nothing. */
module Disasm {
  import opened Intervals
  import opened Options

  /** `numeric`: the operand text is all decimal digits; `target`: the operand
      read as a hexadecimal number, when it is one. */
  datatype Insn = Insn(size: nat, mnemonic: string, numeric: bool, target: Option<int>)

  type Decoder = nat -> Option<Insn>

  ghost predicate Sound(dec: Decoder) {
    forall o: nat :: dec(o).Some? ==> dec(o).value.size > 0 && (dec(o).value.numeric ==> dec(o).value.target.Some?)
  }

  /** The section's place in the file and in memory. */
  datatype Text = Text(off: int, va: int)

  /** Offset of instruction i from `start`; instructions that do not decode
      have no length. */
  function Offset(dec: Decoder, start: nat, i: nat): (o: nat)
    ensures o >= start
  {
    if i == 0 then start
    else
      var p := Offset(dec, start, i - 1);
      p + if dec(p).Some? then dec(p).value.size else 0
  }

  ghost predicate Decodes(dec: Decoder, start: nat, n: nat) {
    forall i: nat :: i < n ==> dec(Offset(dec, start, i)).Some?
  }

  function At(dec: Decoder, start: nat, i: nat): (x: Insn)
    requires dec(Offset(dec, start, i)).Some?
  {
    dec(Offset(dec, start, i)).value
  }

  predicate IsJump(x: Insn) { x.mnemonic != "" && x.mnemonic[0] == 'j' }

  predicate IsRet(x: Insn): (b: bool)
    ensures b ==> !IsJump(x)
  {
    |x.mnemonic| >= 3 && x.mnemonic[0] == 'r' && x.mnemonic[1] == 'e' && x.mnemonic[2] == 't'
  }

  /** A forward jump, seen from the section's address, to file offset t. */
  predicate JumpsTo(x: Insn, text: Text, t: int) {
    IsJump(x) && x.target.Some? && x.target.value > text.va && t == x.target.value - text.va + text.off
  }

  /** Some instruction before j jumps to t, and none since has started at t. */
  ghost predicate Awaited(dec: Decoder, start: nat, text: Text, j: nat, end: nat, t: int)
    requires Decodes(dec, start, j)
  {
    exists i: nat :: i < j && Outstanding(dec, start, text, i, end, t)
  }

  ghost predicate Outstanding(dec: Decoder, start: nat, text: Text, i: nat, end: nat, t: int)
    requires dec(Offset(dec, start, i)).Some?
  {
    JumpsTo(At(dec, start, i), text, t) && NotAt(dec, start, i + 1, end, t)
  }

  ghost predicate NotAt(dec: Decoder, start: nat, lo: nat, hi: nat, t: int) {
    forall m: nat :: lo <= m < hi ==> Offset(dec, start, m) != t
  }

  ghost predicate Settled(dec: Decoder, start: nat, text: Text, i: nat, end: nat)
    requires Decodes(dec, start, i)
  {
    forall t: int :: !Awaited(dec, start, text, i, end, t)
  }

  /** Instruction i ends the scan: no jump target is outstanding and it returns
      or jumps to something other than a decimal number. */
  ghost predicate Ends(dec: Decoder, start: nat, text: Text, i: nat)
    requires Decodes(dec, start, i + 1)
  {
    var x := At(dec, start, i);
    Settled(dec, start, text, i, i + 1) && (IsRet(x) || (IsJump(x) && !x.numeric))
  }

  /** Instruction i makes the source raise: it is a jump that does not end the
      scan and whose operand is not a number. */
  ghost predicate Raises(dec: Decoder, start: nat, text: Text, i: nat)
    requires Decodes(dec, start, i + 1)
  {
    var x := At(dec, start, i);
    IsJump(x) && x.target.None? && !Ends(dec, start, text, i)
  }

  /** The first n instructions decode and none of them stops the scan. */
  ghost predicate Passes(dec: Decoder, start: nat, text: Text, n: nat) {
    && Decodes(dec, start, n)
    && forall i: nat :: i < n ==> Quiet(dec, start, text, i)
  }

  ghost predicate Quiet(dec: Decoder, start: nat, text: Text, i: nat) {
    Decodes(dec, start, i + 1) && !Ends(dec, start, text, i) && !Raises(dec, start, text, i)
  }

  /** The scan keeps exactly n instructions. */
  ghost predicate Keeps(dec: Decoder, start: nat, text: Text, limit: nat, n: nat) {
    || (n == limit && Passes(dec, start, text, n))
    || (n < limit && Passes(dec, start, text, n) && dec(Offset(dec, start, n)).None?)
    || (0 < n <= limit && Passes(dec, start, text, n - 1) && Decodes(dec, start, n) && Ends(dec, start, text, n - 1))
  }

  ghost predicate Fails(dec: Decoder, start: nat, text: Text, limit: nat, n: nat) {
    n < limit && Passes(dec, start, text, n) && Decodes(dec, start, n + 1) && Raises(dec, start, text, n)
  }

  ghost predicate Pending(dec: Decoder, start: nat, text: Text, j: nat, end: nat, expected: set<int>)
    requires Decodes(dec, start, j)
  {
    forall t: int :: t in expected <==> Awaited(dec, start, text, j, end, t)
  }

  /** Maps the first n instructions to their sizes. */
  ghost predicate Scanned(dec: Decoder, start: nat, n: nat, range: map<nat, nat>)
    requires Decodes(dec, start, n)
  {
    && (forall i: nat :: i < n ==>
          Offset(dec, start, i) in range && range[Offset(dec, start, i)] == At(dec, start, i).size)
    && (forall o: nat :: o in range ==> exists i: nat :: i < n && o == Offset(dec, start, i))
  }

  lemma {:induction false} OffsetsGrow(dec: Decoder, start: nat, n: nat, i: nat, j: nat)
    requires Sound(dec) && Decodes(dec, start, n) && i < j <= n
    ensures Offset(dec, start, i) + At(dec, start, i).size <= Offset(dec, start, j)
    ensures Offset(dec, start, i) < Offset(dec, start, j)
    decreases j
  {
    if i + 1 < j {
      OffsetsGrow(dec, start, n, i, j - 1);
      assert dec(Offset(dec, start, j - 1)).Some?;
    }
  }

  lemma ScannedShape(dec: Decoder, start: nat, n: nat, range: map<nat, nat>)
    requires Sound(dec) && Decodes(dec, start, n) && Scanned(dec, start, n, range)
    ensures Positive(range) && Disjoint(range)
  {
    forall o, p | o in range && p in range && o < p
      ensures o + range[o] <= p
    {
      var i: nat :| i < n && o == Offset(dec, start, i);
      var j: nat :| j < n && p == Offset(dec, start, j);
      if i < j { OffsetsGrow(dec, start, n, i, j); } else if j < i { OffsetsGrow(dec, start, n, j, i); }
    }
  }

  lemma {:induction false} ScannedCovers(dec: Decoder, start: nat, n: nat, range: map<nat, nat>, b: nat)
    requires Sound(dec) && Decodes(dec, start, n) && Scanned(dec, start, n, range)
    ensures Covers(range, b) <==> start <= b < Offset(dec, start, n)
  {
    if o :| o in range && o <= b < o + range[o] {
      var i: nat :| i < n && o == Offset(dec, start, i);
      OffsetsGrow(dec, start, n, i, n);
    }
    if start <= b < Offset(dec, start, n) {
      var i := InsnAt(dec, start, n, b);
      assert Offset(dec, start, i) in range;
    }
  }

  lemma {:induction false} InsnAt(dec: Decoder, start: nat, n: nat, b: nat) returns (i: nat)
    requires Decodes(dec, start, n) && start <= b < Offset(dec, start, n)
    ensures i < n && Offset(dec, start, i) <= b < Offset(dec, start, i) + At(dec, start, i).size
  {
    if Offset(dec, start, n - 1) <= b { i := n - 1; } else { i := InsnAt(dec, start, n - 1, b); }
  }

  function Entry(start: nat, end: nat): map<nat, nat>
    requires start <= end
  {
    if start == end then map[] else map[start := end - start]
  }

  lemma EntryShape(start: nat, end: nat)
    requires start <= end
    ensures var m := Entry(start, end);
      Positive(m) && Separated(m) && forall b: nat :: Covers(m, b) <==> start <= b < end
  {
    var m := Entry(start, end);
    forall b: nat
      ensures Covers(m, b) <==> start <= b < end
    {
      if start <= b < end { assert start in m; }
    }
  }

  /** Merging the scanned instructions leaves one interval from the entry. */
  lemma OneInterval(dec: Decoder, start: nat, n: nat, range: map<nat, nat>, merged: map<nat, nat>)
    requires Sound(dec) && Decodes(dec, start, n) && Scanned(dec, start, n, range)
    requires Positive(merged) && Separated(merged) && SameCover(merged, range)
    ensures merged == Entry(start, Offset(dec, start, n))
  {
    var one := Entry(start, Offset(dec, start, n));
    EntryShape(start, Offset(dec, start, n));
    forall b: nat
      ensures Covers(merged, b) <==> Covers(one, b)
    {
      ScannedCovers(dec, start, n, range, b);
    }
    SeparatedIsCanonical(merged, one);
  }

  lemma ScannedStep(dec: Decoder, start: nat, n: nat, range: map<nat, nat>)
    requires Sound(dec) && Decodes(dec, start, n + 1) && Scanned(dec, start, n, range)
    ensures Scanned(dec, start, n + 1, range[Offset(dec, start, n) := At(dec, start, n).size])
  {
    var next := range[Offset(dec, start, n) := At(dec, start, n).size];
    forall i: nat | i < n + 1
      ensures Offset(dec, start, i) in next && next[Offset(dec, start, i)] == At(dec, start, i).size
    {
      if i < n { OffsetsGrow(dec, start, n, i, n); }
    }
    forall o: nat | o in next
      ensures exists i: nat :: i < n + 1 && o == Offset(dec, start, i)
    {
      if o in range { var i: nat :| i < n && o == Offset(dec, start, i); }
    }
  }

  lemma ArrivedAt(dec: Decoder, start: nat, text: Text, n: nat, t: int)
    requires Decodes(dec, start, n)
    ensures Awaited(dec, start, text, n, n + 1, t) <==> t != Offset(dec, start, n) && Awaited(dec, start, text, n, n, t)
  {
    if Awaited(dec, start, text, n, n + 1, t) {
      var i: nat :| i < n && Outstanding(dec, start, text, i, n + 1, t);
      assert Outstanding(dec, start, text, i, n, t);
    }
    if t != Offset(dec, start, n) && Awaited(dec, start, text, n, n, t) {
      var i: nat :| i < n && Outstanding(dec, start, text, i, n, t);
      assert Outstanding(dec, start, text, i, n + 1, t);
    }
  }

  lemma Arrived(dec: Decoder, start: nat, text: Text, n: nat, expected: set<int>)
    requires Decodes(dec, start, n) && Pending(dec, start, text, n, n, expected)
    ensures Pending(dec, start, text, n, n + 1, expected - {Offset(dec, start, n)})
  {
    var left := expected - {Offset(dec, start, n)};
    forall t: int
      ensures t in left <==> Awaited(dec, start, text, n, n + 1, t)
    {
      ArrivedAt(dec, start, text, n, t);
    }
  }

  function AfterJump(left: set<int>, x: Insn, text: Text): set<int> {
    if IsJump(x) && x.target.Some? && x.target.value > text.va then left + {x.target.value - text.va + text.off}
    else left
  }

  lemma DepartedAt(dec: Decoder, start: nat, text: Text, n: nat, t: int)
    requires Decodes(dec, start, n + 1)
    ensures Decodes(dec, start, n)
    ensures Awaited(dec, start, text, n + 1, n + 1, t) <==>
            Awaited(dec, start, text, n, n + 1, t) || JumpsTo(At(dec, start, n), text, t)
  {
    assert Outstanding(dec, start, text, n, n + 1, t) <==> JumpsTo(At(dec, start, n), text, t);
    if Awaited(dec, start, text, n, n + 1, t) {
      var i: nat :| i < n && Outstanding(dec, start, text, i, n + 1, t);
      assert i < n + 1;
    }
  }

  lemma Departed(dec: Decoder, start: nat, text: Text, n: nat, expected: set<int>)
    requires Decodes(dec, start, n) && Decodes(dec, start, n + 1) && Pending(dec, start, text, n, n + 1, expected)
    ensures Pending(dec, start, text, n + 1, n + 1, AfterJump(expected, At(dec, start, n), text))
  {
    var more := AfterJump(expected, At(dec, start, n), text);
    forall t: int
      ensures t in more <==> Awaited(dec, start, text, n + 1, n + 1, t)
    {
      DepartedAt(dec, start, text, n, t);
    }
  }

  lemma EmptyIsSettled(dec: Decoder, start: nat, text: Text, n: nat, expected: set<int>)
    requires Decodes(dec, start, n) && Pending(dec, start, text, n, n + 1, expected)
    ensures expected == {} <==> Settled(dec, start, text, n, n + 1)
  {
    if Settled(dec, start, text, n, n + 1) {
      assert forall t: int :: t !in expected;
      assert expected == {};
    }
  }

  lemma PassesStep(dec: Decoder, start: nat, text: Text, n: nat)
    requires Passes(dec, start, text, n) && dec(Offset(dec, start, n)).Some?
    ensures Decodes(dec, start, n + 1)
    ensures Passes(dec, start, text, n + 1) <==> !Ends(dec, start, text, n) && !Raises(dec, start, text, n)
  {
    assert Decodes(dec, start, n + 1);
    if !Ends(dec, start, text, n) && !Raises(dec, start, text, n) {
      assert Quiet(dec, start, text, n);
    } else {
      assert !Quiet(dec, start, text, n);
    }
  }

  /** What the scan knows after n instructions. */
  ghost predicate Scanning(dec: Decoder, start: nat, text: Text, n: nat, expected: set<int>, range: map<nat, nat>) {
    && Passes(dec, start, text, n) && Scanned(dec, start, n, range)
    && Pending(dec, start, text, n, n, expected)
  }

  /** The scan may stop here and keep n instructions. */
  ghost predicate Stopped(dec: Decoder, start: nat, text: Text, limit: nat, n: nat, range: map<nat, nat>) {
    Keeps(dec, start, text, limit, n) && Decodes(dec, start, n) && Scanned(dec, start, n, range)
  }

  predicate Final(x: Insn) { IsRet(x) || (IsJump(x) && !x.numeric) }

  /** One round of the scan, on values: it goes on, stops after instruction n,
      or fails there. */
  lemma ScanStep(dec: Decoder, start: nat, text: Text, limit: nat, n: nat, expected: set<int>, range: map<nat, nat>)
    requires Sound(dec) && Scanning(dec, start, text, n, expected, range) && dec(Offset(dec, start, n)).Some?
    requires n < limit
    ensures var (x, left) := (At(dec, start, n), expected - {Offset(dec, start, n)});
            var next := range[Offset(dec, start, n) := x.size];
      && (left == {} && Final(x) ==> Stopped(dec, start, text, limit, n + 1, next))
      && (!(left == {} && Final(x)) && IsJump(x) && x.target.None? ==> Fails(dec, start, text, limit, n))
      && (!(left == {} && Final(x)) && !(IsJump(x) && x.target.None?) ==>
            Scanning(dec, start, text, n + 1, AfterJump(left, x, text), next))
  {
    PassesStep(dec, start, text, n);
    Arrived(dec, start, text, n, expected);
    var left := expected - {Offset(dec, start, n)};
    EmptyIsSettled(dec, start, text, n, left);
    Departed(dec, start, text, n, left);
    ScannedStep(dec, start, n, range);
  }

  lemma ScanStart(dec: Decoder, start: nat, text: Text)
    ensures Scanning(dec, start, text, 0, {}, map[])
  {
  }

  lemma ScanStop(dec: Decoder, start: nat, text: Text, limit: nat, n: nat, expected: set<int>, range: map<nat, nat>)
    requires Scanning(dec, start, text, n, expected, range)
    requires n == limit || (n < limit && dec(Offset(dec, start, n)).None?)
    ensures Stopped(dec, start, text, limit, n, range)
  {
  }

  ghost predicate ScanFails(dec: Decoder, start: nat, text: Text, limit: nat) {
    exists n: nat :: Fails(dec, start, text, limit, n)
  }

  ghost predicate ScanKeeps(dec: Decoder, start: nat, text: Text, limit: nat, range: map<nat, nat>) {
    exists n: nat :: Stopped(dec, start, text, limit, n, range)
  }

  /** m is the interval of the n instructions that the scan keeps. */
  ghost predicate EntryRange(dec: Decoder, start: nat, text: Text, limit: nat, m: map<nat, nat>) {
    exists n: nat :: n <= limit && Keeps(dec, start, text, limit, n) && m == Entry(start, Offset(dec, start, n))
  }

  const MAX_INSN: nat := 2

  /** The instruction scan. Keeps at most MAX_INSN + 1 instructions, and n of
      them exactly when the decoder and the outstanding jumps say so. */
  method Scan(dec: Decoder, start: nat, text: Text) returns (r: Option<map<nat, nat>>)
    requires Sound(dec)
    ensures r.None? ==> ScanFails(dec, start, text, MAX_INSN + 1)
    ensures r.Some? ==> ScanKeeps(dec, start, text, MAX_INSN + 1, r.value)
  {
    var range: map<nat, nat>, expected: set<int> := map[], {};
    var off, count := start, 0;
    ghost var n := 0;
    ScanStart(dec, start, text);
    while dec(off).Some?
      invariant n == count <= MAX_INSN + 1 && off == Offset(dec, start, n)
      invariant Scanning(dec, start, text, n, expected, range)
      decreases MAX_INSN + 1 - count
    {
      if count > MAX_INSN {
        ScanStop(dec, start, text, MAX_INSN + 1, n, expected, range);
        return Some(range);
      }
      count := count + 1;
      var insn := dec(off).value;
      ScanStep(dec, start, text, MAX_INSN + 1, n, expected, range);
      var left := expected - {off};
      range := range[off := insn.size];
      off := off + insn.size;
      n := n + 1;
      if IsJump(insn) {
        if !insn.numeric && left == {} { return Some(range); }
        if insn.target.None? {
          assert Fails(dec, start, text, MAX_INSN + 1, n - 1);
          return None;
        }
      }
      if IsRet(insn) && left == {} { return Some(range); }
      expected := AfterJump(left, insn, text);
    }
    ScanStop(dec, start, text, MAX_INSN + 1, n, expected, range);
    r := Some(range);
  }

  lemma KeptShape(dec: Decoder, start: nat, text: Text, limit: nat, range: map<nat, nat>)
    requires Sound(dec) && ScanKeeps(dec, start, text, limit, range)
    ensures Positive(range) && Disjoint(range)
  {
    var n: nat :| Stopped(dec, start, text, limit, n, range);
    ScannedShape(dec, start, n, range);
  }

  lemma KeptInterval(dec: Decoder, start: nat, text: Text, limit: nat, range: map<nat, nat>, merged: map<nat, nat>)
    requires Sound(dec) && ScanKeeps(dec, start, text, limit, range)
    requires Positive(merged) && Separated(merged) && SameCover(merged, range)
    ensures EntryRange(dec, start, text, limit, merged)
  {
    var n: nat :| Stopped(dec, start, text, limit, n, range);
    OneInterval(dec, start, n, range, merged);
  }

  /** Nothing, or one interval at the entry of at most three instructions. */
  method Disasm(dec: Decoder, start: nat, text: Text) returns (r: Option<map<nat, nat>>)
    requires Sound(dec) && start + text.off >= 0
    ensures r.None? ==> ScanFails(dec, start + text.off, text, 3)
    ensures r.Some? ==> EntryRange(dec, start + text.off, text, 3, r.value)
  {
    var off := start + text.off;
    var range := Scan(dec, off, text);
    if range.None? { return None; }
    KeptShape(dec, off, text, 3, range.value);
    var merged := Merge(range.value);
    KeptInterval(dec, off, text, 3, range.value, merged);
    r := Some(merged);
  }

  lemma NoLonger(dec: Decoder, start: nat, text: Text, n: nat, m: nat)
    requires n < m && Passes(dec, start, text, m - 1) && Decodes(dec, start, m)
    ensures dec(Offset(dec, start, n)).Some?
    ensures n > 0 ==> Quiet(dec, start, text, n - 1)
  {
  }

  lemma KeepsExcludes(dec: Decoder, start: nat, text: Text, limit: nat, n: nat, m: nat)
    requires Keeps(dec, start, text, limit, n) && n < m <= limit
    ensures !(Passes(dec, start, text, m - 1) && Decodes(dec, start, m))
  {
    if Passes(dec, start, text, m - 1) && Decodes(dec, start, m) { NoLonger(dec, start, text, n, m); }
  }

  lemma FailsLate(dec: Decoder, start: nat, text: Text, n: nat, m: nat)
    requires Decodes(dec, start, m + 1) && Raises(dec, start, text, m) && m < n
    ensures !Passes(dec, start, text, n) && (m < n - 1 ==> !Passes(dec, start, text, n - 1))
  {
    assert !Quiet(dec, start, text, m);
  }

  /** A scan has one outcome: it cannot keep two counts, nor keep one and fail. */
  lemma OutcomeIsUnique(dec: Decoder, start: nat, text: Text, limit: nat, n: nat, m: nat)
    requires Keeps(dec, start, text, limit, n)
    ensures Keeps(dec, start, text, limit, m) ==> m == n
    ensures !Fails(dec, start, text, limit, m)
  {
    if Keeps(dec, start, text, limit, m) {
      if n < m { KeepsExcludes(dec, start, text, limit, n, m); }
      if m < n { KeepsExcludes(dec, start, text, limit, m, n); }
    }
    if Fails(dec, start, text, limit, m) {
      if n <= m { KeepsExcludes(dec, start, text, limit, n, m + 1); } else { FailsLate(dec, start, text, n, m); }
    }
  }
}
