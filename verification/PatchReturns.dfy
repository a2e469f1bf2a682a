/** Overlapping symbols of patch_kernel (kernel_patch/hwfilter.py): a later patch
    can overwrite the RET of an earlier one, or the stub in front of it. When two
    patched entries still return, for any two ranges. */
module PatchReturns {
  import opened PatchKernel
  import opened PatchOrder

  /** The first instruction after x's stub is a RET. */
  predicate Returns(e: seq<Byte>, x: Range) {
    var p := x.start + StubLen(e, x.start);
    p < |e| && e[p] == RET
  }

  /** Patched on its own, x gets a RET. */
  predicate Writes(d: seq<Byte>, x: Range) { PatchEntry(d, x).Some? && StubLen(d, x.start) < x.len }

  /** Patching r after q, which starts below it, leaves q's stub and RET. */
  predicate HigherSpares(d: seq<Byte>, q: Range, r: Range) {
    var lo := q.start + StubLen(d, q.start);
    !BreaksEndbr(d, q, r) && !(r.start + StubAfter(d, q, r) < lo < r.start + r.len)
  }

  /** Patching q after r, which starts above it, leaves r returning: q does not
      reach r, writes its own RET where r's stub then ends, or writes behind it. */
  predicate LowerSpares(d: seq<Byte>, q: Range, r: Range) {
    var (lo, end) := (q.start + StubLen(d, q.start), q.start + q.len);
    var (from, from') := (r.start + StubLen(d, r.start), r.start + StubAfter(d, q, r));
    !BreaksEndbr(d, q, r) &&
    (end <= r.start || (lo >= r.start && (from' == lo || (from' == from && !(lo < from < end)))))
  }

  lemma WritesReturn(d: seq<Byte>, x: Range)
    requires Writes(d, x)
    ensures Returns(PatchEntry(d, x).value, x)
  {
    var e := PatchEntry(d, x).value;
    assert StubLen(e, x.start) == StubLen(d, x.start);
  }

  lemma HigherLast(d: seq<Byte>, q: Range, r: Range)
    requires Writes(d, q) && Writes(d, r) && q.start < r.start
    ensures var e := PatchEntry(d, q).value; Writes(e, r) && Returns(PatchEntry(e, r).value, r)
    ensures Returns(PatchEntry(PatchEntry(d, q).value, r).value, q) <==> HigherSpares(d, q, r)
  {
    var e := PatchEntry(d, q).value;
    StubOfHigher(d, q, r);
    SecondFits(d, q, r);
    WritesReturn(e, r);
    StubAfterHigher(d, q, r);
  }

  /** q's stub after both, r having been patched last. */
  lemma StubAfterHigher(d: seq<Byte>, q: Range, r: Range)
    requires Writes(d, q) && Writes(d, r) && q.start < r.start && Writes(PatchEntry(d, q).value, r)
    ensures var e := PatchEntry(PatchEntry(d, q).value, r).value;
      StubLen(e, q.start) == if BreaksEndbr(d, q, r) then 0 else StubLen(d, q.start)
  {
    var e := PatchEntry(d, q).value;
    assert StubLen(e, q.start) == StubLen(d, q.start);
    StubOfLower(e, q, r);
  }

  lemma LowerFits(d: seq<Byte>, q: Range, r: Range)
    requires Writes(d, q) && Writes(d, r) && q.start < r.start
    ensures var e := PatchEntry(d, r).value;
      && Writes(e, q) && StubLen(e, q.start) == (if BreaksEndbr(d, q, r) then 0 else StubLen(d, q.start))
      && StubLen(e, r.start) == StubLen(d, r.start)
  {
    StubsOnlyBreak(d, PatchEntry(d, r).value, q.start);
    StubOfLower(d, q, r);
  }

  lemma LowerLast(d: seq<Byte>, q: Range, r: Range)
    requires Writes(d, q) && Writes(d, r) && q.start < r.start
    ensures var e := PatchEntry(d, r).value; Writes(e, q) && Returns(PatchEntry(e, q).value, q)
    ensures Returns(PatchEntry(PatchEntry(d, r).value, q).value, r) <==> LowerSpares(d, q, r)
  {
    var e := PatchEntry(d, r).value;
    LowerFits(d, q, r);
    WritesReturn(e, q);
    StubOfHigher(e, q, r);
    SparesIff(d, e, q, r);
  }

  /** e is the image d after r was patched. */
  lemma SparesIff(d: seq<Byte>, e: seq<Byte>, q: Range, r: Range)
    requires Writes(d, q) && Writes(d, r) && q.start < r.start && e == PatchEntry(d, r).value && Writes(e, q)
    requires StubLen(e, q.start) == if BreaksEndbr(d, q, r) then 0 else StubLen(d, q.start)
    requires StubLen(e, r.start) == StubLen(d, r.start)
    requires StubLen(PatchEntry(e, q).value, r.start) == StubAfter(e, q, r) <= StubLen(e, r.start)
    ensures Returns(PatchEntry(e, q).value, r) <==> LowerSpares(d, q, r)
  {
    assert IsEndbr(e, r.start) <==> IsEndbr(d, r.start);
    if !BreaksEndbr(d, q, r) { assert StubAfter(e, q, r) == StubAfter(d, q, r); }
  }

  /** Exactly when both symbols still return after both patches, for the two
      orders and any two ranges that would get a RET each. */
  lemma BothReturnIff(d: seq<Byte>, q: Range, r: Range)
    requires Writes(d, q) && Writes(d, r) && q.start < r.start
    ensures var e := PatchAll(d, [[q], [r]]);
      e.Some? && Returns(e.value, r) && (Returns(e.value, q) <==> HigherSpares(d, q, r))
    ensures var e := PatchAll(d, [[r], [q]]);
      e.Some? && Returns(e.value, q) && (Returns(e.value, r) <==> LowerSpares(d, q, r))
  {
    TwoPatches(d, q, r);
    TwoPatches(d, r, q);
    HigherLast(d, q, r);
    LowerLast(d, q, r);
  }

  /** From the same start both return in either order. */
  lemma SameStartReturns(d: seq<Byte>, q: Range, r: Range)
    requires Writes(d, q) && Writes(d, r) && q.start == r.start
    ensures var e := PatchAll(d, [[q], [r]]); e.Some? && Returns(e.value, q) && Returns(e.value, r)
  {
    TwoPatches(d, q, r);
    if q.len <= r.len { SameStart(d, q, r); WritesReturn(d, r); } else { SameStart(d, r, q); WritesReturn(d, q); }
  }
}
