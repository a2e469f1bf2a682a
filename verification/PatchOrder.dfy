/** When two symbols of patch_kernel (kernel_patch/hwfilter.py) may be patched in
    either order, for any two ranges, also overlapping ones. */
module PatchOrder {
  import opened PatchKernel

  ghost predicate Commute(d: seq<Byte>, q: Range, r: Range) {
    PatchAll(d, [[q], [r]]) == PatchAll(d, [[r], [q]])
  }

  /** The stub that r has left after q, which starts below it, was patched: q's
      writes start at its own stub's end and can only break a stub. */
  function StubAfter(d: seq<Byte>, q: Range, r: Range): nat {
    var (from, end, s) := (q.start + StubLen(d, q.start), q.start + q.len, StubLen(d, r.start));
    if end <= from || end <= r.start then s
    else if from <= r.start then 0
    else if !IsEndbr(d, r.start) then s
    else if from <= r.start + 3 then 0
    else if from == r.start + 4 then 4
    else s
  }

  /** r starts inside q's endbr, so patching r first breaks it. */
  predicate BreaksEndbr(d: seq<Byte>, q: Range, r: Range) {
    IsEndbr(d, q.start) && r.start < q.start + 4 && q.len > 0 && r.len > 0
  }

  predicate AllNops(d: seq<Byte>, lo: nat, hi: nat) {
    hi <= |d| && forall i :: lo <= i < hi ==> d[i] == NOP
  }

  /** Two writes, of lo..end and of from..last, leave the same bytes in either
      order; after the first, the second starts at `from'` instead. */
  predicate WritesAgree(d: seq<Byte>, lo: nat, end: nat, from: nat, from': nat, last: nat) {
    || end <= lo || last <= from'
    || (from' == lo && (last <= end || from < end || (last <= from && AllNops(d, end, last))))
    || (from' == from && (end <= from || last <= lo))
  }

  /** q starts below r, and the order of the two does not matter. */
  predicate OrderFree(d: seq<Byte>, q: Range, r: Range) {
    && !BreaksEndbr(d, q, r)
    && WritesAgree(d, q.start + StubLen(d, q.start), q.start + q.len,
                   r.start + StubLen(d, r.start), r.start + StubAfter(d, q, r), r.start + r.len)
  }

  lemma TwoPatches(d: seq<Byte>, q: Range, r: Range)
    requires PatchEntry(d, q).Some?
    ensures PatchAll(d, [[q], [r]]) == PatchEntry(PatchEntry(d, q).value, r)
  {
    var e := PatchEntry(d, q).value;
    SingleEntry(d, q);
    SingleEntry(e, r);
    var last := [[r]];
    assert last[1..] == [];
    assert PatchAll(e, last) == PatchEntry(e, r);
    assert [[q], [r]][1..] == last;
  }

  /** Writing RET and NOPs makes no endbr and no call. */
  lemma StubsOnlyBreak(d: seq<Byte>, e: seq<Byte>, o: nat)
    requires |e| == |d| && forall i :: 0 <= i < |d| ==> e[i] == d[i] || e[i] == RET || e[i] == NOP
    ensures IsEndbr(e, o) ==> IsEndbr(d, o)
    ensures StubReadable(d, o) ==> StubReadable(e, o)
  {
  }

  lemma StubOfHigher(d: seq<Byte>, q: Range, r: Range)
    requires PatchEntry(d, q).Some? && q.start < r.start && StubReadable(d, r.start)
    ensures StubLen(PatchEntry(d, q).value, r.start) == StubAfter(d, q, r) <= StubLen(d, r.start)
  {
  }

  lemma StubOfLower(d: seq<Byte>, q: Range, r: Range)
    requires PatchEntry(d, r).Some? && q.start < r.start && StubReadable(d, q.start) && q.len > 0
    ensures var e := PatchEntry(d, r).value;
      StubLen(e, q.start) == if BreaksEndbr(d, q, r) then 0 else StubLen(d, q.start)
  {
  }

  /** The bytes of the two orders, as far as both write. */
  lemma FillsAgree(d: seq<Byte>, lo: nat, end: nat, from: nat, from': nat, last: nat)
    requires lo < end <= |d| && from' < last <= |d| && from' <= from
    requires from' == from || lo <= from' < end || (from' < lo && d[from'] != RET)
    ensures Fill(Fill(d, lo, end, RET), from', last, RET) == Fill(Fill(d, from, last, RET), lo, end, RET)
      <==> WritesAgree(d, lo, end, from, from', last)
  {
    var (x, y) := (Fill(Fill(d, lo, end, RET), from', last, RET), Fill(Fill(d, from, last, RET), lo, end, RET));
    if WritesAgree(d, lo, end, from, from', last) {
      forall i | 0 <= i < |d|
        ensures x[i] == y[i]
      {
      }
      assert x == y;
    } else {
      var i := FillsDiffer(d, lo, end, from, from', last);
      assert x[i] != y[i];
    }
  }

  lemma FillsDiffer(d: seq<Byte>, lo: nat, end: nat, from: nat, from': nat, last: nat) returns (i: nat)
    requires lo < end <= |d| && from' < last <= |d| && from' <= from
    requires from' == from || lo <= from' < end || (from' < lo && d[from'] != RET)
    requires !WritesAgree(d, lo, end, from, from', last)
    ensures i < |d|
    ensures Fill(Fill(d, lo, end, RET), from', last, RET)[i] != Fill(Fill(d, from, last, RET), lo, end, RET)[i]
  {
    if from' == lo {
      if from < last {
        i := from;
      } else {
        var j :| end <= j < last && d[j] != NOP;
        i := j;
      }
    } else if lo <= from' < end || from' != from {
      i := from';
    } else {
      i := lo;
    }
  }

  /** Whether the second patch raises, q being the lower one. */
  lemma SecondFits(d: seq<Byte>, q: Range, r: Range)
    requires PatchEntry(d, q).Some? && PatchEntry(d, r).Some? && q.start < r.start
    ensures var e := PatchEntry(d, q).value;
      && (PatchEntry(e, r).Some? <==> r.start + r.len <= r.start + StubAfter(d, q, r) || r.start + r.len <= |d|)
      && (PatchEntry(e, r).Some? ==>
            PatchEntry(e, r).value == Fill(e, r.start + StubAfter(d, q, r), r.start + r.len, RET))
  {
    StubOfHigher(d, q, r);
    StubsOnlyBreak(d, PatchEntry(d, q).value, r.start);
  }

  lemma FirstFits(d: seq<Byte>, q: Range, r: Range)
    requires PatchEntry(d, q).Some? && PatchEntry(d, r).Some? && q.start < r.start && !BreaksEndbr(d, q, r)
    ensures var e := PatchEntry(d, r).value;
      && PatchEntry(e, q).Some?
      && PatchEntry(e, q).value == Fill(e, q.start + StubLen(d, q.start), q.start + q.len, RET)
  {
    var e := PatchEntry(d, r).value;
    StubsOnlyBreak(d, e, q.start);
    if q.len > 0 {
      StubOfLower(d, q, r);
    } else {
      assert PatchEntry(e, q).value == e;
    }
  }

  lemma FillNothing(d: seq<Byte>, lo: nat, hi: nat, first: Byte)
    requires hi <= lo
    ensures Fill(d, lo, hi, first) == d
  {
  }

  /** The endbr is gone: q overwrites it with a RET that the other order keeps. */
  lemma BrokenDiffers(d: seq<Byte>, q: Range, r: Range)
    requires PatchEntry(d, q).Some? && PatchEntry(d, r).Some? && q.start < r.start && BreaksEndbr(d, q, r)
    ensures PatchEntry(PatchEntry(d, q).value, r) != PatchEntry(PatchEntry(d, r).value, q)
  {
    SecondFits(d, q, r);
    StubOfLower(d, q, r);
    var (x, y) := (PatchEntry(PatchEntry(d, q).value, r), PatchEntry(PatchEntry(d, r).value, q));
    if x.Some? && y.Some? {
      assert y.value[q.start] == RET;
      assert x.value[q.start] == d[q.start] == 0xf3;
    }
  }

  /** The bytes at which r's write may start after q's. */
  lemma StartAfter(d: seq<Byte>, q: Range, r: Range)
    requires q.start < r.start && r.start < |d| && q.start + StubLen(d, q.start) < q.start + q.len
    ensures var (lo, end) := (q.start + StubLen(d, q.start), q.start + q.len);
      var (from, from') := (r.start + StubLen(d, r.start), r.start + StubAfter(d, q, r));
      from' == from || lo <= from' < end || (from' < lo && from' < |d| && d[from'] != RET)
  {
  }

  lemma BothWrite(d: seq<Byte>, q: Range, r: Range)
    requires PatchEntry(d, q).Some? && PatchEntry(d, r).Some? && q.start < r.start && !BreaksEndbr(d, q, r)
    requires StubLen(d, q.start) < q.len && StubAfter(d, q, r) < r.len
    ensures PatchEntry(PatchEntry(d, q).value, r) == PatchEntry(PatchEntry(d, r).value, q) <==> OrderFree(d, q, r)
  {
    var (lo, end) := (q.start + StubLen(d, q.start), q.start + q.len);
    var (from, from', last) := (r.start + StubLen(d, r.start), r.start + StubAfter(d, q, r), r.start + r.len);
    StubOfHigher(d, q, r);
    SecondFits(d, q, r);
    FirstFits(d, q, r);
    StartAfter(d, q, r);
    if last <= |d| { FillsAgree(d, lo, end, from, from', last); } else { TooLong(d, lo, end, from, from', last); }
  }

  lemma OneWrites(d: seq<Byte>, q: Range, r: Range)
    requires PatchEntry(d, q).Some? && PatchEntry(d, r).Some? && q.start < r.start && !BreaksEndbr(d, q, r)
    requires StubLen(d, q.start) >= q.len || StubAfter(d, q, r) >= r.len
    ensures PatchEntry(PatchEntry(d, q).value, r) == PatchEntry(PatchEntry(d, r).value, q)
  {
    var (lo, end) := (q.start + StubLen(d, q.start), q.start + q.len);
    var (from, from', last) := (r.start + StubLen(d, r.start), r.start + StubAfter(d, q, r), r.start + r.len);
    StubOfHigher(d, q, r);
    SecondFits(d, q, r);
    FirstFits(d, q, r);
    if end <= lo {
      FillNothing(d, lo, end, RET);
      FillNothing(Fill(d, from, last, RET), lo, end, RET);
    } else {
      FillNothing(d, from, last, RET);
      FillNothing(Fill(d, lo, end, RET), from', last, RET);
    }
  }

  lemma LowerFirst(d: seq<Byte>, q: Range, r: Range)
    requires PatchEntry(d, q).Some? && PatchEntry(d, r).Some? && q.start < r.start
    ensures PatchEntry(PatchEntry(d, q).value, r) == PatchEntry(PatchEntry(d, r).value, q) <==> OrderFree(d, q, r)
  {
    if BreaksEndbr(d, q, r) {
      BrokenDiffers(d, q, r);
    } else if StubLen(d, q.start) >= q.len || StubAfter(d, q, r) >= r.len {
      OneWrites(d, q, r);
    } else {
      BothWrite(d, q, r);
    }
  }

  /** r reaches past the image; patched alone it is all stub and writes nothing. */
  lemma TooLong(d: seq<Byte>, lo: nat, end: nat, from: nat, from': nat, last: nat)
    requires lo < end <= |d| < last && from' < last <= from
    ensures !WritesAgree(d, lo, end, from, from', last)
  {
  }

  /** Two ranges with the same start may be patched in either order. */
  lemma SameStart(d: seq<Byte>, q: Range, r: Range)
    requires PatchEntry(d, q).Some? && PatchEntry(d, r).Some? && q.start == r.start && q.len <= r.len
    ensures PatchEntry(PatchEntry(d, q).value, r) == PatchEntry(d, r)
    ensures PatchEntry(PatchEntry(d, r).value, q) == PatchEntry(d, r)
  {
    var (s, lo) := (StubLen(d, q.start), q.start + StubLen(d, q.start));
    var (e, f) := (PatchEntry(d, q).value, PatchEntry(d, r).value);
    StubsOnlyBreak(d, e, q.start);
    StubsOnlyBreak(d, f, q.start);
    assert q.len > s ==> StubLen(e, q.start) == s;
    assert r.len > s ==> StubLen(f, q.start) == s;
    assert q.len <= s ==> e == d;
    assert r.len <= s ==> f == d;
    if q.len > s {
      assert Fill(e, lo, r.start + r.len, RET) == f;
      assert Fill(f, lo, q.start + q.len, RET) == f;
    } else if r.len > s {
      assert Fill(f, lo, q.start + q.len, RET) == f;
    }
  }

  /** Exactly when two symbols, each of which can be patched on its own, may be
      patched in either order. */
  lemma OrdersAgreeIff(d: seq<Byte>, q: Range, r: Range)
    requires PatchEntry(d, q).Some? && PatchEntry(d, r).Some?
    ensures Commute(d, q, r) <==>
      if q.start == r.start then true else if q.start < r.start then OrderFree(d, q, r) else OrderFree(d, r, q)
  {
    TwoPatches(d, q, r);
    TwoPatches(d, r, q);
    if q.start < r.start {
      LowerFirst(d, q, r);
    } else if r.start < q.start {
      LowerFirst(d, r, q);
    } else if q.len <= r.len {
      SameStart(d, q, r);
    } else {
      SameStart(d, r, q);
    }
  }

  /** A push, an endbr and a push: a scan from the first byte takes all six, one
      from the endbr takes six as well, and the order matters. */
  lemma OverlapsDoNotCommute()
    ensures var (d, q, r) := ([0x55, 0xf3, 0x0f, 0x1e, 0xfa, 0x55, 0x55], Range(0, 6), Range(1, 6));
      PatchEntry(d, q).Some? && PatchEntry(d, r).Some? && !Commute(d, q, r)
  {
    var (d, q, r) := ([0x55, 0xf3, 0x0f, 0x1e, 0xfa, 0x55, 0x55], Range(0, 6), Range(1, 6));
    assert !IsEndbr(d, 0) && IsEndbr(d, 1) && StubLen(d, 0) == 0 && StubLen(d, 1) == 4;
    OrdersAgreeIff(d, q, r);
  }

  /** An endbr and three pushes: the six bytes that a scan takes from the endbr
      and the three that one takes from the first push commute. */
  lemma OverlapsMayCommute()
    ensures var (d, q, r) := ([0xf3, 0x0f, 0x1e, 0xfa, 0x55, 0x55, 0x55], Range(0, 6), Range(4, 3));
      PatchEntry(d, q).Some? && PatchEntry(d, r).Some? && Commute(d, q, r)
  {
    var (d, q, r) := ([0xf3, 0x0f, 0x1e, 0xfa, 0x55, 0x55, 0x55], Range(0, 6), Range(4, 3));
    assert IsEndbr(d, 0) && !IsEndbr(d, 4) && StubLen(d, 0) == 4 && StubLen(d, 4) == 0;
    OrdersAgreeIff(d, q, r);
  }
}
