/** The byte patching of patch_kernel (kernel_patch/hwfilter.py), on the image
    as a buffer of bytes. An index past its end makes the source raise. */
module PatchKernel {
  import opened Options

  type Byte = b: int | 0 <= b < 256

  datatype Range = Range(start: nat, len: nat)

  const RET: Byte := 0xc3
  const NOP: Byte := 0x90

  predicate IsEndbr(d: seq<Byte>, o: nat) {
    && o + 3 < |d|
    && d[o] == 0xf3 && d[o + 1] == 0x0f && d[o + 2] == 0x1e && (d[o + 3] == 0xfa || d[o + 3] == 0xfb)
  }

  /** The endbr test stops at the first byte that differs; it raises when the
      image ends before that. */
  predicate EndbrReadable(d: seq<Byte>, o: nat) {
    && o < |d|
    && (d[o] == 0xf3 ==> o + 1 < |d| && (d[o + 1] == 0x0f ==> o + 2 < |d| && (d[o + 2] == 0x1e ==> o + 3 < |d|)))
  }

  /** Bytes kept at the entry: an endbr, then a call to the tracer. */
  function StubLen(d: seq<Byte>, o: nat): nat {
    var e := if IsEndbr(d, o) then 4 else 0;
    if o + e < |d| && d[o + e] == 0xe8 then e + 5 else e
  }

  predicate StubReadable(d: seq<Byte>, o: nat) {
    EndbrReadable(d, o) && (IsEndbr(d, o) ==> o + 4 < |d|)
  }

  /** d with bytes lo..hi-1 replaced by `first` and then NOPs. */
  function Fill(d: seq<Byte>, lo: nat, hi: int, first: Byte): (e: seq<Byte>)
    ensures |e| == |d|
  {
    seq(|d|, i requires 0 <= i < |d| => if i == lo < hi then first else if lo < i < hi then NOP else d[i])
  }

  predicate EntryFits(d: seq<Byte>, r: Range) {
    StubReadable(d, r.start) && (StubLen(d, r.start) < r.len ==> r.start + r.len <= |d|)
  }

  function PatchEntry(d: seq<Byte>, r: Range): Option<seq<Byte>> {
    if EntryFits(d, r) then Some(Fill(d, r.start + StubLen(d, r.start), r.start + r.len, RET)) else None
  }

  /** The ranges of one symbol; `done` once a RET has been written. */
  function PatchSymbol(d: seq<Byte>, rs: seq<Range>, done: bool): Option<seq<Byte>>
    decreases |rs|
  {
    if rs == [] then Some(d)
    else if done then
      if rs[0].len == 0 || rs[0].start + rs[0].len <= |d| then
        PatchSymbol(Fill(d, rs[0].start, rs[0].start + rs[0].len, NOP), rs[1..], true)
      else None
    else
      var e := PatchEntry(d, rs[0]);
      if e.None? then None else PatchSymbol(e.value, rs[1..], StubLen(d, rs[0].start) < rs[0].len)
  }

  function PatchAll(d: seq<Byte>, symbols: seq<seq<Range>>): Option<seq<Byte>>
    decreases |symbols|
  {
    if symbols == [] then Some(d)
    else
      var e := PatchSymbol(d, symbols[0], false);
      if e.None? then None else PatchAll(e.value, symbols[1..])
  }

  /** Writes n bytes from o on: `first`, then NOPs. */
  method WriteFrom(data: array<Byte>, o: nat, n: nat, first: Byte) returns (ok: bool)
    modifies data
    ensures ok <==> n == 0 || o + n <= data.Length
    ensures ok ==> data[..] == Fill(old(data[..]), o, o + n, first)
  {
    ghost var d := data[..];
    for k := 0 to n
      invariant k > 0 ==> o + k <= data.Length
      invariant data[..] == Fill(d, o, o + k, first)
    {
      if o + k >= data.Length { return false; }
      data[o + k] := if k == 0 then first else NOP;
    }
    ok := true;
  }

  /** The entry range: skips the stub, then writes RET and NOPs. */
  method WriteEntry(data: array<Byte>, r: Range) returns (ok: bool, wrote: bool)
    modifies data
    ensures ok <==> PatchEntry(old(data[..]), r).Some?
    ensures ok ==> data[..] == PatchEntry(old(data[..]), r).value
    ensures ok ==> wrote == (StubLen(old(data[..]), r.start) < r.len)
  {
    ghost var d := data[..];
    var off, len: int := r.start, r.len;
    if off >= data.Length { return false, false; }
    if data[off] == 0xf3 {
      if off + 1 >= data.Length { return false, false; }
      if data[off + 1] == 0x0f {
        if off + 2 >= data.Length { return false, false; }
        if data[off + 2] == 0x1e {
          if off + 3 >= data.Length { return false, false; }
          if data[off + 3] == 0xfa || data[off + 3] == 0xfb { off, len := off + 4, len - 4; }
        }
      }
    }
    if off >= data.Length { return false, false; }
    if data[off] == 0xe8 { off, len := off + 5, len - 5; }
    assert off == r.start + StubLen(d, r.start) && off + len == r.start + r.len;
    wrote := len > 0;
    if wrote {
      ok := WriteFrom(data, off, len, RET);
    } else {
      ok := true;
      assert data[..] == Fill(d, off, off + len, RET);
    }
  }

  method WriteSymbol(data: array<Byte>, rs: seq<Range>) returns (ok: bool)
    modifies data
    ensures ok <==> PatchSymbol(old(data[..]), rs, false).Some?
    ensures ok ==> data[..] == PatchSymbol(old(data[..]), rs, false).value
  {
    var done := false;
    ghost var goal := PatchSymbol(data[..], rs, false);
    for i := 0 to |rs|
      invariant PatchSymbol(data[..], rs[i..], done) == goal
    {
      assert rs[i..][0] == rs[i] && rs[i..][1..] == rs[i + 1..];
      if !done {
        var fits;
        fits, done := WriteEntry(data, rs[i]);
        if !fits { return false; }
      } else {
        var fits := WriteFrom(data, rs[i].start, rs[i].len, NOP);
        if !fits { return false; }
      }
    }
    ok := true;
  }

  /** Patches every symbol in turn; fails where the source raises. */
  method PatchImage(data: array<Byte>, symbols: seq<seq<Range>>) returns (ok: bool)
    modifies data
    ensures ok <==> PatchAll(old(data[..]), symbols).Some?
    ensures ok ==> data[..] == PatchAll(old(data[..]), symbols).value
  {
    ghost var goal := PatchAll(data[..], symbols);
    for i := 0 to |symbols|
      invariant PatchAll(data[..], symbols[i..]) == goal
    {
      assert symbols[i..][0] == symbols[i] && symbols[i..][1..] == symbols[i + 1..];
      var fits := WriteSymbol(data, symbols[i]);
      if !fits { return false; }
    }
    ok := true;
  }

  predicate In(i: int, r: Range) { r.start <= i < r.start + r.len }

  /** e has d's length, and d's bytes wherever no range of rs reaches. */
  predicate SameOutside(d: seq<Byte>, e: seq<Byte>, rs: seq<Range>) {
    |e| == |d| && forall i :: 0 <= i < |d| && (forall r <- rs :: !In(i, r)) ==> e[i] == d[i]
  }

  lemma {:induction false} SymbolStaysInside(d: seq<Byte>, rs: seq<Range>, done: bool)
    ensures var e := PatchSymbol(d, rs, done); e.Some? ==> SameOutside(d, e.value, rs)
    decreases |rs|
  {
    if rs != [] && PatchSymbol(d, rs, done).Some? {
      var wrote := done || StubLen(d, rs[0].start) < rs[0].len;
      var m := if done then Fill(d, rs[0].start, rs[0].start + rs[0].len, NOP) else PatchEntry(d, rs[0]).value;
      SymbolStaysInside(m, rs[1..], wrote);
      assert forall r <- rs[1..] :: r in rs;
      assert rs[0] in rs;
    }
  }

  function Flat(symbols: seq<seq<Range>>): seq<Range> {
    if symbols == [] then [] else symbols[0] + Flat(symbols[1..])
  }

  /** Whatever the ranges, the image keeps its length and every byte outside
      them. */
  lemma {:induction false} ImageStaysInside(d: seq<Byte>, symbols: seq<seq<Range>>)
    ensures var e := PatchAll(d, symbols); e.Some? ==> SameOutside(d, e.value, Flat(symbols))
    decreases |symbols|
  {
    if symbols != [] && PatchAll(d, symbols).Some? {
      var m := PatchSymbol(d, symbols[0], false).value;
      SymbolStaysInside(d, symbols[0], false);
      ImageStaysInside(m, symbols[1..]);
      assert forall r <- symbols[0] :: r in Flat(symbols);
      assert forall r <- Flat(symbols[1..]) :: r in Flat(symbols);
    }
  }

  function Nops(n: nat): (s: seq<Byte>) { seq(n, i => NOP) }

  lemma SingleEntry(d: seq<Byte>, r: Range)
    ensures PatchSymbol(d, [r], false) == PatchEntry(d, r)
  {
    assert [r][1..] == [];
  }

  /** What is left of d, cut at lo and hi, with one RET and NOPs in between. */
  function Stubbed(d: seq<Byte>, lo: nat, hi: nat): seq<Byte>
    requires lo < hi <= |d|
  {
    d[..lo] + [RET] + Nops(hi - lo - 1) + d[hi..]
  }

  lemma FillInParts(d: seq<Byte>, lo: nat, hi: nat)
    requires lo < hi <= |d|
    ensures Fill(d, lo, hi, RET) == Stubbed(d, lo, hi)
  {
    var e := Fill(d, lo, hi, RET);
    assert e[..lo] == d[..lo];
    assert e[lo + 1..hi] == Nops(hi - lo - 1);
    assert e[hi..] == d[hi..];
    assert e == e[..lo] + [e[lo]] + e[lo + 1..hi] + e[hi..];
  }

  /** The entry range becomes its stub, one RET, and NOPs to its end. */
  lemma EntryBecomesRet(d: seq<Byte>, r: Range, lo: nat, hi: nat)
    requires PatchEntry(d, r).Some? && lo == r.start + StubLen(d, r.start) && hi == r.start + r.len && lo < hi
    ensures hi <= |d| && PatchEntry(d, r).value == Stubbed(d, lo, hi)
  {
    FillInParts(d, lo, hi);
  }

  /** The bytes of a patched entry: an endbr (f3 0f 1e fa or fb) and a call (e8
      and four bytes) stay, then one c3 and 90 to the end of the range. */
  lemma EntryBytes(d: seq<Byte>, o: nat, n: nat, endbr: bool, call: bool)
    requires PatchEntry(d, Range(o, n)).Some?
    requires endbr <==> o + 4 <= |d| && d[o..o + 4] in {[0xf3, 0x0f, 0x1e, 0xfa], [0xf3, 0x0f, 0x1e, 0xfb]}
    requires var a := if endbr then 4 else 0; call <==> o + a < |d| && d[o + a] == 0xe8
    ensures var (e, s) := (PatchEntry(d, Range(o, n)).value, (if endbr then 4 else 0) + if call then 5 else 0);
      if n <= s then e == d
      else o + n <= |d| && e == d[..o + s] + [0xc3] + seq(n - s - 1, i => 0x90) + d[o + n..]
  {
    if o + 4 <= |d| { assert d[o..o + 4] == [d[o], d[o + 1], d[o + 2], d[o + 3]]; }
    assert IsEndbr(d, o) <==> endbr;
    var s := StubLen(d, o);
    if n > s {
      FillInParts(d, o + s, o + n);
    } else {
      assert PatchEntry(d, Range(o, n)).value == d;
    }
  }

  /** Behind a range that got a RET the next is all NOPs; one that is all stub
      leaves the RET to the next. */
  lemma NextRange(d: seq<Byte>, r: Range, q: Range)
    requires PatchEntry(d, r).Some?
    ensures var (e, f) := (PatchEntry(d, r).value, PatchSymbol(d, [r, q], false));
      if StubLen(d, r.start) >= r.len then f == PatchEntry(d, q)
      else
        && (f.Some? <==> q.len == 0 || q.start + q.len <= |d|)
        && (f.Some? ==> |f.value| == |d| && forall i :: 0 <= i < |d| ==> f.value[i] == if In(i, q) then 0x90 else e[i])
  {
    var e := PatchEntry(d, r).value;
    var rest := [r, q][1..];
    assert rest == [q];
    if StubLen(d, r.start) >= r.len {
      assert e == d;
      SingleEntry(d, q);
    } else {
      NopsOnly(e, q);
    }
  }

  lemma NopsOnly(e: seq<Byte>, q: Range)
    ensures PatchSymbol(e, [q], true) ==
      if q.len == 0 || q.start + q.len <= |e| then Some(Fill(e, q.start, q.start + q.len, NOP)) else None
  {
    assert [q][1..] == [];
  }

  /** A range no longer than its stub is left alone. */
  lemma StubOnlyIsKept(d: seq<Byte>, r: Range)
    requires StubReadable(d, r.start) && StubLen(d, r.start) >= r.len
    ensures PatchSymbol(d, [r], false) == Some(d)
  {
    SingleEntry(d, r);
    assert PatchEntry(d, r).value == d;
  }

  /** The bytes that patching r may look at or change. */
  function WindowEnd(r: Range): nat { r.start + if r.len < 5 then 5 else r.len }

  predicate Agree(d: seq<Byte>, e: seq<Byte>, r: Range) {
    |d| == |e| && WindowEnd(r) <= |d| && forall i :: r.start <= i < WindowEnd(r) ==> d[i] == e[i]
  }

  lemma PatchIsLocal(d: seq<Byte>, e: seq<Byte>, r: Range)
    requires Agree(d, e, r)
    ensures PatchEntry(d, r).Some? && PatchEntry(e, r).Some?
    ensures Agree(PatchEntry(d, r).value, PatchEntry(e, r).value, r)
  {
  }

  /** Patching a range a second time changes nothing. */
  lemma PatchTwice(d: seq<Byte>, r: Range)
    requires PatchEntry(d, r).Some?
    ensures PatchEntry(PatchEntry(d, r).value, r) == PatchEntry(d, r)
  {
    var e := PatchEntry(d, r).value;
    assert StubLen(d, r.start) < r.len ==> StubLen(e, r.start) == StubLen(d, r.start);
    if PatchEntry(e, r).Some? { assert PatchEntry(e, r).value == e; }
  }

  predicate Apart(r: Range, q: Range) { WindowEnd(r) <= q.start || WindowEnd(q) <= r.start }

  /** Any two symbols are aliases of one range or do not meet. */
  predicate AliasedOrApart(rs: set<Range>) {
    forall r, q :: r in rs && q in rs ==> r == q || Apart(r, q)
  }

  function Singles(rs: seq<Range>): (s: seq<seq<Range>>)
    ensures |s| == |rs| && forall i :: 0 <= i < |rs| ==> s[i] == [rs[i]]
  {
    seq(|rs|, i requires 0 <= i < |rs| => [rs[i]])
  }

  /** Every range of `done` looks as if it alone had been patched in d. */
  ghost predicate EachAlone(d: seq<Byte>, e: seq<Byte>, done: set<Range>) {
    && |e| == |d|
    && (forall r <- done :: PatchEntry(d, r).Some? && Agree(e, PatchEntry(d, r).value, r))
    && (forall i :: 0 <= i < |d| && (forall r <- done :: !In(i, r)) ==> e[i] == d[i])
  }

  lemma AlonePatch(d: seq<Byte>, e: seq<Byte>, done: set<Range>, q: Range)
    requires EachAlone(d, e, done) && AliasedOrApart(done + {q}) && WindowEnd(q) <= |d|
    ensures PatchEntry(e, q).Some? && EachAlone(d, PatchEntry(e, q).value, done + {q})
  {
    assert q in done + {q};
    PatchIsLocal(d, d, q);
    if q in done {
      PatchIsLocal(e, PatchEntry(d, q).value, q);
      PatchTwice(d, q);
      assert done + {q} == done;
    } else {
      forall i | q.start <= i < WindowEnd(q)
        ensures e[i] == d[i]
      {
        forall r | r in done
          ensures !In(i, r)
        {
          assert r in done + {q} && Apart(r, q);
        }
      }
      PatchIsLocal(e, d, q);
    }
    OthersKept(d, e, done, q);
  }

  lemma OthersKept(d: seq<Byte>, e: seq<Byte>, done: set<Range>, q: Range)
    requires EachAlone(d, e, done) && AliasedOrApart(done + {q})
    requires PatchEntry(e, q).Some? && PatchEntry(d, q).Some?
    requires Agree(PatchEntry(e, q).value, PatchEntry(d, q).value, q)
    ensures EachAlone(d, PatchEntry(e, q).value, done + {q})
  {
    var f := PatchEntry(e, q).value;
    forall r | r in done + {q}
      ensures PatchEntry(d, r).Some? && Agree(f, PatchEntry(d, r).value, r)
    {
      if r != q { assert r in done && q in done + {q} && Apart(r, q); }
    }
    forall i | 0 <= i < |d| && (forall r <- done + {q} :: !In(i, r))
      ensures f[i] == d[i]
    {
      assert q in done + {q} && !In(i, q);
      assert forall r <- done :: r in done + {q};
    }
  }

  function RangesOf(rs: seq<Range>): set<Range> { set r | r in rs }

  lemma {:induction false} PatchFrom(d: seq<Byte>, e: seq<Byte>, done: set<Range>, rs: seq<Range>)
    requires EachAlone(d, e, done) && AliasedOrApart(done + RangesOf(rs))
    requires forall r <- rs :: WindowEnd(r) <= |d|
    ensures PatchAll(e, Singles(rs)).Some? && EachAlone(d, PatchAll(e, Singles(rs)).value, done + RangesOf(rs))
    decreases |rs|
  {
    if rs == [] {
      assert done + RangesOf(rs) == done;
    } else {
      var q := rs[0];
      assert done + {q} <= done + RangesOf(rs);
      AlonePatch(d, e, done, q);
      SingleEntry(e, q);
      assert Singles(rs)[1..] == Singles(rs[1..]);
      assert done + {q} + RangesOf(rs[1..]) == done + RangesOf(rs);
      PatchFrom(d, PatchEntry(e, q).value, done + {q}, rs[1..]);
    }
  }

  /** With symbols that are aliases of each other or do not meet, the patched
      image shows every symbol as if it alone had been patched. */
  lemma PatchedIndependently(d: seq<Byte>, rs: seq<Range>)
    requires AliasedOrApart(RangesOf(rs)) && forall r <- rs :: WindowEnd(r) <= |d|
    ensures PatchAll(d, Singles(rs)).Some? && EachAlone(d, PatchAll(d, Singles(rs)).value, RangesOf(rs))
  {
    assert {} + RangesOf(rs) == RangesOf(rs);
    PatchFrom(d, d, {}, rs);
  }

  /** So neither their order nor listing a symbol's aliases again matters. */
  lemma OrderAndAliasesIrrelevant(d: seq<Byte>, rs: seq<Range>, qs: seq<Range>)
    requires AliasedOrApart(RangesOf(rs)) && RangesOf(rs) == RangesOf(qs)
    requires forall r <- rs :: WindowEnd(r) <= |d|
    ensures PatchAll(d, Singles(rs)) == PatchAll(d, Singles(qs))
  {
    PatchedIndependently(d, rs);
    assert forall r <- qs :: r in RangesOf(qs);
    PatchedIndependently(d, qs);
    var e, f := PatchAll(d, Singles(rs)).value, PatchAll(d, Singles(qs)).value;
    forall i | 0 <= i < |d|
      ensures e[i] == f[i]
    {
      if r :| r in RangesOf(rs) && In(i, r) {
        assert Agree(e, PatchEntry(d, r).value, r) && Agree(f, PatchEntry(d, r).value, r);
      }
    }
    assert e == f;
  }
}
