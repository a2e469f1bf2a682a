/** Sets of bytes kept as a map from start to length, and their merging
    (kernel_patch/disasm.py). */
module Intervals {

  predicate Positive(m: map<nat, nat>) {
    forall o <- m :: 0 < m[o]
  }

  predicate Covers(m: map<nat, nat>, b: nat) {
    exists o <- m :: o <= b < o + m[o]
  }

  predicate Disjoint(m: map<nat, nat>) {
    forall o, p :: o in m && p in m && o < p ==> o + m[o] <= p
  }

  /** Every interval is maximal: none touches the next. */
  predicate Separated(m: map<nat, nat>) {
    forall o, p :: o in m && p in m && o < p ==> o + m[o] < p
  }

  ghost predicate SameCover(m: map<nat, nat>, k: map<nat, nat>) {
    forall b: nat :: Covers(m, b) <==> Covers(k, b)
  }

  lemma NotInside(m: map<nat, nat>, o: nat, b: nat)
    requires Separated(m) && Positive(m) && o in m && (b + 1 == o || b == o + m[o])
    ensures !Covers(m, b)
  {
    if p :| p in m && p <= b < p + m[p] {
      assert false;
    }
  }

  lemma StartsAgree(m: map<nat, nat>, k: map<nat, nat>, o: nat)
    requires Positive(m) && Positive(k) && Separated(m) && Separated(k) && SameCover(m, k)
    requires o in m
    ensures o in k && m[o] <= k[o]
  {
    assert Covers(m, o);
    var p :| p in k && p <= o < p + k[p];
    if p < o {
      assert Covers(k, o - 1);
      NotInside(m, o, o - 1);
      assert false;
    }
    if k[o] < m[o] {
      assert Covers(m, o + k[o]);
      NotInside(k, o, o + k[o]);
      assert false;
    }
  }

  /** The separated form of a set of bytes is unique. */
  lemma SeparatedIsCanonical(m: map<nat, nat>, k: map<nat, nat>)
    requires Positive(m) && Positive(k) && Separated(m) && Separated(k) && SameCover(m, k)
    ensures m == k
  {
    forall o | o in m || o in k
      ensures o in m && o in k && m[o] == k[o]
    {
      if o in m { StartsAgree(m, k, o); StartsAgree(k, m, o); } else { StartsAgree(k, m, o); }
    }
  }

  predicate Ascending(q: seq<nat>) {
    forall i, j :: 0 <= i < j < |q| ==> q[i] < q[j]
  }

  method Least(s: set<nat>) returns (m: nat)
    requires s != {}
    ensures m in s && forall x: nat :: x in s ==> m <= x
  {
    m :| m in s;
    var rest := s - {m};
    while rest != {}
      invariant rest <= s && m in s
      invariant forall x: nat :: x in s ==> x in rest || m <= x
      decreases rest
    {
      var x :| x in rest;
      if x < m { m := x; }
      rest := rest - {x};
    }
  }

  method SortedKeys(s: set<nat>) returns (q: seq<nat>)
    ensures Ascending(q)
    ensures forall x: nat :: x in q <==> x in s
  {
    q := [];
    var rest := s;
    while rest != {}
      invariant rest <= s && Ascending(q)
      invariant forall x: nat :: x in s <==> x in q || x in rest
      invariant forall i, y: nat :: 0 <= i < |q| && y in rest ==> q[i] < y
      decreases rest
    {
      var x := Least(rest);
      q := q + [x];
      rest := rest - {x};
    }
  }

  predicate CoversAmong(m: map<nat, nat>, keys: set<nat>, b: nat) {
    exists o <- keys :: o in m && o <= b < o + m[o]
  }

  /** What holds once the starts `done` have been merged, all smaller than the
      others: `prev` is the start of the last interval and `nxt` its end. */
  ghost predicate Merging(ranges: map<nat, nat>, done: set<nat>, merged: map<nat, nat>, prev: nat, nxt: nat) {
    && Positive(merged) && Separated(merged)
    && (done == {} ==> nxt == 0 && merged == map[])
    && (done != {} ==> nxt > 0 && prev in merged && nxt == prev + merged[prev])
    && (forall o: nat :: o in merged ==> o <= prev)
    && (forall o: nat :: o in done && o in ranges ==> o + ranges[o] <= nxt)
    && (done != {} ==> exists o: nat :: o in done && o in ranges && nxt == o + ranges[o])
  }

  ghost predicate CoverDone(ranges: map<nat, nat>, done: set<nat>, merged: map<nat, nat>) {
    forall b: nat :: Covers(merged, b) <==> CoversAmong(ranges, done, b)
  }

  function Glued(merged: map<nat, nat>, prev: nat, nxt: nat, o: nat, l: nat): map<nat, nat>
    requires nxt != 0 ==> prev in merged
  {
    if nxt != 0 && o == nxt then merged[prev := merged[prev] + l] else merged[o := l]
  }

  lemma GluedShape(ranges: map<nat, nat>, done: set<nat>, merged: map<nat, nat>, prev: nat, nxt: nat, o: nat)
    requires Positive(ranges) && Disjoint(ranges) && o in ranges && done <= ranges.Keys
    requires Merging(ranges, done, merged, prev, nxt) && forall p <- done :: p < o
    ensures var next := Glued(merged, prev, nxt, o, ranges[o]);
      Merging(ranges, done + {o}, next, if nxt != 0 && o == nxt then prev else o, o + ranges[o])
  {
    assert nxt <= o;
    assert o in done + {o};
  }

  lemma GluedCover(merged: map<nat, nat>, prev: nat, nxt: nat, o: nat, l: nat, b: nat)
    requires nxt != 0 ==> prev in merged && nxt == prev + merged[prev]
    requires o !in merged && l > 0
    ensures Covers(Glued(merged, prev, nxt, o, l), b) <==> Covers(merged, b) || o <= b < o + l
  {
    var next := Glued(merged, prev, nxt, o, l);
    if p :| p in merged && p <= b < p + merged[p] { assert p in next && p <= b < p + next[p]; }
    if o <= b < o + l {
      var p := if nxt != 0 && o == nxt then prev else o;
      assert p in next && p <= b < p + next[p];
    }
    if p :| p in next && p <= b < p + next[p] {
      if p in merged && b < p + merged[p] { assert Covers(merged, b); }
    }
  }

  lemma GluedCovers(ranges: map<nat, nat>, done: set<nat>, merged: map<nat, nat>, prev: nat, nxt: nat, o: nat)
    requires nxt != 0 ==> prev in merged && nxt == prev + merged[prev]
    requires o in ranges && o !in merged && ranges[o] > 0 && CoverDone(ranges, done, merged)
    ensures CoverDone(ranges, done + {o}, Glued(merged, prev, nxt, o, ranges[o]))
  {
    forall b: nat
      ensures Covers(Glued(merged, prev, nxt, o, ranges[o]), b) <==> CoversAmong(ranges, done + {o}, b)
    {
      GluedCover(merged, prev, nxt, o, ranges[o], b);
      if p :| p in done && p in ranges && p <= b < p + ranges[p] { assert p in done + {o}; }
      if o <= b < o + ranges[o] { assert o in done + {o}; }
    }
  }

  function Members(q: seq<nat>, i: nat): (s: set<nat>)
    requires i <= |q|
    ensures forall x: nat :: x in s <==> exists j: nat :: j < i && q[j] == x
  {
    set j: nat | j < i :: q[j]
  }

  ghost predicate MergedUpTo(ranges: map<nat, nat>, q: seq<nat>, i: nat, merged: map<nat, nat>, prev: nat, nxt: nat) {
    && i <= |q|
    && (nxt != 0 ==> prev in merged && nxt == prev + merged[prev])
    && Merging(ranges, Members(q, i), merged, prev, nxt) && CoverDone(ranges, Members(q, i), merged)
  }

  ghost predicate SortsKeys(q: seq<nat>, ranges: map<nat, nat>) {
    Ascending(q) && forall x: nat :: x in q <==> x in ranges
  }

  lemma MergeStep(ranges: map<nat, nat>, q: seq<nat>, i: nat, merged: map<nat, nat>, prev: nat, nxt: nat)
    requires Positive(ranges) && Disjoint(ranges) && SortsKeys(q, ranges)
    requires MergedUpTo(ranges, q, i, merged, prev, nxt) && i < |q|
    ensures q[i] in ranges
    ensures MergedUpTo(ranges, q, i + 1, Glued(merged, prev, nxt, q[i], ranges[q[i]]),
                       if nxt != 0 && q[i] == nxt then prev else q[i], q[i] + ranges[q[i]])
  {
    var o, done := q[i], Members(q, i);
    assert o in q;
    assert Members(q, i + 1) == done + {o};
    forall p | p in done
      ensures p in ranges && p < o
    {
      var j: nat :| j < i && q[j] == p;
      assert p in q;
    }
    GluedShape(ranges, done, merged, prev, nxt, o);
    assert o !in merged by { assert nxt <= o; }
    GluedCovers(ranges, done, merged, prev, nxt, o);
  }

  lemma MergeStart(ranges: map<nat, nat>, q: seq<nat>)
    ensures MergedUpTo(ranges, q, 0, map[], 0, 0)
  {
    assert Members(q, 0) == {};
  }

  lemma MergeEnd(ranges: map<nat, nat>, q: seq<nat>, merged: map<nat, nat>, prev: nat, nxt: nat)
    requires SortsKeys(q, ranges) && MergedUpTo(ranges, q, |q|, merged, prev, nxt)
    ensures Positive(merged) && Separated(merged) && SameCover(merged, ranges)
  {
    var done := Members(q, |q|);
    forall b: nat
      ensures CoversAmong(ranges, done, b) <==> Covers(ranges, b)
    {
      if o :| o in ranges && o <= b < o + ranges[o] { assert o in q; assert o in done; }
    }
  }

  /** Glues every interval that starts where the one before it ends. `nxt` is 0
      for the source's None, which its test does not tell from 0. */
  method Merge(ranges: map<nat, nat>) returns (merged: map<nat, nat>)
    requires Positive(ranges) && Disjoint(ranges)
    ensures Positive(merged) && Separated(merged)
    ensures SameCover(merged, ranges)
  {
    merged := map[];
    var prev, nxt := 0, 0;
    var q := SortedKeys(ranges.Keys);
    MergeStart(ranges, q);
    for i := 0 to |q|
      invariant MergedUpTo(ranges, q, i, merged, prev, nxt)
    {
      MergeStep(ranges, q, i, merged, prev, nxt);
      var o := q[i];
      var l := ranges[o];
      if nxt == 0 {
        merged, nxt, prev := merged[o := l], o + l, o;
      } else if o == nxt {
        merged := merged[prev := merged[prev] + l];
        nxt := nxt + l;
      } else {
        merged, nxt, prev := merged[o := l], o + l, o;
      }
    }
    MergeEnd(ranges, q, merged, prev, nxt);
  }
}
