/** The two rules by which kernel_patch/hwfilter.py `check_fdep` decides that a
    function may be neutered, and the least patch set they define. */
module PatchRules {
  import opened ObjTables
  import opened Options

  /** Leaf rule: nothing recorded calls into the unit of p. */
  ghost predicate LeafReady(t: Tables, p: Pair, patched: set<Pair>) {
    Related(t, p.0, p.1).Blank() && IsIr(t, p.0) && !HasReferencer(t, p.0, p.1, patched)
  }

  /** Caller rule: all recorded callers of the key have IR and are patched. */
  ghost predicate CallersReady(t: Tables, k: SymMod, patched: set<Pair>) {
    && IsIr(t, k.1)
    && (forall c <- Callers(t, k.0) :: IsIr(t, c.1) && Flip(c) in patched)
    && !HasReferencer(t, k.1, k.0, patched)
  }

  ghost predicate KeyOf(t: Tables, p: Pair, k: SymMod) {
    Related(t, p.0, p.1).Found? && k in Related(t, p.0, p.1).table
  }

  /** The check-list pair p lets q be added to the patch set. */
  ghost predicate Derives(t: Tables, p: Pair, q: Pair, patched: set<Pair>) {
    (q == p && LeafReady(t, p, patched)) || (KeyOf(t, p, Flip(q)) && CallersReady(t, Flip(q), patched))
  }

  ghost predicate Enabled(t: Tables, list: set<Pair>, q: Pair, patched: set<Pair>) {
    exists p <- list :: Derives(t, p, q, patched)
  }

  ghost predicate Closed(t: Tables, list: set<Pair>, patched: set<Pair>) {
    forall q :: Enabled(t, list, q, patched) ==> q in patched
  }

  ghost predicate ClosedAbove(t: Tables, list: set<Pair>, seed: set<Pair>, patched: set<Pair>) {
    seed <= patched && Closed(t, list, patched)
  }

  /** The least set that contains the seed and is closed under the rules. */
  ghost predicate IsLeast(t: Tables, list: set<Pair>, seed: set<Pair>, patched: set<Pair>) {
    ClosedAbove(t, list, seed, patched) &&
    forall other :: ClosedAbove(t, list, seed, other) ==> patched <= other
  }

  function RelatedKeys(t: Tables, p: Pair): set<SymMod> {
    if Related(t, p.0, p.1).Found? then Related(t, p.0, p.1).table.Keys else {}
  }

  /** Every pair some rule could ever add. */
  ghost function Addable(t: Tables, list: set<Pair>): set<Pair> {
    list + set p, k | p in list && k in RelatedKeys(t, p) :: Flip(k)
  }

  lemma EnabledIsAddable(t: Tables, list: set<Pair>, q: Pair, patched: set<Pair>)
    requires Enabled(t, list, q, patched)
    ensures q in Addable(t, list)
  {
    var p :| p in list && Derives(t, p, q, patched);
    if q != p || !LeafReady(t, p, patched) {
      assert Flip(Flip(q)) == q;
      assert Flip(q) in RelatedKeys(t, p);
    }
  }

  lemma EnabledMonotone(t: Tables, list: set<Pair>, more: set<Pair>, q: Pair, patched: set<Pair>, bigger: set<Pair>)
    requires Enabled(t, list, q, patched) && patched <= bigger && list <= more
    ensures Enabled(t, more, q, bigger)
  {
    var p :| p in list && Derives(t, p, q, patched);
    assert Derives(t, p, q, bigger);
  }

  /** On given tables the result does not depend on the order of iteration. */
  lemma LeastIsUnique(t: Tables, list: set<Pair>, seed: set<Pair>, a: set<Pair>, b: set<Pair>)
    requires IsLeast(t, list, seed, a) && IsLeast(t, list, seed, b)
    ensures a == b
  {
    assert a <= b && b <= a;
  }

  /** More seeds or a longer check list never patch less. */
  lemma LeastIsMonotone(t: Tables, list: set<Pair>, list': set<Pair>, seed: set<Pair>, seed': set<Pair>,
                        a: set<Pair>, b: set<Pair>)
    requires list <= list' && seed <= seed'
    requires IsLeast(t, list, seed, a) && IsLeast(t, list', seed', b)
    ensures a <= b
  {
    forall q | Enabled(t, list, q, b) ensures q in b {
      EnabledMonotone(t, list, list', q, b, b);
    }
    assert ClosedAbove(t, list, seed, b);
  }

  /** Running again on the result adds nothing. */
  lemma LeastIsIdempotent(t: Tables, list: set<Pair>, seed: set<Pair>, a: set<Pair>)
    requires IsLeast(t, list, seed, a)
    ensures IsLeast(t, list, a, a)
  {
  }

  /** Only seeds and addable pairs are ever patched. */
  lemma LeastIsBounded(t: Tables, list: set<Pair>, seed: set<Pair>, a: set<Pair>)
    requires IsLeast(t, list, seed, a)
    ensures a <= seed + Addable(t, list)
  {
    var all := seed + Addable(t, list);
    forall q | Enabled(t, list, q, all) ensures q in all {
      EnabledIsAddable(t, list, q, all);
    }
    assert ClosedAbove(t, list, seed, all);
  }

  /** A justification: every pair of the sequence is enabled by the seed and
      the pairs before it. */
  ghost predicate Justified(t: Tables, list: set<Pair>, seed: set<Pair>, order: seq<Pair>) {
    forall i :: 0 <= i < |order| ==>
      order[i] !in seed && order[i] !in order[..i] && Enabled(t, list, order[i], seed + Elements(order[..i]))
  }

  function Elements(order: seq<Pair>): set<Pair> { set p | p in order }

  lemma JustifiedExtends(t: Tables, list: set<Pair>, seed: set<Pair>, order: seq<Pair>, q: Pair)
    requires Justified(t, list, seed, order) && q !in seed && q !in order
    requires Enabled(t, list, q, seed + Elements(order))
    ensures Justified(t, list, seed, order + [q])
    ensures Elements(order + [q]) == Elements(order) + {q}
  {
    var longer := order + [q];
    forall i | 0 <= i < |longer|
      ensures longer[i] !in seed && longer[i] !in longer[..i]
        && Enabled(t, list, longer[i], seed + Elements(longer[..i]))
    {
      assert longer[..i] == order[..i];
      if i == |order| { assert order[..i] == order; } else { assert longer[i] == order[i]; }
    }
  }

  /** What has a justification lies in every closed set above the seed. */
  lemma {:induction false} JustifiedIsForced(t: Tables, list: set<Pair>, seed: set<Pair>, order: seq<Pair>,
                                             other: set<Pair>)
    requires Justified(t, list, seed, order) && ClosedAbove(t, list, seed, other)
    ensures Elements(order) <= other
  {
    if order != [] {
      var n := |order| - 1;
      assert forall i :: 0 <= i < n ==> order[..n][..i] == order[..i];
      JustifiedIsForced(t, list, seed, order[..n], other);
      EnabledMonotone(t, list, list, order[n], seed + Elements(order[..n]), other);
      assert order == order[..n] + [order[n]];
    }
  }

  /** A justification that nothing extends reaches the least set. */
  lemma JustifiedIsLeast(t: Tables, list: set<Pair>, seed: set<Pair>, order: seq<Pair>)
    requires Justified(t, list, seed, order) && Closed(t, list, seed + Elements(order))
    ensures IsLeast(t, list, seed, seed + Elements(order))
  {
    forall other | ClosedAbove(t, list, seed, other) ensures seed + Elements(order) <= other {
      JustifiedIsForced(t, list, seed, order, other);
    }
  }

  lemma LeastExists(t: Tables, list: set<Pair>, seed: set<Pair>)
    ensures exists patched :: IsLeast(t, list, seed, patched)
  {
    var order := Exhaust(t, list, seed, []);
    JustifiedIsLeast(t, list, seed, order);
  }

  /** Decisions are never circular: the least set has an order of addition in
      which every non-seed pair is enabled by earlier ones alone. */
  lemma LeastIsJustified(t: Tables, list: set<Pair>, seed: set<Pair>, patched: set<Pair>) returns (order: seq<Pair>)
    requires IsLeast(t, list, seed, patched)
    ensures Justified(t, list, seed, order) && patched == seed + Elements(order)
  {
    order := Exhaust(t, list, seed, []);
    JustifiedIsLeast(t, list, seed, order);
    LeastIsUnique(t, list, seed, patched, seed + Elements(order));
  }

  lemma {:induction false} Exhaust(t: Tables, list: set<Pair>, seed: set<Pair>, start: seq<Pair>)
    returns (order: seq<Pair>)
    requires Justified(t, list, seed, start)
    ensures Justified(t, list, seed, order) && Closed(t, list, seed + Elements(order))
    decreases Addable(t, list) - Elements(start)
  {
    if q :| Enabled(t, list, q, seed + Elements(start)) && q !in seed + Elements(start) {
      JustifiedExtends(t, list, seed, start, q);
      EnabledIsAddable(t, list, q, seed + Elements(start));
      order := Exhaust(t, list, seed, start + [q]);
    } else {
      order := start;
    }
  }

  /** q has IR and no outstanding referencer. */
  ghost predicate Loose(t: Tables, q: Pair, patched: set<Pair>) {
    IsIr(t, q.0) && !HasReferencer(t, q.0, q.1, patched)
  }

  /** q is on the check list though its module does not define its symbol: the
      leaf rule takes it whatever calls the symbol. */
  ghost predicate IsUndefined(t: Tables, list: set<Pair>, q: Pair, patched: set<Pair>) {
    q in list && Related(t, q.0, q.1).Undefined? && Loose(t, q, patched)
  }

  /** q is on the check list and no exported symbol of its unit has callers. */
  ghost predicate IsUncalled(t: Tables, list: set<Pair>, q: Pair, patched: set<Pair>) {
    q in list && Related(t, q.0, q.1) == Found(map[]) && Loose(t, q, patched)
  }

  /** All recorded callers of q have IR, are patched and rank below q. */
  ghost predicate CallersRankLower(t: Tables, q: Pair, patched: set<Pair>, rank: map<Pair, nat>)
    requires rank.Keys == patched && q in patched
  {
    && Loose(t, q, patched)
    && forall c <- Callers(t, q.1) :: IsIr(t, c.1) && Flip(c) in patched && rank[Flip(c)] < rank[q]
  }

  ghost predicate Ranked(t: Tables, list: set<Pair>, seed: set<Pair>, patched: set<Pair>, rank: map<Pair, nat>) {
    rank.Keys == patched &&
    forall q <- patched ::
      || q in seed || IsUndefined(t, list, q, patched) || IsUncalled(t, list, q, patched)
      || CallersRankLower(t, q, patched, rank)
  }

  /** The ranking read off the order of addition. */
  lemma LeastIsRanked(t: Tables, list: set<Pair>, seed: set<Pair>, patched: set<Pair>) returns (rank: map<Pair, nat>)
    requires IsLeast(t, list, seed, patched)
    ensures Ranked(t, list, seed, patched, rank)
  {
    var order := LeastIsJustified(t, list, seed, patched);
    rank := map q | q in patched :: RankIn(order, q);
    forall q | q in patched && q !in seed && !IsUndefined(t, list, q, patched) && !IsUncalled(t, list, q, patched)
      ensures CallersRankLower(t, q, patched, rank)
    {
      var i :| 0 <= i < |order| && order[i] == q;
      RankOne(t, list, seed, order, i, patched, rank);
    }
  }

  lemma RankOne(t: Tables, list: set<Pair>, seed: set<Pair>, order: seq<Pair>, i: nat, patched: set<Pair>,
                rank: map<Pair, nat>)
    requires Justified(t, list, seed, order) && patched == seed + Elements(order) && i < |order|
    requires rank == map q | q in patched :: RankIn(order, q)
    requires order[i] in patched
    requires !IsUndefined(t, list, order[i], patched) && !IsUncalled(t, list, order[i], patched)
    ensures CallersRankLower(t, order[i], patched, rank)
  {
    var q := order[i];
    var p :| p in list && Derives(t, p, q, seed + Elements(order[..i]));
    assert CallersReady(t, Flip(q), seed + Elements(order[..i]));
    RankIs(order, i);
    forall c | c in Callers(t, q.1)
      ensures IsIr(t, c.1) && Flip(c) in patched && rank[Flip(c)] < rank[q]
    {
      RankEarlier(order, i, Flip(c), seed);
    }
  }

  /** One more than the position of q in the order, 0 for seeds. */
  ghost function RankIn(order: seq<Pair>, q: Pair): nat {
    if order == [] then 0 else if order[|order| - 1] == q then |order| else RankIn(order[..|order| - 1], q)
  }

  lemma {:induction false} RankIs(order: seq<Pair>, i: nat)
    requires i < |order| && forall j :: 0 <= j < |order| ==> order[j] !in order[..j]
    ensures RankIn(order, order[i]) == i + 1
  {
    var n := |order| - 1;
    if i < n {
      assert order[i] in order[..n];
      assert forall j :: 0 <= j < n ==> order[..n][..j] == order[..j];
      RankIs(order[..n], i);
    }
  }

  lemma {:induction false} RankAbsent(order: seq<Pair>, q: Pair)
    requires q !in order
    ensures RankIn(order, q) == 0
  {
    if order != [] { RankAbsent(order[..|order| - 1], q); }
  }

  lemma RankEarlier(order: seq<Pair>, i: nat, q: Pair, seed: set<Pair>)
    requires i < |order| && forall j :: 0 <= j < |order| ==> order[j] !in order[..j]
    requires q in seed + Elements(order[..i]) && forall s <- seed :: s !in order
    ensures RankIn(order, q) <= i
  {
    if q in seed {
      RankAbsent(order, q);
    } else {
      var j :| 0 <= j < i && order[..i][j] == q;
      RankIs(order, j);
    }
  }

  /** What is related to a defined symbol names the symbol, if it has callers. */
  lemma CalledIsRelated(t: Tables, m: Name, s: Name)
    requires Inverse(t) && Related(t, m, s).Found? && At(t.callers, s) != {}
    ensures (s, Driver(t.drivers, m)) in Related(t, m, s).table
  {
    var k := (s, Driver(t.drivers, m));
    assert s in At(t.exports, m) && k in CalledOf(t, m, At(t.exports, m));
    assert k in Called(t, Unit(t, m));
  }

  lemma UncalledHasNoCallers(t: Tables, m: Name, s: Name)
    requires Inverse(t) && Related(t, m, s) == Found(map[])
    ensures Callers(t, s) == {}
  {
    if At(t.callers, s) != {} { CalledIsRelated(t, m, s); }
  }

  /** An undefined pair of the check list is patched if it has IR and no
      outstanding referencer, whatever calls its symbol. */
  lemma UndefinedIsPatched(t: Tables, list: set<Pair>, seed: set<Pair>, patched: set<Pair>, q: Pair)
    requires IsLeast(t, list, seed, patched) && IsUndefined(t, list, q, patched)
    ensures q in patched
  {
    assert Derives(t, q, q, patched) && Enabled(t, list, q, patched);
  }

  /** Whatever is patched, neither a seed nor undefined in its module, has only
      patched callers. */
  lemma CallersArePatched(t: Tables, list: set<Pair>, seed: set<Pair>, patched: set<Pair>, q: Pair, c: SymMod)
    requires Inverse(t) && IsLeast(t, list, seed, patched)
    requires q in patched && q !in seed && !IsUndefined(t, list, q, patched) && c in Callers(t, q.1)
    ensures Flip(c) in patched && IsIr(t, c.1)
  {
    var rank := LeastIsRanked(t, list, seed, patched);
    if IsUncalled(t, list, q, patched) { UncalledHasNoCallers(t, q.0, q.1); }
  }

  /** Every cycle of recorded callers inside the result passes through a seed, a
      pair undefined in its module or one with nothing related; the last has no
      callers when the two symbol tables are inverse, and cannot be on a cycle. */
  lemma CycleHasGround(t: Tables, list: set<Pair>, seed: set<Pair>, patched: set<Pair>, cycle: seq<Pair>)
    requires IsLeast(t, list, seed, patched)
    requires |cycle| > 0 && forall q <- cycle :: q in patched
    requires forall i :: 0 <= i < |cycle| ==> Flip(cycle[(i + 1) % |cycle|]) in Callers(t, cycle[i].1)
    ensures exists q <- cycle :: q in seed || IsUndefined(t, list, q, patched) || IsUncalled(t, list, q, patched)
    ensures Inverse(t) ==> exists q <- cycle :: q in seed || IsUndefined(t, list, q, patched)
  {
    var rank := LeastIsRanked(t, list, seed, patched);
    var low := Lowest(cycle, rank);
    var (q, next) := (cycle[low], cycle[(low + 1) % |cycle|]);
    assert Flip(next) in Callers(t, q.1) && Flip(Flip(next)) == next && rank[q] <= rank[next];
    assert !CallersRankLower(t, q, patched, rank);
    if Inverse(t) && IsUncalled(t, list, q, patched) { UncalledHasNoCallers(t, q.0, q.1); }
  }

  lemma {:induction false} Lowest(cycle: seq<Pair>, rank: map<Pair, nat>) returns (low: nat)
    requires |cycle| > 0 && forall q <- cycle :: q in rank
    ensures low < |cycle| && forall i :: 0 <= i < |cycle| ==> rank[cycle[low]] <= rank[cycle[i]]
  {
    low := 0;
    for n := 1 to |cycle|
      invariant low < |cycle| && forall i :: 0 <= i < n ==> rank[cycle[low]] <= rank[cycle[i]]
    {
      if rank[cycle[n]] < rank[cycle[low]] { low := n; }
    }
  }
}
