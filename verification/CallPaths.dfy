/** Paths in a finite call graph given as a set of (caller, callee) edges. */
module CallPaths {

  ghost predicate Walk<T>(edges: set<(T, T)>, p: seq<T>) {
    |p| > 0 && forall i :: 0 <= i < |p| - 1 ==> (p[i], p[i + 1]) in edges
  }

  /** p leads from a to b, possibly without taking an edge. */
  ghost predicate Leads<T>(edges: set<(T, T)>, p: seq<T>, a: T, b: T) {
    Walk(edges, p) && p[0] == a && p[|p| - 1] == b
  }

  ghost predicate Reachable<T(!new)>(edges: set<(T, T)>, a: T, b: T) {
    exists p :: Leads(edges, p, a, b)
  }

  /** A path of at least one edge from f to some seed. */
  ghost predicate Climbs<T>(edges: set<(T, T)>, p: seq<T>, f: T, seeds: set<T>) {
    Walk(edges, p) && |p| >= 2 && p[0] == f && p[|p| - 1] in seeds
  }

  ghost predicate CallsInto<T(!new)>(edges: set<(T, T)>, f: T, seeds: set<T>) {
    exists p :: Climbs(edges, p, f, seeds)
  }

  /** The indices of n nodes. */
  ghost function Below(n: nat): (s: set<nat>)
    ensures forall f: nat :: f in s <==> f < n
  {
    if n == 0 then {} else Below(n - 1) + {n - 1}
  }

  lemma ReachableSelf<T(!new)>(edges: set<(T, T)>, a: T)
    ensures Reachable(edges, a, a)
  {
    assert Leads(edges, [a], a, a);
  }

  lemma ReachableStep<T(!new)>(edges: set<(T, T)>, a: T, b: T, c: T)
    requires Reachable(edges, a, b) && (b, c) in edges
    ensures Reachable(edges, a, c)
  {
    var p :| Leads(edges, p, a, b);
    assert Leads(edges, p + [c], a, c);
  }

  /** A set closed under the edges contains what is reachable from a member. */
  lemma {:induction false} ClosedContains<T>(edges: set<(T, T)>, s: set<T>, p: seq<T>)
    requires Walk(edges, p) && p[0] in s
    requires forall e <- edges :: e.0 in s ==> e.1 in s
    ensures p[|p| - 1] in s
  {
    if |p| > 1 {
      assert Walk(edges, p[1..]);
      assert (p[0], p[1]) in edges;
      ClosedContains(edges, s, p[1..]);
    }
  }

  lemma CallsIntoStep<T(!new)>(edges: set<(T, T)>, f: T, g: T, seeds: set<T>)
    requires (f, g) in edges && (g in seeds || CallsInto(edges, g, seeds))
    ensures CallsInto(edges, f, seeds)
  {
    if g in seeds {
      assert Climbs(edges, [f, g], f, seeds);
    } else {
      var p :| Climbs(edges, p, g, seeds);
      assert Climbs(edges, [f] + p, f, seeds);
    }
  }

  /** A set that contains the callers of seeds and of its members contains
      everything that calls into the seeds. */
  lemma {:induction false} CallersContain<T>(edges: set<(T, T)>, seeds: set<T>, s: set<T>, p: seq<T>, f: T)
    requires Climbs(edges, p, f, seeds)
    requires forall e <- edges :: e.1 in seeds || e.1 in s ==> e.0 in s
    ensures f in s
  {
    assert (p[0], p[1]) in edges;
    if |p| > 2 {
      assert Climbs(edges, p[1..], p[1], seeds);
      CallersContain(edges, seeds, s, p[1..], p[1]);
    }
  }

  lemma CallsIntoFirstEdge<T(!new)>(edges: set<(T, T)>, f: T, seeds: set<T>)
    ensures CallsInto(edges, f, seeds) <==>
      exists g :: (f, g) in edges && (g in seeds || CallsInto(edges, g, seeds))
  {
    if p :| Climbs(edges, p, f, seeds) {
      assert (f, p[1]) in edges;
      if |p| > 2 { assert Climbs(edges, p[1..], p[1], seeds); }
    }
    if g :| (f, g) in edges && (g in seeds || CallsInto(edges, g, seeds)) {
      CallsIntoStep(edges, f, g, seeds);
    }
  }

  /** s is everything that calls into the seeds. */
  ghost predicate IsCallerClosure<T(!new)>(edges: set<(T, T)>, seeds: set<T>, s: set<T>) {
    forall f :: f in s <==> CallsInto(edges, f, seeds)
  }
}
