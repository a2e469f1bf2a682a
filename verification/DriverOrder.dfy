/** `related` (dependency/gen_objdep.py:265-269) lets an object's callers appear
    under the first member of a Python set of drivers. What of the patch set
    depends on the order of these sets. */
module DriverOrder {
  import opened ObjTables
  import opened Options
  import opened ObjFacts
  import opened ObjBuild
  import opened PatchRules
  import opened CheckFdep

  /** Two tables that differ only in the order of the driver sets. */
  ghost predicate OrderOnly(t: Tables, t': Tables) {
    && t'.(drivers := t.drivers, refs := t.refs) == t
    && Reordered(t.drivers, t'.drivers)
    && forall m, s, p :: HasReferencer(t, m, s, p) <==> HasReferencer(t', m, s, p)
  }

  lemma BuiltOrderOnly(files: seq<ObjFile>, files': seq<ObjFile>, t: Tables, t': Tables)
    requires forall f :: f in files <==> f in files'
    requires TablesHold(t, FilesFacts(files)) && TablesHold(t', FilesFacts(files')) && t'.revdeps == t.revdeps
    ensures OrderOnly(t, t')
  {
    TablesIgnoreOrder(files, files', t, t');
  }

  /** The names under which m's functions may appear. */
  function Names(drivers: map<Name, seq<Name>>, m: Name): set<Name> {
    if m in drivers && drivers[m] != [] then set k | k in drivers[m] else {m}
  }

  /** The callers of a symbol, under every name they may have. */
  function Possible(drivers: map<Name, seq<Name>>, cs: set<SymMod>): set<SymMod> {
    set c, k | c in cs && k in Names(drivers, c.1) :: (c.0, k)
  }

  /** Some caller of the name f can have no other module name than k. */
  ghost predicate OnlyAs(drivers: map<Name, seq<Name>>, cs: set<SymMod>, f: Name, k: Name) {
    exists c <- cs :: c.0 == f && Names(drivers, c.1) == {k}
  }

  /** Every name a caller may have is one that some caller must have. */
  ghost predicate Determined(drivers: map<Name, seq<Name>>, cs: set<SymMod>) {
    forall p <- Possible(drivers, cs) :: OnlyAs(drivers, cs, p.0, p.1)
  }

  /** Whatever the order of the driver sets, the same callers are named. */
  ghost predicate AnyOrder(drivers: map<Name, seq<Name>>, cs: set<SymMod>) {
    forall drivers' :: Reordered(drivers, drivers') ==> Renamed(drivers', cs) == Renamed(drivers, cs)
  }

  lemma DeterminedCallers(drivers: map<Name, seq<Name>>, drivers': map<Name, seq<Name>>, cs: set<SymMod>)
    requires Reordered(drivers, drivers') && Determined(drivers, cs)
    ensures Renamed(drivers', cs) == Possible(drivers, cs)
  {
    forall p | p in Possible(drivers, cs)
      ensures p in Renamed(drivers', cs)
    {
      assert OnlyAs(drivers, cs, p.0, p.1);
      var c :| c in cs && c.0 == p.0 && Names(drivers, c.1) == {p.1};
      assert Driver(drivers', c.1) in Names(drivers, c.1);
      assert (c.0, Driver(drivers', c.1)) in Renamed(drivers', cs);
    }
    forall p | p in Renamed(drivers', cs)
      ensures p in Possible(drivers, cs)
    {
      var c :| c in cs && p == (c.0, Driver(drivers', c.1));
      assert Driver(drivers', c.1) in Names(drivers, c.1);
    }
  }

  function Rotate(s: seq<Name>, i: nat): seq<Name>
    requires i <= |s|
  {
    s[i..] + s[..i]
  }

  lemma RotateKeeps(s: seq<Name>, i: nat)
    requires i <= |s| && NoTwice(s)
    ensures NoTwice(Rotate(s, i)) && forall k :: k in Rotate(s, i) <==> k in s
  {
    forall k | k in s
      ensures k in Rotate(s, i)
    {
      var j :| 0 <= j < |s| && s[j] == k;
      assert Rotate(s, i)[if j < i then |s| - i + j else j - i] == k;
    }
  }

  /** The set s with k first, if k is in it. */
  ghost function Leading(s: seq<Name>, k: Name): (r: seq<Name>)
    ensures NoTwice(s) ==> NoTwice(r) && forall x :: x in r <==> x in s
    ensures NoTwice(s) && k in s ==> r != [] && r[0] == k
  {
    if i: nat :| i < |s| && s[i] == k then
      if NoTwice(s) then RotateKeeps(s, i); Rotate(s, i) else s
    else s
  }

  /** The set s with something other than k first, if it has anything else. */
  ghost function Trailing(s: seq<Name>, k: Name): (r: seq<Name>)
    ensures NoTwice(s) ==> NoTwice(r) && forall x :: x in r <==> x in s
    ensures NoTwice(s) && |s| > 1 ==> r != [] && r[0] != k
  {
    if |s| > 1 && s[0] == k && NoTwice(s) then RotateKeeps(s, 1); Rotate(s, 1) else s
  }

  ghost function Front(drivers: map<Name, seq<Name>>, k: Name): map<Name, seq<Name>> {
    map o | o in drivers :: Leading(drivers[o], k)
  }

  ghost function Back(drivers: map<Name, seq<Name>>, k: Name): map<Name, seq<Name>> {
    map o | o in drivers :: Trailing(drivers[o], k)
  }

  lemma OtherOrders(drivers: map<Name, seq<Name>>, k: Name)
    requires forall o <- drivers :: drivers[o] != [] && NoTwice(drivers[o])
    ensures Reordered(drivers, Front(drivers, k)) && Reordered(drivers, Back(drivers, k))
  {
    forall o | o in drivers
      ensures Leading(drivers[o], k) != [] && Trailing(drivers[o], k) != []
    {
      assert drivers[o][0] in Leading(drivers[o], k) && drivers[o][0] in Trailing(drivers[o], k);
    }
  }

  lemma NamedFirst(drivers: map<Name, seq<Name>>, cs: set<SymMod>, p: SymMod)
    requires forall o <- drivers :: drivers[o] != [] && NoTwice(drivers[o])
    requires p in Possible(drivers, cs)
    ensures p in Renamed(Front(drivers, p.1), cs)
  {
    var front := Front(drivers, p.1);
    var c :| c in cs && c.0 == p.0 && p.1 in Names(drivers, c.1);
    assert Driver(front, c.1) == p.1;
    assert (c.0, Driver(front, c.1)) in Renamed(front, cs);
  }

  lemma NotNamedLast(drivers: map<Name, seq<Name>>, cs: set<SymMod>, p: SymMod)
    requires forall o <- drivers :: drivers[o] != [] && NoTwice(drivers[o])
    requires !OnlyAs(drivers, cs, p.0, p.1)
    ensures p !in Renamed(Back(drivers, p.1), cs)
  {
    var back := Back(drivers, p.1);
    forall c | c in cs && c.0 == p.0
      ensures Driver(back, c.1) != p.1
    {
      assert Names(drivers, c.1) != {p.1};
      if c.1 in drivers && |drivers[c.1]| == 1 { assert Names(drivers, c.1) == {drivers[c.1][0]}; }
    }
  }

  /** The callers that `related` names do not depend on the order of the driver
      sets exactly if they are determined. */
  lemma CallersAgreeIff(drivers: map<Name, seq<Name>>, cs: set<SymMod>)
    requires forall o <- drivers :: drivers[o] != [] && NoTwice(drivers[o])
    ensures AnyOrder(drivers, cs) <==> Determined(drivers, cs)
  {
    if Determined(drivers, cs) {
      forall drivers' | Reordered(drivers, drivers')
        ensures Renamed(drivers', cs) == Renamed(drivers, cs)
      {
        DeterminedCallers(drivers, drivers', cs);
        DeterminedCallers(drivers, drivers, cs);
      }
    } else {
      var p := OrderMatters(drivers, cs);
    }
  }

  /** Otherwise there is a caller that one order names and another does not. */
  lemma OrderMatters(drivers: map<Name, seq<Name>>, cs: set<SymMod>) returns (p: SymMod)
    requires forall o <- drivers :: drivers[o] != [] && NoTwice(drivers[o])
    requires !Determined(drivers, cs)
    ensures Reordered(drivers, Front(drivers, p.1)) && p in Renamed(Front(drivers, p.1), cs)
    ensures Reordered(drivers, Back(drivers, p.1)) && p !in Renamed(Back(drivers, p.1), cs)
  {
    p :| p in Possible(drivers, cs) && !OnlyAs(drivers, cs, p.0, p.1);
    OtherOrders(drivers, p.1);
    NamedFirst(drivers, cs, p);
    NotNamedLast(drivers, cs, p);
  }

  /** No recorded caller's object belongs to two drivers. */
  ghost predicate SingleDrivers(drivers: map<Name, seq<Name>>, cs: set<SymMod>) {
    forall c <- cs :: c.1 in drivers ==> |drivers[c.1]| == 1
  }

  lemma SingleIsDetermined(drivers: map<Name, seq<Name>>, cs: set<SymMod>)
    requires SingleDrivers(drivers, cs)
    ensures Determined(drivers, cs)
  {
    forall p | p in Possible(drivers, cs)
      ensures OnlyAs(drivers, cs, p.0, p.1)
    {
      var c :| c in cs && c.0 == p.0 && p.1 in Names(drivers, c.1);
      assert Names(drivers, c.1) == {p.1};
    }
  }

  /** A caller in two drivers does no harm if functions of its name call from
      each of the drivers alone. */
  lemma SharedNameSettles(f: Name, m: Name, m1: Name, m2: Name, a: Name, b: Name)
    requires a != b && m != m1 && m != m2 && m1 != m2
    ensures var (drivers, cs) := (map[m := [a, b], m1 := [a], m2 := [b]], {(f, m), (f, m1), (f, m2)});
      Determined(drivers, cs) && !SingleDrivers(drivers, cs)
  {
    var (drivers, cs) := (map[m := [a, b], m1 := [a], m2 := [b]], {(f, m), (f, m1), (f, m2)});
    assert (f, m) in cs && (f, m1) in cs && (f, m2) in cs;
    assert Names(drivers, m1) == {a} && Names(drivers, m2) == {b};
  }

  /** The callers of every symbol are determined. */
  ghost predicate AllDetermined(t: Tables) {
    forall s <- t.callers :: Determined(t.drivers, t.callers[s])
  }

  lemma SameCallers(t: Tables, t': Tables, s: Name)
    requires OrderOnly(t, t') && AllDetermined(t)
    ensures Callers(t', s) == Callers(t, s)
  {
    if s in t.callers {
      assert Determined(t.drivers, t.callers[s]);
      DeterminedCallers(t.drivers, t.drivers, t.callers[s]);
      DeterminedCallers(t.drivers, t'.drivers, t.callers[s]);
    }
  }

  /** Whether `related` asserts does not depend on the order in any case. */
  lemma SameAmbiguity(t: Tables, t': Tables, ms: set<Name>)
    requires OrderOnly(t, t')
    ensures Ambiguous(t', ms) <==> Ambiguous(t, ms)
    ensures !Ambiguous(t, ms) ==> Called(t', ms) == Called(t, ms)
  {
    SameSizes(t.drivers, t'.drivers);
    assert t'.exports == t.exports && t'.callers == t.callers;
    if !Ambiguous(t, ms) {
      forall m | m in ms
        ensures CalledOf(t', m, At(t.exports, m)) == CalledOf(t, m, At(t.exports, m))
      {
        assert At(t.exports, m) == {} || Driver(t'.drivers, m) == Driver(t.drivers, m);
      }
    }
  }

  lemma OrderedKeys(t: Tables, t': Tables, m: Name, s: Name)
    requires OrderOnly(t, t')
    ensures Related(t', m, s).Crash? <==> Related(t, m, s).Crash?
    ensures RelatedKeys(t', (m, s)) == RelatedKeys(t, (m, s))
  {
    SameAmbiguity(t, t', Unit(t, m));
    assert Unit(t', m) == Unit(t, m) && At(t'.defs, s) == At(t.defs, s);
  }

  lemma OrderedAnswers(t: Tables, t': Tables, m: Name, s: Name)
    requires OrderOnly(t, t') && AllDetermined(t)
    ensures Related(t', m, s) == Related(t, m, s)
  {
    OrderedKeys(t, t', m, s);
    assert At(t'.defs, s) == At(t.defs, s);
    if Related(t, m, s).Found? {
      var (a, b) := (Related(t, m, s).table, Related(t', m, s).table);
      assert a.Keys == RelatedKeys(t, (m, s)) == b.Keys;
      forall k | k in a ensures b[k] == a[k] { SameCallers(t, t', k.0); }
      assert a == b;
    }
  }

  lemma SameTargets(t: Tables, t': Tables, m: Name)
    requires OrderOnly(t, t')
    ensures ImportTargets(t', m) == ImportTargets(t, m)
  {
    assert t'.imports == t.imports && t'.defs == t.defs;
  }

  lemma SameEntry(t: Tables, t': Tables, p: Pair, k: SymMod)
    requires OrderOnly(t, t') && AllDetermined(t)
    ensures EntryPairs(t', p, k) == EntryPairs(t, p, k)
  {
    SameTargets(t, t', k.1);
    SameCallers(t, t', k.0);
    assert t'.imports == t.imports;
  }

  lemma SameExpandOne(t: Tables, t': Tables, p: Pair)
    requires OrderOnly(t, t') && AllDetermined(t)
    ensures ExpandOne(t', p) == ExpandOne(t, p)
  {
    var ks := RelatedKeys(t, p);
    OrderedAnswers(t, t', p.0, p.1);
    SameTargets(t, t', p.0);
    SameCallers(t, t', p.0);
    assert EntriesPairs(t', p, ks) == EntriesPairs(t, p, ks) by {
      forall k: SymMod ensures EntryPairs(t', p, k) == EntryPairs(t, p, k) { SameEntry(t, t', p, k); }
    }
  }

  lemma SameExpanded(t: Tables, t': Tables, list: set<Pair>)
    requires OrderOnly(t, t') && AllDetermined(t)
    ensures Expanded(t', list) == Expanded(t, list)
  {
    forall p: Pair ensures ExpandOne(t', p) == ExpandOne(t, p) { SameExpandOne(t, t', p); }
  }

  lemma SameDerives(t: Tables, t': Tables, p: Pair, q: Pair, patched: set<Pair>)
    requires OrderOnly(t, t') && AllDetermined(t)
    ensures Derives(t', p, q, patched) <==> Derives(t, p, q, patched)
  {
    OrderedAnswers(t, t', p.0, p.1);
    SameCallers(t, t', q.1);
    assert t'.nonIr == t.nonIr;
    assert HasReferencer(t, p.0, p.1, patched) <==> HasReferencer(t', p.0, p.1, patched);
    assert HasReferencer(t, q.0, q.1, patched) <==> HasReferencer(t', q.0, q.1, patched);
  }

  lemma SameLeast(t: Tables, t': Tables, list: set<Pair>, seed: set<Pair>, patched: set<Pair>)
    requires OrderOnly(t, t') && AllDetermined(t)
    ensures IsLeast(t', list, seed, patched) <==> IsLeast(t, list, seed, patched)
  {
    forall q, other
      ensures Enabled(t', list, q, other) <==> Enabled(t, list, q, other)
    {
      forall p ensures Derives(t', p, q, other) <==> Derives(t, p, q, other) { SameDerives(t, t', p, q, other); }
    }
    forall other
      ensures ClosedAbove(t', list, seed, other) <==> ClosedAbove(t, list, seed, other)
    {
    }
  }

  /** Where all callers are determined, building again, with files and driver
      sets in another order, changes neither the failures nor the patch set. */
  lemma BuildsAgree(files: seq<ObjFile>, files': seq<ObjFile>, t: Tables, t': Tables, list: set<Pair>,
                    seed: set<Pair>)
    requires forall f :: f in files <==> f in files'
    requires TablesHold(t, FilesFacts(files)) && TablesHold(t', FilesFacts(files')) && t'.revdeps == t.revdeps
    requires AllDetermined(t)
    ensures SomeCrash(t', Expanded(t', list)) <==> SomeCrash(t, Expanded(t, list))
    ensures forall a, b :: IsLeast(t, Expanded(t, list), seed, a) && IsLeast(t', Expanded(t', list), seed, b) ==> a == b
  {
    BuiltOrderOnly(files, files', t, t');
    SameExpanded(t, t', list);
    var all := Expanded(t, list);
    forall p: Pair ensures Related(t', p.0, p.1) == Related(t, p.0, p.1) { OrderedAnswers(t, t', p.0, p.1); }
    forall a, b | IsLeast(t, all, seed, a) && IsLeast(t', all, seed, b)
      ensures a == b
    {
      SameLeast(t, t', all, seed, b);
      LeastIsUnique(t, all, seed, a, b);
    }
  }

  const M := Name("m.o")
  const X := Name("x.o")
  const F := Name("f")
  const G := Name("g")

  /** g of an object m in the drivers a and b, a first, calls f of x. */
  function Shared(a: Name, b: Name): Tables {
    Tables(map[], map[X := {Name("u")}], map[X := {F}, M := {G}], map[], map[F := {(G, M)}],
           map[F := {X}, G := {M}], map[M := [a, b]], map[], {})
  }

  lemma SharedTable(a: Name, b: Name)
    requires a != b && a != X && a != M
    ensures Related(Shared(a, b), X, F) == Found(map[(F, X) := {(G, a)}])
    ensures Related(Shared(a, b), a, G).Undefined?
  {
    var t := Shared(a, b);
    assert Unit(t, X) == {X} && At(t.exports, X) == {F};
    assert CalledOf(t, X, {F}) == {(F, X)};
    assert Called(t, {X}) == {(F, X)};
    assert Callers(t, F) == {(G, a)};
    assert !Ambiguous(t, {X});
  }

  lemma SharedExpanded(a: Name, b: Name)
    requires a != b && a != X && a != M
    ensures Expanded(Shared(a, b), {(X, F)}) == {(X, F), (a, G)}
  {
    var (t, p) := (Shared(a, b), (X, F));
    SharedTable(a, b);
    assert ImportTargets(t, X) == {};
    assert RelatedKeys(t, p) == {(F, X)};
    assert Flipped(Callers(t, F)) == {(a, G)};
    assert EntryPairs(t, p, (F, X)) == {(X, F), (a, G)};
    assert EntriesPairs(t, p, {(F, X)}) == {(X, F), (a, G)};
    assert ExpandOne(t, p) == {(X, F), (a, G)};
    assert ExpandAll(t, {p}) == {(X, F), (a, G)};
  }

  lemma SharedLeast(a: Name, b: Name)
    requires a != b && a != X && a != M
    ensures IsLeast(Shared(a, b), {(X, F), (a, G)}, {}, {(X, F), (a, G)})
  {
    var (t, p, q) := (Shared(a, b), (X, F), (a, G));
    var list := {p, q};
    SharedTable(a, b);
    assert Callers(t, F) == {(G, a)} && Flip((G, a)) == q && Flip(p) == (F, X);
    forall y, other | Enabled(t, list, y, other)
      ensures y in list
    {
      var from :| from in list && Derives(t, from, y, other);
      assert Flip(Flip(y)) == y;
    }
    forall other | ClosedAbove(t, list, {}, other)
      ensures list <= other
    {
      assert Derives(t, q, q, other) && Enabled(t, list, q, other);
      assert Derives(t, p, p, other) && Enabled(t, list, p, other);
    }
  }

  lemma SharedTwice(a: Name, b: Name)
    requires a != b && a != X && a != M && b != X && b != M
    ensures OrderOnly(Shared(a, b), Shared(b, a)) && Shared(a, b).WellFormed() && Inverse(Shared(a, b))
  {
  }

  /** The order of one driver set decides which driver's function is patched. */
  lemma DriverOrderMatters(a: Name, b: Name)
    requires a != b && a != X && a != M && b != X && b != M
    ensures OrderOnly(Shared(a, b), Shared(b, a)) && Shared(a, b).WellFormed() && Inverse(Shared(a, b))
    ensures IsLeast(Shared(a, b), Expanded(Shared(a, b), {(X, F)}), {}, {(X, F), (a, G)})
    ensures IsLeast(Shared(b, a), Expanded(Shared(b, a), {(X, F)}), {}, {(X, F), (b, G)})
    ensures (a, G) !in {(X, F), (b, G)}
  {
    SharedTwice(a, b);
    SharedExpanded(a, b);
    SharedExpanded(b, a);
    SharedLeast(a, b);
    SharedLeast(b, a);
  }
}
