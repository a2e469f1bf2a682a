/** What `related` and `check_fdep` (dependency/gen_objdep.py,
    kernel_patch/hwfilter.py) decide, said on the entries of the tables. */
module PatchMeaning {
  import opened ObjTables
  import opened Options
  import opened Multimap
  import opened PatchRules
  import opened CheckFdep

  /** o is m or one of the objects that m is linked with, exports the symbol of k,
      which has callers, and k.1 is its name: its driver if it has one. */
  ghost predicate Offers(t: Tables, m: Name, o: Name, k: SymMod)
    requires t.WellFormed()
  {
    && (o == m || o in At(t.revdeps, m)) && k.0 in At(t.exports, o) && At(t.callers, k.0) != {}
    && k.1 == if o in t.drivers then t.drivers[o][0] else o
  }

  /** An object of the unit has exports and several drivers. */
  ghost predicate Torn(t: Tables, m: Name, o: Name) {
    (o == m || o in At(t.revdeps, m)) && o in t.drivers && |t.drivers[o]| != 1 && At(t.exports, o) != {}
  }

  lemma RelatedOutcome(t: Tables, m: Name, s: Name)
    ensures Related(t, m, s).Undefined? <==> m !in At(t.defs, s)
    ensures Related(t, m, s).Crash? <==> m in At(t.defs, s) && exists o :: Torn(t, m, o)
  {
    if Ambiguous(t, Unit(t, m)) {
      var o :| o in Unit(t, m) && o in t.drivers && |t.drivers[o]| != 1 && At(t.exports, o) != {};
      assert Torn(t, m, o);
    }
    if o :| Torn(t, m, o) { assert o in Unit(t, m); }
  }

  lemma RelatedKeysAre(t: Tables, m: Name, s: Name, k: SymMod)
    requires t.WellFormed() && Related(t, m, s).Found?
    ensures k in Related(t, m, s).table <==> exists o :: Offers(t, m, o, k)
  {
    if k in Related(t, m, s).table {
      var o :| o in Unit(t, m) && k in CalledOf(t, o, At(t.exports, o));
      assert Offers(t, m, o, k);
    }
    if o :| Offers(t, m, o, k) {
      assert o in Unit(t, m) && k in CalledOf(t, o, At(t.exports, o));
    }
  }

  /** A called export of an object linked with m is related to m's symbols. */
  lemma LinkedIsRelated(t: Tables, m: Name, s: Name, o: Name, f: Name)
    requires t.WellFormed() && Related(t, m, s).Found?
    requires o in At(t.revdeps, m) && f in At(t.exports, o) && At(t.callers, f) != {}
    ensures (f, if o in t.drivers then t.drivers[o][0] else o) in Related(t, m, s).table
  {
    var k := (f, if o in t.drivers then t.drivers[o][0] else o);
    assert Offers(t, m, o, k);
    RelatedKeysAre(t, m, s, k);
  }

  /** c names a recorded caller of f, a driver standing for its object. */
  ghost predicate Names(t: Tables, f: Name, c: SymMod)
    requires t.WellFormed()
  {
    exists r <- At(t.callers, f) :: c == (r.0, if r.1 in t.drivers then t.drivers[r.1][0] else r.1)
  }

  lemma CallersAre(t: Tables, f: Name, c: SymMod)
    requires t.WellFormed()
    ensures c in Callers(t, f) <==> Names(t, f, c)
  {
    if c in Callers(t, f) { var r :| r in At(t.callers, f) && c == (r.0, Driver(t.drivers, r.1)); }
    if Names(t, f, c) {
      var r :| r in At(t.callers, f) && c == (r.0, if r.1 in t.drivers then t.drivers[r.1][0] else r.1);
      assert c == (r.0, Driver(t.drivers, r.1));
    }
  }

  lemma RelatedCallers(t: Tables, m: Name, s: Name, k: SymMod, c: SymMod)
    requires t.WellFormed() && Related(t, m, s).Found? && k in Related(t, m, s).table
    ensures c in Related(t, m, s).table[k] <==> Names(t, k.0, c)
  {
    CallersAre(t, k.0, c);
  }

  /** q's module has IR, and every function of it that stores a pointer to q's
      symbol is patched. */
  ghost predicate Free(t: Tables, q: Pair, patched: set<Pair>) {
    q.0 !in t.nonIr && forall r <- At2(t.refs, q.0, q.1) :: (q.0, r) in patched
  }

  lemma FreeIsLoose(t: Tables, q: Pair, patched: set<Pair>)
    ensures Free(t, q, patched) <==> Loose(t, q, patched)
  {
  }

  /** On the list, but its module does not define its symbol. */
  ghost predicate TakenUndefined(t: Tables, list: set<Pair>, q: Pair) {
    q in list && q.0 !in At(t.defs, q.1)
  }

  /** On the list, defined, and nothing that its unit exports is called. */
  ghost predicate TakenAlone(t: Tables, list: set<Pair>, q: Pair)
    requires t.WellFormed()
  {
    && q in list && q.0 in At(t.defs, q.1) && (forall o :: !Torn(t, q.0, o))
    && forall o, k :: !Offers(t, q.0, o, k)
  }

  /** The unit of some listed p offers it, and all its callers have IR and are
      patched. */
  ghost predicate TakenAfter(t: Tables, list: set<Pair>, p: Pair, o: Name, q: Pair, patched: set<Pair>)
    requires t.WellFormed()
  {
    && p in list && p.0 in At(t.defs, p.1) && (forall x :: !Torn(t, p.0, x)) && Offers(t, p.0, o, (q.1, q.0))
    && forall c :: Names(t, q.1, c) ==> c.1 !in t.nonIr && (c.1, c.0) in patched
  }

  /** The two rules in full. */
  lemma EnabledIff(t: Tables, list: set<Pair>, q: Pair, patched: set<Pair>)
    requires t.WellFormed()
    ensures Enabled(t, list, q, patched) <==>
      Free(t, q, patched) &&
      (TakenUndefined(t, list, q) || TakenAlone(t, list, q) || exists p, o :: TakenAfter(t, list, p, o, q, patched))
  {
    if p :| p in list && Derives(t, p, q, patched) {
      DerivedIsTaken(t, list, p, q, patched);
    }
    if Free(t, q, patched) {
      if TakenUndefined(t, list, q) || TakenAlone(t, list, q) { TakenLeaf(t, list, q, patched); }
      if p, o :| TakenAfter(t, list, p, o, q, patched) { TakenKey(t, list, p, o, q, patched); }
    }
  }

  lemma DerivedIsTaken(t: Tables, list: set<Pair>, p: Pair, q: Pair, patched: set<Pair>)
    requires t.WellFormed() && p in list && Derives(t, p, q, patched)
    ensures Free(t, q, patched)
    ensures TakenUndefined(t, list, q) || TakenAlone(t, list, q) || exists o :: TakenAfter(t, list, p, o, q, patched)
  {
    RelatedOutcome(t, p.0, p.1);
    FreeIsLoose(t, q, patched);
    if KeyOf(t, p, Flip(q)) && CallersReady(t, Flip(q), patched) {
      RelatedKeysAre(t, p.0, p.1, Flip(q));
      var o :| Offers(t, p.0, o, Flip(q));
      ReadyCallers(t, Flip(q), patched);
      assert TakenAfter(t, list, p, o, q, patched);
    } else if Related(t, p.0, p.1).Found? {
      forall o, k
        ensures !Offers(t, p.0, o, k)
      {
        RelatedKeysAre(t, p.0, p.1, k);
      }
    }
  }

  lemma ReadyCallers(t: Tables, k: SymMod, patched: set<Pair>)
    requires t.WellFormed()
    ensures CallersReady(t, k, patched) <==>
      && Free(t, Flip(k), patched)
      && forall c :: Names(t, k.0, c) ==> c.1 !in t.nonIr && (c.1, c.0) in patched
  {
    FreeIsLoose(t, Flip(k), patched);
    forall c ensures c in Callers(t, k.0) <==> Names(t, k.0, c) { CallersAre(t, k.0, c); }
  }

  lemma TakenLeaf(t: Tables, list: set<Pair>, q: Pair, patched: set<Pair>)
    requires t.WellFormed() && Free(t, q, patched) && (TakenUndefined(t, list, q) || TakenAlone(t, list, q))
    ensures Enabled(t, list, q, patched)
  {
    RelatedOutcome(t, q.0, q.1);
    FreeIsLoose(t, q, patched);
    if Related(t, q.0, q.1).Found? {
      forall k ensures k !in Related(t, q.0, q.1).table { RelatedKeysAre(t, q.0, q.1, k); }
    }
    assert Derives(t, q, q, patched);
  }

  lemma TakenKey(t: Tables, list: set<Pair>, p: Pair, o: Name, q: Pair, patched: set<Pair>)
    requires t.WellFormed() && Free(t, q, patched) && TakenAfter(t, list, p, o, q, patched)
    ensures Enabled(t, list, q, patched)
  {
    RelatedOutcome(t, p.0, p.1);
    RelatedKeysAre(t, p.0, p.1, Flip(q));
    ReadyCallers(t, Flip(q), patched);
    assert Derives(t, p, q, patched);
  }

  /** A function whose pointer some unpatched function of its module stores is
      never patched. */
  lemma StorersArePatched(t: Tables, list: set<Pair>, seed: set<Pair>, patched: set<Pair>, q: Pair, r: Name)
    requires IsLeast(t, list, seed, patched) && q in patched && q !in seed && r in At2(t.refs, q.0, q.1)
    ensures (q.0, r) in patched && q.0 !in t.nonIr
  {
    var rank := LeastIsRanked(t, list, seed, patched);
    FreeIsLoose(t, q, patched);
  }

  lemma PatchedHasIr(t: Tables, list: set<Pair>, seed: set<Pair>, patched: set<Pair>, q: Pair)
    requires IsLeast(t, list, seed, patched) && q in patched && q !in seed
    ensures q.0 !in t.nonIr
  {
    var rank := LeastIsRanked(t, list, seed, patched);
    FreeIsLoose(t, q, patched);
  }

  /** An undefined listed function is patched once all functions that store its
      pointer are. */
  lemma UnstoredIsPatched(t: Tables, list: set<Pair>, seed: set<Pair>, patched: set<Pair>, q: Pair)
    requires IsLeast(t, list, seed, patched) && q in list && q.0 !in At(t.defs, q.1) && q.0 !in t.nonIr
    requires forall r <- At2(t.refs, q.0, q.1) :: (q.0, r) in patched
    ensures q in patched
  {
    FreeIsLoose(t, q, patched);
    RelatedOutcome(t, q.0, q.1);
    UndefinedIsPatched(t, list, seed, patched, q);
  }

  /** Every recorded caller of a patched function is patched, under its driver's
      name if it has one; but for seeds and listed pairs that are undefined. */
  lemma CallersFollow(t: Tables, list: set<Pair>, seed: set<Pair>, patched: set<Pair>, q: Pair, f: Name, m: Name)
    requires t.WellFormed() && Inverse(t) && IsLeast(t, list, seed, patched) && q in patched && q !in seed
    requires !(q in list && q.0 !in At(t.defs, q.1)) && (f, m) in At(t.callers, q.1)
    ensures (if m in t.drivers then t.drivers[m][0] else m, f) in patched
  {
    var c: SymMod := (f, if m in t.drivers then t.drivers[m][0] else m);
    assert Names(t, q.1, c);
    CallersAre(t, q.1, c);
    RelatedOutcome(t, q.0, q.1);
    CallersArePatched(t, list, seed, patched, q, c);
  }

  /** q is a definition of a symbol that m imports. */
  ghost predicate Imported(t: Tables, m: Name, q: Pair) {
    q.1 in At(t.imports, m) && q.0 in At(t.defs, q.1)
  }

  /** What the listed p adds through one related key. */
  ghost predicate AddsThrough(t: Tables, p: Pair, k: SymMod, q: Pair)
    requires t.WellFormed()
  {
    KeyOf(t, p, k) &&
    if k == p then Names(t, p.0, (q.1, q.0))
    else q == (k.1, k.0) || (k.1 in t.imports && (Imported(t, k.1, q) || Names(t, k.0, (q.1, q.0))))
  }

  ghost predicate Adds(t: Tables, p: Pair, q: Pair)
    requires t.WellFormed()
  {
    Imported(t, p.0, q) || exists k :: AddsThrough(t, p, k, q)
  }

  lemma TargetsAre(t: Tables, m: Name, q: Pair)
    ensures q in ImportTargets(t, m) <==> Imported(t, m, q)
  {
    assert q == (q.0, q.1);
  }

  lemma FlippedAre(t: Tables, f: Name, q: Pair)
    requires t.WellFormed()
    ensures q in Flipped(Callers(t, f)) <==> Names(t, f, (q.1, q.0))
  {
    CallersAre(t, f, Flip(q));
    assert Flip(Flip(q)) == q;
    if q in Flipped(Callers(t, f)) {
      var c :| c in Callers(t, f) && q == Flip(c);
      assert Flip(q) == c;
    }
  }

  lemma EntryIs(t: Tables, p: Pair, k: SymMod, q: Pair)
    requires t.WellFormed() && KeyOf(t, p, k) && k != p
    ensures q in EntryPairs(t, p, k) <==> AddsThrough(t, p, k, q)
  {
    TargetsAre(t, k.1, q);
    FlippedAre(t, k.0, q);
  }

  /** The expanded list holds the list, what its modules import, the related
      functions, and for those with imports these imports and their callers. */
  lemma ExpandedIff(t: Tables, list: set<Pair>, q: Pair)
    requires t.WellFormed()
    ensures q in Expanded(t, list) <==> q in list || exists p <- list :: Adds(t, p, q)
  {
    forall p | p in list ensures q in ExpandOne(t, p) <==> Adds(t, p, q) { OneAdds(t, p, q); }
    if p :| p in list && Adds(t, p, q) { assert q in ExpandAll(t, list); }
  }

  lemma OneAdds(t: Tables, p: Pair, q: Pair)
    requires t.WellFormed()
    ensures q in ExpandOne(t, p) <==> Adds(t, p, q)
  {
    var ks := RelatedKeys(t, p);
    TargetsAre(t, p.0, q);
    FlippedAre(t, p.0, q);
    if k :| k in ks && q in EntryPairs(t, p, k) { EntryIs(t, p, k, q); }
    if k :| AddsThrough(t, p, k, q) {
      assert k in ks;
      if k != p { EntryIs(t, p, k, q); }
    }
    if p in ks && q in Flipped(Callers(t, p.0)) { assert AddsThrough(t, p, p, q); }
  }

  /** Functions of objects and of loadable modules, told apart by the suffix. */
  lemma SplitIs(patched: set<Pair>, f: Name, stem: string)
    ensures (Name(stem + ".o"), f) in patched ==>
      f in Split(patched).functions && (f, Name(stem + ".o")) !in Split(patched).driverFunctions
    ensures (Name(stem + ".ko"), f) in patched <==> (f, Name(stem + ".ko")) in Split(patched).driverFunctions
    ensures f in Split(patched).functions ==>
      exists m :: (m, f) in patched && |m.text| >= 2 && m.text[|m.text| - 2..] == ".o"
  {
    var (o, k) := (stem + ".o", stem + ".ko");
    assert o[|o| - 2..] == ".o" && k[|k| - 2] == 'k' && k[|k| - 2..][0] == 'k';
    if (Name(k), f) in patched { assert Flip((Name(k), f)) == (f, Name(k)); }
    if f in Split(patched).functions {
      var p :| p in patched && IsObject(p.0) && f == p.1;
      assert (p.0, f) in patched;
    }
  }
}
