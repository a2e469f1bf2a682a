/** `check_fdep` of kernel_patch/hwfilter.py over a mutable ObjDeps object. Every
    Python set is visited in an arbitrary order. */
module CheckFdep {
  import opened ObjTables
  import opened Options
  import opened ObjDepsModel
  import opened PatchRules

  function Flipped(cs: set<SymMod>): set<Pair> { set c | c in cs :: Flip(c) }

  function ImportsVia(t: Tables, syms: set<Name>): set<Pair> {
    set s, m | s in syms && m in Definers(t, s) :: (m, s)
  }

  /** Where the symbols a module imports are defined. */
  function ImportTargets(t: Tables, m: Name): set<Pair> { ImportsVia(t, At(t.imports, m)) }

  /** What one key of the dictionary for p contributes. The comparison with p
      is the code's own: it sets a (symbol, module) key against a (module,
      symbol) pair; and the callers of a module without imports are skipped. */
  function EntryPairs(t: Tables, p: Pair, k: SymMod): set<Pair> {
    if k == p then {}
    else {Flip(k)} + if k.1 in t.imports then ImportTargets(t, k.1) + Flipped(Callers(t, k.0)) else {}
  }

  function EntriesPairs(t: Tables, p: Pair, ks: set<SymMod>): set<Pair> {
    set k, q | k in ks && q in EntryPairs(t, p, k) :: q
  }

  function TablePairs(t: Tables, p: Pair, ks: set<SymMod>): set<Pair> {
    (if p in ks then Flipped(Callers(t, p.0)) else {}) + EntriesPairs(t, p, ks)
  }

  function ExpandOne(t: Tables, p: Pair): set<Pair> {
    ImportTargets(t, p.0) + TablePairs(t, p, RelatedKeys(t, p))
  }

  /** The check list after the graph was populated. */
  function Expanded(t: Tables, list: set<Pair>): set<Pair> {
    list + ExpandAll(t, list)
  }

  function ExpandAll(t: Tables, list: set<Pair>): set<Pair> {
    set p, q | p in list && q in ExpandOne(t, p) :: q
  }

  lemma ExpandMore(t: Tables, done: set<Pair>, p: Pair)
    ensures ExpandAll(t, done + {p}) == ExpandAll(t, done) + ExpandOne(t, p)
  {
  }

  ghost predicate SomeCrash(t: Tables, list: set<Pair>) {
    exists p <- list :: Related(t, p.0, p.1).Crash?
  }

  /** The object still answers every query as on t. */
  ghost predicate Stands(odeps: ObjDeps, t: Tables)
    reads odeps, odeps.objBuildRevdeps.Values
  {
    odeps.Valid() && t.WellFormed() && Same(t, odeps.Snapshot())
  }

  method AddImports(odeps: ObjDeps, m: Name, list: set<Pair>, ghost t: Tables) returns (known: bool, r: set<Pair>)
    requires Stands(odeps, t)
    ensures known <==> m in t.imports
    ensures r == list + ImportTargets(t, m)
  {
    r := list;
    var imports := odeps.Imports(m);
    if imports.None? {
      return false, r;
    }
    var syms := imports.value;
    ghost var done: set<Name> := {};
    while syms != {}
      invariant done + syms == t.imports[m] && r == list + ImportsVia(t, done)
      decreases syms
    {
      var sym :| sym in syms;
      var mods := odeps.GetMods(sym, false);
      ghost var before := r;
      if mods.Some? {
        r := r + set d | d in mods.value :: (d, sym);
      }
      assert At(odeps.modMap, sym) == Definers(t, sym);
      assert ImportsVia(t, done + {sym}) == ImportsVia(t, done) + set d | d in Definers(t, sym) :: (d, sym);
      done, syms := done + {sym}, syms - {sym};
    }
    assert done == t.imports[m];
    known := true;
  }

  /** One key of the dictionary of the check-list pair p. */
  method AddEntry(odeps: ObjDeps, p: Pair, k: SymMod, callers: set<SymMod>, list: set<Pair>, ghost t: Tables)
    returns (r: set<Pair>)
    requires Stands(odeps, t) && callers == Callers(t, k.0)
    ensures r == list + EntryPairs(t, p, k)
  {
    if k == p {
      return list;
    }
    r := list + {Flip(k)};
    var known;
    known, r := AddImports(odeps, k.1, r, t);
    if !known {
      return;
    }
    r := r + Flipped(callers);
  }

  method AddEntries(odeps: ObjDeps, p: Pair, table: map<SymMod, set<SymMod>>, list: set<Pair>, ghost t: Tables)
    returns (r: set<Pair>)
    requires Stands(odeps, t) && forall k <- table :: table[k] == Callers(t, k.0)
    ensures r == list + EntriesPairs(t, p, table.Keys)
  {
    r := list;
    var keys := table.Keys;
    ghost var done: set<SymMod> := {};
    ghost var added: set<Pair> := {};
    while keys != {}
      invariant keys <= table.Keys && done == table.Keys - keys
      invariant added == EntriesPairs(t, p, done) && r == list + added
      decreases keys
    {
      var k :| k in keys;
      r := AddEntry(odeps, p, k, table[k], r, t);
      UnionAssoc(list, added, EntryPairs(t, p, k));
      OneMoreEntry(t, p, done, k);
      MovedOver(table.Keys, keys, k);
      added := added + EntryPairs(t, p, k);
      done, keys := done + {k}, keys - {k};
    }
    NoneLeft(table.Keys, keys);
  }

  lemma OneMoreEntry(t: Tables, p: Pair, done: set<SymMod>, k: SymMod)
    ensures EntriesPairs(t, p, done + {k}) == EntriesPairs(t, p, done) + EntryPairs(t, p, k)
  {
  }

  method ExpandPair(odeps: ObjDeps, p: Pair, list: set<Pair>, ghost t: Tables) returns (crash: bool, r: set<Pair>)
    requires Stands(odeps, t)
    modifies odeps`modMap, odeps`frevdepMap, odeps.objBuildRevdeps.Values
    ensures Stands(odeps, t)
    ensures crash <==> Related(t, p.0, p.1).Crash?
    ensures !crash ==> r == list + ExpandOne(t, p)
  {
    var known;
    known, r := AddImports(odeps, p.0, list, t);
    var fdeps := Ask(odeps, p, t);
    crash := fdeps.Crash?;
    if !crash {
      r := AddAnswer(odeps, p, fdeps, r, t);
      UnionAssoc(list, ImportTargets(t, p.0), TablePairs(t, p, RelatedKeys(t, p)));
    }
  }

  method AddAnswer(odeps: ObjDeps, p: Pair, fdeps: Answer, list: set<Pair>, ghost t: Tables) returns (r: set<Pair>)
    requires Stands(odeps, t) && fdeps == Related(t, p.0, p.1) && !fdeps.Crash?
    ensures r == list + TablePairs(t, p, RelatedKeys(t, p))
  {
    if fdeps.Undefined? || |fdeps.table| == 0 {
      assert RelatedKeys(t, p) == {};
      return list;
    }
    r := AddTable(odeps, p, fdeps.table, list, t);
  }

  method AddTable(odeps: ObjDeps, p: Pair, table: map<SymMod, set<SymMod>>, list: set<Pair>, ghost t: Tables)
    returns (r: set<Pair>)
    requires Stands(odeps, t) && forall k <- table :: table[k] == Callers(t, k.0)
    ensures r == list + TablePairs(t, p, table.Keys)
  {
    r := list;
    if p in table {
      r := r + Flipped(table[p]);
    }
    r := AddEntries(odeps, p, table, r, t);
    UnionAssoc(list, if p in table then Flipped(table[p]) else {}, EntriesPairs(t, p, table.Keys));
  }

  /** A call of `related`, answered as on the initial tables. */
  method Ask(odeps: ObjDeps, p: Pair, ghost t: Tables) returns (r: Answer)
    requires Stands(odeps, t)
    modifies odeps`modMap, odeps`frevdepMap, odeps.objBuildRevdeps.Values
    ensures Stands(odeps, t)
    ensures r == Related(t, p.0, p.1)
  {
    ghost var t1 := odeps.Snapshot();
    SameAnswers(t, t1);
    r := odeps.Related(p.0, p.1);
    EffectKeepsAnswers(t1, p.0, p.1, odeps.Snapshot());
    SameTransitive(t, t1, odeps.Snapshot());
  }

  method Populate(odeps: ObjDeps, list: set<Pair>, ghost t: Tables) returns (crash: bool, r: set<Pair>)
    requires Stands(odeps, t)
    modifies odeps`modMap, odeps`frevdepMap, odeps.objBuildRevdeps.Values
    ensures Stands(odeps, t)
    ensures crash <==> SomeCrash(t, list)
    ensures !crash ==> r == Expanded(t, list)
  {
    r := {};
    var todo := list;
    ghost var done: set<Pair> := {};
    while todo != {}
      invariant Stands(odeps, t) && done + todo == list && !SomeCrash(t, done)
      invariant r == ExpandAll(t, done)
      decreases todo
    {
      var p :| p in todo;
      crash, r := ExpandPair(odeps, p, r, t);
      if crash {
        return;
      }
      ExpandMore(t, done, p);
      done, todo := done + {p}, todo - {p};
    }
    assert done == list;
    r := list + r;
    crash := false;
  }

  /** One key of the dictionary in the patch loop. */
  method TryKey(odeps: ObjDeps, k: SymMod, callers: set<SymMod>, patched: set<Pair>, ghost t: Tables)
    returns (r: set<Pair>)
    requires Stands(odeps, t) && callers == Callers(t, k.0)
    ensures r == if CallersReady(t, k, patched) then patched + {Flip(k)} else patched
  {
    r := patched;
    SameAnswers(t, odeps.Snapshot());
    var ir := odeps.IsIrMod(k.1);
    if !ir {
      return;
    }
    var referenced := odeps.HasReferencer(k.1, k.0, patched);
    if |callers| == 0 {
      if referenced {
        return;
      }
      r := r + {Flip(k)};
      return;
    }
    var patchable := true;
    var todo := callers;
    while todo != {}
      invariant todo <= callers && patchable
      invariant forall c <- callers - todo :: IsIr(t, c.1) && Flip(c) in patched
      decreases todo
    {
      var c :| c in todo;
      var callerIr := odeps.IsIrMod(c.1);
      if !callerIr || (c.1, c.0) !in patched {
        patchable := false;
        break;
      }
      todo := todo - {c};
    }
    if patchable {
      if referenced {
        return;
      }
      r := r + {Flip(k)};
    }
  }

  /** r was reached from patched by the rules alone. */
  ghost predicate Forced(t: Tables, list: set<Pair>, patched: set<Pair>, r: set<Pair>) {
    patched <= r && forall other :: ClosedAbove(t, list, patched, other) ==> r <= other
  }

  lemma ForcedStep(t: Tables, list: set<Pair>, patched: set<Pair>, r: set<Pair>, p: Pair, q: Pair)
    requires Forced(t, list, patched, r) && p in list && Derives(t, p, q, r)
    ensures Forced(t, list, patched, r + {q})
  {
    forall other | ClosedAbove(t, list, patched, other) ensures r + {q} <= other {
      assert Enabled(t, list, q, r);
      EnabledMonotone(t, list, list, q, r, other);
    }
  }

  lemma ForcedChain(t: Tables, list: set<Pair>, a: set<Pair>, b: set<Pair>, c: set<Pair>)
    requires Forced(t, list, a, b) && Forced(t, list, b, c)
    ensures Forced(t, list, a, c)
  {
    forall other | ClosedAbove(t, list, a, other) ensures c <= other {
      assert ClosedAbove(t, list, b, other);
    }
  }

  /** Nothing that p derives is missing from patched. */
  ghost predicate Settled(t: Tables, p: Pair, patched: set<Pair>) {
    forall q :: Derives(t, p, q, patched) ==> q in patched
  }

  /** One check-list pair in the patch loop. */
  method ApplyPair(odeps: ObjDeps, p: Pair, patched: set<Pair>, ghost list: set<Pair>, ghost t: Tables)
    returns (crash: bool, r: set<Pair>)
    requires Stands(odeps, t) && p in list
    modifies odeps`modMap, odeps`frevdepMap, odeps.objBuildRevdeps.Values
    ensures Stands(odeps, t)
    ensures crash <==> Related(t, p.0, p.1).Crash?
    ensures Forced(t, list, patched, r)
    ensures !crash && r == patched ==> Settled(t, p, patched)
  {
    r := patched;
    var fdeps := Ask(odeps, p, t);
    if fdeps.Crash? {
      return true, r;
    }
    crash := false;
    if fdeps.Undefined? || |fdeps.table| == 0 {
      r := TryLeaf(odeps, p, patched, list, t);
      return;
    }
    r := TryKeys(odeps, p, fdeps.table, patched, list, t);
  }

  /** A pair with nothing related, in the patch loop. */
  method TryLeaf(odeps: ObjDeps, p: Pair, patched: set<Pair>, ghost list: set<Pair>, ghost t: Tables)
    returns (r: set<Pair>)
    requires Stands(odeps, t) && p in list && Related(t, p.0, p.1).Blank()
    ensures r == if LeafReady(t, p, patched) then patched + {p} else patched
    ensures Forced(t, list, patched, r)
    ensures r == patched ==> Settled(t, p, patched)
  {
    r := patched;
    var ir := odeps.IsIrMod(p.0);
    if !ir {
      return;
    }
    SameAnswers(t, odeps.Snapshot());
    var referenced := odeps.HasReferencer(p.0, p.1, patched);
    if referenced {
      return;
    }
    assert Derives(t, p, p, patched);
    ForcedStep(t, list, patched, patched, p, p);
    r := r + {p};
  }

  method TryKeys(odeps: ObjDeps, p: Pair, table: map<SymMod, set<SymMod>>, patched: set<Pair>,
                 ghost list: set<Pair>, ghost t: Tables)
    returns (r: set<Pair>)
    requires Stands(odeps, t) && p in list && Related(t, p.0, p.1) == Found(table) && table != map[]
    ensures Forced(t, list, patched, r)
    ensures r == patched ==> Settled(t, p, patched)
  {
    r := patched;
    var keys := table.Keys;
    while keys != {}
      invariant keys <= table.Keys && Forced(t, list, patched, r)
      invariant r == patched ==> forall k <- table.Keys - keys :: CallersReady(t, k, patched) ==> Flip(k) in patched
      decreases keys
    {
      var k :| k in keys;
      keys := keys - {k};
      ghost var before := r;
      r := TryKey(odeps, k, table[k], r, t);
      if r != before {
        KeyDerives(t, p, k, before);
        ForcedStep(t, list, patched, before, p, Flip(k));
      }
    }
    if r == patched {
      forall q | Derives(t, p, q, patched) ensures q in patched {
        assert Flip(q) in table.Keys - keys && Flip(Flip(q)) == q;
      }
    }
  }

  lemma KeyDerives(t: Tables, p: Pair, k: SymMod, patched: set<Pair>)
    requires KeyOf(t, p, k) && CallersReady(t, k, patched)
    ensures Derives(t, p, Flip(k), patched)
  {
    assert Flip(Flip(k)) == k;
  }

  /** One pass of the patch loop over the whole check list. */
  method Sweep(odeps: ObjDeps, list: set<Pair>, patched: set<Pair>, ghost t: Tables) returns (crash: bool, r: set<Pair>)
    requires Stands(odeps, t)
    modifies odeps`modMap, odeps`frevdepMap, odeps.objBuildRevdeps.Values
    ensures Stands(odeps, t)
    ensures crash <==> SomeCrash(t, list)
    ensures Forced(t, list, patched, r)
    ensures !crash && r == patched ==> Closed(t, list, patched)
  {
    r := patched;
    var todo := list;
    while todo != {}
      invariant Stands(odeps, t) && todo <= list && !SomeCrash(t, list - todo)
      invariant Forced(t, list, patched, r)
      invariant r == patched ==> forall p <- list - todo :: Settled(t, p, patched)
      decreases todo
    {
      var p :| p in todo;
      ghost var before := r;
      crash, r := ApplyPair(odeps, p, r, list, t);
      ForcedChain(t, list, patched, before, r);
      if crash {
        return;
      }
      todo := todo - {p};
    }
    crash := false;
    if r == patched {
      forall q | Enabled(t, list, q, patched) ensures q in patched {
        var p :| p in list && Derives(t, p, q, patched);
        assert p in list - todo;
      }
    }
  }

  predicate IsObject(m: Name) {
    |m.text| >= 2 && m.text[|m.text| - 2..] == ".o"
  }

  datatype Removal = AssertionFailed | Removed(functions: set<Name>, driverFunctions: set<SymMod>)

  /** How the patch set is split into built-in and driver functions. */
  ghost function Split(patched: set<Pair>): Removal {
    Removed(set p | p in patched && IsObject(p.0) :: p.1, set p | p in patched && !IsObject(p.0) :: Flip(p))
  }

  /** t is the state of the tables before the call. */
  method CheckFdep(odeps: ObjDeps, fdepChecklist: set<Pair>, patchSym: set<Pair>, ghost t: Tables)
    returns (r: Removal, ghost patched: set<Pair>, ghost passes: nat)
    requires odeps.Valid() && t == odeps.Snapshot()
    modifies odeps`modMap, odeps`frevdepMap, odeps.objBuildRevdeps.Values
    ensures Stands(odeps, t)
    ensures r.AssertionFailed? <==> SomeCrash(t, Expanded(t, fdepChecklist))
    ensures !r.AssertionFailed? ==> r == Split(patched) && IsLeast(t, Expanded(t, fdepChecklist), patchSym, patched)
    ensures !r.AssertionFailed? ==> passes <= 1 + |Addable(t, Expanded(t, fdepChecklist)) - patchSym|
  {
    patched, passes := patchSym, 0;
    var crash, list := Populate(odeps, fdepChecklist, t);
    if crash {
      CrashExpands(t, fdepChecklist);
      return AssertionFailed, patched, passes;
    }
    var patchSymEx;
    crash, patchSymEx, passes := Iterate(odeps, list, patchSym, t);
    patched := patchSymEx;
    if crash {
      return AssertionFailed, patched, passes;
    }
    r := SplitUp(patchSymEx);
  }

  lemma CrashExpands(t: Tables, list: set<Pair>)
    requires SomeCrash(t, list)
    ensures SomeCrash(t, Expanded(t, list))
  {
    var p :| p in list && Related(t, p.0, p.1).Crash?;
    assert p in Expanded(t, list);
  }

  /** The loop that stops when a pass leaves the size of the patch set alone. */
  method Iterate(odeps: ObjDeps, list: set<Pair>, seed: set<Pair>, ghost t: Tables)
    returns (crash: bool, patched: set<Pair>, ghost passes: nat)
    requires Stands(odeps, t)
    modifies odeps`modMap, odeps`frevdepMap, odeps.objBuildRevdeps.Values
    ensures Stands(odeps, t)
    ensures crash <==> SomeCrash(t, list)
    ensures !crash ==> IsLeast(t, list, seed, patched) && passes <= 1 + |Addable(t, list) - seed|
  {
    patched := seed;
    passes := 0;
    var numPatchSyms := |patched|;
    while true
      invariant Stands(odeps, t) && Forced(t, list, seed, patched)
      invariant numPatchSyms == |patched| && passes <= |patched - seed|
      decreases |Addable(t, list) - seed| - |patched - seed|
    {
      ghost var before := patched;
      crash, patched := Sweep(odeps, list, patched, t);
      if crash {
        return;
      }
      ForcedChain(t, list, seed, before, patched);
      ForcedBounded(t, list, seed, patched);
      passes := passes + 1;
      var num := |patched|;
      if numPatchSyms == num {
        SameSize(before, patched);
        return;
      }
      numPatchSyms := num;
      Grown(seed, before, patched);
    }
  }

  lemma ForcedBounded(t: Tables, list: set<Pair>, seed: set<Pair>, r: set<Pair>)
    requires Forced(t, list, seed, r)
    ensures r <= seed + Addable(t, list) && |r - seed| <= |Addable(t, list) - seed|
  {
    var all := seed + Addable(t, list);
    forall q | Enabled(t, list, q, all) ensures q in all {
      EnabledIsAddable(t, list, q, all);
    }
    assert ClosedAbove(t, list, seed, all);
    SubsetSize(r - seed, Addable(t, list) - seed);
  }

  lemma SubsetSize<T>(a: set<T>, b: set<T>)
    requires a <= b
    ensures |a| <= |b|
  {
    assert b == a + (b - a);
  }

  lemma SameSize<T>(a: set<T>, b: set<T>)
    requires a <= b && |a| == |b|
    ensures a == b
  {
    assert b == a + (b - a);
  }

  lemma Grown<T>(seed: set<T>, a: set<T>, b: set<T>)
    requires seed <= a <= b && |a| != |b|
    ensures |a - seed| + 1 <= |b - seed|
  {
    assert b == a + (b - a);
    var x :| x in b - a;
    SubsetSize(a - seed + {x}, b - seed);
  }

  method SplitUp(patched: set<Pair>) returns (r: Removal)
    ensures r == Split(patched)
  {
    var functions, driverFunctions := {}, {};
    var todo := patched;
    while todo != {}
      invariant todo <= patched
      invariant functions == set p | p in patched - todo && IsObject(p.0) :: p.1
      invariant driverFunctions == set p | p in patched - todo && !IsObject(p.0) :: Flip(p)
      decreases todo
    {
      var p :| p in todo;
      MovedOver(patched, todo, p);
      todo := todo - {p};
      if IsObject(p.0) {
        functions := functions + {p.1};
      } else {
        driverFunctions := driverFunctions + {(p.1, p.0)};
      }
    }
    NoneLeft(patched, todo);
    r := Removed(functions, driverFunctions);
  }
}
