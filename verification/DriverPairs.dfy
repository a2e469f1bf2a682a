/** The (driver, symbol) pairs that expanding the check list adds: no driver
    defines a symbol, so the leaf rule of `check_fdep` takes them whatever calls
    the symbol (kernel_patch/hwfilter.py:198-228). */
module DriverPairs {
  import opened ObjTables
  import opened Options
  import opened Multimap
  import opened ObjFacts
  import opened ObjBuild
  import opened PatchRules
  import opened CheckFdep

  /** A related function that its module does not define is patched as soon as it
      has IR and no outstanding referencer. */
  lemma UndefinedKeyIsPatched(t: Tables, list: set<Pair>, seed: set<Pair>, patched: set<Pair>, p: Pair, k: SymMod)
    requires IsLeast(t, Expanded(t, list), seed, patched)
    requires p in list && KeyOf(t, p, k) && k != p && k.1 !in At(t.defs, k.0) && Loose(t, Flip(k), patched)
    ensures Flip(k) in patched
  {
    assert Flip(k) in EntryPairs(t, p, k);
    assert Flip(k) in ExpandOne(t, p);
    assert Flip(k) in Expanded(t, list);
    UndefinedIsPatched(t, Expanded(t, list), seed, patched, Flip(k));
  }

  ghost predicate Suffixed(x: Facts) {
    && (forall e <- x.exports :: IsObject(e.0))
    && (forall d <- x.drivers :: IsObject(d.0) && !IsObject(d.1))
  }

  lemma SuffixOf(stem: string)
    ensures IsObject(ObjectName(stem)) && !IsObject(KoName(stem))
  {
    var (a, b) := (ObjectName(stem).text, KoName(stem).text);
    assert a[|a| - 2..] == ".o";
    assert b[|b| - 2] == 'k';
    assert b[|b| - 2..][0] == b[|b| - 2];
  }

  lemma {:induction false} SymbolsSuffixed(mod: Name, symbols: seq<Row>)
    requires IsObject(mod)
    ensures Suffixed(SymbolsFacts(mod, symbols))
  {
    if symbols != [] { SymbolsSuffixed(mod, symbols[..|symbols| - 1]); }
  }

  lemma {:induction false} RowsSuffixed(f: ObjFile, rows: seq<Row>)
    requires f.Imptab? || f.Impnoin? || f.Symlnk? || f.Symcbs? || f.Fptref?
    ensures Suffixed(RowsFacts(f, rows))
  {
    if rows != [] { RowsSuffixed(f, rows[..|rows| - 1]); }
  }

  lemma FileSuffixed(f: ObjFile)
    ensures Suffixed(FileFacts(f))
  {
    SuffixOf(f.stem);
    match f
    case Symtab(_, symbols) => SymbolsSuffixed(f.Mod(), symbols);
    case ModFile(stem, objects) =>
      forall o | o in objects ensures IsObject(ObjectName(o)) { SuffixOf(o); }
    case NonBc(_) =>
    case _ => RowsSuffixed(f, f.rows);
  }

  lemma {:induction false} FilesSuffixed(files: seq<ObjFile>)
    ensures Suffixed(FilesFacts(files))
  {
    if files != [] {
      FilesSuffixed(files[..|files| - 1]);
      FileSuffixed(files[|files| - 1]);
    }
  }

  /** Symbol tables belong to objects: whatever the files, no driver of the built
      tables defines or exports a symbol. */
  lemma DriversDefineNothing(files: seq<ObjFile>, t: Tables, o: Name, k: Name, s: Name)
    requires TablesHold(t, FilesFacts(files)) && o in t.drivers && k in t.drivers[o]
    ensures k !in At(t.defs, s) && At(t.exports, k) == {} && IsObject(o) && !IsObject(k)
  {
    var x := FilesFacts(files);
    FilesSuffixed(files);
    assert (o, k) in x.drivers;
    GroupAt(Swapped(x.exports), s);
    GroupAt(x.exports, k);
  }

  /** A symbol under the name of a driver. */
  ghost predicate FromDriver(t: Tables, q: Pair) {
    exists o <- t.drivers :: q.0 in t.drivers[o]
  }

  /** A recorded caller that the symbol table of its object lacks. */
  ghost predicate StrayCaller(t: Tables, q: Pair) {
    exists s <- t.callers :: Flip(q) in t.callers[s] && q.1 !in At(t.exports, q.0)
  }

  lemma CallerOrDriver(t: Tables, s: Name, q: Pair)
    requires Flip(q) in Callers(t, s) && q.1 !in At(t.exports, q.0)
    ensures FromDriver(t, q) || StrayCaller(t, q)
  {
    var c :| c in At(t.callers, s) && Flip(q) == (c.0, Driver(t.drivers, c.1));
    if c.1 in t.drivers && t.drivers[c.1] != [] { assert q.0 in t.drivers[c.1]; } else { assert Flip(q) == c; }
  }

  lemma KeyOrDriver(t: Tables, p: Pair, q: Pair)
    requires KeyOf(t, p, Flip(q)) && q.1 !in At(t.exports, q.0)
    ensures FromDriver(t, q)
  {
    var m :| m in Unit(t, p.0) && Flip(q) in CalledOf(t, m, At(t.exports, m));
    assert q.0 == Driver(t.drivers, m) && q.1 in At(t.exports, m);
    assert m in t.drivers && q.0 in t.drivers[m];
  }

  lemma TargetsAreDefined(t: Tables, m: Name, q: Pair)
    requires q in ImportTargets(t, m)
    ensures q.0 in At(t.defs, q.1)
  {
  }

  lemma EntryUndefined(t: Tables, p: Pair, k: SymMod, q: Pair)
    requires k in RelatedKeys(t, p) && q in EntryPairs(t, p, k) && q.1 !in At(t.exports, q.0) && q.0 !in At(t.defs, q.1)
    ensures FromDriver(t, q) || StrayCaller(t, q)
  {
    if q == Flip(k) {
      assert Flip(q) == k;
      KeyOrDriver(t, p, q);
    } else if q in ImportTargets(t, k.1) {
      TargetsAreDefined(t, k.1, q);
    } else {
      var c :| c in Callers(t, k.0) && q == Flip(c);
      assert Flip(q) == c;
      CallerOrDriver(t, k.0, q);
    }
  }

  lemma TableUndefined(t: Tables, p: Pair, q: Pair)
    requires q in TablePairs(t, p, RelatedKeys(t, p)) && q.1 !in At(t.exports, q.0) && q.0 !in At(t.defs, q.1)
    ensures FromDriver(t, q) || StrayCaller(t, q)
  {
    var ks := RelatedKeys(t, p);
    if q in EntriesPairs(t, p, ks) {
      var k :| k in ks && q in EntryPairs(t, p, k);
      EntryUndefined(t, p, k, q);
    } else {
      var c :| c in Callers(t, p.0) && q == Flip(c);
      assert Flip(q) == c;
      CallerOrDriver(t, p.0, q);
    }
  }

  /** The undefined pairs that `check_fdep` meets, given a list of defined ones,
      are functions of drivers and stray callers. */
  lemma UndefinedOnList(t: Tables, list: set<Pair>, q: Pair)
    requires Inverse(t) && forall p <- list :: p.0 in At(t.defs, p.1)
    requires q in Expanded(t, list) && Related(t, q.0, q.1).Undefined?
    ensures FromDriver(t, q) || StrayCaller(t, q)
  {
    assert q.0 !in At(t.defs, q.1) && q.1 !in At(t.exports, q.0) && q !in list;
    var p :| p in list && q in ExpandOne(t, p);
    if q in ImportTargets(t, p.0) { TargetsAreDefined(t, p.0, q); } else { TableUndefined(t, p, q); }
  }

  /** What grounds the cycles of callers of built tables. */
  lemma BuiltCycleHasGround(files: seq<ObjFile>, t: Tables, list: set<Pair>, seed: set<Pair>, patched: set<Pair>,
                            cycle: seq<Pair>)
    requires TablesHold(t, FilesFacts(files)) && forall p <- list :: p.0 in At(t.defs, p.1)
    requires IsLeast(t, Expanded(t, list), seed, patched)
    requires |cycle| > 0 && forall q <- cycle :: q in patched
    requires forall i :: 0 <= i < |cycle| ==> Flip(cycle[(i + 1) % |cycle|]) in Callers(t, cycle[i].1)
    ensures exists q <- cycle :: q in seed || FromDriver(t, q) || StrayCaller(t, q)
  {
    BuiltInverse(t, FilesFacts(files));
    CycleHasGround(t, Expanded(t, list), seed, patched, cycle);
    var q :| q in cycle && (q in seed || IsUndefined(t, Expanded(t, list), q, patched));
    if q !in seed { UndefinedOnList(t, list, q); }
  }

  /** Of built tables: a related function that appears under its driver's name is
      patched if the driver has IR and no outstanding function refers to it. */
  lemma DriverKeyIsPatched(files: seq<ObjFile>, t: Tables, list: set<Pair>, seed: set<Pair>, patched: set<Pair>,
                           p: Pair, k: SymMod)
    requires TablesHold(t, FilesFacts(files)) && IsLeast(t, Expanded(t, list), seed, patched)
    requires p in list && KeyOf(t, p, k) && k != p && FromDriver(t, Flip(k)) && Loose(t, Flip(k), patched)
    ensures Flip(k) in patched
  {
    var o :| o in t.drivers && k.1 in t.drivers[o];
    DriversDefineNothing(files, t, o, k.1, k.0);
    UndefinedKeyIsPatched(t, list, seed, patched, p, k);
  }

  /** g of a built-in object x calls f of an object o of the driver d. */
  function Crossing(o: Name, d: Name, f: Name, g: Name, x: Name): Tables {
    Tables(map[], map[], map[o := {f}, x := {g}], map[], map[f := {(g, x)}], map[f := {o}, g := {x}], map[o := [d]],
           map[], {})
  }

  lemma CrossingTable(o: Name, d: Name, f: Name, g: Name, x: Name)
    requires o != d && f != g && x != o && x != d
    ensures Related(Crossing(o, d, f, g, x), o, f) == Found(map[(f, d) := {(g, x)}])
    ensures Related(Crossing(o, d, f, g, x), d, f).Undefined?
  {
    var t := Crossing(o, d, f, g, x);
    assert Unit(t, o) == {o} && At(t.exports, o) == {f};
    assert CalledOf(t, o, {f}) == {(f, d)};
    assert Called(t, {o}) == {(f, d)};
    assert Callers(t, f) == {(g, x)};
    assert !Ambiguous(t, {o});
  }

  lemma CrossingExpanded(o: Name, d: Name, f: Name, g: Name, x: Name)
    requires o != d && f != g && x != o && x != d && (f, d) != (o, f)
    ensures Expanded(Crossing(o, d, f, g, x), {(o, f)}) == {(o, f), (d, f)}
  {
    var (t, p) := (Crossing(o, d, f, g, x), (o, f));
    CrossingTable(o, d, f, g, x);
    assert ImportTargets(t, o) == {};
    assert RelatedKeys(t, p) == {(f, d)};
    assert EntryPairs(t, p, (f, d)) == {(d, f)};
    assert EntriesPairs(t, p, {(f, d)}) == {(d, f)};
    assert ExpandOne(t, p) == {(d, f)};
    assert ExpandAll(t, {p}) == {(d, f)};
  }

  lemma CrossingDerives(o: Name, d: Name, f: Name, g: Name, x: Name, p: Pair, y: Pair, other: set<Pair>)
    requires o != d && f != g && x != o && x != d
    requires p in {(o, f), (d, f)} && Derives(Crossing(o, d, f, g, x), p, y, other)
    ensures y == (d, f)
  {
    var t := Crossing(o, d, f, g, x);
    CrossingTable(o, d, f, g, x);
    assert Related(t, o, f).table.Keys == {(f, d)} && Flip(Flip(y)) == y;
    assert p == (o, f) || Related(t, p.0, p.1).Undefined?;
  }

  lemma CrossingLeast(o: Name, d: Name, f: Name, g: Name, x: Name)
    requires o != d && f != g && x != o && x != d
    ensures IsLeast(Crossing(o, d, f, g, x), {(o, f), (d, f)}, {}, {(d, f)})
  {
    var (t, q, list) := (Crossing(o, d, f, g, x), (d, f), {(o, f), (d, f)});
    forall y, other | Enabled(t, list, y, other)
      ensures y == q
    {
      var from :| from in list && Derives(t, from, y, other);
      CrossingDerives(o, d, f, g, x, from, y, other);
    }
    CrossingTable(o, d, f, g, x);
    forall other | ClosedAbove(t, list, {}, other)
      ensures q in other
    {
      assert Derives(t, q, q, other);
      assert Enabled(t, list, q, other);
    }
  }

  /** From a check list that holds one defined pair: the driver's function is
      patched, and the built-in function that calls it is not. */
  lemma UndefinedIgnoresCallers(o: Name, d: Name, f: Name, g: Name, x: Name)
    requires o != d && f != g && x != o && x != d && (f, d) != (o, f)
    ensures var t := Crossing(o, d, f, g, x);
      && t.WellFormed() && Inverse(t) && o in At(t.defs, f) && (g, x) in Callers(t, f)
      && IsLeast(t, Expanded(t, {(o, f)}), {}, {(d, f)}) && (x, g) !in {(d, f)}
  {
    var t := Crossing(o, d, f, g, x);
    assert (g, x) in Callers(t, f) by { assert Driver(t.drivers, x) == x; }
    CrossingTable(o, d, f, g, x);
    CrossingExpanded(o, d, f, g, x);
    CrossingLeast(o, d, f, g, x);
  }
}
