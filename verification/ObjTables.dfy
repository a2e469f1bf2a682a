/** What the tables of dependency/gen_objdep.py say, as values: a snapshot of
    an ObjDeps object and the answers its queries give on that snapshot. */
module ObjTables {
  import opened Options

  /** The name of an object file, a module or a symbol. */
  datatype Name = Name(text: string)

  /** (symbol, module), the order of `frevdep_map` and of the keys of `related`. */
  type SymMod = (Name, Name)

  /** (module, symbol), the order of a patch set. */
  type Pair = (Name, Name)

  function Flip(p: (Name, Name)): (Name, Name) { (p.1, p.0) }

  datatype Tables = Tables(
    revdeps: map<Name, set<Name>>,
    imports: map<Name, set<Name>>,
    exports: map<Name, set<Name>>,
    globals: map<Name, set<Name>>,
    callers: map<Name, set<SymMod>>,
    defs: map<Name, set<Name>>,
    drivers: map<Name, seq<Name>>,  // each set in its iteration order
    refs: map<Name, map<Name, set<Name>>>,
    nonIr: set<Name>)
  {
    ghost predicate WellFormed() { DriversOk(drivers) }
  }

  /** A driver set is never empty, and a driver module is not itself an object
      of a driver (keys end in .o, members in .ko). */
  ghost predicate DriversOk(drivers: map<Name, seq<Name>>) {
    forall m <- drivers :: drivers[m] != [] && forall k <- drivers[m] :: k !in drivers
  }

  function Driver(drivers: map<Name, seq<Name>>, m: Name): Name {
    if m in drivers && drivers[m] != [] then drivers[m][0] else m
  }

  /** The same driver sets, each in some order. */
  ghost predicate Reordered(drivers: map<Name, seq<Name>>, drivers': map<Name, seq<Name>>) {
    && drivers'.Keys == drivers.Keys
    && forall o <- drivers ::
      && drivers[o] != [] && drivers'[o] != [] && NoTwice(drivers[o]) && NoTwice(drivers'[o])
      && forall k :: k in drivers'[o] <==> k in drivers[o]
  }

  lemma SameSizes(drivers: map<Name, seq<Name>>, drivers': map<Name, seq<Name>>)
    requires Reordered(drivers, drivers')
    ensures forall o <- drivers :: |drivers'[o]| == |drivers[o]|
    ensures forall o <- drivers :: |drivers[o]| == 1 ==> drivers'[o] == drivers[o]
  {
    forall o | o in drivers
      ensures |drivers'[o]| == |drivers[o]| && (|drivers[o]| == 1 ==> drivers'[o] == drivers[o])
    {
      SameLength(drivers[o], drivers'[o]);
      if |drivers[o]| == 1 { assert drivers'[o][0] in drivers[o]; }
    }
  }

  /** The objects linked together with m, and m itself. */
  function Unit(t: Tables, m: Name): set<Name> {
    At(t.revdeps, m) + {m}
  }

  function Renamed(drivers: map<Name, seq<Name>>, cs: set<SymMod>): set<SymMod> {
    set c | c in cs :: (c.0, Driver(drivers, c.1))
  }

  /** The recorded callers of a symbol, drivers standing for their objects. */
  function Callers(t: Tables, s: Name): set<SymMod> {
    Renamed(t.drivers, At(t.callers, s))
  }

  function CalledOf(t: Tables, m: Name, syms: set<Name>): set<SymMod> {
    set s | s in syms && At(t.callers, s) != {} :: (s, Driver(t.drivers, m))
  }

  /** The called symbols exported by some of the modules. */
  function Called(t: Tables, ms: set<Name>): set<SymMod> {
    set m, k | m in ms && k in CalledOf(t, m, At(t.exports, m)) :: k
  }

  /** An exporting object of the unit belongs to several drivers: the assertion
      of `related` fails. */
  predicate Ambiguous(t: Tables, ms: set<Name>) {
    exists m <- ms :: m in t.drivers && |t.drivers[m]| != 1 && At(t.exports, m) != {}
  }

  /** What `related` returns: None, an assertion failure or a dictionary. */
  datatype Answer = Undefined | Crash | Found(table: map<SymMod, set<SymMod>>) {
    /** "None or empty". */
    predicate Blank() { Undefined? || (Found? && table == map[]) }
  }

  function Related(t: Tables, m: Name, s: Name): Answer {
    if m !in At(t.defs, s) then Undefined
    else if Ambiguous(t, Unit(t, m)) then Crash
    else Found(map k | k in Called(t, Unit(t, m)) :: Callers(t, k.0))
  }

  /** Some function storing a pointer to (m, s) is not in the patch set. */
  predicate HasReferencer(t: Tables, m: Name, s: Name, patched: set<Pair>) {
    m in t.refs && s in t.refs[m] && exists r <- t.refs[m][s] :: (m, r) !in patched
  }

  predicate IsIr(t: Tables, m: Name) { m !in t.nonIr }

  /** The modules `get_mods` yields, None read as empty. */
  function Definers(t: Tables, s: Name): set<Name> { At(t.defs, s) }

  function GlobalDefiners(t: Tables, s: Name): set<Name> {
    set m | m in At(t.defs, s) && s in At(t.globals, m)
  }

  /** The same answers to every query: only empty entries and self-membership
      in a unit may differ. */
  ghost predicate Same(t: Tables, t': Tables) {
    && t'.imports == t.imports && t'.exports == t.exports && t'.globals == t.globals
    && t'.drivers == t.drivers && t'.refs == t.refs && t'.nonIr == t.nonIr
    && (forall s :: At(t'.callers, s) == At(t.callers, s))
    && (forall s :: At(t'.defs, s) == At(t.defs, s))
    && (forall m :: Unit(t', m) == Unit(t, m))
  }

  lemma SameAnswers(t: Tables, t': Tables)
    requires Same(t, t')
    ensures forall m, s :: Related(t', m, s) == Related(t, m, s)
    ensures forall m, s, p :: HasReferencer(t', m, s, p) == HasReferencer(t, m, s, p)
    ensures forall s :: Callers(t', s) == Callers(t, s)
    ensures forall s :: Definers(t', s) == Definers(t, s) && GlobalDefiners(t', s) == GlobalDefiners(t, s)
    ensures t.WellFormed() ==> t'.WellFormed()
  {
    forall s ensures Callers(t', s) == Callers(t, s) {
      assert At(t'.callers, s) == At(t.callers, s);
    }
    forall m, s ensures Related(t', m, s) == Related(t, m, s) {
      SameRelated(t, t', m, s);
    }
  }

  lemma SameRelated(t: Tables, t': Tables, m: Name, s: Name)
    requires Same(t, t')
    ensures Related(t', m, s) == Related(t, m, s)
  {
    assert Unit(t', m) == Unit(t, m) && At(t'.defs, s) == At(t.defs, s);
    SameTable(t, t', Unit(t, m));
  }

  lemma SameTable(t: Tables, t': Tables, ms: set<Name>)
    requires Same(t, t')
    ensures (map k | k in Called(t', ms) :: Callers(t', k.0)) == (map k | k in Called(t, ms) :: Callers(t, k.0))
  {
    SameCalled(t, t', ms);
    forall k
      ensures Callers(t', k) == Callers(t, k)
    {
      assert At(t'.callers, k) == At(t.callers, k);
    }
  }

  lemma SameCalled(t: Tables, t': Tables, ms: set<Name>)
    requires Same(t, t')
    ensures Called(t', ms) == Called(t, ms)
  {
    forall m ensures CalledOf(t', m, At(t.exports, m)) == CalledOf(t, m, At(t.exports, m)) {
      forall s ensures At(t'.callers, s) == At(t.callers, s) {}
    }
  }

  /** A defaultdict after its entries for ks were looked up. */
  function Touch<K, V>(m: map<K, set<V>>, ks: set<K>): map<K, set<V>> {
    m + map k | k in ks && k !in m :: {}
  }

  /** Everything a call of `related` may change: it enters the module into its
      own reverse dependencies and creates empty entries (fewer when it crashes). */
  ghost predicate RelatedEffect(t: Tables, m: Name, s: Name, t': Tables) {
    exists ks :: t' == t.(
      defs := Touch(t.defs, {s}),
      revdeps := if m in At(t.defs, s) && m in t.revdeps then t.revdeps[m := t.revdeps[m] + {m}] else t.revdeps,
      callers := Touch(t.callers, ks))
  }

  lemma TouchTwice<K, V>(m: map<K, set<V>>, a: set<K>, b: set<K>)
    ensures Touch(Touch(m, a), b) == Touch(m, a + b)
  {
  }

  lemma EffectKeepsAnswers(t: Tables, m: Name, s: Name, t': Tables)
    requires RelatedEffect(t, m, s, t')
    ensures Same(t, t')
  {
  }

  lemma SameTransitive(t: Tables, t': Tables, t'': Tables)
    requires Same(t, t') && Same(t', t'')
    ensures Same(t, t'')
  {
  }

  /** `related` is observationally pure: after any run of calls, with any
      arguments in any order, every query answers as before it. */
  lemma {:induction false} RelatedIsPure(run: seq<Tables>, calls: seq<Pair>)
    requires |run| == |calls| + 1
    requires forall i :: 0 <= i < |calls| ==> RelatedEffect(run[i], calls[i].0, calls[i].1, run[i + 1])
    ensures Same(run[0], run[|calls|])
    ensures forall m, s :: Related(run[|calls|], m, s) == Related(run[0], m, s)
    ensures forall m, s, p :: HasReferencer(run[|calls|], m, s, p) == HasReferencer(run[0], m, s, p)
    ensures forall s :: Definers(run[|calls|], s) == Definers(run[0], s)
  {
    if calls != [] {
      var n := |calls| - 1;
      RelatedIsPure(run[..n + 1], calls[..n]);
      EffectKeepsAnswers(run[n], calls[n].0, calls[n].1, run[n + 1]);
      SameTransitive(run[0], run[n], run[n + 1]);
    }
    SameAnswers(run[0], run[|calls|]);
  }

  /** `export_table` and `mod_map` are inverse, as the constructor leaves them. */
  ghost predicate Inverse(t: Tables) {
    forall m, s :: s in At(t.exports, m) <==> m in At(t.defs, s)
  }

  /** No entry of the dictionary is empty: a symbol without callers is never a
      key, so only the whole dictionary can be empty. */
  lemma FoundHasCallers(t: Tables, m: Name, s: Name, k: SymMod)
    requires Related(t, m, s).Found? && k in Related(t, m, s).table
    ensures Related(t, m, s).table[k] != {}
  {
    var c :| c in At(t.callers, k.0);
    assert (c.0, Driver(t.drivers, c.1)) in Callers(t, k.0);
  }
}
