/** From the lines of the per-object files to the tables that
    dependency/gen_objdep.py builds from them, table by table, in both
    directions. */
module ObjRows {
  import opened ObjTables
  import opened Options
  import opened Multimap
  import opened ObjFacts
  import opened ObjBuild

  /** One entry of one relation. */
  datatype Fact =
    | Import(mod: Name, sym: Name) | Export(mod: Name, sym: Name) | Global(mod: Name, sym: Name)
    | CallOf(call: Triple) | Noinline(call: Triple) | Link(call: Triple) | Ref(call: Triple)
    | Callback(mod: Name, sym: Name) | DriverOf(mod: Name, sym: Name) | NonIr(mod: Name)

  predicate In(a: Fact, x: Facts) {
    match a
    case Import(m, s) => (m, s) in x.imports
    case Export(m, s) => (m, s) in x.exports
    case Global(m, s) => (m, s) in x.globals
    case CallOf(c) => c in x.calls
    case Noinline(c) => c in x.noinline
    case Link(c) => c in x.links
    case Ref(c) => c in x.refs
    case Callback(m, s) => (m, s) in x.callbacks
    case DriverOf(m, s) => (m, s) in x.drivers
    case NonIr(m) => m in x.nonIr
  }

  lemma InJoin(a: Fact, x: Facts, y: Facts)
    ensures In(a, Join(x, y)) <==> In(a, x) || In(a, y)
    ensures !In(a, NOTHING)
  {
  }

  ghost predicate InSome(a: Fact, files: seq<ObjFile>) { exists f <- files :: In(a, FileFacts(f)) }

  lemma InSomeLast(a: Fact, files: seq<ObjFile>, n: nat)
    requires n + 1 == |files|
    ensures InSome(a, files) <==> InSome(a, files[..n]) || In(a, FileFacts(files[n]))
  {
    assert files == files[..n] + [files[n]];
    if f :| f in files[..n] && In(a, FileFacts(f)) { assert f in files; }
  }

  lemma {:induction false} InFiles(a: Fact, files: seq<ObjFile>)
    ensures In(a, FilesFacts(files)) <==> InSome(a, files)
  {
    if files == [] {
      InJoin(a, NOTHING, NOTHING);
    } else {
      var n := |files| - 1;
      InFiles(a, files[..n]);
      InJoin(a, FilesFacts(files[..n]), FileFacts(files[n]));
      InSomeLast(a, files, n);
    }
  }

  ghost predicate InSomeRow(a: Fact, f: ObjFile, rows: seq<Row>)
    requires f.Imptab? || f.Impnoin? || f.Symlnk? || f.Symcbs? || f.Fptref?
  {
    exists r <- rows :: In(a, RowFacts(f, r))
  }

  lemma SomeLast<T>(s: seq<T>, n: nat, p: T -> bool)
    requires n + 1 == |s|
    ensures (exists x <- s :: p(x)) <==> (exists x <- s[..n] :: p(x)) || p(s[n])
  {
    assert s == s[..n] + [s[n]];
    if x :| x in s[..n] && p(x) { assert x in s; }
  }

  lemma InSomeRowLast(a: Fact, f: ObjFile, rows: seq<Row>, n: nat)
    requires n + 1 == |rows| && (f.Imptab? || f.Impnoin? || f.Symlnk? || f.Symcbs? || f.Fptref?)
    ensures InSomeRow(a, f, rows) <==> InSomeRow(a, f, rows[..n]) || In(a, RowFacts(f, rows[n]))
  {
    SomeLast(rows, n, (r: Row) => In(a, RowFacts(f, r)));
  }

  lemma {:induction false} InRows(a: Fact, f: ObjFile, rows: seq<Row>)
    requires f.Imptab? || f.Impnoin? || f.Symlnk? || f.Symcbs? || f.Fptref?
    ensures In(a, RowsFacts(f, rows)) <==> InSomeRow(a, f, rows)
  {
    if rows == [] {
      InJoin(a, NOTHING, NOTHING);
    } else {
      var n := |rows| - 1;
      InRows(a, f, rows[..n]);
      InJoin(a, RowsFacts(f, rows[..n]), RowFacts(f, rows[n]));
      InSomeRowLast(a, f, rows, n);
    }
  }

  lemma {:induction false} InSymbols(a: Fact, mod: Name, rows: seq<Row>)
    ensures In(a, SymbolsFacts(mod, rows)) <==> exists r <- rows :: In(a, SymbolFacts(mod, r))
  {
    if rows == [] {
      InJoin(a, NOTHING, NOTHING);
    } else {
      var n := |rows| - 1;
      InSymbols(a, mod, rows[..n]);
      InJoin(a, SymbolsFacts(mod, rows[..n]), SymbolFacts(mod, rows[n]));
      assert rows == rows[..n] + [rows[n]];
    }
  }

  /** A row that the file kind reads, of the object m. */
  ghost predicate HasRow(f: ObjFile, m: Name, a: Name, b: Name) {
    f.Mod() == m && !f.Symtab? && !f.ModFile? && !f.NonBc? && (a, b) in f.rows && Kept((a, b))
  }

  /** What one file says, relation by relation. */
  ghost predicate Says(f: ObjFile, a: Fact) {
    match a
    case Import(m, s) => f.Symtab? && f.Mod() == m && (Name("U"), s) in f.symbols
    case Export(m, s) => f.Symtab? && f.Mod() == m && exists r <- f.symbols :: r.0 != Name("U") && r.1 == s
    case Global(m, s) => f.Symtab? && f.Mod() == m && (Name("T"), s) in f.symbols
    case CallOf(c) => f.Imptab? && HasRow(f, c.mod, c.fst, c.snd)
    case Noinline(c) => f.Impnoin? && HasRow(f, c.mod, c.snd, c.fst) && c.fst != c.snd && HasLine(f, c.fst)
    case Link(c) => f.Symlnk? && HasRow(f, c.mod, c.fst, c.snd)
    case Ref(c) => f.Fptref? && HasRow(f, c.mod, c.snd, c.fst)
    case Callback(g, s) => f.Symcbs? && (g, s) in f.rows && Kept((g, s))
    case DriverOf(o, k) => f.ModFile? && k == Name(f.stem + ".ko") && exists x <- f.objects :: o == Name(x + ".o")
    case NonIr(m) => f.NonBc? && f.Mod() == m
  }

  /** s has a line of its own in the file. */
  ghost predicate HasLine(f: ObjFile, s: Name)
    requires f.Impnoin?
  {
    exists r <- f.rows :: r.0 == s && Kept(r)
  }

  lemma FileSays(f: ObjFile, a: Fact)
    ensures In(a, FileFacts(f)) <==> Says(f, a)
  {
    match f
    case Symtab(_, symbols) => SymtabSays(f, a);
    case ModFile(_, _) =>
    case NonBc(_) =>
    case _ => RowsSay(f, a);
  }

  lemma SymtabSays(f: ObjFile, a: Fact)
    requires f.Symtab?
    ensures In(a, FileFacts(f)) <==> Says(f, a)
  {
    InSymbols(a, f.Mod(), f.symbols);
    if r :| r in f.symbols && In(a, SymbolFacts(f.Mod(), r)) { assert r == (r.0, r.1); }
    match a
    case Import(_, s) => if Says(f, a) { assert In(a, SymbolFacts(f.Mod(), (Name("U"), s))); }
    case Export(_, s) =>
      if Says(f, a) {
        var r :| r in f.symbols && r.0 != Name("U") && r.1 == s;
        assert In(a, SymbolFacts(f.Mod(), r));
      }
    case Global(_, s) => if Says(f, a) { assert In(a, SymbolFacts(f.Mod(), (Name("T"), s))); }
    case _ =>
  }

  lemma RowsSay(f: ObjFile, a: Fact)
    requires f.Imptab? || f.Impnoin? || f.Symlnk? || f.Symcbs? || f.Fptref?
    ensures In(a, FileFacts(f)) <==> Says(f, a)
  {
    InRows(a, f, f.rows);
    if r :| r in f.rows && In(a, RowFacts(f, r)) {
      assert r == (r.0, r.1);
      RowSays(f, r, a);
    }
    if Says(f, a) {
      var r: Row := if a.Callback? then (a.mod, a.sym)
                    else if a.Noinline? || a.Ref? then (a.call.snd, a.call.fst)
                    else (a.call.fst, a.call.snd);
      assert In(a, RowFacts(f, r));
    }
  }

  lemma RowSays(f: ObjFile, r: Row, a: Fact)
    requires f.Imptab? || f.Impnoin? || f.Symlnk? || f.Symcbs? || f.Fptref?
    requires r in f.rows && In(a, RowFacts(f, r))
    ensures Says(f, a)
  {
    assert r == (r.0, r.1) && Kept((r.0, r.1));
  }

  lemma FilesSay(files: seq<ObjFile>, a: Fact)
    ensures In(a, FilesFacts(files)) <==> exists f <- files :: Says(f, a)
  {
    InFiles(a, files);
    forall f | f in files ensures In(a, FileFacts(f)) <==> Says(f, a) { FileSays(f, a); }
  }

  /** Undefined symbols of a symbol table are the imports of its object. */
  lemma ImportsAreRows(files: seq<ObjFile>, t: Tables, m: Name, s: Name)
    requires TablesHold(t, FilesFacts(files))
    ensures s in At(t.imports, m) <==>
      exists f <- files :: f.Symtab? && Name(f.stem + ".o") == m && (Name("U"), s) in f.symbols
    ensures m in t.imports <==> At(t.imports, m) != {}
  {
    FilesSay(files, Import(m, s));
    GroupAt(FilesFacts(files).imports, m);
  }

  /** All others are its exports, and lead back to it. */
  lemma ExportsAreRows(files: seq<ObjFile>, t: Tables, m: Name, s: Name)
    requires TablesHold(t, FilesFacts(files))
    ensures s in At(t.exports, m) <==>
      exists f <- files ::
        f.Symtab? && Name(f.stem + ".o") == m && exists r <- f.symbols :: r.0 != Name("U") && r.1 == s
    ensures m in At(t.defs, s) <==> s in At(t.exports, m)
  {
    FilesSay(files, Export(m, s));
    GroupAt(FilesFacts(files).exports, m);
    BuiltInverse(t, FilesFacts(files));
  }

  /** Those of type T are its global exports. */
  lemma GlobalsAreRows(files: seq<ObjFile>, t: Tables, m: Name, s: Name)
    requires TablesHold(t, FilesFacts(files))
    ensures s in At(t.globals, m) <==>
      exists f <- files :: f.Symtab? && Name(f.stem + ".o") == m && (Name("T"), s) in f.symbols
  {
    FilesSay(files, Global(m, s));
    GroupAt(FilesFacts(files).globals, m);
  }

  /** r stores a pointer to the function p: a line "r : p" of a .fptref file. */
  lemma RefsAreRows(files: seq<ObjFile>, t: Tables, m: Name, p: Name, r: Name)
    requires TablesHold(t, FilesFacts(files))
    ensures r in At2(t.refs, m, p) <==>
      exists f <- files :: f.Fptref? && Name(f.stem + ".o") == m && (r, p) in f.rows && Kept((r, p))
  {
    FilesSay(files, Ref(Triple(m, p, r)));
    var refs := FilesFacts(files).refs;
    if r in At2(t.refs, m, p) { assert Triple(m, p, r) in refs; }
    if Triple(m, p, r) in refs { assert r in At2(t.refs, Triple(m, p, r).mod, Triple(m, p, r).fst); }
    RefSaid(files, Ref(Triple(m, p, r)), m, p, r);
  }

  lemma RefSaid(files: seq<ObjFile>, a: Fact, m: Name, p: Name, r: Name)
    requires a == Ref(Triple(m, p, r))
    ensures (exists f <- files :: Says(f, a)) <==>
      exists f <- files :: f.Fptref? && Name(f.stem + ".o") == m && (r, p) in f.rows && Kept((r, p))
  {
    if f :| f in files && Says(f, a) { assert f.Fptref? && Name(f.stem + ".o") == m; }
    if f :| f in files && f.Fptref? && Name(f.stem + ".o") == m && (r, p) in f.rows && Kept((r, p)) {
      assert Says(f, a);
    }
  }

  lemma DriversSaid(files: seq<ObjFile>, o: Name, k: Name)
    ensures (o, k) in FilesFacts(files).drivers <==>
      exists f <- files :: f.ModFile? && k == Name(f.stem + ".ko") && exists x <- f.objects :: o == Name(x + ".o")
  {
    FilesSay(files, DriverOf(o, k));
    if f :| f in files && f.ModFile? && k == Name(f.stem + ".ko") && exists x <- f.objects :: o == Name(x + ".o") {
      assert Says(f, DriverOf(o, k));
    }
  }

  /** k is a driver of o: the .mod file of k lists o. */
  lemma DriversAreRows(files: seq<ObjFile>, t: Tables, o: Name, k: Name)
    requires TablesHold(t, FilesFacts(files))
    ensures o in t.drivers && k in t.drivers[o] <==>
      exists f <- files :: f.ModFile? && k == Name(f.stem + ".ko") && exists x <- f.objects :: o == Name(x + ".o")
  {
    DriversSaid(files, o, k);
    var drivers := FilesFacts(files).drivers;
    if (o, k) in drivers { assert (o, k).0 in Firsts(drivers); }
    assert o in t.drivers && k in t.drivers[o] <==> (o, k) in drivers;
  }

  lemma NonIrSaid(files: seq<ObjFile>, m: Name)
    ensures m in FilesFacts(files).nonIr <==> exists f <- files :: f.NonBc? && Name(f.stem + ".o") == m
  {
    FilesSay(files, NonIr(m));
    if f :| f in files && f.NonBc? && Name(f.stem + ".o") == m { assert Says(f, NonIr(m)); }
  }

  /** A .nonbc file marks an object without IR. */
  lemma NonIrAreRows(files: seq<ObjFile>, t: Tables, m: Name)
    requires TablesHold(t, FilesFacts(files))
    ensures m in t.nonIr <==> exists f <- files :: f.NonBc? && Name(f.stem + ".o") == m
  {
    NonIrSaid(files, m);
  }

  /** A line "a : b" of an .imptab file of m; or one "a : g" of a .symlnk file of
      m and, in any .symcbs file, one "g : b". */
  ghost predicate DirectCall(files: seq<ObjFile>, m: Name, a: Name, b: Name) {
    || (exists f <- files :: f.Imptab? && HasRow(f, m, a, b))
    || (exists f <- files, c <- files, g: Name :: CallsThrough(f, c, m, a, g, b))
  }

  ghost predicate CallsThrough(f: ObjFile, c: ObjFile, m: Name, a: Name, g: Name, b: Name) {
    f.Symlnk? && HasRow(f, m, a, g) && c.Symcbs? && (g, b) in c.rows && Kept((g, b))
  }

  /** A line "a : b" of an .impnoin file of m in which b has lines of its own. */
  ghost predicate InlinedCall(files: seq<ObjFile>, m: Name, a: Name, b: Name) {
    exists f <- files :: f.Impnoin? && HasRow(f, m, a, b) && a != b && HasLine(f, b)
  }

  /** Such a call is restored if a calls something in m, and b is called. */
  ghost predicate RestoredCall(files: seq<ObjFile>, m: Name, a: Name, b: Name) {
    && InlinedCall(files, m, a, b)
    && (exists c :: DirectCall(files, m, a, c))
    && exists k, c :: DirectCall(files, k, c, b)
  }

  lemma EarlySaid(files: seq<ObjFile>, c: Triple)
    ensures c in EarlyCalls(FilesFacts(files)) <==> DirectCall(files, c.mod, c.fst, c.snd)
  {
    var x := FilesFacts(files);
    FilesSay(files, CallOf(c));
    if c in GlobalCalls(x) {
      var l, p :| l in x.links && p in x.callbacks && l.snd == p.0 && c == Triple(l.mod, l.fst, p.1);
      LinkSaid(files, l, p);
    }
    if f, d, g :| f in files && d in files && CallsThrough(f, d, c.mod, c.fst, g, c.snd) {
      ThroughSaid(files, f, d, c, g);
    }
  }

  lemma LinkFile(files: seq<ObjFile>, l: Triple) returns (f: ObjFile)
    requires l in FilesFacts(files).links
    ensures f in files && Says(f, Link(l))
  {
    FilesSay(files, Link(l));
    f :| f in files && Says(f, Link(l));
  }

  lemma CallbackFile(files: seq<ObjFile>, g: Name, b: Name) returns (f: ObjFile)
    requires (g, b) in FilesFacts(files).callbacks
    ensures f in files && Says(f, Callback(g, b))
  {
    FilesSay(files, Callback(g, b));
    f :| f in files && Says(f, Callback(g, b));
  }

  lemma LinkSaid(files: seq<ObjFile>, l: Triple, p: (Name, Name))
    requires l in FilesFacts(files).links && p in FilesFacts(files).callbacks && l.snd == p.0
    ensures DirectCall(files, l.mod, l.fst, p.1)
  {
    assert (p.0, p.1) == p;
    var f := LinkFile(files, l);
    var d := CallbackFile(files, p.0, p.1);
    assert CallsThrough(f, d, l.mod, l.fst, l.snd, p.1);
  }

  lemma ThroughSaid(files: seq<ObjFile>, f: ObjFile, d: ObjFile, c: Triple, g: Name)
    requires f in files && d in files && CallsThrough(f, d, c.mod, c.fst, g, c.snd)
    ensures c in GlobalCalls(FilesFacts(files))
  {
    var (l, p) := (Triple(c.mod, c.fst, g), (g, c.snd));
    assert Says(f, Link(l)) && Says(d, Callback(g, c.snd));
    FilesSay(files, Link(l));
    FilesSay(files, Callback(g, c.snd));
    assert l in FilesFacts(files).links && p in FilesFacts(files).callbacks;
  }

  lemma CallerSaid(files: seq<ObjFile>, m: Name, a: Name)
    ensures IsCaller(EarlyCalls(FilesFacts(files)), m, a) <==> exists c :: DirectCall(files, m, a, c)
  {
    var calls := EarlyCalls(FilesFacts(files));
    if e :| e in calls && e.mod == m && e.fst == a { EarlySaid(files, e); }
    if c :| DirectCall(files, m, a, c) {
      EarlySaid(files, Triple(m, a, c));
      assert Triple(m, a, c) in calls;
    }
  }

  lemma CalleeSaid(files: seq<ObjFile>, b: Name)
    ensures IsCallee(EarlyCalls(FilesFacts(files)), b) <==> exists k, c :: DirectCall(files, k, c, b)
  {
    var calls := EarlyCalls(FilesFacts(files));
    if e :| e in calls && e.snd == b { EarlySaid(files, e); }
    if k, c :| DirectCall(files, k, c, b) {
      EarlySaid(files, Triple(k, c, b));
      assert Triple(k, c, b) in calls;
    }
  }

  lemma InlinedSaid(files: seq<ObjFile>, m: Name, a: Name, b: Name)
    ensures Triple(m, b, a) in FilesFacts(files).noinline <==> InlinedCall(files, m, a, b)
  {
    FilesSay(files, Noinline(Triple(m, b, a)));
  }

  lemma RestoredSaid(files: seq<ObjFile>, m: Name, a: Name, b: Name)
    ensures Restored(FilesFacts(files), Triple(m, b, a)) <==> RestoredCall(files, m, a, b)
  {
    InlinedSaid(files, m, a, b);
    CallerSaid(files, m, a);
    CalleeSaid(files, b);
  }

  lemma FinalSaid(files: seq<ObjFile>, m: Name, a: Name, b: Name)
    ensures Triple(m, a, b) in FinalCalls(FilesFacts(files)) <==>
      DirectCall(files, m, a, b) || RestoredCall(files, m, a, b)
  {
    var x := FilesFacts(files);
    EarlySaid(files, Triple(m, a, b));
    RestoredSaid(files, m, a, b);
    if Restored(x, Triple(m, b, a)) {
      var n := Triple(m, b, a);
      assert Triple(n.mod, n.snd, n.fst) in FinalCalls(x);
    }
  }

  /** The callers that the tables record are exactly those the lines name. */
  lemma CallersAreRows(files: seq<ObjFile>, t: Tables, m: Name, a: Name, b: Name)
    requires TablesHold(t, FilesFacts(files))
    ensures (a, m) in At(t.callers, b) <==> DirectCall(files, m, a, b) || RestoredCall(files, m, a, b)
  {
    var calls := FinalCalls(FilesFacts(files));
    FinalSaid(files, m, a, b);
    GroupAt(Reversed(calls), b);
    if Triple(m, a, b) in calls { assert (b, (a, m)) in Reversed(calls); }
    if (b, (a, m)) in Reversed(calls) {
      var e :| e in calls && (b, (a, m)) == (e.snd, (e.fst, e.mod));
      assert e == Triple(m, a, b);
    }
  }

  /** "a : b" in an .imptab file: a is a caller of b. */
  lemma ImptabCalls(files: seq<ObjFile>, t: Tables, f: ObjFile, a: Name, b: Name)
    requires TablesHold(t, FilesFacts(files))
    requires f in files && f.Imptab? && (a, b) in f.rows && Kept((a, b))
    ensures (a, Name(f.stem + ".o")) in At(t.callers, b)
  {
    var m := Name(f.stem + ".o");
    assert HasRow(f, m, a, b);
    CallersAreRows(files, t, m, a, b);
  }

  /** "a : g" in a .symlnk file and "g : b" in a .symcbs file do the same. */
  lemma GlobalsCall(files: seq<ObjFile>, t: Tables, f: ObjFile, c: ObjFile, a: Name, g: Name, b: Name)
    requires TablesHold(t, FilesFacts(files))
    requires f in files && f.Symlnk? && (a, g) in f.rows && Kept((a, g))
    requires c in files && c.Symcbs? && (g, b) in c.rows && Kept((g, b))
    ensures (a, Name(f.stem + ".o")) in At(t.callers, b)
  {
    var m := Name(f.stem + ".o");
    assert CallsThrough(f, c, m, a, g, b);
    CallersAreRows(files, t, m, a, b);
  }

  /** "a : b" in an .impnoin file too, if b is another function with a line there, a
      has a call of its own in an .imptab file of the object, and b is called. */
  lemma ImpnoinCalls(files: seq<ObjFile>, t: Tables, f: ObjFile, own: ObjFile, other: ObjFile,
                     a: Name, b: Name, x: Name, y: Name, c: Name)
    requires TablesHold(t, FilesFacts(files)) && f in files && own in files && other in files
    requires f.Impnoin? && (a, b) in f.rows && Kept((a, b)) && a != b && (b, x) in f.rows && Kept((b, x))
    requires own.Imptab? && own.stem == f.stem && (a, y) in own.rows && Kept((a, y))
    requires other.Imptab? && (c, b) in other.rows && Kept((c, b))
    ensures (a, Name(f.stem + ".o")) in At(t.callers, b)
  {
    var (m, k) := (Name(f.stem + ".o"), Name(other.stem + ".o"));
    assert HasLine(f, b) by { assert (b, x) in f.rows && (b, x).0 == b; }
    assert HasRow(f, m, a, b) && HasRow(own, m, a, y) && HasRow(other, k, c, b);
    assert InlinedCall(files, m, a, b) && DirectCall(files, m, a, y) && DirectCall(files, k, c, b);
    CallersAreRows(files, t, m, a, b);
  }

  /** A name counts as a module symbol by what follows its leading underscores. */
  lemma {:induction false} ModuleSymbolIs(s: string, k: nat)
    requires k <= |s| && (forall i :: 0 <= i < k ==> s[i] == '_') && (k < |s| ==> s[k] != '_')
    ensures IsModuleSymbol(Name(s)) <==> s[k..] in MODULE_SYMBOLS || "llvm." <= s[k..]
  {
    StrippedIs(s, k);
  }

  lemma {:induction false} StrippedIs(s: string, k: nat)
    requires k <= |s| && (forall i :: 0 <= i < k ==> s[i] == '_') && (k < |s| ==> s[k] != '_')
    ensures StripUnderscores(s) == s[k..]
  {
    if k > 0 {
      StrippedIs(s[1..], k - 1);
      assert s[1..][k - 1..] == s[k..];
    }
  }
}
