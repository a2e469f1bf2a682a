/** The constructor of ObjDeps (dependency/gen_objdep.py): tables filled file by
    file, then completed by the link passes. */
module ObjBuild {
  import opened ObjTables
  import opened Options
  import opened Multimap
  import opened ObjFacts
  import opened ObjDepsModel

  function Reversed(calls: set<Triple>): set<(Name, SymMod)> {
    set e | e in calls :: (e.snd, (e.fst, e.mod))
  }

  function Swapped(rel: set<(Name, Name)>): set<(Name, Name)> {
    set p | p in rel :: (p.1, p.0)
  }

  /** The tables under construction. */
  class TreeWalk {
    var importTable: map<Name, set<Name>>
    var exportTable: map<Name, set<Name>>
    var globalExportTable: map<Name, set<Name>>
    var modMap: map<Name, set<Name>>
    var fdepMap: Nested
    var frevdepMap: map<Name, set<SymMod>>
    var frevdepMapNoinline: Nested
    var gdatLnks: Nested
    var gdatCbs: map<Name, set<Name>>
    var fprefRevmap: Nested
    var drvMap: map<Name, seq<Name>>
    var nonBcMods: set<Name>
    ghost var facts: Facts       // what the files read so far say
    ghost var edges: set<Triple> // the calls recorded so far

    ghost predicate SymbolTables()
      reads this
    {
      && importTable == Group(facts.imports) && exportTable == Group(facts.exports)
      && globalExportTable == Group(facts.globals) && modMap == Group(Swapped(facts.exports))
    }

    ghost predicate CallTables()
      reads this
    {
      Holds(fdepMap, edges) && frevdepMap == Group(Reversed(edges))
    }

    ghost predicate LinkTables()
      reads this
    {
      && Holds(frevdepMapNoinline, facts.noinline) && Holds(gdatLnks, facts.links)
      && gdatCbs == Group(facts.callbacks) && Holds(fprefRevmap, facts.refs)
    }

    ghost predicate DriverTable()
      reads this
    {
      && drvMap.Keys == Firsts(facts.drivers)
      && (forall o <- drvMap :: drvMap[o] != [] && NoTwice(drvMap[o]))
      && (forall o <- drvMap :: forall k :: k in drvMap[o] <==> (o, k) in facts.drivers)
      && (forall d <- facts.drivers :: exists o, k :: d == (ObjectName(o), KoName(k)))
      && nonBcMods == facts.nonIr
    }

    /** What holds while files are read: no pass has added a call. */
    ghost predicate RowTables()
      reads this
    {
      CallTables() && LinkTables() && edges == facts.calls
    }

    /** Only the symbol relations differ from x. */
    ghost predicate OnlySymbols(x: Facts)
      reads this
    {
      facts == x.(imports := facts.imports, exports := facts.exports, globals := facts.globals)
    }

    /** Only the relations of the row files differ from x. */
    ghost predicate OnlyRows(x: Facts)
      reads this
    {
      facts == x.(calls := facts.calls, noinline := facts.noinline, links := facts.links,
                  callbacks := facts.callbacks, refs := facts.refs)
    }

    ghost predicate Valid()
      reads this
    {
      SymbolTables() && CallTables() && LinkTables() && DriverTable()
    }

    constructor ()
      ensures Valid() && facts == NOTHING && edges == {}
    {
      importTable, exportTable, globalExportTable, modMap := map[], map[], map[], map[];
      fdepMap, frevdepMap, frevdepMapNoinline, gdatLnks := map[], map[], map[], map[];
      gdatCbs, fprefRevmap, drvMap, nonBcMods := map[], map[], map[], {};
      facts, edges := NOTHING, {};
    }

    /** `fdep_map` and `frevdep_map` gain one call together. */
    method AddCall(mod: Name, sym: Name, call: Name)
      requires CallTables()
      modifies `fdepMap, `frevdepMap, `edges
      ensures CallTables() && edges == old(edges) + {Triple(mod, sym, call)}
    {
      HoldsAdd(fdepMap, edges, mod, sym, call);
      GroupAdd(Reversed(edges), call, (sym, mod));
      assert Reversed(edges + {Triple(mod, sym, call)}) == Reversed(edges) + {(call, (sym, mod))};
      fdepMap := Add2(fdepMap, mod, sym, call);
      frevdepMap := Add(frevdepMap, call, (sym, mod));
      edges := edges + {Triple(mod, sym, call)};
    }

    method AddImport(mod: Name, sym: Name)
      requires SymbolTables()
      modifies `importTable, `facts
      ensures SymbolTables() && facts == old(facts).(imports := old(facts).imports + {(mod, sym)})
    {
      GroupAdd(facts.imports, mod, sym);
      importTable := Add(importTable, mod, sym);
      facts := facts.(imports := facts.imports + {(mod, sym)});
    }

    method AddExport(mod: Name, sym: Name)
      requires SymbolTables()
      modifies `exportTable, `modMap, `facts
      ensures SymbolTables() && facts == old(facts).(exports := old(facts).exports + {(mod, sym)})
    {
      GroupAdd(facts.exports, mod, sym);
      GroupAdd(Swapped(facts.exports), sym, mod);
      assert Swapped(facts.exports + {(mod, sym)}) == Swapped(facts.exports) + {(sym, mod)};
      exportTable := Add(exportTable, mod, sym);
      modMap := Add(modMap, sym, mod);
      facts := facts.(exports := facts.exports + {(mod, sym)});
    }

    method AddGlobal(mod: Name, sym: Name)
      requires SymbolTables()
      modifies `globalExportTable, `facts
      ensures SymbolTables() && facts == old(facts).(globals := old(facts).globals + {(mod, sym)})
    {
      GroupAdd(facts.globals, mod, sym);
      globalExportTable := Add(globalExportTable, mod, sym);
      facts := facts.(globals := facts.globals + {(mod, sym)});
    }

    method AddSymbol(mod: Name, r: Row)
      requires SymbolTables()
      modifies `importTable, `exportTable, `globalExportTable, `modMap, `facts
      ensures SymbolTables() && facts == Join(old(facts), SymbolFacts(mod, r)) && OnlySymbols(old(facts))
    {
      ghost var before := facts;
      if r.0 == UNDEFINED {
        AddImport(mod, r.1);
      } else {
        AddExport(mod, r.1);
        if r.0 == TEXT {
          AddGlobal(mod, r.1);
        }
      }
      JoinNothing(before);
      assert facts == Join(before, SymbolFacts(mod, r));
    }

    method LoadSymtab(mod: Name, symbols: seq<Row>)
      requires SymbolTables()
      modifies `importTable, `exportTable, `globalExportTable, `modMap, `facts
      ensures SymbolTables() && facts == Join(old(facts), SymbolsFacts(mod, symbols)) && OnlySymbols(old(facts))
    {
      JoinNothing(facts);
      for i := 0 to |symbols|
        invariant SymbolTables() && OnlySymbols(old(facts))
        invariant facts == Join(old(facts), SymbolsFacts(mod, symbols[..i]))
      {
        JoinStep(old(facts), SymbolsFacts(mod, symbols[..i]), SymbolFacts(mod, symbols[i]));
        AddSymbol(mod, symbols[i]);
        assert symbols[..i + 1][..i] == symbols[..i];
      }
      assert symbols[..|symbols|] == symbols;
    }

    method LoadRows(f: ObjFile)
      requires f.Imptab? || f.Impnoin? || f.Symlnk? || f.Symcbs? || f.Fptref?
      requires RowTables()
      modifies `fdepMap, `frevdepMap, `frevdepMapNoinline, `gdatLnks, `gdatCbs, `fprefRevmap, `edges, `facts
      ensures RowTables()
      ensures facts == Join(old(facts), FileFacts(f)) && OnlyRows(old(facts))
    {
      JoinNothing(facts);
      var rows := f.rows;
      for i := 0 to |rows|
        invariant RowTables()
        invariant facts == Join(old(facts), RowsFacts(f, rows[..i])) && OnlyRows(old(facts))
      {
        RowsFactsNext(f, rows, i, old(facts));
        AddRow(f, rows[i]);
      }
      assert rows[..|rows|] == rows;
    }

    /** Where a new member lands in the iteration order of a set is not specified. */
    static method InsertSomewhere(members: seq<Name>, k: Name) returns (r: seq<Name>)
      requires NoTwice(members) && k !in members
      ensures NoTwice(r) && r != [] && forall x :: x in r <==> x in members || x == k
    {
      var i :| 0 <= i <= |members|;
      r := members[..i] + [k] + members[i..];
      assert members == members[..i] + members[i..];
    }

    /** A driver joins the set of an object. */
    method AddDriver(o: string, stem: string)
      requires DriverTable()
      modifies `drvMap, `facts
      ensures DriverTable()
      ensures facts == old(facts).(drivers := old(facts).drivers + {(ObjectName(o), KoName(stem))})
    {
      var (key, ko) := (ObjectName(o), KoName(stem));
      var members := if key in drvMap then drvMap[key] else [];
      if ko !in members {
        members := InsertSomewhere(members, ko);
      }
      drvMap := drvMap[key := members];
      facts := facts.(drivers := facts.drivers + {(key, ko)});
    }

    method LoadModFile(stem: string, objects: seq<string>)
      requires DriverTable()
      modifies `drvMap, `facts
      ensures DriverTable() && facts == Join(old(facts), FileFacts(ModFile(stem, objects)))
      ensures facts == old(facts).(drivers := facts.drivers)
    {
      JoinNothing(facts);
      for i := 0 to |objects|
        invariant DriverTable() && facts == old(facts).(drivers := facts.drivers)
        invariant facts ==
          Join(old(facts), NOTHING.(drivers := set o | o in objects[..i] :: (ObjectName(o), KoName(stem))))
      {
        AddDriver(objects[i], stem);
        assert objects[..i + 1] == objects[..i] + [objects[i]];
      }
      assert objects[..|objects|] == objects;
    }

    method LoadNonBc(stem: string)
      requires DriverTable()
      modifies `nonBcMods, `facts
      ensures DriverTable() && facts == Join(old(facts), FileFacts(NonBc(stem)))
      ensures facts == old(facts).(nonIr := facts.nonIr)
    {
      JoinNothing(facts);
      nonBcMods := nonBcMods + {ObjectName(stem)};
      facts := facts.(nonIr := facts.nonIr + {ObjectName(stem)});
    }

    method LoadFile(f: ObjFile)
      requires Valid() && edges == facts.calls
      modifies this
      ensures Valid() && edges == facts.calls && facts == Join(old(facts), FileFacts(f))
    {
      if f.ModFile? || f.NonBc? {
        LoadDriverFile(f);
      } else {
        LoadObjectFile(f);
      }
    }

    /** A file that belongs to one object. */
    method LoadObjectFile(f: ObjFile)
      requires !f.ModFile? && !f.NonBc? && SymbolTables() && RowTables()
      modifies `importTable, `exportTable, `globalExportTable, `modMap
      modifies `fdepMap, `frevdepMap, `frevdepMapNoinline, `gdatLnks, `gdatCbs, `fprefRevmap, `edges, `facts
      ensures SymbolTables() && RowTables() && facts == Join(old(facts), FileFacts(f))
      ensures facts.drivers == old(facts.drivers) && facts.nonIr == old(facts.nonIr)
    {
      if f.Symtab? {
        LoadSymtab(f.Mod(), f.symbols);
      } else {
        LoadRows(f);
      }
    }

    method LoadDriverFile(f: ObjFile)
      requires (f.ModFile? || f.NonBc?) && DriverTable()
      modifies `drvMap, `nonBcMods, `facts
      ensures DriverTable() && facts == Join(old(facts), FileFacts(f))
      ensures facts == old(facts).(drivers := facts.drivers, nonIr := facts.nonIr)
    {
      match f {
        case ModFile(stem, objects) => LoadModFile(stem, objects);
        case NonBc(stem) => LoadNonBc(stem);
      }
    }

    method LoadFiles(files: seq<ObjFile>)
      requires Valid() && facts == NOTHING && edges == {}
      modifies this
      ensures Valid() && facts == FilesFacts(files) && edges == facts.calls
    {
      for i := 0 to |files|
        invariant Valid() && facts == FilesFacts(files[..i]) && edges == facts.calls
      {
        LoadFile(files[i]);
        assert files[..i + 1][..i] == files[..i];
      }
      assert files[..|files|] == files;
    }

    /** One kept row of a per-object table. */
    method AddRow(f: ObjFile, r: Row)
      requires f.Imptab? || f.Impnoin? || f.Symlnk? || f.Symcbs? || f.Fptref?
      requires RowTables()
      modifies `fdepMap, `frevdepMap, `frevdepMapNoinline, `gdatLnks, `gdatCbs, `fprefRevmap, `edges, `facts
      ensures RowTables()
      ensures facts == Join(old(facts), RowFacts(f, r)) && OnlyRows(old(facts))
    {
      JoinNothing(facts);
      if IsModuleSymbol(r.0) || IsModuleSymbol(r.1) {
        return;
      }
      var mod := f.Mod();
      match f {
        case Imptab(_, _) =>
          AddCall(mod, r.0, r.1);
        case Impnoin(_, rows) =>
          if r.0 != r.1 && r.1 in LocalSyms(rows) {
            HoldsAdd(frevdepMapNoinline, facts.noinline, mod, r.1, r.0);
            frevdepMapNoinline := Add2(frevdepMapNoinline, mod, r.1, r.0);
          }
        case Symlnk(_, _) =>
          HoldsAdd(gdatLnks, facts.links, mod, r.0, r.1);
          gdatLnks := Add2(gdatLnks, mod, r.0, r.1);
        case Symcbs(_, _) =>
          GroupAdd(facts.callbacks, r.0, r.1);
          gdatCbs := Add(gdatCbs, r.0, r.1);
        case Fptref(_, _) =>
          HoldsAdd(fprefRevmap, facts.refs, mod, r.1, r.0);
          fprefRevmap := Add2(fprefRevmap, mod, r.1, r.0);
      }
      facts := Join(facts, RowFacts(f, r));
    }

    /** The callbacks of one global become callees of one function. */
    method LinkGlobal(l: Triple)
      requires CallTables() && LinkTables() && l in facts.links
      modifies `fdepMap, `frevdepMap, `edges
      ensures CallTables() && old(edges) <= edges <= old(edges) + GlobalCalls(facts)
      ensures Linked(facts, l, edges)
    {
      if l.snd !in gdatCbs {
        GroupAt(facts.callbacks, l.snd);
        return;
      }
      GroupAt(facts.callbacks, l.snd);
      var todo := gdatCbs[l.snd];
      while todo != {}
        invariant todo <= gdatCbs[l.snd] && CallTables()
        invariant old(edges) <= edges <= old(edges) + GlobalCalls(facts)
        invariant forall cb <- gdatCbs[l.snd] - todo :: Triple(l.mod, l.fst, cb) in edges
        decreases todo
      {
        var cb :| cb in todo;
        todo := todo - {cb};
        assert (l.snd, cb) in facts.callbacks;
        AddCall(l.mod, l.fst, cb);
      }
    }

    method LinkFunction(mod: Name, func: Name)
      requires CallTables() && LinkTables() && mod in gdatLnks && func in gdatLnks[mod]
      modifies `fdepMap, `frevdepMap, `edges
      ensures CallTables() && old(edges) <= edges <= old(edges) + GlobalCalls(facts)
      ensures forall gv <- gdatLnks[mod][func] :: Linked(facts, Triple(mod, func, gv), edges)
    {
      var todo := gdatLnks[mod][func];
      while todo != {}
        invariant todo <= gdatLnks[mod][func] && CallTables()
        invariant old(edges) <= edges <= old(edges) + GlobalCalls(facts)
        invariant forall gv <- gdatLnks[mod][func] - todo :: Linked(facts, Triple(mod, func, gv), edges)
        decreases todo
      {
        var gv :| gv in todo;
        todo := todo - {gv};
        LinkGlobal(Triple(mod, func, gv));
      }
    }

    method LinkModule(mod: Name)
      requires CallTables() && LinkTables() && mod in gdatLnks
      modifies `fdepMap, `frevdepMap, `edges
      ensures CallTables() && old(edges) <= edges <= old(edges) + GlobalCalls(facts)
      ensures forall func <- gdatLnks[mod], gv <- gdatLnks[mod][func] :: Linked(facts, Triple(mod, func, gv), edges)
    {
      var todo := gdatLnks[mod].Keys;
      while todo != {}
        invariant todo <= gdatLnks[mod].Keys && CallTables()
        invariant old(edges) <= edges <= old(edges) + GlobalCalls(facts)
        invariant forall func <- gdatLnks[mod].Keys - todo, gv <- gdatLnks[mod][func] ::
          Linked(facts, Triple(mod, func, gv), edges)
        decreases todo
      {
        var func :| func in todo;
        todo := todo - {func};
        LinkFunction(mod, func);
      }
    }

    /** First pass: functions reach callbacks through global variables. */
    method LinkGlobals()
      requires CallTables() && LinkTables() && edges == facts.calls
      modifies `fdepMap, `frevdepMap, `edges
      ensures CallTables() && edges == EarlyCalls(facts)
    {
      var todo := gdatLnks.Keys;
      while todo != {}
        invariant todo <= gdatLnks.Keys && CallTables()
        invariant facts.calls <= edges <= EarlyCalls(facts)
        invariant forall mod <- gdatLnks.Keys - todo, func <- gdatLnks[mod], gv <- gdatLnks[mod][func] ::
          Linked(facts, Triple(mod, func, gv), edges)
        decreases todo
      {
        var mod :| mod in todo;
        todo := todo - {mod};
        LinkModule(mod);
      }
      forall e | e in GlobalCalls(facts) ensures e in edges {
        var l, c :| l in facts.links && c in facts.callbacks && l.snd == c.0 && e == Triple(l.mod, l.fst, c.1);
        assert l.snd in At2(gdatLnks, l.mod, l.fst) && Triple(l.mod, l.fst, l.snd) == l;
        assert Linked(facts, l, edges);
      }
    }

    /** One call seen without inlining. Looking up `fdep_map[mod]` creates it. */
    method RestoreCall(mod: Name, called: Name, sym: Name)
      requires CallTables() && LinkTables() && Triple(mod, called, sym) in facts.noinline
      requires EarlyCalls(facts) <= edges <= FinalCalls(facts)
      modifies `fdepMap, `frevdepMap, `edges
      ensures CallTables() && old(edges) <= edges <= FinalCalls(facts)
      ensures Restored(facts, Triple(mod, called, sym)) ==> Triple(mod, sym, called) in edges
    {
      HoldsTouch(fdepMap, edges, mod);
      if mod !in fdepMap {
        fdepMap := fdepMap[mod := map[]];
      }
      RestoredKnown(facts, fdepMap, frevdepMap, edges, mod, sym, called);
      if sym in fdepMap[mod] && called in frevdepMap && called !in fdepMap[mod][sym] {
        AddCall(mod, sym, called);
      }
    }

    method RestoreSymbol(mod: Name, called: Name)
      requires CallTables() && LinkTables() && mod in frevdepMapNoinline && called in frevdepMapNoinline[mod]
      requires EarlyCalls(facts) <= edges <= FinalCalls(facts)
      modifies `fdepMap, `frevdepMap, `edges
      ensures CallTables() && old(edges) <= edges <= FinalCalls(facts)
      ensures forall sym <- frevdepMapNoinline[mod][called] ::
        Restored(facts, Triple(mod, called, sym)) ==> Triple(mod, sym, called) in edges
    {
      var todo := frevdepMapNoinline[mod][called];
      while todo != {}
        invariant todo <= frevdepMapNoinline[mod][called] && CallTables()
        invariant old(edges) <= edges <= FinalCalls(facts)
        invariant forall sym <- frevdepMapNoinline[mod][called] - todo ::
          Restored(facts, Triple(mod, called, sym)) ==> Triple(mod, sym, called) in edges
        decreases todo
      {
        var sym :| sym in todo;
        todo := todo - {sym};
        RestoreCall(mod, called, sym);
      }
    }

    method RestoreModule(mod: Name)
      requires CallTables() && LinkTables() && mod in frevdepMapNoinline
      requires EarlyCalls(facts) <= edges <= FinalCalls(facts)
      modifies `fdepMap, `frevdepMap, `edges
      ensures CallTables() && old(edges) <= edges <= FinalCalls(facts)
      ensures forall called <- frevdepMapNoinline[mod], sym <- frevdepMapNoinline[mod][called] ::
        Restored(facts, Triple(mod, called, sym)) ==> Triple(mod, sym, called) in edges
    {
      var todo := frevdepMapNoinline[mod].Keys;
      while todo != {}
        invariant todo <= frevdepMapNoinline[mod].Keys && CallTables()
        invariant old(edges) <= edges <= FinalCalls(facts)
        invariant forall called <- frevdepMapNoinline[mod].Keys - todo, sym <- frevdepMapNoinline[mod][called] ::
          Restored(facts, Triple(mod, called, sym)) ==> Triple(mod, sym, called) in edges
        decreases todo
      {
        var called :| called in todo;
        todo := todo - {called};
        RestoreSymbol(mod, called);
      }
    }

    /** Last pass: calls that only inlining had hidden. */
    method RestoreCalls()
      requires CallTables() && LinkTables() && edges == EarlyCalls(facts)
      modifies `fdepMap, `frevdepMap, `edges
      ensures CallTables() && edges == FinalCalls(facts)
    {
      var todo := frevdepMapNoinline.Keys;
      while todo != {}
        invariant todo <= frevdepMapNoinline.Keys && CallTables()
        invariant EarlyCalls(facts) <= edges <= FinalCalls(facts)
        invariant forall mod <- frevdepMapNoinline.Keys - todo, called <- frevdepMapNoinline[mod],
          sym <- frevdepMapNoinline[mod][called] ::
          Restored(facts, Triple(mod, called, sym)) ==> Triple(mod, sym, called) in edges
        decreases todo
      {
        var mod :| mod in todo;
        todo := todo - {mod};
        RestoreModule(mod);
      }
      forall e | e in FinalCalls(facts) ensures e in edges {
        if e !in EarlyCalls(facts) {
          var n :| n in facts.noinline && Restored(facts, n) && e == Triple(n.mod, n.snd, n.fst);
          assert n.snd in At2(frevdepMapNoinline, n.mod, n.fst) && Triple(n.mod, n.fst, n.snd) == n;
        }
      }
    }
  }

  /** The callbacks of the linked global are recorded. */
  ghost predicate Linked(x: Facts, l: Triple, edges: set<Triple>) {
    forall c <- x.callbacks :: c.0 == l.snd ==> Triple(l.mod, l.fst, c.1) in edges
  }

  /** Presence of a key tells whether a symbol calls, or is called. */
  lemma EndsKnown(fdep: Nested, frev: map<Name, set<SymMod>>, edges: set<Triple>, mod: Name, sym: Name, called: Name)
    requires Holds(fdep, edges) && frev == Group(Reversed(edges)) && mod in fdep
    ensures sym in fdep[mod] <==> IsCaller(edges, mod, sym)
    ensures called in frev <==> IsCallee(edges, called)
    ensures sym in fdep[mod] ==> (called in fdep[mod][sym] <==> Triple(mod, sym, called) in edges)
  {
    GroupAt(Reversed(edges), called);
    if sym in fdep[mod] {
      var v :| v in fdep[mod][sym];
      assert Triple(mod, sym, v) in edges;
    }
    if e :| e in edges && e.mod == mod && e.fst == sym {
      assert e.snd in At2(fdep, mod, sym);
    }
    if e :| e in edges && e.snd == called {
      assert (called, (e.fst, e.mod)) in Reversed(edges);
    }
    if called in frev {
      var p :| p in frev[called];
      assert (called, p) in Reversed(edges);
    }
  }

  /** The guard of the last pass, read off the tables. */
  lemma RestoredKnown(x: Facts, fdep: Nested, frev: map<Name, set<SymMod>>, edges: set<Triple>, mod: Name,
                      sym: Name, called: Name)
    requires Holds(fdep, edges) && frev == Group(Reversed(edges)) && mod in fdep
    requires EarlyCalls(x) <= edges <= FinalCalls(x) && Triple(mod, called, sym) in x.noinline
    ensures sym in fdep[mod] && called in frev <==> Restored(x, Triple(mod, called, sym))
    ensures sym in fdep[mod] && called in fdep[mod][sym] ==> Triple(mod, sym, called) in edges
    ensures Restored(x, Triple(mod, called, sym)) ==> Triple(mod, sym, called) in FinalCalls(x)
  {
    EndsKnown(fdep, frev, edges, mod, sym, called);
    EndsUnchanged(x, edges, mod, sym, called);
    var n := Triple(mod, called, sym);
    if Restored(x, n) { assert Triple(n.mod, n.snd, n.fst) in FinalCalls(x); }
  }

  /** The last pass never changes who calls or is called. */
  lemma EndsUnchanged(x: Facts, edges: set<Triple>, mod: Name, sym: Name, called: Name)
    requires EarlyCalls(x) <= edges <= FinalCalls(x)
    ensures IsCaller(edges, mod, sym) <==> IsCaller(EarlyCalls(x), mod, sym)
    ensures IsCallee(edges, called) <==> IsCallee(EarlyCalls(x), called)
  {
    if e :| e in edges && e.mod == mod && e.fst == sym && e !in EarlyCalls(x) {
      var n :| n in x.noinline && Restored(x, n) && e == Triple(n.mod, n.snd, n.fst);
    }
    if e :| e in edges && e.snd == called && e !in EarlyCalls(x) {
      var n :| n in x.noinline && Restored(x, n) && e == Triple(n.mod, n.snd, n.fst);
    }
  }

  /** The queries' tables hold the facts; only the order of a driver set is free. */
  ghost predicate TablesHold(t: Tables, x: Facts) {
    && t.imports == Group(x.imports) && t.exports == Group(x.exports) && t.globals == Group(x.globals)
    && t.defs == Group(Swapped(x.exports)) && t.callers == Group(Reversed(FinalCalls(x)))
    && Holds(t.refs, x.refs) && t.nonIr == x.nonIr
    && t.drivers.Keys == Firsts(x.drivers)
    && (forall o <- t.drivers :: NoTwice(t.drivers[o]) && forall k :: k in t.drivers[o] <==> (o, k) in x.drivers)
  }

  /** The constructor of ObjDeps; the caller keeps its reverse dependencies. */
  method Build(files: seq<ObjFile>, btobjDeps: map<Name, NameSet>) returns (o: ObjDeps, walk: TreeWalk)
    requires ObjDeps.Distinct(btobjDeps)
    ensures o.Valid() && o.objBuildRevdeps == btobjDeps && TablesHold(o.Snapshot(), FilesFacts(files))
    ensures walk.CallTables() && walk.edges == FinalCalls(FilesFacts(files)) && walk.frevdepMap == o.frevdepMap
  {
    walk := new TreeWalk();
    walk.LoadFiles(files);
    walk.LinkGlobals();
    walk.RestoreCalls();
    SuffixesDiffer(walk.drvMap, walk.facts);
    o := new ObjDeps(walk.importTable, walk.exportTable, walk.globalExportTable, walk.frevdepMap, walk.modMap,
                     walk.drvMap, walk.fprefRevmap, walk.nonBcMods, btobjDeps);
  }

  /** Object names end in .o and driver names in .ko: no driver is an object. */
  lemma SuffixesDiffer(drivers: map<Name, seq<Name>>, x: Facts)
    requires drivers.Keys == Firsts(x.drivers)
    requires forall o <- drivers :: drivers[o] != [] && forall k :: k in drivers[o] <==> (o, k) in x.drivers
    requires forall d <- x.drivers :: exists o, k :: d == (ObjectName(o), KoName(k))
    ensures DriversOk(drivers)
  {
    forall m, k | m in drivers && k in drivers[m] ensures k !in drivers {
      assert (m, k) in x.drivers;
      var o, stem :| (m, k) == (ObjectName(o), KoName(stem));
      if k in drivers {
        var d :| d in x.drivers && d.0 == k;
        var o', stem' :| d == (ObjectName(o'), KoName(stem'));
        NamesDiffer(o', stem);
      }
    }
  }

  lemma NamesDiffer(o: string, k: string)
    ensures ObjectName(o) != KoName(k)
  {
    var (a, b) := (ObjectName(o).text, KoName(k).text);
    if |a| == |b| { assert a[|a| - 2] == '.' && b[|b| - 2] == 'k'; }
  }

  /** The tables do not depend on the order in which the files were visited:
      all but the driver sets are equal, and those have the same members. */
  lemma TablesIgnoreOrder(files: seq<ObjFile>, files': seq<ObjFile>, t: Tables, t': Tables)
    requires forall f :: f in files <==> f in files'
    requires TablesHold(t, FilesFacts(files)) && TablesHold(t', FilesFacts(files'))
    ensures t'.(revdeps := t.revdeps, drivers := t.drivers, refs := t.refs) == t
    ensures Reordered(t.drivers, t'.drivers)
    ensures forall o <- t.drivers :: |t'.drivers[o]| == |t.drivers[o]|
    ensures (forall o <- t.drivers :: |t.drivers[o]| == 1) ==> t'.drivers == t.drivers
    ensures forall m, s, p :: HasReferencer(t, m, s, p) <==> HasReferencer(t', m, s, p)
  {
    FactsIgnoreOrder(files, files');
    forall o | o in t.drivers ensures t.drivers[o] != [] && t'.drivers[o] != [] {
      var d :| d in FilesFacts(files).drivers && d.0 == o;
      assert d.1 in t.drivers[o] && d.1 in t'.drivers[o];
    }
    SameSizes(t.drivers, t'.drivers);
    forall m, s, p ensures HasReferencer(t, m, s, p) <==> HasReferencer(t', m, s, p) {
      SameReferencers(t, t', FilesFacts(files).refs, m, s, p);
    }
  }

  lemma SameReferencers(t: Tables, t': Tables, refs: set<Triple>, m: Name, s: Name, p: set<Pair>)
    requires Holds(t.refs, refs) && Holds(t'.refs, refs)
    ensures HasReferencer(t, m, s, p) <==> HasReferencer(t', m, s, p)
  {
    forall r ensures r in At2(t.refs, m, s) <==> r in At2(t'.refs, m, s) {
      if r in At2(t.refs, m, s) { assert Triple(m, s, r) in refs; }
      if r in At2(t'.refs, m, s) { assert Triple(m, s, r) in refs; }
    }
  }

  /** `fdep_map` and `frevdep_map` are inverse, and so are `export_table` and
      `mod_map`; a function linked to a global calls all its callbacks. */
  lemma TablesAreInverse(t: Tables, x: Facts, fdep: Nested, m: Name, s: Name, c: Name)
    requires TablesHold(t, x) && Holds(fdep, FinalCalls(x))
    ensures c in At2(fdep, m, s) <==> (s, m) in At(t.callers, c)
    ensures s in At(t.exports, m) <==> m in At(t.defs, s)
    ensures forall g :: Triple(m, s, g) in x.links && (g, c) in x.callbacks ==> c in At2(fdep, m, s)
  {
    GroupAt(Reversed(FinalCalls(x)), c);
    GroupAt(x.exports, m);
    GroupAt(Swapped(x.exports), s);
    if c in At2(fdep, m, s) {
      assert Triple(m, s, c) in FinalCalls(x);
      assert (c, (s, m)) in Reversed(FinalCalls(x));
    }
    if (s, m) in At(t.callers, c) {
      assert Triple(m, s, c) in FinalCalls(x);
    }
    if m in At(t.defs, s) { assert (m, s) in x.exports; }
    if s in At(t.exports, m) { assert (s, m) in Swapped(x.exports); }
    forall g | Triple(m, s, g) in x.links && (g, c) in x.callbacks ensures c in At2(fdep, m, s) {
      assert Triple(m, s, c) in GlobalCalls(x);
    }
  }

  lemma BuiltInverse(t: Tables, x: Facts)
    requires TablesHold(t, x)
    ensures Inverse(t)
  {
    forall m, s
      ensures s in At(t.exports, m) <==> m in At(t.defs, s)
    {
      GroupAt(x.exports, m);
      GroupAt(Swapped(x.exports), s);
      if m in At(t.defs, s) { assert (m, s) in x.exports; }
      if s in At(t.exports, m) { assert (s, m) in Swapped(x.exports); }
    }
  }

  lemma RowsFactsNext(f: ObjFile, rows: seq<Row>, i: nat, start: Facts)
    requires i < |rows| && (f.Imptab? || f.Impnoin? || f.Symlnk? || f.Symcbs? || f.Fptref?)
    ensures Join(start, RowsFacts(f, rows[..i + 1])) == Join(Join(start, RowsFacts(f, rows[..i])), RowFacts(f, rows[i]))
  {
    assert rows[..i + 1][..i] == rows[..i];
    JoinStep(start, RowsFacts(f, rows[..i]), RowFacts(f, rows[i]));
  }

  lemma JoinNothing(a: Facts)
    ensures Join(a, NOTHING) == a && Join(NOTHING, a) == a
  {
  }

  lemma JoinStep(a: Facts, b: Facts, c: Facts)
    ensures Join(a, Join(b, c)) == Join(Join(a, b), c)
  {
  }
}
