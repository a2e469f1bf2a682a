/** The class ObjDeps of dependency/gen_objdep.py: dictionaries of sets that its
    queries share, alias and silently extend. */
module ObjDepsModel {
  import opened ObjTables
  import opened Options

  /** A mutable set object, shared by reference. */
  class NameSet {
    var elems: set<Name>

    constructor (init: set<Name>)
      ensures elems == init
    {
      elems := init;
    }

    method Add(x: Name)
      modifies this
      ensures elems == old(elems) + {x}
    {
      elems := elems + {x};
    }
  }

  class ObjDeps {
    var objBuildRevdeps: map<Name, NameSet>  // the sets belong to the caller's dictionary
    var importTable: map<Name, set<Name>>
    var exportTable: map<Name, set<Name>>
    var globalExportTable: map<Name, set<Name>>
    var frevdepMap: map<Name, set<SymMod>>
    var modMap: map<Name, set<Name>>
    var drvMap: map<Name, seq<Name>>
    var fprefRevmap: map<Name, map<Name, set<Name>>>
    var nonBcMods: set<Name>

    constructor (imports: map<Name, set<Name>>, exports: map<Name, set<Name>>, globals: map<Name, set<Name>>,
                 callers: map<Name, set<SymMod>>, defs: map<Name, set<Name>>, drivers: map<Name, seq<Name>>,
                 refs: map<Name, map<Name, set<Name>>>, nonIr: set<Name>, btobjDeps: map<Name, NameSet>)
      requires DriversOk(drivers) && Distinct(btobjDeps)
      ensures Valid() && objBuildRevdeps == btobjDeps && frevdepMap == callers
      ensures Snapshot() == Tables(Revdeps(), imports, exports, globals, callers, defs, drivers, refs, nonIr)
    {
      objBuildRevdeps := btobjDeps;
      importTable, exportTable, globalExportTable := imports, exports, globals;
      frevdepMap, modMap, drvMap := callers, defs, drivers;
      fprefRevmap, nonBcMods := refs, nonIr;
    }

    /** No two keys share a set object. */
    static ghost predicate Distinct(sets: map<Name, NameSet>) {
      forall m, m' :: m in sets && m' in sets && m != m' ==> sets[m] != sets[m']
    }

    ghost function Revdeps(): map<Name, set<Name>>
      reads `objBuildRevdeps, objBuildRevdeps.Values
    {
      map m | m in objBuildRevdeps :: objBuildRevdeps[m].elems
    }

    ghost function Snapshot(): Tables
      reads this, objBuildRevdeps.Values
    {
      Tables(Revdeps(), importTable, exportTable, globalExportTable, frevdepMap, modMap, drvMap, fprefRevmap, nonBcMods)
    }

    ghost predicate Valid()
      reads this, objBuildRevdeps.Values
    {
      Distinct(objBuildRevdeps) && Snapshot().WellFormed()
    }

    method Imports(mod: Name) returns (r: Option<set<Name>>)
      ensures r == if mod in importTable then Some(importTable[mod]) else None
    {
      if mod !in importTable {
        return None;
      }
      return Some(importTable[mod]);
    }

    method IsIrMod(mod: Name) returns (r: bool)
      ensures r == IsIr(Snapshot(), mod) && (r <==> mod !in nonBcMods)
    {
      if mod in nonBcMods {
        return false;
      }
      return true;
    }

    method GetMods(sym: Name, globalOnly: bool) returns (r: Option<set<Name>>)
      ensures !globalOnly ==> r == if sym in modMap then Some(modMap[sym]) else None
      ensures globalOnly ==>
        r == if GlobalDefiners(Snapshot(), sym) == {} then None else Some(GlobalDefiners(Snapshot(), sym))
      ensures globalOnly && r.Some? ==>
        forall m :: m in r.value <==> m in At(modMap, sym) && sym in At(globalExportTable, m)
    {
      if sym !in modMap {
        return None;
      }
      if !globalOnly {
        return Some(modMap[sym]);
      }
      var gmods := {};
      var todo := modMap[sym];
      while todo != {}
        invariant todo <= modMap[sym]
        invariant gmods == set m | m in modMap[sym] - todo && sym in At(globalExportTable, m)
        decreases todo
      {
        var mod :| mod in todo;
        todo := todo - {mod};
        if mod in globalExportTable && sym in globalExportTable[mod] {
          gmods := gmods + {mod};
        }
      }
      assert modMap[sym] - todo == modMap[sym];
      if |gmods| == 0 {
        return None;
      }
      return Some(gmods);
    }

    method HasReferencer(mod: Name, sym: Name, patchedSyms: set<Pair>) returns (r: bool)
      ensures r == ObjTables.HasReferencer(Snapshot(), mod, sym, patchedSyms)
      ensures r <==>
        mod in fprefRevmap && sym in fprefRevmap[mod] && exists x <- fprefRevmap[mod][sym] :: (mod, x) !in patchedSyms
    {
      if mod !in fprefRevmap || sym !in fprefRevmap[mod] {
        return false;
      }
      var refers := fprefRevmap[mod][sym];
      var patchedRefers := {};
      var todo := patchedSyms;
      while todo != {}
        invariant todo <= patchedSyms
        invariant forall s :: s in patchedRefers <==> (mod, s) in patchedSyms - todo
        decreases todo
      {
        var p :| p in todo;
        todo := todo - {p};
        if p.0 == mod {
          patchedRefers := patchedRefers + {p.1};
        }
      }
      if |refers - patchedRefers| == 0 {
        assert forall r <- refers :: r !in patchedRefers ==> r in refers - patchedRefers;
        return false;
      }
      assert refers - patchedRefers != {};
      return true;
    }

    /** The loop over the callers of one called symbol. */
    method AddCallers(candid: map<SymMod, set<SymMod>>, key: SymMod) returns (r: map<SymMod, set<SymMod>>)
      requires DriversOk(drvMap) && key.0 in frevdepMap
      ensures r == if frevdepMap[key.0] == {} then candid
                   else candid[key := At(candid, key) + Renamed(drvMap, frevdepMap[key.0])]
    {
      r := candid;
      var todo := frevdepMap[key.0];
      ghost var done: set<SymMod> := {};
      while todo != {}
        invariant done + todo == frevdepMap[key.0] && done !! todo
        invariant r == if done == {} then candid else candid[key := At(candid, key) + Renamed(drvMap, done)]
        decreases todo
      {
        var c :| c in todo;
        todo := todo - {c};
        var cmod := c.1;
        if cmod in drvMap {
          cmod := drvMap[cmod][0];
        }
        assert Renamed(drvMap, done + {c}) == Renamed(drvMap, done) + {(c.0, cmod)};
        r := r[key := (if key in r then r[key] else {}) + {(c.0, cmod)}];
        done := done + {c};
        assert r[key] == At(candid, key) + Renamed(drvMap, done);
        assert r == candid[key := r[key]];
      }
      assert done == frevdepMap[key.0];
    }

    /** The fields agree with t, up to empty entries of the caller table. */
    ghost predicate Reads(t: Tables)
      reads this
    {
      && t.WellFormed() && exportTable == t.exports && drvMap == t.drivers
      && forall s :: At(frevdepMap, s) == At(t.callers, s)
    }

    /** One exported symbol: its entry is created if missing, then read. */
    method AddSymbol(candid: map<SymMod, set<SymMod>>, key: SymMod, ghost t: Tables)
      returns (r: map<SymMod, set<SymMod>>)
      requires Reads(t) && forall k <- candid :: candid[k] == Callers(t, k.0)
      modifies this`frevdepMap
      ensures Reads(t) && frevdepMap == Touch(old(frevdepMap), {key.0})
      ensures r.Keys == candid.Keys + if At(t.callers, key.0) != {} then {key} else {}
      ensures forall k <- r :: r[k] == Callers(t, k.0)
    {
      if key.0 !in frevdepMap {
        frevdepMap := frevdepMap[key.0 := {}];
      }
      assert At(frevdepMap, key.0) == At(t.callers, key.0);
      r := AddCallers(candid, key);
    }

    /** The loop over the exported symbols of one module of the unit. */
    method AddModule(candid: map<SymMod, set<SymMod>>, m: Name, ghost t: Tables)
      returns (crash: bool, r: map<SymMod, set<SymMod>>, ghost touched: set<Name>)
      requires Reads(t) && forall k <- candid :: candid[k] == Callers(t, k.0)
      modifies this`frevdepMap
      ensures Reads(t) && frevdepMap == Touch(old(frevdepMap), touched)
      ensures crash <==> Ambiguous(t, {m})
      ensures !crash ==> r.Keys == candid.Keys + CalledOf(t, m, At(t.exports, m))
      ensures forall k <- r :: r[k] == Callers(t, k.0)
    {
      touched := {};
      r := candid;
      if m !in exportTable {
        return false, r, touched;
      }
      var mod := m;
      var todo := exportTable[m];
      ghost var keys: set<SymMod> := {};
      while todo != {}
        invariant todo <= exportTable[m]
        invariant if todo == exportTable[m] then mod == m else mod == Driver(t.drivers, m) && !Ambiguous(t, {m})
        invariant frevdepMap == Touch(old(frevdepMap), touched) && Reads(t)
        invariant keys == CalledOf(t, m, exportTable[m] - todo) && r.Keys == candid.Keys + keys
        invariant forall k <- r :: r[k] == Callers(t, k.0)
        decreases todo
      {
        var relsym :| relsym in todo;
        if mod in drvMap {
          if |drvMap[mod]| != 1 {
            return true, r, touched;
          }
          mod := drvMap[mod][0];
        }
        r := AddSymbol(r, (relsym, mod), t);
        TouchTwice(old(frevdepMap), touched, {relsym});
        touched := touched + {relsym};
        MovedOver(exportTable[m], todo, relsym);
        CalledOneMore(t, m, exportTable[m] - todo, relsym);
        ghost var more := if At(t.callers, relsym) != {} then {(relsym, mod)} else {};
        UnionAssoc(candid.Keys, keys, more);
        keys := keys + more;
        todo := todo - {relsym};
      }
      NoneLeft(exportTable[m], todo);
      crash := false;
    }

    /** The loop over the modules of the unit. */
    method CollectUnit(testmods: set<Name>, ghost t: Tables) returns (r: Answer, ghost touched: set<Name>)
      requires Reads(t)
      modifies this`frevdepMap
      ensures frevdepMap == Touch(old(frevdepMap), touched)
      ensures r == if Ambiguous(t, testmods) then Crash else Found(map k | k in Called(t, testmods) :: Callers(t, k.0))
    {
      touched := {};
      var candid: map<SymMod, set<SymMod>> := map[];
      var todo := testmods;
      while todo != {}
        invariant todo <= testmods && Reads(t) && frevdepMap == Touch(old(frevdepMap), touched)
        invariant !Ambiguous(t, testmods - todo)
        invariant candid.Keys == Called(t, testmods - todo)
        invariant forall k <- candid :: candid[k] == Callers(t, k.0)
        decreases todo
      {
        var m :| m in todo;
        ghost var done := testmods - todo;
        MovedOver(testmods, todo, m);
        todo := todo - {m};
        var crash;
        ghost var more;
        crash, candid, more := AddModule(candid, m, t);
        TouchTwice(old(frevdepMap), touched, more);
        touched := touched + more;
        if crash {
          return Crash, touched;
        }
        CalledOneModule(t, done, m);
      }
      NoneLeft(testmods, todo);
      r := Found(candid);
    }

    method Related(mod: Name, sym: Name) returns (r: Answer)
      requires Valid()
      modifies this`modMap, this`frevdepMap, objBuildRevdeps.Values
      ensures Valid() && RelatedEffect(old(Snapshot()), mod, sym, Snapshot())
      ensures r == ObjTables.Related(old(Snapshot()), mod, sym)
    {
      ghost var t := Snapshot();
      ghost var touched: set<Name> := {};
      if sym !in modMap {
        modMap := modMap[sym := {}];
      }
      if mod !in modMap[sym] {
        r := Undefined;
      } else {
        var testmods := EnterUnit(mod);
        r, touched := CollectUnit(testmods, t);
      }
      ShowEffect(t, mod, sym, touched, Snapshot());
    }

    /** The module joins its own reverse dependencies, in place. */
    method EnterUnit(mod: Name) returns (testmods: set<Name>)
      requires Distinct(objBuildRevdeps)
      modifies objBuildRevdeps.Values
      ensures testmods == At(old(Revdeps()), mod) + {mod}
      ensures Revdeps() == if mod in old(Revdeps()) then old(Revdeps())[mod := testmods] else old(Revdeps())
    {
      testmods := {mod};
      if mod in objBuildRevdeps {
        var cell := objBuildRevdeps[mod];
        cell.Add(mod);
        testmods := cell.elems;
      }
    }
  }

  lemma ShowEffect(t: Tables, mod: Name, sym: Name, touched: set<Name>, t': Tables)
    requires t'.imports == t.imports && t'.exports == t.exports && t'.globals == t.globals
    requires t'.drivers == t.drivers && t'.refs == t.refs && t'.nonIr == t.nonIr
    requires t'.defs == (if sym in t.defs then t.defs else t.defs[sym := {}])
    requires t'.callers == Touch(t.callers, touched)
    requires t'.revdeps ==
      if mod in At(t.defs, sym) && mod in t.revdeps then t.revdeps[mod := t.revdeps[mod] + {mod}] else t.revdeps
    ensures RelatedEffect(t, mod, sym, t')
  {
    assert t'.defs == Touch(t.defs, {sym});
  }

  lemma MovedOver<T>(all: set<T>, todo: set<T>, x: T)
    requires x in todo && todo <= all
    ensures all - (todo - {x}) == (all - todo) + {x}
  {
  }

  lemma UnionAssoc<T>(a: set<T>, b: set<T>, c: set<T>)
    ensures a + b + c == a + (b + c)
  {
  }

  lemma NoneLeft<T>(all: set<T>, todo: set<T>)
    requires todo == {}
    ensures all - todo == all
  {
  }

  lemma CalledOneMore(t: Tables, m: Name, done: set<Name>, s: Name)
    ensures CalledOf(t, m, done + {s}) ==
      CalledOf(t, m, done) + if At(t.callers, s) != {} then {(s, Driver(t.drivers, m))} else {}
  {
  }

  lemma CalledOneModule(t: Tables, done: set<Name>, m: Name)
    ensures Called(t, done + {m}) == Called(t, done) + CalledOf(t, m, At(t.exports, m))
  {
  }
}
