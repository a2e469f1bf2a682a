/** The two fixpoints over callers: `main` of hwdb/platform/buildplatform.cpp
    collects in a whole sweep and commits afterwards, the pass of
    driver_model/llvm-pass/drvdevreg/DrvDevReg.cpp inserts in place. */
module RegisterApis {
  import opened CallPaths
  import opened Bitcode

  const INIT_MODULE := "init_module"

  /** Edges into a blocked name carry nothing further up. */
  function Unblocked(edges: set<Edge>, blocked: string): set<Edge> {
    set e | e in edges && e.1 != blocked
  }

  /** One function of the sweep: it is collected if it calls a known name. */
  method CollectFunction(regapis: map<string, string>, known: set<string>, m: Module, k: nat)
    returns (r: map<string, string>)
    requires k < |m.functions|
    ensures r == if exists i <- m.functions[k].insts :: i.Plain() && i.operand.value in known
                 then regapis[m.functions[k].name := m.name] else regapis
  {
    r := regapis;
    var f := m.functions[k];
    for j := 0 to |f.insts|
      invariant r == if exists i <- f.insts[..j] :: i.Plain() && i.operand.value in known
                     then regapis[f.name := m.name] else regapis
    {
      var i := f.insts[j];
      assert f.insts[..j + 1] == f.insts[..j] + [i];
      if i.Plain() && i.operand.value in known {
        r := r[f.name := m.name];
      }
    }
    assert f.insts[..|f.insts|] == f.insts;
  }

  /** Names with a call to a known name. */
  function CallersOf(edges: set<Edge>, known: set<string>): set<string> {
    set e | e in edges && e.1 in known :: e.0
  }

  function FunctionEdges(f: Function): set<Edge> {
    set i | i in f.insts && i.Plain() :: (f.name, i.operand.value)
  }

  method CollectModule(regapis: map<string, string>, known: set<string>, m: Module) returns (r: map<string, string>)
    ensures r.Keys == regapis.Keys + CallersOf(PlainEdges(m), known)
    ensures forall a <- r :: (a in regapis && r[a] == regapis[a]) || r[a] == m.name
  {
    r := regapis;
    for k := 0 to |m.functions|
      invariant forall a :: a in r <==>
        a in regapis || exists f <- m.functions[..k] :: a in CallersOf(FunctionEdges(f), known)
      invariant forall a <- r :: (a in regapis && r[a] == regapis[a]) || r[a] == m.name
    {
      var f := m.functions[k];
      assert m.functions[..k + 1] == m.functions[..k] + [f];
      r := CollectFunction(r, known, m, k);
      FunctionCalls(f, known);
    }
    forall a ensures a in r <==> a in regapis.Keys + CallersOf(PlainEdges(m), known) {
      if f :| f in m.functions && a in CallersOf(FunctionEdges(f), known) {
        var e :| e in FunctionEdges(f) && e.1 in known && a == e.0;
        assert e in PlainEdges(m);
      }
      if a in CallersOf(PlainEdges(m), known) {
        var e :| e in PlainEdges(m) && e.1 in known && a == e.0;
        var f, i :| f in m.functions && i in f.insts && i.Plain() && e == (f.name, i.operand.value);
        assert e in FunctionEdges(f);
      }
    }
  }

  lemma FunctionCalls(f: Function, known: set<string>)
    ensures CallersOf(FunctionEdges(f), known) ==
      if exists i <- f.insts :: i.Plain() && i.operand.value in known then {f.name} else {}
  {
    if i :| i in f.insts && i.Plain() && i.operand.value in known {
      assert (f.name, i.operand.value) in FunctionEdges(f);
    }
  }

  method CollectAll(regapis: map<string, string>, known: set<string>, ms: seq<Module>) returns (r: map<string, string>)
    ensures r.Keys == regapis.Keys + CallersOf(AllPlainEdges(ms), known)
  {
    r := regapis;
    for k := 0 to |ms|
      invariant r.Keys == regapis.Keys + CallersOf(AllPlainEdges(ms[..k]), known)
    {
      assert ms[..k + 1] == ms[..k] + [ms[k]];
      assert AllPlainEdges(ms[..k + 1]) == AllPlainEdges(ms[..k]) + PlainEdges(ms[k]);
      assert CallersOf(AllPlainEdges(ms[..k]) + PlainEdges(ms[k]), known) ==
        CallersOf(AllPlainEdges(ms[..k]), known) + CallersOf(PlainEdges(ms[k]), known);
      r := CollectModule(r, known, ms[k]);
    }
    assert ms[..|ms|] == ms;
  }

  function Propagating(names: set<string>): set<string> {
    set f | f in names && f != INIT_MODULE
  }

  /** After a sweep the collected names become known, but for `init_module`. */
  method Commit(known: set<string>, regapis: map<string, string>) returns (r: set<string>)
    ensures r == known + Propagating(regapis.Keys)
  {
    r := known;
    var todo := regapis.Keys;
    while todo != {}
      invariant todo <= regapis.Keys && r == known + Propagating(regapis.Keys - todo)
      decreases todo
    {
      var api :| api in todo;
      assert Propagating(regapis.Keys - (todo - {api})) ==
        Propagating(regapis.Keys - todo) + if api == INIT_MODULE then {} else {api};
      todo := todo - {api};
      if api == INIT_MODULE {
        continue;
      }
      r := r + {api};
    }
    assert regapis.Keys - todo == regapis.Keys;
  }

  lemma CommitKnown(seeds: set<string>, before: set<string>, after: set<string>)
    requires before <= after
    ensures seeds + Propagating(before) + Propagating(after) == seeds + Propagating(after)
  {
  }

  /** The names that main collects: those with a call path of at least one
      edge to a seed on which nothing calls `init_module`. */
  method RegisterFixpoint(ms: seq<Module>, seeds: set<string>) returns (regapis: map<string, string>)
    requires INIT_MODULE !in seeds
    ensures IsCallerClosure(Unblocked(AllPlainEdges(ms), INIT_MODULE), seeds, regapis.Keys)
  {
    ghost var edges := AllPlainEdges(ms);
    ghost var open := Unblocked(edges, INIT_MODULE);
    ghost var names := set e | e in edges :: e.0;
    regapis := map[];
    var known := seeds;
    var sz := 0;
    var again := true;
    while again
      invariant known == seeds + Propagating(regapis.Keys)
      invariant regapis.Keys <= names
      invariant forall f <- regapis :: CallsInto(open, f, seeds)
      invariant !again ==> CallersOf(edges, known) <= regapis.Keys
      decreases again, |names - regapis.Keys|
    {
      sz := |regapis|;
      ghost var before := regapis.Keys;
      regapis := CollectAll(regapis, known, ms);
      SweepIsSound(edges, seeds, before, known, regapis.Keys);
      CommitKnown(seeds, before, regapis.Keys);
      known := Commit(known, regapis);
      again := sz < |regapis|;
      SizeTells(before, regapis.Keys, names);
    }
    forall f ensures f in regapis <==> CallsInto(open, f, seeds) {
      if p :| Climbs(open, p, f, seeds) {
        forall e | e in open && (e.1 in seeds || e.1 in regapis.Keys) ensures e.0 in regapis.Keys {
          assert e.0 in CallersOf(edges, known);
        }
        CallersContain(open, seeds, regapis.Keys, p, f);
      }
    }
  }

  lemma SweepIsSound(edges: set<Edge>, seeds: set<string>, before: set<string>, known: set<string>, after: set<string>)
    requires INIT_MODULE !in seeds && known == seeds + Propagating(before)
    requires after == before + CallersOf(edges, known)
    requires forall f <- before :: CallsInto(Unblocked(edges, INIT_MODULE), f, seeds)
    ensures forall f <- after :: CallsInto(Unblocked(edges, INIT_MODULE), f, seeds)
  {
    forall f | f in after && f !in before ensures CallsInto(Unblocked(edges, INIT_MODULE), f, seeds) {
      var e :| e in edges && e.1 in known && f == e.0;
      CallsIntoStep(Unblocked(edges, INIT_MODULE), f, e.1, seeds);
    }
  }

  lemma SizeTells(before: set<string>, after: set<string>, names: set<string>)
    requires before <= after <= names
    ensures |before| >= |after| ==> before == after
    ensures |before| < |after| ==> |names - after| < |names - before|
  {
    assert after == before + (after - before);
    assert names == after + (names - after) == before + (names - before);
  }

  /** The pass keeps its sets from one module to the next. */
  class DrvDevRegPass {
    var exports: set<string>
    var expFuncs: set<Function>
    var devFuncs: set<string>
    var drvFuncs: set<string>

    constructor ()
      ensures exports == {} && expFuncs == {} && devFuncs == {} && drvFuncs == {}
    {
      exports, expFuncs, devFuncs, drvFuncs := {}, {}, {}, {};
    }

    /** The scan of one function stops at the first call to a collected name. */
    static method CallsCollected(f: Function, funcs: set<string>) returns (done: bool)
      ensures done <==> exists i <- f.insts :: i.Named() && i.operand.value in funcs
    {
      done := false;
      for j := 0 to |f.insts|
        invariant !done && forall i <- f.insts[..j] :: !(i.Named() && i.operand.value in funcs)
      {
        var i := f.insts[j];
        if i.Named() && i.operand.value in funcs {
          return true;
        }
        assert f.insts[..j + 1] == f.insts[..j] + [i];
      }
      assert f.insts[..|f.insts|] == f.insts;
    }

    /** One in-place sweep over the functions of the module. */
    static method SweepInPlace(m: Module, funcs: set<string>, ghost start: set<string>) returns (r: set<string>)
      requires forall f <- funcs :: f in start || CallsInto(NamedEdges(m), f, start)
      ensures funcs <= r <= funcs + set e | e in NamedEdges(m) :: e.0
      ensures forall f <- r :: f in start || CallsInto(NamedEdges(m), f, start)
      ensures r == funcs ==> forall e <- NamedEdges(m) :: e.1 in funcs ==> e.0 in funcs
    {
      r := funcs;
      for k := 0 to |m.functions|
        invariant funcs <= r <= funcs + set e | e in NamedEdges(m) :: e.0
        invariant forall f <- r :: f in start || CallsInto(NamedEdges(m), f, start)
        invariant r == funcs ==> forall f <- m.functions[..k], i <- f.insts ::
          i.Named() && i.operand.value in funcs ==> f.name in funcs
      {
        var f := m.functions[k];
        var done := CallsCollected(f, r);
        if done {
          ghost var i :| i in f.insts && i.Named() && i.operand.value in r;
          assert (f.name, i.operand.value) in NamedEdges(m);
          CallsIntoStep(NamedEdges(m), f.name, i.operand.value, start);
          r := r + {f.name};
        }
        assert m.functions[..k + 1] == m.functions[..k] + [f];
      }
      assert m.functions[..|m.functions|] == m.functions;
    }

    /** Sweeps until the size of the set stays the same. */
    static method CloseInPlace(m: Module, start: set<string>) returns (funcs: set<string>)
      ensures forall f :: f in funcs <==> f in start || CallsInto(NamedEdges(m), f, start)
    {
      ghost var edges := NamedEdges(m);
      ghost var names := start + set e | e in edges :: e.0;
      funcs := start;
      var size := |funcs|;
      while true
        invariant start <= funcs <= names && size == |funcs|
        invariant forall f <- funcs :: f in start || CallsInto(edges, f, start)
        decreases |names - funcs|
      {
        ghost var before := funcs;
        funcs := SweepInPlace(m, funcs, start);
        SizeTells(before, funcs, names);
        if size == |funcs| {
          break;
        }
        size := |funcs|;
      }
      forall f | CallsInto(edges, f, start) ensures f in funcs {
        var p :| Climbs(edges, p, f, start);
        CallersContain(edges, start, funcs, p, f);
      }
    }

    /** Exported functions with arguments, but for the module entry points. */
    static function Reportable(f: Function, exports: set<string>): bool {
      f.hasArgs && f.name != INIT_MODULE && f.name != "cleanup_module" && f.name in exports
    }

    /** `exported` are the names read off the export markers of the module. The
        result is the set of functions reported under "class" and "bus". */
    method RunOnModule(m: Module, exported: set<string>) returns (classes: set<Function>, buses: set<Function>)
      modifies this
      ensures exports == old(exports) + exported
      ensures expFuncs == old(expFuncs) + set f | f in m.functions
        && f.hasArgs && f.name != "init_module" && f.name != "cleanup_module" && f.name in exports
      ensures DEV_SEEDS == {"device_add", "device_del", "device_register", "device_unregister"}
      ensures DRV_SEEDS == {"driver_register", "driver_unregister"}
      ensures forall f :: f in devFuncs <==>
        f in old(devFuncs) + DEV_SEEDS || CallsInto(NamedEdges(m), f, old(devFuncs) + DEV_SEEDS)
      ensures forall f :: f in drvFuncs <==>
        f in old(drvFuncs) + DRV_SEEDS || CallsInto(NamedEdges(m), f, old(drvFuncs) + DRV_SEEDS)
      ensures forall f :: f in classes <==>
        f in expFuncs && exists i <- f.insts :: i.Named() && i.operand.value in devFuncs
      ensures forall f :: f in buses <==>
        f in expFuncs && exists i <- f.insts :: i.Named() && i.operand.value in drvFuncs
    {
      exports := exports + exported;
      devFuncs := CloseInPlace(m, devFuncs + DEV_SEEDS);
      drvFuncs := CloseInPlace(m, drvFuncs + DRV_SEEDS);
      for k := 0 to |m.functions|
        modifies `expFuncs
        invariant expFuncs == old(expFuncs) + set f | f in m.functions[..k] && Reportable(f, exports)
      {
        var f := m.functions[k];
        assert m.functions[..k + 1] == m.functions[..k] + [f];
        if Reportable(f, exports) {
          expFuncs := expFuncs + {f};
        }
      }
      assert m.functions[..|m.functions|] == m.functions;
      classes := Report(expFuncs, devFuncs);
      buses := Report(expFuncs, drvFuncs);
    }

    static method Report(functions: set<Function>, funcs: set<string>) returns (r: set<Function>)
      ensures forall f :: f in r <==> f in functions && exists i <- f.insts :: i.Named() && i.operand.value in funcs
    {
      r := {};
      var todo := functions;
      while todo != {}
        invariant todo <= functions
        invariant forall f :: f in r <==>
          f in functions - todo && exists i <- f.insts :: i.Named() && i.operand.value in funcs
        decreases todo
      {
        var f :| f in todo;
        todo := todo - {f};
        var calls := CallsCollected(f, funcs);
        if calls {
          r := r + {f};
        }
      }
    }
  }

  const DEV_SEEDS: set<string> := {"device_add", "device_del", "device_register", "device_unregister"}
  const DRV_SEEDS: set<string> := {"driver_register", "driver_unregister"}

  /** In a single module, a function is reported exactly when it is exported,
      has arguments and has a call path to a seed. */
  lemma ReportedIffClimbs(m: Module, f: Function, funcs: set<string>, seeds: set<string>)
    requires f in m.functions && forall g <- m.functions :: g.name == f.name ==> g == f
    requires forall g :: g in funcs <==> g in seeds || CallsInto(NamedEdges(m), g, seeds)
    ensures (exists i <- f.insts :: i.Named() && i.operand.value in funcs) <==> CallsInto(NamedEdges(m), f.name, seeds)
  {
    CallsIntoFirstEdge(NamedEdges(m), f.name, seeds);
    if i :| i in f.insts && i.Named() && i.operand.value in funcs {
      assert (f.name, i.operand.value) in NamedEdges(m);
    }
    if g :| (f.name, g) in NamedEdges(m) && (g in seeds || CallsInto(NamedEdges(m), g, seeds)) {
      var h, i :| h in m.functions && i in h.insts && i.Named() && (f.name, g) == (h.name, i.operand.value);
      assert h == f;
    }
  }

  /** Every caller of `init_module` is a seed or reaches one without it. */
  ghost predicate InitCallersReach(edges: set<Edge>, seeds: set<string>) {
    forall e <- edges :: e.1 == INIT_MODULE ==> e.0 in seeds || CallsInto(Unblocked(edges, INIT_MODULE), e.0, seeds)
  }

  lemma UnblockedCalls(edges: set<Edge>, f: string, seeds: set<string>)
    ensures CallsInto(Unblocked(edges, INIT_MODULE), f, seeds) ==> CallsInto(edges, f, seeds)
  {
    if p :| Climbs(Unblocked(edges, INIT_MODULE), p, f, seeds) { assert Climbs(edges, p, f, seeds); }
  }

  lemma {:induction false} ReachesUnblocked(edges: set<Edge>, seeds: set<string>, p: seq<string>, f: string)
    requires Climbs(edges, p, f, seeds)
    requires INIT_MODULE in seeds || CallsInto(edges, INIT_MODULE, seeds) ==> InitCallersReach(edges, seeds)
    ensures f in seeds || CallsInto(Unblocked(edges, INIT_MODULE), f, seeds)
  {
    var g := p[1];
    assert (f, g) in edges;
    if |p| > 2 { assert Climbs(edges, p[1..], g, seeds); }
    if g != INIT_MODULE {
      if |p| > 2 { ReachesUnblocked(edges, seeds, p[1..], g); }
      CallsIntoStep(Unblocked(edges, INIT_MODULE), f, g, seeds);
    }
  }

  /** On one call graph the two schedules compute the same closure exactly when
      `init_module` reaches no seed, or all its callers reach one without it. */
  lemma SchedulesAgree(edges: set<Edge>, seeds: set<string>, collected: set<string>, inPlace: set<string>)
    requires IsCallerClosure(Unblocked(edges, INIT_MODULE), seeds, collected)
    requires forall f :: f in inPlace <==> f in seeds || CallsInto(edges, f, seeds)
    ensures inPlace == seeds + collected <==>
      (INIT_MODULE in seeds || CallsInto(edges, INIT_MODULE, seeds) ==> InitCallersReach(edges, seeds))
  {
    forall f
      ensures f in collected ==> CallsInto(edges, f, seeds)
    {
      UnblockedCalls(edges, f, seeds);
    }
    if INIT_MODULE in seeds || CallsInto(edges, INIT_MODULE, seeds) ==> InitCallersReach(edges, seeds) {
      forall f | CallsInto(edges, f, seeds)
        ensures f in seeds || f in collected
      {
        var p :| Climbs(edges, p, f, seeds);
        ReachesUnblocked(edges, seeds, p, f);
      }
      assert inPlace == seeds + collected;
    } else {
      var e :| e in edges && e.1 == INIT_MODULE && e.0 !in seeds
        && !CallsInto(Unblocked(edges, INIT_MODULE), e.0, seeds);
      CallsIntoStep(edges, e.0, INIT_MODULE, seeds);
      assert e.0 in inPlace && e.0 !in seeds + collected;
    }
  }

  /** A function that calls `init_module`, which registers a driver, is found in
      place and not by committing. */
  lemma SchedulesDiffer(collected: set<string>, inPlace: set<string>)
    requires var (edges, seeds) := ({("f", INIT_MODULE), (INIT_MODULE, "driver_register")}, {"driver_register"});
      && IsCallerClosure(Unblocked(edges, INIT_MODULE), seeds, collected)
      && forall f :: f in inPlace <==> f in seeds || CallsInto(edges, f, seeds)
    ensures "f" in inPlace && "f" !in collected
  {
    var (edges, seeds) := ({("f", INIT_MODULE), (INIT_MODULE, "driver_register")}, {"driver_register"});
    CallsIntoStep(edges, INIT_MODULE, "driver_register", seeds);
    CallsIntoStep(edges, "f", INIT_MODULE, seeds);
    CallsIntoFirstEdge(Unblocked(edges, INIT_MODULE), "f", seeds);
  }

  /** Collected are the functions with a path to a seed on which nothing calls
      `init_module`; missed are those whose every path does. */
  lemma CollectedIffAvoids(edges: set<Edge>, seeds: set<string>, collected: set<string>, f: string)
    requires IsCallerClosure(Unblocked(edges, INIT_MODULE), seeds, collected)
    ensures f !in collected <==> forall p :: Climbs(edges, p, f, seeds) ==> "init_module" in p[1..]
  {
    var open := Unblocked(edges, INIT_MODULE);
    if p :| Climbs(open, p, f, seeds) {
      assert Climbs(edges, p, f, seeds);
      forall i | 1 <= i < |p|
        ensures p[i] != INIT_MODULE
      {
        assert (p[i - 1], p[i - 1 + 1]) in open;
      }
      assert INIT_MODULE !in p[1..];
    }
    if p :| Climbs(edges, p, f, seeds) && INIT_MODULE !in p[1..] {
      forall i | 0 <= i < |p| - 1
        ensures (p[i], p[i + 1]) in open
      {
        assert p[i + 1] == p[1..][i];
      }
      assert Climbs(open, p, f, seeds);
    }
  }

  /** What the committing form misses climbs to a seed only through `init_module`. */
  lemma CommitCollectsLess(edges: set<Edge>, seeds: set<string>, collected: set<string>, f: string)
    requires INIT_MODULE !in seeds && IsCallerClosure(Unblocked(edges, INIT_MODULE), seeds, collected)
    requires CallsInto(edges, f, seeds) && f !in collected
    ensures CallsInto(edges, f, {INIT_MODULE}) && CallsInto(edges, INIT_MODULE, seeds)
  {
    var p :| Climbs(edges, p, f, seeds);
    MissedThrough(edges, seeds, collected, p, f);
  }

  lemma {:induction false} MissedThrough(edges: set<Edge>, seeds: set<string>, collected: set<string>,
                                         p: seq<string>, f: string)
    requires INIT_MODULE !in seeds && IsCallerClosure(Unblocked(edges, INIT_MODULE), seeds, collected)
    requires Climbs(edges, p, f, seeds) && f !in collected
    ensures CallsInto(edges, f, {INIT_MODULE}) && CallsInto(edges, INIT_MODULE, seeds)
  {
    var open := Unblocked(edges, INIT_MODULE);
    var g := p[1];
    assert (f, g) in edges;
    CallsIntoFirstEdge(open, f, seeds);
    if g == INIT_MODULE {
      CallsIntoStep(edges, f, g, {INIT_MODULE});
      assert |p| > 2;
      assert Climbs(edges, p[1..], g, seeds);
    } else {
      assert (f, g) in open;
      assert |p| > 2 && g !in collected;
      assert Climbs(edges, p[1..], g, seeds);
      MissedThrough(edges, seeds, collected, p[1..], g);
      CallsIntoStep(edges, f, g, {INIT_MODULE});
    }
  }
}
