/** `processModuleFile` of hwdb/platform/buildplatform.cpp: from every module
    entry point a breadth-first list of functions is worked off; a function is
    marked when popped, so the list may hold it several times. */
module ModuleWorklist {
  import opened CallPaths
  import opened Bitcode
  import opened Options

  type Site = (nat, nat)  // a call by function index and instruction index

  /** (caller, callee) by function index. */
  function CallEdges(m: Module): set<(nat, nat)> {
    set f: nat, i | 0 <= f < |m.functions| && i in m.functions[f].insts && i.Plain() && i.callee.Some?
      :: (f, i.callee.value)
  }

  predicate IsRegisterCall(m: Module, api: set<string>, s: Site) {
    s.0 < |m.functions| && s.1 < |m.functions[s.0].insts| &&
    var i := m.functions[s.0].insts[s.1];
    i.Plain() && i.operand.value in api
  }

  function SitesIn(m: Module, api: set<string>, f: nat): set<Site>
    requires f < |m.functions|
  {
    set j: nat | 0 <= j < |m.functions[f].insts| && IsRegisterCall(m, api, (f, j)) :: (f, j)
  }

  /** How many entries of the list are already marked. */
  function Marked(wq: seq<nat>, processed: set<nat>): nat {
    if wq == [] then 0 else (if wq[0] in processed then 1 else 0) + Marked(wq[1..], processed)
  }

  lemma {:induction false} MarkedAppend(wq: seq<nat>, more: seq<nat>, processed: set<nat>)
    requires forall f <- more :: f !in processed
    ensures Marked(wq + more, processed) == Marked(wq, processed)
  {
    if wq == [] {
      assert wq + more == more;
      MarkedNone(more, processed);
    } else {
      assert (wq + more)[1..] == wq[1..] + more;
      MarkedAppend(wq[1..], more, processed);
    }
  }

  lemma {:induction false} MarkedNone(more: seq<nat>, processed: set<nat>)
    requires forall f <- more :: f !in processed
    ensures Marked(more, processed) == 0
  {
    if more != [] { MarkedNone(more[1..], processed); }
  }

  /** The scan of one popped function. */
  method Expand(m: Module, f: nat, processed: set<nat>, api: set<string>) returns (callees: seq<nat>, sites: set<Site>)
    requires m.Valid() && f < |m.functions|
    ensures forall g <- callees :: g < |m.functions| && (f, g) in CallEdges(m) && g !in processed
    ensures forall g :: (f, g) in CallEdges(m) ==> g in processed || g in callees
    ensures sites == SitesIn(m, api, f)
  {
    callees, sites := [], {};
    var insts := m.functions[f].insts;
    for j := 0 to |insts|
      invariant forall g <- callees :: g < |m.functions| && (f, g) in CallEdges(m) && g !in processed
      invariant forall i <- insts[..j] :: i.Plain() && i.callee.Some? ==>
        i.callee.value in processed || i.callee.value in callees
      invariant sites == set k: nat | 0 <= k < j && IsRegisterCall(m, api, (f, k)) :: (f, k)
    {
      var i := insts[j];
      assert insts[..j + 1] == insts[..j] + [i];
      if i.Plain() {
        if i.callee.Some? && i.callee.value !in processed {
          assert i in m.functions[f].insts;
          callees := callees + [i.callee.value];
        }
        if i.operand.value in api {
          sites := sites + {(f, j)};
        }
      }
    }
    assert insts[..|insts|] == insts;
  }

  /** What one entry point reaches. */
  ghost predicate IsReach(m: Module, start: nat, s: set<nat>) {
    forall f: nat :: f in s <==> Reachable(CallEdges(m), start, f)
  }

  function SitesOf(m: Module, api: set<string>, fs: set<nat>): set<Site> {
    set f, s | f in fs && f < |m.functions| && s in SitesIn(m, api, f) :: s
  }

  /** The list runs empty on every call graph, cyclic ones too: popping an
      unmarked function marks it, popping a marked one drops an entry and pushes
      only unmarked functions. */
  method Visit(m: Module, start: nat, api: set<string>) returns (processed: set<nat>, sites: set<Site>)
    requires m.Valid() && start < |m.functions|
    ensures IsReach(m, start, processed)
    ensures sites == SitesOf(m, api, processed)
  {
    ghost var edges := CallEdges(m);
    ghost var all := Below(|m.functions|);
    var wq: seq<nat> := [start];
    processed, sites := {}, {};
    ReachableSelf(edges, start);
    while wq != []
      invariant processed <= all && forall k :: 0 <= k < |wq| ==> wq[k] < |m.functions|
      invariant forall f: nat :: f in processed || f in wq ==> Reachable(edges, start, f)
      invariant start in processed || start in wq
      invariant forall e <- edges :: e.0 in processed ==> e.1 in processed || e.1 in wq
      invariant sites == SitesOf(m, api, processed)
      decreases all - processed, Marked(wq, processed)
    {
      var func: nat := wq[0];
      ghost var before: set<nat>, popped: seq<nat> := processed, wq;
      wq := wq[1..];
      processed := processed + {func};
      var callees, found := Expand(m, func, processed, api);
      forall g | g in callees ensures Reachable(edges, start, g) {
        ReachableStep(edges, start, func, g);
      }
      MarkedAppend(wq, callees, processed);
      assert forall j :: 0 <= j < |callees| ==> callees[j] in callees;
      assert SitesOf(m, api, processed) == SitesOf(m, api, before) + found;
      wq := wq + callees;
      sites := sites + found;
      assert forall f <- popped :: f == func || f in popped[1..];
      if func in before {
        assert processed == before;
      }
    }
    forall f: nat | Reachable(edges, start, f) ensures f in processed {
      var p :| Leads(edges, p, start, f);
      ClosedContains(edges, processed, p);
    }
  }

  /** The function names tried for an entry of the database, in order; the last
      two stand for any entry. */
  function Candidates(entry: string): seq<string> {
    [entry, entry + "_init", entry + "_driver_init", "usb_serial_module_init", "init_module"]
  }

  /** The first function of the module with that name, or the number of functions. */
  function FindName(fs: seq<Function>, name: string): (k: nat)
    ensures k <= |fs| && (k < |fs| ==> fs[k].name == name)
    ensures forall j :: 0 <= j < k ==> fs[j].name != name
  {
    if fs == [] || fs[0].name == name then 0 else 1 + FindName(fs[1..], name)
  }

  function Resolve(m: Module, names: seq<string>): Option<nat> {
    if names == [] then None
    else if FindName(m.functions, names[0]) < |m.functions| then Some(FindName(m.functions, names[0]))
    else Resolve(m, names[1..])
  }

  /** Function k has the name number a, none before it has, and no function has
      an earlier name. */
  predicate FirstNamed(m: Module, names: seq<string>, k: nat, a: nat) {
    && k < |m.functions| && a < |names| && m.functions[k].name == names[a]
    && (forall j :: 0 <= j < k ==> m.functions[j].name != names[a])
    && (forall f <- m.functions :: f.name !in names[..a])
  }

  /** An entry resolves exactly when some candidate names a function, and then
      to the first function with the first such name. */
  lemma {:induction false} ResolveFinds(m: Module, names: seq<string>)
    ensures Resolve(m, names).Some? <==> exists f <- m.functions :: f.name in names
    ensures Resolve(m, names).Some? ==> exists a: nat :: FirstNamed(m, names, Resolve(m, names).value, a)
  {
    if names != [] {
      ResolveFinds(m, names[1..]);
      var k := FindName(m.functions, names[0]);
      if k < |m.functions| {
        assert m.functions[k] in m.functions && names[0] in names;
        assert FirstNamed(m, names, k, 0);
      } else if Resolve(m, names).Some? {
        var r := Resolve(m, names).value;
        var a: nat :| FirstNamed(m, names[1..], r, a);
        assert names[..a + 1] == [names[0]] + names[1..][..a];
        assert FirstNamed(m, names, r, a + 1);
      }
      assert forall f <- m.functions :: f.name in names <==> f.name == names[0] || f.name in names[1..];
    }
  }

  predicate HasName(m: Module, name: string) { exists f <- m.functions :: f.name == name }

  /** Function k is the first with that name. */
  predicate IsFirst(m: Module, name: string, k: nat) {
    k < |m.functions| && m.functions[k].name == name && forall j :: 0 <= j < k ==> m.functions[j].name != name
  }

  /** The names an entry stands for, in order: itself, with `_init`, with
      `_driver_init`, then two that stand for any entry. */
  lemma EntryResolves(m: Module, entry: string)
    ensures var r := Resolve(m, Candidates(entry));
      if HasName(m, entry) then r.Some? && IsFirst(m, entry, r.value)
      else if HasName(m, entry + "_init") then r.Some? && IsFirst(m, entry + "_init", r.value)
      else if HasName(m, entry + "_driver_init") then r.Some? && IsFirst(m, entry + "_driver_init", r.value)
      else if HasName(m, "usb_serial_module_init") then r.Some? && IsFirst(m, "usb_serial_module_init", r.value)
      else if HasName(m, "init_module") then r.Some? && IsFirst(m, "init_module", r.value)
      else r.None?
  {
    var names := Candidates(entry);
    NameTried(m, names);
    NameTried(m, names[1..]);
    NameTried(m, names[1..][1..]);
    NameTried(m, names[1..][1..][1..]);
    NameTried(m, names[1..][1..][1..][1..]);
    assert names[1..][1..][1..][1..][1..] == [];
  }

  lemma NameTried(m: Module, names: seq<string>)
    requires names != []
    ensures if HasName(m, names[0]) then Resolve(m, names).Some? && IsFirst(m, names[0], Resolve(m, names).value)
            else Resolve(m, names) == Resolve(m, names[1..])
  {
    var k := FindName(m.functions, names[0]);
    if k < |m.functions| { assert m.functions[k] in m.functions; }
  }

  /** The calls followed and the register calls found: not inline assembly,
      direct, with an operand that is no null pointer. */
  lemma CallsAre(m: Module, api: set<string>, f: nat, g: nat, j: nat)
    requires f < |m.functions|
    ensures (f, g) in CallEdges(m) <==> exists i <- m.functions[f].insts ::
      i.Call? && !i.inlineAsm && !i.indirect && !i.nullOperand && i.operand.Some? && i.callee == Some(g)
    ensures (f, j) in SitesIn(m, api, f) <==>
      && j < |m.functions[f].insts| && m.functions[f].insts[j].Call?
      && (var i := m.functions[f].insts[j];
          !i.inlineAsm && !i.indirect && !i.nullOperand && i.operand.Some? && i.operand.value in api)
  {
    if exists i <- m.functions[f].insts ::
      i.Call? && !i.inlineAsm && !i.indirect && !i.nullOperand && i.operand.Some? && i.callee == Some(g)
    {
      var i :| i in m.functions[f].insts && i.Plain() && i.callee == Some(g);
    }
  }

  datatype Outcome = Unresolved(entry: string) | Fixup | Incomplete(left: set<Site>) | Complete

  ghost predicate AllResolve(m: Module, entries: seq<(string, string)>) {
    forall e <- entries :: Resolve(m, Candidates(e.0)).Some?
  }

  /** f is reached from none of the entries. */
  ghost predicate Unreached(m: Module, entries: seq<(string, string)>, f: nat) {
    forall e <- entries :: Resolve(m, Candidates(e.0)).Some? ==>
      !Reachable(CallEdges(m), Resolve(m, Candidates(e.0)).value, f)
  }

  ghost predicate LeftOver(m: Module, api: set<string>, entries: seq<(string, string)>, left: set<Site>) {
    forall s: Site :: s in left <==> IsRegisterCall(m, api, s) && Unreached(m, entries, s.0)
  }

  method AllSites(m: Module, api: set<string>) returns (sites: set<Site>)
    requires m.Valid()
    ensures forall s: Site :: s in sites <==> IsRegisterCall(m, api, s)
  {
    sites := {};
    for f := 0 to |m.functions|
      invariant forall s: Site :: s in sites <==> IsRegisterCall(m, api, s) && s.0 < f
    {
      var callees, found := Expand(m, f, {}, api);
      sites := sites + found;
    }
  }

  /** A register call is handled for an entry when the entry reaches it, or in
      the fix-up of a merged driver when no entry does. */
  ghost predicate Handled(m: Module, api: set<string>, entries: seq<(string, string)>, fixup: bool, s: Site,
                          name: string) {
    SomeHandles(m, api, entries, s, name) ||
    (fixup && IsRegisterCall(m, api, s) && Unreached(m, entries, s.0) && exists e <- entries :: e.1 == name)
  }

  ghost predicate FirstUnresolved(m: Module, entries: seq<(string, string)>, k: nat) {
    k < |entries| && AllResolve(m, entries[..k]) && Resolve(m, Candidates(entries[k].0)).None?
  }

  /** The first entry that does not resolve is reported; what the entries before
      it reach has been handled, and nothing else. */
  ghost predicate StoppedAt(m: Module, api: set<string>, entries: seq<(string, string)>, entry: string,
                            handled: set<(Site, string)>) {
    exists k: nat :: FirstUnresolved(m, entries, k) && entry == entries[k].0 && HandledUpTo(m, api, entries, k, handled)
  }

  ghost predicate HandledUpTo(m: Module, api: set<string>, entries: seq<(string, string)>, k: nat,
                              handled: set<(Site, string)>)
    requires k <= |entries|
  {
    forall s: Site, name :: (s, name) in handled <==> SomeHandles(m, api, entries[..k], s, name)
  }

  /** `entries` is the database of the file in key order, `merged` tells whether
      its name marks a merged driver. `handled` are the register calls handled,
      with the module name they were handled for. */
  method ProcessModuleFile(m: Module, api: set<string>, entries: seq<(string, string)>, merged: bool)
    returns (r: Outcome, handled: set<(Site, string)>, ghost left: set<Site>)
    requires m.Valid()
    ensures r.Unresolved? <==> !AllResolve(m, entries)
    ensures AllResolve(m, entries) ==> LeftOver(m, api, entries, left)
    ensures AllResolve(m, entries) ==> r == if left == {} then Complete else if merged then Fixup else Incomplete(left)
    ensures AllResolve(m, entries) ==>
      forall s: Site, name :: (s, name) in handled <==> Handled(m, api, entries, merged, s, name)
    ensures r.Unresolved? ==> StoppedAt(m, api, entries, r.entry, handled)
  {
    var regcalls;
    r, regcalls, handled := VisitEntries(m, api, entries);
    left := regcalls;
    if r.Complete? && regcalls != {} {
      if merged {
        r := Fixup;
        handled := FixupEntries(entries, regcalls, handled);
      } else {
        r := Incomplete(regcalls);
      }
    }
    if AllResolve(m, entries) {
      forall s: Site, name
        ensures (s, name) in handled <==> Handled(m, api, entries, merged, s, name)
      {
        assert s in left <==> IsRegisterCall(m, api, s) && Unreached(m, entries, s.0);
      }
    }
  }

  /** The loop over the entries; it stops at the first that does not resolve. */
  method VisitEntries(m: Module, api: set<string>, entries: seq<(string, string)>)
    returns (r: Outcome, regcalls: set<Site>, handled: set<(Site, string)>)
    requires m.Valid()
    ensures r.Unresolved? || r.Complete?
    ensures r.Complete? <==> AllResolve(m, entries)
    ensures r.Unresolved? ==> StoppedAt(m, api, entries, r.entry, handled)
    ensures r.Complete? ==> LeftOver(m, api, entries, regcalls)
    ensures r.Complete? ==>
      forall s: Site, name :: (s, name) in handled <==> SomeHandles(m, api, entries, s, name)
  {
    regcalls := AllSites(m, api);
    handled := {};
    for k := 0 to |entries|
      invariant AllResolve(m, entries[..k]) && LeftOver(m, api, entries[..k], regcalls)
      invariant forall s: Site, name :: (s, name) in handled <==> SomeHandles(m, api, entries[..k], s, name)
    {
      var e := entries[k];
      assert entries[..k + 1] == entries[..k] + [e];
      ResolveFinds(m, Candidates(e.0));
      var start := Resolve(m, Candidates(e.0));
      if start.None? {
        assert e in entries;
        assert FirstUnresolved(m, entries, k);
        return Unresolved(e.0), regcalls, handled;
      }
      var processed, sites := Visit(m, start.value, api);
      VisitSites(m, api, start.value, processed, sites);
      regcalls := regcalls - sites;
      handled := AddHandled(handled, sites, e.1);
      forall s: Site, name
        ensures SomeHandles(m, api, entries[..k + 1], s, name) <==>
          SomeHandles(m, api, entries[..k], s, name) || (name == e.1 && s in sites)
      {
        HandlesAppend(m, api, entries[..k], e, s, name);
      }
    }
    assert entries[..|entries|] == entries;
    r := Complete;
  }

  function AddHandled(handled: set<(Site, string)>, sites: set<Site>, name: string): (r: set<(Site, string)>)
    ensures forall s: Site, n :: (s, n) in r <==> (s, n) in handled || (s in sites && n == name)
  {
    handled + set s | s in sites :: (s, name)
  }

  method FixupEntries(entries: seq<(string, string)>, regcalls: set<Site>, before: set<(Site, string)>)
    returns (handled: set<(Site, string)>)
    ensures forall s: Site, name :: (s, name) in handled <==>
      (s, name) in before || (s in regcalls && exists e <- entries :: e.1 == name)
  {
    handled := before;
    for k := 0 to |entries|
      invariant forall s: Site, name :: (s, name) in handled <==>
        (s, name) in before || (s in regcalls && exists e <- entries[..k] :: e.1 == name)
    {
      assert entries[..k + 1] == entries[..k] + [entries[k]];
      handled := AddHandled(handled, regcalls, entries[k].1);
    }
    assert entries[..|entries|] == entries;
  }

  ghost predicate HandledBy(m: Module, api: set<string>, e: (string, string), s: Site, name: string) {
    e.1 == name && IsRegisterCall(m, api, s) && Resolve(m, Candidates(e.0)).Some? &&
    Reachable(CallEdges(m), Resolve(m, Candidates(e.0)).value, s.0)
  }

  ghost predicate SomeHandles(m: Module, api: set<string>, entries: seq<(string, string)>, s: Site, name: string) {
    exists e <- entries :: HandledBy(m, api, e, s, name)
  }

  lemma HandlesAppend(m: Module, api: set<string>, es: seq<(string, string)>, e: (string, string), s: Site,
                      name: string)
    ensures SomeHandles(m, api, es + [e], s, name) <==>
      SomeHandles(m, api, es, s, name) || HandledBy(m, api, e, s, name)
  {
    if x :| x in es && HandledBy(m, api, x, s, name) { assert x in es + [e]; }
    assert e in es + [e];
  }

  lemma VisitSites(m: Module, api: set<string>, start: nat, processed: set<nat>, sites: set<Site>)
    requires IsReach(m, start, processed) && sites == SitesOf(m, api, processed)
    ensures forall s: Site :: s in sites <==> IsRegisterCall(m, api, s) && Reachable(CallEdges(m), start, s.0)
  {
    forall s: Site ensures s in sites <==> IsRegisterCall(m, api, s) && s.0 in processed {
      if IsRegisterCall(m, api, s) && s.0 in processed {
        assert (s.0, s.1) == s && s in SitesIn(m, api, s.0);
      }
    }
  }
}
