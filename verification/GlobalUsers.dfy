/** The global-variable part of hwdb/platform/buildcallgraph.cpp: callbacks held
    by an initializer, and the functions that use a global through constants. */
module GlobalUsers {
  import opened CallPaths
  import opened Options

  /** An initializer after pointer casts are stripped. */
  datatype Const = Fn(name: string) | Aggregate(subs: seq<Const>)

  function Callbacks(c: Const): set<string> {
    match c
    case Fn(name) => {name}
    case Aggregate(subs) => AllCallbacks(subs)
  }

  function AllCallbacks(subs: seq<Const>): set<string> {
    if subs == [] then {} else AllCallbacks(subs[..|subs| - 1]) + Callbacks(subs[|subs| - 1])
  }

  /** The two recursions agree: a function is found exactly when some callback
      is collected. */
  method CheckStructInit(c: Const) returns (flag: bool)
    ensures flag <==> Callbacks(c) != {}
  {
    match c {
      case Fn(name) =>
        flag := true;
      case Aggregate(subs) =>
        flag := false;
        for i := 0 to |subs|
          invariant flag <==> AllCallbacks(subs[..i]) != {}
        {
          var sub := CheckStructInit(subs[i]);
          assert subs[..i + 1][..i] == subs[..i];
          flag := flag || sub;
        }
        assert subs[..|subs|] == subs;
    }
  }

  method CollectCB(c: Const) returns (res: set<string>)
    ensures res == Callbacks(c)
  {
    match c {
      case Fn(name) =>
        res := {name};
      case Aggregate(subs) =>
        res := {};
        for i := 0 to |subs|
          invariant res == AllCallbacks(subs[..i])
        {
          var sub := CollectCB(subs[i]);
          assert subs[..i + 1][..i] == subs[..i];
          res := res + sub;
        }
        assert subs[..|subs|] == subs;
    }
  }

  /** f occurs somewhere in the initializer. */
  ghost predicate Occurs(c: Const, f: string) {
    match c
    case Fn(name) => name == f
    case Aggregate(subs) => exists s <- subs :: Occurs(s, f)
  }

  lemma {:induction false} CallbacksOccur(c: Const, f: string)
    ensures f in Callbacks(c) <==> Occurs(c, f)
    decreases c
  {
    if c.Aggregate? { SubsOccur(c.subs, f); }
  }

  lemma {:induction false} SubsOccur(subs: seq<Const>, f: string)
    ensures f in AllCallbacks(subs) <==> exists s <- subs :: Occurs(s, f)
    decreases subs
  {
    if subs != [] {
      var n := |subs| - 1;
      SubsOccur(subs[..n], f);
      CallbacksOccur(subs[n], f);
      assert subs == subs[..n] + [subs[n]];
    }
  }

  /** A user of a value: an instruction of a function, or a constant, which has
      users of its own; constants may use each other in cycles. */
  datatype User = Instruction(owner: string) | Constant(users: seq<nat>)

  type Users = seq<User>

  ghost predicate ValidUsers(us: Users) {
    forall u <- us :: u.Constant? ==> InRange(us, u.users)
  }

  ghost predicate InRange(us: Users, ks: seq<nat>) {
    forall i :: 0 <= i < |ks| ==> ks[i] < |us|
  }

  function UseEdges(us: Users): set<(nat, nat)> {
    set c: nat, k | 0 <= c < |us| && us[c].Constant? && k in us[c].users :: (c, k)
  }

  ghost predicate Found(us: Users, start: seq<nat>, k: nat) {
    exists s: nat :: s in start && Reachable(UseEdges(us), s, k)
  }

  /** The functions with an instruction that uses a value, with these direct
      users, through constants only. */
  ghost function UsersOf(us: Users, start: seq<nat>): set<string> {
    set k: nat | 0 <= k < |us| && us[k].Instruction? && Found(us, start, k) :: us[k].owner
  }

  lemma UsersFound(us: Users, start: seq<nat>, u: nat)
    requires u < |us| && us[u].Constant? && Found(us, start, u)
    ensures forall k: nat :: k in us[u].users ==> Found(us, start, k)
  {
    forall k: nat | k in us[u].users ensures Found(us, start, k) {
      var s: nat :| s in start && Reachable(UseEdges(us), s, u);
      ReachableStep(UseEdges(us), s, u, k);
    }
  }

  /** Nothing is left to do for the user k. */
  predicate Settled(us: Users, seen: set<nat>, functions: set<string>, k: nat) {
    k < |us| && if us[k].Constant? then k in seen else us[k].owner in functions
  }

  predicate Pending(us: Users, seen: set<nat>, functions: set<string>, wq: seq<nat>, k: nat) {
    Settled(us, seen, functions, k) || k in wq
  }

  lemma PendingStep(us: Users, seen: set<nat>, functions: set<string>, wq: seq<nat>,
                    seen': set<nat>, functions': set<string>, wq': seq<nat>, k: nat)
    requires Pending(us, seen, functions, wq, k) && wq != [] && seen <= seen' && functions <= functions'
    requires wq[1..] <= wq' && Settled(us, seen', functions', wq[0])
    ensures Pending(us, seen', functions', wq', k)
  {
    if k in wq && k != wq[0] {
      var i :| 1 <= i < |wq| && wq[i] == k;
      assert wq'[i - 1] == wq[1..][i - 1];
    }
  }

  /** What the traversal keeps: only users are queued or recorded, and nothing
      reached so far is forgotten. */
  ghost predicate Tracing(us: Users, start: seq<nat>, seen: set<nat>, functions: set<string>, wq: seq<nat>) {
    && InRange(us, wq) && seen <= Below(|us|) && functions <= UsersOf(us, start)
    && (forall k: nat :: k in wq ==> Found(us, start, k))
    && (forall s: nat :: s in start ==> Pending(us, seen, functions, wq, s))
    && (forall e <- UseEdges(us) :: e.0 in seen ==> Pending(us, seen, functions, wq, e.1))
  }

  lemma TracingStep(us: Users, start: seq<nat>, seen: set<nat>, functions: set<string>, wq: seq<nat>,
                    seen': set<nat>, functions': set<string>, wq': seq<nat>)
    requires ValidUsers(us) && Tracing(us, start, seen, functions, wq) && wq != []
    requires var u := wq[0]; match us[u]
      case Instruction(f) => seen' == seen && functions' == functions + {f} && wq' == wq[1..]
      case Constant(users) =>
        seen' == seen + {u} && functions' == functions && wq' == wq[1..] + if u in seen then [] else users
    ensures Tracing(us, start, seen', functions', wq')
  {
    var u := wq[0];
    assert u in wq;
    if us[u].Constant? { UsersFound(us, start, u); }
    forall k: nat | Pending(us, seen, functions, wq, k) ensures Pending(us, seen', functions', wq', k) {
      PendingStep(us, seen, functions, wq, seen', functions', wq', k);
    }
  }

  /** The functions recorded for one global. A constant is expanded once, so the
      list runs empty on cyclic use chains too. */
  method TraceUsers(us: Users, start: seq<nat>) returns (functions: set<string>)
    requires ValidUsers(us) && InRange(us, start)
    ensures functions == UsersOf(us, start)
  {
    functions := {};
    var wq: seq<nat> := start;
    var seen: set<nat> := {};
    forall s: nat | s in start ensures Found(us, start, s) { ReachableSelf(UseEdges(us), s); }
    while wq != []
      invariant Tracing(us, start, seen, functions, wq)
      decreases Below(|us|) - seen, |wq|
    {
      var u: nat := wq[0];
      ghost var before := (seen, functions, wq);
      wq := wq[1..];
      match us[u] {
        case Instruction(f) =>
          functions := functions + {f};
        case Constant(users) =>
          if u !in seen {
            seen := seen + {u};
            wq := wq + users;
          }
      }
      TracingStep(us, start, before.0, before.1, before.2, seen, functions, wq);
    }
    AllSettled(us, start, seen, functions);
  }

  lemma AllSettled(us: Users, start: seq<nat>, seen: set<nat>, functions: set<string>)
    requires ValidUsers(us) && forall s: nat :: s in start ==> Settled(us, seen, functions, s)
    requires forall e <- UseEdges(us) :: e.0 in seen ==> Settled(us, seen, functions, e.1)
    ensures UsersOf(us, start) <= functions
  {
    var settled := set k: nat | k in Below(|us|) && Settled(us, seen, functions, k);
    forall k: nat | Found(us, start, k) ensures k in settled {
      var s: nat :| s in start && Reachable(UseEdges(us), s, k);
      var p :| Leads(UseEdges(us), p, s, k);
      ClosedContains(UseEdges(us), settled, p);
    }
  }

  datatype Global = Global(name: string, init: Option<Const>, typeHasFunction: bool, users: seq<nat>)

  /** m after xs was inserted under every key of ks. */
  function InsertAll(m: map<string, set<string>>, ks: set<string>, xs: set<string>): map<string, set<string>> {
    m + map k | k in ks :: At(m, k) + xs
  }

  /** Earlier entries stay, and only those of the given keys grow. */
  lemma InsertKeeps(m: map<string, set<string>>, ks: set<string>, xs: set<string>, k: string)
    ensures At(InsertAll(m, ks, xs), k) == At(m, k) + (if k in ks then xs else {})
    ensures k in InsertAll(m, ks, xs) <==> k in m || k in ks
  {
  }

  /** A chain of users: each but the last is a constant that has the next one
      among its users. */
  ghost predicate UseChain(us: Users, p: seq<nat>) {
    && p != [] && (forall i :: 0 <= i < |p| ==> p[i] < |us|)
    && forall i: nat :: i < |p| - 1 ==> UseStep(us, p, i)
  }

  ghost predicate UseStep(us: Users, p: seq<nat>, i: nat)
    requires i < |p| - 1
  {
    p[i] < |us| && us[p[i]].Constant? && p[i + 1] in us[p[i]].users
  }

  /** f uses the value: an instruction of f ends a chain from a direct user. */
  ghost predicate Uses(us: Users, start: seq<nat>, f: string) {
    exists p :: UseChain(us, p) && p[0] in start && us[p[|p| - 1]] == Instruction(f)
  }

  lemma UsersAre(us: Users, start: seq<nat>, f: string)
    requires ValidUsers(us) && InRange(us, start)
    ensures f in UsersOf(us, start) <==> Uses(us, start, f)
  {
    if f in UsersOf(us, start) {
      var k: nat :| k < |us| && us[k].Instruction? && Found(us, start, k) && us[k].owner == f;
      var s: nat :| s in start && Reachable(UseEdges(us), s, k);
      var p :| Leads(UseEdges(us), p, s, k);
      WalkIsChain(us, p);
    }
    if p :| UseChain(us, p) && p[0] in start && us[p[|p| - 1]] == Instruction(f) {
      ChainIsWalk(us, p);
      assert Leads(UseEdges(us), p, p[0], p[|p| - 1]);
      assert Found(us, start, p[|p| - 1]);
    }
  }

  lemma WalkIsChain(us: Users, p: seq<nat>)
    requires ValidUsers(us) && Walk(UseEdges(us), p) && p[0] < |us|
    ensures UseChain(us, p)
  {
    forall i: nat | i < |p| - 1
      ensures UseStep(us, p, i)
    {
      assert (p[i], p[i + 1]) in UseEdges(us);
    }
    forall i | 0 <= i < |p|
      ensures p[i] < |us|
    {
      if i > 0 {
        assert UseStep(us, p, i - 1);
        assert us[p[i - 1]] in us && InRange(us, us[p[i - 1]].users);
      }
    }
  }

  lemma ChainIsWalk(us: Users, p: seq<nat>)
    requires UseChain(us, p)
    ensures Walk(UseEdges(us), p)
  {
    var last := |p| - 1;
    forall i | 0 <= i < last
      ensures (p[i], p[i + 1]) in UseEdges(us)
    {
      assert UseStep(us, p, i);
    }
  }

  /** The tables of one bitcode file. */
  class CallGraph {
    var importTable: map<string, set<string>>
    var structDefCbs: map<string, set<string>>
    var funcExtConstantLinkage: map<string, set<string>>

    constructor ()
      ensures importTable == map[] && structDefCbs == map[] && funcExtConstantLinkage == map[]
    {
      importTable, structDefCbs, funcExtConstantLinkage := map[], map[], map[];
    }

    /** One global. With an initializer, its users import its callbacks; without
        one, they are linked to it by name. */
    method AddGlobal(gv: Global, us: Users)
      requires ValidUsers(us) && InRange(us, gv.users)
      modifies this
      ensures gv.init.None? ==>
        && funcExtConstantLinkage == InsertAll(old(funcExtConstantLinkage), UsersOf(us, gv.users), {gv.name})
        && importTable == old(importTable) && structDefCbs == old(structDefCbs)
      ensures gv.init.Some? ==>
        && funcExtConstantLinkage == old(funcExtConstantLinkage)
        && structDefCbs == InsertAll(old(structDefCbs), {gv.name}, Callbacks(gv.init.value))
      ensures gv.init.Some? ==>
        importTable == if gv.typeHasFunction || Callbacks(gv.init.value) != {}
                       then InsertAll(old(importTable), UsersOf(us, gv.users), Callbacks(gv.init.value))
                       else old(importTable)
    {
      var fpSeen := true;
      var nestedCbs := {};
      if gv.init.Some? {
        var holds := CheckStructInit(gv.init.value);
        fpSeen := gv.typeHasFunction || holds;
        nestedCbs := CollectCB(gv.init.value);
        structDefCbs := InsertAll(structDefCbs, {gv.name}, nestedCbs);
      }
      if fpSeen {
        var users := TraceUsers(us, gv.users);
        if gv.init.Some? {
          importTable := InsertAll(importTable, users, nestedCbs);
        } else {
          funcExtConstantLinkage := InsertAll(funcExtConstantLinkage, users, {gv.name});
        }
      }
    }
  }
}
