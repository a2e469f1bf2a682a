/** Build dependencies between object files by their configuration formulas
    (comp_unit/get-build-deps.py). The solver is an oracle for satisfiability. */
module BuildDeps {

  datatype Expr = Lit(b: bool) | Var(name: string) | Not(e: Expr) | And(l: Expr, r: Expr) | Or(l: Expr, r: Expr)

  function Vars(e: Expr): set<string> {
    match e
    case Lit(_) => {}
    case Var(name) => {name}
    case Not(x) => Vars(x)
    case And(l, r) => Vars(l) + Vars(r)
    case Or(l, r) => Vars(l) + Vars(r)
  }

  /** The value of e when exactly the variables of a are true. */
  function Eval(e: Expr, a: set<string>): bool {
    match e
    case Lit(b) => b
    case Var(name) => name in a
    case Not(x) => !Eval(x, a)
    case And(l, r) => Eval(l, a) && Eval(r, a)
    case Or(l, r) => Eval(l, a) || Eval(r, a)
  }

  /** Some assignment makes e true and agrees with the fixed variables. */
  ghost predicate Satisfiable(e: Expr, fixed: map<string, bool>) {
    exists a: set<string> :: Eval(e, a) && Agrees(a, fixed)
  }

  ghost predicate Agrees(a: set<string>, fixed: map<string, bool>) {
    forall v <- fixed :: (v in a) == fixed[v]
  }

  type Solver = (Expr, map<string, bool>) -> bool

  ghost predicate Decides(check: Solver) {
    forall e, fixed :: check(e, fixed) <==> Satisfiable(e, fixed)
  }

  /** The constraints added for a set of variables. */
  function FixedBy(vars: set<string>, dotconfigs: set<string>): map<string, bool> {
    map v | v in vars :: v in dotconfigs
  }

  lemma {:induction false} EvalDependsOnVars(e: Expr, a: set<string>, b: set<string>)
    requires forall v <- Vars(e) :: v in a <==> v in b
    ensures Eval(e, a) == Eval(e, b)
  {
    match e
    case Lit(_) =>
    case Var(_) =>
    case Not(x) => EvalDependsOnVars(x, a, b);
    case And(l, r) => EvalDependsOnVars(l, a, b); EvalDependsOnVars(r, a, b);
    case Or(l, r) => EvalDependsOnVars(l, a, b); EvalDependsOnVars(r, a, b);
  }

  /** Once all variables of e are fixed, the solver only evaluates. */
  lemma FixedIsEval(e: Expr, vars: set<string>, dotconfigs: set<string>)
    requires Vars(e) <= vars
    ensures Satisfiable(e, FixedBy(vars, dotconfigs)) <==> Eval(e, dotconfigs)
  {
    var fixed := FixedBy(vars, dotconfigs);
    if Eval(e, dotconfigs) {
      assert Agrees(dotconfigs, fixed);
    }
    if a :| Eval(e, a) && Agrees(a, fixed) {
      assert forall v <- Vars(e) :: v in fixed;
      EvalDependsOnVars(e, a, dotconfigs);
    }
  }

  /** An object file and the formula under which it is built. */
  datatype Obj = Obj(name: string, expr: Expr)

  ghost predicate Built(objs: seq<Obj>, dotconfigs: set<string>) {
    forall o <- objs :: Eval(o.expr, dotconfigs)
  }

  function Kept(objs: seq<Obj>, dotconfigs: set<string>): seq<Obj> {
    if objs == [] then []
    else Kept(objs[..|objs| - 1], dotconfigs)
         + if Eval(objs[|objs| - 1].expr, dotconfigs) then [objs[|objs| - 1]] else []
  }

  /** Kept are the objects whose formula holds, each as often as it is listed. */
  lemma {:induction false} KeptMembers(objs: seq<Obj>, dotconfigs: set<string>, o: Obj)
    ensures o in Kept(objs, dotconfigs) <==> o in objs && Eval(o.expr, dotconfigs)
    ensures multiset(Kept(objs, dotconfigs))[o] == if Eval(o.expr, dotconfigs) then multiset(objs)[o] else 0
  {
    if objs != [] {
      var n := |objs| - 1;
      KeptMembers(objs[..n], dotconfigs, o);
      assert objs == objs[..n] + [objs[n]];
    }
  }

  /** Of two kept objects the one listed first comes first. */
  lemma {:induction false} KeptOrder(objs: seq<Obj>, dotconfigs: set<string>, a: nat, b: nat) returns (i: nat, j: nat)
    requires a < b < |objs| && Eval(objs[a].expr, dotconfigs) && Eval(objs[b].expr, dotconfigs)
    ensures var kept := Kept(objs, dotconfigs); i < j < |kept| && kept[i] == objs[a] && kept[j] == objs[b]
  {
    var n := |objs| - 1;
    var front := Kept(objs[..n], dotconfigs);
    if b < n {
      i, j := KeptOrder(objs[..n], dotconfigs, a, b);
    } else {
      KeptMembers(objs[..n], dotconfigs, objs[a]);
      assert objs[..n][a] == objs[a];
      i :| 0 <= i < |front| && front[i] == objs[a];
      j := |front|;
    }
  }

  /** A list that is sorted in any sense stays so. */
  lemma {:induction false} KeptStaysSorted(objs: seq<Obj>, dotconfigs: set<string>, before: (Obj, Obj) -> bool)
    requires forall a, b :: 0 <= a < b < |objs| ==> before(objs[a], objs[b])
    ensures var kept := Kept(objs, dotconfigs); forall i, j :: 0 <= i < j < |kept| ==> before(kept[i], kept[j])
  {
    if objs != [] {
      var n := |objs| - 1;
      KeptStaysSorted(objs[..n], dotconfigs, before);
      var front := Kept(objs[..n], dotconfigs);
      forall i | 0 <= i < |front|
        ensures before(front[i], objs[n])
      {
        KeptMembers(objs[..n], dotconfigs, front[i]);
        var a :| 0 <= a < n && objs[..n][a] == front[i];
        assert before(objs[a], objs[n]);
      }
    }
  }

  /** e with x in place of the variable v. */
  function Subst(e: Expr, v: string, x: Expr): Expr {
    match e
    case Lit(_) => e
    case Var(name) => if name == v then x else e
    case Not(y) => Not(Subst(y, v, x))
    case And(l, r) => And(Subst(l, v, x), Subst(r, v, x))
    case Or(l, r) => Or(Subst(l, v, x), Subst(r, v, x))
  }

  /** The variables of e are those that can be replaced in it. */
  lemma {:induction false} VarsAreReplaceable(e: Expr, v: string)
    ensures v in Vars(e) <==> Subst(e, v, Lit(true)) != e
  {
    match e
    case Lit(_) =>
    case Var(_) =>
    case Not(y) => VarsAreReplaceable(y, v);
    case And(l, r) => VarsAreReplaceable(l, v); VarsAreReplaceable(r, v);
    case Or(l, r) => VarsAreReplaceable(l, v); VarsAreReplaceable(r, v);
  }

  /** Replacing a variable by a formula sets it to the formula's value. */
  lemma {:induction false} EvalSubst(e: Expr, v: string, x: Expr, a: set<string>)
    ensures Eval(Subst(e, v, x), a) == Eval(e, if Eval(x, a) then a + {v} else a - {v})
  {
    match e
    case Lit(_) =>
    case Var(_) =>
    case Not(y) => EvalSubst(y, v, x, a);
    case And(l, r) => EvalSubst(l, v, x, a); EvalSubst(r, v, x, a);
    case Or(l, r) => EvalSubst(l, v, x, a); EvalSubst(r, v, x, a);
  }

  class Analysis {
    const check: Solver
    const dotconfigs: set<string>
    var objsSat: seq<Obj>  // in the order of their names

    constructor (check: Solver, dotconfigs: set<string>)
      requires Decides(check)
      ensures Valid() && objsSat == [] && this.dotconfigs == dotconfigs
    {
      this.check, this.dotconfigs, objsSat := check, dotconfigs, [];
    }

    ghost predicate Valid()
      reads this
    {
      Decides(check) && Built(objsSat, dotconfigs)
    }

    method ExecuteCheckSat(objs: seq<Obj>, objId: nat) returns (result: int)
      requires Decides(check) && objId < |objs|
      ensures result == if Eval(objs[objId].expr, dotconfigs) then objId else -1
    {
      var cvars := Vars(objs[objId].expr);
      FixedIsEval(objs[objId].expr, cvars, dotconfigs);
      result := -1;
      if check(objs[objId].expr, FixedBy(cvars, dotconfigs)) {
        result := objId;
      }
    }

    /** `objs` is sorted by name, so visiting it in order sorts the result. */
    method SelectSat(objs: seq<Obj>)
      requires Decides(check)
      modifies this
      ensures Valid() && objsSat == Kept(objs, dotconfigs)
    {
      objsSat := [];
      for k := 0 to |objs|
        invariant objsSat == Kept(objs[..k], dotconfigs) && Built(objsSat, dotconfigs)
      {
        assert objs[..k + 1][..k] == objs[..k];
        var result := ExecuteCheckSat(objs, k);
        if result != -1 {
          objsSat := objsSat + [objs[k]];
        }
      }
      assert objs[..|objs|] == objs;
    }

    /** The solver is asked about every candidate whose formula differs. */
    method CheckBuildDeps(parent: nat, candidates: seq<nat>) returns (results: seq<nat>)
      requires Valid() && parent < |objsSat| && forall c <- candidates :: c < |objsSat|
      ensures forall c: nat :: c in results <==>
        c in candidates && Satisfiable(objsSat[c].expr, FixedBy(Vars(objsSat[parent].expr), dotconfigs))
      ensures (forall c <- candidates :: Vars(objsSat[c].expr) <= Vars(objsSat[parent].expr)) ==> results == candidates
    {
      var pvars := Vars(objsSat[parent].expr);
      results := [];
      for k := 0 to |candidates|
        invariant forall c: nat :: c in results <==>
          c in candidates[..k] && c < |objsSat| && Satisfiable(objsSat[c].expr, FixedBy(pvars, dotconfigs))
        invariant (forall c <- candidates :: Vars(objsSat[c].expr) <= pvars) ==> results == candidates[..k]
      {
        var c := candidates[k];
        assert candidates[..k + 1] == candidates[..k] + [c];
        assert c in candidates;
        if Vars(objsSat[c].expr) <= pvars { FixedIsEval(objsSat[c].expr, pvars, dotconfigs); }
        if objsSat[parent].expr == objsSat[c].expr {
          results := results + [c];
          continue;
        }
        if check(objsSat[c].expr, FixedBy(pvars, dotconfigs)) {
          results := results + [c];
        }
      }
      assert candidates[..|candidates|] == candidates;
    }

    /** Objects after the parent whose variables all occur in the parent. */
    ghost predicate DependsOn(i: nat, j: nat)
      reads this
    {
      i < j < |objsSat| && Vars(objsSat[j].expr) <= Vars(objsSat[i].expr)
    }

    /** One half of the candidates; all of them survive the solver. */
    method DepsInRange(parent: nat, from: nat, to: nat) returns (pairs: seq<(nat, nat)>)
      requires Valid() && parent < from && from <= to + |objsSat| && to <= |objsSat| && parent < |objsSat|
      ensures forall p: (nat, nat) :: p in pairs <==> p.0 == parent && from <= p.1 < to && DependsOn(parent, p.1)
      ensures Distinct(pairs)
    {
      var candidates: seq<nat> := [];
      var c := from;
      while c < to
        invariant from <= c && (from <= to ==> c <= to)
        invariant forall j: nat :: j in candidates <==> from <= j < c && j < to && DependsOn(parent, j)
        invariant forall a, b :: 0 <= a < b < |candidates| ==> candidates[a] < candidates[b]
      {
        if Vars(objsSat[c].expr) - Vars(objsSat[parent].expr) == {} {
          SubsetFromDifference(Vars(objsSat[c].expr), Vars(objsSat[parent].expr));
          assert forall a :: 0 <= a < |candidates| ==> candidates[a] in candidates;
          candidates := candidates + [c];
        }
        c := c + 1;
      }
      var children := CheckBuildDeps(parent, candidates);
      assert children == candidates;
      pairs := seq(|children|, k requires 0 <= k < |children| => (parent, children[k]));
      forall p: (nat, nat) ensures p in pairs <==> p.0 == parent && p.1 in children {
        if p.0 == parent && p.1 in children {
          var k :| 0 <= k < |children| && children[k] == p.1;
          assert pairs[k] == p;
        }
      }
    }

    method ExecuteLeft(parent: nat) returns (pairs: seq<(nat, nat)>)
      requires Valid() && parent < |objsSat|
      ensures forall p: (nat, nat) :: p in pairs <==> p.0 == parent && p.1 < |objsSat| / 2 && DependsOn(parent, p.1)
      ensures Distinct(pairs)
    {
      pairs := DepsInRange(parent, parent + 1, |objsSat| / 2);
    }

    method ExecuteRight(parent: nat) returns (pairs: seq<(nat, nat)>)
      requires Valid() && parent < |objsSat|
      ensures forall p: (nat, nat) :: p in pairs <==> p.0 == parent && p.1 >= |objsSat| / 2 && DependsOn(parent, p.1)
      ensures Distinct(pairs)
    {
      pairs := DepsInRange(parent, if parent + 1 > |objsSat| / 2 then parent + 1 else |objsSat| / 2, |objsSat|);
    }

    /** All printed pairs: left halves of all parents, then right halves. The
        relation is transitive and, as pairs only go forward, acyclic. */
    method PrintDeps() returns (pairs: seq<(nat, nat)>)
      requires Valid()
      ensures forall p: (nat, nat) :: p in pairs <==> DependsOn(p.0, p.1)
      ensures forall p <- pairs :: p.0 < p.1
      ensures forall p <- pairs, q <- pairs :: p.1 == q.0 ==> (p.0, q.1) in pairs
      ensures Distinct(pairs)
    {
      pairs := [];
      for i := 0 to |objsSat|
        invariant forall p: (nat, nat) :: p in pairs <==> p.0 < i && p.1 < |objsSat| / 2 && DependsOn(p.0, p.1)
        invariant Distinct(pairs)
      {
        var more := ExecuteLeft(i);
        DistinctConcat(pairs, more);
        pairs := pairs + more;
      }
      ghost var left := pairs;
      for i := 0 to |objsSat|
        invariant forall p: (nat, nat) :: p in pairs <==>
          p in left || (p.0 < i && p.1 >= |objsSat| / 2 && DependsOn(p.0, p.1))
        invariant Distinct(pairs)
      {
        var more := ExecuteRight(i);
        DistinctConcat(pairs, more);
        pairs := pairs + more;
      }
    }
  }

  ghost predicate Distinct(pairs: seq<(nat, nat)>) {
    forall a, b :: 0 <= a < b < |pairs| ==> pairs[a] != pairs[b]
  }

  lemma DistinctConcat(a: seq<(nat, nat)>, b: seq<(nat, nat)>)
    requires Distinct(a) && Distinct(b) && forall p: (nat, nat) :: p in a ==> p !in b
    ensures Distinct(a + b)
  {
    forall x, y | 0 <= x < y < |a + b| ensures (a + b)[x] != (a + b)[y] {
      if x < |a| <= y { assert a[x] in a && b[y - |a|] in b; }
    }
  }

  lemma SubsetFromDifference(a: set<string>, b: set<string>)
    ensures a - b == {} <==> a <= b
  {
    assert forall x <- a :: x !in b ==> x in a - b;
  }
}
