/** Python's defaultdict(set) and dictionaries of dictionaries of sets, as the
    relations they hold. */
module Multimap {
  import opened ObjTables
  import opened Options

  /** The dictionary that holds a relation and has no empty entry. */
  ghost function Group<K, V>(rel: set<(K, V)>): map<K, set<V>> {
    map k | k in Firsts(rel) :: Image(rel, k)
  }

  ghost function Firsts<K, V>(rel: set<(K, V)>): set<K> { set p | p in rel :: p.0 }

  ghost function Image<K, V>(rel: set<(K, V)>, k: K): set<V> { set p | p in rel && p.0 == k :: p.1 }

  function Add<K, V>(m: map<K, set<V>>, k: K, v: V): map<K, set<V>> {
    m[k := At(m, k) + {v}]
  }

  lemma GroupAdd<K, V>(rel: set<(K, V)>, k: K, v: V)
    ensures Add(Group(rel), k, v) == Group(rel + {(k, v)})
  {
    var (a, b) := (Add(Group(rel), k, v), Group(rel + {(k, v)}));
    assert a.Keys == b.Keys;
    forall x | x in a ensures a[x] == b[x] {
      assert forall y :: (x, y) in rel + {(k, v)} <==> (x, y) in rel || (x == k && y == v);
      assert forall y :: y in b[x] <==> (x, y) in rel + {(k, v)};
      assert forall y :: y in At(Group(rel), x) <==> (x, y) in rel;
    }
  }

  lemma GroupAt<K, V>(rel: set<(K, V)>, k: K)
    ensures forall v :: v in At(Group(rel), k) <==> (k, v) in rel
    ensures k in Group(rel) ==> Group(rel)[k] != {}
  {
    if k in Group(rel) {
      var p :| p in rel && p.0 == k;
      assert p.1 in Group(rel)[k];
    }
  }

  type Nested = map<Name, map<Name, set<Name>>>

  datatype Triple = Triple(mod: Name, fst: Name, snd: Name)

  function At2(m: Nested, a: Name, b: Name): set<Name> {
    if a in m then At(m[a], b) else {}
  }

  function Add2(m: Nested, a: Name, b: Name, v: Name): Nested {
    m[a := Add(if a in m then m[a] else map[], b, v)]
  }

  /** The nested dictionary holds exactly the triples of the relation, and an
      inner key only with one. */
  ghost predicate Holds(m: Nested, rel: set<Triple>) {
    && (forall t <- rel :: t.snd in At2(m, t.mod, t.fst))
    && (forall a, b :: a in m && b in m[a] ==> m[a][b] != {} && forall v <- m[a][b] :: Triple(a, b, v) in rel)
  }

  lemma HoldsAdd(m: Nested, rel: set<Triple>, a: Name, b: Name, v: Name)
    requires Holds(m, rel)
    ensures Holds(Add2(m, a, b, v), rel + {Triple(a, b, v)})
  {
    var m' := Add2(m, a, b, v);
    forall x, y | x in m' && y in m'[x]
      ensures m'[x][y] != {} && forall z <- m'[x][y] :: Triple(x, y, z) in rel + {Triple(a, b, v)}
    {
      assert m'[x][y] == if x == a && y == b then At2(m, a, b) + {v} else m[x][y];
    }
  }

  /** Touching an outer key leaves the relation alone. */
  lemma HoldsTouch(m: Nested, rel: set<Triple>, a: Name)
    requires Holds(m, rel)
    ensures Holds(if a in m then m else m[a := map[]], rel)
  {
  }
}
