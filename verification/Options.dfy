/** Stock types shared by the modules. */
module Options {

  datatype Option<T> = None | Some(value: T)

  /** A dictionary of sets, read without creating the entry. */
  function At<K, V>(m: map<K, set<V>>, k: K): set<V> {
    if k in m then m[k] else {}
  }

  /** No member of s occurs in it twice. */
  predicate NoTwice<T(==)>(s: seq<T>) {
    forall i, j :: 0 <= i < j < |s| ==> s[i] != s[j]
  }

  /** As lists without repetition, the same members take the same room. */
  lemma SameLength<T>(a: seq<T>, b: seq<T>)
    requires NoTwice(a) && NoTwice(b) && forall x :: x in a <==> x in b
    ensures |a| == |b|
  {
    LengthIsSize(a);
    LengthIsSize(b);
    assert (set x | x in a) == (set x | x in b);
  }

  lemma {:induction false} LengthIsSize<T>(a: seq<T>)
    requires NoTwice(a)
    ensures |set x | x in a| == |a|
  {
    if a != [] {
      var n := |a| - 1;
      LengthIsSize(a[..n]);
      assert (set x | x in a) == (set x | x in a[..n]) + {a[n]};
    }
  }
}
