/** Facts about finite sets and tables. */
module Sets {
  /** Some element of a non-empty set. */
  ghost function Member<T>(a: set<T>): (x: T)
    requires a != {}
    ensures x in a
  {
    var x :| x in a; x
  }

  lemma EmptyTable<T>(m: map<int, T>)
    requires forall k :: k !in m
    ensures m == map[]
  {
    if m.Keys != {} {
      var k := Member(m.Keys);
    }
  }

  lemma {:induction false} SubsetSize<T>(a: set<T>, b: set<T>)
    requires a <= b
    ensures |a| <= |b|
    decreases |a|
  {
    if a != {} {
      var x := Member(a);
      assert |a - {x}| == |a| - 1 && |b - {x}| == |b| - 1;
      SubsetSize(a - {x}, b - {x});
    }
  }

  lemma SameTable<T>(a: map<int, T>, b: map<int, T>)
    requires a.Keys == b.Keys && forall k :: k in a.Keys ==> a[k] == b[k]
    ensures a == b
  {
    forall k: int | k in a.Keys ensures a[k] == b[k] {}
  }
}
