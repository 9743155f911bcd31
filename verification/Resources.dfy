/**
  CPU, memory and disk amounts, and sums of them over the rows of a table.
 */
module Resources {
  import opened Sets

  /** One amount per resource. Requests and server limits are non-negative; differences need not be. */
  datatype Amounts = Amounts(cpu: int, mem: int, disk: int) {
    function Plus(o: Amounts): Amounts { Amounts(cpu + o.cpu, mem + o.mem, disk + o.disk) }
    function Minus(o: Amounts): Amounts { Amounts(cpu - o.cpu, mem - o.mem, disk - o.disk) }
    function Times(k: int): Amounts { Amounts(k * cpu, k * mem, k * disk) }
    predicate AtMost(o: Amounts) { cpu <= o.cpu && mem <= o.mem && disk <= o.disk }
  }

  const ZERO := Amounts(0, 0, 0)

  ghost function Pick(m: map<int, Amounts>): (k: int)
    requires m != map[]
    ensures k in m
  {
    Member(m.Keys)
  }

  /** The sum of the amounts in a table. */
  ghost function Total(m: map<int, Amounts>): Amounts
    decreases |m|
  {
    if m == map[] then ZERO
    else
      Smaller(m, Pick(m));
      m[Pick(m)].Plus(Total(m - {Pick(m)}))
  }

  lemma Smaller(m: map<int, Amounts>, k: int)
    requires k in m
    ensures |m - {k}| == |m| - 1
  {
    assert (m - {k}).Keys == m.Keys - {k};
  }

  /** Any row can be taken out first. */
  lemma {:induction false} TotalRemove(m: map<int, Amounts>, k: int)
    requires k in m
    ensures Total(m) == m[k].Plus(Total(m - {k}))
    decreases |m|
  {
    var j := Pick(m);
    if j != k {
      Smaller(m, j);
      Smaller(m, k);
      TotalRemove(m - {j}, k);
      TotalRemove(m - {k}, j);
      assert (m - {j}) - {k} == (m - {k}) - {j};
    }
  }

  lemma TotalAdd(m: map<int, Amounts>, k: int, v: Amounts)
    requires k !in m
    ensures Total(m[k := v]) == Total(m).Plus(v)
  {
    TotalRemove(m[k := v], k);
    assert m[k := v] - {k} == m;
  }

  lemma TotalUpdate(m: map<int, Amounts>, k: int, v: Amounts)
    requires k in m
    ensures Total(m[k := v]) == Total(m).Minus(m[k]).Plus(v)
  {
    TotalRemove(m, k);
    TotalRemove(m[k := v], k);
    assert m[k := v] - {k} == m - {k};
  }

  /** A table of rows that each are at most `r` sums to at most |m| times `r`. */
  lemma {:induction false} TotalBound(m: map<int, Amounts>, r: Amounts)
    requires forall k :: k in m ==> m[k].AtMost(r)
    ensures Total(m).AtMost(r.Times(|m|))
    decreases |m|
  {
    if m != map[] {
      var k := Pick(m);
      Smaller(m, k);
      TotalBound(m - {k}, r);
      TimesSuccessor(r, |m| - 1);
    }
  }

  lemma TimesSuccessor(r: Amounts, n: int)
    ensures r.Times(n + 1) == r.Times(n).Plus(r)
  {}

  lemma {:induction false} TotalNonNegative(m: map<int, Amounts>)
    requires forall k :: k in m ==> ZERO.AtMost(m[k])
    ensures ZERO.AtMost(Total(m))
    decreases |m|
  {
    if m != map[] {
      Smaller(m, Pick(m));
      TotalNonNegative(m - {Pick(m)});
    }
  }
}
