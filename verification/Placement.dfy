/**
  NodesService.findEligibleNode: filter the online nodes by capacity, sort
  what is left by relative memory load, take the first.
 */
module Placement {
  import opened Wrappers
  import opened Resources

  datatype NodeStatus = Online | Offline | InMaintenance | Degraded

  /** Declared memory of a node; CreateNodeDto asks for at least 256. */
  type Positive = n: nat | n > 0 witness 256

  /** A row of the nodes table, restricted to the columns placement reads and writes. */
  datatype Node = Node(
    status: NodeStatus,
    maintenance: bool,
    cpuCores: nat,
    memoryMb: Positive,
    diskMb: nat,
    overallocate: Amounts,   // the three overallocate*Pct columns
    used: Amounts            // the three *Allocated* counters
  )

  datatype Listed = Listed(id: int, node: Node)

  /** Capacity in hundredths of the unit, so that a percentage needs no rounding. */
  function Capacity(n: Node): Amounts {
    Amounts(n.cpuCores * 100 * (100 + n.overallocate.cpu),
            n.memoryMb * (100 + n.overallocate.mem),
            n.diskMb * (100 + n.overallocate.disk))
  }

  predicate Fits(n: Node, request: Amounts) {
    n.used.Plus(request).Times(100).AtMost(Capacity(n))
  }

  predicate Candidate(n: Node, request: Amounts) {
    n.status == Online && !n.maintenance && Fits(n, request)
  }

  /** Allocated over installed memory, the sort key. */
  function Load(n: Node): real {
    n.used.mem as real / n.memoryMb as real
  }

  function Candidates(listing: seq<Listed>, request: Amounts): seq<Listed> {
    if listing == [] then []
    else if Candidate(listing[0].node, request) then [listing[0]] + Candidates(listing[1..], request)
    else Candidates(listing[1..], request)
  }

  /** Stable insertion: `x` goes before the first row that is not less loaded. */
  function Insert(x: Listed, s: seq<Listed>): (r: seq<Listed>)
    ensures |r| == |s| + 1
  {
    if s == [] || Load(x.node) <= Load(s[0].node) then [x] + s
    else [s[0]] + Insert(x, s[1..])
  }

  /** The array's sort: stable, by increasing load. */
  function SortByLoad(s: seq<Listed>): (r: seq<Listed>)
    ensures |r| == |s|
  {
    if s == [] then [] else Insert(s[0], SortByLoad(s[1..]))
  }

  function FindEligibleNode(listing: seq<Listed>, request: Amounts): Option<Listed> {
    var eligible := Candidates(listing, request);
    if eligible == [] then None else Some(SortByLoad(eligible)[0])
  }

  // ---------------------------------------------------------------------
  // The comparator and the sort
  // ---------------------------------------------------------------------

  /** Comparing quotients is comparing cross products, so no rounding is involved. */
  lemma LoadCrossMultiplied(a: Node, b: Node)
    ensures Load(a) <= Load(b) <==> a.used.mem * b.memoryMb <= b.used.mem * a.memoryMb
  {
    var x, y := a.memoryMb as real, b.memoryMb as real;
    var p, q := Load(a), Load(b);
    assert a.used.mem as real == p * x && b.used.mem as real == q * y;
    assert (a.used.mem * b.memoryMb) as real == a.used.mem as real * y;
    assert (b.used.mem * a.memoryMb) as real == b.used.mem as real * x;
    assert a.used.mem as real * y == p * (x * y);
    assert b.used.mem as real * x == q * (x * y);
    CompareScaled(p, q, x * y);
  }

  lemma CompareScaled(p: real, q: real, z: real)
    requires z > 0.0
    ensures p <= q <==> p * z <= q * z
  {
    if p <= q {
      assert (q - p) * z >= 0.0;
    } else {
      assert (p - q) * z > 0.0;
    }
  }

  ghost predicate Sorted(s: seq<Listed>) {
    forall i, j :: 0 <= i < j < |s| ==> Load(s[i].node) <= Load(s[j].node)
  }

  lemma {:induction false} InsertPermutes(x: Listed, s: seq<Listed>)
    ensures multiset(Insert(x, s)) == multiset(s) + multiset{x}
  {
    if s == [] || Load(x.node) <= Load(s[0].node) {
    } else {
      InsertPermutes(x, s[1..]);
      assert s == [s[0]] + s[1..];
    }
  }

  lemma {:induction false} InsertSorts(x: Listed, s: seq<Listed>)
    requires Sorted(s)
    ensures Sorted(Insert(x, s))
    ensures Load(Insert(x, s)[0].node) == if s == [] || Load(x.node) <= Load(s[0].node)
                                          then Load(x.node) else Load(s[0].node)
  {
    if s == [] || Load(x.node) <= Load(s[0].node) {
    } else {
      InsertSorts(x, s[1..]);
    }
  }

  /** The sort yields the same rows ... */
  lemma {:induction false} SortPermutes(s: seq<Listed>)
    ensures multiset(SortByLoad(s)) == multiset(s)
  {
    if s != [] {
      SortPermutes(s[1..]);
      InsertPermutes(s[0], SortByLoad(s[1..]));
      assert s == [s[0]] + s[1..];
    }
  }

  /** ... in order of load. */
  lemma {:induction false} SortOrders(s: seq<Listed>)
    ensures Sorted(SortByLoad(s))
  {
    if s != [] {
      SortOrders(s[1..]);
      InsertSorts(s[0], SortByLoad(s[1..]));
    }
  }

  /**
    What makes a row eligible, column by column: online, out of maintenance, and
    in each resource what is allocated and asked for together is within the size
    plus its own percentage of overallocation. A core is 100 percent.
   */
  ghost predicate Eligible(n: Node, cpuPct: int, memoryMb: int, diskMb: int) {
    && n.status == Online && n.maintenance == false
    && 100 * (n.used.cpu + cpuPct) <= 100 * n.cpuCores * (100 + n.overallocate.cpu)
    && 100 * (n.used.mem + memoryMb) <= n.memoryMb * (100 + n.overallocate.mem)
    && 100 * (n.used.disk + diskMb) <= n.diskMb * (100 + n.overallocate.disk)
  }

  /** Allocated over installed memory, of the first at most, or below, that of the second. */
  ghost predicate NoFuller(a: Node, b: Node) { a.used.mem * b.memoryMb <= b.used.mem * a.memoryMb }

  ghost predicate Emptier(a: Node, b: Node) { a.used.mem * b.memoryMb < b.used.mem * a.memoryMb }

  /** What the placement promises: `i` is the earliest eligible row of least relative memory load. */
  ghost predicate BestFit(listing: seq<Listed>, request: Amounts, i: nat)
    requires i < |listing|
  {
    && Eligible(listing[i].node, request.cpu, request.mem, request.disk)
    && (forall j :: 0 <= j < |listing| && Eligible(listing[j].node, request.cpu, request.mem, request.disk)
                    ==> NoFuller(listing[i].node, listing[j].node))
    && (forall j :: 0 <= j < i && Eligible(listing[j].node, request.cpu, request.mem, request.disk)
                    ==> Emptier(listing[i].node, listing[j].node))
  }

  ghost predicate NothingFits(listing: seq<Listed>, request: Amounts) {
    forall j :: 0 <= j < |listing| ==> !Eligible(listing[j].node, request.cpu, request.mem, request.disk)
  }

  lemma CandidateIsEligible(n: Node, request: Amounts)
    ensures Candidate(n, request) <==> Eligible(n, request.cpu, request.mem, request.disk)
  {
    assert n.cpuCores * 100 * (100 + n.overallocate.cpu) == 100 * n.cpuCores * (100 + n.overallocate.cpu);
  }

  /** The earliest candidate of least load. */
  ghost predicate EarliestLeast(listing: seq<Listed>, request: Amounts, i: nat)
    requires i < |listing|
  {
    && Candidate(listing[i].node, request)
    && (forall j :: 0 <= j < |listing| && Candidate(listing[j].node, request)
                    ==> Load(listing[i].node) <= Load(listing[j].node))
    && (forall j :: 0 <= j < i && Candidate(listing[j].node, request)
                    ==> Load(listing[i].node) < Load(listing[j].node))
  }

  lemma EarliestLeastIsBestFit(listing: seq<Listed>, request: Amounts, i: nat)
    requires i < |listing| && EarliestLeast(listing, request, i)
    ensures BestFit(listing, request, i)
  {
    forall j | 0 <= j < |listing| && Eligible(listing[j].node, request.cpu, request.mem, request.disk)
      ensures NoFuller(listing[i].node, listing[j].node)
      ensures j < i ==> Emptier(listing[i].node, listing[j].node)
    {
      CandidateIsEligible(listing[j].node, request);
      LoadCrossMultiplied(listing[i].node, listing[j].node);
      LoadCrossMultiplied(listing[j].node, listing[i].node);
    }
    CandidateIsEligible(listing[i].node, request);
  }

  ghost predicate NoCandidate(listing: seq<Listed>, request: Amounts) {
    forall j :: 0 <= j < |listing| ==> !Candidate(listing[j].node, request)
  }

  /** Filter, sort and take the first refines the choice stated by BestFit; it fails iff nothing fits. */
  lemma PlacementIsBestFit(listing: seq<Listed>, request: Amounts) returns (i: nat)
    ensures FindEligibleNode(listing, request).None? <==> NothingFits(listing, request)
    ensures FindEligibleNode(listing, request).Some? ==>
              && i < |listing| && BestFit(listing, request, i)
              && FindEligibleNode(listing, request).value == listing[i]
  {
    i := FirstOfLeast(listing, request);
    if FindEligibleNode(listing, request).Some? { EarliestLeastIsBestFit(listing, request, i); }
    forall j | 0 <= j < |listing|
      ensures Candidate(listing[j].node, request)
              <==> Eligible(listing[j].node, request.cpu, request.mem, request.disk)
    {
      CandidateIsEligible(listing[j].node, request);
    }
    assert NoCandidate(listing, request) <==> NothingFits(listing, request);
  }

  lemma {:induction false} FirstOfLeast(listing: seq<Listed>, request: Amounts) returns (i: nat)
    ensures FindEligibleNode(listing, request).None? <==> NoCandidate(listing, request)
    ensures FindEligibleNode(listing, request).Some? ==>
              && i < |listing| && EarliestLeast(listing, request, i)
              && FindEligibleNode(listing, request).value == listing[i]
  {
    i := 0;
    if listing != [] {
      var rest := listing[1..];
      var k := FirstOfLeast(rest, request);
      assert forall j :: 0 < j < |listing| ==> listing[j] == rest[j - 1];
      if Candidate(listing[0].node, request) {
        if FindEligibleNode(rest, request).Some? && Load(rest[k].node) < Load(listing[0].node) {
          i := k + 1;
        }
      } else {
        i := k + 1;
        assert NoCandidate(listing, request) <==> NoCandidate(rest, request) by {
          if NoCandidate(listing, request) {
            forall j | 0 <= j < |rest| ensures !Candidate(rest[j].node, request) {
              assert rest[j] == listing[j + 1];
            }
          }
        }
      }
    }
  }

  /** At most one row meets that promise, so the choice is determined by the listing. */
  lemma BestFitIsUnique(listing: seq<Listed>, request: Amounts, i: nat, j: nat)
    requires i < |listing| && j < |listing|
    requires BestFit(listing, request, i) && BestFit(listing, request, j)
    ensures i == j
  {
    assert NoFuller(listing[i].node, listing[j].node) && NoFuller(listing[j].node, listing[i].node);
  }
}
