/**
  The allocator's promises over whole runs, from the empty database and in any
  interleaving: conservation, the summary's totals, the overcommit bound and
  the ceiling on ports.
 */
module AllocatorTheorems {
  import opened Wrappers
  import opened Sets
  import opened Resources
  import opened Placement
  import opened Allocator
  import opened AllocatorSafety

  // ---------------------------------------------------------------------
  // Conservation
  // ---------------------------------------------------------------------

  lemma EveryRun(steps: seq<Step>)
    ensures Inv(Run(EMPTY, steps))
  {
    forall n ensures Primaries(EMPTY.allocations, n) == {} {}
    InvRun(EMPTY, steps);
  }

  /** In every reachable state each node's counters are the sums of the limits of its servers. */
  lemma Conservation(steps: seq<Step>, node: int)
    requires node in Run(EMPTY, steps).nodes
    ensures var s := Run(EMPTY, steps);
            s.nodes[node].used == Total(LimitsOn(s.servers, node)) && ZERO.AtMost(s.nodes[node].used)
  {
    EveryRun(steps);
    TotalNonNegative(LimitsOn(Run(EMPTY, steps).servers, node));
  }

  function UsedBy(nodes: map<int, Node>): map<int, Amounts> { map n | n in nodes :: nodes[n].used }

  function AllLimits(servers: map<int, Server>): map<int, Amounts> { map x | x in servers :: servers[x].limits }

  lemma {:induction false} TotalOfZeros(m: map<int, Amounts>)
    requires forall k :: k in m ==> m[k] == ZERO
    ensures Total(m) == ZERO
    decreases |m|
  {
    if m != map[] {
      Smaller(m, Pick(m));
      TotalOfZeros(m - {Pick(m)});
    }
  }

  lemma UsedTotalLess(nodes: map<int, Node>, n: int, amounts: Amounts)
    requires n in nodes
    ensures Total(UsedBy(nodes[n := nodes[n].(used := nodes[n].used.Minus(amounts))]))
            == Total(UsedBy(nodes)).Minus(amounts)
  {
    var nodes' := nodes[n := nodes[n].(used := nodes[n].used.Minus(amounts))];
    assert UsedBy(nodes') == UsedBy(nodes)[n := nodes'[n].used];
    TotalUpdate(UsedBy(nodes), n, nodes'[n].used);
  }

  /** Summing the counters over the nodes is summing the limits over all servers. */
  lemma {:induction false} SumByNode(nodes: map<int, Node>, servers: map<int, Server>)
    requires Hosted(servers, nodes) && Conserved(nodes, servers)
    ensures Total(UsedBy(nodes)) == Total(AllLimits(servers))
    decreases |servers|
  {
    if x :| x in servers {
      var row := servers[x];
      var nodes' := nodes[row.node := nodes[row.node].(used := nodes[row.node].used.Minus(row.limits))];
      assert (servers - {x}).Keys == servers.Keys - {x};
      ConservedByRemoval(nodes, servers, x);
      SumByNode(nodes', servers - {x});
      UsedTotalLess(nodes, row.node, row.limits);
      assert AllLimits(servers - {x}) == AllLimits(servers) - {x};
      TotalRemove(AllLimits(servers), x);
    } else {
      forall n | n in nodes ensures nodes[n].used == ZERO {
        EmptyTable(LimitsOn(servers, n));
      }
      TotalOfZeros(UsedBy(nodes));
      EmptyTable(AllLimits(servers));
    }
  }

  /** MonitoringService.summary: the counters of the listed nodes, reduced in listing order. */
  function SummaryUsed(rows: seq<Listed>): Amounts {
    if rows == [] then ZERO else rows[0].node.used.Plus(SummaryUsed(rows[1..]))
  }

  /** Taking the first listed node out of the table. */
  lemma ListingRest(order: seq<int>, nodes: map<int, Node>)
    requires IsListing(order, nodes) && order != []
    ensures IsListing(order[1..], nodes - {order[0]})
    ensures Listing(order, nodes)[1..] == Listing(order[1..], nodes - {order[0]})
  {
    var rest := nodes - {order[0]};
    forall k | k in rest ensures k in order[1..] {
      var i :| 0 <= i < |order| && order[i] == k;
      assert order[1..][i - 1] == k;
    }
  }

  lemma UsedRest(nodes: map<int, Node>, n: int)
    requires n in nodes
    ensures Total(UsedBy(nodes)) == nodes[n].used.Plus(Total(UsedBy(nodes - {n})))
  {
    assert UsedBy(nodes - {n}) == UsedBy(nodes) - {n};
    TotalRemove(UsedBy(nodes), n);
  }

  lemma {:induction false} SummaryIsTotal(order: seq<int>, nodes: map<int, Node>)
    requires IsListing(order, nodes)
    ensures SummaryUsed(Listing(order, nodes)) == Total(UsedBy(nodes))
  {
    if order == [] {
      EmptyTable(UsedBy(nodes));
    } else {
      ListingRest(order, nodes);
      SummaryIsTotal(order[1..], nodes - {order[0]});
      UsedRest(nodes, order[0]);
    }
  }

  /** Whatever order the nodes are listed in, the summary's totals are the sums over all servers. */
  lemma SummaryTotals(steps: seq<Step>, order: seq<int>)
    requires IsListing(order, Run(EMPTY, steps).nodes)
    ensures var s := Run(EMPTY, steps);
            SummaryUsed(Listing(order, s.nodes)) == Total(AllLimits(s.servers))
  {
    var s := Run(EMPTY, steps);
    EveryRun(steps);
    SummaryIsTotal(order, s.nodes);
    SumByNode(s.nodes, s.servers);
  }

  // ---------------------------------------------------------------------
  // The overcommit bound
  // ---------------------------------------------------------------------

  /** Requests of the creates in flight towards `node`. */
  function PendingOn(creating: map<int, Creating>, node: int): map<int, Amounts> {
    map t | t in creating && creating[t].node == node :: creating[t].request
  }

  /** Capacity plus (k-1) requests, in hundredths. */
  function Ceiling(n: Node, k: int, r: Amounts): Amounts {
    Capacity(n).Plus(r.Times(k - 1).Times(100))
  }

  /** The key invariant: what is allocated and what is pending stay below the ceiling together. */
  ghost predicate Headroom(nodes: map<int, Node>, creating: map<int, Creating>, k: int, r: Amounts) {
    forall n :: n in nodes ==>
      nodes[n].used.Plus(Total(PendingOn(creating, n))).Times(100).AtMost(Ceiling(nodes[n], k, r))
  }

  ghost predicate RequestsWithin(creating: map<int, Creating>, r: Amounts) {
    forall t :: t in creating ==> ZERO.AtMost(creating[t].request) && creating[t].request.AtMost(r)
  }

  lemma PendingRemove(creating: map<int, Creating>, t: int, n: int)
    requires t in creating
    ensures PendingOn(creating - {t}, n)
            == if creating[t].node == n then PendingOn(creating, n) - {t} else PendingOn(creating, n)
  {}

  lemma PendingAdd(creating: map<int, Creating>, t: int, c: Creating, n: int)
    requires t !in creating
    ensures PendingOn(creating[t := c], n)
            == if c.node == n then PendingOn(creating, n)[t := c.request] else PendingOn(creating, n)
  {}

  /** Giving up a create only makes room. */
  lemma HeadroomByDrop(nodes: map<int, Node>, creating: map<int, Creating>, t: int, k: int, r: Amounts)
    requires Headroom(nodes, creating, k, r) && RequestsWithin(creating, r)
    ensures Headroom(nodes, creating - {t}, k, r)
  {
    if t in creating {
      forall n | n in nodes
        ensures Total(PendingOn(creating - {t}, n)).AtMost(Total(PendingOn(creating, n)))
      {
        PendingRemove(creating, t, n);
        if creating[t].node == n {
          TotalRemove(PendingOn(creating, n), t);
        }
      }
    } else {
      assert creating - {t} == creating;
    }
  }

  /** Committing moves a request from pending to allocated. */
  lemma HeadroomByCommit(nodes: map<int, Node>, creating: map<int, Creating>, t: int, k: int, r: Amounts)
    requires Headroom(nodes, creating, k, r) && t in creating && creating[t].node in nodes
    ensures var c := creating[t];
            Headroom(nodes[c.node := nodes[c.node].(used := nodes[c.node].used.Plus(c.request))], creating - {t}, k, r)
  {
    forall n | n in nodes
      ensures Total(PendingOn(creating - {t}, n))
              == if n == creating[t].node then Total(PendingOn(creating, n)).Minus(creating[t].request)
                 else Total(PendingOn(creating, n))
    {
      PendingRemove(creating, t, n);
      if creating[t].node == n {
        TotalRemove(PendingOn(creating, n), t);
      }
    }
  }

  lemma TimesMonotone(r: Amounts, a: int, b: int)
    requires ZERO.AtMost(r) && a <= b
    ensures r.Times(a).AtMost(r.Times(b))
  {}

  /** What k creates in flight can ask of one node. */
  lemma PendingBound(creating: map<int, Creating>, n: int, k: int, r: Amounts)
    requires RequestsWithin(creating, r) && ZERO.AtMost(r) && |creating| <= k
    ensures Total(PendingOn(creating, n)).AtMost(r.Times(k))
  {
    var p := PendingOn(creating, n);
    SubsetSize(p.Keys, creating.Keys);
    TotalBound(p, r);
    TimesMonotone(r, |p|, k);
  }

  /** A selection fits the counters it read; the other creates in flight are at most k-1. */
  lemma HeadroomBySelect(nodes: map<int, Node>, creating: map<int, Creating>, t: int, c: Creating, k: int, r: Amounts)
    requires Headroom(nodes, creating, k, r) && RequestsWithin(creating, r) && ZERO.AtMost(r)
    requires t !in creating && c.node in nodes && Fits(nodes[c.node], c.request)
    requires |creating| <= k - 1
    ensures Headroom(nodes, creating[t := c], k, r)
  {
    var p := PendingOn(creating, c.node);
    PendingBound(creating, c.node, k - 1, r);
    TotalAdd(p, t, c.request);
    forall n ensures PendingOn(creating[t := c], n)
                     == if c.node == n then PendingOn(creating, n)[t := c.request] else PendingOn(creating, n) {
      PendingAdd(creating, t, c, n);
    }
    FitsBelowCeiling(nodes[c.node], c.request, Total(p), k, r);
  }

  lemma FitsBelowCeiling(node: Node, request: Amounts, pending: Amounts, k: int, r: Amounts)
    requires Fits(node, request) && pending.AtMost(r.Times(k - 1))
    ensures node.used.Plus(pending.Plus(request)).Times(100).AtMost(Ceiling(node, k, r))
  {}

  lemma HeadroomByCreateNode(nodes: map<int, Node>, creating: map<int, Creating>, x: int, node: Node, k: int, r: Amounts)
    requires Headroom(nodes, creating, k, r) && ZERO.AtMost(r) && k >= 1
    requires node.used == ZERO && ZERO.AtMost(node.overallocate)
    requires forall t :: t in creating ==> creating[t].node != x
    ensures Headroom(nodes[x := node], creating, k, r)
  {
    EmptyTable(PendingOn(creating, x));
    assert ZERO.AtMost(Capacity(node));
    TimesMonotone(r, 0, k - 1);
  }

  /** What the run theorem carries along. */
  ghost predicate Bounded(nodes: map<int, Node>, creating: map<int, Creating>, k: int, r: Amounts) {
    Headroom(nodes, creating, k, r) && RequestsWithin(creating, r)
  }

  lemma CreateNodeBounded(s: State, cpuCores: nat, memoryMb: nat, diskMb: nat, overallocate: Amounts, k: int, r: Amounts)
    requires Inv(s) && Bounded(s.nodes, s.creating, k, r) && k >= 1 && ZERO.AtMost(r)
    ensures Bounded(AfterCreateNode(s, cpuCores, memoryMb, diskMb, overallocate).nodes, s.creating, k, r)
  {
    var s' := AfterCreateNode(s, cpuCores, memoryMb, diskMb, overallocate);
    if s' != s {
      HeadroomByCreateNode(s.nodes, s.creating, s.nextId, s'.nodes[s.nextId], k, r);
    }
  }

  lemma SetStatusBounded(s: State, node: int, status: NodeStatus, maintenance: bool, k: int, r: Amounts)
    requires Bounded(s.nodes, s.creating, k, r)
    ensures Bounded(AfterSetStatus(s, node, status, maintenance).nodes, s.creating, k, r)
  {}

  lemma SelectedBounded(nodes: map<int, Node>, creating: map<int, Creating>, t: int, c: Creating, k: int, r: Amounts)
    requires Bounded(nodes, creating, k, r) && ZERO.AtMost(r)
    requires t !in creating && c.node in nodes && Fits(nodes[c.node], c.request)
    requires ZERO.AtMost(c.request) && c.request.AtMost(r) && |creating[t := c]| <= k
    ensures Bounded(nodes, creating[t := c], k, r)
  {
    assert creating[t := c].Keys == creating.Keys + {t};
    HeadroomBySelect(nodes, creating, t, c, k, r);
  }

  lemma SelectNodeBounded(s: State, order: seq<int>, request: Amounts, k: int, r: Amounts)
    requires Inv(s) && Bounded(s.nodes, s.creating, k, r) && ZERO.AtMost(r) && request.AtMost(r)
    requires |AfterSelectNode(s, order, request).creating| <= k
    ensures Bounded(s.nodes, AfterSelectNode(s, order, request).creating, k, r)
  {
    if ValidRequest(request) && IsListing(order, s.nodes) {
      var chosen := FindEligibleNode(Listing(order, s.nodes), request);
      if chosen.Some? {
        ChosenExists(s, order, request);
        SelectedBounded(s.nodes, s.creating, s.nextId, Selected(chosen.value.id, request), k, r);
      }
    }
  }

  lemma NumberedBounded(nodes: map<int, Node>, creating: map<int, Creating>, t: int, p: int, k: int, r: Amounts)
    requires Bounded(nodes, creating, k, r) && t in creating
    ensures Bounded(nodes, creating[t := Numbered(creating[t].node, creating[t].request, p)], k, r)
  {
    var creating' := creating[t := Numbered(creating[t].node, creating[t].request, p)];
    forall n ensures PendingOn(creating', n) == PendingOn(creating, n) {}
  }

  lemma ReadPortBounded(s: State, t: int, k: int, r: Amounts)
    requires Bounded(s.nodes, s.creating, k, r)
    ensures Bounded(s.nodes, AfterReadPort(s, t).creating, k, r)
  {
    HeadroomByDrop(s.nodes, s.creating, t, k, r);
    if t in s.creating {
      var p := LeastFreePort(PortsInUse(s.allocations, s.creating[t].node));
      if p.Some? {
        NumberedBounded(s.nodes, s.creating, t, p.value, k, r);
      }
    }
  }

  lemma CommitCreateBounded(s: State, t: int, k: int, r: Amounts)
    requires Bounded(s.nodes, s.creating, k, r)
    ensures Bounded(AfterCommitCreate(s, t).nodes, AfterCommitCreate(s, t).creating, k, r)
  {
    HeadroomByDrop(s.nodes, s.creating, t, k, r);
    if Committed(s, t) {
      HeadroomByCommit(s.nodes, s.creating, t, k, r);
    }
  }

  lemma LessUsedBounded(nodes: map<int, Node>, creating: map<int, Creating>, n: int, limits: Amounts, k: int, r: Amounts)
    requires Bounded(nodes, creating, k, r) && n in nodes && ZERO.AtMost(limits)
    ensures Bounded(nodes[n := nodes[n].(used := nodes[n].used.Minus(limits))], creating, k, r)
  {}

  lemma CommitDeleteBounded(s: State, t: int, k: int, r: Amounts)
    requires Inv(s) && Bounded(s.nodes, s.creating, k, r)
    ensures Bounded(AfterCommitDelete(s, t).nodes, s.creating, k, r)
  {
    if t in s.deleting && s.deleting[t].row.node in s.nodes && s.deleting[t].server in s.servers {
      LessUsedBounded(s.nodes, s.creating, s.deleting[t].row.node, s.deleting[t].row.limits, k, r);
    }
  }

  lemma DeleteNodeBounded(s: State, node: int, k: int, r: Amounts)
    requires Bounded(s.nodes, s.creating, k, r)
    ensures Bounded(AfterDeleteNode(s, node).nodes, s.creating, k, r)
  {}

  /** Which steps touch the nodes ... */
  lemma NodesTouched(s: State, step: Step)
    ensures step.CreateNode? || step.SetStatus? || step.CommitCreate? || step.CommitDelete? || step.DeleteNode?
            || Next(s, step).nodes == s.nodes
  {
    if step.SelectNode? || step.ReadPort? || step.AbortCreate? {
      CreateStepsTouch(s, step);
    } else if step.BeginDelete? || step.BeginAdd? || step.CommitAdd? || step.BeginRemove? || step.CommitRemove? {
      AllocationStepsTouch(s, step);
    }
  }

  lemma ChoiceTouches(s: State, request: Amounts, choice: Option<Listed>)
    ensures var s' := AfterChoice(s, request, choice);
            s'.nodes == s.nodes && s'.admitted == s.admitted && s.nextId <= s'.nextId
  {}

  lemma SelectTouches(s: State, order: seq<int>, request: Amounts)
    ensures var s' := AfterSelectNode(s, order, request);
            s'.nodes == s.nodes && s'.admitted == s.admitted && s.nextId <= s'.nextId
  {
    if IsListing(order, s.nodes) {
      ChoiceTouches(s, request, FindEligibleNode(Listing(order, s.nodes), request));
    }
  }

  lemma PortReadTouches(s: State, t: int, port: Option<int>)
    requires t in s.creating
    ensures var s' := AfterPortRead(s, t, port);
            s'.nodes == s.nodes && s'.admitted == s.admitted && s.nextId == s'.nextId
  {}

  lemma ReadPortTouches(s: State, t: int)
    ensures var s' := AfterReadPort(s, t);
            s'.nodes == s.nodes && s'.admitted == s.admitted && s.nextId == s'.nextId
  {
    if t in s.creating {
      PortReadTouches(s, t, LeastFreePort(PortsInUse(s.allocations, s.creating[t].node)));
    }
  }

  lemma AbortTouches(s: State, t: int)
    ensures var s' := AfterAbortCreate(s, t);
            s'.nodes == s.nodes && s'.admitted == s.admitted && s.nextId == s'.nextId
  {}

  lemma CreateStepsTouch(s: State, step: Step)
    requires step.SelectNode? || step.ReadPort? || step.AbortCreate?
    ensures Next(s, step).nodes == s.nodes && Next(s, step).admitted == s.admitted
    ensures s.nextId <= Next(s, step).nextId
  {
    match step
    case SelectNode(order, request) => SelectTouches(s, order, request);
    case ReadPort(t) => ReadPortTouches(s, t);
    case AbortCreate(t) => AbortTouches(s, t);
  }

  lemma AllocationStepsTouch(s: State, step: Step)
    requires step.BeginDelete? || step.BeginAdd? || step.CommitAdd? || step.BeginRemove? || step.CommitRemove?
    ensures Next(s, step).nodes == s.nodes && Next(s, step).admitted == s.admitted
    ensures Next(s, step).creating == s.creating && s.nextId <= Next(s, step).nextId
  {
    match step
    case BeginAdd(x) => BeginAddTouches(s, x);
    case BeginDelete(x) =>
    case CommitAdd(t) => CommitAddTouches(s, t);
    case BeginRemove(x, a) =>
    case CommitRemove(t) =>
  }

  lemma CommitAddTouches(s: State, t: int)
    ensures var s' := AfterCommitAdd(s, t);
            s'.nodes == s.nodes && s'.admitted == s.admitted && s'.creating == s.creating && s.nextId <= s'.nextId
  {
    if t in s.adding {
      var a := s.adding[t];
      if a.server !in s.servers || a.node !in s.nodes || PortTaken(s.allocations, a.node, a.port) {
        assert AfterCommitAdd(s, t) == s.(adding := s.adding - {t});
      }
    }
  }

  lemma PortToAddTouches(s: State, server: int, node: int, port: Option<int>)
    ensures var s' := AfterPortToAdd(s, server, node, port);
            s'.nodes == s.nodes && s'.admitted == s.admitted && s'.creating == s.creating && s.nextId <= s'.nextId
  {}

  lemma BeginAddTouches(s: State, server: int)
    ensures var s' := AfterBeginAdd(s, server);
            s'.nodes == s.nodes && s'.admitted == s.admitted && s'.creating == s.creating && s.nextId <= s'.nextId
  {
    if server in s.servers {
      var node := s.servers[server].node;
      PortToAddTouches(s, server, node, LeastFreePort(PortsInUse(s.allocations, node)));
    }
  }

  lemma NodeStepsTouch(s: State, step: Step)
    requires step.CreateNode? || step.SetStatus? || step.CommitDelete? || step.DeleteNode?
    ensures Next(s, step).creating == s.creating && s.nextId <= Next(s, step).nextId
    ensures step.SetStatus? || step.CommitDelete? ==> Next(s, step).admitted == s.admitted
  {}

  /** ... and which the creates in flight. */
  lemma CreatesTouched(s: State, step: Step)
    ensures step.SelectNode? || step.ReadPort? || step.CommitCreate? || step.AbortCreate?
            || Next(s, step).creating == s.creating
  {
    if step.CreateNode? || step.SetStatus? || step.CommitDelete? || step.DeleteNode? {
      NodeStepsTouch(s, step);
    } else if !(step.SelectNode? || step.ReadPort? || step.CommitCreate? || step.AbortCreate?) {
      AllocationStepsTouch(s, step);
    }
  }

  lemma BoundedStep(s: State, step: Step, k: int, r: Amounts)
    requires Inv(s) && Bounded(s.nodes, s.creating, k, r) && k >= 1 && ZERO.AtMost(r)
    requires step.SelectNode? ==> step.request.AtMost(r)
    requires |Next(s, step).creating| <= k
    ensures Bounded(Next(s, step).nodes, Next(s, step).creating, k, r)
  {
    NodesTouched(s, step);
    CreatesTouched(s, step);
    match step
    case CreateNode(c, m, d, o) => CreateNodeBounded(s, c, m, d, o, k, r);
    case SetStatus(n, st, b) => SetStatusBounded(s, n, st, b, k, r);
    case SelectNode(order, request) => SelectNodeBounded(s, order, request, k, r);
    case ReadPort(t) => ReadPortBounded(s, t, k, r);
    case CommitCreate(t) => CommitCreateBounded(s, t, k, r);
    case AbortCreate(t) => HeadroomByDrop(s.nodes, s.creating, t, k, r);
    case CommitDelete(t) => CommitDeleteBounded(s, t, k, r);
    case DeleteNode(n) => DeleteNodeBounded(s, n, k, r);
    case _ =>
  }

  /** At every moment at most `k` creates are in flight, and every request is at most `r`. */
  ghost predicate Paced(s: State, steps: seq<Step>, k: int, r: Amounts)
    decreases steps
  {
    |s.creating| <= k &&
    (steps != [] ==> (steps[0].SelectNode? ==> steps[0].request.AtMost(r))
                     && Paced(Next(s, steps[0]), steps[1..], k, r))
  }

  lemma {:induction false} BoundedRun(s: State, steps: seq<Step>, k: int, r: Amounts)
    requires Inv(s) && Bounded(s.nodes, s.creating, k, r) && k >= 1 && ZERO.AtMost(r)
    requires Paced(s, steps, k, r)
    ensures Bounded(Run(s, steps).nodes, Run(s, steps).creating, k, r)
    decreases steps
  {
    if steps != [] {
      assert Paced(Next(s, steps[0]), steps[1..], k, r);
      BoundedStep(s, steps[0], k, r);
      InvStep(s, steps[0]);
      BoundedRun(Next(s, steps[0]), steps[1..], k, r);
    }
  }

  /**
    With at most k creates between selection and commit, each asking at most r,
    no node's allocation ever exceeds its capacity by more than (k-1) requests.
   */
  lemma OvercommitBound(steps: seq<Step>, k: int, r: Amounts, node: int)
    requires k >= 1 && ZERO.AtMost(r) && Paced(EMPTY, steps, k, r)
    requires node in Run(EMPTY, steps).nodes
    ensures var n := Run(EMPTY, steps).nodes[node];
            n.used.Times(100).AtMost(Capacity(n).Plus(r.Times(k - 1).Times(100)))
  {
    EveryRun([]);
    BoundedRun(EMPTY, steps, k, r);
    var s := Run(EMPTY, steps);
    TotalNonNegative(PendingOn(s.creating, node));
  }

  /** Creates that do not overlap never exceed capacity. */
  lemma SequentialNeverOvercommits(steps: seq<Step>, r: Amounts, node: int)
    requires ZERO.AtMost(r) && Paced(EMPTY, steps, 1, r)
    requires node in Run(EMPTY, steps).nodes
    ensures var n := Run(EMPTY, steps).nodes[node]; n.used.Times(100).AtMost(Capacity(n))
  {
    OvercommitBound(steps, 1, r, node);
  }

  // ---------------------------------------------------------------------
  // Deletes
  // ---------------------------------------------------------------------

  /** One node's counters are less by these amounts, nothing else differs. */
  ghost predicate CountersLess(nodes: map<int, Node>, n: int, limits: Amounts, nodes': map<int, Node>) {
    && n in nodes && nodes'.Keys == nodes.Keys
    && (forall m :: m in nodes && m != n ==> nodes'[m] == nodes[m])
    && nodes'[n] == nodes[n].(used := nodes'[n].used)
    && nodes'[n].used.cpu == nodes[n].used.cpu - limits.cpu
    && nodes'[n].used.mem == nodes[n].used.mem - limits.mem
    && nodes'[n].used.disk == nodes[n].used.disk - limits.disk
  }

  /** The rows of one server have lost it, nothing else differs. */
  ghost predicate RowsOrphaned(allocations: map<int, Allocation>, x: int, allocations': map<int, Allocation>) {
    && allocations'.Keys == allocations.Keys
    && forall a :: a in allocations ==>
         allocations'[a] == if allocations[a].server == Some(x) then allocations[a].(server := None) else allocations[a]
  }

  /** `s'` is `s` after server `x` with row `row` was deleted. */
  ghost predicate Deleted(s: State, x: int, row: Server, s': State) {
    && x in s.servers && s'.servers == s.servers - {x}
    && CountersLess(s.nodes, row.node, row.limits, s'.nodes)
    && RowsOrphaned(s.allocations, x, s'.allocations)
  }

  lemma OrphanedOrphans(allocations: map<int, Allocation>, x: int)
    ensures RowsOrphaned(allocations, x, Orphaned(allocations, x))
  {}

  lemma MinusIsLess(nodes: map<int, Node>, n: int, limits: Amounts)
    requires n in nodes
    ensures CountersLess(nodes, n, limits, nodes[n := nodes[n].(used := nodes[n].used.Minus(limits))])
  {}

  /** What a delete's transaction does: all of it while server and node are there, nothing otherwise. */
  lemma DeleteCommits(s: State, t: int)
    requires t in s.deleting
    ensures var d := s.deleting[t];
            var s' := Next(s, CommitDelete(t));
            && s'.deleting == s.deleting - {t}
            && (if d.server in s.servers && d.row.node in s.nodes then Deleted(s, d.server, d.row, s')
                else s'.nodes == s.nodes && s'.servers == s.servers && s'.allocations == s.allocations)
  {
    var d := s.deleting[t];
    OrphanedOrphans(s.allocations, d.server);
    if d.row.node in s.nodes { MinusIsLess(s.nodes, d.row.node, d.row.limits); }
  }

  /** Two deletes of one live server: whichever commits first deletes it, with its own limits; the other does nothing. */
  lemma OneDeleteWins(s: State, x: int, firstCommits: bool)
    requires Inv(s) && x in s.servers
    ensures var a, b := s.nextId, s.nextId + 1;
            var begun := Next(Next(s, BeginDelete(x)), BeginDelete(x));
            var once := Next(begun, CommitDelete(if firstCommits then a else b));
            var twice := Next(once, CommitDelete(if firstCommits then b else a));
            && a in begun.deleting && b in begun.deleting
            && Deleted(s, x, s.servers[x], once)
            && twice.nodes == once.nodes && twice.servers == once.servers && twice.allocations == once.allocations
            && twice.deleting == s.deleting
  {
    var a, b := s.nextId, s.nextId + 1;
    var begun := Next(Next(s, BeginDelete(x)), BeginDelete(x));
    var first, second := if firstCommits then a else b, if firstCommits then b else a;
    DeleteCommits(begun, first);
    DeleteCommits(Next(begun, CommitDelete(first)), second);
    TicketsSpent(s.deleting, a, b, Deleting(x, s.servers[x]));
  }

  lemma TicketsSpent(deleting: map<int, Deleting>, a: int, b: int, d: Deleting)
    requires a !in deleting && b !in deleting && a != b
    ensures deleting[a := d][b := d] - {a} - {b} == deleting && deleting[a := d][b := d] - {b} - {a} == deleting
  {
    SameTable(deleting[a := d][b := d] - {a} - {b}, deleting);
    SameTable(deleting[a := d][b := d] - {b} - {a}, deleting);
  }
}
