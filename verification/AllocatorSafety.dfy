/**
  What every interleaving of the allocator keeps: the counters are the sums of
  the limits, ports are unique, a node never takes more than 101 rows, and
  overcommitment is bounded by the creates in flight.
 */
module AllocatorSafety {
  import opened Wrappers
  import opened Sets
  import opened Resources
  import opened Placement
  import opened Allocator

  // ---------------------------------------------------------------------
  // The invariant
  // ---------------------------------------------------------------------

  /** The limits of the servers hosted on `node`. */
  function LimitsOn(servers: map<int, Server>, node: int): map<int, Amounts> {
    map x | x in servers && servers[x].node == node :: servers[x].limits
  }

  /** Each node's counters are the sums of the limits of the servers on it. */
  ghost predicate Conserved(nodes: map<int, Node>, servers: map<int, Server>) {
    forall n :: n in nodes ==> nodes[n].used == Total(LimitsOn(servers, n))
  }

  /** Keys were handed out before `next`. */
  ghost predicate Issued<T>(table: map<int, T>, next: int) {
    forall x :: x in table ==> x < next
  }

  /** servers.nodeId is a foreign key; limits are not negative. */
  ghost predicate Hosted(servers: map<int, Server>, nodes: map<int, Node>) {
    forall x :: x in servers ==> servers[x].node in nodes && ZERO.AtMost(servers[x].limits)
  }

  /** network_allocations.nodeId is a foreign key and ports lie in the range. */
  ghost predicate Located(allocations: map<int, Allocation>, nodes: map<int, Node>) {
    forall a :: a in allocations ==> allocations[a].node in nodes && InRange(allocations[a].port)
  }

  /** No two rows of a node share a port. */
  ghost predicate PortsDistinct(allocations: map<int, Allocation>) {
    forall a, b :: a in allocations && b in allocations && a != b && allocations[a].node == allocations[b].node
                   ==> allocations[a].port != allocations[b].port
  }

  function Primaries(allocations: map<int, Allocation>, node: int): set<int> {
    set a | a in allocations && allocations[a].node == node && allocations[a].primary
  }

  function Extras(allocations: map<int, Allocation>, node: int): set<int> {
    set a | a in allocations && allocations[a].node == node && !allocations[a].primary
  }

  /** A node keeps one primary row for every create it ever committed. */
  ghost predicate PrimariesKept(admitted: map<int, nat>, nodes: map<int, Node>, allocations: map<int, Allocation>) {
    && admitted.Keys == nodes.Keys
    && (forall n :: n in nodes ==> admitted[n] == |Primaries(allocations, n)|)
  }

  ghost predicate CreatesSound(creating: map<int, Creating>, next: int) {
    forall t :: t in creating ==>
      && t < next && creating[t].node < next
      && ZERO.AtMost(creating[t].request)
      && (creating[t].Numbered? ==> InRange(creating[t].port))
  }

  /** A delete's snapshot is the row, as long as the row lives. */
  ghost predicate DeletesSound(deleting: map<int, Deleting>, servers: map<int, Server>, next: int) {
    forall t :: t in deleting ==>
      && t < next && deleting[t].server < next
      && (deleting[t].server in servers ==> servers[deleting[t].server] == deleting[t].row)
  }

  ghost predicate AddsSound(adding: map<int, Adding>, next: int) {
    forall t :: t in adding ==> t < next && adding[t].server < next && InRange(adding[t].port)
  }

  ghost predicate RemovesSound(removing: map<int, int>, allocations: map<int, Allocation>, next: int) {
    forall t :: t in removing ==>
      && t < next && removing[t] < next
      && (removing[t] in allocations ==> !allocations[removing[t]].primary)
  }

  /** The part of the invariant about rows. */
  ghost predicate RowsSound(nodes: map<int, Node>, servers: map<int, Server>, allocations: map<int, Allocation>,
                            next: int) {
    && Issued(nodes, next) && Issued(servers, next) && Issued(allocations, next)
    && Hosted(servers, nodes) && Located(allocations, nodes)
  }

  /** The part about requests in flight. */
  ghost predicate FlightSound(creating: map<int, Creating>, deleting: map<int, Deleting>, adding: map<int, Adding>,
                              removing: map<int, int>, servers: map<int, Server>,
                              allocations: map<int, Allocation>, next: int) {
    && CreatesSound(creating, next) && DeletesSound(deleting, servers, next)
    && AddsSound(adding, next) && RemovesSound(removing, allocations, next)
  }

  ghost predicate Inv(s: State) {
    && RowsSound(s.nodes, s.servers, s.allocations, s.nextId)
    && Conserved(s.nodes, s.servers)
    && PortsDistinct(s.allocations)
    && PrimariesKept(s.admitted, s.nodes, s.allocations)
    && FlightSound(s.creating, s.deleting, s.adding, s.removing, s.servers, s.allocations, s.nextId)
  }

  // ---------------------------------------------------------------------
  // Each step keeps it
  // ---------------------------------------------------------------------

  lemma NodeInserted(s: State, node: Node)
    requires RowsSound(s.nodes, s.servers, s.allocations, s.nextId)
    requires Conserved(s.nodes, s.servers) && node.used == ZERO
    requires PrimariesKept(s.admitted, s.nodes, s.allocations)
    ensures RowsSound(s.nodes[s.nextId := node], s.servers, s.allocations, s.nextId + 1)
    ensures Conserved(s.nodes[s.nextId := node], s.servers)
    ensures PrimariesKept(s.admitted[s.nextId := 0], s.nodes[s.nextId := node], s.allocations)
  {
    forall x | x in s.servers ensures s.servers[x].node != s.nextId {}
    forall a | a in s.allocations ensures s.allocations[a].node != s.nextId {}
    EmptyTable(LimitsOn(s.servers, s.nextId));
    assert Primaries(s.allocations, s.nextId) == {};
  }

  /** Identifiers only grow, and new rows do not disturb what is in flight. */
  lemma FlightLater(s: State, x: int, server: Server, a: int, row: Allocation, t: int, next: int)
    requires FlightSound(s.creating, s.deleting, s.adding, s.removing, s.servers, s.allocations, s.nextId)
    requires s.nextId <= x < next && s.nextId <= a < next
    ensures FlightSound(s.creating, s.deleting, s.adding, s.removing, s.servers, s.allocations, next)
    ensures FlightSound(s.creating, s.deleting, s.adding - {t}, s.removing, s.servers, s.allocations[a := row], next)
    ensures FlightSound(s.creating - {t}, s.deleting, s.adding, s.removing,
                        s.servers[x := server], s.allocations[a := row], next)
  {}

  lemma CreateNodeKeeps(s: State, cpuCores: nat, memoryMb: nat, diskMb: nat, overallocate: Amounts)
    requires Inv(s)
    ensures Inv(AfterCreateNode(s, cpuCores, memoryMb, diskMb, overallocate))
  {
    var s' := AfterCreateNode(s, cpuCores, memoryMb, diskMb, overallocate);
    if s' != s {
      NodeInserted(s, s'.nodes[s.nextId]);
      FlightLater(s, s.nextId, Server(0, ZERO), s.nextId, Allocation(0, 0, None, true), 0, s'.nextId);
    }
  }

  lemma SetStatusKeeps(s: State, node: int, status: NodeStatus, maintenance: bool)
    requires Inv(s)
    ensures Inv(AfterSetStatus(s, node, status, maintenance))
  {}

  /** The chosen node is one of the table's rows. */
  lemma ChosenExists(s: State, order: seq<int>, request: Amounts)
    requires IsListing(order, s.nodes)
    ensures var r := FindEligibleNode(Listing(order, s.nodes), request);
            r.Some? ==> r.value.id in s.nodes && r.value.node == s.nodes[r.value.id]
                        && Candidate(r.value.node, request)
  {
    var i := PlacementIsBestFit(Listing(order, s.nodes), request);
  }

  lemma SelectNodeKeeps(s: State, order: seq<int>, request: Amounts)
    requires Inv(s)
    ensures Inv(AfterSelectNode(s, order, request))
  {
    if IsListing(order, s.nodes) {
      ChosenExists(s, order, request);
    }
  }

  lemma CreatesByRead(creating: map<int, Creating>, t: int, port: int, next: int)
    requires CreatesSound(creating, next) && t in creating && InRange(port)
    ensures CreatesSound(creating - {t}, next)
    ensures CreatesSound(creating[t := Numbered(creating[t].node, creating[t].request, port)], next)
  {}

  lemma ReadPortKeeps(s: State, t: int)
    requires Inv(s)
    ensures Inv(AfterReadPort(s, t))
  {
    if t in s.creating && s.creating[t].Selected? {
      var r := LeastFreePort(PortsInUse(s.allocations, s.creating[t].node));
      CreatesByRead(s.creating, t, if r.Some? then r.value else PORT_RANGE_START, s.nextId);
    }
  }

  lemma AbortCreateKeeps(s: State, t: int)
    requires Inv(s)
    ensures Inv(AfterAbortCreate(s, t))
  {}

  lemma LimitsAdd(servers: map<int, Server>, x: int, row: Server, n: int)
    requires x !in servers
    ensures LimitsOn(servers[x := row], n)
            == if row.node == n then LimitsOn(servers, n)[x := row.limits] else LimitsOn(servers, n)
  {}

  lemma LimitsRemove(servers: map<int, Server>, x: int, n: int)
    requires x in servers
    ensures LimitsOn(servers - {x}, n)
            == if servers[x].node == n then LimitsOn(servers, n) - {x} else LimitsOn(servers, n)
  {}

  /** Adding to a node's counters what a new row adds to its sum keeps them equal. */
  lemma ConservedByInsert(nodes: map<int, Node>, servers: map<int, Server>, x: int, row: Server)
    requires Conserved(nodes, servers) && x !in servers && row.node in nodes
    ensures Conserved(nodes[row.node := nodes[row.node].(used := nodes[row.node].used.Plus(row.limits))],
                      servers[x := row])
  {
    forall n | n in nodes
      ensures Total(LimitsOn(servers[x := row], n))
              == if n == row.node then nodes[n].used.Plus(row.limits) else nodes[n].used
    {
      LimitsAdd(servers, x, row, n);
      if n == row.node {
        TotalAdd(LimitsOn(servers, n), x, row.limits);
      }
    }
  }

  /** Subtracting the limits of the row that goes keeps them equal. */
  lemma ConservedByRemoval(nodes: map<int, Node>, servers: map<int, Server>, x: int)
    requires Conserved(nodes, servers) && x in servers && servers[x].node in nodes
    ensures var row := servers[x];
            Conserved(nodes[row.node := nodes[row.node].(used := nodes[row.node].used.Minus(row.limits))],
                      servers - {x})
  {
    forall n | n in nodes
      ensures Total(LimitsOn(servers - {x}, n))
              == if n == servers[x].node then nodes[n].used.Minus(servers[x].limits) else nodes[n].used
    {
      LimitsRemove(servers, x, n);
      if n == servers[x].node {
        TotalRemove(LimitsOn(servers, n), x);
      }
    }
  }

  lemma PrimariesByInsert(admitted: map<int, nat>, nodes: map<int, Node>, allocations: map<int, Allocation>,
                          a: int, row: Allocation)
    requires PrimariesKept(admitted, nodes, allocations) && a !in allocations && row.node in nodes
    ensures row.primary ==>
              PrimariesKept(admitted[row.node := admitted[row.node] + 1], nodes, allocations[a := row])
    ensures !row.primary ==> PrimariesKept(admitted, nodes, allocations[a := row])
  {
    forall n | n in nodes
      ensures |Primaries(allocations[a := row], n)|
              == |Primaries(allocations, n)| + if n == row.node && row.primary then 1 else 0
    {
      if n == row.node && row.primary {
        assert Primaries(allocations[a := row], n) == Primaries(allocations, n) + {a};
      } else {
        assert Primaries(allocations[a := row], n) == Primaries(allocations, n);
      }
    }
  }

  lemma PortsByInsert(allocations: map<int, Allocation>, a: int, row: Allocation)
    requires PortsDistinct(allocations) && a !in allocations && !PortTaken(allocations, row.node, row.port)
    ensures PortsDistinct(allocations[a := row])
  {}

  /** PrimariesKept only depends on which nodes exist. */
  lemma PrimariesSameNodes(admitted: map<int, nat>, nodes: map<int, Node>, nodes': map<int, Node>,
                           allocations: map<int, Allocation>)
    requires PrimariesKept(admitted, nodes, allocations) && nodes'.Keys == nodes.Keys
    ensures PrimariesKept(admitted, nodes', allocations)
  {}

  lemma RowsInserted(nodes: map<int, Node>, servers: map<int, Server>, allocations: map<int, Allocation>, next: int,
                     server: Server, allocation: Allocation, node: Node)
    requires RowsSound(nodes, servers, allocations, next)
    requires server.node in nodes && allocation.node in nodes
    requires ZERO.AtMost(server.limits) && InRange(allocation.port)
    ensures RowsSound(nodes[server.node := node], servers[next := server], allocations[next + 1 := allocation], next + 2)
    ensures RowsSound(nodes, servers, allocations[next := allocation], next + 1)
  {}

  /** The create's transaction went through. */
  ghost predicate Committed(s: State, t: int) {
    t in s.creating && s.creating[t].Numbered? && !CreateRollsBack(s, s.creating[t])
  }

  lemma CommitCreateRows(s: State, t: int)
    requires Inv(s) && Committed(s, t)
    ensures var s' := AfterCommitCreate(s, t);
            && RowsSound(s'.nodes, s'.servers, s'.allocations, s'.nextId)
            && FlightSound(s'.creating, s'.deleting, s'.adding, s'.removing, s'.servers, s'.allocations, s'.nextId)
  {
    var c := s.creating[t];
    var s' := AfterCommitCreate(s, t);
    var server := Server(c.node, c.request);
    var row := Allocation(c.node, c.port, Some(s.nextId), true);
    RowsInserted(s.nodes, s.servers, s.allocations, s.nextId, server, row, s'.nodes[c.node]);
    FlightLater(s, s.nextId, server, s.nextId + 1, row, t, s'.nextId);
  }

  lemma CommitCreateSums(s: State, t: int)
    requires Inv(s) && Committed(s, t)
    ensures var s' := AfterCommitCreate(s, t);
            && Conserved(s'.nodes, s'.servers)
            && PortsDistinct(s'.allocations)
            && PrimariesKept(s'.admitted, s'.nodes, s'.allocations)
  {
    var c := s.creating[t];
    var s' := AfterCommitCreate(s, t);
    var row := Allocation(c.node, c.port, Some(s.nextId), true);
    ConservedByInsert(s.nodes, s.servers, s.nextId, Server(c.node, c.request));
    PrimariesByInsert(s.admitted, s.nodes, s.allocations, s.nextId + 1, row);
    PrimariesSameNodes(s'.admitted, s.nodes, s'.nodes, s'.allocations);
    PortsByInsert(s.allocations, s.nextId + 1, row);
  }

  lemma CommitCreateKeeps(s: State, t: int)
    requires Inv(s)
    ensures Inv(AfterCommitCreate(s, t))
  {
    if Committed(s, t) {
      CommitCreateRows(s, t);
      CommitCreateSums(s, t);
    }
  }

  lemma BeginDeleteKeeps(s: State, server: int)
    requires Inv(s)
    ensures Inv(AfterBeginDelete(s, server))
  {}

  lemma OrphanedKeeps(allocations: map<int, Allocation>, server: int, nodes: map<int, Node>,
                      admitted: map<int, nat>, removing: map<int, int>, next: int)
    requires Issued(allocations, next) && Located(allocations, nodes) && PortsDistinct(allocations)
    requires PrimariesKept(admitted, nodes, allocations) && RemovesSound(removing, allocations, next)
    ensures var r := Orphaned(allocations, server);
            && Issued(r, next) && Located(r, nodes) && PortsDistinct(r)
            && PrimariesKept(admitted, nodes, r) && RemovesSound(removing, r, next)
  {
    forall n ensures Primaries(Orphaned(allocations, server), n) == Primaries(allocations, n) {}
  }

  /** The decrement is the deleted row's own limits, and of two racing deletes one rolls back. */
  lemma CommitDeleteKeeps(s: State, t: int)
    requires Inv(s)
    ensures Inv(AfterCommitDelete(s, t))
  {
    if t in s.deleting && s.deleting[t].row.node in s.nodes && s.deleting[t].server in s.servers {
      var d := s.deleting[t];
      var s' := AfterCommitDelete(s, t);
      ConservedByRemoval(s.nodes, s.servers, d.server);
      OrphanedKeeps(s.allocations, d.server, s.nodes, s.admitted, s.removing, s.nextId);
      PrimariesSameNodes(s.admitted, s.nodes, s'.nodes, s'.allocations);
    }
  }

  lemma BeginAddKeeps(s: State, server: int)
    requires Inv(s)
    ensures Inv(AfterBeginAdd(s, server))
  {}

  lemma AddedKeeps(s: State, t: int)
    requires Inv(s) && t in s.adding
    requires var a := s.adding[t];
             a.server in s.servers && a.node in s.nodes && !PortTaken(s.allocations, a.node, a.port)
    ensures var row := Allocation(s.adding[t].node, s.adding[t].port, Some(s.adding[t].server), false);
            Inv(s.(allocations := s.allocations[s.nextId := row], adding := s.adding - {t}, nextId := s.nextId + 1))
  {
    var a := s.adding[t];
    var row := Allocation(a.node, a.port, Some(a.server), false);
    PrimariesByInsert(s.admitted, s.nodes, s.allocations, s.nextId, row);
    PortsByInsert(s.allocations, s.nextId, row);
    RowsInserted(s.nodes, s.servers, s.allocations, s.nextId, Server(a.node, ZERO), row, s.nodes[a.node]);
    FlightLater(s, s.nextId, Server(a.node, ZERO), s.nextId, row, t, s.nextId + 1);
  }

  lemma CommitAddKeeps(s: State, t: int)
    requires Inv(s)
    ensures Inv(AfterCommitAdd(s, t))
  {
    if t in s.adding {
      var a := s.adding[t];
      if a.server in s.servers && a.node in s.nodes && !PortTaken(s.allocations, a.node, a.port) {
        AddedKeeps(s, t);
      }
    }
  }

  lemma BeginRemoveKeeps(s: State, server: int, allocation: int)
    requires Inv(s)
    ensures Inv(AfterBeginRemove(s, server, allocation))
  {}

  lemma CommitRemoveKeeps(s: State, t: int)
    requires Inv(s)
    ensures Inv(AfterCommitRemove(s, t))
  {
    if t in s.removing {
      var s' := AfterCommitRemove(s, t);
      forall n ensures Primaries(s'.allocations, n) == Primaries(s.allocations, n) {}
    }
  }

  /** Dropping rows keeps everything that is said of each row. */
  lemma RowsCascade(s: State, node: int)
    requires RowsSound(s.nodes, s.servers, s.allocations, s.nextId)
    requires FlightSound(s.creating, s.deleting, s.adding, s.removing, s.servers, s.allocations, s.nextId)
    requires PortsDistinct(s.allocations)
    requires forall x :: x in s.servers ==> s.servers[x].node != node
    ensures var kept := OnOtherNodes(s.allocations, node);
            && RowsSound(s.nodes - {node}, s.servers, kept, s.nextId)
            && FlightSound(s.creating, s.deleting, s.adding, s.removing, s.servers, kept, s.nextId)
            && PortsDistinct(kept)
  {}

  lemma DeleteNodeKeeps(s: State, node: int)
    requires Inv(s)
    ensures Inv(AfterDeleteNode(s, node))
  {
    var s' := AfterDeleteNode(s, node);
    if s' != s {
      RowsCascade(s, node);
      forall n | n in s'.nodes ensures Primaries(s'.allocations, n) == Primaries(s.allocations, n) {}
    }
  }

  lemma InvCreateStep(s: State, step: Step)
    requires Inv(s) && (step.SelectNode? || step.ReadPort? || step.CommitCreate? || step.AbortCreate?)
    ensures Inv(Next(s, step))
  {
    match step
    case SelectNode(order, request) => SelectNodeKeeps(s, order, request);
    case ReadPort(t) => ReadPortKeeps(s, t);
    case CommitCreate(t) => CommitCreateKeeps(s, t);
    case AbortCreate(t) => AbortCreateKeeps(s, t);
  }

  lemma InvStep(s: State, step: Step)
    requires Inv(s)
    ensures Inv(Next(s, step))
  {
    match step
    case SelectNode(_, _) => InvCreateStep(s, step);
    case ReadPort(_) => InvCreateStep(s, step);
    case CommitCreate(_) => InvCreateStep(s, step);
    case AbortCreate(_) => InvCreateStep(s, step);
    case CreateNode(c, m, d, o) => CreateNodeKeeps(s, c, m, d, o);
    case SetStatus(n, st, b) => SetStatusKeeps(s, n, st, b);
    case BeginDelete(x) => BeginDeleteKeeps(s, x);
    case CommitDelete(t) => CommitDeleteKeeps(s, t);
    case BeginAdd(x) => BeginAddKeeps(s, x);
    case CommitAdd(t) => CommitAddKeeps(s, t);
    case BeginRemove(x, a) => BeginRemoveKeeps(s, x, a);
    case CommitRemove(t) => CommitRemoveKeeps(s, t);
    case DeleteNode(n) => DeleteNodeKeeps(s, n);
  }

  lemma {:induction false} InvRun(s: State, steps: seq<Step>)
    requires Inv(s)
    ensures Inv(Run(s, steps))
    decreases steps
  {
    if steps != [] {
      InvStep(s, steps[0]);
      InvRun(Next(s, steps[0]), steps[1..]);
    }
  }
}
