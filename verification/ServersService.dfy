/**
  ServersService and the node side it calls, in the form of the source: an
  object whose methods update the tables. Each method is one of the pieces of a
  request that runs between two awaits, and is proved equal to the
  corresponding step of the allocator.
 */
module ServersService {
  import opened Wrappers
  import opened Resources
  import opened Placement
  import opened Allocator
  import opened AllocatorSafety

  /** Some row of the node has the port. */
  ghost predicate PortHeld(allocations: map<int, Allocation>, node: int, port: int) {
    exists a :: a in allocations && allocations[a].node == node && allocations[a].port == port
  }

  lemma PortsInUseAreHeld(allocations: map<int, Allocation>, node: int)
    ensures forall p :: 25565 <= p <= 25665 ==> (p in PortsInUse(allocations, node) <==> PortHeld(allocations, node, p))
    ensures forall p :: InRange(p) <==> 25565 <= p <= 25665
  {
    forall p | 25565 <= p <= 25665 ensures p in PortsInUse(allocations, node) <==> PortHeld(allocations, node, p) {
      if a :| a in allocations && allocations[a].node == node && allocations[a].port == p {
        assert allocations[a].port in PortsInUse(allocations, node);
      }
    }
  }

  /** The choice among the rows of the table, whatever the order they are listed in. */
  lemma ChosenFromTable(nodes: map<int, Node>, order: seq<int>, request: Amounts)
    requires IsListing(order, nodes)
    ensures var choice := FindEligibleNode(Listing(order, nodes), request);
            && (choice.None? <==> forall n :: n in nodes ==> !Eligible(nodes[n], request.cpu, request.mem, request.disk))
            && (choice.Some? ==>
                  && choice.value.id in nodes && Eligible(nodes[choice.value.id], request.cpu, request.mem, request.disk)
                  && forall n :: n in nodes && Eligible(nodes[n], request.cpu, request.mem, request.disk)
                                 ==> NoFuller(nodes[choice.value.id], nodes[n]))
  {
    var listing := Listing(order, nodes);
    var i := PlacementIsBestFit(listing, request);
    forall n | n in nodes && Eligible(nodes[n], request.cpu, request.mem, request.disk)
      ensures !NothingFits(listing, request)
      ensures BestFit(listing, request, i) ==> NoFuller(listing[i].node, nodes[n])
    {
      ListedSomewhere(nodes, order, n, request);
    }
    if !NothingFits(listing, request) {
      assert listing[i] == Listed(order[i], nodes[order[i]]);
    }
  }

  /** A row of the table is listed, so that a best fit is no fuller than it, if it is eligible. */
  lemma ListedSomewhere(nodes: map<int, Node>, order: seq<int>, n: int, request: Amounts)
    requires IsListing(order, nodes) && n in nodes && Eligible(nodes[n], request.cpu, request.mem, request.disk)
    ensures !NothingFits(Listing(order, nodes), request)
    ensures forall i :: 0 <= i < |order| && BestFit(Listing(order, nodes), request, i) ==>
                          NoFuller(Listing(order, nodes)[i].node, nodes[n])
  {
    var j :| 0 <= j < |order| && order[j] == n;
    assert Listing(order, nodes)[j].node == nodes[n];
  }

  datatype Refusal = Invalid | NoNodeFits | NoPortLeft | RolledBack | NotFound | PrimaryAllocation

  lemma AddLeavesPrimaries(s: State, t: int)
    requires AllocatorSafety.Inv(s) && t in s.adding
    ensures s.nextId !in s.allocations && PortsDistinct(AfterCommitAdd(s, t).allocations)
    ensures forall n :: Primaries(AfterCommitAdd(s, t).allocations, n) == Primaries(s.allocations, n)
  {
    CommitAddKeeps(s, t);
    forall n ensures Primaries(AfterCommitAdd(s, t).allocations, n) == Primaries(s.allocations, n) {}
  }

  lemma RemoveLeavesPrimaries(s: State, t: int)
    requires AllocatorSafety.Inv(s) && t in s.removing
    ensures forall n :: Primaries(s.allocations - {s.removing[t]}, n) == Primaries(s.allocations, n)
  {
    forall n ensures Primaries(s.allocations - {s.removing[t]}, n) == Primaries(s.allocations, n) {}
  }

  class Panel {
    var nodes: map<int, Node>
    var servers: map<int, Server>
    var allocations: map<int, Allocation>
    var creating: map<int, Creating>
    var deleting: map<int, Deleting>
    var adding: map<int, Adding>
    var removing: map<int, int>
    var nextId: int
    ghost var admitted: map<int, nat>

    ghost function Db(): State
      reads this
    {
      State(nodes, servers, allocations, creating, deleting, adding, removing, nextId, admitted)
    }

    constructor ()
      ensures Db() == EMPTY
    {
      nodes, servers, allocations := map[], map[], map[];
      creating, deleting, adding, removing := map[], map[], map[], map[];
      nextId, admitted := 0, map[];
    }

    method FreshId() returns (id: int)
      modifies this`nextId
      ensures id == old(nextId) && nextId == id + 1
    {
      id := nextId;
      nextId := nextId + 1;
    }

    /** NodesService.create: a node starts offline with nothing allocated. */
    method CreateNode(cpuCores: nat, memoryMb: nat, diskMb: nat, overallocate: Amounts) returns (r: Result<int, Refusal>)
      modifies this`nodes, this`admitted, this`nextId
      ensures Db() == AfterCreateNode(old(Db()), cpuCores, memoryMb, diskMb, overallocate)
      ensures r.Ok? <==> cpuCores >= 1 && memoryMb >= 256 && diskMb >= 1024
                         && overallocate.cpu >= 0 && overallocate.mem >= 0 && overallocate.disk >= 0
      ensures r.Ok? ==>
                && r.value == old(nextId) && memoryMb > 0
                && nodes == old(nodes)[r.value :=
                     Node(Offline, false, cpuCores, memoryMb, diskMb, overallocate, Amounts(0, 0, 0))]
      ensures r.Err? ==> Db() == old(Db())
    {
      if cpuCores < 1 || memoryMb < 256 || diskMb < 1024
         || overallocate.cpu < 0 || overallocate.mem < 0 || overallocate.disk < 0 {
        return Err(Invalid);
      }
      var id := FreshId();
      nodes := nodes[id := Node(Offline, false, cpuCores, memoryMb, diskMb, overallocate, Amounts(0, 0, 0))];
      admitted := admitted[id := 0];
      r := Ok(id);
    }

    /** NodesService.setMaintenance */
    method SetMaintenance(node: int, enabled: bool) returns (found: bool)
      modifies this`nodes
      ensures Db() == AfterSetStatus(old(Db()), node, if enabled then InMaintenance else Online, enabled)
      ensures found <==> node in old(nodes)
      ensures found ==>
                nodes == old(nodes)[node := old(nodes)[node].(status := if enabled then InMaintenance else Online,
                                                              maintenance := enabled)]
      ensures !found ==> nodes == old(nodes)
    {
      found := node in nodes;
      if found {
        nodes := nodes[node := nodes[node].(status := if enabled then InMaintenance else Online,
                                            maintenance := enabled)];
      }
    }

    /** NodesService.healthCheck: the status follows the answer, even in maintenance; the flag stays. */
    method HealthCheck(node: int, answered: bool) returns (found: bool)
      modifies this`nodes
      ensures node in old(nodes) ==>
                var status := if answered then Online else Offline;
                Db() == AfterSetStatus(old(Db()), node, status, old(nodes)[node].maintenance)
      ensures found <==> node in old(nodes)
      ensures found ==>
                nodes == old(nodes)[node := old(nodes)[node].(status := if answered then Online else Offline)]
      ensures !found ==> nodes == old(nodes)
    {
      found := node in nodes;
      if found {
        nodes := nodes[node := nodes[node].(status := if answered then Online else Offline)];
      }
    }

    /**
      findEligibleNode, on the rows in the order the database lists them: an eligible
      node none of the eligible is emptier than, or an error when there is none.
     */
    method SelectNode(order: seq<int>, request: Amounts) returns (r: Result<int, Refusal>)
      requires ValidRequest(request) && IsListing(order, nodes)
      modifies this`creating, this`nextId
      ensures Db() == AfterSelectNode(old(Db()), order, request)
      ensures r.Ok? ==> r.value == old(nextId) && r.value in creating && creating[r.value].Selected?
      ensures r.Ok? ==>
                var c := creating[r.value];
                && creating == old(creating)[r.value := c] && c.request == request && c.node in nodes
                && nodes[c.node].status == Online && nodes[c.node].maintenance == false
                && Eligible(nodes[c.node], request.cpu, request.mem, request.disk)
                && forall n :: n in nodes && Eligible(nodes[n], request.cpu, request.mem, request.disk)
                               ==> NoFuller(nodes[c.node], nodes[n])
      ensures r.Err? <==> forall n :: n in nodes ==> !Eligible(nodes[n], request.cpu, request.mem, request.disk)
      ensures r.Err? ==> r.error == NoNodeFits && Db() == old(Db())
    {
      var chosen := FindEligibleNode(Listing(order, nodes), request);
      ChosenFromTable(nodes, order, request);
      if chosen.None? { return Err(NoNodeFits); }
      var ticket := FreshId();
      creating := creating[ticket := Selected(chosen.value.id, request)];
      r := Ok(ticket);
    }

    /** The findMany of allocatePort and the scan that follows it. */
    method ReadPort(ticket: int) returns (r: Result<int, Refusal>)
      requires ticket in creating && creating[ticket].Selected?
      modifies this`creating
      ensures Db() == AfterReadPort(old(Db()), ticket)
      ensures r.Ok? ==>
                var c := old(creating)[ticket];
                && creating == old(creating)[ticket := Numbered(c.node, c.request, r.value)]
                && 25565 <= r.value <= 25665 && !PortHeld(allocations, c.node, r.value)
                && forall p :: 25565 <= p < r.value ==> PortHeld(allocations, c.node, p)
      ensures r.Err? <==> forall p :: 25565 <= p <= 25665 ==> PortHeld(allocations, old(creating)[ticket].node, p)
      ensures r.Err? ==> r.error == NoPortLeft && creating == old(creating) - {ticket}
    {
      PortsInUseAreHeld(allocations, creating[ticket].node);
      var c := creating[ticket];
      var port := AllocatePort(PortsInUse(allocations, c.node));
      if port.None? {
        creating := creating - {ticket};
        return Err(NoPortLeft);
      }
      creating := creating[ticket := Numbered(c.node, c.request, port.value)];
      r := Ok(port.value);
    }

    /** The writes of the create's transaction, in the source's order; any failure restores every table. */
    method CommitCreate(ticket: int) returns (r: Result<int, Refusal>)
      requires ticket in creating && creating[ticket].Numbered?
      modifies this
      ensures Db() == AfterCommitCreate(old(Db()), ticket)
      ensures r.Ok? <==> var c := old(creating)[ticket];
                         c.node in old(nodes) && !PortHeld(old(allocations), c.node, c.port)
      ensures r.Ok? ==>
                var c := old(creating)[ticket];
                var used := old(nodes)[c.node].used;
                && r.value == old(nextId)
                && servers == old(servers)[r.value := Server(c.node, c.request)]
                && nodes == old(nodes)[c.node := old(nodes)[c.node].(used :=
                     Amounts(used.cpu + c.request.cpu, used.mem + c.request.mem, used.disk + c.request.disk))]
                && allocations == old(allocations)[r.value + 1 := Allocation(c.node, c.port, Some(r.value), true)]
      ensures creating == old(creating) - {ticket}
      ensures r.Err? ==> r.error == RolledBack && nodes == old(nodes) && servers == old(servers)
                         && allocations == old(allocations)
    {
      var c := creating[ticket];
      creating := creating - {ticket};
      var savedServers, savedNodes, savedId := servers, nodes, nextId;
      var id := FreshId();
      servers := servers[id := Server(c.node, c.request)];
      if c.node !in nodes {
        servers, nextId := savedServers, savedId;
        return Err(RolledBack);
      }
      nodes := nodes[c.node := nodes[c.node].(used := nodes[c.node].used.Plus(c.request))];
      if PortTaken(allocations, c.node, c.port) {
        servers, nodes, nextId := savedServers, savedNodes, savedId;
        return Err(RolledBack);
      }
      var allocation := FreshId();
      allocations := allocations[allocation := Allocation(c.node, c.port, Some(id), true)];
      admitted := admitted[c.node := Tally(admitted, c.node) + 1];
      r := Ok(id);
    }

    /** create, when nothing else runs in between. */
    method Create(order: seq<int>, request: Amounts) returns (r: Result<int, Refusal>)
      requires ValidRequest(request) && IsListing(order, nodes)
      requires forall t :: t in creating ==> t < nextId
      modifies this
      ensures var t := old(nextId);
              Db() == Run(old(Db()), [Step.SelectNode(order, request), Step.ReadPort(t), Step.CommitCreate(t)])
      ensures r.Ok? ==>
                && r.value in servers && servers[r.value].limits == request && servers[r.value].node in old(nodes)
                && Eligible(old(nodes)[servers[r.value].node], request.cpu, request.mem, request.disk)
      ensures r.Err? ==> r.error in {NoNodeFits, NoPortLeft, RolledBack}
                         && nodes == old(nodes) && servers == old(servers) && allocations == old(allocations)
    {
      ThreeSteps(Db(), Step.SelectNode(order, request), Step.ReadPort(nextId), Step.CommitCreate(nextId));
      var ticket := SelectNode(order, request);
      if ticket.Err? { return Err(ticket.error); }
      var port := ReadPort(ticket.value);
      if port.Err? { return Err(port.error); }
      r := CommitCreate(ticket.value);
    }

    /** A create that fails between two awaits. */
    method AbortCreate(ticket: int)
      modifies this`creating
      ensures Db() == AfterAbortCreate(old(Db()), ticket)
      ensures ticket !in creating && forall t :: t in old(creating) && t != ticket ==>
                t in creating && creating[t] == old(creating)[t]
    {
      creating := creating - {ticket};
    }

    /** delete up to the call of the node daemon. */
    method BeginDelete(server: int) returns (r: Result<int, Refusal>)
      modifies this`deleting, this`nextId
      ensures Db() == AfterBeginDelete(old(Db()), server)
      ensures r.Ok? <==> server in servers
      ensures r.Ok? ==> r.value == old(nextId) && deleting == old(deleting)[r.value := Deleting(server, servers[server])]
      ensures r.Err? ==> r.error == NotFound && deleting == old(deleting)
    {
      if server !in servers { return Err(NotFound); }
      var ticket := FreshId();
      deleting := deleting[ticket := Deleting(server, servers[server])];
      r := Ok(ticket);
    }

    /** The transaction that ends a delete: decrement first, then the row; a missing row undoes both. */
    method CommitDelete(ticket: int) returns (r: Result<int, Refusal>)
      requires ticket in deleting
      modifies this`deleting, this`nodes, this`servers, this`allocations
      ensures Db() == AfterCommitDelete(old(Db()), ticket)
      ensures deleting == old(deleting) - {ticket}
      ensures r.Ok? <==> var d := old(deleting)[ticket]; d.server in old(servers) && d.row.node in old(nodes)
      ensures r.Ok? ==>
                var d := old(deleting)[ticket];
                var used := old(nodes)[d.row.node].used;
                && r.value == d.server && servers == old(servers) - {d.server}
                && nodes == old(nodes)[d.row.node := old(nodes)[d.row.node].(used :=
                     Amounts(used.cpu - d.row.limits.cpu, used.mem - d.row.limits.mem, used.disk - d.row.limits.disk))]
      ensures r.Ok? ==>
                && allocations.Keys == old(allocations).Keys
                && forall a :: a in allocations ==>
                     allocations[a] == if old(allocations)[a].server == Some(r.value)
                                       then old(allocations)[a].(server := None) else old(allocations)[a]
      ensures r.Err? ==> r.error == RolledBack && nodes == old(nodes) && servers == old(servers)
                         && allocations == old(allocations)
    {
      var d := deleting[ticket];
      deleting := deleting - {ticket};
      if d.row.node !in nodes { return Err(RolledBack); }
      var savedNodes := nodes;
      var node := nodes[d.row.node];
      nodes := nodes[d.row.node := node.(used := node.used.Minus(d.row.limits))];
      if d.server !in servers {
        nodes := savedNodes;
        return Err(RolledBack);
      }
      servers := servers - {d.server};
      allocations := Orphaned(allocations, d.server);
      r := Ok(d.server);
    }

    /** addAllocation up to the port it read. */
    method BeginAdd(server: int) returns (r: Result<int, Refusal>)
      modifies this`adding, this`nextId
      ensures Db() == AfterBeginAdd(old(Db()), server)
      ensures r == Err(NotFound) <==> server !in servers
      ensures r == Err(NoPortLeft) <==>
                server in servers && forall p :: 25565 <= p <= 25665 ==> PortHeld(allocations, servers[server].node, p)
      ensures r.Ok? ==>
                && r.value == old(nextId) && r.value in adding && adding == old(adding)[r.value := adding[r.value]]
                && var a := adding[r.value];
                   && a.server == server && a.node == servers[server].node
                   && 25565 <= a.port <= 25665 && !PortHeld(allocations, a.node, a.port)
                   && forall p :: 25565 <= p < a.port ==> PortHeld(allocations, a.node, p)
      ensures r.Err? ==> Db() == old(Db())
    {
      if server !in servers { return Err(NotFound); }
      var node := servers[server].node;
      PortsInUseAreHeld(allocations, node);
      var port := AllocatePort(PortsInUse(allocations, node));
      if port.None? { return Err(NoPortLeft); }
      var ticket := FreshId();
      adding := adding[ticket := Adding(server, node, port.value)];
      r := Ok(ticket);
    }

    /** The insert: refused iff the server or the node is gone, or the port was taken since it was read. */
    method CommitAdd(ticket: int) returns (r: Result<int, Refusal>)
      requires ticket in adding
      modifies this`adding, this`allocations, this`nextId
      ensures Db() == AfterCommitAdd(old(Db()), ticket) && adding == old(adding) - {ticket}
      ensures r.Err? <==> var a := old(adding)[ticket];
                          a.server !in servers || a.node !in nodes || PortHeld(old(allocations), a.node, a.port)
      ensures r.Err? ==> r.error == RolledBack && allocations == old(allocations)
      ensures r.Ok? ==>
                var a := old(adding)[ticket];
                && r.value == old(nextId)
                && allocations == old(allocations)[r.value := Allocation(a.node, a.port, Some(a.server), false)]
      ensures AllocatorSafety.Inv(old(Db())) && r.Ok? ==>
                r.value !in old(allocations) && PortsDistinct(allocations)
                && forall n :: Primaries(allocations, n) == Primaries(old(allocations), n)
    {
      var a := adding[ticket];
      if AllocatorSafety.Inv(Db()) { AddLeavesPrimaries(Db(), ticket); }
      adding := adding - {ticket};
      if a.server !in servers || a.node !in nodes || PortTaken(allocations, a.node, a.port) {
        return Err(RolledBack);
      }
      var id := FreshId();
      allocations := allocations[id := Allocation(a.node, a.port, Some(a.server), false)];
      r := Ok(id);
    }

    /** removeAllocation up to its delete: the row must belong to the server and not be its primary one. */
    method BeginRemove(server: int, allocation: int) returns (r: Result<int, Refusal>)
      modifies this`removing, this`nextId
      ensures Db() == AfterBeginRemove(old(Db()), server, allocation)
      ensures r == Err(NotFound) <==>
                server !in servers || allocation !in allocations || allocations[allocation].server != Some(server)
      ensures r == Err(PrimaryAllocation) <==>
                server in servers && allocation in allocations && allocations[allocation].server == Some(server)
                && allocations[allocation].primary
      ensures r.Ok? ==> r.value == old(nextId) && removing == old(removing)[r.value := allocation]
      ensures r.Err? ==> r.error in {NotFound, PrimaryAllocation} && Db() == old(Db())
    {
      if server !in servers || allocation !in allocations || allocations[allocation].server != Some(server) {
        return Err(NotFound);
      }
      if allocations[allocation].primary { return Err(PrimaryAllocation); }
      var ticket := FreshId();
      removing := removing[ticket := allocation];
      r := Ok(ticket);
    }

    /** The delete; it throws when the row is gone already. No primary row ever goes this way. */
    method CommitRemove(ticket: int) returns (removed: bool)
      requires ticket in removing
      modifies this`removing, this`allocations
      ensures Db() == AfterCommitRemove(old(Db()), ticket) && removing == old(removing) - {ticket}
      ensures removed <==> old(removing)[ticket] in old(allocations)
      ensures old(removing)[ticket] !in allocations
      ensures forall a :: a != old(removing)[ticket] ==>
                (a in allocations <==> a in old(allocations))
                && (a in allocations ==> allocations[a] == old(allocations)[a])
      ensures AllocatorSafety.Inv(old(Db())) ==>
                forall n :: Primaries(allocations, n) == Primaries(old(allocations), n)
    {
      if AllocatorSafety.Inv(Db()) { RemoveLeavesPrimaries(Db(), ticket); }
      removed := removing[ticket] in allocations;
      allocations := allocations - {removing[ticket]};
      removing := removing - {ticket};
    }

    /** NodesService.delete: the foreign key of servers guards it, that of allocations cascades. */
    method DeleteNode(node: int) returns (deleted: bool)
      modifies this`nodes, this`allocations, this`admitted
      ensures Db() == AfterDeleteNode(old(Db()), node)
      ensures deleted <==> node in old(nodes) && forall x :: x in servers ==> servers[x].node != node
      ensures deleted ==> nodes == old(nodes) - {node}
      ensures deleted ==> forall a :: a in allocations <==> a in old(allocations) && old(allocations)[a].node != node
      ensures forall a :: a in allocations ==> a in old(allocations) && allocations[a] == old(allocations)[a]
      ensures !deleted ==> Db() == old(Db())
    {
      if node !in nodes || exists x :: x in servers && servers[x].node == node { return false; }
      nodes := nodes - {node};
      allocations := OnOtherNodes(allocations, node);
      admitted := admitted - {node};
      deleted := true;
    }
  }
}
