/**
  Server creation and deletion, network allocations and node removal, as a
  machine whose steps are the pieces that run without an await in between.
  A Prisma transaction is one step: it commits whole or rolls back whole.
 */
module Allocator {
  import opened Wrappers
  import opened Resources
  import opened Placement

  const PORT_RANGE_START := 25565
  const PORT_RANGE_END := 25665

  datatype Server = Server(node: int, limits: Amounts)

  /** A row of network_allocations; the ip column is always '0.0.0.0'. */
  datatype Allocation = Allocation(node: int, port: int, server: Option<int>, primary: bool)

  /** A create between its node selection and its commit, before and after its transaction reads a port. */
  datatype Creating =
    | Selected(node: int, request: Amounts)
    | Numbered(node: int, request: Amounts, port: int)

  /** A delete that has read the server row and is waiting for the node daemon. */
  datatype Deleting = Deleting(server: int, row: Server)

  /** An extra allocation whose transaction has read a port and not inserted yet. */
  datatype Adding = Adding(server: int, node: int, port: int)

  /**
    The tables, the requests in flight, the next identifier (identifiers are
    UUIDs in the database: never reused), and the number of creates committed
    on each existing node, which only the statements below look at.
   */
  datatype State = State(
    nodes: map<int, Node>,
    servers: map<int, Server>,
    allocations: map<int, Allocation>,
    creating: map<int, Creating>,
    deleting: map<int, Deleting>,
    adding: map<int, Adding>,
    removing: map<int, int>,
    nextId: int,
    admitted: map<int, nat>)

  const EMPTY := State(map[], map[], map[], map[], map[], map[], map[], 0, map[])

  datatype Step =
    | CreateNode(cpuCores: nat, memoryMb: nat, diskMb: nat, overallocate: Amounts)
    | SetStatus(node: int, status: NodeStatus, maintenance: bool)
    | SelectNode(order: seq<int>, request: Amounts)
    | ReadPort(ticket: int)
    | CommitCreate(ticket: int)
    | AbortCreate(ticket: int)
    | BeginDelete(server: int)
    | CommitDelete(ticket: int)
    | BeginAdd(server: int)
    | CommitAdd(ticket: int)
    | BeginRemove(server: int, allocation: int)
    | CommitRemove(ticket: int)
    | DeleteNode(node: int)

  // ---------------------------------------------------------------------
  // Steps
  // ---------------------------------------------------------------------

  /** CreateServerDto's validators. */
  predicate ValidRequest(r: Amounts) { r.cpu >= 10 && r.mem >= 256 && r.disk >= 512 }

  /** The order in which the database lists the nodes is its own choice. */
  predicate IsListing(order: seq<int>, nodes: map<int, Node>) {
    && (forall i :: 0 <= i < |order| ==> order[i] in nodes)
    && (forall i, j :: 0 <= i < j < |order| ==> order[i] != order[j])
    && (forall n :: n in nodes ==> n in order)
  }

  function Listing(order: seq<int>, nodes: map<int, Node>): seq<Listed>
    requires forall i :: 0 <= i < |order| ==> order[i] in nodes
  {
    seq(|order|, i requires 0 <= i < |order| => Listed(order[i], nodes[order[i]]))
  }

  predicate InRange(port: int) { PORT_RANGE_START <= port <= PORT_RANGE_END }

  function PortsInUse(allocations: map<int, Allocation>, node: int): set<int> {
    set a | a in allocations && allocations[a].node == node && InRange(allocations[a].port)
      :: allocations[a].port
  }

  ghost predicate IsLeastFree(used: set<int>, port: int) {
    InRange(port) && port !in used && forall q :: PORT_RANGE_START <= q < port ==> q in used
  }

  /** What allocatePort is for: the least port of the range that is not in use, if there is one. */
  ghost function LeastFreePort(used: set<int>): (r: Option<int>)
    ensures r.Some? ==> IsLeastFree(used, r.value)
    ensures r.None? <==> forall q :: InRange(q) ==> q in used
  {
    if forall q :: InRange(q) ==> q in used then None
    else
      var q :| InRange(q) && q !in used;
      LeastExists(used, q);
      var p :| IsLeastFree(used, p); Some(p)
  }

  /** Below any free port of the range there is a least one. */
  lemma {:induction false} LeastExists(used: set<int>, q: int)
    requires InRange(q) && q !in used
    ensures exists p :: IsLeastFree(used, p)
    decreases q
  {
    if p :| PORT_RANGE_START <= p < q && p !in used {
      LeastExists(used, p);
    } else {
      assert IsLeastFree(used, q);
    }
  }

  /** allocatePort's scan of the range. */
  method AllocatePort(used: set<int>) returns (r: Option<int>)
    ensures r == LeastFreePort(used)
    ensures r.Some? ==>
              && 25565 <= r.value <= 25665 && r.value !in used
              && forall q :: 25565 <= q < r.value ==> q in used
    ensures r.None? <==> forall q :: 25565 <= q <= 25665 ==> q in used
  {
    var port := PORT_RANGE_START;
    while port <= PORT_RANGE_END
      invariant PORT_RANGE_START <= port <= PORT_RANGE_END + 1
      invariant forall q :: PORT_RANGE_START <= q < port ==> q in used
    {
      if port !in used {
        assert IsLeastFree(used, port);
        return Some(port);
      }
      port := port + 1;
    }
    return None;
  }

  /** The unique index on (nodeId, ip, port) would reject this row. */
  predicate PortTaken(allocations: map<int, Allocation>, node: int, port: int) {
    exists a :: a in allocations && allocations[a].node == node && allocations[a].port == port
  }

  function AfterCreateNode(s: State, cpuCores: nat, memoryMb: nat, diskMb: nat, overallocate: Amounts): State {
    if cpuCores < 1 || memoryMb < 256 || diskMb < 1024 || !ZERO.AtMost(overallocate) then s
    else
      s.(nodes := s.nodes[s.nextId := Node(Offline, false, cpuCores, memoryMb, diskMb, overallocate, ZERO)],
         admitted := s.admitted[s.nextId := 0],
         nextId := s.nextId + 1)
  }

  function AfterSetStatus(s: State, node: int, status: NodeStatus, maintenance: bool): State {
    if node !in s.nodes then s
    else s.(nodes := s.nodes[node := s.nodes[node].(status := status, maintenance := maintenance)])
  }

  function AfterSelectNode(s: State, order: seq<int>, request: Amounts): State {
    if !ValidRequest(request) || !IsListing(order, s.nodes) then s
    else AfterChoice(s, request, FindEligibleNode(Listing(order, s.nodes), request))
  }

  function AfterChoice(s: State, request: Amounts, choice: Option<Listed>): State {
    match choice
    case None => s
    case Some(chosen) =>
      s.(creating := s.creating[s.nextId := Selected(chosen.id, request)], nextId := s.nextId + 1)
  }

  ghost function AfterReadPort(s: State, t: int): State {
    if t !in s.creating || s.creating[t].Numbered? then s
    else AfterPortRead(s, t, LeastFreePort(PortsInUse(s.allocations, s.creating[t].node)))
  }

  /** The create goes on with the port it was given, or fails for want of one. */
  function AfterPortRead(s: State, t: int, port: Option<int>): State
    requires t in s.creating
  {
    match port
    case None => s.(creating := s.creating - {t})
    case Some(p) => s.(creating := s.creating[t := Numbered(s.creating[t].node, s.creating[t].request, p)])
  }

  /** Foreign key and unique index: what makes the create's transaction roll back. */
  predicate CreateRollsBack(s: State, c: Creating)
    requires c.Numbered?
  {
    c.node !in s.nodes || PortTaken(s.allocations, c.node, c.port)
  }

  function Tally(admitted: map<int, nat>, node: int): nat {
    if node in admitted then admitted[node] else 0
  }

  function AfterCommitCreate(s: State, t: int): State {
    if t !in s.creating || s.creating[t].Selected? then s
    else
      var c := s.creating[t];
      if CreateRollsBack(s, c) then s.(creating := s.creating - {t})
      else
        s.(servers := s.servers[s.nextId := Server(c.node, c.request)],
           nodes := s.nodes[c.node := s.nodes[c.node].(used := s.nodes[c.node].used.Plus(c.request))],
           allocations := s.allocations[s.nextId + 1 := Allocation(c.node, c.port, Some(s.nextId), true)],
           creating := s.creating - {t},
           nextId := s.nextId + 2,
           admitted := s.admitted[c.node := Tally(s.admitted, c.node) + 1])
  }

  function AfterAbortCreate(s: State, t: int): State { s.(creating := s.creating - {t}) }

  function AfterBeginDelete(s: State, server: int): State {
    if server !in s.servers then s
    else s.(deleting := s.deleting[s.nextId := Deleting(server, s.servers[server])], nextId := s.nextId + 1)
  }

  /** ON DELETE SET NULL. */
  function Orphaned(allocations: map<int, Allocation>, server: int): map<int, Allocation> {
    map a | a in allocations ::
      if allocations[a].server == Some(server) then allocations[a].(server := None) else allocations[a]
  }

  function AfterCommitDelete(s: State, t: int): State {
    if t !in s.deleting then s
    else
      var d := s.deleting[t];
      var node := d.row.node;
      if node !in s.nodes || d.server !in s.servers then s.(deleting := s.deleting - {t})
      else
        s.(nodes := s.nodes[node := s.nodes[node].(used := s.nodes[node].used.Minus(d.row.limits))],
           servers := s.servers - {d.server},
           allocations := Orphaned(s.allocations, d.server),
           deleting := s.deleting - {t})
  }

  ghost function AfterBeginAdd(s: State, server: int): State {
    if server !in s.servers then s
    else
      var node := s.servers[server].node;
      AfterPortToAdd(s, server, node, LeastFreePort(PortsInUse(s.allocations, node)))
  }

  function AfterPortToAdd(s: State, server: int, node: int, port: Option<int>): State {
    match port
    case None => s
    case Some(p) => s.(adding := s.adding[s.nextId := Adding(server, node, p)], nextId := s.nextId + 1)
  }

  function AfterCommitAdd(s: State, t: int): State {
    if t !in s.adding then s
    else
      var a := s.adding[t];
      if a.server !in s.servers || a.node !in s.nodes || PortTaken(s.allocations, a.node, a.port)
      then s.(adding := s.adding - {t})
      else
        s.(allocations := s.allocations[s.nextId := Allocation(a.node, a.port, Some(a.server), false)],
           adding := s.adding - {t},
           nextId := s.nextId + 1)
  }

  function AfterBeginRemove(s: State, server: int, allocation: int): State {
    if server !in s.servers || allocation !in s.allocations
       || s.allocations[allocation].server != Some(server) || s.allocations[allocation].primary
    then s
    else s.(removing := s.removing[s.nextId := allocation], nextId := s.nextId + 1)
  }

  function AfterCommitRemove(s: State, t: int): State {
    if t !in s.removing then s
    else s.(allocations := s.allocations - {s.removing[t]}, removing := s.removing - {t})
  }

  /** ON DELETE CASCADE. */
  function OnOtherNodes(allocations: map<int, Allocation>, node: int): map<int, Allocation> {
    map a | a in allocations && allocations[a].node != node :: allocations[a]
  }

  /** Servers restrict the deletion of their node; its allocations cascade. */
  function AfterDeleteNode(s: State, node: int): State {
    if node !in s.nodes || exists x :: x in s.servers && s.servers[x].node == node then s
    else
      s.(nodes := s.nodes - {node},
         allocations := OnOtherNodes(s.allocations, node),
         admitted := s.admitted - {node})
  }

  ghost function Next(s: State, step: Step): State {
    match step
    case CreateNode(c, m, d, o) => AfterCreateNode(s, c, m, d, o)
    case SetStatus(n, st, b) => AfterSetStatus(s, n, st, b)
    case SelectNode(order, request) => AfterSelectNode(s, order, request)
    case ReadPort(t) => AfterReadPort(s, t)
    case CommitCreate(t) => AfterCommitCreate(s, t)
    case AbortCreate(t) => AfterAbortCreate(s, t)
    case BeginDelete(x) => AfterBeginDelete(s, x)
    case CommitDelete(t) => AfterCommitDelete(s, t)
    case BeginAdd(x) => AfterBeginAdd(s, x)
    case CommitAdd(t) => AfterCommitAdd(s, t)
    case BeginRemove(x, a) => AfterBeginRemove(s, x, a)
    case CommitRemove(t) => AfterCommitRemove(s, t)
    case DeleteNode(n) => AfterDeleteNode(s, n)
  }

  /** Any interleaving is some sequence of steps. */
  ghost function Run(s: State, steps: seq<Step>): State
    decreases steps
  {
    if steps == [] then s else Run(Next(s, steps[0]), steps[1..])
  }

  lemma {:induction false} RunInParts(s: State, a: seq<Step>, b: seq<Step>)
    ensures Run(s, a + b) == Run(Run(s, a), b)
    decreases a
  {
    if a == [] {
      assert a + b == b;
    } else {
      assert (a + b)[1..] == a[1..] + b;
      RunInParts(Next(s, a[0]), a[1..], b);
    }
  }

  lemma OneStep(s: State, a: Step)
    ensures Run(s, [a]) == Next(s, a)
  {
    assert [a][1..] == [];
  }

  lemma TwoSteps(s: State, a: Step, b: Step)
    ensures Run(s, [a, b]) == Next(Next(s, a), b)
  {
    assert [a, b][1..] == [b];
    OneStep(Next(s, a), b);
  }

  lemma ThreeSteps(s: State, a: Step, b: Step, c: Step)
    ensures Run(s, [a, b, c]) == Next(Next(Next(s, a), b), c)
  {
    assert [a, b, c][1..] == [b, c];
    TwoSteps(Next(s, a), b, c);
  }
}
