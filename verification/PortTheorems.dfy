/**
  The 101-port range of a node over whole runs: no port is handed out twice,
  and a primary row outlives its server, so that a node's creates are rationed
  over its whole life.
 */
module PortTheorems {
  import opened Wrappers
  import opened Sets
  import opened Resources
  import opened Placement
  import opened Allocator
  import opened AllocatorSafety
  import opened AllocatorTheorems

  const PORT_COUNT := 101

  predicate UpTo(p: int, last: int) { p <= last }

  function PortRange(last: int): set<int> { set p | PORT_RANGE_START <= p <= last && UpTo(p, last) }

  lemma {:induction false} PortRangeSize(last: int)
    requires PORT_RANGE_START - 1 <= last
    ensures |PortRange(last)| == last + 1 - PORT_RANGE_START
    decreases last
  {
    if last < PORT_RANGE_START {
      if PortRange(last) != {} { var p := Member(PortRange(last)); }
    } else {
      PortRangeSize(last - 1);
      assert PortRange(last) == PortRange(last - 1) + {last};
    }
  }

  function RowsOn(allocations: map<int, Allocation>, node: int): set<int> {
    set a | a in allocations && allocations[a].node == node
  }

  /** Rows with distinct ports have as many ports as there are rows. */
  lemma {:induction false} DistinctPortsCount(allocations: map<int, Allocation>, rows: set<int>) returns (ports: set<int>)
    requires rows <= allocations.Keys
    requires forall a, b :: a in rows && b in rows && a != b ==> allocations[a].port != allocations[b].port
    ensures forall p :: p in ports <==> exists a :: a in rows && allocations[a].port == p
    ensures |ports| == |rows|
    decreases |rows|
  {
    if rows == {} {
      ports := {};
    } else {
      var a := Member(rows);
      var rest := DistinctPortsCount(allocations, rows - {a});
      ports := rest + {allocations[a].port};
      assert allocations[a].port !in rest;
    }
  }

  /** A node's ports in use are as many as its rows, and at most 101. */
  lemma PortsAreRows(s: State, node: int)
    requires Inv(s)
    ensures |PortsInUse(s.allocations, node)| == |RowsOn(s.allocations, node)| <= PORT_COUNT
  {
    var ports := DistinctPortsCount(s.allocations, RowsOn(s.allocations, node));
    var used := PortsInUse(s.allocations, node);
    forall p ensures p in ports <==> p in used {}
    assert ports == used by { SameElements(ports, used); }
    PortRangeSize(PORT_RANGE_END);
    SubsetSize(used, PortRange(PORT_RANGE_END));
  }

  lemma SameElements(a: set<int>, b: set<int>)
    requires forall p :: p in a <==> p in b
    ensures a == b
  {
    if a - b != {} { var p := Member(a - b); }
    if b - a != {} { var p := Member(b - a); }
  }

  lemma RowsSplit(s: State, node: int)
    requires Inv(s) && node in s.nodes
    ensures |RowsOn(s.allocations, node)| == s.admitted[node] + |Extras(s.allocations, node)|
  {
    assert RowsOn(s.allocations, node) == Primaries(s.allocations, node) + Extras(s.allocations, node);
  }

  /** In every run, no two allocation rows of a node share a port. */
  lemma NoPortTwice(steps: seq<Step>, a: int, b: int)
    requires a in Run(EMPTY, steps).allocations && b in Run(EMPTY, steps).allocations && a != b
    ensures var s := Run(EMPTY, steps);
            s.allocations[a].node == s.allocations[b].node ==> s.allocations[a].port != s.allocations[b].port
  {
    EveryRun(steps);
  }

  /** The creates a node ever committed, plus its extra allocations, are at most 101. */
  lemma PortCeiling(steps: seq<Step>, node: int)
    requires node in Run(EMPTY, steps).nodes
    ensures var s := Run(EMPTY, steps);
            CommittedOn(EMPTY, steps, node) + |Extras(s.allocations, node)| <= PORT_COUNT
  {
    EveryRun([]);
    EveryRun(steps);
    var s := Run(EMPTY, steps);
    PortsAreRows(s, node);
    RowsSplit(s, node);
    AdmittedCounts(EMPTY, steps, node);
  }

  /** A create's port lookup gives up exactly when its node has used up the range. */
  lemma ExhaustedNode(steps: seq<Step>, t: int)
    requires var s := Run(EMPTY, steps);
             t in s.creating && s.creating[t].Selected? && s.creating[t].node in s.nodes
    ensures var s := Run(EMPTY, steps);
            var node := s.creating[t].node;
            t !in AfterReadPort(s, t).creating
            <==> CommittedOn(EMPTY, steps, node) + |Extras(s.allocations, node)| == PORT_COUNT
  {
    EveryRun([]);
    EveryRun(steps);
    var s := Run(EMPTY, steps);
    var node := s.creating[t].node;
    PortsAreRows(s, node);
    RowsSplit(s, node);
    AdmittedCounts(EMPTY, steps, node);
    FullRange(PortsInUse(s.allocations, node));
  }

  lemma FullRange(used: set<int>)
    requires forall p :: p in used ==> InRange(p)
    ensures LeastFreePort(used).None? <==> |used| == PORT_COUNT
  {
    var all := PortRange(PORT_RANGE_END);
    PortRangeSize(PORT_RANGE_END);
    SubsetSize(used, all);
    if LeastFreePort(used).None? {
      SameElements(used, all);
    } else {
      SubsetSize(used, all - {LeastFreePort(used).value});
      assert |all - {LeastFreePort(used).value}| == |all| - 1;
    }
  }

  // ---------------------------------------------------------------------
  // The tally is the number of commits in the run
  // ---------------------------------------------------------------------

  predicate CommitsOn(s: State, step: Step, node: int) {
    && step.CommitCreate? && step.ticket in s.creating && s.creating[step.ticket].Numbered?
    && s.creating[step.ticket].node == node && !CreateRollsBack(s, s.creating[step.ticket])
  }

  /** How many steps of the run commit a create on `node`. */
  ghost function CommittedOn(s: State, steps: seq<Step>, node: int): nat
    decreases steps
  {
    if steps == [] then 0
    else (if CommitsOn(s, steps[0], node) then 1 else 0) + CommittedOn(Next(s, steps[0]), steps[1..], node)
  }

  lemma NextIdGrows(s: State, step: Step)
    ensures s.nextId <= Next(s, step).nextId
  {
    if step.SelectNode? || step.ReadPort? || step.AbortCreate? {
      CreateStepsTouch(s, step);
    } else if step.CreateNode? || step.SetStatus? || step.CommitDelete? || step.DeleteNode? {
      NodeStepsTouch(s, step);
    } else if !step.CommitCreate? {
      AllocationStepsTouch(s, step);
    }
  }

  lemma NodesOnlyNew(s: State, step: Step)
    ensures forall n :: n in Next(s, step).nodes ==> n in s.nodes || n == s.nextId
  {
    NodesTouched(s, step);
  }

  /** Identifiers are not reused: a removed node stays removed. */
  lemma {:induction false} GoneForGood(s: State, steps: seq<Step>, node: int)
    requires node < s.nextId && node !in s.nodes
    ensures node !in Run(s, steps).nodes
    decreases steps
  {
    if steps != [] {
      NextIdGrows(s, steps[0]);
      NodesOnlyNew(s, steps[0]);
      GoneForGood(Next(s, steps[0]), steps[1..], node);
    }
  }

  /** Only a commit, a new node and a removed node touch the tally. */
  lemma AdmittedTouched(s: State, step: Step)
    ensures step.CommitCreate? || step.CreateNode? || step.DeleteNode? || Next(s, step).admitted == s.admitted
  {
    if step.SelectNode? || step.ReadPort? || step.AbortCreate? {
      CreateStepsTouch(s, step);
    } else if step.SetStatus? || step.CommitDelete? {
      NodeStepsTouch(s, step);
    } else if !(step.CommitCreate? || step.CreateNode? || step.DeleteNode?) {
      AllocationStepsTouch(s, step);
    }
  }

  lemma TallyStep(s: State, step: Step, node: int)
    requires Inv(s) && step != DeleteNode(node)
    ensures Tally(Next(s, step).admitted, node)
            == Tally(s.admitted, node) + if CommitsOn(s, step, node) then 1 else 0
  {
    AdmittedTouched(s, step);
    match step
    case CommitCreate(t) =>
    case CreateNode(_, _, _, _) =>
    case DeleteNode(_) =>
    case _ =>
  }

  lemma {:induction false} AdmittedCounts(s: State, steps: seq<Step>, node: int)
    requires Inv(s) && node in Run(s, steps).nodes
    ensures node in Run(s, steps).admitted
    ensures Run(s, steps).admitted[node] == Tally(s.admitted, node) + CommittedOn(s, steps, node)
    decreases steps
  {
    if steps != [] {
      var s' := Next(s, steps[0]);
      InvStep(s, steps[0]);
      AdmittedCounts(s', steps[1..], node);
      if steps[0] == DeleteNode(node) {
        if s' != s {
          GoneForGood(s', steps[1..], node);
        }
      } else {
        TallyStep(s, steps[0], node);
      }
    }
  }
}
