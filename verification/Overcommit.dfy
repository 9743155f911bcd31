/**
  Creates that race for one node: any number of them selects it while it is
  empty, then all commit. The race reaches the overcommit bound, shows exactly
  when capacity can be exceeded, and uses up a node's ports.
 */
module Overcommit {
  import opened Wrappers
  import opened Sets
  import opened Resources
  import opened Placement
  import opened Allocator
  import opened AllocatorSafety
  import opened AllocatorTheorems
  import opened PortTheorems

  // ---------------------------------------------------------------------
  // The race
  // ---------------------------------------------------------------------

  /** A node whose whole memory one request takes. */
  function Racer(r: Amounts): Node
    requires ValidRequest(r)
  {
    Node(Online, false, r.cpu, r.mem, r.disk + 1024, ZERO, ZERO)
  }

  function Setup(r: Amounts): seq<Step>
    requires ValidRequest(r)
  {
    [CreateNode(r.cpu, r.mem, r.disk + 1024, ZERO), SetStatus(0, Online, false)]
  }

  function Selects(r: Amounts, k: nat): seq<Step> {
    if k == 0 then [] else Selects(r, k - 1) + [SelectNode([0], r)]
  }

  function Commits(j: nat): seq<Step> {
    if j == 0 then [] else Commits(j - 1) + [ReadPort(j), CommitCreate(j)]
  }

  /** `k` creates select the node, then the first `j` of them commit. */
  function Race(r: Amounts, k: nat, j: nat): seq<Step>
    requires ValidRequest(r)
  {
    Setup(r) + Selects(r, k) + Commits(j)
  }

  /** The creates numbered `j + 1` to `k`, waiting for their port. */
  function Waiting(r: Amounts, j: int, k: int): map<int, Creating> {
    map t | j < t <= k && Queued(t, j, k) :: Selected(0, r)
  }

  predicate Queued(t: int, j: int, k: int) { j < t <= k }

  /** After the selections and the first `j` commits. */
  ghost predicate Racing(s: State, r: Amounts, k: nat, j: nat)
    requires ValidRequest(r)
  {
    && Issued(s.allocations, s.nextId)
    && s.nodes == map[0 := Racer(r).(used := r.Times(j))]
    && s.creating == Waiting(r, j, k)
    && |PortsInUse(s.allocations, 0)| == j
  }

  lemma RacerIsChosen(r: Amounts)
    requires ValidRequest(r)
    ensures FindEligibleNode([Listed(0, Racer(r))], r) == Some(Listed(0, Racer(r)))
  {
    var i := PlacementIsBestFit([Listed(0, Racer(r))], r);
    assert ZERO.Plus(r) == r;
    assert Candidate(Racer(r), r);
  }

  /** The node as it stands once it is online, before any selection. */
  function Start(r: Amounts): State
    requires ValidRequest(r)
  {
    EMPTY.(nodes := map[0 := Racer(r)], admitted := map[0 := 0], nextId := 1)
  }

  lemma Starts(r: Amounts)
    requires ValidRequest(r)
    ensures Run(EMPTY, Setup(r)) == Start(r)
  {
    var s1 := Next(EMPTY, Setup(r)[0]);
    assert Setup(r)[1..] == [Setup(r)[1]] && [Setup(r)[1]][1..] == [];
    assert Next(s1, Setup(r)[1]) == Start(r);
    assert Run(s1, [Setup(r)[1]]) == Run(Start(r), []);
  }

  function AfterSelects(r: Amounts, k: nat): State
    requires ValidRequest(r)
  {
    Start(r).(creating := Waiting(r, 0, k), nextId := k + 1)
  }

  lemma OneMoreSelects(r: Amounts, k: nat)
    requires ValidRequest(r)
    ensures Next(AfterSelects(r, k), SelectNode([0], r)) == AfterSelects(r, k + 1)
  {
    var s := AfterSelects(r, k);
    assert Listing([0], s.nodes) == [Listed(0, Racer(r))];
    RacerIsChosen(r);
    var choice := FindEligibleNode(Listing([0], s.nodes), r);
    assert AfterChoice(s, r, choice) == AfterChoice(s, r, Some(Listed(0, Racer(r))));
    assert Waiting(r, 0, k)[k + 1 := Selected(0, r)] == Waiting(r, 0, k + 1);
  }

  lemma {:induction false} SelectsRun(r: Amounts, k: nat)
    requires ValidRequest(r)
    ensures Run(Start(r), Selects(r, k)) == AfterSelects(r, k)
    decreases k
  {
    if k == 0 {
      EmptyTable(Waiting(r, 0, 0));
    } else {
      SelectsRun(r, k - 1);
      RunInParts(Start(r), Selects(r, k - 1), [SelectNode([0], r)]);
      OneStep(AfterSelects(r, k - 1), SelectNode([0], r));
      OneMoreSelects(r, k - 1);
    }
  }

  // ---------------------------------------------------------------------
  // One commit of the race
  // ---------------------------------------------------------------------

  lemma PortIsRead(s: State, r: Amounts, k: nat, j: nat) returns (port: int)
    requires ValidRequest(r) && Racing(s, r, k, j) && j < k && j < PORT_COUNT
    ensures InRange(port) && port !in PortsInUse(s.allocations, 0)
    ensures Next(s, ReadPort(j + 1)) == s.(creating := s.creating[j + 1 := Numbered(0, r, port)])
  {
    var used := PortsInUse(s.allocations, 0);
    FullRange(used);
    port := LeastFreePort(used).value;
    assert s.creating[j + 1] == Selected(0, r);
  }

  /** A port that is not in use is not taken, and inserting it adds it to the ports in use. */
  lemma PortIsInserted(allocations: map<int, Allocation>, id: int, port: int, server: Option<int>)
    requires InRange(port) && port !in PortsInUse(allocations, 0) && id !in allocations
    ensures !PortTaken(allocations, 0, port)
    ensures var allocations' := allocations[id := Allocation(0, port, server, true)];
            PortsInUse(allocations', 0) == PortsInUse(allocations, 0) + {port}
  {
    var allocations' := allocations[id := Allocation(0, port, server, true)];
    assert forall a :: a in allocations && allocations[a].node == 0 && allocations[a].port == port ==>
                         allocations[a].port in PortsInUse(allocations, 0);
    forall p ensures p in PortsInUse(allocations', 0) <==> p in PortsInUse(allocations, 0) || p == port {
      if p in PortsInUse(allocations, 0) {
        var a :| a in allocations && allocations[a].node == 0 && InRange(allocations[a].port)
                 && allocations[a].port == p;
        assert allocations'[a] == allocations[a];
      }
      if p == port { assert allocations'[id].port == p; }
    }
  }

  lemma OneMoreCommits(s: State, r: Amounts, k: nat, j: nat)
    requires ValidRequest(r) && Racing(s, r, k, j) && j < k && j < PORT_COUNT
    ensures Racing(Next(Next(s, ReadPort(j + 1)), CommitCreate(j + 1)), r, k, j + 1)
  {
    var port := PortIsRead(s, r, k, j);
    CommitAfterRead(s, r, k, j, port);
  }

  lemma CommitAfterRead(s: State, r: Amounts, k: nat, j: nat, port: int)
    requires ValidRequest(r) && Racing(s, r, k, j) && j < k
    requires InRange(port) && port !in PortsInUse(s.allocations, 0)
    ensures var s' := AfterCommitCreate(s.(creating := s.creating[j + 1 := Numbered(0, r, port)]), j + 1);
            && s'.nodes == map[0 := Racer(r).(used := r.Times(j + 1))] && s'.creating == Waiting(r, j + 1, k)
            && |PortsInUse(s'.allocations, 0)| == j + 1 && Issued(s'.allocations, s'.nextId)
  {
    assert s.nextId + 1 !in s.allocations;
    PortIsInserted(s.allocations, s.nextId + 1, port, Some(s.nextId));
    CommitsAre(s.(creating := s.creating[j + 1 := Numbered(0, r, port)]), r, k, j, port);
  }

  /** The commit, table by table. */
  lemma CommitsAre(s: State, r: Amounts, k: nat, j: nat, port: int)
    requires ValidRequest(r) && j < k && s.nodes == map[0 := Racer(r).(used := r.Times(j))]
    requires s.creating == Waiting(r, j, k)[j + 1 := Numbered(0, r, port)] && !PortTaken(s.allocations, 0, port)
    ensures var s' := AfterCommitCreate(s, j + 1);
            && s'.nodes == map[0 := Racer(r).(used := r.Times(j + 1))]
            && s'.creating == Waiting(r, j + 1, k)
            && s'.allocations == s.allocations[s.nextId + 1 := Allocation(0, port, Some(s.nextId), true)]
            && s'.nextId == s.nextId + 2
  {
    OneFewerWaits(r, k, j, Numbered(0, r, port));
    OneMoreUsed(r, j);
  }

  lemma OneFewerWaits(r: Amounts, k: nat, j: nat, c: Creating)
    requires j < k
    ensures Waiting(r, j, k)[j + 1 := c] - {j + 1} == Waiting(r, j + 1, k)
  {}

  lemma OneMoreUsed(r: Amounts, j: nat)
    requires ValidRequest(r)
    ensures var nodes := map[0 := Racer(r).(used := r.Times(j))];
            nodes[0 := nodes[0].(used := nodes[0].used.Plus(r))] == map[0 := Racer(r).(used := r.Times(j + 1))]
  {
    assert r.Times(j).Plus(r) == r.Times(j + 1);
  }

  lemma {:induction false} CommitsRun(r: Amounts, k: nat, j: nat)
    requires ValidRequest(r) && j <= k && j <= PORT_COUNT
    ensures Racing(Run(AfterSelects(r, k), Commits(j)), r, k, j)
    decreases j
  {
    if j == 0 {
      Selected0(r, k);
    } else {
      CommitsRun(r, k, j - 1);
      RunInParts(AfterSelects(r, k), Commits(j - 1), [ReadPort(j), CommitCreate(j)]);
      CommitRun(Run(AfterSelects(r, k), Commits(j - 1)), r, k, j - 1);
    }
  }

  lemma CommitRun(s: State, r: Amounts, k: nat, j: nat)
    requires ValidRequest(r) && Racing(s, r, k, j) && j < k && j < PORT_COUNT
    ensures Racing(Run(s, [ReadPort(j + 1), CommitCreate(j + 1)]), r, k, j + 1)
  {
    TwoSteps(s, ReadPort(j + 1), CommitCreate(j + 1));
    OneMoreCommits(s, r, k, j);
  }

  lemma Selected0(r: Amounts, k: nat)
    requires ValidRequest(r)
    ensures Racing(AfterSelects(r, k), r, k, 0)
  {
    assert r.Times(0) == ZERO;
    assert Racer(r).(used := ZERO) == Racer(r);
    SameElements(PortsInUse(map[], 0), {});
  }

  lemma RaceRuns(r: Amounts, k: nat, j: nat)
    requires ValidRequest(r) && j <= k && j <= PORT_COUNT
    ensures Racing(Run(EMPTY, Race(r, k, j)), r, k, j)
  {
    Starts(r);
    SelectsRun(r, k);
    RunInParts(EMPTY, Setup(r), Selects(r, k));
    RunInParts(EMPTY, Setup(r) + Selects(r, k), Commits(j));
    CommitsRun(r, k, j);
  }

  // ---------------------------------------------------------------------
  // The race is paced
  // ---------------------------------------------------------------------

  function SelectCount(steps: seq<Step>): nat {
    if steps == [] then 0 else (if steps[0].SelectNode? then 1 else 0) + SelectCount(steps[1..])
  }

  predicate AskAtMost(steps: seq<Step>, r: Amounts) {
    forall i :: 0 <= i < |steps| && steps[i].SelectNode? ==> steps[i].request.AtMost(r)
  }

  /** Only a selection adds a create in flight. */
  lemma OneMoreInFlight(s: State, step: Step)
    ensures |Next(s, step).creating| <= |s.creating| + if step.SelectNode? then 1 else 0
  {
    match step
    case SelectNode(order, request) => InFlightBySelect(s, order, request);
    case ReadPort(t) => InFlightByRead(s, t);
    case CommitCreate(t) => InFlightByCommit(s, t);
    case AbortCreate(t) => FewerKeys(s.creating - {t}, s.creating);
    case _ => CreatesTouched(s, step);
  }

  lemma InFlightByCommit(s: State, t: int)
    ensures |AfterCommitCreate(s, t).creating| <= |s.creating|
  {
    FewerKeys(AfterCommitCreate(s, t).creating, s.creating);
  }

  lemma FewerKeys(a: map<int, Creating>, b: map<int, Creating>)
    requires a.Keys <= b.Keys
    ensures |a| <= |b|
  {
    SubsetSize(a.Keys, b.Keys);
  }

  lemma InFlightBySelect(s: State, order: seq<int>, request: Amounts)
    ensures |AfterSelectNode(s, order, request).creating| <= |s.creating| + 1
  {
    if IsListing(order, s.nodes) {
      var choice := FindEligibleNode(Listing(order, s.nodes), request);
      assert |AfterChoice(s, request, choice).creating| <= |s.creating| + 1;
    }
  }

  lemma InFlightByRead(s: State, t: int)
    ensures |AfterReadPort(s, t).creating| <= |s.creating|
  {
    if t in s.creating {
      var port := LeastFreePort(PortsInUse(s.allocations, s.creating[t].node));
      FewerKeys(AfterPortRead(s, t, port).creating, s.creating);
    }
  }

  lemma {:induction false} PacedByCount(s: State, steps: seq<Step>, k: int, r: Amounts)
    requires |s.creating| + SelectCount(steps) <= k && AskAtMost(steps, r)
    ensures Paced(s, steps, k, r)
    decreases steps
  {
    if steps != [] {
      OneMoreInFlight(s, steps[0]);
      PacedByCount(Next(s, steps[0]), steps[1..], k, r);
    }
  }

  lemma {:induction false} SelectCountAppend(a: seq<Step>, b: seq<Step>)
    ensures SelectCount(a + b) == SelectCount(a) + SelectCount(b)
  {
    if a == [] {
      assert a + b == b;
    } else {
      assert (a + b)[1..] == a[1..] + b;
      SelectCountAppend(a[1..], b);
    }
  }

  lemma {:induction false} SelectsCount(r: Amounts, k: nat)
    ensures SelectCount(Selects(r, k)) == k && AskAtMost(Selects(r, k), r)
  {
    if k > 0 {
      SelectsCount(r, k - 1);
      SelectCountAppend(Selects(r, k - 1), [SelectNode([0], r)]);
      assert [SelectNode([0], r)][1..] == [];
    }
  }

  lemma NeitherSelects(a: Step, b: Step)
    requires !a.SelectNode? && !b.SelectNode?
    ensures SelectCount([a, b]) == 0
  {
    assert [a, b][1..] == [b] && [b][1..] == [];
    assert SelectCount([b]) == SelectCount([]);
  }

  lemma {:induction false} CommitsCount(j: nat, r: Amounts)
    ensures SelectCount(Commits(j)) == 0 && AskAtMost(Commits(j), r)
  {
    if j > 0 {
      CommitsCount(j - 1, r);
      SelectCountAppend(Commits(j - 1), [ReadPort(j), CommitCreate(j)]);
      NeitherSelects(ReadPort(j), CommitCreate(j));
    }
  }

  lemma RacePaced(r: Amounts, n: nat, j: nat, k: nat, most: Amounts)
    requires ValidRequest(r) && r.AtMost(most) && n <= k
    ensures Paced(EMPTY, Race(r, n, j), k, most)
  {
    SelectsCount(r, n);
    CommitsCount(j, r);
    NeitherSelects(Setup(r)[0], Setup(r)[1]);
    SelectCountAppend(Setup(r), Selects(r, n));
    SelectCountAppend(Setup(r) + Selects(r, n), Commits(j));
    PacedByCount(EMPTY, Race(r, n, j), k, most);
  }

  // ---------------------------------------------------------------------
  // What the race shows
  // ---------------------------------------------------------------------

  /**
    The overcommit bound is reached: for every k up to the number of ports and
    every request, k overlapping creates exceed a node's memory by exactly k - 1
    requests.
   */
  lemma BoundIsReached(k: nat, r: Amounts)
    requires 1 <= k <= PORT_COUNT && ValidRequest(r)
    ensures Paced(EMPTY, Race(r, k, k), k, r) && 0 in Run(EMPTY, Race(r, k, k)).nodes
    ensures var n := Run(EMPTY, Race(r, k, k)).nodes[0];
            n.used.Times(100).mem == Capacity(n).Plus(r.Times(k - 1).Times(100)).mem
    ensures k >= 2 ==> !WithinCapacity(Run(EMPTY, Race(r, k, k)).nodes, 0)
  {
    RaceRuns(r, k, k);
    RacePaced(r, k, k, k, r);
    MemoryOfRacer(r, k);
  }

  lemma MemoryOfRacer(r: Amounts, k: nat)
    requires ValidRequest(r) && k >= 1
    ensures var n := Racer(r).(used := r.Times(k));
            && n.used.Times(100).mem == Capacity(n).Plus(r.Times(k - 1).Times(100)).mem
            && (k >= 2 ==> !n.used.Times(100).AtMost(Capacity(n)))
  {
    assert 100 * (k * r.mem) == 100 * r.mem + 100 * ((k - 1) * r.mem);
    assert k >= 2 ==> (k - 1) * r.mem >= r.mem;
  }

  predicate WithinCapacity(nodes: map<int, Node>, n: int) {
    n in nodes ==> nodes[n].used.Times(100).AtMost(Capacity(nodes[n]))
  }

  /** In no run paced by `k` and `r` does any node exceed its capacity. */
  ghost predicate NeverOvercommits(k: int, r: Amounts) {
    forall steps, n :: Paced(EMPTY, steps, k, r) ==> WithinCapacity(Run(EMPTY, steps).nodes, n)
  }

  /** Some request the validators let through is at most `r`. */
  ghost predicate SomeRequestWithin(r: Amounts) { exists q: Amounts :: ValidRequest(q) && q.AtMost(r) }

  /** The validators let through what asks for 10 percent, 256 MB and 512 MB or more. */
  lemma SmallestRequest(r: Amounts)
    ensures SomeRequestWithin(r) <==> r.cpu >= 10 && r.mem >= 256 && r.disk >= 512
  {
    if r.cpu >= 10 && r.mem >= 256 && r.disk >= 512 {
      assert ValidRequest(r) && r.AtMost(r);
    }
  }

  /** Without a request that is let through no create is ever in flight. */
  lemma {:induction false} NoneInFlight(s: State, steps: seq<Step>, k: int, r: Amounts)
    requires s.creating == map[] && !SomeRequestWithin(r) && Paced(s, steps, k, r)
    ensures Paced(s, steps, 1, r)
    decreases steps
  {
    if steps != [] {
      NothingStarts(s, steps[0], r);
      NoneInFlight(Next(s, steps[0]), steps[1..], k, r);
    }
  }

  lemma NothingStarts(s: State, step: Step, r: Amounts)
    requires s.creating == map[] && !SomeRequestWithin(r)
    requires step.SelectNode? ==> step.request.AtMost(r)
    ensures Next(s, step).creating == map[]
  {
    if step.SelectNode? {
      assert !ValidRequest(step.request);
    } else if !(step.ReadPort? || step.CommitCreate? || step.AbortCreate?) {
      CreatesTouched(s, step);
    }
  }

  /**
    The exact condition: capacity is never exceeded, in any run with at most k
    creates between selection and commit and requests of at most r, iff k is 1 or
    no request the validators let through is that small.
   */
  lemma OvercommitExact(k: nat, r: Amounts)
    requires k >= 1 && ZERO.AtMost(r)
    ensures NeverOvercommits(k, r) <==> k == 1 || r.cpu < 10 || r.mem < 256 || r.disk < 512
  {
    SmallestRequest(r);
    if k == 1 || !SomeRequestWithin(r) {
      forall steps, n | Paced(EMPTY, steps, k, r) ensures WithinCapacity(Run(EMPTY, steps).nodes, n) {
        if k > 1 { NoneInFlight(EMPTY, steps, k, r); }
        if n in Run(EMPTY, steps).nodes { SequentialNeverOvercommits(steps, r, n); }
      }
    } else {
      var q: Amounts :| ValidRequest(q) && q.AtMost(r);
      RacePaced(q, 2, 2, k, r);
      BoundIsReached(2, q);
      assert !WithinCapacity(Run(EMPTY, Race(q, 2, 2)).nodes, 0);
    }
  }

  /** A node's range can be used up: 101 creates have committed, and the next one finds no port. */
  lemma NodeCanBeExhausted(r: Amounts)
    requires ValidRequest(r)
    ensures var s := Run(EMPTY, Race(r, 102, 101));
            && 102 in s.creating && s.creating[102] == Selected(0, r) && 0 in s.nodes
            && 102 !in AfterReadPort(s, 102).creating
            && CommittedOn(EMPTY, Race(r, 102, 101), 0) + |Extras(s.allocations, 0)| == PORT_COUNT
  {
    RaceRuns(r, 102, 101);
    var s := Run(EMPTY, Race(r, 102, 101));
    FullRange(PortsInUse(s.allocations, 0));
    ExhaustedNode(Race(r, 102, 101), 102);
  }
}
