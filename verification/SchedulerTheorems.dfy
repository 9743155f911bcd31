/**
  What a scheduler run guarantees: how often a task is executed, that no due
  task is lost, and exactly when a tick may start while others are in flight.
 */
module SchedulerTheorems {
  import opened Wrappers
  import opened Sets
  import opened Scheduler

  // ---------------------------------------------------------------------
  // What a faithful history says
  // ---------------------------------------------------------------------

  predicate StoredBetween(h: History, m: nat, n: nat) {
    exists k :: m <= k < n <= |h.events| && h.events[k].Stored?
  }

  /** A task stands at an occurrence after its creation, and moves on exactly when its row is written. */
  lemma {:induction false} ChargeMoves(cron: Cron, h: History, m: nat, n: nat)
    requires IsCron(cron) && Faithful(cron, h) && m <= n <= |h.events|
    ensures Charge(cron, h, m) <= Charge(cron, h, n)
    ensures Charge(cron, h, m) < Charge(cron, h, n) <==> StoredBetween(h, m, n)
    ensures h.created < Charge(cron, h, n) && cron.fires(h.expr, Charge(cron, h, n))
    decreases n
  {
    if m < n {
      assert FaithfulAt(cron, h, n - 1);
      ChargeMoves(cron, h, m, n - 1);
      assert StoredBetween(h, m, n) <==> StoredBetween(h, m, n - 1) || h.events[n - 1].Stored?;
    } else if n > 0 {
      assert FaithfulAt(cron, h, n - 1);
      ChargeMoves(cron, h, n - 1, n - 1);
    }
  }

  /** Two executions of a task: the later occurrence is later iff a write came between, the same otherwise. */
  lemma ChargesIncrease(cron: Cron, h: History, p: nat, q: nat)
    requires IsCron(cron) && Faithful(cron, h)
    requires p < q < |h.events| && h.events[p].Ran? && h.events[q].Ran?
    ensures h.events[p].charge <= h.events[q].charge
    ensures h.events[p].charge < h.events[q].charge <==> StoredBetween(h, p, q)
    ensures !StoredBetween(h, p, q) ==> h.events[p + 1].Lost?
  {
    assert FaithfulAt(cron, h, p) && FaithfulAt(cron, h, q) && FaithfulAt(cron, h, p + 1);
    ChargeMoves(cron, h, p, q);
  }

  /** After a write, no occurrence is skipped: the next execution is for the first one after the write. */
  lemma {:induction false} NoneSkipped(cron: Cron, h: History, k: nat, q: nat, o: int)
    requires IsCron(cron) && Faithful(cron, h) && k < q < |h.events|
    requires h.events[k].Stored? && h.events[q].Ran? && !StoredBetween(h, k + 1, q)
    requires cron.fires(h.expr, o) && h.events[k].at < o
    ensures h.events[q].charge <= o
  {
    assert FaithfulAt(cron, h, q);
    ChargeMoves(cron, h, k + 1, q);
  }

  // ---------------------------------------------------------------------
  // Counting executions
  // ---------------------------------------------------------------------

  function Runs(events: seq<Event>): nat {
    if events == [] then 0 else Runs(events[..|events| - 1]) + if events[|events| - 1].Ran? then 1 else 0
  }

  function Losses(events: seq<Event>): nat {
    if events == [] then 0 else Losses(events[..|events| - 1]) + if events[|events| - 1].Lost? then 1 else 0
  }

  function Charges(events: seq<Event>): set<int> {
    set k | 0 <= k < |events| && events[k].Ran? :: events[k].charge
  }

  predicate EndsLost(events: seq<Event>) { events != [] && events[|events| - 1].Lost? }

  lemma FaithfulPrefix(cron: Cron, h: History)
    requires Faithful(cron, h) && h.events != []
    ensures Faithful(cron, h.(events := h.events[..|h.events| - 1]))
    ensures forall k :: 0 <= k < |h.events| ==>
              Charge(cron, h.(events := h.events[..|h.events| - 1]), k) == Charge(cron, h, k)
  {
    var n := |h.events| - 1;
    var h' := h.(events := h.events[..n]);
    assert h'.(events := h'.events + [h.events[n]]) == h;
    forall k | 0 <= k <= n ensures Charge(cron, h', k) == Charge(cron, h, k) {
      ChargeExtends(cron, h', h.events[n], k);
    }
    forall k | 0 <= k < n ensures FaithfulAt(cron, h', k) {
      assert FaithfulAt(cron, h, k);
    }
  }

  /** What has been charged lies at or below where a row stands, which is charged itself unless just written. */
  lemma ChargedSoFar(cron: Cron, h: History)
    requires IsCron(cron) && Faithful(cron, h)
    ensures forall c :: c in Charges(h.events) ==> c <= Charge(cron, h, |h.events|)
    ensures Charge(cron, h, |h.events|) in Charges(h.events)
            <==> h.events != [] && !h.events[|h.events| - 1].Stored?
  {
    var n := |h.events|;
    forall k | 0 <= k < n && h.events[k].Ran?
      ensures h.events[k].charge <= Charge(cron, h, n)
      ensures h.events[n - 1].Stored? ==> h.events[k].charge < Charge(cron, h, n)
    {
      assert FaithfulAt(cron, h, k);
      ChargeMoves(cron, h, k, n);
    }
    if n > 0 {
      assert FaithfulAt(cron, h, n - 1);
      if h.events[n - 1].Ran? {
        assert h.events[n - 1].charge in Charges(h.events);
      } else if h.events[n - 1].Lost? {
        assert FaithfulAt(cron, h, n - 2);
        assert h.events[n - 2].charge in Charges(h.events);
      }
    }
  }

  lemma ChargesOneMore(events: seq<Event>)
    requires events != []
    ensures var n := |events| - 1;
            Charges(events) == Charges(events[..n]) + if events[n].Ran? then {events[n].charge} else {}
  {
    var n := |events| - 1;
    forall k | 0 <= k < n ensures events[..n][k] == events[k] {}
  }

  /** Every execution is the first for its occurrence, or repeats one whose write was lost. */
  lemma {:induction false} RunsCounted(cron: Cron, h: History)
    requires IsCron(cron) && Faithful(cron, h)
    ensures Runs(h.events) + (if EndsLost(h.events) then 1 else 0) == |Charges(h.events)| + Losses(h.events)
    decreases |h.events|
  {
    if h.events != [] {
      FaithfulPrefix(cron, h);
      RunsCounted(cron, h.(events := h.events[..|h.events| - 1]));
      RunsCountedStep(cron, h);
    }
  }

  lemma RunsCountedStep(cron: Cron, h: History)
    requires IsCron(cron) && Faithful(cron, h) && h.events != []
    requires var front := h.events[..|h.events| - 1];
             Runs(front) + (if EndsLost(front) then 1 else 0) == |Charges(front)| + Losses(front)
    ensures Runs(h.events) + (if EndsLost(h.events) then 1 else 0) == |Charges(h.events)| + Losses(h.events)
  {
    var n := |h.events| - 1;
    var front := h.events[..n];
    FaithfulPrefix(cron, h);
    ChargedSoFar(cron, h.(events := front));
    ChargesOneMore(h.events);
    assert FaithfulAt(cron, h, n);
    assert Charge(cron, h, n) == Charge(cron, h.(events := front), n);
    if n > 0 { assert front[n - 1] == h.events[n - 1]; }
  }

  /** The occurrences after a task's creation, up to now. */
  function Firings(cron: Cron, h: History, now: int): set<int> {
    set o | h.created < o <= now && cron.fires(h.expr, o)
  }

  lemma EmptyInv(cron: Cron)
    ensures Inv(cron, EMPTY)
  {}

  /**
    In every run whose ticks start uncontended, whatever fails: a task is
    executed at most as often as its cron expression fires after its creation,
    plus once for every row write that was lost.
   */
  lemma RunsAtMostFirings(cron: Cron, steps: seq<Step>, i: int)
    requires IsCron(cron) && ClearRun(cron, EMPTY, steps) && i in Run(cron, EMPTY, steps).histories
    ensures var s := Run(cron, EMPTY, steps);
            var h := s.histories[i];
            && Runs(h.events) <= |Firings(cron, h, s.clock)| + Losses(h.events)
            && (Losses(h.events) == 0 ==> Runs(h.events) == |Charges(h.events)|)
            && Charges(h.events) <= Firings(cron, h, s.clock)
            && forall o :: o in Firings(cron, h, s.clock) <==> h.created < o <= s.clock && cron.fires(h.expr, o)
  {
    EmptyInv(cron);
    RunKeeps(cron, EMPTY, steps);
    var s := Run(cron, EMPTY, steps);
    var h := s.histories[i];
    assert HistoryOk(cron, h, s.clock);
    RunsCounted(cron, h);
    forall k | 0 <= k < |h.events| && h.events[k].Ran? ensures h.events[k].charge in Firings(cron, h, s.clock) {
      assert FaithfulAt(cron, h, k);
      ChargeMoves(cron, h, k, k);
    }
    SubsetSize(Charges(h.events), Firings(cron, h, s.clock));
    if EndsLost(h.events) { LossesPositive(h.events); }
  }

  lemma FaithfulInRun(cron: Cron, steps: seq<Step>, i: int)
    requires ClearRun(cron, EMPTY, steps) && i in Run(cron, EMPTY, steps).histories
    ensures Faithful(cron, Run(cron, EMPTY, steps).histories[i])
  {
    EmptyInv(cron);
    RunKeeps(cron, EMPTY, steps);
    assert HistoryOk(cron, Run(cron, EMPTY, steps).histories[i], Run(cron, EMPTY, steps).clock);
  }

  /**
    In every such run: of two executions of one row, the later is for a later
    occurrence, unless the earlier one's write was lost and nothing was written
    since; then it is for the same.
   */
  lemma OccurrencesIncrease(cron: Cron, steps: seq<Step>, i: int, p: nat, q: nat)
    requires IsCron(cron) && ClearRun(cron, EMPTY, steps) && i in Run(cron, EMPTY, steps).histories
    requires var events := Run(cron, EMPTY, steps).histories[i].events;
             p < q < |events| && events[p].Ran? && events[q].Ran?
    ensures var h := Run(cron, EMPTY, steps).histories[i];
            && cron.fires(h.expr, h.events[p].charge) && h.created < h.events[p].charge
            && (if StoredBetween(h, p, q) then h.events[p].charge < h.events[q].charge
                else h.events[p].charge == h.events[q].charge && h.events[p + 1].Lost?)
  {
    var h := Run(cron, EMPTY, steps).histories[i];
    FaithfulInRun(cron, steps, i);
    ChargesIncrease(cron, h, p, q);
    assert FaithfulAt(cron, h, p);
    ChargeMoves(cron, h, p, p);
  }

  /** In every such run: the execution after a write is for the first occurrence after it. */
  lemma NoneSkippedInRun(cron: Cron, steps: seq<Step>, i: int, k: nat, q: nat, o: int)
    requires IsCron(cron) && ClearRun(cron, EMPTY, steps) && i in Run(cron, EMPTY, steps).histories
    requires var h := Run(cron, EMPTY, steps).histories[i];
             && k < q < |h.events| && h.events[k].Stored? && h.events[q].Ran? && !StoredBetween(h, k + 1, q)
             && cron.fires(h.expr, o) && h.events[k].at < o
    ensures Run(cron, EMPTY, steps).histories[i].events[q].charge <= o
  {
    FaithfulInRun(cron, steps, i);
    NoneSkipped(cron, Run(cron, EMPTY, steps).histories[i], k, q, o);
  }

  lemma LossesPositive(events: seq<Event>)
    requires EndsLost(events)
    ensures Losses(events) > 0
  {}

  // ---------------------------------------------------------------------
  // Nothing due is lost
  // ---------------------------------------------------------------------

  ghost predicate Grows(h: History, h': History) {
    h'.expr == h.expr && h'.created == h.created && h.events <= h'.events
  }

  lemma {:induction false} HistoriesGrow(cron: Cron, s: State, steps: seq<Step>, i: int)
    requires Inv(cron, s) && ClearRun(cron, s, steps) && i in s.histories
    ensures i in Run(cron, s, steps).histories && Grows(s.histories[i], Run(cron, s, steps).histories[i])
    ensures s.clock <= Run(cron, s, steps).clock
    decreases steps
  {
    if steps != [] {
      StepKeeps(cron, s, steps[0]);
      assert Grows(s.histories[i], Next(cron, s, steps[0]).histories[i]);
      HistoriesGrow(cron, Next(cron, s, steps[0]), steps[1..], i);
    }
  }

  predicate ChargedIn(h: History, charge: int) {
    exists k :: 0 <= k < |h.events| && h.events[k] == Ran(charge)
  }

  lemma {:induction false} ChargeOfGrown(cron: Cron, h: History, h': History, n: nat)
    requires Grows(h, h') && n <= |h.events|
    ensures Charge(cron, h', n) == Charge(cron, h, n)
  {
    if n > 0 { ChargeOfGrown(cron, h, h', n - 1); }
  }

  /** A task that moved on has been executed for the occurrence it stood at. */
  lemma {:induction false} MovedMeansCharged(cron: Cron, h: History, m: nat, n: nat)
    requires Faithful(cron, h) && m <= n <= |h.events|
    ensures Charge(cron, h, n) == Charge(cron, h, m) || ChargedIn(h, Charge(cron, h, m))
    decreases n
  {
    if m < n {
      MovedMeansCharged(cron, h, m, n - 1);
      if h.events[n - 1].Stored? {
        assert FaithfulAt(cron, h, n - 1) && FaithfulAt(cron, h, n - 2);
        assert h.events[n - 2] == Ran(Charge(cron, h, n - 2));
        assert Charge(cron, h, n - 2) == Charge(cron, h, n - 1);
      }
    }
  }

  /** A due task, later on, is deleted, disabled, still due, or has been executed for that occurrence. */
  lemma NoDueTaskLost(cron: Cron, s: State, steps: seq<Step>, i: int)
    requires Inv(cron, s) && ClearRun(cron, s, steps)
    requires i in s.tasks && s.tasks[i].enabled && s.tasks[i].nextRunAt <= s.clock
    ensures var s' := Run(cron, s, steps);
            i in s'.tasks && s'.tasks[i].enabled ==>
              s'.tasks[i].nextRunAt <= s'.clock
              || (i in s'.histories && ChargedIn(s'.histories[i], s.tasks[i].nextRunAt))
  {
    var s' := Run(cron, s, steps);
    RunKeeps(cron, s, steps);
    HistoriesGrow(cron, s, steps, i);
    if i in s'.tasks {
      var h, h' := s.histories[i], s'.histories[i];
      ChargeOfGrown(cron, h, h', |h.events|);
      assert HistoryOk(cron, h', s'.clock);
      MovedMeansCharged(cron, h', |h.events|, |h'.events|);
    }
  }

  /** The rows a tick has dropped from its list were executed for the occurrences it read. */
  predicate Served(before: Tick, after: Tick, histories: map<int, History>) {
    && |after.due| <= |before.due| && after.due == before.due[|before.due| - |after.due|..]
    && forall j :: 0 <= j < |before.due| - |after.due| ==>
         before.due[j].id in histories && ChargedIn(histories[before.due[j].id], before.due[j].nextRunAt)
  }

  lemma ServedStep(cron: Cron, s: State, step: Step, t: int)
    requires Inv(cron, s) && Clear(s, step) && t in s.ticks && t in Next(cron, s, step).ticks
    ensures Served(s.ticks[t], Next(cron, s, step).ticks[t], Next(cron, s, step).histories)
  {
    var s' := Next(cron, s, step);
    if step == Finish(t, true) && s'.ticks[t] != s.ticks[t] {
      var d := s.ticks[t].due[0];
      assert Reaches(s.tasks, s.ticks[t].due, 0);
      var h, h' := s.histories[d.id], s'.histories[d.id];
      var n := |h.events| - 1;
      assert FaithfulAt(cron, h, n);
      assert h'.events[n] == h.events[n] == Ran(d.nextRunAt);
    }
  }

  lemma ServedTwice(a: Tick, b: Tick, c: Tick, histories: map<int, History>, histories': map<int, History>)
    requires Served(a, b, histories) && Served(b, c, histories')
    requires forall i :: i in histories ==> i in histories' && Grows(histories[i], histories'[i])
    ensures Served(a, c, histories')
  {
    var m, n := |a.due| - |b.due|, |b.due| - |c.due|;
    assert c.due == a.due[m + n..];
    forall j | 0 <= j < m + n
      ensures a.due[j].id in histories' && ChargedIn(histories'[a.due[j].id], a.due[j].nextRunAt)
    {
      if j < m {
        var i := a.due[j].id;
        var k :| 0 <= k < |histories[i].events| && histories[i].events[k] == Ran(a.due[j].nextRunAt);
        assert histories'[i].events[k] == histories[i].events[k];
      } else {
        assert a.due[j] == b.due[j - m];
      }
    }
  }

  lemma {:induction false} GoneTickStaysGone(cron: Cron, s: State, steps: seq<Step>, t: int)
    requires t !in s.ticks && t < s.nextId
    ensures t !in Run(cron, s, steps).ticks
    decreases steps
  {
    if steps != [] { GoneTickStaysGone(cron, Next(cron, s, steps[0]), steps[1..], t); }
  }

  /** A tick still in flight, or through its list, has executed every row it has left behind. */
  lemma {:induction false} TickServes(cron: Cron, s: State, steps: seq<Step>, t: int)
    requires Inv(cron, s) && ClearRun(cron, s, steps) && t in s.ticks && t in Run(cron, s, steps).ticks
    ensures Served(s.ticks[t], Run(cron, s, steps).ticks[t], Run(cron, s, steps).histories)
    decreases steps
  {
    if steps != [] {
      var s1 := Next(cron, s, steps[0]);
      StepKeeps(cron, s, steps[0]);
      if t !in s1.ticks {
        GoneTickStaysGone(cron, s1, steps[1..], t);
        assert false;
      } else {
        ServedStep(cron, s, steps[0], t);
        TickServes(cron, s1, steps[1..], t);
        var s' := Run(cron, s1, steps[1..]);
        forall i | i in s1.histories ensures i in s'.histories && Grows(s1.histories[i], s'.histories[i]) {
          HistoriesGrow(cron, s1, steps[1..], i);
        }
        ServedTwice(s.ticks[t], s1.ticks[t], s'.ticks[t], s1.histories, s'.histories);
      }
    }
  }

  // ---------------------------------------------------------------------
  // When a tick may start
  // ---------------------------------------------------------------------

  /** Executing and writing the first `k` rows of a tick. */
  function Work(t: int, k: nat): seq<Step> {
    if k == 0 then [] else [Execute(t), Finish(t, true)] + Work(t, k - 1)
  }

  predicate NoTickStarts(steps: seq<Step>) {
    forall k :: 0 <= k < |steps| ==> !steps[k].StartTick?
  }

  lemma {:induction false} ClearWithoutStarts(cron: Cron, s: State, steps: seq<Step>)
    requires NoTickStarts(steps)
    ensures ClearRun(cron, s, steps)
    decreases steps
  {
    if steps != [] {
      assert !steps[0].StartTick?;
      assert NoTickStarts(steps[1..]);
      ClearWithoutStarts(cron, Next(cron, s, steps[0]), steps[1..]);
    }
  }

  lemma {:induction false} WorkStartsNothing(t: int, k: nat)
    ensures NoTickStarts(Work(t, k))
  {
    if k > 0 {
      WorkStartsNothing(t, k - 1);
    }
  }

  /** `s'` is `s` after tick `t` worked on some rows, none of them `i`. */
  ghost predicate WorkedBeside(s: State, s': State, t: int, i: int) {
    && s'.tasks.Keys == s.tasks.Keys && s'.clock == s.clock
    && (i in s.tasks ==> s'.tasks[i] == s.tasks[i])
    && (i in s.histories ==> i in s'.histories && s'.histories[i] == s.histories[i])
    && (forall u :: u in s.ticks && u != t ==> u in s'.ticks && s'.ticks[u] == s.ticks[u])
  }

  lemma RoundBeside(cron: Cron, s: State, t: int, i: int)
    requires t in s.ticks && !s.ticks[t].executed && s.ticks[t].due != []
    requires s.ticks[t].due[0].id in s.tasks && s.ticks[t].due[0].id != i
    ensures var s' := Next(cron, Next(cron, s, Execute(t)), Finish(t, true));
            WorkedBeside(s, s', t, i) && t in s'.ticks && s'.ticks[t] == Tick(s.ticks[t].due[1..], false)
  {}

  lemma {:induction false} WorkBeside(cron: Cron, s: State, t: int, k: nat, i: int)
    requires t in s.ticks && !s.ticks[t].executed && k <= |s.ticks[t].due|
    requires forall j :: 0 <= j < k ==> s.ticks[t].due[j].id in s.tasks && s.ticks[t].due[j].id != i
    ensures var s' := Run(cron, s, Work(t, k));
            WorkedBeside(s, s', t, i) && t in s'.ticks && s'.ticks[t] == Tick(s.ticks[t].due[k..], false)
    decreases k
  {
    if k > 0 {
      var round := [Execute(t), Finish(t, true)];
      RunInParts(cron, s, round, Work(t, k - 1));
      assert round[1..] == [Finish(t, true)];
      var s1 := Next(cron, Next(cron, s, Execute(t)), Finish(t, true));
      assert Run(cron, Next(cron, s, Execute(t)), [Finish(t, true)]) == s1;
      assert Run(cron, s, round) == s1;
      RoundBeside(cron, s, t, i);
      forall j | 0 <= j < k - 1 ensures s1.ticks[t].due[j].id in s1.tasks && s1.ticks[t].due[j].id != i {
        assert s1.ticks[t].due[j] == s.ticks[t].due[j + 1];
      }
      WorkBeside(cron, s1, t, k - 1, i);
      assert s.ticks[t].due[1..][k - 1..] == s.ticks[t].due[k..];
    }
  }

  /** Working a tick's list up to row `k`, then executing that row. */
  function WorkThrough(tick: Tick, t: int, k: nat): seq<Step> {
    if k == 0 then if tick.executed then [] else [Execute(t)]
    else if tick.executed then [Finish(t, true)] + Work(t, k - 1) + [Execute(t)]
    else Work(t, k) + [Execute(t)]
  }

  lemma WorkThroughStartsNothing(tick: Tick, t: int, k: nat)
    ensures NoTickStarts(WorkThrough(tick, t, k))
  {
    WorkStartsNothing(t, k);
    if k > 0 { WorkStartsNothing(t, k - 1); }
  }

  /** `s'` is `s` after tick `t` has got as far as executing its row for `i`, if it had not yet. */
  ghost predicate ExecutedNext(s: State, s': State, t: int, k: nat)
    requires t in s.ticks && k < |s.ticks[t].due|
  {
    var d := s.ticks[t].due[k];
    var already := k == 0 && s.ticks[t].executed;
    && s'.tasks.Keys == s.tasks.Keys
    && (d.id in s.histories ==>
          d.id in s'.histories
          && s'.histories[d.id].events
             == if already then s.histories[d.id].events else s.histories[d.id].events + [Ran(d.nextRunAt)])
    && (forall u :: u in s.ticks && u != t ==> u in s'.ticks && s'.ticks[u] == s.ticks[u])
  }

  lemma WorkThroughExecutes(cron: Cron, s: State, t: int, k: nat)
    requires t in s.ticks && TickDistinct(s.ticks[t]) && Reaches(s.tasks, s.ticks[t].due, k)
    ensures ExecutedNext(s, Run(cron, s, WorkThrough(s.ticks[t], t, k)), t, k)
  {
    var tick, i := s.ticks[t], s.ticks[t].due[k].id;
    if !tick.executed {
      WorkThenExecute(cron, s, t, k);
      assert Work(t, 0) + [Execute(t)] == [Execute(t)];
    } else if k > 0 {
      var s1 := Next(cron, s, Finish(t, true));
      var rest := Work(t, k - 1) + [Execute(t)];
      assert WorkThrough(tick, t, k) == [Finish(t, true)] + rest;
      assert ([Finish(t, true)] + rest)[1..] == rest;
      assert Run(cron, s, WorkThrough(tick, t, k)) == Run(cron, s1, rest);
      assert WorkedBeside(s, s1, t, i);
      assert Reaches(s1.tasks, s1.ticks[t].due, k - 1) by {
        forall j | 0 <= j < k - 1 ensures s1.ticks[t].due[j].id in s1.tasks {
          assert s1.ticks[t].due[j] == tick.due[j + 1];
        }
      }
      WorkThenExecute(cron, s1, t, k - 1);
    }
  }

  predicate TickDistinct(tick: Tick) {
    forall j, k :: 0 <= j < k < |tick.due| ==> tick.due[j].id != tick.due[k].id
  }

  lemma WorkThenExecute(cron: Cron, s: State, t: int, k: nat)
    requires t in s.ticks && !s.ticks[t].executed && TickDistinct(s.ticks[t]) && Reaches(s.tasks, s.ticks[t].due, k)
    ensures ExecutedNext(s, Run(cron, s, Work(t, k) + [Execute(t)]), t, k)
  {
    var i := s.ticks[t].due[k].id;
    WorkBeside(cron, s, t, k, i);
    RunInParts(cron, s, Work(t, k), [Execute(t)]);
    var s1 := Run(cron, s, Work(t, k));
    assert Run(cron, s1, [Execute(t)]) == Next(cron, s1, Execute(t));
    assert s.ticks[t].due[k..][0] == s.ticks[t].due[k];
  }

  /** The last two events are two executions for the same occurrence, with no write and no loss between. */
  predicate Repeats(h: History) {
    var n := |h.events|;
    n >= 2 && h.events[n - 1].Ran? && h.events[n - 2] == h.events[n - 1]
  }

  predicate RepeatsAt(s: State, i: int) { i in s.histories && Repeats(s.histories[i]) }

  /** A tick that starts while another still reaches a due task can run it twice for one occurrence. */
  lemma ContendedTickRepeats(cron: Cron, s: State, order: seq<int>, a: int, k: int)
    requires Inv(cron, s) && IsDueListing(s.tasks, s.clock, order)
    requires a in s.ticks && Reaches(s.tasks, s.ticks[a].due, k) && IsDue(s.tasks, s.clock, s.ticks[a].due[k].id)
    ensures exists rest :: NoTickStarts(rest)
              && RepeatsAt(Run(cron, Next(cron, s, StartTick(order)), rest), s.ticks[a].due[k].id)
  {
    var s0 := Next(cron, s, StartTick(order));
    var b, d := s.nextId, s.ticks[a].due[k];
    assert a != b && s0.ticks[a] == s.ticks[a];
    var m :| 0 <= m < |order| && order[m] == d.id;
    var first := WorkThrough(s0.ticks[a], a, k);
    WorkThroughExecutes(cron, s0, a, k);
    var s1 := Run(cron, s0, first);
    assert s1.ticks[b] == s0.ticks[b];
    assert Reaches(s1.tasks, s1.ticks[b].due, m);
    var second := WorkThrough(s1.ticks[b], b, m);
    WorkThroughExecutes(cron, s1, b, m);
    BothCharge(cron, s, a, k);
    assert RepeatsAt(Run(cron, s1, second), d.id);
    RunInParts(cron, s0, first, second);
    WorkThroughStartsNothing(s0.ticks[a], a, k);
    WorkThroughStartsNothing(s1.ticks[b], b, m);
    assert NoTickStarts(first + second);
  }

  /** The row a tick reaches: not executed yet, or executed last, for the occurrence the row still stands at. */
  lemma BothCharge(cron: Cron, s: State, a: int, k: int)
    requires Inv(cron, s) && a in s.ticks && Reaches(s.tasks, s.ticks[a].due, k)
    requires s.ticks[a].due[k].id in s.tasks
    ensures var d := s.ticks[a].due[k];
            && d.id in s.histories && d.nextRunAt == s.tasks[d.id].nextRunAt
            && (k == 0 && s.ticks[a].executed ==>
                  s.histories[d.id].events != []
                  && s.histories[d.id].events[|s.histories[d.id].events| - 1] == Ran(d.nextRunAt))
  {
    var d := s.ticks[a].due[k];
    var h := s.histories[d.id];
    if k == 0 && s.ticks[a].executed {
      assert FaithfulAt(cron, h, |h.events| - 1);
    }
  }

  ghost predicate AllFaithful(cron: Cron, s: State) {
    forall i :: i in s.histories ==> Faithful(cron, s.histories[i])
  }

  lemma UncontendedStaysFaithful(cron: Cron, s: State, order: seq<int>, rest: seq<Step>)
    requires Inv(cron, s) && IsDueListing(s.tasks, s.clock, order) && Uncontended(s)
    requires ClearRun(cron, Next(cron, s, StartTick(order)), rest)
    ensures AllFaithful(cron, Run(cron, Next(cron, s, StartTick(order)), rest))
  {
    var s0 := Next(cron, s, StartTick(order));
    StartTickKeeps(cron, s, order);
    RunKeeps(cron, s0, rest);
    var s' := Run(cron, s0, rest);
    forall i | i in s'.histories ensures Faithful(cron, s'.histories[i]) {
      assert HistoryOk(cron, s'.histories[i], s'.clock);
    }
  }

  lemma ContendedCanGoWrong(cron: Cron, s: State, order: seq<int>)
    requires Inv(cron, s) && IsDueListing(s.tasks, s.clock, order) && !Uncontended(s)
    ensures exists rest :: ClearRun(cron, Next(cron, s, StartTick(order)), rest)
                           && !AllFaithful(cron, Run(cron, Next(cron, s, StartTick(order)), rest))
  {
    var s0 := Next(cron, s, StartTick(order));
    var a, k :| a in s.ticks && Reaches(s.tasks, s.ticks[a].due, k) && IsDue(s.tasks, s.clock, s.ticks[a].due[k].id);
    ContendedTickRepeats(cron, s, order, a, k);
    var i := s.ticks[a].due[k].id;
    var rest :| NoTickStarts(rest) && RepeatsAt(Run(cron, s0, rest), i);
    ClearWithoutStarts(cron, s0, rest);
    RepeatsIsUnfaithful(cron, Run(cron, s0, rest).histories[i]);
  }

  /**
    A tick may start exactly when no tick in flight still reaches a due task:
    then nothing that follows repeats an occurrence without a lost write; otherwise
    something that can follow does.
   */
  lemma ClearIsExact(cron: Cron, s: State, order: seq<int>)
    requires Inv(cron, s) && IsDueListing(s.tasks, s.clock, order)
    ensures Uncontended(s) <==>
            forall rest :: ClearRun(cron, Next(cron, s, StartTick(order)), rest) ==>
                             AllFaithful(cron, Run(cron, Next(cron, s, StartTick(order)), rest))
  {
    if Uncontended(s) {
      forall rest | ClearRun(cron, Next(cron, s, StartTick(order)), rest)
        ensures AllFaithful(cron, Run(cron, Next(cron, s, StartTick(order)), rest))
      {
        UncontendedStaysFaithful(cron, s, order, rest);
      }
    } else {
      ContendedCanGoWrong(cron, s, order);
    }
  }

  lemma RepeatsIsUnfaithful(cron: Cron, h: History)
    requires Repeats(h)
    ensures !Faithful(cron, h)
  {
    assert !FaithfulAt(cron, h, |h.events| - 1);
  }

  /** After the first `k` steps, every tick is through its list or gone. */
  predicate TicksThrough(cron: Cron, s: State, steps: seq<Step>, k: nat)
    requires k <= |steps|
  {
    forall t :: t in Run(cron, s, steps[..k]).ticks ==> Run(cron, s, steps[..k]).ticks[t].due == []
  }

  /** All that holds of clear runs holds of runs in which every tick starts when the ones before it are through. */
  lemma {:induction false} OneTickIsClear(cron: Cron, s: State, steps: seq<Step>)
    requires forall k :: 0 <= k < |steps| && steps[k].StartTick? ==> TicksThrough(cron, s, steps, k)
    ensures ClearRun(cron, s, steps)
    decreases steps
  {
    if steps != [] {
      var next, rest := Next(cron, s, steps[0]), steps[1..];
      if steps[0].StartTick? {
        assert TicksThrough(cron, s, steps, 0) && Run(cron, s, steps[..0]) == s;
        OneAtATimeIsClear(s);
      }
      forall k | 0 <= k < |rest| && rest[k].StartTick? ensures TicksThrough(cron, next, rest, k) {
        assert steps[..k + 1][0] == steps[0] && steps[..k + 1][1..] == rest[..k];
        assert Run(cron, s, steps[..k + 1]) == Run(cron, next, rest[..k]);
        assert TicksThrough(cron, s, steps, k + 1);
      }
      OneTickIsClear(cron, next, rest);
    }
  }

  /** Ticks that never overlap start uncontended: one tick at a time is enough. */
  lemma OneAtATimeIsClear(s: State)
    requires forall t :: t in s.ticks ==> s.ticks[t].due == []
    ensures Uncontended(s)
  {}

  // ---------------------------------------------------------------------
  // Overlapping ticks, from the empty table
  // ---------------------------------------------------------------------

  /** A task is created, falls due, and a first tick has read it. */
  function TickUnderWay(cron: Cron, expr: string): seq<Step>
    requires cron.next(expr, 0) > 0
  {
    [Create(expr, 0), Advance(cron.next(expr, 0)), StartTick([0])]
  }

  /** The state it leads to. */
  function Reading(cron: Cron, expr: string): State {
    var c := cron.next(expr, 0);
    State(c, map[0 := Task(expr, true, c, None)], map[1 := Tick([Due(0, expr, c)], false)],
          map[0 := History(expr, 0, [])], 2)
  }

  lemma TickUnderWayRuns(cron: Cron, expr: string)
    requires cron.next(expr, 0) > 0
    ensures Run(cron, EMPTY, TickUnderWay(cron, expr)) == Reading(cron, expr)
    ensures ClearRun(cron, EMPTY, TickUnderWay(cron, expr))
  {
    var steps, c := TickUnderWay(cron, expr), cron.next(expr, 0);
    var s1 := Next(cron, EMPTY, steps[0]);
    var s2 := Next(cron, s1, steps[1]);
    assert steps[1..] == [steps[1], steps[2]] && steps[1..][1..] == [steps[2]] && steps[1..][1..][1..] == [];
    assert IsDueListing(s2.tasks, s2.clock, [0]) && ReadRows(s2.tasks, [0]) == [Due(0, expr, c)];
    assert s2 == State(c, map[0 := Task(expr, true, c, None)], map[], map[0 := History(expr, 0, [])], 1);
    var s3 := Next(cron, s2, steps[2]);
    assert s3.ticks == Reading(cron, expr).ticks;
    assert s3 == Reading(cron, expr);
    assert Run(cron, s3, []) == s3 && ClearRun(cron, s3, []);
    assert Run(cron, EMPTY, steps) == Run(cron, s1, steps[1..]) == Run(cron, s2, steps[1..][1..]);
    assert ClearRun(cron, s2, steps[1..][1..]);
    assert ClearRun(cron, s1, steps[1..]);
  }

  /** The next tick starts before the first one has written: one occurrence is executed twice. */
  lemma OverlappingTicksRepeat(cron: Cron, expr: string)
    requires IsCron(cron)
    ensures cron.next(expr, 0) > 0 && ClearRun(cron, EMPTY, TickUnderWay(cron, expr))
    ensures var s := Run(cron, EMPTY, TickUnderWay(cron, expr));
            && IsDueListing(s.tasks, s.clock, [0]) && !Uncontended(s)
            && var s' := Run(cron, s, [StartTick([0]), Execute(1), Execute(2)]);
               0 in s'.histories && s'.histories[0].events == [Ran(cron.next(expr, 0)), Ran(cron.next(expr, 0))]
  {
    var s, c := Reading(cron, expr), cron.next(expr, 0);
    TickUnderWayRuns(cron, expr);
    assert Reaches(s.tasks, s.ticks[1].due, 0) && IsDue(s.tasks, s.clock, s.ticks[1].due[0].id);
    var rest := [StartTick([0]), Execute(1), Execute(2)];
    assert rest[1..] == [Execute(1), Execute(2)] && rest[1..][1..] == [Execute(2)] && rest[1..][1..][1..] == [];
    var s1 := Next(cron, s, rest[0]);
    assert IsDueListing(s.tasks, s.clock, [0]) && ReadRows(s.tasks, [0]) == [Due(0, expr, c)];
    assert s1.ticks == map[1 := Tick([Due(0, expr, c)], false), 2 := Tick([Due(0, expr, c)], false)];
    var s2 := Next(cron, s1, rest[1]);
    assert s2.histories[0].events == [] + [Ran(c)] == [Ran(c)];
    assert s2.ticks[2] == s1.ticks[2];
    var s3 := Next(cron, s2, rest[2]);
    assert s3.histories[0].events == [Ran(c)] + [Ran(c)];
    assert Run(cron, s, rest) == Run(cron, s1, rest[1..]) == Run(cron, s2, rest[1..][1..]);
    assert Run(cron, s2, [rest[2]]) == Run(cron, s3, []) == s3;
  }
}
