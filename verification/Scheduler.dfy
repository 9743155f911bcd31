/**
  scheduled-tasks.service.ts: tasks with a cron expression, and a tick that runs
  what is due. A tick works on the rows it read when it started; requests and
  other ticks run between its awaits.
 */
module Scheduler {
  import opened Wrappers

  /** A cron grammar: when an expression fires, and its first occurrence after a time. */
  datatype Cron = Cron(fires: (string, int) -> bool, next: (string, int) -> int)

  ghost predicate IsCron(cron: Cron) {
    forall e: string, t: int ::
      && t < cron.next(e, t) && cron.fires(e, cron.next(e, t))
      && forall u :: t < u < cron.next(e, t) ==> !cron.fires(e, u)
  }

  datatype Task = Task(expr: string, enabled: bool, nextRunAt: int, lastRunAt: Option<int>)

  /** A row as a tick read it. */
  datatype Due = Due(id: int, expr: string, nextRunAt: int)

  /** A tick in flight: the rows still to do, and whether the first one has been executed. */
  datatype Tick = Tick(due: seq<Due>, executed: bool)

  /** What happened to a task: executed for an occurrence, then its row written at a time, or not written. */
  datatype Event = Ran(charge: int) | Stored(at: int) | Lost

  datatype History = History(expr: string, created: int, events: seq<Event>)

  datatype State = State(
    clock: int,
    tasks: map<int, Task>,
    ticks: map<int, Tick>,
    histories: map<int, History>,
    nextId: int)

  const EMPTY := State(0, map[], map[], map[], 0)

  datatype Step =
    | Advance(elapsed: nat)
    | Create(expr: string, at: int)
    | SetEnabled(id: int, enabled: bool)
    | Delete(id: int)
    | StartTick(order: seq<int>)
    | Execute(tick: int)
    | Finish(tick: int, stored: bool)

  predicate IsDue(tasks: map<int, Task>, clock: int, id: int) {
    id in tasks && tasks[id].enabled && tasks[id].nextRunAt <= clock
  }

  /** `order` lists the due tasks, in the order the database gives them. */
  predicate IsDueListing(tasks: map<int, Task>, clock: int, order: seq<int>) {
    && (forall k :: 0 <= k < |order| ==> IsDue(tasks, clock, order[k]))
    && (forall id :: id in tasks && IsDue(tasks, clock, id) ==> id in order)
    && (forall j, k :: 0 <= j < k < |order| ==> order[j] != order[k])
  }

  function ReadRow(tasks: map<int, Task>, id: int): Due
    requires id in tasks
  {
    Due(id, tasks[id].expr, tasks[id].nextRunAt)
  }

  function ReadRows(tasks: map<int, Task>, order: seq<int>): seq<Due>
    requires forall k :: 0 <= k < |order| ==> order[k] in tasks
  {
    seq(|order|, k requires 0 <= k < |order| => ReadRow(tasks, order[k]))
  }

  function Log(histories: map<int, History>, id: int, e: Event): map<int, History> {
    if id in histories then histories[id := histories[id].(events := histories[id].events + [e])] else histories
  }

  /** The next run is computed at `at`, the row inserted now. */
  function AfterCreate(cron: Cron, s: State, expr: string, at: int): State {
    if s.clock < at then s
    else
      s.(tasks := s.tasks[s.nextId := Task(expr, true, cron.next(expr, at), None)],
         histories := s.histories[s.nextId := History(expr, at, [])],
         nextId := s.nextId + 1)
  }

  function AfterSetEnabled(s: State, id: int, enabled: bool): State {
    if id !in s.tasks then s else s.(tasks := s.tasks[id := s.tasks[id].(enabled := enabled)])
  }

  function AfterStartTick(s: State, order: seq<int>): State {
    if !IsDueListing(s.tasks, s.clock, order) then s
    else
      s.(ticks := s.ticks[s.nextId := Tick(ReadRows(s.tasks, order), false)], nextId := s.nextId + 1)
  }

  function AfterExecute(s: State, tick: int): State {
    if tick !in s.ticks || s.ticks[tick].executed || s.ticks[tick].due == [] then s
    else
      var d := s.ticks[tick].due[0];
      s.(ticks := s.ticks[tick := s.ticks[tick].(executed := true)],
         histories := Log(s.histories, d.id, Ran(d.nextRunAt)))
  }

  /** The row update in the finally block; when it throws, the loop ends there. */
  function AfterFinish(cron: Cron, s: State, tick: int, stored: bool): State {
    if tick !in s.ticks || !s.ticks[tick].executed || s.ticks[tick].due == [] then s
    else
      var d := s.ticks[tick].due[0];
      if d.id in s.tasks && stored then
        s.(tasks := s.tasks[d.id := s.tasks[d.id].(nextRunAt := cron.next(d.expr, s.clock), lastRunAt := Some(s.clock))],
           ticks := s.ticks[tick := Tick(s.ticks[tick].due[1..], false)],
           histories := Log(s.histories, d.id, Stored(s.clock)))
      else
        s.(ticks := s.ticks - {tick}, histories := Log(s.histories, d.id, Lost))
  }

  function Next(cron: Cron, s: State, step: Step): State {
    match step
    case Advance(elapsed) => s.(clock := s.clock + elapsed)
    case Create(expr, at) => AfterCreate(cron, s, expr, at)
    case SetEnabled(id, enabled) => AfterSetEnabled(s, id, enabled)
    case Delete(id) => s.(tasks := s.tasks - {id})
    case StartTick(order) => AfterStartTick(s, order)
    case Execute(tick) => AfterExecute(s, tick)
    case Finish(tick, stored) => AfterFinish(cron, s, tick, stored)
  }

  function Run(cron: Cron, s: State, steps: seq<Step>): State
    decreases steps
  {
    if steps == [] then s else Run(cron, Next(cron, s, steps[0]), steps[1..])
  }

  lemma {:induction false} RunInParts(cron: Cron, s: State, a: seq<Step>, b: seq<Step>)
    ensures Run(cron, s, a + b) == Run(cron, Run(cron, s, a), b)
    decreases a
  {
    if a == [] {
      assert a + b == b;
    } else {
      assert (a + b)[1..] == a[1..] + b;
      RunInParts(cron, Next(cron, s, a[0]), a[1..], b);
    }
  }

  // ---------------------------------------------------------------------
  // What a history must look like
  // ---------------------------------------------------------------------

  /** The occurrence a task stands at after `n` events: the first one after its creation or its last write. */
  function Charge(cron: Cron, h: History, n: nat): int
    requires n <= |h.events|
  {
    if n == 0 then cron.next(h.expr, h.created)
    else if h.events[n - 1].Stored? then cron.next(h.expr, h.events[n - 1].at)
    else Charge(cron, h, n - 1)
  }

  /** Each execution is charged to the occurrence its row stands at, and is followed by one write or one loss. */
  ghost predicate Faithful(cron: Cron, h: History) {
    forall k {:trigger h.events[k]} :: 0 <= k < |h.events| ==> FaithfulAt(cron, h, k)
  }

  ghost predicate FaithfulAt(cron: Cron, h: History, k: nat)
    requires k < |h.events|
  {
    match h.events[k]
    case Ran(charge) => charge == Charge(cron, h, k) && !Busy(h, k)
    case Stored(at) => Busy(h, k) && Charge(cron, h, k) <= at
    case Lost => Busy(h, k)
  }

  /** The last of the first `n` events is an execution not yet followed up. */
  predicate Busy(h: History, n: nat)
    requires n <= |h.events|
  {
    n > 0 && h.events[n - 1].Ran?
  }

  lemma {:induction false} ChargeExtends(cron: Cron, h: History, e: Event, n: nat)
    requires n <= |h.events|
    ensures Charge(cron, h.(events := h.events + [e]), n) == Charge(cron, h, n)
  {
    if n > 0 && !h.events[n - 1].Stored? { ChargeExtends(cron, h, e, n - 1); }
  }

  lemma FaithfulExtends(cron: Cron, h: History, e: Event)
    requires Faithful(cron, h)
    requires match e
             case Ran(c) => c == Charge(cron, h, |h.events|) && !Busy(h, |h.events|)
             case Stored(at) => Busy(h, |h.events|) && Charge(cron, h, |h.events|) <= at
             case Lost => Busy(h, |h.events|)
    ensures Faithful(cron, h.(events := h.events + [e]))
    ensures Charge(cron, h.(events := h.events + [e]), |h.events| + 1)
            == if e.Stored? then cron.next(h.expr, e.at) else Charge(cron, h, |h.events|)
  {
    var h' := h.(events := h.events + [e]);
    forall k | 0 <= k < |h'.events| ensures FaithfulAt(cron, h', k) {
      ChargeExtends(cron, h, e, k);
      if k < |h.events| { assert FaithfulAt(cron, h, k); }
    }
    ChargeExtends(cron, h, e, |h.events|);
  }

  // ---------------------------------------------------------------------
  // The invariant
  // ---------------------------------------------------------------------

  /** The tick gets as far as its row `k`: no row before it is gone. */
  predicate Reaches(tasks: map<int, Task>, due: seq<Due>, k: int) {
    0 <= k < |due| && forall j :: 0 <= j < k ==> due[j].id in tasks
  }

  ghost predicate HistoryOk(cron: Cron, h: History, clock: int) {
    && Faithful(cron, h) && h.created <= clock
    && forall k :: 0 <= k < |h.events| ==>
         (h.events[k].Stored? ==> h.events[k].at <= clock) && (h.events[k].Ran? ==> h.events[k].charge <= clock)
  }

  ghost predicate HistoriesOk(cron: Cron, histories: map<int, History>, clock: int) {
    forall i :: i in histories ==> HistoryOk(cron, histories[i], clock)
  }

  /** A row stands where its history says. */
  predicate RowOk(cron: Cron, row: Task, h: History) {
    row.expr == h.expr && row.nextRunAt == Charge(cron, h, |h.events|)
  }

  ghost predicate RowsOk(cron: Cron, tasks: map<int, Task>, histories: map<int, History>) {
    forall i :: i in tasks ==> i in histories && RowOk(cron, tasks[i], histories[i])
  }

  /** A row in a tick's hands that the tick reaches is as its history says. */
  predicate HeldOk(cron: Cron, d: Due, h: History, executed: bool, clock: int) {
    && d.expr == h.expr && d.nextRunAt == Charge(cron, h, |h.events|) && d.nextRunAt <= clock
    && (executed <==> Busy(h, |h.events|))
  }

  ghost predicate TickOk(cron: Cron, tick: Tick, tasks: map<int, Task>, histories: map<int, History>, clock: int) {
    && (tick.executed ==> tick.due != [])
    && (forall j, k :: 0 <= j < k < |tick.due| ==> tick.due[j].id != tick.due[k].id)
    && (forall k {:trigger tick.due[k]} :: Reaches(tasks, tick.due, k) ==>
          tick.due[k].id in histories
          && HeldOk(cron, tick.due[k], histories[tick.due[k].id], k == 0 && tick.executed, clock))
  }

  ghost predicate TicksOk(cron: Cron, ticks: map<int, Tick>, tasks: map<int, Task>, histories: map<int, History>,
                          clock: int) {
    forall t :: t in ticks ==> TickOk(cron, ticks[t], tasks, histories, clock)
  }

  /** No task is reached by two ticks. */
  ghost predicate Exclusive(ticks: map<int, Tick>, tasks: map<int, Task>) {
    forall a, b, j, k {:trigger Reaches(tasks, ticks[a].due, j), Reaches(tasks, ticks[b].due, k)} ::
      a in ticks && b in ticks && a != b && Reaches(tasks, ticks[a].due, j) && Reaches(tasks, ticks[b].due, k)
      ==> ticks[a].due[j].id != ticks[b].due[k].id
  }

  /** Some tick has executed it and has not written its row yet. */
  ghost predicate Writing(ticks: map<int, Tick>, i: int) {
    exists t :: t in ticks && ticks[t].executed && ticks[t].due != [] && ticks[t].due[0].id == i
  }

  ghost predicate BusyRows(ticks: map<int, Tick>, tasks: map<int, Task>, histories: map<int, History>) {
    forall i :: i in tasks && i in histories && Busy(histories[i], |histories[i].events|) ==> Writing(ticks, i)
  }

  ghost predicate FreshIds(s: State) {
    && (forall t :: t in s.ticks ==> t < s.nextId)
    && (forall i :: i in s.histories ==> i < s.nextId)
    && (forall t, k :: t in s.ticks && 0 <= k < |s.ticks[t].due| ==> s.ticks[t].due[k].id < s.nextId)
  }

  ghost predicate Inv(cron: Cron, s: State) {
    && HistoriesOk(cron, s.histories, s.clock)
    && RowsOk(cron, s.tasks, s.histories)
    && TicksOk(cron, s.ticks, s.tasks, s.histories, s.clock)
    && Exclusive(s.ticks, s.tasks)
    && BusyRows(s.ticks, s.tasks, s.histories)
    && FreshIds(s)
  }

  /** No tick in flight still reaches a task that is due now. */
  ghost predicate Uncontended(s: State) {
    forall t, k {:trigger Reaches(s.tasks, s.ticks[t].due, k)} ::
      t in s.ticks && Reaches(s.tasks, s.ticks[t].due, k) ==> !IsDue(s.tasks, s.clock, s.ticks[t].due[k].id)
  }

  /** Ticks start uncontended. */
  ghost predicate Clear(s: State, step: Step) {
    step.StartTick? && IsDueListing(s.tasks, s.clock, step.order) ==> Uncontended(s)
  }

  ghost predicate ClearRun(cron: Cron, s: State, steps: seq<Step>)
    decreases steps
  {
    steps == [] || (Clear(s, steps[0]) && ClearRun(cron, Next(cron, s, steps[0]), steps[1..]))
  }

  // ---------------------------------------------------------------------
  // Each step keeps it
  // ---------------------------------------------------------------------

  lemma AdvanceKeeps(cron: Cron, s: State, elapsed: nat)
    requires Inv(cron, s)
    ensures Inv(cron, Next(cron, s, Advance(elapsed)))
  {}

  lemma CreateKeeps(cron: Cron, s: State, expr: string, at: int)
    requires Inv(cron, s)
    ensures Inv(cron, AfterCreate(cron, s, expr, at))
  {
    var s' := AfterCreate(cron, s, expr, at);
    if s' != s {
      forall t, k | t in s.ticks ensures Reaches(s'.tasks, s.ticks[t].due, k) ==> Reaches(s.tasks, s.ticks[t].due, k) {
      }
    }
  }

  lemma SetEnabledKeeps(cron: Cron, s: State, id: int, enabled: bool)
    requires Inv(cron, s)
    ensures Inv(cron, AfterSetEnabled(s, id, enabled))
  {
    var s' := AfterSetEnabled(s, id, enabled);
    forall due: seq<Due>, k ensures Reaches(s'.tasks, due, k) ==> Reaches(s.tasks, due, k) {}
  }

  lemma DeleteKeeps(cron: Cron, s: State, id: int)
    requires Inv(cron, s)
    ensures Inv(cron, Next(cron, s, Delete(id)))
  {
    var s' := Next(cron, s, Delete(id));
    forall due: seq<Due>, k ensures Reaches(s'.tasks, due, k) ==> Reaches(s.tasks, due, k) {}
  }

  lemma DueIsIdle(cron: Cron, s: State, i: int)
    requires Inv(cron, s) && Uncontended(s) && IsDue(s.tasks, s.clock, i)
    ensures i in s.histories && !Busy(s.histories[i], |s.histories[i].events|)
  {
    if Busy(s.histories[i], |s.histories[i].events|) {
      var t :| t in s.ticks && s.ticks[t].executed && s.ticks[t].due != [] && s.ticks[t].due[0].id == i;
      assert Reaches(s.tasks, s.ticks[t].due, 0);
    }
  }

  lemma ExclusiveAfterStart(s: State, order: seq<int>)
    requires Exclusive(s.ticks, s.tasks) && Uncontended(s) && IsDueListing(s.tasks, s.clock, order)
    requires s.nextId !in s.ticks
    ensures Exclusive(AfterStartTick(s, order).ticks, s.tasks)
  {
    var s' := AfterStartTick(s, order);
    var tick := s'.ticks[s.nextId];
    forall a, j, k | a in s.ticks && Reaches(s.tasks, s.ticks[a].due, j) && Reaches(s.tasks, tick.due, k)
      ensures s.ticks[a].due[j].id != tick.due[k].id
    {
      assert IsDue(s.tasks, s.clock, tick.due[k].id);
    }
  }

  lemma BusyRowsAfterStart(s: State, order: seq<int>)
    requires BusyRows(s.ticks, s.tasks, s.histories) && s.nextId !in s.ticks
    ensures BusyRows(AfterStartTick(s, order).ticks, s.tasks, s.histories)
  {
    var s' := AfterStartTick(s, order);
    forall i | i in s.tasks && i in s.histories && Busy(s.histories[i], |s.histories[i].events|)
      ensures Writing(s'.ticks, i)
    {
      var t :| t in s.ticks && s.ticks[t].executed && s.ticks[t].due != [] && s.ticks[t].due[0].id == i;
      assert t in s'.ticks && s'.ticks[t] == s.ticks[t];
    }
  }

  lemma StartTickKeeps(cron: Cron, s: State, order: seq<int>)
    requires Inv(cron, s) && Clear(s, StartTick(order))
    ensures Inv(cron, AfterStartTick(s, order))
  {
    var s' := AfterStartTick(s, order);
    if IsDueListing(s.tasks, s.clock, order) {
      var tick := s'.ticks[s.nextId];
      forall k | 0 <= k < |tick.due| ensures
          tick.due[k].id in s.histories && HeldOk(cron, tick.due[k], s.histories[tick.due[k].id], false, s.clock)
      {
        DueIsIdle(cron, s, order[k]);
      }
      assert TickOk(cron, tick, s.tasks, s.histories, s.clock);
      ExclusiveAfterStart(s, order);
      BusyRowsAfterStart(s, order);
    }
  }

  /** A tick that does not reach `id` is not touched by what happens to `id`. */
  lemma TickUnaffected(cron: Cron, tick: Tick, tasks: map<int, Task>, tasks': map<int, Task>,
                       histories: map<int, History>, histories': map<int, History>, id: int, clock: int)
    requires TickOk(cron, tick, tasks, histories, clock) && tasks'.Keys == tasks.Keys
    requires forall i :: i in histories && i != id ==> i in histories' && histories'[i] == histories[i]
    requires forall k :: Reaches(tasks, tick.due, k) ==> tick.due[k].id != id
    ensures TickOk(cron, tick, tasks', histories', clock)
  {
    forall k | Reaches(tasks', tick.due, k) ensures Reaches(tasks, tick.due, k) {}
  }

  lemma OthersUnaffected(cron: Cron, s: State, t: int, tasks': map<int, Task>, histories': map<int, History>)
    requires Inv(cron, s) && t in s.ticks && s.ticks[t].due != [] && tasks'.Keys == s.tasks.Keys
    requires forall i :: i in s.histories && i != s.ticks[t].due[0].id ==>
                           i in histories' && histories'[i] == s.histories[i]
    ensures forall u :: u in s.ticks && u != t ==> TickOk(cron, s.ticks[u], tasks', histories', s.clock)
  {
    var id := s.ticks[t].due[0].id;
    assert Reaches(s.tasks, s.ticks[t].due, 0);
    forall u | u in s.ticks && u != t ensures TickOk(cron, s.ticks[u], tasks', histories', s.clock) {
      TickUnaffected(cron, s.ticks[u], s.tasks, tasks', s.histories, histories', id, s.clock);
    }
  }

  lemma BusyRowsAfterExecute(cron: Cron, s: State, t: int)
    requires Inv(cron, s) && t in s.ticks && !s.ticks[t].executed && s.ticks[t].due != []
    ensures var s' := AfterExecute(s, t); BusyRows(s'.ticks, s'.tasks, s'.histories)
  {
    var s' := AfterExecute(s, t);
    forall i | i in s'.tasks && i in s'.histories && Busy(s'.histories[i], |s'.histories[i].events|)
      ensures Writing(s'.ticks, i)
    {
      if i == s.ticks[t].due[0].id {
        assert t in s'.ticks && s'.ticks[t].due[0].id == i;
      } else {
        var u :| u in s.ticks && s.ticks[u].executed && s.ticks[u].due != [] && s.ticks[u].due[0].id == i;
        assert u in s'.ticks && s'.ticks[u] == s.ticks[u];
      }
    }
  }

  lemma ExecutedOk(cron: Cron, s: State, t: int)
    requires Inv(cron, s) && t in s.ticks && !s.ticks[t].executed && s.ticks[t].due != []
    ensures var s' := AfterExecute(s, t); TickOk(cron, s'.ticks[t], s'.tasks, s'.histories, s'.clock)
  {
    var d := s.ticks[t].due[0];
    assert Reaches(s.tasks, s.ticks[t].due, 0);
    FaithfulExtends(cron, s.histories[d.id], Ran(d.nextRunAt));
  }

  lemma ExclusiveSameDue(ticks: map<int, Tick>, ticks': map<int, Tick>, tasks: map<int, Task>)
    requires Exclusive(ticks, tasks) && ticks'.Keys == ticks.Keys
    requires forall t :: t in ticks ==> ticks'[t].due == ticks[t].due
    ensures Exclusive(ticks', tasks)
  {}

  lemma ExecuteKeeps(cron: Cron, s: State, t: int)
    requires Inv(cron, s)
    ensures Inv(cron, AfterExecute(s, t))
  {
    var s' := AfterExecute(s, t);
    if t in s.ticks && !s.ticks[t].executed && s.ticks[t].due != [] {
      var d := s.ticks[t].due[0];
      assert Reaches(s.tasks, s.ticks[t].due, 0);
      FaithfulExtends(cron, s.histories[d.id], Ran(d.nextRunAt));
      OthersUnaffected(cron, s, t, s'.tasks, s'.histories);
      BusyRowsAfterExecute(cron, s, t);
      ExecutedOk(cron, s, t);
      ExclusiveSameDue(s.ticks, s'.ticks, s.tasks);
    }
  }

  lemma BusyRowsAfterFinish(cron: Cron, s: State, t: int, stored: bool)
    requires Inv(cron, s) && t in s.ticks && s.ticks[t].executed && s.ticks[t].due != []
    ensures var s' := AfterFinish(cron, s, t, stored); BusyRows(s'.ticks, s'.tasks, s'.histories)
  {
    var s' := AfterFinish(cron, s, t, stored);
    forall i | i in s'.tasks && i in s'.histories && Busy(s'.histories[i], |s'.histories[i].events|)
      ensures Writing(s'.ticks, i)
    {
      var u :| u in s.ticks && s.ticks[u].executed && s.ticks[u].due != [] && s.ticks[u].due[0].id == i;
      assert u in s'.ticks && s'.ticks[u] == s.ticks[u];
    }
  }

  /** Past its first row, a tick reaches what it reached before. */
  lemma ReachesRest(tasks: map<int, Task>, due: seq<Due>, k: int)
    requires due != [] && due[0].id in tasks && Reaches(tasks, due[1..], k)
    ensures Reaches(tasks, due, k + 1) && due[k + 1] == due[1..][k]
  {
    forall j | 0 <= j < k + 1 ensures due[j].id in tasks {
      if j > 0 { assert due[1..][j - 1].id in tasks; }
    }
  }

  lemma RestOk(cron: Cron, tick: Tick, tasks: map<int, Task>, tasks': map<int, Task>,
               histories: map<int, History>, histories': map<int, History>, clock: int)
    requires TickOk(cron, tick, tasks, histories, clock) && tick.due != [] && tick.due[0].id in tasks
    requires tasks'.Keys == tasks.Keys
    requires forall i :: i in histories && i != tick.due[0].id ==> i in histories' && histories'[i] == histories[i]
    ensures TickOk(cron, Tick(tick.due[1..], false), tasks', histories', clock)
  {
    forall k | Reaches(tasks', tick.due[1..], k) ensures Reaches(tasks, tick.due, k + 1) {
      assert Reaches(tasks, tick.due[1..], k);
      ReachesRest(tasks, tick.due, k);
    }
  }

  lemma ExclusiveRest(ticks: map<int, Tick>, tasks: map<int, Task>, t: int)
    requires Exclusive(ticks, tasks) && t in ticks && ticks[t].due != [] && ticks[t].due[0].id in tasks
    ensures Exclusive(ticks[t := Tick(ticks[t].due[1..], false)], tasks)
  {
    var ticks' := ticks[t := Tick(ticks[t].due[1..], false)];
    forall b, j, k | b in ticks && b != t && Reaches(tasks, ticks'[t].due, j) && Reaches(tasks, ticks[b].due, k)
      ensures ticks'[t].due[j].id != ticks[b].due[k].id
    {
      ReachesRest(tasks, ticks[t].due, j);
    }
  }

  lemma ExclusiveSameRows(ticks: map<int, Tick>, tasks: map<int, Task>, tasks': map<int, Task>)
    requires Exclusive(ticks, tasks) && tasks'.Keys == tasks.Keys
    ensures Exclusive(ticks, tasks')
  {
    forall due: seq<Due>, k | Reaches(tasks', due, k) ensures Reaches(tasks, due, k) {}
  }

  lemma StoredKeeps(cron: Cron, s: State, t: int)
    requires Inv(cron, s) && t in s.ticks && s.ticks[t].executed && s.ticks[t].due != []
    requires s.ticks[t].due[0].id in s.tasks
    ensures Inv(cron, AfterFinish(cron, s, t, true))
  {
    var s', d := AfterFinish(cron, s, t, true), s.ticks[t].due[0];
    assert Reaches(s.tasks, s.ticks[t].due, 0);
    BusyRowsAfterFinish(cron, s, t, true);
    FaithfulExtends(cron, s.histories[d.id], Stored(s.clock));
    OthersUnaffected(cron, s, t, s'.tasks, s'.histories);
    RestOk(cron, s.ticks[t], s.tasks, s'.tasks, s.histories, s'.histories, s.clock);
    ExclusiveRest(s.ticks, s.tasks, t);
    ExclusiveSameRows(s'.ticks, s.tasks, s'.tasks);
  }

  lemma LostKeeps(cron: Cron, s: State, t: int, stored: bool)
    requires Inv(cron, s) && t in s.ticks && s.ticks[t].executed && s.ticks[t].due != []
    requires s.ticks[t].due[0].id !in s.tasks || !stored
    ensures Inv(cron, AfterFinish(cron, s, t, stored))
  {
    var s', d := AfterFinish(cron, s, t, stored), s.ticks[t].due[0];
    assert Reaches(s.tasks, s.ticks[t].due, 0);
    BusyRowsAfterFinish(cron, s, t, stored);
    FaithfulExtends(cron, s.histories[d.id], Lost);
    OthersUnaffected(cron, s, t, s'.tasks, s'.histories);
  }

  lemma StepKeeps(cron: Cron, s: State, step: Step)
    requires Inv(cron, s) && Clear(s, step)
    ensures Inv(cron, Next(cron, s, step))
  {
    match step
    case Advance(elapsed) => AdvanceKeeps(cron, s, elapsed);
    case Create(expr, at) => CreateKeeps(cron, s, expr, at);
    case SetEnabled(id, enabled) => SetEnabledKeeps(cron, s, id, enabled);
    case Delete(id) => DeleteKeeps(cron, s, id);
    case StartTick(order) => StartTickKeeps(cron, s, order);
    case Execute(t) => ExecuteKeeps(cron, s, t);
    case Finish(t, stored) =>
      if t in s.ticks && s.ticks[t].executed && s.ticks[t].due != [] {
        if s.ticks[t].due[0].id in s.tasks && stored {
          StoredKeeps(cron, s, t);
        } else {
          LostKeeps(cron, s, t, stored);
        }
      }
  }

  lemma {:induction false} RunKeeps(cron: Cron, s: State, steps: seq<Step>)
    requires Inv(cron, s) && ClearRun(cron, s, steps)
    ensures Inv(cron, Run(cron, s, steps))
    decreases steps
  {
    if steps != [] {
      StepKeeps(cron, s, steps[0]);
      RunKeeps(cron, Next(cron, s, steps[0]), steps[1..]);
    }
  }

  // ---------------------------------------------------------------------
  // What a tick reads
  // ---------------------------------------------------------------------

  /** Exactly the rows that are enabled and whose next run is not in the future, each once, as they stand. */
  lemma TickReads(s: State, order: seq<int>)
    requires IsDueListing(s.tasks, s.clock, order)
    ensures AfterStartTick(s, order).ticks == s.ticks[s.nextId := Tick(ReadRows(s.tasks, order), false)]
    ensures var due := ReadRows(s.tasks, order);
            && (forall k :: 0 <= k < |due| ==>
                  && due[k].id in s.tasks && s.tasks[due[k].id].enabled == true
                  && s.tasks[due[k].id].nextRunAt <= s.clock
                  && due[k].expr == s.tasks[due[k].id].expr && due[k].nextRunAt == s.tasks[due[k].id].nextRunAt)
            && (forall id :: id in s.tasks && s.tasks[id].enabled == true && s.tasks[id].nextRunAt <= s.clock ==>
                  exists k :: 0 <= k < |due| && due[k].id == id)
            && (forall j, k :: 0 <= j < k < |due| ==> due[j].id != due[k].id)
  {
    var due := ReadRows(s.tasks, order);
    forall k | 0 <= k < |due|
      ensures due[k] == Due(order[k], s.tasks[order[k]].expr, s.tasks[order[k]].nextRunAt)
    {
      assert IsDue(s.tasks, s.clock, order[k]);
    }
    forall id | id in s.tasks && s.tasks[id].enabled == true && s.tasks[id].nextRunAt <= s.clock
      ensures exists k :: 0 <= k < |due| && due[k].id == id
    {
      assert IsDue(s.tasks, s.clock, id);
      var k :| 0 <= k < |order| && order[k] == id;
      assert due[k].id == id;
    }
  }

  /** No tick has the row on its list. */
  ghost predicate Unheld(s: State, i: int) {
    forall t, k :: t in s.ticks && 0 <= k < |s.ticks[t].due| ==> s.ticks[t].due[k].id != i
  }

  lemma DisabledStep(cron: Cron, s: State, step: Step, i: int)
    requires i < s.nextId && Unheld(s, i) && (i in s.tasks ==> !s.tasks[i].enabled) && step != SetEnabled(i, true)
    ensures var s' := Next(cron, s, step);
            && i < s'.nextId && Unheld(s', i) && (i in s'.tasks ==> !s'.tasks[i].enabled)
            && (i in s.histories <==> i in s'.histories) && (i in s.histories ==> s'.histories[i] == s.histories[i])
  {
    if step.StartTick? && IsDueListing(s.tasks, s.clock, step.order) { TickReads(s, step.order); }
  }

  /** A disabled task that no tick holds is not executed again until somebody enables it. */
  lemma {:induction false} DisabledNeverRuns(cron: Cron, s: State, steps: seq<Step>, i: int)
    requires i < s.nextId && Unheld(s, i) && (i in s.tasks ==> !s.tasks[i].enabled)
    requires i in s.histories && forall k :: 0 <= k < |steps| ==> steps[k] != SetEnabled(i, true)
    ensures i in Run(cron, s, steps).histories && Run(cron, s, steps).histories[i] == s.histories[i]
    decreases steps
  {
    if steps != [] {
      assert steps[0] != SetEnabled(i, true);
      DisabledStep(cron, s, steps[0], i);
      DisabledNeverRuns(cron, Next(cron, s, steps[0]), steps[1..], i);
    }
  }

  /** Disabling or deleting a task that no tick holds stops it, until it is enabled again. */
  lemma StoppedForGood(cron: Cron, s: State, step: Step, steps: seq<Step>, i: int)
    requires i < s.nextId && Unheld(s, i) && i in s.histories
    requires step == SetEnabled(i, false) || step == Delete(i)
    requires forall k :: 0 <= k < |steps| ==> steps[k] != SetEnabled(i, true)
    ensures var s' := Run(cron, Next(cron, s, step), steps);
            i in s'.histories && s'.histories[i] == s.histories[i]
  {
    DisabledNeverRuns(cron, Next(cron, s, step), steps, i);
  }
}
