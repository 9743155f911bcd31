/**
  ScheduledTasksService in the form of the source: an object over the table of scheduled tasks.
  runDueTasks is its loop over the rows it read, with what other requests do
  during each await given as a script.
 */
module ScheduledTasksService {
  import opened Wrappers
  import opened Scheduler

  /** While one row is executed: what others do, and whether the row update goes through. */
  datatype Await = Await(others: seq<Step>, stored: bool)

  /** The remaining rounds of tick `t`, one per await. */
  function Rounds(cron: Cron, s: State, t: int, awaits: seq<Await>): State
    decreases awaits
  {
    if awaits == [] || t !in s.ticks then s
    else
      var during := Run(cron, AfterExecute(s, t), awaits[0].others);
      Rounds(cron, AfterFinish(cron, during, t, awaits[0].stored), t, awaits[1..])
  }

  /** Other requests and other ticks: everything but the work of tick `t`. */
  predicate Others(steps: seq<Step>, t: int) {
    forall k :: 0 <= k < |steps| ==> steps[k] != Execute(t) && (steps[k].Finish? ==> steps[k].tick != t)
  }

  lemma {:induction false} OthersLeaveTick(cron: Cron, s: State, steps: seq<Step>, t: int)
    requires Others(steps, t) && t in s.ticks && t < s.nextId
    ensures var s' := Run(cron, s, steps); t in s'.ticks && s'.ticks[t] == s.ticks[t] && t < s'.nextId
    decreases steps
  {
    if steps != [] {
      assert steps[0] != Execute(t) && (steps[0].Finish? ==> steps[0].tick != t);
      assert Others(steps[1..], t);
      OthersLeaveTick(cron, Next(cron, s, steps[0]), steps[1..], t);
    }
  }

  class ScheduledTasksService {
    const cron: Cron
    var clock: int
    var tasks: map<int, Task>
    var ticks: map<int, Tick>
    var histories: map<int, History>
    var nextId: int

    function Db(): State
      reads this
    {
      State(clock, tasks, ticks, histories, nextId)
    }

    constructor (cron: Cron)
      ensures Db() == EMPTY && this.cron == cron
    {
      this.cron := cron;
      clock, tasks, ticks, histories, nextId := 0, map[], map[], map[], 0;
    }

    /** create: the next run is computed first, at `at`; the row is inserted after the await. */
    method Create(expr: string, at: int) returns (id: int)
      requires at <= clock
      modifies this
      ensures Db() == AfterCreate(cron, old(Db()), expr, at)
      ensures id == old(nextId) && nextId == id + 1
      ensures tasks == old(tasks)[id := Task(expr, true, cron.next(expr, at), None)]
      ensures histories == old(histories)[id := History(expr, at, [])]
    {
      id := nextId;
      var nextRunAt := cron.next(expr, at);
      tasks := tasks[id := Task(expr, true, nextRunAt, None)];
      histories := histories[id := History(expr, at, [])];
      nextId := id + 1;
    }

    /** setEnabled: the next run stays what it was, due or not. */
    method SetEnabled(id: int, enabled: bool) returns (found: bool)
      modifies this`tasks
      ensures found <==> id in old(tasks)
      ensures Db() == AfterSetEnabled(old(Db()), id, enabled)
      ensures found ==> tasks == old(tasks)[id := old(tasks)[id].(enabled := enabled)]
      ensures !found ==> tasks == old(tasks)
    {
      found := id in tasks;
      if found {
        tasks := tasks[id := tasks[id].(enabled := enabled)];
      }
    }

    method Delete(id: int) returns (found: bool)
      modifies this`tasks
      ensures found <==> id in old(tasks)
      ensures Db() == Next(cron, old(Db()), Step.Delete(id))
      ensures tasks == old(tasks) - {id}
    {
      found := id in tasks;
      tasks := tasks - {id};
    }

    /** The rows that are due, read by a tick that starts now. */
    method FindDue(order: seq<int>) returns (t: int)
      requires IsDueListing(tasks, clock, order)
      modifies this`ticks, this`nextId
      ensures Db() == AfterStartTick(old(Db()), order)
      ensures t == old(nextId) && t in ticks && ticks[t] == Tick(ReadRows(tasks, order), false)
      ensures forall k :: 0 <= k < |ticks[t].due| ==>
                var d := ticks[t].due[k];
                && d.id in tasks && tasks[d.id].enabled == true && tasks[d.id].nextRunAt <= clock
                && d.expr == tasks[d.id].expr && d.nextRunAt == tasks[d.id].nextRunAt
      ensures forall id :: id in tasks && tasks[id].enabled == true && tasks[id].nextRunAt <= clock ==>
                exists k :: 0 <= k < |ticks[t].due| && ticks[t].due[k].id == id
      ensures forall j, k :: 0 <= j < k < |ticks[t].due| ==> ticks[t].due[j].id != ticks[t].due[k].id
    {
      TickReads(Db(), order);
      t := nextId;
      ticks := ticks[t := Tick(ReadRows(tasks, order), false)];
      nextId := t + 1;
    }

    /** Other requests and other ticks during an await, one after the other. */
    method Elsewhere(steps: seq<Step>)
      modifies this
      ensures Db() == Run(cron, old(Db()), steps)
    {
      for i := 0 to |steps|
        invariant Run(cron, old(Db()), steps) == Run(cron, Db(), steps[i..])
      {
        assert steps[i..][0] == steps[i] && steps[i..][1..] == steps[i + 1..];
        One(steps[i]);
      }
    }

    method One(step: Step)
      modifies this
      ensures Db() == Next(cron, old(Db()), step)
    {
      match step {
        case Advance(elapsed) => clock := clock + elapsed;
        case Create(expr, at) =>
          if at <= clock { var _ := Create(expr, at); }
        case SetEnabled(id, enabled) => var _ := SetEnabled(id, enabled);
        case Delete(id) => var _ := Delete(id);
        case StartTick(order) =>
          if IsDueListing(tasks, clock, order) { var _ := FindDue(order); }
        case Execute(t) =>
          if t in ticks && !ticks[t].executed && ticks[t].due != [] { Execute(t, ticks[t].due[0]); }
        case Finish(t, stored) =>
          if t in ticks && ticks[t].executed && ticks[t].due != [] { var _ := WriteBack(t, ticks[t].due[0], stored); }
      }
    }

    /** execute: whatever comes of it, the finally block follows. */
    method Execute(t: int, task: Due)
      requires t in ticks && !ticks[t].executed && ticks[t].due != [] && ticks[t].due[0] == task
      modifies this`ticks, this`histories
      ensures Db() == AfterExecute(old(Db()), t)
      ensures ticks == old(ticks)[t := Tick(old(ticks)[t].due, true)]
      ensures task.id in histories ==>
                histories[task.id].events == old(histories)[task.id].events + [Ran(task.nextRunAt)]
    {
      ticks := ticks[t := ticks[t].(executed := true)];
      histories := Log(histories, task.id, Ran(task.nextRunAt));
    }

    /** The finally block: the update throws when the row is gone. */
    method WriteBack(t: int, task: Due, stored: bool) returns (threw: bool)
      requires t in ticks && ticks[t].executed && ticks[t].due != [] && ticks[t].due[0] == task
      modifies this`tasks, this`ticks, this`histories
      ensures Db() == AfterFinish(cron, old(Db()), t, stored)
      ensures threw <==> task.id !in old(tasks) || !stored
      ensures threw <==> t !in ticks
      ensures threw ==> tasks == old(tasks)
      ensures !threw ==>
                && tasks == old(tasks)[task.id := old(tasks)[task.id].(nextRunAt := cron.next(task.expr, clock),
                                                                       lastRunAt := Some(clock))]
                && ticks == old(ticks)[t := Tick(old(ticks)[t].due[1..], false)]
    {
      threw := task.id !in tasks || !stored;
      if threw {
        ticks := ticks - {t};
        histories := Log(histories, task.id, Lost);
      } else {
        tasks := tasks[task.id := tasks[task.id].(nextRunAt := cron.next(task.expr, clock), lastRunAt := Some(clock))];
        ticks := ticks[t := Tick(ticks[t].due[1..], false)];
        histories := Log(histories, task.id, Stored(clock));
      }
    }

    /** runDueTasks, on the due rows in the order the database lists them. */
    method RunDueTasks(order: seq<int>, awaits: seq<Await>) returns (threw: bool)
      requires IsDueListing(tasks, clock, order) && |awaits| == |order|
      requires forall k :: 0 <= k < |awaits| ==> Others(awaits[k].others, nextId)
      modifies this
      ensures Db() == Rounds(cron, AfterStartTick(old(Db()), order), old(nextId), awaits)
      ensures threw <==> old(nextId) !in ticks
      ensures !threw ==> ticks[old(nextId)].due == []
    {
      var t := FindDue(order);
      var due := ticks[t].due;
      ghost var start := Db();
      for i := 0 to |due|
        invariant t in ticks && t < nextId && ticks[t] == Tick(due[i..], false)
        invariant Rounds(cron, start, t, awaits) == Rounds(cron, Db(), t, awaits[i..])
      {
        var task := due[i];
        ghost var before := Db();
        Execute(t, task);
        OthersLeaveTick(cron, Db(), awaits[i].others, t);
        Elsewhere(awaits[i].others);
        assert Db() == Run(cron, AfterExecute(before, t), awaits[i].others);
        assert awaits[i..][0] == awaits[i] && awaits[i..][1..] == awaits[i + 1..];
        threw := WriteBack(t, task, awaits[i].stored);
        if threw { return; }
      }
      threw := false;
    }
  }
}
