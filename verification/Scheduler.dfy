/**
 The task scheduler with any number of worker threads. Every method is one section that no other
 thread can interrupt, so an interleaving of the workers is a sequence of calls.
 */
module Schedulers {
  import opened Bytes

  const AnyThread := -1

  /** A fiber or a callback; `thread` is the only worker that may run it, or any. */
  datatype Task = Task(id: nat, thread: int)

  /** Where the loop of `run` is: looking for a task, holding one, found none, resumed its idle fiber, or left. */
  datatype Phase = Looking | Holding(task: Task) | FoundNone | Idling | Exited

  /** A worker; `idleEnded` says that its idle fiber has terminated. */
  datatype Worker = Worker(phase: Phase, idleEnded: bool)

  /** What became of a scheduled task. */
  datatype Fate = Queued | Running(thread: int) | Done(thread: int)

  /** A scheduled task: the thread it was scheduled for, and what became of it. */
  datatype Entry = Entry(thread: int, fate: Fate)

  predicate Eligible(t: Task, thread: int) { t.thread == AnyThread || t.thread == thread }

  /** `tasks` without the one at `k`. */
  function RemoveAt(tasks: seq<Task>, k: nat): seq<Task>
    requires k < |tasks|
  {
    tasks[..k] + tasks[k + 1..]
  }

  /** The queue holds each of its tasks once, and the ledger knows them as queued. */
  ghost predicate QueueOk(tasks: seq<Task>, ledger: map<nat, Entry>) {
    && (forall i :: 0 <= i < |tasks| ==> tasks[i].id in ledger && ledger[tasks[i].id] == Entry(tasks[i].thread, Queued))
    && (forall i, j :: 0 <= i < j < |tasks| ==> tasks[i].id != tasks[j].id)
  }

  /** A worker is counted for what it does, and leaves only when that is `allowed`. */
  ghost predicate WorkerFits(x: Worker, w: int, holders: set<int>, idlers: set<int>, ledger: map<nat, Entry>,
      allowed: bool) {
    && (x.phase.Holding? <==> w in holders)
    && (x.phase.Idling? <==> w in idlers)
    && (x.phase.Holding? ==>
           && x.phase.task.id in ledger
           && ledger[x.phase.task.id] == Entry(x.phase.task.thread, Running(w)))
    && (x.idleEnded || x.phase.Exited? ==> allowed)
  }

  /** A task is where its entry says, on a thread it may run on. */
  ghost predicate EntryFits(id: nat, entry: Entry, tasks: seq<Task>, workers: map<int, Worker>) {
    var t := Task(id, entry.thread);
    match entry.fate
    case Queued => t in tasks
    case Running(w) => w in workers && workers[w].phase == Holding(t) && Eligible(t, w)
    case Done(w) => Eligible(t, w)
  }

  ghost predicate WorkersFit(workers: map<int, Worker>, holders: set<int>, idlers: set<int>, ledger: map<nat, Entry>,
      allowed: bool) {
    forall w :: w in workers ==> WorkerFits(workers[w], w, holders, idlers, ledger, allowed)
  }

  ghost predicate EntriesFit(ledger: map<nat, Entry>, tasks: seq<Task>, workers: map<int, Worker>) {
    forall id :: id in ledger ==> EntryFits(id, ledger[id], tasks, workers)
  }

  /** All of a scheduler but its flags. */
  datatype View = View(tasks: seq<Task>, issued: nat, workers: map<int, Worker>,
                       ledger: map<nat, Entry>, holders: set<int>, idlers: set<int>, active: nat, idle: nat)

  datatype Rule = Entries | Queue | Workers | Counters

  ghost predicate Obeys(rule: Rule, v: View, allowed: bool) {
    match rule
    case Entries => (forall id: nat :: id in v.ledger <==> id < v.issued) && EntriesFit(v.ledger, v.tasks, v.workers)
    case Queue => QueueOk(v.tasks, v.ledger)
    case Workers => WorkersFit(v.workers, v.holders, v.idlers, v.ledger, allowed)
    case Counters =>
      && (forall w :: w in v.holders || w in v.idlers ==> w in v.workers)
      && v.active == |v.holders| && v.idle == |v.idlers|
  }

  /** Queue, workers, counters and ledger agree, and workers have left only when that is `allowed`. */
  ghost predicate Consistent(v: View, allowed: bool) {
    forall rule :: Obeys(rule, v, allowed)
  }

  lemma Rules(v: View, allowed: bool)
    requires Consistent(v, allowed)
    ensures Obeys(Entries, v, allowed) && Obeys(Queue, v, allowed) && Obeys(Workers, v, allowed)
            && Obeys(Counters, v, allowed)
  {
  }

  lemma RemoveAtKeeps(tasks: seq<Task>, ledger: map<nat, Entry>, k: nat, entry: Entry)
    requires QueueOk(tasks, ledger) && k < |tasks|
    ensures QueueOk(RemoveAt(tasks, k), ledger[tasks[k].id := entry])
    ensures forall t :: t in tasks && t != tasks[k] ==> t in RemoveAt(tasks, k)
  {
    assert tasks == tasks[..k] + [tasks[k]] + tasks[k + 1..];
  }

  /** A queued task, given to a worker that holds none, changes nothing for the others. */
  lemma GrabFits(tasks: seq<Task>, ledger: map<nat, Entry>, workers: map<int, Worker>, w: int, k: nat, ended: bool)
    requires QueueOk(tasks, ledger) && EntriesFit(ledger, tasks, workers) && k < |tasks|
    requires w in workers && !workers[w].phase.Holding? && Eligible(tasks[k], w)
    ensures var t := tasks[k];
            EntriesFit(ledger[t.id := Entry(t.thread, Running(w))], RemoveAt(tasks, k),
                workers[w := Worker(Holding(t), ended)])
  {
    RemoveAtKeeps(tasks, ledger, k, Entry(tasks[k].thread, Running(w)));
  }

  lemma HoldFits(workers: map<int, Worker>, holders: set<int>, idlers: set<int>, ledger: map<nat, Entry>,
      allowed: bool, w: int, t: Task)
    requires WorkersFit(workers, holders, idlers, ledger, allowed) && w in workers && workers[w].phase.Looking?
    requires t.id in ledger && ledger[t.id] == Entry(t.thread, Queued)
    ensures WorkersFit(workers[w := Worker(Holding(t), workers[w].idleEnded)], holders + {w}, idlers,
                       ledger[t.id := Entry(t.thread, Running(w))], allowed)
  {
  }

  /** The task at `k` leaves the queue and is held by the worker. */
  ghost function Grabbed(v: View, w: int, k: nat): View
    requires w in v.workers && k < |v.tasks|
  {
    var t := v.tasks[k];
    v.(tasks := RemoveAt(v.tasks, k), workers := v.workers[w := Worker(Holding(t), v.workers[w].idleEnded)],
       ledger := v.ledger[t.id := Entry(t.thread, Running(w))], holders := v.holders + {w}, active := v.active + 1)
  }

  lemma GrabKeeps(v: View, allowed: bool, w: int, k: nat)
    requires Consistent(v, allowed) && w in v.workers && v.workers[w].phase.Looking? && k < |v.tasks|
             && Eligible(v.tasks[k], w)
    ensures Consistent(Grabbed(v, w, k), allowed) && AllLater(v.ledger, Grabbed(v, w, k).ledger)
  {
    var t := v.tasks[k];
    Rules(v, allowed);
    assert WorkerFits(v.workers[w], w, v.holders, v.idlers, v.ledger, allowed);
    RemoveAtKeeps(v.tasks, v.ledger, k, Entry(t.thread, Running(w)));
    GrabFits(v.tasks, v.ledger, v.workers, w, k, v.workers[w].idleEnded);
    HoldFits(v.workers, v.holders, v.idlers, v.ledger, allowed, w, t);
  }

  /** The task of the worker is done. */
  ghost function Finished(v: View, w: int): View
    requires w in v.workers && v.workers[w].phase.Holding? && v.active > 0
  {
    var t := v.workers[w].phase.task;
    v.(workers := v.workers[w := Worker(Looking, v.workers[w].idleEnded)],
       ledger := v.ledger[t.id := Entry(t.thread, Done(w))], holders := v.holders - {w}, active := v.active - 1)
  }

  lemma FinishKeeps(v: View, allowed: bool, w: int)
    requires Consistent(v, allowed) && w in v.workers && v.workers[w].phase.Holding?
    ensures v.active > 0 && Consistent(Finished(v, w), allowed) && AllLater(v.ledger, Finished(v, w).ledger)
  {
    var t := v.workers[w].phase.task;
    Rules(v, allowed);
    assert WorkerFits(v.workers[w], w, v.holders, v.idlers, v.ledger, allowed);
    assert EntryFits(t.id, v.ledger[t.id], v.tasks, v.workers);
    assert w in v.holders;
    var n := Finished(v, w);
    forall id | id in n.ledger
      ensures EntryFits(id, n.ledger[id], n.tasks, n.workers)
    {
      assert EntryFits(id, v.ledger[id], v.tasks, v.workers);
    }
  }

  /** A worker that holds no task goes on as `x`; `idle` and `idlers` count it. */
  lemma MoveKeeps(v: View, allowed: bool, w: int, x: Worker, idlers: set<int>, idle: nat)
    requires Consistent(v, allowed) && w in v.workers && !v.workers[w].phase.Holding? && !x.phase.Holding?
    requires x.idleEnded || x.phase.Exited? ==> allowed
    requires idlers == (if x.phase.Idling? then v.idlers + {w} else v.idlers - {w}) && idle == |idlers|
    ensures Consistent(v.(workers := v.workers[w := x], idlers := idlers, idle := idle), allowed)
  {
    Rules(v, allowed);
    assert WorkerFits(v.workers[w], w, v.holders, v.idlers, v.ledger, allowed);
    var workers := v.workers[w := x];
    assert EntriesFit(v.ledger, v.tasks, workers) by {
      forall id | id in v.ledger
        ensures EntryFits(id, v.ledger[id], v.tasks, workers)
      {
        assert EntryFits(id, v.ledger[id], v.tasks, v.workers);
      }
    }
  }

  /** Who idles is counted. */
  lemma Counted(v: View, allowed: bool, w: int)
    requires Consistent(v, allowed) && w in v.workers
    ensures v.workers[w].phase.Idling? <==> w in v.idlers
    ensures v.workers[w].phase.Holding? <==> w in v.holders
    ensures v.workers[w].idleEnded || v.workers[w].phase.Exited? ==> allowed
    ensures v.active == |v.holders| && v.idle == |v.idlers|
  {
    Rules(v, allowed);
    assert WorkerFits(v.workers[w], w, v.holders, v.idlers, v.ledger, allowed);
  }

  /** A task is scheduled under a new number. */
  ghost function Pushed(v: View, thread: int): View {
    v.(tasks := v.tasks + [Task(v.issued, thread)], ledger := v.ledger[v.issued := Entry(thread, Queued)],
        issued := v.issued + 1)
  }

  lemma PushFits(tasks: seq<Task>, ledger: map<nat, Entry>, workers: map<int, Worker>, t: Task)
    requires QueueOk(tasks, ledger) && EntriesFit(ledger, tasks, workers) && t.id !in ledger
    ensures QueueOk(tasks + [t], ledger[t.id := Entry(t.thread, Queued)])
    ensures EntriesFit(ledger[t.id := Entry(t.thread, Queued)], tasks + [t], workers)
  {
    assert t in tasks + [t] && forall u :: u in tasks ==> u in tasks + [t];
  }

  lemma PushKeeps(v: View, allowed: bool, thread: int, allowed': bool)
    requires Consistent(v, allowed) && (allowed ==> allowed')
    ensures Consistent(Pushed(v, thread), allowed') && AllLater(v.ledger, Pushed(v, thread).ledger)
  {
    Rules(v, allowed);
    PushFits(v.tasks, v.ledger, v.workers, Task(v.issued, thread));
  }

  lemma AllowedMore(v: View, allowed: bool, allowed': bool)
    requires Consistent(v, allowed) && (allowed ==> allowed')
    ensures Consistent(v, allowed')
  {
    Rules(v, allowed);
  }

  lemma Member<T>(s: set<T>) returns (w: T)
    requires |s| > 0
    ensures w in s
  {
    w :| w in s;
  }

  class Scheduler {
    var tasks: seq<Task>
    var activeThreadCount: nat
    var idleThreadCount: nat
    var stopping: bool
    var issued: nat
    var workers: map<int, Worker>

    /** The fate of every task, and the workers that hold a task or idle. */
    ghost var ledger: map<nat, Entry>
    ghost var holders: set<int>
    ghost var idlers: set<int>

    /** No task was ever scheduled while `stopping()` was true. */
    ghost var quiet: bool

    /** Since `stop` was called, only running tasks have scheduled. */
    ghost var byTasks: bool

    /** `stopping()`, read under the lock. */
    predicate Stopped()
      reads this
    {
      stopping && tasks == [] && activeThreadCount == 0
    }

    ghost function Snapshot(): View
      reads this
    {
      View(tasks, issued, workers, ledger, holders, idlers, activeThreadCount, idleThreadCount)
    }

    ghost predicate Valid()
      reads this
    {
      Consistent(Snapshot(), quiet ==> Stopped()) && (byTasks ==> quiet)
    }

    constructor (threads: set<int>)
      ensures Valid() && workers.Keys == threads && issued == 0 && tasks == []
      ensures !stopping && activeThreadCount == 0 && quiet && byTasks
      ensures forall w :: w in workers ==> workers[w] == Worker(Looking, false)
    {
      tasks, activeThreadCount, idleThreadCount, stopping, issued := [], 0, 0, false, 0;
      workers := map w | w in threads :: Worker(Looking, false);
      ledger, holders, idlers, quiet, byTasks := map[], {}, {}, true, true;
    }

    /** `caller` is a worker running a task, or `stop` was not called yet. */
    predicate InTime(caller: Option<int>)
      reads this
    {
      stopping ==> caller.Some? && caller.value in workers && workers[caller.value].phase.Holding?
    }

    /** A running task never schedules while `stopping()` is true. */
    lemma RunningMeansNotStopped(caller: Option<int>)
      requires Valid() && InTime(caller)
      ensures !Stopped()
    {
      if caller.Some? && caller.value in workers { Counted(Snapshot(), quiet ==> Stopped(), caller.value); }
    }

    /** `schedule`: an empty fiber or callback is ignored; the result says that the queue was empty. */
    method Schedule(empty: bool, thread: int, ghost caller: Option<int>) returns (needTickle: bool)
      requires Valid()
      modifies this`tasks, this`issued, this`ledger, this`quiet, this`byTasks
      ensures Valid() && needTickle == (old(tasks) == [])
      ensures quiet == (old(quiet) && (empty || !old(Stopped())))
      ensures byTasks == (old(byTasks) && (empty || old(InTime(caller))))
      ensures empty ==> tasks == old(tasks) && issued == old(issued) && ledger == old(ledger)
      ensures !empty ==> tasks == old(tasks) + [Task(old(issued), thread)] && issued == old(issued) + 1
      ensures !empty ==> ledger == old(ledger)[old(issued) := Entry(thread, Queued)]
      ensures AllLater(old(ledger), ledger)
    {
      needTickle := tasks == [];
      if !empty {
        Push(thread, caller);
      }
    }

    method Push(thread: int, ghost caller: Option<int>)
      requires Valid()
      modifies this`tasks, this`issued, this`ledger, this`quiet, this`byTasks
      ensures Valid() && tasks == old(tasks) + [Task(old(issued), thread)] && issued == old(issued) + 1
      ensures quiet == (old(quiet) && !old(Stopped())) && byTasks == (old(byTasks) && old(InTime(caller)))
      ensures ledger == old(ledger)[old(issued) := Entry(thread, Queued)] && AllLater(old(ledger), ledger)
    {
      if InTime(caller) { RunningMeansNotStopped(caller); }
      PushKeeps(Snapshot(), quiet ==> Stopped(), thread, !(quiet && !Stopped()));
      quiet, byTasks := quiet && !Stopped(), byTasks && InTime(caller);
      tasks := tasks + [Task(issued, thread)];
      ledger := ledger[issued := Entry(thread, Queued)];
      issued := issued + 1;
    }

    /** The position of the earliest task the thread may run, or the length of the queue. */
    method FindTask(thread: int) returns (k: nat, skipped: bool)
      ensures k <= |tasks| && (k < |tasks| ==> Eligible(tasks[k], thread))
      ensures forall i :: 0 <= i < k ==> !Eligible(tasks[i], thread)
      ensures skipped <==> k > 0
    {
      k, skipped := 0, false;
      while k < |tasks| && tasks[k].thread != AnyThread && tasks[k].thread != thread
        invariant k <= |tasks| && (skipped <==> k > 0)
        invariant forall i :: 0 <= i < k ==> !Eligible(tasks[i], thread)
      {
        k, skipped := k + 1, true;
      }
    }

    /** The locked section of `run`: take the earliest eligible task. `tickleMe` says that tasks are left for others. */
    method Take(thread: int) returns (found: bool, tickleMe: bool)
      requires Valid() && thread in workers && workers[thread].phase.Looking?
      modifies this`tasks, this`activeThreadCount, this`workers, this`ledger, this`holders
      ensures Valid() && tickleMe == (tasks != []) && issued == old(issued) && (old(Stopped()) ==> Stopped())
      ensures found <==> exists i :: 0 <= i < |old(tasks)| && Eligible(old(tasks)[i], thread)
      ensures found ==>
                exists k :: 0 <= k < |old(tasks)| && Earliest(old(tasks), k, thread) && tasks == RemoveAt(old(tasks), k)
                  && workers == old(workers)[thread := Worker(Holding(old(tasks)[k]), old(workers)[thread].idleEnded)]
      ensures !found ==> tasks == old(tasks)
                           && workers == old(workers)[thread := Worker(FoundNone, old(workers)[thread].idleEnded)]
      ensures !found ==> activeThreadCount == old(activeThreadCount) && ledger == old(ledger)
      ensures AllLater(old(ledger), ledger)
    {
      var k, skipped := FindTask(thread);
      found := k < |tasks|;
      if found {
        assert Earliest(tasks, k, thread);
        tickleMe := skipped || k + 1 != |tasks|;
        Grab(thread, k);
      } else {
        tickleMe := skipped;
        Counted(Snapshot(), quiet ==> Stopped(), thread);
        Move(thread, FoundNone, workers[thread].idleEnded);
      }
    }

    /** The worker goes on without a task. */
    method Move(w: int, phase: Phase, idleEnded: bool)
      requires Valid() && w in workers && (workers[w].phase.Looking? || workers[w].phase.FoundNone?)
      requires phase.Looking? || phase.FoundNone? || phase.Exited?
      requires quiet && (idleEnded || phase.Exited?) ==> Stopped()
      modifies this`workers
      ensures Valid() && workers == old(workers)[w := Worker(phase, idleEnded)]
    {
      Counted(Snapshot(), quiet ==> Stopped(), w);
      assert idlers - {w} == idlers;
      MoveKeeps(Snapshot(), quiet ==> Stopped(), w, Worker(phase, idleEnded), idlers, idleThreadCount);
      workers := workers[w := Worker(phase, idleEnded)];
    }

    /** The task at `k` leaves the queue and is held by the worker. */
    method Grab(w: int, k: nat)
      requires Valid() && w in workers && workers[w].phase.Looking? && k < |tasks| && Eligible(tasks[k], w)
      modifies this`tasks, this`activeThreadCount, this`workers, this`ledger, this`holders
      ensures Valid() && tasks == RemoveAt(old(tasks), k)
      ensures workers == old(workers)[w := Worker(Holding(old(tasks)[k]), old(workers)[w].idleEnded)]
      ensures AllLater(old(ledger), ledger)
    {
      var t := tasks[k];
      GrabKeeps(Snapshot(), quiet ==> Stopped(), w, k);
      activeThreadCount := activeThreadCount + 1;
      holders := holders + {w};
      workers := workers[w := Worker(Holding(t), workers[w].idleEnded)];
      ledger := ledger[t.id := Entry(t.thread, Running(w))];
      tasks := RemoveAt(tasks, k);
    }

    /** The task's `resume` has returned. */
    method Finish(w: int)
      requires Valid() && w in workers && workers[w].phase.Holding?
      modifies this`activeThreadCount, this`workers, this`ledger, this`holders
      ensures Valid() && workers == old(workers)[w := Worker(Looking, old(workers)[w].idleEnded)]
      ensures ledger == old(ledger)[old(workers)[w].phase.task.id := Entry(old(workers)[w].phase.task.thread, Done(w))]
      ensures AllLater(old(ledger), ledger)
    {
      var t := workers[w].phase.task;
      FinishKeeps(Snapshot(), quiet ==> Stopped(), w);
      RunningMeansNotStopped(Some(w));
      AllowedMore(Finished(Snapshot(), w), quiet ==> Stopped(),
                  quiet ==> stopping && tasks == [] && activeThreadCount == 1);
      ledger := ledger[t.id := Entry(t.thread, Done(w))];
      workers := workers[w := Worker(Looking, workers[w].idleEnded)];
      activeThreadCount := activeThreadCount - 1;
      holders := holders - {w};
    }

    /** No task found: leave the loop if the idle fiber has terminated, otherwise resume it. */
    method EnterIdle(w: int) returns (left: bool)
      requires Valid() && w in workers && workers[w].phase.FoundNone?
      modifies this`workers, this`idleThreadCount, this`idlers
      ensures Valid() && left == old(workers)[w].idleEnded
      ensures workers == old(workers)[w := Worker(if left then Exited else Idling, left)]
    {
      Counted(Snapshot(), quiet ==> Stopped(), w);
      left := workers[w].idleEnded;
      if left {
        Move(w, Exited, true);
      } else {
        MoveKeeps(Snapshot(), quiet ==> Stopped(), w, Worker(Idling, false), idlers + {w}, idleThreadCount + 1);
        workers := workers[w := Worker(Idling, false)];
        idleThreadCount := idleThreadCount + 1;
        idlers := idlers + {w};
      }
    }

    /** One round of the idle fiber: it ends if the scheduler has stopped, otherwise it yields. */
    method Idle(w: int)
      requires Valid() && w in workers && workers[w].phase.Idling?
      modifies this`workers, this`idleThreadCount, this`idlers
      ensures Valid() && workers == old(workers)[w := Worker(Looking, Stopped())]
    {
      Counted(Snapshot(), quiet ==> Stopped(), w);
      MoveKeeps(Snapshot(), quiet ==> Stopped(), w, Worker(Looking, Stopped()), idlers - {w}, idleThreadCount - 1);
      workers := workers[w := Worker(Looking, Stopped())];
      idleThreadCount := idleThreadCount - 1;
      idlers := idlers - {w};
    }

    method Stop()
      requires Valid()
      modifies this`stopping
      ensures Valid() && stopping
    {
      AllowedMore(Snapshot(), quiet ==> Stopped(), quiet ==> tasks == [] && activeThreadCount == 0);
      stopping := true;
    }

    /** The active count is the number of workers holding a task. */
    lemma ActiveCountsHolders()
      requires Valid()
      ensures activeThreadCount == |set w | w in workers && workers[w].phase.Holding?|
      ensures idleThreadCount == |set w | w in workers && workers[w].phase.Idling?|
    {
      Rules(Snapshot(), quiet ==> Stopped());
      var holding := set w | w in workers && workers[w].phase.Holding?;
      var idling := set w | w in workers && workers[w].phase.Idling?;
      forall w
        ensures w in holders <==> w in holding
        ensures w in idlers <==> w in idling
      {
        if w in workers { Counted(Snapshot(), quiet ==> Stopped(), w); }
      }
      assert holders == holding && idlers == idling;
    }

    /** The task `id` has been run, on a thread it may run on. */
    ghost predicate WasRun(id: nat)
      reads this
    {
      id in ledger && ledger[id].fate.Done? && Eligible(Task(id, ledger[id].thread), ledger[id].fate.thread)
    }

    /** All tasks ever scheduled have been run exactly when none is queued and no worker is active. */
    lemma AllRun()
      requires Valid()
      ensures (forall id: nat :: id < issued ==> WasRun(id)) <==> tasks == [] && activeThreadCount == 0
    {
      Rules(Snapshot(), quiet ==> Stopped());
      if tasks != [] {
        assert !WasRun(tasks[0].id);
      } else if activeThreadCount > 0 {
        var w := Member(holders);
        assert WorkerFits(workers[w], w, holders, idlers, ledger, quiet ==> Stopped());
        assert !WasRun(workers[w].phase.task.id);
      } else {
        assert |holders| == 0;
        forall id: nat | id < issued
          ensures WasRun(id)
        {
          assert EntryFits(id, ledger[id], tasks, workers);
          if ledger[id].fate.Running? { Counted(Snapshot(), quiet ==> Stopped(), ledger[id].fate.thread); }
        }
      }
    }

    /** When a worker has left, or its idle fiber has ended, every task ever scheduled has been run. */
    lemma LeavingMeansDone(w: int)
      requires Valid() && quiet && w in workers && (workers[w].phase.Exited? || workers[w].idleEnded)
      ensures forall id: nat :: id < issued ==> WasRun(id)
    {
      Counted(Snapshot(), quiet ==> Stopped(), w);
      AllRun();
    }

    /** One step of any thread, if that thread can take it. Only scheduling a task ends a stop. */
    method Do(step: Step) returns (done: bool)
      requires Valid()
      modifies this
      ensures Valid()
      ensures old(Stopped()) ==> (Stopped() <==> !(step.ScheduleTask? && !step.empty))
      ensures quiet == (old(quiet) && !(old(Stopped()) && step.ScheduleTask? && !step.empty))
      ensures byTasks == (old(byTasks) && !(step.ScheduleTask? && !step.empty && !old(InTime(step.caller))))
      ensures AllLater(old(ledger), ledger)
    {
      match step {
        case ScheduleTask(empty, thread, caller) =>
          var _ := Schedule(empty, thread, caller);
          done := true;
        case StopAll => Stop(); done := true;
        case Advance(w) =>
          done := w in workers && !workers[w].phase.Exited?;
          if done { AdvanceWorker(w); }
      }
    }

    method AdvanceWorker(w: int)
      requires Valid() && w in workers && !workers[w].phase.Exited?
      modifies this
      ensures Valid() && (old(Stopped()) ==> Stopped())
      ensures quiet == old(quiet) && byTasks == old(byTasks)
      ensures AllLater(old(ledger), ledger)
    {
      if workers[w].phase.Looking? {
        var _, _ := Take(w);
      } else if workers[w].phase.Holding? {
        RunningMeansNotStopped(Some(w));
        Finish(w);
      } else if workers[w].phase.FoundNone? {
        var _ := EnterIdle(w);
      } else {
        Idle(w);
      }
    }
  }

  /**
   A task keeps its thread, and only goes on from the queue to a worker and from there to done,
   staying with that worker.
   */
  predicate Later(before: Entry, now: Entry) {
    && now.thread == before.thread
    && match before.fate
       case Queued => true
       case Running(w) => now.fate == Running(w) || now.fate == Done(w)
       case Done(w) => now.fate == Done(w)
  }

  /** Every task of `before` is still known, and where it was or further on. */
  ghost predicate AllLater(before: map<nat, Entry>, now: map<nat, Entry>) {
    forall id :: id in before ==> id in now && Later(before[id], now[id])
  }

  datatype Step = ScheduleTask(empty: bool, thread: int, caller: Option<int>) | StopAll | Advance(w: int)

  /** The task at `k` is the first the thread may run. */
  ghost predicate Earliest(tasks: seq<Task>, k: nat, thread: int) {
    k < |tasks| && Eligible(tasks[k], thread) && forall i :: 0 <= i < k ==> !Eligible(tasks[i], thread)
  }

  /**
   Any interleaving of any number of workers. If no task is scheduled while `stopping()` is true,
   and so in particular if only running tasks schedule after `stop`, then when a worker has left
   `run`, every task that was ever scheduled has been run once, on a thread it may run on.
   */
  method Run(threads: set<int>, steps: seq<Step>) returns (s: Scheduler)
    ensures s.Valid() && (s.byTasks ==> s.quiet)
    ensures s.quiet && (exists w :: w in s.workers && s.workers[w].phase.Exited?) ==>
              s.Stopped() && forall id: nat :: id < s.issued ==> s.WasRun(id)
  {
    s := new Scheduler(threads);
    for i := 0 to |steps|
      invariant s.Valid() && fresh(s)
    {
      var _ := s.Do(steps[i]);
    }
    if w :| w in s.workers && s.workers[w].phase.Exited? && s.quiet {
      Counted(s.Snapshot(), s.quiet ==> s.Stopped(), w);
      s.LeavingMeansDone(w);
    }
  }

  /** The only worker finds no task and turns to its idle fiber, or leaves if that has ended. */
  method TurnAlone(s: Scheduler, ended: bool)
    requires s.Valid() && s.workers == map[1 := Worker(Looking, ended)] && s.Stopped()
    modifies s
    ensures s.Valid() && s.workers == map[1 := Worker(if ended then Exited else Idling, ended)] && s.Stopped()
            && s.quiet == old(s.quiet)
  {
    var _, _ := s.Take(1);
    var _ := s.EnterIdle(1);
  }

  /** The only worker of a scheduler, from `stop` until it has left. */
  method StopAlone() returns (s: Scheduler)
    ensures s.Valid() && fresh(s) && s.workers == map[1 := Worker(Exited, true)] && s.Stopped() && s.quiet
  {
    s := new Scheduler({1});
    s.Stop();
    TurnAlone(s, false);
    s.Idle(1);
    TurnAlone(s, true);
  }

  /** A task scheduled after that stays in the queue for good. */
  method LateTask() returns (s: Scheduler)
    ensures s.Valid() && s.workers == map[1 := Worker(Exited, true)] && s.tasks != [] && !s.quiet
  {
    s := StopAlone();
    var _ := s.Schedule(false, AnyThread, None);
  }
}
