/** What every step of the runtime keeps, and what follows for whole runs. */
module RuntimeInv {
  import opened Bytes
  import opened Runtime

  /** The wake-up of a suspended fiber is where its record says. */
  predicate PlaceOk(s: State, f: nat, x: Fiber) {
    match x.place
    case Nowhere => false
    case AtEvent => x.phase.Waiting? && x.phase.call.key in s.reg && s.reg[x.phase.call.key] == Fib(f)
    case AtTimer => x.phase.Sleeping? && x.phase.timer in s.alarms && s.alarms[x.phase.timer] == SleepOf(f)
    case AtCallback => x.phase.Sleeping? && WakeUp(f) in s.queue
    case AtQueue =>
      RunFiber(f) in s.queue && (x.phase.Waiting? || x.phase.Sleeping? || x.phase.Yielded? || x.phase.Fresh?)
  }

  predicate FiberOk(s: State, f: nat, x: Fiber) {
    match x.status
    case RUNNING =>
      && s.stage == Running(f) && x.place.Nowhere?
      && (x.phase.User? || (x.phase.Calling? && !x.phase.call.cancelled))
    case TERM => s.stage != Running(f) && x.place.Nowhere? && x.phase.Finished?
    case READY =>
      && s.stage != Running(f) && PlaceOk(s, f, x)
      && (x.phase.Waiting? && x.phase.call.cancelled ==> x.phase.timer in s.fired && x.phase.timer !in s.alarms)
      && (x.phase.Waiting? && x.phase.timer in s.fired ==>
            x.phase.call.cancelled || Timeout(x.phase.timer, f, x.phase.call.id, x.phase.call.key) in s.queue)
      && (x.phase.Waiting? || x.phase.Sleeping? ==>
            x.phase.timer < s.nextTimer && (x.phase.timer in s.alarms ==> s.alarms[x.phase.timer].f == f))
  }

  predicate FibersOk(s: State) {
    && (forall f :: f in s.fibers ==> FiberOk(s, f, s.fibers[f]))
    && (s.stage.Running? ==> s.stage.f in s.fibers && s.fibers[s.stage.f].status == RUNNING)
  }

  /** Fiber `f` waits in the call `c` for the event `k`, with the timer `t`. */
  predicate WaitsFor(s: State, f: nat, t: nat, c: nat, k: Key) {
    && f in s.fibers && s.fibers[f].status == READY && s.fibers[f].phase.Waiting?
    && s.fibers[f].phase.timer == t && s.fibers[f].phase.call.id == c && s.fibers[f].phase.call.key == k
    && !s.fibers[f].phase.call.cancelled
  }

  predicate TargetOk(s: State, k: Key) requires k in s.reg {
    match s.reg[k]
    case UserCb => true
    case Fib(f) =>
      && f in s.fibers && s.fibers[f].place.AtEvent?
      && s.fibers[f].phase.Waiting? && s.fibers[f].phase.call.key == k
  }

  predicate TaskOk(s: State, t: Task) {
    match t
    case UserTask => true
    case RunFiber(f) => f in s.fibers && s.fibers[f].place.AtQueue?
    case WakeUp(f) => f in s.fibers && s.fibers[f].place.AtCallback?
    case Timeout(w, f, c, k) => WaitsFor(s, f, w, c, k) && w !in s.alarms && w in s.fired
  }

  predicate AlarmOk(s: State, t: nat) requires t in s.alarms {
    && t < s.nextTimer
    && match s.alarms[t]
       case TimeoutOf(f, c, k) => WaitsFor(s, f, t, c, k)
       case SleepOf(f) =>
         && f in s.fibers && s.fibers[f].place.AtTimer?
         && s.fibers[f].phase.Sleeping? && s.fibers[f].phase.timer == t
  }

  /** `t` may stand before `u` in the queue: no task twice, and no timeout after the fiber it is for. */
  predicate MayPrecede(t: Task, u: Task) {
    && (t == u ==> t.UserTask?)
    && !(t.RunFiber? && u.Timeout? && t.f == u.f)
  }

  predicate QueueOk(s: State) {
    && (forall i :: 0 <= i < |s.queue| ==> TaskOk(s, s.queue[i]))
    && (forall i, j :: 0 <= i < j < |s.queue| ==> MayPrecede(s.queue[i], s.queue[j]))
    && (s.stage.IdleTimers? ==> forall i :: 0 <= i < |s.queue| ==> !s.queue[i].RunFiber?)
  }

  predicate Inv(s: State) {
    && FibersOk(s)
    && (forall k :: k in s.reg ==> TargetOk(s, k))
    && QueueOk(s)
    && (forall t :: t in s.alarms ==> AlarmOk(s, t))
    && (forall t :: t in s.fired ==> t < s.nextTimer)
  }

  // ---- Tasks and events ------------------------------------------------------------------

  lemma UserTaskKeeps(s: State)
    requires Inv(s)
    ensures Inv(Enqueue(s, UserTask))
  {
    var s' := Enqueue(s, UserTask);
    assert forall t :: t in s.queue ==> t in s'.queue;
    assert forall f :: f in s.fibers ==> FiberOk(s, f, s.fibers[f]);
    assert forall k :: k in s.reg ==> TargetOk(s, k);
    assert forall w :: w in s.alarms ==> AlarmOk(s, w);
  }

  lemma WakeFibers(s: State, k: Key, f: nat)
    requires Inv(s) && k in s.reg && s.reg[k] == Fib(f)
    ensures f in s.fibers && FibersOk(Trigger(s, k))
  {
    var s' := Trigger(s, k);
    assert TargetOk(s, k) && FiberOk(s, f, s.fibers[f]);
    assert forall t :: t in s.queue ==> t in s'.queue;
    assert RunFiber(f) == s'.queue[|s.queue|];
    forall g | g in s'.fibers
      ensures FiberOk(s', g, s'.fibers[g])
    {
      assert FiberOk(s, g, s.fibers[g]);
    }
  }

  lemma WakeQueue(s: State, k: Key, f: nat)
    requires Inv(s) && k in s.reg && s.reg[k] == Fib(f) && !s.stage.IdleTimers?
    ensures QueueOk(Trigger(s, k))
  {
    var s' := Trigger(s, k);
    assert TargetOk(s, k) && FiberOk(s, f, s.fibers[f]);
    forall t | t in s.queue
      ensures TaskOk(s', t) && MayPrecede(t, RunFiber(f))
    {
      assert TaskOk(s, t);
    }
    QueueKeeps(s, s', false, [RunFiber(f)]);
  }

  /** The one place where a wake-up moves from an event to the queue. */
  lemma WakeKeeps(s: State, k: Key, f: nat)
    requires Inv(s) && k in s.reg && s.reg[k] == Fib(f) && !s.stage.IdleTimers?
    ensures Inv(Trigger(s, k))
  {
    WakeFibers(s, k, f);
    WakeQueue(s, k, f);
    assert forall j :: j in s.reg ==> TargetOk(s, j);
    assert forall w :: w in s.alarms ==> AlarmOk(s, w);
  }

  lemma UserEventKeeps(s: State, k: Key)
    requires Inv(s) && k in s.reg && s.reg[k] == UserCb
    ensures Inv(s.(reg := s.reg - {k}))
  {
    assert forall f :: f in s.fibers ==> FiberOk(s, f, s.fibers[f]);
    assert forall j :: j in s.reg ==> TargetOk(s, j);
    assert forall w :: w in s.alarms ==> AlarmOk(s, w);
  }

  lemma TriggerKeeps(s: State, k: Key)
    requires Inv(s) && k in s.reg && !s.stage.IdleTimers?
    ensures Inv(Trigger(s, k))
  {
    match s.reg[k]
    case Fib(f) => WakeKeeps(s, k, f);
    case UserCb => UserEventKeeps(s, k); UserTaskKeeps(s.(reg := s.reg - {k}));
  }

  lemma CancelKeeps(s: State, k: Key, ctl: bool)
    requires Inv(s) && !s.stage.IdleTimers?
    ensures Inv(CancelEvent(s, k, ctl)) && CancelEvent(s, k, ctl).stage == s.stage
  {
    if k in s.reg && ctl { TriggerKeeps(s, k); }
  }

  lemma AddUserEventKeeps(s: State, k: Key)
    requires Inv(s) && k !in s.reg
    ensures Inv(s.(reg := s.reg[k := UserCb]))
  {
    assert forall f :: f in s.fibers ==> FiberOk(s, f, s.fibers[f]);
    assert forall j :: j in s.reg ==> TargetOk(s, j);
    assert forall w :: w in s.alarms ==> AlarmOk(s, w);
  }

  // ---- The queue -------------------------------------------------------------------------

  /** The first task is about a fiber whose other wake-ups and timeouts are not in the rest of the queue. */
  lemma PopKeeps(s: State)
    requires QueueOk(s) && s.queue != []
    ensures QueueOk(s.(queue := s.queue[1..])) && TaskOk(s, s.queue[0])
    ensures forall t :: t in s.queue[1..] ==> TaskOk(s, t) && MayPrecede(s.queue[0], t)
    ensures forall t :: t in s.queue && t != s.queue[0] ==> t in s.queue[1..]
  {
    var q := s.queue[1..];
    forall i, j | 0 <= i < j < |q|
      ensures MayPrecede(q[i], q[j])
    {
      assert q[i] == s.queue[i + 1] && q[j] == s.queue[j + 1];
    }
  }

  /** A queue whose tasks stay right, less its head or with one more task, stays right. */
  lemma QueueKeeps(s: State, s': State, popped: bool, add: seq<Task>)
    requires QueueOk(s) && (popped ==> s.queue != []) && |add| <= 1
    requires s'.queue == (if popped then s.queue[1..] else s.queue) + add
    requires forall t :: t in s.queue && (popped ==> t != s.queue[0] || t.UserTask?) ==> TaskOk(s', t)
    requires forall t :: t in add ==> TaskOk(s', t) && (s'.stage.IdleTimers? ==> !t.RunFiber?)
    requires forall t, u :: t in s.queue && u in add ==> MayPrecede(t, u)
    requires s'.stage.IdleTimers? ==> s.stage.IdleTimers?
    ensures QueueOk(s')
  {
    var d := if popped then 1 else 0;
    var n := |s.queue| - d;
    forall i | 0 <= i < |s'.queue|
      ensures TaskOk(s', s'.queue[i]) && (s'.stage.IdleTimers? ==> !s'.queue[i].RunFiber?)
    {
      assert s'.queue[i] == if i < n then s.queue[i + d] else add[i - n];
      assert popped && i < n ==> MayPrecede(s.queue[0], s.queue[i + 1]);
    }
    forall i, j | 0 <= i < j < |s'.queue|
      ensures MayPrecede(s'.queue[i], s'.queue[j])
    {
      assert s'.queue[i] == s.queue[i + d];
      assert s'.queue[j] == if j < n then s.queue[j + d] else add[j - n];
    }
  }

  /** The machine once `f`, taken from the head of the queue, runs with its timer `gone`. */
  function Resumed(s: State, f: nat, phase: Phase, gone: set<nat>, r: Return): State
    requires s.queue != []
  {
    s.(queue := s.queue[1..], stage := Running(f), alarms := s.alarms - gone,
       fibers := s.fibers[f := Fiber(RUNNING, phase, Nowhere)], returned := r)
  }

  lemma ResumedKeepsTasks(s: State, f: nat, phase: Phase, gone: set<nat>, r: Return)
    requires Inv(s) && s.queue != [] && s.queue[0] == RunFiber(f)
    ensures QueueOk(Resumed(s, f, phase, gone, r))
  {
    PopKeeps(s);
    var s' := Resumed(s, f, phase, gone, r);
    forall i | 0 <= i < |s'.queue|
      ensures TaskOk(s', s'.queue[i])
    {
      var t := s'.queue[i];
      assert t in s.queue[1..];
      assert !t.UserTask? ==> t.f != f;
    }
  }

  lemma ResumedKeepsFibers(s: State, f: nat, phase: Phase, gone: set<nat>, r: Return)
    requires Inv(s) && s.stage.Loop? && s.queue != [] && s.queue[0] == RunFiber(f)
    requires phase.User? || (phase.Calling? && !phase.call.cancelled)
    requires forall t :: t in gone && t in s.alarms ==> s.alarms[t].f == f
    ensures FibersOk(Resumed(s, f, phase, gone, r))
  {
    PopKeeps(s);
    var s' := Resumed(s, f, phase, gone, r);
    forall g | g in s'.fibers
      ensures FiberOk(s', g, s'.fibers[g])
    {
      if g != f {
        assert FiberOk(s, g, s.fibers[g]);
        assert WakeUp(g) in s.queue ==> WakeUp(g) in s'.queue;
        assert RunFiber(g) in s.queue ==> RunFiber(g) in s'.queue;
        assert forall t :: t in s.queue && t.Timeout? ==> t in s'.queue;
      }
    }
  }

  lemma ResumedKeeps(s: State, f: nat, phase: Phase, gone: set<nat>, r: Return)
    requires Inv(s) && s.stage.Loop? && s.queue != [] && s.queue[0] == RunFiber(f)
    requires phase.User? || (phase.Calling? && !phase.call.cancelled)
    requires forall t :: t in s.alarms ==> (t in gone <==> s.alarms[t].f == f)
    ensures Inv(Resumed(s, f, phase, gone, r))
  {
    ResumedKeepsTasks(s, f, phase, gone, r);
    ResumedKeepsFibers(s, f, phase, gone, r);
    var s' := Resumed(s, f, phase, gone, r);
    assert TaskOk(s, s.queue[0]);
    assert forall k :: k in s.reg ==> TargetOk(s, k);
    assert forall w :: w in s.alarms ==> AlarmOk(s, w);
  }

  /** A dequeued fiber is ready, and its call leaves nothing behind when it goes on. */
  lemma ResumeKeeps(s: State, f: nat)
    requires Inv(s) && s.stage.Loop? && s.queue != [] && s.queue[0] == RunFiber(f)
    ensures f in s.fibers && s.fibers[f].status == READY
    ensures Inv(Resume(s.(queue := s.queue[1..]), f))
  {
    assert TaskOk(s, s.queue[0]);
    assert FiberOk(s, f, s.fibers[f]);
    assert forall w :: w in s.alarms ==> AlarmOk(s, w);
    var s' := Resume(s.(queue := s.queue[1..]), f);
    var phase := s.fibers[f].phase;
    var gone := if phase.Waiting? then {phase.timer} else {};
    ResumedKeeps(s, f, s'.fibers[f].phase, gone, s'.returned);
    assert s' == Resumed(s, f, s'.fibers[f].phase, gone, s'.returned);
  }

  function WokenUp(s: State, f: nat): State
    requires s.queue != [] && f in s.fibers
  {
    Enqueue(Put(s.(queue := s.queue[1..]), f, s.fibers[f].(place := AtQueue)), RunFiber(f))
  }

  lemma WokenUpQueue(s: State, f: nat)
    requires Inv(s) && s.stage.Loop? && s.queue != [] && s.queue[0] == WakeUp(f)
    ensures f in s.fibers && QueueOk(WokenUp(s, f))
  {
    assert TaskOk(s, s.queue[0]);
    var s' := WokenUp(s, f);
    assert FiberOk(s, f, s.fibers[f]);
    forall t | t in s.queue
      ensures t != s.queue[0] || t.UserTask? ==> TaskOk(s', t)
      ensures MayPrecede(t, RunFiber(f))
    {
      assert TaskOk(s, t);
    }
    QueueKeeps(s, s', true, [RunFiber(f)]);
  }

  lemma WokenUpFibers(s: State, f: nat)
    requires Inv(s) && s.stage.Loop? && s.queue != [] && s.queue[0] == WakeUp(f)
    ensures f in s.fibers && FibersOk(WokenUp(s, f))
  {
    assert TaskOk(s, s.queue[0]) && FiberOk(s, f, s.fibers[f]);
    var s' := WokenUp(s, f);
    assert RunFiber(f) == s'.queue[|s.queue| - 1];
    forall t | t in s.queue && t != s.queue[0]
      ensures t in s'.queue
    {
      assert t in s.queue[1..];
    }
    forall g | g in s'.fibers
      ensures FiberOk(s', g, s'.fibers[g])
    {
      assert FiberOk(s, g, s.fibers[g]);
    }
  }

  /** A sleeper's callback schedules the sleeper. */
  lemma WakeUpKeeps(s: State, f: nat)
    requires Inv(s) && s.stage.Loop? && s.queue != [] && s.queue[0] == WakeUp(f)
    ensures f in s.fibers && Inv(WokenUp(s, f))
  {
    WokenUpQueue(s, f);
    WokenUpFibers(s, f);
    assert TaskOk(s, s.queue[0]) && FiberOk(s, f, s.fibers[f]);
    assert forall k :: k in s.reg ==> TargetOk(s, k);
    assert forall w :: w in s.alarms ==> AlarmOk(s, w);
  }

  function Flagged(s: State, t: Task): State
    requires s.queue != [] && t.Timeout? && t.f in s.fibers && s.fibers[t.f].phase.Waiting?
  {
    var x := s.fibers[t.f];
    Put(s.(queue := s.queue[1..]), t.f, x.(phase := Waiting(x.phase.call.(cancelled := true), x.phase.timer)))
  }

  lemma FlaggedQueue(s: State, t: Task)
    requires Inv(s) && s.stage.Loop? && s.queue != [] && s.queue[0] == t && t.Timeout?
    ensures t.f in s.fibers && s.fibers[t.f].phase.Waiting? && QueueOk(Flagged(s, t))
  {
    assert TaskOk(s, s.queue[0]);
    var s' := Flagged(s, t);
    forall u | u in s.queue && u != t
      ensures TaskOk(s', u)
    {
      assert TaskOk(s, u);
    }
    QueueKeeps(s, s', true, []);
  }

  lemma FlaggedFibers(s: State, t: Task)
    requires Inv(s) && s.stage.Loop? && s.queue != [] && s.queue[0] == t && t.Timeout?
    ensures t.f in s.fibers && s.fibers[t.f].phase.Waiting? && FibersOk(Flagged(s, t))
  {
    assert TaskOk(s, s.queue[0]);
    var s' := Flagged(s, t);
    forall u | u in s.queue && u != s.queue[0]
      ensures u in s'.queue
    {
      assert u in s.queue[1..];
    }
    forall g | g in s'.fibers
      ensures FiberOk(s', g, s'.fibers[g])
    {
      assert FiberOk(s, g, s.fibers[g]);
    }
  }

  /** The flag is set while the fiber still waits, so it can only mean this wait's timer. */
  lemma FlagKeeps(s: State, t: Task)
    requires Inv(s) && s.stage.Loop? && s.queue != [] && s.queue[0] == t && t.Timeout?
    ensures t.f in s.fibers && s.fibers[t.f].phase.Waiting? && Inv(Flagged(s, t))
  {
    FlaggedQueue(s, t);
    FlaggedFibers(s, t);
    assert TaskOk(s, t);
    assert forall k :: k in s.reg ==> TargetOk(s, k);
    assert forall w :: w in s.alarms ==> AlarmOk(s, w);
  }

  lemma UserTaskRuns(s: State, id: nat)
    requires Inv(s) && s.stage.Loop? && s.queue != [] && s.queue[0] == UserTask && id !in s.fibers
    ensures Inv(Put(s.(queue := s.queue[1..]), id, Fiber(RUNNING, User, Nowhere)).(stage := Running(id)))
  {
    var s' := Put(s.(queue := s.queue[1..]), id, Fiber(RUNNING, User, Nowhere)).(stage := Running(id));
    PopKeeps(s);
    QueueKeeps(s, s', true, []);
    assert forall g :: g in s.fibers ==> FiberOk(s, g, s.fibers[g]);
    assert forall k :: k in s.reg ==> TargetOk(s, k);
    assert forall w :: w in s.alarms ==> AlarmOk(s, w);
  }

  lemma DequeueKeeps(s: State, ctl: bool, id: nat)
    requires Inv(s) && Enabled(s, Dequeue(ctl, id))
    ensures Inv(TakeTask(s, ctl, id))
  {
    var t := s.queue[0];
    match t
    case RunFiber(f) => ResumeKeeps(s, f);
    case WakeUp(f) => WakeUpKeeps(s, f);
    case UserTask => UserTaskRuns(s, id);
    case Timeout(_, f, _, k) =>
      FlagKeeps(s, t);
      assert TaskOk(s, t);
      CancelKeeps(Flagged(s, t), k, ctl);
  }

  // ---- Idle ------------------------------------------------------------------------------

  lemma ExpireQueue(s: State, t: nat)
    requires Inv(s) && Enabled(s, Expire(t))
    ensures QueueOk(ExpireOne(s, t))
  {
    var s' := ExpireOne(s, t);
    assert AlarmOk(s, t);
    forall u | u in s.queue
      ensures TaskOk(s', u) && MayPrecede(u, s'.queue[|s.queue|])
    {
      assert TaskOk(s, u);
    }
    QueueKeeps(s, s', false, [s'.queue[|s.queue|]]);
  }

  lemma ExpireFibers(s: State, t: nat)
    requires Inv(s) && Enabled(s, Expire(t))
    ensures FibersOk(ExpireOne(s, t))
  {
    var s' := ExpireOne(s, t);
    assert AlarmOk(s, t);
    assert forall u :: u in s.queue ==> u in s'.queue;
    assert s'.queue[|s.queue|] in s'.queue;
    forall g | g in s'.fibers
      ensures FiberOk(s', g, s'.fibers[g])
    {
      assert FiberOk(s, g, s.fibers[g]);
    }
  }

  lemma ExpireKeeps(s: State, t: nat)
    requires Inv(s) && Enabled(s, Expire(t))
    ensures Inv(ExpireOne(s, t))
  {
    ExpireQueue(s, t);
    ExpireFibers(s, t);
    assert AlarmOk(s, t);
    assert forall k :: k in s.reg ==> TargetOk(s, k);
    assert forall w :: w in s.alarms ==> AlarmOk(s, w);
  }

  lemma StageKeeps(s: State, step: Step)
    requires Inv(s) && Enabled(s, step) && (step.BeginIdle? || step.BeginEvents? || step.EndIdle?)
    ensures Inv(Next(s, step))
  {
    assert forall f :: f in s.fibers ==> FiberOk(s, f, s.fibers[f]);
    assert forall k :: k in s.reg ==> TargetOk(s, k);
    assert forall w :: w in s.alarms ==> AlarmOk(s, w);
  }

  // ---- The running fiber -----------------------------------------------------------------

  /** Nothing in the runtime refers to a running fiber. */
  lemma RunningIsFree(s: State, f: nat)
    requires Inv(s) && s.stage == Running(f)
    ensures f in s.fibers && s.fibers[f].status == RUNNING
    ensures forall k :: k in s.reg ==> s.reg[k] != Fib(f)
    ensures forall w :: w in s.alarms ==> s.alarms[w].f != f
    ensures forall t :: t in s.queue && !t.UserTask? ==> t.f != f
  {
    assert FiberOk(s, f, s.fibers[f]);
    assert forall k :: k in s.reg ==> TargetOk(s, k);
    assert forall w :: w in s.alarms ==> AlarmOk(s, w);
    forall t | t in s.queue && !t.UserTask?
      ensures t.f != f
    {
      assert TaskOk(s, t);
    }
  }

  /** Changing only what the running fiber does. */
  lemma RunningKeeps(s: State, f: nat, phase: Phase, r: Return, calls: nat, timers: nat)
    requires Inv(s) && s.stage == Running(f) && s.nextTimer <= timers
    requires phase.User? || (phase.Calling? && !phase.call.cancelled)
    ensures Inv(Put(s, f, Fiber(RUNNING, phase, Nowhere)).(returned := r, nextCall := calls, nextTimer := timers))
  {
    var s' := Put(s, f, Fiber(RUNNING, phase, Nowhere)).(returned := r, nextCall := calls, nextTimer := timers);
    RunningIsFree(s, f);
    QueueKeeps(s, s', false, []);
    assert forall g :: g in s.fibers ==> FiberOk(s, g, s.fibers[g]);
    assert forall k :: k in s.reg ==> TargetOk(s, k);
    assert forall w :: w in s.alarms ==> AlarmOk(s, w);
  }

  lemma FinishKeeps(s: State, f: nat)
    requires Inv(s) && s.stage == Running(f)
    ensures Inv(Put(s, f, Fiber(TERM, Finished, Nowhere)).(stage := Loop))
  {
    RunningIsFree(s, f);
    assert forall g :: g in s.fibers ==> FiberOk(s, g, s.fibers[g]);
    assert forall k :: k in s.reg ==> TargetOk(s, k);
    assert forall w :: w in s.alarms ==> AlarmOk(s, w);
  }

  lemma SpawnKeeps(s: State, id: nat)
    requires Inv(s) && Enabled(s, Spawn(id))
    ensures Inv(Next(s, Spawn(id)))
  {
    var s' := Next(s, Spawn(id));
    assert forall u :: u in s.queue ==> u in s'.queue;
    assert s'.queue[|s.queue|] == RunFiber(id);
    QueueKeeps(s, s', false, [RunFiber(id)]);
    assert forall g :: g in s.fibers ==> FiberOk(s, g, s.fibers[g]);
    assert forall k :: k in s.reg ==> TargetOk(s, k);
    assert forall w :: w in s.alarms ==> AlarmOk(s, w);
  }

  lemma YieldQueue(s: State)
    requires Inv(s) && Enabled(s, YieldSelf)
    ensures QueueOk(Next(s, YieldSelf))
  {
    var s' := Next(s, YieldSelf);
    RunningIsFree(s, s.stage.f);
    forall t | t in s.queue
      ensures TaskOk(s', t) && MayPrecede(t, RunFiber(s.stage.f))
    {
      assert TaskOk(s, t);
    }
    QueueKeeps(s, s', false, [RunFiber(s.stage.f)]);
  }

  lemma YieldFibers(s: State)
    requires Inv(s) && Enabled(s, YieldSelf)
    ensures FibersOk(Next(s, YieldSelf))
  {
    var s' := Next(s, YieldSelf);
    RunningIsFree(s, s.stage.f);
    assert forall u :: u in s.queue ==> u in s'.queue;
    assert s'.queue[|s.queue|] == RunFiber(s.stage.f);
    forall g | g in s'.fibers
      ensures FiberOk(s', g, s'.fibers[g])
    {
      assert FiberOk(s, g, s.fibers[g]);
    }
  }

  lemma YieldKeeps(s: State)
    requires Inv(s) && Enabled(s, YieldSelf)
    ensures Inv(Next(s, YieldSelf))
  {
    RunningIsFree(s, s.stage.f);
    YieldQueue(s);
    YieldFibers(s);
    assert forall k :: k in s.reg ==> TargetOk(s, k);
    assert forall w :: w in s.alarms ==> AlarmOk(s, w);
  }

  lemma SleepQueue(s: State)
    requires Inv(s) && Enabled(s, Sleep)
    ensures QueueOk(Next(s, Sleep))
  {
    var s' := Next(s, Sleep);
    RunningIsFree(s, s.stage.f);
    forall u | u in s.queue
      ensures TaskOk(s', u)
    {
      assert TaskOk(s, u);
    }
    QueueKeeps(s, s', false, []);
  }

  lemma SleepFibers(s: State)
    requires Inv(s) && Enabled(s, Sleep)
    ensures FibersOk(Next(s, Sleep))
  {
    var s' := Next(s, Sleep);
    RunningIsFree(s, s.stage.f);
    forall g | g in s'.fibers
      ensures FiberOk(s', g, s'.fibers[g])
    {
      assert FiberOk(s, g, s.fibers[g]);
    }
  }

  lemma SleepKeeps(s: State)
    requires Inv(s) && Enabled(s, Sleep)
    ensures Inv(Next(s, Sleep))
  {
    RunningIsFree(s, s.stage.f);
    SleepQueue(s);
    SleepFibers(s);
    assert forall k :: k in s.reg ==> TargetOk(s, k);
    assert forall w :: w in s.alarms ==> AlarmOk(s, w);
  }

  lemma BlockQueue(s: State)
    requires Inv(s) && Enabled(s, Again(true))
    ensures QueueOk(Next(s, Again(true)))
  {
    var s' := Next(s, Again(true));
    RunningIsFree(s, s.stage.f);
    forall u | u in s.queue
      ensures TaskOk(s', u)
    {
      assert TaskOk(s, u);
    }
    QueueKeeps(s, s', false, []);
  }

  lemma BlockFibers(s: State)
    requires Inv(s) && Enabled(s, Again(true))
    ensures FibersOk(Next(s, Again(true)))
  {
    var s' := Next(s, Again(true));
    RunningIsFree(s, s.stage.f);
    forall g | g in s'.fibers
      ensures FiberOk(s', g, s'.fibers[g])
    {
      assert FiberOk(s, g, s.fibers[g]);
    }
  }

  lemma BlockKeeps(s: State)
    requires Inv(s) && Enabled(s, Again(true))
    ensures Inv(Next(s, Again(true)))
  {
    RunningIsFree(s, s.stage.f);
    BlockQueue(s);
    BlockFibers(s);
    assert forall k :: k in s.reg ==> TargetOk(s, k);
    assert forall w :: w in s.alarms ==> AlarmOk(s, w);
  }

  lemma CloseKeeps(s: State, fd: nat, ctl: bool)
    requires Inv(s) && !s.stage.IdleTimers?
    ensures Inv(CancelEvent(CancelEvent(s, Key(fd, Read), ctl), Key(fd, Write), ctl))
  {
    CancelKeeps(s, Key(fd, Read), ctl);
    CancelKeeps(CancelEvent(s, Key(fd, Read), ctl), Key(fd, Write), ctl);
  }

  /** The invariant of every step. */
  lemma NextKeeps(s: State, step: Step)
    requires Inv(s) && Enabled(s, step)
    ensures Inv(Next(s, step))
  {
    match step
    case External => UserTaskKeeps(s);
    case Dequeue(ctl, id) => DequeueKeeps(s, ctl, id);
    case BeginIdle => StageKeeps(s, step);
    case Expire(t) => ExpireKeeps(s, t);
    case BeginEvents => StageKeeps(s, step);
    case Ready(k) => TriggerKeeps(s, k);
    case EndIdle => StageKeeps(s, step);
    case Spawn(id) => SpawnKeeps(s, id);
    case BeginCall(k, timed, connect) =>
      RunningKeeps(s, s.stage.f, Calling(Call(s.nextCall, k, timed, connect, false)), s.returned, s.nextCall + 1,
          s.nextTimer);
    case Done => RunningKeeps(s, s.stage.f, User, Direct, s.nextCall, s.nextTimer);
    case Again(ctl) =>
      if ctl { BlockKeeps(s); } else { RunningKeeps(s, s.stage.f, User, Failed, s.nextCall, s.nextTimer + 1); }
    case Sleep => SleepKeeps(s);
    case YieldSelf => YieldKeeps(s);
    case Close(fd, ctl) => CloseKeeps(s, fd, ctl);
    case AddUserEvent(k) => AddUserEventKeeps(s, k);
    case DelUserEvent(k) => UserEventKeeps(s, k);
    case CancelUser(k, ctl) => CancelKeeps(s, k, ctl);
    case Finish => FinishKeeps(s, s.stage.f);
  }

  // ---- Whole runs ------------------------------------------------------------------------

  /** The steps lead from `s` to `s'`, each one possible when it is taken. */
  predicate Leads(s: State, steps: seq<Step>, s': State)
    decreases |steps|
  {
    if steps == [] then s == s' else Enabled(s, steps[0]) && Leads(Next(s, steps[0]), steps[1..], s')
  }

  lemma {:induction false} RunKeeps(s: State, steps: seq<Step>, s': State)
    requires Inv(s) && Leads(s, steps, s')
    ensures Inv(s')
    decreases |steps|
  {
    if steps != [] {
      NextKeeps(s, steps[0]);
      RunKeeps(Next(s, steps[0]), steps[1..], s');
    }
  }

  /** Everything that could still put `f` on the processor. */
  datatype Wake = Event(k: Key) | Entry(i: nat) | Timer(t: nat)

  function PendingWakes(s: State, f: nat): set<Wake> {
    (set k | k in s.reg && s.reg[k] == Fib(f) :: Event(k))
    + (set i: nat | i < |s.queue| && (s.queue[i] == RunFiber(f) || s.queue[i] == WakeUp(f)) :: Entry(i))
    + (set t | t in s.alarms && s.alarms[t] == SleepOf(f) :: Timer(t))
  }

  /** The one wake-up of a suspended fiber. */
  ghost predicate TheWake(s: State, f: nat, w: Wake) {
    match w
    case Event(k) => k in s.reg && s.reg[k] == Fib(f)
    case Entry(i) => i < |s.queue| && (s.queue[i] == RunFiber(f) || s.queue[i] == WakeUp(f))
    case Timer(t) => t in s.alarms && s.alarms[t] == SleepOf(f)
  }

  lemma PendingIsWake(s: State, f: nat, w: Wake)
    ensures w in PendingWakes(s, f) <==> TheWake(s, f, w)
  {
  }

  /** Each kind of wake-up goes with one place of the fiber. */
  lemma WakeHasPlace(s: State, f: nat, w: Wake)
    requires Inv(s) && TheWake(s, f, w)
    ensures f in s.fibers && s.fibers[f].status == READY
    ensures w.Event? ==> s.fibers[f].place.AtEvent? && s.fibers[f].phase.call.key == w.k
    ensures w.Timer? ==> s.fibers[f].place.AtTimer? && s.fibers[f].phase.timer == w.t
    ensures w.Entry? ==> s.queue[w.i] == if s.fibers[f].place.AtQueue? then RunFiber(f) else WakeUp(f)
    ensures w.Entry? ==> s.fibers[f].place.AtQueue? || s.fibers[f].place.AtCallback?
  {
    match w
    case Event(k) => assert TargetOk(s, k) && FiberOk(s, f, s.fibers[f]);
    case Timer(t) => assert AlarmOk(s, t) && FiberOk(s, f, s.fibers[f]);
    case Entry(i) => assert TaskOk(s, s.queue[i]) && FiberOk(s, f, s.fibers[f]);
  }

  lemma SameEntry(s: State, i: nat, j: nat)
    requires QueueOk(s) && i <= j < |s.queue| && s.queue[i] == s.queue[j] && !s.queue[i].UserTask?
    ensures i == j
  {
  }

  lemma SameWake(s: State, f: nat, v: Wake, w: Wake)
    requires Inv(s) && TheWake(s, f, v) && TheWake(s, f, w)
    ensures v == w
  {
    WakeHasPlace(s, f, v);
    WakeHasPlace(s, f, w);
    if v.Entry? && w.Entry? { SameEntry(s, Min(v.i, w.i), Max(v.i, w.i)); }
  }

  lemma SomeWake(s: State, f: nat) returns (w: Wake)
    requires Inv(s) && f in s.fibers && s.fibers[f].status == READY
    ensures TheWake(s, f, w)
  {
    var x := s.fibers[f];
    assert FiberOk(s, f, x);
    if x.place.AtEvent? {
      w := Event(x.phase.call.key);
    } else if x.place.AtTimer? {
      w := Timer(x.phase.timer);
    } else {
      var t := if x.place.AtQueue? then RunFiber(f) else WakeUp(f);
      var i :| 0 <= i < |s.queue| && s.queue[i] == t;
      w := Entry(i);
    }
  }

  lemma OneWake(s: State, f: nat)
    requires Inv(s) && f in s.fibers
    ensures if s.fibers[f].status == READY then exists w :: PendingWakes(s, f) == {w} else PendingWakes(s, f) == {}
  {
    if s.fibers[f].status == READY {
      var w := SomeWake(s, f);
      forall v
        ensures v in PendingWakes(s, f) <==> v == w
      {
        PendingIsWake(s, f, v);
        if TheWake(s, f, v) { SameWake(s, f, v, w); }
      }
      assert PendingWakes(s, f) == {w};
    } else {
      forall v
        ensures v !in PendingWakes(s, f)
      {
        PendingIsWake(s, f, v);
        if TheWake(s, f, v) { WakeHasPlace(s, f, v); }
      }
      assert PendingWakes(s, f) == {};
    }
  }

  /**
   Exactly-once wake-up: in every reachable state a suspended fiber has exactly one pending
   wake-up, whatever the order of readiness, timeouts and closes; any other fiber has none.
   */
  lemma ExactlyOneWake(steps: seq<Step>, s: State, f: nat)
    requires Leads(Initial, steps, s) && f in s.fibers
    ensures |PendingWakes(s, f)| == if s.fibers[f].status == READY then 1 else 0
  {
    RunKeeps(Initial, steps, s);
    OneWake(s, f);
  }

  // ---- Deleting an event -----------------------------------------------------------------

  /** Every fiber has the wake-ups it should: one when suspended, none otherwise. */
  ghost predicate OneEach(s: State) {
    forall f :: f in s.fibers ==> |PendingWakes(s, f)| == if s.fibers[f].status == READY then 1 else 0
  }

  /** A fiber whose event is deleted while it waits is never woken again. */
  lemma DeletedWaiterSleeps(s: State, k: Key, f: nat)
    requires Inv(s) && k in s.reg && s.reg[k] == Fib(f)
    ensures f in s.fibers && s.fibers[f].status == READY && PendingWakes(DelEvent(s, k), f) == {}
  {
    var s' := DelEvent(s, k);
    WakeHasPlace(s, f, Event(k));
    forall w
      ensures w !in PendingWakes(s', f)
    {
      PendingIsWake(s', f, w);
      if TheWake(s', f, w) { SameWake(s, f, w, Event(k)); }
    }
  }

  /** `delEvent` keeps exactly one wake-up for every suspended fiber if and only if no fiber waits for that event. */
  lemma DeletionIsSafeIff(steps: seq<Step>, s: State, k: Key)
    requires Leads(Initial, steps, s) && k in s.reg
    ensures OneEach(DelEvent(s, k)) <==> s.reg[k].UserCb?
  {
    RunKeeps(Initial, steps, s);
    match s.reg[k]
    case UserCb =>
      UserEventKeeps(s, k);
      forall f | f in s.fibers
        ensures |PendingWakes(DelEvent(s, k), f)| == if s.fibers[f].status == READY then 1 else 0
      {
        OneWake(DelEvent(s, k), f);
      }
    case Fib(f) => DeletedWaiterSleeps(s, k, f);
  }

  /** A user task that reads from a descriptor which is not ready. */
  const OneReader: seq<Step> := [External, Dequeue(true, 0), BeginCall(Key(3, Read), false, false), Again(true)]

  lemma {:induction false} LeadsMore(s: State, steps: seq<Step>, s': State, step: Step)
    requires Leads(s, steps, s') && Enabled(s', step)
    ensures Leads(s, steps + [step], Next(s', step))
    decreases |steps|
  {
    if steps == [] {
      assert ([] + [step])[1..] == [];
    } else {
      LeadsMore(Next(s, steps[0]), steps[1..], s', step);
      assert (steps + [step])[1..] == steps[1..] + [step];
    }
  }

  /** Such a state is reached: there, deleting the event leaves the reader without a wake-up. */
  lemma LostWakeUp() returns (s: State)
    ensures Leads(Initial, OneReader, s) && 0 in s.fibers && s.fibers[0].status == READY
    ensures Key(3, Read) in s.reg && PendingWakes(DelEvent(s, Key(3, Read)), 0) == {}
  {
    var s1 := Next(Initial, External);
    var s2 := Next(s1, Dequeue(true, 0));
    var s3 := Next(s2, BeginCall(Key(3, Read), false, false));
    s := Next(s3, Again(true));
    LeadsMore(Initial, [], Initial, External);
    LeadsMore(Initial, [] + [External], s1, Dequeue(true, 0));
    LeadsMore(Initial, [] + [External] + [Dequeue(true, 0)], s2, BeginCall(Key(3, Read), false, false));
    LeadsMore(Initial, [] + [External] + [Dequeue(true, 0)] + [BeginCall(Key(3, Read), false, false)], s3, Again(true));
    assert OneReader == [] + [External] + [Dequeue(true, 0)] + [BeginCall(Key(3, Read), false, false)] + [Again(true)];
    RunKeeps(Initial, OneReader, s);
    DeletedWaiterSleeps(s, Key(3, Read), 0);
  }

  /** A wait ends with ETIMEDOUT if and only if its own timer has expired. */
  lemma TimedOutIffExpired(steps: seq<Step>, s: State, f: nat, ctl: bool, id: nat)
    requires Leads(Initial, steps, s) && Enabled(s, Dequeue(ctl, id)) && s.queue[0] == RunFiber(f)
    ensures f in s.fibers
    ensures var x := s.fibers[f].phase;
            x.Waiting? ==>
              (TakeTask(s, ctl, id).returned == TimedOut(f, x.timer) && TakeTask(s, ctl, id).fibers[f].phase.User?
               <==> x.timer in s.fired)
  {
    RunKeeps(Initial, steps, s);
    assert TaskOk(s, s.queue[0]);
    var x := s.fibers[f].phase;
    assert FiberOk(s, f, s.fibers[f]);
    if x.Waiting? && x.timer in s.fired {
      assert forall i :: 0 < i < |s.queue| ==> MayPrecede(s.queue[0], s.queue[i]);
    }
  }

  /**
   When a hooked call has returned, no event, no timer and no callback of it is left, nor anywhere
   else for the running fiber.
   */
  lemma NothingLeftBehind(steps: seq<Step>, s: State, f: nat)
    requires Leads(Initial, steps, s) && s.stage == Running(f)
    ensures forall k :: k in s.reg ==> s.reg[k] != Fib(f)
    ensures forall t :: t in s.alarms ==> s.alarms[t].f != f
    ensures forall t :: t in s.queue && !t.UserTask? ==> t.f != f
  {
    RunKeeps(Initial, steps, s);
    RunningIsFree(s, f);
  }

  /** The assertions of `run`, `resume` and `yield`: a dequeued fiber is READY, a running one RUNNING. */
  lemma DequeuedIsReady(steps: seq<Step>, s: State, i: nat)
    requires Leads(Initial, steps, s) && i < |s.queue| && s.queue[i].RunFiber?
    ensures s.queue[i].f in s.fibers && s.fibers[s.queue[i].f].status == READY
    ensures s.stage.Running? ==> s.stage.f in s.fibers && s.fibers[s.stage.f].status == RUNNING
  {
    RunKeeps(Initial, steps, s);
    assert TaskOk(s, s.queue[i]);
    assert FiberOk(s, s.queue[i].f, s.fibers[s.queue[i].f]);
  }
}
