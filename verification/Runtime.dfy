/**
 The coroutine runtime on one scheduling thread, as a step protocol: the task queue, the fibers,
 the event registry, the armed timers, and the hooked calls that race a readiness event against a
 timeout. What the kernel, the clock and the user's code do is chosen by the step.
 */
module Runtime {
  import opened Bytes

  datatype Kind = Read | Write
  datatype Key = Key(fd: nat, kind: Kind)

  /** What a registered event schedules: a suspended fiber, or a user's callback. */
  datatype Target = Fib(f: nat) | UserCb

  /** A hooked call in progress; `cancelled` is the `timer_info` its timers share. */
  datatype Call = Call(id: nat, key: Key, timed: bool, connect: bool, cancelled: bool)

  datatype Status = READY | RUNNING | TERM

  /** What a fiber is doing; a waiting or sleeping one names its timer. */
  datatype Phase =
    | User
    | Calling(call: Call)
    | Waiting(call: Call, timer: nat)
    | Sleeping(timer: nat)
    | Yielded
    | Fresh
    | Finished

  /** Where the wake-up of a suspended fiber is. */
  datatype Place = Nowhere | AtEvent | AtTimer | AtCallback | AtQueue

  datatype Fiber = Fiber(status: Status, phase: Phase, place: Place)

  /** An entry of the task queue; `Timeout` is the callback of a wait's timer, `WakeUp` that of a sleep's. */
  datatype Task = RunFiber(f: nat) | Timeout(timer: nat, f: nat, call: nat, key: Key) | WakeUp(f: nat) | UserTask

  datatype Alarm = TimeoutOf(f: nat, call: nat, key: Key) | SleepOf(f: nat)

  /** Where the scheduling thread is. */
  datatype Stage = Loop | Running(f: nat) | IdleTimers | IdleEvents

  /** What a hooked call returned last: the system call's result, a failure, or a timeout of a timer. */
  datatype Return = Nothing | Direct | Failed | TimedOut(f: nat, timer: nat)

  datatype State = State(
    fibers: map<nat, Fiber>, queue: seq<Task>, alarms: map<nat, Alarm>, reg: map<Key, Target>,
    stage: Stage, fired: set<nat>, nextTimer: nat, nextCall: nat, returned: Return)

  const Initial := State(map[], [], map[], map[], Loop, {}, 0, 0, Nothing)

  // ---- Operations the steps are made of -------------------------------------------------

  function Put(s: State, f: nat, x: Fiber): State { s.(fibers := s.fibers[f := x]) }

  function Enqueue(s: State, t: Task): State { s.(queue := s.queue + [t]) }

  /** `Fiber::yield` back to the scheduling loop. */
  function Suspend(s: State, f: nat, phase: Phase, place: Place): State {
    Put(s, f, Fiber(READY, phase, place)).(stage := Loop)
  }

  /** A hooked call returns to the user's code. */
  function ReturnTo(s: State, f: nat, r: Return): State {
    Put(s, f, Fiber(RUNNING, User, Nowhere)).(returned := r)
  }

  /** `triggerEvent`: the event is forgotten and its target scheduled. */
  function Trigger(s: State, k: Key): State
    requires k in s.reg
  {
    var s' := s.(reg := s.reg - {k});
    match s.reg[k]
    case UserCb => Enqueue(s', UserTask)
    case Fib(f) => if f in s.fibers then Enqueue(Put(s', f, s.fibers[f].(place := AtQueue)), RunFiber(f)) else s'
  }

  /** `cancelEvent`; `ctl` says whether epoll_ctl succeeded. */
  function CancelEvent(s: State, k: Key, ctl: bool): State {
    if k in s.reg && ctl then Trigger(s, k) else s
  }

  /** `delEvent` that succeeds: the event is forgotten and nothing scheduled. */
  function DelEvent(s: State, k: Key): State { s.(reg := s.reg - {k}) }

  /** `resume` of a dequeued fiber, and what the suspended call does first. */
  function Resume(s: State, f: nat): State
    requires f in s.fibers
  {
    var phase := s.fibers[f].phase;
    var s := s.(stage := Running(f));
    match phase
    case Waiting(call, timer) =>
      var s := s.(alarms := s.alarms - {timer});
      if call.cancelled then ReturnTo(s, f, TimedOut(f, timer))
      else if call.connect then ReturnTo(s, f, Direct)
      else Put(s, f, Fiber(RUNNING, Calling(call), Nowhere))
    case Sleeping(timer) => ReturnTo(s, f, Direct)
    case _ => Put(s, f, Fiber(RUNNING, User, Nowhere))
  }

  /** The timeout callback: a weak reference to the call's `timer_info`, a flag, and a cancelled event. */
  function RunTimeout(s: State, t: Task, ctl: bool): State
    requires t.Timeout?
  {
    if t.f !in s.fibers then s else
    var x := s.fibers[t.f];
    if x.phase.Waiting? && x.phase.call.id == t.call && !x.phase.call.cancelled then
      CancelEvent(Put(s, t.f, x.(phase := Waiting(x.phase.call.(cancelled := true), x.phase.timer))), t.key, ctl)
    else s
  }

  // ---- Steps -----------------------------------------------------------------------------

  datatype Step =
    | External                                          // anything schedules a user task
    | Dequeue(ctl: bool, id: nat)                       // the loop takes the first task; `id` names a callback's fiber
    | BeginIdle | Expire(timer: nat) | BeginEvents | Ready(key: Key) | EndIdle
    | Spawn(id: nat)                                    // schedule a new fiber
    | BeginCall(key: Key, timed: bool, connect: bool)
    | Done                                              // the system call returned something else than EAGAIN
    | Again(ctl: bool)                                  // EAGAIN: arm the timer, add the event, suspend
    | Sleep | YieldSelf
    | Close(fd: nat, ctl: bool)                         // close: cancelAll
    | AddUserEvent(key: Key) | CancelUser(key: Key, ctl: bool)
    | DelUserEvent(key: Key)                            // never of an event that a fiber waits for
    | Finish

  function Head(s: State): Option<Task> { if s.queue == [] then None else Some(s.queue[0]) }

  predicate NoFiberQueued(q: seq<Task>) { forall i :: 0 <= i < |q| ==> q[i].UserTask? }

  /** The running fiber, when it is in the user's code. */
  predicate InUser(s: State) { s.stage.Running? && s.stage.f in s.fibers && s.fibers[s.stage.f].phase.User? }

  predicate InCall(s: State) { s.stage.Running? && s.stage.f in s.fibers && s.fibers[s.stage.f].phase.Calling? }

  predicate Enabled(s: State, step: Step) {
    match step
    case External => true
    case Dequeue(_, id) => s.stage.Loop? && s.queue != [] && id !in s.fibers
    case BeginIdle => s.stage.Loop? && NoFiberQueued(s.queue)
    case Expire(t) => s.stage.IdleTimers? && t in s.alarms
    case BeginEvents => s.stage.IdleTimers?
    case Ready(k) => s.stage.IdleEvents? && k in s.reg
    case EndIdle => s.stage.IdleEvents?
    case Spawn(id) => InUser(s) && id !in s.fibers
    case BeginCall(_, _, _) => InUser(s)
    case Done => InCall(s)
    case Again(_) => InCall(s) && s.fibers[s.stage.f].phase.call.key !in s.reg
    case Sleep => InUser(s)
    case YieldSelf => InUser(s)
    case Close(_, _) => InUser(s)
    case AddUserEvent(k) => InUser(s) && k !in s.reg
    case DelUserEvent(k) => InUser(s) && k in s.reg && s.reg[k].UserCb?
    case CancelUser(_, _) => InUser(s)
    case Finish => InUser(s)
  }

  /** The loop takes the first task. */
  function TakeTask(s: State, ctl: bool, id: nat): State
    requires s.queue != []
  {
    var t := s.queue[0];
    var s := s.(queue := s.queue[1..]);
    match t
    case RunFiber(f) => if f in s.fibers then Resume(s, f) else s
    case Timeout(_, _, _, _) => RunTimeout(s, t, ctl)
    case WakeUp(f) => if f in s.fibers then Enqueue(Put(s, f, s.fibers[f].(place := AtQueue)), RunFiber(f)) else s
    case UserTask => Put(s, id, Fiber(RUNNING, User, Nowhere)).(stage := Running(id))
  }

  /** An expired timer: its callback is scheduled. */
  function ExpireOne(s: State, t: nat): State
    requires t in s.alarms
  {
    var a := s.alarms[t];
    var s := s.(alarms := s.alarms - {t}, fired := s.fired + {t});
    match a
    case TimeoutOf(f, c, k) => Enqueue(s, Timeout(t, f, c, k))
    case SleepOf(f) => if f in s.fibers then Enqueue(Put(s, f, s.fibers[f].(place := AtCallback)), WakeUp(f)) else s
  }

  /** EAGAIN in a hooked call. */
  function Block(s: State, f: nat, ctl: bool): State
    requires f in s.fibers && s.fibers[f].phase.Calling?
  {
    var call, t := s.fibers[f].phase.call, s.nextTimer;
    var s := s.(nextTimer := t + 1);
    if !ctl then ReturnTo(s, f, Failed)
    else
      var alarms := if call.timed then s.alarms[t := TimeoutOf(f, call.id, call.key)] else s.alarms;
      Suspend(s.(alarms := alarms, reg := s.reg[call.key := Fib(f)]), f, Waiting(call, t), AtEvent)
  }

  function Next(s: State, step: Step): State
    requires Enabled(s, step)
  {
    match step
    case External => Enqueue(s, UserTask)
    case Dequeue(ctl, id) => TakeTask(s, ctl, id)
    case BeginIdle => s.(stage := IdleTimers)
    case Expire(t) => ExpireOne(s, t)
    case BeginEvents => s.(stage := IdleEvents)
    case Ready(k) => Trigger(s, k)
    case EndIdle => s.(stage := Loop)
    case Spawn(id) => Enqueue(Put(s, id, Fiber(READY, Fresh, AtQueue)), RunFiber(id))
    case BeginCall(k, timed, connect) =>
      Put(s, s.stage.f, Fiber(RUNNING, Calling(Call(s.nextCall, k, timed, connect, false)),
          Nowhere)).(nextCall := s.nextCall + 1)
    case Done => ReturnTo(s, s.stage.f, Direct)
    case Again(ctl) => Block(s, s.stage.f, ctl)
    case Sleep =>
      Suspend(s.(alarms := s.alarms[s.nextTimer := SleepOf(s.stage.f)], nextTimer := s.nextTimer + 1), s.stage.f,
          Sleeping(s.nextTimer), AtTimer)
    case YieldSelf => Suspend(Enqueue(s, RunFiber(s.stage.f)), s.stage.f, Yielded, AtQueue)
    case Close(fd, ctl) => CancelEvent(CancelEvent(s, Key(fd, Read), ctl), Key(fd, Write), ctl)
    case AddUserEvent(k) => s.(reg := s.reg[k := UserCb])
    case DelUserEvent(k) => DelEvent(s, k)
    case CancelUser(k, ctl) => CancelEvent(s, k, ctl)
    case Finish => Put(s, s.stage.f, Fiber(TERM, Finished, Nowhere)).(stage := Loop)
  }
}
