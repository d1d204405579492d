/**
 The per-descriptor event registry of the I/O manager, its pending counter, and its mirror in the
 kernel's epoll set. Each method is one locked section; whether epoll_ctl succeeds is an input.
 */
module EventRegistry {
  import opened Bytes

  datatype Event = READ | WRITE

  /** What is scheduled when an event fires. */
  datatype Target = FiberTarget(f: nat) | CallbackTarget(c: nat)

  /** A target, with the number of the `addEvent` that registered it. */
  datatype Task = Task(target: Target, token: nat)

  datatype EventContext = Empty | Set(task: Task)

  /** What is registered for each event of each descriptor. */
  type Registrations = map<(nat, Event), Task>

  datatype EpollOp = ADD | MOD | DEL

  /** What became of a successful `addEvent`. */
  datatype Fate = Registered(fd: nat, e: Event) | Scheduled | Deleted

  class FdContext {
    const fd: nat
    var events: set<Event>
    var read: EventContext
    var write: EventContext

    constructor (fd: nat)
      ensures this.fd == fd && events == {} && read == Empty && write == Empty
    {
      this.fd := fd;
      events, read, write := {}, Empty, Empty;
    }

    function GetEventContext(e: Event): EventContext
      reads this
    {
      if e == READ then read else write
    }

    /** Exactly the events of the mask have a context. */
    ghost predicate Consistent()
      reads this
    {
      forall e :: e in events <==> GetEventContext(e) != Empty
    }

    /** The mask and the context of an added event. */
    method Put(e: Event, task: Task)
      requires Consistent() && e !in events
      modifies this
      ensures Consistent() && events == old(events) + {e}
      ensures read == (if e == READ then Set(task) else old(read))
              && write == (if e == WRITE then Set(task) else old(write))
    {
      events := events + {e};
      assert GetEventContext(e) == Empty;
      if e == READ { read := Set(task); } else { write := Set(task); }
    }

    /** The mask and the context of an event that goes. */
    method Drop(e: Event)
      requires Consistent() && e in events
      modifies this
      ensures Consistent() && events == old(events) - {e}
      ensures read == (if e == READ then Empty else old(read)) && write == (if e == WRITE then Empty else old(write))
    {
      events := events - {e};
      if e == READ { read := Empty; } else { write := Empty; }
    }
  }

  /** What is left of the registrations when an event that happened goes. */
  ghost function Without(reg: Registrations, fd: nat, e: Event, happened: set<Event>): Registrations {
    if e in happened then reg - {(fd, e)} else reg
  }

  /** The registrations differ at most in whether and how `k` is registered. */
  ghost predicate ChangedAt(reg: Registrations, before: Registrations, k: (nat, Event)) {
    reg == if k in reg then before[k := reg[k]] else before - {k}
  }

  ghost function Less(events: set<Event>, e: Event, happened: set<Event>): set<Event> {
    if e in happened then events - {e} else events
  }

  /** There are two events, so taking out the first and the second takes out all that happened. */
  lemma BothGone(events: set<Event>, first: Event, second: Event, happened: set<Event>)
    requires first != second
    ensures Less(Less(events, first, happened), second, happened) == events - happened
  {
    forall e: Event | e in happened
      ensures e == first || e == second
    {
    }
  }

  /** What an event schedules, if it happened. */
  ghost function TasksIn(reg: Registrations, fd: nat, e: Event, happened: set<Event>): seq<Task> {
    if e in happened && (fd, e) in reg then [reg[(fd, e)]] else []
  }

  /** A mask and its contexts hold exactly what is registered for the descriptor. */
  ghost predicate Agrees(reg: Registrations, fd: nat, events: set<Event>, read: EventContext, write: EventContext) {
    && (forall e :: e in events <==> (fd, e) in reg)
    && (forall e :: e in events ==> (if e == READ then read else write) == Set(reg[(fd, e)]))
  }

  lemma AgreesGrew(reg: Registrations, fd: nat, events: set<Event>, read: EventContext, write: EventContext,
      e: Event, task: Task)
    requires Agrees(reg, fd, events, read, write)
    ensures Agrees(reg[(fd, e) := task], fd, events + {e},
              if e == READ then Set(task) else read, if e == WRITE then Set(task) else write)
  {
  }

  lemma AgreesShrank(reg: Registrations, fd: nat, events: set<Event>, read: EventContext, write: EventContext, e: Event)
    requires Agrees(reg, fd, events, read, write)
    ensures Agrees(reg - {(fd, e)}, fd, events - {e},
              if e == READ then Empty else read, if e == WRITE then Empty else write)
  {
  }

  ghost predicate InTasks(tasks: seq<Task>, token: nat) {
    exists i :: 0 <= i < |tasks| && tasks[i].token == token
  }

  /** What the ledger has to agree with: the numbers given out, the registrations, and the tasks. */
  datatype Rule = Numbers | Entries | Queue

  ghost predicate Obeys(rule: Rule, fate: map<nat, Fate>, issued: nat, reg: Registrations, tasks: seq<Task>) {
    match rule
    case Numbers => forall t: nat :: t in fate <==> t < issued
    case Entries =>
      && (forall k :: k in reg ==> reg[k].token in fate && fate[reg[k].token] == Registered(k.0, k.1))
      && (forall t :: t in fate && fate[t].Registered? ==>
           (fate[t].fd, fate[t].e) in reg && reg[(fate[t].fd, fate[t].e)].token == t)
    case Queue =>
      && (forall i :: 0 <= i < |tasks| ==> tasks[i].token in fate && fate[tasks[i].token] == Scheduled)
      && (forall i, j :: 0 <= i < j < |tasks| ==> tasks[i].token != tasks[j].token)
      && (forall t :: t in fate && fate[t].Scheduled? ==> InTasks(tasks, t))
  }

  /** Every registration is registered, scheduled once, or deleted: exactly one of them. */
  ghost predicate LedgerFits(fate: map<nat, Fate>, issued: nat, reg: Registrations, tasks: seq<Task>) {
    forall rule :: Obeys(rule, fate, issued, reg, tasks)
  }

  lemma Rules(fate: map<nat, Fate>, issued: nat, reg: Registrations, tasks: seq<Task>)
    requires LedgerFits(fate, issued, reg, tasks)
    ensures forall rule :: Obeys(rule, fate, issued, reg, tasks)
    ensures Obeys(Numbers, fate, issued, reg, tasks) && Obeys(Entries, fate, issued, reg, tasks)
            && Obeys(Queue, fate, issued, reg, tasks)
  {
  }

  lemma IssueFits(fate: map<nat, Fate>, issued: nat, reg: Registrations, tasks: seq<Task>, k: (nat, Event),
      target: Target)
    requires LedgerFits(fate, issued, reg, tasks) && k !in reg
    ensures LedgerFits(fate[issued := Registered(k.0, k.1)], issued + 1, reg[k := Task(target, issued)], tasks)
    ensures History(fate, fate[issued := Registered(k.0, k.1)], tasks, tasks)
  {
    Rules(fate, issued, reg, tasks);
  }

  lemma DeleteFits(fate: map<nat, Fate>, issued: nat, reg: Registrations, tasks: seq<Task>, k: (nat, Event))
    requires LedgerFits(fate, issued, reg, tasks) && k in reg
    ensures LedgerFits(fate[reg[k].token := Deleted], issued, reg - {k}, tasks)
    ensures History(fate, fate[reg[k].token := Deleted], tasks, tasks)
  {
    Rules(fate, issued, reg, tasks);
  }

  lemma TaskListed(tasks: seq<Task>, task: Task, t: nat)
    requires task.token == t || InTasks(tasks, t)
    ensures InTasks(tasks + [task], t)
  {
    var tasks' := tasks + [task];
    if task.token == t {
      assert tasks'[|tasks|].token == t;
    } else {
      var i :| 0 <= i < |tasks| && tasks[i].token == t;
      assert tasks'[i].token == t;
    }
  }

  lemma ScheduleFits(fate: map<nat, Fate>, issued: nat, reg: Registrations, tasks: seq<Task>, k: (nat, Event))
    requires LedgerFits(fate, issued, reg, tasks) && k in reg
    ensures LedgerFits(fate[reg[k].token := Scheduled], issued, reg - {k}, tasks + [reg[k]])
    ensures History(fate, fate[reg[k].token := Scheduled], tasks, tasks + [reg[k]])
  {
    Rules(fate, issued, reg, tasks);
    forall t | t == reg[k].token || (t in fate && fate[t].Scheduled?)
      ensures InTasks(tasks + [reg[k]], t)
    {
      TaskListed(tasks, reg[k], t);
    }
  }

  /** Tasks are never taken back, and a registration that was scheduled or deleted stays so. */
  ghost predicate History(before: map<nat, Fate>, now: map<nat, Fate>, tasksBefore: seq<Task>, tasksNow: seq<Task>) {
    && tasksBefore <= tasksNow
    && forall t :: t in before ==> t in now && (before[t].Registered? || now[t] == before[t])
  }

  /** The fate of the registrations when an event that happened is scheduled. */
  ghost function Settled(fate: map<nat, Fate>, reg: Registrations, fd: nat, e: Event, happened: set<Event>)
      : map<nat, Fate>
  {
    if e in happened && (fd, e) in reg then fate[reg[(fd, e)].token := Scheduled] else fate
  }

  ghost function BothSettled(fate: map<nat, Fate>, reg: Registrations, fd: nat, happened: set<Event>): map<nat, Fate> {
    Settled(Settled(fate, reg, fd, READ, happened), reg, fd, WRITE, happened)
  }

  ghost function BothGoneFrom(reg: Registrations, fd: nat, happened: set<Event>): Registrations {
    Without(Without(reg, fd, READ, happened), fd, WRITE, happened)
  }

  /** Both events go and are settled, whichever is first. */
  lemma EitherOrder(reg: Registrations, fate: map<nat, Fate>, fd: nat, first: Event, second: Event,
      happened: set<Event>)
    requires first != second
    ensures Without(Without(reg, fd, first, happened), fd, second, happened) == BothGoneFrom(reg, fd, happened)
    ensures Settled(Settled(fate, reg, fd, first, happened), Without(reg, fd, first, happened), fd, second, happened)
            == BothSettled(fate, reg, fd, happened)
    ensures TasksIn(Without(reg, fd, first, happened), fd, second, happened) == TasksIn(reg, fd, second, happened)
  {
  }

  lemma SettledHistory(fate: map<nat, Fate>, issued: nat, reg: Registrations, tasks: seq<Task>, fd: nat,
      happened: set<Event>, more: seq<Task>)
    requires LedgerFits(fate, issued, reg, tasks)
    ensures History(fate, BothSettled(fate, reg, fd, happened), tasks, tasks + more)
  {
    Rules(fate, issued, reg, tasks);
  }

  /** Taking out the registered events of a descriptor takes out both. */
  lemma AllGone(reg: Registrations, fd: nat, events: set<Event>)
    requires forall e :: e in events <==> (fd, e) in reg
    ensures BothGoneFrom(reg, fd, events) == reg - {(fd, READ), (fd, WRITE)}
    ensures TasksIn(reg, fd, READ, events) == TasksIn(reg, fd, READ, {READ, WRITE})
            && TasksIn(reg, fd, WRITE, events) == TasksIn(reg, fd, WRITE, {READ, WRITE})
  {
  }

  class IOManager {
    var fdContexts: seq<FdContext>
    var pendingEventCount: nat
    var tasks: seq<Task>
    var issued: nat

    /** The kernel's interest set, the registrations of all contexts, and the fate of every registration. */
    ghost var epoll: map<nat, set<Event>>
    ghost var registered: Registrations
    ghost var fate: map<nat, Fate>

    /** The context of descriptor `i` agrees with the registrations. */
    ghost predicate ContextOk(i: nat)
      requires i < |fdContexts|
      reads this`fdContexts, this`registered, fdContexts
    {
      var c := fdContexts[i];
      c.fd == i && c.Consistent() && Agrees(registered, i, c.events, c.read, c.write)
    }

    /** The kernel's interest in descriptor `i` is the mask of its context. */
    ghost predicate Mirrored(i: nat)
      requires i < |fdContexts|
      reads this`fdContexts, this`epoll, fdContexts
    {
      if fdContexts[i].events == {} then i !in epoll else i in epoll && epoll[i] == fdContexts[i].events
    }

    ghost predicate Owns(c: FdContext)
      reads this`fdContexts
    {
      c.fd < |fdContexts| && fdContexts[c.fd] == c
    }

    ghost predicate LedgerOk()
      reads this`fate, this`issued, this`registered, this`tasks
    {
      LedgerFits(fate, issued, registered, tasks)
    }

    /** Everything but the kernel's view. */
    ghost predicate Booked()
      reads this, fdContexts
    {
      && |fdContexts| >= 32
      && (forall i: nat :: i < |fdContexts| ==> ContextOk(i))
      && (forall k :: k in registered ==> k.0 < |fdContexts|)
      && (forall i :: i in epoll ==> i < |fdContexts|)
      && pendingEventCount == |registered|
      && LedgerOk()
    }

    ghost predicate Valid()
      reads this, fdContexts
    {
      Booked() && forall i: nat :: i < |fdContexts| ==> Mirrored(i)
    }

    constructor ()
      ensures Valid() && registered == map[] && tasks == [] && issued == 0
      ensures forall i :: 0 <= i < |fdContexts| ==> fresh(fdContexts[i])
    {
      fdContexts, pendingEventCount, tasks, issued := [], 0, [], 0;
      epoll, registered, fate := map[], map[], map[];
      new;
      ContextResize(32);
    }

    /** Contexts for all descriptors below `size`. */
    method ContextResize(size: nat)
      requires forall i: nat :: i < |fdContexts| ==> ContextOk(i) && Mirrored(i)
      requires |fdContexts| <= size
      requires forall i :: i in epoll ==> i < |fdContexts|
      requires forall k :: k in registered ==> k.0 < |fdContexts|
      modifies this`fdContexts
      ensures |fdContexts| == size && old(fdContexts) <= fdContexts
      ensures forall i :: |old(fdContexts)| <= i < size ==> fresh(fdContexts[i])
      ensures forall i: nat :: i < |fdContexts| ==> ContextOk(i) && Mirrored(i)
    {
      ghost var n := |fdContexts|;
      while |fdContexts| < size
        invariant n <= |fdContexts| <= size && old(fdContexts) <= fdContexts
        invariant forall i :: n <= i < |fdContexts| ==> fresh(fdContexts[i])
        invariant forall i: nat :: i < |fdContexts| ==> ContextOk(i) && Mirrored(i)
      {
        AppendContext();
      }
    }

    method AppendContext()
      requires forall i: nat :: i < |fdContexts| ==> ContextOk(i) && Mirrored(i)
      requires |fdContexts| !in epoll && forall e :: (|fdContexts|, e) !in registered
      modifies this`fdContexts
      ensures |fdContexts| == |old(fdContexts)| + 1 && fdContexts == old(fdContexts) + [fdContexts[|old(fdContexts)|]]
      ensures fresh(fdContexts[|old(fdContexts)|])
      ensures forall i: nat :: i < |fdContexts| ==> ContextOk(i) && Mirrored(i)
    {
      var c := new FdContext(|fdContexts|);
      fdContexts := fdContexts + [c];
      assert ContextOk(c.fd) && Mirrored(c.fd);
      forall i: nat | i < c.fd
        ensures ContextOk(i) && Mirrored(i)
      {
        assert old(ContextOk(i)) && old(Mirrored(i));
      }
    }

    /** The descriptor's context; a descriptor beyond the table makes it half as large again as the descriptor. */
    method ContextFor(fd: nat) returns (c: FdContext)
      requires Valid()
      modifies this`fdContexts
      ensures Valid() && c.fd == fd && Owns(c) && old(fdContexts) <= fdContexts
      ensures forall i :: |old(fdContexts)| <= i < |fdContexts| ==> fresh(fdContexts[i])
    {
      if fd >= |fdContexts| {
        ContextResize(fd * 3 / 2);
      }
      c := fdContexts[fd];
      assert ContextOk(fd);
    }

    /** A changed mask: the kernel is told, and refuses or takes it. The operation is always one it can take. */
    ghost predicate OpFits(fd: nat, op: EpollOp)
      reads this`epoll
    {
      if op == ADD then fd !in epoll else fd in epoll
    }

    ghost method EpollCtl(fd: nat, op: EpollOp, events: set<Event>)
      requires OpFits(fd, op) && (op == DEL <==> events == {})
      modifies this`epoll
      ensures epoll == if events == {} then old(epoll) - {fd} else old(epoll)[fd := events]
    {
      epoll := if op == DEL then epoll - {fd} else epoll[fd := events];
    }

    /** A new entry of the ledger. */
    method Issue(k: (nat, Event), target: Target)
      requires LedgerOk() && k !in registered
      modifies this`registered, this`fate, this`issued
      ensures LedgerOk() && registered == old(registered)[k := Task(target, old(issued))] && issued == old(issued) + 1
      ensures fate == old(fate)[old(issued) := Registered(k.0, k.1)] && |registered| == |old(registered)| + 1
      ensures History(old(fate), fate, tasks, tasks)
    {
      IssueFits(fate, issued, registered, tasks, k, target);
      registered := registered[k := Task(target, issued)];
      fate := fate[issued := Registered(k.0, k.1)];
      issued := issued + 1;
    }

    /** An entry of the ledger is settled without a task. */
    ghost method Settle(k: (nat, Event))
      requires LedgerOk() && k in registered
      modifies this`registered, this`fate
      ensures LedgerOk() && registered == old(registered) - {k} && |registered| == |old(registered)| - 1
      ensures fate == old(fate)[old(registered)[k].token := Deleted]
      ensures History(old(fate), fate, tasks, tasks)
    {
      DeleteFits(fate, issued, registered, tasks, k);
      ghost var token := registered[k].token;
      registered := registered - {k};
      fate := fate[token := Deleted];
    }

    /** `schedule` of a registered target. */
    method Schedule(k: (nat, Event), task: Task)
      requires LedgerOk() && k in registered && registered[k] == task
      modifies this`registered, this`fate, this`tasks
      ensures LedgerOk() && registered == old(registered) - {k} && |registered| == |old(registered)| - 1
      ensures fate == old(fate)[task.token := Scheduled] && tasks == old(tasks) + [task]
      ensures History(old(fate), fate, old(tasks), tasks)
    {
      ScheduleFits(fate, issued, registered, tasks, k);
      registered := registered - {k};
      fate := fate[task.token := Scheduled];
      tasks := tasks + [task];
    }

    /** When only one context changed, and agrees with the registrations, all do. */
    twostate lemma OneChanged(c: FdContext)
      requires old(Booked()) && Owns(c) && fdContexts == old(fdContexts)
      requires forall i: nat :: i < |fdContexts| && fdContexts[i] != c ==> unchanged(fdContexts[i])
      requires exists e: Event :: ChangedAt(registered, old(registered), (c.fd, e))
      requires c.Consistent() && Agrees(registered, c.fd, c.events, c.read, c.write)
      ensures forall i: nat :: i < |fdContexts| ==> ContextOk(i)
    {
      forall i: nat | i < |fdContexts| && i != c.fd
        ensures ContextOk(i)
      {
        assert old(ContextOk(i));
      }
    }

    /** The bookkeeping of a successful `addEvent`. */
    method Register(c: FdContext, e: Event, target: Target)
      requires Booked() && Owns(c) && (c.fd, e) !in registered && c.Consistent() && e !in c.events
      modifies this`pendingEventCount, this`issued, this`registered, this`fate, c
      ensures Booked() && c.events == old(c.events) + {e}
      ensures registered == old(registered)[(c.fd, e) := Task(target, old(issued))] && issued == old(issued) + 1
      ensures fate == old(fate)[old(issued) := Registered(c.fd, e)] && History(old(fate), fate, tasks, tasks)
    {
      var task := Task(target, issued);
      assert ContextOk(c.fd);
      AgreesGrew(registered, c.fd, c.events, c.read, c.write, e, task);
      Issue((c.fd, e), target);
      pendingEventCount := pendingEventCount + 1;
      c.Put(e, task);
      assert ChangedAt(registered, old(registered), (c.fd, e));
      OneChanged(c);
    }

    /** `triggerEvent`: out of the mask, its target scheduled once, its context reset. */
    method TriggerEvent(c: FdContext, e: Event)
      requires Booked() && Owns(c) && e in c.events && (c.fd, e) in registered
      modifies this`pendingEventCount, this`registered, this`fate, this`tasks, c
      ensures Booked() && c.events == old(c.events) - {e}
      ensures registered == old(registered) - {(c.fd, e)}
      ensures tasks == old(tasks) + [old(registered)[(c.fd, e)]]
      ensures fate == old(fate)[old(registered)[(c.fd, e)].token := Scheduled]
              && History(old(fate), fate, old(tasks), tasks)
    {
      assert ContextOk(c.fd);
      AgreesShrank(registered, c.fd, c.events, c.read, c.write, e);
      var ctx := c.GetEventContext(e);
      c.Drop(e);
      Schedule((c.fd, e), ctx.task);
      pendingEventCount := pendingEventCount - 1;
      assert ChangedAt(registered, old(registered), (c.fd, e));
      OneChanged(c);
    }

    /** The same for the kernel's view. */
    twostate lemma OthersMirrored(c: FdContext)
      requires old(Valid()) && Owns(c) && fdContexts == old(fdContexts)
      requires forall i: nat :: i < |fdContexts| && fdContexts[i] != c ==> unchanged(fdContexts[i])
      requires forall i :: i != c.fd ==> (i in epoll <==> i in old(epoll)) && (i in epoll ==> epoll[i] == old(epoll)[i])
      requires Mirrored(c.fd)
      ensures forall i: nat :: i < |fdContexts| ==> Mirrored(i)
    {
      forall i: nat | i < |fdContexts| && i != c.fd
        ensures Mirrored(i)
      {
        assert old(Mirrored(i)) && old(ContextOk(i));
      }
    }

    method AddEvent(fd: nat, e: Event, target: Target, ctl: bool) returns (rt: int)
      requires Valid() && (fd, e) !in registered
      modifies this, fdContexts
      ensures Valid() && tasks == old(tasks)
      ensures rt == if ctl then 0 else -1
      ensures old(fdContexts) <= fdContexts
      ensures forall i :: |old(fdContexts)| <= i < |fdContexts| ==> fresh(fdContexts[i])
      ensures !ctl ==> registered == old(registered) && epoll == old(epoll) && fate == old(fate)
      ensures ctl ==> registered == old(registered)[(fd, e) := Task(target, old(issued))] && issued == old(issued) + 1
      ensures ctl ==> fate == old(fate)[old(issued) := Registered(fd, e)]
      ensures History(old(fate), fate, old(tasks), tasks)
    {
      var c := ContextFor(fd);
      if !ctl { return -1; }
      AddTo(c, e, target);
      rt := 0;
    }

    /** `addEvent` once epoll_ctl has succeeded. */
    method AddTo(c: FdContext, e: Event, target: Target)
      requires Valid() && Owns(c) && (c.fd, e) !in registered
      modifies this`pendingEventCount, this`issued, this`registered, this`fate, this`epoll, c
      ensures Valid()
      ensures registered == old(registered)[(c.fd, e) := Task(target, old(issued))] && issued == old(issued) + 1
      ensures fate == old(fate)[old(issued) := Registered(c.fd, e)] && History(old(fate), fate, tasks, tasks)
    {
      assert Mirrored(c.fd) && ContextOk(c.fd);
      EpollCtl(c.fd, if c.events == {} then ADD else MOD, c.events + {e});
      Register(c, e, target);
      OthersMirrored(c);
    }

    /** The context of a descriptor that has one with this event in its mask. */
    method Lookup(fd: nat, e: Event) returns (c: FdContext?)
      requires Valid()
      ensures c == null <==> (fd, e) !in registered
      ensures c != null ==> c.fd == fd && Owns(c) && e in c.events
    {
      if |fdContexts| <= fd { return null; }
      assert ContextOk(fd);
      c := fdContexts[fd];
      if e !in c.events { return null; }
    }

    /** The kernel keeps the events left of the mask. */
    ghost method Keep(c: FdContext, left: set<Event>)
      requires Booked() && Owns(c) && Mirrored(c.fd) && left < c.events
      modifies this`epoll
      ensures Booked() && epoll == if left == {} then old(epoll) - {c.fd} else old(epoll)[c.fd := left]
    {
      EpollCtl(c.fd, if left == {} then DEL else MOD, left);
      assert forall i: nat :: i < |fdContexts| ==> old(ContextOk(i));
    }

    method DelEvent(fd: nat, e: Event, ctl: bool) returns (ok: bool)
      requires Valid()
      modifies this`pendingEventCount, this`registered, this`fate, this`epoll, fdContexts
      ensures Valid() && tasks == old(tasks)
      ensures ok <==> ctl && (fd, e) in old(registered)
      ensures ok ==>
                && registered == old(registered) - {(fd, e)}
                && fate == old(fate)[old(registered)[(fd, e)].token := Deleted]
      ensures History(old(fate), fate, old(tasks), tasks)
      ensures !ok ==> registered == old(registered) && epoll == old(epoll) && fate == old(fate)
    {
      var c := Lookup(fd, e);
      if c == null || !ctl { return false; }
      Delete(c, e);
      ok := true;
    }

    method Delete(c: FdContext, e: Event)
      requires Valid() && Owns(c) && e in c.events && (c.fd, e) in registered
      modifies this`pendingEventCount, this`registered, this`fate, this`epoll, c
      ensures Valid() && registered == old(registered) - {(c.fd, e)}
      ensures fate == old(fate)[old(registered)[(c.fd, e)].token := Deleted] && History(old(fate), fate, tasks, tasks)
    {
      assert Mirrored(c.fd) && ContextOk(c.fd);
      Keep(c, c.events - {e});
      Forget(c, e);
      OthersMirrored(c);
    }

    /** The bookkeeping of a deleted event. */
    method Forget(c: FdContext, e: Event)
      requires Booked() && Owns(c) && e in c.events && (c.fd, e) in registered
      modifies this`pendingEventCount, this`registered, this`fate, c
      ensures Booked() && c.events == old(c.events) - {e} && registered == old(registered) - {(c.fd, e)}
      ensures fate == old(fate)[old(registered)[(c.fd, e)].token := Deleted] && History(old(fate), fate, tasks, tasks)
    {
      assert ContextOk(c.fd);
      AgreesShrank(registered, c.fd, c.events, c.read, c.write, e);
      pendingEventCount := pendingEventCount - 1;
      c.Drop(e);
      Settle((c.fd, e));
      assert ChangedAt(registered, old(registered), (c.fd, e));
      OneChanged(c);
    }

    method CancelEvent(fd: nat, e: Event, ctl: bool) returns (ok: bool)
      requires Valid()
      modifies this`pendingEventCount, this`registered, this`fate, this`epoll, this`tasks, fdContexts
      ensures Valid()
      ensures ok <==> ctl && (fd, e) in old(registered)
      ensures ok ==> registered == old(registered) - {(fd, e)} && tasks == old(tasks) + [old(registered)[(fd, e)]]
      ensures ok ==> fate == old(fate)[old(registered)[(fd, e)].token := Scheduled]
      ensures !ok ==> registered == old(registered) && epoll == old(epoll) && tasks == old(tasks) && fate == old(fate)
      ensures History(old(fate), fate, old(tasks), tasks)
    {
      var c := Lookup(fd, e);
      if c == null || !ctl { return false; }
      Cancel(c, e);
      ok := true;
    }

    method Cancel(c: FdContext, e: Event)
      requires Valid() && Owns(c) && e in c.events
      modifies this`pendingEventCount, this`registered, this`fate, this`epoll, this`tasks, c
      ensures Valid() && registered == old(registered) - {(c.fd, e)}
      ensures (c.fd, e) in old(registered) && tasks == old(tasks) + [old(registered)[(c.fd, e)]]
      ensures fate == old(fate)[old(registered)[(c.fd, e)].token := Scheduled]
              && History(old(fate), fate, old(tasks), tasks)
    {
      assert Mirrored(c.fd) && ContextOk(c.fd);
      Keep(c, c.events - {e});
      TriggerEvent(c, e);
      OthersMirrored(c);
    }

    /** `triggerEvent`, if the event is among those that happened. */
    method TriggerIf(c: FdContext, e: Event, happened: set<Event>)
      requires Booked() && Owns(c) && (e in happened ==> e in c.events)
      modifies this`pendingEventCount, this`registered, this`fate, this`tasks, c
      ensures Booked() && c.events == Less(old(c.events), e, happened)
      ensures registered == Without(old(registered), c.fd, e, happened)
      ensures tasks == old(tasks) + TasksIn(old(registered), c.fd, e, happened)
      ensures fate == Settled(old(fate), old(registered), c.fd, e, happened)
    {
      assert ContextOk(c.fd);
      if e in happened {
        TriggerEvent(c, e);
      }
    }

    /** The events that happened, `first` before `second`. */
    method TriggerBoth(c: FdContext, first: Event, second: Event, happened: set<Event>)
      requires Booked() && Owns(c) && happened <= c.events && first != second
      modifies this`pendingEventCount, this`registered, this`fate, this`tasks, c
      ensures Booked() && c.events == Less(Less(old(c.events), first, happened), second, happened)
      ensures registered == BothGoneFrom(old(registered), c.fd, happened)
              && fate == BothSettled(old(fate), old(registered), c.fd, happened)
      ensures tasks == old(tasks) + TasksIn(old(registered), c.fd, first, happened)
              + TasksIn(old(registered), c.fd, second, happened)
    {
      EitherOrder(registered, fate, c.fd, first, second, happened);
      TriggerIf(c, first, happened);
      TriggerIf(c, second, happened);
    }

    /** The kernel forgets the events that happened, then each is triggered. */
    method Deliver(c: FdContext, first: Event, second: Event, happened: set<Event>)
      requires Valid() && Owns(c) && happened <= c.events && happened != {} && first != second
      modifies this`pendingEventCount, this`registered, this`fate, this`epoll, this`tasks, c
      ensures Valid() && c.events == old(c.events) - happened
      ensures registered == BothGoneFrom(old(registered), c.fd, happened)
              && fate == BothSettled(old(fate), old(registered), c.fd, happened)
      ensures tasks == old(tasks) + TasksIn(old(registered), c.fd, first, happened)
              + TasksIn(old(registered), c.fd, second, happened)
    {
      BothGone(c.events, first, second, happened);
      assert Mirrored(c.fd);
      Keep(c, c.events - happened);
      TriggerBoth(c, first, second, happened);
      OthersMirrored(c);
    }

    method CancelAll(fd: nat, ctl: bool) returns (ok: bool)
      requires Valid()
      modifies this`pendingEventCount, this`registered, this`fate, this`epoll, this`tasks, fdContexts
      ensures Valid()
      ensures ok <==> ctl && ((fd, READ) in old(registered) || (fd, WRITE) in old(registered))
      ensures ok ==> registered == old(registered) - {(fd, READ), (fd, WRITE)}
      ensures fate == if ok then BothSettled(old(fate), old(registered), fd, {READ, WRITE}) else old(fate)
      ensures History(old(fate), fate, old(tasks), tasks)
      ensures ok ==>
                tasks == old(tasks) + TasksIn(old(registered), fd, READ, {READ, WRITE})
                  + TasksIn(old(registered), fd, WRITE, {READ, WRITE})
      ensures !ok ==> registered == old(registered) && epoll == old(epoll) && tasks == old(tasks)
    {
      if |fdContexts| <= fd { return false; }
      var c := fdContexts[fd];
      assert ContextOk(fd);
      if c.events == {} || !ctl { NoEvents(c); return false; }
      AllGone(registered, fd, c.events);
      assert BothSettled(fate, registered, fd, c.events) == BothSettled(fate, registered, fd, {READ, WRITE});
      SettledHistory(fate, issued, registered, tasks, fd, c.events,
          TasksIn(registered, fd, READ, c.events) + TasksIn(registered, fd, WRITE, c.events));
      Deliver(c, READ, WRITE, c.events);
      ok := true;
    }

    lemma NoEvents(c: FdContext)
      requires Valid() && Owns(c)
      ensures c.events == {} <==> (c.fd, READ) !in registered && (c.fd, WRITE) !in registered
    {
      assert ContextOk(c.fd);
      assert c.events == {} <==> READ !in c.events && WRITE !in c.events;
    }

    /** What one report of epoll_wait amounts to: errors and hang-ups stand for every registered event. */
    function Happened(c: FdContext, reported: set<Event>, broken: bool): set<Event>
      reads c
    {
      if broken then reported + c.events else reported
    }

    /**
     One report in `idle`. It triggers the reported events without masking them, so they must be
     registered unless none of them is.
     */
    method Report(c: FdContext, reported: set<Event>, broken: bool, ctl: bool)
      requires Valid() && Owns(c)
      requires Happened(c, reported, broken) <= c.events || Happened(c, reported, broken) * c.events == {}
      modifies this`pendingEventCount, this`registered, this`fate, this`epoll, this`tasks, c
      ensures Valid()
      ensures ctl && Happened(c, reported, broken) * old(c.events) != {} ==>
                && c.events == old(c.events) - old(Happened(c, reported, broken))
                && registered == BothGoneFrom(old(registered), c.fd, old(Happened(c, reported, broken)))
                && fate == BothSettled(old(fate), old(registered), c.fd, old(Happened(c, reported, broken)))
                && tasks == old(tasks) + TasksIn(old(registered), c.fd, WRITE, old(Happened(c, reported, broken)))
                   + TasksIn(old(registered), c.fd, READ, old(Happened(c, reported, broken)))
      ensures !ctl || old(Happened(c, reported, broken) * c.events) == {} ==>
                registered == old(registered) && tasks == old(tasks) && epoll == old(epoll) && fate == old(fate)
      ensures History(old(fate), fate, old(tasks), tasks)
    {
      var happened := Happened(c, reported, broken);
      if c.events * happened == {} || !ctl { return; }
      SettledHistory(fate, issued, registered, tasks, c.fd, happened,
          TasksIn(registered, c.fd, WRITE, happened) + TasksIn(registered, c.fd, READ, happened));
      Deliver(c, WRITE, READ, happened);
    }

    /** Each successful `addEvent` is registered, or was scheduled by exactly one task, or was deleted unscheduled. */
    lemma Matched(t: nat)
      requires Valid() && t < issued
      ensures t in fate
      ensures fate[t].Registered? <==> exists k :: k in registered && registered[k].token == t
      ensures fate[t].Scheduled? <==> InTasks(tasks, t)
      ensures forall i, j :: 0 <= i < j < |tasks| && tasks[i].token == t ==> tasks[j].token != t
    {
      Rules(fate, issued, registered, tasks);
    }

    /** The events set over all contexts. */
    ghost function SetEvents(): set<(nat, Event)>
      reads this, fdContexts
    {
      set fd: nat, e: Event | fd < |fdContexts| && e in fdContexts[fd].events :: (fd, e)
    }

    /** The pending counter is the number of events set over all contexts, and the kernel watches exactly those. */
    lemma PendingCountsEvents()
      requires Valid()
      ensures pendingEventCount == |SetEvents()|
      ensures forall fd: nat, e: Event :: (fd, e) in SetEvents() <==> fd in epoll && e in epoll[fd]
    {
      forall fd: nat, e: Event
        ensures (fd, e) in SetEvents() <==> (fd, e) in registered
        ensures (fd, e) in SetEvents() <==> fd in epoll && e in epoll[fd]
      {
        if fd < |fdContexts| { assert ContextOk(fd) && Mirrored(fd); }
      }
      assert SetEvents() == registered.Keys;
    }

    /** What a call does; it is not made when one of the source's assertions would end the program instead. */
    method Do(call: Call) returns (made: bool)
      requires Valid()
      modifies this, fdContexts
      ensures Valid()
      ensures old(fdContexts) <= fdContexts
      ensures forall i :: |old(fdContexts)| <= i < |fdContexts| ==> fresh(fdContexts[i])
      ensures History(old(fate), fate, old(tasks), tasks)
    {
      made := true;
      match call {
        case Add(fd, e, target, ctl) =>
          var c := Lookup(fd, e);
          made := c == null;
          if made { var _ := AddEvent(fd, e, target, ctl); }
        case Del(fd, e, ctl) => var _ := DelEvent(fd, e, ctl);
        case Cancel(fd, e, ctl) => var _ := CancelEvent(fd, e, ctl);
        case CancelAll(fd, ctl) => var _ := CancelAll(fd, ctl);
        case Report(fd, reported, broken, ctl) => made := DoReport(fd, reported, broken, ctl);
      }
    }

    method DoReport(fd: nat, reported: set<Event>, broken: bool, ctl: bool) returns (made: bool)
      requires Valid()
      modifies this`pendingEventCount, this`registered, this`fate, this`epoll, this`tasks, fdContexts
      ensures Valid() && History(old(fate), fate, old(tasks), tasks)
    {
      if |fdContexts| <= fd { return false; }
      var c := fdContexts[fd];
      assert ContextOk(fd);
      var happened := Happened(c, reported, broken);
      made := happened <= c.events || happened * c.events == {};
      if made { Report(c, reported, broken, ctl); }
    }
  }

  datatype Call =
    | Add(fd: nat, e: Event, target: Target, ctl: bool)
    | Del(fd: nat, e: Event, ctl: bool)
    | Cancel(fd: nat, e: Event, ctl: bool)
    | CancelAll(fd: nat, ctl: bool)
    | Report(fd: nat, reported: set<Event>, broken: bool, ctl: bool)

  /**
   Any interleaving of the locked sections, by any threads, is a sequence of calls; from any state
   on, no task is taken back and no registration that was scheduled or deleted is settled again.
   */
  method Continue(m: IOManager, calls: seq<Call>)
    requires m.Valid()
    modifies m, m.fdContexts
    ensures m.Valid() && History(old(m.fate), m.fate, old(m.tasks), m.tasks)
  {
    var made := true;
    for i := 0 to |calls|
      invariant m.Valid() && History(old(m.fate), m.fate, old(m.tasks), m.tasks)
      invariant old(m.fdContexts) <= m.fdContexts
      invariant forall j :: |old(m.fdContexts)| <= j < |m.fdContexts| ==> fresh(m.fdContexts[j])
    {
      if made { made := m.Do(calls[i]); }
    }
  }

  /** From the start on: no registration is scheduled twice, and none is scheduled while it is registered. */
  method Run(calls: seq<Call>) returns (m: IOManager)
    ensures m.Valid()
    ensures forall i, j :: 0 <= i < j < |m.tasks| ==> m.tasks[i].token != m.tasks[j].token
    ensures forall k :: k in m.registered ==> !InTasks(m.tasks, m.registered[k].token)
  {
    m := new IOManager();
    Continue(m, calls);
    Rules(m.fate, m.issued, m.registered, m.tasks);
  }
}
