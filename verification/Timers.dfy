/**
 The ordered timer set: deadlines, cancellation, expiry with re-arming, and the front-insertion
 notification that keeps a sleeping poller from oversleeping. The monotonic clock is an input
 of every operation that reads it.
 */
module Timers {
  import opened Bytes

  /** A callback, by name. */
  type Callback = nat

  class Timer {
    const address: nat
    const recurring: bool
    var ms: nat
    var next: nat
    var cb: Option<Callback>

    constructor (address: nat, ms: nat, cb: Callback, recurring: bool, now: nat)
      ensures this.address == address && this.recurring == recurring
      ensures this.ms == ms && next == now + ms && this.cb == Some(cb)
    {
      this.address, this.recurring := address, recurring;
      this.ms, this.next, this.cb := ms, now + ms, Some(cb);
    }
  }

  /** The comparator's order on keys: by deadline, ties by address. */
  predicate KeyBefore(next: nat, address: nat, next': nat, address': nat) {
    next < next' || (next == next' && address < address')
  }

  predicate Before(a: Timer, b: Timer)
    reads a, b
  {
    KeyBefore(a.next, a.address, b.next, b.address)
  }

  ghost predicate Sorted(ts: seq<Timer>)
    reads ts
  {
    forall i, j :: 0 <= i < j < |ts| ==> Before(ts[i], ts[j])
  }

  /** `ts` with `t` inserted at `k`. */
  function InsertAt(ts: seq<Timer>, k: nat, t: Timer): seq<Timer>
    requires k <= |ts|
  {
    ts[..k] + [t] + ts[k..]
  }

  lemma SortedInsert(ts: seq<Timer>, k: nat, t: Timer)
    requires Sorted(ts) && k <= |ts|
    requires forall i :: 0 <= i < k ==> Before(ts[i], t)
    requires forall i :: k <= i < |ts| ==> Before(t, ts[i])
    ensures Sorted(InsertAt(ts, k, t))
  {
    var ts' := InsertAt(ts, k, t);
    forall i, j | 0 <= i < j < |ts'|
      ensures Before(ts'[i], ts'[j])
    {
      assert ts'[i] == if i < k then ts[i] else if i == k then t else ts[i - 1];
      assert ts'[j] == if j < k then ts[j] else if j == k then t else ts[j - 1];
    }
  }

  lemma InInsertAt(ts: seq<Timer>, k: nat, t: Timer)
    requires k <= |ts|
    ensures forall u :: u in InsertAt(ts, k, t) <==> u == t || u in ts
  {
    assert ts == ts[..k] + ts[k..];
  }

  const HourMs := 60 * 60 * 1000

  /** `m_previouseTime - 60*60*1000` is unsigned: below one hour it wraps to a huge value. */
  predicate Rollover(previous: nat, now: nat) {
    now < previous && (previous < HourMs || now < previous - HourMs)
  }

  class TimerManager {
    var timers: seq<Timer>
    var tickled: bool
    var previousTime: nat

    /**
     Every timer created here; the timer at each address; the latest clock reading; the deadline the
     poller last saw.
     */
    ghost var all: set<Timer>
    ghost var owner: map<nat, Timer>
    ghost var clock: nat
    ghost var seen: Option<nat>

    ghost predicate Known()
      reads this, all
    {
      && (forall t :: t in timers ==> t in all)
      && (forall t :: t in all ==> t.address in owner && owner[t.address] == t)
      && (forall t :: t in all ==> t.ms <= t.next <= clock + t.ms)
    }

    /** The set is sorted, and holds exactly the timers with a callback. */
    ghost predicate Valid()
      reads this, all
    {
      && Known()
      && Sorted(timers)
      && (forall t :: t in all ==> (t.cb.Some? <==> t in timers))
    }

    /** The poller was notified since it last looked, or nothing falls due before what it saw. */
    ghost predicate Awake()
      reads this, all
      requires Known()
    {
      tickled || timers == [] || (seen.Some? && seen.value <= timers[0].next)
    }

    constructor (now: nat)
      ensures Valid() && Awake() && timers == [] && all == {} && owner == map[]
      ensures clock == now && previousTime == now
    {
      timers, tickled, previousTime := [], false, now;
      all, owner, clock, seen := {}, map[], now, None;
    }

    /** `lower_bound`: the first timer whose key is not before the given one. */
    method LowerBound(next: nat, address: nat) returns (k: nat)
      requires Known() && Sorted(timers)
      ensures k <= |timers|
      ensures forall i :: 0 <= i < k ==> KeyBefore(timers[i].next, timers[i].address, next, address)
      ensures forall i :: k <= i < |timers| ==> !KeyBefore(timers[i].next, timers[i].address, next, address)
    {
      k := 0;
      while k < |timers| && KeyBefore(timers[k].next, timers[k].address, next, address)
        invariant k <= |timers|
        invariant forall i :: 0 <= i < k ==> KeyBefore(timers[i].next, timers[i].address, next, address)
      {
        k := k + 1;
      }
      assert k < |timers| ==> forall i :: k < i < |timers| ==> Before(timers[k], timers[i]);
    }

    /** `set::find`: the comparator locates the timer itself, because keys never change inside the set. */
    method Find(t: Timer) returns (k: nat)
      requires Known() && Sorted(timers) && t in all
      ensures k <= |timers|
      ensures t in timers ==> k < |timers| && timers[k] == t
      ensures t !in timers ==> k == |timers|
    {
      k := LowerBound(t.next, t.address);
      if k < |timers| && KeyBefore(t.next, t.address, timers[k].next, timers[k].address) {
        k := |timers|;
      }
    }

    /** `set::insert`. */
    method Insert(t: Timer) returns (k: nat)
      requires Known() && Sorted(timers) && t in all && t !in timers
      modifies this`timers
      ensures Known() && Sorted(timers)
      ensures k <= |old(timers)| && timers == InsertAt(old(timers), k, t)
      ensures forall u :: u in timers <==> u == t || u in old(timers)
    {
      k := LowerBound(t.next, t.address);
      SortedInsert(timers, k, t);
      InInsertAt(timers, k, t);
      timers := InsertAt(timers, k, t);
    }

    /** `set::erase` of the element at `k`. */
    method Erase(k: nat)
      requires Known() && Sorted(timers) && k < |timers|
      modifies this`timers
      ensures Known() && Sorted(timers)
      ensures timers == old(timers)[..k] + old(timers)[k + 1..]
      ensures forall u :: u in timers <==> u != old(timers)[k] && u in old(timers)
    {
      timers := timers[..k] + timers[k + 1..];
    }

    /** Find the timer and erase it: keys change only while a timer is out of the set. */
    method TakeOut(t: Timer) returns (found: bool)
      requires Known() && Sorted(timers) && t in all
      modifies this`timers
      ensures Known() && Sorted(timers)
      ensures found <==> t in old(timers)
      ensures forall u :: u in timers <==> u != t && u in old(timers)
      ensures timers != [] ==>
                && old(timers) != []
                && (timers[0] == old(timers)[0] || (t == old(timers)[0] && t.next <= timers[0].next))
    {
      var k := Find(t);
      if k == |timers| { return false; }
      Erase(k);
      found := true;
    }

    /** The locked tail of `addTimer`: insert, and notify when the new timer is first and nobody was notified yet. */
    method AddToSet(t: Timer) returns (notified: bool)
      requires Known() && Sorted(timers) && t in all && t !in timers
      modifies this`timers, this`tickled
      ensures Known() && Sorted(timers)
      ensures forall u :: u in timers <==> u == t || u in old(timers)
      ensures notified <==> timers[0] == t && !old(tickled)
      ensures tickled == (notified || old(tickled))
      ensures tickled || (old(timers) != [] && timers[0] == old(timers)[0])
    {
      var k := Insert(t);
      notified := k == 0 && !tickled;
      if notified {
        tickled := true;
      }
    }

    /** `created` is the clock reading of the timer's construction, taken before the lock. */
    method AddTimer(address: nat, ms: nat, cb: Callback, recurring: bool, created: nat, now: nat)
        returns (t: Timer, notified: bool)
      requires Valid() && Awake() && address !in owner && created <= now && clock <= now
      modifies this
      ensures Valid() && Awake() && clock == now && previousTime == old(previousTime) && seen == old(seen)
      ensures fresh(t) && t.address == address && t.recurring == recurring
      ensures t.ms == ms && t.next == created + ms && t.cb == Some(cb)
      ensures all == old(all) + {t} && owner == old(owner)[address := t]
      ensures forall u :: u in timers <==> u == t || u in old(timers)
      ensures notified <==> timers[0] == t && !old(tickled)
    {
      t := new Timer(address, ms, cb, recurring, created);
      all := all + {t};
      owner := owner[address := t];
      clock := now;
      notified := AddToSet(t);
    }

    method Cancel(t: Timer) returns (ok: bool)
      requires Valid() && Awake() && t in all
      modifies this`timers, t`cb
      ensures Valid() && Awake()
      ensures ok <==> old(t.cb.Some?)
      ensures t.cb == None && forall u :: u in timers <==> u != t && u in old(timers)
    {
      if t.cb.None? { return false; }
      t.cb := None;
      ok := TakeOut(t);
    }

    /** Restart the period at `now`: the deadline only moves later, so no notification is needed. */
    method Refresh(t: Timer, now: nat) returns (ok: bool)
      requires Valid() && Awake() && t in all && clock <= now
      modifies this`timers, this`clock, t`next
      ensures Valid() && Awake() && clock == now
      ensures ok <==> t.cb.Some?
      ensures t.next == if ok then now + t.ms else old(t.next)
      ensures old(t.next) <= t.next
      ensures forall u :: u in timers <==> u in old(timers)
    {
      clock := now;
      if t.cb.None? { return false; }
      ok := TakeOut(t);
      if !ok { return false; }
      t.next := now + t.ms;
      var at := Insert(t);
    }

    /** Change a timer's period and deadline while it is out of the set, and put it back. */
    method PutBack(t: Timer, ms: nat, start: nat) returns (notified: bool)
      requires Known() && Sorted(timers) && t in all && t !in timers && start <= clock
      modifies this`timers, this`tickled, t`next, t`ms
      ensures t.ms == ms && t.next == ms + start
      ensures Known() && Sorted(timers)
      ensures forall u :: u in timers <==> u == t || u in old(timers)
      ensures notified <==> timers[0] == t && !old(tickled)
      ensures tickled == (notified || old(tickled))
      ensures tickled || (old(timers) != [] && timers[0] == old(timers)[0])
    {
      t.ms, t.next := ms, ms + start;
      notified := AddToSet(t);
    }

    method Reset(t: Timer, ms: nat, fromNow: bool, now: nat) returns (ok: bool, notified: bool)
      requires Valid() && Awake() && t in all && clock <= now
      modifies this`timers, this`clock, this`tickled, t`next, t`ms
      ensures Valid() && Awake() && clock == now
      ensures ok <==> t.cb.Some? || (ms == old(t.ms) && !fromNow)
      ensures t.ms == if ok then ms else old(t.ms)
      ensures t.next == if !ok then old(t.next) else if fromNow then now + ms else old(t.next) - old(t.ms) + ms
      ensures forall u :: u in timers <==> u in old(timers)
      ensures notified ==> timers != [] && timers[0] == t && !old(tickled)
    {
      clock := now;
      notified := false;
      if ms == t.ms && !fromNow { return true, false; }
      if t.cb.None? { return false, false; }
      ok := TakeOut(t);
      if !ok { return false, false; }
      var start := if fromNow then now else t.next - t.ms;
      notified := PutBack(t, ms, start);
    }

    /** How long the poller may sleep; None is the all-ones value for "no timer". */
    method GetNextTimer(now: nat) returns (wait: Option<nat>)
      requires Valid() && clock <= now
      modifies this`tickled, this`clock, this`seen
      ensures Valid() && Awake() && clock == now && !tickled
      ensures wait.None? <==> timers == []
      ensures seen == if timers == [] then None else Some(timers[0].next)
      ensures wait.Some? ==> forall t :: t in timers ==> t.next >= now + wait.value || wait.value == 0
      ensures wait == Some(0) ==> exists t :: t in timers && t.next <= now
    {
      tickled := false;
      clock := now;
      if timers == [] {
        seen := None;
        return None;
      }
      seen := Some(timers[0].next);
      wait := Some(if now >= timers[0].next then 0 else timers[0].next - now);
    }

    method DetectClockRollover(now: nat) returns (rollover: bool)
      modifies this`previousTime
      ensures rollover <==> Rollover(old(previousTime), now)
      ensures previousTime == now
    {
      rollover := false;
      var hourAgo := if previousTime >= HourMs then previousTime - HourMs
                     else previousTime + 0x1_0000_0000_0000_0000 - HourMs;
      if now < previousTime && now < hourAgo {
        rollover := true;
      }
      previousTime := now;
    }

    /** How many timers from the front are due; the address of the probe does not matter. */
    method DueCount(now: nat, probe: nat, rollover: bool) returns (k: nat)
      requires Known() && Sorted(timers)
      ensures k <= |timers|
      ensures forall i :: 0 <= i < |timers| ==> (i < k <==> rollover || timers[i].next <= now)
    {
      if rollover { return |timers|; }
      k := LowerBound(now, probe);
      ghost var low := k;
      while k < |timers| && timers[k].next == now
        invariant low <= k <= |timers|
        invariant forall i :: low <= i < k ==> timers[i].next == now
      {
        k := k + 1;
      }
      assert k < |timers| ==> forall i :: k < i < |timers| ==> Before(timers[k], timers[i]);
    }

    /** One expired timer: its callback is handed out, and it is re-armed or cleared. */
    method Fire(t: Timer, now: nat) returns (cb: Option<Callback>)
      requires Known() && Sorted(timers) && t in all && t !in timers && now <= clock
      modifies this`timers, t`next, t`cb
      ensures Known() && Sorted(timers)
      ensures cb == old(t.cb)
      ensures if t.recurring then t.next == now + t.ms && t.cb == old(t.cb) else t.next == old(t.next) && t.cb == None
      ensures forall u :: u in timers <==> u in old(timers) || (u == t && t.recurring)
    {
      cb := t.cb;
      if t.recurring {
        t.next := now + t.ms;
        var k := Insert(t);
      } else {
        t.cb := None;
      }
    }

    /** What expiry at `now` leaves of a timer that was due. */
    ghost predicate Fired(t: Timer, now: nat, cb: Option<Callback>)
      reads this, t
    {
      if t.recurring then t in timers && t.next == now + t.ms && t.cb == cb else t !in timers && t.cb == None
    }

    /** The loop over the expired timers, already taken out of the set. */
    method FireAll(expired: seq<Timer>, now: nat) returns (cbs: seq<Option<Callback>>)
      requires Known() && Sorted(timers) && now <= clock
      requires forall i :: 0 <= i < |expired| ==> expired[i] in all && expired[i] !in timers
      requires forall i, j :: 0 <= i < j < |expired| ==> expired[i] != expired[j]
      modifies this`timers, expired
      ensures Known() && Sorted(timers)
      ensures |cbs| == |expired| && forall i :: 0 <= i < |expired| ==> cbs[i] == old(expired[i].cb)
      ensures forall i :: 0 <= i < |expired| ==> Fired(expired[i], now, cbs[i])
      ensures forall t :: t !in expired ==> (t in timers <==> t in old(timers))
      ensures forall t :: t in expired ==> t.ms == old(t.ms)
    {
      cbs := [];
      for i := 0 to |expired|
        invariant Known() && Sorted(timers)
        invariant |cbs| == i && forall j :: 0 <= j < i ==>
                  cbs[j] == old(expired[j].cb) && Fired(expired[j], now, cbs[j])
        invariant forall j :: i <= j < |expired| ==> expired[j] !in timers && expired[j].cb == old(expired[j].cb)
        invariant forall t :: t !in expired ==> (t in timers <==> t in old(timers))
        invariant forall t :: t in expired ==> t.ms == old(t.ms)
      {
        var cb := Fire(expired[i], now);
        cbs := cbs + [cb];
      }
    }

    /** The timers due are the first `k`: take them out and fire them. */
    method FirePrefix(k: nat, now: nat) returns (cbs: seq<Option<Callback>>)
      requires Valid() && k <= |timers| && now <= clock
      modifies this`timers, all
      ensures Valid()
      ensures |cbs| == k && forall i :: 0 <= i < k ==> cbs[i] == old(timers[i].cb) && Fired(old(timers)[i], now, cbs[i])
      ensures forall t :: t in all && t !in old(timers)[..k] ==>
              t.cb == old(t.cb) && t.next == old(t.next) && (t in timers <==> t in old(timers))
      ensures forall t :: t in all ==> t.ms == old(t.ms)
      ensures (forall i :: k <= i < |old(timers)| ==> now < old(timers[i].next)) ==>
                forall t :: t in timers ==> now <= t.next
    {
      var expired := timers[..k];
      timers := timers[k..];
      cbs := FireAll(expired, now);
    }

    /** The part of `listExpiredCb` after its early returns. */
    method Expire(now: nat, probe: nat, rolled: bool) returns (cbs: seq<Option<Callback>>)
      requires Valid() && now <= clock
      modifies this`timers, all
      ensures Valid()
      ensures |cbs| <= |old(timers)|
      ensures forall i :: 0 <= i < |cbs| ==> cbs[i] == old(timers[i].cb) && Fired(old(timers)[i], now, cbs[i])
      ensures forall i :: 0 <= i < |old(timers)| ==> (i < |cbs| <==> rolled || old(timers[i].next) <= now)
      ensures forall t :: t in all && !(t in old(timers) && (rolled || old(t.next) <= now)) ==>
              t.cb == old(t.cb) && t.next == old(t.next) && (t in timers <==> t in old(timers))
      ensures !rolled ==> forall t :: t in timers ==> now <= t.next
      ensures forall t :: t in all ==> t.ms == old(t.ms)
    {
      var k := DueCount(now, probe, rolled);
      assert forall t :: t in timers[..k] ==> t in timers && (rolled || t.next <= now);
      cbs := FirePrefix(k, now);
    }

    /** The early returns: whether any timer is due, and the rollover detection. */
    method AnyDue(now: nat) returns (due: bool, rolled: bool)
      requires Known() && Sorted(timers)
      modifies this`previousTime, this`clock
      ensures Known() && clock == Max(old(clock), now)
      ensures previousTime == if timers == [] then old(previousTime) else now
      ensures rolled <==> timers != [] && Rollover(old(previousTime), now)
      ensures due <==> timers != [] && (rolled || timers[0].next <= now)
      ensures !due ==> forall i :: 0 <= i < |timers| ==> now < timers[i].next
    {
      assert forall i :: 0 < i < |timers| ==> Before(timers[0], timers[i]);
      clock := Max(clock, now);
      if timers == [] { return false, false; }
      rolled := DetectClockRollover(now);
      due := rolled || timers[0].next <= now;
    }

    /**
     `now` was read before the lock, and `probe` is the address of the search key. The callbacks
     handed out are those of exactly the due timers, in deadline order.
     */
    method ListExpiredCb(now: nat, probe: nat) returns (cbs: seq<Option<Callback>>, rolled: bool)
      requires Valid() && Awake()
      modifies this`timers, this`previousTime, this`clock, all
      ensures Valid() && (!rolled ==> Awake())
      ensures rolled ==>
                (Awake() <==>
                 tickled || forall t :: t in old(timers) && t.recurring ==> seen.Some? && seen.value <= now + t.ms)
      ensures clock == Max(old(clock), now) && (previousTime == old(previousTime) || previousTime == now)
      ensures rolled <==> old(timers) != [] && Rollover(old(previousTime), now)
      ensures |cbs| <= |old(timers)|
      ensures forall i :: 0 <= i < |cbs| ==>
                cbs[i].Some? && cbs[i] == old(timers[i].cb) && Fired(old(timers)[i], now, cbs[i])
      ensures forall i :: 0 <= i < |old(timers)| ==> (i < |cbs| <==> rolled || old(timers[i].next) <= now)
      ensures forall t :: t in all && !(t in old(timers) && (rolled || old(t.next) <= now)) ==>
              t.cb == old(t.cb) && t.next == old(t.next) && (t in timers <==> t in old(timers))
      ensures forall t :: t in all ==> t.ms == old(t.ms)
    {
      var due;
      due, rolled := AnyDue(now);
      if !due { return [], rolled; }
      cbs := Expire(now, probe, rolled);
      if rolled { RearmedAwake(old(timers), now); }
    }

    /** Once all timers fired at `now`, the poller is awake exactly when none is re-armed before what it saw. */
    lemma RearmedAwake(before: seq<Timer>, now: nat)
      requires Valid() && (forall t :: t in timers ==> t in before)
      requires forall i :: 0 <= i < |before| ==> before[i] in all && Fired(before[i], now, before[i].cb)
      ensures Awake() <==> tickled || forall t :: t in before && t.recurring ==> seen.Some? && seen.value <= now + t.ms
    {
      forall t | t in before && t.recurring
        ensures t in timers && timers[0].next <= t.next == now + t.ms
      {
        var i :| 0 <= i < |timers| && timers[i] == t;
        assert i > 0 ==> Before(timers[0], timers[i]);
      }
      if timers != [] { assert timers[0] in before; }
    }
  }

  /** One call made at a clock reading; timers are named by the order of their creation. */
  datatype Call =
    | Add(ms: nat, cb: Callback, recurring: bool, created: nat)
    | Cancel(i: nat)
    | Refresh(i: nat)
    | Reset(i: nat, ms: nat, fromNow: bool)
    | Poll
    | Expire(probe: nat)

  class Client {
    const manager: TimerManager
    var created: seq<Timer>

    ghost predicate Valid()
      reads this, manager, manager.all
    {
      && manager.Valid() && manager.Awake() && manager.previousTime <= manager.clock
      && (forall i :: 0 <= i < |created| ==> created[i] in manager.all)
    }

    constructor (now: nat)
      ensures Valid() && manager.clock == now && created == []
      ensures fresh(manager) && manager.all == {} && manager.owner == map[]
    {
      manager := new TimerManager(now);
      created := [];
    }

    /** A call on one of the timers created so far. */
    method DoOn(call: Call, t: Timer, now: nat)
      requires Valid() && manager.clock <= now && t in manager.all
      modifies manager`timers, manager`clock, manager`tickled, t
      ensures Valid() && manager.clock == now
    {
      manager.clock := now;
      match call {
        case Cancel(_) => var _ := manager.Cancel(t);
        case Refresh(_) => var _ := manager.Refresh(t, now);
        case Reset(_, ms, fromNow) => var _, _ := manager.Reset(t, ms, fromNow, now);
        case _ =>
      }
    }

    method Do(call: Call, now: nat, address: nat)
      requires Valid() && manager.clock <= now && address !in manager.owner
      modifies this, manager, manager.all
      ensures Valid() && manager.clock == now && fresh(manager.all - old(manager.all))
      ensures manager.owner.Keys <= old(manager.owner).Keys + {address}
    {
      match call {
        case Add(ms, cb, recurring, at) =>
          var t, _ := manager.AddTimer(address, ms, cb, recurring, Min(at, now), now);
          created := created + [t];
        case Poll =>
          var _ := manager.GetNextTimer(now);
        case Expire(probe) =>
          var _, _ := manager.ListExpiredCb(now, probe);
        case _ =>
          if call.i < |created| {
            DoOn(call, created[call.i], now);
          } else {
            manager.clock := now;
          }
      }
    }
  }

  /**
   Whole runs: whatever is called, at clock readings that never decrease, the set stays exact and
   the poller never misses an earlier deadline. `address` names the memory of each new timer.
   */
  method Run(calls: seq<Call>, readings: seq<nat>, start: nat) returns (client: Client)
    requires |readings| == |calls|
    requires forall i :: 0 <= i < |readings| ==> (if i == 0 then start else readings[i - 1]) <= readings[i]
    ensures client.Valid()
  {
    client := new Client(start);
    for i := 0 to |calls|
      invariant client.Valid() && fresh(client) && fresh(client.manager) && fresh(client.manager.all)
      invariant client.manager.clock == if i == 0 then start else readings[i - 1]
      invariant forall a :: a in client.manager.owner ==> a < i
    {
      client.Do(calls[i], readings[i], i);
    }
  }

  /** When the clock goes back by hours, a recurring timer is re-armed before what the poller saw, unnoticed. */
  method Oversleep() returns (m: TimerManager)
    ensures m.Valid() && !m.Awake()
  {
    m := new TimerManager(8_000_000);
    var t, _ := m.AddTimer(0, 1000, 7, true, 8_000_000, 8_000_000);
    assert t in m.timers && m.timers[0] == t;
    var _ := m.GetNextTimer(8_000_000);
    var cbs, rolled := m.ListExpiredCb(100, 1);
    assert m.Fired(t, 100, cbs[0]) && m.timers[0] == t;
  }
}
