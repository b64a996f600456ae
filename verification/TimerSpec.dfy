/** What the guest's event loop does, without the heap and the counters that make it fast:
    the timers and immediates of src/js/quickjs_shim.c. */
module TimerSpec {
  import opened Base
  import opened TimerHeap

  type ImmId = nat
  type Tick = r: real | r >= 0.0

  /** `entry` is the scheduling that will fire it, if any. */
  datatype Timer = Timer(delay: real, repeat: bool, ref: bool, cleared: bool, entry: Option<Entry>)

  datatype Immediate = Immediate(ref: bool, queued: bool)

  /** `queue` are the immediates not yet reached, in order; a cleared one stays in it, not queued. */
  datatype Loop = Loop(
    timers: map<TimerId, Timer>,
    active: set<TimerId>,
    imms: seq<Immediate>,
    queue: seq<ImmId>,
    orders: nat,
    nextId: TimerId,
    clock: real,
    turnStarted: real,
    timersPhase: bool,
    budget: nat)

  /** What a guest callback can call. A clock reading is `tick` after the one before it. */
  datatype Op =
    | Start(delay: Option<real>, repeat: bool, tick: Tick)
    | ClearHandle(id: TimerId)
    | ClearId(id: TimerId)
    | Refresh(id: TimerId, tick: Tick)
    | SetRef(id: TimerId, ref: bool)
    | SetImmediate
    | ClearImmediate(i: ImmId)
    | SetImmediateRef(i: ImmId, ref: bool)

  const TimeoutMax: real := 2147483647.0

  /** Anything outside 1..TimeoutMax becomes 1; `None` is what is not a finite number. */
  function Milliseconds(delay: Option<real>): real {
    if delay.Some? && 1.0 <= delay.value <= TimeoutMax then delay.value else 1.0
  }

  function SetTimer(l: Loop, id: TimerId, t: Timer): Loop { l.(timers := l.timers[id := t]) }

  function Schedule(l: Loop, id: TimerId, from: real): Loop
    requires id in l.timers
  {
    var t := l.timers[id];
    l.(active := l.active + {id}, orders := l.orders + 1,
       timers := l.timers[id := t.(entry := Some(Entry(id, from + t.delay, l.orders)))])
  }

  function Unschedule(l: Loop, id: TimerId): Loop
    requires id in l.timers
  {
    if id !in l.active then l
    else l.(active := l.active - {id}, timers := l.timers[id := l.timers[id].(entry := None)])
  }

  function Clear(l: Loop, id: TimerId): Loop
    requires id in l.timers
  {
    Unschedule(SetTimer(l, id, l.timers[id].(cleared := true)), id)
  }

  function StartTimer(l: Loop, delay: Option<real>, repeat: bool, now: real): Loop {
    var id := l.nextId;
    Schedule(SetTimer(l, id, Timer(Milliseconds(delay), repeat, true, false, None)).(nextId := id + 1, clock := now), id, now)
  }

  function Dequeue(l: Loop, i: ImmId): Loop
    requires i < |l.imms|
  {
    l.(imms := l.imms[i := l.imms[i].(queued := false)])
  }

  function Apply(l: Loop, op: Op): Loop {
    match op
    case Start(delay, repeat, tick) => StartTimer(l, delay, repeat, l.clock + tick)
    case ClearHandle(id) => if id in l.timers then Clear(l, id) else l
    case ClearId(id) => if id in l.timers && id in l.active then Clear(l, id) else l
    case Refresh(id, tick) =>
      if id in l.timers && !l.timers[id].cleared then Schedule(l.(clock := l.clock + tick), id, l.clock + tick) else l
    case SetRef(id, ref) => if id in l.timers then SetTimer(l, id, l.timers[id].(ref := ref)) else l
    case SetImmediate => l.(imms := l.imms + [Immediate(true, true)], queue := l.queue + [|l.imms|])
    case ClearImmediate(i) => if i < |l.imms| then Dequeue(l, i) else l
    case SetImmediateRef(i, ref) => if i < |l.imms| then l.(imms := l.imms[i := l.imms[i].(ref := ref)]) else l
  }

  function ApplyAll(l: Loop, ops: seq<Op>): Loop
    decreases |ops|
  {
    if ops == [] then l else ApplyAll(Apply(l, ops[0]), ops[1..])
  }

  // --------------------------------------------------------------------- one turn

  /** `e` is what its timer waits for: not cleared, not superseded, not fired. */
  predicate Live(timers: map<TimerId, Timer>, e: Entry) { e.id in timers && timers[e.id].entry == Some(e) }

  ghost predicate IsLeast(timers: map<TimerId, Timer>, e: Entry) {
    Live(timers, e) && forall id :: id in timers && timers[id].entry.Some? && id != e.id ==> Precedes(e, timers[id].entry.value)
  }

  ghost function Least(timers: map<TimerId, Timer>): Option<Entry> {
    if e: Entry :| IsLeast(timers, e) then Some(e) else None
  }

  function BeginTimers(l: Loop, tick: Tick): Loop {
    l.(clock := l.clock + tick, turnStarted := l.clock + tick, timersPhase := true)
  }

  datatype Ran = TimerRan(entry: Entry) | ImmediateRan(i: ImmId)

  /** Before its callback, a timer that fires is unscheduled, but an interval stays active. */
  function Taken(l: Loop, id: TimerId): Loop
    requires id in l.timers
  {
    if l.timers[id].repeat then SetTimer(l, id, l.timers[id].(entry := None)) else Unschedule(l, id)
  }

  /** After its callback an interval waits again, unless the callback cleared or refreshed it. */
  function Rearmed(l: Loop, id: TimerId): Loop {
    if id in l.timers && l.timers[id].repeat && l.timers[id].entry.None? && id in l.active
    then Schedule(l, id, l.turnStarted) else l
  }

  function Fire(l: Loop, id: TimerId, calls: seq<Op>): Loop
    requires id in l.timers
  {
    Rearmed(ApplyAll(Taken(l, id), calls), id)
  }

  /** The immediates left of the budget, up to and including the first that is still queued. */
  function RunImmediate(l: Loop, calls: seq<Op>): (Loop, Option<Ran>)
    decreases l.budget
  {
    if l.budget == 0 || l.queue == [] || l.queue[0] >= |l.imms| then (l, None) else
    var l1 := l.(budget := l.budget - 1, queue := l.queue[1..]);
    if l.imms[l.queue[0]].queued then (ApplyAll(Dequeue(l1, l.queue[0]), calls), Some(ImmediateRan(l.queue[0])))
    else RunImmediate(l1, calls)
  }

  ghost predicate TimerIsDue(l: Loop) {
    l.timersPhase && Least(l.timers).Some? && Least(l.timers).value.due <= l.turnStarted
  }

  function EndTimers(l: Loop): Loop { l.(timersPhase := false, budget := |l.queue|) }

  /** One `runTimer`, whose callback makes `calls`. */
  ghost function RunTimer(l: Loop, calls: seq<Op>): (Loop, Option<Ran>) {
    if TimerIsDue(l) && Least(l.timers).value.id in l.timers
    then (Fire(l, Least(l.timers).value.id, calls), Some(TimerRan(Least(l.timers).value)))
    else RunImmediate(if l.timersPhase then EndTimers(l) else l, calls)
  }

  // ------------------------------------------------------------------ what is kept

  ghost predicate TimersOk(timers: map<TimerId, Timer>, active: set<TimerId>, orders: nat, next: TimerId, running: Option<TimerId>) {
    && active <= timers.Keys
    && (forall id :: id in timers ==> id < next && timers[id].delay >= 1.0)
    && (forall id :: id in timers && timers[id].entry.Some? ==>
          timers[id].entry.value.id == id && timers[id].entry.value.order < orders && id in active)
    && (forall id :: id in active ==> timers[id].entry.Some? || running == Some(id))
    && (forall id, id' :: id in timers && id' in timers && id != id' && timers[id].entry.Some? && timers[id'].entry.Some? ==>
          timers[id].entry.value.order != timers[id'].entry.value.order)
  }

  ghost predicate QueueOk(imms: seq<Immediate>, queue: seq<ImmId>, budget: nat) {
    && budget <= |queue|
    && (forall k :: 0 <= k < |queue| ==> queue[k] < |imms|)
    && (forall j, k :: 0 <= j < k < |queue| ==> queue[j] < queue[k])
    && (forall i :: 0 <= i < |imms| && imms[i].queued ==> i in queue)
  }

  /** Every active timer but the one whose callback is running has its one entry; every queued
      immediate is in the queue, in the order it was made. */
  ghost predicate Inv(l: Loop, running: Option<TimerId>) {
    && TimersOk(l.timers, l.active, l.orders, l.nextId, running)
    && QueueOk(l.imms, l.queue, l.budget)
    && l.turnStarted <= l.clock
  }

  predicate DueBy(timers: map<TimerId, Timer>, id: TimerId, t: real) {
    id in timers && timers[id].entry.Some? && timers[id].entry.value.due <= t
  }

  /** The timers the turn still has to fire. */
  ghost function Due(l: Loop): set<TimerId> { set id | id in l.timers && DueBy(l.timers, id, l.turnStarted) }

  /** All that calls can do to the turn under way: no timer becomes due in it, and immediates
      are only added behind. */
  ghost predicate TimersLater(timers: map<TimerId, Timer>, timers': map<TimerId, Timer>, t: real) {
    && timers.Keys <= timers'.Keys
    && (forall id :: id in timers ==> timers'[id].repeat == timers[id].repeat)
    && (forall id :: DueBy(timers', id, t) ==> id in timers && timers'[id].entry == timers[id].entry)
  }

  ghost predicate QueueLater(imms: seq<Immediate>, queue: seq<ImmId>, imms': seq<Immediate>, queue': seq<ImmId>) {
    && |imms| <= |imms'| && |queue| <= |queue'| && queue'[..|queue|] == queue
    && (forall i :: 0 <= i < |imms| && imms'[i].queued ==> imms[i].queued)
    && (forall k :: |queue| <= k < |queue'| ==> queue'[k] >= |imms|)
  }

  ghost predicate Later(l: Loop, l': Loop) {
    && l'.turnStarted == l.turnStarted && l'.timersPhase == l.timersPhase && l'.budget == l.budget && l.clock <= l'.clock
    && TimersLater(l.timers, l'.timers, l.turnStarted)
    && QueueLater(l.imms, l.queue, l'.imms, l'.queue)
  }

  type Timers = map<TimerId, Timer>

  /** Setting one timer: nothing, an entry it had already, or one with a fresh order number. */
  lemma PutTimerOk(timers: Timers, active: set<TimerId>, orders: nat, next: TimerId, running: Option<TimerId>,
                   id: TimerId, t: Timer, active': set<TimerId>, orders': nat, next': TimerId, running': Option<TimerId>)
    requires TimersOk(timers, active, orders, next, running) && orders <= orders' && next <= next' && id < next'
    requires active' == active + {id} || active' == active - {id}
    requires t.delay >= 1.0 && (running' == running || running.None? || running == Some(id))
    requires t.entry.Some? ==> id in active' && t.entry.value.id == id && t.entry.value.order < orders'
    requires t.entry.Some? ==> (id in timers && timers[id].entry == t.entry) || t.entry.value.order >= orders
    requires id in active' ==> t.entry.Some? || running' == Some(id)
    ensures TimersOk(timers[id := t], active', orders', next', running')
  {
  }

  /** If it is not due, the turn does not see it. */
  lemma PutTimerLater(timers: Timers, id: TimerId, t: Timer, turn: real)
    requires t.entry.Some? && t.entry.value.due <= turn ==> id in timers && timers[id].entry == t.entry
    requires id in timers ==> t.repeat == timers[id].repeat
    ensures TimersLater(timers, timers[id := t], turn)
  {
    assert forall k :: DueBy(timers[id := t], k, turn) && k != id ==> DueBy(timers, k, turn);
  }

  lemma SameQueue(imms: seq<Immediate>, queue: seq<ImmId>)
    ensures QueueLater(imms, queue, imms, queue)
  {
    assert queue[..|queue|] == queue;
  }

  lemma SameTimers(timers: Timers, turn: real)
    ensures TimersLater(timers, timers, turn)
  {
  }

  lemma ScheduleKeeps(l: Loop, id: TimerId, from: real, running: Option<TimerId>)
    requires Inv(l, running) && id in l.timers && from >= l.turnStarted && (running.None? || running == Some(id))
    ensures Inv(Schedule(l, id, from), None)
    ensures Later(l, Schedule(l, id, from))
  {
    hide QueueOk, QueueLater, TimersOk, TimersLater;
    DelayOk(l, id, running);
    var t := Schedule(l, id, from).timers[id];
    PutTimerOk(l.timers, l.active, l.orders, l.nextId, running, id, t, l.active + {id}, l.orders + 1, l.nextId, None);
    PutTimerLater(l.timers, id, t, l.turnStarted);
    SameQueue(l.imms, l.queue);
  }

  lemma DelayOk(l: Loop, id: TimerId, running: Option<TimerId>)
    requires Inv(l, running) && id in l.timers
    ensures l.timers[id].delay >= 1.0 && id < l.nextId
    ensures l.timers[id].entry.Some? ==> id in l.active && l.timers[id].entry.value.id == id && l.timers[id].entry.value.order < l.orders
    ensures id in l.active ==> l.timers[id].entry.Some? || running == Some(id)
  {
  }

  lemma RefreshKeeps(l: Loop, id: TimerId, from: real, running: Option<TimerId>)
    requires Inv(l, running) && id in l.timers && from >= l.turnStarted
    ensures Inv(Schedule(l, id, from), running)
    ensures Later(l, Schedule(l, id, from))
  {
    hide QueueOk, QueueLater, TimersOk, TimersLater;
    DelayOk(l, id, running);
    var t := Schedule(l, id, from).timers[id];
    PutTimerOk(l.timers, l.active, l.orders, l.nextId, running, id, t, l.active + {id}, l.orders + 1, l.nextId, running);
    PutTimerLater(l.timers, id, t, l.turnStarted);
    SameQueue(l.imms, l.queue);
  }

  lemma UnscheduleKeeps(l: Loop, id: TimerId, running: Option<TimerId>)
    requires Inv(l, running) && id in l.timers
    ensures Inv(Unschedule(l, id), running) && Later(l, Unschedule(l, id))
  {
    hide QueueOk, QueueLater, TimersOk, TimersLater;
    DelayOk(l, id, running);
    SameQueue(l.imms, l.queue);
    if id in l.active {
      var t := l.timers[id].(entry := None);
      PutTimerOk(l.timers, l.active, l.orders, l.nextId, running, id, t, l.active - {id}, l.orders, l.nextId, running);
      PutTimerLater(l.timers, id, t, l.turnStarted);
    } else {
      SameTimers(l.timers, l.turnStarted);
    }
  }

  /** Setting a flag of a timer. */
  lemma FlagKeeps(l: Loop, id: TimerId, t: Timer, running: Option<TimerId>)
    requires Inv(l, running) && id in l.timers
    requires t.entry == l.timers[id].entry && t.delay == l.timers[id].delay && t.repeat == l.timers[id].repeat
    ensures Inv(SetTimer(l, id, t), running) && Later(l, SetTimer(l, id, t))
  {
    hide QueueOk, QueueLater, TimersOk, TimersLater;
    DelayOk(l, id, running);
    SameQueue(l.imms, l.queue);
    var active' := if id in l.active then l.active + {id} else l.active - {id};
    PutTimerOk(l.timers, l.active, l.orders, l.nextId, running, id, t, active', l.orders, l.nextId, running);
    PutTimerLater(l.timers, id, t, l.turnStarted);
    assert active' == l.active;
  }

  lemma ClearKeeps(l: Loop, id: TimerId, running: Option<TimerId>)
    requires Inv(l, running) && id in l.timers
    ensures Inv(Clear(l, id), running) && Later(l, Clear(l, id))
  {
    hide Inv, Later, Unschedule;
    var l1 := SetTimer(l, id, l.timers[id].(cleared := true));
    FlagKeeps(l, id, l.timers[id].(cleared := true), running);
    UnscheduleKeeps(l1, id, running);
    LaterAdds(l, l1, Clear(l, id));
  }

  lemma StartKeeps(l: Loop, delay: Option<real>, repeat: bool, now: real, running: Option<TimerId>)
    requires Inv(l, running) && now >= l.clock
    ensures Inv(StartTimer(l, delay, repeat, now), running) && Later(l, StartTimer(l, delay, repeat, now))
  {
    hide QueueOk, QueueLater, TimersOk, TimersLater;
    var id, l' := l.nextId, StartTimer(l, delay, repeat, now);
    var t := l'.timers[id];
    Fresh(l, running);
    PutTimerOk(l.timers, l.active, l.orders, l.nextId, running, id, t, l.active + {id}, l.orders + 1, id + 1, running);
    PutTimerLater(l.timers, id, t, l.turnStarted);
    SameQueue(l.imms, l.queue);
    assert l'.timers == l.timers[id := t];
  }

  lemma Fresh(l: Loop, running: Option<TimerId>)
    requires Inv(l, running)
    ensures l.nextId !in l.timers
  {
  }

  lemma QueueMore(imms: seq<Immediate>, queue: seq<ImmId>, budget: nat)
    requires QueueOk(imms, queue, budget)
    ensures var imms', queue' := imms + [Immediate(true, true)], queue + [|imms|];
      QueueOk(imms', queue', budget) && QueueLater(imms, queue, imms', queue')
  {
    var queue' := queue + [|imms|];
    assert forall k :: 0 <= k < |queue| ==> queue'[k] == queue[k];
    assert queue'[|queue|] == |imms|;
    forall i | i in queue ensures i in queue' { var k :| 0 <= k < |queue| && queue[k] == i; assert queue'[k] == i; }
  }

  lemma QueueFlag(imms: seq<Immediate>, queue: seq<ImmId>, budget: nat, i: ImmId, m: Immediate)
    requires QueueOk(imms, queue, budget) && i < |imms| && (m.queued ==> imms[i].queued)
    ensures QueueOk(imms[i := m], queue, budget) && QueueLater(imms, queue, imms[i := m], queue)
  {
    assert queue[..|queue|] == queue;
  }

  lemma ImmediateKeeps(l: Loop, op: Op, running: Option<TimerId>)
    requires Inv(l, running) && (op.SetImmediate? || op.ClearImmediate? || op.SetImmediateRef?)
    ensures Inv(Apply(l, op), running) && Later(l, Apply(l, op))
  {
    hide QueueOk, QueueLater, TimersOk, TimersLater;
    SameTimers(l.timers, l.turnStarted);
    SameQueue(l.imms, l.queue);
    match op
    case SetImmediate => QueueMore(l.imms, l.queue, l.budget);
    case ClearImmediate(i) => if i < |l.imms| { QueueFlag(l.imms, l.queue, l.budget, i, l.imms[i].(queued := false)); }
    case SetImmediateRef(i, ref) => if i < |l.imms| { QueueFlag(l.imms, l.queue, l.budget, i, l.imms[i].(ref := ref)); }
  }

  lemma ClockKeeps(l: Loop, tick: Tick, running: Option<TimerId>)
    requires Inv(l, running)
    ensures Inv(l.(clock := l.clock + tick), running) && Later(l, l.(clock := l.clock + tick))
  {
    hide QueueOk, QueueLater, TimersOk, TimersLater;
    SameTimers(l.timers, l.turnStarted);
    SameQueue(l.imms, l.queue);
  }

  lemma TimerOpKeeps(l: Loop, op: Op, running: Option<TimerId>)
    requires Inv(l, running)
    ensures op.Start? ==> Inv(Apply(l, op), running) && Later(l, Apply(l, op))
    ensures op.Refresh? ==> Inv(Apply(l, op), running) && Later(l, Apply(l, op))
  {
    hide Later, QueueOk, TimersOk, Schedule, StartTimer;
    match op
    case Start(delay, repeat, tick) => StartKeeps(l, delay, repeat, l.clock + tick, running);
    case Refresh(id, tick) =>
      ClockKeeps(l, 0.0, running);
      if id in l.timers && !l.timers[id].cleared {
        var l1 := l.(clock := l.clock + tick);
        ClockKeeps(l, tick, running);
        RefreshKeeps(l1, id, l1.clock, running);
        LaterAdds(l, l1, Apply(l, op));
      }
    case _ =>
  }

  /** No call from a callback breaks the loop, makes a timer due in the turn under way, or
      queues an immediate ahead of another. */
  lemma ApplyKeeps(l: Loop, op: Op, running: Option<TimerId>)
    requires Inv(l, running)
    ensures Inv(Apply(l, op), running) && Later(l, Apply(l, op))
  {
    hide Inv, Later, Clear, Schedule, StartTimer;
    ClockKeeps(l, 0.0, running);
    match op
    case Start(_, _, _) => TimerOpKeeps(l, op, running);
    case Refresh(_, _) => TimerOpKeeps(l, op, running);
    case ClearHandle(id) => if id in l.timers { ClearKeeps(l, id, running); }
    case ClearId(id) => if id in l.timers { ClearKeeps(l, id, running); }
    case SetRef(id, ref) => if id in l.timers { FlagKeeps(l, id, l.timers[id].(ref := ref), running); }
    case _ => ImmediateKeeps(l, op, running);
  }

  lemma LaterAdds(a: Loop, b: Loop, c: Loop)
    requires Later(a, b) && Later(b, c)
    ensures Later(a, c)
  {
    assert forall id :: DueBy(c.timers, id, a.turnStarted) ==> DueBy(b.timers, id, a.turnStarted);
    assert c.queue[..|a.queue|] == b.queue[..|a.queue|];
    forall k | |a.queue| <= k < |c.queue| ensures c.queue[k] >= |a.imms| {
      if k < |b.queue| { assert c.queue[k] == c.queue[..|b.queue|][k]; }
    }
  }

  lemma {:induction false} ApplyAllKeeps(l: Loop, ops: seq<Op>, running: Option<TimerId>)
    requires Inv(l, running)
    ensures Inv(ApplyAll(l, ops), running) && Later(l, ApplyAll(l, ops))
    decreases |ops|
  {
    if ops == [] {
      assert l.queue[..|l.queue|] == l.queue;
    } else {
      hide Inv, Later, Apply;
      ApplyKeeps(l, ops[0], running);
      ApplyAllKeeps(Apply(l, ops[0]), ops[1..], running);
      LaterAdds(l, Apply(l, ops[0]), ApplyAll(l, ops));
    }
  }
}
