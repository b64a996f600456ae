/** The event loop the glue keeps: a heap with stale entries, counters and an array with a
    moving head, proved to be the loop of `TimerSpec`. */
module EventLoop {
  import opened Base
  import opened TimerHeap
  import opened TimerSpec
  import opened TimerTurn

  // ------------------------------------------------------------------- the heap

  /** The heap holds every live entry, once, and may hold stale ones; none shares its number. */
  ghost predicate Holds(m: multiset<Entry>, timers: Timers, orders: nat) {
    && (forall e :: e in m ==> m[e] == 1 && e.id in timers && e.order < orders)
    && (forall e, f :: e in m && f in m && e.order == f.order ==> e == f)
    && (forall id :: Waits(timers, id) ==> timers[id].entry.value in m)
  }

  lemma HoldsNew(m: multiset<Entry>, timers: Timers, orders: nat, id: TimerId, t: Timer, due: real)
    requires Holds(m, timers, orders) && t.entry == Some(Entry(id, due, orders))
    ensures Holds(m + multiset{t.entry.value}, timers[id := t], orders + 1)
  {
    var e := t.entry.value;
    assert e !in m;
    var timers' := timers[id := t];
    forall k | Waits(timers', k) ensures timers'[k].entry.value in m + multiset{e} {
      assert k != id ==> Waits(timers, k);
    }
  }

  lemma HoldsLess(m: multiset<Entry>, timers: Timers, orders: nat, id: TimerId, t: Timer)
    requires Holds(m, timers, orders) && (t.entry.None? || (id in timers && t.entry == timers[id].entry))
    ensures Holds(m, timers[id := t], orders)
  {
    var timers' := timers[id := t];
    forall k | Waits(timers', k) ensures timers'[k].entry.value in m {
      assert Waits(timers, k);
    }
  }

  lemma HoldsStale(m: multiset<Entry>, timers: Timers, orders: nat, e: Entry, m': multiset<Entry>)
    requires Holds(m, timers, orders) && !Live(timers, e) && m == m' + multiset{e} && EntriesOk(timers)
    ensures Holds(m', timers, orders)
  {
    forall f | f in m' ensures f in m && m'[f] == 1 { assert m[f] == 1; }
  }

  /** The first entry of a heap that holds every live entry is the least, if it is live. */
  lemma RootIsNext(heap: seq<Entry>, timers: Timers, orders: nat)
    requires IsHeap(heap) && Holds(multiset(heap), timers, orders) && EntriesOk(timers)
    ensures |heap| > 0 && Live(timers, heap[0]) ==> Least(timers) == Some(heap[0])
    ensures |heap| == 0 ==> Least(timers) == None
  {
    if |heap| > 0 && Live(timers, heap[0]) {
      var e := heap[0];
      assert e in multiset(heap);
      forall id | id in timers && timers[id].entry.Some? && id != e.id ensures Precedes(e, timers[id].entry.value) {
        assert Waits(timers, id);
        var f := timers[id].entry.value;
        assert f in multiset(heap) && f in heap;
        var k :| 0 <= k < |heap| && heap[k] == f;
        RootIsLeast(heap, k);
      }
      LeastIs(timers, e);
    } else if |heap| == 0 && Least(timers).Some? {
      LeastLive(timers);
      assert Waits(timers, Least(timers).value.id);
      assert false;
    }
  }

  function Alive(h: seq<Entry>, timers: Timers): seq<Entry> {
    if h == [] then [] else (if Live(timers, h[0]) then [h[0]] else []) + Alive(h[1..], timers)
  }

  lemma {:induction false} AliveCounts(h: seq<Entry>, timers: Timers, e: Entry)
    ensures multiset(Alive(h, timers))[e] == if Live(timers, e) then multiset(h)[e] else 0
  {
    if h != [] {
      AliveCounts(h[1..], timers, e);
      assert h == [h[0]] + h[1..];
    }
  }

  lemma HoldsFiltered(m: multiset<Entry>, timers: Timers, orders: nat, m': multiset<Entry>)
    requires Holds(m, timers, orders) && EntriesOk(timers)
    requires forall e :: m'[e] == if Live(timers, e) then m[e] else 0
    ensures Holds(m', timers, orders)
    ensures forall e :: e in m' ==> Live(timers, e) && m'[e] == 1
  {
    forall e | e in m' ensures e in m && Live(timers, e) && m'[e] == 1 {
      assert m'[e] == if Live(timers, e) then m[e] else 0;
    }
    forall id | Waits(timers, id) ensures timers[id].entry.value in m' {
      var e := timers[id].entry.value;
      assert m'[e] == if Live(timers, e) then m[e] else 0;
    }
  }

  /** Sorting the live entries gives a heap that holds them all, and no more than there are timers. */
  lemma Compacted(h: seq<Entry>, timers: Timers, orders: nat, active: set<TimerId>)
    requires Holds(multiset(h), timers, orders) && EntriesOk(timers)
    requires forall id :: Waits(timers, id) ==> id in active
    ensures var live := Sort(Alive(h, timers));
      IsHeap(live) && Holds(multiset(live), timers, orders) && |live| <= |active|
  {
    var live := Sort(Alive(h, timers));
    SortSorts(Alive(h, timers));
    SortedIsHeap(live);
    forall e ensures multiset(live)[e] == if Live(timers, e) then multiset(h)[e] else 0 {
      AliveCounts(h, timers, e);
    }
    HoldsFiltered(multiset(h), timers, orders, multiset(live));
    forall e | e in live ensures Live(timers, e) && multiset(live)[e] == 1 && e.id in active {
      assert e in multiset(live);
      assert Waits(timers, e.id);
    }
    LiveCount(live, timers, active);
  }

  /** Live entries are no more than the timers they belong to. */
  lemma {:induction false} LiveCount(live: seq<Entry>, timers: Timers, ids: set<TimerId>)
    requires forall e :: e in live ==> Live(timers, e) && multiset(live)[e] == 1 && e.id in ids
    ensures |live| <= |ids|
    decreases |live|
  {
    if live != [] {
      var e, rest := live[0], live[1..];
      assert live == [e] + rest;
      forall f | f in rest ensures Live(timers, f) && multiset(rest)[f] == 1 && f.id in ids - {e.id} {
        assert f in live;
        assert f.id == e.id ==> multiset(live)[e] >= 2;
      }
      LiveCount(rest, timers, ids - {e.id});
    }
  }

  // ---------------------------------------------------------------- the counters

  ghost function RefedTimers(timers: Timers, active: set<TimerId>): set<TimerId> {
    set id | id in active && id in timers && timers[id].ref
  }
  ghost function Queued(imms: seq<Immediate>): set<ImmId> { set i | 0 <= i < |imms| && imms[i].queued }
  ghost function RefedQueued(imms: seq<Immediate>): set<ImmId> { set i | 0 <= i < |imms| && imms[i].queued && imms[i].ref }

  lemma RefedStep(timers: Timers, active: set<TimerId>, id: TimerId, t: Timer, active': set<TimerId>)
    requires active' == active + {id} || active' == active - {id}
    ensures RefedTimers(timers[id := t], active')
      == if id in active' && t.ref then RefedTimers(timers, active) + {id} else RefedTimers(timers, active) - {id}
  {
  }

  lemma QueuedStep(imms: seq<Immediate>, i: ImmId, m: Immediate)
    requires i < |imms|
    ensures Queued(imms[i := m]) == if m.queued then Queued(imms) + {i} else Queued(imms) - {i}
    ensures RefedQueued(imms[i := m]) == if m.queued && m.ref then RefedQueued(imms) + {i} else RefedQueued(imms) - {i}
  {
  }

  lemma QueuedMore(imms: seq<Immediate>)
    ensures var imms' := imms + [Immediate(true, true)];
      Queued(imms') == Queued(imms) + {|imms|} && RefedQueued(imms') == RefedQueued(imms) + {|imms|}
  {
    var imms' := imms + [Immediate(true, true)];
    assert forall i :: 0 <= i < |imms| ==> imms'[i] == imms[i];
  }

  // ------------------------------------------------------------------- the queue

  /** The array of immediates from its head on; slots already run hold nothing. */
  ghost predicate Shows(immediates: seq<Option<ImmId>>, head: nat, queue: seq<ImmId>) {
    && head <= |immediates| && |queue| == |immediates| - head
    && forall k :: 0 <= k < |queue| ==> immediates[head + k] == Some(queue[k])
  }

  ghost predicate CountsOk(timers: Timers, active: set<TimerId>, imms: seq<Immediate>, refT: int, queued: int, refI: int) {
    refT == |RefedTimers(timers, active)| && queued == |Queued(imms)| && refI == |RefedQueued(imms)|
  }

  lemma RefedCount(timers: Timers, active: set<TimerId>, imms: seq<Immediate>, refT: int, queued: int, refI: int,
                   id: TimerId, t: Timer, active': set<TimerId>, refT': int)
    requires CountsOk(timers, active, imms, refT, queued, refI) && (active' == active + {id} || active' == active - {id})
    requires refT' - refT == (if id in active' && t.ref then 1 else 0) - (if id in active && id in timers && timers[id].ref then 1 else 0)
    ensures CountsOk(timers[id := t], active', imms, refT', queued, refI)
  {
    hide RefedTimers, Queued, RefedQueued;
    RefedStep(timers, active, id, t, active');
    RefedIn(timers, active, id);
    WithOne(RefedTimers(timers, active), id);
  }

  lemma RefedIn(timers: Timers, active: set<TimerId>, id: TimerId)
    ensures id in RefedTimers(timers, active) <==> id in active && id in timers && timers[id].ref
  {
  }

  lemma QueuedIn(imms: seq<Immediate>, i: ImmId)
    ensures i in Queued(imms) <==> i < |imms| && imms[i].queued
    ensures i in RefedQueued(imms) <==> i < |imms| && imms[i].queued && imms[i].ref
  {
  }

  lemma QueuedCount(timers: Timers, active: set<TimerId>, imms: seq<Immediate>, refT: int, queued: int, refI: int,
                    i: ImmId, m: Immediate, queued': int, refI': int)
    requires CountsOk(timers, active, imms, refT, queued, refI) && i < |imms|
    requires queued' - queued == (if m.queued then 1 else 0) - (if imms[i].queued then 1 else 0)
    requires refI' - refI == (if m.queued && m.ref then 1 else 0) - (if imms[i].queued && imms[i].ref then 1 else 0)
    ensures CountsOk(timers, active, imms[i := m], refT, queued', refI')
  {
    hide RefedTimers, Queued, RefedQueued;
    QueuedStep(imms, i, m);
    QueuedIn(imms, i);
    WithOne(Queued(imms), i);
    WithOne(RefedQueued(imms), i);
  }

  lemma WaitsActive(l: Loop, running: Option<TimerId>)
    requires Inv(l, running)
    ensures forall id :: Waits(l.timers, id) ==> id in l.active
    ensures l.active <= l.timers.Keys
  {
  }

  function Max(a: int, b: int): int { if a < b then b else a }

  /** `nextTimer`'s loop: pops entries whose timer no longer waits for them. */
  method DropStale(heap: seq<Entry>, timers: Timers, ghost orders: nat) returns (h: seq<Entry>)
    requires IsHeap(heap) && Holds(multiset(heap), timers, orders) && EntriesOk(timers)
    ensures IsHeap(h) && Holds(multiset(h), timers, orders)
    ensures |h| > 0 ==> Live(timers, h[0])
  {
    hide IsHeap, Holds, EntriesOk;
    h := heap;
    while |h| > 0 && !Live(timers, h[0])
      invariant IsHeap(h) && Holds(multiset(h), timers, orders)
      decreases |multiset(h)|
    {
      var h' := HeapPop(h);
      HoldsStale(multiset(h), timers, orders, h[0], multiset(h'));
      h := h';
    }
  }

  /** `schedule`'s second half: push, and drop the stale entries once they outnumber the live. */
  method PushAndCompact(heap: seq<Entry>, e: Entry, timers: Timers, active: set<TimerId>, ghost orders: nat) returns (h: seq<Entry>)
    requires IsHeap(heap) && Holds(multiset(heap) + multiset{e}, timers, orders) && EntriesOk(timers)
    requires forall id :: Waits(timers, id) ==> id in active
    ensures IsHeap(h) && Holds(multiset(h), timers, orders)
    ensures |h| <= Max(64, 2 * |active|)
  {
    hide IsHeap, Holds, EntriesOk;
    h := HeapPush(heap, e);
    if |h| > 64 && |h| > 2 * |active| {
      Compacted(h, timers, orders, active);
      h := Sort(Alive(h, timers));
    }
  }

  class Glue {
    var heap: seq<Entry>
    var timers: map<TimerId, Timer>
    var active: set<TimerId>
    var timerSeq: nat
    var nextTimerId: TimerId
    var refedTimers: int
    var imms: seq<Immediate>
    var immediates: seq<Option<ImmId>>
    var immediateHead: nat
    var immediateBudget: nat
    var queuedImmediates: int
    var refedImmediates: int
    var clock: real
    var turnStarted: real
    var timersPhase: bool
    /** The loop these fields stand for. */
    ghost var view: Loop

    ghost predicate Same()
      reads this
    {
      && view.timers == timers && view.active == active && view.orders == timerSeq && view.nextId == nextTimerId
      && view.imms == imms && Shows(immediates, immediateHead, view.queue) && view.budget == immediateBudget
      && view.clock == clock && view.turnStarted == turnStarted && view.timersPhase == timersPhase
    }

    /** The heap is one, on (due, seq), and has every live entry once; each counter is the size of
        the set it counts; and every active timer but the `running` one has its entry. */
    ghost predicate Valid(running: Option<TimerId>)
      reads this
    {
      && Same()
      && IsHeap(heap) && Holds(multiset(heap), timers, timerSeq)
      && CountsOk(timers, active, imms, refedTimers, queuedImmediates, refedImmediates)
      && Inv(view, running)
    }

    constructor ()
      ensures Valid(None) && view.timers == map[] && view.queue == []
    {
      heap, timers, active, timerSeq, nextTimerId, refedTimers := [], map[], {}, 0, 1, 0;
      imms, immediates, immediateHead, immediateBudget, queuedImmediates, refedImmediates := [], [], 0, 0, 0, 0;
      clock, turnStarted, timersPhase := 0.0, 0.0, false;
      view := Loop(map[], {}, [], [], 0, 1, 0.0, 0.0, false, 0);
      assert RefedTimers(map[], {}) == {} && Queued([]) == {} && RefedQueued([]) == {};
    }

    /** The least live entry. Stale ones above it are dropped on the way. */
    method NextTimer(ghost running: Option<TimerId>) returns (r: Option<Entry>)
      requires Valid(running)
      modifies this`heap
      ensures Valid(running) && r == Least(timers)
      ensures r.Some? ==> |heap| > 0 && heap[0] == r.value
    {
      hide CountsOk, Inv, Least, IsHeap, Holds;
      InvEntries(view, running);
      heap := DropStale(heap, timers, timerSeq);
      RootIsNext(heap, timers, timerSeq);
      r := if |heap| > 0 then Some(heap[0]) else None;
    }

    method Arm(h: seq<Entry>, timers': Timers, active': set<TimerId>, refed: int, ghost after: Loop, ghost running': Option<TimerId>)
      requires Same() && after == view.(timers := timers', active := active', orders := timerSeq + 1) && Inv(after, running')
      requires IsHeap(h) && Holds(multiset(h), timers', timerSeq + 1)
      requires CountsOk(timers', active', imms, refed, queuedImmediates, refedImmediates)
      modifies this`heap, this`timers, this`active, this`timerSeq, this`refedTimers, this`view
      ensures Valid(running') && view == after && heap == h
    {
      hide Inv, CountsOk, Holds, IsHeap, Shows;
      heap, timers, active, timerSeq, refedTimers, view := h, timers', active', timerSeq + 1, refed, after;
    }

    method Schedule(id: TimerId, from: real, ghost running: Option<TimerId>, ghost running': Option<TimerId>)
      requires Valid(running) && id in timers && Inv(TimerSpec.Schedule(view, id, from), running')
      modifies this`heap, this`timers, this`active, this`timerSeq, this`refedTimers, this`view
      ensures Valid(running') && view == TimerSpec.Schedule(old(view), id, from)
      ensures |heap| <= Max(64, 2 * |active|)
    {
      hide Inv, CountsOk, Holds, IsHeap, Shows, Max, EntriesOk, Waits;
      ghost var after := TimerSpec.Schedule(view, id, from);
      var t := timers[id].(entry := Some(Entry(id, from + timers[id].delay, timerSeq)));
      var refed := if id !in active && timers[id].ref then refedTimers + 1 else refedTimers;
      RefedCount(timers, active, imms, refedTimers, queuedImmediates, refedImmediates, id, t, active + {id}, refed);
      HoldsNew(multiset(heap), timers, timerSeq, id, t, t.entry.value.due);
      assert after == view.(timers := timers[id := t], active := active + {id}, orders := timerSeq + 1);
      InvEntries(after, running');
      WaitsActive(after, running');
      var h := PushAndCompact(heap, t.entry.value, timers[id := t], active + {id}, timerSeq + 1);
      Arm(h, timers[id := t], active + {id}, refed, after, running');
    }

    /** Sets a timer, its entry kept or taken away, and whether it is active. */
    method Put(id: TimerId, t: Timer, active': set<TimerId>, refed: int, ghost running: Option<TimerId>, ghost running': Option<TimerId>)
      requires Valid(running) && id in timers && (active' == active + {id} || active' == active - {id})
      requires t.entry.None? || t.entry == timers[id].entry
      requires refed - refedTimers == (if id in active' && t.ref then 1 else 0) - (if id in active && timers[id].ref then 1 else 0)
      requires Inv(view.(timers := view.timers[id := t], active := active'), running')
      modifies this`timers, this`active, this`refedTimers, this`view
      ensures Valid(running') && view == old(view).(timers := old(view).timers[id := t], active := active')
    {
      hide Inv, CountsOk, Holds, IsHeap;
      RefedCount(timers, active, imms, refedTimers, queuedImmediates, refedImmediates, id, t, active', refed);
      HoldsLess(multiset(heap), timers, timerSeq, id, t);
      timers, active, refedTimers := timers[id := t], active', refed;
      view := view.(timers := timers, active := active');
    }

    method Unschedule(id: TimerId, ghost running: Option<TimerId>)
      requires Valid(running) && id in timers
      modifies this`timers, this`active, this`refedTimers, this`view
      ensures Valid(running) && view == TimerSpec.Unschedule(old(view), id)
    {
      hide Inv, CountsOk, Holds, IsHeap;
      if id !in active { return; }
      UnscheduleKeeps(view, id, running);
      Put(id, timers[id].(entry := None), active - {id}, if timers[id].ref then refedTimers - 1 else refedTimers, running, running);
    }

    method Flag(id: TimerId, t: Timer, refed: int, ghost running: Option<TimerId>)
      requires Valid(running) && id in timers
      requires t.entry == timers[id].entry && t.delay == timers[id].delay && t.repeat == timers[id].repeat
      requires refed - refedTimers == (if id in active && t.ref then 1 else 0) - (if id in active && timers[id].ref then 1 else 0)
      modifies this`timers, this`active, this`refedTimers, this`view
      ensures Valid(running) && view == SetTimer(old(view), id, t)
    {
      hide Inv, CountsOk, Holds, IsHeap;
      FlagKeeps(view, id, t, running);
      var same := if id in active then active + {id} else active - {id};
      assert same == active;
      Put(id, t, same, refed, running, running);
    }

    method SetTimerRef(id: TimerId, ref: bool, ghost running: Option<TimerId>)
      requires Valid(running) && id in timers
      modifies this`timers, this`active, this`refedTimers, this`view
      ensures Valid(running) && view == Apply(old(view), SetRef(id, ref))
    {
      hide Inv, CountsOk, Holds, IsHeap;
      var refed := refedTimers;
      if timers[id].ref != ref && id in active { refed := refed + (if ref then 1 else -1); }
      Flag(id, timers[id].(ref := ref), refed, running);
    }

    method ClearTimer(id: TimerId, ghost running: Option<TimerId>)
      requires Valid(running) && id in timers
      modifies this`timers, this`active, this`refedTimers, this`view
      ensures Valid(running) && view == Clear(old(view), id)
    {
      hide Inv, CountsOk, Holds, IsHeap;
      Flag(id, timers[id].(cleared := true), refedTimers, running);
      Unschedule(id, running);
    }

    /** Makes the timer, not yet scheduled. */
    method Create(id: TimerId, t: Timer, tick: Tick, ghost running: Option<TimerId>)
      requires Valid(running) && id == nextTimerId && t.entry.None? && t.delay >= 1.0
      modifies this`timers, this`nextTimerId, this`clock, this`view
      ensures Valid(running)
      ensures view == SetTimer(old(view), id, t).(nextId := id + 1, clock := old(clock) + tick) && id in timers
      ensures active == old(active)
    {
      hide Inv, CountsOk, Holds, IsHeap, Shows;
      CreateKeeps(view, t, tick, running);
      assert active - {id} == active by { Fresh(view, running); WaitsActive(view, running); }
      RefedCount(timers, active, imms, refedTimers, queuedImmediates, refedImmediates, id, t, active - {id}, refedTimers);
      HoldsLess(multiset(heap), timers, timerSeq, id, t);
      timers, nextTimerId, clock := timers[id := t], id + 1, clock + tick;
      view := SetTimer(view, id, t).(nextId := id + 1, clock := clock);
    }

    method StartTimer(delay: Option<real>, repeat: bool, tick: Tick, ghost running: Option<TimerId>) returns (id: TimerId)
      requires Valid(running)
      modifies this`heap, this`timers, this`active, this`timerSeq, this`refedTimers, this`view, this`nextTimerId, this`clock
      ensures Valid(running) && view == TimerSpec.StartTimer(old(view), delay, repeat, old(clock) + tick)
      ensures |heap| <= Max(64, 2 * |active|)
    {
      hide Inv, CountsOk, Holds, IsHeap, Shows, Max;
      StartKeeps(view, delay, repeat, clock + tick, running);
      id := nextTimerId;
      Create(id, Timer(Milliseconds(delay), repeat, true, false, None), tick, running);
      Schedule(id, clock, running, running);
    }

    method Refresh(id: TimerId, tick: Tick, ghost running: Option<TimerId>)
      requires Valid(running) && id in timers
      modifies this`heap, this`timers, this`active, this`timerSeq, this`refedTimers, this`view, this`clock
      ensures Valid(running) && view == Apply(old(view), Op.Refresh(id, tick))
    {
      hide Inv, CountsOk, Holds, IsHeap, Shows, Max, TimerSpec.Schedule;
      if timers[id].cleared { return; }
      ClockKeeps(view, tick, running);
      ClockOk(view, running);
      clock := clock + tick;
      view := view.(clock := clock);
      RefreshKeeps(view, id, clock, running);
      Schedule(id, clock, running, running);
    }

    method SetImmediate(ghost running: Option<TimerId>) returns (i: ImmId)
      requires Valid(running)
      modifies this`imms, this`immediates, this`queuedImmediates, this`refedImmediates, this`view
      ensures Valid(running) && view == Apply(old(view), Op.SetImmediate)
    {
      hide Inv, CountsOk, Holds, IsHeap;
      ApplyKeeps(view, Op.SetImmediate, running);
      CountMore(timers, active, imms, refedTimers, queuedImmediates, refedImmediates);
      i := |imms|;
      imms, immediates := imms + [Immediate(true, true)], immediates + [Some(i)];
      queuedImmediates, refedImmediates := queuedImmediates + 1, refedImmediates + 1;
      view := Apply(view, Op.SetImmediate);
    }

    method SetImmediateRef(i: ImmId, ref: bool, ghost running: Option<TimerId>)
      requires Valid(running) && i < |imms|
      modifies this`imms, this`refedImmediates, this`view
      ensures Valid(running) && view == Apply(old(view), Op.SetImmediateRef(i, ref))
    {
      hide Inv, CountsOk, Holds, IsHeap, Shows;
      ApplyKeeps(view, Op.SetImmediateRef(i, ref), running);
      var refI := refedImmediates;
      if imms[i].ref != ref && imms[i].queued { refI := refI + (if ref then 1 else -1); }
      QueuedCount(timers, active, imms, refedTimers, queuedImmediates, refedImmediates, i, imms[i].(ref := ref), queuedImmediates, refI);
      view := Apply(view, Op.SetImmediateRef(i, ref));
      imms, refedImmediates := imms[i := imms[i].(ref := ref)], refI;
    }

    method DequeueImmediate(i: ImmId, ghost running: Option<TimerId>)
      requires Valid(running) && i < |imms|
      modifies this`imms, this`queuedImmediates, this`refedImmediates, this`view
      ensures Valid(running) && view == Dequeue(old(view), i)
    {
      hide Inv, CountsOk, Holds, IsHeap, Shows;
      ApplyKeeps(view, ClearImmediate(i), running);
      if !imms[i].queued {
        assert imms[i := imms[i].(queued := false)] == imms;
        return;
      }
      var refI := if imms[i].ref then refedImmediates - 1 else refedImmediates;
      QueuedCount(timers, active, imms, refedTimers, queuedImmediates, refedImmediates,
                  i, imms[i].(queued := false), queuedImmediates - 1, refI);
      view := Dequeue(view, i);
      imms, queuedImmediates, refedImmediates := imms[i := imms[i].(queued := false)], queuedImmediates - 1, refI;
    }

    /** One call a callback makes. */
    method Call(op: Op, ghost running: Option<TimerId>)
      requires Valid(running)
      modifies this
      ensures Valid(running) && view == Apply(old(view), op)
    {
      hide Inv, CountsOk, Holds, IsHeap, Shows, Max, TimerSpec.StartTimer, TimerSpec.Clear, TimerSpec.Schedule;
      match op
      case Start(delay, repeat, tick) => var _ := StartTimer(delay, repeat, tick, running);
      case ClearHandle(id) => if id in timers { ClearTimer(id, running); }
      case ClearId(id) => if id in timers && id in active { ClearTimer(id, running); }
      case Refresh(id, tick) => if id in timers { Refresh(id, tick, running); }
      case SetRef(id, ref) => if id in timers { SetTimerRef(id, ref, running); }
      case SetImmediate => var _ := SetImmediate(running);
      case ClearImmediate(i) => if i < |imms| { DequeueImmediate(i, running); }
      case SetImmediateRef(i, ref) => if i < |imms| { SetImmediateRef(i, ref, running); }
    }

    method CallAll(calls: seq<Op>, ghost running: Option<TimerId>)
      requires Valid(running)
      modifies this
      ensures Valid(running) && view == ApplyAll(old(view), calls)
    {
      hide Inv, CountsOk, Holds, IsHeap, Shows, Apply;
      var k := 0;
      assert calls[0..] == calls;
      while k < |calls|
        invariant k <= |calls| && Valid(running) && ApplyAll(view, calls[k..]) == ApplyAll(old(view), calls)
      {
        assert calls[k..][0] == calls[k] && calls[k..][1..] == calls[k + 1..];
        Call(calls[k], running);
        k := k + 1;
      }
    }

    /** The next entry leaves the heap, and its timer stops waiting for it. */
    method TakeNext(e: Entry)
      requires Valid(None) && |heap| > 0 && heap[0] == e && Live(timers, e) && e.id in active
      modifies this`heap, this`timers, this`active, this`refedTimers, this`view
      ensures view == Taken(old(view), e.id)
      ensures Valid(if old(timers)[e.id].repeat then Some(e.id) else None)
    {
      hide Inv, CountsOk, Holds, IsHeap, Shows;
      TakenKeeps(view, e.id);
      var h := HeapPop(heap);
      ghost var m := multiset(heap);
      ghost var running := if timers[e.id].repeat then Some(e.id) else None;
      if timers[e.id].repeat {
        assert active + {e.id} == active;
        Put(e.id, timers[e.id].(entry := None), active + {e.id}, refedTimers, None, running);
      } else {
        Unschedule(e.id, None);
      }
      InvEntries(view, running);
      HoldsStale(m, timers, timerSeq, e, multiset(h));
      SetHeap(h, running);
    }

    method SetHeap(h: seq<Entry>, ghost running: Option<TimerId>)
      requires Valid(running) && IsHeap(h) && Holds(multiset(h), timers, timerSeq)
      modifies this`heap
      ensures Valid(running)
    {
      hide Inv, CountsOk, Holds, IsHeap, Shows;
      heap := h;
    }

    method FireTimer(e: Entry, calls: seq<Op>)
      requires Valid(None) && |heap| > 0 && heap[0] == e && Live(timers, e) && e.id in active
      modifies this
      ensures Valid(None) && view == Fire(old(view), e.id, calls)
    {
      hide Inv, CountsOk, Holds, IsHeap, Shows, ApplyAll, Taken, TimerSpec.Schedule, Max, Later, TimersLater;
      var id, repeat := e.id, timers[e.id].repeat;
      ghost var running := if repeat then Some(id) else None;
      TakenKeeps(view, id);
      TakeNext(e);
      StillThere(view, calls, running, id);
      CallAll(calls, running);
      RearmedKeeps(view, id);
      if repeat && timers[id].entry.None? && id in active {
        Schedule(id, turnStarted, running, None);
      }
    }

    /** The immediates of this turn, up to the first that is still queued. */
    method RunImmediates(calls: seq<Op>) returns (r: Option<Ran>)
      requires Valid(None)
      modifies this
      ensures Valid(None) && (view, r) == RunImmediate(old(view), calls)
    {
      hide Inv, CountsOk, Holds, IsHeap, ApplyAll;
      while immediateBudget > 0
        invariant Valid(None) && RunImmediate(view, calls) == RunImmediate(old(view), calls)
        decreases immediateBudget
      {
        QueueFacts(view);
        var i := immediates[immediateHead].value;
        assert i == view.queue[0];
        ghost var before := view;
        if imms[i].queued {
          ReachedKeeps(view);
          Advance(i, true);
          CallAll(calls, None);
          r := Some(ImmediateRan(i));
          return;
        }
        PassedKeeps(view);
        Advance(i, false);
      }
      r := None;
    }

    /** Steps over the first immediate, which is dequeued to run or was cleared. */
    method Advance(i: ImmId, runs: bool)
      requires Valid(None) && immediateBudget > 0 && |view.queue| > 0 && i == view.queue[0] && i < |imms| && runs == imms[i].queued
      requires immediateBudget <= |view.queue| && Inv(if runs then Reached(view, 0) else Passed(view), None)
      modifies this`immediates, this`immediateHead, this`immediateBudget, this`imms, this`queuedImmediates, this`refedImmediates, this`view
      ensures Valid(None) && view == if runs then Reached(old(view), 0) else Passed(old(view))
    {
      hide Inv, CountsOk, Holds, IsHeap, Shows;
      ghost var after := if runs then Reached(view, 0) else Passed(view);
      ShowsRest(immediates, immediateHead, view.queue);
      if runs {
        var refI := if imms[i].ref then refedImmediates - 1 else refedImmediates;
        QueuedCount(timers, active, imms, refedTimers, queuedImmediates, refedImmediates,
                    i, imms[i].(queued := false), queuedImmediates - 1, refI);
        imms, queuedImmediates, refedImmediates := imms[i := imms[i].(queued := false)], queuedImmediates - 1, refI;
      }
      immediates, immediateHead, immediateBudget := immediates[immediateHead := None], immediateHead + 1, immediateBudget - 1;
      view := after;
    }

    method RunTimer(calls: seq<Op>) returns (r: Option<Ran>)
      requires Valid(None)
      modifies this
      ensures Valid(None) && (view, r) == TimerSpec.RunTimer(old(view), calls)
    {
      hide Inv, CountsOk, Holds, IsHeap, ApplyAll, Least, Fire, RunImmediate;
      if timersPhase {
        var entry := NextTimer(None);
        if entry.Some? && entry.value.due <= turnStarted {
          LeastLive(timers);
          WaitsActive(view, None);
          assert Waits(timers, entry.value.id);
          FireTimer(entry.value, calls);
          r := Some(TimerRan(entry.value));
          return;
        }
        EndTimersKeeps(view);
        timersPhase, immediateBudget := false, |immediates| - immediateHead;
        view := EndTimers(view);
      }
      r := RunImmediates(calls);
    }

    method Begin(tick: Tick)
      requires Valid(None)
      modifies this`immediates, this`immediateHead, this`clock, this`turnStarted, this`timersPhase, this`view
      ensures Valid(None) && view == BeginTimers(old(view), tick)
    {
      hide Inv, CountsOk, Holds, IsHeap;
      BeginKeeps(view, tick);
      immediates, immediateHead := immediates[immediateHead..], 0;
      clock := clock + tick;
      turnStarted, timersPhase := clock, true;
      view := BeginTimers(view, tick);
    }

    /** `run_timers`, for a guest that neither exits nor fails in this turn. */
    method RunTimers(tick: Tick, script: nat -> seq<Op>, jobs: nat -> seq<Op>) returns (log: seq<Ran>)
      requires Valid(None)
      modifies this
      ensures Valid(None) && Inv(BeginTimers(old(view), tick), None)
      ensures (view, log) == Turn(BeginTimers(old(view), tick), script, jobs, 0)
    {
      hide Inv, CountsOk, Holds, IsHeap, ApplyAll, TimerSpec.RunTimer, Nearer, Shows, BeginTimers;
      Begin(tick);
      ghost var all := Turn(view, script, jobs, 0);
      log := [];
      assert [] + all.1 == all.1;
      while true
        invariant Valid(None)
        invariant all == (Turn(view, script, jobs, |log|).0, log + Turn(view, script, jobs, |log|).1)
        decreases if view.timersPhase then 1 else 0, if view.timersPhase then |Due(view)| else view.budget
      {
        ghost var before := view;
        var k := |log|;
        var ran := RunTimer(script(k));
        if ran.None? {
          assert Turn(before, script, jobs, k) == (view, []);
          assert log + [] == log;
          return;
        }
        RunKeeps(before, script(k));
        ghost var m := view;
        CallAll(jobs(k), None);
        ApplyAllKeeps(m, jobs(k), None);
        NearerStays(before, m, view);
        NearerEnds(before, view);
        ghost var rest := Turn(view, script, jobs, k + 1);
        assert Turn(before, script, jobs, k) == (rest.0, [ran.value] + rest.1);
        assert log + ([ran.value] + rest.1) == log + [ran.value] + rest.1;
        log := log + [ran.value];
      }
    }

    /** Milliseconds until the next callback, or -1. */
    method TimerDelay(hostPending: bool, tick: Tick) returns (d: int)
      requires Valid(None)
      modifies this`heap, this`clock, this`view
      ensures Valid(None) && view == old(view).(clock := old(clock) + tick)
      ensures d == Delay(view, hostPending)
    {
      hide Inv, CountsOk, Holds, IsHeap, Least, Shows, RefedTimers, Queued, RefedQueued;
      ClockKeeps(view, tick, None);
      clock := clock + tick;
      view := view.(clock := clock);
      Counters(timers, active, imms, refedTimers, queuedImmediates, refedImmediates);
      if !hostPending && refedTimers == 0 && refedImmediates == 0 { return -1; }
      if queuedImmediates > 0 { return 0; }
      var entry := NextTimer(None);
      d := if entry.None? then -1 else Max(0, Ceiling(entry.value.due - clock));
    }

    /** One round of `session_settle`, after the job queue is drained: with no call of the host's
        pending the guest ends exactly when no referenced timer or immediate is left, and parks
        only until a timer that is not due yet; it starts a turn exactly when something is ready. */
    method Settle(pending: nat, tick: Tick) returns (v: Verdict)
      requires Valid(None)
      modifies this`heap, this`clock, this`view
      ensures Valid(None) && view == old(view).(clock := old(clock) + tick)
      ensures v.Finish? <==> pending == 0 && RefedTimers(timers, active) == {} && RefedQueued(imms) == {}
      ensures pending > 0 ==> v.Suspend?
      ensures v.Suspend? && pending == 0 ==>
        v.delay > 0 && Queued(imms) == {} && Least(timers).Some? && Least(timers).value.due > clock
      ensures v.Suspend? ==> SleepsUntil(view, v.delay)
      ensures v.TakeTurn? <==>
        && pending == 0 && (RefedTimers(timers, active) != {} || RefedQueued(imms) != {})
        && (Queued(imms) != {} || (Least(timers).Some? && Least(timers).value.due <= clock))
    {
      hide Inv, CountsOk, Holds, IsHeap, Least, Shows, RefedTimers, Queued, RefedQueued, Ceiling;
      var d := TimerDelay(pending > 0, tick);
      Waiting(view);
      DelayIsLeast(view, Delay(view, true));
      var delay := if d >= 2147483647 then 2147483647 else d;
      if pending > 0 || delay > 0 { v := Suspend(delay); }
      else if delay < 0 { v := Finish; }
      else { v := TakeTurn; }
    }
  }

  /** The wait of a parked guest: none at all with an immediate queued, no end with nothing to wait
      for, and otherwise the fewest whole milliseconds to the moment the first timer is due, but no
      more than 2147483647. */
  ghost predicate SleepsUntil(l: Loop, d: int) {
    if Queued(l.imms) != {} then d == 0
    else if Least(l.timers).None? then d == -1
    else
      var due := Least(l.timers).value.due;
      && 0 <= d <= 2147483647
      && (d < 2147483647 ==> l.clock + d as real >= due)
      && (d > 0 ==> l.clock + (d - 1) as real < due)
  }

  /** The host is told exactly that. */
  lemma DelayIsLeast(l: Loop, d: int)
    requires d == Delay(l, true)
    ensures SleepsUntil(l, if d >= 2147483647 then 2147483647 else d)
  {
    hide Least, Queued;
    if Least(l.timers).Some? { CeilingIs(Least(l.timers).value.due - l.clock); }
  }

  lemma CeilingIs(x: real)
    ensures x <= Ceiling(x) as real < x + 1.0
  {
  }

  datatype Verdict = Finish | Suspend(delay: int) | TakeTurn

  function Ceiling(x: real): int { -((-x).Floor) }

  ghost function Delay(l: Loop, hostPending: bool): int {
    if !hostPending && RefedTimers(l.timers, l.active) == {} && RefedQueued(l.imms) == {} then -1
    else if Queued(l.imms) != {} then 0
    else if Least(l.timers).None? then -1
    else Max(0, Ceiling(Least(l.timers).value.due - l.clock))
  }

  lemma Counters(timers: Timers, active: set<TimerId>, imms: seq<Immediate>, refT: int, queued: int, refI: int)
    requires CountsOk(timers, active, imms, refT, queued, refI)
    ensures refT == 0 <==> RefedTimers(timers, active) == {}
    ensures queued > 0 <==> Queued(imms) != {}
    ensures refI == 0 <==> RefedQueued(imms) == {}
  {
    hide RefedTimers, Queued, RefedQueued;
  }

  /** What keeps the loop alive is there to be waited for. */
  lemma Waiting(l: Loop)
    requires Inv(l, None)
    ensures RefedTimers(l.timers, l.active) != {} ==> Least(l.timers).Some?
    ensures RefedQueued(l.imms) != {} ==> Queued(l.imms) != {}
    ensures forall x: real :: Ceiling(x) > 0 <==> x > 0.0
  {
    if RefedTimers(l.timers, l.active) != {} {
      var id :| id in RefedTimers(l.timers, l.active);
      InvEntries(l, None);
      LeastExists(l.timers, id);
    }
    if i :| i in RefedQueued(l.imms) { assert i in Queued(l.imms); }
  }

  lemma NearerEnds(l: Loop, l': Loop)
    requires Nearer(l, l')
    ensures (l.timersPhase && !l'.timersPhase)
      || (l.timersPhase && l'.timersPhase && |Due(l')| < |Due(l)|)
      || (!l.timersPhase && !l'.timersPhase && l'.budget < l.budget)
  {
  }

  lemma ShowsRest(immediates: seq<Option<ImmId>>, head: nat, queue: seq<ImmId>)
    requires Shows(immediates, head, queue) && |queue| > 0
    ensures head < |immediates| && Shows(immediates[head := None], head + 1, queue[1..])
  {
  }

  lemma StillThere(l: Loop, calls: seq<Op>, running: Option<TimerId>, id: TimerId)
    requires Inv(l, running) && id in l.timers
    ensures var l' := ApplyAll(l, calls); id in l'.timers && l'.timers[id].repeat == l.timers[id].repeat
  {
    hide Inv, ApplyAll;
    ApplyAllKeeps(l, calls, running);
  }

  /** The turn that `Settle` starts runs a callback, so the loop never spins. */
  lemma ReadyTurnRuns(l: Loop, tick: Tick, script: nat -> seq<Op>, jobs: nat -> seq<Op>)
    requires Inv(l, None)
    requires Queued(l.imms) != {} || (Least(l.timers).Some? && Least(l.timers).value.due <= l.clock)
    ensures Inv(BeginTimers(l, tick), None) && Turn(BeginTimers(l, tick), script, jobs, 0).1 != []
  {
    hide Inv, Turn, Least;
    BeginKeeps(l, tick);
    var i :| i in Queued(l.imms) || Queued(l.imms) == {};
    TurnProgresses(BeginTimers(l, tick), script, jobs, i);
  }

  lemma CreateKeeps(l: Loop, t: Timer, tick: Tick, running: Option<TimerId>)
    requires Inv(l, running) && t.entry.None? && t.delay >= 1.0
    ensures Inv(SetTimer(l, l.nextId, t).(nextId := l.nextId + 1, clock := l.clock + tick), running)
  {
    hide QueueOk, TimersOk;
    Fresh(l, running);
    assert l.active - {l.nextId} == l.active by { WaitsActive(l, running); }
    PutTimerOk(l.timers, l.active, l.orders, l.nextId, running, l.nextId, t, l.active - {l.nextId}, l.orders, l.nextId + 1, running);
  }

  lemma CountMore(timers: Timers, active: set<TimerId>, imms: seq<Immediate>, refT: int, queued: int, refI: int)
    requires CountsOk(timers, active, imms, refT, queued, refI)
    ensures CountsOk(timers, active, imms + [Immediate(true, true)], refT, queued + 1, refI + 1)
  {
    hide RefedTimers, Queued, RefedQueued;
    QueuedMore(imms);
    QueuedIn(imms, |imms|);
    WithOne(Queued(imms), |imms|);
    WithOne(RefedQueued(imms), |imms|);
  }

  // --------------------------------------------------------------- what holds it open

  /** What each call adds to or takes from the timers that hold the loop open. */
  lemma TimersHold(l: Loop, op: Op)
    requires Inv(l, None)
    ensures var held, held' := RefedTimers(l.timers, l.active), RefedTimers(Apply(l, op).timers, Apply(l, op).active);
      match op
      case Start(_, _, _) => l.nextId !in l.timers && held' == held + {l.nextId}
      case ClearHandle(id) => held' == held - {id}
      case ClearId(id) => held' == held - {id}
      case Refresh(id, _) =>
        held' == if id in l.timers && l.timers[id].ref && !l.timers[id].cleared then held + {id} else held
      case SetRef(id, ref) => held' == if ref && id in l.active then held + {id} else held - {id}
      case _ => held' == held
  {
    hide Inv;
    Fresh(l, None);
    WaitsActive(l, None);
  }

  /** And so for immediates: a new one goes last, and holds it open until it is cleared, run or
      let go. */
  lemma ImmediatesHold(l: Loop, op: Op)
    ensures var l' := Apply(l, op);
      match op
      case SetImmediate => l'.queue == l.queue + [|l.imms|] && Queued(l'.imms) == Queued(l.imms) + {|l.imms|} && RefedQueued(l'.imms) == RefedQueued(l.imms) + {|l.imms|}
      case ClearImmediate(i) => l'.queue == l.queue && Queued(l'.imms) == Queued(l.imms) - {i} && RefedQueued(l'.imms) == RefedQueued(l.imms) - {i}
      case SetImmediateRef(i, ref) =>
        && l'.queue == l.queue && Queued(l'.imms) == Queued(l.imms)
        && RefedQueued(l'.imms) == if ref && i in Queued(l.imms) then RefedQueued(l.imms) + {i} else RefedQueued(l.imms) - {i}
      case _ => l'.queue == l.queue && l'.imms == l.imms
  {
    match op
    case SetImmediate => QueuedMore(l.imms);
    case ClearImmediate(i) => if i < |l.imms| { QueuedStep(l.imms, i, l.imms[i].(queued := false)); }
    case SetImmediateRef(i, ref) => if i < |l.imms| { QueuedStep(l.imms, i, l.imms[i].(ref := ref)); }
    case _ =>
  }
}
