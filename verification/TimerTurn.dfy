/** One turn of the guest's event loop: it ends, and runs what it should in the right order. */
module TimerTurn {
  import opened Base
  import opened TimerHeap
  import opened TimerSpec

  lemma LeastUnique(timers: Timers, e: Entry, f: Entry)
    requires IsLeast(timers, e) && IsLeast(timers, f)
    ensures e == f
  {
  }

  lemma LeastIs(timers: Timers, e: Entry)
    requires IsLeast(timers, e)
    ensures Least(timers) == Some(e)
  {
    LeastUnique(timers, Least(timers).value, e);
  }

  predicate Waits(timers: Timers, id: TimerId) { id in timers && timers[id].entry.Some? }

  ghost predicate EntriesOk(timers: Timers) {
    && (forall id :: Waits(timers, id) ==> timers[id].entry.value.id == id)
    && (forall id, id' :: Waits(timers, id) && Waits(timers, id') && id != id' ==>
          timers[id].entry.value.order != timers[id'].entry.value.order)
  }

  /** Among finitely many live entries one comes first. */
  lemma {:induction false} LeastAmong(timers: Timers, ids: set<TimerId>) returns (least: TimerId)
    requires EntriesOk(timers) && ids != {} && forall id :: id in ids ==> Waits(timers, id)
    ensures least in ids && forall id :: id in ids && id != least ==> Precedes(timers[least].entry.value, timers[id].entry.value)
    decreases ids
  {
    var a :| a in ids;
    least := a;
    if ids != {a} {
      var b := LeastAmong(timers, ids - {a});
      if Precedes(timers[b].entry.value, timers[a].entry.value) { least := b; }
    }
  }

  lemma LeastExists(timers: Timers, id: TimerId)
    requires EntriesOk(timers) && Waits(timers, id)
    ensures Least(timers).Some? && IsLeast(timers, Least(timers).value)
    ensures Least(timers).value.due <= timers[id].entry.value.due
  {
    var ids := set k | k in timers && Waits(timers, k);
    assert id in ids;
    var least := LeastAmong(timers, ids);
    assert IsLeast(timers, timers[least].entry.value);
    LeastIs(timers, timers[least].entry.value);
  }

  lemma InvEntries(l: Loop, running: Option<TimerId>)
    requires Inv(l, running)
    ensures EntriesOk(l.timers)
  {
  }

  lemma LeastLive(timers: Timers)
    requires Least(timers).Some?
    ensures IsLeast(timers, Least(timers).value) && Least(timers).value.id in timers
  {
  }

  /** If the first entry is not due, none is. */
  lemma NoneDue(l: Loop)
    requires Inv(l, None) && l.timersPhase && !TimerIsDue(l)
    ensures Due(l) == {}
  {
    hide Inv;
    InvEntries(l, None);
    forall id | id in Due(l) ensures false {
      LeastExists(l.timers, id);
    }
  }

  lemma TakenKeeps(l: Loop, id: TimerId)
    requires Inv(l, None) && id in l.timers && id in l.active
    ensures var l1 := Taken(l, id);
      && Inv(l1, if l.timers[id].repeat then Some(id) else None) && Later(l, l1)
      && id in l1.timers && l1.timers[id].entry.None? && l1.timers[id].repeat == l.timers[id].repeat
  {
    if l.timers[id].repeat {
      hide QueueOk, QueueLater, TimersOk, TimersLater;
      DelayOk(l, id, None);
      SameQueue(l.imms, l.queue);
      var t := l.timers[id].(entry := None);
      PutTimerOk(l.timers, l.active, l.orders, l.nextId, None, id, t, l.active + {id}, l.orders, l.nextId, Some(id));
      PutTimerLater(l.timers, id, t, l.turnStarted);
      assert l.active + {id} == l.active;
    } else {
      hide Inv, Later;
      UnscheduleKeeps(l, id, None);
    }
  }

  lemma NoLongerRunning(l: Loop, id: TimerId)
    requires Inv(l, Some(id)) && (id in l.active ==> id in l.timers && l.timers[id].entry.Some?)
    ensures Inv(l, None)
  {
  }

  lemma RearmedKeeps(l: Loop, id: TimerId)
    requires id in l.timers && Inv(l, if l.timers[id].repeat then Some(id) else None)
    ensures Inv(Rearmed(l, id), None) && Later(l, Rearmed(l, id))
  {
    hide Inv, Later, Schedule;
    if l.timers[id].repeat && l.timers[id].entry.None? && id in l.active {
      ClockOk(l, Some(id));
      ScheduleKeeps(l, id, l.turnStarted, Some(id));
    } else {
      ClockKeeps(l, 0.0, if l.timers[id].repeat then Some(id) else None);
      if l.timers[id].repeat { NoLongerRunning(l, id); }
    }
  }

  lemma ClockOk(l: Loop, running: Option<TimerId>)
    requires Inv(l, running)
    ensures l.turnStarted <= l.clock && l.budget <= |l.queue|
  {
  }

  /** A timer that fires does so once in its turn, and nothing else becomes due. */
  lemma FireKeeps(l: Loop, id: TimerId, calls: seq<Op>)
    requires Inv(l, None) && id in l.timers && l.timers[id].entry.Some?
    ensures Inv(Fire(l, id, calls), None) && Later(l, Fire(l, id, calls))
    ensures id !in Due(Fire(l, id, calls))
  {
    hide Inv, Later, Taken, Rearmed, ApplyAll;
    DelayOk(l, id, None);
    TakenKeeps(l, id);
    var l1 := Taken(l, id);
    var running := if l.timers[id].repeat then Some(id) else None;
    ApplyAllKeeps(l1, calls, running);
    var l2 := ApplyAll(l1, calls);
    LaterTimers(l1, l2);
    RearmedKeeps(l2, id);
    var l3 := Rearmed(l2, id);
    LaterAdds(l1, l2, l3);
    LaterTimers(l1, l3);
    LaterAdds(l, l1, l3);
    LaterTimers(l, l3);
  }

  lemma LaterTimers(l: Loop, l': Loop)
    requires Later(l, l')
    ensures TimersLater(l.timers, l'.timers, l.turnStarted) && l'.turnStarted == l.turnStarted
    ensures l'.timersPhase == l.timersPhase && l'.budget == l.budget
    ensures Due(l') <= Due(l)
  {
    forall id | id in Due(l') ensures id in Due(l) {
      assert DueBy(l'.timers, id, l.turnStarted);
    }
  }

  // ------------------------------------------------------------------- immediates

  /** The queue past its first, which has run or was cleared. */
  lemma Shifted(imms: seq<Immediate>, queue: seq<ImmId>, budget: nat, imms': seq<Immediate>)
    requires QueueOk(imms, queue, budget) && budget > 0
    requires imms' == imms[queue[0] := imms[queue[0]].(queued := false)]
    ensures QueueOk(imms', queue[1..], budget - 1)
  {
    forall i | 0 <= i < |imms'| && imms'[i].queued ensures i in queue[1..] {
      assert i in queue;
      var k :| 0 <= k < |queue| && queue[k] == i;
      assert k > 0 && queue[1..][k - 1] == i;
    }
  }

  /** The state in which the callback of the immediate at `k` starts. */
  function Reached(l: Loop, k: nat): Loop
    requires k < l.budget <= |l.queue| && l.queue[k] < |l.imms|
  {
    Dequeue(l.(budget := l.budget - 1 - k, queue := l.queue[k + 1..]), l.queue[k])
  }

  /** Immediates that were cleared are passed over. */
  function Passed(l: Loop): Loop
    requires l.budget > 0 && |l.queue| > 0
  {
    l.(budget := l.budget - 1, queue := l.queue[1..])
  }

  lemma PassedKeeps(l: Loop)
    requires Inv(l, None) && l.budget > 0 && !l.imms[l.queue[0]].queued
    ensures Inv(Passed(l), None)
  {
    hide TimersOk;
    assert l.imms == l.imms[l.queue[0] := l.imms[l.queue[0]].(queued := false)];
    Shifted(l.imms, l.queue, l.budget, l.imms);
  }

  lemma ReachedKeeps(l: Loop)
    requires Inv(l, None) && l.budget > 0
    ensures l.queue[0] < |l.imms| && Inv(Reached(l, 0), None)
  {
    hide TimersOk;
    Shifted(l.imms, l.queue, l.budget, Reached(l, 0).imms);
  }

  ghost predicate RanAt(l: Loop, calls: seq<Op>, k: nat) {
    && k < l.budget <= |l.queue| && l.queue[k] < |l.imms| && l.imms[l.queue[k]].queued
    && (forall j :: 0 <= j < k ==> l.queue[j] < |l.imms| && !l.imms[l.queue[j]].queued)
    && Inv(Reached(l, k), None)
    && RunImmediate(l, calls) == (ApplyAll(Reached(l, k), calls), Some(ImmediateRan(l.queue[k])))
  }

  ghost predicate NoneRan(l: Loop, calls: seq<Op>) {
    && l.budget <= |l.queue|
    && (forall j :: 0 <= j < l.budget ==> l.queue[j] < |l.imms| && !l.imms[l.queue[j]].queued)
    && RunImmediate(l, calls) == (l.(budget := 0, queue := l.queue[l.budget..]), None)
    && Inv(l.(budget := 0, queue := l.queue[l.budget..]), None)
  }

  lemma RanPast(l: Loop, calls: seq<Op>, m: nat)
    requires l.budget > 0 && |l.queue| > 0 && l.queue[0] < |l.imms| && !l.imms[l.queue[0]].queued
    requires RanAt(Passed(l), calls, m)
    ensures RanAt(l, calls, m + 1)
  {
    hide Inv, ApplyAll;
    var p := Passed(l);
    assert forall j :: 0 <= j < |p.queue| ==> p.queue[j] == l.queue[j + 1];
    assert p.queue[m + 1..] == l.queue[m + 2..];
    assert Reached(p, m) == Reached(l, m + 1);
    forall j | 0 <= j < m + 1 ensures l.queue[j] < |l.imms| && !l.imms[l.queue[j]].queued {
      if j > 0 { assert p.queue[j - 1] == l.queue[j]; }
    }
  }

  lemma NonePast(l: Loop, calls: seq<Op>)
    requires l.budget > 0 && |l.queue| > 0 && l.queue[0] < |l.imms| && !l.imms[l.queue[0]].queued
    requires NoneRan(Passed(l), calls)
    ensures NoneRan(l, calls)
  {
    hide Inv, ApplyAll;
    var p := Passed(l);
    assert forall j :: 0 <= j < |p.queue| ==> p.queue[j] == l.queue[j + 1];
    assert p.queue[l.budget - 1..] == l.queue[l.budget..];
    forall j | 0 <= j < l.budget ensures l.queue[j] < |l.imms| && !l.imms[l.queue[j]].queued {
      if j > 0 { assert p.queue[j - 1] == l.queue[j]; }
    }
  }

  lemma NoBudget(l: Loop, calls: seq<Op>)
    requires l.budget == 0 && Inv(l, None)
    ensures NoneRan(l, calls)
  {
    hide Inv;
    assert l.queue[0..] == l.queue;
  }

  lemma FirstRuns(l: Loop, calls: seq<Op>)
    requires Inv(l, None) && l.budget > 0 && |l.queue| > 0 && l.budget <= |l.queue| && l.queue[0] < |l.imms| && l.imms[l.queue[0]].queued
    ensures RanAt(l, calls, 0)
  {
    hide Inv, ApplyAll;
    ReachedKeeps(l);
  }

  /** `runTimer`'s second half runs the first of its immediates that is still queued. */
  lemma {:induction false} ImmediateRuns(l: Loop, calls: seq<Op>) returns (k: nat)
    requires Inv(l, None)
    ensures RanAt(l, calls, k) || NoneRan(l, calls)
    decreases l.budget
  {
    hide Inv, RanAt, NoneRan;
    k := 0;
    QueueFacts(l);
    if l.budget == 0 {
      NoBudget(l, calls);
    } else if l.imms[l.queue[0]].queued {
      FirstRuns(l, calls);
    } else {
      PassedKeeps(l);
      k := ImmediateRuns(Passed(l), calls);
      if RanAt(Passed(l), calls, k) {
        RanPast(l, calls, k);
        k := k + 1;
      } else {
        NonePast(l, calls);
      }
    }
  }

  lemma QueueFacts(l: Loop)
    requires Inv(l, None)
    ensures l.budget <= |l.queue|
    ensures forall k :: 0 <= k < |l.queue| ==> l.queue[k] < |l.imms|
    ensures forall j, k :: 0 <= j < k < |l.queue| ==> l.queue[j] < l.queue[k]
  {
  }

  // ----------------------------------------------------------------------- turns

  /** What the glue does next gets nearer to the end of the turn. */
  ghost predicate Nearer(l: Loop, l': Loop) {
    || (l.timersPhase && !l'.timersPhase)
    || (l.timersPhase && l'.timersPhase && |Due(l')| < |Due(l)|)
    || (!l.timersPhase && !l'.timersPhase && l'.budget < l.budget)
  }

  /** What may follow `l` in its turn without undoing it. */
  lemma NearerStays(l: Loop, m: Loop, l': Loop)
    requires Nearer(l, m) && Later(m, l')
    ensures Nearer(l, l')
  {
    hide Later, Due;
    LaterTimers(m, l');
    SubsetSize(Due(l'), Due(m));
  }

  lemma FireRun(l: Loop, calls: seq<Op>)
    requires Inv(l, None) && TimerIsDue(l)
    ensures var e := Least(l.timers).value;
      && e.id in Due(l) && IsLeast(l.timers, e)
      && RunTimer(l, calls) == (Fire(l, e.id, calls), Some(TimerRan(e)))
      && Inv(Fire(l, e.id, calls), None) && Later(l, Fire(l, e.id, calls)) && Nearer(l, Fire(l, e.id, calls))
  {
    hide Inv, Later, Fire, Least;
    LeastLive(l.timers);
    var e := Least(l.timers).value;
    FireKeeps(l, e.id, calls);
    var l' := Fire(l, e.id, calls);
    LaterTimers(l, l');
    assert e.id in Due(l);
    SubsetSize(Due(l'), Due(l) - {e.id});
  }

  lemma EndTimersKeeps(l: Loop)
    requires Inv(l, None)
    ensures Inv(EndTimers(l), None)
  {
  }

  lemma ImmediateRun(l: Loop, calls: seq<Op>)
    requires Inv(l, None) && !l.timersPhase
    ensures var (l', r) := RunImmediate(l, calls);
      Inv(l', None) && !l'.timersPhase && (if r.Some? then Nearer(l, l') else l'.budget == 0)
  {
    hide Inv, RunImmediate, Later;
    var k := ImmediateRuns(l, calls);
    if RanAt(l, calls, k) {
      ApplyAllKeeps(Reached(l, k), calls, None);
      LaterTimers(Reached(l, k), ApplyAll(Reached(l, k), calls));
    }
  }

  lemma RunKeeps(l: Loop, calls: seq<Op>)
    requires Inv(l, None)
    ensures var (l', r) := RunTimer(l, calls); Inv(l', None) && (r.Some? ==> Nearer(l, l'))
  {
    hide Inv, Later, Least, RunImmediate, Due, Fire, Nearer;
    if TimerIsDue(l) {
      FireRun(l, calls);
    } else {
      var m := if l.timersPhase then EndTimers(l) else l;
      EndTimersKeeps(l);
      ImmediateRun(m, calls);
      Ends(l, m, RunTimer(l, calls).0);
    }
  }

  lemma Ends(l: Loop, m: Loop, l': Loop)
    requires m == if l.timersPhase then EndTimers(l) else l
    requires !l'.timersPhase
    ensures l.timersPhase ==> Nearer(l, l')
  {
    hide Due;
  }

  /** `run_timers`: the `k`th callback makes the calls `script(k)`, and the jobs drained after
      it `jobs(k)`. It has no fuel: the turn ends whatever they call. */
  ghost function Turn(l: Loop, script: nat -> seq<Op>, jobs: nat -> seq<Op>, k: nat): (Loop, seq<Ran>)
    requires Inv(l, None)
    decreases if l.timersPhase then 1 else 0, if l.timersPhase then |Due(l)| else l.budget
  {
    RunKeeps(l, script(k));
    var (m, r) := RunTimer(l, script(k));
    if r.None? then (m, []) else
    ApplyAllKeeps(m, jobs(k), None);
    NearerStays(l, m, ApplyAll(m, jobs(k)));
    var (l', log) := Turn(ApplyAll(m, jobs(k)), script, jobs, k + 1);
    (l', [r.value] + log)
  }

  // -------------------------------------------------------------- what a turn runs

  /** Timers waiting in `l` and due when the turn began, each before the next. */
  ghost predicate TimersRan(log: seq<Ran>, l: Loop) {
    && (forall i :: 0 <= i < |log| ==> log[i].TimerRan? && Live(l.timers, log[i].entry) && log[i].entry.due <= l.turnStarted)
    && (forall i, j :: 0 <= i < j < |log| ==> Precedes(log[i].entry, log[j].entry))
  }

  lemma EarlierRan(l: Loop, a: Loop, log: seq<Ran>, e: Entry)
    requires TimersRan(log, a) && TimersLater(l.timers, a.timers, l.turnStarted) && a.turnStarted == l.turnStarted
    requires EntriesOk(a.timers) && IsLeast(l.timers, e) && e.due <= l.turnStarted && e.id !in Due(a)
    ensures TimersRan([TimerRan(e)] + log, l)
  {
    var all := [TimerRan(e)] + log;
    forall i | 0 <= i < |log| ensures Live(l.timers, log[i].entry) && Precedes(e, log[i].entry) {
      var f := log[i].entry;
      assert DueBy(a.timers, f.id, l.turnStarted);
    }
    forall i, j | 0 <= i < j < |all| ensures Precedes(all[i].entry, all[j].entry) {
      assert all[j] == log[j - 1];
      if i > 0 { assert all[i] == log[i - 1]; }
    }
    forall i | 0 <= i < |all| ensures all[i].TimerRan? && Live(l.timers, all[i].entry) && all[i].entry.due <= l.turnStarted {
      if i > 0 { assert all[i] == log[i - 1]; }
    }
  }

  /** The states between a turn's two phases. */
  ghost predicate Between(l: Loop, mid: Loop) {
    && Inv(mid, None) && !mid.timersPhase && mid.budget == |mid.queue| && mid.turnStarted == l.turnStarted
    && Due(mid) == {} && QueueLater(l.imms, l.queue, mid.imms, mid.queue)
  }

  lemma TurnFires(l: Loop, script: nat -> seq<Op>, jobs: nat -> seq<Op>, k: nat) returns (a: Loop)
    requires Inv(l, None) && TimerIsDue(l)
    ensures var e := Least(l.timers).value;
      && Inv(a, None) && Later(l, a) && Nearer(l, a) && IsLeast(l.timers, e) && e.id !in Due(a)
      && Turn(l, script, jobs, k) == (Turn(a, script, jobs, k + 1).0, [TimerRan(e)] + Turn(a, script, jobs, k + 1).1)
  {
    hide Inv, Later, Due, Fire, Least, RunTimer, Nearer, ApplyAll;
    FireRun(l, script(k));
    var e := Least(l.timers).value;
    var m := Fire(l, e.id, script(k));
    FireKeeps(l, e.id, script(k));
    a := ApplyAll(m, jobs(k));
    ApplyAllKeeps(m, jobs(k), None);
    LaterAdds(l, m, a);
    LaterTimers(m, a);
    NearerStays(l, m, a);
  }

  lemma BetweenAdds(l: Loop, a: Loop, mid: Loop)
    requires Later(l, a) && Between(a, mid)
    ensures Between(l, mid)
  {
    hide Inv, Due, TimersLater;
    assert mid.queue[..|l.queue|] == a.queue[..|l.queue|];
    forall k | |l.queue| <= k < |mid.queue| ensures mid.queue[k] >= |l.imms| {
      if k < |a.queue| { assert mid.queue[k] == mid.queue[..|a.queue|][k]; }
    }
  }

  lemma TurnSwitches(l: Loop, script: nat -> seq<Op>, jobs: nat -> seq<Op>, k: nat)
    requires Inv(l, None) && l.timersPhase && !TimerIsDue(l)
    ensures Between(l, EndTimers(l)) && Turn(l, script, jobs, k) == Turn(EndTimers(l), script, jobs, k)
  {
    hide Inv, Least, RunImmediate, ApplyAll;
    NoneDue(l);
    EndTimersKeeps(l);
    SameQueue(l.imms, l.queue);
    assert RunTimer(EndTimers(l), script(k)) == RunTimer(l, script(k));
  }

  /** The timer phase fires timers that were due when the turn began, and leaves none. */
  lemma {:induction false} TimerPhase(l: Loop, script: nat -> seq<Op>, jobs: nat -> seq<Op>, k: nat) returns (n: nat, mid: Loop)
    requires Inv(l, None) && l.timersPhase
    ensures Between(l, mid)
    ensures var log := Turn(l, script, jobs, k).1;
      && n <= |log| && TimersRan(log[..n], l)
      && (Turn(l, script, jobs, k).0, log[n..]) == Turn(mid, script, jobs, k + n)
    decreases |Due(l)|
  {
    hide Inv, Later, Turn, Due, Least, Between;
    if TimerIsDue(l) {
      var a := TurnFires(l, script, jobs, k);
      LaterTimers(l, a);
      NearerDue(l, a);
      var n', mid' := TimerPhase(a, script, jobs, k + 1);
      n, mid := n' + 1, mid';
      var e, log, log' := Least(l.timers).value, Turn(l, script, jobs, k).1, Turn(a, script, jobs, k + 1).1;
      InvEntries(a, None);
      EarlierRan(l, a, log'[..n'], e);
      BetweenAdds(l, a, mid);
      assert log[..n] == [TimerRan(e)] + log'[..n'];
      assert log[n..] == log'[n'..];
    } else {
      TurnSwitches(l, script, jobs, k);
      n, mid := 0, EndTimers(l);
      assert Turn(l, script, jobs, k).1[0..] == Turn(l, script, jobs, k).1;
    }
  }

  lemma NearerDue(l: Loop, a: Loop)
    requires Nearer(l, a) && l.timersPhase && a.timersPhase
    ensures |Due(a)| < |Due(l)|
  {
  }

  /** Immediates of the budget, still queued when the phase began, in the order they were made. */
  ghost predicate ImmediatesRan(log: seq<Ran>, l: Loop) {
    && l.budget <= |l.queue|
    && (forall i :: 0 <= i < |log| ==>
          log[i].ImmediateRan? && log[i].i in l.queue[..l.budget] && log[i].i < |l.imms| && l.imms[log[i].i].queued)
    && (forall i, j :: 0 <= i < j < |log| ==> log[i].i < log[j].i)
  }

  /** The phase has reached all of its immediates, and only those made since come after. */
  ghost predicate AllReached(l: Loop, l': Loop) {
    && l.budget <= |l.queue| && |l.imms| <= |l'.imms| && l'.budget == 0
    && (forall j :: 0 <= j < l.budget ==> l.queue[j] < |l.imms| && !l'.imms[l.queue[j]].queued)
    && (forall i :: 0 <= i < |l.imms| && l'.imms[i].queued ==> l.imms[i].queued)
    && |l.queue| - l.budget <= |l'.queue| && l'.queue[..|l.queue| - l.budget] == l.queue[l.budget..]
    && (forall k :: |l.queue| - l.budget <= k < |l'.queue| ==> l'.queue[k] >= |l.imms|)
  }

  lemma {:induction false} ImmediatePhase(l: Loop, script: nat -> seq<Op>, jobs: nat -> seq<Op>, k: nat)
    requires Inv(l, None) && !l.timersPhase
    ensures ImmediatesRan(Turn(l, script, jobs, k).1, l)
    ensures AllReached(l, Turn(l, script, jobs, k).0)
    ensures Inv(Turn(l, script, jobs, k).0, None)
    decreases l.budget
  {
    hide Inv, Later, RunImmediate, ApplyAll, Least;
    QueueFacts(l);
    var b := ImmediateRuns(l, script(k));
    if RanAt(l, script(k), b) {
      var r := Reached(l, b);
      ApplyAllKeeps(r, script(k), None);
      var m := ApplyAll(r, script(k));
      ApplyAllKeeps(m, jobs(k), None);
      var a := ApplyAll(m, jobs(k));
      LaterAdds(r, m, a);
      LaterQueue(r, a);
      ImmediatePhase(a, script, jobs, k + 1);
      var (l', log) := Turn(a, script, jobs, k + 1);
      assert Turn(l, script, jobs, k) == (l', [ImmediateRan(l.queue[b])] + log);
      RanFirst(l, b, a, log);
      ReachedFirst(l, b, a, l');
    } else {
      assert Turn(l, script, jobs, k) == (l.(budget := 0, queue := l.queue[l.budget..]), []);
      assert l.queue[l.budget..][..|l.queue| - l.budget] == l.queue[l.budget..];
    }
  }

  lemma LaterQueue(l: Loop, l': Loop)
    requires Later(l, l')
    ensures QueueLater(l.imms, l.queue, l'.imms, l'.queue) && l'.budget == l.budget && l'.timersPhase == l.timersPhase
  {
  }

  ghost predicate RanFrom(l: Loop, b: nat, a: Loop) {
    && b < l.budget <= |l.queue|
    && (forall k :: 0 <= k < |l.queue| ==> l.queue[k] < |l.imms|)
    && (forall j, k :: 0 <= j < k < |l.queue| ==> l.queue[j] < l.queue[k])
    && l.imms[l.queue[b]].queued && (forall j :: 0 <= j < b ==> !l.imms[l.queue[j]].queued)
    && QueueLater(Reached(l, b).imms, l.queue[b + 1..], a.imms, a.queue) && a.budget == l.budget - 1 - b
  }

  lemma RanNext(l: Loop, b: nat, a: Loop, i: ImmId)
    requires RanFrom(l, b, a) && a.budget <= |a.queue| && i in a.queue[..a.budget] && i < |a.imms| && a.imms[i].queued
    ensures i in l.queue[..l.budget] && i < |l.imms| && l.imms[i].queued && l.queue[b] < i
  {
    var j :| 0 <= j < a.budget && a.queue[..a.budget][j] == i;
    assert a.queue[j] == a.queue[..|l.queue[b + 1..]|][j] == l.queue[b + 1 + j];
    assert l.queue[..l.budget][b + 1 + j] == i;
  }

  lemma RanFirst(l: Loop, b: nat, a: Loop, log: seq<Ran>)
    requires RanFrom(l, b, a) && ImmediatesRan(log, a)
    ensures ImmediatesRan([ImmediateRan(l.queue[b])] + log, l)
  {
    assert l.queue[..l.budget][b] == l.queue[b];
    var q, first := l.queue[..l.budget], ImmediateRan(l.queue[b]);
    assert first.i in q && first.i < |l.imms| && l.imms[first.i].queued;
    forall i | 0 <= i < |log|
      ensures log[i].i in q && log[i].i < |l.imms| && l.imms[log[i].i].queued && first.i < log[i].i
    {
      RanNext(l, b, a, log[i].i);
    }
    hide RanFrom;
    assert forall i :: 0 < i < |[first] + log| ==> ([first] + log)[i] == log[i - 1];
  }

  lemma ReachedFirst(l: Loop, b: nat, a: Loop, l': Loop)
    requires RanFrom(l, b, a) && AllReached(a, l')
    ensures AllReached(l, l')
  {
    var rest := l.queue[b + 1..];
    assert forall j :: 0 <= j < |rest| ==> a.queue[j] == a.queue[..|rest|][j] == l.queue[b + 1 + j];
    forall j | 0 <= j < l.budget ensures !l'.imms[l.queue[j]].queued {
      if j > b {
        assert a.queue[j - b - 1] == l.queue[j];
      } else {
        assert !a.imms[l.queue[j]].queued;
      }
    }
    var left := |l.queue| - l.budget;
    assert a.queue[a.budget..][..left] == l.queue[l.budget..];
    assert l'.queue[..left] == l'.queue[..|a.queue| - a.budget][..left];
    forall k | left <= k < |l'.queue| ensures l'.queue[k] >= |l.imms| {
      if k < |a.queue| - a.budget {
        assert l'.queue[k] == l'.queue[..|a.queue| - a.budget][k] == a.queue[a.budget + k];
      }
    }
  }

  lemma BeginKeeps(l: Loop, tick: Tick)
    requires Inv(l, None)
    ensures Inv(BeginTimers(l, tick), None)
  {
  }

  /** One turn: whatever the callbacks call, it ends; it fires timers that were due when it
      began, each once and in order, leaving none due; then it runs the immediates that were
      queued before its second phase and not cleared since, each once and in order. */
  lemma OneTurn(l0: Loop, tick: Tick, script: nat -> seq<Op>, jobs: nat -> seq<Op>) returns (n: nat, mid: Loop)
    requires Inv(l0, None)
    ensures var l := BeginTimers(l0, tick);
      && Inv(l, None) && Between(l, mid)
      && var (l', log) := Turn(l, script, jobs, 0);
      && n <= |log| && TimersRan(log[..n], l) && ImmediatesRan(log[n..], mid)
      && AllReached(mid, l') && Inv(l', None)
  {
    hide Inv, Turn, ImmediatesRan, AllReached;
    var l := BeginTimers(l0, tick);
    BeginKeeps(l0, tick);
    n, mid := TimerPhase(l, script, jobs, 0);
    ImmediatePhase(mid, script, jobs, n);
  }

  /** No timer fires twice in a turn. */
  lemma FiredOnce(log: seq<Ran>, l: Loop, i: nat, j: nat)
    requires TimersRan(log, l) && i < |log| && j < |log| && log[i].entry.id == log[j].entry.id
    ensures i == j
  {
    assert log[i].entry == log[j].entry;
  }

  /** Timers fire by when they are due, and those due at one moment in the order they were scheduled. */
  lemma FiredInOrder(log: seq<Ran>, l: Loop, i: nat, j: nat)
    requires TimersRan(log, l) && i < j < |log|
    ensures log[i].entry.due <= log[j].entry.due
    ensures log[i].entry.due == log[j].entry.due ==> log[i].entry.order < log[j].entry.order
  {
    assert Precedes(log[i].entry, log[j].entry);
  }

  /** A turn entered because something is ready runs at least one callback. */
  lemma TurnProgresses(l: Loop, script: nat -> seq<Op>, jobs: nat -> seq<Op>, i: ImmId)
    requires Inv(l, None) && l.timersPhase
    requires TimerIsDue(l) || (i < |l.imms| && l.imms[i].queued)
    ensures Turn(l, script, jobs, 0).1 != []
  {
    hide Inv, Least, RunImmediate, ApplyAll;
    if TimerIsDue(l) {
      FireRun(l, script(0));
    } else {
      var m := EndTimers(l);
      EndTimersKeeps(l);
      var b := ImmediateRuns(m, script(0));
      InQueue(m, i);
    }
  }

  lemma InQueue(l: Loop, i: ImmId)
    requires Inv(l, None) && i < |l.imms| && l.imms[i].queued
    ensures i in l.queue
  {
  }
}
