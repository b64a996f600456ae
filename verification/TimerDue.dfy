/** When a timer fires, over any turns: the first that begins at or after the moment it is due, and
    no other; and that a cleared one never does. */
module TimerDue {
  import opened Base
  import opened TimerHeap
  import opened TimerSpec
  import opened TimerTurn

  // ------------------------------------------------------------------ when it is due

  /** A timer started with a delay of 1 to 2147483647 milliseconds is due that long after it was
      started; with any other, or none that is a number, after one. It holds the loop open. */
  lemma StartDue(l: Loop, delay: Option<real>, repeat: bool, tick: Tick)
    ensures var l', id := Apply(l, Start(delay, repeat, tick)), l.nextId;
      && l'.clock == l.clock + tick && id in l'.timers && id in l'.active && l'.nextId == id + 1
      && l'.timers[id].repeat == repeat && l'.timers[id].ref && !l'.timers[id].cleared
      && l'.timers[id].entry.Some? && l'.timers[id].entry.value.id == id
      && (delay.Some? && 1.0 <= delay.value <= 2147483647.0 ==>
            l'.timers[id].delay == delay.value && l'.timers[id].entry.value.due == l'.clock + delay.value)
      && (delay.None? || delay.value < 1.0 || delay.value > 2147483647.0 ==>
            l'.timers[id].delay == 1.0 && l'.timers[id].entry.value.due == l'.clock + 1.0)
  {
  }

  /** Refreshing a timer that was not cleared makes it wait its delay over again; one that was
      cleared stays so. */
  lemma RefreshDue(l: Loop, id: TimerId, tick: Tick)
    requires id in l.timers
    ensures var l' := Apply(l, Refresh(id, tick));
      if l.timers[id].cleared then l' == l
      else Waits(l'.timers, id) && l'.timers[id].entry.value.due == l.clock + tick + l.timers[id].delay && id in l'.active
  {
  }

  // ------------------------------------------------------------- calls about others

  /** The call clears or refreshes timer `id`. */
  predicate Aims(op: Op, id: TimerId) { op == ClearHandle(id) || op == ClearId(id) || (op.Refresh? && op.id == id) }

  ghost predicate Spares(ops: seq<Op>, id: TimerId) { forall i :: 0 <= i < |ops| ==> !Aims(ops[i], id) }

  ghost predicate SparesAll(script: nat -> seq<Op>, id: TimerId) { forall k :: Spares(script(k), id) }

  /** Timer `id` waits for the same moment, and is otherwise as it was but for being referenced. */
  predicate Same(l: Loop, l': Loop, id: TimerId) {
    && id in l.timers && id in l'.timers && l'.timers[id].(ref := l.timers[id].ref) == l.timers[id]
    && (id in l'.active <==> id in l.active) && l'.turnStarted == l.turnStarted && (l'.timersPhase ==> l.timersPhase)
    && l.orders <= l'.orders
  }

  lemma ApplySame(l: Loop, op: Op, id: TimerId)
    requires id in l.timers && id < l.nextId && !Aims(op, id)
    ensures Same(l, Apply(l, op), id) && l.nextId <= Apply(l, op).nextId
  {
  }

  lemma {:induction false} ApplyAllSame(l: Loop, ops: seq<Op>, id: TimerId)
    requires id in l.timers && id < l.nextId && Spares(ops, id)
    ensures Same(l, ApplyAll(l, ops), id)
    decreases |ops|
  {
    hide Apply;
    if ops != [] {
      ApplySame(l, ops[0], id);
      ApplyAllSame(Apply(l, ops[0]), ops[1..], id);
    }
  }

  lemma Known(l: Loop, id: TimerId)
    requires Inv(l, None) && id in l.timers
    ensures id < l.nextId && l.timers[id].delay >= 1.0
    ensures l.timers[id].entry.Some? ==> id in l.active && l.timers[id].entry.value.id == id && l.timers[id].entry.value.order < l.orders
  {
  }

  /** Another timer's firing leaves it alone. */
  lemma FireSame(l: Loop, k: TimerId, calls: seq<Op>, id: TimerId)
    requires k in l.timers && k != id && id in l.timers && id < l.nextId && Spares(calls, id)
    ensures Same(l, Fire(l, k, calls), id)
  {
    hide ApplyAll;
    ApplyAllSame(Taken(l, k), calls, id);
  }

  // --------------------------------------------------------------- through one turn

  /** Timer `id` has nothing to fire in the turn under way. */
  predicate Quiet(l: Loop, id: TimerId) {
    && id in l.timers
    && (if l.timers[id].entry.Some? then l.timersPhase ==> l.timers[id].entry.value.due > l.turnStarted else id !in l.active)
  }

  lemma RunSame(l: Loop, calls: seq<Op>, id: TimerId)
    requires Inv(l, None) && Quiet(l, id) && Spares(calls, id)
    ensures Same(l, RunTimer(l, calls).0, id)
  {
    hide Inv, Least, Later, Fire, RunImmediate, ApplyAll, Due, Nearer;
    Known(l, id);
    if TimerIsDue(l) {
      FireRun(l, calls);
      FireSame(l, Least(l.timers).value.id, calls, id);
    } else {
      var m := if l.timersPhase then EndTimers(l) else l;
      EndTimersKeeps(l);
      var k := ImmediateRuns(m, calls);
      if RanAt(m, calls, k) { ApplyAllSame(Reached(m, k), calls, id); }
    }
  }

  /** What has nothing to fire in a turn comes out of it as it was. */
  lemma {:induction false} SameThrough(l: Loop, script: nat -> seq<Op>, jobs: nat -> seq<Op>, k: nat, id: TimerId)
    requires Inv(l, None) && Quiet(l, id) && SparesAll(script, id) && SparesAll(jobs, id)
    ensures Same(l, Turn(l, script, jobs, k).0, id)
    decreases if l.timersPhase then 1 else 0, if l.timersPhase then |Due(l)| else l.budget
  {
    hide Inv, Later, RunTimer, ApplyAll, Due, Aims;
    RunKeeps(l, script(k));
    RunSame(l, script(k), id);
    var (m, r) := RunTimer(l, script(k));
    if r.Some? {
      var a := ApplyAll(m, jobs(k));
      Known(m, id);
      ApplyAllKeeps(m, jobs(k), None);
      ApplyAllSame(m, jobs(k), id);
      NearerStays(l, m, a);
      SameThrough(a, script, jobs, k + 1, id);
    }
  }

  /** What firing leaves of a timer: an interval waits one delay from the start of the turn, and
      anything else waits for nothing. */
  predicate Served(l: Loop, l': Loop, id: TimerId) {
    && id in l.timers && id in l'.timers && l'.turnStarted == l.turnStarted && l.orders <= l'.orders
    && l'.timers[id].repeat == l.timers[id].repeat && l'.timers[id].delay == l.timers[id].delay && l'.timers[id].cleared == l.timers[id].cleared
    && (if l.timers[id].repeat
        then l'.timers[id].entry.Some? && l'.timers[id].entry.value.due == l.turnStarted + l.timers[id].delay
        else l'.timers[id].entry.None? && id !in l'.active)
  }

  lemma FireServes(l: Loop, id: TimerId, calls: seq<Op>)
    requires Inv(l, None) && id in l.timers && l.timers[id].entry.Some? && Spares(calls, id)
    ensures Served(l, Fire(l, id, calls), id)
  {
    hide Inv, ApplyAll;
    Known(l, id);
    ApplyAllSame(Taken(l, id), calls, id);
  }

  lemma ServedQuiet(l: Loop, l': Loop, id: TimerId)
    requires Served(l, l', id) && Inv(l, None)
    ensures Quiet(l', id)
  {
  }

  /** A callback and the jobs after it, as one of its turn's timers sees them. */
  lemma Stepped(l: Loop, first: TimerId, calls: seq<Op>, after: seq<Op>, id: TimerId)
    requires Inv(l, None) && first in l.timers && l.timers[first].entry.Some? && id in l.timers && Spares(calls, id) && Spares(after, id)
    ensures var a := ApplyAll(Fire(l, first, calls), after); if first == id then Served(l, a, id) else Same(l, a, id)
  {
    hide Inv, Later, Fire, ApplyAll, Aims;
    Known(l, id);
    FireKeeps(l, first, calls);
    var m := Fire(l, first, calls);
    if first == id { FireServes(l, id, calls); } else { FireSame(l, first, calls, id); }
    Known(m, id);
    ApplyAllSame(m, after, id);
  }

  lemma SameServed(l: Loop, a: Loop, l': Loop, id: TimerId)
    ensures Same(l, a, id) && Served(a, l', id) ==> Served(l, l', id)
    ensures Served(l, a, id) && Same(a, l', id) ==> Served(l, l', id)
  {
  }

  /** A timer that is due when the turn begins fires in it. */
  lemma {:induction false} FiresDue(l: Loop, script: nat -> seq<Op>, jobs: nat -> seq<Op>, k: nat, e: Entry)
    requires Inv(l, None) && l.timersPhase && Live(l.timers, e) && e.due <= l.turnStarted
    requires SparesAll(script, e.id) && SparesAll(jobs, e.id)
    ensures TimerRan(e) in Turn(l, script, jobs, k).1 && Served(l, Turn(l, script, jobs, k).0, e.id)
    decreases |Due(l)|
  {
    hide Inv, Later, RunTimer, Fire, ApplyAll, Least, Spares, Due, Nearer, Same, Served, Quiet;
    IsDue(l, e);
    FireRun(l, script(k));
    var first := Least(l.timers).value;
    var m := Fire(l, first.id, script(k));
    var a := ApplyAll(m, jobs(k));
    ApplyAllKeeps(m, jobs(k), None);
    NearerStays(l, m, a);
    LaterAdds(l, m, a);
    LaterTimers(l, a);
    Stepped(l, first.id, script(k), jobs(k), e.id);
    assert Turn(l, script, jobs, k) == (Turn(a, script, jobs, k + 1).0, [TimerRan(first)] + Turn(a, script, jobs, k + 1).1);
    SameServed(l, a, Turn(a, script, jobs, k + 1).0, e.id);
    if first.id == e.id {
      ServedQuiet(l, a, e.id);
      SameThrough(a, script, jobs, k + 1, e.id);
    } else {
      SameLive(l, a, e);
      NearerDue(l, a);
      FiresDue(a, script, jobs, k + 1, e);
    }
  }

  lemma SameLive(l: Loop, a: Loop, e: Entry)
    requires Same(l, a, e.id) && Live(l.timers, e)
    ensures Live(a.timers, e)
  {
  }

  lemma IsDue(l: Loop, e: Entry)
    requires Inv(l, None) && l.timersPhase && Live(l.timers, e) && e.due <= l.turnStarted
    ensures TimerIsDue(l)
  {
    hide Inv, Least;
    InvEntries(l, None);
    LeastExists(l.timers, e.id);
  }

  /** All that a turn fires was waiting, and due, when the turn began. */
  lemma RanWasDue(l0: Loop, tick: Tick, script: nat -> seq<Op>, jobs: nat -> seq<Op>, e: Entry)
    requires Inv(l0, None)
    ensures var l := BeginTimers(l0, tick);
      Inv(l, None) && (TimerRan(e) in Turn(l, script, jobs, 0).1 ==> Live(l0.timers, e) && e.due <= l0.clock + tick)
  {
    hide Inv, Turn, Between, AllReached;
    var n, mid := OneTurn(l0, tick, script, jobs);
    var log := Turn(BeginTimers(l0, tick), script, jobs, 0).1;
    assert forall i :: 0 <= i < n ==> log[..n][i] == log[i];
    assert forall i :: n <= i < |log| ==> log[n..][i - n] == log[i];
  }

  /** In a turn that clears or refreshes neither before nor after, the timer fires exactly if it
      is due when the turn begins; if not, it waits on for the same moment. */
  lemma TurnDecides(l0: Loop, tick: Tick, script: nat -> seq<Op>, jobs: nat -> seq<Op>, e: Entry)
    requires Inv(l0, None) && Live(l0.timers, e) && SparesAll(script, e.id) && SparesAll(jobs, e.id)
    ensures var l := BeginTimers(l0, tick);
      && Inv(l, None)
      && var (l', log) := Turn(l, script, jobs, 0);
      && (TimerRan(e) in log <==> e.due <= l0.clock + tick)
      && (if e.due <= l0.clock + tick then Served(l, l', e.id) else Same(l, l', e.id))
  {
    hide Inv, Turn, Live, Served, Same, SparesAll;
    BeginKeeps(l0, tick);
    var l := BeginTimers(l0, tick);
    RanWasDue(l0, tick, script, jobs, e);
    if e.due <= l.turnStarted {
      LiveOn(l0, l, e);
      FiresDue(l, script, jobs, 0, e);
    } else {
      LiveQuiet(l0, l, e);
      SameThrough(l, script, jobs, 0, e.id);
    }
  }

  lemma LiveOn(l: Loop, l': Loop, e: Entry)
    requires Live(l.timers, e) && l'.timers == l.timers
    ensures Live(l'.timers, e)
  {
  }

  lemma LiveQuiet(l: Loop, l': Loop, e: Entry)
    requires Live(l.timers, e) && l'.timers == l.timers && e.due > l'.turnStarted
    ensures Quiet(l', e.id)
  {
  }

  // ------------------------------------------------------------------ over many turns

  /** Calls made outside a turn, then a turn `tick` after them. */
  datatype Round = Round(before: seq<Op>, tick: Tick, script: nat -> seq<Op>, jobs: nat -> seq<Op>)

  datatype Past = Past(started: real, log: seq<Ran>)

  function Began(l: Loop, r: Round): Loop { BeginTimers(ApplyAll(l, r.before), r.tick) }

  ghost function Done(l: Loop, r: Round): (Loop, seq<Ran>)
    requires Inv(l, None)
  {
    ApplyAllKeeps(l, r.before, None);
    BeginKeeps(ApplyAll(l, r.before), r.tick);
    Turn(Began(l, r), r.script, r.jobs, 0)
  }

  lemma DoneKeeps(l: Loop, r: Round)
    requires Inv(l, None)
    ensures Inv(Done(l, r).0, None)
  {
    hide Inv, Turn, Between, AllReached, ImmediatesRan, TimersRan;
    ApplyAllKeeps(l, r.before, None);
    var _, _ := OneTurn(ApplyAll(l, r.before), r.tick, r.script, r.jobs);
  }

  /** When each turn began, and what it ran. */
  ghost function History(l: Loop, rs: seq<Round>): seq<Past>
    requires Inv(l, None)
    ensures |History(l, rs)| == |rs|
    decreases |rs|
  {
    if rs == [] then [] else
    DoneKeeps(l, rs[0]);
    [Past(Began(l, rs[0]).turnStarted, Done(l, rs[0]).1)] + History(Done(l, rs[0]).0, rs[1..])
  }

  ghost predicate SparesRound(r: Round, id: TimerId) { Spares(r.before, id) && SparesAll(r.script, id) && SparesAll(r.jobs, id) }

  ghost predicate SparesRounds(rs: seq<Round>, id: TimerId) { forall i :: 0 <= i < |rs| ==> SparesRound(rs[i], id) }

  /** `e` is over: fired, superseded or cleared. */
  predicate Over(l: Loop, e: Entry) { e.order < l.orders && !Live(l.timers, e) }

  lemma ApplyOver(l: Loop, op: Op, e: Entry)
    requires Over(l, e)
    ensures Over(Apply(l, op), e)
  {
  }

  lemma {:induction false} ApplyAllOver(l: Loop, ops: seq<Op>, e: Entry)
    requires Over(l, e)
    ensures Over(ApplyAll(l, ops), e)
    decreases |ops|
  {
    hide Over, Apply;
    if ops != [] {
      ApplyOver(l, ops[0], e);
      ApplyAllOver(Apply(l, ops[0]), ops[1..], e);
    }
  }

  lemma FireOver(l: Loop, k: TimerId, calls: seq<Op>, e: Entry)
    requires k in l.timers && Over(l, e)
    ensures Over(Fire(l, k, calls), e)
  {
    hide ApplyAll;
    ApplyAllOver(Taken(l, k), calls, e);
  }

  lemma RunOver(l: Loop, calls: seq<Op>, e: Entry)
    requires Inv(l, None) && Over(l, e)
    ensures Over(RunTimer(l, calls).0, e)
  {
    hide Inv, Least, Later, Fire, RunImmediate, ApplyAll, Due, Nearer;
    if TimerIsDue(l) {
      FireRun(l, calls);
      FireOver(l, Least(l.timers).value.id, calls, e);
    } else {
      var m := if l.timersPhase then EndTimers(l) else l;
      EndTimersKeeps(l);
      var k := ImmediateRuns(m, calls);
      if RanAt(m, calls, k) { ApplyAllOver(Reached(m, k), calls, e); }
    }
  }

  lemma {:induction false} OverThrough(l: Loop, script: nat -> seq<Op>, jobs: nat -> seq<Op>, k: nat, e: Entry)
    requires Inv(l, None) && Over(l, e)
    ensures Over(Turn(l, script, jobs, k).0, e)
    decreases if l.timersPhase then 1 else 0, if l.timersPhase then |Due(l)| else l.budget
  {
    hide Inv, Later, RunTimer, ApplyAll, Due, Over;
    RunKeeps(l, script(k));
    RunOver(l, script(k), e);
    var (m, r) := RunTimer(l, script(k));
    if r.Some? {
      ApplyAllKeeps(m, jobs(k), None);
      ApplyAllOver(m, jobs(k), e);
      NearerStays(l, m, ApplyAll(m, jobs(k)));
      OverThrough(ApplyAll(m, jobs(k)), script, jobs, k + 1, e);
    }
  }

  lemma OverDone(l: Loop, r: Round, e: Entry)
    requires Inv(l, None) && Over(l, e)
    ensures Over(Done(l, r).0, e) && TimerRan(e) !in Done(l, r).1
  {
    hide Inv, Turn, ApplyAll;
    ApplyAllKeeps(l, r.before, None);
    ApplyAllOver(l, r.before, e);
    RanWasDue(ApplyAll(l, r.before), r.tick, r.script, r.jobs, e);
    OverThrough(Began(l, r), r.script, r.jobs, 0, e);
  }

  /** What is over does not fire again. */
  lemma {:induction false} OverForever(l: Loop, rs: seq<Round>, e: Entry, i: nat)
    requires Inv(l, None) && Over(l, e) && i < |rs|
    ensures TimerRan(e) !in History(l, rs)[i].log
    decreases |rs|
  {
    hide Inv, Done, Over;
    OverDone(l, rs[0], e);
    DoneKeeps(l, rs[0]);
    if i > 0 { OverForever(Done(l, rs[0]).0, rs[1..], e, i - 1); }
  }

  /** In one round. */
  lemma RoundDecides(l: Loop, r: Round, e: Entry)
    requires Inv(l, None) && Live(l.timers, e) && SparesRound(r, e.id)
    ensures var start := Began(l, r).turnStarted;
      && (TimerRan(e) in Done(l, r).1 <==> e.due <= start)
      && (e.due > start ==> Live(Done(l, r).0.timers, e))
      && (e.due <= start ==> Served(Began(l, r), Done(l, r).0, e.id))
      && Same(l, ApplyAll(l, r.before), e.id)
  {
    hide Inv, Turn, ApplyAll, SparesAll;
    ApplyAllKeeps(l, r.before, None);
    Known(l, e.id);
    ApplyAllSame(l, r.before, e.id);
    TurnDecides(ApplyAll(l, r.before), r.tick, r.script, r.jobs, e);
  }

  lemma ServedOver(l: Loop, r: Round, e: Entry)
    requires Inv(l, None) && Live(l.timers, e) && SparesRound(r, e.id) && e.due <= Began(l, r).turnStarted
    ensures Over(Done(l, r).0, e)
  {
    hide Inv, Done, ApplyAll, SparesRound;
    RoundDecides(l, r, e);
    Known(l, e.id);
  }

  /** A timer that nothing clears or refreshes fires in the first turn that begins at or after
      the moment it is due, and that firing is in no other turn. */
  lemma {:induction false} FiresFirst(l: Loop, rs: seq<Round>, e: Entry, i: nat)
    requires Inv(l, None) && Live(l.timers, e) && SparesRounds(rs, e.id) && i < |rs|
    ensures var h := History(l, rs);
      TimerRan(e) in h[i].log <==> e.due <= h[i].started && forall j :: 0 <= j < i ==> h[j].started < e.due
    decreases |rs|
  {
    hide Inv, Done, Live, SparesRound;
    var r, h := rs[0], History(l, rs);
    RoundDecides(l, r, e);
    DoneKeeps(l, r);
    var rest := History(Done(l, r).0, rs[1..]);
    assert forall j :: 0 < j < |h| ==> h[j] == rest[j - 1];
    if i > 0 {
      if e.due <= h[0].started {
        ServedOver(l, r, e);
        OverForever(Done(l, r).0, rs[1..], e, i - 1);
      } else {
        FiresFirst(Done(l, r).0, rs[1..], e, i - 1);
        assert forall j :: 0 <= j < i - 1 ==> h[j + 1] == rest[j];
      }
    }
  }

  /** So for what `setTimeout` and `setInterval` start. */
  lemma StartedFires(l: Loop, d: real, repeat: bool, tick: Tick, rs: seq<Round>, i: nat)
    requires Inv(l, None) && 1.0 <= d <= 2147483647.0 && SparesRounds(rs, l.nextId) && i < |rs|
    ensures var l', due := Apply(l, Start(Some(d), repeat, tick)), l.clock + tick + d;
      && Inv(l', None)
      && var h := History(l', rs);
      && (TimerRan(Entry(l.nextId, due, l.orders)) in h[i].log <==> due <= h[i].started && forall j :: 0 <= j < i ==> h[j].started < due)
  {
    hide Inv, History, SparesRounds;
    ApplyKeeps(l, Start(Some(d), repeat, tick), None);
    StartDue(l, Some(d), repeat, tick);
    FiresFirst(Apply(l, Start(Some(d), repeat, tick)), rs, Entry(l.nextId, l.clock + tick + d, l.orders), i);
  }

  /** An interval that fires in a turn is due again one delay after that turn began, and fires
      next in the first turn to begin then or later; what is no interval waits for nothing. */
  lemma IntervalAgain(l: Loop, r: Round, e: Entry, rs: seq<Round>, i: nat) returns (next: Entry)
    requires Inv(l, None) && Live(l.timers, e) && SparesRound(r, e.id) && e.due <= Began(l, r).turnStarted
    requires SparesRounds(rs, e.id) && i < |rs|
    ensures var l' := Done(l, r).0;
      && Inv(l', None) && next.id == e.id && next.due == Began(l, r).turnStarted + l.timers[e.id].delay
      && if !l.timers[e.id].repeat then !Waits(l'.timers, e.id) else
         && Live(l'.timers, next)
         && var h := History(l', rs);
         && (TimerRan(next) in h[i].log <==> next.due <= h[i].started && forall j :: 0 <= j < i ==> h[j].started < next.due)
  {
    hide Inv, Done, ApplyAll, SparesRound, SparesRounds, History;
    RoundDecides(l, r, e);
    DoneKeeps(l, r);
    var l' := Done(l, r).0;
    next := Entry(e.id, Began(l, r).turnStarted + l.timers[e.id].delay, 0);
    if l.timers[e.id].repeat {
      next := l'.timers[e.id].entry.value;
      Known(l', e.id);
      FiresFirst(l', rs, next, i);
    }
  }

  // --------------------------------------------------------------------- cleared timers

  /** Cleared, and waiting for nothing. */
  predicate Dead(l: Loop, id: TimerId) { id in l.timers && id < l.nextId && l.timers[id].cleared && l.timers[id].entry.None? && id !in l.active }

  lemma ClearKills(l: Loop, id: TimerId)
    requires Inv(l, None) && id in l.timers
    ensures Dead(Apply(l, ClearHandle(id)), id)
    ensures id in l.active ==> Apply(l, ClearId(id)) == Apply(l, ClearHandle(id))
    ensures id !in l.active ==> Apply(l, ClearId(id)) == l
  {
  }

  lemma ApplyDead(l: Loop, op: Op, id: TimerId)
    requires Dead(l, id)
    ensures Dead(Apply(l, op), id)
  {
  }

  lemma {:induction false} ApplyAllDead(l: Loop, ops: seq<Op>, id: TimerId)
    requires Dead(l, id)
    ensures Dead(ApplyAll(l, ops), id)
    decreases |ops|
  {
    hide Dead, Apply;
    if ops != [] {
      ApplyDead(l, ops[0], id);
      ApplyAllDead(Apply(l, ops[0]), ops[1..], id);
    }
  }

  lemma FireDead(l: Loop, k: TimerId, calls: seq<Op>, id: TimerId)
    requires k in l.timers && k != id && Dead(l, id)
    ensures Dead(Fire(l, k, calls), id)
  {
    hide ApplyAll;
    ApplyAllDead(Taken(l, k), calls, id);
  }

  lemma RunDead(l: Loop, calls: seq<Op>, id: TimerId)
    requires Inv(l, None) && Dead(l, id)
    ensures Dead(RunTimer(l, calls).0, id)
  {
    hide Inv, Least, Later, Fire, RunImmediate, ApplyAll, Due, Nearer;
    if TimerIsDue(l) {
      FireRun(l, calls);
      FireDead(l, Least(l.timers).value.id, calls, id);
    } else {
      var m := if l.timersPhase then EndTimers(l) else l;
      EndTimersKeeps(l);
      var k := ImmediateRuns(m, calls);
      if RanAt(m, calls, k) { ApplyAllDead(Reached(m, k), calls, id); }
    }
  }

  lemma {:induction false} DeadThrough(l: Loop, script: nat -> seq<Op>, jobs: nat -> seq<Op>, k: nat, id: TimerId)
    requires Inv(l, None) && Dead(l, id)
    ensures Dead(Turn(l, script, jobs, k).0, id)
    decreases if l.timersPhase then 1 else 0, if l.timersPhase then |Due(l)| else l.budget
  {
    hide Inv, Later, RunTimer, ApplyAll, Due, Dead;
    RunKeeps(l, script(k));
    RunDead(l, script(k), id);
    var (m, r) := RunTimer(l, script(k));
    if r.Some? {
      ApplyAllKeeps(m, jobs(k), None);
      ApplyAllDead(m, jobs(k), id);
      NearerStays(l, m, ApplyAll(m, jobs(k)));
      DeadThrough(ApplyAll(m, jobs(k)), script, jobs, k + 1, id);
    }
  }

  lemma DeadDone(l: Loop, r: Round, e: Entry)
    requires Inv(l, None) && Dead(l, e.id)
    ensures Dead(Done(l, r).0, e.id) && TimerRan(e) !in Done(l, r).1
  {
    hide Inv, Turn, ApplyAll;
    ApplyAllKeeps(l, r.before, None);
    ApplyAllDead(l, r.before, e.id);
    RanWasDue(ApplyAll(l, r.before), r.tick, r.script, r.jobs, e);
    DeadThrough(Began(l, r), r.script, r.jobs, 0, e.id);
  }

  /** A cleared timer never fires, whatever the guest calls after, refreshing it included. */
  lemma {:induction false} ClearedForever(l: Loop, rs: seq<Round>, e: Entry, i: nat)
    requires Inv(l, None) && Dead(l, e.id) && i < |rs|
    ensures TimerRan(e) !in History(l, rs)[i].log
    decreases |rs|
  {
    hide Inv, Done, Dead;
    DeadDone(l, rs[0], e);
    DoneKeeps(l, rs[0]);
    if i > 0 { ClearedForever(Done(l, rs[0]).0, rs[1..], e, i - 1); }
  }

  // ------------------------------------------------------------------------ immediates

  ghost predicate Leaves(ops: seq<Op>, i: ImmId) { forall k :: 0 <= k < |ops| ==> ops[k] != ClearImmediate(i) }

  ghost predicate LeavesAll(script: nat -> seq<Op>, i: ImmId) { forall k :: Leaves(script(k), i) }

  predicate Queued(l: Loop, i: ImmId) { i < |l.imms| && l.imms[i].queued }

  lemma {:induction false} ApplyAllQueued(l: Loop, ops: seq<Op>, i: ImmId)
    requires Queued(l, i) && Leaves(ops, i)
    ensures Queued(ApplyAll(l, ops), i)
    decreases |ops|
  {
    if ops != [] { ApplyAllQueued(Apply(l, ops[0]), ops[1..], i); }
  }

  lemma FireQueued(l: Loop, k: TimerId, calls: seq<Op>, i: ImmId)
    requires k in l.timers && Queued(l, i) && Leaves(calls, i)
    ensures Queued(Fire(l, k, calls), i)
  {
    hide ApplyAll;
    ApplyAllQueued(Taken(l, k), calls, i);
  }

  /** Still queued, and within what the turn's second phase will reach. */
  predicate Pending(l: Loop, i: ImmId) { Queued(l, i) && (!l.timersPhase ==> l.budget <= |l.queue| && i in l.queue[..l.budget]) }

  lemma SwitchPending(l: Loop, i: ImmId)
    requires Inv(l, None) && Queued(l, i)
    ensures Pending(EndTimers(l), i)
  {
    InQueue(l, i);
    assert l.queue[..|l.queue|] == l.queue;
  }

  lemma LaterPending(l: Loop, l': Loop, i: ImmId)
    requires Pending(l, i) && Later(l, l') && Queued(l', i) && l.budget <= |l.queue|
    ensures Pending(l', i)
  {
    assert l'.queue[..|l.queue|][..l.budget] == l'.queue[..l.budget];
  }

  lemma ReachedPending(l: Loop, k: nat, i: ImmId)
    requires Pending(l, i) && !l.timersPhase && k < l.budget <= |l.queue| && l.queue[k] < |l.imms| && l.queue[k] != i
    requires forall j :: 0 <= j < k ==> l.queue[j] < |l.imms| && !l.imms[l.queue[j]].queued
    ensures Pending(Reached(l, k), i)
  {
    var j :| 0 <= j < l.budget && l.queue[..l.budget][j] == i;
    var q := l.queue[k + 1..];
    assert j > k && q[..l.budget - 1 - k][j - k - 1] == i;
  }

  lemma RunPending(l: Loop, calls: seq<Op>, i: ImmId)
    requires Inv(l, None) && Pending(l, i) && Leaves(calls, i)
    ensures var (m, r) := RunTimer(l, calls); r.Some? && (r == Some(ImmediateRan(i)) || Pending(m, i))
  {
    hide Inv, Least, Later, Fire, RunImmediate, ApplyAll, Due, Nearer, Leaves;
    if TimerIsDue(l) {
      FireRun(l, calls);
      var e := Least(l.timers).value;
      FireQueued(l, e.id, calls, i);
      QueueFacts(l);
      LaterPending(l, Fire(l, e.id, calls), i);
    } else {
      var m := if l.timersPhase then EndTimers(l) else l;
      EndTimersKeeps(l);
      if l.timersPhase { SwitchPending(l, i); }
      ImmediatePending(m, calls, i);
    }
  }

  lemma ImmediatePending(l: Loop, calls: seq<Op>, i: ImmId)
    requires Inv(l, None) && Pending(l, i) && !l.timersPhase && Leaves(calls, i)
    ensures var (m, r) := RunImmediate(l, calls); r.Some? && (r == Some(ImmediateRan(i)) || Pending(m, i))
  {
    hide Inv, Later, RunImmediate, ApplyAll, Leaves;
    var k := ImmediateRuns(l, calls);
    var j :| 0 <= j < l.budget && l.queue[..l.budget][j] == i;
    assert l.queue[j] == i;
    if l.queue[k] != i {
      ReachedPending(l, k, i);
      var a := Reached(l, k);
      ApplyAllKeeps(a, calls, None);
      ApplyAllQueued(a, calls, i);
      LaterPending(a, ApplyAll(a, calls), i);
    }
  }

  lemma {:induction false} PendingRuns(l: Loop, script: nat -> seq<Op>, jobs: nat -> seq<Op>, k: nat, i: ImmId)
    requires Inv(l, None) && Pending(l, i) && LeavesAll(script, i) && LeavesAll(jobs, i)
    ensures ImmediateRan(i) in Turn(l, script, jobs, k).1
    decreases if l.timersPhase then 1 else 0, if l.timersPhase then |Due(l)| else l.budget
  {
    hide Inv, Later, RunTimer, ApplyAll, Due, Leaves, Pending;
    RunKeeps(l, script(k));
    RunPending(l, script(k), i);
    var (m, r) := RunTimer(l, script(k));
    var a := ApplyAll(m, jobs(k));
    ApplyAllKeeps(m, jobs(k), None);
    NearerStays(l, m, a);
    assert Turn(l, script, jobs, k).1 == [r.value] + Turn(a, script, jobs, k + 1).1;
    if r == Some(ImmediateRan(i)) {
      assert Turn(l, script, jobs, k).1[0] == ImmediateRan(i);
    } else {
      AfterPending(m, jobs(k), i);
      PendingRuns(a, script, jobs, k + 1, i);
    }
  }

  lemma AfterPending(l: Loop, ops: seq<Op>, i: ImmId)
    requires Inv(l, None) && Pending(l, i) && Leaves(ops, i)
    ensures Pending(ApplyAll(l, ops), i)
  {
    hide Inv, Later, ApplyAll, Leaves;
    ApplyAllKeeps(l, ops, None);
    ApplyAllQueued(l, ops, i);
    QueueFacts(l);
    LaterPending(l, ApplyAll(l, ops), i);
  }

  /** An immediate queued when a turn begins, and not cleared in it, runs in it. */
  lemma ImmediateFires(l0: Loop, tick: Tick, script: nat -> seq<Op>, jobs: nat -> seq<Op>, i: ImmId)
    requires Inv(l0, None) && Queued(l0, i) && LeavesAll(script, i) && LeavesAll(jobs, i)
    ensures var l := BeginTimers(l0, tick); Inv(l, None) && ImmediateRan(i) in Turn(l, script, jobs, 0).1
  {
    hide Inv, Turn, LeavesAll;
    BeginKeeps(l0, tick);
    PendingRuns(BeginTimers(l0, tick), script, jobs, 0, i);
  }
}
