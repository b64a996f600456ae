/** Deferred host calls: the shim's slots (src/js/quickjs_shim.c), the glue that holds them, and
    the driver's `deferred` map (tinysandbox-js-runtime/src/index.ts). */
module HostCalls {
  import opened Base

  /** A host call that may be answered later, and the promise made for it. */
  type CallId = nat
  const MaxPending := 64
  const NoSlot := -1

  type Slots = seq<Option<CallId>>

  /** `tinysandbox_run` or a resume is on the stack, or the guest is parked, its next timer due in
      `delay` milliseconds or never (-1). */
  datatype Phase = Running | Parked(delay: int)

  /** `slots` and `pendingCount` are the shim's; `deferredCount` and `waiters` the glue's;
      `deferred` the driver's. `held` are the promises whose release has not run, and `resolved`
      pairs each settled promise with the call whose answer it got. */
  datatype State = State(
    slots: Slots,
    pendingCount: int,
    deferredCount: int,
    waiters: nat,
    deferred: map<int, CallId>,
    held: set<CallId>,
    resolved: seq<(CallId, CallId)>,
    nextCall: CallId,
    phase: Phase)

  datatype Action =
    | CallAsync(defers: bool)   // fs.promises; `defers` is what the host would like to do
    | CallGlobal(defers: bool)  // a host global
    | Release(c: CallId)        // the microtask that follows a settled promise
    | Park(delay: int)          // session_settle suspends
    | Answer(slot: int)         // the driver delivers a settled answer
    | Wake                      // the driver's timer

  /** `session_reserve_slot`: the first slot not in use. */
  function Reserve(slots: Slots): int
  {
    if slots == [] then NoSlot
    else if slots[0].None? then 0
    else if Reserve(slots[1..]) == NoSlot then NoSlot else Reserve(slots[1..]) + 1
  }

  lemma {:induction false} ReserveIsFirst(slots: Slots)
    ensures NoSlot <= Reserve(slots) < |slots|
    ensures Reserve(slots) == NoSlot <==> forall k :: 0 <= k < |slots| ==> slots[k].Some?
    ensures Reserve(slots) >= 0 ==> slots[Reserve(slots)].None? && forall k :: 0 <= k < Reserve(slots) ==> slots[k].Some?
  {
    if slots != [] && slots[0].Some? {
      ReserveIsFirst(slots[1..]);
      assert forall k :: 0 < k < |slots| ==> slots[k] == slots[1..][k - 1];
    }
  }

  /** `js_host_call` with a deferrable answer. Without a slot the host answers inline. */
  function HostCall(s: State, defers: bool): State {
    var k := Reserve(s.slots);
    var s1 := s.(nextCall := s.nextCall + 1);
    if k < 0 || k >= |s.slots| || !defers then s1
    else s1.(slots := s.slots[k := Some(s.nextCall)], pendingCount := s.pendingCount + 1,
             deferred := s.deferred[k := s.nextCall],
             deferredCount := s.deferredCount + 1, held := s.held + {s.nextCall})
  }

  predicate Enabled(s: State, a: Action) {
    match a
    case CallAsync(_) => s.phase.Running?
    case CallGlobal(_) => s.phase.Running?
    case Release(c) => s.phase.Running? && c in s.held && exists i :: 0 <= i < |s.resolved| && s.resolved[i].0 == c
    case Park(delay) => s.phase.Running? && (s.pendingCount > 0 || delay > 0)
    case Answer(k) => s.phase.Parked? && k in s.deferred
    case Wake => s.phase.Parked? && s.phase.delay >= 0
  }

  /** `tinysandbox_resolve`, after the driver took `k` out of its map. */
  function Resolve(s: State, k: int, answer: CallId): State {
    if 0 <= k < |s.slots| && s.slots[k].Some?
    then s.(slots := s.slots[k := None], pendingCount := s.pendingCount - 1,
            resolved := s.resolved + [(s.slots[k].value, answer)], phase := Running)
    else s.(phase := Running)
  }

  function Next(s: State, a: Action): State
    requires Enabled(s, a)
  {
    match a
    case CallAsync(defers) =>
      if s.deferredCount >= MaxPending then s.(waiters := s.waiters + 1) else HostCall(s, defers)
    case CallGlobal(defers) => HostCall(s, defers)
    case Release(c) =>
      s.(deferredCount := s.deferredCount - 1, held := s.held - {c}, waiters := if s.waiters > 0 then s.waiters - 1 else 0)
    case Park(delay) => s.(phase := Parked(delay))
    case Answer(k) => Resolve(s.(deferred := s.deferred - {k}), k, s.deferred[k])
    case Wake => s.(phase := Running)
  }

  function Start(): State { State(seq(MaxPending, _ => None), 0, 0, 0, map[], {}, [], 0, Running) }

  ghost predicate IsRun(s: State, actions: seq<Action>, s': State)
    decreases |actions|
  {
    if actions == [] then s == s'
    else Enabled(s, actions[0]) && IsRun(Next(s, actions[0]), actions[1..], s')
  }

  // ------------------------------------------------------------------ what is kept

  ghost function InUse(slots: Slots): set<int> { set k | 0 <= k < |slots| && slots[k].Some? }

  /** A call in a slot is waited for by the driver under that slot, and by nobody else. */
  ghost predicate SlotsOk(slots: Slots, deferred: map<int, CallId>) {
    && |slots| == MaxPending
    && deferred.Keys == InUse(slots)
    && (forall k :: k in deferred ==> 0 <= k < |slots| && slots[k] == Some(deferred[k]))
    && (forall j, k :: j in deferred && k in deferred && j != k ==> deferred[j] != deferred[k])
  }

  /** A call in a slot is held and not yet answered; an answered one got its own answer, once. */
  ghost predicate CallsOk(deferred: map<int, CallId>, held: set<CallId>, resolved: seq<(CallId, CallId)>, next: CallId) {
    && (forall k :: k in deferred ==> deferred[k] in held)
    && (forall c :: c in held ==> c < next)
    && (forall i :: 0 <= i < |resolved| ==> resolved[i].0 == resolved[i].1 && resolved[i].0 < next)
    && (forall i, k :: 0 <= i < |resolved| && k in deferred ==> deferred[k] != resolved[i].0)
    && (forall i, j :: 0 <= i < j < |resolved| ==> resolved[i].0 != resolved[j].0)
  }

  ghost predicate Inv(s: State) {
    && SlotsOk(s.slots, s.deferred) && CallsOk(s.deferred, s.held, s.resolved, s.nextCall)
    && s.pendingCount == |s.deferred.Keys|
    && s.deferredCount == |s.held|
    && (s.phase.Parked? && s.pendingCount == 0 ==> s.phase.delay > 0)
  }

  ghost function Range(n: nat): set<int> { if n == 0 then {} else Range(n - 1) + {n - 1} }

  lemma {:induction false} RangeSize(n: nat)
    ensures |Range(n)| == n && forall k :: k in Range(n) <==> 0 <= k < n
  {
    if n > 0 { RangeSize(n - 1); }
  }

  lemma SlotsFit(slots: Slots, deferred: map<int, CallId>)
    requires SlotsOk(slots, deferred)
    ensures |deferred.Keys| <= MaxPending
    ensures |deferred.Keys| == MaxPending <==> forall k :: 0 <= k < |slots| ==> slots[k].Some?
  {
    hide Range;
    RangeSize(MaxPending);
    SubsetSize(InUse(slots), Range(MaxPending));
    if |deferred.Keys| == MaxPending {
      assert forall k :: 0 <= k < |slots| ==> k in InUse(slots);
    } else {
      assert InUse(slots) != Range(MaxPending);
    }
  }

  lemma Pick<A>(keys: set<A>) returns (k: A)
    requires keys != {}
    ensures k in keys
  {
    k :| k in keys;
  }

  lemma {:induction false} ValuesFit(deferred: map<int, CallId>, held: set<CallId>)
    requires forall k :: k in deferred ==> deferred[k] in held
    requires forall j, k :: j in deferred && k in deferred && j != k ==> deferred[j] != deferred[k]
    ensures |deferred.Keys| <= |held|
    decreases |deferred.Keys|
  {
    if deferred.Keys != {} {
      var k := Pick(deferred.Keys);
      assert (deferred - {k}).Keys == deferred.Keys - {k};
      ValuesFit(deferred - {k}, held - {deferred[k]});
    }
  }

  /** At least as many promises are held as slots are in use. */
  lemma HeldCovers(s: State)
    requires Inv(s)
    ensures 0 <= s.pendingCount <= s.deferredCount && s.pendingCount <= MaxPending
  {
    SlotsFit(s.slots, s.deferred);
    ValuesFit(s.deferred, s.held);
  }

  lemma SlotsDefer(slots: Slots, deferred: map<int, CallId>, k: int, c: CallId)
    requires SlotsOk(slots, deferred) && 0 <= k < |slots| && slots[k].None? && forall j :: j in deferred ==> deferred[j] != c
    ensures SlotsOk(slots[k := Some(c)], deferred[k := c])
    ensures |deferred[k := c].Keys| == |deferred.Keys| + 1
  {
    assert InUse(slots[k := Some(c)]) == InUse(slots) + {k};
    assert deferred[k := c].Keys == deferred.Keys + {k} && k !in deferred;
  }

  lemma SlotsFree(slots: Slots, deferred: map<int, CallId>, k: int)
    requires SlotsOk(slots, deferred) && k in deferred
    ensures SlotsOk(slots[k := None], deferred - {k})
    ensures |(deferred - {k}).Keys| == |deferred.Keys| - 1
  {
    assert InUse(slots[k := None]) == InUse(slots) - {k};
    assert (deferred - {k}).Keys == deferred.Keys - {k};
  }

  lemma HostCallKeeps(s: State, defers: bool)
    requires Inv(s) && s.phase.Running?
    ensures Inv(HostCall(s, defers))
  {
    hide SlotsOk, CallsOk;
    var k := Reserve(s.slots);
    ReserveIsFirst(s.slots);
    CallsMore(s.deferred, s.held, s.resolved, s.nextCall, k);
    if k >= 0 && defers {
      SlotsDefer(s.slots, s.deferred, k, s.nextCall);
    }
  }

  lemma CallsMore(deferred: map<int, CallId>, held: set<CallId>, resolved: seq<(CallId, CallId)>, next: CallId, k: int)
    requires CallsOk(deferred, held, resolved, next)
    ensures CallsOk(deferred, held, resolved, next + 1)
    ensures CallsOk(deferred[k := next], held + {next}, resolved, next + 1)
    ensures next !in held && forall j :: j in deferred ==> deferred[j] != next
  {
  }

  /** An answer is delivered to a slot in use, and settles the promise of the call that reserved it. */
  lemma AnswerResolves(s: State, k: int)
    requires Inv(s) && Enabled(s, Answer(k))
    ensures 0 <= k < |s.slots| && s.slots[k] == Some(s.deferred[k])
    ensures Next(s, Answer(k)).resolved == s.resolved + [(s.deferred[k], s.deferred[k])]
  {
  }

  lemma AnswerKeeps(s: State, k: int)
    requires Inv(s) && Enabled(s, Answer(k))
    ensures Inv(Next(s, Answer(k)))
  {
    AnswerResolves(s, k);
    SlotsFree(s.slots, s.deferred, k);
    FreedDiffer(s.slots, s.deferred, k);
    hide SlotsOk, InUse;
  }

  lemma FreedDiffer(slots: Slots, deferred: map<int, CallId>, k: int)
    requires SlotsOk(slots, deferred) && k in deferred
    ensures forall j :: j in deferred && j != k ==> deferred[j] != deferred[k]
  {
  }

  lemma ReleaseKeeps(s: State, c: CallId)
    requires Inv(s) && Enabled(s, Release(c))
    ensures Inv(Next(s, Release(c)))
  {
    hide SlotsOk;
    var i :| 0 <= i < |s.resolved| && s.resolved[i].0 == c;
    assert forall k :: k in s.deferred ==> s.deferred[k] != s.resolved[i].0;
  }

  lemma Keeps(s: State, a: Action)
    requires Inv(s) && Enabled(s, a)
    ensures Inv(Next(s, a))
  {
    hide SlotsOk, HostCall, Resolve;
    match a
    case CallAsync(defers) => HostCallKeeps(s, defers);
    case CallGlobal(defers) => HostCallKeeps(s, defers);
    case Release(c) => ReleaseKeeps(s, c);
    case Answer(k) => AnswerKeeps(s, k);
    case _ =>
  }

  lemma {:induction false} RunKeeps(s: State, actions: seq<Action>, s': State)
    requires Inv(s) && IsRun(s, actions, s')
    ensures Inv(s')
    decreases |actions|
  {
    hide Inv, Next, Enabled;
    if actions != [] {
      Keeps(s, actions[0]);
      RunKeeps(Next(s, actions[0]), actions[1..], s');
    }
  }

  lemma StartHolds()
    ensures Inv(Start())
  {
    assert InUse(Start().slots) == {};
  }

  /** In every run: the driver waits for exactly the slots in use, `pendingCount` of them and at
      most 64; every answer went to the call that asked, once; the driver never finds the guest
      parked with nothing to wait on; and a call of fs.promises that reaches the host has a slot. */
  lemma EveryRun(actions: seq<Action>, s: State)
    requires IsRun(Start(), actions, s)
    ensures Inv(s)
    ensures s.deferred.Keys == InUse(s.slots) && s.pendingCount == |InUse(s.slots)| <= MaxPending
    ensures forall i :: 0 <= i < |s.resolved| ==> s.resolved[i].0 == s.resolved[i].1
    ensures forall i, j :: 0 <= i < j < |s.resolved| ==> s.resolved[i].0 != s.resolved[j].0
    ensures s.phase.Parked? ==> !(s.deferred == map[] && s.phase.delay < 0)
    ensures s.deferredCount < MaxPending ==> Reserve(s.slots) >= 0
  {
    hide IsRun, CallsOk;
    StartHolds();
    RunKeeps(Start(), actions, s);
    HeldCovers(s);
    Answered(s);
    if s.deferredCount < MaxPending { SomeFree(s); }
  }

  lemma Answered(s: State)
    ensures CallsOk(s.deferred, s.held, s.resolved, s.nextCall) ==> (forall i :: 0 <= i < |s.resolved| ==> s.resolved[i].0 == s.resolved[i].1)
    ensures CallsOk(s.deferred, s.held, s.resolved, s.nextCall) ==> (forall i, j :: 0 <= i < j < |s.resolved| ==> s.resolved[i].0 != s.resolved[j].0)
  {
  }

  /** The glue's count admits a call only while a slot is free. */
  lemma SomeFree(s: State)
    requires Inv(s) && s.deferredCount < MaxPending
    ensures Reserve(s.slots) >= 0
  {
    HeldCovers(s);
    ReserveIsFirst(s.slots);
    SlotsFit(s.slots, s.deferred);
  }

  /** `c` went to the lowest slot free, where the driver waits for it and the shim holds its promise. */
  ghost predicate Placed(s: State, s': State, c: CallId) {
    exists k: int ::
      && 0 <= k < 64 && k !in s.deferred && (forall j :: 0 <= j < k ==> j in s.deferred)
      && s'.deferred == s.deferred[k := c] && k < |s'.slots| && s'.slots[k] == Some(c)
      && s'.held == s.held + {c} && s'.resolved == s.resolved && s'.waiters == s.waiters
  }

  lemma HostCallPlaces(s: State)
    requires Inv(s) && Reserve(s.slots) >= 0
    ensures Placed(s, HostCall(s, true), s.nextCall)
  {
    var k := Reserve(s.slots);
    ReserveIsFirst(s.slots);
    assert forall j :: j in s.deferred <==> j in InUse(s.slots);
    assert 0 <= k < 64 && k !in s.deferred;
  }

  /** A call of fs.promises waits exactly while 64 promises are held; otherwise one that the host
      would answer later is placed, and any other is answered at once. */
  lemma AsyncPlaced(s: State, defers: bool)
    requires Inv(s) && s.phase.Running?
    ensures var s' := Next(s, CallAsync(defers));
      if |s.held| >= 64 then s' == s.(waiters := s.waiters + 1)
      else if defers then Placed(s, s', s.nextCall)
      else s' == s.(nextCall := s.nextCall + 1)
  {
    hide SlotsOk, CallsOk, Placed;
    if s.deferredCount < MaxPending {
      SomeFree(s);
      HostCallPlaces(s);
    }
  }

  /** A host global is never made to wait: with all 64 slots in use it is answered at once. */
  lemma GlobalPlaced(s: State, defers: bool)
    requires Inv(s) && s.phase.Running?
    ensures var s' := Next(s, CallGlobal(defers));
      if defers && |s.deferred.Keys| < 64 then Placed(s, s', s.nextCall) else s' == s.(nextCall := s.nextCall + 1)
  {
    hide SlotsOk, CallsOk, Placed, Reserve;
    SlotsFit(s.slots, s.deferred);
    ReserveIsFirst(s.slots);
    if Reserve(s.slots) >= 0 { HostCallPlaces(s); }
  }

  /** The driver waits for the answer, or it has been delivered. */
  ghost predicate Accounted(deferred: map<int, CallId>, resolved: seq<(CallId, CallId)>, c: CallId) {
    (exists k :: k in deferred && deferred[k] == c) || (exists i :: 0 <= i < |resolved| && resolved[i].0 == c)
  }

  ghost predicate AllAccounted(s: State) { forall c :: c in s.held ==> Accounted(s.deferred, s.resolved, c) }

  lemma PlacedAccounts(s: State, s': State, c: CallId)
    requires Placed(s, s', c) && AllAccounted(s)
    ensures AllAccounted(s')
  {
    var k: int :| 0 <= k < 64 && k !in s.deferred && s'.deferred == s.deferred[k := c] && s'.resolved == s.resolved && s'.held == s.held + {c};
    forall d | d in s'.held ensures Accounted(s'.deferred, s'.resolved, d) {
      if d == c {
        assert s'.deferred[k] == d;
      } else if j :| j in s.deferred && s.deferred[j] == d {
        assert s'.deferred[j] == d;
      }
    }
  }

  lemma AnswerAccounts(s: State, k: int)
    requires Inv(s) && Enabled(s, Answer(k)) && AllAccounted(s)
    ensures AllAccounted(Next(s, Answer(k)))
  {
    var s' := Next(s, Answer(k));
    AnswerResolves(s, k);
    var last := |s.resolved|;
    assert s'.resolved[last].0 == s.deferred[k];
    forall c | c in s'.held ensures Accounted(s'.deferred, s'.resolved, c) {
      if j :| j in s.deferred && s.deferred[j] == c {
        if j != k { assert s'.deferred[j] == c; }
      } else {
        var i :| 0 <= i < last && s.resolved[i].0 == c;
        assert s'.resolved[i].0 == c;
      }
    }
  }

  lemma Accounts(s: State, a: Action)
    requires Inv(s) && Enabled(s, a) && AllAccounted(s)
    ensures AllAccounted(Next(s, a))
  {
    hide Inv, HostCall, Resolve, Placed, Accounted;
    match a
    case CallAsync(defers) =>
      AsyncPlaced(s, defers);
      if defers && |s.held| < 64 { PlacedAccounts(s, Next(s, a), s.nextCall); }
    case CallGlobal(defers) =>
      GlobalPlaced(s, defers);
      if defers && |s.deferred.Keys| < 64 { PlacedAccounts(s, Next(s, a), s.nextCall); }
    case Answer(k) => AnswerAccounts(s, k);
    case _ =>
  }

  lemma {:induction false} RunAccounts(s: State, actions: seq<Action>, s': State)
    requires Inv(s) && AllAccounted(s) && IsRun(s, actions, s')
    ensures AllAccounted(s')
    decreases |actions|
  {
    hide Inv, Next, Enabled, AllAccounted;
    if actions != [] {
      Keeps(s, actions[0]);
      Accounts(s, actions[0]);
      RunAccounts(Next(s, actions[0]), actions[1..], s');
    }
  }

  /** The session is never stuck: a running guest can call, let go of each promise that is settled,
      and park with a call pending or a timer ahead; a parked one can be given every answer it waits
      for and woken by every timer, and there is at least one of these. */
  lemma NeverStuck(actions: seq<Action>, s: State)
    requires IsRun(Start(), actions, s)
    ensures s.phase.Running? ==> forall b :: Enabled(s, CallAsync(b)) && Enabled(s, CallGlobal(b))
    ensures s.phase.Running? ==> forall i :: 0 <= i < |s.resolved| && s.resolved[i].0 in s.held ==> Enabled(s, Release(s.resolved[i].0))
    ensures s.phase.Running? ==> forall d: int :: d > 0 || s.deferred != map[] ==> Enabled(s, Park(d))
    ensures s.phase.Parked? ==> forall k :: k in s.deferred ==> Enabled(s, Answer(k))
    ensures s.phase.Parked? && s.phase.delay >= 0 ==> Enabled(s, Wake)
    ensures s.phase.Parked? ==> s.deferred != map[] || s.phase.delay > 0
  {
    hide IsRun, SlotsOk, CallsOk;
    StartHolds();
    RunKeeps(Start(), actions, s);
    assert s.deferred.Keys == {} ==> s.deferred == map[];
  }

  /** No promise is lost: in every run, each one held is waited for or has its own answer. */
  lemma NothingLost(actions: seq<Action>, s: State, c: CallId)
    requires IsRun(Start(), actions, s) && c in s.held
    ensures Accounted(s.deferred, s.resolved, c)
  {
    hide IsRun, Inv, Accounted;
    StartHolds();
    RunAccounts(Start(), actions, s);
  }

  // ------------------------------------------------------------------- the shim

  /** `tb_session`'s slots, in place. */
  class Session {
    const pending: array<Option<CallId>>
    var pendingCount: int

    ghost predicate Valid()
      reads this, pending
    {
      pending.Length == MaxPending && pendingCount == |InUse(pending[..])|
    }

    constructor ()
      ensures Valid() && fresh(pending) && pending[..] == Start().slots && pendingCount == 0
    {
      pending := new Option<CallId>[MaxPending](_ => None);
      pendingCount := 0;
      new;
      assert pending[..] == Start().slots;
      assert InUse(pending[..]) == {};
    }

    method ReserveSlot() returns (i: int)
      requires Valid()
      ensures i == Reserve(pending[..])
    {
      ReserveIsFirst(pending[..]);
      i := 0;
      while i < MaxPending
        invariant 0 <= i <= MaxPending && forall k :: 0 <= k < i ==> pending[k].Some?
      {
        if pending[i].None? { return; }
        i := i + 1;
      }
      i := NoSlot;
    }

    /** A deferrable host call: `c` gets the slot reserved for it, if the host defers. */
    method HostCall(c: CallId, defers: bool) returns (slot: int)
      requires Valid()
      modifies this`pendingCount, pending
      ensures Valid() && slot == Reserve(old(pending[..])) && slot < MaxPending
      ensures pending[..] == if slot >= 0 && defers then old(pending[..])[slot := Some(c)] else old(pending[..])
      ensures pendingCount == old(pendingCount) + if slot >= 0 && defers then 1 else 0
    {
      slot := ReserveSlot();
      ReserveIsFirst(pending[..]);
      if slot >= 0 && defers {
        ghost var was := pending[..];
        pending[slot] := Some(c);
        assert pending[..] == was[slot := Some(c)];
        assert InUse(pending[..]) == InUse(was) + {slot};
        pendingCount := pendingCount + 1;
      }
    }

    /** Frees the slot and gives the promise to settle; refuses a slot that is not in use. */
    method Resolve(k: int) returns (promise: Option<CallId>)
      requires Valid()
      modifies this`pendingCount, pending
      ensures Valid()
      ensures promise == if 0 <= k < MaxPending then old(pending[..])[k] else None
      ensures pending[..] == if promise.Some? then old(pending[..])[k := None] else old(pending[..])
      ensures pendingCount == old(pendingCount) - if promise.Some? then 1 else 0
    {
      if k < 0 || k >= MaxPending || pending[k].None? { return None; }
      promise := pending[k];
      ghost var was := pending[..];
      pending[k] := None;
      assert pending[..] == was[k := None];
      assert InUse(pending[..]) == InUse(was) - {k} && k in InUse(was);
      pendingCount := pendingCount - 1;
    }
  }
}
