/** Admission, ownership and cancellation of file handles, as steps that may interleave in any
    order: src/sandbox/fs.rs, src/sandbox/control.rs and src/sandbox/pools.rs. */
module Handles {
  import opened Base

  type ExecId = nat
  type RegId = nat
  type OpenId = nat
  type CancelId = nat
  type Handle = nat

  /** One `Fs::open` in flight, by what it will do next. */
  datatype OpenPc =
    | PoolHeld             // the pool counted it; the execution has not
    | Passed               // the execution was not cancelled when asked; its counter is next
    | Giving               // refused: the pool's count must be given back
    | Reserved             // counted by both
    | Undoing              // the backend refused: give the pool's count back, then
    | HalfUndone           //   the execution's
    | Opened(h: Handle)    // the backend opened `h`
    | Inserted(h: Handle)  // `h` is registered; the flag is still to be read
    | Doomed(h: Handle)    // the flag was set: withdraw `h`
    | Handoff(h: Handle)   // the result is on its way to the caller

  datatype Open = Open(reg: RegId, pc: OpenPc)

  /** What is left to do for a handle taken out of its registry. */
  datatype JobPc =
    | Deciding(abort: bool)     // `finish`, about to read the flag
    | Decided(publish: bool)    // close, or abort
    | Ended                     // the backend is done with it
    | HalfReleased              // the pool's count is given back

  datatype Job = Job(exec: Option<ExecId>, pc: JobPc)

  /** A `cancel` call: flag set, or sweeping the registries it took. */
  datatype CancelPc = Flagged | Sweeping(todo: set<RegId>)
  datatype Cancel = Cancel(exec: ExecId, pc: CancelPc)

  datatype Exec = Exec(limit: nat, openFiles: int, cancelled: bool, expired: bool, listed: set<RegId>)

  datatype Registry = Registry(exec: Option<ExecId>, alive: bool)

  /** `files` maps each registered handle to its registry. `ends` counts the backend's closes
      and aborts, and `published` are the closed ones. */
  datatype State = State(
    poolCap: nat,
    poolOpen: int,
    execs: map<ExecId, Exec>,
    regs: map<RegId, Registry>,
    files: map<Handle, RegId>,
    opens: map<OpenId, Open>,
    jobs: map<Handle, Job>,
    cancels: map<CancelId, Cancel>,
    nextHandle: Handle,
    ends: multiset<Handle>,
    published: set<Handle>)

  datatype OpenStep =
    | CheckExec | Acquire | GiveUp | BackendOpen(ok: bool) | UndoPool | UndoExec
    | Insert | ReadFlag | Withdraw | Deliver

  datatype JobStep = Decide | End | ReleasePool | ReleaseExec

  datatype CancelStep = TakeList | Sweep(r: RegId) | Return

  datatype Action =
    | NewExec(e: ExecId, limit: nat)
    | NewRegistry(r: RegId, exec: Option<ExecId>)
    | DropRegistry(r: RegId)
    | Begin(o: OpenId, r: RegId)
    | OpenDoes(o: OpenId, open: OpenStep)
    | Finish(r: RegId, h: Handle, abort: bool)
    | Abandon(r: RegId, h: Handle)
    | JobDoes(h: Handle, job: JobStep)
    | Expire(e: ExecId)
    | CancelStart(c: CancelId, e: ExecId)
    | CancelDoes(c: CancelId, cancel: CancelStep)

  /** Which execution a registry belongs to; none for the host's own filesystem. */
  function ExecOf(s: State, r: RegId): Option<ExecId> {
    if r in s.regs then s.regs[r].exec else None
  }

  /** `is_cancelled`: the flag, or the deadline. */
  predicate IsCancelled(s: State, x: Option<ExecId>) {
    x.Some? && x.value in s.execs && (s.execs[x.value].cancelled || s.execs[x.value].expired)
  }

  function Charge(s: State, x: Option<ExecId>, n: int): State {
    if x.Some? && x.value in s.execs
    then s.(execs := s.execs[x.value := s.execs[x.value].(openFiles := s.execs[x.value].openFiles + n)])
    else s
  }

  function SetPc(s: State, o: OpenId, pc: OpenPc): State
    requires o in s.opens
  {
    s.(opens := s.opens[o := s.opens[o].(pc := pc)])
  }

  /** Taking a handle out of its registry hands it to a job, exactly if it was still in. */
  function Take(s: State, r: RegId, h: Handle, pc: JobPc): State {
    if h in s.files && s.files[h] == r
    then s.(files := s.files - {h}, jobs := s.jobs[h := Job(ExecOf(s, r), pc)])
    else s
  }

  ghost function FilesIn(s: State, r: RegId): set<Handle> {
    set h | h in s.files && s.files[h] == r
  }

  /** `abandon_all`, and the drop of a registry: every handle in it goes to cleanup. */
  ghost function TakeAll(s: State, r: RegId): State {
    var hs := FilesIn(s, r);
    s.(files := s.files - hs, jobs := WithJobs(s.jobs, hs, Job(ExecOf(s, r), Decided(false))))
  }

  ghost function WithJobs(jobs: map<Handle, Job>, hs: set<Handle>, j: Job): map<Handle, Job> {
    map h | h in jobs.Keys + hs :: if h in hs then j else jobs[h]
  }

  predicate OpenReady(pc: OpenPc, step: OpenStep) {
    match step
    case CheckExec => pc.PoolHeld?
    case Acquire => pc.Passed?
    case GiveUp => pc.Giving?
    case BackendOpen(_) => pc.Reserved?
    case UndoPool => pc.Undoing?
    case UndoExec => pc.HalfUndone?
    case Insert => pc.Opened?
    case ReadFlag => pc.Inserted?
    case Withdraw => pc.Doomed?
    case Deliver => pc.Handoff?
  }

  predicate JobReady(pc: JobPc, step: JobStep) {
    match step
    case Decide => pc.Deciding?
    case End => pc.Decided?
    case ReleasePool => pc.Ended?
    case ReleaseExec => pc.HalfReleased?
  }

  predicate CancelReady(pc: CancelPc, step: CancelStep) {
    match step
    case TakeList => pc.Flagged?
    case Sweep(r) => pc.Sweeping? && r in pc.todo
    case Return => pc == Sweeping({})
  }

  ghost predicate Enabled(s: State, a: Action) {
    match a
    case NewExec(e, _) => e !in s.execs
    case NewRegistry(r, x) => r !in s.regs && (x.Some? ==> x.value in s.execs)
    case DropRegistry(r) => r in s.regs && s.regs[r].alive && forall o :: o in s.opens ==> s.opens[o].reg != r
    case Begin(o, r) => o !in s.opens && r in s.regs && s.regs[r].alive && s.poolOpen < s.poolCap
    case OpenDoes(o, step) => o in s.opens && OpenReady(s.opens[o].pc, step)
    case Finish(r, h, _) => r in s.regs && s.regs[r].alive
    case Abandon(r, h) => r in s.regs && s.regs[r].alive
    case JobDoes(h, step) => h in s.jobs && JobReady(s.jobs[h].pc, step)
    case Expire(e) => e in s.execs
    case CancelStart(c, e) => c !in s.cancels && e in s.execs
    case CancelDoes(c, step) => c in s.cancels && s.cancels[c].exec in s.execs && CancelReady(s.cancels[c].pc, step)
  }

  function NextOpen(s: State, o: OpenId, step: OpenStep): State
    requires o in s.opens && OpenReady(s.opens[o].pc, step)
  {
    var x := ExecOf(s, s.opens[o].reg);
    match step
    case CheckExec => SetPc(s, o, if x.None? then Reserved else if IsCancelled(s, x) then Giving else Passed)
    case Acquire =>
      if x.Some? && x.value in s.execs && s.execs[x.value].openFiles < s.execs[x.value].limit
      then SetPc(Charge(s, x, 1), o, Reserved) else SetPc(s, o, Giving)
    case GiveUp => s.(poolOpen := s.poolOpen - 1, opens := s.opens - {o})
    case BackendOpen(ok) =>
      if ok then SetPc(s, o, Opened(s.nextHandle)).(nextHandle := s.nextHandle + 1) else SetPc(s, o, Undoing)
    case UndoPool => SetPc(s, o, HalfUndone).(poolOpen := s.poolOpen - 1)
    case UndoExec => Charge(s, x, -1).(opens := s.opens - {o})
    case Insert => SetPc(s, o, Inserted(s.opens[o].pc.h)).(files := s.files[s.opens[o].pc.h := s.opens[o].reg])
    case ReadFlag => SetPc(s, o, if IsCancelled(s, x) then Doomed(s.opens[o].pc.h) else Handoff(s.opens[o].pc.h))
    case Withdraw => Take(s, s.opens[o].reg, s.opens[o].pc.h, Decided(false)).(opens := s.opens - {o})
    case Deliver => s.(opens := s.opens - {o})
  }

  function NextJob(s: State, h: Handle, step: JobStep): State
    requires h in s.jobs && JobReady(s.jobs[h].pc, step)
  {
    var j := s.jobs[h];
    match step
    case Decide => s.(jobs := s.jobs[h := j.(pc := Decided(!(j.pc.abort || IsCancelled(s, j.exec))))])
    case End =>
      s.(jobs := s.jobs[h := j.(pc := Ended)], ends := s.ends + multiset{h},
         published := if j.pc.publish then s.published + {h} else s.published)
    case ReleasePool => s.(poolOpen := s.poolOpen - 1, jobs := s.jobs[h := j.(pc := HalfReleased)])
    case ReleaseExec => Charge(s, j.exec, -1).(jobs := s.jobs - {h})
  }

  ghost function NextCancel(s: State, c: CancelId, step: CancelStep): State
    requires c in s.cancels && s.cancels[c].exec in s.execs && CancelReady(s.cancels[c].pc, step)
  {
    var e := s.cancels[c].exec;
    match step
    case TakeList =>
      s.(cancels := s.cancels[c := Cancel(e, Sweeping(s.execs[e].listed))],
         execs := s.execs[e := s.execs[e].(listed := {})])
    case Sweep(r) => TakeAll(s, r).(cancels := s.cancels[c := Cancel(e, Sweeping(s.cancels[c].pc.todo - {r}))])
    case Return => s.(cancels := s.cancels - {c})
  }

  ghost function Next(s: State, a: Action): State
    requires Enabled(s, a)
  {
    match a
    case NewExec(e, limit) => s.(execs := s.execs[e := Exec(limit, 0, false, false, {})])
    case NewRegistry(r, x) =>
      var s1 := s.(regs := s.regs[r := Registry(x, true)]);
      if x.None? then s1
      else s1.(execs := s.execs[x.value := s.execs[x.value].(listed := s.execs[x.value].listed + {r})])
    case DropRegistry(r) => TakeAll(s, r).(regs := s.regs[r := s.regs[r].(alive := false)])
    case Begin(o, r) => s.(poolOpen := s.poolOpen + 1, opens := s.opens[o := Open(r, PoolHeld)])
    case OpenDoes(o, step) => NextOpen(s, o, step)
    case Finish(r, h, abort) => Take(s, r, h, Deciding(abort))
    case Abandon(r, h) => Take(s, r, h, Decided(false))
    case JobDoes(h, step) => NextJob(s, h, step)
    case Expire(e) => s.(execs := s.execs[e := s.execs[e].(expired := true)])
    case CancelStart(c, e) =>
      s.(execs := s.execs[e := s.execs[e].(cancelled := true)], cancels := s.cancels[c := Cancel(e, Flagged)])
    case CancelDoes(c, step) => NextCancel(s, c, step)
  }

  function Start(cap: nat): State {
    State(cap, 0, map[], map[], map[], map[], map[], map[], 0, multiset{}, {})
  }

  ghost predicate IsRun(s: State, actions: seq<Action>, s': State)
    decreases |actions|
  {
    if actions == [] then s == s'
    else Enabled(s, actions[0]) && IsRun(Next(s, actions[0]), actions[1..], s')
  }

  // ------------------------------------------------------------------ the counts

  /** Opens the pool counts that have no registered handle yet. */
  predicate OpenInPool(pc: OpenPc) {
    pc.PoolHeld? || pc.Passed? || pc.Giving? || pc.Reserved? || pc.Undoing? || pc.Opened?
  }

  predicate OpenInExec(pc: OpenPc) { pc.Reserved? || pc.Undoing? || pc.HalfUndone? || pc.Opened? }

  ghost function InPool(opens: map<OpenId, Open>): set<OpenId> { set o | o in opens && OpenInPool(opens[o].pc) }
  ghost function Unreleased(jobs: map<Handle, Job>): set<Handle> { set h | h in jobs && jobs[h].pc != HalfReleased }

  ghost predicate PoolOn(cap: nat, n: int, opens: map<OpenId, Open>, files: map<Handle, RegId>, jobs: map<Handle, Job>) {
    n == |InPool(opens)| + |files.Keys| + |Unreleased(jobs)| <= cap
  }

  /** The pool's counter is opens not yet registered, plus handles registered, plus handles
      taken out and not yet released. */
  ghost predicate PoolInv(s: State) { PoolOn(s.poolCap, s.poolOpen, s.opens, s.files, s.jobs) }

  type Registries = map<RegId, Registry>

  predicate Belongs(regs: Registries, r: RegId, e: ExecId) { r in regs && regs[r].exec == Some(e) }

  ghost function ExecOpens(opens: map<OpenId, Open>, regs: Registries, e: ExecId): set<OpenId> {
    set o | o in opens && OpenInExec(opens[o].pc) && Belongs(regs, opens[o].reg, e)
  }
  ghost function ExecFiles(files: map<Handle, RegId>, regs: Registries, e: ExecId): set<Handle> {
    set h | h in files && Belongs(regs, files[h], e)
  }
  ghost function ExecJobs(jobs: map<Handle, Job>, e: ExecId): set<Handle> { set h | h in jobs && jobs[h].exec == Some(e) }

  ghost predicate ExecOn(x: Exec, opens: map<OpenId, Open>, files: map<Handle, RegId>, jobs: map<Handle, Job>, regs: Registries, e: ExecId) {
    x.openFiles == |ExecOpens(opens, regs, e)| + |ExecFiles(files, regs, e)| + |ExecJobs(jobs, e)| <= x.limit
  }

  ghost predicate ExecInvAt(s: State, e: ExecId) {
    e in s.execs ==> ExecOn(s.execs[e], s.opens, s.files, s.jobs, s.regs, e)
  }

  /** And so for each execution's counter, over its own opens, handles and jobs. */
  ghost predicate ExecInv(s: State) { forall e :: ExecInvAt(s, e) }

  /** Handles the backend opened that are not registered yet. */
  ghost function Unregistered(opens: map<OpenId, Open>): set<Handle> {
    set o | o in opens && opens[o].pc.Opened? :: opens[o].pc.h
  }

  predicate HasEnded(pc: JobPc) { pc.Ended? || pc.HalfReleased? }

  /** A handle is in one place at a time: not registered yet, registered, with a job, or gone;
      and the backend ended it exactly once, with its job, before it was gone. */
  ghost predicate Places(next: Handle, opens: map<OpenId, Open>, files: map<Handle, RegId>,
                         jobs: map<Handle, Job>, ends: multiset<Handle>) {
    && (forall o :: o in opens && opens[o].pc.Opened? ==>
          opens[o].pc.h < next && opens[o].pc.h !in files && opens[o].pc.h !in jobs && ends[opens[o].pc.h] == 0)
    && (forall o, o' :: o in opens && o' in opens && o != o' && opens[o].pc.Opened? && opens[o'].pc.Opened? ==>
          opens[o].pc.h != opens[o'].pc.h)
    && (forall h :: h in files ==> h < next && h !in jobs && ends[h] == 0)
    && (forall h :: h in jobs ==> h < next && ends[h] == if HasEnded(jobs[h].pc) then 1 else 0)
    && (forall h :: h in ends ==> h < next)
    && (forall h: Handle :: h < next && h !in files && h !in jobs && h !in Unregistered(opens) ==> ends[h] == 1)
  }

  /** Opens and handles belong to live registries, and registries and jobs to known executions. */
  ghost predicate Known(opens: map<OpenId, Open>, files: map<Handle, RegId>, jobs: map<Handle, Job>,
                        regs: Registries, execs: map<ExecId, Exec>) {
    && (forall o :: o in opens ==> opens[o].reg in regs && regs[opens[o].reg].alive)
    && (forall h :: h in files ==> files[h] in regs && regs[files[h]].alive)
    && (forall r :: r in regs && regs[r].exec.Some? ==> regs[r].exec.value in execs)
    && (forall h :: h in jobs && jobs[h].exec.Some? ==> jobs[h].exec.value in execs)
  }

  ghost predicate PlaceInv(s: State) {
    && Places(s.nextHandle, s.opens, s.files, s.jobs, s.ends)
    && Known(s.opens, s.files, s.jobs, s.regs, s.execs)
  }
}
