/** What closing, aborting and opening come to when nothing stops them, over any run. */
module HandlePublish {
  import opened Base
  import opened Handles
  import opened HandleProofs
  import opened HandleRuns
  import opened HandleForever

  /** The execution, if there is one, is neither cancelled nor past its deadline. */
  predicate Going(s: State, x: Option<ExecId>) {
    x.Some? ==> x.value in s.execs && !s.execs[x.value].cancelled && !s.execs[x.value].expired
  }

  /** Its flag is up, or its deadline has passed. */
  predicate Stopped(s: State, x: Option<ExecId>) {
    x.Some? && x.value in s.execs && (s.execs[x.value].cancelled || s.execs[x.value].expired)
  }

  // ------------------------------------------------------------------- one at a time

  /** Finishing takes a registered handle out, to be closed or aborted as asked; one that is not
      registered there is refused, and nothing changes. */
  lemma FinishTakes(s: State, r: RegId, h: Handle, abort: bool)
    requires Enabled(s, Finish(r, h, abort))
    ensures var s' := Next(s, Finish(r, h, abort));
      if h in s.files && s.files[h] == r
      then h !in s'.files && h in s'.jobs && s'.jobs[h] == Job(s.regs[r].exec, Deciding(abort)) && s'.published == s.published
      else s' == s
  {
  }

  /** It is closed exactly if that was asked and nothing has stopped the execution by then. */
  lemma DecideCloses(s: State, h: Handle)
    requires h in s.jobs && s.jobs[h].pc.Deciding? && (s.jobs[h].exec.Some? ==> s.jobs[h].exec.value in s.execs)
    ensures var s' := Next(s, JobDoes(h, Decide));
      && h in s'.jobs && s'.jobs[h].exec == s.jobs[h].exec
      && (s'.jobs[h].pc == Decided(true) <==> s.jobs[h].pc == Deciding(false) && Going(s, s.jobs[h].exec))
      && (s'.jobs[h].pc == Decided(false) <==> s.jobs[h].pc == Deciding(true) || Stopped(s, s.jobs[h].exec))
  {
  }

  /** What a job's step does to the record of what was ended and published. */
  lemma JobRecords(s: State, k: Handle, step: JobStep)
    requires k in s.jobs && JobReady(s.jobs[k].pc, step)
    ensures var s' := NextJob(s, k, step);
      && s'.ends == (if step.End? then s.ends + multiset{k} else s.ends)
      && s'.published == (if step.End? && s.jobs[k].pc == Decided(true) then s.published + {k} else s.published)
  {
    hide IsCancelled;
  }

  lemma OthersRecord(s: State, a: Action)
    requires Enabled(s, a) && !a.JobDoes?
    ensures Next(s, a).ends == s.ends && Next(s, a).published == s.published
  {
    hide TakeAll, Take, NextOpen, OpenReady, JobReady, CancelReady;
    match a
    case OpenDoes(o, step) => OpenRecords(s, o, step);
    case Finish(r, h, abort) => TakeFrame(s, r, h, Deciding(abort));
    case Abandon(r, h) => TakeFrame(s, r, h, Decided(false));
    case DropRegistry(r) => TakeAllFrame(s, r);
    case CancelDoes(_, step) => if step.Sweep? { TakeAllFrame(s, step.r); }
    case _ =>
  }

  lemma OpenRecords(s: State, o: OpenId, step: OpenStep)
    requires o in s.opens && OpenReady(s.opens[o].pc, step)
    ensures NextOpen(s, o, step).ends == s.ends && NextOpen(s, o, step).published == s.published
  {
    hide ExecOf, IsCancelled, Charge;
    match step
    case Acquire => ChargeKeys(s, ExecOf(s, s.opens[o].reg), 1);
    case UndoExec => ChargeKeys(s, ExecOf(s, s.opens[o].reg), -1);
    case _ =>
  }

  /** A job is moved on only by its own steps. */
  lemma JobStays(s: State, a: Action, h: Handle)
    requires PlaceInv(s) && Enabled(s, a) && h in s.jobs && !(a.JobDoes? && a.h == h)
    ensures h in Next(s, a).jobs && Next(s, a).jobs[h] == s.jobs[h]
  {
    hide PlaceInv, TakeAll, NextOpen, NextJob, OpenReady, JobReady, CancelReady, ExecOf;
    Apart(s);
    match a
    case OpenDoes(o, step) => OpenLeavesJob(s, o, step, h);
    case JobDoes(k, step) => JobFrame(s, k, step);
    case DropRegistry(r) => TakeAllLeaves(s, r, h);
    case CancelDoes(_, step) => if step.Sweep? { TakeAllLeaves(s, step.r, h); }
    case _ =>
  }

  lemma OpenLeavesJob(s: State, o: OpenId, step: OpenStep, h: Handle)
    requires o in s.opens && OpenReady(s.opens[o].pc, step) && h in s.jobs && h !in s.files
    ensures h in NextOpen(s, o, step).jobs && NextOpen(s, o, step).jobs[h] == s.jobs[h]
  {
    hide NextOpen, ExecOf;
    OpenFrame(s, o, step);
    if step.Withdraw? { WithdrawFrame(s, o); }
  }

  lemma TakeAllLeaves(s: State, r: RegId, h: Handle)
    requires h in s.jobs && h !in s.files
    ensures TakeAll(s, r) == s.(files := TakeAll(s, r).files, jobs := TakeAll(s, r).jobs)
    ensures h in TakeAll(s, r).jobs && TakeAll(s, r).jobs[h] == s.jobs[h]
  {
  }

  // ---------------------------------------------------------------- over any run

  /** `h` is published, or a close of it has been decided and not carried out. */
  predicate Closing(s: State, h: Handle) { h in s.published || (h in s.jobs && s.jobs[h].pc == Decided(true) && s.ends[h] == 0) }

  lemma ClosingKeeps(s: State, a: Action, h: Handle)
    requires PlaceInv(s) && Enabled(s, a) && Closing(s, h)
    ensures Closing(Next(s, a), h)
  {
    hide PlaceInv, NextJob, NextOpen, TakeAll, Take, NextCancel;
    if a.JobDoes? {
      JobRecords(s, a.h, a.job);
      if a.h != h && h in s.jobs { JobStays(s, a, h); }
    } else {
      OthersRecord(s, a);
      if h in s.jobs { JobStays(s, a, h); }
    }
  }

  lemma {:induction false} ClosingLasts(s: State, actions: seq<Action>, s': State, h: Handle)
    requires Inv(s) && IsRun(s, actions, s') && Closing(s, h)
    ensures Closing(s', h)
    decreases |actions|
  {
    hide Closing, PoolInv, ExecInv, PlaceInv, CancelInv, CancelsOn, Next, Enabled;
    if actions != [] {
      ClosingKeeps(s, actions[0], h);
      Keeps(s, actions[0]);
      ClosingLasts(Next(s, actions[0]), actions[1..], s', h);
    }
  }

  lemma DecideStarts(s: State, h: Handle)
    requires PlaceInv(s) && h in s.jobs && s.jobs[h].pc == Deciding(false) && Going(s, s.jobs[h].exec)
    ensures Enabled(s, JobDoes(h, Decide)) && Closing(Next(s, JobDoes(h, Decide)), h)
  {
    hide Places, Known;
    NotEnded(s, h);
    Registered(s);
    DecideCloses(s, h);
    JobRecords(s, h, Decide);
  }

  lemma NotEnded(s: State, h: Handle)
    requires PlaceInv(s) && h in s.jobs && !HasEnded(s.jobs[h].pc)
    ensures s.ends[h] == 0
  {
  }

  /** A close that is decided while its execution is going publishes: whatever happens after, once
      the backend is done with the handle it is published. */
  lemma ClosePublishes(s: State, h: Handle, mid: State, actions: seq<Action>, s': State)
    requires Inv(s) && h in s.jobs && s.jobs[h].pc == Deciding(false) && Going(s, s.jobs[h].exec)
    requires IsRun(s, [JobDoes(h, Decide)], mid) && IsRun(mid, actions, s')
    ensures s'.ends[h] >= 1 ==> h in s'.published
    ensures h !in s'.published ==> h in s'.jobs && s'.jobs[h].pc == Decided(true)
  {
    hide PoolInv, ExecInv, PlaceInv, CancelInv, CancelsOn, Next, Enabled;
    var a := JobDoes(h, Decide);
    DecideStarts(s, h);
    assert [a][1..] == [] && mid == Next(s, a);
    Keeps(s, a);
    ClosingLasts(mid, actions, s', h);
  }

  // ------------------------------------------------------------------------- aborts

  /** `h` is being aborted, or is gone without having been published. */
  ghost predicate Aborting(s: State, h: Handle) {
    && h < s.nextHandle && h !in s.published && h !in s.files
    && (h in s.jobs ==> s.jobs[h].pc != Deciding(false) && s.jobs[h].pc != Decided(true))
    && forall o :: o in s.opens ==> s.opens[o].pc != Opened(h)
  }

  lemma AbortingKeeps(s: State, a: Action, h: Handle)
    requires PlaceInv(s) && Enabled(s, a) && Aborting(s, h)
    ensures Aborting(Next(s, a), h)
  {
    hide PlaceInv, TakeAll, NextOpen, NextJob, OpenReady, JobReady, CancelReady, ExecOf;
    match a
    case OpenDoes(o, step) => OpenKeepsAborting(s, o, step, h);
    case JobDoes(k, step) => JobKeepsAborting(s, k, step, h);
    case DropRegistry(r) => SweepKeepsAborting(s, r, h);
    case CancelDoes(_, step) => if step.Sweep? { SweepKeepsAborting(s, step.r, h); }
    case _ =>
  }

  lemma OpenKeepsAborting(s: State, o: OpenId, step: OpenStep, h: Handle)
    requires Aborting(s, h) && o in s.opens && OpenReady(s.opens[o].pc, step)
    ensures Aborting(NextOpen(s, o, step), h)
  {
    hide NextOpen, ExecOf;
    OpenFrame(s, o, step);
    OpenMints(s, o, step);
  }

  lemma JobKeepsAborting(s: State, k: Handle, step: JobStep, h: Handle)
    requires Aborting(s, h) && k in s.jobs && JobReady(s.jobs[k].pc, step)
    ensures Aborting(NextJob(s, k, step), h)
  {
    hide NextJob;
    JobRecords(s, k, step);
    JobFrame(s, k, step);
    JobFlags(s, k, step);
    JobNotAsked(s, k, step, h);
    JobNotDecided(s, k, step, h);
  }

  lemma JobNotDecided(s: State, k: Handle, step: JobStep, h: Handle)
    requires k in s.jobs && JobReady(s.jobs[k].pc, step)
    requires h in s.jobs ==> s.jobs[h].pc != Deciding(false) && s.jobs[h].pc != Decided(true)
    ensures h in NextJob(s, k, step).jobs ==> NextJob(s, k, step).jobs[h].pc != Decided(true)
  {
    hide IsCancelled;
  }

  lemma SweepKeepsAborting(s: State, r: RegId, h: Handle)
    requires Aborting(s, h)
    ensures Aborting(TakeAll(s, r), h)
    ensures TakeAll(s, r) == s.(files := TakeAll(s, r).files, jobs := TakeAll(s, r).jobs)
  {
  }

  /** An abort, or a handle left to cleanup, is never published. */
  lemma {:induction false} AbortNeverPublishes(s: State, actions: seq<Action>, s': State, h: Handle)
    requires Inv(s) && IsRun(s, actions, s') && Aborting(s, h)
    ensures h !in s'.published
    decreases |actions|
  {
    hide PoolInv, ExecInv, PlaceInv, CancelInv, CancelsOn, Next, Enabled;
    if actions != [] {
      AbortingKeeps(s, actions[0], h);
      Keeps(s, actions[0]);
      AbortNeverPublishes(Next(s, actions[0]), actions[1..], s', h);
    }
  }

  /** Abandoning takes the handle out to be aborted, and so does the drop of its registry. */
  lemma AbandonAborts(s: State, r: RegId, h: Handle)
    requires h in s.files && s.files[h] == r && r in s.regs
    ensures Enabled(s, Abandon(r, h)) ==> Next(s, Abandon(r, h)).jobs == s.jobs[h := Job(s.regs[r].exec, Decided(false))]
    ensures Enabled(s, DropRegistry(r)) ==>
      h in Next(s, DropRegistry(r)).jobs && Next(s, DropRegistry(r)).jobs[h] == Job(s.regs[r].exec, Decided(false))
  {
  }

  /** `h` was published or is about to be. */
  predicate Chosen(s: State, h: Handle) { h in s.published || (h in s.jobs && s.jobs[h].pc == Decided(true)) }

  /** Only a close that is decided while its execution is going makes it so. */
  lemma ChosenBy(s: State, a: Action, h: Handle)
    requires PlaceInv(s) && Enabled(s, a) && !Chosen(s, h) && Chosen(Next(s, a), h)
    ensures a == JobDoes(h, Decide) && h in s.jobs && s.jobs[h].pc == Deciding(false) && Going(s, s.jobs[h].exec)
  {
    hide NextOpen, TakeAll, NextCancel;
    Registered(s);
    if a.JobDoes? {
      JobRecords(s, a.h, a.job);
      JobFrame(s, a.h, a.job);
      if a.h == h && a.job.Decide? { DecideCloses(s, h); }
    } else {
      OthersRecord(s, a);
      NotChosenElse(s, a, h);
    }
  }

  /** A job that comes into being does not come into being decided to close. */
  lemma NotChosenElse(s: State, a: Action, h: Handle)
    requires Enabled(s, a) && !a.JobDoes? && !(h in s.jobs && s.jobs[h].pc == Decided(true))
    ensures !(h in Next(s, a).jobs && Next(s, a).jobs[h].pc == Decided(true))
  {
    hide NextOpen, ExecOf, OpenReady, JobReady, CancelReady;
    match a
    case OpenDoes(o, step) => OpenNotChosen(s, o, step, h);
    case _ =>
  }

  lemma OpenNotChosen(s: State, o: OpenId, step: OpenStep, h: Handle)
    requires o in s.opens && OpenReady(s.opens[o].pc, step) && !(h in s.jobs && s.jobs[h].pc == Decided(true))
    ensures !(h in NextOpen(s, o, step).jobs && NextOpen(s, o, step).jobs[h].pc == Decided(true))
  {
    hide NextOpen, ExecOf;
    OpenFrame(s, o, step);
  }

  /** A handle is published only if, at some moment of the run, a close of it was decided that had
      not been asked to abort and whose execution was going. */
  lemma {:induction false} PublishedHow(s: State, actions: seq<Action>, s': State, h: Handle) returns (i: nat, at: State)
    requires Inv(s) && IsRun(s, actions, s') && !Chosen(s, h) && h in s'.published
    ensures i < |actions| && actions[i] == JobDoes(h, Decide) && IsRun(s, actions[..i], at)
    ensures h in at.jobs && at.jobs[h].pc == Deciding(false) && Going(at, at.jobs[h].exec)
    decreases |actions|
  {
    hide PoolInv, ExecInv, PlaceInv, CancelInv, CancelsOn, Next, Enabled;
    var a, next := actions[0], Next(s, actions[0]);
    Keeps(s, a);
    if Chosen(next, h) {
      ChosenBy(s, a, h);
      i, at := 0, s;
      assert actions[..0] == [];
    } else {
      i, at := PublishedHow(next, actions[1..], s', h);
      i := i + 1;
      assert actions[..i][0] == a && actions[..i][1..] == actions[1..][..i - 1];
    }
  }

  /** And only `close` asks for that: such a job comes from a finish with abort false, of a handle
      registered there. */
  lemma AskedBy(s: State, a: Action, h: Handle)
    requires Enabled(s, a) && !(h in s.jobs && s.jobs[h].pc == Deciding(false))
    requires h in Next(s, a).jobs && Next(s, a).jobs[h].pc == Deciding(false)
    ensures exists r :: a == Finish(r, h, false) && h in s.files && s.files[h] == r
  {
    hide TakeAll, NextOpen, NextJob, ExecOf, OpenReady, JobReady, CancelReady;
    match a
    case OpenDoes(o, step) => OpenNotAsked(s, o, step, h);
    case JobDoes(k, step) => JobNotAsked(s, k, step, h);
    case Finish(r, k, abort) => assert k == h && a == Finish(r, h, false);
    case DropRegistry(r) => SweepNotAsked(s, r, h);
    case CancelDoes(_, step) => if step.Sweep? { SweepNotAsked(s, step.r, h); }
    case _ =>
  }

  lemma SweepNotAsked(s: State, r: RegId, h: Handle)
    requires !(h in s.jobs && s.jobs[h].pc == Deciding(false))
    ensures TakeAll(s, r) == s.(files := TakeAll(s, r).files, jobs := TakeAll(s, r).jobs)
    ensures !(h in TakeAll(s, r).jobs && TakeAll(s, r).jobs[h].pc == Deciding(false))
  {
  }

  lemma OpenNotAsked(s: State, o: OpenId, step: OpenStep, h: Handle)
    requires o in s.opens && OpenReady(s.opens[o].pc, step) && !(h in s.jobs && s.jobs[h].pc == Deciding(false))
    ensures !(h in NextOpen(s, o, step).jobs && NextOpen(s, o, step).jobs[h].pc == Deciding(false))
  {
    hide NextOpen, ExecOf;
    OpenFrame(s, o, step);
  }

  lemma JobNotAsked(s: State, k: Handle, step: JobStep, h: Handle)
    requires k in s.jobs && JobReady(s.jobs[k].pc, step) && !(h in s.jobs && s.jobs[h].pc == Deciding(false))
    ensures !(h in NextJob(s, k, step).jobs && NextJob(s, k, step).jobs[h].pc == Deciding(false))
  {
    hide IsCancelled;
  }

  /** Nothing under way is ever stuck: each open, each job and each cancel has a step to take next. */
  lemma NeverStuck(s: State, o: OpenId, h: Handle, c: CancelId) returns (open: OpenStep, job: JobStep, cancel: CancelStep)
    requires Inv(s)
    ensures o in s.opens ==> Enabled(s, OpenDoes(o, open))
    ensures h in s.jobs ==> Enabled(s, JobDoes(h, job))
    ensures c in s.cancels ==> Enabled(s, CancelDoes(c, cancel))
  {
    hide PoolInv, ExecInv, PlaceInv;
    open, job, cancel := Deliver, End, Return;
    if o in s.opens {
      match s.opens[o].pc
      case PoolHeld => open := CheckExec;
      case Passed => open := Acquire;
      case Giving => open := GiveUp;
      case Reserved => open := BackendOpen(true);
      case Undoing => open := UndoPool;
      case HalfUndone => open := UndoExec;
      case Opened(_) => open := Insert;
      case Inserted(_) => open := ReadFlag;
      case Doomed(_) => open := Withdraw;
      case Handoff(_) => open := Deliver;
    }
    if h in s.jobs {
      match s.jobs[h].pc
      case Deciding(_) => job := Decide;
      case Decided(_) => job := End;
      case Ended => job := ReleasePool;
      case HalfReleased => job := ReleaseExec;
    }
    if c in s.cancels {
      if s.cancels[c].pc.Flagged? {
        cancel := TakeList;
      } else if r :| r in s.cancels[c].pc.todo {
        cancel := Sweep(r);
      } else {
        assert s.cancels[c].pc.todo == {};
      }
    }
  }

  // -------------------------------------------------------------------------- opens

  /** The steps of an open that nothing disturbs. */
  function OpenSteps(o: OpenId, r: RegId, counted: bool): seq<Action> {
    [Begin(o, r), OpenDoes(o, CheckExec)] + (if counted then [OpenDoes(o, Acquire)] else [])
    + [OpenDoes(o, BackendOpen(true)), OpenDoes(o, Insert), OpenDoes(o, ReadFlag), OpenDoes(o, Deliver)]
  }

  /** The state after it: one more handle registered, and counted by the pool and the execution. */
  function Opened1(s: State, r: RegId): State {
    Charge(s, ExecOf(s, r), 1).(poolOpen := s.poolOpen + 1, files := s.files[s.nextHandle := r], nextHandle := s.nextHandle + 1)
  }

  predicate CanOpen(s: State, o: OpenId, r: RegId) {
    && o !in s.opens && r in s.regs && s.regs[r].alive && s.poolOpen < s.poolCap && Going(s, s.regs[r].exec)
    && (s.regs[r].exec.Some? ==> s.execs[s.regs[r].exec.value].openFiles < s.execs[s.regs[r].exec.value].limit)
  }

  lemma RunStep(s: State, a: Action, actions: seq<Action>, s': State)
    requires Enabled(s, a) && IsRun(Next(s, a), actions, s')
    ensures IsRun(s, [a] + actions, s')
  {
    hide Next, Enabled;
    assert ([a] + actions)[1..] == actions;
  }

  /** The state of an open that has got to `pc`, from a state in which it was not. */
  function During(s: State, o: OpenId, r: RegId, pc: OpenPc): State {
    s.(poolOpen := s.poolOpen + 1, opens := s.opens[o := Open(r, pc)])
  }

  ghost predicate Goes(s: State, a: Action, s': State) { Enabled(s, a) && Next(s, a) == s' }

  lemma Asks(s: State, o: OpenId, r: RegId)
    requires CanOpen(s, o, r)
    ensures Goes(s, Begin(o, r), During(s, o, r, PoolHeld))
    ensures Goes(During(s, o, r, PoolHeld), OpenDoes(o, CheckExec), During(s, o, r, if s.regs[r].exec.Some? then Passed else Reserved))
  {
    hide Take, Charge;
    assert forall pc :: s.opens[o := Open(r, PoolHeld)][o := Open(r, pc)] == s.opens[o := Open(r, pc)];
  }

  lemma Admitted(s: State, o: OpenId, r: RegId)
    requires CanOpen(s, o, r) && s.regs[r].exec.Some?
    ensures Goes(During(s, o, r, Passed), OpenDoes(o, Acquire), During(Charge(s, s.regs[r].exec, 1), o, r, Reserved))
  {
    hide Take;
    assert s.opens[o := Open(r, Passed)][o := Open(r, Reserved)] == s.opens[o := Open(r, Reserved)];
  }

  /** The state as the opens become `opens`, with `h` minted, and registered if `inside`. */
  function With(s: State, opens: map<OpenId, Open>, r: RegId, h: Handle, inside: bool): State {
    State(s.poolCap, s.poolOpen + 1, s.execs, s.regs, if inside then s.files[h := r] else s.files, opens,
          s.jobs, s.cancels, h + 1, s.ends, s.published)
  }

  lemma BackendOpens(s: State, o: OpenId, r: RegId)
    ensures Goes(During(s, o, r, Reserved), OpenDoes(o, BackendOpen(true)),
                 With(s, s.opens[o := Open(r, Opened(s.nextHandle))], r, s.nextHandle, false))
  {
    hide ExecOf, IsCancelled, Charge, Take;
    assert s.opens[o := Open(r, Reserved)][o := Open(r, Opened(s.nextHandle))] == s.opens[o := Open(r, Opened(s.nextHandle))];
  }

  lemma Inserts(s: State, o: OpenId, r: RegId, h: Handle)
    ensures Goes(With(s, s.opens[o := Open(r, Opened(h))], r, h, false), OpenDoes(o, Insert),
                 With(s, s.opens[o := Open(r, Inserted(h))], r, h, true))
  {
    hide ExecOf, IsCancelled, Charge, Take;
    assert s.opens[o := Open(r, Opened(h))][o := Open(r, Inserted(h))] == s.opens[o := Open(r, Inserted(h))];
  }

  lemma FlagIsDown(s: State, o: OpenId, r: RegId, h: Handle)
    requires r in s.regs && Going(s, s.regs[r].exec)
    ensures Goes(With(s, s.opens[o := Open(r, Inserted(h))], r, h, true), OpenDoes(o, ReadFlag),
                 With(s, s.opens[o := Open(r, Handoff(h))], r, h, true))
  {
    hide Charge, Take;
    assert s.opens[o := Open(r, Inserted(h))][o := Open(r, Handoff(h))] == s.opens[o := Open(r, Handoff(h))];
  }

  lemma Delivers(s: State, o: OpenId, r: RegId, h: Handle)
    requires o !in s.opens
    ensures Goes(With(s, s.opens[o := Open(r, Handoff(h))], r, h, true), OpenDoes(o, Deliver), With(s, s.opens, r, h, true))
  {
    hide ExecOf, IsCancelled, Charge, Take;
    assert s.opens[o := Open(r, Handoff(h))] - {o} == s.opens;
  }

  /** From where both counts are held, the rest of the open. */
  lemma Registers(s: State, o: OpenId, r: RegId)
    requires o !in s.opens && r in s.regs && Going(s, s.regs[r].exec)
    ensures IsRun(During(s, o, r, Reserved),
                  [OpenDoes(o, BackendOpen(true)), OpenDoes(o, Insert), OpenDoes(o, ReadFlag), OpenDoes(o, Deliver)],
                  With(s, s.opens, r, s.nextHandle, true))
  {
    hide Next, Enabled, During;
    var h, end := s.nextHandle, With(s, s.opens, r, s.nextHandle, true);
    BackendOpens(s, o, r);
    Inserts(s, o, r, h);
    FlagIsDown(s, o, r, h);
    Delivers(s, o, r, h);
    hide With;
    var t1 := [OpenDoes(o, Deliver)];
    var t2 := [OpenDoes(o, ReadFlag)] + t1;
    var t3 := [OpenDoes(o, Insert)] + t2;
    RunStep(With(s, s.opens[o := Open(r, Handoff(h))], r, h, true), OpenDoes(o, Deliver), [], end);
    assert [OpenDoes(o, Deliver)] + [] == t1;
    RunStep(With(s, s.opens[o := Open(r, Inserted(h))], r, h, true), OpenDoes(o, ReadFlag), t1, end);
    RunStep(With(s, s.opens[o := Open(r, Opened(h))], r, h, false), OpenDoes(o, Insert), t2, end);
    RunStep(During(s, o, r, Reserved), OpenDoes(o, BackendOpen(true)), t3, end);
    assert [OpenDoes(o, BackendOpen(true))] + t3
        == [OpenDoes(o, BackendOpen(true)), OpenDoes(o, Insert), OpenDoes(o, ReadFlag), OpenDoes(o, Deliver)];
  }

  /** An open with room in the pool and in its execution, which is going, whose backend opens the
      file, ends with a fresh handle registered in its registry and counted once by each. */
  lemma OpenGoesThrough(s: State, o: OpenId, r: RegId)
    requires CanOpen(s, o, r)
    ensures IsRun(s, OpenSteps(o, r, s.regs[r].exec.Some?), Opened1(s, r))
  {
    hide Next, Enabled;
    var x, h := s.regs[r].exec, s.nextHandle;
    var base := Charge(s, x, 1);
    ChargeSame(s, x);
    Asks(s, o, r);
    Registers(base, o, r);
    var tail := [OpenDoes(o, BackendOpen(true)), OpenDoes(o, Insert), OpenDoes(o, ReadFlag), OpenDoes(o, Deliver)];
    var e := With(base, s.opens, r, h, true);
    assert e == Opened1(s, r);
    var held, passed := During(s, o, r, PoolHeld), During(s, o, r, Passed);
    if x.Some? {
      Admitted(s, o, r);
      RunStep(passed, OpenDoes(o, Acquire), tail, e);
      RunStep(held, OpenDoes(o, CheckExec), [OpenDoes(o, Acquire)] + tail, e);
      RunStep(s, Begin(o, r), [OpenDoes(o, CheckExec)] + ([OpenDoes(o, Acquire)] + tail), e);
      assert [Begin(o, r)] + ([OpenDoes(o, CheckExec)] + ([OpenDoes(o, Acquire)] + tail)) == OpenSteps(o, r, true);
    } else {
      RunStep(held, OpenDoes(o, CheckExec), tail, e);
      RunStep(s, Begin(o, r), [OpenDoes(o, CheckExec)] + tail, e);
      assert [Begin(o, r)] + ([OpenDoes(o, CheckExec)] + tail) == OpenSteps(o, r, false);
    }
  }

  lemma ChargeSame(s: State, x: Option<ExecId>)
    requires Going(s, x)
    ensures Going(Charge(s, x, 1), x) && (x.None? ==> Charge(s, x, 1) == s)
    ensures Charge(s, x, 1) == s.(execs := Charge(s, x, 1).execs)
  {
  }
}
