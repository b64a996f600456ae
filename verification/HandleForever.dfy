/** What the handle protocol never undoes: a gone handle stays gone, a cancelled execution
    publishes nothing more and, once drained, registers nothing more. */
module HandleForever {
  import opened Base
  import opened Handles
  import opened HandleProofs
  import opened HandleRuns

  /** What a step of an open leaves alone, and that only the backend makes a handle. */
  lemma OpenMints(s: State, o: OpenId, step: OpenStep)
    requires o in s.opens && OpenReady(s.opens[o].pc, step)
    ensures var s' := NextOpen(s, o, step);
      && s'.published == s.published && s.nextHandle <= s'.nextHandle
      && (o in s'.opens && s'.opens[o].pc.Opened? ==> s'.opens[o].pc.h == s.nextHandle)
      && (step.Insert? ==> s.opens[o].pc.Opened?)
  {
    hide ExecOf, IsCancelled, Charge;
    match step
    case Acquire => ChargeKeys(s, ExecOf(s, s.opens[o].reg), 1);
    case UndoExec => ChargeKeys(s, ExecOf(s, s.opens[o].reg), -1);
    case _ =>
  }

  // ------------------------------------------------------------------ gone handles

  /** The backend opened `h` once, and nothing holds it any more. */
  ghost predicate Gone(s: State, h: Handle) {
    && h < s.nextHandle && h !in s.files && h !in s.jobs
    && forall o :: o in s.opens ==> s.opens[o].pc != Opened(h)
  }

  lemma OpenKeepsGone(s: State, o: OpenId, step: OpenStep, h: Handle)
    requires Gone(s, h) && o in s.opens && OpenReady(s.opens[o].pc, step)
    ensures Gone(NextOpen(s, o, step), h)
  {
    hide NextOpen, ExecOf;
    OpenFrame(s, o, step);
    OpenMints(s, o, step);
    if step.Withdraw? { WithdrawFrame(s, o); }
  }

  lemma GoneKeeps(s: State, a: Action, h: Handle)
    requires Gone(s, h) && Enabled(s, a)
    ensures Gone(Next(s, a), h)
  {
    hide TakeAll, NextOpen, NextJob, OpenReady, JobReady, CancelReady, ExecOf;
    match a
    case OpenDoes(o, step) => OpenKeepsGone(s, o, step, h);
    case JobDoes(k, step) => JobFrame(s, k, step); JobFlags(s, k, step);
    case DropRegistry(r) => TakeAllGone(s, r, h);
    case CancelDoes(_, step) => if step.Sweep? { TakeAllGone(s, step.r, h); }
    case _ =>
  }

  lemma TakeAllGone(s: State, r: RegId, h: Handle)
    ensures TakeAll(s, r) == s.(files := TakeAll(s, r).files, jobs := TakeAll(s, r).jobs)
    ensures h !in s.files && h !in s.jobs ==> h !in TakeAll(s, r).files && h !in TakeAll(s, r).jobs
  {
  }

  /** No handle comes back, so closing or dropping one late does nothing, whatever ran between. */
  lemma {:induction false} GoneForever(s: State, actions: seq<Action>, s': State, h: Handle, r: RegId, abort: bool)
    requires Gone(s, h) && IsRun(s, actions, s')
    ensures Gone(s', h)
    ensures Enabled(s', Finish(r, h, abort)) ==> Next(s', Finish(r, h, abort)) == s'
    ensures Enabled(s', Abandon(r, h)) ==> Next(s', Abandon(r, h)) == s'
    decreases |actions|
  {
    if actions != [] {
      GoneKeeps(s, actions[0], h);
      GoneForever(Next(s, actions[0]), actions[1..], s', h, r, abort);
    }
  }

  // ------------------------------------------------------------ nothing is published

  /** `h` belongs to the cancelled execution `e`, wherever it is, and no close is under way. */
  ghost predicate Barred(s: State, h: Handle, e: ExecId) {
    && e in s.execs && s.execs[e].cancelled && h < s.nextHandle && h !in s.published
    && (h in s.files ==> Belongs(s.regs, s.files[h], e))
    && (h in s.jobs ==> s.jobs[h].exec == Some(e) && s.jobs[h].pc != Decided(true))
    && (forall o :: o in s.opens && s.opens[o].pc == Opened(h) ==> Belongs(s.regs, s.opens[o].reg, e))
  }

  lemma OpenKeepsBarred(s: State, o: OpenId, step: OpenStep, h: Handle, e: ExecId)
    requires Barred(s, h, e) && o in s.opens && OpenReady(s.opens[o].pc, step)
    ensures Barred(NextOpen(s, o, step), h, e)
  {
    hide NextOpen;
    OpenFrame(s, o, step);
    OpenMints(s, o, step);
    FlagsKept(s, o, step);
    if step.Withdraw? { WithdrawFrame(s, o); }
  }

  lemma JobKeepsBarred(s: State, k: Handle, step: JobStep, h: Handle, e: ExecId)
    requires Barred(s, h, e) && k in s.jobs && JobReady(s.jobs[k].pc, step)
    ensures Barred(NextJob(s, k, step), h, e)
  {
    JobFlags(s, k, step);
  }

  lemma TakeKeepsBarred(s: State, r: RegId, k: Handle, pc: JobPc, h: Handle, e: ExecId)
    requires Barred(s, h, e) && pc != Decided(true)
    ensures Barred(Take(s, r, k, pc), h, e)
  {
  }

  lemma SweepKeepsBarred(s: State, r: RegId, h: Handle, e: ExecId)
    requires Barred(s, h, e)
    ensures Barred(TakeAll(s, r), h, e)
  {
  }

  lemma SetupKeepsBarred(s: State, a: Action, h: Handle, e: ExecId)
    requires Barred(s, h, e) && Enabled(s, a)
    requires a.NewExec? || a.NewRegistry? || a.Begin? || a.Expire? || a.CancelStart?
    ensures Barred(Next(s, a), h, e)
  {
    hide TakeAll, Take, NextOpen, NextJob, NextCancel, OpenReady, JobReady, CancelReady;
  }

  lemma BarredKeeps(s: State, a: Action, h: Handle, e: ExecId)
    requires Barred(s, h, e) && Enabled(s, a)
    ensures Barred(Next(s, a), h, e)
  {
    hide TakeAll, Take, NextOpen, NextJob, OpenReady, JobReady, CancelReady;
    match a
    case OpenDoes(o, step) => OpenKeepsBarred(s, o, step, h, e);
    case JobDoes(k, step) => JobKeepsBarred(s, k, step, h, e);
    case Finish(r, k, abort) => TakeKeepsBarred(s, r, k, Deciding(abort), h, e);
    case Abandon(r, k) => TakeKeepsBarred(s, r, k, Decided(false), h, e);
    case DropRegistry(r) =>
      SweepKeepsBarred(s, r, h, e);
      TakeAllFrame(s, r);
    case CancelDoes(_, step) =>
      if step.Sweep? {
        SweepKeepsBarred(s, step.r, h, e);
        TakeAllFrame(s, step.r);
      }
    case _ => SetupKeepsBarred(s, a, h, e);
  }

  /** After `cancel` sets the flag, a handle of the execution whose close had not been decided
      is never published. */
  lemma {:induction false} NeverPublished(s: State, actions: seq<Action>, s': State, h: Handle, e: ExecId)
    requires Barred(s, h, e) && IsRun(s, actions, s')
    ensures h !in s'.published
    decreases |actions|
  {
    hide Next, Enabled;
    if actions != [] {
      BarredKeeps(s, actions[0], h, e);
      NeverPublished(Next(s, actions[0]), actions[1..], s', h, e);
    }
  }

  // --------------------------------------------------------------- nothing registers

  /** `e` is cancelled, has nothing registered, and no open of it got past the flag. */
  ghost predicate Sealed(s: State, e: ExecId) {
    && e in s.execs && s.execs[e].cancelled
    && (forall h :: h in s.files ==> !Belongs(s.regs, s.files[h], e))
    && (forall o :: o in s.opens && Belongs(s.regs, s.opens[o].reg, e) ==> s.opens[o].pc.PoolHeld? || s.opens[o].pc.Giving?)
  }

  lemma OpenStaysOut(s: State, o: OpenId, step: OpenStep, e: ExecId)
    requires o in s.opens && OpenReady(s.opens[o].pc, step) && e in s.execs && s.execs[e].cancelled
    requires Belongs(s.regs, s.opens[o].reg, e) && (s.opens[o].pc.PoolHeld? || s.opens[o].pc.Giving?)
    ensures !step.Insert?
    ensures var s' := NextOpen(s, o, step); o in s'.opens ==> s'.opens[o].pc.Giving?
  {
    hide Charge;
  }

  lemma OpenKeepsSealed(s: State, o: OpenId, step: OpenStep, e: ExecId)
    requires Sealed(s, e) && o in s.opens && OpenReady(s.opens[o].pc, step)
    ensures Sealed(NextOpen(s, o, step), e)
  {
    hide NextOpen, OpenReady, ExecOf;
    OpenFrame(s, o, step);
    FlagsKept(s, o, step);
    if Belongs(s.regs, s.opens[o].reg, e) { OpenStaysOut(s, o, step, e); }
  }

  lemma SetupKeepsSealed(s: State, a: Action, e: ExecId)
    requires Sealed(s, e) && PlaceInv(s) && Enabled(s, a)
    requires a.NewExec? || a.NewRegistry? || a.Begin? || a.Expire? || a.CancelStart?
    ensures Sealed(Next(s, a), e)
  {
    hide PlaceInv, TakeAll, Take, NextOpen, NextJob, NextCancel, OpenReady, JobReady, CancelReady;
    Registered(s);
  }

  lemma SealedKeeps(s: State, a: Action, e: ExecId)
    requires Sealed(s, e) && PlaceInv(s) && Enabled(s, a)
    ensures Sealed(Next(s, a), e)
  {
    hide PlaceInv, TakeAll, Take, NextOpen, NextJob, OpenReady, JobReady, CancelReady;
    match a
    case OpenDoes(o, step) => OpenKeepsSealed(s, o, step, e);
    case JobDoes(k, step) => JobFlags(s, k, step); JobFrame(s, k, step);
    case Finish(r, k, abort) => TakeFrame(s, r, k, Deciding(abort)); TakenOut(s, r, k, Deciding(abort));
    case Abandon(r, k) => TakeFrame(s, r, k, Decided(false)); TakenOut(s, r, k, Decided(false));
    case DropRegistry(r) => TakeAllFrame(s, r); TakenOut(s, r, 0, Ended);
    case CancelDoes(_, step) => if step.Sweep? { TakeAllFrame(s, step.r); TakenOut(s, step.r, 0, Ended); }
    case _ => SetupKeepsSealed(s, a, e);
  }

  lemma {:induction false} SealedForever(s: State, actions: seq<Action>, s': State, e: ExecId)
    requires Sealed(s, e) && Inv(s) && IsRun(s, actions, s')
    ensures Sealed(s', e)
    decreases |actions|
  {
    hide Sealed, PoolInv, ExecInv, PlaceInv, CancelInv, CancelsOn, Next, Enabled;
    if actions != [] {
      SealedKeeps(s, actions[0], e);
      Keeps(s, actions[0]);
      SealedForever(Next(s, actions[0]), actions[1..], s', e);
    }
  }

  /** Once every `cancel` of an execution has returned, and every open of it, nothing of it is
      registered, then or in any state that follows. */
  lemma CancelIsFinal(cap: nat, before: seq<Action>, s: State, after: seq<Action>, s': State, e: ExecId)
    requires IsRun(Start(cap), before, s) && IsRun(s, after, s')
    requires e in s.execs && s.execs[e].cancelled
    requires forall c :: c in s.cancels ==> s.cancels[c].exec != e
    requires forall o :: o in s.opens ==> !Belongs(s.regs, s.opens[o].reg, e)
    ensures ExecFiles(s.files, s.regs, e) == {} && ExecFiles(s'.files, s'.regs, e) == {}
  {
    hide Inv, IsRun;
    EveryRun(cap, before, s);
    CancelComplete(s, e);
    assert forall h :: h in s.files ==> h !in ExecFiles(s.files, s.regs, e);
    assert Sealed(s, e);
    SealedForever(s, after, s', e);
  }
}
