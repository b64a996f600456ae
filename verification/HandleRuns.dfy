/** Cancellation leaves nothing registered; and what holds after every run of the handle protocol. */
module HandleRuns {
  import opened Base
  import opened Handles
  import opened HandleProofs

  type Cancels = map<CancelId, Cancel>

  predicate Carries(pc: OpenPc) { pc.Opened? || pc.Inserted? || pc.Doomed? || pc.Handoff? }
  predicate Vets(pc: OpenPc, h: Handle) { pc == Inserted(h) || pc == Doomed(h) }

  /** Some open has registered `h` and not yet acted on the flag. */
  ghost predicate Vetting(opens: Opens, h: Handle) { exists o :: o in opens && Vets(opens[o].pc, h) }

  /** `c` is going to empty registry `r`. */
  predicate Pursues(c: Cancel, listed: set<RegId>, r: RegId, e: ExecId) {
    c.exec == e && (if c.pc.Flagged? then r in listed else r in c.pc.todo)
  }

  ghost predicate Pursued(cancels: Cancels, listed: set<RegId>, r: RegId, e: ExecId) {
    exists c :: c in cancels && Pursues(cancels[c], listed, r, e)
  }

  /** A handle of a cancelled execution is registered only while somebody is about to take it out. */
  ghost predicate Hunted(x: Exec, regs: Registries, files: Files, opens: Opens, cancels: Cancels, e: ExecId, h: Handle) {
    x.cancelled && h in files && Belongs(regs, files[h], e) ==>
      Vetting(opens, h) || Pursued(cancels, x.listed, files[h], e)
  }

  ghost predicate HuntedAt(s: State, e: ExecId, h: Handle) {
    e in s.execs ==> Hunted(s.execs[e], s.regs, s.files, s.opens, s.cancels, e, h)
  }

  /** Opens in flight carry different handles, each registered, if at all, where its open is. */
  ghost predicate CarryOn(next: Handle, opens: Opens, files: Files) {
    && (forall o :: o in opens && Carries(opens[o].pc) ==> opens[o].pc.h < next)
    && (forall o, o' :: o in opens && o' in opens && o != o' && Carries(opens[o].pc) && Carries(opens[o'].pc) ==>
          opens[o].pc.h != opens[o'].pc.h)
    && (forall o :: o in opens && (opens[o].pc.Inserted? || opens[o].pc.Doomed?) && opens[o].pc.h in files ==>
          files[opens[o].pc.h] == opens[o].reg)
  }

  predicate IsListed(regs: Registries, execs: map<ExecId, Exec>, r: RegId) {
    r in regs && regs[r].alive && regs[r].exec.Some? && regs[r].exec.value in execs && !execs[regs[r].exec.value].cancelled ==>
      r in execs[regs[r].exec.value].listed
  }

  /** Every live registry of an execution that is not cancelled is on the execution's list. */
  ghost predicate ListedOn(regs: Registries, execs: map<ExecId, Exec>) { forall r :: IsListed(regs, execs, r) }

  ghost predicate CancelInv(s: State) {
    && CarryOn(s.nextHandle, s.opens, s.files)
    && ListedOn(s.regs, s.execs)
    && forall e, h :: HuntedAt(s, e, h)
  }

  // -------------------------------------------------------------------- carried handles

  lemma CarryTake(next: Handle, opens: Opens, files: Files, files': Files)
    requires CarryOn(next, opens, files)
    requires forall h :: h in files' ==> h in files && files'[h] == files[h]
    ensures CarryOn(next, opens, files')
  {
  }

  lemma CarryOpen(next: Handle, opens: Opens, files: Files, o: OpenId, opens': Opens)
    requires CarryOn(next, opens, files)
    requires opens' == opens - {o} || (o in opens' && opens' == opens[o := opens'[o]])
    requires o in opens' && Carries(opens'[o].pc) ==>
      && o in opens && Carries(opens[o].pc) && opens'[o].pc.h == opens[o].pc.h && opens'[o].reg == opens[o].reg
      && (opens[o].pc.Opened? ==> opens'[o].pc.Opened?)
      && (opens[o].pc.Handoff? ==> opens'[o].pc.Handoff?)
    ensures CarryOn(next, opens', files)
  {
  }

  lemma CarryNew(next: Handle, opens: Opens, files: Files, o: OpenId, r: RegId)
    requires CarryOn(next, opens, files)
    ensures CarryOn(next + 1, opens[o := Open(r, Opened(next))], files)
  {
  }

  lemma CarryInsert(next: Handle, opens: Opens, files: Files, o: OpenId)
    requires CarryOn(next, opens, files) && o in opens && opens[o].pc.Opened?
    ensures var h, r := opens[o].pc.h, opens[o].reg; CarryOn(next, opens[o := Open(r, Inserted(h))], files[h := r])
  {
  }

  lemma WithdrawKeepsCarry(s: State, o: OpenId)
    requires CarryOn(s.nextHandle, s.opens, s.files) && o in s.opens && s.opens[o].pc.Doomed?
    ensures var s' := NextOpen(s, o, Withdraw); CarryOn(s'.nextHandle, s'.opens, s'.files)
  {
    hide CarryOn, ExecOf;
    CarryOpen(s.nextHandle, s.opens, s.files, o, s.opens - {o});
    CarryTake(s.nextHandle, s.opens - {o}, s.files, NextOpen(s, o, Withdraw).files);
  }

  lemma OpenKeepsCarry(s: State, o: OpenId, step: OpenStep)
    requires CarryOn(s.nextHandle, s.opens, s.files) && o in s.opens && OpenReady(s.opens[o].pc, step)
    ensures var s' := NextOpen(s, o, step); CarryOn(s'.nextHandle, s'.opens, s'.files)
  {
    hide CarryOn, ExecOf, IsCancelled, Charge;
    var s' := NextOpen(s, o, step);
    match step
    case BackendOpen(ok) =>
      if ok { CarryNew(s.nextHandle, s.opens, s.files, o, s.opens[o].reg); }
      else { CarryOpen(s.nextHandle, s.opens, s.files, o, s'.opens); }
    case Insert => CarryInsert(s.nextHandle, s.opens, s.files, o);
    case Withdraw => WithdrawKeepsCarry(s, o);
    case Acquire =>
      ChargeKeys(s, ExecOf(s, s.opens[o].reg), 1);
      CarryOpen(s.nextHandle, s.opens, s.files, o, s'.opens);
    case UndoExec =>
      ChargeKeys(s, ExecOf(s, s.opens[o].reg), -1);
      CarryOpen(s.nextHandle, s.opens, s.files, o, s'.opens);
    case _ => CarryOpen(s.nextHandle, s.opens, s.files, o, s'.opens);
  }

  // -------------------------------------------------------------------- the hunt

  /** What an execution's record says about cancellation. */
  predicate SameFlags(x: Exec, x': Exec) { x'.cancelled == x.cancelled && x'.listed == x.listed }

  lemma VettingElsewhere(opens: Opens, o: OpenId, opens': Opens, h: Handle)
    requires opens' == opens - {o} || (o in opens' && opens' == opens[o := opens'[o]])
    requires o in opens && Vets(opens[o].pc, h) ==> o in opens' && Vets(opens'[o].pc, h)
    ensures Vetting(opens, h) ==> Vetting(opens', h)
  {
    if Vetting(opens, h) {
      var p :| p in opens && Vets(opens[p].pc, h);
      assert p in opens' && Vets(opens'[p].pc, h);
    }
  }

  /** An open's step keeps the hunt for every handle it was not itself vetting. */
  lemma OpenHunted(x: Exec, x': Exec, regs: Registries, files: Files, opens: Opens, cancels: Cancels, e: ExecId, h: Handle,
                   o: OpenId, opens': Opens)
    requires Hunted(x, regs, files, opens, cancels, e, h) && SameFlags(x, x')
    requires opens' == opens - {o} || (o in opens' && opens' == opens[o := opens'[o]])
    requires o in opens && Vets(opens[o].pc, h) ==> o in opens' && Vets(opens'[o].pc, h)
    ensures Hunted(x', regs, files, opens', cancels, e, h)
  {
    hide Vetting, Belongs, Pursued;
    VettingElsewhere(opens, o, opens', h);
  }

  lemma FlagsKept(s: State, o: OpenId, step: OpenStep)
    requires o in s.opens && OpenReady(s.opens[o].pc, step)
    ensures var s' := NextOpen(s, o, step);
      s'.execs.Keys == s.execs.Keys && s'.cancels == s.cancels && forall e :: e in s.execs ==> SameFlags(s.execs[e], s'.execs[e])
  {
    hide ExecOf, IsCancelled;
    match step
    case Acquire =>
    case UndoExec =>
    case _ =>
  }

  lemma InsertHunted(s: State, o: OpenId, e: ExecId, h: Handle)
    requires HuntedAt(s, e, h) && o in s.opens && s.opens[o].pc.Opened? && e in s.execs
    ensures HuntedAt(NextOpen(s, o, Insert), e, h)
  {
    hide Belongs, Pursued;
    var s' := NextOpen(s, o, Insert);
    if s.opens[o].pc.h == h {
      assert Vets(s'.opens[o].pc, h);
    } else {
      VettingElsewhere(s.opens, o, s'.opens, h);
    }
  }

  /** Reading the flag lets a handle go only while its execution is not cancelled. */
  lemma ReadFlagHunted(s: State, o: OpenId, e: ExecId, h: Handle)
    requires HuntedAt(s, e, h) && o in s.opens && s.opens[o].pc.Inserted? && e in s.execs
    requires s.opens[o].pc.h in s.files ==> s.files[s.opens[o].pc.h] == s.opens[o].reg
    ensures HuntedAt(NextOpen(s, o, ReadFlag), e, h)
  {
    hide Pursued, Vetting;
    var s' := NextOpen(s, o, ReadFlag);
    if !(s.opens[o].pc.h == h && s'.opens[o].pc.Handoff?) {
      VettingElsewhere(s.opens, o, s'.opens, h);
    }
  }

  lemma WithdrawHunted(s: State, o: OpenId, e: ExecId, h: Handle)
    requires HuntedAt(s, e, h) && o in s.opens && s.opens[o].pc.Doomed? && e in s.execs
    requires s.opens[o].pc.h in s.files ==> s.files[s.opens[o].pc.h] == s.opens[o].reg
    ensures HuntedAt(NextOpen(s, o, Withdraw), e, h)
  {
    hide Belongs, Pursued, Vetting, ExecOf;
    if s.opens[o].pc.h != h {
      VettingElsewhere(s.opens, o, s.opens - {o}, h);
    }
  }

  lemma OpenKeepsHunted(s: State, o: OpenId, step: OpenStep, e: ExecId, h: Handle)
    requires HuntedAt(s, e, h) && CarryOn(s.nextHandle, s.opens, s.files) && o in s.opens && OpenReady(s.opens[o].pc, step)
    requires e in s.execs
    ensures HuntedAt(NextOpen(s, o, step), e, h)
  {
    hide Hunted, NextOpen, SameFlags;
    match step
    case Insert => InsertHunted(s, o, e, h);
    case ReadFlag => ReadFlagHunted(s, o, e, h);
    case Withdraw => WithdrawHunted(s, o, e, h);
    case _ =>
      OpenFrame(s, o, step);
      FlagsKept(s, o, step);
      OpenNotVetting(s, o, step, h);
      var s' := NextOpen(s, o, step);
      OpenHunted(s.execs[e], s'.execs[e], s.regs, s.files, s.opens, s.cancels, e, h, o, s'.opens);
  }

  lemma OpenNotVetting(s: State, o: OpenId, step: OpenStep, h: Handle)
    requires o in s.opens && OpenReady(s.opens[o].pc, step) && !step.ReadFlag? && !step.Withdraw?
    ensures !Vets(s.opens[o].pc, h)
  {
  }

  /** Taking the list turns every pursuit through the list into one through the taker's own. */
  lemma TakeListPursues(cancels: Cancels, listed: set<RegId>, c: CancelId, e: ExecId, r: RegId)
    requires c in cancels && cancels[c] == Cancel(e, Flagged) && Pursued(cancels, listed, r, e)
    ensures Pursued(cancels[c := Cancel(e, Sweeping(listed))], {}, r, e)
  {
    var cancels' := cancels[c := Cancel(e, Sweeping(listed))];
    var d :| d in cancels && Pursues(cancels[d], listed, r, e);
    if cancels[d].pc.Flagged? {
      assert Pursues(cancels'[c], {}, r, e);
    } else {
      assert Pursues(cancels'[d], {}, r, e);
    }
  }

  lemma OthersPursue(cancels: Cancels, cancels': Cancels, listed: set<RegId>, c: CancelId, r: RegId, e: ExecId)
    requires Pursued(cancels, listed, r, e) && c in cancels && !Pursues(cancels[c], listed, r, e)
    requires forall d :: d in cancels && d != c ==> d in cancels' && cancels'[d] == cancels[d]
    ensures Pursued(cancels', listed, r, e)
  {
    var d :| d in cancels && Pursues(cancels[d], listed, r, e);
    assert Pursues(cancels'[d], listed, r, e);
  }

  lemma SweepHunted(s: State, c: CancelId, r: RegId, e: ExecId, h: Handle)
    requires HuntedAt(s, e, h) && Enabled(s, CancelDoes(c, Sweep(r))) && e in s.execs
    ensures HuntedAt(NextCancel(s, c, Sweep(r)), e, h)
  {
    hide Vetting, Belongs, Pursued, ExecOf;
    var s' := NextCancel(s, c, Sweep(r));
    if h in s.files && s.files[h] != r && Pursued(s.cancels, s.execs[e].listed, s.files[h], e) {
      SweepPursues(s.cancels, s.execs[e].listed, c, r, s.files[h], e);
    }
  }

  lemma SweepPursues(cancels: Cancels, listed: set<RegId>, c: CancelId, r: RegId, q: RegId, e: ExecId)
    requires Pursued(cancels, listed, q, e) && c in cancels && cancels[c].pc.Sweeping? && q != r
    ensures Pursued(cancels[c := Cancel(cancels[c].exec, Sweeping(cancels[c].pc.todo - {r}))], listed, q, e)
  {
    var cancels' := cancels[c := Cancel(cancels[c].exec, Sweeping(cancels[c].pc.todo - {r}))];
    var d :| d in cancels && Pursues(cancels[d], listed, q, e);
    assert Pursues(cancels'[d], listed, q, e);
  }

  lemma CancelKeepsHunted(s: State, c: CancelId, step: CancelStep, e: ExecId, h: Handle)
    requires HuntedAt(s, e, h) && Enabled(s, CancelDoes(c, step)) && e in s.execs
    ensures HuntedAt(NextCancel(s, c, step), e, h)
  {
    hide Vetting, Belongs, Pursued, TakeAll;
    if step.Sweep? {
      SweepHunted(s, c, step.r, e, h);
    } else if h in s.files && Pursued(s.cancels, s.execs[e].listed, s.files[h], e) {
      if step.Return? {
        OthersPursue(s.cancels, s.cancels - {c}, s.execs[e].listed, c, s.files[h], e);
      } else if s.cancels[c].exec == e {
        TakeListPursues(s.cancels, s.execs[e].listed, c, e, s.files[h]);
      } else {
        OthersPursue(s.cancels, NextCancel(s, c, step).cancels, s.execs[e].listed, c, s.files[h], e);
      }
    }
  }

  /** A cancel that starts finds every registry of its execution on the list. */
  lemma StartHunted(s: State, c: CancelId, b: ExecId, e: ExecId, h: Handle)
    requires HuntedAt(s, e, h) && PlaceInv(s) && ListedOn(s.regs, s.execs) && Enabled(s, CancelStart(c, b)) && e in s.execs
    ensures HuntedAt(Next(s, CancelStart(c, b)), e, h)
  {
    hide PlaceInv, Vetting, NextOpen, NextJob, NextCancel, Take, TakeAll;
    Lively(s);
    var s' := Next(s, CancelStart(c, b));
    if h in s.files && Belongs(s.regs, s.files[h], e) {
      var r := s.files[h];
      if e == b && !s.execs[e].cancelled {
        assert IsListed(s.regs, s.execs, r);
        assert Pursues(s'.cancels[c], s'.execs[e].listed, r, e);
      } else if Pursued(s.cancels, s.execs[e].listed, r, e) {
        var d :| d in s.cancels && Pursues(s.cancels[d], s.execs[e].listed, r, e);
        assert Pursues(s'.cancels[d], s'.execs[e].listed, r, e);
      }
    }
  }

  lemma RegistryHunted(s: State, r: RegId, x: Option<ExecId>, e: ExecId, h: Handle)
    requires HuntedAt(s, e, h) && PlaceInv(s) && Enabled(s, NewRegistry(r, x)) && e in s.execs
    ensures HuntedAt(Next(s, NewRegistry(r, x)), e, h)
  {
    hide PlaceInv, Vetting, NextOpen, NextJob, NextCancel, Take, TakeAll;
    Registered(s);
    var s' := Next(s, NewRegistry(r, x));
    if h in s.files && Pursued(s.cancels, s.execs[e].listed, s.files[h], e) {
      var d :| d in s.cancels && Pursues(s.cancels[d], s.execs[e].listed, s.files[h], e);
      assert Pursues(s'.cancels[d], s'.execs[e].listed, s.files[h], e);
    }
  }

  lemma JobFlags(s: State, h: Handle, step: JobStep)
    requires h in s.jobs && JobReady(s.jobs[h].pc, step)
    ensures var s' := NextJob(s, h, step);
      && s'.cancels == s.cancels && s'.nextHandle == s.nextHandle && s'.execs.Keys == s.execs.Keys
      && forall e :: e in s.execs ==> SameFlags(s.execs[e], s'.execs[e])
  {
    hide IsCancelled;
  }

  lemma TakenOut(s: State, r: RegId, h: Handle, pc: JobPc)
    ensures forall k :: k in Take(s, r, h, pc).files ==> k in s.files && Take(s, r, h, pc).files[k] == s.files[k]
    ensures forall k :: k in TakeAll(s, r).files ==> k in s.files && TakeAll(s, r).files[k] == s.files[k]
  {
  }

  lemma DropHunted(s: State, r: RegId, e: ExecId, h: Handle)
    requires HuntedAt(s, e, h) && Enabled(s, DropRegistry(r)) && e in s.execs
    ensures HuntedAt(Next(s, DropRegistry(r)), e, h)
  {
    hide Vetting, Pursued, WithJobs, NextOpen, NextJob, NextCancel, Take;
  }

  lemma KeepsHunted(s: State, a: Action, e: ExecId, h: Handle)
    requires CancelInv(s) && PlaceInv(s) && Enabled(s, a)
    ensures HuntedAt(Next(s, a), e, h)
  {
    hide PlaceInv, Hunted, CarryOn, ListedOn, TakeAll, Take, NextOpen, NextJob, NextCancel, OpenReady, JobReady, CancelReady;
    assert HuntedAt(s, e, h);
    if a.NewExec? && a.e == e {
      FreshHunted(s, a.limit, e, h);
    } else if e !in s.execs {
      StillUnknown(s, a, e);
    } else {
      match a
      case OpenDoes(o, step) => OpenKeepsHunted(s, o, step, e, h);
      case CancelDoes(c, step) => CancelKeepsHunted(s, c, step, e, h);
      case CancelStart(c, b) => StartHunted(s, c, b, e, h);
      case NewRegistry(r, x) => RegistryHunted(s, r, x, e, h);
      case DropRegistry(r) => DropHunted(s, r, e, h);
      case _ => RestHunted(s, a, e, h);
    }
  }

  lemma RestHunted(s: State, a: Action, e: ExecId, h: Handle)
    requires HuntedAt(s, e, h) && Enabled(s, a) && e in s.execs
    requires a.JobDoes? || a.Finish? || a.Abandon? || a.Expire? || a.Begin? || (a.NewExec? && a.e != e)
    ensures HuntedAt(Next(s, a), e, h)
  {
    hide Vetting, Pursued, TakeAll, Take, NextOpen, NextJob, NextCancel, OpenReady, JobReady, CancelReady;
    match a
    case JobDoes(k, step) => JobFlags(s, k, step); JobFrame(s, k, step);
    case Finish(r, k, abort) => TakenOut(s, r, k, Deciding(abort)); TakeFrame(s, r, k, Deciding(abort));
    case Abandon(r, k) => TakenOut(s, r, k, Decided(false)); TakeFrame(s, r, k, Decided(false));
    case Begin(o, r) => VettingElsewhere(s.opens, o, s.opens[o := Open(r, PoolHeld)], h);
    case _ =>
  }

  lemma FreshHunted(s: State, limit: nat, e: ExecId, h: Handle)
    ensures Hunted(Exec(limit, 0, false, false, {}), s.regs, s.files, s.opens, s.cancels, e, h)
  {
  }

  lemma KeepsCarry(s: State, a: Action)
    requires CarryOn(s.nextHandle, s.opens, s.files) && Enabled(s, a)
    ensures var s' := Next(s, a); CarryOn(s'.nextHandle, s'.opens, s'.files)
  {
    hide CarryOn, TakeAll, Take, NextOpen, NextJob, OpenReady, JobReady, CancelReady;
    match a
    case OpenDoes(o, step) => OpenKeepsCarry(s, o, step);
    case JobDoes(k, step) => JobFlags(s, k, step); JobFrame(s, k, step);
    case Begin(o, r) => CarryOpen(s.nextHandle, s.opens, s.files, o, s.opens[o := Open(r, PoolHeld)]);
    case DropRegistry(r) =>
      TakenOut(s, r, 0, Ended); TakeAllFrame(s, r);
      CarryTake(s.nextHandle, s.opens, s.files, TakeAll(s, r).files);
    case CancelDoes(_, step) =>
      if step.Sweep? {
        TakenOut(s, step.r, 0, Ended); TakeAllFrame(s, step.r);
        CarryTake(s.nextHandle, s.opens, s.files, TakeAll(s, step.r).files);
      }
    case Finish(r, k, abort) =>
      TakenOut(s, r, k, Deciding(abort)); TakeFrame(s, r, k, Deciding(abort));
      CarryTake(s.nextHandle, s.opens, s.files, Take(s, r, k, Deciding(abort)).files);
    case Abandon(r, k) =>
      TakenOut(s, r, k, Decided(false)); TakeFrame(s, r, k, Decided(false));
      CarryTake(s.nextHandle, s.opens, s.files, Take(s, r, k, Decided(false)).files);
    case _ =>
  }

  lemma SameListed(regs: Registries, execs: map<ExecId, Exec>, execs': map<ExecId, Exec>)
    requires ListedOn(regs, execs) && execs'.Keys == execs.Keys
    requires forall e :: e in execs ==> SameFlags(execs[e], execs'[e])
    ensures ListedOn(regs, execs')
  {
    forall r ensures IsListed(regs, execs', r) {
      assert IsListed(regs, execs, r);
    }
  }

  lemma KeepsListed(s: State, a: Action)
    requires ListedOn(s.regs, s.execs) && PlaceInv(s) && CancelsOn(s) && Enabled(s, a)
    ensures var s' := Next(s, a); ListedOn(s'.regs, s'.execs)
  {
    hide ListedOn, PlaceInv, TakeAll, Take, NextOpen, NextJob, OpenReady, JobReady, CancelReady, SameFlags;
    var s' := Next(s, a);
    match a
    case OpenDoes(o, step) =>
      OpenFrame(s, o, step);
      FlagsKept(s, o, step);
      SameListed(s.regs, s.execs, s'.execs);
    case JobDoes(h, step) =>
      JobFrame(s, h, step);
      JobFlags(s, h, step);
      SameListed(s.regs, s.execs, s'.execs);
    case Finish(r, h, abort) => TakeFrame(s, r, h, Deciding(abort));
    case Abandon(r, h) => TakeFrame(s, r, h, Decided(false));
    case Begin(_, _) =>
    case DropRegistry(r) =>
      TakeAllFrame(s, r);
      DropListed(s.regs, s.execs, r);
    case NewRegistry(r, x) => NewListed(s, r, x);
    case CancelDoes(c, step) =>
      if step.Sweep? { TakeAllFrame(s, step.r); }
      else if step.TakeList? { TakeListed(s.regs, s.execs, s.cancels[c].exec); }
    case NewExec(e, limit) => ExecListed(s, e, limit);
    case Expire(e) => ExpireListed(s.regs, s.execs, e);
    case CancelStart(c, e) => CancelListed(s.regs, s.execs, e);
  }

  /** A cancel in flight has already set its execution's flag. */
  ghost predicate CancelsOn(s: State) {
    forall c :: c in s.cancels ==> s.cancels[c].exec in s.execs && s.execs[s.cancels[c].exec].cancelled
  }

  lemma DropListed(regs: Registries, execs: map<ExecId, Exec>, r: RegId)
    requires ListedOn(regs, execs) && r in regs
    ensures ListedOn(regs[r := regs[r].(alive := false)], execs)
  {
    var regs' := regs[r := regs[r].(alive := false)];
    forall q ensures IsListed(regs', execs, q) { assert IsListed(regs, execs, q); }
  }

  lemma TakeListed(regs: Registries, execs: map<ExecId, Exec>, e: ExecId)
    requires ListedOn(regs, execs) && e in execs && execs[e].cancelled
    ensures ListedOn(regs, execs[e := execs[e].(listed := {})])
  {
    var execs' := execs[e := execs[e].(listed := {})];
    forall q ensures IsListed(regs, execs', q) { assert IsListed(regs, execs, q); }
  }

  lemma CancelListed(regs: Registries, execs: map<ExecId, Exec>, e: ExecId)
    requires ListedOn(regs, execs) && e in execs
    ensures ListedOn(regs, execs[e := execs[e].(cancelled := true)])
  {
    var execs' := execs[e := execs[e].(cancelled := true)];
    forall q ensures IsListed(regs, execs', q) { assert IsListed(regs, execs, q); }
  }

  lemma ExpireListed(regs: Registries, execs: map<ExecId, Exec>, e: ExecId)
    requires ListedOn(regs, execs) && e in execs
    ensures ListedOn(regs, execs[e := execs[e].(expired := true)])
  {
    var execs' := execs[e := execs[e].(expired := true)];
    forall q ensures IsListed(regs, execs', q) { assert IsListed(regs, execs, q); }
  }

  lemma ExecListed(s: State, e: ExecId, limit: nat)
    requires ListedOn(s.regs, s.execs) && PlaceInv(s) && e !in s.execs
    ensures ListedOn(s.regs, s.execs[e := Exec(limit, 0, false, false, {})])
  {
    hide PlaceInv;
    Registered(s);
    var execs' := s.execs[e := Exec(limit, 0, false, false, {})];
    forall q ensures IsListed(s.regs, execs', q) { assert IsListed(s.regs, s.execs, q); }
  }

  lemma NewListed(s: State, r: RegId, x: Option<ExecId>)
    requires ListedOn(s.regs, s.execs) && Enabled(s, NewRegistry(r, x))
    ensures var s' := Next(s, NewRegistry(r, x)); ListedOn(s'.regs, s'.execs)
  {
    hide TakeAll, Take, NextOpen, NextJob, NextCancel, OpenReady, JobReady, CancelReady;
    var s' := Next(s, NewRegistry(r, x));
    forall q ensures IsListed(s'.regs, s'.execs, q) { assert IsListed(s.regs, s.execs, q); }
  }

  lemma KeepsCancels(s: State, a: Action)
    requires CancelsOn(s) && Enabled(s, a)
    ensures CancelsOn(Next(s, a))
  {
    hide TakeAll, Take, NextOpen, NextJob, OpenReady, JobReady, CancelReady;
    match a
    case OpenDoes(o, step) => FlagsKept(s, o, step);
    case JobDoes(h, step) => JobFlags(s, h, step);
    case Finish(r, h, abort) => TakeFrame(s, r, h, Deciding(abort));
    case Abandon(r, h) => TakeFrame(s, r, h, Decided(false));
    case DropRegistry(r) => TakeAllFrame(s, r);
    case CancelDoes(_, step) => if step.Sweep? { TakeAllFrame(s, step.r); }
    case _ =>
  }

  // ------------------------------------------------------------------------ runs

  /** Everything every reachable state satisfies. */
  ghost predicate Inv(s: State) {
    PoolInv(s) && ExecInv(s) && PlaceInv(s) && CancelInv(s) && CancelsOn(s)
  }

  lemma Keeps(s: State, a: Action)
    requires Inv(s) && Enabled(s, a)
    ensures Inv(Next(s, a))
  {
    hide PoolInv, ExecInv, PlaceInv, CancelsOn, CarryOn, ListedOn, HuntedAt, Next, Enabled;
    KeepsPool(s, a);
    KeepsExec(s, a);
    KeepsPlace(s, a);
    KeepsCarry(s, a);
    KeepsListed(s, a);
    KeepsCancels(s, a);
    forall e, h ensures HuntedAt(Next(s, a), e, h) { KeepsHunted(s, a, e, h); }
  }

  lemma StartHolds(cap: nat)
    ensures Inv(Start(cap))
  {
    hide ExecOn, Places, Known, CarryOn, Hunted, IsListed;
    var s := Start(cap);
    assert InPool(s.opens) == {} && Unreleased(s.jobs) == {};
    StartPlaces();
    forall r ensures IsListed(s.regs, s.execs, r) { StartListed(r); }
  }

  lemma StartPlaces()
    ensures Places(0, map[], map[], map[], multiset{}) && Known(map[], map[], map[], map[], map[]) && CarryOn(0, map[], map[])
  {
  }

  lemma StartListed(r: RegId)
    ensures IsListed(map[], map[], r)
  {
  }

  lemma EndedOnce(next: Handle, opens: Opens, files: Files, jobs: Jobs, ends: Ends)
    requires Places(next, opens, files, jobs, ends)
    ensures forall h :: ends[h] <= 1
    ensures forall h: Handle :: h < next && h !in files && h !in jobs && h !in Unregistered(opens) ==> ends[h] == 1
  {
  }

  lemma {:induction false} RunKeeps(s: State, actions: seq<Action>, s': State)
    requires Inv(s) && IsRun(s, actions, s')
    ensures Inv(s')
    decreases |actions|
  {
    hide Inv, Next, Enabled;
    if actions != [] {
      Keeps(s, actions[0]);
      RunKeeps(Next(s, actions[0]), actions[1..], s');
    }
  }

  /** In every interleaving, from an empty pool: the counters are exact and within bounds, and
      the backend has ended no handle twice, and every handle nobody holds exactly once. */
  lemma EveryRun(cap: nat, actions: seq<Action>, s: State)
    requires IsRun(Start(cap), actions, s)
    ensures Inv(s)
    ensures 0 <= s.poolOpen == |InPool(s.opens)| + |s.files| + |Unreleased(s.jobs)| <= s.poolCap
    ensures forall e :: e in s.execs ==>
      0 <= s.execs[e].openFiles == |ExecOpens(s.opens, s.regs, e)| + |ExecFiles(s.files, s.regs, e)| + |ExecJobs(s.jobs, e)| <= s.execs[e].limit
    ensures forall h :: s.ends[h] <= 1
    ensures forall h: Handle :: h < s.nextHandle && h !in s.files && h !in s.jobs && h !in Unregistered(s.opens) ==> s.ends[h] == 1
  {
    hide IsRun, CancelInv, Unregistered, Places, Known, CancelsOn;
    StartHolds(cap);
    RunKeeps(Start(cap), actions, s);
    EndedOnce(s.nextHandle, s.opens, s.files, s.jobs, s.ends);
    forall e | e in s.execs
      ensures 0 <= s.execs[e].openFiles == |ExecOpens(s.opens, s.regs, e)| + |ExecFiles(s.files, s.regs, e)| + |ExecJobs(s.jobs, e)| <= s.execs[e].limit
    {
      assert ExecInvAt(s, e);
    }
    assert |s.files| == |s.files.Keys|;
  }

  /** Once `cancel` has returned and every open of the execution has returned, on whichever side
      of the insert the flag fell, nothing of the execution is registered. */
  lemma CancelComplete(s: State, e: ExecId)
    requires Inv(s) && e in s.execs && s.execs[e].cancelled
    requires forall c :: c in s.cancels ==> s.cancels[c].exec != e
    requires forall o :: o in s.opens ==> !Belongs(s.regs, s.opens[o].reg, e)
    ensures ExecFiles(s.files, s.regs, e) == {}
  {
    hide PoolInv, ExecInv, PlaceInv, CancelsOn, ListedOn;
    forall h | h in ExecFiles(s.files, s.regs, e) ensures false {
      assert HuntedAt(s, e, h);
    }
  }
}
