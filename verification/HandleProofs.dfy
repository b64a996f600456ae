/** What every interleaving of the handle protocol keeps. */
module HandleProofs {
  import opened Base
  import opened Handles

  type Opens = map<OpenId, Open>
  type Files = map<Handle, RegId>
  type Jobs = map<Handle, Job>

  // ------------------------------------------------------------- the pool's count

  lemma OpenPool(cap: nat, n: int, opens: Opens, files: Files, jobs: Jobs, o: OpenId, x: Open, n': int)
    requires PoolOn(cap, n, opens, files, jobs) && n' <= cap
    requires n' - n == (if OpenInPool(x.pc) then 1 else 0) - (if o in opens && OpenInPool(opens[o].pc) then 1 else 0)
    ensures PoolOn(cap, n', opens[o := x], files, jobs)
  {
    hide Unreleased, OpenInPool, InPool;
    InPoolStep(opens, o, x);
  }

  lemma InPoolStep(opens: Opens, o: OpenId, x: Open)
    ensures InPool(opens[o := x]) == if OpenInPool(x.pc) then InPool(opens) + {o} else InPool(opens) - {o}
    ensures o in InPool(opens) <==> o in opens && OpenInPool(opens[o].pc)
  {
    hide OpenInPool;
  }

  lemma OpenGonePool(cap: nat, n: int, opens: Opens, files: Files, jobs: Jobs, o: OpenId, n': int)
    requires PoolOn(cap, n, opens, files, jobs) && o in opens
    requires n' == n - (if OpenInPool(opens[o].pc) then 1 else 0)
    ensures PoolOn(cap, n', opens - {o}, files, jobs)
  {
    assert InPool(opens - {o}) == InPool(opens) - {o};
  }

  lemma JobPool(cap: nat, n: int, opens: Opens, files: Files, jobs: Jobs, h: Handle, j: Job, n': int)
    requires PoolOn(cap, n, opens, files, jobs) && n' <= cap
    requires n' - n == (if j.pc != HalfReleased then 1 else 0) - (if h in jobs && jobs[h].pc != HalfReleased then 1 else 0)
    ensures PoolOn(cap, n', opens, files, jobs[h := j])
  {
    assert Unreleased(jobs[h := j]) == if j.pc != HalfReleased then Unreleased(jobs) + {h} else Unreleased(jobs) - {h};
  }

  lemma JobGonePool(cap: nat, n: int, opens: Opens, files: Files, jobs: Jobs, h: Handle)
    requires PoolOn(cap, n, opens, files, jobs) && h in jobs && jobs[h].pc == HalfReleased
    ensures PoolOn(cap, n, opens, files, jobs - {h})
  {
    assert Unreleased(jobs - {h}) == Unreleased(jobs);
  }

  lemma InsertPool(cap: nat, n: int, opens: Opens, files: Files, jobs: Jobs, o: OpenId, x: Open, h: Handle, r: RegId)
    requires PoolOn(cap, n, opens, files, jobs) && o in opens && OpenInPool(opens[o].pc) && !OpenInPool(x.pc) && h !in files
    ensures PoolOn(cap, n, opens[o := x], files[h := r], jobs)
  {
    assert InPool(opens[o := x]) == InPool(opens) - {o} && o in InPool(opens);
    assert files[h := r].Keys == files.Keys + {h};
  }

  lemma TakePool(cap: nat, n: int, opens: Opens, files: Files, jobs: Jobs, h: Handle, j: Job)
    requires PoolOn(cap, n, opens, files, jobs) && h in files && h !in jobs && j.pc != HalfReleased
    ensures PoolOn(cap, n, opens, files - {h}, jobs[h := j])
  {
    assert Unreleased(jobs[h := j]) == Unreleased(jobs) + {h};
    assert (files - {h}).Keys == files.Keys - {h};
  }

  lemma WithJobsStep(jobs: Jobs, hs: set<Handle>, h: Handle, j: Job)
    requires h in hs
    ensures WithJobs(jobs, hs, j) == WithJobs(jobs[h := j], hs - {h}, j)
    ensures WithJobs(jobs, {}, j) == jobs
  {
  }

  lemma WithoutStep(files: Files, hs: set<Handle>, h: Handle)
    requires h in hs
    ensures files - hs == files - {h} - (hs - {h})
    ensures files - {} == files
  {
  }

  /** Moving handles from the registry to jobs moves them from one term of the count to another. */
  lemma {:induction false} TakeAllPool(cap: nat, n: int, opens: Opens, files: Files, jobs: Jobs, hs: set<Handle>, j: Job)
    requires PoolOn(cap, n, opens, files, jobs) && hs <= files.Keys && hs !! jobs.Keys && j.pc != HalfReleased
    ensures PoolOn(cap, n, opens, files - hs, WithJobs(jobs, hs, j))
    decreases hs
  {
    hide PoolOn, WithJobs;
    if hs == {} {
      WithJobsStep(jobs, {0}, 0, j);
      WithoutStep(files, {0}, 0);
    } else {
      var h :| h in hs;
      TakePool(cap, n, opens, files, jobs, h, j);
      TakeAllPool(cap, n, opens, files - {h}, jobs[h := j], hs - {h}, j);
      WithJobsStep(jobs, hs, h, j);
      WithoutStep(files, hs, h);
    }
  }

  /** The parts of `PlaceInv` that the counts rest on. */
  lemma Apart(s: State)
    requires PlaceInv(s)
    ensures forall h :: h in s.files ==> h !in s.jobs
    ensures forall o :: o in s.opens && s.opens[o].pc.Opened? ==> s.opens[o].pc.h !in s.files && s.opens[o].pc.h !in s.jobs
  {
  }

  lemma WithinCap(s: State)
    requires PoolInv(s)
    ensures 0 <= s.poolOpen <= s.poolCap
  {
  }

  lemma WithdrawKeepsPool(s: State, o: OpenId)
    requires PoolInv(s) && PlaceInv(s) && o in s.opens && s.opens[o].pc.Doomed?
    ensures PoolInv(NextOpen(s, o, Withdraw))
  {
    hide PlaceInv, PoolOn, ExecOf;
    Apart(s);
    var h, r := s.opens[o].pc.h, s.opens[o].reg;
    OpenGonePool(s.poolCap, s.poolOpen, s.opens, s.files, s.jobs, o, s.poolOpen);
    if h in s.files && s.files[h] == r {
      TakePool(s.poolCap, s.poolOpen, s.opens - {o}, s.files, s.jobs, h, Job(ExecOf(s, r), Decided(false)));
    }
  }

  lemma OpenKeepsPool(s: State, o: OpenId, step: OpenStep)
    requires PoolInv(s) && PlaceInv(s) && o in s.opens && OpenReady(s.opens[o].pc, step)
    ensures PoolInv(NextOpen(s, o, step))
  {
    hide PlaceInv, PoolOn, ExecOf, IsCancelled, Charge;
    ChargeKeys(s, ExecOf(s, s.opens[o].reg), -1);
    Apart(s);
    var s' := NextOpen(s, o, step);
    match step
    case Insert => InsertPool(s.poolCap, s.poolOpen, s.opens, s.files, s.jobs, o, s'.opens[o], s.opens[o].pc.h, s.opens[o].reg);
    case Withdraw => WithdrawKeepsPool(s, o);
    case GiveUp => OpenGonePool(s.poolCap, s.poolOpen, s.opens, s.files, s.jobs, o, s'.poolOpen);
    case UndoExec => OpenGonePool(s.poolCap, s.poolOpen, s.opens, s.files, s.jobs, o, s'.poolOpen);
    case Deliver => OpenGonePool(s.poolCap, s.poolOpen, s.opens, s.files, s.jobs, o, s'.poolOpen);
    case _ => OpenStaysPool(s, o, step);
  }

  lemma OpenStaysPool(s: State, o: OpenId, step: OpenStep)
    requires PoolInv(s) && o in s.opens && OpenReady(s.opens[o].pc, step)
    requires step.CheckExec? || step.Acquire? || step.BackendOpen? || step.UndoPool? || step.ReadFlag?
    ensures PoolInv(NextOpen(s, o, step))
  {
    hide PoolOn, OpenInPool, NextOpen;
    WithinCap(s);
    OpenStays(s, o, step);
    var s' := NextOpen(s, o, step);
    OpenPool(s.poolCap, s.poolOpen, s.opens, s.files, s.jobs, o, s'.opens[o], s'.poolOpen);
  }

  lemma OpenStays(s: State, o: OpenId, step: OpenStep)
    requires o in s.opens && OpenReady(s.opens[o].pc, step)
    requires step.CheckExec? || step.Acquire? || step.BackendOpen? || step.UndoPool? || step.ReadFlag?
    ensures var s' := NextOpen(s, o, step);
      && o in s'.opens && s'.opens == s.opens[o := s'.opens[o]] && s'.files == s.files && s'.jobs == s.jobs
      && s'.poolCap == s.poolCap
      && s'.poolOpen == s.poolOpen - (if step.UndoPool? then 1 else 0)
      && OpenInPool(s.opens[o].pc) == (step != ReadFlag) && OpenInPool(s'.opens[o].pc) == (step != ReadFlag && step != UndoPool)
  {
    hide ExecOf, IsCancelled, Charge;
    ChargeKeys(s, ExecOf(s, s.opens[o].reg), 1);
    match step
    case Acquire =>
    case _ =>
  }

  lemma JobKeepsPool(s: State, h: Handle, step: JobStep)
    requires PoolInv(s) && h in s.jobs && JobReady(s.jobs[h].pc, step)
    ensures PoolInv(NextJob(s, h, step))
  {
    hide PoolOn, IsCancelled;
    WithinCap(s);
    var s' := NextJob(s, h, step);
    match step
    case ReleaseExec => JobGonePool(s.poolCap, s.poolOpen, s.opens, s.files, s.jobs, h);
    case _ => JobPool(s.poolCap, s.poolOpen, s.opens, s.files, s.jobs, h, s'.jobs[h], s'.poolOpen);
  }

  lemma SweepKeepsPool(s: State, r: RegId)
    requires PoolInv(s) && PlaceInv(s)
    ensures PoolInv(TakeAll(s, r))
  {
    hide PlaceInv, PoolOn, ExecOf;
    Apart(s);
    TakeAllPool(s.poolCap, s.poolOpen, s.opens, s.files, s.jobs, FilesIn(s, r), Job(ExecOf(s, r), Decided(false)));
  }

  lemma TakeKeepsPool(s: State, r: RegId, h: Handle, pc: JobPc)
    requires PoolInv(s) && PlaceInv(s) && pc != HalfReleased
    ensures PoolInv(Take(s, r, h, pc))
  {
    hide PlaceInv, PoolOn, ExecOf;
    Apart(s);
    if h in s.files && s.files[h] == r {
      TakePool(s.poolCap, s.poolOpen, s.opens, s.files, s.jobs, h, Job(ExecOf(s, r), pc));
    }
  }

  /** The pool's count stays exact, non-negative and within capacity at every step. */
  lemma KeepsPool(s: State, a: Action)
    requires PoolInv(s) && PlaceInv(s) && Enabled(s, a)
    ensures PoolInv(Next(s, a))
  {
    hide PlaceInv, PoolOn, TakeAll, ExecOf, IsCancelled, NextOpen, NextJob, Take, OpenReady, JobReady;
    WithinCap(s);
    match a
    case Begin(o, r) => OpenPool(s.poolCap, s.poolOpen, s.opens, s.files, s.jobs, o, Open(r, PoolHeld), s.poolOpen + 1);
    case OpenDoes(o, step) => OpenKeepsPool(s, o, step);
    case JobDoes(h, step) => JobKeepsPool(s, h, step);
    case DropRegistry(r) => SweepKeepsPool(s, r);
    case CancelDoes(_, step) => if step.Sweep? { SweepKeepsPool(s, step.r); }
    case Finish(r, h, abort) => TakeKeepsPool(s, r, h, Deciding(abort));
    case Abandon(r, h) => TakeKeepsPool(s, r, h, Decided(false));
    case _ =>
  }

  // --------------------------------------------------------- an execution's count

  function One(b: bool): int { if b then 1 else 0 }

  predicate OpenCounts(opens: Opens, regs: Registries, o: OpenId, e: ExecId) {
    o in opens && OpenInExec(opens[o].pc) && Belongs(regs, opens[o].reg, e)
  }

  predicate JobCounts(jobs: Jobs, h: Handle, e: ExecId) { h in jobs && jobs[h].exec == Some(e) }

  lemma ExecOpensStep(opens: Opens, regs: Registries, e: ExecId, o: OpenId, opens': Opens)
    requires opens' == opens - {o} || (o in opens' && opens' == opens[o := opens'[o]])
    ensures ExecOpens(opens', regs, e)
      == if OpenCounts(opens', regs, o, e) then ExecOpens(opens, regs, e) + {o} else ExecOpens(opens, regs, e) - {o}
    ensures o in ExecOpens(opens, regs, e) <==> OpenCounts(opens, regs, o, e)
  {
    hide OpenInExec;
  }

  lemma OpenExec(x: Exec, opens: Opens, files: Files, jobs: Jobs, regs: Registries, e: ExecId, o: OpenId, opens': Opens, x': Exec)
    requires ExecOn(x, opens, files, jobs, regs, e) && x'.limit == x.limit && x'.openFiles <= x.limit
    requires opens' == opens - {o} || (o in opens' && opens' == opens[o := opens'[o]])
    requires x'.openFiles - x.openFiles == One(OpenCounts(opens', regs, o, e)) - One(OpenCounts(opens, regs, o, e))
    ensures ExecOn(x', opens', files, jobs, regs, e)
  {
    hide ExecOpens, ExecFiles, ExecJobs, OpenCounts;
    ExecOpensStep(opens, regs, e, o, opens');
  }

  lemma JobExec(x: Exec, opens: Opens, files: Files, jobs: Jobs, regs: Registries, e: ExecId, h: Handle, jobs': Jobs, x': Exec)
    requires ExecOn(x, opens, files, jobs, regs, e) && x'.limit == x.limit && x'.openFiles <= x.limit
    requires jobs' == jobs - {h} || (h in jobs' && jobs' == jobs[h := jobs'[h]])
    requires x'.openFiles - x.openFiles == One(JobCounts(jobs', h, e)) - One(JobCounts(jobs, h, e))
    ensures ExecOn(x', opens, files, jobs', regs, e)
  {
    assert ExecJobs(jobs', e) == if JobCounts(jobs', h, e) then ExecJobs(jobs, e) + {h} else ExecJobs(jobs, e) - {h};
  }

  lemma ExecFilesStep(files: Files, regs: Registries, e: ExecId, h: Handle, r: RegId)
    ensures ExecFiles(files[h := r], regs, e)
      == if Belongs(regs, r, e) then ExecFiles(files, regs, e) + {h} else ExecFiles(files, regs, e) - {h}
    ensures ExecFiles(files - {h}, regs, e) == ExecFiles(files, regs, e) - {h}
    ensures h in ExecFiles(files, regs, e) <==> h in files && Belongs(regs, files[h], e)
  {
  }

  lemma ExecJobsStep(jobs: Jobs, e: ExecId, h: Handle, j: Job)
    ensures ExecJobs(jobs[h := j], e) == if j.exec == Some(e) then ExecJobs(jobs, e) + {h} else ExecJobs(jobs, e) - {h}
    ensures h in ExecJobs(jobs, e) <==> JobCounts(jobs, h, e)
  {
  }

  lemma InsertExec(x: Exec, opens: Opens, files: Files, jobs: Jobs, regs: Registries, e: ExecId, o: OpenId, h: Handle)
    requires ExecOn(x, opens, files, jobs, regs, e) && o in opens && opens[o].pc.Opened? && h !in files
    ensures ExecOn(x, opens[o := Open(opens[o].reg, Inserted(h))], files[h := opens[o].reg], jobs, regs, e)
  {
    hide ExecOpens, ExecFiles, ExecJobs, Belongs;
    var r := opens[o].reg;
    ExecOpensStep(opens, regs, e, o, opens[o := Open(r, Inserted(h))]);
    ExecFilesStep(files, regs, e, h, r);
  }

  lemma TakeExec(x: Exec, opens: Opens, files: Files, jobs: Jobs, regs: Registries, e: ExecId, h: Handle, j: Job)
    requires ExecOn(x, opens, files, jobs, regs, e) && h in files && h !in jobs
    requires j.exec == Some(e) <==> Belongs(regs, files[h], e)
    ensures ExecOn(x, opens, files - {h}, jobs[h := j], regs, e)
  {
    hide ExecOpens, ExecFiles, ExecJobs, Belongs;
    ExecFilesStep(files, regs, e, h, files[h]);
    ExecJobsStep(jobs, e, h, j);
  }

  lemma {:induction false} TakeAllExec(x: Exec, opens: Opens, files: Files, jobs: Jobs, regs: Registries, e: ExecId, hs: set<Handle>, j: Job)
    requires ExecOn(x, opens, files, jobs, regs, e) && hs <= files.Keys && hs !! jobs.Keys
    requires forall h :: h in hs ==> (j.exec == Some(e) <==> Belongs(regs, files[h], e))
    ensures ExecOn(x, opens, files - hs, WithJobs(jobs, hs, j), regs, e)
    decreases hs
  {
    hide ExecOn, WithJobs;
    if hs == {} {
      WithJobsStep(jobs, {0}, 0, j);
      WithoutStep(files, {0}, 0);
    } else {
      var h :| h in hs;
      TakeExec(x, opens, files, jobs, regs, e, h, j);
      TakeAllExec(x, opens, files - {h}, jobs[h := j], regs, e, hs - {h}, j);
      WithJobsStep(jobs, hs, h, j);
      WithoutStep(files, hs, h);
    }
  }

  /** Only the counter matters to the invariant, not the flags or the list beside it. */
  lemma ExecFlags(x: Exec, x': Exec, opens: Opens, files: Files, jobs: Jobs, regs: Registries, regs': Registries, e: ExecId)
    requires ExecOn(x, opens, files, jobs, regs, e) && x'.limit == x.limit && x'.openFiles == x.openFiles
    requires forall r :: r in regs ==> r in regs' && regs'[r].exec == regs[r].exec
    requires forall o :: o in opens ==> opens[o].reg in regs
    requires forall h :: h in files ==> files[h] in regs
    ensures ExecOn(x', opens, files, jobs, regs', e)
  {
    assert ExecOpens(opens, regs', e) == ExecOpens(opens, regs, e);
    assert ExecFiles(files, regs', e) == ExecFiles(files, regs, e);
  }

  lemma ExecBound(s: State, e: ExecId)
    requires ExecInvAt(s, e)
    ensures e in s.execs ==> 0 <= s.execs[e].openFiles <= s.execs[e].limit
  {
  }

  lemma Registered(s: State)
    requires PlaceInv(s)
    ensures forall o :: o in s.opens ==> s.opens[o].reg in s.regs
    ensures forall h :: h in s.files ==> s.files[h] in s.regs
    ensures forall r :: r in s.regs && s.regs[r].exec.Some? ==> s.regs[r].exec.value in s.execs
    ensures forall h :: h in s.jobs && s.jobs[h].exec.Some? ==> s.jobs[h].exec.value in s.execs
  {
  }

  /** Each step of an open changes the counter of its own execution by what it changes the set,
      and no other counter. */
  lemma OpenEffect(s: State, o: OpenId, step: OpenStep, e: ExecId)
    requires o in s.opens && OpenReady(s.opens[o].pc, step) && e in s.execs && !step.Insert? && !step.Withdraw?
    requires s.opens[o].reg in s.regs && s.execs[e].openFiles <= s.execs[e].limit
    ensures var s' := NextOpen(s, o, step);
      && e in s'.execs && s'.execs[e].limit == s.execs[e].limit && s'.execs[e].openFiles <= s.execs[e].limit
      && s'.files == s.files && s'.jobs == s.jobs && s'.regs == s.regs
      && (s'.opens == s.opens - {o} || (o in s'.opens && s'.opens == s.opens[o := s'.opens[o]]))
      && s'.execs[e].openFiles - s.execs[e].openFiles
         == One(OpenCounts(s'.opens, s'.regs, o, e)) - One(OpenCounts(s.opens, s.regs, o, e))
  {
    hide IsCancelled;
    match step
    case CheckExec =>
    case Acquire =>
    case UndoExec =>
    case _ =>
  }

  lemma OpenKeepsExec(s: State, o: OpenId, step: OpenStep, e: ExecId)
    requires ExecInvAt(s, e) && PlaceInv(s) && o in s.opens && OpenReady(s.opens[o].pc, step) && e in s.execs
    ensures ExecInvAt(NextOpen(s, o, step), e)
  {
    hide PlaceInv, ExecOn, NextOpen, OpenCounts;
    ExecBound(s, e);
    Registered(s);
    if step.Insert? {
      InsertKeepsExec(s, o, e);
    } else if step.Withdraw? {
      WithdrawKeepsExec(s, o, e);
    } else {
      OpenEffect(s, o, step, e);
      var s' := NextOpen(s, o, step);
      OpenExec(s.execs[e], s.opens, s.files, s.jobs, s.regs, e, o, s'.opens, s'.execs[e]);
    }
  }

  lemma InsertKeepsExec(s: State, o: OpenId, e: ExecId)
    requires ExecInvAt(s, e) && PlaceInv(s) && o in s.opens && s.opens[o].pc.Opened? && e in s.execs
    ensures ExecInvAt(NextOpen(s, o, Insert), e)
  {
    hide PlaceInv, ExecOn;
    Apart(s);
    InsertExec(s.execs[e], s.opens, s.files, s.jobs, s.regs, e, o, s.opens[o].pc.h);
  }

  lemma WithdrawKeepsExec(s: State, o: OpenId, e: ExecId)
    requires ExecInvAt(s, e) && PlaceInv(s) && o in s.opens && s.opens[o].pc.Doomed? && e in s.execs
    ensures ExecInvAt(NextOpen(s, o, Withdraw), e)
  {
    hide PlaceInv, ExecOn;
    Apart(s);
    ExecBound(s, e);
    var h, r := s.opens[o].pc.h, s.opens[o].reg;
    OpenExec(s.execs[e], s.opens, s.files, s.jobs, s.regs, e, o, s.opens - {o}, s.execs[e]);
    if h in s.files && s.files[h] == r {
      TakeExec(s.execs[e], s.opens - {o}, s.files, s.jobs, s.regs, e, h, Job(ExecOf(s, r), Decided(false)));
    }
  }

  lemma JobKeepsExec(s: State, h: Handle, step: JobStep, e: ExecId)
    requires ExecInvAt(s, e) && h in s.jobs && JobReady(s.jobs[h].pc, step) && e in s.execs
    ensures ExecInvAt(NextJob(s, h, step), e)
  {
    hide ExecOn, IsCancelled;
    ExecBound(s, e);
    var s' := NextJob(s, h, step);
    JobExec(s.execs[e], s.opens, s.files, s.jobs, s.regs, e, h, s'.jobs, s'.execs[e]);
  }

  lemma SweepKeepsExec(s: State, r: RegId, e: ExecId)
    requires ExecInvAt(s, e) && PlaceInv(s) && e in s.execs
    ensures ExecInvAt(TakeAll(s, r), e)
  {
    hide PlaceInv, ExecOn, WithJobs;
    Apart(s);
    TakeAllExec(s.execs[e], s.opens, s.files, s.jobs, s.regs, e, FilesIn(s, r), Job(ExecOf(s, r), Decided(false)));
  }

  lemma TakeKeepsExec(s: State, r: RegId, h: Handle, pc: JobPc, e: ExecId)
    requires ExecInvAt(s, e) && PlaceInv(s) && e in s.execs
    ensures ExecInvAt(Take(s, r, h, pc), e)
  {
    hide PlaceInv, ExecOn;
    Apart(s);
    if h in s.files && s.files[h] == r {
      TakeExec(s.execs[e], s.opens, s.files, s.jobs, s.regs, e, h, Job(ExecOf(s, r), pc));
    }
  }

  /** A registry that is new or gone, or an execution's flags: the counts do not see them. */
  lemma RestKeepsExec(s: State, s': State, e: ExecId)
    requires ExecInvAt(s, e) && PlaceInv(s) && e in s.execs && e in s'.execs
    requires s'.opens == s.opens && s'.files == s.files && s'.jobs == s.jobs
    requires s'.execs[e].limit == s.execs[e].limit && s'.execs[e].openFiles == s.execs[e].openFiles
    requires forall r :: r in s.regs ==> r in s'.regs && s'.regs[r].exec == s.regs[r].exec
    ensures ExecInvAt(s', e)
  {
    hide PlaceInv, ExecOn;
    Registered(s);
    ExecFlags(s.execs[e], s'.execs[e], s.opens, s.files, s.jobs, s.regs, s'.regs, e);
  }

  // ------------------------------------------------------------- places of handles

  type Ends = multiset<Handle>

  predicate IsOpened(opens: Opens, o: OpenId) { o in opens && opens[o].pc.Opened? }

  lemma UnregisteredQuiet(opens: Opens, opens': Opens, o: OpenId)
    requires !IsOpened(opens, o) && !IsOpened(opens', o)
    requires forall p :: p != o ==> (p in opens <==> p in opens') && (p in opens ==> opens'[p] == opens[p])
    ensures Unregistered(opens') == Unregistered(opens)
  {
    forall h | h in Unregistered(opens) ensures h in Unregistered(opens') {
      var p :| p in opens && opens[p].pc.Opened? && opens[p].pc.h == h;
      assert opens'[p] == opens[p];
    }
    forall h | h in Unregistered(opens') ensures h in Unregistered(opens) {
      var p :| p in opens' && opens'[p].pc.Opened? && opens'[p].pc.h == h;
      assert opens'[p] == opens[p];
    }
  }

  lemma QuietPlaces(next: Handle, opens: Opens, files: Files, jobs: Jobs, ends: Ends, o: OpenId, opens': Opens)
    requires Places(next, opens, files, jobs, ends) && !IsOpened(opens, o) && !IsOpened(opens', o)
    requires opens' == opens - {o} || (o in opens' && opens' == opens[o := opens'[o]])
    ensures Places(next, opens', files, jobs, ends)
  {
    hide Unregistered;
    UnregisteredQuiet(opens, opens', o);
  }

  lemma UnregisteredAdd(opens: Opens, o: OpenId, r: RegId, h: Handle)
    requires !IsOpened(opens, o)
    ensures Unregistered(opens[o := Open(r, Opened(h))]) == Unregistered(opens) + {h}
  {
    var opens' := opens[o := Open(r, Opened(h))];
    assert opens'[o].pc.h == h;
    forall k | k in Unregistered(opens) ensures k in Unregistered(opens') {
      var p :| p in opens && opens[p].pc.Opened? && opens[p].pc.h == k;
      assert opens'[p] == opens[p];
    }
  }

  lemma OpenPlaces(next: Handle, opens: Opens, files: Files, jobs: Jobs, ends: Ends, o: OpenId, r: RegId)
    requires Places(next, opens, files, jobs, ends) && !IsOpened(opens, o)
    ensures Places(next + 1, opens[o := Open(r, Opened(next))], files, jobs, ends)
  {
    hide Unregistered;
    UnregisteredAdd(opens, o, r, next);
    assert ends[next] == 0;
  }

  lemma UnregisteredDrop(opens: Opens, o: OpenId, x: Open)
    requires IsOpened(opens, o) && !x.pc.Opened?
    requires forall p :: p in opens && p != o && opens[p].pc.Opened? ==> opens[p].pc.h != opens[o].pc.h
    ensures Unregistered(opens[o := x]) == Unregistered(opens) - {opens[o].pc.h}
  {
    var opens' := opens[o := x];
    forall h | h in Unregistered(opens) - {opens[o].pc.h} ensures h in Unregistered(opens') {
      var p :| p in opens && opens[p].pc.Opened? && opens[p].pc.h == h;
      assert opens'[p] == opens[p];
    }
  }

  lemma InsertPlaces(next: Handle, opens: Opens, files: Files, jobs: Jobs, ends: Ends, o: OpenId)
    requires Places(next, opens, files, jobs, ends) && IsOpened(opens, o)
    ensures var h := opens[o].pc.h;
      Places(next, opens[o := Open(opens[o].reg, Inserted(h))], files[h := opens[o].reg], jobs, ends)
  {
    UnregisteredDrop(opens, o, Open(opens[o].reg, Inserted(opens[o].pc.h)));
    hide Unregistered;
  }

  lemma TakePlaces(next: Handle, opens: Opens, files: Files, jobs: Jobs, ends: Ends, h: Handle, j: Job)
    requires Places(next, opens, files, jobs, ends) && h in files && !HasEnded(j.pc)
    ensures Places(next, opens, files - {h}, jobs[h := j], ends)
  {
    hide Unregistered;
  }

  lemma {:induction false} TakeAllPlaces(next: Handle, opens: Opens, files: Files, jobs: Jobs, ends: Ends, hs: set<Handle>, j: Job)
    requires Places(next, opens, files, jobs, ends) && hs <= files.Keys && !HasEnded(j.pc)
    ensures Places(next, opens, files - hs, WithJobs(jobs, hs, j), ends)
    decreases hs
  {
    hide Places, WithJobs;
    if hs == {} {
      WithJobsStep(jobs, {0}, 0, j);
      WithoutStep(files, {0}, 0);
    } else {
      var h :| h in hs;
      TakePlaces(next, opens, files, jobs, ends, h, j);
      TakeAllPlaces(next, opens, files - {h}, jobs[h := j], ends, hs - {h}, j);
      WithJobsStep(jobs, hs, h, j);
      WithoutStep(files, hs, h);
    }
  }

  lemma JobPlaces(next: Handle, opens: Opens, files: Files, jobs: Jobs, ends: Ends, h: Handle, j: Job)
    requires Places(next, opens, files, jobs, ends) && h in jobs && HasEnded(j.pc) == HasEnded(jobs[h].pc)
    ensures Places(next, opens, files, jobs[h := j], ends)
  {
    hide Unregistered;
  }

  lemma EndPlaces(next: Handle, opens: Opens, files: Files, jobs: Jobs, ends: Ends, h: Handle, j: Job)
    requires Places(next, opens, files, jobs, ends) && h in jobs && !HasEnded(jobs[h].pc) && HasEnded(j.pc)
    ensures Places(next, opens, files, jobs[h := j], ends + multiset{h})
  {
    hide Unregistered;
  }

  lemma GonePlaces(next: Handle, opens: Opens, files: Files, jobs: Jobs, ends: Ends, h: Handle)
    requires Places(next, opens, files, jobs, ends) && h in jobs && HasEnded(jobs[h].pc)
    ensures Places(next, opens, files, jobs - {h}, ends)
  {
    hide Unregistered;
  }

  lemma OpenKeepsPlaces(s: State, o: OpenId, step: OpenStep)
    requires PlaceInv(s) && o in s.opens && OpenReady(s.opens[o].pc, step)
    ensures var s' := NextOpen(s, o, step); Places(s'.nextHandle, s'.opens, s'.files, s'.jobs, s'.ends)
  {
    hide Places, Known, ExecOf, IsCancelled;
    var s' := NextOpen(s, o, step);
    match step
    case BackendOpen(ok) =>
      if ok {
        OpenPlaces(s.nextHandle, s.opens, s.files, s.jobs, s.ends, o, s.opens[o].reg);
      } else {
        QuietPlaces(s.nextHandle, s.opens, s.files, s.jobs, s.ends, o, s'.opens);
      }
    case Insert => InsertPlaces(s.nextHandle, s.opens, s.files, s.jobs, s.ends, o);
    case Withdraw =>
      var h, r := s.opens[o].pc.h, s.opens[o].reg;
      QuietPlaces(s.nextHandle, s.opens, s.files, s.jobs, s.ends, o, s.opens - {o});
      if h in s.files && s.files[h] == r {
        TakePlaces(s.nextHandle, s.opens - {o}, s.files, s.jobs, s.ends, h, Job(ExecOf(s, r), Decided(false)));
      }
    case _ => QuietPlaces(s.nextHandle, s.opens, s.files, s.jobs, s.ends, o, s'.opens);
  }

  lemma JobKeepsPlaces(s: State, h: Handle, step: JobStep)
    requires PlaceInv(s) && h in s.jobs && JobReady(s.jobs[h].pc, step)
    ensures var s' := NextJob(s, h, step); Places(s'.nextHandle, s'.opens, s'.files, s'.jobs, s'.ends)
  {
    hide Places, Known, IsCancelled;
    var s' := NextJob(s, h, step);
    match step
    case End => EndPlaces(s.nextHandle, s.opens, s.files, s.jobs, s.ends, h, s'.jobs[h]);
    case ReleaseExec => GonePlaces(s.nextHandle, s.opens, s.files, s.jobs, s.ends, h);
    case _ => JobPlaces(s.nextHandle, s.opens, s.files, s.jobs, s.ends, h, s'.jobs[h]);
  }

  // ---------------------------------------------------------------- every step

  lemma {:induction false} KnownTakeAll(opens: Opens, files: Files, jobs: Jobs, regs: Registries, execs: map<ExecId, Exec>, hs: set<Handle>, j: Job)
    requires Known(opens, files, jobs, regs, execs) && (j.exec.Some? ==> j.exec.value in execs)
    ensures Known(opens, files - hs, WithJobs(jobs, hs, j), regs, execs)
  {
  }

  lemma KnownSet(opens: Opens, files: Files, jobs: Jobs, regs: Registries, execs: map<ExecId, Exec>,
                 opens': Opens, files': Files, jobs': Jobs, regs': Registries, execs': map<ExecId, Exec>)
    requires Known(opens, files, jobs, regs, execs)
    requires execs.Keys <= execs'.Keys
    requires forall r :: r in regs ==> r in regs' && regs'[r].exec == regs[r].exec
    requires forall r :: r in regs' && r !in regs ==> regs'[r].exec.Some? ==> regs'[r].exec.value in execs'
    requires forall o :: o in opens' ==> opens'[o].reg in regs' && regs'[opens'[o].reg].alive
    requires forall h :: h in files' ==> files'[h] in regs' && regs'[files'[h]].alive
    requires forall h :: h in jobs' && jobs'[h].exec.Some? ==>
      (h in jobs && jobs'[h].exec == jobs[h].exec) || jobs'[h].exec.value in execs'
    ensures Known(opens', files', jobs', regs', execs')
  {
  }

  /** What a step of an open can touch. */
  lemma OpenFrame(s: State, o: OpenId, step: OpenStep)
    requires o in s.opens && OpenReady(s.opens[o].pc, step)
    ensures var s' := NextOpen(s, o, step);
      && s'.regs == s.regs && s'.execs.Keys == s.execs.Keys
      && (s'.opens == s.opens - {o} || (o in s'.opens && s'.opens == s.opens[o := s'.opens[o]] && s'.opens[o].reg == s.opens[o].reg))
      && (s'.files == s.files || (step.Insert? && s'.files == s.files[s.opens[o].pc.h := s.opens[o].reg])
          || (step.Withdraw? && s.opens[o].pc.h in s.files && s'.files == s.files - {s.opens[o].pc.h}))
      && (s'.jobs == s.jobs || (step.Withdraw? && s'.jobs == s.jobs[s.opens[o].pc.h := Job(ExecOf(s, s.opens[o].reg), Decided(false))]))
  {
    hide IsCancelled, ExecOf, Charge;
    match step
    case Acquire => ChargeKeys(s, ExecOf(s, s.opens[o].reg), 1);
    case UndoExec => ChargeKeys(s, ExecOf(s, s.opens[o].reg), -1);
    case Insert =>
    case Withdraw => WithdrawFrame(s, o);
    case _ =>
  }

  lemma WithdrawFrame(s: State, o: OpenId)
    requires o in s.opens && s.opens[o].pc.Doomed?
    ensures var s', h := NextOpen(s, o, Withdraw), s.opens[o].pc.h;
      && s'.regs == s.regs && s'.execs == s.execs && s'.opens == s.opens - {o}
      && (if h in s.files && s.files[h] == s.opens[o].reg
          then s'.files == s.files - {h} && s'.jobs == s.jobs[h := Job(ExecOf(s, s.opens[o].reg), Decided(false))]
          else s'.files == s.files && s'.jobs == s.jobs)
  {
    hide ExecOf;
  }

  lemma ChargeKeys(s: State, x: Option<ExecId>, n: int)
    ensures Charge(s, x, n) == s.(execs := Charge(s, x, n).execs) && Charge(s, x, n).execs.Keys == s.execs.Keys
  {
  }

  lemma OpenKeepsKnown(s: State, o: OpenId, step: OpenStep)
    requires PlaceInv(s) && o in s.opens && OpenReady(s.opens[o].pc, step)
    ensures var s' := NextOpen(s, o, step); Known(s'.opens, s'.files, s'.jobs, s'.regs, s'.execs)
  {
    hide Places, IsCancelled, NextOpen, OpenReady;
    var s' := NextOpen(s, o, step);
    OpenFrame(s, o, step);
    KnownSet(s.opens, s.files, s.jobs, s.regs, s.execs, s'.opens, s'.files, s'.jobs, s'.regs, s'.execs);
  }

  lemma JobKeepsKnown(s: State, h: Handle, step: JobStep)
    requires PlaceInv(s) && h in s.jobs && JobReady(s.jobs[h].pc, step)
    ensures var s' := NextJob(s, h, step); Known(s'.opens, s'.files, s'.jobs, s'.regs, s'.execs)
  {
    hide Places, IsCancelled, NextJob, JobReady;
    var s' := NextJob(s, h, step);
    JobFrame(s, h, step);
    KnownSet(s.opens, s.files, s.jobs, s.regs, s.execs, s'.opens, s'.files, s'.jobs, s'.regs, s'.execs);
  }

  lemma TakeKeepsPlace(s: State, r: RegId, h: Handle, pc: JobPc)
    requires PlaceInv(s) && !HasEnded(pc)
    ensures PlaceInv(Take(s, r, h, pc))
  {
    hide Places;
    if h in s.files && s.files[h] == r {
      TakePlaces(s.nextHandle, s.opens, s.files, s.jobs, s.ends, h, Job(ExecOf(s, r), pc));
    }
  }

  lemma SweepKeepsPlace(s: State, r: RegId)
    requires PlaceInv(s)
    ensures PlaceInv(TakeAll(s, r))
    ensures forall h :: h in TakeAll(s, r).files ==> TakeAll(s, r).files[h] != r
  {
    var j := Job(ExecOf(s, r), Decided(false));
    TakeAllPlaces(s.nextHandle, s.opens, s.files, s.jobs, s.ends, FilesIn(s, r), j);
    KnownTakeAll(s.opens, s.files, s.jobs, s.regs, s.execs, FilesIn(s, r), j);
    hide Places, WithJobs;
  }

  lemma SetupKeepsPlace(s: State, a: Action)
    requires PlaceInv(s) && Enabled(s, a)
    requires a.NewExec? || a.NewRegistry? || a.Begin? || a.Expire? || a.CancelStart?
    ensures PlaceInv(Next(s, a))
  {
    hide Places, Known, NextOpen, NextJob, NextCancel, Take, TakeAll, OpenReady, JobReady, CancelReady;
    var s' := Next(s, a);
    if a.Begin? {
      QuietPlaces(s.nextHandle, s.opens, s.files, s.jobs, s.ends, a.o, s'.opens);
    }
    SetupKeepsKnown(s, a);
  }

  lemma SetupKeepsKnown(s: State, a: Action)
    requires PlaceInv(s) && Enabled(s, a)
    requires a.NewExec? || a.NewRegistry? || a.Begin? || a.Expire? || a.CancelStart?
    ensures var s' := Next(s, a); Known(s'.opens, s'.files, s'.jobs, s'.regs, s'.execs)
  {
    hide Places, Known, NextOpen, NextJob, NextCancel, Take, TakeAll, OpenReady, JobReady, CancelReady;
    var s' := Next(s, a);
    Registered(s);
    Lively(s);
    match a
    case NewRegistry(r, x) => NewRegistryKnown(s, r, x);
    case Begin(_, _) => KnownSet(s.opens, s.files, s.jobs, s.regs, s.execs, s'.opens, s.files, s.jobs, s.regs, s.execs);
    case _ => KnownSet(s.opens, s.files, s.jobs, s.regs, s.execs, s.opens, s.files, s.jobs, s.regs, s'.execs);
  }

  lemma NewRegistryKnown(s: State, r: RegId, x: Option<ExecId>)
    requires PlaceInv(s) && Enabled(s, NewRegistry(r, x))
    ensures var s' := Next(s, NewRegistry(r, x)); Known(s'.opens, s'.files, s'.jobs, s'.regs, s'.execs)
  {
    hide Places, Known;
    Registered(s);
    Lively(s);
    var execs' := Next(s, NewRegistry(r, x)).execs;
    assert execs'.Keys == s.execs.Keys;
    KnownSet(s.opens, s.files, s.jobs, s.regs, s.execs, s.opens, s.files, s.jobs, s.regs[r := Registry(x, true)], execs');
  }

  lemma Lively(s: State)
    requires PlaceInv(s)
    ensures forall o :: o in s.opens ==> s.opens[o].reg in s.regs && s.regs[s.opens[o].reg].alive
    ensures forall h :: h in s.files ==> s.files[h] in s.regs && s.regs[s.files[h]].alive
  {
  }

  lemma DropKeepsPlace(s: State, r: RegId)
    requires PlaceInv(s) && Enabled(s, DropRegistry(r))
    ensures PlaceInv(Next(s, DropRegistry(r)))
  {
    hide Places, TakeAll, Known, NextOpen, NextJob, NextCancel, Take;
    SweepKeepsPlace(s, r);
    TakeAllFrame(s, r);
    var t, s' := TakeAll(s, r), Next(s, DropRegistry(r));
    Registered(t);
    Lively(t);
    KnownSet(t.opens, t.files, t.jobs, t.regs, t.execs, s'.opens, s'.files, s'.jobs, s'.regs, s'.execs);
  }

  lemma TakeAllFrame(s: State, r: RegId)
    ensures TakeAll(s, r) == s.(files := TakeAll(s, r).files, jobs := TakeAll(s, r).jobs)
  {
  }

  lemma KeepsPlace(s: State, a: Action)
    requires PlaceInv(s) && Enabled(s, a)
    ensures PlaceInv(Next(s, a))
  {
    hide Places, Known, TakeAll, NextOpen, NextJob, Take, OpenReady, JobReady;
    match a
    case OpenDoes(o, step) => OpenKeepsPlaces(s, o, step); OpenKeepsKnown(s, o, step);
    case JobDoes(h, step) => JobKeepsPlaces(s, h, step); JobKeepsKnown(s, h, step);
    case DropRegistry(r) => DropKeepsPlace(s, r);
    case CancelDoes(c, step) => CancelKeepsPlace(s, c, step);
    case Finish(r, h, abort) => TakeKeepsPlace(s, r, h, Deciding(abort));
    case Abandon(r, h) => TakeKeepsPlace(s, r, h, Decided(false));
    case _ => SetupKeepsPlace(s, a);
  }

  lemma CancelKeepsPlace(s: State, c: CancelId, step: CancelStep)
    requires PlaceInv(s) && Enabled(s, CancelDoes(c, step))
    ensures PlaceInv(NextCancel(s, c, step))
  {
    hide Places, TakeAll;
    if step.Sweep? {
      SweepKeepsPlace(s, step.r);
      TakeAllFrame(s, step.r);
    }
  }

  lemma KeepsExec(s: State, a: Action)
    requires ExecInv(s) && PlaceInv(s) && Enabled(s, a)
    ensures ExecInv(Next(s, a))
  {
    forall e ensures ExecInvAt(Next(s, a), e) {
      KeepsExecAt(s, a, e);
    }
  }

  /** Each execution's count stays exact, non-negative and within its limit at every step. */
  lemma KeepsExecAt(s: State, a: Action, e: ExecId)
    requires ExecInvAt(s, e) && PlaceInv(s) && Enabled(s, a)
    ensures ExecInvAt(Next(s, a), e)
  {
    hide PlaceInv, ExecOn, TakeAll, NextOpen, NextJob, Take, OpenReady, JobReady, CancelReady;
    if a.NewExec? && a.e == e {
      FreshExec(s, e, a.limit);
    } else if e in s.execs {
      match a
      case OpenDoes(o, step) => OpenKeepsExec(s, o, step, e);
      case JobDoes(h, step) => JobKeepsExec(s, h, step, e);
      case Finish(r, h, abort) => TakeKeepsExec(s, r, h, Deciding(abort), e);
      case Abandon(r, h) => TakeKeepsExec(s, r, h, Decided(false), e);
      case DropRegistry(r) => DropKeepsExec(s, r, e);
      case CancelDoes(c, step) => CancelKeepsExec(s, c, step, e);
      case Begin(o, r) => BeginKeepsExec(s, o, r, e);
      case _ => RestKeepsExec(s, Next(s, a), e);
    } else {
      StillUnknown(s, a, e);
    }
  }

  lemma DropKeepsExec(s: State, r: RegId, e: ExecId)
    requires ExecInvAt(s, e) && PlaceInv(s) && Enabled(s, DropRegistry(r)) && e in s.execs
    ensures ExecInvAt(Next(s, DropRegistry(r)), e)
  {
    hide PlaceInv, ExecOn, TakeAll;
    SweepKeepsExec(s, r, e);
    SweepKeepsPlace(s, r);
    TakeAllFrame(s, r);
    RestKeepsExec(TakeAll(s, r), Next(s, DropRegistry(r)), e);
  }

  lemma CancelKeepsExec(s: State, c: CancelId, step: CancelStep, e: ExecId)
    requires ExecInvAt(s, e) && PlaceInv(s) && Enabled(s, CancelDoes(c, step)) && e in s.execs
    ensures ExecInvAt(NextCancel(s, c, step), e)
  {
    hide PlaceInv, ExecOn, TakeAll;
    if step.Sweep? {
      SweepKeepsExec(s, step.r, e);
      TakeAllFrame(s, step.r);
    } else {
      RestKeepsExec(s, NextCancel(s, c, step), e);
    }
  }

  lemma StillUnknown(s: State, a: Action, e: ExecId)
    requires Enabled(s, a) && e !in s.execs && !(a.NewExec? && a.e == e)
    ensures e !in Next(s, a).execs
  {
    hide TakeAll, NextOpen, NextJob, Take, OpenReady, JobReady;
    match a
    case OpenDoes(o, step) => OpenFrame(s, o, step);
    case JobDoes(h, step) => JobFrame(s, h, step);
    case DropRegistry(r) => TakeAllFrame(s, r);
    case CancelDoes(_, step) => if step.Sweep? { TakeAllFrame(s, step.r); }
    case Finish(r, h, abort) => TakeFrame(s, r, h, Deciding(abort));
    case Abandon(r, h) => TakeFrame(s, r, h, Decided(false));
    case _ =>
  }

  lemma JobFrame(s: State, h: Handle, step: JobStep)
    requires h in s.jobs && JobReady(s.jobs[h].pc, step)
    ensures var s' := NextJob(s, h, step);
      && s'.regs == s.regs && s'.execs.Keys == s.execs.Keys && s'.opens == s.opens && s'.files == s.files
      && (s'.jobs == s.jobs - {h} || (h in s'.jobs && s'.jobs == s.jobs[h := s'.jobs[h]] && s'.jobs[h].exec == s.jobs[h].exec))
  {
    hide IsCancelled;
  }

  lemma TakeFrame(s: State, r: RegId, h: Handle, pc: JobPc)
    ensures Take(s, r, h, pc) == s.(files := Take(s, r, h, pc).files, jobs := Take(s, r, h, pc).jobs)
  {
  }

  lemma FreshExec(s: State, e: ExecId, limit: nat)
    requires PlaceInv(s) && e !in s.execs
    ensures ExecOn(Exec(limit, 0, false, false, {}), s.opens, s.files, s.jobs, s.regs, e)
  {
    hide PlaceInv;
    Registered(s);
    assert ExecOpens(s.opens, s.regs, e) == {};
    assert ExecFiles(s.files, s.regs, e) == {};
    assert ExecJobs(s.jobs, e) == {};
  }

  lemma BeginKeepsExec(s: State, o: OpenId, r: RegId, e: ExecId)
    requires ExecInvAt(s, e) && Enabled(s, Begin(o, r)) && e in s.execs
    ensures ExecInvAt(Next(s, Begin(o, r)), e)
  {
    hide ExecOn;
    ExecBound(s, e);
    OpenExec(s.execs[e], s.opens, s.files, s.jobs, s.regs, e, o, s.opens[o := Open(r, PoolHeld)], s.execs[e]);
  }
}
