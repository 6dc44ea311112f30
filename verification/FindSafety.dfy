/** The invariant is inductive, so it holds along every schedule. */
module FindSafety {
  import opened Seqs
  import opened Geo
  import opened CriticalSections
  import opened FindProtocol
  import opened FindInvariant

  // ---- Initially ---------------------------------------------------------

  lemma {:induction false} HeldNone(workers: seq<WorkerPc>)
    requires forall w :: 0 <= w < |workers| ==> workers[w] == Top
    ensures Held(workers) == multiset{}
  {
    if workers != [] {
      HeldNone(workers[..|workers| - 1]);
    }
  }

  lemma InitialFindOk(cfg: Config, q: Query)
    ensures FindOk(cfg, q, InitialFind(q))
  {
    assert q.order[..0] == [];
  }

  lemma InitialFindsOk(cfg: Config)
    ensures FindsOk(cfg, Initial(cfg))
  {
    forall f | 0 <= f < |cfg.queries|
      ensures FindOk(cfg, cfg.queries[f], InitialFind(cfg.queries[f]))
    {
      InitialFindOk(cfg, cfg.queries[f]);
    }
    hide FindOk, InitialFind;
  }

  lemma InitialJobsOk(cfg: Config)
    ensures JobsOk(Initial(cfg))
  {
    HeldNone(Initial(cfg).workers);
  }

  lemma InitialInv(cfg: Config)
    ensures Inv(cfg, Initial(cfg))
  {
    InitialFindsOk(cfg);
    InitialJobsOk(cfg);
    hide FindsOk, JobsOk;
  }

  // ---- Finder steps ------------------------------------------------------

  lemma FinderKeepsItsFind(cfg: Config, s: State, f: nat)
    requires ConfigOk(cfg) && FindsOk(cfg, s) && f < |s.finds|
    ensures FindOk(cfg, cfg.queries[f], FinderLocal(cfg, cfg.queries[f], s.finds[f]))
    ensures InsertCheck(cfg, cfg.queries[f], s.finds[f])
  {
    assert cfg.queries[f] in cfg.queries;
    FinderKeepsFind(cfg, cfg.queries[f], s.finds[f]);
    InsertChecked(cfg, cfg.queries[f], s.finds[f]);
  }

  lemma FinderKeepsFinds(cfg: Config, s: State, f: nat)
    requires ConfigOk(cfg) && Inv(cfg, s) && f < |s.finds|
    ensures FindsOk(cfg, FinderApply(cfg, s, f))
    ensures !FinderApply(cfg, s, f).failed
  {
    hide FindOk, FinderLocal, InsertCheck, QueryOk;
    FinderKeepsItsFind(cfg, s, f);
  }

  /** Every finder step but the push leaves the outstanding cells alone. */
  lemma FinderOutstanding(cfg: Config, q: Query, find: Find)
    requires PcOk(cfg, q, find) && InsertCheck(cfg, q, find)
    ensures Outstanding(FinderLocal(cfg, q, find))
         == Outstanding(find) + if find.pc.Pushing? then {find.pc.cell} else {}
  {
  }

  lemma FinderChangesJobs(cfg: Config, s: State, f: nat)
    requires f < |s.finds| && f < |cfg.queries|
    ensures Jobs(FinderApply(cfg, s, f))
         == Jobs(s) + if s.finds[f].pc.Pushing? then multiset{Job(f, s.finds[f].pc.cell)} else multiset{}
  {
    HeldNotified(s.workers);
    hide FinderLocal, Held;
  }

  lemma FinderChangesOutstanding(cfg: Config, s: State, f: nat, g: nat)
    requires f < |s.finds| && f < |cfg.queries| && g < |s.finds|
    requires PcOk(cfg, cfg.queries[f], s.finds[f]) && InsertCheck(cfg, cfg.queries[f], s.finds[f])
    ensures |FinderApply(cfg, s, f).finds| == |s.finds|
    ensures Outstanding(FinderApply(cfg, s, f).finds[g])
         == Outstanding(s.finds[g]) + if f == g && s.finds[f].pc.Pushing? then {s.finds[f].pc.cell} else {}
  {
    FinderOutstanding(cfg, cfg.queries[f], s.finds[f]);
    hide FinderLocal, InsertCheck, PcOk, Outstanding, NotifyWorkers;
  }

  lemma PushedIsNew(cfg: Config, q: Query, find: Find)
    requires PcOk(cfg, q, find) && find.pc.Pushing?
    ensures find.pc.cell !in Outstanding(find)
  {
  }

  lemma FinderKeepsJob(cfg: Config, s: State, f: nat, job: Job)
    requires JobsOk(s) && f < |s.finds| && f < |cfg.queries| && job.find < |s.finds|
    requires PcOk(cfg, cfg.queries[f], s.finds[f]) && InsertCheck(cfg, cfg.queries[f], s.finds[f])
    ensures var s' := FinderApply(cfg, s, f);
            |s'.finds| == |s.finds| && Jobs(s')[job] == if job.cell in Outstanding(s'.finds[job.find]) then 1 else 0
  {
    hide FinderApply, InsertCheck, Jobs, PcOk, Outstanding;
    FinderChangesOutstanding(cfg, s, f, job.find);
    FinderChangesJobs(cfg, s, f);
    if s.finds[f].pc.Pushing? {
      PushedIsNew(cfg, cfg.queries[f], s.finds[f]);
    }
  }

  lemma FinderKeepsJobs(cfg: Config, s: State, f: nat)
    requires JobsOk(s) && f < |s.finds| && f < |cfg.queries|
    requires PcOk(cfg, cfg.queries[f], s.finds[f]) && InsertCheck(cfg, cfg.queries[f], s.finds[f])
    ensures JobsOk(FinderApply(cfg, s, f))
  {
    hide FinderLocal, InsertCheck, Jobs, PcOk, Outstanding, NotifyWorkers;
    var s' := FinderApply(cfg, s, f);
    FinderChangesJobs(cfg, s, f);
    forall job: Job | job.find < |s.finds|
      ensures Jobs(s')[job] == if job.cell in Outstanding(s'.finds[job.find]) then 1 else 0
    {
      FinderKeepsJob(cfg, s, f, job);
    }
  }

  lemma FinderLocalLock(cfg: Config, q: Query, find: Find)
    requires PcOk(cfg, q, find) && (find.owner == ByFinder <==> FinderHolds(find.pc))
    requires find.pc.Offering? || find.pc.Finishing? || find.pc.Waiting? ==> find.owner == Unowned
    ensures var find' := FinderLocal(cfg, q, find);
            && (find'.owner == ByFinder <==> FinderHolds(find'.pc))
            && (find.owner.ByWorker? || find'.owner.ByWorker? ==> find'.owner == find.owner)
            && (find'.pc.Pushing? <==> find.pc.Enqueuing?)
  {
  }

  lemma FinderKeepsContextLocks(cfg: Config, s: State, f: nat)
    requires ContextLocksOk(s) && f < |s.finds| && f < |cfg.queries| && FinderEnabled(s, f)
    requires PcOk(cfg, cfg.queries[f], s.finds[f])
    ensures ContextLocksOk(FinderApply(cfg, s, f))
  {
    var s' := FinderApply(cfg, s, f);
    FinderLocalLock(cfg, cfg.queries[f], s.finds[f]);
    hide FinderLocal, FinderHolds, PcOk, InsertCheck;
    forall g, w | 0 <= g < |s.finds| && 0 <= w < |s.workers|
      ensures WorkerHolds(s'.workers[w], g) == WorkerHolds(s.workers[w], g)
    {
    }
    hide WorkerHolds;
  }

  lemma FinderKeepsPoolLock(cfg: Config, s: State, f: nat)
    requires ContextLocksOk(s) && PoolLockOk(s) && f < |s.finds| && f < |cfg.queries| && FinderEnabled(s, f)
    requires PcOk(cfg, cfg.queries[f], s.finds[f])
    ensures PoolLockOk(FinderApply(cfg, s, f))
  {
    FinderLocalLock(cfg, cfg.queries[f], s.finds[f]);
    hide FinderLocal, PcOk, InsertCheck;
  }

  lemma FinderKeepsWorkers(cfg: Config, s: State, f: nat)
    requires WorkersOk(cfg, s) && f < |s.finds| && f < |cfg.queries|
    ensures WorkersOk(cfg, FinderApply(cfg, s, f))
  {
    hide FinderLocal, InsertCheck;
    var s' := FinderApply(cfg, s, f);
    forall w | 0 <= w < |s.workers|
      ensures WorkerOk(cfg, s', s'.workers[w])
    {
      assert WorkerOk(cfg, s, s.workers[w]);
    }
  }

  lemma CellsOfAppend(jobs: seq<Job>, job: Job, f: nat)
    ensures CellsOf(jobs + [job], f) == CellsOf(jobs, f) + if job.find == f then [job.cell] else []
  {
    assert (jobs + [job])[..|jobs|] == jobs;
  }

  lemma FinderPushedCount(cfg: Config, q: Query, find: Find)
    requires PcOk(cfg, q, find)
    ensures PushedCount(FinderLocal(cfg, q, find)) == PushedCount(find) + if find.pc.Pushing? then 1 else 0
  {
  }

  lemma PushExtends(order: seq<Cell>, n: nat, pushed: seq<Job>, f: nat, cell: Cell)
    requires n < |order| && cell == order[n] && CellsOf(pushed, f) == order[..n]
    ensures CellsOf(pushed + [Job(f, cell)], f) == order[..n + 1]
  {
    CellsOfAppend(pushed, Job(f, cell), f);
  }

  lemma FinderKeepsHistory(cfg: Config, s: State, f: nat)
    requires HistoryOk(cfg, s) && f < |s.finds| && PcOk(cfg, cfg.queries[f], s.finds[f])
    ensures HistoryOk(cfg, FinderApply(cfg, s, f))
  {
    var find, q, s' := s.finds[f], cfg.queries[f], FinderApply(cfg, s, f);
    FinderPushedCount(cfg, q, find);
    assert find.pc.Pushing? ==> PushedCount(find) < |q.order| && find.pc.cell == q.order[PushedCount(find)];
    hide FinderLocal, CellsOf, InsertCheck, PcOk, PushedCount;
    if find.pc.Pushing? {
      PushExtends(q.order, PushedCount(find), s.pushed, f, find.pc.cell);
      forall g | 0 <= g < |s.finds| && g != f
        ensures CellsOf(s'.pushed, g) == CellsOf(s.pushed, g)
      {
        CellsOfAppend(s.pushed, Job(f, find.pc.cell), g);
      }
    }
  }

  lemma FinderKeepsInv(cfg: Config, s: State, f: nat)
    requires ConfigOk(cfg) && Inv(cfg, s) && f < |s.finds| && FinderEnabled(s, f)
    ensures Inv(cfg, FinderApply(cfg, s, f))
  {
    FinderKeepsFinds(cfg, s, f);
    FinderKeepsItsFind(cfg, s, f);
    assert FindOk(cfg, cfg.queries[f], s.finds[f]);
    FinderKeepsJobs(cfg, s, f);
    FinderKeepsContextLocks(cfg, s, f);
    FinderKeepsPoolLock(cfg, s, f);
    FinderKeepsWorkers(cfg, s, f);
    FinderKeepsHistory(cfg, s, f);
  }

  // ---- Worker steps ------------------------------------------------------

  /** A job in a worker's hands is that of an outstanding cell. */
  lemma HeldJobOutstanding(cfg: Config, s: State, w: nat, job: Job)
    requires Inv(cfg, s) && w < |s.workers| && JobOf(s.workers[w]) == multiset{job}
    ensures job.find < |s.finds| && job.cell in Outstanding(s.finds[job.find])
  {
    HeldUpdate(s.workers, w, Top, job);
    assert job in Jobs(s);
  }

  lemma OwnerChangeKeepsFind(cfg: Config, q: Query, find: Find, owner: Owner)
    requires FindOk(cfg, q, find) && (find.pc.Returned? ==> owner == Unowned)
    ensures FindOk(cfg, q, find.(owner := owner))
  {
  }

  /** All that a worker needs to know of the rest of the system. */
  ghost predicate WorkerFits(q: Query, pc: WorkerPc, find: Find) {
    match pc
    case Started(job) => job.cell in Outstanding(find)
    case Deciding(job) => job.cell in Outstanding(find)
    case Scanning(job) => job.cell in Outstanding(find)
    case Scanned(job, mine) => job.cell in Outstanding(find)
    case Appending(job, mine) => job.cell in Outstanding(find) && job.cell in q.matches && mine == q.matches[job.cell]
    case _ => true
  }

  lemma WorkerFitting(cfg: Config, s: State, w: nat, f: nat)
    requires Inv(cfg, s) && w < |s.workers| && f < |s.finds| && Target(s.workers[w]) == Some(f)
    ensures f < |cfg.queries| && WorkerFits(cfg.queries[f], s.workers[w], s.finds[f])
  {
    assert WorkerOk(cfg, s, s.workers[w]);
    hide Inv, Outstanding;
    match s.workers[w]
    case Started(job) => HeldJobOutstanding(cfg, s, w, job);
    case Deciding(job) => HeldJobOutstanding(cfg, s, w, job);
    case Scanning(job) => HeldJobOutstanding(cfg, s, w, job);
    case Scanned(job, _) => HeldJobOutstanding(cfg, s, w, job);
    case Appending(job, _) => HeldJobOutstanding(cfg, s, w, job);
    case _ =>
  }

  lemma ReturnedHasNothing(cfg: Config, q: Query, find: Find)
    requires PcOk(cfg, q, find) && find.pc.Returned?
    ensures Outstanding(find) == {}
  {
  }

  lemma OutstandingIsPending(find: Find)
    ensures Outstanding(find) <= find.ctx.pending
  {
  }

  lemma LockingKeepsFind(cfg: Config, q: Query, w: nat, pc: WorkerPc, find: Find)
    requires FindOk(cfg, q, find) && WorkerFits(q, pc, find) && (pc.Started? || pc.Scanned?)
    ensures FindOk(cfg, q, WorkerOnFind(w, pc, find))
  {
    if find.pc.Returned? {
      hide AnswersOk, SleepOk, LedgerOk, OrderOk, PcOk, Outstanding;
      ReturnedHasNothing(cfg, q, find);
    } else {
      hide FindOk, Outstanding;
      OwnerChangeKeepsFind(cfg, q, find, ByWorker(w));
    }
  }

  lemma DecidingKeepsFind(cfg: Config, q: Query, w: nat, pc: WorkerPc, find: Find)
    requires FindOk(cfg, q, find) && WorkerFits(q, pc, find) && pc.Deciding?
    ensures FindOk(cfg, q, WorkerOnFind(w, pc, find)) && EraseCheck(pc, find)
  {
    hide FindOk, Outstanding, CancelCell;
    if find.ctx.done {
      OutstandingIsPending(find);
      CancelKeepsFind(cfg, q, find, pc.job.cell);
    } else {
      OwnerChangeKeepsFind(cfg, q, find, Unowned);
    }
  }

  lemma AppendingKeepsFind(cfg: Config, q: Query, w: nat, pc: WorkerPc, find: Find)
    requires QueryOk(q) && FindOk(cfg, q, find) && WorkerFits(q, pc, find) && pc.Appending?
    ensures FindOk(cfg, q, WorkerOnFind(w, pc, find)) && EraseCheck(pc, find)
  {
    hide FindOk, QueryOk, Outstanding, CommitCell;
    OutstandingIsPending(find);
    CommitKeepsFind(cfg, q, find, pc.job.cell);
  }

  lemma WorkerOnFindKeeps(cfg: Config, q: Query, w: nat, pc: WorkerPc, find: Find)
    requires QueryOk(q) && FindOk(cfg, q, find) && WorkerFits(q, pc, find) && Target(pc).Some?
    ensures FindOk(cfg, q, WorkerOnFind(w, pc, find)) && EraseCheck(pc, find)
  {
    hide FindOk, QueryOk, WorkerFits;
    match pc
    case Started(_) => LockingKeepsFind(cfg, q, w, pc, find);
    case Scanned(_, _) => LockingKeepsFind(cfg, q, w, pc, find);
    case Deciding(_) => DecidingKeepsFind(cfg, q, w, pc, find);
    case Appending(_, _) => AppendingKeepsFind(cfg, q, w, pc, find);
    case Unlocking(_) => OwnerChangeKeepsFind(cfg, q, find, Unowned);
    case Scanning(_) =>
  }

  lemma WorkerKeepsItsFind(cfg: Config, s: State, w: nat, f: nat)
    requires ConfigOk(cfg) && Inv(cfg, s) && WorkerEnabled(cfg, s, w) && Target(s.workers[w]) == Some(f)
    ensures FindOk(cfg, cfg.queries[f], WorkerOnFind(w, s.workers[w], s.finds[f]))
    ensures EraseCheck(s.workers[w], s.finds[f])
  {
    assert cfg.queries[f] in cfg.queries && FindOk(cfg, cfg.queries[f], s.finds[f]);
    hide FindOk, Inv, QueryOk, WorkerOnFind, EraseCheck;
    WorkerFitting(cfg, s, w, f);
    WorkerOnFindKeeps(cfg, cfg.queries[f], w, s.workers[w], s.finds[f]);
  }

  lemma WorkerKeepsFinds(cfg: Config, s: State, w: nat)
    requires ConfigOk(cfg) && Inv(cfg, s) && WorkerEnabled(cfg, s, w)
    ensures FindsOk(cfg, WorkerApply(cfg, s, w))
    ensures !WorkerApply(cfg, s, w).failed
  {
    hide FindOk, WorkerOnFind, EraseCheck, JobsOk;
    if Target(s.workers[w]).Some? {
      WorkerKeepsItsFind(cfg, s, w, Target(s.workers[w]).value);
    }
  }

  /** The cell, if any, whose job a worker's step disposes of. */
  function Disposed(s: State, pc: WorkerPc): Option<Job> {
    match pc
    case Deciding(job) => if job.find < |s.finds| && s.finds[job.find].ctx.done then Some(job) else None
    case Appending(job, _) => Some(job)
    case _ => None
  }

  /** A popped job goes from the queue to the worker. */
  lemma TakeKeepsJob(pool: Pool, task: Task, job: Job)
    requires task.Run? ==> pool.work != [] && task.job == pool.work[0]
    ensures multiset(AfterTask(pool, task).work)[job] + JobOf(AfterTaskPc(task))[job] == multiset(pool.work)[job]
  {
    if task.Run? {
      assert pool.work == [pool.work[0]] + pool.work[1..];
    }
  }

  lemma WorkerKeepsPool(cfg: Config, s: State, w: nat)
    requires WorkerEnabled(cfg, s, w) && !s.workers[w].Looking? && !s.workers[w].Resumed?
    ensures WorkerApply(cfg, s, w).pool == s.pool
  {
  }

  lemma WorkerKeepsOwnJob(cfg: Config, s: State, w: nat, job: Job)
    requires WorkerEnabled(cfg, s, w) && !s.workers[w].Looking? && !s.workers[w].Resumed?
    ensures JobOf(WorkerNextPc(cfg, s, w))[job] + (if Disposed(s, s.workers[w]) == Some(job) then 1 else 0)
         == JobOf(s.workers[w])[job]
  {
  }

  lemma WorkerMovesJob(cfg: Config, s: State, w: nat, job: Job)
    requires WorkerEnabled(cfg, s, w)
    ensures multiset(WorkerApply(cfg, s, w).pool.work)[job] + JobOf(WorkerNextPc(cfg, s, w))[job]
          + (if Disposed(s, s.workers[w]) == Some(job) then 1 else 0)
         == multiset(s.pool.work)[job] + JobOf(s.workers[w])[job]
  {
    match s.workers[w]
    case Looking => TakeKeepsJob(s.pool, LookForWork(s.pool), job);
    case Resumed => TakeKeepsJob(s.pool, ResumeWork(s.pool), job);
    case _ =>
      hide WorkerApply, WorkerNextPc, Disposed, JobOf;
      WorkerKeepsPool(cfg, s, w);
      WorkerKeepsOwnJob(cfg, s, w, job);
  }

  lemma WorkerChangesJobs(cfg: Config, s: State, w: nat, job: Job)
    requires WorkerEnabled(cfg, s, w)
    ensures Jobs(WorkerApply(cfg, s, w))[job] + (if Disposed(s, s.workers[w]) == Some(job) then 1 else 0)
         == Jobs(s)[job]
  {
    WorkerMovesJob(cfg, s, w, job);
    HeldUpdate(s.workers, w, WorkerNextPc(cfg, s, w), job);
    assert WorkerApply(cfg, s, w).workers == s.workers[w := WorkerNextPc(cfg, s, w)];
    hide Held, WorkerApply, Disposed, JobOf;
  }

  lemma WorkerChangesOutstanding(w: nat, pc: WorkerPc, find: Find)
    requires Target(pc).Some?
    ensures Outstanding(WorkerOnFind(w, pc, find))
         == match pc
            case Deciding(job) => if find.ctx.done then Outstanding(find) - {job.cell} else Outstanding(find)
            case Appending(job, _) => Outstanding(find) - {job.cell}
            case _ => Outstanding(find)
  {
  }

  lemma WorkerKeepsJob(cfg: Config, s: State, w: nat, job: Job)
    requires JobsOk(s) && WorkerEnabled(cfg, s, w) && job.find < |s.finds|
    requires Disposed(s, s.workers[w]).Some? ==> Disposed(s, s.workers[w]).value in Jobs(s)
    ensures var s' := WorkerApply(cfg, s, w);
            |s'.finds| == |s.finds| && Jobs(s')[job] == if job.cell in Outstanding(s'.finds[job.find]) then 1 else 0
  {
    var pc := s.workers[w];
    WorkerChangesJobs(cfg, s, w, job);
    hide Jobs, Outstanding, WorkerOnFind;
    if Target(pc).Some? {
      WorkerChangesOutstanding(w, pc, s.finds[Target(pc).value]);
    }
  }

  lemma DisposedIsJob(s: State, w: nat)
    requires w < |s.workers| && Disposed(s, s.workers[w]).Some?
    ensures Disposed(s, s.workers[w]).value in Jobs(s)
  {
    HeldUpdate(s.workers, w, Top, Disposed(s, s.workers[w]).value);
  }

  lemma WorkerKeepsJobs(cfg: Config, s: State, w: nat)
    requires JobsOk(s) && WorkerEnabled(cfg, s, w)
    ensures JobsOk(WorkerApply(cfg, s, w))
  {
    var s' := WorkerApply(cfg, s, w);
    assert |s'.finds| == |s.finds|;
    hide WorkerApply, Jobs, Outstanding, Disposed;
    if Disposed(s, s.workers[w]).Some? {
      DisposedIsJob(s, w);
    }
    forall job: Job | job.find < |s.finds|
      ensures Jobs(s')[job] == if job.cell in Outstanding(s'.finds[job.find]) then 1 else 0
    {
      WorkerKeepsJob(cfg, s, w, job);
    }
    forall job | job in Jobs(s')
      ensures job.find < |s.finds|
    {
      WorkerChangesJobs(cfg, s, w, job);
      assert job in Jobs(s);
    }
  }

  /** A worker's step only ever hands a context's mutex to or from itself. */
  ghost predicate LockHandled(w: nat, pc': WorkerPc, f: nat, find: Find, find': Find) {
    && (find'.owner == find.owner || (find.owner in {Unowned, ByWorker(w)} && find'.owner in {Unowned, ByWorker(w)}))
    && (find'.owner == ByWorker(w) <==> WorkerHolds(pc', f))
    && FinderHolds(find'.pc) == FinderHolds(find.pc)
    && find'.pc.Pushing? == find.pc.Pushing?
  }

  lemma WorkerHandlesLock(cfg: Config, s: State, w: nat, f: nat)
    requires ContextLocksOk(s) && WorkerEnabled(cfg, s, w) && f < |s.finds|
    ensures |WorkerApply(cfg, s, w).finds| == |s.finds|
    ensures LockHandled(w, WorkerNextPc(cfg, s, w), f, s.finds[f], WorkerApply(cfg, s, w).finds[f])
  {
    assert s.finds[f].owner == ByWorker(w) <==> WorkerHolds(s.workers[w], f);
  }

  lemma WorkerKeepsContextLocks(cfg: Config, s: State, w: nat)
    requires ContextLocksOk(s) && WorkerEnabled(cfg, s, w)
    ensures ContextLocksOk(WorkerApply(cfg, s, w))
  {
    var pc, pc', s' := s.workers[w], WorkerNextPc(cfg, s, w), WorkerApply(cfg, s, w);
    assert |s'.finds| == |s.finds| && s'.workers == s.workers[w := pc'];
    forall f | 0 <= f < |s.finds|
      ensures LockHandled(w, pc', f, s.finds[f], s'.finds[f])
    {
      WorkerHandlesLock(cfg, s, w, f);
    }
    hide WorkerApply, WorkerHolds, FinderHolds, WorkerNextPc, WorkerEnabled;
  }

  lemma WorkerKeepsPoolLock(cfg: Config, s: State, w: nat)
    requires ContextLocksOk(s) && PoolLockOk(s) && WorkerEnabled(cfg, s, w)
    ensures PoolLockOk(WorkerApply(cfg, s, w))
  {
    var s' := WorkerApply(cfg, s, w);
    forall f | 0 <= f < |s.finds|
      ensures s'.finds[f].pc.Pushing? == s.finds[f].pc.Pushing?
    {
      WorkerHandlesLock(cfg, s, w, f);
    }
  }

  lemma WorkerKeepsItself(cfg: Config, s: State, w: nat)
    requires WorkerEnabled(cfg, s, w) && WorkerOk(cfg, s, s.workers[w])
    requires |s.finds| == |cfg.queries|
    requires forall job :: job in s.pool.work ==> job.find < |s.finds|
    ensures WorkerOk(cfg, WorkerApply(cfg, s, w), WorkerNextPc(cfg, s, w))
  {
    hide WorkerOnFind, EraseCheck;
  }

  lemma WorkerKeepsOther(cfg: Config, s: State, w: nat, pc: WorkerPc)
    requires WorkerEnabled(cfg, s, w) && WorkerOk(cfg, s, pc)
    ensures WorkerOk(cfg, WorkerApply(cfg, s, w), pc)
  {
  }

  lemma WorkerKeepsWorkers(cfg: Config, s: State, w: nat)
    requires Inv(cfg, s) && WorkerEnabled(cfg, s, w)
    ensures WorkersOk(cfg, WorkerApply(cfg, s, w))
  {
    var s' := WorkerApply(cfg, s, w);
    assert s'.workers == s.workers[w := WorkerNextPc(cfg, s, w)];
    assert WorkerOk(cfg, s, s.workers[w]);
    forall job | job in s.pool.work
      ensures job.find < |s.finds|
    {
      assert job in Jobs(s);
    }
    hide JobsOk, FindOk;
    WorkerKeepsItself(cfg, s, w);
    forall v | 0 <= v < |s.workers|
      ensures WorkerOk(cfg, s', s.workers[v])
    {
      WorkerKeepsOther(cfg, s, w, s.workers[v]);
    }
    hide WorkerApply, WorkerOk, WorkerNextPc;
  }

  lemma WorkerKeepsPushedCount(w: nat, pc: WorkerPc, find: Find)
    ensures PushedCount(WorkerOnFind(w, pc, find)) == PushedCount(find)
  {
  }

  lemma WorkerKeepsHistory(cfg: Config, s: State, w: nat)
    requires HistoryOk(cfg, s) && WorkerEnabled(cfg, s, w)
    ensures HistoryOk(cfg, WorkerApply(cfg, s, w))
  {
    var pc := s.workers[w];
    if Target(pc).Some? {
      WorkerKeepsPushedCount(w, pc, s.finds[Target(pc).value]);
    }
    hide WorkerOnFind, PushedCount, CellsOf;
  }

  lemma WorkerKeepsInv(cfg: Config, s: State, w: nat)
    requires ConfigOk(cfg) && Inv(cfg, s) && WorkerEnabled(cfg, s, w)
    ensures Inv(cfg, WorkerApply(cfg, s, w))
  {
    WorkerKeepsFinds(cfg, s, w);
    WorkerKeepsJobs(cfg, s, w);
    WorkerKeepsContextLocks(cfg, s, w);
    WorkerKeepsPoolLock(cfg, s, w);
    WorkerKeepsWorkers(cfg, s, w);
    WorkerKeepsHistory(cfg, s, w);
  }

  // ---- Spurious wakeups and the end of the pool ----------------------------

  lemma NotifyKeepsJobs(find: Find)
    ensures Outstanding(Notify(find)) == Outstanding(find)
    ensures PushedCount(Notify(find)) == PushedCount(find)
  {
  }

  lemma JobsFrame(s: State, s': State)
    requires JobsOk(s) && Jobs(s') == Jobs(s) && |s'.finds| == |s.finds|
    requires forall f :: 0 <= f < |s.finds| ==> Outstanding(s'.finds[f]) == Outstanding(s.finds[f])
    ensures JobsOk(s')
  {
    hide Jobs, Outstanding;
  }

  lemma FinderSpuriousKeepsFinds(cfg: Config, s: State, f: nat)
    requires FindsOk(cfg, s) && JobsOk(s) && HistoryOk(cfg, s) && Enabled(cfg, s, FinderSpurious(f))
    ensures var s' := Apply(cfg, s, FinderSpurious(f)); FindsOk(cfg, s') && JobsOk(s') && HistoryOk(cfg, s')
  {
    hide FindOk, Outstanding, PushedCount, CellsOf, Held, Notify;
    NotifyKeepsFind(cfg, cfg.queries[f], s.finds[f]);
    NotifyKeepsJobs(s.finds[f]);
    JobsFrame(s, Apply(cfg, s, FinderSpurious(f)));
  }

  lemma FinderSpuriousKeepsInv(cfg: Config, s: State, f: nat)
    requires Inv(cfg, s) && Enabled(cfg, s, FinderSpurious(f))
    ensures Inv(cfg, Apply(cfg, s, FinderSpurious(f)))
  {
    hide FindsOk, JobsOk, HistoryOk;
    FinderSpuriousKeepsFinds(cfg, s, f);
  }

  lemma WorkerSpuriousKeepsJobs(cfg: Config, s: State, w: nat)
    requires JobsOk(s) && Enabled(cfg, s, WorkerSpurious(w))
    ensures JobsOk(Apply(cfg, s, WorkerSpurious(w)))
  {
    var s' := Apply(cfg, s, WorkerSpurious(w));
    forall job: Job
      ensures Held(s'.workers)[job] == Held(s.workers)[job]
    {
      HeldUpdate(s.workers, w, Sleeping(true), job);
    }
    hide Held;
    assert Held(s'.workers) == Held(s.workers);
    JobsFrame(s, s');
  }

  lemma WorkerSpuriousKeepsInv(cfg: Config, s: State, w: nat)
    requires Inv(cfg, s) && Enabled(cfg, s, WorkerSpurious(w))
    ensures Inv(cfg, Apply(cfg, s, WorkerSpurious(w)))
  {
    hide FindOk, JobsOk, CellsOf, Outstanding;
    WorkerSpuriousKeepsJobs(cfg, s, w);
  }

  lemma DestroyKeepsWorkers(cfg: Config, s: State)
    requires WorkersOk(cfg, s) && Enabled(cfg, s, Destroy)
    ensures WorkersOk(cfg, Apply(cfg, s, Destroy))
  {
    var s' := Apply(cfg, s, Destroy);
    forall w | 0 <= w < |s.workers|
      ensures WorkerOk(cfg, s', s'.workers[w])
    {
      assert WorkerOk(cfg, s, s.workers[w]);
    }
  }

  lemma DestroyKeepsLocks(cfg: Config, s: State)
    requires ContextLocksOk(s) && PoolLockOk(s) && Enabled(cfg, s, Destroy)
    ensures ContextLocksOk(Apply(cfg, s, Destroy)) && PoolLockOk(Apply(cfg, s, Destroy))
  {
    forall w, f: nat | 0 <= w < |s.workers|
      ensures WorkerHolds(NotifyWorkers(s.workers)[w], f) == WorkerHolds(s.workers[w], f)
    {
    }
    hide WorkerHolds, FinderHolds;
  }

  lemma DestroyKeepsJobs(cfg: Config, s: State)
    requires JobsOk(s) && Enabled(cfg, s, Destroy)
    ensures JobsOk(Apply(cfg, s, Destroy))
  {
    HeldNotified(s.workers);
    hide Held, Outstanding, NotifyWorkers;
    JobsFrame(s, Apply(cfg, s, Destroy));
  }

  lemma DestroyKeepsInv(cfg: Config, s: State)
    requires Inv(cfg, s) && Enabled(cfg, s, Destroy)
    ensures Inv(cfg, Apply(cfg, s, Destroy))
  {
    hide FindOk, CellsOf, JobsOk, WorkersOk, ContextLocksOk, PoolLockOk, NotifyWorkers;
    DestroyKeepsJobs(cfg, s);
    DestroyKeepsWorkers(cfg, s);
    DestroyKeepsLocks(cfg, s);
  }

  lemma StepKeepsInv(cfg: Config, s: State, a: Action)
    requires ConfigOk(cfg) && Inv(cfg, s) && Enabled(cfg, s, a)
    ensures Inv(cfg, Apply(cfg, s, a))
  {
    match a
    case FinderAct(f) => FinderKeepsInv(cfg, s, f);
    case WorkerAct(w) => WorkerKeepsInv(cfg, s, w);
    case Destroy => DestroyKeepsInv(cfg, s);
    case FinderSpurious(f) => FinderSpuriousKeepsInv(cfg, s, f);
    case WorkerSpurious(w) => WorkerSpuriousKeepsInv(cfg, s, w);
  }

  /** The invariant holds in every state that any schedule reaches; that no
      CHECK ever fails is part of it. */
  lemma {:induction false} ReachableInv(cfg: Config, schedule: seq<Action>)
    requires ConfigOk(cfg) && Execute(cfg, schedule).Some?
    ensures Inv(cfg, Execute(cfg, schedule).value)
  {
    if schedule == [] {
      InitialInv(cfg);
    } else {
      hide Inv, Apply, Enabled;
      var init, a := ExecuteLast(cfg, schedule);
      ReachableInv(cfg, init);
      StepKeepsInv(cfg, Execute(cfg, init).value, a);
    }
  }
}
