/** What the end of the pool does to its workers, and to finds that are not
    back by then. */
module FindShutdown {
  import opened Seqs
  import opened Geo
  import opened CriticalSections
  import opened FindProtocol
  import opened FindInvariant
  import opened FindSafety
  import opened FindResults
  import opened FindProgress
  import opened FindTermination
  import opened FindLiveness

  // ---- The workers -----------------------------------------------------------

  predicate AllDead(s: State) {
    forall w :: 0 <= w < |s.workers| ==> s.workers[w] == Dead
  }

  /** While the pool's destructor waits for a worker, some thread can step. */
  lemma DyingPoolSteps(cfg: Config, s: State) returns (a: Action)
    requires ConfigOk(cfg) && Inv(cfg, s) && s.pool.die && !AllDead(s)
    ensures CanStep(cfg, s, a)
  {
    var w :| 0 <= w < |s.workers| && s.workers[w] != Dead;
    assert WorkerOk(cfg, s, s.workers[w]);
    hide Inv, CanStep;
    if s.poolOwner != PoolUnowned {
      a := PoolHolderSteps(cfg, s);
    } else {
      a := WorkerCanStep(cfg, s, w);
    }
  }

  lemma DyingStep(cfg: Config, s: State) returns (a: Action)
    requires ConfigOk(cfg) && Inv(cfg, s) && s.pool.die && !AllDead(s)
    ensures Enabled(cfg, s, a) && Productive(a)
    ensures Apply(cfg, s, a).pool.die && Measure(cfg, Apply(cfg, s, a)) < Measure(cfg, s)
  {
    hide Inv, Measure, Apply, Enabled;
    a := DyingPoolSteps(cfg, s);
    ProductiveKeepsPoolAlive(cfg, s, a);
    StepMeasure(cfg, s, a);
  }

  /** The destructor can join every worker: once the pool has been told to
      die, letting threads step as they can brings all workers to their end. */
  lemma {:induction false} EveryWorkerCanBeJoined(cfg: Config, schedule: seq<Action>) returns (more: seq<Action>)
    requires ConfigOk(cfg) && Execute(cfg, schedule).Some? && Execute(cfg, schedule).value.pool.die
    ensures forall a :: a in more ==> Productive(a)
    ensures Execute(cfg, schedule + more).Some? && AllDead(Execute(cfg, schedule + more).value)
    decreases Measure(cfg, Execute(cfg, schedule).value)
  {
    hide Inv, Measure, Execute, Apply, Enabled, Productive;
    var s := Execute(cfg, schedule).value;
    ReachableInv(cfg, schedule);
    if AllDead(s) {
      assert schedule + [] == schedule;
      more := [];
    } else {
      var a := DyingStep(cfg, s);
      ExecuteStep(cfg, schedule, a);
      var rest := EveryWorkerCanBeJoined(cfg, schedule + [a]);
      more := [a] + rest;
      assert schedule + more == schedule + [a] + rest;
    }
  }

  lemma DeadHoldNothing(workers: seq<WorkerPc>)
    requires forall w :: 0 <= w < |workers| ==> workers[w] == Dead
    ensures Held(workers) == multiset{}
  {
    if Held(workers) != multiset{} {
      var job :| job in Held(workers);
      var w := HeldWitness(workers, job);
    }
  }

  lemma StuckFinder(cfg: Config, s: State, f: nat)
    requires ConfigOk(cfg) && Inv(cfg, s) && f < |s.finds| && forall a :: !CanStep(cfg, s, a)
    ensures s.finds[f].pc.Returned? || (s.finds[f].pc.Waiting? && !s.finds[f].pc.notified)
  {
    if s.poolOwner != PoolUnowned {
      var a := PoolHolderSteps(cfg, s);
    } else if s.finds[f].owner != Unowned {
      var a := ContextHolderSteps(cfg, s, f);
    } else {
      assert !CanStep(cfg, s, FinderAct(f));
    }
  }

  /** What the end of the pool leaves behind.  A schedule that cannot go on
      has every worker joined; and the finds that have not come back are those
      with a worklette left in the queue. */
  lemma StuckMeansJoined(cfg: Config, schedule: seq<Action>)
    requires ConfigOk(cfg) && cfg.concurrency > 0
    requires Execute(cfg, schedule).Some? && Execute(cfg, schedule).value.pool.die
    requires forall a :: !CanStep(cfg, Execute(cfg, schedule).value, a)
    ensures var s := Execute(cfg, schedule).value;
            && AllDead(s)
            && forall f :: 0 <= f < |s.finds| ==>
                 (s.finds[f].pc.Returned? <==> forall job :: job in s.pool.work ==> job.find != f)
  {
    var s := Execute(cfg, schedule).value;
    ReachableInv(cfg, schedule);
    hide Inv, Execute, CanStep;
    if !AllDead(s) {
      var a := DyingPoolSteps(cfg, s);
    }
    DeadHoldNothing(s.workers);
    forall f | 0 <= f < |s.finds|
      ensures s.finds[f].pc.Returned? <==> forall job :: job in s.pool.work ==> job.find != f
    {
      StuckFinder(cfg, s, f);
      if s.finds[f].pc.Returned? {
        NobodyOutlivesTheFind(cfg, s, f);
      } else {
        var job := SleeperHasJob(cfg, s, f);
        assert job in s.pool.work;
      }
    }
  }

  lemma QueueOutlivesPool(cfg: Config, s: State, a: Action, job: Job)
    requires Enabled(cfg, s, a) && s.pool.die && job in s.pool.work
    ensures Apply(cfg, s, a).pool.die && job in Apply(cfg, s, a).pool.work
  {
  }

  // ---- The finds that the end of the pool strands ----------------------------

  /** A worklette of the find is in the queue, or about to go there. */
  ghost predicate Doomed(s: State, f: nat)
    requires f < |s.finds|
  {
    || s.finds[f].pc.Enqueuing? || s.finds[f].pc.Pushing?
    || exists job :: job in s.pool.work && job.find == f
  }

  /** As things stand the find has not got all it wants. */
  predicate WantsMore(cfg: Config, q: Query, find: Find) {
    !find.ctx.done && find.offered < |q.order| && |find.ctx.ppl| < cfg.maxPpl
  }

  /** How many people the worker that has the context's mutex is about to
      append, if there is such a worker. */
  function AboutToAppend(s: State, f: nat): Option<nat>
    requires f < |s.finds|
  {
    match s.finds[f].owner
    case ByWorker(w) =>
      if w < |s.workers| && s.workers[w].Appending? then Some(|s.workers[w].mine|) else None
    case _ => None
  }

  /** The finder can get to make another offer before the people that its
      worklettes are after are enough. */
  predicate LeavesRoom(cfg: Config, q: Query, ctx: Context, coming: Option<nat>) {
    match coming
    case Some(n) => |ctx.ppl| + n < cfg.maxPpl
    case None =>
      || |ctx.pending| < cfg.concurrency
      || exists c :: c in ctx.pending && |ctx.ppl| + |Part(q.matches, c)| < cfg.maxPpl
  }

  predicate MayOffer(cfg: Config, q: Query, find: Find, coming: Option<nat>) {
    WantsMore(cfg, q, find) && LeavesRoom(cfg, q, find.ctx, coming)
  }

  /** Exactly the finds that can be left waiting for a pool that is no more. */
  ghost predicate MayBeStranded(cfg: Config, s: State, f: nat)
    requires f < |s.finds| && f < |cfg.queries|
  {
    Doomed(s, f) || MayOffer(cfg, cfg.queries[f], s.finds[f], AboutToAppend(s, f))
  }

  // ---- A safe find stays safe ------------------------------------------------

  lemma FinderOffersNothing(cfg: Config, q: Query, find: Find)
    requires PcOk(cfg, q, find) && !find.pc.Enqueuing? && !find.pc.Pushing? && !MayOffer(cfg, q, find, None)
    ensures var find' := FinderLocal(cfg, q, find);
            !find'.pc.Enqueuing? && !find'.pc.Pushing? && !MayOffer(cfg, q, find', None)
  {
  }

  lemma FinderWithoutWorker(cfg: Config, q: Query, find: Find)
    requires PcOk(cfg, q, find) && !find.owner.ByWorker?
    ensures !FinderLocal(cfg, q, find).owner.ByWorker?
  {
  }

  lemma FinderNotHeld(cfg: Config, s: State, f: nat)
    requires Inv(cfg, s) && f < |s.finds| && FinderEnabled(s, f)
    ensures f < |cfg.queries| && PcOk(cfg, cfg.queries[f], s.finds[f]) && !s.finds[f].owner.ByWorker?
  {
    assert FindOk(cfg, cfg.queries[f], s.finds[f]);
  }

  lemma FinderStaysSafe(cfg: Config, s: State, f: nat)
    requires Inv(cfg, s) && f < |s.finds| && FinderEnabled(s, f) && !MayBeStranded(cfg, s, f)
    ensures !MayBeStranded(cfg, FinderApply(cfg, s, f), f)
  {
    FinderNotHeld(cfg, s, f);
    hide Inv, PcOk, FinderLocal, MayOffer, InsertCheck;
    FinderOffersNothing(cfg, cfg.queries[f], s.finds[f]);
    FinderWithoutWorker(cfg, cfg.queries[f], s.finds[f]);
  }

  /** How many people come to the context while the worker is where it is. */
  function Coming(pc: WorkerPc): Option<nat> {
    if pc.Appending? then Some(|pc.mine|) else None
  }

  /** A worker that works for the find makes no room. */
  lemma WorkerMakesNoRoom(cfg: Config, q: Query, w: nat, pc: WorkerPc, pc': WorkerPc, find: Find)
    requires WorkerFits(q, pc, find) && Outstanding(find) <= find.ctx.pending
    requires pc.Scanned? ==> pc'.Appending? && pc'.mine == pc.mine == Part(q.matches, pc.job.cell)
    requires pc.Appending? ==> pc.mine == Part(q.matches, pc.job.cell)
    requires !pc.Scanned? ==> !pc'.Appending?
    requires !find.pc.Enqueuing? && !find.pc.Pushing? && !MayOffer(cfg, q, find, Coming(pc))
    ensures var find' := WorkerOnFind(w, pc, find);
            !find'.pc.Enqueuing? && !find'.pc.Pushing? && !MayOffer(cfg, q, find', Coming(pc'))
  {
    hide Part, Outstanding;
  }

  lemma WorkerPart(cfg: Config, s: State, w: nat, f: nat)
    requires Inv(cfg, s) && WorkerEnabled(cfg, s, w) && f < |s.finds| && Target(s.workers[w]) == Some(f)
    ensures var pc := s.workers[w];
            && f < |cfg.queries|
            && (pc.Scanned? || pc.Appending? ==> pc.mine == Part(cfg.queries[f].matches, pc.job.cell))
            && (!pc.Scanning? ==> AboutToAppend(s, f) == Coming(pc))
            && (WorkerHolds(pc, f) ==> s.finds[f].owner == ByWorker(w))
  {
    assert WorkerOk(cfg, s, s.workers[w]);
    assert s.finds[f].owner == ByWorker(w) <==> WorkerHolds(s.workers[w], f);
    hide Inv;
  }

  /** A step that leaves the find, and whoever holds its context, alone. */
  lemma OthersStaySafe(cfg: Config, s: State, s': State, f: nat)
    requires f < |s.finds| && f < |cfg.queries| && f < |s'.finds| && !MayBeStranded(cfg, s, f)
    requires s'.finds[f] == s.finds[f] || s'.finds[f] == Notify(s.finds[f])
    requires AboutToAppend(s', f) == AboutToAppend(s, f)
    requires forall job :: job in s'.pool.work ==> job in s.pool.work || job.find != f
    ensures !MayBeStranded(cfg, s', f)
  {
  }

  lemma OutstandingArePending(cfg: Config, s: State, f: nat)
    ensures f < |s.finds| ==> Outstanding(s.finds[f]) <= s.finds[f].ctx.pending
  {
  }

  lemma WorkerOnItsFind(cfg: Config, s: State, w: nat, f: nat)
    requires WorkerEnabled(cfg, s, w) && f < |s.finds| && Target(s.workers[w]) == Some(f)
    requires !s.workers[w].Scanning? && (WorkerHolds(s.workers[w], f) ==> s.finds[f].owner == ByWorker(w))
    ensures var s' := WorkerApply(cfg, s, w);
            && |s'.finds| == |s.finds| && s'.pool == s.pool
            && s'.finds[f] == WorkerOnFind(w, s.workers[w], s.finds[f])
            && AboutToAppend(s', f) == Coming(WorkerNextPc(cfg, s, w))
            && (s.workers[w].Scanned? ==>
                  WorkerNextPc(cfg, s, w).Appending? && WorkerNextPc(cfg, s, w).mine == s.workers[w].mine)
            && (!s.workers[w].Scanned? ==> !WorkerNextPc(cfg, s, w).Appending?)
  {
  }

  lemma WorkerStaysSafe(cfg: Config, s: State, w: nat, f: nat)
    requires Inv(cfg, s) && WorkerEnabled(cfg, s, w) && f < |s.finds| && !s.workers[w].Scanning?
    requires Target(s.workers[w]) == Some(f) && f < |cfg.queries| && !MayBeStranded(cfg, s, f)
    ensures f < |WorkerApply(cfg, s, w).finds| && !MayBeStranded(cfg, WorkerApply(cfg, s, w), f)
  {
    assert w < |s.workers|;
    hide Inv, WorkerApply, WorkerEnabled, WorkerNextPc, WorkerOnFind, MayOffer, AboutToAppend, Coming, WorkerFits;
    WorkerFitting(cfg, s, w, f);
    OutstandingArePending(cfg, s, f);
    WorkerPart(cfg, s, w, f);
    WorkerOnItsFind(cfg, s, w, f);
    WorkerMakesNoRoom(cfg, cfg.queries[f], w, s.workers[w], WorkerNextPc(cfg, s, w), s.finds[f]);
  }

  /** Nothing that a dying pool's threads do strands a safe find. */
  lemma StepStaysSafe(cfg: Config, s: State, a: Action, f: nat)
    requires Inv(cfg, s) && s.pool.die && Enabled(cfg, s, a) && f < |s.finds| == |cfg.queries|
    requires !MayBeStranded(cfg, s, f)
    ensures |Apply(cfg, s, a).finds| == |s.finds| && !MayBeStranded(cfg, Apply(cfg, s, a), f)
  {
    if a == FinderAct(f) {
      FinderStaysSafe(cfg, s, f);
    } else if a.WorkerAct? && Target(s.workers[a.w]) == Some(f) && !s.workers[a.w].Scanning? {
      WorkerStaysSafe(cfg, s, a.w, f);
    } else {
      OthersLeaveAlone(cfg, s, a, f);
      hide Apply, Enabled, Inv;
      OthersStaySafe(cfg, s, Apply(cfg, s, a), f);
    }
  }

  lemma OthersLeaveAlone(cfg: Config, s: State, a: Action, f: nat)
    requires ContextLocksOk(s) && s.pool.die && Enabled(cfg, s, a) && f < |s.finds| == |cfg.queries|
    requires a != FinderAct(f)
    requires a.WorkerAct? ==> Target(s.workers[a.w]) != Some(f) || s.workers[a.w].Scanning?
    ensures var s' := Apply(cfg, s, a);
            && |s'.finds| == |s.finds|
            && (s'.finds[f] == s.finds[f] || s'.finds[f] == Notify(s.finds[f]))
            && AboutToAppend(s', f) == AboutToAppend(s, f)
            && forall job :: job in s'.pool.work ==> job in s.pool.work || job.find != f
  {
    hide FinderLocal, InsertCheck, EraseCheck;
  }

  lemma {:induction false} SafeForGood(cfg: Config, before: seq<Action>, after: seq<Action>, f: nat)
    requires ConfigOk(cfg) && Execute(cfg, before).Some? && Execute(cfg, before + after).Some?
    requires f < |Execute(cfg, before).value.finds| == |cfg.queries|
    requires Execute(cfg, before).value.pool.die && !MayBeStranded(cfg, Execute(cfg, before).value, f)
    ensures f < |Execute(cfg, before + after).value.finds|
    ensures Execute(cfg, before + after).value.pool.die && !MayBeStranded(cfg, Execute(cfg, before + after).value, f)
  {
    hide Inv, Execute, Apply, Enabled, MayBeStranded;
    if after == [] {
      assert before + after == before;
    } else {
      var init, a := after[..|after| - 1], after[|after| - 1];
      assert before + after == (before + init) + [a];
      ExecuteStep(cfg, before + init, a);
      SafeForGood(cfg, before, init, f);
      ReachableInv(cfg, before + init);
      DeathIsFinal(cfg, Execute(cfg, before + init).value, a);
      InvShape(cfg, Execute(cfg, before + init).value);
      StepStaysSafe(cfg, Execute(cfg, before + init).value, a, f);
    }
  }

  lemma DeathIsFinal(cfg: Config, s: State, a: Action)
    requires Enabled(cfg, s, a) && s.pool.die
    ensures Apply(cfg, s, a).pool.die
  {
  }

  // ---- A find that can be stranded can get there -----------------------------

  /** The holder of the context's mutex leaves room when it goes. */
  lemma HolderLeavesRoom(cfg: Config, q: Query, w: nat, pc: WorkerPc, find: Find)
    requires WorkerFits(q, pc, find) && Outstanding(find) <= find.ctx.pending
    requires |find.ctx.pending| <= cfg.concurrency && (pc.Deciding? || pc.Appending? || pc.Unlocking?)
    requires MayOffer(cfg, q, find, Coming(pc))
    ensures MayOffer(cfg, q, WorkerOnFind(w, pc, find), None)
  {
    hide Part, Outstanding;
    if pc.Appending? {
      SetRemoval(find.ctx.pending, pc.job.cell);
    }
  }

  lemma FinderComesCloser(cfg: Config, q: Query, find: Find)
    requires PcOk(cfg, q, find) && MayOffer(cfg, q, find, None) && !find.pc.Enqueuing? && !find.pc.Pushing?
    ensures var find' := FinderLocal(cfg, q, find); find'.pc.Enqueuing? || MayOffer(cfg, q, find', None)
  {
    hide Part;
  }

  lemma PendingBound(cfg: Config, s: State, f: nat)
    requires Inv(cfg, s) && f < |s.finds|
    ensures f < |cfg.queries| && |s.finds[f].ctx.pending| <= cfg.concurrency
  {
    assert FindOk(cfg, cfg.queries[f], s.finds[f]);
  }

  lemma ContextHolder(cfg: Config, s: State, f: nat)
    requires Inv(cfg, s) && f < |s.finds|
    ensures match s.finds[f].owner
            case ByWorker(w) => w < |s.workers| && WorkerHolds(s.workers[w], f)
            case ByFinder => FinderHolds(s.finds[f].pc)
            case Unowned => !FinderHolds(s.finds[f].pc)
  {
  }

  lemma HolderCanStep(cfg: Config, s: State, w: nat, f: nat)
    requires Inv(cfg, s) && w < |s.workers| && WorkerHolds(s.workers[w], f)
    ensures CanStep(cfg, s, WorkerAct(w)) && Target(s.workers[w]) == Some(f)
  {
    EnabledByOk(cfg, s, w);
  }

  lemma HolderMakesRoom(cfg: Config, s: State, w: nat, f: nat)
    requires Inv(cfg, s) && f < |s.finds| && f < |cfg.queries| && s.finds[f].owner == ByWorker(w)
    requires MayOffer(cfg, cfg.queries[f], s.finds[f], AboutToAppend(s, f))
    ensures CanStep(cfg, s, WorkerAct(w))
    ensures f < |Apply(cfg, s, WorkerAct(w)).finds| && MayBeStranded(cfg, Apply(cfg, s, WorkerAct(w)), f)
  {
    ContextHolder(cfg, s, f);
    HolderCanStep(cfg, s, w, f);
    PendingBound(cfg, s, f);
    var pc := s.workers[w];
    assert pc.Deciding? || pc.Appending? || pc.Unlocking?;
    assert WorkerEnabled(cfg, s, w) && Apply(cfg, s, WorkerAct(w)) == WorkerApply(cfg, s, w);
    hide Inv, Apply, CanStep, WorkerApply, WorkerEnabled, WorkerNextPc, WorkerOnFind;
    hide MayOffer, AboutToAppend, WorkerFits;
    WorkerFitting(cfg, s, w, f);
    OutstandingArePending(cfg, s, f);
    WorkerPart(cfg, s, w, f);
    WorkerOnItsFind(cfg, s, w, f);
    HolderLeavesRoom(cfg, cfg.queries[f], w, pc, s.finds[f]);
  }

  lemma FinderMakesOffer(cfg: Config, s: State, f: nat)
    requires Inv(cfg, s) && f < |s.finds| && f < |cfg.queries| && FinderEnabled(s, f)
    requires !s.finds[f].pc.Enqueuing? && !s.finds[f].pc.Pushing?
    requires MayOffer(cfg, cfg.queries[f], s.finds[f], AboutToAppend(s, f))
    ensures CanStep(cfg, s, FinderAct(f))
    ensures f < |Apply(cfg, s, FinderAct(f)).finds| && MayBeStranded(cfg, Apply(cfg, s, FinderAct(f)), f)
  {
    FinderNotHeld(cfg, s, f);
    assert !s.failed;
    hide Inv, PcOk, FinderLocal, MayOffer, InsertCheck;
    FinderComesCloser(cfg, cfg.queries[f], s.finds[f]);
    FinderWithoutWorker(cfg, cfg.queries[f], s.finds[f]);
  }

  lemma FinderIsReady(cfg: Config, s: State, f: nat)
    requires Inv(cfg, s) && f < |s.finds| && f < |cfg.queries| && !s.finds[f].owner.ByWorker?
    requires !s.finds[f].pc.Enqueuing? && !s.finds[f].pc.Pushing? && WantsMore(cfg, cfg.queries[f], s.finds[f])
    requires s.finds[f].owner == ByFinder || |s.finds[f].ctx.pending| < cfg.concurrency
    ensures FinderEnabled(s, f)
  {
    ContextHolder(cfg, s, f);
    assert FindOk(cfg, cfg.queries[f], s.finds[f]);
  }

  /** A pending cell whose worklette is not in the queue is in a worker's
      hands. */
  lemma WorkerOfCell(cfg: Config, s: State, f: nat, c: Cell) returns (w: nat)
    requires Inv(cfg, s) && f < |s.finds| && c in s.finds[f].ctx.pending && !Doomed(s, f)
    ensures w < |s.workers| && JobOf(s.workers[w]) == multiset{Job(f, c)}
  {
    var job := Job(f, c);
    assert c in Outstanding(s.finds[f]);
    assert Jobs(s)[job] == 1;
    assert job !in s.pool.work;
    w := HeldWitness(s.workers, job);
  }

  lemma ScanComesCloser(cfg: Config, s: State, w: nat, f: nat)
    requires ConfigOk(cfg) && Inv(cfg, s) && f < |s.finds| && f < |cfg.queries| && w < |s.workers|
    requires s.workers[w].Scanning? && Target(s.workers[w]) == Some(f) && MayBeStranded(cfg, s, f)
    requires s.finds[f].owner == Unowned
    ensures CanStep(cfg, s, WorkerAct(w))
    ensures f < |Apply(cfg, s, WorkerAct(w)).finds| && MayBeStranded(cfg, Apply(cfg, s, WorkerAct(w)), f)
  {
    ScanCanStep(cfg, s, w);
    hide Inv, Part, EraseCheck;
  }

  lemma WorkerComesCloser(cfg: Config, s: State, w: nat, f: nat, c: Cell)
    requires ConfigOk(cfg) && Inv(cfg, s) && f < |s.finds| && f < |cfg.queries| && w < |s.workers|
    requires JobOf(s.workers[w]) == multiset{Job(f, c)} && s.finds[f].owner == Unowned
    requires c in s.finds[f].ctx.pending && WantsMore(cfg, cfg.queries[f], s.finds[f])
    requires |s.finds[f].ctx.ppl| + |Part(cfg.queries[f].matches, c)| < cfg.maxPpl
    ensures CanStep(cfg, s, WorkerAct(w))
    ensures f < |Apply(cfg, s, WorkerAct(w)).finds| && MayBeStranded(cfg, Apply(cfg, s, WorkerAct(w)), f)
  {
    WorkerHoldsNothing(s, w, f);
    if s.workers[w].Scanning? {
      hide Inv, Part, Apply;
      ScanComesCloser(cfg, s, w, f);
    } else {
      EnabledByOk(cfg, s, w);
      assert !s.failed && WorkerEnabled(cfg, s, w);
      WorkerPart(cfg, s, w, f);
      hide Inv, Part, WorkerApply, WorkerNextPc;
      WorkerOnItsFind(cfg, s, w, f);
    }
  }

  lemma WorkerHoldsNothing(s: State, w: nat, f: nat)
    requires ContextLocksOk(s) && w < |s.workers| && f < |s.finds| && s.finds[f].owner == Unowned
    ensures !WorkerHolds(s.workers[w], f)
  {
  }

  lemma StrandStep(cfg: Config, s: State, f: nat) returns (a: Action)
    requires ConfigOk(cfg) && Inv(cfg, s) && f < |s.finds| && f < |cfg.queries| && !Doomed(s, f)
    requires MayOffer(cfg, cfg.queries[f], s.finds[f], AboutToAppend(s, f))
    ensures CanStep(cfg, s, a)
    ensures f < |Apply(cfg, s, a).finds| && MayBeStranded(cfg, Apply(cfg, s, a), f)
  {
    var find := s.finds[f];
    if find.owner.ByWorker? {
      hide Inv, CanStep, MayBeStranded, MayOffer, Apply, Doomed;
      a := WorkerAct(find.owner.w);
      HolderMakesRoom(cfg, s, find.owner.w, f);
    } else if find.owner == ByFinder || |find.ctx.pending| < cfg.concurrency {
      hide Inv, CanStep, MayBeStranded, Apply, FinderEnabled;
      a := FinderAct(f);
      FinderIsReady(cfg, s, f);
      FinderMakesOffer(cfg, s, f);
    } else {
      hide Inv, CanStep, MayBeStranded, Apply, Doomed;
      var c :| c in find.ctx.pending && |find.ctx.ppl| + |Part(cfg.queries[f].matches, c)| < cfg.maxPpl;
      var w := WorkerOfCell(cfg, s, f, c);
      a := WorkerAct(w);
      WorkerComesCloser(cfg, s, w, f, c);
    }
  }

  lemma DoomedStep(cfg: Config, s: State, a: Action, f: nat)
    requires Enabled(cfg, s, a) && s.pool.die && f < |s.finds| == |cfg.queries| && Doomed(s, f)
    ensures |Apply(cfg, s, a).finds| == |s.finds| && Apply(cfg, s, a).pool.die && Doomed(Apply(cfg, s, a), f)
  {
    if a == FinderAct(f) && s.finds[f].pc.Pushing? {
      assert Job(f, s.finds[f].pc.cell) in Apply(cfg, s, a).pool.work;
    } else if !s.finds[f].pc.Enqueuing? && !s.finds[f].pc.Pushing? {
      var job :| job in s.pool.work && job.find == f;
      QueueOutlivesPool(cfg, s, a, job);
    }
    hide WorkerNextPc, NotifyWorkers, InsertCheck, EraseCheck;
  }

  lemma DoomedIsOut(cfg: Config, s: State, f: nat)
    requires Inv(cfg, s) && f < |s.finds| && Doomed(s, f)
    ensures !s.finds[f].pc.Returned?
  {
    if s.finds[f].pc.Returned? {
      NobodyOutlivesTheFind(cfg, s, f);
    }
  }

  /** Once a dying pool has a find's worklette in its queue, or is about to
      get it, that find never comes back. */
  lemma {:induction false} DoomedForever(cfg: Config, before: seq<Action>, after: seq<Action>, f: nat)
    requires ConfigOk(cfg) && Execute(cfg, before).Some? && Execute(cfg, before + after).Some?
    requires f < |Execute(cfg, before).value.finds| == |cfg.queries|
    requires Execute(cfg, before).value.pool.die && Doomed(Execute(cfg, before).value, f)
    ensures var s := Execute(cfg, before + after).value;
            f < |s.finds| && s.pool.die && Doomed(s, f) && !s.finds[f].pc.Returned?
  {
    hide Inv, Execute, Apply, Enabled, Doomed;
    if after == [] {
      assert before + after == before;
    } else {
      var init, a := after[..|after| - 1], after[|after| - 1];
      assert before + after == (before + init) + [a];
      ExecuteStep(cfg, before + init, a);
      DoomedForever(cfg, before, init, f);
      ReachableInv(cfg, before + init);
      InvShape(cfg, Execute(cfg, before + init).value);
      DoomedStep(cfg, Execute(cfg, before + init).value, a, f);
    }
    ReachableInv(cfg, before + after);
    DoomedIsOut(cfg, Execute(cfg, before + after).value, f);
  }

  lemma {:induction false} Strand(cfg: Config, schedule: seq<Action>, f: nat) returns (more: seq<Action>)
    requires ConfigOk(cfg) && Execute(cfg, schedule).Some? && Execute(cfg, schedule).value.pool.die
    requires f < |Execute(cfg, schedule).value.finds| == |cfg.queries|
    requires MayBeStranded(cfg, Execute(cfg, schedule).value, f)
    ensures Execute(cfg, schedule + more).Some?
    ensures var s := Execute(cfg, schedule + more).value;
            |s.finds| == |cfg.queries| && s.pool.die && Doomed(s, f)
    decreases Measure(cfg, Execute(cfg, schedule).value)
  {
    hide Inv, Measure, Execute, Apply, Enabled, Productive, Doomed, MayOffer, AboutToAppend;
    var s := Execute(cfg, schedule).value;
    ReachableInv(cfg, schedule);
    if Doomed(s, f) {
      assert schedule + [] == schedule;
      more := [];
    } else {
      var a := StrandStep(cfg, s, f);
      DyingStepTaken(cfg, s, a);
      ExecuteStep(cfg, schedule, a);
      var rest := Strand(cfg, schedule + [a], f);
      more := [a] + rest;
      assert schedule + more == schedule + [a] + rest;
    }
  }

  lemma DyingStepTaken(cfg: Config, s: State, a: Action)
    requires ConfigOk(cfg) && Inv(cfg, s) && s.pool.die && CanStep(cfg, s, a)
    ensures Enabled(cfg, s, a) && Apply(cfg, s, a).pool.die && |Apply(cfg, s, a).finds| == |cfg.queries|
    ensures Measure(cfg, Apply(cfg, s, a)) < Measure(cfg, s)
  {
    hide Inv, Measure, Apply, Enabled;
    ProductiveKeepsPoolAlive(cfg, s, a);
    StepMeasure(cfg, s, a);
    StepKeepsInv(cfg, s, a);
    InvShape(cfg, Apply(cfg, s, a));
  }

  // ---- The exact condition ---------------------------------------------------

  /** The schedule, continued like this, cannot go on. */
  ghost predicate RunsOut(cfg: Config, schedule: seq<Action>, more: seq<Action>) {
    Execute(cfg, schedule + more).Some? && forall a :: !CanStep(cfg, Execute(cfg, schedule + more).value, a)
  }

  lemma {:induction false} EveryScheduleRunsOut(cfg: Config, schedule: seq<Action>) returns (more: seq<Action>)
    requires ConfigOk(cfg) && Execute(cfg, schedule).Some? && Execute(cfg, schedule).value.pool.die
    ensures RunsOut(cfg, schedule, more)
    decreases Measure(cfg, Execute(cfg, schedule).value)
  {
    hide Inv, Measure, Execute, Apply, Enabled, CanStep;
    var s := Execute(cfg, schedule).value;
    ReachableInv(cfg, schedule);
    if a :| CanStep(cfg, s, a) {
      DyingStepTaken(cfg, s, a);
      ExecuteStep(cfg, schedule, a);
      var rest := EveryScheduleRunsOut(cfg, schedule + [a]);
      more := [a] + rest;
      assert schedule + more == schedule + [a] + rest;
    } else {
      assert schedule + [] == schedule;
      more := [];
    }
  }

  ghost predicate BackInTheEnd(cfg: Config, schedule: seq<Action>, f: nat) {
    forall more :: RunsOut(cfg, schedule, more) ==>
      f < |Execute(cfg, schedule + more).value.finds| && Execute(cfg, schedule + more).value.finds[f].pc.Returned?
  }

  lemma SafeComesBack(cfg: Config, schedule: seq<Action>, more: seq<Action>, f: nat)
    requires ConfigOk(cfg) && cfg.concurrency > 0 && Execute(cfg, schedule).Some? && RunsOut(cfg, schedule, more)
    requires f < |Execute(cfg, schedule).value.finds| == |cfg.queries|
    requires Execute(cfg, schedule).value.pool.die && !MayBeStranded(cfg, Execute(cfg, schedule).value, f)
    ensures f < |Execute(cfg, schedule + more).value.finds|
    ensures Execute(cfg, schedule + more).value.finds[f].pc.Returned?
  {
    hide Execute, CanStep, MayOffer, AboutToAppend;
    SafeForGood(cfg, schedule, more, f);
    StuckMeansJoined(cfg, schedule + more);
  }

  /** The theorem: when the pool has been told to die, a find is sure to come
      back if and only if it is not one of those that may be stranded. */
  lemma BackExactlyUnlessStranded(cfg: Config, schedule: seq<Action>, f: nat)
    requires ConfigOk(cfg) && cfg.concurrency > 0 && Execute(cfg, schedule).Some?
    requires f < |Execute(cfg, schedule).value.finds| == |cfg.queries| && Execute(cfg, schedule).value.pool.die
    ensures BackInTheEnd(cfg, schedule, f) <==> !MayBeStranded(cfg, Execute(cfg, schedule).value, f)
  {
    hide Execute, CanStep, MayBeStranded, RunsOut, Doomed;
    if MayBeStranded(cfg, Execute(cfg, schedule).value, f) {
      var toDoom := Strand(cfg, schedule, f);
      var rest := EveryScheduleRunsOut(cfg, schedule + toDoom);
      assert schedule + toDoom + rest == schedule + (toDoom + rest);
      RunsOutSame(cfg, schedule, toDoom, rest);
      assert Execute(cfg, schedule + toDoom + rest).Some? by { RunsOutIsRun(cfg, schedule + toDoom, rest); }
      DoomedForever(cfg, schedule + toDoom, rest, f);
    } else {
      forall more | RunsOut(cfg, schedule, more)
        ensures Execute(cfg, schedule + more).Some? && f < |Execute(cfg, schedule + more).value.finds|
        ensures Execute(cfg, schedule + more).value.finds[f].pc.Returned?
      {
        RunsOutIsRun(cfg, schedule, more);
        SafeComesBack(cfg, schedule, more, f);
      }
    }
  }

  lemma RunsOutIsRun(cfg: Config, schedule: seq<Action>, more: seq<Action>)
    requires RunsOut(cfg, schedule, more)
    ensures Execute(cfg, schedule + more).Some?
  {
  }

  lemma RunsOutSame(cfg: Config, schedule: seq<Action>, some: seq<Action>, rest: seq<Action>)
    requires RunsOut(cfg, schedule + some, rest)
    ensures RunsOut(cfg, schedule, some + rest)
  {
    assert schedule + some + rest == schedule + (some + rest);
  }

  // ---- The pool's end during finds and after them ----------------------------

  /** The first find is where it is on its first offer. */
  ghost predicate OfferingFirst(cfg: Config, s: State, find: Find) {
    && !s.failed && !s.pool.die && s.poolOwner == PoolUnowned
    && 0 < |s.finds| && 0 < |cfg.queries| && cfg.queries[0].order != []
    && cfg.maxPpl > 0 && cfg.concurrency > 0 && s.finds[0] == find
  }

  lemma FirstStep(cfg: Config, s: State)
    requires cfg.queries != [] && OfferingFirst(cfg, s, InitialFind(cfg.queries[0]))
    ensures Enabled(cfg, s, FinderAct(0))
    ensures OfferingFirst(cfg, Apply(cfg, s, FinderAct(0)),
                          InitialFind(cfg.queries[0]).(pc := Holding(AtOffer), owner := ByFinder))
  {
  }

  lemma SecondStep(cfg: Config, s: State, find: Find)
    requires cfg.queries != [] && OfferingFirst(cfg, s, find)
    requires find == InitialFind(cfg.queries[0]).(pc := Holding(AtOffer), owner := ByFinder)
    ensures Enabled(cfg, s, FinderAct(0))
    ensures var find' := FinderLocal(cfg, cfg.queries[0], find);
            find'.pc == Enqueuing(cfg.queries[0].order[0]) && OfferingFirst(cfg, Apply(cfg, s, FinderAct(0)), find')
  {
    assert InsertCheck(cfg, cfg.queries[0], find);
    assert FinderLocal(cfg, cfg.queries[0], find).pc == Enqueuing(cfg.queries[0].order[0]);
    hide FinderLocal, InsertCheck;
  }

  /** The first find is about to put its first cell in the pool's queue. */
  ghost predicate AboutToPush(cfg: Config, s: State) {
    && !s.failed && !s.pool.die && s.poolOwner == PoolByFinder(0)
    && 0 < |s.finds| && 0 < |cfg.queries| && cfg.queries[0].order != []
    && s.finds[0].pc == Pushing(cfg.queries[0].order[0])
  }

  lemma ThirdStep(cfg: Config, s: State, find: Find)
    requires cfg.queries != [] && OfferingFirst(cfg, s, find) && find.pc == Enqueuing(cfg.queries[0].order[0])
    ensures Enabled(cfg, s, FinderAct(0)) && AboutToPush(cfg, Apply(cfg, s, FinderAct(0)))
  {
  }

  lemma ExecuteNext(cfg: Config, schedule: seq<Action>, s: State, a: Action, longer: seq<Action>)
    requires Execute(cfg, schedule) == Some(s) && Enabled(cfg, s, a) && longer == schedule + [a]
    ensures Execute(cfg, longer) == Some(Apply(cfg, s, a))
  {
    ExecuteStep(cfg, schedule, a);
  }

  lemma FirstOffer(cfg: Config, schedule: seq<Action>) returns (s: State)
    requires cfg.maxPpl > 0 && cfg.concurrency > 0 && cfg.queries != [] && cfg.queries[0].order != []
    requires schedule == [FinderAct(0), FinderAct(0), FinderAct(0)]
    ensures Execute(cfg, schedule) == Some(s) && AboutToPush(cfg, s)
  {
    var a, q, s0 := FinderAct(0), cfg.queries[0], Initial(cfg);
    assert OfferingFirst(cfg, s0, InitialFind(q));
    hide OfferingFirst, InitialFind, FinderLocal, Execute, Apply, Enabled, Initial, AboutToPush;
    FirstStep(cfg, s0);
    var s1, find1 := Apply(cfg, s0, a), InitialFind(q).(pc := Holding(AtOffer), owner := ByFinder);
    SecondStep(cfg, s1, find1);
    var s2, find2 := Apply(cfg, s1, a), FinderLocal(cfg, q, find1);
    ThirdStep(cfg, s2, find2);
    s := Apply(cfg, s2, a);
    ExecuteNothing(cfg);
    ExecuteNext(cfg, [], s0, a, schedule[..1]);
    ExecuteNext(cfg, schedule[..1], s1, a, schedule[..2]);
    ExecuteNext(cfg, schedule[..2], s2, a, schedule);
  }

  lemma PushThenDie(cfg: Config, s: State) returns (s': State)
    requires AboutToPush(cfg, s)
    ensures Enabled(cfg, s, FinderAct(0)) && Enabled(cfg, Apply(cfg, s, FinderAct(0)), Destroy)
    ensures s' == Apply(cfg, Apply(cfg, s, FinderAct(0)), Destroy)
    ensures s'.pool.die && 0 < |s'.finds| && Job(0, cfg.queries[0].order[0]) in s'.pool.work
  {
    s' := Apply(cfg, Apply(cfg, s, FinderAct(0)), Destroy);
  }

  /** The pool's end in the middle of the first offer strands a find. */
  lemma EndDuringFind(cfg: Config, schedule: seq<Action>)
    requires cfg.maxPpl > 0 && cfg.concurrency > 0 && cfg.queries != [] && cfg.queries[0].order != []
    requires schedule == [FinderAct(0), FinderAct(0), FinderAct(0), FinderAct(0), Destroy]
    ensures var run := Execute(cfg, schedule);
            run.Some? && run.value.pool.die && 0 < |run.value.finds| && Doomed(run.value, 0)
  {
    hide Execute, Apply, Enabled, AboutToPush;
    var s := FirstOffer(cfg, schedule[..3]);
    var s' := PushThenDie(cfg, s);
    ExecuteNext(cfg, schedule[..3], s, FinderAct(0), schedule[..4]);
    ExecuteNext(cfg, schedule[..4], Apply(cfg, s, FinderAct(0)), Destroy, schedule);
  }

  /** A pool that ends when all finds are back, as the server sees to, is
      joined with nothing left in its queue. */
  lemma EndAfterFinds(cfg: Config, schedule: seq<Action>, more: seq<Action>)
    requires ConfigOk(cfg) && cfg.concurrency > 0 && Execute(cfg, schedule).Some? && RunsOut(cfg, schedule, more)
    requires Execute(cfg, schedule).value.pool.die && AllReturned(Execute(cfg, schedule).value)
    ensures var s := Execute(cfg, schedule + more).value; AllDead(s) && s.pool.work == []
  {
    var before, s := Execute(cfg, schedule).value, Execute(cfg, schedule + more).value;
    hide Execute, CanStep;
    ReachableInv(cfg, schedule);
    ReachableInv(cfg, schedule + more);
    InvShape(cfg, before);
    InvShape(cfg, s);
    JobsHaveFinds(s);
    hide Inv;
    NothingPoppedAfterDeath(cfg, schedule, more);
    StuckMeansJoined(cfg, schedule + more);
    forall job | job in s.pool.work
      ensures false
    {
      ReturnedForever(cfg, schedule, more, job.find);
    }
    QueueFront(s.pool.work);
  }

  lemma JobsHaveFinds(s: State)
    requires JobsOk(s)
    ensures forall job :: job in s.pool.work ==> job.find < |s.finds|
  {
    forall job | job in s.pool.work
      ensures job.find < |s.finds|
    {
      assert job in Jobs(s);
    }
  }

  lemma QueueFront(work: seq<Job>)
    ensures work == [] || work[0] in work
  {
  }
}
