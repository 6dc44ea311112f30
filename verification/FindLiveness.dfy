/** Finds come back exactly when there is somebody to do the work. */
module FindLiveness {
  import opened Seqs
  import opened CriticalSections
  import opened FindProtocol
  import opened FindInvariant
  import opened FindSafety
  import opened FindProgress
  import opened FindResults
  import opened FindTermination

  predicate AllReturned(s: State) {
    forall f :: 0 <= f < |s.finds| ==> s.finds[f].pc.Returned?
  }

  lemma ProductiveKeepsPoolAlive(cfg: Config, s: State, a: Action)
    requires CanStep(cfg, s, a)
    ensures Apply(cfg, s, a).pool.die == s.pool.die
  {
  }

  /** From wherever a schedule has led, letting threads step as they can
      brings every find back. */
  lemma {:induction false} EveryFindCanFinish(cfg: Config, schedule: seq<Action>) returns (more: seq<Action>)
    requires ConfigOk(cfg) && cfg.concurrency > 0 && cfg.workerCount > 0
    requires Execute(cfg, schedule).Some? && !Execute(cfg, schedule).value.pool.die
    ensures forall a :: a in more ==> Productive(a)
    ensures Execute(cfg, schedule + more).Some? && AllReturned(Execute(cfg, schedule + more).value)
    decreases Measure(cfg, Execute(cfg, schedule).value)
  {
    hide Inv, Measure, Execute, Apply, Enabled, Productive;
    var s := Execute(cfg, schedule).value;
    ReachableInv(cfg, schedule);
    if AllReturned(s) {
      assert schedule + [] == schedule;
      more := [];
    } else {
      var a := SomeStep(cfg, s);
      ExecuteStep(cfg, schedule, a);
      var rest := EveryFindCanFinish(cfg, schedule + [a]);
      more := [a] + rest;
      assert schedule + more == schedule + [a] + rest;
    }
  }

  lemma SomeStep(cfg: Config, s: State) returns (a: Action)
    requires ConfigOk(cfg) && Inv(cfg, s) && cfg.concurrency > 0 && cfg.workerCount > 0
    requires !AllReturned(s) && !s.pool.die
    ensures Enabled(cfg, s, a) && Productive(a)
    ensures !Apply(cfg, s, a).pool.die && Measure(cfg, Apply(cfg, s, a)) < Measure(cfg, s)
  {
    hide Inv, Measure, Apply, Enabled;
    var f :| 0 <= f < |s.finds| && !s.finds[f].pc.Returned?;
    a := Progress(cfg, s, f);
    ProductiveKeepsPoolAlive(cfg, s, a);
    StepMeasure(cfg, s, a);
  }

  /** A schedule that cannot go on, with a living pool, has brought every
      find back. */
  lemma StuckMeansReturned(cfg: Config, schedule: seq<Action>)
    requires ConfigOk(cfg) && cfg.concurrency > 0 && cfg.workerCount > 0
    requires Execute(cfg, schedule).Some? && !Execute(cfg, schedule).value.pool.die
    requires forall a :: !CanStep(cfg, Execute(cfg, schedule).value, a)
    ensures AllReturned(Execute(cfg, schedule).value)
  {
    var s := Execute(cfg, schedule).value;
    ReachableInv(cfg, schedule);
    hide Inv, Execute, CanStep;
    forall f | 0 <= f < |s.finds|
      ensures s.finds[f].pc.Returned?
    {
      if !s.finds[f].pc.Returned? {
        var a := Progress(cfg, s, f);
      }
    }
  }

  // ---- Nobody to do the work -----------------------------------------------

  /** A find that has not got past its first offer. */
  predicate Idle(find: Find) {
    && find.ctx == EMPTY_CONTEXT
    && (find.pc.Offering? || find.pc == Holding(AtOffer) || (find.pc.Waiting? && find.pc.site == AtOffer))
  }

  /** A worker that touches an idle find at most unlocks its mutex. */
  lemma IdleUnscanned(cfg: Config, s: State, w: nat, f: nat)
    requires Inv(cfg, s) && w < |s.workers| && f < |s.finds| && Idle(s.finds[f])
    ensures Target(s.workers[w]) == Some(f) ==> s.workers[w].Unlocking?
  {
    assert Outstanding(s.finds[f]) == {};
    hide Inv, Outstanding, Idle;
    match s.workers[w]
    case Started(job) => HeldJobOutstanding(cfg, s, w, job);
    case Deciding(job) => HeldJobOutstanding(cfg, s, w, job);
    case Scanning(job) => HeldJobOutstanding(cfg, s, w, job);
    case Scanned(job, _) => HeldJobOutstanding(cfg, s, w, job);
    case Appending(job, _) => HeldJobOutstanding(cfg, s, w, job);
    case _ =>
  }

  lemma InvShape(cfg: Config, s: State)
    requires Inv(cfg, s)
    ensures |s.finds| == |cfg.queries| && |s.workers| == cfg.workerCount
  {
  }

  lemma IdleLocal(cfg: Config, q: Query, find: Find)
    requires cfg.maxPpl > 0 && cfg.concurrency == 0 && Idle(find)
    ensures Idle(FinderLocal(cfg, q, find)) && Idle(Notify(find))
  {
  }

  lemma UnscannedStaysIdle(cfg: Config, s: State, a: Action, f: nat)
    requires cfg.maxPpl > 0 && cfg.concurrency == 0
    requires Enabled(cfg, s, a) && f < |s.finds| && f < |cfg.queries| && Idle(s.finds[f])
    requires a.WorkerAct? && Target(s.workers[a.w]) == Some(f) ==> s.workers[a.w].Unlocking?
    ensures |Apply(cfg, s, a).finds| == |s.finds| && Idle(Apply(cfg, s, a).finds[f])
  {
    IdleLocal(cfg, cfg.queries[f], s.finds[f]);
    hide FinderLocal, Notify, InsertCheck, EraseCheck, NotifyWorkers, WorkerNextPc;
  }

  lemma IdleStep(cfg: Config, s: State, a: Action, f: nat)
    requires cfg.maxPpl > 0 && cfg.concurrency == 0 && |s.finds| == |cfg.queries|
    requires Inv(cfg, s) && Enabled(cfg, s, a) && f < |s.finds| && Idle(s.finds[f])
    ensures |Apply(cfg, s, a).finds| == |s.finds| && Idle(Apply(cfg, s, a).finds[f])
  {
    hide Inv, Idle, Apply;
    if a.WorkerAct? {
      IdleUnscanned(cfg, s, a.w, f);
    }
    UnscannedStaysIdle(cfg, s, a, f);
  }

  lemma {:induction false} NoConcurrencyNoReturn(cfg: Config, schedule: seq<Action>, f: nat)
    requires ConfigOk(cfg) && Execute(cfg, schedule).Some? && cfg.concurrency == 0
    requires f < |cfg.queries| && cfg.queries[f].order != []
    ensures f < |Execute(cfg, schedule).value.finds| && Idle(Execute(cfg, schedule).value.finds[f])
  {
    if schedule != [] {
      hide Inv, Apply, Enabled, Idle;
      var init, a := ExecuteLast(cfg, schedule);
      hide Execute;
      NoConcurrencyNoReturn(cfg, init, f);
      ReachableInv(cfg, init);
      assert |Execute(cfg, init).value.finds| == |cfg.queries| by { InvShape(cfg, Execute(cfg, init).value); }
      IdleStep(cfg, Execute(cfg, init).value, a, f);
    }
  }

  lemma UncommittedStep(cfg: Config, s: State, a: Action, f: nat)
    requires Enabled(cfg, s, a) && |s.workers| == 0 && f < |s.finds| && s.finds[f].committed == []
    ensures |Apply(cfg, s, a).finds| == |s.finds| && Apply(cfg, s, a).finds[f].committed == []
  {
  }

  lemma {:induction false} NoWorkersNoCommit(cfg: Config, schedule: seq<Action>, f: nat)
    requires ConfigOk(cfg) && Execute(cfg, schedule).Some? && cfg.workerCount == 0 && f < |cfg.queries|
    ensures f < |Execute(cfg, schedule).value.finds| && Execute(cfg, schedule).value.finds[f].committed == []
  {
    if schedule != [] {
      hide Inv, Apply, Enabled;
      var init, a := ExecuteLast(cfg, schedule);
      hide Execute;
      NoWorkersNoCommit(cfg, init, f);
      ReachableInv(cfg, init);
      InvShape(cfg, Execute(cfg, init).value);
      UncommittedStep(cfg, Execute(cfg, init).value, a, f);
    }
  }

  lemma UncommittedIsOut(cfg: Config, q: Query, find: Find)
    requires cfg.maxPpl > 0 && FindOk(cfg, q, find) && find.committed == [] && q.order != []
    ensures !find.pc.Returned?
  {
    assert !find.ctx.done && find.cancelled == [];
    if find.offered == |q.order| {
      assert q.order[..find.offered] == q.order;
      assert |multiset(q.order)| == |q.order|;
    }
  }

  ghost predicate SomeScheduleReturns(cfg: Config, f: nat) {
    exists schedule, result :: Returns(cfg, schedule, f, result)
  }

  /** A find can ever return if and only if the concurrency and the number of
      worker threads are not zero.  Both default to what the standard library
      reports as the hardware concurrency, which it may report as zero. */
  lemma ReturnsExactlyWhenStaffed(cfg: Config, f: nat)
    requires ConfigOk(cfg) && f < |cfg.queries| && cfg.queries[f].order != []
    ensures SomeScheduleReturns(cfg, f) <==> cfg.concurrency > 0 && cfg.workerCount > 0
  {
    if cfg.concurrency > 0 && cfg.workerCount > 0 {
      var more := EveryFindCanFinish(cfg, []);
      assert [] + more == more;
      ReachableInv(cfg, more);
      assert Returns(cfg, more, f, Execute(cfg, more).value.finds[f].pc.result);
    } else {
      forall schedule, result
        ensures !Returns(cfg, schedule, f, result)
      {
        if Execute(cfg, schedule).Some? {
          if cfg.concurrency == 0 {
            NoConcurrencyNoReturn(cfg, schedule, f);
          } else {
            NoWorkersNoCommit(cfg, schedule, f);
            ReachableInv(cfg, schedule);
            UncommittedIsOut(cfg, cfg.queries[f], Execute(cfg, schedule).value.finds[f]);
          }
        }
      }
    }
  }
}
