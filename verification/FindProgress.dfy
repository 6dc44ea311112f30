/** No lost wakeup and no deadlock: while a find is unfinished and the pool
    lives, some thread can take a step that is not a spurious wakeup. */
module FindProgress {
  import opened Seqs
  import opened Geo
  import opened CriticalSections
  import opened FindProtocol
  import opened FindInvariant
  import opened FindSafety

  /** A step that a thread takes of its own accord. */
  predicate Productive(a: Action) {
    a.FinderAct? || a.WorkerAct?
  }

  predicate CanStep(cfg: Config, s: State, a: Action) {
    Productive(a) && Enabled(cfg, s, a)
  }

  lemma EnabledByOk(cfg: Config, s: State, w: nat)
    requires Inv(cfg, s) && w < |s.workers|
    ensures Target(s.workers[w]).Some? ==> Target(s.workers[w]).value < |s.finds| == |cfg.queries|
  {
    assert WorkerOk(cfg, s, s.workers[w]);
  }

  /** Whoever holds the pool's mutex never waits for anything: the order
      "context mutex, then pool mutex" is never reversed. */
  lemma PoolHolderSteps(cfg: Config, s: State) returns (a: Action)
    requires Inv(cfg, s) && s.poolOwner != PoolUnowned
    ensures CanStep(cfg, s, a)
    ensures a == if s.poolOwner.PoolByFinder? then FinderAct(s.poolOwner.f) else WorkerAct(s.poolOwner.w)
  {
    match s.poolOwner
    case PoolByFinder(f) => a := FinderAct(f);
    case PoolByWorker(w) => a := WorkerAct(w);
  }

  /** Whoever holds a context's mutex waits for nothing but the pool's. */
  lemma ContextHolderSteps(cfg: Config, s: State, f: nat) returns (a: Action)
    requires Inv(cfg, s) && f < |s.finds| && s.finds[f].owner != Unowned && s.poolOwner == PoolUnowned
    ensures CanStep(cfg, s, a)
    ensures a == if s.finds[f].owner == ByFinder then FinderAct(f) else WorkerAct(s.finds[f].owner.w)
  {
    match s.finds[f].owner
    case ByFinder =>
      assert FinderHolds(s.finds[f].pc);
      a := FinderAct(f);
    case ByWorker(w) =>
      assert WorkerHolds(s.workers[w], f);
      EnabledByOk(cfg, s, w);
      a := WorkerAct(w);
  }

  /** Outstanding cells are cells the query knows. */
  lemma OutstandingKnown(cfg: Config, q: Query, find: Find, c: Cell)
    requires QueryOk(q) && FindOk(cfg, q, find) && c in Outstanding(find)
    ensures c in q.matches
  {
    assert c in multiset(find.ctx.pending);
    assert c in multiset(q.order[..find.offered]);
  }

  lemma ScannedCellKnown(cfg: Config, s: State, w: nat, job: Job)
    requires ConfigOk(cfg) && Inv(cfg, s) && w < |s.workers| && JobOf(s.workers[w]) == multiset{job}
    ensures job.find < |cfg.queries| && job.cell in cfg.queries[job.find].matches
  {
    HeldJobOutstanding(cfg, s, w, job);
    assert cfg.queries[job.find] in cfg.queries && FindOk(cfg, cfg.queries[job.find], s.finds[job.find]);
    hide Inv, FindOk;
    OutstandingKnown(cfg, cfg.queries[job.find], s.finds[job.find], job.cell);
  }

  /** Awake, or woken, and in need of no context's mutex. */
  predicate NeedsNoContext(pc: WorkerPc) {
    pc != Sleeping(false) && !pc.Dead? && !pc.Started? && !pc.Scanned? && !pc.Scanning?
  }

  lemma FreeWorkerSteps(cfg: Config, s: State, w: nat)
    requires Inv(cfg, s) && s.poolOwner == PoolUnowned && w < |s.workers| && NeedsNoContext(s.workers[w])
    ensures CanStep(cfg, s, WorkerAct(w))
  {
    EnabledByOk(cfg, s, w);
    assert !s.failed;
    hide Inv;
  }

  lemma ContextFreeSteps(cfg: Config, s: State, w: nat)
    requires !s.failed && w < |s.workers| && (s.workers[w].Started? || s.workers[w].Scanned?)
    requires s.workers[w].job.find < |s.finds| == |cfg.queries| && s.finds[s.workers[w].job.find].owner == Unowned
    ensures CanStep(cfg, s, WorkerAct(w))
  {
  }

  lemma WorkerTarget(cfg: Config, s: State, w: nat)
    requires Inv(cfg, s) && w < |s.workers|
    requires s.workers[w].Started? || s.workers[w].Scanning? || s.workers[w].Scanned?
    ensures !s.failed && s.workers[w].job.find < |s.finds| == |cfg.queries|
  {
    EnabledByOk(cfg, s, w);
  }

  /** A worker that wants a context's mutex can step, or its holder can. */
  lemma ContextFreeOrHeld(cfg: Config, s: State, w: nat) returns (a: Action)
    requires Inv(cfg, s) && s.poolOwner == PoolUnowned && w < |s.workers|
    requires s.workers[w].Started? || s.workers[w].Scanned?
    ensures CanStep(cfg, s, a)
  {
    hide Inv, CanStep;
    WorkerTarget(cfg, s, w);
    a := WorkerAct(w);
    if s.finds[s.workers[w].job.find].owner == Unowned {
      ContextFreeSteps(cfg, s, w);
    } else {
      a := ContextHolderSteps(cfg, s, s.workers[w].job.find);
    }
  }

  lemma KnownScanSteps(cfg: Config, s: State, w: nat)
    requires !s.failed && w < |s.workers| && s.workers[w].Scanning?
    requires s.workers[w].job.find < |s.finds| == |cfg.queries|
    requires s.workers[w].job.cell in cfg.queries[s.workers[w].job.find].matches
    ensures CanStep(cfg, s, WorkerAct(w))
  {
  }

  lemma ScanCanStep(cfg: Config, s: State, w: nat)
    requires ConfigOk(cfg) && Inv(cfg, s) && w < |s.workers| && s.workers[w].Scanning?
    ensures CanStep(cfg, s, WorkerAct(w))
  {
    hide Inv, CanStep;
    WorkerTarget(cfg, s, w);
    ScannedCellKnown(cfg, s, w, s.workers[w].job);
    KnownScanSteps(cfg, s, w);
  }

  /** A worker that is awake, or has been woken, can step, or the holder of
      the mutex it needs can. */
  lemma WorkerCanStep(cfg: Config, s: State, w: nat) returns (a: Action)
    requires ConfigOk(cfg) && Inv(cfg, s) && s.poolOwner == PoolUnowned && w < |s.workers|
    requires s.workers[w] != Sleeping(false) && s.workers[w] != Dead
    ensures CanStep(cfg, s, a)
  {
    hide Inv, CanStep, ConfigOk;
    a := WorkerAct(w);
    if s.workers[w].Started? || s.workers[w].Scanned? {
      a := ContextFreeOrHeld(cfg, s, w);
    } else if s.workers[w].Scanning? {
      ScanCanStep(cfg, s, w);
    } else {
      FreeWorkerSteps(cfg, s, w);
    }
  }

  /** A job that exists is in a worker's hands, or in a queue that keeps every
      worker awake. */
  lemma JobGetsDone(cfg: Config, s: State, job: Job) returns (a: Action)
    requires ConfigOk(cfg) && Inv(cfg, s) && s.poolOwner == PoolUnowned && !s.pool.die
    requires job in Jobs(s) && cfg.workerCount > 0
    ensures CanStep(cfg, s, a)
  {
    var w: nat;
    if job in Held(s.workers) {
      w := HeldWitness(s.workers, job);
    } else {
      w := 0;
      assert job in s.pool.work;
    }
    assert WorkerOk(cfg, s, s.workers[w]);
    a := WorkerCanStep(cfg, s, w);
  }

  /** A finder that sleeps and has not been notified waits for a job. */
  lemma SleeperHasJob(cfg: Config, s: State, f: nat) returns (job: Job)
    requires Inv(cfg, s) && f < |s.finds| && cfg.concurrency > 0
    requires s.finds[f].pc.Waiting? && !s.finds[f].pc.notified
    ensures job.find == f && job in Jobs(s)
  {
    var find := s.finds[f];
    assert FindOk(cfg, cfg.queries[f], find);
    assert find.ctx.pending != {};
    var c :| c in find.ctx.pending;
    job := Job(f, c);
    assert c in Outstanding(find);
  }

  /** The theorem: as long as some find is unfinished, somebody can step. */
  lemma Progress(cfg: Config, s: State, f: nat) returns (a: Action)
    requires ConfigOk(cfg) && Inv(cfg, s) && cfg.concurrency > 0 && cfg.workerCount > 0
    requires f < |s.finds| && !s.finds[f].pc.Returned? && !s.pool.die
    ensures CanStep(cfg, s, a)
  {
    if s.poolOwner != PoolUnowned {
      a := PoolHolderSteps(cfg, s);
    } else if s.finds[f].owner != Unowned {
      a := ContextHolderSteps(cfg, s, f);
    } else if s.finds[f].pc.Waiting? && !s.finds[f].pc.notified {
      var job := SleeperHasJob(cfg, s, f);
      a := JobGetsDone(cfg, s, job);
    } else {
      a := FinderAct(f);
    }
  }

  // ---- What a thread can be blocked by ---------------------------------------

  /** A worker is held up by nothing but an end, a sleep, or a mutex in
      somebody else's hands: never by where another thread is in its work. */
  lemma WorkerBlockedOnly(cfg: Config, s: State, w: nat)
    requires ConfigOk(cfg) && Inv(cfg, s) && w < |s.workers|
    ensures Enabled(cfg, s, WorkerAct(w))
       <==> match s.workers[w]
            case Dead => false
            case Sleeping(notified) => notified && s.poolOwner == PoolUnowned
            case Top => s.poolOwner == PoolUnowned
            case Started(job) => job.find < |s.finds| && s.finds[job.find].owner == Unowned
            case Scanned(job, _) => job.find < |s.finds| && s.finds[job.find].owner == Unowned
            case _ => true
  {
    EnabledByOk(cfg, s, w);
    assert !s.failed;
    if s.workers[w].Scanning? {
      ScanCanStep(cfg, s, w);
    }
    hide Inv;
  }

  lemma FinderBlockedOnly(cfg: Config, s: State, f: nat)
    requires Inv(cfg, s) && f < |s.finds|
    ensures Enabled(cfg, s, FinderAct(f))
       <==> match s.finds[f].pc
            case Returned(_) => false
            case Waiting(_, notified) => notified && s.finds[f].owner == Unowned
            case Offering => s.finds[f].owner == Unowned
            case Finishing => s.finds[f].owner == Unowned
            case Enqueuing(_) => s.poolOwner == PoolUnowned
            case _ => true
  {
  }

  /** Whoever sleeps may wake at any time, and the pool may be told to die
      whenever its mutex is free. */
  lemma EnvironmentBlockedOnly(cfg: Config, s: State)
    requires Inv(cfg, s)
    ensures forall f: nat :: f < |s.finds| ==> (Enabled(cfg, s, FinderSpurious(f)) <==> FinderSleeps(s.finds[f]))
    ensures forall w: nat :: w < |s.workers| ==>
              (Enabled(cfg, s, WorkerSpurious(w)) <==> s.workers[w] == Sleeping(false))
    ensures Enabled(cfg, s, Destroy) <==> !s.pool.die && s.poolOwner == PoolUnowned
  {
    hide Inv, FinderEnabled, WorkerEnabled;
    NothingFailed(cfg, s);
  }

  // ---- Waking in vain --------------------------------------------------------

  lemma SleeperMustWait(cfg: Config, s: State, f: nat)
    requires Inv(cfg, s) && f < |s.finds| && FinderSleeps(s.finds[f])
    ensures !s.failed && f < |cfg.queries|
    ensures PcOk(cfg, cfg.queries[f], s.finds[f]) && SleepOk(cfg, s.finds[f])
  {
    assert FindOk(cfg, cfg.queries[f], s.finds[f]);
  }

  lemma SleepsAgain(cfg: Config, q: Query, find: Find)
    requires PcOk(cfg, q, find) && SleepOk(cfg, find) && FinderSleeps(find) && find.owner == Unowned
    ensures var tests := FinderLocal(cfg, q, Notify(find));
            tests.pc.Holding? && FinderLocal(cfg, q, tests) == find && InsertCheck(cfg, q, tests)
  {
  }

  /** A sleeping finder may wake of its own accord at any time; all it does is
      test its condition and go back to sleep, and nothing has changed. */
  lemma FinderWakesInVain(cfg: Config, s: State, f: nat)
    requires Inv(cfg, s) && f < |s.finds| && FinderSleeps(s.finds[f]) && s.finds[f].owner == Unowned
    ensures After(cfg, s, [FinderSpurious(f), FinderAct(f), FinderAct(f)]) == Some(s)
  {
    SleeperMustWait(cfg, s, f);
    hide Inv;
    var q, find := cfg.queries[f], s.finds[f];
    var steps := [FinderSpurious(f), FinderAct(f), FinderAct(f)];
    var woken := s.(finds := s.finds[f := Notify(find)]);
    var tests := s.(finds := s.finds[f := FinderLocal(cfg, q, Notify(find))]);
    SleepsAgain(cfg, q, find);
    FinderWoken(cfg, s, f);
    FinderTests(cfg, s, f);
    hide FinderLocal, InsertCheck, Apply, Enabled;
    AfterStep(cfg, s, FinderSpurious(f), steps);
    AfterStep(cfg, woken, FinderAct(f), steps[1..]);
    AfterStep(cfg, tests, FinderAct(f), steps[2..]);
  }

  lemma FinderWoken(cfg: Config, s: State, f: nat)
    requires f < |s.finds| && f < |cfg.queries| && FinderSleeps(s.finds[f]) && s.finds[f].owner == Unowned && !s.failed
    ensures Enabled(cfg, s, FinderSpurious(f))
    ensures var woken := s.(finds := s.finds[f := Notify(s.finds[f])]);
            && Apply(cfg, s, FinderSpurious(f)) == woken && Enabled(cfg, woken, FinderAct(f))
            && Apply(cfg, woken, FinderAct(f)) ==
               s.(finds := s.finds[f := FinderLocal(cfg, cfg.queries[f], Notify(s.finds[f]))])
  {
    hide FinderLocal, InsertCheck;
  }

  lemma FinderTests(cfg: Config, s: State, f: nat)
    requires f < |s.finds| && f < |cfg.queries| && FinderSleeps(s.finds[f]) && !s.failed
    requires var tests := FinderLocal(cfg, cfg.queries[f], Notify(s.finds[f]));
             && tests.pc.Holding? && FinderLocal(cfg, cfg.queries[f], tests) == s.finds[f]
             && InsertCheck(cfg, cfg.queries[f], tests)
    ensures var tests := s.(finds := s.finds[f := FinderLocal(cfg, cfg.queries[f], Notify(s.finds[f]))]);
            Enabled(cfg, tests, FinderAct(f)) && Apply(cfg, tests, FinderAct(f)) == s
  {
    hide FinderLocal, InsertCheck;
    assert s.finds[f := s.finds[f]] == s.finds;
  }

  lemma QueueIsEmpty(cfg: Config, s: State, w: nat)
    requires Inv(cfg, s) && w < |s.workers| && s.workers[w] == Sleeping(false)
    ensures !s.failed && s.pool.work == [] && !s.pool.die
  {
    assert WorkerOk(cfg, s, s.workers[w]);
  }

  /** A worker with no work to do, at one of the places where it has none. */
  function IdleAt(s: State, w: nat, pc: WorkerPc): State
    requires w < |s.workers|
  {
    s.(workers := s.workers[w := pc],
       poolOwner := if pc.Resumed? || pc.Looking? then PoolByWorker(w) else PoolUnowned)
  }

  lemma IdleRound(cfg: Config, s: State, w: nat)
    requires !s.failed && s.pool.work == [] && !s.pool.die && w < |s.workers| && s.poolOwner == PoolUnowned
    requires s.workers[w] == Sleeping(false)
    ensures Enabled(cfg, s, WorkerSpurious(w)) && Apply(cfg, s, WorkerSpurious(w)) == IdleAt(s, w, Sleeping(true))
    ensures forall pc :: pc in {Sleeping(true), Resumed, Top, Looking} ==>
              Enabled(cfg, IdleAt(s, w, pc), WorkerAct(w))
    ensures Apply(cfg, IdleAt(s, w, Sleeping(true)), WorkerAct(w)) == IdleAt(s, w, Resumed)
    ensures Apply(cfg, IdleAt(s, w, Resumed), WorkerAct(w)) == IdleAt(s, w, Top)
    ensures Apply(cfg, IdleAt(s, w, Top), WorkerAct(w)) == IdleAt(s, w, Looking)
    ensures Apply(cfg, IdleAt(s, w, Looking), WorkerAct(w)) == s
  {
    assert s.popped + [] == s.popped && s.workers[w := Sleeping(false)] == s.workers;
  }

  /** So may a sleeping worker. */
  lemma WorkerWakesInVain(cfg: Config, s: State, w: nat)
    requires Inv(cfg, s) && w < |s.workers| && s.workers[w] == Sleeping(false) && s.poolOwner == PoolUnowned
    ensures After(cfg, s, [WorkerSpurious(w), WorkerAct(w), WorkerAct(w), WorkerAct(w), WorkerAct(w)]) == Some(s)
  {
    var steps := [WorkerSpurious(w), WorkerAct(w), WorkerAct(w), WorkerAct(w), WorkerAct(w)];
    QueueIsEmpty(cfg, s, w);
    IdleRound(cfg, s, w);
    hide Inv, Enabled, Apply, IdleAt;
    AfterStep(cfg, s, WorkerSpurious(w), steps);
    AfterStep(cfg, IdleAt(s, w, Sleeping(true)), WorkerAct(w), steps[1..]);
    AfterStep(cfg, IdleAt(s, w, Resumed), WorkerAct(w), steps[2..]);
    AfterStep(cfg, IdleAt(s, w, Top), WorkerAct(w), steps[3..]);
    AfterStep(cfg, IdleAt(s, w, Looking), WorkerAct(w), steps[4..]);
  }
}
