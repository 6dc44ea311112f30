/** The objects behind the mutexes, driven along a schedule: running their
    methods where the schedule says goes through the states of the protocol. */
module FindMachine {
  import opened Seqs
  import opened CriticalSections
  import opened FindProtocol
  import opened FindInvariant
  import opened FindSafety
  import opened FindResults

  function SleepingWorkers(workers: seq<WorkerPc>): set<nat> {
    set w: nat | w < |workers| && workers[w] == Sleeping(false)
  }

  /** A context is as the protocol has it; once its find has returned, it
      holds the result. */
  ghost predicate ContextFollows(find: Find, context: FindContext)
    reads context
  {
    if find.pc.Returned? then context.ppl == find.pc.result
    else context.View() == find.ctx && (context.asleep <==> FinderSleeps(find))
  }

  ghost predicate PoolFollows(s: State, pool: NoddyWorkerPool)
    reads pool
  {
    pool.View() == s.pool && pool.asleep == SleepingWorkers(s.workers)
  }

  ghost predicate Follows(s: State, contexts: seq<FindContext>, pool: NoddyWorkerPool)
    reads contexts, pool
  {
    && |contexts| == |s.finds| && Distinct(contexts)
    && PoolFollows(s, pool)
    && forall f :: 0 <= f < |s.finds| ==> ContextFollows(s.finds[f], contexts[f])
  }

  /** What finder f does to its context, and whether the CHECK in it holds. */
  method FinderOnContext(cfg: Config, q: Query, find: Find, context: FindContext) returns (checked: bool)
    requires PcOk(cfg, q, find) && !find.pc.Returned? && ContextFollows(find, context)
    requires find.pc.Waiting? ==> find.pc.notified
    modifies context
    ensures ContextFollows(FinderLocal(cfg, q, find), context)
    ensures checked <==> InsertCheck(cfg, q, find)
  {
    checked := true;
    match find.pc
    case Holding(AtOffer) =>
      var outcome;
      outcome, checked := context.TryFindPpl(q.order[find.next], cfg.maxPpl, cfg.concurrency);
    case Holding(AtDrain) =>
      var drained := context.AwaitDrained();
    case Holding(AtFinal) =>
      var drained := context.AwaitDrained();
      if drained {
        var result := context.Collect(cfg.maxPpl);
      }
    case _ =>
  }

  /** What worker w does to the context of the find it works for. */
  method WorkerOnContext(w: nat, pc: WorkerPc, find: Find, context: FindContext) returns (checked: bool)
    requires !find.pc.Returned? && ContextFollows(find, context)
    modifies context
    ensures ContextFollows(WorkerOnFind(w, pc, find), context)
    ensures checked <==> EraseCheck(pc, find)
  {
    checked := true;
    match pc
    case Deciding(job) =>
      var done;
      done, checked := context.StartCell(job.cell);
    case Appending(job, mine) =>
      checked := context.FinishCell(job.cell, mine);
    case _ =>
  }

  // ---- One step --------------------------------------------------------------

  lemma SleepersWoken(workers: seq<WorkerPc>)
    ensures SleepingWorkers(NotifyWorkers(workers)) == {}
  {
  }

  lemma SleepersUpdate(workers: seq<WorkerPc>, w: nat, pc: WorkerPc)
    requires w < |workers|
    ensures SleepingWorkers(workers[w := pc])
         == SleepingWorkers(workers) - {w} + if pc == Sleeping(false) then {w} else {}
  {
  }

  method FinderStep(cfg: Config, s: State, f: nat, contexts: seq<FindContext>, pool: NoddyWorkerPool)
    returns (checked: bool)
    requires !s.failed && f < |s.finds| == |cfg.queries| && FinderEnabled(s, f) && Follows(s, contexts, pool)
    requires PcOk(cfg, cfg.queries[f], s.finds[f])
    modifies contexts[f], pool
    ensures Follows(FinderApply(cfg, s, f), contexts, pool)
    ensures checked <==> !FinderApply(cfg, s, f).failed
  {
    hide PcOk, FinderLocal, InsertCheck, NotifyWorkers, SleepingWorkers;
    var find := s.finds[f];
    SleepersWoken(s.workers);
    checked := FinderOnContext(cfg, cfg.queries[f], find, contexts[f]);
    if find.pc.Pushing? {
      pool.QueueWorklette(Job(f, find.pc.cell));
    }
    InsertChecks(cfg, cfg.queries[f], find);
  }

  lemma InsertChecks(cfg: Config, q: Query, find: Find)
    ensures !find.pc.Holding? ==> InsertCheck(cfg, q, find)
  {
  }

  method WorkerStep(cfg: Config, s: State, w: nat, contexts: seq<FindContext>, pool: NoddyWorkerPool)
    returns (checked: bool)
    requires !s.failed && WorkerEnabled(cfg, s, w) && Follows(s, contexts, pool)
    requires Target(s.workers[w]).Some? ==> !s.finds[Target(s.workers[w]).value].pc.Returned?
    modifies contexts, pool
    ensures Follows(WorkerApply(cfg, s, w), contexts, pool)
    ensures checked <==> !WorkerApply(cfg, s, w).failed
  {
    hide WorkerOnFind, EraseCheck, SleepingWorkers;
    var pc := s.workers[w];
    SleepersUpdate(s.workers, w, WorkerNextPc(cfg, s, w));
    NotAmongSleepers(s.workers, w);
    checked := true;
    if Target(pc).Some? {
      var f := Target(pc).value;
      checked := WorkerOnContext(w, pc, s.finds[f], contexts[f]);
    } else if pc.Looking? || pc.Resumed? {
      var task := pool.TakeWork(w, pc.Resumed?);
    }
  }

  lemma NotAmongSleepers(workers: seq<WorkerPc>, w: nat)
    requires w < |workers| && workers[w] != Sleeping(false)
    ensures w !in SleepingWorkers(workers)
  {
  }

  lemma FinderIsPlaced(cfg: Config, s: State, f: nat)
    requires Inv(cfg, s) && f < |s.finds|
    ensures |s.finds| == |cfg.queries| && PcOk(cfg, cfg.queries[f], s.finds[f])
  {
    assert FindOk(cfg, cfg.queries[f], s.finds[f]);
  }

  lemma TargetIsOut(cfg: Config, s: State, w: nat)
    requires Inv(cfg, s) && WorkerEnabled(cfg, s, w) && Target(s.workers[w]).Some?
    ensures !s.finds[Target(s.workers[w]).value].pc.Returned?
  {
    var f := Target(s.workers[w]).value;
    hide Inv;
    if s.finds[f].pc.Returned? {
      NotTargeted(cfg, s, f, w);
    }
  }

  /** One step of a schedule, run on the objects. */
  method Step(cfg: Config, s: State, a: Action, contexts: seq<FindContext>, pool: NoddyWorkerPool)
    returns (checked: bool)
    requires Inv(cfg, s) && Enabled(cfg, s, a) && Follows(s, contexts, pool)
    modifies contexts, pool
    ensures Follows(Apply(cfg, s, a), contexts, pool)
    ensures checked <==> !Apply(cfg, s, a).failed
  {
    hide Inv, FinderApply, WorkerApply, PcOk, NotifyWorkers, SleepingWorkers;
    checked := true;
    match a
    case FinderAct(f) =>
      FinderIsPlaced(cfg, s, f);
      checked := FinderStep(cfg, s, f, contexts, pool);
    case WorkerAct(w) =>
      if Target(s.workers[w]).Some? {
        TargetIsOut(cfg, s, w);
      }
      checked := WorkerStep(cfg, s, w, contexts, pool);
    case FinderSpurious(f) => contexts[f].NotifyAll();
    case WorkerSpurious(w) =>
      SleepersUpdate(s.workers, w, Sleeping(true));
      pool.WakeSpuriously(w);
    case Destroy =>
      SleepersWoken(s.workers);
      pool.Destroy();
  }

  // ---- A whole schedule --------------------------------------------------------

  lemma {:induction false} PrefixExecutes(cfg: Config, schedule: seq<Action>, n: nat)
    requires Execute(cfg, schedule).Some? && n <= |schedule|
    ensures Execute(cfg, schedule[..n]).Some?
  {
    if n == |schedule| {
      assert schedule[..n] == schedule;
    } else {
      hide Apply, Enabled;
      var init := schedule[..|schedule| - 1];
      PrefixExecutes(cfg, init, n);
      assert init[..n] == schedule[..n];
    }
  }

  method Start(cfg: Config) returns (contexts: seq<FindContext>, pool: NoddyWorkerPool)
    ensures Follows(Initial(cfg), contexts, pool)
    ensures fresh(contexts) && fresh(pool)
  {
    pool := new NoddyWorkerPool();
    contexts := [];
    while |contexts| < |cfg.queries|
      invariant |contexts| <= |cfg.queries| && fresh(contexts) && Distinct(contexts)
      invariant PoolFollows(Initial(cfg), pool)
      invariant forall f :: 0 <= f < |contexts| ==> contexts[f].View() == EMPTY_CONTEXT && !contexts[f].asleep
    {
      var context := new FindContext();
      contexts := contexts + [context];
    }
  }

  /** The objects go through the states of the schedule, and no CHECK in their
      methods fails on the way. */
  method Run(cfg: Config, schedule: seq<Action>) returns (contexts: seq<FindContext>, pool: NoddyWorkerPool)
    requires ConfigOk(cfg) && Execute(cfg, schedule).Some?
    ensures Follows(Execute(cfg, schedule).value, contexts, pool)
  {
    hide Inv, Execute, Apply, Enabled, Follows;
    contexts, pool := Start(cfg);
    var s, n := Initial(cfg), 0;
    ExecuteNothing(cfg);
    while n < |schedule|
      invariant 0 <= n <= |schedule| && fresh(contexts) && fresh(pool)
      invariant Execute(cfg, schedule[..n]) == Some(s) && Follows(s, contexts, pool)
    {
      PrefixExecutes(cfg, schedule, n + 1);
      assert schedule[..n + 1] == schedule[..n] + [schedule[n]];
      ExecuteStep(cfg, schedule[..n], schedule[n]);
      ReachableInv(cfg, schedule[..n]);
      var checked := Step(cfg, s, schedule[n], contexts, pool);
      s := Apply(cfg, s, schedule[n]);
      ReachableInv(cfg, schedule[..n + 1]);
      NothingFailed(cfg, s);
      assert checked;
      n := n + 1;
    }
    assert schedule[..n] == schedule;
  }
}
