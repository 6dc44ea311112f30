/** Every schedule, however unfair, makes only a bounded number of steps that
    are not spurious wakeups; so every find comes to its end. */
module FindTermination {
  import opened Seqs
  import opened Geo
  import opened FindProtocol
  import opened FindInvariant
  import opened FindSafety

  // ---- Weights -----------------------------------------------------------

  function Remaining(q: Query, find: Find): nat {
    if find.next < |q.order| then |q.order| - find.next else 0
  }

  /** Work a finder still has to do, not counting what it repeats each time
      it is woken. */
  function FinderWork(q: Query, find: Find): nat {
    var left := 20 * Remaining(q, find);
    match find.pc
    case Offering => left + 19
    case Holding(AtOffer) => left + 18
    case Waiting(AtOffer, _) => left + 18
    case Enqueuing(_) => left + 17
    case Pushing(_) => left + 16
    case Holding(AtDrain) => left + 15
    case Waiting(AtDrain, _) => left + 15
    case Leaving => left + 5
    case Finishing => 6
    case Holding(AtFinal) => 5
    case Waiting(AtFinal, _) => 5
    case Returned(_) => 0
  }

  /** Steps a finder can take before it sleeps again. */
  function FinderRank(find: Find): nat {
    match find.pc
    case Waiting(_, notified) => if notified then 2 else 0
    case Holding(_) => 1
    case _ => 0
  }

  function WorkerWork(pc: WorkerPc): nat {
    match pc
    case Started(_) => 6
    case Deciding(_) => 5
    case Scanning(_) => 4
    case Scanned(_, _) => 3
    case Appending(_, _) => 2
    case Unlocking(_) => 1
    case _ => 0
  }

  function WorkerRank(pc: WorkerPc): nat {
    match pc
    case Sleeping(notified) => if notified then 5 else 0
    case Resumed => 4
    case Top => 3
    case Looking => 2
    case _ => 0
  }

  function FinderWorks(cfg: Config, s: State): seq<nat> {
    seq(|s.finds|, f requires 0 <= f < |s.finds| =>
      if f < |cfg.queries| then FinderWork(cfg.queries[f], s.finds[f]) else 0)
  }

  function WorkerWorks(s: State): seq<nat> {
    seq(|s.workers|, w requires 0 <= w < |s.workers| => WorkerWork(s.workers[w]))
  }

  function FinderRanks(s: State): seq<nat> {
    seq(|s.finds|, f requires 0 <= f < |s.finds| => FinderRank(s.finds[f]))
  }

  function WorkerRanks(s: State): seq<nat> {
    seq(|s.workers|, w requires 0 <= w < |s.workers| => WorkerRank(s.workers[w]))
  }

  /** All work left in the system. */
  function Work(cfg: Config, s: State): nat {
    Sum(FinderWorks(cfg, s)) + Sum(WorkerWorks(s)) + 7 * |s.pool.work| + if s.pool.die then 0 else 1
  }

  /** All steps possible before every thread without work sleeps. */
  function Rank(s: State): nat {
    Sum(FinderRanks(s)) + Sum(WorkerRanks(s))
  }

  function RankBound(cfg: Config): nat {
    2 * |cfg.queries| + 5 * cfg.workerCount
  }

  function Weigh(work: nat, bound: nat, rank: nat): nat {
    work * (bound + 1) + rank
  }

  /** Work counts for more than any rank. */
  function Measure(cfg: Config, s: State): nat {
    Weigh(Work(cfg, s), RankBound(cfg), Rank(s))
  }

  lemma RankBounded(cfg: Config, s: State)
    requires |s.finds| == |cfg.queries| && |s.workers| == cfg.workerCount
    ensures Rank(s) <= RankBound(cfg)
  {
    SumBound(FinderRanks(s), 2);
    SumBound(WorkerRanks(s), 5);
  }

  lemma WeighFalls(work: nat, work': nat, bound: nat, rank: nat, rank': nat)
    requires rank' <= bound
    requires work' < work || (work' == work && rank' < rank)
    ensures Weigh(work', bound, rank') < Weigh(work, bound, rank)
  {
    if work' < work {
      MulMonotone(work' + 1, work, bound + 1);
      assert (work' + 1) * (bound + 1) == work' * (bound + 1) + (bound + 1);
    }
  }

  /** Less work, or the same work and a lower rank. */
  ghost predicate Falls(cfg: Config, s: State, s': State) {
    Work(cfg, s') < Work(cfg, s) || (Work(cfg, s') == Work(cfg, s) && Rank(s') < Rank(s))
  }

  // ---- Finder steps ------------------------------------------------------

  /** What happens to one finder's weights. */
  lemma FinderWeighs(cfg: Config, q: Query, find: Find)
    requires PcOk(cfg, q, find) && !find.pc.Returned? && (find.pc.Waiting? ==> find.pc.notified)
    ensures var find' := FinderLocal(cfg, q, find);
            var extra := if find.pc.Pushing? then 7 else 0;
            || FinderWork(q, find') + extra < FinderWork(q, find)
            || (FinderWork(q, find') == FinderWork(q, find) && extra == 0 && FinderRank(find') < FinderRank(find))
  {
  }

  lemma FinderSums(cfg: Config, s: State, s': State, f: nat)
    requires f < |s.finds| == |cfg.queries| && |s'.finds| == |s.finds|
    requires forall g :: 0 <= g < |s.finds| && g != f ==>
               && FinderWork(cfg.queries[g], s'.finds[g]) == FinderWork(cfg.queries[g], s.finds[g])
               && FinderRank(s'.finds[g]) == FinderRank(s.finds[g])
    ensures Sum(FinderWorks(cfg, s')) + FinderWork(cfg.queries[f], s.finds[f])
         == Sum(FinderWorks(cfg, s)) + FinderWork(cfg.queries[f], s'.finds[f])
    ensures Sum(FinderRanks(s')) + FinderRank(s.finds[f]) == Sum(FinderRanks(s)) + FinderRank(s'.finds[f])
  {
    hide FinderWork, FinderRank;
    assert FinderWorks(cfg, s') == FinderWorks(cfg, s)[f := FinderWork(cfg.queries[f], s'.finds[f])];
    assert FinderRanks(s') == FinderRanks(s)[f := FinderRank(s'.finds[f])];
    SumUpdate(FinderWorks(cfg, s), f, FinderWork(cfg.queries[f], s'.finds[f]));
    SumUpdate(FinderRanks(s), f, FinderRank(s'.finds[f]));
  }

  lemma NotifyKeepsWork(s: State, s': State)
    requires s'.workers == NotifyWorkers(s.workers) || s'.workers == s.workers
    ensures WorkerWorks(s') == WorkerWorks(s)
  {
    assert forall w :: 0 <= w < |s.workers| ==> WorkerWork(s'.workers[w]) == WorkerWork(s.workers[w]);
  }

  lemma FinderFalls(cfg: Config, s: State, f: nat)
    requires Inv(cfg, s) && f < |s.finds| && FinderEnabled(s, f)
    ensures Falls(cfg, s, FinderApply(cfg, s, f))
  {
    var q, find, s' := cfg.queries[f], s.finds[f], FinderApply(cfg, s, f);
    assert FindOk(cfg, q, find);
    FinderWeighs(cfg, q, find);
    hide FinderLocal, FinderWork, FinderRank, Inv, FindOk, InsertCheck, NotifyWorkers;
    FinderSums(cfg, s, s', f);
    NotifyKeepsWork(s, s');
    assert !find.pc.Pushing? ==> WorkerRanks(s') == WorkerRanks(s);
  }

  // ---- Worker steps ------------------------------------------------------

  lemma WorkerSums(s: State, s': State, w: nat)
    requires w < |s.workers| && |s'.workers| == |s.workers|
    requires forall v :: 0 <= v < |s.workers| && v != w ==> s'.workers[v] == s.workers[v]
    ensures Sum(WorkerWorks(s')) + WorkerWork(s.workers[w]) == Sum(WorkerWorks(s)) + WorkerWork(s'.workers[w])
    ensures Sum(WorkerRanks(s')) + WorkerRank(s.workers[w]) == Sum(WorkerRanks(s)) + WorkerRank(s'.workers[w])
  {
    hide WorkerWork, WorkerRank;
    assert WorkerWorks(s') == WorkerWorks(s)[w := WorkerWork(s'.workers[w])];
    assert WorkerRanks(s') == WorkerRanks(s)[w := WorkerRank(s'.workers[w])];
    SumUpdate(WorkerWorks(s), w, WorkerWork(s'.workers[w]));
    SumUpdate(WorkerRanks(s), w, WorkerRank(s'.workers[w]));
  }

  lemma WorkerKeepsFinderWork(w: nat, pc: WorkerPc, q: Query, find: Find)
    ensures FinderWork(q, WorkerOnFind(w, pc, find)) == FinderWork(q, find)
  {
  }

  lemma WorkerKeepsFinderWorks(cfg: Config, s: State, w: nat)
    requires WorkerEnabled(cfg, s, w)
    ensures FinderWorks(cfg, WorkerApply(cfg, s, w)) == FinderWorks(cfg, s)
  {
    var pc := s.workers[w];
    if Target(pc).Some? {
      var f := Target(pc).value;
      WorkerKeepsFinderWork(w, pc, cfg.queries[f], s.finds[f]);
    }
    hide FinderWork, WorkerOnFind, EraseCheck, WorkerNextPc;
  }

  /** A worker's step either does some work, or leaves everybody else as they
      were and lowers the worker's rank. */
  lemma WorkerWeighs(cfg: Config, s: State, w: nat)
    requires WorkerEnabled(cfg, s, w)
    ensures var s', pc, pc' := WorkerApply(cfg, s, w), s.workers[w], WorkerNextPc(cfg, s, w);
            || WorkerWork(pc') + 7 * |s'.pool.work| < WorkerWork(pc) + 7 * |s.pool.work|
            || (WorkerWork(pc') == WorkerWork(pc) && |s'.pool.work| == |s.pool.work|
                && s'.finds == s.finds && WorkerRank(pc') < WorkerRank(pc))
  {
  }

  lemma WorkerFalls(cfg: Config, s: State, w: nat)
    requires WorkerEnabled(cfg, s, w)
    ensures Falls(cfg, s, WorkerApply(cfg, s, w))
  {
    var s' := WorkerApply(cfg, s, w);
    assert s'.workers == s.workers[w := WorkerNextPc(cfg, s, w)] && s'.pool.die == s.pool.die;
    WorkerWeighs(cfg, s, w);
    hide WorkerApply, WorkerEnabled, WorkerNextPc, WorkerWork, WorkerRank;
    WorkerSums(s, s', w);
    WorkerKeepsFinderWorks(cfg, s, w);
    assert s'.finds == s.finds ==> FinderRanks(s') == FinderRanks(s);
  }

  lemma DestroyFalls(cfg: Config, s: State)
    requires Enabled(cfg, s, Destroy)
    ensures Falls(cfg, s, Apply(cfg, s, Destroy))
  {
    var s' := Apply(cfg, s, Destroy);
    NotifyKeepsWork(s, s');
    assert FinderWorks(cfg, s') == FinderWorks(cfg, s);
  }

  // ---- Spurious wakeups ----------------------------------------------------

  lemma FinderSpuriousRises(cfg: Config, s: State, f: nat)
    requires |s.finds| == |cfg.queries| && Enabled(cfg, s, FinderSpurious(f))
    ensures var s' := Apply(cfg, s, FinderSpurious(f)); Work(cfg, s') == Work(cfg, s) && Rank(s') <= Rank(s) + 5
  {
    var s' := Apply(cfg, s, FinderSpurious(f));
    assert FinderWork(cfg.queries[f], Notify(s.finds[f])) == FinderWork(cfg.queries[f], s.finds[f]);
    assert FinderRank(Notify(s.finds[f])) <= FinderRank(s.finds[f]) + 2;
    hide FinderWork, FinderRank, Notify;
    FinderSums(cfg, s, s', f);
    assert WorkerWorks(s') == WorkerWorks(s) && WorkerRanks(s') == WorkerRanks(s);
  }

  lemma WorkerSpuriousRises(cfg: Config, s: State, w: nat)
    requires Enabled(cfg, s, WorkerSpurious(w))
    ensures var s' := Apply(cfg, s, WorkerSpurious(w)); Work(cfg, s') == Work(cfg, s) && Rank(s') <= Rank(s) + 5
  {
    var s' := Apply(cfg, s, WorkerSpurious(w));
    WorkerSums(s, s', w);
    assert FinderWorks(cfg, s') == FinderWorks(cfg, s) && FinderRanks(s') == FinderRanks(s);
  }

  /** A spurious wakeup can only make its own thread repeat a few steps. */
  lemma SpuriousRises(cfg: Config, s: State, a: Action)
    requires |s.finds| == |cfg.queries| && Enabled(cfg, s, a) && Spurious(a)
    ensures Work(cfg, Apply(cfg, s, a)) == Work(cfg, s) && Rank(Apply(cfg, s, a)) <= Rank(s) + 5
  {
    hide Apply, Enabled, Work, Rank;
    match a
    case FinderSpurious(f) => FinderSpuriousRises(cfg, s, f);
    case WorkerSpurious(w) => WorkerSpuriousRises(cfg, s, w);
  }

  predicate Spurious(a: Action) {
    a.FinderSpurious? || a.WorkerSpurious?
  }

  lemma StepFalls(cfg: Config, s: State, a: Action)
    requires Inv(cfg, s) && Enabled(cfg, s, a) && !Spurious(a)
    ensures Falls(cfg, s, Apply(cfg, s, a))
  {
    hide Falls, Inv;
    match a
    case FinderAct(f) =>
      assert f < |s.finds| && FinderEnabled(s, f);
      FinderFalls(cfg, s, f);
    case WorkerAct(w) => WorkerFalls(cfg, s, w);
    case Destroy => DestroyFalls(cfg, s);
  }

  lemma StepMeasure(cfg: Config, s: State, a: Action)
    requires ConfigOk(cfg) && Inv(cfg, s) && Enabled(cfg, s, a)
    ensures if Spurious(a) then Measure(cfg, Apply(cfg, s, a)) <= Measure(cfg, s) + 5
            else Measure(cfg, Apply(cfg, s, a)) < Measure(cfg, s)
  {
    var s' := Apply(cfg, s, a);
    StepKeepsInv(cfg, s, a);
    hide Apply, Work, Rank, JobsOk, FindOk, HistoryOk, ContextLocksOk, PoolLockOk, WorkerOk, Enabled;
    RankBounded(cfg, s');
    hide Inv;
    if Spurious(a) {
      SpuriousRises(cfg, s, a);
    } else {
      StepFalls(cfg, s, a);
      WeighFalls(Work(cfg, s), Work(cfg, s'), RankBound(cfg), Rank(s), Rank(s'));
    }
  }

  function SpuriousCount(schedule: seq<Action>): nat {
    if schedule == [] then 0
    else SpuriousCount(schedule[..|schedule| - 1]) + if Spurious(schedule[|schedule| - 1]) then 1 else 0
  }

  /** The theorem: a schedule's steps, spurious wakeups aside, are at most as
      many as the initial measure plus five for each spurious wakeup. */
  lemma {:induction false} BoundedSteps(cfg: Config, schedule: seq<Action>)
    requires ConfigOk(cfg) && Execute(cfg, schedule).Some?
    ensures |schedule| - SpuriousCount(schedule) + Measure(cfg, Execute(cfg, schedule).value)
         <= Measure(cfg, Initial(cfg)) + 5 * SpuriousCount(schedule)
  {
    if schedule != [] {
      hide Inv, Measure, Apply, Enabled;
      var init, a := ExecuteLast(cfg, schedule);
      hide Execute;
      BoundedSteps(cfg, init);
      ReachableInv(cfg, init);
      StepMeasure(cfg, Execute(cfg, init).value, a);
    }
  }

  /** What that comes to when no sweep has more than so many cells. */
  function MostSteps(cfg: Config, longest: nat): nat {
    var ranks := 2 * |cfg.queries| + 5 * cfg.workerCount;
    ((20 * longest + 19) * |cfg.queries| + 1) * (ranks + 1) + ranks
  }

  lemma InitialMeasureBound(cfg: Config, longest: nat)
    requires forall q :: q in cfg.queries ==> |q.order| <= longest
    ensures Measure(cfg, Initial(cfg)) <= MostSteps(cfg, longest)
  {
    var s := Initial(cfg);
    forall f | 0 <= f < |cfg.queries|
      ensures FinderWorks(cfg, s)[f] <= 20 * longest + 19
    {
      assert cfg.queries[f] in cfg.queries;
    }
    SumBound(FinderWorks(cfg, s), 20 * longest + 19);
    SumBound(WorkerWorks(s), 0);
    RankBounded(cfg, s);
    MulMonotone(Work(cfg, s), (20 * longest + 19) * |cfg.queries| + 1, RankBound(cfg) + 1);
  }

  /** In figures: polynomially many steps in the cells, the finds and the
      workers, and six more for each spurious wakeup. */
  lemma StepsInFigures(cfg: Config, schedule: seq<Action>, longest: nat)
    requires ConfigOk(cfg) && Execute(cfg, schedule).Some?
    requires forall q :: q in cfg.queries ==> |q.order| <= longest
    ensures |schedule| <= MostSteps(cfg, longest) + 6 * SpuriousCount(schedule)
  {
    hide Measure, MostSteps, Execute, SpuriousCount;
    BoundedSteps(cfg, schedule);
    InitialMeasureBound(cfg, longest);
  }
}
