/** Any number of finds, each driven by its own finder thread, sharing one
    pool of worker threads.  A step is what one thread does between two
    points at which others may interfere; a schedule is any list of steps. */
module FindProtocol {
  import opened Seqs
  import opened Geo
  import opened PplCells
  import opened CriticalSections

  /** One find: the cells Sqiral offers, in order, and what each holds. */
  datatype Query = Query(order: seq<Cell>, matches: map<Cell, seq<Person>>)

  datatype Config = Config(queries: seq<Query>, maxPpl: nat, concurrency: nat, workerCount: nat)

  /** The three waits on a context's condition variable. */
  datatype Site = AtOffer | AtDrain | AtFinal

  datatype FinderPc =
    | Offering                            // about to offer the next cell
    | Holding(site: Site)                 // has the mutex, tests the wait's predicate
    | Waiting(site: Site, notified: bool) // asleep, or woken but without the mutex
    | Enqueuing(cell: Cell)               // has the mutex, about to take the pool's
    | Pushing(cell: Cell)                 // has both mutexes
    | Leaving                             // has the mutex, about to answer Sqiral
    | Finishing                           // Sqiral is over
    | Returned(result: seq<Person>)

  datatype WorkerPc =
    | Top
    | Looking                             // has the pool's mutex
    | Sleeping(notified: bool)
    | Resumed                             // has the pool's mutex again
    | Started(job: Job)
    | Deciding(job: Job)                  // has the context's mutex
    | Scanning(job: Job)
    | Scanned(job: Job, mine: seq<Person>)
    | Appending(job: Job, mine: seq<Person>) // has the context's mutex
    | Unlocking(find: nat)                // has the context's mutex
    | Dead

  datatype Owner = Unowned | ByFinder | ByWorker(w: nat)

  datatype PoolOwner = PoolUnowned | PoolByFinder(f: nat) | PoolByWorker(w: nat)

  /** next counts the offers answered.  The last four fields are history: the
      answers, the number of cells inserted, the cells whose people were
      appended, and those dropped unscanned. */
  datatype Find = Find(pc: FinderPc, next: nat, ctx: Context, owner: Owner,
                       answers: seq<bool>, offered: nat, committed: seq<Cell>, cancelled: seq<Cell>)

  /** pushed and popped are history; failed says that a CHECK has failed. */
  datatype State = State(finds: seq<Find>, workers: seq<WorkerPc>, pool: Pool, poolOwner: PoolOwner,
                         pushed: seq<Job>, popped: seq<Job>, failed: bool)

  datatype Action =
    | FinderAct(f: nat)
    | WorkerAct(w: nat)
    | FinderSpurious(f: nat)
    | WorkerSpurious(w: nat)
    | Destroy

  // ---- Initial state -----------------------------------------------------

  function Resting(order: seq<Cell>, next: nat, done: bool): FinderPc {
    if done || next >= |order| then Finishing else Offering
  }

  function InitialFind(q: Query): Find {
    Find(Resting(q.order, 0, false), 0, EMPTY_CONTEXT, Unowned, [], 0, [], [])
  }

  function Initial(cfg: Config): State {
    State(seq(|cfg.queries|, i requires 0 <= i < |cfg.queries| => InitialFind(cfg.queries[i])),
          seq(cfg.workerCount, _ => Top), Pool([], false), PoolUnowned, [], [], false)
  }

  // ---- Notification ------------------------------------------------------

  function Notify(find: Find): Find {
    if find.pc.Waiting? then find.(pc := Waiting(find.pc.site, true)) else find
  }

  predicate FinderSleeps(find: Find) {
    find.pc.Waiting? && !find.pc.notified
  }

  function NotifyWorker(pc: WorkerPc): WorkerPc {
    if pc.Sleeping? then Sleeping(true) else pc
  }

  /** No worker is left asleep, and none that was awake is disturbed. */
  function NotifyWorkers(workers: seq<WorkerPc>): (woken: seq<WorkerPc>)
    ensures |woken| == |workers| && Sleeping(false) !in woken
    ensures forall w :: 0 <= w < |workers| && woken[w] != workers[w] ==>
              workers[w] == Sleeping(false) && woken[w] == Sleeping(true)
  {
    seq(|workers|, w requires 0 <= w < |workers| => NotifyWorker(workers[w]))
  }

  // ---- Finder steps ------------------------------------------------------

  predicate FinderEnabled(s: State, f: nat) {
    && f < |s.finds|
    && var find := s.finds[f];
       match find.pc
       case Offering | Finishing => find.owner == Unowned
       case Waiting(_, notified) => notified && find.owner == Unowned
       case Enqueuing(_) => s.poolOwner == PoolUnowned
       case Returned(_) => false
       case _ => true
  }

  function FinderLocal(cfg: Config, q: Query, find: Find): Find {
    match find.pc
    case Offering => find.(pc := Holding(AtOffer), owner := ByFinder)
    case Finishing => find.(pc := Holding(AtFinal), owner := ByFinder)
    case Waiting(site, _) => find.(pc := Holding(site), owner := ByFinder)
    case Holding(AtOffer) =>
      if find.next >= |q.order| then find
      else
        var cell := q.order[find.next];
        var outcome := WakeForOffer(find.ctx, cfg.maxPpl, cfg.concurrency);
        var find' := find.(ctx := AfterOffer(find.ctx, cell, outcome));
        (match outcome
         case MustWait => find'.(pc := Waiting(AtOffer, false), owner := Unowned)
         case MustDrain => find'.(pc := Holding(AtDrain))
         case MustEnqueue => find'.(pc := Enqueuing(cell), offered := find.offered + 1)
         case AlreadyDone => find'.(pc := Leaving))
    case Holding(AtDrain) =>
      if find.ctx.pending == {} then find.(pc := Leaving)
      else find.(pc := Waiting(AtDrain, false), owner := Unowned)
    case Holding(AtFinal) =>
      if find.ctx.pending == {} then find.(pc := Returned(Resize(find.ctx.ppl, cfg.maxPpl)), owner := Unowned)
      else find.(pc := Waiting(AtFinal, false), owner := Unowned)
    case Enqueuing(cell) => find.(pc := Pushing(cell))
    case Pushing(_) => find.(pc := Leaving)
    case Leaving =>
      find.(pc := Resting(q.order, find.next + 1, find.ctx.done), next := find.next + 1,
            answers := find.answers + [find.ctx.done], owner := Unowned)
    case Returned(_) => find
  }

  /** The insertion's CHECK. */
  predicate InsertCheck(cfg: Config, q: Query, find: Find) {
    find.pc == Holding(AtOffer) && find.next < |q.order|
      && WakeForOffer(find.ctx, cfg.maxPpl, cfg.concurrency) == MustEnqueue
    ==> q.order[find.next] !in find.ctx.pending
  }

  function FinderApply(cfg: Config, s: State, f: nat): State
    requires f < |s.finds| && f < |cfg.queries|
  {
    var find := s.finds[f];
    var s' := s.(finds := s.finds[f := FinderLocal(cfg, cfg.queries[f], find)]);
    match find.pc
    case Holding(_) => s'.(failed := !InsertCheck(cfg, cfg.queries[f], find))
    case Enqueuing(_) => s'.(poolOwner := PoolByFinder(f))
    case Pushing(cell) =>
      s'.(pool := s.pool.(work := s.pool.work + [Job(f, cell)]), pushed := s.pushed + [Job(f, cell)],
          workers := NotifyWorkers(s.workers), poolOwner := PoolUnowned)
    case _ => s'
  }

  // ---- Worker steps ------------------------------------------------------

  /** The find whose context a worker's next step works on. */
  function Target(pc: WorkerPc): Option<nat> {
    match pc
    case Started(job) => Some(job.find)
    case Deciding(job) => Some(job.find)
    case Scanning(job) => Some(job.find)
    case Scanned(job, _) => Some(job.find)
    case Appending(job, _) => Some(job.find)
    case Unlocking(f) => Some(f)
    case _ => None
  }

  predicate WorkerEnabled(cfg: Config, s: State, w: nat) {
    && w < |s.workers|
    && var pc := s.workers[w];
       && (Target(pc).Some? ==> Target(pc).value < |s.finds| && Target(pc).value < |cfg.queries|)
       && match pc
          case Top => s.poolOwner == PoolUnowned
          case Sleeping(notified) => notified && s.poolOwner == PoolUnowned
          case Started(job) => s.finds[job.find].owner == Unowned
          case Scanning(job) => job.cell in cfg.queries[job.find].matches
          case Scanned(job, _) => s.finds[job.find].owner == Unowned
          case Dead => false
          case _ => true
  }

  function CancelCell(find: Find, cell: Cell): Find {
    Notify(find.(ctx := Cancel(find.ctx, cell), cancelled := find.cancelled + [cell]))
  }

  function CommitCell(find: Find, cell: Cell, mine: seq<Person>): Find {
    Notify(find.(ctx := Commit(find.ctx, cell, mine), committed := find.committed + [cell]))
  }

  function WorkerOnFind(w: nat, pc: WorkerPc, find: Find): Find {
    match pc
    case Started(_) => find.(owner := ByWorker(w))
    case Deciding(job) => if find.ctx.done then CancelCell(find, job.cell) else find.(owner := Unowned)
    case Scanned(_, _) => find.(owner := ByWorker(w))
    case Appending(job, mine) => CommitCell(find, job.cell, mine)
    case Unlocking(_) => find.(owner := Unowned)
    case _ => find
  }

  function AfterTaskPc(task: Task): WorkerPc {
    match task
    case Quit => Dead
    case Sleep => Sleeping(false)
    case Retry => Top
    case Run(job) => Started(job)
  }

  function WorkerNextPc(cfg: Config, s: State, w: nat): WorkerPc
    requires WorkerEnabled(cfg, s, w)
  {
    match s.workers[w]
    case Top => Looking
    case Looking => AfterTaskPc(LookForWork(s.pool))
    case Sleeping(_) => Resumed
    case Resumed => AfterTaskPc(ResumeWork(s.pool))
    case Started(job) => Deciding(job)
    case Deciding(job) => if s.finds[job.find].ctx.done then Unlocking(job.find) else Scanning(job)
    case Scanning(job) => Scanned(job, cfg.queries[job.find].matches[job.cell])
    case Scanned(job, mine) => Appending(job, mine)
    case Appending(job, _) => Unlocking(job.find)
    case Unlocking(_) => Top
    case Dead => Dead
  }

  /** The CHECK that a finished cell was pending. */
  predicate EraseCheck(pc: WorkerPc, find: Find) {
    match pc
    case Deciding(job) => find.ctx.done ==> job.cell in find.ctx.pending
    case Appending(job, _) => job.cell in find.ctx.pending
    case _ => true
  }

  function TakeTask(s: State, task: Task): State {
    s.(pool := AfterTask(s.pool, task), poolOwner := PoolUnowned,
       popped := s.popped + if task.Run? then [task.job] else [])
  }

  function WorkerApply(cfg: Config, s: State, w: nat): State
    requires WorkerEnabled(cfg, s, w)
  {
    var pc := s.workers[w];
    var s' := s.(workers := s.workers[w := WorkerNextPc(cfg, s, w)]);
    match pc
    case Top => s'.(poolOwner := PoolByWorker(w))
    case Sleeping(_) => s'.(poolOwner := PoolByWorker(w))
    case Looking => TakeTask(s', LookForWork(s.pool))
    case Resumed => TakeTask(s', ResumeWork(s.pool))
    case Dead => s'
    case _ =>
      var f := Target(pc).value;
      s'.(finds := s.finds[f := WorkerOnFind(w, pc, s.finds[f])], failed := !EraseCheck(pc, s.finds[f]))
  }

  // ---- All steps ---------------------------------------------------------

  predicate Enabled(cfg: Config, s: State, a: Action) {
    && !s.failed
    && match a
       case FinderAct(f) => f < |cfg.queries| && FinderEnabled(s, f)
       case WorkerAct(w) => WorkerEnabled(cfg, s, w)
       case FinderSpurious(f) => f < |s.finds| && s.finds[f].pc.Waiting? && !s.finds[f].pc.notified
       case WorkerSpurious(w) => w < |s.workers| && s.workers[w] == Sleeping(false)
       case Destroy => !s.pool.die && s.poolOwner == PoolUnowned
  }

  function Apply(cfg: Config, s: State, a: Action): State
    requires Enabled(cfg, s, a)
  {
    match a
    case FinderAct(f) => FinderApply(cfg, s, f)
    case WorkerAct(w) => WorkerApply(cfg, s, w)
    case FinderSpurious(f) => s.(finds := s.finds[f := Notify(s.finds[f])])
    case WorkerSpurious(w) => s.(workers := s.workers[w := Sleeping(true)])
    case Destroy => s.(pool := s.pool.(die := true), workers := NotifyWorkers(s.workers))
  }

  /** The state a schedule leads to, if every step of it can be taken. */
  function Execute(cfg: Config, schedule: seq<Action>): Option<State> {
    if schedule == [] then Some(Initial(cfg))
    else
      var before, a := Execute(cfg, schedule[..|schedule| - 1]), schedule[|schedule| - 1];
      if before.Some? && Enabled(cfg, before.value, a) then Some(Apply(cfg, before.value, a)) else None
  }

  lemma ExecuteNothing(cfg: Config)
    ensures Execute(cfg, []) == Some(Initial(cfg))
  {
  }

  lemma ExecuteStep(cfg: Config, schedule: seq<Action>, a: Action)
    ensures Execute(cfg, schedule + [a])
         == if Execute(cfg, schedule).Some? && Enabled(cfg, Execute(cfg, schedule).value, a)
            then Some(Apply(cfg, Execute(cfg, schedule).value, a)) else None
  {
    assert (schedule + [a])[..|schedule|] == schedule;
  }

  /** Splits the last step off a schedule. */
  lemma ExecuteLast(cfg: Config, schedule: seq<Action>) returns (init: seq<Action>, a: Action)
    requires schedule != [] && Execute(cfg, schedule).Some?
    ensures schedule == init + [a]
    ensures Execute(cfg, init).Some? && Enabled(cfg, Execute(cfg, init).value, a)
    ensures Execute(cfg, schedule).value == Apply(cfg, Execute(cfg, init).value, a)
  {
    init, a := schedule[..|schedule| - 1], schedule[|schedule| - 1];
    hide Apply, Enabled;
  }

  /** Where these steps lead from a state, if they can be taken. */
  function After(cfg: Config, s: State, steps: seq<Action>): Option<State>
    decreases |steps|
  {
    if steps == [] then Some(s)
    else if Enabled(cfg, s, steps[0]) then After(cfg, Apply(cfg, s, steps[0]), steps[1..])
    else None
  }

  lemma AfterStep(cfg: Config, s: State, a: Action, steps: seq<Action>)
    requires steps != [] && steps[0] == a && Enabled(cfg, s, a)
    ensures After(cfg, s, steps) == After(cfg, Apply(cfg, s, a), steps[1..])
  {
  }
}
