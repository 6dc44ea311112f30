/** What holds in every state that any schedule can reach. */
module FindInvariant {
  import opened Seqs
  import opened Geo
  import opened CriticalSections
  import opened FindProtocol

  ghost predicate ConfigOk(cfg: Config) {
    && cfg.maxPpl > 0
    && forall q :: q in cfg.queries ==> QueryOk(q)
  }

  ghost predicate QueryOk(q: Query) {
    && Distinct(q.order)
    && forall c :: c in q.order ==> c in q.matches
  }

  // ---- One find ----------------------------------------------------------

  /** Where the finder is, against how far it has got. */
  ghost predicate PcOk(cfg: Config, q: Query, find: Find) {
    && find.offered <= |q.order|
    && match find.pc
       case Offering => !find.ctx.done && find.offered == find.next < |q.order|
       case Enqueuing(c) => BetweenOffers(q, find, c)
       case Pushing(c) => BetweenOffers(q, find, c)
       case Leaving =>
         && find.next < |q.order| && find.offered == (if find.ctx.done then find.next else find.next + 1)
         && Drained(find)
       case Finishing => (find.ctx.done || find.offered == |q.order|) && Drained(find)
       case Returned(result) =>
         && (find.ctx.done || find.offered == |q.order|)
         && find.ctx.pending == {} && find.owner == Unowned && result == Resize(find.ctx.ppl, cfg.maxPpl)
       case Holding(site) => SiteOk(q, find, site)
       case Waiting(site, _) => SiteOk(q, find, site)
  }

  /** A find that is over early has nothing pending any more. */
  predicate Drained(find: Find) {
    find.ctx.done ==> find.ctx.pending == {}
  }

  /** Cell c has been inserted, and the offer of it is not yet answered. */
  ghost predicate BetweenOffers(q: Query, find: Find, c: Cell)
    requires find.offered <= |q.order|
  {
    !find.ctx.done && find.offered == find.next + 1 && c == q.order[find.next] && c in find.ctx.pending
  }

  ghost predicate SiteOk(q: Query, find: Find, site: Site) {
    match site
    case AtOffer => !find.ctx.done && find.offered == find.next < |q.order|
    case AtDrain => find.ctx.done && find.offered == find.next < |q.order|
    case AtFinal => (find.ctx.done || find.offered == |q.order|) && Drained(find)
  }

  /** No lost wakeup: a finder that sleeps unnotified still has to. */
  ghost predicate SleepOk(cfg: Config, find: Find) {
    find.pc.Waiting? && !find.pc.notified ==>
      if find.pc.site == AtOffer
      then WakeForOffer(find.ctx, cfg.maxPpl, cfg.concurrency) == MustWait
      else find.ctx.pending != {}
  }

  predicate Precedes(order: seq<Cell>, c: Cell, d: Cell) {
    exists i, j :: 0 <= i < j < |order| && order[i] == c && order[j] == d
  }

  /** The cells offered before the j-th committed one but not yet committed
      when it was: still pending, or to be cancelled. */
  function Overtaken(order: seq<Cell>, committed: seq<Cell>, j: nat): set<Cell>
    requires j < |committed|
  {
    set c | c in order && Precedes(order, c, committed[j]) && c !in committed[..j]
  }

  /** Every cell inserted is pending, committed or cancelled; never two of
      these, and never twice. */
  ghost predicate LedgerOk(cfg: Config, q: Query, find: Find)
    requires find.offered <= |q.order|
  {
    && multiset(q.order[..find.offered])
       == multiset(find.committed) + multiset(find.cancelled) + multiset(find.ctx.pending)
    && find.ctx.ppl == Gather(q.matches, find.committed)
    && (find.ctx.done ==> |find.ctx.ppl| >= cfg.maxPpl)
    && (find.cancelled != [] ==> find.ctx.done)
    && |find.ctx.pending| + |find.cancelled| <= cfg.concurrency
  }

  ghost predicate OrderOk(cfg: Config, q: Query, find: Find) {
    forall j :: 0 <= j < |find.committed| ==> |Overtaken(q.order, find.committed, j)| < cfg.concurrency
  }

  predicate Sweeping(pc: FinderPc) {
    match pc
    case Finishing => false
    case Holding(site) => site != AtFinal
    case Waiting(site, _) => site != AtFinal
    case Returned(_) => false
    case _ => true
  }

  /** The finder offers cells in order, and stops at the first yes. */
  ghost predicate AnswersOk(q: Query, find: Find) {
    && |find.answers| == find.next <= |q.order|
    && (forall i :: 0 <= i < find.next - 1 ==> !find.answers[i])
    && (find.next > 0 ==> find.answers[find.next - 1] == (!Sweeping(find.pc) && find.ctx.done))
    && (!Sweeping(find.pc) ==> find.next == |q.order| || (find.next > 0 && find.ctx.done))
  }

  ghost predicate FindOk(cfg: Config, q: Query, find: Find) {
    && PcOk(cfg, q, find)
    && AnswersOk(q, find)
    && SleepOk(cfg, find)
    && LedgerOk(cfg, q, find)
    && OrderOk(cfg, q, find)
  }

  ghost predicate FindsOk(cfg: Config, s: State) {
    && |s.finds| == |cfg.queries|
    && forall f :: 0 <= f < |s.finds| ==> FindOk(cfg, cfg.queries[f], s.finds[f])
  }

  // ---- Jobs --------------------------------------------------------------

  function JobOf(pc: WorkerPc): multiset<Job> {
    match pc
    case Started(job) => multiset{job}
    case Deciding(job) => multiset{job}
    case Scanning(job) => multiset{job}
    case Scanned(job, _) => multiset{job}
    case Appending(job, _) => multiset{job}
    case _ => multiset{}
  }

  function Held(workers: seq<WorkerPc>): multiset<Job> {
    if workers == [] then multiset{}
    else Held(workers[..|workers| - 1]) + JobOf(workers[|workers| - 1])
  }

  /** Every worklette there is, queued or in a worker's hands. */
  function Jobs(s: State): multiset<Job> {
    multiset(s.pool.work) + Held(s.workers)
  }

  /** The pending cells whose worklette has reached the queue. */
  function Outstanding(find: Find): set<Cell> {
    match find.pc
    case Enqueuing(cell) => find.ctx.pending - {cell}
    case Pushing(cell) => find.ctx.pending - {cell}
    case _ => find.ctx.pending
  }

  ghost predicate JobsOk(s: State) {
    && (forall job :: job in Jobs(s) ==> job.find < |s.finds|)
    && forall job: Job :: job.find < |s.finds| ==>
         Jobs(s)[job] == if job.cell in Outstanding(s.finds[job.find]) then 1 else 0
  }

  // ---- Mutexes -----------------------------------------------------------

  predicate FinderHolds(pc: FinderPc) {
    pc.Holding? || pc.Enqueuing? || pc.Pushing? || pc.Leaving?
  }

  predicate WorkerHolds(pc: WorkerPc, f: nat) {
    match pc
    case Deciding(job) => job.find == f
    case Appending(job, _) => job.find == f
    case Unlocking(g) => g == f
    case _ => false
  }

  ghost predicate ContextLocksOk(s: State) {
    && (forall f :: 0 <= f < |s.finds| ==> (s.finds[f].owner == ByFinder <==> FinderHolds(s.finds[f].pc)))
    && (forall f :: 0 <= f < |s.finds| && s.finds[f].owner.ByWorker? ==> s.finds[f].owner.w < |s.workers|)
    && forall f, w :: 0 <= f < |s.finds| && 0 <= w < |s.workers| ==>
         (s.finds[f].owner == ByWorker(w) <==> WorkerHolds(s.workers[w], f))
  }

  ghost predicate PoolLockOk(s: State) {
    && (s.poolOwner.PoolByFinder? ==> s.poolOwner.f < |s.finds|)
    && (s.poolOwner.PoolByWorker? ==> s.poolOwner.w < |s.workers|)
    && (forall f :: 0 <= f < |s.finds| ==> (s.poolOwner == PoolByFinder(f) <==> s.finds[f].pc.Pushing?))
    && forall w :: 0 <= w < |s.workers| ==>
         (s.poolOwner == PoolByWorker(w) <==> s.workers[w].Looking? || s.workers[w].Resumed?)
  }

  // ---- Workers -----------------------------------------------------------

  ghost predicate WorkerOk(cfg: Config, s: State, pc: WorkerPc) {
    && (Target(pc).Some? ==> Target(pc).value < |cfg.queries|)
    && match pc
       case Sleeping(notified) => notified || (s.pool.work == [] && !s.pool.die)
       case Dead => s.pool.die
       case Scanned(job, mine) =>
         var matches := cfg.queries[job.find].matches;
         job.cell in matches && mine == matches[job.cell]
       case Appending(job, mine) =>
         var matches := cfg.queries[job.find].matches;
         job.cell in matches && mine == matches[job.cell]
       case _ => true
  }

  ghost predicate WorkersOk(cfg: Config, s: State) {
    && |s.workers| == cfg.workerCount
    && forall w :: 0 <= w < |s.workers| ==> WorkerOk(cfg, s, s.workers[w])
  }

  // ---- The queue's history -----------------------------------------------

  /** The cells among the jobs that belong to find f. */
  function CellsOf(jobs: seq<Job>, f: nat): seq<Cell> {
    if jobs == [] then []
    else
      var init, last := CellsOf(jobs[..|jobs| - 1], f), jobs[|jobs| - 1];
      if last.find == f then init + [last.cell] else init
  }

  function PushedCount(find: Find): int {
    if find.pc.Enqueuing? || find.pc.Pushing? then find.offered - 1 else find.offered
  }

  ghost predicate HistoryOk(cfg: Config, s: State) {
    && s.pushed == s.popped + s.pool.work
    && |s.finds| == |cfg.queries|
    && forall f :: 0 <= f < |s.finds| ==>
         && 0 <= PushedCount(s.finds[f]) <= |cfg.queries[f].order|
         && CellsOf(s.pushed, f) == cfg.queries[f].order[..PushedCount(s.finds[f])]
  }

  ghost predicate Inv(cfg: Config, s: State) {
    && !s.failed
    && FindsOk(cfg, s)
    && JobsOk(s)
    && ContextLocksOk(s)
    && PoolLockOk(s)
    && WorkersOk(cfg, s)
    && HistoryOk(cfg, s)
  }

  // ---- Bookkeeping lemmas ------------------------------------------------

  lemma {:induction false} HeldUpdate(workers: seq<WorkerPc>, w: nat, pc: WorkerPc, job: Job)
    requires w < |workers|
    ensures Held(workers[w := pc])[job] + JobOf(workers[w])[job] == Held(workers)[job] + JobOf(pc)[job]
    ensures JobOf(workers[w])[job] <= Held(workers)[job]
  {
    hide JobOf;
    var n := |workers| - 1;
    if w == n {
      assert workers[w := pc][..n] == workers[..n];
    } else {
      HeldUpdate(workers[..n], w, pc, job);
      assert workers[w := pc][..n] == workers[..n][w := pc];
    }
  }

  lemma NothingFailed(cfg: Config, s: State)
    requires Inv(cfg, s)
    ensures !s.failed
  {
  }

  lemma NotifiedOneByOne(workers: seq<WorkerPc>)
    requires workers != []
    ensures var n := |workers| - 1;
            && NotifyWorkers(workers)[..n] == NotifyWorkers(workers[..n])
            && JobOf(NotifyWorkers(workers)[n]) == JobOf(workers[n])
  {
  }

  /** Waking the workers takes no job from anybody. */
  lemma {:induction false} HeldNotified(workers: seq<WorkerPc>)
    ensures Held(NotifyWorkers(workers)) == Held(workers)
  {
    hide NotifyWorkers, JobOf;
    if workers != [] {
      NotifiedOneByOne(workers);
      HeldNotified(workers[..|workers| - 1]);
    }
  }

  lemma {:induction false} HeldWitness(workers: seq<WorkerPc>, job: Job) returns (w: nat)
    requires job in Held(workers)
    ensures w < |workers| && JobOf(workers[w]) == multiset{job}
  {
    var n := |workers| - 1;
    if job in JobOf(workers[n]) {
      w := n;
    } else {
      w := HeldWitness(workers[..n], job);
    }
  }

  lemma SetRemoval(pending: set<Cell>, cell: Cell)
    requires cell in pending
    ensures multiset(pending - {cell}) + multiset{cell} == multiset(pending)
    ensures |pending - {cell}| == |pending| - 1
  {
  }

  // ---- Finder steps keep the invariant of their find -----------------------

  /** The insertion's CHECK holds, because no cell is offered twice. */
  lemma InsertChecked(cfg: Config, q: Query, find: Find)
    requires QueryOk(q) && FindOk(cfg, q, find)
    ensures InsertCheck(cfg, q, find)
  {
    if find.pc == Holding(AtOffer) {
      FreshCell(q, find);
    }
  }

  lemma FreshCell(q: Query, find: Find)
    requires Distinct(q.order) && find.offered < |q.order|
    requires multiset(q.order[..find.offered])
          == multiset(find.committed) + multiset(find.cancelled) + multiset(find.ctx.pending)
    ensures q.order[find.offered] !in find.ctx.pending
  {
    var cell := q.order[find.offered];
    assert cell !in q.order[..find.offered];
    assert multiset(q.order[..find.offered])[cell] == 0;
  }

  lemma EnqueueKeepsLedger(cfg: Config, q: Query, find: Find)
    requires Distinct(q.order) && find.pc == Holding(AtOffer)
    requires find.offered == find.next < |q.order| && LedgerOk(cfg, q, find)
    requires WakeForOffer(find.ctx, cfg.maxPpl, cfg.concurrency) == MustEnqueue
    ensures LedgerOk(cfg, q, FinderLocal(cfg, q, find))
  {
    hide Gather;
    var cell := q.order[find.next];
    FreshCell(q, find);
    assert q.order[..find.offered + 1] == q.order[..find.offered] + [cell];
    assert multiset(find.ctx.pending + {cell}) == multiset(find.ctx.pending) + multiset{cell};
  }

  lemma FinderKeepsAnswers(cfg: Config, q: Query, find: Find)
    requires PcOk(cfg, q, find) && AnswersOk(q, find)
    ensures AnswersOk(q, FinderLocal(cfg, q, find))
  {
  }

  lemma FinderKeepsLedger(cfg: Config, q: Query, find: Find)
    requires QueryOk(q) && FindOk(cfg, q, find)
    ensures FinderLocal(cfg, q, find).offered <= |q.order|
    ensures LedgerOk(cfg, q, FinderLocal(cfg, q, find)) && OrderOk(cfg, q, FinderLocal(cfg, q, find))
  {
    hide Gather, Overtaken, AnswersOk, SleepOk;
    if find.pc == Holding(AtOffer) && WakeForOffer(find.ctx, cfg.maxPpl, cfg.concurrency) == MustEnqueue {
      EnqueueKeepsLedger(cfg, q, find);
    }
  }

  lemma FinderKeepsPc(cfg: Config, q: Query, find: Find)
    requires cfg.maxPpl > 0 && PcOk(cfg, q, find) && AnswersOk(q, find)
    requires find.ctx.done ==> |find.ctx.ppl| >= cfg.maxPpl
    ensures PcOk(cfg, q, FinderLocal(cfg, q, find)) && SleepOk(cfg, FinderLocal(cfg, q, find))
  {
  }

  lemma FinderKeepsFind(cfg: Config, q: Query, find: Find)
    requires cfg.maxPpl > 0 && QueryOk(q) && FindOk(cfg, q, find)
    ensures FindOk(cfg, q, FinderLocal(cfg, q, find))
  {
    hide FinderLocal, PcOk, AnswersOk, OrderOk, SleepOk;
    FinderKeepsPc(cfg, q, find);
    FinderKeepsAnswers(cfg, q, find);
    FinderKeepsLedger(cfg, q, find);
  }

  // ---- Worker steps keep the invariant of the find they work on ------------

  lemma CancelKeepsFind(cfg: Config, q: Query, find: Find, cell: Cell)
    requires FindOk(cfg, q, find) && find.ctx.done && cell in Outstanding(find)
    ensures FindOk(cfg, q, CancelCell(find, cell))
  {
    hide Gather, Overtaken;
    SetRemoval(find.ctx.pending, cell);
    assert multiset(find.cancelled + [cell]) == multiset(find.cancelled) + multiset{cell};
  }

  lemma {:induction false} PositionIn(order: seq<Cell>, n: nat, c: Cell) returns (i: nat)
    requires n <= |order| && c in order[..n]
    ensures i < n && order[i] == c
  {
    i :| 0 <= i < n && order[..n][i] == c;
  }

  /** At most concurrency - 1 cells are overtaken by the one committed now. */
  lemma FewOvertaken(cfg: Config, q: Query, find: Find, cell: Cell)
    requires Distinct(q.order) && find.offered <= |q.order| && LedgerOk(cfg, q, find)
    requires cell in find.ctx.pending
    ensures |Overtaken(q.order, find.committed + [cell], |find.committed|)| < cfg.concurrency
  {
    var committed := find.committed + [cell];
    var overtaken := Overtaken(q.order, committed, |find.committed|);
    var loose := find.ctx.pending - {cell} + (set c | c in find.cancelled);
    assert committed[..|find.committed|] == find.committed;
    forall c | c in overtaken
      ensures c in loose
    {
      EarlierIsInserted(q, find, c, cell);
    }
    SubsetSize(overtaken, loose);
    CancelledSize(find.cancelled);
    SetRemoval(find.ctx.pending, cell);
  }

  lemma EarlierIsInserted(q: Query, find: Find, c: Cell, cell: Cell)
    requires Distinct(q.order) && find.offered <= |q.order|
    requires multiset(q.order[..find.offered])
          == multiset(find.committed) + multiset(find.cancelled) + multiset(find.ctx.pending)
    requires cell in find.ctx.pending && Precedes(q.order, c, cell)
    ensures c != cell && (c in find.committed || c in find.cancelled || c in find.ctx.pending)
  {
    assert cell in multiset(q.order[..find.offered]);
    var p := PositionIn(q.order, find.offered, cell);
    var i, j :| 0 <= i < j < |q.order| && q.order[i] == c && q.order[j] == cell;
    assert j == p;
    assert q.order[..find.offered][i] == c;
    assert c in multiset(q.order[..find.offered]);
  }

  lemma SubsetSize(a: set<Cell>, b: set<Cell>)
    requires a <= b
    ensures |a| <= |b|
  {
    assert b == a + (b - a);
  }

  lemma {:induction false} CancelledSize(cancelled: seq<Cell>)
    ensures |set c | c in cancelled| <= |cancelled|
  {
    if cancelled != [] {
      var init, last := cancelled[..|cancelled| - 1], cancelled[|cancelled| - 1];
      CancelledSize(init);
      assert cancelled == init + [last];
      assert (set c | c in cancelled) == (set c | c in init) + {last};
    }
  }

  lemma CommitKeepsOrder(cfg: Config, q: Query, find: Find, cell: Cell)
    requires Distinct(q.order) && find.offered <= |q.order| && LedgerOk(cfg, q, find) && OrderOk(cfg, q, find)
    requires cell in find.ctx.pending
    ensures forall j :: 0 <= j <= |find.committed| ==>
              |Overtaken(q.order, find.committed + [cell], j)| < cfg.concurrency
  {
    var committed := find.committed + [cell];
    forall j | 0 <= j <= |find.committed|
      ensures |Overtaken(q.order, committed, j)| < cfg.concurrency
    {
      if j < |find.committed| {
        assert committed[..j] == find.committed[..j];
        assert Overtaken(q.order, committed, j) == Overtaken(q.order, find.committed, j);
      } else {
        FewOvertaken(cfg, q, find, cell);
      }
    }
  }

  lemma NotifyKeepsFind(cfg: Config, q: Query, find: Find)
    requires FindOk(cfg, q, find)
    ensures FindOk(cfg, q, Notify(find))
  {
    NotifyKeepsPlace(cfg, q, find);
    hide PcOk, AnswersOk, SleepOk, Gather, Overtaken;
  }

  lemma NotifyKeepsPlace(cfg: Config, q: Query, find: Find)
    requires PcOk(cfg, q, find) && AnswersOk(q, find)
    ensures PcOk(cfg, q, Notify(find)) && AnswersOk(q, Notify(find)) && SleepOk(cfg, Notify(find))
  {
  }

  /** A commit as far as the finder's place goes, before it is notified. */
  lemma CommitKeepsPlace(cfg: Config, q: Query, find: Find, find': Find, cell: Cell)
    requires PcOk(cfg, q, find) && AnswersOk(q, find) && cell in Outstanding(find)
    requires find'.pc == find.pc && find'.next == find.next && find'.offered == find.offered
    requires find'.answers == find.answers && find'.owner == find.owner && find'.ctx.done == find.ctx.done
    requires find'.ctx.pending == find.ctx.pending - {cell}
    ensures PcOk(cfg, q, find') && AnswersOk(q, find')
    ensures PcOk(cfg, q, Notify(find')) && AnswersOk(q, Notify(find')) && SleepOk(cfg, Notify(find'))
  {
    assert PcOk(cfg, q, find') && AnswersOk(q, find');
    hide AnswersOk, PcOk, Outstanding;
    NotifyKeepsPlace(cfg, q, find');
  }

  lemma CommitKeepsLedger(cfg: Config, q: Query, find: Find, find': Find, cell: Cell)
    requires find.offered <= |q.order| && LedgerOk(cfg, q, find) && cell in find.ctx.pending && cell in q.matches
    requires find'.offered == find.offered && find'.cancelled == find.cancelled
    requires find'.ctx == Commit(find.ctx, cell, q.matches[cell]) && find'.committed == find.committed + [cell]
    ensures LedgerOk(cfg, q, find')
  {
    SetRemoval(find.ctx.pending, cell);
    assert find'.committed[..|find.committed|] == find.committed;
    assert multiset(find'.committed) == multiset(find.committed) + multiset{cell};
  }

  lemma CommitKeepsFind(cfg: Config, q: Query, find: Find, cell: Cell)
    requires QueryOk(q) && FindOk(cfg, q, find) && cell in Outstanding(find) && cell in q.matches
    ensures FindOk(cfg, q, CommitCell(find, cell, q.matches[cell]))
  {
    var find' := find.(ctx := Commit(find.ctx, cell, q.matches[cell]), committed := find.committed + [cell]);
    hide PcOk, AnswersOk, SleepOk, Gather, Overtaken;
    CommitKeepsPlace(cfg, q, find, find', cell);
    CommitKeepsLedger(cfg, q, find, find', cell);
    CommitKeepsOrder(cfg, q, find, cell);
    hide Outstanding, LedgerOk;
    LedgerFrame(cfg, q, find', Notify(find'));
  }

  lemma LedgerFrame(cfg: Config, q: Query, find: Find, find': Find)
    requires find.offered <= |q.order| && LedgerOk(cfg, q, find)
    requires find'.ctx == find.ctx && find'.offered == find.offered
    requires find'.committed == find.committed && find'.cancelled == find.cancelled
    ensures LedgerOk(cfg, q, find')
  {
  }
}
