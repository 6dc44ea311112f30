/** What a find returns, in which order it finds it, and that nobody touches a
    find that has returned. */
module FindResults {
  import opened Seqs
  import opened Geo
  import opened PplCells
  import opened CriticalSections
  import opened FindProtocol
  import opened FindInvariant
  import opened FindSafety

  function Min(a: nat, b: nat): nat {
    if a < b then a else b
  }

  // ---- The result --------------------------------------------------------

  lemma PrefixCounts(order: seq<Cell>, n: nat)
    requires n <= |order|
    ensures multiset(order[..n]) <= multiset(order)
  {
    assert order == order[..n] + order[n..];
  }

  lemma NothingPending(cfg: Config, q: Query, find: Find)
    requires find.offered <= |q.order| && LedgerOk(cfg, q, find) && find.ctx.pending == {}
    ensures multiset(find.committed) <= multiset(q.order[..find.offered])
    ensures |find.ctx.ppl| >= cfg.maxPpl || multiset(find.committed) == multiset(q.order[..find.offered])
  {
    hide Gather;
  }

  /** A returned find has scanned everything, or found enough. */
  lemma ReturnedLedger(cfg: Config, q: Query, find: Find)
    requires PcOk(cfg, q, find) && LedgerOk(cfg, q, find) && find.pc.Returned?
    ensures multiset(find.committed) <= multiset(q.order)
    ensures |find.ctx.ppl| >= cfg.maxPpl || multiset(find.committed) == multiset(q.order)
    ensures find.ctx.ppl == Gather(q.matches, find.committed)
    ensures find.pc.result == Resize(find.ctx.ppl, cfg.maxPpl)
  {
    hide Gather, Resize;
    NothingPending(cfg, q, find);
    PrefixCounts(q.order, find.offered);
    if find.offered == |q.order| {
      assert q.order[..find.offered] == q.order;
    }
  }

  lemma ResizeIsPrefix(ppl: seq<Person>, maxPpl: nat)
    ensures Resize(ppl, maxPpl) == ppl[..Min(maxPpl, |ppl|)]
  {
  }

  lemma ResizePart(ppl: seq<Person>, maxPpl: nat)
    ensures multiset(Resize(ppl, maxPpl)) <= multiset(ppl)
    ensures |Resize(ppl, maxPpl)| == Min(maxPpl, |ppl|)
  {
    if |ppl| > maxPpl {
      assert ppl == ppl[..maxPpl] + ppl[maxPpl..];
    }
  }

  lemma SubmultisetSize(a: seq<Person>, b: seq<Person>)
    requires multiset(a) <= multiset(b)
    ensures |a| <= |b|
  {
    assert multiset(b) == multiset(a) + (multiset(b) - multiset(a));
    assert |a| == |multiset(a)| && |b| == |multiset(b)|;
  }

  /** Find f has returned this result. */
  ghost predicate Returns(cfg: Config, schedule: seq<Action>, f: nat, result: seq<Person>) {
    && Execute(cfg, schedule).Some?
    && f < |cfg.queries| && f < |Execute(cfg, schedule).value.finds|
    && Execute(cfg, schedule).value.finds[f].pc == Returned(result)
  }

  /** Whatever the schedule, a find returns people its cells hold, none of
      them too often, and as many as there are up to the maximum. */
  lemma FindReturnsMatches(cfg: Config, schedule: seq<Action>, f: nat, result: seq<Person>)
    requires ConfigOk(cfg) && Returns(cfg, schedule, f, result)
    ensures var all := Gather(cfg.queries[f].matches, cfg.queries[f].order);
            && multiset(result) <= multiset(all)
            && |result| == Min(cfg.maxPpl, |all|)
  {
    ReachableInv(cfg, schedule);
    var q, find := cfg.queries[f], Execute(cfg, schedule).value.finds[f];
    assert FindOk(cfg, q, find);
    hide Inv, Execute, PcOk, LedgerOk, AnswersOk, SleepOk, OrderOk;
    ReturnedLedger(cfg, q, find);
    GatherMonotone(q.matches, find.committed, q.order);
    SubmultisetSize(find.ctx.ppl, Gather(q.matches, q.order));
    ResizePart(find.ctx.ppl, cfg.maxPpl);
    if multiset(find.committed) == multiset(q.order) {
      GatherMonotone(q.matches, q.order, find.committed);
      SubmultisetSize(Gather(q.matches, q.order), find.ctx.ppl);
    }
  }

  // ---- The order in which people are found ---------------------------------

  /** Nearest first, up to the concurrency: whenever a cell is committed,
      fewer than that many cells offered before it are still missing, those
      that will be cancelled included. */
  lemma NearlyInOrder(cfg: Config, schedule: seq<Action>, f: nat, j: nat)
    requires ConfigOk(cfg) && Execute(cfg, schedule).Some? && f < |cfg.queries|
    requires f < |Execute(cfg, schedule).value.finds|
    requires j < |Execute(cfg, schedule).value.finds[f].committed|
    ensures var q, find := cfg.queries[f], Execute(cfg, schedule).value.finds[f];
            && find.committed[j] in q.order
            && |Overtaken(q.order, find.committed, j)| < cfg.concurrency
  {
    ReachableInv(cfg, schedule);
    var q, find := cfg.queries[f], Execute(cfg, schedule).value.finds[f];
    assert FindOk(cfg, q, find);
    assert find.committed[j] in multiset(find.committed);
    assert find.committed[j] in multiset(q.order[..find.offered]);
  }

  /** The part of a gathering in which its i-th person lies. */
  lemma {:induction false} GatheredAt(q: Query, cells: seq<Cell>, i: nat) returns (j: nat)
    requires i < |Gather(q.matches, cells)|
    ensures j < |cells| && Gather(q.matches, cells)[i] in Part(q.matches, cells[j])
    ensures Gather(q.matches, cells[..j]) <= Gather(q.matches, cells)[..i]
  {
    var n := |cells| - 1;
    var before := Gather(q.matches, cells[..n]);
    if i < |before| {
      j := GatheredAt(q, cells[..n], i);
      assert cells[..n][..j] == cells[..j];
      assert Gather(q.matches, cells)[..i] == before[..i];
    } else {
      j := n;
    }
  }

  /** The i-th person was found in cell c, after all matches of the cells
      offered before c but not late. */
  ghost predicate FoundAfter(q: Query, result: seq<Person>, i: nat, found: seq<Cell>, c: Cell, late: set<Cell>)
    requires i < |result|
  {
    && c in q.order && result[i] in Part(q.matches, c)
    && Distinct(found) && Gather(q.matches, found) <= result[..i]
    && forall b :: Precedes(q.order, b, c) && b !in late ==> b in found
  }

  lemma CommittedAfter(q: Query, committed: seq<Cell>, result: seq<Person>, i: nat)
    returns (found: seq<Cell>, c: Cell, late: set<Cell>, j: nat)
    requires Distinct(committed) && forall c :: c in committed ==> c in q.order
    requires result <= Gather(q.matches, committed) && i < |result|
    ensures FoundAfter(q, result, i, found, c, late)
    ensures j < |committed| && late == Overtaken(q.order, committed, j)
  {
    hide Gather, Overtaken, Part;
    j := GatheredAt(q, committed, i);
    assert result[..i] == Gather(q.matches, committed)[..i];
    found, c, late := committed[..j], committed[j], Overtaken(q.order, committed, j);
    forall b | Precedes(q.order, b, c) && b !in late
      ensures b in found
    {
      NotOvertaken(q.order, committed, j, b);
    }
  }

  lemma ReturnedAfter(cfg: Config, q: Query, find: Find, i: nat)
    returns (found: seq<Cell>, c: Cell, late: set<Cell>)
    requires QueryOk(q) && FindOk(cfg, q, find) && find.pc.Returned? && i < |find.pc.result|
    ensures FoundAfter(q, find.pc.result, i, found, c, late)
    ensures |late| < cfg.concurrency
  {
    assert find.offered <= |q.order|;
    hide PcOk, AnswersOk, SleepOk, LedgerOk, Gather, Overtaken, FoundAfter;
    ReturnedLedger(cfg, q, find);
    LedgerDistinct(cfg, q, find);
    var j;
    found, c, late, j := CommittedAfter(q, find.committed, find.pc.result, i);
  }

  /** The same for results: before anybody found in cell c come all matches
      of the cells offered before c, fewer than the concurrency of them
      excepted. */
  lemma FoundAfterEarlier(cfg: Config, schedule: seq<Action>, f: nat, result: seq<Person>, i: nat)
    returns (found: seq<Cell>, c: Cell, late: set<Cell>)
    requires ConfigOk(cfg) && Returns(cfg, schedule, f, result) && i < |result|
    ensures FoundAfter(cfg.queries[f], result, i, found, c, late)
    ensures |late| < cfg.concurrency
  {
    ReachableInv(cfg, schedule);
    var q, find := cfg.queries[f], Execute(cfg, schedule).value.finds[f];
    assert q in cfg.queries && FindOk(cfg, q, find);
    hide Inv, Execute, FindOk, QueryOk, FoundAfter;
    found, c, late := ReturnedAfter(cfg, q, find, i);
  }

  lemma NotOvertaken(order: seq<Cell>, committed: seq<Cell>, j: nat, b: Cell)
    requires j < |committed| && Precedes(order, b, committed[j]) && b !in Overtaken(order, committed, j)
    ensures b in committed[..j]
  {
  }

  lemma IsOvertaken(order: seq<Cell>, committed: seq<Cell>, j: nat, c: Cell)
    requires j < |committed| && c in order && Precedes(order, c, committed[j]) && c !in committed[..j]
    ensures Overtaken(order, committed, j) != {}
  {
    assert c in Overtaken(order, committed, j);
  }

  lemma NextInOrder(order: seq<Cell>, committed: seq<Cell>, n: nat, p: nat)
    requires Distinct(order) && Distinct(committed)
    requires n < |committed| && committed[..n] <= order
    requires p < |order| && order[p] == committed[n] && Overtaken(order, committed, n) == {}
    ensures p == n
  {
    assert forall i :: 0 <= i < n ==> order[i] == committed[..n][i] == committed[i];
    assert p >= n;
    assert order[n] !in committed[..n];
    if p > n {
      IsOvertaken(order, committed, n, order[n]);
    }
  }

  lemma {:induction false} NoneOvertaken(order: seq<Cell>, committed: seq<Cell>, n: nat)
    requires Distinct(order) && Distinct(committed) && n <= |committed|
    requires forall c :: c in committed ==> c in order
    requires forall j :: 0 <= j < |committed| ==> Overtaken(order, committed, j) == {}
    ensures committed[..n] <= order
  {
    if n > 0 {
      NoneOvertaken(order, committed, n - 1);
      assert committed[n - 1] in committed;
      var p :| 0 <= p < |order| && order[p] == committed[n - 1];
      NextInOrder(order, committed, n - 1, p);
    }
  }

  lemma RepeatCounts(cells: seq<Cell>, i: nat, j: nat)
    requires i < j < |cells| && cells[i] == cells[j]
    ensures multiset(cells)[cells[i]] >= 2
  {
    assert cells == cells[..j] + [cells[j]] + cells[j + 1..];
    assert cells[..j][i] == cells[j];
  }

  lemma LedgerDistinct(cfg: Config, q: Query, find: Find)
    requires Distinct(q.order) && find.offered <= |q.order| && LedgerOk(cfg, q, find)
    ensures Distinct(find.committed)
    ensures forall c :: c in find.committed ==> c in q.order
  {
    forall i, j | 0 <= i < j < |find.committed|
      ensures find.committed[i] != find.committed[j]
    {
      var c := find.committed[i];
      DistinctCounts(q.order[..find.offered], c);
      if find.committed[j] == c {
        RepeatCounts(find.committed, i, j);
      }
    }
    forall c | c in find.committed
      ensures c in q.order
    {
      assert c in multiset(find.committed);
      assert c in multiset(q.order[..find.offered]);
    }
  }

  lemma GatherPrefix(q: Query, part: seq<Cell>)
    requires part <= q.order
    ensures Gather(q.matches, part) <= Gather(q.matches, q.order)
  {
    assert q.order == part + q.order[|part|..];
    GatherSplit(q.matches, part, q.order[|part|..]);
  }

  /** With one cell at a time in flight, cells are committed exactly in the
      order in which they are offered. */
  lemma OneAtATimeInOrder(cfg: Config, q: Query, find: Find)
    requires QueryOk(q) && FindOk(cfg, q, find) && cfg.concurrency == 1
    ensures find.committed <= q.order
  {
    LedgerDistinct(cfg, q, find);
    assert find.committed[..|find.committed|] == find.committed;
    NoneOvertaken(q.order, find.committed, |find.committed|);
  }

  lemma OneAtATimeGathers(cfg: Config, q: Query, find: Find)
    requires QueryOk(q) && FindOk(cfg, q, find) && cfg.concurrency == 1 && find.pc.Returned?
    ensures find.pc.result == Resize(Gather(q.matches, q.order), cfg.maxPpl)
  {
    hide PcOk, LedgerOk, AnswersOk, SleepOk, OrderOk, QueryOk, Gather;
    OneAtATimeInOrder(cfg, q, find);
    ReturnedLedger(cfg, q, find);
    GatherPrefix(q, find.committed);
    if multiset(find.committed) == multiset(q.order) {
      assert |find.committed| == |multiset(find.committed)| == |q.order|;
      assert find.committed == q.order;
    }
  }

  /** ... and the result is the first so many matches of the whole sweep. */
  lemma OneAtATimeIsExact(cfg: Config, schedule: seq<Action>, f: nat, result: seq<Person>)
    requires ConfigOk(cfg) && cfg.concurrency == 1 && Returns(cfg, schedule, f, result)
    ensures var all := Gather(cfg.queries[f].matches, cfg.queries[f].order);
            result == all[..Min(cfg.maxPpl, |all|)]
  {
    ReachableInv(cfg, schedule);
    var q, find := cfg.queries[f], Execute(cfg, schedule).value.finds[f];
    assert q in cfg.queries && FindOk(cfg, q, find);
    hide Inv, Execute, FindOk, Gather, Resize;
    OneAtATimeGathers(cfg, q, find);
    ResizeIsPrefix(Gather(q.matches, q.order), cfg.maxPpl);
  }

  // ---- When to wait, and when to stop ----------------------------------------

  lemma SleeperIsFull(cfg: Config, q: Query, find: Find)
    requires FindOk(cfg, q, find) && find.pc == Waiting(AtOffer, false)
    ensures |find.ctx.pending| == cfg.concurrency && |find.ctx.ppl| < cfg.maxPpl && !find.ctx.done
  {
    hide AnswersOk, OrderOk, Gather;
  }

  /** A finder with a cell to offer sleeps only while all the concurrency it
      is allowed is in use, and it still wants people. */
  lemma WaitsOnlyWhenFull(cfg: Config, schedule: seq<Action>, f: nat)
    requires ConfigOk(cfg) && Execute(cfg, schedule).Some? && f < |Execute(cfg, schedule).value.finds|
    requires Execute(cfg, schedule).value.finds[f].pc == Waiting(AtOffer, false)
    ensures var ctx := Execute(cfg, schedule).value.finds[f].ctx;
            |ctx.pending| == cfg.concurrency && |ctx.ppl| < cfg.maxPpl && !ctx.done
  {
    ReachableInv(cfg, schedule);
    var s := Execute(cfg, schedule).value;
    assert FindOk(cfg, cfg.queries[f], s.finds[f]);
    hide Inv, Execute, FindOk;
    SleeperIsFull(cfg, cfg.queries[f], s.finds[f]);
  }

  lemma YesIsDrained(cfg: Config, q: Query, find: Find)
    requires FindOk(cfg, q, find) && find.next > 0 && find.answers[find.next - 1]
    ensures find.ctx.pending == {} && |find.ctx.ppl| >= cfg.maxPpl
  {
    hide OrderOk, SleepOk, Gather;
  }

  lemma NothingPendingNoJob(cfg: Config, s: State, f: nat, job: Job)
    requires Inv(cfg, s) && f < |s.finds| && s.finds[f].ctx.pending == {} && job in Jobs(s)
    ensures job.find != f
  {
    assert job.find < |s.finds| && Jobs(s)[job] > 0;
    hide Jobs;
    assert job.cell in Outstanding(s.finds[job.find]);
  }

  lemma YesIsLast(cfg: Config, q: Query, find: Find)
    requires AnswersOk(q, find) && true in find.answers
    ensures find.next > 0 && find.answers[find.next - 1]
  {
    var i :| 0 <= i < |find.answers| && find.answers[i];
    assert i == find.next - 1;
  }

  /** An offer is answered yes only when there are enough people, and nothing
      is pending, so that no worklette is left. */
  lemma YesMeansDrained(cfg: Config, schedule: seq<Action>, f: nat)
    requires ConfigOk(cfg) && Execute(cfg, schedule).Some? && f < |Execute(cfg, schedule).value.finds|
    requires true in Execute(cfg, schedule).value.finds[f].answers
    ensures var s := Execute(cfg, schedule).value;
            && s.finds[f].ctx.pending == {} && |s.finds[f].ctx.ppl| >= cfg.maxPpl
            && forall job :: job in Jobs(s) ==> job.find != f
  {
    ReachableInv(cfg, schedule);
    var s := Execute(cfg, schedule).value;
    var q, find := cfg.queries[f], s.finds[f];
    assert FindOk(cfg, q, find);
    hide Inv, Execute, Jobs, PcOk, AnswersOk, SleepOk, LedgerOk, OrderOk;
    YesIsLast(cfg, q, find);
    hide FindOk;
    YesIsDrained(cfg, q, find);
    forall job | job in Jobs(s)
      ensures job.find != f
    {
      NothingPendingNoJob(cfg, s, f, job);
    }
  }

  lemma EnoughStep(cfg: Config, s: State, a: Action, f: nat)
    requires Enabled(cfg, s, a) && f < |s.finds| && cfg.maxPpl <= |s.finds[f].ctx.ppl|
    ensures |Apply(cfg, s, a).finds| == |s.finds|
    ensures Apply(cfg, s, a).finds[f].offered == s.finds[f].offered
    ensures cfg.maxPpl <= |Apply(cfg, s, a).finds[f].ctx.ppl|
  {
    hide WorkerNextPc, NotifyWorkers, InsertCheck, EraseCheck;
  }

  /** Once there are enough people no further cell is inserted. */
  lemma {:induction false} OffersNoMoreOnceEnough(cfg: Config, before: seq<Action>, after: seq<Action>, f: nat)
    requires Execute(cfg, before).Some? && Execute(cfg, before + after).Some?
    requires f < |Execute(cfg, before).value.finds|
    requires cfg.maxPpl <= |Execute(cfg, before).value.finds[f].ctx.ppl|
    ensures var s, s' := Execute(cfg, before).value, Execute(cfg, before + after).value;
            && f < |s'.finds| && s'.finds[f].offered == s.finds[f].offered
            && cfg.maxPpl <= |s'.finds[f].ctx.ppl|
  {
    hide Execute, Apply, Enabled;
    if after == [] {
      assert before + after == before;
    } else {
      var init, a := after[..|after| - 1], after[|after| - 1];
      assert before + after == (before + init) + [a];
      ExecuteStep(cfg, before + init, a);
      OffersNoMoreOnceEnough(cfg, before, init, f);
      EnoughStep(cfg, Execute(cfg, before + init).value, a, f);
    }
  }

  lemma OverStep(cfg: Config, s: State, a: Action, f: nat, w: nat, job: Job)
    requires Enabled(cfg, s, a) && f < |s.finds| && s.finds[f].ctx.done && job.find == f
    ensures f < |Apply(cfg, s, a).finds| && Apply(cfg, s, a).finds[f].ctx.done
    ensures |Apply(cfg, s, a).workers| == |s.workers|
    ensures w < |s.workers| && Apply(cfg, s, a).workers[w] == Scanning(job) ==> s.workers[w] == Scanning(job)
  {
    hide InsertCheck, EraseCheck;
  }

  /** Once a find is over no worker starts to scan a cell for it: who scans
      then did so before. */
  lemma {:induction false} ScansNoMoreOnceOver(cfg: Config, before: seq<Action>, after: seq<Action>, w: nat, job: Job)
    requires Execute(cfg, before).Some? && Execute(cfg, before + after).Some?
    requires job.find < |Execute(cfg, before).value.finds|
    requires Execute(cfg, before).value.finds[job.find].ctx.done && w < |Execute(cfg, before).value.workers|
    ensures var s, s' := Execute(cfg, before).value, Execute(cfg, before + after).value;
            && job.find < |s'.finds| && s'.finds[job.find].ctx.done && w < |s'.workers|
            && (s'.workers[w] == Scanning(job) ==> s.workers[w] == Scanning(job))
  {
    hide Execute, Apply, Enabled;
    if after == [] {
      assert before + after == before;
    } else {
      var init, a := after[..|after| - 1], after[|after| - 1];
      assert before + after == (before + init) + [a];
      ExecuteStep(cfg, before + init, a);
      ScansNoMoreOnceOver(cfg, before, init, w, job);
      OverStep(cfg, Execute(cfg, before + init).value, a, job.find, w, job);
    }
  }

  // ---- After the return ----------------------------------------------------

  /** Once a find has returned, no queued job is for it, no worker is anywhere
      in code that uses its context, and nobody holds its mutex. */
  lemma NobodyOutlivesTheFind(cfg: Config, s: State, f: nat)
    requires Inv(cfg, s) && f < |s.finds| && s.finds[f].pc.Returned?
    ensures forall job :: job in s.pool.work ==> job.find != f
    ensures forall w :: 0 <= w < |s.workers| ==> Target(s.workers[w]) != Some(f)
    ensures s.finds[f].owner == Unowned
  {
    assert FindOk(cfg, cfg.queries[f], s.finds[f]);
    forall job | job in s.pool.work
      ensures job.find != f
    {
      assert job in Jobs(s);
    }
    forall w | 0 <= w < |s.workers|
      ensures Target(s.workers[w]) != Some(f)
    {
      NotTargeted(cfg, s, f, w);
    }
  }

  lemma ReturnedIsFree(cfg: Config, s: State, f: nat)
    requires FindsOk(cfg, s) && f < |s.finds| && s.finds[f].pc.Returned?
    ensures s.finds[f].owner == Unowned && Outstanding(s.finds[f]) == {}
  {
    assert FindOk(cfg, cfg.queries[f], s.finds[f]);
  }

  lemma ContextUnheld(s: State, f: nat, w: nat)
    requires ContextLocksOk(s) && f < |s.finds| && w < |s.workers| && s.finds[f].owner == Unowned
    ensures !WorkerHolds(s.workers[w], f)
  {
  }

  lemma NotTargeted(cfg: Config, s: State, f: nat, w: nat)
    requires Inv(cfg, s) && f < |s.finds| && s.finds[f].pc.Returned? && w < |s.workers|
    ensures Target(s.workers[w]) != Some(f)
  {
    ReturnedIsFree(cfg, s, f);
    ContextUnheld(s, f, w);
    hide Inv;
    match s.workers[w]
    case Started(job) => HeldJobOutstanding(cfg, s, w, job);
    case Deciding(job) => HeldJobOutstanding(cfg, s, w, job);
    case Scanning(job) => HeldJobOutstanding(cfg, s, w, job);
    case Scanned(job, _) => HeldJobOutstanding(cfg, s, w, job);
    case Appending(job, _) => HeldJobOutstanding(cfg, s, w, job);
    case _ =>
  }

  lemma UntargetedStays(cfg: Config, s: State, a: Action, f: nat)
    requires Enabled(cfg, s, a) && f < |s.finds| && s.finds[f].pc.Returned?
    requires a.WorkerAct? ==> Target(s.workers[a.w]) != Some(f)
    ensures |Apply(cfg, s, a).finds| == |s.finds| && Apply(cfg, s, a).finds[f] == s.finds[f]
  {
    hide FinderLocal, WorkerOnFind, WorkerNextPc, NotifyWorkers, EraseCheck, InsertCheck;
  }

  lemma ReturnedStays(cfg: Config, s: State, a: Action, f: nat)
    requires Inv(cfg, s) && Enabled(cfg, s, a) && f < |s.finds| && s.finds[f].pc.Returned?
    ensures |Apply(cfg, s, a).finds| == |s.finds| && Apply(cfg, s, a).finds[f] == s.finds[f]
  {
    if a.WorkerAct? {
      NotTargeted(cfg, s, f, a.w);
    }
    hide Inv, Apply;
    UntargetedStays(cfg, s, a, f);
  }

  /** Nothing that happens later changes a find that has returned. */
  lemma {:induction false} ReturnedForever(cfg: Config, before: seq<Action>, after: seq<Action>, f: nat)
    requires ConfigOk(cfg) && Execute(cfg, before).Some? && Execute(cfg, before + after).Some?
    requires f < |Execute(cfg, before).value.finds| && Execute(cfg, before).value.finds[f].pc.Returned?
    ensures f < |Execute(cfg, before + after).value.finds|
    ensures Execute(cfg, before + after).value.finds[f] == Execute(cfg, before).value.finds[f]
  {
    hide Inv, Execute, Apply, Enabled;
    if after == [] {
      assert before + after == before;
    } else {
      var init, a := after[..|after| - 1], after[|after| - 1];
      assert before + after == (before + init) + [a];
      ExecuteStep(cfg, before + init, a);
      ReturnedForever(cfg, before, init, f);
      ReachableInv(cfg, before + init);
      ReturnedStays(cfg, Execute(cfg, before + init).value, a, f);
    }
  }

  // ---- The pool ------------------------------------------------------------

  lemma {:induction false} CellsOfSplit(a: seq<Job>, b: seq<Job>, f: nat)
    ensures CellsOf(a + b, f) == CellsOf(a, f) + CellsOf(b, f)
  {
    if b == [] {
      assert a + b == a;
    } else {
      assert (a + b)[..|a + b| - 1] == a + b[..|b| - 1];
      CellsOfSplit(a, b[..|b| - 1], f);
    }
  }

  lemma {:induction false} CellsOfMember(jobs: seq<Job>, job: Job)
    requires job in jobs
    ensures job.cell in CellsOf(jobs, job.find)
  {
    var init, last := jobs[..|jobs| - 1], jobs[|jobs| - 1];
    assert jobs == init + [last];
    if job != last {
      CellsOfMember(init, job);
    }
  }

  /** If no find has a cell twice among the jobs, no job is there twice. */
  lemma {:induction false} JobsDistinct(jobs: seq<Job>)
    requires forall f: nat :: Distinct(CellsOf(jobs, f))
    ensures Distinct(jobs)
  {
    if jobs != [] {
      var init, last := jobs[..|jobs| - 1], jobs[|jobs| - 1];
      assert jobs == init + [last];
      forall f: nat
        ensures Distinct(CellsOf(init, f))
      {
        assert Distinct(CellsOf(jobs, f));
        InitDistinct(CellsOf(jobs, f), CellsOf(init, f));
      }
      JobsDistinct(init);
      assert Distinct(CellsOf(jobs, last.find));
      LastIsNew(CellsOf(init, last.find), last.cell);
      if last in init {
        CellsOfMember(init, last);
      }
    }
  }

  lemma InitDistinct(cells: seq<Cell>, init: seq<Cell>)
    requires Distinct(cells) && init <= cells
    ensures Distinct(init)
  {
    assert forall i :: 0 <= i < |init| ==> init[i] == cells[i];
  }

  lemma LastIsNew(init: seq<Cell>, last: Cell)
    requires Distinct(init + [last])
    ensures last !in init
  {
    assert forall i :: 0 <= i < |init| ==> (init + [last])[i] == init[i];
    assert (init + [last])[|init|] == last;
  }

  lemma HistoryIsFifo(cfg: Config, s: State, f: nat)
    requires HistoryOk(cfg, s) && f < |cfg.queries|
    ensures s.popped <= s.pushed && CellsOf(s.popped, f) <= cfg.queries[f].order
  {
    hide CellsOf, PushedCount;
    CellsOfSplit(s.popped, s.pool.work, f);
  }

  lemma {:induction false} NoStrangers(jobs: seq<Job>, f: nat)
    requires forall job :: job in jobs ==> job.find != f
    ensures CellsOf(jobs, f) == []
  {
    if jobs != [] {
      var init, last := jobs[..|jobs| - 1], jobs[|jobs| - 1];
      assert jobs == init + [last];
      assert last in jobs;
      NoStrangers(init, f);
    }
  }

  /** Jobs leave the queue in the order in which they entered it, those of
      one find in the order in which Sqiral offered their cells. */
  lemma PoolIsFifo(cfg: Config, schedule: seq<Action>, f: nat)
    requires ConfigOk(cfg) && Execute(cfg, schedule).Some? && f < |cfg.queries|
    ensures var s := Execute(cfg, schedule).value;
            && s.popped <= s.pushed
            && CellsOf(s.popped, f) <= cfg.queries[f].order
  {
    hide Execute, HistoryOk;
    ReachableInv(cfg, schedule);
    HistoryIsFifo(cfg, Execute(cfg, schedule).value, f);
  }

  lemma PushedKnown(cfg: Config, s: State, a: Action)
    requires Inv(cfg, s) && Enabled(cfg, s, a)
    requires forall job :: job in s.pushed ==> job.find < |cfg.queries|
    ensures forall job :: job in Apply(cfg, s, a).pushed ==> job.find < |cfg.queries|
  {
    hide Inv, FinderLocal, WorkerOnFind, WorkerNextPc, NotifyWorkers, EraseCheck, InsertCheck;
  }

  lemma {:induction false} PushedByFinds(cfg: Config, schedule: seq<Action>)
    requires ConfigOk(cfg) && Execute(cfg, schedule).Some?
    ensures forall job :: job in Execute(cfg, schedule).value.pushed ==> job.find < |cfg.queries|
  {
    if schedule != [] {
      hide Inv, Apply, Enabled;
      var init, a := ExecuteLast(cfg, schedule);
      hide Execute;
      PushedByFinds(cfg, init);
      ReachableInv(cfg, init);
      PushedKnown(cfg, Execute(cfg, init).value, a);
    }
  }

  /** No job is taken from the queue twice. */
  lemma EachJobPoppedOnce(cfg: Config, schedule: seq<Action>)
    requires ConfigOk(cfg) && Execute(cfg, schedule).Some?
    ensures Distinct(Execute(cfg, schedule).value.popped)
  {
    hide Execute, HistoryOk, CellsOf;
    var s := Execute(cfg, schedule).value;
    ReachableInv(cfg, schedule);
    PushedByFinds(cfg, schedule);
    hide Inv;
    forall f: nat
      ensures Distinct(CellsOf(s.popped, f))
    {
      if f < |cfg.queries| {
        PoolIsFifo(cfg, schedule, f);
        assert cfg.queries[f] in cfg.queries;
        InitDistinct(cfg.queries[f].order, CellsOf(s.popped, f));
      } else {
        PoppedArePushed(cfg, s);
        NoStrangers(s.popped, f);
      }
    }
    JobsDistinct(s.popped);
  }

  lemma PoppedArePushed(cfg: Config, s: State)
    requires Inv(cfg, s)
    ensures forall job :: job in s.popped ==> job in s.pushed
  {
  }

  lemma DeadPoolPopsNothing(cfg: Config, s: State, a: Action)
    requires Enabled(cfg, s, a) && s.pool.die
    ensures Apply(cfg, s, a).pool.die && Apply(cfg, s, a).popped == s.popped
  {
  }

  /** Once the pool has been told to die no worker takes a job. */
  lemma {:induction false} NothingPoppedAfterDeath(cfg: Config, before: seq<Action>, after: seq<Action>)
    requires Execute(cfg, before).Some? && Execute(cfg, before + after).Some?
    requires Execute(cfg, before).value.pool.die
    ensures Execute(cfg, before + after).value.pool.die
    ensures Execute(cfg, before + after).value.popped == Execute(cfg, before).value.popped
  {
    hide Execute, Apply, Enabled;
    if after == [] {
      assert before + after == before;
    } else {
      var init, a := after[..|after| - 1], after[|after| - 1];
      assert before + after == (before + init) + [a];
      ExecuteStep(cfg, before + init, a);
      NothingPoppedAfterDeath(cfg, before, init);
      DeadPoolPopsNothing(cfg, Execute(cfg, before + init).value, a);
    }
  }
}
