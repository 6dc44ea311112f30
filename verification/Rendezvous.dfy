/** The prototype's rendezvous: the finder queues one worklette per nearby
    cell, waits at most a second, and then walks away from those unfinished.
    One mutex guards the counter and the pointer to the result, so a step is
    one critical section; time running out is a step of its own. */
module Rendezvous {
  import opened Seqs
  import opened PplCells

  /** The people in the user's own cell, and in each of the nearby cells; and
      how many worker threads there are. */
  datatype Search = Search(bullseye: seq<Person>, nearby: seq<seq<Person>>, workers: nat)

  /** pending is the counter as the finder found it on its way out. */
  datatype FinderPc =
    | Counting(i: nat)       // about to count worklette i
    | Queueing(i: nat)       // has counted it, about to queue it
    | Testing                // everything queued
    | Waiting(notified: bool) // asleep, or woken but without the mutex
    | Returned(result: seq<Person>, pending: int)

  /** A worklette's life; Done tells whether it handed in its people. */
  datatype Stage = Unqueued | Queued | Cleared | Searched | Done(handedIn: bool)

  /** pointed says that the orchestration still points at ppl; handedIn is
      history: the worklettes that appended to it, in order. */
  datatype State = State(pc: FinderPc, ppl: seq<Person>, pointed: bool, pendingOps: int,
                         stages: seq<Stage>, handedIn: seq<nat>)

  datatype Action = FinderAct | TimeOut | Spurious | WorkerAct(i: nat)

  function Next(search: Search, i: nat): FinderPc {
    if i < |search.nearby| then Counting(i) else Testing
  }

  /** Without nearby cells there is no orchestration and nothing to wait for. */
  function Initial(search: Search): State {
    State(if search.nearby == [] then Returned(search.bullseye, 0) else Next(search, 0),
          search.bullseye, search.nearby != [], 0, seq(|search.nearby|, _ => Unqueued), [])
  }

  function Return(s: State): State {
    s.(pc := Returned(s.ppl, s.pendingOps), pointed := false)
  }

  function Notify(pc: FinderPc): FinderPc {
    if pc.Waiting? then Waiting(true) else pc
  }

  function Busy(stage: Stage): nat {
    if stage.Cleared? || stage.Searched? then 1 else 0
  }

  function Busies(stages: seq<Stage>): seq<nat> {
    seq(|stages|, i requires 0 <= i < |stages| => Busy(stages[i]))
  }

  predicate Enabled(search: Search, s: State, a: Action) {
    match a
    case FinderAct => !s.pc.Returned? && s.pc != Waiting(false) && (s.pc.Queueing? ==> s.pc.i < |s.stages|)
    case TimeOut => s.pc.Waiting?
    case Spurious => s.pc == Waiting(false)
    case WorkerAct(i) =>
      && i < |s.stages| && i < |search.nearby| && !s.stages[i].Unqueued? && !s.stages[i].Done?
      && (s.stages[i].Queued? ==> Sum(Busies(s.stages)) < search.workers)
  }

  function FinderApply(search: Search, s: State): State {
    match s.pc
    case Counting(i) => s.(pendingOps := s.pendingOps + 1, pc := Queueing(i))
    case Queueing(i) =>
      if i < |s.stages| then s.(stages := s.stages[i := Queued], pc := Next(search, i + 1)) else s
    case Returned(_, _) => s
    case _ => if s.pendingOps != 0 then s.(pc := Waiting(false)) else Return(s)
  }

  function WorkerApply(search: Search, s: State, i: nat): State
    requires Enabled(search, s, WorkerAct(i))
  {
    if s.stages[i].Cleared? then s.(stages := s.stages[i := Searched])
    else if s.stages[i].Queued? && s.pointed then s.(stages := s.stages[i := Cleared])
    else
      var handIn := s.stages[i].Searched? && s.pointed;
      var s' := s.(stages := s.stages[i := Done(handIn)], pendingOps := s.pendingOps - 1, pc := Notify(s.pc));
      if handIn then s'.(ppl := s.ppl + search.nearby[i], handedIn := s.handedIn + [i]) else s'
  }

  function Apply(search: Search, s: State, a: Action): State
    requires Enabled(search, s, a)
  {
    match a
    case FinderAct => FinderApply(search, s)
    case TimeOut => Return(s)
    case Spurious => s.(pc := Notify(s.pc))
    case WorkerAct(i) => WorkerApply(search, s, i)
  }

  function Execute(search: Search, schedule: seq<Action>): Option<State> {
    if schedule == [] then Some(Initial(search))
    else
      var before, a := Execute(search, schedule[..|schedule| - 1]), schedule[|schedule| - 1];
      if before.Some? && Enabled(search, before.value, a) then Some(Apply(search, before.value, a)) else None
  }

  // ---- The invariant -------------------------------------------------------

  function Live(stage: Stage): nat {
    if stage.Unqueued? || stage.Done? then 0 else 1
  }

  function Lives(stages: seq<Stage>): seq<nat> {
    seq(|stages|, i requires 0 <= i < |stages| => Live(stages[i]))
  }

  /** Worklettes counted but not finished. */
  function Outstanding(s: State): nat {
    Sum(Lives(s.stages)) + if s.pc.Queueing? then 1 else 0
  }

  /** How many worklettes have been queued. */
  function QueuedSoFar(search: Search, pc: FinderPc): nat {
    match pc
    case Counting(i) => i
    case Queueing(i) => i
    case _ => |search.nearby|
  }

  function Nearby(search: Search): map<nat, seq<Person>> {
    map i: nat | i < |search.nearby| :: search.nearby[i]
  }

  ghost predicate StagesOk(search: Search, s: State) {
    && |s.stages| == |search.nearby|
    && ((s.pc.Counting? || s.pc.Queueing?) ==> s.pc.i < |search.nearby|)
    && forall i :: 0 <= i < |s.stages| ==> (s.stages[i].Unqueued? <==> QueuedSoFar(search, s.pc) <= i)
  }

  ghost predicate ResultOk(search: Search, s: State) {
    && s.ppl == search.bullseye + Gather(Nearby(search), s.handedIn)
    && Distinct(s.handedIn)
    && (forall i :: i in s.handedIn ==> i < |s.stages|)
    && forall i :: 0 <= i < |s.stages| ==> (i in s.handedIn <==> s.stages[i] == Done(true))
  }

  /** Nobody is left out while the pointer stands; once it is gone the result
      is what it was. */
  ghost predicate ReturnOk(s: State) {
    && (s.pointed <==> !s.pc.Returned?)
    && (s.pointed ==> forall i :: 0 <= i < |s.stages| ==> s.stages[i] != Done(false))
    && (s.pc.Returned? ==> s.pc.result == s.ppl)
    && (s.pc.Returned? && s.pc.pending == 0 ==> forall i :: 0 <= i < |s.stages| ==> s.stages[i] == Done(true))
  }

  /** Worklettes counted so far. */
  function CountedSoFar(search: Search, pc: FinderPc): nat {
    if pc.Queueing? then pc.i + 1 else QueuedSoFar(search, pc)
  }

  /** Every worklette counted is pending or has handed in. */
  ghost predicate TallyOk(search: Search, s: State) {
    (if s.pc.Returned? then s.pc.pending else s.pendingOps) + |s.handedIn| == CountedSoFar(search, s.pc)
  }

  /** No lost wakeup: a finder that sleeps unnotified still has to. */
  predicate SleepOk(s: State) {
    s.pc == Waiting(false) ==> s.pendingOps != 0
  }

  ghost predicate Inv(search: Search, s: State) {
    && s.pendingOps == Outstanding(s)
    && SleepOk(s)
    && StagesOk(search, s)
    && ResultOk(search, s)
    && ReturnOk(s)
    && TallyOk(search, s)
  }

  lemma StageUpdate(stages: seq<Stage>, i: nat, stage: Stage)
    requires i < |stages|
    ensures Sum(Lives(stages[i := stage])) + Live(stages[i]) == Sum(Lives(stages)) + Live(stage)
  {
    assert Lives(stages[i := stage]) == Lives(stages)[i := Live(stage)];
    SumUpdate(Lives(stages), i, Live(stage));
  }

  lemma {:induction false} NoneAlive(stages: seq<Stage>)
    requires Sum(Lives(stages)) == 0
    ensures forall i :: 0 <= i < |stages| ==> Live(stages[i]) == 0
  {
    forall i | 0 <= i < |stages|
      ensures Live(stages[i]) == 0
    {
      StageUpdate(stages, i, Unqueued);
    }
  }

  lemma {:induction false} NoneQueued(stages: seq<Stage>)
    requires forall i :: 0 <= i < |stages| ==> stages[i].Unqueued?
    ensures Sum(Lives(stages)) == 0
  {
    if stages != [] {
      var n := |stages| - 1;
      assert Lives(stages)[..n] == Lives(stages[..n]);
      NoneQueued(stages[..n]);
    }
  }

  lemma InitialInv(search: Search)
    ensures Inv(search, Initial(search))
  {
    NoneQueued(Initial(search).stages);
  }

  lemma ReturnKeepsInv(search: Search, s: State)
    requires Inv(search, s) && (s.pc.Testing? || s.pc.Waiting?)
    ensures Inv(search, Return(s))
  {
    if s.pendingOps == 0 {
      NoneAlive(s.stages);
    }
  }

  lemma QueueingKeepsInv(search: Search, s: State)
    requires Inv(search, s) && s.pc.Queueing?
    ensures Inv(search, Apply(search, s, FinderAct))
  {
    StageUpdate(s.stages, s.pc.i, Queued);
    hide Gather, Lives;
  }

  lemma FinderKeepsInv(search: Search, s: State)
    requires Inv(search, s) && Enabled(search, s, FinderAct)
    ensures Inv(search, Apply(search, s, FinderAct))
  {
    match s.pc
    case Queueing(_) => QueueingKeepsInv(search, s);
    case Counting(_) =>
    case _ =>
      if s.pendingOps == 0 {
        ReturnKeepsInv(search, s);
      }
  }

  lemma WorkerKeepsResult(search: Search, s: State, i: nat)
    requires StagesOk(search, s) && ResultOk(search, s) && Enabled(search, s, WorkerAct(i))
    ensures ResultOk(search, Apply(search, s, WorkerAct(i)))
  {
    hide Gather, Nearby;
    if s.stages[i].Searched? && s.pointed {
      assert i !in s.handedIn;
      GatherAppend(Nearby(search), s.handedIn, i);
      NearbyPart(search, i);
    }
  }

  lemma NearbyPart(search: Search, i: nat)
    requires i < |search.nearby|
    ensures Part(Nearby(search), i) == search.nearby[i]
  {
  }

  lemma WorkerKeepsSleep(search: Search, s: State, i: nat)
    requires SleepOk(s) && Enabled(search, s, WorkerAct(i))
    ensures SleepOk(Apply(search, s, WorkerAct(i)))
  {
  }

  lemma WorkerKeepsTally(search: Search, s: State, i: nat)
    requires ReturnOk(s) && TallyOk(search, s) && Enabled(search, s, WorkerAct(i))
    ensures TallyOk(search, Apply(search, s, WorkerAct(i)))
  {
  }

  lemma WorkerKeepsReturn(search: Search, s: State, i: nat)
    requires ReturnOk(s) && Enabled(search, s, WorkerAct(i))
    ensures ReturnOk(Apply(search, s, WorkerAct(i)))
  {
  }

  lemma WorkerKeepsCount(search: Search, s: State, i: nat)
    requires s.pendingOps == Outstanding(s) && StagesOk(search, s) && Enabled(search, s, WorkerAct(i))
    ensures var s' := Apply(search, s, WorkerAct(i)); s'.pendingOps == Outstanding(s') && StagesOk(search, s')
  {
    StageUpdate(s.stages, i, Apply(search, s, WorkerAct(i)).stages[i]);
    hide Lives;
  }

  lemma WorkerKeepsInv(search: Search, s: State, i: nat)
    requires Inv(search, s) && Enabled(search, s, WorkerAct(i))
    ensures Inv(search, Apply(search, s, WorkerAct(i)))
  {
    WorkerKeepsCount(search, s, i);
    WorkerKeepsResult(search, s, i);
    WorkerKeepsReturn(search, s, i);
    WorkerKeepsTally(search, s, i);
    WorkerKeepsSleep(search, s, i);
    hide Apply, ResultOk, ReturnOk, StagesOk, TallyOk, SleepOk, Outstanding;
  }

  lemma SpuriousKeepsInv(search: Search, s: State)
    requires Inv(search, s) && Enabled(search, s, Spurious)
    ensures Inv(search, Apply(search, s, Spurious))
  {
    hide Gather, Lives;
  }

  lemma StepKeepsInv(search: Search, s: State, a: Action)
    requires Inv(search, s) && Enabled(search, s, a)
    ensures Inv(search, Apply(search, s, a))
  {
    match a
    case FinderAct => FinderKeepsInv(search, s);
    case TimeOut => ReturnKeepsInv(search, s);
    case Spurious => SpuriousKeepsInv(search, s);
    case WorkerAct(i) => WorkerKeepsInv(search, s, i);
  }

  /** In every state of every schedule the counter counts exactly the
      worklettes still outstanding, so it is never negative, and the result
      is what has been handed in, each worklette's people at most once. */
  lemma {:induction false} ReachableInv(search: Search, schedule: seq<Action>)
    requires Execute(search, schedule).Some?
    ensures Inv(search, Execute(search, schedule).value)
  {
    if schedule == [] {
      InitialInv(search);
    } else {
      hide Inv, Apply, Enabled;
      var init, a := schedule[..|schedule| - 1], schedule[|schedule| - 1];
      ReachableInv(search, init);
      StepKeepsInv(search, Execute(search, init).value, a);
    }
  }

  // ---- What the finder returns ---------------------------------------------

  function Range(n: nat): seq<nat> {
    if n == 0 then [] else Range(n - 1) + [n - 1]
  }

  lemma {:induction false} RangeCounts(n: nat, i: nat)
    ensures multiset(Range(n))[i] == if i < n then 1 else 0
  {
    if n > 0 {
      RangeCounts(n - 1, i);
    }
  }

  /** Gathering every nearby cell once, in any order, gives the same people. */
  lemma GatherAll(search: Search, cells: seq<nat>)
    requires Distinct(cells) && forall i: nat :: i in cells <==> i < |search.nearby|
    ensures multiset(Gather(Nearby(search), cells)) == multiset(Gather(Nearby(search), Range(|search.nearby|)))
  {
    var all: seq<nat> := Range(|search.nearby|);
    var a: multiset<nat>, b: multiset<nat> := multiset(cells), multiset(all);
    forall i: nat
      ensures a[i] == b[i]
    {
      DistinctCounts(cells, i);
      RangeCounts(|search.nearby|, i);
    }
    GatherMonotone(Nearby(search), cells, all);
    GatherMonotone(Nearby(search), all, cells);
  }

  /** What a finder returns: its own cell's people, then those of exactly the
      worklettes that finished while the pointer stood.  Those left out are as
      many as were pending when it left; so if none was, however its wait
      ended, it returns everybody. */
  lemma ReturnsWhatWasHandedIn(search: Search, schedule: seq<Action>)
    requires Execute(search, schedule).Some? && Execute(search, schedule).value.pc.Returned?
    ensures var s := Execute(search, schedule).value;
            && s.pc.result == search.bullseye + Gather(Nearby(search), s.handedIn)
            && Distinct(s.handedIn)
            && (forall i :: 0 <= i < |s.stages| ==> (i in s.handedIn <==> s.stages[i] == Done(true)))
            && |s.handedIn| + s.pc.pending == |search.nearby|
            && (s.pc.pending == 0 ==>
                  multiset(s.pc.result)
                  == multiset(search.bullseye) + multiset(Gather(Nearby(search), Range(|search.nearby|))))
  {
    var s := Execute(search, schedule).value;
    ReachableInv(search, schedule);
    hide Execute, Nearby, Gather;
    if s.pc.pending == 0 {
      GatherAll(search, s.handedIn);
    }
  }

  /** Unless time runs out, the finder leaves with nothing pending. */
  lemma {:induction false} UntimedIsComplete(search: Search, schedule: seq<Action>)
    requires Execute(search, schedule).Some? && TimeOut !in schedule
    ensures var s := Execute(search, schedule).value;
            s.pc.Returned? ==> s.pc.pending == 0
  {
    if schedule != [] {
      var init, a := schedule[..|schedule| - 1], schedule[|schedule| - 1];
      assert schedule == init + [a];
      UntimedIsComplete(search, init);
      assert a in schedule;
    }
  }

  /** No worklette, however late, changes a result that has been returned. */
  lemma {:induction false} LateWorkIsIgnored(search: Search, before: seq<Action>, after: seq<Action>)
    requires Execute(search, before).Some? && Execute(search, before + after).Some?
    requires Execute(search, before).value.pc.Returned?
    ensures var s, s' := Execute(search, before).value, Execute(search, before + after).value;
            s'.pc == s.pc && s'.ppl == s.ppl && s'.handedIn == s.handedIn
  {
    if after == [] {
      assert before + after == before;
    } else {
      var init, a := after[..|after| - 1], after[|after| - 1];
      assert (before + after)[..|before + after| - 1] == before + init;
      LateWorkIsIgnored(search, before, init);
      ReachableInv(search, before + init);
    }
  }

  lemma LateStep(search: Search, s: State, a: Action, i: nat)
    requires ReturnOk(s) && s.pc.Returned? && Enabled(search, s, a) && i < |s.stages|
    ensures |Apply(search, s, a).stages| == |s.stages|
    ensures Apply(search, s, a).stages[i].Cleared? ==> s.stages[i].Cleared?
  {
  }

  /** Nor does one so much as begin to search its cell then. */
  lemma {:induction false} LateWorkIsSkipped(search: Search, before: seq<Action>, after: seq<Action>, i: nat)
    requires Execute(search, before).Some? && Execute(search, before + after).Some?
    requires Execute(search, before).value.pc.Returned? && i < |Execute(search, before).value.stages|
    ensures var s, s' := Execute(search, before).value, Execute(search, before + after).value;
            i < |s'.stages| && (s'.stages[i].Cleared? ==> s.stages[i].Cleared?)
  {
    if after == [] {
      assert before + after == before;
    } else {
      var init, a := after[..|after| - 1], after[|after| - 1];
      assert (before + after)[..|before + after| - 1] == before + init;
      LateWorkIsSkipped(search, before, init, i);
      LateWorkIsIgnored(search, before, init);
      ReachableInv(search, before + init);
      hide Apply, Inv, Enabled;
      ReturnOkHolds(search, Execute(search, before + init).value);
      LateStep(search, Execute(search, before + init).value, a, i);
    }
  }

  lemma ReturnOkHolds(search: Search, s: State)
    requires Inv(search, s)
    ensures ReturnOk(s)
  {
  }

  // ---- The clock -------------------------------------------------------------

  /** Whenever the finder waits, and whoever is still at work, one timeout
      brings it back with exactly what has been handed in. */
  lemma TimeOutReturns(search: Search, schedule: seq<Action>)
    requires Execute(search, schedule).Some? && Execute(search, schedule).value.pc.Waiting?
    ensures var s, run := Execute(search, schedule).value, Execute(search, schedule + [TimeOut]);
            && run.Some? && run.value.handedIn == s.handedIn
            && run.value.pc == Returned(search.bullseye + Gather(Nearby(search), s.handedIn), s.pendingOps)
  {
    ReachableInv(search, schedule);
    hide Execute;
    ExecuteStep(search, schedule, TimeOut);
  }

  /** The finder's next step of its own, or its timeout. */
  function AloneAct(pc: FinderPc): Action {
    if pc.Waiting? then TimeOut else FinderAct
  }

  lemma AloneStep(search: Search, s: State)
    requires StagesOk(search, s) && !s.pc.Returned?
    ensures Enabled(search, s, AloneAct(s.pc))
    ensures 0 <= FinderSteps(search, Apply(search, s, AloneAct(s.pc)).pc) < FinderSteps(search, s.pc)
  {
  }

  lemma StagesOkHolds(search: Search, s: State)
    requires Inv(search, s)
    ensures StagesOk(search, s) && 0 <= FinderSteps(search, s.pc) <= 2 * |search.nearby| + 2
  {
  }

  /** From wherever a schedule has led, and with no worker's help, the finder
      and the clock bring the find back in a bounded number of steps. */
  lemma {:induction false} ClockBringsBack(search: Search, schedule: seq<Action>) returns (more: seq<Action>)
    requires Execute(search, schedule).Some?
    ensures forall a :: a in more ==> a == FinderAct || a == TimeOut
    ensures |more| <= FinderSteps(search, Execute(search, schedule).value.pc) <= 2 * |search.nearby| + 2
    ensures Execute(search, schedule + more).Some? && Execute(search, schedule + more).value.pc.Returned?
    decreases FinderSteps(search, Execute(search, schedule).value.pc)
  {
    hide Execute, Apply, Enabled, Inv, FinderSteps, StagesOk, AloneAct;
    var s := Execute(search, schedule).value;
    ReachableInv(search, schedule);
    StagesOkHolds(search, s);
    if s.pc.Returned? {
      assert schedule + [] == schedule;
      more := [];
    } else {
      var a := AloneAct(s.pc);
      AloneStep(search, s);
      ExecuteStep(search, schedule, a);
      var rest := ClockBringsBack(search, schedule + [a]);
      more := [a] + rest;
      assert schedule + more == schedule + [a] + rest;
      assert a == FinderAct || a == TimeOut by { AloneIsEither(s.pc); }
    }
  }

  lemma AloneIsEither(pc: FinderPc)
    ensures AloneAct(pc) == FinderAct || AloneAct(pc) == TimeOut
  {
  }

  /** Waking before its time, the finder tests the counter and goes back to
      sleep, and nothing has changed. */
  lemma WakesInVain(search: Search, schedule: seq<Action>)
    requires Execute(search, schedule).Some? && Execute(search, schedule).value.pc == Waiting(false)
    ensures Execute(search, schedule + [Spurious] + [FinderAct]) == Execute(search, schedule)
  {
    ReachableInv(search, schedule);
    hide Execute;
    ExecuteStep(search, schedule, Spurious);
    ExecuteStep(search, schedule + [Spurious], FinderAct);
  }

  // ---- The finder always comes back ----------------------------------------

  /** The worklettes that occupy a worker thread. */
  function BusyOnes(stages: seq<Stage>): set<nat> {
    set i: nat | i < |stages| && (stages[i].Cleared? || stages[i].Searched?)
  }

  lemma {:induction false} BusiesCount(stages: seq<Stage>)
    ensures Sum(Busies(stages)) == |BusyOnes(stages)|
  {
    if stages != [] {
      var n := |stages| - 1;
      assert Busies(stages)[..n] == Busies(stages[..n]);
      BusiesCount(stages[..n]);
      assert BusyOnes(stages) == BusyOnes(stages[..n]) + if Busy(stages[n]) == 1 then {n} else {};
    }
  }

  /** Worklettes are held up by nothing but a lack of threads: each that is
      queued can start while fewer are at work than there are threads, and
      each that is at work can go on. */
  lemma WorkletteBlockedOnly(search: Search, schedule: seq<Action>, i: nat)
    requires Execute(search, schedule).Some? && i < |search.nearby|
    ensures var s := Execute(search, schedule).value;
            && i < |s.stages|
            && (Enabled(search, s, WorkerAct(i))
                <==> || (s.stages[i].Queued? && |BusyOnes(s.stages)| < search.workers)
                     || i in BusyOnes(s.stages))
  {
    ReachableInv(search, schedule);
    hide Execute;
    BusiesCount(Execute(search, schedule).value.stages);
  }

  /** The finder is held up by nothing but its sleep, from which it may wake
      at any time, and which time may end at any time. */
  lemma FinderBlockedOnly(search: Search, schedule: seq<Action>)
    requires Execute(search, schedule).Some?
    ensures var s := Execute(search, schedule).value;
            && (Enabled(search, s, FinderAct) <==> !s.pc.Returned? && s.pc != Waiting(false))
            && (Enabled(search, s, Spurious) <==> s.pc == Waiting(false))
            && (Enabled(search, s, TimeOut) <==> s.pc.Waiting?)
  {
    ReachableInv(search, schedule);
    hide Execute;
  }

  /** If a worklette is outstanding, one can step, given a worker thread. */
  lemma SomeoneCanStep(search: Search, s: State) returns (i: nat)
    requires StagesOk(search, s) && Sum(Lives(s.stages)) > 0 && search.workers > 0
    ensures Enabled(search, s, WorkerAct(i))
  {
    i := SumWitness(Lives(s.stages));
    if s.stages[i].Queued? && Sum(Busies(s.stages)) >= search.workers {
      i := SumWitness(Busies(s.stages));
    }
  }

  /** Until the finder has returned, it or some worklette can step without the
      clock's help or a spurious wakeup, given a worker thread. */
  lemma ProgressWithoutClock(search: Search, schedule: seq<Action>) returns (a: Action)
    requires Execute(search, schedule).Some? && !Execute(search, schedule).value.pc.Returned?
    requires search.workers > 0
    ensures (a.FinderAct? || a.WorkerAct?) && Enabled(search, Execute(search, schedule).value, a)
  {
    var s := Execute(search, schedule).value;
    ReachableInv(search, schedule);
    hide Execute;
    a := FinderAct;
    if s.pc == Waiting(false) {
      hide Enabled;
      var i := SomeoneCanStep(search, s);
      a := WorkerAct(i);
    }
  }

  lemma ExecuteStep(search: Search, schedule: seq<Action>, a: Action)
    requires Execute(search, schedule).Some? && Enabled(search, Execute(search, schedule).value, a)
    ensures Execute(search, schedule + [a]) == Some(Apply(search, Execute(search, schedule).value, a))
  {
    assert (schedule + [a])[..|schedule|] == schedule;
  }

  /** From wherever a schedule has led, the finder can come back without
      running out of time. */
  lemma {:induction false} ReturnsWithoutClock(search: Search, schedule: seq<Action>) returns (more: seq<Action>)
    requires Execute(search, schedule).Some? && search.workers > 0
    ensures TimeOut !in more && Execute(search, schedule + more).Some?
    ensures Execute(search, schedule + more).value.pc.Returned?
    decreases Measure(search, Execute(search, schedule).value)
  {
    hide Execute, Apply, Enabled, Inv, Measure;
    if Execute(search, schedule).value.pc.Returned? {
      assert schedule + [] == schedule;
      more := [];
    } else {
      var a := ProgressWithoutClock(search, schedule);
      ReachableInv(search, schedule);
      MeasureNatural(search, Execute(search, schedule).value);
      StepFalls(search, Execute(search, schedule).value, a);
      ExecuteStep(search, schedule, a);
      var rest := ReturnsWithoutClock(search, schedule + [a]);
      more := [a] + rest;
      assert schedule + more == schedule + [a] + rest;
    }
  }

  lemma NoneAliveAllDone(search: Search, s: State)
    requires Inv(search, s) && s.pc.Returned? && Sum(Lives(s.stages)) == 0
    ensures s.pendingOps == 0 && forall i :: 0 <= i < |s.stages| ==> s.stages[i].Done?
  {
    NoneAlive(s.stages);
  }

  lemma LateWorkerStep(search: Search, s: State) returns (a: Action)
    requires Inv(search, s) && search.workers > 0 && Sum(Lives(s.stages)) > 0
    ensures a.WorkerAct? && Enabled(search, s, a)
  {
    hide Enabled;
    var i := SomeoneCanStep(search, s);
    a := WorkerAct(i);
  }

  /** Given a worker thread, the late worklettes finish too, and the counter
      ends at zero. */
  lemma {:induction false} AllWorkFinishes(search: Search, schedule: seq<Action>) returns (more: seq<Action>)
    requires Execute(search, schedule).Some? && search.workers > 0
    ensures Execute(search, schedule + more).Some?
    ensures var s := Execute(search, schedule + more).value;
            && s.pc.Returned? && s.pendingOps == 0
            && forall i :: 0 <= i < |s.stages| ==> s.stages[i].Done?
    decreases Measure(search, Execute(search, schedule).value)
  {
    hide Execute, Apply, Enabled, Inv, Measure;
    var s := Execute(search, schedule).value;
    ReachableInv(search, schedule);
    if s.pc.Returned? && Sum(Lives(s.stages)) == 0 {
      assert schedule + [] == schedule;
      more := [];
      NoneAliveAllDone(search, s);
    } else {
      var a;
      if s.pc.Returned? {
        a := LateWorkerStep(search, s);
      } else {
        a := ProgressWithoutClock(search, schedule);
      }
      MeasureNatural(search, s);
      StepFalls(search, s, a);
      ExecuteStep(search, schedule, a);
      var rest := AllWorkFinishes(search, schedule + [a]);
      more := [a] + rest;
      assert schedule + more == schedule + [a] + rest;
    }
  }

  ghost predicate Unstarted(stages: seq<Stage>) {
    forall i :: 0 <= i < |stages| ==> stages[i].Unqueued? || stages[i].Queued?
  }

  lemma StaysUnstarted(search: Search, s: State, a: Action)
    requires Unstarted(s.stages) && search.workers == 0 && Enabled(search, s, a)
    ensures Unstarted(Apply(search, s, a).stages)
  {
    hide Busies;
  }

  lemma {:induction false} NobodyStarts(search: Search, schedule: seq<Action>)
    requires Execute(search, schedule).Some? && search.workers == 0
    ensures Unstarted(Execute(search, schedule).value.stages)
  {
    if schedule != [] {
      hide Unstarted, Apply, Enabled;
      var init := schedule[..|schedule| - 1];
      NobodyStarts(search, init);
      StaysUnstarted(search, Execute(search, init).value, schedule[|schedule| - 1]);
    }
  }

  lemma FirstIsIn(cells: seq<nat>)
    ensures cells == [] || cells[0] in cells
  {
  }

  /** Without worker threads nobody hands in: the finder returns only its own
      cell's people, with everything still pending. */
  lemma NoWorkersNoNeighbours(search: Search, schedule: seq<Action>)
    requires Execute(search, schedule).Some? && search.workers == 0
    ensures var s := Execute(search, schedule).value;
            && s.handedIn == []
            && (s.pc.Returned? ==> s.pc.result == search.bullseye && s.pc.pending == |search.nearby|)
  {
    var s := Execute(search, schedule).value;
    ReachableInv(search, schedule);
    NobodyStarts(search, schedule);
    hide Execute;
    forall i: nat
      ensures i !in s.handedIn
    {
      assert i < |s.stages| ==> s.stages[i] != Done(true);
    }
    FirstIsIn(s.handedIn);
  }

  /** Such a find does come back, when its time is up. */
  lemma NoWorkersStillReturns(search: Search) returns (schedule: seq<Action>)
    requires search.workers == 0
    ensures Execute(search, schedule).Some?
    ensures Execute(search, schedule).value.pc == Returned(search.bullseye, |search.nearby|)
  {
    var more := ClockBringsBack(search, []);
    assert [] + more == more;
    schedule := more;
    NoWorkersNoNeighbours(search, schedule);
  }

  ghost predicate ReturnsInTime(search: Search, schedule: seq<Action>) {
    Execute(search, schedule).Some? && TimeOut !in schedule && Execute(search, schedule).value.pc.Returned?
  }

  /** A find can return without running out of time if and only if there are
      worker threads or nothing for them to do. */
  lemma InTimeExactlyWhenStaffed(search: Search)
    ensures (exists schedule :: ReturnsInTime(search, schedule)) <==> search.workers > 0 || search.nearby == []
  {
    if search.nearby == [] {
      assert ReturnsInTime(search, []);
    } else if search.workers > 0 {
      var more := ReturnsWithoutClock(search, []);
      assert [] + more == more;
      assert ReturnsInTime(search, more);
    } else {
      forall schedule
        ensures !ReturnsInTime(search, schedule)
      {
        if Execute(search, schedule).Some? && TimeOut !in schedule {
          UntimedIsComplete(search, schedule);
          NoWorkersNoNeighbours(search, schedule);
        }
      }
    }
  }

  // ---- The number of steps ---------------------------------------------------

  /** Each worklette that finishes may wake the finder once. */
  function StepsLeft(stage: Stage): nat {
    match stage
    case Unqueued => 4
    case Queued => 4
    case Cleared => 3
    case Searched => 2
    case Done(_) => 0
  }

  function StepsOfAll(stages: seq<Stage>): seq<nat> {
    seq(|stages|, i requires 0 <= i < |stages| => StepsLeft(stages[i]))
  }

  function FinderSteps(search: Search, pc: FinderPc): int {
    match pc
    case Counting(i) => 2 * (|search.nearby| - i) + 2
    case Queueing(i) => 2 * (|search.nearby| - i) + 1
    case Testing => 2
    case Waiting(notified) => if notified then 2 else 1
    case Returned(_, _) => 0
  }

  function Measure(search: Search, s: State): int {
    Sum(StepsOfAll(s.stages)) + FinderSteps(search, s.pc)
  }

  lemma StepsUpdate(stages: seq<Stage>, i: nat, stage: Stage)
    requires i < |stages|
    ensures Sum(StepsOfAll(stages[i := stage])) + StepsLeft(stages[i]) == Sum(StepsOfAll(stages)) + StepsLeft(stage)
  {
    assert StepsOfAll(stages[i := stage]) == StepsOfAll(stages)[i := StepsLeft(stage)];
    SumUpdate(StepsOfAll(stages), i, StepsLeft(stage));
  }

  lemma WorkerFalls(search: Search, s: State, i: nat)
    requires Enabled(search, s, WorkerAct(i))
    ensures Measure(search, Apply(search, s, WorkerAct(i))) < Measure(search, s)
  {
    var s' := Apply(search, s, WorkerAct(i));
    assert StepsLeft(s'.stages[i]) < StepsLeft(s.stages[i]);
    assert s'.pc == s.pc || (s'.pc == Notify(s.pc) && StepsLeft(s'.stages[i]) + 2 <= StepsLeft(s.stages[i]));
    StepsUpdate(s.stages, i, s'.stages[i]);
    hide StepsLeft, StepsOfAll;
  }

  lemma FinderFalls(search: Search, s: State)
    requires StagesOk(search, s) && Enabled(search, s, FinderAct)
    ensures Measure(search, Apply(search, s, FinderAct)) < Measure(search, s)
  {
    if s.pc.Queueing? {
      StepsUpdate(s.stages, s.pc.i, Queued);
    }
    hide StepsOfAll;
  }

  lemma StepFalls(search: Search, s: State, a: Action)
    requires Inv(search, s) && Enabled(search, s, a) && a != Spurious
    ensures Measure(search, Apply(search, s, a)) < Measure(search, s)
  {
    match a
    case FinderAct => FinderFalls(search, s);
    case WorkerAct(i) => WorkerFalls(search, s, i);
    case TimeOut =>
  }

  function SpuriousCount(schedule: seq<Action>): nat {
    if schedule == [] then 0
    else SpuriousCount(schedule[..|schedule| - 1]) + if schedule[|schedule| - 1] == Spurious then 1 else 0
  }

  lemma {:induction false} InitialMeasure(search: Search)
    ensures Measure(search, Initial(search)) <= 6 * |search.nearby| + 2
  {
    SumBound(StepsOfAll(Initial(search).stages), 4);
  }

  lemma SpuriousRises(search: Search, s: State)
    requires Enabled(search, s, Spurious)
    ensures Measure(search, Apply(search, s, Spurious)) == Measure(search, s) + 1
  {
  }

  /** No schedule takes more than six steps per nearby cell, and two, apart
      from spurious wakeups and one step after each. */
  lemma {:induction false} BoundedSteps(search: Search, schedule: seq<Action>)
    requires Execute(search, schedule).Some?
    ensures |schedule| + Measure(search, Execute(search, schedule).value)
         <= 6 * |search.nearby| + 2 + 2 * SpuriousCount(schedule)
    ensures |schedule| <= 6 * |search.nearby| + 2 + 2 * SpuriousCount(schedule)
  {
    ReachableInv(search, schedule);
    MeasureNatural(search, Execute(search, schedule).value);
    hide Inv, Measure, Apply, Enabled;
    if schedule == [] {
      InitialMeasure(search);
    } else {
      var init, a := schedule[..|schedule| - 1], schedule[|schedule| - 1];
      BoundedSteps(search, init);
      ReachableInv(search, init);
      if a == Spurious {
        SpuriousRises(search, Execute(search, init).value);
      } else {
        StepFalls(search, Execute(search, init).value, a);
      }
    }
  }

  lemma MeasureNatural(search: Search, s: State)
    requires Inv(search, s)
    ensures Measure(search, s) >= 0
  {
  }
}
