/** What threads do to a find's context and to the pool's queue while they
    hold the mutex in question: as functions on values, and as methods of the
    objects that live behind the mutexes. */
module CriticalSections {
  import opened Geo
  import opened PplCells

  // ---- One find's context ------------------------------------------------

  datatype Context = Context(ppl: seq<Person>, pending: set<Cell>, done: bool)

  const EMPTY_CONTEXT := Context([], {}, false)

  /** What TryFindPpl does next when it holds the mutex at its first wait. */
  datatype OfferOutcome = MustWait | MustDrain | MustEnqueue | AlreadyDone

  function WakeForOffer(ctx: Context, maxPpl: nat, concurrency: nat): OfferOutcome {
    if !(ctx.done || |ctx.ppl| >= maxPpl || |ctx.pending| < concurrency) then MustWait
    else if |ctx.ppl| >= maxPpl then MustDrain
    else if !ctx.done then MustEnqueue
    else AlreadyDone
  }

  function AfterOffer(ctx: Context, cell: Cell, outcome: OfferOutcome): Context {
    match outcome
    case MustDrain => ctx.(done := true)
    case MustEnqueue => ctx.(pending := ctx.pending + {cell})
    case _ => ctx
  }

  function Cancel(ctx: Context, cell: Cell): Context {
    ctx.(pending := ctx.pending - {cell})
  }

  function Commit(ctx: Context, cell: Cell, mine: seq<Person>): Context {
    ctx.(ppl := ctx.ppl + mine, pending := ctx.pending - {cell})
  }

  function Resize(ppl: seq<Person>, maxPpl: nat): seq<Person> {
    if |ppl| > maxPpl then ppl[..maxPpl] else ppl
  }

  /** Each method is one stretch of code that runs with the context's mutex
      held; checked is false when a CHECK in it fails.  Only the finder ever
      waits for the condition variable: asleep says that it does, and has not
      been notified. */
  class FindContext {
    var ppl: seq<Person>
    var pendingCells: set<Cell>
    var weDoneHere: bool
    var asleep: bool

    function View(): Context
      reads this
    {
      Context(ppl, pendingCells, weDoneHere)
    }

    constructor ()
      ensures View() == EMPTY_CONTEXT && !asleep
    {
      ppl, pendingCells, weDoneHere, asleep := [], {}, false, false;
    }

    method NotifyAll()
      modifies this`asleep
      ensures !asleep
    {
      asleep := false;
    }

    method TryFindPpl(cell: Cell, maxPpl: nat, concurrency: nat)
      returns (outcome: OfferOutcome, checked: bool)
      modifies this
      ensures outcome == WakeForOffer(old(View()), maxPpl, concurrency)
      ensures View() == AfterOffer(old(View()), cell, outcome)
      ensures asleep <==> old(asleep) || outcome == MustWait
      ensures checked <==> outcome != MustEnqueue || cell !in old(pendingCells)
    {
      checked := true;
      if !(weDoneHere || |ppl| >= maxPpl || |pendingCells| < concurrency) {
        asleep := true;
        outcome := MustWait;
      } else if |ppl| >= maxPpl {
        weDoneHere := true;
        outcome := MustDrain;
      } else if !weDoneHere {
        checked := cell !in pendingCells;
        pendingCells := pendingCells + {cell};
        outcome := MustEnqueue;
      } else {
        outcome := AlreadyDone;
      }
    }

    /** The second and third waits' predicate. */
    method AwaitDrained() returns (drained: bool)
      modifies this`asleep
      ensures drained <==> pendingCells == {}
      ensures asleep <==> old(asleep) || !drained
    {
      drained := pendingCells == {};
      if !drained {
        asleep := true;
      }
    }

    method StartCell(cell: Cell) returns (done: bool, checked: bool)
      modifies this
      ensures done == old(weDoneHere)
      ensures View() == if done then Cancel(old(View()), cell) else old(View())
      ensures asleep <==> old(asleep) && !done
      ensures checked <==> !done || cell in old(pendingCells)
    {
      done, checked := weDoneHere, true;
      if done {
        checked := cell in pendingCells;
        pendingCells := pendingCells - {cell};
        NotifyAll();
      }
    }

    method FinishCell(cell: Cell, mine: seq<Person>) returns (checked: bool)
      modifies this
      ensures View() == Commit(old(View()), cell, mine) && !asleep
      ensures checked <==> cell in old(pendingCells)
    {
      var person := 0;
      while person < |mine|
        invariant 0 <= person <= |mine|
        invariant ppl == old(ppl) + mine[..person]
        invariant pendingCells == old(pendingCells) && weDoneHere == old(weDoneHere)
      {
        ppl := ppl + [mine[person]];
        person := person + 1;
      }
      assert mine[..person] == mine;
      checked := cell in pendingCells;
      pendingCells := pendingCells - {cell};
      NotifyAll();
    }

    method Collect(maxPpl: nat) returns (result: seq<Person>)
      modifies this
      ensures result == Resize(old(ppl), maxPpl)
      ensures View() == old(View()).(ppl := result) && asleep == old(asleep)
    {
      if |ppl| > maxPpl {
        ppl := ppl[..maxPpl];
      }
      result := ppl;
    }
  }

  // ---- The pool's queue --------------------------------------------------

  /** A worklette: scan this cell for that find. */
  datatype Job = Job(find: nat, cell: Cell)

  datatype Pool = Pool(work: seq<Job>, die: bool)

  /** What a worker does next: leave for good, sleep, start over, or run. */
  datatype Task = Quit | Sleep | Retry | Run(job: Job)

  /** On taking the mutex at the top of the loop. */
  function LookForWork(pool: Pool): Task {
    if pool.die then Quit
    else if pool.work == [] then Sleep
    else Run(pool.work[0])
  }

  /** On coming back from the wait, which has no predicate. */
  function ResumeWork(pool: Pool): Task {
    if pool.die then Quit
    else if pool.work != [] then Run(pool.work[0])
    else Retry
  }

  function AfterTask(pool: Pool, task: Task): Pool {
    if task.Run? && pool.work != [] then pool.(work := pool.work[1..]) else pool
  }

  /** asleep holds the workers that wait for the condition variable and have
      not been notified. */
  class NoddyWorkerPool {
    var work: seq<Job>
    var die: bool
    var asleep: set<nat>

    function View(): Pool
      reads this
    {
      Pool(work, die)
    }

    constructor ()
      ensures View() == Pool([], false) && asleep == {}
    {
      work, die, asleep := [], false, {};
    }

    method NotifyAll()
      modifies this`asleep
      ensures asleep == {}
    {
      asleep := {};
    }

    method WakeSpuriously(w: nat)
      modifies this`asleep
      ensures asleep == old(asleep) - {w}
    {
      asleep := asleep - {w};
    }

    method QueueWorklette(job: Job)
      modifies this
      ensures View() == old(View()).(work := old(work) + [job]) && asleep == {}
    {
      work := work + [job];
      NotifyAll();
    }

    /** The destructor, as far as the lock goes. */
    method Destroy()
      modifies this
      ensures View() == old(View()).(die := true) && asleep == {}
    {
      die := true;
      NotifyAll();
    }

    /** waited tells whether worker w comes from the wait or from the top. */
    method TakeWork(w: nat, waited: bool) returns (task: Task)
      modifies this
      ensures task == if waited then ResumeWork(old(View())) else LookForWork(old(View()))
      ensures View() == AfterTask(old(View()), task)
      ensures asleep == old(asleep) + if task == Sleep then {w} else {}
    {
      if die {
        return Quit;
      } else if work == [] && !waited {
        asleep := asleep + {w};
        return Sleep;
      }
      if work != [] {
        task := Run(work[0]);
        work := work[1..];
      } else {
        task := Retry;
      }
    }
  }
}
