# pplMe: a verified model of finding people

pplMe keeps people in a grid of cells and finds those near a user and of about
the user's age. This project models the engine that does so, and proves what it
promises for every input, every number of simultaneous finds and every
interleaving of their threads.

The main result, `Provider.ConcurrentFindIsFilter`, goes through four layers:

1. **Cells** (`Geo`, `PplCells`). Positions are quantised to cells, cells to one
   flat index. `PplGrid.AddPerson` inserts by binary search; each cell stays
   sorted by date of birth, equal dates in order of arrival, and its contents are
   determined by who was added (`StablySortedUnique`).
2. **The spiral** (`Sweep`). `Sqiral` walks outwards in diamonds over a grid that
   wraps in longitude only, and stops once it has counted four corners. It meets
   every offset once, offers cells in order of distance round the cylinder, skips
   exactly r - 1 of the 361r columns, and never one that anybody lives in.
3. **The protocol** (`CriticalSections`, `FindProtocol`, `FindInvariant`,
   `FindSafety`, `FindResults`, `FindMachine`). A schedule is any list of steps
   of finder and worker threads, spurious wakeups and the destruction of the
   pool. Both kinds of mutex have owners, sleepers have a flag that says whether they have been
   notified, and a failing CHECK leads to a state of its own. An inductive
   invariant holds after every schedule; and `FindMachine.Run` drives the
   objects behind the mutexes along any schedule, through the same states.
4. **Liveness** (`FindProgress`, `FindTermination`, `FindLiveness`,
   `FindShutdown`). While a find is unfinished some thread can step; the steps of
   any schedule are bounded; a find can return exactly when there are workers and
   they may be used; the pool's destructor can join every worker; and it is known
   exactly which finds the end of the pool leaves sure to come back.

`Rendezvous` is the prototype engine's one-second rendezvous, `RowSweep` its
sweep along a row, and `Framing` the length-prefixed messages between client and
server.

## How to read the model

- `r` is the number of cells per degree. The daemon's flag admits 1 to 100;
  most results need only r >= 1.
- Positions are reals where the program has floats, converted towards zero as by
  the program. Float rounding of the sum before that could move a person to the
  next whole degree, which is r cells away; the results hold for whatever cells
  the index functions produce, and `Geo.AcceptedHoweverRounded` says what the
  CHECKs accept however the sum is rounded.
- Dates are day numbers, and calendar arithmetic is an arbitrary function. Every
  scan of a cell asks for today's date, and a find scans no cell twice, so a
  request has one window of dates of birth for each cell; `Provider.Wanted` are
  the people born within the window of their own cell, and as long as the date
  stays the same (`Provider.WantedOnOneDay`) that is one window.
- Between two steps of a schedule anything may happen; one step is what a thread
  does from taking, or holding, a mutex up to the next point at which it takes
  one, lets one go or sleeps. The classes in `CriticalSections` are the code that
  runs inside the steps, notifications included, proved against the functions
  that the steps use; `FindMachine` calls them step by step.
- `committed`, `cancelled`, `offered`, `answers`, `pushed` and `popped` are
  history: no step depends on them.
- The server joins its connection threads (src/libpplmenet/single_shot_server.cc:99-100)
  before its provider goes, so in the program the pool ends after every find is
  back (`FindShutdown.EndAfterFinds`). The other theorems about finds in
  `FindShutdown` suppose a provider that is destroyed during finds, which the
  program never does. They also suppose that the pool can still be reached then;
  the provider clears its pointer to the pool before the pool's destructor runs
  (src/libpplmeengine/pplme_matching_ppl_provider.cc:146), so where the model has a
  push into a dying pool, the program would follow a null pointer. A find that is
  sure to come back pushes nothing any more (`FindShutdown.SafeForGood`).
- The grid does not change while finds run: people are added before the server
  starts, and adding takes no lock.
- Integers are unbounded. Every index stays below 2^31 for r <= 100
  (`Geo.FlatIndexInBounds`); the one place where the program relies on unsigned
  wrap-around is written out (`RowSweep.WrappedSub`).

## Findings

- `GeoPosition::IsValid` (src/libpplmecore/geo_position.cc:15-20) ends the map at 90
  and 180 degrees, but because conversion to int rounds towards zero, latitudes in
  (-91, -90) and (90, 91) and longitudes in (-181, -180) and (180, 181) pass the
  CHECKs (`Geo.LocatorDefined`).
- The concurrency of a find and the number of workers default to the standard
  library's hardware concurrency, which may be zero. Then no find ever returns
  (`FindLiveness.ReturnsExactlyWhenStaffed`, `Provider.BuiltProviderReturns`).
- The prototype's workers have the same default. Without them a find with nearby
  cells takes its whole second, and returns only the people of the user's own
  cell (`Rendezvous.InTimeExactlyWhenStaffed`, `Rendezvous.NoWorkersNoNeighbours`,
  `Rendezvous.NoWorkersStillReturns`).
- `SendMessage` sends bodies of any length, but `ReceiveMessage` refuses those
  above the maximum and leaves their octets in the stream; the round trip holds
  if and only if every body is short enough (`Framing.StreamRoundTrip`).
- The prototype's row sweep stops at the ends of the row, although its ticks wrap,
  so it never looks across the antimeridian. It is complete for exactly those
  users whose neighbourhood ends within the row
  (`RowSweep.CompleteExactlyWithinRow`); users in the first and the last column
  miss the next cell unless it is too far anyway (`RowSweep.NeighbourAcrossIsMissed`,
  `RowSweep.NeighbourAcrossIsMissedEast`). At the first cell past an end the guard
  comes before the distance test, so for such cells the test in these statements
  stands for the true distance, whatever the program's would say.

## Model

| member | source | states |
|---|---|---|
| Geo.LocatorDefined | src/libpplmeengine/pplme_matching_ppl_provider.cc:213-224 | exactly which positions pass the range CHECKs, in real arithmetic |
| Geo.AcceptedHoweverRounded | src/libpplmeengine/pplme_matching_ppl_provider.cc:213-224 | with any order-keeping rounding of the sum, every valid coordinate passes its CHECK and none a degree or more outside does |
| Geo.LocatorOnLattice | src/libpplmeengine/pplme_matching_ppl_provider.cc:213-243 | a position's cell has whole degrees times r for indices |
| Geo.CellOfPosition | src/libpplmeengine/pplme_matching_ppl_provider.cc:213-224 | a valid position's indices are r times the whole degrees, from the South Pole and the antimeridian, that it lies in |
| Geo.CellsFollowPositions | src/libpplmeengine/pplme_matching_ppl_provider.cc:213-224 | further north or east is never a smaller index, and a degree further is r rows or columns more |
| Geo.FlatIndexInBounds | src/libpplmeengine/pplme_matching_ppl_provider.cc:37-49 | every cell that a search or an insertion touches indexes within the grid, whose size fits 31 bits for r up to 100 |
| Geo.FlatIndexInjective | src/libpplmeengine/pplme_matching_ppl_provider.cc:246-253 | different cells have different flat indices, the extra rows included |
| Geo.FlatIndexRowMajor | src/libpplmeengine/pplme_matching_ppl_provider.cc:246-248 | the flat index goes along the rows, one row after another |
| Sweep.Locate | src/libpplmeengine/pplme_matching_ppl_provider.cc:298-310 | an offset in range lands in the grid, on the row it names, wrapped at most once |
| Sweep.LocateInjective | src/libpplmeengine/pplme_matching_ppl_provider.cc:263-310 | different offsets in range land in different cells |
| Sweep.LocateDistance | src/libpplmeengine/pplme_matching_ppl_provider.cc:263-310 | an offset in range is the shortest way round to its cell |
| Sweep.WalkExact | src/libpplmeengine/pplme_matching_ppl_provider.cc:318-347 | the quarter loops meet each offset exactly once, in the ring of its Manhattan distance |
| Sweep.WalkSorted | src/libpplmeengine/pplme_matching_ppl_provider.cc:318-347 | no offset is met twice, and none before a nearer one |
| Sweep.WalkClockwise | src/libpplmeengine/pplme_matching_ppl_provider.cc:316-347 | the walk starts at the origin and goes from each offset to the next clockwise, each ring starting due north |
| Sweep.FourCornersWhenCovered | src/libpplmeengine/pplme_matching_ppl_provider.cc:268-318 | at each ring start the corner count is the number of corners within the rings walked, is at most four, and is four exactly after ring 180r + max(lat, 181r - lat) |
| Sweep.SweepCells | src/libpplmeengine/pplme_matching_ppl_provider.cc:263-314 | exactly which cells an undisturbed search offers: all but the r - 1 columns 180r+1 to 181r-1 steps east of the origin |
| Sweep.SweepCoversLattice | src/libpplmeengine/pplme_matching_ppl_provider.cc:213-314 | from every origin a user can have, every cell anybody can live in is offered |
| Sweep.SweepOrder | src/libpplmeengine/pplme_matching_ppl_provider.cc:286-349 | no cell is offered twice, and cells are offered in nondecreasing distance round the cylinder |
| Sweep.SweepStartsAtOrigin | src/libpplmeengine/pplme_matching_ppl_provider.cc:316-316 | the first cell offered is the origin |
| Sweep.SweepSize | src/libpplmeengine/pplme_matching_ppl_provider.cc:286-349 | an undisturbed search makes (181r + 1)(360r + 1) calls |
| Sweep.DoCell | src/libpplmeengine/pplme_matching_ppl_provider.cc:291-314 | one offset: calls the callback if it is in range, counts it if it is a corner |
| Sweep.NorthToEast | src/libpplmeengine/pplme_matching_ppl_provider.cc:319-325 | walks the first side of a ring, up to the callback's first yes |
| Sweep.EastToSouth | src/libpplmeengine/pplme_matching_ppl_provider.cc:326-332 | walks the second side, likewise |
| Sweep.SouthToWest | src/libpplmeengine/pplme_matching_ppl_provider.cc:333-339 | walks the third side, likewise |
| Sweep.WestToNorth | src/libpplmeengine/pplme_matching_ppl_provider.cc:340-346 | walks the fourth side, likewise |
| Sweep.Sqiral | src/libpplmeengine/pplme_matching_ppl_provider.cc:286-350 | ends; offers a prefix of the full sweep that stops at the callback's first yes, and all of it if there is none; says whether there was one |
| PplCells.UpperBound | src/libpplmeengine/pplme_matching_ppl_provider.cc:153-158 | the position after all people born no later |
| PplCells.LowerBound | src/libpplmeengine/pplme_matching_ppl_provider.cc:426-430 | the position of the first person born no earlier |
| PplCells.InsertedStably | src/libpplmeengine/pplme_matching_ppl_provider.cc:152-159 | inserting at the upper bound keeps a cell sorted, adds just the one person, and puts equal dates in order of arrival |
| PplCells.StablySortedUnique | src/libpplmeengine/pplme_matching_ppl_provider.cc:197-197 | sortedness and arrival order determine a cell's contents |
| PplCells.EqualDatesInOrderOfArrival | src/libpplmeengine/pplme_matching_ppl_provider.cc:150-160 | people in a cell with equal dates of birth are those among all people added who live there and were born then, in the order in which they were added |
| PplCells.FindInCell | src/libpplmeengine/pplme_matching_ppl_provider.cc:426-434 | the scan from the lower bound yields exactly the people born within the window, in order |
| PplCells.PplGrid.constructor | src/libpplmeengine/pplme_matching_ppl_provider.cc:123-142 | a grid of the right size with nobody in it |
| PplCells.PplGrid.AddPerson | src/libpplmeengine/pplme_matching_ppl_provider.cc:150-160 | adds the person to their own cell and no other, keeping every cell stably sorted and equal to the people added who live there |
| PplCells.PplGrid.FindMatchingPpl | src/libpplmeengine/pplme_matching_ppl_provider.cc:416-435 | a worker finds exactly those people of the cell born between the days that many years before today, user's age plus and minus the difference; among them everybody whose age differs by no more, if more years before is never later |
| CriticalSections.FindContext.TryFindPpl | src/libpplmeengine/pplme_matching_ppl_provider.cc:367-389 | an offer waits, goes on to drain, enqueues or leaves; the context and who sleeps change accordingly |
| CriticalSections.FindContext.AwaitDrained | src/libpplmeengine/pplme_matching_ppl_provider.cc:376-381 | the finder sleeps exactly if cells are pending, and nothing else changes |
| CriticalSections.FindContext.StartCell | src/libpplmeengine/pplme_matching_ppl_provider.cc:395-402 | a worklette is dropped, and the finder notified, exactly if the find is over |
| CriticalSections.FindContext.FinishCell | src/libpplmeengine/pplme_matching_ppl_provider.cc:407-411 | a worklette's people are appended in order, its cell is no longer pending, and the finder is notified |
| CriticalSections.FindContext.Collect | src/libpplmeengine/pplme_matching_ppl_provider.cc:185-188 | the result is cut to the maximum |
| CriticalSections.NoddyWorkerPool.QueueWorklette | src/libpplmeengine/pplme_matching_ppl_provider.cc:71-75 | a job goes to the back of the queue, and every sleeping worker is notified |
| CriticalSections.NoddyWorkerPool.Destroy | src/libpplmeengine/pplme_matching_ppl_provider.cc:60-65 | the pool is told to die and keeps its queue, and every sleeping worker is notified |
| CriticalSections.NoddyWorkerPool.TakeWork | src/libpplmeengine/pplme_matching_ppl_provider.cc:90-104 | a worker quits, sleeps, starts over or takes the front job |
| FindProtocol.NotifyWorkers | src/libpplmeengine/pplme_matching_ppl_provider.cc:64-74 | no worker is left asleep, and only sleeping workers change, by being woken |
| FindInvariant.HeldNotified | src/libpplmeengine/pplme_matching_ppl_provider.cc:64-74 | notifying the workers leaves every job in the hands that hold it |
| FindInvariant.InsertChecked | src/libpplmeengine/pplme_matching_ppl_provider.cc:383-383 | a cell being inserted is never pending already |
| FindInvariant.FewOvertaken | src/libpplmeengine/pplme_matching_ppl_provider.cc:407-411 | when a cell is committed, fewer than the concurrency of those offered before it are missing |
| FindInvariant.FinderKeepsFind | src/libpplmeengine/pplme_matching_ppl_provider.cc:163-189 | every finder step keeps the find's ledger: what was inserted is pending, committed or cancelled, once |
| FindSafety.WorkerOnFindKeeps | src/libpplmeengine/pplme_matching_ppl_provider.cc:393-413 | every worker step keeps the ledger, and the erasing CHECKs hold |
| FindSafety.WorkerKeepsJobs | src/libpplmeengine/pplme_matching_ppl_provider.cc:86-110 | pending cells and existing worklettes stay in one-to-one correspondence |
| FindSafety.ReachableInv | src/libpplmeengine/pplme_matching_ppl_provider.cc:60-110 | after every schedule: no CHECK has failed, locks have the right owners, worklettes match pending cells, ledgers balance, nobody sleeps who should not |
| FindResults.FindReturnsMatches | src/libpplmeengine/pplme_matching_ppl_provider.cc:163-189 | after every schedule a returned result is a sub-multiset of all matches, of size min(maximum, number of matches) |
| FindResults.NearlyInOrder | src/libpplmeengine/pplme_matching_ppl_provider.cc:363-413 | cells are committed nearest first up to the concurrency, cancelled ones included |
| FindResults.OneAtATimeIsExact | src/libpplmeengine/pplme_matching_ppl_provider.cc:363-413 | with a concurrency of one the result is the prefix, of the maximum's length, of all matches in sweep order |
| FindResults.FoundAfterEarlier | src/libpplmeengine/pplme_matching_ppl_provider.cc:363-413 | before anybody found in a cell, a result has all matches of the cells offered earlier, fewer than the concurrency of them excepted |
| FindResults.NobodyOutlivesTheFind | src/libpplmeengine/pplme_matching_ppl_provider.cc:174-188 | once a find has returned, no job, worker or lock refers to its context |
| FindResults.ReturnedForever | src/libpplmeengine/pplme_matching_ppl_provider.cc:174-188 | nothing that happens later changes a returned find |
| FindResults.PoolIsFifo | src/libpplmeengine/pplme_matching_ppl_provider.cc:71-103 | jobs leave the queue in the order they entered, a find's in sweep order |
| FindResults.EachJobPoppedOnce | src/libpplmeengine/pplme_matching_ppl_provider.cc:71-103 | no job is taken twice |
| FindResults.NothingPoppedAfterDeath | src/libpplmeengine/pplme_matching_ppl_provider.cc:60-98 | no job is taken once the pool has been told to die |
| FindResults.WaitsOnlyWhenFull | src/libpplmeengine/pplme_matching_ppl_provider.cc:367-374 | a finder with a cell to offer sleeps only while exactly as many cells are pending as it may have, and it still wants people |
| FindResults.OffersNoMoreOnceEnough | src/libpplmeengine/pplme_matching_ppl_provider.cc:375-388 | once there are enough people no further cell is inserted, in any schedule |
| FindResults.YesMeansDrained | src/libpplmeengine/pplme_matching_ppl_provider.cc:375-391 | an offer is answered yes only with enough people found, nothing pending and no worklette left |
| FindResults.ScansNoMoreOnceOver | src/libpplmeengine/pplme_matching_ppl_provider.cc:393-406 | once a find is over no worker starts to scan a cell for it |
| FindMachine.Step | src/libpplmeengine/pplme_matching_ppl_provider.cc:60-413 | the objects' methods, called where a step says, lead to the step's state, and a CHECK in them fails exactly if the step says so |
| FindMachine.Run | src/libpplmeengine/pplme_matching_ppl_provider.cc:60-413 | run along any schedule, the objects end up as the protocol says, with the results of returned finds in their contexts |
| FindProgress.PoolHolderSteps | src/libpplmeengine/pplme_matching_ppl_provider.cc:71-104 | whoever holds the pool's mutex can go on, so it never waits for a context's |
| FindProgress.ContextHolderSteps | src/libpplmeengine/pplme_matching_ppl_provider.cc:367-411 | whoever holds a context's mutex waits for nothing but the pool's |
| FindProgress.SleeperHasJob | src/libpplmeengine/pplme_matching_ppl_provider.cc:174-381 | a finder that sleeps unnotified still has a worklette to wait for |
| FindProgress.Progress | src/libpplmeengine/pplme_matching_ppl_provider.cc:60-189 | no deadlock: while a find is unfinished some thread can step |
| FindProgress.WorkerBlockedOnly | src/libpplmeengine/pplme_matching_ppl_provider.cc:86-413 | a worker can step unless it has ended, sleeps, or needs a mutex that is held: exactly then |
| FindProgress.FinderBlockedOnly | src/libpplmeengine/pplme_matching_ppl_provider.cc:163-391 | a finder can step unless it is back, sleeps, or needs a mutex that is held: exactly then |
| FindProgress.EnvironmentBlockedOnly | src/libpplmeengine/pplme_matching_ppl_provider.cc:60-94 | whoever sleeps may wake at any time, and the pool may be told to die whenever its mutex is free |
| FindProgress.FinderWakesInVain | src/libpplmeengine/pplme_matching_ppl_provider.cc:174-381 | a finder that wakes too early goes back to sleep, and nothing has changed |
| FindProgress.WorkerWakesInVain | src/libpplmeengine/pplme_matching_ppl_provider.cc:86-110 | a worker that wakes too early goes once round its loop and back to sleep, and nothing has changed |
| FindTermination.StepMeasure | src/libpplmeengine/pplme_matching_ppl_provider.cc:86-413 | every step but a spurious wakeup lowers the measure; a spurious one raises it by at most five |
| FindTermination.BoundedSteps | src/libpplmeengine/pplme_matching_ppl_provider.cc:86-413 | the steps of every schedule are bounded by the initial measure and the spurious wakeups |
| FindTermination.StepsInFigures | src/libpplmeengine/pplme_matching_ppl_provider.cc:86-413 | every schedule is at most a polynomial in the cells, the finds and the workers long, plus six steps for each spurious wakeup |
| FindLiveness.EveryFindCanFinish | src/libpplmeengine/pplme_matching_ppl_provider.cc:163-189 | from every reachable state all finds can be brought back |
| FindLiveness.StuckMeansReturned | src/libpplmeengine/pplme_matching_ppl_provider.cc:163-189 | a schedule that cannot go on has brought every find back |
| FindLiveness.ReturnsExactlyWhenStaffed | src/libpplmeengine/pplme_matching_ppl_provider.cc:54-57 | a find can return if and only if there are workers and it may use them |
| FindShutdown.EveryWorkerCanBeJoined | src/libpplmeengine/pplme_matching_ppl_provider.cc:60-68 | once the pool has been told to die, all workers can be brought to their end |
| FindShutdown.StuckMeansJoined | src/libpplmeengine/pplme_matching_ppl_provider.cc:60-110 | a schedule that cannot go on after that has ended every worker, and the finds that are not back are those with a worklette left in the queue |
| FindShutdown.EndAfterFinds | src/libpplmeengine/pplme_matching_ppl_provider.cc:60-68 | a pool that ends when all finds are back has all its workers joined and nothing left in its queue |
| FindShutdown.DoomedForever | src/libpplmeengine/pplme_matching_ppl_provider.cc:60-189 | a find whose worklette is in a dying pool's queue, or about to go there, never comes back |
| FindShutdown.SafeForGood | src/libpplmeengine/pplme_matching_ppl_provider.cc:60-413 | a find that a dying pool cannot strand stays so, and queues nothing any more |
| FindShutdown.BackExactlyUnlessStranded | src/libpplmeengine/pplme_matching_ppl_provider.cc:60-413 | when the pool has been told to die, a find comes back in every schedule that cannot go on if and only if it is not doomed and cannot make another offer before it has enough people |
| FindShutdown.EndDuringFind | src/libpplmeengine/pplme_matching_ppl_provider.cc:60-386 | a pool told to die right after a find's first offer dooms that find |
| Provider.FinderRunsSqiral | src/libpplmeengine/pplme_matching_ppl_provider.cc:169-172 | the only trace that meets Sqiral's contract with the answers a finder got is the cells it offered |
| Provider.RunSqiral | src/libpplmeengine/pplme_matching_ppl_provider.cc:169-172 | Sqiral, run with a callback that gives the answers a finder got, offers just its cells and gives its answer |
| Provider.ScanCell | src/libpplmeengine/pplme_matching_ppl_provider.cc:404-435 | the grid's scan on the day it happens is what the protocol's worker finds |
| Provider.WhoIsWanted | src/libpplmeengine/pplme_matching_ppl_provider.cc:416-435 | a request wants exactly those born between the days that many years before the day of the scan, and everybody of a similar age |
| Provider.SearchStartsWithUser | src/libpplmeengine/pplme_matching_ppl_provider.cc:169-169 | the first cell offered is the one that the user's position lies in |
| Provider.WantedOnOneDay | src/libpplmeengine/pplme_matching_ppl_provider.cc:416-435 | while the date stays the same, the people wanted are those born within one window |
| Provider.SweepFindsEverybody | src/libpplmeengine/pplme_matching_ppl_provider.cc:150-160 | an undisturbed sweep finds everybody born within the window of their cell, as often as they were added |
| Provider.ConcurrentFindIsFilter | src/libpplmeengine/pplme_matching_ppl_provider.cc:150-189 | for any people, finds, schedule and passing of days, a result is part of the people wanted, of size min(maximum, their number), and all of them if they fit |
| Provider.ProviderReturns | src/libpplmeengine/pplme_matching_ppl_provider.cc:123-189 | a provider's find can return if and only if it has workers and may use them |
| Provider.WhatCanBeBuilt | src/libpplmeengine/pplme_matching_ppl_provider.cc:123-142 | exactly which arguments pass the constructor's CHECKs |
| Provider.BuiltProviderReturns | src/libpplmeengine/pplme_matching_ppl_provider.cc:123-142 | if the constructor's CHECKs pass, a find can return if and only if the hardware concurrency is not zero |
| Provider.BuiltProviderFinds | src/libpplmeengine/pplme_matching_ppl_provider.cc:123-189 | a find returns people wanted, as many as the maximum given to the constructor allows |
| Provider.BuiltProviderConcurrency | src/libpplmeengine/pplme_matching_ppl_provider.cc:123-142 | a find never has more cells pending than the constructor was told, or the hardware's number if nothing, and has exactly as many while its finder waits to offer; there are as many workers as the hardware's number |
| Provider.BuiltProviderOrder | src/libpplmeengine/pplme_matching_ppl_provider.cc:123-189 | everybody wanted who lives strictly nearer to the user than a returned person comes before them, except in fewer cells than that concurrency |
| Provider.SequentialFindIsNearestFirst | src/libpplmeengine/pplme_matching_ppl_provider.cc:163-189 | with a concurrency of one people come nearest first, measured from the cell of the user's position, and are the first matches of the sweep |
| Provider.NearlyNearestFirst | src/libpplmeengine/pplme_matching_ppl_provider.cc:163-189 | with any concurrency, before a returned person come all people wanted in the cells that a sweep from the user's position offers before theirs, fewer than the concurrency of cells excepted |
| Provider.NearerComeEarlier | src/libpplmeengine/pplme_matching_ppl_provider.cc:181-184 | everybody wanted who lives strictly nearer to the user's position than a returned person comes before them, except in fewer cells than the concurrency |
| Rendezvous.ReachableInv | src/libpplmeengine/prototype_matching_ppl_provider.cc:201-281 | in every schedule the counter equals the worklettes outstanding, and with those handed in makes up all that were counted; and a finder that sleeps unnotified still has to |
| Rendezvous.ReturnsWhatWasHandedIn | src/libpplmeengine/prototype_matching_ppl_provider.cc:196-281 | the result is the bullseye plus exactly what was handed in before the pointer was cleared; what is missing is what was pending then, so nothing if nothing was, however the wait ended |
| Rendezvous.UntimedIsComplete | src/libpplmeengine/prototype_matching_ppl_provider.cc:266-278 | unless time runs out the finder leaves with nothing pending |
| Rendezvous.LateWorkIsIgnored | src/libpplmeengine/prototype_matching_ppl_provider.cc:223-277 | no late worklette changes a returned result |
| Rendezvous.LateWorkIsSkipped | src/libpplmeengine/prototype_matching_ppl_provider.cc:223-232 | no worklette begins to search its cell after the return |
| Rendezvous.TimeOutReturns | src/libpplmeengine/prototype_matching_ppl_provider.cc:266-281 | whenever the finder waits, one timeout brings it back with exactly what has been handed in |
| Rendezvous.ClockBringsBack | src/libpplmeengine/prototype_matching_ppl_provider.cc:211-281 | from every reachable state, with no worker's help, the finder and the clock bring the find back within two steps per nearby cell, and two |
| Rendezvous.WakesInVain | src/libpplmeengine/prototype_matching_ppl_provider.cc:269-275 | a finder that wakes too early goes back to sleep, and nothing has changed |
| Rendezvous.FinderBlockedOnly | src/libpplmeengine/prototype_matching_ppl_provider.cc:211-278 | the finder can step unless it is back or sleeps, and its sleep may end at any time |
| Rendezvous.WorkletteBlockedOnly | src/libpplmeengine/prototype_matching_ppl_provider.cc:87-150 | a queued worklette can start exactly while fewer are at work than there are threads, and those at work can go on |
| Rendezvous.AllWorkFinishes | src/libpplmeengine/prototype_matching_ppl_provider.cc:223-264 | given a worker thread, all worklettes finish in the end, late ones included, and the counter ends at zero |
| Rendezvous.ProgressWithoutClock | src/libpplmeengine/prototype_matching_ppl_provider.cc:211-278 | given a worker thread, until the finder is back some thread can step without the clock or a spurious wakeup |
| Rendezvous.ReturnsWithoutClock | src/libpplmeengine/prototype_matching_ppl_provider.cc:211-278 | given a worker thread, from every reachable state the finder can come back before time runs out |
| Rendezvous.InTimeExactlyWhenStaffed | src/libpplmeengine/prototype_matching_ppl_provider.cc:87-92 | a find can return before time runs out if and only if there are worker threads or no nearby cells |
| Rendezvous.NoWorkersNoNeighbours | src/libpplmeengine/prototype_matching_ppl_provider.cc:87-92 | without worker threads nobody hands in, and a find returns only its own cell's people with everything pending |
| Rendezvous.NoWorkersStillReturns | src/libpplmeengine/prototype_matching_ppl_provider.cc:266-281 | without worker threads a find does come back, when its time is up |
| Rendezvous.BoundedSteps | src/libpplmeengine/prototype_matching_ppl_provider.cc:211-281 | every schedule ends within six steps per nearby cell, and two, apart from two steps for each spurious wakeup |
| RowSweep.TooFarIsAQuarter | src/libpplmeengine/prototype_matching_ppl_provider.cc:392-399 | the two wrapped comparisons mean a distance of at least 90r |
| RowSweep.SweepEast | src/libpplmeengine/prototype_matching_ppl_provider.cc:434-438 | the eastward loop ends and lists the run of cells east of the user |
| RowSweep.SweepWest | src/libpplmeengine/prototype_matching_ppl_provider.cc:439-443 | the westward loop ends and lists the run of cells west of the user |
| RowSweep.GetNearbyCellsSameLatitude | src/libpplmeengine/prototype_matching_ppl_provider.cc:430-444 | the eastern run is appended, then the western |
| RowSweep.EastRunCells | src/libpplmeengine/prototype_matching_ppl_provider.cc:350-438 | exactly which cells are listed to the east, none of them reached by wrapping |
| RowSweep.WestRunCells | src/libpplmeengine/prototype_matching_ppl_provider.cc:359-443 | exactly which cells are listed to the west, none of them reached by wrapping |
| RowSweep.RowDistinct | src/libpplmeengine/prototype_matching_ppl_provider.cc:430-444 | both runs are shorter than 90r, and no cell, nor the user's own, is listed twice |
| RowSweep.EastListed | src/libpplmeengine/prototype_matching_ppl_provider.cc:350-438 | the eastern run is that part of the neighbourhood, going round the globe, that lies east on the row |
| RowSweep.WestListed | src/libpplmeengine/prototype_matching_ppl_provider.cc:359-443 | the western run is that part of the neighbourhood, going round the globe, that lies west on the row |
| RowSweep.CompleteExactlyWithinRow | src/libpplmeengine/prototype_matching_ppl_provider.cc:392-444 | every neighbour going round the globe is listed if and only if the neighbourhood ends within the row on both sides |
| RowSweep.NeighbourAcrossIsMissed | src/libpplmeengine/prototype_matching_ppl_provider.cc:359-444 | for all distance tests that do not call it too far, the user in the first column misses the next cell to the west |
| RowSweep.NeighbourAcrossIsMissedEast | src/libpplmeengine/prototype_matching_ppl_provider.cc:350-444 | likewise the user in the last column and the next cell to the east |
| Framing.HeaderRoundTrip | src/libpplmenet/message.h:38-49 | a length survives the header |
| Framing.HeaderRoundTripBack | src/libpplmenet/message.h:38-49 | a header is determined by its length |
| Framing.HeadersInOrderOfLength | src/libpplmenet/message.h:38-49 | network order: headers stand in the lexicographic order of their octets as their lengths do |
| Framing.MakeMessage | src/libpplmenet/message.h:63-67 | a message made from a body has it and says how long it is |
| Framing.Connection.SendMessage | src/libpplmenet/detail/connection.cc:32-51 | true exactly when the whole frame went out, and what went out otherwise |
| Framing.Connection.ReceiveMessage | src/libpplmenet/detail/connection.cc:54-85 | what one receive makes of the stream and leaves of it |
| Framing.ReceiveFrame | src/libpplmenet/detail/connection.cc:54-85 | a frame is received as sent if short enough, else only its header is consumed |
| Framing.ReceivePartialFrame | src/libpplmenet/detail/connection.cc:54-85 | less than a frame yields no message, and uses up the stream if the body is short enough |
| Framing.WholeFramesFit | src/libpplmenet/detail/connection.cc:32-51 | the messages counted as sent are exactly those whose frames end before the cut |
| Framing.CutStream | src/libpplmenet/detail/connection.cc:32-85 | wherever a stream of frames with short enough bodies is cut, receiving yields the messages sent wholly before the cut, and none after them |
| Framing.StreamRoundTrip | src/libpplmenet/detail/connection.cc:32-85 | any list of messages comes back whole, and the suffix stays, if and only if no body exceeds the maximum |

## Left out

- Geo.LocatorDefined: in float arithmetic the largest coordinates below 91 and 181 round up and fail the CHECK; `Geo.AcceptedHoweverRounded` is what holds there.
- PplCells.PplGrid.constructor: builds the grid only; the provider's other CHECKs are in `Provider.Configure`, its pool in `FindProtocol.Initial`.
- CriticalSections.NoddyWorkerPool.Destroy: does not join the workers; that they can be joined is `FindShutdown.EveryWorkerCanBeJoined`.
- Floating-point distances: the prototype's distance tests are arbitrary predicates, and its distance filter within a cell is not modelled.
- Calendar arithmetic: years before a date are an arbitrary function.
- Memory addresses and destruction: contexts are records of one state, so reuse of a freed context shows only as a job or lock that still refers to it.
- Threads: `FindMachine` runs the steps of a schedule one after another; that real threads interleave only at these steps is what the mutexes are for.
- FindShutdown.StuckMeansJoined: finders can still reach a pool that is dying, where the program has cleared the pointer to it.
- FindShutdown.DoomedForever: likewise; in the program the find that is about to queue a worklette would fail at once.
- The prototype's neighbourhood above and below the user's row, and its flat index, whose row stride makes cells share people.
- The prototype's queue: any queued worklette of a find may start when fewer of the find's own than there are workers are running, which includes first in, first out; worklettes of other finds, which could only delay it, are not there.
- `My1stMatchingPplProvider`, the server's thread registry, the slurper, the data generator, protocol-buffer conversions and the command lines.
- Sockets: a link is the octets it still takes and those still to be read; waiting for octets is not modelled.
