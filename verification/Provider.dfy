/** The whole provider: people are added to the grid, then any number of finds
    run Sqiral over it through the shared pool. */
module Provider {
  import opened Seqs
  import opened Geo
  import opened Sweep
  import opened PplCells
  import opened CriticalSections
  import opened FindProtocol
  import opened FindInvariant
  import opened FindSafety
  import opened FindResults
  import opened FindLiveness
  import opened FindShutdown

  /** Where the user is, and the dates of birth to look for.  Each scan asks
      for today's date, and no find scans a cell twice: so whatever the clock
      does during a find, the window is some function of the cell. */
  datatype Request = Request(location: Position, windowAt: Cell -> Window)

  ghost predicate RequestOk(r: Resolution, request: Request) {
    ToCellLocator(r, request.location).Some?
  }

  /** The user's cell. */
  function Origin(r: Resolution, request: Request): (c: Cell)
    requires RequestOk(r, request)
  {
    ToCellLocator(r, request.location).value
  }

  lemma OriginInGrid(r: Resolution, request: Request)
    requires RequestOk(r, request)
    ensures OnLattice(r, Origin(r, request)) && InGrid(r, Origin(r, request))
    ensures ToCellLocator(r, request.location) == Some(Origin(r, request))
  {
    LocatorOnLattice(r, request.location);
    LatticeBounds(r, Origin(r, request));
  }

  /** A search starts in the cell that the user is in. */
  lemma SearchStartsWithUser(r: Resolution, grid: seq<seq<Person>>, request: Request)
    requires |grid| == GridSize(r) && RequestOk(r, request)
    ensures var order := ToQuery(r, grid, request).order;
            order != [] && ToCellLocator(r, request.location) == Some(order[0])
  {
    OriginInGrid(r, request);
    SweepStartsAtOrigin(r, Origin(r, request));
  }

  /** What the scan of a cell yields. */
  function Scan(r: Resolution, grid: seq<seq<Person>>, request: Request, c: Cell): seq<Person>
    requires |grid| == GridSize(r)
  {
    var window := request.windowAt(c);
    if FlatIndex(r, c) < |grid| then BornWithin(grid[FlatIndex(r, c)], window.earliest, window.latest) else []
  }

  /** A worker's scan, on the day that it happens. */
  method ScanCell(grid: PplGrid, request: Request, c: Cell,
                  yearsBefore: Calendar, today: int, ageOfUser: int, maxAgeDifference: int)
    returns (ppl: seq<Person>)
    requires grid.Valid() && InGrid(grid.resolution, c)
    requires request.windowAt(c) == AgeWindow(yearsBefore, today, ageOfUser, maxAgeDifference)
    ensures ppl == Scan(grid.resolution, grid.cells[..], request, c)
  {
    FlatIndexInBounds(grid.resolution, c);
    ppl := grid.FindMatchingPpl(c, yearsBefore, today, ageOfUser, maxAgeDifference);
  }

  function ToQuery(r: Resolution, grid: seq<seq<Person>>, request: Request): Query
    requires |grid| == GridSize(r) && RequestOk(r, request)
  {
    OriginInGrid(r, request);
    var order := FullSweep(r, Origin(r, request));
    Query(order, map c | c in order :: Scan(r, grid, request, c))
  }

  datatype Settings = Settings(maxPpl: nat, concurrency: nat, workerCount: nat)

  /** The settings of a new provider: a concurrency left open is the hardware's,
      which the standard library may give as zero, as is the number of workers.
      None stands for a failing CHECK or cast. */
  function Configure(resolution: int, maxAgeDifference: int, maxPpl: int, concurrency: Option<int>, hardware: nat)
    : Option<Settings>
  {
    if resolution > 100 || maxAgeDifference < 0 || maxPpl <= 0 || (concurrency.Some? && concurrency.value <= 0)
    then None
    else Some(Settings(maxPpl, if concurrency.Some? then concurrency.value else hardware, hardware))
  }

  ghost predicate ProviderOk(r: Resolution, grid: seq<seq<Person>>, people: seq<Person>, requests: seq<Request>,
                             settings: Settings)
  {
    && GridHolds(r, grid, people)
    && (forall i :: 0 <= i < |requests| ==> RequestOk(r, requests[i]))
    && settings.maxPpl > 0
  }

  ghost function ToConfig(r: Resolution, grid: seq<seq<Person>>, people: seq<Person>, requests: seq<Request>,
                          settings: Settings): Config
    requires ProviderOk(r, grid, people, requests, settings)
  {
    Config(seq(|requests|, i requires 0 <= i < |requests| => ToQuery(r, grid, requests[i])),
           settings.maxPpl, settings.concurrency, settings.workerCount)
  }

  lemma ConfigIsOk(r: Resolution, grid: seq<seq<Person>>, people: seq<Person>, requests: seq<Request>,
                   settings: Settings)
    requires ProviderOk(r, grid, people, requests, settings)
    ensures ConfigOk(ToConfig(r, grid, people, requests, settings))
  {
    forall q | q in ToConfig(r, grid, people, requests, settings).queries
      ensures QueryOk(q)
    {
      var i :| 0 <= i < |requests| && q == ToQuery(r, grid, requests[i]);
      OriginInGrid(r, requests[i]);
      SweepOrder(r, Origin(r, requests[i]));
    }
  }

  lemma ConfigParts(r: Resolution, grid: seq<seq<Person>>, people: seq<Person>, requests: seq<Request>,
                    settings: Settings, f: nat)
    requires ProviderOk(r, grid, people, requests, settings) && f < |requests|
    ensures RequestOk(r, requests[f]) && GridHolds(r, grid, people) && InGrid(r, Origin(r, requests[f]))
    ensures var cfg := ToConfig(r, grid, people, requests, settings);
            && ConfigOk(cfg) && |cfg.queries| == |requests| && cfg.queries[f] == ToQuery(r, grid, requests[f])
            && cfg.maxPpl == settings.maxPpl && cfg.concurrency == settings.concurrency
    ensures ToQuery(r, grid, requests[f]).order == FullSweep(r, Origin(r, requests[f]))
  {
    ConfigIsOk(r, grid, people, requests, settings);
    hide ConfigOk, GridHolds, FullSweep, InGrid, Scan;
    OriginInGrid(r, requests[f]);
  }

  // ---- The finder is Sqiral ------------------------------------------------

  /** The callback's answers are those that the protocol's finder got. */
  ghost predicate AnswersAs(fun: seq<Cell> -> bool, order: seq<Cell>, answers: seq<bool>) {
    && |answers| <= |order|
    && forall n :: 0 < n <= |answers| ==> fun(order[..n]) == answers[n - 1]
  }

  /** At most one trace meets Sqiral's specification for given answers. */
  lemma SqiralTraceIs(order: seq<Cell>, answers: seq<bool>, fun: seq<Cell> -> bool, done: bool, trace: seq<Cell>)
    requires AnswersAs(fun, order, answers)
    requires forall i :: 0 <= i < |answers| - 1 ==> !answers[i]
    requires |answers| == |order| || (answers != [] && answers[|answers| - 1])
    requires trace <= order && (!done ==> trace == order)
    requires done <==> trace != [] && fun(trace)
    requires forall n :: 0 < n < |trace| ==> !fun(trace[..n])
    ensures trace == order[..|answers|]
    ensures done <==> answers != [] && answers[|answers| - 1]
  {
    var n, m := |answers|, |trace|;
    assert trace == order[..m];
    assert 0 < n ==> fun(order[..n]) == answers[n - 1];
    assert 0 < m <= n ==> fun(order[..m]) == answers[m - 1];
    assert forall k :: 0 <= k <= m ==> trace[..k] == order[..k];
  }

  /** Whatever answers a schedule brings about: once a finder is through with
      its sweep, it has offered exactly the cells that Sqiral, given these
      answers, passes to its callback. */
  lemma FinderRunsSqiral(cfg: Config, schedule: seq<Action>, f: nat,
                         fun: seq<Cell> -> bool, done: bool, trace: seq<Cell>)
    requires ConfigOk(cfg) && Execute(cfg, schedule).Some? && f < |cfg.queries|
    requires f < |Execute(cfg, schedule).value.finds| && !Sweeping(Execute(cfg, schedule).value.finds[f].pc)
    requires var order := cfg.queries[f].order;
             && AnswersAs(fun, order, Execute(cfg, schedule).value.finds[f].answers)
             && trace <= order && (!done ==> trace == order)
    requires done <==> trace != [] && fun(trace)
    requires forall n :: 0 < n < |trace| ==> !fun(trace[..n])
    ensures var find := Execute(cfg, schedule).value.finds[f];
            && find.next <= |cfg.queries[f].order| && trace == cfg.queries[f].order[..find.next]
            && (done <==> find.next > 0 && find.ctx.done)
  {
    hide Inv, Execute;
    var find := Execute(cfg, schedule).value.finds[f];
    ReachableInv(cfg, schedule);
    AnswersKept(cfg, Execute(cfg, schedule).value, f);
    SqiralTraceIs(cfg.queries[f].order, find.answers, fun, done, trace);
  }

  /** Sqiral itself, called with such a callback: it makes the finder's calls
      and gives its answer. */
  method RunSqiral(r: Resolution, origin: Cell, fun: seq<Cell> -> bool,
                   ghost cfg: Config, ghost schedule: seq<Action>, ghost f: nat)
    returns (done: bool, trace: seq<Cell>)
    requires InGrid(r, origin) && ConfigOk(cfg) && f < |cfg.queries| && cfg.queries[f].order == FullSweep(r, origin)
    requires Execute(cfg, schedule).Some? && f < |Execute(cfg, schedule).value.finds|
    requires !Sweeping(Execute(cfg, schedule).value.finds[f].pc)
    requires AnswersAs(fun, cfg.queries[f].order, Execute(cfg, schedule).value.finds[f].answers)
    ensures var find := Execute(cfg, schedule).value.finds[f];
            && find.next <= |cfg.queries[f].order| && trace == cfg.queries[f].order[..find.next]
            && (done <==> find.next > 0 && find.ctx.done)
  {
    done, trace := Sqiral(r, origin, fun);
    FinderRunsSqiral(cfg, schedule, f, fun, done, trace);
  }

  lemma AnswersKept(cfg: Config, s: State, f: nat)
    requires Inv(cfg, s) && f < |s.finds|
    ensures f < |cfg.queries| && AnswersOk(cfg.queries[f], s.finds[f])
  {
    assert FindOk(cfg, cfg.queries[f], s.finds[f]);
  }

  // ---- A whole sweep finds everybody once -----------------------------------

  lemma {:induction false} LivingAtCounts(r: Resolution, people: seq<Person>, index: nat, p: Person)
    ensures multiset(LivingAt(r, people, index))[p]
         == if HomeIndex(r, p) == Some(index) then multiset(people)[p] else 0
  {
    if people != [] {
      var init, last := people[..|people| - 1], people[|people| - 1];
      assert people == init + [last];
      LivingAtCounts(r, init, index, p);
    }
  }

  /** Born within the window of the cell that they live in. */
  predicate IsWanted(r: Resolution, request: Request, p: Person) {
    match ToCellLocator(r, p.home)
    case Some(c) => request.windowAt(c).earliest <= p.dob <= request.windowAt(c).latest
    case None => false
  }

  /** Everybody a search should find. */
  function Wanted(r: Resolution, people: seq<Person>, request: Request): seq<Person> {
    if people == [] then []
    else
      var init, last := Wanted(r, people[..|people| - 1], request), people[|people| - 1];
      if IsWanted(r, request, last) then init + [last] else init
  }

  lemma {:induction false} WantedCounts(r: Resolution, people: seq<Person>, request: Request, p: Person)
    ensures multiset(Wanted(r, people, request))[p] == if IsWanted(r, request, p) then multiset(people)[p] else 0
  {
    if people != [] {
      var init, last := people[..|people| - 1], people[|people| - 1];
      assert people == init + [last];
      hide IsWanted;
      WantedCounts(r, init, request, p);
    }
  }

  /** While the date does not change, that is everybody born within one
      window. */
  lemma {:induction false} WantedOnOneDay(r: Resolution, people: seq<Person>, request: Request, window: Window)
    requires forall p :: p in people ==> HomeIndex(r, p).Some?
    requires forall c :: request.windowAt(c) == window
    ensures Wanted(r, people, request) == BornWithin(people, window.earliest, window.latest)
  {
    if people != [] {
      var init, last := people[..|people| - 1], people[|people| - 1];
      assert people == init + [last];
      assert last in people;
      WantedOnOneDay(r, init, request, window);
    }
  }

  /** How often a person turns up in the scan of a cell. */
  lemma ScanCounts(r: Resolution, grid: seq<seq<Person>>, people: seq<Person>, request: Request, c: Cell, p: Person)
    requires GridHolds(r, grid, people) && InGrid(r, c)
    ensures multiset(Scan(r, grid, request, c))[p]
         == if ToCellLocator(r, p.home) == Some(c) && IsWanted(r, request, p) then multiset(people)[p] else 0
  {
    FlatIndexInBounds(r, c);
    var i, window := FlatIndex(r, c), request.windowAt(c);
    assert StablySorted(grid[i], LivingAt(r, people, i));
    BornWithinMembers(grid[i], window.earliest, window.latest, p);
    LivingAtCounts(r, people, i, p);
    HomeIndexIsCell(r, p, c);
  }

  /** Only people of the cell itself share its flat index. */
  lemma HomeIndexIsCell(r: Resolution, p: Person, c: Cell)
    requires InGrid(r, c)
    ensures HomeIndex(r, p) == Some(FlatIndex(r, c)) <==> ToCellLocator(r, p.home) == Some(c)
  {
    if HomeIndex(r, p) == Some(FlatIndex(r, c)) {
      var home := ToCellLocator(r, p.home).value;
      LocatorOnLattice(r, p.home);
      LatticeBounds(r, home);
      FlatIndexInjective(r, home, c);
    }
  }

  /** If only one of distinct cells holds p, gathering them all yields p as
      often as that cell does. */
  lemma {:induction false} GatherCounts(q: Query, cells: seq<Cell>, p: Person, home: Cell, n: nat)
    requires Distinct(cells)
    requires forall c :: c in cells ==> multiset(Part(q.matches, c))[p] == if c == home then n else 0
    ensures multiset(Gather(q.matches, cells))[p] == if home in cells then n else 0
  {
    if cells != [] {
      var init, last := cells[..|cells| - 1], cells[|cells| - 1];
      assert cells == init + [last];
      assert last !in init && last in cells;
      assert Gather(q.matches, cells) == Gather(q.matches, init) + Part(q.matches, last);
      GatherCounts(q, init, p, home, n);
    }
  }

  lemma GatherNone(q: Query, cells: seq<Cell>, p: Person)
    requires Distinct(cells)
    requires forall c :: c in cells ==> multiset(Part(q.matches, c))[p] == 0
    ensures multiset(Gather(q.matches, cells))[p] == 0
  {
    GatherCounts(q, cells, p, Cell(0, 0), 0);
  }

  lemma QueryScans(r: Resolution, grid: seq<seq<Person>>, request: Request, c: Cell)
    requires |grid| == GridSize(r) && RequestOk(r, request)
    requires c in ToQuery(r, grid, request).order
    ensures InGrid(r, c)
    ensures Part(ToQuery(r, grid, request).matches, c) == Scan(r, grid, request, c)
  {
    OriginInGrid(r, request);
    SweepCells(r, Origin(r, request), c);
  }

  lemma SweepFindsPerson(r: Resolution, grid: seq<seq<Person>>, people: seq<Person>, request: Request, p: Person)
    requires GridHolds(r, grid, people) && RequestOk(r, request)
    ensures var q := ToQuery(r, grid, request);
            multiset(Gather(q.matches, q.order))[p] == multiset(Wanted(r, people, request))[p]
  {
    var q, origin := ToQuery(r, grid, request), Origin(r, request);
    OriginInGrid(r, request);
    SweepOrder(r, origin);
    WantedCounts(r, people, request, p);
    hide FullSweep, InGrid;
    forall c | c in q.order
      ensures multiset(Part(q.matches, c))[p]
           == if ToCellLocator(r, p.home) == Some(c) then multiset(Wanted(r, people, request))[p] else 0
    {
      QueryScans(r, grid, request, c);
      ScanCounts(r, grid, people, request, c, p);
    }
    if ToCellLocator(r, p.home).Some? {
      var home := ToCellLocator(r, p.home).value;
      LocatorOnLattice(r, p.home);
      SweepCoversLattice(r, origin, home);
      GatherCounts(q, q.order, p, home, multiset(Wanted(r, people, request))[p]);
    } else {
      GatherNone(q, q.order, p);
    }
  }

  /** An undisturbed sweep finds exactly the people wanted, each as often as
      they were added. */
  lemma SweepFindsEverybody(r: Resolution, grid: seq<seq<Person>>, people: seq<Person>, request: Request)
    requires GridHolds(r, grid, people) && RequestOk(r, request)
    ensures var q := ToQuery(r, grid, request);
            multiset(Gather(q.matches, q.order)) == multiset(Wanted(r, people, request))
  {
    assert |grid| == GridSize(r);
    hide GridHolds, ToQuery, RequestOk;
    forall p: Person
      ensures var q := ToQuery(r, grid, request);
              multiset(Gather(q.matches, q.order))[p] == multiset(Wanted(r, people, request))[p]
    {
      SweepFindsPerson(r, grid, people, request, p);
    }
  }

  // ---- End to end ------------------------------------------------------------

  /** For any people added, any number of finds at once, and any schedule of
      their threads: a find that returns has found people it wants, nobody
      too often, and as many as there are up to the maximum. */
  lemma ConcurrentFindIsFilter(r: Resolution, grid: seq<seq<Person>>, people: seq<Person>, requests: seq<Request>,
                               settings: Settings, schedule: seq<Action>, f: nat, result: seq<Person>)
    requires ProviderOk(r, grid, people, requests, settings) && f < |requests|
    requires Returns(ToConfig(r, grid, people, requests, settings), schedule, f, result)
    ensures var wanted := Wanted(r, people, requests[f]);
            && multiset(result) <= multiset(wanted)
            && |result| == Min(settings.maxPpl, |wanted|)
            && (|wanted| <= settings.maxPpl ==> multiset(result) == multiset(wanted))
  {
    var cfg := ToConfig(r, grid, people, requests, settings);
    var q := ToQuery(r, grid, requests[f]);
    var wanted := Wanted(r, people, requests[f]);
    ConfigParts(r, grid, people, requests, settings, f);
    hide ToConfig, ProviderOk, ToQuery, ConfigOk, GridHolds, RequestOk, Returns;
    FindReturnsMatches(cfg, schedule, f, result);
    SweepFindsEverybody(r, grid, people, requests[f]);
    SameSize(Gather(q.matches, q.order), wanted);
    EqualWhenFull(result, wanted);
  }

  lemma SameSize(a: seq<Person>, b: seq<Person>)
    requires multiset(a) == multiset(b)
    ensures |a| == |b|
  {
    assert |a| == |multiset(a)| && |b| == |multiset(b)|;
  }

  lemma EqualWhenFull(a: seq<Person>, b: seq<Person>)
    requires multiset(a) <= multiset(b)
    ensures |a| == |b| ==> multiset(a) == multiset(b)
  {
    var rest := multiset(b) - multiset(a);
    assert multiset(b) == multiset(a) + rest;
    assert |multiset(a)| == |a| && |multiset(b)| == |b|;
    assert |rest| == 0 ==> rest == multiset{};
  }

  /** A provider's find can return if and only if it has workers and is
      allowed to use them. */
  lemma ProviderReturns(r: Resolution, grid: seq<seq<Person>>, people: seq<Person>, requests: seq<Request>,
                        settings: Settings, f: nat)
    requires ProviderOk(r, grid, people, requests, settings) && f < |requests|
    ensures SomeScheduleReturns(ToConfig(r, grid, people, requests, settings), f)
       <==> settings.concurrency > 0 && settings.workerCount > 0
  {
    var cfg := ToConfig(r, grid, people, requests, settings);
    var origin := Origin(r, requests[f]);
    ConfigIsOk(r, grid, people, requests, settings);
    OriginInGrid(r, requests[f]);
    SweepCells(r, origin, origin);
    assert cfg.queries[f].order == FullSweep(r, origin) && origin in FullSweep(r, origin);
    ReturnsExactlyWhenStaffed(cfg, f);
  }

  /** A provider built with these arguments, running these finds. */
  datatype Built = Built(r: Resolution, maxAgeDifference: int, maxPpl: int, concurrency: Option<int>, hardware: nat,
                         grid: seq<seq<Person>>, people: seq<Person>, requests: seq<Request>)

  ghost predicate BuiltOk(p: Built) {
    var settings := Configure(p.r, p.maxAgeDifference, p.maxPpl, p.concurrency, p.hardware);
    settings.Some? && ProviderOk(p.r, p.grid, p.people, p.requests, settings.value)
  }

  ghost function BuiltConfig(p: Built): Config
    requires BuiltOk(p)
  {
    ToConfig(p.r, p.grid, p.people, p.requests,
             Configure(p.r, p.maxAgeDifference, p.maxPpl, p.concurrency, p.hardware).value)
  }

  /** Which arguments pass the constructor's CHECKs. */
  lemma WhatCanBeBuilt(p: Built)
    requires GridHolds(p.r, p.grid, p.people)
    requires forall i :: 0 <= i < |p.requests| ==> RequestOk(p.r, p.requests[i])
    ensures BuiltOk(p)
       <==> p.r <= 100 && p.maxAgeDifference >= 0 && p.maxPpl > 0
            && (p.concurrency.Some? ==> p.concurrency.value > 0)
  {
  }

  /** A provider that passes its CHECKs can bring a find back if and only if
      the hardware concurrency is known. */
  lemma BuiltProviderReturns(p: Built, f: nat)
    requires BuiltOk(p) && f < |p.requests|
    ensures SomeScheduleReturns(BuiltConfig(p), f) <==> p.hardware > 0
  {
    var settings := Configure(p.r, p.maxAgeDifference, p.maxPpl, p.concurrency, p.hardware).value;
    ProviderReturns(p.r, p.grid, p.people, p.requests, settings, f);
  }

  /** It returns as many of the people wanted as the maximum it was built
      with allows. */
  lemma BuiltProviderFinds(p: Built, schedule: seq<Action>, f: nat, result: seq<Person>)
    requires BuiltOk(p) && f < |p.requests| && Returns(BuiltConfig(p), schedule, f, result)
    ensures p.maxPpl > 0
    ensures var wanted := Wanted(p.r, p.people, p.requests[f]);
            multiset(result) <= multiset(wanted) && |result| == Min(p.maxPpl, |wanted|)
  {
    var settings := Configure(p.r, p.maxAgeDifference, p.maxPpl, p.concurrency, p.hardware).value;
    assert settings.maxPpl == p.maxPpl;
    hide Returns, Configure, ProviderOk, ToConfig;
    ConcurrentFindIsFilter(p.r, p.grid, p.people, p.requests, settings, schedule, f, result);
  }

  /** It never has more cells in flight for a find than it was told, or than
      the hardware has threads if it was not; and while a finder waits to offer
      the next it has exactly as many. */
  lemma BuiltProviderConcurrency(p: Built, schedule: seq<Action>, f: nat)
    requires BuiltOk(p) && f < |p.requests| && Execute(BuiltConfig(p), schedule).Some?
    ensures var s := Execute(BuiltConfig(p), schedule).value;
            var allowed := if p.concurrency.Some? then p.concurrency.value else p.hardware;
            && f < |s.finds| && |s.finds[f].ctx.pending| <= allowed && |s.workers| == p.hardware
            && (s.finds[f].pc == Waiting(AtOffer, false) ==> |s.finds[f].ctx.pending| == allowed)
  {
    var settings := Configure(p.r, p.maxAgeDifference, p.maxPpl, p.concurrency, p.hardware).value;
    var cfg, s := BuiltConfig(p), Execute(BuiltConfig(p), schedule).value;
    ConfigParts(p.r, p.grid, p.people, p.requests, settings, f);
    assert cfg.workerCount == p.hardware && |cfg.queries| == |p.requests|;
    assert cfg.concurrency == if p.concurrency.Some? then p.concurrency.value else p.hardware;
    hide BuiltOk, BuiltConfig, Configure, ToConfig, ProviderOk, ToQuery, ConfigOk, GridHolds, RequestOk, Execute;
    ReachableInv(cfg, schedule);
    InvShape(cfg, s);
    hide Inv;
    PendingBound(cfg, s, f);
    if s.finds[f].pc == Waiting(AtOffer, false) {
      WaitsOnlyWhenFull(cfg, schedule, f);
    }
  }

  // ---- Nearest first ----------------------------------------------------------

  /** How far a person's cell is from the user's. */
  ghost function HomeDistance(r: Resolution, origin: Cell, p: Person): int {
    match ToCellLocator(r, p.home)
    case Some(c) => CellDistance(r, origin, c)
    case None => 0
  }

  ghost predicate NearestFirst(r: Resolution, origin: Cell, people: seq<Person>) {
    forall i, j :: 0 <= i < j < |people| ==> HomeDistance(r, origin, people[i]) <= HomeDistance(r, origin, people[j])
  }

  lemma ScannedLiveThere(r: Resolution, grid: seq<seq<Person>>, people: seq<Person>, request: Request,
                         c: Cell, p: Person)
    requires GridHolds(r, grid, people) && InGrid(r, c) && p in Scan(r, grid, request, c)
    ensures ToCellLocator(r, p.home) == Some(c)
  {
    ScanCounts(r, grid, people, request, c, p);
  }

  /** Everybody there lives in one of the first n cells. */
  ghost predicate LiveAmong(r: Resolution, people: seq<Person>, order: seq<Cell>, n: nat)
    requires n <= |order|
  {
    forall p :: p in people ==> exists i :: 0 <= i < n && ToCellLocator(r, p.home) == Some(order[i])
  }

  /** What is found in a cell lives there. */
  ghost predicate MatchesLiveThere(r: Resolution, q: Query) {
    forall c, p :: c in q.order && p in Part(q.matches, c) ==> ToCellLocator(r, p.home) == Some(c)
  }

  ghost predicate OffersNearestFirst(r: Resolution, origin: Cell, order: seq<Cell>) {
    forall i, j :: 0 <= i < j < |order| ==> CellDistance(r, origin, order[i]) <= CellDistance(r, origin, order[j])
  }

  lemma {:induction false} GatherNearestFirst(r: Resolution, origin: Cell, q: Query, n: nat)
    requires n <= |q.order| && MatchesLiveThere(r, q) && OffersNearestFirst(r, origin, q.order)
    ensures NearestFirst(r, origin, Gather(q.matches, q.order[..n]))
    ensures LiveAmong(r, Gather(q.matches, q.order[..n]), q.order, n)
  {
    if n > 0 {
      var last := q.order[n - 1];
      var before, now := Gather(q.matches, q.order[..n - 1]), Part(q.matches, last);
      assert q.order[..n] == q.order[..n - 1] + [last];
      GatherAppend(q.matches, q.order[..n - 1], last);
      assert forall p :: p in now ==> ToCellLocator(r, p.home) == Some(last);
      hide Gather, NearestFirst, OffersNearestFirst, MatchesLiveThere, ToCellLocator, Part;
      GatherNearestFirst(r, origin, q, n - 1);
      AppendNearest(r, origin, q.order, before, now, n);
    }
  }

  lemma QueryIsNearestFirst(r: Resolution, grid: seq<seq<Person>>, people: seq<Person>, request: Request)
    requires GridHolds(r, grid, people) && RequestOk(r, request)
    ensures MatchesLiveThere(r, ToQuery(r, grid, request))
    ensures OffersNearestFirst(r, Origin(r, request), ToQuery(r, grid, request).order)
  {
    var q := ToQuery(r, grid, request);
    OriginInGrid(r, request);
    SweepOrder(r, Origin(r, request));
    forall c, p | c in q.order && p in Part(q.matches, c)
      ensures ToCellLocator(r, p.home) == Some(c)
    {
      QueryScans(r, grid, request, c);
      ScannedLiveThere(r, grid, people, request, c, p);
    }
  }

  lemma AppendNearest(r: Resolution, origin: Cell, order: seq<Cell>, before: seq<Person>, now: seq<Person>, n: nat)
    requires 0 < n <= |order| && NearestFirst(r, origin, before)
    requires OffersNearestFirst(r, origin, order)
    requires LiveAmong(r, before, order, n - 1)
    requires forall p :: p in now ==> ToCellLocator(r, p.home) == Some(order[n - 1])
    ensures NearestFirst(r, origin, before + now) && LiveAmong(r, before + now, order, n)
  {
    hide CellDistance, ToCellLocator;
    forall p | p in before
      ensures HomeDistance(r, origin, p) <= CellDistance(r, origin, order[n - 1])
    {
      var i :| 0 <= i < n - 1 && ToCellLocator(r, p.home) == Some(order[i]);
    }
    forall i, j | 0 <= i < j < |before + now|
      ensures HomeDistance(r, origin, (before + now)[i]) <= HomeDistance(r, origin, (before + now)[j])
    {
      assert i < |before| ==> (before + now)[i] in before;
      assert i >= |before| ==> (before + now)[i] in now;
      assert j >= |before| ==> (before + now)[j] in now;
    }
  }

  lemma FirstAreNearest(r: Resolution, origin: Cell, people: seq<Person>, n: nat)
    requires NearestFirst(r, origin, people) && n <= |people|
    ensures NearestFirst(r, origin, people[..n])
  {
  }

  /** With a concurrency of one, whatever the schedule, the result is the
      first maxPpl matches of the sweep, nearest cells first. */
  lemma SequentialFindIsNearestFirst(r: Resolution, grid: seq<seq<Person>>, people: seq<Person>,
                                     requests: seq<Request>, settings: Settings, schedule: seq<Action>, f: nat,
                                     result: seq<Person>)
    requires ProviderOk(r, grid, people, requests, settings) && f < |requests| && settings.concurrency == 1
    requires Returns(ToConfig(r, grid, people, requests, settings), schedule, f, result)
    ensures var user := ToCellLocator(r, requests[f].location);
            user.Some? && NearestFirst(r, user.value, result)
    ensures RequestOk(r, requests[f])
    ensures var q := ToQuery(r, grid, requests[f]);
            var all := Gather(q.matches, q.order);
            result == all[..Min(settings.maxPpl, |all|)]
  {
    ConfigParts(r, grid, people, requests, settings, f);
    var cfg := ToConfig(r, grid, people, requests, settings);
    var q := ToQuery(r, grid, requests[f]);
    OriginInGrid(r, requests[f]);
    hide ToConfig, ProviderOk, ToQuery, ConfigOk, GridHolds, RequestOk, Returns, NearestFirst, Origin, ToCellLocator;
    OneAtATimeIsExact(cfg, schedule, f, result);
    QueryIsNearestFirst(r, grid, people, requests[f]);
    GatherNearestFirst(r, Origin(r, requests[f]), q, |q.order|);
    assert q.order[..|q.order|] == q.order;
    var all := Gather(q.matches, q.order);
    FirstAreNearest(r, Origin(r, requests[f]), all, Min(settings.maxPpl, |all|));
  }

  predicate LivesIn(r: Resolution, p: Person, c: Cell) {
    ToCellLocator(r, p.home) == Some(c)
  }

  lemma {:induction false} GatherNoFewer(q: Query, found: seq<Cell>, b: Cell, p: Person)
    requires b in found
    ensures multiset(Part(q.matches, b))[p] <= multiset(Gather(q.matches, found))[p]
  {
    var init, last := found[..|found| - 1], found[|found| - 1];
    assert found == init + [last];
    if b != last {
      GatherNoFewer(q, init, b, p);
    }
  }

  lemma PrefixCount(a: seq<Person>, b: seq<Person>, p: Person)
    requires a <= b
    ensures multiset(a)[p] <= multiset(b)[p]
  {
    assert b == a + b[|a|..];
  }

  lemma PrecedesIsOffered(order: seq<Cell>, b: Cell, c: Cell)
    requires Precedes(order, b, c)
    ensures b in order
  {
  }

  /** Everybody wanted in a cell is found when that cell is. */
  lemma FoundWithCell(r: Resolution, grid: seq<seq<Person>>, people: seq<Person>, request: Request,
                      found: seq<Cell>, b: Cell, p: Person)
    requires GridHolds(r, grid, people) && RequestOk(r, request) && LivesIn(r, p, b)
    requires b in ToQuery(r, grid, request).order && b in found
    ensures multiset(Wanted(r, people, request))[p]
         <= multiset(Gather(ToQuery(r, grid, request).matches, found))[p]
  {
    var q := ToQuery(r, grid, request);
    QueryScans(r, grid, request, b);
    ScanCounts(r, grid, people, request, b, p);
    WantedCounts(r, people, request, p);
    GatherNoFewer(q, found, b, p);
  }

  /** Before the i-th person come those of the people wanted who live in the
      given cells, except for the late ones. */
  ghost predicate ComesAfter(r: Resolution, wanted: seq<Person>, result: seq<Person>, i: nat,
                             earlier: Cell -> bool, late: set<Cell>)
    requires i < |result|
  {
    forall p, b :: LivesIn(r, p, b) && earlier(b) && b !in late ==> multiset(wanted)[p] <= multiset(result[..i])[p]
  }

  lemma FoundAfterWanted(r: Resolution, grid: seq<seq<Person>>, people: seq<Person>, request: Request,
                         result: seq<Person>, i: nat, found: seq<Cell>, c: Cell, late: set<Cell>)
    requires GridHolds(r, grid, people) && RequestOk(r, request) && i < |result|
    requires FoundAfter(ToQuery(r, grid, request), result, i, found, c, late)
    ensures LivesIn(r, result[i], c)
    ensures ComesAfter(r, Wanted(r, people, request), result, i,
                       b => Precedes(ToQuery(r, grid, request).order, b, c), late)
  {
    var q := ToQuery(r, grid, request);
    QueryScans(r, grid, request, c);
    ScannedLiveThere(r, grid, people, request, c, result[i]);
    hide ToQuery, RequestOk, GridHolds, Precedes, Gather, Scan;
    forall p, b | LivesIn(r, p, b) && Precedes(q.order, b, c) && b !in late
      ensures multiset(Wanted(r, people, request))[p] <= multiset(result[..i])[p]
    {
      PrecedesIsOffered(q.order, b, c);
      FoundWithCell(r, grid, people, request, found, b, p);
      PrefixCount(Gather(q.matches, found), result[..i], p);
    }
  }

  /** With any concurrency, nearly nearest first: before a returned person who
      lives in cell c, the result has everybody wanted in the cells that
      Sqiral offers before c, fewer than the concurrency of cells excepted. */
  lemma NearlyNearestFirst(r: Resolution, grid: seq<seq<Person>>, people: seq<Person>, requests: seq<Request>,
                           settings: Settings, schedule: seq<Action>, f: nat, result: seq<Person>, i: nat)
    returns (c: Cell, late: set<Cell>)
    requires ProviderOk(r, grid, people, requests, settings) && f < |requests| && i < |result|
    requires Returns(ToConfig(r, grid, people, requests, settings), schedule, f, result)
    ensures LivesIn(r, result[i], c)
    ensures var user := ToCellLocator(r, requests[f].location);
            && user.Some? && InGrid(r, user.value)
            && ComesAfter(r, Wanted(r, people, requests[f]), result, i,
                          b => Precedes(FullSweep(r, user.value), b, c), late)
    ensures |late| < settings.concurrency
  {
    ConfigParts(r, grid, people, requests, settings, f);
    OriginInGrid(r, requests[f]);
    var cfg := ToConfig(r, grid, people, requests, settings);
    hide ToConfig, ProviderOk, ToQuery, ConfigOk, GridHolds, RequestOk, ToCellLocator;
    hide InGrid, Returns, Origin, FullSweep, Precedes, FoundAfter;
    var found;
    found, c, late := FoundAfterEarlier(cfg, schedule, f, result, i);
    FoundAfterWanted(r, grid, people, requests[f], result, i, found, c, late);
  }

  lemma NearerPrecedes(r: Resolution, origin: Cell, b: Cell, c: Cell)
    requires InGrid(r, origin) && b in FullSweep(r, origin) && c in FullSweep(r, origin)
    requires CellDistance(r, origin, b) < CellDistance(r, origin, c)
    ensures Precedes(FullSweep(r, origin), b, c)
  {
    SweepOrder(r, origin);
    hide FullSweep, CellDistance;
    var order := FullSweep(r, origin);
    var i :| 0 <= i < |order| && order[i] == b;
    var j :| 0 <= j < |order| && order[j] == c;
    assert i < j;
  }

  /** So everybody wanted who lives strictly nearer comes earlier, except in
      fewer cells than the concurrency. */
  lemma NearerComeEarlier(r: Resolution, grid: seq<seq<Person>>, people: seq<Person>, requests: seq<Request>,
                          settings: Settings, schedule: seq<Action>, f: nat, result: seq<Person>, i: nat)
    returns (c: Cell, late: set<Cell>)
    requires ProviderOk(r, grid, people, requests, settings) && f < |requests| && i < |result|
    requires Returns(ToConfig(r, grid, people, requests, settings), schedule, f, result)
    ensures LivesIn(r, result[i], c)
    ensures var user := ToCellLocator(r, requests[f].location);
            && user.Some?
            && ComesAfter(r, Wanted(r, people, requests[f]), result, i,
                          b => CellDistance(r, user.value, b) < CellDistance(r, user.value, c), late)
    ensures |late| < settings.concurrency
  {
    c, late := NearlyNearestFirst(r, grid, people, requests, settings, schedule, f, result, i);
    var origin := ToCellLocator(r, requests[f].location).value;
    LocatorOnLattice(r, requests[f].location);
    LocatorOnLattice(r, result[i].home);
    hide ToConfig, ProviderOk, RequestOk, Returns, FullSweep, CellDistance, Precedes, InGrid, OnLattice;
    SweepCoversLattice(r, origin, c);
    forall p, b | LivesIn(r, p, b) && CellDistance(r, origin, b) < CellDistance(r, origin, c) && b !in late
      ensures multiset(Wanted(r, people, requests[f]))[p] <= multiset(result[..i])[p]
    {
      LocatorOnLattice(r, p.home);
      SweepCoversLattice(r, origin, b);
      NearerPrecedes(r, origin, b, c);
    }
  }

  /** Likewise in terms of what the provider was built with. */
  lemma BuiltProviderOrder(p: Built, schedule: seq<Action>, f: nat, result: seq<Person>, i: nat)
    returns (c: Cell, late: set<Cell>)
    requires BuiltOk(p) && f < |p.requests| && i < |result| && Returns(BuiltConfig(p), schedule, f, result)
    ensures LivesIn(p.r, result[i], c)
    ensures var user := ToCellLocator(p.r, p.requests[f].location);
            && user.Some?
            && ComesAfter(p.r, Wanted(p.r, p.people, p.requests[f]), result, i,
                          b => CellDistance(p.r, user.value, b) < CellDistance(p.r, user.value, c), late)
    ensures |late| < if p.concurrency.Some? then p.concurrency.value else p.hardware
  {
    var settings := Configure(p.r, p.maxAgeDifference, p.maxPpl, p.concurrency, p.hardware).value;
    assert settings.concurrency == if p.concurrency.Some? then p.concurrency.value else p.hardware;
    hide Returns, Configure, ProviderOk, ToConfig, ComesAfter;
    c, late := NearerComeEarlier(p.r, p.grid, p.people, p.requests, settings, schedule, f, result, i);
  }

  // ---- Ages ----------------------------------------------------------------

  /** A request as the program makes it: for a user of some age, with the date
      that the clock shows when each cell is scanned. */
  function RequestFor(location: Position, yearsBefore: Calendar, todayAt: Cell -> int,
                      ageOfUser: int, maxAgeDifference: int): Request
  {
    Request(location, c => AgeWindow(yearsBefore, todayAt(c), ageOfUser, maxAgeDifference))
  }

  /** Such a request wants everybody who, on the day that their cell is
      scanned, has a birthday at an age like the user's; and exactly those born
      between the extremes. */
  lemma WhoIsWanted(r: Resolution, location: Position, yearsBefore: Calendar, todayAt: Cell -> int,
                    ageOfUser: int, maxAgeDifference: int, p: Person)
    ensures var request := RequestFor(location, yearsBefore, todayAt, ageOfUser, maxAgeDifference);
            var home := ToCellLocator(r, p.home);
            && (IsWanted(r, request, p)
                <==> && home.Some?
                     && yearsBefore(todayAt(home.value), ageOfUser + maxAgeDifference) <= p.dob
                     && p.dob <= yearsBefore(todayAt(home.value), ageOfUser - maxAgeDifference))
            && (Backwards(yearsBefore) && home.Some? ==>
                  forall age ::
                    Abs(age - ageOfUser) <= maxAgeDifference && p.dob == yearsBefore(todayAt(home.value), age) ==>
                      IsWanted(r, request, p))
  {
    var home := ToCellLocator(r, p.home);
    hide ToCellLocator;
    if home.Some? {
      SimilarAges(yearsBefore, todayAt(home.value), ageOfUser, maxAgeDifference);
    }
  }
}
