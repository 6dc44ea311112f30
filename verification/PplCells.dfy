/** People, the cells that hold them in date-of-birth order, and the grid. */
module PplCells {
  import opened Seqs
  import opened Geo

  /** Dates are day numbers. */
  datatype Person = Person(id: string, name: string, dob: int, home: Position)

  /** Calendar arithmetic: the day so many years before a day. */
  type Calendar = (int, int) -> int

  /** The dates of birth that a search looks for. */
  datatype Window = Window(earliest: int, latest: int)

  function AgeWindow(yearsBefore: Calendar, today: int, ageOfUser: int, maxAgeDifference: int): Window {
    Window(yearsBefore(today, ageOfUser + maxAgeDifference), yearsBefore(today, ageOfUser - maxAgeDifference))
  }

  /** More years before a day is never a later day. */
  ghost predicate Backwards(yearsBefore: Calendar) {
    forall today, a, b :: a <= b ==> yearsBefore(today, b) <= yearsBefore(today, a)
  }

  /** The window takes in whoever turns a similar age on the day: the elder
      bound is the earlier one. */
  lemma SimilarAges(yearsBefore: Calendar, today: int, ageOfUser: int, maxAgeDifference: int)
    ensures var window := AgeWindow(yearsBefore, today, ageOfUser, maxAgeDifference);
            Backwards(yearsBefore) ==>
              forall age :: Abs(age - ageOfUser) <= maxAgeDifference ==>
                window.earliest <= yearsBefore(today, age) <= window.latest
  {
    if Backwards(yearsBefore) {
      forall age | Abs(age - ageOfUser) <= maxAgeDifference
        ensures yearsBefore(today, ageOfUser + maxAgeDifference) <= yearsBefore(today, age)
        ensures yearsBefore(today, age) <= yearsBefore(today, ageOfUser - maxAgeDifference)
      {
        assert age <= ageOfUser + maxAgeDifference && ageOfUser - maxAgeDifference <= age;
      }
    }
  }

  ghost predicate Sorted(cell: seq<Person>) {
    forall i, j :: 0 <= i < j < |cell| ==> cell[i].dob <= cell[j].dob
  }

  /** The people born from earliest to latest, in the order given. */
  function BornWithin(people: seq<Person>, earliest: int, latest: int): seq<Person> {
    if people == [] then []
    else
      var init, last := BornWithin(people[..|people| - 1], earliest, latest), people[|people| - 1];
      if earliest <= last.dob <= latest then init + [last] else init
  }

  /** The people who live in the cell with the given flat index. */
  function LivingAt(r: Resolution, people: seq<Person>, index: nat): seq<Person> {
    if people == [] then []
    else
      var init, last := LivingAt(r, people[..|people| - 1], index), people[|people| - 1];
      if HomeIndex(r, last) == Some(index) then init + [last] else init
  }

  function HomeIndex(r: Resolution, p: Person): Option<nat> {
    match ToCellLocator(r, p.home)
    case Some(c) => Some(FlatIndex(r, c))
    case None => None
  }

  lemma HomeIndexInBounds(r: Resolution, p: Person)
    requires HomeIndex(r, p).Some?
    ensures HomeIndex(r, p).value < GridSize(r)
  {
    var c := ToCellLocator(r, p.home).value;
    LocatorOnLattice(r, p.home);
    LatticeBounds(r, c);
    FlatIndexInBounds(r, c);
  }

  // ---- Cells -------------------------------------------------------------

  /** What keeps a cell's contents determined by the people in it: in order
      of date of birth, and for equal dates in order of arrival. */
  ghost predicate StablySorted(cell: seq<Person>, arrivals: seq<Person>) {
    && Sorted(cell)
    && multiset(cell) == multiset(arrivals)
    && forall d :: BornWithin(cell, d, d) == BornWithin(arrivals, d, d)
  }

  lemma {:induction false} BornWithinSplit(a: seq<Person>, b: seq<Person>, earliest: int, latest: int)
    ensures BornWithin(a + b, earliest, latest) == BornWithin(a, earliest, latest) + BornWithin(b, earliest, latest)
  {
    if b == [] {
      assert a + b == a;
    } else {
      assert (a + b)[..|a + b| - 1] == a + b[..|b| - 1];
      BornWithinSplit(a, b[..|b| - 1], earliest, latest);
    }
  }

  lemma {:induction false} BornWithinNone(people: seq<Person>, earliest: int, latest: int)
    requires forall p :: p in people ==> !(earliest <= p.dob <= latest)
    ensures BornWithin(people, earliest, latest) == []
  {
    if people != [] {
      var init, last := people[..|people| - 1], people[|people| - 1];
      assert people == init + [last];
      assert last in people;
      BornWithinNone(init, earliest, latest);
    }
  }

  lemma {:induction false} BornWithinAll(people: seq<Person>, earliest: int, latest: int)
    requires forall p :: p in people ==> earliest <= p.dob <= latest
    ensures BornWithin(people, earliest, latest) == people
  {
    if people != [] {
      var init, last := people[..|people| - 1], people[|people| - 1];
      assert people == init + [last];
      assert last in people;
      BornWithinAll(init, earliest, latest);
    }
  }

  lemma {:induction false} BornWithinMembers(people: seq<Person>, earliest: int, latest: int, p: Person)
    ensures multiset(BornWithin(people, earliest, latest))[p]
         == if earliest <= p.dob <= latest then multiset(people)[p] else 0
  {
    if people != [] {
      var init, last := people[..|people| - 1], people[|people| - 1];
      assert people == init + [last];
      BornWithinMembers(init, earliest, latest, p);
    }
  }

  /** Both sorted, with the same people, and for each date in the same order. */
  ghost predicate Agree(a: seq<Person>, b: seq<Person>) {
    && Sorted(a) && Sorted(b)
    && multiset(a) == multiset(b)
    && forall d :: BornWithin(a, d, d) == BornWithin(b, d, d)
  }

  /** The contents of a cell follow from who lives there: two stably sorted
      arrangements of the same arrivals are equal. */
  lemma StablySortedUnique(a: seq<Person>, b: seq<Person>, arrivals: seq<Person>)
    requires StablySorted(a, arrivals) && StablySorted(b, arrivals)
    ensures a == b
  {
    AgreeingAreEqual(a, b);
  }

  lemma {:induction false} AgreeingAreEqual(a: seq<Person>, b: seq<Person>)
    requires Agree(a, b)
    ensures a == b
  {
    assert |a| == |multiset(a)| == |b|;
    if a != [] {
      LastsAgree(a, b);
      InitsAgree(a[..|a| - 1], b[..|b| - 1], a[|a| - 1]);
      AgreeingAreEqual(a[..|a| - 1], b[..|b| - 1]);
    }
  }

  lemma LastsAgree(a: seq<Person>, b: seq<Person>)
    requires Agree(a, b) && a != [] && b != []
    ensures a == a[..|a| - 1] + [a[|a| - 1]] && b == b[..|b| - 1] + [a[|a| - 1]]
  {
    var x, y := a[|a| - 1], b[|b| - 1];
    LastDatesAgree(a, b);
    LastDatesAgree(b, a);
    assert a == a[..|a| - 1] + [x] && b == b[..|b| - 1] + [y];
    assert BornWithin(a, x.dob, x.dob) == BornWithin(b, x.dob, x.dob);
    SameDateTails(a[..|a| - 1], b[..|b| - 1], x, y);
  }

  lemma InitsAgree(a: seq<Person>, b: seq<Person>, x: Person)
    requires Agree(a + [x], b + [x])
    ensures Agree(a, b)
  {
    assert multiset(a) == multiset(a + [x]) - multiset{x};
    assert multiset(b) == multiset(b + [x]) - multiset{x};
    SortedInit(a, x);
    SortedInit(b, x);
    forall d
      ensures BornWithin(a, d, d) == BornWithin(b, d, d)
    {
      assert BornWithin(a + [x], d, d) == BornWithin(b + [x], d, d);
      DropSameTail(a, b, x, d);
    }
  }

  lemma SortedInit(a: seq<Person>, x: Person)
    requires Sorted(a + [x])
    ensures Sorted(a)
  {
    forall i, j | 0 <= i < j < |a|
      ensures a[i].dob <= a[j].dob
    {
      assert (a + [x])[i].dob <= (a + [x])[j].dob;
    }
  }

  lemma SameDateTails(a: seq<Person>, b: seq<Person>, x: Person, y: Person)
    requires x.dob == y.dob
    requires BornWithin(a + [x], x.dob, x.dob) == BornWithin(b + [y], x.dob, x.dob)
    ensures x == y
  {
    assert (a + [x])[..|a|] == a && (b + [y])[..|b|] == b;
    assert BornWithin(a + [x], x.dob, x.dob) == BornWithin(a, x.dob, x.dob) + [x];
    assert BornWithin(b + [y], x.dob, x.dob) == BornWithin(b, x.dob, x.dob) + [y];
  }

  lemma DropSameTail(a: seq<Person>, b: seq<Person>, x: Person, d: int)
    requires BornWithin(a + [x], d, d) == BornWithin(b + [x], d, d)
    ensures BornWithin(a, d, d) == BornWithin(b, d, d)
  {
    assert (a + [x])[..|a|] == a && (b + [x])[..|b|] == b;
    var a', b' := BornWithin(a, d, d), BornWithin(b, d, d);
    if d == x.dob {
      assert (a' + [x])[..|a'|] == a' && (b' + [x])[..|b'|] == b';
    }
  }

  lemma LastDatesAgree(a: seq<Person>, b: seq<Person>)
    requires Sorted(b) && a != [] && b != [] && multiset(a) == multiset(b)
    ensures a[|a| - 1].dob <= b[|b| - 1].dob
  {
    var x := a[|a| - 1];
    assert x in multiset(a);
    assert x in b;
  }

  /** std::upper_bound by date of birth. */
  method UpperBound(cell: seq<Person>, dob: int) returns (pos: nat)
    requires Sorted(cell)
    ensures pos <= |cell|
    ensures forall i :: 0 <= i < pos ==> cell[i].dob <= dob
    ensures forall i :: pos <= i < |cell| ==> dob < cell[i].dob
  {
    var first, last := 0, |cell|;
    while first < last
      invariant 0 <= first <= last <= |cell|
      invariant forall i :: 0 <= i < first ==> cell[i].dob <= dob
      invariant forall i :: last <= i < |cell| ==> dob < cell[i].dob
    {
      var middle := first + (last - first) / 2;
      if dob < cell[middle].dob {
        last := middle;
      } else {
        first := middle + 1;
      }
    }
    pos := first;
  }

  /** std::lower_bound by date of birth. */
  method LowerBound(cell: seq<Person>, dob: int) returns (pos: nat)
    requires Sorted(cell)
    ensures pos <= |cell|
    ensures forall i :: 0 <= i < pos ==> cell[i].dob < dob
    ensures forall i :: pos <= i < |cell| ==> dob <= cell[i].dob
  {
    var first, last := 0, |cell|;
    while first < last
      invariant 0 <= first <= last <= |cell|
      invariant forall i :: 0 <= i < first ==> cell[i].dob < dob
      invariant forall i :: last <= i < |cell| ==> dob <= cell[i].dob
    {
      var middle := first + (last - first) / 2;
      if cell[middle].dob < dob {
        first := middle + 1;
      } else {
        last := middle;
      }
    }
    pos := first;
  }

  lemma InsertedOnDate(before: seq<Person>, after: seq<Person>, arrivals: seq<Person>, p: Person, d: int)
    requires BornWithin(before + after, d, d) == BornWithin(arrivals, d, d)
    requires forall q :: q in after ==> p.dob < q.dob
    ensures BornWithin(before + [p] + after, d, d) == BornWithin(arrivals + [p], d, d)
  {
    BornWithinSplit(before + [p], after, d, d);
    BornWithinSplit(before, [p], d, d);
    BornWithinSplit(before, after, d, d);
    BornWithinSplit(arrivals, [p], d, d);
    hide BornWithin;
    if d == p.dob {
      BornWithinNone(after, d, d);
    } else {
      BornWithinNone([p], d, d);
    }
  }

  lemma InsertedSorted(before: seq<Person>, after: seq<Person>, p: Person)
    requires Sorted(before + after)
    requires forall q :: q in before ==> q.dob <= p.dob
    requires forall q :: q in after ==> p.dob < q.dob
    ensures Sorted(before + [p] + after)
  {
    var old', new' := before + after, before + [p] + after;
    forall i, j | 0 <= i < j < |new'|
      ensures new'[i].dob <= new'[j].dob
    {
      if i != |before| && j != |before| {
        var i' := if i < |before| then i else i - 1;
        var j' := if j < |before| then j else j - 1;
        assert old'[i'] == new'[i] && old'[j'] == new'[j];
      }
    }
  }

  lemma InsertedStably(cell: seq<Person>, arrivals: seq<Person>, p: Person, pos: nat)
    requires StablySorted(cell, arrivals) && pos <= |cell|
    requires forall i :: 0 <= i < pos ==> cell[i].dob <= p.dob
    requires forall i :: pos <= i < |cell| ==> p.dob < cell[i].dob
    ensures StablySorted(cell[..pos] + [p] + cell[pos..], arrivals + [p])
  {
    var before, after := cell[..pos], cell[pos..];
    assert cell == before + after;
    hide Sorted, BornWithin;
    InsertedSorted(before, after, p);
    forall d
      ensures BornWithin(before + [p] + after, d, d) == BornWithin(arrivals + [p], d, d)
    {
      assert BornWithin(cell, d, d) == BornWithin(arrivals, d, d);
      InsertedOnDate(before, after, arrivals, p, d);
    }
  }

  lemma ScanIsFilter(cell: seq<Person>, start: nat, end: nat, earliest: int, latest: int)
    requires start <= end <= |cell|
    requires forall i :: 0 <= i < start ==> cell[i].dob < earliest
    requires forall i :: start <= i < end ==> earliest <= cell[i].dob <= latest
    requires forall i :: end <= i < |cell| ==> !(earliest <= cell[i].dob <= latest)
    ensures BornWithin(cell, earliest, latest) == cell[start..end]
  {
    var before, found, after := cell[..start], cell[start..end], cell[end..];
    assert cell == before + found + after;
    BornWithinSplit(before + found, after, earliest, latest);
    BornWithinSplit(before, found, earliest, latest);
    BornWithinNone(before, earliest, latest);
    BornWithinAll(found, earliest, latest);
    BornWithinNone(after, earliest, latest);
  }

  /** The scan of one cell: skip to the first person born late enough, then
      take people until one is born too late. */
  method FindInCell(cell: seq<Person>, earliest: int, latest: int) returns (ppl: seq<Person>)
    requires Sorted(cell)
    ensures ppl == BornWithin(cell, earliest, latest)
  {
    var start := LowerBound(cell, earliest);
    var person := start;
    ppl := [];
    while person < |cell| && cell[person].dob <= latest
      invariant start <= person <= |cell|
      invariant ppl == cell[start..person]
      invariant forall i :: start <= i < person ==> cell[i].dob <= latest
    {
      ppl := ppl + [cell[person]];
      person := person + 1;
    }
    ScanIsFilter(cell, start, person, earliest, latest);
  }

  // ---- The grid ----------------------------------------------------------

  /** Every cell holds, stably sorted, exactly the people added who live
      there, and everybody added lives somewhere. */
  ghost predicate GridHolds(r: Resolution, grid: seq<seq<Person>>, people: seq<Person>) {
    && |grid| == GridSize(r)
    && (forall p :: p in people ==> HomeIndex(r, p).Some?)
    && forall i :: 0 <= i < |grid| ==> StablySorted(grid[i], LivingAt(r, people, i))
  }

  // ---- Order of arrival ----------------------------------------------------

  ghost predicate Ascending(at: seq<nat>) {
    forall i, j :: 0 <= i < j < |at| ==> at[i] < at[j]
  }

  /** part is what is found at the given positions of whole, in that order. */
  ghost predicate PickedAt(part: seq<Person>, whole: seq<Person>, at: seq<nat>) {
    && Ascending(at) && |part| == |at|
    && forall k :: 0 <= k < |at| ==> at[k] < |whole| && part[k] == whole[at[k]]
  }

  lemma PickOneMore(part: seq<Person>, whole: seq<Person>, at: seq<nat>, last: Person)
    requires PickedAt(part, whole, at)
    ensures PickedAt(part, whole + [last], at)
    ensures PickedAt(part + [last], whole + [last], at + [|whole|])
  {
  }

  lemma LivingAtNext(r: Resolution, init: seq<Person>, last: Person, index: nat, d: int)
    ensures BornWithin(LivingAt(r, init + [last], index), d, d)
         == BornWithin(LivingAt(r, init, index), d, d)
          + if HomeIndex(r, last) == Some(index) && last.dob == d then [last] else []
  {
    assert (init + [last])[..|init|] == init;
    hide HomeIndex, BornWithin;
    BornWithinSplit(LivingAt(r, init, index), [last], d, d);
    BornWithinOne(last, d);
  }

  /** The positions of everybody who lives at the index and was born then. */
  ghost predicate AllOf(r: Resolution, people: seq<Person>, index: nat, d: int, at: seq<nat>) {
    forall i: nat :: i in at <==> i < |people| && HomeIndex(r, people[i]) == Some(index) && people[i].dob == d
  }

  lemma AllOfNext(r: Resolution, init: seq<Person>, last: Person, index: nat, d: int, at: seq<nat>)
    requires AllOf(r, init, index, d, at)
    ensures AllOf(r, init + [last], index, d,
                  if HomeIndex(r, last) == Some(index) && last.dob == d then at + [|init|] else at)
  {
    hide HomeIndex;
    var people := init + [last];
    assert forall i :: 0 <= i < |init| ==> people[i] == init[i];
    assert people[|init|] == last;
    assert forall i: nat :: i in at + [|init|] <==> i in at || i == |init|;
  }

  /** Those who live at an index and were born on a day, picked from those
      who live there, are picked in the order in which people arrived. */
  lemma {:induction false} LivingAtPicked(r: Resolution, people: seq<Person>, index: nat, d: int) returns (at: seq<nat>)
    ensures PickedAt(BornWithin(LivingAt(r, people, index), d, d), people, at)
    ensures AllOf(r, people, index, d, at)
  {
    if people == [] {
      at := [];
    } else {
      var n := |people| - 1;
      var init, last := people[..n], people[n];
      assert people == init + [last];
      hide HomeIndex, BornWithin, LivingAt, PickedAt, AllOf;
      at := LivingAtPicked(r, init, index, d);
      LivingAtNext(r, init, last, index, d);
      PickOneMore(BornWithin(LivingAt(r, init, index), d, d), init, at, last);
      AllOfNext(r, init, last, index, d, at);
      if HomeIndex(r, last) == Some(index) && last.dob == d {
        at := at + [n];
      }
    }
  }

  lemma BornWithinOne(p: Person, d: int)
    ensures BornWithin([p], d, d) == if p.dob == d then [p] else []
  {
    assert [p][..0] == [];
  }

  /** People born on the same day stand in a cell in the order in which they
      were added: they are exactly those among all people added who live
      there and were born then, picked in that order. */
  lemma EqualDatesInOrderOfArrival(r: Resolution, grid: seq<seq<Person>>, people: seq<Person>, index: nat, d: int)
    returns (at: seq<nat>)
    requires GridHolds(r, grid, people) && index < |grid|
    ensures PickedAt(BornWithin(grid[index], d, d), people, at)
    ensures forall i: nat :: i in at <==>
              i < |people| && HomeIndex(r, people[i]) == Some(index) && people[i].dob == d
  {
    assert StablySorted(grid[index], LivingAt(r, people, index));
    at := LivingAtPicked(r, people, index, d);
  }

  class PplGrid {
    const resolution: Resolution
    const cells: array<seq<Person>>
    ghost var added: seq<Person>

    ghost predicate Valid()
      reads this, cells
    {
      GridHolds(resolution, cells[..], added)
    }

    constructor (resolution: Resolution)
      requires resolution <= 100
      ensures Valid() && fresh(cells)
      ensures this.resolution == resolution && added == []
    {
      this.resolution := resolution;
      cells := new seq<Person>[GridSize(resolution)](_ => []);
      added := [];
    }

    /** False when the position fails a CHECK; the process then aborts. */
    method AddPerson(person: Person) returns (ok: bool)
      requires Valid()
      modifies cells, this`added
      ensures Valid()
      ensures ok <==> HomeIndex(resolution, person).Some?
      ensures ok ==> added == old(added) + [person]
      ensures !ok ==> added == old(added) && cells[..] == old(cells[..])
      ensures forall i :: 0 <= i < cells.Length && HomeIndex(resolution, person) != Some(i) ==>
                cells[i] == old(cells[i])
    {
      var index := HomeIndex(resolution, person);
      if index == None {
        return false;
      }
      HomeIndexInBounds(resolution, person);
      var cell := cells[index.value];
      var pos := UpperBound(cell, person.dob);
      InsertedStably(cell, LivingAt(resolution, added, index.value), person, pos);
      cells[index.value] := cell[..pos] + [person] + cell[pos..];
      added := added + [person];
      assert added[..|added| - 1] == old(added);
      return true;
    }

    /** The people in a cell. */
    function At(c: Cell): seq<Person>
      requires cells.Length == GridSize(resolution) && InGrid(resolution, c)
      reads cells
    {
      FlatIndexInBounds(resolution, c);
      cells[FlatIndex(resolution, c)]
    }

    /** The people a search finds in one cell on the day it looks: in the
        cell's order, exactly those born in a window around the user's age;
        among them, if more years before is never later, everybody whose age
        differs from the user's by no more than it may. */
    method FindMatchingPpl(c: Cell, yearsBefore: Calendar, today: int, ageOfUser: int, maxAgeDifference: int)
      returns (ppl: seq<Person>)
      requires Valid() && InGrid(resolution, c)
      ensures var window := AgeWindow(yearsBefore, today, ageOfUser, maxAgeDifference);
              ppl == BornWithin(At(c), window.earliest, window.latest)
      ensures forall p :: p in ppl <==>
                && p in At(c)
                && yearsBefore(today, ageOfUser + maxAgeDifference) <= p.dob
                && p.dob <= yearsBefore(today, ageOfUser - maxAgeDifference)
      ensures Backwards(yearsBefore) ==>
                forall p, age ::
                  p in At(c) && Abs(age - ageOfUser) <= maxAgeDifference && p.dob == yearsBefore(today, age) ==>
                    p in ppl
    {
      FlatIndexInBounds(resolution, c);
      var earliest := yearsBefore(today, ageOfUser + maxAgeDifference);
      var latest := yearsBefore(today, ageOfUser - maxAgeDifference);
      ppl := FindInCell(At(c), earliest, latest);
      forall p
        ensures p in ppl <==> p in At(c) && earliest <= p.dob <= latest
      {
        BornWithinMembers(At(c), earliest, latest, p);
        assert p in ppl <==> p in multiset(ppl);
        assert p in At(c) <==> p in multiset(At(c));
      }
      SimilarAges(yearsBefore, today, ageOfUser, maxAgeDifference);
    }
  }
}
