/** The prototype's sweep along one row of cells: east and then west of the
    user, until a cell is too far away. */
module RowSweep {
  import opened Seqs
  import opened Geo

  /** The values of an unsigned 64-bit index. */
  const TWO_TO_THE_64 := 0x1_0000_0000_0000_0000

  type Index = x: int | 0 <= x < TWO_TO_THE_64

  /** Unsigned subtraction wraps round. */
  function WrappedSub(a: Index, b: Index): Index {
    if a >= b then a - b else a - b + TWO_TO_THE_64
  }

  function TickEast(r: Resolution, c: Cell): Cell {
    Cell(c.lat, if c.lon >= 360 * r then 0 else c.lon + 1)
  }

  function TickWest(r: Resolution, c: Cell): Cell {
    Cell(c.lat, if c.lon == 0 then 360 * r - 1 else c.lon - 1)
  }

  predicate OnRow(r: Resolution, c: Cell) {
    c.lon <= 360 * r
  }

  /** The guard against spinning round the globe near the poles. */
  predicate IsTooFarFromOrigin(r: Resolution, origin: nat, c: Cell)
    requires r <= 100 && origin <= 360 * r && OnRow(r, c)
  {
    WrappedSub(origin, c.lon) >= 90 * r && WrappedSub(c.lon, origin) >= 90 * r
  }

  /** The two wrapped comparisons mean a distance of a quarter turn. */
  lemma TooFarIsAQuarter(r: Resolution, origin: nat, c: Cell)
    requires r <= 100 && origin <= 360 * r && OnRow(r, c)
    ensures IsTooFarFromOrigin(r, origin, c) <==> Abs(origin - c.lon) >= 90 * r
  {
  }

  /** The cells from x eastwards, up to the first that is a quarter turn
      away, past the end of the row, or too far by the distance test. */
  function EastRun(r: Resolution, origin: nat, lat: nat, x: nat, far: Cell -> bool): seq<Cell>
    decreases 360 * r + 1 - x
  {
    if x > 360 * r || x - origin >= 90 * r || far(Cell(lat, x)) then []
    else [Cell(lat, x)] + EastRun(r, origin, lat, x + 1, far)
  }

  /** The cells from x westwards; x below zero is past the end of the row. */
  function WestRun(r: Resolution, origin: nat, lat: nat, x: int, far: Cell -> bool): seq<Cell>
    decreases x + 1
  {
    if x < 0 || origin - x >= 90 * r || far(Cell(lat, x)) then []
    else [Cell(lat, x)] + WestRun(r, origin, lat, x - 1, far)
  }

  /** The eastward loop.  The distance tests involve floating point, and are
      arbitrary here. */
  method SweepEast(r: Resolution, origin: nat, current: Cell, far: Cell -> bool, cells0: seq<Cell>)
    returns (cells: seq<Cell>)
    requires r <= 100 && origin <= 360 * r && current.lon == origin
    ensures cells == cells0 + EastRun(r, origin, current.lat, origin + 1, far)
  {
    cells := cells0;
    var cell := TickEast(r, current);
    ghost var x := origin + 1;
    TooFarIsAQuarter(r, origin, cell);
    while !(IsTooFarFromOrigin(r, origin, cell) || far(cell))
      invariant origin < x <= origin + 90 * r && x <= 360 * r + 1
      invariant cell == Cell(current.lat, if x <= 360 * r then x else 0)
      invariant cells + EastRun(r, origin, current.lat, x, far)
             == cells0 + EastRun(r, origin, current.lat, origin + 1, far)
      invariant IsTooFarFromOrigin(r, origin, cell) <==> Abs(origin - cell.lon) >= 90 * r
      decreases origin + 90 * r - x
    {
      cells := cells + [cell];
      cell := TickEast(r, cell);
      x := x + 1;
      TooFarIsAQuarter(r, origin, cell);
    }
  }

  method SweepWest(r: Resolution, origin: nat, current: Cell, far: Cell -> bool, cells0: seq<Cell>)
    returns (cells: seq<Cell>)
    requires r <= 100 && origin <= 360 * r && current.lon == origin
    ensures cells == cells0 + WestRun(r, origin, current.lat, origin - 1, far)
  {
    cells := cells0;
    var cell := TickWest(r, current);
    ghost var x: int := origin - 1;
    TooFarIsAQuarter(r, origin, cell);
    while !(IsTooFarFromOrigin(r, origin, cell) || far(cell))
      invariant origin - 90 * r <= x < origin && -1 <= x
      invariant cell == Cell(current.lat, if x >= 0 then x else 360 * r - 1)
      invariant cells + WestRun(r, origin, current.lat, x, far)
             == cells0 + WestRun(r, origin, current.lat, origin - 1, far)
      invariant IsTooFarFromOrigin(r, origin, cell) <==> Abs(origin - cell.lon) >= 90 * r
      decreases x - (origin - 90 * r)
    {
      cells := cells + [cell];
      cell := TickWest(r, cell);
      x := x - 1;
      TooFarIsAQuarter(r, origin, cell);
    }
  }

  method GetNearbyCellsSameLatitude(r: Resolution, origin: nat, current: Cell,
                                    farEast: Cell -> bool, farWest: Cell -> bool, cells0: seq<Cell>)
    returns (cells: seq<Cell>)
    requires r <= 100 && origin <= 360 * r && current.lon == origin
    ensures cells == cells0 + EastRun(r, origin, current.lat, origin + 1, farEast)
                            + WestRun(r, origin, current.lat, origin - 1, farWest)
  {
    cells := SweepEast(r, origin, current, farEast, cells0);
    cells := SweepWest(r, origin, current, farWest, cells);
  }

  // ---- What the runs contain -------------------------------------------------

  /** A cell is listed to the east exactly when it lies east of the user on
      the same row, less than a quarter turn away, and no cell from the user
      to it is too far.  So the sweep never crosses the end of the row. */
  lemma {:induction false} EastRunCells(r: Resolution, origin: nat, lat: nat, x: nat, far: Cell -> bool, c: Cell)
    requires origin < x
    ensures c in EastRun(r, origin, lat, x, far)
       <==> && c.lat == lat && x <= c.lon <= 360 * r && c.lon - origin < 90 * r
            && forall y :: x <= y <= c.lon ==> !far(Cell(lat, y))
    decreases 360 * r + 1 - x
  {
    if !(x > 360 * r || x - origin >= 90 * r || far(Cell(lat, x))) {
      EastRunCells(r, origin, lat, x + 1, far, c);
      assert c == Cell(lat, x) || c in EastRun(r, origin, lat, x + 1, far) <==> c in EastRun(r, origin, lat, x, far);
    } else if x <= 360 * r && x - origin < 90 * r {
      assert far(Cell(lat, x));
    }
  }

  lemma {:induction false} WestRunCells(r: Resolution, origin: nat, lat: nat, x: int, far: Cell -> bool, c: Cell)
    requires x < origin
    ensures c in WestRun(r, origin, lat, x, far)
       <==> && c.lat == lat && c.lon <= x && origin - c.lon < 90 * r
            && forall y: nat :: c.lon <= y <= x ==> !far(Cell(lat, y))
    decreases x + 1
  {
    if !(x < 0 || origin - x >= 90 * r || far(Cell(lat, x))) {
      WestRunCells(r, origin, lat, x - 1, far, c);
      assert c == Cell(lat, x) || c in WestRun(r, origin, lat, x - 1, far) <==> c in WestRun(r, origin, lat, x, far);
    } else if x >= 0 && origin - x < 90 * r {
      assert far(Cell(lat, x));
    }
  }

  lemma {:induction false} EastRunShape(r: Resolution, origin: nat, lat: nat, x: nat, far: Cell -> bool)
    requires origin < x
    ensures forall i :: 0 <= i < |EastRun(r, origin, lat, x, far)| ==>
              EastRun(r, origin, lat, x, far)[i] == Cell(lat, x + i)
    ensures EastRun(r, origin, lat, x, far) != [] ==> x + |EastRun(r, origin, lat, x, far)| <= origin + 90 * r
    decreases 360 * r + 1 - x
  {
    if !(x > 360 * r || x - origin >= 90 * r || far(Cell(lat, x))) {
      EastRunShape(r, origin, lat, x + 1, far);
    }
  }

  lemma {:induction false} WestRunShape(r: Resolution, origin: nat, lat: nat, x: int, far: Cell -> bool)
    requires x < origin
    ensures |WestRun(r, origin, lat, x, far)| <= if x < 0 then 0 else x + 1
    ensures forall i :: 0 <= i < |WestRun(r, origin, lat, x, far)| ==>
              WestRun(r, origin, lat, x, far)[i] == Cell(lat, x - i)
    ensures WestRun(r, origin, lat, x, far) != [] ==> origin - 90 * r <= x - |WestRun(r, origin, lat, x, far)|
    decreases x + 1
  {
    if !(x < 0 || origin - x >= 90 * r || far(Cell(lat, x))) {
      WestRunShape(r, origin, lat, x - 1, far);
    }
  }

  /** Both sweeps end within a quarter turn, no cell is listed twice, and the
      user's own cell is not listed at all. */
  lemma RowDistinct(r: Resolution, origin: nat, lat: nat, farEast: Cell -> bool, farWest: Cell -> bool)
    ensures var east := EastRun(r, origin, lat, origin + 1, farEast);
            var west := WestRun(r, origin, lat, origin - 1, farWest);
            && |east| < 90 * r && |west| < 90 * r
            && Distinct(east + west)
            && Cell(lat, origin) !in east + west
  {
    EastRunShape(r, origin, lat, origin + 1, farEast);
    WestRunShape(r, origin, lat, origin - 1, farWest);
  }

  // ---- For whom the sweep is complete ----------------------------------------

  /** The k-th cell on the way east, going round the globe. */
  function EastOf(r: Resolution, c: Cell, k: nat): Cell {
    if k == 0 then c else TickEast(r, EastOf(r, c, k - 1))
  }

  function WestOf(r: Resolution, c: Cell, k: nat): Cell {
    if k == 0 then c else TickWest(r, WestOf(r, c, k - 1))
  }

  lemma {:induction false} EastOfColumn(r: Resolution, origin: nat, lat: nat, k: nat)
    requires origin <= 360 * r && k <= 360 * r
    ensures EastOf(r, Cell(lat, origin), k)
         == Cell(lat, if origin + k <= 360 * r then origin + k else origin + k - 360 * r - 1)
  {
    if k > 0 {
      EastOfColumn(r, origin, lat, k - 1);
    }
  }

  lemma {:induction false} WestOfColumn(r: Resolution, origin: nat, lat: nat, k: nat)
    requires origin <= 360 * r && k <= 360 * r
    ensures WestOf(r, Cell(lat, origin), k)
         == Cell(lat, if k <= origin then origin - k else 360 * r + origin - k)
  {
    if k > 0 {
      WestOfColumn(r, origin, lat, k - 1);
    }
  }

  /** The neighbourhood to the east, with no regard to where the row ends:
      less than a quarter turn away, and nothing on the way is too far. */
  ghost predicate NearEast(r: Resolution, origin: nat, lat: nat, far: Cell -> bool, c: Cell) {
    exists k :: 0 < k < 90 * r && EastOf(r, Cell(lat, origin), k) == c
             && forall i :: 0 < i <= k ==> !far(EastOf(r, Cell(lat, origin), i))
  }

  ghost predicate NearWest(r: Resolution, origin: nat, lat: nat, far: Cell -> bool, c: Cell) {
    exists k :: 0 < k < 90 * r && WestOf(r, Cell(lat, origin), k) == c
             && forall i :: 0 < i <= k ==> !far(WestOf(r, Cell(lat, origin), i))
  }

  /** The neighbourhood does not reach past the eastern end of the row. */
  ghost predicate EndsInEast(r: Resolution, origin: nat, lat: nat, far: Cell -> bool) {
    || origin + 90 * r <= 360 * r + 1
    || far(Cell(lat, 0))
    || exists y: nat :: origin < y <= 360 * r && far(Cell(lat, y))
  }

  ghost predicate EndsInWest(r: Resolution, origin: nat, lat: nat, far: Cell -> bool) {
    || 90 * r <= origin + 1
    || far(Cell(lat, 360 * r - 1))
    || exists y: nat :: y < origin && far(Cell(lat, y))
  }

  /** Within the row the sweep lists just the neighbourhood. */
  lemma EastListed(r: Resolution, origin: nat, lat: nat, far: Cell -> bool, c: Cell)
    requires origin <= 360 * r
    ensures c in EastRun(r, origin, lat, origin + 1, far)
       <==> NearEast(r, origin, lat, far, c) && c.lon > origin
  {
    EastRunCells(r, origin, lat, origin + 1, far, c);
    var user := Cell(lat, origin);
    forall k | 0 <= k < 90 * r
      ensures EastOf(r, user, k)
           == Cell(lat, if origin + k <= 360 * r then origin + k else origin + k - 360 * r - 1)
    {
      EastOfColumn(r, origin, lat, k);
    }
    hide EastRun, EastOf;
    if c in EastRun(r, origin, lat, origin + 1, far) {
      var k := c.lon - origin;
      assert EastOf(r, user, k) == c;
      forall i | 0 < i <= k
        ensures !far(EastOf(r, user, i))
      {
        var y := origin + i;
        assert origin + 1 <= y <= c.lon;
      }
    } else if NearEast(r, origin, lat, far, c) && c.lon > origin {
      var k :| 0 < k < 90 * r && EastOf(r, user, k) == c && forall i :: 0 < i <= k ==> !far(EastOf(r, user, i));
      forall y | origin + 1 <= y <= c.lon
        ensures !far(Cell(lat, y))
      {
        assert EastOf(r, user, y - origin) == Cell(lat, y);
      }
    }
  }

  lemma WestListed(r: Resolution, origin: nat, lat: nat, far: Cell -> bool, c: Cell)
    requires origin <= 360 * r
    ensures c in WestRun(r, origin, lat, origin - 1, far)
       <==> NearWest(r, origin, lat, far, c) && c.lon < origin
  {
    WestRunCells(r, origin, lat, origin - 1, far, c);
    var user := Cell(lat, origin);
    forall k | 0 <= k < 90 * r
      ensures WestOf(r, user, k) == Cell(lat, if k <= origin then origin - k else 360 * r + origin - k)
    {
      WestOfColumn(r, origin, lat, k);
    }
    hide WestRun, WestOf;
    if c in WestRun(r, origin, lat, origin - 1, far) {
      var k := origin - c.lon;
      assert WestOf(r, user, k) == c;
      forall i | 0 < i <= k
        ensures !far(WestOf(r, user, i))
      {
        var y: nat := origin - i;
        assert c.lon <= y <= origin - 1;
      }
    } else if NearWest(r, origin, lat, far, c) && c.lon < origin {
      var k :| 0 < k < 90 * r && WestOf(r, user, k) == c && forall i :: 0 < i <= k ==> !far(WestOf(r, user, i));
      forall y: nat | c.lon <= y <= origin - 1
        ensures !far(Cell(lat, y))
      {
        assert WestOf(r, user, origin - y) == Cell(lat, y);
      }
    }
  }

  /** The first cell past the end is in the neighbourhood, unless that ends
      within the row. */
  lemma EastEnd(r: Resolution, origin: nat, lat: nat, far: Cell -> bool)
    requires origin <= 360 * r
    ensures NearEast(r, origin, lat, far, Cell(lat, 0)) <==> !EndsInEast(r, origin, lat, far)
    ensures EndsInEast(r, origin, lat, far) ==> forall c :: NearEast(r, origin, lat, far, c) ==> c.lon > origin
  {
    var user, k := Cell(lat, origin), 360 * r + 1 - origin;
    forall i | 0 <= i < 90 * r
      ensures EastOf(r, user, i)
           == Cell(lat, if origin + i <= 360 * r then origin + i else origin + i - 360 * r - 1)
    {
      EastOfColumn(r, origin, lat, i);
    }
    hide EastOf;
    if !EndsInEast(r, origin, lat, far) {
      assert EastOf(r, user, k) == Cell(lat, 0);
    } else {
      forall c | NearEast(r, origin, lat, far, c)
        ensures c.lon > origin
      {
        var j :| 0 < j < 90 * r && EastOf(r, user, j) == c && forall i :: 0 < i <= j ==> !far(EastOf(r, user, i));
        if j >= k {
          assert !far(EastOf(r, user, k));
          forall y: nat | origin < y <= 360 * r
            ensures !far(Cell(lat, y))
          {
            assert EastOf(r, user, y - origin) == Cell(lat, y);
          }
        }
      }
    }
  }

  lemma WestEnd(r: Resolution, origin: nat, lat: nat, far: Cell -> bool)
    requires origin <= 360 * r
    ensures NearWest(r, origin, lat, far, Cell(lat, 360 * r - 1)) && origin < 90 * r
       <==> !EndsInWest(r, origin, lat, far)
    ensures EndsInWest(r, origin, lat, far) ==> forall c :: NearWest(r, origin, lat, far, c) ==> c.lon < origin
  {
    var user, k := Cell(lat, origin), origin + 1;
    forall i | 0 <= i < 90 * r
      ensures WestOf(r, user, i) == Cell(lat, if i <= origin then origin - i else 360 * r + origin - i)
    {
      WestOfColumn(r, origin, lat, i);
    }
    hide WestOf;
    if !EndsInWest(r, origin, lat, far) {
      assert WestOf(r, user, k) == Cell(lat, 360 * r - 1);
    } else {
      forall c | NearWest(r, origin, lat, far, c)
        ensures c.lon < origin
      {
        var j :| 0 < j < 90 * r && WestOf(r, user, j) == c && forall i :: 0 < i <= j ==> !far(WestOf(r, user, i));
        if j >= k {
          assert !far(WestOf(r, user, k));
          forall y: nat | y < origin
            ensures !far(Cell(lat, y))
          {
            assert WestOf(r, user, origin - y) == Cell(lat, y);
          }
        }
      }
    }
  }

  /** Every neighbour on the row is listed. */
  ghost predicate RowComplete(r: Resolution, origin: nat, lat: nat, farEast: Cell -> bool, farWest: Cell -> bool) {
    forall c :: NearEast(r, origin, lat, farEast, c) || NearWest(r, origin, lat, farWest, c) ==>
      c in EastRun(r, origin, lat, origin + 1, farEast) + WestRun(r, origin, lat, origin - 1, farWest)
  }

  /** The first cell past an end that the neighbourhood reaches over is not
      listed by either sweep. */
  lemma PastEastMissed(r: Resolution, origin: nat, lat: nat, farEast: Cell -> bool, farWest: Cell -> bool)
    requires origin <= 360 * r && !EndsInEast(r, origin, lat, farEast)
    ensures !RowComplete(r, origin, lat, farEast, farWest)
  {
    var past := Cell(lat, 0);
    EastEnd(r, origin, lat, farEast);
    assert NearEast(r, origin, lat, farEast, past);
    hide NearEast, NearWest, EastRun, WestRun;
    EastRunCells(r, origin, lat, origin + 1, farEast, past);
    WestRunCells(r, origin, lat, origin - 1, farWest, past);
  }

  lemma PastWestMissed(r: Resolution, origin: nat, lat: nat, farEast: Cell -> bool, farWest: Cell -> bool)
    requires origin <= 360 * r && !EndsInWest(r, origin, lat, farWest)
    ensures !RowComplete(r, origin, lat, farEast, farWest)
  {
    var past := Cell(lat, 360 * r - 1);
    WestEnd(r, origin, lat, farWest);
    assert NearWest(r, origin, lat, farWest, past);
    hide NearEast, NearWest, EastRun, WestRun;
    EastRunCells(r, origin, lat, origin + 1, farEast, past);
    WestRunCells(r, origin, lat, origin - 1, farWest, past);
  }

  /** The row sweep is complete for exactly those users whose neighbourhood
      does not reach past an end of the row. */
  lemma CompleteExactlyWithinRow(r: Resolution, origin: nat, lat: nat, farEast: Cell -> bool, farWest: Cell -> bool)
    requires origin <= 360 * r
    ensures RowComplete(r, origin, lat, farEast, farWest)
       <==> EndsInEast(r, origin, lat, farEast) && EndsInWest(r, origin, lat, farWest)
  {
    if !EndsInEast(r, origin, lat, farEast) {
      PastEastMissed(r, origin, lat, farEast, farWest);
    } else if !EndsInWest(r, origin, lat, farWest) {
      PastWestMissed(r, origin, lat, farEast, farWest);
    } else {
      EastEnd(r, origin, lat, farEast);
      WestEnd(r, origin, lat, farWest);
      hide NearEast, NearWest, EndsInEast, EndsInWest, EastRun, WestRun;
      forall c | NearEast(r, origin, lat, farEast, c) || NearWest(r, origin, lat, farWest, c)
        ensures c in EastRun(r, origin, lat, origin + 1, farEast) + WestRun(r, origin, lat, origin - 1, farWest)
      {
        EastListed(r, origin, lat, farEast, c);
        WestListed(r, origin, lat, farWest, c);
      }
    }
  }

  /** Unless the next cell round the globe is itself too far, a user in the
      first column never meets the neighbour across the antimeridian ... */
  lemma NeighbourAcrossIsMissed(r: Resolution, lat: nat, farEast: Cell -> bool, farWest: Cell -> bool)
    requires !farWest(Cell(lat, 360 * r - 1))
    ensures var c := Cell(lat, 360 * r - 1);
            && NearWest(r, 0, lat, farWest, c)
            && c !in EastRun(r, 0, lat, 1, farEast) + WestRun(r, 0, lat, -1, farWest)
  {
    WestEnd(r, 0, lat, farWest);
    EastRunCells(r, 0, lat, 1, farEast, Cell(lat, 360 * r - 1));
  }

  /** ... and neither does one in the last. */
  lemma NeighbourAcrossIsMissedEast(r: Resolution, lat: nat, farEast: Cell -> bool, farWest: Cell -> bool)
    requires !farEast(Cell(lat, 0))
    ensures var origin, c := 360 * r, Cell(lat, 0);
            && NearEast(r, origin, lat, farEast, c)
            && c !in EastRun(r, origin, lat, origin + 1, farEast) + WestRun(r, origin, lat, origin - 1, farWest)
  {
    EastEnd(r, 360 * r, lat, farEast);
    WestRunCells(r, 360 * r, lat, 360 * r - 1, farWest, Cell(lat, 0));
  }
}
