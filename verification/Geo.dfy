/** Quantised positions and the flat index of the grid of cells. */
module Geo {
  import opened Seqs

  /** Cells per degree.  The daemon's flag admits 1 to 100. */
  type Resolution = r: int | 1 <= r witness 1

  /** A position in degrees; the program's floats are read as reals. */
  datatype Position = Position(latitude: real, longitude: real)

  datatype Cell = Cell(lat: nat, lon: nat)

  function Abs(x: int): nat {
    if x < 0 then -x else x
  }

  /** Conversion from floating point to int: rounds towards zero. */
  function Truncate(x: real): int {
    if x >= 0.0 then x.Floor else -((-x).Floor)
  }

  /** None stands for a failing CHECK, which aborts the process. */
  function LatitudeIndex(r: Resolution, latitude: real): Option<nat> {
    var i := Truncate(latitude + 90.0);
    if 0 <= i <= 180 then Some(i * r) else None
  }

  function LongitudeIndex(r: Resolution, longitude: real): Option<nat> {
    var i := Truncate(longitude + 180.0);
    if 0 <= i <= 360 then Some(i * r) else None
  }

  function ToCellLocator(r: Resolution, p: Position): Option<Cell> {
    match (LatitudeIndex(r, p.latitude), LongitudeIndex(r, p.longitude))
    case (Some(lat), Some(lon)) => Some(Cell(lat, lon))
    case _ => None
  }

  /** The cells people can live in: both indices are whole degrees times r. */
  ghost predicate OnLattice(r: Resolution, c: Cell) {
    exists a: nat, b: nat :: a <= 180 && b <= 360 && IsLatticePoint(r, c, a, b)
  }

  predicate IsLatticePoint(r: Resolution, c: Cell, a: nat, b: nat) {
    c.lat == a * r && c.lon == b * r
  }

  lemma LocatorOnLattice(r: Resolution, p: Position)
    requires ToCellLocator(r, p).Some?
    ensures OnLattice(r, ToCellLocator(r, p).value)
  {
    var a, b := Truncate(p.latitude + 90.0), Truncate(p.longitude + 180.0);
    assert IsLatticePoint(r, ToCellLocator(r, p).value, a, b);
  }

  /** The CHECKs accept every valid position, and, because conversion rounds
      towards zero, also those less than one degree outside the valid box. */
  lemma LocatorDefined(r: Resolution, p: Position)
    ensures ToCellLocator(r, p).Some?
       <==> -91.0 < p.latitude < 91.0 && -181.0 < p.longitude < 181.0
  {
  }

  lemma TruncateWhole(x: real, n: nat)
    requires 0 <= Truncate(x) <= n && -1.0 < x
    ensures x >= 0.0 ==> Truncate(x) as real <= x < Truncate(x) as real + 1.0
    ensures x < 0.0 ==> Truncate(x) == 0
  {
  }

  /** A valid position, as opposed to one that merely passes the CHECKs. */
  predicate IsValid(p: Position) {
    -90.0 <= p.latitude <= 90.0 && -180.0 <= p.longitude <= 180.0
  }

  /** The cell of a valid position is that of the whole degrees, counted from
      the South Pole and from the antimeridian, that it lies in. */
  lemma CellOfPosition(r: Resolution, p: Position) returns (a: nat, b: nat)
    requires IsValid(p)
    ensures ToCellLocator(r, p) == Some(Cell(a * r, b * r))
    ensures a as real <= p.latitude + 90.0 < a as real + 1.0
    ensures b as real <= p.longitude + 180.0 < b as real + 1.0
  {
    LocatorDefined(r, p);
    a, b := Truncate(p.latitude + 90.0), Truncate(p.longitude + 180.0);
    TruncateWhole(p.latitude + 90.0, 180);
    TruncateWhole(p.longitude + 180.0, 360);
  }

  lemma TruncateMonotone(x: real, y: real)
    requires x <= y
    ensures Truncate(x) <= Truncate(y)
  {
  }

  lemma WholesFollow(r: Resolution, x: real, y: real)
    ensures x <= y ==> Truncate(x) * r <= Truncate(y) * r
    ensures 0.0 <= x && y == x + 1.0 ==> Truncate(y) * r == Truncate(x) * r + r
  {
    if x <= y {
      TruncateMonotone(x, y);
      MulMonotone(Truncate(x), Truncate(y), r);
    }
    if 0.0 <= x && y == x + 1.0 {
      OneMore(x);
      assert (Truncate(x) + 1) * r == Truncate(x) * r + r;
    }
  }

  /** Further north, or further east, never means a smaller index, and a
      degree further always means r rows or columns more. */
  lemma CellsFollowPositions(r: Resolution, p: Position, q: Position)
    requires ToCellLocator(r, p).Some? && ToCellLocator(r, q).Some?
    ensures var c, d := ToCellLocator(r, p).value, ToCellLocator(r, q).value;
            && (p.latitude <= q.latitude ==> c.lat <= d.lat)
            && (p.longitude <= q.longitude ==> c.lon <= d.lon)
            && (IsValid(p) && q.latitude == p.latitude + 1.0 ==> d.lat == c.lat + r)
            && (IsValid(p) && q.longitude == p.longitude + 1.0 ==> d.lon == c.lon + r)
  {
    hide Truncate;
    WholesFollow(r, p.latitude + 90.0, q.latitude + 90.0);
    WholesFollow(r, p.longitude + 180.0, q.longitude + 180.0);
  }

  lemma OneMore(x: real)
    requires x >= 0.0
    ensures Truncate(x + 1.0) == Truncate(x) + 1
  {
  }

  /** What floating-point rounding does near the numbers that matter: it keeps
      order, and leaves whole degrees alone. */
  ghost predicate Rounding(round: real -> real) {
    && (forall x, y :: x <= y ==> round(x) <= round(y))
    && forall x :: -1.0 <= x <= 361.0 && x == x.Floor as real ==> round(x) == x
  }

  lemma TruncateBetween(x: real, n: int, m: int)
    requires n <= 0 <= m
    ensures n as real <= x <= m as real ==> n <= Truncate(x) <= m
    ensures -1.0 < x < (m + 1) as real <==> 0 <= Truncate(x) <= m
  {
  }

  /** However the sum is rounded, a coordinate within the valid bound passes
      its CHECK, and none that is a degree or more outside does. */
  lemma AcceptedHoweverRounded(round: real -> real, x: real, bound: nat)
    requires Rounding(round) && bound <= 180
    ensures -(bound as real) <= x <= bound as real ==> 0 <= Truncate(round(x + bound as real)) <= 2 * bound
    ensures 0 <= Truncate(round(x + bound as real)) <= 2 * bound ==> -(bound as real) - 1.0 < x < bound as real + 1.0
  {
    var low, top, high := -1.0, (2 * bound) as real, (2 * bound + 1) as real;
    TruncateBetween(round(x + bound as real), 0, 2 * bound);
    hide Truncate;
    assert round(low) == low && round(0.0) == 0.0;
    assert round(top) == top && round(high) == high;
  }

  lemma LatticeBounds(r: Resolution, c: Cell)
    requires OnLattice(r, c)
    ensures c.lat <= 180 * r && c.lon <= 360 * r
  {
    var a: nat, b: nat :| a <= 180 && b <= 360 && IsLatticePoint(r, c, a, b);
    MulMonotone(a, 180, r);
    MulMonotone(b, 360, r);
  }

  /** Everything a search may touch: one row more than anybody lives in. */
  predicate InGrid(r: Resolution, c: Cell) {
    c.lat <= 181 * r && c.lon < 361 * r
  }

  function GridSize(r: Resolution): nat {
    ((2 + 90 + 90) * r) * ((2 + 180 + 180) * r)
  }

  function FlatIndex(r: Resolution, c: Cell): nat {
    c.lat * 361 * r + c.lon
  }

  lemma GridSizeFactors(r: Resolution)
    ensures GridSize(r) == 65_884 * r * r
  {
    assert 182 * r * (362 * r) == 182 * 362 * r * r;
  }

  lemma FlatIndexInBounds(r: Resolution, c: Cell)
    requires InGrid(r, c)
    ensures FlatIndex(r, c) < GridSize(r)
    ensures GridSize(r) == 65_884 * r * r && (r <= 100 ==> GridSize(r) < 0x8000_0000)
  {
    var row := 361 * r;
    calc {
      FlatIndex(r, c);
      == c.lat * row + c.lon;
      <= { MulMonotone(c.lat, 181 * r, row); }
         181 * r * row + c.lon;
      <  181 * r * row + row;
      == (181 * r + 1) * row;
      <= { MulMonotone(181 * r + 1, 182 * r, row); }
         182 * r * row;
      <= { MulMonotone(row, 362 * r, 182 * r); }
         182 * r * (362 * r);
      == GridSize(r);
    }
    GridSizeFactors(r);
    if r <= 100 {
      MulMonotone(182 * r, 18200, 362 * r);
      MulMonotone(362 * r, 36200, 18200);
    }
  }

  /** Rows lie one after another, each with its columns in order. */
  lemma FlatIndexRowMajor(r: Resolution, c: Cell)
    ensures FlatIndex(r, Cell(0, 0)) == 0
    ensures FlatIndex(r, Cell(c.lat, c.lon + 1)) == FlatIndex(r, c) + 1
    ensures FlatIndex(r, Cell(c.lat + 1, 0)) == FlatIndex(r, Cell(c.lat, 361 * r - 1)) + 1
  {
    var row := 361 * r;
    assert (c.lat + 1) * row == c.lat * row + row;
    assert FlatIndex(r, Cell(c.lat + 1, 0)) == (c.lat + 1) * row;
  }

  lemma MulMonotone(a: int, b: int, m: nat)
    requires a <= b
    ensures a * m <= b * m
  {
  }

  lemma FlatIndexInjective(r: Resolution, c: Cell, d: Cell)
    requires InGrid(r, c) && InGrid(r, d)
    requires FlatIndex(r, c) == FlatIndex(r, d)
    ensures c == d
  {
    var row := 361 * r;
    assert c.lat * row + c.lon == d.lat * row + d.lon;
    RowMajorInjective(row, c.lat, c.lon, d.lat, d.lon);
  }

  lemma RowMajorOrder(row: nat, a: nat, x: nat, b: nat)
    requires a < b && x < row
    ensures a * row + x < b * row
  {
    MulMonotone(a + 1, b, row);
    assert (a + 1) * row == a * row + row;
  }

  lemma RowMajorInjective(row: nat, a: nat, x: nat, b: nat, y: nat)
    requires x < row && y < row && a * row + x == b * row + y
    ensures a == b && x == y
  {
    if a < b {
      RowMajorOrder(row, a, x, b);
    } else if b < a {
      RowMajorOrder(row, b, y, a);
    }
  }
}
