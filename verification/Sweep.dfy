/** The outward diamond search over a grid that wraps east to west but not
    north to south. */
module Sweep {
  import opened Seqs
  import opened Geo

  datatype Offset = Offset(lat: int, lon: int)

  datatype CheckOffsetsResult = Valid | Terminal | Invalid

  function CheckOffsets(r: Resolution, origin: Cell, o: Offset): CheckOffsetsResult {
    var maxLon, maxLat := 180 * r, 181 * r;
    var lat := origin.lat + o.lat;
    if -maxLon <= o.lon <= maxLon && 0 <= lat <= maxLat then
      if (o.lon == maxLon || o.lon == -maxLon) && (lat == 0 || lat == maxLat)
      then Terminal else Valid
    else
      Invalid
  }

  predicate InRange(r: Resolution, origin: Cell, o: Offset) {
    !CheckOffsets(r, origin, o).Invalid?
  }

  /** The program's three-way wrap; its % only ever sees positive operands. */
  function WrapLongitude(r: Resolution, lon: int): int {
    if lon > 0 then lon % (361 * r)
    else if lon != 0 then (361 * r + lon) % (361 * r)
    else lon
  }

  lemma ModOnce(x: nat, m: nat)
    requires 0 < m && x < 2 * m
    ensures x % m == if x < m then x else x - m
  {
    if x >= m {
      assert x == m + (x - m);
      ModShift(x - m, m);
    }
  }

  lemma ModShift(x: nat, m: nat)
    requires x < m
    ensures (m + x) % m == x
  {
    assert (m + x) / m == 1 by {
      assert m * 1 + x == m + x;
    }
  }

  lemma WrapValue(r: Resolution, lon: int)
    requires -361 * r <= lon < 722 * r
    ensures WrapLongitude(r, lon)
         == if lon < 0 then (if lon == -361 * r then 0 else lon + 361 * r)
            else if lon < 361 * r then lon else lon - 361 * r
  {
    if lon > 0 {
      ModOnce(lon, 361 * r);
    } else if lon < 0 {
      ModOnce(361 * r + lon, 361 * r);
    }
  }

  function Locate(r: Resolution, origin: Cell, o: Offset): (c: Cell)
    requires InGrid(r, origin) && InRange(r, origin, o)
    ensures InGrid(r, c) && c.lat == origin.lat + o.lat
    ensures c.lon == origin.lon + o.lon
         || c.lon == origin.lon + o.lon + 361 * r
         || c.lon == origin.lon + o.lon - 361 * r
  {
    WrapValue(r, origin.lon + o.lon);
    Cell(origin.lat + o.lat, WrapLongitude(r, origin.lon + o.lon))
  }

  // ---- Rings -------------------------------------------------------------

  function Distance(o: Offset): nat {
    Abs(o.lat) + Abs(o.lon)
  }

  /** The j-th offset on side q of ring d; the sides run N to E, E to S,
      S to W and W to N. */
  function RingPoint(d: nat, q: nat, j: nat): Offset {
    if q == 0 then Offset(d - j, j)
    else if q == 1 then Offset(0 - j, d - j)
    else if q == 2 then Offset(j - d, 0 - j)
    else Offset(j, j - d)
  }

  /** The side of its ring on which an offset lies, and how far along it. */
  function Side(o: Offset): nat {
    if o.lat > 0 && o.lon >= 0 then 0
    else if o.lat <= 0 && o.lon > 0 then 1
    else if o.lat < 0 && o.lon <= 0 then 2
    else 3
  }

  function Along(o: Offset): nat {
    if Side(o) == 0 || Side(o) == 2 then Abs(o.lon) else Abs(o.lat)
  }

  lemma RingPointOnRing(d: nat, q: nat, j: nat)
    requires j < d && q <= 3
    ensures var o := RingPoint(d, q, j); Distance(o) == d && Side(o) == q && Along(o) == j
  {
  }

  lemma PointOfOffset(o: Offset)
    requires Distance(o) > 0
    ensures Along(o) < Distance(o) && RingPoint(Distance(o), Side(o), Along(o)) == o
  {
  }

  predicate WalkPoint(d: nat, q: nat, j: nat) {
    1 <= d && q <= 3 && j <= d
  }

  /** Every offset walked once j points of side q of ring d are done. */
  function Walk(d: nat, q: nat, j: nat): seq<Offset>
    requires WalkPoint(d, q, j)
    decreases d, q, j
  {
    if j > 0 then Walk(d, q, j - 1) + [RingPoint(d, q, j - 1)]
    else if q > 0 then Walk(d, q - 1, d)
    else if d > 1 then Walk(d - 1, 3, d - 1)
    else [Offset(0, 0)]
  }

  /** The walk meets o before it reaches point j on side q of ring d. */
  predicate MetBefore(o: Offset, d: nat, q: nat, j: nat) {
    var e := Distance(o);
    e < d || (e == d && (Side(o) < q || (Side(o) == q && Along(o) < j)))
  }

  lemma MetNext(o: Offset, d: nat, q: nat, j: nat)
    requires WalkPoint(d, q, j) && j > 0
    ensures MetBefore(o, d, q, j) <==> MetBefore(o, d, q, j - 1) || o == RingPoint(d, q, j - 1)
    ensures !MetBefore(RingPoint(d, q, j - 1), d, q, j - 1)
  {
    RingPointOnRing(d, q, j - 1);
    if Distance(o) > 0 {
      PointOfOffset(o);
    }
  }

  lemma MetSide(o: Offset, d: nat, q: nat)
    requires WalkPoint(d, q, 0)
    ensures q > 0 ==> (MetBefore(o, d, q, 0) <==> MetBefore(o, d, q - 1, d))
    ensures q == 0 && d > 1 ==> (MetBefore(o, d, 0, 0) <==> MetBefore(o, d - 1, 3, d - 1))
  {
    if Distance(o) > 0 {
      PointOfOffset(o);
    }
  }

  lemma MetFirst(o: Offset)
    ensures MetBefore(o, 1, 0, 0) <==> o == Offset(0, 0)
  {
  }

  lemma AppendCounts<T>(s: seq<T>, p: T, o: T)
    ensures multiset(s + [p])[o] == multiset(s)[o] + if o == p then 1 else 0
  {
  }

  /** Every offset is walked exactly once, in the ring of its distance. */
  lemma {:induction false} WalkExact(d: nat, q: nat, j: nat, o: Offset)
    requires WalkPoint(d, q, j)
    ensures multiset(Walk(d, q, j))[o] == if MetBefore(o, d, q, j) then 1 else 0
    decreases d, q, j
  {
    hide MetBefore, RingPoint;
    if j > 0 {
      MetNext(o, d, q, j);
      WalkExact(d, q, j - 1, o);
      AppendCounts(Walk(d, q, j - 1), RingPoint(d, q, j - 1), o);
    } else if q > 0 {
      MetSide(o, d, q);
      WalkExact(d, q - 1, d, o);
    } else if d > 1 {
      MetSide(o, d, q);
      WalkExact(d - 1, 3, d - 1, o);
    } else {
      MetFirst(o);
    }
  }

  /** Outwards, and without repetitions. */
  ghost predicate Outwards(offsets: seq<Offset>) {
    && Distinct(offsets)
    && forall x, y :: 0 <= x < y < |offsets| ==> Distance(offsets[x]) <= Distance(offsets[y])
  }

  lemma OneFurther(offsets: seq<Offset>, o: Offset)
    requires Outwards(offsets) && forall p :: p in offsets ==> p != o && Distance(p) <= Distance(o)
    ensures Outwards(offsets + [o])
  {
    hide Distance;
    assert forall x :: 0 <= x < |offsets| ==> (offsets + [o])[x] == offsets[x] && offsets[x] in offsets;
  }

  lemma {:induction false} WalkOutwards(d: nat, q: nat, j: nat)
    requires WalkPoint(d, q, j)
    ensures Outwards(Walk(d, q, j))
    decreases d, q, j
  {
    hide Outwards, RingPoint;
    if j > 0 {
      WalkOutwards(d, q, j - 1);
      RingPointOnRing(d, q, j - 1);
      forall o | o in Walk(d, q, j - 1)
        ensures o != RingPoint(d, q, j - 1) && Distance(o) <= d
      {
        WalkExact(d, q, j - 1, o);
      }
      OneFurther(Walk(d, q, j - 1), RingPoint(d, q, j - 1));
    } else if q > 0 {
      WalkOutwards(d, q - 1, d);
    } else if d > 1 {
      WalkOutwards(d - 1, 3, d - 1);
    } else {
      OriginOutwards();
    }
  }

  lemma OriginOutwards()
    ensures Outwards([Offset(0, 0)])
  {
  }

  /** No offset is walked twice, and none before a nearer one. */
  lemma WalkSorted(d: nat, q: nat, j: nat)
    requires WalkPoint(d, q, j)
    ensures Distinct(Walk(d, q, j))
    ensures forall x, y :: 0 <= x < y < |Walk(d, q, j)| ==> Distance(Walk(d, q, j)[x]) <= Distance(Walk(d, q, j)[y])
  {
    WalkOutwards(d, q, j);
  }

  lemma {:induction false} WalkExtends(d: nat, q: nat, j: nat, d': nat, q': nat, j': nat) returns (rest: seq<Offset>)
    requires WalkPoint(d, q, j) && WalkPoint(d', q', j')
    requires d < d' || (d == d' && (q < q' || (q == q' && j <= j')))
    ensures Walk(d', q', j') == Walk(d, q, j) + rest
    decreases d', q', j'
  {
    if d == d' && q == q' && j == j' {
      rest := [];
    } else if j' > 0 {
      rest := WalkExtends(d, q, j, d', q', j' - 1);
      rest := rest + [RingPoint(d', q', j' - 1)];
    } else if q' > 0 {
      rest := WalkExtends(d, q, j, d', q' - 1, d');
    } else {
      rest := WalkExtends(d, q, j, d' - 1, 3, d' - 1);
    }
  }

  /** Where the walk goes from an offset: on clockwise, and from the end of a
      ring to due north on the next. */
  function Successor(o: Offset): Offset {
    if o.lat > 0 && o.lon >= 0 then Offset(o.lat - 1, o.lon + 1)
    else if o.lat <= 0 && o.lon > 0 then Offset(o.lat - 1, o.lon - 1)
    else if o.lat < 0 && o.lon <= 0 then Offset(o.lat + 1, o.lon - 1)
    else if o.lat >= 0 && o.lon < -1 then Offset(o.lat + 1, o.lon + 1)
    else if o.lat >= 0 && o.lon == -1 then Offset(o.lat + 2, 0)
    else Offset(1, 0)
  }

  ghost predicate Clockwise(offsets: seq<Offset>) {
    && offsets != [] && offsets[0] == Offset(0, 0)
    && forall k :: 0 < k < |offsets| ==> offsets[k] == Successor(offsets[k - 1])
  }

  /** The last offset walked before point j on side q of ring d. */
  function LastWalked(d: nat, q: nat, j: nat): Offset
    requires WalkPoint(d, q, j)
  {
    if j > 0 then RingPoint(d, q, j - 1)
    else if q > 0 then RingPoint(d, q - 1, d - 1)
    else if d > 1 then RingPoint(d - 1, 3, d - 2)
    else Offset(0, 0)
  }

  lemma NextWalked(d: nat, q: nat, j: nat)
    requires WalkPoint(d, q, j) && j > 0
    ensures RingPoint(d, q, j - 1) == Successor(LastWalked(d, q, j - 1))
  {
  }

  /** The walk starts at the origin and turns clockwise, ring after ring. */
  lemma {:induction false} WalkClockwise(d: nat, q: nat, j: nat)
    requires WalkPoint(d, q, j)
    ensures Clockwise(Walk(d, q, j))
    ensures Walk(d, q, j)[|Walk(d, q, j)| - 1] == LastWalked(d, q, j)
    decreases d, q, j
  {
    hide Successor;
    if j > 0 {
      WalkClockwise(d, q, j - 1);
      NextWalked(d, q, j);
    } else if q > 0 {
      WalkClockwise(d, q - 1, d);
    } else if d > 1 {
      WalkClockwise(d - 1, 3, d - 1);
    }
  }

  /** Rings 0 to n - 1. */
  function Rings(n: nat): seq<Offset>
    requires n > 0
  {
    Walk(n, 0, 0)
  }

  // ---- Corners -----------------------------------------------------------

  /** How many of the offsets are terminal: the program's corner_count. */
  function Corners(r: Resolution, origin: Cell, offsets: seq<Offset>): nat {
    if offsets == [] then 0
    else
      Corners(r, origin, offsets[..|offsets| - 1])
      + if CheckOffsets(r, origin, offsets[|offsets| - 1]).Terminal? then 1 else 0
  }

  function SouthWest(r: Resolution, origin: Cell): Offset { Offset(0 - origin.lat, -180 * r) }
  function SouthEast(r: Resolution, origin: Cell): Offset { Offset(0 - origin.lat, 180 * r) }
  function NorthWest(r: Resolution, origin: Cell): Offset { Offset(181 * r - origin.lat, -180 * r) }
  function NorthEast(r: Resolution, origin: Cell): Offset { Offset(181 * r - origin.lat, 180 * r) }

  lemma {:induction false} CornersCounted(r: Resolution, origin: Cell, offsets: seq<Offset>)
    ensures Corners(r, origin, offsets)
         == multiset(offsets)[SouthWest(r, origin)] + multiset(offsets)[SouthEast(r, origin)]
          + multiset(offsets)[NorthWest(r, origin)] + multiset(offsets)[NorthEast(r, origin)]
  {
    if offsets != [] {
      var init, last := offsets[..|offsets| - 1], offsets[|offsets| - 1];
      assert offsets == init + [last];
      CornersCounted(r, origin, init);
      assert CheckOffsets(r, origin, last).Terminal? == (
          last in [SouthWest(r, origin), SouthEast(r, origin), NorthWest(r, origin), NorthEast(r, origin)]);
    }
  }

  /** The ring on which the last corner lies. */
  function LastRing(r: Resolution, origin: Cell): nat
    requires InGrid(r, origin)
  {
    180 * r + if origin.lat < 181 * r - origin.lat then 181 * r - origin.lat else origin.lat
  }

  /** The loop's stopping test means what it should: four corners have been
      counted exactly when every ring that can hold a cell has been walked. */
  lemma FourCornersWhenCovered(r: Resolution, origin: Cell, n: nat)
    requires InGrid(r, origin) && n > 0
    ensures Corners(r, origin, Rings(n)) <= 4
    ensures Corners(r, origin, Rings(n)) == 4 <==> LastRing(r, origin) < n
    ensures Corners(r, origin, Rings(n))
         == (if 180 * r + origin.lat < n then 2 else 0)
          + (if 180 * r + (181 * r - origin.lat) < n then 2 else 0)
  {
    CornersCounted(r, origin, Rings(n));
    WalkExact(n, 0, 0, SouthWest(r, origin));
    WalkExact(n, 0, 0, SouthEast(r, origin));
    WalkExact(n, 0, 0, NorthWest(r, origin));
    WalkExact(n, 0, 0, NorthEast(r, origin));
  }

  // ---- The cells offered -------------------------------------------------

  /** The cells handed to the callback while walking the given offsets. */
  function Offered(r: Resolution, origin: Cell, offsets: seq<Offset>): (cells: seq<Cell>)
    requires InGrid(r, origin)
  {
    if offsets == [] then []
    else
      var init, last := Offered(r, origin, offsets[..|offsets| - 1]), offsets[|offsets| - 1];
      if InRange(r, origin, last) then init + [Locate(r, origin, last)] else init
  }

  /** The order in which an undisturbed search offers its cells. */
  function FullSweep(r: Resolution, origin: Cell): seq<Cell>
    requires InGrid(r, origin)
  {
    Offered(r, origin, Rings(LastRing(r, origin) + 1))
  }

  lemma {:induction false} OfferedMembers(r: Resolution, origin: Cell, offsets: seq<Offset>, c: Cell)
    requires InGrid(r, origin)
    ensures c in Offered(r, origin, offsets)
       <==> exists o :: o in offsets && InRange(r, origin, o) && Locate(r, origin, o) == c
  {
    if offsets != [] {
      var init, last := offsets[..|offsets| - 1], offsets[|offsets| - 1];
      assert offsets == init + [last];
      OfferedMembers(r, origin, init, c);
    }
  }

  lemma LocateInjective(r: Resolution, origin: Cell, o: Offset, p: Offset)
    requires InGrid(r, origin) && InRange(r, origin, o) && InRange(r, origin, p)
    requires Locate(r, origin, o) == Locate(r, origin, p)
    ensures o == p
  {
  }

  /** Distance on the cylinder: the shorter way round. */
  function CellDistance(r: Resolution, origin: Cell, c: Cell): int {
    var d := Abs(c.lon - origin.lon);
    Abs(c.lat - origin.lat) + if d <= 361 * r - d then d else 361 * r - d
  }

  lemma LocateDistance(r: Resolution, origin: Cell, o: Offset)
    requires InGrid(r, origin) && InRange(r, origin, o)
    ensures CellDistance(r, origin, Locate(r, origin, o)) == Distance(o)
  {
  }

  /** Distinct offsets in order of distance offer distinct cells in order of
      distance. */
  lemma {:induction false} OfferedOrder(r: Resolution, origin: Cell, offsets: seq<Offset>)
    requires InGrid(r, origin) && Distinct(offsets)
    requires forall i, j :: 0 <= i < j < |offsets| ==> Distance(offsets[i]) <= Distance(offsets[j])
    ensures Distinct(Offered(r, origin, offsets))
    ensures forall i, j :: 0 <= i < j < |Offered(r, origin, offsets)| ==>
              CellDistance(r, origin, Offered(r, origin, offsets)[i])
              <= CellDistance(r, origin, Offered(r, origin, offsets)[j])
  {
    if offsets != [] {
      var init, last := offsets[..|offsets| - 1], offsets[|offsets| - 1];
      OfferedOrder(r, origin, init);
      var cells := Offered(r, origin, init);
      if InRange(r, origin, last) {
        LocateDistance(r, origin, last);
        forall c | c in cells
          ensures c != Locate(r, origin, last)
          ensures CellDistance(r, origin, c) <= Distance(last)
        {
          OfferedMembers(r, origin, init, c);
          var o :| o in init && InRange(r, origin, o) && Locate(r, origin, o) == c;
          LocateDistance(r, origin, o);
          if c == Locate(r, origin, last) {
            LocateInjective(r, origin, o, last);
          }
        }
      }
    }
  }

  /** No cell is offered twice, and nearer cells are never offered later. */
  lemma SweepOrder(r: Resolution, origin: Cell)
    requires InGrid(r, origin)
    ensures Distinct(FullSweep(r, origin))
    ensures forall i, j :: 0 <= i < j < |FullSweep(r, origin)| ==>
              CellDistance(r, origin, FullSweep(r, origin)[i])
              <= CellDistance(r, origin, FullSweep(r, origin)[j])
  {
    WalkSorted(LastRing(r, origin) + 1, 0, 0);
    OfferedOrder(r, origin, Rings(LastRing(r, origin) + 1));
  }

  /** The search starts in its origin. */
  lemma SweepStartsAtOrigin(r: Resolution, origin: Cell)
    requires InGrid(r, origin)
    ensures FullSweep(r, origin) != [] && FullSweep(r, origin)[0] == origin
  {
    var here, n := Offset(0, 0), LastRing(r, origin) + 1;
    var rest := WalkExtends(1, 0, 0, n, 0, 0);
    assert [here][..0] == [];
    WrapValue(r, origin.lon);
    assert Offered(r, origin, [here]) == [origin];
    hide Offered, Walk;
    PartOffered(r, origin, [here], rest, Rings(n));
    assert FullSweep(r, origin)[..1] == [origin];
  }

  /** How far east of the origin a cell lies, going round the globe. */
  function EastwardGap(r: Resolution, origin: Cell, c: Cell): int {
    if origin.lon <= c.lon then c.lon - origin.lon else c.lon - origin.lon + 361 * r
  }

  /** Exactly which cells are offered: all but the r - 1 columns that lie
      strictly between 180r and 181r steps east of the origin. */
  lemma SweepCells(r: Resolution, origin: Cell, c: Cell)
    requires InGrid(r, origin)
    ensures c in FullSweep(r, origin)
       <==> InGrid(r, c) && !(180 * r < EastwardGap(r, origin, c) < 181 * r)
  {
    var offsets := Rings(LastRing(r, origin) + 1);
    OfferedMembers(r, origin, offsets, c);
    if InGrid(r, c) && !(180 * r < EastwardGap(r, origin, c) < 181 * r) {
      var gap := EastwardGap(r, origin, c);
      var o := Offset(c.lat - origin.lat, if gap <= 180 * r then gap else gap - 361 * r);
      assert InRange(r, origin, o) && Locate(r, origin, o) == c;
      WalkExact(LastRing(r, origin) + 1, 0, 0, o);
    }
  }

  /** A skipped column is never a whole number of degrees away. */
  lemma NoLatticeColumnSkipped(r: Resolution, degrees: int)
    ensures !(180 * r < degrees * r < 181 * r)
  {
    if degrees <= 180 {
      MulMonotone(degrees, 180, r);
    } else {
      MulMonotone(181, degrees, r);
    }
  }

  lemma Distribute(b: int, c: int, m: int)
    ensures (b - c) * m == b * m - c * m
    ensures (b - c + 361) * m == b * m - c * m + 361 * m
  {
  }

  lemma LatticeGap(r: Resolution, origin: Cell, c: Cell) returns (degrees: int)
    requires OnLattice(r, origin) && OnLattice(r, c)
    ensures EastwardGap(r, origin, c) == degrees * r
  {
    var a0: nat, b0: nat :| a0 <= 180 && b0 <= 360 && IsLatticePoint(r, origin, a0, b0);
    var a: nat, b: nat :| a <= 180 && b <= 360 && IsLatticePoint(r, c, a, b);
    degrees := if origin.lon <= c.lon then b - b0 else b - b0 + 361;
    hide OnLattice;
    Distribute(b, b0, r);
  }

  /** Every cell that can be populated is offered, from every origin that a
      position can have. */
  lemma SweepCoversLattice(r: Resolution, origin: Cell, c: Cell)
    requires OnLattice(r, origin) && OnLattice(r, c)
    ensures InGrid(r, origin) && InGrid(r, c) && c in FullSweep(r, origin)
  {
    LatticeBounds(r, origin);
    LatticeBounds(r, c);
    var degrees := LatticeGap(r, origin, c);
    NoLatticeColumnSkipped(r, degrees);
    SweepCells(r, origin, c);
  }

  // ---- The number of cells -----------------------------------------------

  /** The offsets that pass the range check, in order. */
  function Accepted(r: Resolution, origin: Cell, offsets: seq<Offset>): seq<Offset> {
    if offsets == [] then []
    else
      var init, last := Accepted(r, origin, offsets[..|offsets| - 1]), offsets[|offsets| - 1];
      if InRange(r, origin, last) then init + [last] else init
  }

  lemma {:induction false} AcceptedMembers(r: Resolution, origin: Cell, offsets: seq<Offset>)
    requires InGrid(r, origin) && Distinct(offsets)
    ensures Distinct(Accepted(r, origin, offsets))
    ensures forall o :: o in Accepted(r, origin, offsets) <==> o in offsets && InRange(r, origin, o)
    ensures |Accepted(r, origin, offsets)| == |Offered(r, origin, offsets)|
  {
    if offsets != [] {
      var init, last := offsets[..|offsets| - 1], offsets[|offsets| - 1];
      assert offsets == init + [last];
      AcceptedMembers(r, origin, init);
      assert last !in init;
    }
  }

  /** The offsets in range form a box. */
  function Box(low: int, rows: nat, west: int, east: int): set<Offset> {
    set lat, lon | low <= lat < low + rows && west <= lon < east :: Offset(lat, lon)
  }

  lemma {:induction false} RowSize(lat: int, west: int, east: int)
    requires west <= east
    ensures |Box(lat, 1, west, east)| == east - west
    decreases east - west
  {
    if west < east {
      assert Box(lat, 1, west, east) == Box(lat, 1, west, east - 1) + {Offset(lat, east - 1)};
      RowSize(lat, west, east - 1);
    } else {
      assert Box(lat, 1, west, east) == {};
    }
  }

  lemma {:induction false} BoxSize(low: int, rows: nat, west: int, east: int)
    requires west <= east
    ensures |Box(low, rows, west, east)| == rows * (east - west)
  {
    if rows > 0 {
      var top := low + rows - 1;
      var rest, row := Box(low, rows - 1, west, east), Box(top, 1, west, east);
      assert Box(low, rows, west, east) == rest + row && rest !! row;
      BoxSize(low, rows - 1, west, east);
      RowSize(top, west, east);
      assert rows * (east - west) == (rows - 1) * (east - west) + (east - west);
    } else {
      assert Box(low, rows, west, east) == {};
    }
  }

  lemma InRangeIsNear(r: Resolution, origin: Cell, o: Offset)
    requires InGrid(r, origin) && InRange(r, origin, o)
    ensures Distance(o) <= LastRing(r, origin)
  {
  }

  lemma BoxWalked(r: Resolution, origin: Cell, o: Offset)
    requires InGrid(r, origin)
    ensures o in Rings(LastRing(r, origin) + 1) && InRange(r, origin, o)
       <==> o in Box(0 - origin.lat, 181 * r + 1, -180 * r, 180 * r + 1)
  {
    WalkExact(LastRing(r, origin) + 1, 0, 0, o);
    if InRange(r, origin, o) {
      InRangeIsNear(r, origin, o);
    }
  }

  lemma SweepSize(r: Resolution, origin: Cell)
    requires InGrid(r, origin)
    ensures |FullSweep(r, origin)| == (181 * r + 1) * (360 * r + 1)
  {
    var offsets := Rings(LastRing(r, origin) + 1);
    var box := Box(0 - origin.lat, 181 * r + 1, -180 * r, 180 * r + 1);
    WalkSorted(LastRing(r, origin) + 1, 0, 0);
    AcceptedMembers(r, origin, offsets);
    forall o
      ensures o in Accepted(r, origin, offsets) <==> o in box
    {
      BoxWalked(r, origin, o);
    }
    DistinctSize(Accepted(r, origin, offsets), box);
    BoxSize(0 - origin.lat, 181 * r + 1, -180 * r, 180 * r + 1);
  }

  // ---- The search itself -------------------------------------------------

  lemma {:induction false} OfferedSplit(r: Resolution, origin: Cell, a: seq<Offset>, b: seq<Offset>)
    requires InGrid(r, origin)
    ensures Offered(r, origin, a) <= Offered(r, origin, a + b)
  {
    if b == [] {
      assert a + b == a;
    } else {
      assert (a + b)[..|a + b| - 1] == a + b[..|b| - 1];
      OfferedSplit(r, origin, a, b[..|b| - 1]);
    }
  }

  /** The callback said no to each of the calls. */
  ghost predicate AllRefused(fun: seq<Cell> -> bool, trace: seq<Cell>) {
    trace == [] || (!fun(trace) && AllRefused(fun, trace[..|trace| - 1]))
  }

  /** The callback's answers so far: it has said yes at most once, and then
      last of all. */
  ghost predicate Answered(fun: seq<Cell> -> bool, trace: seq<Cell>, done: bool) {
    if done
    then trace != [] && fun(trace) && AllRefused(fun, trace[..|trace| - 1])
    else AllRefused(fun, trace)
  }

  lemma {:induction false} RefusedAt(fun: seq<Cell> -> bool, trace: seq<Cell>, k: nat)
    requires AllRefused(fun, trace) && 0 < k <= |trace|
    ensures !fun(trace[..k])
  {
    if k == |trace| {
      assert trace[..k] == trace;
    } else {
      assert trace[..|trace| - 1][..k] == trace[..k];
      RefusedAt(fun, trace[..|trace| - 1], k);
    }
  }

  lemma RefusedBefore(fun: seq<Cell> -> bool, trace: seq<Cell>, done: bool)
    requires Answered(fun, trace, done)
    ensures done <==> trace != [] && fun(trace)
    ensures forall k :: 0 < k < |trace| ==> !fun(trace[..k])
  {
    var refused := if done then trace[..|trace| - 1] else trace;
    forall k | 0 < k <= |refused|
      ensures !fun(trace[..k])
    {
      RefusedAt(fun, refused, k);
      assert refused[..k] == trace[..k];
    }
  }

  /** What has been walked, and what that has led to. */
  ghost predicate Walked(r: Resolution, origin: Cell, fun: seq<Cell> -> bool, seen: seq<Offset>,
                         trace: seq<Cell>, cornerCount: nat, done: bool)
    requires InGrid(r, origin)
  {
    && trace == Offered(r, origin, seen)
    && cornerCount == Corners(r, origin, seen)
    && Answered(fun, trace, done)
  }

  lemma WalkPrefix(r: Resolution, origin: Cell, d: nat, q: nat, j: nat, trace: seq<Cell>)
    requires InGrid(r, origin) && WalkPoint(d, q, j) && d <= LastRing(r, origin)
    requires trace == Offered(r, origin, Walk(d, q, j))
    ensures trace <= FullSweep(r, origin)
  {
    hide Walk, Offered;
    var n := LastRing(r, origin) + 1;
    var rest := WalkExtends(d, q, j, n, 0, 0);
    PartOffered(r, origin, Walk(d, q, j), rest, Rings(n));
  }

  lemma PartOffered(r: Resolution, origin: Cell, part: seq<Offset>, rest: seq<Offset>, all: seq<Offset>)
    requires InGrid(r, origin) && all == part + rest
    ensures Offered(r, origin, part) <= Offered(r, origin, all)
  {
    OfferedSplit(r, origin, part, rest);
  }

  method DoCell(r: Resolution, origin: Cell, fun: seq<Cell> -> bool, o: Offset,
                trace: seq<Cell>, cornerCount: nat, ghost seen: seq<Offset>)
    returns (done: bool, trace': seq<Cell>, cornerCount': nat)
    requires InGrid(r, origin) && Walked(r, origin, fun, seen, trace, cornerCount, false)
    ensures Walked(r, origin, fun, seen + [o], trace', cornerCount', done)
  {
    assert (seen + [o])[..|seen + [o]| - 1] == seen;
    var result := CheckOffsets(r, origin, o);
    done, trace', cornerCount' := false, trace, cornerCount;
    if result == Terminal {
      cornerCount' := cornerCount + 1;
    }
    if result == Terminal || result == Valid {
      trace' := trace + [Locate(r, origin, o)];
      done := fun(trace');
      assert trace'[..|trace'| - 1] == trace;
    }
  }

  /** One side of ring maxOffset; j tells how far along it the search got. */
  method NorthToEast(r: Resolution, origin: Cell, fun: seq<Cell> -> bool, maxOffset: nat,
                     trace0: seq<Cell>, cornerCount0: nat)
    returns (done: bool, trace: seq<Cell>, cornerCount: nat, ghost j: nat)
    requires InGrid(r, origin) && 0 < maxOffset
    requires Walked(r, origin, fun, Walk(maxOffset, 0, 0), trace0, cornerCount0, false)
    ensures j <= maxOffset && (!done ==> j == maxOffset)
    ensures Walked(r, origin, fun, Walk(maxOffset, 0, j), trace, cornerCount, done)
  {
    hide Walked;
    done, trace, cornerCount, j := false, trace0, cornerCount0, 0;
    var north: int, east: int := maxOffset, 0;
    while !done && north > 0
      invariant north + east == maxOffset && 0 <= north && 0 <= east && j <= maxOffset
      invariant !done ==> j == east
      invariant Walked(r, origin, fun, Walk(maxOffset, 0, j), trace, cornerCount, done)
      decreases north
    {
      done, trace, cornerCount :=
        DoCell(r, origin, fun, Offset(north, east), trace, cornerCount, Walk(maxOffset, 0, j));
      j := j + 1;
      east, north := east + 1, north - 1;
    }
  }

  method EastToSouth(r: Resolution, origin: Cell, fun: seq<Cell> -> bool, maxOffset: nat,
                     trace0: seq<Cell>, cornerCount0: nat)
    returns (done: bool, trace: seq<Cell>, cornerCount: nat, ghost j: nat)
    requires InGrid(r, origin) && 0 < maxOffset
    requires Walked(r, origin, fun, Walk(maxOffset, 1, 0), trace0, cornerCount0, false)
    ensures j <= maxOffset && (!done ==> j == maxOffset)
    ensures Walked(r, origin, fun, Walk(maxOffset, 1, j), trace, cornerCount, done)
  {
    hide Walked;
    done, trace, cornerCount, j := false, trace0, cornerCount0, 0;
    var south: int, east: int := 0, maxOffset;
    while !done && east > 0
      invariant east + south == maxOffset && 0 <= east && 0 <= south && j <= maxOffset
      invariant !done ==> j == south
      invariant Walked(r, origin, fun, Walk(maxOffset, 1, j), trace, cornerCount, done)
      decreases east
    {
      done, trace, cornerCount :=
        DoCell(r, origin, fun, Offset(-south, east), trace, cornerCount, Walk(maxOffset, 1, j));
      j := j + 1;
      south, east := south + 1, east - 1;
    }
  }

  method SouthToWest(r: Resolution, origin: Cell, fun: seq<Cell> -> bool, maxOffset: nat,
                     trace0: seq<Cell>, cornerCount0: nat)
    returns (done: bool, trace: seq<Cell>, cornerCount: nat, ghost j: nat)
    requires InGrid(r, origin) && 0 < maxOffset
    requires Walked(r, origin, fun, Walk(maxOffset, 2, 0), trace0, cornerCount0, false)
    ensures j <= maxOffset && (!done ==> j == maxOffset)
    ensures Walked(r, origin, fun, Walk(maxOffset, 2, j), trace, cornerCount, done)
  {
    hide Walked;
    done, trace, cornerCount, j := false, trace0, cornerCount0, 0;
    var west: int, south: int := 0, maxOffset;
    while !done && south > 0
      invariant south + west == maxOffset && 0 <= south && 0 <= west && j <= maxOffset
      invariant !done ==> j == west
      invariant Walked(r, origin, fun, Walk(maxOffset, 2, j), trace, cornerCount, done)
      decreases south
    {
      done, trace, cornerCount :=
        DoCell(r, origin, fun, Offset(-south, -west), trace, cornerCount, Walk(maxOffset, 2, j));
      j := j + 1;
      west, south := west + 1, south - 1;
    }
  }

  method WestToNorth(r: Resolution, origin: Cell, fun: seq<Cell> -> bool, maxOffset: nat,
                     trace0: seq<Cell>, cornerCount0: nat)
    returns (done: bool, trace: seq<Cell>, cornerCount: nat, ghost j: nat)
    requires InGrid(r, origin) && 0 < maxOffset
    requires Walked(r, origin, fun, Walk(maxOffset, 3, 0), trace0, cornerCount0, false)
    ensures j <= maxOffset && (!done ==> j == maxOffset)
    ensures Walked(r, origin, fun, Walk(maxOffset, 3, j), trace, cornerCount, done)
  {
    hide Walked;
    done, trace, cornerCount, j := false, trace0, cornerCount0, 0;
    var north: int, west: int := 0, maxOffset;
    while !done && west > 0
      invariant west + north == maxOffset && 0 <= west && 0 <= north && j <= maxOffset
      invariant !done ==> j == north
      invariant Walked(r, origin, fun, Walk(maxOffset, 3, j), trace, cornerCount, done)
      decreases west
    {
      done, trace, cornerCount :=
        DoCell(r, origin, fun, Offset(north, -west), trace, cornerCount, Walk(maxOffset, 3, j));
      j := j + 1;
      north, west := north + 1, west - 1;
    }
  }

  /** One turn of the spiral; q and j tell how far round it got. */
  method WalkRing(r: Resolution, origin: Cell, fun: seq<Cell> -> bool, maxOffset: nat,
                  trace0: seq<Cell>, cornerCount0: nat)
    returns (done: bool, trace: seq<Cell>, cornerCount: nat, ghost q: nat, ghost j: nat)
    requires InGrid(r, origin) && 0 < maxOffset
    requires Walked(r, origin, fun, Rings(maxOffset), trace0, cornerCount0, false)
    ensures WalkPoint(maxOffset, q, j)
    ensures Walked(r, origin, fun, Walk(maxOffset, q, j), trace, cornerCount, done)
    ensures !done ==> Walk(maxOffset, q, j) == Rings(maxOffset + 1)
  {
    q := 0;
    done, trace, cornerCount, j := NorthToEast(r, origin, fun, maxOffset, trace0, cornerCount0);
    if !done {
      q := 1;
      done, trace, cornerCount, j := EastToSouth(r, origin, fun, maxOffset, trace, cornerCount);
    }
    if !done {
      q := 2;
      done, trace, cornerCount, j := SouthToWest(r, origin, fun, maxOffset, trace, cornerCount);
    }
    if !done {
      q := 3;
      done, trace, cornerCount, j := WestToNorth(r, origin, fun, maxOffset, trace, cornerCount);
    }
  }

  /** The outward search.  The callback may keep state of its own, so its
      answer may depend on every call made to it so far. */
  method Sqiral(r: Resolution, origin: Cell, fun: seq<Cell> -> bool)
    returns (done: bool, trace: seq<Cell>)
    requires InGrid(r, origin)
    ensures trace <= FullSweep(r, origin)
    ensures !done ==> trace == FullSweep(r, origin)
    ensures done <==> trace != [] && fun(trace)
    ensures forall k :: 0 < k < |trace| ==> !fun(trace[..k])
  {
    hide RingPoint;
    ghost var last := LastRing(r, origin);
    var cornerCount;
    done, trace, cornerCount := DoCell(r, origin, fun, Offset(0, 0), [], 0, []);
    var maxOffset: nat := 1;
    assert [] + [Offset(0, 0)] == Rings(maxOffset);
    WalkPrefix(r, origin, maxOffset, 0, 0, trace);
    while cornerCount != 4 && !done
      invariant 1 <= maxOffset <= last + 1
      invariant !done ==> Walked(r, origin, fun, Rings(maxOffset), trace, cornerCount, false)
      invariant Answered(fun, trace, done)
      invariant trace <= FullSweep(r, origin)
      decreases last + 1 - maxOffset
    {
      FourCornersWhenCovered(r, origin, maxOffset);
      ghost var q, j;
      done, trace, cornerCount, q, j := WalkRing(r, origin, fun, maxOffset, trace, cornerCount);
      WalkPrefix(r, origin, maxOffset, q, j, trace);
      maxOffset := maxOffset + 1;
    }
    FourCornersWhenCovered(r, origin, maxOffset);
    RefusedBefore(fun, trace, done);
  }
}
