/** Gathering the lines of one side, and deciding how many stones its threats need. */
module Threats {
  import opened Geometry
  import opened Shape
  import opened LineScan
  import opened LineCache

  // ----- the class of the segment around a point -----

  predicate OnEdge(p: Point) {
    p.X == 0 || p.X == 18 || p.Y == 0 || p.Y == 18
  }

  /** Walking backwards from `p` to just after an opponent stone or to the first edge cell. */
  function BackWalk(g: Grid, p: Point, k: Angle, side: Side): Point
    requires OnBoard(p)
    decreases if k == 2 then p.Y else p.X
  {
    if At(g, p) == Next(side) then Along(p, k, 1)
    else if OnEdge(p) then p
    else BackWalk(g, Along(p, k, -1), k, side)
  }

  /** The length of the opponent-free stretch from `p` on. */
  function FreeLen(g: Grid, p: Point, k: Angle, side: Side): (n: nat)
    ensures n == 0 || OnBoard(p)
    ensures OnBoard(p) ==> n <= RayLen(p, k)
    ensures OnBoard(p) ==> forall i :: 0 <= i < n ==> Ray(g, p, k)[i] != Next(side)
    ensures OnBoard(p) ==> n == RayLen(p, k) || Ray(g, p, k)[n] == Next(side)
  {
    if OnBoard(p) then FreeLenFrom(Ray(g, p, k), side, 0) else 0
  }

  function FreeLenFrom(cells: seq<Cell>, side: Side, i: nat): (n: nat)
    requires i <= |cells|
    ensures i <= n <= |cells|
    ensures forall j :: i <= j < n ==> cells[j] != Next(side)
    ensures n == |cells| || cells[n] == Next(side)
    decreases |cells| - i
  {
    if i == |cells| || cells[i] == Next(side) then i else FreeLenFrom(cells, side, i + 1)
  }

  /** The own stones on the opponent-free stretch from `p` on. */
  function Stretch(g: Grid, p: Point, k: Angle, side: Side): (own: seq<bool>)
    ensures |own| <= 19
  {
    if OnBoard(p) then Own(Ray(g, p, k), side, 0, FreeLen(g, p, k, side)) else []
  }

  /** The class of the stretch found around `p`, or 0 if it is too short for a shape. */
  function SegmentID(t: Table, g: Grid, p: Point, k: Angle, side: Side): int
    requires OnBoard(p)
  {
    var own := Stretch(g, BackWalk(g, p, k, side), k, side);
    if |own| > 5 then Class(t, own) else 0
  }

  /** In some direction the stretch that AnalyzeLineSegID finds around `p` is of class 15; from a point on
      the edge it may miss a part of the stretch. */
  predicate WinsAt(t: Table, g: Grid, p: Point, side: Side)
    requires OnBoard(p)
  {
    exists k: Angle :: SegmentID(t, g, p, k, side) == 15
  }

  // ----- blocking -----

  /** With the blocking stones on the board, a stone on point `x` shows class 15 around it. */
  predicate OneStoneWins(t: Table, g: Grid, pts: seq<Point>, x: nat, side: Side)
    requires x < |pts| && forall p <- pts :: OnBoard(p)
  {
    assert pts[x] in pts;
    WinsAt(t, Put(g, pts[x], side), pts[x], side)
  }

  predicate TwoStonesWin(t: Table, g: Grid, pts: seq<Point>, x: nat, y: nat, side: Side)
    requires x < |pts| && y < |pts| && forall p <- pts :: OnBoard(p)
  {
    assert pts[x] in pts && pts[y] in pts;
    var g2 := Put(Put(g, pts[x], side), pts[y], side);
    WinsAt(t, g2, pts[x], side) || WinsAt(t, g2, pts[y], side)
  }

  /** With opponent stones on points `i` and `j` of the list, no one or two stones on the other points show
      class 15 around them. */
  ghost predicate Blocks(t: Table, g: Grid, pts: seq<Point>, i: nat, j: nat, side: Side)
    requires i < |pts| && j < |pts| && forall p <- pts :: OnBoard(p)
  {
    NoCompletion(t, Put(Put(g, pts[i], Next(side)), pts[j], Next(side)), pts, i, j, side)
  }

  ghost predicate NoCompletion(t: Table, g: Grid, pts: seq<Point>, i: nat, j: nat, side: Side)
    requires i < |pts| && j < |pts| && forall p <- pts :: OnBoard(p)
  {
    && (forall x :: 0 <= x < |pts| && x != i && x != j ==> !OneStoneWins(t, g, pts, x, side))
    && (forall x, y :: 0 <= x < y < |pts| && x != i && x != j && y != i && y != j ==>
          !TwoStonesWin(t, g, pts, x, y, side))
  }

  ghost predicate BlockedByOne(t: Table, g: Grid, pts: seq<Point>, side: Side)
    requires forall p <- pts :: OnBoard(p)
  {
    exists i :: 0 <= i < |pts| && Blocks(t, g, pts, i, i, side)
  }

  ghost predicate BlockedByTwo(t: Table, g: Grid, pts: seq<Point>, side: Side)
    requires forall p <- pts :: OnBoard(p)
  {
    exists i, j :: 0 <= i < j < |pts| && Blocks(t, g, pts, i, j, side)
  }

  // ----- gathering -----

  /** Descending by X, then by Y. */
  predicate Before(p: Point, q: Point) {
    p.X > q.X || (p.X == q.X && p.Y > q.Y)
  }

  predicate StrictlySorted(l: seq<Point>) {
    forall i, j :: 0 <= i < j < |l| ==> Before(l[i], l[j])
  }

  function InsertPoint(l: seq<Point>, p: Point): (r: seq<Point>)
    requires StrictlySorted(l)
    ensures StrictlySorted(r)
    ensures forall q :: q in r <==> q in l || q == p
  {
    if l == [] then [p]
    else if l[0] == p then l
    else if Before(p, l[0]) then [p] + l
    else
      var rest := InsertPoint(l[1..], p);
      assert forall q :: q in l <==> q == l[0] || q in l[1..];
      assert forall q :: q in l[1..] ==> Before(l[0], q);
      assert forall i :: 0 <= i < |rest| ==> rest[i] in rest;
      [l[0]] + rest
  }

  /** The distinct points of a list in descending order: sort, then unique. */
  function UniquePoint(l: seq<Point>): (r: seq<Point>)
    ensures StrictlySorted(r)
    ensures forall q :: q in r <==> q in l
  {
    if l == [] then [] else
      assert forall q :: q in l <==> q in l[..|l| - 1] || q == l[|l| - 1];
      InsertPoint(UniquePoint(l[..|l| - 1]), l[|l| - 1])
  }

  /** Any sorted duplicate-free arrangement of the points is that one. */
  lemma {:induction false} SortedIsUnique(a: seq<Point>, b: seq<Point>)
    requires StrictlySorted(a) && StrictlySorted(b)
    requires forall q :: q in a <==> q in b
    ensures a == b
  {
    assert b != [] ==> b[0] in a;
    if a != [] {
      assert a[0] in b;
      assert b[0] in a;
      assert a[0] == b[0];
      forall q
        ensures q in a[1..] <==> q in b[1..]
      {
        if q in a[1..] {
          var i :| 1 <= i < |a| && a[i] == q;
          assert q in b && q != b[0];
        }
        if q in b[1..] {
          var i :| 1 <= i < |b| && b[i] == q;
          assert q in a && q != a[0];
        }
      }
      SortedIsUnique(a[1..], b[1..]);
      assert a == [a[0]] + a[1..] && b == [b[0]] + b[1..];
    }
  }

  /** `sum` with the numbers of a line and the wanted ones of its lists added. */
  function AddWanted(which: Which, sum: Line, l: Line): Line {
    Line(sum.Value + l.Value, sum.ThreatNum + l.ThreatNum,
         sum.ThreatPoint + (if Wants(which, 1) then l.ThreatPoint else []),
         sum.BigPotenPoint + (if Wants(which, 2) then l.BigPotenPoint else []),
         sum.SmaPotenPoint + (if Wants(which, 3) then l.SmaPotenPoint else []),
         sum.BigPotenStep + (if Wants(which, 4) then l.BigPotenStep else []),
         sum.SmaPotenStep + (if Wants(which, 5) then l.SmaPotenStep else []),
         sum.ComPoint + (if Wants(which, 6) then l.ComPoint else []))
  }

  function Gather(c: Cache, side: Side, which: Which, n: nat): Line
    requires n <= LINES
  {
    if n == 0 then ZERO_LINE else AddWanted(which, Gather(c, side, which, n - 1), c[SlotOf(side, n - 1)])
  }

  /** One more line is gathered. */
  lemma GatherOne(c: Cache, side: Side, which: Which, n: nat)
    requires n <= LINES
    ensures n == 0 ==> Gather(c, side, which, n) == ZERO_LINE
    ensures n > 0 ==> Gather(c, side, which, n)
                      == AddWanted(which, Gather(c, side, which, n - 1), c[SlotOf(side, n - 1)])
  {
  }

  /** The gathered threat points come from lines of at least two directions. */
  predicate Spread(c: Cache, side: Side, which: Which) {
    Wants(which, 1) &&
    exists i: LineId, j: LineId :: LineAngle(i) != LineAngle(j)
      && c[SlotOf(side, i)].ThreatPoint != [] && c[SlotOf(side, j)].ThreatPoint != []
  }

  /** The number of stones needed against the threats: taken from the lines, but corrected to
      the least number of threat points that pass the blocking test when the threats span two directions. */
  ghost function EnsuredThreatNum(t: Table, g: Grid, pts: seq<Point>, num: int, spread: bool, side: Side): int
    requires forall p <- pts :: OnBoard(p)
  {
    if num < 2 || !spread then num
    else if BlockedByOne(t, g, pts, side) then 1
    else if BlockedByTwo(t, g, pts, side) then 2
    else num
  }

  ghost predicate ThreatsOnBoard(c: Cache, side: Side, which: Which) {
    Wants(which, 1) ==> forall id: LineId :: forall p <- c[SlotOf(side, id)].ThreatPoint :: OnBoard(p)
  }

  ghost predicate ThreatsFree(g: Grid, c: Cache, side: Side, which: Which) {
    Wants(which, 1) ==> forall id: LineId :: forall p <- c[SlotOf(side, id)].ThreatPoint :: Free(g, p)
  }

  lemma {:induction false} GatheredPoints(c: Cache, side: Side, which: Which, n: nat, ok: Point -> bool)
    requires n <= LINES
    requires Wants(which, 1) ==> forall id: LineId :: forall p <- c[SlotOf(side, id)].ThreatPoint :: ok(p)
    ensures forall p <- Gather(c, side, which, n).ThreatPoint :: ok(p)
  {
    if n > 0 {
      GatheredPoints(c, side, which, n - 1, ok);
    }
  }

  /** Lists that are not wanted stay empty. */
  lemma {:induction false} GatheredUnwanted(c: Cache, side: Side, which: Which, n: nat)
    requires n <= LINES
    ensures var l := Gather(c, side, which, n);
            && (!Wants(which, 2) ==> l.BigPotenPoint == [])
            && (!Wants(which, 3) ==> l.SmaPotenPoint == [])
            && (!Wants(which, 6) ==> l.ComPoint == [])
  {
    if n > 0 {
      GatheredUnwanted(c, side, which, n - 1);
    }
  }

  /** What GetAllLineInfor reports for one side. */
  ghost function SideInfo(t: Table, g: Grid, c: Cache, side: Side, which: Which): Line
    requires ThreatsOnBoard(c, side, which)
  {
    GatheredPoints(c, side, which, LINES, p => OnBoard(p));
    var l := Gather(c, side, which, LINES);
    var pts := UniquePoint(l.ThreatPoint);
    l.(ThreatPoint := pts,
       ThreatNum := EnsuredThreatNum(t, g, pts, l.ThreatNum, Spread(c, side, which), side),
       BigPotenPoint := UniquePoint(l.BigPotenPoint),
       SmaPotenPoint := UniquePoint(l.SmaPotenPoint),
       ComPoint := UniquePoint(l.ComPoint))
  }

  /** The reported threat points are free cells, each listed once. */
  lemma SideInfoThreatsFree(t: Table, g: Grid, c: Cache, side: Side, which: Which)
    requires ThreatsOnBoard(c, side, which) && ThreatsFree(g, c, side, which)
    ensures StrictlySorted(SideInfo(t, g, c, side, which).ThreatPoint)
    ensures forall p <- SideInfo(t, g, c, side, which).ThreatPoint :: Free(g, p)
  {
    GatheredPoints(c, side, which, LINES, p => Free(g, p));
  }

  lemma CoherentThreatsFree(t: Table, g: Grid, side: Side, which: Which)
    ensures ThreatsFree(g, ScanAll(t, g, 0), side, which) && ThreatsOnBoard(ScanAll(t, g, 0), side, which)
  {
    hide Scan;
    forall id: LineId
      ensures forall p <- ScanAll(t, g, 0)[SlotOf(side, id)].ThreatPoint :: Free(g, p)
    {
      ScanOffersFreeCells(t, g, id, side, 0);
    }
  }
}
