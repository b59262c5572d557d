/** What the blocking test of the threat count sees of the board, and what it misses. */
module Completion {
  import opened Geometry
  import opened Shape
  import opened LineScan
  import opened LineCache
  import opened Threats
  import opened Victory

  // ----- the class around a point -----

  /** The position of a point on the whole line through it. */
  function LinePosition(p: Point, k: Angle): nat
    requires OnBoard(p)
  {
    match k
    case 0 => p.X
    case 1 => p.X - StartPoint(p, 1).X
    case 2 => p.Y
    case _ => p.X - StartPoint(p, 3).X
  }

  lemma PointAtPosition(p: Point, k: Angle)
    requires OnBoard(p)
    ensures LinePosition(p, k) < RayLen(StartPoint(p, k), k)
    ensures Along(StartPoint(p, k), k, LinePosition(p, k)) == p
  {
    match k
    case 0 =>
    case 1 =>
    case 2 =>
    case _ =>
  }

  lemma LinePositionCorrect(p: Point, k: Angle, j: nat)
    requires OnBoard(p) && !OnEdge(p) && j <= LinePosition(p, k)
    ensures LinePosition(p, k) < RayLen(StartPoint(p, k), k)
    ensures Along(StartPoint(p, k), k, LinePosition(p, k)) == p
    ensures OnEdge(Along(StartPoint(p, k), k, j)) <==> j == 0
    ensures OnBoard(Along(StartPoint(p, k), k, j))
  {
  }

  /** The walk back from an inner point ends where the opponent-free run around it begins. */
  lemma {:induction false} BackWalkFindsRun(g: Grid, p: Point, k: Angle, side: Side, j: nat)
    requires OnBoard(p) && !OnEdge(p) && j <= LinePosition(p, k)
    requires var cells := Ray(g, StartPoint(p, k), k); j < |cells| && cells[j] != Next(side)
    ensures var start := StartPoint(p, k);
            OnBoard(Along(start, k, j)) &&
            BackWalk(g, Along(start, k, j), k, side) == Along(start, k, j + 1 - Run(Ray(g, start, k), side, j + 1))
  {
    hide StartPoint, LinePosition, OnEdge, At, Ray, RayLen, Along;
    var start := StartPoint(p, k);
    var cells, q := Ray(g, start, k), Along(start, k, j);
    LinePositionCorrect(p, k, j);
    assert At(g, q) == cells[j];
    if j > 0 {
      LinePositionCorrect(p, k, j - 1);
      StepBack(start, k, j);
      assert At(g, Along(start, k, j - 1)) == cells[j - 1];
      if cells[j - 1] != Next(side) {
        BackWalkFindsRun(g, p, k, side, j - 1);
      }
    }
  }

  lemma StepBack(start: Point, k: Angle, j: int)
    ensures Along(Along(start, k, j), k, -1) == Along(start, k, j - 1)
    ensures Along(Along(start, k, j - 1), k, 1) == Along(start, k, j)
  {
  }

  /** The maximal opponent-free stretch around position `o` of a line. */
  ghost predicate SurroundedBy(cells: seq<Cell>, side: Side, o: nat, lo: nat, hi: nat) {
    && lo <= o < hi <= |cells|
    && (forall i :: lo <= i < hi ==> cells[i] != Next(side))
    && (lo == 0 || cells[lo - 1] == Next(side))
    && (hi == |cells| || cells[hi] == Next(side))
  }

  lemma RayFromInside(g: Grid, start: Point, k: Angle, lo: nat)
    requires OnBoard(start) && lo < RayLen(start, k)
    ensures OnBoard(Along(start, k, lo)) && Ray(g, Along(start, k, lo), k) == Ray(g, start, k)[lo..]
  {
    var p := Along(start, k, lo);
    RayOnBoard(start, k, lo);
    assert RayLen(p, k) == RayLen(start, k) - lo;
    forall i | 0 <= i < RayLen(p, k)
      ensures Along(p, k, i) == Along(start, k, lo + i)
    {
    }
  }

  lemma FreeLenUnique(cells: seq<Cell>, side: Side, n: nat)
    requires n <= |cells| && (forall i :: 0 <= i < n ==> cells[i] != Next(side))
    requires n == |cells| || cells[n] == Next(side)
    ensures FreeLenFrom(cells, side, 0) == n
  {
    assert forall i :: 0 <= i < n ==> cells[i] != Next(side);
  }

  lemma SurroundedRun(cells: seq<Cell>, side: Side, o: nat, lo: nat, hi: nat)
    requires SurroundedBy(cells, side, o, lo, hi)
    ensures o < |cells| && cells[o] != Next(side) && Run(cells, side, o + 1) == o + 1 - lo
  {
    RunInside(cells, side, lo, o + 1);
  }

  /** The walk back from an inner point ends at the first cell of the stretch around it. */
  lemma BackWalkFindsStart(g: Grid, p: Point, k: Angle, side: Side, lo: nat, hi: nat)
    requires OnBoard(p) && !OnEdge(p)
    requires SurroundedBy(Ray(g, StartPoint(p, k), k), side, LinePosition(p, k), lo, hi)
    ensures BackWalk(g, p, k, side) == Along(StartPoint(p, k), k, lo)
  {
    hide Ray, StartPoint, LinePosition, BackWalk, Run, OnEdge, Along, RayLen, SurroundedBy;
    var o := LinePosition(p, k);
    LinePositionCorrect(p, k, o);
    SurroundedRun(Ray(g, StartPoint(p, k), k), side, o, lo, hi);
    BackWalkFindsRun(g, p, k, side, o);
  }

  /** The stretch from there on holds the own stones of the whole stretch. */
  lemma StretchFromStart(g: Grid, start: Point, k: Angle, side: Side, o: nat, lo: nat, hi: nat)
    requires OnBoard(start) && SurroundedBy(Ray(g, start, k), side, o, lo, hi)
    ensures Stretch(g, Along(start, k, lo), k, side) == Own(Ray(g, start, k), side, lo, hi)
  {
    hide Ray, FreeLenFrom, Along, RayLen;
    var cells := Ray(g, start, k);
    RayFromInside(g, start, k, lo);
    FreeLenUnique(cells[lo..], side, hi - lo);
    assert Own(cells[lo..], side, 0, hi - lo) == Own(cells, side, lo, hi);
  }

  /** For an inner point, AnalyzeLineSegID reports the class of the maximal opponent-free stretch
      through the point, and 0 when fewer than six cells fit there. */
  lemma SegmentIDIsSurrounding(t: Table, g: Grid, p: Point, k: Angle, side: Side, lo: nat, hi: nat)
    requires OnBoard(p) && !OnEdge(p)
    requires SurroundedBy(Ray(g, StartPoint(p, k), k), side, LinePosition(p, k), lo, hi)
    ensures SegmentID(t, g, p, k, side)
         == (if hi - lo >= 6 then SegmentClass(t, Ray(g, StartPoint(p, k), k), side, Segment(lo, hi)) else 0)
  {
    hide Class, Ray, StartPoint, LinePosition, BackWalk, OnEdge, Along, Stretch, Own;
    BackWalkFindsStart(g, p, k, side, lo, hi);
    StretchFromStart(g, StartPoint(p, k), k, side, LinePosition(p, k), lo, hi);
  }

  /** A point on the edge is taken for the start of its line: only what follows it is classified. */
  lemma SegmentIDOnEdge(t: Table, g: Grid, p: Point, k: Angle, side: Side)
    requires OnBoard(p) && OnEdge(p) && At(g, p) != Next(side)
    ensures SegmentID(t, g, p, k, side) == (var own := Stretch(g, p, k, side); if |own| > 5 then Class(t, own) else 0)
  {
    hide Class, Stretch;
  }

  // ----- completions on the board -----

  /** The whole line through a point in one direction. */
  function WholeLine(g: Grid, p: Point, k: Angle): (cells: seq<Cell>)
    requires OnBoard(p)
    ensures LinePosition(p, k) < |cells| <= 19
    ensures cells[LinePosition(p, k)] == At(g, p)
  {
    PointAtPosition(p, k);
    Ray(g, StartPoint(p, k), k)
  }

  /** A maximal opponent-free segment of class 15 runs through the point in this direction. */
  ghost predicate CompletesOn(t: Table, g: Grid, p: Point, k: Angle, side: Side)
    requires OnBoard(p)
  {
    var cells := WholeLine(g, p, k);
    exists s: Segment :: IsMaximalSegment(cells, side, s) && s.lo <= LinePosition(p, k) < s.hi
                         && SegmentClass(t, cells, side, s) == 15
  }

  ghost predicate CompletesAt(t: Table, g: Grid, p: Point, side: Side)
    requires OnBoard(p)
  {
    exists k: Angle :: CompletesOn(t, g, p, k, side)
  }

  /** The ends of the opponent-free stretch through a point. */
  function StretchLo(g: Grid, p: Point, k: Angle, side: Side): nat
    requires OnBoard(p)
  {
    RunStart(WholeLine(g, p, k), side, LinePosition(p, k))
  }

  /** Where the run up to and including cell `o` begins. */
  function RunStart(cells: seq<Cell>, side: Side, o: nat): nat
    requires o < |cells|
  {
    o + 1 - Run(cells, side, o + 1)
  }

  function StretchHi(g: Grid, p: Point, k: Angle, side: Side): nat
    requires OnBoard(p)
  {
    FreeLenFrom(WholeLine(g, p, k), side, LinePosition(p, k))
  }

  lemma StretchSurrounds(g: Grid, p: Point, k: Angle, side: Side)
    requires OnBoard(p) && At(g, p) != Next(side)
    ensures SurroundedBy(WholeLine(g, p, k), side, LinePosition(p, k),
                         StretchLo(g, p, k, side), StretchHi(g, p, k, side))
  {
    hide WholeLine, LinePosition, RunStart, FreeLenFrom, SurroundedBy;
    RunSurrounds(WholeLine(g, p, k), side, LinePosition(p, k));
  }

  lemma RunSurrounds(cells: seq<Cell>, side: Side, o: nat)
    requires o < |cells| && cells[o] != Next(side)
    ensures SurroundedBy(cells, side, o, RunStart(cells, side, o), FreeLenFrom(cells, side, o))
  {
    hide Run, FreeLenFrom;
    RunMaximal(cells, side, o + 1);
    RunThere(cells, side, o + 1);
    FreeThere(cells, side, o);
  }

  lemma FreeThere(cells: seq<Cell>, side: Side, o: nat)
    requires o < |cells| && cells[o] != Next(side)
    ensures FreeLenFrom(cells, side, o) > o
  {
  }

  lemma RunThere(cells: seq<Cell>, side: Side, n: nat)
    requires 0 < n <= |cells| && cells[n - 1] != Next(side)
    ensures Run(cells, side, n) >= 1
  {
  }

  lemma SurroundedUnique(cells: seq<Cell>, side: Side, o: nat, lo: nat, hi: nat, s: Segment)
    requires SurroundedBy(cells, side, o, lo, hi) && SurroundedBy(cells, side, o, s.lo, s.hi)
    ensures s.lo == lo && s.hi == hi
  {
  }

  /** The class of the stretch through a point, 0 if it is too short for a shape. */
  function ClassThrough(t: Table, g: Grid, p: Point, k: Angle, side: Side): int
    requires OnBoard(p) && At(g, p) != Next(side)
  {
    StretchSurrounds(g, p, k, side);
    var lo, hi := StretchLo(g, p, k, side), StretchHi(g, p, k, side);
    if hi - lo >= 6 then SegmentClass(t, WholeLine(g, p, k), side, Segment(lo, hi)) else 0
  }

  /** A stretch of class 15 is a completion, and there is no other. */
  lemma CompletesByClass(t: Table, g: Grid, p: Point, k: Angle, side: Side)
    requires OnBoard(p) && At(g, p) != Next(side)
    ensures ClassThrough(t, g, p, k, side) == 15 <==> CompletesOn(t, g, p, k, side)
  {
    hide LinePosition, WholeLine, StretchLo, StretchHi, Class, Own;
    StretchSurrounds(g, p, k, side);
    var cells, o, lo, hi := WholeLine(g, p, k), LinePosition(p, k), StretchLo(g, p, k, side), StretchHi(g, p, k, side);
    if CompletesOn(t, g, p, k, side) {
      var s: Segment :| IsMaximalSegment(cells, side, s) && s.lo <= o < s.hi && SegmentClass(t, cells, side, s) == 15;
      SurroundedUnique(cells, side, o, lo, hi, s);
    }
    if ClassThrough(t, g, p, k, side) == 15 {
      var s := Segment(lo, hi);
      assert IsMaximalSegment(cells, side, s) && s.lo <= o < s.hi && SegmentClass(t, cells, side, s) == 15;
    }
  }

  // ----- what AnalyzeLineSegID sees of it -----

  /** The walk back covers the stretch: the point is inner, or the stretch begins at the point, because
      the line does or because an opponent stone is before it; or the stretch is too short anyway. */
  predicate SeesWhole(g: Grid, p: Point, k: Angle, side: Side)
    requires OnBoard(p)
  {
    || !OnEdge(p)
    || StretchLo(g, p, k, side) == LinePosition(p, k)
    || StretchHi(g, p, k, side) - StretchLo(g, p, k, side) < 6
  }

  /** From a point on the edge only the cells behind it are seen. */
  lemma SegmentIDFromEdge(t: Table, g: Grid, p: Point, k: Angle, side: Side)
    requires OnBoard(p) && OnEdge(p) && At(g, p) != Next(side)
    ensures var cells, o, hi := WholeLine(g, p, k), LinePosition(p, k), StretchHi(g, p, k, side);
            o < hi <= |cells|
            && SegmentID(t, g, p, k, side) == if hi - o >= 6 then Class(t, Own(cells, side, o, hi)) else 0
  {
    hide LinePosition, StretchLo, Class, Own, StartPoint, OnEdge, Stretch, Ray, BackWalk;
    var cells, o, hi := WholeLine(g, p, k), LinePosition(p, k), StretchHi(g, p, k, side);
    StretchSurrounds(g, p, k, side);
    SegmentIDOnEdge(t, g, p, k, side);
    PointAtPosition(p, k);
    RayFromInside(g, StartPoint(p, k), k, o);
    StretchIsOwn(g, p, k, side, cells[o..], hi - o);
    OwnFrom(cells, side, o, hi);
  }

  lemma StretchIsOwn(g: Grid, p: Point, k: Angle, side: Side, cells: seq<Cell>, n: nat)
    requires OnBoard(p) && cells == Ray(g, p, k) && n <= |cells| && (forall i :: 0 <= i < n ==> cells[i] != Next(side))
    requires n == |cells| || cells[n] == Next(side)
    ensures Stretch(g, p, k, side) == Own(cells, side, 0, n)
  {
    hide Ray, Own;
    FreeLenUnique(cells, side, n);
  }

  lemma OwnFrom(cells: seq<Cell>, side: Side, o: nat, hi: nat)
    requires o <= hi <= |cells|
    ensures Own(cells[o..], side, 0, hi - o) == Own(cells, side, o, hi)
  {
  }

  /** Where the whole stretch is seen, AnalyzeLineSegID reports its class, for every table. */
  lemma SegmentIDIsClassThrough(t: Table, g: Grid, p: Point, k: Angle, side: Side)
    requires OnBoard(p) && At(g, p) != Next(side) && SeesWhole(g, p, k, side)
    ensures SegmentID(t, g, p, k, side) == ClassThrough(t, g, p, k, side)
  {
    hide LinePosition, StretchLo, StretchHi, Class, Own, StartPoint, OnEdge, Ray, SegmentID;
    StretchSurrounds(g, p, k, side);
    if OnEdge(p) {
      SegmentIDFromEdge(t, g, p, k, side);
    } else {
      SegmentIDIsSurrounding(t, g, p, k, side, StretchLo(g, p, k, side), StretchHi(g, p, k, side));
    }
  }

  /** The table in which just one shape is of class 15. */
  function OnlyShape(own: seq<bool>): (t: Table) {
    seq(TABLESIZE, i requires 0 <= i < TABLESIZE => if i + 64 == Code(own) then 15 else 0)
  }

  lemma OnlyShapeClass(own: seq<bool>, other: seq<bool>)
    requires IsSegment(own) && IsSegment(other)
    ensures Class(OnlyShape(own), other) == if other == own then 15 else 0
  {
    SegmentCodeInTable(other);
    if Code(other) == Code(own) {
      CodeInjective(other, own);
    }
  }

  /** Where it is not, some table has a completion there that AnalyzeLineSegID does not see. */
  lemma SegmentIDMisses(g: Grid, p: Point, k: Angle, side: Side) returns (t: Table)
    requires OnBoard(p) && At(g, p) != Next(side) && !SeesWhole(g, p, k, side)
    ensures ClassThrough(t, g, p, k, side) == 15 && SegmentID(t, g, p, k, side) == 0
  {
    hide LinePosition, StretchLo, StretchHi, Class, OnlyShape, StartPoint, OnEdge, Ray, SegmentID, WholeLine;
    var cells, o, lo, hi := WholeLine(g, p, k), LinePosition(p, k), StretchLo(g, p, k, side), StretchHi(g, p, k, side);
    StretchSurrounds(g, p, k, side);
    var own := Own(cells, side, lo, hi);
    t := OnlyShape(own);
    OnlyShapeClass(own, own);
    SegmentIDFromEdge(t, g, p, k, side);
    if hi - o >= 6 {
      OnlyShapeClass(own, Own(cells, side, o, hi));
    }
  }

  /** So the report is the class of the stretch for every table exactly where the whole stretch is seen. */
  lemma SegmentIDExact(g: Grid, p: Point, k: Angle, side: Side)
    requires OnBoard(p) && At(g, p) != Next(side)
    ensures SeesWhole(g, p, k, side) <==>
            forall t {:trigger SegmentID(t, g, p, k, side)} ::
              SegmentID(t, g, p, k, side) == ClassThrough(t, g, p, k, side)
  {
    hide *;
    if SeesWhole(g, p, k, side) {
      forall t
        ensures SegmentID(t, g, p, k, side) == ClassThrough(t, g, p, k, side)
      {
        SegmentIDIsClassThrough(t, g, p, k, side);
      }
    } else {
      var t := SegmentIDMisses(g, p, k, side);
      assert SegmentID(t, g, p, k, side) != ClassThrough(t, g, p, k, side);
    }
  }

  /** The points at which that holds in all directions on all boards: all but those on the edge, of which
      only the corner where all its lines start is seen right. */
  predicate InPlainSight(p: Point) {
    !OnEdge(p) || p == Point(0, 0)
  }

  lemma PlainSightSeesWhole(g: Grid, p: Point, k: Angle, side: Side)
    requires OnBoard(p) && InPlainSight(p) && At(g, p) != Next(side)
    ensures SeesWhole(g, p, k, side)
  {
    hide WholeLine, Run, FreeLenFrom;
    if OnEdge(p) {
      assert LinePosition(p, k) == 0;
      RunThere(WholeLine(g, p, k), side, 1);
    }
  }

  /** A direction in which an edge point is not the start of a whole row or column. */
  function BlindAngle(p: Point): Angle {
    if p.X > 0 && (p.X == 18 || p.Y == 0 || p.Y == 18) then 0 else 2
  }

  lemma EmptyBoardIsOneStretch(p: Point, k: Angle, side: Side)
    requires OnBoard(p)
    ensures At(EmptyGrid(), p) == EMPTY
    ensures StretchLo(EmptyGrid(), p, k, side) == 0 && StretchHi(EmptyGrid(), p, k, side) == RayLen(StartPoint(p, k), k)
  {
    hide WholeLine, LinePosition, FreeLenFrom, Run, EmptyGrid, At, RayLen, StartPoint;
    var cells := WholeLine(EmptyGrid(), p, k);
    EmptyLine(p, k);
    EmptyRun(cells, side, LinePosition(p, k) + 1);
    EmptyFree(cells, side, LinePosition(p, k));
  }

  lemma EmptyLine(p: Point, k: Angle)
    requires OnBoard(p)
    ensures At(EmptyGrid(), p) == EMPTY
    ensures var cells := WholeLine(EmptyGrid(), p, k);
            |cells| == RayLen(StartPoint(p, k), k) && forall i :: 0 <= i < |cells| ==> cells[i] == EMPTY
  {
    hide LinePosition, StartPoint, RayLen;
  }

  lemma EmptyFree(cells: seq<Cell>, side: Side, o: nat)
    requires o <= |cells| && forall i :: 0 <= i < |cells| ==> cells[i] == EMPTY
    ensures FreeLenFrom(cells, side, o) == |cells|
  {
    hide FreeLenFrom;
  }

  /** Exactly at these points the report is the class of the stretch on every board, for every table. */
  lemma PlainSightExact(p: Point)
    requires OnBoard(p)
    ensures InPlainSight(p) <==>
            forall t, g, k: Angle, side: Side {:trigger SegmentID(t, g, p, k, side)} ::
              At(g, p) != Next(side) ==> SegmentID(t, g, p, k, side) == ClassThrough(t, g, p, k, side)
  {
    hide SegmentID, ClassThrough, SeesWhole;
    if InPlainSight(p) {
      forall t, g, k: Angle, side: Side | At(g, p) != Next(side)
        ensures SegmentID(t, g, p, k, side) == ClassThrough(t, g, p, k, side)
      {
        PlainSightSeesWhole(g, p, k, side);
        SegmentIDIsClassThrough(t, g, p, k, side);
      }
    } else {
      BlindOnEmptyBoard(p);
      var t := SegmentIDMisses(EmptyGrid(), p, BlindAngle(p), 0);
      assert SegmentID(t, EmptyGrid(), p, BlindAngle(p), 0) != ClassThrough(t, EmptyGrid(), p, BlindAngle(p), 0);
    }
  }

  lemma BlindOnEmptyBoard(p: Point)
    requires OnBoard(p) && !InPlainSight(p)
    ensures At(EmptyGrid(), p) == EMPTY && !SeesWhole(EmptyGrid(), p, BlindAngle(p), 0)
  {
    hide StretchLo, StretchHi;
    EmptyBoardIsOneStretch(p, BlindAngle(p), 0);
  }

  // ----- the test for a win -----

  ghost predicate AllInPlainSight(pts: seq<Point>) {
    forall p <- pts :: OnBoard(p) && InPlainSight(p)
  }

  /** Where the whole stretch is seen in all directions, the test for a win is the completion on the board. */
  lemma WinsAtWhereSeen(t: Table, g: Grid, p: Point, side: Side)
    requires OnBoard(p) && At(g, p) == side && forall k: Angle :: SeesWhole(g, p, k, side)
    ensures WinsAt(t, g, p, side) <==> CompletesAt(t, g, p, side)
  {
    hide SegmentID, ClassThrough, CompletesOn, SeesWhole, At;
    forall k: Angle
      ensures SegmentID(t, g, p, k, side) == 15 <==> CompletesOn(t, g, p, k, side)
    {
      assert SeesWhole(g, p, k, side);
      SegmentIDIsClassThrough(t, g, p, k, side);
      CompletesByClass(t, g, p, k, side);
    }
  }

  /** So it is at a point in plain sight. */
  lemma WinsAtIsCompletion(t: Table, g: Grid, p: Point, side: Side)
    requires OnBoard(p) && InPlainSight(p) && At(g, p) == side
    ensures WinsAt(t, g, p, side) <==> CompletesAt(t, g, p, side)
  {
    hide WinsAt, CompletesAt, SeesWhole, At, InPlainSight;
    forall k: Angle
      ensures SeesWhole(g, p, k, side)
    {
      PlainSightSeesWhole(g, p, k, side);
    }
    WinsAtWhereSeen(t, g, p, side);
  }

  // ----- completions and six in a row -----

  predicate SixFrom(own: seq<bool>, i: nat) {
    i + 6 <= |own| && forall j :: i <= j < i + 6 ==> own[j]
  }

  ghost predicate HasSix(own: seq<bool>) {
    exists i :: SixFrom(own, i)
  }

  /** Class 15 stands for six stones in a row. */
  ghost predicate MarksSixes(t: Table) {
    forall own {:trigger Class(t, own)} :: IsSegment(own) ==> (Class(t, own) == 15 <==> HasSix(own))
  }

  /** With such a table a completion is six in a row, and six in a row is a completion at each of its cells. */
  lemma CompletionIsSix(t: Table, g: Grid, p: Point, side: Side)
    requires OnBoard(p) && MarksSixes(t) && CompletesAt(t, g, p, side)
    ensures SixInARow(g, side)
  {
    hide Class, StartPoint, LinePosition, Ray, Along, At, SixInARow, HasSix;
    var k: Angle :| CompletesOn(t, g, p, k, side);
    var cells, start := WholeLine(g, p, k), StartPoint(p, k);
    var s: Segment :| IsMaximalSegment(cells, side, s) && s.lo <= LinePosition(p, k) < s.hi
                      && SegmentClass(t, cells, side, s) == 15;
    var own := Own(cells, side, s.lo, s.hi);
    assert HasSix(own);
    SixCells(cells, side, s.lo, s.hi, g, start, k);
  }

  lemma SixCells(cells: seq<Cell>, side: Side, lo: nat, hi: nat, g: Grid, start: Point, k: Angle)
    requires lo <= hi <= |cells| && HasSix(Own(cells, side, lo, hi))
    requires OnBoard(start) && cells == Ray(g, start, k)
    ensures SixInARow(g, side)
  {
    hide Ray, SixInARow, At;
    var own := Own(cells, side, lo, hi);
    var i: nat :| SixFrom(own, i);
    forall j | lo + i <= j < lo + i + 6
      ensures cells[j] == side
    {
      assert own[j - lo];
    }
    SixOnLine(g, start, k, side, cells, lo + i);
  }

  lemma SixOnLine(g: Grid, start: Point, k: Angle, side: Side, cells: seq<Cell>, i: nat)
    requires OnBoard(start) && cells == Ray(g, start, k) && i + 6 <= |cells|
    requires forall j :: i <= j < i + 6 ==> cells[j] == side
    ensures SixInARow(g, side)
  {
    hide At, Ray;
    var q := Along(start, k, i);
    forall n | 0 <= n <= 5
      ensures OnBoard(Along(q, k, n)) && At(g, Along(q, k, n)) == side
    {
      assert Along(q, k, n) == Along(start, k, i + n);
      assert cells[i + n] == side;
    }
    assert Along(q, k, 0) == q;
    assert SixAt(g, q, k, side);
  }

  lemma SixIsCompletion(t: Table, g: Grid, q: Point, k: Angle, n: nat, side: Side)
    requires MarksSixes(t) && OnBoard(q) && OnBoard(Along(q, k, 5)) && SixAt(g, q, k, side) && n <= 5
    ensures OnBoard(Along(q, k, n)) && CompletesAt(t, g, Along(q, k, n), side)
  {
    hide Class, Ray, At, SegmentClass, CompletesOn, ClassThrough;
    var p := Along(q, k, n);
    assert OnBoard(p) && At(g, p) == side;
    SixStretch(g, q, k, n, side);
    var cells, lo, hi := WholeLine(g, p, k), StretchLo(g, p, k, side), StretchHi(g, p, k, side);
    StretchSurrounds(g, p, k, side);
    ClassOfSix(t, g, p, k, side);
    CompletesByClass(t, g, p, k, side);
  }

  lemma PositionAlong(q: Point, k: Angle, n: nat)
    requires OnBoard(q) && OnBoard(Along(q, k, n))
    ensures StartPoint(Along(q, k, n), k) == StartPoint(q, k)
    ensures LinePosition(Along(q, k, n), k) == LinePosition(q, k) + n
  {
  }

  /** The stretch around a cell of a six holds all of it. */
  lemma SixStretch(g: Grid, q: Point, k: Angle, n: nat, side: Side)
    requires OnBoard(q) && OnBoard(Along(q, k, 5)) && SixAt(g, q, k, side) && n <= 5 && OnBoard(Along(q, k, n))
    requires At(g, Along(q, k, n)) == side
    ensures var p := Along(q, k, n);
            var own := Own(WholeLine(g, p, k), side, StretchLo(g, p, k, side), StretchHi(g, p, k, side));
            IsSegment(own) && HasSix(own)
  {
    hide StartPoint, LinePosition, Along, At, StretchLo, StretchHi, Ray;
    var p, o := Along(q, k, n), LinePosition(q, k);
    var cells, lo, hi := WholeLine(g, p, k), StretchLo(g, p, k, side), StretchHi(g, p, k, side);
    StretchSurrounds(g, p, k, side);
    PositionAlong(q, k, n);
    PositionAlong(q, k, 5);
    PointAtPosition(Along(q, k, 5), k);
    forall i | o <= i < o + 6
      ensures cells[i] == side
    {
      PositionAlong(q, k, i - o);
      PointAtPosition(Along(q, k, i - o), k);
    }
    var own := Own(cells, side, lo, hi);
    assert SixFrom(own, o - lo);
  }

  lemma ClassOfSix(t: Table, g: Grid, p: Point, k: Angle, side: Side)
    requires MarksSixes(t) && OnBoard(p) && At(g, p) == side
    requires StretchLo(g, p, k, side) <= StretchHi(g, p, k, side) <= |WholeLine(g, p, k)|
    requires var own := Own(WholeLine(g, p, k), side, StretchLo(g, p, k, side), StretchHi(g, p, k, side));
             IsSegment(own) && HasSix(own)
    ensures ClassThrough(t, g, p, k, side) == 15
  {
    hide Class, Ray, At, StretchLo, StretchHi, WholeLine, HasSix;
  }

  // ----- the test only ever misses completions -----

  /** With such a table nothing is seen that is not there. */
  lemma SeenIsThere(t: Table, g: Grid, p: Point, k: Angle, side: Side)
    requires OnBoard(p) && At(g, p) == side && MarksSixes(t) && SegmentID(t, g, p, k, side) == 15
    ensures ClassThrough(t, g, p, k, side) == 15
  {
    hide LinePosition, StretchLo, StretchHi, Class, Own, OnEdge, SegmentID, WholeLine, HasSix;
    if SeesWhole(g, p, k, side) {
      SegmentIDIsClassThrough(t, g, p, k, side);
    } else {
      var cells, o := WholeLine(g, p, k), LinePosition(p, k);
      var lo, hi := StretchLo(g, p, k, side), StretchHi(g, p, k, side);
      SegmentIDFromEdge(t, g, p, k, side);
      StretchSurrounds(g, p, k, side);
      LongerHasSix(cells, side, lo, o, hi);
    }
  }

  lemma LongerHasSix(cells: seq<Cell>, side: Side, lo: nat, o: nat, hi: nat)
    requires lo <= o <= hi <= |cells| && HasSix(Own(cells, side, o, hi))
    ensures HasSix(Own(cells, side, lo, hi))
  {
    var short, long := Own(cells, side, o, hi), Own(cells, side, lo, hi);
    var i: nat :| SixFrom(short, i);
    forall j | i + (o - lo) <= j < i + (o - lo) + 6
      ensures long[j]
    {
      assert short[j - (o - lo)];
    }
    assert SixFrom(long, i + (o - lo));
  }

  lemma WinsAtIsThere(t: Table, g: Grid, p: Point, side: Side)
    requires OnBoard(p) && At(g, p) == side && MarksSixes(t) && WinsAt(t, g, p, side)
    ensures CompletesAt(t, g, p, side)
  {
    hide SegmentID, CompletesOn, ClassThrough, MarksSixes, At;
    var k: Angle :| SegmentID(t, g, p, k, side) == 15;
    SeenIsThere(t, g, p, k, side);
    CompletesByClass(t, g, p, k, side);
  }
}
