/** Positions in which a completion on the edge is missed: the threat count is one although no single stone
    blocks, and the search for a win finds nothing although either threat point wins. */
module EdgeMiss {
  import opened Geometry
  import opened LineCache
  import opened Threats
  import opened Blocking
  import opened Completion
  import opened Trials
  import opened Defence
  import opened WinSearch
  import opened WinSteps
  import opened ThreatBoards

  // ----- a threat in row 9 up to the edge, and one in column 5 -----

  const ROW: LineId := 9
  const COLUMN: LineId := 24
  const RIGHT := Point(18, 9)
  const ABOVE := Point(5, 9)
  const BOTH := [RIGHT, ABOVE]

  predicate OwnAt(p: Point) {
    (p.Y == 9 && 13 <= p.X <= 17) || (p.X == 5 && 4 <= p.Y <= 8)
  }

  predicate OppAt(p: Point) {
    p == Point(12, 9) || p == Point(5, 3) || p == Point(5, 10)
  }

  function EdgeBoard(): (g: Grid)
    ensures forall p :: OnBoard(p) ==> At(g, p) == if OwnAt(p) then 0 else if OppAt(p) then 1 else EMPTY
  {
    BoardOf(p => OwnAt(p), p => OppAt(p))
  }

  const EDGE_THREATS: ThreatMap := map[ROW := Five(13), COLUMN := Five(4)]

  lemma EdgeBoardThreats()
    ensures OnlyThreats(EdgeBoard(), EDGE_THREATS)
  {
    hide EdgeBoard, At, LineCells, FourInRow, ThreatAt;
    forall id: LineId, i: nat | FourInRow(EdgeBoard(), id, i)
      ensures id in EDGE_THREATS && EDGE_THREATS[id].lo <= i <= EDGE_THREATS[id].lo + 1
    {
      FourOnEdgeBoard(id, i);
    }
    RowFive();
    ColumnFive();
  }

  lemma FourOnEdgeBoard(id: LineId, i: nat)
    requires FourInRow(EdgeBoard(), id, i)
    ensures (id == ROW && 13 <= i <= 14) || (id == COLUMN && 4 <= i <= 5)
  {
    hide EdgeBoard, At;
    LineCellsHaveItsId(id, i);
    LineCellsHaveItsId(id, i + 3);
    assert OwnAt(Along(LineStart(id), LineAngle(id), i)) && OwnAt(Along(LineStart(id), LineAngle(id), i + 1));
    assert OwnAt(Along(LineStart(id), LineAngle(id), i + 3));
  }

  lemma RowFive()
    ensures ThreatAt(LineCells(EdgeBoard(), ROW), Five(13))
  {
    hide EdgeBoard, At;
    assert forall i :: 0 <= i < 19 ==> Along(LineStart(ROW), LineAngle(ROW), i) == Point(i, 9);
  }

  lemma ColumnFive()
    ensures ThreatAt(LineCells(EdgeBoard(), COLUMN), Five(4))
  {
    hide EdgeBoard, At;
    assert forall i :: 0 <= i < 19 ==> Along(LineStart(COLUMN), LineAngle(COLUMN), i) == Point(5, i);
  }

  lemma PointsOnEdgeBoard()
    ensures PointsBelow(EDGE_THREATS, LINES) == BOTH && CountBelow(EDGE_THREATS, LINES) == 2
    ensures PointsOn(EDGE_THREATS, ROW) != [] && PointsOn(EDGE_THREATS, COLUMN) != []
  {
    NoThreatsBetween(EDGE_THREATS, 0, ROW);
    NoThreatsBetween(EDGE_THREATS, ROW + 1, COLUMN);
    NoThreatsBetween(EDGE_THREATS, COLUMN + 1, LINES);
  }

  lemma AllThreats()
    ensures var l := Gather(ScanAll(SixTable(), EdgeBoard(), 0), 0, 0, LINES);
            l.ThreatNum == 2 && l.ThreatPoint == BOTH
    ensures Spread(ScanAll(SixTable(), EdgeBoard(), 0), 0, 0)
  {
    hide SixTable, EdgeBoard, Scan, Gather, OnlyThreats, PointsBelow, PointsOn, CountBelow;
    EdgeBoardThreats();
    GatheredThreats(EdgeBoard(), EDGE_THREATS, LINES);
    PointsOnEdgeBoard();
    LineOfThreats(EdgeBoard(), EDGE_THREATS, ROW);
    LineOfThreats(EdgeBoard(), EDGE_THREATS, COLUMN);
    var c := ScanAll(SixTable(), EdgeBoard(), 0);
    assert c[SlotOf(0, ROW)].ThreatPoint != [] && c[SlotOf(0, COLUMN)].ThreatPoint != [];
  }

  lemma TestIsPassed()
    ensures Blocks(SixTable(), EdgeBoard(), BOTH, 1, 1, 0)
  {
    hide SixTable, EdgeBoard, WinsAt;
    var h := Put(Put(EdgeBoard(), ABOVE, 1), ABOVE, 1);
    var h2 := Put(h, RIGHT, 0);
    forall y | 0 <= y < 19
      ensures At(h2, Point(18, y)) == if y == 9 then 0 else EMPTY
    {
      PutAt(EdgeBoard(), ABOVE, 1, Point(18, y));
      PutAt(Put(EdgeBoard(), ABOVE, 1), ABOVE, 1, Point(18, y));
      PutAt(h, RIGHT, 0, Point(18, y));
    }
    EdgeIsNotSeen(h2, RIGHT);
  }

  /** Blocking one of the two points leaves the six on the other one. */
  lemma OneIsNotEnough(i: nat)
    requires i < 2
    ensures !BlocksTruly(SixTable(), EdgeBoard(), BOTH, i, i, 0)
  {
    hide SixTable, EdgeBoard, CompletesAt;
    var j := 1 - i;
    var h := Put(Put(EdgeBoard(), BOTH[i], 1), BOTH[i], 1);
    var h2 := Put(h, BOTH[j], 0);
    var q, k := if j == 0 then Point(13, 9) else Point(5, 4), if j == 0 then 0 else 2;
    forall n | 0 <= n <= 5
      ensures OnBoard(Along(q, k, n)) && At(h2, Along(q, k, n)) == 0
    {
      var p := Along(q, k, n);
      PutAt(EdgeBoard(), BOTH[i], 1, p);
      PutAt(Put(EdgeBoard(), BOTH[i], 1), BOTH[i], 1, p);
      PutAt(h, BOTH[j], 0, p);
    }
    SixCompletes(h2, q, k, BOTH[j]);
    assert OneStoneCompletes(SixTable(), h, BOTH, j, 0);
  }

  /** For a table that marks exactly six in a row, this position has two threats in two directions; no single
      stone on a threat point blocks them, and yet the threat count is one. */
  lemma ThreatNumTooLow()
    ensures MarksSixes(SixTable()) && RawThreats(SixTable(), EdgeBoard(), 0) == 2
    ensures Spread(ScanAll(SixTable(), EdgeBoard(), 0), 0, 0)
    ensures CoherentInfo(SixTable(), EdgeBoard(), 0).ThreatPoint == BOTH
    ensures CoherentInfo(SixTable(), EdgeBoard(), 0).ThreatNum == 1
    ensures forall p <- BOTH :: OnBoard(p)
    ensures !TrulyBlockedByOne(SixTable(), EdgeBoard(), BOTH, 0)
  {
    hide SixTable, EdgeBoard, ScanAll, Gather, Spread, Blocks, BlocksTruly, UniquePoint, MarksSixes;
    SixTableMarks();
    AllThreats();
    TestIsPassed();
    OneIsNotEnough(0);
    OneIsNotEnough(1);
    CoherentThreatsFree(SixTable(), EdgeBoard(), 0, 0);
    BothAreUnique();
  }

  lemma BothAreUnique()
    ensures UniquePoint(BOTH) == BOTH
  {
    assert BOTH[..1] == [RIGHT];
    SortedIsUnique(UniquePoint(BOTH), BOTH);
  }

  // ----- two threats in rows 9 and 11 up to the edge -----

  const UPPER_ROW: LineId := 11
  const UPPER := Point(18, 11)
  const EDGES := [UPPER, RIGHT]

  predicate OwnInRows(p: Point) {
    (p.Y == 9 || p.Y == 11) && 13 <= p.X <= 17
  }

  predicate OppInRows(p: Point) {
    (p.Y == 9 || p.Y == 11) && p.X == 12
  }

  function RowsBoard(): (g: Grid)
    ensures forall p :: OnBoard(p) ==> At(g, p) == if OwnInRows(p) then 0 else if OppInRows(p) then 1 else EMPTY
  {
    BoardOf(p => OwnInRows(p), p => OppInRows(p))
  }

  const ROWS_THREATS: ThreatMap := map[ROW := Five(13), UPPER_ROW := Five(13)]

  lemma RowsBoardThreats()
    ensures OnlyThreats(RowsBoard(), ROWS_THREATS)
  {
    hide RowsBoard, At, LineCells, FourInRow, ThreatAt;
    forall id: LineId, i: nat | FourInRow(RowsBoard(), id, i)
      ensures id in ROWS_THREATS && ROWS_THREATS[id].lo <= i <= ROWS_THREATS[id].lo + 1
    {
      FourOnRowsBoard(id, i);
    }
    FiveInRow(ROW);
    FiveInRow(UPPER_ROW);
  }

  lemma FourOnRowsBoard(id: LineId, i: nat)
    requires FourInRow(RowsBoard(), id, i)
    ensures (id == ROW || id == UPPER_ROW) && 13 <= i <= 14
  {
    hide RowsBoard, At;
    LineCellsHaveItsId(id, i);
    LineCellsHaveItsId(id, i + 3);
    assert OwnInRows(Along(LineStart(id), LineAngle(id), i)) && OwnInRows(Along(LineStart(id), LineAngle(id), i + 1));
    assert OwnInRows(Along(LineStart(id), LineAngle(id), i + 3));
  }

  lemma FiveInRow(id: LineId)
    requires id == ROW || id == UPPER_ROW
    ensures ThreatAt(LineCells(RowsBoard(), id), Five(13))
  {
    hide RowsBoard, At;
    assert forall i :: 0 <= i < 19 ==> Along(LineStart(id), LineAngle(id), i) == Point(i, id);
  }

  lemma PointsOnRowsBoard()
    ensures PointsBelow(ROWS_THREATS, LINES) == [RIGHT, UPPER] && CountBelow(ROWS_THREATS, LINES) == 2
  {
    NoThreatsBetween(ROWS_THREATS, 0, ROW);
    NoThreatsBetween(ROWS_THREATS, ROW + 1, UPPER_ROW);
    NoThreatsBetween(ROWS_THREATS, UPPER_ROW + 1, LINES);
  }

  lemma OneDirection()
    ensures !Spread(ScanAll(SixTable(), RowsBoard(), 0), 0, 0)
  {
    hide SixTable, RowsBoard, ScanAll, OnlyThreats, Scan;
    RowsBoardThreats();
    forall id: LineId
      ensures ScanAll(SixTable(), RowsBoard(), 0)[SlotOf(0, id)].ThreatPoint != [] ==> LineAngle(id) == 0
    {
      LineOfThreats(RowsBoard(), ROWS_THREATS, id);
      CachedLine(SixTable(), RowsBoard(), 0, id);
    }
  }

  lemma RowThreats()
    ensures CoherentInfo(SixTable(), RowsBoard(), 0).ThreatPoint == EDGES
    ensures CoherentInfo(SixTable(), RowsBoard(), 0).ThreatNum == 2
  {
    hide SixTable, RowsBoard, ScanAll, Gather, Spread, OnlyThreats, PointsBelow, CountBelow, UniquePoint,
      BlockedByOne, BlockedByTwo;
    RowsBoardThreats();
    GatheredThreats(RowsBoard(), ROWS_THREATS, LINES);
    PointsOnRowsBoard();
    CoherentThreatsFree(SixTable(), RowsBoard(), 0, 0);
    OneDirection();
    EdgesAreUnique();
  }

  lemma EdgesAreUnique()
    ensures UniquePoint([RIGHT, UPPER]) == EDGES
  {
    assert [RIGHT, UPPER][..1] == [RIGHT];
    SortedIsUnique(UniquePoint([RIGHT, UPPER]), EDGES);
  }

  /** Neither stone is seen to win. */
  lemma PairIsNotSeen()
    ensures !PairWins(SixTable(), RowsBoard(), UPPER, RIGHT, 0)
  {
    hide SixTable, RowsBoard, WinsAt;
    var h := Put(RowsBoard(), UPPER, 0);
    var h2 := Put(h, RIGHT, 0);
    forall y | 0 <= y < 19
      ensures At(h2, Point(18, y)) == if y == 9 || y == 11 then 0 else EMPTY
    {
      PutAt(RowsBoard(), UPPER, 0, Point(18, y));
      PutAt(h, RIGHT, 0, Point(18, y));
    }
    EdgeIsNotSeen(h2, RIGHT);
    EdgeIsNotSeen(h2, UPPER);
  }

  /** Each point alone completes six. */
  lemma EitherCompletes(i: nat)
    requires i < 2
    ensures CompletesAt(SixTable(), Put(RowsBoard(), EDGES[i], 0), EDGES[i], 0)
  {
    hide SixTable, RowsBoard, CompletesAt;
    var q := Point(13, EDGES[i].Y);
    forall n | 0 <= n <= 5
      ensures OnBoard(Along(q, 0, n)) && At(Put(RowsBoard(), EDGES[i], 0), Along(q, 0, n)) == 0
    {
      PutAt(RowsBoard(), EDGES[i], 0, Along(q, 0, n));
    }
    SixCompletes(Put(RowsBoard(), EDGES[i], 0), q, 0, EDGES[i]);
  }

  /** With its two threat points on the edge, this position is won by either of them, and yet the search for
      a win finds no pair. */
  lemma WinNotFoundOnEdge()
    ensures CoherentInfo(SixTable(), RowsBoard(), 0).ThreatNum == 2
    ensures CoherentInfo(SixTable(), RowsBoard(), 0).ThreatPoint == EDGES
    ensures forall p <- EDGES :: OnBoard(p) && CompletesAt(SixTable(), Put(RowsBoard(), p, 0), p, 0)
    ensures !SomePairWins(SixTable(), RowsBoard(), EDGES, 0)
  {
    hide SixTable, RowsBoard, CoherentInfo, PairWins, CompletesAt;
    RowThreats();
    EitherCompletes(0);
    EitherCompletes(1);
    PairIsNotSeen();
    forall i: nat, j: nat
      ensures !WinsInTurn(SixTable(), RowsBoard(), EDGES, 0, i, j)
    {
      if i < j < 2 {
        NoStones(RowsBoard(), EDGES, 0);
      }
    }
  }
}
