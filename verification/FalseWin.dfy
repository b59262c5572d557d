/** A position in which the search for a win reports a step that does not win: its second stone only completes
    six together with a trial stone of an earlier pair. */
module FalseWin {
  import opened Geometry
  import opened LineCache
  import opened Threats
  import opened Completion
  import opened Victory
  import opened WinSteps
  import opened WinSearch
  import opened ThreatBoards

  const ROW: LineId := 9
  const COLUMN: LineId := 26

  /** The gaps of a four in row 9 and of a four in column 7, in the order of the search. */
  const POINTS := [Point(10, 9), Point(7, 16), Point(7, 11), Point(5, 9)]

  predicate OwnAt(p: Point) {
    (p.Y == 9 && 6 <= p.X <= 9) || (p.X == 7 && 12 <= p.Y <= 15)
  }

  predicate OppAt(p: Point) {
    (p.Y == 9 && (p.X == 4 || p.X == 11)) || (p.X == 7 && (p.Y == 10 || p.Y == 17))
  }

  function FoursBoard(): (g: Grid)
    ensures forall p :: OnBoard(p) ==> At(g, p) == if OwnAt(p) then 0 else if OppAt(p) then 1 else EMPTY
  {
    BoardOf(p => OwnAt(p), p => OppAt(p))
  }

  const FOURS: ThreatMap := map[ROW := Four(5), COLUMN := Four(11)]

  // ----- its threats -----

  lemma FoursBoardThreats()
    ensures OnlyThreats(FoursBoard(), FOURS)
  {
    hide FoursBoard, At, LineCells, FourInRow, ThreatAt;
    forall id: LineId, i: nat | FourInRow(FoursBoard(), id, i)
      ensures id in FOURS && FOURS[id].lo <= i <= FOURS[id].lo + 1
    {
      FourOnBoard(id, i);
    }
    RowFour();
    ColumnFour();
  }

  lemma FourOnBoard(id: LineId, i: nat)
    requires FourInRow(FoursBoard(), id, i)
    ensures (id == ROW && i == 6) || (id == COLUMN && i == 12)
  {
    hide FoursBoard, At;
    LineCellsHaveItsId(id, i);
    LineCellsHaveItsId(id, i + 3);
    assert OwnAt(Along(LineStart(id), LineAngle(id), i)) && OwnAt(Along(LineStart(id), LineAngle(id), i + 3));
  }

  lemma RowFour()
    ensures ThreatAt(LineCells(FoursBoard(), ROW), Four(5))
  {
    hide FoursBoard, At;
    assert forall i :: 0 <= i < 19 ==> Along(LineStart(ROW), LineAngle(ROW), i) == Point(i, 9);
  }

  lemma ColumnFour()
    ensures ThreatAt(LineCells(FoursBoard(), COLUMN), Four(11))
  {
    hide FoursBoard, At;
    assert forall i :: 0 <= i < 19 ==> Along(LineStart(COLUMN), LineAngle(COLUMN), i) == Point(7, i);
  }

  lemma PointsOnBoard()
    ensures PointsBelow(FOURS, LINES) == [Point(5, 9), Point(10, 9), Point(7, 11), Point(7, 16)]
    ensures CountBelow(FOURS, LINES) == 2
  {
    NoThreatsBetween(FOURS, 0, ROW);
    NoThreatsBetween(FOURS, ROW + 1, COLUMN);
    NoThreatsBetween(FOURS, COLUMN + 1, LINES);
  }

  lemma PointsInOrder()
    ensures UniquePoint([Point(5, 9), Point(10, 9), Point(7, 11), Point(7, 16)]) == POINTS
  {
    SortedIsUnique(UniquePoint([Point(5, 9), Point(10, 9), Point(7, 11), Point(7, 16)]), POINTS);
  }

  lemma ThreatsOnBoard()
    ensures ThreatsInSight(SixTable(), FoursBoard(), 0, POINTS)
  {
    hide SixTable, FoursBoard, ScanAll, Gather, OnlyThreats, PointsBelow, CountBelow, UniquePoint, BlockedByOne,
      BlockedByTwo, MarksSixes, MarksThreats;
    SixTableMarks();
    FoursBoardThreats();
    GatheredThreats(FoursBoard(), FOURS, LINES);
    PointsOnBoard();
    CoherentThreatsFree(SixTable(), FoursBoard(), 0, 0);
    PointsInOrder();
  }

  // ----- the pair that is reported -----

  lemma StonesOfSix(h: Grid, q: Point, k: Angle)
    requires OnBoard(q) && OnBoard(Along(q, k, 5))
    ensures SixAt(h, q, k, 0) ==>
              OnBoard(Along(q, k, 1)) && At(h, q) == 0 && At(h, Along(q, k, 1)) == 0 && At(h, Along(q, k, 5)) == 0
  {
    hide At;
    assert Along(q, k, 0) == q;
  }

  /** Five stones in row 9 and five in column 7 are no six. */
  lemma NoSix(h: Grid, y: int)
    requires y == 11 || y == 16
    requires forall p :: OnBoard(p) && At(h, p) == 0 ==> OwnAt(p) || p == Point(10, 9) || p == Point(7, y)
    ensures !SixInARow(h, 0)
  {
    hide At;
    forall q: Point, k: Angle | OnBoard(q) && OnBoard(Along(q, k, 5))
      ensures !SixAt(h, q, k, 0)
    {
      StonesOfSix(h, q, k);
    }
  }

  /** The board with the stones of the first point and of point `j`. */
  function WithPair(j: nat): Grid
    requires j < 4
  {
    Put(Put(FoursBoard(), POINTS[0], 0), POINTS[j], 0)
  }

  lemma PairMakesNoSix(j: nat)
    requires j == 1 || j == 2
    ensures !SixInARow(WithPair(j), 0)
  {
    hide FoursBoard, At, Put, SixInARow;
    forall p | OnBoard(p) && At(WithPair(j), p) == 0
      ensures OwnAt(p) || p == Point(10, 9) || p == POINTS[j]
    {
      PutAt(FoursBoard(), POINTS[0], 0, p);
      PutAt(Put(FoursBoard(), POINTS[0], 0), POINTS[j], 0, p);
    }
    NoSix(WithPair(j), POINTS[j].Y);
  }

  lemma FirstPairFails()
    ensures !WinsInTurn(SixTable(), FoursBoard(), POINTS, 0, 0, 1)
  {
    hide SixTable, FoursBoard, WinsAt, CompletesAt, SixInARow, MarksSixes, Put;
    SixTableMarks();
    NoStones(FoursBoard(), POINTS, 0);
    PairMakesNoSix(1);
    PairWinsIsCompletion(SixTable(), FoursBoard(), POINTS[0], POINTS[1], 0);
    forall p | p == POINTS[0] || p == POINTS[1]
      ensures !CompletesAt(SixTable(), WithPair(1), p, 0)
    {
      if CompletesAt(SixTable(), WithPair(1), p, 0) {
        CompletionIsSix(SixTable(), WithPair(1), p, 0);
      }
    }
  }

  /** With the trial stone of the first pair left on the board, the next pair fills column 7. */
  lemma NextPairSeemsToWin()
    ensures WinsInTurn(SixTable(), FoursBoard(), POINTS, 0, 0, 2)
  {
    hide SixTable, FoursBoard, WinsAt, CompletesAt, MarksSixes, Put, StonesOn;
    SixTableMarks();
    var h, q := StonesOn(FoursBoard(), POINTS, 0, 3), Point(7, 11);
    TrialPair(FoursBoard(), POINTS, 0, 0, 2);
    forall n | 0 <= n <= 5
      ensures OnBoard(Along(q, 2, n)) && At(h, Along(q, 2, n)) == 0
    {
      StonesOnAt(FoursBoard(), POINTS, 0, 3, Along(q, 2, n));
      assert POINTS[..3][1] == Point(7, 16) && POINTS[..3][2] == Point(7, 11);
    }
    SixIsCompletion(SixTable(), h, q, 2, 0, 0);
    WinsAtIsCompletion(SixTable(), h, q, 0);
  }

  lemma FirstReport()
    ensures IsFirstWin(SixTable(), FoursBoard(), POINTS, 0, 0, 2)
  {
    hide SixTable, FoursBoard, PairWins;
    FirstPairFails();
    NextPairSeemsToWin();
  }

  /** All threats are in sight, for a table that marks sixes and threats; the pair that is found makes no six. */
  lemma ReportedStepFails()
    ensures ThreatsInSight(SixTable(), FoursBoard(), 0, POINTS)
    ensures IsFirstWin(SixTable(), FoursBoard(), POINTS, 0, 0, 2)
    ensures !SixInARow(Put(Put(FoursBoard(), POINTS[0], 0), POINTS[2], 0), 0)
  {
    hide SixTable, FoursBoard, IsFirstWin, SixInARow, ThreatsInSight;
    ThreatsOnBoard();
    FirstReport();
    PairMakesNoSix(2);
  }
}
