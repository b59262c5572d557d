/** A position with a single threat point: a stone there wins, but the search for a win only tries pairs. */
module SoleThreat {
  import opened Geometry
  import opened LineCache
  import opened Threats
  import opened Completion
  import opened Trials
  import opened WinSteps
  import opened WinSearch
  import opened ThreatBoards

  const ROW: LineId := 9
  const GAP := Point(12, 9)

  /** Five stones in row 9, closed on the left, with one gap before the opponent stone on the right. */
  predicate OwnAt(p: Point) {
    p.Y == 9 && 7 <= p.X <= 11
  }

  predicate OppAt(p: Point) {
    p == Point(6, 9) || p == Point(13, 9)
  }

  function ClosedBoard(): (g: Grid)
    ensures forall p :: OnBoard(p) ==> At(g, p) == if OwnAt(p) then 0 else if OppAt(p) then 1 else EMPTY
  {
    BoardOf(p => OwnAt(p), p => OppAt(p))
  }

  const CLOSED_FIVE: ThreatMap := map[ROW := Five(7)]

  lemma ClosedBoardThreat()
    ensures OnlyThreats(ClosedBoard(), CLOSED_FIVE)
  {
    hide ClosedBoard, At, LineCells, FourInRow, ThreatAt;
    forall id: LineId, i: nat | FourInRow(ClosedBoard(), id, i)
      ensures id in CLOSED_FIVE && CLOSED_FIVE[id].lo <= i <= CLOSED_FIVE[id].lo + 1
    {
      FourInRowNine(id, i);
    }
    FiveInRow();
  }

  lemma FourInRowNine(id: LineId, i: nat)
    requires FourInRow(ClosedBoard(), id, i)
    ensures id == ROW && 7 <= i <= 8
  {
    hide ClosedBoard, At;
    LineCellsHaveItsId(id, i);
    LineCellsHaveItsId(id, i + 3);
    assert OwnAt(Along(LineStart(id), LineAngle(id), i)) && OwnAt(Along(LineStart(id), LineAngle(id), i + 3));
  }

  lemma FiveInRow()
    ensures ThreatAt(LineCells(ClosedBoard(), ROW), Five(7))
  {
    hide ClosedBoard, At;
    assert forall i :: 0 <= i < 19 ==> Along(LineStart(ROW), LineAngle(ROW), i) == Point(i, 9);
  }

  lemma PointOnClosedBoard()
    ensures PointsBelow(CLOSED_FIVE, LINES) == [GAP] && CountBelow(CLOSED_FIVE, LINES) == 1
  {
    NoThreatsBetween(CLOSED_FIVE, 0, ROW);
    NoThreatsBetween(CLOSED_FIVE, ROW + 1, LINES);
  }

  lemma OneThreat()
    ensures CoherentInfo(SixTable(), ClosedBoard(), 0).ThreatPoint == [GAP]
    ensures CoherentInfo(SixTable(), ClosedBoard(), 0).ThreatNum == 1
  {
    hide SixTable, ClosedBoard, ScanAll, Gather, OnlyThreats, PointsBelow, CountBelow, BlockedByOne, BlockedByTwo;
    ClosedBoardThreat();
    GatheredThreats(ClosedBoard(), CLOSED_FIVE, LINES);
    PointOnClosedBoard();
    CoherentThreatsFree(SixTable(), ClosedBoard(), 0, 0);
    assert UniquePoint([GAP]) == [GAP];
  }

  /** The position has one counted threat in plain sight, for a table that marks sixes and threats; a stone on
      its point completes six; but no pair is found, and the search reports no step. */
  lemma WinNotFound()
    ensures ThreatsInSight(SixTable(), ClosedBoard(), 0, [GAP])
    ensures CoherentInfo(SixTable(), ClosedBoard(), 0).ThreatNum == 1
    ensures CompletesAt(SixTable(), Put(ClosedBoard(), GAP, 0), GAP, 0)
    ensures !SomePairWins(SixTable(), ClosedBoard(), [GAP], 0)
  {
    hide SixTable, ClosedBoard, CoherentInfo, CompletesAt, MarksSixes, MarksThreats;
    SixTableMarks();
    OneThreat();
    forall n | 0 <= n <= 5
      ensures OnBoard(Along(Point(7, 9), 0, n)) && At(Put(ClosedBoard(), GAP, 0), Along(Point(7, 9), 0, n)) == 0
    {
      PutAt(ClosedBoard(), GAP, 0, Along(Point(7, 9), 0, n));
    }
    SixCompletes(Put(ClosedBoard(), GAP, 0), Point(7, 9), 0, GAP);
  }
}
