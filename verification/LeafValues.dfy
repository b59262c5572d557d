/** What the gathered value of a position is, and so the score of a leaf: the full evaluation of the board. */
module LeafValues {
  import opened Geometry
  import opened Shape
  import opened LineScan
  import opened LineCache
  import opened Threats
  import opened StepValue
  import opened Trials
  import opened GameTree

  /** No line of the board has a segment of class 15 for this side. */
  ghost predicate NoSixOnLines(t: Table, g: Grid, side: Side) {
    forall id: LineId :: NoWinOnLine(t, g, side, id)
  }

  ghost predicate NoWinOnLine(t: Table, g: Grid, side: Side, id: LineId) {
    |LineCells(g, id)| <= 19 && NoWin(t, LineCells(g, id), side)
  }

  lemma CachedValue(t: Table, g: Grid, side: Side, id: LineId)
    requires NoWinOnLine(t, g, side, id)
    ensures ScanAll(t, g, 0)[SlotOf(side, id)].Value == LineValues(t, g, side)[id]
  {
    hide Analysis, LineValue, NoWin, LineCells;
    AnalysisValue(t, LineCells(g, id), LineStart(id), LineAngle(id), side, 0);
  }

  /** The value gathered from the first `n` lines is the sum of their values. */
  lemma {:induction false} GatheredValue(t: Table, g: Grid, side: Side, n: nat)
    requires n <= LINES && NoSixOnLines(t, g, side)
    ensures Gather(ScanAll(t, g, 0), side, 0, n).Value == Sum(LineValues(t, g, side)[..n])
  {
    hide ScanAll, LineValues, NoWinOnLine, Gather;
    GatherOne(ScanAll(t, g, 0), side, 0, n);
    if n > 0 {
      GatheredValue(t, g, side, n - 1);
      assert NoWinOnLine(t, g, side, n - 1);
      CachedValue(t, g, side, n - 1);
      assert LineValues(t, g, side)[..n][..n - 1] == LineValues(t, g, side)[..n - 1];
    }
  }

  /** The value reported for a side is the summed value of all its lines. */
  lemma CoherentValue(t: Table, g: Grid, side: Side)
    requires NoSixOnLines(t, g, side)
    ensures CoherentInfo(t, g, side).Value == Sum(LineValues(t, g, side))
  {
    hide ScanAll, LineValues, NoSixOnLines, Gather, Spread, EnsuredThreatNum, UniquePoint, Sum;
    GatheredValue(t, g, side, LINES);
    CoherentThreatsFree(t, g, side, 0);
    assert LineValues(t, g, side)[..LINES] == LineValues(t, g, side);
  }

  /** The difference of the two reported values is the full evaluation of the board. */
  lemma ReportedDifference(t: Table, g: Grid, me: Side)
    requires NoSixOnLines(t, g, me) && NoSixOnLines(t, g, Next(me))
    ensures CoherentInfo(t, g, me).Value - CoherentInfo(t, g, Next(me)).Value == BoardValue(t, g, me)
  {
    hide CoherentInfo, LineValues, NoSixOnLines, Sum;
    CoherentValue(t, g, me);
    CoherentValue(t, g, Next(me));
  }

  /** A leaf is scored by the board as the engine's side sees it, at the greatest depth of a minimising node
      less the discount. */
  lemma LeafIsBoardValue(r: Rules, g: Grid, d: nat, mine: bool)
    requires NoSixOnLines(r.table, g, r.me) && NoSixOnLines(r.table, g, Next(r.me))
    ensures var com, per := CoherentInfo(r.table, g, r.me), CoherentInfo(r.table, g, Next(r.me));
            && (mine || d != r.largeDepth ==> LeafValue(r, g, d, mine, com, per) == BoardValue(r.table, g, r.me))
            && (!mine && d == r.largeDepth ==>
                  LeafValue(r, g, d, mine, com, per)
                  == Discounted(r.table, g, r.me, com, per, r.largeDepth, BoardValue(r.table, g, r.me)))
  {
    hide CoherentInfo, BoardValue, NoSixOnLines, Discounted;
    ReportedDifference(r.table, g, r.me);
  }
}
