/** The threat count of a position as the sum over all its segments: none is lost, and none is negative. */
module ThreatCounts {
  import opened Geometry
  import opened Shape
  import opened LineScan
  import opened LineCache
  import opened Threats
  import opened LeafValues
  import opened WinSearch

  /** What one segment of a line adds to the threat count. */
  function SegmentThreats(t: Table, cells: seq<Cell>, side: Side, s: Segment): (n: int)
    requires Fits(cells, s)
    ensures n >= 0
    ensures n > 0 <==> IsThreatClass(SegmentClass(t, cells, side, s))
  {
    ThreatsOf(SegmentClass(t, cells, side, s))
  }

  lemma SegmentLineThreats(t: Table, cells: seq<Cell>, start: Point, k: Angle, side: Side, which: Which, s: Segment)
    requires Fits(cells, s)
    ensures SegmentLine(t, cells, start, k, side, which, s).ThreatNum == SegmentThreats(t, cells, side, s)
  {
    hide Class, Points, Pairs, ThreatGaps, Picks, PairPicks, ThreatsOf;
  }

  /** Merging counts the threats of every segment. */
  lemma {:induction false} MergedCounts(t: Table, cells: seq<Cell>, start: Point, k: Angle, side: Side,
                                        segs: seq<Segment>)
    requires forall s <- segs :: Fits(cells, s)
    ensures Merged(t, cells, start, k, side, 0, segs).ThreatNum >= 0
    ensures forall s <- segs :: SegmentThreats(t, cells, side, s) <= Merged(t, cells, start, k, side, 0, segs).ThreatNum
  {
    hide SegmentLine, SegmentThreats;
    if segs != [] {
      var init, last := segs[..|segs| - 1], segs[|segs| - 1];
      MergedCounts(t, cells, start, k, side, init);
      SegmentLineThreats(t, cells, start, k, side, 0, last);
      assert forall s <- segs :: s in init || s == last;
    }
  }

  lemma LineCounts(t: Table, g: Grid, side: Side, id: LineId)
    ensures Scan(t, g, id, side, 0).ThreatNum >= 0
    ensures NoWinOnLine(t, g, side, id) ==>
              forall s :: IsMaximalSegment(LineCells(g, id), side, s) ==>
                Fits(LineCells(g, id), s)
                && SegmentThreats(t, LineCells(g, id), side, s) <= Scan(t, g, id, side, 0).ThreatNum
  {
    hide Analysis, Segments, Merged, SegmentLine, SegmentClass, LineCells, SegmentThreats, IsMaximalSegment;
    var cells, start, k := LineCells(g, id), LineStart(id), LineAngle(id);
    LineIsShort(g, id);
    AnalysisDecomposes(t, cells, start, k, side, 0);
    SegmentsExact(cells, side);
    if NoWin(t, cells, side) {
      MergedCounts(t, cells, start, k, side, Segments(cells, side));
    } else {
      MaximalFits(cells, side);
      var s :| IsMaximalSegment(cells, side, s) && SegmentClass(t, cells, side, s) == 15
               && Analysis(t, cells, start, k, side, 0) == SegmentLine(t, cells, start, k, side, 0, s);
      SegmentLineThreats(t, cells, start, k, side, 0, s);
    }
  }

  lemma CountNotNegative(t: Table, g: Grid, side: Side, id: LineId)
    ensures Scan(t, g, id, side, 0).ThreatNum >= 0
  {
    hide Scan, NoWinOnLine, IsMaximalSegment, SegmentThreats, LineCells;
    LineCounts(t, g, side, id);
  }

  lemma MaximalFits(cells: seq<Cell>, side: Side)
    requires |cells| <= 19
    ensures forall s :: IsMaximalSegment(cells, side, s) ==> Fits(cells, s)
  {
  }

  lemma {:induction false} GatherCounts(t: Table, g: Grid, side: Side, n: nat)
    requires n <= LINES
    ensures Gather(ScanAll(t, g, 0), side, 0, n).ThreatNum >= 0
    ensures forall id: LineId :: id < n ==>
              Scan(t, g, id, side, 0).ThreatNum <= Gather(ScanAll(t, g, 0), side, 0, n).ThreatNum
  {
    hide ScanAll, Scan, Gather;
    GatherStep(ScanAll(t, g, 0), side, n);
    if n > 0 {
      GatherCounts(t, g, side, n - 1);
      CachedLine(t, g, side, n - 1);
      CountNotNegative(t, g, side, n - 1);
    }
  }

  lemma GatherStep(c: Cache, side: Side, n: nat)
    requires n <= LINES
    ensures n == 0 ==> Gather(c, side, 0, n).ThreatNum == 0
    ensures n > 0 ==> Gather(c, side, 0, n).ThreatNum
                      == Gather(c, side, 0, n - 1).ThreatNum + c[SlotOf(side, n - 1)].ThreatNum
  {
  }

  /** Without a counted threat no segment is of a threat class. */
  lemma NoThreatAnywhere(t: Table, g: Grid, side: Side, id: LineId, s: Segment)
    requires Gather(ScanAll(t, g, 0), side, 0, LINES).ThreatNum <= 0 && NoSixOnLines(t, g, side)
    requires IsMaximalSegment(LineCells(g, id), side, s)
    ensures Fits(LineCells(g, id), s) && !IsThreatClass(SegmentClass(t, LineCells(g, id), side, s))
  {
    hide ScanAll, Scan, Gather, LineCells, SegmentClass, NoWinOnLine, IsMaximalSegment;
    assert NoWinOnLine(t, g, side, id);
    GatherCounts(t, g, side, LINES);
    LineCounts(t, g, side, id);
  }
}
