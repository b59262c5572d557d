/** What the trials read back: although only some lines are scanned again, and only in some fields, the numbers are
    those of the board with the trial stones. */
module TrialMeanings {
  import opened Geometry
  import opened Shape
  import opened LineScan
  import opened LineCache
  import opened Threats
  import opened Trials
  import opened Victory
  import opened Defence
  import opened WinSearch
  import opened Potential
  import opened Judgement
  import opened Verdicts

  // ----- the numbers of a line in any mode -----

  /** Two analyses with the same numbers, and with the same threat points if both list them. */
  predicate SameCounts(a: Line, b: Line, points: bool) {
    a.Value == b.Value && a.ThreatNum == b.ThreatNum && (points ==> a.ThreatPoint == b.ThreatPoint)
  }

  lemma SegmentCounts(t: Table, cells: seq<Cell>, start: Point, k: Angle, side: Side, which: Which, s: Segment)
    requires Fits(cells, s)
    ensures SameCounts(SegmentLine(t, cells, start, k, side, which, s), SegmentLine(t, cells, start, k, side, 0, s),
                       which == 1)
  {
    hide Class, Points, Pairs, ThreatGaps, Picks, PairPicks, ThreatsOf, Own;
  }

  lemma RunCounts(t: Table, cells: seq<Cell>, start: Point, k: Angle, side: Side, which: Which, n: nat, a: Line,
                  b: Line)
    requires n <= |cells| <= 19 && SameCounts(a, b, which == 1)
    ensures SameCounts(AddRun(t, cells, start, k, side, which, n, a), AddRun(t, cells, start, k, side, 0, n, b),
                       which == 1)
  {
    hide SegmentLine;
    if Run(cells, side, n) > 5 {
      SegmentCounts(t, cells, start, k, side, which, RunSegment(cells, side, n));
    }
  }

  lemma {:induction false} ClosedCounts(t: Table, cells: seq<Cell>, start: Point, k: Angle, side: Side, which: Which,
                                        n: nat)
    requires n <= |cells| <= 19
    ensures SameCounts(ClosedLine(t, cells, start, k, side, which, n), ClosedLine(t, cells, start, k, side, 0, n),
                       which == 1)
  {
    hide AddRun;
    if n > 0 {
      ClosedCounts(t, cells, start, k, side, which, n - 1);
      RunCounts(t, cells, start, k, side, which, n - 1, ClosedLine(t, cells, start, k, side, which, n - 1),
                ClosedLine(t, cells, start, k, side, 0, n - 1));
    }
  }

  /** The numbers of a line do not depend on the mode of its scan. */
  lemma ScanCounts(t: Table, g: Grid, id: LineId, side: Side, which: Which)
    ensures SameCounts(Scan(t, g, id, side, which), Scan(t, g, id, side, 0), which == 1)
  {
    hide SegmentLine, ClosedLine, AddRun, LineCells, FirstWin, Run;
    var cells, start, k, n := LineCells(g, id), LineStart(id), LineAngle(id), |LineCells(g, id)|;
    LineIsShort(g, id);
    var w := FirstWin(t, cells, side, 0);
    if w <= n {
      SegmentCounts(t, cells, start, k, side, which, RunSegment(cells, side, w));
    } else {
      ClosedCounts(t, cells, start, k, side, which, n);
      RunCounts(t, cells, start, k, side, which, n, ClosedLine(t, cells, start, k, side, which, n),
                ClosedLine(t, cells, start, k, side, 0, n));
    }
  }

  // ----- the cache with trial stones -----

  /** The cache has the numbers of a board for one side. */
  ghost predicate CountsOf(t: Table, g: Grid, c: Cache, side: Side, points: bool) {
    forall id: LineId :: SameCounts(c[SlotOf(side, id)], Scan(t, g, id, side, 0), points)
  }

  lemma CoherentCounts(t: Table, g: Grid, side: Side)
    ensures CountsOf(t, g, ScanAll(t, g, 0), side, true)
  {
    hide Scan;
  }

  /** Scanning the changed lines of a board again keeps the numbers right, in whatever mode. */
  lemma RescannedCounts(t: Table, g: Grid, h: Grid, c: Cache, src: Cache, ps: seq<Point>, modes: Modes, side: Side,
                        points: bool)
    requires CountsOf(t, g, c, side, points) && (points ==> modes.Of(side) == 1)
    requires forall id: LineId :: src[SlotOf(side, id)] == Scan(t, h, id, side, modes.Of(side))
    requires forall id: LineId :: !Marked(ps, id) ==> Scan(t, h, id, side, 0) == Scan(t, g, id, side, 0)
    ensures CountsOf(t, h, CopyMarked(c, src, ps, modes), side, points)
  {
    hide Scan, Marked;
    forall id: LineId
      ensures SameCounts(CopyMarked(c, src, ps, modes)[SlotOf(side, id)], Scan(t, h, id, side, 0), points)
    {
      assert IdOf(SlotOf(side, id)) == id && SideOf(SlotOf(side, id)) == side;
      ScanCounts(t, h, id, side, modes.Of(side));
    }
  }

  lemma RefreshedCounts(t: Table, g: Grid, c: Cache, p: Point, stone: Cell, modes: Modes, side: Side, points: bool)
    requires CountsOf(t, g, c, side, points) && (points ==> modes.Of(side) == 1)
    ensures CountsOf(t, Put(g, p, stone), Refreshed(t, Put(g, p, stone), c, p, modes), side, points)
  {
    hide Scan, CountsOf;
    var h := Put(g, p, stone);
    forall id: LineId
      ensures ScanModes(t, h, modes)[SlotOf(side, id)] == Scan(t, h, id, side, modes.Of(side))
      ensures !Marked([p], id) ==> Scan(t, h, id, side, 0) == Scan(t, g, id, side, 0)
    {
      assert IdOf(SlotOf(side, id)) == id && SideOf(SlotOf(side, id)) == side;
      assert p in [p];
      if !InCross(p, id) {
        ScanUntouched(t, g, p, stone, id, side, 0);
      }
    }
    RescannedCounts(t, g, h, c, ScanModes(t, h, modes), [p], modes, side, points);
  }

  lemma {:induction false} GatheredCounts(t: Table, g: Grid, c: Cache, side: Side, which: Which, n: nat)
    requires n <= LINES && CountsOf(t, g, c, side, which == 1)
    ensures SameCounts(Gather(c, side, which, n), Gather(ScanAll(t, g, 0), side, 0, n), which == 1)
  {
    hide Scan, ScanAll, Gather;
    GatherOne(c, side, which, n);
    GatherOne(ScanAll(t, g, 0), side, 0, n);
    if n > 0 {
      GatheredCounts(t, g, c, side, which, n - 1);
      CachedLine(t, g, side, n - 1);
      assert SameCounts(c[SlotOf(side, n - 1)], Scan(t, g, n - 1, side, 0), which == 1);
    }
  }

  /** In mode 1 the corrected count and its points are those of the board, in the other modes the number is the
      count before the correction. */
  lemma ReadCounts(t: Table, g: Grid, c: Cache, side: Side, which: Which)
    requires which != 0 && CountsOf(t, g, c, side, which == 1) && ThreatsOnBoard(c, side, which)
    ensures which != 1 ==> SideInfo(t, g, c, side, which).ThreatNum == RawThreats(t, g, side)
    ensures which == 1 ==> SameCounts(SideInfo(t, g, c, side, 1), CoherentInfo(t, g, side), true)
  {
    hide Gather, ScanAll, EnsuredThreatNum, UniquePoint;
    GatheredCounts(t, g, c, side, which, LINES);
    CoherentThreatsFree(t, g, side, 0);
    if which == 1 {
      SameSpread(t, g, c, side);
    } else {
      NotSpread(t, g, c, side, which);
    }
  }

  lemma SameSpread(t: Table, g: Grid, c: Cache, side: Side)
    requires CountsOf(t, g, c, side, true)
    ensures Spread(c, side, 1) <==> Spread(ScanAll(t, g, 0), side, 0)
  {
    hide Scan, ScanAll, LineAngle;
    forall id: LineId
      ensures c[SlotOf(side, id)].ThreatPoint == ScanAll(t, g, 0)[SlotOf(side, id)].ThreatPoint
    {
      CachedLine(t, g, side, id);
      assert SameCounts(c[SlotOf(side, id)], Scan(t, g, id, side, 0), true);
    }
  }

  lemma NotSpread(t: Table, g: Grid, c: Cache, side: Side, which: Which)
    requires which > 1 && ThreatsOnBoard(c, side, which)
    ensures !Spread(c, side, which)
    ensures SideInfo(t, g, c, side, which).ThreatNum == Gather(c, side, which, LINES).ThreatNum
  {
    hide Gather;
  }

  // ----- what the trials find -----

  /** The trial of one stone: in mode 1 the count and the points of the trial board, otherwise its raw count. */
  lemma TrialCounts(t: Table, g: Grid, p: Point, stone: Side, modes: Modes, side: Side, which: Which)
    requires which != 0 && (which == 1 ==> modes.Of(side) == 1)
    ensures var l, h := TrialInfo(t, g, p, stone, modes, side, which), Put(g, p, stone);
            && (which != 1 ==> l.ThreatNum == RawThreats(t, h, side))
            && (which == 1 ==> SameCounts(l, CoherentInfo(t, h, side), true))
  {
    hide SideInfo, CoherentInfo, RawThreats, CountsOf, ScanAll, Refreshed;
    CoherentCounts(t, g, side);
    FewerCounts(t, g, ScanAll(t, g, 0), side);
    RefreshedCounts(t, g, ScanAll(t, g, 0), p, stone, modes, side, which == 1);
    TrialThreatsFree(t, g, p, stone, modes, side, which);
    ReadCounts(t, Put(g, p, stone), Refreshed(t, Put(g, p, stone), ScanAll(t, g, 0), p, modes), side, which);
  }

  lemma FewerCounts(t: Table, g: Grid, c: Cache, side: Side)
    requires CountsOf(t, g, c, side, true)
    ensures CountsOf(t, g, c, side, false)
  {
    hide Scan;
  }

  /** The trial of an answer by two stones counts the threats of the board after it. */
  lemma PairCounts(t: Table, g: Grid, p: Point, q: Point, stone: Side, side: Side)
    ensures PairThreats(t, g, p, q, stone, side) == RawThreats(t, PairGrid(g, p, q, stone), side)
  {
    hide SideInfo, RawThreats, CountsOf, ScanAll, Refreshed;
    var g1, c := Put(g, p, stone), ScanAll(t, g, 0);
    CoherentCounts(t, g, side);
    FewerCounts(t, g, c, side);
    RefreshedCounts(t, g, c, p, stone, NUMBERS_ONLY, side, false);
    RefreshedCounts(t, g1, Refreshed(t, g1, c, p, NUMBERS_ONLY), q, stone, NUMBERS_ONLY, side, false);
    ReadCounts(t, PairGrid(g, p, q, stone), PairCache(t, g, p, q, stone), side, 7);
  }

  /** And so does the trial of a step whose value is adjusted. */
  lemma StepCounts(t: Table, g: Grid, p: Point, q: Point, stone: Side, side: Side)
    ensures StepInfo(t, g, p, q, stone, side).ThreatNum == RawThreats(t, PairGrid(g, p, q, stone), side)
  {
    hide SideInfo, RawThreats, CountsOf, Scan, Put;
    var h, c := PairGrid(g, p, q, stone), ScanAll(t, g, 0);
    CoherentCounts(t, g, side);
    FewerCounts(t, g, c, side);
    forall id: LineId
      ensures ScanAll(t, h, 2)[SlotOf(side, id)] == Scan(t, h, id, side, 2)
      ensures !Marked([p, q], id) ==> Scan(t, h, id, side, 0) == Scan(t, g, id, side, 0)
    {
      assert IdOf(SlotOf(side, id)) == id && SideOf(SlotOf(side, id)) == side;
      MarkedTwo(p, q, id);
      if !InCross(p, id) && !InCross(q, id) {
        ScanUntouched(t, g, p, stone, id, side, 0);
        ScanUntouched(t, Put(g, p, stone), q, stone, id, side, 0);
      }
    }
    RescannedCounts(t, g, h, c, ScanAll(t, h, 2), [p, q], Modes(2, 2), side, false);
    ReadCounts(t, h, CopyMarked(c, ScanAll(t, h, 2), [p, q], Modes(2, 2)), side, 2);
  }

  /** Before or after the correction, a count is positive exactly when the side can win. */
  lemma RawIsWinning(t: Table, g: Grid, side: Side)
    requires FindsThreats(t) && !SixInARow(g, side)
    ensures RawThreats(t, g, side) > 0 <==> CanWin(g, side)
  {
    hide CoherentInfo, RawThreats, FindsThreats, CanWin, SixInARow, Spread, ScanAll;
    CountAndRaw(t, g, side);
    CountedExactlyIfWinning(t, g, side);
  }

  /** A stone on the single threat point that opens a chance takes the win away from the attacker, and so does one
      whose answer is discounted. */
  lemma OpeningHolds(t: Table, g: Grid, p: Point, side1: Side, own: Which)
    requires own in {2, 3} && FindsThreats(t) && !SixInARow(Put(g, p, side1), Next(side1))
    ensures OpensPoint(t, g, p, side1, own) ==> !CanWin(Put(g, p, side1), Next(side1))
    ensures StaysStrong(t, g, p, Next(side1)) ==> !CanWin(Put(g, p, side1), Next(side1))
  {
    hide TrialInfo, CoherentInfo, RawThreats, FindsThreats, CanWin, SixInARow, Put;
    TrialCounts(t, g, p, side1, ModesFor(side1, own, 1), Next(side1), 1);
    TrialCounts(t, g, p, side1, Modes(2, 2), Next(side1), 2);
    CountedExactlyIfWinning(t, Put(g, p, side1), Next(side1));
    RawIsWinning(t, Put(g, p, side1), Next(side1));
  }

  /** An answer by two stones is discounted only if the attacker cannot win after it and the answering side can. */
  lemma PairDiscount(t: Table, g: Grid, p: Point, q: Point, side1: Side, largeDepth: int, beta: int)
    requires FindsThreats(t)
    requires !SixInARow(PairGrid(g, p, q, Next(side1)), 0) && !SixInARow(PairGrid(g, p, q, Next(side1)), 1)
    ensures var h, other := PairGrid(g, p, q, Next(side1)), Next(side1);
            var com, per := PairThreats(t, g, p, q, other, side1), PairThreats(t, g, p, q, other, other);
            && (com > 0 <==> CanWin(h, side1)) && (per > 0 <==> CanWin(h, other))
            && (DiscountPair(beta, com, per, largeDepth) != beta ==> !CanWin(h, side1) && CanWin(h, other))
  {
    hide PairThreats, RawThreats, FindsThreats, CanWin, SixInARow, PairGrid;
    var h, other := PairGrid(g, p, q, Next(side1)), Next(side1);
    PairCounts(t, g, p, q, other, side1);
    PairCounts(t, g, p, q, other, other);
    RawIsWinning(t, h, side1);
    RawIsWinning(t, h, other);
    NoNegativeCount(t, h, side1);
  }

  /** The correction of a step by its threats. */
  lemma AdjustmentValues(com: Line, per: Line)
    ensures com.ThreatNum <= 0 ==> -4 <= Adjustment(com, per) <= 4
    ensures com.ThreatNum == 1 ==> 1 <= Adjustment(com, per) <= 9
    ensures com.ThreatNum == 2 ==> 5 <= Adjustment(com, per) <= 13
    ensures com.ThreatNum > 2 ==> Adjustment(com, per) == 1000
  {
  }

  /** More threats never lower it, nor do own strong points, nor raise it those of the other side. */
  lemma AdjustmentMonotone(com: Line, per: Line, com2: Line, per2: Line)
    requires 0 <= com.ThreatNum <= com2.ThreatNum
    requires com.BigPotenPoint != [] ==> com2.BigPotenPoint != []
    requires per2.BigPotenPoint != [] ==> per.BigPotenPoint != []
    ensures Adjustment(com, per) <= Adjustment(com2, per2)
  {
  }

  /** A step after which its side can win is raised, by the most if that makes more than two threats; other steps
      are changed a little either way. */
  lemma AdjustedByThreats(t: Table, g: Grid, p: Point, q: Point, side: Side)
    requires FindsThreats(t) && !SixInARow(PairGrid(g, p, q, side), side)
    ensures var h, a := PairGrid(g, p, q, side), StepAdjustment(t, g, p, q, side);
            && (!CanWin(h, side) ==> -4 <= a <= 4)
            && (CanWin(h, side) ==> 1 <= a)
            && (RawThreats(t, h, side) > 2 <==> a == 1000)
  {
    hide StepInfo, RawThreats, FindsThreats, CanWin, SixInARow, PairGrid, Adjustment;
    var com, per := StepInfo(t, g, p, q, side, side), StepInfo(t, g, p, q, side, Next(side));
    StepCounts(t, g, p, q, side, side);
    RawIsWinning(t, PairGrid(g, p, q, side), side);
    AdjustmentValues(com, per);
  }

  // ----- the strong and weak points of a trial -----

  /** The same strong points, or the same weak points, if that is the list wanted. */
  predicate SameOffers(a: Line, b: Line, which: Which) {
    (which == 2 ==> a.BigPotenPoint == b.BigPotenPoint) && (which == 3 ==> a.SmaPotenPoint == b.SmaPotenPoint)
  }

  lemma SegmentOffers(t: Table, cells: seq<Cell>, start: Point, k: Angle, side: Side, which: Which, s: Segment)
    requires which in {2, 3} && Fits(cells, s) && SegmentClass(t, cells, side, s) < 9
    ensures SameOffers(SegmentLine(t, cells, start, k, side, which, s), SegmentLine(t, cells, start, k, side, 0, s),
                       which)
  {
    hide Class, Points, Pairs, ThreatGaps, Picks, PairPicks, ThreatsOf, Own;
  }

  lemma {:induction false} MergedOffers(t: Table, cells: seq<Cell>, start: Point, k: Angle, side: Side, which: Which,
                                        segs: seq<Segment>)
    requires which in {2, 3} && forall s <- segs :: Fits(cells, s) && SegmentClass(t, cells, side, s) < 9
    ensures SameOffers(Merged(t, cells, start, k, side, which, segs), Merged(t, cells, start, k, side, 0, segs), which)
  {
    hide SegmentLine, SegmentClass;
    if segs != [] {
      MergedOffers(t, cells, start, k, side, which, segs[..|segs| - 1]);
      SegmentOffers(t, cells, start, k, side, which, segs[|segs| - 1]);
    }
  }

  lemma ScanOffers(t: Table, g: Grid, id: LineId, side: Side, which: Which)
    requires which in {2, 3} && |LineCells(g, id)| <= 19 && QuietLine(t, LineCells(g, id), side)
    ensures SameOffers(Scan(t, g, id, side, which), Scan(t, g, id, side, 0), which)
  {
    hide Analysis, Segments, Merged, SegmentLine, SegmentClass, LineCells, IsMaximalSegment;
    var cells, start, k := LineCells(g, id), LineStart(id), LineAngle(id);
    AnalysisDecomposes(t, cells, start, k, side, which);
    AnalysisDecomposes(t, cells, start, k, side, 0);
    SegmentsExact(cells, side);
    MergedOffers(t, cells, start, k, side, which, Segments(cells, side));
  }

  /** The cache has the offers of a board for one side. */
  ghost predicate OffersOf(t: Table, g: Grid, c: Cache, side: Side, which: Which) {
    forall id: LineId :: SameOffers(c[SlotOf(side, id)], Scan(t, g, id, side, 0), which)
  }

  lemma RefreshedOffers(t: Table, g: Grid, p: Point, stone: Cell, modes: Modes, side: Side, which: Which)
    requires which in {2, 3} && modes.Of(side) == which && QuietSide(t, Put(g, p, stone), side)
    ensures OffersOf(t, Put(g, p, stone), Refreshed(t, Put(g, p, stone), ScanAll(t, g, 0), p, modes), side, which)
  {
    hide Scan, QuietSide, QuietLine, LineCells;
    var h := Put(g, p, stone);
    forall id: LineId
      ensures SameOffers(Refreshed(t, h, ScanAll(t, g, 0), p, modes)[SlotOf(side, id)], Scan(t, h, id, side, 0), which)
    {
      assert IdOf(SlotOf(side, id)) == id && SideOf(SlotOf(side, id)) == side;
      assert Marked([p], id) <==> InCross(p, id) by {
        assert p in [p];
      }
      if InCross(p, id) {
        QuietSideHasQuietLines(t, h, side, id);
        ScanOffers(t, h, id, side, which);
      } else {
        ScanUntouched(t, g, p, stone, id, side, 0);
      }
    }
  }

  lemma {:induction false} GatherOffers(t: Table, g: Grid, c: Cache, side: Side, which: Which, n: nat)
    requires n <= LINES && which in {2, 3} && OffersOf(t, g, c, side, which)
    ensures SameOffers(Gather(c, side, which, n), Gather(ScanAll(t, g, 0), side, 0, n), which)
  {
    hide Scan, ScanAll, Gather;
    GatherOne(c, side, which, n);
    GatherOne(ScanAll(t, g, 0), side, 0, n);
    if n > 0 {
      GatherOffers(t, g, c, side, which, n - 1);
      CachedLine(t, g, side, n - 1);
      assert SameOffers(c[SlotOf(side, n - 1)], Scan(t, g, n - 1, side, 0), which);
    }
  }

  /** Where the trial board is quiet, a trial in mode 2 reports its strong points, one in mode 3 its weak points. */
  lemma TrialOffers(t: Table, g: Grid, p: Point, stone: Side, modes: Modes, side: Side, which: Which)
    requires which in {2, 3} && modes.Of(side) == which && QuietSide(t, Put(g, p, stone), side)
    ensures SameOffers(TrialInfo(t, g, p, stone, modes, side, which), CoherentInfo(t, Put(g, p, stone), side), which)
  {
    hide Gather, Scan, EnsuredThreatNum, UniquePoint, QuietSide, ScanAll, Refreshed, Put, Spread;
    var h := Put(g, p, stone);
    RefreshedOffers(t, g, p, stone, modes, side, which);
    GatherOffers(t, h, Refreshed(t, h, ScanAll(t, g, 0), p, modes), side, which, LINES);
    TrialThreatsFree(t, g, p, stone, modes, side, which);
    CoherentThreatsFree(t, h, side, 0);
  }

  /** Where the board after it is quiet, an answer to the single threat opens a chance exactly when the attacker has
      no threat left on that board and the answering side a strong point, or in the other mode a weak one. */
  lemma OpeningExact(t: Table, g: Grid, p: Point, side1: Side, own: Which)
    requires own in {2, 3} && QuietSide(t, Put(g, p, side1), side1)
    ensures var h := Put(g, p, side1);
            OpensPoint(t, g, p, side1, own) <==>
              && CoherentInfo(t, h, Next(side1)).ThreatNum == 0
              && (if own == 2 then CoherentInfo(t, h, side1).BigPotenPoint
                  else CoherentInfo(t, h, side1).SmaPotenPoint) != []
  {
    hide TrialInfo, CoherentInfo, QuietSide, Put;
    TrialCounts(t, g, p, side1, ModesFor(side1, own, 1), Next(side1), 1);
    TrialOffers(t, g, p, side1, ModesFor(side1, own, 1), side1, own);
  }
}
