/** Which answers hold: after a step on threat points that block, and only then, the attacker cannot win at once. */
module Answers {
  import opened Geometry
  import opened Shape
  import opened LineScan
  import opened LineCache
  import opened Threats
  import opened Completion
  import opened Blocking
  import opened Victory
  import opened Trials
  import opened GameTree
  import opened LeafValues
  import opened WinSearch
  import opened Judgement
  import opened Losses

  // ----- every cell that completes a window is a threat point -----

  lemma {:induction false} MergedPoints(t: Table, cells: seq<Cell>, start: Point, k: Angle, side: Side,
                                        segs: seq<Segment>, s: Segment)
    requires (forall r <- segs :: Fits(cells, r)) && s in segs
    ensures forall p <- SegmentLine(t, cells, start, k, side, 0, s).ThreatPoint ::
              p in Merged(t, cells, start, k, side, 0, segs).ThreatPoint
  {
    hide SegmentLine;
    if s != segs[|segs| - 1] {
      MergedPoints(t, cells, start, k, side, segs[..|segs| - 1], s);
    }
  }

  lemma ScannedPoints(t: Table, g: Grid, side: Side, id: LineId, s: Segment)
    requires NoWinOnLine(t, g, side, id) && IsMaximalSegment(LineCells(g, id), side, s)
    ensures Fits(LineCells(g, id), s)
    ensures forall p <- SegmentLine(t, LineCells(g, id), LineStart(id), LineAngle(id), side, 0, s).ThreatPoint ::
              p in Scan(t, g, id, side, 0).ThreatPoint
  {
    hide Analysis, Segments, Merged, SegmentLine, SegmentClass, LineCells, IsMaximalSegment;
    var cells, start, k := LineCells(g, id), LineStart(id), LineAngle(id);
    AnalysisDecomposes(t, cells, start, k, side, 0);
    SegmentsExact(cells, side);
    MergedPoints(t, cells, start, k, side, Segments(cells, side), s);
  }

  lemma ScannedIsListed(t: Table, g: Grid, side: Side, id: LineId, p: Point)
    requires p in Scan(t, g, id, side, 0).ThreatPoint
    ensures p in CoherentInfo(t, g, side).ThreatPoint
  {
    hide ScanAll, Scan, Gather, EnsuredThreatNum, Spread;
    CoherentThreatsFree(t, g, side, 0);
    CachedLine(t, g, side, id);
    GatherHas(ScanAll(t, g, 0), side, LINES, id, p);
  }

  /** The gaps of a window in a segment of a threat class are threat points. */
  lemma GapIsListed(t: Table, g: Grid, side: Side, id: LineId, s: Segment, x: nat)
    requires NoWinOnLine(t, g, side, id) && IsMaximalSegment(LineCells(g, id), side, s) && Fits(LineCells(g, id), s)
    requires IsThreatClass(SegmentClass(t, LineCells(g, id), side, s))
    requires var own := Own(LineCells(g, id), side, s.lo, s.hi); x in ThreatGaps(own, |own| - 5)
    ensures Along(LineStart(id), LineAngle(id), s.lo + x) in CoherentInfo(t, g, side).ThreatPoint
  {
    hide SegmentLine, SegmentClass, CoherentInfo, Scan, LineCells, ThreatGaps, Own, NoWinOnLine, IsMaximalSegment;
    ReportedGaps(t, LineCells(g, id), LineStart(id), LineAngle(id), side, s, x);
    ScannedPoints(t, g, side, id, s);
    ScannedIsListed(t, g, side, id, Along(LineStart(id), LineAngle(id), s.lo + x));
  }

  /** Six cells that one step turns into six in a row are own stones, but for one or two threat points. */
  lemma CompletedWindow(t: Table, g: Grid, m: Step, side: Side, q: Point, k: Angle) returns (a: nat, b: nat)
    requires FindsThreats(t) && !SixInARow(g, side) && LegalStep(g, m)
    requires OnBoard(q) && OnBoard(Along(q, k, 5)) && SixAt(After(g, m, side), q, k, side)
    ensures Window(g, CoherentInfo(t, g, side).ThreatPoint, side, q, k, a, b)
  {
    hide CoherentInfo, SixInARow, HasSix, LineCells, Class, At, Put, Along, LineThrough, HasLine, Offset, LineAngle,
         SixAt, LineStart, NoSixOnLines, NoWinOnLine, IsMaximalSegment, Own, SegmentClass, ThreatGaps, Window,
         LegalStep;
    FindsThreatsMarks(t);
    LineFrom(g, q, k);
    var s := CompletedIsThreat(t, g, m, side, q, k);
    var id, o := LineThrough(q, k), Offset(q, k);
    NoSixNoWin(t, g, side);
    assert NoWinOnLine(t, g, side, id) by {
      OneLine(t, g, side, id);
    }
    var w := o - s.lo;
    a, b := WindowGaps(Own(LineCells(g, id), side, s.lo, s.hi), w);
    GapIsListed(t, g, side, id, s, w + a);
    GapIsListed(t, g, side, id, s, w + b);
    OwnWindow(LineCells(g, id), side, s, w, a, b);
    CellsOfLine(g, id);
    LineThroughCorrect(q, k);
    OwnOnBoard(g, LineStart(id), k, side, LineCells(g, id), o, a, b, CoherentInfo(t, g, side).ThreatPoint);
  }

  lemma OneLine(t: Table, g: Grid, side: Side, id: LineId)
    requires NoSixOnLines(t, g, side)
    ensures NoWinOnLine(t, g, side, id)
  {
  }

  // ----- a blocking answer holds -----

  /** Six in a row that a step makes after an answer, it would have made before, and no stone of the answer is in
      the way. */
  lemma AlsoBefore(g: Grid, m: Step, m2: Step, side: Side, q: Point, k: Angle)
    requires LegalStep(g, m) && LegalStep(After(g, m, Next(side)), m2) && OnBoard(q) && OnBoard(Along(q, k, 5))
    requires SixAt(After(After(g, m, Next(side)), m2, side), q, k, side)
    ensures LegalStep(g, m2) && SixAt(After(g, m2, side), q, k, side)
    ensures forall n :: 0 <= n <= 5 ==> Along(q, k, n) != m.First && Along(q, k, n) != m.Second
  {
    hide Along, At, Put, After;
    var h := After(g, m, Next(side));
    AfterStep(g, m, Next(side), m2.First);
    AfterStep(g, m, Next(side), m2.Second);
    forall n | 0 <= n <= 5
      ensures OnBoard(Along(q, k, n)) && At(After(g, m2, side), Along(q, k, n)) == side
      ensures Along(q, k, n) != m.First && Along(q, k, n) != m.Second
    {
      assert OnBoard(Along(q, k, n));
      AfterStep(g, m, Next(side), Along(q, k, n));
      AfterStep(h, m2, side, Along(q, k, n));
      AfterStep(g, m2, side, Along(q, k, n));
    }
  }

  /** With opponent stones on two threat points outside of a window, the stones on its gaps complete it. */
  lemma OpenWindow(t: Table, g: Grid, pts: seq<Point>, i: nat, j: nat, side: Side, q: Point, k: Angle, a: nat, b: nat)
    requires MarksSixes(t) && (forall p <- pts :: OnBoard(p)) && i < |pts| && j < |pts|
    requires Window(g, pts, side, q, k, a, b)
    requires forall n :: 0 <= n <= 5 ==> Along(q, k, n) != pts[i] && Along(q, k, n) != pts[j]
    ensures !BlocksTruly(t, g, pts, i, j, side)
  {
    hide Along, At, Put, SixAt, MarksSixes, CompletesAt;
    var h := Blocked(g, pts, i, j, side);
    var u: nat :| u < |pts| && pts[u] == Along(q, k, a);
    var v: nat :| v < |pts| && pts[v] == Along(q, k, b);
    var x, y := Min(u, v), if u < v then v else u;
    assert pts[x] in pts && pts[y] in pts && pts[i] in pts && pts[j] in pts;
    if x == y {
      FilledBlocked(g, pts, i, j, x, x, side, q, k, a, b);
      PutTwice(h, pts[x], side);
      SixIsCompletion(t, Put(h, pts[x], side), q, k, a, side);
      assert OneStoneCompletes(t, h, pts, x, side);
    } else {
      FilledBlocked(g, pts, i, j, x, y, side, q, k, a, b);
      SixIsCompletion(t, Put(Put(h, pts[x], side), pts[y], side), q, k, a, side);
      assert TwoStonesComplete(t, h, pts, x, y, side);
    }
  }

  lemma FilledBlocked(g: Grid, pts: seq<Point>, i: nat, j: nat, x: nat, y: nat, side: Side, q: Point, k: Angle, a: nat,
                      b: nat)
    requires (forall p <- pts :: OnBoard(p)) && i < |pts| && j < |pts| && x < |pts| && y < |pts|
    requires Window(g, pts, side, q, k, a, b) && {Along(q, k, a), Along(q, k, b)} == {pts[x], pts[y]}
    requires forall n :: 0 <= n <= 5 ==> Along(q, k, n) != pts[i] && Along(q, k, n) != pts[j]
    ensures SixAt(Put(Put(Blocked(g, pts, i, j, side), pts[x], side), pts[y], side), q, k, side)
  {
    hide Along, At, Put;
    var h := Blocked(g, pts, i, j, side);
    assert pts[x] in pts && pts[y] in pts && pts[i] in pts && pts[j] in pts;
    assert Along(q, k, a) in {pts[x], pts[y]} && Along(q, k, b) in {pts[x], pts[y]};
    forall n | 0 <= n <= 5
      ensures OnBoard(Along(q, k, n)) && At(Put(Put(h, pts[x], side), pts[y], side), Along(q, k, n)) == side
    {
      var p := Along(q, k, n);
      assert OnBoard(p);
      PutAt(g, pts[i], Next(side), p);
      PutAt(Put(g, pts[i], Next(side)), pts[j], Next(side), p);
      PutAt(h, pts[x], side, p);
      PutAt(Put(h, pts[x], side), pts[y], side, p);
    }
  }

  /** After stones on two threat points that block, the attacker cannot win at once. */
  lemma BlockingHolds(t: Table, g: Grid, side: Side, i: nat, j: nat, m: Step)
    requires FindsThreats(t) && !SixInARow(g, side) && LegalStep(g, m)
    requires forall p <- CoherentInfo(t, g, side).ThreatPoint :: OnBoard(p)
    requires i < |CoherentInfo(t, g, side).ThreatPoint| && j < |CoherentInfo(t, g, side).ThreatPoint|
    requires BlocksTruly(t, g, CoherentInfo(t, g, side).ThreatPoint, i, j, side)
    requires CoherentInfo(t, g, side).ThreatPoint[i] in {m.First, m.Second}
    requires CoherentInfo(t, g, side).ThreatPoint[j] in {m.First, m.Second}
    ensures !CanWin(After(g, m, Next(side)), side)
  {
    hide CoherentInfo, FindsThreats, SixInARow, LegalStep, BlocksTruly, After, Along, Window;
    FindsThreatsMarks(t);
    var pts := CoherentInfo(t, g, side).ThreatPoint;
    var h := After(g, m, Next(side));
    if m2: Step :| WinsWith(h, m2, side) {
      var q, k := SixSomewhere(After(h, m2, side), side);
      AlsoBefore(g, m, m2, side, q, k);
      var a, b := CompletedWindow(t, g, m2, side, q, k);
      OpenWindow(t, g, pts, i, j, side, q, k, a, b);
    }
  }
}
