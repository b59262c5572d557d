/** What the lists of potential points mean: a stone on a strong point makes two threats, one on a weak point
    makes one. */
module Potential {
  import opened Geometry
  import opened Shape
  import opened ShapeOffers
  import opened LineScan
  import opened LineCache
  import opened Threats
  import opened Completion
  import opened LeafValues
  import opened WinSearch
  import opened ThreatCounts
  import opened Trials

  // ----- one line -----

  /** No segment is of a threat class or higher. */
  ghost predicate QuietLine(t: Table, cells: seq<Cell>, side: Side)
    requires |cells| <= 19
  {
    forall s: Segment :: IsMaximalSegment(cells, side, s) ==> SegmentClass(t, cells, side, s) < 9
  }

  /** An own stone changes no segment, only its contents. */
  lemma StoneKeepsSegments(cells: seq<Cell>, side: Side, o: nat, s: Segment)
    requires o < |cells| && cells[o] == EMPTY
    ensures var cells' := cells[o := side];
            && (IsMaximalSegment(cells', side, s) <==> IsMaximalSegment(cells, side, s))
            && (s.lo <= s.hi <= |cells| ==>
                  Own(cells', side, s.lo, s.hi)
                  == if s.lo <= o < s.hi then Own(cells, side, s.lo, s.hi)[o - s.lo := true]
                     else Own(cells, side, s.lo, s.hi))
  {
    SameOpponents(cells, cells[o := side], side, s);
    SameOpponents(cells[o := side], cells, side, s);
  }

  lemma SameOpponents(a: seq<Cell>, b: seq<Cell>, side: Side, s: Segment)
    requires |a| == |b| && forall i :: 0 <= i < |a| ==> (a[i] == Next(side) <==> b[i] == Next(side))
    ensures IsMaximalSegment(a, side, s) ==> IsMaximalSegment(b, side, s)
  {
  }

  lemma OneSegmentAround(cells: seq<Cell>, side: Side, o: nat, r: Segment, s: Segment)
    requires IsMaximalSegment(cells, side, r) && IsMaximalSegment(cells, side, s)
    requires r.lo <= o < r.hi && s.lo <= o < s.hi
    ensures r == s
  {
    SurroundedUnique(cells, side, o, r.lo, r.hi, s);
  }

  /** Merging segments of which only one has threats. */
  lemma {:induction false} MergedSingle(t: Table, cells: seq<Cell>, start: Point, k: Angle, side: Side,
                                        segs: seq<Segment>, s: Segment)
    requires (forall r <- segs :: Fits(cells, r)) && Fits(cells, s)
    requires forall i, j :: 0 <= i < j < |segs| ==> segs[i] != segs[j]
    requires forall r <- segs :: r != s ==> SegmentThreats(t, cells, side, r) == 0
    ensures Merged(t, cells, start, k, side, 0, segs).ThreatNum
         == if s in segs then SegmentThreats(t, cells, side, s) else 0
  {
    hide SegmentLine, SegmentThreats;
    if segs != [] {
      var init, last := segs[..|segs| - 1], segs[|segs| - 1];
      MergedSingle(t, cells, start, k, side, init, s);
      SegmentLineThreats(t, cells, start, k, side, 0, last);
      assert s in segs <==> s in init || s == last;
      assert last !in init;
      assert last in segs;
    }
  }

  lemma SegmentsAreDistinct(cells: seq<Cell>, side: Side)
    ensures forall i, j :: 0 <= i < j < |Segments(cells, side)| ==> Segments(cells, side)[i] != Segments(cells, side)[j]
    ensures forall s :: s in Segments(cells, side) <==> IsMaximalSegment(cells, side, s)
  {
    hide Segments;
    var segs := Segments(cells, side);
    SegmentsExact(cells, side);
    SegmentsOrdered(cells, side);
    forall i, j | 0 <= i < j < |segs|
      ensures segs[i] != segs[j]
    {
      assert segs[i] in segs && IsMaximalSegment(cells, side, segs[i]);
    }
  }

  /** After a stone on an empty cell of a quiet line, the other segments still have no threats. */
  lemma OthersStayQuiet(t: Table, cells: seq<Cell>, side: Side, o: nat, s: Segment)
    requires |cells| <= 19 && o < |cells| && cells[o] == EMPTY && QuietLine(t, cells, side)
    requires IsMaximalSegment(cells[o := side], side, s) && !(s.lo <= o < s.hi)
    ensures Fits(cells[o := side], s) && SegmentClass(t, cells[o := side], side, s) < 9
  {
    hide Class;
    StoneKeepsSegments(cells, side, o, s);
  }

  /** The threats of a line on which only one segment can be of a threat class or higher. */
  lemma OnlySegmentCounts(t: Table, cells: seq<Cell>, start: Point, k: Angle, side: Side, s: Segment)
    requires |cells| <= 19 && Fits(cells, s)
    requires forall r: Segment :: IsMaximalSegment(cells, side, r) && r != s ==> SegmentClass(t, cells, side, r) < 9
    ensures Analysis(t, cells, start, k, side, 0).ThreatNum
         == if IsMaximalSegment(cells, side, s) then SegmentThreats(t, cells, side, s) else 0
  {
    hide Analysis, Segments, Merged, SegmentLine, SegmentClass, IsMaximalSegment;
    MaximalFits(cells, side);
    AnalysisDecomposes(t, cells, start, k, side, 0);
    SegmentsAreDistinct(cells, side);
    if NoWin(t, cells, side) {
      forall r <- Segments(cells, side) | r != s
        ensures SegmentThreats(t, cells, side, r) == 0
      {
      }
      MergedSingle(t, cells, start, k, side, Segments(cells, side), s);
    } else {
      var r :| IsMaximalSegment(cells, side, r) && SegmentClass(t, cells, side, r) == 15
               && Analysis(t, cells, start, k, side, 0) == SegmentLine(t, cells, start, k, side, 0, r);
      SegmentLineThreats(t, cells, start, k, side, 0, r);
    }
  }

  /** The points of merged segments. */
  lemma {:induction false} MergedPoints(t: Table, cells: seq<Cell>, start: Point, k: Angle, side: Side,
                                        segs: seq<Segment>, p: Point)
    requires forall r <- segs :: Fits(cells, r)
    ensures var l := Merged(t, cells, start, k, side, 0, segs);
            && (p in l.BigPotenPoint <==> exists s <- segs ::
                  p in SegmentLine(t, cells, start, k, side, 0, s).BigPotenPoint)
            && (p in l.SmaPotenPoint <==> exists s <- segs ::
                  p in SegmentLine(t, cells, start, k, side, 0, s).SmaPotenPoint)
  {
    hide SegmentLine;
    if segs != [] {
      var init, last := segs[..|segs| - 1], segs[|segs| - 1];
      MergedPoints(t, cells, start, k, side, init, p);
      assert forall s :: s in segs <==> s in init || s == last;
    }
  }

  /** A segment only offers its own empty cells. */
  lemma SegmentOffersInside(t: Table, cells: seq<Cell>, start: Point, k: Angle, side: Side, s: Segment, o: nat)
    requires Fits(cells, s)
    ensures var l, p := SegmentLine(t, cells, start, k, side, 0, s), Along(start, k, o);
            p in l.BigPotenPoint || p in l.SmaPotenPoint ==> s.lo <= o < s.hi
  {
    hide ShapeLine;
    var own, cur := Own(cells, side, s.lo, s.hi), Along(start, k, s.lo);
    var ok := p => exists i :: 0 <= i < |own| && p == Along(cur, k, i);
    ShapeOffersEmptyCells(t, own, cur, k, 0, ok);
  }

  /** On a quiet line an empty cell is a strong point exactly when a stone there makes two threats on the line,
      and a weak point only if it makes one. */
  lemma LinePointsMean(t: Table, cells: seq<Cell>, start: Point, k: Angle, side: Side, o: nat)
    requires |cells| <= 19 && o < |cells| && cells[o] == EMPTY && QuietLine(t, cells, side)
    ensures var l, p := Analysis(t, cells, start, k, side, 0), Along(start, k, o);
            var n := Analysis(t, cells[o := side], start, k, side, 0).ThreatNum;
            && (p in l.BigPotenPoint <==> n == 2)
            && (p in l.SmaPotenPoint ==> n == 1)
  {
    hide Analysis, Segments, Merged, SegmentLine, SegmentClass, SegmentThreats, Class;
    var p, segs := Along(start, k, o), Segments(cells, side);
    AnalysisDecomposes(t, cells, start, k, side, 0);
    SegmentsAreDistinct(cells, side);
    MaximalFits(cells, side);
    MergedPoints(t, cells, start, k, side, segs, p);
    forall s: Segment | IsMaximalSegment(cells, side, s)
      ensures p in SegmentLine(t, cells, start, k, side, 0, s).BigPotenPoint ==> s.lo <= o < s.hi
      ensures p in SegmentLine(t, cells, start, k, side, 0, s).SmaPotenPoint ==> s.lo <= o < s.hi
    {
      SegmentOffersInside(t, cells, start, k, side, s, o);
    }
    if s: Segment :| IsMaximalSegment(cells, side, s) && s.lo <= o < s.hi {
      AroundStone(t, cells, start, k, side, o, s);
    } else {
      NothingAround(t, cells, start, k, side, o);
    }
  }

  lemma NothingAround(t: Table, cells: seq<Cell>, start: Point, k: Angle, side: Side, o: nat)
    requires |cells| <= 19 && o < |cells| && cells[o] == EMPTY && QuietLine(t, cells, side)
    requires forall s: Segment :: IsMaximalSegment(cells, side, s) ==> !(s.lo <= o < s.hi)
    ensures Analysis(t, cells[o := side], start, k, side, 0).ThreatNum == 0
  {
    hide Analysis, Segments, Merged, SegmentLine, SegmentClass, IsMaximalSegment, QuietLine;
    var cells' := cells[o := side];
    MaximalFits(cells', side);
    forall r: Segment | IsMaximalSegment(cells', side, r)
      ensures SegmentClass(t, cells', side, r) < 9
    {
      StoneKeepsSegments(cells, side, o, r);
      OthersStayQuiet(t, cells, side, o, r);
    }
    AnalysisDecomposes(t, cells', start, k, side, 0);
    SegmentsAreDistinct(cells', side);
    NoThreatsMerged(t, cells', start, k, side, Segments(cells', side));
  }

  lemma {:induction false} NoThreatsMerged(t: Table, cells: seq<Cell>, start: Point, k: Angle, side: Side,
                                           segs: seq<Segment>)
    requires forall r <- segs :: Fits(cells, r) && SegmentThreats(t, cells, side, r) == 0
    ensures Merged(t, cells, start, k, side, 0, segs).ThreatNum == 0
  {
    hide SegmentLine, SegmentThreats;
    if segs != [] {
      NoThreatsMerged(t, cells, start, k, side, segs[..|segs| - 1]);
      SegmentLineThreats(t, cells, start, k, side, 0, segs[|segs| - 1]);
    }
  }

  /** The segment around the cell decides. */
  lemma AroundStone(t: Table, cells: seq<Cell>, start: Point, k: Angle, side: Side, o: nat, s: Segment)
    requires |cells| <= 19 && o < |cells| && cells[o] == EMPTY && QuietLine(t, cells, side)
    requires IsMaximalSegment(cells, side, s) && s.lo <= o < s.hi && Fits(cells, s)
    ensures var l, p := SegmentLine(t, cells, start, k, side, 0, s), Along(start, k, o);
            var n := Analysis(t, cells[o := side], start, k, side, 0).ThreatNum;
            && (p in l.BigPotenPoint <==> n == 2)
            && (p in l.SmaPotenPoint ==> n == 1)
    ensures forall r: Segment :: IsMaximalSegment(cells, side, r) && r.lo <= o < r.hi ==> r == s
  {
    hide Analysis, ShapeLine, Class, IsMaximalSegment, Own;
    var cells', own := cells[o := side], Own(cells, side, s.lo, s.hi);
    StoneKeepsSegments(cells, side, o, s);
    forall r: Segment | IsMaximalSegment(cells, side, r) && r.lo <= o < r.hi
      ensures r == s
    {
      OneSegmentAround(cells, side, o, r, s);
    }
    MaximalFits(cells', side);
    forall r: Segment | IsMaximalSegment(cells', side, r) && r != s
      ensures SegmentClass(t, cells', side, r) < 9
    {
      StoneKeepsSegments(cells, side, o, r);
      OthersStayQuiet(t, cells, side, o, r);
    }
    OnlySegmentCounts(t, cells', start, k, side, s);
    assert Along(Along(start, k, s.lo), k, o - s.lo) == Along(start, k, o);
    EmptyIsNotOwn(cells, side, s, o);
    PointsMean(t, own, Along(start, k, s.lo), k, 0, o - s.lo);
    ShapeThreats(t, own[o - s.lo := true]);
  }

  lemma EmptyIsNotOwn(cells: seq<Cell>, side: Side, s: Segment, o: nat)
    requires Fits(cells, s) && s.lo <= o < s.hi && cells[o] == EMPTY
    ensures !Own(cells, side, s.lo, s.hi)[o - s.lo]
  {
  }

  lemma ShapeThreats(t: Table, own: seq<bool>)
    requires IsSegment(own)
    ensures ThreatsIn(t, own) == ThreatsOf(Class(t, own))
  {
    hide Class, ThreatsOf;
  }

  // ----- two stones on one line -----

  /** The steps of merged segments. */
  lemma {:induction false} MergedSteps(t: Table, cells: seq<Cell>, start: Point, k: Angle, side: Side,
                                       segs: seq<Segment>, m: Pair)
    requires forall r <- segs :: Fits(cells, r)
    ensures var l := Merged(t, cells, start, k, side, 0, segs);
            && (m in l.BigPotenStep <==> exists s <- segs ::
                  m in SegmentLine(t, cells, start, k, side, 0, s).BigPotenStep)
            && (m in l.SmaPotenStep <==> exists s <- segs ::
                  m in SegmentLine(t, cells, start, k, side, 0, s).SmaPotenStep)
  {
    hide SegmentLine;
    if segs != [] {
      var init, last := segs[..|segs| - 1], segs[|segs| - 1];
      MergedSteps(t, cells, start, k, side, init, m);
      assert forall s :: s in segs <==> s in init || s == last;
    }
  }

  /** A listed pair is two empty cells of one shape. */
  lemma PairOfCells(t: Table, own: seq<bool>, cur: Point, k: Angle, m: Pair) returns (i: nat, j: nat)
    requires IsSegment(own)
    requires var l := ShapeLine(t, own, cur, k, 0); m in l.BigPotenStep || m in l.SmaPotenStep
    ensures i < j < |own| && !own[i] && !own[j] && m == Pair(Along(cur, k, i), Along(cur, k, j))
  {
    hide Class, Points, Picks, PairPicks, ThreatGaps;
    PairPicksExact(t, own, BigStep, |own|);
    PairPicksExact(t, own, SmaStep, |own|);
    var kind := if m in ShapeLine(t, own, cur, k, 0).BigPotenStep then BigStep else SmaStep;
    var offsets := PairPicks(t, own, kind, |own|);
    var n :| 0 <= n < |Pairs(cur, k, offsets)| && Pairs(cur, k, offsets)[n] == m;
    assert offsets[n] in offsets;
    i, j := offsets[n].0, offsets[n].1;
  }

  /** Two stones on the empty cells of one segment of a quiet line. */
  lemma TwoStonesOnLine(t: Table, cells: seq<Cell>, start: Point, k: Angle, side: Side, s: Segment, o: nat, p: nat)
    requires |cells| <= 19 && QuietLine(t, cells, side) && IsMaximalSegment(cells, side, s) && Fits(cells, s)
    requires s.lo <= o < p < s.hi && cells[o] == EMPTY && cells[p] == EMPTY
    ensures var cells' := cells[o := side][p := side];
            Fits(cells', s) && Analysis(t, cells', start, k, side, 0).ThreatNum == SegmentThreats(t, cells', side, s)
    ensures Own(cells[o := side][p := side], side, s.lo, s.hi)
         == Own(cells, side, s.lo, s.hi)[o - s.lo := true][p - s.lo := true]
  {
    hide Analysis, SegmentThreats, Class, IsMaximalSegment, Own;
    var once := cells[o := side];
    var cells' := once[p := side];
    StoneKeepsSegments(cells, side, o, s);
    StoneKeepsSegments(once, side, p, s);
    MaximalFits(cells', side);
    forall r: Segment | IsMaximalSegment(cells', side, r) && r != s
      ensures SegmentClass(t, cells', side, r) < 9
    {
      StoneKeepsSegments(cells, side, o, r);
      StoneKeepsSegments(once, side, p, r);
      SegmentsApart(cells, side, r, s, o);
      SegmentsApart(cells, side, r, s, p);
    }
    OnlySegmentCounts(t, cells', start, k, side, s);
  }

  lemma SegmentsApart(cells: seq<Cell>, side: Side, r: Segment, s: Segment, o: nat)
    requires IsMaximalSegment(cells, side, r) && IsMaximalSegment(cells, side, s) && r != s && s.lo <= o < s.hi
    ensures !(r.lo <= o < r.hi)
  {
    if r.lo <= o < r.hi {
      OneSegmentAround(cells, side, o, r, s);
    }
  }

  /** On a quiet line the stones of a strong pair make two threats or more, those of a weak pair one. */
  lemma LineStepsMean(t: Table, cells: seq<Cell>, start: Point, k: Angle, side: Side, m: Pair) returns (o: nat, p: nat)
    requires |cells| <= 19 && QuietLine(t, cells, side)
    requires var l := Analysis(t, cells, start, k, side, 0); m in l.BigPotenStep || m in l.SmaPotenStep
    ensures o < p < |cells| && cells[o] == EMPTY && cells[p] == EMPTY
    ensures m == Pair(Along(start, k, o), Along(start, k, p))
    ensures var l := Analysis(t, cells, start, k, side, 0);
            var n := Analysis(t, cells[o := side][p := side], start, k, side, 0).ThreatNum;
            && (m in l.BigPotenStep ==> n >= 2)
            && (m in l.SmaPotenStep ==> n == 1)
  {
    hide Analysis, Segments, Merged, ShapeLine, Class, SegmentThreats, IsMaximalSegment;
    AnalysisDecomposes(t, cells, start, k, side, 0);
    SegmentsAreDistinct(cells, side);
    MaximalFits(cells, side);
    MergedSteps(t, cells, start, k, side, Segments(cells, side), m);
    var s: Segment :| s in Segments(cells, side)
                      && (m in SegmentLine(t, cells, start, k, side, 0, s).BigPotenStep
                          || m in SegmentLine(t, cells, start, k, side, 0, s).SmaPotenStep);
    var i, j := PairOfCells(t, Own(cells, side, s.lo, s.hi), Along(start, k, s.lo), k, m);
    o, p := s.lo + i, s.lo + j;
    CellOfOwn(cells, side, s, i);
    CellOfOwn(cells, side, s, j);
    StepOfSegment(t, cells, start, k, side, s, o, p, m);
    OnlyThisSegment(t, cells, start, k, side, s, o, p, m);
  }

  lemma CellOfOwn(cells: seq<Cell>, side: Side, s: Segment, i: nat)
    requires IsMaximalSegment(cells, side, s) && i < s.hi - s.lo && !Own(cells, side, s.lo, s.hi)[i]
    ensures cells[s.lo + i] == EMPTY
  {
    assert cells[s.lo + i] != Next(side);
  }

  lemma StepOfSegment(t: Table, cells: seq<Cell>, start: Point, k: Angle, side: Side, s: Segment, o: nat, p: nat,
                      m: Pair)
    requires |cells| <= 19 && QuietLine(t, cells, side) && IsMaximalSegment(cells, side, s) && Fits(cells, s)
    requires s.lo <= o < p < s.hi && cells[o] == EMPTY && cells[p] == EMPTY
    requires m == Pair(Along(start, k, o), Along(start, k, p))
    ensures var l := SegmentLine(t, cells, start, k, side, 0, s);
            var n := Analysis(t, cells[o := side][p := side], start, k, side, 0).ThreatNum;
            && (m in l.BigPotenStep ==> n >= 2)
            && (m in l.SmaPotenStep ==> n == 1)
  {
    hide Analysis, ShapeLine, Class, IsMaximalSegment, Own;
    var own, cur := Own(cells, side, s.lo, s.hi), Along(start, k, s.lo);
    TwoStonesOnLine(t, cells, start, k, side, s, o, p);
    EmptyIsNotOwn(cells, side, s, o);
    EmptyIsNotOwn(cells, side, s, p);
    assert Along(cur, k, o - s.lo) == Along(start, k, o) && Along(cur, k, p - s.lo) == Along(start, k, p);
    PairsMean(t, own, cur, k, 0, o - s.lo, p - s.lo);
    ShapeThreats(t, own[o - s.lo := true][p - s.lo := true]);
  }

  /** No other segment lists the same pair. */
  lemma OnlyThisSegment(t: Table, cells: seq<Cell>, start: Point, k: Angle, side: Side, s: Segment, o: nat, p: nat,
                        m: Pair)
    requires |cells| <= 19 && IsMaximalSegment(cells, side, s) && s.lo <= o < p < s.hi
    requires m == Pair(Along(start, k, o), Along(start, k, p))
    ensures forall r: Segment :: IsMaximalSegment(cells, side, r) && r != s ==>
              Fits(cells, r)
              && m !in SegmentLine(t, cells, start, k, side, 0, r).BigPotenStep
              && m !in SegmentLine(t, cells, start, k, side, 0, r).SmaPotenStep
  {
    hide ShapeLine, Class, IsMaximalSegment;
    MaximalFits(cells, side);
    forall r: Segment | IsMaximalSegment(cells, side, r) && r != s
      ensures m !in SegmentLine(t, cells, start, k, side, 0, r).BigPotenStep
      ensures m !in SegmentLine(t, cells, start, k, side, 0, r).SmaPotenStep
    {
      SegmentsApart(cells, side, r, s, o);
      var own, cur := Own(cells, side, r.lo, r.hi), Along(start, k, r.lo);
      var l := ShapeLine(t, own, cur, k, 0);
      if m in l.BigPotenStep || m in l.SmaPotenStep {
        var i, j := PairOfCells(t, own, cur, k, m);
      }
    }
  }

  // ----- the board -----

  lemma {:induction false} GatheredOffers(t: Table, g: Grid, side: Side, n: nat, p: Point)
    requires n <= LINES
    ensures var l := Gather(ScanAll(t, g, 0), side, 0, n);
            && (p in l.BigPotenPoint <==> exists id: LineId :: id < n && p in Scan(t, g, id, side, 0).BigPotenPoint)
            && (p in l.SmaPotenPoint <==> exists id: LineId :: id < n && p in Scan(t, g, id, side, 0).SmaPotenPoint)
            && (p in l.ComPoint <==> exists id: LineId :: id < n && p in Scan(t, g, id, side, 0).ComPoint)
  {
    hide ScanAll, Scan, Gather;
    GatherOne(ScanAll(t, g, 0), side, 0, n);
    if n > 0 {
      GatheredOffers(t, g, side, n - 1, p);
      CachedLine(t, g, side, n - 1);
    }
  }

  lemma {:induction false} GatheredSteps(t: Table, g: Grid, side: Side, n: nat, m: Pair)
    requires n <= LINES
    ensures var l := Gather(ScanAll(t, g, 0), side, 0, n);
            && (m in l.BigPotenStep <==> exists id: LineId :: id < n && m in Scan(t, g, id, side, 0).BigPotenStep)
            && (m in l.SmaPotenStep <==> exists id: LineId :: id < n && m in Scan(t, g, id, side, 0).SmaPotenStep)
  {
    hide ScanAll, Scan, Gather;
    GatherOne(ScanAll(t, g, 0), side, 0, n);
    if n > 0 {
      GatheredSteps(t, g, side, n - 1, m);
      CachedLine(t, g, side, n - 1);
    }
  }

  /** The reported potential points are those of the lines. */
  lemma ReportedOffers(t: Table, g: Grid, side: Side, p: Point)
    ensures var l := CoherentInfo(t, g, side);
            && (p in l.BigPotenPoint <==> exists id: LineId :: p in Scan(t, g, id, side, 0).BigPotenPoint)
            && (p in l.SmaPotenPoint <==> exists id: LineId :: p in Scan(t, g, id, side, 0).SmaPotenPoint)
            && (p in l.ComPoint <==> exists id: LineId :: p in Scan(t, g, id, side, 0).ComPoint)
  {
    hide ScanAll, Scan, Gather, Spread, EnsuredThreatNum;
    CoherentThreatsFree(t, g, side, 0);
    GatheredOffers(t, g, side, LINES, p);
  }

  lemma ReportedSteps(t: Table, g: Grid, side: Side, m: Pair)
    ensures var l := CoherentInfo(t, g, side);
            && (m in l.BigPotenStep <==> exists id: LineId :: m in Scan(t, g, id, side, 0).BigPotenStep)
            && (m in l.SmaPotenStep <==> exists id: LineId :: m in Scan(t, g, id, side, 0).SmaPotenStep)
  {
    hide ScanAll, Scan, Gather, Spread, EnsuredThreatNum;
    CoherentThreatsFree(t, g, side, 0);
    GatheredSteps(t, g, side, LINES, m);
  }

  /** No threat is counted, and there is no six. */
  ghost predicate QuietSide(t: Table, g: Grid, side: Side) {
    CoherentInfo(t, g, side).ThreatNum == 0 && NoSixOnLines(t, g, side)
  }

  lemma QuietSideHasQuietLines(t: Table, g: Grid, side: Side, id: LineId)
    requires QuietSide(t, g, side)
    ensures |LineCells(g, id)| <= 19 && QuietLine(t, LineCells(g, id), side)
  {
    hide ScanAll, Gather, Spread, BlockedByOne, BlockedByTwo, LineCells, SegmentClass, NoSixOnLines, IsMaximalSegment;
    LineIsShort(g, id);
    CoherentThreatsFree(t, g, side, 0);
    assert Gather(ScanAll(t, g, 0), side, 0, LINES).ThreatNum == 0;
    forall s: Segment | IsMaximalSegment(LineCells(g, id), side, s)
      ensures Fits(LineCells(g, id), s) && SegmentClass(t, LineCells(g, id), side, s) < 9
    {
      NoThreatAnywhere(t, g, side, id, s);
      NoSixThere(t, g, side, id, s);
    }
  }

  lemma NoSixThere(t: Table, g: Grid, side: Side, id: LineId, s: Segment)
    requires NoSixOnLines(t, g, side) && IsMaximalSegment(LineCells(g, id), side, s) && Fits(LineCells(g, id), s)
    ensures SegmentClass(t, LineCells(g, id), side, s) != 15
  {
    hide LineCells, SegmentClass, IsMaximalSegment;
    assert NoWinOnLine(t, g, side, id);
  }

  /** The cells of a line through a point, with a stone on the point. */
  lemma LineWithStone(g: Grid, p: Point, k: Angle, c: Cell)
    requires OnBoard(p) && HasLine(p, k)
    ensures var id, o := LineThrough(p, k), Offset(p, k);
            && LineAngle(id) == k && 0 <= o < |LineCells(g, id)|
            && Along(LineStart(id), k, o) == p && LineCells(g, id)[o] == At(g, p)
            && LineCells(Put(g, p, c), id) == LineCells(g, id)[o := c]
  {
    hide LineStart, LineAngle, LineThrough, HasLine, At, Put, Offset;
    LineThroughCorrect(p, k);
    var id, o := LineThrough(p, k), Offset(p, k);
    var start, cells := LineStart(id), LineCells(g, id);
    forall i | 0 <= i < |cells|
      ensures LineCells(Put(g, p, c), id)[i] == if i == o then c else cells[i]
    {
      PutAt(g, p, c, Along(start, k, i));
      assert Along(start, k, i) == p <==> i == o;
    }
  }

  /** Only the lines through a free point offer it. */
  lemma OfferedOnItsLines(t: Table, g: Grid, id: LineId, side: Side, p: Point)
    requires p in Scan(t, g, id, side, 0).BigPotenPoint || p in Scan(t, g, id, side, 0).SmaPotenPoint
    ensures Free(g, p) && HasLine(p, LineAngle(id)) && LineThrough(p, LineAngle(id)) == id
  {
    hide Analysis, LineStart, LineAngle, LineThrough, HasLine, At;
    var start, k, cells := LineStart(id), LineAngle(id), LineCells(g, id);
    var ok := q => exists i :: 0 <= i < |cells| && q == Along(start, k, i) && cells[i] == EMPTY;
    LineIsShort(g, id);
    AnalysisOffersEmptyCells(t, cells, start, k, side, 0, ok);
    var i :| 0 <= i < |cells| && p == Along(start, k, i) && cells[i] == EMPTY;
    LineCellsHaveItsId(id, i);
  }

  /** What a stone on `p` makes of the line through `p` in direction `k`. */
  ghost function ThreatsMade(t: Table, g: Grid, p: Point, k: Angle, side: Side): int
    requires OnBoard(p) && HasLine(p, k)
  {
    Scan(t, Put(g, p, side), LineThrough(p, k), side, 0).ThreatNum
  }

  lemma PointOnLineMeans(t: Table, g: Grid, side: Side, p: Point, k: Angle)
    requires QuietSide(t, g, side) && Free(g, p) && HasLine(p, k)
    ensures var l := Scan(t, g, LineThrough(p, k), side, 0);
            && (p in l.BigPotenPoint <==> ThreatsMade(t, g, p, k, side) == 2)
            && (p in l.SmaPotenPoint ==> ThreatsMade(t, g, p, k, side) == 1)
  {
    hide Analysis, QuietSide, QuietLine, LineCells, LineThrough, HasLine, LineStart, LineAngle, Offset, Put;
    var id := LineThrough(p, k);
    QuietSideHasQuietLines(t, g, side, id);
    LineWithStone(g, p, k, side);
    LinePointsMean(t, LineCells(g, id), LineStart(id), k, side, Offset(p, k));
  }

  /** In a position without threats of a side, its strong points are exactly the free points on which a stone
      makes two threats on some line, and each of its weak points makes one on some line. */
  lemma PotentialPointsMean(t: Table, g: Grid, side: Side, p: Point)
    requires QuietSide(t, g, side) && OnBoard(p)
    ensures p in CoherentInfo(t, g, side).BigPotenPoint <==>
              Free(g, p) && exists k: Angle :: HasLine(p, k) && ThreatsMade(t, g, p, k, side) == 2
    ensures p in CoherentInfo(t, g, side).SmaPotenPoint ==>
              Free(g, p) && exists k: Angle :: HasLine(p, k) && ThreatsMade(t, g, p, k, side) == 1
  {
    hide QuietSide, CoherentInfo, Scan, ThreatsMade, HasLine, LineThrough, LineAngle, At;
    ReportedOffers(t, g, side, p);
    forall id: LineId
      ensures p in Scan(t, g, id, side, 0).BigPotenPoint || p in Scan(t, g, id, side, 0).SmaPotenPoint ==>
                Free(g, p) && HasLine(p, LineAngle(id)) && LineThrough(p, LineAngle(id)) == id
    {
      if p in Scan(t, g, id, side, 0).BigPotenPoint || p in Scan(t, g, id, side, 0).SmaPotenPoint {
        OfferedOnItsLines(t, g, id, side, p);
      }
    }
    if Free(g, p) {
      forall k: Angle | HasLine(p, k)
        ensures var l := Scan(t, g, LineThrough(p, k), side, 0);
                && (p in l.BigPotenPoint <==> ThreatsMade(t, g, p, k, side) == 2)
                && (p in l.SmaPotenPoint ==> ThreatsMade(t, g, p, k, side) == 1)
      {
        PointOnLineMeans(t, g, side, p, k);
      }
    }
  }

  /** The line `id` with two stones on it. */
  ghost function PairThreatsMade(t: Table, g: Grid, m: Pair, id: LineId, side: Side): int {
    Scan(t, Put(Put(g, m.First, side), m.Second, side), id, side, 0).ThreatNum
  }

  lemma LineWithPair(g: Grid, id: LineId, o: nat, p: nat, c: Cell)
    requires o < |LineCells(g, id)| && p < |LineCells(g, id)|
    ensures var k, start := LineAngle(id), LineStart(id);
            && OnBoard(Along(start, k, o)) && OnBoard(Along(start, k, p))
            && LineCells(g, id)[o] == At(g, Along(start, k, o)) && LineCells(g, id)[p] == At(g, Along(start, k, p))
            && LineCells(Put(Put(g, Along(start, k, o), c), Along(start, k, p), c), id)
              == LineCells(g, id)[o := c][p := c]
  {
    hide LineStart, LineAngle, LineThrough, HasLine, At, Put, Offset;
    var k, start := LineAngle(id), LineStart(id);
    LineCellsHaveItsId(id, o);
    LineCellsHaveItsId(id, p);
    LineWithStone(g, Along(start, k, o), k, c);
    LineWithStone(Put(g, Along(start, k, o), c), Along(start, k, p), k, c);
  }

  /** The stones of a strong step of such a position make two threats or more on one line, those of a weak
      step one. */
  lemma PotentialStepsMean(t: Table, g: Grid, side: Side, m: Pair)
    requires QuietSide(t, g, side)
    ensures m in CoherentInfo(t, g, side).BigPotenStep ==>
              Free(g, m.First) && Free(g, m.Second) && exists id: LineId :: PairThreatsMade(t, g, m, id, side) >= 2
    ensures m in CoherentInfo(t, g, side).SmaPotenStep ==>
              Free(g, m.First) && Free(g, m.Second) && exists id: LineId :: PairThreatsMade(t, g, m, id, side) == 1
  {
    hide QuietSide, CoherentInfo, Scan, PairThreatsMade, At, Put;
    ReportedSteps(t, g, side, m);
    forall id: LineId
      ensures m in Scan(t, g, id, side, 0).BigPotenStep ==>
                Free(g, m.First) && Free(g, m.Second) && PairThreatsMade(t, g, m, id, side) >= 2
      ensures m in Scan(t, g, id, side, 0).SmaPotenStep ==>
                Free(g, m.First) && Free(g, m.Second) && PairThreatsMade(t, g, m, id, side) == 1
    {
      StepOnLineMeans(t, g, side, m, id);
    }
  }

  lemma StepOnLineMeans(t: Table, g: Grid, side: Side, m: Pair, id: LineId)
    requires QuietSide(t, g, side)
    ensures m in Scan(t, g, id, side, 0).BigPotenStep ==>
              Free(g, m.First) && Free(g, m.Second) && PairThreatsMade(t, g, m, id, side) >= 2
    ensures m in Scan(t, g, id, side, 0).SmaPotenStep ==>
              Free(g, m.First) && Free(g, m.Second) && PairThreatsMade(t, g, m, id, side) == 1
  {
    hide Analysis, QuietSide, QuietLine, LineCells, LineStart, LineAngle, Put, At;
    var l := Scan(t, g, id, side, 0);
    if m in l.BigPotenStep || m in l.SmaPotenStep {
      QuietSideHasQuietLines(t, g, side, id);
      var o, p := LineStepsMean(t, LineCells(g, id), LineStart(id), LineAngle(id), side, m);
      LineWithPair(g, id, o, p, side);
    }
  }
}
