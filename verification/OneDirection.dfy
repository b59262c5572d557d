/** Threats that all lie in one direction: each of two stones stands in at most one segment of at most one of their
    lines, so more than two threats cannot be answered. */
module OneDirection {
  import opened Geometry
  import opened Shape
  import opened LineScan
  import opened LineCache
  import opened Threats
  import opened Completion
  import opened Victory
  import opened GameTree
  import opened Defence
  import opened LeafValues
  import opened WinSearch
  import opened ThreatCounts
  import opened Judgement

  // ----- what the table has to say about counts -----

  /** Whether a place is one of the cells of a segment. */
  function Hit(s: Segment, x: int): nat {
    if s.lo <= x < s.hi then 1 else 0
  }

  /** A shape counts for no more threats than the opponent stones it takes to break all its threat windows. */
  ghost predicate RatesThreats(t: Table) {
    forall own {:trigger Class(t, own)} :: IsSegment(own) && !HasSix(own) ==>
      forall x, y :: EmptyOrOutside(own, x) && EmptyOrOutside(own, y) && Outnumbers(t, own, x, y) ==>
        exists w: nat :: WindowAvoids(own, w, x, y)
  }

  predicate Outnumbers(t: Table, own: seq<bool>, x: int, y: int)
    requires IsSegment(own)
  {
    ThreatsOf(Class(t, own)) > Hit(Segment(0, |own|), x) + Hit(Segment(0, |own|), y)
  }

  predicate EmptyOrOutside(own: seq<bool>, x: int) {
    0 <= x < |own| ==> !own[x]
  }

  ghost predicate WindowAvoids(own: seq<bool>, w: nat, x: int, y: int) {
    IsThreatWindow(own, w) && !(w <= x < w + 6) && !(w <= y < w + 6)
  }

  // ----- such a table exists -----

  ghost predicate Escapes(own: seq<bool>, x: int, y: int) {
    exists w: nat :: WindowAvoids(own, w, x, y)
  }

  /** The class of a shape by the least number of stones that breaks all its threat windows. */
  ghost function RatedClass(own: seq<bool>): (c: int)
    ensures 0 <= c < 16
  {
    if HasSix(own) then 15
    else if !Escapes(own, -1, -1) then 0
    else if forall x, y :: EmptyOrOutside(own, x) && EmptyOrOutside(own, y) ==> Escapes(own, x, y) then 14
    else if forall x :: EmptyOrOutside(own, x) ==> Escapes(own, x, -1) then 13
    else 9
  }

  ghost function RatedTable(): (t: Table) {
    seq(TABLESIZE, i requires 0 <= i < TABLESIZE => RatedClass(Decode(i + 64)))
  }

  lemma RatedTableClass(own: seq<bool>)
    requires IsSegment(own)
    ensures Class(RatedTable(), own) == RatedClass(own)
  {
    hide RatedClass;
    SegmentCodeInTable(own);
    CodeDecode(Code(own));
    CodeInjective(Decode(Code(own)), own);
  }

  /** A place outside of a shape is avoided anyway. */
  lemma EscapesOutside(own: seq<bool>, x: int, y: int, z: int)
    requires Escapes(own, x, z) && Hit(Segment(0, |own|), y) == 0
    ensures Escapes(own, x, y) && Escapes(own, y, x)
  {
    var w: nat :| WindowAvoids(own, w, x, z);
    assert WindowAvoids(own, w, x, y) && WindowAvoids(own, w, y, x);
  }

  lemma RatedEscapes(own: seq<bool>, x: int, y: int)
    requires !HasSix(own) && EmptyOrOutside(own, x) && EmptyOrOutside(own, y)
    requires ThreatsOf(RatedClass(own)) > Hit(Segment(0, |own|), x) + Hit(Segment(0, |own|), y)
    ensures Escapes(own, x, y)
  {
    hide Escapes, HasSix, EmptyOrOutside;
    if RatedClass(own) == 13 && Hit(Segment(0, |own|), y) == 0 {
      EscapesOutside(own, x, y, -1);
    } else if RatedClass(own) == 13 {
      EscapesOutside(own, y, x, -1);
    } else if RatedClass(own) == 9 {
      EscapesOutside(own, -1, x, -1);
      EscapesOutside(own, x, y, -1);
    }
  }

  lemma RatedFinds(own: seq<bool>)
    ensures RatedClass(own) == 15 <==> HasSix(own)
    ensures IsThreatClass(RatedClass(own)) <==> !HasSix(own) && exists w: nat :: IsThreatWindow(own, w)
  {
    hide HasSix;
    forall w: nat | IsThreatWindow(own, w)
      ensures Escapes(own, -1, -1)
    {
      assert WindowAvoids(own, w, -1, -1);
    }
  }

  /** A table that finds and rates threats: what is asked of the table can be met. */
  lemma TableExists()
    ensures FindsThreats(RatedTable()) && RatesThreats(RatedTable())
  {
    hide HasSix, RatedClass, RatedTable, Class, Escapes, ThreatsOf, IsThreatWindow, EmptyOrOutside, Hit;
    var t := RatedTable();
    forall own | IsSegment(own)
      ensures Class(t, own) == RatedClass(own)
      ensures Class(t, own) == 15 <==> HasSix(own)
      ensures IsThreatClass(Class(t, own)) <==> !HasSix(own) && exists w: nat :: IsThreatWindow(own, w)
    {
      RatedTableClass(own);
      RatedFinds(own);
    }
    forall own, x, y | IsSegment(own) && !HasSix(own) && EmptyOrOutside(own, x) && EmptyOrOutside(own, y)
                       && Outnumbers(t, own, x, y)
      ensures exists w: nat :: WindowAvoids(own, w, x, y)
    {
      RatedEscapes(own, x, y);
      EscapesIs(own, x, y);
    }
  }

  lemma EscapesIs(own: seq<bool>, x: int, y: int)
    requires Escapes(own, x, y)
    ensures exists w: nat :: WindowAvoids(own, w, x, y)
  {
  }

  // ----- places on a line -----

  /** The place of a point on a line, or -1. */
  function PlaceOn(id: LineId, p: Point): int {
    if OnBoard(p) && HasLine(p, LineAngle(id)) && LineThrough(p, LineAngle(id)) == id then Offset(p, LineAngle(id))
    else -1
  }

  lemma PlaceOnLine(id: LineId, i: nat)
    requires i < RayLen(LineStart(id), LineAngle(id))
    ensures PlaceOn(id, Along(LineStart(id), LineAngle(id), i)) == i
  {
    LineCellsHaveItsId(id, i);
  }

  lemma PlaceOnIs(id: LineId, p: Point)
    requires PlaceOn(id, p) >= 0
    ensures PlaceOn(id, p) < RayLen(LineStart(id), LineAngle(id))
    ensures Along(LineStart(id), LineAngle(id), PlaceOn(id, p)) == p
  {
    LineThroughCorrect(p, LineAngle(id));
  }

  /** The second cell of a step, off the board if it is the first again. */
  function SecondOf(m: Step): Point {
    if m.First == m.Second then Point(-1, -1) else m.Second
  }

  // ----- an answer that holds breaks every segment -----

  /** The gaps of a threat window that no stone of an answer hits still win after it. */
  lemma MissedWindow(g: Grid, side: Side, id: LineId, s: Segment, m: Step, w: nat)
    requires LegalStep(g, m) && IsMaximalSegment(LineCells(g, id), side, s) && Fits(LineCells(g, id), s)
    requires WindowAvoids(Own(LineCells(g, id), side, s.lo, s.hi), w,
                          PlaceOn(id, m.First) - s.lo, PlaceOn(id, SecondOf(m)) - s.lo)
    ensures CanWin(After(g, m, Next(side)), side)
  {
    hide Along, At, Put, LineStart, LineAngle, LineCells, Own, Stones, PlaceOn, RayLen, Offset, HasLine, LineThrough,
         ThreatGaps, Window, SixInARow;
    var cells, start, k, o := LineCells(g, id), LineStart(id), LineAngle(id), s.lo + w;
    var own := Own(cells, side, s.lo, s.hi);
    var a, b := WindowGaps(own, w);
    OwnWindow(cells, side, s, w, a, b);
    CellsOfLine(g, id);
    EmptyGap(g, id, side, s, w, a);
    EmptyGap(g, id, side, s, w, b);
    var q := Along(start, k, o);
    var pts := [Along(start, k, o + a), Along(start, k, o + b)];
    OwnOnBoard(g, start, k, side, cells, o, a, b, pts);
    MissedCells(id, m, o);
    WindowAfter(g, pts, side, q, k, a, b, m);
  }

  lemma EmptyGap(g: Grid, id: LineId, side: Side, s: Segment, w: nat, a: nat)
    requires IsMaximalSegment(LineCells(g, id), side, s) && w + a < s.hi - s.lo
    requires !Own(LineCells(g, id), side, s.lo, s.hi)[w + a]
    ensures Free(g, Along(Along(LineStart(id), LineAngle(id), s.lo + w), LineAngle(id), a))
  {
    hide RayLen, LineStart, LineAngle, At;
    var start, k := LineStart(id), LineAngle(id);
    assert LineCells(g, id)[s.lo + w + a] == At(g, Along(start, k, s.lo + w + a));
    assert Along(Along(start, k, s.lo + w), k, a) == Along(start, k, s.lo + w + a);
  }

  /** Six cells of a line on which a step puts no stone. */
  lemma MissedCells(id: LineId, m: Step, o: nat)
    requires o + 6 <= RayLen(LineStart(id), LineAngle(id))
    requires !(o <= PlaceOn(id, m.First) < o + 6) && !(o <= PlaceOn(id, SecondOf(m)) < o + 6)
    ensures var q := Along(LineStart(id), LineAngle(id), o);
            forall n :: 0 <= n <= 5 ==>
              Along(q, LineAngle(id), n) != m.First && Along(q, LineAngle(id), n) != m.Second
  {
    hide PlaceOn, RayLen, LineStart, LineAngle;
    forall n | 0 <= n <= 5
      ensures PlaceOn(id, Along(Along(LineStart(id), LineAngle(id), o), LineAngle(id), n)) == o + n
    {
      PlaceOnLine(id, o + n);
    }
  }

  lemma WindowAfter(g: Grid, pts: seq<Point>, side: Side, q: Point, k: Angle, a: nat, b: nat, m: Step)
    requires LegalStep(g, m) && Window(g, pts, side, q, k, a, b) && Free(g, Along(q, k, a)) && Free(g, Along(q, k, b))
    requires forall n :: 0 <= n <= 5 ==> Along(q, k, n) != m.First && Along(q, k, n) != m.Second
    ensures CanWin(After(g, m, Next(side)), side)
  {
    hide Along, At, Put, SixInARow, After;
    var h := After(g, m, Next(side));
    forall n | 0 <= n <= 5 && OnBoard(Along(q, k, n))
      ensures At(h, Along(q, k, n)) == At(g, Along(q, k, n))
    {
      AfterStep(g, m, Next(side), Along(q, k, n));
    }
    var m2 := Step(Along(q, k, a), Along(q, k, b), {}, 0, 0);
    FilledWindow(h, pts, side, q, k, a, b, m2);
    LegalWins(h, m2, side);
  }

  /** An answer that holds has at least as many stones in a segment as it counts for. */
  lemma SegmentHeld(t: Table, g: Grid, side: Side, id: LineId, s: Segment, m: Step)
    requires RatesThreats(t) && !SixInARow(g, side) && LegalStep(g, m) && !CanWin(After(g, m, Next(side)), side)
    requires IsMaximalSegment(LineCells(g, id), side, s) && Fits(LineCells(g, id), s)
    ensures SegmentThreats(t, LineCells(g, id), side, s)
         <= Hit(s, PlaceOn(id, m.First)) + Hit(s, PlaceOn(id, SecondOf(m)))
  {
    hide SixInARow, CanWin, LineCells, IsMaximalSegment, Class, PlaceOn, HasSix, IsThreatWindow, ThreatsOf, Own, At;
    var own := Own(LineCells(g, id), side, s.lo, s.hi);
    var x, y := PlaceOn(id, m.First) - s.lo, PlaceOn(id, SecondOf(m)) - s.lo;
    NoSixSegment(g, side, id, s);
    StoneOnEmpty(g, side, id, s, m.First);
    StoneOnEmpty(g, side, id, s, SecondOf(m));
    if Outnumbers(t, own, x, y) {
      ShapeOutnumbered(t, own, x, y);
      var w: nat :| WindowAvoids(own, w, x, y);
      MissedWindow(g, side, id, s, m, w);
    }
  }

  lemma ShapeOutnumbered(t: Table, own: seq<bool>, x: int, y: int)
    requires RatesThreats(t) && IsSegment(own) && !HasSix(own)
    requires EmptyOrOutside(own, x) && EmptyOrOutside(own, y) && Outnumbers(t, own, x, y)
    ensures exists w: nat :: WindowAvoids(own, w, x, y)
  {
    hide Outnumbers, EmptyOrOutside, WindowAvoids, HasSix;
    var c := Class(t, own);
  }

  lemma StoneOnEmpty(g: Grid, side: Side, id: LineId, s: Segment, p: Point)
    requires IsMaximalSegment(LineCells(g, id), side, s) && (OnBoard(p) ==> Free(g, p))
    ensures EmptyOrOutside(Own(LineCells(g, id), side, s.lo, s.hi), PlaceOn(id, p) - s.lo)
  {
    hide PlaceOn, LineStart, LineAngle, RayLen, At, Along;
    var x := PlaceOn(id, p);
    if x >= 0 {
      PlaceOnIs(id, p);
      assert LineCells(g, id)[x] == At(g, p);
    }
  }

  // ----- and so on every line -----

  /** Whether a place is in one of several segments. */
  function Hits(segs: seq<Segment>, x: int): nat {
    if exists s <- segs :: s.lo <= x < s.hi then 1 else 0
  }

  lemma HitsSnoc(segs: seq<Segment>, s: Segment, x: int)
    requires InOrder(segs + [s]) && forall r <- segs + [s] :: r.lo <= r.hi
    ensures Hits(segs + [s], x) == Hits(segs, x) + Hit(s, x)
  {
    assert forall r <- segs :: r in segs + [s];
    assert s in segs + [s];
    assert forall r <- segs + [s] :: r in segs || r == s;
    forall r <- segs
      ensures r.hi < s.lo
    {
      var i :| 0 <= i < |segs| && segs[i] == r;
      assert (segs + [s])[i] == r && (segs + [s])[|segs|] == s;
    }
  }

  lemma {:induction false} MergedHeld(t: Table, cells: seq<Cell>, start: Point, k: Angle, side: Side,
                                      segs: seq<Segment>, x: int, y: int)
    requires (forall s <- segs :: Fits(cells, s)) && InOrder(segs)
    requires forall s <- segs :: SegmentThreats(t, cells, side, s) <= Hit(s, x) + Hit(s, y)
    ensures Merged(t, cells, start, k, side, 0, segs).ThreatNum <= Hits(segs, x) + Hits(segs, y)
  {
    hide SegmentLine, SegmentThreats, Hits, Hit;
    if segs == [] {
      MergedNone(t, cells, start, k, side, 0);
    } else {
      var init, last := segs[..|segs| - 1], segs[|segs| - 1];
      MergedHeld(t, cells, start, k, side, init, x, y);
      SegmentLineThreats(t, cells, start, k, side, 0, last);
      assert init + [last] == segs;
      HitsSnoc(init, last, x);
      HitsSnoc(init, last, y);
    }
  }

  function OnLineCount(id: LineId, p: Point): nat {
    if PlaceOn(id, p) >= 0 then 1 else 0
  }

  lemma LineHeld(t: Table, g: Grid, side: Side, id: LineId, m: Step)
    requires MarksSixes(t) && RatesThreats(t) && !SixInARow(g, side) && LegalStep(g, m)
    requires !CanWin(After(g, m, Next(side)), side)
    ensures Scan(t, g, id, side, 0).ThreatNum <= OnLineCount(id, m.First) + OnLineCount(id, SecondOf(m))
  {
    hide SixInARow, CanWin, After, LineCells, IsMaximalSegment, PlaceOn, Analysis, Segments, Merged, SegmentThreats,
         MarksSixes, RatesThreats, SecondOf, NoSixOnLines, LegalStep, Hit;
    var cells, start, k := LineCells(g, id), LineStart(id), LineAngle(id);
    NoSixNoWin(t, g, side);
    WinlessLine(t, g, side, id);
    AnalysisDecomposes(t, cells, start, k, side, 0);
    SegmentsExact(cells, side);
    SegmentsOrdered(cells, side);
    forall s <- Segments(cells, side)
      ensures SegmentThreats(t, cells, side, s) <= Hit(s, PlaceOn(id, m.First)) + Hit(s, PlaceOn(id, SecondOf(m)))
    {
      SegmentHeld(t, g, side, id, s, m);
    }
    MergedHeld(t, cells, start, k, side, Segments(cells, side), PlaceOn(id, m.First), PlaceOn(id, SecondOf(m)));
  }

  lemma WinlessLine(t: Table, g: Grid, side: Side, id: LineId)
    requires NoSixOnLines(t, g, side)
    ensures NoWinOnLine(t, g, side, id)
  {
  }

  // ----- all lines of one direction -----

  /** Whether a point lies on one of the first `n` lines, in direction `k`. */
  function Passed(p: Point, k: Angle, n: nat): nat {
    if OnBoard(p) && HasLine(p, k) && LineThrough(p, k) < n then 1 else 0
  }

  lemma PassedOne(p: Point, id: LineId)
    ensures Passed(p, LineAngle(id), id + 1) == Passed(p, LineAngle(id), id) + OnLineCount(id, p)
  {
    if OnBoard(p) && HasLine(p, LineAngle(id)) {
      LineThroughCorrect(p, LineAngle(id));
    }
  }

  lemma {:induction false} GatherHeld(t: Table, g: Grid, side: Side, k: Angle, p: Point, q: Point, n: nat)
    requires n <= LINES
    requires forall id: LineId :: LineAngle(id) != k ==> Scan(t, g, id, side, 0).ThreatNum <= 0
    requires forall id: LineId :: Scan(t, g, id, side, 0).ThreatNum <= OnLineCount(id, p) + OnLineCount(id, q)
    ensures Gather(ScanAll(t, g, 0), side, 0, n).ThreatNum <= Passed(p, k, n) + Passed(q, k, n)
  {
    hide ScanAll, Scan, Gather, OnLineCount, HasLine, LineThrough, LineAngle;
    GatherOne(ScanAll(t, g, 0), side, 0, n);
    if n > 0 {
      GatherHeld(t, g, side, k, p, q, n - 1);
      CachedLine(t, g, side, n - 1);
      if LineAngle(n - 1) == k {
        PassedOne(p, n - 1);
        PassedOne(q, n - 1);
      }
    }
  }

  /** A line with a counted threat reports a threat point. */
  lemma CountedHasPoint(t: Table, g: Grid, side: Side, id: LineId)
    requires MarksThreats(t) && Scan(t, g, id, side, 0).ThreatNum > 0
    ensures Scan(t, g, id, side, 0).ThreatPoint != []
  {
    hide Scan, LineCells, Class, SegmentLine, ThreatGaps, Stones, IsThreatWindow, Own;
    var s := LineThreat(t, g, id, side);
    var own := Own(LineCells(g, id), side, s.lo, s.hi);
    var w: nat :| IsThreatWindow(own, w);
    var a, b := WindowGaps(own, w);
    ReportedGaps(t, LineCells(g, id), LineStart(id), LineAngle(id), side, s, w + a);
  }

  /** Without threats in two directions there is one that has them all. */
  lemma TheDirection(t: Table, g: Grid, side: Side) returns (k: Angle)
    requires MarksThreats(t) && !Spread(ScanAll(t, g, 0), side, 0)
    ensures forall id: LineId :: LineAngle(id) != k ==> Scan(t, g, id, side, 0).ThreatNum <= 0
  {
    hide ScanAll, Scan, LineAngle, MarksThreats;
    var c := ScanAll(t, g, 0);
    k := 0;
    if one: LineId :| Scan(t, g, one, side, 0).ThreatNum > 0 {
      k := LineAngle(one);
      CountedHasPoint(t, g, side, one);
      CachedLine(t, g, side, one);
    }
    forall id: LineId | LineAngle(id) != k
      ensures Scan(t, g, id, side, 0).ThreatNum <= 0
    {
      CachedLine(t, g, side, id);
      if Scan(t, g, id, side, 0).ThreatNum > 0 {
        CountedHasPoint(t, g, side, id);
      }
    }
  }

  /** The number of different cells of a step. */
  function CellsOf(m: Step): nat {
    if m.First == m.Second then 1 else 2
  }

  /** More threats in one direction than the answer has stones are lost. */
  lemma OneDirectionIsLost(t: Table, g: Grid, side: Side, m: Step)
    requires FindsThreats(t) && RatesThreats(t) && !SixInARow(g, side) && LegalStep(g, m)
    requires !Spread(ScanAll(t, g, 0), side, 0) && RawThreats(t, g, side) > CellsOf(m)
    ensures CanWin(After(g, m, Next(side)), side)
  {
    hide CanWin, After, SixInARow, ScanAll, Scan, Gather, Spread, RatesThreats, MarksThreats, MarksSixes, OnLineCount,
         HasLine, LineThrough, LegalStep, FindsThreats;
    FindsThreatsMarks(t);
    if !CanWin(After(g, m, Next(side)), side) {
      var k := TheDirection(t, g, side);
      forall id: LineId
        ensures Scan(t, g, id, side, 0).ThreatNum <= OnLineCount(id, m.First) + OnLineCount(id, SecondOf(m))
      {
        LineHeld(t, g, side, id, m);
      }
      GatherHeld(t, g, side, k, m.First, SecondOf(m), LINES);
    }
  }
}
