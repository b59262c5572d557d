/** Positions whose only threats are closed-off fives and fours, for a table that marks exactly these
    and six in a row. */
module ThreatBoards {
  import opened Geometry
  import opened Shape
  import opened LineScan
  import opened LineCache
  import opened Threats
  import opened Completion
  import opened WinSearch

  // ----- the table -----

  const FIVE: seq<bool> := [true, true, true, true, true, false]
  const FOUR: seq<bool> := [false, true, true, true, true, false]

  /** Class 15 for six in a row, class 9 for five and class 10 for four with their gaps, and nothing else. */
  ghost function SixTable(): (t: Table) {
    seq(TABLESIZE, i requires 0 <= i < TABLESIZE =>
      var own := Decode(i + 64); if HasSix(own) then 15 else if own == FIVE then 9 else if own == FOUR then 10 else 0)
  }

  lemma ShapeClass(own: seq<bool>)
    requires IsSegment(own)
    ensures Class(SixTable(), own)
         == if HasSix(own) then 15 else if own == FIVE then 9 else if own == FOUR then 10 else 0
  {
    hide HasSix;
    SegmentCodeInTable(own);
    CodeDecode(Code(own));
    CodeInjective(Decode(Code(own)), own);
  }

  lemma StonesOfShapes()
    ensures Stones(FIVE, 0, 6) == 5 && Stones(FOUR, 0, 6) == 4
  {
    assert Stones(FIVE, 0, 4) == 4 && Stones(FOUR, 0, 4) == 3;
  }

  lemma SixTableMarks()
    ensures MarksSixes(SixTable()) && MarksThreats(SixTable())
  {
    hide SixTable, HasSix, Stones;
    forall own | IsSegment(own)
      ensures Class(SixTable(), own) == 15 <==> HasSix(own)
      ensures IsThreatClass(Class(SixTable(), own)) ==> exists w: nat :: IsThreatWindow(own, w)
    {
      ShapeClass(own);
      StonesOfShapes();
      assert own == FIVE || own == FOUR ==> IsThreatWindow(own, 0);
    }
  }

  // ----- boards -----

  ghost predicate Shows(g: Grid, own: Point -> bool, opp: Point -> bool) {
    forall p :: OnBoard(p) ==> At(g, p) == if own(p) then 0 else if opp(p) then 1 else EMPTY
  }

  function BoardOf(own: Point -> bool, opp: Point -> bool): (g: Grid)
    ensures Shows(g, own, opp)
  {
    var g := seq(BOARD_CELLS, c requires 0 <= c < BOARD_CELLS =>
      var p := Point(c / 19, c % 19); if own(p) then 0 else if opp(p) then 1 else EMPTY);
    assert forall p :: OnBoard(p) ==> Point(Index(p) / 19, Index(p) % 19) == p;
    g
  }

  /** A shape that stands alone between opponent stones or edges, and its first cell. */
  datatype Threat = Five(lo: nat) | Four(lo: nat) {
    function Shape(): (own: seq<bool>)
      ensures |own| == 6
    {
      if Five? then FIVE else FOUR
    }
  }

  predicate FourInRow(g: Grid, id: LineId, i: nat) {
    var cells := LineCells(g, id);
    i + 4 <= |cells| && cells[i] == 0 && cells[i + 1] == 0 && cells[i + 2] == 0 && cells[i + 3] == 0
  }

  predicate ThreatAt(cells: seq<Cell>, m: Threat) {
    && m.lo + 6 <= |cells|
    && (forall i :: m.lo <= i < m.lo + 6 ==> cells[i] == if m.Shape()[i - m.lo] then 0 else EMPTY)
    && (m.lo == 0 || cells[m.lo - 1] == 1)
    && (m.lo + 6 == |cells| || cells[m.lo + 6] == 1)
  }

  type ThreatMap = map<LineId, Threat>

  /** Four own stones are in a row in the listed threats only. */
  ghost predicate OnlyThreats(g: Grid, ts: ThreatMap) {
    && (forall id: LineId, i: nat :: FourInRow(g, id, i) ==> id in ts && ts[id].lo <= i <= ts[id].lo + 1)
    && (forall id <- ts :: ThreatAt(LineCells(g, id), ts[id]))
  }

  // ----- the scan of such a board -----

  lemma NoSixFrom(g: Grid, ts: ThreatMap, id: LineId, s: Segment, i: nat)
    requires OnlyThreats(g, ts) && s.lo <= s.hi <= |LineCells(g, id)|
    ensures !SixFrom(Own(LineCells(g, id), 0, s.lo, s.hi), i)
  {
    hide LineCells;
    var cells := LineCells(g, id);
    var own := Own(cells, 0, s.lo, s.hi);
    if i + 6 <= |own| {
      FourWithin(g, id, s, i);
      FourWithin(g, id, s, i + 2);
    }
  }

  lemma FourWithin(g: Grid, id: LineId, s: Segment, i: nat)
    requires s.lo <= s.hi <= |LineCells(g, id)| && i + 4 <= s.hi - s.lo
    ensures var own := Own(LineCells(g, id), 0, s.lo, s.hi);
            own[i] && own[i + 1] && own[i + 2] && own[i + 3] ==> FourInRow(g, id, s.lo + i)
  {
    hide LineCells;
  }

  lemma NoSix(g: Grid, ts: ThreatMap, id: LineId, s: Segment)
    requires OnlyThreats(g, ts) && s.lo <= s.hi <= |LineCells(g, id)|
    ensures !HasSix(Own(LineCells(g, id), 0, s.lo, s.hi))
  {
    hide LineCells, SixFrom, OnlyThreats;
    forall i: nat
      ensures !SixFrom(Own(LineCells(g, id), 0, s.lo, s.hi), i)
    {
      NoSixFrom(g, ts, id, s, i);
    }
  }

  /** A maximal segment that begins in a threat or just before it is that threat. */
  lemma ThreatIsWhole(cells: seq<Cell>, m: Threat, s: Segment)
    requires ThreatAt(cells, m) && IsMaximalSegment(cells, 0, s) && m.lo <= s.lo + 1 && s.lo <= m.lo + 1
    ensures s == Segment(m.lo, m.lo + 6) && Own(cells, 0, s.lo, s.hi) == m.Shape()
  {
    assert s.lo == m.lo;
    assert s.hi == m.lo + 6;
  }

  /** The classes of all maximal segments of the board. */
  lemma SegmentClasses(g: Grid, ts: ThreatMap, id: LineId, s: Segment)
    requires OnlyThreats(g, ts) && |LineCells(g, id)| <= 19 && IsMaximalSegment(LineCells(g, id), 0, s)
    ensures SegmentClass(SixTable(), LineCells(g, id), 0, s)
         == if id in ts && s.lo == ts[id].lo then (if ts[id].Five? then 9 else 10) else 0
  {
    hide SixTable, Class, LineCells, HasSix, FourInRow, ThreatAt, IsMaximalSegment;
    var cells := LineCells(g, id);
    SegmentBounds(cells, s);
    var own := Own(cells, 0, s.lo, s.hi);
    ShapeClass(own);
    NoSix(g, ts, id, s);
    if id in ts && s.lo == ts[id].lo {
      ThreatIsWhole(cells, ts[id], s);
    } else if own == FIVE || own == FOUR {
      FourWithin(g, id, s, if own == FIVE then 0 else 1);
      assert FourInRow(g, id, s.lo + if own == FIVE then 0 else 1);
      ThreatIsWhole(cells, ts[id], s);
    }
  }

  lemma SegmentBounds(cells: seq<Cell>, s: Segment)
    requires |cells| <= 19 && IsMaximalSegment(cells, 0, s)
    ensures s.lo <= s.hi <= |cells| && IsSegment(Own(cells, 0, s.lo, s.hi))
  {
  }

  /** The threats of a line of which only segment `at`, if any, is a threat. */
  lemma {:induction false} MergedThreats(cells: seq<Cell>, start: Point, k: Angle, segs: seq<Segment>, at: int)
    requires |cells| <= 19 && forall s <- segs :: Fits(cells, s)
    requires forall i :: 0 <= i < |segs| ==>
              SegmentClass(SixTable(), cells, 0, segs[i]) in if i == at then {9, 10} else {0}
    ensures var l := Merged(SixTable(), cells, start, k, 0, 0, segs);
            if 0 <= at < |segs|
            then
              && l.ThreatNum == 1
              && l.ThreatPoint == SegmentLine(SixTable(), cells, start, k, 0, 0, segs[at]).ThreatPoint
            else l.ThreatNum == 0 && l.ThreatPoint == []
  {
    hide SixTable, Class, Picks, PairPicks, ThreatGaps, Points, Pairs;
    if segs != [] {
      MergedThreats(cells, start, k, segs[..|segs| - 1], at);
    }
  }

  lemma GapsOfShapes()
    ensures ThreatGaps(FIVE, 1) == [5] && ThreatGaps(FOUR, 1) == [0, 5]
  {
    assert Stones(FIVE, 0, 4) == 4 && Gaps(FIVE, 0, 4) == [];
    assert Stones(FOUR, 0, 4) == 3 && Gaps(FOUR, 0, 4) == [0];
  }

  /** The points of the gaps of the threat on a line. */
  function PointsOn(ts: ThreatMap, id: LineId): seq<Point> {
    if id !in ts then []
    else if ts[id].Five? then [Along(LineStart(id), LineAngle(id), ts[id].lo + 5)]
    else [Along(LineStart(id), LineAngle(id), ts[id].lo), Along(LineStart(id), LineAngle(id), ts[id].lo + 5)]
  }

  lemma PointsOfThreat(cells: seq<Cell>, id: LineId, ts: ThreatMap, s: Segment)
    requires id in ts && Fits(cells, s) && s.lo == ts[id].lo && Own(cells, 0, s.lo, s.hi) == ts[id].Shape()
    requires SegmentClass(SixTable(), cells, 0, s) in {9, 10}
    ensures SegmentLine(SixTable(), cells, LineStart(id), LineAngle(id), 0, 0, s).ThreatPoint == PointsOn(ts, id)
  {
    hide SixTable, Class, ThreatGaps, LineStart, LineAngle;
    GapsOfShapes();
  }

  lemma SegmentsDiffer(cells: seq<Cell>, segs: seq<Segment>)
    requires segs == Segments(cells, 0)
    ensures forall i, j :: 0 <= i < j < |segs| ==> segs[i].lo < segs[j].lo
    ensures forall s :: s in segs <==> IsMaximalSegment(cells, 0, s)
  {
    hide Segments;
    SegmentsExact(cells, 0);
    SegmentsOrdered(cells, 0);
    forall i, j | 0 <= i < j < |segs|
      ensures segs[i].lo < segs[j].lo
    {
      assert segs[i] in segs && IsMaximalSegment(cells, 0, segs[i]);
    }
  }

  lemma LineOfThreats(g: Grid, ts: ThreatMap, id: LineId)
    requires OnlyThreats(g, ts)
    ensures var l := Scan(SixTable(), g, id, 0, 0);
            l.ThreatNum == (if id in ts then 1 else 0) && l.ThreatPoint == PointsOn(ts, id)
  {
    hide SixTable, Class, SegmentClass, Analysis, Segments, SegmentLine, LineCells, Merged, IsMaximalSegment,
      OnlyThreats;
    var cells, start, k := LineCells(g, id), LineStart(id), LineAngle(id);
    LineIsShort(g, id);
    var segs := Segments(cells, 0);
    SegmentsDiffer(cells, segs);
    AnalysisDecomposes(SixTable(), cells, start, k, 0, 0);
    forall s: Segment | IsMaximalSegment(cells, 0, s)
      ensures Fits(cells, s)
              && SegmentClass(SixTable(), cells, 0, s) in if id in ts && s.lo == ts[id].lo then {9, 10} else {0}
    {
      assert s in segs;
      SegmentClasses(g, ts, id, s);
    }
    var at := PlaceOfThreat(g, ts, id, segs);
    ClassesByPlace(cells, ts, id, segs, at);
    MergedThreats(cells, start, k, segs, at);
    if id in ts {
      PointsOfThreat(cells, id, ts, segs[at]);
    }
  }

  /** The place of the threat among the segments of its line. */
  lemma PlaceOfThreat(g: Grid, ts: ThreatMap, id: LineId, segs: seq<Segment>) returns (at: int)
    requires OnlyThreats(g, ts) && forall s :: s in segs <==> IsMaximalSegment(LineCells(g, id), 0, s)
    ensures if id in ts then
              0 <= at < |segs| && segs[at] == Segment(ts[id].lo, ts[id].lo + 6) && segs[at].hi <= |LineCells(g, id)|
              && Own(LineCells(g, id), 0, segs[at].lo, segs[at].hi) == ts[id].Shape()
            else at == -1
  {
    hide LineCells, FourInRow;
    if id in ts {
      var s := Segment(ts[id].lo, ts[id].lo + 6);
      assert ThreatAt(LineCells(g, id), ts[id]);
      assert s in segs;
      at :| 0 <= at < |segs| && segs[at] == s;
      ThreatIsWhole(LineCells(g, id), ts[id], s);
    } else {
      at := -1;
    }
  }

  lemma ClassesByPlace(cells: seq<Cell>, ts: ThreatMap, id: LineId, segs: seq<Segment>, at: int)
    requires |cells| <= 19 && forall s <- segs :: Fits(cells, s)
    requires forall s <- segs ::
               SegmentClass(SixTable(), cells, 0, s) in if id in ts && s.lo == ts[id].lo then {9, 10} else {0}
    requires forall i, j :: 0 <= i < j < |segs| ==> segs[i].lo < segs[j].lo
    requires if id in ts then 0 <= at < |segs| && segs[at].lo == ts[id].lo else at == -1
    ensures forall i :: 0 <= i < |segs| ==>
              SegmentClass(SixTable(), cells, 0, segs[i]) in if i == at then {9, 10} else {0}
  {
    hide SixTable, SegmentClass;
    forall i | 0 <= i < |segs|
      ensures SegmentClass(SixTable(), cells, 0, segs[i]) in if i == at then {9, 10} else {0}
    {
      assert segs[i] in segs;
    }
  }

  /** The points of the threats on the first `n` lines, and their number. */
  function PointsBelow(ts: ThreatMap, n: nat): seq<Point>
    requires n <= LINES
  {
    if n == 0 then [] else PointsBelow(ts, n - 1) + PointsOn(ts, n - 1)
  }

  function CountBelow(ts: ThreatMap, n: nat): nat
    requires n <= LINES
  {
    if n == 0 then 0 else CountBelow(ts, n - 1) + (if n - 1 in ts then 1 else 0)
  }

  lemma {:induction false} GatheredThreats(g: Grid, ts: ThreatMap, n: nat)
    requires OnlyThreats(g, ts) && n <= LINES
    ensures var l := Gather(ScanAll(SixTable(), g, 0), 0, 0, n);
            l.ThreatNum == CountBelow(ts, n) && l.ThreatPoint == PointsBelow(ts, n)
  {
    hide SixTable, Scan, OnlyThreats, PointsOn;
    if n > 0 {
      GatheredThreats(g, ts, n - 1);
      LineOfThreats(g, ts, n - 1);
      CachedLine(SixTable(), g, 0, n - 1);
    }
  }

  /** Lines without a threat add nothing. */
  lemma {:induction false} NoThreatsBetween(ts: ThreatMap, m: nat, n: nat)
    requires m <= n <= LINES && forall id: LineId :: m <= id < n ==> id !in ts
    ensures PointsBelow(ts, n) == PointsBelow(ts, m) && CountBelow(ts, n) == CountBelow(ts, m)
    decreases n
  {
    if m < n {
      NoThreatsBetween(ts, m, n - 1);
    }
  }

  // ----- what is seen from the edge, and what is there -----

  /** A stone in the last column shows nothing as long as no two own stones are side by side there. */
  lemma EdgeIsNotSeen(h: Grid, p: Point)
    requires OnBoard(p) && p.X == 18 && At(h, p) == 0
    requires forall y :: 0 <= y < 18 ==> At(h, Point(18, y)) != 0 || At(h, Point(18, y + 1)) != 0
    ensures !WinsAt(SixTable(), h, p, 0)
  {
    hide SixTable, SegmentID, At;
    forall k: Angle
      ensures SegmentID(SixTable(), h, p, k, 0) != 15
    {
      BehindEdge(h, p, k);
    }
  }

  lemma BehindEdge(h: Grid, p: Point, k: Angle)
    requires OnBoard(p) && p.X == 18 && At(h, p) == 0
    requires forall y :: 0 <= y < 18 ==> At(h, Point(18, y)) != 0 || At(h, Point(18, y + 1)) != 0
    ensures SegmentID(SixTable(), h, p, k, 0) != 15
  {
    hide SixTable, At, Class, Ray, HasSix, Stretch;
    SegmentIDOnEdge(SixTable(), h, p, k, 0);
    var own := Stretch(h, p, k, 0);
    StretchIsShort(h, p, k);
    if |own| > 5 {
      ShapeClass(own);
      OneStoneOnly(h, p, own);
    }
  }

  lemma StretchIsShort(h: Grid, p: Point, k: Angle)
    requires OnBoard(p) && p.X == 18
    ensures |Stretch(h, p, k, 0)| > 1 ==> k == 2
  {
  }

  lemma OneStoneOnly(h: Grid, p: Point, own: seq<bool>)
    requires OnBoard(p) && p.X == 18 && own == Stretch(h, p, 2, 0)
    requires forall y :: 0 <= y < 18 ==> At(h, Point(18, y)) != 0 || At(h, Point(18, y + 1)) != 0
    ensures !HasSix(own)
  {
    hide FreeLenFrom, At;
    var cells := Ray(h, p, 2);
    forall i: nat
      ensures !SixFrom(own, i)
    {
      if i + 6 <= |own| {
        assert cells[i] == At(h, Point(18, p.Y + i)) && cells[i + 1] == At(h, Point(18, p.Y + i + 1));
        assert !own[i] || !own[i + 1];
      }
    }
  }

  /** Six stones on a whole line of the board complete it. */
  lemma SixCompletes(h: Grid, q: Point, k: Angle, p: Point)
    requires OnBoard(q) && OnBoard(Along(q, k, 5)) && p == Along(q, k, 5)
    requires forall n :: 0 <= n <= 5 ==> OnBoard(Along(q, k, n)) && At(h, Along(q, k, n)) == 0
    ensures CompletesAt(SixTable(), h, p, 0)
  {
    hide SixTable, CompletesAt;
    SixTableMarks();
    SixIsCompletion(SixTable(), h, q, k, 5, 0);
  }
}
