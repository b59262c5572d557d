/** What the judgement of a node means on the board: a won node is won by the next step, a node given up as lost
    is lost whatever the answer. */
module Judgement {
  import opened Geometry
  import opened Shape
  import opened LineScan
  import opened LineCache
  import opened Threats
  import opened Completion
  import opened Victory
  import opened Trials
  import opened GameTree
  import opened LeafValues
  import opened WinSearch
  import opened ThreatCounts

  // ----- a side that can win at once -----

  /** Class 15 stands for six in a row, and the threat classes for all other shapes with four or five own
      stones in six cells. */
  ghost predicate FindsThreats(t: Table) {
    && MarksSixes(t)
    && forall own {:trigger Class(t, own)} :: IsSegment(own) ==>
         (IsThreatClass(Class(t, own)) <==> !HasSix(own) && exists w: nat :: IsThreatWindow(own, w))
  }

  lemma FindsThreatsMarks(t: Table)
    requires FindsThreats(t)
    ensures MarksSixes(t) && MarksThreats(t)
  {
    hide Class, HasSix;
  }

  /** Two free cells, and different ones unless only one is free. */
  ghost predicate Playable(g: Grid, m: Step) {
    LegalStep(g, m) && (m.First == m.Second ==> forall p :: Free(g, p) ==> p == m.First)
  }

  /** The step makes six in a row. */
  ghost predicate WinsWith(g: Grid, m: Step, side: Side) {
    Playable(g, m) && SixInARow(After(g, m, side), side)
  }

  ghost predicate CanWin(g: Grid, side: Side) {
    exists m: Step :: WinsWith(g, m, side)
  }

  lemma SixPersists(g: Grid, h: Grid, side: Side)
    requires SixInARow(g, side) && forall p :: OnBoard(p) && At(g, p) == side ==> At(h, p) == side
    ensures SixInARow(h, side)
  {
    hide At, Along;
    var q, k := SixSomewhere(g, side);
    assert SixAt(h, q, k, side);
  }

  /** A step changes its two cells only. */
  lemma AfterStep(g: Grid, m: Step, side: Side, p: Point)
    requires LegalStep(g, m) && OnBoard(p)
    ensures At(After(g, m, side), p) == if p == m.First || p == m.Second then side else At(g, p)
  {
    PutAt(g, m.First, side, p);
    PutAt(Put(g, m.First, side), m.Second, side, p);
  }

  /** A single stone that wins does so with any other. */
  lemma LegalWins(g: Grid, m: Step, side: Side)
    requires LegalStep(g, m) && SixInARow(After(g, m, side), side)
    ensures CanWin(g, side)
  {
    hide After, At, SixInARow;
    if other :| m.First == m.Second && Free(g, other) && other != m.First {
      var both := m.(Second := other);
      forall p | OnBoard(p) && At(After(g, m, side), p) == side
        ensures At(After(g, both, side), p) == side
      {
        AfterStep(g, m, side, p);
        AfterStep(g, both, side, p);
      }
      SixPersists(After(g, m, side), After(g, both, side), side);
      assert WinsWith(g, both, side);
    } else {
      assert WinsWith(g, m, side);
    }
  }

  /** Filling the gaps of a window. */
  lemma FilledWindow(g: Grid, pts: seq<Point>, side: Side, q: Point, k: Angle, a: nat, b: nat, m: Step)
    requires Window(g, pts, side, q, k, a, b) && Free(g, m.First) && Free(g, m.Second)
    requires Along(q, k, a) in {m.First, m.Second} && Along(q, k, b) in {m.First, m.Second}
    ensures SixInARow(After(g, m, side), side)
  {
    hide Along, At, Put;
    var h := After(g, m, side);
    forall n | 0 <= n <= 5
      ensures OnBoard(Along(q, k, n)) && At(h, Along(q, k, n)) == side
    {
      PutAt(g, m.First, side, Along(q, k, n));
      PutAt(Put(g, m.First, side), m.Second, side, Along(q, k, n));
    }
    assert SixAt(h, q, k, side);
  }

  /** A counted threat can be completed by one step. */
  lemma CountedCanWin(t: Table, g: Grid, side: Side)
    requires MarksThreats(t) && CoherentInfo(t, g, side).ThreatNum > 0
    ensures CanWin(g, side)
  {
    hide CoherentInfo, MarksThreats, Window, SixInARow, Put, At;
    var pts := CoherentInfo(t, g, side).ThreatPoint;
    CoherentInfoThreats(t, g, side);
    var q, k, a, b := WindowExists(t, g, side);
    WindowIsListed(g, pts, side, q, k, a, b);
    var m := Step(Along(q, k, a), Along(q, k, b), {}, 0, 0);
    FilledWindow(g, pts, side, q, k, a, b, m);
    LegalWins(g, m, side);
  }

  // ----- and one that cannot -----

  lemma StonesOfWindow(own: seq<bool>, w: nat)
    requires w + 6 <= |own|
    ensures Stones(own, w, 6)
         == (if own[w] then 1 else 0) + (if own[w + 1] then 1 else 0) + (if own[w + 2] then 1 else 0)
          + (if own[w + 3] then 1 else 0) + (if own[w + 4] then 1 else 0) + (if own[w + 5] then 1 else 0)
  {
    assert Stones(own, w, 1) == if own[w] then 1 else 0;
    assert Stones(own, w, 2) == Stones(own, w, 1) + if own[w + 1] then 1 else 0;
    assert Stones(own, w, 3) == Stones(own, w, 2) + if own[w + 2] then 1 else 0;
    assert Stones(own, w, 4) == Stones(own, w, 3) + if own[w + 3] then 1 else 0;
    assert Stones(own, w, 5) == Stones(own, w, 4) + if own[w + 4] then 1 else 0;
  }

  /** Six cells of which at most two are not own stones. */
  lemma WindowOfFour(own: seq<bool>, w: nat, u: int, v: int)
    requires w + 6 <= |own| && !HasSix(own)
    requires forall i :: w <= i < w + 6 && i != u && i != v ==> own[i]
    ensures IsThreatWindow(own, w)
  {
    hide Stones;
    StonesOfWindow(own, w);
    assert !SixFrom(own, w);
  }

  /** The cells of a line from a point on. */
  lemma LineFrom(g: Grid, q: Point, k: Angle)
    requires OnBoard(q) && OnBoard(Along(q, k, 5))
    ensures HasLine(q, k)
    ensures var id, o := LineThrough(q, k), Offset(q, k);
            && LineAngle(id) == k && 0 <= o && o + 6 <= |LineCells(g, id)| <= 19
            && forall n :: 0 <= n <= 5 ==> OnBoard(Along(q, k, n)) && LineCells(g, id)[o + n] == At(g, Along(q, k, n))
  {
    hide At, LineStart;
    LineNumberingBijective();
    RayOnBoard(q, k, 5);
    LineThroughCorrect(q, k);
    var id, o := LineThrough(q, k), Offset(q, k);
    var start := LineStart(id);
    RayOnBoard(start, k, o + 5);
    assert Along(q, k, 5) == Along(start, k, o + 5);
    forall n | 0 <= n <= 5
      ensures OnBoard(Along(q, k, n)) && LineCells(g, id)[o + n] == At(g, Along(q, k, n))
    {
      assert Along(q, k, n) == Along(start, k, o + n);
    }
    LineIsShort(g, id);
  }

  /** Six opponent-free cells lie in one maximal segment. */
  lemma SegmentAround(cells: seq<Cell>, side: Side, o: nat) returns (s: Segment)
    requires o + 6 <= |cells| && forall i :: o <= i < o + 6 ==> cells[i] != Next(side)
    ensures IsMaximalSegment(cells, side, s) && s.lo <= o && o + 6 <= s.hi
  {
    hide RunStart, FreeLenFrom;
    RunSurrounds(cells, side, o);
    s := Segment(RunStart(cells, side, o), FreeLenFrom(cells, side, o));
  }

  lemma NoSixSegment(g: Grid, side: Side, id: LineId, s: Segment)
    requires !SixInARow(g, side) && s.lo <= s.hi <= |LineCells(g, id)|
    ensures !HasSix(Own(LineCells(g, id), side, s.lo, s.hi))
  {
    hide SixInARow, HasSix, Ray, LineStart, LineAngle;
    if HasSix(Own(LineCells(g, id), side, s.lo, s.hi)) {
      SixCells(LineCells(g, id), side, s.lo, s.hi, g, LineStart(id), LineAngle(id));
    }
  }

  lemma NoSixNoWin(t: Table, g: Grid, side: Side)
    requires MarksSixes(t) && !SixInARow(g, side)
    ensures NoSixOnLines(t, g, side)
  {
    hide SixInARow, HasSix, LineCells, Class, Own;
    forall id: LineId
      ensures NoWinOnLine(t, g, side, id)
    {
      LineIsShort(g, id);
      forall s: Segment | IsMaximalSegment(LineCells(g, id), side, s)
        ensures SegmentClass(t, LineCells(g, id), side, s) != 15
      {
        NoSixSegment(g, side, id, s);
      }
    }
  }

  /** A window that one step completes is a segment of a threat class. */
  lemma CompletedIsThreat(t: Table, g: Grid, m: Step, side: Side, q: Point, k: Angle) returns (s: Segment)
    requires FindsThreats(t) && !SixInARow(g, side) && LegalStep(g, m)
    requires OnBoard(q) && OnBoard(Along(q, k, 5)) && SixAt(After(g, m, side), q, k, side)
    ensures HasLine(q, k) && IsMaximalSegment(LineCells(g, LineThrough(q, k)), side, s)
    ensures Fits(LineCells(g, LineThrough(q, k)), s)
            && IsThreatClass(SegmentClass(t, LineCells(g, LineThrough(q, k)), side, s))
    ensures s.lo <= Offset(q, k)
            && IsThreatWindow(Own(LineCells(g, LineThrough(q, k)), side, s.lo, s.hi), Offset(q, k) - s.lo)
  {
    hide SixInARow, HasSix, LineCells, Class, At, Put, Along, LineThrough, HasLine, Offset, LineAngle, IsThreatWindow;
    LineFrom(g, q, k);
    var id, o := LineThrough(q, k), Offset(q, k);
    var cells := LineCells(g, id);
    CellsOfSix(g, m, side, q, k);
    var u, v := PlaceAlong(q, k, m.First), PlaceAlong(q, k, m.Second);
    forall i | o <= i < o + 6
      ensures cells[i] != Next(side) && (i != o + u && i != o + v ==> cells[i] == side)
    {
      assert cells[o + (i - o)] == At(g, Along(q, k, i - o));
    }
    s := SegmentAround(cells, side, o);
    NoSixSegment(g, side, id, s);
    OwnFromCells(cells, side, s, o, o + u, o + v);
    WindowOfFour(Own(cells, side, s.lo, s.hi), o - s.lo, o + u - s.lo, o + v - s.lo);
  }

  lemma OwnFromCells(cells: seq<Cell>, side: Side, s: Segment, o: nat, u: int, v: int)
    requires IsMaximalSegment(cells, side, s) && |cells| <= 19 && s.lo <= o && o + 6 <= s.hi
    requires forall i :: o <= i < o + 6 && i != u && i != v ==> cells[i] == side
    ensures Fits(cells, s)
    ensures var own := Own(cells, side, s.lo, s.hi);
            forall i :: o - s.lo <= i < o - s.lo + 6 && i != u - s.lo && i != v - s.lo ==> own[i]
  {
  }

  /** Where a point is along a direction, or -1 if not within six cells. */
  ghost function PlaceAlong(q: Point, k: Angle, p: Point): (n: int)
    ensures n == -1 || 0 <= n <= 5
    ensures forall i :: 0 <= i <= 5 ==> (Along(q, k, i) == p <==> i == n)
  {
    var n := if k == 2 then p.Y - q.Y else p.X - q.X;
    if 0 <= n <= 5 && Along(q, k, n) == p then n else -1
  }

  /** Before the step the six cells were own stones or free cells on which the step put its stones. */
  lemma CellsOfSix(g: Grid, m: Step, side: Side, q: Point, k: Angle)
    requires LegalStep(g, m) && OnBoard(q) && OnBoard(Along(q, k, 5)) && SixAt(After(g, m, side), q, k, side)
    ensures forall n :: 0 <= n <= 5 ==> OnBoard(Along(q, k, n)) && At(g, Along(q, k, n)) in {side, EMPTY}
    ensures forall n :: 0 <= n <= 5 && Along(q, k, n) != m.First && Along(q, k, n) != m.Second ==>
              At(g, Along(q, k, n)) == side
  {
    hide Along, At, Put;
    forall n | 0 <= n <= 5
      ensures OnBoard(Along(q, k, n)) && At(g, Along(q, k, n)) in {side, EMPTY}
      ensures Along(q, k, n) != m.First && Along(q, k, n) != m.Second ==> At(g, Along(q, k, n)) == side
    {
      assert OnBoard(Along(q, k, n));
      PutAt(g, m.First, side, Along(q, k, n));
      PutAt(Put(g, m.First, side), m.Second, side, Along(q, k, n));
    }
  }

  lemma ThreatIsCounted(t: Table, g: Grid, side: Side, id: LineId, s: Segment)
    requires NoSixOnLines(t, g, side) && IsMaximalSegment(LineCells(g, id), side, s)
    requires Fits(LineCells(g, id), s) && IsThreatClass(SegmentClass(t, LineCells(g, id), side, s))
    ensures CoherentInfo(t, g, side).ThreatNum > 0
  {
    hide ScanAll, Gather, Spread, BlockedByOne, BlockedByTwo, LineCells, SegmentClass, NoSixOnLines, IsMaximalSegment;
    CoherentThreatsFree(t, g, side, 0);
    if Gather(ScanAll(t, g, 0), side, 0, LINES).ThreatNum <= 0 {
      NoThreatAnywhere(t, g, side, id, s);
    }
  }

  /** A side without six in a row has a counted threat exactly when it can make six by one step. */
  lemma CountedExactlyIfWinning(t: Table, g: Grid, side: Side)
    requires FindsThreats(t) && !SixInARow(g, side)
    ensures CoherentInfo(t, g, side).ThreatNum > 0 <==> CanWin(g, side)
  {
    hide CoherentInfo, FindsThreats, SixInARow, LegalStep, IsMaximalSegment, SegmentClass, LineCells;
    FindsThreatsMarks(t);
    NoSixNoWin(t, g, side);
    if CoherentInfo(t, g, side).ThreatNum > 0 {
      CountedCanWin(t, g, side);
    }
    if CanWin(g, side) {
      var m: Step :| WinsWith(g, m, side);
      var q, k := SixSomewhere(After(g, m, side), side);
      var s := CompletedIsThreat(t, g, m, side, q, k);
      ThreatIsCounted(t, g, side, LineThrough(q, k), s);
    }
  }

  lemma SixSomewhere(g: Grid, side: Side) returns (q: Point, k: Angle)
    requires SixInARow(g, side)
    ensures OnBoard(q) && OnBoard(Along(q, k, 5)) && SixAt(g, q, k, side)
  {
    q, k :| OnBoard(q) && OnBoard(Along(q, k, 5)) && SixAt(g, q, k, side);
  }
}
