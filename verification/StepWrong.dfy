/** The scores that are wrong: for every two points at which the tests of the step value miscount,
    a board and a table on which the score is not the full re-evaluation. */
module StepWrong {
  import opened Geometry
  import opened Shape
  import opened LineScan
  import opened LineCache
  import opened StepValue

  // ----- a table that values full segments only -----

  predicate AllOwn(own: seq<bool>) {
    forall i :: 0 <= i < |own| ==> own[i]
  }

  /** Class 2, which is worth 1, for the segments without a gap. */
  function FullTable(): (t: Table) {
    seq(TABLESIZE, i requires 0 <= i < TABLESIZE => if AllOwn(Decode(i + 64)) then 2 else 0)
  }

  lemma FullClass(own: seq<bool>)
    requires IsSegment(own)
    ensures Class(FullTable(), own) == if AllOwn(own) then 2 else 0
  {
    SegmentCodeInTable(own);
    CodeDecode(Code(own));
    CodeInjective(Decode(Code(own)), own);
  }

  lemma FullTableIsQuiet(g: Grid, p: Point, q: Point)
    ensures QuietElsewhere(FullTable(), g, p, q)
  {
    hide FullTable, LineCells, RayLen, LineAngle, LineStart;
    forall i: LineId, side: Side
      ensures |LineCells(g, i)| <= 19 && NoWin(FullTable(), LineCells(g, i), side)
    {
      LineLength(g, i);
      forall s: Segment | IsMaximalSegment(LineCells(g, i), side, s)
        ensures Fits(LineCells(g, i), s) && SegmentClass(FullTable(), LineCells(g, i), side, s) != 15
      {
        FullClass(Own(LineCells(g, i), side, s.lo, s.hi));
      }
    }
  }

  // ----- a board with one full line -----

  /** A stone on every cell of line `id`, except on the two points. */
  ghost function OneLine(id: LineId, side: Side, p: Point, q: Point): (g: Grid)
    ensures forall r :: OnBoard(r) ==> At(g, r) == if InCross(r, id) && r != p && r != q then side else EMPTY
  {
    var g := seq(BOARD_CELLS, c requires 0 <= c < BOARD_CELLS =>
      var r := Point(c / 19, c % 19); if InCross(r, id) && r != p && r != q then side else EMPTY);
    forall r | OnBoard(r)
      ensures At(g, r) == if InCross(r, id) && r != p && r != q then side else EMPTY
    {
      assert Index(r) / 19 == r.X && Index(r) % 19 == r.Y;
    }
    g
  }

  /** The board after the step: the line, and the two stones. */
  ghost predicate IsAfter(h: Grid, id: LineId, side: Side, p: Point, q: Point) {
    forall r :: OnBoard(r) ==> At(h, r) == if InCross(r, id) || r == p || r == q then side else EMPTY
  }

  lemma AfterStep(id: LineId, side: Side, p: Point, q: Point)
    requires OnBoard(p) && OnBoard(q)
    ensures IsAfter(Put(Put(OneLine(id, side, p, q), p, side), q, side), id, side, p, q)
  {
    hide InCross;
    var g := OneLine(id, side, p, q);
    forall r | OnBoard(r)
      ensures At(Put(Put(g, p, side), q, side), r) == if InCross(r, id) || r == p || r == q then side else EMPTY
    {
      PutAt(g, p, side, r);
      PutAt(Put(g, p, side), q, side, r);
    }
  }

  /** Two points determine a line. */
  lemma TwoPointsOneLine(r: Point, s: Point, id: LineId, j: LineId)
    requires r != s && InCross(r, id) && InCross(s, id) && InCross(r, j) && InCross(s, j)
    ensures id == j
  {
    InItsDirection(r, id);
    InItsDirection(s, id);
    InItsDirection(r, j);
    InItsDirection(s, j);
  }

  lemma InItsDirection(r: Point, id: LineId)
    requires InCross(r, id)
    ensures HasLine(r, LineAngle(id)) && LineThrough(r, LineAngle(id)) == id
  {
    var k: Angle :| HasLine(r, k) && id == LineThrough(r, k);
    LineThroughCorrect(r, k);
  }

  /** One of the four cells from `i` on is empty. */
  ghost predicate HasGap(cells: seq<Cell>, i: nat) {
    exists u :: i <= u < i + 4 && u < |cells| && cells[u] == EMPTY
  }

  /** On another line no four cells in a row are all taken. */
  lemma FourCells(h: Grid, id: LineId, side: Side, p: Point, q: Point, j: LineId, i: nat)
    requires IsAfter(h, id, side, p, q) && j != id && i + 4 <= |LineCells(h, j)|
    ensures HasGap(LineCells(h, j), i)
  {
    hide InCross, Along;
    var start, k := LineStart(j), LineAngle(j);
    var a, b, c, d := Along(start, k, i), Along(start, k, i + 1), Along(start, k, i + 2), Along(start, k, i + 3);
    CellOnLine(h, j, i);
    CellOnLine(h, j, i + 1);
    CellOnLine(h, j, i + 2);
    CellOnLine(h, j, i + 3);
    DifferentCells(start, k, i);
    if InCross(a, id) && InCross(b, id) { TwoPointsOneLine(a, b, id, j); }
    if InCross(a, id) && InCross(c, id) { TwoPointsOneLine(a, c, id, j); }
    if InCross(a, id) && InCross(d, id) { TwoPointsOneLine(a, d, id, j); }
    if InCross(b, id) && InCross(c, id) { TwoPointsOneLine(b, c, id, j); }
    if InCross(b, id) && InCross(d, id) { TwoPointsOneLine(b, d, id, j); }
    if InCross(c, id) && InCross(d, id) { TwoPointsOneLine(c, d, id, j); }
  }

  lemma DifferentCells(start: Point, k: Angle, i: nat)
    ensures var a, b := Along(start, k, i), Along(start, k, i + 1);
            var c, d := Along(start, k, i + 2), Along(start, k, i + 3);
            a != b && a != c && a != d && b != c && b != d && c != d
  {
  }

  lemma CellOnLine(h: Grid, j: LineId, i: nat)
    requires i < |LineCells(h, j)|
    ensures var r := Along(LineStart(j), LineAngle(j), i);
            OnBoard(r) && InCross(r, j) && LineCells(h, j)[i] == At(h, r)
  {
    LineCellsHaveItsId(j, i);
  }

  // ----- what the lines of that board are worth -----

  /** No run of six or more cells is full. */
  ghost predicate NeverFull(cells: seq<Cell>, side: Side) {
    forall n :: 0 <= n <= |cells| && Run(cells, side, n) > 5 ==> !AllOwn(Own(cells, side, n - Run(cells, side, n), n))
  }

  lemma {:induction false} NeverFullIsWorthless(cells: seq<Cell>, side: Side, n: nat)
    requires n <= |cells| <= 19 && NeverFull(cells, side)
    ensures ClosedValue(FullTable(), cells, side, n) == 0 && RunValue(FullTable(), cells, side, n) == 0
  {
    hide FullTable, Class, Run, AllOwn;
    if Run(cells, side, n) > 5 {
      FullClass(Own(cells, side, n - Run(cells, side, n), n));
    }
    if n > 0 {
      NeverFullIsWorthless(cells, side, n - 1);
    }
  }

  /** A line with an empty cell among any four is worth nothing. */
  lemma OtherLine(cells: seq<Cell>, side: Side)
    requires |cells| <= 19 && forall i: nat :: i + 4 <= |cells| ==> HasGap(cells, i)
    ensures LineValue(FullTable(), cells, side) == 0
  {
    hide FullTable, Run, ClosedValue, RunValue;
    forall n | 0 <= n <= |cells| && Run(cells, side, n) > 5
      ensures !AllOwn(Own(cells, side, n - Run(cells, side, n), n))
    {
      var lo: nat := n - Run(cells, side, n);
      assert HasGap(cells, lo);
      var u :| lo <= u < lo + 4 && u < |cells| && cells[u] == EMPTY;
      assert !Own(cells, side, lo, n)[u - lo];
    }
    NeverFullIsWorthless(cells, side, |cells|);
  }

  lemma {:induction false} FullRun(cells: seq<Cell>, side: Side, n: nat)
    requires n <= |cells| && forall i :: 0 <= i < |cells| ==> cells[i] == side
    ensures Run(cells, side, n) == n && Run(cells, Next(side), n) == 0
  {
    if n > 0 {
      FullRun(cells, side, n - 1);
    }
  }

  lemma {:induction false} NothingClosed(t: Table, cells: seq<Cell>, side: Side, n: nat)
    requires n <= |cells| <= 19
    requires forall i :: 0 <= i < |cells| ==> cells[i] == side
    ensures ClosedValue(t, cells, side, n) == 0 && ClosedValue(t, cells, Next(side), n) == 0
  {
    if n > 0 {
      NothingClosed(t, cells, side, n - 1);
      FullRun(cells, side, n - 1);
    }
  }

  /** The full line is worth 1 to its side and nothing to the other. */
  lemma FullLine(cells: seq<Cell>, side: Side)
    requires 6 <= |cells| <= 19 && forall i :: 0 <= i < |cells| ==> cells[i] == side
    ensures LineValue(FullTable(), cells, side) == 1 && LineValue(FullTable(), cells, Next(side)) == 0
  {
    hide FullTable, Class, Run, ClosedValue;
    NothingClosed(FullTable(), cells, side, |cells|);
    FullRun(cells, side, |cells|);
    FullClass(Own(cells, side, 0, |cells|));
  }

  /** Only the full line is worth anything, and only to its side. */
  lemma AfterValues(h: Grid, id: LineId, side: Side, p: Point, q: Point, s: Side, j: LineId)
    requires IsAfter(h, id, side, p, q)
    ensures LineValues(FullTable(), h, s)[j] == if j == id && s == side then 1 else 0
  {
    hide FullTable, LineValue, LineCells, InCross, LineStart, LineAngle;
    LineNumberingBijective();
    LineLength(h, j);
    if j == id {
      forall i | 0 <= i < |LineCells(h, j)|
        ensures LineCells(h, j)[i] == side
      {
        CellOnLine(h, j, i);
      }
      FullLine(LineCells(h, j), side);
    } else {
      forall i: nat | i + 4 <= |LineCells(h, j)|
        ensures HasGap(LineCells(h, j), i)
      {
        FourCells(h, id, side, p, q, j, i);
      }
      OtherLine(LineCells(h, j), s);
    }
  }

  lemma LineLength(h: Grid, j: LineId)
    ensures 6 <= |LineCells(h, j)| <= 19
  {
    LineNumberingBijective();
  }

  // ----- the error on that board -----

  lemma {:induction false} ExtraOf(h: Grid, id: LineId, side: Side, p: Point, q: Point, s: Side, n: nat)
    requires OnBoard(p) && OnBoard(q) && n <= 4 && IsAfter(h, id, side, p, q)
    ensures Extra(FullTable(), h, p, q, s, n)
         == if s == side && InCrossOf(q, id, n) && Miscounted(p, q, LineAngle(id)) then 1 else 0
  {
    hide FullTable, ValueThrough, Miscounted, LineValues, IsAfter, InCrossOf, LineAngle, HasLine;
    if n == 0 {
      assert !InCrossOf(q, id, 0) by { NoDirections(q, id); }
    } else {
      ExtraOf(h, id, side, p, q, s, n - 1);
      CrossOneMore(q, id, n - 1);
      ValueThroughIsLine(FullTable(), h, q, n - 1, s);
      if HasLine(q, n - 1) {
        AfterValues(h, id, side, p, q, s, LineThrough(q, n - 1));
        LineThroughCorrect(q, n - 1);
        NotYet(q, q, n - 1);
      }
    }
  }

  lemma NoDirections(q: Point, id: LineId)
    requires OnBoard(q)
    ensures !InCrossOf(q, id, 0)
  {
  }

  lemma LostOf(h: Grid, id: LineId, side: Side, p: Point, q: Point, s: Side)
    requires OnBoard(p) && OnBoard(q) && IsAfter(h, id, side, p, q)
    ensures Sum(Lost(LineValues(FullTable(), h, s), p, q)) == if s == side && IsLost(p, q, id) then 1 else 0
  {
    hide FullTable, IsLost, IsAfter, LineValues, Sum;
    var v := Lost(LineValues(FullTable(), h, s), p, q);
    forall j: LineId
      ensures v[j] == if j == id && s == side && IsLost(p, q, id) then 1 else 0
    {
      AfterValues(h, id, side, p, q, s, j);
    }
    SumWithout(v, id);
    var w := v[id := 0];
    assert forall j: LineId :: w[j] == 0;
    assert forall j :: 0 <= j < LINES ==> w[j] == 0;
    SumOfZeros(w);
  }

  /** A lost line, or a cached line that is counted twice. */
  ghost predicate IsWrongLine(p: Point, q: Point, id: LineId)
    requires OnBoard(p) && OnBoard(q)
  {
    IsLost(p, q, id) || (InCross(p, id) && Miscounted(p, q, LineAngle(id)))
  }

  lemma WrongLine(p: Point, q: Point) returns (id: LineId)
    requires OnBoard(p) && OnBoard(q) && !CountsRight(p, q)
    ensures IsWrongLine(p, q, id)
  {
    if i: LineId :| IsLost(p, q, i) {
      id := i;
    } else {
      var k: Angle :| HasLine(p, k) && Miscounted(p, q, k);
      id := LineThrough(p, k);
      LineThroughCorrect(p, k);
    }
  }

  lemma WrongError(h: Grid, id: LineId, side: Side, p: Point, q: Point)
    requires OnBoard(p) && OnBoard(q) && IsAfter(h, id, side, p, q) && IsWrongLine(p, q, id)
    ensures ErrorOf(FullTable(), h, p, q, side) in {-1, 1} && ErrorOf(FullTable(), h, p, q, Next(side)) == 0
  {
    hide FullTable, IsAfter, Extra, Sum, Lost, LineValues, InCrossOf;
    ExtraOf(h, id, side, p, q, side, 4);
    ExtraOf(h, id, side, p, q, Next(side), 4);
    LostOf(h, id, side, p, q, side);
    LostOf(h, id, side, p, q, Next(side));
    WholeCross(q, id);
    if !IsLost(p, q, id) {
      SharedLine(p, q, id);
    }
  }

  lemma SharedLine(p: Point, q: Point, id: LineId)
    requires OnBoard(q) && InCross(p, id) && SameLine(p, q, LineAngle(id))
    ensures InCross(q, id)
  {
    InItsDirection(p, id);
    SameLineSameId(p, q, LineAngle(id));
  }

  /** Wherever the tests do not count right, there is a board with both points free, a table and an
      otherwise quiet position in which the score is not the full re-evaluation. */
  lemma StepScoreIsWrong(p: Point, q: Point, side: Side) returns (t: Table, g: Grid)
    requires OnBoard(p) && OnBoard(q) && !CountsRight(p, q)
    ensures Free(g, p) && Free(g, q) && QuietElsewhere(t, g, p, q)
    ensures StepScore(t, g, ScanAll(t, g, 0), p, q, side) != BoardValue(t, Put(Put(g, p, side), q, side), side)
  {
    hide StepScore, BoardValue, ScanAll, FullTable, CountsRight, QuietElsewhere, ErrorOf, IsWrongLine, InCross;
    var id := WrongLine(p, q);
    t, g := FullTable(), OneLine(id, side, p, q);
    FullTableIsQuiet(g, p, q);
    AfterStep(id, side, p, q);
    WrongError(Put(Put(g, p, side), q, side), id, side, p, q);
    StepScoreError(t, g, p, q, side);
  }

  /** So the score is the full re-evaluation on all boards exactly where the tests count right. */
  lemma StepScoreExact(p: Point, q: Point, side: Side)
    requires OnBoard(p) && OnBoard(q)
    ensures CountsRight(p, q) <==>
            forall t, g {:trigger QuietElsewhere(t, g, p, q)} ::
              Free(g, p) && Free(g, q) && QuietElsewhere(t, g, p, q) ==>
                StepScore(t, g, ScanAll(t, g, 0), p, q, side) == BoardValue(t, Put(Put(g, p, side), q, side), side)
  {
    hide *;
    if CountsRight(p, q) {
      forall t, g | Free(g, p) && Free(g, q) && QuietElsewhere(t, g, p, q)
        ensures StepScore(t, g, ScanAll(t, g, 0), p, q, side) == BoardValue(t, Put(Put(g, p, side), q, side), side)
      {
        StepScoreIsBoardValue(t, g, p, q, side);
      }
    } else {
      var t, g := StepScoreIsWrong(p, q, side);
    }
  }

  /** Two points of one edge: the line along the edge is counted twice. */
  lemma EdgeLineCountsTwice()
    ensures Miscounted(Point(0, 5), Point(0, 9), 2) && !CountsRight(Point(0, 5), Point(0, 9))
  {
    assert HasLine(Point(0, 5), 2);
  }

  /** Near a corner: the test for point (1, 2) leaves out a column that has nothing to do with it. */
  lemma CornerLosesLine()
    ensures IsLost(Point(1, 2), Point(9, 9), 36) && !CountsRight(Point(1, 2), Point(9, 9))
  {
    var i: LineId := 36;
    assert IsLost(Point(1, 2), Point(9, 9), i);
  }
}
