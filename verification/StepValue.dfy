/** The static value of a step: the cached values of the lines it does not touch plus the
    freshly summed values of the lines through its two stones. */
module StepValue {
  import opened Geometry
  import opened Shape
  import opened LineScan
  import opened LineCache
  import opened Threats

  // ----- what the code computes -----

  /** The four line ids the skipping test computes for a point, without checking that the
      diagonals are long enough to have one. */
  predicate SkippedFor(p: Point, i: int) {
    i == p.Y || i == p.X + 19 || i == 38 + p.X + p.Y - 5 || i == 38 + 27 + 13 + p.Y - p.X
  }

  /** The cached values of the first `n` lines, without the lines skipped for the two points. */
  function KeptSum(c: Cache, side: Side, p: Point, q: Point, n: nat): int
    requires n <= LINES
  {
    if n == 0 then 0
    else if SkippedFor(p, n - 1) || SkippedFor(q, n - 1) then KeptSum(c, side, p, q, n - 1)
    else KeptSum(c, side, p, q, n - 1) + c[SlotOf(side, n - 1)].Value
  }

  /** Stepping back until any edge cell is met. */
  function EdgeBack(p: Point, k: Angle): Point
    requires OnBoard(p)
    decreases if k == 2 then p.Y else p.X
  {
    if OnEdge(p) then p else EdgeBack(Along(p, k, -1), k)
  }

  function ValueThrough(t: Table, g: Grid, p: Point, k: Angle, side: Side): int
    requires OnBoard(p)
  {
    LineValue(t, Ray(g, StartPoint(p, k), k), side)
  }

  /** The values of the lines of one direction through the two points, a common line once. */
  function CrossValue(t: Table, g: Grid, p: Point, q: Point, k: Angle, side: Side): int
    requires OnBoard(p) && OnBoard(q)
  {
    ValueThrough(t, g, p, k, side) + (if EdgeBack(p, k) != EdgeBack(q, k) then ValueThrough(t, g, q, k, side) else 0)
  }

  function CrossSum(t: Table, g: Grid, p: Point, q: Point, side: Side, n: nat): int
    requires OnBoard(p) && OnBoard(q) && n <= 4
  {
    if n == 0 then 0 else CrossSum(t, g, p, q, side, n - 1) + CrossValue(t, g, p, q, n - 1, side)
  }

  /** The result of CalculateStepValue on a board `g` with cache `c`. */
  function StepScore(t: Table, g: Grid, c: Cache, p: Point, q: Point, side: Side): int
    requires OnBoard(p) && OnBoard(q)
  {
    var g' := Put(Put(g, p, side), q, side);
    CrossSum(t, g', p, q, side, 4) - CrossSum(t, g', p, q, Next(side), 4)
    + KeptSum(c, side, p, q, LINES) - KeptSum(c, Next(side), p, q, LINES)
  }

  // ----- what it means -----

  /** The sum of a table of 92 line values. */
  function Sum(v: seq<int>): int {
    if v == [] then 0 else Sum(v[..|v| - 1]) + v[|v| - 1]
  }

  /** The summed value of every one of the 92 lines of a board for one side. */
  function LineValues(t: Table, g: Grid, side: Side): (v: seq<int>)
    ensures |v| == LINES
  {
    seq(LINES, i requires 0 <= i < LINES => LineValue(t, LineCells(g, i), side))
  }

  /** The full re-evaluation of a board: all lines of one side minus all lines of the other. */
  function BoardValue(t: Table, g: Grid, side: Side): int {
    Sum(LineValues(t, g, side)) - Sum(LineValues(t, g, Next(side)))
  }

  lemma {:induction false} SumWithout(v: seq<int>, i: nat)
    requires i < |v|
    ensures Sum(v) == Sum(v[i := 0]) + v[i]
  {
    var w := v[i := 0];
    if i == |v| - 1 {
      assert w[..i] == v[..i];
    } else {
      SumWithout(v[..|v| - 1], i);
      assert w[..|v| - 1] == v[..|v| - 1][i := 0];
    }
  }

  /** The skipping test leaves out exactly the lines through the point, except near three of the
      corners, where a diagonal too short for the cache is mistaken for some other line. */
  lemma SkipTestExact(p: Point)
    requires OnBoard(p)
    ensures (forall i: LineId :: SkippedFor(p, i) <==> InCross(p, i)) <==> 5 <= p.X + p.Y <= 31 && p.Y - p.X >= -13
  {
    if !(5 <= p.X + p.Y <= 31) {
      var i: LineId := 33 + p.X + p.Y;
      assert SkippedFor(p, i) && !InCross(p, i);
    } else if p.Y - p.X < -13 {
      var i: LineId := 78 + p.Y - p.X;
      assert SkippedFor(p, i) && !InCross(p, i);
    } else {
      forall i: LineId
        ensures SkippedFor(p, i) <==> InCross(p, i)
      {
        assert HasLine(p, 0) && HasLine(p, 1) && HasLine(p, 2);
        assert SkippedFor(p, i) ==> i == LineThrough(p, 0) || i == LineThrough(p, 1) || i == LineThrough(p, 2)
                                    || (HasLine(p, 3) && i == LineThrough(p, 3));
      }
    }
  }

  /** The walk back ends at the start of the line through `p`. */
  predicate FindsStart(p: Point, k: Angle)
    requires OnBoard(p)
  {
    !OnEdge(p) || p == StartPoint(p, k)
  }

  /** Stepping back until any edge cell ends at the start of the line exactly for inner points, and for
      points that are that start themselves. */
  lemma {:induction false} EdgeBackIsStart(p: Point, k: Angle)
    requires OnBoard(p)
    ensures EdgeBack(p, k) == StartPoint(p, k) <==> FindsStart(p, k)
    ensures !FindsStart(p, k) ==> EdgeBack(p, k) == p
    decreases if k == 2 then p.Y else p.X
  {
    if !OnEdge(p) {
      var b := Along(p, k, -1);
      assert StartPoint(b, k) == StartPoint(p, k);
      EdgeBackIsStart(b, k);
    }
  }

  predicate SameLine(p: Point, q: Point, k: Angle)
    requires OnBoard(p) && OnBoard(q)
  {
    StartPoint(p, k) == StartPoint(q, k)
  }

  /** One line through both points that is taken for two. */
  predicate Miscounted(p: Point, q: Point, k: Angle)
    requires OnBoard(p) && OnBoard(q)
  {
    SameLine(p, q, k) && EdgeBack(p, k) != EdgeBack(q, k)
  }

  /** Comparing the edge cells tells whether two points share the line of a direction, except for two
      different points of one line of which one is on the edge without being its start. */
  lemma SameLineTestExact(p: Point, q: Point, k: Angle)
    requires OnBoard(p) && OnBoard(q)
    ensures (EdgeBack(p, k) == EdgeBack(q, k) <==> SameLine(p, q, k)) <==>
            (!SameLine(p, q, k) || p == q || (FindsStart(p, k) && FindsStart(q, k)))
    ensures Miscounted(p, q, k) <==> !(EdgeBack(p, k) == EdgeBack(q, k) <==> SameLine(p, q, k))
  {
    hide StartPoint, OnEdge;
    EdgeBackIsStart(p, k);
    EdgeBackIsStart(q, k);
    StartOfStart(p, k);
    StartOfStart(q, k);
  }

  lemma StartOfStart(p: Point, k: Angle)
    requires OnBoard(p)
    ensures StartPoint(StartPoint(p, k), k) == StartPoint(p, k)
  {
  }

  // ----- what every score is off by -----

  /** The lines that are counted once too often. */
  function Extra(t: Table, g: Grid, p: Point, q: Point, side: Side, n: nat): int
    requires OnBoard(p) && OnBoard(q) && n <= 4
  {
    if n == 0 then 0
    else Extra(t, g, p, q, side, n - 1) + if Miscounted(p, q, n - 1) then ValueThrough(t, g, q, n - 1, side) else 0
  }

  /** The skipping test leaves out line `i` although it runs through neither point. */
  predicate IsLost(p: Point, q: Point, i: LineId) {
    (SkippedFor(p, i) || SkippedFor(q, i)) && !InCross(p, i) && !InCross(q, i)
  }

  /** The values of the lines that are not counted at all. */
  function Lost(v: seq<int>, p: Point, q: Point): (w: seq<int>)
    requires |v| == LINES
    ensures |w| == LINES
    ensures forall i: LineId :: w[i] == if IsLost(p, q, i) then v[i] else 0
  {
    seq(LINES, i requires 0 <= i < LINES => if IsLost(p, q, i) then v[i] else 0)
  }

  lemma CrossIsSkipped(p: Point, i: LineId)
    requires InCross(p, i)
    ensures SkippedFor(p, i)
  {
  }

  /** Line values with the entries skipped for the two points set to zero. */
  function Kept(v: seq<int>, p: Point, q: Point): (w: seq<int>)
    requires |v| <= LINES
    ensures |w| == |v|
    ensures forall i :: 0 <= i < |v| ==> w[i] == if SkippedFor(p, i) || SkippedFor(q, i) then 0 else v[i]
  {
    seq(|v|, i requires 0 <= i < |v| => if SkippedFor(p, i) || SkippedFor(q, i) then 0 else v[i])
  }

  lemma {:induction false} KeptSumIsSum(c: Cache, side: Side, p: Point, q: Point, v: seq<int>, n: nat)
    requires n <= LINES == |v|
    requires forall i: LineId :: !SkippedFor(p, i) && !SkippedFor(q, i) ==> c[SlotOf(side, i)].Value == v[i]
    ensures KeptSum(c, side, p, q, n) == Sum(Kept(v, p, q)[..n])
  {
    if n > 0 {
      KeptSumIsSum(c, side, p, q, v, n - 1);
      assert Kept(v, p, q)[..n][..n - 1] == Kept(v, p, q)[..n - 1];
    }
  }

  predicate InCrossOf(p: Point, i: LineId, n: nat)
    requires OnBoard(p)
  {
    exists k: Angle :: k < n && HasLine(p, k) && i == LineThrough(p, k)
  }

  /** The values with the lines of the first `n` directions through the two points zeroed. */
  function Zeroed(v: seq<int>, p: Point, q: Point, n: nat): (w: seq<int>)
    requires |v| == LINES && OnBoard(p) && OnBoard(q) && n <= 4
    ensures |w| == LINES
    ensures forall i: LineId :: w[i] == if InCrossOf(p, i, n) || InCrossOf(q, i, n) then 0 else v[i]
  {
    seq(LINES, i requires 0 <= i < LINES => if InCrossOf(p, i, n) || InCrossOf(q, i, n) then 0 else v[i])
  }

  /** The value of the line through a point; a diagonal too short to be cached is worth nothing. */
  function Through(v: seq<int>, p: Point, k: Angle): int
    requires |v| == LINES && OnBoard(p)
  {
    if HasLine(p, k) then v[LineThrough(p, k)] else 0
  }

  lemma {:induction false} ShortLine(t: Table, cells: seq<Cell>, side: Side, n: nat)
    requires n <= |cells| < 6
    ensures ClosedValue(t, cells, side, n) == 0 && RunValue(t, cells, side, n) == 0
  {
    if n > 0 {
      ShortLine(t, cells, side, n - 1);
    }
  }

  lemma ValueThroughIsLine(t: Table, g: Grid, p: Point, k: Angle, side: Side)
    requires OnBoard(p)
    ensures ValueThrough(t, g, p, k, side) == Through(LineValues(t, g, side), p, k)
  {
    hide LineValue, ClosedValue, RunValue, Ray;
    if HasLine(p, k) {
      StartPointIsLineStart(p, k);
      LineThroughCorrect(p, k);
    } else {
      var cells := Ray(g, StartPoint(p, k), k);
      assert |cells| < 6;
      ShortLine(t, cells, side, |cells|);
      LineValueUnfolded(t, cells, side);
    }
  }

  lemma LineValueUnfolded(t: Table, cells: seq<Cell>, side: Side)
    requires |cells| <= 19
    ensures LineValue(t, cells, side) == ClosedValue(t, cells, side, |cells|) + RunValue(t, cells, side, |cells|)
  {
  }

  lemma SameLineSameId(p: Point, q: Point, k: Angle)
    requires OnBoard(p) && OnBoard(q)
    ensures SameLine(p, q, k) ==> (HasLine(p, k) <==> HasLine(q, k))
    ensures HasLine(p, k) && HasLine(q, k) ==> (SameLine(p, q, k) <==> LineThrough(p, k) == LineThrough(q, k))
  {
  }

  lemma NotYet(p: Point, q: Point, k: Angle)
    requires OnBoard(p) && OnBoard(q) && HasLine(p, k)
    ensures !InCrossOf(q, LineThrough(p, k), k)
  {
    LineThroughCorrect(p, k);
    forall l: Angle | l < k && HasLine(q, l)
      ensures LineThrough(q, l) != LineThrough(p, k)
    {
      LineThroughCorrect(q, l);
    }
  }

  lemma CrossOneMore(p: Point, i: LineId, k: Angle)
    requires OnBoard(p)
    ensures InCrossOf(p, i, k + 1) <==> InCrossOf(p, i, k) || (HasLine(p, k) && i == LineThrough(p, k))
  {
  }

  /** `v` with line `i` zeroed, if there is such a line. */
  function Without(v: seq<int>, p: Point, k: Angle): (w: seq<int>)
    requires |v| == LINES && OnBoard(p)
    ensures |w| == LINES
  {
    if HasLine(p, k) then v[LineThrough(p, k) := 0] else v
  }

  lemma ZeroedNext(v: seq<int>, p: Point, q: Point, k: Angle)
    requires |v| == LINES && OnBoard(p) && OnBoard(q)
    ensures Zeroed(v, p, q, k + 1) == Without(Without(Zeroed(v, p, q, k), p, k), q, k)
    ensures HasLine(p, k) ==> Zeroed(v, p, q, k)[LineThrough(p, k)] == v[LineThrough(p, k)]
    ensures HasLine(q, k) ==> Zeroed(v, p, q, k)[LineThrough(q, k)] == v[LineThrough(q, k)]
  {
    hide InCrossOf, LineThrough, HasLine;
    if HasLine(p, k) {
      NotYet(p, p, k);
      NotYet(p, q, k);
    }
    if HasLine(q, k) {
      NotYet(q, p, k);
      NotYet(q, q, k);
    }
    var w, x := Without(Without(Zeroed(v, p, q, k), p, k), q, k), Zeroed(v, p, q, k + 1);
    forall i: LineId
      ensures x[i] == w[i]
    {
      CrossOneMore(p, i, k);
      CrossOneMore(q, i, k);
    }
    assert forall i :: 0 <= i < LINES ==> x[i] == w[i];
  }

  lemma WithoutSum(v: seq<int>, p: Point, k: Angle)
    requires |v| == LINES && OnBoard(p)
    ensures Sum(v) == Sum(Without(v, p, k)) + Through(v, p, k)
  {
    if HasLine(p, k) {
      SumWithout(v, LineThrough(p, k));
    }
  }

  /** One more direction zeroed takes its lines out of the sum, a common line once. */
  lemma ZeroedSum(v: seq<int>, p: Point, q: Point, k: Angle)
    requires |v| == LINES && OnBoard(p) && OnBoard(q)
    ensures Sum(Zeroed(v, p, q, k))
         == Sum(Zeroed(v, p, q, k + 1)) + Through(v, p, k) + (if SameLine(p, q, k) then 0 else Through(v, q, k))
  {
    hide Sum, SameLine, LineThrough, HasLine;
    var w := Zeroed(v, p, q, k);
    ZeroedNext(v, p, q, k);
    WithoutSum(w, p, k);
    WithoutSum(Without(w, p, k), q, k);
    SameLineSameId(p, q, k);
  }

  lemma CrossValueIs(t: Table, g: Grid, p: Point, q: Point, k: Angle, side: Side)
    requires OnBoard(p) && OnBoard(q)
    ensures var v := LineValues(t, g, side);
            CrossValue(t, g, p, q, k, side)
            == Through(v, p, k) + (if SameLine(p, q, k) then 0 else Through(v, q, k))
               + (if Miscounted(p, q, k) then ValueThrough(t, g, q, k, side) else 0)
  {
    hide ValueThrough, Through, LineValues, EdgeBack, SameLine;
    ValueThroughIsLine(t, g, p, k, side);
    ValueThroughIsLine(t, g, q, k, side);
    SameLineTestExact(p, q, k);
  }

  lemma {:induction false} CrossSumIsDifference(t: Table, g: Grid, p: Point, q: Point, side: Side, n: nat)
    requires OnBoard(p) && OnBoard(q) && n <= 4
    ensures var v := LineValues(t, g, side);
            Sum(v) + Extra(t, g, p, q, side, n) == Sum(Zeroed(v, p, q, n)) + CrossSum(t, g, p, q, side, n)
  {
    hide CrossValue, LineValues, ValueThrough, SameLine, Miscounted, Sum;
    var v := LineValues(t, g, side);
    if n == 0 {
      assert Zeroed(v, p, q, 0) == v;
    } else {
      CrossSumIsDifference(t, g, p, q, side, n - 1);
      ZeroedSum(v, p, q, n - 1);
      CrossValueIs(t, g, p, q, n - 1, side);
    }
  }

  /** No line away from the two points holds six in a row. */
  ghost predicate QuietElsewhere(t: Table, g: Grid, p: Point, q: Point) {
    forall i: LineId, side: Side :: !InCross(p, i) && !InCross(q, i) ==> NoWin(t, LineCells(g, i), side)
  }

  lemma UntouchedValue(t: Table, g: Grid, p: Point, q: Point, stone: Side, side: Side, i: LineId)
    requires QuietElsewhere(t, g, p, q)
    requires !SkippedFor(p, i) && !SkippedFor(q, i)
    ensures ScanAll(t, g, 0)[SlotOf(side, i)].Value == LineValues(t, Put(Put(g, p, stone), q, stone), side)[i]
  {
    hide Analysis, LineValue, NoWin;
    assert !InCross(p, i) && !InCross(q, i);
    LineUntouched(g, p, stone, i);
    LineUntouched(Put(g, p, stone), q, stone, i);
    AnalysisValue(t, LineCells(g, i), LineStart(i), LineAngle(i), side, 0);
  }

  /** The cached values agree with the lines of the board after the step, wherever they are used. */
  lemma UntouchedValues(t: Table, g: Grid, p: Point, q: Point, stone: Side, side: Side)
    requires QuietElsewhere(t, g, p, q)
    ensures forall i: LineId :: !SkippedFor(p, i) && !SkippedFor(q, i) ==>
              ScanAll(t, g, 0)[SlotOf(side, i)].Value == LineValues(t, Put(Put(g, p, stone), q, stone), side)[i]
  {
    forall i: LineId | !SkippedFor(p, i) && !SkippedFor(q, i)
      ensures ScanAll(t, g, 0)[SlotOf(side, i)].Value == LineValues(t, Put(Put(g, p, stone), q, stone), side)[i]
    {
      UntouchedValue(t, g, p, q, stone, side, i);
    }
  }

  lemma {:induction false} SumAdds(a: seq<int>, b: seq<int>, c: seq<int>)
    requires |a| == |b| == |c| && forall i :: 0 <= i < |a| ==> a[i] == b[i] + c[i]
    ensures Sum(a) == Sum(b) + Sum(c)
  {
    if a != [] {
      var n := |a| - 1;
      SumAdds(a[..n], b[..n], c[..n]);
    }
  }

  lemma KeptAndLost(v: seq<int>, p: Point, q: Point)
    requires |v| == LINES && OnBoard(p) && OnBoard(q)
    ensures Sum(Zeroed(v, p, q, 4)) == Sum(Kept(v, p, q)[..LINES]) + Sum(Lost(v, p, q))
  {
    hide SkippedFor, InCross, InCrossOf, Sum;
    var a, b, c := Zeroed(v, p, q, 4), Kept(v, p, q), Lost(v, p, q);
    forall i: LineId
      ensures a[i] == b[i] + c[i]
    {
      WholeCross(p, i);
      WholeCross(q, i);
    }
    assert forall i :: 0 <= i < LINES ==> a[i] == b[i] + c[i];
    assert b[..LINES] == b;
    SumAdds(a, b, c);
  }

  lemma WholeCross(p: Point, i: LineId)
    requires OnBoard(p)
    ensures InCrossOf(p, i, 4) <==> InCross(p, i)
    ensures InCross(p, i) ==> SkippedFor(p, i)
  {
    if InCross(p, i) {
      CrossIsSkipped(p, i);
    }
  }

  /** One side of the step value: kept cached values plus fresh cross values are all line values, with
      some lines counted twice and some lost. */
  lemma SideTotal(t: Table, g: Grid, p: Point, q: Point, stone: Side, side: Side)
    requires OnBoard(p) && OnBoard(q) && QuietElsewhere(t, g, p, q)
    ensures var g' := Put(Put(g, p, stone), q, stone);
            var v := LineValues(t, g', side);
            CrossSum(t, g', p, q, side, 4) + KeptSum(ScanAll(t, g, 0), side, p, q, LINES)
            == Sum(v) + Extra(t, g', p, q, side, 4) - Sum(Lost(v, p, q))
  {
    hide QuietElsewhere, ScanAll, LineValues, Sum, Kept, Lost, Zeroed, CrossSum, Extra;
    var g' := Put(Put(g, p, stone), q, stone);
    var v := LineValues(t, g', side);
    UntouchedValues(t, g, p, q, stone, side);
    KeptSumIsSum(ScanAll(t, g, 0), side, p, q, v, LINES);
    KeptAndLost(v, p, q);
    CrossSumIsDifference(t, g', p, q, side, 4);
  }

  /** What one side contributes to the error of a score. */
  function ErrorOf(t: Table, g: Grid, p: Point, q: Point, side: Side): int
    requires OnBoard(p) && OnBoard(q)
  {
    Extra(t, g, p, q, side, 4) - Sum(Lost(LineValues(t, g, side), p, q))
  }

  /** For any two points, with a coherent cache and no six in a row on an untouched line: the step value
      is off from the full re-evaluation by exactly the lines counted twice and the lines lost. */
  lemma StepScoreError(t: Table, g: Grid, p: Point, q: Point, side: Side)
    requires OnBoard(p) && OnBoard(q) && QuietElsewhere(t, g, p, q)
    ensures var g' := Put(Put(g, p, side), q, side);
            StepScore(t, g, ScanAll(t, g, 0), p, q, side)
            == BoardValue(t, g', side) + ErrorOf(t, g', p, q, side) - ErrorOf(t, g', p, q, Next(side))
  {
    hide QuietElsewhere, ScanAll, LineValues, Sum, Lost, CrossSum, Extra, KeptSum;
    SideTotal(t, g, p, q, side, side);
    SideTotal(t, g, p, q, side, Next(side));
  }

  /** No line is lost, and no cached line is counted twice. */
  predicate CountsRight(p: Point, q: Point)
    requires OnBoard(p) && OnBoard(q)
  {
    && (forall i: LineId :: !IsLost(p, q, i))
    && (forall k: Angle :: HasLine(p, k) ==> !Miscounted(p, q, k))
  }

  lemma {:induction false} NothingExtra(t: Table, g: Grid, p: Point, q: Point, side: Side, n: nat)
    requires OnBoard(p) && OnBoard(q) && n <= 4 && CountsRight(p, q)
    ensures Extra(t, g, p, q, side, n) == 0
  {
    hide ValueThrough, EdgeBack, SameLine, LineValues;
    if n > 0 {
      NothingExtra(t, g, p, q, side, n - 1);
      ValueThroughIsLine(t, g, q, n - 1, side);
      SameLineSameId(p, q, n - 1);
    }
  }

  lemma {:induction false} SumOfZeros(v: seq<int>)
    requires forall i :: 0 <= i < |v| ==> v[i] == 0
    ensures Sum(v) == 0
  {
    if v != [] {
      SumOfZeros(v[..|v| - 1]);
    }
  }

  /** Where the tests count right, the incremental step value is the full re-evaluation of the board
      after the step, on every board and for every table. */
  lemma StepScoreIsBoardValue(t: Table, g: Grid, p: Point, q: Point, side: Side)
    requires OnBoard(p) && OnBoard(q) && CountsRight(p, q) && QuietElsewhere(t, g, p, q)
    ensures StepScore(t, g, ScanAll(t, g, 0), p, q, side) == BoardValue(t, Put(Put(g, p, side), q, side), side)
  {
    hide QuietElsewhere, StepScore, BoardValue, ScanAll, Extra, Sum, LineValues, CountsRight;
    var g' := Put(Put(g, p, side), q, side);
    StepScoreError(t, g, p, q, side);
    forall s: Side
      ensures ErrorOf(t, g', p, q, s) == 0
    {
      NothingExtra(t, g', p, q, s, 4);
      NothingLost(LineValues(t, g', s), p, q);
    }
  }

  lemma NothingLost(v: seq<int>, p: Point, q: Point)
    requires |v| == LINES && OnBoard(p) && OnBoard(q) && CountsRight(p, q)
    ensures Sum(Lost(v, p, q)) == 0
  {
    assert forall i: LineId :: !IsLost(p, q, i);
    assert forall i :: 0 <= i < LINES ==> Lost(v, p, q)[i] == 0 by {
      forall i: LineId
        ensures Lost(v, p, q)[i] == 0
      {
      }
    }
    SumOfZeros(Lost(v, p, q));
  }

  /** Two points with exact skipping tests that are off the edge, or whose common lines both find, count right. */
  lemma CountsRightWhen(p: Point, q: Point)
    requires OnBoard(p) && OnBoard(q)
    requires 5 <= p.X + p.Y <= 31 && p.Y - p.X >= -13 && 5 <= q.X + q.Y <= 31 && q.Y - q.X >= -13
    requires forall k: Angle :: !SameLine(p, q, k) || p == q || (FindsStart(p, k) && FindsStart(q, k))
    ensures CountsRight(p, q)
  {
    SkipTestExact(p);
    SkipTestExact(q);
    forall k: Angle
      ensures !Miscounted(p, q, k)
    {
      SameLineTestExact(p, q, k);
    }
  }

  /** In particular any two points of the middle square. */
  lemma MiddleCountsRight(p: Point, q: Point)
    requires 3 <= p.X <= 15 && 3 <= p.Y <= 15 && 3 <= q.X <= 15 && 3 <= q.Y <= 15
    ensures CountsRight(p, q)
  {
    CountsRightWhen(p, q);
  }
}
