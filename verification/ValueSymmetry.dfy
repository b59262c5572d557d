/** The value of a board does not depend on how the board is turned or flipped. */
module ValueSymmetry {
  import opened Geometry
  import opened Shape
  import opened LineScan
  import opened StepValue
  import opened Symmetry

  // ----- a line read backwards -----

  function Reversed<T>(s: seq<T>): (r: seq<T>)
    ensures |r| == |s| && forall i :: 0 <= i < |s| ==> r[i] == s[|s| - 1 - i]
  {
    seq(|s|, i requires 0 <= i < |s| => s[|s| - 1 - i])
  }

  /** The table gives a shape and its mirror image the same value. */
  ghost predicate ValuesMirrored(t: Table) {
    forall own {:trigger Class(t, own)} :: IsSegment(own) ==>
      LINE_TYPE_VALUE[Class(t, Reversed(own))] == LINE_TYPE_VALUE[Class(t, own)]
  }

  /** Behind an opponent stone the run starts afresh. */
  lemma {:induction false} RunBehind(x: seq<Cell>, y: seq<Cell>, side: Side, n: nat)
    requires n <= |y|
    ensures Run(x + [Next(side)] + y, side, |x| + 1 + n) == Run(y, side, n)
  {
    if n > 0 {
      RunBehind(x, y, side, n - 1);
    }
  }

  lemma {:induction false} RunBefore(x: seq<Cell>, y: seq<Cell>, side: Side, n: nat)
    requires n <= |x|
    ensures Run(x + y, side, n) == Run(x, side, n)
  {
    if n > 0 {
      RunBefore(x, y, side, n - 1);
    }
  }

  /** The value of the run before cell `n` depends on its cells only. */
  lemma RunValueWithin(t: Table, cells: seq<Cell>, part: seq<Cell>, side: Side, o: nat, n: nat)
    requires |cells| <= 19 && o + |part| <= |cells| && n <= |part| && part == cells[o..o + |part|]
    requires Run(cells, side, o + n) == Run(part, side, n)
    ensures RunValue(t, cells, side, o + n) == RunValue(t, part, side, n)
  {
    hide Class, Run;
    var r := Run(part, side, n);
    if r > 5 {
      assert Own(cells, side, o + n - r, o + n) == Own(part, side, n - r, n);
    }
  }

  lemma {:induction false} ClosedBefore(t: Table, x: seq<Cell>, y: seq<Cell>, side: Side, n: nat)
    requires |x + y| <= 19 && n <= |x|
    ensures ClosedValue(t, x + y, side, n) == ClosedValue(t, x, side, n)
  {
    hide RunValue, Run;
    if n > 0 {
      ClosedBefore(t, x, y, side, n - 1);
      RunBefore(x, y, side, n - 1);
      RunValueWithin(t, x + y, x, side, 0, n - 1);
    }
  }

  lemma {:induction false} ClosedBehind(t: Table, x: seq<Cell>, y: seq<Cell>, side: Side, n: nat)
    requires |x| + 1 + |y| <= 19 && n <= |y|
    ensures ClosedValue(t, x + [Next(side)] + y, side, |x| + 1 + n)
            == LineValue(t, x, side) + ClosedValue(t, y, side, n)
  {
    hide RunValue, Run;
    var cells := x + [Next(side)] + y;
    if n == 0 {
      assert cells == x + ([Next(side)] + y);
      ClosedBefore(t, x, [Next(side)] + y, side, |x|);
      RunBefore(x, [Next(side)] + y, side, |x|);
      RunValueWithin(t, cells, x, side, 0, |x|);
    } else {
      ClosedBehind(t, x, y, side, n - 1);
      RunBehind(x, y, side, n - 1);
      RunValueWithin(t, cells, y, side, |x| + 1, n - 1);
      assert cells[|x| + n] == y[n - 1];
    }
  }

  /** An opponent stone cuts a line in two. */
  lemma ValueSplits(t: Table, x: seq<Cell>, y: seq<Cell>, side: Side)
    requires |x| + 1 + |y| <= 19
    ensures LineValue(t, x + [Next(side)] + y, side) == LineValue(t, x, side) + LineValue(t, y, side)
  {
    hide RunValue, Run, ClosedValue;
    var cells := x + [Next(side)] + y;
    ClosedBehind(t, x, y, side, |y|);
    RunBehind(x, y, side, |y|);
    RunValueWithin(t, cells, y, side, |x| + 1, |y|);
  }

  lemma {:induction false} FreeLine(t: Table, cells: seq<Cell>, side: Side, n: nat)
    requires n <= |cells| <= 19 && forall i :: 0 <= i < |cells| ==> cells[i] != Next(side)
    ensures ClosedValue(t, cells, side, n) == 0 && Run(cells, side, n) == n
  {
    if n > 0 {
      FreeLine(t, cells, side, n - 1);
    }
  }

  /** Without opponent stones it is one segment, and the table decides. */
  lemma FreeLineMirrored(t: Table, cells: seq<Cell>, side: Side)
    requires |cells| <= 19 && ValuesMirrored(t) && forall i :: 0 <= i < |cells| ==> cells[i] != Next(side)
    ensures LineValue(t, Reversed(cells), side) == LineValue(t, cells, side)
  {
    hide Class, Run, ClosedValue;
    FreeLine(t, cells, side, |cells|);
    FreeLine(t, Reversed(cells), side, |cells|);
    assert Own(Reversed(cells), side, 0, |cells|) == Reversed(Own(cells, side, 0, |cells|));
  }

  /** A line is worth the same from either end. */
  lemma {:induction false} LineMirrored(t: Table, cells: seq<Cell>, side: Side)
    requires |cells| <= 19 && ValuesMirrored(t)
    ensures LineValue(t, Reversed(cells), side) == LineValue(t, cells, side)
    decreases |cells|
  {
    hide LineValue, ValuesMirrored;
    if i :| 0 <= i < |cells| && cells[i] == Next(side) {
      var x, y := cells[..i], cells[i + 1..];
      LineMirrored(t, x, side);
      LineMirrored(t, y, side);
      ValueSplits(t, x, y, side);
      ValueSplits(t, Reversed(y), Reversed(x), side);
      assert cells == x + [Next(side)] + y;
      assert Reversed(cells) == Reversed(y) + [Next(side)] + Reversed(x);
    } else {
      FreeLineMirrored(t, cells, side);
    }
  }

  // ----- the lines of a moved board -----

  /** The number of a line after moving it. */
  function MovedLine(i: ImageId, id: LineId): LineId {
    MovedHasLine(i, id);
    LineThrough(Image(i, LineStart(id)), MovedAngle(i, LineAngle(id)))
  }

  lemma MovedHasLine(i: ImageId, id: LineId)
    ensures OnBoard(Image(i, LineStart(id))) && HasLine(Image(i, LineStart(id)), MovedAngle(i, LineAngle(id)))
  {
  }

  /** A line begins at the image of its first cell, or of its last one. */
  predicate BeginsAtImage(i: ImageId, id: LineId) {
    var start, k, id2 := LineStart(id), LineAngle(id), MovedLine(i, id);
    && LineAngle(id2) == MovedAngle(i, k) && RayLen(LineStart(id2), LineAngle(id2)) == RayLen(start, k)
    && LineStart(id2) == Image(i, Along(start, k, if Backwards(i, k) then RayLen(start, k) - 1 else 0))
  }

  lemma MovedRow(i: ImageId, id: LineId)
    requires LineAngle(id) == 0
    ensures BeginsAtImage(i, id)
  {
  }

  lemma MovedColumn(i: ImageId, id: LineId)
    requires LineAngle(id) == 2
    ensures BeginsAtImage(i, id)
  {
  }

  lemma MovedAntiDiagonal(i: ImageId, id: LineId)
    requires LineAngle(id) == 1
    ensures BeginsAtImage(i, id)
  {
    hide BeginsAtImage, LineAngle;
    if i < 4 {
      MovedAntiDiagonalFlipped(i, id);
    } else {
      MovedAntiDiagonalTurned(i, id);
    }
  }

  lemma MovedAntiDiagonalFlipped(i: ImageId, id: LineId)
    requires LineAngle(id) == 1 && i < 4
    ensures BeginsAtImage(i, id)
  {
  }

  lemma MovedAntiDiagonalTurned(i: ImageId, id: LineId)
    requires LineAngle(id) == 1 && i >= 4
    ensures BeginsAtImage(i, id)
  {
  }

  lemma MovedDiagonal(i: ImageId, id: LineId)
    requires LineAngle(id) == 3
    ensures BeginsAtImage(i, id)
  {
    hide BeginsAtImage, LineAngle;
    if i < 4 {
      MovedDiagonalFlipped(i, id);
    } else {
      MovedDiagonalTurned(i, id);
    }
  }

  lemma MovedDiagonalFlipped(i: ImageId, id: LineId)
    requires LineAngle(id) == 3 && i < 4
    ensures BeginsAtImage(i, id)
  {
  }

  lemma MovedDiagonalTurned(i: ImageId, id: LineId)
    requires LineAngle(id) == 3 && i >= 4
    ensures BeginsAtImage(i, id)
  {
  }

  lemma MovedLineExact(i: ImageId, id: LineId)
    ensures BeginsAtImage(i, id)
  {
    hide BeginsAtImage;
    match LineAngle(id)
    case 0 => MovedRow(i, id);
    case 1 => MovedAntiDiagonal(i, id);
    case 2 => MovedColumn(i, id);
    case _ => MovedDiagonal(i, id);
  }

  lemma AngleBack(i: ImageId, k: Angle)
    ensures MovedAngle(Inverse(i), MovedAngle(i, k)) == k
  {
  }

  /** The inverse image of a line takes it back. */
  lemma MovedLineBack(i: ImageId, id: LineId)
    ensures MovedLine(Inverse(i), MovedLine(i, id)) == id
  {
    hide Image, MovedAngle, Backwards, LineStart, LineAngle, Along, RayLen, Inverse, LineThrough, HasLine;
    var start, k := LineStart(id), LineAngle(id);
    var n := if Backwards(i, k) then RayLen(start, k) - 1 else 0;
    MovedLineExact(i, id);
    AngleBack(i, k);
    InverseUndoes(i, Along(start, k, n));
    LineHasCells(id);
    LineCellsHaveItsId(id, n);
  }

  lemma LineHasCells(id: LineId)
    ensures RayLen(LineStart(id), LineAngle(id)) > 0
  {
  }

  lemma MovedCells(i: ImageId, g: Grid, id: LineId)
    ensures LineCells(Moved(i, g), MovedLine(i, id))
         == if Backwards(i, LineAngle(id)) then Reversed(LineCells(g, id)) else LineCells(g, id)
  {
    hide Moved, Image, MovedAngle, Backwards, LineStart, LineAngle, MovedLine, Along, RayLen, At;
    var start, k, id2 := LineStart(id), LineAngle(id), MovedLine(i, id);
    MovedLineExact(i, id);
    var n: int := RayLen(start, k);
    forall j | 0 <= j < n
      ensures LineCells(Moved(i, g), id2)[j] == LineCells(g, id)[if Backwards(i, k) then n - 1 - j else j]
    {
      var m := if Backwards(i, k) then n - 1 - j else j;
      AlongMoved(i, start, k, m);
      AlongMoved(i, start, k, if Backwards(i, k) then n - 1 else 0);
      AlongTwice(Image(i, start), MovedAngle(i, k), if Backwards(i, k) then 1 - n else 0, j);
      assert Along(LineStart(id2), LineAngle(id2), j) == Image(i, Along(start, k, m));
      RayOnBoard(start, k, m);
      MovedTo(i, g, Along(start, k, m));
    }
  }

  // ----- the sum over the lines -----

  lemma {:induction false} SumOfZeros(v: seq<int>)
    requires forall i :: 0 <= i < |v| ==> v[i] == 0
    ensures Sum(v) == 0
  {
    if v != [] {
      SumOfZeros(v[..|v| - 1]);
    }
  }

  /** Two tables with the same values in a different order, one of them zero at all other places. */
  lemma {:induction false} SumPermuted(v: seq<int>, w: seq<int>, place: seq<nat>, n: nat)
    requires n <= |v| == |place| && forall i :: 0 <= i < n ==> place[i] < |w| && v[i] == w[place[i]]
    requires forall i, j :: 0 <= i < j < n ==> place[i] != place[j]
    requires forall k :: 0 <= k < |w| && k !in place[..n] ==> w[k] == 0
    ensures Sum(v[..n]) == Sum(w)
    decreases n
  {
    if n == 0 {
      SumOfZeros(w);
    } else {
      var w2 := w[place[n - 1] := 0];
      SumWithout(w, place[n - 1]);
      assert place[..n] == place[..n - 1] + [place[n - 1]];
      SumPermuted(v, w2, place, n - 1);
      assert v[..n][..n - 1] == v[..n - 1];
    }
  }

  lemma LinesPermuted(i: ImageId) returns (place: seq<nat>)
    ensures |place| == LINES && forall id: LineId {:trigger place[id]} :: place[id] == MovedLine(i, id)
    ensures forall a, b :: 0 <= a < b < LINES ==> place[a] != place[b]
    ensures forall id: LineId {:trigger id in place[..LINES]} :: id in place[..LINES]
  {
    hide MovedLine;
    place := seq(LINES, id requires 0 <= id < LINES => MovedLine(i, id));
    forall a, b | 0 <= a < b < LINES
      ensures place[a] != place[b]
    {
      MovedLineBack(i, a);
      MovedLineBack(i, b);
    }
    forall id: LineId
      ensures id in place[..LINES]
    {
      MovedLineBack(Inverse(i), id);
      assert place[MovedLine(Inverse(i), id)] == id;
    }
  }

  lemma LineValueMoved(t: Table, i: ImageId, g: Grid, id: LineId, side: Side)
    requires ValuesMirrored(t)
    ensures LineValues(t, Moved(i, g), side)[MovedLine(i, id)] == LineValues(t, g, side)[id]
  {
    hide LineValue, Moved, MovedLine, LineCells, ValuesMirrored, Backwards, LineAngle;
    MovedCells(i, g, id);
    LinesAreShort(g, id);
    LineMirrored(t, LineCells(g, id), side);
  }

  lemma LinesAreShort(g: Grid, id: LineId)
    ensures |LineCells(g, id)| <= 19
  {
  }

  lemma ValuesMoved(t: Table, i: ImageId, g: Grid, side: Side)
    requires ValuesMirrored(t)
    ensures Sum(LineValues(t, Moved(i, g), side)) == Sum(LineValues(t, g, side))
  {
    hide LineValues, Moved, MovedLine, ValuesMirrored, Sum;
    var v, w := LineValues(t, g, side), LineValues(t, Moved(i, g), side);
    var place := LinesPermuted(i);
    forall id: LineId
      ensures v[id] == w[place[id]]
    {
      LineValueMoved(t, i, g, id, side);
    }
    SumPermuted(v, w, place, LINES);
    assert v[..LINES] == v;
  }

  /** For a table that values mirrored shapes alike, the images of a board have its value. */
  lemma BoardValueIsSymmetric(t: Table, i: ImageId, g: Grid, side: Side)
    requires ValuesMirrored(t)
    ensures BoardValue(t, Moved(i, g), side) == BoardValue(t, g, side)
  {
    hide LineValues, Moved, ValuesMirrored, Sum;
    ValuesMoved(t, i, g, side);
    ValuesMoved(t, i, g, Next(side));
  }
}
