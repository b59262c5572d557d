/** The 19 x 19 board, its four directions, and the numbering of the 92 lines
    (rows, columns and diagonals of at least six cells) used by the line cache. */
module Geometry {

  const EMPTY := 2
  const BOARD_CELLS := 361
  const LINES := 92

  type Side = s: int | 0 <= s <= 1
  type Cell = c: int | 0 <= c <= 2
  type Angle = k: int | 0 <= k <= 3
  type LineId = i: int | 0 <= i < LINES

  datatype Point = Point(X: int, Y: int)

  /** The contents of the board, cell (x, y) at index 19 * x + y. */
  type Grid = g: seq<Cell> | |g| == BOARD_CELLS witness seq(BOARD_CELLS, _ => EMPTY)

  function Next(s: Side): Side {
    1 - s
  }

  predicate OnBoard(p: Point) {
    0 <= p.X <= 18 && 0 <= p.Y <= 18
  }

  function Index(p: Point): nat
    requires OnBoard(p)
  {
    19 * p.X + p.Y
  }

  function At(g: Grid, p: Point): Cell
    requires OnBoard(p)
  {
    g[Index(p)]
  }

  /** The grid with `c` at `p`; a point off the board changes nothing. */
  function Put(g: Grid, p: Point, c: Cell): Grid {
    if OnBoard(p) then g[Index(p) := c] else g
  }

  predicate Free(g: Grid, p: Point) {
    OnBoard(p) && At(g, p) == EMPTY
  }

  lemma PutAt(g: Grid, p: Point, c: Cell, q: Point)
    requires OnBoard(p) && OnBoard(q)
    ensures At(Put(g, p, c), q) == if p == q then c else At(g, q)
  {
    assert Index(p) == Index(q) <==> p == q;
  }

  /** Emptying cells that were empty before undoes any stones put there. */
  lemma PutUndo(g: Grid, p: Point, q: Point, c: Cell)
    requires Free(g, p) && Free(g, q)
    ensures Put(Put(g, p, c), p, EMPTY) == g
    ensures Put(Put(Put(Put(g, p, c), q, c), p, EMPTY), q, EMPTY) == g
    ensures Put(Put(Put(Put(g, p, c), q, c), q, EMPTY), p, EMPTY) == g
  {
    assert Index(p) == Index(q) <==> p == q;
  }

  /** `i` steps from `p` in direction `k`. */
  function Along(p: Point, k: Angle, i: int): Point {
    Point(if k == 2 then p.X else p.X + i, if k == 0 then p.Y else if k == 1 then p.Y - i else p.Y + i)
  }

  function Min(a: int, b: int): int {
    if a < b then a else b
  }

  /** How many cells lie on the board from `p` onwards in direction `k`. */
  function RayLen(p: Point, k: Angle): nat
    requires OnBoard(p)
  {
    match k
    case 0 => 19 - p.X
    case 1 => Min(19 - p.X, p.Y + 1)
    case 2 => 19 - p.Y
    case _ => Min(19 - p.X, 19 - p.Y)
  }

  lemma RayOnBoard(p: Point, k: Angle, i: int)
    requires OnBoard(p) && 0 <= i
    ensures OnBoard(Along(p, k, i)) <==> i < RayLen(p, k)
  {
  }

  function Ray(g: Grid, p: Point, k: Angle): (cells: seq<Cell>)
    requires OnBoard(p)
    ensures |cells| == RayLen(p, k)
    ensures forall i :: 0 <= i < |cells| ==> OnBoard(Along(p, k, i)) && cells[i] == At(g, Along(p, k, i))
  {
    seq(RayLen(p, k), i requires 0 <= i < RayLen(p, k) => RayOnBoard(p, k, i); At(g, Along(p, k, i)))
  }

  // ----- the 92 lines -----

  function LineAngle(id: LineId): Angle {
    if id < 19 then 0 else if id < 38 then 2 else if id < 65 then 1 else 3
  }

  /** First cell of a line: rows by y, columns by x, then the anti-diagonals with
      5 <= x + y <= 31 and the diagonals with -13 <= y - x <= 13. */
  function LineStart(id: LineId): (p: Point)
    ensures OnBoard(p)
  {
    if id < 19 then Point(0, id)
    else if id < 38 then Point(id - 19, 0)
    else if id < 65 then (var s := id - 33; if s <= 18 then Point(0, s) else Point(s - 18, 18))
    else (var d := id - 78; if d >= 0 then Point(0, d) else Point(-d, 0))
  }

  function LineCells(g: Grid, id: LineId): seq<Cell> {
    Ray(g, LineStart(id), LineAngle(id))
  }

  /** Whether the line through `p` in direction `k` is long enough to be cached. */
  predicate HasLine(p: Point, k: Angle) {
    match k
    case 1 => 4 < p.X + p.Y < 32
    case 3 => -14 < p.Y - p.X < 14
    case _ => true
  }

  function LineThrough(p: Point, k: Angle): LineId
    requires OnBoard(p) && HasLine(p, k)
  {
    match k
    case 0 => p.Y
    case 1 => 38 + p.X + p.Y - 5
    case 2 => p.X + 19
    case _ => 38 + 27 + 13 + p.Y - p.X
  }

  /** Whether `id` is one of the (up to four) cached lines through `p`. */
  predicate InCross(p: Point, id: int) {
    OnBoard(p) && exists k: Angle :: HasLine(p, k) && id == LineThrough(p, k)
  }

  ghost predicate OnLine(p: Point, id: LineId) {
    exists i :: 0 <= i < RayLen(LineStart(id), LineAngle(id)) && p == Along(LineStart(id), LineAngle(id), i)
  }

  /** The position of `p` on the line through it in direction `k`. */
  function Offset(p: Point, k: Angle): int
    requires OnBoard(p) && HasLine(p, k)
  {
    if k == 2 then p.Y - LineStart(LineThrough(p, k)).Y else p.X - LineStart(LineThrough(p, k)).X
  }

  /** The (direction, offset) to id map is a bijection: every id is the id of exactly the
      points on its own line, taken in its own direction. */
  lemma LineThroughCorrect(p: Point, k: Angle)
    requires OnBoard(p) && HasLine(p, k)
    ensures LineAngle(LineThrough(p, k)) == k
    ensures 0 <= Offset(p, k) < RayLen(LineStart(LineThrough(p, k)), k)
    ensures Along(LineStart(LineThrough(p, k)), k, Offset(p, k)) == p
  {
  }

  lemma LineCellsHaveItsId(id: LineId, i: nat)
    requires i < RayLen(LineStart(id), LineAngle(id))
    ensures var p := Along(LineStart(id), LineAngle(id), i);
            OnBoard(p) && HasLine(p, LineAngle(id)) && LineThrough(p, LineAngle(id)) == id
            && Offset(p, LineAngle(id)) == i
  {
    RayOnBoard(LineStart(id), LineAngle(id), i);
  }

  /** A point lies on a line exactly when the line is in the point's cross. */
  lemma CrossIsOnLine(p: Point, id: LineId)
    requires OnBoard(p)
    ensures InCross(p, id) <==> OnLine(p, id)
  {
    if InCross(p, id) {
      var k: Angle :| HasLine(p, k) && id == LineThrough(p, k);
      LineThroughCorrect(p, k);
    }
    if OnLine(p, id) {
      var i :| 0 <= i < RayLen(LineStart(id), LineAngle(id)) && p == Along(LineStart(id), LineAngle(id), i);
      LineCellsHaveItsId(id, i);
    }
  }

  /** Distinct cached (direction, offset) pairs get distinct ids, and all 92 ids are used. */
  lemma LineNumberingBijective()
    ensures forall p: Point, q: Point, k: Angle, l: Angle ::
              OnBoard(p) && OnBoard(q) && HasLine(p, k) && HasLine(q, l) ==>
                (LineThrough(p, k) == LineThrough(q, l) <==>
                 k == l && LineStart(LineThrough(p, k)) == LineStart(LineThrough(q, l)))
    ensures forall id: LineId :: OnBoard(LineStart(id)) && HasLine(LineStart(id), LineAngle(id))
                                 && LineThrough(LineStart(id), LineAngle(id)) == id
    ensures forall p: Point, k: Angle :: OnBoard(p) && RayLen(p, k) >= 6 ==> HasLine(p, k)
    ensures forall id: LineId :: RayLen(LineStart(id), LineAngle(id)) >= 6
  {
    forall id: LineId
      ensures OnBoard(LineStart(id)) && HasLine(LineStart(id), LineAngle(id))
              && LineThrough(LineStart(id), LineAngle(id)) == id
    {
      LineCellsHaveItsId(id, 0);
    }
    forall p: Point, q: Point, k: Angle, l: Angle |
      OnBoard(p) && OnBoard(q) && HasLine(p, k) && HasLine(q, l) && LineThrough(p, k) == LineThrough(q, l)
      ensures k == l
    {
      LineThroughCorrect(p, k);
      LineThroughCorrect(q, l);
    }
    forall p: Point, q: Point, k: Angle, l: Angle |
      OnBoard(p) && OnBoard(q) && HasLine(p, k) && HasLine(q, l) && k == l
      && LineStart(LineThrough(p, k)) == LineStart(LineThrough(q, l))
      ensures LineThrough(p, k) == LineThrough(q, l)
    {
      LineThroughCorrect(p, k);
      LineThroughCorrect(q, l);
    }
  }

  /** A stone changes only the lines of its cross. */
  lemma LineUntouched(g: Grid, p: Point, c: Cell, id: LineId)
    requires !InCross(p, id)
    ensures LineCells(Put(g, p, c), id) == LineCells(g, id)
  {
    if OnBoard(p) {
      var start, k := LineStart(id), LineAngle(id);
      forall i | 0 <= i < RayLen(start, k)
        ensures At(Put(g, p, c), Along(start, k, i)) == At(g, Along(start, k, i))
      {
        RayOnBoard(start, k, i);
        LineCellsHaveItsId(id, i);
        PutAt(g, p, c, Along(start, k, i));
      }
    }
  }

  /** The start of the whole line through a point, cached or not. */
  function StartPoint(p: Point, k: Angle): (start: Point)
    requires OnBoard(p)
    ensures OnBoard(start)
  {
    match k
    case 0 => Point(0, p.Y)
    case 1 => if p.X + p.Y <= 18 then Point(0, p.Y + p.X) else Point(p.X + p.Y - 18, 18)
    case 2 => Point(p.X, 0)
    case _ => if p.X <= p.Y then Point(0, p.Y - p.X) else Point(p.X - p.Y, 0)
  }

  lemma StartPointIsLineStart(p: Point, k: Angle)
    requires OnBoard(p) && HasLine(p, k)
    ensures StartPoint(p, k) == LineStart(LineThrough(p, k))
  {
  }
}
