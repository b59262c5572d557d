/** The line cache as a value: one analysed line for each side and each of the 92 ids,
    and the partial copies by which it is backed up, refreshed and recovered. */
module LineCache {
  import opened Geometry
  import opened Shape
  import opened LineScan

  const SLOTS := 184

  type Cache = c: seq<Line> | |c| == SLOTS witness seq(SLOTS, _ => ZERO_LINE)
  type Slot = i: int | 0 <= i < SLOTS

  function SlotOf(side: Side, id: LineId): Slot {
    92 * side + id
  }

  function SideOf(slot: Slot): Side {
    if slot < 92 then 0 else 1
  }

  function IdOf(slot: Slot): LineId {
    if slot < 92 then slot else slot - 92
  }

  /** The analysis of one line of a board from scratch. */
  function Scan(t: Table, g: Grid, id: LineId, side: Side, which: Which): Line {
    Analysis(t, LineCells(g, id), LineStart(id), LineAngle(id), side, which)
  }

  /** All 184 lines from scratch. */
  function ScanAll(t: Table, g: Grid, which: Which): (c: Cache)
    ensures forall i: Slot :: c[i] == Scan(t, g, IdOf(i), SideOf(i), which)
  {
    seq(SLOTS, i requires 0 <= i < SLOTS => Scan(t, g, IdOf(i), SideOf(i), which))
  }

  /** The fields copied in mode `which`: always the two numbers, in mode 0 and 1 all lists,
      in mode 2 to 6 the lists from that number on, in other modes no list. */
  function CopyFields(which: Which, dst: Line, src: Line): Line {
    dst.(
      Value := src.Value,
      ThreatNum := src.ThreatNum,
      ThreatPoint := if which <= 1 then src.ThreatPoint else dst.ThreatPoint,
      BigPotenPoint := if which <= 2 then src.BigPotenPoint else dst.BigPotenPoint,
      SmaPotenPoint := if which <= 3 then src.SmaPotenPoint else dst.SmaPotenPoint,
      BigPotenStep := if which <= 4 then src.BigPotenStep else dst.BigPotenStep,
      SmaPotenStep := if which <= 5 then src.SmaPotenStep else dst.SmaPotenStep,
      ComPoint := if which <= 6 then src.ComPoint else dst.ComPoint)
  }

  /** `dst` with the lines of `side` through `p` overwritten from `src`. */
  function CopyCross(dst: Cache, src: Cache, p: Point, side: Side, which: Which): (c: Cache)
    ensures forall i: Slot ::
              c[i] == if SideOf(i) == side && InCross(p, IdOf(i)) then CopyFields(which, dst[i], src[i]) else dst[i]
  {
    seq(SLOTS, i requires 0 <= i < SLOTS =>
      if SideOf(i) == side && InCross(p, IdOf(i)) then CopyFields(which, dst[i], src[i]) else dst[i])
  }

  /** The copying modes of the two sides. */
  datatype Modes = Modes(black: Which, white: Which) {
    function Of(side: Side): Which {
      if side == 0 then black else white
    }
  }

  function ModesFor(side: Side, own: Which, other: Which): Modes {
    if side == 0 then Modes(own, other) else Modes(other, own)
  }

  predicate Marked(ps: seq<Point>, id: LineId) {
    exists p <- ps :: InCross(p, id)
  }

  /** `dst` with the lines through any of the points overwritten, each side in its mode. */
  function CopyMarked(dst: Cache, src: Cache, ps: seq<Point>, modes: Modes): (c: Cache)
    ensures forall i: Slot ::
              c[i] == if Marked(ps, IdOf(i)) then CopyFields(modes.Of(SideOf(i)), dst[i], src[i]) else dst[i]
  {
    seq(SLOTS, i requires 0 <= i < SLOTS =>
      if Marked(ps, IdOf(i)) then CopyFields(modes.Of(SideOf(i)), dst[i], src[i]) else dst[i])
  }

  lemma CacheEqual(a: Cache, b: Cache)
    requires forall i: Slot :: a[i] == b[i]
    ensures a == b
  {
    assert forall i :: 0 <= i < SLOTS ==> a[i] == b[i];
  }

  /** Copying the lines of one side and then of the other copies all marked lines. */
  lemma CopyBothSides(dst: Cache, src: Cache, p: Point, side: Side, own: Which, other: Which)
    ensures CopyCross(CopyCross(dst, src, p, side, own), src, p, Next(side), other)
         == CopyMarked(dst, src, [p], ModesFor(side, own, other))
  {
    var a := CopyCross(CopyCross(dst, src, p, side, own), src, p, Next(side), other);
    var b := CopyMarked(dst, src, [p], ModesFor(side, own, other));
    forall i: Slot
      ensures a[i] == b[i]
    {
      assert Marked([p], IdOf(i)) <==> InCross(p, IdOf(i)) by {
        assert p in [p];
      }
    }
    CacheEqual(a, b);
  }

  lemma MarkedTwo(p: Point, q: Point, id: LineId)
    ensures Marked([p, q], id) <==> InCross(p, id) || InCross(q, id)
  {
    assert p in [p, q] && q in [p, q];
  }

  lemma CopyBothPoints(dst: Cache, src: Cache, p: Point, q: Point, side: Side, which: Which)
    ensures CopyCross(CopyCross(CopyCross(CopyCross(dst, src, p, side, which), src, p, Next(side), which),
                                src, q, side, which), src, q, Next(side), which)
         == CopyMarked(dst, src, [p, q], Modes(which, which))
  {
    var a1 := CopyCross(dst, src, p, side, which);
    var a2 := CopyCross(a1, src, p, Next(side), which);
    var a3 := CopyCross(a2, src, q, side, which);
    var a := CopyCross(a3, src, q, Next(side), which);
    var b := CopyMarked(dst, src, [p, q], Modes(which, which));
    forall i: Slot
      ensures a[i] == b[i]
    {
      MarkedTwo(p, q, IdOf(i));
    }
    CacheEqual(a, b);
  }

  /** A backup of the marked lines undoes any refresh of the same lines in the same modes,
      whatever the refresh wrote and whatever the backup held before. */
  lemma BackupUndoesRefresh(saved: Cache, info: Cache, written: Cache, ps: seq<Point>, modes: Modes)
    ensures CopyMarked(CopyMarked(info, written, ps, modes), CopyMarked(saved, info, ps, modes), ps, modes) == info
  {
    CacheEqual(CopyMarked(CopyMarked(info, written, ps, modes), CopyMarked(saved, info, ps, modes), ps, modes), info);
  }

  lemma {:induction false} ScanUntouched(t: Table, g: Grid, p: Point, c: Cell, id: LineId, side: Side, which: Which)
    requires !InCross(p, id)
    ensures Scan(t, Put(g, p, c), id, side, which) == Scan(t, g, id, side, which)
  {
    LineUntouched(g, p, c, id);
  }

  /** Refreshing the lines through the changed cells makes a coherent cache coherent again. */
  lemma RefreshIsCoherent(t: Table, g: Grid, p: Point, c: Cell, q: Point, d: Cell)
    ensures CopyMarked(ScanAll(t, g, 0), ScanAll(t, Put(Put(g, p, c), q, d), 0), [p, q], Modes(0, 0))
         == ScanAll(t, Put(Put(g, p, c), q, d), 0)
  {
    var g' := Put(Put(g, p, c), q, d);
    var a := CopyMarked(ScanAll(t, g, 0), ScanAll(t, g', 0), [p, q], Modes(0, 0));
    forall i: Slot
      ensures a[i] == ScanAll(t, g', 0)[i]
    {
      MarkedTwo(p, q, IdOf(i));
      if !Marked([p, q], IdOf(i)) {
        ScanUntouched(t, g, p, c, IdOf(i), SideOf(i), 0);
        ScanUntouched(t, Put(g, p, c), q, d, IdOf(i), SideOf(i), 0);
      }
    }
    CacheEqual(a, ScanAll(t, g', 0));
  }

  /** A line of a board only ever offers free cells of that board. */
  lemma ScanOffersFreeCells(t: Table, g: Grid, id: LineId, side: Side, which: Which)
    ensures AllCells(Scan(t, g, id, side, which), p => Free(g, p))
  {
    var start, k := LineStart(id), LineAngle(id);
    var ok := p => Free(g, p);
    forall i | 0 <= i < |LineCells(g, id)| && LineCells(g, id)[i] == EMPTY
      ensures ok(Along(start, k, i))
    {
    }
    AnalysisOffersEmptyCells(t, LineCells(g, id), start, k, side, which, ok);
  }

  // ----- the empty board -----

  /** What the zeroed cache at the start of a game takes for granted of the shape table: an
      empty segment is worthless, and one stone on it is no threat and no potential threat. */
  ghost predicate QuietWhenEmpty(t: Table) {
    forall own: seq<bool> :: IsSegment(own) && (forall i :: 0 <= i < |own| ==> !own[i]) ==>
      Class(t, own) in {0, 1} && forall i :: 0 <= i < |own| ==> QuietStone(t, own, i)
  }

  predicate QuietStone(t: Table, own: seq<bool>, i: nat)
    requires IsSegment(own) && i < |own|
  {
    Class(t, own[i := true]) !in {9, 10, 11, 13}
  }

  function EmptyGrid(): Grid {
    seq(BOARD_CELLS, _ => EMPTY)
  }

  lemma QuietShapeOffersNoPoint(t: Table, own: seq<bool>, kind: PointKind)
    requires QuietWhenEmpty(t) && IsSegment(own) && forall i :: 0 <= i < |own| ==> !own[i]
    ensures Picks(t, own, kind, |own|) == []
  {
    PicksExact(t, own, kind, |own|);
    forall x | 0 <= x < |own|
      ensures !Picked(t, own, kind, x)
    {
      assert QuietStone(t, own, x);
    }
    NothingIn(Picks(t, own, kind, |own|));
  }

  lemma QuietShapeOffersNoStep(t: Table, own: seq<bool>, kind: StepKind)
    requires QuietWhenEmpty(t) && IsSegment(own) && forall i :: 0 <= i < |own| ==> !own[i]
    ensures PairPicks(t, own, kind, |own|) == []
  {
    PairPicksExact(t, own, kind, |own|);
    NothingIn(PairPicks(t, own, kind, |own|));
  }

  lemma QuietShapeIsZero(t: Table, own: seq<bool>, cur: Point, k: Angle)
    requires QuietWhenEmpty(t) && IsSegment(own) && forall i :: 0 <= i < |own| ==> !own[i]
    ensures ShapeLine(t, own, cur, k, 0) == ZERO_LINE
  {
    hide Picks, PairPicks, ThreatGaps;
    QuietShapeOffersNoPoint(t, own, BigPoint);
    QuietShapeOffersNoPoint(t, own, SmaPoint);
    QuietShapeOffersNoPoint(t, own, PointKind.ComPoint);
    QuietShapeOffersNoStep(t, own, BigStep);
    QuietShapeOffersNoStep(t, own, SmaStep);
  }

  lemma NothingIn<T>(s: seq<T>)
    ensures (forall x: T :: x !in s) ==> s == []
  {
    if s != [] {
      assert s[0] in s;
    }
  }

  lemma {:induction false} EmptyRun(cells: seq<Cell>, side: Side, n: nat)
    requires n <= |cells| && forall i :: 0 <= i < n ==> cells[i] == EMPTY
    ensures Run(cells, side, n) == n
  {
    if n > 0 {
      EmptyRun(cells, side, n - 1);
    }
  }

  lemma {:induction false} EmptyClosed(t: Table, cells: seq<Cell>, start: Point, k: Angle, side: Side, n: nat)
    requires n <= |cells| <= 19 && forall i :: 0 <= i < n ==> cells[i] == EMPTY
    ensures ClosedLine(t, cells, start, k, side, 0, n) == ZERO_LINE
  {
    if n > 0 {
      EmptyClosed(t, cells, start, k, side, n - 1);
    }
  }

  /** On the empty board the zeroed cache is coherent. */
  lemma EmptyBoardIsZero(t: Table)
    requires QuietWhenEmpty(t)
    ensures ScanAll(t, EmptyGrid(), 0) == seq(SLOTS, _ => ZERO_LINE)
  {
    forall i: Slot
      ensures ScanAll(t, EmptyGrid(), 0)[i] == ZERO_LINE
    {
      EmptyLineIsZero(t, IdOf(i), SideOf(i));
    }
    var zeros: Cache := seq(SLOTS, _ => ZERO_LINE);
    CacheEqual(ScanAll(t, EmptyGrid(), 0), zeros);
  }

  lemma EmptyLineNeverWins(t: Table, cells: seq<Cell>, side: Side)
    requires QuietWhenEmpty(t) && 6 <= |cells| <= 19 && forall i :: 0 <= i < |cells| ==> cells[i] == EMPTY
    ensures FirstWin(t, cells, side, 0) == |cells| + 1
  {
    forall n | 0 <= n <= |cells|
      ensures !WinEndsAt(t, cells, side, n)
    {
      EmptyRun(cells, side, n);
      if n == |cells| {
        assert forall i :: 0 <= i < n ==> !Own(cells, side, 0, n)[i];
      }
    }
  }

  lemma EmptyLineIsZero(t: Table, id: LineId, side: Side)
    requires QuietWhenEmpty(t)
    ensures Scan(t, EmptyGrid(), id, side, 0) == ZERO_LINE
  {
    hide LineStart, LineAngle, Ray, RayLen, Analysis, Class, QuietWhenEmpty;
    var cells, start, k := LineCells(EmptyGrid(), id), LineStart(id), LineAngle(id);
    LineNumberingBijective();
    CellsAreEmpty(id);
    EmptyAnalysis(t, cells, start, k, side);
  }

  lemma CellsAreEmpty(id: LineId)
    ensures var cells := LineCells(EmptyGrid(), id);
            6 <= |cells| <= 19 && forall i :: 0 <= i < |cells| ==> cells[i] == EMPTY
  {
    LineNumberingBijective();
  }

  /** A line that is one run without a win. */
  lemma OneRun(t: Table, cells: seq<Cell>, start: Point, k: Angle, side: Side)
    requires 6 <= |cells| <= 19 && Run(cells, side, |cells|) == |cells|
    requires FirstWin(t, cells, side, 0) == |cells| + 1 && ClosedLine(t, cells, start, k, side, 0, |cells|) == ZERO_LINE
    ensures Analysis(t, cells, start, k, side, 0)
         == Add(ZERO_LINE, ShapeLine(t, Own(cells, side, 0, |cells|), Along(start, k, 0), k, 0))
  {
    hide Class, ShapeLine, Run, FirstWin, ClosedLine, Own, Add, Along;
  }

  lemma EmptyAnalysis(t: Table, cells: seq<Cell>, start: Point, k: Angle, side: Side)
    requires QuietWhenEmpty(t) && 6 <= |cells| <= 19 && forall i :: 0 <= i < |cells| ==> cells[i] == EMPTY
    ensures Analysis(t, cells, start, k, side, 0) == ZERO_LINE
  {
    hide *;
    EmptyRun(cells, side, |cells|);
    EmptyLineNeverWins(t, cells, side);
    EmptyClosed(t, cells, start, k, side, |cells|);
    OneRun(t, cells, start, k, side);
    EmptyOwn(cells, side);
    QuietShapeIsZero(t, Own(cells, side, 0, |cells|), Along(start, k, 0), k);
    NothingAdded();
  }

  lemma EmptyOwn(cells: seq<Cell>, side: Side)
    requires 6 <= |cells| <= 19 && forall i :: 0 <= i < |cells| ==> cells[i] == EMPTY
    ensures var own := Own(cells, side, 0, |cells|); IsSegment(own) && forall i :: 0 <= i < |own| ==> !own[i]
  {
  }

  lemma NothingAdded()
    ensures Add(ZERO_LINE, ZERO_LINE) == ZERO_LINE
  {
  }
}
