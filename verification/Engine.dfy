/** The mutable position of the engine: board, hash and line cache, kept in step by
    make and unmake. */
module Engine {
  import opened Bits
  import opened Geometry
  import opened Shape
  import opened LineScan
  import opened LineCache
  import opened Threats
  import opened Zobrist
  import opened StepValue
  import opened Trials
  import opened GameTree
  import opened Completion
  import opened Defence
  import opened LeafValues
  import opened RootChoice
  import opened WinSearch
  import opened WinSteps
  import opened Victory
  import opened Game

  // ----- copying lines -----

  /** The switch over `which`, which falls through to all later lists. */
  method CopyLine(which: Which, dst: Line, src: Line) returns (l: Line)
    ensures l == CopyFields(which, dst, src)
  {
    l := dst.(Value := src.Value, ThreatNum := src.ThreatNum);
    if which <= 1 {
      l := l.(ThreatPoint := src.ThreatPoint);
    }
    if which <= 2 {
      l := l.(BigPotenPoint := src.BigPotenPoint);
    }
    if which <= 3 {
      l := l.(SmaPotenPoint := src.SmaPotenPoint);
    }
    if which <= 4 {
      l := l.(BigPotenStep := src.BigPotenStep);
    }
    if which <= 5 {
      l := l.(SmaPotenStep := src.SmaPotenStep);
    }
    if which <= 6 {
      l := l.(ComPoint := src.ComPoint);
    }
  }

  /** Whether `id` is the line through `p` in one of the first `n` directions. */
  predicate InCrossBelow(p: Point, id: int, n: int) {
    OnBoard(p) && exists k: Angle :: k < n && HasLine(p, k) && id == LineThrough(p, k)
  }

  lemma CrossComplete(p: Point, id: int)
    ensures InCrossBelow(p, id, 4) <==> InCross(p, id)
  {
  }

  /** The lines of a cross, one by one. */
  lemma CrossByDirection(p: Point)
    requires OnBoard(p)
    ensures forall id: LineId :: InCross(p, id) <==>
              || id == LineThrough(p, 0) || id == LineThrough(p, 2)
              || (HasLine(p, 1) && id == LineThrough(p, 1)) || (HasLine(p, 3) && id == LineThrough(p, 3))
  {
    forall id: LineId
      ensures InCross(p, id) <==>
              || id == LineThrough(p, 0) || id == LineThrough(p, 2)
              || (HasLine(p, 1) && id == LineThrough(p, 1)) || (HasLine(p, 3) && id == LineThrough(p, 3))
    {
      assert HasLine(p, 0) && HasLine(p, 2);
      CrossComplete(p, id);
    }
  }

  /** The loop over the four directions shared by BackupLine, UpdateLine and RecoverLine. */
  method CopyLines(dst: array<Line>, src: array<Line>, p: Point, side: Side, which: Which)
    requires dst.Length == SLOTS && src.Length == SLOTS && dst != src && OnBoard(p)
    modifies dst
    ensures dst[..] == CopyCross(old(dst[..]), src[..], p, side, which)
  {
    ghost var before: Cache := dst[..];
    for k := 0 to 4
      invariant forall i: Slot :: dst[i] == if SideOf(i) == side && InCrossBelow(p, IdOf(i), k)
                                            then CopyFields(which, before[i], src[i]) else before[i]
    {
      if !HasLine(p, k) {
        continue;
      }
      var slot := SlotOf(side, LineThrough(p, k));
      var l := CopyLine(which, dst[slot], src[slot]);
      dst[slot] := l;
      forall i: Slot
        ensures InCrossBelow(p, IdOf(i), k + 1) <==> InCrossBelow(p, IdOf(i), k) || IdOf(i) == LineThrough(p, k)
      {
      }
    }
    forall i: Slot
      ensures dst[i] == CopyCross(before, src[..], p, side, which)[i]
    {
      CrossComplete(p, IdOf(i));
    }
    CacheEqual(dst[..], CopyCross(before, src[..], p, side, which));
  }

  // ----- scanning one line of the board -----

  /** The first cell of the anti-diagonal, reached by stepping back. */
  method AntiDiagonalStart(p: Point) returns (start: Point)
    requires OnBoard(p)
    ensures OnBoard(start) && (HasLine(p, 1) ==> start == LineStart(LineThrough(p, 1)))
  {
    var x, y := p.X, p.Y;
    while true
      invariant OnBoard(Point(x, y)) && x + y == p.X + p.Y
      decreases x
    {
      if x == 0 || y == 18 {
        break;
      }
      x, y := x - 1, y + 1;
    }
    start := Point(x, y);
  }

  /** The first cell of the diagonal, reached by stepping back. */
  method DiagonalStart(p: Point) returns (start: Point)
    requires OnBoard(p)
    ensures OnBoard(start) && (HasLine(p, 3) ==> start == LineStart(LineThrough(p, 3)))
  {
    var x, y := p.X, p.Y;
    while true
      invariant OnBoard(Point(x, y)) && y - x == p.Y - p.X
      decreases x
    {
      if x == 0 || y == 0 {
        break;
      }
      x, y := x - 1, y - 1;
    }
    start := Point(x, y);
  }

  // ----- the stretch around a point -----

  lemma {:induction false} FreeRun(cells: seq<Cell>, side: Side, n: nat)
    requires n <= |cells| && forall i :: 0 <= i < n ==> cells[i] != Next(side)
    ensures Run(cells, side, n) == n
  {
    if n > 0 {
      FreeRun(cells, side, n - 1);
    }
  }

  /** The class of the opponent-free stretch from `Start` on, or 0 if it is too short. */
  method StretchClass(t: Table, board: array<Cell>, Start: Point, k: Angle, side: Side, ghost cells: seq<Cell>)
    returns (r: int)
    requires board.Length == BOARD_CELLS && OnBoard(Start) && Reads(board[..], Start, k, cells)
    ensures var own := Own(cells, side, 0, FreeLenFrom(cells, side, 0));
            r == if |own| > 5 then Class(t, own) else 0
  {
    var Len: nat, Style: nat := 0, 0;
    var x, y := Start.X, Start.Y;
    ScanningStarts(cells, side, 0);
    WalkGuard(Start, k, 0);
    while x != -1 && x != 19 && y != -1 && y != 19
      invariant Len <= |cells| && Point(x, y) == Along(Start, k, Len)
      invariant x != -1 && x != 19 && y != -1 && y != 19 <==> Len < |cells|
      invariant Scanning(cells, side, Len, Len, Style)
      invariant forall i :: 0 <= i < Len ==> cells[i] != Next(side)
      decreases |cells| - Len
    {
      var cell := board[Index(Point(x, y))];
      if cell == side || cell == EMPTY {
        Len, Style := ExtendRun(cell, Len, Style, cells, side, Len);
      } else {
        break;
      }
      var next := Along(Point(x, y), k, 1);
      x, y := next.X, next.Y;
      WalkGuard(Start, k, Len);
    }
    FreeLenIs(cells, side, Len);
    FreeRun(cells, side, Len);
    r := ShortOrClass(t, Len, Style, side, cells);
  }

  lemma FreeLenIs(cells: seq<Cell>, side: Side, n: nat)
    requires n <= |cells| && (forall i :: 0 <= i < n ==> cells[i] != Next(side))
    requires n == |cells| || cells[n] == Next(side)
    ensures FreeLenFrom(cells, side, 0) == n
  {
    var m := FreeLenFrom(cells, side, 0);
    assert forall i :: 0 <= i < n ==> cells[i] != Next(side);
  }

  /** A stretch of fewer than six cells gives a negative index, any other an index of the table. */
  lemma IndexOf(t: Table, own: seq<bool>)
    requires |own| <= 19
    ensures Code(own) >= 64 <==> |own| > 5
    ensures |own| > 5 ==> Code(own) - 64 < TABLESIZE && t[Code(own) - 64] == Class(t, own)
  {
    hide Code;
    CodeBounds(own);
    WordSizes();
    if |own| > 5 {
      SegmentCodeInTable(own);
    } else {
      Pow2Monotone(|own| + 1, 6);
    }
  }

  method ShortOrClass(t: Table, Len: nat, Style: nat, side: Side, ghost cells: seq<Cell>) returns (r: int)
    requires Len <= |cells| <= 19 && Scanning(cells, side, Len, Len, Style)
    ensures var own := Own(cells, side, 0, Len); r == if |own| > 5 then Class(t, own) else 0
  {
    hide Run, Code, Class, Shl;
    ghost var own := Own(cells, side, 0, Len);
    ShlOneIsPow2(Len, 1, 0);
    IndexOf(t, own);
    var lineIndex := Style + Shl(1, Len) - 64;
    if lineIndex >= 0 {
      r := t[lineIndex];
    } else {
      r := 0;
    }
  }

  /** The classes around a point in the four directions. */
  ghost predicate AreIDs(t: Table, g: Grid, p: Point, side: Side, ids: seq<int>)
    requires OnBoard(p)
  {
    |ids| == 4 && forall k: Angle {:trigger SegmentID(t, g, p, k, side)} :: ids[k] == SegmentID(t, g, p, k, side)
  }

  lemma IDsAt(t: Table, g: Grid, p: Point, side: Side) returns (ids: seq<int>)
    requires OnBoard(p)
    ensures AreIDs(t, g, p, side, ids)
    ensures WinsAt(t, g, p, side) <==> Any15(ids, 4)
  {
    ids := seq(4, k requires 0 <= k < 4 => SegmentID(t, g, p, k, side));
    Any15Exact(ids, 4);
  }

  ghost predicate Any15(ids: seq<int>, n: nat)
    requires n <= |ids|
  {
    n > 0 && (ids[n - 1] == 15 || Any15(ids, n - 1))
  }

  lemma {:induction false} Any15Exact(ids: seq<int>, n: nat)
    requires n <= |ids|
    ensures Any15(ids, n) <==> exists k :: 0 <= k < n && ids[k] == 15
  {
    if n > 0 {
      Any15Exact(ids, n - 1);
    }
  }

  /** Emptying two cells after putting stones on them is emptying them. */
  lemma Emptied(g: Grid, p: Point, q: Point, c: Cell)
    requires OnBoard(p) && OnBoard(q)
    ensures Put(Put(Put(Put(g, p, c), q, c), p, EMPTY), q, EMPTY) == Put(Put(g, p, EMPTY), q, EMPTY)
    ensures Free(g, p) && Free(g, q) ==> Put(Put(g, p, EMPTY), q, EMPTY) == g
  {
    assert Index(p) == Index(q) <==> p == q;
  }

  /** What a byte holds after subtracting two from it. */
  function LessTwo(b: nat): nat
    requires b < 256
  {
    (b + 254) % 256
  }

  /** A search no deeper than its nominal depth, with a nominal depth that cannot be lowered by two. */
  predicate LastSearchShallow(stepID: nat, large: nat, nominal: nat) {
    (if stepID == 2 then 5 else large) <= nominal < 2
  }

  /** The direction of the middle of the board along one coordinate. */
  function Inward(c: int): int {
    if c <= 9 then 1 else -1
  }

  function Away(c: int): nat {
    if c >= 9 then c - 9 else 9 - c
  }

  /** That is a step nearer to the middle, except from the middle itself, and stays on the board. */
  lemma InwardIsNearer(c: int)
    requires 0 <= c <= 18
    ensures 0 <= c + Inward(c) <= 18 && (c != 9 <==> Away(c + Inward(c)) == Away(c) - 1)
  {
  }

  /** The neighbours of a point towards the middle, in the two directions. */
  predicate NextInward(p: Point, q: Point, r: Point) {
    q == Point(p.X + Inward(p.X), p.Y) && r == Point(p.X, p.Y + Inward(p.Y))
  }

  /** So each stone of the opening reply is nearer to the middle than the stone it answers, in the coordinate
      in which it differs. */
  lemma RepliesAreNearer(p: Point, q: Point, r: Point)
    requires OnBoard(p) && NextInward(p, q, r)
    ensures OnBoard(q) && q.Y == p.Y && (p.X != 9 <==> Away(q.X) == Away(p.X) - 1)
    ensures OnBoard(r) && r.X == p.X && (p.Y != 9 <==> Away(r.Y) == Away(p.Y) - 1)
    ensures q != r && q != p && r != p
  {
    hide Inward, Away;
    InwardIsNearer(p.X);
    InwardIsNearer(p.Y);
    InwardMoves(p.X);
    InwardMoves(p.Y);
  }

  lemma InwardMoves(c: int)
    ensures Inward(c) != 0
  {
  }

  ghost predicate IsFirstStone(g: Grid, p: Point) {
    OnBoard(p) && !Free(g, p) && forall q :: OnBoard(q) && Index(q) < Index(p) ==> Free(g, q)
  }

  ghost predicate IsOpeningReply(g: Grid, m: Step) {
    exists p :: IsFirstStone(g, p) && (NextInward(p, m.First, m.Second) || NextInward(p, m.Second, m.First))
  }

  /** The ways the engine finds its reply. */
  datatype ReplyKind = Opening | Winning | Searched

  type PerSide = s: seq<nat> | |s| == 2 witness [0, 0]

  /** The remembered move lists of the first three depths. */
  type Tables = t: seq<seq<History>> | |t| == 3 witness [[], [], []]

  class CSearch {
    const PreTable: Table
    const HashBoard: Keys
    const Board: array<Cell>
    const LineInfo: array<Line>
    const Given: Oracle
    var HashKey64: Word
    var ComputerColor: Side
    var ComToCom: bool
    var MaxDepth: PerSide
    var LargeDepth: PerSide
    var HashTable: Tables
    var TempHashTable: Tables
    var MaxDepthBackUp: nat
    var LargeDepthBackUp: nat
    var StepID: nat
    var Player: Side
    var GameStart: bool
    var WillWin: bool

    ghost predicate Valid() {
      Board.Length == BOARD_CELLS && LineInfo.Length == SLOTS
    }

    /** The depth limits of a search: bytes, the nominal one within the three move tables. */
    ghost predicate Ready()
      reads `ComputerColor, `MaxDepth, `LargeDepth
    {
      Valid() && MaxDepth[ComputerColor] <= 5 && LargeDepth[ComputerColor] < 256
    }

    ghost function TheRules(): Rules
      reads `ComputerColor, `MaxDepth, `LargeDepth, `HashTable, `ComToCom
    {
      Rules(PreTable, HashBoard, ComputerColor, MaxDepth[ComputerColor], LargeDepth[ComputerColor], ComToCom,
            HashTable, Given)
    }

    /** The line cache holds exactly what scanning the board from scratch would give. */
    ghost predicate Coherent()
      requires Valid()
      reads Board, LineInfo
    {
      LineInfo[..] == ScanAll(PreTable, Board[..], 0)
    }

    ghost function Now(): Position
      requires Valid()
      reads this, Board, LineInfo
    {
      Position(Board[..], LineInfo[..], HashKey64)
    }

    method BackupLine(point: Point, LineTemp: array<Line>, side: Side, which: Which)
      requires Valid() && LineTemp.Length == SLOTS && LineTemp != LineInfo
      requires OnBoard(point) || point.X == -1
      modifies LineTemp
      ensures LineTemp[..] == CopyCross(old(LineTemp[..]), LineInfo[..], point, side, which)
    {
      if point.X == -1 {
        CacheEqual(LineTemp[..], CopyCross(LineTemp[..], LineInfo[..], point, side, which));
        return;
      }
      CopyLines(LineTemp, LineInfo, point, side, which);
    }

    method RecoverLine(point: Point, LineTemp: array<Line>, side: Side, which: Which)
      requires Valid() && LineTemp.Length == SLOTS && LineTemp != LineInfo
      requires OnBoard(point) || point.X == -1
      modifies LineInfo
      ensures LineInfo[..] == CopyCross(old(LineInfo[..]), LineTemp[..], point, side, which)
    {
      if point.X == -1 {
        CacheEqual(LineInfo[..], CopyCross(LineInfo[..], LineTemp[..], point, side, which));
        return;
      }
      CopyLines(LineInfo, LineTemp, point, side, which);
    }

    method UpdateLine(line: array<Line>, point: Point, side: Side, which: Which)
      requires Valid() && line.Length == SLOTS && line != LineInfo && OnBoard(point)
      modifies LineInfo
      ensures LineInfo[..] == CopyCross(old(LineInfo[..]), line[..], point, side, which)
    {
      CopyLines(LineInfo, line, point, side, which);
    }

    method GetLineValueForCross(point: Point, line: array<Line>, side: Side, which: Which)
      requires Valid() && line.Length == SLOTS && line != LineInfo && OnBoard(point)
      modifies line
      ensures forall id: LineId :: InCross(point, id) ==>
                line[SlotOf(side, id)] == Scan(PreTable, Board[..], id, side, which)
      ensures forall i: Slot :: !(SideOf(i) == side && InCross(point, IdOf(i))) ==> line[i] == old(line[i])
    {
      hide Scan, InCross;
      CrossByDirection(point);
      StoreLine(point, 0, Point(0, point.Y), line, side, which);
      StoreLine(point, 2, Point(point.X, 0), line, side, which);
      var start := AntiDiagonalStart(point);
      if HasLine(point, 1) {
        StoreLine(point, 1, start, line, side, which);
      }
      start := DiagonalStart(point);
      if HasLine(point, 3) {
        StoreLine(point, 3, start, line, side, which);
      }
    }

    /** Analyses the line through `point` in direction `k`, from its start, into its slot. */
    method StoreLine(point: Point, k: Angle, start: Point, line: array<Line>, side: Side, which: Which)
      requires Valid() && line.Length == SLOTS && line != LineInfo && OnBoard(point) && HasLine(point, k)
      requires start == LineStart(LineThrough(point, k))
      modifies line
      ensures var slot := SlotOf(side, LineThrough(point, k));
              line[slot] == Scan(PreTable, Board[..], LineThrough(point, k), side, which)
              && forall i: Slot :: i != slot ==> line[i] == old(line[i])
    {
      LineThroughCorrect(point, k);
      var l := AnalyzeLine(PreTable, Board, start, k, side, which);
      line[SlotOf(side, LineThrough(point, k))] := l;
    }

    method UpdateLineForCross(point: Point, side: Side, which: Which)
      requires Valid() && (OnBoard(point) || point.X == -1)
      modifies LineInfo
      ensures LineInfo[..] == CopyCross(old(LineInfo[..]), ScanAll(PreTable, Board[..], which), point, side, which)
    {
      ghost var before: Cache, scanned := LineInfo[..], ScanAll(PreTable, Board[..], which);
      if point.X != -1 {
        var line := new Line[SLOTS];
        GetLineValueForCross(point, line, side, which);
        UpdateLine(line, point, side, which);
      }
      forall i: Slot
        ensures LineInfo[i] == CopyCross(before, scanned, point, side, which)[i]
      {
        assert SideOf(i) == side ==> i == SlotOf(side, IdOf(i));
      }
      CacheEqual(LineInfo[..], CopyCross(before, scanned, point, side, which));
    }

    method AnalyzeLineSegID(point: Point, k: Angle, side: Side) returns (r: int)
      requires Valid() && OnBoard(point)
      ensures r == SegmentID(PreTable, Board[..], point, k, side)
    {
      hide Class, Own, Ray, FreeLenFrom;
      var p := point;
      while true
        invariant OnBoard(p) && BackWalk(Board[..], p, k, side) == BackWalk(Board[..], point, k, side)
        decreases if k == 2 then p.Y else p.X
      {
        if Board[Index(p)] == Next(side) {
          p := Along(p, k, 1);
          break;
        }
        if p.X == 0 || p.X == 18 || p.Y == 0 || p.Y == 18 {
          break;
        }
        p := Along(p, k, -1);
      }
      if OnBoard(p) {
        r := StretchClass(PreTable, Board, p, k, side, Ray(Board[..], p, k));
      } else {
        r := 0;
      }
    }

    // ----- make and unmake -----

    method UpdateBoard(first: Point, second: Point, side: Side)
      requires Valid() && OnBoard(first) && (OnBoard(second) || second.X == -1)
      modifies `HashKey64, LineInfo
      ensures HashKey64 == Toggle(HashBoard, old(HashKey64), side, first, second)
      ensures LineInfo[..]
           == CopyMarked(old(LineInfo[..]), ScanAll(PreTable, Board[..], 0), [first, second], Modes(0, 0))
    {
      if second.X == -1 {
        HashKey64 := Xor(HashKey64, KeyOf(HashBoard, side, first));
      } else {
        HashKey64 := Xor(HashKey64, KeyOf(HashBoard, side, first));
        HashKey64 := Xor(HashKey64, KeyOf(HashBoard, side, second));
      }
      UpdateLineForCross(first, side, 0);
      UpdateLineForCross(first, Next(side), 0);
      UpdateLineForCross(second, side, 0);
      UpdateLineForCross(second, Next(side), 0);
      CopyBothPoints(old(LineInfo[..]), ScanAll(PreTable, Board[..], 0), first, second, side, 0);
    }

    method RecoverBoard(first: Point, second: Point, side: Side, LineTemp: array<Line>)
      requires Valid() && LineTemp.Length == SLOTS && LineTemp != LineInfo
      requires OnBoard(first) && (OnBoard(second) || second.X == -1)
      modifies `HashKey64, LineInfo
      ensures HashKey64 == Toggle(HashBoard, old(HashKey64), side, first, second)
      ensures LineInfo[..] == CopyMarked(old(LineInfo[..]), LineTemp[..], [first, second], Modes(0, 0))
    {
      if second.X == -1 {
        HashKey64 := Xor(HashKey64, KeyOf(HashBoard, side, first));
      } else {
        HashKey64 := Xor(HashKey64, KeyOf(HashBoard, side, first));
        HashKey64 := Xor(HashKey64, KeyOf(HashBoard, side, second));
      }
      RecoverLine(first, LineTemp, side, 0);
      RecoverLine(first, LineTemp, Next(side), 0);
      RecoverLine(second, LineTemp, side, 0);
      RecoverLine(second, LineTemp, Next(side), 0);
      CopyBothPoints(old(LineInfo[..]), LineTemp[..], first, second, side, 0);
    }

    /** Backs up the lines of a step, puts its stones and brings hash and cache up to date. */
    method MakeMove(first: Point, second: Point, side: Side, LineTemp: array<Line>)
      requires Valid() && LineTemp.Length == SLOTS && LineTemp != LineInfo
      requires OnBoard(first) && OnBoard(second)
      modifies `HashKey64, Board, LineInfo, LineTemp
      ensures Board[..] == Put(Put(old(Board[..]), first, side), second, side)
      ensures HashKey64 == Toggle(HashBoard, old(HashKey64), side, first, second)
      ensures LineTemp[..] == CopyMarked(old(LineTemp[..]), old(LineInfo[..]), [first, second], Modes(0, 0))
      ensures LineInfo[..]
           == CopyMarked(old(LineInfo[..]), ScanAll(PreTable, Board[..], 0), [first, second], Modes(0, 0))
      ensures old(Coherent()) ==> Coherent()
    {
      BackupLine(first, LineTemp, side, 0);
      BackupLine(first, LineTemp, Next(side), 0);
      BackupLine(second, LineTemp, side, 0);
      BackupLine(second, LineTemp, Next(side), 0);
      CopyBothPoints(old(LineTemp[..]), LineInfo[..], first, second, side, 0);
      Board[Index(first)] := side;
      Board[Index(second)] := side;
      assert Board[..] == Put(Put(old(Board[..]), first, side), second, side);
      UpdateBoard(first, second, side);
      RefreshIsCoherent(PreTable, old(Board[..]), first, side, second, side);
    }

    method BackMove(first: Point, second: Point, side: Side, LineTemp: array<Line>)
      requires Valid() && LineTemp.Length == SLOTS && LineTemp != LineInfo
      requires OnBoard(first) && OnBoard(second)
      modifies `HashKey64, Board, LineInfo
      ensures Board[..] == Put(Put(old(Board[..]), first, EMPTY), second, EMPTY)
      ensures HashKey64 == Toggle(HashBoard, old(HashKey64), side, first, second)
      ensures LineInfo[..] == CopyMarked(old(LineInfo[..]), LineTemp[..], [first, second], Modes(0, 0))
    {
      Board[Index(first)] := EMPTY;
      Board[Index(second)] := EMPTY;
      assert Board[..] == Put(Put(old(Board[..]), first, EMPTY), second, EMPTY);
      RecoverBoard(first, second, side, LineTemp);
    }

    // ----- counting threats -----

    /** Puts a stone, as a trial or to stay. */
    method PutStone(p: Point, c: Cell)
      requires Valid() && OnBoard(p)
      modifies Board
      ensures Board[..] == Put(old(Board[..]), p, c)
    {
      Board[Index(p)] := c;
    }

    /** Whether the stretch around `p` in direction `k` is of class 15. */
    method Shows15(p: Point, k: Angle, side: Side, ghost ids: seq<int>) returns (b: bool)
      requires Valid() && OnBoard(p) && AreIDs(PreTable, Board[..], p, side, ids)
      ensures b <==> ids[k] == 15
    {
      var id := AnalyzeLineSegID(p, k, side);
      b := id == 15;
    }

    /** Some direction through one of the two points shows class 15. */
    method EitherWins(p: Point, q: Point, side: Side) returns (wins: bool)
      requires Valid() && OnBoard(p) && OnBoard(q)
      ensures wins <==> WinsAt(PreTable, Board[..], p, side) || WinsAt(PreTable, Board[..], q, side)
    {
      ghost var ps := IDsAt(PreTable, Board[..], p, side);
      ghost var qs := IDsAt(PreTable, Board[..], q, side);
      wins := false;
      for k := 0 to 4
        invariant !wins && !Any15(ps, k) && !Any15(qs, k)
      {
        var a := Shows15(p, k, side, ps);
        var b := Shows15(q, k, side, qs);
        if a || b {
          Any15Exact(ps, 4);
          Any15Exact(qs, 4);
          wins := true;
          break;
        }
      }
    }

    /** The first loop over the remaining threat points: one trial stone each. */
    method NoSingleCompletion(pts: seq<Point>, i: nat, j: nat, side: Side) returns (defend: bool)
      requires Valid() && i < |pts| && j < |pts| && StrictlySorted(pts)
      requires forall p <- pts :: OnBoard(p)
      requires forall x :: 0 <= x < |pts| && x != i && x != j ==> Free(Board[..], pts[x])
      modifies Board
      ensures Board[..] == old(Board[..])
      ensures defend <==> forall x :: 0 <= x < |pts| && x != i && x != j ==>
                !OneStoneWins(PreTable, Board[..], pts, x, side)
    {
      hide WinsAt;
      ghost var g: Grid := Board[..];
      defend := true;
      for x := 0 to |pts|
        invariant Board[..] == g && defend
        invariant forall u :: 0 <= u < x && u != i && u != j ==> !OneStoneWins(PreTable, g, pts, u, side)
      {
        if x == i || x == j {
          continue;
        }
        assert pts[x] in pts;
        PutStone(pts[x], side);
        var wins := EitherWins(pts[x], pts[x], side);
        PutStone(pts[x], EMPTY);
        PutUndo(g, pts[x], pts[x], side);
        if wins {
          assert OneStoneWins(PreTable, g, pts, x, side);
          defend := false;
          break;
        }
      }
    }

    /** One row of the second loop: the stone on point `x` together with each later point. */
    method NoCompletionWith(pts: seq<Point>, i: nat, j: nat, x: nat, side: Side) returns (defend: bool)
      requires Valid() && i < |pts| && j < |pts| && x < |pts| && StrictlySorted(pts)
      requires forall p <- pts :: OnBoard(p)
      requires forall y :: 0 <= y < |pts| && y != i && y != j ==> Free(Board[..], pts[y])
      requires x != i && x != j
      modifies Board
      ensures Board[..] == old(Board[..])
      ensures defend <==> forall y :: x < y < |pts| && y != i && y != j ==>
                !TwoStonesWin(PreTable, Board[..], pts, x, y, side)
    {
      hide WinsAt;
      ghost var g: Grid := Board[..];
      assert forall y :: 0 <= y < |pts| ==> pts[y] in pts;
      PutStone(pts[x], side);
      defend := true;
      for y := x + 1 to |pts|
        invariant Board[..] == Put(g, pts[x], side) && defend
        invariant forall v :: x < v < y && v != i && v != j ==> !TwoStonesWin(PreTable, g, pts, x, v, side)
      {
        if y == i || y == j {
          continue;
        }
        PutAt(g, pts[x], side, pts[y]);
        PutStone(pts[y], side);
        var wins := EitherWins(pts[x], pts[y], side);
        PutStone(pts[y], EMPTY);
        PutUndo(Put(g, pts[x], side), pts[y], pts[y], side);
        if wins {
          assert TwoStonesWin(PreTable, g, pts, x, y, side);
          defend := false;
          break;
        }
      }
      PutStone(pts[x], EMPTY);
      PutUndo(g, pts[x], pts[x], side);
    }

    /** Whether no one or two further stones on the other threat points show class 15. */
    method CannotComplete(pts: seq<Point>, i: nat, j: nat, side: Side) returns (defend: bool)
      requires Valid() && i < |pts| && j < |pts| && StrictlySorted(pts)
      requires forall p <- pts :: OnBoard(p)
      requires forall x :: 0 <= x < |pts| && x != i && x != j ==> Free(Board[..], pts[x])
      modifies Board
      ensures Board[..] == old(Board[..])
      ensures defend <==> NoCompletion(PreTable, Board[..], pts, i, j, side)
    {
      hide OneStoneWins, TwoStonesWin;
      ghost var g: Grid := Board[..];
      defend := NoSingleCompletion(pts, i, j, side);
      ghost var single := defend;
      for x := 0 to |pts|
        invariant Board[..] == g && defend == single
        invariant forall u, y :: 0 <= u < x && u < y < |pts| && u != i && u != j && y != i && y != j ==>
                    !TwoStonesWin(PreTable, g, pts, u, y, side)
      {
        if x == i || x == j {
          continue;
        }
        var row := NoCompletionWith(pts, i, j, x, side);
        if !row {
          defend := false;
          break;
        }
      }
    }

    /** Opponent stones on the points `i` and `j`, tried out and taken back. */
    method TryBlock(pts: seq<Point>, i: nat, j: nat, side: Side) returns (defend: bool)
      requires Valid() && i < |pts| && j < |pts| && StrictlySorted(pts)
      requires forall p <- pts :: OnBoard(p) && Free(Board[..], p)
      modifies Board
      ensures Board[..] == old(Board[..])
      ensures defend <==> Blocks(PreTable, Board[..], pts, i, j, side)
    {
      ghost var g: Grid := Board[..];
      assert pts[i] in pts && pts[j] in pts;
      PutStone(pts[i], Next(side));
      PutStone(pts[j], Next(side));
      ghost var blocked: Grid := Board[..];
      forall x | 0 <= x < |pts| && x != i && x != j
        ensures Free(blocked, pts[x])
      {
        assert pts[x] in pts;
        assert pts[x] != pts[i] && pts[x] != pts[j];
        PutAt(g, pts[i], Next(side), pts[x]);
        PutAt(Put(g, pts[i], Next(side)), pts[j], Next(side), pts[x]);
      }
      defend := CannotComplete(pts, i, j, side);
      PutStone(pts[j], EMPTY);
      PutStone(pts[i], EMPTY);
      PutUndo(g, pts[i], pts[j], Next(side));
    }

    method SingleBlock(pts: seq<Point>, side: Side) returns (found: bool)
      requires Valid() && StrictlySorted(pts) && forall p <- pts :: OnBoard(p) && Free(Board[..], p)
      modifies Board
      ensures Board[..] == old(Board[..])
      ensures found <==> BlockedByOne(PreTable, Board[..], pts, side)
    {
      hide Blocks;
      ghost var g: Grid := Board[..];
      for i := 0 to |pts|
        invariant Board[..] == g
        invariant forall u :: 0 <= u < i ==> !Blocks(PreTable, g, pts, u, u, side)
      {
        var defend := TryBlock(pts, i, i, side);
        if defend {
          return true;
        }
      }
      found := false;
    }

    method PairBlock(pts: seq<Point>, side: Side) returns (found: bool)
      requires Valid() && StrictlySorted(pts) && forall p <- pts :: OnBoard(p) && Free(Board[..], p)
      modifies Board
      ensures Board[..] == old(Board[..])
      ensures found <==> BlockedByTwo(PreTable, Board[..], pts, side)
    {
      hide Blocks;
      ghost var g: Grid := Board[..];
      for i := 0 to |pts|
        invariant Board[..] == g
        invariant forall u, v :: 0 <= u < i && u < v < |pts| ==> !Blocks(PreTable, g, pts, u, v, side)
      {
        for j := i + 1 to |pts|
          invariant Board[..] == g
          invariant forall v :: i < v < j ==> !Blocks(PreTable, g, pts, i, v, side)
        {
          var defend := TryBlock(pts, i, j, side);
          if defend {
            return true;
          }
        }
      }
      found := false;
    }

    /** The number of stones the threats need, found by trying all ways to block them. */
    method EnsureThreatNum(Si: Line, side: Side, threat: seq<LineId>) returns (r: Line)
      requires Valid() && forall p <- Si.ThreatPoint :: OnBoard(p) && Free(Board[..], p)
      modifies Board
      ensures Board[..] == old(Board[..])
      ensures var pts := UniquePoint(Si.ThreatPoint);
              var spread := exists a <- threat, b <- threat :: LineAngle(a) != LineAngle(b);
              r == Si.(ThreatPoint := pts,
                       ThreatNum := EnsuredThreatNum(PreTable, Board[..], pts, Si.ThreatNum, spread, side))
      ensures Si.ThreatNum >= 2 && (exists a <- threat, b <- threat :: LineAngle(a) != LineAngle(b))
              && AllInPlainSight(r.ThreatPoint) ==>
                IsLeastBlocking(PreTable, Board[..], r.ThreatPoint, Si.ThreatNum, r.ThreatNum, side)
    {
      if Si.ThreatNum >= 2 && AllInPlainSight(UniquePoint(Si.ThreatPoint)) {
        EnsuredIsLeast(PreTable, Board[..], UniquePoint(Si.ThreatPoint), Si.ThreatNum, side);
      }
      r := Si.(ThreatPoint := UniquePoint(Si.ThreatPoint));
      if Si.ThreatNum < 2 {
        return;
      }
      var spread := TwoDirections(threat);
      if !spread {
        return;
      }
      var blocked := SingleBlock(r.ThreatPoint, side);
      if blocked {
        r := r.(ThreatNum := 1);
        return;
      }
      blocked := PairBlock(r.ThreatPoint, side);
      if blocked {
        r := r.(ThreatNum := 2);
      }
    }

    /** The flags Angle0, Angle45, Angle90, Angle135: whether two of them get set. */
    static method TwoDirections(threat: seq<LineId>) returns (two: bool)
      ensures two <==> exists a <- threat, b <- threat :: LineAngle(a) != LineAngle(b)
    {
      var angle0, angle45, angle90, angle135 := false, false, false, false;
      for i := 0 to |threat|
        invariant angle0 <==> exists u :: 0 <= u < i && LineAngle(threat[u]) == 0
        invariant angle45 <==> exists u :: 0 <= u < i && LineAngle(threat[u]) == 1
        invariant angle90 <==> exists u :: 0 <= u < i && LineAngle(threat[u]) == 2
        invariant angle135 <==> exists u :: 0 <= u < i && LineAngle(threat[u]) == 3
      {
        if threat[i] < 19 {
          angle0 := true;
        } else if threat[i] < 38 {
          angle90 := true;
        } else if threat[i] < 65 {
          angle45 := true;
        } else {
          angle135 := true;
        }
      }
      two := (angle0 && angle45) || (angle0 && angle90) || (angle0 && angle135) || (angle45 && angle90)
             || (angle45 && angle135) || (angle90 && angle135);
    }

    /** Adds the wanted parts of one line, the switch over `which` in the gathering loop. */
    static method AddLine(which: Which, sum: Line, l: Line) returns (r: Line)
      ensures r == AddWanted(which, sum, l)
    {
      r := sum.(Value := sum.Value + l.Value, ThreatNum := sum.ThreatNum + l.ThreatNum);
      if which == 0 || which == 1 {
        r := r.(ThreatPoint := r.ThreatPoint + l.ThreatPoint);
      }
      if which == 0 || which == 2 {
        r := r.(BigPotenPoint := r.BigPotenPoint + l.BigPotenPoint);
      }
      if which == 0 || which == 3 {
        r := r.(SmaPotenPoint := r.SmaPotenPoint + l.SmaPotenPoint);
      }
      if which == 0 || which == 4 {
        r := r.(BigPotenStep := r.BigPotenStep + l.BigPotenStep);
      }
      if which == 0 || which == 5 {
        r := r.(SmaPotenStep := r.SmaPotenStep + l.SmaPotenStep);
      }
      if which == 0 || which == 6 {
        r := r.(ComPoint := r.ComPoint + l.ComPoint);
      }
    }

    /** The loop over the 92 lines, with the id of its line noted for every threat point. */
    method GatherLines(side: Side, which: Which) returns (L1: Line, threat: seq<LineId>)
      requires Valid()
      ensures L1 == Gather(LineInfo[..], side, which, LINES)
      ensures (exists a <- threat, b <- threat :: LineAngle(a) != LineAngle(b)) <==> Spread(LineInfo[..], side, which)
    {
      hide AddWanted;
      ghost var c: Cache := LineInfo[..];
      threat := [];
      L1 := ZERO_LINE;
      for i := 0 to LINES
        invariant L1 == Gather(c, side, which, i)
        invariant forall id: LineId :: id in threat <==>
                    id < i && Wants(which, 1) && c[SlotOf(side, id)].ThreatPoint != []
      {
        var l := LineInfo[SlotOf(side, i)];
        assert l == c[SlotOf(side, i)];
        L1 := AddLine(which, L1, l);
        if which == 0 || which == 1 {
          var more: seq<LineId> := seq(|l.ThreatPoint|, _ => i);
          assert more != [] ==> more[0] in more;
          threat := threat + more;
        }
      }
    }

    /** In a coherent cache the gathered value is the summed value of all lines. */
    lemma GatheredFor(side: Side)
      requires Valid()
      ensures Coherent() && NoSixOnLines(PreTable, Board[..], side) ==>
                Gather(LineInfo[..], side, 0, LINES).Value == Sum(LineValues(PreTable, Board[..], side))
    {
      hide NoSixOnLines, Sum, LineValues, Gather;
      if Coherent() && NoSixOnLines(PreTable, Board[..], side) {
        GatheredValue(PreTable, Board[..], side, LINES);
        assert LineValues(PreTable, Board[..], side)[..LINES] == LineValues(PreTable, Board[..], side);
      }
    }

    /** The summary of all 92 lines of one side. */
    method GetAllLineInfor(side: Side, which: Which) returns (L1: Line)
      requires Valid() && ThreatsFree(Board[..], LineInfo[..], side, which) && ThreatsOnBoard(LineInfo[..], side, which)
      modifies Board
      ensures Board[..] == old(Board[..])
      ensures L1 == SideInfo(PreTable, Board[..], LineInfo[..], side, which)
      ensures Coherent() && which == 0 && NoSixOnLines(PreTable, Board[..], side) ==>
                L1.Value == Sum(LineValues(PreTable, Board[..], side))
    {
      hide NoSixOnLines, Sum, LineValues;
      ghost var c: Cache, g: Grid := LineInfo[..], Board[..];
      GatheredFor(side);
      var threat;
      L1, threat := GatherLines(side, which);
      GatheredPoints(c, side, which, LINES, p => OnBoard(p) && Free(g, p));
      GatheredUnwanted(c, side, which, LINES);
      L1 := EnsureThreatNum(L1, side, threat);
      if which == 0 || which == 2 {
        L1 := L1.(BigPotenPoint := UniquePoint(L1.BigPotenPoint));
      }
      if which == 0 || which == 3 {
        L1 := L1.(SmaPotenPoint := UniquePoint(L1.SmaPotenPoint));
      }
      if which == 0 || which == 6 {
        L1 := L1.(ComPoint := UniquePoint(L1.ComPoint));
      }
    }

    // ----- trial stones -----

    /** Tries a stone on `p` and reports both sides, refreshing only what the two modes ask for;
        afterwards board and cache are exactly as before, even when the cache was itself the stale
        cache of an outer trial. */
    method TryOnTop(p: Point, stone: Side, side1: Side, own: Which, other: Which, LineTemp: array<Line>)
      returns (a: Line, b: Line)
      requires Valid() && LineTemp.Length == SLOTS && LineTemp != LineInfo
      requires OnBoard(p) && Free(Board[..], p)
      requires var info := Refreshed(PreTable, Put(Board[..], p, stone), LineInfo[..], p, ModesFor(side1, own, other));
               && ThreatsFree(Put(Board[..], p, stone), info, side1, own) && ThreatsOnBoard(info, side1, own)
               && ThreatsFree(Put(Board[..], p, stone), info, Next(side1), other)
               && ThreatsOnBoard(info, Next(side1), other)
      modifies Board, LineInfo, LineTemp
      ensures Board[..] == old(Board[..]) && LineInfo[..] == old(LineInfo[..])
      ensures var g := Put(Board[..], p, stone);
              var info := Refreshed(PreTable, g, LineInfo[..], p, ModesFor(side1, own, other));
              && a == SideInfo(PreTable, g, info, side1, own)
              && b == SideInfo(PreTable, g, info, Next(side1), other)
    {
      ghost var g: Grid, info: Cache, saved: Cache := Board[..], LineInfo[..], LineTemp[..];
      ghost var modes := ModesFor(side1, own, other);
      BackupLine(p, LineTemp, side1, own);
      BackupLine(p, LineTemp, Next(side1), other);
      CopyBothSides(saved, info, p, side1, own, other);
      PutStone(p, stone);
      UpdateLineForCross(p, side1, own);
      UpdateLineForCross(p, Next(side1), other);
      RefreshBothSides(PreTable, Put(g, p, stone), info, p, side1, own, other);
      a := GetAllLineInfor(side1, own);
      b := GetAllLineInfor(Next(side1), other);
      PutStone(p, EMPTY);
      PutUndo(g, p, p, stone);
      ghost var tried: Cache, kept: Cache := LineInfo[..], LineTemp[..];
      RecoverLine(p, LineTemp, side1, own);
      RecoverLine(p, LineTemp, Next(side1), other);
      CopyBothSides(tried, kept, p, side1, own, other);
      BackupUndoesRefresh(saved, info, ScanModes(PreTable, Put(g, p, stone), modes), [p], modes);
    }

    /** A single trial on a coherent position. */
    method TryStone(p: Point, stone: Side, side1: Side, own: Which, other: Which, LineTemp: array<Line>)
      returns (a: Line, b: Line)
      requires Valid() && Coherent() && LineTemp.Length == SLOTS && LineTemp != LineInfo
      requires OnBoard(p) && Free(Board[..], p) && own != 0 && other != 0
      modifies Board, LineInfo, LineTemp
      ensures Board[..] == old(Board[..]) && LineInfo[..] == old(LineInfo[..])
      ensures a == TrialInfo(PreTable, Board[..], p, stone, ModesFor(side1, own, other), side1, own)
      ensures b == TrialInfo(PreTable, Board[..], p, stone, ModesFor(side1, own, other), Next(side1), other)
    {
      ghost var modes := ModesFor(side1, own, other);
      TrialThreatsFree(PreTable, Board[..], p, stone, modes, side1, own);
      TrialThreatsFree(PreTable, Board[..], p, stone, modes, Next(side1), other);
      a, b := TryOnTop(p, stone, side1, own, other, LineTemp);
    }

    /** Answering the threat point `i` leaves no threat but opens a point of the wanted kind. */
    method Opens(pts: seq<Point>, i: nat, side1: Side, own: Which, LineTemp: array<Line>, ghost opens: seq<bool>)
      returns (r: bool)
      requires Valid() && Coherent() && LineTemp.Length == SLOTS && LineTemp != LineInfo
      requires i < |pts| && OnBoard(pts[i]) && Free(Board[..], pts[i]) && own in {2, 3}
      requires AreOpenings(PreTable, Board[..], pts, side1, own, opens)
      modifies Board, LineInfo, LineTemp
      ensures Board[..] == old(Board[..]) && LineInfo[..] == old(LineInfo[..])
      ensures r == opens[i]
    {
      assert opens[i] == OpensPoint(PreTable, Board[..], pts[i], side1, own);
      var SiCom, SiPer := TryStone(pts[i], side1, side1, own, 1, LineTemp);
      if SiPer.ThreatNum != 0 {
        return false;
      }
      r := if own == 2 then SiCom.BigPotenPoint != [] else SiCom.SmaPotenPoint != [];
    }

    /** The loop over the points that answer a single threat. */
    method TryOpenings(pts: seq<Point>, side1: Side, own: Which, LineTemp: array<Line>, ghost opens: seq<bool>)
      returns (r: bool)
      requires Valid() && Coherent() && LineTemp.Length == SLOTS && LineTemp != LineInfo
      requires own in {2, 3} && forall p <- pts :: OnBoard(p) && Free(Board[..], p)
      requires AreOpenings(PreTable, Board[..], pts, side1, own, opens)
      modifies Board, LineInfo, LineTemp
      ensures Board[..] == old(Board[..]) && LineInfo[..] == old(LineInfo[..])
      ensures r <==> true in opens
    {
      r := false;
      for i := 0 to |pts|
        invariant Board[..] == old(Board[..]) && LineInfo[..] == old(LineInfo[..])
        invariant !r && forall u :: 0 <= u < i ==> !opens[u]
      {
        assert pts[i] in pts;
        r := Opens(pts, i, side1, own, LineTemp, opens);
        if r {
          return;
        }
      }
    }

    method AnyOpens(pts: seq<Point>, side1: Side, own: Which) returns (r: bool)
      requires Valid() && Coherent() && own in {2, 3}
      requires forall p <- pts :: OnBoard(p) && Free(Board[..], p)
      modifies Board, LineInfo
      ensures Board[..] == old(Board[..]) && LineInfo[..] == old(LineInfo[..])
      ensures r <==> exists p <- pts :: OpensPoint(PreTable, Board[..], p, side1, own)
    {
      ghost var opens := Openings(PreTable, Board[..], pts, side1, own);
      var LineTemp := new Line[SLOTS];
      r := TryOpenings(pts, side1, own, LineTemp, opens);
    }

    method NeedConSearchForDoubleThreat(side1: Side, Si1: Line, Si2: Line) returns (r: bool)
      requires Valid() && Coherent() && forall p <- Si2.ThreatPoint :: OnBoard(p) && Free(Board[..], p)
      modifies Board, LineInfo
      ensures Board[..] == old(Board[..]) && LineInfo[..] == old(LineInfo[..])
      ensures r <==> SearchesOnForDouble(PreTable, Board[..], side1, Si1, Si2)
    {
      if Si2.ThreatNum == 2 {
        return true;
      } else if Si1.BigPotenPoint != [] {
        return true;
      } else if Si2.ThreatNum == 0 && Si1.BigPotenStep != [] {
        return true;
      } else if Si2.ThreatNum == 0 && |Si1.SmaPotenPoint| > 3 {
        return true;
      } else if Si2.ThreatNum == 1 && Si1.BigPotenPoint == [] {
        r := AnyOpens(Si2.ThreatPoint, side1, 2);
      } else {
        r := false;
      }
    }

    method NeedConSearchForSingleThreat(side1: Side, Si1: Line, Si2: Line) returns (r: bool)
      requires Valid() && Coherent() && forall p <- Si2.ThreatPoint :: OnBoard(p) && Free(Board[..], p)
      modifies Board, LineInfo
      ensures Board[..] == old(Board[..]) && LineInfo[..] == old(LineInfo[..])
      ensures r <==> SearchesOnForSingle(PreTable, Board[..], side1, Si1, Si2)
    {
      if Si2.ThreatNum == 1 && Si1.SmaPotenPoint != [] {
        return true;
      } else if Si2.ThreatNum == 1 && Si1.SmaPotenPoint == [] {
        r := AnyOpens(Si2.ThreatPoint, side1, 3);
      } else {
        r := false;
      }
    }

    // ----- discounting a leaf -----

    /** The two-stone defence by `first`, already tried, and `second`. */
    method TrySecond(ghost g: Grid, ghost first: Point, second: Point, side1: Side, LineTemp: array<Line>)
      returns (com: int, per: int)
      requires Valid() && LineTemp.Length == SLOTS && LineTemp != LineInfo
      requires Free(g, first) && OnBoard(second) && Free(g, second) && first != second
      requires Board[..] == Put(g, first, Next(side1))
      requires LineInfo[..] == Refreshed(PreTable, Board[..], ScanAll(PreTable, g, 0), first, NUMBERS_ONLY)
      modifies Board, LineInfo, LineTemp
      ensures Board[..] == old(Board[..]) && LineInfo[..] == old(LineInfo[..])
      ensures com == PairThreats(PreTable, g, first, second, Next(side1), side1)
      ensures per == PairThreats(PreTable, g, first, second, Next(side1), Next(side1))
    {
      PutAt(g, first, Next(side1), second);
      var a, b := TryOnTop(second, Next(side1), side1, 7, 7, LineTemp);
      com, per := a.ThreatNum, b.ThreatNum;
    }

    /** The loop over the second stones, with the first one already tried on threat point `i`. */
    method DiscountSeconds(pts: seq<Point>, i: nat, side1: Side, largeDepth: nat, beta0: int, LineTemp: array<Line>,
                           ghost g: Grid)
      returns (beta: int)
      requires Valid() && LineTemp.Length == SLOTS && LineTemp != LineInfo
      requires i < |pts| && StrictlySorted(pts) && forall p <- pts :: OnBoard(p) && Free(g, p)
      requires Board[..] == Put(g, pts[i], Next(side1))
      requires LineInfo[..] == Refreshed(PreTable, Board[..], ScanAll(PreTable, g, 0), pts[i], NUMBERS_ONLY)
      modifies Board, LineInfo, LineTemp
      ensures Board[..] == old(Board[..]) && LineInfo[..] == old(LineInfo[..])
      ensures beta == DiscountRow(PreTable, g, pts, side1, largeDepth, beta0, i, |pts|)
    {
      hide PairThreats, ScanAll, Refreshed, Put;
      assert forall u :: 0 <= u < |pts| ==> pts[u] in pts;
      beta := beta0;
      for j := i + 1 to |pts|
        invariant Board[..] == old(Board[..]) && LineInfo[..] == old(LineInfo[..])
        invariant beta == DiscountRow(PreTable, g, pts, side1, largeDepth, beta0, i, j)
      {
        var com, per := TrySecond(g, pts[i], pts[j], side1, LineTemp);
        if com == 0 {
          if per > 2 {
            beta := -(THREAT - largeDepth);
          } else if per == 2 {
            beta := beta - DISCOUNT_TWO_TWO;
          } else if per == 1 {
            beta := beta - DISCOUNT_TWO_ONE;
          }
        }
      }
    }

    /** All two-stone defences whose first stone is the threat point `i`. */
    method DiscountFrom(pts: seq<Point>, i: nat, side1: Side, largeDepth: nat, beta0: int,
                        LineTemp0: array<Line>, LineTemp1: array<Line>)
      returns (beta: int)
      requires Valid() && Coherent() && LineTemp0.Length == SLOTS && LineTemp1.Length == SLOTS
      requires LineTemp0 != LineInfo && LineTemp1 != LineInfo && LineTemp0 != LineTemp1
      requires i < |pts| && StrictlySorted(pts) && forall p <- pts :: OnBoard(p) && Free(Board[..], p)
      modifies Board, LineInfo, LineTemp0, LineTemp1
      ensures Board[..] == old(Board[..]) && LineInfo[..] == old(LineInfo[..])
      ensures beta == DiscountRow(PreTable, Board[..], pts, side1, largeDepth, beta0, i, |pts|)
    {
      hide PairThreats, ScanAll, DiscountRow, StrictlySorted, CopyCross, Put;
      ghost var g: Grid, info: Cache, saved: Cache := Board[..], LineInfo[..], LineTemp0[..];
      var first, stone := pts[i], Next(side1);
      assert first in pts;
      PutStone(first, stone);
      BackupLine(first, LineTemp0, side1, 7);
      BackupLine(first, LineTemp0, stone, 7);
      CopyBothSides(saved, info, first, side1, 7, 7);
      UpdateLineForCross(first, side1, 7);
      UpdateLineForCross(first, stone, 7);
      RefreshBothSides(PreTable, Board[..], info, first, side1, 7, 7);
      ghost var tried: Cache, kept: Cache := LineInfo[..], LineTemp0[..];
      beta := DiscountSeconds(pts, i, side1, largeDepth, beta0, LineTemp1, g);
      PutStone(first, EMPTY);
      PutUndo(g, first, first, stone);
      RecoverLine(first, LineTemp0, side1, 7);
      RecoverLine(first, LineTemp0, stone, 7);
      CopyBothSides(tried, kept, first, side1, 7, 7);
      BackupUndoesRefresh(saved, info, ScanModes(PreTable, Put(g, first, stone), NUMBERS_ONLY), [first], NUMBERS_ONLY);
    }

    /** All two-stone defences against a double threat. */
    method DiscountPairs(pts: seq<Point>, side1: Side, largeDepth: nat, beta0: int) returns (beta: int)
      requires Valid() && Coherent() && StrictlySorted(pts)
      requires forall p <- pts :: OnBoard(p) && Free(Board[..], p)
      modifies Board, LineInfo
      ensures Board[..] == old(Board[..]) && LineInfo[..] == old(LineInfo[..])
      ensures beta == DiscountRows(PreTable, Board[..], pts, side1, largeDepth, beta0, |pts|)
    {
      hide DiscountRow, ScanAll;
      ghost var g: Grid := Board[..];
      var LineTemp0, LineTemp1 := new Line[SLOTS], new Line[SLOTS];
      beta := beta0;
      for i := 0 to |pts|
        invariant Board[..] == g && LineInfo[..] == old(LineInfo[..])
        invariant beta == DiscountRows(PreTable, g, pts, side1, largeDepth, beta0, i)
      {
        beta := DiscountFrom(pts, i, side1, largeDepth, beta, LineTemp0, LineTemp1);
      }
    }

    method RemainsStrong(pts: seq<Point>, i: nat, side1: Side, LineTemp: array<Line>, ghost flags: seq<bool>)
      returns (r: bool)
      requires Valid() && Coherent() && LineTemp.Length == SLOTS && LineTemp != LineInfo
      requires i < |pts| && OnBoard(pts[i]) && Free(Board[..], pts[i])
      requires AreFlags(PreTable, Board[..], pts, side1, flags)
      modifies Board, LineInfo, LineTemp
      ensures Board[..] == old(Board[..]) && LineInfo[..] == old(LineInfo[..])
      ensures r == flags[i]
    {
      assert flags[i] == StaysStrong(PreTable, Board[..], pts[i], side1);
      var SiCom, SiPer := TryStone(pts[i], Next(side1), side1, 2, 2, LineTemp);
      r := SiCom.ThreatNum == 0 && SiPer.BigPotenPoint != [];
    }

    /** All answers to a single threat. */
    method DiscountEach(pts: seq<Point>, side1: Side, beta0: int, ghost flags: seq<bool>) returns (beta: int)
      requires Valid() && Coherent()
      requires forall p <- pts :: OnBoard(p) && Free(Board[..], p)
      requires AreFlags(PreTable, Board[..], pts, side1, flags) && |flags| == |pts|
      modifies Board, LineInfo
      ensures Board[..] == old(Board[..]) && LineInfo[..] == old(LineInfo[..])
      ensures beta == DiscountFlags(flags, beta0, |pts|)
    {
      hide AreFlags, StaysStrong, ScanAll, Free, OnBoard, CoherentInfo;
      var LineTemp := new Line[SLOTS];
      beta := beta0;
      for i := 0 to |pts|
        invariant Board[..] == old(Board[..]) && LineInfo[..] == old(LineInfo[..])
        invariant beta == DiscountFlags(flags, beta0, i)
      {
        assert pts[i] in pts;
        var strong := RemainsStrong(pts, i, side1, LineTemp, flags);
        if strong {
          beta := beta - DISCOUNT_ONE;
        }
      }
    }

    /** The score of a leaf, lowered for the defences the other side still has. */
    method Discount(side1: Side, Si1: Line, Si2: Line, beta0: int) returns (beta: int)
      requires Ready() && Coherent() && StrictlySorted(Si1.ThreatPoint)
      requires forall p <- Si1.ThreatPoint :: OnBoard(p) && Free(Board[..], p)
      modifies Board, LineInfo
      ensures Board[..] == old(Board[..]) && LineInfo[..] == old(LineInfo[..])
      ensures beta == Discounted(PreTable, Board[..], side1, Si1, Si2, LargeDepth[ComputerColor], beta0)
    {
      beta := beta0;
      if Si1.ThreatNum == 2 {
        beta := DiscountPairs(Si1.ThreatPoint, side1, LargeDepth[ComputerColor], beta0);
      }
      if Si1.ThreatNum == 1 {
        ghost var flags := Flags(PreTable, Board[..], Si1.ThreatPoint, side1, beta0);
        beta := DiscountEach(Si1.ThreatPoint, side1, beta0, flags);
      }
      if Si1.ThreatNum == 0 {
        if Si2.BigPotenPoint != [] {
          beta := beta - DISCOUNT_BIG_POINT;
        }
        if Si2.BigPotenStep != [] {
          beta := beta - DISCOUNT_BIG_STEP;
        }
        if |Si2.SmaPotenPoint| > 3 {
          beta := beta - DISCOUNT_SMA_POINT;
        }
      }
    }

    // ----- valuing a step -----

    /** The cached values of the lines that the skipping test keeps. */
    method KeptValues(side: Side, p: Point, q: Point) returns (com: int, per: int)
      requires Valid()
      ensures com == KeptSum(LineInfo[..], side, p, q, LINES) && per == KeptSum(LineInfo[..], Next(side), p, q, LINES)
    {
      ghost var c: Cache := LineInfo[..];
      com, per := 0, 0;
      for i := 0 to LINES
        invariant com == KeptSum(c, side, p, q, i) && per == KeptSum(c, Next(side), p, q, i)
      {
        if i == p.Y || i == p.X + 19 || i == 38 + p.X + p.Y - 5 || i == 38 + 27 + 13 + p.Y - p.X {
          continue;
        }
        if i == q.Y || i == q.X + 19 || i == 38 + q.X + q.Y - 5 || i == 38 + 27 + 13 + q.Y - q.X {
          continue;
        }
        var own, other := LineInfo[SlotOf(side, i)], LineInfo[SlotOf(Next(side), i)];
        assert own == c[SlotOf(side, i)] && other == c[SlotOf(Next(side), i)];
        com, per := com + own.Value, per + other.Value;
      }
    }

    static method StepBack(p: Point, k: Angle) returns (e: Point)
      requires OnBoard(p)
      ensures e == EdgeBack(p, k)
    {
      e := p;
      while e.X != 0 && e.X != 18 && e.Y != 0 && e.Y != 18
        invariant OnBoard(e) && EdgeBack(e, k) == EdgeBack(p, k)
        decreases if k == 2 then e.Y else e.X
      {
        e := Along(e, k, -1);
      }
    }

    /** The lines of direction `k` through the two stones, a common line once. */
    method CrossValues(p: Point, q: Point, k: Angle, side: Side) returns (sum: int)
      requires Valid() && OnBoard(p) && OnBoard(q)
      ensures sum == CrossValue(PreTable, Board[..], p, q, k, side)
    {
      var e := StepBack(p, k);
      var f := StepBack(q, k);
      sum := CalSingleLineValue(PreTable, Board, p, k, side);
      if e != f {
        var v := CalSingleLineValue(PreTable, Board, q, k, side);
        sum := sum + v;
      }
    }

    /** The loop over the four directions. */
    method CrossSums(p: Point, q: Point, side: Side) returns (sum1: int, sum2: int)
      requires Valid() && OnBoard(p) && OnBoard(q)
      ensures sum1 == CrossSum(PreTable, Board[..], p, q, side, 4)
      ensures sum2 == CrossSum(PreTable, Board[..], p, q, Next(side), 4)
    {
      hide CrossValue;
      sum1, sum2 := 0, 0;
      for k := 0 to 4
        invariant sum1 == CrossSum(PreTable, Board[..], p, q, side, k)
        invariant sum2 == CrossSum(PreTable, Board[..], p, q, Next(side), k)
      {
        var v := CrossValues(p, q, k, side);
        var w := CrossValues(p, q, k, Next(side));
        sum1, sum2 := sum1 + v, sum2 + w;
      }
    }

    /** The value of a step from the cache and the changed lines only; the two cells are empty afterwards. */
    method CalculateStepValue(p: Point, q: Point, side: Side) returns (sum: int)
      requires Valid() && OnBoard(p) && OnBoard(q)
      modifies Board
      ensures Board[..] == Put(Put(old(Board[..]), p, EMPTY), q, EMPTY)
      ensures Free(old(Board[..]), p) && Free(old(Board[..]), q) ==> Board[..] == old(Board[..])
      ensures sum == StepScore(PreTable, old(Board[..]), LineInfo[..], p, q, side)
      ensures old(Coherent()) && CountsRight(p, q) && QuietElsewhere(PreTable, old(Board[..]), p, q) ==>
                sum == BoardValue(PreTable, Put(Put(old(Board[..]), p, side), q, side), side)
    {
      hide CountsRight, QuietElsewhere, BoardValue, CrossSum, KeptSum, ScanAll, Put;
      ghost var g: Grid := Board[..];
      var com, per := KeptValues(side, p, q);
      PutStone(p, side);
      PutStone(q, side);
      var sum1, sum2 := CrossSums(p, q, side);
      PutStone(p, EMPTY);
      PutStone(q, EMPTY);
      Emptied(g, p, q, side);
      sum := sum1 - sum2 + com - per;
      if old(Coherent()) && CountsRight(p, q) && QuietElsewhere(PreTable, g, p, q) {
        StepScoreIsBoardValue(PreTable, g, p, q, side);
      }
    }

    // ----- defending against two or more threats -----

    /** The answer by the points `i` and `j`, if it is worth listing. */
    method DefendWith(pts: seq<Point>, num: int, i: nat, j: nat, side: Side) returns (steps: seq<Step>)
      requires Ready() && Coherent() && StrictlySorted(pts) && i < j < |pts|
      requires forall p <- pts :: OnBoard(p) && Free(Board[..], p)
      modifies Board
      ensures Board[..] == old(Board[..])
      ensures steps == if num >= 3 || Blocks(PreTable, Board[..], pts, i, j, side)
                       then [DefendStep(TheRules(), Board[..], pts, i, j, side)] else []
    {
      var defend := TryBlock(pts, i, j, side);
      if !defend && num < 3 {
        return [];
      }
      assert pts[i] in pts && pts[j] in pts;
      var value := CalculateStepValue(pts[i], pts[j], Next(side));
      var id := Xor(KeyOf(HashBoard, Next(side), pts[i]), KeyOf(HashBoard, Next(side), pts[j]));
      steps := [Step(pts[i], pts[j], id, value, 0)];
    }

    method DefendForMultiThreat(Si: Line, side: Side) returns (moves: seq<Step>)
      requires Ready() && Coherent() && StrictlySorted(Si.ThreatPoint)
      requires forall p <- Si.ThreatPoint :: OnBoard(p) && Free(Board[..], p)
      modifies Board
      ensures Board[..] == old(Board[..])
      ensures moves == DefendSteps(TheRules(), Board[..], Si, side)
      ensures LawfulSorts(Given) ==> AnswersAreValued(TheRules(), Board[..], side, moves)
    {
      hide DefendRow, ScanAll, StrictlySorted, LawfulSorts, AnswersAreValued;
      ghost var g: Grid, r := Board[..], TheRules();
      var pts, num := Si.ThreatPoint, Si.ThreatNum;
      var list: seq<Step> := [];
      for i := 0 to |pts|
        invariant Board[..] == g
        invariant list == DefendRows(r, g, pts, num, i, side)
      {
        var row := DefendFrom(pts, num, i, side);
        list := list + row;
      }
      moves := Given.bySValueDown(list);
      if LawfulSorts(Given) {
        DefencesAreValued(r, g, Si, side);
      }
    }

    method DefendFrom(pts: seq<Point>, num: int, i: nat, side: Side) returns (row: seq<Step>)
      requires Ready() && Coherent() && StrictlySorted(pts) && i < |pts|
      requires forall p <- pts :: OnBoard(p) && Free(Board[..], p)
      modifies Board
      ensures Board[..] == old(Board[..])
      ensures row == DefendRow(TheRules(), Board[..], pts, num, i, |pts|, side)
    {
      ghost var g: Grid, r := Board[..], TheRules();
      row := [];
      for j := i + 1 to |pts|
        invariant Board[..] == g
        invariant row == DefendRow(r, g, pts, num, i, j, side)
      {
        var steps := DefendWith(pts, num, i, j, side);
        row := row + steps;
      }
    }

    // ----- the search -----

    /** The remembered move list of the current position, if any. */
    method LookUpHashTable(Depth: nat) returns (entry: seq<History>)
      requires Ready()
      ensures entry == LookUp(TheRules(), HashKey64, Depth)
    {
      if ComToCom {
        return [];
      }
      if Depth >= 3 {
        return [];
      }
      for i := 0 to |HashTable[Depth]|
        invariant LookUpFrom(HashTable[Depth], HashKey64, 0) == LookUpFrom(HashTable[Depth], HashKey64, i)
      {
        if HashKey64 == HashTable[Depth][i].checksum {
          return [HashTable[Depth][i]];
        }
      }
      entry := [];
    }

    /** The score of a leaf; only an opponent's node at the last depth is discounted. */
    method LeafScore(Depth: nat, mine: bool, SiCom: Line, SiPer: Line) returns (score: int)
      requires Ready() && Coherent()
      requires SiCom == CoherentInfo(PreTable, Board[..], ComputerColor)
      modifies Board, LineInfo
      ensures Board[..] == old(Board[..]) && LineInfo[..] == old(LineInfo[..])
      ensures score == LeafValue(TheRules(), Board[..], Depth, mine, SiCom, SiPer)
    {
      hide CoherentInfo, ScanAll, Discounted;
      CoherentInfoThreats(PreTable, Board[..], ComputerColor);
      score := SiCom.Value - SiPer.Value;
      if !mine && Depth == LargeDepth[ComputerColor] {
        score := Discount(ComputerColor, SiCom, SiPer, score);
      }
    }

    /** Beyond the nominal depth: the flags that continue the search, or the score of a leaf. */
    method JudgeLeaf(Depth: nat, mine: bool, SiCom: Line, SiPer: Line) returns (verdict: Verdict)
      requires Ready() && Coherent()
      requires SiCom == CoherentInfo(PreTable, Board[..], ComputerColor)
      requires SiPer == CoherentInfo(PreTable, Board[..], Next(ComputerColor))
      modifies Board, LineInfo
      ensures Board[..] == old(Board[..]) && LineInfo[..] == old(LineInfo[..])
      ensures verdict == JudgeDeep(TheRules(), Board[..], Depth, mine, SiCom, SiPer)
    {
      hide CoherentInfo, SearchesOnForDouble, SearchesOnForSingle, LeafValue, ScanAll;
      CoherentInfoThreats(PreTable, Board[..], ComputerColor);
      CoherentInfoThreats(PreTable, Board[..], Next(ComputerColor));
      var own, rival := if mine then SiCom else SiPer, if mine then SiPer else SiCom;
      var mover: Side := if mine then ComputerColor else Next(ComputerColor);
      var con1 := NeedConSearchForDoubleThreat(mover, own, rival);
      var con2 := NeedConSearchForSingleThreat(mover, own, rival);
      if con1 && Depth < LargeDepth[ComputerColor] {
        return Expand(true, false);
      } else if con2 && Depth < LargeDepth[ComputerColor] {
        return Expand(false, true);
      }
      var score := LeafScore(Depth, mine, SiCom, SiPer);
      verdict := Decided(score);
    }

    /** What both search functions gather first. */
    method BothSides() returns (SiCom: Line, SiPer: Line)
      requires Ready() && Coherent()
      modifies Board
      ensures Board[..] == old(Board[..])
      ensures SiCom == CoherentInfo(PreTable, Board[..], ComputerColor)
      ensures SiPer == CoherentInfo(PreTable, Board[..], Next(ComputerColor))
    {
      CoherentThreatsFree(PreTable, Board[..], ComputerColor, 0);
      CoherentThreatsFree(PreTable, Board[..], Next(ComputerColor), 0);
      SiCom := GetAllLineInfor(ComputerColor, 0);
      SiPer := GetAllLineInfor(Next(ComputerColor), 0);
    }

    /** The opening part of both search functions: a decided node, or the flags for its steps. */
    method JudgeNode(Depth: nat, mine: bool, SiCom: Line, SiPer: Line) returns (verdict: Verdict)
      requires Ready() && Coherent()
      requires SiCom == CoherentInfo(PreTable, Board[..], ComputerColor)
      requires SiPer == CoherentInfo(PreTable, Board[..], Next(ComputerColor))
      modifies Board, LineInfo
      ensures Board[..] == old(Board[..]) && LineInfo[..] == old(LineInfo[..])
      ensures verdict == Judge(TheRules(), Board[..], Depth, mine)
    {
      var own, rival := if mine then SiCom else SiPer, if mine then SiPer else SiCom;
      var sign := if mine then 1 else -1;
      if own.ThreatNum > 0 {
        verdict := Decided(sign * (THREAT - Depth + 1));
      } else if rival.ThreatNum > 2 {
        verdict := Decided(-sign * (THREAT - Depth + 1));
      } else if Depth >= MaxDepth[ComputerColor] {
        verdict := JudgeLeaf(Depth, mine, SiCom, SiPer);
      } else {
        verdict := Expand(false, false);
      }
    }

    /** The choice of the move list in both search functions. */
    method ListMoves(Depth: nat, mine: bool, con1: bool, con2: bool, own: Line, rival: Line) returns (moves: seq<Step>)
      requires Ready() && Coherent()
      requires own == CoherentInfo(PreTable, Board[..], Mover(TheRules(), mine))
      requires rival == CoherentInfo(PreTable, Board[..], Next(Mover(TheRules(), mine)))
      modifies Board
      ensures Board[..] == old(Board[..])
      ensures moves == MoveList(TheRules(), Board[..], HashKey64, Depth, mine, con1, con2)
    {
      hide CoherentInfo, DefendSteps, ScanAll;
      var mover: Side := if mine then ComputerColor else Next(ComputerColor);
      CoherentInfoThreats(PreTable, Board[..], Next(mover));
      var entry := LookUpHashTable(Depth);
      if entry != [] {
        moves := entry[0].MoveList;
      } else if rival.ThreatNum >= 2 {
        moves := DefendForMultiThreat(rival, Next(mover));
      } else if rival.ThreatNum == 1 {
        moves := Given.single(Board[..], mover, own, rival, con1, con2);
      } else {
        moves := Given.none(Board[..], mover, own, rival, con1);
      }
      if entry != [] && !entry[0].pruning {
        if !mine {
          moves := Given.bySValueUp(moves);
        }
        if |moves| > 15 {
          moves := moves[..|moves| * 8 / 10];
        }
      }
    }

    /** Keeps a searched list for the next move, at the depths the three tables are for. */
    method Remember(Depth: nat, pruning: bool, list: seq<Step>)
      requires Ready()
      modifies `TempHashTable
      ensures forall i :: 0 <= i < 3 ==>
                TempHashTable[i] == old(TempHashTable[i])
                  + (if 2 <= Depth < MaxDepth[ComputerColor] && i == Depth - 2 then [History(pruning, HashKey64, list)]
                    else [])
      ensures MaxDepth[ComputerColor] <= 2 ==> TempHashTable == old(TempHashTable)
    {
      if Depth >= 2 && Depth + 1 <= MaxDepth[ComputerColor] {
        TempHashTable := TempHashTable[Depth - 2 := TempHashTable[Depth - 2] + [History(pruning, HashKey64, list)]];
      }
    }

    /** The requirements of a search from the current position at a depth. */
    ghost predicate Searchable(Depth: nat, mine: bool, Alpha: int, Beta: int)
      reads this, Board, LineInfo
    {
      && Ready() && Coherent()
      && Depth <= Limit(TheRules())
      && TreeLegal(TheRules(), Board[..], HashKey64, Depth, mine)
      && Alpha <= Beta && Alpha < WinBound(TheRules()) && Beta > -WinBound(TheRules())
    }

    ghost function TreeValue(Depth: nat, mine: bool): int
      requires Valid() && Depth <= Limit(TheRules())
      reads Board, `HashKey64, `ComputerColor, `MaxDepth, `LargeDepth, `HashTable, `ComToCom
    {
      Value(TheRules(), Board[..], HashKey64, Depth, mine)
    }

    /** Makes one step, searches the position after it and takes the step back. */
    method SearchStep(m: Step, Alpha: int, Beta: int, Depth: nat, mine: bool, LineTemp: array<Line>) returns (v: int)
      requires Ready() && Coherent() && LineTemp.Length == SLOTS && LineTemp != LineInfo
      requires Depth < Limit(TheRules()) && LegalStep(Board[..], m)
      requires var r, mover := TheRules(), Mover(TheRules(), mine);
               TreeLegal(r, After(Board[..], m, mover), KeyAfter(r, HashKey64, m, mover), Depth + 1, !mine)
      requires Alpha <= Beta && Alpha < WinBound(TheRules()) && Beta > -WinBound(TheRules())
      modifies `HashKey64, `TempHashTable, Board, LineInfo, LineTemp
      ensures Board[..] == old(Board[..]) && LineInfo[..] == old(LineInfo[..]) && HashKey64 == old(HashKey64)
      ensures MaxDepth[ComputerColor] <= 2 ==> TempHashTable == old(TempHashTable)
      ensures Approximates(WinBound(TheRules()), Alpha, Beta,
                           StepOutcome(TheRules(), Board[..], HashKey64, Depth, mine, m), v)
      decreases Limit(TheRules()) - Depth, 0
    {
      hide Value, TreeLegal, ScanAll;
      ghost var g: Grid, info: Cache, key, saved: Cache := Board[..], LineInfo[..], HashKey64, LineTemp[..];
      var mover: Side := if mine then ComputerColor else Next(ComputerColor);
      MakeMove(m.First, m.Second, mover, LineTemp);
      if mine {
        v := MaxSearch(Alpha, Beta, Depth + 1);
      } else {
        v := MinSearch(Alpha, Beta, Depth + 1);
      }
      BackMove(m.First, m.Second, mover, LineTemp);
      PutUndo(g, m.First, m.Second, mover);
      ToggleUndo(HashBoard, key, mover, m.First, m.Second);
      BackupUndoesRefresh(saved, info, ScanAll(PreTable, After(g, m, mover), 0), [m.First, m.Second], Modes(0, 0));
    }

    /** SearchStep for one step of a list, with the outcomes of the list known. */
    method SearchMove(moves: seq<Step>, i: nat, Alpha: int, Beta: int, Depth: nat, mine: bool, LineTemp: array<Line>,
                      ghost r: Rules, ghost g: Grid, ghost key: Word, ghost outcomes: seq<int>)
      returns (v: int)
      requires Ready() && Coherent() && LineTemp.Length == SLOTS && LineTemp != LineInfo
      requires TheRules() == r && Board[..] == g && HashKey64 == key
      requires Depth < Limit(r) && i < |moves| && AllLegal(r, g, key, Depth, mine, moves)
      requires AreOutcomes(r, g, key, Depth, mine, moves, outcomes)
      requires Alpha <= Beta && Alpha < WinBound(r) && Beta > -WinBound(r)
      modifies `HashKey64, `TempHashTable, Board, LineInfo, LineTemp
      ensures Board[..] == old(Board[..]) && LineInfo[..] == old(LineInfo[..]) && HashKey64 == old(HashKey64)
      ensures MaxDepth[ComputerColor] <= 2 ==> TempHashTable == old(TempHashTable)
      ensures Approximates(WinBound(r), Alpha, Beta, outcomes[i], v)
      decreases Limit(TheRules()) - Depth, 1
    {
      hide TreeLegal, StepOutcome, ScanAll;
      assert moves[i] in moves;
      assert outcomes[i] == StepOutcome(r, g, key, Depth, mine, moves[i]);
      v := SearchStep(moves[i], Alpha, Beta, Depth, mine, LineTemp);
    }

    /** The loop over the steps of a minimising node. */
    method MaxLoop(moves: seq<Step>, Alpha: int, Beta: int, Depth: nat,
                   ghost r: Rules, ghost g: Grid, ghost key: Word, ghost outcomes: seq<int>)
      returns (BestValue: int, pruning: bool, list: seq<Step>)
      requires Ready() && Coherent() && TheRules() == r && Board[..] == g && HashKey64 == key
      requires Depth < Limit(r) && AllLegal(r, g, key, Depth, false, moves)
      requires AreOutcomes(r, g, key, Depth, false, moves, outcomes) && |outcomes| == |moves|
      requires Alpha <= Beta && Alpha < WinBound(r) && Beta > -WinBound(r)
      modifies `HashKey64, `TempHashTable, Board, LineInfo
      ensures Board[..] == old(Board[..]) && LineInfo[..] == old(LineInfo[..]) && HashKey64 == old(HashKey64)
      ensures MaxDepth[ComputerColor] <= 2 ==> TempHashTable == old(TempHashTable)
      ensures Approximates(WinBound(r), Alpha, Beta, BestOutcome(outcomes, false, |outcomes|), BestValue)
      decreases Limit(TheRules()) - Depth, 2
    {
      hide AllLegal, AreOutcomes, TreeLegal, ScanAll, CoherentInfo, StepOutcome, BestOf, BestOutcome, Approximates;
      ghost var w, n := WinBound(r), |outcomes|;
      FirstOutcome(outcomes, false);
      var LineTemp := new Line[SLOTS];
      var beta, values := Beta, [];
      BestValue, pruning, list := THREAT, false, moves;
      for i := 0 to |moves|
        invariant Ready() && TheRules() == r
        invariant Board[..] == g && LineInfo[..] == old(LineInfo[..]) && HashKey64 == key
        invariant MaxDepth[ComputerColor] <= 2 ==> TempHashTable == old(TempHashTable)
        invariant |list| == |moves| && |values| == i
        invariant Narrowing(w, Alpha, Beta, beta, BestValue, BestOutcome(outcomes, false, i))
      {
        ghost var best0, beta0, v0 := BestValue, beta, BestOutcome(outcomes, false, i);
        var v := SearchMove(moves, i, Alpha, beta, Depth, false, LineTemp, r, g, key, outcomes);
        list := list[i := list[i].(LValue := v)];
        values := values + [v];
        if v < beta {
          beta := v;
        }
        if v < BestValue {
          BestValue := v;
        }
        if v < Alpha || beta <= -(THREAT - LargeDepth[ComputerColor] + 1) {
          BestOutcomeBound(outcomes, false, i, n);
          NarrowingCut(w, Alpha, Beta, beta0, best0, v0, v, outcomes[i], BestOutcome(outcomes, false, n));
          return BestValue, true, list;
        }
        NextOutcome(outcomes, false, i);
        NarrowingStep(w, Alpha, Beta, beta0, best0, v0, v, outcomes[i]);
      }
      NarrowingEnd(w, Alpha, Beta, beta, BestValue, BestOutcome(outcomes, false, n));
      list := seq(|list|, i requires 0 <= i < |list| => list[i].(SValue := values[i]));
    }

    /** The loop over the steps of a maximising node. */
    method MinLoop(moves: seq<Step>, Alpha: int, Beta: int, Depth: nat,
                   ghost r: Rules, ghost g: Grid, ghost key: Word, ghost outcomes: seq<int>)
      returns (BestValue: int, pruning: bool, list: seq<Step>)
      requires Ready() && Coherent() && TheRules() == r && Board[..] == g && HashKey64 == key
      requires Depth < Limit(r) && AllLegal(r, g, key, Depth, true, moves)
      requires AreOutcomes(r, g, key, Depth, true, moves, outcomes) && |outcomes| == |moves|
      requires Alpha <= Beta && Alpha < WinBound(r) && Beta > -WinBound(r)
      modifies `HashKey64, `TempHashTable, Board, LineInfo
      ensures Board[..] == old(Board[..]) && LineInfo[..] == old(LineInfo[..]) && HashKey64 == old(HashKey64)
      ensures MaxDepth[ComputerColor] <= 2 ==> TempHashTable == old(TempHashTable)
      ensures Approximates(WinBound(r), Alpha, Beta, BestOutcome(outcomes, true, |outcomes|), BestValue)
      decreases Limit(TheRules()) - Depth, 2
    {
      hide AllLegal, AreOutcomes, TreeLegal, ScanAll, CoherentInfo, StepOutcome, BestOf, BestOutcome, Approximates;
      ghost var w, n := WinBound(r), |outcomes|;
      FirstOutcome(outcomes, true);
      var LineTemp := new Line[SLOTS];
      var alpha, values := Alpha, [];
      BestValue, pruning, list := -THREAT, false, moves;
      for i := 0 to |moves|
        invariant Ready() && TheRules() == r
        invariant Board[..] == g && LineInfo[..] == old(LineInfo[..]) && HashKey64 == key
        invariant MaxDepth[ComputerColor] <= 2 ==> TempHashTable == old(TempHashTable)
        invariant |list| == |moves| && |values| == i
        invariant Widening(w, Alpha, alpha, Beta, BestValue, BestOutcome(outcomes, true, i))
      {
        ghost var best0, alpha0, v0 := BestValue, alpha, BestOutcome(outcomes, true, i);
        var v := SearchMove(moves, i, alpha, Beta, Depth, true, LineTemp, r, g, key, outcomes);
        list := list[i := list[i].(LValue := v)];
        values := values + [v];
        if v > alpha {
          alpha := v;
        }
        if v > BestValue {
          BestValue := v;
        }
        if v > Beta || alpha >= THREAT - LargeDepth[ComputerColor] + 1 {
          BestOutcomeBound(outcomes, true, i, n);
          WideningCut(w, Alpha, alpha0, Beta, best0, v0, v, outcomes[i], BestOutcome(outcomes, true, n));
          return BestValue, true, list;
        }
        NextOutcome(outcomes, true, i);
        WideningStep(w, Alpha, alpha0, Beta, best0, v0, v, outcomes[i]);
      }
      WideningEnd(w, Alpha, alpha, Beta, BestValue, BestOutcome(outcomes, true, n));
      list := seq(|list|, i requires 0 <= i < |list| => list[i].(SValue := values[i]));
    }

    /** The steps of an expanded node, with their outcomes. */
    method ExpandNode(Depth: nat, mine: bool, con1: bool, con2: bool, SiCom: Line, SiPer: Line)
      returns (moves: seq<Step>, ghost outcomes: seq<int>)
      requires Ready() && Coherent() && Depth <= Limit(TheRules())
      requires TreeLegal(TheRules(), Board[..], HashKey64, Depth, mine)
      requires Judge(TheRules(), Board[..], Depth, mine) == Expand(con1, con2)
      requires SiCom == CoherentInfo(PreTable, Board[..], ComputerColor)
      requires SiPer == CoherentInfo(PreTable, Board[..], Next(ComputerColor))
      modifies Board
      ensures Board[..] == old(Board[..])
      ensures Depth < Limit(TheRules()) && AllLegal(TheRules(), Board[..], HashKey64, Depth, mine, moves)
      ensures AreOutcomes(TheRules(), Board[..], HashKey64, Depth, mine, moves, outcomes) && |outcomes| == |moves|
      ensures TreeValue(Depth, mine) == BestOutcome(outcomes, mine, |outcomes|)
    {
      hide Judge, MoveList, CoherentInfo, TreeLegal, AllLegal, AreOutcomes, BestOutcome, ScanAll;
      var own, rival := if mine then SiCom else SiPer, if mine then SiPer else SiCom;
      outcomes := ExpandedNode(TheRules(), Board[..], HashKey64, Depth, mine);
      moves := ListMoves(Depth, mine, con1, con2, own, rival);
    }

    /** The part of a node before its loop: the score of a decided node, or the steps to search. */
    method OpenNode(Depth: nat, mine: bool)
      returns (decided: bool, score: int, moves: seq<Step>, ghost outcomes: seq<int>)
      requires Ready() && Coherent() && Depth <= Limit(TheRules())
      requires TreeLegal(TheRules(), Board[..], HashKey64, Depth, mine)
      modifies Board, LineInfo
      ensures Board[..] == old(Board[..]) && LineInfo[..] == old(LineInfo[..])
      ensures decided ==> score == TreeValue(Depth, mine)
      ensures !decided ==>
                && Depth < Limit(TheRules()) && AllLegal(TheRules(), Board[..], HashKey64, Depth, mine, moves)
                && AreOutcomes(TheRules(), Board[..], HashKey64, Depth, mine, moves, outcomes) && |outcomes| == |moves|
                && TreeValue(Depth, mine) == BestOutcome(outcomes, mine, |outcomes|)
    {
      hide TreeLegal, AllLegal, AreOutcomes, BestOutcome, MoveList, Judge, CoherentInfo, ScanAll;
      var SiCom, SiPer := BothSides();
      var verdict := JudgeNode(Depth, mine, SiCom, SiPer);
      if verdict.Decided? {
        return true, verdict.value, [], [];
      }
      decided, score := false, 0;
      moves, outcomes := ExpandNode(Depth, mine, verdict.con1, verdict.con2, SiCom, SiPer);
    }

    /** The minimising search: the opponent of the engine is to move. */
    method MaxSearch(Alpha: int, Beta: int, Depth: nat) returns (BestValue: int)
      requires Searchable(Depth, false, Alpha, Beta)
      modifies `HashKey64, `TempHashTable, Board, LineInfo
      ensures Board[..] == old(Board[..]) && LineInfo[..] == old(LineInfo[..]) && HashKey64 == old(HashKey64)
      ensures MaxDepth[ComputerColor] <= 2 ==> TempHashTable == old(TempHashTable)
      ensures Approximates(WinBound(TheRules()), Alpha, Beta, TreeValue(Depth, false), BestValue)
      decreases Limit(TheRules()) - Depth, 3
    {
      hide Value, TreeLegal, AllLegal, AreOutcomes, BestOutcome;
      var decided, score, moves, outcomes := OpenNode(Depth, false);
      if decided {
        return score;
      }
      var pruning, list;
      BestValue, pruning, list := MaxLoop(moves, Alpha, Beta, Depth, TheRules(), Board[..], HashKey64, outcomes);
      Remember(Depth, pruning, list);
    }

    /** The maximising search: the engine is to move. */
    method MinSearch(Alpha: int, Beta: int, Depth: nat) returns (BestValue: int)
      requires Searchable(Depth, true, Alpha, Beta)
      modifies `HashKey64, `TempHashTable, Board, LineInfo
      ensures Board[..] == old(Board[..]) && LineInfo[..] == old(LineInfo[..]) && HashKey64 == old(HashKey64)
      ensures MaxDepth[ComputerColor] <= 2 ==> TempHashTable == old(TempHashTable)
      ensures Approximates(WinBound(TheRules()), Alpha, Beta, TreeValue(Depth, true), BestValue)
      decreases Limit(TheRules()) - Depth, 3
    {
      hide Value, TreeLegal, AllLegal, AreOutcomes, BestOutcome;
      var decided, score, moves, outcomes := OpenNode(Depth, true);
      if decided {
        return score;
      }
      var pruning, list;
      BestValue, pruning, list := MinLoop(moves, Alpha, Beta, Depth, TheRules(), Board[..], HashKey64, outcomes);
      Remember(Depth, pruning, list);
    }

    // ----- the choice at the root -----

    /** The steps behind a winning one score nothing. */
    method ZeroBehind(ghost moves: seq<Step>, before: seq<Step>, i: nat, ghost w: int) returns (list: seq<Step>)
      requires Scored(moves, before) && i < |before| && w > 0
      requires forall u :: 0 <= u < i ==> before[u].LValue < w
      ensures Scored(moves, list) && list[i].LValue == before[i].LValue
      ensures forall u :: 0 <= u < |list| && u != i ==> list[u].LValue < w
    {
      list := before;
      for j := i + 1 to |before|
        invariant Scored(moves, list) && list[i].LValue == before[i].LValue
        invariant forall u :: 0 <= u < j && u != i ==> list[u].LValue < w
      {
        list := list[j := list[j].(LValue := 0)];
      }
    }

    /** The loop over the root steps, narrowing from below only; a win ends it. */
    method RootLoop(moves: seq<Step>, ghost r: Rules, ghost g: Grid, ghost key: Word, ghost outcomes: seq<int>)
      returns (list: seq<Step>, won: bool, ghost at: nat, ghost alpha: int)
      requires Ready() && Coherent() && TheRules() == r && Board[..] == g && HashKey64 == key
      requires 0 < Limit(r) && AllLegal(r, g, key, 0, true, moves)
      requires AreOutcomes(r, g, key, 0, true, moves, outcomes) && |outcomes| == |moves|
      modifies `HashKey64, `TempHashTable, Board, LineInfo
      ensures Board[..] == old(Board[..]) && LineInfo[..] == old(LineInfo[..]) && HashKey64 == old(HashKey64)
      ensures MaxDepth[ComputerColor] <= 2 ==> TempHashTable == old(TempHashTable)
      ensures Scored(moves, list)
      ensures if won then WonAt(WinBound(r), outcomes, list, at)
              else Bounded(WinBound(r), outcomes, list, |list|, alpha) && alpha < WinBound(r)
    {
      hide AllLegal, AreOutcomes, ScanAll, TreeLegal, StepOutcome, CoherentInfo, BestOf, StrictlySorted, Bounded,
        WonAt, Approximates;
      var Alpha, Beta := -THREAT, THREAT;
      var LineTemp := new Line[SLOTS];
      list, won, at, alpha := moves, false, 0, Alpha;
      BoundedStart(WinBound(r), outcomes, list);
      for i := 0 to |moves|
        invariant TheRules() == r
        invariant Board[..] == g && LineInfo[..] == old(LineInfo[..]) && HashKey64 == key
        invariant MaxDepth[ComputerColor] <= 2 ==> TempHashTable == old(TempHashTable)
        invariant Scored(moves, list) && alpha == Alpha < WinBound(r)
        invariant Bounded(WinBound(r), outcomes, list, i, Alpha)
      {
        ghost var before, alpha0 := list, Alpha;
        var v := SearchMove(moves, i, Alpha, Beta, 0, true, LineTemp, r, g, key, outcomes);
        BoundedScores(WinBound(r), outcomes, list, i, Alpha);
        list := list[i := list[i].(LValue := v)];
        if v > Alpha {
          Alpha := v;
        }
        alpha := Alpha;
        if Alpha >= THREAT - LargeDepth[ComputerColor] + 1 {
          at, won := i, true;
          list := ZeroBehind(moves, list, i, WinBound(r));
          IsWonAt(WinBound(r), outcomes, list, i, alpha0);
          return;
        }
        BoundedNext(WinBound(r), outcomes, before, i, alpha0, v);
      }
    }

    /** Moves the steps that tie for the best score to the front, ordered by static value. */
    method LookForBestStep(list: seq<Step>) returns (r: seq<Step>, ghost n: nat)
      requires list != []
      ensures 0 < n <= |list| && r == Given.bySValueDown(list[..n]) + list[n..]
      ensures forall i :: 0 <= i < n ==> list[i].LValue == list[0].LValue
      ensures n == |list| || list[n].LValue != list[0].LValue
    {
      var value := list[0].LValue;
      var i := 0;
      while i < |list| && list[i].LValue == value
        invariant i <= |list| && forall u :: 0 <= u < i ==> list[u].LValue == value
      {
        i := i + 1;
      }
      n := i;
      r := Given.bySValueDown(list[..i]) + list[i..];
    }

    /** The history tables after the hand-over at the start of a search. */
    ghost function Released(): (t: Tables)
      reads `HashTable, `TempHashTable
      ensures forall u :: 0 <= u < 3 ==> t[u] == if TempHashTable[u] != [] then TempHashTable[u] else HashTable[u]
    {
      var temp, kept := TempHashTable, HashTable;
      seq(3, i requires 0 <= i < 3 => if temp[i] != [] then temp[i] else kept[i])
    }

    /** Hands the lists of the last search over to the next one. */
    method ReleaseHashTable()
      modifies `HashTable, `TempHashTable
      ensures HashTable == old(Released()) && TempHashTable == [[], [], []]
    {
      ghost var kept, temp, released := HashTable, TempHashTable, Released();
      assert forall u :: 0 <= u < 3 ==> released[u] == if temp[u] != [] then temp[u] else kept[u];
      for i := 0 to 3
        invariant forall u :: 0 <= u < 3 ==> HashTable[u] == if u < i then released[u] else kept[u]
        invariant forall u :: 0 <= u < 3 ==> TempHashTable[u] == if u < i then [] else temp[u]
      {
        if TempHashTable[i] != [] {
          HashTable := HashTable[i := TempHashTable[i]];
          TempHashTable := TempHashTable[i := []];
        }
      }
    }

    /** The steps the root has to choose from. */
    ghost function RootMoves(): seq<Step>
      requires Ready() && Coherent()
      reads this, Board, LineInfo
    {
      MoveList(TheRules(), Board[..], HashKey64, 0, true, false, false)
    }

    /** Sorting the scored steps and taking the first. */
    method PickStep(list: seq<Step>, won: bool, ghost w: int, ghost moves: seq<Step>, ghost outcomes: seq<int>,
                    ghost i: nat, ghost alpha: int)
      returns (step: Step, ghost at: nat)
      requires LawfulSorts(Given) && moves != [] && Scored(moves, list) && w <= THREAT + 1
      requires if won then WonAt(w, outcomes, list, i) else Bounded(w, outcomes, list, |list|, alpha)
      ensures PickedWell(w, moves, outcomes, at, step.LValue, won) && step == moves[at].(LValue := step.LValue)
    {
      hide Chosen, Scored, Bounded, WonAt, TrulyBest, LawfulSorts;
      LengthScored(moves, list);
      var sorted := Given.byLValueDown(list);
      SortedLength(Given, list);
      ghost var n: nat;
      sorted, n := LookForBestStep(sorted);
      FirstIsChosen(Given, list, n);
      step := sorted[0];
      if won {
        ChosenWins(w, moves, outcomes, list, i, step);
        at := i;
        WonBounds(w, outcomes, list, i);
        ScoredAt(moves, list, i);
      } else {
        at := PlaceOf(w, moves, outcomes, list, alpha, step);
      }
    }

    /** Searches all root steps and picks one: without a win the step with the greatest minimax
        value, ties going to the greatest static value; with a win cut-off a truly winning step. */
    method SearchRoot(SiCom: Line, SiPer: Line)
      returns (step: Step, won: bool, ghost moves: seq<Step>, ghost outcomes: seq<int>, ghost at: nat)
      requires Ready() && Coherent() && LawfulSorts(Given)
      requires SiCom == CoherentInfo(PreTable, Board[..], ComputerColor)
      requires SiPer == CoherentInfo(PreTable, Board[..], Next(ComputerColor))
      requires 0 < Limit(TheRules()) && RootMoves() != []
      requires AllLegal(TheRules(), Board[..], HashKey64, 0, true, RootMoves())
      modifies `HashKey64, `TempHashTable, Board, LineInfo
      ensures Board[..] == old(Board[..]) && LineInfo[..] == old(LineInfo[..]) && HashKey64 == old(HashKey64)
      ensures MaxDepth[ComputerColor] <= 2 ==> TempHashTable == old(TempHashTable)
      ensures moves == old(RootMoves()) && AreOutcomes(TheRules(), Board[..], HashKey64, 0, true, moves, outcomes)
      ensures PickedWell(WinBound(TheRules()), moves, outcomes, at, step.LValue, won)
      ensures step == moves[at].(LValue := step.LValue)
    {
      hide AllLegal, AreOutcomes, Chosen, Scored, Bounded, WonAt, TrulyBest, LawfulSorts, MoveList, ScanAll,
        CoherentInfo, LegalStep;
      ghost var r, w := TheRules(), WinBound(TheRules());
      moves := RootMoves();
      outcomes := Outcomes(r, Board[..], HashKey64, 0, true, moves);
      var steps := ListMoves(0, true, false, false, SiCom, SiPer);
      LengthOfOutcomes(r, Board[..], HashKey64, moves, outcomes);
      var list;
      ghost var i: nat, alpha: int;
      list, won, i, alpha := RootLoop(steps, r, Board[..], HashKey64, outcomes);
      step, at := PickStep(list, won, w, moves, outcomes, i, alpha);
    }

    // ----- winning at once -----

    /** Looks for two threat points whose stones show class 15 around one of them. The trial stones of pairs
        that do not win stay on the board, so only a win of the very first pair leaves the board unchanged. */
    method ConstructWinStep(pts: seq<Point>, side: Side) returns (found: bool, ghost i: nat, ghost j: nat, step: Step)
      requires Valid() && StrictlySorted(pts) && forall p <- pts :: OnBoard(p) && Free(Board[..], p)
      modifies Board
      ensures forall p <- pts :: OnBoard(p)
      ensures found <==> SomePairWins(PreTable, old(Board[..]), pts, side)
      ensures |pts| < 2 ==> !found
      ensures ThreatsInSight(PreTable, old(Board[..]), side, pts) ==> (found <==> |pts| >= 2)
      ensures found ==>
                && i < j < |pts| && step.First == pts[i] && step.Second == pts[j] && step.LValue == WINLOSE
                && IsFirstWin(PreTable, old(Board[..]), pts, side, i, j)
                && Board[..]
                == Put(Put(StonesOn(old(Board[..]), pts, side, Tried(|pts|, i, j)), pts[i], EMPTY), pts[j], EMPTY)
      ensures !found ==>
                && step.First.X == -1
                && Board[..] == StonesOn(old(Board[..]), pts, side, if |pts| >= 2 then |pts| else 0)
      ensures Board[..] == old(Board[..]) <==> |pts| < 2 || FirstPairWins(PreTable, old(Board[..]), pts, side)
    {
      hide WinsAt, StonesOn, Put, ThreatsInSight;
      ghost var g: Grid := Board[..];
      FoundFor(g, pts, side);
      i, j := 0, 0;
      NoStones(g, pts, side);
      for x := 0 to |pts|
        invariant Board[..] == StonesOn(g, pts, side, Tried(|pts|, x, x + 1))
        invariant x > 0 ==> !FirstPairWins(PreTable, g, pts, side)
        invariant forall u: nat, v: nat :: u < x ==> !WinsInTurn(PreTable, g, pts, side, u, v)
      {
        for y := x + 1 to |pts|
          invariant Board[..] == StonesOn(g, pts, side, Tried(|pts|, x, y))
          invariant x > 0 || y > 1 ==> !FirstPairWins(PreTable, g, pts, side)
          invariant forall v: nat :: v < y ==> !WinsInTurn(PreTable, g, pts, side, x, v)
        {
          var wins := TryWin(g, pts, x, y, side);
          if wins {
            OnlyFirstPairRestores(g, pts, side, x, y);
            TakeBackPair(StonesOn(g, pts, side, Tried(|pts|, x, y)), pts[x], pts[y], side);
            PutStone(pts[x], EMPTY);
            PutStone(pts[y], EMPTY);
            found, i, j := true, x, y;
            step := Step(pts[x], pts[y], ZERO, 0, WINLOSE);
            return;
          }
          TrialPair(g, pts, side, x, y);
        }
      }
      found, step := false, Step(Point(-1, 0), Point(0, 0), ZERO, 0, 0);
      if |pts| >= 2 {
        TrialsRemain(g, pts, side);
      }
    }

    /** For threat points in plain sight. */
    lemma FoundFor(g: Grid, pts: seq<Point>, side: Side)
      requires forall p <- pts :: OnBoard(p)
      ensures ThreatsInSight(PreTable, g, side, pts) ==> (SomePairWins(PreTable, g, pts, side) <==> |pts| >= 2)
    {
      hide *;
      if ThreatsInSight(PreTable, g, side, pts) {
        FoundExactly(PreTable, g, side, pts);
      }
    }

    method TryWin(ghost g: Grid, pts: seq<Point>, x: nat, y: nat, side: Side) returns (wins: bool)
      requires Valid() && x < y < |pts| && forall p <- pts :: OnBoard(p)
      requires Board[..] == StonesOn(g, pts, side, Tried(|pts|, x, y))
      modifies Board
      ensures OnBoard(pts[x]) && OnBoard(pts[y])
      ensures Board[..] == Put(Put(old(Board[..]), pts[x], side), pts[y], side)
      ensures wins <==> WinsInTurn(PreTable, g, pts, side, x, y)
      ensures x == 0 && y == 1 ==> (wins <==> FirstPairWins(PreTable, g, pts, side))
    {
      hide WinsAt, Put;
      assert pts[x] in pts && pts[y] in pts;
      PutStone(pts[x], side);
      PutStone(pts[y], side);
      wins := EitherWins(pts[x], pts[y], side);
    }

    // ----- trying whole steps -----

    /** Tries both stones of a step, refreshing numbers and lists from mode 2 on. */
    method TryStep(p: Point, q: Point, side: Side, LineTemp: array<Line>) returns (com: Line, per: Line)
      requires Valid() && Coherent() && LineTemp.Length == SLOTS && LineTemp != LineInfo
      requires Free(Board[..], p) && Free(Board[..], q)
      modifies Board, LineInfo, LineTemp
      ensures Board[..] == old(Board[..]) && LineInfo[..] == old(LineInfo[..])
      ensures com == StepInfo(PreTable, Board[..], p, q, side, side)
      ensures per == StepInfo(PreTable, Board[..], p, q, side, Next(side))
    {
      ghost var g: Grid, info: Cache, saved: Cache := Board[..], LineInfo[..], LineTemp[..];
      ghost var scanned: Cache := ScanAll(PreTable, PairGrid(g, p, q, side), 2);
      BackupLine(p, LineTemp, side, 2);
      BackupLine(p, LineTemp, Next(side), 2);
      BackupLine(q, LineTemp, side, 2);
      BackupLine(q, LineTemp, Next(side), 2);
      CopyBothPoints(saved, info, p, q, side, 2);
      PutStone(p, side);
      PutStone(q, side);
      UpdateLineForCross(p, side, 2);
      UpdateLineForCross(p, Next(side), 2);
      UpdateLineForCross(q, side, 2);
      UpdateLineForCross(q, Next(side), 2);
      CopyBothPoints(info, scanned, p, q, side, 2);
      com := GetAllLineInfor(side, 2);
      per := GetAllLineInfor(Next(side), 2);
      PutStone(p, EMPTY);
      PutStone(q, EMPTY);
      PutUndo(g, p, q, side);
      ghost var tried: Cache, kept: Cache := LineInfo[..], LineTemp[..];
      RecoverLine(p, LineTemp, side, 2);
      RecoverLine(p, LineTemp, Next(side), 2);
      RecoverLine(q, LineTemp, side, 2);
      RecoverLine(q, LineTemp, Next(side), 2);
      CopyBothPoints(tried, kept, p, q, side, 2);
      BackupUndoesRefresh(saved, info, scanned, [p, q], Modes(2, 2));
    }

    /** Corrects the static values of listed steps by what they threaten. */
    method AdjustStepValue(moves: seq<Step>, side: Side) returns (list: seq<Step>)
      requires Valid() && Coherent() && forall m <- moves :: LegalStep(Board[..], m)
      modifies Board, LineInfo
      ensures Board[..] == old(Board[..]) && LineInfo[..] == old(LineInfo[..])
      ensures |list| == |moves|
      ensures forall i :: 0 <= i < |moves| ==>
                list[i] == moves[i].(SValue := moves[i].SValue
                  + StepAdjustment(PreTable, Board[..], moves[i].First, moves[i].Second, side))
    {
      hide StepInfo, ScanAll;
      ghost var g: Grid := Board[..];
      var LineTemp := new Line[SLOTS];
      list := [];
      for i := 0 to |moves|
        invariant Board[..] == g && LineInfo[..] == old(LineInfo[..]) && |list| == i
        invariant forall u :: 0 <= u < i ==>
                    list[u] == moves[u].(SValue := moves[u].SValue
                      + StepAdjustment(PreTable, g, moves[u].First, moves[u].Second, side))
      {
        var m := moves[i];
        assert m in moves;
        var com, per := TryStep(m.First, m.Second, side, LineTemp);
        list := list + [m.(SValue := m.SValue + Adjustment(com, per))];
      }
    }

    // ----- the end of a game -----

    /** Whether six stones of one side stand in a row from `p` in direction `k`. */
    method SixFrom(p: Point, k: Angle, side: Side) returns (six: bool)
      requires Valid() && OnBoard(p) && OnBoard(Along(p, k, 5))
      ensures six <==> SixAt(Board[..], p, k, side)
    {
      hide SixAt, Along;
      SixUnrolled(Board[..], p, k, side);
      six := Board[Index(p)] == side && Board[Index(Along(p, k, 1))] == side && Board[Index(Along(p, k, 2))] == side
             && Board[Index(Along(p, k, 3))] == side && Board[Index(Along(p, k, 4))] == side
             && Board[Index(Along(p, k, 5))] == side;
    }

    /** The double loop over the starting cells of one direction. */
    method SixInDirection(k: Angle, xs: nat, y0: nat, ys: nat, side: Side) returns (six: bool)
      requires Valid() && xs <= 19 && y0 <= ys <= 19
      requires forall x, y :: 0 <= x < xs && y0 <= y < ys ==> OnBoard(Along(Point(x, y), k, 5))
      ensures six <==> SixIn(Board[..], k, xs, y0, ys, side)
    {
      hide SixAt;
      for x := 0 to xs
        invariant forall u, v :: 0 <= u < x && y0 <= v < ys ==> !SixAt(Board[..], Point(u, v), k, side)
      {
        for y := y0 to ys
          invariant forall v :: y0 <= v < y ==> !SixAt(Board[..], Point(x, v), k, side)
        {
          var found := SixFrom(Point(x, y), k, side);
          if found {
            return true;
          }
        }
      }
      six := false;
    }

    /** The game is won exactly when six stones of the side stand in a row somewhere. */
    method WinOrLose(side: Side) returns (r: int)
      requires Valid()
      ensures r == (if SixInARow(Board[..], side) then WINLOSE else 0)
    {
      hide SixIn, SixInARow;
      ByDirection(Board[..], side);
      Starts();
      var six := SixInDirection(2, 19, 0, 14, side);
      if !six {
        six := SixInDirection(0, 14, 0, 19, side);
      }
      if !six {
        six := SixInDirection(1, 14, 5, 19, side);
      }
      if !six {
        six := SixInDirection(3, 14, 0, 14, side);
      }
      r := if six then WINLOSE else 0;
    }

    // ----- the engine's reply -----

    /** The first stone of the board, column by column. */
    method FirstStone() returns (p: Point)
      requires Valid() && exists q :: OnBoard(q) && !Free(Board[..], q)
      ensures OnBoard(p) && IsFirstStone(Board[..], p)
    {
      var i, j := 0, 0;
      var look := false;
      while i < 19 && !look
        invariant i <= 19 && 0 <= j <= 19
        invariant look ==> i < 19 && j < 19 && Board[Index(Point(i, j))] != EMPTY
        invariant forall q :: OnBoard(q) && (q.X < i || (look && q.X == i && q.Y < j)) ==> Free(Board[..], q)
        decreases 19 - i, !look
      {
        j := 0;
        while j < 19 && !look
          invariant 0 <= j <= 19
          invariant look ==> j < 19 && Board[Index(Point(i, j))] != EMPTY
          invariant forall q :: OnBoard(q) && (q.X < i || (q.X == i && q.Y < j)) ==> Free(Board[..], q)
          decreases 19 - j, !look
        {
          if Board[Index(Point(i, j))] != EMPTY {
            look := true;
          } else {
            j := j + 1;
          }
        }
        if !look {
          i := i + 1;
        }
      }
      p := Point(i, j);
      assert look;
    }

    /** The engine's first reply to an opening stone away from the centre: its two neighbours towards
        the middle of the board. */
    method ConStrangeStep() returns (step: Step)
      requires Valid() && exists p :: OnBoard(p) && !Free(Board[..], p)
      ensures OnBoard(step.First) && OnBoard(step.Second) && step.First != step.Second
      ensures IsOpeningReply(Board[..], step)
    {
      hide At, Free, IsFirstStone;
      var p := FirstStone();
      var i, j := p.X, p.Y;
      if i <= 9 && j <= 9 {
        step := Step(Point(i + 1, j), Point(i, j + 1), ZERO, 0, 0);
      } else if i <= 9 && j >= 9 {
        step := Step(Point(i, j - 1), Point(i + 1, j), ZERO, 0, 0);
      } else if i >= 9 && j <= 9 {
        step := Step(Point(i - 1, j), Point(i, j + 1), ZERO, 0, 0);
      } else {
        step := Step(Point(i - 1, j), Point(i, j - 1), ZERO, 0, 0);
      }
    }

    /** The rules of the next root search: on the second step of the engine it is shallower. */
    ghost function RootRules(): Rules
      reads `ComputerColor, `MaxDepth, `LargeDepth, `HashTable, `TempHashTable, `ComToCom, `StepID
    {
      TheRules().(largeDepth := if StepID == 2 then 5 else LargeDepth[ComputerColor], history := Released())
    }

    ghost function ReplyBy(): ReplyKind
      requires Valid()
      reads this, Board
    {
      if StepID == 1 && At(Board[..], Point(9, 9)) == EMPTY then Opening
      else if CoherentInfo(PreTable, Board[..], ComputerColor).ThreatNum > 0 then Winning
      else Searched
    }

    /** What the source takes for granted when it picks the first step of the root list. */
    ghost predicate RootIsSearchable()
      requires Valid()
      reads `ComputerColor, `MaxDepth, `LargeDepth, `HashTable, `TempHashTable, `ComToCom, `StepID
      reads `HashKey64, Board
    {
      var r := RootRules();
      var moves := MoveList(r, Board[..], HashKey64, 0, true, false, false);
      0 < Limit(r) && moves != [] && AllLegal(r, Board[..], HashKey64, 0, true, moves)
    }

    /** The depth settings for the next reply: one step shallower after a win, as a byte. */
    method ResetDepths()
      requires Ready()
      modifies `MaxDepth, `LargeDepth
      ensures MaxDepth[Next(ComputerColor)] == old(MaxDepth[Next(ComputerColor)])
      ensures var large, nominal := old(LargeDepth[ComputerColor]), old(MaxDepth[ComputerColor]);
              && MaxDepth[ComputerColor] == (if !WillWin then MaxDepthBackUp
                                             else if large <= nominal then LessTwo(nominal) else nominal)
              && LargeDepth[ComputerColor] == (if StepID == 2 then 9
                                               else if WillWin then LessTwo(large) else LargeDepthBackUp)
      ensures BackUpsFit() ==>
                (Ready() <==> !(WillWin && old(LargeDepth[ComputerColor]) <= old(MaxDepth[ComputerColor]) < 2))
      ensures BackUpsFit() && old(MaxDepth[ComputerColor]) <= 2 && Ready() ==> MaxDepth[ComputerColor] <= 2
    {
      var me, large, nominal := ComputerColor, LargeDepth[ComputerColor], MaxDepth[ComputerColor];
      if WillWin {
        if large <= nominal {
          LargeDepth := LargeDepth[me := LessTwo(large)];
          MaxDepth := MaxDepth[me := LessTwo(nominal)];
        } else {
          LargeDepth := LargeDepth[me := LessTwo(large)];
        }
      } else {
        var nominalBackUp: nat, largeBackUp: nat := MaxDepthBackUp, LargeDepthBackUp;
        MaxDepth := MaxDepth[me := nominalBackUp];
        LargeDepth := LargeDepth[me := largeBackUp];
      }
      if StepID == 2 {
        LargeDepth := LargeDepth[me := 9];
      }
    }

    /** The depth settings kept for later are themselves usable. */
    ghost predicate BackUpsFit()
      reads `MaxDepthBackUp, `LargeDepthBackUp
    {
      MaxDepthBackUp <= 2 && LargeDepthBackUp < 256
    }

    /** The nominal depth is too small for any list to be remembered, and none is. */
    ghost predicate Quiet()
      reads `MaxDepth, `ComputerColor, `HashTable, `TempHashTable
    {
      MaxDepth[ComputerColor] <= 2 && HashTable == [[], [], []] && TempHashTable == [[], [], []]
    }

    /** With nothing remembered the root only has to have a step at all. */
    lemma QuietRootIsSearchable()
      requires Ready() && Quiet() && LawfulSorts(Given) && LegalGenerators(Given)
      ensures RootIsSearchable() <==>
                0 < Limit(RootRules()) && MoveList(RootRules(), Board[..], HashKey64, 0, true, false, false) != []
    {
      hide MoveList, AllLegal, LawfulSorts, LegalGenerators;
      ghost var empty: Tables := [[], [], []];
      assert Released() == empty;
      if 0 < Limit(RootRules()) {
        RootIsLegal(RootRules(), Board[..], HashKey64);
      }
    }

    /** The search part of a reply, up to the step that is returned. */
    method SearchFor(SiCom: Line, SiPer: Line) returns (step: Step)
      requires Ready() && Coherent() && LawfulSorts(Given) && RootIsSearchable()
      requires SiCom == CoherentInfo(PreTable, Board[..], ComputerColor)
      requires SiPer == CoherentInfo(PreTable, Board[..], Next(ComputerColor))
      modifies `HashKey64, `TempHashTable, `HashTable, `LargeDepth, `WillWin, Board, LineInfo
      ensures LineInfo[..] == old(LineInfo[..]) && HashKey64 == old(HashKey64) && Board[..] == old(Board[..])
      ensures GoodReply(old(RootRules()), Board[..], HashKey64, WillWin, step) && LegalStep(Board[..], step)
      ensures LargeDepth == (if StepID == 2 then old(LargeDepth)[ComputerColor := 5] else old(LargeDepth))
      ensures HashTable == old(Released()) && (MaxDepth[ComputerColor] <= 2 ==> TempHashTable == [[], [], []])
    {
      hide MoveList, AllLegal, AreOutcomes, CoherentInfo, ScanAll, TrulyBest, LawfulSorts, GoodReplyBy, GoodReply;
      ghost var r := RootRules();
      if StepID == 2 {
        LargeDepth := LargeDepth[ComputerColor := 5];
      }
      ReleaseHashTable();
      assert TheRules() == r;
      ghost var moves, outcomes, at;
      step, WillWin, moves, outcomes, at := SearchRoot(SiCom, SiPer);
      ghost var value := step.LValue;
      LegalMember(r, Board[..], HashKey64, moves, at);
      if step.LValue <= -THREAT {
        step := step.(LValue := -WINLOSE);
      }
      IsGoodReply(r, Board[..], HashKey64, WillWin, step, moves, outcomes, at, value);
    }

    /** The search part of a reply, with the depth settings before and after it. */
    method SearchReply(SiCom: Line, SiPer: Line) returns (step: Step)
      requires Ready() && Coherent() && LawfulSorts(Given) && RootIsSearchable()
      requires SiCom == CoherentInfo(PreTable, Board[..], ComputerColor)
      requires SiPer == CoherentInfo(PreTable, Board[..], Next(ComputerColor))
      modifies `HashKey64, `TempHashTable, `HashTable, `MaxDepth, `LargeDepth, `WillWin, Board, LineInfo
      ensures LineInfo[..] == old(LineInfo[..]) && HashKey64 == old(HashKey64) && Board[..] == old(Board[..])
      ensures GoodReply(old(RootRules()), Board[..], HashKey64, WillWin, step) && LegalStep(Board[..], step)
      ensures BackUpsFit() ==>
                var large, nominal := old(LargeDepth[ComputerColor]), old(MaxDepth[ComputerColor]);
                (Ready() <==> !(WillWin && LastSearchShallow(StepID, large, nominal)))
      ensures BackUpsFit() && old(Quiet()) && Ready() ==> Quiet()
    {
      hide RootRules, GoodReply, LegalStep, CoherentInfo, LawfulSorts, RootIsSearchable, ScanAll;
      ghost var empty: Tables := [[], [], []];
      if Quiet() {
        assert Released() == empty;
      }
      step := SearchFor(SiCom, SiPer);
      ResetDepths();
    }

    /** The reply to threats of its own. */
    method WinReply(SiCom: Line) returns (step: Step, found: bool)
      requires Valid() && SiCom == CoherentInfo(PreTable, Board[..], ComputerColor)
      modifies Board
      ensures forall p <- SiCom.ThreatPoint :: OnBoard(p)
      ensures found <==> SomePairWins(PreTable, old(Board[..]), SiCom.ThreatPoint, ComputerColor)
      ensures found ==> OnBoard(step.First) && OnBoard(step.Second)
      ensures Board[..] == old(Board[..]) <==>
                |SiCom.ThreatPoint| < 2 || FirstPairWins(PreTable, old(Board[..]), SiCom.ThreatPoint, ComputerColor)
    {
      hide CoherentInfo, FirstPairWins, SomePairWins, IsFirstWin, ThreatsInSight, StonesOn, Put;
      CoherentInfoThreats(PreTable, Board[..], ComputerColor);
      ghost var i, j;
      found, i, j, step := ConstructWinStep(SiCom.ThreatPoint, ComputerColor);
    }

    /** The engine's reply. Only a reply by ConstructWinStep may disturb the board. */
    method ComputerMove() returns (step: Step, found: bool)
      requires Ready() && Coherent() && LawfulSorts(Given)
      requires ReplyBy() == Opening ==> exists p :: OnBoard(p) && !Free(Board[..], p)
      requires ReplyBy() == Searched ==> RootIsSearchable()
      modifies this, Board, LineInfo
      ensures LineInfo[..] == old(LineInfo[..]) && HashKey64 == old(HashKey64)
      ensures StepID == old(StepID) && Player == old(Player) && GameStart == old(GameStart) && ComToCom == old(ComToCom)
      ensures ComputerColor == old(ComputerColor)
      ensures MaxDepthBackUp == old(MaxDepthBackUp) && LargeDepthBackUp == old(LargeDepthBackUp)
      ensures old(ReplyBy()) != Winning ==>
                found && Board[..] == old(Board[..]) && OnBoard(step.First) && OnBoard(step.Second)
      ensures old(ReplyBy()) == Opening ==> IsOpeningReply(Board[..], step)
      ensures old(ReplyBy()) == Searched ==>
                GoodReply(old(RootRules()), Board[..], HashKey64, WillWin, step) && LegalStep(Board[..], step)
      ensures BackUpsFit() ==>
                var large, nominal := old(LargeDepth[ComputerColor]), old(MaxDepth[ComputerColor]);
                (Ready() <==> !(WillWin && LastSearchShallow(StepID, large, nominal)))
      ensures BackUpsFit() && old(Quiet()) && Ready() ==> Quiet()
      ensures old(ReplyBy()) == Winning ==>
                var pts := CoherentInfo(PreTable, old(Board[..]), ComputerColor).ThreatPoint;
                && (forall p <- pts :: OnBoard(p))
                && (found <==> SomePairWins(PreTable, old(Board[..]), pts, ComputerColor))
                && (found ==> OnBoard(step.First) && OnBoard(step.Second))
                && (Board[..] == old(Board[..]) <==>
                    |pts| < 2 || FirstPairWins(PreTable, old(Board[..]), pts, ComputerColor))
    {
      hide CoherentInfo, MoveList, AllLegal, ScanAll, FirstPairWins, SomePairWins, IsFirstWin, ThreatsInSight, StonesOn,
        GoodReply, LawfulSorts, IsOpeningReply, LastSearchShallow, BackUpsFit;
      var SiCom, SiPer := BothSides();
      WillWin := false;
      if StepID == 1 && Board[Index(Point(9, 9))] == EMPTY {
        step := ConStrangeStep();
        return step, true;
      }
      if SiCom.ThreatNum > 0 {
        step, found := WinReply(SiCom);
        return;
      }
      step := SearchReply(SiCom, SiPer);
      found := true;
    }

    // ----- a whole game -----

    constructor (table: Table, keys: Keys, given: Oracle)
      ensures Valid() && PreTable == table && HashBoard == keys && Given == given
      ensures fresh(Board) && fresh(LineInfo)
    {
      PreTable, HashBoard, Given := table, keys, given;
      Board := new Cell[BOARD_CELLS](_ => EMPTY);
      LineInfo := new Line[SLOTS](_ => ZERO_LINE);
      HashKey64, ComputerColor, ComToCom := ZERO, 0, false;
      MaxDepth, LargeDepth, MaxDepthBackUp, LargeDepthBackUp := [0, 0], [0, 0], 0, 0;
      HashTable, TempHashTable := [[], [], []], [[], [], []];
      StepID, Player, GameStart, WillWin := 0, 0, false, false;
    }

    /** The inner loop over the cells of column `i`. */
    method InitColumn(i: int)
      requires Valid() && 0 <= i < 19
      modifies Board
      ensures forall c :: 0 <= c < BOARD_CELLS ==>
                Board[c] == if 19 * i <= c < 19 * i + 19 then EMPTY else old(Board[c])
    {
      ghost var g: Grid, lo := Board[..], 19 * i;
      for j := 0 to 19
        invariant forall c :: lo <= c < lo + j ==> Board[c] == EMPTY
        invariant forall c :: 0 <= c < lo || lo + j <= c < BOARD_CELLS ==> Board[c] == g[c]
      {
        assert Index(Point(i, j)) == lo + j;
        Board[Index(Point(i, j))] := EMPTY;
      }
    }

    method InitBoard()
      requires Valid()
      modifies Board
      ensures Board[..] == EmptyGrid()
    {
      for i := 0 to 19
        invariant forall c :: 0 <= c < 19 * i ==> Board[c] == EMPTY
      {
        InitColumn(i);
      }
    }

    method InitLineInfo()
      requires Valid()
      modifies LineInfo
      ensures LineInfo[..] == seq(SLOTS, _ => ZERO_LINE)
    {
      for i := 0 to 2
        invariant forall c :: 0 <= c < 92 * i ==> LineInfo[c] == ZERO_LINE
      {
        for j := 0 to LINES
          invariant forall c :: 0 <= c < 92 * i + j ==> LineInfo[c] == ZERO_LINE
        {
          LineInfo[92 * i + j] := ZERO_LINE;
        }
      }
    }

    /** A new game; the zeroed cache is right as long as the table finds nothing on empty lines. */
    method InitGame()
      requires Valid() && QuietWhenEmpty(PreTable)
      modifies this, Board, LineInfo
      ensures Now() == Start() && Coherent()
      ensures HashTable == [[], [], []] && TempHashTable == [[], [], []]
      ensures StepID == 0 && Player == 0 && !GameStart && !WillWin && !ComToCom
      ensures ComputerColor == old(ComputerColor) && MaxDepth == old(MaxDepth) && LargeDepth == old(LargeDepth)
    {
      hide QuietWhenEmpty, ScanAll;
      HashTable, TempHashTable := [[], [], []], [[], [], []];
      HashKey64, Player, StepID := ZERO, 0, 0;
      GameStart, WillWin, ComToCom := false, false, false;
      InitBoard();
      InitLineInfo();
      EmptyBoardIsZero(PreTable);
    }

    /** A game of the engine as white (mode 1) or as black (mode 2). */
    method StartGame(mode: int)
      requires Valid() && QuietWhenEmpty(PreTable) && mode in {1, 2}
      modifies this, Board, LineInfo
      ensures Now() == Start() && Coherent()
      ensures HashTable == [[], [], []] && TempHashTable == [[], [], []]
      ensures StepID == 0 && Player == 0 && GameStart && !ComToCom && ComputerColor == (if mode == 1 then 1 else 0)
      ensures Ready() && MaxDepth[ComputerColor] == MaxDepthBackUp == 1
              && LargeDepth[ComputerColor] == LargeDepthBackUp == 11
    {
      hide QuietWhenEmpty, ScanAll, EmptyGrid;
      InitGame();
      GameStart, MaxDepthBackUp, LargeDepthBackUp := true, 1, 11;
      if mode == 1 {
        ComputerColor := 1;
        MaxDepth := MaxDepth[1 := 1];
        LargeDepth := LargeDepth[1 := 11];
      } else if mode == 2 {
        ComputerColor := 0;
        MaxDepth := MaxDepth[0 := 1];
        LargeDepth := LargeDepth[0 := 11];
      }
    }

    /** Puts the stones of a step to stay and brings hash and cache up to date. */
    method PlayStep(first: Point, second: Point, side: Side)
      requires Valid() && OnBoard(first) && (OnBoard(second) || second.X == -1)
      modifies `HashKey64, Board, LineInfo
      ensures Now() == Played(PreTable, HashBoard, old(Now()), Play(first, second, side))
      ensures old(Coherent()) ==> Coherent()
    {
      hide ScanAll;
      ghost var g: Grid := Board[..];
      PutStone(first, side);
      if second.X != -1 {
        PutStone(second, side);
      }
      assert Board[..] == Put(Put(g, first, side), second, side);
      UpdateBoard(first, second, side);
      RefreshIsCoherent(PreTable, g, first, side, second, side);
    }

    /** The opponent's step, taken as it comes: cells on the board, not necessarily free or distinct. */
    method HumanMove(first: Point, second: Point, side: Side)
      requires Valid() && OnBoard(first) && OnBoard(second)
      modifies `HashKey64, `Player, `StepID, Board, LineInfo
      ensures Now() == Played(PreTable, HashBoard, old(Now()), Play(first, second, side))
      ensures old(Coherent()) ==> Coherent()
      ensures Player == Next(old(Player)) && StepID == old(StepID) + 1
    {
      PlayStep(first, second, side);
      Player := Next(Player);
      StepID := StepID + 1;
    }

    /** The engine's opening stone, or its reply, played on the board. After a reply that was not
        looked for by ConstructWinStep, or that was won by its first pair, cache and hash follow. */
    method ComputerReply() returns (step: Step)
      requires Ready() && Coherent() && LawfulSorts(Given)
      requires StepID != 0 ==>
                 && (ReplyBy() == Opening ==> exists p :: OnBoard(p) && !Free(Board[..], p))
                 && (ReplyBy() == Searched ==> RootIsSearchable())
                 && (ReplyBy() == Winning ==> WinIsFound())
      modifies this, Board, LineInfo
      ensures Player == Next(old(Player)) && StepID == old(StepID) + 1
      ensures ComputerColor == old(ComputerColor) && ComToCom == old(ComToCom)
      ensures old(StepID) == 0 ==>
                && step.First == Point(9, 9) && Coherent()
                && Now() == Played(PreTable, HashBoard, old(Now()), Play(Point(9, 9), Point(-1, -1), 0))
      ensures old(StepID) != 0 ==> OnBoard(step.First) && OnBoard(step.Second)
      ensures old(StepID) != 0 && old(ReplyBy()) != Winning ==>
                && Coherent()
                && Now() == Played(PreTable, HashBoard, old(Now()), Play(step.First, step.Second, ComputerColor))
      ensures old(StepID) != 0 && old(ReplyBy()) == Opening ==> IsOpeningReply(old(Board[..]), step)
      ensures old(StepID) != 0 && old(ReplyBy()) == Searched ==>
                && GoodReply(old(RootRules()), old(Board[..]), old(HashKey64), WillWin, step)
                && LegalStep(old(Board[..]), step)
      ensures old(StepID) != 0 && old(ReplyBy()) == Winning && old(FirstPairIsWin()) ==>
                && Coherent()
                && Now() == Played(PreTable, HashBoard, old(Now()), Play(step.First, step.Second, ComputerColor))
      ensures GameStart <==> old(GameStart) && !SixInARow(Board[..], 0) && !SixInARow(Board[..], 1)
      ensures MaxDepthBackUp == old(MaxDepthBackUp) && LargeDepthBackUp == old(LargeDepthBackUp)
      ensures var large, nominal := old(LargeDepth[ComputerColor]), old(MaxDepth[ComputerColor]);
              BackUpsFit() && !(old(StepID) != 0 && WillWin && LastSearchShallow(old(StepID), large, nominal)) ==>
                Ready() && (old(Quiet()) ==> Quiet())
    {
      hide CoherentInfo, MoveList, AllLegal, ScanAll, FirstPairIsWin, RootIsSearchable, WinIsFound, GoodReply,
        LawfulSorts, SixInARow, RootRules, Played, IsOpeningReply;
      if StepID == 0 {
        step := Step(Point(9, 9), Point(-1, -1), ZERO, 0, 0);
        PlayStep(step.First, step.Second, 0);
      } else {
        step := PlayReply();
      }
      EndTurn();
    }

    /** The engine's reply after the opening, played on the board. */
    method PlayReply() returns (step: Step)
      requires Ready() && Coherent() && LawfulSorts(Given)
      requires ReplyBy() == Opening ==> exists p :: OnBoard(p) && !Free(Board[..], p)
      requires ReplyBy() == Searched ==> RootIsSearchable()
      requires ReplyBy() == Winning ==> WinIsFound()
      modifies this, Board, LineInfo
      ensures OnBoard(step.First) && OnBoard(step.Second)
      ensures StepID == old(StepID) && Player == old(Player) && GameStart == old(GameStart)
      ensures MaxDepthBackUp == old(MaxDepthBackUp) && LargeDepthBackUp == old(LargeDepthBackUp)
      ensures BackUpsFit() ==>
                var large, nominal := old(LargeDepth[ComputerColor]), old(MaxDepth[ComputerColor]);
                (Ready() <==> !(WillWin && LastSearchShallow(StepID, large, nominal)))
      ensures BackUpsFit() && old(Quiet()) && Ready() ==> Quiet()
      ensures ComputerColor == old(ComputerColor) && ComToCom == old(ComToCom)
      ensures old(ReplyBy()) != Winning ==>
                && Coherent()
                && Now() == Played(PreTable, HashBoard, old(Now()), Play(step.First, step.Second, ComputerColor))
      ensures old(ReplyBy()) == Opening ==> IsOpeningReply(old(Board[..]), step)
      ensures old(ReplyBy()) == Searched ==>
                && GoodReply(old(RootRules()), old(Board[..]), old(HashKey64), WillWin, step)
                && LegalStep(old(Board[..]), step)
      ensures old(ReplyBy()) == Winning && old(FirstPairIsWin()) ==>
                && Coherent()
                && Now() == Played(PreTable, HashBoard, old(Now()), Play(step.First, step.Second, ComputerColor))
    {
      hide CoherentInfo, MoveList, AllLegal, ScanAll, FirstPairWins, WinsInTurn, StonesOn, GoodReply, LawfulSorts,
        RootIsSearchable, RootRules, Played, IsOpeningReply;
      var found;
      step, found := ComputerMove();
      PlayStep(step.First, step.Second, ComputerColor);
    }

    /** The turn passes, and the game is over when either side has six in a row. */
    method EndTurn()
      requires Valid()
      modifies `Player, `StepID, `GameStart
      ensures Player == Next(old(Player)) && StepID == old(StepID) + 1
      ensures GameStart <==> old(GameStart) && !SixInARow(Board[..], 0) && !SixInARow(Board[..], 1)
    {
      hide SixInARow;
      Player := Next(Player);
      StepID := StepID + 1;
      var black := WinOrLose(0);
      if black == WINLOSE {
        GameStart := false;
      }
      var white := WinOrLose(1);
      if white == WINLOSE {
        GameStart := false;
      }
    }

    /** ConstructWinStep will find a pair. */
    ghost predicate WinIsFound()
      requires Valid()
      reads this, Board
    {
      CoherentInfoThreats(PreTable, Board[..], ComputerColor);
      var pts := CoherentInfo(PreTable, Board[..], ComputerColor).ThreatPoint;
      SomePairWins(PreTable, Board[..], pts, ComputerColor)
    }

    /** With no threat point on the edge that takes two threat points, whatever they are. */
    lemma WinIsFoundExactly(pts: seq<Point>)
      requires Valid() && ThreatsInSight(PreTable, Board[..], ComputerColor, pts)
      ensures WinIsFound() <==> |pts| >= 2
    {
      hide CoherentInfo, SomePairWins;
      FoundExactly(PreTable, Board[..], ComputerColor, pts);
    }

    /** The very first pair of threat points wins. */
    ghost predicate FirstPairIsWin()
      requires Valid()
      reads this, Board
    {
      CoherentInfoThreats(PreTable, Board[..], ComputerColor);
      FirstPairWins(PreTable, Board[..], CoherentInfo(PreTable, Board[..], ComputerColor).ThreatPoint, ComputerColor)
    }
  }
}
