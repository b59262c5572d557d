/** Blocking the threat points of a side: what the test of the code decides, and what holds on the board. */
module Blocking {
  import opened Geometry
  import opened Shape
  import opened LineScan
  import opened LineCache
  import opened Threats
  import opened Completion

  // ----- blocking completions -----

  ghost predicate OneStoneCompletes(t: Table, g: Grid, pts: seq<Point>, x: nat, side: Side)
    requires x < |pts| && forall p <- pts :: OnBoard(p)
  {
    assert pts[x] in pts;
    CompletesAt(t, Put(g, pts[x], side), pts[x], side)
  }

  ghost predicate TwoStonesComplete(t: Table, g: Grid, pts: seq<Point>, x: nat, y: nat, side: Side)
    requires x < |pts| && y < |pts| && forall p <- pts :: OnBoard(p)
  {
    assert pts[x] in pts && pts[y] in pts;
    var g2 := Put(Put(g, pts[x], side), pts[y], side);
    CompletesAt(t, g2, pts[x], side) || CompletesAt(t, g2, pts[y], side)
  }

  /** With opponent stones on points `i` and `j`, no one or two stones on the other points complete a
      segment of class 15 on any line of the board through them. */
  ghost predicate BlocksTruly(t: Table, g: Grid, pts: seq<Point>, i: nat, j: nat, side: Side)
    requires i < |pts| && j < |pts| && forall p <- pts :: OnBoard(p)
  {
    var h := Put(Put(g, pts[i], Next(side)), pts[j], Next(side));
    && (forall x :: 0 <= x < |pts| && x != i && x != j ==> !OneStoneCompletes(t, h, pts, x, side))
    && (forall x, y :: 0 <= x < y < |pts| && x != i && x != j && y != i && y != j ==>
          !TwoStonesComplete(t, h, pts, x, y, side))
  }

  ghost predicate TrulyBlockedByOne(t: Table, g: Grid, pts: seq<Point>, side: Side)
    requires forall p <- pts :: OnBoard(p)
  {
    exists i :: 0 <= i < |pts| && BlocksTruly(t, g, pts, i, i, side)
  }

  ghost predicate TrulyBlockedByTwo(t: Table, g: Grid, pts: seq<Point>, side: Side)
    requires forall p <- pts :: OnBoard(p)
  {
    exists i, j :: 0 <= i < j < |pts| && BlocksTruly(t, g, pts, i, j, side)
  }

  // ----- what two blocking stones let the test see -----

  /** The empty board with the two blocking stones against a side. */
  function TwoBlocks(q: Point, r: Point, side: Side): Grid {
    Put(Put(EmptyGrid(), q, Next(side)), r, Next(side))
  }

  /** The blocking stones on `q` and `r` cut off whatever would not be seen of the lines of `p`. */
  ghost predicate Watched(p: Point, q: Point, r: Point, side: Side)
    requires OnBoard(p)
  {
    forall k: Angle :: SeesWhole(TwoBlocks(q, r, side), p, k, side)
  }

  /** More opponent stones only shorten a stretch. */
  lemma StretchShrinks(g: Grid, h: Grid, p: Point, k: Angle, side: Side)
    requires OnBoard(p) && At(g, p) != Next(side) && At(h, p) != Next(side)
    requires forall u :: OnBoard(u) && At(g, u) == Next(side) ==> At(h, u) == Next(side)
    ensures StretchLo(g, p, k, side) <= StretchLo(h, p, k, side) <= LinePosition(p, k)
    ensures LinePosition(p, k) < StretchHi(h, p, k, side) <= StretchHi(g, p, k, side)
  {
    hide LinePosition, StretchLo, StretchHi, At, WholeLine;
    StretchSurrounds(g, p, k, side);
    StretchSurrounds(h, p, k, side);
    SameLine(g, p, k);
    SameLine(h, p, k);
    SurroundedShrinks(WholeLine(g, p, k), WholeLine(h, p, k), side, LinePosition(p, k), StretchLo(g, p, k, side),
                      StretchHi(g, p, k, side), StretchLo(h, p, k, side), StretchHi(h, p, k, side));
  }

  /** The cells of the whole line through a point are its cells on the board. */
  lemma SameLine(g: Grid, p: Point, k: Angle)
    requires OnBoard(p)
    ensures var start, cells := StartPoint(p, k), WholeLine(g, p, k);
            |cells| == RayLen(start, k)
            && forall i :: 0 <= i < |cells| ==> OnBoard(Along(start, k, i)) && cells[i] == At(g, Along(start, k, i))
  {
    hide At, StartPoint, LinePosition, RayLen, Along;
  }

  lemma SurroundedShrinks(g: seq<Cell>, h: seq<Cell>, side: Side, o: nat, lo: nat, hi: nat, lo2: nat, hi2: nat)
    requires |g| == |h| && forall i :: 0 <= i < |g| && g[i] == Next(side) ==> h[i] == Next(side)
    requires SurroundedBy(g, side, o, lo, hi) && SurroundedBy(h, side, o, lo2, hi2)
    ensures lo <= lo2 && hi2 <= hi
  {
    assert lo == 0 || h[lo - 1] == Next(side);
    assert hi == |g| || h[hi] == Next(side);
  }

  lemma SeesShorter(g: Grid, h: Grid, p: Point, k: Angle, side: Side)
    requires OnBoard(p) && At(g, p) != Next(side) && At(h, p) != Next(side) && SeesWhole(g, p, k, side)
    requires forall u :: OnBoard(u) && At(g, u) == Next(side) ==> At(h, u) == Next(side)
    ensures SeesWhole(h, p, k, side)
  {
    hide LinePosition, StretchLo, StretchHi, At;
    StretchShrinks(g, h, p, k, side);
  }

  lemma TwoBlocksAt(q: Point, r: Point, side: Side, u: Point)
    requires OnBoard(q) && OnBoard(r) && OnBoard(u)
    ensures At(TwoBlocks(q, r, side), u) == if u == q || u == r then Next(side) else EMPTY
  {
    hide Put, At;
    PutAt(EmptyGrid(), q, Next(side), u);
    PutAt(Put(EmptyGrid(), q, Next(side)), r, Next(side), u);
    assert At(EmptyGrid(), u) == EMPTY by {
      EmptyLine(u, 0);
    }
  }

  /** On any board with the two blocking stones. */
  lemma WatchedIsSeen(g: Grid, p: Point, q: Point, r: Point, k: Angle, side: Side)
    requires OnBoard(p) && OnBoard(q) && OnBoard(r) && p != q && p != r && Watched(p, q, r, side)
    requires At(g, p) != Next(side) && At(g, q) == Next(side) && At(g, r) == Next(side)
    ensures SeesWhole(g, p, k, side)
  {
    hide SeesWhole, At, TwoBlocks;
    forall u | OnBoard(u)
      ensures At(TwoBlocks(q, r, side), u) == if u == q || u == r then Next(side) else EMPTY
    {
      TwoBlocksAt(q, r, side, u);
    }
    SeesShorter(TwoBlocks(q, r, side), g, p, k, side);
  }

  /** The verdict of the test on a stone on `p` is right. */
  ghost predicate VerdictIsRight(t: Table, g: Grid, p: Point, q: Point, r: Point, side: Side)
    requires OnBoard(p)
  {
    var h := Put(Put(Put(g, q, Next(side)), r, Next(side)), p, side);
    WinsAt(t, h, p, side) <==> CompletesAt(t, h, p, side)
  }

  /** With blocking stones on two other points, the verdict on a point is right on all boards for all tables
      exactly when the point is watched. */
  lemma WatchedExact(p: Point, q: Point, r: Point, side: Side)
    requires OnBoard(p) && OnBoard(q) && OnBoard(r) && p != q && p != r
    ensures Watched(p, q, r, side) <==> forall t, g :: VerdictIsRight(t, g, p, q, r, side)
  {
    hide Watched, VerdictIsRight;
    if Watched(p, q, r, side) {
      forall t, g
        ensures VerdictIsRight(t, g, p, q, r, side)
      {
        WatchedIsRight(t, g, p, q, r, side);
      }
    } else {
      var t := UnwatchedIsWrong(p, q, r, side);
      assert !VerdictIsRight(t, EmptyGrid(), p, q, r, side);
    }
  }

  lemma WatchedIsRight(t: Table, g: Grid, p: Point, q: Point, r: Point, side: Side)
    requires OnBoard(p) && OnBoard(q) && OnBoard(r) && p != q && p != r && Watched(p, q, r, side)
    ensures VerdictIsRight(t, g, p, q, r, side)
  {
    hide Watched, SeesWhole, WinsAt, CompletesAt, Put, At;
    var h := Put(Put(g, q, Next(side)), r, Next(side));
    var h1 := Put(h, p, side);
    TrialAt(g, p, q, r, side);
    forall k: Angle
      ensures SeesWhole(h1, p, k, side)
    {
      WatchedIsSeen(h1, p, q, r, k, side);
    }
    WinsAtWhereSeen(t, h1, p, side);
  }

  lemma TrialAt(g: Grid, p: Point, q: Point, r: Point, side: Side)
    requires OnBoard(p) && OnBoard(q) && OnBoard(r) && p != q && p != r
    ensures var h := Put(Put(Put(g, q, Next(side)), r, Next(side)), p, side);
            At(h, p) == side && At(h, q) == Next(side) && At(h, r) == Next(side)
  {
    var g1 := Put(g, q, Next(side));
    var g2 := Put(g1, r, Next(side));
    PutAt(g, q, Next(side), q);
    PutAt(g1, r, Next(side), q);
    PutAt(g1, r, Next(side), r);
    PutAt(g2, p, side, p);
    PutAt(g2, p, side, q);
    PutAt(g2, p, side, r);
  }

  /** The table in which only the stretch that is not seen whole is of class 15. */
  lemma UnwatchedIsWrong(p: Point, q: Point, r: Point, side: Side) returns (t: Table)
    requires OnBoard(p) && OnBoard(q) && OnBoard(r) && p != q && p != r && !Watched(p, q, r, side)
    ensures !VerdictIsRight(t, EmptyGrid(), p, q, r, side)
  {
    hide SeesWhole, WinsAt, CompletesOn, TwoBlocks, Put, At, ClassThrough, OnEdge;
    var k: Angle :| !SeesWhole(TwoBlocks(q, r, side), p, k, side);
    var h := Put(TwoBlocks(q, r, side), p, side);
    TrialOnBlocks(p, q, r, k, side);
    t := LoneStoneMissed(h, p, k, side);
    CompletesByClass(t, h, p, k, side);
    assert TwoBlocks(q, r, side) == Put(Put(EmptyGrid(), q, Next(side)), r, Next(side)) by {
      TwoBlocksIs(q, r, side);
    }
  }

  lemma TwoBlocksIs(q: Point, r: Point, side: Side)
    ensures TwoBlocks(q, r, side) == Put(Put(EmptyGrid(), q, Next(side)), r, Next(side))
  {
  }

  lemma TrialOnBlocks(p: Point, q: Point, r: Point, k: Angle, side: Side)
    requires OnBoard(p) && OnBoard(q) && OnBoard(r) && p != q && p != r && !SeesWhole(TwoBlocks(q, r, side), p, k, side)
    ensures var h := Put(TwoBlocks(q, r, side), p, side);
            !SeesWhole(h, p, k, side) && At(h, p) == side && forall u :: OnBoard(u) && At(h, u) == side ==> u == p
  {
    hide SeesWhole, TwoBlocks, Put, At;
    var g := TwoBlocks(q, r, side);
    var h := Put(g, p, side);
    forall u | OnBoard(u)
      ensures At(g, u) == if u == q || u == r then Next(side) else EMPTY
      ensures At(h, u) == if u == p then side else At(g, u)
    {
      TwoBlocksAt(q, r, side, u);
      PutAt(g, p, side, u);
    }
    if SeesWhole(h, p, k, side) {
      SeesShorter(h, g, p, k, side);
    }
  }

  /** A single stone on the board in a stretch that is not seen whole: what is seen begins with the stone. */
  lemma LoneStoneMissed(h: Grid, p: Point, k: Angle, side: Side) returns (t: Table)
    requires OnBoard(p) && At(h, p) == side && !SeesWhole(h, p, k, side)
    requires forall u :: OnBoard(u) && At(h, u) == side ==> u == p
    ensures ClassThrough(t, h, p, k, side) == 15 && !WinsAt(t, h, p, side)
  {
    hide LinePosition, StretchLo, StretchHi, Class, OnlyShape, OnEdge, SegmentID, WholeLine, At;
    var cells, o, lo, hi := WholeLine(h, p, k), LinePosition(p, k), StretchLo(h, p, k, side), StretchHi(h, p, k, side);
    StretchSurrounds(h, p, k, side);
    var own := Own(cells, side, lo, hi);
    t := OnlyShape(own);
    OnlyShapeClass(own, own);
    FirstIsNoStone(h, p, k, side, lo);
    forall k2: Angle
      ensures SegmentID(t, h, p, k2, side) != 15
    {
      SeenBeginsWithStone(h, p, k2, side, own);
    }
  }

  lemma FirstIsNoStone(h: Grid, p: Point, k: Angle, side: Side, i: nat)
    requires OnBoard(p) && (forall u :: OnBoard(u) && At(h, u) == side ==> u == p)
    requires i < |WholeLine(h, p, k)| && i != LinePosition(p, k)
    ensures WholeLine(h, p, k)[i] != side
  {
    hide At, RayLen;
    SameLine(h, p, k);
    PointAtPosition(p, k);
  }

  lemma SeenBeginsWithStone(h: Grid, p: Point, k: Angle, side: Side, own: seq<bool>)
    requires OnBoard(p) && OnEdge(p) && At(h, p) == side && IsSegment(own) && !own[0]
    ensures SegmentID(OnlyShape(own), h, p, k, side) != 15
  {
    hide LinePosition, StretchLo, StretchHi, Class, OnlyShape, OnEdge, SegmentID, At;
    var t, cells, o, hi := OnlyShape(own), WholeLine(h, p, k), LinePosition(p, k), StretchHi(h, p, k, side);
    SegmentIDFromEdge(t, h, p, k, side);
    if hi - o >= 6 {
      var seen := Own(cells, side, o, hi);
      assert seen[0];
      OnlyShapeClass(own, seen);
    }
  }

  lemma BlockedAt(g: Grid, q: Point, r: Point, side: Side)
    requires OnBoard(q) && OnBoard(r)
    ensures var h := Put(Put(g, q, Next(side)), r, Next(side)); At(h, q) == Next(side) && At(h, r) == Next(side)
  {
    PutAt(g, q, Next(side), q);
    PutAt(Put(g, q, Next(side)), r, Next(side), q);
    PutAt(Put(g, q, Next(side)), r, Next(side), r);
  }

  // ----- the blocking test -----

  /** Every point but the two blocked ones is in plain sight, or the blocking stones make up for it. */
  ghost predicate OthersSeen(pts: seq<Point>, i: nat, j: nat, side: Side)
    requires i < |pts| && j < |pts| && forall p <- pts :: OnBoard(p)
  {
    || (forall x :: 0 <= x < |pts| && x != i && x != j ==> InPlainSight(pts[x]))
    || (StrictlySorted(pts) && forall x :: 0 <= x < |pts| && x != i && x != j ==>
          (assert pts[x] in pts; Watched(pts[x], pts[i], pts[j], side)))
  }

  /** With the blocking stones in place, the test for a win at such a point is the completion on the board. */
  lemma WinsAtOther(t: Table, h: Grid, pts: seq<Point>, i: nat, j: nat, x: nat, side: Side)
    requires i < |pts| && j < |pts| && x < |pts| && x != i && x != j && (forall p <- pts :: OnBoard(p))
    requires OthersSeen(pts, i, j, side) && OnBoard(pts[x]) && At(h, pts[x]) == side
    requires StrictlySorted(pts) ==>
               OnBoard(pts[i]) && OnBoard(pts[j]) && At(h, pts[i]) == Next(side) && At(h, pts[j]) == Next(side)
    ensures WinsAt(t, h, pts[x], side) <==> CompletesAt(t, h, pts[x], side)
  {
    hide Watched, InPlainSight, WinsAt, CompletesAt, SeesWhole, At;
    if InPlainSight(pts[x]) {
      WinsAtIsCompletion(t, h, pts[x], side);
    } else {
      assert pts[x] != pts[i] && pts[x] != pts[j];
      forall k: Angle
        ensures SeesWhole(h, pts[x], k, side)
      {
        WatchedIsSeen(h, pts[x], pts[i], pts[j], k, side);
      }
      WinsAtWhereSeen(t, h, pts[x], side);
    }
  }

  /** The board with the two blocking stones. */
  function Blocked(g: Grid, pts: seq<Point>, i: nat, j: nat, side: Side): Grid
    requires i < |pts| && j < |pts|
  {
    Put(Put(g, pts[i], Next(side)), pts[j], Next(side))
  }

  lemma OneStoneAgrees(t: Table, g: Grid, pts: seq<Point>, i: nat, j: nat, x: nat, side: Side)
    requires i < |pts| && j < |pts| && x < |pts| && x != i && x != j && (forall p <- pts :: OnBoard(p))
    requires OthersSeen(pts, i, j, side)
    ensures OneStoneWins(t, Blocked(g, pts, i, j, side), pts, x, side)
       <==> OneStoneCompletes(t, Blocked(g, pts, i, j, side), pts, x, side)
  {
    hide OthersSeen, WinsAt, CompletesAt, At, Put;
    assert pts[i] in pts && pts[j] in pts && pts[x] in pts;
    var h := Blocked(g, pts, i, j, side);
    BlockedAt(g, pts[i], pts[j], side);
    PutAt(h, pts[x], side, pts[x]);
    PutAt(h, pts[x], side, pts[i]);
    PutAt(h, pts[x], side, pts[j]);
    WinsAtOther(t, Put(h, pts[x], side), pts, i, j, x, side);
  }

  lemma TwoStonesAgree(t: Table, g: Grid, pts: seq<Point>, i: nat, j: nat, x: nat, y: nat, side: Side)
    requires i < |pts| && j < |pts| && x < |pts| && x != i && x != j && (forall p <- pts :: OnBoard(p))
    requires y < |pts| && y != i && y != j && OthersSeen(pts, i, j, side)
    ensures TwoStonesWin(t, Blocked(g, pts, i, j, side), pts, x, y, side)
       <==> TwoStonesComplete(t, Blocked(g, pts, i, j, side), pts, x, y, side)
  {
    hide OthersSeen, WinsAt, CompletesAt, At, Put;
    assert pts[i] in pts && pts[j] in pts && pts[x] in pts && pts[y] in pts;
    var h := Blocked(g, pts, i, j, side);
    var h1 := Put(h, pts[x], side);
    BlockedAt(g, pts[i], pts[j], side);
    forall p <- [pts[i], pts[j], pts[x], pts[y]]
      ensures At(Put(h1, pts[y], side), p) == if p == pts[x] || p == pts[y] then side else At(h, p)
    {
      PutAt(h, pts[x], side, p);
      PutAt(h1, pts[y], side, p);
    }
    assert pts[i] in [pts[i], pts[j], pts[x], pts[y]] && pts[j] in [pts[i], pts[j], pts[x], pts[y]];
    assert pts[x] in [pts[i], pts[j], pts[x], pts[y]] && pts[y] in [pts[i], pts[j], pts[x], pts[y]];
    WinsAtOther(t, Put(h1, pts[y], side), pts, i, j, x, side);
    WinsAtOther(t, Put(h1, pts[y], side), pts, i, j, y, side);
  }

  /** With the other threat points seen, the blocking test tells what blocks on the board. */
  lemma BlocksIsTrue(t: Table, g: Grid, pts: seq<Point>, i: nat, j: nat, side: Side)
    requires i < |pts| && j < |pts| && (forall p <- pts :: OnBoard(p)) && OthersSeen(pts, i, j, side)
    ensures Blocks(t, g, pts, i, j, side) <==> BlocksTruly(t, g, pts, i, j, side)
  {
    hide OneStoneWins, TwoStonesWin, OneStoneCompletes, TwoStonesComplete, Put, OthersSeen;
    var h := Blocked(g, pts, i, j, side);
    forall x | 0 <= x < |pts| && x != i && x != j
      ensures OneStoneWins(t, h, pts, x, side) <==> OneStoneCompletes(t, h, pts, x, side)
    {
      OneStoneAgrees(t, g, pts, i, j, x, side);
    }
    forall x, y | 0 <= x < y < |pts| && x != i && x != j && y != i && y != j
      ensures TwoStonesWin(t, h, pts, x, y, side) <==> TwoStonesComplete(t, h, pts, x, y, side)
    {
      TwoStonesAgree(t, g, pts, i, j, x, y, side);
    }
  }

  lemma BlockedIsTrue(t: Table, g: Grid, pts: seq<Point>, side: Side)
    requires AllInPlainSight(pts)
    ensures BlockedByOne(t, g, pts, side) <==> TrulyBlockedByOne(t, g, pts, side)
    ensures BlockedByTwo(t, g, pts, side) <==> TrulyBlockedByTwo(t, g, pts, side)
  {
    hide Blocks, BlocksTruly, InPlainSight, Watched;
    assert forall x :: 0 <= x < |pts| ==> pts[x] in pts;
    forall i, j | 0 <= i < |pts| && 0 <= j < |pts|
      ensures Blocks(t, g, pts, i, j, side) <==> BlocksTruly(t, g, pts, i, j, side)
    {
      BlocksIsTrue(t, g, pts, i, j, side);
    }
  }

  /** When a single other point is left, that is all there is to it: the blocking test is right on all boards
      for all tables exactly when the point is watched. */
  lemma LastPointExact(pts: seq<Point>, i: nat, j: nat, x: nat, side: Side)
    requires i < |pts| && j < |pts| && x < |pts| && x != i && x != j && (forall p <- pts :: OnBoard(p))
    requires StrictlySorted(pts) && |pts| == if i == j then 2 else 3
    ensures OnBoard(pts[x])
    ensures Watched(pts[x], pts[i], pts[j], side) <==>
            forall t, g :: Blocks(t, g, pts, i, j, side) <==> BlocksTruly(t, g, pts, i, j, side)
  {
    hide Watched, VerdictIsRight, Blocks, BlocksTruly;
    assert pts[i] in pts && pts[j] in pts && pts[x] in pts;
    assert pts[x] != pts[i] && pts[x] != pts[j];
    forall t, g
      ensures VerdictIsRight(t, g, pts[x], pts[i], pts[j], side) <==>
              (Blocks(t, g, pts, i, j, side) <==> BlocksTruly(t, g, pts, i, j, side))
    {
      LastVerdict(t, g, pts, i, j, x, side);
    }
    WatchedExact(pts[x], pts[i], pts[j], side);
    assert (forall t, g :: VerdictIsRight(t, g, pts[x], pts[i], pts[j], side)) <==>
           forall t, g :: Blocks(t, g, pts, i, j, side) <==> BlocksTruly(t, g, pts, i, j, side);
  }

  lemma LastVerdict(t: Table, g: Grid, pts: seq<Point>, i: nat, j: nat, x: nat, side: Side)
    requires i < |pts| && j < |pts| && x < |pts| && x != i && x != j && (forall p <- pts :: OnBoard(p))
    requires OnBoard(pts[x]) && |pts| == if i == j then 2 else 3
    ensures VerdictIsRight(t, g, pts[x], pts[i], pts[j], side) <==>
            (Blocks(t, g, pts, i, j, side) <==> BlocksTruly(t, g, pts, i, j, side))
  {
    hide *;
    BlocksByLast(t, g, pts, i, j, x, side);
    BlocksTrulyByLast(t, g, pts, i, j, x, side);
    VerdictIsIts(t, g, pts, i, j, x, side);
  }

  lemma BlocksByLast(t: Table, g: Grid, pts: seq<Point>, i: nat, j: nat, x: nat, side: Side)
    requires i < |pts| && j < |pts| && x < |pts| && x != i && x != j && (forall p <- pts :: OnBoard(p))
    requires |pts| == if i == j then 2 else 3
    ensures Blocks(t, g, pts, i, j, side) <==> !OneStoneWins(t, Blocked(g, pts, i, j, side), pts, x, side)
  {
    hide OneStoneWins, TwoStonesWin, Put;
  }

  lemma BlocksTrulyByLast(t: Table, g: Grid, pts: seq<Point>, i: nat, j: nat, x: nat, side: Side)
    requires i < |pts| && j < |pts| && x < |pts| && x != i && x != j && (forall p <- pts :: OnBoard(p))
    requires |pts| == if i == j then 2 else 3
    ensures BlocksTruly(t, g, pts, i, j, side) <==> !OneStoneCompletes(t, Blocked(g, pts, i, j, side), pts, x, side)
  {
    hide OneStoneCompletes, TwoStonesComplete, Put;
  }

  lemma VerdictIsIts(t: Table, g: Grid, pts: seq<Point>, i: nat, j: nat, x: nat, side: Side)
    requires i < |pts| && j < |pts| && x < |pts| && (forall p <- pts :: OnBoard(p)) && OnBoard(pts[x])
    ensures var h := Blocked(g, pts, i, j, side);
            VerdictIsRight(t, g, pts[x], pts[i], pts[j], side) <==>
            (OneStoneWins(t, h, pts, x, side) <==> OneStoneCompletes(t, h, pts, x, side))
  {
    hide WinsAt, CompletesAt, Put;
  }

  // ----- the test only ever misses completions -----

  /** So whatever blocks on the board passes the blocking test: a corrected count is never too high, it can
      only be too low, and only with a threat point on the edge. */
  lemma TrueBlocksPass(t: Table, g: Grid, pts: seq<Point>, i: nat, j: nat, side: Side)
    requires i < |pts| && j < |pts| && (forall p <- pts :: OnBoard(p)) && MarksSixes(t)
    ensures BlocksTruly(t, g, pts, i, j, side) ==> Blocks(t, g, pts, i, j, side)
  {
    hide OneStoneWins, TwoStonesWin, OneStoneCompletes, TwoStonesComplete, Put, MarksSixes;
    var h := Put(Put(g, pts[i], Next(side)), pts[j], Next(side));
    forall x | 0 <= x < |pts|
      ensures OneStoneWins(t, h, pts, x, side) ==> OneStoneCompletes(t, h, pts, x, side)
    {
      OneStoneIsThere(t, h, pts, x, side);
    }
    forall x, y | 0 <= x < y < |pts|
      ensures TwoStonesWin(t, h, pts, x, y, side) ==> TwoStonesComplete(t, h, pts, x, y, side)
    {
      TwoStonesAreThere(t, h, pts, x, y, side);
    }
  }

  lemma OneStoneIsThere(t: Table, g: Grid, pts: seq<Point>, x: nat, side: Side)
    requires x < |pts| && (forall p <- pts :: OnBoard(p)) && MarksSixes(t)
    ensures OneStoneWins(t, g, pts, x, side) ==> OneStoneCompletes(t, g, pts, x, side)
  {
    hide WinsAt, CompletesAt, MarksSixes;
    assert pts[x] in pts;
    PutAt(g, pts[x], side, pts[x]);
    if OneStoneWins(t, g, pts, x, side) {
      WinsAtIsThere(t, Put(g, pts[x], side), pts[x], side);
    }
  }

  lemma TwoStonesAreThere(t: Table, g: Grid, pts: seq<Point>, x: nat, y: nat, side: Side)
    requires x < |pts| && y < |pts| && (forall p <- pts :: OnBoard(p)) && MarksSixes(t)
    ensures TwoStonesWin(t, g, pts, x, y, side) ==> TwoStonesComplete(t, g, pts, x, y, side)
  {
    hide WinsAt, CompletesAt, MarksSixes;
    assert pts[x] in pts && pts[y] in pts;
    var g1 := Put(g, pts[x], side);
    var g2 := Put(g1, pts[y], side);
    PutAt(g, pts[x], side, pts[x]);
    PutAt(g1, pts[y], side, pts[x]);
    PutAt(g1, pts[y], side, pts[y]);
    if WinsAt(t, g2, pts[x], side) {
      WinsAtIsThere(t, g2, pts[x], side);
    }
    if WinsAt(t, g2, pts[y], side) {
      WinsAtIsThere(t, g2, pts[y], side);
    }
  }
}
