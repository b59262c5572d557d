/** Why a position is given up: more threats than two stones can answer are lost, whatever the answer. */
module Losses {
  import opened Geometry
  import opened Shape
  import opened LineCache
  import opened Threats
  import opened Completion
  import opened Blocking
  import opened Victory
  import opened Trials
  import opened GameTree
  import opened Defence
  import opened Judgement

  // ----- threats in two directions, corrected -----

  /** Two places on the list that hold every listed point of a step. */
  lemma PlacesOf(pts: seq<Point>, m: Step) returns (i: nat, j: nat)
    requires StrictlySorted(pts) && pts != []
    ensures i <= j < |pts|
    ensures forall x :: 0 <= x < |pts| && x != i && x != j ==> pts[x] != m.First && pts[x] != m.Second
    ensures i < j ==> {pts[i], pts[j]} == {m.First, m.Second}
  {
    var u := if u :| 0 <= u < |pts| && pts[u] == m.First then u else -1;
    var v := if v :| 0 <= v < |pts| && pts[v] == m.Second then v else -1;
    i, j := 0, 0;
    if u >= 0 && v >= 0 {
      i, j := Min(u, v), if u < v then v else u;
    } else if u >= 0 {
      i, j := u, u;
    } else if v >= 0 {
      i, j := v, v;
    }
  }

  /** Where opponent stones on two threat points leave a completion, one or two others make six in a row. */
  lemma UnblockedSix(t: Table, g: Grid, pts: seq<Point>, i: nat, j: nat, side: Side) returns (x: nat, y: nat)
    requires MarksSixes(t) && i < |pts| && j < |pts| && (forall p <- pts :: OnBoard(p))
    requires !BlocksTruly(t, g, pts, i, j, side)
    ensures x < |pts| && y < |pts| && x != i && x != j && y != i && y != j
    ensures SixInARow(Put(Put(Blocked(g, pts, i, j, side), pts[x], side), pts[y], side), side)
  {
    hide CompletesAt, SixInARow, MarksSixes, Put;
    var h := Blocked(g, pts, i, j, side);
    if one :| 0 <= one < |pts| && one != i && one != j && OneStoneCompletes(t, h, pts, one, side) {
      x, y := one, one;
      assert pts[x] in pts;
      CompletionIsSix(t, Put(h, pts[x], side), pts[x], side);
      PutTwice(h, pts[x], side);
    } else {
      x, y :| 0 <= x < y < |pts| && x != i && x != j && y != i && y != j && TwoStonesComplete(t, h, pts, x, y, side);
      assert pts[x] in pts && pts[y] in pts;
      var h2 := Put(Put(h, pts[x], side), pts[y], side);
      CompletionIsSix(t, h2, if CompletesAt(t, h2, pts[x], side) then pts[x] else pts[y], side);
    }
  }

  lemma PutTwice(g: Grid, p: Point, c: Cell)
    ensures Put(Put(g, p, c), p, c) == Put(g, p, c)
  {
  }

  /** Such a six is also there after any answer that takes none of its points. */
  lemma SixAfterAnswer(g: Grid, pts: seq<Point>, i: nat, j: nat, x: nat, y: nat, side: Side, m: Step)
    requires i < |pts| && j < |pts| && x < |pts| && y < |pts| && (forall p <- pts :: OnBoard(p) && Free(g, p))
    requires LegalStep(g, m) && pts[x] !in {m.First, m.Second} && pts[y] !in {m.First, m.Second}
    requires SixInARow(Put(Put(Blocked(g, pts, i, j, side), pts[x], side), pts[y], side), side)
    ensures CanWin(After(g, m, Next(side)), side)
  {
    hide SixInARow, Put, At;
    assert pts[i] in pts && pts[j] in pts && pts[x] in pts && pts[y] in pts;
    var h := Blocked(g, pts, i, j, side);
    var g1, m2 := After(g, m, Next(side)), Step(pts[x], pts[y], {}, 0, 0);
    AfterStep(g, m, Next(side), pts[x]);
    AfterStep(g, m, Next(side), pts[y]);
    forall p | OnBoard(p) && At(Put(Put(h, pts[x], side), pts[y], side), p) == side
      ensures At(After(g1, m2, side), p) == side
    {
      PutAt(g, pts[i], Next(side), p);
      PutAt(Put(g, pts[i], Next(side)), pts[j], Next(side), p);
      PutAt(h, pts[x], side, p);
      PutAt(Put(h, pts[x], side), pts[y], side, p);
      AfterStep(g, m, Next(side), p);
      AfterStep(g1, m2, side, p);
    }
    SixPersists(Put(Put(h, pts[x], side), pts[y], side), After(g1, m2, side), side);
    LegalWins(g1, m2, side);
  }

  /** No two threat points block: every answer leaves a win. */
  lemma UnblockableIsLost(t: Table, g: Grid, pts: seq<Point>, side: Side, m: Step)
    requires MarksSixes(t) && StrictlySorted(pts) && pts != [] && (forall p <- pts :: OnBoard(p) && Free(g, p))
    requires !TrulyBlockedByOne(t, g, pts, side) && !TrulyBlockedByTwo(t, g, pts, side) && LegalStep(g, m)
    ensures CanWin(After(g, m, Next(side)), side)
  {
    hide BlocksTruly, MarksSixes, CanWin, Blocked, SixInARow, Put;
    var i, j := PlacesOf(pts, m);
    assert !BlocksTruly(t, g, pts, i, j, side);
    var x, y := UnblockedSix(t, g, pts, i, j, side);
    SixAfterAnswer(g, pts, i, j, x, y, side, m);
  }

  /** Threats in two directions that count for more than two after the correction. */
  lemma SpreadIsLost(t: Table, g: Grid, side: Side, m: Step)
    requires MarksSixes(t) && RawThreats(t, g, side) >= 2 && Spread(ScanAll(t, g, 0), side, 0)
    requires AllInPlainSight(CoherentInfo(t, g, side).ThreatPoint) && CoherentInfo(t, g, side).ThreatNum > 2
    requires LegalStep(g, m)
    ensures CanWin(After(g, m, Next(side)), side)
  {
    hide CoherentInfo, TrulyBlockedByOne, TrulyBlockedByTwo, MarksSixes, ScanAll, Gather, CanWin, LegalStep;
    var pts := CoherentInfo(t, g, side).ThreatPoint;
    ThreatNumIsLeast(t, g, side);
    CoherentInfoThreats(t, g, side);
    SpreadHasPoints(t, g, side);
    if TrulyBlockedByOne(t, g, pts, side) || TrulyBlockedByTwo(t, g, pts, side) {
      BlockedIsNotLeast(t, g, pts, RawThreats(t, g, side), CoherentInfo(t, g, side).ThreatNum, side);
    }
    UnblockableIsLost(t, g, pts, side, m);
  }

  lemma BlockedIsNotLeast(t: Table, g: Grid, pts: seq<Point>, raw: int, num: int, side: Side)
    requires (forall p <- pts :: OnBoard(p)) && IsLeastBlocking(t, g, pts, raw, num, side)
    requires TrulyBlockedByOne(t, g, pts, side) || TrulyBlockedByTwo(t, g, pts, side)
    ensures num <= 2
  {
    hide TrulyBlockedByOne, TrulyBlockedByTwo;
  }

  lemma SpreadHasPoints(t: Table, g: Grid, side: Side)
    requires Spread(ScanAll(t, g, 0), side, 0)
    ensures CoherentInfo(t, g, side).ThreatPoint != []
  {
    hide ScanAll, EnsuredThreatNum, Gather;
    var c := ScanAll(t, g, 0);
    CoherentThreatsFree(t, g, side, 0);
    var id: LineId, other: LineId :|
      LineAngle(id) != LineAngle(other) && c[SlotOf(side, id)].ThreatPoint != []
      && c[SlotOf(side, other)].ThreatPoint != [];
    var p := c[SlotOf(side, id)].ThreatPoint[0];
    assert p in c[SlotOf(side, id)].ThreatPoint;
    GatherHas(c, side, LINES, id, p);
  }

  lemma {:induction false} GatherHas(c: Cache, side: Side, n: nat, id: LineId, p: Point)
    requires id < n <= LINES && p in c[SlotOf(side, id)].ThreatPoint
    ensures p in Gather(c, side, 0, n).ThreatPoint
  {
    if id < n - 1 {
      GatherHas(c, side, n - 1, id, p);
    }
  }
}
