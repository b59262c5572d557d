/** The judgement of a node read off the board: when it is won, when it is given up as lost, when it is searched, and
    which answers are searched. */
module Verdicts {
  import opened Geometry
  import opened Shape
  import opened LineCache
  import opened Threats
  import opened Completion
  import opened Blocking
  import opened Victory
  import opened Zobrist
  import opened Trials
  import opened GameTree
  import opened Defence
  import opened WinSearch
  import opened LeafValues
  import opened ThreatCounts
  import opened Potential
  import opened Judgement
  import opened Losses
  import opened Answers
  import opened OneDirection

  /** A position against `side`: a table that finds and rates threats, no six of `side` yet, and no threat point of
      `side` on the edge. */
  ghost predicate Attacked(t: Table, g: Grid, side: Side) {
    && FindsThreats(t) && RatesThreats(t) && !SixInARow(g, side)
    && AllInPlainSight(CoherentInfo(t, g, side).ThreatPoint)
  }

  /** Whatever the other side answers, `side` wins with its next step. */
  ghost predicate NoAnswerHolds(g: Grid, side: Side) {
    forall m :: Playable(g, m) ==> CanWin(After(g, m, Next(side)), side)
  }

  // ----- more than two threats -----

  /** The corrected count differs from the raw one only where threats lie in two directions. */
  lemma CountAndRaw(t: Table, g: Grid, side: Side)
    ensures var num, raw := CoherentInfo(t, g, side).ThreatNum, RawThreats(t, g, side);
            && (raw < 2 || !Spread(ScanAll(t, g, 0), side, 0) ==> num == raw)
            && (raw >= 2 ==> 1 <= num <= raw)
  {
    hide ScanAll, Gather, Spread, BlockedByOne, BlockedByTwo;
    CoherentThreatsFree(t, g, side, 0);
  }

  lemma NoNegativeCount(t: Table, g: Grid, side: Side)
    ensures RawThreats(t, g, side) >= 0 && CoherentInfo(t, g, side).ThreatNum >= 0
  {
    hide CoherentInfo, Gather, Spread, ScanAll;
    GatherCounts(t, g, side, LINES);
    CountAndRaw(t, g, side);
  }

  /** A count of more than two is lost, whatever the answer. */
  lemma LossIsCertain(t: Table, g: Grid, side: Side, m: Step)
    requires Attacked(t, g, side) && CoherentInfo(t, g, side).ThreatNum > 2 && LegalStep(g, m)
    ensures CanWin(After(g, m, Next(side)), side)
  {
    hide CoherentInfo, RawThreats, RatesThreats, MarksSixes, MarksThreats, FindsThreats, Spread, ScanAll, CanWin;
    CountAndRaw(t, g, side);
    FindsThreatsMarks(t);
    if Spread(ScanAll(t, g, 0), side, 0) {
      SpreadIsLost(t, g, side, m);
    } else {
      OneDirectionIsLost(t, g, side, m);
    }
  }

  /** A step on two threat points, or on one and any other free cell. */
  lemma StepOn(g: Grid, p: Point, q: Point) returns (m: Step)
    requires Free(g, p) && Free(g, q)
    ensures Playable(g, m) && p in {m.First, m.Second} && q in {m.First, m.Second}
  {
    m := Step(p, q, {}, 0, 0);
    if other :| p == q && Free(g, other) && other != p {
      m := Step(p, other, {}, 0, 0);
    }
  }

  /** More than two threats that are corrected to one or two have an answer. */
  lemma AnswerExists(t: Table, g: Grid, side: Side) returns (m: Step)
    requires Attacked(t, g, side) && RawThreats(t, g, side) > 2 && CoherentInfo(t, g, side).ThreatNum <= 2
    ensures Playable(g, m) && !CanWin(After(g, m, Next(side)), side)
  {
    hide CoherentInfo, RawThreats, RatesThreats, FindsThreats, Spread, ScanAll, CanWin, BlocksTruly, SixInARow,
         AllInPlainSight;
    var pts := CoherentInfo(t, g, side).ThreatPoint;
    CountAndRaw(t, g, side);
    CoherentInfoThreats(t, g, side);
    ThreatNumIsLeast(t, g, side);
    var i: nat, j: nat;
    if TrulyBlockedByOne(t, g, pts, side) {
      i :| i < |pts| && BlocksTruly(t, g, pts, i, i, side);
      j := i;
    } else {
      i, j :| i < j < |pts| && BlocksTruly(t, g, pts, i, j, side);
    }
    assert pts[i] in pts && pts[j] in pts;
    m := StepOn(g, pts[i], pts[j]);
    BlockingHolds(t, g, side, i, j, m);
  }

  /** With more than two threats before the correction, the corrected count is more than two exactly when no answer
      holds. */
  lemma LostExactly(t: Table, g: Grid, side: Side)
    requires Attacked(t, g, side)
    ensures CoherentInfo(t, g, side).ThreatNum > 2 <==> RawThreats(t, g, side) > 2 && NoAnswerHolds(g, side)
  {
    hide CoherentInfo, RawThreats, Attacked, CanWin, After;
    CountAndRaw(t, g, side);
    if CoherentInfo(t, g, side).ThreatNum > 2 {
      forall m | Playable(g, m)
        ensures CanWin(After(g, m, Next(side)), side)
      {
        LossIsCertain(t, g, side, m);
      }
    } else if RawThreats(t, g, side) > 2 {
      var m := AnswerExists(t, g, side);
    }
  }

  // ----- exactly two -----

  /** With a count of two no single threat point blocks. */
  lemma TwoNeedTwo(t: Table, g: Grid, side: Side)
    requires Attacked(t, g, side) && CoherentInfo(t, g, side).ThreatNum == 2
    ensures (forall p <- CoherentInfo(t, g, side).ThreatPoint :: OnBoard(p) && Free(g, p))
            && !TrulyBlockedByOne(t, g, CoherentInfo(t, g, side).ThreatPoint, side)
  {
    hide CoherentInfo, RawThreats, RatesThreats, FindsThreats, Spread, ScanAll, CanWin, BlocksTruly, SixInARow,
         AllInPlainSight, After;
    var pts := CoherentInfo(t, g, side).ThreatPoint;
    CountAndRaw(t, g, side);
    CoherentInfoThreats(t, g, side);
    if Spread(ScanAll(t, g, 0), side, 0) && RawThreats(t, g, side) >= 2 {
      ThreatNumIsLeast(t, g, side);
    } else if i: nat :| i < |pts| && BlocksTruly(t, g, pts, i, i, side) {
      assert pts[i] in pts;
      var m := Step(pts[i], pts[i], {}, 0, 0);
      OneDirectionIsLost(t, g, side, m);
      BlockingHolds(t, g, side, i, i, m);
    }
  }

  /** An answer that holds consists of two threat points that block. */
  lemma HoldingBlocks(t: Table, g: Grid, pts: seq<Point>, side: Side, m: Step) returns (i: nat, j: nat)
    requires MarksSixes(t) && StrictlySorted(pts) && pts != [] && (forall p <- pts :: OnBoard(p) && Free(g, p))
    requires !TrulyBlockedByOne(t, g, pts, side) && LegalStep(g, m) && !CanWin(After(g, m, Next(side)), side)
    ensures i < j < |pts| && BlocksTruly(t, g, pts, i, j, side) && {pts[i], pts[j]} == {m.First, m.Second}
  {
    hide BlocksTruly, MarksSixes, CanWin, Blocked, SixInARow, Put;
    i, j := PlacesOf(pts, m);
    if !BlocksTruly(t, g, pts, i, j, side) {
      var x, y := UnblockedSix(t, g, pts, i, j, side);
      SixAfterAnswer(g, pts, i, j, x, y, side, m);
    }
  }

  /** Two blocking points, in the order of the list, are a listed answer, and listed answers are such points. */
  lemma ListedAnswer(r: Rules, g: Grid, side: Side, m: Step)
    requires LawfulSorts(r.oracle) && AllInPlainSight(CoherentInfo(r.table, g, side).ThreatPoint)
    requires CoherentInfo(r.table, g, side).ThreatNum == 2
    ensures var si := CoherentInfo(r.table, g, side);
            (exists a <- DefendSteps(r, g, si, side) :: {a.First, a.Second} == {m.First, m.Second}) <==>
            (exists i: nat, j: nat :: i < j < |si.ThreatPoint| && BlocksTruly(r.table, g, si.ThreatPoint, i, j, side)
               && {si.ThreatPoint[i], si.ThreatPoint[j]} == {m.First, m.Second})
  {
    hide CoherentInfo, Blocks, BlocksTruly, DefendSteps, AllInPlainSight, LawfulSorts;
    var si := CoherentInfo(r.table, g, side);
    var pts := si.ThreatPoint;
    AreOnBoard(pts);
    if a: Step :| a in DefendSteps(r, g, si, side) && {a.First, a.Second} == {m.First, m.Second} {
      DefencesExact(r, g, si, side, a);
      var i: nat, j: nat :| IsDefence(r, g, pts, si.ThreatNum, side, a, i, j);
      SightBlocks(r.table, g, pts, i, j, side);
    }
    if i: nat, j: nat :| i < j < |pts| && BlocksTruly(r.table, g, pts, i, j, side)
                         && {pts[i], pts[j]} == {m.First, m.Second} {
      SightBlocks(r.table, g, pts, i, j, side);
      var a := DefendStep(r, g, pts, i, j, side);
      assert IsDefence(r, g, pts, si.ThreatNum, side, a, i, j);
      DefencesExact(r, g, si, side, a);
    }
  }

  lemma AreOnBoard(pts: seq<Point>)
    requires AllInPlainSight(pts)
    ensures forall p <- pts :: OnBoard(p)
  {
  }

  lemma SightBlocks(t: Table, g: Grid, pts: seq<Point>, i: nat, j: nat, side: Side)
    requires AllInPlainSight(pts) && i < |pts| && j < |pts|
    ensures Blocks(t, g, pts, i, j, side) <==> BlocksTruly(t, g, pts, i, j, side)
  {
    hide Blocks, BlocksTruly, InPlainSight, Watched;
    assert forall x :: 0 <= x < |pts| ==> pts[x] in pts;
    BlocksIsTrue(t, g, pts, i, j, side);
  }

  /** With a count of two the listed answers are exactly the answers that hold. */
  lemma AnswersExact(r: Rules, g: Grid, side: Side, m: Step)
    requires LawfulSorts(r.oracle) && Attacked(r.table, g, side) && LegalStep(g, m)
    requires CoherentInfo(r.table, g, side).ThreatNum == 2
    ensures forall p <- CoherentInfo(r.table, g, side).ThreatPoint :: OnBoard(p)
    ensures !CanWin(After(g, m, Next(side)), side) <==>
            exists a <- DefendSteps(r, g, CoherentInfo(r.table, g, side), side) ::
              {a.First, a.Second} == {m.First, m.Second}
  {
    hide CoherentInfo, BlocksTruly, DefendSteps, AllInPlainSight, LawfulSorts, CanWin, After, FindsThreats,
         RatesThreats, SixInARow, TrulyBlockedByOne, Window, StrictlySorted;
    var pts := CoherentInfo(r.table, g, side).ThreatPoint;
    FindsThreatsMarks(r.table);
    TwoNeedTwo(r.table, g, side);
    ListedAnswer(r, g, side, m);
    CoherentInfoThreats(r.table, g, side);
    if !CanWin(After(g, m, Next(side)), side) {
      var q, k, a, b := WindowExists(r.table, g, side);
      WindowIsListed(g, pts, side, q, k, a, b);
      var i, j := HoldingBlocks(r.table, g, pts, side, m);
    }
    if i: nat, j: nat :| i < j < |pts| && BlocksTruly(r.table, g, pts, i, j, side)
                         && {pts[i], pts[j]} == {m.First, m.Second} {
      assert pts[i] in {m.First, m.Second} && pts[j] in {m.First, m.Second};
      BlockingHolds(r.table, g, side, i, j, m);
    }
  }

  // ----- the judgement of a node -----

  function SignOf(mine: bool): int {
    if mine then 1 else -1
  }

  /** A node in which neither side has six in a row and the rival's threats are in plain sight. */
  ghost predicate OpenNode(r: Rules, g: Grid, mine: bool) {
    Attacked(r.table, g, Next(Mover(r, mine))) && !SixInARow(g, Mover(r, mine))
  }

  /** The rival has more threats than an answer can meet. */
  ghost predicate IsLost(r: Rules, g: Grid, mine: bool) {
    RawThreats(r.table, g, Next(Mover(r, mine))) > 2 && NoAnswerHolds(g, Next(Mover(r, mine)))
  }

  ghost function LeafScore(r: Rules, g: Grid, d: nat, mine: bool): int {
    LeafValue(r, g, d, mine, CoherentInfo(r.table, g, r.me), CoherentInfo(r.table, g, Next(r.me)))
  }

  /** A node is scored as won exactly for the side that can win at once, as lost where no answer to more than two
      threats holds, and otherwise searched above the nominal depth and searched or valued from there on. */
  lemma NodeIsJudged(r: Rules, g: Grid, d: nat, mine: bool)
    requires OpenNode(r, g, mine)
    ensures CanWin(g, Mover(r, mine)) ==> Judge(r, g, d, mine) == Decided(SignOf(mine) * (THREAT - d + 1))
    ensures !CanWin(g, Mover(r, mine)) && IsLost(r, g, mine) ==>
              Judge(r, g, d, mine) == Decided(-SignOf(mine) * (THREAT - d + 1))
    ensures !CanWin(g, Mover(r, mine)) && !IsLost(r, g, mine) ==>
              && (d < r.maxDepth ==> Judge(r, g, d, mine) == Expand(false, false))
              && (d >= r.maxDepth ==>
                    (Judge(r, g, d, mine).Expand? && d < r.largeDepth)
                    || Judge(r, g, d, mine) == Decided(LeafScore(r, g, d, mine)))
  {
    hide CoherentInfo, RawThreats, CanWin, FindsThreats, RatesThreats, SixInARow, AllInPlainSight, NoAnswerHolds,
         LeafValue, SearchesOnForDouble, SearchesOnForSingle;
    CountedExactlyIfWinning(r.table, g, Mover(r, mine));
    LostExactly(r.table, g, Next(Mover(r, mine)));
  }

  /** Two stones are needed and enough: two threats in one direction, or in several directions a least number of two
      blocking points, or no more than two threats that no single point blocks. */
  ghost predicate TwoStonesNeeded(t: Table, g: Grid, side: Side)
    requires forall p <- CoherentInfo(t, g, side).ThreatPoint :: OnBoard(p)
  {
    var raw, pts := RawThreats(t, g, side), CoherentInfo(t, g, side).ThreatPoint;
    if Spread(ScanAll(t, g, 0), side, 0) then
      raw >= 2 && !TrulyBlockedByOne(t, g, pts, side) && (raw == 2 || TrulyBlockedByTwo(t, g, pts, side))
    else raw == 2
  }

  lemma CountIsTwo(t: Table, g: Grid, side: Side)
    requires AllInPlainSight(CoherentInfo(t, g, side).ThreatPoint)
    ensures forall p <- CoherentInfo(t, g, side).ThreatPoint :: OnBoard(p)
    ensures CoherentInfo(t, g, side).ThreatNum == 2 <==> TwoStonesNeeded(t, g, side)
  {
    hide CoherentInfo, RawThreats, Spread, ScanAll, AllInPlainSight, TrulyBlockedByOne, TrulyBlockedByTwo;
    AreOnBoard(CoherentInfo(t, g, side).ThreatPoint);
    CountAndRaw(t, g, side);
    if RawThreats(t, g, side) >= 2 && Spread(ScanAll(t, g, 0), side, 0) {
      ThreatNumIsLeast(t, g, side);
    }
  }

  /** Such a node is searched down to the greatest depth, unless the side to move wins at once. */
  lemma TwoAreSearched(r: Rules, g: Grid, d: nat, mine: bool)
    requires OpenNode(r, g, mine) && !CanWin(g, Mover(r, mine)) && d < Limit(r)
    requires forall p <- CoherentInfo(r.table, g, Next(Mover(r, mine))).ThreatPoint :: OnBoard(p)
    requires TwoStonesNeeded(r.table, g, Next(Mover(r, mine)))
    ensures Judge(r, g, d, mine).Expand?
  {
    hide CoherentInfo, RawThreats, CanWin, FindsThreats, RatesThreats, SixInARow, AllInPlainSight, TwoStonesNeeded,
         LeafValue, SearchesOnForSingle;
    CountedExactlyIfWinning(r.table, g, Mover(r, mine));
    CountIsTwo(r.table, g, Next(Mover(r, mine)));
  }

  /** Without threats on either side a node beyond the nominal depth is searched exactly when the side to move has a
      point that makes two threats on some line, a strong step, or more than three weak points. */
  lemma QuietIsSearched(r: Rules, g: Grid, d: nat, mine: bool)
    requires OpenNode(r, g, mine) && !CanWin(g, Mover(r, mine)) && !CanWin(g, Next(Mover(r, mine)))
    requires r.maxDepth <= d < r.largeDepth
    ensures var own := CoherentInfo(r.table, g, Mover(r, mine));
            Judge(r, g, d, mine).Expand? <==>
              || (exists p: Point, k: Angle ::
                    Free(g, p) && HasLine(p, k) && ThreatsMade(r.table, g, p, k, Mover(r, mine)) == 2)
              || own.BigPotenStep != [] || |own.SmaPotenPoint| > 3
  {
    hide CoherentInfo, RawThreats, CanWin, RatesThreats, SixInARow, AllInPlainSight, NoSixOnLines, ThreatsMade,
         LeafValue, HasLine, Free;
    var t, mover := r.table, Mover(r, mine);
    CountedExactlyIfWinning(t, g, mover);
    CountedExactlyIfWinning(t, g, Next(mover));
    NoNegativeCount(t, g, mover);
    NoNegativeCount(t, g, Next(mover));
    NoSixNoWin(t, g, mover) by {
      FindsThreatsMarks(t);
    }
    StrongPointExists(t, g, mover);
  }

  lemma StrongPointExists(t: Table, g: Grid, side: Side)
    requires QuietSide(t, g, side)
    ensures CoherentInfo(t, g, side).BigPotenPoint != [] <==>
              exists p: Point, k: Angle :: Free(g, p) && HasLine(p, k) && ThreatsMade(t, g, p, k, side) == 2
  {
    hide CoherentInfo, QuietSide, ThreatsMade, HasLine, At;
    var l := CoherentInfo(t, g, side).BigPotenPoint;
    if l != [] {
      assert l[0] in l;
      StrongIsOnBoard(t, g, side, l[0]);
      PotentialPointsMean(t, g, side, l[0]);
    }
    if p: Point, k: Angle :| Free(g, p) && HasLine(p, k) && ThreatsMade(t, g, p, k, side) == 2 {
      PotentialPointsMean(t, g, side, p);
    }
  }

  lemma StrongIsOnBoard(t: Table, g: Grid, side: Side, p: Point)
    requires p in CoherentInfo(t, g, side).BigPotenPoint
    ensures OnBoard(p)
  {
    hide CoherentInfo, Scan, HasLine, LineThrough, LineAngle;
    ReportedOffers(t, g, side, p);
    var id: LineId :| p in Scan(t, g, id, side, 0).BigPotenPoint;
    OfferedOnItsLines(t, g, id, side, p);
  }

  // ----- and its value -----

  /** A node where the side to move can win at once has the value of that win. */
  lemma WonValue(r: Rules, g: Grid, key: Word, d: nat, mine: bool)
    requires OpenNode(r, g, mine) && CanWin(g, Mover(r, mine)) && d <= Limit(r)
    ensures Value(r, g, key, d, mine) == SignOf(mine) * (THREAT - d + 1)
  {
    hide OpenNode, Judge, CanWin, IsLost;
    NodeIsJudged(r, g, d, mine);
  }

  lemma LostValue(r: Rules, g: Grid, key: Word, d: nat, mine: bool)
    requires OpenNode(r, g, mine) && !CanWin(g, Mover(r, mine)) && IsLost(r, g, mine) && d <= Limit(r)
    ensures Value(r, g, key, d, mine) == -SignOf(mine) * (THREAT - d + 1)
  {
    hide OpenNode, Judge, CanWin, IsLost;
    NodeIsJudged(r, g, d, mine);
  }

  /** A node that needs two stones has the best outcome of its listed answers, which are exactly the answers that hold;
      unless a list is remembered. */
  lemma AnsweredValue(r: Rules, g: Grid, key: Word, d: nat, mine: bool)
    requires LawfulSorts(r.oracle) && OpenNode(r, g, mine) && !CanWin(g, Mover(r, mine)) && d < Limit(r)
    requires LookUp(r, key, d) == []
    requires forall p <- CoherentInfo(r.table, g, Next(Mover(r, mine))).ThreatPoint :: OnBoard(p)
    requires TwoStonesNeeded(r.table, g, Next(Mover(r, mine)))
    ensures var rival := Next(Mover(r, mine));
            var moves := DefendSteps(r, g, CoherentInfo(r.table, g, rival), rival);
            && Value(r, g, key, d, mine) == BestOf(r, g, key, d, mine, moves, |moves|)
            && forall m :: LegalStep(g, m) ==>
                 (!CanWin(After(g, m, Mover(r, mine)), rival) <==>
                  exists a <- moves :: {a.First, a.Second} == {m.First, m.Second})
  {
    hide CoherentInfo, RawThreats, CanWin, FindsThreats, RatesThreats, SixInARow, AllInPlainSight, TwoStonesNeeded,
         DefendSteps, Judge, BestOf, LegalStep, After, LawfulSorts;
    var rival := Next(Mover(r, mine));
    TwoAreSearched(r, g, d, mine);
    CountIsTwo(r.table, g, rival);
    forall m | LegalStep(g, m)
      ensures !CanWin(After(g, m, Mover(r, mine)), rival) <==>
              exists a <- DefendSteps(r, g, CoherentInfo(r.table, g, rival), rival) ::
                {a.First, a.Second} == {m.First, m.Second}
    {
      AnswersExact(r, g, rival, m);
    }
  }
}
