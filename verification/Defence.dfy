/** How the threat count, the listed defences and the class around a point hang together. */
module Defence {
  import opened Geometry
  import opened Shape
  import opened LineCache
  import opened Threats
  import opened Completion
  import opened Blocking
  import opened StepValue
  import opened Zobrist
  import opened Trials
  import opened GameTree

  // ----- std::sort, as some sorted permutation -----

  ghost predicate Permutes(f: seq<Step> -> seq<Step>) {
    forall l :: multiset(f(l)) == multiset(l)
  }

  ghost predicate Descends(f: seq<Step> -> seq<Step>, key: Step -> int) {
    forall l, i, j :: 0 <= i < j < |f(l)| ==> key(f(l)[i]) >= key(f(l)[j])
  }

  /** All three sorts permute and order by their key. */
  ghost predicate LawfulSorts(o: Oracle) {
    && Permutes(o.bySValueDown) && Permutes(o.bySValueUp) && Permutes(o.byLValueDown)
    && Descends(o.bySValueDown, (s: Step) => s.SValue) && Descends(o.byLValueDown, (s: Step) => s.LValue)
    && Descends(o.bySValueUp, (s: Step) => -s.SValue)
  }

  lemma PermutedMembers(f: seq<Step> -> seq<Step>, l: seq<Step>)
    requires Permutes(f)
    ensures forall m :: m in f(l) <==> m in l
    ensures |f(l)| == |l|
  {
    assert multiset(f(l)) == multiset(l);
    forall m
      ensures m in f(l) <==> m in l
    {
      assert m in f(l) <==> m in multiset(f(l));
      assert m in l <==> m in multiset(l);
    }
    assert |multiset(f(l))| == |multiset(l)|;
  }

  // ----- the listed defences -----

  /** `m` occupies two threat points that are worth occupying together. */
  ghost predicate IsDefence(r: Rules, g: Grid, pts: seq<Point>, num: int, side: Side, m: Step, i: nat, j: nat)
    requires forall p <- pts :: OnBoard(p)
  {
    i < j < |pts| && (num >= 3 || Blocks(r.table, g, pts, i, j, side)) && m == DefendStep(r, g, pts, i, j, side)
  }

  lemma {:induction false} DefendRowExact(r: Rules, g: Grid, pts: seq<Point>, num: int, i: nat, j: nat, side: Side,
                                          m: Step)
    requires i < j <= |pts| && forall p <- pts :: OnBoard(p)
    ensures m in DefendRow(r, g, pts, num, i, j, side) <==>
            exists v: nat :: i < v < j && IsDefence(r, g, pts, num, side, m, i, v)
  {
    hide DefendStep, Blocks;
    if j > i + 1 {
      DefendRowExact(r, g, pts, num, i, j - 1, side, m);
      if num >= 3 || Blocks(r.table, g, pts, i, j - 1, side) {
        assert m == DefendStep(r, g, pts, i, j - 1, side) <==> IsDefence(r, g, pts, num, side, m, i, j - 1);
      }
    }
  }

  lemma {:induction false} DefendRowsExact(r: Rules, g: Grid, pts: seq<Point>, num: int, n: nat, side: Side, m: Step)
    requires n <= |pts| && forall p <- pts :: OnBoard(p)
    ensures m in DefendRows(r, g, pts, num, n, side) <==>
            exists u: nat, v: nat :: u < n && IsDefence(r, g, pts, num, side, m, u, v)
  {
    hide IsDefence, DefendRow;
    if n > 0 {
      DefendRowsExact(r, g, pts, num, n - 1, side, m);
      DefendRowExact(r, g, pts, num, n - 1, |pts|, side, m);
      DefenceBounds(r, g, pts, num, side, m);
    }
  }

  lemma DefenceBounds(r: Rules, g: Grid, pts: seq<Point>, num: int, side: Side, m: Step)
    requires forall p <- pts :: OnBoard(p)
    ensures forall u: nat, v: nat :: IsDefence(r, g, pts, num, side, m, u, v) ==> u < v < |pts|
  {
  }

  /** The listed answers are exactly the pairs of threat points that block, or all pairs when
      three or more stones would be needed anyway. */
  lemma DefencesExact(r: Rules, g: Grid, si: Line, side: Side, m: Step)
    requires LawfulSorts(r.oracle) && forall p <- si.ThreatPoint :: OnBoard(p)
    ensures m in DefendSteps(r, g, si, side) <==>
            exists u: nat, v: nat :: IsDefence(r, g, si.ThreatPoint, si.ThreatNum, side, m, u, v)
  {
    hide IsDefence;
    var pts := si.ThreatPoint;
    DefendRowsExact(r, g, pts, si.ThreatNum, |pts|, side, m);
    PermutedMembers(r.oracle.bySValueDown, DefendRows(r, g, pts, si.ThreatNum, |pts|, side));
    DefenceBounds(r, g, pts, si.ThreatNum, side, m);
  }

  /** An answer carries the value of the board as the defender sees it after the answer, and the keys that turn
      the hash into that of the board after it. */
  ghost predicate AnswerIsValued(r: Rules, g: Grid, side: Side, m: Step) {
    && OnBoard(m.First) && OnBoard(m.Second)
    && (CountsRight(m.First, m.Second) && QuietElsewhere(r.table, g, m.First, m.Second) ==>
          m.SValue == BoardValue(r.table, After(g, m, Next(side)), Next(side)))
    && forall key: Word :: Xor(key, m.HashID) == KeyAfter(r, key, m, Next(side))
  }

  /** All of them do, and the list begins with the best. */
  ghost predicate AnswersAreValued(r: Rules, g: Grid, side: Side, moves: seq<Step>) {
    && (forall m <- moves :: AnswerIsValued(r, g, side, m))
    && forall i, j :: 0 <= i < j < |moves| ==> moves[i].SValue >= moves[j].SValue
  }

  lemma DefendStepIsValued(r: Rules, g: Grid, pts: seq<Point>, i: nat, j: nat, side: Side)
    requires i < |pts| && j < |pts| && forall p <- pts :: OnBoard(p)
    ensures AnswerIsValued(r, g, side, DefendStep(r, g, pts, i, j, side))
  {
    hide StepScore, BoardValue, CountsRight, QuietElsewhere, ScanAll, KeyOf, Xor, Put;
    var p, q, other := pts[i], pts[j], Next(side);
    assert p in pts && q in pts;
    if CountsRight(p, q) && QuietElsewhere(r.table, g, p, q) {
      StepScoreIsBoardValue(r.table, g, p, q, other);
    }
    forall key: Word
      ensures Xor(key, DefendStep(r, g, pts, i, j, side).HashID) == Toggle(r.keys, key, other, p, q)
    {
      XorAssociates(key, KeyOf(r.keys, other, p), KeyOf(r.keys, other, q));
    }
  }

  /** The listed answers are valued for the side that answers, and sorted by that. */
  lemma DefencesAreValued(r: Rules, g: Grid, si: Line, side: Side)
    requires LawfulSorts(r.oracle) && forall p <- si.ThreatPoint :: OnBoard(p)
    ensures AnswersAreValued(r, g, side, DefendSteps(r, g, si, side))
  {
    hide AnswerIsValued, DefendRows, DefendStep, Blocks;
    forall m <- DefendSteps(r, g, si, side)
      ensures AnswerIsValued(r, g, side, m)
    {
      DefencesExact(r, g, si, side, m);
      var u: nat, v: nat :| IsDefence(r, g, si.ThreatPoint, si.ThreatNum, side, m, u, v);
      DefendStepIsValued(r, g, si.ThreatPoint, u, v, side);
    }
  }

  // ----- remembered lists -----

  /** A list remembered without a cut-off is shortened to four fifths when it has more than fifteen steps. The
      minimising side keeps those of the least remembered scores, the maximising side those in front. */
  lemma RememberedList(r: Rules, g: Grid, key: Word, d: nat, mine: bool, con1: bool, con2: bool)
    requires LawfulSorts(r.oracle) && LookUp(r, key, d) != []
    ensures var entry, moves := LookUp(r, key, d)[0], MoveList(r, g, key, d, mine, con1, con2);
            var all := entry.MoveList;
            && (entry.pruning ==> moves == all)
            && (!entry.pruning ==> |moves| == if |all| > 15 then |all| * 4 / 5 else |all|)
            && (!entry.pruning && mine ==> moves <= all)
            && (!entry.pruning && !mine ==>
                  && multiset(moves) <= multiset(all)
                  && forall m <- moves, other <- all :: other !in moves ==> m.SValue <= other.SValue)
  {
    hide CoherentInfo, DefendSteps, LookUp;
    var all := LookUp(r, key, d)[0].MoveList;
    if !mine {
      KeptAreLeast(r.oracle.bySValueUp, all);
    }
  }

  lemma KeptAreLeast(f: seq<Step> -> seq<Step>, all: seq<Step>)
    requires Permutes(f) && Descends(f, (s: Step) => -s.SValue)
    ensures |f(all)| == |all| && multiset(Shortened(f(all))) <= multiset(all)
    ensures forall m <- Shortened(f(all)), other <- all :: other !in Shortened(f(all)) ==> m.SValue <= other.SValue
  {
    PermutedMembers(f, all);
    var sorted := f(all);
    var kept := Shortened(sorted);
    assert sorted == kept + sorted[|kept|..];
    assert multiset(sorted) == multiset(all);
    forall m <- kept, other <- all | other !in kept
      ensures m.SValue <= other.SValue
    {
      FrontIsLeast(sorted, |kept|, m, other);
    }
  }

  lemma FrontIsLeast(sorted: seq<Step>, n: nat, m: Step, other: Step)
    requires n <= |sorted| && m in sorted[..n] && other in sorted && other !in sorted[..n]
    requires forall i, j :: 0 <= i < j < |sorted| ==> sorted[i].SValue <= sorted[j].SValue
    ensures m.SValue <= other.SValue
  {
    var i :| 0 <= i < n && sorted[i] == m;
    var j :| 0 <= j < |sorted| && sorted[j] == other;
  }

  /** The number of threats before any correction. */
  function RawThreats(t: Table, g: Grid, side: Side): int {
    Gather(ScanAll(t, g, 0), side, 0, LINES).ThreatNum
  }

  /** The corrected threat count by the blocking test of the code. */
  lemma ThreatNumByTest(t: Table, g: Grid, side: Side)
    requires RawThreats(t, g, side) >= 2 && Spread(ScanAll(t, g, 0), side, 0)
    ensures var si := CoherentInfo(t, g, side);
            && (forall p <- si.ThreatPoint :: OnBoard(p))
            && (si.ThreatNum == 1 <==> BlockedByOne(t, g, si.ThreatPoint, side))
            && (si.ThreatNum == 2 && !BlockedByTwo(t, g, si.ThreatPoint, side) ==> RawThreats(t, g, side) == 2)
            && (BlockedByTwo(t, g, si.ThreatPoint, side) ==> si.ThreatNum <= 2)
            && (si.ThreatNum > 2 ==> si.ThreatNum == RawThreats(t, g, side)
                                     && !BlockedByOne(t, g, si.ThreatPoint, side)
                                     && !BlockedByTwo(t, g, si.ThreatPoint, side))
  {
    hide BlockedByOne, BlockedByTwo, Gather, ScanAll;
    CoherentInfoThreats(t, g, side);
  }

  /** `num` is the least of one and two such that so many threat points block every completion on the board,
      and the raw count when there is none. */
  ghost predicate IsLeastBlocking(t: Table, g: Grid, pts: seq<Point>, raw: int, num: int, side: Side)
    requires forall p <- pts :: OnBoard(p)
  {
    && (TrulyBlockedByOne(t, g, pts, side) ==> num == 1)
    && (!TrulyBlockedByOne(t, g, pts, side) && TrulyBlockedByTwo(t, g, pts, side) ==> num == 2)
    && (!TrulyBlockedByOne(t, g, pts, side) && !TrulyBlockedByTwo(t, g, pts, side) ==> num == raw)
  }

  lemma EnsuredIsLeast(t: Table, g: Grid, pts: seq<Point>, raw: int, side: Side)
    requires raw >= 2 && AllInPlainSight(pts)
    ensures IsLeastBlocking(t, g, pts, raw, EnsuredThreatNum(t, g, pts, raw, true, side), side)
  {
    hide BlockedByOne, BlockedByTwo, TrulyBlockedByOne, TrulyBlockedByTwo;
    BlockedIsTrue(t, g, pts, side);
  }

  /** For a table that marks sixes the corrected count is never above that number, wherever the threat
      points are; so it can only be too low. */
  lemma EnsuredIsNotTooHigh(t: Table, g: Grid, pts: seq<Point>, raw: int, least: int, side: Side)
    requires raw >= 2 && (forall p <- pts :: OnBoard(p)) && MarksSixes(t)
    requires IsLeastBlocking(t, g, pts, raw, least, side)
    ensures EnsuredThreatNum(t, g, pts, raw, true, side) <= least
  {
    hide Blocks, BlocksTruly, MarksSixes;
    if TrulyBlockedByOne(t, g, pts, side) {
      var i :| 0 <= i < |pts| && BlocksTruly(t, g, pts, i, i, side);
      TrueBlocksPass(t, g, pts, i, i, side);
    } else if TrulyBlockedByTwo(t, g, pts, side) {
      var i, j :| 0 <= i < j < |pts| && BlocksTruly(t, g, pts, i, j, side);
      TrueBlocksPass(t, g, pts, i, j, side);
    }
  }

  /** With threats in two directions and no threat point on the edge, the threat count is the least number of
      threat points that block every completion on the board. */
  lemma ThreatNumIsLeast(t: Table, g: Grid, side: Side)
    requires RawThreats(t, g, side) >= 2 && Spread(ScanAll(t, g, 0), side, 0)
    requires AllInPlainSight(CoherentInfo(t, g, side).ThreatPoint)
    ensures var si := CoherentInfo(t, g, side);
            IsLeastBlocking(t, g, si.ThreatPoint, RawThreats(t, g, side), si.ThreatNum, side)
  {
    hide IsLeastBlocking, EnsuredThreatNum, ScanAll, Gather, Spread;
    CoherentThreatsFree(t, g, side, 0);
    EnsuredIsLeast(t, g, CoherentInfo(t, g, side).ThreatPoint, RawThreats(t, g, side), side);
  }

  /** With a threat count of two the search answers by blocking pairs only, and it finds one exactly when
      there is one; the count itself promises one if it was corrected to two. A pair blocks by the test of
      the code, and without further threat points on the edge it blocks every completion on the board. */
  lemma ThreatCountAndDefenceAgree(r: Rules, g: Grid, side: Side)
    requires LawfulSorts(r.oracle) && CoherentInfo(r.table, g, side).ThreatNum == 2
    ensures var si := CoherentInfo(r.table, g, side);
            && (forall p <- si.ThreatPoint :: OnBoard(p))
            && (forall m <- DefendSteps(r, g, si, side) ::
                  exists u, v :: 0 <= u < v < |si.ThreatPoint|
                    && m.First == si.ThreatPoint[u] && m.Second == si.ThreatPoint[v]
                    && Blocks(r.table, g, si.ThreatPoint, u, v, side)
                    && (OthersSeen(si.ThreatPoint, u, v, side) ==> BlocksTruly(r.table, g, si.ThreatPoint, u, v, side)))
            && (DefendSteps(r, g, si, side) != [] <==> BlockedByTwo(r.table, g, si.ThreatPoint, side))
            && (AllInPlainSight(si.ThreatPoint) ==>
                  (DefendSteps(r, g, si, side) != [] <==> TrulyBlockedByTwo(r.table, g, si.ThreatPoint, side)))
            && (RawThreats(r.table, g, side) > 2 ==> DefendSteps(r, g, si, side) != [])
  {
    hide CoherentInfo, Blocks, BlocksTruly, DefendSteps, DefendRows, Gather, ScanAll, AllInPlainSight, OthersSeen;
    var si := CoherentInfo(r.table, g, side);
    CoherentInfoThreats(r.table, g, side);
    if AllInPlainSight(si.ThreatPoint) {
      BlockedIsTrue(r.table, g, si.ThreatPoint, side);
    }
    forall m <- DefendSteps(r, g, si, side)
      ensures exists u, v :: 0 <= u < v < |si.ThreatPoint|
                    && m.First == si.ThreatPoint[u] && m.Second == si.ThreatPoint[v]
                && Blocks(r.table, g, si.ThreatPoint, u, v, side)
                && (OthersSeen(si.ThreatPoint, u, v, side) ==> BlocksTruly(r.table, g, si.ThreatPoint, u, v, side))
    {
      DefencesExact(r, g, si, side, m);
      var u: nat, v: nat :| IsDefence(r, g, si.ThreatPoint, si.ThreatNum, side, m, u, v);
      if OthersSeen(si.ThreatPoint, u, v, side) {
        BlocksIsTrue(r.table, g, si.ThreatPoint, u, v, side);
      }
    }
    DefendedByTwo(r, g, si, side);
    if RawThreats(r.table, g, side) > 2 {
      CorrectedToTwo(r.table, g, side);
    }
  }

  lemma DefendedByTwo(r: Rules, g: Grid, si: Line, side: Side)
    requires LawfulSorts(r.oracle) && si.ThreatNum == 2 && forall p <- si.ThreatPoint :: OnBoard(p)
    ensures DefendSteps(r, g, si, side) != [] <==> BlockedByTwo(r.table, g, si.ThreatPoint, side)
  {
    hide Blocks, DefendSteps, DefendRows, LawfulSorts;
    if BlockedByTwo(r.table, g, si.ThreatPoint, side) {
      var u, v :| 0 <= u < v < |si.ThreatPoint| && Blocks(r.table, g, si.ThreatPoint, u, v, side);
      var m := DefendStep(r, g, si.ThreatPoint, u, v, side);
      assert IsDefence(r, g, si.ThreatPoint, si.ThreatNum, side, m, u, v);
      DefencesExact(r, g, si, side, m);
    }
    if DefendSteps(r, g, si, side) != [] {
      var m := DefendSteps(r, g, si, side)[0];
      assert m in DefendSteps(r, g, si, side);
      DefencesExact(r, g, si, side, m);
      var u: nat, v: nat :| IsDefence(r, g, si.ThreatPoint, si.ThreatNum, side, m, u, v);
    }
  }

  lemma CorrectedToTwo(t: Table, g: Grid, side: Side)
    requires CoherentInfo(t, g, side).ThreatNum == 2 && RawThreats(t, g, side) > 2
    ensures forall p <- CoherentInfo(t, g, side).ThreatPoint :: OnBoard(p)
    ensures BlockedByTwo(t, g, CoherentInfo(t, g, side).ThreatPoint, side)
  {
    hide BlockedByOne, BlockedByTwo, Gather, ScanAll;
    CoherentInfoThreats(t, g, side);
  }

  /** Every listed answer to threats of a coherent position puts two stones on distinct free cells. */
  lemma DefencesAreLegal(r: Rules, g: Grid, side: Side, m: Step)
    requires LawfulSorts(r.oracle)
    ensures forall p <- CoherentInfo(r.table, g, side).ThreatPoint :: OnBoard(p)
    ensures m in DefendSteps(r, g, CoherentInfo(r.table, g, side), side) ==> LegalStep(g, m) && m.First != m.Second
  {
    hide CoherentInfo, Blocks, DefendSteps, StepScore, ScanAll;
    var si := CoherentInfo(r.table, g, side);
    CoherentInfoThreats(r.table, g, side);
    if m in DefendSteps(r, g, si, side) {
      DefencesExact(r, g, si, side, m);
      var u: nat, v: nat :| IsDefence(r, g, si.ThreatPoint, si.ThreatNum, side, m, u, v);
      assert si.ThreatPoint[u] in si.ThreatPoint && si.ThreatPoint[v] in si.ThreatPoint;
      assert Before(si.ThreatPoint[u], si.ThreatPoint[v]);
    }
  }
}
