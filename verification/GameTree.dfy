/** The plain minimax value of a position: every node is judged by scanning its board from
    scratch, no line cache, no unmaking, no cut-offs. */
module GameTree {
  import opened Geometry
  import opened Shape
  import opened LineCache
  import opened Threats
  import opened Zobrist
  import opened StepValue
  import opened Trials

  datatype Step = Step(First: Point, Second: Point, HashID: Word, SValue: int, LValue: int)

  /** A move list remembered from an earlier search. */
  datatype History = History(pruning: bool, checksum: Word, MoveList: seq<Step>)

  /** What the search treats as given: the two generators of candidate steps, as functions of the
      position, and the arrangements std::sort makes. */
  datatype Oracle = Oracle(
    single: (Grid, Side, Line, Line, bool, bool) -> seq<Step>,
    none: (Grid, Side, Line, Line, bool) -> seq<Step>,
    bySValueDown: seq<Step> -> seq<Step>,
    bySValueUp: seq<Step> -> seq<Step>,
    byLValueDown: seq<Step> -> seq<Step>)

  /** Everything that stays fixed during one search. */
  datatype Rules = Rules(
    table: Table,
    keys: Keys,
    me: Side,
    maxDepth: nat,
    largeDepth: nat,
    comToCom: bool,
    history: seq<seq<History>>,
    oracle: Oracle)

  function Max(a: int, b: int): int {
    if a > b then a else b
  }

  function MinOf(a: int, b: int): int {
    if a < b then a else b
  }

  function Limit(r: Rules): nat {
    Max(r.maxDepth, r.largeDepth)
  }

  // ----- one node -----

  /** Either the score of a node that is not searched further, or the two flags that steer its
      move generation. */
  datatype Verdict = Decided(value: int) | Expand(con1: bool, con2: bool)

  /** The side to move. */
  function Mover(r: Rules, mine: bool): Side {
    if mine then r.me else Next(r.me)
  }

  /** Beyond the nominal depth only forcing positions are searched further. */
  ghost function JudgeDeep(r: Rules, g: Grid, d: nat, mine: bool, com: Line, per: Line): (v: Verdict)
    ensures v.Expand? ==> d < r.largeDepth
  {
    var own, rival := if mine then com else per, if mine then per else com;
    var con1 := SearchesOnForDouble(r.table, g, Mover(r, mine), own, rival);
    var con2 := SearchesOnForSingle(r.table, g, Mover(r, mine), own, rival);
    if con1 && d < r.largeDepth then Expand(true, false)
    else if con2 && d < r.largeDepth then Expand(false, true)
    else Decided(LeafValue(r, g, d, mine, com, per))
  }

  ghost function LeafValue(r: Rules, g: Grid, d: nat, mine: bool, com: Line, per: Line): int {
    if !mine && d == r.largeDepth then
      Discounted(r.table, g, r.me, com, per, r.largeDepth, com.Value - per.Value)
    else com.Value - per.Value
  }

  /** A node where `mine` says whether the engine's own side is to move. */
  ghost function Judge(r: Rules, g: Grid, d: nat, mine: bool): (v: Verdict)
    ensures v.Expand? ==> d < Limit(r)
  {
    var com, per := CoherentInfo(r.table, g, r.me), CoherentInfo(r.table, g, Next(r.me));
    var own, rival := if mine then com else per, if mine then per else com;
    var sign := if mine then 1 else -1;
    if own.ThreatNum > 0 then Decided(sign * (THREAT - d + 1))
    else if rival.ThreatNum > 2 then Decided(-sign * (THREAT - d + 1))
    else if d < r.maxDepth then Expand(false, false)
    else JudgeDeep(r, g, d, mine, com, per)
  }

  // ----- the steps of one node -----

  /** The steps that occupy both points i and j of a list of threat points. */
  ghost function DefendStep(r: Rules, g: Grid, pts: seq<Point>, i: nat, j: nat, side: Side): Step
    requires i < |pts| && j < |pts| && forall p <- pts :: OnBoard(p)
  {
    assert pts[i] in pts && pts[j] in pts;
    Step(pts[i], pts[j], Xor(KeyOf(r.keys, Next(side), pts[i]), KeyOf(r.keys, Next(side), pts[j])),
         StepScore(r.table, g, ScanAll(r.table, g, 0), pts[i], pts[j], Next(side)), 0)
  }

  ghost function DefendRow(r: Rules, g: Grid, pts: seq<Point>, num: int, i: nat, j: nat, side: Side): seq<Step>
    requires i < j <= |pts| && forall p <- pts :: OnBoard(p)
  {
    if j == i + 1 then [] else
      DefendRow(r, g, pts, num, i, j - 1, side)
      + (if num >= 3 || Blocks(r.table, g, pts, i, j - 1, side) then [DefendStep(r, g, pts, i, j - 1, side)] else [])
  }

  ghost function DefendRows(r: Rules, g: Grid, pts: seq<Point>, num: int, n: nat, side: Side): seq<Step>
    requires n <= |pts| && forall p <- pts :: OnBoard(p)
  {
    if n == 0 then [] else
      DefendRows(r, g, pts, num, n - 1, side) + DefendRow(r, g, pts, num, n - 1, |pts|, side)
  }

  /** The answers to two or more threats of `side`. */
  ghost function DefendSteps(r: Rules, g: Grid, si: Line, side: Side): seq<Step>
    requires forall p <- si.ThreatPoint :: OnBoard(p)
  {
    r.oracle.bySValueDown(DefendRows(r, g, si.ThreatPoint, si.ThreatNum, |si.ThreatPoint|, side))
  }

  /** The first entry of the frozen history table with this hash. */
  function LookUpFrom(entries: seq<History>, key: Word, i: nat): (n: nat)
    requires i <= |entries|
    ensures i <= n <= |entries|
    ensures n < |entries| ==> entries[n].checksum == key
    decreases |entries| - i
  {
    if i == |entries| || entries[i].checksum == key then i else LookUpFrom(entries, key, i + 1)
  }

  function LookUp(r: Rules, key: Word, d: nat): (entry: seq<History>)
    ensures |entry| <= 1
  {
    if r.comToCom || d >= 3 || d >= |r.history| then []
    else
      var n := LookUpFrom(r.history[d], key, 0);
      if n < |r.history[d]| then [r.history[d][n]] else []
  }

  function Shortened(l: seq<Step>): seq<Step> {
    if |l| > 15 then l[..|l| * 8 / 10] else l
  }

  /** The move list of a node: remembered, or generated according to the rival's threats. */
  ghost function MoveList(r: Rules, g: Grid, key: Word, d: nat, mine: bool, con1: bool, con2: bool): seq<Step> {
    var mover := Mover(r, mine);
    var own, rival := CoherentInfo(r.table, g, mover), CoherentInfo(r.table, g, Next(mover));
    var entry := LookUp(r, key, d);
    if entry != [] then
      if entry[0].pruning then entry[0].MoveList
      else if mine then Shortened(entry[0].MoveList)
      else Shortened(r.oracle.bySValueUp(entry[0].MoveList))
    else if rival.ThreatNum >= 2 then
      CoherentInfoThreats(r.table, g, Next(mover));
      DefendSteps(r, g, rival, Next(mover))
    else if rival.ThreatNum == 1 then r.oracle.single(g, mover, own, rival, con1, con2)
    else r.oracle.none(g, mover, own, rival, con1)
  }

  predicate LegalStep(g: Grid, m: Step) {
    Free(g, m.First) && Free(g, m.Second)
  }

  ghost function After(g: Grid, m: Step, side: Side): Grid {
    Put(Put(g, m.First, side), m.Second, side)
  }

  ghost function KeyAfter(r: Rules, key: Word, m: Step, side: Side): Word {
    Toggle(r.keys, key, side, m.First, m.Second)
  }

  // ----- the value of a tree -----

  /** The minimax value of the tree below a position at depth `d`. */
  ghost function Value(r: Rules, g: Grid, key: Word, d: nat, mine: bool): int
    requires d <= Limit(r)
    decreases Limit(r) - d, 0, 0
  {
    match Judge(r, g, d, mine)
    case Decided(v) => v
    case Expand(con1, con2) =>
      var moves := MoveList(r, g, key, d, mine, con1, con2);
      BestOf(r, g, key, d, mine, moves, |moves|)
  }

  /** The value after one step from a node at depth `d`. */
  ghost function StepOutcome(r: Rules, g: Grid, key: Word, d: nat, mine: bool, m: Step): int
    requires d < Limit(r)
    decreases Limit(r) - d - 1, 1, 0
  {
    var mover := Mover(r, mine);
    Value(r, After(g, m, mover), KeyAfter(r, key, m, mover), d + 1, !mine)
  }

  /** The best outcome over the first `n` steps of a list, starting from a certain loss. */
  ghost function BestOf(r: Rules, g: Grid, key: Word, d: nat, mine: bool, moves: seq<Step>, n: nat): int
    requires d < Limit(r) && n <= |moves|
    decreases Limit(r) - d - 1, 2, n
  {
    if n == 0 then (if mine then -THREAT else THREAT)
    else
      var rest, v := BestOf(r, g, key, d, mine, moves, n - 1), StepOutcome(r, g, key, d, mine, moves[n - 1]);
      if mine then Max(rest, v) else MinOf(rest, v)
  }

  /** Every generated step of the tree puts its stones on free cells of the board. */
  ghost predicate TreeLegal(r: Rules, g: Grid, key: Word, d: nat, mine: bool)
    requires d <= Limit(r)
    decreases Limit(r) - d
  {
    match Judge(r, g, d, mine)
    case Decided(_) => true
    case Expand(con1, con2) =>
      var mover := Mover(r, mine);
      forall m <- MoveList(r, g, key, d, mine, con1, con2) ::
        LegalStep(g, m) && TreeLegal(r, After(g, m, mover), KeyAfter(r, key, m, mover), d + 1, !mine)
  }

  /** Scores at least this good for one side end the search of a node. */
  function WinBound(r: Rules): int {
    THREAT - r.largeDepth + 1
  }

  /** What a search with window [alpha, beta] and win bound `w` may return for a node of value `v`. */
  predicate Approximates(w: int, alpha: int, beta: int, v: int, result: int) {
    && (result < alpha || result <= -w ==> v <= result)
    && (result > beta || result >= w ==> v >= result)
    && (alpha <= result <= beta && -w < result < w ==> result == v)
  }

  /** Seen from the other side everything changes sign. */
  lemma ApproximatesMirrored(w: int, alpha: int, beta: int, v: int, result: int)
    ensures Approximates(w, alpha, beta, v, result) <==> Approximates(w, -beta, -alpha, -v, -result)
  {
  }

  // ----- one cut-off loop of a minimising node -----

  /** Between two steps: `best` and `v` are the least returned and the least true outcome so far,
      `beta` the upper end of the shrinking window. */
  predicate Narrowing(w: int, alpha: int, beta0: int, beta: int, best: int, v: int) {
    && alpha <= beta <= beta0 && beta > -w
    && best >= alpha && best > -w
    && v >= best
    && (best <= beta0 && best < w ==> v == best)
    && beta >= MinOf(beta0, best)
  }

  lemma NarrowingStep(w: int, alpha: int, beta0: int, beta: int, best: int, v: int, rc: int, vc: int)
    requires Narrowing(w, alpha, beta0, beta, best, v) && Approximates(w, alpha, beta, vc, rc)
    requires rc >= alpha && MinOf(beta, rc) > -w
    ensures Narrowing(w, alpha, beta0, MinOf(beta, rc), MinOf(best, rc), MinOf(v, vc))
  {
  }

  lemma NarrowingCut(w: int, alpha: int, beta0: int, beta: int, best: int, v: int, rc: int, vc: int, total: int)
    requires Narrowing(w, alpha, beta0, beta, best, v) && Approximates(w, alpha, beta, vc, rc)
    requires rc < alpha || MinOf(beta, rc) <= -w
    requires total <= vc && alpha < w && w > 0
    ensures Approximates(w, alpha, beta0, total, MinOf(best, rc))
  {
  }

  lemma NarrowingEnd(w: int, alpha: int, beta0: int, beta: int, best: int, v: int)
    requires Narrowing(w, alpha, beta0, beta, best, v)
    ensures Approximates(w, alpha, beta0, v, best)
  {
  }

  /** The same loop of a maximising node, by changing all signs. */
  predicate Widening(w: int, alpha0: int, alpha: int, beta: int, best: int, v: int) {
    Narrowing(w, -beta, -alpha0, -alpha, -best, -v)
  }

  lemma WideningStep(w: int, alpha0: int, alpha: int, beta: int, best: int, v: int, rc: int, vc: int)
    requires Widening(w, alpha0, alpha, beta, best, v) && Approximates(w, alpha, beta, vc, rc)
    requires rc <= beta && Max(alpha, rc) < w
    ensures Widening(w, alpha0, Max(alpha, rc), beta, Max(best, rc), Max(v, vc))
  {
    ApproximatesMirrored(w, alpha, beta, vc, rc);
    NarrowingStep(w, -beta, -alpha0, -alpha, -best, -v, -rc, -vc);
  }

  lemma WideningCut(w: int, alpha0: int, alpha: int, beta: int, best: int, v: int, rc: int, vc: int, total: int)
    requires Widening(w, alpha0, alpha, beta, best, v) && Approximates(w, alpha, beta, vc, rc)
    requires rc > beta || Max(alpha, rc) >= w
    requires total >= vc && beta > -w && w > 0
    ensures Approximates(w, alpha0, beta, total, Max(best, rc))
  {
    ApproximatesMirrored(w, alpha, beta, vc, rc);
    NarrowingCut(w, -beta, -alpha0, -alpha, -best, -v, -rc, -vc, -total);
    ApproximatesMirrored(w, alpha0, beta, total, Max(best, rc));
  }

  lemma WideningEnd(w: int, alpha0: int, alpha: int, beta: int, best: int, v: int)
    requires Widening(w, alpha0, alpha, beta, best, v)
    ensures Approximates(w, alpha0, beta, v, best)
  {
    NarrowingEnd(w, -beta, -alpha0, -alpha, -best, -v);
    ApproximatesMirrored(w, alpha0, beta, v, best);
  }

  // ----- a move list by its outcomes -----

  /** The best of the first `n` outcomes, starting from a certain loss. */
  function BestOutcome(outcomes: seq<int>, mine: bool, n: nat): int
    requires n <= |outcomes|
  {
    if n == 0 then (if mine then -THREAT else THREAT)
    else if mine then Max(BestOutcome(outcomes, mine, n - 1), outcomes[n - 1])
    else MinOf(BestOutcome(outcomes, mine, n - 1), outcomes[n - 1])
  }

  lemma FirstOutcome(outcomes: seq<int>, mine: bool)
    ensures BestOutcome(outcomes, mine, 0) == if mine then -THREAT else THREAT
  {
  }

  lemma NextOutcome(outcomes: seq<int>, mine: bool, n: nat)
    requires n < |outcomes|
    ensures BestOutcome(outcomes, mine, n + 1)
         == if mine then Max(BestOutcome(outcomes, mine, n), outcomes[n])
            else MinOf(BestOutcome(outcomes, mine, n), outcomes[n])
  {
  }

  lemma {:induction false} BestOutcomeBound(outcomes: seq<int>, mine: bool, i: nat, n: nat)
    requires i < n <= |outcomes|
    ensures if mine then BestOutcome(outcomes, mine, n) >= outcomes[i]
            else BestOutcome(outcomes, mine, n) <= outcomes[i]
    decreases n
  {
    if i < n - 1 {
      BestOutcomeBound(outcomes, mine, i, n - 1);
    }
  }

  ghost predicate AreOutcomes(r: Rules, g: Grid, key: Word, d: nat, mine: bool, moves: seq<Step>, outcomes: seq<int>)
    requires d < Limit(r)
  {
    |outcomes| == |moves| &&
    forall i {:trigger StepOutcome(r, g, key, d, mine, moves[i])} :: 0 <= i < |moves| ==>
      outcomes[i] == StepOutcome(r, g, key, d, mine, moves[i])
  }

  lemma Outcomes(r: Rules, g: Grid, key: Word, d: nat, mine: bool, moves: seq<Step>) returns (outcomes: seq<int>)
    requires d < Limit(r)
    ensures AreOutcomes(r, g, key, d, mine, moves, outcomes)
    ensures BestOf(r, g, key, d, mine, moves, |moves|) == BestOutcome(outcomes, mine, |moves|)
  {
    outcomes := seq(|moves|, i requires 0 <= i < |moves| => StepOutcome(r, g, key, d, mine, moves[i]));
    BestOfOutcomes(r, g, key, d, mine, moves, outcomes, |moves|);
  }

  lemma {:induction false} BestOfOutcomes(r: Rules, g: Grid, key: Word, d: nat, mine: bool, moves: seq<Step>,
                                          outcomes: seq<int>, n: nat)
    requires d < Limit(r) && n <= |moves| && AreOutcomes(r, g, key, d, mine, moves, outcomes)
    ensures BestOf(r, g, key, d, mine, moves, n) == BestOutcome(outcomes, mine, n)
  {
    if n > 0 {
      BestOfOutcomes(r, g, key, d, mine, moves, outcomes, n - 1);
    }
  }

  /** The steps of a list are legal, and so are all steps searched after them. */
  ghost predicate AllLegal(r: Rules, g: Grid, key: Word, d: nat, mine: bool, moves: seq<Step>)
    requires d < Limit(r)
  {
    forall m <- moves ::
      LegalStep(g, m) && TreeLegal(r, After(g, m, Mover(r, mine)), KeyAfter(r, key, m, Mover(r, mine)), d + 1, !mine)
  }

  /** An expanded node: its list is legal and its value is the best outcome. */
  lemma ExpandedNode(r: Rules, g: Grid, key: Word, d: nat, mine: bool) returns (outcomes: seq<int>)
    requires d <= Limit(r) && TreeLegal(r, g, key, d, mine) && Judge(r, g, d, mine).Expand?
    ensures var v := Judge(r, g, d, mine);
            var moves := MoveList(r, g, key, d, mine, v.con1, v.con2);
            && d < Limit(r) && AllLegal(r, g, key, d, mine, moves)
            && AreOutcomes(r, g, key, d, mine, moves, outcomes) && |outcomes| == |moves|
            && Value(r, g, key, d, mine) == BestOutcome(outcomes, mine, |outcomes|)
  {
    var v := Judge(r, g, d, mine);
    outcomes := Outcomes(r, g, key, d, mine, MoveList(r, g, key, d, mine, v.con1, v.con2));
  }
}
