/** When the search for an immediate win succeeds: exactly when there are two threat points to try. */
module WinSearch {
  import opened Geometry
  import opened Shape
  import opened LineScan
  import opened LineCache
  import opened Threats
  import opened Completion
  import opened Trials
  import opened Victory
  import opened WinSteps

  // ----- what the table has to say about threats -----

  ghost predicate IsThreatWindow(own: seq<bool>, w: nat) {
    w + 6 <= |own| && Stones(own, w, 6) in {4, 5}
  }

  predicate IsThreatClass(c: int) {
    9 <= c <= 14
  }

  /** The threat classes stand for shapes with four or five own stones in six cells. */
  ghost predicate MarksThreats(t: Table) {
    forall own {:trigger Class(t, own)} :: IsSegment(own) && IsThreatClass(Class(t, own)) ==>
      exists w: nat :: IsThreatWindow(own, w)
  }

  // ----- a threat that is counted lies in some window -----

  /** A positive count of merged segments comes from one of a threat class, and its points are among the merged. */
  lemma {:induction false} MergedThreat(t: Table, cells: seq<Cell>, start: Point, k: Angle, side: Side,
                                        segs: seq<Segment>)
    returns (s: Segment)
    requires (forall r <- segs :: Fits(cells, r)) && Merged(t, cells, start, k, side, 0, segs).ThreatNum > 0
    ensures s in segs && IsThreatClass(SegmentClass(t, cells, side, s))
    ensures forall p <- SegmentLine(t, cells, start, k, side, 0, s).ThreatPoint ::
              p in Merged(t, cells, start, k, side, 0, segs).ThreatPoint
  {
    hide SegmentClass, SegmentLine;
    var init, last := segs[..|segs| - 1], segs[|segs| - 1];
    SegmentCount(t, cells, start, k, side, last);
    if IsThreatClass(SegmentClass(t, cells, side, last)) {
      s := last;
    } else {
      s := MergedThreat(t, cells, start, k, side, init);
    }
  }

  lemma SegmentCount(t: Table, cells: seq<Cell>, start: Point, k: Angle, side: Side, s: Segment)
    requires Fits(cells, s)
    ensures SegmentLine(t, cells, start, k, side, 0, s).ThreatNum > 0 ==> IsThreatClass(SegmentClass(t, cells, side, s))
  {
    hide Class, Points, Pairs, ThreatGaps, Picks, PairPicks;
  }

  /** A line with a counted threat has a maximal segment of a threat class, and reports its points. */
  lemma LineThreat(t: Table, g: Grid, id: LineId, side: Side) returns (s: Segment)
    requires Scan(t, g, id, side, 0).ThreatNum > 0
    ensures Fits(LineCells(g, id), s) && IsThreatClass(SegmentClass(t, LineCells(g, id), side, s))
    ensures forall p <- SegmentLine(t, LineCells(g, id), LineStart(id), LineAngle(id), side, 0, s).ThreatPoint ::
              p in Scan(t, g, id, side, 0).ThreatPoint
  {
    hide Analysis, Segments, Merged, SegmentLine, SegmentClass, LineCells;
    var cells, start, k := LineCells(g, id), LineStart(id), LineAngle(id);
    LineIsShort(g, id);
    AnalysisDecomposes(t, cells, start, k, side, 0);
    if NoWin(t, cells, side) {
      s := MergedThreat(t, cells, start, k, side, Segments(cells, side));
    } else {
      s :| IsMaximalSegment(cells, side, s) && SegmentClass(t, cells, side, s) == 15
           && Analysis(t, cells, start, k, side, 0) == SegmentLine(t, cells, start, k, side, 0, s);
      SegmentCount(t, cells, start, k, side, s);
    }
  }

  lemma LineIsShort(g: Grid, id: LineId)
    ensures |LineCells(g, id)| <= 19
  {
  }

  lemma {:induction false} GatheredThreat(c: Cache, side: Side, n: nat) returns (id: LineId)
    requires n <= LINES && Gather(c, side, 0, n).ThreatNum > 0
    ensures c[SlotOf(side, id)].ThreatNum > 0
    ensures forall p <- c[SlotOf(side, id)].ThreatPoint :: p in Gather(c, side, 0, n).ThreatPoint
  {
    if c[SlotOf(side, n - 1)].ThreatNum > 0 {
      id := n - 1;
    } else {
      id := GatheredThreat(c, side, n - 1);
    }
  }

  /** The corrected count is positive only where the raw one is, and the points are the gathered ones. */
  lemma CountIsGathered(t: Table, g: Grid, side: Side)
    requires CoherentInfo(t, g, side).ThreatNum > 0
    ensures var l := Gather(ScanAll(t, g, 0), side, 0, LINES);
            l.ThreatNum > 0 && forall p <- l.ThreatPoint :: p in CoherentInfo(t, g, side).ThreatPoint
  {
    hide ScanAll, Gather, Spread, BlockedByOne, BlockedByTwo;
    CoherentThreatsFree(t, g, side, 0);
  }

  // ----- windows on the board -----

  /** Six cells in a row that are own stones, but for one or two cells that are on the list. */
  ghost predicate Window(g: Grid, pts: seq<Point>, side: Side, q: Point, k: Angle, a: nat, b: nat) {
    && OnBoard(q) && OnBoard(Along(q, k, 5)) && a <= b <= 5
    && Along(q, k, a) in pts && Along(q, k, b) in pts
    && forall n :: 0 <= n <= 5 && n != a && n != b ==> OnBoard(Along(q, k, n)) && At(g, Along(q, k, n)) == side
  }

  /** The gaps of a threat window. */
  lemma WindowGaps(own: seq<bool>, w: nat) returns (a: nat, b: nat)
    requires IsThreatWindow(own, w)
    ensures w + 6 <= |own| && a <= b <= 5 && !own[w + a] && !own[w + b]
    ensures forall i :: w <= i < w + 6 && i != w + a && i != w + b ==> own[i]
    ensures |own| >= 6 && w + a in ThreatGaps(own, |own| - 5) && w + b in ThreatGaps(own, |own| - 5)
  {
    hide Stones, Gaps, ThreatGaps;
    GapsExact(own, w, 6);
    var gaps := Gaps(own, w, 6);
    var x, y := gaps[0], gaps[|gaps| - 1];
    assert x in gaps && y in gaps;
    a, b := Min(x, y) - w, (if x < y then y else x) - w;
    ThreatGapsExact(own, |own| - 5);
    assert IsThreatGap(own, w, x) && IsThreatGap(own, w, y);
  }

  /** The points that a segment of a threat class reports. */
  lemma ReportedGaps(t: Table, cells: seq<Cell>, start: Point, k: Angle, side: Side, s: Segment, x: nat)
    requires Fits(cells, s) && IsThreatClass(SegmentClass(t, cells, side, s))
    requires var own := Own(cells, side, s.lo, s.hi); x in ThreatGaps(own, |own| - 5)
    ensures Along(start, k, s.lo + x) in SegmentLine(t, cells, start, k, side, 0, s).ThreatPoint
  {
    hide ThreatGaps, Class;
    var own := Own(cells, side, s.lo, s.hi);
    var gaps := ThreatGaps(own, |own| - 5);
    var i :| 0 <= i < |gaps| && gaps[i] == x;
    var reported := SegmentLine(t, cells, start, k, side, 0, s).ThreatPoint;
    assert reported[i] == Along(Along(start, k, s.lo), k, x) == Along(start, k, s.lo + x);
  }

  /** A counted threat is a window of the board whose gaps are threat points. */
  lemma WindowExists(t: Table, g: Grid, side: Side) returns (q: Point, k: Angle, a: nat, b: nat)
    requires MarksThreats(t) && CoherentInfo(t, g, side).ThreatNum > 0
    ensures Window(g, CoherentInfo(t, g, side).ThreatPoint, side, q, k, a, b)
  {
    hide *;
    var pts := CoherentInfo(t, g, side).ThreatPoint;
    CountIsGathered(t, g, side);
    var id := GatheredThreat(ScanAll(t, g, 0), side, LINES);
    CachedLine(t, g, side, id);
    var s := LineThreat(t, g, id, side);
    q, k, a, b := SegmentWindow(t, g, id, side, s, pts);
  }

  lemma CachedLine(t: Table, g: Grid, side: Side, id: LineId)
    ensures ScanAll(t, g, 0)[SlotOf(side, id)] == Scan(t, g, id, side, 0)
  {
    hide Scan;
  }

  lemma SegmentWindow(t: Table, g: Grid, id: LineId, side: Side, s: Segment, pts: seq<Point>)
    returns (q: Point, k: Angle, a: nat, b: nat)
    requires MarksThreats(t) && Fits(LineCells(g, id), s) && IsThreatClass(SegmentClass(t, LineCells(g, id), side, s))
    requires forall p <- SegmentLine(t, LineCells(g, id), LineStart(id), LineAngle(id), side, 0, s).ThreatPoint ::
              p in pts
    ensures Window(g, pts, side, q, k, a, b)
  {
    hide Class, SegmentLine, ThreatGaps, LineStart, LineAngle, LineCells, Stones, Window, Along, IsThreatWindow, Own;
    var cells, start := LineCells(g, id), LineStart(id);
    var own := Own(cells, side, s.lo, s.hi);
    var w: nat :| IsThreatWindow(own, w);
    a, b := WindowGaps(own, w);
    k := LineAngle(id);
    q := Along(start, k, s.lo + w);
    ReportedGaps(t, cells, start, k, side, s, w + a);
    ReportedGaps(t, cells, start, k, side, s, w + b);
    OwnWindow(cells, side, s, w, a, b);
    CellsOfLine(g, id);
    OwnOnBoard(g, start, k, side, cells, s.lo + w, a, b, pts);
  }

  lemma CellsOfLine(g: Grid, id: LineId)
    ensures LineCells(g, id) == Ray(g, LineStart(id), LineAngle(id))
  {
  }

  lemma OwnWindow(cells: seq<Cell>, side: Side, s: Segment, w: nat, a: nat, b: nat)
    requires Fits(cells, s) && w + 6 <= s.hi - s.lo
    requires forall i :: w <= i < w + 6 && i != w + a && i != w + b ==> Own(cells, side, s.lo, s.hi)[i]
    ensures forall i :: s.lo + w <= i < s.lo + w + 6 && i != s.lo + w + a && i != s.lo + w + b ==> cells[i] == side
  {
    forall i | s.lo + w <= i < s.lo + w + 6 && i != s.lo + w + a && i != s.lo + w + b
      ensures cells[i] == side
    {
      assert Own(cells, side, s.lo, s.hi)[i - s.lo];
    }
  }

  lemma OwnOnBoard(g: Grid, start: Point, k: Angle, side: Side, cells: seq<Cell>, o: nat, a: nat, b: nat,
                   pts: seq<Point>)
    requires OnBoard(start) && cells == Ray(g, start, k) && o + 6 <= |cells| && a <= b <= 5
    requires Along(start, k, o + a) in pts && Along(start, k, o + b) in pts
    requires forall i :: o <= i < o + 6 && i != o + a && i != o + b ==> cells[i] == side
    ensures Window(g, pts, side, Along(start, k, o), k, a, b)
  {
    hide Ray, At;
    var q := Along(start, k, o);
    forall n | 0 <= n <= 5
      ensures Along(q, k, n) == Along(start, k, o + n)
      ensures OnBoard(Along(q, k, n)) && At(g, Along(q, k, n)) == cells[o + n]
    {
      assert Along(q, k, n) == Along(start, k, o + n);
      assert cells[o + n] == At(g, Along(start, k, o + n));
    }
    assert Along(q, k, a) == Along(start, k, o + a) && Along(q, k, b) == Along(start, k, o + b);
    assert OnBoard(Along(q, k, 0)) && Along(q, k, 0) == q && OnBoard(Along(q, k, 5));
  }

  // ----- a window is completed by some pair -----

  /** A pair of places on the list that holds both points. */
  lemma PairWith(pts: seq<Point>, p: Point, q: Point) returns (i: nat, j: nat)
    requires |pts| >= 2 && p in pts && q in pts
    ensures i < j < |pts| && p in {pts[i], pts[j]} && q in {pts[i], pts[j]}
  {
    var u :| 0 <= u < |pts| && pts[u] == p;
    var v :| 0 <= v < |pts| && pts[v] == q;
    if u != v {
      i, j := Min(u, v), if u < v then v else u;
    } else {
      i, j := 0, if u == 0 then 1 else u;
    }
  }

  /** With the stones of such a pair, on top of any trial stones before, the window is six in a row. */
  lemma WindowFills(g: Grid, pts: seq<Point>, side: Side, q: Point, k: Angle, a: nat, b: nat, n: nat)
    requires Window(g, pts, side, q, k, a, b) && (forall p <- pts :: OnBoard(p))
    requires n <= |pts| && Along(q, k, a) in pts[..n] && Along(q, k, b) in pts[..n]
    ensures SixAt(StonesOn(g, pts, side, n), q, k, side)
  {
    hide StonesOn, At, Along;
    forall m | 0 <= m <= 5
      ensures OnBoard(Along(q, k, m)) && At(StonesOn(g, pts, side, n), Along(q, k, m)) == side
    {
      assert OnBoard(Along(q, k, m));
      StonesOnAt(g, pts, side, n, Along(q, k, m));
    }
  }

  /** A pair that fills the window wins in its turn. */
  lemma PairFillsWindow(t: Table, g: Grid, pts: seq<Point>, side: Side, q: Point, k: Angle, a: nat, b: nat, i: nat,
                        j: nat)
    requires MarksSixes(t) && AllInPlainSight(pts) && Window(g, pts, side, q, k, a, b)
    requires i < j < |pts| && Along(q, k, a) in {pts[i], pts[j]} && Along(q, k, b) in {pts[i], pts[j]}
    ensures WinsInTurn(t, g, pts, side, i, j)
  {
    hide StonesOn, Along, MarksSixes, WinsAt, CompletesAt, SixAt, Put;
    var n := if i == 0 then j + 1 else |pts|;
    var h := StonesOn(g, pts, side, n);
    TrialPair(g, pts, side, i, j);
    assert pts[..n][i] == pts[i] && pts[..n][j] == pts[j];
    WindowFills(g, pts, side, q, k, a, b, n);
    SixIsCompletion(t, h, q, k, a, side);
    var p := Along(q, k, a);
    assert p in pts[..n] && p in pts;
    StonesOnAt(g, pts, side, n, p);
    WinsAtIsCompletion(t, h, p, side);
  }

  /** The threat points of a position with a counted threat and no threat point on the edge, for a table
      that marks sixes and threats. */
  ghost predicate ThreatsInSight(t: Table, g: Grid, side: Side, pts: seq<Point>) {
    && MarksSixes(t) && MarksThreats(t) && AllInPlainSight(pts)
    && CoherentInfo(t, g, side).ThreatNum > 0 && CoherentInfo(t, g, side).ThreatPoint == pts
  }

  /** Among them the search for a win finds a pair exactly when there are two. */
  lemma FoundExactly(t: Table, g: Grid, side: Side, pts: seq<Point>)
    requires ThreatsInSight(t, g, side, pts)
    ensures (forall p <- pts :: OnBoard(p)) && (SomePairWins(t, g, pts, side) <==> |pts| >= 2)
  {
    hide CoherentInfo, MarksSixes, MarksThreats, Window, WinsInTurn;
    if |pts| >= 2 {
      var q, k, a, b := WindowExists(t, g, side);
      WindowIsListed(g, pts, side, q, k, a, b);
      var i, j := PairWith(pts, Along(q, k, a), Along(q, k, b));
      PairFillsWindow(t, g, pts, side, q, k, a, b, i, j);
    } else {
      NoPair(t, g, pts, side);
    }
  }

  lemma WindowIsListed(g: Grid, pts: seq<Point>, side: Side, q: Point, k: Angle, a: nat, b: nat)
    requires Window(g, pts, side, q, k, a, b)
    ensures Along(q, k, a) in pts && Along(q, k, b) in pts
  {
  }

  lemma NoPair(t: Table, g: Grid, pts: seq<Point>, side: Side)
    requires |pts| < 2 && forall p <- pts :: OnBoard(p)
    ensures !SomePairWins(t, g, pts, side)
  {
  }

  // ----- which pair is found -----

  /** A table that marks sixes, points in plain sight, and no six on the board yet. */
  ghost predicate SixesInSight(t: Table, g: Grid, pts: seq<Point>, side: Side) {
    MarksSixes(t) && AllInPlainSight(pts) && !SixInARow(g, side)
  }

  /** The stones of points 0 to `j` make six in a row, and fewer do not. */
  ghost predicate IsFirstSix(g: Grid, pts: seq<Point>, side: Side, j: nat) {
    && 0 < j < |pts| && SixInARow(StonesOn(g, pts, side, j + 1), side)
    && forall n :: 2 <= n <= j ==> !SixInARow(StonesOn(g, pts, side, n), side)
  }

  /** A six that the stones of points `m` to `n` bring about shows at one of them. */
  lemma NewSixShows(t: Table, g: Grid, pts: seq<Point>, side: Side, m: nat, n: nat) returns (x: nat)
    requires MarksSixes(t) && AllInPlainSight(pts) && m <= n <= |pts|
    requires SixInARow(StonesOn(g, pts, side, n), side) && !SixInARow(StonesOn(g, pts, side, m), side)
    ensures m <= x < n && OnBoard(pts[x]) && WinsAt(t, StonesOn(g, pts, side, n), pts[x], side)
  {
    hide StonesOn, At, Along, MarksSixes, WinsAt, CompletesAt;
    var h := StonesOn(g, pts, side, n);
    var q: Point, k: Angle :| OnBoard(q) && OnBoard(Along(q, k, 5)) && SixAt(h, q, k, side);
    var i: nat;
    i, x := NewStoneOfSix(g, pts, side, m, n, q, k);
    assert pts[x] in pts;
    SixIsCompletion(t, h, q, k, i, side);
    WinsAtIsCompletion(t, h, pts[x], side);
  }

  lemma NewStoneOfSix(g: Grid, pts: seq<Point>, side: Side, m: nat, n: nat, q: Point, k: Angle) returns (i: nat, x: nat)
    requires (forall p <- pts :: OnBoard(p)) && m <= n <= |pts| && OnBoard(q) && OnBoard(Along(q, k, 5))
    requires SixAt(StonesOn(g, pts, side, n), q, k, side) && !SixInARow(StonesOn(g, pts, side, m), side)
    ensures i <= 5 && m <= x < n && pts[x] == Along(q, k, i) && OnBoard(pts[x])
    ensures At(StonesOn(g, pts, side, n), pts[x]) == side
  {
    hide StonesOn, At, Along;
    assert !SixAt(StonesOn(g, pts, side, m), q, k, side);
    i :| 0 <= i <= 5 && !(OnBoard(Along(q, k, i)) && At(StonesOn(g, pts, side, m), Along(q, k, i)) == side);
    StonesOnAt(g, pts, side, m, Along(q, k, i));
    StonesOnAt(g, pts, side, n, Along(q, k, i));
    x :| 0 <= x < n && pts[..n][x] == Along(q, k, i);
  }

  /** As long as the points before made no six, a turn of the first point wins exactly when they do now. */
  lemma FirstTurns(t: Table, g: Grid, pts: seq<Point>, side: Side, j: nat)
    requires MarksSixes(t) && AllInPlainSight(pts) && 0 < j < |pts|
    requires !SixInARow(StonesOn(g, pts, side, if j == 1 then 0 else j), side)
    ensures WinsInTurn(t, g, pts, side, 0, j) <==> SixInARow(StonesOn(g, pts, side, j + 1), side)
  {
    hide StonesOn, MarksSixes, WinsAt, SixInARow, Put;
    var h := StonesOn(g, pts, side, j + 1);
    TrialPair(g, pts, side, 0, j);
    if SixInARow(h, side) {
      var x := NewSixShows(t, g, pts, side, if j == 1 then 0 else j, j + 1);
      assert x == 0 || x == j;
    }
    if WinsInTurn(t, g, pts, side, 0, j) {
      ShownIsSix(t, g, pts, side, 0, j);
    }
  }

  lemma ShownIsSix(t: Table, g: Grid, pts: seq<Point>, side: Side, i: nat, j: nat)
    requires MarksSixes(t) && AllInPlainSight(pts) && WinsInTurn(t, g, pts, side, i, j)
    ensures i < j < |pts| && SixInARow(StonesOn(g, pts, side, if i == 0 then j + 1 else |pts|), side)
  {
    hide StonesOn, MarksSixes, WinsAt, CompletesAt, SixInARow, Put, InPlainSight;
    var n := if i == 0 then j + 1 else |pts|;
    var h := StonesOn(g, pts, side, n);
    TrialPair(g, pts, side, i, j);
    var x := if WinsAt(t, h, pts[i], side) then i else j;
    assert pts[x] in pts && pts[..n][x] == pts[x];
    StonesOnAt(g, pts, side, n, pts[x]);
    WinsAtIsCompletion(t, h, pts[x], side);
    CompletionIsSix(t, h, pts[x], side);
  }

  /** While no turn of the first point has won, its stones have made no six. */
  lemma {:induction false} NoSixBefore(t: Table, g: Grid, pts: seq<Point>, side: Side, n: nat)
    requires SixesInSight(t, g, pts, side) && n < |pts|
    requires forall v: nat :: 0 < v <= n ==> !WinsInTurn(t, g, pts, side, 0, v)
    ensures forall m :: 2 <= m <= n + 1 ==> !SixInARow(StonesOn(g, pts, side, m), side)
  {
    hide StonesOn, MarksSixes, WinsInTurn, SixInARow, AllInPlainSight;
    if n > 0 {
      NoSixBefore(t, g, pts, side, n - 1);
      NoStones(g, pts, side);
      FirstTurns(t, g, pts, side, n);
    }
  }

  /** The search amounts to putting stones on the points one by one until there is a six: the pair found is the
      first point and the one that completes the six, whether or not the stones between are needed for it. */
  lemma FirstSixIsFound(t: Table, g: Grid, pts: seq<Point>, side: Side, i: nat, j: nat)
    requires SixesInSight(t, g, pts, side) && IsFirstWin(t, g, pts, side, i, j)
    ensures i == 0 && IsFirstSix(g, pts, side, j)
  {
    hide StonesOn, MarksSixes, WinsInTurn, SixInARow, AllInPlainSight;
    ShownIsSix(t, g, pts, side, i, j);
    NoSixBefore(t, g, pts, side, if i == 0 then j - 1 else |pts| - 1);
  }

  /** So a pair is found exactly when there are two points and the stones on all of them make six in a row. */
  lemma FoundWithAllStones(t: Table, g: Grid, pts: seq<Point>, side: Side)
    requires SixesInSight(t, g, pts, side)
    ensures forall p <- pts :: OnBoard(p)
    ensures SomePairWins(t, g, pts, side) <==> |pts| >= 2 && SixInARow(StonesOn(g, pts, side, |pts|), side)
  {
    hide StonesOn, MarksSixes, WinsInTurn, SixInARow, InPlainSight;
    if i: nat, j: nat :| WinsInTurn(t, g, pts, side, i, j) {
      ShownIsSix(t, g, pts, side, i, j);
      if i == 0 {
        MoreStonesKeepSix(g, pts, side, j + 1, |pts|);
      }
    } else if |pts| >= 2 {
      NoSixBefore(t, g, pts, side, |pts| - 1);
      assert !SixInARow(StonesOn(g, pts, side, |pts|), side);
    }
  }

  lemma MoreStonesKeepSix(g: Grid, pts: seq<Point>, side: Side, m: nat, n: nat)
    requires (forall p <- pts :: OnBoard(p)) && m <= n <= |pts| && SixInARow(StonesOn(g, pts, side, m), side)
    ensures SixInARow(StonesOn(g, pts, side, n), side)
  {
    hide StonesOn, At, Along;
    var q: Point, k: Angle :| OnBoard(q) && OnBoard(Along(q, k, 5)) && SixAt(StonesOn(g, pts, side, m), q, k, side);
    forall i | 0 <= i <= 5
      ensures OnBoard(Along(q, k, i)) && At(StonesOn(g, pts, side, n), Along(q, k, i)) == side
    {
      assert OnBoard(Along(q, k, i));
      StonesOnAt(g, pts, side, m, Along(q, k, i));
      StonesOnAt(g, pts, side, n, Along(q, k, i));
      assert pts[..m] == pts[..n][..m];
    }
    assert SixAt(StonesOn(g, pts, side, n), q, k, side);
  }
}
