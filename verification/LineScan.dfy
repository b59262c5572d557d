/** The scan of one line: cutting it into the opponent-free segments and adding up
    what the segments offer. */
module LineScan {
  import opened Bits
  import opened Geometry
  import opened Shape
  import opened Valuation

  /** Cells lo, lo + 1, ..., hi - 1 of a line. */
  datatype Segment = Segment(lo: nat, hi: nat)

  /** The length of the opponent-free run that ends just before cell `n`. */
  function Run(cells: seq<Cell>, side: Side, n: nat): (r: nat)
    requires n <= |cells|
    ensures r <= n
  {
    if n == 0 || cells[n - 1] == Next(side) then 0 else Run(cells, side, n - 1) + 1
  }

  /** The run that ends just before cell `n`, if six cells fit in it. */
  function LastSegment(cells: seq<Cell>, side: Side, n: nat): seq<Segment>
    requires n <= |cells|
  {
    var r := Run(cells, side, n);
    if r > 5 then [Segment(n - r, n)] else []
  }

  /** The segments that an opponent stone among the first `n` cells has closed. */
  function Closed(cells: seq<Cell>, side: Side, n: nat): seq<Segment>
    requires n <= |cells|
  {
    if n == 0 then [] else
      Closed(cells, side, n - 1) + (if cells[n - 1] == Next(side) then LastSegment(cells, side, n - 1) else [])
  }

  function Segments(cells: seq<Cell>, side: Side): seq<Segment> {
    Closed(cells, side, |cells|) + LastSegment(cells, side, |cells|)
  }

  /** The maximal opponent-free stretches of at least six cells. */
  ghost predicate IsMaximalSegment(cells: seq<Cell>, side: Side, s: Segment) {
    && s.lo + 6 <= s.hi <= |cells|
    && (forall i :: s.lo <= i < s.hi ==> cells[i] != Next(side))
    && (s.lo == 0 || cells[s.lo - 1] == Next(side))
    && (s.hi == |cells| || cells[s.hi] == Next(side))
  }

  lemma {:induction false} RunMaximal(cells: seq<Cell>, side: Side, n: nat)
    requires n <= |cells|
    ensures forall i :: n - Run(cells, side, n) <= i < n ==> cells[i] != Next(side)
    ensures var lo := n - Run(cells, side, n); lo == 0 || cells[lo - 1] == Next(side)
  {
    if n > 0 && cells[n - 1] != Next(side) {
      RunMaximal(cells, side, n - 1);
    }
  }

  lemma {:induction false} RunInside(cells: seq<Cell>, side: Side, lo: nat, n: nat)
    requires lo <= n <= |cells| && (lo == 0 || cells[lo - 1] == Next(side))
    requires forall i :: lo <= i < n ==> cells[i] != Next(side)
    ensures Run(cells, side, n) == n - lo
  {
    if lo < n {
      RunInside(cells, side, lo, n - 1);
    }
  }

  /** The run before an opponent stone or before the end is a maximal segment, if it is long enough. */
  lemma LastSegmentExact(cells: seq<Cell>, side: Side, n: nat)
    requires n <= |cells| && (n == |cells| || cells[n] == Next(side))
    ensures forall s: Segment :: s in LastSegment(cells, side, n) <==> s.hi == n && IsMaximalSegment(cells, side, s)
  {
    RunMaximal(cells, side, n);
    forall s: Segment | s.hi == n && IsMaximalSegment(cells, side, s)
      ensures s in LastSegment(cells, side, n)
    {
      RunInside(cells, side, s.lo, n);
    }
  }

  lemma {:induction false} ClosedExact(cells: seq<Cell>, side: Side, n: nat)
    requires n <= |cells|
    ensures forall s :: s in Closed(cells, side, n) <==> s.hi < n && IsMaximalSegment(cells, side, s)
  {
    if n > 0 {
      ClosedExact(cells, side, n - 1);
      if cells[n - 1] == Next(side) {
        LastSegmentExact(cells, side, n - 1);
      }
    }
  }

  /** The scan finds exactly the maximal opponent-free segments of length at least six. */
  lemma SegmentsExact(cells: seq<Cell>, side: Side)
    ensures forall s :: s in Segments(cells, side) <==> IsMaximalSegment(cells, side, s)
  {
    ClosedExact(cells, side, |cells|);
    LastSegmentExact(cells, side, |cells|);
  }

  ghost predicate InOrder(segs: seq<Segment>) {
    forall i, j :: 0 <= i < j < |segs| ==> segs[i].hi < segs[j].lo
  }

  lemma SnocInOrder(segs: seq<Segment>, s: Segment)
    requires InOrder(segs) && forall r :: r in segs ==> r.hi < s.lo
    ensures InOrder(segs + [s])
  {
    assert forall i :: 0 <= i < |segs| ==> segs[i] in segs;
  }

  lemma {:induction false} ClosedOrdered(cells: seq<Cell>, side: Side, n: nat)
    requires n <= |cells|
    ensures InOrder(Closed(cells, side, n))
    ensures forall s :: s in Closed(cells, side, n) ==> s.hi < n - Run(cells, side, n) || n == 0
  {
    hide InOrder;
    if n == 0 {
      NoneInOrder();
    } else {
      ClosedOrdered(cells, side, n - 1);
      LastInOrder(cells, side, n - 1);
      assert Closed(cells, side, n - 1) + [] == Closed(cells, side, n - 1);
    }
  }

  lemma NoneInOrder()
    ensures InOrder([])
  {
  }

  /** The last run comes after all segments closed before it. */
  lemma LastInOrder(cells: seq<Cell>, side: Side, n: nat)
    requires n <= |cells| && InOrder(Closed(cells, side, n))
    requires forall s :: s in Closed(cells, side, n) ==> s.hi < n - Run(cells, side, n) || n == 0
    ensures InOrder(Closed(cells, side, n) + LastSegment(cells, side, n))
  {
    hide InOrder, Run;
    var r := Run(cells, side, n);
    if r > 5 {
      SnocInOrder(Closed(cells, side, n), Segment(n - r, n));
    } else {
      assert Closed(cells, side, n) + [] == Closed(cells, side, n);
    }
  }

  /** ... each of them once, from one end of the line to the other. */
  lemma SegmentsOrdered(cells: seq<Cell>, side: Side)
    ensures forall i, j :: 0 <= i < j < |Segments(cells, side)| ==>
              Segments(cells, side)[i].hi < Segments(cells, side)[j].lo
  {
    hide Closed, LastSegment;
    ClosedOrdered(cells, side, |cells|);
    LastInOrder(cells, side, |cells|);
  }

  // ----- adding up a line -----

  predicate Fits(cells: seq<Cell>, s: Segment) {
    s.lo <= s.hi <= |cells| && 6 <= s.hi - s.lo <= 19
  }

  function Own(cells: seq<Cell>, side: Side, lo: nat, hi: nat): (own: seq<bool>)
    requires lo <= hi <= |cells|
    ensures |own| == hi - lo
  {
    seq(hi - lo, i requires 0 <= i < hi - lo => cells[lo + i] == side)
  }

  function SegmentClass(t: Table, cells: seq<Cell>, side: Side, s: Segment): (c: int)
    requires Fits(cells, s)
    ensures 0 <= c < 16
  {
    Class(t, Own(cells, side, s.lo, s.hi))
  }

  function SegmentLine(t: Table, cells: seq<Cell>, start: Point, k: Angle, side: Side, which: Which, s: Segment): Line
    requires Fits(cells, s)
  {
    ShapeLine(t, Own(cells, side, s.lo, s.hi), Along(start, k, s.lo), k, which)
  }

  function Add(a: Line, b: Line): Line {
    Line(a.Value + b.Value, a.ThreatNum + b.ThreatNum, a.ThreatPoint + b.ThreatPoint,
         a.BigPotenPoint + b.BigPotenPoint, a.SmaPotenPoint + b.SmaPotenPoint,
         a.BigPotenStep + b.BigPotenStep, a.SmaPotenStep + b.SmaPotenStep, a.ComPoint + b.ComPoint)
  }

  /** The run that ends just before cell `n`. */
  function RunSegment(cells: seq<Cell>, side: Side, n: nat): Segment
    requires n <= |cells| <= 19
  {
    Segment(n - Run(cells, side, n), n)
  }

  /** `sum` with the run that ends just before cell `n` added, if it is a segment. */
  function AddRun(t: Table, cells: seq<Cell>, start: Point, k: Angle, side: Side, which: Which, n: nat, sum: Line): Line
    requires n <= |cells| <= 19
  {
    if Run(cells, side, n) > 5 then Add(sum, SegmentLine(t, cells, start, k, side, which, RunSegment(cells, side, n)))
    else sum
  }

  /** The sum over the segments closed within the first `n` cells. */
  function ClosedLine(t: Table, cells: seq<Cell>, start: Point, k: Angle, side: Side, which: Which, n: nat): Line
    requires n <= |cells| <= 19
  {
    if n == 0 then ZERO_LINE else
      var sum := ClosedLine(t, cells, start, k, side, which, n - 1);
      if cells[n - 1] == Next(side) then AddRun(t, cells, start, k, side, which, n - 1, sum) else sum
  }

  function RunValue(t: Table, cells: seq<Cell>, side: Side, n: nat): int
    requires n <= |cells| <= 19
  {
    if Run(cells, side, n) > 5 then LINE_TYPE_VALUE[SegmentClass(t, cells, side, RunSegment(cells, side, n))] else 0
  }

  function ClosedValue(t: Table, cells: seq<Cell>, side: Side, n: nat): int
    requires n <= |cells| <= 19
  {
    if n == 0 then 0 else
      ClosedValue(t, cells, side, n - 1) + (if cells[n - 1] == Next(side) then RunValue(t, cells, side, n - 1) else 0)
  }

  /** Whether a segment of class 15 (six in a row) ends at cell `n`. */
  predicate WinEndsAt(t: Table, cells: seq<Cell>, side: Side, n: nat)
    requires n <= |cells| <= 19
  {
    && Run(cells, side, n) > 5
    && (n == |cells| || cells[n] == Next(side))
    && SegmentClass(t, cells, side, RunSegment(cells, side, n)) == 15
  }

  /** The first place from `n` on where a segment of class 15 ends, or one past the line. */
  function FirstWin(t: Table, cells: seq<Cell>, side: Side, n: nat): (w: nat)
    requires n <= |cells| + 1 <= 20
    ensures n <= w <= |cells| + 1
    ensures w <= |cells| ==> WinEndsAt(t, cells, side, w)
    ensures forall m :: n <= m < w ==> !WinEndsAt(t, cells, side, m)
    decreases |cells| + 1 - n
  {
    if n > |cells| || WinEndsAt(t, cells, side, n) then n else FirstWin(t, cells, side, n + 1)
  }

  /** The analysis of a whole line: the sum over its segments, or just the first segment
      of class 15 when there is one. */
  function Analysis(t: Table, cells: seq<Cell>, start: Point, k: Angle, side: Side, which: Which): Line
    requires |cells| <= 19
  {
    var w, n := FirstWin(t, cells, side, 0), |cells|;
    if w <= n then SegmentLine(t, cells, start, k, side, which, RunSegment(cells, side, w))
    else AddRun(t, cells, start, k, side, which, n, ClosedLine(t, cells, start, k, side, which, n))
  }

  function LineValue(t: Table, cells: seq<Cell>, side: Side): int
    requires |cells| <= 19
  {
    ClosedValue(t, cells, side, |cells|) + RunValue(t, cells, side, |cells|)
  }

  // ----- the scan as a decomposition into segments -----

  function Merged(t: Table, cells: seq<Cell>, start: Point, k: Angle, side: Side, which: Which,
                  segs: seq<Segment>): Line
    requires forall s <- segs :: Fits(cells, s)
  {
    if segs == [] then ZERO_LINE else
      Add(Merged(t, cells, start, k, side, which, segs[..|segs| - 1]),
          SegmentLine(t, cells, start, k, side, which, segs[|segs| - 1]))
  }

  lemma MergedNone(t: Table, cells: seq<Cell>, start: Point, k: Angle, side: Side, which: Which)
    ensures Merged(t, cells, start, k, side, which, []) == ZERO_LINE
  {
  }

  lemma MergedSnoc(t: Table, cells: seq<Cell>, start: Point, k: Angle, side: Side, which: Which,
                   segs: seq<Segment>, s: Segment)
    requires (forall r <- segs :: Fits(cells, r)) && Fits(cells, s)
    ensures Merged(t, cells, start, k, side, which, segs + [s])
         == Add(Merged(t, cells, start, k, side, which, segs), SegmentLine(t, cells, start, k, side, which, s))
  {
    assert (segs + [s])[|segs|] == s && (segs + [s])[..|segs|] == segs;
  }

  lemma SegmentsFit(cells: seq<Cell>, side: Side)
    requires |cells| <= 19
    ensures forall s <- Segments(cells, side) :: Fits(cells, s)
  {
    SegmentsExact(cells, side);
  }

  lemma {:induction false} ClosedLineMerges(t: Table, cells: seq<Cell>, start: Point, k: Angle, side: Side,
                                            which: Which, n: nat)
    requires n <= |cells| <= 19
    ensures forall s <- Closed(cells, side, n) :: Fits(cells, s)
    ensures ClosedLine(t, cells, start, k, side, which, n)
         == Merged(t, cells, start, k, side, which, Closed(cells, side, n))
  {
    hide SegmentLine, Run, Class, Add, Merged, IsMaximalSegment, Fits;
    ClosedFit(cells, side, n);
    if n == 0 {
      MergedNone(t, cells, start, k, side, which);
    } else {
      ClosedLineMerges(t, cells, start, k, side, which, n - 1);
      if cells[n - 1] == Next(side) {
        RunMerges(t, cells, start, k, side, which, n - 1);
      } else {
        assert Closed(cells, side, n) == Closed(cells, side, n - 1);
      }
    }
  }

  lemma ClosedFit(cells: seq<Cell>, side: Side, n: nat)
    requires n <= |cells| <= 19
    ensures forall s <- Closed(cells, side, n) :: Fits(cells, s)
  {
    hide Closed;
    ClosedExact(cells, side, n);
  }

  /** Adding the run that ends here is merging one segment more. */
  lemma RunMerges(t: Table, cells: seq<Cell>, start: Point, k: Angle, side: Side, which: Which, n: nat)
    requires n <= |cells| <= 19
    requires forall s <- Closed(cells, side, n) :: Fits(cells, s)
    ensures forall s <- Closed(cells, side, n) + LastSegment(cells, side, n) :: Fits(cells, s)
    ensures AddRun(t, cells, start, k, side, which, n,
                   Merged(t, cells, start, k, side, which, Closed(cells, side, n)))
         == Merged(t, cells, start, k, side, which, Closed(cells, side, n) + LastSegment(cells, side, n))
  {
    hide SegmentLine, Run, Class, Add, Merged, Closed;
    var before := Closed(cells, side, n);
    if Run(cells, side, n) > 5 {
      MergedSnoc(t, cells, start, k, side, which, before, RunSegment(cells, side, n));
    } else {
      assert before + [] == before;
    }
  }

  /** A segment ends where the run before an opponent stone, or before the end of the line, is long enough. */
  lemma SegmentIsRun(cells: seq<Cell>, side: Side, s: Segment)
    requires |cells| <= 19 && IsMaximalSegment(cells, side, s)
    ensures s == RunSegment(cells, side, s.hi) && Run(cells, side, s.hi) > 5 && Fits(cells, s)
  {
    RunInside(cells, side, s.lo, s.hi);
  }

  lemma RunIsSegment(cells: seq<Cell>, side: Side, n: nat)
    requires n <= |cells| <= 19 && Run(cells, side, n) > 5 && (n == |cells| || cells[n] == Next(side))
    ensures IsMaximalSegment(cells, side, RunSegment(cells, side, n))
  {
    RunMaximal(cells, side, n);
  }

  /** No maximal opponent-free segment is of class 15. */
  ghost predicate NoWin(t: Table, cells: seq<Cell>, side: Side)
    requires |cells| <= 19
  {
    forall s: Segment :: IsMaximalSegment(cells, side, s) ==> SegmentClass(t, cells, side, s) != 15
  }

  /** The line scan is the decomposition into maximal opponent-free segments: without one of
      class 15 it sums over all of them, otherwise it reports the first of class 15 alone. */
  lemma AnalysisDecomposes(t: Table, cells: seq<Cell>, start: Point, k: Angle, side: Side, which: Which)
    requires |cells| <= 19
    ensures forall s <- Segments(cells, side) :: Fits(cells, s)
    ensures NoWin(t, cells, side) ==>
              Analysis(t, cells, start, k, side, which)
              == Merged(t, cells, start, k, side, which, Segments(cells, side))
    ensures !NoWin(t, cells, side) ==>
              exists s :: IsMaximalSegment(cells, side, s) && SegmentClass(t, cells, side, s) == 15
                && (forall r: Segment ::
                      IsMaximalSegment(cells, side, r) && SegmentClass(t, cells, side, r) == 15 ==> s.hi <= r.hi)
                && Analysis(t, cells, start, k, side, which) == SegmentLine(t, cells, start, k, side, which, s)
  {
    var w, n := FirstWin(t, cells, side, 0), |cells|;
    SegmentsFit(cells, side);
    forall r: Segment | IsMaximalSegment(cells, side, r)
      ensures r == RunSegment(cells, side, r.hi) && (SegmentClass(t, cells, side, r) == 15 ==> w <= r.hi)
    {
      SegmentIsRun(cells, side, r);
      assert SegmentClass(t, cells, side, r) == 15 ==> WinEndsAt(t, cells, side, r.hi);
    }
    if w <= n {
      RunIsSegment(cells, side, w);
    } else {
      ClosedLineMerges(t, cells, start, k, side, which, n);
      RunMerges(t, cells, start, k, side, which, n);
    }
  }

  lemma {:induction false} ClosedLineValue(t: Table, cells: seq<Cell>, start: Point, k: Angle, side: Side,
                                           which: Which, n: nat)
    requires n <= |cells| <= 19
    ensures ClosedLine(t, cells, start, k, side, which, n).Value == ClosedValue(t, cells, side, n)
  {
    if n > 0 {
      ClosedLineValue(t, cells, start, k, side, which, n - 1);
    }
  }

  lemma NoWinNeverEnds(t: Table, cells: seq<Cell>, side: Side, n: nat)
    requires n <= |cells| <= 19 && NoWin(t, cells, side)
    ensures !WinEndsAt(t, cells, side, n)
  {
    if WinEndsAt(t, cells, side, n) {
      RunIsSegment(cells, side, n);
    }
  }

  /** Without a class-15 segment the analysed value is the plain sum over all segments. */
  lemma AnalysisValue(t: Table, cells: seq<Cell>, start: Point, k: Angle, side: Side, which: Which)
    requires |cells| <= 19 && NoWin(t, cells, side)
    ensures Analysis(t, cells, start, k, side, which).Value == LineValue(t, cells, side)
  {
    var w := FirstWin(t, cells, side, 0);
    if w <= |cells| {
      NoWinNeverEnds(t, cells, side, w);
    }
    ClosedLineValue(t, cells, start, k, side, which, |cells|);
  }

  // ----- the offered cells -----

  lemma RunOffersEmptyCells(t: Table, cells: seq<Cell>, start: Point, k: Angle, side: Side, which: Which, n: nat,
                            ok: Point -> bool)
    requires n <= |cells| <= 19 && Run(cells, side, n) > 5
    requires forall i :: 0 <= i < |cells| && cells[i] == EMPTY ==> ok(Along(start, k, i))
    ensures AllCells(SegmentLine(t, cells, start, k, side, which, RunSegment(cells, side, n)), ok)
  {
    var s := RunSegment(cells, side, n);
    var own := Own(cells, side, s.lo, s.hi);
    RunMaximal(cells, side, n);
    forall i | 0 <= i < |own| && !own[i]
      ensures ok(Along(Along(start, k, s.lo), k, i))
    {
      assert cells[s.lo + i] != Next(side);
      assert Along(Along(start, k, s.lo), k, i) == Along(start, k, s.lo + i);
    }
    ShapeOffersEmptyCells(t, own, Along(start, k, s.lo), k, which, ok);
  }

  lemma AddOffers(a: Line, b: Line, ok: Point -> bool)
    requires AllCells(a, ok) && AllCells(b, ok)
    ensures AllCells(Add(a, b), ok)
  {
  }

  lemma {:induction false} ClosedOffersEmptyCells(t: Table, cells: seq<Cell>, start: Point, k: Angle, side: Side,
                                                  which: Which, n: nat, ok: Point -> bool)
    requires n <= |cells| <= 19
    requires forall i :: 0 <= i < |cells| && cells[i] == EMPTY ==> ok(Along(start, k, i))
    ensures AllCells(ClosedLine(t, cells, start, k, side, which, n), ok)
  {
    if n > 0 {
      ClosedOffersEmptyCells(t, cells, start, k, side, which, n - 1, ok);
      if cells[n - 1] == Next(side) && Run(cells, side, n - 1) > 5 {
        RunOffersEmptyCells(t, cells, start, k, side, which, n - 1, ok);
        AddOffers(ClosedLine(t, cells, start, k, side, which, n - 1),
                  SegmentLine(t, cells, start, k, side, which, RunSegment(cells, side, n - 1)), ok);
      }
    }
  }

  /** Every cell an analysis offers is an empty cell of the line. */
  lemma AnalysisOffersEmptyCells(t: Table, cells: seq<Cell>, start: Point, k: Angle, side: Side, which: Which,
                                 ok: Point -> bool)
    requires |cells| <= 19
    requires forall i :: 0 <= i < |cells| && cells[i] == EMPTY ==> ok(Along(start, k, i))
    ensures AllCells(Analysis(t, cells, start, k, side, which), ok)
  {
    var w, n := FirstWin(t, cells, side, 0), |cells|;
    if w <= n {
      RunOffersEmptyCells(t, cells, start, k, side, which, w, ok);
    } else {
      ClosedOffersEmptyCells(t, cells, start, k, side, which, n, ok);
      if Run(cells, side, n) > 5 {
        RunOffersEmptyCells(t, cells, start, k, side, which, n, ok);
        AddOffers(ClosedLine(t, cells, start, k, side, which, n),
                  SegmentLine(t, cells, start, k, side, which, RunSegment(cells, side, n)), ok);
      }
    }
  }

  // ----- the scanning loops -----

  /** A walk from a cell of the board leaves it at the cell after the last one of the ray. */
  lemma WalkGuard(Start: Point, k: Angle, n: nat)
    requires OnBoard(Start) && n <= RayLen(Start, k)
    ensures var p := Along(Start, k, n); p.X != -1 && p.X != 19 && p.Y != -1 && p.Y != 19 <==> n < RayLen(Start, k)
    ensures Along(Start, k, n + 1) == Along(Along(Start, k, n), k, 1)
  {
  }

  /** The variables of a scan after `n` cells: the length and the own stones of the current run. */
  ghost predicate Scanning(cells: seq<Cell>, side: Side, n: nat, Len: nat, Style: nat) {
    && n <= |cells|
    && Len == Run(cells, side, n)
    && Style + Pow2(Len) == Code(Own(cells, side, n - Len, n))
  }

  lemma ScanningFromStart(cells: seq<Cell>, side: Side)
    ensures Scanning(cells, side, 0, 0, 0)
  {
    ScanningStarts(cells, side, 0);
  }

  lemma ScanningStarts(cells: seq<Cell>, side: Side, n: nat)
    requires n <= |cells| && Run(cells, side, n) == 0
    ensures Scanning(cells, side, n, 0, 0)
  {
  }

  /** Before the first cell nothing is summed and nothing has won. */
  lemma ScanStarts(t: Table, cells: seq<Cell>, start: Point, k: Angle, side: Side, which: Which)
    requires |cells| <= 19
    ensures Scanning(cells, side, 0, 0, 0)
    ensures ClosedLine(t, cells, start, k, side, which, 0) == ZERO_LINE
  {
  }

  /** A cell without an opponent stone ends no segment. */
  lemma ScanGoesOn(t: Table, cells: seq<Cell>, start: Point, k: Angle, side: Side, which: Which, n: nat)
    requires n < |cells| <= 19 && cells[n] != Next(side) && FirstWin(t, cells, side, 0) >= n
    ensures FirstWin(t, cells, side, 0) > n
    ensures ClosedLine(t, cells, start, k, side, which, n + 1) == ClosedLine(t, cells, start, k, side, which, n)
  {
  }

  /** An opponent stone starts a new run after it. */
  lemma ScanningRestarts(cells: seq<Cell>, side: Side, n: nat)
    requires n < |cells| && cells[n] == Next(side)
    ensures Scanning(cells, side, n + 1, 0, 0)
  {
  }

  /** One more cell without an opponent stone: the code of the current run grows by a bit. */
  method ExtendRun(cell: Cell, Len: nat, Style: nat, ghost cells: seq<Cell>, side: Side, ghost n: nat)
    returns (len': nat, style': nat)
    requires n < |cells| && cell == cells[n] != Next(side) && Scanning(cells, side, n, Len, Style)
    ensures Scanning(cells, side, n + 1, len', style') && len' == Len + 1
  {
    ghost var own := Own(cells, side, n - Len, n);
    assert Own(cells, side, n - Len, n + 1) == own + [cell == side];
    CodeSnoc(own, cell == side);
    ShlOneIsPow2(Len, 1, 0);
    len', style' := Len, Style;
    if cell == side {
      style' := style' + Shl(1, Len);
    }
    len' := len' + 1;
  }

  /** The shape index of a run of six cells or more is an index of the table. */
  lemma RunShape(cells: seq<Cell>, side: Side, n: nat, Len: nat, Style: nat)
    requires |cells| <= 19 && Scanning(cells, side, n, Len, Style) && Len > 5
    ensures 0 <= Shl(1, Len) + Style - 64 < TABLESIZE
    ensures Shl(1, Len) + Style == Code(Own(cells, side, n - Len, n))
  {
    ShlOneIsPow2(Len, 1, 0);
    SegmentCodeInTable(Own(cells, side, n - Len, n));
  }

  /** The value of the run that ends before cell `n`: its analysis, if it is a segment. */
  method ValuateRun(t: Table, CurP: Point, Len: nat, Style: nat, k: Angle, side: Side, which: Which,
                    ghost Start: Point, ghost cells: seq<Cell>, ghost n: nat)
    returns (VL1: Line)
    requires |cells| <= 19 && Scanning(cells, side, n, Len, Style)
    requires Len > 5 && CurP == Along(Start, k, n - Len)
    ensures VL1 == SegmentLine(t, cells, Start, k, side, which, RunSegment(cells, side, n))
    ensures VL1.Value == WINLOSE <==> SegmentClass(t, cells, side, RunSegment(cells, side, n)) == 15
  {
    RunShape(cells, side, n, Len, Style);
    VL1 := ValuateShape(t, CurP, Shl(1, Len) + Style - 64, k, which, Own(cells, side, n - Len, n));
  }

  /** `cells` are the cells met when walking from `Start` in direction `k`. */
  ghost predicate Reads(g: Grid, Start: Point, k: Angle, cells: seq<Cell>)
    requires OnBoard(Start)
  {
    && |cells| == RayLen(Start, k) <= 19
    && forall i {:trigger Along(Start, k, i)} :: 0 <= i < |cells| ==>
         OnBoard(Along(Start, k, i)) && cells[i] == At(g, Along(Start, k, i))
  }

  /** The scan of AnalyzeLine, leaving as soon as a segment of class 15 is valued. */
  method AnalyzeLine(t: Table, board: array<Cell>, Start: Point, k: Angle, side: Side, which: Which)
    returns (VL: Line)
    requires board.Length == BOARD_CELLS && OnBoard(Start)
    ensures VL == Analysis(t, Ray(board[..], Start, k), Start, k, side, which)
  {
    VL := AnalyzeCells(t, board, Start, k, side, which, Ray(board[..], Start, k));
  }

  /** Values the run that ends before cell `n` and adds it to the line; a win ends the analysis. */
  method CollectRun(t: Table, CurP: Point, Len: nat, Style: nat, k: Angle, side: Side, which: Which, VL2: Line,
                    ghost Start: Point, ghost cells: seq<Cell>, ghost n: nat)
    returns (won: bool, r: Line)
    requires |cells| <= 19 && Scanning(cells, side, n, Len, Style)
    requires n == |cells| || cells[n] == Next(side)
    requires Len > 0 ==> CurP == Along(Start, k, n - Len)
    requires FirstWin(t, cells, side, 0) >= n && VL2 == ClosedLine(t, cells, Start, k, side, which, n)
    ensures won || n == |cells| ==> r == Analysis(t, cells, Start, k, side, which)
    ensures !won ==> FirstWin(t, cells, side, 0) > n
    ensures !won && n < |cells| ==> r == ClosedLine(t, cells, Start, k, side, which, n + 1)
  {
    hide SegmentLine, SegmentClass, Code, Own, Add, Class, Run;
    won, r := false, VL2;
    assert WinEndsAt(t, cells, side, n) <==> FirstWin(t, cells, side, 0) == n;
    if Len > 5 {
      var VL1 := ValuateRun(t, CurP, Len, Style, k, side, which, Start, cells, n);
      if VL1.Value == WINLOSE {
        return true, VL1;
      }
      r := Add(VL2, VL1);
    }
  }

  method AnalyzeCells(t: Table, board: array<Cell>, Start: Point, k: Angle, side: Side, which: Which,
                      ghost cells: seq<Cell>)
    returns (VL2: Line)
    requires board.Length == BOARD_CELLS && OnBoard(Start) && Reads(board[..], Start, k, cells)
    ensures VL2 == Analysis(t, cells, Start, k, side, which)
  {
    hide SegmentLine, SegmentClass, Code, Own, FirstWin, ClosedLine, Analysis, Run, Add;
    var Len: nat, Style: nat, OppSide, CurP := 0, 0, false, Start;
    VL2 := ZERO_LINE;
    var x, y := Start.X, Start.Y;
    ghost var n := 0;
    ScanStarts(t, cells, Start, k, side, which);
    WalkGuard(Start, k, 0);
    while x != -1 && x != 19 && y != -1 && y != 19
      invariant n <= |cells| && Point(x, y) == Along(Start, k, n)
      invariant x != -1 && x != 19 && y != -1 && y != 19 <==> n < |cells|
      invariant Scanning(cells, side, n, Len, Style)
      invariant if OppSide then Len == 0 else CurP == Along(Start, k, n - Len)
      invariant FirstWin(t, cells, side, 0) >= n
      invariant VL2 == ClosedLine(t, cells, Start, k, side, which, n)
      decreases |cells| - n
    {
      if OppSide {
        CurP, OppSide := Point(x, y), false;
      }
      var cell := board[Index(Point(x, y))];
      if cell == EMPTY || cell == side {
        ScanGoesOn(t, cells, Start, k, side, which, n);
        Len, Style := ExtendRun(cell, Len, Style, cells, side, n);
      } else {
        var won;
        won, VL2 := CollectRun(t, CurP, Len, Style, k, side, which, VL2, Start, cells, n);
        if won {
          return;
        }
        OppSide, Len, Style := true, 0, 0;
        ScanningRestarts(cells, side, n);
      }
      var next := Along(Point(x, y), k, 1);
      x, y, n := next.X, next.Y, n + 1;
      WalkGuard(Start, k, n);
    }
    var won;
    won, VL2 := CollectRun(t, CurP, Len, Style, k, side, which, VL2, Start, cells, n);
  }

  /** The table value of the run that ends before cell `n`, if it is a segment. */
  method TableValue(t: Table, Len: nat, Style: nat, side: Side, ghost cells: seq<Cell>, ghost n: nat) returns (v: int)
    requires |cells| <= 19 && Scanning(cells, side, n, Len, Style)
    ensures v == RunValue(t, cells, side, n)
  {
    v := 0;
    if Len > 5 {
      RunShape(cells, side, n, Len, Style);
      v := LINE_TYPE_VALUE[t[Shl(1, Len) + Style - 64]];
    }
  }

  /** The value of the line through `point` in direction `k`, summed directly. */
  method CalSingleLineValue(t: Table, board: array<Cell>, point: Point, k: Angle, side: Side) returns (Value: int)
    requires board.Length == BOARD_CELLS && OnBoard(point)
    ensures Value == LineValue(t, Ray(board[..], StartPoint(point, k), k), side)
  {
    var Start := StartPoint(point, k);
    Value := SumCells(t, board, Start, k, side, Ray(board[..], Start, k));
  }

  method SumCells(t: Table, board: array<Cell>, Start: Point, k: Angle, side: Side, ghost cells: seq<Cell>)
    returns (Value: int)
    requires board.Length == BOARD_CELLS && OnBoard(Start) && Reads(board[..], Start, k, cells)
    ensures Value == LineValue(t, cells, side)
  {
    hide RunValue, Run, Code, Own, Scanning;
    var Len: nat, Style: nat := 0, 0;
    Value := 0;
    var x, y := Start.X, Start.Y;
    ghost var n := 0;
    ScanningFromStart(cells, side);
    WalkGuard(Start, k, 0);
    while x != -1 && x != 19 && y != -1 && y != 19
      invariant n <= |cells| && Point(x, y) == Along(Start, k, n)
      invariant x != -1 && x != 19 && y != -1 && y != 19 <==> n < |cells|
      invariant Scanning(cells, side, n, Len, Style)
      invariant Value == ClosedValue(t, cells, side, n)
      decreases |cells| - n
    {
      var cell := board[Index(Point(x, y))];
      if cell == EMPTY || cell == side {
        Len, Style := ExtendRun(cell, Len, Style, cells, side, n);
      } else {
        var v := TableValue(t, Len, Style, side, cells, n);
        Value, Len, Style := Value + v, 0, 0;
        ScanningRestarts(cells, side, n);
      }
      var next := Along(Point(x, y), k, 1);
      x, y, n := next.X, next.Y, n + 1;
      WalkGuard(Start, k, n);
    }
    var v := TableValue(t, Len, Style, side, cells, n);
    Value := Value + v;
  }
}
