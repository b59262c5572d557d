/** Trial stones on a position with a coherent cache: only the trial's cross is refreshed,
    only in some fields, and the results are read back from exactly those fields. */
module Trials {
  import opened Geometry
  import opened Shape
  import opened LineCache
  import opened Threats

  /** The lines of a board, each side analysed in its own mode. */
  function ScanModes(t: Table, g: Grid, modes: Modes): (c: Cache)
    ensures forall i: Slot :: c[i] == Scan(t, g, IdOf(i), SideOf(i), modes.Of(SideOf(i)))
  {
    seq(SLOTS, i requires 0 <= i < SLOTS => Scan(t, g, IdOf(i), SideOf(i), modes.Of(SideOf(i))))
  }

  /** The cache after refreshing the lines through `p` on the board `g`. */
  function Refreshed(t: Table, g: Grid, c: Cache, p: Point, modes: Modes): Cache {
    CopyMarked(c, ScanModes(t, g, modes), [p], modes)
  }

  /** Refreshing first the lines of one side and then of the other. */
  lemma RefreshBothSides(t: Table, g: Grid, c: Cache, p: Point, side: Side, own: Which, other: Which)
    ensures CopyCross(CopyCross(c, ScanAll(t, g, own), p, side, own), ScanAll(t, g, other), p, Next(side), other)
         == Refreshed(t, g, c, p, ModesFor(side, own, other))
  {
    var a1 := CopyCross(c, ScanAll(t, g, own), p, side, own);
    var a := CopyCross(a1, ScanAll(t, g, other), p, Next(side), other);
    var b := Refreshed(t, g, c, p, ModesFor(side, own, other));
    forall i: Slot
      ensures a[i] == b[i]
    {
      assert Marked([p], IdOf(i)) <==> InCross(p, IdOf(i)) by {
        assert p in [p];
      }
    }
    CacheEqual(a, b);
  }

  /** In a cache refreshed in mode 1 the threat points are those of the trial board, although the
      other lists of the refreshed lines are stale. */
  lemma TrialThreatsFree(t: Table, g: Grid, p: Point, c: Cell, modes: Modes, side: Side, which: Which)
    requires which == 1 ==> modes.Of(side) == 1
    requires which != 0
    ensures var g' := Put(g, p, c);
            var info := Refreshed(t, g', ScanAll(t, g, 0), p, modes);
            ThreatsFree(g', info, side, which) && ThreatsOnBoard(info, side, which)
  {
    var g' := Put(g, p, c);
    var info := Refreshed(t, g', ScanAll(t, g, 0), p, modes);
    if which == 1 {
      forall id: LineId
        ensures forall q <- info[SlotOf(side, id)].ThreatPoint :: Free(g', q)
      {
        TrialLineThreats(t, g, p, c, modes, side, id);
      }
    }
  }

  lemma TrialLineThreats(t: Table, g: Grid, p: Point, c: Cell, modes: Modes, side: Side, id: LineId)
    requires modes.Of(side) == 1
    ensures var info := Refreshed(t, Put(g, p, c), ScanAll(t, g, 0), p, modes);
            forall q <- info[SlotOf(side, id)].ThreatPoint :: Free(Put(g, p, c), q)
  {
    hide Scan;
    if Marked([p], id) {
      ScanOffersFreeCells(t, Put(g, p, c), id, side, 1);
    } else {
      assert p in [p];
      ScanUntouched(t, g, p, c, id, side, 0);
      ScanOffersFreeCells(t, Put(g, p, c), id, side, 0);
    }
  }

  /** What GetAllLineInfor reports for one side of a coherent position. */
  ghost function CoherentInfo(t: Table, g: Grid, side: Side): Line {
    CoherentThreatsFree(t, g, side, 0);
    SideInfo(t, g, ScanAll(t, g, 0), side, 0)
  }

  lemma CoherentInfoThreats(t: Table, g: Grid, side: Side)
    ensures StrictlySorted(CoherentInfo(t, g, side).ThreatPoint)
    ensures forall p <- CoherentInfo(t, g, side).ThreatPoint :: OnBoard(p) && Free(g, p)
  {
    CoherentThreatsFree(t, g, side, 0);
    SideInfoThreatsFree(t, g, ScanAll(t, g, 0), side, 0);
  }

  /** What GetAllLineInfor reports for `side` in mode `which`, with a stone of `stone` tried on
      `p` of a coherent position and the two sides refreshed in the given modes. */
  ghost function TrialInfo(t: Table, g: Grid, p: Point, stone: Side, modes: Modes, side: Side, which: Which): Line
    requires which != 0 && (which == 1 ==> modes.Of(side) == 1)
  {
    TrialThreatsFree(t, g, p, stone, modes, side, which);
    SideInfo(t, Put(g, p, stone), Refreshed(t, Put(g, p, stone), ScanAll(t, g, 0), p, modes), side, which)
  }

  // ----- whether to search on -----

  /** Answering the single threat on `p` leaves no threat and opens a point of the wanted kind:
      a strong one in mode 2, a weaker one in mode 3. */
  ghost predicate OpensPoint(t: Table, g: Grid, p: Point, side1: Side, own: Which)
    requires own in {2, 3}
  {
    var modes := ModesFor(side1, own, 1);
    && TrialInfo(t, g, p, side1, modes, Next(side1), 1).ThreatNum == 0
    && var l := TrialInfo(t, g, p, side1, modes, side1, own);
       if own == 2 then l.BigPotenPoint != [] else l.SmaPotenPoint != []
  }

  ghost predicate AreOpenings(t: Table, g: Grid, pts: seq<Point>, side1: Side, own: Which, opens: seq<bool>)
    requires own in {2, 3}
  {
    |opens| == |pts| &&
    forall i {:trigger OpensPoint(t, g, pts[i], side1, own)} :: 0 <= i < |pts| ==>
      opens[i] == OpensPoint(t, g, pts[i], side1, own)
  }

  lemma Openings(t: Table, g: Grid, pts: seq<Point>, side1: Side, own: Which) returns (opens: seq<bool>)
    requires own in {2, 3}
    ensures AreOpenings(t, g, pts, side1, own, opens)
    ensures true in opens <==> exists p <- pts :: OpensPoint(t, g, p, side1, own)
  {
    hide OpensPoint;
    opens := seq(|pts|, i requires 0 <= i < |pts| => OpensPoint(t, g, pts[i], side1, own));
    forall i | 0 <= i < |pts| && opens[i]
      ensures exists p <- pts :: OpensPoint(t, g, p, side1, own)
    {
      assert pts[i] in pts && OpensPoint(t, g, pts[i], side1, own);
    }
    forall p <- pts | OpensPoint(t, g, p, side1, own)
      ensures true in opens
    {
      var i :| 0 <= i < |pts| && pts[i] == p;
      assert opens[i] in opens;
    }
  }

  ghost predicate SearchesOnForDouble(t: Table, g: Grid, side1: Side, Si1: Line, Si2: Line) {
    if Si2.ThreatNum == 2 then true
    else if Si1.BigPotenPoint != [] then true
    else if Si2.ThreatNum == 0 && Si1.BigPotenStep != [] then true
    else if Si2.ThreatNum == 0 && |Si1.SmaPotenPoint| > 3 then true
    else Si2.ThreatNum == 1 && exists p <- Si2.ThreatPoint :: OpensPoint(t, g, p, side1, 2)
  }

  ghost predicate SearchesOnForSingle(t: Table, g: Grid, side1: Side, Si1: Line, Si2: Line) {
    Si2.ThreatNum == 1 && (Si1.SmaPotenPoint != [] || exists p <- Si2.ThreatPoint :: OpensPoint(t, g, p, side1, 3))
  }

  // ----- discounting a leaf -----

  function Worth(c: int): int
    requires 0 <= c < 16
  {
    LINE_TYPE_VALUE[c]
  }

  /** The truncated products with 0.2 and 0.4 of the discount. */
  const DISCOUNT_TWO_TWO :=
    ((Worth(11) - Worth(8)) / 2 + ((Worth(9) + Worth(10) + Worth(12)) / 3 - (Worth(6) + Worth(7)) / 2)) / 2 * 2 / 10
  const DISCOUNT_TWO_ONE := ((Worth(9) + Worth(10) + Worth(12)) / 3 - (Worth(6) + Worth(7)) / 2) / 2 * 2 / 10
  const DISCOUNT_ONE := (Worth(11) - Worth(8)) / 2 * 2 / 10
  const DISCOUNT_BIG_POINT := (Worth(11) - Worth(8)) * 4 / 10
  const DISCOUNT_BIG_STEP := ((Worth(11) - Worth(5)) / 2 + (Worth(13) - Worth(7)) / 2) / 2 * 2 / 10
  const DISCOUNT_SMA_POINT := ((Worth(9) + Worth(10) + Worth(12)) / 3 - (Worth(6) + Worth(7)) / 2) * 2 / 10

  /** The effect of one defence by two stones. */
  function DiscountPair(beta: int, comThreats: int, perThreats: int, largeDepth: int): int {
    if comThreats != 0 then beta
    else if perThreats > 2 then -(THREAT - largeDepth)
    else if perThreats == 2 then beta - DISCOUNT_TWO_TWO
    else if perThreats == 1 then beta - DISCOUNT_TWO_ONE
    else beta
  }

  /** Only the two numbers of a line are copied, for both sides. */
  const NUMBERS_ONLY := Modes(7, 7)

  ghost function PairGrid(g: Grid, p: Point, q: Point, stone: Side): Grid {
    Put(Put(g, p, stone), q, stone)
  }

  /** The cache with two trial stones, each refreshed on top of the other in mode 7. */
  ghost function PairCache(t: Table, g: Grid, p: Point, q: Point, stone: Side): Cache {
    var first := Refreshed(t, Put(g, p, stone), ScanAll(t, g, 0), p, NUMBERS_ONLY);
    Refreshed(t, PairGrid(g, p, q, stone), first, q, NUMBERS_ONLY)
  }

  ghost function PairThreats(t: Table, g: Grid, p: Point, q: Point, stone: Side, side: Side): int {
    SideInfo(t, PairGrid(g, p, q, stone), PairCache(t, g, p, q, stone), side, 7).ThreatNum
  }

  /** The inner loop: first stone `i`, second stones i + 1 .. j - 1. */
  ghost function DiscountRow(t: Table, g: Grid, pts: seq<Point>, side1: Side, largeDepth: int, beta: int, i: nat,
                             j: nat): int
    requires i < j <= |pts|
  {
    if j == i + 1 then beta else
      DiscountPair(DiscountRow(t, g, pts, side1, largeDepth, beta, i, j - 1),
                   PairThreats(t, g, pts[i], pts[j - 1], Next(side1), side1),
                   PairThreats(t, g, pts[i], pts[j - 1], Next(side1), Next(side1)), largeDepth)
  }

  ghost function DiscountRows(t: Table, g: Grid, pts: seq<Point>, side1: Side, largeDepth: int, beta: int, n: nat): int
    requires n <= |pts|
  {
    if n == 0 then beta else
      DiscountRow(t, g, pts, side1, largeDepth, DiscountRows(t, g, pts, side1, largeDepth, beta, n - 1), n - 1, |pts|)
  }

  /** The single threat is answered on `p`, but a strong point remains. */
  ghost predicate StaysStrong(t: Table, g: Grid, p: Point, side1: Side) {
    && TrialInfo(t, g, p, Next(side1), Modes(2, 2), side1, 2).ThreatNum == 0
    && TrialInfo(t, g, p, Next(side1), Modes(2, 2), Next(side1), 2).BigPotenPoint != []
  }

  ghost function DiscountSingles(t: Table, g: Grid, pts: seq<Point>, side1: Side, beta: int, n: nat): int
    requires n <= |pts|
  {
    if n == 0 then beta else
      DiscountSingles(t, g, pts, side1, beta, n - 1)
        - (if StaysStrong(t, g, pts[n - 1], side1) then DISCOUNT_ONE else 0)
  }

  /** The same by the answers for the single points. */
  function DiscountFlags(flags: seq<bool>, beta: int, n: nat): int
    requires n <= |flags|
  {
    if n == 0 then beta else DiscountFlags(flags, beta, n - 1) - (if flags[n - 1] then DISCOUNT_ONE else 0)
  }

  ghost predicate AreFlags(t: Table, g: Grid, pts: seq<Point>, side1: Side, flags: seq<bool>) {
    |flags| == |pts| &&
    forall i {:trigger StaysStrong(t, g, pts[i], side1)} :: 0 <= i < |pts| ==>
      flags[i] == StaysStrong(t, g, pts[i], side1)
  }

  lemma {:induction false} FlagsDiscount(t: Table, g: Grid, pts: seq<Point>, side1: Side, flags: seq<bool>, beta: int,
                                         n: nat)
    requires AreFlags(t, g, pts, side1, flags) && n <= |pts|
    ensures DiscountFlags(flags, beta, n) == DiscountSingles(t, g, pts, side1, beta, n)
  {
    hide StaysStrong;
    if n > 0 {
      FlagsDiscount(t, g, pts, side1, flags, beta, n - 1);
    }
  }

  lemma Flags(t: Table, g: Grid, pts: seq<Point>, side1: Side, beta: int) returns (flags: seq<bool>)
    ensures AreFlags(t, g, pts, side1, flags)
    ensures DiscountFlags(flags, beta, |pts|) == DiscountSingles(t, g, pts, side1, beta, |pts|)
  {
    flags := seq(|pts|, i requires 0 <= i < |pts| => StaysStrong(t, g, pts[i], side1));
    FlagsDiscount(t, g, pts, side1, flags, beta, |pts|);
  }

  function DiscountNone(beta: int, Si2: Line): int {
    beta - (if Si2.BigPotenPoint != [] then DISCOUNT_BIG_POINT else 0)
         - (if Si2.BigPotenStep != [] then DISCOUNT_BIG_STEP else 0)
         - (if |Si2.SmaPotenPoint| > 3 then DISCOUNT_SMA_POINT else 0)
  }

  ghost function Discounted(t: Table, g: Grid, side1: Side, Si1: Line, Si2: Line, largeDepth: int, beta: int): int {
    if Si1.ThreatNum == 2 then DiscountRows(t, g, Si1.ThreatPoint, side1, largeDepth, beta, |Si1.ThreatPoint|)
    else if Si1.ThreatNum == 1 then DiscountSingles(t, g, Si1.ThreatPoint, side1, beta, |Si1.ThreatPoint|)
    else if Si1.ThreatNum == 0 then DiscountNone(beta, Si2)
    else beta
  }

  // ----- adjusting the values of steps -----

  /** What GetAllLineInfor reports in mode 2 with both stones of a step tried. */
  ghost function StepInfo(t: Table, g: Grid, p: Point, q: Point, stone: Side, side: Side): Line {
    var g' := PairGrid(g, p, q, stone);
    SideInfo(t, g', CopyMarked(ScanAll(t, g, 0), ScanAll(t, g', 2), [p, q], Modes(2, 2)), side, 2)
  }

  /** The correction for what a step threatens, with its products truncated. */
  function Adjustment(com: Line, per: Line): int {
    var own, other := com.BigPotenPoint != [], per.BigPotenPoint != [];
    var small := Worth(8) * 2 / 10;
    if com.ThreatNum > 2 then Worth(14)
    else if com.ThreatNum == 2 then
      (Worth(13) * 3 + Worth(11) * 7) * 2 / 100 - (Worth(5) * 2 + Worth(7) * 3 + Worth(8) * 5) * 2 / 100
      + (if own then small else if other then -small else 0)
    else if com.ThreatNum == 1 then
      (Worth(9) * 3 + Worth(10) * 5 + Worth(12) * 2) * 2 / 100
        - (Worth(3) * 2 + Worth(4) * 2 + Worth(6) * 3 + Worth(7) * 3) * 2 / 100
      + (if own && !other then small else if other then -small else 0)
    else if other then -small else if own then small else 0
  }

  /** The correction of one step of a side. */
  ghost function StepAdjustment(t: Table, g: Grid, p: Point, q: Point, side: Side): int {
    Adjustment(StepInfo(t, g, p, q, side, side), StepInfo(t, g, p, q, side, Next(side)))
  }
}
