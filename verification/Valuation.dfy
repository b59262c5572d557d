/** Valuation of one coded segment, with the loops and shifts it is computed by. */
module Valuation {
  import opened Bits
  import opened Geometry
  import opened Shape
  import opened ShapeOffers

  /** The sign bit of v << i in a 32-bit int. */
  predicate NegativeAfterShift(v: nat, i: nat) {
    Shl(v, i) % 0x1_0000_0000 >= 0x8000_0000
  }

  lemma SignBitAppears(v: nat, n: nat, i: nat)
    requires Pow2(n) <= v < Pow2(n + 1) && n + i <= 31
    ensures NegativeAfterShift(v, i) <==> n + i == 31
  {
    ShlBounds(v, n, i);
    WordSizes();
    if n + i < 31 {
      Pow2Monotone(n + i + 1, 31);
    }
  }

  /** The number of cells of a segment, recovered from its code by shifting the leading one
      into the sign bit. */
  method SegmentLength(style: nat, ghost own: seq<bool>) returns (len: nat)
    requires IsSegment(own) && style == Code(own)
    ensures len == |own|
  {
    CodeBounds(own);
    var i := 1;
    while i < 32
      invariant 1 <= i <= 31 - |own|
    {
      SignBitAppears(style, |own|, i);
      if NegativeAfterShift(style, i) {
        break;
      }
      i := i + 1;
    }
    len := 32 - i - 1;
  }

  lemma PointsSnoc(cur: Point, k: Angle, a: seq<nat>, b: seq<nat>)
    ensures Points(cur, k, a + b) == Points(cur, k, a) + Points(cur, k, b)
  {
  }

  lemma PairsSnoc(cur: Point, k: Angle, a: seq<(nat, nat)>, b: seq<(nat, nat)>)
    ensures Pairs(cur, k, a + b) == Pairs(cur, k, a) + Pairs(cur, k, b)
  {
  }

  lemma WindowBit(own: seq<bool>, i: nat, j: nat)
    requires j < 6 && i + j < |own|
    ensures Bit(LowBits(Shr(Code(own), i), 6), j) == (if own[i + j] then 1 else 0)
  {
    BitOfLowBits(Shr(Code(own), i), 6, j);
    ShrAdd(Code(own), i, j);
    CodeBit(own, i + j);
  }

  lemma {:induction false} GapsPrefix(own: seq<bool>, i: nat, a: nat, b: nat)
    requires a <= b && i + b <= |own|
    ensures Gaps(own, i, a) <= Gaps(own, i, b)
  {
    if a < b {
      GapsPrefix(own, i, a, b - 1);
    }
  }

  /** A window with `n` stones has 6 - n gaps, so after the first gap of five there is no other. */
  lemma OnlyGap(own: seq<bool>, i: nat, a: nat)
    requires i + 6 <= |own| && a <= 6
    ensures |Gaps(own, i, 6)| == 6 - Stones(own, i, 6)
    ensures |Gaps(own, i, a)| >= |Gaps(own, i, 6)| ==> Gaps(own, i, a) == Gaps(own, i, 6)
  {
    GapsExact(own, i, 6);
    GapsPrefix(own, i, a, 6);
  }

  /** The six cells from `i`, masked out of the shape. */
  method Window(style: nat, i: nat, ghost own: seq<bool>) returns (t: nat)
    requires style == Code(own) && i + 6 <= |own|
    ensures forall j :: 0 <= j < 6 ==> (Bit(t, j) != 0 <==> own[i + j])
  {
    t := LowBits(Shr(style, i), 6);
    forall j | 0 <= j < 6
      ensures Bit(t, j) != 0 <==> own[i + j]
    {
      WindowBit(own, i, j);
    }
  }

  method CountStones(t: nat, i: nat, ghost own: seq<bool>) returns (num: nat)
    requires i + 6 <= |own| && forall j :: 0 <= j < 6 ==> (Bit(t, j) != 0 <==> own[i + j])
    ensures num == Stones(own, i, 6)
  {
    num := 0;
    for j := 0 to 6
      invariant num == Stones(own, i, j)
    {
      if Bit(t, j) != 0 {
        num := num + 1;
      }
    }
  }

  /** The threat points of the window of six cells from `i`. */
  method WindowThreats(CurP: Point, style: nat, k: Angle, i: nat, ghost own: seq<bool>) returns (found: seq<Point>)
    requires style == Code(own) && i + 6 <= |own|
    ensures found == Points(CurP, k, if Stones(own, i, 6) in {4, 5} then Gaps(own, i, 6) else [])
  {
    hide Bit, Shr, LowBits, Code, Stones;
    var t := Window(style, i, own);
    var num := CountStones(t, i, own);
    found := [];
    if num == 5 {
      for j := 0 to 6
        invariant found == [] && Gaps(own, i, j) == []
      {
        if Bit(t, j) == 0 {
          found := found + [Along(CurP, k, i + j)];
          OnlyGap(own, i, j + 1);
          return;
        }
      }
      OnlyGap(own, i, 6);
    }
    if num == 4 {
      for j := 0 to 6
        invariant found == Points(CurP, k, Gaps(own, i, j))
      {
        if Bit(t, j) == 0 {
          PointsSnoc(CurP, k, Gaps(own, i, j), [i + j]);
          found := found + [Along(CurP, k, i + j)];
        }
      }
    }
  }

  /** Adding 1 << i to the code of a shape looks up the shape with one more stone. */
  lemma LookUpWithStone(t: Table, own: seq<bool>, i: nat)
    requires IsSegment(own) && i < |own| && !own[i]
    ensures Shl(1, i) == Pow2(i) && 0 <= Code(own) - 64
    ensures Code(own) - 64 + Shl(1, i) < TABLESIZE
    ensures t[Code(own) - 64 + Shl(1, i)] == Class(t, own[i := true])
  {
    ShlOneIsPow2(i, 1, 0);
    CodeSet(own, i);
    SegmentCodeInTable(own);
    SegmentCodeInTable(own[i := true]);
  }

  lemma LookUpWithPair(t: Table, own: seq<bool>, i: nat, j: nat)
    requires IsSegment(own) && i < j < |own| && !own[i] && !own[j]
    ensures 0 <= Code(own) - 64
    ensures Code(own) - 64 + Shl(1, i) + Shl(1, j) < TABLESIZE
    ensures t[Code(own) - 64 + Shl(1, i) + Shl(1, j)] == Class(t, own[i := true][j := true])
  {
    LookUpWithStone(t, own, i);
    CodeSet(own, i);
    LookUpWithStone(t, own[i := true], j);
  }

  /** What a second stone on cell `j` adds to a stone on the empty cell `i`. */
  method PairAt(t: Table, CurP: Point, shapeIndex: nat, k: Angle, which: Which, i: nat, j: nat, ghost own: seq<bool>)
    returns (big: seq<Pair>, sma: seq<Pair>)
    requires IsSegment(own) && shapeIndex == Code(own) - 64 && i < j < |own| && !own[i]
    ensures big == Pairs(CurP, k, if Wants(which, 4) && PairPicked(t, own, BigStep, i, j) then [(i, j)] else [])
    ensures sma == Pairs(CurP, k, if Wants(which, 5) && PairPicked(t, own, SmaStep, i, j) then [(i, j)] else [])
  {
    big, sma := [], [];
    CodeBit(own, j);
    if Bit(shapeIndex + 64, j) != 0 {
      return;
    }
    LookUpWithPair(t, own, i, j);
    SegmentCodeInTable(own);
    var base, shapeID := t[shapeIndex], t[shapeIndex + Shl(1, i) + Shl(1, j)];
    var both := Pair(Along(CurP, k, i), Along(CurP, k, j));
    if (shapeID == 11 || shapeID == 13 || shapeID == 14) && (base == 5 || base == 7) && (which == 4 || which == 0) {
      big := [both];
    }
    if (shapeID == 9 || shapeID == 10 || shapeID == 12) && (base == 3 || base == 4) && (which == 5 || which == 0) {
      sma := [both];
    }
  }

  /** One more second cell of a row, if its list is wanted at all. */
  lemma PairRowNext(t: Table, own: seq<bool>, CurP: Point, k: Angle, kind: StepKind, wanted: bool, i: nat, j: nat)
    requires IsSegment(own) && i < j < |own|
    ensures Pairs(CurP, k, if wanted then PairRow(t, own, kind, i, j + 1) else [])
         == Pairs(CurP, k, if wanted then PairRow(t, own, kind, i, j) else [])
          + Pairs(CurP, k, if wanted && PairPicked(t, own, kind, i, j) then [(i, j)] else [])
  {
    hide PairPicked;
    PairsSnoc(CurP, k, PairRow(t, own, kind, i, j), [(i, j)]);
  }

  lemma PairRowNone(t: Table, own: seq<bool>, CurP: Point, k: Angle, kind: StepKind, i: nat)
    requires IsSegment(own) && i < |own|
    ensures PairRow(t, own, kind, i, i + 1) == [] && Pairs(CurP, k, []) == []
  {
  }

  /** The potential pairs whose first stone is cell `i`. */
  method PairRowPoints(t: Table, CurP: Point, shapeIndex: nat, k: Angle, which: Which, i: nat, len: nat,
                       ghost own: seq<bool>)
    returns (big: seq<Pair>, sma: seq<Pair>)
    requires IsSegment(own) && shapeIndex == Code(own) - 64 && i < len == |own| && !own[i]
    ensures big == Pairs(CurP, k, if Wants(which, 4) then PairRow(t, own, BigStep, i, len) else [])
    ensures sma == Pairs(CurP, k, if Wants(which, 5) then PairRow(t, own, SmaStep, i, len) else [])
  {
    hide *;
    PairRowNone(t, own, CurP, k, BigStep, i);
    PairRowNone(t, own, CurP, k, SmaStep, i);
    big, sma := [], [];
    for j := i + 1 to len
      invariant big == Pairs(CurP, k, if Wants(which, 4) then PairRow(t, own, BigStep, i, j) else [])
      invariant sma == Pairs(CurP, k, if Wants(which, 5) then PairRow(t, own, SmaStep, i, j) else [])
    {
      var b, s := PairAt(t, CurP, shapeIndex, k, which, i, j, own);
      PairRowNext(t, own, CurP, k, BigStep, Wants(which, 4), i, j);
      PairRowNext(t, own, CurP, k, SmaStep, Wants(which, 5), i, j);
      big, sma := big + b, sma + s;
    }
  }

  /** What a first stone on cell `i` offers by itself. */
  method SingleAt(t: Table, CurP: Point, shapeIndex: nat, k: Angle, which: Which, i: nat, ghost own: seq<bool>)
    returns (big: seq<Point>, sma: seq<Point>, com: seq<Point>)
    requires IsSegment(own) && shapeIndex == Code(own) - 64 && i < |own| && !own[i]
    ensures big == Points(CurP, k, if Wants(which, 2) && Picked(t, own, BigPoint, i) then [i] else [])
    ensures sma == Points(CurP, k, if Wants(which, 3) && Picked(t, own, SmaPoint, i) then [i] else [])
    ensures com == Points(CurP, k, if Wants(which, 6) && Picked(t, own, PointKind.ComPoint, i) then [i] else [])
  {
    big, sma, com := [], [], [];
    LookUpWithStone(t, own, i);
    SegmentCodeInTable(own);
    var base, shapeID := t[shapeIndex], t[shapeIndex + Shl(1, i)];
    var EP1 := Along(CurP, k, i);
    if (shapeID == 11 || shapeID == 13) && (which == 2 || which == 0) {
      big := [EP1];
    }
    if (shapeID == 9 || shapeID == 10) && (which == 3 || which == 0) {
      sma := [EP1];
    }
    if shapeID == 5 && base == 2 && (which == 6 || which == 0) {
      com := [EP1];
    }
  }

  lemma {:induction false} NoPairRowOnStone(t: Table, own: seq<bool>, kind: StepKind, i: nat, n: nat)
    requires IsSegment(own) && i < n <= |own| && own[i]
    ensures PairRow(t, own, kind, i, n) == []
  {
    if n > i + 1 {
      NoPairRowOnStone(t, own, kind, i, n - 1);
    }
  }

  /** The line after the first `n` cells have been tried as first stone. */
  ghost function PotentialsUpTo(t: Table, own: seq<bool>, CurP: Point, k: Angle, which: Which, VL0: Line, n: nat): Line
    requires IsSegment(own) && n <= |own|
  {
    VL0.(
      BigPotenPoint := if Wants(which, 2) then Points(CurP, k, Picks(t, own, BigPoint, n)) else [],
      SmaPotenPoint := if Wants(which, 3) then Points(CurP, k, Picks(t, own, SmaPoint, n)) else [],
      ComPoint := if Wants(which, 6) then Points(CurP, k, Picks(t, own, PointKind.ComPoint, n)) else [],
      BigPotenStep := if Wants(which, 4) then Pairs(CurP, k, PairPicks(t, own, BigStep, n)) else [],
      SmaPotenStep := if Wants(which, 5) then Pairs(CurP, k, PairPicks(t, own, SmaStep, n)) else [])
  }

  /** One more first stone, if its list is wanted at all. */
  lemma PicksNext(t: Table, own: seq<bool>, CurP: Point, k: Angle, kind: PointKind, wanted: bool, i: nat)
    requires IsSegment(own) && i < |own|
    ensures (if wanted then Points(CurP, k, Picks(t, own, kind, i + 1)) else [])
         == (if wanted then Points(CurP, k, Picks(t, own, kind, i)) else [])
          + Points(CurP, k, if wanted && Picked(t, own, kind, i) then [i] else [])
  {
    hide Picked;
    PointsSnoc(CurP, k, Picks(t, own, kind, i), if Picked(t, own, kind, i) then [i] else []);
  }

  lemma PairPicksNext(t: Table, own: seq<bool>, CurP: Point, k: Angle, kind: StepKind, wanted: bool, i: nat)
    requires IsSegment(own) && i < |own|
    ensures (if wanted then Pairs(CurP, k, PairPicks(t, own, kind, i + 1)) else [])
         == (if wanted then Pairs(CurP, k, PairPicks(t, own, kind, i)) else [])
          + Pairs(CurP, k, if wanted then PairRow(t, own, kind, i, |own|) else [])
  {
    hide PairRow;
    PairsSnoc(CurP, k, PairPicks(t, own, kind, i), PairRow(t, own, kind, i, |own|));
  }

  /** What the first stone on cell `i` adds to the lists. */
  ghost predicate Offers(t: Table, own: seq<bool>, CurP: Point, k: Angle, which: Which, i: nat, a: Line)
    requires IsSegment(own) && i < |own|
  {
    && a.BigPotenPoint == Points(CurP, k, if Wants(which, 2) && Picked(t, own, BigPoint, i) then [i] else [])
    && a.SmaPotenPoint == Points(CurP, k, if Wants(which, 3) && Picked(t, own, SmaPoint, i) then [i] else [])
    && a.ComPoint == Points(CurP, k, if Wants(which, 6) && Picked(t, own, PointKind.ComPoint, i) then [i] else [])
    && a.BigPotenStep == Pairs(CurP, k, if Wants(which, 4) then PairRow(t, own, BigStep, i, |own|) else [])
    && a.SmaPotenStep == Pairs(CurP, k, if Wants(which, 5) then PairRow(t, own, SmaStep, i, |own|) else [])
  }

  /** `VL` with the lists of `a` added. */
  function WithOffers(VL: Line, a: Line): Line {
    VL.(BigPotenPoint := VL.BigPotenPoint + a.BigPotenPoint, SmaPotenPoint := VL.SmaPotenPoint + a.SmaPotenPoint,
        ComPoint := VL.ComPoint + a.ComPoint, BigPotenStep := VL.BigPotenStep + a.BigPotenStep,
        SmaPotenStep := VL.SmaPotenStep + a.SmaPotenStep)
  }

  lemma PotentialsNext(t: Table, own: seq<bool>, CurP: Point, k: Angle, which: Which, VL0: Line, i: nat, a: Line)
    requires IsSegment(own) && i < |own| && Offers(t, own, CurP, k, which, i, a)
    ensures PotentialsUpTo(t, own, CurP, k, which, VL0, i + 1)
         == WithOffers(PotentialsUpTo(t, own, CurP, k, which, VL0, i), a)
  {
    hide Points, Pairs, Picks, PairPicks, Picked, PairRow, Wants;
    PicksNext(t, own, CurP, k, BigPoint, Wants(which, 2), i);
    PicksNext(t, own, CurP, k, SmaPoint, Wants(which, 3), i);
    PicksNext(t, own, CurP, k, PointKind.ComPoint, Wants(which, 6), i);
    PairPicksNext(t, own, CurP, k, BigStep, Wants(which, 4), i);
    PairPicksNext(t, own, CurP, k, SmaStep, Wants(which, 5), i);
  }

  /** A cell with a stone is no first cell. */
  lemma StoneOffersNothing(t: Table, own: seq<bool>, CurP: Point, k: Angle, which: Which, i: nat)
    requires IsSegment(own) && i < |own| && own[i]
    ensures Offers(t, own, CurP, k, which, i, ZERO_LINE)
  {
    hide Class, PairRow;
    NoPairRowOnStone(t, own, BigStep, i, |own|);
    NoPairRowOnStone(t, own, SmaStep, i, |own|);
  }

  lemma NothingOffered(VL: Line)
    ensures WithOffers(VL, ZERO_LINE) == VL
  {
  }

  lemma PotentialsNone(t: Table, own: seq<bool>, CurP: Point, k: Angle, which: Which, VL0: Line)
    requires IsSegment(own) && VL0 == ZERO_LINE.(Value := VL0.Value, ThreatNum := VL0.ThreatNum)
    ensures PotentialsUpTo(t, own, CurP, k, which, VL0, 0) == VL0
  {
  }

  /** The first stone on cell `i`, and the loop over second stones. */
  method FirstStone(t: Table, CurP: Point, shapeIndex: nat, k: Angle, which: Which, i: nat, len: nat,
                    ghost own: seq<bool>)
    returns (a: Line)
    requires IsSegment(own) && shapeIndex == Code(own) - 64 && i < len == |own| && !own[i]
    ensures Offers(t, own, CurP, k, which, i, a)
  {
    hide Picked, PairRow, Code, Class;
    var bigP, smaP, comP := SingleAt(t, CurP, shapeIndex, k, which, i, own);
    a := ZERO_LINE.(BigPotenPoint := bigP, SmaPotenPoint := smaP, ComPoint := comP);
    if which == 2 || which == 3 || which == 6 {
      return;
    }
    var big, sma := PairRowPoints(t, CurP, shapeIndex, k, which, i, len, own);
    a := a.(BigPotenStep := big, SmaPotenStep := sma);
  }

  /** The loop over first stones. */
  method Potentials(t: Table, CurP: Point, shapeIndex: nat, k: Angle, which: Which, len: nat, VL0: Line,
                    ghost own: seq<bool>)
    returns (VL: Line)
    requires IsSegment(own) && shapeIndex == Code(own) - 64 && len == |own|
    requires VL0 == ZERO_LINE.(Value := VL0.Value, ThreatNum := VL0.ThreatNum)
    ensures VL == PotentialsUpTo(t, own, CurP, k, which, VL0, len)
  {
    hide *;
    PotentialsNone(t, own, CurP, k, which, VL0);
    VL := VL0;
    for i := 0 to len
      invariant VL == PotentialsUpTo(t, own, CurP, k, which, VL0, i)
    {
      CodeBit(own, i);
      if Bit(shapeIndex + 64, i) != 0 {
        StoneOffersNothing(t, own, CurP, k, which, i);
        PotentialsNext(t, own, CurP, k, which, VL0, i, ZERO_LINE);
        NothingOffered(VL);
        continue;
      }
      var a := FirstStone(t, CurP, shapeIndex, k, which, i, len, own);
      PotentialsNext(t, own, CurP, k, which, VL0, i, a);
      VL := WithOffers(VL, a);
    }
  }

  /** The loop over the windows of six cells. */
  method ThreatPoints(CurP: Point, style: nat, k: Angle, len: nat, ghost own: seq<bool>) returns (found: seq<Point>)
    requires style == Code(own) && 6 <= len == |own|
    ensures found == Points(CurP, k, ThreatGaps(own, len - 5))
  {
    found := [];
    for i := 0 to len - 5
      invariant found == Points(CurP, k, ThreatGaps(own, i))
    {
      var more := WindowThreats(CurP, style, k, i, own);
      PointsSnoc(CurP, k, ThreatGaps(own, i), if Stones(own, i, 6) in {4, 5} then Gaps(own, i, 6) else []);
      found := found + more;
    }
  }

  /** The value and the threat count of a class. */
  method ShapeNumbers(shapeID: nat) returns (VL: Line)
    requires shapeID < 16
    ensures VL == ZERO_LINE.(Value := LINE_TYPE_VALUE[shapeID], ThreatNum := ThreatsOf(shapeID))
  {
    VL := ZERO_LINE.(Value := LINE_TYPE_VALUE[shapeID]);
    if shapeID == 9 || shapeID == 10 || shapeID == 12 {
      VL := VL.(ThreatNum := VL.ThreatNum + 1);
    }
    if shapeID == 11 || shapeID == 13 {
      VL := VL.(ThreatNum := VL.ThreatNum + 2);
    }
    if shapeID == 14 {
      VL := VL.(ThreatNum := VL.ThreatNum + 3);
    }
  }

  method ShapeDetails(t: Table, CurP: Point, shapeIndex: nat, k: Angle, which: Which, ghost own: seq<bool>)
    returns (VL: Line)
    requires IsSegment(own) && shapeIndex == Code(own) - 64
    ensures VL == ShapeLine(t, own, CurP, k, which)
  {
    hide ThreatsOf;
    var style := shapeIndex + 64;
    var len := SegmentLength(style, own);
    SegmentCodeInTable(own);
    var shapeID := t[shapeIndex];
    VL := ShapeNumbers(shapeID);
    if which == 7 {
      return;
    }
    if shapeID >= 9 && (which == 1 || which == 0) {
      var found := ThreatPoints(CurP, style, k, len, own);
      VL := VL.(ThreatPoint := found);
    } else {
      VL := Potentials(t, CurP, shapeIndex, k, which, len, VL, own);
    }
  }

  /** The analysis of a shape, whose potential points make as many threats as their list says. */
  method ValuateShape(t: Table, CurP: Point, shapeIndex: nat, k: Angle, which: Which, ghost own: seq<bool>)
    returns (VL: Line)
    requires IsSegment(own) && shapeIndex == Code(own) - 64
    ensures VL == ShapeLine(t, own, CurP, k, which)
    ensures BelowThreats(t, own) && which != 7 ==> OffersMean(t, own, CurP, k, which, VL)
  {
    hide ShapeLine, OffersMean, Code;
    if BelowThreats(t, own) && which != 7 {
      ShapeOffersMean(t, own, CurP, k, which);
    }
    VL := ShapeDetails(t, CurP, shapeIndex, k, which, own);
  }
}
