/** Shapes: the classification of one opponent-free segment of a line. A segment of
    6 to 19 cells is coded as a number, the code indexes the shape table, and the class
    found there decides the value, the threat count and the points worth playing. */
module Shape {
  import opened Bits
  import opened Geometry

  const TABLESIZE := 1048512
  const WINLOSE := 10000
  const THREAT := WINLOSE - 1

  const LINE_TYPE_VALUE: seq<int> := [0, 0, 1, 2, 3, 8, 10, 15, 20, 30, 34, 60, 36, 64, 1000, 10000]

  /** The precomputed table of shape classes; its contents are a parameter of the model. */
  type Table = t: seq<int> | |t| == TABLESIZE && forall i :: 0 <= i < |t| ==> 0 <= t[i] < 16
    witness seq(TABLESIZE, _ => 0)

  /** Two cells played together. */
  datatype Pair = Pair(First: Point, Second: Point)

  /** What is known about one line for one side. */
  datatype Line = Line(
    Value: int,
    ThreatNum: int,
    ThreatPoint: seq<Point>,
    BigPotenPoint: seq<Point>,
    SmaPotenPoint: seq<Point>,
    BigPotenStep: seq<Pair>,
    SmaPotenStep: seq<Pair>,
    ComPoint: seq<Point>)

  const ZERO_LINE := Line(0, 0, [], [], [], [], [], [])

  type Which = w: int | 0 <= w < 256

  // ----- the code of a segment -----

  /** A segment (true = own stone, false = empty), first cell in the lowest bit, with a
      leading one above the last cell. */
  function Code(own: seq<bool>): (c: nat)
    ensures c > 0
  {
    if own == [] then 1 else (if own[0] then 1 else 0) + 2 * Code(own[1..])
  }

  predicate IsSegment(own: seq<bool>) {
    6 <= |own| <= 19
  }

  lemma {:induction false} CodeBounds(own: seq<bool>)
    ensures Pow2(|own|) <= Code(own) < Pow2(|own| + 1)
  {
    if own != [] {
      CodeBounds(own[1..]);
    }
  }

  lemma SegmentCodeInTable(own: seq<bool>)
    requires IsSegment(own)
    ensures 0 <= Code(own) - 64 < TABLESIZE
  {
    CodeBounds(own);
    Pow2Monotone(6, |own|);
    Pow2Monotone(|own| + 1, 20);
    WordSizes();
  }

  lemma {:induction false} CodeSnoc(own: seq<bool>, b: bool)
    ensures Code(own + [b]) == Code(own) + Pow2(|own|) + (if b then Pow2(|own|) else 0)
  {
    if own == [] {
      assert ([b])[1..] == [];
    } else {
      CodeSnoc(own[1..], b);
      assert (own + [b])[1..] == own[1..] + [b];
    }
  }

  lemma {:induction false} CodeBit(own: seq<bool>, i: nat)
    requires i < |own|
    ensures Bit(Code(own), i) == (if own[i] then 1 else 0)
  {
    if i > 0 {
      CodeBit(own[1..], i - 1);
      assert Code(own) / 2 == Code(own[1..]);
    }
  }

  lemma {:induction false} CodeSet(own: seq<bool>, i: nat)
    requires i < |own| && !own[i]
    ensures Code(own) + Pow2(i) == Code(own[i := true])
  {
    if i == 0 {
      assert own[0 := true][1..] == own[1..];
    } else {
      CodeSet(own[1..], i - 1);
      assert own[i := true][1..] == own[1..][i - 1 := true];
    }
  }

  lemma {:induction false} CodeInjective(a: seq<bool>, b: seq<bool>)
    requires Code(a) == Code(b)
    ensures a == b
  {
    if a != [] && b != [] {
      CodeInjective(a[1..], b[1..]);
      assert a == [a[0]] + a[1..] && b == [b[0]] + b[1..];
    }
  }

  function Decode(c: nat): (own: seq<bool>)
    requires c > 0
  {
    if c == 1 then [] else [c % 2 == 1] + Decode(c / 2)
  }

  lemma {:induction false} CodeDecode(c: nat)
    requires c > 0
    ensures Code(Decode(c)) == c
  {
    if c > 1 {
      CodeDecode(c / 2);
      assert Decode(c)[1..] == Decode(c / 2);
    }
  }

  /** The segments of 6 to 19 cells and the slots of the table correspond one to one. */
  lemma ShapeIndexBijective(slot: nat)
    requires slot < TABLESIZE
    ensures IsSegment(Decode(slot + 64)) && Code(Decode(slot + 64)) - 64 == slot
    ensures forall own :: IsSegment(own) && Code(own) - 64 == slot ==> own == Decode(slot + 64)
  {
    var own := Decode(slot + 64);
    CodeDecode(slot + 64);
    CodeBounds(own);
    WordSizes();
    if |own| < 6 {
      Pow2Monotone(|own| + 1, 6);
    }
    if |own| > 19 {
      Pow2Monotone(20, |own|);
    }
    forall other | IsSegment(other) && Code(other) - 64 == slot
      ensures other == own
    {
      CodeInjective(other, own);
    }
  }

  function Class(t: Table, own: seq<bool>): (c: int)
    requires IsSegment(own)
    ensures 0 <= c < 16
  {
    SegmentCodeInTable(own);
    t[Code(own) - 64]
  }

  // ----- what a shape offers -----

  function ThreatsOf(c: int): int {
    (if c in {9, 10, 12} then 1 else 0) + (if c in {11, 13} then 2 else 0) + (if c == 14 then 3 else 0)
  }

  /** The number of own stones among the `n` cells from `i`. */
  function Stones(own: seq<bool>, i: nat, n: nat): nat
    requires i + n <= |own|
  {
    if n == 0 then 0 else Stones(own, i, n - 1) + (if own[i + n - 1] then 1 else 0)
  }

  /** The empty cells among the `n` cells from `i`, in order. */
  function Gaps(own: seq<bool>, i: nat, n: nat): seq<nat>
    requires i + n <= |own|
  {
    if n == 0 then [] else Gaps(own, i, n - 1) + (if own[i + n - 1] then [] else [i + n - 1])
  }

  /** The gaps of the first `n` six-cell windows that hold four or five own stones. */
  function ThreatGaps(own: seq<bool>, n: nat): seq<nat>
    requires n == 0 || n + 5 <= |own|
  {
    if n == 0 then [] else
      ThreatGaps(own, n - 1) + (if Stones(own, n - 1, 6) in {4, 5} then Gaps(own, n - 1, 6) else [])
  }

  datatype PointKind = BigPoint | SmaPoint | ComPoint
  datatype StepKind = BigStep | SmaStep

  /** Whether a stone on the empty cell `i` turns the shape into one of the wanted classes. */
  predicate Picked(t: Table, own: seq<bool>, kind: PointKind, i: nat)
    requires IsSegment(own) && i < |own|
  {
    !own[i] &&
    var c := Class(t, own[i := true]);
    match kind
    case BigPoint => c in {11, 13}
    case SmaPoint => c in {9, 10}
    case ComPoint => c == 5 && Class(t, own) == 2
  }

  predicate PairPicked(t: Table, own: seq<bool>, kind: StepKind, i: nat, j: nat)
    requires IsSegment(own) && i < j < |own|
  {
    !own[i] && !own[j] &&
    var c := Class(t, own[i := true][j := true]);
    match kind
    case BigStep => c in {11, 13, 14} && Class(t, own) in {5, 7}
    case SmaStep => c in {9, 10, 12} && Class(t, own) in {3, 4}
  }

  /** The picked cells among the first `n`, in order. */
  function Picks(t: Table, own: seq<bool>, kind: PointKind, n: nat): seq<nat>
    requires IsSegment(own) && n <= |own|
  {
    if n == 0 then [] else Picks(t, own, kind, n - 1) + (if Picked(t, own, kind, n - 1) then [n - 1] else [])
  }

  /** The picked pairs whose first cell is `i` and whose second cell is below `n`. */
  function PairRow(t: Table, own: seq<bool>, kind: StepKind, i: nat, n: nat): seq<(nat, nat)>
    requires IsSegment(own) && i < n <= |own|
  {
    if n == i + 1 then [] else
      PairRow(t, own, kind, i, n - 1) + (if PairPicked(t, own, kind, i, n - 1) then [(i, n - 1)] else [])
  }

  /** The picked pairs whose first cell is below `n`, in order. */
  function PairPicks(t: Table, own: seq<bool>, kind: StepKind, n: nat): seq<(nat, nat)>
    requires IsSegment(own) && n <= |own|
  {
    if n == 0 then [] else PairPicks(t, own, kind, n - 1) + PairRow(t, own, kind, n - 1, |own|)
  }

  function Points(cur: Point, k: Angle, offsets: seq<nat>): (ps: seq<Point>)
    ensures |ps| == |offsets|
    ensures forall i :: 0 <= i < |ps| ==> ps[i] == Along(cur, k, offsets[i])
  {
    seq(|offsets|, i requires 0 <= i < |offsets| => Along(cur, k, offsets[i]))
  }

  function Pairs(cur: Point, k: Angle, offsets: seq<(nat, nat)>): (ps: seq<Pair>)
    ensures |ps| == |offsets|
    ensures forall i :: 0 <= i < |ps| ==> ps[i] == Pair(Along(cur, k, offsets[i].0), Along(cur, k, offsets[i].1))
  {
    seq(|offsets|, i requires 0 <= i < |offsets| => Pair(Along(cur, k, offsets[i].0), Along(cur, k, offsets[i].1)))
  }

  /** Mode 0 computes every list, mode `w` the list numbered `w`. */
  predicate Wants(which: Which, w: Which) {
    which == 0 || which == w
  }

  /** What a segment starting at `cur` in direction `k` contributes to its line. `which`
      selects what is computed: 0 everything, 1 to 6 one list, 7 only the two numbers. */
  function ShapeLine(t: Table, own: seq<bool>, cur: Point, k: Angle, which: Which): Line
    requires IsSegment(own)
  {
    var c, n := Class(t, own), |own|;
    var numbers := ZERO_LINE.(Value := LINE_TYPE_VALUE[c], ThreatNum := ThreatsOf(c));
    if which == 7 then numbers
    else if c >= 9 && Wants(which, 1) then numbers.(ThreatPoint := Points(cur, k, ThreatGaps(own, n - 5)))
    else numbers.(
      BigPotenPoint := if Wants(which, 2) then Points(cur, k, Picks(t, own, BigPoint, n)) else [],
      SmaPotenPoint := if Wants(which, 3) then Points(cur, k, Picks(t, own, SmaPoint, n)) else [],
      ComPoint := if Wants(which, 6) then Points(cur, k, Picks(t, own, PointKind.ComPoint, n)) else [],
      BigPotenStep := if Wants(which, 4) then Pairs(cur, k, PairPicks(t, own, BigStep, n)) else [],
      SmaPotenStep := if Wants(which, 5) then Pairs(cur, k, PairPicks(t, own, SmaStep, n)) else [])
  }

  // ----- properties of the offered cells -----

  lemma {:induction false} GapsExact(own: seq<bool>, i: nat, n: nat)
    requires i + n <= |own|
    ensures forall x :: x in Gaps(own, i, n) <==> i <= x < i + n && !own[x]
    ensures Stones(own, i, n) + |Gaps(own, i, n)| == n
  {
    if n > 0 {
      GapsExact(own, i, n - 1);
    }
  }

  ghost predicate IsThreatGap(own: seq<bool>, w: nat, x: nat) {
    w + 6 <= |own| && w <= x < w + 6 && !own[x] && Stones(own, w, 6) in {4, 5}
  }

  /** The threat cells are exactly the empty cells of windows with four or five own stones. */
  lemma {:induction false} ThreatGapsExact(own: seq<bool>, n: nat)
    requires n == 0 || n + 5 <= |own|
    ensures forall x :: x in ThreatGaps(own, n) <==> exists w :: 0 <= w < n && IsThreatGap(own, w, x)
  {
    hide Stones, Gaps;
    if n > 0 {
      ThreatGapsExact(own, n - 1);
      GapsExact(own, n - 1, 6);
      forall x
        ensures x in ThreatGaps(own, n) <==> exists w :: 0 <= w < n && IsThreatGap(own, w, x)
      {
        if x in ThreatGaps(own, n - 1) {
          var w :| 0 <= w < n - 1 && IsThreatGap(own, w, x);
        } else if x in ThreatGaps(own, n) {
          assert IsThreatGap(own, n - 1, x);
        }
      }
    }
  }

  lemma {:induction false} PicksExact(t: Table, own: seq<bool>, kind: PointKind, n: nat)
    requires IsSegment(own) && n <= |own|
    ensures forall x :: x in Picks(t, own, kind, n) <==> 0 <= x < n && Picked(t, own, kind, x)
  {
    if n > 0 {
      PicksExact(t, own, kind, n - 1);
    }
  }

  lemma {:induction false} PairRowExact(t: Table, own: seq<bool>, kind: StepKind, i: nat, n: nat)
    requires IsSegment(own) && i < n <= |own|
    ensures forall x :: x in PairRow(t, own, kind, i, n) <==> x.0 == i < x.1 < n && PairPicked(t, own, kind, i, x.1)
  {
    hide PairPicked;
    if n > i + 1 {
      PairRowExact(t, own, kind, i, n - 1);
    }
  }

  lemma {:induction false} PairPicksExact(t: Table, own: seq<bool>, kind: StepKind, n: nat)
    requires IsSegment(own) && n <= |own|
    ensures forall x :: x in PairPicks(t, own, kind, n) <==>
                        x.0 < n && x.0 < x.1 < |own| && PairPicked(t, own, kind, x.0, x.1)
  {
    if n > 0 {
      PairPicksExact(t, own, kind, n - 1);
      PairRowExact(t, own, kind, n - 1, |own|);
    }
  }

  /** By first cell, then by second cell. */
  predicate PairBefore(x: (nat, nat), y: (nat, nat)) {
    x.0 < y.0 || (x.0 == y.0 && x.1 < y.1)
  }

  predicate PairsOrdered(l: seq<(nat, nat)>) {
    forall a, b :: 0 <= a < b < |l| ==> PairBefore(l[a], l[b])
  }

  lemma JoinOrdered(l: seq<(nat, nat)>, m: seq<(nat, nat)>)
    requires PairsOrdered(l) && PairsOrdered(m)
    requires forall x, y :: x in l && y in m ==> PairBefore(x, y)
    ensures PairsOrdered(l + m)
  {
    forall a, b | 0 <= a < b < |l + m|
      ensures PairBefore((l + m)[a], (l + m)[b])
    {
      assert a < |l| ==> l[a] in l;
      assert b >= |l| ==> m[b - |l|] in m;
    }
  }

  lemma {:induction false} PairRowOrdered(t: Table, own: seq<bool>, kind: StepKind, i: nat, n: nat)
    requires IsSegment(own) && i < n <= |own|
    ensures PairsOrdered(PairRow(t, own, kind, i, n))
  {
    hide PairPicked, PairsOrdered;
    if n == i + 1 {
      NoneOrdered();
    } else {
      PairRowOrdered(t, own, kind, i, n - 1);
      PairRowExact(t, own, kind, i, n - 1);
      OneOrdered((i, n - 1));
      NoneOrdered();
      JoinOrdered(PairRow(t, own, kind, i, n - 1), if PairPicked(t, own, kind, i, n - 1) then [(i, n - 1)] else []);
    }
  }

  lemma NoneOrdered()
    ensures PairsOrdered([])
  {
  }

  lemma OneOrdered(x: (nat, nat))
    ensures PairsOrdered([x])
  {
  }

  /** ... each pair once, in the order of the loops. */
  lemma {:induction false} PairPicksOrdered(t: Table, own: seq<bool>, kind: StepKind, n: nat)
    requires IsSegment(own) && n <= |own|
    ensures PairsOrdered(PairPicks(t, own, kind, n))
  {
    hide PairRow, PairPicked, PairsOrdered;
    if n == 0 {
      NoneOrdered();
    } else {
      PairPicksOrdered(t, own, kind, n - 1);
      PairPicksExact(t, own, kind, n - 1);
      PairRowOrdered(t, own, kind, n - 1, |own|);
      PairRowExact(t, own, kind, n - 1, |own|);
      JoinOrdered(PairPicks(t, own, kind, n - 1), PairRow(t, own, kind, n - 1, |own|));
    }
  }

  /** Every point or pair of points of a line analysis satisfies `ok`. */
  ghost predicate AllCells(l: Line, ok: Point -> bool) {
    && (forall p <- l.ThreatPoint :: ok(p))
    && (forall p <- l.BigPotenPoint :: ok(p))
    && (forall p <- l.SmaPotenPoint :: ok(p))
    && (forall p <- l.ComPoint :: ok(p))
    && (forall s <- l.BigPotenStep :: ok(s.First) && ok(s.Second))
    && (forall s <- l.SmaPotenStep :: ok(s.First) && ok(s.Second))
  }

  lemma PointsAreEmptyCells(own: seq<bool>, cur: Point, k: Angle, offsets: seq<nat>, ok: Point -> bool)
    requires forall i :: 0 <= i < |own| && !own[i] ==> ok(Along(cur, k, i))
    requires forall x :: x in offsets ==> x < |own| && !own[x]
    ensures forall p <- Points(cur, k, offsets) :: ok(p)
  {
    forall p | p in Points(cur, k, offsets)
      ensures ok(p)
    {
      var i :| 0 <= i < |offsets| && p == Points(cur, k, offsets)[i];
      assert offsets[i] in offsets;
    }
  }

  lemma PairsAreEmptyCells(own: seq<bool>, cur: Point, k: Angle, offsets: seq<(nat, nat)>, ok: Point -> bool)
    requires forall i :: 0 <= i < |own| && !own[i] ==> ok(Along(cur, k, i))
    requires forall x :: x in offsets ==> x.0 < |own| && x.1 < |own| && !own[x.0] && !own[x.1]
    ensures forall s <- Pairs(cur, k, offsets) :: ok(s.First) && ok(s.Second)
  {
    forall s | s in Pairs(cur, k, offsets)
      ensures ok(s.First) && ok(s.Second)
    {
      var i :| 0 <= i < |offsets| && s == Pairs(cur, k, offsets)[i];
      assert offsets[i] in offsets;
    }
  }

  /** Whatever the table says, only empty cells of the segment are ever offered. */
  lemma ShapeOffersEmptyCells(t: Table, own: seq<bool>, cur: Point, k: Angle, which: Which, ok: Point -> bool)
    requires IsSegment(own)
    requires forall i :: 0 <= i < |own| && !own[i] ==> ok(Along(cur, k, i))
    ensures AllCells(ShapeLine(t, own, cur, k, which), ok)
  {
    var n := |own|;
    ThreatGapsExact(own, n - 5);
    PointsAreEmptyCells(own, cur, k, ThreatGaps(own, n - 5), ok);
    forall kind: PointKind
      ensures forall p <- Points(cur, k, Picks(t, own, kind, n)) :: ok(p)
    {
      PicksExact(t, own, kind, n);
      PointsAreEmptyCells(own, cur, k, Picks(t, own, kind, n), ok);
    }
    forall kind: StepKind
      ensures forall s <- Pairs(cur, k, PairPicks(t, own, kind, n)) :: ok(s.First) && ok(s.Second)
    {
      PairPicksExact(t, own, kind, n);
      PairsAreEmptyCells(own, cur, k, PairPicks(t, own, kind, n), ok);
    }
  }
}
