/** What the discount of a leaf can do to its score, whatever the trials find. */
module Discounts {
  import opened Geometry
  import opened Shape
  import opened Trials

  function Larger(a: int, b: int): int {
    if a > b then a else b
  }

  /** The truncated products. */
  lemma DiscountValues()
    ensures DISCOUNT_TWO_TWO == 4 && DISCOUNT_TWO_ONE == 2 && DISCOUNT_ONE == 4
    ensures DISCOUNT_BIG_POINT == 16 && DISCOUNT_BIG_STEP == 5 && DISCOUNT_SMA_POINT == 4
  {
  }

  lemma {:induction false} RowLowers(t: Table, g: Grid, pts: seq<Point>, side1: Side, largeDepth: int, beta: int,
                                     i: nat, j: nat)
    requires i < j <= |pts|
    ensures DiscountRow(t, g, pts, side1, largeDepth, beta, i, j) <= Larger(beta, largeDepth - THREAT)
  {
    hide PairThreats;
    if j > i + 1 {
      RowLowers(t, g, pts, side1, largeDepth, beta, i, j - 1);
      DiscountValues();
    }
  }

  lemma {:induction false} RowsLower(t: Table, g: Grid, pts: seq<Point>, side1: Side, largeDepth: int, beta: int,
                                     n: nat)
    requires n <= |pts|
    ensures DiscountRows(t, g, pts, side1, largeDepth, beta, n) <= Larger(beta, largeDepth - THREAT)
  {
    hide DiscountRow;
    if n > 0 {
      RowsLower(t, g, pts, side1, largeDepth, beta, n - 1);
      RowLowers(t, g, pts, side1, largeDepth, DiscountRows(t, g, pts, side1, largeDepth, beta, n - 1), n - 1, |pts|);
    }
  }

  /** How many of the first `n` threat points, when answered, leave a strong point of the other side. */
  ghost function StrongAnswers(t: Table, g: Grid, pts: seq<Point>, side1: Side, n: nat): nat
    requires n <= |pts|
  {
    if n == 0 then 0 else
      StrongAnswers(t, g, pts, side1, n - 1) + if StaysStrong(t, g, pts[n - 1], side1) then 1 else 0
  }

  lemma {:induction false} SinglesCount(t: Table, g: Grid, pts: seq<Point>, side1: Side, beta: int, n: nat)
    requires n <= |pts|
    ensures DiscountSingles(t, g, pts, side1, beta, n) == beta - 4 * StrongAnswers(t, g, pts, side1, n)
  {
    hide StaysStrong;
    if n > 0 {
      SinglesCount(t, g, pts, side1, beta, n - 1);
      DiscountValues();
    }
  }

  /** The discount never raises a score above what it was, or above a certain loss one step later. */
  lemma DiscountLowers(t: Table, g: Grid, side1: Side, Si1: Line, Si2: Line, largeDepth: int, beta: int)
    ensures Discounted(t, g, side1, Si1, Si2, largeDepth, beta) <= Larger(beta, largeDepth - THREAT)
    ensures beta >= -(THREAT - largeDepth) ==> Discounted(t, g, side1, Si1, Si2, largeDepth, beta) <= beta
    ensures Si1.ThreatNum == 1 ==>
              Discounted(t, g, side1, Si1, Si2, largeDepth, beta)
              == beta - 4 * StrongAnswers(t, g, Si1.ThreatPoint, side1, |Si1.ThreatPoint|)
    ensures Si1.ThreatNum > 2 ==> Discounted(t, g, side1, Si1, Si2, largeDepth, beta) == beta
    ensures Si1.ThreatNum == 0 && Si2.BigPotenPoint == [] && Si2.BigPotenStep == [] && |Si2.SmaPotenPoint| <= 3 ==>
              Discounted(t, g, side1, Si1, Si2, largeDepth, beta) == beta
  {
    hide DiscountRows, DiscountSingles, StrongAnswers;
    DiscountValues();
    RowsLower(t, g, Si1.ThreatPoint, side1, largeDepth, beta, |Si1.ThreatPoint|);
    SinglesCount(t, g, Si1.ThreatPoint, side1, beta, |Si1.ThreatPoint|);
  }
}
