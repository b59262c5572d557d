/** What the potential points of a shape mean: how many threats a stone there makes. */
module ShapeOffers {
  import opened Geometry
  import opened Shape

  lemma PointListed(cur: Point, k: Angle, offsets: seq<nat>, i: nat)
    ensures Along(cur, k, i) in Points(cur, k, offsets) <==> i in offsets
  {
    if i in offsets {
      var j :| 0 <= j < |offsets| && offsets[j] == i;
      assert Points(cur, k, offsets)[j] == Along(cur, k, i);
    }
  }

  lemma PairListed(cur: Point, k: Angle, offsets: seq<(nat, nat)>, i: nat, j: nat)
    ensures Pair(Along(cur, k, i), Along(cur, k, j)) in Pairs(cur, k, offsets) <==> (i, j) in offsets
  {
    if (i, j) in offsets {
      var n :| 0 <= n < |offsets| && offsets[n] == (i, j);
      assert Pairs(cur, k, offsets)[n] == Pair(Along(cur, k, i), Along(cur, k, j));
    }
  }

  /** The threat count a shape reports. */
  function ThreatsIn(t: Table, own: seq<bool>): int
    requires IsSegment(own)
  {
    ShapeLine(t, own, Point(0, 0), 0, 7).ThreatNum
  }

  /** A shape that reports no threat points because it has none. */
  predicate BelowThreats(t: Table, own: seq<bool>)
    requires IsSegment(own)
  {
    Class(t, own) < 9
  }

  /** An empty cell is listed as a strong point exactly when a stone there makes two threats, and as a weak point
      only if it makes one. */
  lemma PointsMean(t: Table, own: seq<bool>, cur: Point, k: Angle, which: Which, i: nat)
    requires IsSegment(own) && i < |own| && !own[i] && BelowThreats(t, own) && which != 7
    ensures var l, p, n := ShapeLine(t, own, cur, k, which), Along(cur, k, i), ThreatsIn(t, own[i := true]);
            && (Wants(which, 2) ==> (p in l.BigPotenPoint <==> n == 2))
            && (p in l.BigPotenPoint ==> n == 2)
            && (p in l.SmaPotenPoint ==> n == 1)
  {
    hide Points, Pairs, Picks, PairPicks, ThreatGaps, Class;
    PicksExact(t, own, BigPoint, |own|);
    PicksExact(t, own, SmaPoint, |own|);
    PointListed(cur, k, Picks(t, own, BigPoint, |own|), i);
    PointListed(cur, k, Picks(t, own, SmaPoint, |own|), i);
  }

  /** Two stones on a strong pair make two threats or more, on a weak pair one. */
  lemma PairsMean(t: Table, own: seq<bool>, cur: Point, k: Angle, which: Which, i: nat, j: nat)
    requires IsSegment(own) && i < j < |own| && !own[i] && !own[j] && BelowThreats(t, own) && which != 7
    ensures var l, m := ShapeLine(t, own, cur, k, which), Pair(Along(cur, k, i), Along(cur, k, j));
            var n := ThreatsIn(t, own[i := true][j := true]);
            && (m in l.BigPotenStep ==> n >= 2)
            && (m in l.SmaPotenStep ==> n == 1)
  {
    hide Points, Pairs, Picks, PairPicks, ThreatGaps, Class;
    PairPicksExact(t, own, BigStep, |own|);
    PairPicksExact(t, own, SmaStep, |own|);
    PairListed(cur, k, PairPicks(t, own, BigStep, |own|), i, j);
    PairListed(cur, k, PairPicks(t, own, SmaStep, |own|), i, j);
  }

  /** What the lists of a shape without threats mean: the strong points are exactly the empty cells on which a stone
      makes two threats, the weak points such on which it makes one; strong pairs make two threats or more, weak pairs
      one. */
  ghost predicate OffersMean(t: Table, own: seq<bool>, cur: Point, k: Angle, which: Which, l: Line)
    requires IsSegment(own)
  {
    && (forall i: nat {:trigger Along(cur, k, i)} :: i < |own| && !own[i] ==>
          var p, n := Along(cur, k, i), ThreatsIn(t, own[i := true]);
          && (Wants(which, 2) ==> (p in l.BigPotenPoint <==> n == 2))
          && (p in l.BigPotenPoint ==> n == 2)
          && (p in l.SmaPotenPoint ==> n == 1))
    && (forall i: nat, j: nat {:trigger Along(cur, k, i), Along(cur, k, j)} ::
          i < j < |own| && !own[i] && !own[j] ==>
          var m, n := Pair(Along(cur, k, i), Along(cur, k, j)), ThreatsIn(t, own[i := true][j := true]);
          && (m in l.BigPotenStep ==> n >= 2)
          && (m in l.SmaPotenStep ==> n == 1))
  }

  lemma ShapeOffersMean(t: Table, own: seq<bool>, cur: Point, k: Angle, which: Which)
    requires IsSegment(own) && BelowThreats(t, own) && which != 7
    ensures OffersMean(t, own, cur, k, which, ShapeLine(t, own, cur, k, which))
  {
    hide ShapeLine, Class, ThreatsIn, Along, BelowThreats;
    forall i: nat | i < |own| && !own[i]
      ensures var l, p, n := ShapeLine(t, own, cur, k, which), Along(cur, k, i), ThreatsIn(t, own[i := true]);
              && (Wants(which, 2) ==> (p in l.BigPotenPoint <==> n == 2))
              && (p in l.BigPotenPoint ==> n == 2)
              && (p in l.SmaPotenPoint ==> n == 1)
    {
      PointsMean(t, own, cur, k, which, i);
    }
    forall i: nat, j: nat | i < j < |own| && !own[i] && !own[j]
      ensures var l, m := ShapeLine(t, own, cur, k, which), Pair(Along(cur, k, i), Along(cur, k, j));
              var n := ThreatsIn(t, own[i := true][j := true]);
              && (m in l.BigPotenStep ==> n >= 2)
              && (m in l.SmaPotenStep ==> n == 1)
    {
      PairsMean(t, own, cur, k, which, i, j);
    }
  }
}
