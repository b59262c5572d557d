/** What the search for an immediate win leaves on the board: the trial stones of the pairs
    that did not win are not taken back. */
module WinSteps {
  import opened Geometry
  import opened Shape
  import opened Threats
  import opened Completion

  /** The first `n` points of a list with stones of one side. */
  function StonesOn(g: Grid, pts: seq<Point>, side: Side, n: nat): Grid
    requires n <= |pts|
  {
    if n == 0 then g else Put(StonesOn(g, pts, side, n - 1), pts[n - 1], side)
  }

  /** How many leading points hold trial stones after all pairs before (i, j) have been tried. */
  function Tried(n: nat, i: nat, j: nat): nat {
    if n < 2 then 0 else if i > 0 then n else if j <= 1 then 0 else j
  }

  /** The two stones show class 15 around one of the two points. */
  ghost predicate PairWins(t: Table, g: Grid, p: Point, q: Point, side: Side)
    requires OnBoard(p) && OnBoard(q)
  {
    var g2 := Put(Put(g, p, side), q, side);
    WinsAt(t, g2, p, side) || WinsAt(t, g2, q, side)
  }

  /** For two points in plain sight that is a completion on the board. */
  lemma PairWinsIsCompletion(t: Table, g: Grid, p: Point, q: Point, side: Side)
    requires OnBoard(p) && OnBoard(q) && InPlainSight(p) && InPlainSight(q)
    ensures var g2 := Put(Put(g, p, side), q, side);
            PairWins(t, g, p, q, side) <==> CompletesAt(t, g2, p, side) || CompletesAt(t, g2, q, side)
  {
    hide WinsAt, CompletesAt;
    PutAt(g, p, side, p);
    PutAt(Put(g, p, side), q, side, p);
    PutAt(Put(g, p, side), q, side, q);
    WinsAtIsCompletion(t, Put(Put(g, p, side), q, side), p, side);
    WinsAtIsCompletion(t, Put(Put(g, p, side), q, side), q, side);
  }

  /** The two leading points already win together. */
  ghost predicate FirstPairWins(t: Table, g: Grid, pts: seq<Point>, side: Side)
    requires forall q <- pts :: OnBoard(q)
  {
    |pts| >= 2 && (assert pts[0] in pts && pts[1] in pts; PairWins(t, g, pts[0], pts[1], side))
  }

  /** The pair (i, j) shows class 15 when its turn comes, on top of the earlier trials. */
  ghost predicate WinsInTurn(t: Table, g: Grid, pts: seq<Point>, side: Side, i: nat, j: nat)
    requires forall q <- pts :: OnBoard(q)
  {
    i < j < |pts| && (assert pts[i] in pts && pts[j] in pts;
                      PairWins(t, StonesOn(g, pts, side, Tried(|pts|, i, j)), pts[i], pts[j], side))
  }

  /** Some pair wins in its turn. */
  ghost predicate SomePairWins(t: Table, g: Grid, pts: seq<Point>, side: Side)
    requires forall q <- pts :: OnBoard(q)
  {
    exists i: nat, j: nat :: WinsInTurn(t, g, pts, side, i, j)
  }

  /** The pair wins in its turn, and no pair before it in the order of the loops does. */
  ghost predicate IsFirstWin(t: Table, g: Grid, pts: seq<Point>, side: Side, i: nat, j: nat)
    requires forall q <- pts :: OnBoard(q)
  {
    && WinsInTurn(t, g, pts, side, i, j)
    && forall u: nat, v: nat :: u < i || (u == i && v < j) ==> !WinsInTurn(t, g, pts, side, u, v)
  }

  lemma NoStones(g: Grid, pts: seq<Point>, side: Side)
    ensures StonesOn(g, pts, side, 0) == g
  {
  }

  lemma TakeBackPair(g: Grid, p: Point, q: Point, side: Side)
    requires OnBoard(p) && OnBoard(q)
    ensures Put(Put(Put(Put(g, p, side), q, side), p, EMPTY), q, EMPTY) == Put(Put(g, p, EMPTY), q, EMPTY)
  {
    assert Index(p) == Index(q) <==> p == q;
  }

  lemma {:induction false} StonesOnAt(g: Grid, pts: seq<Point>, side: Side, n: nat, p: Point)
    requires n <= |pts| && OnBoard(p) && forall q <- pts :: OnBoard(q)
    ensures At(StonesOn(g, pts, side, n), p) == if p in pts[..n] then side else At(g, p)
  {
    hide Put, At;
    if n > 0 {
      StonesOnAt(g, pts, side, n - 1, p);
      assert pts[n - 1] in pts;
      assert pts[..n] == pts[..n - 1] + [pts[n - 1]];
      PutAt(StonesOn(g, pts, side, n - 1), pts[n - 1], side, p);
    }
  }

  lemma GridsEqual(g: Grid, h: Grid)
    requires forall p :: OnBoard(p) ==> At(g, p) == At(h, p)
    ensures g == h
  {
    forall i | 0 <= i < BOARD_CELLS
      ensures g[i] == h[i]
    {
      var p := Point(i / 19, i % 19);
      assert OnBoard(p) && Index(p) == i;
    }
  }

  /** Placing the stones of pair (i, j) on top of the earlier trials. */
  lemma TrialPair(g: Grid, pts: seq<Point>, side: Side, i: nat, j: nat)
    requires i < j < |pts| && forall q <- pts :: OnBoard(q)
    ensures Tried(|pts|, i, j) <= |pts|
    ensures Put(Put(StonesOn(g, pts, side, Tried(|pts|, i, j)), pts[i], side), pts[j], side)
         == StonesOn(g, pts, side, if i == 0 then j + 1 else |pts|)
  {
    var n, m := Tried(|pts|, i, j), if i == 0 then j + 1 else |pts|;
    assert pts[i] in pts && pts[j] in pts;
    forall p | OnBoard(p)
      ensures At(Put(Put(StonesOn(g, pts, side, n), pts[i], side), pts[j], side), p) == At(StonesOn(g, pts, side, m), p)
    {
      StonesOnAt(g, pts, side, n, p);
      StonesOnAt(g, pts, side, m, p);
      PutAt(StonesOn(g, pts, side, n), pts[i], side, p);
      PutAt(Put(StonesOn(g, pts, side, n), pts[i], side), pts[j], side, p);
      assert pts[..m][i] == pts[i] && pts[..m][j] == pts[j];
      PrefixMembers(pts, n, i, j, m, p);
    }
    GridsEqual(Put(Put(StonesOn(g, pts, side, n), pts[i], side), pts[j], side), StonesOn(g, pts, side, m));
  }

  lemma PrefixMembers(pts: seq<Point>, n: nat, i: nat, j: nat, m: nat, p: Point)
    requires i < j < |pts| && n == Tried(|pts|, i, j) && m == (if i == 0 then j + 1 else |pts|)
    ensures p in pts[..m] <==> p in pts[..n] || p == pts[i] || p == pts[j]
  {
    assert pts[..m][i] == pts[i] && pts[..m][j] == pts[j];
    if p in pts[..n] {
      var u :| 0 <= u < n && pts[..n][u] == p;
      assert pts[..m][u] == p;
    }
    if p in pts[..m] {
      var u :| 0 <= u < m && pts[..m][u] == p;
      if u != i && u != j {
        assert u < n && pts[..n][u] == p;
      }
    }
  }

  /** Taking the winning pair (i, j) back restores the board exactly for the very first pair. */
  lemma OnlyFirstPairRestores(g: Grid, pts: seq<Point>, side: Side, i: nat, j: nat)
    requires i < j < |pts| && StrictlySorted(pts) && forall q <- pts :: OnBoard(q) && Free(g, q)
    ensures Put(Put(StonesOn(g, pts, side, Tried(|pts|, i, j)), pts[i], EMPTY), pts[j], EMPTY) == g
            <==> i == 0 && j == 1
  {
    var n := Tried(|pts|, i, j);
    var h := Put(Put(StonesOn(g, pts, side, n), pts[i], EMPTY), pts[j], EMPTY);
    assert pts[i] in pts && pts[j] in pts;
    if i == 0 && j == 1 {
      assert g[Index(pts[i]) := EMPTY] == g && g[Index(pts[j]) := EMPTY] == g;
    } else {
      var u := if i == 0 then 1 else 0;
      assert pts[u] in pts && pts[u] != pts[i] && pts[u] != pts[j];
      assert pts[..n][u] == pts[u];
      StonesOnAt(g, pts, side, n, pts[u]);
      PutAt(StonesOn(g, pts, side, n), pts[i], EMPTY, pts[u]);
      PutAt(Put(StonesOn(g, pts, side, n), pts[i], EMPTY), pts[j], EMPTY, pts[u]);
    }
  }

  /** With all points tried and no win, some stone is left unless there was no pair to try. */
  lemma TrialsRemain(g: Grid, pts: seq<Point>, side: Side)
    requires |pts| >= 2 && forall q <- pts :: OnBoard(q) && Free(g, q)
    ensures StonesOn(g, pts, side, |pts|) != g
  {
    StonesOnAt(g, pts, side, |pts|, pts[0]);
    assert pts[..|pts|][0] == pts[0];
  }
}
