/** Six in a row. */
module Victory {
  import opened Geometry

  ghost predicate SixAt(g: Grid, p: Point, k: Angle, side: Side)
    requires OnBoard(p) && OnBoard(Along(p, k, 5))
  {
    forall i :: 0 <= i <= 5 ==> OnBoard(Along(p, k, i)) && At(g, Along(p, k, i)) == side
  }

  /** Six stones of one side in a row, from any cell in any of the four directions. */
  ghost predicate SixInARow(g: Grid, side: Side) {
    exists p: Point, k: Angle :: OnBoard(p) && OnBoard(Along(p, k, 5)) && SixAt(g, p, k, side)
  }

  /** The same in one direction, from the cells x < xs, y0 <= y < ys. */
  ghost predicate SixIn(g: Grid, k: Angle, xs: nat, y0: nat, ys: nat, side: Side)
    requires xs <= 19 && y0 <= ys <= 19
  {
    exists x, y :: 0 <= x < xs && y0 <= y < ys && OnBoard(Along(Point(x, y), k, 5)) && SixAt(g, Point(x, y), k, side)
  }

  lemma SixUnrolled(g: Grid, p: Point, k: Angle, side: Side)
    requires OnBoard(p) && OnBoard(Along(p, k, 5))
    ensures OnBoard(Along(p, k, 1)) && OnBoard(Along(p, k, 2)) && OnBoard(Along(p, k, 3)) && OnBoard(Along(p, k, 4))
    ensures SixAt(g, p, k, side) <==>
              At(g, p) == side && At(g, Along(p, k, 1)) == side && At(g, Along(p, k, 2)) == side
              && At(g, Along(p, k, 3)) == side && At(g, Along(p, k, 4)) == side && At(g, Along(p, k, 5)) == side
  {
    hide At;
    assert Along(p, k, 0) == p;
    forall i | 0 <= i <= 5
      ensures OnBoard(Along(p, k, i))
    {
    }
  }

  /** The starting cells that leave room for six cells, direction by direction. */
  lemma Starts()
    ensures forall p: Point, k: Angle :: OnBoard(p) && OnBoard(Along(p, k, 5)) <==>
              match k
              case 0 => 0 <= p.X < 14 && 0 <= p.Y < 19
              case 1 => 0 <= p.X < 14 && 5 <= p.Y < 19
              case 2 => 0 <= p.X < 19 && 0 <= p.Y < 14
              case _ => 0 <= p.X < 14 && 0 <= p.Y < 14
  {
  }

  lemma FoundInItsDirection(g: Grid, p: Point, k: Angle, side: Side)
    requires OnBoard(p) && OnBoard(Along(p, k, 5)) && SixAt(g, p, k, side)
    ensures match k
            case 0 => SixIn(g, 0, 14, 0, 19, side)
            case 1 => SixIn(g, 1, 14, 5, 19, side)
            case 2 => SixIn(g, 2, 19, 0, 14, side)
            case _ => SixIn(g, 3, 14, 0, 14, side)
  {
    hide SixAt;
    assert p == Point(p.X, p.Y);
  }

  lemma FoundAnywhere(g: Grid, k: Angle, xs: nat, y0: nat, ys: nat, side: Side)
    requires xs <= 19 && y0 <= ys <= 19 && SixIn(g, k, xs, y0, ys, side)
    ensures SixInARow(g, side)
  {
    hide SixAt, Along;
  }

  /** The four double loops together look at every possible six. */
  lemma ByDirection(g: Grid, side: Side)
    ensures SixInARow(g, side) <==>
              SixIn(g, 2, 19, 0, 14, side) || SixIn(g, 0, 14, 0, 19, side)
              || SixIn(g, 1, 14, 5, 19, side) || SixIn(g, 3, 14, 0, 14, side)
  {
    hide SixAt, SixIn, Along;
    if p: Point, k: Angle :| OnBoard(p) && OnBoard(Along(p, k, 5)) && SixAt(g, p, k, side) {
      FoundInItsDirection(g, p, k, side);
    }
    if SixIn(g, 2, 19, 0, 14, side) {
      FoundAnywhere(g, 2, 19, 0, 14, side);
    } else if SixIn(g, 0, 14, 0, 19, side) {
      FoundAnywhere(g, 0, 14, 0, 19, side);
    } else if SixIn(g, 1, 14, 5, 19, side) {
      FoundAnywhere(g, 1, 14, 5, 19, side);
    } else if SixIn(g, 3, 14, 0, 14, side) {
      FoundAnywhere(g, 3, 14, 0, 14, side);
    }
  }
}
