/** The eight images of a cell under which an opening book entry is stored. */
module Symmetry {
  import opened Geometry
  import opened Victory

  type ImageId = i: int | 0 <= i < 8

  /** Flips by the two low bits of the number, then exchanges the coordinates from 4 on. */
  function Image(i: ImageId, p: Point): Point {
    var x, y := if i % 2 == 1 then 18 - p.X else p.X, if i / 2 % 2 == 1 then 18 - p.Y else p.Y;
    if i >= 4 then Point(y, x) else Point(x, y)
  }

  method HashImage(i: int, x0: int, y0: int) returns (x: int, y: int)
    ensures 0 <= i < 8 ==> Point(x, y) == Image(i, Point(x0, y0))
    ensures !(0 < i < 8) ==> x == x0 && y == y0
  {
    x, y := x0, y0;
    if i == 1 {
      x := 18 - x;
    }
    if i == 2 {
      y := 18 - y;
    }
    if i == 3 {
      x := 18 - x;
      y := 18 - y;
    }
    if i == 4 {
      x, y := y, x;
    }
    if i == 5 {
      x, y := y, 18 - x;
    }
    if i == 6 {
      x, y := 18 - y, x;
    }
    if i == 7 {
      x, y := 18 - y, 18 - x;
    }
  }

  /** Only the two quarter turns are not their own inverse. */
  function Inverse(i: ImageId): ImageId {
    if i == 5 then 6 else if i == 6 then 5 else i
  }

  function ExchangeBits(i: int): int {
    if i == 1 then 2 else if i == 2 then 1 else i
  }

  /** The image that does what image `j` and then image `i` do. */
  function Composed(i: ImageId, j: ImageId): ImageId {
    var a, b := j % 4, if j >= 4 then ExchangeBits(i % 4) else i % 4;
    var flips := if a == b then 0 else if a == 0 then b else if b == 0 then a else 6 - a - b;
    flips + if (i >= 4) == (j >= 4) then 0 else 4
  }

  /** The images are the group of the symmetries of the board: distinct, and closed under
      composition and inverse. */
  lemma ImagesAreAGroup(i: ImageId, j: ImageId, p: Point)
    ensures OnBoard(Image(i, p)) <==> OnBoard(p)
    ensures Image(Inverse(i), Image(i, p)) == p && Image(i, Image(Inverse(i), p)) == p
    ensures Image(i, Image(j, p)) == Image(Composed(i, j), p)
    ensures Image(i, Point(0, 1)) == Image(j, Point(0, 1)) ==> i == j
  {
    hide *;
    ImageOnBoard(i, p);
    InverseUndoes(i, p);
    Composition(i, j, p);
    ImagesDiffer(i, j);
  }

  lemma ImageOnBoard(i: ImageId, p: Point)
    ensures OnBoard(Image(i, p)) <==> OnBoard(p)
  {
  }

  lemma ImagesDiffer(i: ImageId, j: ImageId)
    ensures Image(i, Point(0, 1)) == Image(j, Point(0, 1)) ==> i == j
  {
  }

  lemma InverseUndoes(i: ImageId, p: Point)
    ensures Image(Inverse(i), Image(i, p)) == p && Image(i, Image(Inverse(i), p)) == p
  {
  }

  lemma Composition(i: ImageId, j: ImageId, p: Point)
    ensures Image(i, Image(j, p)) == Image(Composed(i, j), p)
  {
    var a := i % 4;
    assert a == 0 || a == 1 || a == 2 || a == 3;
    assert j % 4 == 0 || j % 4 == 1 || j % 4 == 2 || j % 4 == 3;
  }

  /** The board with every stone moved to its image. */
  function Moved(i: ImageId, g: Grid): (h: Grid)
    ensures forall p :: OnBoard(p) ==> OnBoard(Image(i, p)) && At(h, Image(i, p)) == At(g, p)
  {
    var h := seq(BOARD_CELLS, c requires 0 <= c < BOARD_CELLS => At(g, Image(Inverse(i), Point(c / 19, c % 19))));
    MovedAt(i, g, h);
    h
  }

  lemma MovedAt(i: ImageId, g: Grid, h: Grid)
    requires forall c :: 0 <= c < BOARD_CELLS ==> OnBoard(Image(Inverse(i), Point(c / 19, c % 19)))
                                                  && h[c] == At(g, Image(Inverse(i), Point(c / 19, c % 19)))
    ensures forall p :: OnBoard(p) ==> OnBoard(Image(i, p)) && At(h, Image(i, p)) == At(g, p)
  {
    forall p | OnBoard(p)
      ensures OnBoard(Image(i, p)) && At(h, Image(i, p)) == At(g, p)
    {
      InverseUndoes(i, p);
      var q := Image(i, p);
      CellOf(q);
    }
  }

  lemma CellOf(q: Point)
    requires OnBoard(q)
    ensures Index(q) < BOARD_CELLS && Point(Index(q) / 19, Index(q) % 19) == q
  {
  }

  /** The direction of a line after moving it, and whether it is then run through backwards. */
  function MovedAngle(i: ImageId, k: Angle): Angle {
    if k == 0 || k == 2 then (if i >= 4 then 2 - k else k)
    else if i in {0, 3, 4, 7} then k else 4 - k
  }

  function Backwards(i: ImageId, k: Angle): bool {
    Image(i, Along(Point(0, 0), k, 1)) != Along(Image(i, Point(0, 0)), MovedAngle(i, k), 1)
  }

  lemma AlongMoved(i: ImageId, p: Point, k: Angle, n: int)
    ensures Image(i, Along(p, k, n))
         == Along(Image(i, p), MovedAngle(i, k), if Backwards(i, k) then -n else n)
  {
  }

  /** One end of a moved six, counted from where its direction starts. */
  function MovedStart(i: ImageId, p: Point, k: Angle): Point {
    if Backwards(i, k) then Image(i, Along(p, k, 5)) else Image(i, p)
  }

  lemma StoneMoved(i: ImageId, g: Grid, p: Point, k: Angle, n: nat)
    requires n <= 5 && OnBoard(Along(p, k, n)) && OnBoard(Along(p, k, 5 - n))
    ensures var q := Along(MovedStart(i, p, k), MovedAngle(i, k), n);
            OnBoard(q) && At(Moved(i, g), q) == At(g, Along(p, k, if Backwards(i, k) then 5 - n else n))
  {
    hide Image, Along, MovedAngle, Backwards, At, Moved;
    AlongMoved(i, p, k, 5);
    AlongMoved(i, p, k, n);
    AlongMoved(i, p, k, 5 - n);
    AlongTwice(Image(i, p), MovedAngle(i, k), -5, n);
    var r := Along(p, k, if Backwards(i, k) then 5 - n else n);
    assert Along(MovedStart(i, p, k), MovedAngle(i, k), n) == Image(i, r);
    MovedTo(i, g, r);
  }

  lemma MovedTo(i: ImageId, g: Grid, p: Point)
    requires OnBoard(p)
    ensures OnBoard(Image(i, p)) && At(Moved(i, g), Image(i, p)) == At(g, p)
  {
  }

  lemma SixMoved(i: ImageId, g: Grid, side: Side)
    requires SixInARow(g, side)
    ensures SixInARow(Moved(i, g), side)
  {
    hide Image, Along, MovedAngle, Backwards, At, Moved, MovedStart;
    var p: Point, k: Angle :| OnBoard(p) && OnBoard(Along(p, k, 5)) && SixAt(g, p, k, side);
    var h, start, k' := Moved(i, g), MovedStart(i, p, k), MovedAngle(i, k);
    forall n: nat | n <= 5
      ensures OnBoard(Along(start, k', n)) && At(h, Along(start, k', n)) == side
    {
      StoneMoved(i, g, p, k, n);
    }
    StartsHere(start, k');
    assert SixAt(h, start, k', side);
  }

  lemma StartsHere(p: Point, k: Angle)
    ensures Along(p, k, 0) == p
  {
  }

  lemma AlongTwice(p: Point, k: Angle, a: int, b: int)
    ensures Along(Along(p, k, a), k, b) == Along(p, k, a + b)
  {
  }

  /** An image of a board is won exactly when the board is. */
  lemma VictoryIsSymmetric(i: ImageId, g: Grid, side: Side)
    ensures SixInARow(Moved(i, g), side) <==> SixInARow(g, side)
  {
    if SixInARow(g, side) {
      SixMoved(i, g, side);
    }
    if SixInARow(Moved(i, g), side) {
      SixMoved(Inverse(i), Moved(i, g), side);
      MovedBack(i, g);
    }
  }

  lemma MovedBack(i: ImageId, g: Grid)
    ensures Moved(Inverse(i), Moved(i, g)) == g
  {
    hide Moved;
    var h := Moved(Inverse(i), Moved(i, g));
    forall c | 0 <= c < BOARD_CELLS
      ensures h[c] == g[c]
    {
      var p := Point(c / 19, c % 19);
      assert OnBoard(p) && Index(p) == c;
      InverseUndoes(i, p);
    }
  }
}
