/** Whole games as values: the position after any run of steps played to stay, and the trees
    that are searched from it. */
module Game {
  import opened Geometry
  import opened Shape
  import opened LineCache
  import opened Trials
  import opened Zobrist
  import opened GameTree
  import opened Defence

  /** A step as it is played: the second stone may be missing (X == -1) or equal to the first. */
  datatype Play = Play(First: Point, Second: Point, side: Side)

  /** What the engine keeps of a position. */
  datatype Position = Position(board: Grid, lines: Cache, key: Word)

  function Start(): Position {
    Position(EmptyGrid(), seq(SLOTS, _ => ZERO_LINE), ZERO)
  }

  /** The stones are put down, the lines through them are scanned again, the hash is toggled. */
  function Played(t: Table, keys: Keys, pos: Position, m: Play): Position {
    var g := Put(Put(pos.board, m.First, m.side), m.Second, m.side);
    Position(g, CopyMarked(pos.lines, ScanAll(t, g, 0), [m.First, m.Second], Modes(0, 0)),
             Toggle(keys, pos.key, m.side, m.First, m.Second))
  }

  /** The position after the first `n` steps of a game. */
  function PlayedGame(t: Table, keys: Keys, game: seq<Play>, n: nat): Position
    requires n <= |game|
  {
    if n == 0 then Start() else Played(t, keys, PlayedGame(t, keys, game, n - 1), game[n - 1])
  }

  /** Whatever cells the steps of a game name, the incremental cache is always the full scan. */
  lemma {:induction false} GameIsCoherent(t: Table, keys: Keys, game: seq<Play>, n: nat)
    requires QuietWhenEmpty(t) && n <= |game|
    ensures PlayedGame(t, keys, game, n).lines == ScanAll(t, PlayedGame(t, keys, game, n).board, 0)
  {
    hide QuietWhenEmpty, ScanAll, CopyMarked, Put;
    if n == 0 {
      EmptyBoardIsZero(t);
    } else {
      GameIsCoherent(t, keys, game, n - 1);
      var m := game[n - 1];
      RefreshIsCoherent(t, PlayedGame(t, keys, game, n - 1).board, m.First, m.side, m.Second, m.side);
    }
  }

  /** A step onto free cells, with two different stones or with one. */
  predicate Distinct(g: Grid, m: Play) {
    Free(g, m.First) && (m.Second.X == -1 || (Free(g, m.Second) && m.First != m.Second))
  }

  /** A step whose two stones are one and the same free cell. */
  predicate Doubled(g: Grid, m: Play) {
    Free(g, m.First) && m.First == m.Second
  }

  predicate OntoFreeCells(t: Table, keys: Keys, game: seq<Play>, n: nat)
    requires n <= |game|
  {
    forall i :: 0 <= i < n ==>
      var g := PlayedGame(t, keys, game, i).board; Distinct(g, game[i]) || Doubled(g, game[i])
  }

  /** The keys of the stones that were played as doubled steps. */
  function DoubledKeys(t: Table, keys: Keys, game: seq<Play>, n: nat): Word
    requires n <= |game|
  {
    if n == 0 then ZERO
    else if Doubled(PlayedGame(t, keys, game, n - 1).board, game[n - 1])
    then Xor(DoubledKeys(t, keys, game, n - 1), KeyOf(keys, game[n - 1].side, game[n - 1].First))
    else DoubledKeys(t, keys, game, n - 1)
  }

  /** In a game on free cells the hash is off by exactly the keys of the doubled steps. */
  lemma {:induction false} GameHash(t: Table, keys: Keys, game: seq<Play>, n: nat)
    requires n <= |game| && OntoFreeCells(t, keys, game, n)
    ensures HashError(keys, PlayedGame(t, keys, game, n).board, PlayedGame(t, keys, game, n).key)
            == DoubledKeys(t, keys, game, n)
  {
    hide ScanAll, CopyMarked, Put, HashError, Free, Toggle;
    if n == 0 {
      StartHash(keys);
    } else {
      GameHash(t, keys, game, n - 1);
      var pos, m := PlayedGame(t, keys, game, n - 1), game[n - 1];
      if Doubled(pos.board, m) {
        DoubledStepHash(keys, pos.board, pos.key, m.side, m.First);
      } else {
        StepKeepsHash(keys, pos.board, pos.key, m.side, m.First, m.Second);
      }
    }
  }

  lemma StartHash(keys: Keys)
    ensures HashError(keys, EmptyGrid(), ZERO) == ZERO
  {
    EmptyHash(keys, EmptyGrid(), BOARD_CELLS);
  }

  // ----- legal trees -----

  /** The two generators only propose steps onto free cells. */
  ghost predicate LegalGenerators(o: Oracle) {
    && (forall g, s, own, rival, c1, c2, m :: m in o.single(g, s, own, rival, c1, c2) ==> LegalStep(g, m))
    && (forall g, s, own, rival, c1, m :: m in o.none(g, s, own, rival, c1) ==> LegalStep(g, m))
  }

  ghost predicate NothingRemembered(r: Rules) {
    r.history == [[], [], []]
  }

  /** Without remembered lists every listed step is legal, the answers to threats included. */
  lemma ListedStepsAreLegal(r: Rules, g: Grid, key: Word, d: nat, mine: bool, con1: bool, con2: bool, m: Step)
    requires LawfulSorts(r.oracle) && LegalGenerators(r.oracle) && NothingRemembered(r)
    requires m in MoveList(r, g, key, d, mine, con1, con2)
    ensures LegalStep(g, m)
  {
    hide CoherentInfo, DefendSteps, LawfulSorts, LegalStep;
    DefencesAreLegal(r, g, Next(Mover(r, mine)), m);
  }

  /** Then the whole tree below any position is legal, at any depth. */
  lemma {:induction false} TreesAreLegal(r: Rules, g: Grid, key: Word, d: nat, mine: bool)
    requires LawfulSorts(r.oracle) && LegalGenerators(r.oracle) && NothingRemembered(r)
    requires d <= Limit(r)
    ensures TreeLegal(r, g, key, d, mine)
    decreases Limit(r) - d
  {
    hide Judge, MoveList, LegalStep, LawfulSorts, LegalGenerators, After, KeyAfter;
    var v := Judge(r, g, d, mine);
    if v.Expand? {
      forall m | m in MoveList(r, g, key, d, mine, v.con1, v.con2)
        ensures LegalStep(g, m)
        ensures TreeLegal(r, After(g, m, Mover(r, mine)), KeyAfter(r, key, m, Mover(r, mine)), d + 1, !mine)
      {
        ListedStepsAreLegal(r, g, key, d, mine, v.con1, v.con2, m);
        TreesAreLegal(r, After(g, m, Mover(r, mine)), KeyAfter(r, key, m, Mover(r, mine)), d + 1, !mine);
      }
    }
  }

  /** And so are the steps of the root. */
  lemma RootIsLegal(r: Rules, g: Grid, key: Word)
    requires LawfulSorts(r.oracle) && LegalGenerators(r.oracle) && NothingRemembered(r) && 0 < Limit(r)
    ensures AllLegal(r, g, key, 0, true, MoveList(r, g, key, 0, true, false, false))
  {
    hide MoveList, LegalStep, LawfulSorts, LegalGenerators, After, KeyAfter, TreeLegal;
    var moves := MoveList(r, g, key, 0, true, false, false);
    forall m | m in moves
      ensures LegalStep(g, m)
      ensures TreeLegal(r, After(g, m, Mover(r, true)), KeyAfter(r, key, m, Mover(r, true)), 1, false)
    {
      ListedStepsAreLegal(r, g, key, 0, true, false, false, m);
      TreesAreLegal(r, After(g, m, Mover(r, true)), KeyAfter(r, key, m, Mover(r, true)), 1, false);
    }
  }
}
