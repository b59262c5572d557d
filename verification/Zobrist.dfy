/** The incremental hash of the position. The keys of the cells are arbitrary 64-bit words. */
module Zobrist {
  import opened Geometry

  /** A 64-bit word as the set of its one bits. */
  type Word = w: set<int> | forall i <- w :: 0 <= i < 64

  const ZERO: Word := {}

  function Xor(a: Word, b: Word): Word {
    (a - b) + (b - a)
  }

  type Keys = k: seq<Word> | |k| == 2 * BOARD_CELLS witness seq(2 * BOARD_CELLS, _ => ZERO)

  function KeyOf(keys: Keys, side: Side, p: Point): Word {
    if OnBoard(p) then keys[BOARD_CELLS * side + Index(p)] else ZERO
  }

  /** The hash with the stones of a step switched on or off; Second.X == -1 is a one-stone step. */
  function Toggle(keys: Keys, key: Word, side: Side, first: Point, second: Point): Word {
    var once := Xor(key, KeyOf(keys, side, first));
    if second.X == -1 then once else Xor(once, KeyOf(keys, side, second))
  }

  /** The keys of all stones among the first `n` cells. */
  function StoneKeys(keys: Keys, g: Grid, n: nat): Word
    requires n <= BOARD_CELLS
  {
    if n == 0 then ZERO
    else if g[n - 1] == EMPTY then StoneKeys(keys, g, n - 1)
    else Xor(StoneKeys(keys, g, n - 1), keys[BOARD_CELLS * g[n - 1] + n - 1])
  }

  /** What the hash is off by: zero when it is exactly the keys of the stones on the board. */
  function HashError(keys: Keys, g: Grid, key: Word): Word {
    Xor(key, StoneKeys(keys, g, BOARD_CELLS))
  }

  lemma XorSwap(a: Word, b: Word, c: Word)
    ensures Xor(Xor(a, c), b) == Xor(Xor(a, b), c)
  {
  }

  lemma XorCancels(a: Word, b: Word, c: Word)
    ensures Xor(Xor(a, c), Xor(b, c)) == Xor(a, b)
  {
  }

  lemma XorAssociates(a: Word, b: Word, c: Word)
    ensures Xor(a, Xor(b, c)) == Xor(Xor(a, b), c)
  {
  }

  lemma XorTwice(a: Word, b: Word)
    ensures Xor(Xor(a, b), b) == a
  {
  }

  lemma {:induction false} StoneKeysSame(keys: Keys, g: Grid, h: Grid, n: nat)
    requires n <= BOARD_CELLS && forall i :: 0 <= i < n ==> g[i] == h[i]
    ensures StoneKeys(keys, g, n) == StoneKeys(keys, h, n)
  {
    if n > 0 {
      StoneKeysSame(keys, g, h, n - 1);
    }
  }

  lemma {:induction false} StoneKeysPut(keys: Keys, g: Grid, at: nat, side: Side, n: nat)
    requires at < n <= BOARD_CELLS && g[at] == EMPTY
    ensures StoneKeys(keys, g[at := side], n) == Xor(StoneKeys(keys, g, n), keys[BOARD_CELLS * side + at])
  {
    var h: Grid := g[at := side];
    var z := keys[BOARD_CELLS * side + at];
    if n == at + 1 {
      StoneKeysSame(keys, g, h, at);
    } else {
      StoneKeysPut(keys, g, at, side, n - 1);
      assert g[n - 1] == h[n - 1];
      if g[n - 1] != EMPTY {
        XorSwap(StoneKeys(keys, g, n - 1), keys[BOARD_CELLS * g[n - 1] + n - 1], z);
      }
    }
  }

  /** One stone put on a free cell and toggled in the hash. */
  lemma StoneKeepsHash(keys: Keys, g: Grid, key: Word, side: Side, p: Point)
    requires Free(g, p)
    ensures HashError(keys, Put(g, p, side), Xor(key, KeyOf(keys, side, p))) == HashError(keys, g, key)
  {
    StoneKeysPut(keys, g, Index(p), side, BOARD_CELLS);
    XorCancels(key, StoneKeys(keys, g, BOARD_CELLS), KeyOf(keys, side, p));
  }

  /** Putting the stones of a step on two distinct free cells keeps the hash in step with the board. */
  lemma StepKeepsHash(keys: Keys, g: Grid, key: Word, side: Side, first: Point, second: Point)
    requires Free(g, first) && (second.X == -1 || (Free(g, second) && first != second))
    ensures HashError(keys, Put(Put(g, first, side), second, side), Toggle(keys, key, side, first, second))
         == HashError(keys, g, key)
  {
    StoneKeepsHash(keys, g, key, side, first);
    if second.X != -1 {
      PutAt(g, first, side, second);
      StoneKeepsHash(keys, Put(g, first, side), Xor(key, KeyOf(keys, side, first)), side, second);
    }
  }

  /** A step whose two stones coincide leaves the hash off by the key of that stone. */
  lemma DoubledStepHash(keys: Keys, g: Grid, key: Word, side: Side, p: Point)
    requires Free(g, p)
    ensures HashError(keys, Put(Put(g, p, side), p, side), Toggle(keys, key, side, p, p))
         == Xor(HashError(keys, g, key), KeyOf(keys, side, p))
  {
    assert Put(Put(g, p, side), p, side) == Put(g, p, side);
    StoneKeysPut(keys, g, Index(p), side, BOARD_CELLS);
    XorTwice(key, KeyOf(keys, side, p));
    XorAssociates(key, StoneKeys(keys, g, BOARD_CELLS), KeyOf(keys, side, p));
  }

  /** Toggling the same step twice restores the hash. */
  lemma ToggleUndo(keys: Keys, key: Word, side: Side, first: Point, second: Point)
    ensures Toggle(keys, Toggle(keys, key, side, first, second), side, first, second) == key
  {
    var a := KeyOf(keys, side, first);
    if second.X == -1 {
      XorTwice(key, a);
    } else {
      ToggleTwice(key, a, KeyOf(keys, side, second));
    }
  }

  lemma ToggleTwice(key: Word, a: Word, b: Word)
    ensures Xor(Xor(Xor(Xor(key, a), b), a), b) == key
  {
  }

  lemma {:induction false} EmptyHash(keys: Keys, g: Grid, n: nat)
    requires n <= BOARD_CELLS && forall i :: 0 <= i < BOARD_CELLS ==> g[i] == EMPTY
    ensures StoneKeys(keys, g, n) == ZERO
  {
    if n > 0 {
      EmptyHash(keys, g, n - 1);
    }
  }
}
