/** The choice at the root: from the scores of a narrowing search to the best step. */
module RootChoice {
  import opened Geometry
  import opened Shape
  import opened Zobrist
  import opened GameTree
  import opened Defence

  /** The list after scoring: the same steps, each with its searched value. */
  ghost predicate Scored(moves: seq<Step>, list: seq<Step>) {
    |list| == |moves| && forall i :: 0 <= i < |list| ==> list[i] == moves[i].(LValue := list[i].LValue)
  }

  /** After a search without win cut-off, with `alpha` the greatest score so far: no score is below
      the true outcome, and a score that reaches `alpha` is the true outcome. */
  ghost predicate Bounded(w: int, outcomes: seq<int>, list: seq<Step>, n: nat, alpha: int) {
    && n <= |list| == |outcomes|
    && (forall i :: 0 <= i < n ==> outcomes[i] <= list[i].LValue <= alpha)
    && (forall i :: 0 <= i < n && list[i].LValue == alpha && alpha > -w ==> outcomes[i] == list[i].LValue)
    && (alpha == -THREAT || exists i :: 0 <= i < n && list[i].LValue == alpha)
  }

  /** A win cut-off: one scored step is a win by its true outcome, and no other step scores as high. */
  ghost predicate WonAt(w: int, outcomes: seq<int>, list: seq<Step>, i: nat) {
    && i < |list| == |outcomes|
    && outcomes[i] >= list[i].LValue >= w
    && forall j :: 0 <= j < |list| && j != i ==> list[j].LValue < w
  }

  /** One more scored step. */
  lemma BoundedNext(w: int, outcomes: seq<int>, list: seq<Step>, i: nat, alpha: int, v: int)
    requires Bounded(w, outcomes, list, i, alpha) && i < |list| && alpha < w <= THREAT + 1 && v < w
    requires Approximates(w, alpha, THREAT, outcomes[i], v)
    ensures Bounded(w, outcomes, list[i := list[i].(LValue := v)], i + 1, if v > alpha then v else alpha)
  {
  }

  lemma BoundedStart(w: int, outcomes: seq<int>, list: seq<Step>)
    requires |list| == |outcomes|
    ensures Bounded(w, outcomes, list, 0, -THREAT)
  {
  }

  lemma BoundedScores(w: int, outcomes: seq<int>, list: seq<Step>, n: nat, alpha: int)
    requires Bounded(w, outcomes, list, n, alpha)
    ensures n <= |list| == |outcomes| && forall i :: 0 <= i < n ==> list[i].LValue <= alpha
  {
  }

  lemma IsWonAt(w: int, outcomes: seq<int>, list: seq<Step>, i: nat, alpha: int)
    requires i < |list| == |outcomes| && alpha < w <= THREAT + 1 && list[i].LValue >= w
    requires Approximates(w, alpha, THREAT, outcomes[i], list[i].LValue)
    requires forall j :: 0 <= j < |list| && j != i ==> list[j].LValue < w
    ensures WonAt(w, outcomes, list, i)
  {
  }

  /** `s` has the greatest score of the list, and the greatest static value among those. */
  ghost predicate Chosen(list: seq<Step>, s: Step) {
    && s in list
    && (forall m <- list :: m.LValue <= s.LValue)
    && (forall m <- list :: m.LValue == s.LValue ==> m.SValue <= s.SValue)
  }

  /** The scored step `i` is the best of all by true outcome, ties going to the static value. */
  ghost predicate TrulyBest(moves: seq<Step>, outcomes: seq<int>, i: nat) {
    && i < |moves| == |outcomes|
    && (forall j :: 0 <= j < |moves| ==> outcomes[j] <= outcomes[i])
    && (forall j :: 0 <= j < |moves| && outcomes[j] == outcomes[i] ==> moves[j].SValue <= moves[i].SValue)
  }

  /** Sorting by score and then the leading ties by static value puts a chosen step first. */
  lemma FirstIsChosen(o: Oracle, list: seq<Step>, n: nat)
    requires LawfulSorts(o) && list != []
    requires var s := o.byLValueDown(list);
             |s| == |list| && 0 < n <= |s| && (forall i :: 0 <= i < n ==> s[i].LValue == s[0].LValue)
             && (n == |s| || s[n].LValue != s[0].LValue)
    ensures var s := o.byLValueDown(list);
            |o.bySValueDown(s[..n])| == n && Chosen(list, o.bySValueDown(s[..n])[0])
  {
    var s := o.byLValueDown(list);
    var tied := o.bySValueDown(s[..n]);
    PermutedMembers(o.byLValueDown, list);
    PermutedMembers(o.bySValueDown, s[..n]);
    var first := tied[0];
    assert first in tied;
    assert first in s[..n];
    assert first.LValue == s[0].LValue && first in s;
    forall m <- list
      ensures m.LValue <= first.LValue && (m.LValue == first.LValue ==> m.SValue <= first.SValue)
    {
      assert m in s;
      var i :| 0 <= i < |s| && s[i] == m;
      ScoresDescend(o, list, i);
      if m.LValue == first.LValue {
        if n <= i {
          ScoresDescend(o, list, n);
          ScoresOrdered(o, list, n, i);
        }
        assert i < n;
        assert m in s[..n] by {
          assert s[..n][i] == m;
        }
        assert m in tied;
        var j :| 0 <= j < |tied| && tied[j] == m;
        ValuesDescend(o, s[..n], j);
      }
    }
  }

  lemma ScoresDescend(o: Oracle, list: seq<Step>, i: nat)
    requires LawfulSorts(o) && i < |o.byLValueDown(list)|
    ensures o.byLValueDown(list)[i].LValue <= o.byLValueDown(list)[0].LValue
  {
    if i > 0 {
      ScoresOrdered(o, list, 0, i);
    }
  }

  lemma ScoresOrdered(o: Oracle, list: seq<Step>, i: nat, j: nat)
    requires LawfulSorts(o) && i <= j < |o.byLValueDown(list)|
    ensures o.byLValueDown(list)[i].LValue >= o.byLValueDown(list)[j].LValue
  {
    var key := (s: Step) => s.LValue;
    assert Descends(o.byLValueDown, key);
    if i < j {
      assert key(o.byLValueDown(list)[i]) >= key(o.byLValueDown(list)[j]);
    }
  }

  lemma ValuesDescend(o: Oracle, list: seq<Step>, i: nat)
    requires LawfulSorts(o) && i < |o.bySValueDown(list)|
    ensures o.bySValueDown(list)[i].SValue <= o.bySValueDown(list)[0].SValue
  {
    var key := (s: Step) => s.SValue;
    assert Descends(o.bySValueDown, key);
    if i > 0 {
      assert key(o.bySValueDown(list)[0]) >= key(o.bySValueDown(list)[i]);
    }
  }

  /** Without a certain loss, the steps that score best are exactly those whose true outcome is
      best, and the chosen one is best among them by static value. */
  lemma ChosenIsTrulyBest(w: int, moves: seq<Step>, outcomes: seq<int>, list: seq<Step>, alpha: int, s: Step)
    requires Scored(moves, list) && Bounded(w, outcomes, list, |list|, alpha) && Chosen(list, s)
    requires s.LValue > -w && w <= THREAT + 1
    ensures exists i :: 0 <= i < |moves| && s == list[i] && TrulyBest(moves, outcomes, i) && outcomes[i] == s.LValue
    ensures forall j :: 0 <= j < |moves| ==>
              (list[j].LValue == s.LValue <==> forall k :: 0 <= k < |moves| ==> outcomes[k] <= outcomes[j])
  {
    var i :| 0 <= i < |list| && list[i] == s;
    assert alpha == s.LValue by {
      assert list[i].LValue <= alpha;
      if alpha != -THREAT {
        var a :| 0 <= a < |list| && list[a].LValue == alpha;
        assert list[a] in list;
      }
    }
    forall j | 0 <= j < |list|
      ensures outcomes[j] <= alpha && (list[j].LValue == alpha <==> outcomes[j] == alpha)
    {
      assert list[j] in list;
    }
    assert outcomes[i] == alpha;
    forall j | 0 <= j < |moves| && outcomes[j] == outcomes[i]
      ensures moves[j].SValue <= moves[i].SValue
    {
      assert list[j] in list;
    }
  }

  /** When even the best score is a certain loss, every step truly loses at least as badly. */
  lemma AllStepsLose(w: int, moves: seq<Step>, outcomes: seq<int>, list: seq<Step>, alpha: int, s: Step)
    requires Scored(moves, list) && Bounded(w, outcomes, list, |list|, alpha) && Chosen(list, s)
    requires s.LValue <= -w
    ensures forall j :: 0 <= j < |moves| ==> outcomes[j] <= -w
  {
    forall j | 0 <= j < |moves|
      ensures outcomes[j] <= -w
    {
      assert list[j] in list;
    }
  }

  /** After a win cut-off the chosen step is the winning one. */
  lemma ChosenWins(w: int, moves: seq<Step>, outcomes: seq<int>, list: seq<Step>, i: nat, s: Step)
    requires Scored(moves, list) && WonAt(w, outcomes, list, i) && Chosen(list, s)
    ensures s == list[i] && outcomes[i] >= w
  {
    assert list[i] in list;
    var j :| 0 <= j < |list| && list[j] == s;
  }

  /** Step `at` of the list was picked for its score: by a win cut-off it truly wins; else it is truly
      best, unless its score is a certain loss, and then every step truly loses. */
  ghost predicate PickedWell(w: int, moves: seq<Step>, outcomes: seq<int>, at: nat, value: int, won: bool) {
    && at < |moves| == |outcomes|
    && (won ==> outcomes[at] >= w)
    && (!won && value > -w ==> TrulyBest(moves, outcomes, at) && outcomes[at] == value)
    && (!won && value <= -w ==> forall j :: 0 <= j < |moves| ==> outcomes[j] <= -w)
  }

  /** `step` is step `at` of the root list, with the score `value` it was chosen for. */
  ghost predicate GoodReplyBy(r: Rules, g: Grid, key: Word, won: bool, step: Step, moves: seq<Step>, outcomes: seq<int>,
                              at: nat, value: int)
    requires 0 < Limit(r)
  {
    && moves == MoveList(r, g, key, 0, true, false, false)
    && AreOutcomes(r, g, key, 0, true, moves, outcomes)
    && PickedWell(WinBound(r), moves, outcomes, at, value, won)
    && step == moves[at].(LValue := if value <= -THREAT then -WINLOSE else value)
  }

  /** A reply with the best true outcome of all root steps, ties going to the static value; after a
      win cut-off a reply that truly wins; and any reply when all root steps truly lose. */
  ghost predicate GoodReply(r: Rules, g: Grid, key: Word, won: bool, step: Step)
    requires 0 < Limit(r)
  {
    exists moves, outcomes, at, value :: GoodReplyBy(r, g, key, won, step, moves, outcomes, at, value)
  }

  lemma IsGoodReply(r: Rules, g: Grid, key: Word, won: bool, step: Step, moves: seq<Step>, outcomes: seq<int>,
                    at: nat, value: int)
    requires 0 < Limit(r) && moves == MoveList(r, g, key, 0, true, false, false)
    requires AreOutcomes(r, g, key, 0, true, moves, outcomes)
    requires PickedWell(WinBound(r), moves, outcomes, at, value, won)
    requires step == moves[at].(LValue := if value <= -THREAT then -WINLOSE else value)
    ensures GoodReply(r, g, key, won, step)
  {
    assert GoodReplyBy(r, g, key, won, step, moves, outcomes, at, value);
  }

  lemma LegalMember(r: Rules, g: Grid, key: Word, moves: seq<Step>, i: nat)
    requires 0 < Limit(r) && AllLegal(r, g, key, 0, true, moves) && i < |moves|
    ensures LegalStep(g, moves[i])
  {
    assert moves[i] in moves;
  }

  // ----- small facts for the choice -----

  lemma LengthScored(moves: seq<Step>, list: seq<Step>)
    requires Scored(moves, list)
    ensures |list| == |moves|
  {
  }

  lemma ScoredAt(moves: seq<Step>, list: seq<Step>, i: nat)
    requires Scored(moves, list) && i < |list|
    ensures |list| == |moves| && list[i] == moves[i].(LValue := list[i].LValue)
  {
  }

  lemma WonBounds(w: int, outcomes: seq<int>, list: seq<Step>, i: nat)
    requires WonAt(w, outcomes, list, i)
    ensures i < |list| == |outcomes| && outcomes[i] >= w
  {
  }

  lemma LengthOfOutcomes(r: Rules, g: Grid, key: Word, moves: seq<Step>, outcomes: seq<int>)
    requires 0 < Limit(r) && AreOutcomes(r, g, key, 0, true, moves, outcomes)
    ensures |outcomes| == |moves|
  {
  }

  lemma SortedLength(o: Oracle, list: seq<Step>)
    requires LawfulSorts(o)
    ensures |o.byLValueDown(list)| == |list|
  {
    PermutedMembers(o.byLValueDown, list);
  }

  /** Where the chosen step stands in the list, with what is known about it. */
  lemma PlaceOf(w: int, moves: seq<Step>, outcomes: seq<int>, list: seq<Step>, alpha: int, s: Step) returns (at: nat)
    requires Scored(moves, list) && Bounded(w, outcomes, list, |list|, alpha) && Chosen(list, s) && w <= THREAT + 1
    ensures at < |moves| == |outcomes| && s == moves[at].(LValue := s.LValue)
    ensures s.LValue > -w ==> TrulyBest(moves, outcomes, at) && outcomes[at] == s.LValue
    ensures s.LValue <= -w ==> forall j :: 0 <= j < |moves| ==> outcomes[j] <= -w
  {
    if s.LValue > -w {
      ChosenIsTrulyBest(w, moves, outcomes, list, alpha, s);
      at :| 0 <= at < |moves| && s == list[at] && TrulyBest(moves, outcomes, at) && outcomes[at] == s.LValue;
    } else {
      AllStepsLose(w, moves, outcomes, list, alpha, s);
      at :| 0 <= at < |list| && list[at] == s;
    }
  }
}
