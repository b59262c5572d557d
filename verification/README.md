# Connect-Six server: verified model

This project models the four parts of the server in which state is kept in step by hand, and proves
what they promise.

**The Connect-Six engine** (`src/consix/`). The class `Engine.CSearch` keeps a board, a Zobrist hash
and a cache of 2 x 92 analysed lines, and moves by make and unmake. Its parts:

- `Geometry`, `Shape`, `ShapeOffers`, `Valuation`, `LineScan`: lines, the shape table, the analysis of a shape and of
  a line;
- `LineCache`, `Threats`, `ThreatCounts`, `Potential`, `Defence`, `Trials`, `TrialMeanings`, `Discounts`, `StepValue`,
  `LeafValues`, `Zobrist`: the cache as a value, threat counting, potential points and answers to threats, trial stones
  and what they read, the fast step value, the value of a leaf, the hash;
- `Completion`, `Blocking`, `StepWrong`: what the test for a win, the blocking test and the line tests of the
  step value really decide on the board, and exactly where they are wrong;
- `WinSteps`, `WinSearch`: the search for an immediate win, and when and with which pair it succeeds;
- `ThreatBoards`, `EdgeMiss`, `SoleThreat`, `FalseWin`: positions in which these go wrong;
- `Judgement`, `Losses`, `OneDirection`, `Answers`, `Verdicts`: what the threat count means on the board: who can win
  with the next step, which answers hold, and when a node is given up;
- `GameTree`, `RootChoice`: the unpruned minimax value of a position, in which every node is judged by
  scanning its board from scratch, and what the choice at the root has to mean;
- `Engine`: the imperative engine, every method proved against these;
- `Game`: whole games as runs of steps; `Victory`, `Symmetry`, `ValueSymmetry`: six in a row, the symmetries
  of the opening book, and what is the same in all images of a board.

The main results: the pruned search on the one mutable position refines plain minimax and restores
every field of board, hash and cache; the step that is played has the best minimax value; a node is scored as won
exactly for a side that can make six in a row with its next step, and given up exactly when more than two threats leave
the other side such a step after every answer; against a count of two the answers searched are exactly those after
which it has none; the cache
equals a scan from scratch after any run of steps; the fast step value equals full re-evaluation
exactly for the pairs of points at which its line tests count right; the threat count is the least number
of threat points that block every completion on the board when no threat point is on the edge; and then the
search for an immediate win finds a pair exactly when there are two threat points, always the first point and
the one whose stone, put on top of those of all points before it, makes the first six.

**The frame layer** (`src/websocket/Communicate.c` and the loop in `Websocket.c`): modules `Frame`,
`Stream`, `Connection`, `WebSocket`. Reads arrive as an arbitrary sequence of pieces; a message is delivered exactly
when its header is complete when it is first looked at, no byte behind it is lost, and what happens to a frame
of any kind is read off by an independent parser.

**Hashes and base 64** (`md5.c`, `sha1.c`, `base64.c`): modules `Digest`, `Md5`, `Sha1`, `Base64`, with
`Bits` and `Bytes` below them. The streaming classes equal the one-shot definitions for every chunking.

**The client list** (`Datastructures.c`): module `ClientList`, heap nodes that refine a sequence.

Conventions. The arrays of the engine are flat: cell (x, y) is 19 x + y, the line `id` of side `s` is
92 s + id. A 64-bit hash word is the set of its one bits. Bytes, 32-bit and 64-bit words are ranges of
integers, and every wrap-around of the source is written out. Bitwise `or` of fields that do not
overlap is addition. A long method of the source is a method that calls parts with contracts of their own.

What is asked of the shape table, where it matters: `Completion.MarksSixes` (class 15 is six in a row),
`Judgement.FindsThreats` (the threat classes are exactly the other shapes with four or five own stones in six cells) and
`OneDirection.RatesThreats` (a shape counts for no more threats than the stones it takes to break all its windows).
`OneDirection.TableExists` gives a table with all of them: a shape is rated by the least number of stones that breaks it.
A position is called open below if the table has these properties, the side whose threats are counted has no six yet and
no threat point on the edge, and a side to move has no six (`Verdicts.Attacked`, `Verdicts.OpenNode`).

Where the code differs from what one expects, the code is followed:

- The flag `All` in the line copying starts as true, so mode `w` copies the lists from `w` on, not just one.
- `AnalyzeLineSegID` takes any edge cell for the start of a line, so a completion at a point on the edge can be
  missed (`Completion.SegmentIDExact` and `PlainSightExact` say exactly where). A threat count can then be too low,
  as in `EdgeMiss.ThreatNumTooLow`; for a table that marks sixes it is never too high
  (`Defence.EnsuredIsNotTooHigh`). The search for an immediate win uses the same test.
- The same-line test of the step value counts a line along an edge twice, and the skipping test loses a line near
  three corners. `StepValue.StepScoreError` gives the exact error of every score, `StepWrong.StepScoreExact` the exact
  pairs of points for which there is none, and `StepWrong.StepScoreIsWrong` a wrong score for every other pair.
- `ConstructWinStep` tries pairs of threat points only, so with a single threat point it finds nothing and the source
  then indexes the board with -1. `SoleThreat.WinNotFound` is such a position, a closed five with one gap, in which a
  stone on the gap wins. For a table that marks sixes and threats, and without threat points on the edge, that is the
  only way to fail (`WinSearch.FoundExactly`, `Engine.CSearch.WinIsFoundExactly`); with two of them on the edge it can
  fail as well (`EdgeMiss.WinNotFoundOnEdge`).
- `ConstructWinStep` leaves its trial stones on the board unless the first pair wins. So a pair can be found that
  only wins together with them: in `FalseWin.ReportedStepFails`, two closed fours, the two stones of the pair make
  no six. `WinSearch.FirstSixIsFound` says which pair it is for every list of points in plain sight, so whether it
  wins can be told before the search: by its two stones alone.
- After a win is found with nominal and large depth below two, the byte arithmetic of the depths wraps
  around; `ComputerMove` says exactly when.
- A message without payload whose frame was carried over whole is only delivered if something follows it,
  because a further read is asked for; a header cut by the first read ends the connection.

## Model

| member | source | states |
|---|---|---|
| Geometry.LineNumberingBijective | src/consix/search.cpp:1872-1880 | the map from (direction, offset) to the cached line id is a bijection onto 0..91 |
| Geometry.LineThroughCorrect | src/consix/search.cpp:1858-1925 | for a point and a direction with a cached line, the computed id is that of exactly the line of this direction through the point, at the computed position |
| Geometry.CrossIsOnLine | src/consix/search.cpp:1872-1925 | a line is refreshed for a point exactly when the point lies on it |
| Geometry.LineUntouched | src/consix/search.cpp:1834-1857 | a stone changes the cells of no line outside its cross |
| Geometry.StartPointIsLineStart | src/consix/search.cpp:87-112 | GetStartPoint finds the first cell of the cached line |
| Shape.ShapeIndexBijective | src/consix/search.h:30 | (1 << Len) + Style - 64 is a bijection between the segments of 6 to 19 cells and the TABLESIZE slots of PreTable |
| Shape.SegmentCodeInTable | src/consix/search.cpp:1927-2015 | the shape index of every segment is inside PreTable |
| Shape.ThreatGapsExact | src/consix/search.cpp:2017-2138 | the threat cells are exactly the empty cells of six-cell windows with four or five own stones |
| Shape.PicksExact | src/consix/search.cpp:2017-2138 | the offered single cells are exactly the empty cells on which a stone reaches one of the classes of their list; what these classes are for is stated by ShapeOffers |
| Shape.PairPicksExact | src/consix/search.cpp:2017-2138 | the offered pairs are exactly the pairs of empty cells that reach a wanted class together |
| Shape.PairPicksOrdered | src/consix/search.cpp:2017-2138 | each of these pairs once, in the order of the loops |
| Shape.ShapeOffersEmptyCells | src/consix/search.cpp:2017-2138 | whatever the table holds, every point and step cell emitted is an empty cell of the segment |
| ShapeOffers.PointsMean | src/consix/search.cpp:2081-2107 | in a shape without threats an empty cell is a strong potential point if and only if a stone there makes two threats, and each weak one makes one |
| ShapeOffers.PairsMean | src/consix/search.cpp:2107-2137 | two stones on a strong potential pair make two threats or more, on a weak pair one |
| Valuation.SegmentLength | src/consix/search.cpp:2017-2138 | the shift loop recovers the length of the segment from its index alone |
| Valuation.LookUpWithStone | src/consix/search.cpp:2017-2138 | adding 1 << i to the index of a shape is the in-range index of the shape with one more own stone |
| Valuation.LookUpWithPair | src/consix/search.cpp:2017-2138 | the same for two more stones |
| Valuation.WindowThreats | src/consix/search.cpp:2017-2138 | masking and counting the six bits of a window yields the gaps of windows with four or five stones |
| Valuation.ValuateShape | src/consix/search.cpp:2017-2138 | the imperative analysis of a shape index yields the declarative analysis of the segment, every table access being in range; its potential points and pairs are those that make as many threats as their list says |
| LineScan.SegmentsExact | src/consix/search.cpp:1927-2015 | the scan finds exactly the maximal opponent-free segments of at least six cells |
| LineScan.SegmentsOrdered | src/consix/search.cpp:1927-2015 | each of these segments once, in the order of the line |
| LineScan.AnalysisDecomposes | src/consix/search.cpp:1927-2015 | without a class-15 segment the analysis of a line is the sum and concatenation over its maximal segments; with one, it is the analysis of the first such segment |
| LineScan.AnalysisValue | src/consix/search.cpp:888-929 | without a class-15 segment the analysed Value is the one CalSingleLineValue sums directly |
| LineScan.AnalysisOffersEmptyCells | src/consix/search.cpp:1927-2015 | every cell an analysis offers is an empty cell of the line |
| LineScan.AnalyzeLine | src/consix/search.cpp:1927-2015 | the one-pass scan from any start cell, with its early exit, computes this analysis |
| LineScan.CalSingleLineValue | src/consix/search.cpp:888-929 | the one-pass sum computes the value of the line through the point |
| LineCache.BackupUndoesRefresh | src/consix/search.cpp:2442-2618 | for every mode and any marked points, restoring from a backup undoes any refresh in the same mode, whatever was written and whatever the backup held before |
| LineCache.CopyBothPoints | src/consix/search.cpp:1817-1831 | the four calls for two points and two sides copy exactly the lines through either point, also when the points coincide or share a line |
| LineCache.RefreshIsCoherent | src/consix/search.cpp:1817-1925 | refreshing the lines through the changed cells makes a coherent cache coherent again |
| LineCache.EmptyBoardIsZero | src/consix/search.cpp:1707-1720 | the zeroed cache is coherent with the empty board, for a table in which empty segments and single stones are quiet |
| LineCache.ScanOffersFreeCells | src/consix/search.cpp:1927-2015 | a line of a board only offers free cells of that board |
| Threats.SideInfoThreatsFree | src/consix/search.cpp:2182-2277 | the gathered threat points are free cells in strictly descending order, none twice |
| Threats.SortedIsUnique | src/consix/search.cpp:113-129 | whatever arrangement the sort makes, sort and unique leave the same list |
| LeafValues.CoherentValue | src/consix/search.cpp:2180-2278 | without six in a row on its lines, the reported value of a side is the sum of the values of all its lines |
| LeafValues.LeafIsBoardValue | src/consix/search.cpp:287-300 | the score of a leaf is the full evaluation of the board as seen by the side of the engine, in a minimising node at the greatest depth less the discount |
| Potential.PotentialPointsMean | src/consix/search.cpp:2180-2278 | in a position without threats of a side its reported strong points are exactly the free cells on which a stone makes two threats on some line, and each weak point makes one on some line |
| Potential.PotentialStepsMean | src/consix/search.cpp:2180-2278 | the stones of a reported strong step make two threats or more on some line, those of a weak step one |
| Judgement.CountedExactlyIfWinning | src/consix/search.cpp:2180-2278 | for a table that finds threats a side without six in a row has a counted threat if and only if it can make six in a row with one step |
| Answers.BlockingHolds | src/consix/search.cpp:2279-2413 | for a table that finds threats: after stones on two threat points that block, and wherever the second stone goes if one point blocks, the attacker cannot win with the next step |
| OneDirection.OneDirectionIsLost | src/consix/search.cpp:2180-2278 | for a table that finds and rates threats, those that all lie in one direction and are more than the stones of an answer leave a win after every answer |
| Losses.SpreadIsLost | src/consix/search.cpp:2279-2413 | for a table that marks sixes and threats off the edge, so do those in several directions whose corrected count is more than two |
| Verdicts.LostExactly | src/consix/search.cpp:286-287 | in an open position a corrected count above two means exactly that there are more than two threats and that after every answer the attacker can win with the next step |
| Verdicts.CountIsTwo | src/consix/search.cpp:2279-2413 | off the edge, a count of two is exactly two threats in one direction, or threats in several that no single point blocks and that are two or blocked by two points |
| Defence.ThreatNumByTest | src/consix/search.cpp:2279-2413 | with at least two threats in at least two directions the corrected count is decided by the blocking test of the code: one or two if so many threat points pass it, else the raw count |
| Defence.ThreatNumIsLeast | src/consix/search.cpp:2279-2413 | ... and if no threat point is on the edge, it is the least k of one and two such that k threat points leave no completion by one or two stones on any line of the board, and the raw count if there is none |
| Completion.SegmentIDExact | src/consix/search.cpp:2672-2702 | for any point not held by the opponent, AnalyzeLineSegID is the class of the maximal opponent-free stretch through it for every table if and only if the point is inner, or the stretch begins at the point, or it is shorter than six |
| Completion.PlainSightExact | src/consix/search.cpp:2672-2702 | it is so on every board, for every table and in every direction if and only if the point is not on the edge, or is the corner (0, 0) |
| Completion.SegmentIDMisses | src/consix/search.cpp:2672-2702 | wherever the stretch is not seen whole, some table has a class 15 there that is reported as 0 |
| Blocking.BlocksIsTrue | src/consix/search.cpp:2279-2413 | if every point but the two blocked ones is off the edge, or the blocking stones cut off what is not seen of its lines, the blocking test holds exactly when no one or two stones on the other points complete a class-15 segment on the board |
| Blocking.WatchedExact | src/consix/search.cpp:2279-2413 | with blocking stones on two other points, the verdict on a point is right on every board for every table if and only if they cut off what is not seen of its lines |
| Blocking.LastPointExact | src/consix/search.cpp:2279-2413 | with one other point left, so is the whole blocking test |
| Blocking.TrueBlocksPass | src/consix/search.cpp:2279-2413 | for a table that marks sixes, whatever blocks on the board passes the test |
| Defence.EnsuredIsNotTooHigh | src/consix/search.cpp:2279-2413 | for such a table the corrected count is never above the least number that blocks on the board, wherever the threat points are |
| Completion.CompletionIsSix | src/consix/search.cpp:2279-2413 | for a table in which class 15 stands for six in a row, a completion is six in a row |
| Completion.SixIsCompletion | src/consix/search.cpp:2279-2413 | and six in a row is a completion at each of its six cells |
| EdgeMiss.WinNotFoundOnEdge | src/consix/search.cpp:2140-2177 | a position with two threat points on the edge, either of which wins, where the search for a win finds no pair |
| EdgeMiss.ThreatNumTooLow | src/consix/search.cpp:2279-2413 | a position with a threat point on the edge where the count is one although no single threat point blocks, for a table that marks sixes |
| Defence.DefencesExact | src/consix/search.cpp:931-1009 | the listed answers are exactly the pairs of threat points that block, or all pairs when the count is three or more |
| Defence.ThreatCountAndDefenceAgree | src/consix/search.cpp:931-1009 | when the count is two the answers are exactly blocking pairs, by the test of the code and, where the other threat points are seen, on the board; and if the count came from the pair search there is one |
| Defence.DefencesAreLegal | src/consix/search.cpp:931-1009 | every listed answer puts two stones on two distinct free cells |
| Defence.DefencesAreValued | src/consix/search.cpp:931-1009 | each listed answer is valued as the board after it is evaluated for the side that answers, carries the keys that lead to the hash after it, and the list descends by this value |
| Defence.RememberedList | src/consix/search.cpp:305-319 | a list remembered without a cut-off is shortened to four fifths if it has more than fifteen steps; a minimising node keeps those with the least remembered scores |
| Completion.BackWalkFindsStart | src/consix/search.cpp:2672-2690 | from an inner point the backward walk stops at the first cell of the opponent-free stretch around it |
| Completion.SegmentIDIsSurrounding | src/consix/search.cpp:2672-2702 | for an inner point AnalyzeLineSegID is the class of the maximal opponent-free stretch through it, 0 if that is shorter than six |
| Completion.SegmentIDOnEdge | src/consix/search.cpp:2672-2702 | for a point on the edge only what follows it is classified |
| Zobrist.StepKeepsHash | src/consix/search.cpp:1817-1827 | a step onto distinct free cells leaves hash xor stone keys unchanged |
| Zobrist.DoubledStepHash | src/consix/consix.cpp:67-74 | a step whose stones coincide changes hash xor stone keys by exactly the key of that stone |
| Zobrist.ToggleUndo | src/consix/search.cpp:2533-2543 | toggling a step twice restores the hash |
| StepValue.SkipTestExact | src/consix/search.cpp:848-887 | the test that skips lines leaves out exactly the lines through the point if and only if the point is not near one of three corners |
| StepValue.EdgeBackIsStart | src/consix/search.cpp:868-869 | stepping back to an edge cell finds the start of the line if and only if the point is not on the edge or is itself that start |
| StepValue.ZeroedSum | src/consix/search.cpp:848-887 | one more direction takes its two lines, or the one common line once, out of the sum |
| StepValue.SameLineTestExact | src/consix/search.cpp:868-869 | comparing the edge cells tells whether two points share the line of a direction if and only if they do not, or are equal, or both find its start |
| StepValue.StepScoreError | src/consix/search.cpp:848-887 | for any two points, with a coherent cache and no six in a row on an untouched line, the score is off from the full re-evaluation by exactly the lines counted twice and the lines skipped by mistake |
| StepValue.StepScoreIsBoardValue | src/consix/search.cpp:848-887 | where no line is counted twice or lost, the fast step value is the full re-evaluation of the board after the step, for every board and table |
| StepValue.CountsRightWhen | src/consix/search.cpp:848-887 | this is so for points with exact skipping tests whose common lines both find the start; in particular off the edge and away from the corners |
| StepValue.MiddleCountsRight | src/consix/search.cpp:2703-2719 | and so for any two points of the square 3..15 |
| StepWrong.StepScoreIsWrong | src/consix/search.cpp:848-887 | for every two points where a line is counted twice or lost there are a quiet board with both points free and a table on which the score is wrong |
| StepWrong.StepScoreExact | src/consix/search.cpp:848-887 | so the score is the full re-evaluation on all quiet boards, for all tables, if and only if no cached line is counted twice and none is lost |
| StepWrong.EdgeLineCountsTwice | src/consix/search.cpp:868-869 | two points of one edge: the line along the edge is counted twice |
| StepWrong.CornerLosesLine | src/consix/search.cpp:848-867 | a point near a corner: a column that does not run through it is skipped |
| Trials.RefreshBothSides | src/consix/search.cpp:372-457 | a trial stone refreshes the lines through it, each side in its own mode |
| Trials.TrialThreatsFree | src/consix/search.cpp:372-457 | in a cache refreshed in mode 1 only, the threat points are those of the trial board although other lists are stale |
| Trials.FlagsDiscount | src/consix/search.cpp:159-267 | the discount by single answers is the discount by flags that say after which of them a strong point remains (the loop is in Discount) |
| Discounts.DiscountLowers | src/consix/search.cpp:159-262 | the discount never raises a score that is not a certain loss, takes four off for each answer that leaves a strong point, and leaves a score alone where nothing is threatened or too much |
| TrialMeanings.TrialCounts | src/consix/search.cpp:372-457 | although only the lines through the stone are scanned again and only in some fields, the trial of one stone reads the threat count of the trial board, corrected in mode 1 and raw in the other modes |
| TrialMeanings.PairCounts | src/consix/search.cpp:159-262 | so do two trial stones put one on top of the other with only the numbers copied |
| TrialMeanings.StepCounts | src/consix/search.cpp:1593-1656 | and the trial of a step whose value is adjusted |
| TrialMeanings.TrialOffers | src/consix/search.cpp:372-457 | on a trial board without threats of a side, mode 2 reads its strong points and mode 3 its weak points |
| TrialMeanings.OpeningExact | src/consix/search.cpp:372-457 | an answer after which its side has no counted threat leaves an opening exactly when, on the board after it, the attacker has no counted threat and the answering side has a strong point, or in the other test a weak one |
| TrialMeanings.OpeningHolds | src/consix/search.cpp:372-457 | for a table that finds threats, after an answer that leaves an opening the attacker cannot win with the next step |
| TrialMeanings.PairDiscount | src/consix/search.cpp:159-225 | for such a table, an answer by two stones is discounted only if the attacker cannot win after it and the answering side can |
| TrialMeanings.AdjustedByThreats | src/consix/search.cpp:1593-1656 | for such a table, the static value of a step is raised if its side can win after it, by 1000 exactly with more than two threats, and changed by at most four otherwise |
| TrialMeanings.AdjustmentMonotone | src/consix/search.cpp:1593-1656 | more threats and own strong points never lower the adjustment, strong points of the other side never raise it |
| GameTree.NarrowingStep | src/consix/search.cpp:321-349 | one step of a minimising loop keeps the relation between window, best score and true minimum |
| GameTree.NarrowingCut | src/consix/search.cpp:321-349 | leaving the loop by the alpha cut-off or the win cut-off returns a sound bound |
| GameTree.NarrowingEnd | src/consix/search.cpp:321-349 | leaving it at the end returns the exact value or a bound outside the window |
| GameTree.WideningCut | src/consix/search.cpp:506-533 | the same for the cut-offs of a maximising loop |
| GameTree.ExpandedNode | src/consix/search.cpp:268-320 | the value of an expanded node is the best outcome of its move list, all steps of which are legal |
| GameTree.BestOutcomeBound | src/consix/search.cpp:321-349 | no outcome of a list beats its best outcome |
| Verdicts.NodeIsJudged | src/consix/search.cpp:283-303 | read off the board, for open positions: a node is scored as won if the side to move can win at once, as lost if more than two threats leave no answer that holds, and otherwise searched above the nominal depth, and searched or valued as a leaf from there on |
| Verdicts.TwoAreSearched | src/consix/search.cpp:283-303 | in an open position a node in which two stones are needed against the threats is searched at every depth below the greatest |
| Verdicts.QuietIsSearched | src/consix/search.cpp:372-400 | in an open position without threats, a node between the nominal and the greatest depth is searched exactly if the side to move has a point that makes two threats on a line, a strong step or more than three weak points |
| Verdicts.AnswersExact | src/consix/search.cpp:931-1009 | in an open position, against a count of two the listed answers are exactly the steps after which the attacker cannot win with the next step |
| Verdicts.WonValue | src/consix/search.cpp:268-287 | in an open position the minimax value of a node whose side to move can win at once is that win |
| Verdicts.LostValue | src/consix/search.cpp:268-287 | that of a node with more than two threats that no answer holds is the loss |
| Verdicts.AnsweredValue | src/consix/search.cpp:268-320 | without a remembered list, that of a node in which two stones are needed is the best outcome over exactly the answers that hold |
| RootChoice.FirstIsChosen | src/consix/search.cpp:131-146 | sorting by score and then the leading ties by static value puts a step first that has the greatest score and among those the greatest static value, for any sorting order of equal keys |
| RootChoice.ChosenIsTrulyBest | src/consix/search.cpp:802-846 | without a certain win or loss the steps with the best returned score are exactly those whose minimax value is greatest, and the chosen one has the greatest static value among them |
| RootChoice.ChosenWins | src/consix/search.cpp:802-846 | after a win cut-off the chosen step truly wins |
| RootChoice.AllStepsLose | src/consix/search.cpp:802-846 | if even the best score is a certain loss, every root step truly loses |
| WinSteps.OnlyFirstPairRestores | src/consix/search.cpp:2151-2177 | taking the winning pair back restores the board if and only if it is the very first pair |
| WinSteps.TrialsRemain | src/consix/search.cpp:2151-2177 | with two points or more and no winning pair the board is never restored |
| WinSteps.PairWinsIsCompletion | src/consix/search.cpp:2151-2177 | for two points in plain sight the test for a winning pair is a completion on the board |
| WinSearch.FoundExactly | src/consix/search.cpp:2140-2177 | among the threat points of a position with a counted threat and none on the edge, for a table that marks sixes and threats, a pair is found if and only if there are two threat points |
| WinSearch.FirstSixIsFound | src/consix/search.cpp:2140-2177 | for points in plain sight and no six on the board yet, the pair found is the first point and the least one whose stone, on top of those of all points before it, makes six in a row |
| WinSearch.FoundWithAllStones | src/consix/search.cpp:2140-2177 | and a pair is found if and only if there are two points and stones on all of them make six in a row |
| WinSearch.WindowExists | src/consix/search.cpp:2017-2138 | for a table that marks threats, a counted threat is a window of six cells on the board, own stones but for one or two cells that are threat points |
| SoleThreat.WinNotFound | src/consix/search.cpp:2140-2177 | a position with a single counted threat off the edge, whose point wins, where nothing is found |
| FalseWin.ReportedStepFails | src/consix/search.cpp:2140-2177 | a position with all threats in sight where the first pair that shows class 15 in its turn makes no six on the board |
| WinSteps.TrialPair | src/consix/search.cpp:2151-2177 | exactly the trial stones of all earlier pairs are on the board when a pair is tried |
| Victory.ByDirection | src/consix/search.cpp:1723-1752 | the four double loops together look at every six cells in a row |
| Symmetry.HashImage | src/consix/search.cpp:676-686 | the eight numbered coordinate changes |
| Symmetry.ImagesAreAGroup | src/consix/search.cpp:676-686 | they are eight different symmetries of the board, closed under composition and inverse |
| ValueSymmetry.BoardValueIsSymmetric | src/consix/search.cpp:676-686 | for a table that values mirrored shapes alike, every image of a board has its value |
| ValueSymmetry.LineMirrored | src/consix/search.cpp:888-929 | for such a table the direct sum over a line is the same from either end |
| ValueSymmetry.MovedCells | src/consix/search.cpp:676-686 | the lines of an image are the lines of the board, each in a direction of its own and possibly backwards |
| Symmetry.VictoryIsSymmetric | src/consix/search.cpp:676-686 | a board is won by a side exactly when its image is |
| Game.GameIsCoherent | src/consix/consix.cpp:27-74 | after any run of steps from the start the incremental cache equals the scan of the board from scratch, for both sides and all lines |
| Game.GameHash | src/consix/consix.cpp:27-74 | after any run of steps onto free cells, hash xor stone keys is the xor of the keys of the doubled steps: zero after a computer opening |
| Game.ListedStepsAreLegal | src/consix/search.cpp:268-320 | without remembered lists and with legal generators, every listed step is legal |
| Game.TreesAreLegal | src/consix/search.cpp:268-370 | then every step of the whole tree below any position is legal |
| Game.RootIsLegal | src/consix/search.cpp:802-846 | then the root search meets its requirements |
| Engine.CSearch.BackupLine | src/consix/search.cpp:2442-2510 | copies exactly the fields of the mode, of the lines through the point, of one side |
| Engine.CSearch.RecoverLine | src/consix/search.cpp:2550-2618 | copies them back |
| Engine.CSearch.UpdateLine | src/consix/search.cpp:1858-1925 | copies fresh lines into the cache in the mode |
| Engine.CSearch.GetLineValueForCross | src/consix/search.cpp:2416-2440 | scans exactly the cached lines through the point, and leaves every other slot as it was |
| Engine.CSearch.UpdateLineForCross | src/consix/search.cpp:1834-1857 | the lines through the point become those of a scan from scratch, in the fields of the mode |
| Engine.CSearch.UpdateBoard | src/consix/search.cpp:1817-1831 | hash toggled, all lines through both points rescanned for both sides |
| Engine.CSearch.RecoverBoard | src/consix/search.cpp:2533-2548 | hash toggled back, all lines through both points restored |
| Engine.CSearch.MakeMove | src/consix/search.cpp:2512-2523 | backs up, places, hashes and rescans; a coherent cache stays coherent |
| Engine.CSearch.BackMove | src/consix/search.cpp:2525-2531 | empties the cells, restores hash and lines |
| Engine.CSearch.AnalyzeLineSegID | src/consix/search.cpp:2672-2702 | the class of the stretch found around the point; changes nothing |
| Engine.CSearch.EnsureThreatNum | src/consix/search.cpp:2279-2413 | corrects the threat count by the test of the code, and to the least truly blocking number when no threat point is on the edge; the board is as it was |
| Engine.CSearch.GetAllLineInfor | src/consix/search.cpp:2182-2277 | gathers all lines of a side in the mode, with the corrected count; in a coherent position without six in a row the Value is the sum of all line values; the board is as it was |
| Engine.CSearch.NeedConSearchForDoubleThreat | src/consix/search.cpp:372-415 | true exactly when some answer leaves an opening; board and cache are as they were |
| Engine.CSearch.NeedConSearchForSingleThreat | src/consix/search.cpp:416-457 | the same for the other kind of opening |
| Engine.CSearch.Discount | src/consix/search.cpp:159-267 | the discounted score, through two levels of nested trial stones; board and every field of the cache are as they were |
| Engine.CSearch.CalculateStepValue | src/consix/search.cpp:848-887 | the step value as specified, and the full re-evaluation where the tests count right; the two cells are empty afterwards, so a board on which they were free is as it was |
| Engine.CSearch.DefendForMultiThreat | src/consix/search.cpp:931-1009 | the sorted list of the specified answers, each valued for the side that answers; the board is as it was |
| Engine.CSearch.LookUpHashTable | src/consix/search.cpp:688-709 | the first remembered list with the hash of the position, never in computer-to-computer games or from depth 3 on |
| Engine.CSearch.ReleaseHashTable | src/consix/search.cpp:711-734 | the non-empty lists of the last search replace those of the one before |
| Engine.CSearch.MaxSearch | src/consix/search.cpp:268-370 | the pruned minimising search returns its value or a bound in the sense of the window and the win bound of the unpruned minimax value over the same lists and leaf scores, with board, hash and cache as at entry; it terminates |
| Engine.CSearch.MinSearch | src/consix/search.cpp:458-553 | the same for the maximising search |
| Engine.CSearch.LookForBestStep | src/consix/search.cpp:131-146 | only the leading steps with equal score are reordered |
| Engine.CSearch.SearchRoot | src/consix/search.cpp:802-846 | the chosen root step, with its true outcome among those of all root steps |
| Engine.CSearch.ComputerMove | src/consix/search.cpp:761-846 | the reply: after a search a step with the best true outcome, or a truly winning one; only a reply looked for among threat points may leave the board changed, exactly when two threat points or more exist and the first pair does not win; and the depth settings stay in range exactly unless a win is found with both depths below two |
| Engine.CSearch.ConstructWinStep | src/consix/search.cpp:2140-2177 | finds the first pair that wins, by the test of the code, when its turn comes; never with fewer than two threat points, and always with two if none is on the edge and a threat is counted; which stones remain on the board |
| Engine.CSearch.AdjustStepValue | src/consix/search.cpp:1593-1656 | each step gets its specified adjustment; board and cache are as they were |
| Engine.CSearch.WinOrLose | src/consix/search.cpp:1723-1752 | reports a win exactly when there are six stones in a row |
| Engine.CSearch.ConStrangeStep | src/consix/search.cpp:736-759 | the two neighbours of the first stone towards the middle of the board |
| Engine.RepliesAreNearer | src/consix/search.cpp:736-759 | each of them is nearer to the middle than the first stone, unless the coordinate moved is in the middle already |
| Engine.CSearch.InitGame | src/consix/search.cpp:1792-1815 | the start position, with a coherent cache |
| Engine.CSearch.StartGame | src/consix/consix.cpp:7-25 | the start position, the side and depths of the engine |
| Engine.CSearch.PlayStep | src/consix/search.cpp:1817-1831 | one step of the game relation; a coherent cache stays coherent |
| Engine.CSearch.HumanMove | src/consix/consix.cpp:67-74 | one step of the game relation, whatever cells the step names |
| Engine.CSearch.ComputerReply | src/consix/consix.cpp:27-65 | one step of the game relation except after a failed or late find among threat points; the game ends exactly when a side has six in a row |
| Engine.CSearch.WinIsFoundExactly | src/consix/search.cpp:761-846 | off the edge and with a counted threat, what a reply among threat points needs is two threat points |
| Engine.CSearch.QuietRootIsSearchable | src/consix/search.cpp:761-846 | in a game with the depths of start_game the requirement of the root search is that there is a step at all |
| Frame.EncodedRoundTrip | src/websocket/Communicate.c:323-371 | an independent parser of section 5.2 of RFC 6455 recovers the payload of a sent frame, whatever bytes follow |
| Frame.EncodedUnique | src/websocket/Communicate.c:323-371 | the sent frame is the only unmasked final text frame with this payload and the shortest length form |
| Frame.MaskedTwice | src/websocket/Communicate.c:240-242 | the mask of section 5.3 is taken off by applying it again |
| Frame.Ntohl64Involution | src/websocket/Communicate.c:29-45 | ntohl64 is its own inverse on either kind of host |
| Frame.Ntohl64Swaps | src/websocket/Communicate.c:29-45 | on a little-endian host it reverses the eight bytes |
| Frame.LoadedInOrder | src/websocket/Communicate.c:135-160 | a length field loaded and converted is the big-endian number, on either kind of host |
| Frame.StoredInOrder | src/websocket/Communicate.c:340-368 | a length converted and stored appears in big-endian order, on either kind of host |
| WebSocket.EncodeMessage | src/websocket/Communicate.c:323-386 | builds the sent frame and the 0x00 .. 0xFF form of the older protocol |
| Stream.GatherConserves | src/websocket/Communicate.c:53-102 | reading the rest of a message loses and invents no byte, and on an open connection succeeds exactly when the stream holds enough |
| Stream.ReadFrameConserves | src/websocket/Communicate.c:104-245 | with its header at hand a frame is read to its end and everything behind it is kept |
| Stream.ShortHeaderCloses | src/websocket/Communicate.c:104-245 | without its whole header at hand a masked frame ends the connection |
| Stream.FrameReceived | src/websocket/Communicate.c:460-498 | a frame at the start of the stream is received if and only if its header is complete when it is looked at; then the payload is unmasked and all following bytes are carried over or still to come |
| Stream.SessionDelivers | src/websocket/Websocket.c:410-450 | for any text messages and any cutting of their bytes into reads, the payloads delivered are a prefix of those sent, in order, and all of them if and only if the boundaries of the reads let every header arrive; the condition is on lengths alone |
| Connection.ReceivedStatus | src/websocket/Communicate.c:500-555 | by an independent parser: the status of a received frame is CONTINUE exactly for final text, CLOSE_NORMAL for final close, CLOSE_TYPE for final binary, ping and pong, FRAGMENT without the final bit and CLOSE_UNEXPECTED otherwise |
| Connection.HeaderDecides | src/websocket/Communicate.c:104-245 | by the same parser: whether a frame whose header arrives is received, or closes the connection for its protocol, its size or the policy |
| Connection.SessionIsTexts | src/websocket/Websocket.c:410-450 | of any stream of client frames the payloads delivered are a prefix of those before the first frame that is not final text, and all of them if every header arrives |
| Stream.ReceivesByBoundaries | src/websocket/Websocket.c:410-450 | the messages received are decided by the lengths of the pieces and of the frames |
| Stream.SizedDelivers | src/websocket/Websocket.c:410-450 | if every read but the last finds 14 to 8178 bytes, every non-empty message is delivered |
| Stream.CutHeaderIsLost | src/websocket/Communicate.c:460-498 | a stream that shows this: a read that ends after the first byte of a frame loses the message |
| Stream.LastEmptyIsLost | src/websocket/Communicate.c:460-476 | a last message without payload that was read together with the one before is never delivered |
| WebSocket.Socket.Recv | src/websocket/Communicate.c:67-76 | takes the next piece as far as there is room |
| WebSocket.GetRemainingMessage | src/websocket/Communicate.c:53-102 | refines the gathering of the rest of a message |
| WebSocket.ReadHeader | src/websocket/Communicate.c:135-166 | length, header size and mask of any of the three forms |
| WebSocket.TakePayload | src/websocket/Communicate.c:190-216 | splits the bytes behind the header between this message and the next; an incomplete header wraps the count around and fails |
| WebSocket.ParseMessage | src/websocket/Communicate.c:104-245 | refines the reading of one frame, with all its reasons to close |
| WebSocket.WsClient.Communicate | src/websocket/Communicate.c:390-555 | refines the reception of one message: status by opcode, payload with its final zero, carried-over bytes, sent frame |
| WebSocket.WsClient.HandleClient | src/websocket/Websocket.c:410-450 | the loop delivers exactly the session specified, carrying over between calls |
| Digest.ZerosIsLeast | src/websocket/md5.c:317-330 | the number of zero bytes is the least that makes whole blocks |
| Digest.TailFills | src/websocket/md5.c:288-310 | bytes that just fill the open block are absorbed with it as one block |
| Digest.PaddedInjective | src/websocket/sha1.c:326-371 | padding determines the message |
| Digest.PaddedExact | src/websocket/sha1.c:326-371 | the padded message is the only one that keeps the message in front, follows it by a single marker bit and the fewest zeros, and ends a block with the length |
| Md5.CountAdds | src/websocket/md5.c:280-287 | adding to the two counting words with a carry found by wrap-around counts bits modulo 2^64 |
| Md5.PadLength | src/websocket/md5.c:326-331 | the padding length computed from the low word is that of section 3.1 of RFC 1321 |
| Md5.PaddedMessageInjective | src/websocket/md5.c:317-334 | different messages below 2^61 bytes have different padded messages |
| Md5.PaddedMessageExact | src/websocket/md5.c:317-334 | a list of bytes is the padded message exactly when it has this shape and its last eight bytes are the bit length modulo 2^64, least significant byte first |
| Md5.InitialBytes | src/websocket/md5.c:269-277 | the initial registers are the bytes of section 3.3 of RFC 1321 |
| Md5.State.Append | src/websocket/md5.c:279-315 | after any chunk below 2^28 bytes the state is again that of the whole message so far: whole blocks absorbed, tail in buf, count its bit length modulo 2^64 |
| Md5.State.Finish | src/websocket/md5.c:317-338 | the digest is that of the one-shot padded message |
| Md5.WordBytes | src/websocket/md5.c:326-338 | words written with their least significant byte first |
| Sha1.LengthBytes | src/websocket/sha1.c:358-368 | the eight stored bytes are the length, most significant first |
| Sha1.PaddedMessageInjective | src/websocket/sha1.c:326-371 | different messages below 2^61 bytes have different padded messages |
| Sha1.PaddedMessageExact | src/websocket/sha1.c:326-371 | for messages below 2^61 bytes a list of bytes is the padded message exactly when it has this shape and its last eight bytes are the bit length, most significant byte first |
| Sha1.Context.Input | src/websocket/sha1.c:143-184 | the state of the whole message so far; corrupted exactly by 2^64 bits or more, or by input after the result or after corruption |
| Sha1.Context.PadToLength | src/websocket/sha1.c:326-356 | both padding cases lead to 56 bytes of the last block |
| Sha1.Context.Result | src/websocket/sha1.c:104-119 | the digest of the one-shot padded message; fails exactly when corrupted; asking again changes nothing |
| Base64.AlphabetBijective | src/websocket/base64.c:145-290 | the alphabet is a bijection onto 0..63, in the order of table 1 of RFC 3548, without the padding character |
| Base64.Encode | src/websocket/base64.c:62-94 | for any room exactly the prefix of the encoding that fits is written, and a zero byte only behind the whole text |
| Base64.Decode | src/websocket/base64.c:301-374 | for any room exactly the prefix of the decoded bytes that fits is written; the reported length and success do not depend on more |
| Base64.DecodedExact | src/websocket/base64.c:301-374 | of any text the whole bytes in the bits of its leading alphabet characters are decoded, and decoding succeeds if and only if the text is well padded |
| Base64.RoundTrip | src/websocket/base64.c:62-94 | decoding an encoding succeeds and gives the data back, for every input |
| Base64.EncodedExact | src/websocket/base64.c:301-374 | a text that can be decoded is the encoding of its bytes if and only if its left-over bits are zero |
| Base64.NeedlenSuffices | src/websocket/base64.c:385-411 | the allocated size holds the decoded bytes of any text |
| Base64.OverflowDetected | src/websocket/base64.c:106-124 | the comparison finds exactly the overflows of the size computation, for any word size |
| Base64.EncodeAlloc | src/websocket/base64.c:106-134 | the three outcomes: too long, no memory, or the whole terminated encoding |
| Base64.DecodeAlloc | src/websocket/base64.c:385-411 | success if and only if the text is well padded or memory runs out; then all decoded bytes |
| ClientList.ContentsExact | src/websocket/Datastructures.c:81-147 | after any interleaving of additions and removals a client is on the list exactly when the last operation on it was its addition, and never twice |
| ClientList.WithoutKeepsOrder | src/websocket/Datastructures.c:101-147 | a removal takes out only the one client |
| ClientList.List.constructor | src/websocket/Datastructures.c:30-43 | the empty list |
| ClientList.List.Add | src/websocket/Datastructures.c:81-94 | appends a fresh node |
| ClientList.List.Remove | src/websocket/Datastructures.c:101-147 | removes and closes a client on the list, and changes nothing for any other; the links stay exact |
| ClientList.List.Multicast | src/websocket/Datastructures.c:208-225 | the message reaches every client but the sender once, in order |
| ClientList.List.Get | src/websocket/Datastructures.c:286-305 | the first client with this address and socket, or none |

## Left out

- `DefendForSingleThreat`, `ConstructStepForNoThreat` and `ConstructComPoint` (src/consix/search.cpp): candidate
  collection with hand-tuned truncation; they are arbitrary functions of the position (`GameTree.Oracle`), and that
  their steps lie on free cells is a hypothesis where it is needed.
- `std::sort`: an arbitrary function; where its result matters it permutes and orders by the key.
- The contents of the shape table and of the Zobrist key table, and a table file that cannot be opened: arbitrary
  tables; what the zeroed cache needs of the shape table is the hypothesis `QuietWhenEmpty`.
- The opening book (`SearchCM`, `ReadCM`): file reading, and its look-up is commented out in the source.
- The board symmetry of the lists in the line cache: victory and the value of a board are shown to be symmetric.
- Blocking.BlocksIsTrue: its condition is exact when a single other threat point is left (`Blocking.LastPointExact`),
  and exact for the verdict on each point by itself (`Blocking.WatchedExact`); with more points left the wrong verdict
  on one can be hidden by a right one on another, and there it is only sufficient.
- Fields that are never read back: `Line.Side`, `Point.side`, `Point.Value`, `Point.label`; the uninitialised `LValue` of
  fresh steps is 0, and so are fields that the constructor of the engine leaves uninitialised.
- The weights 0.8, 0.2 and the like: products truncated toward zero, computed on integers.
- Nominal depths above five: the source then writes behind its three tables of remembered lists.
- Engine.CSearch.ComputerReply: a reply looked for among threat points has to be found, because the source indexes the
  board with -1 otherwise (`Engine.CSearch.WinIsFoundExactly` says when it is); the cache is not claimed to be coherent
  after such a reply unless the first pair wins.
- Engine.CSearch.MaxSearch: legal steps in the whole tree are required; `Game.TreesAreLegal` discharges this for games in
  which nothing is remembered, as with the depths of start_game.
- Defence.ThreatNumIsLeast: requires that no threat point is on the edge, because `AnalyzeLineSegID` misses completions
  there and the count can then be too low; without that only what the test of the code decides is claimed.
- Trials.FlagsDiscount: the weights of the discount are heuristics; what its conditions read is stated by
  `TrialMeanings`, its direction by `Discounts.DiscountLowers`.
- Verdicts.LostExactly, Verdicts.NodeIsJudged and the rest of `Verdicts`: open positions only, without a threat point of
  the attacker on the edge, as for `Defence.ThreatNumIsLeast`. Two threats that turn out to have no answer are searched,
  not given up, as in the code.
- Potential.PotentialPointsMean: says nothing of the weak points that are left out, which depend on the class alone.
- TrialMeanings.TrialOffers: requires that the trial board has no counted threat of the side, because in modes 2 and 3
  a shape with threats lists potential points that mode 0 leaves out.
- WebSocket.WsClient.Communicate: for a frame without the final bit it reports that the source would read on; the loop
  over fragments allocates anew without the earlier ones and is not modelled.
- WebSocket.ParseMessage: a message length left by an earlier fragment is not modelled, for the same reason.
- The Hybi-00 and Hixie-75 receive paths, handshake, sockets, threads, locks, printing, and the service behind
  a delivered message.
- WebSocket.TakePayload: allocations of up to 2^63 bytes succeed and larger ones fail.
- The compression functions of MD5 and SHA-1: arbitrary functions of state and block.
- Md5.State.Append: chunks of 2^28 bytes or more, for which the shift of the byte count overflows a signed integer.
- `list_free`, `list_remove_all`, `list_print`, `list_multicast_one`, `list_multicast_all`: plain traversals.
- utf8.c, service.c, util.c and the web client: small or library string handling.
