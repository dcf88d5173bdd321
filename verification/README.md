# wordle-solver in Dafny

A functional model of the core of deedy/wordle-solver, with proofs about it. The model has four parts:

- The Wordle game: `Wordle.__init__`, `check_word` and `guess`, which score a guess tile by tile.
- The clue bookkeeping of the solver: `indexall`, `is_guessable_word`, and `parse_clues` over a history of (guess, clue) pairs.
- `guess_next_word`: the solution-tree path, and the frequency heuristic that ranks the vocabulary.
- `solve_wordle`: the loop that alternates the selector with the game.

Modules follow the source files:

| module | file | what it holds |
|---|---|---|
| `Results` | — | `Option`, `Result`, and one `Error` constructor per exception the core raises |
| `WordSet` | game/util.py | `get_n_from_word_set` |
| `Tiles` | game/constants.py | tile codes 0/1/2 as a datatype, clue digit strings |
| `Game` | game/wordle.py | the game as an immutable value that `Guess` threads through |
| `Consistency` | game/solver/util.py | constraints, `IsGuessableWord`, `ParseClues` and their soundness for the secret |
| `Ranking` | — | order-keeping filter, minimum key, lexicographic `min`, and the three-stage selection `Select` |
| `Solver` | game/solver/solver.py | `GuessNextWord`, its tree path, frequency tables and sort keys |
| `SolverProperties`, `ScoringProperties` | game/solver/solver.py | what the selector and the scoring functions guarantee |
| `SolveLoop` | game/solver/solver.py | `SolveWordle` as a method with a loop |
| `Examples` | test/ | the unit tests' expectations, proved about the model |
| `BinksExamples` | test/test_solver.py | the two selector calls on the "binks" family, proved for every family of that shape and then for the test's list |

An exception in the source is a `Failure(e)` of the model. A mutation of the `Wordle` object is a new `Wordle` value. Sorting, then keeping the ties, then taking `min` is modelled as `Ranking.Select`. `Select` returns the word that is minimal in the primary key, then in the secondary key among those ties, then lexicographically. `Ranking.SelectUnique` shows that exactly one word wins. So the result does not depend on how the sort orders ties.

The comment at test/test_solver.py:56 says that the second "binks" call guesses without exploring. In the code that call has three survivors and four guesses left, so it does explore. "finks" is chosen because finks, ginks and hinks tie on both sort keys and `min` takes the least of them. `BinksExamples.SecondCall` proves this.

## Model

| member | source | states |
|---|---|---|
| WordSet.GetN | game/util.py:4-9 | an empty list is EmptyWordSet; mixed lengths are MixedWordLengths; otherwise the common length of every word is returned |
| WordSet.LengthsCardinality | game/util.py:7-8 | the `Counter` of lengths has more than one key exactly when the words are not all one length |
| Tiles.Code | game/constants.py:19-21 | NOTHING is 0, GUESS_WRONG_SPOT is 1 and GUESS_RIGHT_SPOT is 2 |
| Tiles.Digit | game/solver/solver.py:53 | `str` of a tile code is the one decimal digit whose value is that code |
| Tiles.ClueString | game/solver/solver.py:53 | the joined key has one character per tile, and character i is the digit of tile i's code |
| Tiles.ClueStringInjective | game/solver/solver.py:53-54 | two clues with the same tree key are the same clue, so the tree lookup identifies the clue |
| Tiles.AllRightMeans | game/solver/solver.py:58 | `IsAllRight`, the test "non-empty, one distinct value, and that value is RIGHT_SPOT" holds exactly when the clue is non-empty and every tile is right-spot |
| Tiles.CountRight | game/wordle.py:64 | the right-spot count never exceeds the clue length |
| Tiles.CountRightFull | game/wordle.py:64 | the count equals the length exactly when every tile is right-spot |
| Game.Lower | game/wordle.py:51 | lowering keeps the length and lowers each character on its own |
| Game.LowerChar | game/wordle.py:51 | an upper-case ASCII letter becomes the lower-case letter at the same place in the alphabet; any other character is unchanged |
| Game.CheckWord | game/wordle.py:34-38 | accepts exactly the words of length N in the vocabulary; a length mismatch is reported before "not a word" |
| Game.TileFor | game/wordle.py:54-59 | one tile is right-spot iff the secret has the letter at that position, wrong-spot iff it has it elsewhere only, and nothing iff it lacks the letter |
| Game.Feedback | game/wordle.py:54-59 | each tile is right-spot iff the letters agree at that position, wrong-spot iff they differ but the letter occurs in the secret, and nothing iff the letter is absent from the secret |
| Game.FeedbackSolvesIffEqual | game/wordle.py:64-67 | the clue is all right-spot exactly when the guess equals the secret |
| Game.NewWordle | game/wordle.py:16-24 | construction succeeds exactly for a non-empty one-length vocabulary that contains the word; the new game is in play, has no guesses, keeps the lowered secret and satisfies the game invariant |
| Game.Guess | game/wordle.py:42-73 | a finished game answers no clue and stays unchanged; in play, the lowered guess is accepted iff valid, recorded and scored; the game is solved iff the guess is the secret and lost iff not and the guess budget is used up; the invariant is kept; in play, a wrong-length guess fails with the length error and a right-length guess outside the vocabulary with the "not a valid word" error |
| Consistency.IndexAll | game/solver/util.py:3-8 | the result holds exactly the positions where the word has the letter |
| Consistency.IsGuessableWord | game/solver/util.py:10-42 | the word passes iff it has every right-place letter at each recorded position, has every wrong-place letter but at none of its recorded positions, and has no absent letter; no constraints accept every word |
| Consistency.Monotone | game/solver/util.py:17-41 | a word that passes stronger constraints passes weaker ones |
| Consistency.AddPositions | test/test_solver.py:7-21 | folding one attempt records each tile: each right-spot position is added to its letter's right-place set, each wrong-spot position to its wrong-place set, and each letter scored "nothing" to the absent set; nothing recorded before is lost |
| Consistency.ParseClues | test/test_solver.py:7-21 | a letter is at a right position iff some attempt scored it right-spot there, likewise for wrong-spot, and it is absent iff some attempt scored it "nothing" somewhere |
| Consistency.SaysSnoc | test/test_solver.py:7-21 | what a history says is what its prefix says plus what its last attempt says |
| Consistency.ExcludedSnoc | test/test_solver.py:7-21 | a letter is marked absent by a history iff the prefix or the last attempt scores it "nothing" |
| Consistency.TruthfulNotWrongAt | game/wordle.py:54-59 | an honest clue never marks the secret's own letter wrong-spot at its own position |
| Consistency.TruthfulNotExcluded | game/wordle.py:54-59 | an honest history never makes a letter of the secret absent |
| Consistency.SecretRightPlace | game/solver/util.py:17-26 | the secret satisfies the right-place check of the constraints its honest clues produce |
| Consistency.SecretWrongPlace | game/solver/util.py:27-36 | the secret satisfies the wrong-place check of those constraints |
| Consistency.SecretNotAbsent | game/solver/util.py:37-41 | the secret satisfies the absent-letter check of those constraints |
| Consistency.SecretConsistent | game/solver/util.py:10-42 | the secret is a guessable word for the constraints parsed from any history of honest clues about it |
| Consistency.ParseGrows | game/solver/solver.py:69-76 | one more attempt only adds constraints: the parse of the longer history refines the shorter one's |
| Ranking.Filter | game/solver/solver.py:75-76 | the comprehension keeps exactly the members that pass the test, and is no longer than its input |
| Ranking.FilterCounts | game/solver/solver.py:75-76 | every occurrence of an accepted word is kept and every occurrence of a rejected word is dropped |
| Ranking.FilterAppend | game/solver/solver.py:75-76 | filtering a concatenation is concatenating the filtered parts, so the input order is kept |
| Ranking.FilterFirst | game/solver/solver.py:82-84 | the first kept word is the first word of the input that passes the test |
| Ranking.MinKey | game/solver/solver.py:152-154 | the tie value is the key of some pool word and no greater than any pool word's key |
| Ranking.LexLeReflexive | game/solver/solver.py:181 | the string order that `min` uses is reflexive |
| Ranking.LexLeTotal | game/solver/solver.py:181 | that order is total |
| Ranking.LexLeTransitive | game/solver/solver.py:181 | that order is transitive |
| Ranking.LexLeAntisymmetric | game/solver/solver.py:181 | that order is antisymmetric |
| Ranking.LexMin | game/solver/solver.py:181 | `min` returns a member of the list that is lexicographically no greater than every member |
| Ranking.Select | game/solver/solver.py:150-181 | the chosen word is in the pool, minimises the primary key, minimises the boost key among the primary ties, and is the least string among both ties |
| Ranking.SelectUnique | game/solver/solver.py:150-181 | any word that wins all three stages is the word selected, so the outcome does not depend on how the sort orders ties |
| Solver.Lookup | game/solver/solver.py:51-56 | lookup fails iff no entry has the key; a found subtree is the one stored under the key |
| Solver.LookupIn | game/solver/solver.py:51-56 | the same, over a list of entries |
| Solver.Walk | game/solver/solver.py:50-56 | walking the history fails only with the tree-mismatch error |
| Solver.WalkAppend | game/solver/solver.py:50-56 | walking a concatenated history is walking the first part, then the rest from where it ended; a failure propagates |
| Solver.TreeStep | game/solver/solver.py:48-62 | the tree path returns no guess iff the walk succeeds and the last clue is all right-spot; otherwise it returns the first key of the level reached, with a one-element list; any failure is a tree mismatch |
| Solver.Musts | game/solver/solver.py:90-93 | position ix holds exactly the letters some survivor has at ix |
| Solver.Only | game/solver/solver.py:96 | taking the element of a one-element set gives its only element |
| Solver.Promote | game/solver/solver.py:94-97 | after promotion, a letter is recorded at a position iff it was before, or every survivor has that letter there |
| Solver.Unknown | game/solver/solver.py:98-99 | a position below N is unknown iff no right-place letter pins it |
| Solver.Candidates | game/solver/solver.py:75-76 | `cands` holds exactly the unplayed, consistent candidates, each with all its occurrences in the candidate list |
| Solver.Explorable | game/solver/solver.py:150-151 | the explorable list holds exactly the words of `word_set` (non-strict) or of `cands` (strict) that were not played, each with all its occurrences |
| Solver.Preview | game/solver/solver.py:182 | `cands[:5]`: the first five survivors, or all of them when there are fewer |
| Solver.Explore | game/solver/solver.py:115-182 | the zero-frequency error iff the total is zero; the empty-explorable error iff the total is positive and nothing is explorable; otherwise an explorable word, `cands[:5]` and `len(cands)` |
| Solver.Heuristic | game/solver/solver.py:66-84 | fails only with get_n's or its own errors; no-candidates iff N is defined, the history is not solved and nothing survives; no guess only after a solved history; never a played word |
| Solver.GuessNextWord | game/solver/solver.py:40-66 | the missing-candidate-set error iff the candidate list is empty; every other failure is a tree mismatch, mixed word lengths, or one of the heuristic's errors |
| SolverProperties.VocabularyLength | game/solver/solver.py:43-66 | with a candidate list, N is defined and every candidate and vocabulary word has length N |
| SolverProperties.HeuristicCases | game/solver/solver.py:72-84 | a solved history gives no guess; otherwise no survivors raise the no-candidates error and survivors never do |
| SolverProperties.NoSurvivorMeansEmpty | game/solver/solver.py:75-76 | the survivor list is empty iff no candidate is both unplayed and consistent |
| SolverProperties.NoCandidatesExactly | game/solver/solver.py:75-79 | the no-candidates error is raised iff the history is unsolved and no candidate is unplayed and consistent |
| SolverProperties.SecretKeepsCandidates | game/solver/solver.py:75-79 | under honest clues, a secret that is a candidate and has not been played keeps the no-candidates error away |
| SolverProperties.NeverRepeatsGuess | game/solver/solver.py:75-151 | the heuristic never proposes a word already played |
| SolverProperties.SolvedExit | game/solver/solver.py:72-73 | after an all-right-spot clue on a consistent word the selector returns no guess, no list and zero |
| SolverProperties.FirstSurvivorValue | game/solver/solver.py:80-84 | with one survivor, or one guess left, the answer is the first survivor, all survivors and their number |
| SolverProperties.FirstSurvivorExit | game/solver/solver.py:80-84 | and that first survivor is the first candidate, in list order, that survives |
| SolverProperties.SingleSurvivorIsOnlyOne | game/solver/solver.py:75-84 | a sole survivor is every candidate that passes the survivor test |
| SolverProperties.StrictModeAlwaysExplores | game/solver/solver.py:150-153 | in strict mode the explorable list is never empty, so the index error cannot occur |
| SolverProperties.SurvivorsShrink | game/solver/solver.py:69-76 | a further clue never brings back a candidate |
| SolverProperties.AllHitsPositive | game/solver/solver.py:105-113 | a candidate with a counted letter contributes to the total |
| SolverProperties.AllHitsIgnoresCands | game/solver/solver.py:105-113 | one candidate's contribution does not depend on the other candidates |
| SolverProperties.TotalPositive | game/solver/solver.py:104-113 | `TotalFreq`: the total is positive once one survivor contributes |
| SolverProperties.DifferingPositionUnpinned | game/solver/solver.py:90-99 | a position where two consistent words differ is pinned by no right-place letter |
| SolverProperties.MassPositive | game/solver/solver.py:90-116 | two distinct consistent survivors of length N give a positive total frequency |
| SolverProperties.ZeroFrequencyOnlyFromTables | game/solver/solver.py:115-116 | the zero-frequency error is raised only when the tables really are empty |
| SolverProperties.FrequencyNeverZero | game/solver/solver.py:115-116 | with two distinct survivors the zero-frequency error cannot occur |
| SolverProperties.ReachesExplore | game/solver/solver.py:78-90 | with several survivors and more than one guess left, the answer is the exploration step |
| SolverProperties.ExploreChoice | game/solver/solver.py:150-182 | a successful exploration picks the ranking winner of the explorable pool, returns the first five survivors and the survivor count, and in strict mode picks a survivor |
| SolverProperties.ChosenWinsRanking | game/solver/solver.py:150-182 | the same, stated for `GuessNextWord` on a history that reaches exploration |
| SolverProperties.TreeRejectsUnknownStep | game/solver/solver.py:50-55 | a history step whose guess or clue has no entry at the level reached fails the whole lookup, whatever follows |
| SolverProperties.ChosenFromVocabulary | game/solver/solver.py:42-182 | every word the heuristic chooses comes from the candidate or guess list |
| SolverProperties.NoneOnlyWhenSolved | game/solver/solver.py:58-73 | both paths return no guess only after a history whose last clue is all right-spot |
| SolverProperties.SelectorErrors | game/solver/solver.py:40-66 | mixed word lengths are reported iff the heuristic path computes N from a `word_set` of several lengths; a tree mismatch only comes from the tree path; the heuristic's errors never do |
| ScoringProperties.SkippedCountNothing | game/solver/solver.py:105-113 | a letter at a known position, or an absent letter, adds nothing to the positional table; an absent letter adds nothing to the global one |
| ScoringProperties.PosFreqCountsSurvivors | game/solver/solver.py:105-112 | `PosFreq`: `conditional_pos_freq[i][l]` is the number of survivors holding `l` at the unknown position i, when `l` is not absent |
| ScoringProperties.GlobalIsPositionSum | game/solver/solver.py:105-112 | `GlobalFreq`: over survivors of length N, `conditional_unknown_freq[l]` is the sum of `conditional_pos_freq[i][l]` over the N positions |
| ScoringProperties.NoLetterHits | game/solver/solver.py:109-110 | an absent letter is never counted in a word |
| ScoringProperties.HitCounted | game/solver/solver.py:111-112 | a counted occurrence is among the word's occurrences of that letter |
| ScoringProperties.PosWithinGlobal | game/solver/solver.py:111-112 | the count at a position never exceeds the letter's global count |
| ScoringProperties.PositionalPartsNonNegative | game/solver/solver.py:128-138 | `PositionalParts`: the right-position and wrong-position masses of the positional scorer are non-negative |
| ScoringProperties.PartsSumToDistinctMass | game/solver/solver.py:128-138 | `PositionalParts`: the two masses add up to the global counts of the word's distinct letters |
| ScoringProperties.ScorersAgreeAtWeightOne | game/solver/solver.py:117-147 | `PositionalScore`: with NON_POS_WEIGHT = 1 the positional scorer equals the non-positional one |
| ScoringProperties.SetMassRemove | game/solver/solver.py:121 | the sum over a letter set does not depend on the order its letters are taken |
| ScoringProperties.DistinctMassIsSetMass | game/solver/solver.py:121 | `DistinctMass`: visiting each letter once sums the global counts over the letters not yet seen |
| ScoringProperties.NonPositionalIsLetterSetSum | game/solver/solver.py:118-121 | `NonPositionalScore`: the non-positional key is minus the global counts summed over the set of the word's letters |
| ScoringProperties.BoostCountsPositions | game/solver/solver.py:162-168 | `Boost`: the boost counts exactly the positions whose letter is one of several survivor letters there and a right-place letter |
| SolveLoop.LowerIdentity | game/wordle.py:51 | lowering a word of lower-case letters leaves it unchanged |
| SolveLoop.ReportedTruthful | game/solver/solver.py:19-21 | the clues the loop collects from the game are honest clues about the secret |
| SolveLoop.SecretUnplayed | game/solver/solver.py:19-22 | while the game is in play, the secret is not among the guesses recorded so far |
| SolveLoop.StepFailureSound | game/solver/solver.py:16 | in play, the selector does not return "no guess", and with the secret among the candidates it does not run out of candidates |
| SolveLoop.ReportedSnoc | game/solver/solver.py:19-21 | appending the game's clue keeps every collected clue honest |
| SolveLoop.Extend | game/solver/solver.py:19-21 | a guess the game accepts and does not end on keeps the loop's invariant one round further |
| SolveLoop.AcceptedGuess | game/solver/solver.py:19-29 | an accepted guess either ends the game, solved on the secret or lost on the last guess, or continues it with the invariant kept |
| SolveLoop.Round | game/solver/solver.py:15-29 | one round either keeps the loop's invariant or settles the run: won, lost, or an error of the selector or the game |
| SolveLoop.SolveWordle | game/solver/solver.py:8-29 | a game in play that becomes solved is reported as a win, and one that becomes unsolved as a loss; a win has 1..MAX_GUESSES rounds and ends with the secret as the last guess; a loss leaves the game unsolved; a win or a loss carries the survivor list of the last selector call, made on an honest clue history; running out of rounds happens only in play after MAX_GUESSES guesses, or with no rounds; the game never sees a missing guess; with the secret among the candidates no candidate shortage occurs |
| Examples.IndexAllGorge | test/test_utils.py:6-16 | the positions of g, o, r, e and a in "gorge" |
| Examples.GuessableTeslaAbsent | test/test_utils.py:18-22 | "tesla" is rejected when 'a' is absent, and accepted when only letters outside it are |
| Examples.GuessableTeslaWrongS | test/test_utils.py:24-28 | an 's' recorded at its own position rejects "tesla"; at the other four it accepts |
| Examples.GuessableTeslaWrongTE | test/test_utils.py:29-32 | two wrong-place letters, one at its own position, reject; both off their positions accept |
| Examples.GuessableTeslaRightMisplaced | test/test_utils.py:34-36 | 't' required at positions 1-4 rejects "tesla" |
| Examples.GuessableTeslaRightExact | test/test_utils.py:37-38 | every letter of "tesla" at its own position accepts it |
| Examples.ParseSingle | test/test_solver.py:8 | a one-attempt history parses to that attempt folded into no constraints |
| Examples.ParseBinksGreen | test/test_solver.py:8-11 | grey 'b' then four greens: 'b' absent, i/n/k/s at positions 1-4, nothing wrong-place |
| Examples.FoldBinksGreen | test/test_solver.py:8-11 | the fold of that attempt, position by position |
| Examples.ParseBinksYellow | test/test_solver.py:13-16 | grey 'b' then four yellows: 'b' absent, i/n/k/s wrong-place at 1-4, nothing right-place |
| Examples.FoldBinksYellow | test/test_solver.py:13-16 | the fold of that attempt, position by position |
| Examples.ParseBinksGrey | test/test_solver.py:18-21 | all grey: every letter of "binks" absent and nothing else |
| Examples.FoldBinksGrey | test/test_solver.py:18-21 | the fold of that attempt, position by position |
| Examples.FeedbackSteal | test/test_wordle.py:26-30 | "steal" against "tesla" is five wrong-spot tiles |
| Examples.FeedbackTeals | test/test_wordle.py:42-43 | "teals" against "tesla" is right, right, wrong, right, wrong |
| Examples.FoldArose | test/test_solver.py:25 | "arose" scored all grey makes its five letters absent |
| Examples.AroseNoCandidateSet | test/test_solver.py:28-31 | an empty candidate list fails with the missing-candidate-set error |
| Examples.AroseAlreadyPlayed | test/test_solver.py:33-36 | a candidate list holding only the played word fails with the no-candidates error |
| Examples.AroseConstraints | test/test_solver.py:25 | the constraints parsed from that history |
| Examples.UnlitAvoidsArose | test/test_solver.py:38-45 | "unlit" has none of the absent letters |
| Examples.AroseSurvivorTest | test/test_solver.py:38-45 | after that history the survivor test rejects "arose" and accepts "unlit" |
| Examples.UnlitSurvives | test/test_solver.py:38-45 | of ["arose", "unlit"] exactly "unlit" survives |
| Examples.AroseThenUnlit | test/test_solver.py:38-45 | the selector returns "unlit", the list ["unlit"] and the count 1 |
| Examples.GorgeLower | test/test_wordle.py:14-16 | "gorge" is unchanged by lowering |
| Examples.GorgeGame | test/test_wordle.py:14-15 | a one-word game on "gorge" starts in play with no guesses |
| Examples.GorgeSolved | test/test_wordle.py:14-18 | guessing "gorge" gives five right-spot tiles and the solved state |
| Examples.FeedbackGorge | test/test_wordle.py:16-18 | a guess equal to the secret scores all right-spot |
| Examples.GorgeNoOp | test/test_wordle.py:47-50 | a further guess on a solved game returns no clue and changes nothing |
| BinksExamples.LeadHits | game/solver/solver.py:104-111 | when position 0 is the only unknown place, a survivor contributes a letter once if it starts with that letter and the letter is not absent, and never otherwise |
| BinksExamples.FamilyFreq | game/solver/solver.py:102-112 | when position 0 is the only unknown place, the global count of a letter over "-inks" survivors is the number of survivors it heads, and 0 if it is absent |
| BinksExamples.InksScore | game/solver/solver.py:124-142 | when i, n, k and s count nothing, an "-inks" word scores minus the count of its first letter |
| BinksExamples.AbcdeScore | game/solver/solver.py:124-142 | "abcde" has five distinct letters, so it scores minus the sum of their five counts |
| BinksExamples.InksBoost | game/solver/solver.py:162-168 | an "-inks" word is not boosted when its first letter is no right-place letter and positions 1-4 each hold one survivor letter |
| BinksExamples.InksMusts | game/solver/solver.py:90-93 | "-inks" survivors with two distinct first letters hold exactly i, n, k, s at positions 1-4 and more than one letter at position 0 |
| BinksExamples.InksUnknown | game/solver/solver.py:98-99 | with i, n, k, s recorded at positions 1-4, position 0 is the only unknown place |
| BinksExamples.InksPromote | game/solver/solver.py:94-97 | promoting the single-letter positions of such survivors records nothing new |
| BinksExamples.InksContext | game/solver/solver.py:90-112 | such survivors leave the right-place letters unchanged, position 0 alone unknown, and one letter at each of positions 1-4 |
| BinksExamples.InksGuessable | game/solver/util.py:10-42 | against greens i, n, k, s at 1-4, nothing wrong-place and none of i, n, k, s absent, an "-inks" word is consistent exactly when its first letter is not absent |
| BinksExamples.InksSurvives | game/solver/solver.py:75-76 | such a word, not played before, survives exactly when its first letter is not absent |
| BinksExamples.FamilyMass | game/solver/solver.py:115-116 | two consistent "-inks" survivors with distinct first letters give the tables some mass, so the zero-frequency error is not raised |
| BinksExamples.FirstClues | test/test_solver.py:48 | "binks" scored grey then four greens: i, n, k, s right at 1-4, 'b' absent, "binks" played, and the game not solved |
| BinksExamples.FirstSurvivors | game/solver/solver.py:75-76 | after that clue, the survivors of "binks", any family of "-inks" words with fresh first letters, and "abcde" are exactly the family |
| BinksExamples.FirstPool | game/solver/solver.py:150-151 | the explorable list is the whole list without "binks" |
| BinksExamples.FirstWins | game/solver/solver.py:152-181 | "abcde" scores -3 against -1 for every "-inks" word, so it wins all three ranking stages |
| BinksExamples.FirstCall | game/solver/solver.py:64-182 | for every such family that contains cinks, dinks and einks, the selector explores with "abcde" and reports the survivors (the first five when there are more) and their number |
| BinksExamples.ExploresWithAbcde | test/test_solver.py:47-53 | on the test's list the first call returns "abcde", the survivors cinks to ginks, and the count of six, which is the list's length minus 2 |
| BinksExamples.FoldAbcde | test/test_solver.py:54 | "abcde" scored all grey adds a, b, c, d, e to the absent letters and changes nothing else |
| BinksExamples.SecondClues | test/test_solver.py:54 | both clues together: i, n, k, s right at 1-4, a to e absent, both words played, and the game not solved |
| BinksExamples.SecondSurvivors | game/solver/solver.py:75-76 | after both clues only the "-inks" words whose first letter comes after e survive |
| BinksExamples.SecondPool | game/solver/solver.py:150-151 | the explorable list is every "-inks" word except "binks" |
| BinksExamples.SecondScores | game/solver/solver.py:124-142 | against the survivors' tables, the cinks, dinks and einks words score 0 and every other "-inks" word scores -1 |
| BinksExamples.SecondWins | game/solver/solver.py:152-181 | the survivor with the least first letter has the least score, ties on the boost, and is the least string of the tied words |
| BinksExamples.SecondCall | game/solver/solver.py:64-182 | for every such family, whose heads after c, d, e number at least two with the least first, the second call explores and returns the survivor with that least head, the survivors (the first five when there are more) and their number |
| BinksExamples.ChoosesFinks | test/test_solver.py:54-58 | on the test's list the second call returns "finks", the survivors finks, ginks and hinks, and the count 3 |

## Left out

- main.py, the vision code, the dictionary loader, all printing, `emojify` and the `debug`/`verbose` switches are left out. They are I/O or presentation.
- The `sort=False` branch of the positional scorer (game/solver/solver.py:143-146) returns a diagnostic tuple. It is used only by debugging code, so it is not modelled.
- `use_conditional` is read by nothing in the core.
- Scores are modelled as `real`, not floating point. NON_POS_WEIGHT is a real number and no rounding is modelled.
- `str.lower()` is modelled as the ASCII A-Z to a-z map. Other Unicode case mappings are not modelled.
- The body of `parse_clues` is not part of the source files (game/solver/util.py does not define it). `ParseClues` is a left-to-right fold over each (guess, clue) pair. It is fixed by the three expectations in test/test_solver.py:7-21, and no other behaviour of it is claimed.
- Consistency.Insert: `word_right_place[letter].add(ix)` (game/solver/solver.py:97) is modelled as creating the letter's entry when it is missing. That is right only if `parse_clues` returns a `defaultdict(set)`. Its body is not part of the source files. With a plain dictionary, promoting a letter that is not yet a right-place letter would raise `KeyError`, and that error is not modelled.
- Clues hold the `Tile` datatype, so a tile code outside 0..2 cannot be written down.
- Solver.GuessNextWord: when the heuristic path is taken with a `word_set` of one length, it requires every candidate and guess word to have that length and to use only the letters a..z. The tree path and the mixed-length error need no such requirement. `SolveLoop.SolveWordle` and `SolveLoop.Round` have the same requirement. The source's behaviour outside it is not modelled. A candidate shorter than N raises `IndexError` when `new_musts` is built (game/solver/solver.py:93). A candidate longer than N is accepted by the source and is excluded here. A character outside a..z makes `ord(c) - ord('a')` (game/solver/solver.py:131) index outside the 26-slot table, or wrap round to another slot when the index is negative.
- SolverProperties.FrequencyNeverZero needs two *distinct* survivors. A candidate list that repeats one word can still reach the zero-frequency error.
- The `IndexError` that `explorable[0]` raises on an empty explorable list (game/solver/solver.py:153) is modelled as the `NoExplorable` error.
- The solver settings have no default for `non_pos_weight`, which game/solver/solver.py:68 reads. So the weight is a field of `SolverConfig`, and `Examples.Defaults` sets it to 1.
- `solve_wordle` returns nothing when all MAX_GUESSES rounds pass without the game ending. This is the `Exhausted` outcome.
- `SolveLoop.SolveWordle` also returns the clue history of its last selector call. The source keeps that history in a local variable. It is returned so that the contract can say which call the reported survivor list comes from.
- `solve_wordle` passes a `None` guess to `Wordle.guess`. That call fails while the game is in play, and this is the `NoGuessWord` error. `SolveLoop.SolveWordle` proves that it cannot happen.
- The complete six-guess games of test/test_wordle.py:32-70 are not replayed. Their first and fifth clues are proved (`Examples.FeedbackSteal`, `Examples.FeedbackTeals`), and `Game.Guess` states the state changes in general.
- The tests of test/test_wordle.py call a `Wordle` constructor signature that game/wordle.py:16 does not have. They are modelled against the actual constructor `NewWordle(wordSet, word, maxGuesses)`.
- The global frequency table counts every occurrence of a letter at an unknown position (game/solver/solver.py:111). It does not count the number of candidates that contain the letter. The model follows the code.
