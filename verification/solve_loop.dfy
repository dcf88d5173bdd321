/** `solve_wordle` (game/solver/solver.py:8-29): the solver plays a game round
    by round, feeding each clue it receives back into the next choice. */
module SolveLoop {
  import opened Results
  import opened Tiles
  import opened Game
  import opened Consistency
  import opened Solver
  import SolverProperties
  import WordSet

  /** What `solve_wordle` returns: `(True, rounds, cands)` when the game ends
      solved, `(False, -1, cands)` when it ends unsolved, and nothing at all
      when every round passes with the game still in play. */
  datatype Outcome = Won(rounds: int, cands: seq<string>) | Lost(cands: seq<string>) | Exhausted

  /** Every recorded clue is the game's feedback for the lowered guess. */
  predicate Reported(clues: seq<Attempt>, secret: string) {
    forall k :: 0 <= k < |clues| ==>
      |Lower(clues[k].word)| == |secret| && clues[k].clue == Feedback(Lower(clues[k].word), secret)
  }

  /** `g` is `start` after some more guesses: same secret and settings, the
      old guesses kept as a prefix. */
  predicate Continues(g: Wordle, start: Wordle) {
    && g == start.(guesses := g.guesses, state := g.state)
    && |start.guesses| <= |g.guesses|
    && g.guesses[..|start.guesses|] == start.guesses
  }

  /** Lower-casing leaves a lower-case word unchanged. */
  lemma {:induction false} LowerIdentity(w: string)
    requires LowerWord(w)
    ensures Lower(w) == w
  {
    if |w| > 0 {
      LowerIdentity(w[1..]);
    }
  }

  /** Clues reported for lower-case words are truthful in the solver's sense. */
  lemma ReportedTruthful(clues: seq<Attempt>, secret: string)
    requires Reported(clues, secret)
    requires forall k :: 0 <= k < |clues| ==> LowerWord(clues[k].word)
    ensures Truthful(clues, secret)
  {
    forall k | 0 <= k < |clues|
      ensures |clues[k].word| == |secret| && clues[k].clue == Feedback(clues[k].word, secret)
    {
      LowerIdentity(clues[k].word);
    }
  }

  /** In play, the secret is none of the words already fed to the solver. */
  lemma SecretUnplayed(clues: seq<Attempt>, g: Wordle)
    requires Inv(g) && g.state == Playing
    requires forall k :: 0 <= k < |clues| ==> Lower(clues[k].word) in g.guesses
    requires forall k :: 0 <= k < |clues| ==> LowerWord(clues[k].word)
    ensures g.secret !in PrevGuesses(clues)
  {
    forall a | a in clues ensures a.word != g.secret {
      var k :| 0 <= k < |clues| && clues[k] == a;
      LowerIdentity(a.word);
    }
  }

  /** What holds before round `i` (counting from 0) of the loop that started on `game`. */
  predicate Progress(game: Wordle, cfg: SolverConfig, i: nat, clues: seq<Attempt>, g: Wordle) {
    && (i == 0 ==> g == game && clues == [])
    && (i > 0 ==> g.state == Playing && game.state == Playing)
    && Inv(g) && Continues(g, game)
    && |g.guesses| == |game.guesses| + i
    && Reported(clues, g.secret)
    && (forall k :: 0 <= k < |clues| ==> Lower(clues[k].word) in g.guesses)
    && (!UsesTree(cfg) ==> forall k :: 0 <= k < |clues| ==> clues[k].word in cfg.candidateSet + cfg.guessSet)
    && (g.state == Playing ==> |clues| == 0 || !IsAllRight(Last(clues).clue))
  }

  /** The survivor list a win or a loss carries. */
  function OutcomeCands(o: Outcome): seq<string> {
    match o
    case Won(_, cands) => cands
    case Lost(cands) => cands
    case Exhausted => []
  }

  /** How a run of the loop may end: the game it leaves continues the one it
      was given; a win is reported exactly for a game in play that became
      solved (or one solved already), a loss exactly for one that became
      unsolved; both carry the survivor list of the last selector call, made
      on the honest history `asked`; running out of rounds happens only for a
      game still in play after them all; and a game in play never meets a
      declined guess, nor (when the secret is a candidate and no tree is used)
      an empty candidate list. */
  predicate Settles(game: Wordle, cfg: SolverConfig, r: Result<Outcome>, g: Wordle, asked: seq<Attempt>) {
    && Inv(g) && Continues(g, game)
    && (r.Success? && r.value.Won? ==> 1 <= r.value.rounds <= cfg.maxGuesses && g.state == Solved)
    && (game.state == Playing && g.state == Solved ==> r.Success? && r.value.Won?)
    && (game.state == Playing && g.state == Unsolved ==> r.Success? && r.value.Lost?)
    && ((ReachesHeuristic(cfg) ==> ValidConfig(cfg)) && r.Success? && !r.value.Exhausted? ==>
          && Reported(asked, g.secret)
          && GuessNextWord(asked, cfg).Success?
          && OutcomeCands(r.value) == GuessNextWord(asked, cfg).value.cands)
    && (r.Success? && r.value.Won? && game.state == Playing ==>
          |g.guesses| == |game.guesses| + r.value.rounds && g.guesses[|g.guesses| - 1] == g.secret)
    && (r.Success? && r.value.Lost? ==> g.state == Unsolved)
    && (r == Success(Exhausted) ==>
          || (cfg.maxGuesses <= 0 && g == game)
          || (g.state == Playing && |g.guesses| == |game.guesses| + cfg.maxGuesses))
    && (game.state != Playing && cfg.maxGuesses >= 1 ==> r != Success(Exhausted))
    && (game.state == Playing ==> r != Failure(NoGuessWord))
    && (game.state == Playing && !UsesTree(cfg) && game.secret in cfg.candidateSet ==> r != Failure(NoCandidates))
  }

  /** A selector failure in the middle of a game in play is never a declined
      guess, and is not "no candidates" while the secret is a candidate. */
  lemma StepFailureSound(game: Wordle, cfg: SolverConfig, i: nat, clues: seq<Attempt>, g: Wordle)
    requires (ReachesHeuristic(cfg) ==> ValidConfig(cfg)) && Progress(game, cfg, i, clues, g)
    ensures var step := GuessNextWord(clues, cfg);
            && step != Failure(NoGuessWord)
            && (game.state == Playing && !UsesTree(cfg) && game.secret in cfg.candidateSet ==>
                  step != Failure(NoCandidates))
  {
    SolverProperties.SelectorErrors(clues, cfg);
    if game.state == Playing && !UsesTree(cfg) && game.secret in cfg.candidateSet
       && WordSet.SameLength(WordsOf(cfg)) {
      forall k | 0 <= k < |clues| ensures LowerWord(clues[k].word) {
        assert clues[k].word in cfg.candidateSet + cfg.guessSet;
      }
      assert g.state == Playing;
      ReportedTruthful(clues, g.secret);
      SecretUnplayed(clues, g);
      SolverProperties.SecretKeepsCandidates(clues, cfg, g.secret);
    }
  }

  /** The clues after a round: the game's clue is recorded when it is non-empty. */
  function Record(clues: seq<Attempt>, word: string, t: Turn): seq<Attempt> {
    if t.clue.Some? && |t.clue.value| > 0 then clues + [Attempt(word, t.clue.value)] else clues
  }

  /** One more guess `w` that leaves the game in play, with its clue recorded
      when non-empty, keeps the loop's facts. */
  lemma Extend(game: Wordle, cfg: SolverConfig, i: nat, clues: seq<Attempt>, g: Wordle,
               word: string, clue: seq<Tile>, g2: Wordle)
    requires Progress(game, cfg, i, clues, g) && g.state == Playing
    requires |Lower(word)| == |g.secret| && clue == Feedback(Lower(word), g.secret) && Lower(word) != g.secret
    requires g2 == g.(guesses := g.guesses + [Lower(word)], state := Playing) && Inv(g2)
    requires !UsesTree(cfg) ==> word in cfg.candidateSet + cfg.guessSet
    ensures Progress(game, cfg, i + 1, if |clue| > 0 then clues + [Attempt(word, clue)] else clues, g2)
  {
    assert g2.guesses[..|game.guesses|] == g.guesses[..|game.guesses|];
    if |clue| > 0 {
      var clues' := clues + [Attempt(word, clue)];
      ReportedSnoc(clues, word, clue, g.secret);
      assert forall k :: 0 <= k < |clues'| ==> Lower(clues'[k].word) in g2.guesses by {
        forall k | 0 <= k < |clues'| ensures Lower(clues'[k].word) in g2.guesses {
          if k < |clues| {
            assert clues'[k] == clues[k];
          }
        }
      }
      FeedbackSolvesIffEqual(Lower(word), g.secret);
      assert !IsAllRight(Last(clues').clue);
    }
  }

  /** Appending the game's feedback for a word keeps the record truthful. */
  lemma ReportedSnoc(clues: seq<Attempt>, word: string, clue: seq<Tile>, secret: string)
    requires Reported(clues, secret)
    requires |Lower(word)| == |secret| && clue == Feedback(Lower(word), secret)
    ensures Reported(clues + [Attempt(word, clue)], secret)
  {
    var clues' := clues + [Attempt(word, clue)];
    forall k | 0 <= k < |clues'|
      ensures |Lower(clues'[k].word)| == |secret| && clues'[k].clue == Feedback(Lower(clues'[k].word), secret)
    {
      if k < |clues| {
        assert clues'[k] == clues[k];
      }
    }
  }

  /** A guess accepted by a game in play adds the lowered word to its guesses,
      and while the game stays in play the loop's facts carry over. */
  lemma AcceptedGuess(game: Wordle, cfg: SolverConfig, i: nat, clues: seq<Attempt>, g: Wordle, word: string)
    requires Progress(game, cfg, i, clues, g) && g.state == Playing
    requires Guess(g, word).Success?
    requires !UsesTree(cfg) ==> word in cfg.candidateSet + cfg.guessSet
    ensures var t := Guess(g, word).value;
            && Inv(t.game) && Continues(t.game, game)
            && |t.game.guesses| == |game.guesses| + i + 1
            && t.game.guesses[|t.game.guesses| - 1] == Lower(word)
            && (t.state == Playing ==> Progress(game, cfg, i + 1, Record(clues, word, t), t.game))
  {
    var t := Guess(g, word).value;
    assert t.game.guesses[..|game.guesses|] == g.guesses[..|game.guesses|];
    if t.state == Playing {
      Extend(game, cfg, i, clues, g, word, t.clue.value, t.game);
    }
  }

  /** Round `i` of `solve_wordle`: ask the selector, hand its word to the game,
      record the clue, and stop when the game ends or an error occurs. */
  method Round(game: Wordle, cfg: SolverConfig, i: nat, clues: seq<Attempt>, g: Wordle)
    returns (stop: Option<Result<Outcome>>, clues': seq<Attempt>, g': Wordle)
    requires (ReachesHeuristic(cfg) ==> ValidConfig(cfg)) && i < cfg.maxGuesses && Progress(game, cfg, i, clues, g)
    ensures stop.None? ==> Progress(game, cfg, i + 1, clues', g')
    ensures stop.Some? ==> Settles(game, cfg, stop.value, g', clues) && stop.value != Success(Exhausted)
  {
    clues', g' := clues, g;
    var step := GuessNextWord(clues, cfg);
    if step.Failure? {
      StepFailureSound(game, cfg, i, clues, g);
      return Some(Failure(step.error)), clues', g';
    }
    var choice := step.value;
    SolverProperties.NoneOnlyWhenSolved(clues, cfg);
    if choice.chosen.None? {
      if g.state == Playing {
        return Some(Failure(NoGuessWord)), clues', g';
      }
      return Some(Success(if g.state == Solved then Won(i + 1, choice.cands) else Lost(choice.cands))), clues', g';
    }
    var word := choice.chosen.value;
    var turn := Guess(g, word);
    if turn.Failure? {
      return Some(Failure(turn.error)), clues', g';
    }
    if g.state != Playing {
      return Some(Success(if g.state == Solved then Won(i + 1, choice.cands) else Lost(choice.cands))), clues', g';
    }
    if !UsesTree(cfg) {
      SolverProperties.SelectorErrors(clues, cfg);
      assert ReachesHeuristic(cfg);
      SolverProperties.ChosenFromVocabulary(clues, cfg);
    }
    AcceptedGuess(game, cfg, i, clues, g, word);
    clues', g' := Record(clues, word, turn.value), turn.value.game;
    if turn.value.state == Solved {
      return Some(Success(Won(i + 1, choice.cands))), clues', g';
    }
    if turn.value.state == Unsolved {
      return Some(Success(Lost(choice.cands))), clues', g';
    }
    stop := None;
  }
  /** `solve_wordle`: up to `max_guesses` rounds. Errors of the selector and
      of the game propagate; a round whose selector declines to guess while
      the game is still in play is `NoGuessWord` (the game would be handed
      `None`). */
  method SolveWordle(game: Wordle, cfg: SolverConfig) returns (r: Result<Outcome>, final: Wordle, asked: seq<Attempt>)
    requires Inv(game) && (ReachesHeuristic(cfg) ==> ValidConfig(cfg))
    ensures Settles(game, cfg, r, final, asked)
  {
    var clues: seq<Attempt> := [];
    final := game;
    asked := [];
    var i: nat := 0;
    while i < cfg.maxGuesses
      invariant i == 0 || i <= cfg.maxGuesses
      invariant Progress(game, cfg, i, clues, final)
    {
      var stop;
      asked := clues;
      stop, clues, final := Round(game, cfg, i, clues, final);
      if stop.Some? {
        return stop.value, final, asked;
      }
      i := i + 1;
    }
    r := Success(Exhausted);
  }
}
