/** What `guess_next_word` promises its callers, proved of the Solver model. */
module SolverProperties {
  import opened Results
  import opened Tiles
  import WordSet
  import opened Consistency
  import opened Ranking
  import opened Solver
  import Sets

  /** Every candidate and guess word has the length N the selector computes. */
  lemma VocabularyLength(cfg: SolverConfig)
    requires ValidConfig(cfg) && |cfg.candidateSet| > 0
    ensures |WordsOf(cfg)| > 0
    ensures WordSet.GetN(WordsOf(cfg)) == Success(|WordsOf(cfg)[0]|)
    ensures forall w :: w in cfg.candidateSet ==> |w| == |WordsOf(cfg)[0]|
    ensures forall w :: w in WordsOf(cfg) ==> |w| == |WordsOf(cfg)[0]|
  {
    var all := cfg.candidateSet + cfg.guessSet;
    var ws := WordsOf(cfg);
    assert ws[0] in all;
    forall w | w in all ensures |w| == |ws[0]| {
      var i :| 0 <= i < |all| && all[i] == w;
      var j :| 0 <= j < |all| && all[j] == ws[0];
    }
    assert forall w :: w in ws ==> w in all;
    assert WordSet.SameLength(ws);
  }

  /** The candidates that survive the clues: unplayed and consistent. */
  ghost predicate NoSurvivor(cfg: SolverConfig, clues: seq<Attempt>) {
    forall w :: w in cfg.candidateSet ==> !Survives(w, PrevGuesses(clues), ParseClues(clues))
  }

  /** Where the heuristic path stops, by the number of survivors. */
  lemma HeuristicCases(clues: seq<Attempt>, cfg: SolverConfig)
    requires ValidConfig(cfg) && |cfg.candidateSet| > 0 && !UsesTree(cfg)
    ensures var r := GuessNextWord(clues, cfg);
            var cands := Candidates(cfg, clues);
            && (SolvedAlready(clues, ParseClues(clues)) ==> r == Success(Choice(None, [], 0)))
            && (!SolvedAlready(clues, ParseClues(clues)) && |cands| == 0 ==> r == Failure(NoCandidates))
            && (!SolvedAlready(clues, ParseClues(clues)) && |cands| > 0 ==> r != Failure(NoCandidates))
  {
    VocabularyLength(cfg);
  }

  /** There are no survivors exactly when no candidate is unplayed and consistent. */
  lemma NoSurvivorMeansEmpty(clues: seq<Attempt>, cfg: SolverConfig)
    ensures |Candidates(cfg, clues)| == 0 <==> NoSurvivor(cfg, clues)
  {
    var cands := Candidates(cfg, clues);
    if |cands| > 0 {
      assert cands[0] in cands;
    }
  }

  /** "No candidates left" is raised exactly when the history is not already
      solved and no candidate is both unplayed and consistent with the clues. */
  lemma NoCandidatesExactly(clues: seq<Attempt>, cfg: SolverConfig)
    requires ValidConfig(cfg) && |cfg.candidateSet| > 0 && !UsesTree(cfg)
    ensures GuessNextWord(clues, cfg) == Failure(NoCandidates) <==>
              !SolvedAlready(clues, ParseClues(clues)) && NoSurvivor(cfg, clues)
  {
    HeuristicCases(clues, cfg);
    NoSurvivorMeansEmpty(clues, cfg);
  }

  /** Soundness end to end: while the secret is an unplayed candidate and every
      clue is the game's feedback for it, the heuristic never runs out of
      candidates, so that error means the dictionary does not hold the secret. */
  lemma SecretKeepsCandidates(clues: seq<Attempt>, cfg: SolverConfig, secret: string)
    requires ValidConfig(cfg) && !UsesTree(cfg)
    requires Truthful(clues, secret)
    requires secret in cfg.candidateSet && secret !in PrevGuesses(clues)
    ensures GuessNextWord(clues, cfg) != Failure(NoCandidates)
  {
    SecretConsistent(clues, secret);
    NoCandidatesExactly(clues, cfg);
  }

  /** On the heuristic path the chosen word is never one already played. */
  lemma NeverRepeatsGuess(clues: seq<Attempt>, cfg: SolverConfig)
    requires ValidConfig(cfg) && !UsesTree(cfg)
    ensures var r := GuessNextWord(clues, cfg);
              r.Success? && r.value.chosen.Some? ==> r.value.chosen.value !in PrevGuesses(clues)
  {
    if |cfg.candidateSet| > 0 {
      VocabularyLength(cfg);
      var cands := Candidates(cfg, clues);
      if |cands| > 0 {
        assert cands[0] in cands;
      }
    }
  }

  /** After a clue that is all RightSpot on a consistent word, the selector
      has nothing to guess (solver.py:72-73). */
  lemma SolvedExit(clues: seq<Attempt>, cfg: SolverConfig)
    requires ValidConfig(cfg) && |cfg.candidateSet| > 0 && !UsesTree(cfg)
    requires SolvedAlready(clues, ParseClues(clues))
    ensures GuessNextWord(clues, cfg) == Success(Choice(None, [], 0))
  {
    VocabularyLength(cfg);
  }

  lemma FirstSurvivorValue(clues: seq<Attempt>, cfg: SolverConfig)
    requires ValidConfig(cfg) && |cfg.candidateSet| > 0 && !UsesTree(cfg)
    requires !SolvedAlready(clues, ParseClues(clues))
    requires |Candidates(cfg, clues)| == 1 ||
             (|Candidates(cfg, clues)| > 0 && cfg.maxGuesses - |clues| == 1)
    ensures var cands := Candidates(cfg, clues);
            GuessNextWord(clues, cfg) == Success(Choice(Some(cands[0]), cands, |cands|))
  {
    VocabularyLength(cfg);
  }

  /** The exit of solver.py:82-84: with one survivor, or one guess left, the
      selector returns the first survivor in candidate-set order, with the full
      survivor list and its length. */
  lemma FirstSurvivorExit(clues: seq<Attempt>, cfg: SolverConfig)
    requires ValidConfig(cfg) && |cfg.candidateSet| > 0 && !UsesTree(cfg)
    requires !SolvedAlready(clues, ParseClues(clues))
    requires |Candidates(cfg, clues)| == 1 ||
             (|Candidates(cfg, clues)| > 0 && cfg.maxGuesses - |clues| == 1)
    ensures var cands := Candidates(cfg, clues);
            && GuessNextWord(clues, cfg) == Success(Choice(Some(cands[0]), cands, |cands|))
            && FirstKept(cfg.candidateSet, SurvivorTest(clues), cands[0])
  {
    FirstSurvivorValue(clues, cfg);
    FilterFirst(cfg.candidateSet, SurvivorTest(clues));
  }

  /** A single survivor is the only unplayed candidate consistent with the clues. */
  lemma SingleSurvivorIsOnlyOne(clues: seq<Attempt>, cfg: SolverConfig)
    requires |Candidates(cfg, clues)| == 1
    ensures forall w :: w in cfg.candidateSet && SurvivorTest(clues)(w) ==> w == Candidates(cfg, clues)[0]
  {
    var cands := Candidates(cfg, clues);
    forall w | w in cfg.candidateSet && SurvivorTest(clues)(w) ensures w == cands[0] {
      assert w in cands;
    }
  }

  /** In hard mode the explorable pool is the survivor list, so indexing it never fails. */
  lemma StrictModeAlwaysExplores(clues: seq<Attempt>, cfg: SolverConfig)
    requires ValidConfig(cfg) && !cfg.nonStrict
    ensures GuessNextWord(clues, cfg) != Failure(NoExplorable)
  {
    if |cfg.candidateSet| > 0 && !UsesTree(cfg) {
      VocabularyLength(cfg);
      var cons := ParseClues(clues);
      var prev := PrevGuesses(clues);
      var cands := Candidates(cfg, clues);
      if |cands| > 0 {
        assert cands[0] in cands;
        assert cands[0] in Explorable(cfg, prev, cands);
      }
    }
  }

  /** Clue accumulation never revives a candidate: the survivors after one more
      attempt are among the survivors before it. */
  lemma SurvivorsShrink(cfg: SolverConfig, h: seq<Attempt>, a: Attempt)
    ensures forall w :: w in Candidates(cfg, h + [a]) ==> w in Candidates(cfg, h)
  {
    var h' := h + [a];
    ParseGrows(h, a);
    assert forall b :: b in h ==> b in h';
    forall w | w in Candidates(cfg, h') ensures w in Candidates(cfg, h) {
      Monotone(w, ParseClues(h'), ParseClues(h));
    }
  }

  /** `c` has letter `c[i]` counted at position `i < k`, so its hit count is positive. */
  lemma {:induction false} AllHitsPositive(t: Tally, c: string, k: nat, i: nat)
    requires i < k <= |c| && Hit(t, c, i, c[i])
    ensures AllHits(t, c, k) > 0
  {
    if i < k - 1 {
      AllHitsPositive(t, c, k - 1, i);
    }
  }

  /** A candidate's hit count does not depend on which survivors are tallied. */
  lemma {:induction false} AllHitsIgnoresCands(t: Tally, cs: seq<string>, c: string, k: nat)
    requires k <= |c|
    ensures AllHits(t.(cands := cs), c, k) == AllHits(t, c, k)
  {
    if k > 0 {
      AllHitsIgnoresCands(t, cs, c, k - 1);
    }
  }

  /** One survivor with a counted letter makes the total frequency mass positive. */
  lemma {:induction false} TotalPositive(t: Tally, c: string)
    requires c in t.cands && AllHits(t, c, |c|) > 0
    ensures TotalFreq(t) > 0
    decreases |t.cands|
  {
    if t.cands[0] != c {
      assert c in t.cands[1..];
      AllHitsIgnoresCands(t, t.cands[1..], c, |c|);
      TotalPositive(t.(cands := t.cands[1..]), c);
    }
  }

  /** A position where two consistent words differ is pinned by no right-place letter. */
  lemma DifferingPositionUnpinned(c1: string, c2: string, cons: Constraints, ix: nat)
    requires IsGuessableWord(c1, cons) && IsGuessableWord(c2, cons)
    requires ix < |c1| && ix < |c2| && c1[ix] != c2[ix]
    ensures !Pinned(cons.right, ix)
  {
  }

  /** Two distinct survivors give the frequency tables positive mass: they
      differ at a position that neither the clues nor the promotion pin, and no
      survivor holds an absent letter. */
  lemma MassPositive(cons: Constraints, cands: seq<string>, n: nat, c1: string, c2: string)
    requires c1 in cands && c2 in cands && c1 != c2 && |c1| == n && |c2| == n
    requires IsGuessableWord(c1, cons) && IsGuessableWord(c2, cons)
    ensures TotalFreq(BuildContext(cons, cands, n).tally) > 0
  {
    var ix :| 0 <= ix < n && c1[ix] != c2[ix];
    var ctx := BuildContext(cons, cands, n);
    assert c1[ix] in ctx.musts[ix] && c2[ix] in ctx.musts[ix];
    if |ctx.musts[ix]| == 1 {
      Sets.SingletonElements(ctx.musts[ix], c1[ix], c2[ix]);
      assert false;
    }
    DifferingPositionUnpinned(c1, c2, cons, ix);
    assert !Pinned(ctx.right, ix);
    assert ix in ctx.tally.unknown;
    assert Hit(ctx.tally, c1, ix, c1[ix]);
    AllHitsPositive(ctx.tally, c1, |c1|, ix);
    TotalPositive(ctx.tally, c1);
  }

  /** Only the exploration stage reports a zero frequency mass, and only when
      the tables built from the survivors are empty. */
  lemma ZeroFrequencyOnlyFromTables(clues: seq<Attempt>, cfg: SolverConfig)
    requires ValidConfig(cfg) && |cfg.candidateSet| > 0 && !UsesTree(cfg)
    ensures GuessNextWord(clues, cfg) == Failure(NoFrequency) ==>
              TotalFreq(BuildContext(ParseClues(clues), Candidates(cfg, clues), |WordsOf(cfg)[0]|).tally) == 0
  {
    VocabularyLength(cfg);
  }

  /** The "zero frequency" exception is unreachable once two distinct
      candidates survive. */
  lemma FrequencyNeverZero(clues: seq<Attempt>, cfg: SolverConfig, c1: string, c2: string)
    requires ValidConfig(cfg) && |cfg.candidateSet| > 0 && !UsesTree(cfg)
    requires c1 in Candidates(cfg, clues) && c2 in Candidates(cfg, clues) && c1 != c2
    ensures GuessNextWord(clues, cfg) != Failure(NoFrequency)
  {
    VocabularyLength(cfg);
    var n := |WordsOf(cfg)[0]|;
    assert |c1| == n && |c2| == n;
    MassPositive(ParseClues(clues), Candidates(cfg, clues), n, c1, c2);
    ZeroFrequencyOnlyFromTables(clues, cfg);
  }

  /** With two or more survivors and more than one guess left, an unsolved
      history goes on to the exploration stage. */
  lemma ReachesExplore(clues: seq<Attempt>, cfg: SolverConfig)
    requires ValidConfig(cfg) && |cfg.candidateSet| > 0 && !UsesTree(cfg)
    requires !SolvedAlready(clues, ParseClues(clues))
    requires |Candidates(cfg, clues)| > 1 && cfg.maxGuesses - |clues| != 1
    ensures GuessNextWord(clues, cfg) ==
              Explore(cfg, |WordsOf(cfg)[0]|, ParseClues(clues), PrevGuesses(clues), Candidates(cfg, clues))
  {
    VocabularyLength(cfg);
  }

  /** A successful exploration picks the ranking winner of the explorable pool,
      reports the first five survivors and their number, and in hard mode picks
      a survivor. */
  lemma ExploreChoice(cfg: SolverConfig, n: nat, cons: Constraints, prev: set<string>, cands: seq<string>)
    ensures var r := Explore(cfg, n, cons, prev, cands);
            var ctx := BuildContext(cons, cands, n);
            r.Success? ==>
              && r.value.chosen.Some?
              && Wins(Explorable(cfg, prev, cands), PrimaryKey(cfg, ctx.tally), SecondaryKey(ctx.musts, ctx.right),
                      r.value.chosen.value)
              && r.value.cands == Preview(cands)
              && r.value.count == |cands|
              && (!cfg.nonStrict ==> r.value.chosen.value in cands)
  {
  }

  /** The heuristic's choice wins every stage of the ranking of the explorable
      pool, comes with the first five survivors and their number, and in hard
      mode is itself a survivor. */
  lemma ChosenWinsRanking(clues: seq<Attempt>, cfg: SolverConfig)
    requires ValidConfig(cfg) && |cfg.candidateSet| > 0 && !UsesTree(cfg)
    requires |Candidates(cfg, clues)| > 1 && cfg.maxGuesses - |clues| != 1
    ensures var r := GuessNextWord(clues, cfg);
            var cands := Candidates(cfg, clues);
            var ctx := BuildContext(ParseClues(clues), cands, |WordsOf(cfg)[0]|);
            var pool := Explorable(cfg, PrevGuesses(clues), cands);
            r.Success? && r.value.chosen.Some? ==>
              && Wins(pool, PrimaryKey(cfg, ctx.tally), SecondaryKey(ctx.musts, ctx.right), r.value.chosen.value)
              && r.value.cands == Preview(cands)
              && r.value.count == |cands|
              && (!cfg.nonStrict ==> r.value.chosen.value in cands)
  {
    VocabularyLength(cfg);
    if !SolvedAlready(clues, ParseClues(clues)) {
      ReachesExplore(clues, cfg);
      ExploreChoice(cfg, |WordsOf(cfg)[0]|, ParseClues(clues), PrevGuesses(clues), Candidates(cfg, clues));
    } else {
      SolvedExit(clues, cfg);
    }
  }

  /** On the tree path, a history step whose guess, or whose clue string, is
      missing at the level reached fails the whole lookup, whatever follows it. */
  lemma TreeRejectsUnknownStep(cfg: SolverConfig, h: seq<Attempt>, a: Attempt, rest: seq<Attempt>)
    requires |cfg.candidateSet| > 0 && UsesTree(cfg)
    requires Walk(cfg.solutionTree.value, h).Success?
    requires var node := Walk(cfg.solutionTree.value, h).value;
             || Lookup(node, a.word).None?
             || Lookup(Lookup(node, a.word).value, ClueString(a.clue)).None?
    ensures GuessNextWord(h + [a] + rest, cfg) == Failure(TreeMismatch)
  {
    var t := cfg.solutionTree.value;
    WalkAppend(t, h, [a]);
    WalkAppend(t, h + [a], rest);
  }

  /** On the heuristic path every chosen word comes from the vocabulary. */
  lemma ChosenFromVocabulary(clues: seq<Attempt>, cfg: SolverConfig)
    requires ValidConfig(cfg) && !UsesTree(cfg)
    ensures var r := GuessNextWord(clues, cfg);
              r.Success? && r.value.chosen.Some? ==> r.value.chosen.value in cfg.candidateSet + cfg.guessSet
  {
    if |cfg.candidateSet| > 0 {
      VocabularyLength(cfg);
      var cands := Candidates(cfg, clues);
      if |cands| > 0 {
        assert cands[0] in cands;
      }
    }
  }

  /** Both paths decline to guess only after a history whose last clue is all
      right-spot. */
  lemma NoneOnlyWhenSolved(clues: seq<Attempt>, cfg: SolverConfig)
    requires ReachesHeuristic(cfg) ==> ValidConfig(cfg)
    ensures var r := GuessNextWord(clues, cfg);
              r.Success? && r.value.chosen.None? ==> |clues| > 0 && IsAllRight(Last(clues).clue)
  {
    if ReachesHeuristic(cfg) {
      VocabularyLength(cfg);
    }
  }

  /** Which path raises which error: a word set of mixed lengths is reported
      exactly when the heuristic path computes N from it, the tree path only
      reports a tree mismatch, and the heuristic's own errors never come from
      the tree path. */
  lemma SelectorErrors(clues: seq<Attempt>, cfg: SolverConfig)
    requires ReachesHeuristic(cfg) ==> ValidConfig(cfg)
    ensures var r := GuessNextWord(clues, cfg);
            r == Failure(MixedWordLengths) <==>
              |cfg.candidateSet| > 0 && !UsesTree(cfg) && !WordSet.SameLength(WordsOf(cfg))
    ensures var r := GuessNextWord(clues, cfg);
            r == Failure(TreeMismatch) ==> UsesTree(cfg)
    ensures var r := GuessNextWord(clues, cfg);
            r.Failure? && r.error in {NoCandidates, NoFrequency, NoExplorable} ==> !UsesTree(cfg) && ReachesHeuristic(cfg)
  {
    if |cfg.candidateSet| > 0 && !UsesTree(cfg) {
      assert |WordsOf(cfg)| > 0;
    }
  }
}
