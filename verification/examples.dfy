/** Worked examples: the cases the repository's unit tests exercise, stated
    about the model. */
module Examples {
  import opened Results
  import opened Tiles
  import opened Game
  import opened Consistency
  import opened Solver
  import WordSet
  import SolverProperties
  import Ranking
  import SolveLoop

  /** `indexall` on "gorge". */
  lemma IndexAllGorge()
    ensures IndexAll("gorge", 'g') == {0, 3}
    ensures IndexAll("gorge", 'o') == {1}
    ensures IndexAll("gorge", 'r') == {2}
    ensures IndexAll("gorge", 'e') == {4}
    ensures IndexAll("gorge", 'a') == {}
  {
  }

  /** `is_guessable_word` on "tesla" with only absent letters. */
  lemma GuessableTeslaAbsent()
    ensures !IsGuessableWord("tesla", Constraints(map[], map[], {'a', 'b', 'c', 'd'}))
    ensures IsGuessableWord("tesla", Constraints(map[], map[], set c | 'b' <= c <= 'z' && c !in "tesla"))
  {
    assert "tesla"[4] == 'a';
  }

  /** `is_guessable_word` on "tesla" with only wrong-place letters: an 's'
      recorded at its own position rejects the word, 's' recorded elsewhere
      does not. */
  lemma GuessableTeslaWrongS()
    ensures !IsGuessableWord("tesla", Constraints(map[], map['s' := {2}], {}))
    ensures IsGuessableWord("tesla", Constraints(map[], map['s' := {0, 1, 3, 4}], {}))
  {
    var c := Constraints(map[], map['s' := {2}], {});
    assert "tesla"[2] == 's' && 2 in c.wrong['s'];
    assert !WrongPlaceHolds("tesla", c);
    var w := "tesla";
    var c' := Constraints(map[], map['s' := {0, 1, 3, 4}], {});
    assert WrongPlaceHolds(w, c') by {
      forall l | l in c'.wrong
        ensures l in w && forall i :: 0 <= i < |w| && w[i] == l ==> i !in c'.wrong[l]
      {
        assert w[2] == 's';
        assert forall i :: 0 <= i < |w| && w[i] == 's' ==> i == 2;
      }
    }
  }

  /** Two wrong-place letters: one at its own position is enough to reject. */
  lemma GuessableTeslaWrongTE()
    ensures !IsGuessableWord("tesla", Constraints(map[], map['t' := {0}, 'e' := {2}], {}))
    ensures IsGuessableWord("tesla", Constraints(map[], map['t' := {1, 2, 3, 4}, 'e' := {0, 2, 3, 4}], {}))
  {
    var c := Constraints(map[], map['t' := {0}, 'e' := {2}], {});
    assert "tesla"[0] == 't' && 0 in c.wrong['t'];
    assert !WrongPlaceHolds("tesla", c);
    var w := "tesla";
    var c' := Constraints(map[], map['t' := {1, 2, 3, 4}, 'e' := {0, 2, 3, 4}], {});
    assert WrongPlaceHolds(w, c') by {
      forall l | l in c'.wrong
        ensures l in w && forall i :: 0 <= i < |w| && w[i] == l ==> i !in c'.wrong[l]
      {
        assert w[0] == 't' && w[1] == 'e';
        assert forall i :: 0 <= i < |w| && w[i] == 't' ==> i == 0;
        assert forall i :: 0 <= i < |w| && w[i] == 'e' ==> i == 1;
      }
    }
  }

  /** `is_guessable_word` on "tesla" with only right-place letters: 't'
      recorded away from position 0 rejects the word. */
  lemma GuessableTeslaRightMisplaced()
    ensures !IsGuessableWord("tesla", Constraints(map['t' := {1, 2, 3, 4}], map[], {}))
  {
    var w := "tesla";
    var c := Constraints(map['t' := {1, 2, 3, 4}], map[], {});
    assert 1 in c.right['t'] && w[1] != 't';
    assert !RightPlaceHolds(w, c);
  }

  /** Every letter of "tesla" recorded at its own position accepts it. */
  lemma GuessableTeslaRightExact()
    ensures IsGuessableWord("tesla", Constraints(map['t' := {0}, 'e' := {1}, 's' := {2}, 'l' := {3}, 'a' := {4}], map[], {}))
  {
    var w := "tesla";
    var c' := Constraints(map['t' := {0}, 'e' := {1}, 's' := {2}, 'l' := {3}, 'a' := {4}], map[], {});
    assert RightPlaceHolds(w, c') by {
      forall l | l in c'.right
        ensures l in w && forall ix :: ix in c'.right[l] ==> ix < |w| && w[ix] == l
      {
        assert w[0] == 't' && w[1] == 'e' && w[2] == 's' && w[3] == 'l' && w[4] == 'a';
      }
    }
  }

  /** A history of one attempt parses to that attempt folded into no constraints. */
  lemma ParseSingle(a: Attempt)
    ensures ParseClues([a]) == AddPositions(Constraints(map[], map[], {}), a, Min(|a.word|, |a.clue|))
  {
    assert [a][..0] == [];
  }

  /** `parse_clues` on "binks" scored grey then four greens. */
  lemma ParseBinksGreen()
    ensures ParseClues([Attempt("binks", [Nothing, RightSpot, RightSpot, RightSpot, RightSpot])]) ==
              Constraints(map['i' := {1}, 'n' := {2}, 'k' := {3}, 's' := {4}], map[], {'b'})
  {
    ParseSingle(Attempt("binks", [Nothing, RightSpot, RightSpot, RightSpot, RightSpot]));
    FoldBinksGreen();
  }

  lemma FoldBinksGreen()
    ensures AddPositions(Constraints(map[], map[], {}), Attempt("binks", [Nothing, RightSpot, RightSpot, RightSpot, RightSpot]), 5) ==
              Constraints(map['i' := {1}, 'n' := {2}, 'k' := {3}, 's' := {4}], map[], {'b'})
  {
    var none: set<nat> := {};
    assert none + {1} == {1} && none + {2} == {2} && none + {3} == {3} && none + {4} == {4};
  }

  /** `parse_clues` on "binks" scored grey then four yellows. */
  lemma ParseBinksYellow()
    ensures ParseClues([Attempt("binks", [Nothing, WrongSpot, WrongSpot, WrongSpot, WrongSpot])]) ==
              Constraints(map[], map['i' := {1}, 'n' := {2}, 'k' := {3}, 's' := {4}], {'b'})
  {
    ParseSingle(Attempt("binks", [Nothing, WrongSpot, WrongSpot, WrongSpot, WrongSpot]));
    FoldBinksYellow();
  }

  lemma FoldBinksYellow()
    ensures AddPositions(Constraints(map[], map[], {}), Attempt("binks", [Nothing, WrongSpot, WrongSpot, WrongSpot, WrongSpot]), 5) ==
              Constraints(map[], map['i' := {1}, 'n' := {2}, 'k' := {3}, 's' := {4}], {'b'})
  {
    var none: set<nat> := {};
    assert none + {1} == {1} && none + {2} == {2} && none + {3} == {3} && none + {4} == {4};
  }

  /** `parse_clues` on "binks" scored all grey. */
  lemma ParseBinksGrey()
    ensures ParseClues([Attempt("binks", [Nothing, Nothing, Nothing, Nothing, Nothing])]) ==
              Constraints(map[], map[], {'b', 'i', 'n', 'k', 's'})
  {
    ParseSingle(Attempt("binks", [Nothing, Nothing, Nothing, Nothing, Nothing]));
    FoldBinksGrey();
  }

  lemma FoldBinksGrey()
    ensures AddPositions(Constraints(map[], map[], {}), Attempt("binks", [Nothing, Nothing, Nothing, Nothing, Nothing]), 5) ==
              Constraints(map[], map[], {'b', 'i', 'n', 'k', 's'})
  {
  }

  /** Feedback judged per position against the whole secret: an anagram of
      the secret is all wrong-spot. */
  lemma FeedbackSteal()
    ensures Feedback("steal", "tesla") == [WrongSpot, WrongSpot, WrongSpot, WrongSpot, WrongSpot]
  {
    var c := Feedback("steal", "tesla");
    assert "tesla"[1] == 'e';
    assert c[0] == WrongSpot;
    assert c[1] == WrongSpot;
    assert c[2] == WrongSpot;
    assert c[3] == WrongSpot;
    assert c[4] == WrongSpot;
  }

  lemma FeedbackTeals()
    ensures Feedback("teals", "tesla") == [RightSpot, RightSpot, WrongSpot, RightSpot, WrongSpot]
  {
    var c := Feedback("teals", "tesla");
    assert c[0] == RightSpot;
    assert c[1] == RightSpot;
    assert "tesla"[4] == 'a';
    assert c[2] == WrongSpot;
    assert c[3] == RightSpot;
    assert "tesla"[2] == 's';
    assert c[4] == WrongSpot;
  }

  /** The default solver settings with a given candidate list. */
  function Defaults(cands: seq<string>): SolverConfig {
    SolverConfig(cands, [], 6, true, true, 1.0, None)
  }

  /** "arose" scored all grey leaves every letter of it absent. */
  lemma FoldArose()
    ensures AddPositions(Constraints(map[], map[], {}), Attempt("arose", [Nothing, Nothing, Nothing, Nothing, Nothing]), 5) ==
              Constraints(map[], map[], {'a', 'r', 'o', 's', 'e'})
  {
  }

  /** With no candidate list the selector refuses to start. */
  lemma AroseNoCandidateSet()
    ensures ValidConfig(Defaults([]))
    ensures GuessNextWord([Attempt("arose", [Nothing, Nothing, Nothing, Nothing, Nothing])], Defaults([])) ==
              Failure(MissingCandidateSet)
  {
  }

  /** The only candidate was already played: nothing survives. */
  lemma AroseAlreadyPlayed()
    ensures ValidConfig(Defaults(["arose"]))
    ensures GuessNextWord([Attempt("arose", [Nothing, Nothing, Nothing, Nothing, Nothing])], Defaults(["arose"])) ==
              Failure(NoCandidates)
  {
    var h := [Attempt("arose", [Nothing, Nothing, Nothing, Nothing, Nothing])];
    var cfg := Defaults(["arose"]);
    assert "arose" in PrevGuesses(h) by {
      assert h[0] in h;
    }
    assert Candidates(cfg, h) == [];
  }

  /** The constraints "arose" scored all grey leaves. */
  lemma AroseConstraints()
    ensures ParseClues([Attempt("arose", [Nothing, Nothing, Nothing, Nothing, Nothing])]) ==
              Constraints(map[], map[], {'a', 'r', 'o', 's', 'e'})
  {
    ParseSingle(Attempt("arose", [Nothing, Nothing, Nothing, Nothing, Nothing]));
    FoldArose();
  }

  /** "unlit" has none of the letters of "arose". */
  lemma UnlitAvoidsArose()
    ensures IsGuessableWord("unlit", Constraints(map[], map[], {'a', 'r', 'o', 's', 'e'}))
  {
    var w := "unlit";
    assert AbsentHolds(w, Constraints(map[], map[], {'a', 'r', 'o', 's', 'e'})) by {
      assert w[0] == 'u' && w[1] == 'n' && w[2] == 'l' && w[3] == 'i' && w[4] == 't';
    }
  }

  /** After "arose" scored all grey, "arose" is out (already played) and
      "unlit" is in (no letter of it was scored grey). */
  lemma AroseSurvivorTest()
    ensures var t := SurvivorTest([Attempt("arose", [Nothing, Nothing, Nothing, Nothing, Nothing])]);
            !t("arose") && t("unlit")
  {
    var h := [Attempt("arose", [Nothing, Nothing, Nothing, Nothing, Nothing])];
    assert h[0] in h;
    assert PrevGuesses(h) == {"arose"};
    AroseConstraints();
    UnlitAvoidsArose();
  }

  /** After "arose" scored all grey, "unlit" alone survives of the two candidates. */
  lemma UnlitSurvives()
    ensures var h := [Attempt("arose", [Nothing, Nothing, Nothing, Nothing, Nothing])];
            Candidates(Defaults(["arose", "unlit"]), h) == ["unlit"] && !SolvedAlready(h, ParseClues(h))
  {
    var h := [Attempt("arose", [Nothing, Nothing, Nothing, Nothing, Nothing])];
    var t := SurvivorTest(h);
    AroseSurvivorTest();
    var s := ["arose", "unlit"];
    assert s[1..] == ["unlit"] && s[1..][1..] == [];
    assert Ranking.Filter(s, t) == Ranking.Filter(["unlit"], t);
    assert !IsAllRight(Last(h).clue);
  }

  /** The played word is skipped and the one consistent word is returned at once. */
  lemma AroseThenUnlit()
    ensures ValidConfig(Defaults(["arose", "unlit"]))
    ensures GuessNextWord([Attempt("arose", [Nothing, Nothing, Nothing, Nothing, Nothing])], Defaults(["arose", "unlit"])) ==
              Success(Choice(Some("unlit"), ["unlit"], 1))
  {
    var h := [Attempt("arose", [Nothing, Nothing, Nothing, Nothing, Nothing])];
    var cfg := Defaults(["arose", "unlit"]);
    assert ValidConfig(cfg);
    UnlitSurvives();
    SolverProperties.FirstSurvivorExit(h, cfg);
  }

  /** "gorge" is a lower-case word. */
  lemma GorgeLower()
    ensures Lower("gorge") == "gorge"
  {
    var w := "gorge";
    assert LowerWord(w) by {
      assert w[0] == 'g' && w[1] == 'o' && w[2] == 'r' && w[3] == 'g' && w[4] == 'e';
    }
    SolveLoop.LowerIdentity(w);
  }

  /** A one-word game on "gorge" starts in play with no guesses. */
  lemma GorgeGame()
    ensures NewWordle(["gorge"], "gorge", 6) == Success(Wordle(5, 6, {"gorge"}, "gorge", [], Playing))
  {
    GorgeLower();
    var words := ["gorge"];
    assert words[0] == "gorge";
    assert (set w | w in words) == {"gorge"};
    assert WordSet.SameLength(words);
  }

  /** Guessing "gorge" solves the game with an all-green clue. */
  lemma GorgeSolved()
    ensures var g := Wordle(5, 6, {"gorge"}, "gorge", [], Playing);
            && Inv(g)
            && Guess(g, "gorge") ==
                 Success(Turn(Some([RightSpot, RightSpot, RightSpot, RightSpot, RightSpot]), Solved,
                              g.(guesses := ["gorge"], state := Solved)))
  {
    var g := Wordle(5, 6, {"gorge"}, "gorge", [], Playing);
    assert Inv(g);
    GorgeLower();
    FeedbackGorge();
    var t := Guess(g, "gorge");
    assert t.Success?;
    assert t.value.state == Solved;
    assert g.guesses + ["gorge"] == ["gorge"];
    assert t.value.game == g.(guesses := ["gorge"], state := Solved);
  }

  /** A guess equal to the secret is all right-spot. */
  lemma FeedbackGorge()
    ensures Feedback("gorge", "gorge") == [RightSpot, RightSpot, RightSpot, RightSpot, RightSpot]
  {
    var c := Feedback("gorge", "gorge");
    assert c[0] == RightSpot && c[1] == RightSpot && c[2] == RightSpot && c[3] == RightSpot && c[4] == RightSpot;
  }

  /** Once solved, a further guess changes nothing. */
  lemma GorgeNoOp()
    ensures var g := Wordle(5, 6, {"gorge"}, "gorge", ["gorge"], Solved);
            && Inv(g)
            && Guess(g, "gorge") == Success(Turn(None, Solved, g))
  {
  }
}
