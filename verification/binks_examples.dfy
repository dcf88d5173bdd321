/** The two selector calls of `test_guess_next_word` on the "binks" family
    (test/test_solver.py:47-58). After "binks" scores grey then four greens,
    six "-inks" words survive and the selector explores with "abcde", the word
    whose letters cover the most survivor mass at the one unknown position.
    After "abcde" scores all grey, three survivors tie on every key and the
    least string, "finks", is chosen. */
module BinksExamples {
  import opened Results
  import opened Tiles
  import opened Consistency
  import opened Solver
  import Ranking
  import Sets
  import SolverProperties
  import ScoringProperties
  import Examples

  // ---------------------------------------------------------------------
  // Frequencies when only position 0 is unknown

  /** A word contributes letter `l` once if it starts with `l` and `l` is not absent, else never. */
  lemma {:induction false} LeadHits(t: Tally, c: string, l: char, k: nat)
    requires t.unknown == {0} && 1 <= k <= |c|
    ensures LetterHits(t, c, l, k) == if c[0] == l && l !in t.absent then 1 else 0
  {
    if k > 1 {
      LeadHits(t, c, l, k - 1);
    }
  }

  // ---------------------------------------------------------------------
  // Sort keys of the words involved

  /** Letters whose global count is zero add nothing to the non-positional mass. */
  lemma {:induction false} ZeroMass(t: Tally, w: string, k: nat, seen: set<char>)
    requires k <= |w|
    requires forall j :: k <= j < |w| ==> GlobalFreq(t, w[j]) == 0
    ensures DistinctMass(t, w, k, seen) == 0
    decreases |w| - k
  {
    if k < |w| {
      ZeroMass(t, w, k + 1, seen);
      ZeroMass(t, w, k + 1, seen + {w[k]});
    }
  }

  /** A five-letter word ending in "inks". */
  predicate Inks(w: string) {
    |w| == 5 && w[1] == 'i' && w[2] == 'n' && w[3] == 'k' && w[4] == 's'
  }

  /** The "-inks" word starting with `x`. */
  function InksWord(x: char): (w: string)
    ensures Inks(w) && w[0] == x
  {
    [x, 'i', 'n', 'k', 's']
  }

  /** The "-inks" words with the given first letters, in order. */
  function Family(heads: string): (f: seq<string>)
    ensures |f| == |heads|
    ensures forall i :: 0 <= i < |heads| ==> f[i] == InksWord(heads[i])
  {
    if |heads| == 0 then [] else [InksWord(heads[0])] + Family(heads[1..])
  }

  lemma {:induction false} FamilyAppend(a: string, b: string)
    ensures Family(a + b) == Family(a) + Family(b)
  {
    if |a| == 0 {
      assert a + b == b;
    } else {
      assert (a + b)[0] == a[0];
      assert (a + b)[1..] == a[1..] + b;
      FamilyAppend(a[1..], b);
    }
  }

  /** With only position 0 unknown, a letter's global count over a family is
      the number of times it heads a word, unless it is absent. */
  lemma {:induction false} FamilyFreq(heads: string, absent: set<char>, l: char)
    ensures GlobalFreq(Tally(Family(heads), {0}, absent), l) == if l in absent then 0 else multiset(heads)[l]
    decreases |heads|
  {
    if |heads| > 0 {
      var t := Tally(Family(heads), {0}, absent);
      var c := InksWord(heads[0]);
      assert t.cands[0] == c && |c| == 5;
      assert t.(cands := t.cands[1..]) == Tally(Family(heads[1..]), {0}, absent);
      LeadHits(t, c, l, 5);
      FamilyFreq(heads[1..], absent, l);
      assert heads == [heads[0]] + heads[1..];
      assert multiset(heads)[l] == (if heads[0] == l then 1 else 0) + multiset(heads[1..])[l];
    }
  }

  /** When i, n, k and s count nothing, an "-inks" word is scored by its first letter alone. */
  lemma InksScore(t: Tally, w: string)
    requires Inks(w)
    requires GlobalFreq(t, 'i') == 0 && GlobalFreq(t, 'n') == 0 && GlobalFreq(t, 'k') == 0 && GlobalFreq(t, 's') == 0
    ensures PositionalScore(t, 1.0, w) == -(GlobalFreq(t, w[0]) as real)
  {
    ScoringProperties.ScorersAgreeAtWeightOne(t, w);
    var none: set<char> := {};
    assert none + {w[0]} == {w[0]};
    ZeroMass(t, w, 1, {w[0]});
  }

  /** "abcde" has five distinct letters, so it is scored by all five counts. */
  lemma AbcdeScore(t: Tally)
    ensures PositionalScore(t, 1.0, "abcde") ==
              -((GlobalFreq(t, 'a') + GlobalFreq(t, 'b') + GlobalFreq(t, 'c') + GlobalFreq(t, 'd') + GlobalFreq(t, 'e')) as real)
  {
    var w := "abcde";
    ScoringProperties.ScorersAgreeAtWeightOne(t, w);
    assert DistinctMass(t, w, 4, {'a', 'b', 'c', 'd'}) == GlobalFreq(t, 'e');
    assert DistinctMass(t, w, 3, {'a', 'b', 'c'}) == GlobalFreq(t, 'd') + GlobalFreq(t, 'e');
    assert DistinctMass(t, w, 2, {'a', 'b'}) == GlobalFreq(t, 'c') + GlobalFreq(t, 'd') + GlobalFreq(t, 'e');
    assert DistinctMass(t, w, 1, {'a'}) ==
             GlobalFreq(t, 'b') + GlobalFreq(t, 'c') + GlobalFreq(t, 'd') + GlobalFreq(t, 'e');
  }

  /** No "-inks" word is boosted: positions 1-4 hold one survivor letter each, and
      its first letter is no right-place letter. */
  lemma InksBoost(musts: seq<set<char>>, right: map<char, set<nat>>, w: string)
    requires Inks(w) && |musts| == 5 && w[0] !in right
    requires forall ix :: 1 <= ix < 5 ==> |musts[ix]| == 1
    ensures Boost(musts, right, w) == 0
  {
    ScoringProperties.BoostCountsPositions(musts, right, w, 5);
    assert ScoringProperties.BoostedPositions(musts, right, w, 5) == {};
  }

  // ---------------------------------------------------------------------
  // The context the survivors induce

  /** The right-place letters "binks" scored green leave. */
  function InksRight(): map<char, set<nat>> {
    map['i' := {1}, 'n' := {2}, 'k' := {3}, 's' := {4}]
  }

  /** Promotion changes nothing when every promoted position is already recorded. */
  lemma PromoteKeeps(right: map<char, set<nat>>, musts: seq<set<char>>, k: nat)
    requires k <= |musts|
    requires forall l, ix: nat :: Promoted(musts, k, l, ix) ==> l in right && ix in right[l]
    ensures Promote(right, musts, k) == right
  {
    var r := Promote(right, musts, k);
    forall l | l in r ensures l in right && r[l] == right[l] {
      forall ix: nat ensures ix in r[l] <==> ix in right[l] {}
    }
  }

  /** The survivor letters at each position: one letter at each of positions
      1-4, and more than one at position 0. */
  lemma InksMusts(cands: seq<string>, c1: string, c2: string)
    requires forall c :: c in cands ==> Inks(c)
    requires c1 in cands && c2 in cands && Inks(c1) && Inks(c2) && c1[0] != c2[0]
    ensures var musts := Musts(cands, 5);
            && musts[1] == {'i'} && musts[2] == {'n'} && musts[3] == {'k'} && musts[4] == {'s'}
            && |musts[0]| != 1
  {
    var musts := Musts(cands, 5);
    forall l ensures l in musts[1] <==> l == 'i' {}
    forall l ensures l in musts[2] <==> l == 'n' {}
    forall l ensures l in musts[3] <==> l == 'k' {}
    forall l ensures l in musts[4] <==> l == 's' {}
    assert c1[0] in musts[0] && c2[0] in musts[0];
    if |musts[0]| == 1 {
      Sets.SingletonElements(musts[0], c1[0], c2[0]);
    }
  }

  /** With i, n, k, s recorded at 1-4, position 0 is the only unknown one. */
  lemma InksUnknown()
    ensures Unknown(InksRight(), 5) == {0}
  {
    var right := InksRight();
    var u := Unknown(right, 5);
    forall ix: nat ensures ix in u <==> ix == 0 {
      if 1 <= ix < 5 {
        assert Pinned(right, ix) by {
          if ix == 1 { assert 'i' in right; }
          else if ix == 2 { assert 'n' in right; }
          else if ix == 3 { assert 'k' in right; }
          else { assert 's' in right; }
        }
      }
    }
  }

  /** Promotion over "-inks" survivors adds nothing to the recorded letters. */
  lemma InksPromote(cands: seq<string>, c1: string, c2: string)
    requires forall c :: c in cands ==> Inks(c)
    requires c1 in cands && c2 in cands && Inks(c1) && Inks(c2) && c1[0] != c2[0]
    ensures Promote(InksRight(), Musts(cands, 5), 5) == InksRight()
  {
    var musts := Musts(cands, 5);
    var right := InksRight();
    InksMusts(cands, c1, c2);
    forall l, ix: nat | Promoted(musts, 5, l, ix) ensures l in right && ix in right[l] {
      if ix == 1 {
        assert l == 'i';
      } else if ix == 2 {
        assert l == 'n';
      } else if ix == 3 {
        assert l == 'k';
      } else {
        assert ix == 4 && l == 's';
      }
    }
    PromoteKeeps(right, musts, 5);
  }

  /** Survivors that share "inks" but not their first letter: position 0 is the
      only unknown one, promotion adds nothing, and positions 1-4 each hold
      one letter. */
  lemma InksContext(cons: Constraints, cands: seq<string>, c1: string, c2: string)
    requires cons.right == InksRight()
    requires forall c :: c in cands ==> Inks(c)
    requires c1 in cands && c2 in cands && Inks(c1) && Inks(c2) && c1[0] != c2[0]
    ensures var ctx := BuildContext(cons, cands, 5);
            && ctx.right == InksRight()
            && ctx.tally == Tally(cands, {0}, cons.absent)
            && |ctx.musts| == 5
            && (forall ix :: 1 <= ix < 5 ==> |ctx.musts[ix]| == 1)
  {
    InksMusts(cands, c1, c2);
    InksPromote(cands, c1, c2);
    InksUnknown();
  }

  /** Against i, n, k, s recorded at 1-4, no wrong-place letter and none of
      i, n, k, s absent, an "-inks" word is consistent iff its first letter
      is not absent. */
  lemma InksGuessable(w: string, cons: Constraints)
    requires Inks(w) && cons.right == InksRight() && cons.wrong == map[]
    requires 'i' !in cons.absent && 'n' !in cons.absent && 'k' !in cons.absent && 's' !in cons.absent
    ensures IsGuessableWord(w, cons) <==> w[0] !in cons.absent
  {
    assert w[1] in w && w[2] in w && w[3] in w && w[4] in w;
  }

  /** The frequency tables of a family of distinct first letters, none absent
      but the ones listed: each present head counts once, i, n, k, s never. */
  lemma FamilyScores(heads: string, absent: set<char>)
    requires forall i, j :: 0 <= i < j < |heads| ==> heads[i] != heads[j]
    requires 'i' !in heads && 'n' !in heads && 'k' !in heads && 's' !in heads
    ensures var t := Tally(Family(heads), {0}, absent);
            forall i :: 0 <= i < |heads| && heads[i] !in absent ==>
              PositionalScore(t, 1.0, InksWord(heads[i])) == -1.0
  {
    var t := Tally(Family(heads), {0}, absent);
    FamilyFreq(heads, absent, 'i');
    FamilyFreq(heads, absent, 'n');
    FamilyFreq(heads, absent, 'k');
    FamilyFreq(heads, absent, 's');
    forall i | 0 <= i < |heads| && heads[i] !in absent
      ensures PositionalScore(t, 1.0, InksWord(heads[i])) == -1.0
    {
      FamilyFreq(heads, absent, heads[i]);
      HeadCountsOnce(heads, i);
      InksScore(t, InksWord(heads[i]));
    }
  }

  /** In a string of distinct letters each letter occurs once. */
  lemma {:induction false} HeadCountsOnce(heads: string, i: nat)
    requires i < |heads|
    requires forall a, b :: 0 <= a < b < |heads| ==> heads[a] != heads[b]
    ensures multiset(heads)[heads[i]] == 1
  {
    assert heads == heads[..i] + [heads[i]] + heads[i + 1..];
    assert heads[i] !in heads[..i] && heads[i] !in heads[i + 1..];
  }

  /** An "-inks" word precedes another in Python's string order when its first letter does. */
  lemma InksLexLe(x: char, y: char)
    requires x <= y
    ensures Ranking.LexLe(InksWord(x), InksWord(y))
  {
    if x == y {
      Ranking.LexLeReflexive(InksWord(x));
    }
  }

  /** An "-inks" word survives a history of words with other first letters iff
      its first letter is not absent. */
  lemma InksSurvives(x: char, prev: set<string>, cons: Constraints)
    requires cons.right == InksRight() && cons.wrong == map[]
    requires 'i' !in cons.absent && 'n' !in cons.absent && 'k' !in cons.absent && 's' !in cons.absent
    requires forall p :: p in prev ==> |p| > 0 && p[0] != x
    ensures Survives(InksWord(x), prev, cons) <==> x !in cons.absent
  {
    InksGuessable(InksWord(x), cons);
  }

  /** The filter over a family keeps it whole when it keeps every member. */
  lemma FamilyKept(heads: string, keep: string -> bool)
    requires forall i :: 0 <= i < |heads| ==> keep(InksWord(heads[i]))
    ensures Ranking.Filter(Family(heads), keep) == Family(heads)
  {
    Ranking.FilterAll(Family(heads), keep);
  }

  /** The filter over a family is empty when it keeps no member. */
  lemma FamilyDropped(heads: string, keep: string -> bool)
    requires forall i :: 0 <= i < |heads| ==> !keep(InksWord(heads[i]))
    ensures Ranking.Filter(Family(heads), keep) == []
  {
    Ranking.FilterNone(Family(heads), keep);
  }

  /** Every member of a family of lower-case heads is a five-letter lower-case word. */
  lemma FamilyLower(heads: string)
    requires forall i :: 0 <= i < |heads| ==> 'a' <= heads[i] <= 'z'
    ensures forall w :: w in Family(heads) ==> |w| == 5 && LowerWord(w)
  {
    forall w | w in Family(heads) ensures |w| == 5 && LowerWord(w) {
      var i :| 0 <= i < |heads| && Family(heads)[i] == w;
      InksLower(heads[i]);
    }
  }

  lemma InksLower(x: char)
    requires 'a' <= x <= 'z'
    ensures LowerWord(InksWord(x))
  {
    var w := InksWord(x);
    forall i | 0 <= i < 5 ensures 'a' <= w[i] <= 'z' {
      assert w == [x, 'i', 'n', 'k', 's'];
    }
  }

  /** Past the early exits, the selector explores. */
  lemma ExploreReached(clues: seq<Attempt>, cfg: SolverConfig)
    requires ValidConfig(cfg) && |cfg.candidateSet| > 0 && !UsesTree(cfg)
    requires !SolvedAlready(clues, ParseClues(clues))
    requires |Candidates(cfg, clues)| > 1 && cfg.maxGuesses - |clues| != 1
    ensures GuessNextWord(clues, cfg) ==
              Explore(cfg, |cfg.candidateSet[0]|, ParseClues(clues), PrevGuesses(clues), Candidates(cfg, clues))
  {
    SolverProperties.VocabularyLength(cfg);
  }

  /** Every member of a family is an "-inks" word. */
  lemma FamilyInks(hs: string)
    ensures forall c :: c in Family(hs) ==> Inks(c)
  {
    forall c | c in Family(hs) ensures Inks(c) {
      var i :| 0 <= i < |hs| && Family(hs)[i] == c;
    }
  }

  /** The members with the heads at two indices. */
  lemma FamilyMembers(hs: string, i: nat, j: nat)
    requires i < |hs| && j < |hs|
    ensures InksWord(hs[i]) in Family(hs) && InksWord(hs[j]) in Family(hs)
  {
    assert Family(hs)[i] == InksWord(hs[i]) && Family(hs)[j] == InksWord(hs[j]);
  }

  /** The ranking context of a family with two distinct heads. */
  lemma FamilyContext(cons: Constraints, hs: string, i: nat, j: nat)
    requires cons.right == InksRight()
    requires i < |hs| && j < |hs| && hs[i] != hs[j]
    ensures var ctx := BuildContext(cons, Family(hs), 5);
            && ctx.right == InksRight() && ctx.tally == Tally(Family(hs), {0}, cons.absent)
            && |ctx.musts| == 5 && (forall ix :: 1 <= ix < 5 ==> |ctx.musts[ix]| == 1)
  {
    FamilyInks(hs);
    FamilyMembers(hs, i, j);
    InksContext(cons, Family(hs), InksWord(hs[i]), InksWord(hs[j]));
  }

  /** Two consistent members with distinct heads give the tables some mass. */
  lemma FamilyMass(cons: Constraints, hs: string, i: nat, j: nat)
    requires cons.right == InksRight() && cons.wrong == map[]
    requires 'i' !in cons.absent && 'n' !in cons.absent && 'k' !in cons.absent && 's' !in cons.absent
    requires i < |hs| && j < |hs| && hs[i] != hs[j] && hs[i] !in cons.absent && hs[j] !in cons.absent
    ensures TotalFreq(BuildContext(cons, Family(hs), 5).tally) > 0
  {
    var c1 := InksWord(hs[i]);
    var c2 := InksWord(hs[j]);
    FamilyMembers(hs, i, j);
    InksGuessable(c1, cons);
    InksGuessable(c2, cons);
    SolverProperties.MassPositive(cons, Family(hs), 5, c1, c2);
  }

  /** The exploration stage returns the ranking's winner once the tables have
      mass and the pool is non-empty. */
  lemma ExploreValue(cfg: SolverConfig, n: nat, cons: Constraints, prev: set<string>, cands: seq<string>,
                     pool: seq<string>, w: string)
    requires TotalFreq(BuildContext(cons, cands, n).tally) > 0
    requires Explorable(cfg, prev, cands) == pool && |pool| > 0
    requires var ctx := BuildContext(cons, cands, n);
             Ranking.Select(pool, PrimaryKey(cfg, ctx.tally), SecondaryKey(ctx.musts, ctx.right)) == w
    ensures Explore(cfg, n, cons, prev, cands) == Success(Choice(Some(w), Preview(cands), |cands|))
  {
  }

  // ---------------------------------------------------------------------
  // The test's data

  /** Distinct lower-case first letters past "b" that are none of i, n, k, s. */
  predicate FreshHeads(hs: string) {
    && (forall i :: 0 <= i < |hs| ==> 'c' <= hs[i] <= 'z' && hs[i] != 'i' && hs[i] != 'n' && hs[i] != 'k' && hs[i] != 's')
    && (forall i, j :: 0 <= i < j < |hs| ==> hs[i] != hs[j])
  }

  /** "binks", the "-inks" words with the given heads, and "abcde". */
  function Words(hs: string): seq<string> {
    [InksWord('b')] + Family(hs) + ["abcde"]
  }

  /** The candidate list of the test. */
  function Vocabulary(): seq<string> {
    ["binks", "cinks", "dinks", "einks", "finks", "ginks", "hinks", "abcde"]
  }

  /** "binks" scored grey then four greens. */
  function BinksAttempt(): Attempt {
    Attempt("binks", [Nothing, RightSpot, RightSpot, RightSpot, RightSpot])
  }

  /** "abcde" scored all grey. */
  function AbcdeAttempt(): Attempt {
    Attempt("abcde", [Nothing, Nothing, Nothing, Nothing, Nothing])
  }

  /** The candidate list is "binks", the "-inks" words from c to h, and "abcde". */
  lemma VocabularyShape()
    ensures Vocabulary() == Words("cdefgh")
  {
    var f := Family("cdefgh");
    assert f[0] == "cinks" && f[1] == "dinks" && f[2] == "einks";
    assert f[3] == "finks" && f[4] == "ginks" && f[5] == "hinks";
  }

  /** The heads of the test's family. */
  lemma TestHeads()
    ensures FreshHeads("cdefgh") && "cdefgh" == "cde" + "fgh"
  {
    var hs := "cdefgh";
    assert hs == ['c', 'd', 'e', 'f', 'g', 'h'];
  }

  /** "abcde" is lower-case. */
  lemma AbcdeLower()
    ensures LowerWord("abcde")
  {
    var w := "abcde";
    forall i | 0 <= i < 5 ensures 'a' <= w[i] <= 'z' {
      assert w == ['a', 'b', 'c', 'd', 'e'];
    }
  }

  /** Every word of the list is a five-letter lower-case word. */
  lemma WordsLower(hs: string)
    requires FreshHeads(hs)
    ensures forall w :: w in Words(hs) ==> |w| == 5 && LowerWord(w)
  {
    var f := Family(hs);
    FamilyLower(hs);
    InksLower('b');
    AbcdeLower();
    forall w | w in Words(hs) ensures |w| == 5 && LowerWord(w) {
      assert w == InksWord('b') || w in f || w == "abcde";
    }
  }

  /** Such a list makes valid settings. */
  lemma WordsValid(hs: string)
    requires FreshHeads(hs)
    ensures var cfg := Examples.Defaults(Words(hs));
            ValidConfig(cfg) && !UsesTree(cfg) && |cfg.candidateSet| > 0 && |cfg.candidateSet[0]| == 5
  {
    var v := Words(hs);
    WordsLower(hs);
    assert v + [] == v;
    assert WordSet.SameLength(v + []) by {
      forall i, j | 0 <= i < |v| && 0 <= j < |v| ensures |v[i]| == |v[j]| {
        assert v[i] in v && v[j] in v;
      }
    }
    assert v[0] in v;
  }

  // ---------------------------------------------------------------------
  // First call: after "binks" scored grey then four greens

  /** The constraints after "binks" scored grey then four greens. */
  function FirstConstraints(): Constraints {
    Constraints(InksRight(), map[], {'b'})
  }

  /** The constraints and played words after the first attempt. */
  lemma FirstClues()
    ensures var h := [BinksAttempt()];
            && ParseClues(h) == FirstConstraints()
            && PrevGuesses(h) == {"binks"}
            && !SolvedAlready(h, ParseClues(h))
  {
    var h := [BinksAttempt()];
    Examples.ParseBinksGreen();
    assert h[0] in h;
    assert !IsAllRight(Last(h).clue) by {
      AllRightMeans(Last(h).clue);
    }
  }

  /** The first call's survivor test. */
  lemma FirstKeep(w: string)
    ensures SurvivorTest([BinksAttempt()])(w) == Survives(w, {"binks"}, FirstConstraints())
  {
    FirstClues();
  }

  /** "binks" was played. */
  lemma FirstDropsBinks()
    ensures Ranking.Filter([InksWord('b')], SurvivorTest([BinksAttempt()])) == []
  {
    FirstKeep(InksWord('b'));
    Ranking.FilterNone([InksWord('b')], SurvivorTest([BinksAttempt()]));
  }

  /** "abcde" holds the absent b. */
  lemma FirstDropsAbcde()
    ensures Ranking.Filter(["abcde"], SurvivorTest([BinksAttempt()])) == []
  {
    FirstKeep("abcde");
    assert !IsGuessableWord("abcde", FirstConstraints()) by {
      assert "abcde"[1] == 'b';
    }
    Ranking.FilterNone(["abcde"], SurvivorTest([BinksAttempt()]));
  }

  /** Every "-inks" word with a fresh head survives the first attempt. */
  lemma FirstKept(hs: string)
    requires FreshHeads(hs)
    ensures Ranking.Filter(Family(hs), SurvivorTest([BinksAttempt()])) == Family(hs)
  {
    var keep := SurvivorTest([BinksAttempt()]);
    forall i | 0 <= i < |hs| ensures keep(InksWord(hs[i])) {
      FirstKeep(InksWord(hs[i]));
      InksSurvives(hs[i], {"binks"}, FirstConstraints());
    }
    FamilyKept(hs, keep);
  }

  /** Every "-inks" word survives: "binks" was played and "abcde" holds the absent b. */
  lemma FirstSurvivors(hs: string)
    requires FreshHeads(hs)
    ensures Candidates(Examples.Defaults(Words(hs)), [BinksAttempt()]) == Family(hs)
  {
    var keep := SurvivorTest([BinksAttempt()]);
    var f := Family(hs);
    Ranking.FilterAppend([InksWord('b')] + f, ["abcde"], keep);
    Ranking.FilterAppend([InksWord('b')], f, keep);
    FirstDropsBinks();
    FirstDropsAbcde();
    FirstKept(hs);
  }

  /** A family with heads past "b" holds no played "binks". */
  lemma FamilyUnplayed(hs: string, prev: set<string>)
    requires FreshHeads(hs)
    requires forall p :: p in prev ==> |p| > 0 && p[0] < 'c'
    ensures Ranking.Filter(Family(hs), Unplayed(prev)) == Family(hs)
  {
    var keep := Unplayed(prev);
    forall i | 0 <= i < |hs| ensures keep(InksWord(hs[i])) {
      assert InksWord(hs[i])[0] == hs[i];
    }
    FamilyKept(hs, keep);
  }

  /** The words still explorable: everything but "binks". */
  lemma FirstPool(hs: string)
    requires FreshHeads(hs)
    ensures Explorable(Examples.Defaults(Words(hs)), {"binks"}, Family(hs)) == Family(hs) + ["abcde"]
  {
    var keep := Unplayed({"binks"});
    var f := Family(hs);
    Ranking.FilterAppend([InksWord('b')] + f, ["abcde"], keep);
    Ranking.FilterAppend([InksWord('b')], f, keep);
    Ranking.FilterNone([InksWord('b')], keep);
    assert "abcde"[0] != "binks"[0];
    Ranking.FilterAll(["abcde"], keep);
    FamilyUnplayed(hs, {"binks"});
  }

  /** A head present in a family of distinct heads counts once. */
  lemma PresentOnce(hs: string, x: char)
    requires FreshHeads(hs) && x in hs
    ensures multiset(hs)[x] == 1
  {
    var j :| 0 <= j < |hs| && hs[j] == x;
    HeadCountsOnce(hs, j);
  }

  /** The first-call counts of a, b, c, d and e. */
  lemma FirstCounts(hs: string)
    requires FreshHeads(hs) && 'c' in hs && 'd' in hs && 'e' in hs
    ensures var t := Tally(Family(hs), {0}, {'b'});
            GlobalFreq(t, 'a') == 0 && GlobalFreq(t, 'b') == 0 &&
            GlobalFreq(t, 'c') == 1 && GlobalFreq(t, 'd') == 1 && GlobalFreq(t, 'e') == 1
  {
    FamilyFreq(hs, {'b'}, 'a');
    FamilyFreq(hs, {'b'}, 'b');
    FamilyFreq(hs, {'b'}, 'c');
    FamilyFreq(hs, {'b'}, 'd');
    FamilyFreq(hs, {'b'}, 'e');
    PresentOnce(hs, 'c');
    PresentOnce(hs, 'd');
    PresentOnce(hs, 'e');
  }

  /** Fresh heads avoid the letters of "inks". */
  lemma HeadsAvoidInks(hs: string)
    requires FreshHeads(hs)
    ensures 'i' !in hs && 'n' !in hs && 'k' !in hs && 's' !in hs
  {
  }

  /** In the first call each "-inks" word scores -1. */
  lemma FirstInksScores(hs: string)
    requires FreshHeads(hs)
    ensures forall v :: v in Family(hs) ==> PositionalScore(Tally(Family(hs), {0}, {'b'}), 1.0, v) == -1.0
  {
    HeadsAvoidInks(hs);
    FamilyScores(hs, {'b'});
    forall v | v in Family(hs) ensures PositionalScore(Tally(Family(hs), {0}, {'b'}), 1.0, v) == -1.0 {
      var i :| 0 <= i < |hs| && Family(hs)[i] == v;
      assert hs[i] != 'b';
    }
  }

  /** In the first call "abcde" scores -3: one each for c, d and e. */
  lemma FirstAbcdeScore(hs: string)
    requires FreshHeads(hs) && 'c' in hs && 'd' in hs && 'e' in hs
    ensures PositionalScore(Tally(Family(hs), {0}, {'b'}), 1.0, "abcde") == -3.0
  {
    FirstCounts(hs);
    AbcdeScore(Tally(Family(hs), {0}, {'b'}));
  }

  /** The first call's primary key: -1 on the "-inks" words, -3 on "abcde". */
  lemma FirstPrimary(hs: string, ctx: Context)
    requires FreshHeads(hs) && 'c' in hs && 'd' in hs && 'e' in hs
    requires ctx.tally == Tally(Family(hs), {0}, {'b'})
    ensures var primary := PrimaryKey(Examples.Defaults(Words(hs)), ctx.tally);
            && (forall v :: v in Family(hs) ==> primary(v) == -1.0)
            && primary("abcde") == -3.0
  {
    FirstInksScores(hs);
    FirstAbcdeScore(hs);
  }

  /** "abcde" meets all three stages of the first call's ranking. */
  lemma FirstWins(hs: string, ctx: Context)
    requires FreshHeads(hs) && 'c' in hs && 'd' in hs && 'e' in hs
    requires ctx.tally == Tally(Family(hs), {0}, {'b'})
    ensures var cfg := Examples.Defaults(Words(hs));
            Ranking.Wins(Family(hs) + ["abcde"], PrimaryKey(cfg, ctx.tally), SecondaryKey(ctx.musts, ctx.right), "abcde")
  {
    var pool := Family(hs) + ["abcde"];
    FirstPrimary(hs, ctx);
    assert forall v :: v in pool ==> v in Family(hs) || v == "abcde";
    Ranking.LexLeReflexive("abcde");
  }

  /** The first call's tables have mass. */
  lemma FirstMass(hs: string, ic: nat, id: nat)
    requires ic < |hs| && id < |hs| && hs[ic] == 'c' && hs[id] == 'd'
    ensures TotalFreq(BuildContext(FirstConstraints(), Family(hs), 5).tally) > 0
  {
    var cons := FirstConstraints();
    assert cons.right == InksRight();
    assert cons.wrong == map[];
    assert 'i' !in cons.absent && 'n' !in cons.absent && 'k' !in cons.absent && 's' !in cons.absent;
    assert hs[ic] !in cons.absent && hs[id] !in cons.absent;
    FamilyMass(cons, hs, ic, id);
  }

  /** The first call's exploration stage picks "abcde". */
  lemma FirstExplore(hs: string)
    requires FreshHeads(hs) && 'c' in hs && 'd' in hs && 'e' in hs
    ensures Explore(Examples.Defaults(Words(hs)), 5, FirstConstraints(), {"binks"}, Family(hs)) ==
              Success(Choice(Some("abcde"), Preview(Family(hs)), |hs|))
  {
    var cfg := Examples.Defaults(Words(hs));
    var cons := FirstConstraints();
    var ctx := BuildContext(cons, Family(hs), 5);
    var pool := Family(hs) + ["abcde"];
    var ic :| 0 <= ic < |hs| && hs[ic] == 'c';
    var id :| 0 <= id < |hs| && hs[id] == 'd';
    FamilyContext(cons, hs, ic, id);
    FirstMass(hs, ic, id);
    FirstPool(hs);
    FirstWins(hs, ctx);
    Ranking.SelectUnique(pool, PrimaryKey(cfg, ctx.tally), SecondaryKey(ctx.musts, ctx.right), "abcde");
    ExploreValue(cfg, 5, cons, {"binks"}, Family(hs), pool, "abcde");
  }

  /** Over "binks", distinct "-inks" words including cinks, dinks and einks,
      and "abcde": once "binks" scores grey then four greens, every "-inks"
      word survives and the selector explores with "abcde". */
  lemma FirstCall(hs: string)
    requires FreshHeads(hs) && 'c' in hs && 'd' in hs && 'e' in hs
    ensures ValidConfig(Examples.Defaults(Words(hs)))
    ensures GuessNextWord([BinksAttempt()], Examples.Defaults(Words(hs))) ==
              Success(Choice(Some("abcde"), Preview(Family(hs)), |hs|))
  {
    var h := [BinksAttempt()];
    var cfg := Examples.Defaults(Words(hs));
    WordsValid(hs);
    FirstClues();
    FirstSurvivors(hs);
    assert |hs| > 1 by {
      var ic :| 0 <= ic < |hs| && hs[ic] == 'c';
      var id :| 0 <= id < |hs| && hs[id] == 'd';
    }
    ExploreReached(h, cfg);
    FirstExplore(hs);
  }

  /** The first five survivors of the first call, spelled out. */
  lemma CinksPreview()
    ensures Preview(Family("cdefgh")) == ["cinks", "dinks", "einks", "finks", "ginks"]
  {
    var f := Family("cdefgh");
    assert f[0] == "cinks" && f[1] == "dinks" && f[2] == "einks" && f[3] == "finks" && f[4] == "ginks";
  }

  /** test/test_solver.py:48-53: after "binks" scores grey then four greens,
      the selector explores with "abcde" among the six survivors, of which it
      reports the first five. */
  lemma ExploresWithAbcde()
    ensures ValidConfig(Examples.Defaults(Vocabulary()))
    ensures GuessNextWord([BinksAttempt()], Examples.Defaults(Vocabulary())) ==
              Success(Choice(Some("abcde"), ["cinks", "dinks", "einks", "finks", "ginks"], |Vocabulary()| - 2))
  {
    VocabularyShape();
    TestHeads();
    var hs := "cdefgh";
    assert hs[0] == 'c' && hs[1] == 'd' && hs[2] == 'e';
    FirstCall(hs);
    CinksPreview();
  }

  // ---------------------------------------------------------------------
  // Second call: after "abcde" also scored all grey

  /** The constraints after "binks" scored grey then four greens and "abcde" all grey. */
  function SecondConstraints(): Constraints {
    Constraints(InksRight(), map[], {'a', 'b', 'c', 'd', 'e'})
  }

  /** "abcde" scored all grey adds its five letters to the absent ones. */
  lemma FoldAbcde()
    ensures AddPositions(FirstConstraints(), AbcdeAttempt(), 5) == SecondConstraints()
  {
  }

  /** `parse_clues` on both attempts. */
  lemma SecondParse()
    ensures ParseClues([BinksAttempt(), AbcdeAttempt()]) == SecondConstraints()
  {
    var h := [BinksAttempt(), AbcdeAttempt()];
    assert h[..1] == [BinksAttempt()];
    FirstClues();
    FoldAbcde();
  }

  /** The words played in the two attempts. */
  lemma SecondPrev()
    ensures PrevGuesses([BinksAttempt(), AbcdeAttempt()]) == {"binks", "abcde"}
  {
    var h := [BinksAttempt(), AbcdeAttempt()];
    assert h[0] in h && h[1] in h;
  }

  /** The last clue is not all green. */
  lemma SecondUnsolved()
    ensures !IsAllRight(AbcdeAttempt().clue)
  {
    AllRightMeans(AbcdeAttempt().clue);
  }

  /** The constraints and played words after the second attempt. */
  lemma SecondClues()
    ensures var h := [BinksAttempt(), AbcdeAttempt()];
            && ParseClues(h) == SecondConstraints()
            && PrevGuesses(h) == {"binks", "abcde"}
            && !SolvedAlready(h, ParseClues(h))
  {
    var h := [BinksAttempt(), AbcdeAttempt()];
    SecondParse();
    SecondPrev();
    SecondUnsolved();
    assert Last(h) == AbcdeAttempt();
  }

  /** The second call's survivor test. */
  lemma SecondKeep(w: string)
    ensures SurvivorTest([BinksAttempt(), AbcdeAttempt()])(w) == Survives(w, {"binks", "abcde"}, SecondConstraints())
  {
    SecondClues();
  }

  /** The heads after c, d, e are fresh and none of a..e. */
  lemma RestHeads(rest: string)
    requires FreshHeads("cde" + rest)
    ensures FreshHeads(rest)
    ensures forall j :: 0 <= j < |rest| ==> rest[j] !in SecondConstraints().absent
  {
    var hs := "cde" + rest;
    forall j | 0 <= j < |rest| ensures rest[j] !in SecondConstraints().absent {
      assert hs[j + 3] == rest[j];
      assert hs[0] == 'c' && hs[1] == 'd' && hs[2] == 'e';
    }
    forall i, j | 0 <= i < j < |rest| ensures rest[i] != rest[j] {
      assert hs[i + 3] == rest[i] && hs[j + 3] == rest[j];
    }
    forall i | 0 <= i < |rest|
      ensures 'c' <= rest[i] <= 'z' && rest[i] != 'i' && rest[i] != 'n' && rest[i] != 'k' && rest[i] != 's'
    {
      assert hs[i + 3] == rest[i];
    }
  }

  /** "binks" and "abcde" were played, and cinks, dinks, einks hold an absent letter. */
  lemma SecondDropped()
    ensures Ranking.Filter([InksWord('b')], SurvivorTest([BinksAttempt(), AbcdeAttempt()])) == []
    ensures Ranking.Filter(["abcde"], SurvivorTest([BinksAttempt(), AbcdeAttempt()])) == []
    ensures Ranking.Filter(Family("cde"), SurvivorTest([BinksAttempt(), AbcdeAttempt()])) == []
  {
    var keep := SurvivorTest([BinksAttempt(), AbcdeAttempt()]);
    SecondKeep(InksWord('b'));
    SecondKeep("abcde");
    Ranking.FilterNone([InksWord('b')], keep);
    Ranking.FilterNone(["abcde"], keep);
    var cde := "cde";
    forall i | 0 <= i < 3 ensures !keep(InksWord(cde[i])) {
      SecondKeep(InksWord(cde[i]));
      assert cde == ['c', 'd', 'e'];
    }
    FamilyDropped(cde, keep);
  }

  /** An "-inks" word with a head past e, none of i, n, k, s, survives the second attempt. */
  lemma SecondSurvivesHead(x: char)
    requires 'e' < x && x != 'i' && x != 'n' && x != 'k' && x != 's'
    ensures SurvivorTest([BinksAttempt(), AbcdeAttempt()])(InksWord(x))
  {
    var cons := SecondConstraints();
    var prev := {"binks", "abcde"};
    assert cons.right == InksRight() && cons.wrong == map[];
    assert 'i' !in cons.absent && 'n' !in cons.absent && 'k' !in cons.absent && 's' !in cons.absent;
    assert forall p :: p in prev ==> |p| > 0 && p[0] != x;
    InksSurvives(x, prev, cons);
    assert x !in cons.absent;
    assert Survives(InksWord(x), prev, cons);
    SecondKeep(InksWord(x));
  }

  /** One head after c, d, e. */
  lemma RestHead(rest: string, j: nat)
    requires FreshHeads("cde" + rest) && j < |rest|
    ensures 'e' < rest[j] && rest[j] != 'i' && rest[j] != 'n' && rest[j] != 'k' && rest[j] != 's'
  {
    var hs := "cde" + rest;
    assert hs[j + 3] == rest[j];
    assert hs[0] == 'c' && hs[1] == 'd' && hs[2] == 'e';
    assert hs[0] != hs[j + 3] && hs[1] != hs[j + 3] && hs[2] != hs[j + 3];
  }

  /** The words with the remaining heads survive the second attempt. */
  lemma SecondKept(rest: string)
    requires FreshHeads("cde" + rest)
    ensures Ranking.Filter(Family(rest), SurvivorTest([BinksAttempt(), AbcdeAttempt()])) == Family(rest)
  {
    var keep := SurvivorTest([BinksAttempt(), AbcdeAttempt()]);
    forall i | 0 <= i < |rest| ensures keep(InksWord(rest[i])) {
      RestHead(rest, i);
      SecondSurvivesHead(rest[i]);
    }
    FamilyKept(rest, keep);
  }

  /** The list splits at the absent heads c, d, e. */
  lemma WordsSplit(rest: string)
    ensures Words("cde" + rest) == ([InksWord('b')] + Family("cde")) + Family(rest) + ["abcde"]
  {
    FamilyAppend("cde", rest);
  }

  /** Only the words past e survive. */
  lemma SecondSurvivors(rest: string)
    requires FreshHeads("cde" + rest)
    ensures Candidates(Examples.Defaults(Words("cde" + rest)), [BinksAttempt(), AbcdeAttempt()]) == Family(rest)
  {
    var keep := SurvivorTest([BinksAttempt(), AbcdeAttempt()]);
    var front := [InksWord('b')] + Family("cde");
    WordsSplit(rest);
    Ranking.FilterAppend(front + Family(rest), ["abcde"], keep);
    Ranking.FilterAppend(front, Family(rest), keep);
    Ranking.FilterAppend([InksWord('b')], Family("cde"), keep);
    SecondDropped();
    SecondKept(rest);
  }

  /** The words still explorable: every "-inks" word but "binks". */
  lemma SecondPool(rest: string)
    requires FreshHeads("cde" + rest)
    ensures Explorable(Examples.Defaults(Words("cde" + rest)), {"binks", "abcde"}, Family(rest)) == Family("cde" + rest)
  {
    var hs := "cde" + rest;
    var keep := Unplayed({"binks", "abcde"});
    var f := Family(hs);
    Ranking.FilterAppend([InksWord('b')] + f, ["abcde"], keep);
    Ranking.FilterAppend([InksWord('b')], f, keep);
    Ranking.FilterNone([InksWord('b')], keep);
    Ranking.FilterNone(["abcde"], keep);
    FamilyUnplayed(hs, {"binks", "abcde"});
  }

  /** Against the second tally the absent heads score 0. */
  lemma AbsentHeadScore(rest: string, x: char)
    requires x in SecondConstraints().absent && 'i' !in rest && 'n' !in rest && 'k' !in rest && 's' !in rest
    ensures PositionalScore(Tally(Family(rest), {0}, SecondConstraints().absent), 1.0, InksWord(x)) == 0.0
  {
    var a := SecondConstraints().absent;
    FamilyFreq(rest, a, 'i');
    FamilyFreq(rest, a, 'n');
    FamilyFreq(rest, a, 'k');
    FamilyFreq(rest, a, 's');
    FamilyFreq(rest, a, x);
    InksScore(Tally(Family(rest), {0}, a), InksWord(x));
  }

  /** The second-call scores: c, d, e words 0, the others -1. */
  lemma SecondScores(rest: string)
    requires FreshHeads("cde" + rest)
    ensures var t := Tally(Family(rest), {0}, SecondConstraints().absent);
            forall i :: 0 <= i < |rest| + 3 ==>
              PositionalScore(t, 1.0, InksWord(("cde" + rest)[i])) == if i < 3 then 0.0 else -1.0
  {
    var hs := "cde" + rest;
    var a := SecondConstraints().absent;
    var t := Tally(Family(rest), {0}, a);
    RestHeads(rest);
    assert 'i' !in rest && 'n' !in rest && 'k' !in rest && 's' !in rest;
    FamilyScores(rest, a);
    forall i | 0 <= i < |hs| ensures PositionalScore(t, 1.0, InksWord(hs[i])) == if i < 3 then 0.0 else -1.0 {
      if i < 3 {
        assert hs[i] in a by {
          assert hs[0] == 'c' && hs[1] == 'd' && hs[2] == 'e';
        }
        AbsentHeadScore(rest, hs[i]);
      } else {
        assert hs[i] == rest[i - 3];
      }
    }
  }

  /** No word of a fresh family is boosted. */
  lemma SecondBoost(hs: string, ctx: Context)
    requires FreshHeads(hs) && ctx.right == InksRight() && |ctx.musts| == 5
    requires forall ix :: 1 <= ix < 5 ==> |ctx.musts[ix]| == 1
    ensures forall v :: v in Family(hs) ==> SecondaryKey(ctx.musts, ctx.right)(v) == 0.0
  {
    forall v | v in Family(hs) ensures Boost(ctx.musts, ctx.right, v) == 0 {
      var i :| 0 <= i < |hs| && Family(hs)[i] == v;
      BoostAt(hs, ctx, i);
    }
  }

  /** The member at one index is not boosted. */
  lemma BoostAt(hs: string, ctx: Context, i: nat)
    requires FreshHeads(hs) && i < |hs| && ctx.right == InksRight() && |ctx.musts| == 5
    requires forall ix :: 1 <= ix < 5 ==> |ctx.musts[ix]| == 1
    ensures Boost(ctx.musts, ctx.right, InksWord(hs[i])) == 0
  {
    assert hs[i] !in InksRight();
    InksBoost(ctx.musts, ctx.right, InksWord(hs[i]));
  }

  /** The least head past e has the least score, and precedes every word tied with it. */
  lemma SecondLeast(rest: string, t: Tally)
    requires FreshHeads("cde" + rest) && |rest| > 0
    requires forall j :: 0 <= j < |rest| ==> rest[0] <= rest[j]
    requires t == Tally(Family(rest), {0}, SecondConstraints().absent)
    ensures forall v :: v in Family("cde" + rest) ==>
              && PositionalScore(t, 1.0, InksWord(rest[0])) <= PositionalScore(t, 1.0, v)
              && (PositionalScore(t, 1.0, v) == PositionalScore(t, 1.0, InksWord(rest[0])) ==> Ranking.LexLe(InksWord(rest[0]), v))
  {
    var hs := "cde" + rest;
    SecondScores(rest);
    forall v | v in Family(hs)
      ensures PositionalScore(t, 1.0, InksWord(rest[0])) <= PositionalScore(t, 1.0, v)
      ensures PositionalScore(t, 1.0, v) == PositionalScore(t, 1.0, InksWord(rest[0])) ==> Ranking.LexLe(InksWord(rest[0]), v)
    {
      var i :| 0 <= i < |hs| && Family(hs)[i] == v;
      LeastAt(rest, t, i);
    }
  }

  /** The comparison of the least head past e with the member at one index. */
  lemma LeastAt(rest: string, t: Tally, i: nat)
    requires |rest| > 0 && i < |rest| + 3
    requires forall j :: 0 <= j < |rest| ==> rest[0] <= rest[j]
    requires forall k :: 0 <= k < |rest| + 3 ==>
               PositionalScore(t, 1.0, InksWord(("cde" + rest)[k])) == if k < 3 then 0.0 else -1.0
    ensures var v := InksWord(("cde" + rest)[i]);
            && PositionalScore(t, 1.0, InksWord(rest[0])) <= PositionalScore(t, 1.0, v)
            && (PositionalScore(t, 1.0, v) == PositionalScore(t, 1.0, InksWord(rest[0])) ==> Ranking.LexLe(InksWord(rest[0]), v))
  {
    var hs := "cde" + rest;
    assert hs[3] == rest[0];
    if i >= 3 {
      assert hs[i] == rest[i - 3];
      InksLexLe(rest[0], rest[i - 3]);
    }
  }

  /** The least head past e meets all three stages of the second call's ranking. */
  lemma SecondWins(rest: string, ctx: Context)
    requires FreshHeads("cde" + rest) && |rest| > 0
    requires forall j :: 0 <= j < |rest| ==> rest[0] <= rest[j]
    requires ctx.tally == Tally(Family(rest), {0}, SecondConstraints().absent)
    requires ctx.right == InksRight() && |ctx.musts| == 5
    requires forall ix :: 1 <= ix < 5 ==> |ctx.musts[ix]| == 1
    ensures var cfg := Examples.Defaults(Words("cde" + rest));
            Ranking.Wins(Family("cde" + rest), PrimaryKey(cfg, ctx.tally), SecondaryKey(ctx.musts, ctx.right), InksWord(rest[0]))
  {
    var hs := "cde" + rest;
    var cfg := Examples.Defaults(Words(hs));
    var pool := Family(hs);
    var primary := PrimaryKey(cfg, ctx.tally);
    var secondary := SecondaryKey(ctx.musts, ctx.right);
    var w := InksWord(rest[0]);
    SecondLeast(rest, ctx.tally);
    SecondBoost(hs, ctx);
    assert w in pool by {
      assert pool[3] == w;
    }
    DefaultsPrimary(Words(hs), ctx.tally);
    LeastWins(pool, primary, secondary, ctx.tally, w);
  }

  /** The default settings rank by the positional scorer at weight 1. */
  lemma DefaultsPrimary(ws: seq<string>, t: Tally)
    ensures forall v :: PrimaryKey(Examples.Defaults(ws), t)(v) == PositionalScore(t, 1.0, v)
  {
  }

  /** A pool member with the least positional score, preceding every word tied
      with it, wins when no member is boosted. */
  lemma LeastWins(pool: seq<string>, primary: string -> real, secondary: string -> real, t: Tally, w: string)
    requires w in pool
    requires forall v :: primary(v) == PositionalScore(t, 1.0, v)
    requires forall v :: v in pool ==> secondary(v) == 0.0
    requires forall v :: v in pool ==>
               && PositionalScore(t, 1.0, w) <= PositionalScore(t, 1.0, v)
               && (PositionalScore(t, 1.0, v) == PositionalScore(t, 1.0, w) ==> Ranking.LexLe(w, v))
    ensures Ranking.Wins(pool, primary, secondary, w)
  {
  }

  /** The least head past e wins the second call's ranking. */
  lemma SecondWinner(rest: string, ctx: Context)
    requires FreshHeads("cde" + rest) && |rest| > 0
    requires forall j :: 0 <= j < |rest| ==> rest[0] <= rest[j]
    requires ctx.tally == Tally(Family(rest), {0}, SecondConstraints().absent)
    requires ctx.right == InksRight() && |ctx.musts| == 5
    requires forall ix :: 1 <= ix < 5 ==> |ctx.musts[ix]| == 1
    ensures var cfg := Examples.Defaults(Words("cde" + rest));
            Ranking.Select(Family("cde" + rest), PrimaryKey(cfg, ctx.tally), SecondaryKey(ctx.musts, ctx.right)) == InksWord(rest[0])
  {
    var cfg := Examples.Defaults(Words("cde" + rest));
    SecondWins(rest, ctx);
    Ranking.SelectUnique(Family("cde" + rest), PrimaryKey(cfg, ctx.tally), SecondaryKey(ctx.musts, ctx.right), InksWord(rest[0]));
  }


  /** The second call's tables have mass. */
  lemma SecondMass(rest: string)
    requires |rest| > 1 && rest[0] != rest[1] && 'e' < rest[0] && 'e' < rest[1]
    ensures TotalFreq(BuildContext(SecondConstraints(), Family(rest), 5).tally) > 0
  {
    var cons := SecondConstraints();
    assert cons.right == InksRight() && cons.wrong == map[];
    assert 'i' !in cons.absent && 'n' !in cons.absent && 'k' !in cons.absent && 's' !in cons.absent;
    FamilyMass(cons, rest, 0, 1);
  }

  /** The second call's exploration stage picks the least remaining head. */
  lemma SecondExplore(rest: string)
    requires FreshHeads("cde" + rest) && |rest| > 1
    requires forall j :: 0 <= j < |rest| ==> rest[0] <= rest[j]
    ensures Explore(Examples.Defaults(Words("cde" + rest)), 5, SecondConstraints(), {"binks", "abcde"}, Family(rest)) ==
              Success(Choice(Some(InksWord(rest[0])), Preview(Family(rest)), |rest|))
  {
    var cfg := Examples.Defaults(Words("cde" + rest));
    var cons := SecondConstraints();
    var ctx := BuildContext(cons, Family(rest), 5);
    RestHead(rest, 0);
    RestHead(rest, 1);
    RestHeads(rest);
    FamilyContext(cons, rest, 0, 1);
    SecondMass(rest);
    SecondPool(rest);
    SecondWinner(rest, ctx);
    ExploreValue(cfg, 5, cons, {"binks", "abcde"}, Family(rest), Family("cde" + rest), InksWord(rest[0]));
  }

  /** Over "binks", cinks, dinks, einks, further distinct "-inks" words and
      "abcde": once "abcde" also scores all grey, the words past e survive,
      tie on both keys, and the least of them is chosen. */
  lemma SecondCall(rest: string)
    requires FreshHeads("cde" + rest) && |rest| > 1
    requires forall j :: 0 <= j < |rest| ==> rest[0] <= rest[j]
    ensures ValidConfig(Examples.Defaults(Words("cde" + rest)))
    ensures GuessNextWord([BinksAttempt(), AbcdeAttempt()], Examples.Defaults(Words("cde" + rest))) ==
              Success(Choice(Some(InksWord(rest[0])), Preview(Family(rest)), |rest|))
  {
    var h := [BinksAttempt(), AbcdeAttempt()];
    var cfg := Examples.Defaults(Words("cde" + rest));
    WordsValid("cde" + rest);
    SecondClues();
    SecondSurvivors(rest);
    ExploreReached(h, cfg);
    SecondExplore(rest);
  }

  /** The heads past e of the test, in order. */
  lemma TestRest()
    ensures var rest := "fgh";
            && FreshHeads("cde" + rest) && |rest| > 1 && (forall j :: 0 <= j < |rest| ==> rest[0] <= rest[j])
            && Words("cde" + rest) == Vocabulary()
  {
    var rest := "fgh";
    assert rest == ['f', 'g', 'h'];
    VocabularyShape();
    TestHeads();
  }

  /** The three survivors of the second call, spelled out. */
  lemma FinksFamily()
    ensures Preview(Family("fgh")) == ["finks", "ginks", "hinks"] && InksWord("fgh"[0]) == "finks"
  {
    var f := Family("fgh");
    assert f[0] == "finks" && f[1] == "ginks" && f[2] == "hinks";
  }

  /** test/test_solver.py:54-58: after "abcde" scores all grey, "finks" is
      chosen among the three survivors. */
  lemma ChoosesFinks()
    ensures ValidConfig(Examples.Defaults(Vocabulary()))
    ensures GuessNextWord([BinksAttempt(), AbcdeAttempt()], Examples.Defaults(Vocabulary())) ==
              Success(Choice(Some("finks"), ["finks", "ginks", "hinks"], 3))
  {
    TestRest();
    SecondCall("fgh");
    FinksFamily();
  }
}
