/** Properties of the frequency tables and the three sort keys of
    `guess_next_word` (game/solver/solver.py:102-171). */
module ScoringProperties {
  import opened Solver
  import Ranking

  /** A letter at a known position, or a letter known absent, adds nothing to
      the positional table; an absent letter adds nothing to the global one. */
  lemma {:induction false} SkippedCountNothing(t: Tally, i: nat, l: char)
    requires i !in t.unknown || l in t.absent
    ensures PosFreq(t, i, l) == 0
    ensures l in t.absent ==> GlobalFreq(t, l) == 0
    decreases |t.cands|
  {
    if |t.cands| > 0 {
      SkippedCountNothing(t.(cands := t.cands[1..]), i, l);
      if l in t.absent {
        NoLetterHits(t, t.cands[0], l, |t.cands[0]|);
      }
    }
  }

  lemma {:induction false} NoLetterHits(t: Tally, c: string, l: char, k: nat)
    requires k <= |c| && l in t.absent
    ensures LetterHits(t, c, l, k) == 0
  {
    if k > 0 {
      NoLetterHits(t, c, l, k - 1);
    }
  }

  /** One candidate's hit at position `i` is among its hits for that letter. */
  lemma {:induction false} HitCounted(t: Tally, c: string, i: nat, l: char, k: nat)
    requires k <= |c| && i < k && Hit(t, c, i, l)
    ensures LetterHits(t, c, l, k) >= 1
  {
    if i < k - 1 {
      HitCounted(t, c, i, l, k - 1);
    }
  }

  /** `conditional_pos_freq[i][l] <= conditional_unknown_freq[l]`: the
      positional count is part of the global count, so every wrong-position
      term of the positional scorer is non-negative. */
  lemma {:induction false} PosWithinGlobal(t: Tally, i: nat, l: char)
    ensures PosFreq(t, i, l) <= GlobalFreq(t, l)
    decreases |t.cands|
  {
    if |t.cands| > 0 {
      PosWithinGlobal(t.(cands := t.cands[1..]), i, l);
      var c := t.cands[0];
      if Hit(t, c, i, l) {
        HitCounted(t, c, i, l, |c|);
      }
    }
  }

  /** The survivor test of one positional table entry: the word holds `l` at
      the unknown position `i`, and `l` is not known absent. */
  function HoldsAt(unknown: set<nat>, absent: set<char>, i: nat, l: char): string -> bool {
    c => i < |c| && i in unknown && c[i] == l && l !in absent
  }

  /** `conditional_pos_freq[i][l]` is the number of survivors that hold `l`
      at the unknown position `i`, when `l` is not absent. */
  lemma {:induction false} PosFreqCountsSurvivors(t: Tally, i: nat, l: char)
    ensures PosFreq(t, i, l) == |Ranking.Filter(t.cands, HoldsAt(t.unknown, t.absent, i, l))|
    decreases |t.cands|
  {
    if |t.cands| > 0 {
      PosFreqCountsSurvivors(t.(cands := t.cands[1..]), i, l);
    }
  }

  /** `conditional_pos_freq[p][l]` summed over the positions p below k. */
  function PosSum(t: Tally, l: char, k: nat): nat {
    if k == 0 then 0 else PosSum(t, l, k - 1) + PosFreq(t, k - 1, l)
  }

  /** Without survivors every positional sum is zero. */
  lemma {:induction false} PosSumEmpty(t: Tally, l: char, k: nat)
    requires |t.cands| == 0
    ensures PosSum(t, l, k) == 0
  {
    if k > 0 {
      PosSumEmpty(t, l, k - 1);
    }
  }

  /** The first survivor's part of the positional sums is its own count of `l`. */
  lemma {:induction false} PosSumFirst(t: Tally, l: char, k: nat)
    requires |t.cands| > 0 && k <= |t.cands[0]|
    ensures PosSum(t, l, k) == LetterHits(t, t.cands[0], l, k) + PosSum(t.(cands := t.cands[1..]), l, k)
  {
    if k > 0 {
      PosSumFirst(t, l, k - 1);
    }
  }

  /** The two tables are incremented in the same step, so over survivors of
      length N a letter's global count is the sum of its N positional counts. */
  lemma {:induction false} GlobalIsPositionSum(t: Tally, l: char, n: nat)
    requires forall c :: c in t.cands ==> |c| == n
    ensures GlobalFreq(t, l) == PosSum(t, l, n)
    decreases |t.cands|
  {
    if |t.cands| == 0 {
      PosSumEmpty(t, l, n);
    } else {
      var rest := t.(cands := t.cands[1..]);
      assert t.cands[0] in t.cands;
      assert forall c :: c in rest.cands ==> c in t.cands;
      GlobalIsPositionSum(rest, l, n);
      PosSumFirst(t, l, n);
    }
  }

  /** Both parts of the positional scorer are non-negative. */
  lemma {:induction false} PositionalPartsNonNegative(t: Tally, word: string, k: nat, seen: set<char>)
    requires k <= |word|
    ensures PositionalParts(t, word, k, seen).0 >= 0 && PositionalParts(t, word, k, seen).1 >= 0
    decreases |word| - k
  {
    if k < |word| {
      if word[k] in seen {
        PositionalPartsNonNegative(t, word, k + 1, seen);
      } else {
        PositionalPartsNonNegative(t, word, k + 1, seen + {word[k]});
        PosWithinGlobal(t, k, word[k]);
      }
    }
  }

  /** Each distinct letter contributes its positional count plus the rest of
      its global count, so the two parts add up to the global counts of the
      distinct letters. */
  lemma {:induction false} PartsSumToDistinctMass(t: Tally, word: string, k: nat, seen: set<char>)
    requires k <= |word|
    ensures PositionalParts(t, word, k, seen).0 + PositionalParts(t, word, k, seen).1 == DistinctMass(t, word, k, seen)
    decreases |word| - k
  {
    if k < |word| {
      if word[k] in seen {
        PartsSumToDistinctMass(t, word, k + 1, seen);
      } else {
        PartsSumToDistinctMass(t, word, k + 1, seen + {word[k]});
      }
    }
  }

  /** With NON_POS_WEIGHT = 1 the positional scorer ranks exactly like the
      non-positional one. */
  lemma ScorersAgreeAtWeightOne(t: Tally, word: string)
    ensures PositionalScore(t, 1.0, word) == NonPositionalScore(t, word)
  {
    PartsSumToDistinctMass(t, word, 0, {});
  }

  /** The letters of `word` from position `k` on. */
  function LettersFrom(word: string, k: nat): set<char> {
    set i | k <= i < |word| :: word[i]
  }

  /** The global counts summed over a set of letters, in any order. */
  ghost function SetMass(t: Tally, s: set<char>): int
    decreases |s|
  {
    if s == {} then 0
    else
      var x :| x in s;
      GlobalFreq(t, x) + SetMass(t, s - {x})
  }

  /** The sum does not depend on which element is taken out first. */
  lemma {:induction false} SetMassRemove(t: Tally, s: set<char>, y: char)
    requires y in s
    ensures SetMass(t, s) == GlobalFreq(t, y) + SetMass(t, s - {y})
    decreases |s|
  {
    var x :| x in s && SetMass(t, s) == GlobalFreq(t, x) + SetMass(t, s - {x});
    if x != y {
      SetMassRemove(t, s - {x}, y);
      SetMassRemove(t, s - {y}, x);
      assert s - {x} - {y} == s - {y} - {x};
    }
  }

  /** The walk over `word[k..]` that skips letters already seen adds the
      global count of every letter it has not seen, once. */
  lemma {:induction false} DistinctMassIsSetMass(t: Tally, word: string, k: nat, seen: set<char>)
    requires k <= |word|
    ensures DistinctMass(t, word, k, seen) == SetMass(t, LettersFrom(word, k) - seen)
    decreases |word| - k
  {
    if k == |word| {
      assert LettersFrom(word, k) - seen == {};
    } else {
      assert LettersFrom(word, k) == {word[k]} + LettersFrom(word, k + 1);
      if word[k] in seen {
        DistinctMassIsSetMass(t, word, k + 1, seen);
        assert LettersFrom(word, k) - seen == LettersFrom(word, k + 1) - seen;
      } else {
        DistinctMassIsSetMass(t, word, k + 1, seen + {word[k]});
        var s := LettersFrom(word, k) - seen;
        SetMassRemove(t, s, word[k]);
        assert s - {word[k]} == LettersFrom(word, k + 1) - (seen + {word[k]});
      }
    }
  }

  /** `sort_maximal_nonpos`: minus the global counts summed over `set(word)`. */
  lemma NonPositionalIsLetterSetSum(t: Tally, word: string)
    ensures NonPositionalScore(t, word) == -(SetMass(t, LettersFrom(word, 0)) as real)
  {
    DistinctMassIsSetMass(t, word, 0, {});
    assert LettersFrom(word, 0) - {} == LettersFrom(word, 0);
  }

  /** The positions below `k` the boost rewards. */
  function BoostedPositions(musts: seq<set<char>>, right: map<char, set<nat>>, word: string, k: nat): set<nat> {
    set i: nat | i < k && i < |word| && i < |musts| && word[i] in musts[i] && |musts[i]| > 1 && word[i] in right
  }

  /** `boost_letters_in_right_place` counts exactly the positions whose letter
      is one of several still possible there and is a right-place letter. */
  lemma {:induction false} BoostCountsPositions(musts: seq<set<char>>, right: map<char, set<nat>>, word: string, k: nat)
    requires k <= |word|
    ensures BoostCount(musts, right, word, k) == |BoostedPositions(musts, right, word, k)|
  {
    if k > 0 {
      BoostCountsPositions(musts, right, word, k - 1);
      var i := k - 1;
      var before := BoostedPositions(musts, right, word, i);
      if i < |musts| && word[i] in musts[i] && |musts[i]| > 1 && word[i] in right {
        assert BoostedPositions(musts, right, word, k) == before + {i};
      } else {
        assert BoostedPositions(musts, right, word, k) == before;
      }
    }
  }
}
