/** The consistency predicate and clue parsing of game/solver/util.py. */
module Consistency {
  import opened Tiles
  import Game

  /** `(word_right_place, in_word_wrong_place, not_in_word)`: letters known at
      positions, letters known present but not at positions, letters known absent. */
  datatype Constraints = Constraints(
    right: map<char, set<nat>>,
    wrong: map<char, set<nat>>,
    absent: set<char>)

  const NoConstraints := Constraints(map[], map[], {})

  /** One entry of the clue history: a guessed word and the clue it received. */
  datatype Attempt = Attempt(word: string, clue: seq<Tile>)

  /** `indexall`: the positions of `w` that hold `l`. */
  function IndexAll(w: string, l: char): (r: set<nat>)
    ensures forall i: nat :: i in r <==> i < |w| && w[i] == l
  {
    if |w| == 0 then {}
    else IndexAll(w[..|w| - 1], l) + (if w[|w| - 1] == l then {|w| - 1} else {})
  }

  /** Rule 1: every right-place letter occurs in `w`, at each of its recorded positions. */
  predicate RightPlaceHolds(w: string, c: Constraints) {
    forall l :: l in c.right ==>
      l in w && forall ix :: ix in c.right[l] ==> ix < |w| && w[ix] == l
  }

  /** Rule 2: every wrong-place letter occurs in `w`, but at none of its recorded positions. */
  predicate WrongPlaceHolds(w: string, c: Constraints) {
    forall l :: l in c.wrong ==>
      l in w && forall i :: 0 <= i < |w| && w[i] == l ==> i !in c.wrong[l]
  }

  /** Rule 3: no letter of `w` is known absent. */
  predicate AbsentHolds(w: string, c: Constraints) {
    forall i :: 0 <= i < |w| ==> w[i] !in c.absent
  }

  /** `is_guessable_word`, following the source's three loops. */
  predicate IsGuessableWord(w: string, c: Constraints)
    ensures IsGuessableWord(w, c) <==> RightPlaceHolds(w, c) && WrongPlaceHolds(w, c) && AbsentHolds(w, c)
    ensures c == NoConstraints ==> IsGuessableWord(w, c)
  {
    && (forall l :: l in c.right ==>
          l in w && forall ix :: ix in c.right[l] ==> ix in IndexAll(w, l))
    && (forall l :: l in c.wrong ==>
          l in w && forall ix :: ix in IndexAll(w, l) ==> ix !in c.wrong[l])
    && (forall l :: l in c.absent ==> l !in w)
  }

  /** `strong` records at least everything `weak` records. */
  predicate Refines(strong: Constraints, weak: Constraints) {
    && (forall l :: l in weak.right ==> l in strong.right && weak.right[l] <= strong.right[l])
    && (forall l :: l in weak.wrong ==> l in strong.wrong && weak.wrong[l] <= strong.wrong[l])
    && weak.absent <= strong.absent
  }

  /** Adding constraints can only reject more words: a word accepted by the
      stronger constraints is accepted by the weaker ones. */
  lemma Monotone(w: string, strong: Constraints, weak: Constraints)
    requires Refines(strong, weak)
    ensures IsGuessableWord(w, strong) ==> IsGuessableWord(w, weak)
  {
  }

  // ---------------------------------------------------------------------
  // parse_clues

  /** `d[l].add(i)` on a defaultdict(set). */
  function Insert(m: map<char, set<nat>>, l: char, i: nat): map<char, set<nat>> {
    m[l := (if l in m then m[l] else {}) + {i}]
  }

  /** The effect of one tile: code 0 adds the letter to the absent set, code 1
      adds the position to the letter's wrong places, code 2 to its right places. */
  function AddTile(c: Constraints, l: char, t: Tile, i: nat): Constraints {
    match t
    case Nothing => c.(absent := c.absent + {l})
    case WrongSpot => c.(wrong := Insert(c.wrong, l, i))
    case RightSpot => c.(right := Insert(c.right, l, i))
  }

  /** Position `ix` of attempt `a` carries tile `t` on letter `l`. */
  predicate Mentions(a: Attempt, t: Tile, l: char, ix: nat) {
    ix < |a.word| && ix < |a.clue| && a.clue[ix] == t && a.word[ix] == l
  }

  /** Some attempt of the history carries tile `t` on letter `l` at position `ix`. */
  ghost predicate Says(h: seq<Attempt>, t: Tile, l: char, ix: nat) {
    exists k :: 0 <= k < |h| && Mentions(h[k], t, l, ix)
  }

  /** `l in m` with a non-empty position set: the shape the fold always produces. */
  predicate NonEmptyValues(m: map<char, set<nat>>) {
    forall l :: l in m ==> m[l] != {}
  }

  /** Positions 0 .. k-1 of one attempt, folded into `c`. */
  function AddPositions(c: Constraints, a: Attempt, k: nat): (r: Constraints)
    requires k <= |a.word| && k <= |a.clue|
    ensures forall l, ix: nat :: (l in r.right && ix in r.right[l]) <==>
              (l in c.right && ix in c.right[l]) || (ix < k && Mentions(a, RightSpot, l, ix))
    ensures forall l, ix: nat :: (l in r.wrong && ix in r.wrong[l]) <==>
              (l in c.wrong && ix in c.wrong[l]) || (ix < k && Mentions(a, WrongSpot, l, ix))
    ensures forall l :: l in r.absent <==>
              l in c.absent || exists ix: nat :: ix < k && Mentions(a, Nothing, l, ix)
    ensures NonEmptyValues(c.right) ==> NonEmptyValues(r.right)
    ensures NonEmptyValues(c.wrong) ==> NonEmptyValues(r.wrong)
  {
    if k == 0 then c
    else
      var prev := AddPositions(c, a, k - 1);
      var r := AddTile(prev, a.word[k - 1], a.clue[k - 1], k - 1);
      assert forall l :: l in r.absent <==>
        l in prev.absent || Mentions(a, Nothing, l, k - 1);
      r
  }

  function Min(a: nat, b: nat): nat {
    if a <= b then a else b
  }

  /** One attempt, over the positions its word and clue both have. */
  function AddAttempt(c: Constraints, a: Attempt): Constraints {
    AddPositions(c, a, Min(|a.word|, |a.clue|))
  }

  /** The attempts of `h` say what the earlier ones say plus what the last one says. */
  lemma SaysSnoc(h: seq<Attempt>)
    requires |h| > 0
    ensures forall t, l, ix: nat :: Says(h, t, l, ix) <==>
              Says(h[..|h| - 1], t, l, ix) || Mentions(h[|h| - 1], t, l, ix)
  {
    var front := h[..|h| - 1];
    forall t, l, ix: nat
      ensures Says(h, t, l, ix) <==> Says(front, t, l, ix) || Mentions(h[|h| - 1], t, l, ix)
    {
      if Says(h, t, l, ix) {
        var k :| 0 <= k < |h| && Mentions(h[k], t, l, ix);
        if k < |h| - 1 {
          assert front[k] == h[k];
        }
      }
      if Says(front, t, l, ix) {
        var k :| 0 <= k < |front| && Mentions(front[k], t, l, ix);
        assert h[k] == front[k];
      }
    }
  }

  function Last(h: seq<Attempt>): Attempt
    requires |h| > 0
  {
    h[|h| - 1]
  }

  /** Some attempt of the history marks letter `l` absent at some position. */
  ghost predicate Excluded(h: seq<Attempt>, l: char) {
    exists k, ix: nat :: 0 <= k < |h| && Mentions(h[k], Nothing, l, ix)
  }

  lemma ExcludedSnoc(h: seq<Attempt>)
    requires |h| > 0
    ensures forall l :: Excluded(h, l) <==>
              Excluded(h[..|h| - 1], l) || exists ix: nat :: Mentions(Last(h), Nothing, l, ix)
  {
    var front := h[..|h| - 1];
    forall l
      ensures Excluded(h, l) <==>
                Excluded(front, l) || exists ix: nat :: Mentions(Last(h), Nothing, l, ix)
    {
      if Excluded(h, l) {
        var k, ix: nat :| 0 <= k < |h| && Mentions(h[k], Nothing, l, ix);
        if k < |h| - 1 {
          assert front[k] == h[k];
        } else {
          assert Mentions(Last(h), Nothing, l, ix);
        }
      }
      if Excluded(front, l) {
        var k, ix: nat :| 0 <= k < |front| && Mentions(front[k], Nothing, l, ix);
        assert h[k] == front[k];
      }
      if exists ix: nat :: Mentions(Last(h), Nothing, l, ix) {
        var ix: nat :| Mentions(Last(h), Nothing, l, ix);
        assert Mentions(h[|h| - 1], Nothing, l, ix);
      }
    }
  }

  /** `parse_clues`: every attempt of the history, in order, folded into empty constraints.
      A position is recorded exactly when some attempt's clue says so there. */
  function ParseClues(h: seq<Attempt>): (r: Constraints)
    ensures forall l, ix: nat :: (l in r.right && ix in r.right[l]) <==> Says(h, RightSpot, l, ix)
    ensures forall l, ix: nat :: (l in r.wrong && ix in r.wrong[l]) <==> Says(h, WrongSpot, l, ix)
    ensures forall l :: l in r.absent <==> Excluded(h, l)
    ensures NonEmptyValues(r.right) && NonEmptyValues(r.wrong)
  {
    if |h| == 0 then NoConstraints
    else
      var prev := ParseClues(h[..|h| - 1]);
      var last := h[|h| - 1];
      var r := AddAttempt(prev, last);
      SaysSnoc(h);
      ExcludedSnoc(h);
      assert forall l, ix: nat, t :: Mentions(last, t, l, ix) ==> ix < Min(|last.word|, |last.clue|);
      r
  }

  /** Every clue of `h` is the feedback the game gives for its word against `secret`. */
  predicate Truthful(h: seq<Attempt>, secret: string) {
    forall k :: 0 <= k < |h| ==>
      |h[k].word| == |secret| && h[k].clue == Game.Feedback(h[k].word, secret)
  }

  /** A truthful attempt never marks a letter of the secret's own position as wrong-place. */
  lemma TruthfulNotWrongAt(h: seq<Attempt>, secret: string, i: nat)
    requires Truthful(h, secret) && i < |secret|
    ensures !Says(h, WrongSpot, secret[i], i)
  {
    forall k | 0 <= k < |h| ensures !Mentions(h[k], WrongSpot, secret[i], i) {
      var fb := Game.Feedback(h[k].word, secret);
      assert h[k].word[i] == secret[i] ==> fb[i] == RightSpot;
    }
  }

  /** A truthful attempt never marks a letter of the secret absent. */
  lemma TruthfulNotExcluded(h: seq<Attempt>, secret: string, i: nat)
    requires Truthful(h, secret) && i < |secret|
    ensures !Excluded(h, secret[i])
  {
    forall k, ix: nat | 0 <= k < |h| ensures !Mentions(h[k], Nothing, secret[i], ix) {
      if ix < |h[k].word| {
        var fb := Game.Feedback(h[k].word, secret);
        assert h[k].word[ix] == secret[i] ==> fb[ix] != Nothing;
      }
    }
  }

  lemma SecretRightPlace(h: seq<Attempt>, secret: string)
    requires Truthful(h, secret)
    ensures RightPlaceHolds(secret, ParseClues(h))
  {
    var c := ParseClues(h);
    forall l | l in c.right
      ensures l in secret && forall ix :: ix in c.right[l] ==> ix < |secret| && secret[ix] == l
    {
      forall ix | ix in c.right[l] ensures ix < |secret| && secret[ix] == l {
        assert Says(h, RightSpot, l, ix);
        var k :| 0 <= k < |h| && Mentions(h[k], RightSpot, l, ix);
      }
      var ix :| ix in c.right[l];
      assert secret[ix] == l;
    }
  }

  lemma SecretWrongPlace(h: seq<Attempt>, secret: string)
    requires Truthful(h, secret)
    ensures WrongPlaceHolds(secret, ParseClues(h))
  {
    var c := ParseClues(h);
    forall l | l in c.wrong
      ensures l in secret && forall i :: 0 <= i < |secret| && secret[i] == l ==> i !in c.wrong[l]
    {
      var ix :| ix in c.wrong[l];
      assert Says(h, WrongSpot, l, ix);
      var k :| 0 <= k < |h| && Mentions(h[k], WrongSpot, l, ix);
      assert l in secret;
      forall i | 0 <= i < |secret| && secret[i] == l ensures i !in c.wrong[l] {
        TruthfulNotWrongAt(h, secret, i);
      }
    }
  }

  lemma SecretNotAbsent(h: seq<Attempt>, secret: string)
    requires Truthful(h, secret)
    ensures AbsentHolds(secret, ParseClues(h))
  {
    var c := ParseClues(h);
    forall i | 0 <= i < |secret| ensures secret[i] !in c.absent {
      TruthfulNotExcluded(h, secret, i);
    }
  }

  /** Soundness: constraints parsed from the game's own feedback always accept
      the secret, so the secret is filtered out only once it has been guessed. */
  lemma SecretConsistent(h: seq<Attempt>, secret: string)
    requires Truthful(h, secret)
    ensures IsGuessableWord(secret, ParseClues(h))
  {
    SecretRightPlace(h, secret);
    SecretWrongPlace(h, secret);
    SecretNotAbsent(h, secret);
  }

  /** Clue accumulation: appending an attempt yields constraints that refine
      the earlier ones, so the surviving candidate set can only shrink. */
  lemma ParseGrows(h: seq<Attempt>, a: Attempt)
    ensures Refines(ParseClues(h + [a]), ParseClues(h))
  {
    var h' := h + [a];
    var weak, strong := ParseClues(h), ParseClues(h');
    forall k | 0 <= k < |h| ensures h'[k] == h[k] { }
    forall l | l in weak.right ensures l in strong.right && weak.right[l] <= strong.right[l] {
      var ix :| ix in weak.right[l];
      assert Says(h, RightSpot, l, ix);
      assert Says(h', RightSpot, l, ix);
      forall j | j in weak.right[l] ensures j in strong.right[l] {
        assert Says(h, RightSpot, l, j);
        assert Says(h', RightSpot, l, j);
      }
    }
    forall l | l in weak.wrong ensures l in strong.wrong && weak.wrong[l] <= strong.wrong[l] {
      var ix :| ix in weak.wrong[l];
      assert Says(h, WrongSpot, l, ix);
      assert Says(h', WrongSpot, l, ix);
      forall j | j in weak.wrong[l] ensures j in strong.wrong[l] {
        assert Says(h, WrongSpot, l, j);
        assert Says(h', WrongSpot, l, j);
      }
    }
    forall l | l in weak.absent ensures l in strong.absent {
      assert Excluded(h, l);
      var k, ix: nat :| 0 <= k < |h| && Mentions(h[k], Nothing, l, ix);
      assert Mentions(h'[k], Nothing, l, ix);
    }
  }
}
