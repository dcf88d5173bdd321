/** `guess_next_word` of game/solver/solver.py: the solution-tree walk and the
    frequency heuristic that picks the next guess from a clue history. */
module Solver {
  import opened Results
  import opened Tiles
  import WordSet
  import Sets
  import opened Consistency
  import opened Ranking

  /** A solution tree level: an ordered dictionary from a key (a guess, or the
      digit string of a clue) to the level below it. */
  datatype Tree = Node(children: seq<Branch>)
  datatype Branch = Branch(key: string, sub: Tree)

  /** The solver settings the function reads. An empty `guessSet` means that no
      guess set was given; a tree without entries means that none was given. */
  datatype SolverConfig = SolverConfig(
    candidateSet: seq<string>,
    guessSet: seq<string>,
    maxGuesses: int,
    nonStrict: bool,
    usePos: bool,
    nonPosWeight: real,
    solutionTree: Option<Tree>)

  /** The returned triple: the chosen guess (None: nothing left to guess), a
      list of surviving candidates, and the number of survivors. */
  datatype Choice = Choice(chosen: Option<string>, cands: seq<string>, count: int)

  /** `word_set`: the guess set when one is given, else the candidate set. */
  function WordsOf(cfg: SolverConfig): seq<string> {
    if |cfg.guessSet| == 0 then cfg.candidateSet else cfg.guessSet
  }

  predicate UsesTree(cfg: SolverConfig) {
    cfg.solutionTree.Some? && |cfg.solutionTree.value.children| > 0
  }

  predicate LowerWord(w: string) {
    forall i :: 0 <= i < |w| ==> 'a' <= w[i] <= 'z'
  }

  /** What the selector needs of its vocabulary: all candidate and guess words
      have one length and consist of the letters a..z that the positional
      scorer's 26-slot table is indexed by. */
  predicate ValidConfig(cfg: SolverConfig) {
    && WordSet.SameLength(cfg.candidateSet + cfg.guessSet)
    && forall w :: w in cfg.candidateSet + cfg.guessSet ==> LowerWord(w)
  }

  // ---------------------------------------------------------------------
  // The solution-tree path (solver.py:48-62)

  /** `base[key]`: the entry stored under `key`, if any. */
  function Lookup(t: Tree, key: string): (r: Option<Tree>)
    ensures r.None? <==> forall i :: 0 <= i < |t.children| ==> t.children[i].key != key
    ensures r.Some? ==> exists i :: 0 <= i < |t.children| && t.children[i] == Branch(key, r.value)
  {
    LookupIn(t.children, key)
  }

  /** The first entry of `bs` stored under `key`: dictionary keys are unique, so
      this is the entry. */
  function LookupIn(bs: seq<Branch>, key: string): (r: Option<Tree>)
    ensures r.None? <==> forall i :: 0 <= i < |bs| ==> bs[i].key != key
    ensures r.Some? ==> exists i :: 0 <= i < |bs| && bs[i] == Branch(key, r.value)
  {
    if |bs| == 0 then None
    else if bs[0].key == key then Some(bs[0].sub)
    else
      var r := LookupIn(bs[1..], key);
      assert forall i :: 1 <= i < |bs| ==> bs[i] == bs[1..][i - 1];
      r
  }

  /** One history step: the level under the guess, then under its clue string. */
  function Step(t: Tree, a: Attempt): Result<Tree> {
    match Lookup(t, a.word)
    case None => Failure(TreeMismatch)
    case Some(byClue) =>
      match Lookup(byClue, ClueString(a.clue))
      case None => Failure(TreeMismatch)
      case Some(next) => Success(next)
  }

  /** The walk down the tree along the whole history, failing at the first missing key. */
  function Walk(t: Tree, clues: seq<Attempt>): (r: Result<Tree>)
    ensures r.Failure? ==> r.error == TreeMismatch
  {
    if |clues| == 0 then Success(t)
    else
      match Step(t, clues[0])
      case Failure(e) => Failure(e)
      case Success(next) => Walk(next, clues[1..])
  }

  /** Walking `h + rest` walks `h`, then `rest` from where `h` ended; a walk that
      fails on `h` fails on every extension. */
  lemma {:induction false} WalkAppend(t: Tree, h: seq<Attempt>, rest: seq<Attempt>)
    ensures Walk(t, h + rest) ==
              match Walk(t, h)
              case Failure(e) => Failure(TreeMismatch)
              case Success(node) => Walk(node, rest)
  {
    if |h| == 0 {
      assert h + rest == rest;
    } else {
      assert (h + rest)[0] == h[0];
      assert (h + rest)[1..] == h[1..] + rest;
      match Step(t, h[0])
      case Failure(e) =>
      case Success(next) => WalkAppend(next, h[1..], rest);
    }
  }

  /** The tree path: walk the history, report "solved" after an all-RightSpot
      clue, and otherwise force the first key of the reached level. */
  function TreeStep(t: Tree, clues: seq<Attempt>): (r: Result<Choice>)
    ensures Walk(t, clues).Failure? ==> r == Failure(TreeMismatch)
    ensures r.Success? && r.value.chosen.None? <==>
              Walk(t, clues).Success? && |clues| > 0 && IsAllRight(Last(clues).clue)
    ensures r.Success? && r.value.chosen.Some? ==>
              && Walk(t, clues).Success?
              && var node := Walk(t, clues).value;
                 |node.children| > 0 && r.value == Choice(Some(node.children[0].key), [node.children[0].key], 1)
    ensures r.Failure? ==> r.error == TreeMismatch
  {
    match Walk(t, clues)
    case Failure(e) => Failure(e)
    case Success(node) =>
      if |clues| > 0 && IsAllRight(Last(clues).clue) then Success(Choice(None, [], 0))
      else if |node.children| == 0 then Failure(TreeMismatch)
      else Success(Choice(Some(node.children[0].key), [node.children[0].key], 1))
  }

  // ---------------------------------------------------------------------
  // The heuristic path (solver.py:66-182)

  /** `prev_guesses`. */
  function PrevGuesses(clues: seq<Attempt>): set<string> {
    set a | a in clues :: a.word
  }

  /** The early exit of solver.py:72: the last clue is all RightSpot and its word
      satisfies the parsed constraints. */
  predicate SolvedAlready(clues: seq<Attempt>, cons: Constraints) {
    |clues| > 0 && IsAllRight(Last(clues).clue) && IsGuessableWord(Last(clues).word, cons)
  }

  /** A candidate survives when it was not guessed yet and is consistent with the clues. */
  predicate Survives(w: string, prev: set<string>, cons: Constraints) {
    w !in prev && IsGuessableWord(w, cons)
  }

  /** The filter test of solver.py:75-76 for one history. */
  function SurvivorTest(clues: seq<Attempt>): string -> bool {
    var prev := PrevGuesses(clues);
    var cons := ParseClues(clues);
    w => Survives(w, prev, cons)
  }

  /** `cands`, in candidate-set order: every occurrence of a surviving
      candidate, and nothing else. */
  function Candidates(cfg: SolverConfig, clues: seq<Attempt>): (r: seq<string>)
    ensures forall w :: w in r <==> w in cfg.candidateSet && Survives(w, PrevGuesses(clues), ParseClues(clues))
    ensures forall w :: multiset(r)[w] ==
              if Survives(w, PrevGuesses(clues), ParseClues(clues)) then multiset(cfg.candidateSet)[w] else 0
  {
    FilterCounts(cfg.candidateSet, SurvivorTest(clues));
    Filter(cfg.candidateSet, SurvivorTest(clues))
  }

  /** `new_musts`: the letters the survivors hold at each of the N positions. */
  function Musts(cands: seq<string>, n: nat): (m: seq<set<char>>)
    ensures |m| == n
    ensures forall ix, l :: 0 <= ix < n ==>
              (l in m[ix] <==> exists c :: c in cands && ix < |c| && c[ix] == l)
  {
    seq(n, ix requires 0 <= ix < n => set c | c in cands && ix < |c| :: c[ix])
  }

  /** `list(cond)[0]` for a one-element set. */
  function Only(s: set<char>): (x: char)
    requires |s| == 1
    ensures s == {x}
  {
    assert forall a, b :: a in s && b in s ==> a == b by {
      forall a, b | a in s && b in s ensures a == b {
        Sets.SingletonElements(s, a, b);
      }
    }
    var x :| x in s;
    x
  }

  /** Position `ix` is recorded for some letter of `right`. */
  predicate Pinned(right: map<char, set<nat>>, ix: nat) {
    exists l :: l in right && ix in right[l]
  }

  /** Position `ix < k` has exactly one survivor letter, and it is `l`. */
  predicate Promoted(musts: seq<set<char>>, k: nat, l: char, ix: nat) {
    ix < k && ix < |musts| && |musts[ix]| == 1 && l in musts[ix]
  }

  /** The promotion loop of solver.py:94-97 over positions 0 .. k-1: a position
      where every survivor has the same letter becomes a right-place position. */
  function Promote(right: map<char, set<nat>>, musts: seq<set<char>>, k: nat): (r: map<char, set<nat>>)
    requires k <= |musts|
    ensures forall l, ix: nat :: (l in r && ix in r[l]) <==>
              (l in right && ix in right[l]) || Promoted(musts, k, l, ix)
    ensures forall l :: l in r <==> l in right || exists ix: nat :: Promoted(musts, k, l, ix)
  {
    if k == 0 then right
    else
      var prev := Promote(right, musts, k - 1);
      if |musts[k - 1]| == 1 then
        var l := Only(musts[k - 1]);
        var r := Insert(prev, l, k - 1);
        var last := k - 1;
        assert forall l' :: Promoted(musts, k, l', last) <==> l' == l;
        assert forall l', ix: nat :: Promoted(musts, k, l', ix) <==>
                 Promoted(musts, k - 1, l', ix) || (ix == k - 1 && l' == l);
        r
      else
        assert forall l', ix: nat :: Promoted(musts, k, l', ix) <==> Promoted(musts, k - 1, l', ix);
        prev
  }

  /** `unknown_places`: the positions below N no right-place letter pins. */
  function Unknown(right: map<char, set<nat>>, n: nat): (u: set<nat>)
    ensures forall ix: nat :: ix in u <==> ix < n && !Pinned(right, ix)
  {
    set ix: nat | ix < n && !Pinned(right, ix)
  }

  /** The inputs of the frequency tables: survivors, unknown positions, absent letters. */
  datatype Tally = Tally(cands: seq<string>, unknown: set<nat>, absent: set<char>)

  /** Candidate `c` contributes letter `l` at position `i` to the tables. */
  predicate Hit(t: Tally, c: string, i: nat, l: char) {
    i < |c| && i in t.unknown && c[i] == l && l !in t.absent
  }

  /** Contributions of `c` at positions 0 .. k-1, for one letter. */
  function LetterHits(t: Tally, c: string, l: char, k: nat): nat
    requires k <= |c|
  {
    if k == 0 then 0 else LetterHits(t, c, l, k - 1) + (if Hit(t, c, k - 1, l) then 1 else 0)
  }

  /** Contributions of `c` at positions 0 .. k-1, any letter. */
  function AllHits(t: Tally, c: string, k: nat): nat
    requires k <= |c|
  {
    if k == 0 then 0 else AllHits(t, c, k - 1) + (if Hit(t, c, k - 1, c[k - 1]) then 1 else 0)
  }

  /** `conditional_pos_freq[i][l]`. */
  function PosFreq(t: Tally, i: nat, l: char): nat
    decreases |t.cands|
  {
    if |t.cands| == 0 then 0
    else (if Hit(t, t.cands[0], i, l) then 1 else 0) + PosFreq(t.(cands := t.cands[1..]), i, l)
  }

  /** `conditional_unknown_freq[l]`: occurrences of `l` at unknown positions, over all survivors. */
  function GlobalFreq(t: Tally, l: char): nat
    decreases |t.cands|
  {
    if |t.cands| == 0 then 0
    else LetterHits(t, t.cands[0], l, |t.cands[0]|) + GlobalFreq(t.(cands := t.cands[1..]), l)
  }

  /** `total_unknown_freq`. */
  function TotalFreq(t: Tally): nat
    decreases |t.cands|
  {
    if |t.cands| == 0 then 0
    else AllHits(t, t.cands[0], |t.cands[0]|) + TotalFreq(t.(cands := t.cands[1..]))
  }

  /** The positional scorer's walk over `word` from position k, visiting each
      letter at its first occurrence only: (right-position mass, wrong-position mass). */
  function PositionalParts(t: Tally, word: string, k: nat, seen: set<char>): (int, int)
    requires k <= |word|
    decreases |word| - k
  {
    if k == |word| then (0, 0)
    else if word[k] in seen then PositionalParts(t, word, k + 1, seen)
    else
      var rest := PositionalParts(t, word, k + 1, seen + {word[k]});
      var p := PosFreq(t, k, word[k]);
      (p + rest.0, GlobalFreq(t, word[k]) - p + rest.1)
  }

  /** `sort_maximal_position_with_nonpos`: -(score + NON_POS_WEIGHT * nonpos_score). */
  function PositionalScore(t: Tally, weight: real, word: string): real {
    var parts := PositionalParts(t, word, 0, {});
    -(parts.0 as real + weight * parts.1 as real)
  }

  /** The sum of global frequencies of the distinct letters of `word[k..]` not in `seen`. */
  function DistinctMass(t: Tally, word: string, k: nat, seen: set<char>): int
    requires k <= |word|
    decreases |word| - k
  {
    if k == |word| then 0
    else if word[k] in seen then DistinctMass(t, word, k + 1, seen)
    else GlobalFreq(t, word[k]) + DistinctMass(t, word, k + 1, seen + {word[k]})
  }

  /** `sort_maximal_nonpos`: minus the global frequencies summed over `set(word)`. */
  function NonPositionalScore(t: Tally, word: string): real {
    -(DistinctMass(t, word, 0, {}) as real)
  }

  /** `boost_letters_in_right_place`: minus the number of positions whose letter
      is one of several still possible there and is a right-place letter. */
  function Boost(musts: seq<set<char>>, right: map<char, set<nat>>, word: string): int {
    0 - BoostCount(musts, right, word, |word|)
  }

  function BoostCount(musts: seq<set<char>>, right: map<char, set<nat>>, word: string, k: nat): nat
    requires k <= |word|
  {
    if k == 0 then 0
    else
      var i := k - 1;
      BoostCount(musts, right, word, i) +
        (if i < |musts| && word[i] in musts[i] && |musts[i]| > 1 && word[i] in right then 1 else 0)
  }

  /** The primary sort key the settings select. */
  function PrimaryKey(cfg: SolverConfig, t: Tally): string -> real {
    if cfg.usePos then w => PositionalScore(t, cfg.nonPosWeight, w)
    else w => NonPositionalScore(t, w)
  }

  function SecondaryKey(musts: seq<set<char>>, right: map<char, set<nat>>): string -> real {
    w => Boost(musts, right, w) as real
  }

  /** Everything the heuristic derives from the survivors before ranking. */
  datatype Context = Context(musts: seq<set<char>>, right: map<char, set<nat>>, tally: Tally)

  function BuildContext(cons: Constraints, cands: seq<string>, n: nat): Context {
    var musts := Musts(cands, n);
    var right := Promote(cons.right, musts, n);
    Context(musts, right, Tally(cands, Unknown(right, n), cons.absent))
  }

  /** `explorable` before sorting: the guess set in non-strict mode, the
      survivors otherwise, without the words already played. */
  function Explorable(cfg: SolverConfig, prev: set<string>, cands: seq<string>): (r: seq<string>)
    ensures var from := if cfg.nonStrict then WordsOf(cfg) else cands;
            && (forall w :: w in r <==> w in from && w !in prev)
            && (forall w :: multiset(r)[w] == if w in prev then 0 else multiset(from)[w])
  {
    FilterCounts(if cfg.nonStrict then WordsOf(cfg) else cands, Unplayed(prev));
    Filter(if cfg.nonStrict then WordsOf(cfg) else cands, Unplayed(prev))
  }

  /** The filter test of solver.py:151: the word was not played yet. */
  function Unplayed(prev: set<string>): string -> bool {
    w => w !in prev
  }

  /** `cands[:5]`: the first five survivors, or all of them when there are fewer. */
  function Preview(cands: seq<string>): (r: seq<string>)
    ensures |r| == if |cands| < 5 then |cands| else 5
    ensures r == cands[..|r|]
  {
    if |cands| <= 5 then cands else cands[..5]
  }

  /** solver.py:90-182, reached with at least two survivors and more than one guess left. */
  function Explore(cfg: SolverConfig, n: nat, cons: Constraints, prev: set<string>, cands: seq<string>): (r: Result<Choice>)
    ensures r == Failure(NoFrequency) <==> TotalFreq(BuildContext(cons, cands, n).tally) == 0
    ensures r == Failure(NoExplorable) <==>
              TotalFreq(BuildContext(cons, cands, n).tally) > 0 && |Explorable(cfg, prev, cands)| == 0
    ensures r.Failure? ==> r.error == NoFrequency || r.error == NoExplorable
    ensures r.Success? ==>
              && r.value.chosen.Some? && r.value.chosen.value in Explorable(cfg, prev, cands)
              && r.value.cands == Preview(cands) && r.value.count == |cands|
  {
    var ctx := BuildContext(cons, cands, n);
    if TotalFreq(ctx.tally) == 0 then Failure(NoFrequency)
    else
      var pool := Explorable(cfg, prev, cands);
      if |pool| == 0 then Failure(NoExplorable)
      else
        var chosen := Select(pool, PrimaryKey(cfg, ctx.tally), SecondaryKey(ctx.musts, ctx.right));
        Success(Choice(Some(chosen), Preview(cands), |cands|))
  }

  /** solver.py:66-84 followed by `Explore`. */
  function Heuristic(clues: seq<Attempt>, cfg: SolverConfig): (r: Result<Choice>)
    ensures r.Failure? ==> r.error in {EmptyWordSet, MixedWordLengths, NoCandidates, NoFrequency, NoExplorable}
    ensures r == Failure(NoCandidates) <==>
              WordSet.GetN(WordsOf(cfg)).Success? && !SolvedAlready(clues, ParseClues(clues))
              && |Candidates(cfg, clues)| == 0
    ensures r.Success? && r.value.chosen.None? ==> SolvedAlready(clues, ParseClues(clues))
    ensures r.Success? && r.value.chosen.Some? ==> r.value.chosen.value !in PrevGuesses(clues)
  {
    match WordSet.GetN(WordsOf(cfg))
    case Failure(e) => Failure(e)
    case Success(n) =>
      var cons := ParseClues(clues);
      var prev := PrevGuesses(clues);
      if SolvedAlready(clues, cons) then Success(Choice(None, [], 0))
      else
        var cands := Candidates(cfg, clues);
        if |cands| == 0 then Failure(NoCandidates)
        else if |cands| == 1 || cfg.maxGuesses - |clues| == 1 then
          assert cands[0] in cands;
          Success(Choice(Some(cands[0]), cands, |cands|))
        else Explore(cfg, n, cons, prev, cands)
  }

  /** The heuristic path is taken and `word_set` has one word length, so the
      selector goes on to index the candidates' letters by position. */
  predicate ReachesHeuristic(cfg: SolverConfig) {
    |cfg.candidateSet| > 0 && !UsesTree(cfg) && WordSet.SameLength(WordsOf(cfg))
  }

  /** `guess_next_word`. The missing candidate set is reported first; a given
      tree answers alone; every other failure is one of the heuristic's checks. */
  function GuessNextWord(clues: seq<Attempt>, cfg: SolverConfig): (r: Result<Choice>)
    requires ReachesHeuristic(cfg) ==> ValidConfig(cfg)
    ensures r == Failure(MissingCandidateSet) <==> |cfg.candidateSet| == 0
    ensures r.Failure? ==>
              r.error in {MissingCandidateSet, MixedWordLengths, TreeMismatch, NoCandidates, NoFrequency, NoExplorable}
  {
    if |cfg.candidateSet| == 0 then Failure(MissingCandidateSet)
    else if UsesTree(cfg) then TreeStep(cfg.solutionTree.value, clues)
    else Heuristic(clues, cfg)
  }
}
