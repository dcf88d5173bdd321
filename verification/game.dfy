/** The `Wordle` game object of game/wordle.py as an immutable value.

    The Python object is mutated in place by `guess`; here `Guess` returns the
    next game value, and a failing call returns no game at all, so the caller
    keeps the unchanged one. */
module Game {
  import opened Results
  import opened Tiles
  import WordSet

  datatype State = Playing | Solved | Unsolved

  /** The fields of the Python object: N, MAX_GUESSES, all_words, _word, guesses, state. */
  datatype Wordle = Wordle(
    n: nat,
    maxGuesses: int,
    allWords: set<string>,
    secret: string,
    guesses: seq<string>,
    state: State)

  /** What `guess` returns, together with the game after the call. */
  datatype Turn = Turn(clue: Option<seq<Tile>>, state: State, game: Wordle)

  /** `str.lower()` on the ASCII upper-case letters; other characters are kept. */
  function LowerChar(c: char): (r: char)
    ensures 'A' <= c <= 'Z' ==> 'a' <= r <= 'z' && r as int - 'a' as int == c as int - 'A' as int
    ensures !('A' <= c <= 'Z') ==> r == c
  {
    if 'A' <= c <= 'Z' then (c as int + 32) as char else c
  }

  function Lower(w: string): (r: string)
    ensures |r| == |w|
    ensures forall i :: 0 <= i < |w| ==> r[i] == LowerChar(w[i])
  {
    if |w| == 0 then "" else [LowerChar(w[0])] + Lower(w[1..])
  }

  /** `check_word`: the length test comes before the vocabulary test. */
  function CheckWord(n: nat, allWords: set<string>, w: string): (r: Option<Error>)
    ensures r == None <==> |w| == n && w in allWords
    ensures r == Some(WrongLength) <==> |w| != n
    ensures r == Some(NotAWord) <==> |w| == n && w !in allWords
  {
    if |w| != n then Some(WrongLength)
    else if w !in allWords then Some(NotAWord)
    else None
  }

  /** The outcome of one position: judged against the whole secret, with no
      consume-once accounting of repeated letters. */
  function TileFor(g: char, secret: string, i: nat): (t: Tile)
    requires i < |secret|
    ensures t == RightSpot <==> secret[i] == g
    ensures t == WrongSpot <==> secret[i] != g && g in secret
    ensures t == Nothing <==> g !in secret
  {
    if secret[i] == g then RightSpot
    else if g in secret then WrongSpot
    else Nothing
  }

  /** The clue `guess` computes for a checked guess. */
  function Feedback(guess: string, secret: string): (clue: seq<Tile>)
    requires |guess| == |secret|
    ensures |clue| == |guess|
    ensures forall i :: 0 <= i < |guess| ==> (clue[i] == RightSpot <==> guess[i] == secret[i])
    ensures forall i :: 0 <= i < |guess| ==>
              (clue[i] == WrongSpot <==> guess[i] != secret[i] && guess[i] in secret)
    ensures forall i :: 0 <= i < |guess| ==> (clue[i] == Nothing <==> guess[i] !in secret)
  {
    seq(|guess|, i requires 0 <= i < |guess| => TileFor(guess[i], secret, i))
  }

  /** The source's solved test (count of RightSpot tiles equals N) holds
      exactly when the guess is the secret. */
  lemma FeedbackSolvesIffEqual(guess: string, secret: string)
    requires |guess| == |secret|
    ensures CountRight(Feedback(guess, secret)) == |secret| <==> guess == secret
    ensures |secret| > 0 ==> (IsAllRight(Feedback(guess, secret)) <==> guess == secret)
  {
    var clue := Feedback(guess, secret);
    CountRightFull(clue);
    AllRightMeans(clue);
    if forall i :: 0 <= i < |clue| ==> clue[i] == RightSpot {
      assert guess == secret;
    }
  }

  /** What every game value reachable from `NewWordle` satisfies. */
  predicate Inv(g: Wordle) {
    && |g.secret| == g.n
    && (forall k :: 0 <= k < |g.guesses| ==> |g.guesses[k]| == g.n && g.guesses[k] in g.allWords)
    && (g.state == Solved <==> g.secret in g.guesses)
    && (g.state == Unsolved ==> |g.guesses| >= g.maxGuesses)
    && (g.state == Playing ==> |g.guesses| == 0 || |g.guesses| < g.maxGuesses)
    && (|g.guesses| <= 1 || |g.guesses| <= g.maxGuesses)
  }

  /** `Wordle.__init__`: validates the vocabulary, then the secret (before
      lowering it), and starts an empty game in play. */
  function NewWordle(wordSet: seq<string>, word: string, maxGuesses: int): (r: Result<Wordle>)
    ensures |wordSet| == 0 ==> r == Failure(EmptyWordSet)
    ensures |wordSet| > 0 && !WordSet.SameLength(wordSet) ==> r == Failure(MixedWordLengths)
    ensures r.Success? <==>
              |wordSet| > 0 && WordSet.SameLength(wordSet) && |word| == |wordSet[0]| && word in wordSet
    ensures r.Success? ==>
              && Inv(r.value)
              && r.value.state == Playing
              && r.value.guesses == []
              && r.value.secret == Lower(word)
              && r.value.maxGuesses == maxGuesses
              && r.value.allWords == set w | w in wordSet
              && (forall w :: w in wordSet ==> |w| == r.value.n)
  {
    match WordSet.GetN(wordSet)
    case Failure(e) => Failure(e)
    case Success(n) =>
      var allWords := set w | w in wordSet;
      match CheckWord(n, allWords, word)
      case Some(e) => Failure(e)
      case None => Success(Wordle(n, maxGuesses, allWords, Lower(word), [], Playing))
  }

  /** `Wordle.guess`. A finished game answers `(None, state)` and stays as it
      is; otherwise the lowered guess is checked, recorded and scored, and the
      game is solved by the secret, lost when the guess count reaches
      MAX_GUESSES, and still in play otherwise. */
  function Guess(g: Wordle, word: string): (r: Result<Turn>)
    requires Inv(g)
    ensures g.state != Playing ==> r == Success(Turn(None, g.state, g))
    ensures g.state == Playing ==>
              (r.Success? <==> |Lower(word)| == g.n && Lower(word) in g.allWords)
    ensures g.state == Playing && |Lower(word)| != g.n ==> r == Failure(WrongLength)
    ensures g.state == Playing && |Lower(word)| == g.n && Lower(word) !in g.allWords ==> r == Failure(NotAWord)
    ensures r.Failure? ==> r.error == WrongLength || r.error == NotAWord
    ensures g.state == Playing && r.Success? ==>
              var w := Lower(word);
              var t := r.value;
              && t.clue == Some(Feedback(w, g.secret))
              && t.game == g.(guesses := g.guesses + [w], state := t.state)
              && t.state == t.game.state
              && (t.state == Solved <==> w == g.secret)
              && (t.state == Unsolved <==> w != g.secret && |g.guesses| + 1 >= g.maxGuesses)
    ensures r.Success? ==> Inv(r.value.game)
    ensures r.Success? && g.maxGuesses >= 1 ==> |r.value.game.guesses| <= g.maxGuesses
  {
    if g.state != Playing then
      Success(Turn(None, g.state, g))
    else
      var w := Lower(word);
      match CheckWord(g.n, g.allWords, w)
      case Some(e) => Failure(e)
      case None =>
        var guesses := g.guesses + [w];
        var clue := Feedback(w, g.secret);
        var state :=
          if CountRight(clue) == g.n then Solved
          else if |guesses| >= g.maxGuesses then Unsolved
          else Playing;
        FeedbackSolvesIffEqual(w, g.secret);
        Success(Turn(Some(clue), state, g.(guesses := guesses, state := state)))
  }
}
