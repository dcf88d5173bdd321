/** The vocabulary validator of game/util.py. */
module WordSet {
  import opened Results
  import Sets

  /** Every word of `words` has the same length. */
  predicate SameLength(words: seq<string>) {
    forall i, j :: 0 <= i < |words| && 0 <= j < |words| ==> |words[i]| == |words[j]|
  }

  /** The distinct word lengths occurring in `words` (the keys of the Counter). */
  function Lengths(words: seq<string>): set<nat> {
    set w | w in words :: |w|
  }

  /** There is more than one distinct length exactly when two words differ in length. */
  lemma {:induction false} LengthsCardinality(words: seq<string>)
    requires |words| > 0
    ensures |Lengths(words)| > 1 <==> !SameLength(words)
  {
    var s := Lengths(words);
    if SameLength(words) {
      assert s == {|words[0]|} by {
        forall n | n in s ensures n == |words[0]| {
          var w :| w in words && |w| == n;
          var k :| 0 <= k < |words| && words[k] == w;
        }
      }
    } else {
      var i, j :| 0 <= i < |words| && 0 <= j < |words| && |words[i]| != |words[j]|;
      assert |words[i]| in s && |words[j]| in s;
      if |s| <= 1 {
        assert |s| == 1;
        Sets.SingletonElements(s, |words[i]|, |words[j]|);
        assert false;
      }
    }
  }

  /** `get_n_from_word_set`: the common word length N of a non-empty,
      uniform-length vocabulary, or the exception the source raises. */
  function GetN(words: seq<string>): (r: Result<nat>)
    ensures |words| == 0 <==> r == Failure(EmptyWordSet)
    ensures r == Failure(MixedWordLengths) <==> |words| > 0 && !SameLength(words)
    ensures r.Success? <==> |words| > 0 && SameLength(words)
    ensures r.Success? ==> forall w :: w in words ==> |w| == r.value
    ensures |words| == 1 ==> r == Success(|words[0]|)
  {
    if |words| == 0 then
      Failure(EmptyWordSet)
    else if |Lengths(words)| > 1 then
      LengthsCardinality(words);
      Failure(MixedWordLengths)
    else
      LengthsCardinality(words);
      Success(|words[0]|)
  }
}
