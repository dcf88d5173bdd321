/** Tile outcomes (game/constants.py) and the two views of a clue the solver uses. */
module Tiles {
  import Sets

  /** One position's outcome; `Code` gives the integer the source stores. */
  datatype Tile = Nothing | WrongSpot | RightSpot

  function Code(t: Tile): (c: int)
    ensures 0 <= c <= 2
    ensures c == 0 <==> t == Nothing
    ensures c == 1 <==> t == WrongSpot
    ensures c == 2 <==> t == RightSpot
  {
    match t
    case Nothing => 0
    case WrongSpot => 1
    case RightSpot => 2
  }

  /** The decimal digit of a tile code, as `str` renders it. */
  function Digit(t: Tile): (d: char)
    ensures '0' <= d <= '9' && d as int - '0' as int == Code(t)
  {
    match t
    case Nothing => '0'
    case WrongSpot => '1'
    case RightSpot => '2'
  }

  /** `''.join(map(str, clue))`: the key under which a solution tree stores a clue. */
  function ClueString(clue: seq<Tile>): (s: string)
    ensures |s| == |clue|
    ensures forall i :: 0 <= i < |clue| ==> s[i] == Digit(clue[i])
  {
    if |clue| == 0 then "" else [Digit(clue[0])] + ClueString(clue[1..])
  }

  /** Two different clues never share a tree key, so a tree walk is determined by the clues. */
  lemma {:induction false} ClueStringInjective(a: seq<Tile>, b: seq<Tile>)
    requires ClueString(a) == ClueString(b)
    ensures a == b
  {
    if |a| > 0 {
      assert ClueString(a)[0] == Digit(a[0]) && ClueString(b)[0] == Digit(b[0]);
      assert ClueString(a)[1..] == ClueString(a[1..]);
      assert ClueString(b)[1..] == ClueString(b[1..]);
      ClueStringInjective(a[1..], b[1..]);
      assert a == [a[0]] + a[1..];
      assert b == [b[0]] + b[1..];
    }
  }

  /** The source's test for a solved clue:
      `len(clue) and len(set(clue)) == 1 and clue[0] == GUESS_RIGHT_SPOT`. */
  predicate IsAllRight(clue: seq<Tile>) {
    |clue| > 0 && |set t | t in clue| == 1 && clue[0] == RightSpot
  }

  /** The set-based test means: the clue is non-empty and every tile is RightSpot. */
  lemma AllRightMeans(clue: seq<Tile>)
    ensures IsAllRight(clue) <==> |clue| > 0 && forall i :: 0 <= i < |clue| ==> clue[i] == RightSpot
  {
    var s := set t | t in clue;
    if |clue| > 0 && forall i :: 0 <= i < |clue| ==> clue[i] == RightSpot {
      assert s == {RightSpot} by {
        forall t | t in s ensures t == RightSpot {
          var k :| 0 <= k < |clue| && clue[k] == t;
        }
        assert clue[0] in s;
      }
    }
    if IsAllRight(clue) {
      forall i | 0 <= i < |clue| ensures clue[i] == RightSpot {
        assert clue[i] in s && clue[0] in s;
        Sets.SingletonElements(s, clue[i], clue[0]);
      }
    }
  }

  /** Number of RightSpot tiles: `len([1 for c in clue if c == GUESS_RIGHT_SPOT])`. */
  function CountRight(clue: seq<Tile>): (k: nat)
    ensures k <= |clue|
  {
    if |clue| == 0 then 0 else (if clue[0] == RightSpot then 1 else 0) + CountRight(clue[1..])
  }

  /** The count reaches the clue's length exactly when every tile is RightSpot. */
  lemma {:induction false} CountRightFull(clue: seq<Tile>)
    ensures CountRight(clue) == |clue| <==> forall i :: 0 <= i < |clue| ==> clue[i] == RightSpot
  {
    if |clue| > 0 {
      CountRightFull(clue[1..]);
      if forall i :: 0 <= i < |clue| ==> clue[i] == RightSpot {
        assert forall i :: 0 <= i < |clue| - 1 ==> clue[1..][i] == RightSpot;
      } else if clue[0] == RightSpot {
        var i :| 0 <= i < |clue| && clue[i] != RightSpot;
        assert clue[1..][i - 1] != RightSpot;
      }
    }
  }
}
