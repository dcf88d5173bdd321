/** The list operations the guess selector is built from: list comprehension
    filtering, the minimum sort key, Python's string order and `min` over strings,
    and the three-stage ranking of solver.py. */
module Ranking {

  /** `w` is the first element of `s` that `keep` accepts. */
  ghost predicate FirstKept(s: seq<string>, keep: string -> bool, w: string) {
    exists i :: 0 <= i < |s| && s[i] == w && keep(w) && forall j :: 0 <= j < i ==> !keep(s[j])
  }

  /** `[w for w in s if keep(w)]`, keeping the order of `s`. */
  function Filter(s: seq<string>, keep: string -> bool): (r: seq<string>)
    ensures forall w :: w in r <==> w in s && keep(w)
    ensures |r| <= |s|
  {
    if |s| == 0 then []
    else if keep(s[0]) then [s[0]] + Filter(s[1..], keep)
    else Filter(s[1..], keep)
  }

  /** Each accepted word keeps all its occurrences and each rejected one
      loses them all, so the length of the result is the number of accepted
      occurrences. */
  lemma {:induction false} FilterCounts(s: seq<string>, keep: string -> bool)
    ensures forall w :: multiset(Filter(s, keep))[w] == if keep(w) then multiset(s)[w] else 0
  {
    if |s| > 0 {
      FilterCounts(s[1..], keep);
      assert s == [s[0]] + s[1..];
    }
  }

  /** A comprehension over a concatenation is the concatenation of the comprehensions. */
  lemma {:induction false} FilterAppend(a: seq<string>, b: seq<string>, keep: string -> bool)
    ensures Filter(a + b, keep) == Filter(a, keep) + Filter(b, keep)
  {
    if |a| == 0 {
      assert a + b == b;
    } else {
      assert (a + b)[0] == a[0];
      assert (a + b)[1..] == a[1..] + b;
      FilterAppend(a[1..], b, keep);
    }
  }

  /** A comprehension that keeps no element returns the empty list. */
  lemma {:induction false} FilterNone(s: seq<string>, keep: string -> bool)
    requires forall i :: 0 <= i < |s| ==> !keep(s[i])
    ensures Filter(s, keep) == []
  {
    if |s| > 0 {
      FilterNone(s[1..], keep);
    }
  }

  /** A comprehension that keeps every element returns the list unchanged. */
  lemma {:induction false} FilterAll(s: seq<string>, keep: string -> bool)
    requires forall i :: 0 <= i < |s| ==> keep(s[i])
    ensures Filter(s, keep) == s
  {
    if |s| > 0 {
      FilterAll(s[1..], keep);
      assert [s[0]] + s[1..] == s;
    }
  }

  /** The filtered list starts with the first element of `s` that `keep` accepts. */
  lemma {:induction false} FilterFirst(s: seq<string>, keep: string -> bool)
    ensures |Filter(s, keep)| > 0 ==> FirstKept(s, keep, Filter(s, keep)[0])
  {
    if |s| > 0 {
      if keep(s[0]) {
        assert s[0] == s[0];
      } else {
        FilterFirst(s[1..], keep);
        var r := Filter(s[1..], keep);
        if |r| > 0 {
          var i :| 0 <= i < |s[1..]| && s[1..][i] == r[0] && keep(r[0]) &&
            forall j :: 0 <= j < i ==> !keep(s[1..][j]);
          assert forall j :: 1 <= j < i + 1 ==> s[j] == s[1..][j - 1];
          assert s[i + 1] == r[0];
        }
      }
    }
  }

  /** The key of the first element after `s.sort(key=key)`: the least key in `s`. */
  function MinKey(s: seq<string>, key: string -> real): (m: real)
    requires |s| > 0
    ensures exists i :: 0 <= i < |s| && key(s[i]) == m
    ensures forall i :: 0 <= i < |s| ==> m <= key(s[i])
  {
    if |s| == 1 then key(s[0])
    else
      var rest := MinKey(s[1..], key);
      assert forall i :: 1 <= i < |s| ==> s[i] == s[1..][i - 1];
      if key(s[0]) <= rest then key(s[0]) else rest
  }

  /** Python's `a <= b` on strings: code-point lexicographic order, a prefix first. */
  predicate LexLe(a: string, b: string) {
    if |a| == 0 then true
    else if |b| == 0 then false
    else if a[0] != b[0] then a[0] < b[0]
    else LexLe(a[1..], b[1..])
  }

  lemma {:induction false} LexLeReflexive(a: string)
    ensures LexLe(a, a)
  {
    if |a| > 0 {
      LexLeReflexive(a[1..]);
    }
  }

  lemma {:induction false} LexLeTotal(a: string, b: string)
    ensures LexLe(a, b) || LexLe(b, a)
  {
    if |a| > 0 && |b| > 0 && a[0] == b[0] {
      LexLeTotal(a[1..], b[1..]);
    }
  }

  lemma {:induction false} LexLeTransitive(a: string, b: string, c: string)
    requires LexLe(a, b) && LexLe(b, c)
    ensures LexLe(a, c)
  {
    if |a| > 0 && |b| > 0 && |c| > 0 && a[0] == b[0] && b[0] == c[0] {
      LexLeTransitive(a[1..], b[1..], c[1..]);
    }
  }

  lemma {:induction false} LexLeAntisymmetric(a: string, b: string)
    requires LexLe(a, b) && LexLe(b, a)
    ensures a == b
  {
    if |a| > 0 && |b| > 0 {
      LexLeAntisymmetric(a[1..], b[1..]);
      assert a == [a[0]] + a[1..];
      assert b == [b[0]] + b[1..];
    }
  }

  /** `min(s)` over strings: an element of `s` no greater than any other. */
  function LexMin(s: seq<string>): (m: string)
    requires |s| > 0
    ensures m in s
    ensures forall w :: w in s ==> LexLe(m, w)
  {
    if |s| == 1 then
      LexLeReflexive(s[0]);
      s[0]
    else
      var rest := LexMin(s[1..]);
      LexLeTotal(s[0], rest);
      assert forall w :: w in s ==> w == s[0] || w in s[1..];
      if LexLe(rest, s[0]) then
        assert forall w :: w in s[1..] ==> LexLe(rest, w);
        rest
      else
        assert forall w :: w in s[1..] ==> LexLe(s[0], rest) && LexLe(rest, w);
        forall w | w in s[1..] ensures LexLe(s[0], w) {
          LexLeTransitive(s[0], rest, w);
        }
        LexLeReflexive(s[0]);
        s[0]
  }

  /** `w` wins every stage of the ranking of `pool`: it has the least primary
      key, the least secondary key among those, and is the lexicographically
      smallest among those. */
  ghost predicate Wins(pool: seq<string>, primary: string -> real, secondary: string -> real, w: string) {
    && w in pool
    && (forall v :: v in pool ==> primary(w) <= primary(v))
    && (forall v :: v in pool && primary(v) == primary(w) ==> secondary(w) <= secondary(v))
    && (forall v :: v in pool && primary(v) == primary(w) && secondary(v) == secondary(w) ==> LexLe(w, v))
  }

  /** The selector's final three stages over the explorable pool: keep the words
      with the least primary key, then those with the least secondary key, and
      return the lexicographically smallest of them. */
  function Select(pool: seq<string>, primary: string -> real, secondary: string -> real): (chosen: string)
    requires |pool| > 0
    ensures Wins(pool, primary, secondary, chosen)
  {
    var best := MinKey(pool, primary);
    var tied := Filter(pool, w => primary(w) == best);
    var i :| 0 <= i < |pool| && primary(pool[i]) == best;
    assert pool[i] in tied;
    var best2 := MinKey(tied, secondary);
    var tied2 := Filter(tied, w => secondary(w) == best2);
    var j :| 0 <= j < |tied| && secondary(tied[j]) == best2;
    assert tied[j] in tied2;
    LexMin(tied2)
  }

  /** The ranking has exactly one winner: any word meeting all three stages is `Select`'s. */
  lemma SelectUnique(pool: seq<string>, primary: string -> real, secondary: string -> real, w: string)
    requires |pool| > 0 && Wins(pool, primary, secondary, w)
    ensures w == Select(pool, primary, secondary)
  {
    var c := Select(pool, primary, secondary);
    LexLeAntisymmetric(w, c);
  }
}
