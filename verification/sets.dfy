/** Small facts about finite sets used by several modules. */
module Sets {

  /** A set of cardinality one holds a single value. */
  lemma SingletonElements<T>(s: set<T>, a: T, b: T)
    requires |s| == 1 && a in s && b in s
    ensures a == b
  {
    assert |s - {a}| == 0;
    assert s - {a} == {};
  }
}
