/** Cardinality facts about finite sets, used by the termination measures. */
module Sets {
  lemma {:induction false} SubsetNotLarger<T>(s: set<T>, t: set<T>)
    requires s <= t
    ensures |s| <= |t|
    decreases |t|
  {
    if s != {} {
      var x :| x in s;
      SubsetNotLarger(s - {x}, t - {x});
    }
  }

  lemma SubsetSmaller<T>(s: set<T>, t: set<T>, x: T)
    requires s <= t && x in t && x !in s
    ensures |s| < |t|
  {
    SubsetNotLarger(s, t - {x});
  }
}
