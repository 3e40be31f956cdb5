/** Cardinality facts about finite sets that the aggregates rely on. */
module Sets {
  /** A subset is no larger than the set containing it. */
  lemma {:induction false} SubsetCard<T>(a: set<T>, b: set<T>)
    requires a <= b
    ensures |a| <= |b|
  {
    if a != {} {
      var x :| x in a;
      SubsetCard(a - {x}, b - {x});
    }
  }

  /** n distinct values, all drawn from s, need at least n elements of s. */
  lemma {:induction false} InjectiveBound<T>(f: int -> T, n: nat, s: set<T>)
    requires forall i, j :: 0 <= i < n && 0 <= j < n && i != j ==> f(i) != f(j)
    requires forall i :: 0 <= i < n ==> f(i) in s
    ensures n <= |s|
  {
    if n > 0 {
      InjectiveBound(f, n - 1, s - {f(n - 1)});
    }
  }
}
