/** Logs of touched keys, lists without duplicates, and how many keys can be in a set: shared by several modules. */
module LastTouch {

  /** The last position of `k` in `log`, or -1. */
  function LastIn<K(==)>(log: seq<K>, k: K): (i: int)
    ensures -1 <= i < |log|
    ensures i >= 0 ==> log[i] == k
  {
    if log == [] then -1
    else if log[|log| - 1] == k then |log| - 1
    else LastIn(log[..|log| - 1], k)
  }

  ghost predicate AllDifferent<T(!new)>(s: seq<T>) {
    forall i, j | 0 <= i < j < |s| :: s[i] != s[j]
  }

  lemma SubsetSize<T>(a: set<T>, b: set<T>)
    requires a <= b
    ensures |a| <= |b|
  {
    assert b == a + (b - a);
  }
}
