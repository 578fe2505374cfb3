/** Values decided by the last of a list of writes, or by what was there first: shared by several modules. */
module LastWrite {
  import opened Options

  ghost predicate IsLast<T(!new)>(writes: seq<Option<T>>, k: int, value: T) {
    && 0 <= k < |writes| && writes[k] == Some(value)
    && forall j | k < j < |writes| :: writes[j] == None
  }

  ghost predicate Nothing<T(!new)>(writes: seq<Option<T>>) {
    forall j | 0 <= j < |writes| :: writes[j] == None
  }

  ghost predicate Decided<T(!new)>(writes: seq<Option<T>>, first: T, value: T) {
    (exists k :: IsLast(writes, k, value)) || (Nothing(writes) && value == first)
  }

  lemma DecidedNext<T(!new)>(writes: seq<Option<T>>, first: T, value: T, next: Option<T>)
    requires Decided(writes, first, value)
    ensures Decided(writes + [next], first, if next.Some? then next.value else value)
  {
    var all := writes + [next];
    if next.Some? {
      assert IsLast(all, |writes|, next.value);
    } else if k :| IsLast(writes, k, value) {
      assert IsLast(all, k, value);
    } else {
      assert Nothing(all);
    }
  }

  lemma DecidedOnce<T(!new)>(writes: seq<Option<T>>, first: T, a: T, b: T)
    requires Decided(writes, first, a) && Decided(writes, first, b)
    ensures a == b
  {
    if k :| IsLast(writes, k, a) {
      if j :| IsLast(writes, j, b) { assert j == k; }
    }
  }

  lemma DecidedExactly<T(!new)>(writes: seq<Option<T>>, first: T, actual: T, value: T)
    requires Decided(writes, first, actual)
    ensures actual == value <==> Decided(writes, first, value)
  {
    if Decided(writes, first, value) { DecidedOnce(writes, first, value, actual); }
  }
}
