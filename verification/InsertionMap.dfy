/**
 JavaScript's Map: key/value pairs kept in insertion order.  Deleting a key removes its pair,
 setting a present key keeps its place, setting a new one appends.
 */
module InsertionMap {
  import opened Options

  datatype Pair<K, V> = Pair(key: K, value: V)

  ghost predicate Distinct<K, V>(m: seq<Pair<K, V>>) {
    forall i, j | 0 <= i < j < |m| :: m[i].key != m[j].key
  }

  /** The place of `k`, or |m| when it is absent. */
  function IndexOf<K(==), V>(m: seq<Pair<K, V>>, k: K): (i: nat)
    ensures i <= |m|
    ensures i < |m| ==> m[i].key == k
    ensures forall j | 0 <= j < i :: m[j].key != k
  {
    if m == [] then 0
    else if m[0].key == k then 0
    else 1 + IndexOf(m[1..], k)
  }

  predicate Has<K(==), V>(m: seq<Pair<K, V>>, k: K) {
    IndexOf(m, k) < |m|
  }

  function Get<K(==), V>(m: seq<Pair<K, V>>, k: K): Option<V> {
    if Has(m, k) then Some(m[IndexOf(m, k)].value) else None
  }

  function Delete<K(==), V>(m: seq<Pair<K, V>>, k: K): seq<Pair<K, V>> {
    var i := IndexOf(m, k);
    if i < |m| then m[..i] + m[i + 1..] else m
  }

  lemma DeleteAt<K, V>(m: seq<Pair<K, V>>, k: K, j: nat)
    requires j < |Delete(m, k)|
    ensures var from := if j < IndexOf(m, k) then j else j + 1; from < |m| && Delete(m, k)[j] == m[from]
  {
    var i := IndexOf(m, k);
    if i < |m| {
      assert Delete(m, k) == m[..i] + m[i + 1..];
      TakeDropAt(m, i, j);
    }
  }

  lemma TakeDropAt<T>(s: seq<T>, i: nat, j: nat)
    requires i < |s| && j < |s| - 1
    ensures (s[..i] + s[i + 1..])[j] == s[if j < i then j else j + 1]
  {
  }

  lemma DeleteKeepsDistinct<K, V>(m: seq<Pair<K, V>>, k: K)
    requires Distinct(m)
    ensures Distinct(Delete(m, k)) && !Has(Delete(m, k), k)
  {
    var r := Delete(m, k);
    forall a, b | 0 <= a < b < |r|
      ensures r[a].key != r[b].key
    {
      DeleteAt(m, k, a);
      DeleteAt(m, k, b);
    }
    if Has(r, k) {
      DeleteAt(m, k, IndexOf(r, k));
      assert false;
    }
  }

  function Set<K(==), V>(m: seq<Pair<K, V>>, k: K, v: V): seq<Pair<K, V>> {
    var i := IndexOf(m, k);
    if i < |m| then m[i := Pair(k, v)] else m + [Pair(k, v)]
  }

  lemma IndexIsUnique<K, V>(m: seq<Pair<K, V>>, k: K, i: nat)
    requires i < |m| && m[i].key == k && forall j | 0 <= j < i :: m[j].key != k
    ensures IndexOf(m, k) == i
  {
  }

  lemma SameKeysSameIndex<K, V>(a: seq<Pair<K, V>>, b: seq<Pair<K, V>>, k: K)
    requires |a| == |b| && forall i | 0 <= i < |a| :: a[i].key == b[i].key
    ensures IndexOf(a, k) == IndexOf(b, k)
  {
  }

  ghost function Keys<K, V>(m: seq<Pair<K, V>>): set<K> {
    if m == [] then {} else {m[0].key} + Keys(m[1..])
  }

  lemma {:induction false} KeysMember<K, V>(m: seq<Pair<K, V>>, k: K)
    ensures k in Keys(m) <==> Has(m, k)
  {
    if m != [] { KeysMember(m[1..], k); }
  }

  lemma {:induction false} KeysConcat<K, V>(a: seq<Pair<K, V>>, b: seq<Pair<K, V>>)
    ensures Keys(a + b) == Keys(a) + Keys(b)
  {
    if a == [] {
      assert a + b == b;
    } else {
      assert (a + b)[1..] == a[1..] + b;
      KeysConcat(a[1..], b);
    }
  }

  lemma {:induction false} KeysCount<K, V>(m: seq<Pair<K, V>>)
    requires Distinct(m)
    ensures |Keys(m)| == |m|
  {
    if m != [] {
      KeysCount(m[1..]);
      KeysMember(m[1..], m[0].key);
    }
  }

  lemma IndexInFront<K, V>(m: seq<Pair<K, V>>, tail: seq<Pair<K, V>>, k: K)
    requires Has(m, k)
    ensures IndexOf(m + tail, k) == IndexOf(m, k)
  {
    IndexIsUnique(m + tail, k, IndexOf(m, k));
  }

  lemma IndexBehind<K, V>(m: seq<Pair<K, V>>, tail: seq<Pair<K, V>>, k: K)
    requires !Has(m, k)
    ensures IndexOf(m + tail, k) == |m| + IndexOf(tail, k)
  {
    var n := IndexOf(tail, k);
    if n < |tail| {
      IndexIsUnique(m + tail, k, |m| + n);
    } else {
      forall j | 0 <= j < |m + tail|
        ensures (m + tail)[j].key != k
      {
        if j >= |m| { assert (m + tail)[j] == tail[j - |m|]; }
      }
    }
  }

  lemma AbsentInRest<K, V>(m: seq<Pair<K, V>>, n: nat, k: K)
    requires n <= |m| && !Has(m, k)
    ensures !Has(m[n..], k)
  {
    forall j | 0 <= j < |m[n..]|
      ensures m[n..][j].key != k
    {
      assert m[n..][j] == m[n + j];
    }
  }

  /** Splitting a map around a key it holds. */
  lemma SplitAtKey<K, V>(m: seq<Pair<K, V>>, k: K)
    requires Distinct(m) && Has(m, k)
    ensures var i := IndexOf(m, k);
      m == m[..i] + [m[i]] + m[i + 1..] && !Has(m[..i], k) && !Has(m[i + 1..], k)
  {
  }

  /** Deleting another key keeps k's entry and the keys behind it, other than the deleted one. */
  lemma DeleteOther<K, V>(m: seq<Pair<K, V>>, other: K, k: K)
    requires Distinct(m) && other != k
    ensures SameBehind(Delete(m, other), m, k, other)
  {
    if Has(m, other) {
      SplitAtKey(m, other);
      var o := IndexOf(m, other);
      assert m == m[..o] + ([m[o]] + m[o + 1..]);
      assert Delete(m, other) == m[..o] + m[o + 1..];
      if Has(m[..o], k) {
        DeleteOtherInFront(m[..o], m[o], m[o + 1..], k);
      } else {
        DeleteOtherInBack(m[..o], m[o], m[o + 1..], k);
      }
    } else if Has(m, k) {
      KeysMember(m[IndexOf(m, k) + 1..], other);
      AbsentInRest(m, IndexOf(m, k) + 1, other);
    }
  }

  /** `r` has k where `m` has it, with the same entry and, but for `gone`, the same keys behind it. */
  ghost predicate SameBehind<K, V>(r: seq<Pair<K, V>>, m: seq<Pair<K, V>>, k: K, gone: K) {
    && (Has(r, k) <==> Has(m, k))
    && (Has(m, k) ==>
          && r[IndexOf(r, k)] == m[IndexOf(m, k)]
          && Keys(r[IndexOf(r, k) + 1..]) == Keys(m[IndexOf(m, k) + 1..]) - {gone})
  }

  lemma DeleteOtherInFront<K, V>(a: seq<Pair<K, V>>, x: Pair<K, V>, b: seq<Pair<K, V>>, k: K)
    requires x.key != k && !Has(a, x.key) && !Has(b, x.key) && Has(a, k)
    ensures SameBehind(a + b, a + ([x] + b), k, x.key)
  {
    IndexInFront(a, b, k);
    IndexInFront(a, [x] + b, k);
    BehindFront(a, x, b, IndexOf(a, k));
  }

  lemma DeleteOtherInBack<K, V>(a: seq<Pair<K, V>>, x: Pair<K, V>, b: seq<Pair<K, V>>, k: K)
    requires x.key != k && !Has(a, x.key) && !Has(b, x.key) && !Has(a, k)
    ensures SameBehind(a + b, a + ([x] + b), k, x.key)
  {
    BackIndex(a, x, b, k);
    if Has(b, k) {
      BehindBack(a, x, b, IndexOf(b, k));
    }
  }

  lemma BackIndex<K, V>(a: seq<Pair<K, V>>, x: Pair<K, V>, b: seq<Pair<K, V>>, k: K)
    requires x.key != k && !Has(a, k)
    ensures IndexOf(a + b, k) == |a| + IndexOf(b, k)
    ensures IndexOf(a + ([x] + b), k) == |a| + 1 + IndexOf(b, k)
  {
    IndexBehind(a, b, k);
    IndexBehind(a, [x] + b, k);
    IndexBehind([x], b, k);
  }

  lemma BehindBack<K, V>(a: seq<Pair<K, V>>, x: Pair<K, V>, b: seq<Pair<K, V>>, i: nat)
    requires i < |b| && !Has(b, x.key)
    ensures (a + b)[|a| + i] == (a + ([x] + b))[|a| + 1 + i]
    ensures Keys((a + b)[|a| + i + 1..]) == Keys((a + ([x] + b))[|a| + 1 + i + 1..]) - {x.key}
  {
    assert (a + b)[|a| + i + 1..] == b[i + 1..] && (a + ([x] + b))[|a| + 1 + i + 1..] == b[i + 1..];
    KeysMember(b[i + 1..], x.key);
    AbsentInRest(b, i + 1, x.key);
  }

  lemma BehindFront<K, V>(a: seq<Pair<K, V>>, x: Pair<K, V>, b: seq<Pair<K, V>>, i: nat)
    requires i < |a| && !Has(a, x.key) && !Has(b, x.key)
    ensures Keys((a + b)[i + 1..]) == Keys((a + ([x] + b))[i + 1..]) - {x.key}
  {
    var t := a[i + 1..];
    assert (a + b)[i + 1..] == t + b && (a + ([x] + b))[i + 1..] == t + ([x] + b);
    KeysConcat(t, b);
    KeysConcat(t, [x] + b);
    KeysConcat([x], b);
    KeysMember(t, x.key);
    KeysMember(b, x.key);
    AbsentInRest(a, i + 1, x.key);
  }
}
