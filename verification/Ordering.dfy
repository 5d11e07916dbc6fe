/** Sorting by a strict total order, and the order Python puts on strings. */
module Ordering {

  ghost predicate StrictTotalOrder<K(!new)>(less: (K, K) -> bool) {
    && (forall a :: !less(a, a))
    && (forall a, b, c :: less(a, b) && less(b, c) ==> less(a, c))
    && (forall a, b :: a != b ==> less(a, b) || less(b, a))
  }

  /** Sorted without repetition. */
  predicate Increasing<K>(keys: seq<K>, less: (K, K) -> bool) {
    forall i, j :: 0 <= i < j < |keys| ==> less(keys[i], keys[j])
  }

  lemma IncreasingDiffers<K(!new)>(keys: seq<K>, less: (K, K) -> bool, i: nat, j: nat)
    requires StrictTotalOrder(less) && Increasing(keys, less) && i < |keys| && j < |keys| && keys[i] == keys[j]
    ensures i == j
  {
  }

  function Elements<K>(keys: seq<K>): set<K> {
    set k | k in keys
  }

  /** Puts `k` at its place among sorted keys. */
  method InsertSorted<K(==, !new)>(keys: seq<K>, k: K, less: (K, K) -> bool) returns (r: seq<K>)
    requires StrictTotalOrder(less) && Increasing(keys, less) && k !in keys
    ensures Increasing(r, less) && Elements(r) == Elements(keys) + {k} && |r| == |keys| + 1
  {
    var i := 0;
    while i < |keys| && less(keys[i], k)
      invariant 0 <= i <= |keys|
      invariant forall j :: 0 <= j < i ==> less(keys[j], k)
    {
      i := i + 1;
    }
    r := keys[..i] + [k] + keys[i..];
    SplicedIncreasing(keys, i, k, less);
  }

  lemma {:induction false} SplicedIncreasing<K(!new)>(keys: seq<K>, i: nat, k: K, less: (K, K) -> bool)
    requires StrictTotalOrder(less) && Increasing(keys, less) && i <= |keys| && k !in keys
    requires forall j :: 0 <= j < i ==> less(keys[j], k)
    requires i < |keys| ==> !less(keys[i], k)
    ensures var r := keys[..i] + [k] + keys[i..];
            Increasing(r, less) && Elements(r) == Elements(keys) + {k}
  {
    forall j | i <= j < |keys| ensures less(k, keys[j]) {
      assert keys[i] in keys && less(k, keys[i]);
    }
    assert keys == keys[..i] + keys[i..];
  }

  /** The elements of a set in increasing order. */
  method SortedKeys<K(==, !new)>(keys: set<K>, less: (K, K) -> bool) returns (r: seq<K>)
    requires StrictTotalOrder(less)
    ensures Increasing(r, less) && Elements(r) == keys && |r| == |keys|
  {
    r := [];
    var todo := keys;
    while todo != {}
      invariant todo <= keys && Increasing(r, less) && Elements(r) == keys - todo
      invariant |r| + |todo| == |keys|
    {
      var k :| k in todo;
      assert k !in r by { assert k !in Elements(r); }
      r := InsertSorted(r, k, less);
      todo := todo - {k};
    }
  }

  lemma SharedElement<K>(a: seq<K>, b: seq<K>, k: K)
    requires Elements(a) == Elements(b) && k in a
    ensures k in b
  {
    assert k in Elements(a);
  }

  /** There is only one way to list a set in increasing order. */
  lemma {:induction false} IncreasingIsUnique<K(!new)>(a: seq<K>, b: seq<K>, less: (K, K) -> bool)
    requires StrictTotalOrder(less) && Increasing(a, less) && Increasing(b, less)
    requires Elements(a) == Elements(b)
    ensures a == b
    decreases |a|
  {
    if a == [] {
      assert b == [] by { if b != [] { SharedElement(b, a, b[0]); } }
    } else {
      SharedElement(a, b, a[0]);
      var x, y := a[0], b[0];
      SharedElement(b, a, y);
      assert x == y by {
        var i :| 0 <= i < |a| && a[i] == y;
        var j :| 0 <= j < |b| && b[j] == x;
      }
      assert Elements(a[1..]) == Elements(b[1..]) by {
        assert a == [x] + a[1..] && b == [x] + b[1..];
        assert x !in a[1..] && x !in b[1..];
        assert Elements(a[1..]) == Elements(a) - {x} && Elements(b[1..]) == Elements(b) - {x};
      }
      IncreasingIsUnique(a[1..], b[1..], less);
      assert a == [x] + a[1..] && b == [y] + b[1..];
    }
  }

  // ---- Sorting sequences ------------------------------------------------

  ghost predicate TotalPreorder<T(!new)>(leq: (T, T) -> bool) {
    && (forall a, b :: leq(a, b) || leq(b, a))
    && (forall a, b, c :: leq(a, b) && leq(b, c) ==> leq(a, c))
  }

  predicate Sorted<T>(xs: seq<T>, leq: (T, T) -> bool) {
    forall i, j :: 0 <= i < j < |xs| ==> leq(xs[i], xs[j])
  }

  method SortBy<T(!new, ==)>(xs: seq<T>, leq: (T, T) -> bool) returns (r: seq<T>)
    requires TotalPreorder(leq)
    ensures Sorted(r, leq) && multiset(r) == multiset(xs) && |r| == |xs|
  {
    r := [];
    ghost var done: seq<T> := [];
    for n := 0 to |xs|
      invariant done == xs[..n] && Sorted(r, leq) && multiset(r) == multiset(done) && |r| == n
    {
      r := InsertInto(r, xs[n], leq);
      done := done + [xs[n]];
    }
    assert done == xs;
  }

  method InsertInto<T(!new, ==)>(xs: seq<T>, x: T, leq: (T, T) -> bool) returns (r: seq<T>)
    requires TotalPreorder(leq) && Sorted(xs, leq)
    ensures Sorted(r, leq) && multiset(r) == multiset(xs) + multiset{x} && |r| == |xs| + 1
  {
    var i := 0;
    while i < |xs| && leq(xs[i], x)
      invariant 0 <= i <= |xs|
      invariant forall j :: 0 <= j < i ==> leq(xs[j], x)
    {
      i := i + 1;
    }
    r := xs[..i] + [x] + xs[i..];
    SplicedCounts(xs, i, x);
    SplicedSorted(xs, i, x, leq);
  }

  lemma SplicedCounts<T>(xs: seq<T>, i: nat, x: T)
    requires i <= |xs|
    ensures multiset(xs[..i] + [x] + xs[i..]) == multiset(xs) + multiset{x}
  {
    assert xs == xs[..i] + xs[i..];
  }

  lemma {:induction false} SplicedSorted<T(!new)>(xs: seq<T>, i: nat, x: T, leq: (T, T) -> bool)
    requires TotalPreorder(leq) && Sorted(xs, leq) && i <= |xs|
    requires forall j :: 0 <= j < i ==> leq(xs[j], x)
    requires i < |xs| ==> !leq(xs[i], x)
    ensures Sorted(xs[..i] + [x] + xs[i..], leq)
  {
    forall j | i <= j < |xs| ensures leq(x, xs[j]) {
      assert leq(x, xs[i]) && (i < j ==> leq(xs[i], xs[j]));
    }
  }

  /** A sequence is one of its elements and the others. */
  lemma TakeOut<T>(xs: seq<T>, k: nat)
    requires k < |xs|
    ensures multiset(xs) == multiset(xs[..k] + xs[k + 1..]) + multiset{xs[k]}
  {
    assert xs == xs[..k] + [xs[k]] + xs[k + 1..];
  }

  /** Where a permutation of `xs + [x]` has `x`, and that the rest permutes `xs`. */
  lemma FindLast<T>(xs: seq<T>, x: T, ys: seq<T>) returns (k: nat)
    requires multiset(xs) + multiset{x} == multiset(ys)
    ensures k < |ys| && ys[k] == x && multiset(ys[..k] + ys[k + 1..]) == multiset(xs)
  {
    assert x in multiset(ys);
    k :| 0 <= k < |ys| && ys[k] == x;
    TakeOut(ys, k);
    var others := ys[..k] + ys[k + 1..];
    assert multiset(xs) == multiset(ys) - multiset{x} && multiset(others) == multiset(ys) - multiset{x};
  }

  // ---- Strings ----------------------------------------------------------

  /** Strings compare character by character; a proper prefix comes first. */
  predicate TextLess(a: string, b: string) {
    if b == [] then false
    else if a == [] then true
    else if a[0] != b[0] then a[0] < b[0]
    else TextLess(a[1..], b[1..])
  }

  lemma {:induction false} TextTrichotomy(a: string, b: string)
    ensures a == b || TextLess(a, b) || TextLess(b, a)
    ensures a == b ==> !TextLess(a, b)
    decreases |a|
  {
    if a != [] && b != [] && a[0] == b[0] {
      TextTrichotomy(a[1..], b[1..]);
      assert a == [a[0]] + a[1..] && b == [b[0]] + b[1..];
    }
  }

  lemma {:induction false} TextTransitive(a: string, b: string, c: string)
    requires TextLess(a, b) && TextLess(b, c)
    ensures TextLess(a, c)
    decreases |a|
  {
    if a != [] && a[0] == b[0] == c[0] {
      TextTransitive(a[1..], b[1..], c[1..]);
    }
  }

  lemma {:induction false} TextOrder()
    ensures StrictTotalOrder(TextLess)
  {
    forall a ensures !TextLess(a, a) { TextTrichotomy(a, a); }
    forall a, b, c | TextLess(a, b) && TextLess(b, c) ensures TextLess(a, c) { TextTransitive(a, b, c); }
    forall a, b | a != b ensures TextLess(a, b) || TextLess(b, a) { TextTrichotomy(a, b); }
  }
}
