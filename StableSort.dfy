/**
 * Python's `sorted(xs, key=key, reverse=True)` and `xs.sort(key=key,
 * reverse=True)`: a stable sort into descending key order, so that elements
 * with equal keys keep their input order. Written as an insertion sort.
 */
module StableSort {

  /** The keys never increase along `xs`. */
  predicate Descending<T>(xs: seq<T>, key: T -> real) {
    forall i, j :: 0 <= i < j < |xs| ==> key(xs[i]) >= key(xs[j])
  }

  /** The elements of `xs` whose key is `k`, in their order in `xs`. */
  function WithKey<T>(xs: seq<T>, key: T -> real, k: real): seq<T>
    decreases |xs|
  {
    if xs == [] then [] else (if key(xs[0]) == k then [xs[0]] else []) + WithKey(xs[1..], key, k)
  }

  /** `x` placed after every element of `ys` whose key is at least its own. */
  function Insert<T>(x: T, ys: seq<T>, key: T -> real): seq<T>
    decreases |ys|
  {
    if ys == [] then [x]
    else if key(ys[0]) >= key(x) then [ys[0]] + Insert(x, ys[1..], key)
    else [x] + ys
  }

  /** The stable descending sort of `xs` by `key`. */
  function SortDesc<T>(xs: seq<T>, key: T -> real): seq<T>
    decreases |xs|
  {
    if xs == [] then [] else Insert(xs[|xs| - 1], SortDesc(xs[..|xs| - 1], key), key)
  }

  lemma {:induction false} InsertPermutes<T>(x: T, ys: seq<T>, key: T -> real)
    ensures multiset(Insert(x, ys, key)) == multiset(ys) + multiset{x}
    decreases |ys|
  {
    if ys != [] && key(ys[0]) >= key(x) {
      InsertPermutes(x, ys[1..], key);
      assert ys == [ys[0]] + ys[1..];
    }
  }

  lemma {:induction false} InsertDescending<T>(x: T, ys: seq<T>, key: T -> real)
    requires Descending(ys, key)
    ensures Descending(Insert(x, ys, key), key)
    ensures forall i :: 0 <= i < |Insert(x, ys, key)| ==>
              key(Insert(x, ys, key)[i]) <= (if ys == [] || key(x) > key(ys[0]) then key(x) else key(ys[0]))
    decreases |ys|
  {
    if ys != [] && key(ys[0]) >= key(x) {
      InsertDescending(x, ys[1..], key);
    }
  }

  lemma {:induction false} WithKeyAppend<T>(a: seq<T>, b: seq<T>, key: T -> real, k: real)
    ensures WithKey(a + b, key, k) == WithKey(a, key, k) + WithKey(b, key, k)
    decreases |a|
  {
    if a != [] {
      WithKeyAppend(a[1..], b, key, k);
      assert (a + b)[1..] == a[1..] + b;
    } else {
      assert a + b == b;
    }
  }

  lemma {:induction false} WithKeyNone<T>(ys: seq<T>, key: T -> real, k: real)
    requires forall i :: 0 <= i < |ys| ==> key(ys[i]) != k
    ensures WithKey(ys, key, k) == []
    decreases |ys|
  {
    if ys != [] {
      WithKeyNone(ys[1..], key, k);
    }
  }

  lemma DescendingTail<T>(ys: seq<T>, key: T -> real)
    requires ys != [] && Descending(ys, key)
    ensures Descending(ys[1..], key)
    ensures forall i :: 0 <= i < |ys| ==> key(ys[i]) <= key(ys[0])
  {
    var rest := ys[1..];
    forall i, j | 0 <= i < j < |rest| ensures key(rest[i]) >= key(rest[j]) {
      assert rest[i] == ys[i + 1] && rest[j] == ys[j + 1];
    }
  }

  lemma WithKeyCons<T>(y: T, ys: seq<T>, key: T -> real, k: real)
    ensures WithKey([y] + ys, key, k) == (if key(y) == k then [y] else []) + WithKey(ys, key, k)
  {
    assert ([y] + ys)[1..] == ys;
  }

  /** In a descending list, `x` lands after every element with its own key. */
  lemma {:induction false} InsertWithKey<T>(x: T, ys: seq<T>, key: T -> real, k: real)
    requires Descending(ys, key)
    ensures WithKey(Insert(x, ys, key), key, k) == WithKey(ys, key, k) + (if key(x) == k then [x] else [])
    decreases |ys|
  {
    if ys == [] {
    } else if key(ys[0]) >= key(x) {
      DescendingTail(ys, key);
      InsertWithKey(x, ys[1..], key, k);
      WithKeyCons(ys[0], Insert(x, ys[1..], key), key, k);
    } else {
      WithKeyCons(x, ys, key, k);
      if key(x) == k {
        DescendingTail(ys, key);
        WithKeyNone(ys, key, k);
      }
    }
  }

  /**
   * The sort is a permutation, its output is in descending key order, and
   * for every key the elements with that key come out in their input order.
   */
  lemma {:induction false} SortDescCorrect<T>(xs: seq<T>, key: T -> real)
    ensures multiset(SortDesc(xs, key)) == multiset(xs)
    ensures |SortDesc(xs, key)| == |xs|
    ensures Descending(SortDesc(xs, key), key)
    ensures forall k :: WithKey(SortDesc(xs, key), key, k) == WithKey(xs, key, k)
    decreases |xs|
  {
    if xs != [] {
      var init, last := xs[..|xs| - 1], xs[|xs| - 1];
      var sorted := SortDesc(init, key);
      SortDescCorrect(init, key);
      InsertPermutes(last, sorted, key);
      InsertDescending(last, sorted, key);
      assert xs == init + [last];
      forall k ensures WithKey(SortDesc(xs, key), key, k) == WithKey(xs, key, k) {
        InsertWithKey(last, sorted, key, k);
        WithKeyAppend(init, [last], key, k);
      }
      assert |SortDesc(xs, key)| == |multiset(SortDesc(xs, key))|;
    }
  }

  /**
   * Cutting a descending list after `n` elements: the rest is what the whole
   * has beyond the first `n`, and none of it has a higher key than any of them.
   */
  lemma DescendingSplit<T>(xs: seq<T>, key: T -> real, n: nat)
    requires Descending(xs, key) && n <= |xs|
    ensures multiset(xs[..n]) <= multiset(xs)
    ensures multiset(xs) - multiset(xs[..n]) == multiset(xs[n..])
    ensures forall t, h :: t in xs[..n] && h in multiset(xs[n..]) ==> key(h) <= key(t)
  {
    assert xs == xs[..n] + xs[n..];
    forall t, h | t in xs[..n] && h in multiset(xs[n..]) ensures key(h) <= key(t) {
      var i :| 0 <= i < n && xs[..n][i] == t;
      var j :| 0 <= j < |xs| - n && xs[n..][j] == h;
      assert xs[i] == t && xs[n + j] == h;
    }
  }
}
