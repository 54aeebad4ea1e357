/**
 * `Array.prototype.sort` with a comparator `(a, b) => key(b) - key(a)`: since ES2019 the
 * sort is stable, so the result is the unique arrangement that is non-increasing in `key`,
 * a permutation of the input, and keeps elements with equal keys in their input order.
 * `SortDesc` is that arrangement, built by insertion; `SortInPlace` computes it on an array.
 */
module StableSort {
  import opened Seqs

  predicate SortedDesc<T>(s: seq<T>, key: T -> int) {
    forall i, j :: 0 <= i < j < |s| ==> key(s[i]) >= key(s[j])
  }

  /** The elements of `s` whose key is `k`, in order. */
  function WithKey<T>(s: seq<T>, key: T -> int, k: int): seq<T> {
    if s == [] then []
    else WithKey(s[..|s| - 1], key, k) + (if key(s[|s| - 1]) == k then [s[|s| - 1]] else [])
  }

  /** Insert `x` after every trailing element whose key is smaller than `x`'s. */
  function Insert<T>(s: seq<T>, x: T, key: T -> int): seq<T> {
    if s == [] || key(s[|s| - 1]) >= key(x) then s + [x]
    else Insert(s[..|s| - 1], x, key) + [s[|s| - 1]]
  }

  /** The stable descending sort of `s`: insertion of each element in turn. */
  function SortDesc<T>(s: seq<T>, key: T -> int): seq<T> {
    if s == [] then [] else Insert(SortDesc(s[..|s| - 1], key), s[|s| - 1], key)
  }

  lemma {:induction false} WithKeyAppend<T>(a: seq<T>, b: seq<T>, key: T -> int, k: int)
    ensures WithKey(a + b, key, k) == WithKey(a, key, k) + WithKey(b, key, k)
  {
    if b != [] {
      assert (a + b)[..|a + b| - 1] == a + b[..|b| - 1];
      WithKeyAppend(a, b[..|b| - 1], key, k);
    } else {
      assert a + b == a;
    }
  }

  lemma {:induction false} InsertPermutes<T>(s: seq<T>, x: T, key: T -> int)
    ensures multiset(Insert(s, x, key)) == multiset(s) + multiset{x}
  {
    if !(s == [] || key(s[|s| - 1]) >= key(x)) {
      InsertPermutes(s[..|s| - 1], x, key);
      assert s == s[..|s| - 1] + [s[|s| - 1]];
    }
  }

  /** Inserting an element no smaller than a bound into elements no smaller than it keeps the bound. */
  lemma {:induction false} InsertLowerBound<T>(s: seq<T>, x: T, key: T -> int, b: int)
    requires forall i :: 0 <= i < |s| ==> key(s[i]) >= b
    requires key(x) >= b
    ensures forall i :: 0 <= i < |Insert(s, x, key)| ==> key(Insert(s, x, key)[i]) >= b
  {
    if !(s == [] || key(s[|s| - 1]) >= key(x)) {
      var init := s[..|s| - 1];
      InsertLowerBound(init, x, key, b);
      assert forall i :: 0 <= i < |init| ==> init[i] == s[i];
    }
  }

  lemma {:induction false} InsertSorted<T>(s: seq<T>, x: T, key: T -> int)
    requires SortedDesc(s, key)
    ensures SortedDesc(Insert(s, x, key), key)
    ensures |Insert(s, x, key)| == |s| + 1
    ensures Insert(s, x, key)[0] == if s == [] || key(s[0]) < key(x) then x else s[0]
  {
    if !(s == [] || key(s[|s| - 1]) >= key(x)) {
      var init, last := s[..|s| - 1], s[|s| - 1];
      InsertSorted(init, x, key);
      assert forall i :: 0 <= i < |init| ==> init[i] == s[i];
      InsertLowerBound(init, x, key, key(last));
      var r := Insert(init, x, key);
      assert r + [last] == Insert(s, x, key);
    }
  }

  /** Insertion never moves `x` in front of an element with the same key. */
  lemma {:induction false} InsertStable<T>(s: seq<T>, x: T, key: T -> int, k: int)
    ensures WithKey(Insert(s, x, key), key, k) == WithKey(s, key, k) + (if key(x) == k then [x] else [])
  {
    if s == [] || key(s[|s| - 1]) >= key(x) {
      WithKeyAppend(s, [x], key, k);
    } else {
      var init, last := s[..|s| - 1], s[|s| - 1];
      InsertStable(init, x, key, k);
      WithKeyAppend(Insert(init, x, key), [last], key, k);
      WithKeyAppend(init, [last], key, k);
      assert s == init + [last];
    }
  }

  /** `SortDesc` is non-increasing in `key`. */
  lemma {:induction false} SortDescSorted<T>(s: seq<T>, key: T -> int)
    ensures SortedDesc(SortDesc(s, key), key)
    ensures |SortDesc(s, key)| == |s|
  {
    if s != [] {
      SortDescSorted(s[..|s| - 1], key);
      InsertSorted(SortDesc(s[..|s| - 1], key), s[|s| - 1], key);
    }
  }

  /** `SortDesc` is a permutation of its input. */
  lemma {:induction false} SortDescPermutes<T>(s: seq<T>, key: T -> int)
    ensures multiset(SortDesc(s, key)) == multiset(s)
  {
    if s != [] {
      SortDescPermutes(s[..|s| - 1], key);
      InsertPermutes(SortDesc(s[..|s| - 1], key), s[|s| - 1], key);
      assert s == s[..|s| - 1] + [s[|s| - 1]];
    }
  }

  /** `SortDesc` is stable: elements with equal keys keep their relative order. */
  lemma {:induction false} SortDescStable<T>(s: seq<T>, key: T -> int, k: int)
    ensures WithKey(SortDesc(s, key), key, k) == WithKey(s, key, k)
  {
    if s != [] {
      SortDescStable(s[..|s| - 1], key, k);
      InsertStable(SortDesc(s[..|s| - 1], key), s[|s| - 1], key, k);
    }
  }

  /** Sorting one more element of `s` inserts it into the sorted shorter prefix. */
  lemma SortDescSnoc<T>(s: seq<T>, i: nat, key: T -> int)
    requires i < |s|
    ensures SortDesc(s[..i + 1], key) == Insert(SortDesc(s[..i], key), s[i], key)
  {
    assert s[..i + 1][..i] == s[..i];
  }

  /**
   * Insertion sort of `a` in place; each pass moves the next element left past the
   * elements with a smaller key, so equal keys are never reordered.
   */
  method SortInPlace<T>(a: array<T>, key: T -> int)
    modifies a
    ensures a[..] == SortDesc(old(a[..]), key)
  {
    ghost var input := a[..];
    for i := 0 to a.Length
      invariant a[..i] == SortDesc(input[..i], key)
      invariant a[i..] == input[i..]
    {
      assert a[i] == a[i..][0] == input[i];
      assert a[i + 1..] == a[i..][1..];
      SortDescSnoc(input, i, key);
      InsertNext(a, i, key);
      assert input[i + 1..] == input[i..][1..];
    }
    assert a[..] == a[..a.Length] && input[..a.Length] == input;
  }

  /**
   * `Insert` puts `x` right after the last element whose key is at least `x`'s: after
   * `before`, when every element of `after` has a smaller key.
   */
  lemma {:induction false} InsertAfterSmaller<T>(before: seq<T>, x: T, after: seq<T>, key: T -> int)
    requires before == [] || key(before[|before| - 1]) >= key(x)
    requires forall k :: 0 <= k < |after| ==> key(after[k]) < key(x)
    ensures Insert(before + after, x, key) == before + [x] + after
    decreases |after|
  {
    if after == [] {
      assert before + after == before;
    } else {
      var init, last := after[..|after| - 1], after[|after| - 1];
      InsertAfterSmaller(before, x, init, key);
      var s := before + after;
      assert s[..|s| - 1] == before + init && s[|s| - 1] == last;
      assert after == init + [last];
      AppendAssoc(before + [x], init, [last]);
    }
  }

  /** Putting a smaller-keyed element in front keeps every key below the bound. */
  lemma PrependBelow<T>(y: T, after: seq<T>, key: T -> int, b: int)
    requires key(y) < b
    requires forall k :: 0 <= k < |after| ==> key(after[k]) < b
    ensures forall k :: 0 <= k < |[y] + after| ==> key(([y] + after)[k]) < b
  {
  }

  /** Swapping `y` and `x` in `prefix + [y] + [x] + after + suffix`. */
  lemma SwapPair<T>(prefix: seq<T>, y: T, x: T, after: seq<T>, suffix: seq<T>)
    ensures (prefix + [y] + [x] + after + suffix)[|prefix| := x][|prefix| + 1 := y]
         == prefix + [x] + ([y] + after) + suffix
  {
  }

  /** The two halves of a concatenation, recovered by slicing. */
  lemma SplitAt<T>(p: seq<T>, s: seq<T>)
    ensures (p + s)[..|p|] == p && (p + s)[|p|..] == s
  {
  }

  /** One pass of the insertion sort: `a[i]` joins the sorted prefix `a[..i]`. */
  method InsertNext<T>(a: array<T>, i: nat, key: T -> int)
    requires i < a.Length
    modifies a
    ensures a[..i + 1] == Insert(old(a[..i]), old(a[i]), key)
    ensures a[i + 1..] == old(a[i + 1..])
  {
    ghost var sorted, suffix := a[..i], a[i + 1..];
    var x := a[i];
    var j := i;
    ghost var before, after := sorted, [];
    assert a[..] == before + [x] + after + suffix;
    while j > 0 && key(a[j - 1]) < key(x)
      invariant 0 <= j <= i && |before| == j
      invariant a[..] == before + [x] + after + suffix
      invariant before + after == sorted
      invariant forall k :: 0 <= k < |after| ==> key(after[k]) < key(x)
    {
      var y := a[j - 1];
      ghost var prefix := before[..j - 1];
      assert before == prefix + [y];
      assert prefix + ([y] + after) == sorted;
      SwapPair(prefix, y, x, after, suffix);
      PrependBelow(y, after, key, key(x));
      ghost var current := a[..];
      a[j - 1], a[j] := a[j], a[j - 1];
      assert a[..] == current[j - 1 := x][j := y];
      j := j - 1;
      before, after := prefix, [y] + after;
    }
    InsertAfterSmaller(before, x, after, key);
    SplitAt(before + [x] + after, suffix);
  }
}
