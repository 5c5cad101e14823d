// The descending sort game.js relies on (Array.prototype.sort with a
// comparator b - a, which the language requires to be stable), written as an
// insertion sort that places each element after every element whose key is
// at least as large.

module Sorting {

  /** The keys of `xs` never increase from one element to the next. */
  predicate SortedDesc<T>(xs: seq<T>, key: T -> real)
  {
    |xs| <= 1 || (key(xs[0]) >= key(xs[1]) && SortedDesc(xs[1..], key))
  }

  /** In a sorted sequence every key is at least every key after it. */
  lemma {:induction false} SortedPairwise<T>(xs: seq<T>, key: T -> real)
    requires SortedDesc(xs, key)
    ensures forall i, j | 0 <= i < j < |xs| :: key(xs[i]) >= key(xs[j])
  {
    if |xs| > 1 {
      SortedPairwise(xs[1..], key);
      forall i, j | 0 <= i < j < |xs| ensures key(xs[i]) >= key(xs[j]) {
        assert xs[j] == xs[1..][j - 1];
        if i > 0 {
          assert xs[i] == xs[1..][i - 1];
        } else if j > 1 {
          assert xs[1] == xs[1..][0];
        }
      }
    }
  }

  /** The elements of `xs` whose key is `k`, in their order in `xs`. */
  function WithKey<T>(xs: seq<T>, key: T -> real, k: real): seq<T>
  {
    if xs == [] then [] else (if key(xs[0]) == k then [xs[0]] else []) + WithKey(xs[1..], key, k)
  }

  lemma {:induction false} WithKeyAppend<T>(xs: seq<T>, ys: seq<T>, key: T -> real, k: real)
    ensures WithKey(xs + ys, key, k) == WithKey(xs, key, k) + WithKey(ys, key, k)
  {
    if xs != [] {
      var head := if key(xs[0]) == k then [xs[0]] else [];
      assert (xs + ys)[0] == xs[0];
      assert (xs + ys)[1..] == xs[1..] + ys;
      WithKeyAppend(xs[1..], ys, key, k);
      calc {
        WithKey(xs + ys, key, k);
        head + WithKey(xs[1..] + ys, key, k);
        head + (WithKey(xs[1..], key, k) + WithKey(ys, key, k));
        (head + WithKey(xs[1..], key, k)) + WithKey(ys, key, k);
      }
    } else {
      assert xs + ys == ys;
    }
  }

  lemma {:induction false} WithKeyNone<T>(xs: seq<T>, key: T -> real, k: real)
    requires forall i | 0 <= i < |xs| :: key(xs[i]) != k
    ensures WithKey(xs, key, k) == []
  {
    if xs != [] {
      WithKeyNone(xs[1..], key, k);
    }
  }

  /** The first element with key `k` is the earliest element of `xs` with that key. */
  lemma {:induction false} WithKeyHead<T>(xs: seq<T>, key: T -> real, k: real)
    requires WithKey(xs, key, k) != []
    ensures exists j | 0 <= j < |xs| ::
              WithKey(xs, key, k)[0] == xs[j] && key(xs[j]) == k && forall i | 0 <= i < j :: key(xs[i]) != k
  {
    if key(xs[0]) != k {
      WithKeyHead(xs[1..], key, k);
      var j :| 0 <= j < |xs[1..]| && WithKey(xs[1..], key, k)[0] == xs[1..][j] && key(xs[1..][j]) == k
               && forall i | 0 <= i < j :: key(xs[1..][i]) != k;
      assert forall i | 0 < i < j + 1 :: xs[i] == xs[1..][i - 1];
    }
  }

  /** Inserts `x` after the leading elements whose key is at least key(x). */
  function Insert<T>(xs: seq<T>, x: T, key: T -> real): (r: seq<T>)
    ensures multiset(r) == multiset(xs) + multiset{x}
  {
    if xs == [] then [x]
    else if key(xs[0]) >= key(x) then
      assert xs == [xs[0]] + xs[1..];
      [xs[0]] + Insert(xs[1..], x, key)
    else [x] + xs
  }

  /** The first element after an insertion is `x` or the old first element. */
  lemma InsertHead<T>(xs: seq<T>, x: T, key: T -> real)
    ensures Insert(xs, x, key)[0] == x || (xs != [] && Insert(xs, x, key)[0] == xs[0])
  {
  }

  /** Insertion into a sorted sequence keeps it sorted. */
  lemma {:induction false} InsertSorted<T>(xs: seq<T>, x: T, key: T -> real)
    requires SortedDesc(xs, key)
    ensures SortedDesc(Insert(xs, x, key), key)
  {
    if xs != [] && key(xs[0]) >= key(x) {
      var rest := Insert(xs[1..], x, key);
      InsertBehind(xs, x, key);
      InsertSorted(xs[1..], x, key);
      InsertHead(xs[1..], x, key);
      assert |xs| > 1 ==> xs[1..][0] == xs[1];
      assert ([xs[0]] + rest)[1..] == rest;
    } else if xs != [] {
      assert ([x] + xs)[1..] == xs;
    }
  }

  /** Insertion keeps the order of equal keys: `x` comes after every element of `xs` with its key. */
  lemma {:induction false} InsertStable<T>(xs: seq<T>, x: T, key: T -> real, k: real)
    requires SortedDesc(xs, key)
    ensures WithKey(Insert(xs, x, key), key, k) == WithKey(xs, key, k) + WithKey([x], key, k)
    decreases |xs|, 1
  {
    if xs == [] {
      assert Insert(xs, x, key) == [x];
      assert WithKey(xs, key, k) == [];
    } else if key(xs[0]) >= key(x) {
      InsertStableBehind(xs, x, key, k);
    } else {
      InsertStableAhead(xs, x, key, k);
    }
  }

  lemma {:induction false} InsertStableBehind<T>(xs: seq<T>, x: T, key: T -> real, k: real)
    requires SortedDesc(xs, key) && xs != [] && key(xs[0]) >= key(x)
    ensures WithKey(Insert(xs, x, key), key, k) == WithKey(xs, key, k) + WithKey([x], key, k)
    decreases |xs|, 0
  {
    var rest := Insert(xs[1..], x, key);
    InsertBehind(xs, x, key);
    SortedTail(xs, key);
    InsertStable(xs[1..], x, key, k);
    WithKeyCons(xs, key, k);
    WithKeyAppend([xs[0]], rest, key, k);
    AppendAssoc(WithKey([xs[0]], key, k), WithKey(xs[1..], key, k), WithKey([x], key, k));
  }

  lemma AppendAssoc<T>(a: seq<T>, b: seq<T>, c: seq<T>)
    ensures a + (b + c) == (a + b) + c
  {
  }

  lemma InsertBehind<T>(xs: seq<T>, x: T, key: T -> real)
    requires xs != [] && key(xs[0]) >= key(x)
    ensures Insert(xs, x, key) == [xs[0]] + Insert(xs[1..], x, key)
  {
  }

  lemma WithKeyCons<T>(xs: seq<T>, key: T -> real, k: real)
    requires xs != []
    ensures WithKey(xs, key, k) == WithKey([xs[0]], key, k) + WithKey(xs[1..], key, k)
  {
    assert xs == [xs[0]] + xs[1..];
    WithKeyAppend([xs[0]], xs[1..], key, k);
  }

  lemma SortedTail<T>(xs: seq<T>, key: T -> real)
    requires SortedDesc(xs, key) && xs != []
    ensures SortedDesc(xs[1..], key)
  {
  }

  lemma InsertStableAhead<T>(xs: seq<T>, x: T, key: T -> real, k: real)
    requires SortedDesc(xs, key) && xs != [] && key(xs[0]) < key(x)
    ensures WithKey(Insert(xs, x, key), key, k) == WithKey(xs, key, k) + WithKey([x], key, k)
  {
    assert Insert(xs, x, key) == [x] + xs;
    WithKeyAppend([x], xs, key, k);
    if k == key(x) {
      SortedPairwise(xs, key);
      WithKeyNone(xs, key, k);
    } else {
      assert WithKey([x], key, k) == [];
    }
  }

  /** The descending sort by insertion, taking the elements from the first to the last. */
  function SortDesc<T>(xs: seq<T>, key: T -> real): (r: seq<T>)
    ensures multiset(r) == multiset(xs)
  {
    if xs == [] then []
    else
      var init := xs[..|xs| - 1];
      var last := xs[|xs| - 1];
      assert xs == init + [last];
      Insert(SortDesc(init, key), last, key)
  }

  /** The keys of the sorted sequence never increase. */
  lemma {:induction false} SortDescSorted<T>(xs: seq<T>, key: T -> real)
    ensures SortedDesc(SortDesc(xs, key), key)
  {
    if xs != [] {
      SortDescSorted(xs[..|xs| - 1], key);
      InsertSorted(SortDesc(xs[..|xs| - 1], key), xs[|xs| - 1], key);
    }
  }

  /** The first element of the sorted sequence has the largest key of `xs`. */
  lemma SortHeadBest<T>(xs: seq<T>, key: T -> real)
    requires xs != []
    ensures |SortDesc(xs, key)| == |xs|
    ensures forall i | 0 <= i < |xs| :: key(xs[i]) <= key(SortDesc(xs, key)[0])
  {
    var r := SortDesc(xs, key);
    assert |r| == |multiset(r)| == |multiset(xs)| == |xs|;
    SortDescSorted(xs, key);
    SortedPairwise(r, key);
    forall i | 0 <= i < |xs|
      ensures key(xs[i]) <= key(r[0])
    {
      assert xs[i] in multiset(r);
      var j :| 0 <= j < |r| && r[j] == xs[i];
    }
  }

  /** The first element of the sorted sequence is the earliest element of `xs` with its key. */
  lemma SortHeadEarliest<T>(xs: seq<T>, key: T -> real)
    requires xs != []
    ensures |SortDesc(xs, key)| == |xs|
    ensures exists j | 0 <= j < |xs| ::
              SortDesc(xs, key)[0] == xs[j] && forall i | 0 <= i < j :: key(xs[i]) != key(xs[j])
  {
    var r := SortDesc(xs, key);
    assert |r| == |multiset(r)| == |multiset(xs)| == |xs|;
    var k := key(r[0]);
    assert WithKey(r, key, k)[0] == r[0];
    SortStable(xs, key, k);
    WithKeyHead(xs, key, k);
  }

  /** The sort is stable: the elements with any one key keep their order in `xs`. */
  lemma {:induction false} SortStable<T>(xs: seq<T>, key: T -> real, k: real)
    ensures WithKey(SortDesc(xs, key), key, k) == WithKey(xs, key, k)
  {
    if xs != [] {
      var init := xs[..|xs| - 1];
      var last := xs[|xs| - 1];
      assert xs == init + [last];
      SortStable(init, key, k);
      SortDescSorted(init, key);
      InsertStable(SortDesc(init, key), last, key, k);
      WithKeyAppend(init, [last], key, k);
    }
  }
}
