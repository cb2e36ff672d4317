/**
 * The two library rankings the rupture selection relies on: `heapq.nlargest` with a key
 * (equivalently `sorted(xs, key=key, reverse=True)[:n]`, which is stable) and
 * `numpy.argmin` (the first position of the smallest value).
 */
module Ranking {

  /** The first position holding a largest key. */
  function FirstMaxIndex<T>(xs: seq<T>, key: T -> real): (i: nat)
    requires xs != []
    ensures i < |xs|
    ensures forall j :: 0 <= j < |xs| ==> key(xs[j]) <= key(xs[i])
    ensures forall j :: 0 <= j < i ==> key(xs[j]) < key(xs[i])
    decreases |xs|
  {
    if |xs| == 1 then 0
    else
      var i := FirstMaxIndex(xs[..|xs| - 1], key);
      if key(xs[|xs| - 1]) > key(xs[i]) then |xs| - 1 else i
  }

  /** `xs` without its element at position `i`. */
  function RemoveAt<T>(xs: seq<T>, i: nat): (r: seq<T>)
    requires i < |xs|
    ensures |r| == |xs| - 1
  {
    xs[..i] + xs[i + 1..]
  }

  /** The smaller of two integers. */
  function Min(a: int, b: int): (r: int) {
    if a <= b then a else b
  }

  /**
   * `heapq.nlargest(n, xs, key=key)`: repeatedly the first element with the largest key
   * among those left, `n` times or until none is left.
   */
  function TopN<T>(n: int, xs: seq<T>, key: T -> real): (top: seq<T>)
    ensures |top| == if n <= 0 then 0 else Min(n, |xs|)
    decreases |xs|
  {
    if n <= 0 || xs == [] then []
    else
      var i := FirstMaxIndex(xs, key);
      [xs[i]] + TopN(n - 1, RemoveAt(xs, i), key)
  }

  /** What `TopN` leaves out, in the order it stays in. */
  function Remaining<T>(n: int, xs: seq<T>, key: T -> real): (rest: seq<T>)
    decreases |xs|
  {
    if n <= 0 || xs == [] then xs
    else Remaining(n - 1, RemoveAt(xs, FirstMaxIndex(xs, key)), key)
  }

  /** An element of `xs` without position `i` is an element of `xs`. */
  lemma RemoveAtIn<T>(xs: seq<T>, i: nat, x: T)
    requires i < |xs| && x in RemoveAt(xs, i)
    ensures x in xs
  {
    if x in xs[..i] {
      var k :| 0 <= k < i && xs[..i][k] == x;
      assert xs[k] == x;
    } else {
      assert x in xs[i + 1..];
      var k :| 0 <= k < |xs| - i - 1 && xs[i + 1..][k] == x;
      assert xs[i + 1 + k] == x;
    }
  }

  /** Removing one element takes one occurrence out of the multiset. */
  lemma RemoveAtMultiset<T>(xs: seq<T>, i: nat)
    requires i < |xs|
    ensures multiset(RemoveAt(xs, i)) + multiset{xs[i]} == multiset(xs)
  {
    assert xs == xs[..i] + [xs[i]] + xs[i + 1..];
  }

  /** One step of `TopN` and `Remaining`: the first largest goes to the selection. */
  lemma TopNStep<T>(n: int, xs: seq<T>, key: T -> real)
    requires n > 0 && xs != []
    ensures var i := FirstMaxIndex(xs, key);
            TopN(n, xs, key) == [xs[i]] + TopN(n - 1, RemoveAt(xs, i), key) &&
            Remaining(n, xs, key) == Remaining(n - 1, RemoveAt(xs, i), key)
  {
  }

  /** `a` and `b` together are `xs`, counted with multiplicity. */
  ghost predicate Partition<T>(a: seq<T>, b: seq<T>, xs: seq<T>) {
    multiset(a) + multiset(b) == multiset(xs)
  }

  /** The selected and the left-out elements together are `xs`, counted with multiplicity. */
  lemma {:induction false} TopNPartition<T>(n: int, xs: seq<T>, key: T -> real)
    ensures Partition(TopN(n, xs, key), Remaining(n, xs, key), xs)
    decreases |xs|, 1
  {
    if n > 0 && xs != [] {
      PartitionStep(n, xs, key);
    }
  }

  /** One selection step keeps the partition: the first largest moves to the selection. */
  lemma PartitionStep<T>(n: int, xs: seq<T>, key: T -> real)
    requires n > 0 && xs != []
    ensures Partition(TopN(n, xs, key), Remaining(n, xs, key), xs)
    decreases |xs|, 0
  {
    var i := FirstMaxIndex(xs, key);
    var rest := RemoveAt(xs, i);
    var tail := TopN(n - 1, rest, key);
    TopNPartition(n - 1, rest, key);
    TopNStep(n, xs, key);
    RemoveAtMultiset(xs, i);
    assert multiset([xs[i]] + tail) == multiset{xs[i]} + multiset(tail);
  }

  /** Taking at least as many as there are elements selects all of them: a reordering. */
  lemma TopNAll<T>(n: int, xs: seq<T>, key: T -> real)
    requires n >= |xs|
    ensures multiset(TopN(n, xs, key)) == multiset(xs)
  {
    TopNPartition(n, xs, key);
    assert |Remaining(n, xs, key)| == 0 by {
      assert |TopN(n, xs, key)| + |Remaining(n, xs, key)| == |xs| by {
        TopNPartition(n, xs, key);
        assert |multiset(TopN(n, xs, key)) + multiset(Remaining(n, xs, key))| == |multiset(xs)|;
      }
    }
  }

  /** Every selected element and every left-out element is an element of `xs`. */
  lemma {:induction false} TopNFrom<T>(n: int, xs: seq<T>, key: T -> real)
    ensures forall x :: x in TopN(n, xs, key) ==> x in xs
    ensures forall x :: x in Remaining(n, xs, key) ==> x in xs
    decreases |xs|
  {
    if n > 0 && xs != [] {
      var i := FirstMaxIndex(xs, key);
      var rest := RemoveAt(xs, i);
      TopNFrom(n - 1, rest, key);
      forall x | x in rest ensures x in xs {
        RemoveAtIn(xs, i, x);
      }
    }
  }

  /** Keys never increase along `s`. */
  predicate NonIncreasing<T>(s: seq<T>, key: T -> real) {
    forall i, j :: 0 <= i < j < |s| ==> key(s[i]) >= key(s[j])
  }

  lemma ConsNonIncreasing<T>(x: T, tail: seq<T>, key: T -> real)
    requires NonIncreasing(tail, key)
    requires forall j :: 0 <= j < |tail| ==> key(tail[j]) <= key(x)
    ensures NonIncreasing([x] + tail, key)
  {
    var s := [x] + tail;
    forall a, b | 0 <= a < b < |s| ensures key(s[a]) >= key(s[b]) {
      assert s[b] == tail[b - 1];
      if a > 0 {
        assert s[a] == tail[a - 1];
      }
    }
  }

  /** The selection is in non-increasing key order. */
  lemma {:induction false} TopNOrdered<T>(n: int, xs: seq<T>, key: T -> real)
    ensures NonIncreasing(TopN(n, xs, key), key)
    decreases |xs|
  {
    if n > 0 && xs != [] {
      var i := FirstMaxIndex(xs, key);
      var rest := RemoveAt(xs, i);
      var tail := TopN(n - 1, rest, key);
      TopNStep(n, xs, key);
      TopNOrdered(n - 1, rest, key);
      TopNFrom(n - 1, rest, key);
      forall j | 0 <= j < |tail| ensures key(tail[j]) <= key(xs[i]) {
        assert tail[j] in tail;
        RemoveAtIn(xs, i, tail[j]);
        var k :| 0 <= k < |xs| && xs[k] == tail[j];
      }
      ConsNonIncreasing(xs[i], tail, key);
    }
  }

  /** Every selected element has a key at least that of every element left out. */
  lemma {:induction false} TopNDominates<T>(n: int, xs: seq<T>, key: T -> real)
    ensures var top, rest := TopN(n, xs, key), Remaining(n, xs, key);
            forall i, j :: 0 <= i < |top| && 0 <= j < |rest| ==> key(top[i]) >= key(rest[j])
    decreases |xs|
  {
    if n > 0 && xs != [] {
      var m := FirstMaxIndex(xs, key);
      var xs' := RemoveAt(xs, m);
      var top, rest := TopN(n, xs, key), Remaining(n, xs, key);
      TopNDominates(n - 1, xs', key);
      TopNFrom(n - 1, xs', key);
      assert rest == Remaining(n - 1, xs', key);
      assert top == [xs[m]] + TopN(n - 1, xs', key);
      forall i, j | 0 <= i < |top| && 0 <= j < |rest| ensures key(top[i]) >= key(rest[j]) {
        if i == 0 {
          assert rest[j] in rest;
          RemoveAtIn(xs, m, rest[j]);
          var k :| 0 <= k < |xs| && xs[k] == rest[j];
        } else {
          assert top[i] == TopN(n - 1, xs', key)[i - 1];
        }
      }
    }
  }

  /** The first position holding a smallest value. */
  function FirstMinIndex(ds: seq<real>): (i: nat)
    requires ds != []
    ensures i < |ds|
    ensures forall j :: 0 <= j < |ds| ==> ds[i] <= ds[j]
    ensures forall j :: 0 <= j < i ==> ds[j] > ds[i]
    decreases |ds|
  {
    if |ds| == 1 then 0
    else
      var i := FirstMinIndex(ds[..|ds| - 1]);
      if ds[|ds| - 1] < ds[i] then |ds| - 1 else i
  }

  /** Only one position is the first smallest. */
  lemma FirstMinUnique(ds: seq<real>, i: nat)
    requires i < |ds|
    requires forall j :: 0 <= j < |ds| ==> ds[i] <= ds[j]
    requires forall j :: 0 <= j < i ==> ds[j] > ds[i]
    ensures FirstMinIndex(ds) == i
  {
  }
}
