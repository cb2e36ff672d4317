/**
 * Python dictionaries as insertion-ordered association lists. The order matters to the
 * modelled code: it decides which of two colliding keys survives, and the key order of
 * merged dictionaries.
 */
module Dicts {
  import opened Outcomes

  type Dict<K, V> = seq<(K, V)>

  /** The keys in insertion order (`list(d.keys())`). */
  function Keys<K, V>(d: Dict<K, V>): (ks: seq<K>)
    ensures |ks| == |d|
    ensures forall i :: 0 <= i < |d| ==> ks[i] == d[i].0
  {
    seq(|d|, i requires 0 <= i < |d| => d[i].0)
  }

  /** `k in d`. */
  predicate HasKey<K(==), V>(d: Dict<K, V>, k: K) {
    exists i :: 0 <= i < |d| && d[i].0 == k
  }

  /** Every key occurs once, as in every Python dictionary. */
  predicate DistinctKeys<K(==), V>(d: Dict<K, V>) {
    forall i, j :: 0 <= i < j < |d| ==> d[i].0 != d[j].0
  }

  /** The position of key `k`, or -1. */
  function IndexOf<K(==), V>(d: Dict<K, V>, k: K): (i: int)
    ensures -1 <= i < |d|
    ensures i == -1 <==> !HasKey(d, k)
    ensures i >= 0 ==> d[i].0 == k && forall j :: 0 <= j < i ==> d[j].0 != k
  {
    if d == [] then -1
    else if d[0].0 == k then 0
    else
      var j := IndexOf(d[1..], k);
      assert HasKey(d[1..], k) ==> HasKey(d, k) by {
        if HasKey(d[1..], k) {
          var m :| 0 <= m < |d[1..]| && d[1..][m].0 == k;
          assert d[m + 1].0 == k;
        }
      }
      assert HasKey(d, k) ==> HasKey(d[1..], k) by {
        if HasKey(d, k) {
          var m :| 0 <= m < |d| && d[m].0 == k;
          assert d[1..][m - 1].0 == k;
        }
      }
      if j < 0 then -1 else j + 1
  }

  /** `d[k]` when `k in d`, otherwise `None` (the lookup raises `KeyError`). */
  function Get<K(==), V>(d: Dict<K, V>, k: K): (r: Option<V>)
    ensures r.Some? <==> HasKey(d, k)
  {
    var i := IndexOf(d, k);
    if i < 0 then None else Some(d[i].1)
  }

  /**
   * `d[k] = v`: an existing key keeps its position and takes the new value; a new key
   * is appended.
   */
  function Put<K(==), V>(d: Dict<K, V>, k: K, v: V): (r: Dict<K, V>) {
    var i := IndexOf(d, k);
    if i < 0 then d + [(k, v)] else d[i := (k, v)]
  }

  /** An existing key keeps its position; a new key comes last. */
  lemma PutKeys<K, V>(d: Dict<K, V>, k: K, v: V)
    ensures Keys(Put(d, k, v)) == if HasKey(d, k) then Keys(d) else Keys(d) + [k]
  {
  }

  /** `d[k] = v` keeps every key occurring once. */
  lemma PutDistinct<K, V>(d: Dict<K, V>, k: K, v: V)
    requires DistinctKeys(d)
    ensures DistinctKeys(Put(d, k, v))
  {
  }

  /** Two dictionaries with the same keys at the same positions find keys at the same place. */
  lemma IndexOfSameKeys<K, V>(a: Dict<K, V>, b: Dict<K, V>, k: K)
    requires |a| == |b| && forall i :: 0 <= i < |a| ==> a[i].0 == b[i].0
    ensures IndexOf(a, k) == IndexOf(b, k)
  {
  }

  /** In a dictionary, the key at position `i` maps to the value at position `i`. */
  lemma GetAt<K, V>(d: Dict<K, V>, i: nat)
    requires DistinctKeys(d) && i < |d|
    ensures Get(d, d[i].0) == Some(d[i].1)
  {
    assert HasKey(d, d[i].0);
  }

  /** After `d[k] = v`, `k` maps to `v` and every other key to what it mapped to before. */
  lemma PutGet<K, V>(d: Dict<K, V>, k: K, v: V, j: K)
    ensures Get(Put(d, k, v), j) == if j == k then Some(v) else Get(d, j)
  {
    var i := IndexOf(d, k);
    var r := Put(d, k, v);
    if i < 0 {
      var m := IndexOf(r, j);
      if j == k {
        assert r[|d|].0 == k;
        assert m == |d|;
      } else {
        assert r[..|d|] == d;
        if m >= 0 {
          assert m < |d|;
          assert r[m] == d[m];
          assert IndexOf(d, j) == m;
        } else {
          assert IndexOf(d, j) == -1;
        }
      }
    } else {
      IndexOfSameKeys(d, r, j);
    }
  }

  /** Inserting a key that is not there appends it. */
  lemma PutNew<K, V>(d: Dict<K, V>, k: K, v: V)
    requires !HasKey(d, k)
    ensures Put(d, k, v) == d + [(k, v)]
  {
  }

  /**
   * `dict(pairs)`, and equally a loop doing `d[k] = v` for each pair in order, starting
   * from an empty dictionary.
   */
  function FromPairs<K(==), V>(ps: seq<(K, V)>): (d: Dict<K, V>)
    ensures DistinctKeys(d)
    ensures |d| <= |ps|
    decreases |ps|
  {
    if ps == [] then []
    else
      var last := ps[|ps| - 1];
      PutDistinct(FromPairs(ps[..|ps| - 1]), last.0, last.1);
      Put(FromPairs(ps[..|ps| - 1]), last.0, last.1)
  }

  /** One more pair is one more `Put`. */
  lemma FromPairsSnoc<K, V>(ps: seq<(K, V)>, k: K, v: V)
    ensures FromPairs(ps + [(k, v)]) == Put(FromPairs(ps), k, v)
  {
    assert (ps + [(k, v)])[..|ps|] == ps;
  }

  /** The keys are exactly the keys among the pairs. */
  lemma {:induction false} FromPairsHasKey<K, V>(ps: seq<(K, V)>, k: K)
    ensures HasKey(FromPairs(ps), k) <==> exists i :: 0 <= i < |ps| && ps[i].0 == k
    decreases |ps|
  {
    if ps != [] {
      var init := ps[..|ps| - 1];
      var last := ps[|ps| - 1];
      var d := FromPairs(init);
      FromPairsHasKey(init, k);
      assert HasKey(FromPairs(ps), k) <==> HasKey(d, k) || k == last.0 by {
        PutKeys(d, last.0, last.1);
        HasKeyIn(d, k);
        HasKeyIn(FromPairs(ps), k);
      }
      assert (exists i :: 0 <= i < |ps| && ps[i].0 == k) <==>
             (exists i :: 0 <= i < |init| && init[i].0 == k) || k == last.0 by {
        if exists i :: 0 <= i < |ps| && ps[i].0 == k {
          var i :| 0 <= i < |ps| && ps[i].0 == k;
          if i < |init| { assert init[i] == ps[i]; }
        }
        if exists i :: 0 <= i < |init| && init[i].0 == k {
          var i :| 0 <= i < |init| && init[i].0 == k;
          assert ps[i] == init[i];
        }
      }
    }
  }

  /** `k in d` is `k in d.keys()`. */
  lemma HasKeyIn<K, V>(d: Dict<K, V>, k: K)
    ensures HasKey(d, k) <==> k in Keys(d)
  {
    if HasKey(d, k) {
      var i :| 0 <= i < |d| && d[i].0 == k;
      assert Keys(d)[i] == k;
    }
  }

  /** A key takes the value of its last pair: later pairs overwrite earlier ones. */
  lemma {:induction false} FromPairsLastWins<K, V>(ps: seq<(K, V)>, i: nat)
    requires i < |ps|
    requires forall j :: i < j < |ps| ==> ps[j].0 != ps[i].0
    ensures Get(FromPairs(ps), ps[i].0) == Some(ps[i].1)
    decreases |ps|
  {
    var init := ps[..|ps| - 1];
    var last := ps[|ps| - 1];
    PutGet(FromPairs(init), last.0, last.1, ps[i].0);
    if i < |ps| - 1 {
      assert init[i] == ps[i];
      FromPairsLastWins(init, i);
    }
  }

  /** Pairs whose keys are already distinct make exactly that dictionary. */
  lemma {:induction false} FromPairsDistinct<K, V>(ps: seq<(K, V)>)
    requires DistinctKeys(ps)
    ensures FromPairs(ps) == ps
    decreases |ps|
  {
    if ps != [] {
      var init := ps[..|ps| - 1];
      var last := ps[|ps| - 1];
      assert DistinctKeys(init);
      FromPairsDistinct(init);
      assert !HasKey(init, last.0);
      PutNew(init, last.0, last.1);
      assert init + [last] == ps;
    }
  }

  /** Two folds over pairs with the same keys in the same order end with the same keys. */
  lemma {:induction false} FromPairsSameKeys<K, V, W>(a: seq<(K, V)>, b: seq<(K, W)>)
    requires |a| == |b| && forall i :: 0 <= i < |a| ==> a[i].0 == b[i].0
    ensures Keys(FromPairs(a)) == Keys(FromPairs(b))
    decreases |a|
  {
    if a != [] {
      var n := |a| - 1;
      FromPairsSameKeys(a[..n], b[..n]);
      HasKeyIn(FromPairs(a[..n]), a[n].0);
      HasKeyIn(FromPairs(b[..n]), b[n].0);
    }
  }

  /**
   * A loop whose every successful iteration either writes key `k` or leaves it alone,
   * the same one of the two each time: afterwards `k` holds what the last iteration
   * wrote, or what it held before the loop.
   */
  lemma {:induction false} StepsLastWrite<K, V>(d: Dict<K, V>, idx: nat, n: nat,
                                              step: (Dict<K, V>, nat) -> Result<Dict<K, V>>,
                                              written: nat -> Option<V>, writes: bool, k: K)
    requires idx < n
    requires forall t, i :: idx <= i < n && step(t, i).Ok? ==>
               (written(i).Some? <==> writes) &&
               Get(step(t, i).value, k) == if writes then written(i) else Get(t, k)
    ensures Steps(d, idx, n, step).Ok? ==>
              Get(Steps(d, idx, n, step).value, k) == if writes then written(n - 1) else Get(d, k)
    decreases n - idx
  {
    var next := step(d, idx);
    if next.Ok? && idx + 1 < n {
      StepsLastWrite(next.value, idx + 1, n, step, written, writes, k);
    }
  }
}
