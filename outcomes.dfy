/** Optional values, results and the Python exceptions the modelled code can raise. */
module Outcomes {

  datatype Option<+T> = None | Some(value: T)

  /** The exception kinds raised by the modelled scripts. */
  datatype Error =
    | KeyError          // a missing dictionary key
    | IndexError        // a list or array index out of range, or an invalid array index
    | ValueError        // a failed lookup or conversion (`list.index`, `np.argmin` of nothing,
                        // `float`, a ragged array, the `im_ref` check)
    | TypeError         // an operation applied to a value of the wrong kind
    | ZeroDivisionError // `1 / 0`
    | AttributeError    // a method the value does not have (`.keys()` of a list)
    | OSError           // a file that cannot be opened

  datatype Result<+T> = Ok(value: T) | Err(error: Error)

  /** `[g(x) for x in xs]`, ending at the first element whose `g` raises. */
  function MapResult<A, B>(xs: seq<A>, g: A -> Result<B>): (r: Result<seq<B>>)
    decreases |xs|
  {
    if xs == [] then Ok([])
    else
      var y := g(xs[0]);
      if y.Err? then Err(y.error)
      else
        var ys := MapResult(xs[1..], g);
        if ys.Err? then ys else Ok([y.value] + ys.value)
  }

  /**
   * The map succeeds exactly when `g` succeeds on every element, and then holds each
   * result at its element's position; otherwise it fails with the error of the first
   * element that fails.
   */
  lemma {:induction false} MapResultOk<A, B>(xs: seq<A>, g: A -> Result<B>)
    ensures var r := MapResult(xs, g);
            r.Ok? <==> forall i :: 0 <= i < |xs| ==> g(xs[i]).Ok?
    ensures var r := MapResult(xs, g);
            r.Ok? ==> |r.value| == |xs| && forall i :: 0 <= i < |xs| ==> g(xs[i]).Ok? && r.value[i] == g(xs[i]).value
    ensures var r := MapResult(xs, g);
            r.Err? ==> exists i :: 0 <= i < |xs| && g(xs[i]) == Err(r.error) &&
                                   forall j :: 0 <= j < i ==> g(xs[j]).Ok?
    decreases |xs|
  {
    if xs != [] {
      var tail := xs[1..];
      MapResultOk(tail, g);
      forall i | 0 <= i < |tail| ensures tail[i] == xs[i + 1] { }
      var r := MapResult(xs, g);
      if g(xs[0]).Ok? {
        var ys := MapResult(tail, g);
        if ys.Ok? {
          assert r.value == [g(xs[0]).value] + ys.value;
          forall i | 0 <= i < |xs| ensures g(xs[i]).Ok? && r.value[i] == g(xs[i]).value {
            if i > 0 {
              assert r.value[i] == ys.value[i - 1];
            }
          }
        } else {
          var k :| 0 <= k < |tail| && g(tail[k]) == Err(ys.error) && forall j :: 0 <= j < k ==> g(tail[j]).Ok?;
          assert g(xs[k + 1]) == Err(r.error);
          forall j | 0 <= j < k + 1 ensures g(xs[j]).Ok? {
            if j > 0 {
              assert g(tail[j - 1]).Ok?;
            }
          }
        }
      } else {
        assert g(xs[0]) == Err(r.error);
      }
    }
  }

  /** The map fails with the error of an element that fails after only successes. */
  lemma FirstErr<A, B>(xs: seq<A>, g: A -> Result<B>, i: nat)
    requires i < |xs| && g(xs[i]).Err? && forall j :: 0 <= j < i ==> g(xs[j]).Ok?
    ensures MapResult(xs, g) == Err(g(xs[i]).error)
  {
    MapResultOk(xs, g);
    var r := MapResult(xs, g);
    var k :| 0 <= k < |xs| && g(xs[k]) == Err(r.error) && forall j :: 0 <= j < k ==> g(xs[j]).Ok?;
    assert !(k < i) && !(i < k);
  }

  /** The loop `for x in xs: ys.append(g(x))`, stopping at the first exception. */
  method MapEach<A, B>(xs: seq<A>, g: A -> Result<B>) returns (r: Result<seq<B>>)
    ensures r == MapResult(xs, g)
  {
    MapResultOk(xs, g);
    var ys := [];
    for i := 0 to |xs|
      invariant |ys| == i
      invariant forall j :: 0 <= j < i ==> g(xs[j]).Ok? && ys[j] == g(xs[j]).value
    {
      var y := g(xs[i]);
      if y.Err? {
        FirstErr(xs, g, i);
        return Err(y.error);
      }
      ys := ys + [y.value];
    }
    assert ys == MapResult(xs, g).value;
    return Ok(ys);
  }

  /**
   * `for i in range(idx, n): s = step(s, i)`, a loop whose body may raise: it stops at
   * the first exception.
   */
  function Steps<S>(s: S, idx: nat, n: nat, step: (S, nat) -> Result<S>): (r: Result<S>)
    requires idx <= n
    decreases n - idx
  {
    if idx == n then Ok(s)
    else
      var next := step(s, idx);
      if next.Err? then next else Steps(next.value, idx + 1, n, step)
  }

  /**
   * When whether an iteration succeeds does not depend on the state it starts from, the
   * loop succeeds exactly when each of its iterations does.
   */
  lemma {:induction false} StepsOk<S>(s: S, idx: nat, n: nat, step: (S, nat) -> Result<S>, ok: nat -> bool)
    requires idx <= n
    requires forall t, i :: idx <= i < n ==> (step(t, i).Ok? <==> ok(i))
    ensures Steps(s, idx, n, step).Ok? <==> forall j :: idx <= j < n ==> ok(j)
    decreases n - idx
  {
    if idx < n {
      var next := step(s, idx);
      if next.Ok? {
        StepsOk(next.value, idx + 1, n, step, ok);
      }
    }
  }
}
