/**
 * scripts/process_disagg_approx.py: the loop over the POEs that writes one rupture list,
 * one conditioning intensity and the intensity-measure weights straight into `rs_input`,
 * so that each POE overwrites the previous one's.
 */
module DisaggApprox {
  import opened Outcomes
  import opened Dicts
  import opened Values
  import opened DisaggApproxDstore

  /** A rupture list as the JSON list stored under `rs_input["ruptures"]`. */
  function RupturesValue(rs: seq<Record>): (v: Value)
    ensures v.VList? && |v.items| == |rs|
  {
    VList(seq(|rs|, i requires 0 <= i < |rs| => VDict(rs[i])))
  }

  /** A list of weights as a JSON list of floats. */
  function WeightsValue(ws: seq<real>): (v: Value)
    ensures v.VList? && |v.items| == |ws|
  {
    VList(seq(|ws|, i requires 0 <= i < |ws| => VFloat(ws[i])))
  }

  /** The three keys one iteration writes, in the order it writes them. */
  function Store(rsInput: Record, ruptures: Value, imStar: Value, weights: Value): (r: Record) {
    Put(Put(Put(rsInput, "ruptures", ruptures), "im-star", imStar), "im_weights", weights)
  }

  lemma StoreGet(rsInput: Record, ruptures: Value, imStar: Value, weights: Value, k: string)
    ensures Get(Store(rsInput, ruptures, imStar, weights), k) ==
              if k == "ruptures" then Some(ruptures)
              else if k == "im-star" then Some(imStar)
              else if k == "im_weights" then Some(weights)
              else Get(rsInput, k)
  {
    PutGet(rsInput, "ruptures", ruptures, k);
    PutGet(Put(rsInput, "ruptures", ruptures), "im-star", imStar, k);
    PutGet(Put(Put(rsInput, "ruptures", ruptures), "im-star", imStar), "im_weights", weights, k);
  }

  /**
   * The exception of an iteration that cannot complete: a POE without a disaggregation
   * raises `KeyError`, a short array or a missing intensity level `IndexError`, and no
   * intensity measure `ZeroDivisionError`.
   */
  function StepError(poes: seq<real>, idx: nat, disaggs: Dict<real, Disagg>, imls: seq<Value>, imi: seq<string>): (r: Error)
    requires idx < |poes|
  {
    var d := Get(disaggs, poes[idx]);
    if d.None? then KeyError
    else if !Aligned(d.value) || idx >= |imls| then IndexError
    else ZeroDivisionError
  }

  /** One iteration, for the POE at position `idx`: it sets `ruptures`, `im-star` and `im_weights`. */
  function ApproxStep(rsInput: Record, poes: seq<real>, idx: nat, disaggs: Dict<real, Disagg>, imt: string,
                      imls: seq<Value>, imi: seq<string>): (r: Result<Record>)
    requires idx < |poes|
  {
    if PoeBuildable(poes, disaggs, imls, idx) && imi != [] then
      var rs := Ruptures(Get(disaggs, poes[idx]).value).value;
      Ok(Store(rsInput, RupturesValue(rs), VDict(ImStar(imt, imls[idx])), WeightsValue(ImWeights(imi).value)))
    else Err(StepError(poes, idx, disaggs, imls, imi))
  }

  /** The body of the loop, for any position: past the last POE there is none to index. */
  function Iteration(poes: seq<real>, disaggs: Dict<real, Disagg>, imt: string, imls: seq<Value>,
                     imi: seq<string>): (Record, nat) -> Result<Record> {
    (s: Record, idx: nat) => if idx < |poes| then ApproxStep(s, poes, idx, disaggs, imt, imls, imi) else Err(IndexError)
  }

  /** The iterations from position `idx` on, ending at the first error. */
  function ApproxFrom(rsInput: Record, poes: seq<real>, idx: nat, disaggs: Dict<real, Disagg>, imt: string,
                      imls: seq<Value>, imi: seq<string>): (r: Result<Record>)
    requires idx <= |poes|
  {
    Steps(rsInput, idx, |poes|, Iteration(poes, disaggs, imt, imls, imi))
  }

  /** The loop of the script, on `rs_input` as it is before the loop. */
  method ProcessPoes(rsInput: Record, poes: seq<real>, disaggs: Dict<real, Disagg>, imt: string,
                     imls: seq<Value>, imi: seq<string>)
    returns (r: Result<Record>)
    ensures r == ApproxFrom(rsInput, poes, 0, disaggs, imt, imls, imi)
  {
    var current := rsInput;
    for idx := 0 to |poes|
      invariant ApproxFrom(current, poes, idx, disaggs, imt, imls, imi) == ApproxFrom(rsInput, poes, 0, disaggs, imt, imls, imi)
    {
      var d := Get(disaggs, poes[idx]);
      if d.None? {
        return Err(KeyError);
      }
      var ruptures := BuildRuptures(d.value);
      if ruptures.Err? {
        return Err(ruptures.error);
      }
      current := Put(current, "ruptures", RupturesValue(ruptures.value));
      if idx >= |imls| {
        return Err(IndexError);
      }
      current := Put(current, "im-star", VDict(ImStar(imt, imls[idx])));
      var weights := ImWeights(imi);
      if weights.Err? {
        return Err(weights.error);
      }
      current := Put(current, "im_weights", WeightsValue(weights.value));
    }
    return Ok(current);
  }

  /** What the iteration for the POE at `idx` writes under `k`, if it writes `k` at all. */
  function Written(poes: seq<real>, idx: nat, disaggs: Dict<real, Disagg>, imt: string, imls: seq<Value>,
                   imi: seq<string>, k: string): (r: Option<Value>)
    requires idx < |poes| && PoeBuildable(poes, disaggs, imls, idx) && imi != []
  {
    if k == "ruptures" then Some(RupturesValue(Ruptures(Get(disaggs, poes[idx]).value).value))
    else if k == "im-star" then Some(VDict(ImStar(imt, imls[idx])))
    else if k == "im_weights" then Some(WeightsValue(ImWeights(imi).value))
    else None
  }

  /**
   * One iteration succeeds exactly when its POE is buildable and there is an intensity
   * measure; it then sets its three keys and leaves every other key as it was.
   */
  lemma ApproxStepGet(rsInput: Record, poes: seq<real>, idx: nat, disaggs: Dict<real, Disagg>, imt: string,
                      imls: seq<Value>, imi: seq<string>, k: string)
    requires idx < |poes|
    ensures var s := ApproxStep(rsInput, poes, idx, disaggs, imt, imls, imi);
            s.Ok? <==> PoeBuildable(poes, disaggs, imls, idx) && imi != []
    ensures var s := ApproxStep(rsInput, poes, idx, disaggs, imt, imls, imi);
            s.Ok? ==> var w := Written(poes, idx, disaggs, imt, imls, imi, k);
                      Get(s.value, k) == if w.Some? then w else Get(rsInput, k)
  {
    if PoeBuildable(poes, disaggs, imls, idx) && imi != [] {
      var rs := Ruptures(Get(disaggs, poes[idx]).value).value;
      StoreGet(rsInput, RupturesValue(rs), VDict(ImStar(imt, imls[idx])), WeightsValue(ImWeights(imi).value), k);
    }
  }

  /** Whether the iteration at position `idx` can complete. */
  function Completes(poes: seq<real>, disaggs: Dict<real, Disagg>, imls: seq<Value>, imi: seq<string>): (r: nat -> bool) {
    (idx: nat) => idx < |poes| && PoeBuildable(poes, disaggs, imls, idx) && imi != []
  }

  /** The loop succeeds exactly when every remaining POE can be processed; with none left nothing changes. */
  lemma ApproxFromOk(rsInput: Record, poes: seq<real>, idx: nat, disaggs: Dict<real, Disagg>,
                     imt: string, imls: seq<Value>, imi: seq<string>)
    requires idx <= |poes|
    ensures var r := ApproxFrom(rsInput, poes, idx, disaggs, imt, imls, imi);
            r.Ok? <==> idx == |poes| || (imi != [] && forall j :: idx <= j < |poes| ==> PoeBuildable(poes, disaggs, imls, j))
    ensures idx == |poes| ==> ApproxFrom(rsInput, poes, idx, disaggs, imt, imls, imi) == Ok(rsInput)
  {
    var step, ok := Iteration(poes, disaggs, imt, imls, imi), Completes(poes, disaggs, imls, imi);
    forall t, i | idx <= i < |poes| ensures step(t, i).Ok? <==> ok(i) {
      ApproxStepGet(t, poes, i, disaggs, imt, imls, imi, "");
    }
    StepsOk(rsInput, idx, |poes|, step, ok);
    if idx < |poes| {
      if forall j :: idx <= j < |poes| ==> ok(j) {
        assert ok(idx);
        forall j | idx <= j < |poes| ensures PoeBuildable(poes, disaggs, imls, j) {
          assert ok(j);
        }
      } else {
        var j :| idx <= j < |poes| && !ok(j);
        assert !(imi != [] && PoeBuildable(poes, disaggs, imls, j));
      }
    }
  }

  /** What the iteration at each position writes under `k`, if it completes. */
  function WrittenAt(poes: seq<real>, disaggs: Dict<real, Disagg>, imt: string, imls: seq<Value>,
                     imi: seq<string>, k: string): (r: nat -> Option<Value>) {
    (i: nat) => if i < |poes| && PoeBuildable(poes, disaggs, imls, i) && imi != [] then Written(poes, i, disaggs, imt, imls, imi, k) else None
  }

  /** An iteration that completes writes `k` exactly when `k` is one of its three keys. */
  lemma IterationWrites(poes: seq<real>, disaggs: Dict<real, Disagg>, imt: string, imls: seq<Value>,
                        imi: seq<string>, k: string, t: Record, i: nat)
    requires i < |poes| && Iteration(poes, disaggs, imt, imls, imi)(t, i).Ok?
    ensures var writes := k in ["ruptures", "im-star", "im_weights"];
            var written := WrittenAt(poes, disaggs, imt, imls, imi, k);
            (written(i).Some? <==> writes) &&
            Get(Iteration(poes, disaggs, imt, imls, imi)(t, i).value, k) == if writes then written(i) else Get(t, k)
  {
    ApproxStepGet(t, poes, i, disaggs, imt, imls, imi, k);
    WrittenKeys(poes, i, disaggs, imt, imls, imi, k);
  }

  /**
   * After the loop, `ruptures`, `im-star` and `im_weights` are those of the last POE,
   * whatever the earlier POEs wrote, and every other key is as before the loop.
   */
  lemma OnlyLastPoeRemains(rsInput: Record, poes: seq<real>, idx: nat, disaggs: Dict<real, Disagg>,
                           imt: string, imls: seq<Value>, imi: seq<string>, k: string)
    requires idx < |poes| && ApproxFrom(rsInput, poes, idx, disaggs, imt, imls, imi).Ok?
    ensures PoeBuildable(poes, disaggs, imls, |poes| - 1) && imi != []
    ensures Get(ApproxFrom(rsInput, poes, idx, disaggs, imt, imls, imi).value, k) ==
              if k in ["ruptures", "im-star", "im_weights"] then Written(poes, |poes| - 1, disaggs, imt, imls, imi, k)
              else Get(rsInput, k)
  {
    ApproxFromOk(rsInput, poes, idx, disaggs, imt, imls, imi);
    assert PoeBuildable(poes, disaggs, imls, |poes| - 1);
    var step := Iteration(poes, disaggs, imt, imls, imi);
    var written := WrittenAt(poes, disaggs, imt, imls, imi, k);
    var writes := k in ["ruptures", "im-star", "im_weights"];
    forall t, i | idx <= i < |poes| && step(t, i).Ok?
      ensures (written(i).Some? <==> writes) && Get(step(t, i).value, k) == if writes then written(i) else Get(t, k)
    {
      IterationWrites(poes, disaggs, imt, imls, imi, k, t, i);
    }
    StepsLastWrite(rsInput, idx, |poes|, step, written, writes, k);
    assert written(|poes| - 1) == Written(poes, |poes| - 1, disaggs, imt, imls, imi, k);
  }

  /** Every iteration writes the same three keys. */
  lemma WrittenKeys(poes: seq<real>, idx: nat, disaggs: Dict<real, Disagg>, imt: string, imls: seq<Value>,
                    imi: seq<string>, k: string)
    requires idx < |poes| && PoeBuildable(poes, disaggs, imls, idx) && imi != []
    ensures Written(poes, idx, disaggs, imt, imls, imi, k).Some? <==> k in ["ruptures", "im-star", "im_weights"]
  {
  }
}
